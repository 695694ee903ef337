/** The signal-name validation of `Signaled.__init__` (rotator.py:66-69):
    the name given is valid exactly when the platform's `signal` module has an
    attribute `SIG` + name, and the signal stored is that attribute's value.

    The platform table is fixed here as the names and numbers that Python 2.7's
    `signal` module defines on Linux. Two of its `SIG`-prefixed attributes are
    not signals but handler constants, `SIG_DFL` and `SIG_IGN`; the source's
    `hasattr` test accepts them too (the names "_DFL" and "_IGN"). */
module Signals {
  import opened Errors

  /** Every attribute of the platform's `signal` module whose name starts with
      "SIG", with its value. */
  const Table: map<string, int> := map[
    "SIG_DFL" := 0, "SIG_IGN" := 1,
    "SIGHUP" := 1, "SIGINT" := 2, "SIGQUIT" := 3, "SIGILL" := 4,
    "SIGTRAP" := 5, "SIGABRT" := 6, "SIGIOT" := 6, "SIGBUS" := 7,
    "SIGFPE" := 8, "SIGKILL" := 9, "SIGUSR1" := 10, "SIGSEGV" := 11,
    "SIGUSR2" := 12, "SIGPIPE" := 13, "SIGALRM" := 14, "SIGTERM" := 15,
    "SIGCHLD" := 17, "SIGCLD" := 17, "SIGCONT" := 18, "SIGSTOP" := 19,
    "SIGTSTP" := 20, "SIGTTIN" := 21, "SIGTTOU" := 22, "SIGURG" := 23,
    "SIGXCPU" := 24, "SIGXFSZ" := 25, "SIGVTALRM" := 26, "SIGPROF" := 27,
    "SIGWINCH" := 28, "SIGIO" := 29, "SIGPOLL" := 29, "SIGPWR" := 30,
    "SIGSYS" := 31, "SIGRTMIN" := 34, "SIGRTMAX" := 64
  ]

  /** `getattr(signal, 'SIG' + sig)`, failing with the source's `ValueError`
      when there is no such attribute. */
  function Lookup(sig: string): (r: Result<int>)
    ensures r.Success? <==> "SIG" + sig in Table
    ensures r.Success? ==> r.value == Table["SIG" + sig]
    ensures r.Failure? ==> r.error == NoSuchSignal(sig)
  {
    if "SIG" + sig in Table then Success(Table["SIG" + sig]) else Failure(NoSuchSignal(sig))
  }

  /** The attribute test also accepts the two handler constants: "_DFL"
      yields 0, which is no signal, and "_IGN" yields 1, the number of SIGHUP.
      So a `Signaled` built with `sig='_IGN'` reopens on SIGHUP. */
  lemma LookupHandlerConstants()
    ensures Lookup("_DFL") == Success(0)
    ensures Lookup("_IGN") == Success(1) == Lookup("HUP")
  {
    assert "SIG" + "_DFL" == "SIG_DFL";
    assert "SIG" + "_IGN" == "SIG_IGN";
    LookupDefault();
  }

  /** The default name. */
  lemma LookupDefault()
    ensures Lookup("HUP") == Success(1)
  {
    assert "SIG" + "HUP" == "SIGHUP";
  }

  /** The name the signal test uses. */
  lemma LookupUser1()
    ensures Lookup("USR1") == Success(10)
  {
    assert "SIG" + "USR1" == "SIGUSR1";
  }

  /** The name the missing-signal test uses: there is no such signal. */
  lemma LookupUnknown()
    ensures Lookup("JSLFJKSFJ") == Failure(NoSuchSignal("JSLFJKSFJ"))
  {
    assert "SIG" + "JSLFJKSFJ" == "SIGJSLFJKSFJ";
  }

  /** The name is used as written: no case folding ... */
  lemma LookupCaseSensitive()
    ensures Lookup("hup").Failure?
  {
    assert "SIG" + "hup" == "SIGhup";
  }

  /** ... and no "SIG" prefix of its own. */
  lemma LookupNoPrefix()
    ensures Lookup("SIGHUP").Failure?
  {
    assert "SIG" + "SIGHUP" == "SIGSIGHUP";
  }
}

/** The rotator classes of rotator.py: a `Rotator` relays the lines of its
    input stream to the `rotator` logger, one record per line, through the
    handler it attached; `reopen` swaps that handler for another. `Watched`,
    `Signaled` and `Rotated` differ only in the handler they build (and, for
    `Signaled`, in reopening a plain file handler on demand).

    The logger is the process-wide `logging.getLogger('rotator')`; here it is
    passed in, so that two rotators built on the same logger share it as they
    do in the source. The source's subclasses become a `Signaled` class that
    holds its `Rotator`, and factory methods for the other two. */
module Rotators {
  import opened Errors
  import opened Size
  import opened Signals
  import opened Lines
  import opened Logging

  /** The default `mode` of every rotator (rotator.py:59, 66, 85). */
  const DefaultMode: string := "a"
  /** The default `sig` of `Signaled` (rotator.py:66). */
  const DefaultSignal: string := "HUP"
  /** The `backupCount` used when `count` is `None` or 0 (rotator.py:87). */
  const DefaultCount: int := 5

  class Rotator {
    const fin: InputStream
    const logger: Logger
    var handler: Handler

    /** The logger is consistent and the rotator's handler is attached to it. */
    ghost predicate Valid()
      reads this, logger
    {
      logger.Valid() && handler in logger.handlers
    }

    /** `Rotator.__init__`: keep the stream and the handler, and attach the
        handler to the logger. */
    constructor (handler: Handler, fin: InputStream, logger: Logger)
      requires logger.Valid()
      modifies logger
      ensures this.handler == handler && this.fin == fin && this.logger == logger
      ensures logger.handlers == Attach(old(logger.handlers), handler)
      ensures logger.history == old(logger.history) + [logger.handlers]
      ensures logger.records == old(logger.records)
      ensures Valid()
    {
      this.fin := fin;
      this.handler := handler;
      this.logger := logger;
      new;
      logger.AddHandler(handler);
    }

    /** `reopen`: attach the new handler first, then detach the old one, so
        that some handler is attached at every moment in between and nothing
        logged meanwhile is lost. Reopening with the handler already in use
        detaches it (adding it again changes nothing, removing it takes it
        off), after which the rotator is no longer `Valid`. */
    method Reopen(h: Handler)
      requires Valid()
      modifies this, logger
      ensures handler == h
      ensures logger.handlers == Detach(Attach(old(logger.handlers), h), old(handler))
      ensures logger.history == old(logger.history) + [Attach(old(logger.handlers), h), logger.handlers]
      ensures logger.records == old(logger.records)
      ensures logger.Valid()
      ensures old(handler) !in logger.handlers
      ensures h != old(handler) ==> Valid()
      ensures h != old(handler) ==>
        forall i :: |old(logger.history)| <= i < |logger.history| ==> logger.history[i] != []
      ensures h != old(handler) ==>
        forall i :: 0 <= i < |logger.handlers| ==>
          (logger.handlers[i] in old(logger.handlers) || logger.handlers[i] == h) && logger.handlers[i] != old(handler)
    {
      if h != handler {
        SwapHandlers(logger.handlers, handler, h);
      }
      logger.AddHandler(h);
      logger.RemoveHandler(handler);
      handler := h;
    }

    /** `lines`: every line of the input up to its end, with the newlines at
        either end stripped, read with `readline` (unbuffered) or by iterating
        over the stream (buffered). Both modes yield the same lines, and leave
        unread whatever follows the end of input. */
    method Lines(buffered: bool) returns (out: seq<string>)
      modifies fin
      ensures out == UntilEof(old(fin.pending))
      ensures fin.pending == AfterEof(old(fin.pending))
    {
      UntilEofIsStrippedPrefix(fin.pending);
      if buffered {
        out := IterateLines();
      } else {
        out := ReadLines();
      }
    }

    /** The buffered branch of `lines`: `for line in fin`. */
    method IterateLines() returns (out: seq<string>)
      modifies fin
      ensures out == Stripped(old(fin.pending)[..EofIndex(old(fin.pending))])
      ensures fin.pending == AfterEof(old(fin.pending))
    {
      ghost var rs := fin.pending;
      ghost var i := 0;
      out := [];
      var item := fin.Next();
      while item.Some?
        invariant i <= EofIndex(rs)
        invariant out == Stripped(rs[..i])
        invariant item.Some? <==> i < EofIndex(rs)
        invariant item.Some? ==> item.value == rs[i] && fin.pending == rs[i + 1..]
        invariant item.None? ==> fin.pending == AfterEof(rs)
        decreases EofIndex(rs) - i
      {
        StrippedPrefix(rs, i);
        out := out + [Strip(item.value)];
        i := i + 1;
        item := fin.Next();
      }
    }

    /** The unbuffered branch of `lines`: `readline` until it returns the
        empty string. */
    method ReadLines() returns (out: seq<string>)
      modifies fin
      ensures out == Stripped(old(fin.pending)[..EofIndex(old(fin.pending))])
      ensures fin.pending == AfterEof(old(fin.pending))
    {
      ghost var rs := fin.pending;
      ghost var i := 0;
      out := [];
      var line := fin.ReadLine();
      while line != ""
        invariant i <= EofIndex(rs)
        invariant out == Stripped(rs[..i])
        invariant line != "" <==> i < EofIndex(rs)
        invariant line != "" ==> line == rs[i] && fin.pending == rs[i + 1..]
        invariant line == "" ==> fin.pending == AfterEof(rs)
        decreases EofIndex(rs) - i
      {
        StrippedPrefix(rs, i);
        out := out + [Strip(line)];
        i := i + 1;
        line := fin.ReadLine();
      }
    }

    /** `run`: log every line of the input, in order, as one record each, to
        the handlers attached; the handlers themselves do not change. */
    method Run(buffered: bool)
      requires Valid()
      modifies fin, logger
      ensures logger.records == old(logger.records) + Deliveries(UntilEof(old(fin.pending)), logger.handlers)
      ensures logger.handlers == old(logger.handlers) && logger.history == old(logger.history)
      ensures fin.pending == AfterEof(old(fin.pending))
      ensures Valid()
    {
      var ls := Lines(buffered);
      LogLines(ls);
    }

    /** The loop of `run`: `logger.debug` on each line in turn. */
    method LogLines(ls: seq<string>)
      requires Valid()
      modifies logger
      ensures logger.records == old(logger.records) + Deliveries(ls, logger.handlers)
      ensures logger.handlers == old(logger.handlers) && logger.history == old(logger.history)
      ensures Valid()
    {
      for i := 0 to |ls|
        invariant logger.Valid()
        invariant logger.handlers == old(logger.handlers) && logger.history == old(logger.history)
        invariant logger.records == old(logger.records) + Deliveries(ls[..i], logger.handlers)
      {
        DeliveriesPrefix(ls, i, logger.handlers);
        logger.Debug(ls[i]);
      }
      assert ls[..|ls|] == ls;
    }
  }

  /** The buffered-reading test: a watched rotator over a pipe that returns
      "hello" 1000 times and then the empty string yields the 1000 lines. */
  method BufferedThousandHellos() returns (out: seq<string>)
    ensures out == seq(1000, _ => "hello")
  {
    var hellos := seq(1000, _ => "hello");
    var fin := new InputStream(hellos + [""]);
    var logger := new Logger();
    var r := NewWatched("tmp/foo.out", DefaultMode, fin, logger);
    out := r.Lines(true);
    ThousandHellos();
  }

  /** `Watched`: a rotator writing through a `WatchedFileHandler`, which
      reopens its file when the file is moved or removed. */
  method NewWatched(path: string, mode: string, fin: InputStream, logger: Logger) returns (r: Rotator)
    requires logger.Valid()
    modifies logger
    ensures fresh(r) && fresh(r.handler) && r.Valid()
    ensures r.handler.kind == WatchedFile && r.handler.path == path && r.handler.mode == mode
    ensures r.fin == fin && r.logger == logger
    ensures logger.handlers == old(logger.handlers) + [r.handler]
    ensures logger.records == old(logger.records)
  {
    var h := new Handler(WatchedFile, path, mode);
    r := new Rotator(h, fin, logger);
  }

  /** `Signaled`: a rotator writing through a plain `FileHandler`, which
      reopens its file when told to (on the signal it names). */
  class Signaled {
    const signal: int
    const path: string
    const rotator: Rotator

    constructor (signal: int, path: string, rotator: Rotator)
      ensures this.signal == signal && this.path == path && this.rotator == rotator
    {
      this.signal := signal;
      this.path := path;
      this.rotator := rotator;
    }

    ghost predicate Valid()
      reads this, rotator, rotator.logger
    {
      rotator.Valid()
    }

    /** `handle`: reopen the file at `path` with a new handler in the default
        mode. The handler is new, so the swap never leaves the logger without
        one and the old handler is detached. */
    method Handle()
      requires Valid()
      modifies rotator, rotator.logger
      ensures Valid()
      ensures fresh(rotator.handler)
      ensures rotator.handler.kind == PlainFile && rotator.handler.path == path
      ensures rotator.handler.mode == DefaultMode
      ensures rotator.logger.handlers
           == Detach(old(rotator.logger.handlers) + [rotator.handler], old(rotator.handler))
      ensures old(rotator.handler) !in rotator.logger.handlers
      ensures forall i :: |old(rotator.logger.history)| <= i < |rotator.logger.history| ==>
        rotator.logger.history[i] != []
      ensures rotator.logger.records == old(rotator.logger.records)
    {
      var h := new Handler(PlainFile, path, DefaultMode);
      rotator.Reopen(h);
    }

    /** `run`: relay the input as `Rotator.run` does. */
    method Run(buffered: bool)
      requires Valid()
      modifies rotator.fin, rotator.logger
      ensures rotator.logger.records
           == old(rotator.logger.records) + Deliveries(UntilEof(old(rotator.fin.pending)), rotator.logger.handlers)
      ensures rotator.logger.handlers == old(rotator.logger.handlers)
      ensures rotator.fin.pending == AfterEof(old(rotator.fin.pending))
      ensures Valid()
    {
      rotator.Run(buffered);
    }
  }

  /** `Signaled.__init__` with the input stream passed on: the signal name is
      checked before anything is built, and an unknown one leaves the logger
      as it was. */
  method NewSignaled(path: string, mode: string, sig: string, fin: InputStream, logger: Logger)
    returns (r: Result<Signaled>)
    requires logger.Valid()
    modifies logger
    ensures r.Failure? <==> Lookup(sig).Failure?
    ensures r.Failure? ==> r.error == NoSuchSignal(sig) && unchanged(logger)
    ensures r.Success? ==>
      && fresh(r.value) && fresh(r.value.rotator) && fresh(r.value.rotator.handler)
      && r.value.Valid()
      && r.value.signal == Lookup(sig).value && r.value.path == path
      && r.value.rotator.fin == fin && r.value.rotator.logger == logger
      && r.value.rotator.handler.kind == PlainFile
      && r.value.rotator.handler.path == path && r.value.rotator.handler.mode == mode
      && logger.handlers == old(logger.handlers) + [r.value.rotator.handler]
      && logger.records == old(logger.records)
  {
    match Lookup(sig)
    case Failure(e) =>
      r := Failure(e);
    case Success(signum) =>
      var h := new Handler(PlainFile, path, mode);
      var rot := new Rotator(h, fin, logger);
      var s := new Signaled(signum, path, rot);
      r := Success(s);
  }

  /** `Signaled.__init__` as written: the `fin` argument is kept nowhere,
      and the rotator reads the process's standard input, `stdin`, whatever
      stream was passed. */
  method NewSignaledAsWritten(path: string, mode: string, sig: string,
                              fin: InputStream, stdin: InputStream, logger: Logger)
    returns (r: Result<Signaled>)
    requires logger.Valid()
    modifies logger
    ensures r.Failure? <==> Lookup(sig).Failure?
    ensures r.Failure? ==> r.error == NoSuchSignal(sig) && unchanged(logger)
    ensures r.Success? ==>
      && fresh(r.value) && fresh(r.value.rotator) && fresh(r.value.rotator.handler)
      && r.value.Valid()
      && r.value.signal == Lookup(sig).value && r.value.path == path
      && r.value.rotator.fin == stdin && r.value.rotator.logger == logger
      && r.value.rotator.handler.kind == PlainFile
      && r.value.rotator.handler.path == path && r.value.rotator.handler.mode == mode
      && logger.handlers == old(logger.handlers) + [r.value.rotator.handler]
      && logger.records == old(logger.records)
  {
    match Lookup(sig)
    case Failure(e) =>
      r := Failure(e);
    case Success(signum) =>
      var h := new Handler(PlainFile, path, mode);
      var rot := new Rotator(h, stdin, logger);
      var s := new Signaled(signum, path, rot);
      r := Success(s);
  }

  /** The discrepancy: a `Signaled` rotator built as written on a stream
      other than standard input does not read that stream, and its `run`
      relays the lines of standard input instead. */
  method SignaledIgnoresFin(path: string, fin: InputStream, stdin: InputStream, logger: Logger)
    returns (s: Signaled)
    requires fin != stdin && logger.Valid()
    modifies logger
    ensures s.Valid()
    ensures s.rotator.fin == stdin && s.rotator.fin != fin
  {
    LookupDefault();
    var r := NewSignaledAsWritten(path, DefaultMode, DefaultSignal, fin, stdin, logger);
    s := r.value;
  }

  // ---------------------------------------------------------------------------
  // `Rotated`: the size and count arguments

  /** The values `Rotated`'s `size` argument takes: none, an integer, or a
      string. */
  datatype SizeArg = NoSize | IntSize(n: int) | TextSize(text: string)

  /** `str(size or 0)`: `None`, 0 and the empty string are all read as "0". */
  function SizeText(size: SizeArg): (t: string)
    ensures t != ""
  {
    match size
    case NoSize => "0"
    case IntSize(n) => if n == 0 then "0" else IntText(n)
    case TextSize(s) => if s == "" then "0" else s
  }

  /** `count or 5` */
  function BackupCount(count: Option<int>): (c: int)
    ensures c != 0
  {
    match count
    case None => DefaultCount
    case Some(n) => if n == 0 then DefaultCount else n
  }

  /** What `Rotated` hands to its `RotatingFileHandler`. */
  datatype Limits = Limits(maxBytes: nat, backupCount: int)

  /** The handler limits of `Rotated.__init__`, or the size parser's error. */
  function RotatedLimits(size: SizeArg, count: Option<int>): (r: Result<Limits>)
    ensures r.Failure? ==> r.error == SizeMismatch(SizeText(size))
    ensures r.Success? ==> r.value.backupCount != 0
  {
    match ParseSize(SizeText(size))
    case Failure(e) => Failure(e)
    case Success(n) => Success(Limits(n, BackupCount(count)))
  }

  /** Leaving both arguments out, or giving any falsy value for them, gives a
      handler that never rolls over (size 0) and keeps five backups. */
  lemma RotatedDefaults(size: SizeArg, count: Option<int>)
    requires size == NoSize || size == IntSize(0) || size == TextSize("")
    requires count == None || count == Some(0)
    ensures RotatedLimits(size, count) == Success(Limits(0, 5))
  {
    IntTextRoundTrip(0);
    assert IntText(0) == "0";
  }

  /** An integer size is used as it is, and a negative one is rejected. */
  lemma RotatedIntSize(n: int, count: Option<int>)
    ensures n >= 0 ==> RotatedLimits(IntSize(n), count) == Success(Limits(n, BackupCount(count)))
    ensures n < 0 ==> RotatedLimits(IntSize(n), count) == Failure(SizeMismatch(IntText(n)))
  {
    IntTextRoundTrip(n);
    IntTextRoundTrip(0);
    assert IntText(0) == "0";
  }

  /** A non-empty string size is accepted exactly when it is in the size
      grammar, and then has the value the grammar gives it. */
  lemma RotatedTextSize(t: string, count: Option<int>)
    requires t != ""
    ensures RotatedLimits(TextSize(t), count).Success? <==> InGrammar(t)
    ensures RotatedLimits(TextSize(t), count).Failure? ==> RotatedLimits(TextSize(t), count).error == SizeMismatch(t)
    ensures RotatedLimits(TextSize(t), count).Success? ==>
      exists lead, digits, mid, unit, trail ::
        && Form(lead, digits, mid, unit, trail)
        && t == lead + digits + mid + unit + trail
        && RotatedLimits(TextSize(t), count).value == Limits(Denotation(digits, unit), BackupCount(count))
  {
    ParseRejects(t);
    if ParseSize(t).Success? {
      ParseSound(t);
    }
  }

  /** A non-zero count is used as it is, whatever the size. */
  lemma RotatedCount(size: SizeArg, c: int)
    requires c != 0
    requires RotatedLimits(size, Some(c)).Success?
    ensures RotatedLimits(size, Some(c)).value.backupCount == c
  {
  }

  /** `Rotated`: a rotator writing through a `RotatingFileHandler` that rolls
      its file over at `maxBytes` and keeps `backupCount` old ones. A size the
      parser rejects raises before anything is built. */
  method NewRotated(path: string, mode: string, size: SizeArg, count: Option<int>,
                    fin: InputStream, logger: Logger) returns (r: Result<Rotator>)
    requires logger.Valid()
    modifies logger
    ensures r.Failure? <==> RotatedLimits(size, count).Failure?
    ensures r.Failure? ==> r.error == SizeMismatch(SizeText(size)) && unchanged(logger)
    ensures r.Success? ==>
      && fresh(r.value) && fresh(r.value.handler) && r.value.Valid()
      && r.value.handler.kind == RotatingFile(RotatedLimits(size, count).value.maxBytes,
                                              RotatedLimits(size, count).value.backupCount)
      && r.value.handler.path == path && r.value.handler.mode == mode
      && r.value.fin == fin && r.value.logger == logger
      && logger.handlers == old(logger.handlers) + [r.value.handler]
      && logger.records == old(logger.records)
  {
    match RotatedLimits(size, count)
    case Failure(e) =>
      r := Failure(e);
    case Success(limits) =>
      var h := new Handler(RotatingFile(limits.maxBytes, limits.backupCount), path, mode);
      var rot := new Rotator(h, fin, logger);
      r := Success(rot);
  }
}

/** The input side of `Rotator.lines` (rotator.py:32-47): the input stream,
    seen as the sequence of results its `readline` returns, where the empty
    string means end of input; and what the relay makes of those results.

    Two reference definitions of "the lines of the input" sit side by side:
    `UntilEof` follows the unbuffered read-then-check loop one result at a
    time, and `Stripped(rs[..EofIndex(rs)])` is every result before the first
    empty one, stripped line by line, which is what both loops of the relay
    are proved to build. `UntilEofIsStrippedPrefix` proves the two equal. */
module Lines {
  import opened Errors

  // ---------------------------------------------------------------------------
  // `str.strip('\n')`

  /** Drops every leading newline. */
  function StripLeading(s: string): (r: string)
    ensures |r| <= |s|
    ensures r == [] || r[0] != '\n'
    ensures r != [] ==> r[|r| - 1] == s[|s| - 1]
  {
    if s != [] && s[0] == '\n' then StripLeading(s[1..]) else s
  }

  /** Drops every trailing newline. */
  function StripTrailing(s: string): (r: string)
    ensures |r| <= |s|
    ensures r == [] || r[|r| - 1] != '\n'
    ensures r != [] ==> r[0] == s[0]
  {
    if s != [] && s[|s| - 1] == '\n' then StripTrailing(s[..|s| - 1]) else s
  }

  /** `line.strip('\n')`: the line without the newlines at either end. */
  function Strip(s: string): (r: string)
    ensures |r| <= |s|
    ensures Bare(r)
  {
    StripLeading(StripTrailing(s))
  }

  /** A line that has no newline at either end. */
  predicate Bare(s: string) {
    s == [] || (s[0] != '\n' && s[|s| - 1] != '\n')
  }

  /** What `strip` leaves has no newline at either end, and a line with none
      there is left as it is. */
  lemma StripShape(s: string)
    ensures Bare(Strip(s))
    ensures Bare(s) ==> Strip(s) == s
  {
  }

  /** The leading newlines are a prefix, and only newlines are dropped. */
  lemma {:induction false} StripLeadingDrops(s: string)
    ensures var r := StripLeading(s);
      r == s[|s| - |r|..] && forall i :: 0 <= i < |s| - |r| ==> s[i] == '\n'
  {
    if s != [] && s[0] == '\n' {
      StripLeadingDrops(s[1..]);
    }
  }

  /** The trailing newlines are a suffix, and only newlines are dropped. */
  lemma {:induction false} StripTrailingDrops(s: string)
    ensures var r := StripTrailing(s);
      r == s[..|r|] && forall i :: |r| <= i < |s| ==> s[i] == '\n'
  {
    if s != [] && s[|s| - 1] == '\n' {
      StripTrailingDrops(s[..|s| - 1]);
    }
  }

  /** `strip` keeps a contiguous part of the line and drops only newlines,
      and only at the two ends: a newline inside the line stays. */
  lemma StripKeepsMiddle(s: string)
    ensures exists i, j ::
      && 0 <= i <= j <= |s| && Strip(s) == s[i..j]
      && (forall k :: 0 <= k < i ==> s[k] == '\n')
      && (forall k :: j <= k < |s| ==> s[k] == '\n')
  {
    var t := StripTrailing(s);
    var r := StripLeading(t);
    StripTrailingDrops(s);
    StripLeadingDrops(t);
    var j := |t|;
    var i := |t| - |r|;
    assert t == s[..j];
    assert r == t[i..] == s[i..j];
    assert forall k :: 0 <= k < i ==> s[k] == t[k] == '\n';
    assert Strip(s) == r;
  }

  /** A line that `readline` returns for a line `t` of a file is `t` and its
      terminating newline; the relay gives back `t`. */
  lemma StripTerminated(t: string)
    requires Bare(t)
    ensures Strip(t + "\n") == t
  {
    var s := t + "\n";
    assert s[..|s| - 1] == t;
    assert StripTrailing(s) == StripTrailing(t);
  }

  /** Stripping twice is stripping once. */
  lemma StripIdempotent(s: string)
    ensures Strip(Strip(s)) == Strip(s)
  {
    StripShape(s);
    StripShape(Strip(s));
  }

  // ---------------------------------------------------------------------------
  // The lines of an input

  /** Where the end of input is: the index of the first empty result, or the
      number of results when none is empty. */
  function EofIndex(rs: seq<string>): (k: nat)
    ensures k <= |rs|
    ensures forall i :: 0 <= i < k ==> rs[i] != ""
    ensures k < |rs| ==> rs[k] == ""
  {
    if rs == [] || rs[0] == "" then 0 else 1 + EofIndex(rs[1..])
  }

  /** The results that come after the end of input (and are never read). */
  function AfterEof(rs: seq<string>): seq<string> {
    var k := EofIndex(rs);
    if k < |rs| then rs[k + 1..] else []
  }

  /** The unbuffered relay, result by result: strip each result and go on
      until one is empty. */
  function UntilEof(rs: seq<string>): (r: seq<string>)
    ensures |r| == EofIndex(rs)
  {
    if rs == [] || rs[0] == "" then [] else [Strip(rs[0])] + UntilEof(rs[1..])
  }

  /** Every line, stripped. */
  function Stripped(ls: seq<string>): (r: seq<string>)
    ensures |r| == |ls|
  {
    if ls == [] then [] else Stripped(ls[..|ls| - 1]) + [Strip(ls[|ls| - 1])]
  }

  /** The i-th line out is the i-th line in, stripped. */
  lemma {:induction false} StrippedAt(ls: seq<string>)
    ensures forall i :: 0 <= i < |ls| ==> Stripped(ls)[i] == Strip(ls[i])
  {
    if ls != [] {
      StrippedAt(ls[..|ls| - 1]);
    }
  }

  lemma StrippedPrefix(rs: seq<string>, i: nat)
    requires i < |rs|
    ensures Stripped(rs[..i + 1]) == Stripped(rs[..i]) + [Strip(rs[i])]
  {
    assert rs[..i + 1][..i] == rs[..i];
  }

  lemma {:induction false} StrippedCons(l: string, ls: seq<string>)
    ensures Stripped([l] + ls) == [Strip(l)] + Stripped(ls)
  {
    if ls != [] {
      var init, last := ls[..|ls| - 1], ls[|ls| - 1];
      StrippedCons(l, init);
      var r := [l] + ls;
      assert r[..|r| - 1] == [l] + init && r[|r| - 1] == last;
      assert Stripped(r) == Stripped([l] + init) + [Strip(last)];
      assert Stripped(ls) == Stripped(init) + [Strip(last)];
    }
  }

  /** The two reference definitions agree: the read-then-check relay yields
      every result before the end of input, stripped and in order. The
      buffered and unbuffered loops of `Rotator` are both proved to build the
      right-hand side, and `Rotator.Lines` uses this lemma to state them in
      terms of `UntilEof`. */
  lemma {:induction false} UntilEofIsStrippedPrefix(rs: seq<string>)
    ensures UntilEof(rs) == Stripped(rs[..EofIndex(rs)])
  {
    if rs != [] && rs[0] != "" {
      var tail := rs[1..];
      UntilEofIsStrippedPrefix(tail);
      var k := EofIndex(tail);
      assert rs[..k + 1] == [rs[0]] + tail[..k];
      StrippedCons(rs[0], tail[..k]);
    }
  }

  /** The same, element by element: as many lines as results before the end
      of input, the i-th being the i-th result stripped. */
  lemma UntilEofAt(rs: seq<string>)
    ensures |UntilEof(rs)| == EofIndex(rs)
    ensures forall i :: 0 <= i < EofIndex(rs) ==> UntilEof(rs)[i] == Strip(rs[i])
  {
    UntilEofIsStrippedPrefix(rs);
    StrippedAt(rs[..EofIndex(rs)]);
  }

  /** Only the results before the end of input matter: whatever follows the
      first empty result is never looked at. */
  lemma {:induction false} UntilEofIgnoresRest(ls: seq<string>, rest: seq<string>)
    requires forall i :: 0 <= i < |ls| ==> ls[i] != ""
    ensures UntilEof(ls + [""] + rest) == Stripped(ls)
    ensures AfterEof(ls + [""] + rest) == rest
  {
    var rs := ls + [""] + rest;
    assert EofIndex(rs) == |ls| by {
      assert rs[|ls|] == "";
      assert forall i :: 0 <= i < |ls| ==> rs[i] == ls[i];
    }
    UntilEofIsStrippedPrefix(rs);
    assert rs[..|ls|] == ls;
    assert rs[|ls| + 1..] == rest;
  }

  /** Lines of a file, each read back with its newline: the relay yields
      exactly the lines written, in order, and does not read past the end. */
  lemma LinesWritten(ts: seq<string>, rest: seq<string>)
    requires forall i :: 0 <= i < |ts| ==> Bare(ts[i])
    ensures UntilEof(Terminated(ts) + [""] + rest) == ts
  {
    var ls := Terminated(ts);
    forall i | 0 <= i < |ls| ensures ls[i] != "" && Strip(ls[i]) == ts[i] {
      StripTerminated(ts[i]);
    }
    UntilEofIgnoresRest(ls, rest);
    StrippedAt(ls);
  }

  /** Every line followed by a newline. */
  function Terminated(ts: seq<string>): (ls: seq<string>)
    ensures |ls| == |ts|
    ensures forall i :: 0 <= i < |ts| ==> ls[i] == ts[i] + "\n"
  {
    seq(|ts|, i requires 0 <= i < |ts| => ts[i] + "\n")
  }

  /** Lines that are neither empty nor carry a newline at either end pass
      through the relay unchanged, as the test's 1000 "hello" lines do. */
  lemma BareLinesUnchanged(ls: seq<string>, rest: seq<string>)
    requires forall i :: 0 <= i < |ls| ==> ls[i] != "" && Bare(ls[i])
    ensures UntilEof(ls + [""] + rest) == ls
  {
    UntilEofIgnoresRest(ls, rest);
    StrippedAt(ls);
  }

  lemma ThousandHellos()
    ensures UntilEof(seq(1000, _ => "hello") + [""]) == seq(1000, _ => "hello")
  {
    var hellos := seq(1000, _ => "hello");
    BareLinesUnchanged(hellos, []);
    assert hellos + [""] + [] == hellos + [""];
  }

  // ---------------------------------------------------------------------------
  // The input stream

  /** The stream the rotator reads: the results its `readline` has still to
      return. Once they run out, every read returns the empty string. */
  class InputStream {
    var pending: seq<string>

    constructor (results: seq<string>)
      ensures pending == results
    {
      pending := results;
    }

    /** `fin.readline()` */
    method ReadLine() returns (line: string)
      modifies this
      ensures old(pending) == [] ==> line == "" && pending == []
      ensures old(pending) != [] ==> line == old(pending)[0] && pending == old(pending)[1..]
    {
      if pending == [] {
        line := "";
      } else {
        line := pending[0];
        pending := pending[1..];
      }
    }

    /** One step of `for line in fin`: the next line, or `None` once the end
      of input is read. */
    method Next() returns (item: Option<string>)
      modifies this
      ensures old(pending) == [] ==> item == None && pending == []
      ensures old(pending) != [] ==> pending == old(pending)[1..]
      ensures old(pending) != [] ==> item == if old(pending)[0] == "" then None else Some(old(pending)[0])
    {
      var line := ReadLine();
      item := if line == "" then None else Some(line);
    }
  }
}

/** `Rotated.parse_size` (rotator.py:91-107): a human-readable size such as
    " 1 MB " becomes a number of bytes.

    The source matches `\s*(\d+)\s*([kKmMgG][bB])?\s*$` from the start of the
    string and then scales the digits by the unit. Here the match is a scanner
    over the string (`Match`), the scaling is the source's if/elif chain
    (`ParseSize`), and both are proved against a declarative grammar (`Form`,
    `InGrammar`) and meaning (`Denotation`). */
module Size {
  import opened Errors

  // ---------------------------------------------------------------------------
  // Character classes of the pattern, over a byte string

  /** `\s` on a byte string: space, tab, newline, carriage return, vertical tab
      and form feed. */
  predicate IsSpace(c: char) {
    c == ' ' || c == '\t' || c == '\n' || c == '\r' || c == '\U{B}' || c == '\U{C}'
  }

  /** `\d` on a byte string. */
  predicate IsDigit(c: char) {
    '0' <= c <= '9'
  }

  predicate AllSpace(s: string) {
    forall i :: 0 <= i < |s| ==> IsSpace(s[i])
  }

  predicate AllDigits(s: string) {
    forall i :: 0 <= i < |s| ==> IsDigit(s[i])
  }

  /** `[kKmMgG]` */
  predicate IsScaleLetter(c: char) {
    c == 'k' || c == 'K' || c == 'm' || c == 'M' || c == 'g' || c == 'G'
  }

  /** `[kKmMgG][bB]` */
  predicate IsUnit(u: string) {
    |u| == 2 && IsScaleLetter(u[0]) && (u[1] == 'b' || u[1] == 'B')
  }

  // ---------------------------------------------------------------------------
  // The grammar and its meaning

  /** `s == lead + digits + mid + unit + trail` is a string of the grammar:
      optional whitespace, one or more digits, optional whitespace, an optional
      unit, optional whitespace, and nothing after. */
  ghost predicate Form(lead: string, digits: string, mid: string, unit: string, trail: string) {
    && AllSpace(lead)
    && digits != [] && AllDigits(digits)
    && AllSpace(mid)
    && (unit == [] || IsUnit(unit))
    && AllSpace(trail)
  }

  ghost predicate InGrammar(s: string) {
    exists lead, digits, mid, unit, trail ::
      Form(lead, digits, mid, unit, trail) && s == lead + digits + mid + unit + trail
  }

  function DigitValue(c: char): nat
    requires IsDigit(c)
  {
    c as int - '0' as int
  }

  /** The value of a decimal numeral written most significant digit first,
      as Python's `int` reads it (leading zeros allowed). */
  function DecimalValue(d: string): (r: nat)
    requires AllDigits(d)
    ensures r < Pow(10, |d|)
  {
    if d == [] then 0 else 10 * DecimalValue(d[..|d| - 1]) + DigitValue(d[|d| - 1])
  }

  function Pow(b: nat, e: nat): nat {
    if e == 0 then 1 else b * Pow(b, e - 1)
  }

  /** Which power of 1024 a unit stands for: no unit 0, kb 1, mb 2, gb 3. */
  function UnitExponent(unit: string): nat
    requires unit == [] || IsUnit(unit)
  {
    if unit == [] then 0
    else if unit[0] == 'k' || unit[0] == 'K' then 1
    else if unit[0] == 'm' || unit[0] == 'M' then 2
    else 3
  }

  /** The number of bytes a string of the grammar stands for. */
  function Denotation(digits: string, unit: string): nat
    requires AllDigits(digits) && (unit == [] || IsUnit(unit))
  {
    DecimalValue(digits) * Pow(1024, UnitExponent(unit))
  }

  // ---------------------------------------------------------------------------
  // The matcher

  /** What is left of `s` after its longest prefix of whitespace. */
  function DropSpaces(s: string): (rest: string)
    ensures |rest| <= |s|
    ensures rest == [] || !IsSpace(rest[0])
  {
    if s != [] && IsSpace(s[0]) then DropSpaces(s[1..]) else s
  }

  /** The length of the longest prefix of digits of `s`. */
  function DigitCount(s: string): (n: nat)
    ensures n <= |s|
    ensures n < |s| ==> !IsDigit(s[n])
  {
    if s != [] && IsDigit(s[0]) then 1 + DigitCount(s[1..]) else 0
  }

  /** The two groups of a successful match: the digits, and the unit, which
      is empty when the optional group took no part in the match. */
  datatype Groups = Groups(digits: string, units: string)

  /** `re.match(regex, s)` for the size pattern: anchored at the start, and
      `\s*$` makes it reach the end (a '\n' before the end is whitespace, so
      `$` matching before a final newline adds no strings). The pattern's
      backtracking never changes the outcome: a shorter run of digits leaves a
      digit where the pattern needs whitespace, a unit or the end, and skipping
      a unit that is present leaves a letter where `\s*$` needs the end. */
  function Match(s: string): (m: Option<Groups>)
    ensures m.Some? ==> m.value.digits != [] && AllDigits(m.value.digits)
    ensures m.Some? ==> m.value.units == [] || IsUnit(m.value.units)
  {
    var afterLead := DropSpaces(s);
    var n := DigitCount(afterLead);
    DigitCountSplit(afterLead);
    if n == 0 then None
    else
      match MatchTail(afterLead[n..])
      case None => None
      case Some(units) => Some(Groups(afterLead[..n], units))
  }

  /** The part of the pattern after the digits, `\s*([kKmMgG][bB])?\s*$`:
      the unit group, empty when it took no part, if the rest matches. */
  function MatchTail(s: string): (units: Option<string>)
    ensures units.Some? ==> units.value == [] || IsUnit(units.value)
  {
    var afterMid := DropSpaces(s);
    var hasUnit := |afterMid| >= 2 && IsUnit(afterMid[..2]);
    var afterUnit := if hasUnit then afterMid[2..] else afterMid;
    if DropSpaces(afterUnit) == [] then Some(if hasUnit then afterMid[..2] else "") else None
  }

  // ---------------------------------------------------------------------------
  // The parser

  /** `str.lower` on one character: only the letters A to Z change, each to
      the lower-case letter at the same place in the alphabet. */
  function Lower(c: char): (r: char)
    ensures !('A' <= r <= 'Z')
    ensures !('A' <= c <= 'Z') ==> r == c
    ensures 'A' <= c <= 'Z' ==> 'a' <= r <= 'z' && r as int - 'a' as int == c as int - 'A' as int
  {
    if 'A' <= c <= 'Z' then (c as int + 32) as char else c
  }

  /** `Rotated.parse_size`: the number of bytes `s` stands for, or the
      `ValueError` the source raises when `s` does not match. */
  function ParseSize(s: string): (r: Result<nat>)
    ensures r.Failure? ==> r.error == SizeMismatch(s)
  {
    match Match(s)
    case None => Failure(SizeMismatch(s))
    case Some(g) =>
      var size := DecimalValue(g.digits);
      if g.units == [] then Success(size)
      else
        // `units.lower()` compared with "kb", "mb" and "gb"; the second
        // letter is always a b, so the first decides
        var scale := Lower(g.units[0]);
        if scale == 'k' then Success(size * 1024)
        else if scale == 'm' then Success(size * 1024 * 1024)
        else
          // the pattern admits no other unit, so the source's fall-through
          // (which would return None) is never taken
          assert scale == 'g';
          Success(size * 1024 * 1024 * 1024)
  }

  // ---------------------------------------------------------------------------
  // The matcher accepts exactly the grammar

  lemma {:induction false} DropSpacesOver(w: string, rest: string)
    requires AllSpace(w)
    requires rest == [] || !IsSpace(rest[0])
    ensures DropSpaces(w + rest) == rest
  {
    if w != [] {
      assert (w + rest)[0] == w[0];
      assert (w + rest)[1..] == w[1..] + rest;
      DropSpacesOver(w[1..], rest);
    } else {
      assert w + rest == rest;
    }
  }

  /** What the digit scanner counts is digits. */
  lemma {:induction false} DigitCountSplit(s: string)
    ensures AllDigits(s[..DigitCount(s)])
  {
    if s != [] && IsDigit(s[0]) {
      DigitCountSplit(s[1..]);
      var n := DigitCount(s);
      assert s[..n] == [s[0]] + s[1..][..n - 1];
    }
  }

  lemma {:induction false} DigitCountOver(digits: string, rest: string)
    requires AllDigits(digits)
    requires rest == [] || !IsDigit(rest[0])
    ensures DigitCount(digits + rest) == |digits|
  {
    if digits != [] {
      assert (digits + rest)[0] == digits[0];
      assert (digits + rest)[1..] == digits[1..] + rest;
      DigitCountOver(digits[1..], rest);
    } else {
      assert digits + rest == rest;
    }
  }

  lemma DropAllSpaces(w: string)
    requires AllSpace(w)
    ensures DropSpaces(w) == []
  {
    DropSpacesOver(w, []);
    assert w + [] == w;
  }

  lemma DroppedAll(s: string)
    requires DropSpaces(s) == []
    ensures AllSpace(s)
  {
    DropSpacesSplit(s);
    assert s[..|s|] == s;
  }

  /** What the matcher drops is whitespace, and it drops only a prefix. */
  lemma {:induction false} DropSpacesSplit(s: string)
    ensures var rest := DropSpaces(s);
      s == s[..|s| - |rest|] + rest && AllSpace(s[..|s| - |rest|])
  {
    if s != [] && IsSpace(s[0]) {
      DropSpacesSplit(s[1..]);
      var rest := DropSpaces(s);
      var k := |s| - |rest|;
      assert s[1..][..k - 1] == s[1..k];
      assert s[..k] == [s[0]] + s[1..k];
      assert s == [s[0]] + s[1..];
    } else {
      assert s[..0] == [];
    }
  }

  /** Whitespace in front of a non-blank tail does not change the tail match. */
  lemma MatchTailSkip(mid: string, rest: string)
    requires AllSpace(mid) && rest != [] && !IsSpace(rest[0])
    ensures MatchTail(mid + rest) == MatchTail(rest)
  {
    DropSpacesOver(mid, rest);
  }

  lemma MatchTailUnit(unit: string, trail: string)
    requires IsUnit(unit) && AllSpace(trail)
    ensures MatchTail(unit + trail) == Some(unit)
  {
    DropAllSpaces(trail);
    var afterMid := unit + trail;
    assert !IsSpace(afterMid[0]);
    assert DropSpaces(afterMid) == afterMid;
    assert afterMid[..2] == unit && afterMid[2..] == trail;
  }

  lemma MatchTailBlank(w: string)
    requires AllSpace(w)
    ensures MatchTail(w) == Some([])
  {
    DropAllSpaces(w);
    assert DropSpaces([]) == [];
  }

  lemma AllSpaceConcat(a: string, b: string)
    requires AllSpace(a) && AllSpace(b)
    ensures AllSpace(a + b)
  {
    forall i | 0 <= i < |a + b| ensures IsSpace((a + b)[i]) {
      if i < |a| { assert (a + b)[i] == a[i]; }
      else { assert (a + b)[i] == b[i - |a|]; }
    }
  }

  lemma MatchTailWithUnit(mid: string, unit: string, trail: string)
    requires AllSpace(mid) && IsUnit(unit) && AllSpace(trail)
    ensures MatchTail(mid + (unit + trail)) == Some(unit)
  {
    MatchTailUnit(unit, trail);
    assert (unit + trail)[0] == unit[0];
    MatchTailSkip(mid, unit + trail);
  }

  /** Whitespace, an optional unit and whitespace: the tail matcher accepts
      it and returns the unit. */
  lemma MatchTailComplete(mid: string, unit: string, trail: string)
    requires AllSpace(mid) && (unit == [] || IsUnit(unit)) && AllSpace(trail)
    ensures MatchTail(mid + unit + trail) == Some(unit)
  {
    if unit != [] {
      MatchTailWithUnit(mid, unit, trail);
      assert mid + unit + trail == mid + (unit + trail);
    } else {
      AllSpaceConcat(mid, trail);
      MatchTailBlank(mid + trail);
      assert mid + unit + trail == mid + trail;
    }
  }

  ghost predicate TailSplit(s: string, mid: string, unit: string, trail: string) {
    AllSpace(mid) && AllSpace(trail) && s == mid + unit + trail
  }

  /** What the tail matcher accepts is whitespace, the unit it returns, and
      whitespace. */
  lemma MatchTailSound(s: string)
    requires MatchTail(s).Some?
    ensures exists mid, trail :: TailSplit(s, mid, MatchTail(s).value, trail)
  {
    var unit := MatchTail(s).value;
    var afterMid := DropSpaces(s);
    DropSpacesSplit(s);
    var mid := s[..|s| - |afterMid|];
    var hasUnit := |afterMid| >= 2 && IsUnit(afterMid[..2]);
    var afterUnit := if hasUnit then afterMid[2..] else afterMid;
    assert afterMid == unit + afterUnit by {
      if hasUnit { assert afterMid == afterMid[..2] + afterMid[2..]; }
      else { assert afterMid == [] + afterMid; }
    }
    DroppedAll(afterUnit);
    assert s == mid + unit + afterUnit;
    assert TailSplit(s, mid, unit, afterUnit);
  }

  /** Whitespace, then digits, then a tail that does not start with a digit:
      the groups are the digits and the tail's unit. */
  lemma MatchHead(lead: string, digits: string, tail: string)
    requires AllSpace(lead) && digits != [] && AllDigits(digits)
    requires tail == [] || !IsDigit(tail[0])
    ensures Match(lead + (digits + tail)) ==
      if MatchTail(tail).Some? then Some(Groups(digits, MatchTail(tail).value)) else None
  {
    var afterLead := digits + tail;
    assert afterLead[0] == digits[0];
    DropSpacesOver(lead, afterLead);
    DigitCountOver(digits, tail);
    assert afterLead[..|digits|] == digits && afterLead[|digits|..] == tail;
  }

  /** Every decomposition of a string of the grammar is found by the matcher,
      with the digits and the unit as its groups. */
  lemma MatchComplete(lead: string, digits: string, mid: string, unit: string, trail: string)
    requires Form(lead, digits, mid, unit, trail)
    ensures Match(lead + digits + mid + unit + trail) == Some(Groups(digits, unit))
  {
    var tail := mid + unit + trail;
    assert tail == [] || !IsDigit(tail[0]) by {
      if mid != [] { assert tail[0] == mid[0]; }
      else if unit != [] { assert tail[0] == unit[0]; }
      else if trail != [] { assert tail[0] == trail[0]; }
    }
    MatchTailComplete(mid, unit, trail);
    MatchHead(lead, digits, tail);
    assert lead + digits + mid + unit + trail == lead + (digits + tail);
  }

  /** What the matcher accepts is whitespace, its digits group, and a tail the
      tail matcher accepts with its unit group. */
  lemma MatchHeadSound(s: string)
    requires Match(s).Some?
    ensures var g := Match(s).value;
      exists lead, tail :: AllSpace(lead) && s == lead + g.digits + tail && MatchTail(tail) == Some(g.units)
  {
    var g := Match(s).value;
    var afterLead := DropSpaces(s);
    DropSpacesSplit(s);
    var lead := s[..|s| - |afterLead|];
    var n := DigitCount(afterLead);
    var tail := afterLead[n..];
    assert g.digits == afterLead[..n] && MatchTail(tail) == Some(g.units);
    assert afterLead == g.digits + tail;
    assert s == lead + (g.digits + tail);
    assert lead + (g.digits + tail) == lead + g.digits + tail;
  }

  /** Whatever the matcher accepts is a string of the grammar, split around
      the groups it returns. */
  lemma MatchSound(s: string)
    requires Match(s).Some?
    ensures var g := Match(s).value;
      exists lead, mid, trail ::
        Form(lead, g.digits, mid, g.units, trail) && s == lead + g.digits + mid + g.units + trail
  {
    var g := Match(s).value;
    MatchHeadSound(s);
    var lead, tail :| AllSpace(lead) && s == lead + g.digits + tail && MatchTail(tail) == Some(g.units);
    MatchTailSound(tail);
    var mid, trail :| TailSplit(tail, mid, g.units, trail);
    Regroup(lead, g.digits, mid, g.units, trail);
    assert Form(lead, g.digits, mid, g.units, trail);
  }

  lemma Regroup(lead: string, digits: string, mid: string, unit: string, trail: string)
    ensures lead + digits + (mid + unit + trail) == lead + digits + mid + unit + trail
  {
  }

  // ---------------------------------------------------------------------------
  // The parser against the grammar

  /** The if/elif chain on the unit scales by the unit's power of 1024. */
  lemma ScaleByUnit(size: nat, unit: string)
    requires IsUnit(unit)
    ensures var scale := Lower(unit[0]);
      (if scale == 'k' then size * 1024
       else if scale == 'm' then size * 1024 * 1024
       else size * 1024 * 1024 * 1024)
      == size * Pow(1024, UnitExponent(unit))
  {
    assert Pow(1024, 1) == 1024;
    assert Pow(1024, 2) == 1024 * 1024;
    assert Pow(1024, 3) == 1024 * 1024 * 1024;
  }

  /** Acceptance and value: every string of the grammar parses to what it
      denotes. */
  lemma ParseAccepts(lead: string, digits: string, mid: string, unit: string, trail: string)
    requires Form(lead, digits, mid, unit, trail)
    ensures ParseSize(lead + digits + mid + unit + trail) == Success(Denotation(digits, unit))
  {
    MatchComplete(lead, digits, mid, unit, trail);
    if unit != [] {
      ScaleByUnit(DecimalValue(digits), unit);
    }
  }

  /** Soundness: whatever the parser accepts is a string of the grammar, and
      the result is what that string denotes. */
  lemma ParseSound(s: string)
    requires ParseSize(s).Success?
    ensures exists lead, digits, mid, unit, trail ::
      Form(lead, digits, mid, unit, trail) && s == lead + digits + mid + unit + trail &&
      ParseSize(s).value == Denotation(digits, unit)
  {
    MatchSound(s);
    var g := Match(s).value;
    var lead, mid, trail :| Form(lead, g.digits, mid, g.units, trail) && s == lead + g.digits + mid + g.units + trail;
    ParseAccepts(lead, g.digits, mid, g.units, trail);
  }

  /** Rejection: the parser fails exactly on the strings outside the grammar,
      and the failure always carries the offending string. */
  lemma ParseRejects(s: string)
    ensures ParseSize(s).Failure? <==> !InGrammar(s)
    ensures ParseSize(s).Failure? ==> ParseSize(s).error == SizeMismatch(s)
  {
    if ParseSize(s).Success? {
      ParseSound(s);
    } else if InGrammar(s) {
      var lead, digits, mid, unit, trail :| Form(lead, digits, mid, unit, trail) && s == lead + digits + mid + unit + trail;
      ParseAccepts(lead, digits, mid, unit, trail);
    }
  }

  /** Whitespace before the number, between the number and the unit, and
      after the unit never changes the value. */
  lemma WhitespaceIrrelevant(digits: string, unit: string,
                             lead1: string, mid1: string, trail1: string,
                             lead2: string, mid2: string, trail2: string)
    requires Form(lead1, digits, mid1, unit, trail1)
    requires AllSpace(lead2) && AllSpace(mid2) && AllSpace(trail2)
    ensures ParseSize(lead1 + digits + mid1 + unit + trail1).Success?
    ensures ParseSize(lead1 + digits + mid1 + unit + trail1) == ParseSize(lead2 + digits + mid2 + unit + trail2)
  {
    ParseAccepts(lead1, digits, mid1, unit, trail1);
    ParseAccepts(lead2, digits, mid2, unit, trail2);
  }

  /** A bare number parses to its own value. */
  lemma PlainNumber(digits: string)
    requires digits != [] && AllDigits(digits)
    ensures ParseSize(digits) == Success(DecimalValue(digits))
  {
    ParseAccepts("", digits, "", "", "");
    assert "" + digits + "" + "" + "" == digits;
  }

  /** Each unit, in any letter case, multiplies by 1024, 1024^2 or 1024^3. */
  lemma UnitMultipliers(digits: string, unit: string)
    requires digits != [] && AllDigits(digits)
    requires IsUnit(unit)
    ensures Lower(unit[0]) == 'k' ==> ParseSize(digits + unit) == Success(DecimalValue(digits) * 1024)
    ensures Lower(unit[0]) == 'm' ==> ParseSize(digits + unit) == Success(DecimalValue(digits) * 1024 * 1024)
    ensures Lower(unit[0]) == 'g' ==> ParseSize(digits + unit) == Success(DecimalValue(digits) * 1024 * 1024 * 1024)
  {
    NumberWithUnit(digits, unit);
    UnitDenotation(digits, unit);
  }

  lemma NumberWithUnit(digits: string, unit: string)
    requires digits != [] && AllDigits(digits) && IsUnit(unit)
    ensures ParseSize(digits + unit) == Success(Denotation(digits, unit))
  {
    ParseAccepts("", digits, "", unit, "");
    assert "" + digits + "" + unit + "" == digits + unit;
  }

  lemma UnitDenotation(digits: string, unit: string)
    requires AllDigits(digits) && IsUnit(unit)
    ensures Lower(unit[0]) == 'k' ==> Denotation(digits, unit) == DecimalValue(digits) * 1024
    ensures Lower(unit[0]) == 'm' ==> Denotation(digits, unit) == DecimalValue(digits) * 1024 * 1024
    ensures Lower(unit[0]) == 'g' ==> Denotation(digits, unit) == DecimalValue(digits) * 1024 * 1024 * 1024
  {
    UnitScale(unit);
  }

  /** The power of 1024 each unit stands for, by its lower-cased letter. */
  lemma UnitScale(unit: string)
    requires IsUnit(unit)
    ensures Lower(unit[0]) == 'k' ==> Pow(1024, UnitExponent(unit)) == 1024
    ensures Lower(unit[0]) == 'm' ==> Pow(1024, UnitExponent(unit)) == 1024 * 1024
    ensures Lower(unit[0]) == 'g' ==> Pow(1024, UnitExponent(unit)) == 1024 * 1024 * 1024
  {
    assert Pow(1024, 1) == 1024;
    assert Pow(1024, 2) == 1024 * 1024;
    assert Pow(1024, 3) == 1024 * 1024 * 1024;
  }

  // ---------------------------------------------------------------------------
  // Python's str() of an integer, and the round trip through the parser

  function Digit(n: nat): (c: char)
    requires n < 10
    ensures IsDigit(c) && DigitValue(c) == n
  {
    ('0' as int + n) as char
  }

  /** `str(n)` for a natural number: its decimal digits, most significant first. */
  function NatText(n: nat): (s: string)
    ensures s != [] && AllDigits(s)
  {
    if n < 10 then [Digit(n)] else NatText(n / 10) + [Digit(n % 10)]
  }

  /** `str(n)` for any integer: a minus sign before the digits of a negative one. */
  function IntText(n: int): (s: string)
    ensures n >= 0 ==> s != [] && AllDigits(s)
    ensures n < 0 ==> |s| >= 2 && s[0] == '-' && AllDigits(s[1..])
  {
    if n < 0 then "-" + NatText(-n) else NatText(n)
  }

  lemma {:induction false} NatTextValue(n: nat)
    ensures DecimalValue(NatText(n)) == n
  {
    var s := NatText(n);
    if n >= 10 {
      NatTextValue(n / 10);
      assert s[..|s| - 1] == NatText(n / 10);
    }
  }

  /** An integer that goes through `str` and back comes out unchanged, and no
      negative integer is accepted. */
  lemma IntTextRoundTrip(n: int)
    ensures n >= 0 ==> ParseSize(IntText(n)) == Success(n)
    ensures n < 0 ==> ParseSize(IntText(n)) == Failure(SizeMismatch(IntText(n)))
  {
    if n >= 0 {
      NatTextValue(n);
      ParseAccepts("", NatText(n), "", "", "");
      assert "" + NatText(n) + "" + "" + "" == NatText(n);
    } else {
      var s := IntText(n);
      assert s[0] == '-';
      assert DropSpaces(s) == s;
      assert DigitCount(s) == 0;
    }
  }

  // ---------------------------------------------------------------------------
  // The examples the source's tests use

  lemma {:induction false} DecimalValueExamples()
    ensures DecimalValue("1") == 1 && DecimalValue("1024") == 1024
  {
    assert "1024"[..3] == "102" && "102"[..2] == "10" && "10"[..1] == "1" && "1"[..0] == "";
  }

  lemma AcceptedPlain()
    ensures ParseSize("1024") == Success(1024)
  {
    DecimalValueExamples();
    ParseAccepts("", "1024", "", "", "");
    assert "" + "1024" + "" + "" + "" == "1024";
  }

  lemma AcceptedKilobytes()
    ensures ParseSize("1024 kB") == Success(1024 * 1024)
  {
    DecimalValueExamples();
    UnitScale("kB");
    ParseAccepts("", "1024", " ", "kB", "");
    assert "" + "1024" + " " + "kB" + "" == "1024 kB";
  }

  lemma AcceptedMegabytes()
    ensures ParseSize(" 1 MB  ") == Success(1024 * 1024)
  {
    DecimalValueExamples();
    UnitScale("MB");
    ParseAccepts(" ", "1", " ", "MB", "  ");
    assert " " + "1" + " " + "MB" + "  " == " 1 MB  ";
  }

  lemma AcceptedGigabytes()
    ensures ParseSize(" 1 gb  ") == Success(1024 * 1024 * 1024)
  {
    DecimalValueExamples();
    UnitScale("gb");
    ParseAccepts(" ", "1", " ", "gb", "  ");
    assert " " + "1" + " " + "gb" + "  " == " 1 gb  ";
  }

  lemma RejectedEmpty()
    ensures ParseSize("") == Failure(SizeMismatch(""))
  {
  }

  lemma RejectedGarbage()
    ensures ParseSize("0s98f") == Failure(SizeMismatch("0s98f"))
  {
    var s := "0s98f";
    assert DropSpaces(s) == s;
    assert s[1..][0] == 's';
    assert DigitCount(s) == 1;
    assert DropSpaces(s[1..]) == s[1..];
  }

  lemma RejectedTerabytes()
    ensures ParseSize("10294 TB") == Failure(SizeMismatch("10294 TB"))
  {
    var s := "10294 TB";
    assert s == "10294" + " TB";
    assert DropSpaces(s) == s;
    DigitCountOver("10294", " TB");
    assert s[5..] == " TB";
    TerabyteTailRejected();
  }

  /** Past the digits of "10294 TB", "TB" is no unit and is not whitespace. */
  lemma TerabyteTailRejected()
    ensures MatchTail(" TB") == None
  {
    DropSpacesOver(" ", "TB");
    assert " " + "TB" == " TB";
    assert "TB"[..2] == "TB" && !IsScaleLetter('T');
    assert DropSpaces("TB") == "TB";
  }
}

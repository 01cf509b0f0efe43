/**
  What the version scanner makes of a User-Agent (internal/subplane/detect.go): which
  numbers of a run it reads, and which runs it passes over.
 */
module VersionText {
  import opened MachineInts
  import opened Options
  import opened ClientVersion

  // ----- printing numbers

  function Digit(d: nat): char
    requires d < 10
  {
    (d + '0' as int) as char
  }

  function Decimal(n: nat): string {
    if n < 10 then [Digit(n)] else Decimal(n / 10) + [Digit(n % 10)]
  }

  lemma {:induction false} DecimalDigits(n: nat)
    ensures Decimal(n) != "" && AllDigits(Decimal(n)) && DecimalValue(Decimal(n)) == n
  {
    if n >= 10 {
      DecimalDigits(n / 10);
      var s := Decimal(n);
      assert s[..|s| - 1] == Decimal(n / 10);
    } else {
      assert Decimal(n)[..0] == "";
    }
  }

  function Printed(major: nat, minor: nat, patch: nat): string {
    Decimal(major) + "." + Decimal(minor) + "." + Decimal(patch)
  }

  /** What fits: the first component outside the int range, and those after it, read as zero. */
  function Fitting(major: nat, minor: nat, patch: nat): Version {
    if major > MAX_INT64 then ZERO_VERSION
    else if minor > MAX_INT64 then Version(major, 0, 0)
    else if patch > MAX_INT64 then Version(major, minor, 0)
    else Version(major, minor, patch)
  }

  // ----- runs of numbers

  /** Numbers as they stand between dots: leading zeros are allowed. */
  predicate AreNumbers(pieces: seq<string>) {
    pieces != [] && forall i :: 0 <= i < |pieces| ==> pieces[i] != "" && AllDigits(pieces[i])
  }

  function Dotted(pieces: seq<string>): string {
    if pieces == [] then ""
    else if |pieces| == 1 then pieces[0]
    else Dotted(pieces[..|pieces| - 1]) + "." + pieces[|pieces| - 1]
  }

  /** Number `k` as it is read: missing ones, overlong ones and all after an overlong one are zero. */
  function Component(pieces: seq<string>, k: nat): Int64
    requires AreNumbers(pieces)
  {
    if k < |pieces| && forall j :: 0 <= j <= k ==> DecimalValue(pieces[j]) <= MAX_INT64 then DecimalValue(pieces[k]) else 0
  }

  /** The first three numbers. */
  function ReadAs(pieces: seq<string>): Version
    requires AreNumbers(pieces)
  {
    Version(Component(pieces, 0), Component(pieces, 1), Component(pieces, 2))
  }

  /** What may follow the numbers within a run: nothing, a dot, or two dots and anything else. */
  predicate EndsNumbers(tail: string) {
    && (forall i :: 0 <= i < |tail| ==> InRun(tail[i]))
    && (|tail| > 0 ==> tail[0] == '.')
    && (|tail| > 1 ==> tail[1] == '.')
  }

  predicate DotFree(s: string) {
    forall i :: 0 <= i < |s| ==> s[i] != '.'
  }

  lemma {:induction false} SplitLast(s: string, t: string)
    requires DotFree(t)
    ensures SplitDots(s + "." + t) == SplitDots(s) + [t]
  {
    var u := s + "." + t;
    LastDotAt(u, |s| + 1, |u|);
    assert u[..|s|] == s && u[|s| + 1..] == t;
  }

  lemma {:induction false} LastDotAt(s: string, k: nat, n: nat)
    requires 0 < k <= n <= |s| && s[k - 1] == '.' && forall i :: k <= i < n ==> s[i] != '.'
    ensures LastDot(s, n) == k
  {
  }

  lemma {:induction false} SplitNone(s: string)
    requires DotFree(s)
    ensures SplitDots(s) == [s]
  {
  }

  lemma {:induction false} SplitAtDot(s: string, t: string)
    ensures SplitDots(s + "." + t) == SplitDots(s) + SplitDots(t)
    decreases |t|
  {
    var k := LastDot(t, |t|);
    if k == 0 {
      SplitNone(t);
      SplitLast(s, t);
    } else {
      var t0, t1 := t[..k - 1], t[k..];
      assert t == t0 + "." + t1;
      assert s + "." + t == (s + "." + t0) + "." + t1;
      SplitLast(s + "." + t0, t1);
      SplitAtDot(s, t0);
      SplitLast(t0, t1);
    }
  }

  lemma {:induction false} SplitDotted(pieces: seq<string>)
    requires AreNumbers(pieces)
    ensures SplitDots(Dotted(pieces)) == pieces
    decreases |pieces|
  {
    var n := |pieces| - 1;
    assert DotFree(pieces[n]);
    if n == 0 {
      SplitNone(pieces[0]);
    } else {
      SplitDotted(pieces[..n]);
      SplitLast(Dotted(pieces[..n]), pieces[n]);
    }
  }

  lemma {:induction false} DottedIsRun(pieces: seq<string>)
    requires AreNumbers(pieces)
    ensures var s := Dotted(pieces);
            && s != "" && IsDigit(s[0]) && IsDigit(s[|s| - 1])
            && forall i :: 0 <= i < |s| ==> InRun(s[i])
    decreases |pieces|
  {
    if |pieces| > 1 {
      DottedIsRun(pieces[..|pieces| - 1]);
    }
  }

  lemma {:induction false} TrimRightAppend(s: string, t: string)
    requires s != "" && s[|s| - 1] != '.'
    ensures TrimRight(s + t) == s + TrimRight(t)
    decreases |t|
  {
    if t != "" {
      assert (s + t)[..|s + t| - 1] == s + t[..|t| - 1];
      if t[|t| - 1] == '.' {
        TrimRightAppend(s, t[..|t| - 1]);
      }
    } else {
      assert s + t == s;
    }
  }

  /** Of the tail either nothing is left, or two dots and more. */
  lemma {:induction false} TrimmedTail(t: string)
    requires EndsNumbers(t)
    ensures TrimRight(t) == "" || (|TrimRight(t)| > 2 && TrimRight(t)[0] == '.' && TrimRight(t)[1] == '.')
    decreases |t|
  {
    if t != "" && t[|t| - 1] == '.' {
      TrimmedTail(t[..|t| - 1]);
    }
  }

  lemma {:induction false} FillPastThree(parts: seq<string>, k: nat, v: Version)
    requires 3 <= k <= |parts|
    ensures Fill(parts, k, v) == v
    decreases |parts| - k
  {
    hide Atoi;
    if k < |parts| && Atoi(parts[k]).Some? {
      FillPastThree(parts, k + 1, v);
    }
  }

  /** One step of the loop over the parts. */
  lemma FillStep(parts: seq<string>, k: nat, v: Version)
    requires k <= |parts|
    ensures k == |parts| || Atoi(parts[k]) == None ==> Fill(parts, k, v) == v
    ensures k < |parts| && Atoi(parts[k]).Some? ==>
              var n := Atoi(parts[k]).value;
              Fill(parts, k, v) == Fill(parts, k + 1, if k == 0 then v.(major := n) else if k == 1 then v.(minor := n)
                                                      else if k == 2 then v.(patch := n) else v)
  {
  }

  lemma {:induction false} FillNumbers(pieces: seq<string>, more: seq<string>)
    requires AreNumbers(pieces) && (more == [] || more[0] == "")
    ensures Fill(pieces + more, 0, ZERO_VERSION) == ReadAs(pieces)
  {
    hide Fill, DecimalValue;
    var parts := pieces + more;
    assert forall j :: 0 <= j < |pieces| ==> parts[j] == pieces[j];
    assert |parts| > |pieces| ==> parts[|pieces|] == "";
    FillStep(parts, 0, ZERO_VERSION);
    if Atoi(parts[0]).Some? {
      var v1 := ZERO_VERSION.(major := Atoi(parts[0]).value);
      FillStep(parts, 1, v1);
      if 1 < |parts| && Atoi(parts[1]).Some? {
        var v2 := v1.(minor := Atoi(parts[1]).value);
        FillStep(parts, 2, v2);
        if 2 < |parts| && Atoi(parts[2]).Some? {
          FillPastThree(parts, 3, v2.(patch := Atoi(parts[2]).value));
        }
      }
    }
  }

  /**
    A run reads as its first three numbers, however many there are, up to the first gap
    between dots or the first number that does not fit; what is missing is zero.
   */
  lemma {:induction false} ReadNumbers(pieces: seq<string>, tail: string)
    requires AreNumbers(pieces) && EndsNumbers(tail)
    ensures ReadRun(Dotted(pieces) + tail) == ReadAs(pieces)
  {
    hide Fill, Dotted, SplitDots, ReadAs, TrimRight;
    var s := Dotted(pieces);
    DottedIsRun(pieces);
    SplitDotted(pieces);
    assert TrimLeft(s + tail) == s + tail;
    TrimRightAppend(s, tail);
    TrimmedTail(tail);
    var t := TrimRight(tail);
    if t == "" {
      assert s + t == s;
      FillNumbers(pieces, []);
      assert pieces + [] == pieces;
    } else {
      assert s + t == s + "." + ("" + "." + t[2..]);
      SplitAtDot(s, "" + "." + t[2..]);
      SplitAtDot("", t[2..]);
      SplitNone("");
      FillNumbers(pieces, [""] + SplitDots(t[2..]));
    }
  }

  lemma {:induction false} PrintedIsDotted(major: nat, minor: nat, patch: nat)
    ensures var pieces := [Decimal(major), Decimal(minor), Decimal(patch)];
            AreNumbers(pieces) && Printed(major, minor, patch) == Dotted(pieces) && ReadAs(pieces) == Fitting(major, minor, patch)
  {
    var pieces := [Decimal(major), Decimal(minor), Decimal(patch)];
    DecimalDigits(major);
    DecimalDigits(minor);
    DecimalDigits(patch);
    hide Decimal, DecimalValue;
    assert pieces[..2] == [Decimal(major), Decimal(minor)] && pieces[..2][..1] == [Decimal(major)];
    assert Dotted(pieces[..2]) == Decimal(major) + "." + Decimal(minor);
  }

  lemma PrintedIsRun(major: nat, minor: nat, patch: nat)
    ensures var s := Printed(major, minor, patch);
            && s != "" && IsDigit(s[0]) && IsDigit(s[|s| - 1])
            && forall i :: 0 <= i < |s| ==> InRun(s[i])
  {
    hide Printed, Dotted;
    PrintedIsDotted(major, minor, patch);
    DottedIsRun([Decimal(major), Decimal(minor), Decimal(patch)]);
  }

  // ----- where the run stands

  predicate DigitFree(s: string) {
    forall i :: 0 <= i < |s| ==> !IsDigit(s[i])
  }

  /** A prefix a version may follow: empty, or ending in no letter, or in a `v` that starts a token. */
  predicate MayPrecede(prefix: string) {
    || prefix == ""
    || !IsAlpha(prefix[|prefix| - 1])
    || ((prefix[|prefix| - 1] == 'v' || prefix[|prefix| - 1] == 'V')
        && (|prefix| == 1 || !IsWordByte(prefix[|prefix| - 2])))
  }

  /** A suffix that ends the run. */
  predicate MayFollow(suffix: string) {
    suffix == "" || !(IsAlpha(suffix[0]) || InRun(suffix[0]))
  }

  lemma {:induction false} RunEndIs(ua: string, j: nat, e: nat)
    requires j <= e <= |ua| && (forall i :: j <= i < e ==> InRun(ua[i])) && (e < |ua| ==> !InRun(ua[e]))
    ensures RunEnd(ua, j) == e
    decreases e - j
  {
  }

  predicate IsRun(run: string) {
    run != "" && IsDigit(run[0]) && forall i :: 0 <= i < |run| ==> InRun(run[i])
  }

  /** After a prefix a version may follow, none of whose positions is accepted, the run is read. */
  lemma {:induction false} ParseRunAfter(prefix: string, run: string, suffix: string)
    requires IsRun(run) && MayPrecede(prefix) && MayFollow(suffix)
    requires forall i :: 0 <= i < |prefix| ==> !Accepts(prefix + run + suffix, i)
    ensures ParseFrom(prefix + run + suffix, 0) == ReadRun(run)
  {
    hide ReadRun, ParseFrom;
    var ua := prefix + run + suffix;
    var i, j := |prefix|, |prefix| + |run|;
    assert ua[i..j] == run;
    RunEndIs(ua, i, j);
    assert StartsVersion(ua, i);
    ScanFindsFirst(ua, 0, i);
  }

  /**
    Any numbers with dots between them, and whatever ends them, read back inside any
    User-Agent: after a prefix a version may follow, none of whose positions is accepted, and
    before a suffix that ends the run.
   */
  lemma {:induction false} ParseNumbersAfter(prefix: string, pieces: seq<string>, tail: string, suffix: string)
    requires AreNumbers(pieces) && EndsNumbers(tail) && MayPrecede(prefix) && MayFollow(suffix)
    requires forall i :: 0 <= i < |prefix| ==> !Accepts(prefix + (Dotted(pieces) + tail) + suffix, i)
    ensures ParseFrom(prefix + (Dotted(pieces) + tail) + suffix, 0) == ReadAs(pieces)
  {
    hide ReadRun, ParseFrom, Dotted, Accepts, ReadAs, MayPrecede, MayFollow;
    DottedIsRun(pieces);
    ParseRunAfter(prefix, Dotted(pieces) + tail, suffix);
    ReadNumbers(pieces, tail);
  }

  /**
    Printing and parsing undo each other: three printed components read back as themselves,
    an overlong one and those after it as zero.
   */
  lemma {:induction false} ParsePrintedAfter(prefix: string, major: nat, minor: nat, patch: nat, suffix: string)
    requires MayPrecede(prefix) && MayFollow(suffix)
    requires forall i :: 0 <= i < |prefix| ==> !Accepts(prefix + Printed(major, minor, patch) + suffix, i)
    ensures ParseFrom(prefix + Printed(major, minor, patch) + suffix, 0) == Fitting(major, minor, patch)
  {
    hide Printed, ParseFrom, Dotted, Accepts, ReadAs, Fitting, MayPrecede, MayFollow;
    PrintedIsDotted(major, minor, patch);
    var pieces := [Decimal(major), Decimal(minor), Decimal(patch)];
    assert Dotted(pieces) + "" == Dotted(pieces);
    ParseNumbersAfter(prefix, pieces, "", suffix);
  }

  /** A prefix without digits holds no accepted position. */
  lemma {:induction false} ParsePrinted(prefix: string, major: nat, minor: nat, patch: nat, suffix: string)
    requires DigitFree(prefix) && MayPrecede(prefix) && MayFollow(suffix)
    ensures ParseFrom(prefix + Printed(major, minor, patch) + suffix, 0) == Fitting(major, minor, patch)
  {
    hide Printed, ParseFrom, Fitting, RunEnd;
    ParsePrintedAfter(prefix, major, minor, patch, suffix);
  }

  /** What follows the character that ends a run does not move its end. */
  lemma {:induction false} RunEndLocal(head: string, tail: string, j: nat)
    requires j <= |head| && RunEnd(head, j) < |head|
    ensures RunEnd(head + tail, j) == RunEnd(head, j)
  {
    RunEndIs(head + tail, j, RunEnd(head, j));
  }

  // ----- runs that are passed over

  /** A run that a letter cuts off, as in "v2rayn", is no version: the scan goes on behind it. */
  lemma {:induction false} CutRunIsSkipped(prefix: string, run: string, rest: string)
    requires DigitFree(prefix) && IsRun(run) && rest != "" && IsAlpha(rest[0])
    ensures ParseFrom(prefix + run + rest, 0) == ParseFrom(prefix + run + rest, |prefix| + |run|)
  {
    hide ParseFrom;
    var ua := prefix + run + rest;
    forall j | 0 <= j < |prefix| + |run|
      ensures !Accepts(ua, j)
    {
      if |prefix| <= j {
        assert ua[j] == run[j - |prefix|];
        RunEndIs(ua, j, |prefix| + |run|);
      }
    }
    SkipRejected(ua, 0, |prefix| + |run|);
  }

  /**
    A run glued to a name, as in "arm64": its first digit belongs to the name, but the scan
    reads on from the second. It is passed over exactly if it has no second digit.
   */
  lemma {:induction false} GluedRun(name: string, run: string, suffix: string, q: nat)
    requires DigitFree(name) && !MayPrecede(name) && IsRun(run) && MayFollow(suffix)
    requires 0 < q <= |run| && (forall i :: 0 < i < q ==> !IsDigit(run[i])) && (q < |run| ==> IsDigit(run[q]))
    ensures ParseFrom(name + run + suffix, 0)
         == if q == |run| then ParseFrom(name + run + suffix, |name| + |run|) else ReadRun(run[q..])
  {
    hide ParseFrom, ReadRun;
    var ua := name + run + suffix;
    assert forall j :: 0 <= j < |name| ==> ua[j] == name[j];
    assert forall j :: 0 <= j < |run| ==> ua[|name| + j] == run[j];
    assert !StartsVersion(ua, |name|);
    SkipRejected(ua, 0, |name| + q);
    if q < |run| {
      var i, e := |name| + q, |name| + |run|;
      RunEndIs(ua, i, e);
      assert InRun(run[q - 1]);
      assert Accepts(ua, i);
      ScanFindsFirst(ua, i, i);
      assert ua[i..e] == run[q..];
    }
  }
}

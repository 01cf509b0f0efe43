/** Reading a version out of a User-Agent (internal/subplane/detect.go); strings are ASCII. */
module ClientVersion {
  import opened MachineInts
  import opened Options

  /** The zero value means unknown. */
  datatype Version = Version(major: Int64, minor: Int64, patch: Int64) {
    predicate IsZero() {
      this == ZERO_VERSION
    }

    predicate Less(o: Version) {
      if major != o.major then major < o.major
      else if minor != o.minor then minor < o.minor
      else patch < o.patch
    }

    /** Passing a gate takes a known version. */
    predicate AtLeast(min: Version) {
      !IsZero() && !Less(min)
    }
  }

  const ZERO_VERSION := Version(0, 0, 0)

  /** Versions compare as their three numbers do, but the unknown one passes no gate, not even the lowest. */
  lemma AtLeastExactly(v: Version, min: Version)
    ensures v.AtLeast(min) <==>
              && v != Version(0, 0, 0)
              && (|| v.major > min.major
                  || (v.major == min.major && v.minor > min.minor)
                  || (v.major == min.major && v.minor == min.minor && v.patch >= min.patch))
  {
  }

  predicate IsDigit(c: char) {
    '0' <= c <= '9'
  }

  predicate IsAlpha(c: char) {
    ('a' <= c <= 'z') || ('A' <= c <= 'Z')
  }

  predicate IsWordByte(c: char) {
    IsAlpha(c) || IsDigit(c)
  }

  predicate InRun(c: char) {
    IsDigit(c) || c == '.'
  }

  // ----- library calls on digits and dots

  function DigitValue(c: char): nat
    requires IsDigit(c)
  {
    c as int - '0' as int
  }

  predicate AllDigits(s: string) {
    forall i :: 0 <= i < |s| ==> IsDigit(s[i])
  }

  function DecimalValue(s: string): nat
    requires AllDigits(s)
  {
    if s == "" then 0 else 10 * DecimalValue(s[..|s| - 1]) + DigitValue(s[|s| - 1])
  }

  /** `strconv.Atoi` on a piece of a run: no digits and no fit are errors. */
  function Atoi(s: string): Option<Int64> {
    if s == "" || !AllDigits(s) || DecimalValue(s) > MAX_INT64 then None else Some(DecimalValue(s))
  }

  function TrimLeft(s: string): string {
    if s != "" && s[0] == '.' then TrimLeft(s[1..]) else s
  }

  function TrimRight(s: string): string {
    if s != "" && s[|s| - 1] == '.' then TrimRight(s[..|s| - 1]) else s
  }

  /** `strings.Split` at the dots. */
  function SplitDots(s: string): (r: seq<string>)
    ensures r != []
    decreases |s|
  {
    var k := LastDot(s, |s|);
    if k == 0 then [s] else SplitDots(s[..k - 1]) + [s[k..]]
  }

  /** One past the last dot among the first `n` characters, or 0. */
  function LastDot(s: string, n: nat): (k: nat)
    requires n <= |s|
    ensures k <= n
    ensures k > 0 ==> s[k - 1] == '.'
    ensures forall i :: k <= i < n ==> s[i] != '.'
  {
    if n == 0 then 0 else if s[n - 1] == '.' then n else LastDot(s, n - 1)
  }

  // ----- the scan

  /** A digit that may open a version: not behind a letter, unless that is a `v` with nothing glued before it. */
  predicate StartsVersion(ua: string, i: nat)
    requires i < |ua|
  {
    && IsDigit(ua[i])
    && (i > 0 && IsAlpha(ua[i - 1]) ==>
          (ua[i - 1] == 'v' || ua[i - 1] == 'V') && (i == 1 || !IsWordByte(ua[i - 2])))
  }

  /** Where the run of digits and dots from `j` on ends. */
  function RunEnd(ua: string, j: nat): (e: nat)
    requires j <= |ua|
    ensures j <= e <= |ua|
    ensures forall i :: j <= i < e ==> InRun(ua[i])
    ensures e < |ua| ==> !InRun(ua[e])
    decreases |ua| - j
  {
    if j < |ua| && InRun(ua[j]) then RunEnd(ua, j + 1) else j
  }

  /** Fill the version from the pieces, stopping at the first that is not a number. */
  function Fill(parts: seq<string>, k: nat, v: Version): Version
    requires k <= |parts|
    decreases |parts| - k
  {
    if k == |parts| then v
    else match Atoi(parts[k])
      case None => v
      case Some(n) =>
        Fill(parts, k + 1, if k == 0 then v.(major := n) else if k == 1 then v.(minor := n)
                           else if k == 2 then v.(patch := n) else v)
  }

  function ReadRun(run: string): Version {
    Fill(SplitDots(TrimRight(TrimLeft(run))), 0, ZERO_VERSION)
  }

  /** The version found by scanning from `i` on. */
  function ParseFrom(ua: string, i: nat): Version
    decreases |ua| - i
  {
    if i >= |ua| then ZERO_VERSION
    else if !StartsVersion(ua, i) then ParseFrom(ua, i + 1)
    else
      var j := RunEnd(ua, i);
      if j < |ua| && IsAlpha(ua[j]) then ParseFrom(ua, j + 1) else ReadRun(ua[i..j])
  }

  method ParseVersion(ua: string) returns (v: Version)
    ensures v == ParseFrom(ua, 0)
  {
    var i := 0;
    while i < |ua|
      invariant ParseFrom(ua, i) == ParseFrom(ua, 0)
    {
      if !IsDigit(ua[i]) {
        i := i + 1;
        continue;
      }
      if i > 0 && IsAlpha(ua[i - 1]) {
        var isVPrefix := (ua[i - 1] == 'v' || ua[i - 1] == 'V') && (i == 1 || !IsWordByte(ua[i - 2]));
        if !isVPrefix {
          i := i + 1;
          continue;
        }
      }
      var j := i;
      while j < |ua| && (IsDigit(ua[j]) || ua[j] == '.')
        invariant i <= j <= |ua| && RunEnd(ua, j) == RunEnd(ua, i)
      {
        j := j + 1;
      }
      if j < |ua| && IsAlpha(ua[j]) {
        i := j + 1;
        continue;
      }
      v := ReadParts(SplitDots(TrimRight(TrimLeft(ua[i..j]))));
      return;
    }
    v := ZERO_VERSION;
  }

  method ReadParts(parts: seq<string>) returns (v: Version)
    ensures v == Fill(parts, 0, ZERO_VERSION)
  {
    v := ZERO_VERSION;
    for k := 0 to |parts|
      invariant Fill(parts, k, v) == Fill(parts, 0, ZERO_VERSION)
    {
      var n := Atoi(parts[k]);
      if n.None? {
        break;
      }
      if k == 0 {
        v := v.(major := n.value);
      } else if k == 1 {
        v := v.(minor := n.value);
      } else if k == 2 {
        v := v.(patch := n.value);
      }
    }
  }

  // ----- the scan without its jump

  /** A version starts at `i`, and its run is not cut off by a letter. */
  predicate Accepts(ua: string, i: nat)
    requires i < |ua|
  {
    StartsVersion(ua, i) && (RunEnd(ua, i) == |ua| || !IsAlpha(ua[RunEnd(ua, i)]))
  }

  /** Jumping over a rejected run skips nothing that would have been accepted. */
  lemma {:induction false} JumpIsSafe(ua: string, i: nat, k: nat)
    requires i < |ua| && StartsVersion(ua, i) && !Accepts(ua, i) && i <= k <= RunEnd(ua, i)
    ensures k < |ua| && !Accepts(ua, k)
  {
  }

  /** The scan reads the run at the first accepting position, as looking at every position would. */
  lemma {:induction false} ScanFindsFirst(ua: string, i: nat, k: nat)
    requires i <= k <= |ua| && forall j :: i <= j < k ==> !Accepts(ua, j)
    requires k == |ua| || Accepts(ua, k)
    ensures ParseFrom(ua, i) == if k == |ua| then ZERO_VERSION else ReadRun(ua[k..RunEnd(ua, k)])
    decreases k - i
  {
    if i < k {
      if StartsVersion(ua, i) {
        var j := RunEnd(ua, i);
        JumpIsSafe(ua, i, j);
        if k <= j {
          JumpIsSafe(ua, i, k);
        }
        ScanFindsFirst(ua, j + 1, k);
      } else {
        ScanFindsFirst(ua, i + 1, k);
      }
    }
  }

  /** The first position from `i` on that is accepted, or the length. */
  function FirstAccepted(ua: string, i: nat): (k: nat)
    requires i <= |ua|
    ensures i <= k <= |ua| && (k < |ua| ==> Accepts(ua, k))
    ensures forall j :: i <= j < k ==> !Accepts(ua, j)
    decreases |ua| - i
  {
    if i == |ua| || Accepts(ua, i) then i else FirstAccepted(ua, i + 1)
  }

  /** Nothing that is not accepted matters to the scan. */
  lemma {:induction false} SkipRejected(ua: string, i: nat, k: nat)
    requires i <= k <= |ua| && forall j :: i <= j < k ==> !Accepts(ua, j)
    ensures ParseFrom(ua, i) == ParseFrom(ua, k)
  {
    hide ParseFrom, Accepts;
    var f := FirstAccepted(ua, k);
    ScanFindsFirst(ua, i, f);
    ScanFindsFirst(ua, k, f);
  }
}

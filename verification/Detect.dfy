/** Telling clients apart by their User-Agent (internal/subplane/detect.go); strings are ASCII. */
module Detect {
  import opened Options
  import opened ClientVersion

  /** `NoProfile` is the zero value of Go's string type. */
  datatype Profile = Mihomo | SingBox | ClashPremium | Base64 | NoProfile

  const PROFILE_FALLBACK := Base64

  /** One substring to look for; `word` asks for no letter or digit on either side. */
  datatype Needle = Needle(s: string, word: bool)

  datatype UARule = UARule(needles: seq<Needle>, profile: Profile, coreVersion: bool)

  datatype Client = Client(profile: Profile, version: Version)

  function Sub(s: string): Needle {
    Needle(s, false)
  }

  function Word(s: string): Needle {
    Needle(s, true)
  }

  /** The rules in the order they are tried. */
  const UA_RULES: seq<UARule> := [
    UARule([Sub("mihomo"), Sub("clash.meta"), Sub("clash-meta"), Sub("clash meta")], Mihomo, true),
    UARule([Sub("clash-verge"), Sub("clash verge"), Sub("clashmeta"), Sub("clashx meta"),
            Word("cmfa"), Sub("flclash"), Word("nikki")], Mihomo, false),
    UARule([Sub("hiddifyclash"), Sub("hiddify clash")], ClashPremium, false),
    UARule([Sub("sing-box"), Word("sfa"), Word("sfi"), Word("sfm")], SingBox, true),
    UARule([Sub("hiddify"), Word("karing")], SingBox, false),
    UARule([Word("stash")], Mihomo, false),
    UARule([Sub("clash"), Word("cfa")], ClashPremium, false),
    UARule([Sub("shadowrocket"), Sub("v2rayn"), Sub("v2rayng"), Sub("nekobox"), Sub("nekoray"), Word("throne")],
           Base64, false)]

  // ----- needles

  predicate OccursAt(hay: string, s: string, i: nat) {
    i + |s| <= |hay| && hay[i..i + |s|] == s
  }

  predicate Delimited(hay: string, i: nat, end: nat)
    requires i <= end <= |hay|
  {
    (i == 0 || !IsWordByte(hay[i - 1])) && (end == |hay| || !IsWordByte(hay[end]))
  }

  /** Some occurrence of the needle, delimited on both sides if it has to be. */
  predicate HasNeedle(hay: string, n: Needle) {
    exists i :: 0 <= i <= |hay| && OccursAt(hay, n.s, i) && (n.word ==> Delimited(hay, i, i + |n.s|))
  }

  /** `strings.Index` on the tail from `from` on, as a position in the whole. */
  function Index(hay: string, s: string, from: nat): (r: Option<nat>)
    requires from <= |hay|
    ensures r.Some? ==> from <= r.value && OccursAt(hay, s, r.value)
    ensures forall j: nat :: from <= j < (if r.Some? then r.value else |hay| + 1) ==> !OccursAt(hay, s, j)
    decreases |hay| - from
  {
    if OccursAt(hay, s, from) then Some(from)
    else if from == |hay| then None
    else Index(hay, s, from + 1)
  }

  /**
    The search steps one past each undelimited occurrence, so overlapping ones are seen too.
    An empty word needle with no delimited position makes it step past the end of the text.
   */
  method ContainsNeedle(hay: string, n: Needle) returns (found: bool)
    requires n.word && n.s == "" ==> HasNeedle(hay, n)
    ensures found <==> HasNeedle(hay, n)
  {
    if !n.word {
      return Index(hay, n.s, 0).Some?;
    }
    var from := 0;
    while true
      invariant from <= |hay|
      invariant forall j :: 0 <= j < from && OccursAt(hay, n.s, j) ==> !Delimited(hay, j, j + |n.s|)
      decreases |hay| - from
    {
      var r := Index(hay, n.s, from);
      if r.None? {
        return false;
      }
      var i := r.value;
      var beforeOK := i == 0 || !IsWordByte(hay[i - 1]);
      var end := i + |n.s|;
      var afterOK := end == |hay| || !IsWordByte(hay[end]);
      if beforeOK && afterOK {
        return true;
      }
      from := i + 1;
    }
  }

  // ----- the rules

  predicate Matches(l: string, rule: UARule) {
    exists j :: 0 <= j < |rule.needles| && HasNeedle(l, rule.needles[j])
  }

  /** Rule `k` is the first of the list to match. */
  ghost predicate FirstMatch(l: string, k: nat) {
    && k <= |UA_RULES|
    && (forall j :: 0 <= j < k ==> !Matches(l, UA_RULES[j]))
    && (k < |UA_RULES| ==> Matches(l, UA_RULES[k]))
  }

  function LowerChar(c: char): char {
    if 'A' <= c <= 'Z' then (c as int + 32) as char else c
  }

  /** `strings.ToLower` on ASCII. */
  function ToLower(s: string): (r: string)
    ensures |r| == |s| && forall i :: 0 <= i < |s| ==> r[i] == LowerChar(s[i])
  {
    seq(|s|, i requires 0 <= i < |s| => LowerChar(s[i]))
  }

  /** What a match of rule `k` (or none of them) makes of a lowercased User-Agent. */
  function ClientOf(l: string, k: nat): (Client, bool)
    requires k <= |UA_RULES|
  {
    if k == |UA_RULES| then (Client(PROFILE_FALLBACK, ZERO_VERSION), false)
    else (Client(UA_RULES[k].profile, if UA_RULES[k].coreVersion then ParseFrom(l, 0) else ZERO_VERSION), true)
  }

  function FirstFrom(l: string, k: nat): (r: nat)
    requires k <= |UA_RULES|
    ensures k <= r <= |UA_RULES|
    ensures forall j :: k <= j < r ==> !Matches(l, UA_RULES[j])
    ensures r < |UA_RULES| ==> Matches(l, UA_RULES[r])
    decreases |UA_RULES| - k
  {
    if k == |UA_RULES| || Matches(l, UA_RULES[k]) then k else FirstFrom(l, k + 1)
  }

  function Detected(ua: string): (Client, bool) {
    ClientOf(ToLower(ua), FirstFrom(ToLower(ua), 0))
  }

  /** The client is that of the first matching rule, and of no other. */
  lemma DetectedIsFirstMatch(ua: string, k: nat)
    requires FirstMatch(ToLower(ua), k)
    ensures Detected(ua) == ClientOf(ToLower(ua), k)
  {
    var r := FirstFrom(ToLower(ua), 0);
    hide Matches, FirstFrom, ClientOf;
    if r < k {
      assert false;
    } else if k < r {
      assert false;
    }
  }

  lemma RuleWordsNonEmpty(k: nat, j: nat)
    requires k < |UA_RULES| && j < |UA_RULES[k].needles|
    ensures UA_RULES[k].needles[j].s != ""
  {
  }

  method DetectUA(ua: string) returns (c: Client, matched: bool)
    ensures (c, matched) == Detected(ua)
  {
    var l := ToLower(ua);
    for k := 0 to |UA_RULES|
      invariant FirstFrom(l, k) == FirstFrom(l, 0)
    {
      var hit := AnyNeedle(l, k);
      if hit {
        c := Client(UA_RULES[k].profile, ZERO_VERSION);
        if UA_RULES[k].coreVersion {
          var v := ParseVersion(l);
          c := c.(version := v);
        }
        return c, true;
      }
    }
    return Client(PROFILE_FALLBACK, ZERO_VERSION), false;
  }

  /** The inner loop of `DetectUA`: whether some needle of rule `k` is there. */
  method AnyNeedle(l: string, k: nat) returns (hit: bool)
    requires k < |UA_RULES|
    ensures hit <==> Matches(l, UA_RULES[k])
  {
    var rule := UA_RULES[k];
    for j := 0 to |rule.needles|
      invariant forall i :: 0 <= i < j ==> !HasNeedle(l, rule.needles[i])
    {
      RuleWordsNonEmpty(k, j);
      var found := ContainsNeedle(l, rule.needles[j]);
      if found {
        return true;
      }
    }
    return false;
  }

  const FLOOR_RULE: nat := 6

  /** The bare clash floor is reached exactly by a User-Agent that holds no needle of an earlier rule. */
  lemma FloorReachedIff(ua: string)
    ensures FirstFrom(ToLower(ua), 0) >= FLOOR_RULE
       <==> forall k, j :: 0 <= k < FLOOR_RULE && 0 <= j < |UA_RULES[k].needles| ==>
              !HasNeedle(ToLower(ua), UA_RULES[k].needles[j])
  {
  }
}

/** From a core's User-Agent to the protocols it is offered (internal/subplane/detect.go, capability.go). */
module ClientGate {
  import opened MachineInts
  import opened ClientVersion
  import opened VersionText
  import opened Detect
  import opened Capability

  // ----- which rule a core's User-Agent meets first

  /** A needle with a character the text lacks does not occur in it. */
  lemma NoSuchChar(hay: string, n: Needle, j: nat)
    requires j < |n.s| && n.s[j] !in hay
    ensures !HasNeedle(hay, n)
  {
  }

  lemma StartsWith(hay: string, n: Needle)
    requires !n.word && |n.s| <= |hay| && hay[..|n.s|] == n.s
    ensures HasNeedle(hay, n)
  {
    assert OccursAt(hay, n.s, 0);
  }

  /** Printed versions hold digits and dots only, which lowercasing leaves alone. */
  lemma PrintedChars(name: string, major: nat, minor: nat, patch: nat, c: char)
    requires c !in name && !InRun(c)
    ensures c !in name + Printed(major, minor, patch)
  {
    PrintedIsRun(major, minor, patch);
  }

  predicate NoUpperCase(s: string) {
    forall i :: 0 <= i < |s| ==> !('A' <= s[i] <= 'Z')
  }

  lemma LowerFixes(s: string)
    requires NoUpperCase(s)
    ensures ToLower(s) == s
  {
  }

  lemma LowerAppend(s: string, t: string)
    ensures ToLower(s + t) == ToLower(s) + ToLower(t)
  {
  }

  lemma LowerPrinted(name: string, major: nat, minor: nat, patch: nat, suffix: string)
    ensures ToLower(name + Printed(major, minor, patch) + suffix)
         == ToLower(name) + Printed(major, minor, patch) + ToLower(suffix)
  {
    hide Printed;
    var s := Printed(major, minor, patch);
    LowerAppend(name + s, suffix);
    LowerAppend(name, s);
    PrintedIsRun(major, minor, patch);
    assert forall i :: 0 <= i < |s| ==> InRun(s[i]);
    LowerFixes(s);
  }

  const SING_BOX := "sing-box/"
  const MIHOMO := "mihomo/"

  const SING_BOX_RULE: nat := 3

  /** The User-Agent matches none of the rules that come before sing-box's own. */
  ghost predicate MeetsNoEarlierRule(ua: string) {
    forall k :: 0 <= k < SING_BOX_RULE ==> !Matches(ToLower(ua), UA_RULES[k])
  }

  /** Every needle of the earlier rules holds a `c`, an `h` or a `k`. */
  lemma PlainTextMeetsNoEarlierRule(ua: string)
    requires 'c' !in ToLower(ua) && 'h' !in ToLower(ua) && 'k' !in ToLower(ua)
    ensures MeetsNoEarlierRule(ua)
  {
    var l := ToLower(ua);
    hide HasNeedle, ToLower;
    forall k, j | 0 <= k < SING_BOX_RULE && 0 <= j < |UA_RULES[k].needles|
      ensures !HasNeedle(l, UA_RULES[k].needles[j])
    {
      var n := UA_RULES[k].needles[j];
      if k == 0 && j == 0 {
        assert n.s[2] == 'h';
        NoSuchChar(l, n, 2);
      } else if k == 0 {
        assert n.s[0] == 'c';
        NoSuchChar(l, n, 0);
      } else if k == 1 && j <= 4 {
        assert n.s[0] == 'c';
        NoSuchChar(l, n, 0);
      } else if k == 1 && j == 5 {
        assert n.s[2] == 'c';
        NoSuchChar(l, n, 2);
      } else if k == 1 {
        assert n.s[2] == 'k';
        NoSuchChar(l, n, 2);
      } else {
        assert n.s[0] == 'h';
        NoSuchChar(l, n, 0);
      }
    }
  }

  /** A suffix without `c`, `h` or `k`, such as " (darwin arm64)", holds no needle of an earlier rule. */
  lemma PlainSuffixMeetsNoEarlierRule(major: nat, minor: nat, patch: nat, suffix: string)
    requires 'c' !in ToLower(suffix) && 'h' !in ToLower(suffix) && 'k' !in ToLower(suffix)
    ensures MeetsNoEarlierRule(SING_BOX + Printed(major, minor, patch) + suffix)
  {
    hide Printed, ToLower, MeetsNoEarlierRule;
    LowerPrinted(SING_BOX, major, minor, patch, suffix);
    LowerFixes(SING_BOX);
    PrintedChars(SING_BOX, major, minor, patch, 'c');
    PrintedChars(SING_BOX, major, minor, patch, 'h');
    PrintedChars(SING_BOX, major, minor, patch, 'k');
    PlainTextMeetsNoEarlierRule(SING_BOX + Printed(major, minor, patch) + suffix);
  }

  /** A match of an earlier rule makes the client something other than sing-box. */
  lemma EarlierRuleIsNotSingBox(ua: string)
    requires !MeetsNoEarlierRule(ua)
    ensures Detected(ua).0.profile != SingBox
  {
    hide Matches, ToLower, ParseFrom;
    assert FirstFrom(ToLower(ua), 0) < SING_BOX_RULE;
  }

  /**
    `sing-box/M.m.p` is taken for sing-box with the version it prints, whatever follows the
    version once it has ended, exactly as long as no earlier rule finds its needle there.
   */
  lemma SingBoxDetected(major: nat, minor: nat, patch: nat, suffix: string)
    requires MayFollow(suffix)
    ensures var ua := SING_BOX + Printed(major, minor, patch) + suffix;
            Detected(ua) == (Client(SingBox, Fitting(major, minor, patch)), true) <==> MeetsNoEarlierRule(ua)
  {
    hide Printed, Fitting, ParseFrom, Detected, HasNeedle, ToLower, MayFollow;
    var ua := SING_BOX + Printed(major, minor, patch) + suffix;
    var l := ToLower(ua);
    LowerPrinted(SING_BOX, major, minor, patch, suffix);
    LowerFixes(SING_BOX);
    LowerMayFollow(suffix);
    ParsePrinted(SING_BOX, major, minor, patch, ToLower(suffix));
    if MeetsNoEarlierRule(ua) {
      assert l[..8] == "sing-box";
      StartsWith(l, UA_RULES[SING_BOX_RULE].needles[0]);
      DetectedIsFirstMatch(ua, SING_BOX_RULE);
    } else {
      EarlierRuleIsNotSingBox(ua);
    }
  }

  /** `mihomo/M.m.p` is taken for mihomo, whatever follows the version once it has ended. */
  lemma MihomoDetected(major: nat, minor: nat, patch: nat, suffix: string)
    requires MayFollow(suffix)
    ensures Detected(MIHOMO + Printed(major, minor, patch) + suffix) == (Client(Mihomo, Fitting(major, minor, patch)), true)
  {
    hide Printed, Fitting, Detected;
    LowerFixes("");
    CompoundMihomoDetected("", major, minor, patch, suffix, 0);
    assert "" + MIHOMO == MIHOMO;
  }

  lemma LowerMayFollow(suffix: string)
    requires MayFollow(suffix)
    ensures MayFollow(ToLower(suffix))
  {
  }

  lemma OccursInside(head: string, n: Needle, tail: string)
    requires !n.word
    ensures HasNeedle(head + n.s + tail, n)
  {
    assert OccursAt(head + n.s + tail, n.s, |head|);
  }

  // ----- a core named after something else

  /** What is accepted before "mihomo/" does not depend on what follows it, and nothing in the name is accepted. */
  lemma {:induction false} AcceptedBeforeName(head: string, tail: string, i: nat)
    requires i < |head| + |MIHOMO|
    ensures var named := head + MIHOMO;
            && (i >= |head| ==> !Accepts(named + tail, i))
            && (i < |head| ==> RunEnd(named, i) <= |head| && RunEnd(named + tail, i) == RunEnd(named, i)
                               && (Accepts(named + tail, i) <==> Accepts(named, i)))
  {
    var named := head + MIHOMO;
    if i < |head| {
      assert named[|head|] == 'm';
      RunEndLocal(named, tail, i);
    }
  }

  /**
    `prefix` + `mihomo/M.m.p`: the client is mihomo, and `k` is the first accepted position
    before the name, or the prefix's length if there is none. Only then is the version the
    core's; otherwise it is whatever stands at `k`.
   */
  lemma {:induction false} CompoundMihomoDetected(prefix: string, major: nat, minor: nat, patch: nat, suffix: string,
                                                  k: nat)
    requires MayFollow(suffix) && k <= |prefix|
    requires var named := ToLower(prefix) + MIHOMO;
             && (forall i :: 0 <= i < k ==> !Accepts(named, i))
             && (k < |prefix| ==> Accepts(named, k))
    ensures var named := ToLower(prefix) + MIHOMO;
            Detected(prefix + MIHOMO + Printed(major, minor, patch) + suffix)
            == (Client(Mihomo, if k == |prefix| then Fitting(major, minor, patch) else ReadRun(named[k..RunEnd(named, k)])), true)
  {
    hide Printed, Fitting, ParseFrom, ReadRun, Detected, HasNeedle, ToLower, MayFollow, Accepts, RunEnd;
    var ua := prefix + MIHOMO + Printed(major, minor, patch) + suffix;
    var head, l := ToLower(prefix), ToLower(ua);
    var named, tail := head + MIHOMO, Printed(major, minor, patch) + ToLower(suffix);
    LowerPrinted(prefix + MIHOMO, major, minor, patch, suffix);
    LowerAppend(prefix, MIHOMO);
    LowerFixes(MIHOMO);
    assert l == named + Printed(major, minor, patch) + ToLower(suffix) == named + tail;
    forall i | 0 <= i < |named| && (i < k || |head| <= i)
      ensures !Accepts(l, i)
    {
      AcceptedBeforeName(head, tail, i);
    }
    if k == |prefix| {
      LowerMayFollow(suffix);
      ParsePrintedAfter(named, major, minor, patch, ToLower(suffix));
    } else {
      AcceptedBeforeName(head, tail, k);
      ScanFindsFirst(l, 0, k);
      assert l[k..RunEnd(l, k)] == named[k..RunEnd(named, k)];
    }
    assert l == head + "mihomo" + ("/" + tail);
    OccursInside(head, UA_RULES[0].needles[0], "/" + tail);
    DetectedIsFirstMatch(ua, 0);
  }

  /**
    A wrapper that names its own version before its core's: the wrapper's is taken for the
    core's, although it is the core's name that made the rule match.
   */
  lemma WrapperVersionIsRead(name: string, major: nat, minor: nat, patch: nat, core: string)
    requires DigitFree(name) && MayPrecede(name)
    ensures Detected(name + Printed(major, minor, patch) + (" " + MIHOMO + core))
         == (Client(Mihomo, Fitting(major, minor, patch)), true)
  {
    hide Printed, Fitting, ParseFrom, Detected, HasNeedle, ToLower;
    var suffix := " " + MIHOMO + core;
    var ua := name + Printed(major, minor, patch) + suffix;
    LowerPrinted(name, major, minor, patch, suffix);
    LowerName(name);
    LowerMayFollow(suffix);
    ParsePrinted(ToLower(name), major, minor, patch, ToLower(suffix));
    LowerAppend(" " + MIHOMO, core);
    LowerFixes(" " + MIHOMO);
    var before := ToLower(name) + Printed(major, minor, patch) + " ";
    assert ToLower(ua) == before + "mihomo" + ("/" + ToLower(core));
    OccursInside(before, UA_RULES[0].needles[0], "/" + ToLower(core));
    DetectedIsFirstMatch(ua, 0);
  }

  lemma LowerName(name: string)
    requires DigitFree(name) && MayPrecede(name)
    ensures DigitFree(ToLower(name)) && MayPrecede(ToLower(name))
  {
  }

  /** So a wrapper at 2.0 gets AnyTLS for a core at 1.18, which cannot parse it. */
  lemma WrapperVersionOpensGate()
    ensures Supports(Detected("FlClash/" + Printed(2, 0, 0) + (" " + MIHOMO + Printed(1, 18, 0))).0, AnyTLS)
    ensures !Supports(Client(Mihomo, Version(1, 18, 0)), AnyTLS)
  {
    hide Printed, Detected;
    WrapperVersionIsRead("FlClash/", 2, 0, 0, Printed(1, 18, 0));
  }

  // ----- what the version then decides

  /** Version `major.minor.patch` is at least `a.b.0`, as numbers of any size. */
  predicate AtLeastRelease(major: nat, minor: nat, a: nat, b: nat) {
    major > a || (major == a && minor >= b)
  }

  /** A core at version `major.minor.patch`, read as far as it fits, passes the gate `1.b`. */
  lemma GatePassedIff(major: nat, minor: nat, patch: nat, b: nat)
    requires 0 < b <= MAX_INT64
    ensures Fitting(major, minor, patch).AtLeast(Version(1, b, 0))
       <==> major <= MAX_INT64 && (major > 1 || (major == 1 && b <= minor <= MAX_INT64))
  {
  }

  /**
    The whole path for sing-box: AnyTLS is offered exactly from 1.12 on, as long as the
    components that decide fit an int; one that does not reads as zero and is refused.
   */
  lemma SingBoxAnyTLSIff(major: nat, minor: nat, patch: nat, suffix: string)
    requires MayFollow(suffix) && MeetsNoEarlierRule(SING_BOX + Printed(major, minor, patch) + suffix)
    ensures var c := Detected(SING_BOX + Printed(major, minor, patch) + suffix).0;
            && (Supports(c, AnyTLS) <==> major <= MAX_INT64 && (major > 1 || (major == 1 && 12 <= minor <= MAX_INT64)))
            && (major <= MAX_INT64 && minor <= MAX_INT64 ==>
                  (Supports(c, AnyTLS) <==> AtLeastRelease(major, minor, 1, 12)))
  {
    hide Detected, Printed, Fitting, MeetsNoEarlierRule;
    SingBoxDetected(major, minor, patch, suffix);
    GatePassedIff(major, minor, patch, 12);
  }

  /** The same for mihomo: AnyTLS from 1.19 on, Hysteria2 and TUIC from 1.15 on. */
  lemma MihomoGatesIff(major: nat, minor: nat, patch: nat, suffix: string)
    requires MayFollow(suffix)
    ensures var c := Detected(MIHOMO + Printed(major, minor, patch) + suffix).0;
            && (Supports(c, AnyTLS) <==> major <= MAX_INT64 && (major > 1 || (major == 1 && 19 <= minor <= MAX_INT64)))
            && (Supports(c, Hysteria2) <==> major <= MAX_INT64 && (major > 1 || (major == 1 && 15 <= minor <= MAX_INT64)))
            && (Supports(c, TUIC) <==> Supports(c, Hysteria2))
            && Supports(c, VLESS)
    ensures major <= MAX_INT64 && minor <= MAX_INT64 ==>
              (Supports(Detected(MIHOMO + Printed(major, minor, patch) + suffix).0, AnyTLS)
               <==> AtLeastRelease(major, minor, 1, 19))
  {
    hide Detected, Printed, Fitting;
    MihomoDetected(major, minor, patch, suffix);
    GatePassedIff(major, minor, patch, 19);
    GatePassedIff(major, minor, patch, 15);
  }

  /** `a` is not a later release than `b`. */
  predicate NotNewer(a: Version, b: Version) {
    !b.Less(a)
  }

  function Text(v: Version): string
    requires 0 <= v.major && 0 <= v.minor && 0 <= v.patch
  {
    Printed(v.major, v.minor, v.patch)
  }

  /** Upgrading a core, within the int range, never costs it a protocol. */
  lemma UpgradeKeepsProtocols(a: Version, b: Version, suffix: string, proto: Protocol)
    requires 0 <= a.major && 0 <= a.minor && 0 <= a.patch && 0 <= b.major && 0 <= b.minor && 0 <= b.patch
    requires NotNewer(a, b) && MayFollow(suffix)
    ensures MeetsNoEarlierRule(SING_BOX + Text(a) + suffix) && MeetsNoEarlierRule(SING_BOX + Text(b) + suffix) ==>
              Supports(Detected(SING_BOX + Text(a) + suffix).0, proto) ==>
              Supports(Detected(SING_BOX + Text(b) + suffix).0, proto)
    ensures Supports(Detected(MIHOMO + Text(a) + suffix).0, proto) ==>
              Supports(Detected(MIHOMO + Text(b) + suffix).0, proto)
  {
    hide Detected, Printed, Supports, MeetsNoEarlierRule;
    SingBoxDetected(a.major, a.minor, a.patch, suffix);
    SingBoxDetected(b.major, b.minor, b.patch, suffix);
    MihomoDetected(a.major, a.minor, a.patch, suffix);
    MihomoDetected(b.major, b.minor, b.patch, suffix);
    SupportsMonotone(SingBox, a, b, proto);
    SupportsMonotone(Mihomo, a, b, proto);
  }

  /** Past the int range it can: a major version one too large reads as unknown. */
  lemma OverlongVersionLosesAnyTLS()
    ensures Supports(Detected(SING_BOX + Printed(MAX_INT64, 0, 0) + "").0, AnyTLS)
    ensures !Supports(Detected(SING_BOX + Printed(MAX_INT64 + 1, 0, 0) + "").0, AnyTLS)
  {
    hide Detected, Printed, Supports, MeetsNoEarlierRule;
    PlainSuffixMeetsNoEarlierRule(MAX_INT64, 0, 0, "");
    PlainSuffixMeetsNoEarlierRule(MAX_INT64 + 1, 0, 0, "");
    SingBoxAnyTLSIff(MAX_INT64, 0, 0, "");
    SingBoxAnyTLSIff(MAX_INT64 + 1, 0, 0, "");
  }
}

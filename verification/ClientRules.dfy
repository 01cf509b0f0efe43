/**
  Who a User-Agent is taken for, said in terms of the text alone, and what follows for the
  protocols offered (internal/subplane/detect.go, capability.go).
 */
module ClientRules {
  import opened ClientVersion
  import opened VersionText
  import opened Detect
  import opened Capability
  import opened ClientGate

  // ----- the rules as texts

  predicate Has(l: string, s: string) {
    HasNeedle(l, Needle(s, false))
  }

  predicate HasWord(l: string, s: string) {
    HasNeedle(l, Needle(s, true))
  }

  predicate NamesMihomo(l: string) {
    Has(l, "mihomo") || Has(l, "clash.meta") || Has(l, "clash-meta") || Has(l, "clash meta")
  }

  predicate NamesMihomoWrapper(l: string) {
    || Has(l, "clash-verge") || Has(l, "clash verge") || Has(l, "clashmeta") || Has(l, "clashx meta")
    || HasWord(l, "cmfa") || Has(l, "flclash") || HasWord(l, "nikki")
  }

  predicate NamesHiddifyClash(l: string) {
    Has(l, "hiddifyclash") || Has(l, "hiddify clash")
  }

  predicate NamesSingBox(l: string) {
    Has(l, "sing-box") || HasWord(l, "sfa") || HasWord(l, "sfi") || HasWord(l, "sfm")
  }

  predicate NamesSingBoxWrapper(l: string) {
    Has(l, "hiddify") || HasWord(l, "karing")
  }

  predicate NamesStash(l: string) {
    HasWord(l, "stash")
  }

  predicate NamesClash(l: string) {
    Has(l, "clash") || HasWord(l, "cfa")
  }

  predicate NamesLinkClient(l: string) {
    || Has(l, "shadowrocket") || Has(l, "v2rayn") || Has(l, "v2rayng")
    || Has(l, "nekobox") || Has(l, "nekoray") || HasWord(l, "throne")
  }

  /** Rule `k`, as a text. */
  predicate NamesRule(l: string, k: nat) {
    match k
    case 0 => NamesMihomo(l)
    case 1 => NamesMihomoWrapper(l)
    case 2 => NamesHiddifyClash(l)
    case 3 => NamesSingBox(l)
    case 4 => NamesSingBoxWrapper(l)
    case 5 => NamesStash(l)
    case 6 => NamesClash(l)
    case _ => NamesLinkClient(l)
  }

  lemma RuleIsText(l: string, k: nat)
    requires k < 8
    ensures |UA_RULES| == 8 && (Matches(l, UA_RULES[k]) <==> NamesRule(l, k))
  {
    hide HasNeedle;
    var ns := UA_RULES[k].needles;
    if Matches(l, UA_RULES[k]) {
      var j :| 0 <= j < |ns| && HasNeedle(l, ns[j]);
    }
    assert HasNeedle(l, ns[0]) ==> Matches(l, UA_RULES[k]);
    assert |ns| > 1 && HasNeedle(l, ns[1]) ==> Matches(l, UA_RULES[k]);
    assert |ns| > 2 && HasNeedle(l, ns[2]) ==> Matches(l, UA_RULES[k]);
    assert |ns| > 3 && HasNeedle(l, ns[3]) ==> Matches(l, UA_RULES[k]);
    assert |ns| > 4 && HasNeedle(l, ns[4]) ==> Matches(l, UA_RULES[k]);
    assert |ns| > 5 && HasNeedle(l, ns[5]) ==> Matches(l, UA_RULES[k]);
    assert |ns| > 6 && HasNeedle(l, ns[6]) ==> Matches(l, UA_RULES[k]);
  }

  /** The dialect a lowercased User-Agent is served, by what it names. */
  function Dialect(l: string): Profile {
    if NamesMihomo(l) || NamesMihomoWrapper(l) then Mihomo
    else if NamesHiddifyClash(l) then ClashPremium
    else if NamesSingBox(l) || NamesSingBoxWrapper(l) then SingBox
    else if NamesStash(l) then Mihomo
    else if NamesClash(l) then ClashPremium
    else Base64
  }

  /** It speaks for a core itself: it names mihomo, or sing-box and nothing that comes before it. */
  predicate SpeaksForCore(l: string) {
    NamesMihomo(l) || (NamesSingBox(l) && !NamesMihomoWrapper(l) && !NamesHiddifyClash(l))
  }

  predicate NamesAnyClient(l: string) {
    exists k :: 0 <= k < 8 && NamesRule(l, k)
  }

  /**
    The whole of detection by text alone: the dialect follows the names in their order, a
    version is read only from a text that speaks for a core, every other one is unknown, and
    a text that names no client is reported.
   */
  lemma DetectedByText(ua: string)
    ensures var l := ToLower(ua);
            && Detected(ua).0.profile == Dialect(l)
            && (SpeaksForCore(l) ==> Detected(ua).0.version == ParseFrom(l, 0))
            && (!SpeaksForCore(l) ==> Detected(ua).0.version == Version(0, 0, 0))
            && (Detected(ua).1 <==> NamesAnyClient(l))
  {
    hide Matches, ToLower, ParseFrom;
    hide NamesMihomo, NamesMihomoWrapper, NamesHiddifyClash, NamesSingBox, NamesSingBoxWrapper, NamesStash, NamesClash;
    hide NamesLinkClient;
    var l := ToLower(ua);
    forall k | 0 <= k < 8
      ensures |UA_RULES| == 8 && (Matches(l, UA_RULES[k]) <==> NamesRule(l, k))
    {
      RuleIsText(l, k);
    }
    RuleIsText(l, 0);
    var r := FirstFrom(l, 0);
    assert r < 8 ==> NamesRule(l, r);
    assert 0 < r ==> !NamesRule(l, 0);
    assert 1 < r ==> !NamesRule(l, 1);
    assert 2 < r ==> !NamesRule(l, 2);
    assert 3 < r ==> !NamesRule(l, 3);
    assert 4 < r ==> !NamesRule(l, 4);
    assert 5 < r ==> !NamesRule(l, 5);
    assert 6 < r ==> !NamesRule(l, 6);
  }

  // ----- what each dialect is offered

  /** Release `a.b` of a core or a later one. */
  predicate FromRelease(v: Version, a: int, b: int) {
    v.major > a || (v.major == a && (v.minor > b || (v.minor == b && v.patch >= 0)))
  }

  /** Exactly which protocols a client is offered, and from which release of its core. */
  lemma OfferedExactly(c: Client, proto: Protocol)
    requires c.profile != NoProfile
    ensures proto in {Shadowsocks, VMess, Trojan} ==> Supports(c, proto)
    ensures proto == VLESS ==> (Supports(c, proto) <==> c.profile != ClashPremium)
    ensures proto in {Hysteria2, TUIC} ==>
              (Supports(c, proto) <==> c.profile == SingBox || (c.profile == Mihomo && FromRelease(c.version, 1, 15)))
    ensures proto == AnyTLS ==>
              (Supports(c, proto) <==> || (c.profile == SingBox && FromRelease(c.version, 1, 12))
                                       || (c.profile == Mihomo && FromRelease(c.version, 1, 19)))
    ensures proto == Lumi || proto.OtherProtocol? ==> !Supports(c, proto)
  {
  }

  /** The zero client is offered nothing. */
  lemma ZeroClientIsInert(proto: Protocol)
    ensures !Supports(Client(NoProfile, Version(0, 0, 0)), proto)
  {
  }

  /** From the text to the decision, for every User-Agent and every protocol. */
  lemma OfferedByText(ua: string, proto: Protocol)
    ensures var l, c := ToLower(ua), Detected(ua).0;
            && (proto in {Shadowsocks, VMess, Trojan} ==> Supports(c, proto))
            && (proto == VLESS ==> (Supports(c, proto) <==> Dialect(l) != ClashPremium))
            && (proto in {Hysteria2, TUIC} ==>
                  (Supports(c, proto) <==> || Dialect(l) == SingBox
                                           || (Dialect(l) == Mihomo && SpeaksForCore(l) && FromRelease(ParseFrom(l, 0), 1, 15))))
            && (proto == AnyTLS ==>
                  (Supports(c, proto) <==> SpeaksForCore(l)
                                           && (|| (Dialect(l) == SingBox && FromRelease(ParseFrom(l, 0), 1, 12))
                                               || (Dialect(l) == Mihomo && FromRelease(ParseFrom(l, 0), 1, 19)))))
            && (proto == Lumi || proto.OtherProtocol? ==> !Supports(c, proto))
  {
    hide Detected, ToLower, ParseFrom, Supports, SpeaksForCore;
    DetectedByText(ua);
    OfferedExactly(Detected(ua).0, proto);
  }

  // ----- wrappers

  lemma NoNeedleWithout(l: string, s: string, word: bool, j: nat)
    requires j < |s| && s[j] !in l
    ensures !HasNeedle(l, Needle(s, word))
  {
    NoSuchChar(l, Needle(s, word), j);
  }

  /** Without an `m`, or without an `h`, nothing names mihomo's core. */
  lemma NamesNoMihomo(l: string)
    requires 'm' !in l || 'h' !in l
    ensures !NamesMihomo(l)
  {
    hide HasNeedle;
    if 'm' !in l {
      NoNeedleWithout(l, "mihomo", false, 0);
      NoNeedleWithout(l, "clash.meta", false, 6);
      NoNeedleWithout(l, "clash-meta", false, 6);
      NoNeedleWithout(l, "clash meta", false, 6);
    } else {
      NoNeedleWithout(l, "mihomo", false, 2);
      NoNeedleWithout(l, "clash.meta", false, 4);
      NoNeedleWithout(l, "clash-meta", false, 4);
      NoNeedleWithout(l, "clash meta", false, 4);
    }
  }

  /** Served mihomo's dialect, with no version known and so nothing that needs one. */
  ghost predicate UnknownMihomo(ua: string) {
    && Detected(ua) == (Client(Mihomo, Version(0, 0, 0)), true)
    && forall proto :: Supports(Detected(ua).0, proto) <==> proto in {Shadowsocks, VMess, Trojan, VLESS}
  }

  /** A client that names a mihomo wrapper and no core is served mihomo's dialect, its own version unread. */
  lemma MihomoWrapperIsUnknown(ua: string)
    requires NamesMihomoWrapper(ToLower(ua)) && ('m' !in ToLower(ua) || 'h' !in ToLower(ua))
    ensures UnknownMihomo(ua)
  {
    hide Detected, Supports, ToLower, NamesMihomo, NamesMihomoWrapper, NamesSingBox, NamesHiddifyClash;
    NamesNoMihomo(ToLower(ua));
    DetectedByText(ua);
    assert NamesRule(ToLower(ua), 1);
    forall proto
      ensures Supports(Detected(ua).0, proto) <==> proto in {Shadowsocks, VMess, Trojan, VLESS}
    {
      OfferedExactly(Detected(ua).0, proto);
    }
  }

  lemma PrintedHolds(name: string, major: nat, minor: nat, patch: nat)
    ensures forall c :: c in name + Printed(major, minor, patch) ==> c in name || InRun(c)
  {
    PrintedIsRun(major, minor, patch);
  }

  lemma LowerText(name: string, low: string, major: nat, minor: nat, patch: nat)
    requires ToLower(name) == low
    ensures ToLower(name + Printed(major, minor, patch)) == low + Printed(major, minor, patch)
  {
    hide Printed, ToLower;
    LowerPrinted(name, major, minor, patch, "");
    LowerFixes("");
    assert name + Printed(major, minor, patch) + "" == name + Printed(major, minor, patch);
    assert low + Printed(major, minor, patch) + "" == low + Printed(major, minor, patch);
  }

  lemma WrapperTextIsUnknown(name: string, low: string, major: nat, minor: nat, patch: nat)
    requires ToLower(name) == low && ('m' !in low || 'h' !in low)
    requires NamesMihomoWrapper(low + Printed(major, minor, patch))
    ensures UnknownMihomo(name + Printed(major, minor, patch))
  {
    hide Detected, Supports, Printed, ToLower, NamesMihomoWrapper;
    LowerText(name, low, major, minor, patch);
    PrintedHolds(low, major, minor, patch);
    MihomoWrapperIsUnknown(name + Printed(major, minor, patch));
  }

  lemma NamedFirst(low: string, s: string, v: string)
    requires |s| <= |low| && low[..|s|] == s
    ensures Has(low + v, s)
    ensures |s| < |low| && !IsWordByte(low[|s|]) ==> HasWord(low + v, s)
  {
    assert OccursAt(low + v, s, 0);
  }

  /** The wrappers' own names, lowercased, name a wrapper and hold too few letters to name the core. */
  lemma WrapperNames(v: string)
    ensures NamesMihomoWrapper("flclash/" + v) && NamesMihomoWrapper("cmfa/" + v) && NamesMihomoWrapper("clash-verge/v" + v)
  {
    hide Has, HasWord;
    NamedFirst("flclash/", "flclash", v);
    NamedFirst("cmfa/", "cmfa", v);
    NamedFirst("clash-verge/v", "clash-verge", v);
  }

  lemma WrapperLetters()
    ensures ToLower("FlClash/") == "flclash/" && 'm' !in "flclash/"
    ensures ToLower("CMFA/") == "cmfa/" && 'h' !in "cmfa/"
    ensures ToLower("clash-verge/v") == "clash-verge/v" && 'm' !in "clash-verge/v"
  {
    LowerFixes("clash-verge/v");
  }

  /** The mihomo wrappers, at any version of theirs, are offered what needs no version and nothing else. */
  lemma MihomoWrappersAreUnknown(major: nat, minor: nat, patch: nat)
    ensures UnknownMihomo("FlClash/" + Printed(major, minor, patch))
    ensures UnknownMihomo("CMFA/" + Printed(major, minor, patch))
    ensures UnknownMihomo("clash-verge/v" + Printed(major, minor, patch))
  {
    hide *;
    WrapperLetters();
    WrapperNames(Printed(major, minor, patch));
    WrapperTextIsUnknown("FlClash/", "flclash/", major, minor, patch);
    WrapperTextIsUnknown("CMFA/", "cmfa/", major, minor, patch);
    WrapperTextIsUnknown("clash-verge/v", "clash-verge/v", major, minor, patch);
  }

  // ----- numbers in names

  /**
    A number glued to a name ahead of the version is read from its second digit: whatever
    follows, "sing-box (arm64)" is taken for release 4, and offered AnyTLS.
   */
  lemma ArchitectureIsRead(rest: string)
    requires MayFollow(rest) && MeetsNoEarlierRule("sing-box (arm64" + rest)
    ensures Detected("sing-box (arm64" + rest) == (Client(SingBox, Version(4, 0, 0)), true)
    ensures Supports(Detected("sing-box (arm64" + rest).0, AnyTLS)
  {
    var ua := "sing-box (arm64" + rest;
    var l := ToLower(ua);
    LowerAppend("sing-box (arm64", rest);
    LowerFixes("sing-box (arm64");
    LowerMayFollow(rest);
    hide Detected, ToLower, HasNeedle, ParseFrom, Supports;
    GluedDigitsRead("sing-box (arm", ToLower(rest));
    assert l == "sing-box (arm" + "64" + ToLower(rest);
    assert l[..8] == "sing-box";
    StartsWith(l, UA_RULES[SING_BOX_RULE].needles[0]);
    DetectedIsFirstMatch(ua, SING_BOX_RULE);
    OfferedExactly(Detected(ua).0, AnyTLS);
  }

  lemma {:induction false} GluedDigitsRead(name: string, rest: string)
    requires DigitFree(name) && !MayPrecede(name) && MayFollow(rest)
    ensures ParseFrom(name + "64" + rest, 0) == Version(4, 0, 0)
  {
    hide ReadRun, ParseFrom, ReadAs, Dotted;
    GluedRun(name, "64", rest, 1);
    assert "64"[1..] == "4" == "4" + "";
    ReadNumbers(["4"], "");
    assert Dotted(["4"]) == "4" && ReadAs(["4"]) == Version(4, 0, 0) by { FourIsFour(); }
  }

  lemma FourIsFour()
    ensures AreNumbers(["4"]) && Dotted(["4"]) == "4" && ReadAs(["4"]) == Version(4, 0, 0)
  {
    assert "4"[..0] == "" && DecimalValue("4") == 4;
  }

  // ----- what does not matter, and what is no match

  predicate SameLetter(c: char, d: char) {
    c == d || ('a' <= c <= 'z' && c as int == d as int + 32) || ('a' <= d <= 'z' && d as int == c as int + 32)
  }

  /** Upper and lower case are never told apart. */
  lemma CaseNeverMatters(ua: string, ub: string)
    requires |ua| == |ub| && forall i :: 0 <= i < |ua| ==> SameLetter(ua[i], ub[i])
    ensures Detected(ua) == Detected(ub)
  {
    forall i | 0 <= i < |ua|
      ensures LowerChar(ua[i]) == LowerChar(ub[i])
    {
    }
    assert ToLower(ua) == ToLower(ub);
  }

  /** Letters and digits run together around a word needle, as in "Instashare", are no match. */
  lemma RunTogetherIsNoMatch(hay: string, s: string)
    requires s != "" && |s| < |hay|
    requires forall i :: 0 <= i < |hay| ==> 'a' <= hay[i] <= 'z' || 'A' <= hay[i] <= 'Z' || '0' <= hay[i] <= '9'
    ensures !HasNeedle(hay, Needle(s, true))
  {
  }
}

/** The protocols each client is offered (internal/subplane/capability.go). */
module Capability {
  import opened MachineInts
  import opened Options
  import opened ClientVersion
  import opened Detect

  /** `OtherProtocol` stands for a name the matrix has no row for. */
  datatype Protocol = Shadowsocks | VMess | Trojan | VLESS | Hysteria2 | TUIC | AnyTLS | Lumi | OtherProtocol(name: string)

  datatype Support = Unsupported | Partial | Supported

  /** One cell: whether the dialect parses the protocol, and from which core version. */
  datatype Rule = Rule(level: Support, min: Version)

  const YES := Rule(Supported, ZERO_VERSION)
  const MAYBE := Rule(Partial, ZERO_VERSION)
  const NO := Rule(Unsupported, ZERO_VERSION)

  function Since(a: Int64, b: Int64): Rule {
    Rule(Supported, Version(a, b, 0))
  }

  /** What every profile has in common; the other protocols are the profile's own. */
  function Classic(proto: Protocol, own: Option<Rule>): Option<Rule> {
    match proto
    case Shadowsocks => Some(YES)
    case VMess => Some(YES)
    case Trojan => Some(YES)
    case Lumi => Some(NO)
    case _ => own
  }

  function Matrix(profile: Profile, proto: Protocol): Option<Rule> {
    match profile
    case Mihomo => Classic(proto,
      match proto
      case VLESS => Some(YES)
      case Hysteria2 => Some(Since(1, 15))
      case TUIC => Some(Since(1, 15))
      case AnyTLS => Some(Since(1, 19))
      case _ => None)
    case SingBox => Classic(proto,
      match proto
      case VLESS => Some(YES)
      case Hysteria2 => Some(YES)
      case TUIC => Some(YES)
      case AnyTLS => Some(Since(1, 12))
      case _ => None)
    case ClashPremium => Classic(proto,
      match proto
      case VLESS => Some(NO)
      case Hysteria2 => Some(NO)
      case TUIC => Some(NO)
      case AnyTLS => Some(NO)
      case _ => None)
    case Base64 => Classic(proto,
      match proto
      case VLESS => Some(YES)
      case Hysteria2 => Some(MAYBE)
      case TUIC => Some(MAYBE)
      case AnyTLS => Some(MAYBE)
      case _ => None)
    case NoProfile => None
  }

  predicate Supports(c: Client, proto: Protocol) {
    var r := Matrix(c.profile, proto);
    && r.Some? && r.value.level.Supported?
    && (r.value.min.IsZero() || c.version.AtLeast(r.value.min))
  }

  /** A newer core parses whatever an older one does, and a known version whatever an unknown one does. */
  lemma SupportsMonotone(profile: Profile, older: Version, newer: Version, proto: Protocol)
    requires !newer.Less(older)
    ensures Supports(Client(profile, older), proto) ==> Supports(Client(profile, newer), proto)
  {
  }
}

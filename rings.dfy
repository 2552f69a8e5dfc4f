/** Ring identifiers, pattern types and the ring record the analyzer
    publishes in `fraud_rings` (backend/analyzer.py). */
module Rings {
  import opened Seqs
  import opened Text

  /** The prefixes handed to `_next_rid`, one per pass. */
  datatype Prefix = CYC | FIN | FOUT | SHELL | CONSOL | CROSS

  function PrefixName(p: Prefix): string {
    match p
    case CYC => "CYC"
    case FIN => "FIN"
    case FOUT => "FOUT"
    case SHELL => "SHELL"
    case CONSOL => "CONSOL"
    case CROSS => "CROSS"
  }

  /** A ring identifier: the pass prefix and that prefix's counter value. */
  datatype RingId = RingId(prefix: Prefix, serial: nat)

  /** `f"RING_{prefix}_{counter:03}"`. */
  function RingIdText(id: RingId): string {
    "RING_" + PrefixName(id.prefix) + "_" + Pad3(NatStr(id.serial))
  }

  lemma PrefixKeyInjective(p: Prefix, q: Prefix)
    requires PrefixName(p)[..2] == PrefixName(q)[..2]
    ensures p == q
  {
    var u, v := PrefixName(p), PrefixName(q);
    assert u[0] == v[0] && u[1] == v[1];
  }

  /** Distinct identifiers render to distinct strings, so the published
      `ring_id`s are unique exactly when the identifiers are. */
  lemma RingIdTextInjective(a: RingId, b: RingId)
    requires RingIdText(a) == RingIdText(b)
    ensures a == b
  {
    var s, t := RingIdText(a), RingIdText(b);
    assert s[5..7] == PrefixName(a.prefix)[..2];
    assert t[5..7] == PrefixName(b.prefix)[..2];
    PrefixKeyInjective(a.prefix, b.prefix);
    var k := 5 + |PrefixName(a.prefix)| + 1;
    assert s[k..] == Pad3(NatStr(a.serial));
    assert t[k..] == Pad3(NatStr(b.serial));
    Pad3Injective(a.serial, b.serial);
  }

  /** The four pattern pairs the cross-pattern pass intersects. */
  datatype Overlap = FanInCycle | FanOutCycle | ShellCycle | FanOutShell {
    function First(): PatternType {
      match this
      case FanInCycle => SmurfingFanIn
      case FanOutCycle => SmurfingFanOut
      case ShellCycle => LayeredShell
      case FanOutShell => SmurfingFanOut
    }
    function Second(): PatternType {
      match this
      case FanInCycle => Cycle
      case FanOutCycle => Cycle
      case ShellCycle => Cycle
      case FanOutShell => LayeredShell
    }
    function Label(): string {
      match this
      case FanInCycle => "smurfing_fan_in\U{2192}cycle"
      case FanOutCycle => "smurfing_fan_out\U{2192}cycle"
      case ShellCycle => "layered_shell\U{2192}cycle"
      case FanOutShell => "smurfing_fan_out\U{2192}layered_shell"
    }
  }

  /** `OVERLAP_PAIRS`, in the order the pass visits them. */
  const OverlapPairs: seq<Overlap> := [FanInCycle, FanOutCycle, ShellCycle, FanOutShell]

  datatype PatternType =
    | Cycle | SmurfingFanIn | SmurfingFanOut | LayeredShell | Consolidation
    | Hybrid(overlap: Overlap)
  {
    /** The `pattern_type` string of a ring. */
    function Name(): string {
      match this
      case Cycle => "cycle"
      case SmurfingFanIn => "smurfing_fan_in"
      case SmurfingFanOut => "smurfing_fan_out"
      case LayeredShell => "layered_shell"
      case Consolidation => "consolidation"
      case Hybrid(o) => o.Label()
    }

    /** The `_next_rid` prefix of the pass that registers rings of this type. */
    function IdPrefix(): Prefix {
      match this
      case Cycle => CYC
      case SmurfingFanIn => FIN
      case SmurfingFanOut => FOUT
      case LayeredShell => SHELL
      case Consolidation => CONSOL
      case Hybrid(_) => CROSS
    }
  }

  /** A `fraud_rings` entry. `totalAmount` is in cents; `overlapWith` is the
      pair rendered as `f"{rid_a} × {rid_b}"`. */
  datatype Ring = Ring(
    id: RingId,
    members: seq<string>,
    patternType: PatternType,
    riskScore: nat,
    totalAmount: int,
    bridgeNodes: seq<string>,
    overlapWith: Option<(RingId, RingId)>)
}

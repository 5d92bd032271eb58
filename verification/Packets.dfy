/** Finding the flow in an IPv4 or IPv6 packet (section 3.1 of RFC 791, section 4
    of RFC 8200, section 2.2 of RFC 4302). Source: src/divert.rs, lines 161-275. */
module Packets {
  import opened Options
  import opened Octets

  const TCP: byte := 6
  const HOP_BY_HOP: byte := 0
  const ROUTING: byte := 43
  const FRAGMENT: byte := 44
  const AUTHENTICATION: byte := 51
  const DESTINATION: byte := 60
  /** The reader looks at no more than eight headers, so passes at most seven. */
  const MAX_HEADERS: nat := 8

  // ---- the code's reading ----

  datatype Upper = Upper(proto: byte, off: nat)
  datatype Layer3 = Layer3(proto: byte, src: Address, dst: Address, l4: nat)
  datatype Flow = Flow(proto: byte, src: Address, dst: Address, sport: u16, dport: u16, synOnly: bool)

  predicate IsExtension(nh: byte) {
    nh == HOP_BY_HOP || nh == ROUTING || nh == FRAGMENT || nh == AUTHENTICATION || nh == DESTINATION
  }

  /** How long the extension header here is; none when it cannot be read or
      belongs to a later fragment, which carries no ports. */
  function ExtensionLength(pkt: seq<byte>, nh: byte, off: nat): (n: Option<nat>)
    requires IsExtension(nh)
    ensures n.Some? ==> n.value >= 8 && off < |pkt|
  {
    if nh == FRAGMENT then
      if off + 3 >= |pkt| || U16At(pkt, off + 2) / 8 != 0 then None else Some(8)
    else if off + 1 >= |pkt| then None
    else
      var units: int := pkt[off + 1];
      Some(if nh == AUTHENTICATION then (units + 2) * 4 else (units + 1) * 8)
  }

  datatype End = End(proto: byte, off: nat, passed: nat)

  /** The walk along the next-header chain with no bound on its length. */
  function WalkChain(pkt: seq<byte>, nh: byte, off: nat): Option<End>
    decreases |pkt| - off
  {
    if !IsExtension(nh) then Some(End(nh, off, 0))
    else
      match ExtensionLength(pkt, nh, off)
      case None => None
      case Some(n) =>
        if off + n >= |pkt| then None
        else Passed(1, WalkChain(pkt, pkt[off], off + n))
  }

  function Passed(n: nat, end: Option<End>): Option<End> {
    if end.None? then None else Some(End(end.value.proto, end.value.off, end.value.passed + n))
  }

  /** What the walk means to a reader that stops after eight headers. */
  function Bounded(end: Option<End>): Option<Upper> {
    if end.None? || end.value.passed >= MAX_HEADERS then None else Some(Upper(end.value.proto, end.value.off))
  }

  /** Succeeds exactly when the unbounded walk reaches an upper layer past at
      most seven extension headers, and then with the same answer. */
  method SkipExt(pkt: seq<byte>, nh0: byte, off0: nat) returns (r: Option<Upper>)
    ensures r == Bounded(WalkChain(pkt, nh0, off0))
  {
    var nh: byte, off: nat := nh0, off0;
    for i := 0 to MAX_HEADERS
      invariant WalkChain(pkt, nh0, off0) == Passed(i, WalkChain(pkt, nh, off))
    {
      var n: nat := 0;
      if nh == HOP_BY_HOP || nh == ROUTING || nh == DESTINATION {
        if off + 1 >= |pkt| { return None; }
        var units: int := pkt[off + 1];
        n := (units + 1) * 8;
      } else if nh == FRAGMENT {
        if off + 2 >= |pkt| || off + 3 >= |pkt| { return None; }
        if U16At(pkt, off + 2) / 8 != 0 { return None; }
        n := 8;
      } else if nh == AUTHENTICATION {
        if off + 1 >= |pkt| { return None; }
        var units: int := pkt[off + 1];
        n := (units + 2) * 4;
      } else {
        return Some(Upper(nh, off));
      }
      nh := pkt[off];
      off := off + n;
      if off >= |pkt| { return None; }
    }
    return None;
  }

  function L3(pkt: seq<byte>): (h: Option<Layer3>)
    ensures h.Some? ==> (h.value.src.V4? <==> h.value.dst.V4?)
    ensures h.Some? ==> |h.value.src.octets| == |h.value.dst.octets| == if h.value.src.V4? then 4 else 16
  {
    if pkt == [] then None
    else if pkt[0] / 16 == 4 then
      if |pkt| < 20 then None
      else
        var ihl: int := pkt[0] % 16;
        if ihl * 4 < 20 || |pkt| < ihl * 4 then None
        else Some(Layer3(pkt[9], V4(pkt[12..16]), V4(pkt[16..20]), ihl * 4))
    else if pkt[0] / 16 == 6 then
      if |pkt| < 40 then None
      else
        match Bounded(WalkChain(pkt, pkt[6], 40))
        case None => None
        case Some(u) => Some(Layer3(u.proto, V6(pkt[8..24]), V6(pkt[24..40]), u.off))
    else None
  }

  predicate Syn(flags: byte) { flags / 2 % 2 == 1 }
  predicate Rst(flags: byte) { flags / 4 % 2 == 1 }
  predicate Ack(flags: byte) { flags / 16 % 2 == 1 }

  function Parse(pkt: seq<byte>): Option<Flow> {
    match L3(pkt)
    case None => None
    case Some(h) =>
      if |pkt| < h.l4 + 4 then None
      else
        var synOnly := h.proto == TCP && |pkt| >= h.l4 + 14 && Syn(pkt[h.l4 + 13]) && !Ack(pkt[h.l4 + 13]);
        Some(Flow(h.proto, h.src, h.dst, U16At(pkt, h.l4), U16At(pkt, h.l4 + 2), synOnly))
  }

  // ---- an IPv6 packet, as it is written ----

  /** `units` is the length byte; `body` is what follows it. */
  datatype Extension =
    | Counted(kind: byte, units: byte, body: seq<byte>)
    | Authentication(units: byte, body: seq<byte>)
    | Fragmented(reserved: byte, field: u16, ident: seq<byte>)

  predicate WellFormed(e: Extension) {
    match e
    case Counted(k, n, body) => (k == HOP_BY_HOP || k == ROUTING || k == DESTINATION) && |body| == n * 8 + 6
    case Authentication(n, body) => |body| == n * 4 + 6
    case Fragmented(_, _, ident) => |ident| == 4
  }

  function Kind(e: Extension): byte {
    match e
    case Counted(k, _, _) => k
    case Authentication(_, _) => AUTHENTICATION
    case Fragmented(_, _, _) => FRAGMENT
  }

  /** Every header but a later fragment's; the offset is the field's high 13 bits. */
  predicate LeadsOn(e: Extension) {
    e.Fragmented? ==> e.field / 8 == 0
  }

  function ExtensionBytes(e: Extension, next: byte): (s: seq<byte>)
    requires WellFormed(e)
    ensures |s| >= 8
  {
    match e
    case Counted(_, n, body) => [next, n] + body
    case Authentication(n, body) => [next, n] + body
    case Fragmented(r, f, ident) => [next, r] + Word(f) + ident
  }

  function FirstKind(es: seq<Extension>, proto: byte): byte {
    if es == [] then proto else Kind(es[0])
  }

  predicate AllWellFormed(es: seq<Extension>) { forall i :: 0 <= i < |es| ==> WellFormed(es[i]) }

  predicate AllLeadOn(es: seq<Extension>)
    decreases |es|
  {
    es == [] || (LeadsOn(es[0]) && AllLeadOn(es[1..]))
  }

  function ChainBytes(es: seq<Extension>, proto: byte): seq<byte>
    requires AllWellFormed(es)
    decreases |es|
  {
    if es == [] then [] else ExtensionBytes(es[0], FirstKind(es[1..], proto)) + ChainBytes(es[1..], proto)
  }

  /** The fixed header's fields beside the next header. */
  datatype Head = Head(first: byte, flow: seq<byte>, length: u16, hops: byte, src: seq<byte>, dst: seq<byte>)

  predicate IsV6(h: Head) {
    h.first / 16 == 6 && |h.flow| == 3 && |h.src| == 16 && |h.dst| == 16
  }

  function HeadBytes(h: Head, next: byte): (s: seq<byte>)
    requires IsV6(h)
    ensures |s| == 40
  {
    [h.first] + h.flow + Word(h.length) + [next, h.hops] + h.src + h.dst
  }

  function V6Packet(h: Head, es: seq<Extension>, proto: byte, payload: seq<byte>): seq<byte>
    requires IsV6(h) && AllWellFormed(es)
  {
    HeadBytes(h, FirstKind(es, proto)) + (ChainBytes(es, proto) + payload)
  }

  // ---- reading back what was written ----

  lemma ExtensionReadBack(pkt: seq<byte>, off: nat, e: Extension, next: byte)
    requires WellFormed(e) && At(pkt, off, ExtensionBytes(e, next))
    ensures IsExtension(Kind(e)) && pkt[off] == next
    ensures ExtensionLength(pkt, Kind(e), off) == if LeadsOn(e) then Some(|ExtensionBytes(e, next)|) else None
  {
    var s := ExtensionBytes(e, next);
    AtIndex(pkt, off, s, 0);
    AtIndex(pkt, off, s, 1);
    if e.Fragmented? {
      AtIndex(pkt, off, s, 2);
      AtIndex(pkt, off, s, 3);
    }
  }

  lemma {:induction false} ChainReadBack(pkt: seq<byte>, off: nat, es: seq<Extension>, proto: byte)
    requires AllWellFormed(es) && At(pkt, off, ChainBytes(es, proto)) && !IsExtension(proto)
    ensures var end := off + |ChainBytes(es, proto)|;
            WalkChain(pkt, FirstKind(es, proto), off) ==
              if AllLeadOn(es) && (es == [] || end < |pkt|) then Some(End(proto, end, |es|)) else None
    decreases |es|
  {
    hide At, ExtensionBytes, ExtensionLength, WellFormed, LeadsOn, IsExtension, Kind;
    if es != [] {
      var next := FirstKind(es[1..], proto);
      var here := ExtensionBytes(es[0], next);
      AtConcat(pkt, off, here, ChainBytes(es[1..], proto));
      AtWithin(pkt, off + |here|, ChainBytes(es[1..], proto));
      ExtensionReadBack(pkt, off, es[0], next);
      ChainReadBack(pkt, off + |here|, es[1..], proto);
      ChainIsLong(es[1..], proto);
    }
  }

  lemma ChainIsLong(es: seq<Extension>, proto: byte)
    requires AllWellFormed(es)
    ensures es == [] <==> |ChainBytes(es, proto)| == 0
  {
  }

  lemma AtWithin(b: seq<byte>, off: nat, part: seq<byte>)
    requires At(b, off, part)
    ensures off + |part| <= |b|
  {
  }

  lemma HeadReadBack(pkt: seq<byte>, h: Head, next: byte)
    requires IsV6(h) && At(pkt, 0, HeadBytes(h, next))
    ensures |pkt| >= 40 && pkt[0] == h.first && pkt[6] == next && pkt[8..24] == h.src && pkt[24..40] == h.dst
  {
    var s := HeadBytes(h, next);
    AtIndex(pkt, 0, s, 0);
    AtIndex(pkt, 0, s, 6);
    assert s[8..24] == h.src && s[24..40] == h.dst;
    assert pkt[0..40] == s;
    assert pkt[8..24] == s[8..24] && pkt[24..40] == s[24..40];
  }

  lemma ExtensionFound(pkt: seq<byte>, nh: byte, off: nat) returns (e: Extension)
    requires IsExtension(nh) && ExtensionLength(pkt, nh, off).Some?
    requires off + ExtensionLength(pkt, nh, off).value <= |pkt|
    ensures WellFormed(e) && LeadsOn(e) && Kind(e) == nh
    ensures |ExtensionBytes(e, pkt[off])| == ExtensionLength(pkt, nh, off).value
    ensures At(pkt, off, ExtensionBytes(e, pkt[off]))
  {
    hide At;
    var n := ExtensionLength(pkt, nh, off).value;
    Pieces(pkt, off, n);
    if nh == FRAGMENT {
      WordOfPair(pkt[off + 2], pkt[off + 3]);
      e := Fragmented(pkt[off + 1], U16At(pkt, off + 2), pkt[off + 4..off + n]);
    } else {
      var body := pkt[off + 2..off + n];
      e := if nh == AUTHENTICATION then Authentication(pkt[off + 1], body) else Counted(nh, pkt[off + 1], body);
    }
  }

  lemma WordOfPair(high: byte, low: byte)
    ensures Word(Value(high, low)) == [high, low]
  {
  }

  lemma Pieces(pkt: seq<byte>, off: nat, n: nat)
    requires n >= 8 && off + n <= |pkt|
    ensures At(pkt, off, [pkt[off], pkt[off + 1]] + pkt[off + 2..off + n])
    ensures At(pkt, off, [pkt[off], pkt[off + 1]] + [pkt[off + 2], pkt[off + 3]] + pkt[off + 4..off + n])
  {
    var here := pkt[off..off + n];
    assert here == [pkt[off], pkt[off + 1]] + pkt[off + 2..off + n];
    assert here == [pkt[off], pkt[off + 1]] + [pkt[off + 2], pkt[off + 3]] + pkt[off + 4..off + n];
  }

  /** Conversely a walk that succeeds went along such a chain. */
  lemma {:induction false} ChainFound(pkt: seq<byte>, nh: byte, off: nat) returns (es: seq<Extension>)
    requires WalkChain(pkt, nh, off).Some?
    ensures AllWellFormed(es)
    ensures var end := WalkChain(pkt, nh, off).value;
            && AllLeadOn(es) && |es| == end.passed && !IsExtension(end.proto)
            && FirstKind(es, end.proto) == nh && (off <= |pkt| ==> At(pkt, off, ChainBytes(es, end.proto)))
    decreases |pkt| - off
  {
    hide *;
    if !IsExtension(nh) {
      es := [];
      WalkNone(pkt, nh, off);
    } else {
      var n := WalkStep(pkt, nh, off);
      var e := ExtensionFound(pkt, nh, off);
      var more := ChainFound(pkt, pkt[off], off + n);
      var proto := WalkChain(pkt, nh, off).value.proto;
      es := [e] + more;
      ChainOfMore(e, more, proto);
      AtConcat(pkt, off, ExtensionBytes(e, pkt[off]), ChainBytes(more, proto));
    }
  }

  lemma WalkNone(pkt: seq<byte>, nh: byte, off: nat)
    requires !IsExtension(nh)
    ensures WalkChain(pkt, nh, off) == Some(End(nh, off, 0))
    ensures AllWellFormed([]) && AllLeadOn([]) && FirstKind([], nh) == nh
    ensures ChainBytes([], nh) == [] && (off <= |pkt| ==> At(pkt, off, []))
  {
    if off <= |pkt| {
      assert pkt[off..off] == [];
    }
  }

  lemma WalkStep(pkt: seq<byte>, nh: byte, off: nat) returns (n: nat)
    requires IsExtension(nh) && WalkChain(pkt, nh, off).Some?
    ensures ExtensionLength(pkt, nh, off) == Some(n) && n >= 8 && off + n < |pkt|
    ensures WalkChain(pkt, pkt[off], off + n).Some?
    ensures var here, there := WalkChain(pkt, nh, off).value, WalkChain(pkt, pkt[off], off + n).value;
            here.proto == there.proto && here.passed == there.passed + 1
  {
    n := ExtensionLength(pkt, nh, off).value;
  }

  lemma ChainOfMore(e: Extension, more: seq<Extension>, proto: byte)
    requires WellFormed(e) && LeadsOn(e) && AllWellFormed(more) && AllLeadOn(more)
    ensures AllWellFormed([e] + more) && AllLeadOn([e] + more) && FirstKind([e] + more, proto) == Kind(e)
    ensures ChainBytes([e] + more, proto) == ExtensionBytes(e, FirstKind(more, proto)) + ChainBytes(more, proto)
  {
    assert ([e] + more)[1..] == more;
  }

  /** Any chain of extension headers before any upper layer is read through to its
      protocol, its addresses and its place, provided it is at most seven long,
      no later fragment's and followed by something. */
  lemma PacketReadBack(h: Head, es: seq<Extension>, proto: byte, payload: seq<byte>)
    requires IsV6(h) && AllWellFormed(es) && !IsExtension(proto)
    ensures L3(V6Packet(h, es, proto, payload)) ==
              if |es| < MAX_HEADERS && AllLeadOn(es) && (es == [] || payload != []) then
                Some(Layer3(proto, V6(h.src), V6(h.dst), 40 + |ChainBytes(es, proto)|))
              else None
  {
    hide IsExtension, ChainBytes, HeadBytes, AllWellFormed, AllLeadOn, FirstKind, WalkChain, At;
    var pkt := V6Packet(h, es, proto, payload);
    WholeAt(pkt);
    AtConcat(pkt, 0, HeadBytes(h, FirstKind(es, proto)), ChainBytes(es, proto) + payload);
    AtConcat(pkt, 40, ChainBytes(es, proto), payload);
    HeadReadBack(pkt, h, FirstKind(es, proto));
    ChainReadBack(pkt, 40, es, proto);
  }

  /** The fields of an IPv4 header beside its protocol. `middle` is the length, the
      identification and the fragment word. */
  datatype Header4 = Header4(tos: byte, middle: seq<byte>, ttl: byte, checksum: u16,
                             src: seq<byte>, dst: seq<byte>, options: seq<byte>)

  predicate IsV4(h: Header4) {
    |h.middle| == 6 && |h.src| == 4 && |h.dst| == 4 && |h.options| <= 40 && |h.options| % 4 == 0
  }

  function V4Packet(h: Header4, proto: byte, payload: seq<byte>): seq<byte>
    requires IsV4(h)
  {
    ([0x45 + |h.options| / 4, h.tos] + h.middle + [h.ttl, proto] + Word(h.checksum) + h.src + h.dst + h.options) + payload
  }

  /** An IPv4 packet is read to its protocol, its addresses and the end of its
      options, however many there are. */
  lemma PacketReadBack4(h: Header4, proto: byte, payload: seq<byte>)
    requires IsV4(h)
    ensures L3(V4Packet(h, proto, payload)) == Some(Layer3(proto, V4(h.src), V4(h.dst), 20 + |h.options|))
    ensures At(V4Packet(h, proto, payload), 20 + |h.options|, payload)
  {
    var p := V4Packet(h, proto, payload);
    assert p[12..16] == h.src && p[16..20] == h.dst;
  }

  /** What follows the network header: both ports, then the rest. */
  function PortsAnd(sport: u16, dport: u16, rest: seq<byte>): seq<byte> {
    Word(sport) + (Word(dport) + rest)
  }

  lemma PortsReadBack(pkt: seq<byte>, h: Layer3, sport: u16, dport: u16, rest: seq<byte>)
    requires L3(pkt) == Some(h) && At(pkt, h.l4, PortsAnd(sport, dport, rest)) && h.l4 + 4 + |rest| == |pkt|
    ensures Parse(pkt) == Some(Flow(h.proto, h.src, h.dst, sport, dport,
                                    h.proto == TCP && |rest| >= 10 && Syn(rest[9]) && !Ack(rest[9])))
  {
    hide L3, Word, U16At, At, Syn, Ack;
    AtConcat(pkt, h.l4, Word(sport), Word(dport) + rest);
    AtConcat(pkt, h.l4 + 2, Word(dport), rest);
    WordAt(pkt, h.l4, sport);
    WordAt(pkt, h.l4 + 2, dport);
    if |rest| >= 10 {
      AtIndex(pkt, h.l4 + 4, rest, 9);
    }
  }

  /** The flow of a packet is read back in either family, behind any options or
      readable chain of extensions; it opens a connection just when it is TCP with
      SYN set and ACK clear. */
  lemma FlowReadBack(h4: Header4, h6: Head, es: seq<Extension>, proto: byte, sport: u16, dport: u16, rest: seq<byte>)
    requires IsV4(h4) && IsV6(h6) && AllWellFormed(es) && |es| < MAX_HEADERS && AllLeadOn(es) && !IsExtension(proto)
    ensures var opens := proto == TCP && |rest| >= 10 && Syn(rest[9]) && !Ack(rest[9]);
            && Parse(V4Packet(h4, proto, PortsAnd(sport, dport, rest)))
               == Some(Flow(proto, V4(h4.src), V4(h4.dst), sport, dport, opens))
            && Parse(V6Packet(h6, es, proto, PortsAnd(sport, dport, rest)))
               == Some(Flow(proto, V6(h6.src), V6(h6.dst), sport, dport, opens))
  {
    var payload := PortsAnd(sport, dport, rest);
    hide L3, Parse, At, ChainBytes, HeadBytes, AllWellFormed, AllLeadOn, IsExtension, FirstKind, Syn, Ack;
    var p4, p6 := V4Packet(h4, proto, payload), V6Packet(h6, es, proto, payload);
    PacketReadBack4(h4, proto, payload);
    PacketReadBack(h6, es, proto, payload);
    PortsReadBack(p4, L3(p4).value, sport, dport, rest);
    WholeAt(p6);
    AtConcat(p6, 0, HeadBytes(h6, FirstKind(es, proto)), ChainBytes(es, proto) + payload);
    AtConcat(p6, 40, ChainBytes(es, proto), payload);
    PortsReadBack(p6, L3(p6).value, sport, dport, rest);
  }

  lemma WholeAt(b: seq<byte>)
    ensures At(b, 0, b)
  {
    assert b[0..|b|] == b;
  }
}

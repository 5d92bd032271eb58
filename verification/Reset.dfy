/** The TCP reset that answers a refused connection (section 3.1 of RFC 791,
    sections 3.1 and 3.5.2 of RFC 9293, section 8.1 of RFC 8200).
    Source: src/divert.rs, lines 504-588. */
module Reset {
  import opened Options
  import opened Octets
  import opened Checksum
  import opened Packets

  const SEQUENCE_SPACE := 0x1_0000_0000
  const RST_ACK: byte := 0x14
  /** Five words of header, no options. */
  const NO_OPTIONS: byte := 0x50

  type u32 = n: int | 0 <= n < SEQUENCE_SPACE

  function Quad(n: u32): (s: seq<byte>)
    ensures |s| == 4
  {
    Word(n / 0x1_0000) + Word(n % 0x1_0000)
  }

  function U32At(b: seq<byte>, off: nat): u32
    requires off + 3 < |b|
  {
    var high: int, low: int := U16At(b, off), U16At(b, off + 2);
    high * 0x1_0000 + low
  }

  // ---- the pieces of a reset ----

  /** What the reset says: both ports and the number it acknowledges. */
  datatype Answer = Answer(sport: u16, dport: u16, ack: u32)

  function Segment(a: Answer, ck: u16): (s: seq<byte>)
    ensures |s| == 20
  {
    Word(a.sport) + Word(a.dport) + Quad(0) + Quad(a.ack) + [NO_OPTIONS, RST_ACK] + Word(0) + Word(ck) + Word(0)
  }

  predicate SameFamily(src: Address, dst: Address) {
    (src.V4? <==> dst.V4?) && |src.octets| == |dst.octets| == if src.V4? then 4 else 16
  }

  /** The pseudo-header a TCP checksum also covers. */
  function Pseudo(src: Address, dst: Address, length: u16): (s: seq<byte>)
    requires SameFamily(src, dst)
    ensures |s| % 2 == 0 && |s| <= 40
  {
    src.octets + dst.octets + if src.V4? then [0, TCP] + Word(length) else [0, 0] + Word(length) + [0, 0, 0, TCP]
  }

  function Head4(src: seq<byte>, dst: seq<byte>, ck: u16): (s: seq<byte>)
    requires |src| == |dst| == 4
    ensures |s| == 20
  {
    [0x45, 0] + Word(40) + Word(0) + Word(0) + [64, TCP] + Word(ck) + (src + dst)
  }

  function Head6(src: seq<byte>, dst: seq<byte>): (s: seq<byte>)
    requires |src| == |dst| == 16
    ensures |s| == 40
  {
    HeadBytes(Head(0x60, [0, 0, 0], 20, 64, src, dst), TCP)
  }

  function Sealed(src: Address, dst: Address, a: Answer): (s: seq<byte>)
    requires SameFamily(src, dst)
    ensures |s| == 20
  {
    Segment(a, InternetChecksum(Pseudo(src, dst, 20) + Segment(a, 0)))
  }

  function Whole(src: Address, dst: Address, a: Answer): (p: seq<byte>)
    requires SameFamily(src, dst)
    ensures |p| == if src.V4? then 40 else 60
  {
    var head := if src.V4? then Head4(src.octets, dst.octets, InternetChecksum(Head4(src.octets, dst.octets, 0)))
                else Head6(src.octets, dst.octets);
    head + Sealed(src, dst, a)
  }

  /** Whether a packet is one to answer: a TCP segment with its header in full,
      and not itself a reset. */
  predicate Answerable(pkt: seq<byte>) {
    match L3(pkt)
    case None => false
    case Some(h) => h.proto == TCP && |pkt| >= h.l4 + 20 && !Rst(pkt[h.l4 + 13])
  }

  /** Ports change places; a SYN takes up one sequence number, which may wrap. */
  function AnswerTo(pkt: seq<byte>, l4: nat): Answer
    requires l4 + 20 <= |pkt|
  {
    var sequence: int := U32At(pkt, l4 + 4);
    Answer(U16At(pkt, l4 + 2), U16At(pkt, l4),
           (sequence + if Syn(pkt[l4 + 13]) then 1 else 0) % SEQUENCE_SPACE)
  }

  function ResetFor(pkt: seq<byte>): Option<seq<byte>> {
    if !Answerable(pkt) then None
    else var h := L3(pkt).value; Some(Whole(h.dst, h.src, AnswerTo(pkt, h.l4)))
  }

  // ---- building it ----

  lemma ConcatTwo(x: seq<byte>, y: seq<byte>)
    ensures Concat([x]) == x && Concat([x, y]) == x + y
  {
    assert [x, y][..1] == [x];
    assert [x][..0] == [];
  }

  lemma SegmentFilled(a: Answer, ck: u16)
    ensures Segment(a, 0)[16 := Word(ck)[0]][17 := Word(ck)[1]] == Segment(a, ck)
  {
  }

  lemma Head4Filled(src: seq<byte>, dst: seq<byte>, ck: u16)
    requires |src| == |dst| == 4
    ensures Head4(src, dst, 0)[10 := Word(ck)[0]][11 := Word(ck)[1]] == Head4(src, dst, ck)
  {
  }

  method TcpRst(pkt: seq<byte>) returns (r: Option<seq<byte>>)
    ensures r == ResetFor(pkt)
  {
    hide Concat, InternetChecksum, Pseudo, Word;
    var l3 := L3(pkt);
    if l3.None? { return None; }
    var h := l3.value;
    if h.proto != TCP || |pkt| < h.l4 + 20 { return None; }
    var flags := pkt[h.l4 + 13];
    if Rst(flags) { return None; }
    var sequence: int := U32At(pkt, h.l4 + 4);
    var ack := (sequence + if Syn(flags) then 1 else 0) % SEQUENCE_SPACE;

    var a := Answer(U16At(pkt, h.l4 + 2), U16At(pkt, h.l4), ack);
    var tcp := Word(a.sport) + Word(a.dport);
    tcp := tcp + Quad(0) + Quad(ack);
    tcp := tcp + [NO_OPTIONS, RST_ACK];
    tcp := tcp + Word(0) + Word(0) + Word(0);

    var src, dst := h.dst, h.src;
    var pseudo := Pseudo(src, dst, 20);
    ConcatTwo(pseudo, tcp);
    var ck := Csum([pseudo, tcp]);
    SegmentFilled(a, ck);
    tcp := tcp[16 := Word(ck)[0]][17 := Word(ck)[1]];
    if src.V4? {
      var ip := Head4(src.octets, dst.octets, 0);
      ConcatTwo(ip, []);
      var hc := Csum([ip]);
      Head4Filled(src.octets, dst.octets, hc);
      ip := ip[10 := Word(hc)[0]][11 := Word(hc)[1]];
      r := Some(ip + tcp);
    } else {
      r := Some(Head6(src.octets, dst.octets) + tcp);
    }
  }

  // ---- what the other end makes of it ----

  /** The IPv4 header check of a receiver; IPv6 has none. */
  predicate HeaderVerifies(p: seq<byte>) {
    match L3(p)
    case None => false
    case Some(h) => h.src.V4? ==> h.l4 <= |p| && Verifies(p[..h.l4])
  }

  /** The segment check of a receiver: its own pseudo-header, then the segment. */
  predicate SegmentVerifies(p: seq<byte>) {
    match L3(p)
    case None => false
    case Some(h) => h.l4 <= |p| < 0x1_0000 && Verifies(Pseudo(h.src, h.dst, |p| - h.l4) + p[h.l4..])
  }

  lemma SealVerifies(src: Address, dst: Address, a: Answer)
    requires SameFamily(src, dst)
    ensures Verifies(Pseudo(src, dst, 20) + Sealed(src, dst, a))
  {
    hide Pseudo, Verifies, InternetChecksum, Word, SameFamily;
    var pseudo := Pseudo(src, dst, 20);
    var front := pseudo + SegmentFront(a);
    SegmentSplit(pseudo, a, 0);
    SegmentSplit(pseudo, a, InternetChecksum(pseudo + Segment(a, 0)));
    FilledVerifies(front, Word(0));
  }

  function SegmentFront(a: Answer): (s: seq<byte>)
    ensures |s| == 16
  {
    Word(a.sport) + Word(a.dport) + Quad(0) + Quad(a.ack) + [NO_OPTIONS, RST_ACK] + Word(0)
  }

  lemma SegmentSplit(pseudo: seq<byte>, a: Answer, ck: u16)
    ensures pseudo + Segment(a, ck) == pseudo + SegmentFront(a) + Word(ck) + Word(0)
  {
  }

  lemma Head4Verifies(src: seq<byte>, dst: seq<byte>)
    requires |src| == |dst| == 4
    ensures Verifies(Head4(src, dst, InternetChecksum(Head4(src, dst, 0))))
  {
    hide Verifies, InternetChecksum;
    FilledVerifies([0x45, 0] + Word(40) + Word(0) + Word(0) + [64, TCP], src + dst);
  }

  lemma Head4Read(src: seq<byte>, dst: seq<byte>, ck: u16, rest: seq<byte>)
    requires |src| == |dst| == 4
    ensures L3(Head4(src, dst, ck) + rest) == Some(Layer3(TCP, V4(src), V4(dst), 20))
  {
    var p := Head4(src, dst, ck) + rest;
    assert p[12..16] == src && p[16..20] == dst;
  }

  lemma Head6Read(src: seq<byte>, dst: seq<byte>, rest: seq<byte>)
    requires |src| == |dst| == 16
    ensures L3(Head6(src, dst) + rest) == Some(Layer3(TCP, V6(src), V6(dst), 40))
  {
    var head := Head(0x60, [0, 0, 0], 20, 64, src, dst);
    PacketReadBack(head, [], TCP, rest);
    assert V6Packet(head, [], TCP, rest) == Head6(src, dst) + rest;
  }

  lemma WholeRead(src: Address, dst: Address, a: Answer)
    requires SameFamily(src, dst)
    ensures var p := Whole(src, dst, a); var l4 := |p| - 20;
            L3(p) == Some(Layer3(TCP, src, dst, l4)) && p[l4..] == Sealed(src, dst, a)
  {
    hide L3, Head4, Head6, Sealed, InternetChecksum;
    if src.V4? {
      Head4Read(src.octets, dst.octets, InternetChecksum(Head4(src.octets, dst.octets, 0)), Sealed(src, dst, a));
    } else {
      Head6Read(src.octets, dst.octets, Sealed(src, dst, a));
    }
  }

  lemma FieldsOf(a: Answer, ck: u16)
    ensures var s := Segment(a, ck);
            U16At(s, 0) == a.sport && U16At(s, 2) == a.dport && U32At(s, 4) == 0 && U32At(s, 8) == a.ack
            && s[12] == NO_OPTIONS && s[13] == RST_ACK
  {
    var s := Segment(a, ck);
    assert s[0..2] == Word(a.sport) && s[2..4] == Word(a.dport);
    assert s[4..8] == Quad(0) && s[8..12] == Quad(a.ack);
  }

  lemma TailFields(p: seq<byte>, l4: nat)
    requires l4 + 20 == |p|
    ensures var s := p[l4..];
            U16At(p, l4) == U16At(s, 0) && U16At(p, l4 + 2) == U16At(s, 2) && U32At(p, l4 + 4) == U32At(s, 4)
            && U32At(p, l4 + 8) == U32At(s, 8) && p[l4 + 12] == s[12] && p[l4 + 13] == s[13]
  {
  }

  /** Every reset passes the checks of whoever receives it: the header checksum
      of IPv4, and the segment's over the pseudo-header in both families. */
  lemma ResetVerifies(pkt: seq<byte>)
    requires ResetFor(pkt).Some?
    ensures HeaderVerifies(ResetFor(pkt).value) && SegmentVerifies(ResetFor(pkt).value)
  {
    hide L3, AnswerTo, Head4, Head6, Sealed, InternetChecksum, Pseudo, Verifies;
    var h := L3(pkt).value;
    var a := AnswerTo(pkt, h.l4);
    WholeRead(h.dst, h.src, a);
    SealVerifies(h.dst, h.src, a);
    if h.dst.V4? {
      Head4Verifies(h.dst.octets, h.src.octets);
      var ip := Head4(h.dst.octets, h.src.octets, InternetChecksum(Head4(h.dst.octets, h.src.octets, 0)));
      assert ResetFor(pkt).value[..20] == ip;
    }
  }

  /** A reset is the answered flow turned round, opens nothing, and is itself
      never answered. */
  lemma ResetTurnsRound(pkt: seq<byte>)
    requires ResetFor(pkt).Some?
    ensures var f := Parse(pkt);
            f.Some? && Parse(ResetFor(pkt).value)
                    == Some(Flow(TCP, f.value.dst, f.value.src, f.value.dport, f.value.sport, false))
    ensures ResetFor(ResetFor(pkt).value) == None
  {
    hide L3, Head4, Head6, InternetChecksum, Pseudo, U16At, U32At, Segment, Whole;
    var h := L3(pkt).value;
    var a := AnswerTo(pkt, h.l4);
    var p := Whole(h.dst, h.src, a);
    WholeRead(h.dst, h.src, a);
    TailFields(p, |p| - 20);
    FieldsOf(a, InternetChecksum(Pseudo(h.dst, h.src, 20) + Segment(a, 0)));
  }

  /** The fields of a reset: sequence number zero, the number behind the answered
      SYN acknowledged, RST and ACK set. */
  lemma ResetAcknowledges(pkt: seq<byte>)
    requires ResetFor(pkt).Some?
    ensures var l4, p := L3(pkt).value.l4, ResetFor(pkt).value; var q := |p| - 20;
            && U32At(p, q + 4) == 0 && Rst(p[q + 13]) && Ack(p[q + 13]) && !Syn(p[q + 13])
            && (Syn(pkt[l4 + 13]) ==> U32At(p, q + 8) == (U32At(pkt, l4 + 4) as int + 1) % SEQUENCE_SPACE)
  {
    hide L3, Head4, Head6, InternetChecksum, Pseudo, U16At, U32At, Segment, Whole;
    var h := L3(pkt).value;
    var a := AnswerTo(pkt, h.l4);
    var p := Whole(h.dst, h.src, a);
    WholeRead(h.dst, h.src, a);
    TailFields(p, |p| - 20);
    FieldsOf(a, InternetChecksum(Pseudo(h.dst, h.src, 20) + Segment(a, 0)));
  }

  // ---- when the standard would answer the same ----

  predicate Fin(flags: byte) { flags % 2 == 1 }

  /** Where the segment's data starts, by its own word for it. */
  function DataOffset(pkt: seq<byte>, l4: nat): nat
    requires l4 + 20 <= |pkt|
  {
    l4 + pkt[l4 + 12] / 16 * 4
  }

  /** A packet of less than 64 KiB whose data starts inside it or at its end. */
  predicate Measured(pkt: seq<byte>) {
    Answerable(pkt) && |pkt| < 0x1_0000 && DataOffset(pkt, L3(pkt).value.l4) <= |pkt|
  }

  /** What a reset says to the receiver's state: no number if ACK is clear. */
  datatype Reply = Reply(sequence: u32, ack: Option<u32>)

  /** SEG.LEN: the data, and one each for SYN and FIN. */
  function SegmentLength(pkt: seq<byte>): nat
    requires Measured(pkt)
  {
    var l4 := L3(pkt).value.l4;
    |pkt| - DataOffset(pkt, l4) + (if Syn(pkt[l4 + 13]) then 1 else 0) + if Fin(pkt[l4 + 13]) then 1 else 0
  }

  /** Section 3.5.2 of RFC 9293, group 1: a segment with ACK is answered from its
      acknowledgment number and acknowledges nothing; any other is answered from
      zero and acknowledged in full. */
  function StandardReply(pkt: seq<byte>): Reply
    requires Measured(pkt)
  {
    var l4 := L3(pkt).value.l4;
    if Ack(pkt[l4 + 13]) then Reply(U32At(pkt, l4 + 8), None)
    else
      var sequence: int := U32At(pkt, l4 + 4);
      Reply(0, Some((sequence + SegmentLength(pkt)) % SEQUENCE_SPACE))
  }

  function ReplyOf(p: seq<byte>): Reply
    requires |p| >= 20
  {
    var q := |p| - 20;
    Reply(U32At(p, q + 4), if Ack(p[q + 13]) then Some(U32At(p, q + 8)) else None)
  }

  predicate Conforms(pkt: seq<byte>)
    requires Measured(pkt)
  {
    ReplyOf(ResetFor(pkt).value) == StandardReply(pkt)
  }

  lemma SameResidue(a: nat, d: nat)
    requires d < SEQUENCE_SPACE
    ensures a % SEQUENCE_SPACE == (a + d) % SEQUENCE_SPACE <==> d == 0
  {
  }

  /** The reset is the one the standard asks for if and only if the segment has
      neither ACK nor FIN and carries no data. */
  lemma ConformsExactly(pkt: seq<byte>)
    requires Measured(pkt)
    ensures var l4 := L3(pkt).value.l4;
            Conforms(pkt) <==> !Ack(pkt[l4 + 13]) && !Fin(pkt[l4 + 13]) && DataOffset(pkt, l4) == |pkt|
  {
    hide L3, Head4, Head6, InternetChecksum, Pseudo, U16At, U32At, Segment, Whole;
    var h := L3(pkt).value;
    var a := AnswerTo(pkt, h.l4);
    var p := Whole(h.dst, h.src, a);
    WholeRead(h.dst, h.src, a);
    TailFields(p, |p| - 20);
    FieldsOf(a, InternetChecksum(Pseudo(h.dst, h.src, 20) + Segment(a, 0)));
    var sequence: int := U32At(pkt, h.l4 + 4);
    var syn, fin := if Syn(pkt[h.l4 + 13]) then 1 else 0, if Fin(pkt[h.l4 + 13]) then 1 else 0;
    SameResidue(sequence + syn, |pkt| - DataOffset(pkt, h.l4) + fin);
  }

  /** A TCP segment from 10.0.0.1 to 10.0.0.2 with the given flags and data. */
  function Sent(flags: byte, data: seq<byte>): seq<byte> {
    V4Packet(Header4(0, [0, 0, 0, 0, 0, 0], 64, 0, [10, 0, 0, 1], [10, 0, 0, 2], []), TCP, SentSegment(flags, data))
  }

  function SentSegment(flags: byte, data: seq<byte>): seq<byte> {
    Word(40000) + Word(443) + Quad(1) + Quad(7) + [NO_OPTIONS, flags] + [0, 0, 0, 0, 0, 0] + data
  }

  lemma SentFields(flags: byte, data: seq<byte>)
    requires !Rst(flags) && |data| < 100
    ensures var p := Sent(flags, data);
            Measured(p) && L3(p).value.l4 == 20 && p[33] == flags && DataOffset(p, 20) == 40 && |p| == 40 + |data|
  {
    var h := Header4(0, [0, 0, 0, 0, 0, 0], 64, 0, [10, 0, 0, 1], [10, 0, 0, 2], []);
    var s := SentSegment(flags, data);
    PacketReadBack4(h, TCP, s);
    assert s[12] == NO_OPTIONS && s[13] == flags;
    hide L3, V4Packet, SentSegment;
    AtIndex(Sent(flags, data), 20, s, 12);
    AtIndex(Sent(flags, data), 20, s, 13);
  }

  lemma SentConforms(flags: byte, data: seq<byte>)
    requires !Rst(flags) && |data| < 100
    ensures Measured(Sent(flags, data))
    ensures Conforms(Sent(flags, data)) <==> !Ack(flags) && !Fin(flags) && data == []
  {
    SentFields(flags, data);
    hide Sent, Conforms, Measured, L3, Ack, Fin, Rst;
    ConformsExactly(Sent(flags, data));
  }

  /** SYN and ACK together, and a SYN with data, are answered, and not as the
      standard answers them; a bare SYN is, and so is a segment with neither flags
      nor data. */
  lemma DeparturesAndConformers()
    ensures Measured(Sent(0x12, [])) && !Conforms(Sent(0x12, []))
    ensures Measured(Sent(0x02, [1])) && !Conforms(Sent(0x02, [1]))
    ensures Measured(Sent(0x02, [])) && Conforms(Sent(0x02, []))
    ensures Measured(Sent(0, [])) && Conforms(Sent(0, []))
  {
    hide Sent, Conforms, Measured, L3;
    SentConforms(0x12, []);
    SentConforms(0x02, [1]);
    SentConforms(0x02, []);
    SentConforms(0, []);
  }
}

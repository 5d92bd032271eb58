/** Taking the question name and the addresses out of a DNS response (RFC 1035,
    section 4.1; RFC 3596, section 2.2). Source: src/dns.rs, lines 61-117. */
module DnsResponse {
  import opened Options
  import opened Octets
  import opened Dns

  datatype Answered = Answered(name: seq<byte>, addresses: seq<Address>)

  const RESPONSE_BIT: u16 := 0x8000
  const TYPE_A: u16 := 1
  const TYPE_AAAA: u16 := 28

  // ---- a response, as it is written ----

  datatype Question = Question(name: Layout, qtype: u16, qclass: u16)
  datatype Record = Record(name: Layout, rtype: u16, rclass: u16, ttl: seq<byte>, data: seq<byte>)

  /** `rest` is what follows the answers: authorities, additions, padding. */
  datatype Message = Message(
    id: u16, flags: u16, questions: seq<Question>, answers: seq<Record>,
    authorities: u16, additions: u16, rest: seq<byte>)

  function QuestionBytes(q: Question): seq<byte>
    requires Encodable(q.name)
  {
    Encode(q.name) + (Word(q.qtype) + Word(q.qclass))
  }

  predicate Writable(r: Record) {
    Encodable(r.name) && |r.ttl| == 4 && |r.data| < 0x1_0000
  }

  function Fixed(r: Record): (s: seq<byte>)
    requires Writable(r)
    ensures |s| == 10
  {
    Word(r.rtype) + Word(r.rclass) + r.ttl + Word(|r.data|)
  }

  function RecordBytes(r: Record): seq<byte>
    requires Writable(r)
  {
    Encode(r.name) + (Fixed(r) + r.data)
  }

  predicate AllEncodable(qs: seq<Question>) { forall i :: 0 <= i < |qs| ==> Encodable(qs[i].name) }

  predicate AllWritable(rs: seq<Record>) { forall i :: 0 <= i < |rs| ==> Writable(rs[i]) }

  function QuestionsBytes(qs: seq<Question>): seq<byte>
    requires AllEncodable(qs)
  {
    if qs == [] then [] else QuestionBytes(qs[0]) + QuestionsBytes(qs[1..])
  }

  function RecordsBytes(rs: seq<Record>): seq<byte>
    requires AllWritable(rs)
  {
    if rs == [] then [] else RecordBytes(rs[0]) + RecordsBytes(rs[1..])
  }

  predicate Sendable(m: Message) {
    && |m.questions| < 0x1_0000 && |m.answers| < 0x1_0000
    && AllEncodable(m.questions) && AllWritable(m.answers)
  }

  function Header(m: Message): (h: seq<byte>)
    requires Sendable(m)
    ensures |h| == 12
  {
    Word(m.id) + Word(m.flags) + Word(|m.questions|) + Word(|m.answers|) + Word(m.authorities) + Word(m.additions)
  }

  function Bytes(m: Message): seq<byte>
    requires Sendable(m)
  {
    Header(m) + (QuestionsBytes(m.questions) + (RecordsBytes(m.answers) + m.rest))
  }

  ghost predicate Resolves(b: seq<byte>, l: Layout) {
    PointsWell(b, l) && Jumps(l) <= MAX_HOPS
  }

  /** Every compressed name leads, in at most 16 jumps, to its labels. */
  ghost predicate WellCompressed(m: Message)
    requires Sendable(m)
  {
    && (forall i :: 0 <= i < |m.questions| ==> Resolves(Bytes(m), m.questions[i].name))
    && (forall i :: 0 <= i < |m.answers| ==> Resolves(Bytes(m), m.answers[i].name))
  }

  // ---- reading it ----

  /** The record types that map a name to an address, with the one length each has. */
  function AddressOf(rtype: u16, data: seq<byte>): seq<Address> {
    if rtype == TYPE_A && |data| == 4 then [V4(data)]
    else if rtype == TYPE_AAAA && |data| == 16 then [V6(data)]
    else []
  }

  function Addresses(rs: seq<Record>): seq<Address> {
    if rs == [] then [] else AddressOf(rs[0].rtype, rs[0].data) + Addresses(rs[1..])
  }

  function SkipQuestions(b: seq<byte>, off: nat, n: nat): Option<nat>
    decreases n
  {
    if n == 0 then Some(off)
    else
      match ReadNameAt(b, off)
      case None => None
      case Some(name) => SkipQuestions(b, name.next + 4, n - 1)
  }

  /** A record cut short ends the list; a name that cannot be read voids it. */
  function ReadAnswers(b: seq<byte>, off: nat, n: nat): Option<seq<Address>>
    decreases n
  {
    if n == 0 then Some([])
    else
      match ReadNameAt(b, off)
      case None => None
      case Some(name) =>
        if name.next + 10 > |b| then Some([])
        else
          var start := name.next + 10;
          var stop := start + U16At(b, name.next + 8);
          if stop > |b| then Some([])
          else
            match ReadAnswers(b, stop, n - 1)
            case None => None
            case Some(more) => Some(AddressOf(U16At(b, name.next), b[start..stop]) + more)
  }

  function Gathered(name: seq<byte>, addresses: Option<seq<Address>>): Option<Answered> {
    if addresses.None? || addresses.value == [] then None else Some(Answered(name, addresses.value))
  }

  function Response(b: seq<byte>): Option<Answered> {
    if |b| < 12 || U16At(b, 2) < RESPONSE_BIT then None
    else
      var qd, an := U16At(b, 4), U16At(b, 6);
      if qd == 0 || an == 0 then None
      else
        match ReadNameAt(b, 12)
        case None => None
        case Some(name) =>
          match SkipQuestions(b, name.next + 4, qd - 1)
          case None => None
          case Some(off) => Gathered(name.text, ReadAnswers(b, off, an))
  }

  function Joined(found: seq<Address>, more: Option<seq<Address>>): Option<seq<Address>> {
    if more.None? then None else Some(found + more.value)
  }

  method ParseAnswers(b: seq<byte>, start: nat, an: nat) returns (r: Option<seq<Address>>)
    ensures r == ReadAnswers(b, start, an)
  {
    hide ReadNameAt, U16At, Joined;
    var ips: seq<Address> := [];
    var off: nat := start;
    JoinedEmpty(ReadAnswers(b, start, an));
    for i := 0 to an
      invariant ReadAnswers(b, start, an) == Joined(ips, ReadAnswers(b, off, an - i))
    {
      JoinedEnds(ips);
      var name := ReadName(b, off);
      if name.None? { return None; }
      off := name.value.next;
      if off + 10 > |b| { return Some(ips); }
      var rtype, rdlen := U16At(b, off), U16At(b, off + 8);
      off := off + 10;
      if off + rdlen > |b| { return Some(ips); }
      ghost var data, more := b[off..off + rdlen], ReadAnswers(b, off + rdlen, an - i - 1);
      AnswerFolds(ips, AddressOf(rtype, data), more);
      if rtype == TYPE_A && rdlen == 4 {
        ips := ips + [V4(b[off..off + 4])];
      } else if rtype == TYPE_AAAA && rdlen == 16 {
        ips := ips + [V6(b[off..off + 16])];
      }
      off := off + rdlen;
    }
    JoinedEnds(ips);
    r := Some(ips);
  }

  lemma JoinedEmpty(more: Option<seq<Address>>)
    ensures Joined([], more) == more
  {
    if more.Some? {
      assert [] + more.value == more.value;
    }
  }

  lemma JoinedEnds(found: seq<Address>)
    ensures Joined(found, None) == None && Joined(found, Some([])) == Some(found)
  {
    assert found + [] == found;
  }

  lemma AnswerFolds(found: seq<Address>, here: seq<Address>, more: Option<seq<Address>>)
    ensures Joined(found, match more case None => None case Some(m) => Some(here + m)) == Joined(found + here, more)
    ensures here == [] ==> found + here == found
  {
    JoinedStep(found, here, more);
  }

  lemma JoinedStep(found: seq<Address>, here: seq<Address>, more: Option<seq<Address>>)
    ensures Joined(found, Joined(here, more)) == Joined(found + here, more)
  {
    if more.Some? {
      assert found + (here + more.value) == (found + here) + more.value;
    }
  }

  method ParseResponse(b: seq<byte>) returns (r: Option<Answered>)
    ensures r == Response(b)
  {
    hide ReadNameAt, ReadAnswers;
    if |b| < 12 { return None; }
    if U16At(b, 2) < RESPONSE_BIT { return None; }
    var qd, an := U16At(b, 4), U16At(b, 6);
    if qd == 0 || an == 0 { return None; }
    var qname := ReadName(b, 12);
    if qname.None? { return None; }
    var off: nat := qname.value.next + 4;
    ghost var first: nat := off;
    for i := 1 to qd
      invariant SkipQuestions(b, first, qd - 1) == SkipQuestions(b, off, qd - i)
    {
      var name := ReadName(b, off);
      if name.None? { return None; }
      off := name.value.next + 4;
    }
    var ips := ParseAnswers(b, off, an);
    r := Gathered(qname.value.text, ips);
  }

  // ---- reading back what was written ----

  lemma NameReadBack(b: seq<byte>, off: nat, l: Layout)
    requires Encodable(l) && At(b, off, Encode(l)) && Resolves(b, l)
    ensures ReadNameAt(b, off) == Some(Name(Dotted(Labels(l)), off + |Encode(l)|))
  {
    WalkReadsLayout(b, off, l, MAX_HOPS);
  }

  lemma {:induction false} QuestionsSkipped(b: seq<byte>, off: nat, qs: seq<Question>)
    requires AllEncodable(qs) && At(b, off, QuestionsBytes(qs))
    requires forall i :: 0 <= i < |qs| ==> Resolves(b, qs[i].name)
    ensures SkipQuestions(b, off, |qs|) == Some(off + |QuestionsBytes(qs)|)
    decreases |qs|
  {
    hide ReadNameAt, Resolves, Encode, Encodable, Dotted, Labels, At;
    if qs != [] {
      var q := qs[0];
      AtConcat(b, off, QuestionBytes(q), QuestionsBytes(qs[1..]));
      AtConcat(b, off, Encode(q.name), Word(q.qtype) + Word(q.qclass));
      NameReadBack(b, off, q.name);
      QuestionsSkipped(b, off + |QuestionBytes(q)|, qs[1..]);
    }
  }

  lemma FixedInPlace(b: seq<byte>, off: nat, r: Record)
    requires Writable(r) && At(b, off, Fixed(r) + r.data)
    ensures off + 10 + |r.data| <= |b| && U16At(b, off) == r.rtype && U16At(b, off + 8) == |r.data|
    ensures b[off + 10..off + 10 + |r.data|] == r.data
  {
    AtConcat(b, off, Fixed(r), r.data);
    assert Fixed(r) == Word(r.rtype) + (Word(r.rclass) + r.ttl + Word(|r.data|));
    AtConcat(b, off, Word(r.rtype), Word(r.rclass) + r.ttl + Word(|r.data|));
    AtConcat(b, off, Word(r.rtype) + Word(r.rclass) + r.ttl, Word(|r.data|));
    WordAt(b, off, r.rtype);
    WordAt(b, off + 8, |r.data|);
  }

  lemma AnswerStep(b: seq<byte>, off: nat, r: Record, n: nat)
    requires Writable(r) && At(b, off, RecordBytes(r)) && Resolves(b, r.name)
    ensures ReadAnswers(b, off, n + 1)
         == Joined(AddressOf(r.rtype, r.data), ReadAnswers(b, off + |RecordBytes(r)|, n))
  {
    hide ReadNameAt, Resolves, Encode, Encodable, Dotted, Labels, At, U16At, Fixed, AddressOf;
    AtConcat(b, off, Encode(r.name), Fixed(r) + r.data);
    NameReadBack(b, off, r.name);
    FixedInPlace(b, off + |Encode(r.name)|, r);
  }

  lemma {:induction false} AnswersReadBack(b: seq<byte>, off: nat, rs: seq<Record>)
    requires AllWritable(rs) && At(b, off, RecordsBytes(rs))
    requires forall i :: 0 <= i < |rs| ==> Resolves(b, rs[i].name)
    ensures ReadAnswers(b, off, |rs|) == Some(Addresses(rs))
    decreases |rs|
  {
    hide Resolves, RecordBytes, AddressOf, Writable, At;
    if rs != [] {
      hide ReadAnswers;
      AtConcat(b, off, RecordBytes(rs[0]), RecordsBytes(rs[1..]));
      AnswerStep(b, off, rs[0], |rs| - 1);
      AnswersReadBack(b, off + |RecordBytes(rs[0])|, rs[1..]);
    }
  }

  lemma HeaderReadBack(b: seq<byte>, m: Message)
    requires Sendable(m) && At(b, 0, Header(m))
    ensures |b| >= 12 && U16At(b, 2) == m.flags && U16At(b, 4) == |m.questions| && U16At(b, 6) == |m.answers|
  {
    var q: u16, a: u16 := |m.questions|, |m.answers|;
    var ab, cd := Word(m.id) + Word(m.flags), Word(q) + Word(a);
    var ef := Word(m.authorities) + Word(m.additions);
    assert Header(m) == ab + cd + ef;
    AtConcat(b, 0, ab + cd, ef);
    AtConcat(b, 0, ab, cd);
    AtConcat(b, 0, Word(m.id), Word(m.flags));
    AtConcat(b, 4, Word(q), Word(a));
    WordAt(b, 2, m.flags);
    WordAt(b, 4, q);
    WordAt(b, 6, a);
  }

  lemma BytesInPlace(m: Message)
    requires Sendable(m)
    ensures At(Bytes(m), 0, Header(m)) && At(Bytes(m), 12, QuestionsBytes(m.questions))
    ensures At(Bytes(m), 12 + |QuestionsBytes(m.questions)|, RecordsBytes(m.answers))
  {
    hide Header, QuestionsBytes, RecordsBytes, AllEncodable, AllWritable;
    var b := Bytes(m);
    assert b[0..|b|] == b;
    AtConcat(b, 0, Header(m), QuestionsBytes(m.questions) + (RecordsBytes(m.answers) + m.rest));
    AtConcat(b, 12, QuestionsBytes(m.questions), RecordsBytes(m.answers) + m.rest);
    AtConcat(b, 12 + |QuestionsBytes(m.questions)|, RecordsBytes(m.answers), m.rest);
  }

  lemma FirstQuestion(b: seq<byte>, qs: seq<Question>)
    requires qs != [] && AllEncodable(qs) && At(b, 12, QuestionsBytes(qs)) && Resolves(b, qs[0].name)
    ensures ReadNameAt(b, 12) == Some(Name(Dotted(Labels(qs[0].name)), 12 + |Encode(qs[0].name)|))
  {
    hide ReadNameAt, Resolves, Encode, Encodable, Dotted, Labels, At;
    AtConcat(b, 12, QuestionBytes(qs[0]), QuestionsBytes(qs[1..]));
    AtConcat(b, 12, Encode(qs[0].name), Word(qs[0].qtype) + Word(qs[0].qclass));
    NameReadBack(b, 12, qs[0].name);
  }

  lemma NamesResolve(m: Message)
    requires Sendable(m) && WellCompressed(m)
    ensures forall i :: 0 <= i < |m.questions| ==> Encodable(m.questions[i].name)
    ensures forall i :: 0 <= i < |m.questions| ==> Resolves(Bytes(m), m.questions[i].name)
    ensures forall i :: 0 <= i < |m.answers| ==> Resolves(Bytes(m), m.answers[i].name)
  {
  }

  lemma SkipFirst(b: seq<byte>, off: nat, n: nat)
    requires n > 0 && ReadNameAt(b, off).Some?
    ensures SkipQuestions(b, off, n) == SkipQuestions(b, ReadNameAt(b, off).value.next + 4, n - 1)
  {
    hide ReadNameAt;
  }

  lemma AddressesOfNone(rs: seq<Record>)
    ensures rs == [] ==> Addresses(rs) == []
  {
  }

  lemma BodyReadBack(b: seq<byte>, qs: seq<Question>, rs: seq<Record>)
    requires qs != [] && AllEncodable(qs) && At(b, 12, QuestionsBytes(qs))
    requires AllWritable(rs) && At(b, 12 + |QuestionsBytes(qs)|, RecordsBytes(rs))
    requires forall i :: 0 <= i < |qs| ==> Resolves(b, qs[i].name)
    requires forall i :: 0 <= i < |rs| ==> Resolves(b, rs[i].name)
    ensures ReadNameAt(b, 12).Some? && ReadNameAt(b, 12).value.text == Dotted(Labels(qs[0].name))
    ensures var off := SkipQuestions(b, ReadNameAt(b, 12).value.next + 4, |qs| - 1);
            off.Some? && ReadAnswers(b, off.value, |rs|) == Some(Addresses(rs))
  {
    hide ReadNameAt, Resolves, Encode, Encodable, Dotted, Labels, At, ReadAnswers, RecordsBytes;
    hide AllWritable, QuestionsBytes, SkipQuestions, Addresses;
    FirstQuestion(b, qs);
    QuestionsSkipped(b, 12, qs);
    SkipFirst(b, 12, |qs|);
    AnswersReadBack(b, 12 + |QuestionsBytes(qs)|, rs);
  }

  /** Whatever mix of records a response carries and however its names are
      compressed, what is read is the name of its first question and exactly its
      A and AAAA addresses in order; a query, a response with no question and one
      with no address are passed over. */
  lemma ResponseReadBack(m: Message)
    requires Sendable(m) && WellCompressed(m)
    ensures Response(Bytes(m)) ==
              if m.flags < RESPONSE_BIT || m.questions == [] || Addresses(m.answers) == [] then None
              else Some(Answered(Dotted(Labels(m.questions[0].name)), Addresses(m.answers)))
  {
    hide ReadNameAt, Resolves, Encode, Encodable, Dotted, Labels, Header, U16At, At, ReadAnswers, RecordsBytes, Bytes;
    hide AllEncodable, AllWritable, WellCompressed, QuestionsBytes, SkipQuestions, Addresses;
    var b := Bytes(m);
    BytesInPlace(m);
    HeaderReadBack(b, m);
    if m.questions != [] {
      NamesResolve(m);
      BodyReadBack(b, m.questions, m.answers);
      AddressesOfNone(m.answers);
    }
  }

}

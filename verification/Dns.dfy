/** Reading a compressed name out of a DNS message (RFC 1035, section 4.1.4).
    Source: src/dns.rs, lines 119-165. */
module Dns {
  import opened Options
  import opened Octets

  type Label = seq<byte>

  const DOT: byte := 46
  const MAX_HOPS: nat := 16
  /** The least length byte with both top bits set. Lengths from 64 to 191 are
      reserved by the standard; the reader takes them as plain lengths (see
      ReadBeyondTheStandard). */
  const COMPRESSED := 0xc0

  // ---- how a name is laid out ----

  /** A name in a message: its labels in place, ended by the root or by a pointer
      to where the rest of it is laid out. */
  datatype Layout = Root | Part(text: Label, rest: Layout) | Pointer(target: nat, rest: Layout)

  function Labels(l: Layout): seq<Label> {
    match l
    case Root => []
    case Part(t, r) => [t] + Labels(r)
    case Pointer(_, r) => Labels(r)
  }

  function Jumps(l: Layout): nat {
    match l
    case Root => 0
    case Part(_, r) => Jumps(r)
    case Pointer(_, r) => 1 + Jumps(r)
  }

  /** The labels and pointers a message can hold. */
  predicate Encodable(l: Layout) {
    match l
    case Root => true
    case Part(t, r) => 1 <= |t| < COMPRESSED && Encodable(r)
    case Pointer(t, r) => t < 0x4000 && Encodable(r)
  }

  /** The bytes in place: up to the root's zero or through the first pointer. */
  function Encode(l: Layout): (e: seq<byte>)
    requires Encodable(l)
    ensures |e| >= 1
  {
    match l
    case Root => [0]
    case Part(t, r) => [|t|] + t + Encode(r)
    case Pointer(t, _) => [COMPRESSED + t / 256, t % 256]
  }

  /** Every pointer of the name leads to where its rest is laid out. */
  ghost predicate PointsWell(b: seq<byte>, l: Layout)
    decreases l, 0
  {
    match l
    case Root => true
    case Part(_, r) => PointsWell(b, r)
    case Pointer(t, r) => LaidOut(b, t, r)
  }

  ghost predicate LaidOut(b: seq<byte>, off: nat, l: Layout)
    decreases l, 1
  {
    Encodable(l) && At(b, off, Encode(l)) && PointsWell(b, l)
  }

  function Dotted(labels: seq<Label>): seq<byte> {
    if labels == [] then []
    else if |labels| == 1 then labels[0]
    else Dotted(labels[..|labels| - 1]) + [DOT] + labels[|labels| - 1]
  }

  // ---- reading one ----

  datatype Name = Name(text: seq<byte>, next: nat)
  datatype Parsed = Parsed(labels: seq<Label>, next: nat)

  function PointerAt(b: seq<byte>, off: nat): nat
    requires off + 1 < |b| && b[off] >= COMPRESSED
  {
    var high: int := b[off];
    var low: int := b[off + 1];
    (high - COMPRESSED) * 256 + low
  }

  /** The walk of the reader, with the jumps it has left. */
  function Walk(b: seq<byte>, off: nat, hops: nat): (p: Option<Parsed>)
    ensures p.Some? ==> off < p.value.next <= |b|
    ensures p.Some? ==> forall i :: 0 <= i < |p.value.labels| ==> p.value.labels[i] != []
    decreases hops, |b| - off
  {
    if off >= |b| then None
    else if b[off] >= COMPRESSED then
      if off + 1 >= |b| || hops == 0 || PointerAt(b, off) >= |b| then None
      else
        match Walk(b, PointerAt(b, off), hops - 1)
        case None => None
        case Some(p) => Some(Parsed(p.labels, off + 2))
    else if b[off] == 0 then Some(Parsed([], off + 1))
    else if off + 1 + b[off] > |b| then None
    else
      match Walk(b, off + 1 + b[off], hops)
      case None => None
      case Some(p) => Some(Parsed([b[off + 1..off + 1 + b[off]]] + p.labels, p.next))
  }

  function AppendLabel(out: seq<byte>, l: Label): seq<byte> {
    (if out == [] then out else out + [DOT]) + l
  }

  function AppendLabels(out: seq<byte>, labels: seq<Label>): seq<byte>
    decreases |labels|
  {
    if labels == [] then out else AppendLabels(AppendLabel(out, labels[0]), labels[1..])
  }

  lemma AppendLabelsOfCons(out: seq<byte>, l: Label, rest: seq<Label>)
    ensures AppendLabels(out, [l] + rest) == AppendLabels(AppendLabel(out, l), rest)
  {
    assert ([l] + rest)[1..] == rest;
  }

  lemma {:induction false} AppendLabelsIsDotted(head: seq<Label>, tail: seq<Label>)
    requires forall i :: 0 <= i < |head| ==> head[i] != []
    requires forall i :: 0 <= i < |tail| ==> tail[i] != []
    ensures AppendLabels(Dotted(head), tail) == Dotted(head + tail)
    decreases |tail|
  {
    if tail == [] {
      assert head + tail == head;
    } else {
      var head' := head + [tail[0]];
      assert head'[..|head|] == head;
      assert Dotted(head) == [] <==> head == [];
      assert AppendLabel(Dotted(head), tail[0]) == Dotted(head');
      assert head' + tail[1..] == head + tail;
      AppendLabelsIsDotted(head', tail[1..]);
    }
  }

  function ReadNameAt(b: seq<byte>, off: nat): (r: Option<Name>)
    ensures r.Some? ==> off < r.value.next <= |b|
  {
    match Walk(b, off, MAX_HOPS)
    case None => None
    case Some(p) => Some(Name(Dotted(p.labels), p.next))
  }

  function Resumed(out: seq<byte>, after: Option<nat>, w: Option<Parsed>): Option<Name> {
    match w
    case None => None
    case Some(p) => Some(Name(AppendLabels(out, p.labels), if after.Some? then after.value else p.next))
  }

  lemma ResumedAtStart(b: seq<byte>, start: nat)
    ensures Resumed([], None, Walk(b, start, MAX_HOPS)) == ReadNameAt(b, start)
  {
    hide Walk;
    var w := Walk(b, start, MAX_HOPS);
    if w.Some? {
      AppendLabelsIsDotted([], w.value.labels);
      assert [] + w.value.labels == w.value.labels;
    }
  }

  /** Follows at most 16 pointers, never reads outside the buffer and ends on
      every one, since each turn uses up a jump or moves towards the end. */
  method ReadName(b: seq<byte>, start: nat) returns (r: Option<Name>)
    ensures r == ReadNameAt(b, start)
  {
    hide AppendLabels, AppendLabel, Dotted;
    var out: seq<byte> := [];
    var off: nat := start;
    var after: Option<nat> := None;
    var hops: nat := 0;
    ResumedAtStart(b, start);
    hide ReadNameAt;
    while true
      invariant hops <= MAX_HOPS
      invariant ReadNameAt(b, start) == Resumed(out, after, Walk(b, off, MAX_HOPS - hops))
      decreases MAX_HOPS - hops, |b| - off
    {
      if off >= |b| { return None; }
      var len: int := b[off];
      if len >= COMPRESSED {
        if off + 1 >= |b| { return None; }
        var ptr := PointerAt(b, off);
        if after.None? { after := Some(off + 2); }
        hops := hops + 1;
        if hops > MAX_HOPS || ptr >= |b| { return None; }
        off := ptr;
      } else if len == 0 {
        AppendNone(out);
        off := off + 1;
        return Some(Name(out, if after.Some? then after.value else off));
      } else {
        if off + 1 + len > |b| { return None; }
        ReadsLabel(b, off, len, MAX_HOPS - hops, out, after);
        out := AppendLabel(out, b[off + 1..off + 1 + len]);
        off := off + 1 + len;
      }
    }
  }

  lemma AppendNone(out: seq<byte>)
    ensures AppendLabels(out, []) == out
  {
  }

  lemma ReadsLabel(b: seq<byte>, off: nat, len: nat, hops: nat, out: seq<byte>, after: Option<nat>)
    requires off < |b| && b[off] == len && 0 < len < COMPRESSED && off + 1 + len <= |b|
    ensures Resumed(out, after, Walk(b, off, hops))
         == Resumed(AppendLabel(out, b[off + 1..off + 1 + len]), after, Walk(b, off + 1 + len, hops))
  {
    var w := Walk(b, off + 1 + len, hops);
    if w.Some? {
      AppendLabelsOfCons(out, b[off + 1..off + 1 + len], w.value.labels);
    }
  }

  // ---- what reading means ----

  /** Skipping a name without following anything. */
  function Skip(b: seq<byte>, off: nat): Option<nat>
    decreases |b| - off
  {
    if off >= |b| then None
    else if b[off] >= COMPRESSED then (if off + 1 < |b| then Some(off + 2) else None)
    else if b[off] == 0 then Some(off + 1)
    else if off + 1 + b[off] > |b| then None
    else Skip(b, off + 1 + b[off])
  }

  /** On success the next offset is where a skip that follows no pointer ends. */
  lemma {:induction false} NextIsSkip(b: seq<byte>, off: nat, hops: nat)
    requires Walk(b, off, hops).Some?
    ensures Skip(b, off) == Some(Walk(b, off, hops).value.next)
    decreases |b| - off
  {
    if b[off] != 0 && b[off] < COMPRESSED {
      NextIsSkip(b, off + 1 + b[off], hops);
    }
  }

  lemma PartInPlace(b: seq<byte>, off: nat, t: Label, r: Layout)
    requires Encodable(Part(t, r))
    ensures At(b, off, Encode(Part(t, r)))
       <==> (off < |b| && b[off] == |t| && At(b, off + 1, t) && At(b, off + 1 + |t|, Encode(r)))
  {
    AtConcat(b, off, [|t|] + t, Encode(r));
    AtConcat(b, off, [|t|], t);
    if off < |b| {
      assert b[off..off + 1] == [b[off]];
    }
  }

  lemma PointerInPlace(b: seq<byte>, off: nat, t: nat, r: Layout)
    requires Encodable(Pointer(t, r))
    ensures At(b, off, Encode(Pointer(t, r)))
       <==> (off + 1 < |b| && b[off] >= COMPRESSED && PointerAt(b, off) == t)
  {
    if off + 1 < |b| {
      assert b[off..off + 2] == [b[off], b[off + 1]];
    }
  }

  lemma WalkPart(b: seq<byte>, off: nat, t: Label, r: Layout, hops: nat)
    requires Encodable(Part(t, r)) && At(b, off, Encode(Part(t, r)))
    ensures At(b, off + 1 + |t|, Encode(r))
    ensures match Walk(b, off + 1 + |t|, hops)
            case None => Walk(b, off, hops) == None
            case Some(p) => Walk(b, off, hops) == Some(Parsed([t] + p.labels, p.next))
  {
    PartInPlace(b, off, t, r);
  }

  lemma WalkPointer(b: seq<byte>, off: nat, t: nat, r: Layout, hops: nat)
    requires Encodable(Pointer(t, r)) && At(b, off, Encode(Pointer(t, r))) && t < |b| && hops > 0
    ensures match Walk(b, t, hops - 1)
            case None => Walk(b, off, hops) == None
            case Some(p) => Walk(b, off, hops) == Some(Parsed(p.labels, off + 2))
  {
    PointerInPlace(b, off, t, r);
  }

  lemma WalkRoot(b: seq<byte>, off: nat, hops: nat)
    requires At(b, off, [0])
    ensures Walk(b, off, hops) == Some(Parsed([], off + 1))
  {
    AtIndex(b, off, [0], 0);
  }

  lemma LaidOutInside(b: seq<byte>, off: nat, l: Layout)
    requires LaidOut(b, off, l)
    ensures Encodable(l) && off + |Encode(l)| <= |b| && off < |b|
  {
  }

  /** A name laid out with few enough jumps is read back: its labels, and the
      offset just behind its bytes in place. */
  lemma {:induction false} WalkReadsLayout(b: seq<byte>, off: nat, l: Layout, hops: nat)
    requires LaidOut(b, off, l) && Jumps(l) <= hops
    ensures Walk(b, off, hops) == Some(Parsed(Labels(l), off + |Encode(l)|))
    decreases l
  {
    hide Walk;
    match l {
      case Root =>
        WalkRoot(b, off, hops);
      case Part(t, r) =>
        WalkPart(b, off, t, r, hops);
        WalkReadsLayout(b, off + 1 + |t|, r, hops);
      case Pointer(t, r) =>
        LaidOutInside(b, t, r);
        WalkPointer(b, off, t, r, hops);
        WalkReadsLayout(b, t, r, hops - 1);
    }
  }

  /** Conversely a name that is read was laid out so. */
  lemma {:induction false} WalkFindsLayout(b: seq<byte>, off: nat, hops: nat) returns (l: Layout)
    requires Walk(b, off, hops).Some?
    ensures LaidOut(b, off, l) && Jumps(l) <= hops
    decreases hops, |b| - off
  {
    if b[off] >= COMPRESSED {
      var t := PointerAt(b, off);
      var r := WalkFindsLayout(b, t, hops - 1);
      l := Pointer(t, r);
      PointerInPlace(b, off, t, r);
    } else if b[off] == 0 {
      l := Root;
      assert b[off..off + 1] == [0];
    } else {
      var n: int := b[off];
      var r := WalkFindsLayout(b, off + 1 + n, hops);
      var t := b[off + 1..off + 1 + n];
      l := Part(t, r);
      PartInPlace(b, off, t, r);
    }
  }

  /** A name can be read exactly when one is laid out there with at most 16
      jumps, and then what comes back is that name. So a loop, an overlong chain
      or a run off the end is refused, and nothing well laid out is. */
  lemma ReadExactlyTheLaidOut(b: seq<byte>, off: nat)
    ensures ReadNameAt(b, off).Some? <==> exists l :: LaidOut(b, off, l) && Jumps(l) <= MAX_HOPS
    ensures forall l :: LaidOut(b, off, l) && Jumps(l) <= MAX_HOPS ==>
              Encodable(l) && ReadNameAt(b, off) == Some(Name(Dotted(Labels(l)), off + |Encode(l)|))
  {
    hide Walk, Encode, Encodable, Labels, Jumps, Dotted, LaidOut, PointsWell, At;
    if Walk(b, off, MAX_HOPS).Some? {
      var l := WalkFindsLayout(b, off, MAX_HOPS);
    }
    forall l | LaidOut(b, off, l) && Jumps(l) <= MAX_HOPS
      ensures Encodable(l) && ReadNameAt(b, off) == Some(Name(Dotted(Labels(l)), off + |Encode(l)|))
    {
      LaidOutInside(b, off, l);
      WalkReadsLayout(b, off, l, MAX_HOPS);
    }
  }

  // ---- which of them the standard allows ----

  const MAX_LABEL := 63
  const MAX_NAME := 255

  /** A name's length in the message when nothing is compressed. */
  function WireLength(labels: seq<Label>): nat {
    if labels == [] then 1 else 1 + |labels[0]| + WireLength(labels[1..])
  }

  /** The walk of a reader that keeps to section 4.1.4 of RFC 1035, where length
      bytes from 64 to 191 are reserved. */
  function StrictWalk(b: seq<byte>, off: nat, hops: nat): Option<Parsed>
    decreases hops, |b| - off
  {
    if off >= |b| then None
    else if b[off] >= COMPRESSED then
      if off + 1 >= |b| || hops == 0 || PointerAt(b, off) >= |b| then None
      else
        match StrictWalk(b, PointerAt(b, off), hops - 1)
        case None => None
        case Some(p) => Some(Parsed(p.labels, off + 2))
    else if b[off] == 0 then Some(Parsed([], off + 1))
    else if b[off] > MAX_LABEL || off + 1 + b[off] > |b| then None
    else
      match StrictWalk(b, off + 1 + b[off], hops)
      case None => None
      case Some(p) => Some(Parsed([b[off + 1..off + 1 + b[off]]] + p.labels, p.next))
  }

  /** A reserved length byte stands where the walk looks for a length. */
  predicate MeetsReserved(b: seq<byte>, off: nat, hops: nat)
    decreases hops, |b| - off
  {
    && off < |b|
    && if b[off] >= COMPRESSED then
         off + 1 < |b| && hops > 0 && PointerAt(b, off) < |b| && MeetsReserved(b, PointerAt(b, off), hops - 1)
       else if b[off] > MAX_LABEL then true
       else b[off] != 0 && off + 1 + b[off] <= |b| && MeetsReserved(b, off + 1 + b[off], hops)
  }

  /** Strict reading never reads another name, and loses one exactly at a reserved
      length byte. */
  lemma {:induction false} StrictWalkMeaning(b: seq<byte>, off: nat, hops: nat)
    ensures StrictWalk(b, off, hops) == if MeetsReserved(b, off, hops) then None else Walk(b, off, hops)
    decreases hops, |b| - off
  {
    if off < |b| {
      if b[off] >= COMPRESSED {
        if off + 1 < |b| && hops > 0 && PointerAt(b, off) < |b| {
          StrictWalkMeaning(b, PointerAt(b, off), hops - 1);
        }
      } else if b[off] != 0 && off + 1 + b[off] <= |b| {
        StrictWalkMeaning(b, off + 1 + b[off], hops);
      }
    }
  }

  /** The standard's reading of a name, its limit on whole names (section 2.3.4)
      included. */
  function StandardName(b: seq<byte>, off: nat): Option<Name> {
    match StrictWalk(b, off, MAX_HOPS)
    case None => None
    case Some(p) => if WireLength(p.labels) > MAX_NAME then None else Some(Name(Dotted(p.labels), p.next))
  }

  /** The reader reads what the standard does, except the names with a reserved
      length byte on their way or more than 255 bytes in all, which only it reads. */
  lemma ReadBeyondTheStandard(b: seq<byte>, off: nat)
    ensures StandardName(b, off).Some? ==> ReadNameAt(b, off) == StandardName(b, off)
    ensures ReadNameAt(b, off) != StandardName(b, off) <==>
              ReadNameAt(b, off).Some?
              && (MeetsReserved(b, off, MAX_HOPS) || WireLength(Walk(b, off, MAX_HOPS).value.labels) > MAX_NAME)
  {
    hide Walk, StrictWalk, MeetsReserved, WireLength, Dotted;
    StrictWalkMeaning(b, off, MAX_HOPS);
  }

  function Letters(n: nat): (s: seq<byte>)
    ensures |s| == n
  {
    seq(n, _ => 97)
  }

  /** A label whose length byte is the reserved value 64 is read all the same. */
  lemma ReservedLengthIsRead()
    ensures var b := [64] + Letters(64) + [0];
            ReadNameAt(b, 0) == Some(Name(Letters(64), 66)) && MeetsReserved(b, 0, MAX_HOPS) && StandardName(b, 0) == None
  {
    var l := Part(Letters(64), Root);
    var b := [64] + Letters(64) + [0];
    assert Encode(l) == b;
    assert b[0..|b|] == b;
    assert Labels(Root) == [] && [Letters(64)] + [] == [Letters(64)] && Labels(l) == [Letters(64)];
    assert Encodable(l) && |Encode(l)| == 66 && Jumps(l) == 0;
    assert MeetsReserved(b, 0, MAX_HOPS) && Dotted([Letters(64)]) == Letters(64);
    hide Walk, Letters, StrictWalk, Dotted;
    WalkReadsLayout(b, 0, l, MAX_HOPS);
    StrictWalkMeaning(b, 0, MAX_HOPS);
  }
}

/** All interleavings of the kernel module's critical sections: any number of
    hooks, readers and daemon calls, each lock holder one step. The decision log,
    the received ids and the issued keys are history that nothing reads back.
    Source: kmod/mac_pfsnitch.c, lines 299-461, 604-634, 724-767 and 813-832. */
module Interleavings {
  import opened Options
  import opened Octets
  import opened VerdictCache
  import opened UpcallQueue

  datatype Decision = Decided(key: Key, verdict: byte, stored: bool) | Flushed

  /** holding maps a reader between its pick and the end of its read() to the id
      it carries; faulted readers are those whose copyout has failed. */
  datatype System = System(k: Kernel, clock: nat, holding: map<nat, nat>, faulted: set<nat>,
                           log: seq<Decision>, received: seq<nat>, issued: map<nat, Key>)

  datatype Step =
    | HookUpcall(a: Asker, gcNow: nat, bornNow: nat, allocOk: bool)
    | Push(key: Key, verdict: byte, allocOk: bool)
    | FlushAll
    | ResolveId(id: nat, verdict: byte, allocOk: bool)
    | ReadEnter(reader: nat)
    | Interrupt(reader: nat)
    | CopyoutDone(reader: nat)
    | CopyoutFault(reader: nat)
    | Requeue(reader: nat)
    | UpcallSet(on: bool)
    | Close
    | Unload
    | SetFailmode(closed: bool)

  predicate Enabled(s: System, st: Step) {
    match st
    case HookUpcall(_, gcNow, bornNow, _) => s.clock <= gcNow <= bornNow
    case Push(key, v, _) => IsVerdict(v) && 0 < |key.path| < PATHMAX
    case ResolveId(_, v, _) => IsVerdict(v)
    case ReadEnter(t) => t !in s.holding && t !in s.k.sleepers
    case Interrupt(t) => t in s.k.sleepers
    case CopyoutDone(t) => t in s.holding && t !in s.faulted
    case CopyoutFault(t) => t in s.holding && t !in s.faulted
    case Requeue(t) => t in s.holding && t in s.faulted
    case _ => true
  }

  function Next(s: System, st: Step): System
    requires Enabled(s, st)
  {
    match st
    case HookUpcall(a, gcNow, bornNow, allocOk) =>
      var k' := Upcall(s.k, a, gcNow, bornNow, allocOk).0;
      s.(k := k', clock := bornNow,
         issued := if k'.nextId > s.k.nextId then s.issued[s.k.nextId := a.KeyOf()] else s.issued)
    case Push(key, v, allocOk) =>
      s.(k := s.k.(cache := CacheInsert(s.k.cache, key, v, allocOk)),
         log := s.log + [Decided(key, v, Accepted(s.k.cache, key, allocOk))])
    case FlushAll => s.(k := s.k.(cache := map[]), log := s.log + [Flushed])
    case ResolveId(id, v, allocOk) =>
      var i := FindId(s.k.reqs, id);
      s.(k := Resolve(s.k, id, v, allocOk),
         log := if i == |s.k.reqs| then s.log
                else s.log + [Decided(s.k.reqs[i].KeyOf(), v, Accepted(s.k.cache, s.k.reqs[i].KeyOf(), allocOk))])
    case ReadEnter(t) =>
      var (k', o) := ReadPass(s.k, t);
      s.(k := k', holding := if o.Picked? then s.holding[t := o.ev.id] else s.holding)
    case Interrupt(t) => s.(k := s.k.(sleepers := s.k.sleepers - {t}))
    case CopyoutDone(t) => s.(holding := s.holding - {t}, received := s.received + [s.holding[t]])
    case CopyoutFault(t) => s.(faulted := s.faulted + {t})
    case Requeue(t) =>
      s.(k := Redeliver(s.k, s.holding[t]), holding := s.holding - {t}, faulted := s.faulted - {t})
    case UpcallSet(on) => s.(k := SetUpcall(s.k, on))
    case Close => s.(k := LastClose(s.k))
    case Unload => s.(k := Drain(s.k))
    case SetFailmode(closed) => s.(k := s.k.(failClosed := closed))
  }

  predicate Initial(s: System) {
    s == System(Kernel(map[], [], 1, false, false, false, {}), s.clock, map[], {}, [], [], map[])
  }

  ghost predicate Run(tr: seq<System>, steps: seq<Step>) {
    && |tr| == |steps| + 1
    && forall i :: 0 <= i < |steps| ==> Enabled(tr[i], steps[i]) && tr[i + 1] == Next(tr[i], steps[i])
  }

  // ---- the invariant, part by part ----

  ghost predicate QueueOk(q: seq<Req>, nextId: nat, clock: nat) {
    && IdsSorted(q)
    && KeysDistinct(q)
    && BirthsSorted(q)
    && |q| <= REQ_MAX
    && (forall r :: r in q ==> 1 <= r.id < nextId && r.born <= clock && 0 < |r.path| < PATHMAX)
  }

  ghost predicate QueueInv(s: System) {
    QueueOk(s.k.reqs, s.k.nextId, s.clock) && (s.k.unloading ==> s.k.reqs == [])
  }

  /** Ids are issued in order and never again, each to one key. */
  ghost predicate IssueInv(s: System) {
    && s.k.nextId >= 1
    && (forall id :: id in s.issued <==> 1 <= id < s.k.nextId)
    && (forall r :: r in s.k.reqs ==> r.id in s.issued && s.issued[r.id] == r.KeyOf())
  }

  predicate Held(s: System, id: nat) {
    exists t :: t in s.holding && s.holding[t] == id
  }

  /** The newest decision about a key since the last flush. */
  function Newest(log: seq<Decision>, k: Key): Option<byte> {
    if log == [] || log[|log| - 1].Flushed? then None
    else if log[|log| - 1].key == k then Some(log[|log| - 1].verdict)
    else Newest(log[..|log| - 1], k)
  }

  /** Whether some decision about a key since the last flush got into the table. */
  predicate EverStored(log: seq<Decision>, k: Key) {
    log != [] && !log[|log| - 1].Flushed? &&
    ((log[|log| - 1].key == k && log[|log| - 1].stored) || EverStored(log[..|log| - 1], k))
  }

  ghost predicate Reflects(m: map<Key, byte>, log: seq<Decision>) {
    && |m| <= VMAX
    && (forall k :: k in m <==> EverStored(log, k))
    && (forall k :: k in m ==> IsVerdict(m[k]) && Newest(log, k) == Some(m[k]))
  }

  ghost predicate CacheInv(s: System) {
    Reflects(s.k.cache, s.log)
  }

  /** No lost wakeup. */
  ghost predicate WakeInv(s: System) {
    s.k.sleepers != {} ==>
      s.k.upcallOn && !s.k.unloading && forall r :: r in s.k.reqs ==> r.delivered
  }

  /** A request is marked delivered exactly while its event has been received or
      is in some reader's hands, and no event is in two places or comes twice. */
  ghost predicate DeliveryInv(s: System) {
    && (forall t :: t in s.holding ==>
          t !in s.k.sleepers && s.holding[t] < s.k.nextId && s.holding[t] !in s.received)
    && (forall t, u :: t in s.holding && u in s.holding && s.holding[t] == s.holding[u] ==> t == u)
    && s.faulted <= s.holding.Keys
    && (forall i, j :: 0 <= i < j < |s.received| ==> s.received[i] != s.received[j])
    && (forall id :: id in s.received ==> id < s.k.nextId)
    && (forall r :: r in s.k.reqs ==> (r.delivered <==> r.id in s.received || Held(s, r.id)))
  }

  /** Everything but the cache and its log. */
  ghost predicate UpcallInv(s: System) {
    QueueInv(s) && IssueInv(s) && WakeInv(s) && DeliveryInv(s)
  }

  ghost predicate Inv(s: System) {
    UpcallInv(s) && CacheInv(s)
  }

  // ---- what can happen to the queue: it shrinks, grows at its tail, or a flag flips ----

  ghost predicate Shrunk(q: seq<Req>, q': seq<Req>) {
    && (forall r :: r in q' ==> r in q)
    && IdsSorted(q') && KeysDistinct(q') && BirthsSorted(q') && |q'| <= |q|
  }

  function WithQueue(s: System, q: seq<Req>): System {
    s.(k := s.k.(reqs := q))
  }

  lemma SuffixShrinks(q: seq<Req>, d: nat)
    requires IdsSorted(q) && KeysDistinct(q) && BirthsSorted(q) && d <= |q|
    ensures Shrunk(q, q[d..])
  {
  }

  lemma WithoutShrinks(q: seq<Req>, i: nat)
    requires IdsSorted(q) && KeysDistinct(q) && BirthsSorted(q) && i < |q|
    ensures Shrunk(q, Without(q, i))
  {
    hide MakeKey;
    var w := Without(q, i);
    forall j | 0 <= j < |w| ensures w[j] == q[if j < i then j else j + 1] {}
  }

  lemma ShrinkKeepsInv(s: System, q: seq<Req>)
    requires UpcallInv(s) && Shrunk(s.k.reqs, q)
    ensures UpcallInv(WithQueue(s, q))
  {
    var s' := WithQueue(s, q);
    assert forall id :: Held(s', id) <==> Held(s, id);
  }

  function Grown(s: System, e: Req): System {
    s.(k := s.k.(reqs := s.k.reqs + [e], nextId := s.k.nextId + 1, sleepers := {}),
       issued := s.issued[e.id := e.KeyOf()])
  }

  ghost predicate Growable(s: System, e: Req) {
    && |s.k.reqs| < REQ_MAX && !s.k.unloading
    && e.id == s.k.nextId && !e.delivered && e.born == s.clock && 0 < |e.path| < PATHMAX
    && (forall r :: r in s.k.reqs ==> r.KeyOf() != e.KeyOf())
  }

  lemma AppendKeepsQueue(q: seq<Req>, e: Req, nextId: nat)
    requires QueueOk(q, nextId, e.born) && |q| < REQ_MAX
    requires 1 <= e.id == nextId && 0 < |e.path| < PATHMAX && forall r :: r in q ==> r.KeyOf() != e.KeyOf()
    ensures QueueOk(q + [e], nextId + 1, e.born)
  {
    hide Req.KeyOf;
    var q' := q + [e];
    assert forall i :: 0 <= i < |q| ==> q'[i] == q[i] && q[i] in q;
    forall r | r in q' ensures r in q || r == e {}
  }

  lemma GrowKeepsQueue(s: System, e: Req)
    requires QueueInv(s) && IssueInv(s) && Growable(s, e)
    ensures QueueInv(Grown(s, e)) && IssueInv(Grown(s, e))
  {
    AppendKeepsQueue(s.k.reqs, e, s.k.nextId);
    hide Req.KeyOf, QueueOk;
    assert forall r :: r in Grown(s, e).k.reqs ==> r in s.k.reqs || r == e;
    forall r | r in s.k.reqs ensures r.id in s.issued {}
  }

  lemma GrowKeepsDelivery(s: System, e: Req)
    requires DeliveryInv(s) && Growable(s, e)
    ensures DeliveryInv(Grown(s, e))
  {
    hide Req.KeyOf;
    var s' := Grown(s, e);
    assert forall r :: r in s'.k.reqs ==> r in s.k.reqs || r == e;
    assert forall id :: Held(s', id) <==> Held(s, id);
    assert !Held(s', e.id);
  }

  lemma GrowKeepsInv(s: System, e: Req)
    requires UpcallInv(s) && Growable(s, e)
    ensures UpcallInv(Grown(s, e))
  {
    GrowKeepsQueue(s, e);
    GrowKeepsDelivery(s, e);
  }

  function Flagged(q: seq<Req>, i: nat, flag: bool): seq<Req>
    requires i < |q|
  {
    q[i := q[i].(delivered := flag)]
  }

  lemma FlagKeepsKeys(q: seq<Req>, i: nat, flag: bool)
    requires i < |q|
    ensures forall j :: 0 <= j < |q| ==> Flagged(q, i, flag)[j].KeyOf() == q[j].KeyOf()
  {
  }

  lemma FlagKeepsQueue(s: System, i: nat, flag: bool)
    requires QueueInv(s) && IssueInv(s) && i < |s.k.reqs|
    ensures QueueInv(WithQueue(s, Flagged(s.k.reqs, i, flag)))
    ensures IssueInv(WithQueue(s, Flagged(s.k.reqs, i, flag)))
  {
    var q := s.k.reqs;
    var q' := Flagged(q, i, flag);
    FlagKeepsKeys(q, i, flag);
    hide Req.KeyOf;
    assert KeysDistinct(q') && IdsSorted(q') && BirthsSorted(q');
    forall r | r in q'
      ensures 1 <= r.id < s.k.nextId && r.born <= s.clock && 0 < |r.path| < PATHMAX
      ensures r.id in s.issued && s.issued[r.id] == r.KeyOf()
    {
      var j :| 0 <= j < |q'| && q'[j] == r;
      assert q[j] in q && r.KeyOf() == q[j].KeyOf() && r.id == q[j].id;
    }
  }

  // ---- preservation, one critical section at a time ----

  function Swept(s: System, now: nat, d: nat): System
    requires d <= |s.k.reqs|
  {
    WithQueue(s.(clock := now), s.k.reqs[d..])
  }

  lemma UpcallCases(s: Kernel, a: Asker, gcNow: nat, bornNow: nat, allocOk: bool)
    requires BirthsSorted(s.reqs)
    ensures var k' := Upcall(s, a, gcNow, bornNow, allocOk).0;
            var q := s.reqs[SweepCount(s.reqs, gcNow)..];
            || k' == s || k' == s.(reqs := q)
            || (&& k' == s.(reqs := q + [Enqueued(s, a, bornNow)], nextId := s.nextId + 1, sleepers := {})
                && !s.unloading && |q| < REQ_MAX && 0 < |a.path| < PATHMAX
                && (forall r :: r in q ==> r.KeyOf() != a.KeyOf()))
  {
    hide Asker.KeyOf, Req.KeyOf, FindKey, Sweep;
    SweepDropsPrefix(s.reqs, gcNow);
    var f := FindKey(s.reqs, a.KeyOf());
    var q := s.reqs[SweepCount(s.reqs, gcNow)..];
    if f == |s.reqs| {
      forall r | r in q ensures r.KeyOf() != a.KeyOf() { assert r in s.reqs; }
    }
  }

  lemma HookUpcallCases(s: System, a: Asker, gcNow: nat, bornNow: nat, allocOk: bool)
    requires BirthsSorted(s.k.reqs) && Enabled(s, HookUpcall(a, gcNow, bornNow, allocOk))
    ensures var s' := Next(s, HookUpcall(a, gcNow, bornNow, allocOk));
            var swept := Swept(s, bornNow, SweepCount(s.k.reqs, gcNow));
            var e := Enqueued(s.k, a, bornNow);
            || s' == Swept(s, bornNow, 0)
            || s' == swept
            || (s' == Grown(swept, e) && Growable(swept, e))
  {
    UpcallCases(s.k, a, gcNow, bornNow, allocOk);
    assert Enqueued(s.k, a, bornNow).KeyOf() == a.KeyOf();
    hide Asker.KeyOf, Req.KeyOf, UpcallQueue.Upcall, SweepCount;
    assert s.k.reqs[0..] == s.k.reqs;
  }

  lemma SweptKeepsInv(s: System, now: nat, d: nat)
    requires UpcallInv(s) && s.clock <= now && d <= |s.k.reqs|
    ensures UpcallInv(Swept(s, now, d))
  {
    hide Req.KeyOf;
    var s1 := s.(clock := now);
    assert forall id :: Held(s1, id) <==> Held(s, id);
    SuffixShrinks(s.k.reqs, d);
    ShrinkKeepsInv(s1, s.k.reqs[d..]);
  }

  lemma HookUpcallStep(s: System, a: Asker, gcNow: nat, bornNow: nat, allocOk: bool)
    requires UpcallInv(s) && Enabled(s, HookUpcall(a, gcNow, bornNow, allocOk))
    ensures UpcallInv(Next(s, HookUpcall(a, gcNow, bornNow, allocOk)))
  {
    HookUpcallCases(s, a, gcNow, bornNow, allocOk);
    var e := Enqueued(s.k, a, bornNow);
    var d := SweepCount(s.k.reqs, gcNow);
    SweptKeepsInv(s, bornNow, d);
    SweptKeepsInv(s, bornNow, 0);
    hide UpcallInv, Next;
    if Growable(Swept(s, bornNow, d), e) { GrowKeepsInv(Swept(s, bornNow, d), e); }
  }

  function Decide(s: System, k: Key, v: byte, allocOk: bool): System {
    s.(k := s.k.(cache := CacheInsert(s.k.cache, k, v, allocOk)),
       log := s.log + [Decided(k, v, Accepted(s.k.cache, k, allocOk))])
  }

  lemma ResolveStep(s: System, id: nat, v: byte, allocOk: bool)
    requires Inv(s) && Enabled(s, ResolveId(id, v, allocOk))
    ensures Inv(Next(s, ResolveId(id, v, allocOk)))
  {
    var i := FindId(s.k.reqs, id);
    var s' := Next(s, ResolveId(id, v, allocOk));
    if i < |s.k.reqs| {
      var k := s.k.reqs[i].KeyOf();
      assert s.k.reqs[i] in s.k.reqs && k.path == s.k.reqs[i].path;
      assert s' == WithQueue(Decide(s, k, v, allocOk), Without(s.k.reqs, i));
      WithoutShrinks(s.k.reqs, i);
      hide MakeKey, Accepted, CacheInsert, Without, Next, QueueInv, IssueInv, WakeInv, DeliveryInv, Newest, EverStored;
      DecideReflects(s.k.cache, s.log, k, v, allocOk);
      var d := Decide(s, k, v, allocOk);
      SameQueueKeepsInv(s, d.k.cache, d.log);
      ShrinkKeepsInv(d, Without(s.k.reqs, i));
    }
  }

  lemma SameQueueKeepsInv(s: System, m: map<Key, byte>, log: seq<Decision>)
    requires UpcallInv(s)
    ensures UpcallInv(s.(k := s.k.(cache := m), log := log))
  {
    var s' := s.(k := s.k.(cache := m), log := log);
    assert forall id :: Held(s', id) <==> Held(s, id);
  }

  lemma OneMoreDecision(log: seq<Decision>, d: Decision, k: Key)
    requires d.Decided?
    ensures EverStored(log + [d], k) <==> (d.key == k && d.stored) || EverStored(log, k)
    ensures Newest(log + [d], k) == if d.key == k then Some(d.verdict) else Newest(log, k)
  {
    assert (log + [d])[..|log|] == log;
  }

  lemma DecideReflects(m: map<Key, byte>, log: seq<Decision>, k: Key, v: byte, allocOk: bool)
    requires Reflects(m, log) && IsVerdict(v) && |k.path| < PATHMAX
    ensures Reflects(CacheInsert(m, k, v, allocOk), log + [Decided(k, v, Accepted(m, k, allocOk))])
  {
    hide EverStored, Newest;
    var d := Decided(k, v, Accepted(m, k, allocOk));
    var m' := CacheInsert(m, k, v, allocOk);
    forall k2
      ensures k2 in m' <==> EverStored(log + [d], k2)
      ensures k2 in m' ==> IsVerdict(m'[k2]) && Newest(log + [d], k2) == Some(m'[k2])
    {
      OneMoreDecision(log, d, k2);
    }
  }

  function Handed(s: System, t: nat, i: nat): System
    requires i < |s.k.reqs|
  {
    s.(k := s.k.(reqs := Flagged(s.k.reqs, i, true)), holding := s.holding[t := s.k.reqs[i].id])
  }

  lemma HandingKeepsDelivery(s: System, t: nat, i: nat)
    requires IdsSorted(s.k.reqs) && DeliveryInv(s) && i < |s.k.reqs| && !s.k.reqs[i].delivered
    requires s.k.reqs[i].id < s.k.nextId && t !in s.holding && t !in s.k.sleepers
    ensures DeliveryInv(Handed(s, t, i))
  {
    hide Req.KeyOf;
    var s', q := Handed(s, t, i), s.k.reqs;
    var id := q[i].id;
    assert q[i] in q;
    assert !Held(s, id) && id !in s.received;
    assert s'.holding[t] == id;
    assert forall u :: u in s.holding ==> u in s'.holding && s'.holding[u] == s.holding[u];
    assert forall u :: u in s.holding ==> s.holding[u] != id;
    forall r | r in s'.k.reqs ensures r.delivered <==> r.id in s'.received || Held(s', r.id) {
      var j :| 0 <= j < |q| && s'.k.reqs[j] == r;
      assert q[j] in q;
      if j != i {
        assert r == q[j] && r.id != id;
        assert Held(s', r.id) <==> Held(s, r.id);
      }
    }
  }

  lemma ReadEnterStep(s: System, t: nat)
    requires UpcallInv(s) && Enabled(s, ReadEnter(t))
    ensures UpcallInv(Next(s, ReadEnter(t)))
  {
    hide Req.KeyOf, FirstUndelivered, Held;
    var s', q := Next(s, ReadEnter(t)), s.k.reqs;
    var i := FirstUndelivered(q);
    if ReadPass(s.k, t).1.Picked? {
      FlagKeepsQueue(s, i, true);
      assert q[i] in q;
      HandingKeepsDelivery(s, t, i);
    } else {
      assert forall r :: r in q ==> (Held(s', r.id) <==> Held(s, r.id)) by { SameHolding(s, s'); }
      if i == |q| {
        forall r | r in q ensures r.delivered {
          var j :| 0 <= j < |q| && q[j] == r;
        }
      }
    }
  }

  lemma SameHolding(s: System, s': System)
    requires s.holding == s'.holding
    ensures forall id :: Held(s', id) <==> Held(s, id)
  {
  }

  lemma DroppedHold(s: System, t: nat, m: map<nat, nat>, id: nat)
    requires DeliveryInv(s) && t in s.holding && m == s.holding - {t}
    ensures (exists u :: u in m && m[u] == id) <==> Held(s, id) && id != s.holding[t]
  {
    if Held(s, id) && id != s.holding[t] {
      var u :| u in s.holding && s.holding[u] == id;
      assert u in m;
    }
  }

  lemma CopyoutDoneStep(s: System, t: nat)
    requires UpcallInv(s) && Enabled(s, CopyoutDone(t))
    ensures UpcallInv(Next(s, CopyoutDone(t)))
  {
    var s' := Next(s, CopyoutDone(t));
    forall r | r in s'.k.reqs ensures r.delivered <==> r.id in s'.received || Held(s', r.id) {
      DroppedHold(s, t, s'.holding, r.id);
      assert r.id in s'.received <==> r.id in s.received || r.id == s.holding[t];
    }
  }

  lemma RequeueStep(s: System, t: nat)
    requires UpcallInv(s) && Enabled(s, Requeue(t))
    ensures UpcallInv(Next(s, Requeue(t)))
  {
    hide MakeKey, FindId;
    var s' := Next(s, Requeue(t));
    var q := s.k.reqs;
    var i := FindId(q, s.holding[t]);
    if i < |q| { FlagKeepsQueue(s, i, false); }
    assert QueueInv(s') && IssueInv(s');
    forall r | r in s'.k.reqs ensures r.delivered <==> r.id in s'.received || Held(s', r.id) {
      DroppedHold(s, t, s'.holding, r.id);
      var j :| 0 <= j < |s'.k.reqs| && s'.k.reqs[j] == r;
      assert q[j] in q && r.id == q[j].id;
    }
  }

  lemma CacheOnlyStep(s: System, st: Step)
    requires Inv(s) && Enabled(s, st) && (st.Push? || st.FlushAll?)
    ensures Inv(Next(s, st))
  {
    hide MakeKey, Accepted, CacheInsert, UpcallInv;
    var s' := Next(s, st);
    SameQueueKeepsInv(s, s'.k.cache, s'.log);
    if st.Push? { DecideReflects(s.k.cache, s.log, st.key, st.verdict, st.allocOk); }
  }

  lemma SwitchStep(s: System, st: Step)
    requires UpcallInv(s) && Enabled(s, st)
    requires st.Interrupt? || st.CopyoutFault? || st.UpcallSet? || st.Close? || st.Unload? || st.SetFailmode?
    ensures UpcallInv(Next(s, st))
  {
    hide Req.KeyOf;
    var s' := Next(s, st);
    assert forall id :: Held(s', id) <==> Held(s, id);
  }

  lemma InvStep(s: System, st: Step)
    requires Inv(s) && Enabled(s, st)
    ensures Inv(Next(s, st))
  {
    var s' := Next(s, st);
    match st {
      case HookUpcall(a, gcNow, bornNow, allocOk) =>
        HookUpcallStep(s, a, gcNow, bornNow, allocOk);
        assert s'.k.cache == s.k.cache && s'.log == s.log;
      case ResolveId(id, v, allocOk) => ResolveStep(s, id, v, allocOk);
      case ReadEnter(t) => ReadEnterStep(s, t);
      case CopyoutDone(t) => CopyoutDoneStep(s, t);
      case Requeue(t) => RequeueStep(s, t);
      case Push(_, _, _) => CacheOnlyStep(s, st);
      case FlushAll => CacheOnlyStep(s, st);
      case _ =>
        SwitchStep(s, st);
        assert s'.k.cache == s.k.cache && s'.log == s.log;
    }
  }
}

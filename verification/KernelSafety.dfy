/** What every run of the kernel module's critical sections guarantees, whatever
    the interleaving. Source: kmod/mac_pfsnitch.c. */
module KernelSafety {
  import opened Options
  import opened Octets
  import opened VerdictCache
  import opened UpcallQueue
  import opened Interleavings

  lemma {:induction false} RunKeepsInv(tr: seq<System>, steps: seq<Step>, n: nat)
    requires Run(tr, steps) && Initial(tr[0]) && n < |tr|
    ensures Inv(tr[n])
  {
    if n > 0 {
      RunKeepsInv(tr, steps, n - 1);
      InvStep(tr[n - 1], steps[n - 1]);
    }
  }

  // ---- the decision log, read declaratively ----

  /** Entry i is the newest decision about k, and no flush came after it. */
  ghost predicate NewestAt(log: seq<Decision>, k: Key, i: int) {
    && 0 <= i < |log| && log[i].Decided? && log[i].key == k
    && (forall j :: i < j < |log| ==> log[j].Decided? && log[j].key != k)
  }

  ghost predicate StoredAt(log: seq<Decision>, k: Key, i: int) {
    && 0 <= i < |log| && log[i].Decided? && log[i].key == k && log[i].stored
    && (forall j :: i < j < |log| ==> log[j].Decided?)
  }

  lemma {:induction false} NewestMeaning(log: seq<Decision>, k: Key)
    ensures Newest(log, k).Some? <==> exists i :: NewestAt(log, k, i)
    ensures forall i :: NewestAt(log, k, i) ==> Newest(log, k) == Some(log[i].verdict)
  {
    if log != [] && log[|log| - 1].Decided? {
      var n, init := |log| - 1, log[..|log| - 1];
      if log[n].key == k {
        assert NewestAt(log, k, n);
      } else {
        NewestMeaning(init, k);
        forall i ensures NewestAt(log, k, i) <==> NewestAt(init, k, i) {
          if NewestAt(init, k, i) { assert forall j :: i < j < |log| ==> j == n || log[j] == init[j]; }
          if NewestAt(log, k, i) { assert forall j :: i < j < n ==> log[j] == init[j]; }
        }
      }
    }
  }

  lemma {:induction false} EverStoredMeaning(log: seq<Decision>, k: Key)
    ensures EverStored(log, k) <==> exists i :: StoredAt(log, k, i)
  {
    if log != [] && log[|log| - 1].Decided? {
      var n, init := |log| - 1, log[..|log| - 1];
      EverStoredMeaning(init, k);
      if log[n].key == k && log[n].stored { assert StoredAt(log, k, n); }
      forall i | i < n ensures StoredAt(log, k, i) <==> StoredAt(init, k, i) {
        if StoredAt(init, k, i) { assert forall j :: i < j < |log| ==> j == n || log[j] == init[j]; }
        if StoredAt(log, k, i) { assert forall j :: i < j < n ==> log[j] == init[j]; }
      }
    }
  }

  // ---- the theorems ----

  /** Never stale: in every reachable state a cache hit is the newest verdict the
      daemon issued for that key since the last flush, and a key is missing just
      when no decision about it since then found a place in the table. */
  lemma HitIsNewestDecision(tr: seq<System>, steps: seq<Step>, n: nat, k: Key)
    requires Run(tr, steps) && Initial(tr[0]) && n < |tr|
    ensures var (v, log) := (CacheLookup(tr[n].k.cache, k), tr[n].log);
            && (v != 0 ==> IsVerdict(v) && exists i :: NewestAt(log, k, i) && log[i].verdict == v)
            && (v != 0 <==> exists i :: StoredAt(log, k, i))
  {
    RunKeepsInv(tr, steps, n);
    NewestMeaning(tr[n].log, k);
    EverStoredMeaning(tr[n].log, k);
  }

  predicate Governed(ty: SockType, af: byte, faddr: Addr16, creator: Option<CString>) {
    !ty.OtherSock? && (af == 4 || af == 6) && !Loopback(af, faddr) && creator.Some? && creator.value != []
  }

  /** The connect hook, in every reachable state: its lookup refuses a connect
      exactly when the socket is governed, its key is in the table and the newest
      decision about that key is a deny; it misses exactly when the socket is
      governed and no decision about its key is in the table. */
  lemma HookObeysNewestDecision(tr: seq<System>, steps: seq<Step>, n: nat, ty: SockType, af: byte, faddr: Addr16,
                                fport: u16, creator: Option<CString>)
    requires Run(tr, steps) && Initial(tr[0]) && n < |tr|
    ensures var o := HookLookup(tr[n].k.cache, ty, af, faddr, fport, creator);
            var proto := if ty.Stream? then IPPROTO_TCP else IPPROTO_UDP;
            if !Governed(ty, af, faddr, creator) then o == Answered(Pass)
            else
              var k := MakeKey(af, proto, faddr, fport, creator.value);
              var log := tr[n].log;
              && (o == Missed(proto) <==> !exists i :: StoredAt(log, k, i))
              && (o == Answered(Eperm) <==> (exists i :: StoredAt(log, k, i)) && exists i :: NewestAt(log, k, i) && log[i].verdict == V_DENY)
              && o != Answered(Eagain)
  {
    if Governed(ty, af, faddr, creator) {
      var proto := if ty.Stream? then IPPROTO_TCP else IPPROTO_UDP;
      var k := MakeKey(af, proto, faddr, fport, creator.value);
      HitIsNewestDecision(tr, steps, n, k);
      NewestMeaning(tr[n].log, k);
    }
  }

  /** A sleeping reader has nothing to read: every queued request has been
      delivered, upcalls are on and the module is not unloading. */
  lemma NoLostWakeup(tr: seq<System>, steps: seq<Step>, n: nat)
    requires Run(tr, steps) && Initial(tr[0]) && n < |tr| && tr[n].k.sleepers != {}
    ensures tr[n].k.upcallOn && !tr[n].k.unloading && forall r :: r in tr[n].k.reqs ==> r.delivered
  {
    RunKeepsInv(tr, steps, n);
  }

  /** The queue in every reachable state, and for good after unloading began. */
  lemma QueueShape(tr: seq<System>, steps: seq<Step>, n: nat, m: nat)
    requires Run(tr, steps) && Initial(tr[0]) && n <= m < |tr|
    ensures IdsSorted(tr[m].k.reqs) && KeysDistinct(tr[m].k.reqs) && BirthsSorted(tr[m].k.reqs)
    ensures |tr[m].k.reqs| <= REQ_MAX && forall r :: r in tr[m].k.reqs ==> r.id < tr[m].k.nextId && r.born <= tr[m].clock
    ensures tr[n].k.unloading ==> tr[m].k.reqs == []
  {
    RunKeepsInv(tr, steps, m);
    if tr[n].k.unloading { UnloadingLasts(tr, steps, n, m); }
  }

  lemma {:induction false} UnloadingLasts(tr: seq<System>, steps: seq<Step>, n: nat, m: nat)
    requires Run(tr, steps) && n <= m < |tr| && tr[n].k.unloading
    ensures tr[m].k.unloading
    decreases m
  {
    hide Enabled, Next;
    if n < m {
      UnloadingLasts(tr, steps, n, m - 1);
      assert Enabled(tr[m - 1], steps[m - 1]) && tr[m] == Next(tr[m - 1], steps[m - 1]);
      StepKeepsUnloading(tr[m - 1], steps[m - 1]);
    }
  }

  lemma StepKeepsUnloading(s: System, st: Step)
    requires Enabled(s, st) && s.k.unloading
    ensures Next(s, st).k.unloading
  {
    hide FindKey, FindId, FirstUndelivered, Sweep, CacheInsert, Accepted, Without;
  }

  /** No event reaches the daemon twice, and a request whose delivered flag is
      clear has not reached it: whoever carried it has given it back. */
  lemma DeliveredAtMostOnce(tr: seq<System>, steps: seq<Step>, n: nat)
    requires Run(tr, steps) && Initial(tr[0]) && n < |tr|
    ensures forall i, j :: 0 <= i < j < |tr[n].received| ==> tr[n].received[i] != tr[n].received[j]
    ensures forall t :: t in tr[n].holding ==> tr[n].holding[t] !in tr[n].received
    ensures forall r :: r in tr[n].k.reqs ==> (!r.delivered <==> r.id !in tr[n].received && !Held(tr[n], r.id))
  {
    RunKeepsInv(tr, steps, n);
  }

  ghost predicate GivenBack(s: System, s': System, id: nat) {
    && ((exists r :: r in s.k.reqs && r.id == id) ==>
          s'.k.sleepers == {} && exists r :: r in s'.k.reqs && r.id == id && !r.delivered)
    && (forall r: Req :: r.id != id ==> (r in s'.k.reqs <==> r in s.k.reqs))
    && !Held(s', id) && s'.received == s.received
  }

  lemma RequeueGivesBack(s: System, t: nat)
    requires DeliveryInv(s) && Enabled(s, Requeue(t))
    ensures GivenBack(s, Next(s, Requeue(t)), s.holding[t])
  {
    var s', id := Next(s, Requeue(t)), s.holding[t];
    DroppedHold(s, t, s'.holding, id);
    hide Req.KeyOf, FindId, DeliveryInv, Held;
    var q, q' := s.k.reqs, s'.k.reqs;
    var i := FindId(q, id);
    forall r: Req | r.id != id ensures r in q' <==> r in q {
      if r in q { var j :| 0 <= j < |q| && q[j] == r; assert q'[j] == r; }
      if r in q' { var j :| 0 <= j < |q'| && q'[j] == r; assert q[j] == r; }
    }
    if i < |q| { assert q'[i] in q'; }
  }

  /** A failed copyout gives its request back, unless it has gone, and wakes the
      sleepers for it; it touches no other request. */
  lemma RequeueMakesDeliverable(tr: seq<System>, steps: seq<Step>, n: nat, t: nat)
    requires Run(tr, steps) && Initial(tr[0]) && n < |steps| && steps[n] == Requeue(t)
    ensures t in tr[n].holding && GivenBack(tr[n], tr[n + 1], tr[n].holding[t])
  {
    assert Enabled(tr[n], steps[n]) && tr[n + 1] == Next(tr[n], steps[n]);
    RunKeepsInv(tr, steps, n);
    RequeueGivesBack(tr[n], t);
  }

  // ---- answers ----

  /** The only decision a step adds to the log, and the only key it can change. */
  lemma StepTouchesOneKey(s: System, st: Step, k: Key)
    requires Enabled(s, st)
    ensures var s' := Next(s, st);
            && (s'.log == s.log || (|s'.log| == |s.log| + 1 && s'.log[..|s.log|] == s.log))
            && (s'.log == s.log ==> s'.k.cache == s.k.cache)
            && (s'.log != s.log && s'.log[|s.log|].Decided? && s'.log[|s.log|].key != k
                ==> CacheLookup(s'.k.cache, k) == CacheLookup(s.k.cache, k))
  {
    hide MakeKey, FindKey, FindId, FirstUndelivered, Sweep, Without;
  }

  /** Between two states with no flush and no decision about k, the hook's answer
      for k stays what it was. */
  lemma {:induction false} AnswerSticks(tr: seq<System>, steps: seq<Step>, n: nat, m: nat, k: Key)
    requires Run(tr, steps) && n <= m < |tr|
    requires forall i :: |tr[n].log| <= i < |tr[m].log| ==> tr[m].log[i].Decided? && tr[m].log[i].key != k
    ensures |tr[n].log| <= |tr[m].log| && tr[m].log[..|tr[n].log|] == tr[n].log
    ensures CacheLookup(tr[m].k.cache, k) == CacheLookup(tr[n].k.cache, k)
    decreases m
  {
    hide Enabled, Next, CacheLookup;
    if n < m {
      assert Enabled(tr[m - 1], steps[m - 1]) && tr[m] == Next(tr[m - 1], steps[m - 1]);
      StepTouchesOneKey(tr[m - 1], steps[m - 1], k);
      var l, l' := tr[m - 1].log, tr[m].log;
      assert forall i :: 0 <= i < |l| ==> l'[i] == l'[..|l|][i];
      AnswerSticks(tr, steps, n, m - 1, k);
      assert l'[..|tr[n].log|] == l[..|tr[n].log|];
    }
  }

  lemma {:induction false} IdsStayIssued(tr: seq<System>, steps: seq<Step>, n: nat, m: nat, id: nat)
    requires Run(tr, steps) && Initial(tr[0]) && n <= m < |tr| && id in tr[n].issued
    ensures id in tr[m].issued && tr[m].issued[id] == tr[n].issued[id]
    decreases m
  {
    if n < m {
      IdsStayIssued(tr, steps, n, m - 1, id);
      RunKeepsInv(tr, steps, m - 1);
      assert Enabled(tr[m - 1], steps[m - 1]) && tr[m] == Next(tr[m - 1], steps[m - 1]);
      IssuedGrows(tr[m - 1], steps[m - 1]);
    }
  }

  lemma IssuedGrows(s: System, st: Step)
    requires Enabled(s, st) && IssueInv(s)
    ensures forall id :: id in s.issued ==> id in Next(s, st).issued && Next(s, st).issued[id] == s.issued[id]
  {
    hide UpcallQueue.Upcall, Resolve, ReadPass, Redeliver, CacheInsert, Accepted, FindId, Req.KeyOf;
  }

  /** An answer can only decide the flow its id was issued for, however late it
      comes: resolving an id that is not queued changes nothing, and resolving a
      queued one decides exactly the key the id was issued to at any earlier time
      n0, removes that request alone and leaves every other key's answer as it was. */
  lemma ResolveDecidesItsOwnFlow(tr: seq<System>, steps: seq<Step>, n0: nat, n: nat, id: nat, v: byte, allocOk: bool)
    requires Run(tr, steps) && Initial(tr[0]) && n0 <= n < |steps| && steps[n] == ResolveId(id, v, allocOk)
    requires id in tr[n0].issued
    ensures var (s, s', k) := (tr[n], tr[n + 1], tr[n0].issued[id]);
            var room := k in s.k.cache || (|s.k.cache| < VMAX && allocOk);
            if forall r :: r in s.k.reqs ==> r.id != id then s' == s
            else
              && s'.log == s.log + [Decided(k, v, room)]
              && CacheLookup(s'.k.cache, k) == (if room then v else 0)
              && (forall k2 :: k2 != k ==> CacheLookup(s'.k.cache, k2) == CacheLookup(s.k.cache, k2))
              && (forall r :: r in s'.k.reqs <==> r in s.k.reqs && r.id != id)
              && (forall r :: r in s'.k.reqs ==> r.KeyOf() != k)
  {
    RunKeepsInv(tr, steps, n);
    IdsStayIssued(tr, steps, n0, n, id);
    var s := tr[n];
    assert Enabled(s, steps[n]) && tr[n + 1] == Next(s, steps[n]);
    assert forall r :: r in s.k.reqs ==> |r.KeyOf().path| < PATHMAX;
    ResolveOutcome(s.k, id, v, allocOk);
    hide Req.KeyOf, CacheInsert, CacheLookup, Without, FindId;
    var i := FindId(s.k.reqs, id);
    if i < |s.k.reqs| {
      assert s.k.reqs[i] in s.k.reqs;
    }
  }

  /** The fail-fast contract. A hook that returned EAGAIN at step n has left just
      one request for its key behind, carrying an id issued to that key. Once that
      id is resolved with v at step m, and the key was cached or there was room,
      every later connect with the key gets v's answer until a flush or a newer
      decision about the key; without room it finds a fresh miss. */
  lemma EagainIsAnswered(tr: seq<System>, steps: seq<Step>, n: nat, m: nat, p: nat, id: nat, v: byte, allocOk: bool)
    requires Run(tr, steps) && Initial(tr[0]) && n < m < |steps| && m < p < |tr|
    requires steps[n].HookUpcall? && UpcallQueue.Upcall(tr[n].k, steps[n].a, steps[n].gcNow, steps[n].bornNow, steps[n].allocOk).1.Eagain?
    requires steps[m] == ResolveId(id, v, allocOk) && exists r :: r in tr[m].k.reqs && r.id == id && r.KeyOf() == steps[n].a.KeyOf()
    requires forall i :: |tr[m + 1].log| <= i < |tr[p].log| ==> tr[p].log[i].Decided? && tr[p].log[i].key != steps[n].a.KeyOf()
    ensures var k := steps[n].a.KeyOf();
            && (exists r :: r in tr[n + 1].k.reqs && r.KeyOf() == k && r.id in tr[n + 1].issued && tr[n + 1].issued[r.id] == k)
            && KeysDistinct(tr[n + 1].k.reqs)
            && CacheLookup(tr[p].k.cache, k) ==
                 (if k in tr[m].k.cache || (|tr[m].k.cache| < VMAX && allocOk) then v else 0)
  {
    var a, k := steps[n].a, steps[n].a.KeyOf();
    RunKeepsInv(tr, steps, n);
    RunKeepsInv(tr, steps, n + 1);
    RunKeepsInv(tr, steps, m);
    assert Enabled(tr[n], steps[n]) && tr[n + 1] == Next(tr[n], steps[n]);
    EagainMeansPending(tr[n].k, a, steps[n].gcNow, steps[n].bornNow, steps[n].allocOk);
    hide Req.KeyOf, Asker.KeyOf, UpcallQueue.Upcall, CacheLookup;
    var i :| 0 <= i < |tr[n + 1].k.reqs| && tr[n + 1].k.reqs[i].KeyOf() == k;
    assert tr[n + 1].k.reqs[i] in tr[n + 1].k.reqs;
    ResolveDecidesItsOwnFlow(tr, steps, m, m, id, v, allocOk);
    AnswerSticks(tr, steps, m + 1, p, k);
  }
}

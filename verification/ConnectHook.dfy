/** The connect hook from end to end: the cache lookup under one lock, the switch
    read under none, the queue under another, and between them whatever the other
    threads do. Source: kmod/mac_pfsnitch.c, lines 272-352 and 556-634. */
module ConnectHook {
  import opened Options
  import opened Octets
  import opened VerdictCache
  import opened UpcallQueue
  import opened Interleavings
  import opened KernelSafety

  function AskerOf(ty: SockType, af: byte, faddr: Addr16, fport: u16, path: CString, pid: int, uid: int, nonblock: bool): Asker {
    Asker(af, if ty.Stream? then IPPROTO_TCP else IPPROTO_UDP, faddr, fport, path, pid, uid, nonblock)
  }

  /** What the hook returns, from the lookup it made, the switch as it read it, the
      queue as it found it and the fail mode as it read that. */
  function HookReturn(look: Looked, on: bool, queue: Kernel, a: Asker, gcNow: nat, bornNow: nat, allocOk: bool,
                      failClosed: bool): HookResult {
    match look
    case Answered(r) => r
    case Missed(proto) =>
      if !AsksDaemon(on, proto, a.fport) || |a.path| == 0 || |a.path| >= PATHMAX then Pass
      else if UpcallQueue.Upcall(queue, a, gcNow, bornNow, allocOk).1 == Eagain then Eagain
      else if failClosed then Eperm
      else Pass
  }

  /** With the fail mode read where the queue section reads it, this is the
      section's own answer. */
  lemma SectionAnswers(proto: byte, on: bool, s: Kernel, a: Asker, gcNow: nat, bornNow: nat, allocOk: bool)
    requires AsksDaemon(on, proto, a.fport)
    ensures HookReturn(Missed(proto), on, s, a, gcNow, bornNow, allocOk, s.failClosed)
         == UpcallQueue.Upcall(s, a, gcNow, bornNow, allocOk).1
  {
    hide FindKey, Sweep, Asker.KeyOf;
  }

  /** The queue cannot take the question: the module is unloading, or nobody has
      asked it yet and the queue is full or memory short. */
  ghost predicate Unqueueable(s: Kernel, a: Asker, allocOk: bool) {
    s.unloading || ((forall r :: r in s.reqs ==> r.KeyOf() != a.KeyOf()) && (|s.reqs| >= REQ_MAX || !allocOk))
  }

  lemma UnqueueableMeaning(s: Kernel, a: Asker, gcNow: nat, bornNow: nat, allocOk: bool)
    requires 0 < |a.path| < PATHMAX
    ensures UpcallQueue.Upcall(s, a, gcNow, bornNow, allocOk).1 == Eagain <==> !Unqueueable(s, a, allocOk)
  {
    hide Req.KeyOf, Asker.KeyOf, Sweep;
    var i := FindKey(s.reqs, a.KeyOf());
    if i < |s.reqs| {
      assert s.reqs[i] in s.reqs;
    } else {
      assert forall r :: r in s.reqs ==> r.KeyOf() != a.KeyOf();
    }
  }

  /** The newest decision about the key since the last flush, if the key is in the
      table, denies. */
  ghost predicate CachedDeny(log: seq<Decision>, k: Key) {
    (exists i :: StoredAt(log, k, i)) && exists i :: NewestAt(log, k, i) && log[i].verdict == V_DENY
  }

  /** A miss that is put to the daemon: UDP, not to the DNS port, with upcalls on
      when the hook looked. */
  predicate Asks(ty: SockType, fport: u16, path: CString, on: bool) {
    ty.Dgram? && fport != 53 * 256 && on && |path| < PATHMAX
  }

  /** Whatever runs between the hook's lookup at n, its reading of the switch at g,
      its queue section at m and its reading of the fail mode at f: a governed
      connect is refused exactly on a cached deny, or when its miss cannot be
      queued and the module fails closed; is told to try again exactly when its
      miss is or stays queued; and passes otherwise. Any other connect passes. */
  lemma HookOutcome(tr: seq<System>, steps: seq<Step>, n: nat, g: nat, m: nat, f: nat, ty: SockType, af: byte, faddr: Addr16,
                    fport: u16, creator: Option<CString>, pid: int, uid: int, nonblock: bool,
                    gcNow: nat, bornNow: nat, allocOk: bool)
    requires Run(tr, steps) && Initial(tr[0]) && n <= g <= m <= f < |tr|
    ensures var look := HookLookup(tr[n].k.cache, ty, af, faddr, fport, creator);
            var path: CString := if creator.Some? then creator.value else [];
            var a := AskerOf(ty, af, faddr, fport, path, pid, uid, nonblock);
            var r := HookReturn(look, tr[g].k.upcallOn, tr[m].k, a, gcNow, bornNow, allocOk, tr[f].k.failClosed);
            var asks := Asks(ty, fport, path, tr[g].k.upcallOn) && !exists i :: StoredAt(tr[n].log, a.KeyOf(), i);
            if !Governed(ty, af, faddr, creator) then r == Pass
            else
              && (r == Eperm <==> CachedDeny(tr[n].log, a.KeyOf())
                                  || (asks && Unqueueable(tr[m].k, a, allocOk) && tr[f].k.failClosed))
              && (r == Eagain <==> asks && !Unqueueable(tr[m].k, a, allocOk))
  {
    HookObeysNewestDecision(tr, steps, n, ty, af, faddr, fport, creator);
    if Governed(ty, af, faddr, creator) {
      var a := AskerOf(ty, af, faddr, fport, creator.value, pid, uid, nonblock);
      hide HookLookup, UpcallQueue.Upcall, MakeKey, Unqueueable, Run, Initial, StoredAt, NewestAt;
      if |a.path| < PATHMAX {
        UnqueueableMeaning(tr[m].k, a, gcNow, bornNow, allocOk);
      }
    }
  }
}

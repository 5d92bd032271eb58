/** The kernel module itself: its globals as one object, each method one critical
    section, proved equal to that section's function on the module's state.
    Source: kmod/mac_pfsnitch.c, lines 201-212, 279-461, 724-767 and 813-832. */
module UpcallDevice {
  import opened Options
  import opened Octets
  import opened VerdictCache
  import opened UpcallQueue

  datatype Errno = Ok | Einval

  class Device {
    const cache: Cache
    var reqs: seq<Req>
    var nreq: nat
    var nextId: nat
    var upcallOn: bool
    var unloading: bool
    var failClosed: bool
    var sleepers: set<nat>

    ghost predicate Valid()
      reads this, cache, cache.vtab
    {
      cache.Valid() && nreq == |reqs|
    }

    ghost function View(): Kernel
      reads this, cache
    {
      Kernel(cache.Verdicts, reqs, nextId, upcallOn, unloading, failClosed, sleepers)
    }

    constructor ()
      ensures Valid() && fresh(cache) && fresh(cache.vtab)
      ensures View() == Kernel(map[], [], 1, false, false, false, {})
    {
      cache := new Cache();
      reqs, nreq, nextId := [], 0, 1;
      upcallOn, unloading, failClosed, sleepers := false, false, false, {};
    }

    /** PFSNITCH_VERDICT_PUSH: an invalid request is refused, and a path that is
        empty or unterminated is dropped. */
    method IoctlPush(version: nat, af: byte, proto: byte, fport: u16, faddr: Addr16, verdict: byte, path: seq<byte>, allocOk: bool)
      returns (e: Errno)
      requires Valid() && |path| == PATHMAX
      modifies cache, cache.vtab
      ensures Valid()
      ensures e == Ok <==> version == 1 && (af == 4 || af == 6) && (proto == IPPROTO_TCP || proto == IPPROTO_UDP) && IsVerdict(verdict)
      ensures View() == if e == Ok && PushedPath(path).Some?
                        then old(View()).(cache := CacheInsert(old(cache.Verdicts), MakeKey(af, proto, faddr, fport, PushedPath(path).value), verdict, allocOk))
                        else old(View())
    {
      if version != 1 || (af != 4 && af != 6) || (proto != IPPROTO_TCP && proto != IPPROTO_UDP) || !IsVerdict(verdict) {
        return Einval;
      }
      e := Ok;
      var p := PushedPath(path);
      if p.Some? {
        cache.Insert(af, proto, faddr, fport, verdict, p.value, allocOk);
      }
    }

    method IoctlFlush()
      requires Valid()
      modifies cache, cache.vtab
      ensures Valid() && View() == old(View()).(cache := map[])
    {
      cache.Flush();
    }

    /** Unlink every request that has waited too long. */
    method ReqGc(now: nat)
      requires Valid()
      modifies `reqs, `nreq
      ensures Valid() && reqs == Sweep(old(reqs), now)
    {
      var i := 0;
      ghost var rest := reqs;
      while i < |reqs|
        invariant 0 <= i <= |reqs| && nreq == |reqs|
        invariant rest == reqs[i..]
        invariant Sweep(old(reqs), now) == reqs[..i] + Sweep(rest, now)
        decreases |reqs| - i
      {
        assert rest[0] == reqs[i] && rest[1..] == reqs[i + 1..];
        if Expired(reqs[i], now) {
          reqs := reqs[..i] + reqs[i + 1..];
          nreq := nreq - 1;
        } else {
          assert reqs[..i + 1] == reqs[..i] + [reqs[i]];
          i := i + 1;
        }
        rest := rest[1..];
      }
      assert reqs[..i] == reqs;
    }

    /** A cache miss, from the hook. */
    method Upcall(a: Asker, gcNow: nat, bornNow: nat, allocOk: bool) returns (r: HookResult)
      requires Valid()
      modifies this
      ensures Valid() && (View(), r) == UpcallQueue.Upcall(old(View()), a, gcNow, bornNow, allocOk)
    {
      if |a.path| == 0 || |a.path| >= PATHMAX { return Pass; }
      var fail := if failClosed then Eperm else Pass;
      if unloading { return fail; }
      var n := AddrLen(a.af);
      var i := 0;
      while i < |reqs|
        invariant 0 <= i <= |reqs|
        invariant forall j :: 0 <= j < i ==> reqs[j].KeyOf() != a.KeyOf()
      {
        var q := reqs[i];
        if q.af == a.af && q.proto == a.proto && q.fport == a.fport && q.faddr[..n] == a.faddr[..n] && q.path == a.path {
          assert FindKey(reqs, a.KeyOf()) <= i;
          return Eagain;
        }
        i := i + 1;
      }
      if nreq >= REQ_MAX { return fail; }
      ReqGc(gcNow);
      if !allocOk { return fail; }
      reqs := reqs + [Req(nextId, a.af, a.proto, a.nonblock, false, a.fport, a.faddr, a.pid, a.uid, bornNow, a.path)];
      nextId := nextId + 1;
      nreq := nreq + 1;
      sleepers := {};
      r := Eagain;
    }

    /** The queue walk by id, which resolve and the copyout repair share. */
    method Find(id: nat) returns (i: nat)
      ensures i == FindId(reqs, id)
    {
      i := 0;
      while i < |reqs|
        invariant 0 <= i <= |reqs|
        invariant forall j :: 0 <= j < i ==> reqs[j].id != id
      {
        if reqs[i].id == id { return; }
        i := i + 1;
      }
    }

    /** The daemon answers a request: cache the verdict, then drop the request. */
    method Resolve(id: nat, verdict: byte, allocOk: bool)
      requires Valid()
      modifies this, cache, cache.vtab
      ensures Valid() && View() == UpcallQueue.Resolve(old(View()), id, verdict, allocOk)
    {
      var i := Find(id);
      if i < |reqs| {
        var r := reqs[i];
        cache.Insert(r.af, r.proto, r.faddr, r.fport, verdict, r.path, allocOk);
        reqs := reqs[..i] + reqs[i + 1..];
        nreq := nreq - 1;
      }
    }

    /** One pass of the read loop: end of file, an event, or asleep until a wakeup. */
    method ReadPass(reader: nat) returns (o: ReadOutcome)
      requires Valid()
      modifies this
      ensures Valid() && (View(), o) == UpcallQueue.ReadPass(old(View()), reader)
    {
      if unloading || !upcallOn { return Eof; }
      var i := 0;
      while i < |reqs|
        invariant 0 <= i <= |reqs|
        invariant forall j :: 0 <= j < i ==> reqs[j].delivered
      {
        if !reqs[i].delivered { break; }
        i := i + 1;
      }
      assert i == FirstUndelivered(reqs);
      if i == |reqs| {
        sleepers := sleepers + {reader};
        return Slept;
      }
      o := Picked(reqs[i]);
      reqs := reqs[i := reqs[i].(delivered := true)];
    }

    /** After a failed copyout: mark the request undelivered again, if it is still there. */
    method Redeliver(id: nat)
      requires Valid()
      modifies this
      ensures Valid() && View() == UpcallQueue.Redeliver(old(View()), id)
    {
      var i := Find(id);
      if i < |reqs| {
        reqs := reqs[i := reqs[i].(delivered := false)];
        sleepers := {};
      }
    }

    method IoctlUpcallSet(on: bool)
      requires Valid()
      modifies this
      ensures Valid() && View() == SetUpcall(old(View()), on)
    {
      upcallOn := on;
      if !upcallOn { sleepers := {}; }
    }

    method DevClose()
      requires Valid()
      modifies this
      ensures Valid() && View() == LastClose(old(View()))
    {
      if upcallOn {
        upcallOn := false;
        sleepers := {};
      }
    }

    /** The queue drain of the module's unload. */
    method Destroy()
      requires Valid()
      modifies this
      ensures Valid() && View() == Drain(old(View()))
    {
      unloading := true;
      sleepers := {};
      while |reqs| > 0
        modifies `reqs
        decreases |reqs|
      {
        reqs := reqs[1..];
      }
      nreq := 0;
    }
  }
}

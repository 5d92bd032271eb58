/** The kernel module's critical sections as functions on its state: each one is
    what a holder of pfsn_pmtx or pfsn_vlock does before letting go of the lock.
    Source: kmod/mac_pfsnitch.c, lines 229-461, 724-767 and 813-832. */
module UpcallQueue {
  import opened Options
  import opened Octets
  import opened VerdictCache

  const REQ_MAX: nat := 2048
  const REQ_GCAGE: nat := 150

  datatype Req = Req(id: nat, af: byte, proto: byte, nonblock: bool, delivered: bool, fport: u16,
                     faddr: Addr16, pid: int, uid: int, born: nat, path: CString) {
    function KeyOf(): Key {
      MakeKey(af, proto, faddr, fport, path)
    }
  }

  /** A hook's arguments: the destination and the socket's creator. */
  datatype Asker = Asker(af: byte, proto: byte, faddr: Addr16, fport: u16, path: CString, pid: int, uid: int, nonblock: bool) {
    function KeyOf(): Key {
      MakeKey(af, proto, faddr, fport, path)
    }
  }

  /** The module's shared state. The sleepers are the readers blocked in msleep()
      on the queue's wait channel; wakeup() empties that set. */
  datatype Kernel = Kernel(cache: map<Key, byte>, reqs: seq<Req>, nextId: nat, upcallOn: bool,
                           unloading: bool, failClosed: bool, sleepers: set<nat>)

  /** The hook's return value: 0, EPERM or EAGAIN. */
  datatype HookResult = Pass | Eperm | Eagain

  datatype ReadOutcome = Eof | Slept | Picked(ev: Req)

  function FailVerdict(s: Kernel): HookResult {
    if s.failClosed then Eperm else Pass
  }

  function FindKey(q: seq<Req>, k: Key): (i: nat)
    ensures i <= |q|
    ensures i < |q| ==> q[i].KeyOf() == k
    ensures forall j :: 0 <= j < i ==> q[j].KeyOf() != k
  {
    if q == [] || q[0].KeyOf() == k then 0 else 1 + FindKey(q[1..], k)
  }

  function FindId(q: seq<Req>, id: nat): (i: nat)
    ensures i <= |q|
    ensures i < |q| ==> q[i].id == id
    ensures forall j :: 0 <= j < i ==> q[j].id != id
  {
    if q == [] || q[0].id == id then 0 else 1 + FindId(q[1..], id)
  }

  function FirstUndelivered(q: seq<Req>): (i: nat)
    ensures i <= |q|
    ensures i < |q| ==> !q[i].delivered
    ensures forall j :: 0 <= j < i ==> q[j].delivered
  {
    if q == [] || !q[0].delivered then 0 else 1 + FirstUndelivered(q[1..])
  }

  predicate Expired(r: Req, now: int) {
    now - r.born > REQ_GCAGE
  }

  function Sweep(q: seq<Req>, now: int): seq<Req> {
    if q == [] then [] else (if Expired(q[0], now) then [] else [q[0]]) + Sweep(q[1..], now)
  }

  function Enqueued(s: Kernel, a: Asker, now: nat): Req {
    Req(s.nextId, a.af, a.proto, a.nonblock, false, a.fport, a.faddr, a.pid, a.uid, now, a.path)
  }

  /** pfsn_upcall. It reads the clock twice: once to sweep, once to stamp. */
  function Upcall(s: Kernel, a: Asker, gcNow: nat, bornNow: nat, allocOk: bool): (Kernel, HookResult) {
    if |a.path| == 0 || |a.path| >= PATHMAX then (s, Pass)
    else if s.unloading then (s, FailVerdict(s))
    else if FindKey(s.reqs, a.KeyOf()) < |s.reqs| then (s, Eagain)
    else if |s.reqs| >= REQ_MAX then (s, FailVerdict(s))
    else
      var q := Sweep(s.reqs, gcNow);
      if !allocOk then (s.(reqs := q), FailVerdict(s))
      else (s.(reqs := q + [Enqueued(s, a, bornNow)], nextId := s.nextId + 1, sleepers := {}), Eagain)
  }

  function Without(q: seq<Req>, i: nat): seq<Req>
    requires i < |q|
  {
    q[..i] + q[i + 1..]
  }

  function Resolve(s: Kernel, id: nat, v: byte, allocOk: bool): Kernel {
    var i := FindId(s.reqs, id);
    if i == |s.reqs| then s
    else s.(cache := CacheInsert(s.cache, s.reqs[i].KeyOf(), v, allocOk), reqs := Without(s.reqs, i))
  }

  /** One pass of pfsn_read's loop, up to the msleep() or the unlock. */
  function ReadPass(s: Kernel, reader: nat): (Kernel, ReadOutcome) {
    var i := FirstUndelivered(s.reqs);
    if s.unloading || !s.upcallOn then (s, Eof)
    else if i == |s.reqs| then (s.(sleepers := s.sleepers + {reader}), Slept)
    else (s.(reqs := s.reqs[i := s.reqs[i].(delivered := true)]), Picked(s.reqs[i]))
  }

  /** pfsn_read's second critical section, entered when the copyout failed. */
  function Redeliver(s: Kernel, id: nat): Kernel {
    var i := FindId(s.reqs, id);
    if i == |s.reqs| then s
    else s.(reqs := s.reqs[i := s.reqs[i].(delivered := false)], sleepers := {})
  }

  function SetUpcall(s: Kernel, on: bool): Kernel {
    s.(upcallOn := on, sleepers := if on then s.sleepers else {})
  }

  function LastClose(s: Kernel): Kernel {
    if s.upcallOn then s.(upcallOn := false, sleepers := {}) else s
  }

  function Drain(s: Kernel): Kernel {
    s.(unloading := true, sleepers := {}, reqs := [])
  }

  // ---- the decision part of the connect hook ----

  datatype SockType = Stream | Dgram | OtherSock

  const IPPROTO_TCP: byte := 6
  const IPPROTO_UDP: byte := 17

  predicate Loopback(af: byte, faddr: Addr16) {
    if af == 4 then faddr[0] == 127
    else
      || faddr == seq(16, i => if i == 15 then 1 else 0)
      || (faddr[10] == 0xff && faddr[11] == 0xff && faddr[12] == 127)
  }

  /** The hook up to and including its cache lookup: either it has answered, or
      it missed and goes on to read pfsn_upcall_on. */
  datatype Looked = Answered(r: HookResult) | Missed(proto: byte)

  function HookLookup(m: map<Key, byte>, ty: SockType, af: byte, faddr: Addr16, fport: u16, creator: Option<CString>): Looked {
    if ty.OtherSock? || (af != 4 && af != 6) then Answered(Pass)
    else
      var proto := if ty.Stream? then IPPROTO_TCP else IPPROTO_UDP;
      if Loopback(af, faddr) || creator.None? || creator.value == [] then Answered(Pass)
      else
        var v := CacheLookup(m, MakeKey(af, proto, faddr, fport, creator.value));
        if v == V_DENY then Answered(Eperm)
        else if v == V_ALLOW then Answered(Pass)
        else Missed(proto)
  }

  /** Whether a miss becomes an upcall: UDP, not to the DNS port (whose two bytes
      are 0, 53 on the wire, so 53 * 256 as the little-endian machine reads them). */
  predicate AsksDaemon(upcallOn: bool, proto: byte, fport: u16) {
    upcallOn && proto == IPPROTO_UDP && fport != 53 * 256
  }

  // ---- facts about single sections ----

  ghost predicate BirthsSorted(q: seq<Req>) {
    forall i, j :: 0 <= i < j < |q| ==> q[i].born <= q[j].born
  }

  ghost predicate IdsSorted(q: seq<Req>) {
    forall i, j :: 0 <= i < j < |q| ==> q[i].id < q[j].id
  }

  ghost predicate KeysDistinct(q: seq<Req>) {
    forall i, j :: 0 <= i < j < |q| ==> q[i].KeyOf() != q[j].KeyOf()
  }

  /** How many requests from the head are too old. */
  function SweepCount(q: seq<Req>, now: int): (d: nat)
    ensures d <= |q|
    ensures forall i :: 0 <= i < d ==> Expired(q[i], now)
    ensures d < |q| ==> !Expired(q[d], now)
  {
    if q == [] || !Expired(q[0], now) then 0 else 1 + SweepCount(q[1..], now)
  }

  /** With births in order the sweep drops a prefix: exactly the expired ones. */
  lemma {:induction false} SweepDropsPrefix(q: seq<Req>, now: int)
    requires BirthsSorted(q)
    ensures Sweep(q, now) == q[SweepCount(q, now)..]
    ensures forall i :: SweepCount(q, now) <= i < |q| ==> !Expired(q[i], now)
  {
    if q != [] {
      SweepDropsPrefix(q[1..], now);
      if !Expired(q[0], now) {
        assert forall i :: 0 <= i < |q| ==> !Expired(q[i], now);
        assert SweepCount(q[1..], now) == 0;
        assert q == [q[0]] + q[1..];
      }
    }
  }

  lemma {:induction false} SweepOfConcat(a: seq<Req>, b: seq<Req>, now: int)
    ensures Sweep(a + b, now) == Sweep(a, now) + Sweep(b, now)
  {
    if a == [] {
      assert a + b == b;
    } else {
      assert (a + b)[1..] == a[1..] + b;
      SweepOfConcat(a[1..], b, now);
    }
  }

  lemma SweepKeepsTheUnexpired(q: seq<Req>, now: int)
    requires BirthsSorted(q)
    ensures forall x :: x in q && !Expired(x, now) <==> x in Sweep(q, now)
  {
    SweepDropsPrefix(q, now);
    var d := SweepCount(q, now);
    forall x | x in q && !Expired(x, now) ensures x in q[d..] {
      var i :| 0 <= i < |q| && q[i] == x;
      assert q[d..][i - d] == x;
    }
  }

  /** Every EAGAIN leaves exactly one pending request for the asker's key, and
      nothing is ever taken from the queue but expired requests. A governed asker
      that gets another answer has no request pending. */
  lemma EagainMeansPending(s: Kernel, a: Asker, gcNow: nat, bornNow: nat, allocOk: bool)
    requires KeysDistinct(s.reqs) && BirthsSorted(s.reqs)
    ensures var (s', r) := Upcall(s, a, gcNow, bornNow, allocOk);
            && KeysDistinct(s'.reqs)
            && (r.Eagain? ==> exists i :: 0 <= i < |s'.reqs| && s'.reqs[i].KeyOf() == a.KeyOf())
            && (forall x :: x in s.reqs && !Expired(x, gcNow) ==> x in s'.reqs)
            && (!r.Eagain? && !s.unloading && 0 < |a.path| < PATHMAX ==> forall x :: x in s'.reqs ==> x.KeyOf() != a.KeyOf())
            && s'.cache == s.cache
  {
    hide MakeKey, FindKey, Sweep;
    var (s', r) := Upcall(s, a, gcNow, bornNow, allocOk);
    SweepDropsPrefix(s.reqs, gcNow);
    SweepKeepsTheUnexpired(s.reqs, gcNow);
    var f := FindKey(s.reqs, a.KeyOf());
    var swept := Sweep(s.reqs, gcNow);
    assert f == |s.reqs| ==> forall x :: x in s.reqs ==> x.KeyOf() != a.KeyOf();
    if r.Eagain? && s' != s {
      var e := Enqueued(s, a, bornNow);
      assert s'.reqs == swept + [e];
      assert e.KeyOf() == a.KeyOf();
      assert s'.reqs[|swept|] == e;
      forall x | x in s.reqs && !Expired(x, gcNow) ensures x in s'.reqs { assert x in swept; }
    }
  }

  /** A picked request is the undelivered one with the lowest id. */
  lemma PickIsLowestUndelivered(s: Kernel, reader: nat)
    requires IdsSorted(s.reqs)
    ensures var (s', o) := ReadPass(s, reader);
            o.Picked? ==>
              && o.ev in s.reqs && !o.ev.delivered
              && (forall r :: r in s.reqs && !r.delivered ==> o.ev.id <= r.id)
              && (forall r :: r in s'.reqs ==> r.id == o.ev.id ==> r.delivered)
  {
    var i := FirstUndelivered(s.reqs);
    forall r | r in s.reqs && !r.delivered ensures i < |s.reqs| && s.reqs[i].id <= r.id {
      var j :| 0 <= j < |s.reqs| && s.reqs[j] == r;
    }
  }

  lemma WithoutMembers(q: seq<Req>, i: nat)
    requires i < |q| && IdsSorted(q)
    ensures forall r :: r in Without(q, i) <==> r in q && r.id != q[i].id
    ensures forall r :: r in q && r.id == q[i].id ==> r == q[i]
  {
    var w := Without(q, i);
    forall r | r in q ensures r.id == q[i].id ==> r == q[i] {
      var j :| 0 <= j < |q| && q[j] == r;
    }
    forall r ensures r in w <==> r in q && r.id != q[i].id {
      if r in q && r.id != q[i].id {
        var j :| 0 <= j < |q| && q[j] == r;
        assert w[if j < i then j else j - 1] == r;
      }
      if r in w {
        var j :| 0 <= j < |w| && w[j] == r;
        assert q[if j < i then j else j + 1] == r;
      }
    }
  }

  lemma InsertOutcome(m: map<Key, byte>, k: Key, v: byte, allocOk: bool)
    requires |k.path| < PATHMAX
    ensures CacheLookup(CacheInsert(m, k, v, allocOk), k) == (if k in m || (|m| < VMAX && allocOk) then v else 0)
    ensures forall k2 :: k2 != k ==> CacheLookup(CacheInsert(m, k, v, allocOk), k2) == CacheLookup(m, k2)
  {
  }

  /** After a resolve that found its request: nobody waits for the key any more,
      and the hook answers v if the key was cached or there was room and memory,
      else the next lookup is a fresh miss. An absent id changes nothing. */
  lemma ResolveOutcome(s: Kernel, id: nat, v: byte, allocOk: bool)
    requires KeysDistinct(s.reqs) && IdsSorted(s.reqs)
    requires forall r :: r in s.reqs ==> |r.path| < PATHMAX
    ensures var s' := Resolve(s, id, v, allocOk);
            && ((forall r :: r in s.reqs ==> r.id != id) ==> s' == s)
            && (forall r :: r in s'.reqs <==> r in s.reqs && r.id != id)
            && (forall r :: r in s.reqs && r.id == id ==>
                  var k := r.KeyOf();
                  && (forall x :: x in s'.reqs ==> x.KeyOf() != k)
                  && CacheLookup(s'.cache, k) == (if k in s.cache || (|s.cache| < VMAX && allocOk) then v else 0)
                  && (forall k2 :: k2 != k ==> CacheLookup(s'.cache, k2) == CacheLookup(s.cache, k2)))
  {
    assert forall r :: r in s.reqs ==> |r.KeyOf().path| < PATHMAX;
    hide MakeKey, FindId, CacheInsert, CacheLookup, Without;
    var i := FindId(s.reqs, id);
    if i < |s.reqs| {
      WithoutMembers(s.reqs, i);
      InsertOutcome(s.cache, s.reqs[i].KeyOf(), v, allocOk);
      forall x | x in s.reqs && x.id != id ensures x.KeyOf() != s.reqs[i].KeyOf() {
        var j :| 0 <= j < |s.reqs| && s.reqs[j] == x;
        assert if j < i then s.reqs[j].KeyOf() != s.reqs[i].KeyOf() else s.reqs[i].KeyOf() != s.reqs[j].KeyOf();
      }
    }
  }
}

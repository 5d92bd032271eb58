/** Naming the process behind a flow from the sockets that are open, without ever
    naming the wrong one. Source: src/procinfo.rs, lines 96-155 and 339-352. */
module Attribution {
  import opened Options
  import opened Octets

  datatype Owner = Owner(pid: int, command: string, path: string)
  datatype Tuple = Tuple(proto: byte, src: Address, sport: u16, dst: Address, dport: u16)
  datatype LocalKey = LocalKey(proto: byte, addr: Address, port: u16)
  datatype PortKey = PortKey(proto: byte, port: u16)
  datatype Confidence = Exact | Local | Port
  datatype Named = Named(owner: Owner, confidence: Confidence)

  /** A socket as the process table shows it; an unbound one has no local end. */
  datatype Socket =
    | Connected(tuple: Tuple, owner: Owner)
    | Unconnected(proto: byte, addr: Address, port: u16, owner: Owner)
    | Unbound

  predicate IsUnspecified(a: Address) {
    forall i :: 0 <= i < |a.octets| ==> a.octets[i] == 0
  }

  // ---- the tables, updated in place ----

  /** A weak tier: who claimed each key first, and which keys are contested. */
  datatype Tier<K> = Tier(first: map<K, Owner>, contested: set<K>)

  datatype View = View(exact: map<Tuple, Owner>, local: Tier<LocalKey>, port: Tier<PortKey>)

  function Claim<K>(t: Tier<K>, k: K, o: Owner): Tier<K> {
    if k !in t.first then t.(first := t.first[k := o])
    else if t.first[k].pid != o.pid then t.(contested := t.contested + {k})
    else t
  }

  function Added(v: View, s: Socket): View {
    match s
    case Unbound => v
    case Connected(t, o) => v.(exact := v.exact[t := o])
    case Unconnected(proto, a, p, o) =>
      var v1 := v.(port := Claim(v.port, PortKey(proto, p), o));
      if IsUnspecified(a) then v1 else v1.(local := Claim(v.local, LocalKey(proto, a, p), o))
  }

  const EMPTY: View := View(map[], Tier(map[], {}), Tier(map[], {}))

  function Built(socks: seq<Socket>): View {
    if socks == [] then EMPTY else Added(Built(socks[..|socks| - 1]), socks[|socks| - 1])
  }

  /** Strongest tier first; the weak tiers only for what goes out, since they take
      the packet's source for the local end. */
  function Lookup(v: View, t: Tuple, outbound: bool): Option<Named> {
    var lk, pk := LocalKey(t.proto, t.src, t.sport), PortKey(t.proto, t.sport);
    if t in v.exact then Some(Named(v.exact[t], Exact))
    else if !outbound then None
    else if lk !in v.local.contested && lk in v.local.first then Some(Named(v.local.first[lk], Local))
    else if pk !in v.port.contested && pk in v.port.first then Some(Named(v.port.first[pk], Port))
    else None
  }

  class Tables {
    var exact: map<Tuple, Owner>
    var local: map<LocalKey, Owner>
    var port: map<PortKey, Owner>
    var contestedLocal: set<LocalKey>
    var contestedPort: set<PortKey>

    ghost function Contents(): View
      reads this
    {
      View(exact, Tier(local, contestedLocal), Tier(port, contestedPort))
    }

    constructor ()
      ensures Contents() == EMPTY
    {
      exact, local, port, contestedLocal, contestedPort := map[], map[], map[], {}, {};
    }

    method AddLocal(k: LocalKey, o: Owner)
      modifies this
      ensures Contents() == old(Contents()).(local := Claim(old(Contents()).local, k, o))
    {
      if k in local {
        if local[k].pid != o.pid {
          contestedLocal := contestedLocal + {k};
        }
      } else {
        local := local[k := o];
      }
    }

    method AddPort(k: PortKey, o: Owner)
      modifies this
      ensures Contents() == old(Contents()).(port := Claim(old(Contents()).port, k, o))
    {
      if k in port {
        if port[k].pid != o.pid {
          contestedPort := contestedPort + {k};
        }
      } else {
        port := port[k := o];
      }
    }

    method Add(s: Socket)
      modifies this
      ensures Contents() == Added(old(Contents()), s)
    {
      match s {
        case Unbound =>
        case Connected(t, o) => exact := exact[t := o];
        case Unconnected(proto, a, p, o) =>
          if IsUnspecified(a) {
            AddPort(PortKey(proto, p), o);
          } else {
            AddLocal(LocalKey(proto, a, p), o);
            AddPort(PortKey(proto, p), o);
          }
      }
    }

    method Get(t: Tuple, outbound: bool) returns (r: Option<Named>)
      ensures r == Lookup(Contents(), t, outbound)
    {
      if t in exact { return Some(Named(exact[t], Exact)); }
      if !outbound { return None; }
      var lk := LocalKey(t.proto, t.src, t.sport);
      if lk !in contestedLocal && lk in local {
        return Some(Named(local[lk], Local));
      }
      var pk := PortKey(t.proto, t.sport);
      if pk !in contestedPort && pk in port {
        return Some(Named(port[pk], Port));
      }
      return None;
    }
  }

  method Snapshot(socks: seq<Socket>) returns (tables: Tables)
    ensures fresh(tables) && tables.Contents() == Built(socks)
  {
    hide Added;
    tables := new Tables();
    for i := 0 to |socks|
      invariant fresh(tables) && tables.Contents() == Built(socks[..i])
    {
      tables.Add(socks[i]);
      assert socks[..i + 1][..i] == socks[..i];
    }
    assert socks[..|socks|] == socks;
  }

  // ---- who claims what ----

  predicate ClaimsLocal(s: Socket, k: LocalKey) {
    s.Unconnected? && !IsUnspecified(s.addr) && LocalKey(s.proto, s.addr, s.port) == k
  }

  predicate ClaimsPort(s: Socket, k: PortKey) {
    s.Unconnected? && PortKey(s.proto, s.port) == k
  }

  function LocalClaims(k: LocalKey): Socket -> bool { s => ClaimsLocal(s, k) }

  function PortClaims(k: PortKey): Socket -> bool { s => ClaimsPort(s, k) }

  /** Some open socket claims the key. */
  ghost predicate Claimed(socks: seq<Socket>, claims: Socket -> bool) {
    exists s :: s in socks && claims(s)
  }

  /** Two processes claim it. */
  ghost predicate Disputed(socks: seq<Socket>, claims: Socket -> bool) {
    exists s, u :: s in socks && u in socks && claims(s) && claims(u)
                   && s.Unconnected? && u.Unconnected? && s.owner.pid != u.owner.pid
  }

  /** The first claimant holds the key, and it is contested just when disputed. */
  ghost predicate Faithful<K>(t: Tier<K>, k: K, socks: seq<Socket>, claims: Socket -> bool) {
    && (k in t.first <==> Claimed(socks, claims))
    && (k in t.first ==> exists s :: s in socks && claims(s) && s.Unconnected? && s.owner == t.first[k])
    && (k in t.contested <==> Disputed(socks, claims))
  }

  ghost predicate OnlyUnconnected(claims: Socket -> bool) {
    forall s :: claims(s) ==> s.Unconnected?
  }

  lemma FaithfulClaim<K>(t: Tier<K>, k: K, socks: seq<Socket>, s: Socket, claims: Socket -> bool)
    requires Faithful(t, k, socks, claims) && OnlyUnconnected(claims) && claims(s)
    ensures Faithful(Claim(t, k, s.owner), k, socks + [s], claims)
  {
    var all := socks + [s];
    var t' := Claim(t, k, s.owner);
    assert s in all && forall u :: u in socks ==> u in all;
    if k in t.first {
      var f :| f in socks && claims(f) && f.Unconnected? && f.owner == t.first[k];
      assert f in all && t'.first[k] == f.owner;
      if Disputed(all, claims) && f.owner.pid == s.owner.pid {
        var a, b :| a in all && b in all && claims(a) && claims(b) && a.owner.pid != b.owner.pid;
        assert Disputed(socks, claims) by {
          var c := if a.owner.pid == f.owner.pid then b else a;
          assert c in socks && c.owner.pid != f.owner.pid;
        }
      }
    } else {
      assert forall u :: u in all && claims(u) ==> u == s;
    }
  }

  lemma FaithfulElsewhere<K>(t: Tier<K>, t': Tier<K>, k: K, socks: seq<Socket>, s: Socket, claims: Socket -> bool)
    requires Faithful(t, k, socks, claims) && !claims(s)
    requires k in t'.first <==> k in t.first
    requires k in t.first ==> t'.first[k] == t.first[k]
    requires k in t'.contested <==> k in t.contested
    ensures Faithful(t', k, socks + [s], claims)
  {
    var all := socks + [s];
    assert forall u :: u in all && claims(u) <==> u in socks && claims(u);
    if k in t.first {
      var f :| f in socks && claims(f) && f.Unconnected? && f.owner == t.first[k];
      assert f in all;
    }
    if Disputed(socks, claims) {
      var a, b :| a in socks && b in socks && claims(a) && claims(b)
                  && a.Unconnected? && b.Unconnected? && a.owner.pid != b.owner.pid;
      assert a in all && b in all;
    }
  }

  lemma {:induction false} LocalIsFaithful(socks: seq<Socket>, k: LocalKey)
    ensures Faithful(Built(socks).local, k, socks, LocalClaims(k))
    decreases |socks|
  {
    if socks != [] {
      var n := |socks| - 1;
      LocalIsFaithful(socks[..n], k);
      assert socks == socks[..n] + [socks[n]];
      var t, t' := Built(socks[..n]).local, Built(socks).local;
      if ClaimsLocal(socks[n], k) {
        FaithfulClaim(t, k, socks[..n], socks[n], LocalClaims(k));
      } else {
        FaithfulElsewhere(t, t', k, socks[..n], socks[n], LocalClaims(k));
      }
    }
  }

  lemma {:induction false} PortIsFaithful(socks: seq<Socket>, k: PortKey)
    ensures Faithful(Built(socks).port, k, socks, PortClaims(k))
    decreases |socks|
  {
    if socks != [] {
      var n := |socks| - 1;
      PortIsFaithful(socks[..n], k);
      assert socks == socks[..n] + [socks[n]];
      var t, t' := Built(socks[..n]).port, Built(socks).port;
      if ClaimsPort(socks[n], k) {
        FaithfulClaim(t, k, socks[..n], socks[n], PortClaims(k));
      } else {
        FaithfulElsewhere(t, t', k, socks[..n], socks[n], PortClaims(k));
      }
    }
  }

  lemma {:induction false} ExactMeaning(socks: seq<Socket>, t: Tuple)
    ensures t in Built(socks).exact <==> exists s :: s in socks && s.Connected? && s.tuple == t
    decreases |socks|
  {
    if socks != [] {
      var n := |socks| - 1;
      ExactMeaning(socks[..n], t);
      assert socks == socks[..n] + [socks[n]];
      assert forall s :: s in socks <==> s in socks[..n] || s == socks[n];
    }
  }

  // ---- what an attribution is worth ----

  ghost predicate ExactlyOpen(socks: seq<Socket>, t: Tuple) {
    exists s :: s in socks && s.Connected? && s.tuple == t
  }

  ghost predicate Undisputed(socks: seq<Socket>, claims: Socket -> bool) {
    Claimed(socks, claims) && !Disputed(socks, claims)
  }

  /** Where no connected socket matches, an outgoing flow is attributed exactly
      when all the sockets on its address and port are one process's, or there are
      none and all those on its port are; anything disputed names nobody, and a
      dispute over the address is not evaded through the port. */
  lemma AttributedOnlyUndisputed(socks: seq<Socket>, t: Tuple, outbound: bool)
    ensures var r := Lookup(Built(socks), t, outbound);
            var lc, pc := LocalClaims(LocalKey(t.proto, t.src, t.sport)), PortClaims(PortKey(t.proto, t.sport));
            && ((r.Some? && r.value.confidence == Exact) <==> ExactlyOpen(socks, t))
            && ((r.Some? && r.value.confidence == Local) <==> (!ExactlyOpen(socks, t) && outbound && Undisputed(socks, lc)))
            && ((r.Some? && r.value.confidence == Port)
                <==> (!ExactlyOpen(socks, t) && outbound && !Claimed(socks, lc) && Undisputed(socks, pc)))
  {
    var lk, pk := LocalKey(t.proto, t.src, t.sport), PortKey(t.proto, t.sport);
    ExactMeaning(socks, t);
    LocalIsFaithful(socks, lk);
    PortIsFaithful(socks, pk);
    DisputeSpreads(socks, lk);
    hide Built, Claimed, Disputed;
  }

  /** A disputed address is a disputed port. */
  lemma DisputeSpreads(socks: seq<Socket>, k: LocalKey)
    ensures Disputed(socks, LocalClaims(k)) ==> Disputed(socks, PortClaims(PortKey(k.proto, k.port)))
    ensures Claimed(socks, LocalClaims(k)) ==> Claimed(socks, PortClaims(PortKey(k.proto, k.port)))
  {
    var lc, pc := LocalClaims(k), PortClaims(PortKey(k.proto, k.port));
    assert forall s :: lc(s) ==> pc(s);
    if Disputed(socks, lc) {
      var a, b :| a in socks && b in socks && lc(a) && lc(b)
                  && a.Unconnected? && b.Unconnected? && a.owner.pid != b.owner.pid;
      assert pc(a) && pc(b);
    }
  }

  /** Whoever a weak tier names is a claimant, and so has the pid of every other. */
  lemma WeaklyNamedIsEveryClaimant(socks: seq<Socket>, t: Tuple, s: Socket)
    requires s in socks
    ensures var r := Lookup(Built(socks), t, true);
            && (r.Some? && r.value.confidence == Local && ClaimsLocal(s, LocalKey(t.proto, t.src, t.sport))
                ==> r.value.owner.pid == s.owner.pid)
            && (r.Some? && r.value.confidence == Port && ClaimsPort(s, PortKey(t.proto, t.sport))
                ==> r.value.owner.pid == s.owner.pid)
  {
    var lk, pk := LocalKey(t.proto, t.src, t.sport), PortKey(t.proto, t.sport);
    LocalIsFaithful(socks, lk);
    PortIsFaithful(socks, pk);
    var lc, pc := LocalClaims(lk), PortClaims(pk);
    assert lc(s) == ClaimsLocal(s, lk) && pc(s) == ClaimsPort(s, pk);
    hide Built;
  }

  ghost predicate SameSockets(socks: seq<Socket>, socks': seq<Socket>) {
    forall s :: s in socks <==> s in socks'
  }

  /** The order the process table is read in changes neither which flows are
      attributed, nor how, nor, in the weak tiers, to which process. */
  lemma OrderDoesNotMatter(socks: seq<Socket>, socks': seq<Socket>, t: Tuple, outbound: bool)
    requires SameSockets(socks, socks')
    ensures var r, r' := Lookup(Built(socks), t, outbound), Lookup(Built(socks'), t, outbound);
            && (r.Some? <==> r'.Some?)
            && (r.Some? ==> r.value.confidence == r'.value.confidence)
            && (r.Some? && r.value.confidence != Exact ==> r.value.owner.pid == r'.value.owner.pid)
  {
    var lk, pk := LocalKey(t.proto, t.src, t.sport), PortKey(t.proto, t.sport);
    AttributedOnlyUndisputed(socks, t, outbound);
    AttributedOnlyUndisputed(socks', t, outbound);
    SameClaims(socks, socks', LocalClaims(lk));
    SameClaims(socks, socks', PortClaims(pk));
    var r := Lookup(Built(socks), t, outbound);
    if r.Some? && r.value.confidence != Exact {
      NamedIsAClaimant(socks, t);
      var s :| s in socks && s.Unconnected? && s.owner == r.value.owner
               && if r.value.confidence == Local then ClaimsLocal(s, lk) else ClaimsPort(s, pk);
      WeaklyNamedIsEveryClaimant(socks', t, s);
    }
  }

  lemma SameClaims(socks: seq<Socket>, socks': seq<Socket>, claims: Socket -> bool)
    requires SameSockets(socks, socks')
    ensures Claimed(socks, claims) == Claimed(socks', claims) && Disputed(socks, claims) == Disputed(socks', claims)
  {
  }

  lemma NamedIsAClaimant(socks: seq<Socket>, t: Tuple)
    requires Lookup(Built(socks), t, true).Some? && Lookup(Built(socks), t, true).value.confidence != Exact
    ensures var r := Lookup(Built(socks), t, true).value;
            exists s :: s in socks && s.Unconnected? && s.owner == r.owner
                        && if r.confidence == Local then ClaimsLocal(s, LocalKey(t.proto, t.src, t.sport))
                           else ClaimsPort(s, PortKey(t.proto, t.sport))
  {
    LocalIsFaithful(socks, LocalKey(t.proto, t.src, t.sport));
    PortIsFaithful(socks, PortKey(t.proto, t.sport));
    hide Built;
  }
}

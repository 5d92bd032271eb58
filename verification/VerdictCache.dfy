/** The kernel module's verdict cache: a 1024-bucket chained hash table with an
    entry cap, whose one-bucket search is proved to be a search of a plain map.
    Source: kmod/mac_pfsnitch.c, lines 96-227. */
module VerdictCache {
  import opened Options
  import opened Octets

  type Addr16 = a: seq<byte> | |a| == 16 witness seq(16, i => 0)

  /** A C string's contents, terminator left out: pathlen is |s| + 1, and strcmp()
      and an equal-length memcmp() of two of these both decide plain equality. */
  type CString = seq<byte>

  const VHASH: nat := 1024
  const VMAX: nat := 8192
  const PATHMAX: nat := 1024
  const V_ALLOW: byte := 1
  const V_DENY: byte := 2

  predicate IsVerdict(v: byte) {
    v == V_ALLOW || v == V_DENY
  }

  /** What the cache is keyed on: only the first AddrLen(af) address bytes count. */
  datatype Key = Key(af: byte, proto: byte, addr: seq<byte>, fport: u16, path: CString)

  function AddrLen(af: byte): nat {
    if af == 4 then 4 else 16
  }

  function MakeKey(af: byte, proto: byte, faddr: Addr16, fport: u16, path: CString): Key {
    Key(af, proto, faddr[..AddrLen(af)], fport, path)
  }

  datatype Entry = Entry(af: byte, proto: byte, verdict: byte, fport: u16, faddr: Addr16, path: CString) {
    function KeyOf(): Key {
      MakeKey(af, proto, faddr, fport, path)
    }
  }

  // ---- the bucket index: 32-bit FNV-1a, wrapping ----

  function FnvStep(h: bv32, x: byte): bv32 {
    (h ^ (x as bv32)) * 16777619
  }

  function Fnv(h: bv32, s: seq<byte>): bv32 {
    if s == [] then h else FnvStep(Fnv(h, s[..|s| - 1]), s[|s| - 1])
  }

  function Mask(h: bv32): (b: nat)
    ensures b < VHASH
  {
    (h & 0x3ff) as nat
  }

  function BucketOf(k: Key): (b: nat)
    ensures b < VHASH
  {
    Mask(Fnv(2166136261, [k.proto, k.fport % 256, k.fport / 256] + k.addr))
  }

  method VHash(af: byte, proto: byte, faddr: Addr16, fport: u16, ghost path: CString) returns (b: nat)
    ensures b == BucketOf(MakeKey(af, proto, faddr, fport, path))
  {
    hide FnvStep, Mask;
    var h: bv32 := 2166136261;
    var n := AddrLen(af);
    h := FnvStep(h, proto);
    h := FnvStep(h, fport % 256);
    h := FnvStep(h, fport / 256);
    ghost var head: seq<byte> := [proto, fport % 256, fport / 256];
    assert head + faddr[..0] == head;
    assert h == Fnv(2166136261, head) by {
      FnvThree(proto, fport % 256, fport / 256);
    }
    for i := 0 to n
      invariant h == Fnv(2166136261, head + faddr[..i])
    {
      assert (head + faddr[..i + 1])[..3 + i] == head + faddr[..i];
      h := FnvStep(h, faddr[i]);
    }
    b := Mask(h);
  }

  lemma FnvThree(x: byte, y: byte, z: byte)
    ensures Fnv(2166136261, [x, y, z]) == FnvStep(FnvStep(FnvStep(2166136261, x), y), z)
  {
    assert [x, y, z][..2] == [x, y];
    assert [x, y][..1] == [x];
    assert [x][..0] == [];
    assert Fnv(2166136261, [x]) == FnvStep(Fnv(2166136261, []), x);
  }

  // ---- the table against a plain map ----

  type Buckets = seq<seq<Entry>>

  ghost predicate InBucket(b: seq<Entry>, k: Key) {
    exists j :: 0 <= j < |b| && b[j].KeyOf() == k
  }

  ghost predicate Distinct(b: seq<Entry>) {
    forall i, j :: 0 <= i < j < |b| ==> b[i].KeyOf() != b[j].KeyOf()
  }

  /** Every entry sits in its key's bucket with the map's verdict, keys are
      unique, and every mapped key is found in its own bucket. */
  ghost predicate Represents(t: Buckets, m: map<Key, byte>) {
    && |t| == VHASH
    && (forall i, j :: 0 <= i < |t| && 0 <= j < |t[i]| ==>
          var k := t[i][j].KeyOf();
          BucketOf(k) == i && k in m && m[k] == t[i][j].verdict)
    && (forall i :: 0 <= i < |t| ==> Distinct(t[i]))
    && (forall k :: k in m ==> InBucket(t[BucketOf(k)], k))
  }

  function Total(t: Buckets): nat {
    if t == [] then 0 else Total(t[..|t| - 1]) + |t[|t| - 1]|
  }

  function KeysOf(b: seq<Entry>): set<Key> {
    if b == [] then {} else KeysOf(b[..|b| - 1]) + {b[|b| - 1].KeyOf()}
  }

  lemma InBucketStep(init: seq<Entry>, last: Entry, k: Key)
    ensures InBucket(init + [last], k) <==> InBucket(init, k) || last.KeyOf() == k
  {
    hide MakeKey;
    var b := init + [last];
    if InBucket(init, k) {
      var j :| 0 <= j < |init| && init[j].KeyOf() == k;
      assert b[j] == init[j];
    }
    assert b[|init|] == last;
  }

  lemma DistinctStep(init: seq<Entry>, last: Entry)
    requires Distinct(init + [last])
    ensures Distinct(init) && !InBucket(init, last.KeyOf())
  {
    hide MakeKey;
    var b := init + [last];
    assert b[|init|] == last;
    forall i, j | 0 <= i < j < |init| ensures init[i].KeyOf() != init[j].KeyOf() {
      assert b[i] == init[i] && b[j] == init[j];
    }
    forall j | 0 <= j < |init| ensures init[j].KeyOf() != last.KeyOf() {
      assert b[j] == init[j];
    }
  }

  lemma {:induction false} KeysOfBucket(b: seq<Entry>)
    ensures forall k :: k in KeysOf(b) <==> InBucket(b, k)
    ensures Distinct(b) ==> |KeysOf(b)| == |b|
    decreases |b|
  {
    if b == [] {
    } else {
      var init, last := b[..|b| - 1], b[|b| - 1];
      assert b == init + [last];
      KeysOfBucket(init);
      hide InBucket, Distinct, MakeKey;
      forall k ensures InBucket(b, k) <==> InBucket(init, k) || last.KeyOf() == k {
        InBucketStep(init, last, k);
      }
      if Distinct(b) {
        DistinctStep(init, last);
      }
    }
  }

  function TableKeys(t: Buckets): set<Key> {
    if t == [] then {} else TableKeys(t[..|t| - 1]) + KeysOf(t[|t| - 1])
  }

  lemma {:induction false} TableKeysMeaning(t: Buckets)
    ensures forall k :: k in TableKeys(t) <==> exists i :: 0 <= i < |t| && InBucket(t[i], k)
  {
    hide BucketOf, MakeKey, InBucket;
    if t != [] {
      TableKeysMeaning(t[..|t| - 1]);
      KeysOfBucket(t[|t| - 1]);
      forall k ensures k in TableKeys(t) <==> exists i :: 0 <= i < |t| && InBucket(t[i], k) {
        if k in TableKeys(t[..|t| - 1]) {
          var i :| 0 <= i < |t| - 1 && InBucket(t[..|t| - 1][i], k);
          assert InBucket(t[i], k);
        }
        if exists i :: 0 <= i < |t| && InBucket(t[i], k) {
          var i :| 0 <= i < |t| && InBucket(t[i], k);
          if i < |t| - 1 { assert InBucket(t[..|t| - 1][i], k); }
        }
      }
    }
  }

  lemma {:induction false} TotalIsKeyCount(t: Buckets)
    requires forall i :: 0 <= i < |t| ==> Distinct(t[i])
    requires forall i, j :: 0 <= i < |t| && 0 <= j < |t[i]| ==> BucketOf(t[i][j].KeyOf()) == i
    ensures Total(t) == |TableKeys(t)|
  {
    hide BucketOf, MakeKey;
    if t != [] {
      var init, last := t[..|t| - 1], t[|t| - 1];
      TotalIsKeyCount(init);
      TableKeysMeaning(init);
      KeysOfBucket(last);
      forall k | k in TableKeys(init) ensures k !in KeysOf(last) {
        var i :| 0 <= i < |init| && InBucket(init[i], k);
        assert t[i] == init[i];
      }
      assert TableKeys(init) !! KeysOf(last);
    }
  }

  /** pfsn_vcount's meaning: in a table that represents a map, the number of
      chained entries is the number of keys. */
  lemma EntryTotalIsMapSize(t: Buckets, m: map<Key, byte>)
    requires Represents(t, m)
    ensures Total(t) == |m|
  {
    hide BucketOf, MakeKey;
    TotalIsKeyCount(t);
    TableKeysMeaning(t);
    forall k ensures k in TableKeys(t) <==> k in m {
      if k in m { assert InBucket(t[BucketOf(k)], k); }
      if k in TableKeys(t) {
        var i :| 0 <= i < |t| && InBucket(t[i], k);
        var j :| 0 <= j < |t[i]| && t[i][j].KeyOf() == k;
      }
    }
    assert TableKeys(t) == m.Keys;
    assert |m| == |m.Keys|;
  }

  /** The map's view of an insert: update in place, else add below the cap when
      the allocation succeeds, else drop. */
  function CacheInsert(m: map<Key, byte>, k: Key, v: byte, allocOk: bool): map<Key, byte> {
    if |k.path| + 1 > PATHMAX then m
    else if k in m then m[k := v]
    else if |m| >= VMAX || !allocOk then m
    else m[k := v]
  }

  predicate Accepted(m: map<Key, byte>, k: Key, allocOk: bool) {
    |k.path| + 1 <= PATHMAX && (k in m || (|m| < VMAX && allocOk))
  }

  function CacheLookup(m: map<Key, byte>, k: Key): byte {
    if k in m then m[k] else 0
  }

  lemma UpdateKeepsRepresents(t: Buckets, m: map<Key, byte>, b: nat, j: nat, v: byte)
    requires Represents(t, m) && b < |t| && j < |t[b]|
    ensures Represents(t[b := t[b][j := t[b][j].(verdict := v)]], m[t[b][j].KeyOf() := v])
  {
    hide BucketOf, MakeKey;
    var e := t[b][j];
    var t': Buckets := t[b := t[b][j := e.(verdict := v)]];
    var m' := m[e.KeyOf() := v];
    assert e.(verdict := v).KeyOf() == e.KeyOf();
    forall i, l | 0 <= i < |t'| && 0 <= l < |t'[i]|
      ensures var k := t'[i][l].KeyOf(); BucketOf(k) == i && k in m' && m'[k] == t'[i][l].verdict
    {
      assert t'[i][l].KeyOf() == t[i][l].KeyOf();
      if i == b && l != j { assert t[b][l].KeyOf() != e.KeyOf(); }
    }
    forall k | k in m' ensures InBucket(t'[BucketOf(k)], k) {
      assert InBucket(t[BucketOf(k)], k);
      var l :| 0 <= l < |t[BucketOf(k)]| && t[BucketOf(k)][l].KeyOf() == k;
      assert t'[BucketOf(k)][l].KeyOf() == k;
    }
    assert forall i, l :: 0 <= i < |t| && 0 <= l < |t[i]| ==> t'[i][l].KeyOf() == t[i][l].KeyOf();
  }

  lemma DistinctPrepend(e: Entry, b: seq<Entry>)
    requires Distinct(b) && forall j :: 0 <= j < |b| ==> b[j].KeyOf() != e.KeyOf()
    ensures Distinct([e] + b)
  {
    hide MakeKey;
    var b' := [e] + b;
    forall x, y | 0 <= x < y < |b'| ensures b'[x].KeyOf() != b'[y].KeyOf() {
      assert b'[y] == b[y - 1];
      if x > 0 { assert b'[x] == b[x - 1]; }
    }
  }

  lemma PrependKeepsRepresents(t: Buckets, m: map<Key, byte>, e: Entry)
    requires Represents(t, m) && e.KeyOf() !in m
    ensures var b := BucketOf(e.KeyOf());
            Represents(t[b := [e] + t[b]], m[e.KeyOf() := e.verdict])
  {
    hide BucketOf, MakeKey;
    var k0 := e.KeyOf();
    var b := BucketOf(k0);
    var t': Buckets := t[b := [e] + t[b]];
    assert forall l :: 0 <= l < |t[b]| ==> t'[b][l + 1] == t[b][l];
    forall i, l | 0 <= i < |t'| && 0 <= l < |t'[i]|
      ensures var k := t'[i][l].KeyOf();
              BucketOf(k) == i && k in m[k0 := e.verdict] && m[k0 := e.verdict][k] == t'[i][l].verdict
    {
      if i == b && l > 0 { assert t'[i][l] == t[i][l - 1]; }
    }
    DistinctPrepend(e, t[b]);
    assert forall i :: 0 <= i < |t'| ==> Distinct(t'[i]);
    forall k | k in m[k0 := e.verdict] ensures InBucket(t'[BucketOf(k)], k) {
      if k == k0 {
        assert t'[b][0].KeyOf() == k0;
      } else {
        assert InBucket(t[BucketOf(k)], k);
        var l :| 0 <= l < |t[BucketOf(k)]| && t[BucketOf(k)][l].KeyOf() == k;
        if BucketOf(k) == b { assert t'[b][l + 1].KeyOf() == k; }
      }
    }
  }

  class Cache {
    const vtab: array<seq<Entry>>
    var vcount: nat
    ghost var Verdicts: map<Key, byte>

    ghost predicate Valid()
      reads this, vtab
    {
      Represents(vtab[..], Verdicts) && vcount == Total(vtab[..]) && vcount <= VMAX
    }

    constructor ()
      ensures Valid() && Verdicts == map[] && fresh(vtab)
    {
      var t := new seq<Entry>[VHASH](i => []);
      vtab, vcount, Verdicts := t, 0, map[];
      new;
      EntryTotalIsMapSize(vtab[..], map[]);
    }

    /** The chain walk that a lookup and an insert share: the index of the key's
        entry, or the chain's length. */
    method Find(b: nat, af: byte, proto: byte, faddr: Addr16, fport: u16, path: CString) returns (i: nat)
      requires Valid() && b == BucketOf(MakeKey(af, proto, faddr, fport, path))
      ensures i <= |vtab[b]|
      ensures i < |vtab[b]| ==> vtab[b][i].KeyOf() == MakeKey(af, proto, faddr, fport, path)
      ensures i == |vtab[b]| <==> MakeKey(af, proto, faddr, fport, path) !in Verdicts
    {
      ghost var k := MakeKey(af, proto, faddr, fport, path);
      hide BucketOf;
      var n := AddrLen(af);
      i := 0;
      while i < |vtab[b]|
        invariant 0 <= i <= |vtab[b]|
        invariant forall j :: 0 <= j < i ==> vtab[b][j].KeyOf() != k
      {
        var e := vtab[b][i];
        if e.af == af && e.proto == proto && e.fport == fport && e.faddr[..n] == faddr[..n] && e.path == path {
          assert vtab[..][b][i].KeyOf() == k;
          return;
        }
        i := i + 1;
      }
      assert !InBucket(vtab[..][b], k);
    }

    method Lookup(af: byte, proto: byte, faddr: Addr16, fport: u16, path: CString) returns (v: byte)
      requires Valid()
      ensures v == CacheLookup(Verdicts, MakeKey(af, proto, faddr, fport, path))
    {
      var b := VHash(af, proto, faddr, fport, path);
      var i := Find(b, af, proto, faddr, fport, path);
      hide BucketOf, MakeKey;
      if i < |vtab[b]| {
        assert vtab[..][b][i] == vtab[b][i];
        v := vtab[b][i].verdict;
      } else {
        v := 0;
      }
    }

    /** The allocator's answer is the parameter allocOk. */
    method Insert(af: byte, proto: byte, faddr: Addr16, fport: u16, verdict: byte, path: CString, allocOk: bool)
      requires Valid()
      modifies this, vtab
      ensures Valid()
      ensures Verdicts == CacheInsert(old(Verdicts), MakeKey(af, proto, faddr, fport, path), verdict, allocOk)
    {
      if |path| + 1 > PATHMAX { return; }
      EntryTotalIsMapSize(vtab[..], Verdicts);
      var b := VHash(af, proto, faddr, fport, path);
      var i := Find(b, af, proto, faddr, fport, path);
      if i < |vtab[b]| {
        UpdateAt(b, i, verdict);
        return;
      }
      if vcount >= VMAX { return; }
      if !allocOk { return; }
      LinkHead(b, Entry(af, proto, verdict, fport, faddr, path));
    }

    method UpdateAt(b: nat, i: nat, verdict: byte)
      requires Valid() && b < vtab.Length && i < |vtab[b]|
      modifies this, vtab
      ensures Valid()
      ensures Verdicts == old(Verdicts)[old(vtab[b][i]).KeyOf() := verdict]
    {
      hide BucketOf, MakeKey, Total;
      UpdateKeepsRepresents(vtab[..], Verdicts, b, i, verdict);
      EntryTotalIsMapSize(vtab[..], Verdicts);
      ghost var t: Buckets := vtab[..];
      ghost var k := t[b][i].KeyOf();
      assert k in Verdicts;
      vtab[b] := vtab[b][i := vtab[b][i].(verdict := verdict)];
      Verdicts := Verdicts[k := verdict];
      assert vtab[..] == t[b := t[b][i := t[b][i].(verdict := verdict)]];
      EntryTotalIsMapSize(vtab[..], Verdicts);
    }

    method LinkHead(b: nat, e: Entry)
      requires Valid() && b == BucketOf(e.KeyOf()) && e.KeyOf() !in Verdicts && vcount < VMAX
      modifies this, vtab
      ensures Valid()
      ensures Verdicts == old(Verdicts)[e.KeyOf() := e.verdict] && vcount == old(vcount) + 1
    {
      hide BucketOf, MakeKey, Total;
      PrependKeepsRepresents(vtab[..], Verdicts, e);
      EntryTotalIsMapSize(vtab[..], Verdicts);
      ghost var t: Buckets := vtab[..];
      vtab[b] := [e] + vtab[b];
      vcount := vcount + 1;
      Verdicts := Verdicts[e.KeyOf() := e.verdict];
      assert vtab[..] == t[b := [e] + t[b]];
      EntryTotalIsMapSize(vtab[..], Verdicts);
    }

    method Flush()
      requires Valid()
      modifies this, vtab
      ensures Valid() && Verdicts == map[] && vcount == 0
    {
      for i := 0 to VHASH
        invariant forall j :: 0 <= j < i ==> vtab[j] == []
        modifies vtab
      {
        while |vtab[i]| > 0
          invariant forall j :: 0 <= j < i ==> vtab[j] == []
          decreases |vtab[i]|
          modifies vtab
        {
          vtab[i] := vtab[i][1..];
        }
      }
      vcount := 0;
      Verdicts := map[];
      EntryTotalIsMapSize(vtab[..], map[]);
    }
  }

  // ---- what a pushed verdict is keyed on ----

  function Strnlen(buf: seq<byte>, n: nat): (r: nat)
    requires n <= |buf|
    ensures r <= n && 0 !in buf[..r] && (r < n ==> buf[r] == 0)
    decreases n
  {
    if n == 0 then 0
    else
      var r := Strnlen(buf, n - 1);
      if r < n - 1 then r else if buf[n - 1] == 0 then n - 1 else n
  }

  /** The path a push names: the buffer up to its first NUL, or nothing when it
      is empty or unterminated. */
  function PushedPath(buf: seq<byte>): (p: Option<CString>)
    requires |buf| == PATHMAX
    ensures p.Some? <==> buf[0] != 0 && 0 in buf
    ensures p.Some? ==> 0 < |p.value| < PATHMAX && 0 !in p.value && p.value + [0] <= buf
  {
    var plen := Strnlen(buf, PATHMAX);
    assert buf[..PATHMAX] == buf;
    if plen == 0 || plen >= PATHMAX then None
    else
      assert buf[plen] in buf;
      Some(buf[..plen])
  }
}

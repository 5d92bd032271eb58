/** The Internet checksum (RFC 1071). Source: src/divert.rs, lines 469-502. */
module Checksum {
  import opened Options
  import opened Octets


  const U32 := 0x1_0000_0000
  const ONES := 0xffff
  /** The most bytes whose words cannot overflow a 32-bit accumulator. */
  const SAFE_LENGTH := 131074

  function Concat(parts: seq<seq<byte>>): seq<byte>
    decreases |parts|
  {
    if parts == [] then [] else Concat(parts[..|parts| - 1]) + parts[|parts| - 1]
  }

  // ---- the standard's definition ----

  /** Addition with end-around carry. */
  function OnesAdd(a: u16, b: u16): u16 {
    if a + b > ONES then a + b - ONES else a + b
  }

  /** The ones-complement sum of the 16-bit words, the last padded with zero. */
  function OnesSum(s: seq<byte>): u16
    decreases |s|
  {
    if s == [] then 0
    else if |s| == 1 then Value(s[0], 0)
    else OnesAdd(Value(s[0], s[1]), OnesSum(s[2..]))
  }

  function InternetChecksum(s: seq<byte>): u16 {
    ONES - OnesSum(s)
  }

  /** What a receiver asks of data that carries its own checksum. */
  predicate Verifies(s: seq<byte>) {
    InternetChecksum(s) == 0
  }

  // ---- summing first, folding after ----

  function Sum(s: seq<byte>): nat
    decreases |s|
  {
    if s == [] then 0
    else if |s| == 1 then Value(s[0], 0)
    else Value(s[0], s[1]) + Sum(s[2..])
  }

  /** What folding the carries ends at. */
  function Folded(n: nat): u16 {
    if n == 0 then 0 else (n - 1) % ONES + 1
  }

  lemma FoldOnce(n: nat)
    requires n >= 0x1_0000
    ensures n % 0x1_0000 + n / 0x1_0000 < n
    ensures Folded(n % 0x1_0000 + n / 0x1_0000) == Folded(n)
  {
    var q, r := n / 0x1_0000, n % 0x1_0000;
    assert n - 1 == q * ONES + (r + q - 1);
    ModPlusMultiple(r + q - 1, q);
  }

  lemma ModPlusMultiple(x: nat, q: nat)
    ensures (x + q * ONES) % ONES == x % ONES
  {
    var d := x / ONES;
    assert x + q * ONES == (d + q) * ONES + x % ONES;
  }

  lemma FoldedSum(a: u16, n: nat)
    ensures Folded(a + n) == OnesAdd(a, Folded(n))
  {
    if n > 0 {
      var q := (n - 1) / ONES;
      var f := (n - 1) % ONES;
      assert n - 1 == q * ONES + f;
      ModPlusMultiple(a + f, q);
      assert a + n - 1 == a + f + q * ONES;
    }
  }

  /** Adding first and folding at the end is the standard's sum. */
  lemma {:induction false} FoldedIsOnesSum(s: seq<byte>)
    ensures Folded(Sum(s)) == OnesSum(s)
    decreases |s|
  {
    if |s| > 1 {
      FoldedIsOnesSum(s[2..]);
      FoldedSum(Value(s[0], s[1]), Sum(s[2..]));
    }
  }

  lemma {:induction false} SumOfConcat(x: seq<byte>, y: seq<byte>)
    requires |x| % 2 == 0
    ensures Sum(x + y) == Sum(x) + Sum(y)
    decreases |x|
  {
    if x == [] {
      assert x + y == y;
    } else {
      assert (x + y)[2..] == x[2..] + y;
      SumOfConcat(x[2..], y);
    }
  }

  lemma SumOfPair(x: seq<byte>, high: byte, low: byte)
    requires |x| % 2 == 0
    ensures Sum(x + [high, low]) == Sum(x) + Value(high, low)
  {
    SumOfConcat(x, [high, low]);
  }

  lemma SumOfLast(x: seq<byte>, last: byte)
    requires |x| % 2 == 0
    ensures Sum(x + [last]) == Sum(x) + Value(last, 0)
  {
    SumOfConcat(x, [last]);
  }

  /** No more than 131,074 bytes can overflow nothing. */
  lemma {:induction false} SumFits(s: seq<byte>)
    ensures Sum(s) <= (|s| + 1) / 2 * ONES
    ensures |s| <= SAFE_LENGTH ==> Sum(s) < U32
    decreases |s|
  {
    if |s| > 1 {
      SumFits(s[2..]);
    }
  }

  // ---- the code ----

  /** One addition to the accumulator, 32 bits wide. */
  function Wrapped(sum: nat, w: u16): (r: nat)
    ensures r < U32
  {
    (sum + w) % U32
  }

  lemma WrappedSum(total: nat, w: u16)
    ensures Wrapped(total % U32, w) == (total + w) % U32
  {
  }

  /** The accumulator and the odd byte held back, after the bytes `s`. */
  ghost predicate Summed(sum: nat, carry: Option<byte>, s: seq<byte>) {
    match carry
    case None => |s| % 2 == 0 && sum == Sum(s) % U32
    case Some(b) => |s| % 2 == 1 && s[|s| - 1] == b && sum == Sum(s[..|s| - 1]) % U32
  }

  lemma SummedNothing()
    ensures Summed(0, None, [])
  {
  }

  lemma SummedPair(sum: nat, s: seq<byte>, high: byte, low: byte)
    requires Summed(sum, None, s)
    ensures Summed(Wrapped(sum, Value(high, low)), None, s + [high, low])
  {
    hide Wrapped, Sum, Value;
    SumOfPair(s, high, low);
    WrappedSum(Sum(s), Value(high, low));
  }

  lemma SummedCarry(sum: nat, high: byte, s: seq<byte>, low: byte)
    requires Summed(sum, Some(high), s)
    ensures Summed(Wrapped(sum, Value(high, low)), None, s + [low])
  {
    var t := s[..|s| - 1];
    assert s + [low] == t + [high, low];
    SummedPair(sum, t, high, low);
  }

  lemma SummedHold(sum: nat, s: seq<byte>, last: byte)
    requires Summed(sum, None, s)
    ensures Summed(sum, Some(last), s + [last])
  {
    assert (s + [last])[..|s|] == s;
  }

  lemma SummedEnd(sum: nat, carry: Option<byte>, s: seq<byte>)
    requires Summed(sum, carry, s)
    ensures (if carry.Some? then Wrapped(sum, Value(carry.value, 0)) else sum) == Sum(s) % U32
  {
    if carry.Some? {
      var t := s[..|s| - 1];
      assert s == t + [carry.value];
      SumOfLast(t, carry.value);
      WrappedSum(Sum(t), Value(carry.value, 0));
    }
  }

  /** The sum runs over the concatenation, so an odd part lends its last byte to
      the next, across empty parts too. */
  method Csum(parts: seq<seq<byte>>) returns (ck: u16)
    ensures ck == ONES - Folded(Sum(Concat(parts)) % U32)
    ensures |Concat(parts)| <= SAFE_LENGTH ==> ck == InternetChecksum(Concat(parts))
  {
    hide Sum, Folded, OnesSum, Wrapped, Summed, Concat, Value;
    var sum: nat := 0;
    var carry: Option<byte> := None;
    SummedNothing();
    ConcatOfNone();
    assert parts[..0] == [];
    for k := 0 to |parts|
      invariant Summed(sum, carry, Concat(parts[..k]))
    {
      var part := parts[k];
      ghost var before := Concat(parts[..k]);
      ConcatOfMore(parts, k);
      var i := 0;
      Grown(before, part, 0);
      if carry.Some? && part != [] {
        SummedCarry(sum, carry.value, before, part[0]);
        sum := Wrapped(sum, Value(carry.value, part[0]));
        carry := None;
        i := 1;
      }
      while i + 1 < |part|
        invariant i <= |part|
        invariant carry.Some? ==> part == []
        invariant Summed(sum, carry, before + part[..i])
      {
        SummedPair(sum, before + part[..i], part[i], part[i + 1]);
        Grown(before, part, i);
        sum := Wrapped(sum, Value(part[i], part[i + 1]));
        i := i + 2;
      }
      Grown(before, part, i);
      if i < |part| {
        SummedHold(sum, before + part[..i], part[i]);
        carry := Some(part[i]);
      }
    }
    assert parts[..|parts|] == parts;
    SummedEnd(sum, carry, Concat(parts));
    if carry.Some? {
      sum := Wrapped(sum, Value(carry.value, 0));
    }
    while sum >= 0x1_0000
      invariant Folded(sum) == Folded(Sum(Concat(parts)) % U32)
    {
      FoldOnce(sum);
      sum := sum % 0x1_0000 + sum / 0x1_0000;
    }
    FoldedIsItself(sum);
    ck := ONES - sum;
    SumFits(Concat(parts));
    FoldedIsOnesSum(Concat(parts));
  }

  lemma Grown(before: seq<byte>, part: seq<byte>, i: nat)
    requires i <= |part|
    ensures i == 0 ==> before + part[..i] == before
    ensures i < |part| ==> before + part[..i + 1] == before + part[..i] + [part[i]]
    ensures i + 1 < |part| ==> before + part[..i + 2] == before + part[..i] + [part[i], part[i + 1]]
    ensures part[..|part|] == part
  {
  }

  lemma ConcatOfNone()
    ensures Concat([]) == []
  {
  }

  lemma FoldedIsItself(n: nat)
    requires n < 0x1_0000
    ensures Folded(n) == n
  {
  }

  lemma ConcatOfMore(parts: seq<seq<byte>>, k: nat)
    requires k < |parts|
    ensures Concat(parts[..k + 1]) == Concat(parts[..k]) + parts[k]
  {
    assert parts[..k + 1][..k] == parts[..k];
  }

  /** The bound is the least: two more bytes, all ones, and the accumulator wraps
      to a different checksum. */
  lemma OneWordTooMany(s: seq<byte>)
    requires |s| == SAFE_LENGTH + 2 && forall i :: 0 <= i < |s| ==> s[i] == 0xff
    ensures ONES - Folded(Sum(s) % U32) != InternetChecksum(s)
  {
    SumOfOnes(s);
    FoldedIsOnesSum(s);
  }

  lemma {:induction false} SumOfOnes(s: seq<byte>)
    requires |s| % 2 == 0 && forall i :: 0 <= i < |s| ==> s[i] == 0xff
    ensures Sum(s) == |s| / 2 * ONES
    decreases |s|
  {
    if s != [] {
      SumOfOnes(s[2..]);
    }
  }

  // ---- what a checksum is for ----

  /** Filling a zeroed field that starts at an even offset with the checksum of
      the whole makes the whole verify. */
  lemma FilledVerifies(x: seq<byte>, y: seq<byte>)
    requires |x| % 2 == 0
    ensures var ck := InternetChecksum(x + Word(0) + y); Verifies(x + Word(ck) + y)
  {
    hide Sum, Folded, OnesSum, Word;
    var zero := x + Word(0) + y;
    var ck := InternetChecksum(zero);
    SumOfField(x, 0, y);
    SumOfField(x, ck, y);
    FoldedIsOnesSum(zero);
    FoldedIsOnesSum(x + Word(ck) + y);
    ComplementFolds(Sum(zero));
  }

  lemma SumOfField(x: seq<byte>, w: u16, y: seq<byte>)
    requires |x| % 2 == 0
    ensures Sum(x + Word(w) + y) == Sum(x) + w + Sum(y)
  {
    assert x + Word(w) + y == x + (Word(w) + y);
    SumOfConcat(x, Word(w) + y);
    SumOfConcat(Word(w), y);
    SumOfWord(w);
  }

  lemma SumOfWord(w: u16)
    ensures Sum(Word(w)) == w
  {
  }

  lemma ComplementFolds(n: nat)
    ensures Folded(n + ONES - Folded(n)) == ONES
  {
    if n > 0 {
      var q := (n - 1) / ONES;
      assert n + ONES - Folded(n) - 1 == (ONES - 1) + q * ONES;
      ModPlusMultiple(ONES - 1, q);
    }
  }
}

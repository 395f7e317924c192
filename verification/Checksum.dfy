/** The Internet checksum of WIFI/tx_msg.c: 32-bit words, deferred carries, any alignment.
    It computes the ones'-complement sum of sections 1 and 2 of RFC 1071. */
module Checksum {
  import opened Common

  const ONES := 0xffff
  const WORD := 0x1_0000_0000

  /** The sum of the 16-bit little-endian words, the last one padded with zero. */
  function LeSum(b: seq<Byte>): (s: nat) {
    if |b| == 0 then 0
    else if |b| == 1 then b[0]
    else b[0] + 256 * b[1] + LeSum(b[2..])
  }

  /** The 16-bit little-endian word at `p`. */
  function Half(b: seq<Byte>, p: nat): (h: int)
    requires p + 2 <= |b|
    ensures 0 <= h <= ONES && (h == 0 <==> b[p] == 0 && b[p + 1] == 0)
  {
    var lo: int, hi: int := b[p], b[p + 1];
    lo + 256 * hi
  }

  /** The ones'-complement value of a sum: its residue modulo 65535, where only zero is 0. */
  function Ones(s: nat): nat {
    if s == 0 then 0 else (s - 1) % ONES + 1
  }

  lemma OnesLaw(s: nat)
    ensures 0 <= Ones(s) <= 65535 && Ones(s) % 65535 == s % 65535 && (Ones(s) == 0 <==> s == 0)
  {
    if s > 0 {
      var k := (s - 1) / 65535;
      assert s == 65535 * k + Ones(s);
    }
  }

  /** A byte counts once at an even position and 256 times at an odd one. */
  lemma {:induction false} ByteWeight(b: seq<Byte>, i: nat, v: Byte)
    requires i < |b|
    ensures LeSum(b[i := v]) == LeSum(b) + (v - b[i]) * (if i % 2 == 0 then 1 else 256)
    decreases |b|
  {
    if i >= 2 {
      ByteWeight(b[2..], i - 2, v);
      assert b[i := v][2..] == b[2..][i - 2 := v];
    } else if |b| > 1 {
      assert b[i := v][2..] == b[2..];
    }
  }

  lemma {:induction false} ZeroSum(b: seq<Byte>)
    ensures LeSum(b) == 0 <==> forall k :: 0 <= k < |b| ==> b[k] == 0
    decreases |b|
  {
    if |b| > 1 {
      ZeroSum(b[2..]);
      if forall k :: 0 <= k < |b[2..]| ==> b[2..][k] == 0 {
        assert forall k :: 2 <= k < |b| ==> b[k] == b[2..][k - 2];
      }
    }
  }

  /** `x` has the same ones'-complement value as `s`; `k` witnesses the congruence. */
  predicate Same(x: int, s: int, k: int) {
    x == s + ONES * k && 0 <= x && 0 <= s && (x == 0 <==> s == 0)
  }

  lemma SameIsOnes(x: int, s: int, k: int)
    requires Same(x, s, k) && x <= ONES
    ensures x == Ones(s)
  {
    if s > 0 {
      assert s - 1 == (-k) * ONES + (x - 1);
    }
  }

  /** Folding the high half into the low half. */
  function Fold(x: int): int
    requires 0 <= x
  {
    x % 0x1_0000 + x / 0x1_0000
  }

  lemma FoldSame(x: int, s: int, k: int)
    requires Same(x, s, k)
    ensures Same(Fold(x), s, k - x / 0x1_0000)
    ensures x < WORD ==> Fold(x) <= 0x1_fffe
    ensures x <= 0x4_ffff ==> Fold(x) <= 0x1_0003
    ensures x <= 0x1_0003 ==> Fold(x) <= ONES
  {
    assert x == 0x1_0000 * (x / 0x1_0000) + x % 0x1_0000;
  }

  /** from32to16 */
  function From32To16(x: int): int
    requires 0 <= x
  {
    Fold(Fold(x))
  }

  /** The word loop's step: adding a word and the carry of the step before. */
  lemma CarryStep(r: int, c: int, w: int, r': int, c': int)
    requires 0 <= r < WORD && 0 <= w < WORD && 0 <= c <= 1 && (c == 1 ==> r <= WORD - 2)
    requires r' == ((r + c) % WORD + w) % WORD && c' == if w > r' then 1 else 0
    ensures r' + c' == r + c + w - c' * (WORD - 1)
    ensures 0 <= r' < WORD && (c' == 1 ==> r' <= WORD - 2)
    ensures r' + c' == 0 <==> r + c + w == 0
  {
    assert (r + c) % WORD == r + c;
    if r + c + w < WORD {
      assert r' == r + c + w;
    } else {
      assert r' == r + c + w - WORD;
    }
  }

  lemma SameStep(x: int, s: int, k: int, x': int, d: int)
    requires Same(x, s, k) && x' == x + ONES * d && 0 <= x' && (x' == 0 <==> x == 0)
    ensures Same(x', s, k + d)
  {
  }

  /** The aligned inner loop: whole 32-bit words with a deferred carry. `s` is the sum that the
      accumulator together with the rest of the buffer stands for. */
  method SumWords(b: seq<Byte>, start: nat, len: nat, acc: int, ghost s: int, ghost k0: int)
      returns (result: int, p: nat, ghost k: int)
    requires start + len == |b| && 4 <= len && 0 <= acc < WORD
    requires Stands(b, start, acc, s, k0)
    ensures p == start + len / 4 * 4 && 0 <= result <= 0x1_fffe && Stands(b, p, result, s, k)
  {
    hide LeSum, Fold;
    var carry, end := 0, start + len / 4 * 4;
    result, p, k := acc, start, k0;
    while p < end
      invariant start <= p <= end && (end - p) % 4 == 0
      invariant 0 <= result < WORD && 0 <= carry <= 1 && (carry == 1 ==> result <= WORD - 2)
      invariant Same(result + carry + LeSum(b[p..]), s, k)
    {
      var w := Half(b, p) + 0x1_0000 * Half(b, p + 2);
      LeSumTwo(b, p);
      LeSumTwo(b, p + 2);
      var r := (result + carry) % WORD;
      r := (r + w) % WORD;
      var c := if w > r then 1 else 0;
      CarryStep(result, carry, w, r, c);
      ghost var d := Half(b, p + 2) - 0x1_0001 * c;
      SameStep(result + carry + LeSum(b[p..]), s, k, r + c + LeSum(b[p + 4..]), d);
      result, carry, p, k := r, c, p + 4, k + d;
    }
    assert (result + carry) % WORD == result + carry;
    result := (result + carry) % WORD;
    ghost var d := -(result / 0x1_0000);
    FoldBounds(result);
    SameStep(result + LeSum(b[p..]), s, k, Fold(result) + LeSum(b[p..]), d);
    result, k := Fold(result), k + d;
  }

  lemma FoldBounds(x: int)
    requires 0 <= x < WORD
    ensures 0 <= Fold(x) <= 0x1_fffe && Fold(x) == x - ONES * (x / 0x1_0000) && (Fold(x) == 0 <==> x == 0)
  {
    assert x == 0x1_0000 * (x / 0x1_0000) + x % 0x1_0000;
  }

  lemma LeSumTwo(b: seq<Byte>, p: nat)
    requires p + 2 <= |b|
    ensures LeSum(b[p..]) == Half(b, p) + LeSum(b[p + 2..])
  {
    assert b[p..][2..] == b[p + 2..];
  }

  /** The accumulator together with the rest of the buffer stands for the sum `s`. */
  predicate Stands(b: seq<Byte>, p: nat, acc: int, s: int, k: int)
    requires p <= |b|
  {
    Same(acc + LeSum(b[p..]), s, k)
  }

  /** Adding the 16-bit word at `p`. */
  lemma StandsHalf(b: seq<Byte>, p: nat, acc: int, s: int, k: int)
    requires p + 2 <= |b| && Stands(b, p, acc, s, k)
    ensures Stands(b, p + 2, acc + Half(b, p), s, k)
  {
    LeSumTwo(b, p);
    hide LeSum, Half;
  }

  /** The trailing halfword and byte, folded to 16 bits. */
  method SumTail(b: seq<Byte>, start: nat, acc: int, ghost s: int, ghost k: int) returns (result: int)
    requires start <= |b| <= start + 3 && 0 <= acc <= 0x2_ffff && Stands(b, start, acc, s, k)
    ensures result == Ones(s)
  {
    hide Half, From32To16, Ones, Stands;
    var p := start;
    result := acc;
    if |b| - start >= 2 {
      StandsHalf(b, p, result, s, k);
      result := result + Half(b, p);
      p := p + 2;
    }
    StandsEnd(b, p, result, s, k);
    if |b| - p == 1 {
      result := result + b[p];
    }
    ReduceSame(result, s, k);
    result := From32To16(result);
  }

  lemma StandsEnd(b: seq<Byte>, p: nat, acc: int, s: int, k: int)
    requires p <= |b| <= p + 1 && Stands(b, p, acc, s, k)
    ensures Same(if p < |b| then acc + b[p] else acc, s, k)
  {
    LeSumEnd(b, p);
  }

  /** Everything from an even address on: a leading halfword if the address asks for it, the
      words, then the tail. */
  method SumFromEven(b: seq<Byte>, start: nat, halfwordFirst: bool, acc: int, ghost s: int) returns (result: int)
    requires start <= |b| && 0 <= acc <= 0xff00 && Stands(b, start, acc, s, 0)
    ensures result == Ones(s)
  {
    hide Half, Ones, LeSum;
    var len: int, p := |b| - start, start;
    ghost var k := 0;
    result := acc;
    if len >= 2 {
      if halfwordFirst {
        StandsHalf(b, p, result, s, k);
        result := result + Half(b, p);
        len, p := len - 2, p + 2;
      }
      if len >= 4 {
        result, p, k := SumWords(b, p, len, result, s, k);
      }
    }
    result := SumTail(b, p, result, s, k);
  }

  lemma ReduceSame(x: int, s: int, k: int)
    requires Same(x, s, k) && x <= 0x4_ffff
    ensures From32To16(x) == Ones(s)
  {
    FoldSame(x, s, k);
    FoldSame(Fold(x), s, k - x / 0x1_0000);
    SameIsOnes(Fold(Fold(x)), s, k - x / 0x1_0000 - Fold(x) / 0x1_0000);
  }

  lemma LeSumEnd(b: seq<Byte>, p: nat)
    requires p <= |b| <= p + 1
    ensures LeSum(b[p..]) == if p < |b| then b[p] else 0
  {
  }

  // ---------------------------------------------------------------------
  // Odd addresses

  /** The bytes at odd positions. */
  function OddBytes(b: seq<Byte>): nat {
    if |b| < 2 then 0 else b[1] + OddBytes(b[2..])
  }

  function ShiftedSum(b: seq<Byte>): nat
    requires |b| > 0
  {
    var first: int := b[0];
    256 * first + LeSum(b[1..])
  }

  /** Starting one byte late weighs every byte 256 times more, modulo 65535. */
  lemma {:induction false} ShiftScales(b: seq<Byte>)
    requires |b| > 0
    ensures 256 * LeSum(b) == ShiftedSum(b) + ONES * OddBytes(b)
    ensures LeSum(b) == 0 <==> ShiftedSum(b) == 0
  {
    if |b| > 2 {
      ShiftScales(b[2..]);
      assert b[1..][2..] == b[2..][1..];
      assert LeSum(b[1..]) == b[1] + 256 * b[2] + LeSum(b[3..]);
      assert b[2..][1..] == b[3..];
    } else if |b| == 2 {
      assert b[1..] == [b[1]] && b[2..] == [];
    } else {
      assert b[1..] == [];
    }
  }

  function SwapBytes(x: int): int
    requires 0 <= x <= ONES
  {
    x / 256 + x % 256 * 256
  }

  lemma SwapIsScale(r: int)
    requires 0 <= r <= ONES
    ensures SwapBytes(r) == 256 * r - ONES * (r / 256) && 0 <= SwapBytes(r) <= ONES && (SwapBytes(r) == 0 <==> r == 0)
  {
    assert r == 256 * (r / 256) + r % 256;
  }

  lemma OnesWitness(x: nat)
    requires x > 0
    ensures x == ONES * ((x - 1) / ONES) + Ones(x) && 1 <= Ones(x) <= ONES
  {
  }

  /** Scaling by 256 twice is scaling by 65536, which is 1 modulo 65535. */
  lemma ScaleTwice(s: nat, x: nat, odd: nat, r: int, y: int)
    requires s > 0 && x > 0 && 256 * s == x + ONES * odd && r == Ones(x)
    requires y == 256 * r - ONES * (r / 256) && 1 <= y <= ONES
    ensures y == Ones(s)
  {
    OnesWitness(x);
    var k := (x - 1) / ONES;
    var j := s - 256 * odd - 256 * k - r / 256;
    hide Ones;
    assert y == s + ONES * j;
    SameIsOnes(y, s, j);
  }

  /** Swapping the bytes of the result undoes the shift. */
  lemma SwapUndoesShift(b: seq<Byte>)
    requires |b| > 0
    ensures Ones(ShiftedSum(b)) <= ONES && SwapBytes(Ones(ShiftedSum(b))) == Ones(LeSum(b))
  {
    hide LeSum, ShiftedSum, OddBytes, SwapBytes;
    ShiftScales(b);
    var s, x := LeSum(b), ShiftedSum(b);
    OnesRange(x);
    SwapIsScale(Ones(x));
    if s > 0 {
      ScaleTwice(s, x, OddBytes(b), Ones(x), SwapBytes(Ones(x)));
    }
  }

  /** do_csum: for every length and every start address the result is the ones'-complement sum of
      the little-endian words, and so does not depend on the address. */
  method DoCsum(b: seq<Byte>, addr: nat) returns (result: int)
    ensures result == Ones(LeSum(b))
    ensures 0 <= result <= 65535 && result % 65535 == LeSum(b) % 65535
    ensures result == 0 <==> forall k :: 0 <= k < |b| ==> b[k] == 0
  {
    hide LeSum, OddBytes, Ones, SwapBytes;
    OnesLaw(LeSum(b));
    ZeroSum(b);
    if |b| == 0 {
      EmptySum(b);
      return 0;
    }
    if addr % 2 == 1 {
      var first: int := b[0];
      SwapUndoesShift(b);
      result := SumFromEven(b, 1, (addr + 1) / 2 % 2 == 1, 256 * first, ShiftedSum(b));
      result := SwapBytes(result);
    } else {
      assert b[0..] == b;
      result := SumFromEven(b, 0, addr / 2 % 2 == 1, 0, LeSum(b));
    }
  }

  lemma EmptySum(b: seq<Byte>)
    requires |b| == 0
    ensures Ones(LeSum(b)) == 0
  {
  }

  // ---------------------------------------------------------------------
  // What the sum is for

  lemma {:induction false} LeSumAppend(b: seq<Byte>, c: seq<Byte>)
    requires |b| % 2 == 0
    ensures LeSum(b + c) == LeSum(b) + LeSum(c)
    decreases |b|
  {
    if |b| == 0 {
      assert b + c == c;
    } else {
      LeSumAppend(b[2..], c);
      assert (b + c)[2..] == b[2..] + c;
    }
  }

  /** A 16-bit value as two little-endian bytes. */
  function LeBytes(x: int): seq<Byte>
    requires 0 <= x <= ONES
  {
    [x % 256, x / 256]
  }

  lemma OnesRange(s: nat)
    ensures 0 <= Ones(s) <= ONES && (Ones(s) == 0 <==> s == 0)
  {
  }

  lemma LeBytesSum(x: int)
    requires 0 <= x <= ONES
    ensures LeSum(LeBytes(x)) == x
  {
    assert LeBytes(x)[2..] == [];
  }

  lemma OnesComplement(s: nat)
    ensures Ones(s) <= ONES && Ones(s + ONES - Ones(s)) == ONES
  {
    if s > 0 {
      var k := (s - 1) / ONES;
      assert s - 1 == ONES * k + (Ones(s) - 1);
      SameIsOnes(ONES, s + ONES - Ones(s), -k);
    }
  }

  /** The data with the 16-bit field at `p` overwritten. */
  function WithField(b: seq<Byte>, p: nat, x: int): seq<Byte>
    requires p + 2 <= |b| && 0 <= x <= ONES
  {
    b[..p] + (LeBytes(x) + b[p + 2..])
  }

  lemma FieldSum(b: seq<Byte>, p: nat, x: int)
    requires p % 2 == 0 && p + 2 <= |b| && 0 <= x <= ONES
    ensures LeSum(WithField(b, p, x)) + Half(b, p) == LeSum(b) + x
  {
    hide LeSum, Half;
    assert b == b[..p] + b[p..];
    LeSumAppend(b[..p], b[p..]);
    LeSumTwo(b, p);
    LeSumAppend(b[..p], LeBytes(x) + b[p + 2..]);
    LeSumAppend(LeBytes(x), b[p + 2..]);
    LeBytesSum(x);
  }

  /** sprdwl_mc_pkt_checksum sums a packet whose check field holds the sum of the pseudo-header and
      overwrites that field with the complement. A receiver that adds the pseudo-header to the
      packet then gets all ones (section 1 of RFC 1071), for every length. */
  lemma ComplementVerifies(b: seq<Byte>, p: nat)
    requires p % 2 == 0 && p + 2 <= |b|
    ensures 0 <= Ones(LeSum(b)) <= ONES
    ensures Ones(Half(b, p) + LeSum(WithField(b, p, ONES - Ones(LeSum(b))))) == ONES
  {
    hide LeSum, LeBytes, Ones, WithField, Half;
    var s := LeSum(b);
    OnesRange(s);
    FieldSum(b, p, ONES - Ones(s));
    OnesComplement(s);
  }
}

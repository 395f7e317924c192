/** The 12-bit sequence-number order that the receive path compares frames with
    (WIFI/rx_msg.h). Numbers on the air are residues modulo 4096; the lemmas
    relate the driver's comparison to the order of the unbounded numbers the
    residues stand for. */
module Seqno {

  const MODULUS := 4096
  const HALF := 2048

  type Seq12 = x: int | 0 <= x < 4096

  /** SEQNO_ADD: masking a two's complement sum with 0xfff is the remainder by 4096. */
  function Add(a: int, b: int): Seq12 {
    (a + b) % MODULUS
  }

  /** SEQNO_SUB */
  function Sub(a: int, b: int): Seq12 {
    (a - b) % MODULUS
  }

  /** Adding to a residue or to the number it stands for is the same. */
  lemma AddResidue(a: int, k: int)
    ensures (a % MODULUS + k) % MODULUS == (a + k) % MODULUS
  {
    var q, r := a / MODULUS, (a % MODULUS + k) / MODULUS;
    assert a + k == MODULUS * (q + r) + (a % MODULUS + k) % MODULUS;
  }

  /** seqno_leq */
  predicate Leq(a: Seq12, b: Seq12) {
    (a <= b && b - a < HALF) || (a > b && a - b >= HALF)
  }

  /** seqno_geq */
  predicate Geq(a: Seq12, b: Seq12) {
    Leq(b, a)
  }

  /** SEQNO_SUB of a number in terms of its residue. */
  lemma SubResidue(base: int, sn: Seq12)
    ensures var r := base % MODULUS;
      && Sub(sn, base) == sn - r + (if r <= sn then 0 else MODULUS)
      && Sub(base, sn) == r - sn + (if sn <= r then 0 else MODULUS)
  {
    var q := base / MODULUS;
    assert base == MODULUS * q + base % MODULUS;
  }

  /** A distance applied to `base` reaches the residue it was measured to. */
  lemma UnwrapResidue(base: int, sn: Seq12)
    ensures (base + Sub(sn, base)) % MODULUS == sn && (base - Sub(base, sn)) % MODULUS == sn
  {
    hide Sub;
    SubResidue(base, sn);
    var q := base / MODULUS;
    assert base == MODULUS * q + base % MODULUS;
  }

  /** The unbounded number a residue stands for when it is seen from `base`:
      ahead of `base` when the driver judges it so, behind it otherwise. */
  function Unwrap(base: int, sn: Seq12): (u: int)
    ensures u % MODULUS == sn
    ensures Geq(sn, base % MODULUS) <==> base <= u
    ensures base - HALF <= u <= base + HALF
  {
    SubResidue(base, sn);
    UnwrapResidue(base, sn);
    if Geq(sn, base % MODULUS) then base + Sub(sn, base) else base - Sub(base, sn)
  }

  /** Numbers closer than half the space compare as their unbounded counterparts do;
      at exactly half the space the raw residues decide. */
  lemma LeqIsOrder(a: int, b: int)
    ensures -HALF < b - a < HALF ==> (Leq(a % MODULUS, b % MODULUS) <==> a <= b)
    ensures b - a == HALF || a - b == HALF
            ==> (Leq(a % MODULUS, b % MODULUS) <==> a % MODULUS > b % MODULUS)
  {
    var qa, qb := a / MODULUS, b / MODULUS;
    assert a == MODULUS * qa + a % MODULUS && b == MODULUS * qb + b % MODULUS;
  }

  /** The comparison is total and antisymmetric on every pair of residues. */
  lemma LeqIsTotalAndAntisymmetric(a: Seq12, b: Seq12)
    ensures Leq(a, b) || Leq(b, a)
    ensures Leq(a, b) && Leq(b, a) ==> a == b
  {
  }

  lemma NextTurn(a: int)
    ensures (a + MODULUS) % MODULUS == a % MODULUS
  {
  }

  /** It is transitive exactly while a chain stays within half of the space. */
  lemma LeqChain(a: int, b: int, c: int)
    requires a <= b <= c
    ensures c - a < HALF ==>
              Leq(a % MODULUS, b % MODULUS) && Leq(b % MODULUS, c % MODULUS) && Leq(a % MODULUS, c % MODULUS)
    ensures HALF < c - a < MODULUS ==> !Leq(a % MODULUS, c % MODULUS)
  {
    hide Leq;
    LeqIsOrder(a, b);
    LeqIsOrder(b, c);
    LeqIsOrder(a, c);
    if HALF < c - a < MODULUS {
      LeqIsOrder(c, a + MODULUS);
      NextTurn(a);
      LeqIsTotalAndAntisymmetric(a % MODULUS, c % MODULUS);
      if a % MODULUS == c % MODULUS {
        ResidueInjective(a, c);
      }
    }
  }

  /** Residues determine numbers that are less than 4096 apart. */
  lemma ResidueInjective(a: int, b: int)
    requires a % MODULUS == b % MODULUS
    requires -MODULUS < a - b < MODULUS
    ensures a == b
  {
  }

  /** SEQNO_SUB recovers a forward distance below 4096. */
  lemma SubIsDistance(a: int, b: int)
    requires a <= b < a + MODULUS
    ensures Sub(b % MODULUS, a % MODULUS) == b - a
  {
  }

  lemma NextResidue(a: int, b: int)
    requires a % MODULUS == b % MODULUS
    ensures (a + 1) % MODULUS == (b + 1) % MODULUS
  {
  }
}

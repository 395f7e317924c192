/** How sprdwl_tx_eachmode_data divides credits over access categories and then over peers
    (WIFI/tx_msg.c), and why the two rounding loops hand out exactly what was granted. */
module TxSplit {
  import opened Common

  const VO := 0
  const VI := 1
  const BE := 2
  const BK := 3
  const AC_MAX := 4

  // ---------------------------------------------------------------------
  // One peer

  /** The share of a peer with `p` of the `q` packets left, when `fp` credits are left. */
  function PeerShare(p: nat, fp: nat, q: nat): int
    requires 0 < q
  {
    var round := p * fp / q;
    Min(if fp > 0 && round == 0 then 1 else round, fp)
  }

  lemma MulLe(a: int, b: int, c: int)
    requires a <= b && 0 <= c
    ensures a * c <= b * c
  {
  }

  /** A quotient lies between two integers when the product does. */
  lemma QuotientBetween(x: int, q: int, lo: int, hi: int)
    requires 0 < q && lo * q <= x <= hi * q
    ensures lo <= x / q <= hi
  {
    var d := x / q;
    assert x == d * q + x % q;
    if d < lo {
      MulLe(d + 1, lo, q);
    }
    if hi < d {
      MulLe(hi + 1, d, q);
    }
  }

  /** (q - p) * (q - fp) is not negative. */
  lemma Crossed(p: int, fp: int, q: int)
    requires p <= q && fp <= q
    ensures (fp - (q - p)) * q <= p * fp
  {
    var a, b := q - p, q - fp;
    MulLe(0, a, b);
    assert p * fp == (q - a) * fp == q * fp - a * fp;
    assert a * fp == a * (q - b) == a * q - a * b;
    assert (fp - a) * q == fp * q - a * q;
  }

  lemma PeerQuotient(p: nat, fp: nat, q: nat)
    requires 1 <= p <= q && 1 <= fp <= q
    ensures 0 <= p * fp / q <= p && fp - (q - p) <= p * fp / q
  {
    MulLe(fp, q, p);
    MulLe(0, fp, p);
    Crossed(p, fp, q);
    QuotientBetween(p * fp, q, fp - (q - p), p);
    QuotientBetween(p * fp, q, 0, p);
  }

  /** A share never exceeds the peer's queue or the credits, is never nothing, and leaves no
      more credits than there are packets left at the later peers. */
  lemma PeerShareBounds(p: nat, fp: nat, q: nat)
    requires 1 <= p <= q && 1 <= fp <= q
    ensures 1 <= PeerShare(p, fp, q) <= Min(p, fp)
    ensures fp - PeerShare(p, fp, q) <= q - p
    ensures p == q ==> PeerShare(p, fp, q) == fp
  {
    PeerQuotient(p, fp, q);
  }

  /** The shares of a category's peers, in peer order. */
  function PeerShares(ps: seq<nat>, fp: nat): (r: seq<nat>)
    requires fp <= Sum(ps)
    ensures |r| == |ps|
    ensures Sum(r) == fp
    ensures forall j :: 0 <= j < |ps| ==> r[j] <= ps[j]
  {
    if ps == [] then []
    else if ps[0] == 0 || fp == 0 then
      var rest := PeerShares(ps[1..], fp);
      assert ([0] + rest)[1..] == rest;
      [0] + rest
    else
      PeerShareBounds(ps[0], fp, Sum(ps));
      var n := PeerShare(ps[0], fp, Sum(ps));
      var rest := PeerShares(ps[1..], fp - n);
      assert ([n] + rest)[1..] == rest;
      [n] + rest
  }

  // ---------------------------------------------------------------------
  // One category

  /** The credits given to a category with `q` of the `total` packets left. */
  function AcShare(ac: int, ratio: nat, send: int, q: int, total: int): int
    requires 0 < total
  {
    var fp := if ac < BK && total > q then Min(send * ratio / 100, q) else send * q / total;
    var rest := total - q;
    if rest < send - fp && rest > 0 then fp + (send - fp - rest) else fp
  }

  lemma AcQuotients(ratio: nat, send: int, q: int, total: int)
    requires 1 <= q <= total && 1 <= send <= total && ratio <= 100
    ensures 0 <= send * ratio / 100 <= send && 0 <= send * q / total <= Min(q, send)
    ensures q == total ==> send * q / total == send
  {
    MulLe(ratio, 100, send);
    MulLe(0, ratio, send);
    QuotientBetween(send * ratio, 100, 0, send);
    MulLe(0, q, send);
    MulLe(send, total, q);
    MulLe(q, total, send);
    QuotientBetween(send * q, total, 0, q);
    QuotientBetween(send * q, total, 0, send);
    if q == total {
      QuotientBetween(send * q, total, send, send);
    }
  }

  /** A category gets no more than it has or than is left, at least its percentage, and what
      it leaves over still fits the later categories. */
  lemma AcShareBounds(ac: int, ratio: nat, send: int, q: int, total: int)
    requires 0 <= ac < AC_MAX && 1 <= q <= total && 1 <= send <= total && ratio <= 100
    ensures var fp := AcShare(ac, ratio, send, q, total);
      && 0 <= fp <= Min(q, send) && send - fp <= total - q
      && (q == total ==> fp == send)
      && (ac < BK ==> Min(q, send * ratio / 100) <= fp)
      && (ac < BK && q < total ==> fp == Max(Min(q, send * ratio / 100), send - (total - q)))
  {
    AcQuotients(ratio, send, q, total);
  }

  /** The ratios are percentages for a reason: with a larger one the category stays within the
      credits exactly when its queue or its rounded share does. */
  lemma OverGrantExactly(ac: int, ratio: nat, send: int, q: int, total: int)
    requires 0 <= ac < BK && 1 <= q < total && 1 <= send <= total
    ensures AcShare(ac, ratio, send, q, total) <= send <==> q <= send || send * ratio / 100 <= send
  {
  }

  /** adjust_qos_ratio, compiled for certification only: the ratio is read from two characters
      without a check that they are digits, into an unsigned 32-bit variable. */
  function QosRatio(tens: char, ones: char): (r: nat)
    ensures '0' <= tens <= '9' && '0' <= ones <= '9' ==> r <= 99
  {
    ((tens as int - '0' as int) * 10 + (ones as int - '0' as int)) % 0x1_0000_0000
  }

  /** With a ratio of 200, written "D0", a category of twenty packets takes all of them for ten
      credits; two digits never give such a ratio. */
  lemma OverGrantWitness()
    ensures QosRatio('D', '0') == 200 && AcShare(VO, QosRatio('D', '0'), 10, 20, 30) == 20
  {
  }

  /** The credits of each category; `rs` are the percentages of VO, VI and BE. */
  function AcShares(ac: nat, rs: seq<nat>, qs: seq<nat>, send: nat): (r: seq<nat>)
    requires ac + |qs| == AC_MAX && |rs| == BK && (forall k :: 0 <= k < BK ==> rs[k] <= 100)
    requires send <= Sum(qs)
    ensures |r| == |qs|
    ensures Sum(r) == send
    ensures forall i :: 0 <= i < |qs| ==> r[i] <= qs[i]
    decreases |qs|
  {
    if qs == [] then []
    else if qs[0] == 0 || send == 0 then
      var rest := AcShares(ac + 1, rs, qs[1..], send);
      assert ([0] + rest)[1..] == rest;
      [0] + rest
    else
      var ratio := if ac < BK then rs[ac] else 0;
      AcShareBounds(ac, ratio, send, qs[0], Sum(qs));
      var n := AcShare(ac, ratio, send, qs[0], Sum(qs));
      var rest := AcShares(ac + 1, rs, qs[1..], send - n);
      assert ([n] + rest)[1..] == rest;
      [n] + rest
  }

  /** The credits still left when category `i` is reached. */
  function LeftAt(shares: seq<nat>, send: int, i: nat): int
    requires i <= |shares|
    decreases i
  {
    if i == 0 then send else LeftAt(shares, send, i - 1) - shares[i - 1]
  }

  lemma {:induction false} LeftTail(shares: seq<nat>, send: int, i: nat)
    requires 0 < i <= |shares|
    ensures LeftAt(shares, send, i) == LeftAt(shares[1..], send - shares[0], i - 1)
    decreases i
  {
    if i > 1 {
      LeftTail(shares, send, i - 1);
      assert shares[1..][i - 2] == shares[i - 1];
    }
  }

  lemma AcSharesHead(ac: nat, rs: seq<nat>, qs: seq<nat>, send: nat)
    requires ac + |qs| == AC_MAX && |rs| == BK && (forall k :: 0 <= k < BK ==> rs[k] <= 100)
    requires send <= Sum(qs) && qs != []
    ensures var r := AcShares(ac, rs, qs, send);
      && r[0] <= send && send - r[0] <= Sum(qs[1..])
      && r[1..] == AcShares(ac + 1, rs, qs[1..], send - r[0])
      && (ac < BK ==> Min(qs[0], send * rs[ac] / 100) <= r[0])
    ensures qs[0] <= Sum(qs) && Sum(qs[1..]) == Sum(qs) - qs[0]
    ensures AcShares(ac, rs, qs, send)[0] ==
              if qs[0] == 0 || send == 0 then 0
              else AcShare(ac, if ac < BK then rs[ac] else 0, send, qs[0], Sum(qs))
  {
    hide AcShare, PeerShare;
    if qs[0] != 0 && send != 0 {
      AcShareBounds(ac, if ac < BK then rs[ac] else 0, send, qs[0], Sum(qs));
    }
  }

  /** Every prioritised category is served at least its percentage of the credits that reach it,
      or its whole queue. */
  lemma {:induction false} FloorTheorem(ac: nat, rs: seq<nat>, qs: seq<nat>, send: nat, i: nat)
    requires ac + |qs| == AC_MAX && |rs| == BK && (forall k :: 0 <= k < BK ==> rs[k] <= 100)
    requires send <= Sum(qs) && i < |qs| && ac + i < BK
    ensures var r := AcShares(ac, rs, qs, send);
      0 <= LeftAt(r, send, i) && Min(qs[i], LeftAt(r, send, i) * rs[ac + i] / 100) <= r[i]
    decreases |qs|
  {
    hide AcShares, Min;
    var r := AcShares(ac, rs, qs, send);
    AcSharesHead(ac, rs, qs, send);
    if i > 0 {
      FloorTheorem(ac + 1, rs, qs[1..], send - r[0], i - 1);
      LeftTail(r, send, i);
    }
  }
}

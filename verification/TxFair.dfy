/** How fairly the splitter shares a category's credits among its peers (WIFI/tx_msg.c), stated of the
    queue lengths and of what each queue gives up. */
module TxFair {
  import opened Common
  import opened TxSplit
  import opened TxQueues

  /** `r` is the proportional share, rounded down but at least one, of a peer with `p` packets when
      `f` credits are left for the `q` packets of this peer and the later ones. */
  predicate Proportional(r: int, p: int, f: int, q: int) {
    1 <= r && ((r * q <= p * f < (r + 1) * q) || (r == 1 && p * f < q))
  }

  /** Peer `j` has its proportional share `r[j]` of the credits that reach it, which are those that it
      and the later peers get in all. */
  predicate FairAt(ps: seq<nat>, r: seq<nat>, j: int)
    requires |r| == |ps| && 0 <= j < |ps|
  {
    if ps[j] == 0 || Sum(r[j..]) == 0 then r[j] == 0
    else Proportional(r[j], ps[j], Sum(r[j..]), Sum(ps[j..]))
  }

  predicate Fair(ps: seq<nat>, r: seq<nat>) {
    |r| == |ps| && forall j :: 0 <= j < |ps| ==> FairAt(ps, r, j)
  }

  lemma FloorBetween(x: int, q: int)
    requires 0 < q
    ensures x / q * q <= x < (x / q + 1) * q
  {
    var d := x / q;
    assert x == d * q + x % q;
    assert (d + 1) * q == d * q + q;
  }

  lemma ShareIsProportional(p: nat, f: nat, q: nat)
    requires 1 <= p <= q && 1 <= f <= q
    ensures Proportional(PeerShare(p, f, q), p, f, q)
  {
    FloorBetween(p * f, q);
    QuotientBetween(p * f, q, 0, f) by {
      MulLe(p, q, f);
      MulLe(0, p, f);
    }
    var d := p * f / q;
    if d == 0 {
      assert p * f < (0 + 1) * q;
    }
  }

  lemma SuffixSums(xs: seq<nat>, j: nat)
    requires 0 < j <= |xs|
    ensures xs[j..] == xs[1..][j - 1..]
  {
  }

  lemma {:induction false} PeerSharesFair(ps: seq<nat>, fp: nat)
    requires fp <= Sum(ps)
    ensures Fair(ps, PeerShares(ps, fp))
    decreases |ps|
  {
    hide Fair, Proportional, PeerShares, Sum;
    var r := PeerShares(ps, fp);
    if ps == [] {
      EmptyFair(ps, r);
    } else {
      FirstShare(ps, fp);
      PeerSharesFair(ps[1..], fp - r[0]);
      FairCons(ps, r);
    }
  }

  lemma EmptyFair(ps: seq<nat>, r: seq<nat>)
    requires ps == [] && r == []
    ensures Fair(ps, r)
  {
  }

  lemma FirstShare(ps: seq<nat>, fp: nat)
    requires fp <= Sum(ps) && ps != []
    ensures var r := PeerShares(ps, fp);
      && r[0] <= fp && fp - r[0] <= Sum(ps[1..]) && r[1..] == PeerShares(ps[1..], fp - r[0])
      && if ps[0] == 0 || Sum(r) == 0 then r[0] == 0 else Proportional(r[0], ps[0], Sum(r), Sum(ps))
  {
    if ps[0] != 0 && fp != 0 {
      PeerShareBounds(ps[0], fp, Sum(ps));
      ShareIsProportional(ps[0], fp, Sum(ps));
    }
    hide Proportional, PeerShare;
  }

  lemma FairCons(ps: seq<nat>, r: seq<nat>)
    requires ps != [] && |r| == |ps| && Fair(ps[1..], r[1..])
    requires if ps[0] == 0 || Sum(r) == 0 then r[0] == 0 else Proportional(r[0], ps[0], Sum(r), Sum(ps))
    ensures Fair(ps, r)
  {
    hide Proportional, Sum;
    assert r[0..] == r && ps[0..] == ps;
    forall j | 0 <= j < |ps| ensures FairAt(ps, r, j) {
      if j > 0 {
        assert FairAt(ps[1..], r[1..], j - 1);
        SuffixSums(r, j);
        SuffixSums(ps, j);
        assert r[1..][j - 1] == r[j] && ps[1..][j - 1] == ps[j];
      }
    }
  }

  lemma FairTail(ps: seq<nat>, r: seq<nat>)
    requires Fair(ps, r) && ps != []
    ensures Fair(ps[1..], r[1..])
  {
    hide Proportional, Sum;
    forall j | 0 <= j < |ps[1..]| ensures FairAt(ps[1..], r[1..], j) {
      assert FairAt(ps, r, j + 1);
      SuffixSums(r, j + 1);
      SuffixSums(ps, j + 1);
      assert r[1..][j] == r[j + 1] && ps[1..][j] == ps[j + 1];
    }
  }

  // ---------------------------------------------------------------------
  // The shares of a mode

  /** No queue of the row has grown. */
  predicate Shrinks(row: Row, row': Row) {
    |row'| == |row| && forall j :: 0 <= j < |row| ==> |row'[j].list| <= |row[j].list|
  }

  /** What each queue of a row gave up. */
  function Moved(row: Row, row': Row): (r: seq<nat>)
    requires Shrinks(row, row')
    ensures |r| == |row|
  {
    seq(|row|, j requires 0 <= j < |row| => |row[j].list| - |row'[j].list|)
  }

  /** Every category gives up its packets fairly. */
  predicate FairlyMoved(q: seq<Row>, q': seq<Row>) {
    && |q'| == |q|
    && forall i :: 0 <= i < |q| ==> Shrinks(q[i], q'[i]) && Fair(Lens(q[i]), Moved(q[i], q'[i]))
  }

  lemma SharesFair(q: seq<Row>, rs: seq<nat>, send: nat, i: nat)
    requires |q| == AC_MAX && |rs| == BK && (forall k :: 0 <= k < BK ==> rs[k] <= 100) && send <= ModeLen(q)
    requires i < |q|
    ensures Fair(Lens(q[i]), Shares(q, rs, send)[i])
  {
    var acs := AcShares(0, rs, RowLens(q), send);
    PeerSharesFair(Lens(q[i]), acs[i]);
    hide Fair, PeerShares, AcShares;
  }

  /** What a split moves is fair in every category. */
  lemma SplitIsFair(q: seq<Row>, rs: seq<nat>, send: nat)
    requires |q| == AC_MAX && |rs| == BK && (forall k :: 0 <= k < BK ==> rs[k] <= 100) && send <= ModeLen(q)
    ensures FairlyMoved(q, RestMode(q, Shares(q, rs, send), AC_MAX))
  {
    hide Fair, Shares, ModeLen;
    var shares := Shares(q, rs, send);
    var q' := RestMode(q, shares, AC_MAX);
    forall i | 0 <= i < |q| ensures Shrinks(q[i], q'[i]) && Fair(Lens(q[i]), Moved(q[i], q'[i])) {
      assert q'[i] == RestRow(q[i], shares[i], |q[i]|);
      SharesFair(q, rs, send, i);
      assert Moved(q[i], q'[i]) == shares[i];
    }
  }

  // ---------------------------------------------------------------------
  // What fairness means for equal peers

  /** How many of the queues are not empty. */
  function Busy(ps: seq<nat>): nat {
    if ps == [] then 0 else (if ps[0] > 0 then 1 else 0) + Busy(ps[1..])
  }

  lemma {:induction false} EqualSum(ps: seq<nat>, p: nat)
    requires forall j :: 0 <= j < |ps| ==> ps[j] == 0 || ps[j] == p
    ensures Sum(ps) == Busy(ps) * p
    decreases |ps|
  {
    if ps != [] {
      EqualSum(ps[1..], p);
      if ps[0] > 0 {
        assert (1 + Busy(ps[1..])) * p == p + Busy(ps[1..]) * p;
      } else {
        assert ps[0] == 0;
      }
    }
  }

  lemma CancelLe(a: int, b: int, p: int)
    requires 0 < p
    ensures a * p <= b * p <==> a <= b
  {
    if a <= b {
      MulLe(a, b, p);
    } else {
      MulLe(b + 1, a, p);
      assert (b + 1) * p == b * p + p;
    }
  }

  /** `r` is the quotient of `f` credits by `m` peers, or one if there are fewer credits than peers. */
  predicate Quotient(r: int, f: int, m: int) {
    1 <= r && ((r * m <= f < (r + 1) * m) || (r == 1 && f < m))
  }

  lemma EqualQuotient(r: nat, p: nat, f: nat, m: nat)
    requires 0 < p && Proportional(r, p, f, m * p)
    ensures Quotient(r, f, m)
  {
    var x, y := r * m, (r + 1) * m;
    assert r * (m * p) == x * p;
    assert (r + 1) * (m * p) == y * p;
    assert p * f == f * p;
    CancelLe(x, f, p);
    CancelLe(y, f, p);
    CancelLe(m, f, p);
  }

  /** If `f` lies between `a` and `a + 1` for each of `m` peers, the quotient is one of the two and what
      is left lies between them for each of the others. */
  lemma QuotientRange(r: nat, f: nat, m: nat, a: nat)
    requires 0 < m && 0 < f && Quotient(r, f, m) && a * m <= f <= (a + 1) * m
    ensures a <= r <= a + 1 && r <= f && a * (m - 1) <= f - r <= (a + 1) * (m - 1)
  {
    assert (a + 1) * m == a * m + m && (r + 1) * m == r * m + m;
    assert a * (m - 1) == a * m - a && (a + 1) * (m - 1) == a * m + m - a - 1;
    if f < m {
      if a > 0 {
        MulLe(1, a, m);
      }
      if r > 1 {
        MulLe(1, r, m);
      }
    } else {
      QuotientIs(r, f, m, a);
    }
  }

  lemma QuotientIs(r: nat, f: nat, m: nat, a: nat)
    requires 0 < m && r * m <= f < r * m + m && a * m <= f <= a * m + m
    ensures (r == a && f < a * m + m) || (r == a + 1 && f == a * m + m)
  {
    assert (a + 1) * m == a * m + m && (r + 1) * m == r * m + m && (a + 2) * m == a * m + 2 * m;
    if r < a {
      MulLe(r + 1, a, m);
    } else if r > a + 1 {
      MulLe(a + 2, r, m);
    } else if r == a + 1 {
      assert r * m == a * m + m;
    }
  }

  /** All queues that are not empty have `p` packets. */
  predicate AllEqual(ps: seq<nat>, p: nat) {
    forall k :: 0 <= k < |ps| ==> ps[k] == 0 || ps[k] == p
  }

  /** The head of a fair row of equal peers. */
  lemma EqualHead(ps: seq<nat>, r: seq<nat>, p: nat, a: nat)
    requires |r| == |ps| && ps != [] && Fair(ps, r) && 0 < p && AllEqual(ps, p)
    requires a * Busy(ps) <= Sum(r) <= (a + 1) * Busy(ps)
    ensures ps[0] == p ==> a <= r[0] <= a + 1
    ensures a * Busy(ps[1..]) <= Sum(r[1..]) <= (a + 1) * Busy(ps[1..])
  {
    hide Fair, FairAt, Sum, Proportional, Busy;
    HeadOf(ps, r);
    EqualSum(ps, p);
    if ps[0] == p {
      HeadNumbers(r[0], p, Sum(r), Busy(ps), a);
      assert Busy(ps[1..]) == Busy(ps) - 1 && Sum(r[1..]) == Sum(r) - r[0];
    } else {
      assert Busy(ps[1..]) == Busy(ps) && Sum(r[1..]) == Sum(r);
    }
  }

  lemma HeadNumbers(r: nat, p: nat, f: nat, m: nat, a: nat)
    requires 0 < p && 0 < m && a * m <= f <= (a + 1) * m
    requires if f == 0 then r == 0 else Proportional(r, p, f, m * p)
    ensures a <= r <= a + 1 && r <= f && a * (m - 1) <= f - r <= (a + 1) * (m - 1)
  {
    hide Proportional, Quotient;
    if f == 0 {
      NoneEach(a, m);
    } else {
      EqualQuotient(r, p, f, m);
      QuotientRange(r, f, m, a);
    }
  }

  lemma HeadOf(ps: seq<nat>, r: seq<nat>)
    requires |r| == |ps| && ps != [] && Fair(ps, r)
    ensures Sum(r) == r[0] + Sum(r[1..]) && Busy(ps) == (if ps[0] > 0 then 1 else 0) + Busy(ps[1..])
    ensures if ps[0] == 0 || Sum(r) == 0 then r[0] == 0 else Proportional(r[0], ps[0], Sum(r), Sum(ps))
  {
    assert FairAt(ps, r, 0) && r[0..] == r && ps[0..] == ps;
    hide Proportional;
  }

  lemma NoneEach(a: nat, m: nat)
    requires 0 < m && a * m <= 0
    ensures a == 0
  {
    if a > 0 {
      MulLe(1, a, m);
    }
  }

  lemma {:induction false} EqualRange(ps: seq<nat>, r: seq<nat>, p: nat, a: nat, j: nat)
    requires |r| == |ps| && Fair(ps, r) && 0 < p && AllEqual(ps, p)
    requires a * Busy(ps) <= Sum(r) <= (a + 1) * Busy(ps) && j < |ps| && ps[j] == p
    ensures a <= r[j] <= a + 1
    decreases |ps|
  {
    hide Fair, Proportional, Sum, Busy;
    EqualHead(ps, r, p, a);
    if j > 0 {
      FairTail(ps, r);
      EqualRange(ps[1..], r[1..], p, a, j - 1);
    }
  }

  lemma NotNegative(xs: seq<nat>)
    ensures 0 <= Sum(xs)
  {
  }

  lemma Each(f: nat, m: nat) returns (a: nat)
    requires 0 < m
    ensures a * m <= f <= (a + 1) * m
  {
    a := f / m;
    FloorBetween(f, m);
  }

  /** If all peers that have packets have equally many, their shares differ by at most one. */
  lemma EqualPeersTheorem(ps: seq<nat>, r: seq<nat>, p: nat, i: nat, j: nat)
    requires |r| == |ps| && 0 < p && AllEqual(ps, p) && i < |ps| && j < |ps| && ps[i] == ps[j] == p
    requires Fair(ps, r)
    ensures r[i] <= r[j] + 1 && r[j] <= r[i] + 1
  {
    hide Fair, FairAt, Busy, Sum, AllEqual;
    SomeBusy(ps, i);
    NotNegative(r);
    var a := Each(Sum(r), Busy(ps));
    EqualRange(ps, r, p, a, i);
    EqualRange(ps, r, p, a, j);
  }

  lemma {:induction false} SomeBusy(ps: seq<nat>, i: nat)
    requires i < |ps| && ps[i] > 0
    ensures 0 < Busy(ps)
    decreases i
  {
    if i > 0 {
      SomeBusy(ps[1..], i - 1);
    }
  }

  // ---------------------------------------------------------------------
  // Equal peers among others

  /** The part of `f` credits for `p` of `q` packets. */
  function Part(p: nat, f: nat, q: nat): real
    requires 0 < q
  {
    Scaled(p as real, f as real, q as real)
  }

  function Scaled(p: real, f: real, q: real): real
    requires 0.0 < q
  {
    p * f / q
  }

  /** The exact share, unrounded, that `p` packets would have when the turn comes to peer `k`. */
  function Exact(ps: seq<nat>, r: seq<nat>, p: nat, k: nat): real
    requires k <= |ps| == |r| && Sum(ps[k..]) > 0
  {
    Part(p, Sum(r[k..]), Sum(ps[k..]))
  }

  lemma {:induction false} SuffixHolds(ps: seq<nat>, k: nat, j: nat)
    requires k <= j < |ps|
    ensures ps[j] <= Sum(ps[k..])
    decreases j - k
  {
    assert ps[k..] == [ps[k]] + ps[k + 1..];
    SuffixStep(ps, k);
    NotNegative(ps[k + 1..]);
    if k < j {
      SuffixHolds(ps, k + 1, j);
    }
  }

  lemma SuffixStep(xs: seq<nat>, k: nat)
    requires k < |xs|
    ensures Sum(xs[k..]) == xs[k] + Sum(xs[k + 1..])
  {
    assert xs[k..][1..] == xs[k + 1..];
  }

  /** Two ratios whose cross products differ by at most the first denominator differ by at most one
      part in the second. */
  lemma RatioStep(p: real, f: real, q: real, f': real, q': real)
    requires 0.0 < p <= q' && 0.0 < q && -q <= f' * q - f * q' <= q
    ensures -1.0 <= Scaled(p, f', q') - Scaled(p, f, q) <= 1.0
  {
    hide Scaled;
    var a, b := f / q, f' / q';
    ScaledIs(p, f, q);
    ScaledIs(p, f', q');
    var d := (b - a) * q';
    Cross(a, q, b, q');
    assert f == a * q && f' == b * q';
    assert d * q == f' * q - f * q';
    Within(d, q);
    Smaller(b - a, p, q');
    assert p * b - p * a == (b - a) * p;
  }

  lemma ScaledIs(p: real, f: real, q: real)
    requires 0.0 < q
    ensures Scaled(p, f, q) == p * (f / q) && f == (f / q) * q
  {
  }

  lemma Cross(a: real, q: real, b: real, q': real)
    ensures ((b - a) * q') * q == (b * q') * q - (a * q) * q'
  {
  }

  lemma Within(d: real, q: real)
    requires 0.0 < q && -q <= d * q <= q
    ensures -1.0 <= d <= 1.0
  {
    if d > 1.0 {
      MulPositive(d - 1.0, q);
    }
    if d < -1.0 {
      MulPositive(-1.0 - d, q);
    }
  }

  lemma MulPositive(a: real, b: real)
    requires 0.0 <= a && 0.0 < b
    ensures 0.0 <= a * b && (0.0 < a ==> 0.0 < a * b)
  {
  }

  lemma Smaller(x: real, p: real, q: real)
    requires 0.0 < p <= q && -1.0 <= x * q <= 1.0
    ensures -1.0 <= x * p <= 1.0
  {
    if x >= 0.0 {
      assert x * (q - p) >= 0.0;
      assert x * p >= 0.0;
    } else {
      assert (-x) * (q - p) >= 0.0;
      assert (-x) * p >= 0.0;
    }
  }

  /** A rounded share is less than one packet away from the exact one. */
  lemma Rounded(ps: seq<nat>, r: seq<nat>, k: nat)
    requires |r| == |ps| && k < |ps| && Fair(ps, r) && 0 < ps[k] && Sum(ps[k..]) > 0
    ensures (r[k] as real) - 1.0 < Exact(ps, r, ps[k], k) < (r[k] as real) + 1.0
  {
    hide Fair, Sum, Proportional, Part;
    TurnOf(ps, r, k);
    NotNegative(r[k..]);
    RoundedNumbers(r[k], ps[k], Sum(r[k..]), Sum(ps[k..]));
  }

  lemma RoundedNumbers(r: nat, p: nat, f: nat, q: nat)
    requires 0 < p && 0 < q && if f == 0 then r == 0 else Proportional(r, p, f, q)
    ensures (r as real) - 1.0 < Part(p, f, q) < (r as real) + 1.0
  {
    CastMul(p, f);
    CastMul(r, q);
    CastMul(r + 1, q);
    var x, y, z := (p * f) as real, q as real, r as real;
    if f == 0 {
      Between(0.0, y, 0.0, 1.0);
    } else if r * q <= p * f < (r + 1) * q {
      Between(x, y, z, z + 1.0);
    } else {
      MulLe(1, p, f);
      Between(x, y, 0.0, 1.0);
      PositiveQuotient(x, y);
    }
  }

  lemma PositiveQuotient(x: real, y: real)
    requires 0.0 < x && 0.0 < y
    ensures 0.0 < x / y
  {
    var d := x / y;
    assert d * y == x;
    if d <= 0.0 {
      MulPositive(-d, y);
    }
  }

  lemma Between(x: real, y: real, a: real, b: real)
    requires 0.0 < y && a * y <= x < b * y
    ensures a <= x / y < b
  {
    var d := x / y;
    assert d * y == x;
    if d < a {
      MulPositive(a - d, y);
    }
    if d >= b {
      MulPositive(d - b, y);
    }
  }

  /** From one turn to the next the exact share of `p` packets moves by at most one. */
  lemma DriftStep(ps: seq<nat>, r: seq<nat>, p: nat, k: nat)
    requires |r| == |ps| && k + 1 < |ps| && Fair(ps, r) && 0 < p <= Sum(ps[k + 1..])
    ensures 0 < Sum(ps[k..]) && -1.0 <= Exact(ps, r, p, k + 1) - Exact(ps, r, p, k) <= 1.0
  {
    hide Fair, Sum, Proportional, Part;
    TurnOf(ps, r, k);
    NotNegative(r[k..]);
    NotNegative(r[k + 1..]);
    DriftNumbers(p, r[k], ps[k], Sum(r[k + 1..]), Sum(ps[k + 1..]));
  }

  lemma TurnOf(ps: seq<nat>, r: seq<nat>, k: nat)
    requires |r| == |ps| && k < |ps| && Fair(ps, r)
    ensures Sum(r[k..]) == r[k] + Sum(r[k + 1..]) && Sum(ps[k..]) == ps[k] + Sum(ps[k + 1..])
    ensures if ps[k] == 0 || Sum(r[k..]) == 0 then r[k] == 0
            else Proportional(r[k], ps[k], Sum(r[k..]), Sum(ps[k..]))
  {
    hide Proportional, Sum;
    assert FairAt(ps, r, k);
    SuffixStep(ps, k);
    SuffixStep(r, k);
  }

  lemma DriftNumbers(p: nat, r: nat, x: nat, f': nat, q': nat)
    requires 0 < p <= q' && if x == 0 || r + f' == 0 then r == 0 else Proportional(r, x, r + f', x + q')
    ensures -1.0 <= Part(p, f', q') - Part(p, r + f', x + q') <= 1.0
  {
    hide Proportional, Part;
    var d := CrossDifference(r, x, f', q');
    RealDrift(p, r + f', x + q', f', q', d);
  }

  lemma CrossDifference(r: nat, x: nat, f': nat, q': nat) returns (d: int)
    requires 0 < q' && if x == 0 || r + f' == 0 then r == 0 else Proportional(r, x, r + f', x + q')
    ensures d == f' * (x + q') - (r + f') * q' && d <= x + q' && -d <= x + q'
  {
    hide Proportional;
    d := f' * (x + q') - (r + f') * q';
    CrossBound(r, x, r + f', x + q');
    CrossIs(r, x, f', q');
  }

  lemma CrossIs(r: int, x: int, f': int, q': int)
    ensures f' * (x + q') - (r + f') * q' == x * (r + f') - r * (x + q')
  {
  }

  lemma RealDrift(p: nat, f: nat, q: nat, f': nat, q': nat, d: int)
    requires 0 < p <= q' && 0 < q
    requires d == f' * q - f * q' && d <= q && -d <= q
    ensures -1.0 <= Part(p, f', q') - Part(p, f, q) <= 1.0
  {
    hide Scaled;
    var x, y, z, y', z' := p as real, f as real, q as real, f' as real, q' as real;
    CrossInReals(f, q, f', q', d);
    RatioStep(x, y, z, y', z');
  }

  lemma CrossInReals(f: nat, q: nat, f': nat, q': nat, d: int)
    requires d == f' * q - f * q' && d <= q && -d <= q
    ensures -(q as real) <= f' as real * q as real - f as real * q' as real <= q as real
  {
    CastCross(f, q, f', q');
    assert -(q as real) <= d as real <= q as real;
  }

  lemma CastCross(f: int, q: int, f': int, q': int)
    ensures (f' * q - f * q') as real == f' as real * q as real - f as real * q' as real
  {
    CastMul(f', q);
    CastMul(f, q');
  }

  lemma CastMul(a: int, b: int)
    ensures (a * b) as real == a as real * b as real
  {
  }

  lemma CrossBound(r: int, x: int, f: int, q: int)
    requires 0 < q && 0 <= r && 0 <= x && 0 <= f && if x == 0 || f == 0 then r == 0 else Proportional(r, x, f, q)
    ensures x * f - r * q <= q && r * q - x * f <= q
  {
    assert (r + 1) * q == r * q + q;
    if x == 0 || f == 0 {
      assert x * f == 0;
    } else if !(r * q <= x * f < (r + 1) * q) {
      MulLe(0, x, f);
    }
  }

  lemma {:induction false} Drift(ps: seq<nat>, r: seq<nat>, p: nat, i: nat, j: nat)
    requires |r| == |ps| && i <= j < |ps| && Fair(ps, r) && 0 < p == ps[j]
    ensures 0 < Sum(ps[i..]) && 0 < Sum(ps[j..])
    ensures -((j - i) as real) <= Exact(ps, r, p, j) - Exact(ps, r, p, i) <= (j - i) as real
    decreases j - i
  {
    SuffixHolds(ps, i, j);
    SuffixHolds(ps, j, j);
    hide Fair, Sum, Exact;
    if i < j {
      SuffixHolds(ps, i + 1, j);
      DriftStep(ps, r, p, i);
      Drift(ps, r, p, i + 1, j);
    }
  }

  /** Whatever the other queues hold, two peers with equally many packets get shares that differ by at
      most one more than their distance. */
  lemma EqualQueuesTheorem(ps: seq<nat>, r: seq<nat>, i: nat, j: nat)
    requires |r| == |ps| && i <= j < |ps| && ps[i] == ps[j] > 0 && Fair(ps, r)
    ensures r[i] <= r[j] + (j - i) + 1 && r[j] <= r[i] + (j - i) + 1
  {
    hide Fair, Sum, Exact;
    Drift(ps, r, ps[j], i, j);
    Rounded(ps, r, i);
    Rounded(ps, r, j);
  }
}

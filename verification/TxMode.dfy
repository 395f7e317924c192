/** The operations on one mode's transmit queues (WIFI/tx_msg.c). */
module TxMode {
  import opened Common
  import opened TxSplit
  import opened TxQueues
  import opened TxFair

  /** How many packets a timed-out queue drops (handle_tx_timeout). */
  function DropCount(n: nat, maxNum: nat): int
    requires 0 < maxNum
  {
    Min(n * n / maxNum, n)
  }

  /** The drop is quadratic in the queue's length: none of a short queue, all of a full one. */
  lemma DropCountBounds(n: nat, maxNum: nat)
    requires 0 < maxNum
    ensures 0 <= DropCount(n, maxNum) <= n
    ensures DropCount(n, maxNum) == n <==> n == 0 || maxNum <= n
    ensures DropCount(n, maxNum) == 0 <==> n == 0 || n * n < maxNum
  {
    QuotientGe(n * n, maxNum, 0);
    QuotientGe(n * n, maxNum, 1);
    QuotientGe(n * n, maxNum, n);
    if maxNum <= n {
      MulLe(maxNum, n, n);
    } else if n > 0 {
      MulLe(n + 1, maxNum, n);
    }
  }

  /** In between it is the largest number of packets, times the limit, that the squared length covers. */
  lemma DropCountExactly(n: nat, maxNum: nat)
    requires 0 < maxNum
    ensures var k := DropCount(n, maxNum);
      0 <= k <= n && k * maxNum <= n * n && (k == n || n * n < (k + 1) * maxNum)
  {
    DropCountBounds(n, maxNum);
    var k := DropCount(n, maxNum);
    FloorBetween(n * n, maxNum);
    if k < n * n / maxNum {
      MulLe(k, n * n / maxNum, maxNum);
    }
  }

  lemma QuotientGe(x: int, q: int, k: int)
    requires 0 < q
    ensures k <= x / q <==> k * q <= x
  {
    var d := x / q;
    assert x == d * q + x % q;
    if k <= d {
      MulLe(k, d, q);
    } else {
      MulLe(d + 1, k, q);
    }
  }

  /** Whether the head of the queue has waited past its deadline. */
  predicate Expired(pq: PeerQueue, now: int) {
    pq.list != [] && now > pq.list[0].deadline
  }

  function Aged(pq: PeerQueue, now: int, maxNum: nat): PeerQueue
    requires 0 < maxNum
  {
    if Expired(pq, now) then DropCountBounds(|pq.list|, maxNum); RestOf(pq, DropCount(|pq.list|, maxNum)) else pq
  }

  function AgedRow(row: Row, now: int, maxNum: nat, n: nat): (r: Row)
    requires 0 < maxNum
    ensures |r| == |row|
  {
    seq(|row|, j requires 0 <= j < |row| => if j < n then Aged(row[j], now, maxNum) else row[j])
  }

  function AgedMode(q: seq<Row>, now: int, maxNum: nat, n: nat): (r: seq<Row>)
    requires 0 < maxNum
    ensures |r| == |q|
  {
    seq(|q|, i requires 0 <= i < |q| => if i < n then AgedRow(q[i], now, maxNum, |q[i]|) else q[i])
  }

  /** How many packets a queue loses to its deadline. */
  function LateCount(pq: PeerQueue, now: int, maxNum: nat): (n: nat)
    requires 0 < maxNum
    ensures n <= |pq.list|
  {
    DropCountBounds(|pq.list|, maxNum);
    if Expired(pq, now) then DropCount(|pq.list|, maxNum) else 0
  }

  function LateCounts(row: Row, now: int, maxNum: nat): (r: seq<nat>)
    requires 0 < maxNum
    ensures Fits(row, r)
  {
    seq(|row|, j requires 0 <= j < |row| => LateCount(row[j], now, maxNum))
  }

  function LateShares(q: seq<Row>, now: int, maxNum: nat): (r: seq<seq<nat>>)
    requires 0 < maxNum
    ensures AllFit(q, r)
  {
    seq(|q|, i requires 0 <= i < |q| => LateCounts(q[i], now, maxNum))
  }

  lemma LateStep(row: Row, now: int, maxNum: nat, n: nat)
    requires 0 < maxNum && n < |row|
    ensures TakenRow(row, LateCounts(row, now, maxNum), n + 1)
         == TakenRow(row, LateCounts(row, now, maxNum), n) + row[n].list[..LateCount(row[n], now, maxNum)]
    ensures row[n].list == [] ==> row[n].list[..LateCount(row[n], now, maxNum)] == []
  {
    hide LateCount;
  }

  lemma LateModeStep(q: seq<Row>, now: int, maxNum: nat, i: nat)
    requires 0 < maxNum && i < |q|
    ensures TakenMode(q, LateShares(q, now, maxNum), i + 1)
         == TakenMode(q, LateShares(q, now, maxNum), i) + TakenRow(q[i], LateCounts(q[i], now, maxNum), |q[i]|)
  {
    hide LateCounts, TakenRow;
  }

  /** When everything is granted every queue gives up all it has. */
  lemma {:induction false} FullSum(ps: seq<nat>, r: seq<nat>, j: int)
    requires |r| == |ps| && Sum(r) == Sum(ps) && 0 <= j < |ps| && forall k :: 0 <= k < |ps| ==> r[k] <= ps[k]
    ensures r[j] == ps[j]
  {
    SumBelow(ps[1..], r[1..]);
    if j > 0 {
      FullSum(ps[1..], r[1..], j - 1);
    }
  }

  lemma {:induction false} SumBelow(ps: seq<nat>, r: seq<nat>)
    requires |r| == |ps| && forall k :: 0 <= k < |ps| ==> r[k] <= ps[k]
    ensures Sum(r) <= Sum(ps)
  {
    if ps != [] {
      SumBelow(ps[1..], r[1..]);
    }
  }

  lemma FullShares(q: seq<Row>, rs: seq<nat>)
    requires |q| == AC_MAX && |rs| == BK && (forall k :: 0 <= k < BK ==> rs[k] <= 100)
    ensures forall i :: 0 <= i < |q| ==> Shares(q, rs, ModeLen(q))[i] == Lens(q[i])
  {
    var shares := Shares(q, rs, ModeLen(q));
    var acs := AcShares(0, rs, RowLens(q), ModeLen(q));
    forall i | 0 <= i < |q| ensures shares[i] == Lens(q[i]) {
      FullSum(RowLens(q), acs, i);
      forall j | 0 <= j < |q[i]| ensures shares[i][j] == Lens(q[i])[j] {
        FullSum(Lens(q[i]), shares[i], j);
      }
    }
  }

  lemma AgedRowStep(row: Row, now: int, maxNum: nat, n: nat)
    requires 0 < maxNum && n < |row|
    ensures AgedRow(row, now, maxNum, n)[n] == row[n]
    ensures AgedRow(row, now, maxNum, n + 1) == AgedRow(row, now, maxNum, n)[n := Aged(row[n], now, maxNum)]
    ensures row[n].list == [] ==> AgedRow(row, now, maxNum, n + 1) == AgedRow(row, now, maxNum, n)
  {
    hide Aged;
    assert row[n].list == [] ==> Aged(row[n], now, maxNum) == row[n] by {
      AgedEmpty(row[n], now, maxNum);
    }
  }

  lemma AgedEmpty(pq: PeerQueue, now: int, maxNum: nat)
    requires 0 < maxNum
    ensures pq.list == [] ==> Aged(pq, now, maxNum) == pq
  {
  }

  /** Once the credits are used up the remaining peers give nothing. */
  lemma NoCreditsLeft(row: Row, shares: seq<nat>, ps: seq<nat>, n: nat)
    requires RowOk(row) && Fits(row, shares) && n <= |ps| == |row| && shares[n..] == PeerShares(ps[n..], 0)
    ensures RestRow(row, shares, |row|) == RestRow(row, shares, n)
    ensures TakenRow(row, shares, |row|) == TakenRow(row, shares, n)
  {
    hide PeerShares, RestRow, TakenRow, Sum;
    forall j | n <= j < |row| ensures shares[j] == 0 {
      SumZero(shares[n..], j - n);
    }
    RestRowZeros(row, shares, n, |row|);
  }

  /** What a queue has left after late packets are dropped: all, unless its first packet is late; then it
      has lost its first packets, as many as the squared length covers at `maxNum` each. */
  lemma AgedModeAt(q: seq<Row>, now: int, maxNum: nat, i: nat, j: nat)
    requires 0 < maxNum && i < |q| && j < |q[i]|
    ensures var l, l' := q[i][j].list, AgedMode(q, now, maxNum, |q|)[i][j].list;
      if l == [] || now <= l[0].deadline then l' == l
      else
        var k := |l| - |l'|;
        0 <= k && l' == l[k..] && k * maxNum <= |l| * |l| && (k == |l| || |l| * |l| < (k + 1) * maxNum)
  {
    DropCountExactly(|q[i][j].list|, maxNum);
    hide DropCount;
  }

  lemma AgedModeStart(q: seq<Row>, now: int, maxNum: nat)
    requires QueuesOk(q) && 0 < maxNum
    ensures AgedMode(q, now, maxNum, 0) == q && forall k :: 0 <= k < AC_MAX ==> |q[k]| == MAX_LUT_NUM
  {
  }

  lemma AgedModeStep(q: seq<Row>, now: int, maxNum: nat, i: nat)
    requires 0 < maxNum && i < |q|
    ensures AgedMode(q, now, maxNum, i)[i] == q[i]
    ensures AgedMode(q, now, maxNum, i + 1) == AgedMode(q, now, maxNum, i)[i := AgedRow(q[i], now, maxNum, |q[i]|)]
  {
    hide AgedRow;
  }

  lemma ModeLenIs(q: seq<Row>)
    ensures ModeLen(q) == Sum(RowLens(q))
  {
  }

  lemma SplitStart(q: seq<Row>, i: int, shares: seq<nat>)
    requires 0 <= i < |q| && Fits(q[i], shares)
    ensures q == q[i := RestRow(q[i], shares, 0)] && TakenRow(q[i], shares, 0) == []
  {
    assert RestRow(q[i], shares, 0) == q[i];
  }

  /** One turn of the peer loop: the share of peer `j` and what it leaves for the later peers. */
  lemma SplitStep(row: Row, shares: seq<nat>, ps: seq<nat>, j: nat, fp: nat)
    requires RowOk(row) && Fits(row, shares) && ps == Lens(row) && j < |row|
    requires fp <= Sum(ps[j..]) && shares[j..] == PeerShares(ps[j..], fp)
    ensures ps[j] <= Sum(ps[j..]) && Sum(ps[j + 1..]) == Sum(ps[j..]) - ps[j]
    ensures shares[j] <= fp && fp - shares[j] <= Sum(ps[j + 1..])
    ensures shares[j + 1..] == PeerShares(ps[j + 1..], fp - shares[j])
    ensures ps[j] != 0 ==> shares[j] == PeerShare(ps[j], fp, Sum(ps[j..])) && (fp > 0 ==> 0 < shares[j])
    ensures ps[j] == 0 || fp == 0 ==> shares[j] == 0
    ensures RestRow(row, shares, j)[j] == row[j]
    ensures RestRow(row, shares, j + 1) == RestRow(row, shares, j)[j := RestOf(row[j], shares[j])]
    ensures shares[j] == 0 ==> RestRow(row, shares, j + 1) == RestRow(row, shares, j)
    ensures shares[j] == 0 ==> TakenRow(row, shares, j + 1) == TakenRow(row, shares, j)
    ensures TakenRow(row, shares, j + 1) == TakenRow(row, shares, j) + row[j].list[..shares[j]]
  {
    hide PeerShares, PeerShare;
    assert ps[j..][1..] == ps[j + 1..] && shares[j..][1..] == shares[j + 1..];
    PeerSharesStep(ps[j..], fp);
    if ps[j] != 0 && fp != 0 {
      PeerShareBounds(ps[j], fp, Sum(ps[j..]));
    } else if ps[j] != 0 {
      PeerShareZero(ps[j], Sum(ps[j..]));
    }
    RestRowStep(row, shares, j);
  }

  lemma PeerShareZero(p: nat, q: nat)
    requires 0 < q
    ensures PeerShare(p, 0, q) == 0
  {
    assert p * 0 / q == 0;
  }

  /** How many packets the credits move. */
  function Batch(q: seq<Row>, credit: int): (n: nat)
    requires ModeLen(q) == 0 || credit > 0
    ensures n <= ModeLen(q)
  {
    if ModeLen(q) == 0 then 0 else Min(credit, ModeLen(q))
  }

  predicate RatiosOk(rs: seq<nat>) {
    |rs| == BK && forall k :: 0 <= k < BK ==> rs[k] <= 100
  }

  lemma Widths(q: seq<Row>)
    requires QueuesOk(q)
    ensures |q| == AC_MAX && forall k :: 0 <= k < AC_MAX ==> |q[k]| == MAX_LUT_NUM
  {
  }

  lemma RestModeStart(q: seq<Row>, shares: seq<seq<nat>>)
    requires AllFit(q, shares)
    ensures RestMode(q, shares, 0) == q && TakenMode(q, shares, 0) == []
  {
  }

  /** One turn of the category loop. */
  lemma RestModeStep(q: seq<Row>, shares: seq<seq<nat>>, i: nat)
    requires AllFit(q, shares) && i < |q|
    ensures RestMode(q, shares, i)[i] == q[i]
    ensures RestMode(q, shares, i + 1) == RestMode(q, shares, i)[i := RestRow(q[i], shares[i], |q[i]|)]
    ensures TakenMode(q, shares, i + 1) == TakenMode(q, shares, i) + TakenRow(q[i], shares[i], |q[i]|)
  {
    hide RestRow, TakenRow;
  }

  lemma AcStep(rs: seq<nat>, qs: seq<nat>, acs: seq<nat>, i: nat, send: nat)
    requires RatiosOk(rs) && |qs| == |acs| == AC_MAX && i < AC_MAX
    requires send <= Sum(qs[i..]) && acs[i..] == AcShares(i, rs, qs[i..], send)
    ensures qs[i] <= Sum(qs[i..]) && Sum(qs[i + 1..]) == Sum(qs[i..]) - qs[i]
    ensures acs[i] <= send && send - acs[i] <= Sum(qs[i + 1..])
    ensures acs[i + 1..] == AcShares(i + 1, rs, qs[i + 1..], send - acs[i])
    ensures acs[i] == if qs[i] == 0 || send == 0 then 0
                      else AcShare(i, if i < BK then rs[i] else 0, send, qs[i], Sum(qs[i..]))
  {
    hide AcShare, AcShares, Sum;
    assert qs[i..][1..] == qs[i + 1..] && acs[i..][1..] == acs[i + 1..];
    AcSharesHead(i, rs, qs[i..], send);
  }

  lemma ZeroRow(row: Row, shares: seq<nat>)
    requires RowOk(row) && Fits(row, shares) && Sum(shares) == 0
    ensures RestRow(row, shares, |row|) == row && TakenRow(row, shares, |row|) == []
  {
    forall j | 0 <= j < |row| ensures shares[j] == 0 {
      SumZero(shares, j);
    }
    RestRowZeros(row, shares, 0, |row|);
    assert RestRow(row, shares, 0) == row;
  }

  lemma EmptyCategory(q: seq<Row>, shares: seq<seq<nat>>, i: nat)
    requires QueuesOk(q) && AllFit(q, shares) && i < |q| && Sum(shares[i]) == 0
    ensures RestMode(q, shares, i + 1) == RestMode(q, shares, i)
    ensures TakenMode(q, shares, i + 1) == TakenMode(q, shares, i)
  {
    hide RestRow, TakenRow, RestMode, TakenMode, RowOk, Fits;
    ZeroRow(q[i], shares[i]);
    RestModeStep(q, shares, i);
    var r := RestMode(q, shares, i);
    assert r[i := r[i]] == r;
  }

  lemma {:induction false} NoCreditsForModes(q: seq<Row>, shares: seq<seq<nat>>, acs: seq<nat>, i: nat)
    requires QueuesOk(q) && AllFit(q, shares) && |acs| == |q| && i <= |q| && Sum(acs[i..]) == 0
    requires forall k :: 0 <= k < |q| ==> Sum(shares[k]) == acs[k]
    ensures RestMode(q, shares, |q|) == RestMode(q, shares, i) && TakenMode(q, shares, |q|) == TakenMode(q, shares, i)
    decreases |q| - i
  {
    hide RestMode, TakenMode, Sum, QueuesOk;
    if i < |q| {
      ZeroFirst(acs[i..]);
      assert acs[i..][1..] == acs[i + 1..];
      EmptyCategory(q, shares, i);
      NoCreditsForModes(q, shares, acs, i + 1);
    }
  }

  lemma ZeroFirst(xs: seq<nat>)
    requires xs != [] && Sum(xs) == 0
    ensures xs[0] == 0 && Sum(xs[1..]) == 0
  {
  }

  /** Every queue's whole length. */
  function AllOf(q: seq<Row>): seq<seq<nat>> {
    seq(|q|, i requires 0 <= i < |q| => Lens(q[i]))
  }

  lemma AllOfFits(q: seq<Row>)
    ensures AllFit(q, AllOf(q))
  {
  }

  lemma TakenStep(row: Row, shares: seq<nat>, n: nat)
    requires Fits(row, shares) && n < |row|
    ensures TakenRow(row, shares, n + 1) == TakenRow(row, shares, n) + row[n].list[..shares[n]]
  {
  }

  lemma NothingTaken(row: Row, shares: seq<nat>, d: seq<Packet>)
    requires Fits(row, shares)
    ensures d + TakenRow(row, shares, 0) == d
  {
  }

  lemma Joined(a: seq<Packet>, b: seq<Packet>, c: seq<Packet>)
    ensures a + b + c == a + (b + c)
  {
  }

  lemma ModeOf(q: seq<Row>)
    requires QueuesOk(q)
    ensures |q| == AC_MAX
  {
  }

  lemma FullSharesSeq(q: seq<Row>, rs: seq<nat>, pNum: seq<seq<nat>>)
    requires |q| == AC_MAX && RatiosOk(rs) && |pNum| == |q| && forall i :: 0 <= i < |q| ==> pNum[i] == Lens(q[i])
    ensures pNum == AllOf(q) && Shares(q, rs, ModeLen(q)) == pNum
  {
    hide Shares, Lens, ModeLen;
    FullShares(q, rs);
    assert pNum == AllOf(q);
    assert Shares(q, rs, ModeLen(q)) == pNum;
  }

  lemma AllTaken(q: seq<Row>)
    requires QueuesOk(q)
    ensures AllFit(q, AllOf(q)) && ModeLen(RestMode(q, AllOf(q), |q|)) == 0
  {
    var r := RestMode(q, AllOf(q), |q|);
    EmptyLen(r);
  }

  class Mode {
    var q: seq<Row>
    var modeListNum: int
    var toSend: seq<Packet>   // xmit_msg_list.to_send_list
    var dropped: seq<Packet>  // packets given back unsent

    /** Every counter equals what it counts. */
    ghost predicate Valid()
      reads this
    {
      QueuesOk(q) && modeListNum == ModeLen(q)
    }

    constructor ()
      ensures Valid() && modeListNum == 0 && toSend == [] && dropped == []
    {
      var row := seq(MAX_LUT_NUM, _ => PeerQueue([], 0));
      q, modeListNum, toSend, dropped := [row, row, row, row], 0, [], [];
      new;
      EmptyLen(q);
    }

    /** sprdwl_queue_data_msg_buf and the counting of sprdwl_tx_msg_func */
    method Enqueue(i: nat, j: nat, p: Packet, urgent: bool)
      requires Valid() && i < AC_MAX && j < MAX_LUT_NUM
      modifies this`q, this`modeListNum
      ensures Valid() && modeListNum == old(modeListNum) + 1
      ensures var l := old(q[i][j].list);
        q == SetPeer(old(q), i, j, PeerQueue(if urgent then [p] + l else l + [p], |l| + 1))
    {
      hide ModeLen;
      var pq := q[i][j];
      var pq' := PeerQueue(if urgent then [p] + pq.list else pq.list + [p], pq.num + 1);
      ModeLenUpdate(q, i, j, pq');
      SetPeerOk(q, i, j, pq');
      q := SetPeer(q, i, j, pq');
      modeListNum := modeListNum + 1;
    }

    /** Takes the first `n` packets of a queue; l_num and mode_list_num follow. */
    method TakeHead(i: nat, j: nat, n: nat) returns (head: seq<Packet>)
      requires Valid() && i < AC_MAX && j < MAX_LUT_NUM && n <= |q[i][j].list|
      modifies this`q, this`modeListNum
      ensures Valid() && head == old(q[i][j].list)[..n] && modeListNum == old(modeListNum) - n
      ensures q == SetPeer(old(q), i, j, RestOf(old(q[i][j]), n))
    {
      hide ModeLen;
      var pq := q[i][j];
      head := pq.list[..n];
      ModeLenUpdate(q, i, j, RestOf(pq, n));
      SetPeerOk(q, i, j, RestOf(pq, n));
      q := SetPeer(q, i, j, RestOf(pq, n));
      modeListNum := modeListNum - n;
    }

    /** add_xmit_list_tail with the two counters its callers lower: the head of a queue goes to the
        tail of the transmit list. Asked for more packets than there are, the list walk ends at the
        list head, so the cut takes nothing, and the counters no longer fit. */
    method AddXmitListTail(i: nat, j: nat, n: nat)
      requires Valid() && i < AC_MAX && j < MAX_LUT_NUM
      modifies this`q, this`modeListNum, this`toSend
      ensures Valid() <==> n <= |old(q[i][j].list)|
      ensures modeListNum == old(modeListNum) - n
      ensures var pq := old(q[i][j]);
        if n <= |pq.list| then toSend == old(toSend) + pq.list[..n] && q == SetPeer(old(q), i, j, RestOf(pq, n))
        else toSend == old(toSend) && q == SetPeer(old(q), i, j, pq.(num := pq.num - n))
    {
      if n <= |q[i][j].list| {
        var head := TakeHead(i, j, n);
        toSend := toSend + head;
      } else {
        var pq := q[i][j];
        q := SetPeer(q, i, j, pq.(num := pq.num - n));
        modeListNum := modeListNum - n;
        assert q[i][j].num != |q[i][j].list|;
      }
    }

    /** handle_tx_timeout on a peer queue */
    method HandleTxTimeout(i: nat, j: nat, now: int, maxNum: nat) returns (late: bool)
      requires Valid() && i < AC_MAX && j < MAX_LUT_NUM && 0 < maxNum
      modifies this`q, this`modeListNum, this`dropped
      ensures Valid() && late == (old(q[i][j].list) != [] && now > old(q[i][j].list)[0].deadline)
      ensures q == SetPeer(old(q), i, j, Aged(old(q[i][j]), now, maxNum))
      ensures dropped == old(dropped) + old(q[i][j].list)[..LateCount(old(q[i][j]), now, maxNum)]
    {
      var pq := q[i][j];
      late := false;
      if pq.list != [] && now > pq.list[0].deadline {
        var del := Min(pq.num * pq.num / maxNum, pq.num);
        DropCountBounds(|pq.list|, maxNum);
        var head := TakeHead(i, j, del);
        dropped := dropped + head;
        late := true;
      } else {
        SetPeerSame(q, i, j);
        assert dropped == dropped + pq.list[..0];
      }
    }

    /** The counting loop over one category: late packets are dropped first. */
    method CountRow(i: nat, now: int, maxNum: nat) returns (ps: seq<nat>, sum: nat)
      requires Valid() && i < AC_MAX && 0 < maxNum
      modifies this`q, this`modeListNum, this`dropped
      ensures Valid() && q == old(q)[i := AgedRow(old(q[i]), now, maxNum, MAX_LUT_NUM)]
      ensures ps == Lens(q[i]) && sum == Sum(ps)
      ensures dropped == old(dropped) + TakenRow(old(q[i]), LateCounts(old(q[i]), now, maxNum), MAX_LUT_NUM)
    {
      hide QueuesOk, ModeLen, Aged, AgedRow, Sum, Expired, LateCount, LateCounts, TakenRow;
      RowStart(q, i, now, maxNum);
      ghost var q0, row, d0 := q, q[i], dropped;
      ghost var late := LateCounts(row, now, maxNum);
      NothingTaken(row, late, d0);
      var j := 0;
      ps, sum := [], 0;
      SumPush([], 0);
      while j < MAX_LUT_NUM
        invariant Valid() && j <= MAX_LUT_NUM && |row| == MAX_LUT_NUM
        invariant |q0| == AC_MAX && q == q0[i := AgedRow(row, now, maxNum, j)] && RowOk(q[i])
        invariant |ps| == j && (forall k :: 0 <= k < j ==> ps[k] == |q[i][k].list|) && sum == Sum(ps)
        invariant dropped == d0 + TakenRow(row, late, j)
      {
        AgedRowStep(row, now, maxNum, j);
        LateStep(row, now, maxNum, j);
        var n := 0;
        if q[i][j].num > 0 {
          var isLate := HandleTxTimeout(i, j, now, maxNum);
          RowOfMode(q, i);
          n := q[i][j].num;
        }
        SumPush(ps, n);
        ps, sum, j := ps + [n], sum + n, j + 1;
      }
      assert ps == Lens(q[i]);
    }

    /** The first loop of sprdwl_tx_eachmode_data. */
    method CountQueues(now: int, maxNum: nat) returns (pNum: seq<seq<nat>>, qNum: seq<nat>, total: nat)
      requires Valid() && 0 < maxNum
      modifies this`q, this`modeListNum, this`dropped
      ensures Valid() && q == AgedMode(old(q), now, maxNum, AC_MAX)
      ensures |pNum| == AC_MAX && forall i :: 0 <= i < AC_MAX ==> pNum[i] == Lens(q[i])
      ensures qNum == RowLens(q) && total == ModeLen(q)
      ensures dropped == old(dropped) + TakenMode(old(q), LateShares(old(q), now, maxNum), AC_MAX)
    {
      hide AgedRow, Lens, RowOk, ModeLen, LateCounts, LateShares, TakenRow, TakenMode, Sum;
      ghost var q0, d0 := q, dropped;
      assert d0 + [] == d0;
      RestModeStart(q, LateShares(q, now, maxNum));
      SumPush([], 0);
      var i := 0;
      pNum, qNum, total := [], [], 0;
      AgedModeStart(q, now, maxNum);
      while i < AC_MAX
        invariant Valid() && i <= AC_MAX && |q0| == AC_MAX && (forall k :: 0 <= k < AC_MAX ==> |q0[k]| == MAX_LUT_NUM)
        invariant q == AgedMode(q0, now, maxNum, i)
        invariant |pNum| == |qNum| == i && total == Sum(qNum)
        invariant forall k :: 0 <= k < i ==> pNum[k] == Lens(q[k]) && qNum[k] == Sum(Lens(q[k]))
        invariant dropped == d0 + TakenMode(q0, LateShares(q0, now, maxNum), i)
      {
        AgedModeStep(q0, now, maxNum, i);
        LateModeStep(q0, now, maxNum, i);
        var ps, sum := CountRow(i, now, maxNum);
        SumPush(qNum, sum);
        pNum, qNum, total, i := pNum + [ps], qNum + [sum], total + sum, i + 1;
      }
      assert qNum == RowLens(q);
      ModeLenIs(q);
    }

    /** The peer loop of the splitter: `fp` credits over the peers of one category. */
    method SplitPeers(i: nat, ps: seq<nat>, qNum: nat, credits: nat)
      requires Valid() && i < AC_MAX && ps == Lens(q[i]) && qNum == Sum(ps) && credits <= qNum
      modifies this`q, this`modeListNum, this`toSend
      ensures Valid() && Fits(old(q[i]), PeerShares(ps, credits))
      ensures q == old(q)[i := RestRow(old(q[i]), PeerShares(ps, credits), MAX_LUT_NUM)]
      ensures toSend == old(toSend) + TakenRow(old(q[i]), PeerShares(ps, credits), MAX_LUT_NUM)
    {
      hide QueuesOk, ModeLen, Sum, PeerShares, RestRow, TakenRow, RestOf;
      RowOfMode(q, i);
      ghost var q0, row, t0, shares := q, q[i], toSend, PeerShares(ps, credits);
      var left: int, fp: int, j := qNum, credits, 0;
      SplitStart(q, i, shares);
      assert ps[0..] == ps && shares[0..] == shares && t0 + [] == t0;
      while j < MAX_LUT_NUM
        invariant Valid() && j <= MAX_LUT_NUM && |q0| == AC_MAX && Fits(row, shares)
        invariant q == q0[i := RestRow(row, shares, j)] && toSend == t0 + TakenRow(row, shares, j)
        invariant left == Sum(ps[j..]) && 0 <= fp <= left && shares[j..] == PeerShares(ps[j..], fp)
      {
        SplitStep(row, shares, ps, j, fp);
        ghost var before := j;
        j := j + 1;
        if ps[j - 1] == 0 {
          continue;
        }
        assert left > 0;
        var round := ps[j - 1] * fp / left;
        if fp > 0 && round == 0 {
          round := 1;
        }
        var n := Min(round, fp);
        if n <= 0 {
          NoCreditsLeft(row, shares, ps, before);
          break;
        }
        left, fp := left - ps[j - 1], fp - n;
        assert q[i][j - 1] == row[j - 1];
        AddXmitListTail(i, j - 1, n);
        assert t0 + TakenRow(row, shares, before) + row[before].list[..n] == t0 + TakenRow(row, shares, j);
        if fp <= 0 {
          NoCreditsLeft(row, shares, ps, j);
          break;
        }
      }
    }

    /** The credits assigned to one category. */
    method CategoryCredits(ac: nat, rs: seq<nat>, send: int, n: int, total: int) returns (fp: int)
      requires RatiosOk(rs) && ac < AC_MAX && 0 < total
      ensures fp == AcShare(ac, if ac < BK then rs[ac] else 0, send, n, total)
    {
      if ac == VO && total > n {
        fp := Min(send * rs[VO] / 100, n);
      } else if ac == VI && total > n {
        fp := Min(send * rs[VI] / 100, n);
      } else if ac == BE && total > n {
        fp := Min(send * rs[BE] / 100, n);
      } else {
        fp := send * n / total;
      }
      if total - n < send - fp && total - n > 0 {
        fp := fp + (send - fp - (total - n));
      }
    }

    /** The body of the category loop for a category with packets while there are credits. */
    method ServeCategory(i: nat, rs: seq<nat>, ps: seq<nat>, n: nat, total: int, send: int) returns (fp: nat)
      requires Valid() && RatiosOk(rs) && i < AC_MAX && ps == Lens(q[i]) && n == Sum(ps)
      requires 1 <= n <= total && 1 <= send <= total
      modifies this`q, this`modeListNum, this`toSend
      ensures Valid() && fp == AcShare(i, if i < BK then rs[i] else 0, send, n, total) && fp <= n
      ensures Fits(old(q[i]), PeerShares(ps, fp))
      ensures q == old(q)[i := RestRow(old(q[i]), PeerShares(ps, fp), MAX_LUT_NUM)]
      ensures toSend == old(toSend) + TakenRow(old(q[i]), PeerShares(ps, fp), MAX_LUT_NUM)
    {
      hide QueuesOk, ModeLen, Sum, AcShare, PeerShares, RestRow, TakenRow, Fits, Lens;
      AcShareBounds(i, if i < BK then rs[i] else 0, send, n, total);
      fp := CategoryCredits(i, rs, send, n, total);
      SplitPeers(i, ps, n, fp);
    }

    /** Case 2 of sprdwl_tx_eachmode_data: fewer credits than packets. */
    method SplitCredits(rs: seq<nat>, pNum: seq<seq<nat>>, qNum: seq<nat>, packets: nat, credits: nat)
      requires Valid() && RatiosOk(rs) && |pNum| == AC_MAX && (forall i :: 0 <= i < AC_MAX ==> pNum[i] == Lens(q[i]))
      requires qNum == RowLens(q) && packets == ModeLen(q) && credits <= packets
      modifies this`q, this`modeListNum, this`toSend
      ensures Valid() && AllFit(old(q), Shares(old(q), rs, credits))
      ensures q == RestMode(old(q), Shares(old(q), rs, credits), AC_MAX)
      ensures toSend == old(toSend) + TakenMode(old(q), Shares(old(q), rs, credits), AC_MAX)
    {
      hide RowOk, ModeLen, Sum, AcShares, AcShare, PeerShares, RestRow, TakenRow, Fits, Lens, RestMode, TakenMode;
      ModeLenIs(q);
      Widths(q);
      ghost var q0, t0 := q, toSend;
      ghost var shares, acs := Shares(q, rs, credits), AcShares(0, rs, qNum, credits);
      var total: int, send: int, i := packets, credits, 0;
      RestModeStart(q, shares);
      assert qNum[0..] == qNum && acs[0..] == acs && t0 + [] == t0;
      while i < AC_MAX
        invariant Valid() && i <= AC_MAX && AllFit(q0, shares) && |q0| == AC_MAX
        invariant forall k :: 0 <= k < AC_MAX ==> |q0[k]| == MAX_LUT_NUM
        invariant q == RestMode(q0, shares, i) && toSend == t0 + TakenMode(q0, shares, i)
        invariant total == Sum(qNum[i..]) && 0 <= send <= total && acs[i..] == AcShares(i, rs, qNum[i..], send)
      {
        AcStep(rs, qNum, acs, i, send);
        RestModeStep(q0, shares, i);
        ghost var before := i;
        i := i + 1;
        if qNum[i - 1] <= 0 {
          EmptyCategory(q0, shares, before);
          continue;
        }
        if send <= 0 {
          NoCreditsForModes(q0, shares, acs, before);
          break;
        }
        var fp := ServeCategory(i - 1, rs, pNum[i - 1], qNum[i - 1], total, send);
        Joined(t0, TakenMode(q0, shares, before), TakenRow(q0[before], shares[before], MAX_LUT_NUM));
        total, send := total - qNum[i - 1], send - fp;
      }
    }

    /** The peer loop of case 1: everything a category holds. */
    method SendRow(i: nat, ps: seq<nat>)
      requires Valid() && i < AC_MAX && ps == Lens(q[i])
      modifies this`q, this`modeListNum, this`toSend
      ensures Valid() && q == old(q)[i := RestRow(old(q[i]), ps, MAX_LUT_NUM)]
      ensures toSend == old(toSend) + TakenRow(old(q[i]), ps, MAX_LUT_NUM)
    {
      hide QueuesOk, ModeLen, RestRow, TakenRow, RestOf;
      RowOfMode(q, i);
      ghost var q0, row, t0 := q, q[i], toSend;
      SplitStart(q, i, ps);
      var j := 0;
      assert t0 + [] == t0;
      while j < MAX_LUT_NUM
        invariant Valid() && j <= MAX_LUT_NUM && |q0| == AC_MAX && Fits(row, ps)
        invariant q == q0[i := RestRow(row, ps, j)] && toSend == t0 + TakenRow(row, ps, j)
      {
        RestRowStep(row, ps, j);
        TakenStep(row, ps, j);
        if ps[j] != 0 {
          AddXmitListTail(i, j, ps[j]);
          assert t0 + TakenRow(row, ps, j) + row[j].list[..ps[j]] == t0 + TakenRow(row, ps, j + 1);
        }
        j := j + 1;
      }
    }

    /** Case 1 of sprdwl_tx_eachmode_data: there are credits for everything. */
    method SendAll(pNum: seq<seq<nat>>, qNum: seq<nat>)
      requires Valid() && pNum == AllOf(q) && qNum == RowLens(q)
      modifies this`q, this`modeListNum, this`toSend
      ensures Valid() && q == RestMode(old(q), pNum, AC_MAX)
      ensures toSend == old(toSend) + TakenMode(old(q), pNum, AC_MAX)
    {
      hide RowOk, ModeLen, RestRow, TakenRow, Lens, RestMode, TakenMode;
      ghost var q0, t0 := q, toSend;
      Widths(q);
      AllOfFits(q);
      RestModeStart(q, pNum);
      assert t0 + [] == t0;
      var i := 0;
      while i < AC_MAX
        invariant Valid() && i <= AC_MAX && AllFit(q0, pNum) && |q0| == AC_MAX
        invariant forall k :: 0 <= k < AC_MAX ==> |q0[k]| == MAX_LUT_NUM
        invariant q == RestMode(q0, pNum, i) && toSend == t0 + TakenMode(q0, pNum, i)
      {
        RestModeStep(q0, pNum, i);
        if qNum[i] <= 0 {
          EmptyCategory(q0, pNum, i);
        } else {
          SendRow(i, pNum[i]);
          assert t0 + TakenMode(q0, pNum, i) + TakenRow(q0[i], pNum[i], MAX_LUT_NUM) == t0 + TakenMode(q0, pNum, i + 1);
        }
        i := i + 1;
      }
    }

    /** sprdwl_tx_eachmode_data up to the hand-over: late packets are dropped, then exactly the
        credits granted are spent, each queue giving up its oldest packets. */
    method EachModeData(now: int, maxNum: nat, rs: seq<nat>, credit: int) returns (ok: bool)
      requires Valid() && 0 < maxNum && RatiosOk(rs)
      modifies this
      ensures Valid()
      ensures var aged := AgedMode(old(q), now, maxNum, AC_MAX);
        && |aged| == AC_MAX && dropped == old(dropped) + TakenMode(old(q), LateShares(old(q), now, maxNum), AC_MAX)
        && ok == (ModeLen(aged) == 0 || credit > 0)
        && (!ok ==> q == aged && toSend == old(toSend))
        && (ok ==>
              var n := Batch(aged, credit);
              var shares := Shares(aged, rs, n);
              && q == RestMode(aged, shares, AC_MAX)
              && toSend == old(toSend) + TakenMode(aged, shares, AC_MAX)
              && |toSend| == |old(toSend)| + (if ModeLen(aged) <= credit then ModeLen(aged) else Max(credit, 0))
              && FairlyMoved(aged, q))
    {
      hide RestMode, TakenMode, Shares, AgedMode, LateShares, QueuesOk, ModeLen, Lens, RowLens, FairlyMoved;
      var pNum, qNum, total := CountQueues(now, maxNum);
      ModeOf(q);
      if total != 0 && credit <= 0 {
        ok := false;
        return;
      }
      ok := true;
      ghost var n := Batch(q, credit);
      ExactlyGranted(q, rs, n);
      SplitIsFair(q, rs, n);
      FullSharesSeq(q, rs, pNum);
      if credit >= total {
        SendAll(pNum, qNum);
      } else {
        // only an empty mode gets here without credits, and then nothing is served
        SplitCredits(rs, pNum, qNum, total, Max(credit, 0));
      }
    }

    /** sprdwl_flush_mode_txlist */
    method FlushMode()
      requires Valid()
      modifies this`q, this`modeListNum, this`dropped
      ensures Valid() && modeListNum == 0
      ensures AllFit(old(q), AllOf(old(q))) && q == RestMode(old(q), AllOf(old(q)), AC_MAX)
      ensures dropped == old(dropped) + TakenMode(old(q), AllOf(old(q)), AC_MAX)
    {
      hide RowOk, ModeLen, RestRow, TakenRow, Lens, RestMode, TakenMode;
      ghost var q0, d0, all := q, dropped, AllOf(q);
      Widths(q);
      AllOfFits(q);
      RestModeStart(q, all);
      assert d0 + [] == d0;
      var i := 0;
      while i < AC_MAX
        invariant QueuesOk(q) && i <= AC_MAX && AllFit(q0, all) && |q0| == AC_MAX && QueuesOk(q0)
        invariant forall k :: 0 <= k < AC_MAX ==> |q0[k]| == MAX_LUT_NUM
        invariant q == RestMode(q0, all, i) && dropped == d0 + TakenMode(q0, all, i)
      {
        RestModeStep(q0, all, i);
        FlushRow(i);
        assert d0 + TakenMode(q0, all, i) + TakenRow(q0[i], all[i], MAX_LUT_NUM) == d0 + TakenMode(q0, all, i + 1);
        i := i + 1;
      }
      modeListNum := 0;
      AllTaken(q0);
    }

    method FlushRow(i: nat)
      requires QueuesOk(q) && i < AC_MAX
      modifies this`q, this`dropped
      ensures QueuesOk(q) && q == old(q)[i := RestRow(old(q[i]), Lens(old(q[i])), MAX_LUT_NUM)]
      ensures dropped == old(dropped) + TakenRow(old(q[i]), Lens(old(q[i])), MAX_LUT_NUM)
    {
      hide QueuesOk, RestRow, TakenRow;
      RowOfMode(q, i);
      ghost var q0, row, d0, ps := q, q[i], dropped, Lens(q[i]);
      SplitStart(q, i, ps);
      assert d0 + [] == d0;
      var j := 0;
      while j < MAX_LUT_NUM
        invariant QueuesOk(q) && j <= MAX_LUT_NUM && |q0| == AC_MAX && Fits(row, ps)
        invariant q == q0[i := RestRow(row, ps, j)] && dropped == d0 + TakenRow(row, ps, j)
      {
        RestRowStep(row, ps, j);
        TakenStep(row, ps, j);
        if q[i][j].list != [] {
          assert row[j].list[..ps[j]] == row[j].list && RestOf(row[j], ps[j]) == PeerQueue([], 0);
          assert d0 + TakenRow(row, ps, j) + row[j].list == d0 + TakenRow(row, ps, j + 1);
          SetPeerOk(q, i, j, PeerQueue([], 0));
          dropped := dropped + q[i][j].list;
          q := SetPeer(q, i, j, PeerQueue([], 0));
        }
        j := j + 1;
      }
    }

    /** sprdwl_flush_tx_qoslist */
    method FlushQos(i: nat, j: nat)
      requires Valid() && i < AC_MAX && j < MAX_LUT_NUM
      modifies this`q, this`modeListNum, this`dropped
      ensures Valid() && q == SetPeer(old(q), i, j, PeerQueue([], 0))
      ensures dropped == old(dropped) + old(q[i][j].list)
      ensures modeListNum == old(modeListNum) - |old(q[i][j].list)|
    {
      hide ModeLen;
      var pq := q[i][j];
      ModeLenUpdate(q, i, j, PeerQueue([], 0));
      SetPeerOk(q, i, j, PeerQueue([], 0));
      if pq.list != [] {
        dropped := dropped + pq.list;
        modeListNum := modeListNum - pq.num;
        q := SetPeer(q, i, j, PeerQueue([], 0));
      } else {
        SetPeerSame(q, i, j);
      }
    }
  }

  lemma RowOfMode(q: seq<Row>, i: int)
    requires QueuesOk(q) && 0 <= i < AC_MAX
    ensures |q| == AC_MAX && RowOk(q[i])
  {
  }

  lemma RowStart(q: seq<Row>, i: int, now: int, maxNum: nat)
    requires QueuesOk(q) && 0 <= i < AC_MAX && 0 < maxNum
    ensures |q| == AC_MAX && RowOk(q[i]) && q == q[i := AgedRow(q[i], now, maxNum, 0)]
  {
    assert AgedRow(q[i], now, maxNum, 0) == q[i];
  }

  lemma SetPeerSame(q: seq<Row>, i: int, j: int)
    requires 0 <= i < |q| && 0 <= j < |q[i]|
    ensures SetPeer(q, i, j, q[i][j]) == q
  {
    assert q[i][j := q[i][j]] == q[i];
  }

  lemma EmptyLen(q: seq<Row>)
    requires forall i :: 0 <= i < |q| ==> forall j :: 0 <= j < |q[i]| ==> q[i][j].list == []
    ensures ModeLen(q) == 0
  {
    forall i | 0 <= i < |q| ensures Sum(Lens(q[i])) == 0 {
      Zeros(Lens(q[i]));
    }
    Zeros(RowLens(q));
  }

  lemma {:induction false} Zeros(xs: seq<nat>)
    requires forall i :: 0 <= i < |xs| ==> xs[i] == 0
    ensures Sum(xs) == 0
  {
    if xs != [] {
      Zeros(xs[1..]);
    }
  }
}

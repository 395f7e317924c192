/** The per-mode transmit queues of WIFI/tx_msg.c: four access categories of 32 peer queues,
    their counters, and the splitter that moves packets to the transmit list. */
module TxQueues {
  import opened Common
  import opened TxSplit

  const MAX_LUT_NUM := 32

  datatype Packet = Packet(id: int, deadline: int)

  /** struct peer_list: the queue and its separately kept counter. */
  datatype PeerQueue = PeerQueue(list: seq<Packet>, num: int)

  type Row = seq<PeerQueue>

  function Lens(row: Row): (r: seq<nat>)
    ensures |r| == |row| && forall j :: 0 <= j < |row| ==> r[j] == |row[j].list|
  {
    seq(|row|, j requires 0 <= j < |row| => |row[j].list|)
  }

  function RowLens(q: seq<Row>): (r: seq<nat>)
    ensures |r| == |q| && forall i :: 0 <= i < |q| ==> r[i] == Sum(Lens(q[i]))
  {
    seq(|q|, i requires 0 <= i < |q| => Sum(Lens(q[i])))
  }

  function ModeLen(q: seq<Row>): nat {
    Sum(RowLens(q))
  }

  /** l_num equals the length of its queue. */
  predicate RowOk(row: Row) {
    |row| == MAX_LUT_NUM && forall j :: 0 <= j < |row| ==> row[j].num == |row[j].list|
  }

  predicate QueuesOk(q: seq<Row>) {
    |q| == AC_MAX && forall i :: 0 <= i < |q| ==> RowOk(q[i])
  }

  function SetPeer(q: seq<Row>, i: int, j: int, pq: PeerQueue): seq<Row>
    requires 0 <= i < |q| && 0 <= j < |q[i]|
  {
    q[i := q[i][j := pq]]
  }

  /** Changing one queue changes the mode's total by the same amount. */
  lemma ModeLenUpdate(q: seq<Row>, i: int, j: int, pq: PeerQueue)
    requires 0 <= i < |q| && 0 <= j < |q[i]|
    ensures ModeLen(SetPeer(q, i, j, pq)) == ModeLen(q) - |q[i][j].list| + |pq.list|
  {
    var row := q[i][j := pq];
    assert Lens(row) == Lens(q[i])[j := |pq.list|];
    SumUpdate(Lens(q[i]), j, |pq.list|);
    assert RowLens(q[i := row]) == RowLens(q)[i := Sum(Lens(row))];
    SumUpdate(RowLens(q), i, Sum(Lens(row)));
  }

  lemma SetPeerOk(q: seq<Row>, i: int, j: int, pq: PeerQueue)
    requires QueuesOk(q) && 0 <= i < AC_MAX && 0 <= j < MAX_LUT_NUM && pq.num == |pq.list|
    ensures QueuesOk(SetPeer(q, i, j, pq))
  {
  }

  // ---------------------------------------------------------------------
  // What a split does to the queues

  function RestOf(pq: PeerQueue, n: nat): PeerQueue
    requires n <= |pq.list|
  {
    PeerQueue(pq.list[n..], pq.num - n)
  }

  predicate Fits(row: Row, shares: seq<nat>) {
    |shares| == |row| && forall j :: 0 <= j < |row| ==> shares[j] <= |row[j].list|
  }

  /** The row after the first `n` peers gave up their shares. */
  function RestRow(row: Row, shares: seq<nat>, n: nat): (r: Row)
    requires Fits(row, shares)
    ensures |r| == |row|
  {
    seq(|row|, j requires 0 <= j < |row| => if j < n then RestOf(row[j], shares[j]) else row[j])
  }

  /** The packets the first `n` peers gave up: the heads of their queues, in peer order. */
  function TakenRow(row: Row, shares: seq<nat>, n: nat): seq<Packet>
    requires Fits(row, shares) && n <= |row|
    decreases n
  {
    if n == 0 then [] else TakenRow(row, shares, n - 1) + row[n - 1].list[..shares[n - 1]]
  }

  /** The share of every queue of the mode when `send` credits are split. */
  function Shares(q: seq<Row>, rs: seq<nat>, send: nat): (r: seq<seq<nat>>)
    requires |q| == AC_MAX && |rs| == BK && (forall k :: 0 <= k < BK ==> rs[k] <= 100) && send <= ModeLen(q)
    ensures |r| == |q| && forall i :: 0 <= i < |q| ==>
              Fits(q[i], r[i]) && Sum(r[i]) == AcShares(0, rs, RowLens(q), send)[i]
  {
    var acs := AcShares(0, rs, RowLens(q), send);
    seq(|q|, i requires 0 <= i < |q| => PeerShares(Lens(q[i]), acs[i]))
  }

  predicate AllFit(q: seq<Row>, shares: seq<seq<nat>>) {
    |shares| == |q| && forall i :: 0 <= i < |q| ==> Fits(q[i], shares[i])
  }

  /** The queues after the first `n` categories were served. */
  function RestMode(q: seq<Row>, shares: seq<seq<nat>>, n: nat): (r: seq<Row>)
    requires AllFit(q, shares)
    ensures |r| == |q|
  {
    seq(|q|, i requires 0 <= i < |q| => if i < n then RestRow(q[i], shares[i], |q[i]|) else q[i])
  }

  function TakenMode(q: seq<Row>, shares: seq<seq<nat>>, n: nat): seq<Packet>
    requires AllFit(q, shares) && n <= |q|
    decreases n
  {
    if n == 0 then [] else TakenMode(q, shares, n - 1) + TakenRow(q[n - 1], shares[n - 1], |q[n - 1]|)
  }

  lemma {:induction false} TakenRowLen(row: Row, shares: seq<nat>, n: nat)
    requires Fits(row, shares) && n <= |row|
    ensures |TakenRow(row, shares, n)| == Sum(shares[..n])
  {
    if n > 0 {
      TakenRowLen(row, shares, n - 1);
      SumTake(shares, n - 1);
    }
  }

  lemma {:induction false} TakenModeLen(q: seq<Row>, shares: seq<seq<nat>>, acs: seq<nat>, n: nat)
    requires AllFit(q, shares) && n <= |q| == |acs| && forall i :: 0 <= i < |q| ==> Sum(shares[i]) == acs[i]
    ensures |TakenMode(q, shares, n)| == Sum(acs[..n])
    decreases n
  {
    if n > 0 {
      TakenModeLen(q, shares, acs, n - 1);
      TakenRowLen(q[n - 1], shares[n - 1], |q[n - 1]|);
      assert shares[n - 1][..|q[n - 1]|] == shares[n - 1];
      SumTake(acs, n - 1);
    }
  }

  /** Splitting moves exactly the granted number of packets. */
  lemma ExactlyGranted(q: seq<Row>, rs: seq<nat>, send: nat)
    requires |q| == AC_MAX && |rs| == BK && (forall k :: 0 <= k < BK ==> rs[k] <= 100) && send <= ModeLen(q)
    ensures |TakenMode(q, Shares(q, rs, send), |q|)| == send
  {
    var acs := AcShares(0, rs, RowLens(q), send);
    TakenModeLen(q, Shares(q, rs, send), acs, |q|);
    assert acs[..|q|] == acs;
  }

  lemma {:induction false} SumZero(xs: seq<nat>, j: int)
    requires Sum(xs) == 0 && 0 <= j < |xs|
    ensures xs[j] == 0
  {
    if j > 0 {
      SumZero(xs[1..], j - 1);
    }
  }

  /** The shares of the peers from `j` on are the split of what is left there. */
  lemma PeerSharesStep(ps: seq<nat>, fp: nat)
    requires ps != [] && fp <= Sum(ps)
    ensures var r := PeerShares(ps, fp);
      && r[0] <= fp && fp - r[0] <= Sum(ps[1..])
      && r[1..] == PeerShares(ps[1..], fp - r[0])
      && r[0] == (if ps[0] == 0 || fp == 0 then 0 else PeerShare(ps[0], fp, Sum(ps)))
  {
    if ps[0] != 0 && fp != 0 {
      PeerShareBounds(ps[0], fp, Sum(ps));
    }
    hide PeerShare;
  }

  lemma RestRowStep(row: Row, shares: seq<nat>, n: nat)
    requires Fits(row, shares) && n < |row|
    ensures RestRow(row, shares, n + 1) == RestRow(row, shares, n)[n := RestOf(row[n], shares[n])]
    ensures RestRow(row, shares, n)[n] == row[n]
    ensures shares[n] == 0 ==>
              && (row[n].num == |row[n].list| ==> RestRow(row, shares, n + 1) == RestRow(row, shares, n))
              && TakenRow(row, shares, n + 1) == TakenRow(row, shares, n)
  {
    if shares[n] == 0 {
      assert row[n].list[0..] == row[n].list;
    }
  }

  lemma {:induction false} RestRowZeros(row: Row, shares: seq<nat>, n: nat, m: nat)
    requires RowOk(row) && Fits(row, shares) && n <= m <= |row| && forall j :: n <= j < m ==> shares[j] == 0
    ensures RestRow(row, shares, m) == RestRow(row, shares, n) && TakenRow(row, shares, m) == TakenRow(row, shares, n)
    decreases m - n
  {
    if n < m {
      RestRowZeros(row, shares, n, m - 1);
      RestRowStep(row, shares, m - 1);
    }
  }
}

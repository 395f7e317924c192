/** No packet is lost or reordered on its way from the queues of a mode (WIFI/tx_msg.c). */
module TxConservation {
  import opened TxSplit
  import opened TxQueues
  import opened TxMode

  /** The packets of the first `n` peer queues. */
  function RowBag(row: Row, n: nat): multiset<Packet>
    requires n <= |row|
    decreases n
  {
    if n == 0 then multiset{} else RowBag(row, n - 1) + multiset(row[n - 1].list)
  }

  function ModeBag(q: seq<Row>, n: nat): multiset<Packet>
    requires n <= |q|
    decreases n
  {
    if n == 0 then multiset{} else ModeBag(q, n - 1) + RowBag(q[n - 1], |q[n - 1]|)
  }

  lemma Cut(l: seq<Packet>, n: nat, x: Packet)
    requires n <= |l|
    ensures multiset(l)[x] == multiset(l[..n])[x] + multiset(l[n..])[x]
  {
    assert l == l[..n] + l[n..];
  }

  lemma Joined(a: seq<Packet>, b: seq<Packet>, x: Packet)
    ensures multiset(a + b)[x] == multiset(a)[x] + multiset(b)[x]
  {
  }

  lemma RowBagStep(row: Row, n: nat, x: Packet)
    requires n < |row|
    ensures RowBag(row, n + 1)[x] == RowBag(row, n)[x] + multiset(row[n].list)[x]
  {
  }

  lemma ModeBagStep(q: seq<Row>, n: nat, x: Packet)
    requires n < |q|
    ensures ModeBag(q, n + 1)[x] == ModeBag(q, n)[x] + RowBag(q[n], |q[n]|)[x]
  {
    hide RowBag;
  }

  lemma RestRowAt(row: Row, shares: seq<nat>, j: nat)
    requires Fits(row, shares) && j < |row|
    ensures RestRow(row, shares, |row|)[j].list == row[j].list[shares[j]..]
  {
  }

  lemma RestModeAt(q: seq<Row>, shares: seq<seq<nat>>, i: nat)
    requires AllFit(q, shares) && i < |q|
    ensures RestMode(q, shares, |q|)[i] == RestRow(q[i], shares[i], |q[i]|)
  {
  }

  /** What a row holds is what it gives up and what it keeps. */
  lemma {:induction false} RowConserves(row: Row, shares: seq<nat>, n: nat, x: Packet)
    requires Fits(row, shares) && n <= |row|
    ensures RowBag(row, n)[x] == multiset(TakenRow(row, shares, n))[x] + RowBag(RestRow(row, shares, |row|), n)[x]
    decreases n
  {
    hide RowBag, RestRow, TakenRow;
    if n == 0 {
      NothingYet(row, shares);
    } else {
      RowConserves(row, shares, n - 1, x);
      PeerConserves(row, shares, n - 1, x);
      RowBagStep(row, n - 1, x);
    }
  }

  lemma NothingYet(row: Row, shares: seq<nat>)
    requires Fits(row, shares)
    ensures RowBag(row, 0) == RowBag(RestRow(row, shares, |row|), 0) == multiset{} && TakenRow(row, shares, 0) == []
  {
  }

  lemma PeerConserves(row: Row, shares: seq<nat>, k: nat, x: Packet)
    requires Fits(row, shares) && k < |row|
    ensures multiset(TakenRow(row, shares, k + 1))[x] + RowBag(RestRow(row, shares, |row|), k + 1)[x]
         == multiset(TakenRow(row, shares, k))[x] + RowBag(RestRow(row, shares, |row|), k)[x] + multiset(row[k].list)[x]
  {
    hide RowBag, RestRow, TakenRow;
    RestRowAt(row, shares, k);
    RowBagStep(RestRow(row, shares, |row|), k, x);
    TakenStep(row, shares, k);
    Cut(row[k].list, shares[k], x);
    Joined(TakenRow(row, shares, k), row[k].list[..shares[k]], x);
  }

  lemma {:induction false} ModeConserves(q: seq<Row>, shares: seq<seq<nat>>, n: nat, x: Packet)
    requires AllFit(q, shares) && n <= |q|
    ensures ModeBag(q, n)[x] == multiset(TakenMode(q, shares, n))[x] + ModeBag(RestMode(q, shares, |q|), n)[x]
    decreases n
  {
    if n > 0 {
      hide ModeBag, RestMode, RowBag, TakenRow, RestRow;
      var k := n - 1;
      ModeConserves(q, shares, k, x);
      RestModeAt(q, shares, k);
      ModeBagStep(q, k, x);
      ModeBagStep(RestMode(q, shares, |q|), k, x);
      RowConserves(q[k], shares[k], |q[k]|, x);
      Joined(TakenMode(q, shares, k), TakenRow(q[k], shares[k], |q[k]|), x);
    }
  }

  lemma AgedIsRest(pq: PeerQueue, now: int, maxNum: nat)
    requires 0 < maxNum
    ensures Aged(pq, now, maxNum) == RestOf(pq, LateCount(pq, now, maxNum))
  {
    assert pq.list[0..] == pq.list;
  }

  /** Dropping late packets takes the heads of the late queues and nothing else. */
  lemma AgedModeIsRest(q: seq<Row>, now: int, maxNum: nat)
    requires 0 < maxNum
    ensures AgedMode(q, now, maxNum, |q|) == RestMode(q, LateShares(q, now, maxNum), |q|)
  {
    hide Aged, LateCount, RestOf;
    forall i | 0 <= i < |q|
      ensures AgedRow(q[i], now, maxNum, |q[i]|) == RestRow(q[i], LateCounts(q[i], now, maxNum), |q[i]|)
    {
      forall j | 0 <= j < |q[i]|
        ensures AgedRow(q[i], now, maxNum, |q[i]|)[j] == RestRow(q[i], LateCounts(q[i], now, maxNum), |q[i]|)[j]
      {
        AgedIsRest(q[i][j], now, maxNum);
      }
    }
  }

  /** One round of sprdwl_tx_eachmode_data sends each packet, drops it or keeps it, once. */
  lemma RoundConserves(q: seq<Row>, now: int, maxNum: nat, rs: seq<nat>, n: nat)
    requires |q| == AC_MAX && 0 < maxNum && RatiosOk(rs) && n <= ModeLen(AgedMode(q, now, maxNum, AC_MAX))
    ensures var aged := AgedMode(q, now, maxNum, AC_MAX);
      var shares := Shares(aged, rs, n);
      ModeBag(q, AC_MAX) == multiset(TakenMode(q, LateShares(q, now, maxNum), AC_MAX))
                          + multiset(TakenMode(aged, shares, AC_MAX))
                          + ModeBag(RestMode(aged, shares, AC_MAX), AC_MAX)
  {
    hide AgedMode, LateShares, Shares, TakenMode, RestMode, ModeBag, ModeLen;
    var aged := AgedMode(q, now, maxNum, AC_MAX);
    var shares := Shares(aged, rs, n);
    AgedModeIsRest(q, now, maxNum);
    forall x: Packet
      ensures ModeBag(q, AC_MAX)[x] == multiset(TakenMode(q, LateShares(q, now, maxNum), AC_MAX))[x]
                + multiset(TakenMode(aged, shares, AC_MAX))[x] + ModeBag(RestMode(aged, shares, AC_MAX), AC_MAX)[x]
    {
      ModeConserves(q, LateShares(q, now, maxNum), AC_MAX, x);
      ModeConserves(aged, shares, AC_MAX, x);
    }
  }

  // ---------------------------------------------------------------------
  // Packets that come between the counting and the cuts

  /** Every queue of `q'` begins with that of `q`. */
  predicate Extends(q: seq<Row>, q': seq<Row>) {
    && |q'| == |q|
    && forall i :: 0 <= i < |q| ==> RowExtends(q[i], q'[i])
  }

  predicate RowExtends(row: Row, row': Row) {
    && |row'| == |row|
    && forall j :: 0 <= j < |row| ==> row[j].list <= row'[j].list
  }

  lemma {:induction false} RowTakesSame(row: Row, row': Row, shares: seq<nat>, n: nat)
    requires Fits(row, shares) && RowExtends(row, row') && n <= |row|
    ensures Fits(row', shares) && TakenRow(row', shares, n) == TakenRow(row, shares, n)
    decreases n
  {
    if n > 0 {
      RowTakesSame(row, row', shares, n - 1);
      assert row'[n - 1].list[..shares[n - 1]] == row[n - 1].list[..shares[n - 1]];
    }
  }

  /** Packets that join the tails of the queues after they were counted, whenever they come, change
      nothing of what the cuts move. */
  lemma {:induction false} LateEnqueues(q: seq<Row>, q': seq<Row>, shares: seq<seq<nat>>, n: nat)
    requires AllFit(q, shares) && Extends(q, q') && n <= |q|
    ensures AllFit(q', shares) && TakenMode(q', shares, n) == TakenMode(q, shares, n)
    decreases n
  {
    forall i | 0 <= i < |q| ensures Fits(q'[i], shares[i]) {
      RowTakesSame(q[i], q'[i], shares[i], 0);
    }
    if n > 0 {
      LateEnqueues(q, q', shares, n - 1);
      RowTakesSame(q[n - 1], q'[n - 1], shares[n - 1], |q[n - 1]|);
    }
    hide TakenRow, Fits, RowExtends;
  }
}

/** Credit flow control (WIFI/tx_msg.c): the firmware grants credits in four colours, a colour
    belongs to one mode or is shared, and each packet sent spends one credit. */
module FlowCredit {
  import opened Common

  const MAX_COLOR_BIT := 4
  const MODE_MAX := 8
  const NONE := 0
  const MAX_BATCH := 100
  const ENOMEM := 12

  type Mode = m: int | 0 <= m < 8

  /** The flow-control part of struct sprdwl_tx_msg. */
  datatype Credit = Credit(
    owner: seq<Mode>,   // flow_ctrl[i].mode
    flow: seq<int>,     // flow_ctrl[i].flow
    color: seq<int>,    // color_num[i], the grant being spent
    cp: int,            // credits ever received
    ap: int)            // packets ever sent

  predicate Shape(c: Credit) {
    |c.owner| == |c.flow| == |c.color| == MAX_COLOR_BIT
  }

  const ZEROS: seq<int> := [0, 0, 0, 0]

  // ---------------------------------------------------------------------
  // Owning a colour

  /** The first colour held by `m`, or the length. */
  function IndexOf(owner: seq<Mode>, m: Mode): (k: nat)
    ensures k <= |owner| && (k < |owner| ==> owner[k] == m)
    ensures forall j :: 0 <= j < k ==> owner[j] != m
    ensures m in owner <==> k < |owner|
  {
    if owner == [] || owner[0] == m then 0 else 1 + IndexOf(owner[1..], m)
  }

  /** Colours of closed modes become shared. */
  function Cleared(owner: seq<Mode>, closed: seq<bool>): (r: seq<Mode>)
    requires |closed| == MODE_MAX
    ensures |r| == |owner|
    ensures forall k :: 0 <= k < |owner| ==> r[k] == if owner[k] != NONE && closed[owner[k]] then NONE else owner[k]
  {
    seq(|owner|, k requires 0 <= k < |owner| => if owner[k] != NONE && closed[owner[k]] then NONE else owner[k])
  }

  /** sprdwl_fc_find_color_per_mode: keep the mode's colour, or take the first shared one. */
  function Claim(owner: seq<Mode>, closed: seq<bool>, m: Mode): (r: seq<Mode>)
    requires |closed| == MODE_MAX
    ensures |r| == |owner|
  {
    if m in owner then owner
    else
      var o := Cleared(owner, closed);
      var k := IndexOf(o, NONE);
      if k < |o| then o[k := m] else o
  }

  /** No mode owns two colours. */
  predicate OneColour(owner: seq<Mode>) {
    forall j, k :: 0 <= j < k < |owner| && owner[j] == owner[k] ==> owner[j] == NONE
  }

  lemma ClaimKeepsOneColour(owner: seq<Mode>, closed: seq<bool>, m: Mode)
    requires |closed| == MODE_MAX && OneColour(owner)
    ensures OneColour(Claim(owner, closed, m))
    ensures m != NONE ==> (m in Claim(owner, closed, m) <==> m in owner || NONE in Cleared(owner, closed))
  {
    if m !in owner {
      var o := Cleared(owner, closed);
      assert m == NONE || m !in o;
    }
  }

  /** Claiming again changes nothing. */
  lemma ClaimIdempotent(owner: seq<Mode>, closed: seq<bool>, m: Mode)
    requires |closed| == MODE_MAX
    ensures Claim(Claim(owner, closed, m), closed, m) == Claim(owner, closed, m)
  {
    var r, o := Claim(owner, closed, m), Cleared(owner, closed);
    var k := IndexOf(o, NONE);
    if m !in owner && k < |o| {
      assert r[k] == m;
    }
    if m !in r {
      assert forall k :: 0 <= k < |o| ==> Cleared(o, closed)[k] == o[k];
      assert Cleared(o, closed) == o;
    }
  }

  // ---------------------------------------------------------------------
  // The grant

  /** Credits of the shared colours below `n`. */
  function Shared(owner: seq<Mode>, flow: seq<int>, n: nat): int
    requires n <= |owner| == |flow|
    decreases n
  {
    if n == 0 then 0 else Shared(owner, flow, n - 1) + if owner[n - 1] == NONE then flow[n - 1] else 0
  }

  /** What a shared colour with `f` credits gives when `left` are needed. The comparison is unsigned,
      so a colour in debt passes for one with more credits than anyone needs. */
  function Take(left: int, f: int): int {
    if f < 0 then left else Min(left, f)
  }

  /** sprdwl_fc_get_shared_num: what each shared colour below `n` gives towards `need`. */
  function SharedGrant(owner: seq<Mode>, flow: seq<int>, need: int, n: nat): (r: seq<int>)
    requires n <= |owner| == |flow|
    ensures |r| == n
    decreases n
  {
    if n == 0 then []
    else
      var r := SharedGrant(owner, flow, need, n - 1);
      r + [if owner[n - 1] == NONE then Take(need - Sum(r), flow[n - 1]) else 0]
  }

  lemma SharedStep(owner: seq<Mode>, flow: seq<int>, need: int, i: nat)
    requires i < |owner| == |flow|
    ensures var g := SharedGrant(owner, flow, need, i);
      var take := if owner[i] == NONE then Take(need - Sum(g), flow[i]) else 0;
      && SharedGrant(owner, flow, need, i + 1) == g + [take]
      && Sum(g + [take]) == Sum(g) + take
  {
    var g := SharedGrant(owner, flow, need, i);
    SumPush(g, if owner[i] == NONE then Take(need - Sum(g), flow[i]) else 0);
  }

  /** A shared colour below `n` is in debt. */
  predicate InDebt(owner: seq<Mode>, flow: seq<int>, n: nat)
    requires n <= |owner| == |flow|
  {
    exists k :: 0 <= k < n && owner[k] == NONE && flow[k] < 0
  }

  lemma DebtStep(owner: seq<Mode>, flow: seq<int>, n: nat)
    requires n < |owner| == |flow|
    ensures InDebt(owner, flow, n + 1) <==> InDebt(owner, flow, n) || (owner[n] == NONE && flow[n] < 0)
  {
  }

  /** Together the shared colours give the smaller of the need and what they have, or all that is
      needed if one of them is in debt. */
  lemma {:induction false} SharedGrantSum(owner: seq<Mode>, flow: seq<int>, need: int, n: nat)
    requires n <= |owner| == |flow| && 0 <= need
    ensures var paid := Sum(SharedGrant(owner, flow, need, n));
      && 0 <= paid && paid == (if InDebt(owner, flow, n) then need else Min(need, Shared(owner, flow, n)))
    ensures InDebt(owner, flow, n) || 0 <= Shared(owner, flow, n)
    decreases n
  {
    if n == 0 {
      assert SharedGrant(owner, flow, need, 0) == [] && Shared(owner, flow, 0) == 0;
    } else {
      hide Sum, SharedGrant, InDebt;
      SharedGrantSum(owner, flow, need, n - 1);
      SharedStep(owner, flow, need, n - 1);
      DebtStep(owner, flow, n - 1);
    }
  }

  /** No colour gives more than it has, nor an owned one anything, while none is in debt. */
  lemma {:induction false} SharedGrantWithin(owner: seq<Mode>, flow: seq<int>, need: int, n: nat, k: nat)
    requires k < n <= |owner| == |flow| && 0 <= need && forall j :: 0 <= j < |flow| ==> 0 <= flow[j]
    ensures var r := SharedGrant(owner, flow, need, n); 0 <= r[k] <= flow[k] && (owner[k] != NONE ==> r[k] == 0)
    decreases n
  {
    hide Sum, SharedGrant, Shared, InDebt;
    SharedStep(owner, flow, need, n - 1);
    if k < n - 1 {
      SharedGrantWithin(owner, flow, need, n - 1, k);
    } else {
      SharedGrantSum(owner, flow, need, n - 1);
      NoDebt(owner, flow, n - 1);
    }
  }

  lemma NoDebt(owner: seq<Mode>, flow: seq<int>, n: nat)
    requires n <= |owner| == |flow| && forall k :: 0 <= k < |flow| ==> 0 <= flow[k]
    ensures !InDebt(owner, flow, n)
  {
  }

  /** The packets still to be paid for after the mode's own credits, in 8 bits. */
  function Need(own: int, data: int): (n: nat)
    ensures n < 256
  {
    (data - own) % 256
  }

  /** The grant of sprdwl_fc_get_send_num for the owner of colour `i`: its own credits first,
      then shared ones in colour order. color_num has 8 bits. */
  function Grant(owner: seq<Mode>, flow: seq<int>, i: nat, data: int): (r: seq<int>)
    requires |owner| == |flow| == MAX_COLOR_BIT && i < MAX_COLOR_BIT
    ensures |r| == MAX_COLOR_BIT
  {
    if flow[i] >= data then ZEROS[i := data]
    else SharedGrant(owner, flow, Need(flow[i], data), MAX_COLOR_BIT)[i := flow[i] % 256]
  }

  lemma ZerosSum()
    ensures Sum(ZEROS) == 0
  {
    SumPush([0, 0, 0], 0);
    SumPush([0, 0], 0);
    SumPush([0], 0);
    SumPush([], 0);
    assert ZEROS == [0, 0, 0] + [0] && [0, 0, 0] == [0, 0] + [0] && [0, 0] == [0] + [0] && [0] == [] + [0];
  }

  /** `r` stays within every colour and takes nothing from another mode's colour. */
  predicate Affordable(owner: seq<Mode>, flow: seq<int>, i: nat, r: seq<int>)
    requires |owner| == |flow| == |r| == MAX_COLOR_BIT
  {
    forall k :: 0 <= k < MAX_COLOR_BIT ==> 0 <= r[k] <= flow[k] && (r[k] > 0 ==> k == i || owner[k] == NONE)
  }

  /** The mode's own colour pays for everything. */
  lemma OwnGrant(owner: seq<Mode>, flow: seq<int>, i: nat, data: int)
    requires |owner| == |flow| == MAX_COLOR_BIT && i < MAX_COLOR_BIT && 0 <= data <= flow[i]
    requires forall k :: 0 <= k < MAX_COLOR_BIT ==> 0 <= flow[k]
    ensures Sum(ZEROS[i := data]) == data && Affordable(owner, flow, i, ZEROS[i := data])
  {
    hide Sum;
    SumUpdate(ZEROS, i, data);
    ZerosSum();
  }

  lemma MixedIs(owner: seq<Mode>, flow: seq<int>, i: nat, data: int)
    requires |owner| == |flow| == MAX_COLOR_BIT && i < MAX_COLOR_BIT && owner[i] != NONE
    requires flow[i] < data <= MAX_BATCH && forall k :: 0 <= k < MAX_COLOR_BIT ==> 0 <= flow[k]
    ensures Grant(owner, flow, i, data) == SharedGrant(owner, flow, data - flow[i], MAX_COLOR_BIT)[i := flow[i]]
  {
    hide SharedGrant;
  }

  lemma MixedSum(owner: seq<Mode>, flow: seq<int>, i: nat, data: int)
    requires |owner| == |flow| == MAX_COLOR_BIT && i < MAX_COLOR_BIT && owner[i] != NONE
    requires flow[i] < data <= MAX_BATCH && forall k :: 0 <= k < MAX_COLOR_BIT ==> 0 <= flow[k]
    ensures Sum(SharedGrant(owner, flow, data - flow[i], MAX_COLOR_BIT)[i := flow[i]])
         == Min(data, flow[i] + Shared(owner, flow, MAX_COLOR_BIT))
  {
    hide Sum, Shared, SharedGrant, InDebt;
    SharedGrantSum(owner, flow, data - flow[i], MAX_COLOR_BIT);
    NoDebt(owner, flow, MAX_COLOR_BIT);
    SharedGrantWithin(owner, flow, data - flow[i], MAX_COLOR_BIT, i);
    SumUpdate(SharedGrant(owner, flow, data - flow[i], MAX_COLOR_BIT), i, flow[i]);
  }

  lemma MixedAffordable(owner: seq<Mode>, flow: seq<int>, i: nat, data: int)
    requires |owner| == |flow| == MAX_COLOR_BIT && i < MAX_COLOR_BIT && owner[i] != NONE
    requires flow[i] < data <= MAX_BATCH && forall k :: 0 <= k < MAX_COLOR_BIT ==> 0 <= flow[k]
    ensures Affordable(owner, flow, i, SharedGrant(owner, flow, data - flow[i], MAX_COLOR_BIT)[i := flow[i]])
  {
    hide SharedGrant;
    var g := SharedGrant(owner, flow, data - flow[i], MAX_COLOR_BIT);
    var r := g[i := flow[i]];
    forall k | 0 <= k < MAX_COLOR_BIT ensures 0 <= r[k] <= flow[k] && (r[k] > 0 ==> k == i || owner[k] == NONE) {
      SharedGrantWithin(owner, flow, data - flow[i], MAX_COLOR_BIT, k);
      assert k != i ==> r[k] == g[k];
    }
    assert Affordable(owner, flow, i, r);
  }

  /** The mode's own colour is used up and shared colours pay for the rest. */
  lemma MixedGrant(owner: seq<Mode>, flow: seq<int>, i: nat, data: int)
    requires |owner| == |flow| == MAX_COLOR_BIT && i < MAX_COLOR_BIT && owner[i] != NONE
    requires flow[i] < data <= MAX_BATCH && forall k :: 0 <= k < MAX_COLOR_BIT ==> 0 <= flow[k]
    ensures var r := Grant(owner, flow, i, data);
      Sum(r) == Min(data, flow[i] + Shared(owner, flow, MAX_COLOR_BIT)) && Affordable(owner, flow, i, r)
  {
    hide Sum, Shared, SharedGrant, Grant, Affordable;
    MixedIs(owner, flow, i, data);
    MixedSum(owner, flow, i, data);
    MixedAffordable(owner, flow, i, data);
  }

  lemma GrantAt(owner: seq<Mode>, flow: seq<int>, i: nat, data: int)
    requires |owner| == |flow| == MAX_COLOR_BIT && i < MAX_COLOR_BIT && owner[i] != NONE && 0 <= data <= MAX_BATCH
    requires forall k :: 0 <= k < MAX_COLOR_BIT ==> 0 <= flow[k]
    ensures var r := Grant(owner, flow, i, data);
      Sum(r) == Min(data, flow[i] + Shared(owner, flow, MAX_COLOR_BIT)) && Affordable(owner, flow, i, r)
  {
    hide Sum, Shared, SharedGrant, Affordable;
    if flow[i] >= data {
      SharedNonNegative(owner, flow, MAX_COLOR_BIT);
      OwnGrant(owner, flow, i, data);
    } else {
      MixedGrant(owner, flow, i, data);
    }
  }

  /** While no colour is in debt, the greedy grant is the simple estimate, stays within every colour,
      and touches no colour of another mode. */
  lemma GrantTheorem(owner: seq<Mode>, flow: seq<int>, m: Mode, data: int)
    requires |owner| == |flow| == MAX_COLOR_BIT && m != NONE && m in owner && 0 <= data <= MAX_BATCH
    requires forall k :: 0 <= k < MAX_COLOR_BIT ==> 0 <= flow[k]
    ensures var i := IndexOf(owner, m);
      var r := Grant(owner, flow, i, data);
      Sum(r) == Min(data, flow[i] + Shared(owner, flow, MAX_COLOR_BIT)) && Affordable(owner, flow, i, r)
  {
    hide Sum, Shared, Grant, IndexOf, Affordable;
    GrantAt(owner, flow, IndexOf(owner, m), data);
  }

  lemma {:induction false} SharedNonNegative(owner: seq<Mode>, flow: seq<int>, n: nat)
    requires n <= |owner| == |flow| && forall k :: 0 <= k < |flow| ==> 0 <= flow[k]
    ensures 0 <= Shared(owner, flow, n)
    decreases n
  {
    if n > 0 {
      SharedNonNegative(owner, flow, n - 1);
    }
  }

  function OrError(n: int): int {
    if n > 0 then n else -ENOMEM
  }

  /** What sprdwl_fc_test_send_num returns. */
  function Estimate(owner: seq<Mode>, flow: seq<int>, m: Mode, data: int): int
    requires |owner| == |flow| == MAX_COLOR_BIT
  {
    var i := IndexOf(owner, m);
    if i < MAX_COLOR_BIT && flow[i] + Shared(owner, flow, MAX_COLOR_BIT) > 0
    then Min(data, flow[i] + Shared(owner, flow, MAX_COLOR_BIT))
    else -ENOMEM
  }

  /** What sprdwl_fc_get_send_num returns. */
  function GetNum(owner: seq<Mode>, flow: seq<int>, m: Mode, data: int): int
    requires |owner| == |flow| == MAX_COLOR_BIT
  {
    var i := IndexOf(owner, m);
    if i >= MAX_COLOR_BIT then -ENOMEM
    else if flow[i] >= data then OrError(data)
    else OrError(flow[i] + Sum(SharedGrant(owner, flow, Need(flow[i], data), MAX_COLOR_BIT)))
  }

  /** The value granted, in terms of the mode's own and the shared credits. */
  lemma GetNumIs(owner: seq<Mode>, flow: seq<int>, m: Mode, data: int)
    requires |owner| == |flow| == MAX_COLOR_BIT && m in owner && 0 < data <= MAX_BATCH
    ensures var own, shared := flow[IndexOf(owner, m)], Shared(owner, flow, MAX_COLOR_BIT);
      GetNum(owner, flow, m, data) ==
        if data - own >= 256 then -ENOMEM
        else if own >= data || InDebt(owner, flow, MAX_COLOR_BIT) then data
        else OrError(Min(data, own + shared))
  {
    hide Sum, Shared, SharedGrant, InDebt, IndexOf;
    var own := flow[IndexOf(owner, m)];
    SharedGrantSum(owner, flow, Need(own, data), MAX_COLOR_BIT);
  }

  /** On the same state both functions return the same value if and only if: with a shared colour in
      debt, the credits in all cover the packets; and with the own colour so deep in debt that the
      need does not fit 8 bits, they are not positive. */
  lemma AgreeExactly(owner: seq<Mode>, flow: seq<int>, m: Mode, data: int)
    requires |owner| == |flow| == MAX_COLOR_BIT && m in owner && 0 < data <= MAX_BATCH
    ensures var own, shared := flow[IndexOf(owner, m)], Shared(owner, flow, MAX_COLOR_BIT);
      GetNum(owner, flow, m, data) == Estimate(owner, flow, m, data) <==>
        if data - own >= 256 then own + shared <= 0
        else InDebt(owner, flow, MAX_COLOR_BIT) ==> data <= own + shared
  {
    hide Sum, Shared, GetNum, InDebt, IndexOf;
    GetNumIs(owner, flow, m, data);
    SharedGrantSum(owner, flow, 0, MAX_COLOR_BIT);
  }

  /** In particular they always agree while no colour is in debt. */
  lemma GetIsEstimate(owner: seq<Mode>, flow: seq<int>, m: Mode, data: int)
    requires |owner| == |flow| == MAX_COLOR_BIT && 0 < data <= MAX_BATCH
    requires forall k :: 0 <= k < MAX_COLOR_BIT ==> 0 <= flow[k]
    ensures GetNum(owner, flow, m, data) == Estimate(owner, flow, m, data)
  {
    hide Sum, Shared, SharedGrant, InDebt;
    if m in owner {
      AgreeExactly(owner, flow, m, data);
      NoDebt(owner, flow, MAX_COLOR_BIT);
    }
  }

  lemma {:induction false} SharedMonotone(owner: seq<Mode>, flow: seq<int>, flow': seq<int>, n: nat)
    requires n <= |owner| == |flow| == |flow'| && forall k :: 0 <= k < |flow| ==> flow[k] <= flow'[k]
    ensures Shared(owner, flow, n) <= Shared(owner, flow', n)
    decreases n
  {
    if n > 0 {
      SharedMonotone(owner, flow, flow', n - 1);
    }
  }

  /** What one query promised, a later grant pays in full: asked for that many packets, with no credits
      lost since, it returns exactly that number, unless the mode's own colour is so deep in debt
      that the need does not fit 8 bits. */
  lemma PromiseIsPaid(owner: seq<Mode>, flow: seq<int>, flow': seq<int>, closed: seq<bool>, m: Mode, data: int)
    requires |owner| == |flow| == |flow'| == MAX_COLOR_BIT && |closed| == MODE_MAX && 0 < data
    requires forall k :: 0 <= k < |flow| ==> flow[k] <= flow'[k]
    ensures var o := Claim(owner, closed, m);
      var n := Estimate(o, flow, m, Min(data, MAX_BATCH));
      n > 0 ==>
        && n <= data && m in o
        && (GetNum(Claim(o, closed, m), flow', m, Min(n, MAX_BATCH)) == n <==> n - flow'[IndexOf(o, m)] < 256)
  {
    hide Claim, Shared, GetNum, InDebt, IndexOf, Sum;
    var o := Claim(owner, closed, m);
    ClaimIdempotent(owner, closed, m);
    SharedMonotone(o, flow, flow', MAX_COLOR_BIT);
    var n := Estimate(o, flow, m, Min(data, MAX_BATCH));
    if n > 0 {
      GetNumIs(o, flow', m, n);
    }
  }

  // ---------------------------------------------------------------------
  // Colour stamping

  /** The credits of colours 0 to `k`. */
  function Through(color: seq<int>, k: int): int
    requires 0 <= k < |color|
  {
    Sum(color[..k + 1])
  }

  /** sprdwl_fc_set_clor_bit: the colour of the `num`-th packet of the batch. */
  function Stamp(color: seq<int>, num: int, n: nat): (i: nat)
    requires n <= |color|
    ensures n <= i <= |color|
    ensures forall k :: n <= k < i ==> num > Through(color, k)
    ensures i < |color| ==> num <= Through(color, i)
    decreases |color| - n
  {
    if n == |color| || num <= Through(color, n) then n else Stamp(color, num, n + 1)
  }

  lemma {:induction false} PrefixMonotone(color: seq<int>, j: nat, k: nat)
    requires j <= k <= |color| && forall x :: 0 <= x < |color| ==> 0 <= color[x]
    ensures Sum(color[..j]) <= Sum(color[..k])
    decreases k - j
  {
    if j < k {
      PrefixMonotone(color, j, k - 1);
      SumTake(color, k - 1);
    }
  }

  /** Colour `i` stamps exactly the packets after the earlier colours' credits, as many as it
      granted; every packet of the grant gets one of the four colours. */
  lemma StampTheorem(color: seq<int>, num: int, i: nat)
    requires (forall x :: 0 <= x < |color| ==> 0 <= color[x]) && 1 <= num <= Sum(color) && i < |color|
    ensures Stamp(color, num, 0) < |color|
    ensures Stamp(color, num, 0) == i <==> Sum(color[..i]) < num <= Sum(color[..i + 1])
    ensures Sum(color[..i + 1]) - Sum(color[..i]) == color[i]
  {
    hide Stamp;
    var s := Stamp(color, num, 0);
    assert color[..|color|] == color;
    SumTake(color, i);
    assert Through(color, |color| - 1) == Sum(color);
    if s < i {
      PrefixMonotone(color, s + 1, i);
      assert num <= Through(color, s);
    } else if i < s {
      assert num > Through(color, i);
    } else if 0 < i {
      assert num > Through(color, i - 1);
    }
  }

  /** How many of packets 1..n are stamped with colour `i`. */
  function Stamped(color: seq<int>, i: nat, n: nat): nat {
    if n == 0 then 0 else Stamped(color, i, n - 1) + if Stamp(color, n, 0) == i then 1 else 0
  }

  lemma {:induction false} StampedCount(color: seq<int>, i: nat, n: nat)
    requires (forall x :: 0 <= x < |color| ==> 0 <= color[x]) && i < |color| && n <= Sum(color)
    ensures Stamped(color, i, n) == if n <= Sum(color[..i]) then 0 else Min(n - Sum(color[..i]), color[i])
    decreases n
  {
    hide Sum, Stamp;
    SumPush([], 0);
    assert color[..0] == [];
    PrefixMonotone(color, 0, i);
    if n > 0 {
      StampedCount(color, i, n - 1);
      StampTheorem(color, n, i);
    }
  }

  /** The credits debited per colour are the packets stamped with it. */
  lemma StampedTheorem(color: seq<int>, i: nat)
    requires (forall x :: 0 <= x < |color| ==> 0 <= color[x]) && i < |color| && 0 <= Sum(color)
    ensures Stamped(color, i, Sum(color)) == color[i]
  {
    StampedCount(color, i, Sum(color));
    PrefixMonotone(color, i, i + 1);
    PrefixMonotone(color, i + 1, |color|);
    PrefixMonotone(color, 0, i);
    SumTake(color, i);
    assert color[..|color|] == color;
    hide Sum, Stamped;
  }

  lemma FourSum(f: seq<int>)
    requires |f| == 4
    ensures Sum(f) == f[0] + f[1] + f[2] + f[3]
  {
    SumPush(f[..3], f[3]);
    SumPush(f[..2], f[2]);
    SumPush(f[..1], f[1]);
    SumPush([], f[0]);
    assert f == f[..3] + [f[3]] && f[..3] == f[..2] + [f[2]] && f[..2] == f[..1] + [f[1]] && f[..1] == [] + [f[0]];
  }
}

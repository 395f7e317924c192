/** The loops of the credit flow control (WIFI/tx_msg.c), proved against FlowCredit
    and FlowLedger. */
module FlowControl {
  import opened Common
  import opened FlowCredit
  import opened FlowLedger

  class TxMsg {
    const pcie: bool        // SPRDWL_HW_PCIE
    const withCredit: bool  // TX_WITH_CREDIT
    var owner: seq<Mode>
    var flow: seq<int>
    var color: seq<int>
    var ringCp: int
    var ringAp: int

    ghost function State(): Credit
      reads this
    {
      Credit(owner, flow, color, ringCp, ringAp)
    }

    constructor (pcie: bool, withCredit: bool)
      ensures State() == START.c && this.pcie == pcie && this.withCredit == withCredit
    {
      this.pcie, this.withCredit := pcie, withCredit;
      owner, flow, color, ringCp, ringAp := [NONE, NONE, NONE, NONE], ZEROS, ZEROS, 0, 0;
    }

    /** sprdwl_fc_find_color_per_mode */
    method FindColorPerMode(m: Mode, closed: seq<bool>) returns (found: bool, index: nat)
      requires |owner| == MAX_COLOR_BIT && |closed| == MODE_MAX
      modifies this`owner
      ensures owner == Claim(old(owner), closed, m) && found == (m in owner)
      ensures found ==> index == IndexOf(owner, m)
    {
      ghost var o0 := owner;
      found, index := false, 0;
      while index < MAX_COLOR_BIT && !found
        invariant index <= MAX_COLOR_BIT && (found ==> index < MAX_COLOR_BIT && owner[index] == m)
        invariant forall k :: 0 <= k < index ==> owner[k] != m
        decreases MAX_COLOR_BIT - index, !found
      {
        if owner[index] == m {
          found := true;
        } else {
          index := index + 1;
        }
      }
      if !found {
        var i := 0;
        while i < MAX_COLOR_BIT
          invariant i <= MAX_COLOR_BIT && |owner| == MAX_COLOR_BIT
          invariant forall k :: 0 <= k < i ==> owner[k] == Cleared(o0, closed)[k]
          invariant forall k :: i <= k < MAX_COLOR_BIT ==> owner[k] == o0[k]
        {
          if owner[i] != NONE && closed[owner[i]] {
            owner := owner[i := NONE];
          }
          i := i + 1;
        }
        assert owner == Cleared(o0, closed);
        index := 0;
        while index < MAX_COLOR_BIT && !found
          invariant index <= MAX_COLOR_BIT && |owner| == MAX_COLOR_BIT
          invariant forall k :: 0 <= k < index ==> Cleared(o0, closed)[k] != NONE
          invariant found ==> index < MAX_COLOR_BIT && Cleared(o0, closed)[index] == NONE
          invariant owner == if found then Cleared(o0, closed)[index := m] else Cleared(o0, closed)
          decreases MAX_COLOR_BIT - index, !found
        {
          if owner[index] == NONE {
            found, owner := true, owner[index := m];
          } else {
            index := index + 1;
          }
        }
        FirstIndex(Cleared(o0, closed), NONE, index);
      }
      FirstIndex(owner, m, index);
    }

    /** sprdwl_fc_get_shared_num, for colours not yet granted */
    method GetSharedNum(num: int) returns (got: int)
      requires |owner| == |flow| == MAX_COLOR_BIT && color == ZEROS && 0 <= num < 256
      modifies this`color
      ensures color == SharedGrant(owner, flow, num, MAX_COLOR_BIT) && got == Sum(color)
    {
      hide Sum, SharedGrant;
      got := 0;
      var i := 0;
      SharedStart(owner, flow, num);
      while i < MAX_COLOR_BIT
        invariant i <= MAX_COLOR_BIT
        invariant color == SharedGrant(owner, flow, num, i) + Zeros(MAX_COLOR_BIT - i)
        invariant got == Sum(SharedGrant(owner, flow, num, i)) && got <= num
      {
        SharedStep(owner, flow, num, i);
        ghost var g := SharedGrant(owner, flow, num, i);
        if owner[i] == NONE && flow[i] != 0 {
          if flow[i] < 0 || num - got <= flow[i] {  // unsigned: a negative flow is larger than any need
            color := color[i := num - got];
            assert color == g + [num - got] + Zeros(MAX_COLOR_BIT - (i + 1));
            got := num;
            GrantDone(owner, flow, num, i + 1, MAX_COLOR_BIT);
            SumZeros(SharedGrant(owner, flow, num, i + 1), MAX_COLOR_BIT - (i + 1));
            return;
          }
          color := color[i := flow[i]];
          assert color == g + [flow[i]] + Zeros(MAX_COLOR_BIT - (i + 1));
          got := got + flow[i];
        } else {
          assert color == g + [0] + Zeros(MAX_COLOR_BIT - (i + 1));
        }
        i := i + 1;
      }
      assert Zeros(0) == [] && color + [] == color;
    }

    /** sprdwl_fc_test_shared_num */
    method TestSharedNum() returns (sum: int)
      requires |owner| == |flow| == MAX_COLOR_BIT
      ensures sum == Shared(owner, flow, MAX_COLOR_BIT)
    {
      sum := 0;
      for i := 0 to MAX_COLOR_BIT
        invariant sum == Shared(owner, flow, i)
      {
        if owner[i] == NONE && flow[i] != 0 {
          sum := sum + flow[i];
        }
      }
    }

    /** What both query functions return before they look at credits. */
    ghost predicate Trivial(m: Mode, data: int)
    {
      data <= 0 || m == NONE || pcie || !withCredit
    }

    /** sprdwl_fc_get_send_num: records which colours pay for what it returns. */
    method GetSendNum(m: Mode, data: int, closed: seq<bool>) returns (n: int)
      requires Shape(State()) && |closed| == MODE_MAX
      modifies this`owner, this`color
      ensures Trivial(m, data) ==>
        && State() == old(State())
        && n == if data <= 0 || m == NONE then 0 else if pcie then data else Min(data, 100)
      ensures !Trivial(m, data) ==>
        && State() == Granted(old(State()), m, data, closed)
        && n == GetNum(owner, flow, m, Min(data, MAX_BATCH))
    {
      hide Sum, Shared, SharedGrant, IndexOf, Claim;
      if data <= 0 || m == NONE {
        return 0;
      }
      if pcie {
        return data;
      }
      var d := if data > MAX_BATCH then MAX_BATCH else data;
      if !withCredit {
        return d;
      }
      color := ZEROS;
      var found, i := FindColorPerMode(m, closed);
      if !found {
        return -ENOMEM;
      }
      if flow[i] >= d {
        color := color[i := d];
        n := d;
      } else {
        var shared := GetSharedNum((d - flow[i]) % 256);
        color := color[i := flow[i] % 256];
        n := flow[i] + shared;
      }
      if n <= 0 {
        n := -ENOMEM;
      }
    }

    /** sprdwl_fc_test_send_num: a query without a grant. */
    method TestSendNum(m: Mode, data: int, closed: seq<bool>) returns (n: int)
      requires Shape(State()) && |closed| == MODE_MAX
      modifies this`owner
      ensures Trivial(m, data) ==>
        && State() == old(State())
        && n == if data <= 0 || m == NONE then 0 else if pcie then data else Min(data, 100)
      ensures !Trivial(m, data) ==>
        && State() == old(State()).(owner := Claim(old(owner), closed, m))
        && n == Estimate(owner, flow, m, Min(data, MAX_BATCH))
    {
      hide Shared, IndexOf, Claim;
      if data <= 0 || m == NONE {
        return 0;
      }
      if pcie {
        return data;
      }
      var d := if data > MAX_BATCH then MAX_BATCH else data;
      if !withCredit {
        return d;
      }
      var found, i := FindColorPerMode(m, closed);
      if !found {
        return -ENOMEM;
      }
      var shared := TestSharedNum();
      n := flow[i] + shared;
      if n <= 0 {
        return -ENOMEM;
      }
      n := if n <= d then n else d;
    }

    /** sprdwl_fc_set_clor_bit */
    method SetColorBit(num: int) returns (i: nat)
      requires |color| == MAX_COLOR_BIT
      ensures i == if withCredit then Stamp(color, num, 0) else 0
    {
      if !withCredit {
        return 0;
      }
      i := 0;
      var count := 0;
      while i < MAX_COLOR_BIT
        invariant i <= MAX_COLOR_BIT && count == Sum(color[..i])
        invariant Stamp(color, num, 0) == Stamp(color, num, i)
      {
        SumTake(color, i);
        count := count + color[i];
        if num <= count {
          break;
        }
        i := i + 1;
      }
    }

    /** sprdwl_handle_tx_return */
    method HandleTxReturn(sendNum: int, failed: bool)
      requires Shape(State())
      modifies this`flow, this`color, this`ringAp
      ensures failed ==> State() == old(State()).(color := ZEROS)
      ensures !failed ==>
        var left := if withCredit then Minus(old(flow), old(color)) else old(flow);
        State() == old(State()).(ap := old(ringAp) + sendNum, flow := left)
      ensures !failed && withCredit ==> forall k :: 0 <= k < 4 ==> flow[k] == old(flow)[k] - old(color)[k]
    {
      if failed {
        color := ZEROS;
        return;
      }
      ringAp := ringAp + sendNum;
      if !withCredit {
        return;
      }
      ghost var f0 := flow;
      var i := 0;
      while i < MAX_COLOR_BIT
        invariant i <= MAX_COLOR_BIT && |flow| == MAX_COLOR_BIT
        invariant color == old(color) && ringAp == old(ringAp) + sendNum
        invariant forall k :: 0 <= k < i ==> flow[k] == f0[k] - color[k]
        invariant forall k :: i <= k < MAX_COLOR_BIT ==> flow[k] == f0[k]
      {
        if color[i] != 0 {
          flow := flow[i := flow[i] - color[i]];
        }
        i := i + 1;
      }
      assert flow == Minus(f0, color);
    }

    /** sprdwl_sdio_process_credit: four zeros in a flow-control event are a reset, in which each
        colour is deducted only while ring_cp is not zero. */
    method ProcessCredit(f: seq<int>, isEvent: bool)
      requires Shape(State()) && |f| == MAX_COLOR_BIT && (forall k :: 0 <= k < MAX_COLOR_BIT ==> 0 <= f[k] <= 255)
      modifies this`flow, this`color, this`ringCp
      ensures State() ==
        if Sum(f) != 0 then old(State()).(flow := Plus(old(flow), f), cp := old(ringCp) + Sum(f))
        else if isEvent then Reset(old(State()))
        else old(State())
      ensures forall k :: 0 <= k < 4 ==>
                flow[k] == if isEvent && f == [0, 0, 0, 0] then 0 else old(flow)[k] + f[k]
    {
      assert f == [f[0], f[1], f[2], f[3]];
      FourSum(f);
      if f[0] + f[1] + f[2] + f[3] != 0 {
        flow := [flow[0] + f[0], flow[1] + f[1], flow[2] + f[2], flow[3] + f[3]];
        assert flow == Plus(old(flow), f);
        ringCp := ringCp + (f[0] + f[1] + f[2] + f[3]);
      } else if isEvent {
        ResetLoop();
      }
    }

    /** The reset of all credits. */
    method ResetLoop()
      requires Shape(State())
      modifies this`flow, this`color, this`ringCp
      ensures State() == Reset(old(State()))
    {
      ghost var f0, cp0 := flow, ringCp;
      var i := 0;
      while i < MAX_COLOR_BIT
        invariant i <= MAX_COLOR_BIT && |flow| == |color| == MAX_COLOR_BIT
        invariant forall k :: 0 <= k < i ==> flow[k] == 0 && color[k] == 0
        invariant forall k :: i <= k < MAX_COLOR_BIT ==> flow[k] == f0[k]
        invariant ringCp == Deducted(cp0, f0, i)
      {
        if ringCp != 0 {
          ringCp := ringCp - flow[i];
        }
        flow, color := flow[i := 0], color[i := 0];
        i := i + 1;
      }
      assert flow == ZEROS && color == ZEROS;
    }

    /** sprdwl_fc_add_share_credit stops at the first colour of the mode; as no mode owns two, it
        shares all of them. */
    method AddShareCredit(m: Mode)
      requires Shape(State()) && OneColour(owner) && m != NONE
      modifies this`owner
      ensures owner == Disowned(old(owner), m) && OneColour(owner) && m !in owner
    {
      var i := 0;
      while i < MAX_COLOR_BIT && owner[i] != m
        invariant i <= MAX_COLOR_BIT && forall k :: 0 <= k < i ==> owner[k] != m
      {
        i := i + 1;
      }
      if i < MAX_COLOR_BIT {
        owner := owner[i := NONE];
      }
      assert owner == Disowned(old(owner), m);
    }

    /** handle_tx_status_after_close: the last close forgets all credits, another one shares the
        closed mode's colours. Its last test asks for a flush only if the first mode found open is
        closed, so no queue is ever flushed here. */
    method AfterClose(m: Mode, closed: seq<bool>, queued: seq<nat>) returns (flushes: bool)
      requires Shape(State()) && |closed| == |queued| == MODE_MAX
      modifies this`owner, this`flow, this`ringCp, this`ringAp
      ensures var allClosed := forall k :: 1 <= k < MODE_MAX ==> closed[k];
        State() == if allClosed then Credit([NONE, NONE, NONE, NONE], ZEROS, color, 0, 0)
                   else old(State()).(owner := Disowned(old(owner), m))
      ensures !flushes
    {
      var mode := 1;
      while mode < MODE_MAX && closed[mode]
        invariant 1 <= mode <= MODE_MAX && forall k :: 1 <= k < mode ==> closed[k]
      {
        mode := mode + 1;
      }
      flushes := false;
      if mode == MODE_MAX {
        ringCp, ringAp := 0, 0;
        owner, flow := [NONE, NONE, NONE, NONE], ZEROS;
      } else {
        ShareColours(m);
        flushes := queued[mode] != 0 && closed[mode];
      }
    }

    /** The colours of a closed mode become shared. */
    method ShareColours(m: Mode)
      requires Shape(State())
      modifies this`owner
      ensures owner == Disowned(old(owner), m)
    {
      var i := 0;
      ghost var o0 := owner;
      while i < MAX_COLOR_BIT
        invariant i <= MAX_COLOR_BIT && |owner| == MAX_COLOR_BIT
        invariant forall k :: 0 <= k < i ==> owner[k] == Disowned(o0, m)[k]
        invariant forall k :: i <= k < MAX_COLOR_BIT ==> owner[k] == o0[k]
      {
        if owner[i] == m {
          owner := owner[i := NONE];
        }
        i := i + 1;
      }
      assert owner == Disowned(o0, m);
    }
  }

  lemma FirstIndex(owner: seq<Mode>, m: Mode, k: nat)
    requires k <= |owner| && (forall j :: 0 <= j < k ==> owner[j] != m)
    ensures k < |owner| && owner[k] == m ==> IndexOf(owner, m) == k
    ensures k == |owner| ==> IndexOf(owner, m) == |owner|
  {
  }

  lemma SharedStart(owner: seq<Mode>, flow: seq<int>, need: int)
    requires |owner| == |flow| == MAX_COLOR_BIT
    ensures var g := SharedGrant(owner, flow, need, 0); ZEROS == g + Zeros(MAX_COLOR_BIT) && Sum(g) == 0
  {
  }

  function Zeros(n: nat): (r: seq<int>)
    ensures |r| == n && forall k :: 0 <= k < n ==> r[k] == 0
  {
    seq(n, _ => 0)
  }

  lemma {:induction false} SumZeros(xs: seq<int>, n: nat)
    ensures Sum(xs + Zeros(n)) == Sum(xs)
    decreases n
  {
    if n == 0 {
      assert xs + Zeros(0) == xs;
    } else {
      SumZeros(xs, n - 1);
      assert xs + Zeros(n) == xs + Zeros(n - 1) + [0];
      SumPush(xs + Zeros(n - 1), 0);
    }
  }

  /** Once the need is met the later colours give nothing. */
  lemma {:induction false} GrantDone(owner: seq<Mode>, flow: seq<int>, need: int, i: nat, n: nat)
    requires i <= n <= |owner| == |flow|
    requires Sum(SharedGrant(owner, flow, need, i)) == need
    ensures SharedGrant(owner, flow, need, n) == SharedGrant(owner, flow, need, i) + Zeros(n - i)
    decreases n
  {
    hide Sum, SharedGrant;
    var r := SharedGrant(owner, flow, need, i);
    if i == n {
      assert r + Zeros(0) == r;
    } else {
      GrantDone(owner, flow, need, i, n - 1);
      SumZeros(r, n - 1 - i);
      SharedStep(owner, flow, need, n - 1);
      assert r + Zeros(n - i) == r + Zeros(n - 1 - i) + [0];
    }
  }
}

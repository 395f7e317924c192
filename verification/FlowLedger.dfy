/** The books of the credit flow control over whole runs (WIFI/tx_msg.c). */
module FlowLedger {
  import opened Common
  import opened FlowCredit

  function Plus(a: seq<int>, b: seq<int>): (r: seq<int>)
    requires |a| == |b|
    ensures |r| == |a|
  {
    seq(|a|, k requires 0 <= k < |a| => a[k] + b[k])
  }

  function Minus(a: seq<int>, b: seq<int>): (r: seq<int>)
    requires |a| == |b|
    ensures |r| == |a|
  {
    seq(|a|, k requires 0 <= k < |a| => a[k] - b[k])
  }

  lemma {:induction false} SumPlus(a: seq<int>, b: seq<int>)
    requires |a| == |b|
    ensures Sum(Plus(a, b)) == Sum(a) + Sum(b) && Sum(Minus(a, b)) == Sum(a) - Sum(b)
  {
    if a != [] {
      SumPlus(a[1..], b[1..]);
      assert Plus(a, b)[1..] == Plus(a[1..], b[1..]) && Minus(a, b)[1..] == Minus(a[1..], b[1..]);
    }
  }

  /** `pending` packets have been granted credits and not yet been reported sent or failed. */
  datatype Ledger = Ledger(c: Credit, pending: int)

  datatype Event =
    | CreditsArrive(f: seq<int>)
    | CreditReset
    | Ask(m: Mode, data: int, closed: seq<bool>)  // sprdwl_fc_test_send_num
    | Get(m: Mode, data: int, closed: seq<bool>)  // sprdwl_fc_get_send_num
    | Sent(ok: bool)                              // sprdwl_handle_tx_return
    | CloseMode(m: Mode)
    | CloseAll

  /** Credits received are credits spent plus credits left, and a pending grant is covered. */
  predicate LedgerInv(l: Ledger) {
    && Shape(l.c) && OneColour(l.c.owner)
    && l.c.cp == l.c.ap + Sum(l.c.flow) && 0 <= l.c.ap
    && (forall k :: 0 <= k < MAX_COLOR_BIT ==> 0 <= l.c.flow[k])
    && 0 <= l.pending
    && (l.pending > 0 ==>
          && l.pending == Sum(l.c.color)
          && forall k :: 0 <= k < MAX_COLOR_BIT ==> 0 <= l.c.color[k] <= l.c.flow[k])
  }

  /** What can happen: one thread grants and reports in turn, everything else may fall between. */
  predicate Possible(l: Ledger, e: Event) {
    match e
    case CreditsArrive(f) => |f| == MAX_COLOR_BIT && forall k :: 0 <= k < MAX_COLOR_BIT ==> 0 <= f[k] <= 255
    case CreditReset => true
    case Ask(m, data, closed) => m != NONE && data > 0 && |closed| == MODE_MAX
    case Get(m, data, closed) => m != NONE && data > 0 && |closed| == MODE_MAX && l.pending == 0
    case Sent(_) => l.pending > 0
    case CloseMode(m) => m != NONE
    case CloseAll => true
  }

  /** A reset or a close of everything does not fall between a grant and its report. */
  predicate Enabled(l: Ledger, e: Event) {
    Possible(l, e) && (e.CreditReset? || e.CloseAll? ==> l.pending == 0)
  }

  /** The reset loop's effect on ring_cp: a colour is deducted only while ring_cp is not zero. */
  function Deducted(cp: int, flow: seq<int>, n: nat): int
    requires n <= |flow|
  {
    if n == 0 then cp
    else if Deducted(cp, flow, n - 1) == 0 then 0
    else Deducted(cp, flow, n - 1) - flow[n - 1]
  }

  /** Some first colours add up to exactly `cp`. */
  predicate Meets(cp: int, flow: seq<int>, n: nat)
    requires n <= |flow|
  {
    exists j: nat :: j <= n && Sum(flow[..j]) == cp
  }

  lemma {:induction false} DeductedIs(cp: int, flow: seq<int>, n: nat)
    requires n <= |flow|
    ensures Deducted(cp, flow, n) == if Meets(cp, flow, n) then 0 else cp - Sum(flow[..n])
    decreases n
  {
    if n == 0 {
      assert flow[..0] == [] && (Meets(cp, flow, 0) <==> cp == 0);
    } else {
      DeductedIs(cp, flow, n - 1);
      SumTake(flow, n - 1);
      if Meets(cp, flow, n - 1) {
        assert Meets(cp, flow, n);
      } else if Meets(cp, flow, n) {
        assert Sum(flow[..n]) == cp;
      }
    }
  }

  /** A reset takes all flows off ring_cp exactly when ring_cp does not become zero on the way. */
  lemma ResetTakesAllExactly(cp: int, flow: seq<int>)
    ensures Deducted(cp, flow, |flow|) == cp - Sum(flow) <==> (Meets(cp, flow, |flow|) ==> Sum(flow) == cp)
  {
    DeductedIs(cp, flow, |flow|);
    assert flow[..|flow|] == flow;
  }

  /** It does whenever ring_cp covers the flows. */
  lemma CoveredReset(cp: int, flow: seq<int>)
    requires (forall k :: 0 <= k < |flow| ==> 0 <= flow[k]) && Sum(flow) <= cp
    ensures Deducted(cp, flow, |flow|) == cp - Sum(flow)
  {
    ResetTakesAllExactly(cp, flow);
    if Meets(cp, flow, |flow|) {
      var j: nat :| j <= |flow| && Sum(flow[..j]) == cp;
      PrefixMonotone(flow, j, |flow|);
      assert flow[..|flow|] == flow;
    }
    hide Meets, Deducted;
  }

  function Reset(c: Credit): Credit {
    c.(flow := ZEROS, color := ZEROS, cp := Deducted(c.cp, c.flow, |c.flow|))
  }

  function Disowned(owner: seq<Mode>, m: Mode): (r: seq<Mode>)
    ensures |r| == |owner| && forall k :: 0 <= k < |r| ==> r[k] == if owner[k] == m then NONE else owner[k]
  {
    seq(|owner|, k requires 0 <= k < |owner| => if owner[k] == m then NONE else owner[k])
  }

  /** The state sprdwl_fc_get_send_num leaves behind. */
  function Granted(c: Credit, m: Mode, data: int, closed: seq<bool>): Credit
    requires Shape(c) && |closed| == MODE_MAX
  {
    var o := Claim(c.owner, closed, m);
    var i := IndexOf(o, m);
    c.(owner := o, color := if i < MAX_COLOR_BIT then Grant(o, c.flow, i, Min(data, MAX_BATCH)) else ZEROS)
  }

  function Step(l: Ledger, e: Event): (r: Ledger)
    requires Shape(l.c) && Possible(l, e)
    ensures Shape(r.c)
  {
    match e
    case CreditsArrive(f) => l.(c := l.c.(flow := Plus(l.c.flow, f), cp := l.c.cp + Sum(f)))
    case CreditReset => l.(c := Reset(l.c))
    case Ask(m, data, closed) => l.(c := l.c.(owner := Claim(l.c.owner, closed, m)))
    case Get(m, data, closed) =>
      var n := GetNum(Claim(l.c.owner, closed, m), l.c.flow, m, Min(data, MAX_BATCH));
      Ledger(Granted(l.c, m, data, closed), if n > 0 then n else 0)
    case Sent(ok) =>
      if ok then Ledger(l.c.(ap := l.c.ap + l.pending, flow := Minus(l.c.flow, l.c.color)), 0)
      else Ledger(l.c.(color := ZEROS), 0)
    case CloseMode(m) => l.(c := l.c.(owner := Disowned(l.c.owner, m)))
    case CloseAll => l.(c := Credit([NONE, NONE, NONE, NONE], ZEROS, l.c.color, 0, 0))
  }

  lemma GetKeepsInv(l: Ledger, m: Mode, data: int, closed: seq<bool>)
    requires LedgerInv(l) && Enabled(l, Get(m, data, closed))
    ensures LedgerInv(Step(l, Get(m, data, closed)))
  {
    hide Sum, Shared, Grant, GetNum;
    var o := Claim(l.c.owner, closed, m);
    ClaimKeepsOneColour(l.c.owner, closed, m);
    GetIsEstimate(o, l.c.flow, m, Min(data, MAX_BATCH));
    if m in o {
      GrantTheorem(o, l.c.flow, m, Min(data, MAX_BATCH));
    }
  }

  lemma StepKeepsInv(l: Ledger, e: Event)
    requires LedgerInv(l) && Enabled(l, e)
    ensures LedgerInv(Step(l, e))
  {
    hide Sum, Claim, Granted, GetNum, Deducted;
    ZerosSum();
    match e {
      case CreditsArrive(f) => SumPlus(l.c.flow, f);
      case CreditReset => CoveredReset(l.c.cp, l.c.flow);
      case Ask(m, data, closed) => ClaimKeepsOneColour(l.c.owner, closed, m);
      case Get(m, data, closed) => GetKeepsInv(l, m, data, closed);
      case Sent(ok) => SumPlus(l.c.flow, l.c.color);
      case _ =>
    }
  }

  // ---------------------------------------------------------------------
  // Runs

  predicate PossibleRun(l: Ledger, es: seq<Event>)
    requires Shape(l.c)
    decreases |es|
  {
    es == [] || (Possible(l, es[0]) && PossibleRun(Step(l, es[0]), es[1..]))
  }

  predicate EnabledRun(l: Ledger, es: seq<Event>)
    requires Shape(l.c)
    ensures EnabledRun(l, es) ==> PossibleRun(l, es)
    decreases |es|
  {
    es == [] || (Enabled(l, es[0]) && EnabledRun(Step(l, es[0]), es[1..]))
  }

  function Run(l: Ledger, es: seq<Event>): Ledger
    requires Shape(l.c) && PossibleRun(l, es)
    decreases |es|
  {
    if es == [] then l else Run(Step(l, es[0]), es[1..])
  }

  lemma {:induction false} RunKeepsInv(l: Ledger, es: seq<Event>)
    requires LedgerInv(l) && EnabledRun(l, es)
    ensures LedgerInv(Run(l, es))
    decreases |es|
  {
    if es != [] {
      StepKeepsInv(l, es[0]);
      RunKeepsInv(Step(l, es[0]), es[1..]);
    }
  }

  const START := Ledger(Credit([NONE, NONE, NONE, NONE], ZEROS, ZEROS, 0, 0), 0)

  lemma StartInv()
    ensures LedgerInv(START)
  {
    ZerosSum();
  }

  /** Over every run, every credit received has been spent on a packet or is still there, no
      colour is overdrawn, and no mode owns two colours. */
  lemma CreditTheorem(es: seq<Event>)
    requires EnabledRun(START, es)
    ensures var c := Run(START, es).c;
      && Shape(c) && c.cp == c.ap + Sum(c.flow) && OneColour(c.owner)
      && forall k :: 0 <= k < MAX_COLOR_BIT ==> 0 <= c.flow[k]
  {
    StartInv();
    RunKeepsInv(START, es);
  }

  // ---------------------------------------------------------------------
  // Resets and closes in flight

  /** The books balance, no colour is overdrawn, and no mode owns two colours. */
  predicate Books(l: Ledger) {
    && Shape(l.c) && OneColour(l.c.owner)
    && l.c.cp == l.c.ap + Sum(l.c.flow) && 0 <= l.c.ap
    && (forall k :: 0 <= k < MAX_COLOR_BIT ==> 0 <= l.c.flow[k])
    && 0 <= l.pending
  }

  /** The grant recorded is the one to be reported and every colour can still pay its part. */
  predicate Covered(l: Ledger)
    requires Shape(l.c)
  {
    l.pending == Sum(l.c.color) && forall k :: 0 <= k < MAX_COLOR_BIT ==> l.c.color[k] <= l.c.flow[k]
  }

  lemma SentExactly(l: Ledger)
    requires Books(l) && l.pending > 0
    ensures Books(Step(l, Sent(true))) <==> Covered(l)
  {
    hide Sum;
    SumPlus(l.c.flow, l.c.color);
    var r := Step(l, Sent(true));
    assert forall k :: 0 <= k < MAX_COLOR_BIT ==> r.c.flow[k] == l.c.flow[k] - l.c.color[k];
  }

  /** With resets and closes allowed anywhere, the only event that can spoil the books is a report of
      success, and it does exactly when the grant is no longer covered. */
  lemma BooksExactly(l: Ledger, e: Event)
    requires Books(l) && Possible(l, e)
    ensures Books(Step(l, e)) <==> (e == Sent(true) ==> Covered(l))
  {
    hide Sum, Claim, Granted, GetNum, Deducted, Covered;
    ZerosSum();
    match e {
      case CreditsArrive(f) => SumPlus(l.c.flow, f);
      case CreditReset => CoveredReset(l.c.cp, l.c.flow);
      case Ask(m, data, closed) => ClaimKeepsOneColour(l.c.owner, closed, m);
      case Get(m, data, closed) => GetKeepsBooks(l, m, data, closed);
      case Sent(ok) =>
        if ok {
          SentExactly(l);
        }
      case _ =>
    }
  }

  lemma GetKeepsBooks(l: Ledger, m: Mode, data: int, closed: seq<bool>)
    requires Books(l) && Possible(l, Get(m, data, closed))
    ensures Books(Step(l, Get(m, data, closed)))
  {
    hide Sum, Shared, Grant, Claim, GetNum;
    ClaimKeepsOneColour(l.c.owner, closed, m);
  }

  predicate PaidRun(l: Ledger, es: seq<Event>)
    requires Shape(l.c) && PossibleRun(l, es)
    decreases |es|
  {
    es == [] || ((es[0] == Sent(true) ==> Covered(l)) && PaidRun(Step(l, es[0]), es[1..]))
  }

  predicate AlwaysBooks(l: Ledger, es: seq<Event>)
    requires Shape(l.c) && PossibleRun(l, es)
    decreases |es|
  {
    Books(l) && (es == [] || AlwaysBooks(Step(l, es[0]), es[1..]))
  }

  /** Over every possible run the books are right throughout if and only if every success is reported
      while its grant is covered. */
  lemma {:induction false} BooksRunExactly(l: Ledger, es: seq<Event>)
    requires Books(l) && PossibleRun(l, es)
    ensures AlwaysBooks(l, es) <==> PaidRun(l, es)
    ensures PaidRun(l, es) ==> Books(Run(l, es))
    decreases |es|
  {
    if es != [] {
      BooksExactly(l, es[0]);
      if Books(Step(l, es[0])) {
        BooksRunExactly(Step(l, es[0]), es[1..]);
      } else {
        assert !AlwaysBooks(Step(l, es[0]), es[1..]);
      }
    }
    hide Step, Books, Covered, Possible;
  }

  /** A reset between a grant and its report leaves the books short by the packets in flight, so
      they balance exactly when there are none. */
  lemma ResetInsideExactly(l: Ledger)
    requires LedgerInv(l)
    ensures var r := Reset(l.c);
      var c := r.(ap := r.ap + l.pending, flow := Minus(r.flow, r.color));
      && c.ap + Sum(c.flow) - c.cp == l.pending
      && (c.cp == c.ap + Sum(c.flow) <==> l.pending == 0)
  {
    hide Deducted;
    CoveredReset(l.c.cp, l.c.flow);
    ZerosSum();
    SumPlus(ZEROS, ZEROS);
  }

  /** A close of everything between a grant and its report of success keeps the books balanced, as
      the grant is still recorded, but overdraws a colour exactly when there was a grant. */
  lemma CloseInsideExactly(l: Ledger)
    requires LedgerInv(l)
    ensures var r := Step(l, CloseAll);
      var c := (if r.pending > 0 then Step(r, Sent(true)) else r).c;
      && c.cp == c.ap + Sum(c.flow)
      && ((forall k :: 0 <= k < MAX_COLOR_BIT ==> 0 <= c.flow[k]) <==> l.pending == 0)
  {
    hide Sum;
    ZerosSum();
    SumPlus(ZEROS, l.c.color);
    if l.pending > 0 {
      FourSum(l.c.color);
      var c := Step(Step(l, CloseAll), Sent(true)).c;
      assert forall k :: 0 <= k < MAX_COLOR_BIT ==> c.flow[k] == -l.c.color[k];
      assert l.c.color[0] + l.c.color[1] + l.c.color[2] + l.c.color[3] > 0;
      assert exists k :: 0 <= k < MAX_COLOR_BIT && c.flow[k] < 0;
    }
  }

  // ---------------------------------------------------------------------
  // Such runs

  const OPEN: seq<bool> := [false, false, false, false, false, false, false, false]

  lemma OneStep(l: Ledger, es: seq<Event>)
    requires Shape(l.c) && es != [] && Possible(l, es[0]) && PossibleRun(Step(l, es[0]), es[1..])
    ensures PossibleRun(l, es) && Run(l, es) == Run(Step(l, es[0]), es[1..])
  {
    hide Step, Possible;
  }

  lemma NoStep(l: Ledger)
    requires Shape(l.c)
    ensures PossibleRun(l, []) && Run(l, []) == l
  {
  }

  /** A mode that owns nothing claims the first colour; it and the shared ones pay for three packets. */
  lemma FirstClaim(c: Credit)
    requires Shape(c) && c.owner == [NONE, NONE, NONE, NONE]
    ensures var o := Claim(c.owner, OPEN, 1); o == [1, NONE, NONE, NONE] && IndexOf(o, 1) == 0
  {
    assert Cleared(c.owner, OPEN) == c.owner;
  }

  lemma OwnPays(c: Credit)
    requires Shape(c) && c.owner == [NONE, NONE, NONE, NONE] && c.flow == [5, 0, 0, 0]
    ensures GetNum(Claim(c.owner, OPEN, 1), c.flow, 1, 3) == 3
  {
    hide Claim, Shared, IndexOf, GetNum;
    FirstClaim(c);
    SharedIs(Claim(c.owner, OPEN, 1), c.flow);
    GetIsEstimate(Claim(c.owner, OPEN, 1), c.flow, 1, 3);
  }

  lemma SharedPays(c: Credit)
    requires Shape(c) && c.owner == [NONE, NONE, NONE, NONE] && c.flow == [0, 3, 0, 0]
    ensures GetNum(Claim(c.owner, OPEN, 1), c.flow, 1, 3) == 3
    ensures Granted(c, 1, 3, OPEN).color == [0, 3, 0, 0]
  {
    hide Claim, Shared, SharedGrant, Sum, IndexOf, GetNum;
    FirstClaim(c);
    SharedIs(Claim(c.owner, OPEN, 1), c.flow);
    GetIsEstimate(Claim(c.owner, OPEN, 1), c.flow, 1, 3);
    SharedGrantIs(Claim(c.owner, OPEN, 1), c.flow);
  }

  lemma SharedIs(o: seq<Mode>, flow: seq<int>)
    requires o == [1, NONE, NONE, NONE] && |flow| == 4
    ensures Shared(o, flow, 4) == flow[1] + flow[2] + flow[3]
  {
    assert Shared(o, flow, 1) == 0;
    assert Shared(o, flow, 2) == flow[1];
    assert Shared(o, flow, 3) == flow[1] + flow[2];
  }

  lemma SharedGrantIs(o: seq<Mode>, flow: seq<int>)
    requires o == [1, NONE, NONE, NONE] && flow == [0, 3, 0, 0]
    ensures SharedGrant(o, flow, 3, 4) == [0, 3, 0, 0]
  {
    hide Sum, SharedGrant;
    SharedStep(o, flow, 3, 0);
    SharedStep(o, flow, 3, 1);
    SharedStep(o, flow, 3, 2);
    SharedStep(o, flow, 3, 3);
    NothingGranted(o, flow);
  }

  lemma NothingGranted(o: seq<Mode>, flow: seq<int>)
    requires |o| == |flow|
    ensures SharedGrant(o, flow, 3, 0) == [] && Sum([]) == 0
  {
  }

  /** Five credits arrive, three are granted, a reset comes, the three are reported sent: three more
      packets are then sent than credits were ever received. */
  lemma ResetInFlight()
    ensures var es := [CreditsArrive([5, 0, 0, 0]), Get(1, 3, OPEN), CreditReset, Sent(true)];
      && PossibleRun(START, es)
      && var c := Run(START, es).c; c.cp == 0 && c.ap == 3 && c.flow == ZEROS
  {
    hide Deducted, Granted, Claim, GetNum, Sum, Shared, IndexOf;
    var es := [CreditsArrive([5, 0, 0, 0]), Get(1, 3, OPEN), CreditReset, Sent(true)];
    FourSum([5, 0, 0, 0]);
    CoveredReset(5, [5, 0, 0, 0]);
    var l1 := Step(START, es[0]);
    assert l1.c == START.c.(flow := [5, 0, 0, 0], cp := 5);
    OwnPays(l1.c);
    var l2 := Step(l1, es[1]);
    GrantedKeeps(l1.c, 1, 3, OPEN);
    var l3 := Step(l2, es[2]);
    var l4 := Step(l3, es[3]);
    assert Minus(ZEROS, ZEROS) == ZEROS;
    NoStep(l4);
    OneStep(l3, es[1..][1..][1..]);
    OneStep(l2, es[1..][1..]);
    OneStep(l1, es[1..]);
    OneStep(START, es);
  }

  lemma GrantedKeeps(c: Credit, m: Mode, data: int, closed: seq<bool>)
    requires Shape(c) && |closed| == MODE_MAX
    ensures var g := Granted(c, m, data, closed); g.flow == c.flow && g.cp == c.cp && g.ap == c.ap
  {
    hide Claim, Grant, IndexOf;
  }

  const CLOSE_RUN: seq<Event> := [CreditsArrive([0, 3, 0, 0]), Get(1, 3, OPEN), CloseAll, Sent(true)]

  /** Three credits arrive and are granted, everything is closed, the three are reported sent: the
      second colour is then three credits in debt. */
  lemma CloseInFlight()
    ensures PossibleRun(START, CLOSE_RUN)
    ensures var c := Run(START, CLOSE_RUN).c;
      c.owner == [NONE, NONE, NONE, NONE] && c.cp == 0 && c.ap == 3 && c.flow == [0, -3, 0, 0]
  {
    hide Deducted, Granted, Claim, GetNum, Sum, Shared, IndexOf;
    var es := CLOSE_RUN;
    FourSum([0, 3, 0, 0]);
    var l1 := Step(START, es[0]);
    assert l1.c == START.c.(flow := [0, 3, 0, 0], cp := 3);
    SharedPays(l1.c);
    var l2 := Step(l1, es[1]);
    var l3 := Step(l2, es[2]);
    var l4 := Step(l3, es[3]);
    assert Minus(ZEROS, [0, 3, 0, 0]) == [0, -3, 0, 0];
    NoStep(l4);
    OneStep(l3, es[1..][1..][1..]);
    OneStep(l2, es[1..][1..]);
    OneStep(l1, es[1..]);
    OneStep(START, es);
  }

  /** After that run the two query functions differ: five packets are granted although there are no
      credits at all. */
  lemma GrantFromDebt()
    ensures PossibleRun(START, CLOSE_RUN)
    ensures var c := Run(START, CLOSE_RUN).c;
      && Shape(c)
      && var o := Claim(c.owner, OPEN, 1);
         GetNum(o, c.flow, 1, 5) == 5 && Estimate(o, c.flow, 1, 5) == -ENOMEM
  {
    hide Run, PossibleRun, Claim, GetNum, Shared, IndexOf;
    CloseInFlight();
    RunShape(START, CLOSE_RUN);
    var c := Run(START, CLOSE_RUN).c;
    FirstClaim(c);
    var o := Claim(c.owner, OPEN, 1);
    assert o[1] == NONE && c.flow[1] < 0;
    GetNumIs(o, c.flow, 1, 5);
    SharedIs(o, c.flow);
  }

  /** After that run five credits arrive in the first colour and a reset comes: ring_cp reaches zero
      with the first colour, so the debt is not deducted and ring_cp ends three short. */
  lemma ResetStopsShort()
    ensures var es := CLOSE_RUN + [CreditsArrive([5, 0, 0, 0]), CreditReset];
      && PossibleRun(START, es)
      && var c := Run(START, es).c; c.flow == ZEROS && c.ap == 3 && c.cp == 0
  {
    hide Deducted, Sum, PossibleRun, Run, Granted, Claim, GetNum;
    CloseInFlight();
    var l := Run(START, CLOSE_RUN);
    var es := [CreditsArrive([5, 0, 0, 0]), CreditReset];
    RunShape(START, CLOSE_RUN);
    FourSum([5, 0, 0, 0]);
    var l1 := Step(l, es[0]);
    assert l1.c.flow == [5, -3, 0, 0] && l1.c.cp == 5;
    Exhausted();
    assert es[1..][1..] == [];
    NoStep(Step(l1, es[1]));
    OneStep(l1, es[1..]);
    OneStep(l, es);
    RunSplit(START, CLOSE_RUN, es);
  }

  lemma Exhausted()
    ensures Deducted(5, [5, -3, 0, 0], 4) == 0
  {
    assert Deducted(5, [5, -3, 0, 0], 1) == 0;
  }

  lemma {:induction false} RunShape(l: Ledger, es: seq<Event>)
    requires Shape(l.c) && PossibleRun(l, es)
    ensures Shape(Run(l, es).c)
    decreases |es|
  {
    hide Step, Possible, Shape;
    if es != [] {
      RunShape(Step(l, es[0]), es[1..]);
    }
  }

  lemma {:induction false} RunSplit(l: Ledger, es: seq<Event>, fs: seq<Event>)
    requires Shape(l.c) && PossibleRun(l, es) && Shape(Run(l, es).c) && PossibleRun(Run(l, es), fs)
    ensures PossibleRun(l, es + fs) && Run(l, es + fs) == Run(Run(l, es), fs)
    decreases |es|
  {
    hide Step, Possible, Shape;
    if es == [] {
      assert es + fs == fs;
    } else {
      RunSplit(Step(l, es[0]), es[1..], fs);
      assert (es + fs)[1..] == es[1..] + fs;
    }
  }
}

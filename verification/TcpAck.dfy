/** TCP-ACK thinning (WIFI/tcp_ack.c): of the acknowledgements a flow wants to send, older ones
    may be discarded while the newest is held back for a few milliseconds. ACK numbers here are
    unbounded; the slot compares their 32-bit residues. */
module TcpAck {
  import opened Common

  const MOD32 := 0x1_0000_0000
  const HALF32 := 0x8000_0000

  type U32 = x: int | 0 <= x < 0x1_0000_0000

  datatype Msg = Msg(id: int, ack: int)

  /** (__s32)((__u32)a - (__u32)b) <= 0 */
  predicate Before(a: U32, b: U32) {
    var d := (a - b) % MOD32;
    d == 0 || d >= HALF32
  }

  /** The comparison is the order of the numbers for differences of up to 2^31 forward and less
      than 2^31 backward (section 3.3 of RFC 793 assumes no more). */
  lemma BeforeIsOrder(a: int, b: int)
    requires -HALF32 < b - a <= HALF32
    ensures Before(a % MOD32, b % MOD32) <==> a <= b
  {
    var qa, qb := a / MOD32, b / MOD32;
    assert a == MOD32 * qa + a % MOD32 && b == MOD32 * qb + b % MOD32;
  }

  /** One occupancy of a slot of struct sprdwl_tcp_ack_info, with what has left it. */
  datatype Slot = Slot(
    newest: int,            // ack_msg.seq
    held: Option<Msg>,      // msgbuf
    inSend: Option<Msg>,    // in_send_msg
    dropCnt: int,
    psh: Option<U32>,       // psh_seq while psh_flag is set
    timer: bool,            // the flush timer is pending
    due: bool,              // the timer expired and its callback has not run yet
    sent: seq<Msg>,
    dropped: seq<Msg>)

  datatype Event =
    | Ack(m: Msg, urgent: bool)  // sprdwl_tcp_ack_handle, urgent for type 2
    | TimerExpires
    | Flush                      // sprdwl_tcp_ack_timeout
    | Transmitted(m: Msg)        // sprdwl_move_tcpack_msg
    | Push(seq32: U32)           // sprdwl_filter_rx_tcp_ack

  function AsSeq(o: Option<Msg>): seq<Msg> {
    if o.Some? then [o.value] else []
  }

  function Held(s: Slot): seq<Msg> {
    AsSeq(s.held)
  }

  /** The first acknowledgement of a flow occupies the slot and is transmitted. */
  function Occupy(m: Msg, max: int): Slot {
    Slot(m.ack, None, None, max, None, false, false, [m], [])
  }

  /** The pushed data is acknowledged by `ack`. */
  predicate Quick(s: Slot, ack: int) {
    s.psh.Some? && !Before(ack % MOD32, s.psh.value)
  }

  function Send(s: Slot, m: Msg): Slot {
    s.(newest := m.ack, held := None, dropped := s.dropped + Held(s), sent := s.sent + [m])
  }

  function Urgent(s: Slot, m: Msg, max: int): Slot {
    Send(s, m).(psh := if Quick(s, m.ack) then None else s.psh, inSend := None, dropCnt := max,
                timer := if s.held.Some? then false else s.timer)
  }

  function Ordinary(s: Slot, m: Msg, max: int): Slot {
    var quick := Quick(s, m.ack);
    var cnt := if quick then s.dropCnt else s.dropCnt + 1;
    var s' := s.(psh := if quick then None else s.psh);
    if quick || (s.inSend.None? && cnt >= max) then
      Send(s', m).(dropCnt := 0, inSend := Some(m), timer := false)
    else
      s'.(newest := m.ack, held := Some(m), dropped := s.dropped + Held(s), dropCnt := cnt, timer := true)
  }

  /** Deleting or re-arming the timer does not stop a callback that is already due. */
  predicate Enabled(s: Slot, e: Event) {
    match e
    case Ack(m, _) => -HALF32 < m.ack - s.newest <= HALF32
    case TimerExpires => s.timer
    case Flush => s.due
    case Transmitted(_) => true
    case Push(_) => true
  }

  function Step(s: Slot, e: Event, max: int): Slot
    requires Enabled(s, e)
  {
    match e
    case Ack(m, urgent) =>
      if m.ack < s.newest then s.(dropped := s.dropped + [m])
      else if urgent then Urgent(s, m, max)
      else Ordinary(s, m, max)
    case TimerExpires => s.(timer := false, due := true)
    case Flush =>
      var s' := s.(due := false);
      if s.held.Some? && s.inSend.None? then
        s'.(held := None, dropCnt := 0, inSend := s.held, sent := s.sent + [s.held.value])
      else s'
    case Transmitted(m) => if s.inSend == Some(m) then s.(inSend := None) else s
    case Push(seq32) => s.(psh := Some(seq32))
  }

  predicate EnabledRun(s: Slot, es: seq<Event>, max: int)
    decreases |es|
  {
    es == [] || (Enabled(s, es[0]) && EnabledRun(Step(s, es[0], max), es[1..], max))
  }

  function Run(s: Slot, es: seq<Event>, max: int): Slot
    requires EnabledRun(s, es, max)
    decreases |es|
  {
    if es == [] then s else Run(Step(s, es[0], max), es[1..], max)
  }

  // ---------------------------------------------------------------------
  // What every run keeps

  /** The newest number is held or was the last one transmitted; transmitted numbers never go
      back; nothing discarded or held is newer than the newest. */
  predicate SlotInv(s: Slot) {
    && s.sent != []
    && (s.held.None? ==> s.sent[|s.sent| - 1].ack == s.newest)
    && (s.held.Some? ==> s.held.value.ack == s.newest)
    && (forall i, j :: 0 <= i <= j < |s.sent| ==> s.sent[i].ack <= s.sent[j].ack)
    && (forall i :: 0 <= i < |s.sent| ==> s.sent[i].ack <= s.newest)
    && (forall i :: 0 <= i < |s.dropped| ==> s.dropped[i].ack <= s.newest)
  }

  lemma SameInv(s: Slot, s': Slot)
    requires SlotInv(s)
    requires s'.newest == s.newest && s'.held == s.held && s'.sent == s.sent && s'.dropped == s.dropped
    ensures SlotInv(s')
  {
  }

  lemma SendKeepsInv(s: Slot, m: Msg)
    requires SlotInv(s) && s.newest <= m.ack
    ensures SlotInv(Send(s, m))
  {
  }

  lemma OrdinaryKeepsInv(s: Slot, m: Msg, max: int)
    requires SlotInv(s) && s.newest <= m.ack
    ensures SlotInv(Ordinary(s, m, max)) && Ordinary(s, m, max).newest == m.ack
  {
    var s' := s.(psh := if Quick(s, m.ack) then None else s.psh);
    var held := s'.(newest := m.ack, held := Some(m), dropped := s.dropped + Held(s));
    assert SlotInv(held);
    SameInv(s, s');
    SendKeepsInv(s', m);
    hide SlotInv, Quick, Send, Held;
    SendNewest(s', m);
    var r := Ordinary(s, m, max);
    SameInv(if r.held == Some(m) && r.newest == m.ack && r.sent == s.sent then held else Send(s', m), r);
  }

  lemma SendNewest(s: Slot, m: Msg)
    ensures Send(s, m).newest == m.ack && Send(s, m).held.None? && |Send(s, m).sent| == |s.sent| + 1
  {
  }

  lemma UrgentKeepsInv(s: Slot, m: Msg, max: int)
    requires SlotInv(s) && s.newest <= m.ack
    ensures SlotInv(Urgent(s, m, max)) && Urgent(s, m, max).newest == m.ack
  {
    SendKeepsInv(s, m);
    SendNewest(s, m);
    hide SlotInv, Quick, Send, Held;
    SameInv(Send(s, m), Urgent(s, m, max));
  }

  lemma FlushKeepsInv(s: Slot, max: int)
    requires SlotInv(s) && Enabled(s, Flush)
    ensures SlotInv(Step(s, Flush, max)) && Step(s, Flush, max).newest == s.newest
  {
  }

  lemma StepKeepsInv(s: Slot, e: Event, max: int)
    requires SlotInv(s) && Enabled(s, e)
    ensures SlotInv(Step(s, e, max)) && s.newest <= Step(s, e, max).newest
    ensures e.Ack? ==> e.m.ack <= Step(s, e, max).newest
  {
    hide Ordinary, Urgent, SlotInv;
    match e {
      case Ack(m, urgent) =>
        if s.newest <= m.ack {
          OrdinaryKeepsInv(s, m, max);
          UrgentKeepsInv(s, m, max);
        } else {
          DropKeepsInv(s, m);
        }
      case Flush => FlushKeepsInv(s, max);
      case _ => SameInv(s, Step(s, e, max));
    }
  }

  lemma DropKeepsInv(s: Slot, m: Msg)
    requires SlotInv(s) && m.ack < s.newest
    ensures SlotInv(s.(dropped := s.dropped + [m]))
  {
  }

  function Messages(es: seq<Event>): multiset<Msg> {
    if es == [] then multiset{} else Arrival(es[0]) + Messages(es[1..])
  }

  /** Where the messages of a slot are. */
  function Placed(s: Slot): multiset<Msg> {
    multiset(s.sent) + multiset(s.dropped) + multiset(Held(s))
  }

  function Arrival(e: Event): multiset<Msg> {
    if e.Ack? then multiset{e.m} else multiset{}
  }

  lemma StepPlaces(s: Slot, e: Event, max: int, x: Msg)
    requires Enabled(s, e)
    ensures Placed(Step(s, e, max))[x] == Placed(s)[x] + Arrival(e)[x]
  {
    hide Urgent, Ordinary, Placed, Count;
    if e.Ack? {
      AckPlaces(s, e.m, e.urgent, max, x);
    } else {
      PlacedCounts(s, x);
      PlacedCounts(Step(s, e, max), x);
      if s.held.Some? {
        Flushed(s.sent, s.dropped, s.held.value, x);
      }
    }
  }

  lemma Flushed(sent: seq<Msg>, dropped: seq<Msg>, m: Msg, x: Msg)
    ensures Count(sent + [m], dropped, [], x) == Count(sent, dropped, [m], x)
  {
    Appended(sent, m, x);
    assert multiset([m])[x] == multiset{m}[x];
  }

  function Count(sent: seq<Msg>, dropped: seq<Msg>, held: seq<Msg>, x: Msg): nat {
    multiset(sent)[x] + multiset(dropped)[x] + multiset(held)[x]
  }

  lemma PlacedCounts(s: Slot, x: Msg)
    ensures Placed(s)[x] == Count(s.sent, s.dropped, Held(s), x)
  {
  }

  /** A message is added to what was sent, dropped or held; what was held may be dropped. */
  lemma Moves(sent: seq<Msg>, dropped: seq<Msg>, held: seq<Msg>, m: Msg, x: Msg)
    ensures Count(sent, dropped + [m], held, x) == Count(sent, dropped, held, x) + multiset{m}[x]
    ensures Count(sent + [m], dropped + held, [], x) == Count(sent, dropped, held, x) + multiset{m}[x]
    ensures Count(sent, dropped + held, [m], x) == Count(sent, dropped, held, x) + multiset{m}[x]
  {
    Appended(sent, m, x);
    Appended(dropped, m, x);
    assert multiset(dropped + held)[x] == multiset(dropped)[x] + multiset(held)[x];
    assert multiset([m])[x] == multiset{m}[x];
  }

  lemma AckPlaces(s: Slot, m: Msg, urgent: bool, max: int, x: Msg)
    requires Enabled(s, Ack(m, urgent))
    ensures Placed(Step(s, Ack(m, urgent), max))[x] == Placed(s)[x] + multiset{m}[x]
  {
    hide Quick, Placed, Count;
    PlacedCounts(s, x);
    PlacedCounts(Step(s, Ack(m, urgent), max), x);
    Moves(s.sent, s.dropped, Held(s), m, x);
  }

  lemma Appended(xs: seq<Msg>, m: Msg, x: Msg)
    ensures multiset(xs + [m])[x] == multiset(xs)[x] + multiset{m}[x]
  {
  }

  lemma {:induction false} RunKeeps(s: Slot, es: seq<Event>, max: int)
    requires SlotInv(s) && EnabledRun(s, es, max)
    ensures SlotInv(Run(s, es, max)) && s.newest <= Run(s, es, max).newest
    ensures forall i :: 0 <= i < |es| && es[i].Ack? ==> es[i].m.ack <= Run(s, es, max).newest
    decreases |es|
  {
    if es != [] {
      StepKeepsInv(s, es[0], max);
      RunKeeps(Step(s, es[0], max), es[1..], max);
    }
    hide Step, SlotInv;
  }

  lemma {:induction false} RunPlaces(s: Slot, es: seq<Event>, max: int, x: Msg)
    requires EnabledRun(s, es, max)
    ensures Placed(Run(s, es, max))[x] == Placed(s)[x] + Messages(es)[x]
    decreases |es|
  {
    hide Step, Placed;
    if es != [] {
      StepPlaces(s, es[0], max, x);
      RunPlaces(Step(s, es[0], max), es[1..], max, x);
    }
  }

  /** Over one occupancy: every message is exactly one of transmitted, discarded or held; the
      newest number seen is held or has been transmitted; and no transmitted number is older
      than one transmitted before it. */
  lemma ThinningTheorem(m: Msg, es: seq<Event>, max: int)
    requires EnabledRun(Occupy(m, max), es, max)
    ensures var s := Run(Occupy(m, max), es, max);
      && multiset(s.sent) + multiset(s.dropped) + multiset(Held(s)) == multiset{m} + Messages(es)
      && m.ack <= s.newest && (forall i :: 0 <= i < |es| && es[i].Ack? ==> es[i].m.ack <= s.newest)
      && ((s.held.Some? && s.held.value.ack == s.newest) || exists i :: 0 <= i < |s.sent| && s.sent[i].ack == s.newest)
      && (forall i, j :: 0 <= i <= j < |s.sent| ==> s.sent[i].ack <= s.sent[j].ack)
  {
    RunKeeps(Occupy(m, max), es, max);
    var s0, s := Occupy(m, max), Run(Occupy(m, max), es, max);
    assert Placed(s0) == multiset{m};
    hide Run, EnabledRun, Messages, Placed;
    forall x: Msg ensures Placed(s)[x] == (multiset{m} + Messages(es))[x] {
      RunPlaces(s0, es, max, x);
    }
    PlacedIs(s);
  }

  lemma PlacedIs(s: Slot)
    ensures Placed(s) == multiset(s.sent) + multiset(s.dropped) + multiset(Held(s))
  {
  }

  /** A held acknowledgement has a pending timer, a callback on its way, or something of the flow
      still in transmission. */
  predicate Watched(s: Slot) {
    s.held.Some? ==> s.timer || s.due || s.inSend.Some?
  }

  /** The step that loses sight of a held acknowledgement is exactly the completion of a
      transmission after the flush timer has already fired: nothing re-arms the timer. */
  lemma WatchLostExactly(s: Slot, e: Event, max: int)
    requires Watched(s) && Enabled(s, e)
    ensures !Watched(Step(s, e, max)) <==> Loses(s, e)
  {
  }

  predicate Loses(s: Slot, e: Event) {
    e.Transmitted? && s.inSend == Some(e.m) && s.held.Some? && !s.timer && !s.due
  }

  predicate NeverLoses(s: Slot, es: seq<Event>, max: int)
    requires EnabledRun(s, es, max)
    decreases |es|
  {
    es == [] || (!Loses(s, es[0]) && NeverLoses(Step(s, es[0], max), es[1..], max))
  }

  predicate AlwaysWatched(s: Slot, es: seq<Event>, max: int)
    requires EnabledRun(s, es, max)
    decreases |es|
  {
    Watched(s) && (es == [] || AlwaysWatched(Step(s, es[0], max), es[1..], max))
  }

  /** Over every occupancy a held acknowledgement is watched throughout if and only if no transmission
      completes while one is held with neither timer nor callback. */
  lemma {:induction false} WatchedRunExactly(s: Slot, es: seq<Event>, max: int)
    requires Watched(s) && EnabledRun(s, es, max)
    ensures AlwaysWatched(s, es, max) <==> NeverLoses(s, es, max)
    decreases |es|
  {
    if es != [] {
      WatchLostExactly(s, es[0], max);
      if Watched(Step(s, es[0], max)) {
        WatchedRunExactly(Step(s, es[0], max), es[1..], max);
      } else {
        assert !AlwaysWatched(Step(s, es[0], max), es[1..], max);
      }
    }
    hide Step, Watched;
  }

  const FIRST := Msg(1, 100)
  const SECOND := Msg(2, 200)
  const THIRD := Msg(3, 300)

  /** Such a run exists, and then no further timer can release the acknowledgement. */
  lemma HeldAckCanStrand()
    ensures var es := [Ack(SECOND, false), Ack(THIRD, false), TimerExpires, Flush, Transmitted(SECOND)];
      && EnabledRun(Occupy(FIRST, 1), es, 1)
      && var s := Run(Occupy(FIRST, 1), es, 1);
         s.held == Some(THIRD) && !s.timer && !s.due && s.inSend.None?
  {
    var es := [Ack(SECOND, false), Ack(THIRD, false), TimerExpires, Flush, Transmitted(SECOND)];
    var s0 := Occupy(FIRST, 1);
    var s1 := Step(s0, es[0], 1);
    assert s1.inSend == Some(SECOND) && s1.held.None? && s1.newest == 200 && s1.dropCnt == 0;
    var s2 := Step(s1, es[1], 1);
    assert s2.held == Some(THIRD) && s2.timer && s2.inSend == Some(SECOND);
    var s3 := Step(s2, es[2], 1);
    var s4 := Step(s3, es[3], 1);
    assert s4.held == Some(THIRD) && !s4.timer && !s4.due && s4.inSend == Some(SECOND);
    var s5 := Step(s4, es[4], 1);
    assert es[1..][1..][1..][1..][1..] == [] && EnabledRun(s5, [], 1) && Run(s5, [], 1) == s5;
    OneStep(s4, es[1..][1..][1..][1..]);
    OneStep(s3, es[1..][1..][1..]);
    OneStep(s2, es[1..][1..]);
    OneStep(s1, es[1..]);
    OneStep(s0, es);
    hide Step, Enabled;
  }

  lemma OneStep(s: Slot, es: seq<Event>)
    requires es != [] && Enabled(s, es[0]) && EnabledRun(Step(s, es[0], 1), es[1..], 1)
    ensures EnabledRun(s, es, 1) && Run(s, es, 1) == Run(Step(s, es[0], 1), es[1..], 1)
  {
    hide Step, Enabled;
  }
}

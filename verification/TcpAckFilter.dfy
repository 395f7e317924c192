/** The slot and the table of slots of WIFI/tcp_ack.c. */
module TcpAckFilter {
  import opened Common
  import opened TcpAck
  import opened TcpAckLaws

  const TCP_ACK_NUM := 32

  /** struct sprdwl_tcp_ack_info during one occupancy. */
  class AckSlot {
    var seq32: U32
    var msgbuf: Option<Msg>
    var inSendMsg: Option<Msg>
    var dropCnt: int
    var pshFlag: bool
    var pshSeq: U32
    var timerPending: bool
    var sent: seq<Msg>     // handed to transmit
    var dropped: seq<Msg>  // given to sprdwl_intf_tcp_drop_msg
    ghost var s: Slot

    ghost predicate Valid()
      reads this
    {
      && seq32 == s.newest % MOD32 && msgbuf == s.held && inSendMsg == s.inSend && dropCnt == s.dropCnt
      && pshFlag == s.psh.Some? && (pshFlag ==> pshSeq == s.psh.value)
      && timerPending == s.timer && sent == s.sent && dropped == s.dropped
    }

    /** The allocating branch of sprdwl_filter_send_tcp_ack, for a slot with nothing held. */
    constructor (m: Msg, max: int)
      ensures Valid() && s == Occupy(m, max)
    {
      seq32, msgbuf, inSendMsg, dropCnt := m.ack % MOD32, None, None, max;
      pshFlag, pshSeq, timerPending := false, 0, false;
      sent, dropped := [m], [];
      s := Occupy(m, max);
    }

    /** The data pushed by the peer is acknowledged: psh_flag is used up. */
    method PushAcked(m: Msg) returns (quick: bool)
      requires Valid()
      ensures quick == Quick(s, m.ack)
      ensures forall p: int :: PushIs(s, p, m.ack) ==> (quick <==> pshFlag && p < m.ack)
    {
      forall p: int | PushIs(s, p, m.ack) ensures Quick(s, m.ack) <==> s.psh.Some? && p < m.ack {
        QuickIs(s, p, m.ack);
      }
      quick := pshFlag && !Before(m.ack % MOD32, pshSeq);
    }

    /** A message held back gives way to a newer one. */
    method DropHeld()
      requires Valid()
      modifies this`dropped, this`msgbuf
      ensures dropped == s.dropped + Held(s) && msgbuf.None?
    {
      if msgbuf.Some? {
        dropped := dropped + [msgbuf.value];
        msgbuf := None;
      } else {
        assert dropped + [] == dropped;
      }
    }

    /** sprdwl_tcp_ack_handle for an acknowledgement that is not older: type 2. */
    method HandleUrgent(m: Msg, max: int)
      requires Valid() && s.newest <= m.ack
      modifies this
      ensures Valid() && s == Urgent(old(s), m, max)
    {
      hide Quick, AsSeq, Urgent;
      UrgentFields(s, m, max);
      var quick := PushAcked(m);
      var wasHeld := msgbuf.Some?;
      DropHeld();
      if wasHeld {
        timerPending := false;
      }
      seq32 := m.ack % MOD32;
      if quick {
        pshFlag := false;
      }
      inSendMsg, dropCnt := None, max;
      sent := sent + [m];
      s := Urgent(s, m, max);
    }

    /** sprdwl_tcp_ack_handle for an acknowledgement that is not older: type 1. */
    method HandleOrdinary(m: Msg, max: int) returns (filtered: bool)
      requires Valid() && s.newest <= m.ack
      modifies this
      ensures Valid() && s == Ordinary(old(s), m, max) && filtered == (s.held == Some(m))
    {
      hide Quick, AsSeq, Ordinary;
      OrdinaryFields(s, m, max);
      var quick := PushAcked(m);
      DropHeld();
      if quick {
        pshFlag := false;
      } else {
        dropCnt := dropCnt + 1;
      }
      seq32 := m.ack % MOD32;
      filtered := !(quick || (inSendMsg.None? && dropCnt >= max));
      if filtered {
        msgbuf, timerPending := Some(m), true;
      } else {
        dropCnt, inSendMsg, timerPending := 0, Some(m), false;
        sent := sent + [m];
      }
      s := Ordinary(s, m, max);
    }

    /** sprdwl_tcp_ack_handle and what its caller does with the answer: a message that is not
        filtered is transmitted. */
    method Handle(m: Msg, urgent: bool, max: int) returns (filtered: bool)
      requires Valid() && Enabled(s, Ack(m, urgent))
      modifies this
      ensures Valid() && s == Step(old(s), Ack(m, urgent), max)
      ensures !filtered ==> m in sent
    {
      hide Before, Quick;
      BeforeIsOrder(s.newest, m.ack);
      if !Before(seq32, m.ack % MOD32) {
        dropped := dropped + [m];
        s := s.(dropped := dropped);
        filtered := true;
      } else if urgent {
        HandleUrgent(m, max);
        filtered := false;
      } else {
        filtered := HandleOrdinary(m, max);
      }
    }

    /** The timer hardware: a pending flush timer expires and its callback is on its way. */
    method TimerExpires(max: int)
      requires Valid() && Enabled(s, Event.TimerExpires)
      modifies this`timerPending, this`s
      ensures Valid() && s == Step(old(s), Event.TimerExpires, max)
    {
      timerPending := false;
      s := Step(s, Event.TimerExpires, max);
    }

    /** sprdwl_tcp_ack_timeout, which may run after the timer was deleted or re-armed */
    method TimerFires(max: int)
      requires Valid() && Enabled(s, Flush)
      modifies this
      ensures Valid() && s == Step(old(s), Flush, max)
    {
      if msgbuf.Some? && inSendMsg.None? {
        sent := sent + [msgbuf.value];
        inSendMsg, msgbuf, dropCnt := msgbuf, None, 0;
      }
      s := Step(s, Flush, max);
    }

    /** sprdwl_move_tcpack_msg */
    method MoveMsg(m: Msg, max: int)
      requires Valid()
      modifies this
      ensures Valid() && s == Step(old(s), Transmitted(m), max)
    {
      if inSendMsg == Some(m) {
        inSendMsg := None;
      }
      s := Step(s, Transmitted(m), max);
    }

    /** sprdwl_filter_rx_tcp_ack */
    method RxPush(seq32: U32, max: int)
      requires Valid()
      modifies this
      ensures Valid() && s == Step(old(s), Push(seq32), max)
    {
      pshFlag, pshSeq := true, seq32;
      s := Step(s, Push(seq32), max);
    }
  }

  lemma OrdinaryFields(s: Slot, m: Msg, max: int)
    ensures var r, quick := Ordinary(s, m, max), Quick(s, m.ack);
      var cnt := if quick then s.dropCnt else s.dropCnt + 1;
      var send := quick || (s.inSend.None? && cnt >= max);
      && r.newest == m.ack && r.psh == (if quick then None else s.psh) && r.due == s.due
      && r.held == (if send then None else Some(m)) && r.inSend == (if send then Some(m) else s.inSend)
      && r.dropCnt == (if send then 0 else cnt) && r.timer == !send
      && r.sent == (if send then s.sent + [m] else s.sent) && r.dropped == s.dropped + Held(s)
  {
    hide Quick;
  }

  lemma UrgentFields(s: Slot, m: Msg, max: int)
    ensures var r := Urgent(s, m, max);
      && r.newest == m.ack && r.psh == (if Quick(s, m.ack) then None else s.psh) && r.due == s.due
      && r.held == None && r.inSend == None && r.dropCnt == max && r.timer == (s.timer && s.held.None?)
      && r.sent == s.sent + [m] && r.dropped == s.dropped + Held(s)
  {
    hide Quick;
  }

  // ---------------------------------------------------------------------
  // The table

  datatype Flow = Flow(source: int, dest: int, saddr: int, daddr: int)

  function Busy(b: seq<bool>): nat {
    if b == [] then 0 else Busy(b[..|b| - 1]) + if b[|b| - 1] then 1 else 0
  }

  lemma {:induction false} BusyUpdate(b: seq<bool>, i: int, v: bool)
    requires 0 <= i < |b|
    ensures Busy(b[i := v]) == Busy(b) - (if b[i] then 1 else 0) + (if v then 1 else 0)
  {
    var n := |b| - 1;
    if i < n {
      BusyUpdate(b[..n], i, v);
      assert b[i := v][..n] == b[..n][i := v];
    } else {
      assert b[i := v][..n] == b[..n];
    }
  }

  lemma {:induction false} AllBusy(b: seq<bool>)
    ensures Busy(b) <= |b| && (Busy(b) == |b| <==> forall i :: 0 <= i < |b| ==> b[i])
  {
    if b != [] {
      AllBusy(b[..|b| - 1]);
    }
  }

  lemma AllTaken(b: seq<bool>, reserved: multiset<int>)
    requires (forall i :: i in reserved ==> 0 <= i < |b| && !b[i]) && forall i :: 0 <= i < |b| ==> b[i]
    ensures Busy(b) + |reserved| == |b|
  {
    AllBusy(b);
    assert forall i :: i !in reserved;
    assert reserved == multiset{};
  }

  /** `k` is the first position at which the two differ. */
  predicate FirstChange(b: seq<bool>, b': seq<bool>, k: nat)
    requires k < |b| == |b'|
  {
    b[k] != b'[k] && forall j :: 0 <= j < k ==> b[j] == b'[j]
  }

  /** The first slot that is not busy, or the length. */
  function FirstIdle(b: seq<bool>): (i: nat)
    ensures i <= |b| && (i < |b| ==> !b[i]) && forall k :: 0 <= k < i ==> b[k]
  {
    if b == [] || !b[0] then 0 else 1 + FirstIdle(b[1..])
  }

  /** struct sprdwl_tcp_ack_manage: who has which slot. */
  class AckTable {
    var busy: seq<bool>
    var flow: seq<Flow>
    var freeIndex: int
    var maxNum: int
    ghost var reserved: multiset<int>  // indices handed out and not yet occupied
    ghost var lost: nat                // occupations of a slot that was busy already

    /** What holds whatever two senders do at once: max_num counts the busy slots, the reservations,
        and for ever also the occupations that hit a busy slot. */
    ghost predicate Sound()
      reads this
    {
      && |busy| == |flow| == TCP_ACK_NUM && -1 <= freeIndex < TCP_ACK_NUM
      && (forall i :: i in reserved ==> 0 <= i < TCP_ACK_NUM)
      && maxNum == Busy(busy) + |reserved| + lost
    }

    /** Nothing was lost, reserved slots are reserved once and not busy, and free_index names a slot
        that is neither. */
    ghost predicate Valid()
      reads this
    {
      && Sound() && lost == 0
      && (forall i :: i in reserved ==> reserved[i] == 1 && !busy[i])
      && (freeIndex >= 0 ==> !busy[freeIndex] && freeIndex !in reserved)
    }

    /** No flow has two slots. */
    ghost predicate OneSlotPerFlow()
      reads this
      requires |busy| == |flow|
    {
      forall i, j :: 0 <= i < j < |busy| && busy[i] && busy[j] ==> flow[i] != flow[j]
    }

    /** sprdwl_tcp_ack_init clears everything, so the first free slot is number 0. */
    constructor (f: Flow)
      ensures Valid() && OneSlotPerFlow() && maxNum == 0 && freeIndex == 0 && reserved == multiset{}
      ensures busy == seq(TCP_ACK_NUM, _ => false)
    {
      busy, flow := seq(TCP_ACK_NUM, _ => false), seq(TCP_ACK_NUM, _ => f);
      freeIndex, maxNum, reserved, lost := 0, 0, multiset{}, 0;
      new;
      NoneBusy(busy);
    }

    /** sprdwl_tcp_ack_match */
    method Match(f: Flow) returns (index: int)
      requires Sound()
      ensures -1 <= index < TCP_ACK_NUM
      ensures index >= 0 ==> busy[index] && flow[index] == f
      ensures index < 0 ==> forall i :: 0 <= i < TCP_ACK_NUM && busy[i] ==> flow[i] != f
    {
      index := -1;
      var i := 0;
      while index < 0 && i < TCP_ACK_NUM
        invariant 0 <= i <= TCP_ACK_NUM && -1 <= index < TCP_ACK_NUM
        invariant index >= 0 ==> busy[index] && flow[index] == f
        invariant index < 0 ==> forall k :: 0 <= k < i && busy[k] ==> flow[k] != f
        decreases TCP_ACK_NUM - i
      {
        if busy[i] && flow[i] == f {
          index := i;
        }
        i := i + 1;
      }
    }

    /** sprdwl_tcp_ack_update: slots idle for too long are given up, the lowest is used next. */
    method Update(idle: seq<bool>)
      requires Sound() && |idle| == TCP_ACK_NUM
      modifies this`busy, this`freeIndex, this`maxNum
      ensures Sound() && (old(Valid()) ==> Valid()) && (old(OneSlotPerFlow()) ==> OneSlotPerFlow())
      ensures forall k :: 0 <= k < TCP_ACK_NUM ==> busy[k] == (old(busy)[k] && !idle[k])
      ensures old(busy) == busy ==> freeIndex == old(freeIndex)
      ensures forall k :: 0 <= k < TCP_ACK_NUM && FirstChange(old(busy), busy, k) ==> freeIndex == k
    {
      hide Busy;
      var i := TCP_ACK_NUM - 1;
      while i >= 0
        invariant -1 <= i < TCP_ACK_NUM && Sound() && (old(Valid()) ==> Valid())
        invariant forall k :: 0 <= k <= i ==> busy[k] == old(busy)[k]
        invariant forall k :: i < k < TCP_ACK_NUM ==> busy[k] == (old(busy)[k] && !idle[k])
        invariant (forall k :: 0 <= k < TCP_ACK_NUM ==> busy[k] == old(busy)[k]) ==> freeIndex == old(freeIndex)
        invariant forall k :: i < k < TCP_ACK_NUM && FirstChange(old(busy), busy, k) ==> freeIndex == k
      {
        if busy[i] && idle[i] {
          BusyUpdate(busy, i, false);
          freeIndex, maxNum := i, maxNum - 1;
          busy := busy[i := false];
        }
        i := i - 1;
      }
    }

    /** sprdwl_tcp_ack_alloc_index, the first of the two locked regions: an index is handed out unless
        max_num says that all slots are taken. In a valid table it is one already handed out exactly
        when no free index is known and the first idle slot is still waiting for its occupation. */
    method AllocIndex() returns (index: int)
      requires Sound()
      modifies this`freeIndex, this`maxNum, this`reserved
      ensures Sound() && -1 <= index < TCP_ACK_NUM
      ensures index < 0 <==> old(maxNum) == TCP_ACK_NUM || (old(freeIndex) < 0 && FirstIdle(busy) == TCP_ACK_NUM)
      ensures index < 0 ==> maxNum == old(maxNum) && freeIndex == old(freeIndex) && reserved == old(reserved)
      ensures index >= 0 ==>
        && index == (if old(freeIndex) < 0 then FirstIdle(busy) else old(freeIndex))
        && freeIndex == -1 && reserved == old(reserved) + multiset{index}
      ensures old(Valid()) ==>
        && (index < 0 <==> old(maxNum) == TCP_ACK_NUM)
        && (Valid() <==> index !in old(reserved))
        && (index in old(reserved) <==>
              old(maxNum) != TCP_ACK_NUM && old(freeIndex) < 0 && FirstIdle(busy) in old(reserved))
    {
      hide Busy;
      index := -1;
      if maxNum == TCP_ACK_NUM {
        return;
      }
      if (forall i :: 0 <= i < TCP_ACK_NUM ==> busy[i]) && Valid() {
        AllTaken(busy, reserved);
      }
      if freeIndex >= 0 {
        index := freeIndex;
      } else {
        var i := 0;
        while index < 0 && i < TCP_ACK_NUM
          invariant 0 <= i <= TCP_ACK_NUM && -1 <= index < TCP_ACK_NUM
          invariant index >= 0 ==> !busy[index] && forall k :: 0 <= k < index ==> busy[k]
          invariant index < 0 ==> forall k :: 0 <= k < i ==> busy[k]
          decreases TCP_ACK_NUM - i
        {
          if !busy[i] {
            index := i;
          }
          i := i + 1;
        }
      }
      if index >= 0 {
        freeIndex, maxNum := -1, maxNum + 1;
        reserved := reserved + multiset{index};
      }
    }

    /** The second locked region: the caller occupies the slot it was given. If the slot is busy by
        then, max_num stays one too high. The flow has one slot exactly when no other slot was
        occupied for it since the search. */
    method OccupySlot(index: nat, f: Flow)
      requires Sound() && index in reserved
      modifies this`busy, this`flow, this`reserved, this`lost
      ensures Sound() && (old(Valid()) ==> Valid())
      ensures lost == old(lost) + (if old(busy)[index] then 1 else 0) && reserved == old(reserved) - multiset{index}
      ensures busy == old(busy)[index := true] && flow == old(flow)[index := f]
      ensures old(OneSlotPerFlow()) ==>
                (OneSlotPerFlow() <==>
                   forall i :: 0 <= i < TCP_ACK_NUM && i != index && old(busy)[i] ==> old(flow)[i] != f)
    {
      hide Busy;
      BusyUpdate(busy, index, true);
      lost := lost + if busy[index] then 1 else 0;
      busy, flow := busy[index := true], flow[index := f];
      reserved := reserved - multiset{index};
      forall i | 0 <= i < TCP_ACK_NUM && i != index && old(busy)[i] && old(flow)[i] == f ensures !OneSlotPerFlow() {
        assert busy[i] && busy[index] && flow[i] == flow[index];
      }
    }
  }

  /** Two senders that allocate at once are given the same slot, and one slot is then counted twice. */
  method SameSlotTwice(f: Flow, g: Flow) returns (a: int, b: int, counted: int, busy: seq<bool>)
    ensures a == b == 0 && counted == 2 && Busy(busy) == 1
  {
    var t := new AckTable(f);
    a := t.AllocIndex();
    b := t.AllocIndex();
    t.OccupySlot(a, f);
    t.OccupySlot(b, g);
    counted, busy := t.maxNum, t.busy;
  }

  lemma {:induction false} NoneBusy(b: seq<bool>)
    requires forall i :: 0 <= i < |b| ==> !b[i]
    ensures Busy(b) == 0
  {
    if b != [] {
      NoneBusy(b[..|b| - 1]);
    }
  }
}

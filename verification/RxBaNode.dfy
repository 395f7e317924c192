/** The reorder engine of WIFI/reorder.c: 12-bit window fields, a ring of slots changed in
    place, and the loops that empty it. Every entry point is proved to take the step of the
    ring-free session that `s` records. */
module RxBaNode {
  import opened Common
  import opened Seqno
  import opened BlockAckSession
  import opened BlockAckTheorems
  import opened BlockAckOrder
  import opened BlockAckContents
  import opened BlockAckReplay
  import opened BlockAckConservation
  import opened BlockAckBypass
  import opened RxRing

  const MIN_INDEX_SIZE := 64

  /** get_index_size: the least power of two that is at least 64 and at least `size`. */
  method GetIndexSize(size: nat) returns (n: nat)
    requires size <= MODULUS
    ensures RingSize(n) && size <= n
    ensures n == MIN_INDEX_SIZE || n / 2 < size
  {
    n := MIN_INDEX_SIZE;
    while size > n
      invariant RingSize(n) && (n == MIN_INDEX_SIZE || n / 2 < size)
      decreases MODULUS - n
    {
      n := n * 2;
    }
  }

  /** reorder_msdu takes the frame. */
  predicate Accepted(s: Session, m: Msdu) {
    if Geq(m.sn, s.start % MODULUS) then
      var u := Unwrap(s.start, m.sn);
      CanInsert(MakeRoom(s.(init := 0), u).buf, u, m)
    else Bypasses(s, m)
  }

  /** The session after reorder_msdu, before the head is drained and the timer set. */
  function Reordered(s: Session, m: Msdu, skb: Option<Skb>): Session
    requires skb.None? ==> !Bypasses(s, m)
  {
    if Geq(m.sn, s.start % MODULUS) then
      var u := Unwrap(s.start, m.sn);
      var s' := MakeRoom(s.(init := 0), u);
      if CanInsert(s'.buf, u, m) then Insert(s', u, m, skb) else s'.(sink := FreeSkb(s'.sink, skb))
    else if Bypasses(s, m) then Bypass(s, skb)
    else s.(sink := FreeSkb(s.sink, skb))
  }

  function StopTimer(s: Session): Session {
    if s.buf == map[] then s.(armed := false, timeouts := 0) else s
  }

  lemma ReorderedStart(s: Session, m: Msdu, skb: Option<Skb>)
    requires WindowInv(s) && Enabled(s, Receive(m, skb))
    ensures var r, u := Reordered(s, m, skb), Unwrap(s.start, m.sn);
      if s.start <= u then s.start <= r.start <= u else r.start == s.start
  {
    hide MakeRoom, Inserted, CanInsert;
    var u := Unwrap(s.start, m.sn);
    if s.start <= u {
      MakeRoomKeepsWindow(s.(init := 0), u);
    }
  }

  /** Comparing residues with win_start compares the numbers. */
  lemma ReorderedResidues(s: Session, m: Msdu, skb: Option<Skb>)
    requires WindowInv(s) && Enabled(s, Receive(m, skb))
    ensures var r := Reordered(s, m, skb);
      && (m.sn == r.start % MODULUS <==> Unwrap(s.start, m.sn) == r.start)
      && (s.start % MODULUS == r.start % MODULUS <==> s.start == r.start)
  {
    hide Reordered;
    ReorderedStart(s, m, skb);
    var r, u := Reordered(s, m, skb), Unwrap(s.start, m.sn);
    if m.sn == r.start % MODULUS {
      ResidueInjective(u, r.start);
    }
    if s.start % MODULUS == r.start % MODULUS {
      ResidueInjective(s.start, r.start);
    }
  }

  lemma RoomForMsdu(s: Session, m: Msdu)
    requires WindowInv(s) && s.start <= Unwrap(s.start, m.sn)
    requires forall v :: v in s.buf && v % MODULUS == m.sn ==> s.buf[v].count < 0xffff
    ensures var u := Unwrap(s.start, m.sn);
      var s' := MakeRoom(s.(init := 0), u);
      && s'.start <= u < s'.start + s'.size && s'.tail == s.tail && s'.armed == s.armed
      && (u in s'.buf ==> s'.buf[u].count < 0xffff)
  {
    var u := Unwrap(s.start, m.sn);
    MakeRoomKeepsWindow(s.(init := 0), u);
    hide DeliverRange;
  }

  /** What reorder_msdu_process does after reorder_msdu makes it the general path. */
  lemma FinishGeneral(s: Session, m: Msdu, skb: Option<Skb>)
    requires SessionInv(s) && Enabled(s, Receive(m, skb)) && s.active
    ensures var r, u := Reordered(s, m, skb), Unwrap(s.start, m.sn);
      GeneralPath(s, m, skb) ==
           (if !Accepted(s, m) then StopTimer(r)
            else if m.last && u == r.start then ModTimer(Drain(r))
            else if !r.armed || s.start != r.start then ModTimer(r)
            else r)
  {
    hide MakeRoom, Inserted, Drain, CanInsert, Geq, FreeSkb;
  }

  /** The session after one more timeout is counted. */
  function AfterTimeout(s: Session): Session {
    if s.timeouts + 1 > MAX_TIMEOUT_CNT then s.(active := false, timeouts := 0) else s.(timeouts := s.timeouts + 1)
  }

  lemma TimeoutShape(s: Session)
    requires s.active && s.buf != map[] && !s.armed
    ensures var to := FirstComplete(s.buf, s.start, ScanEnd(s));
      Timeout(s) == ModTimer(AfterTimeout(Advance(s.(due := false, init := 0), to)))
  {
    hide FirstComplete, RunEnd, DeliverRange, CutBelow, ModTimer;
  }

  lemma {:induction false} RunSnoc(s: Session, es: seq<Event>, e: Event)
    requires EnabledRun(s, es) && Enabled(Run(s, es), e)
    ensures EnabledRun(s, es + [e]) && Run(s, es + [e]) == Step(Run(s, es), e)
    decreases |es|
  {
    hide Step, Enabled;
    if es == [] {
      assert [e][1..] == [] && es + [e] == [e];
      assert Run(Step(s, e), []) == Step(s, e);
    } else {
      RunSnoc(Step(s, es[0]), es[1..], e);
      assert (es + [e])[1..] == es[1..] + [e];
    }
  }

  lemma FreshSkips(start: Seq12, size: nat)
    ensures Skipped(Fresh(start, size).sink.out) == []
  {
  }

  /** The list holds the buffers that were passed up. */
  lemma {:induction false} FlatPassed(out: seq<Output>)
    ensures multiset(Flat(out)) == Passed(out)
  {
    if out != [] {
      FlatPassed(out[..|out| - 1]);
    }
  }

  class BaNode {
    var winStartInit: Seq12
    var winStart: Seq12
    var winLimit: Seq12
    var winTail: Seq12
    var winSize: nat
    var buffCnt: nat
    var pn: Pn
    var resetPn: bool
    const ring: array<Slot>

    var active: bool
    var timeoutCnt: nat
    var timerPending: bool

    var skbList: seq<Skb>  // the list handed to the network stack
    var freed: seq<Skb>    // the buffers given back to the kernel

    ghost var s: Session
    ghost var first: Session     // the session as it was set up
    ghost var hist: seq<Event>   // what happened since

    /** The exit side: replay counter, output list and freed buffers. */
    ghost predicate SinkOk()
      reads this`pn, this`resetPn, this`skbList, this`freed, this`s
    {
      && pn == s.sink.pn && resetPn == s.sink.resetPn
      && skbList == Flat(s.sink.out) && multiset(freed) == s.sink.freed
    }

    /** The ring shows the buffer of the session. */
    ghost predicate RingOk()
      reads this`buffCnt, this`winSize, this`s, ring
    {
      && RingHolds(ring[..], s.buf, s.start) && 2 * s.size <= ring.Length
      && buffCnt == |s.buf| && winSize == s.size && WindowInv(s)
    }

    ghost predicate WindowOk()
      reads this`winStart, this`winLimit, this`s
    {
      winStart == s.start % MODULUS && winLimit == Add(s.start, s.size - 1)
    }

    ghost predicate ControlOk()
      reads this`winStartInit, this`winTail, this`active, this`timeoutCnt, this`timerPending, this`s
    {
      && winStartInit == s.init && winTail == s.tail
      && active == s.active && timeoutCnt == s.timeouts && timerPending == s.armed
    }

    /** `s'` is the run of the history from a fresh session. */
    ghost predicate Reached(s': Session)
      reads this`first, this`hist
    {
      && (exists start: Seq12, size: nat :: 1 <= size < HALF && first == Fresh(start, size))
      && EnabledRun(first, hist) && s' == Run(first, hist)
    }

    ghost predicate HistoryOk()
      reads this`s, this`first, this`hist
    {
      Reached(s)
    }

    /** The driver's fields show the session. */
    ghost predicate Agrees()
      reads this, ring
    {
      SinkOk() && RingOk() && WindowOk() && ControlOk() && SessionInv(s)
    }

    ghost predicate Valid()
      reads this, ring
    {
      Agrees() && HistoryOk()
    }

    /** What Valid says of the driver's own fields: the window has its size, every occupied slot
        holds a number of the window that the index mask maps to it, buff_cnt counts those slots
        and stays within the window, and the slot at win_start is not a complete MPDU. */
    lemma FieldInvariant()
      requires Valid()
      ensures winLimit == Add(winStart, winSize - 1)
      ensures forall i :: i in Occupied(ring[..]) ==>
                Sub(ring[i].sn, winStart) < winSize && Index(ring[i].sn, ring.Length) == i
      ensures buffCnt == |Occupied(ring[..])| <= winSize
      ensures !ring[Index(winStart, ring.Length)].last
    {
      hide SinkOk, TimerInv, RunEnd, Reached;
      AddResidue(s.start, s.size - 1);
      SizeBound(s);
      OccupiedCount(ring[..], s);
      forall i | i in Occupied(ring[..])
        ensures Sub(ring[i].sn, winStart) < winSize && Index(ring[i].sn, ring.Length) == i
      {
        OccupiedInWindow(ring[..], s, i);
      }
      IndexOfResidue(s.start, ring.Length);
      assert ring[..][Index(s.start, ring.Length)] == Content(s.buf, s.start);
    }

    /** The list handed up is that of the run recorded in the history. Its MPDUs have strictly
        increasing unbounded numbers, each is exactly what was taken under its number, and their
        packet numbers fall behind at most once per reset request, never without one; the other
        frames are those that skipped the window, in arrival order. */
    lemma ListInOrder()
      requires SinkOk() && HistoryOk()
      ensures EnabledRun(first, hist)
      ensures var out := Run(first, hist).sink.out;
        && skbList == Flat(out) && Drops(out) <= Resets(hist) && Skipped(out) == RunSkips(first, hist)
        && (forall i, j :: 0 <= i < j < |out| && out[i].Released? && out[j].Released? ==> out[i].sn < out[j].sn)
        && (forall i :: 0 <= i < |out| && out[i].Released?
              ==> out[i].mpdu.frames == At(RunLog(map[], first, hist), out[i].sn))
        && (Resets(hist) == 0 ==>
              forall i, j :: 0 <= i < j < |out| && Counted(out[i]) && Counted(out[j])
                ==> out[i].mpdu.pn.Value() < out[j].mpdu.pn.Value())
    {
      hide Run, EnabledRun, RunLog, RunSkips, Fresh, Drops, Resets, Counted, Skipped;
      var start: Seq12, size: nat :| 1 <= size < HALF && first == Fresh(start, size);
      InOrderTheorem(start, size, hist);
      ContentsTheorem(start, size, hist);
      ReplayTheorem(start, size, hist);
      SkippedTheorem(first, hist);
      FreshSkips(start, size);
    }

    /** Every buffer that arrived was handed up, was freed, is held by the session, or leaked when the
        node was deleted; nothing leaks before. */
    lemma HistoryConserves()
      requires SinkOk() && HistoryOk()
      ensures Arrived(hist) == multiset(skbList) + multiset(freed) + Held(s) + s.leaked
      ensures !s.deleted ==> s.leaked == multiset{}
    {
      hide Run, EnabledRun, Arrived, Held, Passed;
      var start: Seq12, size: nat :| 1 <= size < HALF && first == Fresh(start, size);
      ConservationTheorem(start, size, hist);
      FlatPassed(s.sink.out);
      if !s.deleted {
        LeakNeedsDelete(first, hist);
      }
    }

    /** In a live node what the session holds is in the ring. */
    lemma BuffersConserved()
      requires Valid()
      ensures Arrived(hist) == multiset(skbList) + multiset(freed) + RingFrames(ring[..]) + s.leaked
      ensures !s.deleted ==> s.leaked == multiset{}
    {
      hide HistoryOk, Arrived, Held, RingFrames, TimerInv, SinkOk;
      HistoryConserves();
      RingFramesAreHeld(ring[..], s);
    }

    /** create_ba_node, set_ba_node_desc and the activation of the node. */
    constructor (start: Seq12, size: nat)
      requires 1 <= size < HALF
      ensures Valid() && s == Fresh(start, size) && fresh(ring)
    {
      var n := GetIndexSize(2 * size);
      winStartInit, winStart, winTail, winSize := start, start, Sub(start, 1), size;
      winLimit := Add(start, size - 1);
      buffCnt, pn, resetPn := 0, Pn(0, 0), false;
      active, timeoutCnt, timerPending := true, 0, false;
      skbList, freed := [], [];
      ring := new Slot[n](_ => EMPTY);
      s := Fresh(start, size);
      first, hist := s, [];
    }

    /** replay_detection */
    method ReplayDetection(rx: Pn, cipher: nat) returns (ok: bool)
      requires pn == s.sink.pn && resetPn == s.sink.resetPn
      modifies this`pn, this`resetPn
      ensures forall u: int, m: Mpdu :: m.frames != [] && m.pn == rx && m.cipher == cipher ==>
                var k := Deliver(s.sink, u, m);
                && pn == k.pn && resetPn == k.resetPn
                && k.out == (if ok then s.sink.out + [Released(u, m)] else s.sink.out)
                && k.freed == (if ok then s.sink.freed else s.sink.freed + multiset(m.frames))
    {
      ok := true;
      if cipher == TKIP || cipher == CCMP {
        if resetPn && pn.lo >= rx.lo && pn.hi >= rx.hi {
          resetPn, pn := false, rx;
        } else if (pn.hi == rx.hi && pn.lo < rx.lo) || pn.hi < rx.hi {
          pn := rx;
        } else {
          ok := false;
        }
      }
    }

    /** Passing the buffers of one MPDU through replay detection to the list or the kernel. */
    method SendFrames(frames: seq<Skb>, rx: Pn, cipher: nat, ghost u: int, ghost m: Mpdu)
      requires SinkOk() && m.frames == frames && m.pn == rx && m.cipher == cipher
      modifies this`pn, this`resetPn, this`skbList, this`freed, this`s
      ensures SinkOk() && s == old(s).(sink := Deliver(old(s.sink), u, m))
    {
      if frames != [] {
        FlatPush(s.sink.out, Released(u, m));
        var ok := ReplayDetection(rx, cipher);
        if ok {
          skbList := skbList + frames;
        } else {
          freed := freed + frames;
        }
        s := s.(sink := Deliver(s.sink, u, m));
      }
    }

    /** send_reorder_skb */
    method SendReorderSkb(i: nat, ghost u: int)
      requires SinkOk() && i < ring.Length && u in s.buf && ring[i] == Content(s.buf, u)
      modifies this`pn, this`resetPn, this`skbList, this`freed, this`s, ring
      ensures SinkOk() && s == old(s).(sink := Deliver(old(s.sink), u, old(s.buf[u])))
      ensures ring[..] == old(ring[..])[i := EMPTY]
    {
      var pkt := ring[i];
      SendFrames(pkt.frames, pkt.pn, pkt.cipher, u, s.buf[u]);
      ring[i] := EMPTY;
    }

    /** Releases the buffered head of the window. */
    method ReleaseHead(i: nat)
      requires SinkOk() && RingOk() && s.start in s.buf && i == Index(s.start, ring.Length)
      modifies this`pn, this`resetPn, this`skbList, this`freed, this`buffCnt, this`s, ring
      ensures SinkOk() && RingOk() && s == MoveTo(old(s), s.start) && s.start == old(s.start) + 1
    {
      ghost var s0, r0 := s, ring[..];
      MoveOverHead(s0);
      RingOverHead(r0, s0);
      SendReorderSkb(i, s.start);
      buffCnt := buffCnt - 1;
      s := MoveTo(s0, s0.start + 1);
      hide RingHolds, WindowInv, Deliver;
    }

    /** Steps over a head that is not buffered. */
    ghost method SkipHead()
      requires SinkOk() && RingOk() && s.start !in s.buf
      modifies this`s
      ensures SinkOk() && RingOk() && s == MoveTo(old(s), s.start) && s.start == old(s.start) + 1
    {
      MoveOverHead(s);
      RingOverHead(ring[..], s);
      s := MoveTo(s, s.start + 1);
      hide RingHolds, WindowInv, Deliver;
    }

    /** What the driver's tests on the slot of `win_start` tell. */
    lemma HeadSlot(sn: int)
      requires RingOk() && sn % MODULUS == s.start % MODULUS
      ensures var i := Index(sn, ring.Length);
        && i == Index(s.start, ring.Length)
        && (buffCnt != 0 && ring[i].count != 0 <==> s.start in s.buf)
        && (buffCnt != 0 && ring[i].last <==> Complete(s.buf, s.start))
        && (Complete(s.buf, s.start) ==> s.start in s.buf)
    {
      IndexOfCounter(sn, s.start, ring.Length);
      assert ring[..][Index(s.start, ring.Length)] == Content(s.buf, s.start);
    }

    lemma RingOkMeans()
      requires RingOk()
      ensures WindowInv(s) && RingSize(ring.Length) && winSize == s.size && 1 <= s.size < HALF
    {
    }

    /** send_msdu_with_gap */
    method SendWithGap(lastSn: Seq12, ghost to: int)
      requires SinkOk() && RingOk() && winStart == s.start % MODULUS
      requires s.start <= to < s.start + MODULUS && lastSn == to % MODULUS
      modifies this`pn, this`resetPn, this`skbList, this`freed, this`buffCnt, this`s, ring
      ensures SinkOk() && RingOk() && s == MoveTo(old(s), to)
    {
      hide SinkOk, RingOk, RingSize, DeliverRange, CutBelow, Index, Sub;
      ghost var s0 := s;
      var sn: int := winStart;
      var num: int := Sub(lastSn, sn);
      SubIsDistance(s.start, to);
      RingOkMeans();
      MoveToHere(s);
      while num > 0
        invariant SinkOk() && RingOk() && RingSize(ring.Length)
        invariant 0 <= num && s.start + num == to && s0.start <= s.start
        invariant sn % MODULUS == s.start % MODULUS
        invariant s == MoveTo(s0, s.start)
      {
        HeadSlot(sn);
        NextResidue(sn, s.start);
        MoveToTwice(s0, s.start, s.start + 1);
        var i := Index(sn, ring.Length);
        if buffCnt != 0 && ring[i].count != 0 {
          ReleaseHead(i);
        } else {
          SkipHead();
        }
        sn, num := sn + 1, num - 1;
      }
    }

    /** send_msdu_in_order */
    method SendInOrder() returns (next: Seq12)
      requires SinkOk() && RingOk() && winStart == s.start % MODULUS
      modifies this`pn, this`resetPn, this`skbList, this`freed, this`buffCnt, this`s, ring
      ensures SinkOk() && RingOk() && s == Drain(old(s)) && next == s.start % MODULUS
    {
      hide SinkOk, RingOk, RingSize, DeliverRange, CutBelow, RunEnd, Complete, Index;
      ghost var s0 := s;
      ghost var limit := s.start + s.size;
      var sn: int := winStart;
      RingOkMeans();
      MoveToHere(s);
      HeadSlot(sn);
      var i := Index(sn, ring.Length);
      while buffCnt != 0 && ring[i].last
        invariant SinkOk() && RingOk() && RingSize(ring.Length)
        invariant s0.start <= s.start <= limit
        invariant sn % MODULUS == s.start % MODULUS && i == Index(s.start, ring.Length)
        invariant buffCnt != 0 && ring[i].last <==> Complete(s.buf, s.start)
        invariant s == MoveTo(s0, s.start)
        invariant RunEnd(s0.buf, s0.start, limit) == RunEnd(s0.buf, s.start, limit)
        decreases limit - s.start
      {
        HeadSlot(sn);
        NextResidue(sn, s.start);
        MoveToTwice(s0, s.start, s.start + 1);
        RunStep(s0, s.start);
        ReleaseHead(i);
        sn := sn + 1;
        HeadSlot(sn);
        i := Index(sn, ring.Length);
      }
      RunStep(s0, s.start);
      next := sn % MODULUS;
    }

    /** Recomputes win_limit from win_start. */
    method SetLimit()
      requires winStart == s.start % MODULUS && winSize == s.size
      modifies this`winLimit
      ensures WindowOk()
    {
      AddResidue(s.start, s.size - 1);
      winLimit := Add(winStart, winSize - 1);
    }

    /** between_seqlo_seqhi */
    method BetweenSeqloSeqhi()
      requires SinkOk() && RingOk() && winStart == s.start % MODULUS
      modifies this`pn, this`resetPn, this`skbList, this`freed, this`buffCnt, this`s, ring
      modifies this`winStart, this`winLimit
      ensures SinkOk() && RingOk() && WindowOk() && s == Drain(old(s))
    {
      winStart := SendInOrder();
      SetLimit();
      hide RingHolds, WindowInv, Drain;
    }

    /** greater_than_seqhi, and the same steps of ba_reorder_timeout: flush up to `pos`, then drain. */
    method FlushTo(pos: Seq12, ghost to: int)
      requires SinkOk() && RingOk() && winStart == s.start % MODULUS
      requires s.start <= to < s.start + MODULUS && pos == to % MODULUS
      modifies this`pn, this`resetPn, this`skbList, this`freed, this`buffCnt, this`s, ring
      modifies this`winStart, this`winLimit
      ensures SinkOk() && RingOk() && WindowOk() && s == Advance(old(s), to)
    {
      RingOkMeans();
      AdvanceInTwo(s, to);
      SendWithGap(pos, to);
      winStart := pos;
      assert s.start == to;
      BetweenSeqloSeqhi();
      hide RingHolds, WindowInv, Drain, Advance;
    }

    /** insert_msdu */
    method InsertMsdu(m: Msdu, skb: Option<Skb>, ghost u: int) returns (ok: bool)
      requires SinkOk() && RingOk() && s.start <= u < s.start + s.size && u % MODULUS == m.sn
      requires u in s.buf ==> s.buf[u].count < 0xffff
      modifies this`buffCnt, this`s, ring
      ensures SinkOk() && RingOk() && ok == CanInsert(old(s.buf), u, m)
      ensures s == if ok then old(s).(buf := Inserted(old(s.buf), u, m, skb)) else old(s)
    {
      ghost var c := Inserted(s.buf, u, m, skb);
      RingInsert(ring[..], s, u, m, skb);
      IndexOfResidue(u, ring.Length);
      var i := Index(m.sn, ring.Length);
      var slot := ring[i];
      assert ring[..][Index(u, ring.Length)] == Content(s.buf, u);
      ok := true;
      if slot.count != 0 {
        if slot.sn == m.sn && !slot.last && (slot.cipher == TKIP || slot.cipher == CCMP ==> slot.pn == m.pn) {
          ring[i] := slot.(frames := slot.frames + Frames(skb), count := slot.count + 1, last := m.last);
        } else {
          ok := false;
        }
      } else {
        ring[i] := Slot(slot.frames + Frames(skb), m.pn, m.sn, m.cipher, m.last, 1);
        buffCnt := buffCnt + 1;
      }
      if ok {
        s := s.(buf := c);
        assert ring[i] == Content(c, u);
      }
      hide RingHolds;
    }

    /** Enters an event in the history. */
    ghost method Note(e: Event, before: Session)
      requires Reached(before) && Enabled(before, e) && s == Step(before, e)
      modifies this`hist
      ensures HistoryOk() && hist == old(hist) + [e]
    {
      RunSnoc(first, hist, e);
      hist := hist + [e];
    }

    /** Changes of control fields touch neither the ring nor the exit. */
    ghost method Retag(s': Session)
      requires SinkOk() && RingOk()
      requires s'.buf == s.buf && s'.start == s.start && s'.size == s.size && s'.sink == s.sink
      modifies this`s
      ensures SinkOk() && RingOk() && s == s'
    {
      s := s';
    }

    /** Makes room for a frame ahead of win_start, flushing the old window if it lies beyond. */
    method OpenWindow(sn: Seq12)
      requires Agrees() && Geq(sn, winStart)
      modifies this`pn, this`resetPn, this`skbList, this`freed, this`buffCnt, this`s, ring
      modifies this`winStart, this`winLimit, this`winStartInit
      ensures SinkOk() && RingOk() && WindowOk() && ControlOk()
      ensures s == MakeRoom(old(s).(init := 0), Unwrap(old(s.start), sn))
    {
      hide SinkOk, RingOk, WindowInv, Leq, Unwrap, Sub, DeliverRange, CutBelow, RunEnd, SessionInv;
      RingOkMeans();
      ghost var u := Unwrap(s.start, sn);
      LimitTest(s.start, s.size, sn);
      RoomStart(u, s.size);
      winStartInit := 0;
      Retag(s.(init := 0));
      if !Leq(sn, winLimit) {
        FlushTo(Sub(sn, winSize - 1), u - s.size + 1);
      }
    }

    /** The branch of reorder_msdu for a frame at or ahead of win_start. */
    method EnterWindow(m: Msdu, skb: Option<Skb>) returns (ok: bool)
      requires Agrees() && Enabled(s, Receive(m, skb)) && Geq(m.sn, winStart)
      modifies this`pn, this`resetPn, this`skbList, this`freed, this`buffCnt, this`s, ring
      modifies this`winStart, this`winLimit, this`winStartInit, this`winTail
      ensures SinkOk() && RingOk() && WindowOk() && ControlOk()
      ensures ok == Accepted(old(s), m)
      ensures ok ==> s == Reordered(old(s), m, skb)
      ensures !ok ==> s.(sink := FreeSkb(s.sink, skb)) == Reordered(old(s), m, skb)
    {
      hide SinkOk, RingOk, MakeRoom, Inserted, CanInsert, WindowInv, SessionInv, Unwrap, FreeSkb, Leq, Bypass, Add;
      RingOkMeans();
      ghost var u := Unwrap(s.start, m.sn);
      RoomForMsdu(s, m);
      OpenWindow(m.sn);
      ok := InsertMsdu(m, skb, u);
      if ok {
        if Geq(m.sn, winTail) {
          winTail := m.sn;
        }
        Retag(s.(tail := winTail));
      }
    }

    /** dev_kfree_skb */
    method KfreeSkb(skb: Option<Skb>)
      requires SinkOk()
      modifies this`freed, this`s
      ensures SinkOk() && s == old(s).(sink := FreeSkb(old(s.sink), skb))
    {
      freed := freed + Frames(skb);
      s := s.(sink := FreeSkb(s.sink, skb));
    }

    /** reorder_set_skb_list with a frame that never entered the window */
    method QueueSkb(skb: Skb)
      requires SinkOk()
      modifies this`skbList, this`s
      ensures SinkOk() && s == Bypass(old(s), Some(skb))
    {
      FlatPush(s.sink.out, Bypassed(skb));
      skbList := skbList + [skb];
      s := Bypass(s, Some(skb));
    }

    /** RingOk and the window and control fields do not depend on the exit side. */
    twostate lemma ExitOnly()
      requires old(RingOk() && WindowOk() && ControlOk())
      requires buffCnt == old(buffCnt) && winSize == old(winSize) && ring[..] == old(ring[..])
      requires winStart == old(winStart) && winLimit == old(winLimit)
      requires winStartInit == old(winStartInit) && winTail == old(winTail) && active == old(active)
      requires timeoutCnt == old(timeoutCnt) && timerPending == old(timerPending)
      requires s == old(s).(sink := s.sink)
      ensures RingOk() && WindowOk() && ControlOk()
    {
    }

    /** reorder_msdu */
    method ReorderMsdu(m: Msdu, skb: Option<Skb>) returns (ok: bool)
      requires Agrees() && active && Enabled(s, Receive(m, skb))
      modifies this`pn, this`resetPn, this`skbList, this`freed, this`buffCnt, this`s, ring
      modifies this`winStart, this`winLimit, this`winStartInit, this`winTail
      ensures SinkOk() && RingOk() && WindowOk() && ControlOk()
      ensures ok == Accepted(old(s), m) && s == Reordered(old(s), m, skb)
    {
      hide SinkOk, RingOk, ControlOk, MakeRoom, Insert, CanInsert, SessionInv, Unwrap, FreeSkb, Leq;
      ok := false;
      ParkedFields();
      if Geq(m.sn, winStart) {
        ok := EnterWindow(m, skb);
      } else if !Geq(m.sn, winStartInit) {
        label before:
        QueueSkb(skb.value);
        ExitOnly@before();
        ok := true;
      }
      if !ok {
        label before2:
        KfreeSkb(skb);
        ExitOnly@before2();
      }
    }

    lemma ParkedFields()
      requires Agrees()
      ensures winStartInit == s.init && winStart == s.start % MODULUS && active == s.active && buffCnt == |s.buf|
      ensures timerPending == s.armed && timeoutCnt == s.timeouts
    {
    }

    /** mod_reorder_timer */
    method ModReorderTimer()
      requires SinkOk() && RingOk() && WindowOk() && ControlOk()
      modifies this`timerPending, this`timeoutCnt, this`s
      ensures SinkOk() && RingOk() && WindowOk() && ControlOk() && s == ModTimer(old(s))
    {
      if buffCnt != 0 {
        timerPending := true;
      } else {
        timerPending, timeoutCnt := false, 0;
      }
      s := ModTimer(s);
      hide RingHolds, WindowInv;
    }

    /** del_timer when a rejected frame finds nothing buffered */
    method StopReorderTimer()
      requires SinkOk() && RingOk() && WindowOk() && ControlOk()
      modifies this`timerPending, this`timeoutCnt, this`s
      ensures SinkOk() && RingOk() && WindowOk() && ControlOk() && s == StopTimer(old(s))
    {
      if buffCnt == 0 {
        timerPending, timeoutCnt := false, 0;
      }
      s := StopTimer(s);
      hide RingHolds, WindowInv;
    }

    /** send_order_msdu */
    method SendOrderMsdu(m: Msdu, skb: Option<Skb>)
      requires Agrees() && OnFastPath(s, m)
      modifies this`pn, this`resetPn, this`skbList, this`freed, this`s
      modifies this`winStart, this`winLimit, this`winTail, this`winStartInit
      ensures SinkOk() && RingOk() && WindowOk() && ControlOk() && s == FastPath(old(s), m, skb)
    {
      hide SinkOk, RingOk, SessionInv, Add, Sub, MoveTo, Deliver, Single;
      ghost var s0 := s;
      SlideWindow(s.start, s.size);
      MoveOverEmpty(s);
      winStartInit := 0;
      winStart := Add(winStart, 1);
      winLimit := Add(winLimit, 1);
      winTail := Sub(winStart, 1);
      SkipHead();
      SendFrame(m, skb, s0.start);
      Retag(s.(init := 0, tail := winTail));
    }

    /** The buffer of a whole MPDU that needs no slot. */
    method SendFrame(m: Msdu, skb: Option<Skb>, ghost u: int)
      requires SinkOk() && RingOk()
      modifies this`pn, this`resetPn, this`skbList, this`freed, this`s
      ensures SinkOk() && RingOk() && s == old(s).(sink := Deliver(old(s.sink), u, Single(m, skb)))
    {
      SendFrames(Frames(skb), m.pn, m.cipher, u, Single(m, skb));
      hide RingHolds, Deliver;
    }

    /** The general path of reorder_msdu_process. */
    method ReorderAndSettle(m: Msdu, skb: Option<Skb>)
      requires Agrees() && active && Enabled(s, Receive(m, skb))
      modifies this`pn, this`resetPn, this`skbList, this`freed, this`buffCnt, this`s, ring
      modifies this`winStart, this`winLimit, this`winStartInit, this`winTail
      modifies this`active, this`timeoutCnt, this`timerPending
      ensures SinkOk() && RingOk() && WindowOk() && ControlOk() && s == GeneralPath(old(s), m, skb)
    {
      hide SinkOk, RingOk, SessionInv, WindowInv, Reordered, Accepted, GeneralPath, Unwrap, Drain, StopTimer, ModTimer;
      RingOkMeans();
      ReorderedResidues(s, m, skb);
      FinishGeneral(s, m, skb);
      ParkedFields();
      var before := winStart;
      var ok := ReorderMsdu(m, skb);
      if ok {
        if m.last && m.sn == winStart {
          label l:
          BetweenSeqloSeqhi();
          DrainControl@l();
          ModReorderTimer();
        } else if !timerPending || before != winStart {
          ModReorderTimer();
        }
      } else {
        StopReorderTimer();
      }
    }

    twostate lemma DrainControl()
      requires old(ControlOk()) && s == Drain(old(s))
      requires winStartInit == old(winStartInit) && winTail == old(winTail) && active == old(active)
      requires timeoutCnt == old(timeoutCnt) && timerPending == old(timerPending)
      ensures ControlOk()
    {
    }

    /** reorder_msdu_process: a frame or a filter event takes the step of the session. */
    method Process(m: Msdu, skb: Option<Skb>)
      requires Valid() && Enabled(s, Receive(m, skb))
      modifies this`pn, this`resetPn, this`skbList, this`freed, this`buffCnt, this`s, ring
      modifies this`winStart, this`winLimit, this`winStartInit, this`winTail
      modifies this`active, this`timeoutCnt, this`timerPending, this`hist
      ensures Valid() && s == Step(old(s), Receive(m, skb)) && hist == old(hist) + [Receive(m, skb)]
    {
      hide SinkOk, RingOk, WindowOk, ControlOk, SessionInv, GeneralPath, FastPath, Reached;
      ghost var s0 := s;
      ParkedFields();
      StepKeepsInv(s, Receive(m, skb));
      if active {
        if m.sn == winStart && buffCnt == 0 && m.last {
          SendOrderMsdu(m, skb);
        } else {
          ReorderAndSettle(m, skb);
        }
      } else {
        label l:
        QueueSkb(skb.value);
        ExitOnly@l();
      }
      Note(Receive(m, skb), s0);
    }

    /** get_first_seqno_in_buff */
    method GetFirstSeqno() returns (sn: Seq12)
      requires Agrees()
      ensures sn == FirstComplete(s.buf, s.start, ScanEnd(s)) % MODULUS
    {
      hide SinkOk, RingHolds, SessionInv, HeadOfLine, TimerInv, Index, RingSize, FirstComplete, ScanEnd, Leq, Complete;
      RingOkMeans();
      sn := winStart;
      ghost var k, end := s.start, ScanEnd(s);
      ScanTest(s, k);
      while Leq(sn, winTail)
        invariant sn == k % MODULUS && s.start <= k <= end
        invariant Leq(sn, winTail) <==> k < end
        invariant FirstComplete(s.buf, s.start, end) == FirstComplete(s.buf, k, end)
        invariant forall v :: s.start <= v < k ==> !Complete(s.buf, v)
        decreases end - k
      {
        ScanSlot(ring[..], s, k);
        IndexOfResidue(k, ring.Length);
        FirstStep(s.buf, k, end);
        if ring[Index(sn, ring.Length)].last {
          return;
        }
        NextResidue(sn, k);
        sn, k := Add(sn, 1), k + 1;
        ScanTest(s, k);
      }
      FirstStep(s.buf, k, end);
    }

    /** The timer hardware: a pending loss timer expires. */
    method Expire()
      requires Valid() && Enabled(s, TimerExpires)
      modifies this`timerPending, this`s, this`hist
      ensures Valid() && s == Step(old(s), TimerExpires) && hist == old(hist) + [TimerExpires]
    {
      hide SinkOk, RingOk, SessionInv, Reached;
      ghost var s0 := s;
      timerPending := false;
      StepKeepsInv(s, TimerExpires);
      Retag(s.(armed := false, due := true));
      Note(TimerExpires, s0);
    }

    /** reset_pn */
    method RequestResetPn()
      requires Valid() && Enabled(s, ResetPnRequest)
      modifies this`resetPn, this`s, this`hist
      ensures Valid() && s == Step(old(s), ResetPnRequest) && hist == old(hist) + [ResetPnRequest]
    {
      hide RingHolds, WindowInv, Reached;
      ghost var s0 := s;
      resetPn := true;
      s := s.(sink := s.sink.(resetPn := true));
      StepKeepsInv(s0, ResetPnRequest);
      Note(ResetPnRequest, s0);
    }

    /** The effective part of ba_reorder_timeout. */
    method RecoverLoss()
      requires Agrees() && active && buffCnt != 0 && !timerPending
      modifies this`pn, this`resetPn, this`skbList, this`freed, this`buffCnt, this`s, ring
      modifies this`winStart, this`winLimit, this`winStartInit, this`winTail
      modifies this`active, this`timeoutCnt, this`timerPending
      ensures SinkOk() && RingOk() && WindowOk() && ControlOk() && s == Timeout(old(s))
    {
      hide SinkOk, RingOk, SessionInv, FirstComplete, Advance, Timeout, AfterTimeout, ModTimer;
      ParkedFields();
      RingOkMeans();
      TimeoutShape(s);
      ghost var s0 := s;
      ghost var to := FirstComplete(s.buf, s.start, ScanEnd(s));
      var pos := GetFirstSeqno();
      winStartInit := 0;
      Retag(s.(due := false, init := 0));
      label l:
      FlushTo(pos, to);
      AdvanceControl@l(to);
      CountTimeout();
      ModReorderTimer();
    }

    /** The part of ba_reorder_timeout that gives the session up after too many timeouts. */
    method CountTimeout()
      requires SinkOk() && RingOk() && WindowOk() && ControlOk()
      modifies this`timeoutCnt, this`active, this`s
      ensures SinkOk() && RingOk() && WindowOk() && ControlOk() && s == AfterTimeout(old(s))
    {
      hide SinkOk, RingOk;
      timeoutCnt := timeoutCnt + 1;
      if timeoutCnt > MAX_TIMEOUT_CNT {
        active, timeoutCnt := false, 0;
      }
      Retag(AfterTimeout(s));
    }

    twostate lemma AdvanceControl(to: int)
      requires old(ControlOk()) && s == Advance(old(s), to)
      requires winStartInit == old(winStartInit) && winTail == old(winTail) && active == old(active)
      requires timeoutCnt == old(timeoutCnt) && timerPending == old(timerPending)
      ensures ControlOk() && s.timeouts == old(s.timeouts) && s.active == old(s.active) && s.armed == old(s.armed)
    {
    }

    /** ba_reorder_timeout */
    method TimerCallbackRuns()
      requires Valid() && Enabled(s, TimerCallback)
      modifies this`pn, this`resetPn, this`skbList, this`freed, this`buffCnt, this`s, ring
      modifies this`winStart, this`winLimit, this`winStartInit, this`winTail
      modifies this`active, this`timeoutCnt, this`timerPending, this`hist
      ensures Valid() && s == Step(old(s), TimerCallback) && hist == old(hist) + [TimerCallback]
    {
      hide SinkOk, RingOk, SessionInv, FirstComplete, ScanEnd, Advance, ModTimer, Reached;
      ghost var s0 := s;
      StepKeepsInv(s, TimerCallback);
      ParkedFields();
      if active && buffCnt != 0 && !timerPending {
        RecoverLoss();
      } else {
        Retag(s.(due := false));
      }
      Note(TimerCallback, s0);
    }

    /** The loop of flush_reorder_buffer. */
    method FreeSlots()
      requires 0 < ring.Length
      modifies this`freed, ring
      ensures multiset(freed) == old(multiset(freed)) + RingFrames(old(ring[..]))
      ensures forall i :: 0 <= i < ring.Length ==> ring[i] == EMPTY
    {
      hide RingFrames;
      ghost var r, was := ring[..], multiset(freed);
      RingFramesStep(r, 0);
      for i := 0 to ring.Length
        invariant forall j :: 0 <= j < i ==> ring[j] == EMPTY
        invariant forall j :: i <= j < ring.Length ==> ring[j] == r[j]
        invariant multiset(freed) == was + RingFrames(r[..i])
      {
        RingFramesStep(r, i);
        freed := freed + ring[i].frames;
        ring[i] := EMPTY;
      }
    }

    /** flush_reorder_buffer */
    method FlushReorderBuffer()
      requires SinkOk() && RingOk()
      modifies this`freed, this`buffCnt, this`s, ring
      ensures SinkOk() && buffCnt == 0 && forall i :: 0 <= i < ring.Length ==> ring[i] == EMPTY
      ensures s == old(s).(buf := map[], sink := old(s.sink).(freed := old(s.sink.freed) + Held(old(s))))
    {
      hide Held, WindowInv, RingHolds, RingFrames;
      RingOkMeans();
      RingFramesAreHeld(ring[..], s);
      FreeSlots();
      buffCnt := 0;
      s := s.(buf := map[], sink := s.sink.(freed := s.sink.freed + Held(s)));
    }

    /** wlan_delba_event, which drains first, and peer_entry_delba, which does not. The node is
        gone afterwards; what an inactive node still buffers is not given back. */
    method DeleteNode(drain: bool)
      requires Valid() && Enabled(s, DeleteSession(drain))
      modifies this`pn, this`resetPn, this`skbList, this`freed, this`buffCnt, this`s, ring
      modifies this`winStart, this`winLimit, this`winStartInit, this`winTail
      modifies this`active, this`timeoutCnt, this`timerPending, this`hist
      ensures SinkOk() && HistoryOk() && s == Step(old(s), DeleteSession(drain))
      ensures hist == old(hist) + [DeleteSession(drain)]
    {
      hide SinkOk, RingOk, SessionInv, Drain, Held, Reached;
      ParkedFields();
      ghost var s0 := s;
      timerPending := false;
      Retag(s.(armed := false, due := false, deleted := true));
      if active {
        active, timeoutCnt := false, 0;
        if drain {
          BetweenSeqloSeqhi();
        }
        FlushReorderBuffer();
        Finish(s.(active := false, timeouts := 0));
      } else {
        Finish(Delete(s0, drain));
      }
      Note(DeleteSession(drain), s0);
    }

    ghost method Finish(s': Session)
      requires SinkOk() && s'.sink == s.sink
      modifies this`s
      ensures SinkOk() && s == s'
    {
      s := s';
    }
  }
}

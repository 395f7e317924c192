/** Frames of an open network, and of every cipher but TKIP and CCMP, are subject to no replay check:
    whatever leaves the window is in the list (WIFI/reorder.c). */
module BlockAckOpen {
  import opened Common
  import opened Seqno
  import opened BlockAckSession
  import opened BlockAckTheorems
  import opened BlockAckOrder
  import opened BlockAckContents

  /** Neither TKIP nor CCMP, which are 1 and 2. */
  predicate IsOpen(cipher: nat) {
    cipher != 1 && cipher != 2
  }

  /** An MPDU of number `u` is in the list. */
  predicate Listed(out: seq<Output>, u: int) {
    exists i :: 0 <= i < |out| && out[i].Released? && out[i].sn == u
  }

  /** The list may have grown; the replay counter and the freed buffers are as before. */
  predicate Passes(k: Sink, k': Sink) {
    k.out <= k'.out && k'.pn == k.pn && k'.resetPn == k.resetPn && k'.freed == k.freed
  }

  lemma StaysListed(out: seq<Output>, out': seq<Output>, u: int)
    requires Listed(out, u) && out <= out'
    ensures Listed(out', u)
  {
    var i :| 0 <= i < |out| && out[i].Released? && out[i].sn == u;
    assert out'[i] == out[i];
  }

  /** An open MPDU with buffers becomes the next entry of the list and changes nothing else. */
  lemma DeliverOpen(k: Sink, u: int, p: Mpdu)
    requires IsOpen(p.cipher)
    ensures Deliver(k, u, p) == if p.frames == [] then k else k.(out := k.out + [Released(u, p)])
  {
  }

  lemma {:induction false} OpenRange(b: Buffer, k: Sink, lo: int, hi: int)
    requires forall u :: u in b && lo <= u < hi ==> IsOpen(b[u].cipher)
    ensures var k' := DeliverRange(b, k, lo, hi);
      Passes(k, k') && forall u :: u in b && lo <= u < hi && b[u].frames != [] ==> Listed(k'.out, u)
    decreases hi - lo
  {
    if lo < hi {
      OpenRange(b, k, lo, hi - 1);
      var k1, k' := DeliverRange(b, k, lo, hi - 1), DeliverRange(b, k, lo, hi);
      if hi - 1 in b {
        DeliverOpen(k1, hi - 1, b[hi - 1]);
        if b[hi - 1].frames != [] {
          assert k'.out[|k1.out|] == Released(hi - 1, b[hi - 1]);
        }
      }
      forall u | u in b && lo <= u < hi && b[u].frames != [] ensures Listed(k'.out, u) {
        if u < hi - 1 {
          StaysListed(k1.out, k'.out, u);
        }
      }
      hide Deliver;
    }
  }

  /** When the window moves over open MPDUs, all of them that have buffers are in the list, and nothing
      is freed. */
  lemma OpenMove(s: Session, e: int)
    requires forall u :: u in s.buf && s.start <= u < e ==> IsOpen(s.buf[u].cipher)
    ensures var k := MoveTo(s, e).sink;
      && Passes(s.sink, k)
      && forall u :: u in s.buf && s.start <= u < e && s.buf[u].frames != [] ==> Listed(k.out, u)
  {
    hide DeliverRange, Passes;
    OpenRange(s.buf, s.sink, s.start, e);
  }

  // ---------------------------------------------------------------------
  // Runs

  predicate AllOpen(b: Buffer) {
    forall u :: u in b ==> IsOpen(b[u].cipher)
  }

  /** Whatever was taken is buffered or in the list. */
  predicate Accounted(log: Log, b: Buffer, out: seq<Output>) {
    forall u :: u in log && log[u] != [] ==> u in b || Listed(out, u)
  }

  predicate OpenInv(log: Log, s: Session) {
    AllOpen(s.buf) && Accounted(log, s.buf, s.sink.out)
  }

  predicate OpenEvent(e: Event) {
    (e.Receive? ==> IsOpen(e.m.cipher)) && !e.DeleteSession?
  }

  lemma SameOpen(log: Log, s: Session, s': Session)
    requires OpenInv(log, s) && s'.buf == s.buf && s.sink.out <= s'.sink.out
    ensures OpenInv(log, s')
  {
    hide Listed;
    forall u | u in log && log[u] != [] ensures u in s'.buf || Listed(s'.sink.out, u) {
      if u !in s.buf {
        StaysListed(s.sink.out, s'.sink.out, u);
      }
    }
  }

  lemma MoveOpen(log: Log, s: Session, e: int)
    requires WindowInv(s) && ContentsInv(log, s) && OpenInv(log, s)
    ensures OpenInv(log, MoveTo(s, e)) && Passes(s.sink, MoveTo(s, e).sink)
  {
    hide Listed, DeliverRange;
    OpenMove(s, e);
    var s' := MoveTo(s, e);
    forall u | u in log && log[u] != [] ensures u in s'.buf || Listed(s'.sink.out, u) {
      if u !in s.buf {
        StaysListed(s.sink.out, s'.sink.out, u);
      }
    }
  }

  lemma InsertOpen(log: Log, s: Session, u: int, m: Msdu, skb: Option<Skb>)
    requires OpenInv(log, s) && IsOpen(m.cipher)
    ensures OpenInv(Logged(log, u, skb), Insert(s, u, m, skb))
  {
    hide Listed;
  }

  lemma MakeRoomOpen(log: Log, s: Session, u: int)
    requires WindowInv(s) && ContentsInv(log, s) && OpenInv(log, s)
    ensures OpenInv(log, MakeRoom(s, u)) && Passes(s.sink, MakeRoom(s, u).sink)
  {
    hide MoveTo, OpenInv, ContentsInv, WindowInv;
    MoveOpen(log, s, RunEnd(s.buf, u - s.size + 1, s.start + s.size));
  }

  lemma SettleOpen(log: Log, s: Session, before: int, u: int, last: bool)
    requires WindowInv(s) && ContentsInv(log, s) && OpenInv(log, s)
    ensures OpenInv(log, Settle(s, before, u, last)) && Passes(s.sink, Settle(s, before, u, last).sink)
  {
    hide MoveTo, OpenInv, ContentsInv, WindowInv;
    MoveOpen(log, s, RunEnd(s.buf, s.start, s.start + s.size));
    SameOpen(log, if last && u == s.start then Drain(s) else s, Settle(s, before, u, last));
  }

  /** Freed may grow, by a frame that was not taken. */
  predicate Proceeds(k: Sink, k': Sink) {
    k.out <= k'.out && k'.pn == k.pn
  }

  lemma InWindowOpen(log: Log, s: Session, m: Msdu, skb: Option<Skb>)
    requires SessionInv(s) && OrderInv(s) && ContentsInv(log, s) && OpenInv(log, s) && !s.deleted && s.active
    requires Geq(m.sn, s.start % MODULUS) && IsOpen(m.cipher) && Enabled(s, Receive(m, skb))
    ensures var u := Unwrap(s.start, m.sn);
      var taken := CanInsert(MakeRoom(s.(init := 0), u).buf, u, m);
      OpenInv(if taken then Logged(log, u, skb) else log, InWindow(s, m, skb))
    ensures Proceeds(s.sink, InWindow(s, m, skb).sink)
  {
    hide ContentsInv, MakeRoom, Insert, Settle, OrderInv, CanInsert, OpenInv, SessionInv, WindowInv;
    var u := Unwrap(s.start, m.sn);
    var s0 := s.(init := 0);
    var s1 := MakeRoom(s0, u);
    SessionWindow(s);
    Reinit(log, s);
    SameOpen(log, s, s0);
    MakeRoomContents(log, s0, u);
    MakeRoomOpen(log, s0, u);
    MakeRoomOrdered(s0, u);
    RoomKept(s, m, skb);
    MakeRoomFrame(s0, u);
    if CanInsert(s1.buf, u, m) {
      var s2 := Insert(s1, u, m, skb);
      InsertContents(log, s1, u, m, skb);
      InsertOpen(log, s1, u, m, skb);
      SameSink(s1, u, m, skb);
      SettleOpen(Logged(log, u, skb), s2, s.start, u, m.last);
    } else {
      SameOpen(log, s1, Reject(s1, skb));
    }
  }

  lemma SameSink(s: Session, u: int, m: Msdu, skb: Option<Skb>)
    ensures Insert(s, u, m, skb).sink == s.sink
  {
  }

  lemma RoomKept(s: Session, m: Msdu, skb: Option<Skb>)
    requires SessionInv(s) && Geq(m.sn, s.start % MODULUS) && Enabled(s, Receive(m, skb))
    ensures var u := Unwrap(s.start, m.sn);
      var s1 := MakeRoom(s.(init := 0), u);
      && WindowInv(s1) && s1.start <= u
      && (CanInsert(s1.buf, u, m) ==> WindowInv(Insert(s1, u, m, skb)))
  {
    var u := Unwrap(s.start, m.sn);
    MakeRoomKeepsWindow(s.(init := 0), u);
    InsertKeepsWindow(MakeRoom(s.(init := 0), u), u, m, skb);
    hide MakeRoom;
  }

  lemma FastPathOpen(log: Log, s: Session, m: Msdu, skb: Option<Skb>)
    requires OpenInv(log, s) && OnFastPath(s, m) && IsOpen(m.cipher)
    ensures OpenInv(Logged(log, s.start, skb), FastPath(s, m, skb)) && Passes(s.sink, FastPath(s, m, skb).sink)
  {
    hide Listed;
    var out := s.sink.out;
    DeliverOpen(s.sink, s.start, Single(m, skb));
    var out' := FastPath(s, m, skb).sink.out;
    forall u | u in log && log[u] != [] ensures Listed(out', u) {
      StaysListed(out, out', u);
    }
    if skb.Some? {
      LastListed(out, s.start, Single(m, skb));
    }
    hide Deliver;
  }

  lemma LastListed(out: seq<Output>, u: int, p: Mpdu)
    ensures Listed(out + [Released(u, p)], u)
  {
    assert (out + [Released(u, p)])[|out|] == Released(u, p);
  }

  lemma ReceiveOpen(log: Log, s: Session, m: Msdu, skb: Option<Skb>)
    requires SessionInv(s) && OrderInv(s) && ContentsInv(log, s) && OpenInv(log, s)
    requires Enabled(s, Receive(m, skb)) && IsOpen(m.cipher)
    ensures OpenInv(Record(log, s, Receive(m, skb)), Arrive(s, m, skb)) && Proceeds(s.sink, Arrive(s, m, skb).sink)
  {
    hide ContentsInv, MakeRoom, OrderInv, InWindow, FastPath, CanInsert, SessionInv, OpenInv;
    SessionWindow(s);
    if s.active && OnFastPath(s, m) {
      assert Unwrap(s.start, m.sn) == s.start;
      FastPathOpen(log, s, m, skb);
    } else if s.active && Geq(m.sn, s.start % MODULUS) {
      InWindowOpen(log, s, m, skb);
    } else {
      SameOpen(log, s, Arrive(s, m, skb));
    }
  }

  lemma TimeoutOpen(log: Log, s: Session)
    requires SessionInv(s) && ContentsInv(log, s) && OpenInv(log, s)
    ensures OpenInv(log, Timeout(s)) && Passes(s.sink, Timeout(s).sink)
  {
    hide ContentsInv, MoveTo, OpenInv, SessionInv, WindowInv;
    SessionWindow(s);
    var s0 := s.(due := false, init := 0);
    TimeoutStart(log, s);
    var e := RunEnd(s.buf, FirstComplete(s.buf, s.start, ScanEnd(s)), s.start + s.size);
    MoveOpen(log, s0, e);
    SameOpen(log, if s.active && s.buf != map[] && !s.armed then MoveTo(s0, e) else s, Timeout(s));
  }

  lemma TimeoutStart(log: Log, s: Session)
    requires WindowInv(s) && ContentsInv(log, s) && OpenInv(log, s)
    ensures var s0 := s.(due := false, init := 0); WindowInv(s0) && ContentsInv(log, s0) && OpenInv(log, s0)
  {
  }

  lemma StepOpen(log: Log, s: Session, e: Event)
    requires SessionInv(s) && OrderInv(s) && ContentsInv(log, s) && OpenInv(log, s) && Enabled(s, e) && OpenEvent(e)
    ensures OpenInv(Record(log, s, e), Step(s, e)) && Proceeds(s.sink, Step(s, e).sink)
  {
    hide ContentsInv, Arrive, Timeout, OrderInv, SessionInv, OpenInv;
    match e {
      case Receive(m, skb) => ReceiveOpen(log, s, m, skb);
      case TimerCallback => TimeoutOpen(log, s);
      case TimerExpires => SameOpen(log, s, Step(s, e));
      case ResetPnRequest => SameOpen(log, s, Step(s, e));
      case DeleteSession(_) =>
    }
  }

  predicate OpenRun(es: seq<Event>) {
    forall k :: 0 <= k < |es| ==> OpenEvent(es[k])
  }

  lemma {:induction false} RunOpen(log: Log, s: Session, es: seq<Event>)
    requires SessionInv(s) && OrderInv(s) && ContentsInv(log, s) && OpenInv(log, s) && EnabledRun(s, es) && OpenRun(es)
    ensures OpenInv(RunLog(log, s, es), Run(s, es)) && Run(s, es).sink.pn == s.sink.pn
    decreases |es|
  {
    hide Step, SessionInv, OrderInv, ContentsInv, Record, OpenInv;
    if es != [] {
      StepOpen(log, s, es[0]);
      StepContents(log, s, es[0]);
      StepKeepsInv(s, es[0]);
      StepOrdered(s, es[0]);
      RunOpen(Record(log, s, es[0]), Step(s, es[0]), es[1..]);
    }
  }

  /** Over every run without TKIP and CCMP, whatever was taken under a number that the window has passed
      is in the list, as exactly those buffers, and the replay counter never moves. */
  lemma OpenTheorem(start: Seq12, size: nat, es: seq<Event>, u: int)
    requires 1 <= size < HALF && EnabledRun(Fresh(start, size), es) && OpenRun(es)
    ensures var s, log := Run(Fresh(start, size), es), RunLog(map[], Fresh(start, size), es);
      && s.sink.pn == Pn(0, 0)
      && (At(log, u) != [] && u < s.start ==>
            exists i :: 0 <= i < |s.sink.out| && s.sink.out[i].Released? && s.sink.out[i].sn == u
                        && s.sink.out[i].mpdu.frames == At(log, u))
  {
    RunOpen(map[], Fresh(start, size), es);
    RunKeepsInv(Fresh(start, size), es);
    ContentsTheorem(start, size, es);
    var s, log := Run(Fresh(start, size), es), RunLog(map[], Fresh(start, size), es);
    hide Run, RunLog, EnabledRun;
    if At(log, u) != [] && u < s.start {
      var i :| 0 <= i < |s.sink.out| && s.sink.out[i].Released? && s.sink.out[i].sn == u;
      assert s.sink.out[i].mpdu.frames == At(log, s.sink.out[i].sn);
    }
  }
}

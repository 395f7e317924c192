/** What a released MPDU contains: all the frames the session took under its unbounded number, in the
    order they arrived, and no others. */
module BlockAckContents {
  import opened Common
  import opened Seqno
  import opened BlockAckSession
  import opened BlockAckTheorems
  import opened BlockAckOrder

  /** The frames taken so far, by unbounded sequence number. */
  type Log = map<int, seq<Skb>>

  function At(log: Log, u: int): seq<Skb> {
    if u in log then log[u] else []
  }

  function Logged(log: Log, u: int, skb: Option<Skb>): Log {
    log[u := At(log, u) + Frames(skb)]
  }

  /** The number under which the session takes a frame; a frame that is passed up directly or
      rejected has none. */
  function TakenUnder(s: Session, m: Msdu): Option<int> {
    if !s.active || !Geq(m.sn, s.start % MODULUS) then None
    else
      var u := Unwrap(s.start, m.sn);
      if OnFastPath(s, m) || CanInsert(MakeRoom(s.(init := 0), u).buf, u, m) then Some(u) else None
  }

  function Record(log: Log, s: Session, e: Event): Log {
    if e.Receive? && TakenUnder(s, e.m).Some? then Logged(log, TakenUnder(s, e.m).value, e.skb) else log
  }

  /** The log of a run. */
  function RunLog(log: Log, s: Session, es: seq<Event>): Log
    requires EnabledRun(s, es)
    decreases |es|
  {
    if es == [] then log else RunLog(Record(log, s, es[0]), Step(s, es[0]), es[1..])
  }

  /** A frame is only ever taken under a number of its own residue, at or ahead of win_start. */
  lemma TakenNumber(s: Session, m: Msdu)
    ensures var t := TakenUnder(s, m);
      t.Some? ==> t.value % MODULUS == m.sn && s.start <= t.value <= s.start + HALF
  {
    hide MakeRoom, CanInsert, Leq;
  }

  /** Buffered and released MPDUs hold exactly what was taken under their numbers. */
  predicate Explained(log: Log, b: Buffer, out: seq<Output>) {
    && (forall u :: u in b ==> b[u].frames == At(log, u))
    && (forall i :: 0 <= i < |out| && out[i].Released? ==> out[i].mpdu.frames == At(log, out[i].sn))
  }

  /** Whatever was taken at or ahead of `lo` is still buffered. */
  predicate Clear(log: Log, b: Buffer, lo: int) {
    forall u :: u in log && lo <= u && log[u] != [] ==> u in b
  }

  predicate ContentsInv(log: Log, s: Session) {
    Explained(log, s.buf, s.sink.out) && (s.deleted || Clear(log, s.buf, s.start))
  }

  lemma SameContents(log: Log, s: Session, s': Session)
    requires ContentsInv(log, s)
    requires s'.buf == s.buf && s'.start == s.start && s'.sink.out == s.sink.out && s'.deleted == s.deleted
    ensures ContentsInv(log, s')
  {
  }

  lemma DeliverContents(log: Log, b: Buffer, k: Sink, u: int, p: Mpdu)
    requires Explained(log, b, k.out) && p.frames == At(log, u)
    ensures Explained(log, b, Deliver(k, u, p).out)
  {
  }

  lemma {:induction false} DeliverRangeContents(log: Log, b: Buffer, k: Sink, lo: int, hi: int)
    requires Explained(log, b, k.out)
    ensures Explained(log, b, DeliverRange(b, k, lo, hi).out)
    decreases hi - lo
  {
    if lo < hi {
      DeliverRangeContents(log, b, k, lo, hi - 1);
      if hi - 1 in b {
        DeliverContents(log, b, DeliverRange(b, k, lo, hi - 1), hi - 1, b[hi - 1]);
      }
    }
    hide Deliver;
  }

  lemma MoveToContents(log: Log, s: Session, e: int)
    requires ContentsInv(log, s) && s.start <= e
    ensures ContentsInv(log, MoveTo(s, e))
  {
    hide DeliverRange;
    DeliverRangeContents(log, s.buf, s.sink, s.start, e);
  }

  /** Taking a frame in the window is entering it in the log; what was released lies below. */
  lemma InsertContents(log: Log, s: Session, u: int, m: Msdu, skb: Option<Skb>)
    requires ContentsInv(log, s) && OrderInv(s) && s.start <= u && !s.deleted
    ensures ContentsInv(Logged(log, u, skb), Insert(s, u, m, skb))
  {
    var log' := Logged(log, u, skb);
    assert u !in s.buf ==> At(log, u) == [];
    assert u !in s.buf ==> At(log', u) == Frames(skb);
    assert forall v :: v != u ==> At(log', v) == At(log, v);
  }

  lemma MakeRoomContents(log: Log, s: Session, u: int)
    requires WindowInv(s) && ContentsInv(log, s) && s.start <= u
    ensures ContentsInv(log, MakeRoom(s, u))
  {
    hide MoveTo, Explained, Clear;
    if s.start + s.size <= u {
      MoveToContents(log, s, RunEnd(s.buf, u - s.size + 1, s.start + s.size));
    }
  }

  lemma SettleContents(log: Log, s: Session, before: int, u: int, last: bool)
    requires ContentsInv(log, s)
    ensures ContentsInv(log, Settle(s, before, u, last))
  {
    hide ContentsInv, MoveTo;
    MoveToContents(log, s, RunEnd(s.buf, s.start, s.start + s.size));
    SameContents(log, if last && u == s.start then Drain(s) else s, Settle(s, before, u, last));
  }

  lemma InWindowContents(log: Log, s: Session, m: Msdu, skb: Option<Skb>)
    requires WindowInv(s) && OrderInv(s) && ContentsInv(log, s) && !s.deleted && Geq(m.sn, s.start % MODULUS)
    ensures var u := Unwrap(s.start, m.sn);
      var taken := CanInsert(MakeRoom(s.(init := 0), u).buf, u, m);
      ContentsInv(if taken then Logged(log, u, skb) else log, InWindow(s, m, skb))
  {
    hide ContentsInv, MakeRoom, Insert, Settle, OrderInv, CanInsert, WindowInv;
    var u := Unwrap(s.start, m.sn);
    var s0 := s.(init := 0);
    var s1 := MakeRoom(s0, u);
    Reinit(log, s);
    MakeRoomContents(log, s0, u);
    MakeRoomOrdered(s0, u);
    MakeRoomKeepsWindow(s0, u);
    MakeRoomFrame(s0, u);
    if CanInsert(s1.buf, u, m) {
      InsertContents(log, s1, u, m, skb);
      SettleContents(Logged(log, u, skb), Insert(s1, u, m, skb), s.start, u, m.last);
    } else {
      SameContents(log, s1, Reject(s1, skb));
    }
  }

  lemma Reinit(log: Log, s: Session)
    requires WindowInv(s) && OrderInv(s) && ContentsInv(log, s)
    ensures var s0 := s.(init := 0); WindowInv(s0) && OrderInv(s0) && ContentsInv(log, s0)
  {
  }

  lemma FastPathContents(log: Log, s: Session, m: Msdu, skb: Option<Skb>)
    requires OrderInv(s) && ContentsInv(log, s) && OnFastPath(s, m) && !s.deleted
    ensures ContentsInv(Logged(log, s.start, skb), FastPath(s, m, skb))
  {
    var log' := Logged(log, s.start, skb);
    assert At(log, s.start) == [] && At(log', s.start) == Frames(skb);
    assert forall v :: v != s.start ==> At(log', v) == At(log, v);
    DeliverContents(log', s.buf, s.sink, s.start, Single(m, skb));
    hide Deliver;
  }

  lemma ReceiveContents(log: Log, s: Session, m: Msdu, skb: Option<Skb>)
    requires SessionInv(s) && OrderInv(s) && ContentsInv(log, s) && Enabled(s, Receive(m, skb))
    ensures ContentsInv(Record(log, s, Receive(m, skb)), Arrive(s, m, skb))
  {
    hide ContentsInv, MakeRoom, OrderInv, InWindow, FastPath, CanInsert, SessionInv;
    SessionWindow(s);
    if s.active && OnFastPath(s, m) {
      assert Unwrap(s.start, m.sn) == s.start;
      FastPathContents(log, s, m, skb);
    } else if s.active && Geq(m.sn, s.start % MODULUS) {
      InWindowContents(log, s, m, skb);
    } else {
      PassedContents(log, s, m, skb);
    }
  }

  lemma SessionWindow(s: Session)
    requires SessionInv(s)
    ensures WindowInv(s)
  {
  }

  lemma PassedContents(log: Log, s: Session, m: Msdu, skb: Option<Skb>)
    requires ContentsInv(log, s) && Enabled(s, Receive(m, skb)) && !(s.active && Geq(m.sn, s.start % MODULUS))
    ensures ContentsInv(log, Arrive(s, m, skb))
  {
    hide InWindow;
  }

  lemma TimeoutContents(log: Log, s: Session)
    requires ContentsInv(log, s)
    ensures ContentsInv(log, Timeout(s))
  {
    hide ContentsInv, MoveTo;
    var s0 := s.(due := false, init := 0);
    SameContents(log, s, s0);
    var e := RunEnd(s.buf, FirstComplete(s.buf, s.start, ScanEnd(s)), s.start + s.size);
    MoveToContents(log, s0, e);
    SameContents(log, if s.active && s.buf != map[] && !s.armed then MoveTo(s0, e) else s, Timeout(s));
  }

  lemma DeleteContents(log: Log, s: Session, drain: bool)
    requires ContentsInv(log, s)
    ensures ContentsInv(log, Delete(s, drain))
  {
    hide DeliverRange, HeldIn;
    DeliverRangeContents(log, s.buf, s.sink, s.start, RunEnd(s.buf, s.start, s.start + s.size));
  }

  lemma StepContents(log: Log, s: Session, e: Event)
    requires SessionInv(s) && OrderInv(s) && ContentsInv(log, s) && Enabled(s, e)
    ensures ContentsInv(Record(log, s, e), Step(s, e))
  {
    hide ContentsInv, Arrive, Timeout, Delete, OrderInv, SessionInv;
    match e {
      case Receive(m, skb) => ReceiveContents(log, s, m, skb);
      case TimerCallback => TimeoutContents(log, s);
      case DeleteSession(drain) => DeleteContents(log, s, drain);
      case _ => SameContents(log, s, Step(s, e));
    }
  }

  lemma {:induction false} RunContents(log: Log, s: Session, es: seq<Event>)
    requires SessionInv(s) && OrderInv(s) && ContentsInv(log, s) && EnabledRun(s, es)
    ensures ContentsInv(RunLog(log, s, es), Run(s, es))
    decreases |es|
  {
    hide Step, SessionInv, OrderInv, ContentsInv, Record;
    if es != [] {
      StepContents(log, s, es[0]);
      StepKeepsInv(s, es[0]);
      StepOrdered(s, es[0]);
      RunContents(Record(log, s, es[0]), Step(s, es[0]), es[1..]);
    }
  }

  /** Over every run, the frames of each released MPDU and of each buffered one are exactly those
      taken under its unbounded number, in arrival order: none is lost, none comes from another turn
      of the 12-bit counter, and none follows after the release. */
  lemma ContentsTheorem(start: Seq12, size: nat, es: seq<Event>)
    requires 1 <= size < HALF && EnabledRun(Fresh(start, size), es)
    ensures var s, log := Run(Fresh(start, size), es), RunLog(map[], Fresh(start, size), es);
      && (forall i :: 0 <= i < |s.sink.out| && s.sink.out[i].Released?
            ==> s.sink.out[i].mpdu.frames == At(log, s.sink.out[i].sn))
      && (forall u :: u in s.buf ==> s.buf[u].frames == At(log, u))
  {
    RunContents(map[], Fresh(start, size), es);
    hide Run, RunLog;
  }
}

/** What every run of a block-ack session keeps. */
module BlockAckTheorems {
  import opened Common
  import opened Seqno
  import opened BlockAckSession

  // ---------------------------------------------------------------------
  // The window

  predicate WindowInv(s: Session) {
    && 1 <= s.size < HALF
    && 0 <= s.start
    && (forall u :: u in s.buf ==> s.start <= u < s.start + s.size && 1 <= s.buf[u].count <= 0xffff)
  }

  /** Nothing deliverable is kept waiting: the head of the window is never a complete MPDU. */
  predicate HeadOfLine(s: Session) {
    !Complete(s.buf, s.start)
  }

  /** An active session with buffered frames has a loss timer pending or a callback on its way,
      and an empty buffer has neither a pending timer nor counted timeouts. */
  predicate TimerInv(s: Session) {
    && (s.active && s.buf != map[] ==> s.armed || s.due)
    && (s.buf == map[] ==> !s.armed && s.timeouts == 0)
    && (!s.active ==> s.timeouts == 0)
    && s.timeouts <= MAX_TIMEOUT_CNT
  }

  predicate SessionInv(s: Session) {
    WindowInv(s) && HeadOfLine(s) && TimerInv(s)
  }

  lemma MoveToKeepsWindow(s: Session, e: int)
    requires WindowInv(s) && s.start <= e
    ensures WindowInv(MoveTo(s, e))
  {
  }

  lemma AdvanceKeepsWindow(s: Session, to: int)
    requires WindowInv(s) && s.start <= to
    ensures WindowInv(Advance(s, to)) && HeadOfLine(Advance(s, to))
    ensures to <= Advance(s, to).start
    ensures Advance(s, to).start <= to || Advance(s, to).start <= s.start + s.size
  {
    var e := RunEnd(s.buf, to, s.start + s.size);
    MoveToKeepsWindow(s, e);
  }

  lemma MakeRoomKeepsWindow(s: Session, u: int)
    requires WindowInv(s) && s.start <= u
    ensures var s' := MakeRoom(s, u);
      && WindowInv(s') && s'.start <= u < s'.start + s'.size && s.start <= s'.start
      && (HeadOfLine(s) ==> HeadOfLine(s'))
      && (s.start + s.size <= u ==> u !in s'.buf)
      && (s.start + s.size > u ==> s' == s)
  {
    if s.start + s.size <= u {
      AdvanceKeepsWindow(s, u - s.size + 1);
    }
  }

  lemma SettleKeepsInv(s: Session, before: int, u: int, last: bool)
    requires WindowInv(s) && s.active && s.timeouts <= MAX_TIMEOUT_CNT
    requires u in s.buf && s.buf[u].last == last
    requires Complete(s.buf, s.start) ==> u == s.start
    ensures SessionInv(Settle(s, before, u, last))
  {
    AdvanceKeepsWindow(s, s.start);
  }

  lemma InsertKeepsWindow(s: Session, u: int, m: Msdu, skb: Option<Skb>)
    requires WindowInv(s) && HeadOfLine(s) && s.start <= u < s.start + s.size
    requires u in s.buf ==> s.buf[u].count < 0xffff
    ensures var s' := Insert(s, u, m, skb);
      WindowInv(s') && u in s'.buf && s'.buf[u].last == m.last && (Complete(s'.buf, s'.start) ==> u == s'.start)
  {
  }

  lemma InWindowKeepsInv(s: Session, m: Msdu, skb: Option<Skb>)
    requires SessionInv(s) && s.active && Enabled(s, Receive(m, skb)) && Geq(m.sn, s.start % MODULUS)
    ensures SessionInv(InWindow(s, m, skb))
  {
    var u := Unwrap(s.start, m.sn);
    var s0 := s.(init := 0);
    var s1 := MakeRoom(s0, u);
    MakeRoomKeepsWindow(s0, u);
    if CanInsert(s1.buf, u, m) {
      InsertKeepsWindow(s1, u, m, skb);
      SettleKeepsInv(Insert(s1, u, m, skb), s.start, u, m.last);
    }
  }

  lemma TimeoutKeepsInv(s: Session)
    requires SessionInv(s)
    ensures SessionInv(Timeout(s))
  {
    var pos := FirstComplete(s.buf, s.start, ScanEnd(s));
    AdvanceKeepsWindow(s.(due := false, init := 0), pos);
  }

  /** Neither the window size nor the record of deletion changes. */
  predicate SameFrame(s: Session, s': Session) {
    s'.size == s.size && s'.leaked == s.leaked && s'.deleted == s.deleted && s'.active == s.active
  }

  lemma SettleFrame(s: Session, before: int, u: int, last: bool)
    ensures SameFrame(s, Settle(s, before, u, last)) && Settle(s, before, u, last).init == s.init
  {
    hide DeliverRange, CutBelow;
  }

  lemma MakeRoomFrame(s: Session, u: int)
    ensures SameFrame(s, MakeRoom(s, u)) && MakeRoom(s, u).init == s.init
  {
    hide DeliverRange, CutBelow;
  }

  lemma InWindowFrame(s: Session, m: Msdu, skb: Option<Skb>)
    ensures SameFrame(s, InWindow(s, m, skb)) && InWindow(s, m, skb).init == 0
  {
    hide MakeRoom, Settle, Inserted;
    var u := Unwrap(s.start, m.sn);
    var s1 := MakeRoom(s.(init := 0), u);
    MakeRoomFrame(s.(init := 0), u);
    SettleFrame(Insert(s1, u, m, skb), s.start, u, m.last);
  }

  lemma ReceiveFrame(s: Session, m: Msdu, skb: Option<Skb>)
    requires Enabled(s, Receive(m, skb))
    ensures SameFrame(s, Arrive(s, m, skb))
  {
    hide InWindow, Deliver;
    InWindowFrame(s, m, skb);
  }

  lemma ReceiveKeepsInv(s: Session, m: Msdu, skb: Option<Skb>)
    requires SessionInv(s) && Enabled(s, Receive(m, skb))
    ensures SessionInv(Arrive(s, m, skb))
  {
    if s.active && !OnFastPath(s, m) && Geq(m.sn, s.start % MODULUS) {
      InWindowKeepsInv(s, m, skb);
      hide SessionInv, InWindow;
    } else {
      hide Deliver, InWindow;
    }
  }

  lemma DeleteKeepsInv(s: Session, drain: bool)
    requires SessionInv(s)
    ensures SessionInv(Delete(s, drain))
  {
    hide DeliverRange, HeldIn;
    AdvanceKeepsWindow(s.(armed := false, due := false, deleted := true), s.start);
  }

  lemma StepKeepsInv(s: Session, e: Event)
    requires SessionInv(s) && Enabled(s, e)
    ensures SessionInv(Step(s, e)) && Step(s, e).size == s.size
  {
    hide Arrive;
    match e {
      case Receive(m, skb) =>
        ReceiveKeepsInv(s, m, skb);
        ReceiveFrame(s, m, skb);
      case TimerCallback => TimeoutKeepsInv(s);
      case DeleteSession(drain) => DeleteKeepsInv(s, drain);
      case _ =>
    }
  }

  /** The session is not deleted in the run. */
  predicate Kept(es: seq<Event>) {
    forall k :: 0 <= k < |es| ==> !es[k].DeleteSession?
  }

  lemma {:induction false} RunKeepsInv(s: Session, es: seq<Event>)
    requires SessionInv(s) && EnabledRun(s, es)
    ensures SessionInv(Run(s, es)) && Run(s, es).size == s.size
    decreases |es|
  {
    if es != [] {
      StepKeepsInv(s, es[0]);
      RunKeepsInv(Step(s, es[0]), es[1..]);
    }
  }

  /** Over every run the buffered MPDUs lie inside the window, there are at most `win_size`
      of them, the head is never deliverable, and a loaded active session is being timed. */
  lemma WindowTheorem(start: Seq12, size: nat, es: seq<Event>)
    requires 1 <= size < HALF && EnabledRun(Fresh(start, size), es)
    ensures SessionInv(Run(Fresh(start, size), es))
    ensures |Run(Fresh(start, size), es).buf| <= size
  {
    RunKeepsInv(Fresh(start, size), es);
    SizeBound(Run(Fresh(start, size), es));
  }

  lemma {:induction false} KeysBound(keys: set<int>, lo: int, hi: int)
    requires lo <= hi && forall u :: u in keys ==> lo <= u < hi
    ensures |keys| <= hi - lo
    decreases hi - lo
  {
    if lo == hi {
      assert keys == {};
    } else {
      KeysBound(keys - {hi - 1}, lo, hi - 1);
    }
  }

  lemma SizeBound(s: Session)
    requires WindowInv(s)
    ensures |s.buf| <= s.size
  {
    KeysBound(s.buf.Keys, s.start, s.start + s.size);
  }
}

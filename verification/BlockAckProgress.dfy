/** Progress: when the loss timer recovers from a gap and when the fast path may replace the general
    one. Each holds under a condition on the state or the frame, given here exactly; BlockAckStall
    has the inputs that show it is needed. */
module BlockAckProgress {
  import opened Common
  import opened Seqno
  import opened BlockAckSession
  import opened BlockAckTheorems

  /** The highest number the driver believes to be buffered. */
  function TailNumber(s: Session): int {
    s.start + Sub(s.tail, s.start)
  }

  /** win_tail names the last buffered MPDU, or the number before an empty window. */
  predicate TailOk(s: Session) {
    if s.buf == map[] then s.tail == Sub(s.start, 1)
    else TailNumber(s) in s.buf && forall u :: u in s.buf ==> u <= TailNumber(s)
  }

  lemma TailOkMeans(s: Session, t: int)
    requires WindowInv(s) && s.tail == t % MODULUS
    requires if s.buf == map[] then t == s.start - 1 else t in s.buf && forall u :: u in s.buf ==> u <= t
    ensures TailOk(s)
  {
    if s.buf != map[] {
      ResidueInjective(TailNumber(s), t);
    }
  }

  /** The number TailOk speaks of. */
  function LastBuffered(s: Session): (t: int)
    requires WindowInv(s) && TailOk(s)
    ensures t % MODULUS == s.tail && s.start - 1 <= t < s.start + s.size
    ensures if s.buf == map[] then t == s.start - 1 else t in s.buf && forall u :: u in s.buf ==> u <= t
  {
    if s.buf == map[] then s.start - 1 else TailNumber(s)
  }

  /** Moving the window keeps the tail when it empties the buffer just past it. */
  lemma MoveToTail(s: Session, e: int)
    requires WindowInv(s) && TailOk(s) && s.start <= e <= LastBuffered(s) + 1
    ensures TailOk(MoveTo(s, e))
  {
    hide DeliverRange;
    var t := LastBuffered(s);
    MoveToKeepsWindow(s, e);
    var s' := MoveTo(s, e);
    if e <= t {
      assert t in s'.buf;
    }
    TailOkMeans(s', t);
  }

  lemma RunEndStopsAtTail(s: Session, from: int)
    requires WindowInv(s) && TailOk(s) && s.start <= from <= LastBuffered(s) + 1
    ensures RunEnd(s.buf, from, s.start + s.size) <= LastBuffered(s) + 1
  {
    var t, e := LastBuffered(s), RunEnd(s.buf, from, s.start + s.size);
    assert !Complete(s.buf, t + 1);
  }

  lemma DrainTail(s: Session)
    requires WindowInv(s) && TailOk(s)
    ensures TailOk(Drain(s))
  {
    RunEndStopsAtTail(s, s.start);
    MoveToTail(s, RunEnd(s.buf, s.start, s.start + s.size));
  }

  lemma InsertTail(s: Session, u: int, m: Msdu, skb: Option<Skb>)
    requires WindowInv(s) && HeadOfLine(s) && TailOk(s) && s.start <= u < s.start + s.size && u % MODULUS == m.sn
    requires u in s.buf ==> s.buf[u].count < 0xffff
    ensures TailOk(Insert(s, u, m, skb))
  {
    var t := LastBuffered(s);
    LeqIsOrder(t, u);
    InsertKeepsWindow(s, u, m, skb);
    TailOkMeans(Insert(s, u, m, skb), if t <= u then u else t);
  }

  lemma SettleTail(s: Session, before: int, u: int, last: bool)
    requires WindowInv(s) && TailOk(s)
    ensures TailOk(Settle(s, before, u, last))
  {
    hide MoveTo;
    DrainTail(s);
  }

  /** A frame that opens a new window is the last one buffered: the tail is right afterwards
      exactly when the driver's comparison saw the frame ahead of the old tail. */
  lemma JumpTail(s: Session, u: int, m: Msdu, skb: Option<Skb>)
    requires WindowInv(s) && TailOk(s) && s.start + s.size <= u <= s.start + HALF && u % MODULUS == m.sn
    ensures var s' := Insert(MakeRoom(s, u), u, m, skb); TailOk(s') <==> Geq(m.sn, s.tail)
  {
    var t := LastBuffered(s);
    MakeRoomKeepsWindow(s, u);
    var s1 := MakeRoom(s, u);
    assert s1.tail == s.tail && forall v :: v in s1.buf ==> v < u by {
      hide DeliverRange;
    }
    hide MakeRoom;
    assert m.sn != s.tail by {
      if m.sn == s.tail {
        ResidueInjective(u, t);
      }
    }
    NewestTail(s1, u, m, skb);
  }

  lemma NewestTail(s: Session, u: int, m: Msdu, skb: Option<Skb>)
    requires WindowInv(s) && s.start <= u < s.start + s.size && u % MODULUS == m.sn
    requires m.sn != s.tail && forall v :: v in s.buf ==> v < u
    ensures TailOk(Insert(s, u, m, skb)) <==> Geq(m.sn, s.tail)
  {
    var s' := Insert(s, u, m, skb);
    assert u in s'.buf && forall v :: v in s'.buf ==> v <= u;
    ResidueInjective(u, s'.start + Sub(m.sn, s'.start));
    assert TailOk(s') <==> TailNumber(s') == u;
  }

  /** The largest forward jump after which the tail is certain to be right. */
  const SAFE_JUMP := 2046

  predicate SmallJump(s: Session, e: Event) {
    e.Receive? ==> Unwrap(s.start, e.m.sn) - s.start <= SAFE_JUMP
  }

  lemma SmallJumpSeesTail(s: Session, m: Msdu)
    requires WindowInv(s) && TailOk(s) && s.start <= Unwrap(s.start, m.sn) <= s.start + SAFE_JUMP
    ensures Geq(m.sn, s.tail) <==> LastBuffered(s) <= Unwrap(s.start, m.sn)
  {
    LeqIsOrder(LastBuffered(s), Unwrap(s.start, m.sn));
  }

  lemma InWindowTail(s: Session, m: Msdu, skb: Option<Skb>)
    requires SessionInv(s) && TailOk(s) && s.active && Enabled(s, Receive(m, skb))
    requires s.start <= Unwrap(s.start, m.sn)
    requires Unwrap(s.start, m.sn) < s.start + s.size || Geq(m.sn, s.tail)
    ensures TailOk(InWindow(s, m, skb))
  {
    hide TailOk, Settle;
    var u := Unwrap(s.start, m.sn);
    var s0 := s.(init := 0);
    var s1 := MakeRoom(s0, u);
    SameTail(s, s0);
    MakeRoomKeepsWindow(s0, u);
    if s.start + s.size <= u {
      JumpTail(s0, u, m, skb);
      InsertKeepsWindow(s1, u, m, skb);
      SettleTail(Insert(s1, u, m, skb), s.start, u, m.last);
    } else if CanInsert(s1.buf, u, m) {
      InsertTail(s1, u, m, skb);
      InsertKeepsWindow(s1, u, m, skb);
      SettleTail(Insert(s1, u, m, skb), s.start, u, m.last);
    } else {
      SameTail(s1, Reject(s1, skb));
    }
  }

  lemma SameTail(s: Session, s': Session)
    requires s'.buf == s.buf && s'.start == s.start && s'.tail == s.tail
    ensures TailOk(s) ==> TailOk(s')
  {
  }

  /** A frame beyond the window that the driver's comparison sees behind the old tail. */
  predicate UnseenJump(s: Session, e: Event) {
    e.Receive? && s.active && s.start + s.size <= Unwrap(s.start, e.m.sn) && !Geq(e.m.sn, s.tail)
  }

  /** Draining does not repair a tail that missed the newest MPDU. */
  lemma SettleKeepsWrong(s: Session, before: int, u: int, last: bool)
    requires WindowInv(s) && !TailOk(s) && u in s.buf && s.tail != u % MODULUS && s.buf[u].last == last
    requires forall v :: v in s.buf ==> v <= u
    ensures !TailOk(Settle(s, before, u, last))
  {
    if last && u == s.start {
      hide DeliverRange;
      assert forall v :: v in s.buf ==> v == u;
      assert RunEnd(s.buf, u + 1, u + s.size) == u + 1;
      assert RunEnd(s.buf, s.start, s.start + s.size) == u + 1;
      assert CutBelow(s.buf, u + 1) == map[];
    }
  }

  lemma UnseenSpoils(s: Session, m: Msdu, skb: Option<Skb>)
    requires SessionInv(s) && TailOk(s) && Enabled(s, Receive(m, skb)) && UnseenJump(s, Receive(m, skb))
    ensures !TailOk(InWindow(s, m, skb))
  {
    hide TailOk, Settle, SessionInv, Unwrap, Leq;
    InvWindow(s);
    var u := Unwrap(s.start, m.sn);
    var s0 := s.(init := 0);
    SameTail(s, s0);
    MakeRoomKeepsWindow(s0, u);
    JumpTail(s0, u, m, skb);
    var s1 := MakeRoom(s0, u);
    MakeRoomTail(s0, u);
    InsertedNewest(s1, u, m, skb);
    SettleKeepsWrong(Insert(s1, u, m, skb), s.start, u, m.last);
    hide MakeRoom, Insert, WindowInv;
  }

  lemma InvWindow(s: Session)
    requires SessionInv(s)
    ensures WindowInv(s) && HeadOfLine(s)
  {
  }

  lemma MakeRoomTail(s: Session, u: int)
    requires WindowInv(s) && s.start + s.size <= u
    ensures MakeRoom(s, u).tail == s.tail && forall v :: v in MakeRoom(s, u).buf ==> v < u
  {
    hide DeliverRange;
  }

  lemma InsertedNewest(s: Session, u: int, m: Msdu, skb: Option<Skb>)
    requires WindowInv(s) && s.start <= u < s.start + s.size && u % MODULUS == m.sn && !Geq(m.sn, s.tail)
    requires forall v :: v in s.buf ==> v < u
    ensures var s' := Insert(s, u, m, skb);
      && WindowInv(s') && u in s'.buf && s'.tail != u % MODULUS && s'.buf[u].last == m.last
      && (forall v :: v in s'.buf ==> v <= u)
  {
    hide Unwrap;
  }

  lemma ReceiveTail(s: Session, m: Msdu, skb: Option<Skb>)
    requires SessionInv(s) && TailOk(s) && Enabled(s, Receive(m, skb))
    ensures TailOk(Arrive(s, m, skb)) <==> !UnseenJump(s, Receive(m, skb))
  {
    if s.active && OnFastPath(s, m) {
      hide Deliver;
    } else if s.active && Geq(m.sn, s.start % MODULUS) {
      if UnseenJump(s, Receive(m, skb)) {
        UnseenSpoils(s, m, skb);
      } else {
        InWindowTail(s, m, skb);
      }
      hide InWindow, TailOk;
    } else {
      hide TailOk, InWindow;
      SameTail(s, Arrive(s, m, skb));
    }
  }

  lemma TimeoutTail(s: Session)
    requires SessionInv(s) && TailOk(s)
    ensures TailOk(Timeout(s))
  {
    hide MoveTo, TailOk;
    var s0 := s.(due := false, init := 0);
    SameTail(s, s0);
    if s.active && s.buf != map[] && !s.armed {
      ScanEndIsTail(s0);
      var pos := FirstComplete(s.buf, s.start, ScanEnd(s0));
      var e := RunEnd(s.buf, pos, s.start + s.size);
      RunEndStopsAtTail(s0, pos);
      MoveToTail(s0, e);
      SameTail(MoveTo(s0, e), Timeout(s));
    } else {
      SameTail(s, Timeout(s));
    }
  }

  lemma ScanEndIsTail(s: Session)
    requires WindowInv(s) && TailOk(s) && s.buf != map[]
    ensures ScanEnd(s) == LastBuffered(s) + 1
  {
    LeqIsOrder(s.start, LastBuffered(s));
    ResidueInjective(ScanEnd(s) - 1, LastBuffered(s));
  }

  /** A step keeps the tail right exactly when it is not an unseen jump. */
  lemma StepTailExactly(s: Session, e: Event)
    requires SessionInv(s) && TailOk(s) && Enabled(s, e) && !e.DeleteSession?
    ensures TailOk(Step(s, e)) <==> !UnseenJump(s, e)
    ensures !Step(s, e).deleted
  {
    hide Arrive, Timeout, TailOk;
    match e {
      case Receive(m, skb) =>
        ReceiveTail(s, m, skb);
        ReceiveFrame(s, m, skb);
      case TimerCallback =>
        TimeoutTail(s);
        TimeoutFrame(s);
      case TimerExpires => SameTail(s, Step(s, e));
      case ResetPnRequest => SameTail(s, Step(s, e));
      case DeleteSession(_) =>
    }
  }

  predicate NoUnseenJump(s: Session, es: seq<Event>)
    requires EnabledRun(s, es)
    decreases |es|
  {
    es == [] || (!UnseenJump(s, es[0]) && NoUnseenJump(Step(s, es[0]), es[1..]))
  }

  predicate AlwaysTailOk(s: Session, es: seq<Event>)
    requires EnabledRun(s, es)
    decreases |es|
  {
    TailOk(s) && (es == [] || AlwaysTailOk(Step(s, es[0]), es[1..]))
  }

  /** Over every run short of deletion the tail is right throughout if and only if no frame beyond
      the window is seen behind the old tail. */
  lemma {:induction false} TailRunExactly(s: Session, es: seq<Event>)
    requires SessionInv(s) && TailOk(s) && EnabledRun(s, es) && Kept(es)
    ensures AlwaysTailOk(s, es) <==> NoUnseenJump(s, es)
    decreases |es|
  {
    if es != [] {
      StepTailExactly(s, es[0]);
      StepKeepsInv(s, es[0]);
      if TailOk(Step(s, es[0])) {
        TailRunExactly(Step(s, es[0]), es[1..]);
      } else {
        assert !AlwaysTailOk(Step(s, es[0]), es[1..]);
      }
    }
    hide Step, TailOk, SessionInv, UnseenJump;
  }

  lemma StepTail(s: Session, e: Event)
    requires SessionInv(s) && TailOk(s) && Enabled(s, e) && SmallJump(s, e) && !e.DeleteSession?
    ensures TailOk(Step(s, e)) && !Step(s, e).deleted
  {
    hide Step, TailOk;
    StepTailExactly(s, e);
    SmallIsSeen(s, e);
  }

  lemma SmallIsSeen(s: Session, e: Event)
    requires SessionInv(s) && TailOk(s) && SmallJump(s, e)
    ensures !UnseenJump(s, e)
  {
    if e.Receive? && s.start <= Unwrap(s.start, e.m.sn) {
      SmallJumpSeesTail(s, e.m);
    }
    hide Unwrap, Leq;
  }

  predicate SmallJumps(s: Session, es: seq<Event>)
    requires EnabledRun(s, es)
    decreases |es|
  {
    es == [] || (SmallJump(s, es[0]) && !es[0].DeleteSession? && SmallJumps(Step(s, es[0]), es[1..]))
  }

  /** The tail is right at the end of every such run. */
  lemma {:induction false} SeenTail(s: Session, es: seq<Event>)
    requires SessionInv(s) && TailOk(s) && !s.deleted && EnabledRun(s, es) && Kept(es) && NoUnseenJump(s, es)
    ensures TailOk(Run(s, es)) && !Run(s, es).deleted
    decreases |es|
  {
    if es != [] {
      StepTailExactly(s, es[0]);
      StepKeepsInv(s, es[0]);
      SeenTail(Step(s, es[0]), es[1..]);
    }
    hide Step, TailOk, SessionInv, UnseenJump;
  }

  /** While no frame jumps further than 2046 ahead, no jump goes unseen. */
  lemma {:induction false} SmallJumpsSeen(s: Session, es: seq<Event>)
    requires SessionInv(s) && TailOk(s) && EnabledRun(s, es) && SmallJumps(s, es)
    ensures Kept(es) && NoUnseenJump(s, es)
    decreases |es|
  {
    hide Step, TailOk, SessionInv, UnseenJump;
    if es != [] {
      SmallIsSeen(s, es[0]);
      StepTail(s, es[0]);
      StepKeepsInv(s, es[0]);
      SmallJumpsSeen(Step(s, es[0]), es[1..]);
      assert forall k :: 0 < k < |es| ==> es[k] == es[1..][k - 1];
    }
  }

  /** So the tail stays right over every run of such jumps. */
  lemma RunTail(s: Session, es: seq<Event>)
    requires SessionInv(s) && TailOk(s) && !s.deleted && EnabledRun(s, es) && SmallJumps(s, es)
    ensures TailOk(Run(s, es)) && !Run(s, es).deleted
  {
    hide Run, EnabledRun, TailOk, SessionInv, SmallJumps, NoUnseenJump;
    SmallJumpsSeen(s, es);
    SeenTail(s, es);
  }

  // ---------------------------------------------------------------------
  // Loss timeouts

  lemma FewerKeys(b: Buffer, c: Buffer, k: int)
    requires c.Keys <= b.Keys && k in b && k !in c
    ensures |c| < |b|
  {
    assert c.Keys < b.Keys;
    var rest := b.Keys - c.Keys;
    assert b.Keys == c.Keys + rest && k in rest;
  }

  /** An effective timeout releases something exactly when something is buffered below the end
      of its scan, or a complete MPDU sits at that end. */
  lemma TimeoutProgressExactly(s: Session)
    requires SessionInv(s) && s.active && s.buf != map[] && !s.armed
    ensures (exists u :: u in s.buf && (u < ScanEnd(s) || (u == ScanEnd(s) && Complete(s.buf, u))))
            <==> |Timeout(s).buf| < |s.buf|
  {
    hide DeliverRange;
    var pos := FirstComplete(s.buf, s.start, ScanEnd(s));
    var e := RunEnd(s.buf, pos, s.start + s.size);
    var c := Timeout(s).buf;
    assert c == CutBelow(s.buf, e);
    if u :| u in s.buf && (u < ScanEnd(s) || (u == ScanEnd(s) && Complete(s.buf, u))) {
      var k := if pos < ScanEnd(s) then pos else u;
      assert k in s.buf && k < e;
      FewerKeys(s.buf, c, k);
    } else {
      assert forall u :: u in s.buf ==> ScanEnd(s) <= u;
      assert e == ScanEnd(s);
      assert c == s.buf;
    }
  }

  /** With a right tail every effective timeout lowers the number of buffered MPDUs. */
  lemma TimeoutLowersCount(s: Session)
    requires SessionInv(s) && TailOk(s) && s.active && s.buf != map[] && !s.armed
    ensures |Timeout(s).buf| < |s.buf|
  {
    ScanEndIsTail(s);
    assert LastBuffered(s) in s.buf && LastBuffered(s) < ScanEnd(s);
    TimeoutProgressExactly(s);
  }

  /** The loss timer runs to its end: it expires if it is still pending, then its callback runs. */
  function Fire(s: Session): Session
    requires !s.deleted && (s.armed || s.due)
  {
    var s' := if s.armed then Step(s, TimerExpires) else s;
    Step(s', TimerCallback)
  }

  lemma FireKeeps(s: Session)
    requires SessionInv(s) && TailOk(s) && s.active && !s.deleted && s.buf != map[]
    ensures var s' := Fire(s); SessionInv(s') && TailOk(s') && !s'.deleted && |s'.buf| < |s.buf|
  {
    var s' := if s.armed then Step(s, TimerExpires) else s;
    SameTail(s, s');
    assert SessionInv(s');
    hide Timeout, SessionInv, TailOk;
    TimeoutKeepsInv(s');
    TimeoutTail(s');
    TimeoutLowersCount(s');
    TimeoutFrame(s');
  }

  lemma TimeoutFrame(s: Session)
    ensures Timeout(s).deleted == s.deleted
  {
    hide DeliverRange, CutBelow;
  }

  /** Fires the timer up to `n` times, while the session is active and holds something. */
  function FireWhile(s: Session, n: nat): Session
    requires SessionInv(s) && TailOk(s) && !s.deleted
    decreases n
  {
    if n == 0 || !s.active || s.buf == map[] then s
    else
      FireKeeps(s);
      FireWhile(Fire(s), n - 1)
  }

  /** No gap blocks an active session for ever: as many timeouts as there are buffered MPDUs
      empty the window, unless the session is given up before. */
  lemma {:induction false} TimeoutsEmptyTheorem(s: Session, n: nat)
    requires SessionInv(s) && TailOk(s) && !s.deleted && |s.buf| <= n
    ensures var s' := FireWhile(s, n); s'.buf == map[] || !s'.active
    decreases n
  {
    if n > 0 && s.active && s.buf != map[] {
      FireKeeps(s);
      TimeoutsEmptyTheorem(Fire(s), n - 1);
    }
    hide Fire, SessionInv, TailOk;
  }

  /** In every state reached without an unseen jump, at most as many consecutive timeouts as there are
      buffered MPDUs empty the window or end the session. */
  lemma ProgressTheorem(start: Seq12, size: nat, es: seq<Event>)
    requires 1 <= size < HALF && EnabledRun(Fresh(start, size), es)
    requires Kept(es) && NoUnseenJump(Fresh(start, size), es)
    ensures var s := Run(Fresh(start, size), es);
      && SessionInv(s) && TailOk(s) && !s.deleted
      && var s' := FireWhile(s, |s.buf|); s'.buf == map[] || !s'.active
  {
    var s := Run(Fresh(start, size), es);
    RunKeepsInv(Fresh(start, size), es);
    SeenTail(Fresh(start, size), es);
    TimeoutsEmptyTheorem(s, |s.buf|);
    hide Run, EnabledRun, NoUnseenJump, FireWhile;
  }

  /** In particular while no frame jumps further than 2046 ahead. */
  lemma SmallJumpsProgress(start: Seq12, size: nat, es: seq<Event>)
    requires 1 <= size < HALF && EnabledRun(Fresh(start, size), es) && SmallJumps(Fresh(start, size), es)
    ensures var s := Run(Fresh(start, size), es);
      && SessionInv(s) && TailOk(s) && !s.deleted
      && var s' := FireWhile(s, |s.buf|); s'.buf == map[] || !s'.active
  {
    SmallJumpsSeen(Fresh(start, size), es);
    ProgressTheorem(start, size, es);
    hide Run, EnabledRun, NoUnseenJump, SmallJumps, FireWhile;
  }

  // ---------------------------------------------------------------------
  // The fast path

  /** The shortcut for an expected whole MPDU and an empty window is the general path, field by
      field, exactly when the driver sees the frame ahead of the tail. */
  lemma FastPathExactly(s: Session, m: Msdu, skb: Option<Skb>)
    requires SessionInv(s) && OnFastPath(s, m)
    ensures FastPath(s, m, skb) == GeneralPath(s, m, skb) <==> Geq(m.sn, s.tail)
  {
    var p := Single(m, skb);
    var s2 := Insert(s.(init := 0), s.start, m, skb);
    assert Unwrap(s.start, m.sn) == s.start;
    assert s2.buf == map[s.start := p];
    assert RunEnd(s2.buf, s.start + 1, s.start + s.size) == s.start + 1;
    assert DeliverRange(s2.buf, s.sink, s.start, s.start) == s.sink;
    assert DeliverRange(s2.buf, s.sink, s.start, s.start + 1) == Deliver(s.sink, s.start, p);
    assert CutBelow(s2.buf, s.start + 1) == map[];
    hide Deliver, Single;
  }

  lemma RightTailIsSeen(s: Session, m: Msdu)
    requires SessionInv(s) && TailOk(s) && OnFastPath(s, m)
    ensures Geq(m.sn, s.tail)
  {
    LeqIsOrder(LastBuffered(s), s.start);
  }

  /** In every state reached without an unseen jump the fast path refines the general path. */
  lemma FastPathTheorem(start: Seq12, size: nat, es: seq<Event>, m: Msdu, skb: Option<Skb>)
    requires 1 <= size < HALF && EnabledRun(Fresh(start, size), es)
    requires Kept(es) && NoUnseenJump(Fresh(start, size), es) && OnFastPath(Run(Fresh(start, size), es), m)
    ensures var s := Run(Fresh(start, size), es); FastPath(s, m, skb) == GeneralPath(s, m, skb)
  {
    var s := Run(Fresh(start, size), es);
    RunKeepsInv(Fresh(start, size), es);
    SeenTail(Fresh(start, size), es);
    RightTailIsSeen(s, m);
    FastPathExactly(s, m, skb);
    hide Run, EnabledRun, NoUnseenJump, FastPath, GeneralPath;
  }

  /** In particular while no frame jumps further than 2046 ahead. */
  lemma SmallJumpsFastPath(start: Seq12, size: nat, es: seq<Event>, m: Msdu, skb: Option<Skb>)
    requires 1 <= size < HALF && EnabledRun(Fresh(start, size), es) && SmallJumps(Fresh(start, size), es)
    requires OnFastPath(Run(Fresh(start, size), es), m)
    ensures var s := Run(Fresh(start, size), es); FastPath(s, m, skb) == GeneralPath(s, m, skb)
  {
    SmallJumpsSeen(Fresh(start, size), es);
    FastPathTheorem(start, size, es, m, skb);
    hide Run, EnabledRun, NoUnseenJump, SmallJumps, FastPath, GeneralPath;
  }
}

/** Which old frames skip the window: the meaning of win_start_init over a run. */
module BlockAckBypass {
  import opened Common
  import opened Seqno
  import opened BlockAckSession
  import opened BlockAckTheorems

  /** The event uses the window: a frame enters it, or a timeout moves it. */
  predicate Uses(s: Session, e: Event) {
    || (e.Receive? && s.active && Geq(e.m.sn, s.start % MODULUS))
    || (e.TimerCallback? && s.active && s.buf != map[] && !s.armed)
  }

  predicate Used(s: Session, es: seq<Event>)
    requires EnabledRun(s, es)
    decreases |es|
  {
    es != [] && (Uses(s, es[0]) || Used(Step(s, es[0]), es[1..]))
  }

  /** A step clears win_start_init exactly when it uses the window, and moves win_start only then. */
  lemma StepInit(s: Session, e: Event)
    requires SessionInv(s) && Enabled(s, e) && !e.DeleteSession?
    ensures var s' := Step(s, e);
      if Uses(s, e) then s'.init == 0 else s'.init == s.init && s'.start == s.start
  {
    if e.Receive? && Geq(e.m.sn, s.start % MODULUS) {
      InWindowFrame(s, e.m, e.skb);
    }
    hide InWindow, Deliver, DeliverRange, CutBelow, RunEnd;
  }

  lemma {:induction false} ClearedStays(s: Session, es: seq<Event>)
    requires SessionInv(s) && EnabledRun(s, es) && Kept(es) && s.init == 0
    ensures Run(s, es).init == 0
    decreases |es|
  {
    if es != [] {
      StepInit(s, es[0]);
      StepKeepsInv(s, es[0]);
      ClearedStays(Step(s, es[0]), es[1..]);
    }
    hide Step, SessionInv, Uses;
  }

  /** Over every run win_start_init is zero once the window was used; until then it and win_start
      are as the session was set up. */
  lemma {:induction false} RunInit(s: Session, es: seq<Event>)
    requires SessionInv(s) && EnabledRun(s, es) && Kept(es)
    ensures var s' := Run(s, es);
      if Used(s, es) then s'.init == 0 else s'.init == s.init && s'.start == s.start
    decreases |es|
  {
    if es != [] {
      StepInit(s, es[0]);
      StepKeepsInv(s, es[0]);
      if Uses(s, es[0]) {
        ClearedStays(Step(s, es[0]), es[1..]);
      } else {
        RunInit(Step(s, es[0]), es[1..]);
      }
    }
    hide Step, SessionInv, Uses;
  }

  /** With win_start_init at win_start every old frame is passed up; with zero, one is passed up
      exactly when its residue is in the upper half. */
  lemma BypassExactly(s: Session, m: Msdu)
    ensures var older := Unwrap(s.start, m.sn) < s.start;
      && (s.init == s.start % MODULUS ==> (Bypasses(s, m) <==> older))
      && (s.init == 0 ==> (Bypasses(s, m) <==> older && m.sn >= HALF))
  {
  }

  /** Over every run, an old frame skips the window if and only if the window has not been used or
      the frame's residue is in the upper half. */
  lemma BypassTheorem(start: Seq12, size: nat, es: seq<Event>, m: Msdu)
    requires 1 <= size < HALF && EnabledRun(Fresh(start, size), es) && Kept(es)
    ensures var s := Run(Fresh(start, size), es);
      Bypasses(s, m) <==> Unwrap(s.start, m.sn) < s.start && (m.sn >= HALF || !Used(Fresh(start, size), es))
  {
    hide Run, EnabledRun, Used, Bypasses, Unwrap;
    RunInit(Fresh(start, size), es);
    BypassExactly(Run(Fresh(start, size), es), m);
  }

  /** What becomes of an old frame over every run: it is passed up out of order if the session was
      given up, the window was never used, or the residue is in the upper half; otherwise it is
      freed. */
  lemma OldFrameTheorem(start: Seq12, size: nat, es: seq<Event>, m: Msdu, x: Skb)
    requires 1 <= size < HALF && EnabledRun(Fresh(start, size), es) && Kept(es)
    requires var s := Run(Fresh(start, size), es); Unwrap(s.start, m.sn) < s.start
    ensures var s := Run(Fresh(start, size), es);
      var k := Arrive(s, m, Some(x)).sink;
      if !s.active || m.sn >= HALF || !Used(Fresh(start, size), es)
      then k == s.sink.(out := s.sink.out + [Bypassed(x)])
      else k == s.sink.(freed := s.sink.freed + multiset{x})
  {
    BypassTheorem(start, size, es, m);
    OldFrameStep(Run(Fresh(start, size), es), m, x);
    hide Run, EnabledRun, Used, Arrive, Bypasses, Unwrap;
  }

  lemma OldFrameStep(s: Session, m: Msdu, x: Skb)
    requires Unwrap(s.start, m.sn) < s.start
    ensures var k := Arrive(s, m, Some(x)).sink;
      if !s.active || Bypasses(s, m) then k == s.sink.(out := s.sink.out + [Bypassed(x)])
      else k == s.sink.(freed := s.sink.freed + multiset{x})
  {
    assert multiset(Frames(Some(x))) == multiset{x};
    hide InWindow;
  }

  /** A retransmitted MPDU whose number is in the upper half is delivered twice. */
  lemma DuplicateDelivered()
    ensures var m := Msdu(3000, Pn(0, 1), CCMP, true);
      var s := Arrive(Arrive(Fresh(3000, 64), m, Some(1)), m, Some(2));
      s.sink.out == [Released(3000, Single(m, Some(1))), Bypassed(2)]
  {
    var m := Msdu(3000, Pn(0, 1), CCMP, true);
    var s1 := Arrive(Fresh(3000, 64), m, Some(1));
    assert s1.sink.out == [Released(3000, Single(m, Some(1)))] && s1.start == 3001 && s1.init == 0;
    assert Bypasses(s1, m);
  }

  // ---------------------------------------------------------------------
  // The frames that skipped the window

  /** The entries of the output list that never entered the window. */
  function Skipped(out: seq<Output>): seq<Skb> {
    if out == [] then []
    else
      var o := out[|out| - 1];
      Skipped(out[..|out| - 1]) + if o.Bypassed? then [o.skb] else []
  }

  /** The buffer of an event that is passed up without entering the window. */
  function Skips(s: Session, e: Event): seq<Skb> {
    if e.Receive? && (!s.active || Bypasses(s, e.m)) then Frames(e.skb) else []
  }

  function RunSkips(s: Session, es: seq<Event>): seq<Skb>
    requires EnabledRun(s, es)
    decreases |es|
  {
    if es == [] then [] else Skips(s, es[0]) + RunSkips(Step(s, es[0]), es[1..])
  }

  lemma SkippedPush(out: seq<Output>, o: Output)
    ensures Skipped(out + [o]) == Skipped(out) + if o.Bypassed? then [o.skb] else []
  {
    assert (out + [o])[..|out|] == out;
  }

  lemma DeliverSkips(k: Sink, u: int, p: Mpdu)
    ensures Skipped(Deliver(k, u, p).out) == Skipped(k.out)
  {
    SkippedPush(k.out, Released(u, p));
    hide Skipped;
  }

  lemma {:induction false} DeliverRangeSkips(b: Buffer, k: Sink, lo: int, hi: int)
    ensures Skipped(DeliverRange(b, k, lo, hi).out) == Skipped(k.out)
    decreases hi - lo
  {
    if lo < hi {
      DeliverRangeSkips(b, k, lo, hi - 1);
      if hi - 1 in b {
        DeliverSkips(DeliverRange(b, k, lo, hi - 1), hi - 1, b[hi - 1]);
      }
    }
    hide Deliver, Skipped;
  }

  lemma MakeRoomSkips(s: Session, u: int)
    ensures Skipped(MakeRoom(s, u).sink.out) == Skipped(s.sink.out)
  {
    hide DeliverRange, Skipped, CutBelow, RunEnd;
    DeliverRangeSkips(s.buf, s.sink, s.start, RunEnd(s.buf, u - s.size + 1, s.start + s.size));
  }

  lemma SettleSkips(s: Session, before: int, u: int, last: bool)
    ensures Skipped(Settle(s, before, u, last).sink.out) == Skipped(s.sink.out)
  {
    hide DeliverRange, Skipped, CutBelow, RunEnd;
    DeliverRangeSkips(s.buf, s.sink, s.start, RunEnd(s.buf, s.start, s.start + s.size));
  }

  lemma InWindowSkips(s: Session, m: Msdu, skb: Option<Skb>)
    ensures Skipped(InWindow(s, m, skb).sink.out) == Skipped(s.sink.out)
  {
    hide Skipped, MakeRoom, Settle, Inserted, CanInsert, Unwrap;
    var u := Unwrap(s.start, m.sn);
    var s0 := s.(init := 0);
    MakeRoomSkips(s0, u);
    SettleSkips(Insert(MakeRoom(s0, u), u, m, skb), s.start, u, m.last);
  }

  lemma ReceiveSkips(s: Session, m: Msdu, skb: Option<Skb>)
    requires Enabled(s, Receive(m, skb))
    ensures Skipped(Arrive(s, m, skb).sink.out) == Skipped(s.sink.out) + Skips(s, Receive(m, skb))
  {
    hide InWindow, Deliver, Skipped;
    if s.active && OnFastPath(s, m) {
      DeliverSkips(s.sink, s.start, Single(m, skb));
    } else if s.active && Geq(m.sn, s.start % MODULUS) {
      InWindowSkips(s, m, skb);
    } else if skb.Some? {
      SkippedPush(s.sink.out, Bypassed(skb.value));
    }
  }

  lemma StepSkips(s: Session, e: Event)
    requires Enabled(s, e)
    ensures Skipped(Step(s, e).sink.out) == Skipped(s.sink.out) + Skips(s, e)
  {
    hide Arrive, DeliverRange, Skipped, CutBelow, HeldIn, RunEnd, FirstComplete;
    match e {
      case Receive(m, skb) => ReceiveSkips(s, m, skb);
      case TimerCallback =>
        var to := FirstComplete(s.buf, s.start, ScanEnd(s));
        DeliverRangeSkips(s.buf, s.sink, s.start, RunEnd(s.buf, to, s.start + s.size));
      case DeleteSession(drain) =>
        DeliverRangeSkips(s.buf, s.sink, s.start, RunEnd(s.buf, s.start, s.start + s.size));
      case _ =>
    }
  }

  /** Over every run the frames in the output list that never entered the window are exactly those
      that arrived for a session given up, or old and passed up, in arrival order. */
  lemma {:induction false} SkippedTheorem(s: Session, es: seq<Event>)
    requires EnabledRun(s, es)
    ensures Skipped(Run(s, es).sink.out) == Skipped(s.sink.out) + RunSkips(s, es)
    decreases |es|
  {
    hide Step, Skipped, Skips;
    if es != [] {
      StepSkips(s, es[0]);
      SkippedTheorem(Step(s, es[0]), es[1..]);
    }
  }
}

/** What happens after a jump that is too far: the loss timer releases nothing, the session is given
    up, and deleting it leaks what it holds. */
module BlockAckStall {
  import opened Common
  import opened Seqno
  import opened BlockAckSession
  import opened BlockAckTheorems
  import opened BlockAckProgress
  import BlockAckConservation

  /** The loss scan sees nothing although something is buffered. */
  predicate Stalled(s: Session) {
    SessionInv(s) && !s.deleted && s.buf != map[] && ScanEnd(s) == s.start && s.start !in s.buf
  }

  /** A firing of the loss timer changes nothing but the timeout count, until that gives up. */
  lemma FireStalled(s: Session)
    requires Stalled(s) && (s.armed || s.due)
    ensures var s' := Fire(s);
      && Stalled(s') && s'.buf == s.buf && s'.sink == s.sink && !s'.due
      && (s'.active <==> s.active && s.timeouts < MAX_TIMEOUT_CNT)
      && (s'.active ==> s'.timeouts == s.timeouts + 1)
      && (s.active ==> s'.armed)
  {
    var s1 := if s.armed then Step(s, TimerExpires) else s;
    assert RunEnd(s.buf, s.start, s.start + s.size) == s.start;
    assert CutBelow(s.buf, s.start) == s.buf;
    assert DeliverRange(s.buf, s.sink, s.start, s.start) == s.sink;
    TimeoutKeepsInv(s1);
    hide DeliverRange, CutBelow, RunEnd;
  }

  /** Fires the timer up to `n` times, as long as it runs. */
  function Fires(s: Session, n: nat): Session
    requires !s.deleted
    decreases n
  {
    if n == 0 || !(s.armed || s.due) then s
    else
      TimeoutFrame(if s.armed then Step(s, TimerExpires) else s);
      Fires(Fire(s), n - 1)
  }

  lemma {:induction false} InactiveStays(s: Session, n: nat)
    requires Stalled(s) && !s.active
    ensures var s' := Fires(s, n); !s'.active && s'.buf == s.buf && s'.sink == s.sink
    decreases n
  {
    hide Stalled, Fire;
    if n > 0 && (s.armed || s.due) {
      StalledLives(s);
      FireStalled(s);
      InactiveStays(Fire(s), n - 1);
    }
  }

  lemma StalledLives(s: Session)
    requires Stalled(s)
    ensures !s.deleted && (s.active ==> s.armed || s.due)
  {
  }

  /** However often the timer fires, a stalled session releases nothing; it stays active until the
      sixty-first timeout and then keeps what it holds. */
  lemma {:induction false} StallTheorem(s: Session, n: nat)
    requires Stalled(s) && s.active
    ensures var s' := Fires(s, n);
      s'.buf == s.buf && s'.sink == s.sink && (s'.active <==> s.timeouts + n <= MAX_TIMEOUT_CNT)
    decreases n
  {
    StalledTimeouts(s);
    hide Stalled, Fire;
    if n > 0 {
      StalledLives(s);
      FireStalled(s);
      if Fire(s).active {
        StallTheorem(Fire(s), n - 1);
      } else {
        InactiveStays(Fire(s), n - 1);
      }
    }
  }

  lemma StalledTimeouts(s: Session)
    requires Stalled(s)
    ensures s.timeouts <= MAX_TIMEOUT_CNT
  {
  }

  // ---------------------------------------------------------------------
  // The stall as a run

  const FAR := Msdu(2048, Pn(0, 1), CCMP, true)

  function FireEvents(n: nat): seq<Event> {
    if n == 0 then [] else [TimerExpires, TimerCallback] + FireEvents(n - 1)
  }

  lemma FireIsRun(s: Session, es: seq<Event>)
    requires !s.deleted && s.armed && EnabledRun(Fire(s), es)
    ensures var all := [TimerExpires, TimerCallback] + es;
      EnabledRun(s, all) && Run(s, all) == Run(Fire(s), es)
  {
    hide Timeout;
    var all := [TimerExpires, TimerCallback] + es;
    var s1 := Step(s, TimerExpires);
    assert all[1..] == [TimerCallback] + es && all[1..][1..] == es;
    assert EnabledRun(s1, all[1..]) && Run(s1, all[1..]) == Run(Fire(s), es);
  }

  lemma {:induction false} FiresIsRun(s: Session, n: nat)
    requires Stalled(s) && s.active && s.armed && !s.due && s.timeouts + n <= MAX_TIMEOUT_CNT + 1
    ensures !s.deleted && EnabledRun(s, FireEvents(n)) && Run(s, FireEvents(n)) == Fires(s, n)
    decreases n
  {
    StalledLives(s);
    hide Stalled, Fire;
    if n > 0 {
      FireStalled(s);
      StalledLives(Fire(s));
      if n > 1 {
        FiresIsRun(Fire(s), n - 1);
      } else {
        assert FireEvents(0) == [] && Fires(Fire(s), 0) == Fire(s);
      }
      FireIsRun(s, FireEvents(n - 1));
    }
  }

  /** A jump of 2047 from a fresh session leaves win_tail behind the window and the session stalled. */
  lemma StallAfterFarJump()
    ensures var s := Arrive(Fresh(1, 64), FAR, Some(1));
      && Stalled(s) && s.active && s.armed && !s.due && s.timeouts == 0 && !TailOk(s)
      && s.start == 1985 && s.size == 64 && s.buf == map[2048 := Single(FAR, Some(1))]
  {
    var s0 := Fresh(1, 64);
    ReceiveKeepsInv(s0, FAR, Some(1));
    assert Unwrap(1, 2048) == 2048;
    var s1 := MakeRoom(s0.(init := 0), 2048);
    assert s1.start == 1985 && s1.buf == map[];
    var s := Arrive(s0, FAR, Some(1));
    assert s.start == 1985 && s.buf == map[2048 := Single(FAR, Some(1))] && s.tail == 0 && s.armed;
  }

  /** The run that leaks: one far jump, sixty-one timeouts, and the deletion of the session. */
  lemma LeakWitness(drain: bool)
    ensures var es := [Receive(FAR, Some(1))] + FireEvents(61);
      && EnabledRun(Fresh(1, 64), es)
      && var s := Run(Fresh(1, 64), es);
         && !s.deleted && !s.active && s.sink.out == [] && s.sink.freed == multiset{}
         && Delete(s, drain).leaked == multiset{1}
  {
    var s := Arrive(Fresh(1, 64), FAR, Some(1));
    StallAfterFarJump();
    var es := [Receive(FAR, Some(1))] + FireEvents(61);
    assert es[1..] == FireEvents(61);
    FiresIsRun(s, 61);
    StallTheorem(s, 61);
    JumpSink();
    var s' := Fires(s, 61);
    assert Enabled(Fresh(1, 64), Receive(FAR, Some(1)));
    hide Arrive, Fires, FireEvents, Stalled;
    HeldOne(s'.buf);
    StillThere(s, 61);
  }

  /** A firing leaves the place and the books of the session alone. */
  lemma {:induction false} StillThere(s: Session, n: nat)
    requires Stalled(s)
    ensures var s' := Fires(s, n); s'.start == s.start && s'.size == s.size && s'.leaked == s.leaked && !s'.deleted
    decreases n
  {
    StalledLives(s);
    if n > 0 && (s.armed || s.due) {
      FireStalled(s);
      assert RunEnd(s.buf, s.start, s.start + s.size) == s.start;
      StillThere(Fire(s), n - 1);
    }
    hide DeliverRange, CutBelow, RunEnd;
  }

  lemma JumpSink()
    ensures var s := Arrive(Fresh(1, 64), FAR, Some(1));
      s.sink.out == [] && s.sink.freed == multiset{} && s.leaked == multiset{}
  {
    var s0 := Fresh(1, 64).(init := 0);
    assert Unwrap(1, 2048) == 2048;
    NothingDelivered(s0.sink, 1, 1985);
  }

  lemma {:induction false} NothingDelivered(k: Sink, lo: int, hi: int)
    ensures DeliverRange(map[], k, lo, hi) == k
    decreases hi - lo
  {
    if lo < hi {
      NothingDelivered(k, lo, hi - 1);
    }
  }

  lemma HeldOne(b: Buffer)
    requires b == map[2048 := Single(FAR, Some(1))]
    ensures HeldIn(b, 1985, 2049) == multiset{1}
  {
    BlockAckConservation.HeldNone(b, 1985, 2048);
  }

  // ---------------------------------------------------------------------
  // The fast path

  /** After a far jump that drained at once, the fast path and the general path part. */
  lemma FastPathMismatch()
    ensures var s := Arrive(Fresh(1, 1), FAR, Some(1));
      var m := FAR.(sn := 2049);
      && SessionInv(s) && s.active && OnFastPath(s, m)
      && FastPath(s, m, Some(2)) != GeneralPath(s, m, Some(2))
  {
    var s0 := Fresh(1, 1);
    var m := FAR.(sn := 2049);
    ReceiveKeepsInv(s0, FAR, Some(1));
    assert Unwrap(1, 2048) == 2048;
    var s1 := MakeRoom(s0.(init := 0), 2048);
    assert s1.start == 2048 && s1.buf == map[] && s1.tail == 0;
    var s2 := Insert(s1, 2048, FAR, Some(1));
    assert s2.buf == map[2048 := Single(FAR, Some(1))] && s2.tail == 0;
    assert RunEnd(s2.buf, 2048, 2049) == 2049;
    assert CutBelow(s2.buf, 2049) == map[];
    var s := Arrive(s0, FAR, Some(1));
    assert s.start == 2049 && s.buf == map[] && s.tail == 0;
    hide DeliverRange;
    FastPathExactly(s, m, Some(2));
  }
}

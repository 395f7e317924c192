/** How far the window moves, stated of the numbers that are buffered with their last MSDU
    (WIFI/reorder.c). */
module BlockAckLaws {
  import opened Common
  import opened Seqno
  import opened BlockAckSession
  import opened BlockAckTheorems

  /** A session as it is set up: an empty window from `start`, with the tail just before it. */
  lemma FreshLaw(start: Seq12, size: nat)
    ensures var s := Fresh(start, size);
      && s.start == s.init == start && s.size == size && s.tail == (if start == 0 then 4095 else start - 1)
      && s.buf == map[] && s.active && !s.deleted && !s.armed && !s.due && s.timeouts == 0
      && s.sink.out == [] && s.sink.freed == s.leaked == multiset{} && !s.sink.resetPn
  {
  }

  /** The MPDU of number `u` is buffered whole. */
  predicate Whole(s: Session, u: int) {
    u in s.buf && s.buf[u].last
  }

  /** Everything below `e` has left the buffer, nothing else. */
  ghost predicate Cut(s: Session, s': Session, e: int) {
    s'.start == e && forall u :: (u in s'.buf <==> u in s.buf && e <= u) && (u in s'.buf ==> s'.buf[u] == s.buf[u])
  }

  /** The run of whole MPDUs from `p` ends at `e`. */
  predicate RunsTo(s: Session, p: int, e: int) {
    p <= e && !Whole(s, e) && forall u :: p <= u < e ==> Whole(s, u)
  }

  lemma RunEndIs(s: Session, p: int)
    requires WindowInv(s)
    ensures RunsTo(s, p, RunEnd(s.buf, p, s.start + s.size))
  {
    forall u ensures Whole(s, u) <==> Complete(s.buf, u) {
    }
  }

  lemma MoveCuts(s: Session, e: int)
    ensures Cut(s, MoveTo(s, e), e)
  {
    hide DeliverRange;
  }

  /** A frame beyond the window moves it just far enough that the frame is its last number, and over the
      whole MPDUs that then stand at its head; any other frame leaves it. */
  lemma MakeRoomLaw(s: Session, u: int)
    requires WindowInv(s) && s.start <= u
    ensures u < s.start + s.size ==> MakeRoom(s, u) == s
    ensures s.start + s.size <= u ==>
              var s' := MakeRoom(s, u); Cut(s, s', s'.start) && RunsTo(s, u - s.size + 1, s'.start)
  {
    var e := RunEnd(s.buf, u - s.size + 1, s.start + s.size);
    RunEndIs(s, u - s.size + 1);
    MoveCuts(s, e);
    hide MoveTo, RunsTo, Cut;
  }

  /** When a drain ends: after the whole MPDUs at the head. */
  lemma DrainLaw(s: Session)
    requires WindowInv(s)
    ensures var s' := Drain(s); Cut(s, s', s'.start) && RunsTo(s, s.start, s'.start)
  {
    var e := RunEnd(s.buf, s.start, s.start + s.size);
    RunEndIs(s, s.start);
    MoveCuts(s, e);
    hide MoveTo, RunsTo, Cut;
  }

  /** The loss timeout acts only on an active session that holds something and whose timer was not armed
      again. It gives up the numbers before the first whole MPDU, or up to the end of its scan if
      there is none before that, and hands on the whole MPDUs that follow. After sixty timeouts the
      session is given up; the timer runs on exactly while something is held. */
  lemma TimeoutLaw(s: Session)
    requires SessionInv(s)
    ensures var s' := Timeout(s);
      if !(s.active && s.buf != map[] && !s.armed) then s' == s.(due := false)
      else
        && Cut(s, s', s'.start)
        && (exists p :: s.start <= p <= ScanEnd(s) && (forall u :: s.start <= u < p ==> !Whole(s, u))
                        && (p == ScanEnd(s) || Whole(s, p)) && RunsTo(s, p, s'.start))
        && (s'.active <==> s.timeouts < 60) && s'.armed == (s'.buf != map[]) && !s'.due
        && s'.timeouts == (if s'.buf == map[] || s.timeouts >= 60 then 0 else s.timeouts + 1)
  {
    hide DeliverRange, SessionInv, ScanEnd;
    InvWindow(s);
    if s.active && s.buf != map[] && !s.armed {
      var p := FirstComplete(s.buf, s.start, ScanEnd(s));
      var e := RunEnd(s.buf, p, s.start + s.size);
      RunEndIs(s, p);
      MoveCuts(s, e);
      assert Timeout(s).start == e && Timeout(s).buf == MoveTo(s, e).buf;
      forall u ensures Whole(s, u) <==> Complete(s.buf, u) {
      }
      assert s.start <= p <= ScanEnd(s) && forall u :: s.start <= u < p ==> !Whole(s, u);
      hide RunEnd, RunsTo, Cut;
    }
  }

  lemma InvWindow(s: Session)
    requires SessionInv(s)
    ensures WindowInv(s)
  {
  }

  /** A DELBA hands on the whole MPDUs at the head and frees the rest; the removal of the peer frees all
      that is held. Of a session given up nothing is freed. */
  lemma DeleteLaw(s: Session, drain: bool)
    requires WindowInv(s)
    ensures var s' := Delete(s, drain);
      && s'.buf == map[] && !s'.active && !s'.armed && s'.deleted
      && (s.active && !drain ==> s'.start == s.start && s'.sink == s.sink.(freed := s.sink.freed + Held(s)))
      && (s.active && drain ==>
            && RunsTo(s, s.start, s'.start)
            && var s1 := MoveTo(s, s'.start); s'.sink == s1.sink.(freed := s1.sink.freed + Held(s1)))
      && (!s.active ==> s'.sink == s.sink && s'.leaked == s.leaked + Held(s))
  {
    RunEndIs(s, s.start);
    hide RunEnd, RunsTo, DeliverRange, HeldIn, CutBelow;
  }
}

/** Replay protection (section 12.5.3.4.4 of IEEE Std 802.11-2016): the packet numbers of
    protected MPDUs released from the window increase, except once per reset request. */
module BlockAckReplay {
  import opened Common
  import opened Seqno
  import opened BlockAckSession

  predicate Counted(o: Output) {
    o.Released? && Protected(o.mpdu.cipher)
  }

  /** The packet number of the last protected release, 0 before the first. */
  function LastPn(out: seq<Output>): int {
    if out == [] then 0
    else if Counted(out[|out| - 1]) then out[|out| - 1].mpdu.pn.Value()
    else LastPn(out[..|out| - 1])
  }

  /** How many protected releases did not exceed the one before them. */
  function Drops(out: seq<Output>): nat {
    if out == [] then 0
    else
      var o := out[|out| - 1];
      Drops(out[..|out| - 1]) + (if Counted(o) && o.mpdu.pn.Value() <= LastPn(out[..|out| - 1]) then 1 else 0)
  }

  /** Non-increases so far, plus the one a pending reset request may still cause. */
  function Budget(k: Sink): nat {
    Drops(k.out) + (if k.resetPn then 1 else 0)
  }

  predicate PnInv(k: Sink) {
    k.pn.Value() == LastPn(k.out)
  }

  lemma PushKeeps(out: seq<Output>, o: Output)
    ensures (out + [o])[..|out|] == out
    ensures LastPn(out + [o]) == if Counted(o) then o.mpdu.pn.Value() else LastPn(out)
    ensures Drops(out + [o]) == Drops(out) + if Counted(o) && o.mpdu.pn.Value() <= LastPn(out) then 1 else 0
  {
    assert (out + [o])[..|out|] == out;
  }

  lemma DeliverReplay(k: Sink, u: int, m: Mpdu)
    requires PnInv(k)
    ensures PnInv(Deliver(k, u, m)) && Budget(Deliver(k, u, m)) <= Budget(k)
  {
    PushKeeps(k.out, Released(u, m));
  }

  lemma {:induction false} DeliverRangeReplay(b: Buffer, k: Sink, lo: int, hi: int)
    requires PnInv(k)
    ensures PnInv(DeliverRange(b, k, lo, hi)) && Budget(DeliverRange(b, k, lo, hi)) <= Budget(k)
    decreases hi - lo
  {
    if lo < hi {
      DeliverRangeReplay(b, k, lo, hi - 1);
      if hi - 1 in b {
        DeliverReplay(DeliverRange(b, k, lo, hi - 1), hi - 1, b[hi - 1]);
      }
    }
  }

  predicate Follows(k: Sink, k': Sink) {
    PnInv(k') && Budget(k') <= Budget(k)
  }

  lemma MoveToReplay(s: Session, e: int)
    requires PnInv(s.sink)
    ensures Follows(s.sink, MoveTo(s, e).sink)
  {
    DeliverRangeReplay(s.buf, s.sink, s.start, e);
  }

  lemma MakeRoomReplay(s: Session, u: int)
    requires PnInv(s.sink)
    ensures Follows(s.sink, MakeRoom(s, u).sink)
  {
    hide Drops, LastPn;
    MoveToReplay(s, RunEnd(s.buf, u - s.size + 1, s.start + s.size));
  }

  lemma SettleReplay(s: Session, before: int, u: int, last: bool)
    requires PnInv(s.sink)
    ensures Follows(s.sink, Settle(s, before, u, last).sink)
  {
    hide Drops, LastPn;
    MoveToReplay(s, RunEnd(s.buf, s.start, s.start + s.size));
  }

  lemma InWindowReplay(s: Session, m: Msdu, skb: Option<Skb>)
    requires PnInv(s.sink)
    ensures Follows(s.sink, InWindow(s, m, skb).sink)
  {
    hide Drops, LastPn, MakeRoom, Settle;
    var u := Unwrap(s.start, m.sn);
    var s0 := s.(init := 0);
    MakeRoomReplay(s0, u);
    SettleReplay(Insert(MakeRoom(s0, u), u, m, skb), s.start, u, m.last);
  }

  lemma ReceiveReplay(s: Session, m: Msdu, skb: Option<Skb>)
    requires PnInv(s.sink) && Enabled(s, Receive(m, skb))
    ensures Follows(s.sink, Arrive(s, m, skb).sink)
  {
    if s.active && OnFastPath(s, m) {
      DeliverReplay(s.sink, s.start, Single(m, skb));
    } else if s.active && Geq(m.sn, s.start % MODULUS) {
      InWindowReplay(s, m, skb);
    } else if skb.Some? {
      PushKeeps(s.sink.out, Bypassed(skb.value));
    }
  }

  lemma StepReplay(s: Session, e: Event)
    requires PnInv(s.sink) && Enabled(s, e)
    ensures PnInv(Step(s, e).sink)
    ensures Budget(Step(s, e).sink) <= Budget(s.sink) + if e.ResetPnRequest? then 1 else 0
  {
    hide Drops, LastPn;
    match e {
      case Receive(m, skb) => ReceiveReplay(s, m, skb);
      case TimerCallback =>
        var s0 := s.(due := false, init := 0);
        MoveToReplay(s0, RunEnd(s.buf, FirstComplete(s.buf, s.start, ScanEnd(s)), s.start + s.size));
      case DeleteSession(_) =>
        var s0 := s.(armed := false, due := false, deleted := true);
        MoveToReplay(s0, RunEnd(s.buf, s.start, s.start + s.size));
      case _ =>
    }
  }

  function Resets(es: seq<Event>): nat {
    if es == [] then 0 else (if es[0].ResetPnRequest? then 1 else 0) + Resets(es[1..])
  }

  lemma {:induction false} RunReplay(s: Session, es: seq<Event>)
    requires PnInv(s.sink) && EnabledRun(s, es)
    ensures Budget(Run(s, es).sink) <= Budget(s.sink) + Resets(es)
    decreases |es|
  {
    if es != [] {
      StepReplay(s, es[0]);
      RunReplay(Step(s, es[0]), es[1..]);
    }
  }

  /** A protected release has a packet number above all earlier ones when nothing dropped. */
  lemma {:induction false} NoDropsIncreasing(out: seq<Output>, i: int, j: int)
    requires Drops(out) == 0 && 0 <= i < j < |out| && Counted(out[i]) && Counted(out[j])
    ensures out[i].mpdu.pn.Value() < out[j].mpdu.pn.Value()
    decreases |out|
  {
    var rest := out[..|out| - 1];
    if j < |rest| {
      NoDropsIncreasing(rest, i, j);
    } else {
      LastPnCovers(rest, i);
    }
  }

  lemma {:induction false} LastPnCovers(out: seq<Output>, i: int)
    requires Drops(out) == 0 && 0 <= i < |out| && Counted(out[i])
    ensures out[i].mpdu.pn.Value() <= LastPn(out)
    decreases |out|
  {
    var rest := out[..|out| - 1];
    if i < |rest| {
      LastPnCovers(rest, i);
    }
  }

  /** Over every run, at most one release per reset request fails to exceed its predecessor;
      without requests the released packet numbers strictly increase. */
  lemma ReplayTheorem(start: Seq12, size: nat, es: seq<Event>)
    requires EnabledRun(Fresh(start, size), es)
    ensures var out := Run(Fresh(start, size), es).sink.out;
      && Drops(out) <= Resets(es)
      && (Resets(es) == 0 ==>
            forall i, j :: 0 <= i < j < |out| && Counted(out[i]) && Counted(out[j])
              ==> out[i].mpdu.pn.Value() < out[j].mpdu.pn.Value())
  {
    RunReplay(Fresh(start, size), es);
    var out := Run(Fresh(start, size), es).sink.out;
    if Resets(es) == 0 {
      forall i, j | 0 <= i < j < |out| && Counted(out[i]) && Counted(out[j])
        ensures out[i].mpdu.pn.Value() < out[j].mpdu.pn.Value()
      {
        NoDropsIncreasing(out, i, j);
      }
    }
  }

  predicate Accepts(k: Sink, m: Mpdu) {
    Deliver(k, 0, m).out != k.out
  }

  /** Replay detection in full, for an MPDU with buffers. Ciphers 1 and 2 are TKIP and CCMP. A pending
      reset is used up only by a number neither of whose words is larger than the stored one; any
      other number is accepted if it is new; an MPDU of another cipher is handed up as it is. */
  lemma ReplayLaw(k: Sink, u: int, m: Mpdu)
    requires m.frames != []
    ensures Deliver(k, u, m) ==
      if m.cipher != 1 && m.cipher != 2 then k.(out := k.out + [Released(u, m)])
      else if k.resetPn && m.pn.hi <= k.pn.hi && m.pn.lo <= k.pn.lo then
        Sink(m.pn, false, k.out + [Released(u, m)], k.freed)
      else if m.pn.hi * 0x1_0000_0000 + m.pn.lo > k.pn.hi * 0x1_0000_0000 + k.pn.lo then
        Sink(m.pn, k.resetPn, k.out + [Released(u, m)], k.freed)
      else k.(freed := k.freed + multiset(m.frames))
  {
  }

  /** A protected MPDU is accepted when its number is new, or when a reset is pending and both
      words are no larger. A counter restarted after rekeying therefore gets through exactly
      when its low word does not exceed the old low word: the words are compared separately. */
  lemma ResetAcceptsExactly(k: Sink, m: Mpdu)
    requires m.frames != [] && Protected(m.cipher)
    ensures k.pn.Value() < m.pn.Value() ==> Accepts(k, m)
    ensures m.pn.Value() <= k.pn.Value() ==> (Accepts(k, m) <==> k.resetPn && m.pn.lo <= k.pn.lo)
  {
    assert |k.out + [Released(0, m)]| != |k.out|;
  }

  const OLD_KEY := Msdu(1, Pn(1, 0), CCMP, true)
  const NEW_KEY := Msdu(2, Pn(0, 1), CCMP, true)

  /** The mixed case: after 2^32 frames under the old key, a pending reset rejects the first frame
      of a counter restarted at 1. */
  lemma ResetMissesRestartedCounter()
    ensures var es := [Receive(OLD_KEY, Some(1)), ResetPnRequest, Receive(NEW_KEY, Some(2))];
      && EnabledRun(Fresh(1, 64), es)
      && var k := Run(Fresh(1, 64), es).sink;
         k.out == [Released(1, Single(OLD_KEY, Some(1)))] && k.freed == multiset{2} && k.resetPn
  {
    var es := [Receive(OLD_KEY, Some(1)), ResetPnRequest, Receive(NEW_KEY, Some(2))];
    var s1 := Step(Fresh(1, 64), es[0]);
    assert s1.sink.out == [Released(1, Single(OLD_KEY, Some(1)))] && s1.start == 2 && s1.buf == map[];
    var s2 := Step(s1, es[1]);
    var s3 := Step(s2, es[2]);
    assert s3.sink.freed == multiset{2} && s3.sink.out == s1.sink.out;
    assert es[1..][1..][1..] == [] && Run(s3, []) == s3;
    OneStep(s2, es[1..][1..]);
    OneStep(s1, es[1..]);
    OneStep(Fresh(1, 64), es);
    hide Run, EnabledRun;
  }

  lemma OneStep(s: Session, es: seq<Event>)
    requires es != [] && Enabled(s, es[0]) && EnabledRun(Step(s, es[0]), es[1..])
    ensures EnabledRun(s, es) && Run(s, es) == Run(Step(s, es[0]), es[1..])
  {
    hide Step, Enabled;
  }
}

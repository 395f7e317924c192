/** The receive block-ack agreement of section 10.24.7.6 of IEEE Std 802.11-2016
    as the driver runs it (WIFI/reorder.c), stated without the ring: sequence
    numbers are unbounded and the reorder buffer is a finite map. The ring engine
    of module RxBaNode is proved to follow these steps. */
module BlockAckSession {
  import opened Common
  import opened Seqno

  type Skb = int
  type U16 = x: int | 0 <= x < 0x1_0000
  type U32 = x: int | 0 <= x < 0x1_0000_0000

  const MAX_TIMEOUT_CNT := 60
  const TKIP := 1
  const CCMP := 2

  /** A 48-bit packet number, kept by the driver in two words. */
  datatype Pn = Pn(hi: U16, lo: U32) {
    function Value(): int {
      hi * 0x1_0000_0000 + lo
    }
  }

  /** What the driver reads of a received MSDU's descriptor. */
  datatype Msdu = Msdu(sn: Seq12, pn: Pn, cipher: nat, last: bool)

  /** An MPDU collected in the reorder buffer; `frames` are its MSDUs in arrival order. */
  datatype Mpdu = Mpdu(pn: Pn, cipher: nat, last: bool, count: nat, frames: seq<Skb>)

  /** An entry of the list handed to the network stack. */
  datatype Output =
    | Released(sn: int, mpdu: Mpdu)  // left the window
    | Bypassed(skb: Skb)             // never entered it

  /** Where buffers go when they leave the window, with the replay counter guarding the exit. */
  datatype Sink = Sink(pn: Pn, resetPn: bool, out: seq<Output>, freed: multiset<Skb>)

  datatype Session = Session(
    size: nat,
    start: int,             // win_start, unbounded
    init: Seq12,            // win_start_init
    tail: Seq12,            // win_tail
    buf: map<int, Mpdu>,
    sink: Sink,
    active: bool,
    timeouts: nat,
    armed: bool,            // the loss timer is pending
    due: bool,              // the timer expired and its callback has not run yet
    deleted: bool,
    leaked: multiset<Skb>)

  type Buffer = map<int, Mpdu>

  // ---------------------------------------------------------------------
  // Leaving the window

  predicate Protected(cipher: nat) {
    cipher == TKIP || cipher == CCMP
  }

  /** replay_detection followed by queueing or freeing the MPDU's buffers. */
  function Deliver(k: Sink, sn: int, m: Mpdu): Sink {
    var queued := k.(out := k.out + [Released(sn, m)]);
    if m.frames == [] then k
    else if !Protected(m.cipher) then queued
    else if k.resetPn && k.pn.lo >= m.pn.lo && k.pn.hi >= m.pn.hi then
      queued.(resetPn := false, pn := m.pn)
    else if (k.pn.hi == m.pn.hi && k.pn.lo < m.pn.lo) || k.pn.hi < m.pn.hi then
      queued.(pn := m.pn)
    else k.(freed := k.freed + multiset(m.frames))
  }

  /** Delivers what is buffered in [lo, hi), in sequence order. */
  function DeliverRange(b: Buffer, k: Sink, lo: int, hi: int): Sink
    decreases hi - lo
  {
    if hi <= lo then k
    else
      var k' := DeliverRange(b, k, lo, hi - 1);
      if hi - 1 in b then Deliver(k', hi - 1, b[hi - 1]) else k'
  }

  function CutBelow(b: Buffer, lo: int): Buffer {
    map u | u in b && lo <= u :: b[u]
  }

  predicate Complete(b: Buffer, u: int) {
    u in b && b[u].last
  }

  /** End of the run of complete MPDUs that begins at `from`. */
  function RunEnd(b: Buffer, from: int, limit: int): (e: int)
    ensures from <= e && (e <= limit || e == from)
    ensures forall u :: from <= u < e ==> Complete(b, u)
    ensures e < limit ==> !Complete(b, e)
    decreases limit - from
  {
    if from < limit && Complete(b, from) then RunEnd(b, from + 1, limit) else from
  }

  /** The first complete MPDU of [from, limit), or `limit`. */
  function FirstComplete(b: Buffer, from: int, limit: int): (e: int)
    ensures from <= e && (e <= limit || e == from)
    ensures forall u :: from <= u < e ==> !Complete(b, u)
    ensures e < limit ==> Complete(b, e)
    decreases limit - from
  {
    if from < limit && !Complete(b, from) then FirstComplete(b, from + 1, limit) else from
  }

  /** Everything below `e` leaves the window and the window starts at `e`. */
  function MoveTo(s: Session, e: int): Session {
    s.(start := e, buf := CutBelow(s.buf, e), sink := DeliverRange(s.buf, s.sink, s.start, e))
  }

  /** between_seqlo_seqhi: release the run of complete MPDUs at the head. */
  function Drain(s: Session): Session {
    MoveTo(s, RunEnd(s.buf, s.start, s.start + s.size))
  }

  /** Flush up to `to`, gaps included, then release the run that follows. */
  function Advance(s: Session, to: int): Session {
    MoveTo(s, RunEnd(s.buf, to, s.start + s.size))
  }

  // ---------------------------------------------------------------------
  // Entering the window

  function Frames(skb: Option<Skb>): seq<Skb> {
    if skb.Some? then [skb.value] else []
  }

  function Single(m: Msdu, skb: Option<Skb>): Mpdu {
    Mpdu(m.pn, m.cipher, m.last, 1, Frames(skb))
  }

  predicate SamePn(p: Mpdu, m: Msdu) {
    Protected(p.cipher) ==> p.pn == m.pn
  }

  /** insert_msdu accepts a first MSDU, or a further MSDU of an unfinished MPDU. */
  predicate CanInsert(b: Buffer, u: int, m: Msdu) {
    u in b ==> !b[u].last && SamePn(b[u], m)
  }

  function Join(p: Mpdu, m: Msdu, skb: Option<Skb>): Mpdu {
    p.(frames := p.frames + Frames(skb), count := p.count + 1, last := m.last)
  }

  function Inserted(b: Buffer, u: int, m: Msdu, skb: Option<Skb>): Buffer {
    b[u := if u in b then Join(b[u], m, skb) else Single(m, skb)]
  }

  function Insert(s: Session, u: int, m: Msdu, skb: Option<Skb>): Session {
    s.(buf := Inserted(s.buf, u, m, skb),
       tail := if Geq(m.sn, s.tail) then m.sn else s.tail)
  }

  function FreeSkb(k: Sink, skb: Option<Skb>): Sink {
    k.(freed := k.freed + multiset(Frames(skb)))
  }

  // ---------------------------------------------------------------------
  // Steps

  /** mod_reorder_timer */
  function ModTimer(s: Session): Session {
    if s.buf != map[] then s.(armed := true) else s.(armed := false, timeouts := 0)
  }

  function Bypass(s: Session, skb: Option<Skb>): Session
    requires skb.Some?
  {
    s.(sink := s.sink.(out := s.sink.out + [Bypassed(skb.value)]))
  }

  function Reject(s: Session, skb: Option<Skb>): Session {
    var s' := s.(sink := FreeSkb(s.sink, skb));
    if s.buf == map[] then s'.(armed := false, timeouts := 0) else s'
  }

  /** send_order_msdu: the expected MPDU arrives whole while nothing is buffered. */
  function FastPath(s: Session, m: Msdu, skb: Option<Skb>): Session {
    s.(init := 0, start := s.start + 1, tail := Sub(s.start + 1, 1),
       sink := Deliver(s.sink, s.start, Single(m, skb)))
  }

  predicate OnFastPath(s: Session, m: Msdu) {
    m.sn == s.start % MODULUS && s.buf == map[] && m.last
  }

  /** The window after making room for `u`. */
  function MakeRoom(s: Session, u: int): Session {
    if s.start + s.size <= u then Advance(s, u - s.size + 1) else s
  }

  function Settle(s: Session, before: int, u: int, last: bool): Session {
    if last && u == s.start then ModTimer(Drain(s))
    else if !s.armed || s.start != before then ModTimer(s)
    else s
  }

  function InWindow(s: Session, m: Msdu, skb: Option<Skb>): Session {
    var u := Unwrap(s.start, m.sn);
    var s' := MakeRoom(s.(init := 0), u);
    if CanInsert(s'.buf, u, m) then Settle(Insert(s', u, m, skb), s.start, u, m.last)
    else Reject(s', skb)
  }

  /** The frame is older than the window and is passed up without entering it. */
  predicate Bypasses(s: Session, m: Msdu) {
    !Geq(m.sn, s.start % MODULUS) && !Geq(m.sn, s.init)
  }

  function GeneralPath(s: Session, m: Msdu, skb: Option<Skb>): Session
    requires skb.None? ==> !Bypasses(s, m)
  {
    if Geq(m.sn, s.start % MODULUS) then InWindow(s, m, skb)
    else if Bypasses(s, m) then
      (if s.armed then Bypass(s, skb) else ModTimer(Bypass(s, skb)))
    else Reject(s, skb)
  }

  /** reorder_msdu_process */
  function Arrive(s: Session, m: Msdu, skb: Option<Skb>): Session
    requires skb.None? ==> s.active && !Bypasses(s, m)
  {
    if !s.active then Bypass(s, skb)
    else if OnFastPath(s, m) then FastPath(s, m, skb)
    else GeneralPath(s, m, skb)
  }

  /** One past the last number the timeout scan looks at. */
  function ScanEnd(s: Session): (e: int)
    ensures s.start <= e <= s.start + HALF + 1
  {
    if Leq(s.start % MODULUS, s.tail) then s.start + Sub(s.tail, s.start) + 1 else s.start
  }

  /** ba_reorder_timeout */
  function Timeout(s: Session): Session {
    var s0 := s.(due := false);
    if s.active && s.buf != map[] && !s.armed then
      var s1 := Advance(s0.(init := 0), FirstComplete(s.buf, s.start, ScanEnd(s)));
      ModTimer(if s.timeouts + 1 > MAX_TIMEOUT_CNT
               then s1.(active := false, timeouts := 0)
               else s1.(timeouts := s.timeouts + 1))
    else s0
  }

  function HeldIn(b: Buffer, lo: int, hi: int): multiset<Skb>
    decreases hi - lo
  {
    if hi <= lo then multiset{}
    else HeldIn(b, lo, hi - 1) + (if hi - 1 in b then multiset(b[hi - 1].frames) else multiset{})
  }

  function Held(s: Session): multiset<Skb> {
    HeldIn(s.buf, s.start, s.start + s.size)
  }

  /** Deleting the agreement: a DELBA drains first, removing the peer does not.
      A session that is no longer active is released together with what it still holds. */
  function Delete(s: Session, drain: bool): Session {
    var s0 := s.(armed := false, due := false, deleted := true);
    if s.active then
      var s1 := if drain then Drain(s0) else s0;
      s1.(active := false, timeouts := 0, buf := map[], sink := s1.sink.(freed := s1.sink.freed + Held(s1)))
    else s0.(buf := map[], leaked := s.leaked + Held(s))
  }

  datatype Event =
    | Receive(m: Msdu, skb: Option<Skb>)  // a frame, or a hardware filter event without one
    | TimerExpires
    | TimerCallback
    | ResetPnRequest
    | DeleteSession(drain: bool)

  /** A session as ADDBA and activation leave it. */
  function Fresh(start: Seq12, size: nat): Session {
    Session(size, start, start, Sub(start, 1), map[], Sink(Pn(0, 0), false, [], multiset{}),
            true, 0, false, false, false, multiset{})
  }

  /** What the environment guarantees of an event. A filter event carries no buffer, so it
      must find an active session and a number the driver does not pass up directly; an MPDU
      has fewer MSDUs than its 16-bit counter can count. */
  predicate Enabled(s: Session, e: Event) {
    && !s.deleted
    && match e
       case Receive(m, skb) =>
         && (skb.None? ==> s.active && !Bypasses(s, m))
         && (forall u :: u in s.buf && u % MODULUS == m.sn ==> s.buf[u].count < 0xffff)
       case TimerExpires => s.armed
       case TimerCallback => s.due
       case ResetPnRequest => true
       case DeleteSession(_) => true
  }

  function Step(s: Session, e: Event): Session
    requires Enabled(s, e)
  {
    match e
    case Receive(m, skb) => Arrive(s, m, skb)
    case TimerExpires => s.(armed := false, due := true)
    case TimerCallback => Timeout(s)
    case ResetPnRequest => s.(sink := s.sink.(resetPn := true))
    case DeleteSession(drain) => Delete(s, drain)
  }

  predicate EnabledRun(s: Session, es: seq<Event>)
    decreases |es|
  {
    es == [] || (Enabled(s, es[0]) && EnabledRun(Step(s, es[0]), es[1..]))
  }

  function Run(s: Session, es: seq<Event>): Session
    requires EnabledRun(s, es)
    decreases |es|
  {
    if es == [] then s else Run(Step(s, es[0]), es[1..])
  }
}

/** The counters of a mode's transmit queues step by step (WIFI/tx_msg.c). The lists are changed under
    a lock, but l_num and mode_list_num mostly follow after the unlock, so enqueuing, splitting,
    dropping and flushing interleave. Each locked region and each counter update is one step here;
    only lengths are kept. */
module TxSteps {

  datatype Queue = Queue(len: nat, num: int)

  /** What an operation has still to do to a counter, with the number of packets it `owes`: those it
      has taken from the list. */
  datatype Task =
    | AddTotal                              // atomic_inc(mode_list_num) of sprdwl_tx_msg_func
    | SubNum(k: nat, n: int, owes: nat)     // atomic_sub(n, l_num) after add_xmit_list_tail
    | SubTotal(n: int, owes: nat)           // atomic_sub(n, mode_list_num)
    | FlushTotal(k: nat, owes: nat)         // sprdwl_flush_tx_qoslist: mode_list_num -= l_num
    | ClearNum(k: nat, owes: nat)           // l_num := 0
    | Drop(k: nat, n: int, done: nat)       // handle_tx_timeout: l_num -= n at the end
    | Sweep(owes: nat)                      // sprdwl_flush_mode_txlist: mode_list_num := 0 at the end

  datatype State = State(queues: seq<Queue>, total: int, tasks: seq<Task>)

  datatype Event =
    | Enqueue(k: nat)               // sprdwl_queue_data_msg_buf
    | Cut(k: nat, n: nat)           // add_xmit_list_tail
    | Flush(k: nat)                 // the locked part of sprdwl_flush_tx_qoslist
    | SweepStart                    // sprdwl_flush_mode_txlist is called
    | SweepQueue(i: nat, k: nat)    // its locked part for one queue
    | DropStart(k: nat, n: nat)     // handle_tx_timeout settles how many to drop
    | DropOne(i: nat)               // it drops one
    | Finish(i: nat)                // an operation does its next counter update

  // ---------------------------------------------------------------------
  // What the counters should be

  datatype Counter = Num(k: nat) | Total

  function Owes(t: Task, c: Counter): int {
    match t
    case AddTotal => if c.Total? then -1 else 0
    case SubNum(k, _, o) => if c == Num(k) then o else 0
    case SubTotal(_, o) => if c.Total? then o else 0
    case FlushTotal(k, o) => if c.Total? || c == Num(k) then o else 0
    case ClearNum(k, o) => if c == Num(k) then o else 0
    case Drop(k, _, d) => if c == Num(k) then d else 0
    case Sweep(o) => if c.Total? then o else 0
  }

  function Owed(ts: seq<Task>, c: Counter): int {
    if ts == [] then 0 else Owes(ts[0], c) + Owed(ts[1..], c)
  }

  function Queued(qs: seq<Queue>): nat {
    if qs == [] then 0 else qs[0].len + Queued(qs[1..])
  }

  /** Counter `c` exists. */
  predicate Has(s: State, c: Counter) {
    c.Num? ==> c.k < |s.queues|
  }

  function Value(s: State, c: Counter): int
    requires Has(s, c)
  {
    if c.Total? then s.total else s.queues[c.k].num
  }

  function Packets(s: State, c: Counter): int
    requires Has(s, c)
  {
    if c.Total? then Queued(s.queues) else s.queues[c.k].len
  }

  /** Every counter is right up to what operations under way have still to take off it. */
  ghost predicate Right(s: State) {
    forall c :: Has(s, c) ==> Value(s, c) == Packets(s, c) + Owed(s.tasks, c)
  }

  /** Nothing is under way, so the counters are the lengths. */
  lemma QuietMeansRight(s: State)
    requires Right(s) && s.tasks == []
    ensures s.total == Queued(s.queues) && forall k :: 0 <= k < |s.queues| ==> s.queues[k].num == s.queues[k].len
  {
    assert Has(s, Total) && Value(s, Total) == s.total;
    forall k | 0 <= k < |s.queues| ensures s.queues[k].num == s.queues[k].len {
      assert Has(s, Num(k)) && Value(s, Num(k)) == s.queues[k].num;
    }
  }

  // ---------------------------------------------------------------------
  // Steps

  predicate TaskOk(t: Task, n: nat) {
    t.SubNum? || t.FlushTotal? || t.ClearNum? || t.Drop? ==> t.k < n
  }

  predicate TasksOk(s: State) {
    forall i :: 0 <= i < |s.tasks| ==> TaskOk(s.tasks[i], |s.queues|)
  }

  predicate Possible(s: State, e: Event) {
    match e
    case Enqueue(k) => k < |s.queues|
    case Cut(k, _) => k < |s.queues|
    case Flush(k) => k < |s.queues|
    case SweepStart => true
    case SweepQueue(i, k) => i < |s.tasks| && s.tasks[i].Sweep? && k < |s.queues|
    case DropStart(k, n) => k < |s.queues|
    case DropOne(i) =>
      && i < |s.tasks| && s.tasks[i].Drop? && s.tasks[i].done < s.tasks[i].n
      && s.tasks[i].k < |s.queues| && s.queues[s.tasks[i].k].len > 0
    case Finish(i) => i < |s.tasks|
  }

  function Without(ts: seq<Task>, i: nat): seq<Task>
    requires i < |ts|
  {
    ts[..i] + ts[i + 1..]
  }

  function SetLen(qs: seq<Queue>, k: nat, len: nat): seq<Queue>
    requires k < |qs|
  {
    qs[k := qs[k].(len := len)]
  }

  function SetNum(qs: seq<Queue>, k: nat, num: int): seq<Queue>
    requires k < |qs|
  {
    qs[k := qs[k].(num := num)]
  }

  /** A task's counter update. */
  function Done(s: State, i: nat): State
    requires TasksOk(s) && i < |s.tasks|
  {
    var t, rest := s.tasks[i], Without(s.tasks, i);
    assert TaskOk(t, |s.queues|);
    match t
    case AddTotal => s.(total := s.total + 1, tasks := rest)
    case SubNum(k, n, _) => s.(queues := SetNum(s.queues, k, s.queues[k].num - n), tasks := rest)
    case SubTotal(n, _) => s.(total := s.total - n, tasks := rest)
    case FlushTotal(k, o) => s.(total := s.total - s.queues[k].num, tasks := s.tasks[i := ClearNum(k, o)])
    case ClearNum(k, _) => s.(queues := SetNum(s.queues, k, 0), tasks := rest)
    case Drop(k, n, _) => s.(queues := SetNum(s.queues, k, s.queues[k].num - n), tasks := rest)
    case Sweep(_) => s.(total := 0, tasks := rest)
  }

  function Step(s: State, e: Event): State
    requires TasksOk(s) && Possible(s, e)
  {
    match e
    case Enqueue(k) =>
      var q := s.queues[k];
      s.(queues := s.queues[k := Queue(q.len + 1, q.num + 1)], tasks := s.tasks + [AddTotal])
    case Cut(k, n) =>
      var moved := if n <= s.queues[k].len then n else 0;
      s.(queues := SetLen(s.queues, k, s.queues[k].len - moved),
         tasks := s.tasks + [SubNum(k, n, moved)] + [SubTotal(n, moved)])
    case Flush(k) =>
      s.(queues := SetLen(s.queues, k, 0), tasks := s.tasks + [FlushTotal(k, s.queues[k].len)])
    case SweepStart => s.(tasks := s.tasks + [Sweep(0)])
    case SweepQueue(i, k) =>
      var len := s.queues[k].len;
      s.(queues := SetLen(s.queues, k, 0),
         tasks := s.tasks[i := Sweep(s.tasks[i].owes + len)] + [ClearNum(k, len)])
    case DropStart(k, n) => s.(tasks := s.tasks + [Drop(k, n, 0)])
    case DropOne(i) =>
      var t := s.tasks[i];
      s.(queues := SetLen(s.queues, t.k, s.queues[t.k].len - 1),
         tasks := s.tasks[i := t.(done := t.done + 1)] + [SubTotal(1, 1)])
    case Finish(i) => Done(s, i)
  }

  lemma StepTasksOk(s: State, e: Event)
    requires TasksOk(s) && Possible(s, e)
    ensures TasksOk(Step(s, e)) && |Step(s, e).queues| == |s.queues|
  {
  }

  // ---------------------------------------------------------------------
  // When a step keeps the counters right

  /** The update takes off the counter exactly what the operation took from the list. */
  predicate Exact(s: State, t: Task)
    requires TaskOk(t, |s.queues|)
  {
    match t
    case AddTotal => true
    case SubNum(_, n, o) => n == o
    case SubTotal(n, o) => n == o
    case FlushTotal(k, o) => s.queues[k].num == o
    case ClearNum(k, o) => s.queues[k].num == o
    case Drop(_, n, d) => n == d
    case Sweep(o) => s.total == o
  }

  lemma {:induction false} OwedAppend(ts: seq<Task>, t: Task, c: Counter)
    ensures Owed(ts + [t], c) == Owed(ts, c) + Owes(t, c)
  {
    if ts == [] {
      assert ts + [t] == [t] && [t][1..] == [];
    } else {
      OwedAppend(ts[1..], t, c);
      assert (ts + [t])[1..] == ts[1..] + [t];
    }
    hide Owes;
  }

  lemma {:induction false} OwedChange(ts: seq<Task>, i: nat, t: Task, c: Counter)
    requires i < |ts|
    ensures Owed(ts[i := t], c) == Owed(ts, c) - Owes(ts[i], c) + Owes(t, c)
    ensures Owed(Without(ts, i), c) == Owed(ts, c) - Owes(ts[i], c)
  {
    hide Owes;
    if i == 0 {
      assert ts[0 := t][1..] == ts[1..] && Without(ts, 0) == ts[1..];
    } else {
      OwedChange(ts[1..], i - 1, t, c);
      assert ts[i := t][1..] == ts[1..][i - 1 := t];
      assert Without(ts, i)[1..] == Without(ts[1..], i - 1) && Without(ts, i)[0] == ts[0];
    }
  }

  lemma {:induction false} QueuedChange(qs: seq<Queue>, k: nat, q: Queue)
    requires k < |qs|
    ensures Queued(qs[k := q]) == Queued(qs) - qs[k].len + q.len
  {
    if k == 0 {
      assert qs[0 := q][1..] == qs[1..];
    } else {
      QueuedChange(qs[1..], k - 1, q);
      assert qs[k := q][1..] == qs[1..][k - 1 := q];
    }
  }

  /** The error of a counter: what it shows beyond what it should. */
  function Error(s: State, c: Counter): int
    requires Has(s, c)
  {
    Value(s, c) - Packets(s, c) - Owed(s.tasks, c)
  }

  /** The error an update adds to a counter. */
  function Adds(s: State, t: Task, c: Counter): int
    requires TaskOk(t, |s.queues|)
  {
    match t
    case AddTotal => 0
    case SubNum(k, n, o) => if c == Num(k) then o - n else 0
    case SubTotal(n, o) => if c.Total? then o - n else 0
    case FlushTotal(k, o) => if c.Total? then o - s.queues[k].num else 0
    case ClearNum(k, o) => if c == Num(k) then o - s.queues[k].num else 0
    case Drop(k, n, d) => if c == Num(k) then d - n else 0
    case Sweep(o) => if c.Total? then o - s.total else 0
  }

  lemma DoneError(s: State, i: nat, c: Counter)
    requires TasksOk(s) && i < |s.tasks| && Has(s, c)
    ensures TaskOk(s.tasks[i], |s.queues|) && Has(Done(s, i), c)
    ensures Error(Done(s, i), c) == Error(s, c) + Adds(s, s.tasks[i], c)
  {
    hide Owed, Queued;
    var t := s.tasks[i];
    assert TaskOk(t, |s.queues|);
    OwedChange(s.tasks, i, if t.FlushTotal? then ClearNum(t.k, t.owes) else t, c);
    if t.SubNum? || t.ClearNum? || t.Drop? {
      var num := if t.ClearNum? then 0 else s.queues[t.k].num - t.n;
      QueuedChange(s.queues, t.k, s.queues[t.k].(num := num));
    }
  }

  lemma EventError(s: State, e: Event, c: Counter)
    requires TasksOk(s) && Possible(s, e) && !e.Finish? && Has(s, c)
    ensures Has(Step(s, e), c) && Error(Step(s, e), c) == Error(s, c)
  {
    hide Owed, Queued, Without;
    var ts, s' := s.tasks, Step(s, e);
    match e {
      case Enqueue(k) =>
        QueuedChange(s.queues, k, s'.queues[k]);
        OwedAppend(ts, AddTotal, c);
      case Cut(k, n) =>
        var moved := if n <= s.queues[k].len then n else 0;
        QueuedChange(s.queues, k, s'.queues[k]);
        OwedAppend(ts, SubNum(k, n, moved), c);
        OwedAppend(ts + [SubNum(k, n, moved)], SubTotal(n, moved), c);
      case Flush(k) =>
        QueuedChange(s.queues, k, s'.queues[k]);
        OwedAppend(ts, FlushTotal(k, s.queues[k].len), c);
      case SweepStart => OwedAppend(ts, Sweep(0), c);
      case SweepQueue(i, k) =>
        var len := s.queues[k].len;
        QueuedChange(s.queues, k, s'.queues[k]);
        OwedChange(ts, i, Sweep(ts[i].owes + len), c);
        OwedAppend(ts[i := Sweep(ts[i].owes + len)], ClearNum(k, len), c);
      case DropStart(k, n) => OwedAppend(ts, Drop(k, n, 0), c);
      case DropOne(i) =>
        var t := ts[i].(done := ts[i].done + 1);
        QueuedChange(s.queues, t.k, s'.queues[t.k]);
        OwedChange(ts, i, t, c);
        OwedAppend(ts[i := t], SubTotal(1, 1), c);
    }
  }

  lemma RightMeans(s: State)
    ensures Right(s) <==> forall c :: Has(s, c) ==> Error(s, c) == 0
  {
  }

  /** Whatever interleaves, a step keeps the counters right exactly when it is not an update that takes
      off something else than the operation took from the list. */
  lemma StepExactly(s: State, e: Event)
    requires TasksOk(s) && Possible(s, e) && Right(s)
    ensures e.Finish? ==> TaskOk(s.tasks[e.i], |s.queues|)
    ensures Right(Step(s, e)) <==> (e.Finish? ==> Exact(s, s.tasks[e.i]))
  {
    hide Right, Error, Step, Done, Owed;
    var s' := Step(s, e);
    StepTasksOk(s, e);
    RightMeans(s);
    RightMeans(s');
    if !e.Finish? {
      forall c | Has(s', c) ensures Error(s', c) == 0 {
        EventError(s, e, c);
      }
    } else {
      StepIsDone(s, e.i);
      var t := s.tasks[e.i];
      assert TaskOk(t, |s.queues|);
      forall c | Has(s', c) ensures Error(s', c) == Adds(s, t, c) {
        DoneError(s, e.i, c);
      }
      AddsExactly(s, t);
    }
  }

  lemma StepIsDone(s: State, i: nat)
    requires TasksOk(s) && i < |s.tasks|
    ensures Step(s, Finish(i)) == Done(s, i)
  {
    hide Done;
  }

  lemma AddsExactly(s: State, t: Task)
    requires TaskOk(t, |s.queues|)
    ensures Exact(s, t) <==> forall c :: Has(s, c) ==> Adds(s, t, c) == 0
  {
    if forall c :: Has(s, c) ==> Adds(s, t, c) == 0 {
      assert Has(s, Total) && Adds(s, t, Total) == 0;
      if t.SubNum? || t.ClearNum? || t.Drop? {
        assert Has(s, Num(t.k)) && Adds(s, t, Num(t.k)) == 0;
      }
    }
  }

  // ---------------------------------------------------------------------
  // Runs

  predicate PossibleRun(s: State, es: seq<Event>)
    requires TasksOk(s)
    decreases |es|
  {
    es == [] || (Possible(s, es[0]) && (StepTasksOk(s, es[0]); PossibleRun(Step(s, es[0]), es[1..])))
  }

  function Run(s: State, es: seq<Event>): (r: State)
    requires TasksOk(s) && PossibleRun(s, es)
    ensures TasksOk(r)
    decreases |es|
  {
    if es == [] then s
    else
      StepTasksOk(s, es[0]);
      Run(Step(s, es[0]), es[1..])
  }

  predicate ExactRun(s: State, es: seq<Event>)
    requires TasksOk(s) && PossibleRun(s, es)
    decreases |es|
  {
    es == []
    || (StepTasksOk(s, es[0]);
        && (es[0].Finish? ==> (assert TaskOk(s.tasks[es[0].i], |s.queues|); Exact(s, s.tasks[es[0].i])))
        && ExactRun(Step(s, es[0]), es[1..]))
  }

  ghost predicate AlwaysRight(s: State, es: seq<Event>)
    requires TasksOk(s) && PossibleRun(s, es)
    decreases |es|
  {
    Right(s) && (es == [] || (StepTasksOk(s, es[0]); AlwaysRight(Step(s, es[0]), es[1..])))
  }

  /** Over every interleaving the counters stay right, up to what is under way, if and only if every
      counter update is exact; when nothing is under way any more they are then the lengths. */
  lemma {:induction false} CountersExactly(s: State, es: seq<Event>)
    requires TasksOk(s) && PossibleRun(s, es) && Right(s)
    ensures AlwaysRight(s, es) <==> ExactRun(s, es)
    ensures ExactRun(s, es) ==> Right(Run(s, es))
    decreases |es|
  {
    hide Step, Right, Exact, Possible, TasksOk;
    if es != [] {
      StepTasksOk(s, es[0]);
      StepExactly(s, es[0]);
      if Right(Step(s, es[0])) {
        CountersExactly(Step(s, es[0]), es[1..]);
      } else {
        assert !AlwaysRight(Step(s, es[0]), es[1..]);
      }
    }
  }

  /** The other operations owe l_num nothing. */
  predicate NoOtherOwes(ts: seq<Task>, i: nat, c: Counter) {
    forall j :: 0 <= j < |ts| && j != i ==> Owes(ts[j], c) == 0
  }

  lemma {:induction false} OwedNothing(ts: seq<Task>, c: Counter)
    requires c.Num?
    ensures 0 <= Owed(ts, c) && (Owed(ts, c) == 0 <==> forall j :: 0 <= j < |ts| ==> Owes(ts[j], c) == 0)
  {
    if ts != [] {
      OwedNothing(ts[1..], c);
      if forall j :: 0 <= j < |ts[1..]| ==> Owes(ts[1..][j], c) == 0 {
        assert forall j :: 0 < j < |ts| ==> ts[j] == ts[1..][j - 1];
      }
    }
  }

  lemma OthersOwe(ts: seq<Task>, i: nat, c: Counter)
    requires c.Num? && i < |ts|
    ensures Owed(ts, c) >= Owes(ts[i], c)
    ensures Owed(ts, c) == Owes(ts[i], c) <==> NoOtherOwes(ts, i, c)
  {
    hide Owes, Owed;
    var rest := Without(ts, i);
    OwedChange(ts, i, ts[i], c);
    OwedNothing(rest, c);
    assert forall j :: 0 <= j < |rest| ==> rest[j] == if j < i then ts[j] else ts[j + 1];
    if forall j :: 0 <= j < |rest| ==> Owes(rest[j], c) == 0 {
      forall j | 0 <= j < |ts| && j != i ensures Owes(ts[j], c) == 0 {
        assert ts[j] == rest[if j < i then j else j - 1];
      }
    }
  }

  /** In a right state the updates after a flush are exact if and only if nothing is queued and no
      other operation owes that counter anything: nothing was enqueued since the list was emptied. */
  lemma ClearExactly(s: State, i: nat)
    requires TasksOk(s) && Right(s) && i < |s.tasks| && (s.tasks[i].ClearNum? || s.tasks[i].FlushTotal?)
    ensures TaskOk(s.tasks[i], |s.queues|)
    ensures var t := s.tasks[i];
      Exact(s, t) <==> s.queues[t.k].len == 0 && NoOtherOwes(s.tasks, i, Num(t.k))
  {
    hide Owed, NoOtherOwes;
    assert TaskOk(s.tasks[i], |s.queues|);
    var c := Num(s.tasks[i].k);
    assert Has(s, c) && Value(s, c) == s.queues[c.k].num;
    OthersOwe(s.tasks, i, c);
  }

  // ---------------------------------------------------------------------
  // Without flushes

  predicate Steady(t: Task) {
    match t
    case AddTotal => true
    case SubNum(_, n, o) => n == o
    case SubTotal(n, o) => n == o
    case Drop(_, _, _) => true
    case _ => false
  }

  /** No flush, no cut that asks for more than there is, and no drop that stops short. */
  predicate Gentle(s: State, e: Event)
    requires Possible(s, e)
  {
    match e
    case Cut(k, n) => n <= s.queues[k].len
    case Flush(_) => false
    case SweepStart => false
    case SweepQueue(_, _) => false
    case Finish(i) => s.tasks[i].Drop? ==> s.tasks[i].n == s.tasks[i].done
    case _ => true
  }

  predicate GentleRun(s: State, es: seq<Event>)
    requires TasksOk(s) && PossibleRun(s, es)
    decreases |es|
  {
    es == [] || (Gentle(s, es[0]) && (StepTasksOk(s, es[0]); GentleRun(Step(s, es[0]), es[1..])))
  }

  predicate AllSteady(s: State) {
    forall i :: 0 <= i < |s.tasks| ==> Steady(s.tasks[i])
  }

  lemma GentleStep(s: State, e: Event)
    requires TasksOk(s) && Possible(s, e) && AllSteady(s) && Gentle(s, e)
    ensures AllSteady(Step(s, e))
    ensures e.Finish? ==> TaskOk(s.tasks[e.i], |s.queues|) && Exact(s, s.tasks[e.i])
  {
  }

  /** Enqueuing may interleave with the splitter and with timeout drops in any way: without flushes
      the counters stay right. */
  lemma {:induction false} GentleTheorem(s: State, es: seq<Event>)
    requires TasksOk(s) && PossibleRun(s, es) && Right(s) && AllSteady(s) && GentleRun(s, es)
    ensures Right(Run(s, es))
    decreases |es|
  {
    hide Step, Right, Exact, Possible, TasksOk, AllSteady, Gentle;
    if es != [] {
      StepTasksOk(s, es[0]);
      StepExactly(s, es[0]);
      GentleStep(s, es[0]);
      GentleTheorem(Step(s, es[0]), es[1..]);
    }
  }

  // ---------------------------------------------------------------------
  // The transmit thread

  /** The queues with what the transmit thread has counted in this round and not yet cut. */
  datatype Thread = Thread(s: State, counts: map<nat, int>)

  datatype Act =
    | Do(e: Event)
    | Count(k: nat)   // the thread reads l_num into p_list_num
    | NewRound

  predicate Dropping(s: State) {
    exists i :: 0 <= i < |s.tasks| && s.tasks[i].Drop?
  }

  /** No update of l_num of queue `k` is outstanding. */
  predicate Settled(s: State, k: nat) {
    forall i :: 0 <= i < |s.tasks| ==> Owes(s.tasks[i], Num(k)) == 0
  }

  /** What the program of the thread guarantees, while others may enqueue at any point: it does one
      operation at a time, drops at most the l_num it has just read, leaves the drop loop only when
      done or at the end of the list, counts a queue after dropping from it, and cuts at most what
      it counted. */
  predicate Allowed(t: Thread, a: Act) {
    match a
    case Count(k) => k < |t.s.queues| && !Dropping(t.s) && Settled(t.s, k)
    case NewRound => true
    case Do(e) =>
      && Possible(t.s, e)
      && match e
         case Enqueue(_) => true
         case Cut(k, n) => k in t.counts && n <= t.counts[k] && !Dropping(t.s)
         case DropStart(k, n) => k !in t.counts && n <= t.s.queues[k].num && !Dropping(t.s) && Settled(t.s, k)
         case DropOne(_) => true
         case Finish(i) =>
           var d := t.s.tasks[i];
           d.Drop? ==> d.n == d.done || (d.k < |t.s.queues| && t.s.queues[d.k].len == 0)
         case _ => false
  }

  function Acted(t: Thread, a: Act): Thread
    requires TasksOk(t.s) && Allowed(t, a)
  {
    match a
    case Count(k) => t.(counts := t.counts[k := t.s.queues[k].num])
    case NewRound => t.(counts := map[])
    case Do(e) => Thread(Step(t.s, e), if e.Cut? then t.counts - {e.k} else t.counts)
  }

  /** What was counted is still there, and a drop under way will find what it has left to drop. */
  predicate Backed(t: Thread) {
    && (forall k :: k in t.counts ==> k < |t.s.queues| && t.counts[k] <= t.s.queues[k].len)
    && (forall i, j :: 0 <= i < j < |t.s.tasks| ==> !(t.s.tasks[i].Drop? && t.s.tasks[j].Drop?))
    && (forall i :: 0 <= i < |t.s.tasks| && t.s.tasks[i].Drop? ==>
          var d := t.s.tasks[i];
          d.k < |t.s.queues| && d.k !in t.counts && d.done <= d.n && d.n - d.done <= t.s.queues[d.k].len)
  }

  ghost predicate ThreadInv(t: Thread) {
    TasksOk(t.s) && Right(t.s) && AllSteady(t.s) && Backed(t)
  }

  lemma SettledCount(s: State, k: nat)
    requires Right(s) && k < |s.queues| && Settled(s, k)
    ensures s.queues[k].num == s.queues[k].len
  {
    OwedNothing(s.tasks, Num(k));
    assert Has(s, Num(k)) && Value(s, Num(k)) == s.queues[k].num;
  }

  /** So its cuts fit and its drops complete. */
  lemma AllowedIsGentle(t: Thread, e: Event)
    requires TasksOk(t.s) && Backed(t) && Allowed(t, Do(e))
    ensures Gentle(t.s, e)
  {
  }

  lemma BackedStep(t: Thread, a: Act)
    requires TasksOk(t.s) && Right(t.s) && Backed(t) && Allowed(t, a)
    ensures Backed(Acted(t, a))
  {
    hide Right, Owed, Owes;
    match a {
      case Count(k) => SettledCount(t.s, k);
      case NewRound =>
      case Do(e) =>
        if e.DropStart? {
          SettledCount(t.s, e.k);
        }
        BackedEvent(t, e);
    }
  }

  lemma BackedEvent(t: Thread, e: Event)
    requires TasksOk(t.s) && Backed(t) && Allowed(t, Do(e))
    requires e.DropStart? ==> t.s.queues[e.k].num == t.s.queues[e.k].len
    ensures Backed(Acted(t, Do(e)))
  {
    hide Backed, Acted, Settled, Dropping;
    match e {
      case Enqueue(k) => BackedEnqueue(t, k);
      case Cut(k, n) => BackedCut(t, k, n);
      case DropStart(k, n) => BackedDropStart(t, k, n);
      case DropOne(i) => BackedDropOne(t, i);
      case Finish(i) => BackedFinish(t, i);
      case _ =>
    }
  }

  lemma BackedEnqueue(t: Thread, k: nat)
    requires TasksOk(t.s) && Backed(t) && Allowed(t, Do(Enqueue(k)))
    ensures Backed(Acted(t, Do(Enqueue(k))))
  {
  }

  lemma BackedCut(t: Thread, k: nat, n: nat)
    requires TasksOk(t.s) && Backed(t) && Allowed(t, Do(Cut(k, n)))
    ensures Backed(Acted(t, Do(Cut(k, n))))
  {
  }

  lemma BackedDropStart(t: Thread, k: nat, n: nat)
    requires TasksOk(t.s) && Backed(t) && Allowed(t, Do(DropStart(k, n))) && t.s.queues[k].num == t.s.queues[k].len
    ensures Backed(Acted(t, Do(DropStart(k, n))))
  {
  }

  lemma BackedDropOne(t: Thread, i: nat)
    requires TasksOk(t.s) && Backed(t) && Allowed(t, Do(DropOne(i)))
    ensures Backed(Acted(t, Do(DropOne(i))))
  {
  }

  predicate SameLens(qs: seq<Queue>, qs': seq<Queue>) {
    |qs'| == |qs| && forall k :: 0 <= k < |qs| ==> qs'[k].len == qs[k].len
  }

  /** A counter update leaves the lists alone and ends or replaces its task. */
  lemma DoneShape(s: State, i: nat)
    requires TasksOk(s) && i < |s.tasks|
    ensures var s' := Done(s, i);
      && SameLens(s.queues, s'.queues)
      && (s'.tasks == Without(s.tasks, i)
          || (s.tasks[i].FlushTotal? && s'.tasks == s.tasks[i := ClearNum(s.tasks[i].k, s.tasks[i].owes)]))
  {
    hide Without;
  }

  lemma BackedWithout(t: Thread, i: nat)
    requires Backed(t) && i < |t.s.tasks|
    ensures Backed(t.(s := t.s.(tasks := Without(t.s.tasks, i))))
  {
    var ts, rest := t.s.tasks, Without(t.s.tasks, i);
    assert forall j :: 0 <= j < |rest| ==> rest[j] == ts[if j < i then j else j + 1];
  }

  lemma BackedSame(t: Thread, t': Thread)
    requires Backed(t) && t'.counts == t.counts && t'.s.tasks == t.s.tasks && SameLens(t.s.queues, t'.s.queues)
    ensures Backed(t')
  {
  }

  lemma BackedReplaced(t: Thread, i: nat, task: Task)
    requires Backed(t) && i < |t.s.tasks| && !task.Drop?
    ensures Backed(t.(s := t.s.(tasks := t.s.tasks[i := task])))
  {
  }

  lemma BackedFinish(t: Thread, i: nat)
    requires TasksOk(t.s) && Backed(t) && Allowed(t, Do(Finish(i)))
    ensures Backed(Acted(t, Do(Finish(i))))
  {
    hide Backed, Done, Without, SameLens;
    DoneShape(t.s, i);
    StepIsDone(t.s, i);
    var s', task := Done(t.s, i), t.s.tasks[i];
    BackedWithout(t, i);
    if s'.tasks == Without(t.s.tasks, i) {
      BackedSame(t.(s := t.s.(tasks := Without(t.s.tasks, i))), Thread(s', t.counts));
    } else {
      BackedReplaced(t, i, ClearNum(task.k, task.owes));
      BackedSame(t.(s := t.s.(tasks := t.s.tasks[i := ClearNum(task.k, task.owes)])), Thread(s', t.counts));
    }
  }

  predicate AllowedRun(t: Thread, acts: seq<Act>)
    requires TasksOk(t.s)
    decreases |acts|
  {
    acts == [] || (Allowed(t, acts[0]) && (ActTasksOk(t, acts[0]); AllowedRun(Acted(t, acts[0]), acts[1..])))
  }

  lemma ActTasksOk(t: Thread, a: Act)
    requires TasksOk(t.s) && Allowed(t, a)
    ensures TasksOk(Acted(t, a).s)
  {
    hide Step;
    if a.Do? {
      StepTasksOk(t.s, a.e);
    }
  }

  function RunActs(t: Thread, acts: seq<Act>): Thread
    requires TasksOk(t.s) && AllowedRun(t, acts)
    decreases |acts|
  {
    if acts == [] then t
    else
      ActTasksOk(t, acts[0]);
      RunActs(Acted(t, acts[0]), acts[1..])
  }

  lemma ActKeeps(t: Thread, a: Act)
    requires ThreadInv(t) && Allowed(t, a)
    ensures ThreadInv(Acted(t, a))
  {
    hide Right, Backed, Exact, Step, AllSteady, Gentle, TasksOk, Allowed;
    ActTasksOk(t, a);
    BackedStep(t, a);
    if a.Do? {
      AllowedPossible(t, a.e);
      AllowedIsGentle(t, a.e);
      StepExactly(t.s, a.e);
      GentleStep(t.s, a.e);
    }
  }

  lemma AllowedPossible(t: Thread, e: Event)
    requires Allowed(t, Do(e))
    ensures Possible(t.s, e)
  {
  }

  /** However others enqueue while the transmit thread counts, drops and cuts, the counters stay
      right as long as nothing is flushed. */
  lemma {:induction false} ThreadTheorem(t: Thread, acts: seq<Act>)
    requires ThreadInv(t) && AllowedRun(t, acts)
    ensures ThreadInv(RunActs(t, acts))
    decreases |acts|
  {
    hide Right, Backed, AllSteady, Allowed, Acted, TasksOk;
    if acts != [] {
      ActTasksOk(t, acts[0]);
      ActKeeps(t, acts[0]);
      ThreadTheorem(Acted(t, acts[0]), acts[1..]);
    }
  }

  // ---------------------------------------------------------------------
  // A flush that goes wrong

  const ONE := State([Queue(1, 1)], 1, [])
  const EMPTIED := State([Queue(0, 1)], 1, [FlushTotal(0, 1)])
  const REFILLED := State([Queue(1, 2)], 1, [FlushTotal(0, 1), AddTotal])
  const DEDUCTED := State([Queue(1, 2)], -1, [ClearNum(0, 1), AddTotal])
  const CLEARED := State([Queue(1, 0)], -1, [AddTotal])
  const WRONG := State([Queue(1, 0)], 0, [])

  const RACE: seq<Event> := [Flush(0), Enqueue(0), Finish(0), Finish(0), Finish(0)]

  lemma RaceBegins()
    ensures TasksOk(ONE) && Right(ONE)
    ensures Step(ONE, RACE[0]) == EMPTIED && TasksOk(EMPTIED)
    ensures Step(EMPTIED, RACE[1]) == REFILLED && TasksOk(REFILLED)
  {
    assert Queued([Queue(1, 1)][1..]) == 0;
  }

  lemma RaceEnds()
    ensures TasksOk(REFILLED) && TasksOk(DEDUCTED) && TasksOk(CLEARED) && TasksOk(WRONG)
    ensures Step(REFILLED, RACE[2]) == DEDUCTED && Step(DEDUCTED, RACE[3]) == CLEARED
    ensures Step(CLEARED, RACE[4]) == WRONG
  {
    assert Without(DEDUCTED.tasks, 0) == [AddTotal] && Without(CLEARED.tasks, 0) == [];
  }

  /** A packet enqueued between the unlock of a flush and its counter updates stays queued while both
      counters show nothing. */
  lemma EnqueueDuringFlush()
    ensures TasksOk(ONE) && Right(ONE) && PossibleRun(ONE, RACE) && Run(ONE, RACE) == WRONG
  {
    hide Step, Right, TasksOk;
    RaceBegins();
    RaceEnds();
    assert PossibleRun(WRONG, []) && Run(WRONG, []) == WRONG;
    OneStep(CLEARED, RACE[1..][1..][1..][1..]);
    OneStep(DEDUCTED, RACE[1..][1..][1..]);
    OneStep(REFILLED, RACE[1..][1..]);
    OneStep(EMPTIED, RACE[1..]);
    OneStep(ONE, RACE);
  }

  lemma OneStep(s: State, es: seq<Event>)
    requires TasksOk(s) && es != [] && Possible(s, es[0]) && TasksOk(Step(s, es[0]))
    requires PossibleRun(Step(s, es[0]), es[1..])
    ensures PossibleRun(s, es) && Run(s, es) == Run(Step(s, es[0]), es[1..])
  {
    hide Step, Possible;
  }
}

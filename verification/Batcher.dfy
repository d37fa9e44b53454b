/** The request batcher: submitters, shutdown callers and one worker thread over a shared queue. */
module Batcher {
  import opened Text
  import opened Machine
  import opened BatchFfi
  import opened StableSort

  datatype Error = Exception(message: string) | WrongCount(got: nat, wanted: nat)

  /** A `concurrent.futures.Future`; only `Pending` may still change. */
  datatype Future = Pending | Result(value: Reply) | Failed(error: Error) | Cancelled

  /** Where the worker thread stands. `Testing(i)` is about to ask whether future `i` of the batch is
      done, `Setting(i)` has found it pending and is about to resolve it. */
  datatype Pc = Checking | Waiting | Collecting | Draining | Calling | Testing(i: nat) | Setting(i: nat) | Exited
      | Crashed(i: nat)

  /** The worker thread: `last` is set once it has left the collecting loop. */
  datatype Worker = Worker(pc: Pc, last: bool, batch: seq<nat>)

  /** The shutdown event. `early` counts the requests that were queued when it was first set, `entering`
      the callers that found it unset and will set it, `signalling` those that still owe a sentinel. */
  datatype Stop = Stop(event: bool, early: nat, entering: nat, signalling: nat)

  /** One call of the batch function: the requests sent, what came back, and whether it was the drain. */
  datatype Flush = Flush(batch: seq<nat>, outcome: Outcome, drain: bool)

  /** Requests are numbered in the order in which they entered the queue; a `None` queue item is the
      shutdown sentinel. `log` is the history of calls. */
  datatype State = State(
    size: int,
    queue: seq<Option<nat>>,
    payloads: seq<Request>,
    futures: seq<Future>,
    stop: Stop,
    w: Worker,
    log: seq<Flush>
  )

  datatype Action =
    | Submit(payload: Request)
    | Cancel(request: nat)
    | ShutdownCheck
    | ShutdownSignal
    | ShutdownWake
    | Check
    | FirstTimesOut
    | TakeFirst
    | TakeMore
    | StopCollecting
    | DrainOne
    | DrainEnds
    | Call(outcome: Outcome)
    | TestDone
    | Resolve

  function Start(size: int): State {
    State(size, [], [], [], Stop(false, 0, 0, 0), Worker(Checking, false, []), [])
  }

  /** What the future at position `k` of a flushed batch is resolved with. */
  function Verdict(f: Flush, k: nat): (v: Future)
    requires k < |f.batch|
    ensures !v.Pending?
  {
    match f.outcome
    case Raised(message) => Failed(Exception(message))
    case Returned(replies) =>
      if |replies| != |f.batch| then Failed(WrongCount(|replies|, |f.batch|)) else Result(replies[k])
  }

  /** One atomic step of any thread. */
  function Step(s: State, a: Action): (next: Option<State>)
  {
    if a.Submit? || a.Cancel? || a.ShutdownCheck? || a.ShutdownSignal? || a.ShutdownWake? then CallerStep(s, a)
    else if a.Call? || a.TestDone? || a.Resolve? then FlushStep(s, a)
    else GatherStep(s, a)
  }

  /** Steps of the threads that use the batcher. */
  function CallerStep(s: State, a: Action): (next: Option<State>)
  {
    match a
    case Submit(p) =>
      Some(s.(queue := s.queue + [Some(|s.futures|)], payloads := s.payloads + [p], futures := s.futures + [Pending]))
    case Cancel(r) =>
      if r < |s.futures| && s.futures[r].Pending? then Some(s.(futures := s.futures[r := Cancelled])) else None
    case ShutdownCheck =>
      if s.stop.event then None else Some(s.(stop := s.stop.(entering := s.stop.entering + 1)))
    case ShutdownSignal =>
      if s.stop.entering == 0 then None
      else Some(s.(stop := Stop(true, if s.stop.event then s.stop.early else |s.futures|,
                                s.stop.entering - 1, s.stop.signalling + 1)))
    case ShutdownWake =>
      if s.stop.signalling == 0 then None
      else Some(s.(stop := s.stop.(signalling := s.stop.signalling - 1), queue := s.queue + [None]))
    case _ => None
  }

  /** The worker outside `_flush`: its main loop, `_collect_batch` and `_drain_remaining`. */
  function GatherStep(s: State, a: Action): (next: Option<State>)
  {
    match (s.w.pc, a)
    case (Checking, Check) =>
      Some(s.(w := if s.stop.event then Worker(Draining, true, s.w.batch) else s.w.(pc := Waiting)))
    case (Waiting, FirstTimesOut) =>
      if s.queue != [] then None else Some(s.(w := s.w.(pc := Checking)))
    case (Waiting, TakeFirst) =>
      if s.queue == [] then None
      else Some(s.(queue := s.queue[1..],
                   w := match s.queue[0] case None => s.w.(pc := Checking)
                                         case Some(r) => s.w.(batch := [r], pc := Collecting)))
    case (Collecting, TakeMore) =>
      if s.queue == [] || |s.w.batch| >= s.size then None
      else Some(s.(queue := s.queue[1..],
                   w := match s.queue[0] case None => s.w.(pc := Calling)
                                         case Some(r) => s.w.(batch := s.w.batch + [r])))
    case (Collecting, StopCollecting) => Some(s.(w := s.w.(pc := Calling)))
    case (Draining, DrainOne) =>
      if s.queue == [] then None
      else Some(s.(queue := s.queue[1..],
                   w := match s.queue[0] case None => s.w
                                         case Some(r) => s.w.(batch := s.w.batch + [r])))
    case (Draining, DrainEnds) =>
      if s.queue != [] then None else Some(s.(w := s.w.(pc := if s.w.batch == [] then Exited else Calling)))
    case _ => None
  }

  /** The worker inside `_flush`. Resolving a future that is already done raises and ends the thread. */
  function FlushStep(s: State, a: Action): (next: Option<State>)
  {
    match (s.w.pc, a)
    case (Calling, Call(o)) =>
      Some(s.(log := s.log + [Flush(s.w.batch, o, s.w.last)], w := s.w.(pc := Testing(0))))
    case (Testing(i), TestDone) =>
      if i >= |s.w.batch| then Some(s.(w := Worker(if s.w.last then Exited else Checking, s.w.last, [])))
      else if s.w.batch[i] >= |s.futures| then None
      else Some(s.(w := s.w.(pc := if s.futures[s.w.batch[i]].Pending? then Setting(i) else Testing(i + 1))))
    case (Setting(i), Resolve) =>
      if s.log == [] || i >= |Latest(s.log).batch| || Latest(s.log).batch[i] >= |s.futures| then None
      else if !s.futures[Latest(s.log).batch[i]].Pending? then Some(s.(w := s.w.(pc := Crashed(i))))
      else Some(s.(futures := s.futures[Latest(s.log).batch[i] := Verdict(Latest(s.log), i)],
          w := s.w.(pc := Testing(i + 1))))
    case _ => None
  }

  function Latest(log: seq<Flush>): Flush
    requires log != []
  {
    log[|log| - 1]
  }

  // ---- Where the worker stands -------------------------------------------------------------------

  predicate Distributing(pc: Pc) {
    pc.Testing? || pc.Setting? || pc.Crashed?
  }

  /** Idle workers hold nothing; a distributing worker works on the latest logged call. */
  predicate Placed(w: Worker, log: seq<Flush>) {
    (w.pc.Checking? || w.pc.Waiting? || w.pc.Exited? ==> w.batch == []) &&
    (w.pc.Collecting? || w.pc.Calling? ==> w.batch != []) &&
    (Distributing(w.pc) ==> log != [] && Latest(log).batch == w.batch && Latest(log).drain == w.last) &&
    (w.pc.Testing? ==> w.pc.i <= |w.batch|) &&
    (w.pc.Setting? || w.pc.Crashed? ==> w.pc.i < |w.batch|) &&
    (w.pc.Checking? || w.pc.Waiting? || w.pc.Collecting? ==> !w.last) &&
    (w.pc.Draining? || w.pc.Exited? ==> w.last)
  }

  lemma StepPlaces(s: State, a: Action)
    requires Placed(s.w, s.log) && Step(s, a).Some?
    ensures Placed(Step(s, a).value.w, Step(s, a).value.log)
  {
    hide Verdict;
  }

  function Limit(size: int): nat {
    if size < 1 then 1 else size
  }

  /** Every call carries at least one request and, unless it is the drain, at most max(1, batch_size);
      the drain is the last call. */
  predicate Bounded(size: int, w: Worker, log: seq<Flush>) {
    (!w.last ==> |w.batch| <= Limit(size)) &&
    (forall j :: 0 <= j < |log| ==>
       log[j].batch != [] &&
       (!log[j].drain ==> |log[j].batch| <= Limit(size)) &&
       (log[j].drain ==> j == |log| - 1 && w.last && (Distributing(w.pc) || w.pc.Exited?)))
  }

  lemma StepBounds(s: State, a: Action)
    requires Placed(s.w, s.log) && Bounded(s.size, s.w, s.log) && Step(s, a).Some?
    ensures var t := Step(s, a).value; Bounded(t.size, t.w, t.log)
  {
    hide Verdict;
  }

  // ---- Conservation ------------------------------------------------------------------------------

  /** The requests of a queue, sentinels skipped. */
  function Queued(q: seq<Option<nat>>): (r: seq<nat>) {
    if q == [] then [] else (match q[0] case None => [] case Some(r) => [r]) + Queued(q[1..])
  }

  lemma QueuedTake(q: seq<Option<nat>>)
    ensures q == [] ==> Queued(q) == []
    ensures q != [] ==> Queued(q) == (match q[0] case None => [] case Some(r) => [r]) + Queued(q[1..])
  {
  }

  lemma {:induction false} QueuedConcat(a: seq<Option<nat>>, b: seq<Option<nat>>)
    ensures Queued(a + b) == Queued(a) + Queued(b)
    decreases |a|
  {
    hide Queued;
    QueuedTake(a);
    if a == [] {
      assert a + b == b;
    } else {
      QueuedTake(a + b);
      assert (a + b)[1..] == a[1..] + b;
      QueuedConcat(a[1..], b);
    }
  }

  lemma QueuedPut(q: seq<Option<nat>>, x: Option<nat>)
    ensures Queued(q + [x]) == Queued(q) + match x case None => [] case Some(r) => [r]
  {
    hide Queued;
    QueuedConcat(q, [x]);
    QueuedTake([x]);
    QueuedTake([x][1..]);
  }

  /** All requests ever sent, in the order of the calls. */
  function Flushed(log: seq<Flush>): (r: seq<nat>) {
    if log == [] then [] else Flushed(log[..|log| - 1]) + Latest(log).batch
  }

  lemma FlushedCall(log: seq<Flush>, f: Flush)
    ensures Flushed(log + [f]) == Flushed(log) + f.batch
  {
    assert (log + [f])[..|log|] == log;
  }

  /** The batch in hand that has not been sent yet. */
  function Held(w: Worker): seq<nat> {
    if Distributing(w.pc) then [] else w.batch
  }

  /** Every request is flushed, held or queued, exactly once and in submission order. */
  predicate Conserved(s: State) {
    |s.payloads| == |s.futures| &&
    Flushed(s.log) + (Held(s.w) + Queued(s.queue)) == Upto(|s.futures|)
  }

  lemma CallersConserve(s: State, a: Action)
    requires Conserved(s) && CallerStep(s, a).Some?
    ensures Conserved(CallerStep(s, a).value)
  {
    hide Queued, Flushed, Upto;
    match a
    case Submit(_) =>
      QueuedPut(s.queue, Some(|s.futures|));
      PutConserves(Flushed(s.log), Held(s.w), Queued(s.queue), |s.futures|);
    case ShutdownWake =>
      QueuedPut(s.queue, None);
      assert Queued(s.queue) + [] == Queued(s.queue);
    case _ =>
  }

  lemma PutConserves(flushed: seq<nat>, held: seq<nat>, queued: seq<nat>, n: nat)
    requires flushed + (held + queued) == Upto(n)
    ensures flushed + (held + (queued + [n])) == Upto(n + 1)
  {
    hide Upto;
    assert flushed + (held + (queued + [n])) == Upto(n) + [n];
  }

  lemma GatheringConserves(s: State, a: Action)
    requires Conserved(s) && Placed(s.w, s.log) && GatherStep(s, a).Some?
    ensures Conserved(GatherStep(s, a).value)
  {
    hide Flushed, Upto, Queued;
    var t := GatherStep(s, a).value;
    if t.queue != s.queue {
      QueuedTake(s.queue);
    }
    assert Held(t.w) + Queued(t.queue) == Held(s.w) + Queued(s.queue);
  }

  lemma FlushingConserves(s: State, a: Action)
    requires Conserved(s) && Placed(s.w, s.log) && FlushStep(s, a).Some?
    ensures Conserved(FlushStep(s, a).value)
  {
    hide Verdict, Queued, Flushed, Upto;
    if a.Call? {
      FlushedCall(s.log, Flush(s.w.batch, a.outcome, s.w.last));
    }
  }

  // ---- What futures hold -------------------------------------------------------------------------

  /** How many positions of call `j` have been dealt with. */
  function Settled(pc: Pc, log: seq<Flush>, j: nat): nat
    requires j < |log|
  {
    if j < |log| - 1 || !Distributing(pc) then |log[j].batch| else pc.i
  }

  /** Request `r`, at position `k` of call `f`, was cancelled or carries the verdict of that position. */
  predicate Answered(futures: seq<Future>, f: Flush, k: nat)
    requires k < |f.batch| && f.batch[k] < |futures|
  {
    futures[f.batch[k]] == Cancelled || futures[f.batch[k]] == Verdict(f, k)
  }

  predicate InRange(futures: seq<Future>, batch: seq<nat>) {
    forall k :: 0 <= k < |batch| ==> batch[k] < |futures|
  }

  /** Dealt-with positions are answered; requests not yet dealt with are pending or cancelled. */
  predicate Aligned(futures: seq<Future>, pc: Pc, log: seq<Flush>) {
    (forall j :: 0 <= j < |log| ==> InRange(futures, log[j].batch)) &&
    (forall j, k :: 0 <= j < |log| && 0 <= k < |log[j].batch| && k < Settled(pc, log, j) ==>
        Answered(futures, log[j], k))
  }

  /** Futures only ever change from pending, and none disappears. */
  predicate Grows(old_: seq<Future>, new_: seq<Future>) {
    |old_| <= |new_| && forall r :: 0 <= r < |old_| && old_[r] != Pending ==> new_[r] == old_[r]
  }

  /** A future that is done never changes again, whatever any thread does. */
  lemma StepSettlesOnce(s: State, a: Action)
    requires Step(s, a).Some?
    ensures Grows(s.futures, Step(s, a).value.futures)
  {
  }

  lemma GrowthKeepsAligned(before: seq<Future>, after: seq<Future>, pc: Pc, log: seq<Flush>)
    requires Aligned(before, pc, log) && Grows(before, after)
    ensures Aligned(after, pc, log)
  {
    hide Settled;
    forall j | 0 <= j < |log|
      ensures InRange(after, log[j].batch)
    {
      assert InRange(before, log[j].batch);
    }
    forall j, k | 0 <= j < |log| && 0 <= k < |log[j].batch| && k < Settled(pc, log, j)
      ensures Answered(after, log[j], k)
    {
      assert InRange(before, log[j].batch);
      assert Answered(before, log[j], k);
    }
  }

  /** Requests in hand have a future. */
  lemma HeldInRange(s: State)
    requires Conserved(s)
    ensures InRange(s.futures, Held(s.w))
  {
    hide Queued, Flushed;
    var n := |Flushed(s.log)|;
    forall k | 0 <= k < |Held(s.w)|
      ensures Held(s.w)[k] < |s.futures|
    {
      assert Held(s.w)[k] == (Flushed(s.log) + (Held(s.w) + Queued(s.queue)))[n + k];
    }
  }

  /** How many requests have been dealt with; since calls go out in submission order these come first. */
  function Dealt(pc: Pc, log: seq<Flush>): int {
    |Flushed(log)| - if log != [] && Distributing(pc) then |Latest(log).batch| - pc.i else 0
  }

  /** Requests not yet dealt with are pending or cancelled. */
  predicate Open(futures: seq<Future>, dealt: int) {
    forall r :: 0 <= dealt <= r < |futures| ==> futures[r].Pending? || futures[r].Cancelled?
  }

  /** The position being dealt with belongs to the first request not yet dealt with. */
  lemma NextDealt(s: State)
    requires Placed(s.w, s.log) && Conserved(s) && Distributing(s.w.pc)
    ensures 0 <= Dealt(s.w.pc, s.log)
    ensures s.w.pc.i < |s.w.batch| ==> Latest(s.log).batch[s.w.pc.i] == Dealt(s.w.pc, s.log) < |s.futures|
  {
    hide Queued, Upto;
    var i := s.w.pc.i;
    var before := Flushed(s.log[..|s.log| - 1]);
    assert Flushed(s.log) == before + Latest(s.log).batch;
    if i < |s.w.batch| {
      assert (Flushed(s.log) + (Held(s.w) + Queued(s.queue)))[|before| + i] == s.w.batch[i];
    }
  }

  lemma FlushingKeepsOpen(s: State, a: Action)
    requires Placed(s.w, s.log) && Conserved(s) && Open(s.futures, Dealt(s.w.pc, s.log)) && FlushStep(s, a).Some?
    ensures var t := FlushStep(s, a).value; Open(t.futures, Dealt(t.w.pc, t.log))
  {
    hide Queued, Flushed, Upto, Verdict;
    if a.Call? {
      FlushedCall(s.log, Flush(s.w.batch, a.outcome, s.w.last));
    } else {
      NextDealt(s);
    }
  }

  lemma OthersKeepOpen(s: State, a: Action)
    requires Open(s.futures, Dealt(s.w.pc, s.log))
    ensures CallerStep(s, a).Some? ==> var t := CallerStep(s, a).value; Open(t.futures, Dealt(t.w.pc, t.log))
    ensures GatherStep(s, a).Some? ==> var t := GatherStep(s, a).value; Open(t.futures, Dealt(t.w.pc, t.log))
  {
    hide Flushed;
  }

  lemma StepKeepsOpen(s: State, a: Action)
    requires Placed(s.w, s.log) && Conserved(s) && Open(s.futures, Dealt(s.w.pc, s.log)) && Step(s, a).Some?
    ensures var t := Step(s, a).value; Open(t.futures, Dealt(t.w.pc, t.log))
  {
    hide Queued, Flushed, Upto, Verdict, CallerStep, FlushStep, GatherStep, Open, Dealt;
    if Step(s, a) == FlushStep(s, a) {
      FlushingKeepsOpen(s, a);
    } else {
      OthersKeepOpen(s, a);
    }
  }

  /** The one position a flush step newly settles is answered. */
  lemma FlushAdvances(s: State, a: Action, j: nat, k: nat)
    requires Placed(s.w, s.log) && Conserved(s) && Open(s.futures, Dealt(s.w.pc, s.log))
    requires Aligned(s.futures, s.w.pc, s.log) && FlushStep(s, a).Some? && !a.Call?
    requires var t := FlushStep(s, a).value;
             j < |t.log| && k < |t.log[j].batch| && Settled(s.w.pc, s.log, j) <= k < Settled(t.w.pc, t.log, j)
    ensures var t := FlushStep(s, a).value; t.log[j].batch[k] < |t.futures| && Answered(t.futures, t.log[j], k)
  {
    hide Queued, Flushed, Upto, Dealt;
    NextDealt(s);
    assert InRange(s.futures, s.log[j].batch);
  }

  lemma StepAligns(s: State, a: Action)
    requires Placed(s.w, s.log) && Conserved(s) && Open(s.futures, Dealt(s.w.pc, s.log)) &&
             Aligned(s.futures, s.w.pc, s.log)
    requires Step(s, a).Some?
    ensures var t := Step(s, a).value; Aligned(t.futures, t.w.pc, t.log)
  {
    hide Queued, Flushed, Upto, Verdict, Dealt, Conserved, Open;
    var t := Step(s, a).value;
    if a.Call? {
      CallAligns(s, a.outcome);
    } else {
      StepSettlesOnce(s, a);
      GrowthKeepsAligned(s.futures, t.futures, s.w.pc, s.log);
      forall j, k | 0 <= j < |t.log| && 0 <= k < |t.log[j].batch| && k < Settled(t.w.pc, t.log, j)
        ensures Answered(t.futures, t.log[j], k)
      {
        if k < Settled(s.w.pc, s.log, j) {
          assert Answered(t.futures, s.log[j], k);
        } else {
          FlushAdvances(s, a, j, k);
        }
      }
    }
  }

  lemma CallAligns(s: State, o: Outcome)
    requires Placed(s.w, s.log) && Conserved(s) && Aligned(s.futures, s.w.pc, s.log) && s.w.pc.Calling?
    ensures var t := Step(s, Call(o)).value; Aligned(t.futures, t.w.pc, t.log)
  {
    hide Queued, Flushed, Upto, Verdict, Conserved;
    HeldInRange(s);
    var t := Step(s, Call(o)).value;
    forall j, k | 0 <= j < |t.log| && 0 <= k < |t.log[j].batch| && k < Settled(t.w.pc, t.log, j)
      ensures Answered(t.futures, t.log[j], k)
    {
      assert j < |s.log| && Answered(s.futures, s.log[j], k);
    }
  }

  // ---- Shutdown ----------------------------------------------------------------------------------

  /** The collecting loop is left only after the event; once the drain has seen an empty queue, every
      early request has been sent or is in hand. */
  predicate Stopping(s: State) {
    (s.w.last ==> s.stop.event) &&
    s.stop.early <= |s.futures| &&
    (s.w.last && !s.w.pc.Draining? ==> s.stop.early <= |Flushed(s.log)| + |Held(s.w)|)
  }

  lemma StepKeepsStopping(s: State, a: Action)
    requires Placed(s.w, s.log) && Conserved(s) && Stopping(s) && Step(s, a).Some?
    ensures Stopping(Step(s, a).value)
  {
    hide Verdict, Flushed, Upto, Queued, CallerStep, GatherStep, Conserved;
    if Step(s, a) == CallerStep(s, a) {
      CallersKeepStopping(s, a);
    } else if Step(s, a) == GatherStep(s, a) {
      GatheringKeepsStopping(s, a);
    } else if a.Call? {
      FlushedCall(s.log, Flush(s.w.batch, a.outcome, s.w.last));
    }
  }

  lemma CallersKeepStopping(s: State, a: Action)
    requires Placed(s.w, s.log) && Stopping(s) && CallerStep(s, a).Some?
    ensures Stopping(CallerStep(s, a).value)
  {
    hide Flushed;
  }

  lemma GatheringKeepsStopping(s: State, a: Action)
    requires Placed(s.w, s.log) && Conserved(s) && Stopping(s) && GatherStep(s, a).Some?
    ensures Stopping(GatherStep(s, a).value)
  {
    hide Flushed, Upto, Queued, Conserved;
    if a.DrainEnds? {
      NothingQueued(s);
    }
  }

  lemma NothingQueued(s: State)
    requires Conserved(s) && s.queue == []
    ensures |Flushed(s.log)| + |Held(s.w)| == |s.futures|
  {
    hide Flushed, Upto;
    assert |Flushed(s.log) + (Held(s.w) + Queued(s.queue))| == |s.futures|;
  }

  predicate Inv(s: State) {
    Placed(s.w, s.log) && Bounded(s.size, s.w, s.log) && Conserved(s) && Stopping(s) &&
    Open(s.futures, Dealt(s.w.pc, s.log)) && Aligned(s.futures, s.w.pc, s.log)
  }

  lemma StepKeepsInv(s: State, a: Action)
    requires Inv(s) && Step(s, a).Some?
    ensures Inv(Step(s, a).value)
  {
    hide Placed, Bounded, Conserved, Stopping, Open, Aligned, CallerStep, GatherStep, FlushStep;
    StepPlaces(s, a);
    StepBounds(s, a);
    StepKeepsStopping(s, a);
    StepKeepsOpen(s, a);
    StepAligns(s, a);
    if Step(s, a) == CallerStep(s, a) {
      CallersConserve(s, a);
    } else if Step(s, a) == GatherStep(s, a) {
      GatheringConserves(s, a);
    } else {
      FlushingConserves(s, a);
    }
  }

  /** Every reachable state satisfies the invariant. */
  lemma ReachableInv(size: int, actions: seq<Action>)
    requires Run(Step, Start(size), actions).Some?
    ensures Inv(Run(Step, Start(size), actions).value)
  {
    forall t, a | Inv(t) && Step(t, a).Some?
      ensures Inv(Step(t, a).value)
    {
      StepKeepsInv(t, a);
    }
    assert Inv(Start(size));
    RunKeeps(Step, Inv, Start(size), actions);
  }

  // ---- Main results ------------------------------------------------------------------------------

  /** In every reachable state each request is flushed, in the worker's hands or queued, in exactly one
      of them; calls go out in submission order and within their size bound. */
  lemma RequestsConserved(size: int, actions: seq<Action>, r: nat)
    requires Run(Step, Start(size), actions).Some?
    ensures var s := Run(Step, Start(size), actions).value;
            Flushed(s.log) + (Held(s.w) + Queued(s.queue)) == Upto(|s.futures|) && Bounded(s.size, s.w, s.log)
    ensures var s := Run(Step, Start(size), actions).value;
            r < |s.futures| ==>
              multiset(Flushed(s.log))[r] + multiset(Held(s.w))[r] + multiset(Queued(s.queue))[r] == 1
  {
    hide Step, Run;
    ReachableInv(size, actions);
    var s := Run(Step, Start(size), actions).value;
    assert multiset(Upto(|s.futures|)) == multiset(Flushed(s.log)) + (multiset(Held(s.w)) + multiset(Queued(s.queue)));
    UptoOnce(|s.futures|, r);
  }

  lemma {:induction false} UptoOnce(n: nat, r: nat)
    ensures multiset(Upto(n))[r] == if r < n then 1 else 0
  {
    if n > 0 {
      assert Upto(n) == Upto(n - 1) + [n - 1];
      UptoOnce(n - 1, r);
    }
  }

  /** A done future stays as it is over every run. */
  lemma SettlesOnce(s: State, actions: seq<Action>)
    requires Run(Step, s, actions).Some?
    ensures Grows(s.futures, Run(Step, s, actions).value.futures)
  {
    forall t, a | Step(t, a).Some?
      ensures GrowsTo(t, Step(t, a).value)
    {
      StepSettlesOnce(t, a);
    }
    RunRelates(Step, (t: State) => true, GrowsTo, s, actions);
  }

  predicate GrowsTo(s: State, t: State) {
    Grows(s.futures, t.futures)
  }

  /** Any request sent is at some position of some call. */
  lemma {:induction false} SentSomewhere(log: seq<Flush>, p: nat) returns (j: nat, k: nat)
    requires p < |Flushed(log)|
    ensures j < |log| && k < |log[j].batch| && log[j].batch[k] == Flushed(log)[p]
  {
    var front := log[..|log| - 1];
    if p < |Flushed(front)| {
      j, k := SentSomewhere(front, p);
    } else {
      j, k := |log| - 1, p - |Flushed(front)|;
    }
  }

  /** Once the worker has exited, every request that was queued when the shutdown event was first set is
      resolved, wherever the sentinels landed; what is still queued came later. */
  lemma ShutdownResolvesEarly(size: int, actions: seq<Action>, r: nat)
    requires Run(Step, Start(size), actions).Some?
    requires Run(Step, Start(size), actions).value.w.pc.Exited?
    ensures var s := Run(Step, Start(size), actions).value;
            r < s.stop.early ==> r < |s.futures| && s.futures[r] != Pending
    ensures var s := Run(Step, Start(size), actions).value;
            r in Queued(s.queue) ==> s.stop.early <= r
  {
    hide Step, Run, Upto, Bounded;
    ReachableInv(size, actions);
    var s := Run(Step, Start(size), actions).value;
    var n := |Flushed(s.log)|;
    if r < s.stop.early {
      assert (Flushed(s.log) + (Held(s.w) + Queued(s.queue)))[r] == r;
      var j, k := SentSomewhere(s.log, r);
      assert Answered(s.futures, s.log[j], k);
    }
    if r in Queued(s.queue) {
      var p :| 0 <= p < |Queued(s.queue)| && Queued(s.queue)[p] == r;
      assert (Flushed(s.log) + (Held(s.w) + Queued(s.queue)))[n + p] == r;
    }
  }

  /** The early requests are those submitted before the first shutdown signal. */
  lemma {:induction false} EarlyIsBeforeSignal(size: int, before: seq<Action>, after: seq<Action>)
    requires ShutdownSignal !in before && Run(Step, Start(size), before + [ShutdownSignal] + after).Some?
    ensures var s := Run(Step, Start(size), before + [ShutdownSignal] + after).value;
            s.stop.event && s.stop.early == |Submitted(before)|
    decreases |after|
  {
    hide Run, Verdict, Submitted;
    var actions := before + [ShutdownSignal] + after;
    RunSnoc(Step, Start(size), actions);
    if after == [] {
      assert actions[..|actions| - 1] == before;
      HistoryIsActions(size, before);
    } else {
      assert actions[..|actions| - 1] == before + [ShutdownSignal] + after[..|after| - 1];
      EarlyIsBeforeSignal(size, before, after[..|after| - 1]);
    }
  }

  /** Stated over the actions: once the worker has exited, every request submitted before the first shutdown signal
      is resolved, and whatever is still queued was submitted after it. */
  lemma SubmittedBeforeShutdownResolved(size: int, before: seq<Action>, after: seq<Action>, r: nat)
    requires ShutdownSignal !in before && Run(Step, Start(size), before + [ShutdownSignal] + after).Some?
    requires Run(Step, Start(size), before + [ShutdownSignal] + after).value.w.pc.Exited?
    ensures var s := Run(Step, Start(size), before + [ShutdownSignal] + after).value;
            && (r < |Submitted(before)| ==> r < |s.futures| && s.futures[r] != Pending)
            && (r in Queued(s.queue) ==> |Submitted(before)| <= r)
  {
    hide Run, Step, Submitted, Queued;
    EarlyIsBeforeSignal(size, before, after);
    ShutdownResolvesEarly(size, before + [ShutdownSignal] + after, r);
  }

  // ---- Progress ----------------------------------------------------------------------------------

  predicate WorkerAction(a: Action) {
    !(a.Submit? || a.Cancel? || a.ShutdownCheck? || a.ShutdownSignal? || a.ShutdownWake?)
  }

  /** The worker can always move, unless it has exited or crashed. */
  lemma WorkerNeverStuck(s: State) returns (a: Action)
    requires Inv(s) && !s.w.pc.Exited? && !s.w.pc.Crashed?
    ensures WorkerAction(a) && Step(s, a).Some?
  {
    hide Verdict, Flushed, Upto, Queued, Conserved, Open, Bounded, Stopping;
    match s.w.pc
    case Checking => a := Check;
    case Waiting => a := if s.queue == [] then FirstTimesOut else TakeFirst;
    case Collecting => a := StopCollecting;
    case Draining => a := if s.queue == [] then DrainEnds else DrainOne;
    case Calling => a := Call(Raised(""));
    case Testing(i) =>
      a := TestDone;
      assert InRange(s.futures, Latest(s.log).batch);
    case Setting(i) =>
      a := Resolve;
      assert InRange(s.futures, Latest(s.log).batch);
  }

  /** A bound on the worker steps left once the event is set and nothing more is queued. */
  function StepsLeft(s: State): int {
    10 * |s.queue| +
    match s.w.pc
    case Exited => 0
    case Crashed(_) => 0
    case Draining => 2 * |s.w.batch| + 4
    case Checking => 5
    case Waiting => 6
    case Collecting => 2 * |s.w.batch| + 9
    case Calling => 2 * |s.w.batch| + 2 + (if s.w.last then 1 else 6)
    case Testing(i) => 2 * (|s.w.batch| - i) + 1 + (if s.w.last then 0 else 5)
    case Setting(i) => 2 * (|s.w.batch| - i) + (if s.w.last then 0 else 5)
  }

  lemma StepsLeftFalls(s: State, a: Action)
    requires Placed(s.w, s.log) && s.stop.event && Step(s, a).Some?
    ensures WorkerAction(a) ==> StepsLeft(Step(s, a).value) < StepsLeft(s)
    ensures !WorkerAction(a) ==>
              StepsLeft(Step(s, a).value) <= StepsLeft(s) + if a.Submit? || a.ShutdownWake? then 10 else 0
    ensures Step(s, a).value.stop.event && 0 <= StepsLeft(s)
  {
    hide Verdict, FlushStep, GatherStep;
    if Step(s, a) == FlushStep(s, a) && WorkerAction(a) {
      FlushingFalls(s, a);
    } else if Step(s, a) == GatherStep(s, a) && WorkerAction(a) {
      GatheringFalls(s, a);
    }
  }

  lemma FlushingFalls(s: State, a: Action)
    requires Placed(s.w, s.log) && FlushStep(s, a).Some?
    ensures StepsLeft(FlushStep(s, a).value) < StepsLeft(s) && FlushStep(s, a).value.stop == s.stop
  {
    hide Verdict;
  }

  lemma GatheringFalls(s: State, a: Action)
    requires s.stop.event && Placed(s.w, s.log) && GatherStep(s, a).Some?
    ensures StepsLeft(GatherStep(s, a).value) < StepsLeft(s) && GatherStep(s, a).value.stop == s.stop
  {
  }

  function WorkerSteps(actions: seq<Action>): nat {
    if actions == [] then 0 else (if WorkerAction(actions[0]) then 1 else 0) + WorkerSteps(actions[1..])
  }

  function Puts(actions: seq<Action>): nat {
    if actions == [] then 0 else (if actions[0].Submit? || actions[0].ShutdownWake? then 1 else 0) + Puts(actions[1..])
  }

  lemma InvBounds(s: State)
    requires Inv(s)
    ensures Placed(s.w, s.log) && 0 <= StepsLeft(s)
  {
  }

  /** After the event is set the worker cannot go on for ever: in any run its steps are bounded by the
      work at hand plus what is queued meanwhile. With `WorkerNeverStuck`, it exits or crashes. */
  lemma {:induction false} ShutdownTerminates(s: State, actions: seq<Action>)
    requires Inv(s) && s.stop.event && Run(Step, s, actions).Some?
    ensures WorkerSteps(actions) <= StepsLeft(s) + 10 * Puts(actions)
    decreases |actions|
  {
    hide Step, Inv, StepsLeft;
    InvBounds(s);
    if actions != [] {
      StepsLeftFalls(s, actions[0]);
      StepKeepsInv(s, actions[0]);
      ShutdownTerminates(Step(s, actions[0]).value, actions[1..]);
    }
  }

  // ---- Cancellation ------------------------------------------------------------------------------

  /** The worker crashes exactly when the future it found pending has been cancelled meanwhile. */
  lemma CrashIff(s: State, a: Action)
    requires Inv(s) && !s.w.pc.Crashed? && Step(s, a).Some?
    ensures Step(s, a).value.w.pc.Crashed? <==>
            a.Resolve? && s.w.pc.Setting? && s.futures[Dealt(s.w.pc, s.log)].Cancelled?
  {
    hide Verdict, Flushed, Upto, Queued, Bounded, Stopping;
    if s.w.pc.Setting? {
      NextDealt(s);
    }
  }

  /** While nothing has been cancelled, the future the worker found pending still is. */
  predicate Calm(s: State) {
    Inv(s) && !s.w.pc.Crashed? &&
    (forall r :: 0 <= r < |s.futures| ==> !s.futures[r].Cancelled?)
  }

  lemma CalmStep(s: State, a: Action)
    requires Calm(s) && !a.Cancel? && Step(s, a).Some?
    ensures Calm(Step(s, a).value)
  {
    hide Flushed, Upto, Queued, Conserved, Bounded, Stopping, Aligned, Placed;
    StepKeepsInv(s, a);
    CrashIff(s, a);
    if s.w.pc.Setting? {
      NextDealtBound(s);
    }
  }

  lemma NextDealtBound(s: State)
    requires Inv(s) && s.w.pc.Setting?
    ensures 0 <= Dealt(s.w.pc, s.log) < |s.futures|
  {
    hide Dealt, Flushed, Upto, Queued;
    NextDealt(s);
  }

  /** Without cancellations the worker never crashes. */
  lemma {:induction false} CalmRun(s: State, actions: seq<Action>)
    requires Calm(s) && Run(Step, s, actions).Some?
    requires forall i :: 0 <= i < |actions| ==> !actions[i].Cancel?
    ensures Calm(Run(Step, s, actions).value)
    decreases |actions|
  {
    hide Step, Calm;
    if actions != [] {
      CalmStep(s, actions[0]);
      CalmRun(Step(s, actions[0]).value, actions[1..]);
    }
  }

  lemma NoCancelNoCrash(size: int, actions: seq<Action>)
    requires Run(Step, Start(size), actions).Some?
    requires forall i :: 0 <= i < |actions| ==> !actions[i].Cancel?
    ensures !Run(Step, Start(size), actions).value.w.pc.Crashed?
  {
    assert Calm(Start(size));
    CalmRun(Start(size), actions);
  }

  predicate Dead(pc: Pc) {
    pc.Exited? || pc.Crashed?
  }

  /** After the worker is gone a future can only be cancelled. */
  predicate Stranded(s: State, t: State) {
    Dead(s.w.pc) ==>
      t.w == s.w && t.log == s.log && |s.futures| <= |t.futures| &&
      (forall r :: 0 <= r < |s.futures| ==>
          t.futures[r] == s.futures[r] || (s.futures[r].Pending? && t.futures[r].Cancelled?)) &&
      (forall r :: |s.futures| <= r < |t.futures| ==> t.futures[r].Pending? || t.futures[r].Cancelled?)
  }

  /** Requests the worker leaves behind, and those submitted later, are never answered. */
  lemma GoneWorkerAnswersNothing(s: State, actions: seq<Action>)
    requires Run(Step, s, actions).Some?
    ensures Stranded(s, Run(Step, s, actions).value)
  {
    forall t, a | Step(t, a).Some?
      ensures Stranded(t, Step(t, a).value)
    {
    }
    RunRelates(Step, (t: State) => true, Stranded, s, actions);
  }

  /** The race, from any reachable state in which the worker is about to resolve a pending future: its
      submitter cancels it, the worker dies, and the rest of the batch is left as it was. */
  lemma CancelRace(s: State)
    requires Inv(s) && s.w.pc.Setting?
    ensures 0 <= Dealt(s.w.pc, s.log) < |s.futures|
    ensures var r := Dealt(s.w.pc, s.log);
            s.futures[r].Pending? ==>
              Run(Step, s, [Cancel(r)] + [Resolve])
                == Some(s.(futures := s.futures[r := Cancelled], w := s.w.(pc := Crashed(s.w.pc.i))))
  {
    hide Dealt, Flushed, Upto, Queued, Conserved, Bounded, Stopping, Aligned, Open;
    NextDealt(s);
    var r: nat := Dealt(s.w.pc, s.log);
    if s.futures[r].Pending? {
      var t := s.(futures := s.futures[r := Cancelled]);
      assert Step(s, Cancel(r)) == Some(t);
      RunCons(Step, s, Cancel(r), [Resolve]);
      RunCons(Step, t, Resolve, []);
      assert [Resolve] + [] == [Resolve];
    }
  }

  /** Such a state is reachable: two requests in one batch. */
  lemma CancelRaceReachable(p: Request, q: Request, o: Outcome) returns (actions: seq<Action>, s: State)
    ensures Run(Step, Start(2), actions) == Some(s)
    ensures s.w.pc == Setting(0) && s.futures == [Pending, Pending] && s.log == [Flush([0, 1], o, false)]
  {
    hide Run, CallerStep, Verdict;
    actions, s := BatchOfTwoReachable(p, q);
    actions, s := Follow(actions, s, StopCollecting);
    actions, s := Follow(actions, s, Call(o));
    actions, s := Follow(actions, s, TestDone);
  }

  lemma BatchOfTwoReachable(p: Request, q: Request) returns (actions: seq<Action>, s: State)
    ensures Run(Step, Start(2), actions) == Some(s)
    ensures s.w == Worker(Collecting, false, [0, 1]) && s.futures == [Pending, Pending] && s.log == []
  {
    hide Run, FlushStep;
    actions, s := QueueOfTwoReachable(p, q);
    actions, s := Follow(actions, s, Check);
    actions, s := Follow(actions, s, TakeFirst);
    actions, s := Follow(actions, s, TakeMore);
  }

  lemma QueueOfTwoReachable(p: Request, q: Request) returns (actions: seq<Action>, s: State)
    ensures Run(Step, Start(2), actions) == Some(s)
    ensures s == Start(2).(queue := [Some(0), Some(1)], payloads := [p, q], futures := [Pending, Pending])
  {
    hide FlushStep, GatherStep;
    actions, s := Follow([], Start(2), Submit(p));
    actions, s := Follow(actions, s, Submit(q));
  }

  lemma Follow(actions: seq<Action>, s: State, a: Action) returns (longer: seq<Action>, t: State)
    requires Run(Step, Start(2), actions) == Some(s) && Step(s, a).Some?
    ensures Run(Step, Start(2), longer) == Some(t) && Some(t) == Step(s, a)
  {
    longer, t := actions + [a], Step(s, a).value;
    RunConcat(Step, Start(2), actions, [a]);
    RunCons(Step, s, a, []);
    assert [a] + [] == [a];
  }

  // ---- End-to-end alignment ----------------------------------------------------------------------

  function PayloadsOf(s: State, batch: seq<nat>): (r: seq<Request>)
    requires |s.payloads| == |s.futures| && InRange(s.futures, batch)
  {
    seq(|batch|, k requires 0 <= k < |batch| => s.payloads[batch[k]])
  }

  /** What a future must hold, given what the batch function came back with: its own reply when the replies are
      as many as the requests, the count error when they are not, the exception when it raised. */
  predicate Delivered(batch: seq<nat>, outcome: Outcome, k: nat, future: Future) {
    match outcome
    case Raised(message) => future == Failed(Exception(message))
    case Returned(replies) =>
      && (|replies| == |batch| ==> k < |replies| && future == Result(replies[k]))
      && (|replies| != |batch| ==> future == Failed(WrongCount(|replies|, |batch|)))
  }

  lemma VerdictDelivers(f: Flush, k: nat)
    requires k < |f.batch|
    ensures Delivered(f.batch, f.outcome, k, Verdict(f, k))
    ensures forall future :: Delivered(f.batch, f.outcome, k, future) ==> future == Verdict(f, k)
  {
  }

  /** A finished call: the worker has gone through its whole batch. */
  predicate Complete(s: State, j: nat) {
    j < |s.log| && (j < |s.log| - 1 || !Distributing(s.w.pc))
  }

  /** The calls of a run are made with the outcomes of its actions, in order, and requests carry the payloads
      submitted, in order. */
  lemma {:induction false} HistoryIsActions(size: int, actions: seq<Action>)
    requires Run(Step, Start(size), actions).Some?
    ensures var s := Run(Step, Start(size), actions).value;
            && s.payloads == Submitted(actions)
            && |s.futures| == |s.payloads|
            && |s.log| == |Outcomes(actions)|
            && (forall j :: 0 <= j < |s.log| ==> s.log[j].outcome == Outcomes(actions)[j])
            && (s.stop.event <==> ShutdownSignal in actions)
    decreases |actions|
  {
    hide Run, Verdict;
    if actions == [] {
      RunEmpty(Step, Start(size));
    } else {
      RunSnoc(Step, Start(size), actions);
      HistoryIsActions(size, actions[..|actions| - 1]);
      assert actions == actions[..|actions| - 1] + [actions[|actions| - 1]];
    }
  }

  /** The payloads submitted, in order. */
  function Submitted(actions: seq<Action>): seq<Request> {
    if actions == [] then []
    else
      var last := actions[|actions| - 1];
      Submitted(actions[..|actions| - 1]) + if last.Submit? then [last.payload] else []
  }

  /** What the calls came back with, in order. */
  function Outcomes(actions: seq<Action>): seq<Outcome> {
    if actions == [] then []
    else
      var last := actions[|actions| - 1];
      Outcomes(actions[..|actions| - 1]) + if last.Call? then [last.outcome] else []
  }

  /** For every finished call and every position: the future was cancelled, or holds exactly what the outcome of
      that call gives its position; in particular none is pending. */
  lemma AnswersExact(size: int, actions: seq<Action>, j: nat, k: nat)
    requires Run(Step, Start(size), actions).Some?
    requires var s := Run(Step, Start(size), actions).value; Complete(s, j) && k < |s.log[j].batch|
    ensures var s := Run(Step, Start(size), actions).value;
            && s.log[j].batch[k] < |s.futures| && j < |Outcomes(actions)|
            && var future := s.futures[s.log[j].batch[k]];
               future == Cancelled || Delivered(s.log[j].batch, Outcomes(actions)[j], k, future)
  {
    hide Step, Run, Upto, Queued, Flushed, Bounded, Placed, Stopping, Open, Verdict, Submitted, Outcomes, Delivered;
    ReachableInv(size, actions);
    HistoryIsActions(size, actions);
    var s := Run(Step, Start(size), actions).value;
    assert InRange(s.futures, s.log[j].batch);
    assert Answered(s.futures, s.log[j], k);
    VerdictDelivers(s.log[j], k);
  }

  /** All futures of call `f` that were not cancelled carry the same error. */
  predicate FailedTogether(s: State, f: Flush, e: Error)
    requires InRange(s.futures, f.batch)
  {
    forall k :: 0 <= k < |f.batch| ==> s.futures[f.batch[k]] == Cancelled || s.futures[f.batch[k]] == Failed(e)
  }

  /** All futures of call `f` that were not cancelled carry the answer to their own payload. */
  predicate AnsweredApart(s: State, f: Flush, fetches: seq<Fetch>)
    requires |s.payloads| == |s.futures| && InRange(s.futures, f.batch) && |fetches| == |f.batch|
  {
    forall k :: 0 <= k < |f.batch| ==>
      s.futures[f.batch[k]] == Cancelled ||
      (s.futures[f.batch[k]].Result? &&
       Answers(s.futures[f.batch[k]].value, s.payloads[f.batch[k]], k, fetches[k]))
  }

  /** For every finished call: if its outcome is the one of a batch call without a fault, every future that was
      not cancelled got the answer to its own payload; if it raised or gave another number of replies, all of
      them got that one error. A batch call can have no other outcome, so none is pending or crossed. */
  lemma AnswersAlign(size: int, actions: seq<Action>, j: nat)
    requires Run(Step, Start(size), actions).Some? && Complete(Run(Step, Start(size), actions).value, j)
    ensures var s := Run(Step, Start(size), actions).value;
            |s.payloads| == |s.futures| && s.payloads == Submitted(actions) && InRange(s.futures, s.log[j].batch)
    ensures var s := Run(Step, Start(size), actions).value;
            var f := s.log[j];
            var requests := PayloadsOf(s, f.batch);
            && (forall fetches: seq<Fetch> :: |fetches| == |requests| && InPlace(requests, fetches, f.outcome) ==>
                  AnsweredApart(s, f, fetches))
            && (f.outcome.Raised? ==> FailedTogether(s, f, Exception(f.outcome.message)))
            && (f.outcome == Returned([]) && f.batch != [] ==> FailedTogether(s, f, WrongCount(0, |f.batch|)))
            && (Possible(requests, f.outcome) ==>
                  f.outcome.Raised? || f.outcome == Returned([]) ||
                  exists fetches: seq<Fetch> :: |fetches| == |f.batch| && AnsweredApart(s, f, fetches))
  {
    hide Step, Run, Upto, Queued, Flushed, Bounded, Placed, Stopping, Open, Verdict, Submitted, Outcomes, Complete;
    ReachableInv(size, actions);
    HistoryIsActions(size, actions);
    var s := Run(Step, Start(size), actions).value;
    CompleteInRange(s, j);
    var f := s.log[j];
    forall k | 0 <= k < |f.batch|
      ensures s.futures[f.batch[k]] == Cancelled || Delivered(f.batch, f.outcome, k, s.futures[f.batch[k]])
    {
      LogHasOutcome(size, actions, j);
      AnswersExact(size, actions, j, k);
    }
    var requests := PayloadsOf(s, f.batch);
    forall fetches: seq<Fetch> | |fetches| == |requests| && InPlace(requests, fetches, f.outcome)
      ensures AnsweredApart(s, f, fetches)
    {
      ApartWhenInPlace(s, f, fetches);
    }
  }

  lemma CompleteInRange(s: State, j: nat)
    requires Inv(s) && Complete(s, j)
    ensures j < |s.log| && InRange(s.futures, s.log[j].batch)
  {
  }

  lemma LogHasOutcome(size: int, actions: seq<Action>, j: nat)
    requires Run(Step, Start(size), actions).Some? && Complete(Run(Step, Start(size), actions).value, j)
    ensures j < |Outcomes(actions)| && Run(Step, Start(size), actions).value.log[j].outcome == Outcomes(actions)[j]
  {
    hide Step, Run, Outcomes, Submitted;
    HistoryIsActions(size, actions);
  }

  lemma ApartWhenInPlace(s: State, f: Flush, fetches: seq<Fetch>)
    requires |s.payloads| == |s.futures| && InRange(s.futures, f.batch) && |fetches| == |f.batch|
    requires InPlace(PayloadsOf(s, f.batch), fetches, f.outcome)
    requires forall k :: 0 <= k < |f.batch| ==>
               s.futures[f.batch[k]] == Cancelled || Delivered(f.batch, f.outcome, k, s.futures[f.batch[k]])
    ensures AnsweredApart(s, f, fetches)
  {
    hide Answers;
  }

  // ---- The worker's loops as code ------------------------------------------------------------------

  /** What other threads put before each of the first `n` reads. */
  function Arrived(puts: seq<seq<Option<nat>>>, n: nat): seq<Option<nat>>
    requires n <= |puts|
  {
    if n == 0 then [] else Arrived(puts, n - 1) + puts[n - 1]
  }

  /** One more read sees what arrived before it. */
  lemma ArrivedStep(queue: seq<Option<nat>>, puts: seq<seq<Option<nat>>>, n: nat, taken: seq<nat>,
      left: seq<Option<nat>>)
    requires n < |puts| && taken + Queued(left) == Queued(queue + Arrived(puts, n))
    ensures taken + Queued(left + puts[n]) == Queued(queue + Arrived(puts, n + 1))
  {
    hide Queued;
    QueuedConcat(left, puts[n]);
    QueuedConcat(queue + Arrived(puts, n), puts[n]);
    assert queue + Arrived(puts, n + 1) == queue + Arrived(puts, n) + puts[n];
    assert taken + (Queued(left) + Queued(puts[n])) == taken + Queued(left) + Queued(puts[n]);
  }

  /** `_drain_remaining`, while others go on putting: everything but the sentinels, in order, of all that was
      or arrived in the queue before the read that found it empty. */
  method DrainRemaining(queue: seq<Option<nat>>, puts: seq<seq<Option<nat>>>) returns (items: seq<nat>, seen: nat)
    ensures seen <= |puts| && items == Queued(queue + Arrived(puts, seen))
  {
    hide Queued;
    var left := queue;
    items, seen := [], 0;
    assert queue + Arrived(puts, 0) == queue;
    while true
      invariant seen <= |puts| && items + Queued(left) == Queued(queue + Arrived(puts, seen))
      decreases |puts| - seen, |left|
    {
      if seen < |puts| {
        ArrivedStep(queue, puts, seen, items, left);
        left := left + puts[seen];
        seen := seen + 1;
      }
      if left == [] {
        break;
      }
      QueuedTake(left);
      var item := left[0];
      left := left[1..];
      match item {
        case Some(r) => items := items + [r];
        case None =>
      }
    }
    QueuedTake(left);
  }

  /** `_collect_batch`, while others go on putting, with one further read per element of `puts` before the
      deadline: an initial run of what was or arrived in the queue, within the size limit, and nothing lost. */
  method CollectBatch(queue: seq<Option<nat>>, size: int, puts: seq<seq<Option<nat>>>)
    returns (batch: seq<nat>, left: seq<Option<nat>>, seen: nat)
    ensures seen <= |puts| && batch + Queued(left) == Queued(queue + Arrived(puts, seen))
    ensures |batch| <= Limit(size)
    ensures batch == [] <==> queue == [] || queue[0].None?
  {
    hide Queued;
    batch, left, seen := [], queue, 0;
    assert queue + Arrived(puts, 0) == queue;
    if queue == [] {
      return;
    }
    QueuedTake(queue);
    left := queue[1..];
    if queue[0].None? {
      return;
    }
    batch := [queue[0].value];
    while |batch| < size
      invariant batch != [] && seen <= |puts| && |batch| <= Limit(size)
      invariant batch + Queued(left) == Queued(queue + Arrived(puts, seen))
      decreases |puts| - seen
    {
      if seen == |puts| {
        break;
      }
      ArrivedStep(queue, puts, seen, batch, left);
      left := left + puts[seen];
      seen := seen + 1;
      if left == [] {
        break;
      }
      QueuedTake(left);
      var item := left[0];
      left := left[1..];
      if item.None? {
        break;
      }
      batch := batch + [item.value];
    }
  }

  function Struck(future: Future, hit: bool): Future {
    if hit && future.Pending? then Cancelled else future
  }

  /** Some of the first `n` rounds of cancellations names `r`. */
  predicate Hit(rounds: seq<set<nat>>, n: nat, r: nat)
    requires n <= |rounds|
  {
    exists j :: 0 <= j < n && r in rounds[j]
  }

  lemma HitStep(rounds: seq<set<nat>>, n: nat)
    requires n < |rounds|
    ensures forall r :: Hit(rounds, n + 1, r) <==> Hit(rounds, n, r) || r in rounds[n]
  {
    forall r
      ensures Hit(rounds, n + 1, r) <==> Hit(rounds, n, r) || r in rounds[n]
    {
      if Hit(rounds, n + 1, r) {
        var j :| 0 <= j < n + 1 && r in rounds[j];
        assert j < n || j == n;
      }
    }
  }

  /** The callers named cancel their futures. */
  method CancelAll(futures: array<Future>, who: set<nat>)
    modifies futures
    ensures forall r :: 0 <= r < futures.Length ==> futures[r] == Struck(old(futures[r]), r in who)
  {
    for r := 0 to futures.Length
      invariant forall k :: 0 <= k < r ==> futures[k] == Struck(old(futures[k]), k in who)
      invariant forall k :: r <= k < futures.Length ==> futures[k] == old(futures[k])
    {
      if r in who && futures[r].Pending? {
        futures[r] := Cancelled;
      }
    }
  }

  /** One flush and the cancellations during it: those just before each test of a future, and those between the
      test and the write. */
  datatype Interference = Interference(before: seq<set<nat>>, between: seq<set<nat>>)

  lemma NoHits(x: Interference)
    ensures forall r: nat :: !Hit(x.before, 0, r) && !Hit(x.between, 0, r)
  {
  }

  /** Request `k` of the batch is cancelled before its test. */
  predicate TooLate(f: Flush, x: Interference, k: nat)
    requires k < |f.batch| == |x.before| == |x.between|
  {
    Hit(x.before, k + 1, f.batch[k]) || Hit(x.between, k, f.batch[k])
  }

  /** Request `k` is found pending and cancelled before the write. */
  predicate Clash(f: Flush, x: Interference, was: seq<Future>, k: nat)
    requires k < |f.batch| == |x.before| == |x.between| && f.batch[k] < |was|
  {
    was[f.batch[k]].Pending? && !TooLate(f, x, k) && f.batch[k] in x.between[k]
  }

  /** What request `k` ends up with. */
  predicate Settles(f: Flush, x: Interference, was: seq<Future>, k: nat, now: Future)
    requires k < |f.batch| == |x.before| == |x.between| && f.batch[k] < |was|
  {
    if !was[f.batch[k]].Pending? then now == was[f.batch[k]]
    else if TooLate(f, x, k) then now == Cancelled
    else Delivered(f.batch, f.outcome, k, now)
  }

  /** What other futures hold after `n` rounds. */
  function Bystander(x: Interference, was: seq<Future>, n: nat, r: nat): Future
    requires n <= |x.before| == |x.between| && r < |was|
  {
    Struck(was[r], Hit(x.before, n, r) || Hit(x.between, n, r))
  }

  /** `_flush` while callers cancel: it crashes at the first request that is cancelled between its test and its
      write. Every request dealt with before carries its own verdict, or was done or cancelled in time; all other
      futures are only cancelled. */
  method Distribute(f: Flush, futures: array<Future>, x: Interference) returns (crashed: Option<nat>)
    requires |x.before| == |f.batch| == |x.between|
    requires forall k :: 0 <= k < |f.batch| ==> f.batch[k] < futures.Length
    requires Distinct(f.batch)
    modifies futures
    ensures var was := old(futures[..]);
            var n := if crashed.Some? then crashed.value else |f.batch|;
            && n <= |f.batch|
            && (crashed.Some? ==> n < |f.batch| && Clash(f, x, was, n))
            && forall k :: 0 <= k < n ==> !Clash(f, x, was, k) && Settles(f, x, was, k, futures[f.batch[k]])
    ensures var was := old(futures[..]);
            var n := if crashed.Some? then crashed.value else |f.batch|;
            var rounds := if crashed.Some? then n + 1 else n;
            forall r :: 0 <= r < futures.Length && r !in f.batch[..n] ==> futures[r] == Bystander(x, was, rounds, r)
  {
    hide Verdict, Hit;
    ghost var was := futures[..];
    assert forall r: nat :: !Hit(x.before, 0, r) && !Hit(x.between, 0, r) by { NoHits(x); }
    for i := 0 to |f.batch|
      invariant forall k :: 0 <= k < i ==> !Clash(f, x, was, k) && Settles(f, x, was, k, futures[f.batch[k]])
      invariant forall r :: 0 <= r < futures.Length && r !in f.batch[..i] ==> futures[r] == Bystander(x, was, i, r)
    {
      HitStep(x.before, i);
      HitStep(x.between, i);
      assert f.batch[i] !in f.batch[..i];
      assert f.batch[..i + 1] == f.batch[..i] + [f.batch[i]];
      CancelAll(futures, x.before[i]);
      if futures[f.batch[i]].Pending? {
        CancelAll(futures, x.between[i]);
        if !futures[f.batch[i]].Pending? {
          return Some(i);
        }
        futures[f.batch[i]] := Verdict(f, i);
        VerdictDelivers(f, i);
      } else {
        CancelAll(futures, x.between[i]);
      }
    }
    return None;
  }
}

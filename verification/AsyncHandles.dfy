/** The asynchronous handle store: submit returns a handle, a goroutine stores the reply, pollers fetch it.
    The repository has two variants. In one the goroutine sends on a one-place channel and a poll receives
    from it; in the other it sets a ready flag that a poll only reads. */
module AsyncHandles {
  import opened Text
  import opened Machine

  datatype Variant = Channel | Flag

  datatype Reply = Reply(id: string, body: string)

  /** A poll in progress: it has found the store entry, obtained the reply, or removed the entry. */
  datatype Poll = Loaded(h: nat) | Holding(h: nat, reply: Reply) | Removed(h: nat, reply: Reply)

  /** What a finished poll gave its caller. */
  datatype Return = Return(h: nat, reply: Option<Reply>)

  /** `ids` are the request ids by handle; `answers` the replies made so far; `available` the handles
      whose channel is full (or whose flag is set); `live` the cgo handles not yet deleted. */
  datatype State = State(
    next: nat,
    ids: map<nat, string>,
    answers: map<nat, Reply>,
    available: set<nat>,
    store: set<nat>,
    live: set<nat>,
    polls: map<nat, Poll>,
    returned: seq<Return>,
    panicked: bool
  )

  datatype Action =
    | Submit(id: string)
    | Finish(handle: nat, body: string)
    | Load(poller: nat, handle: nat)
    | Check(poller: nat)
    | Remove(poller: nat)
    | Release(poller: nat)

  const START: State := State(1, map[], map[], {}, {}, {}, map[], [], false)

  function EffectiveId(id: string): string {
    if id == "" then "cycleTLSRequest" else id
  }

  /** One atomic step. A handle deleted twice panics. */
  function Step(v: Variant, s: State, a: Action): (t: Option<State>)
  {
    if s.panicked then None
    else match a
      case Submit(id) =>
        Some(s.(next := s.next + 1, ids := s.ids[s.next := EffectiveId(id)], store := s.store + {s.next},
            live := s.live + {s.next}))
      case Finish(h, body) =>
        if h !in s.ids || h in s.answers then None
        else Some(s.(answers := s.answers[h := Reply(s.ids[h], body)], available := s.available + {h}))
      case Load(p, h) =>
        if p in s.polls then None
        else if h in s.store then Some(s.(polls := s.polls[p := Loaded(h)]))
        else Some(s.(returned := s.returned + [Return(h, None)]))
      case _ => PollStep(v, s, a)
  }

  function PollStep(v: Variant, s: State, a: Action): (t: Option<State>)
  {
    match a
    case Check(p) =>
      if p !in s.polls || !s.polls[p].Loaded? then None
      else
        var h := s.polls[p].h;
        if h in s.available && h in s.answers then
          Some(s.(polls := s.polls[p := Holding(h, s.answers[h])],
                  available := if v.Channel? then s.available - {h} else s.available))
        else Some(s.(polls := s.polls - {p}, returned := s.returned + [Return(h, None)]))
    case Remove(p) =>
      if p !in s.polls || !s.polls[p].Holding? then None
      else Some(s.(polls := s.polls[p := Removed(s.polls[p].h, s.polls[p].reply)], store := s.store - {s.polls[p].h}))
    case Release(p) =>
      if p !in s.polls || !s.polls[p].Removed? then None
      else if s.polls[p].h !in s.live then Some(s.(panicked := true))
      else Some(s.(polls := s.polls - {p}, live := s.live - {s.polls[p].h},
                   returned := s.returned + [Return(s.polls[p].h, Some(s.polls[p].reply))]))
    case _ => None
  }

  // ---- What holds however many pollers share a handle ----------------------------------------------

  /** How often the reply of `h` was handed out. */
  function Deliveries(returned: seq<Return>, h: nat): nat {
    if returned == [] then 0
    else
      var last := returned[|returned| - 1];
      Deliveries(returned[..|returned| - 1], h) + if last.h == h && last.reply.Some? then 1 else 0
  }

  lemma DeliveriesSnoc(returned: seq<Return>, r: Return, h: nat)
    ensures Deliveries(returned + [r], h) == Deliveries(returned, h) + if r.h == h && r.reply.Some? then 1 else 0
  {
    assert (returned + [r])[..|returned|] == returned;
  }

  ghost predicate Shape(s: State) {
    1 <= s.next && (forall h :: h in s.ids ==> 1 <= h < s.next) &&
    s.answers.Keys <= s.ids.Keys && s.available <= s.answers.Keys && s.store <= s.ids.Keys && s.live <= s.ids.Keys &&
    (forall h :: h in s.answers ==> s.answers[h].id == s.ids[h]) &&
    (forall p :: p in s.polls ==>
       s.polls[p].h in s.ids &&
           (!s.polls[p].Loaded? ==> s.polls[p].h in s.answers && s.polls[p].reply == s.answers[s.polls[p].h]))
  }

  /** Replies handed out are the handle's own; a handle is dead exactly when its reply was handed out. */
  ghost predicate Honest(s: State) {
    (forall i :: 0 <= i < |s.returned| && s.returned[i].reply.Some? ==>
       s.returned[i].h in s.answers && s.returned[i].reply.value == s.answers[s.returned[i].h]) &&
    (forall h :: Deliveries(s.returned, h) == if h in s.ids && h !in s.live then 1 else 0)
  }

  ghost predicate Base(s: State) {
    Shape(s) && Honest(s)
  }

  lemma StepKeepsShape(v: Variant, s: State, a: Action)
    requires Shape(s) && Step(v, s, a).Some?
    ensures Shape(Step(v, s, a).value)
  {
    hide PollStep;
    if PollStep(v, s, a).Some? {
      PollKeepsShape(v, s, a);
    }
  }

  lemma PollKeepsShape(v: Variant, s: State, a: Action)
    requires Shape(s) && PollStep(v, s, a).Some?
    ensures Shape(PollStep(v, s, a).value)
  {
    assert PollStep(v, s, a).value.polls.Keys <= s.polls.Keys;
  }

  lemma StepKeepsHonest(v: Variant, s: State, a: Action)
    requires Shape(s) && Honest(s) && Step(v, s, a).Some?
    ensures Honest(Step(v, s, a).value)
  {
    hide Deliveries;
    var t := Step(v, s, a).value;
    forall h
      ensures Deliveries(t.returned, h) == if h in t.ids && h !in t.live then 1 else 0
    {
      if t.returned != s.returned {
        DeliveriesSnoc(s.returned, t.returned[|s.returned|], h);
        assert t.returned == s.returned + [t.returned[|s.returned|]];
      }
    }
  }

  lemma StepKeepsBase(v: Variant, s: State, a: Action)
    requires Base(s) && Step(v, s, a).Some?
    ensures Base(Step(v, s, a).value)
  {
    hide Shape, Honest, Step;
    StepKeepsShape(v, s, a);
    StepKeepsHonest(v, s, a);
  }

  function Stepper(v: Variant): (State, Action) -> Option<State> {
    (s: State, a: Action) => Step(v, s, a)
  }

  lemma ReachableBase(v: Variant, actions: seq<Action>)
    requires Run(Stepper(v), START, actions).Some?
    ensures Base(Run(Stepper(v), START, actions).value)
  {
    hide Step;
    forall t, a | Base(t) && Stepper(v)(t, a).Some?
      ensures Base(Stepper(v)(t, a).value)
    {
      StepKeepsBase(v, t, a);
    }
    assert Base(START);
    RunKeeps(Stepper(v), Base, START, actions);
  }

  // ---- What the store holds, told by the actions -------------------------------------------------------

  /** The ids submitted, in order. */
  function Submissions(actions: seq<Action>): seq<string> {
    if actions == [] then []
    else
      var last := actions[|actions| - 1];
      Submissions(actions[..|actions| - 1]) + if last.Submit? then [last.id] else []
  }

  /** Handle `h` was given to the `h`-th request. */
  predicate Requested(actions: seq<Action>, h: nat) {
    1 <= h <= |Submissions(actions)|
  }

  /** The id of the request behind a handle. */
  predicate OwnId(actions: seq<Action>, h: nat, id: string)
    requires Requested(actions, h)
  {
    var given := Submissions(actions)[h - 1];
    (given != "" ==> id == given) && (given == "" ==> id == "cycleTLSRequest")
  }

  predicate FinishedBy(a: Action, h: nat) {
    a.Finish? && a.handle == h
  }

  /** The worker of `h` has stored its reply. */
  ghost predicate Finished(actions: seq<Action>, h: nat) {
    exists i :: 0 <= i < |actions| && FinishedBy(actions[i], h)
  }

  /** The reply is the one the worker of `h` made of its own response, under its own request's id. */
  ghost predicate OwnReply(actions: seq<Action>, h: nat, reply: Reply) {
    && Requested(actions, h) && Finished(actions, h) && OwnId(actions, h, reply.id)
    && forall i :: 0 <= i < |actions| && FinishedBy(actions[i], h) ==> actions[i].body == reply.body
  }

  /** The store is what the actions say. */
  ghost predicate Told(actions: seq<Action>, s: State) {
    && s.next == 1 + |Submissions(actions)|
    && (forall h :: h in s.ids <==> Requested(actions, h))
    && (forall h :: h in s.ids ==> OwnId(actions, h, s.ids[h]))
    && (forall h :: h in s.answers <==> Finished(actions, h))
    && (forall h :: h in s.answers ==> OwnReply(actions, h, s.answers[h]))
  }

  lemma PollTellsNothing(v: Variant, s: State, a: Action)
    requires PollStep(v, s, a).Some?
    ensures var t := PollStep(v, s, a).value; t.next == s.next && t.ids == s.ids && t.answers == s.answers
    ensures !a.Submit? && !a.Finish?
  {
  }

  lemma HistorySnoc(actions: seq<Action>, a: Action)
    ensures Submissions(actions + [a]) == Submissions(actions) + if a.Submit? then [a.id] else []
    ensures forall h :: Finished(actions + [a], h) <==> Finished(actions, h) || FinishedBy(a, h)
  {
    var all := actions + [a];
    assert all[..|all| - 1] == actions && all[|actions|] == a;
    forall h: nat
      ensures Finished(all, h) <==> Finished(actions, h) || FinishedBy(a, h)
    {
      if Finished(actions, h) {
        var i :| 0 <= i < |actions| && FinishedBy(actions[i], h);
        assert FinishedBy(all[i], h);
      }
      if Finished(all, h) && !FinishedBy(a, h) {
        var i :| 0 <= i < |all| && FinishedBy(all[i], h);
        assert FinishedBy(actions[i], h);
      }
    }
  }

  /** Later actions change nothing about a handle, except its own worker's. */
  lemma OwnStays(actions: seq<Action>, a: Action, h: nat, reply: Reply)
    ensures Requested(actions, h) && OwnId(actions, h, reply.id) ==>
              Requested(actions + [a], h) && OwnId(actions + [a], h, reply.id)
    ensures OwnReply(actions, h, reply) && !FinishedBy(a, h) ==> OwnReply(actions + [a], h, reply)
  {
    hide Submissions;
    HistorySnoc(actions, a);
  }

  lemma StepTells(v: Variant, actions: seq<Action>, a: Action, s: State)
    requires Told(actions, s) && Step(v, s, a).Some?
    ensures Told(actions + [a], Step(v, s, a).value)
  {
    hide PollStep, Submissions, OwnReply, OwnId, Finished;
    var t := Step(v, s, a).value;
    HistorySnoc(actions, a);
    if a.Submit? {
      SubmitTells(actions, a.id);
    } else if a.Finish? {
      FinishTells(actions, a.handle, a.body, s.ids[a.handle]);
    } else if PollStep(v, s, a).Some? {
      PollTellsNothing(v, s, a);
    }
    forall h | h in s.ids
      ensures OwnId(actions + [a], h, s.ids[h])
    {
      OwnStays(actions, a, h, Reply(s.ids[h], ""));
    }
    forall h | h in s.answers && !FinishedBy(a, h)
      ensures OwnReply(actions + [a], h, s.answers[h])
    {
      OwnStays(actions, a, h, s.answers[h]);
    }
  }

  lemma SubmitTells(actions: seq<Action>, id: string)
    ensures var h := 1 + |Submissions(actions)|;
            Requested(actions + [Submit(id)], h) && OwnId(actions + [Submit(id)], h, EffectiveId(id))
  {
    hide Submissions;
    HistorySnoc(actions, Submit(id));
  }

  lemma FinishTells(actions: seq<Action>, h: nat, body: string, id: string)
    requires Requested(actions, h) && OwnId(actions, h, id) && !Finished(actions, h)
    ensures OwnReply(actions + [Finish(h, body)], h, Reply(id, body))
  {
    hide Submissions;
    var all := actions + [Finish(h, body)];
    HistorySnoc(actions, Finish(h, body));
    assert all[|actions|] == Finish(h, body);
  }

  lemma {:induction false} RunTells(v: Variant, actions: seq<Action>)
    requires Run(Stepper(v), START, actions).Some?
    ensures Told(actions, Run(Stepper(v), START, actions).value)
    decreases |actions|
  {
    hide Run, Step;
    if actions == [] {
      RunEmpty(Stepper(v), START);
    } else {
      var front := actions[..|actions| - 1];
      RunSnoc(Stepper(v), START, actions);
      RunTells(v, front);
      ReachableBase(v, front);
      StepTells(v, front, actions[|actions| - 1], Run(Stepper(v), START, front).value);
      assert actions == front + [actions[|actions| - 1]];
    }
  }

  /** In both variants and with any number of pollers: a poll that returns something returns the reply that its
      own handle's worker made of its own response under its own request's id, a reply is handed out at most
      once, and once it has been the handle is dead. */
  lemma AtMostOnceOwnReply(v: Variant, actions: seq<Action>, i: nat)
    requires Run(Stepper(v), START, actions).Some?
    requires var s := Run(Stepper(v), START, actions).value; i < |s.returned| && s.returned[i].reply.Some?
    ensures var s := Run(Stepper(v), START, actions).value;
            var r := s.returned[i];
            OwnReply(actions, r.h, r.reply.value) && Deliveries(s.returned, r.h) == 1 && r.h !in s.live
  {
    hide Step, Run, Deliveries, OwnReply;
    ReachableBase(v, actions);
    RunTells(v, actions);
    var s := Run(Stepper(v), START, actions).value;
    DeliveredCounts(s.returned, i);
  }

  lemma {:induction false} DeliveredCounts(returned: seq<Return>, i: nat)
    requires i < |returned| && returned[i].reply.Some?
    ensures Deliveries(returned, returned[i].h) >= 1
  {
    if i < |returned| - 1 {
      DeliveredCounts(returned[..|returned| - 1], i);
    }
  }

  // ---- When no handle is deleted twice -------------------------------------------------------------

  /** At most one poll per handle has the reply in hand; the entry leaves the store with `Remove`, the
      handle dies with `Release`, and nothing else removes either. */
  ghost predicate Exclusive(s: State) {
    !s.panicked && s.store <= s.live &&
    (forall h :: h in s.ids && h !in s.answers ==> h in s.store) &&
    (forall p, q :: p in s.polls && q in s.polls && p != q && !s.polls[p].Loaded? && !s.polls[q].Loaded? ==>
       s.polls[p].h != s.polls[q].h) &&
    (forall p :: p in s.polls && s.polls[p].Holding? ==> s.polls[p].h in s.store) &&
    (forall p :: p in s.polls && s.polls[p].Removed? ==> s.polls[p].h in s.live && s.polls[p].h !in s.store)
  }

  /** A full channel has not been received from. */
  ghost predicate Unreceived(s: State) {
    forall h :: h in s.available ==>
      h in s.store && forall p :: p in s.polls && !s.polls[p].Loaded? ==> s.polls[p].h != h
  }

  /** No handle is polled by two at once. */
  ghost predicate Solo(s: State) {
    (forall p, q :: p in s.polls && q in s.polls && p != q ==> s.polls[p].h != s.polls[q].h) &&
    (forall p :: p in s.polls && s.polls[p].Loaded? ==> s.polls[p].h in s.store)
  }

  /** Entries and handles go away only by delivery. */
  ghost predicate Kept(s: State) {
    forall h :: h in s.live && h !in s.store ==> exists p :: p in s.polls && s.polls[p].Removed? && s.polls[p].h == h
  }

  /** With the flag, an answer stays available. */
  ghost predicate Flagged(v: Variant, s: State) {
    forall h :: h in s.answers && h in s.live ==>
      h in s.available || (v.Channel? && exists p :: p in s.polls && !s.polls[p].Loaded? && s.polls[p].h == h)
  }

  ghost predicate Safe(v: Variant, s: State) {
    Shape(s) && Exclusive(s) && (if v.Channel? then Unreceived(s) else Solo(s))
  }

  ghost predicate Inv(v: Variant, s: State) {
    Safe(v, s) && Kept(s) && Flagged(v, s) && Honest(s)
  }

  /** A poll may find an entry only of a handle nobody else is polling: what one poller per handle means. */
  ghost predicate Admissible(v: Variant, s: State, a: Action) {
    v.Flag? && a.Load? && a.handle in s.store ==> forall q :: q in s.polls ==> s.polls[q].h != a.handle
  }

  lemma CheckKeepsExclusive(v: Variant, s: State, p: nat)
    requires Safe(v, s) && PollStep(v, s, Check(p)).Some?
    ensures Exclusive(PollStep(v, s, Check(p)).value)
  {
    var t := PollStep(v, s, Check(p)).value;
    assert forall q :: q in t.polls && q != p ==> q in s.polls && t.polls[q] == s.polls[q];
  }

  lemma RemoveKeepsExclusive(v: Variant, s: State, p: nat)
    requires Shape(s) && Exclusive(s) && PollStep(v, s, Remove(p)).Some?
    ensures Exclusive(PollStep(v, s, Remove(p)).value)
  {
    var t := PollStep(v, s, Remove(p)).value;
    assert forall q :: q in t.polls && q != p ==> q in s.polls && t.polls[q] == s.polls[q];
  }

  lemma ReleaseKeepsExclusive(v: Variant, s: State, p: nat)
    requires Shape(s) && Exclusive(s) && PollStep(v, s, Release(p)).Some?
    ensures Exclusive(PollStep(v, s, Release(p)).value)
  {
  }

  lemma PollKeepsExclusive(v: Variant, s: State, a: Action)
    requires Safe(v, s) && PollStep(v, s, a).Some?
    ensures Exclusive(PollStep(v, s, a).value)
  {
    hide Exclusive, Shape;
    match a
    case Check(p) => CheckKeepsExclusive(v, s, p);
    case Remove(p) => RemoveKeepsExclusive(v, s, p);
    case Release(p) => ReleaseKeepsExclusive(v, s, p);
  }

  lemma StepKeepsExclusive(v: Variant, s: State, a: Action)
    requires Safe(v, s) && Step(v, s, a).Some?
    ensures Exclusive(Step(v, s, a).value)
  {
    hide PollStep, Unreceived, Solo;
    if PollStep(v, s, a).Some? {
      PollKeepsExclusive(v, s, a);
    }
  }

  lemma StepKeepsUnreceived(s: State, a: Action)
    requires Safe(Channel, s) && Step(Channel, s, a).Some?
    ensures Unreceived(Step(Channel, s, a).value)
  {
  }

  lemma StepKeepsSolo(s: State, a: Action)
    requires Safe(Flag, s) && Admissible(Flag, s, a) && Step(Flag, s, a).Some?
    ensures Solo(Step(Flag, s, a).value)
  {
  }

  lemma StepKeepsSafe(v: Variant, s: State, a: Action)
    requires Safe(v, s) && Admissible(v, s, a) && Step(v, s, a).Some?
    ensures Safe(v, Step(v, s, a).value)
  {
    hide Shape, Exclusive, Unreceived, Solo, Admissible, Step;
    StepKeepsShape(v, s, a);
    StepKeepsExclusive(v, s, a);
    match v
    case Channel => StepKeepsUnreceived(s, a);
    case Flag => StepKeepsSolo(s, a);
  }

  lemma StepKeepsKept(v: Variant, s: State, a: Action)
    requires Safe(v, s) && Kept(s) && Step(v, s, a).Some?
    ensures Kept(Step(v, s, a).value)
  {
    hide Unreceived, Solo;
    var t := Step(v, s, a).value;
    forall h | h in t.live && h !in t.store
      ensures exists p :: p in t.polls && t.polls[p].Removed? && t.polls[p].h == h
    {
      if h in s.live && h !in s.store {
        var p :| p in s.polls && s.polls[p].Removed? && s.polls[p].h == h;
        assert p in t.polls && t.polls[p] == s.polls[p];
      } else {
        assert a.Remove? && a.poller in t.polls;
      }
    }
  }

  lemma StepKeepsFlagged(v: Variant, s: State, a: Action)
    requires Safe(v, s) && Flagged(v, s) && Step(v, s, a).Some?
    ensures Flagged(v, Step(v, s, a).value)
  {
    hide Unreceived, Solo;
    var t := Step(v, s, a).value;
    forall h | h in t.answers && h in t.live && h !in t.available
      ensures v.Channel? && exists p :: p in t.polls && !t.polls[p].Loaded? && t.polls[p].h == h
    {
      if h in s.answers && h !in s.available {
        var p :| p in s.polls && !s.polls[p].Loaded? && s.polls[p].h == h;
        assert p in t.polls && t.polls[p].h == h;
      } else {
        assert a.Check? && a.poller in t.polls;
      }
    }
  }

  lemma StepKeepsInv(v: Variant, s: State, a: Action)
    requires Inv(v, s) && Admissible(v, s, a) && Step(v, s, a).Some?
    ensures Inv(v, Step(v, s, a).value)
  {
    hide Kept, Flagged, Admissible, Step, Honest, Shape, Exclusive, Unreceived, Solo;
    StepKeepsSafe(v, s, a);
    StepKeepsKept(v, s, a);
    StepKeepsFlagged(v, s, a);
    StepKeepsHonest(v, s, a);
  }

  /** The protocol with one poller per handle. */
  ghost function Disciplined(v: Variant): (State, Action) -> Option<State> {
    (s: State, a: Action) => if Admissible(v, s, a) then Step(v, s, a) else None
  }

  lemma ReachableInv(v: Variant, actions: seq<Action>)
    requires Run(Disciplined(v), START, actions).Some?
    ensures Inv(v, Run(Disciplined(v), START, actions).value)
  {
    hide Step, Admissible;
    var inv := (t: State) => Inv(v, t);
    forall t, a | inv(t) && Disciplined(v)(t, a).Some?
      ensures inv(Disciplined(v)(t, a).value)
    {
      StepKeepsInv(v, t, a);
    }
    assert Inv(v, START);
    RunKeeps(Disciplined(v), inv, START, actions);
  }

  /** The channel variant needs no discipline. */
  lemma {:induction false} ChannelRuns(s: State, actions: seq<Action>)
    ensures Run(Disciplined(Channel), s, actions) == Run(Stepper(Channel), s, actions)
    decreases |actions|
  {
    if actions != [] {
      assert Disciplined(Channel)(s, actions[0]) == Stepper(Channel)(s, actions[0]);
      if Step(Channel, s, actions[0]).Some? {
        ChannelRuns(Step(Channel, s, actions[0]).value, actions[1..]);
      }
    }
  }

  /** The channel variant never panics, however many pollers share a handle. */
  lemma ChannelNeverPanics(actions: seq<Action>)
    requires Run(Stepper(Channel), START, actions).Some?
    ensures Inv(Channel, Run(Stepper(Channel), START, actions).value)
    ensures !Run(Stepper(Channel), START, actions).value.panicked
  {
    hide Step, Shape, Honest, Unreceived, Kept, Flagged;
    ChannelRuns(START, actions);
    ReachableInv(Channel, actions);
  }

  /** The flag variant never panics with one poller per handle. */
  lemma FlagNeverPanicsAlone(actions: seq<Action>)
    requires Run(Disciplined(Flag), START, actions).Some?
    ensures !Run(Disciplined(Flag), START, actions).value.panicked
  {
    hide Step, Shape, Honest, Solo, Kept, Flagged;
    ReachableInv(Flag, actions);
  }

  /** Without the discipline it can: two polls that both found the entry of an answered handle can end in a
      double deletion. */
  lemma FlagPanicsShared(s: State, p: nat, q: nat, h: nat)
    requires !s.panicked && p != q && p in s.polls && q in s.polls && s.polls[p] == Loaded(h) == s.polls[q]
    requires h in s.answers && h in s.available && h in s.live
    ensures var end := Run(Stepper(Flag), s, [Check(p)] +
            ([Check(q)] + ([Remove(p)] + ([Release(p)] + ([Remove(q)] + ([Release(q)] + []))))));
            end.Some? && end.value.panicked
  {
    hide Run;
    var step := Stepper(Flag);
    var s1 := step(s, Check(p)).value;
    var s2 := step(s1, Check(q)).value;
    var s3 := step(s2, Remove(p)).value;
    var s4 := step(s3, Release(p)).value;
    var s5 := step(s4, Remove(q)).value;
    RunCons(step, s, Check(p), [Check(q)] + ([Remove(p)] + ([Release(p)] + ([Remove(q)] + ([Release(q)] + [])))));
    RunCons(step, s1, Check(q), [Remove(p)] + ([Release(p)] + ([Remove(q)] + ([Release(q)] + []))));
    RunCons(step, s2, Remove(p), [Release(p)] + ([Remove(q)] + ([Release(q)] + [])));
    RunCons(step, s3, Release(p), [Remove(q)] + ([Release(q)] + []));
    RunCons(step, s4, Remove(q), [Release(q)] + []);
    RunCons(step, s5, Release(q), []);
    RunEmpty(step, step(s5, Release(q)).value);
  }

  /** An undisturbed poll, in any state the protocol can reach, of a handle nobody else is polling: it
      yields the reply exactly when the worker has stored it and it has not been handed out before, and
      then the entry and the handle are gone; otherwise it yields nothing and removes nothing. */
  lemma PollYields(v: Variant, s: State, p: nat, h: nat) returns (actions: seq<Action>, t: State)
    requires Inv(v, s) && p !in s.polls && forall q :: q in s.polls ==> s.polls[q].h != h
    ensures Run(Stepper(v), s, actions) == Some(t)
    ensures t.polls == s.polls
    ensures h in s.answers && Deliveries(s.returned, h) == 0 ==>
              t.returned == s.returned + [Return(h, Some(s.answers[h]))] && t.store == s.store - {h} &&
                  t.live == s.live - {h}
    ensures h !in s.answers || Deliveries(s.returned, h) > 0 ==>
              t.returned == s.returned + [Return(h, None)] && t.store == s.store && t.live == s.live
  {
    hide Run, Deliveries, Unreceived, Solo, PollStep;
    var step := Stepper(v);
    var s1 := step(s, Load(p, h)).value;
    if h !in s.store {
      actions, t := [Load(p, h)] + [], s1;
      RunCons(step, s, Load(p, h), []);
      RunEmpty(step, t);
    } else {
      var rest;
      if h !in s.answers {
        rest, t := PollTooEarly(v, s1, p, h);
      } else {
        rest, t := PollInTime(v, s1, p, h);
      }
      actions := [Load(p, h)] + rest;
      RunCons(step, s, Load(p, h), rest);
      assert s1.polls - {p} == s.polls;
    }
  }

  lemma PollTooEarly(v: Variant, s: State, p: nat, h: nat) returns (actions: seq<Action>, t: State)
    requires !s.panicked && p in s.polls && s.polls[p] == Loaded(h) && h !in s.answers
    ensures Run(Stepper(v), s, actions) == Some(t)
    ensures t == s.(polls := s.polls - {p}, returned := s.returned + [Return(h, None)])
  {
    hide Run;
    actions, t := [Check(p)] + [], Stepper(v)(s, Check(p)).value;
    RunCons(Stepper(v), s, Check(p), []);
    RunEmpty(Stepper(v), t);
  }

  lemma PollInTime(v: Variant, s: State, p: nat, h: nat) returns (actions: seq<Action>, t: State)
    requires !s.panicked && p in s.polls && s.polls[p] == Loaded(h) && h in s.answers && h in s.available && h in s.live
    ensures Run(Stepper(v), s, actions) == Some(t)
    ensures t.polls == s.polls - {p} && t.returned == s.returned + [Return(h, Some(s.answers[h]))]
    ensures t.store == s.store - {h} && t.live == s.live - {h}
  {
    hide Run;
    var step := Stepper(v);
    var s2 := step(s, Check(p)).value;
    var s3 := step(s2, Remove(p)).value;
    t := step(s3, Release(p)).value;
    actions := [Check(p)] + ([Remove(p)] + ([Release(p)] + []));
    RunCons(step, s, Check(p), [Remove(p)] + ([Release(p)] + []));
    RunCons(step, s2, Remove(p), [Release(p)] + []);
    RunCons(step, s3, Release(p), []);
    RunEmpty(step, t);
  }

  // ---- Every poll in every interleaving ----------------------------------------------------------------

  /** Some poll has taken the entry of `h` out of the store and not returned yet. */
  ghost predicate Leaving(s: State, h: nat) {
    exists q :: q in s.polls && s.polls[q].Removed? && s.polls[q].h == h
  }

  /** Some poll has obtained the reply of `h` and not returned yet. */
  ghost predicate Obtained(s: State, h: nat) {
    exists q :: q in s.polls && !s.polls[q].Loaded? && s.polls[q].h == h
  }

  /** What each step of a poll does, between whatever other steps. Looking for the entry ends the poll empty
      exactly when there is no such request or its reply was or is being handed out; looking for the reply
      ends it empty exactly when the reply is not stored yet or another poll has it. Otherwise the poll goes
      on with the stored reply of its own handle, removes the entry and returns that reply, the only time it
      is ever returned. */
  ghost predicate PollOutcome(s: State, a: Action, t: State) {
    match a
    case Load(p, h) =>
      if h !in s.ids || Deliveries(s.returned, h) > 0 || Leaving(s, h)
      then t == s.(returned := s.returned + [Return(h, None)])
      else t == s.(polls := s.polls[p := Loaded(h)]) && h in s.store
    case Check(p) =>
      p in s.polls &&
      var h := s.polls[p].h;
      if h !in s.answers || Deliveries(s.returned, h) > 0 || Obtained(s, h)
      then t == s.(polls := s.polls - {p}, returned := s.returned + [Return(h, None)])
      else t.returned == s.returned && t.polls == s.polls[p := Holding(h, s.answers[h])] && h in t.store
    case Remove(p) =>
      p in s.polls && s.polls[p].h in s.store && t.store == s.store - {s.polls[p].h} && t.returned == s.returned
    case Release(p) =>
      p in s.polls &&
      var h := s.polls[p].h;
      h in s.answers && !t.panicked && t.returned == s.returned + [Return(h, Some(s.answers[h]))] &&
      Deliveries(s.returned, h) == 0 && Deliveries(t.returned, h) == 1 && h !in t.store && h !in t.live
    case _ => true
  }

  lemma LoadOutcome(v: Variant, s: State, p: nat, h: nat)
    requires Inv(v, s) && Step(v, s, Load(p, h)).Some?
    ensures PollOutcome(s, Load(p, h), Step(v, s, Load(p, h)).value)
  {
    hide Deliveries, Unreceived, Solo, Flagged;
    if h in s.ids && h !in s.store && Deliveries(s.returned, h) == 0 {
      assert h in s.live;
    }
  }

  lemma CheckOutcome(v: Variant, s: State, p: nat)
    requires Inv(v, s) && Step(v, s, Check(p)).Some?
    ensures PollOutcome(s, Check(p), Step(v, s, Check(p)).value)
    ensures v.Flag? ==> Deliveries(s.returned, s.polls[p].h) == 0 && !Obtained(s, s.polls[p].h)
  {
    hide Deliveries, Kept;
    var h := s.polls[p].h;
    assert Deliveries(s.returned, h) == if h in s.live then 0 else 1;
    if v.Channel? && h in s.available {
      assert h in s.store && !Obtained(s, h);
    }
  }

  lemma ReleaseOutcome(v: Variant, s: State, p: nat)
    requires Inv(v, s) && Step(v, s, Release(p)).Some?
    ensures PollOutcome(s, Release(p), Step(v, s, Release(p)).value)
  {
    hide Deliveries, Unreceived, Solo, Kept, Flagged;
    var h := s.polls[p].h;
    DeliveriesSnoc(s.returned, Return(h, Some(s.polls[p].reply)), h);
  }

  /** Over all interleavings, in the flag variant with one poller per handle and in the channel variant with
      any number: every step of every poll has that outcome, what the store then holds is what the actions say,
      a reply returned is the handle's own, and a handle whose reply was handed out is in neither store. In the
      flag variant a poll that found its entry is never beaten to the reply. */
  lemma EveryPoll(v: Variant, actions: seq<Action>, a: Action, h: nat)
    requires Run(Disciplined(v), START, actions).Some?
    ensures var s := Run(Disciplined(v), START, actions).value;
            Deliveries(s.returned, h) > 0 ==> h !in s.store && h !in s.live
    ensures var s := Run(Disciplined(v), START, actions).value;
            Disciplined(v)(s, a).Some? ==> PollOutcome(s, a, Disciplined(v)(s, a).value)
    ensures var s := Run(Disciplined(v), START, actions).value;
            v.Flag? && Disciplined(v)(s, a).Some? && a.Check? ==> !Obtained(s, s.polls[a.poller].h)
    ensures var s := Run(Disciplined(v), START, actions).value;
            Told(actions, s) &&
            (Disciplined(v)(s, a).Some? && a.Release? ==>
               var r := Disciplined(v)(s, a).value.returned[|s.returned|..];
               |r| == 1 && r[0].h == s.polls[a.poller].h && r[0].reply.Some? &&
               OwnReply(actions, r[0].h, r[0].reply.value))
  {
    hide Run, Step, Deliveries, Kept, Flagged, Unreceived, Solo, Shape, Admissible, OwnReply;
    ReachableInv(v, actions);
    DisciplinedRuns(v, START, actions);
    RunTells(v, actions);
    var s := Run(Disciplined(v), START, actions).value;
    if Disciplined(v)(s, a).Some? {
      StepOutcome(v, s, a);
    }
  }

  lemma {:induction false} DisciplinedRuns(v: Variant, s: State, actions: seq<Action>)
    requires Run(Disciplined(v), s, actions).Some?
    ensures Run(Stepper(v), s, actions) == Run(Disciplined(v), s, actions)
    decreases |actions|
  {
    hide Step, Admissible;
    if actions != [] {
      DisciplinedRuns(v, Step(v, s, actions[0]).value, actions[1..]);
    }
  }

  /** For the channel variant that is every run at all. */
  lemma EveryChannelPoll(actions: seq<Action>, a: Action)
    requires Run(Stepper(Channel), START, actions).Some?
    ensures var s := Run(Stepper(Channel), START, actions).value;
            Told(actions, s) && (Step(Channel, s, a).Some? ==> PollOutcome(s, a, Step(Channel, s, a).value))
  {
    hide Run, Step, PollOutcome, Inv, Told;
    RunTells(Channel, actions);
    ChannelRuns(START, actions);
    ReachableInv(Channel, actions);
    if Step(Channel, Run(Stepper(Channel), START, actions).value, a).Some? {
      StepOutcome(Channel, Run(Stepper(Channel), START, actions).value, a);
    }
  }

  lemma StepOutcome(v: Variant, s: State, a: Action)
    requires Inv(v, s) && Step(v, s, a).Some?
    ensures PollOutcome(s, a, Step(v, s, a).value)
    ensures v.Flag? && a.Check? ==> a.poller in s.polls && !Obtained(s, s.polls[a.poller].h)
  {
    hide Deliveries, Inv, Kept, Flagged, Unreceived, Solo, Shape;
    match a
    case Load(p, h) => LoadOutcome(v, s, p, h);
    case Check(p) => CheckOutcome(v, s, p);
    case Release(p) => ReleaseOutcome(v, s, p);
    case Remove(p) => CanFinish(v, s, p);
    case _ =>
  }

  predicate ByOthers(actions: seq<Action>, p: nat) {
    forall i :: 0 <= i < |actions| ==> actions[i].Submit? || actions[i].Finish? || actions[i].poller != p
  }

  /** Steps of others leave a poll where it is. */
  lemma {:induction false} OthersLeavePoll(v: Variant, s: State, p: nat, actions: seq<Action>)
    requires Inv(v, s) && p in s.polls && ByOthers(actions, p) && Run(Disciplined(v), s, actions).Some?
    ensures var t := Run(Disciplined(v), s, actions).value; Inv(v, t) && p in t.polls && t.polls[p] == s.polls[p]
    decreases |actions|
  {
    hide Inv, Admissible;
    if actions != [] {
      var next := Step(v, s, actions[0]).value;
      StepKeepsInv(v, s, actions[0]);
      assert p in next.polls && next.polls[p] == s.polls[p];
      OthersLeavePoll(v, next, p, actions[1..]);
    }
  }

  /** A poll that has obtained the reply returns exactly that reply, whatever others do before and between
      its last two steps. */
  lemma ObtainedIsReturned(v: Variant, s: State, p: nat, before: seq<Action>, between: seq<Action>)
    requires Inv(v, s) && p in s.polls && s.polls[p].Holding? && ByOthers(before, p) && ByOthers(between, p)
    requires Run(Disciplined(v), s, before).Some?
    ensures var t := Run(Disciplined(v), s, before).value; Disciplined(v)(t, Remove(p)).Some?
    ensures var t := Disciplined(v)(Run(Disciplined(v), s, before).value, Remove(p)).value;
            Run(Disciplined(v), t, between).Some? ==>
              var u := Run(Disciplined(v), t, between).value;
              Disciplined(v)(u, Release(p)).Some? &&
              var w := Disciplined(v)(u, Release(p)).value;
              w.returned == u.returned + [Return(s.polls[p].h, Some(s.polls[p].reply))] &&
              Deliveries(w.returned, s.polls[p].h) == 1 && s.polls[p].h !in w.store
  {
    hide Run, Deliveries, Kept, Flagged, Unreceived, Solo, Honest;
    OthersLeavePoll(v, s, p, before);
    var t := Run(Disciplined(v), s, before).value;
    StepKeepsInv(v, t, Remove(p));
    var t' := Step(v, t, Remove(p)).value;
    if Run(Disciplined(v), t', between).Some? {
      OthersLeavePoll(v, t', p, between);
      var u := Run(Disciplined(v), t', between).value;
      CanFinish(v, u, p);
      ReleaseOutcome(v, u, p);
    }
  }

  lemma CanFinish(v: Variant, s: State, p: nat)
    requires Inv(v, s) && p in s.polls && !s.polls[p].Loaded?
    ensures s.polls[p].h in s.answers && s.polls[p].reply == s.answers[s.polls[p].h]
    ensures if s.polls[p].Removed? then Step(v, s, Release(p)).Some? else s.polls[p].h in s.store
  {
    hide Kept, Flagged, Unreceived, Solo, Honest;
  }

  // ---- Sharing a handle in the flag variant ----------------------------------------------------------------

  /** One poll holds the reply, another has found the entry: the second deletion panics. */
  lemma PanicsOnceHeld(s: State, p: nat, q: nat, h: nat)
    requires !s.panicked && p != q && p in s.polls && q in s.polls && s.polls[p] == Loaded(h)
    requires h in s.answers && h in s.available && h in s.live && s.polls[q] == Holding(h, s.answers[h])
    ensures var end := Run(Stepper(Flag), s, [Check(p)] +
            ([Remove(q)] + ([Release(q)] + ([Remove(p)] + ([Release(p)] + [])))));
            end.Some? && end.value.panicked
  {
    hide Run;
    var step := Stepper(Flag);
    var s1 := step(s, Check(p)).value;
    var s2 := step(s1, Remove(q)).value;
    var s3 := step(s2, Release(q)).value;
    var s4 := step(s3, Remove(p)).value;
    RunCons(step, s, Check(p), [Remove(q)] + ([Release(q)] + ([Remove(p)] + ([Release(p)] + []))));
    RunCons(step, s1, Remove(q), [Release(q)] + ([Remove(p)] + ([Release(p)] + [])));
    RunCons(step, s2, Release(q), [Remove(p)] + ([Release(p)] + []));
    RunCons(step, s3, Remove(p), [Release(p)] + []);
    RunCons(step, s4, Release(p), []);
    RunEmpty(step, step(s4, Release(p)).value);
  }

  predicate NoLoads(actions: seq<Action>) {
    forall i :: 0 <= i < |actions| ==> !actions[i].Load?
  }

  /** The polls under way can still end in a panic, without any new poll. */
  ghost predicate Doomed(s: State) {
    exists more :: NoLoads(more) && Run(Stepper(Flag), s, more).Some? && Run(Stepper(Flag), s, more).value.panicked
  }

  lemma DoomedEarlier(s: State, a: Action)
    requires !a.Load? && Step(Flag, s, a).Some? && Doomed(Step(Flag, s, a).value)
    ensures Doomed(s)
  {
    var t := Step(Flag, s, a).value;
    var more :| NoLoads(more) && Run(Stepper(Flag), t, more).Some? && Run(Stepper(Flag), t, more).value.panicked;
    RunCons(Stepper(Flag), s, a, more);
    assert NoLoads([a] + more);
  }

  lemma HeldIsDoomed(s: State, p: nat, q: nat, h: nat)
    requires !s.panicked && p != q && p in s.polls && q in s.polls && s.polls[p] == Loaded(h)
    requires h in s.answers && h in s.available && h in s.live && s.polls[q] == Holding(h, s.answers[h])
    ensures Doomed(s)
  {
    PanicsOnceHeld(s, p, q, h);
    assert NoLoads([Check(p)] + ([Remove(q)] + ([Release(q)] + ([Remove(p)] + ([Release(p)] + [])))));
  }

  lemma AnsweredIsDoomed(s: State, p: nat, q: nat, h: nat)
    requires !s.panicked && p != q && p in s.polls && q in s.polls && s.polls[p] == Loaded(h)
    requires h in s.answers && h in s.available && h in s.live
    requires s.polls[q] == Loaded(h) || s.polls[q] == Holding(h, s.answers[h])
    ensures Doomed(s)
  {
    hide Doomed;
    if s.polls[q].Loaded? {
      HeldIsDoomed(Step(Flag, s, Check(q)).value, p, q, h);
      DoomedEarlier(s, Check(q));
    } else {
      HeldIsDoomed(s, p, q, h);
    }
  }

  lemma SharingIsDoomed(s: State, p: nat, q: nat, h: nat)
    requires Inv(Flag, s) && p !in s.polls && q in s.polls && s.polls[q].h == h && h in s.store
    ensures Doomed(Step(Flag, s, Load(p, h)).value)
  {
    hide Doomed, Deliveries, Kept, Solo, Unreceived;
    var t := Step(Flag, s, Load(p, h)).value;
    if h in s.answers {
      AnsweredIsDoomed(t, p, q, h);
    } else {
      AnsweredIsDoomed(Step(Flag, t, Finish(h, "")).value, p, q, h);
      DoomedEarlier(t, Finish(h, ""));
    }
  }

  lemma {:induction false} InvIsNotDoomed(s: State, more: seq<Action>)
    requires Inv(Flag, s) && NoLoads(more) && Run(Stepper(Flag), s, more).Some?
    ensures Inv(Flag, Run(Stepper(Flag), s, more).value)
    decreases |more|
  {
    hide Inv, Step;
    if more != [] {
      StepKeepsInv(Flag, s, more[0]);
      InvIsNotDoomed(Step(Flag, s, more[0]).value, more[1..]);
    }
  }

  /** The discipline is tight: a new poll makes a panic possible if and only if it finds the entry of a
      handle that another poll is at, whether the reply is there yet or not. */
  lemma LoadDoomsIff(s: State, p: nat, h: nat)
    requires Inv(Flag, s) && p !in s.polls
    ensures Doomed(Step(Flag, s, Load(p, h)).value) <==> !Admissible(Flag, s, Load(p, h))
    ensures !Admissible(Flag, s, Load(p, h)) <==> h in s.store && exists q :: q in s.polls && s.polls[q].h == h
  {
    hide Kept, Flagged, Solo, Honest, Shape;
    var t := Step(Flag, s, Load(p, h)).value;
    if Admissible(Flag, s, Load(p, h)) {
      StepKeepsInv(Flag, s, Load(p, h));
      forall more | NoLoads(more) && Run(Stepper(Flag), t, more).Some?
        ensures !Run(Stepper(Flag), t, more).value.panicked
      {
        InvIsNotDoomed(t, more);
      }
    } else {
      var q :| q in s.polls && s.polls[q].h == h;
      SharingIsDoomed(s, p, q, h);
    }
  }

  lemma Follow(actions: seq<Action>, s: State, a: Action) returns (longer: seq<Action>, t: State)
    requires Run(Stepper(Flag), START, actions) == Some(s) && Step(Flag, s, a).Some?
    ensures Run(Stepper(Flag), START, longer) == Some(t) && Some(t) == Step(Flag, s, a)
  {
    longer, t := actions + [a], Step(Flag, s, a).value;
    RunConcat(Stepper(Flag), START, actions, [a]);
    RunCons(Stepper(Flag), s, a, []);
    assert [a] + [] == [a];
  }

  /** And it does happen: one request, two polls that find its entry, the reply, then the deletions. */
  lemma FlagPanicReachable(id: string, body: string) returns (actions: seq<Action>)
    ensures Run(Stepper(Flag), START, actions).Some? && Run(Stepper(Flag), START, actions).value.panicked
  {
    hide PollStep;
    RunEmpty(Stepper(Flag), START);
    hide Run;
    var s;
    actions, s := Follow([], START, Submit(id));
    actions, s := Follow(actions, s, Load(0, 1));
    actions, s := Follow(actions, s, Load(1, 1));
    actions, s := Follow(actions, s, Finish(1, body));
    FlagPanicsShared(s, 0, 1, 1);
    var last := [Check(0)] + ([Check(1)] + ([Remove(0)] + ([Release(0)] + ([Remove(1)] + ([Release(1)] + [])))));
    RunConcat(Stepper(Flag), START, actions, last);
    actions := actions + last;
  }

  // ---- The polling loop ------------------------------------------------------------------------------

  datatype Polled = Got(reply: Reply, checks: nat) | TimedOut(checks: nat) | Polling(checks: nat)

  /** `send_request_async` after submitting, over the checks seen so far: `answers[n]` is what check number
      `n` returns and `late[n]` whether the time-out has passed after it. The first reply wins even when it
      arrives late; the time-out is looked at only after an empty check; with neither it goes on polling. */
  method PollUntilReady(answers: seq<Option<Reply>>, late: seq<bool>) returns (r: Polled)
    requires |answers| == |late|
    ensures r.checks <= |answers|
    ensures r.Polling? <==> forall n :: 0 <= n < |answers| ==> answers[n].None? && !late[n]
    ensures r.Polling? ==> r.checks == |answers|
    ensures !r.Polling? ==> r.checks >= 1 && forall n :: 0 <= n < r.checks - 1 ==> answers[n].None? && !late[n]
    ensures r.Got? ==> r.checks >= 1 && answers[r.checks - 1] == Some(r.reply)
    ensures r.TimedOut? ==> r.checks >= 1 && answers[r.checks - 1].None? && late[r.checks - 1]
  {
    for n := 0 to |answers|
      invariant forall i :: 0 <= i < n ==> answers[i].None? && !late[i]
    {
      if answers[n].Some? {
        return Got(answers[n].value, n + 1);
      }
      if late[n] {
        return TimedOut(n + 1);
      }
    }
    return Polling(|answers|);
  }
}

/**
 Turns of an acceptance run against their teardown. While tracking is on, service.execute is a
 wrapper that registers a conversation as owned, marks its task active and then runs the turn;
 teardown waits for the active tasks, cancels the slow ones, waits for these, and only then puts
 the original back. Tasks interleave freely with each other and with the teardown.
 */
module DrainProtocol {
  type Task = int
  type Conversation = string

  // Where a task stands in the wrapper.
  datatype Stage =
    | Idle
    | Registered(conversation: Conversation)
    | Tracked(conversation: Conversation)
    | Inside(conversation: Conversation)
    | Done

  // Where the teardown stands. Interrupted: its own wait was cancelled, so nothing was put back.
  datatype Phase = Open | Waiting | Gathering(pending: set<Task>) | Restored | Interrupted

  datatype State = State(
    stages: map<Task, Stage>,       // a task not in the map is idle
    active: set<Task>,
    owned: set<Conversation>,
    reached: set<Conversation>,     // ran in the original through the wrapper
    bypassed: set<Conversation>,    // called after the original was put back
    phase: Phase,
    snapshot: set<Task>,            // the active tasks when teardown began
    late: set<Task>,                // tasks outside the snapshot that became active after that
    cancelled: set<Task>,
    cleaned: bool)

  datatype Step =
    | Call(task: Task, conversation: Conversation)  // "" when the caller names none
    | Track(task: Task)
    | Enter(task: Task)
    | Leave(task: Task)                             // returns, raises or is cancelled
    | End(task: Task)                               // the whole task is over
    | Teardown
    | WaitReturns                                   // all are done, or the time is up
    | GatherReturns
    | Interrupt
    | Cleanup                                       // the enclosing owner deletes what is owned

  function StageOf(s: State, task: Task): Stage {
    if task in s.stages then s.stages[task] else Idle
  }

  function At(s: State, task: Task, stage: Stage): State {
    s.(stages := s.stages[task := stage])
  }

  const START := State(map[], {}, {}, {}, {}, Open, {}, {}, {}, false)

  predicate Enabled(s: State, step: Step) {
    match step
    case Call(task, _) => StageOf(s, task).Idle?
    case Track(task) => StageOf(s, task).Registered?
    case Enter(task) => StageOf(s, task).Tracked?
    case Leave(task) => StageOf(s, task).Inside?
    case End(task) => StageOf(s, task).Idle?
    case Teardown => s.phase.Open?
    case WaitReturns => s.phase.Waiting?
    case GatherReturns => s.phase.Gathering? && forall t :: t in s.phase.pending ==> StageOf(s, t).Done?
    case Interrupt => s.phase.Waiting? || s.phase.Gathering?
    case Cleanup => s.phase.Restored? || s.phase.Interrupted?
  }

  function Apply(s: State, step: Step): State
    requires Enabled(s, step)
  {
    match step
    case Call(task, conversation) =>
      if s.phase.Restored? then s.(bypassed := s.bypassed + {conversation})
      else if conversation == "" then s
      else At(s.(owned := s.owned + {conversation}), task, Registered(conversation))
    case Track(task) =>
      var tracked := At(s.(active := s.active + {task}), task, Tracked(StageOf(s, task).conversation));
      if s.phase.Open? || task in s.snapshot then tracked else tracked.(late := s.late + {task})
    case Enter(task) =>
      var conversation := StageOf(s, task).conversation;
      At(s.(reached := s.reached + {conversation}), task, Inside(conversation))
    case Leave(task) => At(s.(active := s.active - {task}), task, Idle)
    case End(task) => At(s, task, Done)
    case Teardown => s.(snapshot := s.active, phase := if s.active == {} then Restored else Waiting)
    case WaitReturns =>
      var pending := set t | t in s.snapshot && !StageOf(s, t).Done?;
      s.(cancelled := pending, phase := Gathering(pending))
    case GatherReturns => s.(phase := Restored)
    case Interrupt => s.(phase := Interrupted)
    case Cleanup => s.(cleaned := true)
  }

  // A run tries any steps in any order; a step that cannot happen does not.
  function Run(s: State, steps: seq<Step>): State
    decreases |steps|
  {
    if steps == [] then s
    else Run(if Enabled(s, steps[0]) then Apply(s, steps[0]) else s, steps[1..])
  }

  // --- The invariant ---

  predicate Underway(stage: Stage) {
    stage.Tracked? || stage.Inside?
  }

  predicate ActiveIsUnderway(s: State) {
    forall t :: t in s.active + s.stages.Keys ==> (t in s.active <==> Underway(StageOf(s, t)))
  }

  predicate OwnedFirst(s: State) {
    && s.reached <= s.owned && "" !in s.owned
    && (forall t :: t in s.stages && (s.stages[t].Registered? || Underway(s.stages[t])) ==>
         s.stages[t].conversation in s.owned && s.stages[t].conversation != "")
    && (forall t :: t in s.stages && s.stages[t].Inside? ==> s.stages[t].conversation in s.reached)
  }

  // How far the snapshot has been drained, phase by phase.
  predicate Drained(s: State) {
    match s.phase
    case Open => s.late == s.snapshot == s.cancelled == {} && !s.cleaned
    case Waiting => !s.cleaned
    case Gathering(pending) =>
      && s.cancelled == pending && !s.cleaned
      && forall t :: t in s.snapshot && t !in pending ==> StageOf(s, t).Done?
    case Restored => forall t :: t in s.snapshot ==> StageOf(s, t).Done?
    case Interrupted => true
  }

  predicate Inv(s: State) {
    && ActiveIsUnderway(s)
    && OwnedFirst(s)
    && Drained(s)
    && s.cancelled <= s.snapshot
    && (!s.phase.Restored? ==> s.bypassed == {})
    && (!s.phase.Open? ==> s.active <= s.snapshot + s.late && s.late !! s.snapshot)
  }

  lemma ApplyKeepsInv(s: State, step: Step)
    requires Inv(s) && Enabled(s, step)
    ensures Inv(Apply(s, step))
  {
    if step.GatherReturns? {
      assert forall t :: t in s.snapshot ==> t in s.phase.pending || StageOf(s, t).Done?;
    }
  }

  lemma {:induction false} RunKeepsInv(s: State, steps: seq<Step>)
    requires Inv(s)
    ensures Inv(Run(s, steps))
    decreases |steps|
  {
    if steps != [] {
      if Enabled(s, steps[0]) {
        ApplyKeepsInv(s, steps[0]);
        RunKeepsInv(Apply(s, steps[0]), steps[1..]);
      } else {
        RunKeepsInv(s, steps[1..]);
      }
    }
  }

  // --- Main results ---

  /** Whatever ran in the original through the wrapper is registered as owned, and a turn that
      escapes registration was called after the original was put back. */
  lemma OwnedBeforeRun(steps: seq<Step>)
    ensures
      var s := Run(START, steps);
      && s.reached <= s.owned && "" !in s.reached
      && (forall t :: t in s.stages && s.stages[t].Tracked? ==> s.stages[t].conversation in s.owned)
      && (forall t :: t in s.stages && s.stages[t].Inside? ==> s.stages[t].conversation in s.reached)
      && (s.bypassed != {} ==> s.phase.Restored?)
  {
    RunKeepsInv(START, steps);
  }

  predicate Grows(s: State, s': State) {
    s.owned <= s'.owned && s.bypassed <= s'.bypassed
  }

  lemma {:induction false} RunGrows(s: State, steps: seq<Step>)
    ensures Grows(s, Run(s, steps))
    decreases |steps|
  {
    if steps != [] {
      RunGrows(if Enabled(s, steps[0]) then Apply(s, steps[0]) else s, steps[1..]);
    }
  }

  /** No call with a conversation goes unseen: it is owned from then on, or, once the original is
      back, it is one that bypassed the wrapper. */
  lemma {:induction false} CallsAreSeen(s: State, steps: seq<Step>, k: nat)
    requires k < |steps| && steps[k].Call? && steps[k].conversation != "" && Enabled(Run(s, steps[..k]), steps[k])
    ensures
      var conversation := steps[k].conversation;
      if Run(s, steps[..k]).phase.Restored? then conversation in Run(s, steps).bypassed
      else conversation in Run(s, steps).owned
    decreases |steps|
  {
    var next := if Enabled(s, steps[0]) then Apply(s, steps[0]) else s;
    if k == 0 {
      RunGrows(next, steps[1..]);
    } else {
      assert steps[..k][1..] == steps[1..][..k - 1];
      CallsAreSeen(next, steps[1..], k - 1);
    }
  }

  /** When the wait of a teardown returns, it cancels exactly the tasks of its snapshot that are
      not done; and nothing is put back before every one of the snapshot is done. */
  lemma CancelledAreUndone(steps: seq<Step>)
    ensures
      var s := Run(START, steps);
      && (s.phase.Waiting? ==>
           forall t :: t in Apply(s, WaitReturns).cancelled <==> t in s.snapshot && !StageOf(s, t).Done?)
      && (s.phase.Gathering? ==> forall t :: t in s.snapshot && !StageOf(s, t).Done? ==> t in s.cancelled)
      && (s.phase.Restored? ==> forall t :: t in s.snapshot ==> StageOf(s, t).Done?)
  {
    RunKeepsInv(START, steps);
  }

  // The late starters that have not ended.
  function LateRunning(s: State): set<Task> {
    set t | t in s.late && Underway(StageOf(s, t))
  }

  // A drained task is not underway, so it is not active.
  lemma RestoredActive(s: State)
    requires Inv(s) && s.phase.Restored?
    ensures s.active == LateRunning(s)
  {
    forall t ensures t in s.active <==> t in LateRunning(s) {
      assert Underway(StageOf(s, t)) ==> t in s.active + s.stages.Keys;
      if t in s.active {
        assert t in s.snapshot + s.late && Underway(StageOf(s, t));
      }
    }
  }

  /** Once the original is back, what is still active is exactly the late starters that have not ended. */
  lemma RestoredActiveIs(steps: seq<Step>)
    requires Run(START, steps).phase.Restored?
    ensures Run(START, steps).active == LateRunning(Run(START, steps))
  {
    RunKeepsInv(START, steps);
    RestoredActive(Run(START, steps));
  }

  // Who has not ended, among those the teardown waited for and the late starters.
  function StillRunning(s: State): set<Task> {
    set t | t in s.snapshot + s.late && Underway(StageOf(s, t))
  }

  /** After a teardown that was cut short, what is active is every task of its snapshot and every
      late starter that has not ended; so that is what runs during the owner's cleanup. */
  lemma InterruptedActiveIs(steps: seq<Step>)
    requires Run(START, steps).phase.Interrupted?
    ensures Run(START, steps).active == StillRunning(Run(START, steps))
  {
    RunKeepsInv(START, steps);
    var s := Run(START, steps);
    forall t ensures t in s.active <==> t in StillRunning(s) {
      assert Underway(StageOf(s, t)) ==> t in s.active + s.stages.Keys;
      if t in s.active {
        assert t in s.snapshot + s.late && Underway(StageOf(s, t));
      }
    }
  }

  /** If no turn becomes active once teardown has begun, then none is active when the original is
      back, and none during the owner's cleanup unless the teardown itself was cut short. */
  lemma NothingRunsDuringCleanup(steps: seq<Step>)
    requires Run(START, steps).late == {}
    ensures
      var s := Run(START, steps);
      && (s.phase.Restored? ==> s.active == {})
      && (s.cleaned && !s.phase.Interrupted? ==> s.active == {})
  {
    RunKeepsInv(START, steps);
    if Run(START, steps).phase.Restored? {
      RestoredActive(Run(START, steps));
    }
  }

  lemma RunCons(s: State, step: Step, rest: seq<Step>)
    requires Enabled(s, step)
    ensures Run(s, [step] + rest) == Run(Apply(s, step), rest)
  {
    assert ([step] + rest)[1..] == rest;
  }

  // One turn is running when teardown begins.
  const RUNNING := [Call(1, "a"), Track(1), Enter(1), Teardown]

  lemma RunningThen(rest: seq<Step>)
    ensures Run(START, RUNNING + rest) ==
            Run(State(map[1 := Inside("a")], {1}, {"a"}, {"a"}, {}, Waiting, {1}, {}, {}, false), rest)
  {
    var s1 := Apply(START, Call(1, "a"));
    var s2 := Apply(s1, Track(1));
    var s3 := Apply(s2, Enter(1));
    assert RUNNING + rest == [Call(1, "a")] + ([Track(1)] + ([Enter(1)] + ([Teardown] + rest)));
    RunCons(START, Call(1, "a"), [Track(1)] + ([Enter(1)] + ([Teardown] + rest)));
    RunCons(s1, Track(1), [Enter(1)] + ([Teardown] + rest));
    RunCons(s2, Enter(1), [Teardown] + rest);
    RunCons(s3, Teardown, rest);
    assert s3.active == {1};
    assert Apply(s3, Teardown) == State(map[1 := Inside("a")], {1}, {"a"}, {"a"}, {}, Waiting, {1}, {}, {}, false);
  }

  /** An interrupted teardown leaves the turn it was waiting for running through the cleanup. */
  lemma InterruptedTeardown()
    ensures
      var s := Run(START, RUNNING + ([Interrupt] + ([Cleanup] + [])));
      s.cleaned && s.phase.Interrupted? && s.active == {1} && s.late == {}
  {
    var s := State(map[1 := Inside("a")], {1}, {"a"}, {"a"}, {}, Waiting, {1}, {}, {}, false);
    RunningThen([Interrupt] + ([Cleanup] + []));
    RunCons(s, Interrupt, [Cleanup] + []);
    RunCons(Apply(s, Interrupt), Cleanup, []);
  }

  // The first turn ends after a second task's turn has started.
  lemma SecondTurnThen(rest: seq<Step>)
    ensures
      var s := State(map[1 := Inside("a")], {1}, {"a"}, {"a"}, {}, Waiting, {1}, {}, {}, false);
      Run(s, [Call(2, "b")] + ([Track(2)] + ([Leave(1)] + ([End(1)] + rest)))) ==
      Run(State(map[1 := Done, 2 := Tracked("b")], {2}, {"a", "b"}, {"a"}, {}, Waiting, {1}, {2}, {}, false), rest)
  {
    hide Run;
    var s := State(map[1 := Inside("a")], {1}, {"a"}, {"a"}, {}, Waiting, {1}, {}, {}, false);
    var s1 := Apply(s, Call(2, "b"));
    var s2 := Apply(s1, Track(2));
    var s3 := Apply(s2, Leave(1));
    RunCons(s, Call(2, "b"), [Track(2)] + ([Leave(1)] + ([End(1)] + rest)));
    RunCons(s1, Track(2), [Leave(1)] + ([End(1)] + rest));
    RunCons(s2, Leave(1), [End(1)] + rest);
    RunCons(s3, End(1), rest);
    assert s3.active == {2} && s3.late == {2} && s3.owned == {"a", "b"};
    assert Apply(s3, End(1)).stages == map[1 := Done, 2 := Tracked("b")];
  }

  /** A turn of another task that starts while the first is drained is still running after the cleanup. */
  lemma LateStarter()
    ensures
      exists rest ::
        var s := Run(START, RUNNING + rest);
        s.cleaned && s.phase.Restored? && s.active == {2} && s.snapshot == {1}
  {
    hide Run;
    var s := State(map[1 := Done, 2 := Tracked("b")], {2}, {"a", "b"}, {"a"}, {}, Waiting, {1}, {2}, {}, false);
    var tail := [WaitReturns] + ([GatherReturns] + ([Cleanup] + []));
    var rest := [Call(2, "b")] + ([Track(2)] + ([Leave(1)] + ([End(1)] + tail)));
    RunningThen(rest);
    SecondTurnThen(tail);
    RunCons(s, WaitReturns, [GatherReturns] + ([Cleanup] + []));
    var s1 := Apply(s, WaitReturns);
    RunCons(s1, GatherReturns, [Cleanup] + []);
    RunCons(Apply(s1, GatherReturns), Cleanup, []);
    RunNothing(Apply(Apply(s1, GatherReturns), Cleanup));
    assert Run(START, RUNNING + rest) == Apply(Apply(s1, GatherReturns), Cleanup);
  }

  lemma RunNothing(s: State)
    ensures Run(s, []) == s
  {
  }
}

/** The life of one served system (`editors/vscode/launcher.js`, class `Launcher`).

    `start()` and `stop()` are asynchronous: they run in pieces between their awaits, and the
    pieces of one start, of any number of stops and of the child's exit interleave. A step is
    one such piece. A start is issued only when no earlier start or stop is pending, and a
    terminated child does exit. */
module LauncherLifecycle {
  import opened Basics

  datatype Phase = Stopped | Building | Starting | Running

  /** Why the launcher asked its own child to go. */
  datatype Reason = NotAsked | Stop | Abandoned

  datatype Outcome = Pending | Returned | Undefined | Threw

  /** `handled` children have the launcher's exit handler; `ran` and `outcome` record whether
      the child was ever reported as running and how its start ended. */
  datatype Child = Child(alive: bool, handled: bool, asked: Reason, ran: bool, outcome: Outcome)

  /** The await at which the start in flight is. */
  datatype StartPc =
    | NotStarting
    | StoppingJobs
    | ReadingPacks
    | PickingPort
    | PickingInspector
    | AwaitingBuild
    | Undoing(child: nat)
    | Racing(child: nat)
    | RaceLost(child: nat)
    | AwaitingExit(child: nat)
    | Abandoning(child: nat)

  /** The await at which a stop is. */
  datatype StopPc =
    | WaitingForJobs
    | KillingBuild
    | WaitingForExit(child: nat)
    | Done

  datatype State = State(
    phase: Phase,
    child: Option<nat>,
    port: bool,
    buildCancelled: bool,
    children: seq<Child>,
    start: StartPc,
    stops: seq<StopPc>,
    phases: seq<Phase>,
    exits: seq<nat>)

  datatype Step =
    | StartCall
    | JobsStopped
    | PacksRead(duckdbOk: bool)
    | PortPicked(ok: bool, debug: bool, lockOk: bool)
    | InspectorPicked(lockOk: bool)
    | BuildEnded(rejected: bool, codeOk: bool, spawnOk: bool, recordOk: bool)
    | Undone
    | RaceReady
    | RaceFailed
    | RaceExited
    | ExitAwaited
    | AbandonEnded
    | StopCall
    | StopRuns(k: nat)
    | BuildKilled(k: nat)
    | StopSeesExit(k: nat)
    | ChildExit

  const INITIAL := State(Stopped, None, false, false, [], NotStarting, [], [], [])

  predicate Known(s: State, c: nat) { c < |s.children| }

  predicate StopsDone(s: State) {
    forall k: nat | k < |s.stops| :: s.stops[k].Done?
  }

  /** The child's own exit is the only way in which it dies, so `ChildExit` concerns the last
      child: the earlier ones are gone. */
  predicate Enabled(s: State, step: Step) {
    match step
    case StartCall => s.start.NotStarting? && StopsDone(s)
    case JobsStopped => s.start.StoppingJobs?
    case PacksRead(_) => s.start.ReadingPacks?
    case PortPicked(_, _, _) => s.start.PickingPort?
    case InspectorPicked(_) => s.start.PickingInspector?
    case BuildEnded(_, _, _, _) => s.start.AwaitingBuild?
    case Undone => s.start.Undoing? && Known(s, s.start.child) && !s.children[s.start.child].alive
    // the race is won by an answer, or lost to a timeout or to the poll's cancellation
    case RaceReady => s.start.Racing? && Known(s, s.start.child)
    case RaceFailed => s.start.Racing? && Known(s, s.start.child)
    case RaceExited => s.start.RaceLost? && Known(s, s.start.child)
    case ExitAwaited => s.start.AwaitingExit? && Known(s, s.start.child) && !s.children[s.start.child].alive
    case AbandonEnded => s.start.Abandoning? && Known(s, s.start.child) && !s.children[s.start.child].alive
    case StopCall => true
    case StopRuns(k) => k < |s.stops| && s.stops[k].WaitingForJobs? && (s.child.Some? ==> Known(s, s.child.value))
    case BuildKilled(k) => k < |s.stops| && s.stops[k].KillingBuild?
    case StopSeesExit(k) =>
      k < |s.stops| && s.stops[k].WaitingForExit? && Known(s, s.stops[k].child) && !s.children[s.stops[k].child].alive
    case ChildExit => s.children != [] && s.children[|s.children| - 1].alive
  }

  /** `#setState`: entering "stopped" also forgets port and pid. */
  function SetState(s: State, phase: Phase): State {
    s.(phase := phase, phases := s.phases + [phase], port := s.port && !phase.Stopped?)
  }

  /** `#ask`: only a live child is marked. */
  function Ask(s: State, c: nat, reason: Reason): State
    requires Known(s, c)
  {
    if s.children[c].alive then s.(children := s.children[c := s.children[c].(asked := reason)]) else s
  }

  function Fail(s: State): State {
    SetState(s, Stopped).(start := NotStarting)
  }

  function EndStart(s: State, c: nat, outcome: Outcome): State
    requires Known(s, c)
  {
    s.(start := NotStarting, children := s.children[c := s.children[c].(outcome := outcome)])
  }

  /** From the serving lock to the await of the build. */
  function LockAndBuild(s: State, lockOk: bool): State {
    if lockOk then s.(start := AwaitingBuild) else Fail(s)
  }

  function Apply(s: State, step: Step): State
    requires Enabled(s, step)
  {
    match step
    case StartCall => if s.phase.Stopped? then s.(start := StoppingJobs) else s
    case JobsStopped => SetState(s.(buildCancelled := false), Building).(start := ReadingPacks)
    case PacksRead(ok) => if ok then s.(start := PickingPort) else Fail(s)
    case PortPicked(ok, debug, lockOk) =>
      if !ok || s.buildCancelled then Fail(s)
      else if debug then s.(start := PickingInspector)
      else LockAndBuild(s, lockOk)
    case InspectorPicked(lockOk) => LockAndBuild(s, lockOk)
    case BuildEnded(rejected, codeOk, spawnOk, recordOk) =>
      if rejected || s.buildCancelled || !codeOk then Fail(s)
      else
        var s1 := SetState(s, Starting);
        if !spawnOk then Fail(s1)
        else
          var c := |s.children|;
          s1.(children := s.children + [Child(true, recordOk, NotAsked, false, Pending)], child := Some(c),
              start := if recordOk then Racing(c) else Undoing(c))
    case Undone => EndStart(SetState(s.(child := None), Stopped), s.start.child, Threw)
    case RaceReady =>
      var c := s.start.child;
      if s.children[c].asked.Stop? then EndStart(s, c, Undefined)
      else
        var s1 := EndStart(SetState(s.(port := true), Running), c, Returned);
        s1.(children := s1.children[c := s1.children[c].(ran := true)])
    case RaceFailed =>
      var c := s.start.child;
      if s.children[c].asked.Stop? then s.(start := AwaitingExit(c))
      else Ask(s, c, Abandoned).(start := Abandoning(c))
    case RaceExited =>
      var c := s.start.child;
      if s.children[c].asked.Stop? then EndStart(s, c, Undefined) else s.(start := Abandoning(c))
    case ExitAwaited => EndStart(s, s.start.child, Undefined)
    case AbandonEnded =>
      EndStart(if s.phase.Stopped? then s else SetState(s, Stopped), s.start.child, Threw)
    case StopCall => s.(stops := s.stops + [WaitingForJobs])
    case StopRuns(k) =>
      if s.phase.Building? then s.(buildCancelled := true, stops := s.stops[k := KillingBuild])
      else if s.child.None? then SetState(s, Stopped).(stops := s.stops[k := Done])
      else
        var c := s.child.value;
        if s.children[c].asked.Abandoned? then
          s.(stops := s.stops[k := if s.children[c].alive then WaitingForExit(c) else Done])
        else Ask(s, c, Stop).(stops := s.stops[k := WaitingForExit(c)])
    case BuildKilled(k) => SetState(s, Stopped).(stops := s.stops[k := Done])
    case StopSeesExit(k) => s.(stops := s.stops[k := Done])
    case ChildExit =>
      var c := |s.children| - 1;
      var me := s.children[c];
      var s1 := s.(children := s.children[c := me.(alive := false)]);
      if !me.handled then s1
      else
        var unexpected := s.phase.Running? && me.asked.NotAsked?;
        SetState(s1.(child := None), Stopped)
        .(exits := if unexpected then s.exits + [c] else s.exits,
          start := if s.start == Racing(c) then RaceLost(c) else s.start)
  }

  // ----- runs -----

  predicate IsRun(s: State, steps: seq<Step>)
    decreases |steps|
  {
    steps == [] || (Enabled(s, steps[0]) && IsRun(Apply(s, steps[0]), steps[1..]))
  }

  function After(s: State, steps: seq<Step>): State
    requires IsRun(s, steps)
    decreases |steps|
  {
    if steps == [] then s else After(Apply(s, steps[0]), steps[1..])
  }

  // ----- the invariant -----

  predicate BeforeSpawn(pc: StartPc) {
    pc.ReadingPacks? || pc.PickingPort? || pc.PickingInspector? || pc.AwaitingBuild?
  }

  predicate OfChild(pc: StartPc, c: nat) {
    match pc
    case Undoing(d) => d == c
    case Racing(d) => d == c
    case RaceLost(d) => d == c
    case AwaitingExit(d) => d == c
    case Abandoning(d) => d == c
    case _ => false
  }

  predicate AfterSpawn(pc: StartPc) {
    pc.Undoing? || pc.Racing? || pc.RaceLost? || pc.AwaitingExit? || pc.Abandoning?
  }

  ghost predicate StopWaits(s: State, c: nat) {
    exists k: nat :: k < |s.stops| && s.stops[k] == WaitingForExit(c)
  }

  /** The launcher's child, its phase and the start in flight agree. */
  ghost predicate PhaseAgrees(s: State) {
    && (s.child.Some? <==> s.phase.Starting? || s.phase.Running?)
    && (s.child.Some? ==> Known(s, s.child.value) && s.child.value == |s.children| - 1)
    && (s.phase.Running? ==> s.port && s.start.NotStarting?)
    && (BeforeSpawn(s.start) ==> s.child.None? && (s.phase.Building? || s.buildCancelled))
    && (s.phase.Building? ==> BeforeSpawn(s.start))
    && (s.start.StoppingJobs? ==> s.phase.Stopped?)
    && (AfterSpawn(s.start) ==> Known(s, s.start.child) && s.start.child == |s.children| - 1)
    && (forall k: nat | k < |s.stops| && s.stops[k].KillingBuild? ::
          s.buildCancelled && s.child.None? && (BeforeSpawn(s.start) || s.start.NotStarting?))
  }

  /** What is known of the child `c`, whatever the launcher does with it. */
  ghost predicate ChildAgrees(s: State, c: nat)
    requires Known(s, c)
  {
    var me := s.children[c];
    && (me.alive ==> s.child == Some(c))
    && (s.child == Some(c) ==> me.alive || s.start == Undoing(c))
    && (s.child == Some(c) ==> (s.phase.Running? <==> me.ran))
    && (!me.handled <==> s.start == Undoing(c) || (me.outcome.Threw? && !me.handled))
    && (OfChild(s.start, c) <==> me.outcome.Pending?)
    && (me.ran <==> me.outcome.Returned?)
    && match s.start
       case Undoing(d) => d == c ==> s.child == Some(c) && !me.asked.Abandoned?
       case Racing(d) => d == c ==> me.alive && me.handled && !me.asked.Abandoned?
       case RaceLost(d) => d == c ==> !me.alive && me.handled && !me.asked.Abandoned?
       case AwaitingExit(d) => d == c ==> me.handled && me.asked.Stop?
       case Abandoning(d) => d == c ==> me.handled && (me.asked.Abandoned? || (!me.alive && me.asked.NotAsked?))
       case _ => true
  }

  /** How a start ended, in terms of what was asked of its child. */
  ghost predicate OutcomeAgrees(s: State, c: nat)
    requires Known(s, c)
  {
    var me := s.children[c];
    match me.outcome
    case Pending => true
    case Returned => true
    case Undefined => me.handled && me.asked.Stop?
    case Threw => !me.alive && (me.handled ==> !me.asked.Stop?)
  }

  /** An ask is being waited for; an exit event is for a child that ran and was not asked. */
  ghost predicate AskAgrees(s: State, c: nat)
    requires Known(s, c)
  {
    var me := s.children[c];
    && (me.alive && me.asked.Stop? ==> StopWaits(s, c))
    && (me.alive && me.asked.Abandoned? ==> s.start == Abandoning(c))
  }

  ghost predicate ExitAgrees(s: State, c: nat)
    requires Known(s, c)
  {
    var me := s.children[c];
    && (c in s.exits <==> !me.alive && me.ran && me.asked.NotAsked?)
  }

  ghost predicate ChildInv(s: State, c: nat)
    requires Known(s, c)
  {
    ChildAgrees(s, c) && OutcomeAgrees(s, c) && AskAgrees(s, c) && ExitAgrees(s, c)
  }

  /** A stop that waits for a child holds off the next start. */
  ghost predicate WaitIsForLast(s: State, c: nat) {
    c + 1 == |s.children| && !BeforeSpawn(s.start) && !s.start.StoppingJobs?
  }

  ghost predicate ExitsOnce(s: State) {
    && (forall i: nat, j: nat | i < j < |s.exits| :: s.exits[i] != s.exits[j])
    && (forall i: nat | i < |s.exits| :: Known(s, s.exits[i]))
  }

  ghost predicate Inv(s: State) {
    && PhaseAgrees(s)
    && (forall c: nat | c < |s.children| :: ChildInv(s, c))
    && (forall k: nat | k < |s.stops| && s.stops[k].WaitingForExit? :: WaitIsForLast(s, s.stops[k].child))
    && ExitsOnce(s)
  }

  // ----- every step keeps the invariant -----

  predicate StartPiece(step: Step) {
    step.StartCall? || step.JobsStopped? || step.PacksRead? || step.PortPicked? || step.InspectorPicked?
  }

  predicate RacePiece(step: Step) {
    step.Undone? || step.RaceReady? || step.RaceFailed? || step.RaceExited? || step.ExitAwaited? || step.AbandonEnded?
  }

  predicate StopPiece(step: Step) {
    step.StopCall? || step.StopRuns? || step.BuildKilled? || step.StopSeesExit?
  }

  lemma StartKeepsPhase(s: State, step: Step)
    requires Inv(s) && Enabled(s, step) && StartPiece(step)
    ensures PhaseAgrees(Apply(s, step))
  {
    if s.children != [] {
      assert ChildInv(s, |s.children| - 1);
    }
  }

  lemma StartKeepsChild(s: State, step: Step, c: nat)
    requires Inv(s) && Enabled(s, step) && StartPiece(step)
    requires Known(Apply(s, step), c)
    ensures ChildAgrees(Apply(s, step), c) && OutcomeAgrees(Apply(s, step), c)
  {
    if Known(s, c) {
      assert ChildInv(s, c);
    }
    if s.children != [] {
      assert ChildInv(s, |s.children| - 1);
    }
  }

  lemma BuildKeepsPhase(s: State, step: Step)
    requires Inv(s) && Enabled(s, step) && step.BuildEnded?
    ensures PhaseAgrees(Apply(s, step))
  {
    if s.children != [] {
      assert ChildInv(s, |s.children| - 1);
    }
  }

  lemma BuildKeepsChild(s: State, step: Step, c: nat)
    requires Inv(s) && Enabled(s, step) && step.BuildEnded?
    requires Known(Apply(s, step), c)
    ensures ChildAgrees(Apply(s, step), c) && OutcomeAgrees(Apply(s, step), c)
  {
    if Known(s, c) {
      assert ChildInv(s, c);
    }
    if s.children != [] {
      assert ChildInv(s, |s.children| - 1);
    }
  }

  lemma RaceKeepsPhase(s: State, step: Step)
    requires Inv(s) && Enabled(s, step) && RacePiece(step)
    ensures PhaseAgrees(Apply(s, step))
  {
    if s.children != [] {
      assert ChildInv(s, |s.children| - 1);
    }
  }

  lemma RaceKeepsThis(s: State, step: Step, c: nat)
    requires Enabled(s, step) && RacePiece(step) && Known(s, c) && PhaseAgrees(s)
    requires ChildAgrees(s, c) && OutcomeAgrees(s, c) && ChildAgrees(s, |s.children| - 1)
    ensures |Apply(s, step).children| == |s.children|
    ensures ChildAgrees(Apply(s, step), c) && OutcomeAgrees(Apply(s, step), c)
  {
  }

  lemma RaceKeepsChild(s: State, step: Step, c: nat)
    requires Inv(s) && Enabled(s, step) && RacePiece(step) && Known(s, c)
    ensures Known(Apply(s, step), c)
    ensures ChildAgrees(Apply(s, step), c) && OutcomeAgrees(Apply(s, step), c)
  {
    assert ChildInv(s, c) && ChildInv(s, |s.children| - 1);
    RaceKeepsThis(s, step, c);
  }

  lemma StopKeepsPhase(s: State, step: Step)
    requires Inv(s) && Enabled(s, step) && StopPiece(step)
    ensures PhaseAgrees(Apply(s, step))
  {
    if s.children != [] {
      assert ChildInv(s, |s.children| - 1);
    }
  }

  lemma StopKeepsChild(s: State, step: Step, c: nat)
    requires Inv(s) && Enabled(s, step) && StopPiece(step)
    requires Known(Apply(s, step), c)
    ensures ChildAgrees(Apply(s, step), c) && OutcomeAgrees(Apply(s, step), c)
  {
    if Known(s, c) {
      assert ChildInv(s, c);
    }
    if s.children != [] {
      assert ChildInv(s, |s.children| - 1);
    }
  }

  lemma ExitKeepsPhase(s: State, step: Step)
    requires Inv(s) && Enabled(s, step) && step.ChildExit?
    ensures PhaseAgrees(Apply(s, step))
  {
    if s.children != [] {
      assert ChildInv(s, |s.children| - 1);
    }
  }

  lemma ExitKeepsChild(s: State, step: Step, c: nat)
    requires Inv(s) && Enabled(s, step) && step.ChildExit?
    requires Known(Apply(s, step), c)
    ensures ChildAgrees(Apply(s, step), c) && OutcomeAgrees(Apply(s, step), c)
  {
    if Known(s, c) {
      assert ChildInv(s, c);
    }
    if s.children != [] {
      assert ChildInv(s, |s.children| - 1);
    }
  }

  lemma StopsOnlyFinish(s: State, step: Step, k: nat)
    requires Enabled(s, step) && k < |s.stops|
    ensures k < |Apply(s, step).stops|
    ensures || Apply(s, step).stops[k] == s.stops[k]
            || (step.StopRuns? && step.k == k)
            || (step.BuildKilled? && step.k == k)
         || (step.StopSeesExit? && step.k == k)
  {
  }

  /** A stop keeps waiting while its child lives. */
  lemma StopKeepsWaiting(s: State, step: Step, c: nat)
    requires Enabled(s, step) && Known(s, c) && StopWaits(s, c)
    requires Known(Apply(s, step), c) && s.children[c].alive
    ensures StopWaits(Apply(s, step), c)
  {
    var k: nat :| k < |s.stops| && s.stops[k] == WaitingForExit(c);
    StopsOnlyFinish(s, step, k);
    assert Apply(s, step).stops[k] == WaitingForExit(c);
  }

  lemma NewAskIsAwaited(s: State, step: Step, c: nat)
    requires Inv(s) && Enabled(s, step) && Known(s, c) && Known(Apply(s, step), c)
    requires s.children[c].alive && !s.children[c].asked.Stop? && Apply(s, step).children[c].asked.Stop?
    ensures AskAgrees(Apply(s, step), c)
  {
    assert ChildInv(s, c);
    assert step.StopRuns? && Apply(s, step).stops[step.k] == WaitingForExit(c);
  }

  lemma AbandonedIsAwaited(s: State, step: Step, c: nat)
    requires Inv(s) && Enabled(s, step) && Known(s, c) && Known(Apply(s, step), c)
    requires s.children[c].alive && !Apply(s, step).children[c].asked.Stop?
    ensures AskAgrees(Apply(s, step), c)
  {
    assert ChildInv(s, c);
  }

  lemma NewChildIsUnasked(s: State, step: Step, c: nat)
    requires Enabled(s, step) && !Known(s, c) && Known(Apply(s, step), c)
    ensures AskAgrees(Apply(s, step), c)
  {
  }

  lemma StepKeepsAsk(s: State, step: Step, c: nat)
    requires Inv(s) && Enabled(s, step)
    requires Known(Apply(s, step), c)
    ensures AskAgrees(Apply(s, step), c)
  {
    if !Known(s, c) {
      NewChildIsUnasked(s, step, c);
    } else {
      var was, now := s.children[c], Apply(s, step).children[c];
      assert now.alive ==> was.alive;
      if now.alive && was.asked.Stop? {
        assert ChildInv(s, c);
        StopKeepsWaiting(s, step, c);
      } else if now.alive && now.asked.Stop? {
        NewAskIsAwaited(s, step, c);
      } else if now.alive {
        AbandonedIsAwaited(s, step, c);
      }
    }
  }

  lemma OnlyExitReports(s: State, step: Step)
    requires Enabled(s, step) && !step.ChildExit?
    ensures Apply(s, step).exits == s.exits && |Apply(s, step).children| >= |s.children|
  {
  }

  lemma OnlyExitKills(s: State, step: Step, c: nat)
    requires Enabled(s, step) && !step.ChildExit? && Known(Apply(s, step), c)
    ensures Known(s, c) ==> Apply(s, step).children[c].alive == s.children[c].alive
    ensures !Known(s, c) ==> Apply(s, step).children[c].alive
  {
  }

  lemma DeadChildIsSettled(s: State, step: Step, c: nat)
    requires Inv(s) && Enabled(s, step) && !step.ChildExit? && Known(s, c) && !s.children[c].alive
    ensures Known(Apply(s, step), c)
    ensures Apply(s, step).children[c].asked == s.children[c].asked
    ensures Apply(s, step).children[c].ran == s.children[c].ran
  {
    assert ChildInv(s, c);
  }

  lemma StepKeepsExits(s: State, step: Step, c: nat)
    requires Inv(s) && Enabled(s, step)
    requires Known(Apply(s, step), c)
    ensures ExitAgrees(Apply(s, step), c)
  {
    assert Known(s, c) ==> ChildInv(s, c);
    if step.ChildExit? {
      assert ChildInv(s, |s.children| - 1);
    } else {
      OnlyExitReports(s, step);
      OnlyExitKills(s, step, c);
      if Known(s, c) && !s.children[c].alive {
        DeadChildIsSettled(s, step, c);
      }
    }
  }

  /** The last child stays the last one while a stop waits for it. */
  lemma LastStaysLast(s: State, step: Step, k: nat, c: nat)
    requires Inv(s) && Enabled(s, step) && k < |s.stops| && s.stops[k] == WaitingForExit(c)
    ensures WaitIsForLast(Apply(s, step), c)
  {
    assert WaitIsForLast(s, c);
  }

  lemma NewStopIsForLast(s: State, step: Step, k: nat)
    requires Inv(s) && Enabled(s, step)
    requires k < |Apply(s, step).stops| && Apply(s, step).stops[k].WaitingForExit?
    requires k < |s.stops| ==> s.stops[k] != Apply(s, step).stops[k]
    ensures WaitIsForLast(Apply(s, step), Apply(s, step).stops[k].child)
  {
    if k < |s.stops| {
      StopsOnlyFinish(s, step, k);
    }
  }

  lemma StepKeepsStops(s: State, step: Step, k: nat)
    requires Inv(s) && Enabled(s, step)
    requires k < |Apply(s, step).stops| && Apply(s, step).stops[k].WaitingForExit?
    ensures WaitIsForLast(Apply(s, step), Apply(s, step).stops[k].child)
  {
    if k < |s.stops| && s.stops[k] == Apply(s, step).stops[k] {
      LastStaysLast(s, step, k, s.stops[k].child);
    } else {
      NewStopIsForLast(s, step, k);
    }
  }

  lemma StepKeepsInv(s: State, step: Step)
    requires Inv(s) && Enabled(s, step)
    ensures Inv(Apply(s, step))
  {
    var s' := Apply(s, step);
    if StartPiece(step) { StartKeepsPhase(s, step); }
    else if step.BuildEnded? { BuildKeepsPhase(s, step); }
    else if RacePiece(step) { RaceKeepsPhase(s, step); }
    else if StopPiece(step) { StopKeepsPhase(s, step); }
    else { ExitKeepsPhase(s, step); }
    forall c: nat | c < |s'.children|
      ensures ChildInv(s', c)
    {
      StepKeepsAsk(s, step, c);
      StepKeepsExits(s, step, c);
      if StartPiece(step) { StartKeepsChild(s, step, c); }
      else if step.BuildEnded? { BuildKeepsChild(s, step, c); }
      else if RacePiece(step) { RaceKeepsChild(s, step, c); }
      else if StopPiece(step) { StopKeepsChild(s, step, c); }
      else { ExitKeepsChild(s, step, c); }
    }
    forall k: nat | k < |s'.stops| && s'.stops[k].WaitingForExit?
      ensures WaitIsForLast(s', s'.stops[k].child)
    {
      StepKeepsStops(s, step, k);
    }
    StepKeepsExitList(s, step);
  }

  lemma StepKeepsExitList(s: State, step: Step)
    requires Inv(s) && Enabled(s, step)
    ensures ExitsOnce(Apply(s, step))
  {
    if step.ChildExit? {
      assert ChildInv(s, |s.children| - 1);
    } else {
      OnlyExitReports(s, step);
    }
  }

  lemma {:induction false} RunKeepsInv(s: State, steps: seq<Step>)
    requires Inv(s) && IsRun(s, steps)
    ensures Inv(After(s, steps))
    decreases |steps|
  {
    if steps != [] {
      StepKeepsInv(s, steps[0]);
      RunKeepsInv(Apply(s, steps[0]), steps[1..]);
    }
  }

  // ----- main results -----

  /** The "exit" event is emitted for a child exactly when it died while running unasked, and
      at most once, in every interleaving. */
  lemma ExitEventIffDiedUnasked(steps: seq<Step>, c: nat)
    requires IsRun(INITIAL, steps) && Known(After(INITIAL, steps), c)
    ensures var end := After(INITIAL, steps);
            && (c in end.exits <==> !end.children[c].alive && end.children[c].ran && end.children[c].asked.NotAsked?)
            && multiset(end.exits)[c] <= 1
  {
    RunKeepsInv(INITIAL, steps);
    var end := After(INITIAL, steps);
    assert ChildInv(end, c);
    AtMostOnce(end.exits, c);
  }

  lemma {:induction false} AtMostOnce(list: seq<nat>, x: nat)
    requires forall i: nat, j: nat | i < j < |list| :: list[i] != list[j]
    ensures multiset(list)[x] <= 1
  {
    if list != [] {
      var last := |list| - 1;
      assert list == list[..last] + [list[last]];
      AtMostOnce(list[..last], x);
      if list[last] == x {
        assert x !in list[..last];
      }
    }
  }

  /** A child that died before it ran is reported by nothing but its own start: that start is
      still at an await, or it threw, or it was cancelled by a stop. */
  lemma EarlyDeathIsReportedByStart(steps: seq<Step>, c: nat)
    requires IsRun(INITIAL, steps) && Known(After(INITIAL, steps), c)
    ensures var end := After(INITIAL, steps);
            !end.children[c].alive && !end.children[c].ran ==>
              && c !in end.exits
              && (end.children[c].outcome.Pending? ==> OfChild(end.start, c))
              && (end.children[c].outcome.Undefined? ==> end.children[c].asked.Stop?)
              && !end.children[c].outcome.Returned?
  {
    RunKeepsInv(INITIAL, steps);
    assert ChildInv(After(INITIAL, steps), c);
  }

  /** The step that enters "running" is the ready answer of a live child nobody asked. */
  lemma OnlyUnaskedChildrenRun(s: State, step: Step)
    requires Inv(s) && Enabled(s, step)
    requires Apply(s, step).phase.Running? && !s.phase.Running?
    ensures step.RaceReady? && s.child == Some(s.start.child)
    ensures s.children[s.start.child].alive && s.children[s.start.child].asked.NotAsked?
  {
    assert AfterSpawn(s.start) ==> ChildInv(s, s.start.child);
  }

  /** Once asked to stop, a child that has not run never will. */
  lemma {:induction false} StoppedChildNeverRuns(s: State, steps: seq<Step>, c: nat)
    requires Inv(s) && IsRun(s, steps) && Known(s, c)
    requires s.children[c].asked.Stop? && !s.children[c].ran
    ensures Known(After(s, steps), c) && !After(s, steps).children[c].ran
    decreases |steps|
  {
    if steps != [] {
      StepKeepsInv(s, steps[0]);
      AskStaysStop(s, steps[0], c);
      StoppedChildNeverRuns(Apply(s, steps[0]), steps[1..], c);
    }
  }

  lemma AskStaysStop(s: State, step: Step, c: nat)
    requires Inv(s) && Enabled(s, step) && Known(s, c)
    requires s.children[c].asked.Stop? && !s.children[c].ran
    ensures Known(Apply(s, step), c)
    ensures Apply(s, step).children[c].asked.Stop? && !Apply(s, step).children[c].ran
  {
    assert ChildInv(s, c);
  }

  /** With no start and no stop pending there is nothing half started: the system is stopped,
      or it is running and its child is alive. */
  lemma QuietIsStoppedOrRunning(steps: seq<Step>)
    requires IsRun(INITIAL, steps)
    requires After(INITIAL, steps).start.NotStarting? && StopsDone(After(INITIAL, steps))
    ensures var end := After(INITIAL, steps);
            && (end.phase.Stopped? || end.phase.Running?)
            && (end.phase.Running? <==> exists c: nat :: Known(end, c) && end.children[c].alive)
            && (end.port ==> end.phase.Running?)
  {
    RunKeepsInv(INITIAL, steps);
    RunKeepsPort(INITIAL, steps);
    var end := After(INITIAL, steps);
    assert forall c: nat | Known(end, c) :: ChildInv(end, c);
    if end.child.Some? {
      var c := end.child.value;
      assert ChildInv(end, c) && !StopWaits(end, c);
    }
  }

  lemma {:induction false} RunKeepsPort(s: State, steps: seq<Step>)
    requires Inv(s) && IsRun(s, steps) && (s.port ==> s.phase.Running?)
    ensures After(s, steps).port ==> After(s, steps).phase.Running?
    decreases |steps|
  {
    if steps != [] {
      StepKeepsInv(s, steps[0]);
      assert PhaseAgrees(s) && PhaseAgrees(Apply(s, steps[0]));
      RunKeepsPort(Apply(s, steps[0]), steps[1..]);
    }
  }

  /** When a stop returns, the state reads "stopped" and the child is forgotten, except while the start
      itself still terminates that child because its pid could not be recorded: such a child has no
      exit handler. */
  lemma StopReturnsStopped(s: State, step: Step, k: nat)
    requires Inv(s) && Enabled(s, step) && k < |s.stops| && !s.stops[k].Done? && Apply(s, step).stops[k].Done?
    ensures Apply(s, step).phase.Stopped? && Apply(s, step).child.None? <==>
            !(s.stops[k].WaitingForExit? && s.start == Undoing(s.stops[k].child))
  {
    assert s.child.Some? ==> ChildInv(s, s.child.value);
    if s.stops[k].WaitingForExit? {
      assert ChildInv(s, s.stops[k].child);
      assert WaitIsForLast(s, s.stops[k].child);
    }
  }

  /** A start whose lock could not be written, with a stop that waits for the same child. */
  function UnrecordedRun(): seq<Step> {
    [StartCall, JobsStopped, PacksRead(true), PortPicked(true, false, true), BuildEnded(false, true, true, false),
     StopCall, StopRuns(0), ChildExit]
  }

  lemma RunOn(s: State, steps: seq<Step>)
    requires steps != [] && Enabled(s, steps[0]) && IsRun(Apply(s, steps[0]), steps[1..])
    ensures IsRun(s, steps) && After(s, steps) == After(Apply(s, steps[0]), steps[1..])
  {
  }

  /** The state in which that run ends. */
  function Unrecorded(): State {
    State(Starting, Some(0), false, false, [Child(false, false, Stop, false, Pending)], Undoing(0), [WaitingForExit(0)],
          [Building, Starting], [])
  }

  /** That exception occurs: the stop returns while the state still reads "starting". */
  lemma StopMayReturnEarly()
    ensures IsRun(INITIAL, UnrecordedRun()) && After(INITIAL, UnrecordedRun()) == Unrecorded()
    ensures Enabled(Unrecorded(), StopSeesExit(0)) && Apply(Unrecorded(), StopSeesExit(0)).phase.Starting?
    ensures StopsDone(Apply(Unrecorded(), StopSeesExit(0)))
  {
    var steps := UnrecordedRun();
    var s1 := Apply(INITIAL, StartCall);
    var s2 := Apply(s1, JobsStopped);
    var s3 := Apply(s2, PacksRead(true));
    var s4 := Apply(s3, PortPicked(true, false, true));
    var s5 := Apply(s4, BuildEnded(false, true, true, false));
    var s6 := Apply(s5, StopCall);
    var s7 := Apply(s6, StopRuns(0));
    assert Apply(s7, ChildExit) == Unrecorded();
    RunOn(s7, steps[7..]);
    RunOn(s6, steps[6..]);
    RunOn(s5, steps[5..]);
    RunOn(s4, steps[4..]);
    RunOn(s3, steps[3..]);
    RunOn(s2, steps[2..]);
    RunOn(s1, steps[1..]);
    RunOn(INITIAL, steps);
  }

  /** The moves a state listener may see. */
  predicate Edge(a: Phase, b: Phase) {
    b.Stopped? || (a.Stopped? && b.Building?) || (a.Building? && b.Starting?) || (a.Starting? && b.Running?)
  }

  predicate Moves(from: Phase, phases: seq<Phase>, to: Phase)
    decreases |phases|
  {
    if phases == [] then from == to else Edge(from, phases[0]) && Moves(phases[0], phases[1..], to)
  }

  lemma {:induction false} MovesThen(from: Phase, phases: seq<Phase>, mid: Phase, to: Phase)
    requires Moves(from, phases, mid) && Edge(mid, to)
    ensures Moves(from, phases + [to], to)
    decreases |phases|
  {
    if phases == [] {
    } else {
      MovesThen(phases[0], phases[1..], mid, to);
      assert (phases + [to])[1..] == phases[1..] + [to];
    }
  }

  /** One piece of code reports at most two states: "starting", and "stopped" at once when the
      spawn fails. */
  lemma StepReports(s: State, step: Step)
    requires Inv(s) && Enabled(s, step)
    ensures var s' := Apply(s, step);
            || (s'.phases == s.phases && s'.phase == s.phase)
            || (s'.phases == s.phases + [s'.phase] && Edge(s.phase, s'.phase))
            || (s'.phases == (s.phases + [Starting]) + [Stopped] && s.phase.Building? && s'.phase.Stopped?)
  {
    assert AfterSpawn(s.start) ==> ChildInv(s, s.start.child);
  }

  lemma StepMoves(s: State, step: Step)
    requires Inv(s) && Enabled(s, step) && Moves(Stopped, s.phases, s.phase)
    ensures Moves(Stopped, Apply(s, step).phases, Apply(s, step).phase)
  {
    var s' := Apply(s, step);
    StepReports(s, step);
    if s'.phases == s.phases + [s'.phase] && Edge(s.phase, s'.phase) {
      MovesThen(Stopped, s.phases, s.phase, s'.phase);
    } else if s'.phases != s.phases {
      MovesThen(Stopped, s.phases, s.phase, Starting);
      MovesThen(Stopped, s.phases + [Starting], Starting, Stopped);
    }
  }

  /** States move only along stopped, building, starting, running, or back to stopped. */
  lemma {:induction false} PhasesMoveAlongEdges(s: State, steps: seq<Step>)
    requires Inv(s) && IsRun(s, steps) && Moves(Stopped, s.phases, s.phase)
    ensures Moves(Stopped, After(s, steps).phases, After(s, steps).phase)
    decreases |steps|
  {
    if steps != [] {
      StepMoves(s, steps[0]);
      StepKeepsInv(s, steps[0]);
      PhasesMoveAlongEdges(Apply(s, steps[0]), steps[1..]);
    }
  }

  // ----- the class: one method per piece of code between two awaits -----

  /** The fields of the source's class that the pieces read and write, the awaits at which
      its calls are, and what it has emitted. */
  class Launcher {
    var phase: Phase
    var child: Option<nat>
    var port: bool
    var buildCancelled: bool
    var children: seq<Child>
    var start: StartPc
    var stops: seq<StopPc>
    var phases: seq<Phase>
    var exits: seq<nat>

    function Abs(): State
      reads this
    {
      State(phase, child, port, buildCancelled, children, start, stops, phases, exits)
    }

    constructor ()
      ensures Abs() == INITIAL
    {
      phase, child, port, buildCancelled := Stopped, None, false, false;
      children, start, stops, phases, exits := [], NotStarting, [], [], [];
    }

    method Enter(to: Phase)
      modifies this`phase, this`port, this`phases
      ensures Abs() == SetState(old(Abs()), to)
    {
      if to.Stopped? {
        port := false;
      }
      phase := to;
      phases := phases + [to];
    }

    method Mark(c: nat, reason: Reason)
      requires Known(Abs(), c)
      modifies this`children
      ensures Abs() == Ask(old(Abs()), c, reason)
    {
      if children[c].alive {
        children := children[c := children[c].(asked := reason)];
      }
    }

    /** The start ends with `outcome`, for the child it had spawned if there was one. */
    method Settle(c: nat, outcome: Outcome)
      requires Known(Abs(), c)
      modifies this`start, this`children
      ensures Abs() == EndStart(old(Abs()), c, outcome)
    {
      start := NotStarting;
      children := children[c := children[c].(outcome := outcome)];
    }

    method GiveUp()
      modifies this
      ensures Abs() == Fail(old(Abs()))
    {
      Enter(Stopped);
      start := NotStarting;
    }

    /** start(): refuses unless stopped, then waits for the job worker. */
    method BeginStart() returns (accepted: bool)
      requires Enabled(Abs(), StartCall)
      modifies this
      ensures Abs() == Apply(old(Abs()), StartCall)
      ensures accepted <==> old(phase).Stopped?
    {
      accepted := phase.Stopped?;
      if accepted {
        start := StoppingJobs;
      }
    }

    method BeginBuilding()
      requires Enabled(Abs(), JobsStopped)
      modifies this
      ensures Abs() == Apply(old(Abs()), JobsStopped)
    {
      buildCancelled := false;
      Enter(Building);
      start := ReadingPacks;
    }

    method ReadPacks(duckdbOk: bool)
      requires Enabled(Abs(), PacksRead(duckdbOk))
      modifies this
      ensures Abs() == Apply(old(Abs()), PacksRead(duckdbOk))
    {
      if !duckdbOk {
        GiveUp();
      } else {
        start := PickingPort;
      }
    }

    method Build(lockOk: bool)
      modifies this
      ensures Abs() == LockAndBuild(old(Abs()), lockOk)
    {
      if !lockOk {
        GiveUp();
      } else {
        start := AwaitingBuild;
      }
    }

    method PickPort(ok: bool, debug: bool, lockOk: bool)
      requires Enabled(Abs(), PortPicked(ok, debug, lockOk))
      modifies this
      ensures Abs() == Apply(old(Abs()), PortPicked(ok, debug, lockOk))
    {
      if !ok || buildCancelled {
        GiveUp();
      } else if debug {
        start := PickingInspector;
      } else {
        Build(lockOk);
      }
    }

    method PickInspector(lockOk: bool)
      requires Enabled(Abs(), InspectorPicked(lockOk))
      modifies this
      ensures Abs() == Apply(old(Abs()), InspectorPicked(lockOk))
    {
      Build(lockOk);
    }

    /** The build ended: spawn the server and record it in the serving lock. */
    method SpawnServer(rejected: bool, codeOk: bool, spawnOk: bool, recordOk: bool)
      requires Enabled(Abs(), BuildEnded(rejected, codeOk, spawnOk, recordOk))
      modifies this
      ensures Abs() == Apply(old(Abs()), BuildEnded(rejected, codeOk, spawnOk, recordOk))
    {
      if rejected || buildCancelled || !codeOk {
        GiveUp();
        return;
      }
      Enter(Starting);
      if !spawnOk {
        GiveUp();
        return;
      }
      child := Some(|children|);
      start := if recordOk then Racing(|children|) else Undoing(|children|);
      children := children + [Child(true, recordOk, NotAsked, false, Pending)];
    }

    method UndoSpawn()
      requires Enabled(Abs(), Undone)
      modifies this
      ensures Abs() == Apply(old(Abs()), Undone)
    {
      child := None;
      Enter(Stopped);
      Settle(start.child, Threw);
    }

    /** The child answered ready: a stop that came first wins over the answer. */
    method WinRace()
      requires Enabled(Abs(), RaceReady)
      modifies this
      ensures Abs() == Apply(old(Abs()), RaceReady)
    {
      var c := start.child;
      if children[c].asked.Stop? {
        Settle(c, Undefined);
      } else {
        port := true;
        Enter(Running);
        Settle(c, Returned);
        children := children[c := children[c].(ran := true)];
      }
    }

    method FailRace()
      requires Enabled(Abs(), RaceFailed)
      modifies this
      ensures Abs() == Apply(old(Abs()), RaceFailed)
    {
      var c := start.child;
      if children[c].asked.Stop? {
        start := AwaitingExit(c);
      } else {
        Mark(c, Abandoned);
        start := Abandoning(c);
      }
    }

    method LoseRace()
      requires Enabled(Abs(), RaceExited)
      modifies this
      ensures Abs() == Apply(old(Abs()), RaceExited)
    {
      var c := start.child;
      if children[c].asked.Stop? {
        Settle(c, Undefined);
      } else {
        start := Abandoning(c);
      }
    }

    method EndCancelled()
      requires Enabled(Abs(), ExitAwaited)
      modifies this
      ensures Abs() == Apply(old(Abs()), ExitAwaited)
    {
      Settle(start.child, Undefined);
    }

    method EndAbandoned()
      requires Enabled(Abs(), AbandonEnded)
      modifies this
      ensures Abs() == Apply(old(Abs()), AbandonEnded)
    {
      if !phase.Stopped? {
        Enter(Stopped);
      }
      Settle(start.child, Threw);
    }

    method BeginStop() returns (k: nat)
      modifies this`stops
      ensures Abs() == Apply(old(Abs()), StopCall) && k == |old(stops)|
    {
      k := |stops|;
      stops := stops + [WaitingForJobs];
    }

    /** stop(), once the job worker is out of the way. */
    method RunStop(k: nat)
      requires Enabled(Abs(), StopRuns(k))
      modifies this
      ensures Abs() == Apply(old(Abs()), StopRuns(k))
    {
      if phase.Building? {
        buildCancelled := true;
        stops := stops[k := KillingBuild];
      } else if child.None? {
        Enter(Stopped);
        stops := stops[k := Done];
      } else {
        var c := child.value;
        if children[c].asked.Abandoned? {
          stops := stops[k := if children[c].alive then WaitingForExit(c) else Done];
        } else {
          Mark(c, Stop);
          stops := stops[k := WaitingForExit(c)];
        }
      }
    }

    method EndBuildStop(k: nat)
      requires Enabled(Abs(), BuildKilled(k))
      modifies this
      ensures Abs() == Apply(old(Abs()), BuildKilled(k))
    {
      Enter(Stopped);
      stops := stops[k := Done];
    }

    method EndStop(k: nat)
      requires Enabled(Abs(), StopSeesExit(k))
      modifies this
      ensures Abs() == Apply(old(Abs()), StopSeesExit(k))
    {
      stops := stops[k := Done];
    }

    /** The child's "exit" event. */
    method OnExit()
      requires Enabled(Abs(), ChildExit)
      modifies this
      ensures Abs() == Apply(old(Abs()), ChildExit)
    {
      var c := |children| - 1;
      var me := children[c];
      children := children[c := me.(alive := false)];
      if me.handled {
        var unexpected := phase.Running? && me.asked.NotAsked?;
        child := None;
        Enter(Stopped);
        if unexpected {
          exits := exits + [c];
        }
        if start == Racing(c) {
          start := RaceLost(c);
        }
      }
    }
  }
}

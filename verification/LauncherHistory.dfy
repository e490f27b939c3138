/** What the launcher reports, told by what happened in a run: which child's life had a ready answer
    or a stop in it, and what became of each attempt to start. */
module LauncherHistory {
  import opened Basics
  import opened LauncherLifecycle

  /** What happened to a child between its spawn and its exit: an answer that it is ready, if no stop
      ran before, a stop, its death. */
  datatype Life = Life(answered: bool, stopped: bool, died: bool)

  predicate Spawns(s: State, step: Step)
    requires Enabled(s, step)
  {
    |Apply(s, step).children| > |s.children|
  }

  /** One more step in the life of the last child; a new one begins with its spawn. */
  function Live(lives: seq<Life>, spawns: bool, step: Step): seq<Life> {
    if spawns then lives + [Life(false, false, false)]
    else if lives == [] || lives[|lives| - 1].died then lives
    else
      var last := lives[|lives| - 1];
      lives[|lives| - 1 := match step
        case RaceReady => last.(answered := last.answered || !last.stopped)
        case StopRuns(_) => last.(stopped := true)
        case ChildExit => last.(died := true)
        case _ => last]
  }

  function Lives(s: State, lives: seq<Life>, steps: seq<Step>): seq<Life>
    requires IsRun(s, steps)
    decreases |steps|
  {
    if steps == [] then lives
    else Lives(Apply(s, steps[0]), Live(lives, Spawns(s, steps[0]), steps[0]), steps[1..])
  }

  ghost predicate LifeAgrees(s: State, c: nat, life: Life)
    requires Known(s, c)
  {
    var me := s.children[c];
    && life.died == !me.alive
    && (me.alive && life.stopped ==> !me.asked.NotAsked?)
    && (me.asked.Stop? ==> life.stopped)
    && (me.ran <==> life.answered)
    && (me.ran ==> !me.asked.Abandoned?)
    && (me.ran && life.stopped ==> me.asked.Stop?)
  }

  ghost predicate Told(s: State, lives: seq<Life>) {
    |lives| == |s.children| && forall c: nat | c < |lives| :: LifeAgrees(s, c, lives[c])
  }

  /** The children before the last one are gone. */
  lemma OnlyLastLives(s: State, c: nat)
    requires Inv(s) && Known(s, c) && s.children[c].alive
    ensures c == |s.children| - 1
  {
    assert ChildInv(s, c);
  }

  lemma SpawnIsTold(s: State, step: Step, lives: seq<Life>)
    requires Inv(s) && Enabled(s, step) && Told(s, lives) && Spawns(s, step)
    ensures Told(Apply(s, step), Live(lives, true, step))
  {
  }

  /** Nothing happens to the children before the last. */
  lemma EarlierStay(s: State, step: Step, c: nat)
    requires Enabled(s, step) && !Spawns(s, step) && c + 1 < |s.children| && PhaseAgrees(s)
    ensures Known(Apply(s, step), c) && Apply(s, step).children[c] == s.children[c]
  {
  }

  /** What else happens leaves the last child as it is, or marks it abandoned before it ran. */
  lemma OtherStepsPass(s: State, step: Step, c: nat)
    requires Enabled(s, step) && !Spawns(s, step) && Known(s, c) && PhaseAgrees(s) && ChildAgrees(s, c)
    requires !step.RaceReady? && !step.StopRuns? && !step.ChildExit?
    ensures Known(Apply(s, step), c)
    ensures var (me, after) := (s.children[c], Apply(s, step).children[c]);
            && after.alive == me.alive && after.ran == me.ran
            && (after.asked == me.asked || (after.asked.Abandoned? && me.alive && !me.ran && !me.asked.Stop?))
  {
  }

  lemma LastIsTold(s: State, step: Step, lives: seq<Life>, c: nat)
    requires Enabled(s, step) && !Spawns(s, step) && c + 1 == |s.children| == |lives|
    requires PhaseAgrees(s) && ChildAgrees(s, c) && LifeAgrees(s, c, lives[c])
    ensures |Apply(s, step).children| == c + 1 && LifeAgrees(Apply(s, step), c, Live(lives, false, step)[c])
  {
    if !step.RaceReady? && !step.StopRuns? && !step.ChildExit? {
      OtherStepsPass(s, step, c);
    }
  }

  lemma OthersAreTold(s: State, step: Step, lives: seq<Life>, c: nat)
    requires Enabled(s, step) && !Spawns(s, step) && c + 1 < |s.children| == |lives|
    requires PhaseAgrees(s) && ChildAgrees(s, c) && LifeAgrees(s, c, lives[c])
    ensures c < |Apply(s, step).children| && LifeAgrees(Apply(s, step), c, Live(lives, false, step)[c])
  {
    EarlierStay(s, step, c);
  }

  lemma StepIsTold(s: State, step: Step, lives: seq<Life>)
    requires Inv(s) && Enabled(s, step) && Told(s, lives)
    ensures Told(Apply(s, step), Live(lives, Spawns(s, step), step))
  {
    if Spawns(s, step) {
      SpawnIsTold(s, step, lives);
    } else {
      var told := Live(lives, false, step);
      forall c: nat | c < |told| ensures c < |Apply(s, step).children| && LifeAgrees(Apply(s, step), c, told[c]) {
        assert ChildInv(s, c) && LifeAgrees(s, c, lives[c]);
        if c + 1 < |s.children| {
          OthersAreTold(s, step, lives, c);
        } else {
          LastIsTold(s, step, lives, c);
        }
      }
    }
  }

  lemma {:induction false} RunIsTold(s: State, lives: seq<Life>, steps: seq<Step>)
    requires Inv(s) && IsRun(s, steps) && Told(s, lives)
    ensures Told(After(s, steps), Lives(s, lives, steps))
    decreases |steps|
  {
    if steps != [] {
      StepIsTold(s, steps[0], lives);
      StepKeepsInv(s, steps[0]);
      RunIsTold(Apply(s, steps[0]), Live(lives, Spawns(s, steps[0]), steps[0]), steps[1..]);
    }
  }

  /** An "exit" event is emitted for a child exactly when it died after a ready answer and no stop
      ran in its life, before or after that answer. */
  lemma ExitIffAnsweredAndNeverStopped(steps: seq<Step>, c: nat)
    requires IsRun(INITIAL, steps) && Known(After(INITIAL, steps), c)
    ensures var lives := Lives(INITIAL, [], steps);
            && |lives| == |After(INITIAL, steps).children|
            && (c in After(INITIAL, steps).exits <==> lives[c].died && lives[c].answered && !lives[c].stopped)
  {
    RunIsTold(INITIAL, [], steps);
    RunKeepsInv(INITIAL, steps);
    assert ChildInv(After(INITIAL, steps), c) && LifeAgrees(After(INITIAL, steps), c, Lives(INITIAL, [], steps)[c]);
  }

  /** The state is "running" exactly while the last child lives and has answered before any stop. */
  lemma RunningIffAnswered(steps: seq<Step>)
    requires IsRun(INITIAL, steps)
    ensures var lives := Lives(INITIAL, [], steps);
            After(INITIAL, steps).phase.Running? <==>
              lives != [] && !lives[|lives| - 1].died && lives[|lives| - 1].answered
  {
    var s, lives := After(INITIAL, steps), Lives(INITIAL, [], steps);
    RunIsTold(INITIAL, [], steps);
    RunKeepsInv(INITIAL, steps);
    if lives != [] {
      assert ChildInv(s, |lives| - 1) && LifeAgrees(s, |lives| - 1, lives[|lives| - 1]);
    }
  }

  /** A stop that meets a live child marks it, unless a start that gave up has already. */
  lemma StopMarks(s: State, k: nat)
    requires Inv(s) && Enabled(s, StopRuns(k)) && s.child.Some? && s.children[s.child.value].alive
    ensures var t := Apply(s, StopRuns(k));
            t.children[s.child.value].asked ==
            if s.children[s.child.value].asked.Abandoned? then Abandoned else Stop
  {
  }

  // ---- What became of an attempt to start

  /** What the pieces of the attempt in flight have come to. */
  datatype Attempt = Attempt(packs: bool, port: bool, lock: bool, stopped: bool)

  function Try(a: Attempt, s: State, step: Step): Attempt {
    match step
    case JobsStopped => Attempt(false, false, false, false)
    case PacksRead(ok) => a.(packs := ok)
    case PortPicked(ok, debug, lockOk) => a.(port := ok, lock := !debug && lockOk)
    case InspectorPicked(lockOk) => a.(lock := lockOk)
    case StopRuns(_) => a.(stopped := a.stopped || s.phase.Building?)
    case _ => a
  }

  function Tries(s: State, a: Attempt, steps: seq<Step>): Attempt
    requires IsRun(s, steps)
    decreases |steps|
  {
    if steps == [] then a else Tries(Apply(s, steps[0]), Try(a, s, steps[0]), steps[1..])
  }

  ghost predicate AttemptAgrees(s: State, a: Attempt) {
    && (BeforeSpawn(s.start) ==> (s.buildCancelled <==> a.stopped))
    && (s.start.PickingPort? ==> a.packs)
    && (s.start.PickingInspector? ==> a.packs && a.port && !a.lock)
    && (s.start.AwaitingBuild? ==> a.packs && a.port && a.lock)
  }

  lemma StepIsTried(s: State, step: Step, a: Attempt)
    requires PhaseAgrees(s) && Enabled(s, step) && AttemptAgrees(s, a)
    ensures AttemptAgrees(Apply(s, step), Try(a, s, step))
  {
  }

  lemma {:induction false} RunIsTried(s: State, a: Attempt, steps: seq<Step>)
    requires Inv(s) && IsRun(s, steps) && AttemptAgrees(s, a)
    ensures AttemptAgrees(After(s, steps), Tries(s, a, steps))
    decreases |steps|
  {
    if steps != [] {
      StepIsTried(s, steps[0], a);
      StepKeepsInv(s, steps[0]);
      RunIsTried(Apply(s, steps[0]), Try(a, s, steps[0]), steps[1..]);
    }
  }

  /** In every run a server is spawned exactly when the build and the spawn succeed, and no stop came
      while building; and a build is only run with the packs read, a port, and the lock. */
  lemma SpawnIffNothingFailed(steps: seq<Step>, step: Step)
    requires IsRun(INITIAL, steps) && Enabled(After(INITIAL, steps), step)
    ensures var a := Tries(INITIAL, Attempt(false, false, false, false), steps);
            && (Spawns(After(INITIAL, steps), step) <==>
                  step.BuildEnded? && !step.rejected && step.codeOk && step.spawnOk && !a.stopped)
            && (step.BuildEnded? ==> a.packs && a.port && a.lock)
  {
    var a := Attempt(false, false, false, false);
    RunIsTried(INITIAL, a, steps);
    RunKeepsInv(INITIAL, steps);
    SpawnStep(After(INITIAL, steps), Tries(INITIAL, a, steps), step);
  }

  lemma AttemptStep(s: State, a: Attempt, step: Step)
    requires Enabled(s, step) && BeforeSpawn(s.start) && PhaseAgrees(s) && AttemptAgrees(s, a)
    ensures Apply(s, step).start.NotStarting? <==> EndsAttempt(a, step)
  {
  }

  /** The piece fails, or finds that a stop has come. */
  predicate EndsAttempt(a: Attempt, step: Step) {
    match step
    case PacksRead(ok) => !ok
    case PortPicked(ok, debug, lockOk) => a.stopped || !ok || (!debug && !lockOk)
    case InspectorPicked(lockOk) => !lockOk
    case BuildEnded(rejected, codeOk, spawnOk, _) => a.stopped || rejected || !codeOk || !spawnOk
    case _ => false
  }

  lemma SpawnStep(s: State, a: Attempt, step: Step)
    requires Enabled(s, step) && PhaseAgrees(s) && AttemptAgrees(s, a)
    ensures Spawns(s, step) <==> step.BuildEnded? && !step.rejected && step.codeOk && step.spawnOk && !a.stopped
    ensures step.BuildEnded? ==> a.packs && a.port && a.lock
  {
  }

  /** An attempt ends before its spawn exactly where a piece of it failed, or a stop had come by the time
      its port was chosen or its build had ended. */
  lemma AttemptEndsIff(steps: seq<Step>, step: Step)
    requires IsRun(INITIAL, steps) && Enabled(After(INITIAL, steps), step) && BeforeSpawn(After(INITIAL, steps).start)
    ensures var a := Tries(INITIAL, Attempt(false, false, false, false), steps);
            Apply(After(INITIAL, steps), step).start.NotStarting? <==> EndsAttempt(a, step)
  {
    var a := Attempt(false, false, false, false);
    RunIsTried(INITIAL, a, steps);
    RunKeepsInv(INITIAL, steps);
    AttemptStep(After(INITIAL, steps), Tries(INITIAL, a, steps), step);
  }

  /** A stop that waits for no child reports "stopped" itself; the end of an abandoned child is reported
      by its exit, and not again by the start. */
  lemma StoppedIsReported(s: State, step: Step)
    requires Inv(s) && Enabled(s, step)
    ensures step.BuildKilled? || (step.StopRuns? && s.child.None? && !s.phase.Building?) ==>
              Apply(s, step).phases == s.phases + [Stopped]
    ensures step.AbandonEnded? ==> s.phase.Stopped? && Apply(s, step).phases == s.phases
  {
    assert AfterSpawn(s.start) ==> ChildInv(s, s.start.child);
  }
}

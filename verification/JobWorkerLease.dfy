/** The lease that lets one VS Code window at a time supervise the batch worker
    (`editors/vscode/job-worker.js`, class `JobWorker`).

    The windows are separate processes that share two file-system names: the lock file
    and the reclaim directory. A run is a sequence of steps, one system call each, of any
    number of supervisors; every supervisor, worker and guard may die between any two. */
module JobWorkerLease {
  import opened Basics

  /** The JSON text of a complete lock file. */
  datatype Owner = Owner(pid: nat, token: nat, worker: Option<nat>, guard: Option<nat>)

  /** `Torn` is the file between its exclusive creation and the write of its text. Readers
      see text that is not JSON; `pid` and `token` only say whose file it is. */
  datatype LockFile = Absent | Torn(pid: nat, token: nat) | Written(owner: Owner)

  /** Where a supervisor is inside `acquireLease`, or what it does with the lease. */
  datatype Pc =
    | Idle
    | Creating(token: nat)
    | Writing(token: nat, reclaiming: bool)
    | Reclaiming(token: nat)
    | Reading(token: nat)
    | CheckingPid(token: nat, seen: Owner)
    | CheckingGuard(token: nat, seen: Owner)
    | CheckingWorker(token: nat, seen: Owner)
    | Removing(token: nat, found: Option<Owner>)
    | Recreating(token: nat)
    | Leaving
    | LeavingHeld(token: nat)
    | Holding(token: nat)
    | Releasing(token: nat)

  /** How far `launch` has come with the current worker and its guard. */
  datatype Launch =
    | NoChild
    | Spawned(worker: nat)
    | Recorded(worker: nat)
    | Guarded(worker: nat, guard: nat)
    | Running(worker: nat, guard: nat)

  datatype Supervisor = Supervisor(alive: bool, pc: Pc, launch: Launch)

  /** `jobs` are the live worker and guard processes, `recorded` the workers that a lock
      file has ever named. A pid of a dead process never comes alive again. */
  datatype State = State(
    supervisors: seq<Supervisor>,
    lock: LockFile,
    reclaim: bool,
    nextToken: nat,
    nextJob: nat,
    jobs: set<nat>,
    recorded: set<nat>)

  /** One system call. The answers of the liveness checks are part of the step: `alive`
      may be answered for a process that is gone (its pid was reused, or signalling it is
      not permitted), `not alive` only for one that is gone. */
  datatype Step =
    | Begin(p: nat)
    | Create(p: nat)
    | WriteLock(p: nat)
    | MakeReclaim(p: nat)
    | ReadLock(p: nat)
    | CheckPid(p: nat, answer: bool)
    | CheckGuard(p: nat, answer: bool)
    | CheckWorker(p: nat, answer: bool)
    | RemoveFile(p: nat)
    | Recreate(p: nat)
    | RemoveReclaim(p: nat)
    | SpawnWorker(p: nat)
    | RecordWorker(p: nat)
    | SpawnGuard(p: nat)
    | RecordGuard(p: nat)
    | Reap(p: nat)
    | CheckToken(p: nat)
    | Unlink(p: nat)
    | Crash(p: nat)
    | JobDies(job: nat)

  function Init(n: nat): State {
    State(seq(n, _ => Supervisor(true, Idle, NoChild)), Absent, false, 0, 0, {}, {})
  }

  predicate IsAlive(s: State, pid: nat) {
    pid < |s.supervisors| && s.supervisors[pid].alive
  }

  predicate JobAlive(s: State, job: Option<nat>) {
    job.Some? && job.value in s.jobs
  }

  predicate Enabled(s: State, step: Step) {
    if step.JobDies? then step.job in s.jobs
    else
      && IsAlive(s, step.p)
      && var me := s.supervisors[step.p];
      match step
      case Begin(_) => me.pc.Idle?
      case Create(_) => me.pc.Creating?
      case WriteLock(_) => me.pc.Writing?
      case MakeReclaim(_) => me.pc.Reclaiming?
      case ReadLock(_) => me.pc.Reading?
      case CheckPid(_, answer) => me.pc.CheckingPid? && (!answer ==> !IsAlive(s, me.pc.seen.pid))
      case CheckGuard(_, answer) => me.pc.CheckingGuard? && (!answer ==> !JobAlive(s, me.pc.seen.guard))
      case CheckWorker(_, answer) => me.pc.CheckingWorker? && (!answer ==> !JobAlive(s, me.pc.seen.worker))
      case RemoveFile(_) => me.pc.Removing?
      case Recreate(_) => me.pc.Recreating?
      case RemoveReclaim(_) => me.pc.Leaving? || me.pc.LeavingHeld?
      case SpawnWorker(_) => me.pc.Holding? && me.launch.NoChild?
      case RecordWorker(_) => me.pc.Holding? && me.launch.Spawned?
      case SpawnGuard(_) => me.pc.Holding? && me.launch.Recorded?
      case RecordGuard(_) => me.pc.Holding? && me.launch.Guarded?
      // the guard closed, its group was killed and the worker's own exit was awaited
      case Reap(_) => me.pc.Holding? && me.launch.Running? && me.launch.guard !in s.jobs && me.launch.worker !in s.jobs
      case CheckToken(_) => me.pc.Holding? && me.launch.NoChild? && s.lock.Written?
      case Unlink(_) => me.pc.Releasing?
      case Crash(_) => true
  }

  function Set(s: State, p: nat, me: Supervisor): State
    requires p < |s.supervisors|
  {
    s.(supervisors := s.supervisors[p := me])
  }

  function Goto(s: State, p: nat, pc: Pc): State
    requires p < |s.supervisors|
  {
    Set(s, p, s.supervisors[p].(pc := pc))
  }

  /** The effect of one step; the branches are those of the source. */
  function Apply(s: State, step: Step): State
    requires Enabled(s, step)
  {
    if step.JobDies? then s.(jobs := s.jobs - {step.job})
    else
      var p := step.p;
      var me := s.supervisors[p];
      match step
      case Begin(_) => Goto(s, p, Creating(s.nextToken)).(nextToken := s.nextToken + 1)
      case Create(_) =>
        if s.lock.Absent? then Goto(s, p, Writing(me.pc.token, false)).(lock := Torn(p, me.pc.token))
        else Goto(s, p, Reclaiming(me.pc.token))
      case WriteLock(_) =>
        var s1 := Goto(s, p, if me.pc.reclaiming then LeavingHeld(me.pc.token) else Holding(me.pc.token));
        // the write goes to the file that was created, wherever its name points by now
        if s.lock == Torn(p, me.pc.token) then s1.(lock := Written(Owner(p, me.pc.token, None, None))) else s1
      case MakeReclaim(_) =>
        if s.reclaim then Goto(s, p, Idle) else Goto(s, p, Reading(me.pc.token)).(reclaim := true)
      case ReadLock(_) =>
        (match s.lock
         case Absent => Goto(s, p, Removing(me.pc.token, None))
         case Torn(_, _) => Goto(s, p, Leaving)
         case Written(o) => Goto(s, p, CheckingPid(me.pc.token, o)))
      case CheckPid(_, answer) => Goto(s, p, if answer then Leaving else CheckingGuard(me.pc.token, me.pc.seen))
      case CheckGuard(_, answer) => Goto(s, p, if answer then Leaving else CheckingWorker(me.pc.token, me.pc.seen))
      // a live worker is sent SIGKILL; it dies in a later `JobDies`
      case CheckWorker(_, answer) => Goto(s, p, if answer then Leaving else Removing(me.pc.token, Some(me.pc.seen)))
      case RemoveFile(_) => Goto(s, p, Recreating(me.pc.token)).(lock := Absent)
      case Recreate(_) =>
        if s.lock.Absent? then Goto(s, p, Writing(me.pc.token, true)).(lock := Torn(p, me.pc.token))
        else Goto(s, p, Leaving)
      case RemoveReclaim(_) =>
        Goto(s, p, if me.pc.Leaving? then Idle else Holding(me.pc.token)).(reclaim := false)
      case SpawnWorker(_) =>
        Set(s, p, me.(launch := Spawned(s.nextJob))).(nextJob := s.nextJob + 1, jobs := s.jobs + {s.nextJob})
      // a private temporary file renamed over the lock file, whatever that holds
      case RecordWorker(_) =>
        var w := me.launch.worker;
        Set(s, p, me.(launch := Recorded(w)))
        .(lock := Written(Owner(p, me.pc.token, Some(w), None)), recorded := s.recorded + {w})
      case SpawnGuard(_) =>
        Set(s, p, me.(launch := Guarded(me.launch.worker, s.nextJob)))
          .(nextJob := s.nextJob + 1, jobs := s.jobs + {s.nextJob})
      case RecordGuard(_) =>
        var w, g := me.launch.worker, me.launch.guard;
        Set(s, p, me.(launch := Running(w, g)))
        .(lock := Written(Owner(p, me.pc.token, Some(w), Some(g))), recorded := s.recorded + {w})
      case Reap(_) => Set(s, p, me.(launch := NoChild))
      case CheckToken(_) =>
        Goto(s, p, if s.lock.owner.token == me.pc.token then Releasing(me.pc.token) else Idle)
      case Unlink(_) => Goto(s, p, Idle).(lock := Absent)
      case Crash(_) => Set(s, p, me.(alive := false))
  }

  // ----- runs -----

  predicate IsRun(s: State, steps: seq<Step>)
    decreases |steps|
  {
    steps == [] || (Enabled(s, steps[0]) && IsRun(Apply(s, steps[0]), steps[1..]))
  }

  function After(s: State, steps: seq<Step>): State
    requires IsRun(s, steps)
    decreases |steps|
  {
    if steps == [] then s else After(Apply(s, steps[0]), steps[1..])
  }

  // ----- what the lease is for -----

  /** The token a supervisor believes to own: from the exclusive creation of its file to
      its release. */
  function Claim(pc: Pc): Option<nat> {
    match pc
    case Writing(t, _) => Some(t)
    case LeavingHeld(t) => Some(t)
    case Holding(t) => Some(t)
    case Releasing(t) => Some(t)
    case _ => None
  }

  predicate Names(lock: LockFile, p: nat, token: nat) {
    match lock
    case Absent => false
    case Torn(q, t) => q == p && t == token
    case Written(o) => o.pid == p && o.token == token
  }

  ghost predicate ClaimsAreInFile(s: State) {
    forall p: nat | IsAlive(s, p) && Claim(s.supervisors[p].pc).Some? ::
      Names(s.lock, p, Claim(s.supervisors[p].pc).value)
  }

  ghost predicate LiveWorkersAreInFile(s: State) {
    forall w | w in s.jobs && w in s.recorded :: s.lock.Written? && s.lock.owner.worker == Some(w)
  }

  /** Every live claimant's token, and every live worker that was ever recorded, is the one
      in the lock file. */
  ghost predicate Safe(s: State) {
    ClaimsAreInFile(s) && LiveWorkersAreInFile(s)
  }

  predicate HoldsLease(s: State, p: nat) {
    IsAlive(s, p) && Claim(s.supervisors[p].pc).Some?
  }

  /** What `Safe` is for: one supervisor, one recorded worker. */
  lemma SafeMeansExclusive(s: State, p: nat, q: nat, v: nat, w: nat)
    requires Safe(s)
    ensures HoldsLease(s, p) && HoldsLease(s, q) ==> p == q
    ensures {v, w} <= s.jobs * s.recorded ==> v == w
  {
    if {v, w} <= s.jobs * s.recorded {
      assert v in {v, w} && w in {v, w};
    }
  }

  // ----- the invariant of the runs -----

  predicate InReclaim(pc: Pc) {
    match pc
    case Reading(_) => true
    case CheckingPid(_, _) => true
    case CheckingGuard(_, _) => true
    case CheckingWorker(_, _) => true
    case Removing(_, _) => true
    case Recreating(_) => true
    case Leaving => true
    case LeavingHeld(_) => true
    case Writing(_, reclaiming) => reclaiming
    case _ => false
  }

  ghost predicate OneReclaimer(s: State) {
    forall p: nat, q: nat | p < |s.supervisors| && q < |s.supervisors| ::
      InReclaim(s.supervisors[p].pc) && InReclaim(s.supervisors[q].pc) ==> p == q && s.reclaim
  }

  /** A live supervisor that the file names is the claimant of that token. */
  ghost predicate FileIsClaimed(s: State) {
    match s.lock
    case Absent => true
    case Torn(p, t) => IsAlive(s, p) ==> Claim(s.supervisors[p].pc) == Some(t)
    case Written(o) =>
      && (IsAlive(s, o.pid) ==> Claim(s.supervisors[o.pid].pc) == Some(o.token) && !s.supervisors[o.pid].pc.Writing?)
      && (o.worker.Some? ==> o.worker.value in s.recorded)
  }

  ghost predicate JobsAreNumbered(s: State) {
    && (forall j | j in s.jobs :: j < s.nextJob)
    && (forall j | j in s.recorded :: j < s.nextJob)
  }

  /** What a live supervisor knows about its own worker. */
  ghost predicate LaunchAgrees(s: State, p: nat)
    requires p < |s.supervisors|
  {
    var me := s.supervisors[p];
    match me.launch
    case NoChild => Claim(me.pc).Some? ==> s.jobs !! s.recorded
    case Spawned(w) => me.pc.Holding? && s.jobs !! s.recorded && w < s.nextJob
    case Recorded(w) => me.pc.Holding? && w in s.recorded && s.lock.Written? && s.lock.owner.worker == Some(w)
    case Guarded(w, _) => me.pc.Holding? && w in s.recorded && s.lock.Written? && s.lock.owner.worker == Some(w)
    case Running(w, _) => me.pc.Holding? && w in s.recorded && s.lock.Written? && s.lock.owner.worker == Some(w)
  }

  ghost predicate LaunchesAgree(s: State) {
    forall p: nat | IsAlive(s, p) :: LaunchAgrees(s, p)
  }

  ghost predicate Inv(s: State) {
    && Safe(s)
    && OneReclaimer(s)
    && FileIsClaimed(s)
    && JobsAreNumbered(s)
    && LaunchesAgree(s)
  }

  /** Whether the file that is there now may be removed: nobody alive claims it and the
      worker it names is gone. This is the source's own liveness test, applied to the file
      as it is at the moment of removal. */
  predicate Harmless(s: State) {
    match s.lock
    case Absent => true
    case Torn(p, _) => !IsAlive(s, p)
    case Written(o) => !IsAlive(s, o.pid) && !JobAlive(s, o.worker)
  }

  lemma InitKeepsInv(n: nat)
    ensures Inv(Init(n))
  {
  }

  /** When the file names no live worker, no worker that was ever recorded is alive. */
  lemma NoWorkerNamed(s: State)
    requires LiveWorkersAreInFile(s)
    requires s.lock.Written? ==> !JobAlive(s, s.lock.owner.worker)
    ensures s.jobs !! s.recorded
  {
    assert s.jobs * s.recorded == {};
  }

  lemma NoOtherWorker(s: State)
    requires LiveWorkersAreInFile(s)
    ensures !s.lock.Written? || !JobAlive(s, s.lock.owner.worker) ==> s.jobs !! s.recorded
  {
    if !s.lock.Written? || !JobAlive(s, s.lock.owner.worker) {
      NoWorkerNamed(s);
    }
  }

  lemma OwnStepKeepsLaunch(s: State, step: Step)
    requires Inv(s) && Enabled(s, step) && !step.JobDies?
    requires step.RemoveFile? ==> Harmless(s)
    requires IsAlive(Apply(s, step), step.p)
    ensures LaunchAgrees(Apply(s, step), step.p)
  {
    assert LaunchAgrees(s, step.p);
    NoOtherWorker(s);
  }

  lemma OthersStepKeepsLaunch(s: State, step: Step, q: nat)
    requires Inv(s) && Enabled(s, step) && !step.JobDies? && q != step.p
    requires step.RemoveFile? ==> Harmless(s)
    requires IsAlive(Apply(s, step), q)
    ensures LaunchAgrees(Apply(s, step), q)
  {
    assert IsAlive(s, q) && LaunchAgrees(s, q);
    NoOtherWorker(s);
    // a second claimant would have to be in the same file
    assert IsAlive(s, step.p) && LaunchAgrees(s, step.p);
    assert Claim(s.supervisors[q].pc).Some? ==> Claim(s.supervisors[step.p].pc).None?;
  }

  lemma StepKeepsLaunch(s: State, step: Step, q: nat)
    requires Inv(s) && Enabled(s, step)
    requires step.RemoveFile? ==> Harmless(s)
    requires IsAlive(Apply(s, step), q)
    ensures LaunchAgrees(Apply(s, step), q)
  {
    if step.JobDies? {
      assert LaunchAgrees(s, q);
    } else if step.p == q {
      OwnStepKeepsLaunch(s, step);
    } else {
      OthersStepKeepsLaunch(s, step, q);
    }
  }

  /** The steps that change what the lock's name leads to. */
  predicate ChangesFile(step: Step) {
    || step.Create? || step.WriteLock? || step.RemoveFile? || step.Recreate?
    || step.RecordWorker? || step.RecordGuard? || step.Unlink?
  }

  lemma FileStepKeepsSafe(s: State, step: Step)
    requires Inv(s) && Enabled(s, step) && ChangesFile(step)
    requires step.RemoveFile? ==> Harmless(s)
    ensures Safe(Apply(s, step))
  {
    assert LaunchAgrees(s, step.p);
  }

  lemma OtherStepKeepsSafe(s: State, step: Step)
    requires Inv(s) && Enabled(s, step) && !ChangesFile(step)
    ensures Safe(Apply(s, step))
  {
  }

  lemma StepKeepsSafe(s: State, step: Step)
    requires Inv(s) && Enabled(s, step)
    requires step.RemoveFile? ==> Harmless(s)
    ensures Safe(Apply(s, step))
  {
    if ChangesFile(step) {
      FileStepKeepsSafe(s, step);
    } else {
      OtherStepKeepsSafe(s, step);
    }
  }

  lemma StepKeepsReclaimPair(s: State, step: Step, p: nat, q: nat)
    requires OneReclaimer(s) && Enabled(s, step)
    requires p < |s.supervisors| && q < |s.supervisors|
    requires InReclaim(Apply(s, step).supervisors[p].pc) && InReclaim(Apply(s, step).supervisors[q].pc)
    ensures p == q && Apply(s, step).reclaim
  {
    if !step.JobDies? && step.p != p && step.p != q {
      assert InReclaim(s.supervisors[p].pc) && InReclaim(s.supervisors[q].pc);
    } else if !step.JobDies? && step.p == p {
      assert InReclaim(s.supervisors[p].pc) || step.MakeReclaim?;
    }
  }

  lemma StepKeepsOneReclaimer(s: State, step: Step)
    requires OneReclaimer(s) && Enabled(s, step)
    ensures OneReclaimer(Apply(s, step))
  {
    var s' := Apply(s, step);
    forall p: nat, q: nat | p < |s'.supervisors| && q < |s'.supervisors|
                            && InReclaim(s'.supervisors[p].pc) && InReclaim(s'.supervisors[q].pc)
      ensures p == q && s'.reclaim
    {
      StepKeepsReclaimPair(s, step, p, q);
    }
  }

  lemma FileStepKeepsFile(s: State, step: Step)
    requires Inv(s) && Enabled(s, step) && ChangesFile(step)
    ensures FileIsClaimed(Apply(s, step))
  {
    assert LaunchAgrees(s, step.p);
  }

  lemma OtherStepKeepsFile(s: State, step: Step)
    requires Inv(s) && Enabled(s, step) && !ChangesFile(step)
    ensures FileIsClaimed(Apply(s, step))
  {
  }

  lemma StepKeepsFile(s: State, step: Step)
    requires Inv(s) && Enabled(s, step)
    ensures FileIsClaimed(Apply(s, step))
  {
    if ChangesFile(step) {
      FileStepKeepsFile(s, step);
    } else {
      OtherStepKeepsFile(s, step);
    }
  }

  lemma StepKeepsNumbers(s: State, step: Step)
    requires JobsAreNumbered(s) && LaunchesAgree(s) && Enabled(s, step)
    ensures JobsAreNumbered(Apply(s, step))
  {
    if step.RecordWorker? || step.RecordGuard? {
      assert LaunchAgrees(s, step.p);
    }
  }

  lemma StepKeepsInv(s: State, step: Step)
    requires Inv(s) && Enabled(s, step)
    requires step.RemoveFile? ==> Harmless(s)
    ensures Inv(Apply(s, step))
  {
    var s' := Apply(s, step);
    StepKeepsSafe(s, step);
    StepKeepsOneReclaimer(s, step);
    StepKeepsFile(s, step);
    StepKeepsNumbers(s, step);
    forall q: nat | IsAlive(s', q)
      ensures LaunchAgrees(s', q)
    {
      StepKeepsLaunch(s, step, q);
    }
  }

  lemma HarmfulRemovalIsUnsafe(s: State, step: Step)
    requires Inv(s) && Enabled(s, step) && step.RemoveFile?
    requires !Harmless(s)
    ensures !Safe(Apply(s, step))
  {
    var s' := Apply(s, step);
    var p := step.p;
    assert forall q: nat | q < |s.supervisors| && q != p :: s'.supervisors[q] == s.supervisors[q];
  }

  // ----- whole runs -----

  /** Every state that the run visits is safe. */
  ghost predicate AlwaysSafe(s: State, steps: seq<Step>)
    requires IsRun(s, steps)
    decreases |steps|
  {
    Safe(s) && (steps != [] ==> AlwaysSafe(Apply(s, steps[0]), steps[1..]))
  }

  /** Every removal in the run meets a file that is harmless at that moment. */
  ghost predicate OnlyHarmlessRemovals(s: State, steps: seq<Step>)
    requires IsRun(s, steps)
    decreases |steps|
  {
    steps != [] ==>
      && (steps[0].RemoveFile? ==> Harmless(s))
      && OnlyHarmlessRemovals(Apply(s, steps[0]), steps[1..])
  }

  lemma {:induction false} SafeIffHarmlessFrom(s: State, steps: seq<Step>)
    requires Inv(s) && IsRun(s, steps)
    ensures AlwaysSafe(s, steps) <==> OnlyHarmlessRemovals(s, steps)
    decreases |steps|
  {
    if steps != [] {
      var step := steps[0];
      if step.RemoveFile? && !Harmless(s) {
        HarmfulRemovalIsUnsafe(s, step);
      } else {
        StepKeepsInv(s, step);
        SafeIffHarmlessFrom(Apply(s, step), steps[1..]);
      }
    }
  }

  /** The exact condition: a run of any number of supervisors that start together is safe
      throughout if and only if no reclaimer removes a file that has a live claimant or a
      live worker. */
  lemma SafeIffHarmless(n: nat, steps: seq<Step>)
    requires IsRun(Init(n), steps)
    ensures AlwaysSafe(Init(n), steps) <==> OnlyHarmlessRemovals(Init(n), steps)
  {
    InitKeepsInv(n);
    SafeIffHarmlessFrom(Init(n), steps);
  }

  /** What a reclaimer that read a complete file knows from then on: the same text is still
      there and the processes it found gone are gone. */
  ghost predicate Knows(s: State, p: nat)
    requires p < |s.supervisors|
  {
    var pc := s.supervisors[p].pc;
    && (pc.CheckingGuard? || pc.CheckingWorker? ==> s.lock == Written(pc.seen) && !IsAlive(s, pc.seen.pid))
    && (pc.Removing? && pc.found.Some? ==>
          && s.lock == Written(pc.found.value)
          && !IsAlive(s, pc.found.value.pid) && !JobAlive(s, pc.found.value.worker))
  }

  ghost predicate ReclaimersKnow(s: State) {
    forall p: nat | p < |s.supervisors| :: Knows(s, p)
  }

  /** The two moments at which a reclaimer must not have been overtaken: when it finds the
      owner gone, the file still holds the text it read; when it found no file at all
      (ENOENT), there is still none to remove. */
  predicate NotOvertaken(s: State, step: Step)
    requires Enabled(s, step)
  {
    match step
    case CheckPid(p, answer) => !answer ==> s.lock == Written(s.supervisors[p].pc.seen)
    case RemoveFile(p) => s.supervisors[p].pc.found.None? ==> s.lock.Absent?
    case _ => true
  }

  ghost predicate NeverOvertaken(s: State, steps: seq<Step>)
    requires IsRun(s, steps)
    decreases |steps|
  {
    steps != [] ==> NotOvertaken(s, steps[0]) && NeverOvertaken(Apply(s, steps[0]), steps[1..])
  }

  predicate HasSeen(pc: Pc) {
    pc.CheckingGuard? || pc.CheckingWorker? || (pc.Removing? && pc.found.Some?)
  }

  /** While one reclaimer knows, no other process can touch the file or start a job. */
  lemma OthersCannotInterfere(s: State, step: Step, q: nat)
    requires Inv(s) && Enabled(s, step)
    requires q < |s.supervisors| && Knows(s, q) && HasSeen(s.supervisors[q].pc)
    requires !step.JobDies? && step.p != q
    ensures Apply(s, step).lock == s.lock
    ensures Apply(s, step).jobs <= s.jobs
  {
    var pc := s.supervisors[step.p].pc;
    assert Claim(pc).None?;
    assert !InReclaim(pc);
    assert LaunchAgrees(s, step.p);
  }

  lemma OwnStepKeepsKnowledge(s: State, step: Step)
    requires Enabled(s, step) && NotOvertaken(s, step)
    requires !step.JobDies? && Knows(s, step.p)
    ensures Knows(Apply(s, step), step.p)
  {
    var pc := s.supervisors[step.p].pc;
    if !step.CheckPid? && !step.CheckGuard? && !step.CheckWorker? && !step.Crash? {
      assert !HasSeen(Apply(s, step).supervisors[step.p].pc);
    }
  }

  lemma StepKeepsKnowledge(s: State, step: Step, q: nat)
    requires Inv(s) && ReclaimersKnow(s) && Enabled(s, step) && NotOvertaken(s, step)
    requires q < |s.supervisors|
    ensures Knows(Apply(s, step), q)
  {
    assert Knows(s, q);
    if !step.JobDies? && step.p == q {
      OwnStepKeepsKnowledge(s, step);
    } else if !step.JobDies? {
      var s' := Apply(s, step);
      assert s'.supervisors[q] == s.supervisors[q];
      assert forall r: nat :: IsAlive(s', r) ==> IsAlive(s, r);
      if HasSeen(s.supervisors[q].pc) {
        OthersCannotInterfere(s, step, q);
      }
    }
  }

  lemma {:induction false} NeverOvertakenIsHarmless(s: State, steps: seq<Step>)
    requires Inv(s) && ReclaimersKnow(s) && IsRun(s, steps) && NeverOvertaken(s, steps)
    ensures OnlyHarmlessRemovals(s, steps)
    decreases |steps|
  {
    if steps != [] {
      var step := steps[0];
      var s' := Apply(s, step);
      if step.RemoveFile? {
        assert Knows(s, step.p);
      }
      StepKeepsInv(s, step);
      forall q: nat | q < |s'.supervisors|
        ensures Knows(s', q)
      {
        StepKeepsKnowledge(s, step, q);
      }
      NeverOvertakenIsHarmless(s', steps[1..]);
    }
  }

  /** Mutual exclusion over whole runs: when no reclaimer is overtaken, every state of the
      run has every live claimant's token and every live recorded worker in the file. */
  lemma NeverOvertakenIsSafe(n: nat, steps: seq<Step>)
    requires IsRun(Init(n), steps) && NeverOvertaken(Init(n), steps)
    ensures AlwaysSafe(Init(n), steps)
  {
    InitKeepsInv(n);
    NeverOvertakenIsHarmless(Init(n), steps);
    SafeIffHarmless(n, steps);
  }

  // ----- the condition is needed -----

  lemma RunCons(s: State, step: Step, rest: seq<Step>)
    requires Enabled(s, step) && IsRun(Apply(s, step), rest)
    ensures IsRun(s, [step] + rest) && After(s, [step] + rest) == After(Apply(s, step), rest)
    ensures AvoidsEnoent(s, [step] + rest) <==> FindsFile(s, step) && AvoidsEnoent(Apply(s, step), rest)
  {
    assert ([step] + rest)[1..] == rest;
  }

  /** A reclaimer that reads the lock finds a file. */
  predicate FindsFile(s: State, step: Step) { step.ReadLock? ==> !s.lock.Absent? }

  /** No reclaimer takes the branch without a file. */
  ghost predicate AvoidsEnoent(s: State, steps: seq<Step>)
    requires IsRun(s, steps)
    decreases |steps|
  {
    steps != [] ==> FindsFile(s, steps[0]) && AvoidsEnoent(Apply(s, steps[0]), steps[1..])
  }

  /** A worker is recorded in the step after the one that spawned it. */
  predicate RecordsAtOnce(steps: seq<Step>) {
    forall i | 0 <= i < |steps| && steps[i].SpawnWorker? ::
      i + 1 < |steps| && steps[i + 1] == RecordWorker(steps[i].p)
  }

  lemma {:induction false} RunThen(s: State, first: seq<Step>, second: seq<Step>)
    requires IsRun(s, first) && IsRun(After(s, first), second)
    ensures IsRun(s, first + second) && After(s, first + second) == After(After(s, first), second)
    ensures AvoidsEnoent(s, first + second) <==> AvoidsEnoent(s, first) && AvoidsEnoent(After(s, first), second)
    decreases |first|
  {
    if first == [] {
      assert first + second == second;
    } else {
      RunThen(Apply(s, first[0]), first[1..], second);
      assert (first + second)[1..] == first[1..] + second;
    }
  }

  lemma RecordsOn(first: seq<Step>, second: seq<Step>)
    requires RecordsAtOnce(first) && RecordsAtOnce(second)
    ensures RecordsAtOnce(first + second)
  {
    var run := first + second;
    forall i | 0 <= i < |run| && run[i].SpawnWorker?
      ensures i + 1 < |run| && run[i + 1] == RecordWorker(run[i].p)
    {
      if i >= |first| {
        assert second[i - |first|] == run[i];
      }
    }
  }

  /** The run of three windows leads to `t`, with every worker recorded at once; `avoids` says whether
      it keeps off the branch without a file. */
  ghost predicate Leads(run: seq<Step>, t: State, avoids: bool) {
    && IsRun(Init(3), run) && After(Init(3), run) == t && RecordsAtOnce(run)
    && (avoids <==> AvoidsEnoent(Init(3), run))
  }

  /** Three steps from `s` to `t`; `finds` says whether a reclaimer that reads finds a file. */
  ghost predicate Triple(s: State, a: Step, b: Step, c: Step, t: State, finds: bool) {
    && Enabled(s, a) && Enabled(Apply(s, a), b) && Enabled(Apply(Apply(s, a), b), c)
    && t == Apply(Apply(Apply(s, a), b), c)
    && (finds <==> FindsFile(s, a) && FindsFile(Apply(s, a), b) && FindsFile(Apply(Apply(s, a), b), c))
    && (a.SpawnWorker? ==> b == RecordWorker(a.p)) && (b.SpawnWorker? ==> c == RecordWorker(b.p)) && !c.SpawnWorker?
  }

  lemma TripleIsRun(s: State, a: Step, b: Step, c: Step, t: State, finds: bool)
    requires Triple(s, a, b, c, t, finds)
    ensures IsRun(s, [a, b, c]) && After(s, [a, b, c]) == t && (finds <==> AvoidsEnoent(s, [a, b, c]))
    ensures RecordsAtOnce([a, b, c])
  {
    var s1, s2 := Apply(s, a), Apply(Apply(s, a), b);
    assert [c] == [c] + [] && [b, c] == [b] + [c] && [a, b, c] == [a] + [b, c];
    RunCons(s2, c, []);
    RunCons(s1, b, [c]);
    RunCons(s, a, [b, c]);
  }

  lemma ThreeSteps(run: seq<Step>, s: State, avoids: bool, a: Step, b: Step, c: Step, t: State, finds: bool)
    returns (longer: seq<Step>)
    requires Leads(run, s, avoids) && Triple(s, a, b, c, t, finds)
    ensures Leads(longer, t, avoids && finds)
  {
    TripleIsRun(s, a, b, c, t, finds);
    RunThen(Init(3), run, [a, b, c]);
    RecordsOn(run, [a, b, c]);
    longer := run + [a, b, c];
  }

  function Fresh(): Supervisor { Supervisor(true, Idle, NoChild) }

  function At(pc: Pc): Supervisor { Supervisor(true, pc, NoChild) }

  const SEEN := Owner(0, 0, None, None)

  const FILE := Written(Owner(0, 0, Some(0), None))

  const GONE := Supervisor(false, Holding(0), Recorded(0))

  function Start(): State { State([Fresh(), Fresh(), Fresh()], Absent, false, 0, 0, {}, {}) }

  lemma StartIsReached()
    ensures Leads([], Start(), true)
  {
    assert Init(3) == Start();
  }

  /** Window 0 holds the lease. */
  function Held(): State {
    State([At(Holding(0)), Fresh(), Fresh()], Written(Owner(0, 0, None, None)), false, 1, 0, {}, {})
  }
  lemma ToHeld()
    ensures Triple(Start(), Begin(0), Create(0), WriteLock(0), Held(), true)
  {
  }

  lemma HeldIsReached() returns (run: seq<Step>)
    ensures Leads(run, Held(), true)
  {
    StartIsReached();
    run := [];
    ToHeld();
    run := ThreeSteps(run, Start(), true, Begin(0), Create(0), WriteLock(0), Held(), true);
  }

  /** Window 1 found the lease taken and has the reclaim directory. */
  function Contended(): State {
    State([At(Holding(0)), At(Reading(1)), Fresh()], Written(Owner(0, 0, None, None)), true, 2, 0, {}, {})
  }
  lemma ToContended()
    ensures Triple(Held(), Begin(1), Create(1), MakeReclaim(1), Contended(), true)
  {
  }

  lemma ContendedIsReached() returns (run: seq<Step>)
    ensures Leads(run, Contended(), true)
  {
    run := HeldIsReached();
    ToContended();
    run := ThreeSteps(run, Held(), true, Begin(1), Create(1), MakeReclaim(1), Contended(), true);
  }

  /** Window 0 released the file just before window 1 read it. */
  function Released(): State {
    State([Fresh(), At(Removing(1, None)), Fresh()], Absent, true, 2, 0, {}, {})
  }
  lemma ToReleased()
    ensures Triple(Contended(), CheckToken(0), Unlink(0), ReadLock(1), Released(), false)
  {
  }

  lemma ReleasedIsReached() returns (run: seq<Step>)
    ensures Leads(run, Released(), false)
  {
    run := ContendedIsReached();
    ToReleased();
    run := ThreeSteps(run, Contended(), true, CheckToken(0), Unlink(0), ReadLock(1), Released(), false);
  }

  /** Window 2 took the lease that window 1 is about to remove. */
  function Reissued(): State {
    State([Fresh(), At(Removing(1, None)), At(Holding(2))], Written(Owner(2, 2, None, None)), true, 3, 0, {}, {})
  }
  lemma ToReissued()
    ensures Triple(Released(), Begin(2), Create(2), WriteLock(2), Reissued(), true)
  {
  }

  lemma ReissuedIsReached() returns (run: seq<Step>)
    ensures Leads(run, Reissued(), false)
  {
    run := ReleasedIsReached();
    ToReissued();
    run := ThreeSteps(run, Released(), false, Begin(2), Create(2), WriteLock(2), Reissued(), true);
  }

  /** Window 1 has the lease too. */
  function TwoHolders(): State {
    State([Fresh(), At(LeavingHeld(1)), At(Holding(2))], Written(Owner(1, 1, None, None)), true, 3, 0, {}, {})
  }
  lemma ToTwoHolders()
    ensures Triple(Reissued(), RemoveFile(1), Recreate(1), WriteLock(1), TwoHolders(), true)
  {
  }

  /** Window 0 recorded its worker just after window 1 read the file. */
  function Recorded0(): State {
    State([Supervisor(true, Holding(0), Recorded(0)), At(CheckingPid(1, SEEN)), Fresh()], FILE, true, 2, 1, {0}, {0})
  }
  lemma ToRecorded0()
    ensures Triple(Contended(), ReadLock(1), SpawnWorker(0), RecordWorker(0), Recorded0(), true)
  {
  }

  lemma Recorded0IsReached() returns (run: seq<Step>)
    ensures Leads(run, Recorded0(), true)
  {
    run := ContendedIsReached();
    ToRecorded0();
    run := ThreeSteps(run, Contended(), true, ReadLock(1), SpawnWorker(0), RecordWorker(0), Recorded0(), true);
  }

  /** Window 0 died; window 1 goes by a text without a worker. */
  function Misjudging(): State {
    State([GONE, At(CheckingWorker(1, SEEN)), Fresh()], FILE, true, 2, 1, {0}, {0})
  }
  lemma ToMisjudging()
    ensures Triple(Recorded0(), Crash(0), CheckPid(1, false), CheckGuard(1, false), Misjudging(), true)
  {
  }

  lemma MisjudgingIsReached() returns (run: seq<Step>)
    ensures Leads(run, Misjudging(), true)
  {
    run := Recorded0IsReached();
    ToMisjudging();
    run := ThreeSteps(run, Recorded0(), true, Crash(0), CheckPid(1, false), CheckGuard(1, false), Misjudging(), true);
  }

  /** Window 1 removed the file that names a live worker. */
  function Overtaken(): State {
    State([GONE, At(Writing(1, true)), Fresh()], Torn(1, 1), true, 2, 1, {0}, {0})
  }
  lemma ToOvertaken()
    ensures Triple(Misjudging(), CheckWorker(1, false), RemoveFile(1), Recreate(1), Overtaken(), true)
  {
  }

  lemma OvertakenIsReached() returns (run: seq<Step>)
    ensures Leads(run, Overtaken(), true)
  {
    run := MisjudgingIsReached();
    ToOvertaken();
    run := ThreeSteps(run, Misjudging(), true, CheckWorker(1, false), RemoveFile(1), Recreate(1), Overtaken(), true);
  }

  /** Window 1 holds the lease, and window 2 has begun. */
  function Relaunched(): State {
    State([GONE, At(Holding(1)), At(Creating(2))], Written(Owner(1, 1, None, None)), false, 3, 1, {0}, {0})
  }

  lemma ToRelaunched()
    ensures Triple(Overtaken(), WriteLock(1), RemoveReclaim(1), Begin(2), Relaunched(), true)
  {
  }

  lemma RelaunchedIsReached() returns (run: seq<Step>)
    ensures Leads(run, Relaunched(), true)
  {
    run := OvertakenIsReached();
    ToRelaunched();
    run := ThreeSteps(run, Overtaken(), true, WriteLock(1), RemoveReclaim(1), Begin(2), Relaunched(), true);
  }

  /** Window 1 recorded its own worker beside that of window 0. */
  function TwoWorkers(): State {
    State([GONE, Supervisor(true, Holding(1), Guarded(1, 2)), At(Creating(2))],
          Written(Owner(1, 1, Some(1), None)), false, 3, 3, {0, 1, 2}, {0, 1})
  }

  lemma ToTwoWorkers()
    ensures Triple(Relaunched(), SpawnWorker(1), RecordWorker(1), SpawnGuard(1), TwoWorkers(), true)
  {
  }

  /** A reclaimer that found no file removes the lease taken meanwhile: two windows hold it. */
  lemma EnoentRunBreaksExclusion() returns (run: seq<Step>)
    ensures IsRun(Init(3), run) && After(Init(3), run) == TwoHolders()
    ensures !AvoidsEnoent(Init(3), run) && RecordsAtOnce(run)
    ensures HoldsLease(TwoHolders(), 1) && HoldsLease(TwoHolders(), 2)
  {
    run := ReissuedIsReached();
    ToTwoHolders();
    run := ThreeSteps(run, Reissued(), false, RemoveFile(1), Recreate(1), WriteLock(1), TwoHolders(), true);
  }

  /** A reclaimer that judges by the text it read, while the owner records a worker and dies, lets
      two recorded workers live at once, although every reclaimer finds a file and every worker is
      recorded in the step after it is spawned. */
  lemma StaleReadRunBreaksExclusion() returns (run: seq<Step>)
    ensures IsRun(Init(3), run) && After(Init(3), run) == TwoWorkers()
    ensures AvoidsEnoent(Init(3), run) && RecordsAtOnce(run)
    ensures {0, 1} <= TwoWorkers().jobs * TwoWorkers().recorded
  {
    run := RelaunchedIsReached();
    ToTwoWorkers();
    run := ThreeSteps(run, Relaunched(), true, SpawnWorker(1), RecordWorker(1), SpawnGuard(1), TwoWorkers(), true);
  }
}

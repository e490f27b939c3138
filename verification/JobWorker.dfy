/** The lease as one window's code works on it, without other windows between its system calls;
    each call is a run of the shared protocol. */
module JobWorkerProgram {
  import opened Basics
  import opened JobWorkerLease

  /** The two names in the file system, and the supply of fresh tokens. */
  class Files {
    var lock: LockFile
    var reclaim: bool
    var nextToken: nat

    constructor ()
      ensures lock == Absent && !reclaim && nextToken == 0
    {
      lock, reclaim, nextToken := Absent, false, 0;
    }
  }

  lemma {:induction false} OneMore(s: State, steps: seq<Step>, step: Step)
    requires IsRun(s, steps) && Enabled(After(s, steps), step)
    ensures IsRun(s, steps + [step]) && After(s, steps + [step]) == Apply(After(s, steps), step)
    decreases |steps|
  {
    if steps == [] {
      assert [] + [step] == [step];
      RunCons(s, step, []);
      assert [step] + [] == [step];
    } else {
      OneMore(Apply(s, steps[0]), steps[1..], step);
      assert (steps + [step])[1..] == steps[1..] + [step];
      assert (steps + [step])[0] == steps[0];
    }
  }

  /** A holder can start a worker and its guard; the file then names both, and both live. */
  lemma HolderCanServe(s: State, p: nat) returns (steps: seq<Step>)
    requires Inv(s) && IsAlive(s, p) && s.supervisors[p].pc.Holding? && s.supervisors[p].launch.NoChild?
    ensures IsRun(s, steps) && Inv(After(s, steps))
    ensures var t := After(s, steps);
            && IsAlive(t, p) && t.supervisors[p].pc == s.supervisors[p].pc && t.supervisors[p].launch.Running?
            && var Running(w, g) := t.supervisors[p].launch;
               && w != g && {w, g} !! s.jobs && t.jobs == s.jobs + {w, g} && t.recorded == s.recorded + {w}
               && t.lock == Written(Owner(p, s.supervisors[p].pc.token, Some(w), Some(g)))
  {
    steps := [];
    steps := OneMoreKept(s, steps, SpawnWorker(p));
    steps := OneMoreKept(s, steps, RecordWorker(p));
    steps := OneMoreKept(s, steps, SpawnGuard(p));
    steps := OneMoreKept(s, steps, RecordGuard(p));
  }

  /** The text goes to the file that was created: when the name leads to another by now, nothing shows. */
  lemma LateWriteIsLost(s: State, p: nat)
    requires Enabled(s, WriteLock(p)) && s.lock != Torn(p, s.supervisors[p].pc.token)
    ensures Apply(s, WriteLock(p)).lock == s.lock
  {
  }

  /** Once its worker and guard are gone, a holder can give the lease back. */
  lemma HolderCanLeave(s: State, p: nat) returns (steps: seq<Step>)
    requires Inv(s) && IsAlive(s, p) && s.supervisors[p].pc.Holding? && s.supervisors[p].launch.Running?
    requires {s.supervisors[p].launch.worker, s.supervisors[p].launch.guard} !! s.jobs
    ensures IsRun(s, steps) && Inv(After(s, steps))
    ensures After(s, steps) == Set(s, p, Supervisor(true, Idle, NoChild)).(lock := Absent)
  {
    assert LaunchAgrees(s, p);
    steps := [];
    steps := OneMoreKept(s, steps, Reap(p));
    steps := OneMoreKept(s, steps, CheckToken(p));
    steps := OneMoreKept(s, steps, Unlink(p));
  }

  lemma OneMoreKept(s: State, steps: seq<Step>, step: Step) returns (longer: seq<Step>)
    requires IsRun(s, steps) && Inv(After(s, steps)) && Enabled(After(s, steps), step) && !step.RemoveFile?
    ensures longer == steps + [step] && IsRun(s, longer) && Inv(After(s, longer))
    ensures After(s, longer) == Apply(After(s, steps), step)
  {
    OneMore(s, steps, step);
    StepKeepsInv(After(s, steps), step);
    longer := steps + [step];
  }

  /** The worker of an owner and a guard that are gone lives on. */
  ghost predicate IsOrphan(s: State, lock: LockFile, worker: Option<nat>) {
    && lock.Written? && worker.Some? && lock.owner.worker == worker && JobAlive(s, worker)
    && !IsAlive(s, lock.owner.pid) && !JobAlive(s, lock.owner.guard)
  }

  class JobWorker {
    const pid: nat
    const files: Files
    var lease: Option<nat>

    constructor (p: nat, f: Files)
      ensures pid == p && files == f && lease == None
    {
      pid, files, lease := p, f, None;
    }

    /** The shared state as this window sees it, whatever it has launched. */
    ghost predicate Sees(s: State)
      reads this, files
    {
      && IsAlive(s, pid)
      && s.lock == files.lock && s.reclaim == files.reclaim && s.nextToken == files.nextToken
      && s.supervisors[pid].pc == match lease case None => Idle case Some(t) => Holding(t)
    }

    /** The same, with no worker of its own. */
    ghost predicate Agrees(s: State)
      reads this, files
    {
      Sees(s) && s.supervisors[pid].launch.NoChild?
    }

    /** Exclusive creation, then the text. */
    method Create(token: nat) returns (ok: bool)
      modifies this`lease, files`lock
      ensures ok <==> old(files.lock) == Absent
      ensures ok ==> files.lock == Written(Owner(pid, token, None, None)) && lease == Some(token)
      ensures !ok ==> files.lock == old(files.lock) && lease == old(lease)
    {
      if files.lock != Absent {
        return false;
      }
      files.lock := Torn(pid, token);
      files.lock := Written(Owner(pid, token, None, None));
      lease := Some(token);
      return true;
    }

    /** What was read, and whether the processes it names are alive. */
    method Judge(ghost s: State, ghost before: seq<Step>, supervisors: set<nat>, jobs: set<nat>)
      returns (again: bool, kill: Option<nat>, ghost steps: seq<Step>)
      requires IsRun(s, before) && files.lock != Absent
      requires var t := After(s, before);
               && IsAlive(t, pid) && t.lock == files.lock && jobs == t.jobs
               && (forall q :: q in supervisors <==> IsAlive(t, q))
               && (files.lock.Torn? ==> t.supervisors[pid].pc == Leaving)
               && (files.lock.Written? ==>
                     t.supervisors[pid].pc.CheckingPid? && t.supervisors[pid].pc.seen == files.lock.owner)
      ensures IsRun(s, steps)
      ensures var t, u := After(s, before), After(s, steps);
              && IsAlive(u, pid) && u == Goto(t, pid, u.supervisors[pid].pc)
              && (again <==> t.lock.Written? && Harmless(t) && !JobAlive(t, t.lock.owner.guard))
              && (!again ==> u.supervisors[pid].pc == Leaving)
              && (again ==> u.supervisors[pid].pc == Removing(t.supervisors[pid].pc.token, Some(t.lock.owner)))
      ensures forall w: nat :: kill == Some(w) <==> IsOrphan(After(s, before), files.lock, Some(w))
    {
      again, kill, steps := false, None, before;
      if files.lock.Torn? {
        return;
      }
      var owner := files.lock.owner;
      OneMore(s, steps, CheckPid(pid, owner.pid in supervisors));
      steps := steps + [CheckPid(pid, owner.pid in supervisors)];
      if owner.pid in supervisors {
        return;
      }
      var guarded := owner.guard.Some? && owner.guard.value in jobs;
      OneMore(s, steps, CheckGuard(pid, guarded));
      steps := steps + [CheckGuard(pid, guarded)];
      if guarded {
        return;
      }
      var working := owner.worker.Some? && owner.worker.value in jobs;
      OneMore(s, steps, CheckWorker(pid, working));
      steps := steps + [CheckWorker(pid, working)];
      if working {
        kill := owner.worker;
        return;
      }
      again := true;
    }

    /** Removes the file and creates its own. */
    method TakeOver(ghost s: State, ghost before: seq<Step>, token: nat) returns (ghost steps: seq<Step>)
      requires IsRun(s, before)
      requires var t := After(s, before);
               && IsAlive(t, pid) && t.supervisors[pid].pc.Removing? && t.supervisors[pid].pc.token == token
      modifies this`lease, files`lock
      ensures IsRun(s, steps) && lease == Some(token)
      ensures files.lock == Written(Owner(pid, token, None, None))
      ensures After(s, steps) == Goto(After(s, before), pid, LeavingHeld(token)).(lock := files.lock)
    {
      files.lock := Absent;
      OneMore(s, before, RemoveFile(pid));
      steps := before + [RemoveFile(pid)];
      OneMore(s, steps, Recreate(pid));
      steps := steps + [Recreate(pid)];
      var ok := Create(token);
      OneMore(s, steps, WriteLock(pid));
      steps := steps + [WriteLock(pid)];
    }

    /** Under the reclaim directory: reads, judges, removes and creates anew, and leaves. */
    method Reclaim(ghost s: State, ghost before: seq<Step>, token: nat, supervisors: set<nat>, jobs: set<nat>)
      returns (ok: bool, kill: Option<nat>, ghost steps: seq<Step>)
      requires IsRun(s, before) && files.lock != Absent && lease == None
      requires var t := After(s, before);
               && IsAlive(t, pid) && t.supervisors[pid] == Supervisor(true, Reading(token), NoChild)
               && t.lock == files.lock && t.reclaim && jobs == t.jobs && t.nextToken == files.nextToken
               && (forall q :: q in supervisors <==> IsAlive(t, q))
      modifies this`lease, files
      ensures IsRun(s, steps) && Agrees(After(s, steps)) && !files.reclaim
      ensures ok <==> var t := After(s, before); t.lock.Written? && Harmless(t) && !JobAlive(t, t.lock.owner.guard)
      ensures ok ==> files.lock == Written(Owner(pid, token, None, None)) && lease == Some(token)
      ensures !ok ==> files.lock == old(files.lock) && lease == None
      ensures forall w: nat :: kill == Some(w) <==> IsOrphan(After(s, before), old(files.lock), Some(w))
    {
      OneMore(s, before, ReadLock(pid));
      steps := before + [ReadLock(pid)];
      ok, kill, steps := Judge(s, steps, supervisors, jobs);
      if ok {
        steps := TakeOver(s, steps, token);
      }
      files.reclaim := false;
      OneMore(s, steps, RemoveReclaim(pid));
      steps := steps + [RemoveReclaim(pid)];
    }

    /** `supervisors` and `jobs` are the processes alive; `kill` is the worker group signalled. The
        lease is taken when there is no file, or when everything it names is gone. */
    method AcquireLease(ghost s: State, supervisors: set<nat>, jobs: set<nat>)
      returns (ok: bool, kill: Option<nat>, ghost steps: seq<Step>)
      requires Agrees(s) && jobs == s.jobs && forall q :: q in supervisors <==> IsAlive(s, q)
      modifies this`lease, files
      ensures IsRun(s, steps) && Agrees(After(s, steps))
      ensures old(lease).Some? ==> ok && steps == [] && files.lock == old(files.lock)
      ensures old(lease) == None ==>
        (ok <==> old(files.lock) == Absent ||
                 (!old(files.reclaim) && old(files.lock).Written? && Harmless(s) && !JobAlive(s, s.lock.owner.guard)))
      ensures old(lease) == None && ok ==>
        files.lock == Written(Owner(pid, old(files.nextToken), None, None)) && lease == Some(old(files.nextToken))
      ensures !ok ==> files.lock == old(files.lock) && lease == None
      ensures files.reclaim == old(files.reclaim)
      ensures forall w: nat :: kill == Some(w) <==>
                old(lease).None? && !old(files.reclaim) && IsOrphan(s, s.lock, Some(w))
    {
      kill, steps := None, [];
      if lease.Some? {
        return true, None, [];
      }
      var token := files.nextToken;
      files.nextToken := token + 1;
      OneMore(s, steps, Begin(pid));
      steps := steps + [Begin(pid)];
      OneMore(s, steps, JobWorkerLease.Step.Create(pid));
      steps := steps + [JobWorkerLease.Step.Create(pid)];
      ok := Create(token);
      if ok {
        OneMore(s, steps, WriteLock(pid));
        steps := steps + [WriteLock(pid)];
        return;
      }
      OneMore(s, steps, MakeReclaim(pid));
      steps := steps + [MakeReclaim(pid)];
      if files.reclaim {
        return;
      }
      files.reclaim := true;
      ok, kill, steps := Reclaim(s, steps, token, supervisors, jobs);
    }

    /** The worker, and later its guard, into the file, by renaming a private one over it. A holder
        with a new worker or guard takes the protocol's step for it: the file then names this window's
        lease and that worker, so every live recorded worker is still the one in the file. Without a
        lease nothing is written. */
    method RecordLease(ghost s: State, worker: nat, guard: Option<nat>) returns (ghost steps: seq<Step>)
      requires Sees(s)
      requires lease.Some? ==>
        s.supervisors[pid].launch == match guard case None => Spawned(worker) case Some(g) => Guarded(worker, g)
      modifies files`lock
      ensures IsRun(s, steps) && Sees(After(s, steps)) && |steps| == (if lease.Some? then 1 else 0)
      ensures Inv(s) ==> Inv(After(s, steps))
      ensures var t := After(s, steps);
        lease.Some? ==>
          && Names(t.lock, pid, lease.value) && t.lock.Written? && t.lock.owner.worker == Some(worker)
          && t.lock.owner.guard == guard && t.recorded == s.recorded + {worker}
          && t.supervisors[pid].launch == match guard case None => Recorded(worker) case Some(g) => Running(worker, g)
      ensures lease.None? ==> files.lock == old(files.lock)
    {
      steps := [];
      if lease.Some? {
        files.lock := Written(Owner(pid, lease.value, Some(worker), guard));
        ghost var step := if guard.None? then RecordWorker(pid) else RecordGuard(pid);
        OneMore(s, steps, step);
        steps := steps + [step];
        if Inv(s) {
          StepKeepsInv(s, step);
        }
      }
    }

    /** Removes the file only while it is this window's own. */
    method ReleaseLease(ghost s: State) returns (ghost steps: seq<Step>)
      requires Agrees(s) && (lease.Some? ==> files.lock.Written?)
      modifies this`lease, files`lock
      ensures IsRun(s, steps) && Agrees(After(s, steps)) && lease == None
      ensures files.lock ==
        if old(lease.Some? && files.lock.owner.token == lease.value) then Absent else old(files.lock)
    {
      steps := [];
      if lease.None? {
        return;
      }
      OneMore(s, steps, CheckToken(pid));
      steps := steps + [CheckToken(pid)];
      if files.lock.owner.token == lease.value {
        files.lock := Absent;
        OneMore(s, steps, Unlink(pid));
        steps := steps + [Unlink(pid)];
      }
      lease := None;
    }
  }
}

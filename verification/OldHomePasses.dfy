/** What becomes of a home that a cleaner takes: where the trees in quarantine come from, and what a
    pass and a server start come to when nobody else interferes. */
module OldHomePasses {
  import opened Basics
  import opened OldHomes

  // ----- no home is lost in quarantine -----

  /** A cleaner is at work on the tree, or died at it. */
  ghost predicate Held(s: State, t: nat) {
    exists c: nat :: c < |s.cleaners| && HoldsTree(s.cleaners[c].pc) && s.cleaners[c].pc.tree == t
  }

  /** The step puts a tree back, and finds its old path occupied. */
  predicate Occupied(s: State, step: Step, t: nat) {
    && step.Clean? && step.cop.Restore? && s.home.Some?
    && step.c < |s.cleaners| && s.cleaners[step.c].pc == Restoring(t)
  }

  /** The trees whose old path was occupied at the end of their pass. */
  ghost predicate Retained(s: State, steps: seq<Step>, t: nat)
    requires IsRun(s, steps)
    decreases |steps|
  {
    steps != [] && (Occupied(s, steps[0], t) || Retained(Apply(s, steps[0]), steps[1..], t))
  }

  ghost predicate InTrash(s: State, t: nat) { t < |s.trees| && s.trees[t].place.InQuarantine? }

  /** One step brings a tree into quarantine with its cleaner, and lets it go again only home, or where
      its path is occupied. */
  lemma StepAccountsForTrash(s: State, step: Step, t: nat)
    requires Inv(s) && Enabled(s, step)
    requires InTrash(Apply(s, step), t)
    ensures Held(Apply(s, step), t) || Occupied(s, step, t) || (InTrash(s, t) && !Held(s, t))
  {
    var s' := Apply(s, step);
    if step.Clean? {
      CleanKeepsContents(s, step.c, step.cop);
      if Held(s, t) {
        var c: nat :| c < |s.cleaners| && HoldsTree(s.cleaners[c].pc) && s.cleaners[c].pc.tree == t;
        assert CleanerKnows(s, c);
        if c != step.c {
          assert s'.cleaners[c] == s.cleaners[c];
        } else {
          assert s'.cleaners[c].pc.Waiting? || (HoldsTree(s'.cleaners[c].pc) && s'.cleaners[c].pc.tree == t);
        }
      } else if !InTrash(s, t) {
        assert HoldsTree(s'.cleaners[step.c].pc) && s'.cleaners[step.c].pc.tree == t;
      }
    } else if step.Serve? {
      ServeKeepsPlaces(s, step.i, step.sop);
    }
  }

  /** What is left there stays there. */
  lemma TrashIsLeft(s: State, step: Step, t: nat)
    requires Inv(s) && Enabled(s, step)
    requires (InTrash(s, t) && !Held(s, t)) || Occupied(s, step, t)
    ensures InTrash(Apply(s, step), t) && !Held(Apply(s, step), t)
  {
    var s' := Apply(s, step);
    if step.Clean? {
      CleanKeepsContents(s, step.c, step.cop);
      assert CleanerKnows(s, step.c);
    } else if step.Serve? {
      ServeKeepsPlaces(s, step.i, step.sop);
    }
  }

  lemma {:induction false} TrashFrom(s: State, steps: seq<Step>, t: nat)
    requires Inv(s) && IsRun(s, steps)
    ensures InTrash(After(s, steps), t) && !Held(After(s, steps), t) <==>
            Retained(s, steps, t) || (InTrash(s, t) && !Held(s, t))
    decreases |steps|
  {
    if steps != [] {
      var s' := Apply(s, steps[0]);
      StepKeepsInv(s, steps[0]);
      TrashFrom(s', steps[1..], t);
      if InTrash(s', t) && !Held(s', t) {
        StepAccountsForTrash(s, steps[0], t);
      }
      if (InTrash(s, t) && !Held(s, t)) || Occupied(s, steps[0], t) {
        TrashIsLeft(s, steps[0], t);
      }
    }
  }

  /** In every run a tree is in quarantine exactly while a cleaner works on it or died at it, or since
      its pass ended with another tree at its old path. */
  lemma QuarantineIsAccounted(s: State, steps: seq<Step>, t: nat)
    requires Init(s) && IsRun(s, steps) && t < |After(s, steps).trees|
    ensures After(s, steps).trees[t].place.InQuarantine? <==> Held(After(s, steps), t) || Retained(s, steps, t)
  {
    assert Inv(s);
    TrashFrom(s, steps, t);
    RunKeepsInv(s, steps);
    var end := After(s, steps);
    if Held(end, t) {
      var c: nat :| c < |end.cleaners| && HoldsTree(end.cleaners[c].pc) && end.cleaners[c].pc.tree == t;
      assert CleanerKnows(end, c);
    }
  }

  // ----- an undisturbed pass -----

  ghost predicate By(c: nat, steps: seq<Step>) { forall step | step in steps :: step.Clean? && step.c == c }

  lemma Then(s: State, step: Step, rest: seq<Step>, end: State) returns (steps: seq<Step>)
    requires Enabled(s, step) && IsRun(Apply(s, step), rest) && After(Apply(s, step), rest) == end
    ensures IsRun(s, steps) && After(s, steps) == end && steps == [step] + rest
  {
    steps := [step] + rest;
    assert steps[1..] == rest;
  }

  /** Reading all locks ends with a look at the tree's contents, or with the decision to put it back. */
  lemma {:induction false} ScanAll(s: State, c: nat, pc: CleanerPc, tree: Tree, to: CleanerPc)
    returns (steps: seq<Step>)
    requires c < |s.cleaners| && s.cleaners[c] == Cleaner(true, pc)
    requires pc.Scanning? && pc.tree < |s.trees| && s.trees[pc.tree] == tree && pc.todo <= tree.locks.Keys
    requires forall i | i in tree.locks && i !in pc.todo :: !Live(s, tree.locks[i])
    requires to == if HasLiveLock(s, tree) then Restoring(pc.tree)
                   else Scanned(pc.tree, pc.contentId, pc.decided, pc.snapshot)
    ensures IsRun(s, steps) && After(s, steps) == GotoCleaner(s, c, to) && By(c, steps)
    decreases pc.todo
  {
    if pc.todo == {} {
      steps := Then(s, Clean(c, EndScan), [], GotoCleaner(s, c, to));
    } else {
      var i :| i in pc.todo;
      var live := Live(s, tree.locks[i]);
      var step := Clean(c, ScanLock(i, live));
      var next := Apply(s, step);
      if live {
        steps := Then(s, step, [], GotoCleaner(s, c, to));
      } else {
        var rest := ScanAll(next, c, next.cleaners[c].pc, tree, to);
        assert GotoCleaner(next, c, to) == GotoCleaner(s, c, to);
        steps := Then(s, step, rest, GotoCleaner(s, c, to));
      }
    }
  }

  lemma {:induction false} RunThen(s: State, first: seq<Step>, second: seq<Step>)
    requires IsRun(s, first) && IsRun(After(s, first), second)
    ensures IsRun(s, first + second) && After(s, first + second) == After(After(s, first), second)
    decreases |first|
  {
    if first == [] {
      assert first + second == second;
    } else {
      RunThen(Apply(s, first[0]), first[1..], second);
      var whole := Then(s, first[0], first[1..] + second, After(After(s, first), second));
      assert whole == first + second;
    }
  }

  /** The cleaner `c` has the tree `t` of the home path in quarantine, where nothing else changed. */
  ghost predicate Took(s: State, q: State, c: nat, t: nat, pc: CleanerPc) {
    && c < |s.cleaners| && s.cleaners[c] == Cleaner(true, Waiting)
    && s.home == Some(t) && t < |s.trees| && s.trees[t].place.AtHome?
    && q == GotoCleaner(SetPlace(s, t, InQuarantine), c, pc).(home := None)
  }

  lemma Takes(s: State, c: nat, t: nat) returns (steps: seq<Step>)
    requires c < |s.cleaners| && s.cleaners[c] == Cleaner(true, Waiting)
    requires s.home == Some(t) && t < |s.trees| && s.trees[t].place.AtHome?
    ensures IsRun(s, steps) && By(c, steps)
    ensures var body := s.trees[t].content.body;
            Took(s, After(s, steps), c, t, Scanning(t, body, s.trees[t].locks.Keys, false, None))
  {
    var body := s.trees[t].content.body;
    var look, quarantine := Clean(c, Look(body)), Clean(c, Quarantine);
    var q := Apply(Apply(s, look), quarantine);
    steps := Then(Apply(s, look), quarantine, [], q);
    steps := Then(s, look, steps, q);
  }

  lemma PutsBack(s: State, q: State, c: nat, t: nat) returns (steps: seq<Step>)
    requires Took(s, q, c, t, Restoring(t))
    ensures IsRun(q, steps) && After(q, steps) == s && By(c, steps)
  {
    var back := Apply(q, Clean(c, Restore));
    assert back.trees == s.trees && back.cleaners == s.cleaners;
    steps := Then(q, Clean(c, Restore), [], s);
  }

  /** The tree removed, what was saved of it kept, and nothing else changed. */
  function Gone(s: State, t: nat, copy: set<Content>): State
    requires t < |s.trees|
  {
    SetPlace(s, t, Removed).(home := None, saved := s.saved + copy)
  }

  /** The last scan and the last comparison, with the seed or with the copy that was saved. */
  lemma Removes(s: State, q: State, c: nat, t: nat, snapshot: Option<Content>, copy: set<Content>)
    returns (steps: seq<Step>)
    requires t < |s.trees| && copy == (if snapshot.None? then {} else {snapshot.value})
    requires Took(s, q.(saved := s.saved), c, t,
                  Scanning(t, s.trees[t].content.body, s.trees[t].locks.Keys, true, snapshot))
    requires !HasLiveLock(s, s.trees[t])
    requires q.saved == s.saved + copy
    requires s.trees[t].content == if snapshot.None? then s.seed else snapshot.value
    ensures IsRun(q, steps) && After(q, steps) == Gone(s, t, copy) && By(c, steps)
  {
    var to := Scanned(t, s.trees[t].content.body, true, snapshot);
    assert !HasLiveLock(q, q.trees[t]) by {
      forall i | i in q.trees[t].locks ensures !Live(q, q.trees[t].locks[i]) {
        assert !Live(s, s.trees[t].locks[i]);
      }
    }
    steps := ScanAll(q, c, q.cleaners[c].pc, q.trees[t], to);
    var r := GotoCleaner(q, c, to);
    var end := Apply(r, Clean(c, Finish));
    assert end.trees == Gone(s, t, copy).trees && end.cleaners == s.cleaners;
    var last := Then(r, Clean(c, Finish), [], Gone(s, t, copy));
    RunThen(q, steps, last);
    steps := steps + last;
  }

  /** What a pass comes to for a home that nobody disturbs: kept as it is while some lock is live, if
      it is no longer what was looked at, or if it is edited and saving it fails; removed otherwise, and
      kept as a snapshot if edited. */
  function PassedOver(s: State, t: nat, same: bool, saveOk: bool): State
    requires t < |s.trees|
  {
    var content := s.trees[t].content;
    if !same || exists i | i in s.trees[t].locks :: Live(s, s.trees[t].locks[i]) then s
    else if content == s.seed then Gone(s, t, {})
    else if saveOk then Gone(s, t, {content})
    else s
  }

  lemma Decides(s: State, q: State, c: nat, t: nat, saveOk: bool) returns (steps: seq<Step>)
    requires t < |s.trees| && Took(s, q, c, t, Deciding(t, s.trees[t].content.body))
    requires !HasLiveLock(s, s.trees[t])
    ensures IsRun(q, steps) && After(q, steps) == PassedOver(s, t, true, saveOk) && By(c, steps)
  {
    var content := s.trees[t].content;
    var op := if content == s.seed then SkipSave else Save(if saveOk then Some(content) else None);
    var next := Apply(q, Clean(c, op));
    if content == s.seed {
      assert s.saved + {} == s.saved;
      steps := Removes(s, next, c, t, None, {});
    } else if saveOk {
      steps := Removes(s, next, c, t, Some(content), {content});
    } else {
      steps := PutsBack(s, next, c, t);
    }
    steps := Then(q, Clean(c, op), steps, PassedOver(s, t, true, saveOk));
  }

  lemma Examines(s: State, q: State, c: nat, t: nat, same: bool, saveOk: bool) returns (steps: seq<Step>)
    requires t < |s.trees|
    requires Took(s, q, c, t, Scanning(t, s.trees[t].content.body, s.trees[t].locks.Keys, false, None))
    ensures IsRun(q, steps) && After(q, steps) == PassedOver(s, t, same, saveOk) && By(c, steps)
  {
    var live := HasLiveLock(s, s.trees[t]);
    var to := if live then Restoring(t) else Scanned(t, s.trees[t].content.body, false, None);
    assert HasLiveLock(q, q.trees[t]) == live by {
      assert forall i | i in s.trees[t].locks :: Live(q, q.trees[t].locks[i]) == Live(s, s.trees[t].locks[i]);
    }
    steps := ScanAll(q, c, q.cleaners[c].pc, q.trees[t], to);
    var r := GotoCleaner(q, c, to);
    var rest: seq<Step>;
    if live {
      rest := PutsBack(s, r, c, t);
    } else {
      var compare := Clean(c, Compare(s.trees[t].content.body, same));
      if same {
        rest := Decides(s, Apply(r, compare), c, t, saveOk);
      } else {
        rest := PutsBack(s, Apply(r, compare), c, t);
      }
      rest := Then(r, compare, rest, PassedOver(s, t, same, saveOk));
    }
    RunThen(q, steps, rest);
    steps := steps + rest;
  }

  /** There is a run of one cleaner that does exactly that. */
  lemma UndisturbedPass(s: State, c: nat, same: bool, saveOk: bool) returns (steps: seq<Step>)
    requires PlacesAgree(s) && s.home.Some? && c < |s.cleaners| && s.cleaners[c] == Cleaner(true, Waiting)
    ensures IsRun(s, steps) && After(s, steps) == PassedOver(s, s.home.value, same, saveOk) && By(c, steps)
  {
    var taken := Takes(s, c, s.home.value);
    var rest := Examines(s, After(s, taken), c, s.home.value, same, saveOk);
    RunThen(s, taken, rest);
    steps := taken + rest;
  }

  /** Saving is left out only for a home with the digest of the seed. */
  lemma OnlySeedsSkipSaving(s: State, c: nat)
    requires EnabledCleaner(s, c, SkipSave)
    ensures s.cleaners[c].pc.contentId == s.seed.body
  {
  }

  // ----- an undisturbed server start -----

  /** Start `i` serves the tree `t`, with its child and a lock that names both processes. */
  function ServedBy(s: State, i: nat, t: nat): State
    requires i < |s.servers| && t < |s.trees|
  {
    SetLock(s, t, i, Pids(s.servers[i].host, Some(i)))
    .(servers := s.servers[i := Server(s.servers[i].host, Serving, Some(t))], children := s.children + {i})
  }

  lemma ServeStep(s: State, i: nat, op: ServerOp, rest: seq<Step>, end: State) returns (steps: seq<Step>)
    requires Enabled(s, Serve(i, op)) && IsRun(ApplyServer(s, i, op), rest) && After(ApplyServer(s, i, op), rest) == end
    ensures IsRun(s, steps) && After(s, steps) == end
  {
    steps := Then(s, Serve(i, op), rest, end);
  }

  /** The tree with the lock of start `i`, its server at `pc`. */
  function With(s: State, i: nat, t: nat, text: LockText, pc: ServerPc): State
    requires i < |s.servers| && t < |s.trees|
  {
    GotoServer(SetLock(s, t, i, text), i, pc)
  }

  lemma WithAgain(s: State, i: nat, t: nat, text: LockText, pc: ServerPc, text': LockText, pc': ServerPc)
    requires i < |s.servers| && t < |s.trees|
    ensures With(With(s, i, t, text, pc), i, t, text', pc') == With(s, i, t, text', pc')
  {
    var locks: map<nat, LockText> := s.trees[t].locks;
    assert locks[i := text][i := text'] == locks[i := text'];
    var once, twice := With(s, i, t, text', pc'), With(With(s, i, t, text, pc), i, t, text', pc');
    assert once.trees == twice.trees && once.servers == twice.servers;
  }

  lemma Locks(s: State, i: nat, t: nat) returns (steps: seq<Step>)
    requires i < |s.servers| && s.servers[i].pc.Unlocked? && s.servers[i].host in s.hosts
    requires s.home == Some(t) && t < |s.trees|
    ensures IsRun(s, steps) && After(s, steps) == With(s, i, t, Pending, PendingWritten(t))
  {
    var host := s.servers[i].host;
    var s1 := ApplyServer(s, i, CheckMarker);
    var s2 := With(s, i, t, Torn, LockTorn(t));
    var s3 := With(s, i, t, Pids(host, None), Locked);
    var s4 := With(s, i, t, Torn, PendingTorn(t));
    var end := With(s, i, t, Pending, PendingWritten(t));
    WithAgain(s, i, t, Torn, LockTorn(t), Pids(host, None), Locked);
    WithAgain(s, i, t, Pids(host, None), Locked, Torn, PendingTorn(t));
    WithAgain(s, i, t, Torn, PendingTorn(t), Pending, PendingWritten(t));
    assert ApplyServer(s1, i, CreateLock) == s2;
    assert ApplyServer(s2, i, WriteLock) == s3;
    assert ApplyServer(s3, i, OpenPending) == s4;
    assert ApplyServer(s4, i, WritePending) == end;
    steps := ServeStep(s4, i, WritePending, [], end);
    steps := ServeStep(s3, i, OpenPending, steps, end);
    steps := ServeStep(s2, i, WriteLock, steps, end);
    steps := ServeStep(s1, i, CreateLock, steps, end);
    steps := ServeStep(s, i, CheckMarker, steps, end);
  }

  lemma Records(s: State, i: nat, t: nat, q: State) returns (steps: seq<Step>)
    requires i < |s.servers| && s.servers[i].host in s.hosts && s.home == Some(t) && t < |s.trees|
    requires q == With(s, i, t, Pending, PendingWritten(t))
    ensures IsRun(q, steps) && After(q, steps) == ServedBy(s, i, t)
  {
    var q1 := ApplyServer(q, i, Spawn);
    var q2 := ApplyServer(q1, i, OpenRecord);
    var locks: map<nat, LockText> := s.trees[t].locks;
    var mine := Pids(s.servers[i].host, Some(i));
    assert locks[i := Pending][i := Torn] == locks[i := Torn];
    assert locks[i := Torn][i := mine] == locks[i := mine];
    var end := ServedBy(s, i, t);
    assert end.trees == ApplyServer(q2, i, WriteRecord).trees && end.servers == ApplyServer(q2, i, WriteRecord).servers;
    steps := ServeStep(q2, i, WriteRecord, [], end);
    steps := ServeStep(q1, i, OpenRecord, steps, end);
    steps := ServeStep(q, i, Spawn, steps, end);
  }

  /** A server start that nobody disturbs leaves its lock with the child's number in the home. */
  lemma UndisturbedStart(s: State, i: nat, t: nat) returns (steps: seq<Step>)
    requires i < |s.servers| && s.servers[i].pc.Unlocked? && s.servers[i].host in s.hosts
    requires s.home == Some(t) && t < |s.trees|
    ensures IsRun(s, steps) && After(s, steps) == ServedBy(s, i, t)
  {
    var q := With(s, i, t, Pending, PendingWritten(t));
    steps := Locks(s, i, t);
    var rest := Records(s, i, t, q);
    RunThen(s, steps, rest);
    steps := steps + rest;
  }

  /** When its child is gone, it takes its lock away again, and the home is as it was. */
  lemma ServedHomeIsLeft(s: State, i: nat, t: nat) returns (steps: seq<Step>)
    requires i < |s.servers| && s.servers[i].host in s.hosts && i !in s.children
    requires s.home == Some(t) && t < |s.trees| && i !in s.trees[t].locks
    ensures IsRun(ServedBy(s, i, t), steps)
    ensures After(ServedBy(s, i, t), steps) ==
            s.(servers := s.servers[i := Server(s.servers[i].host, Finished, Some(t))])
  {
    var q := ServedBy(s, i, t);
    var q1 := ApplyServer(q, i, ChildDies);
    var end := s.(servers := s.servers[i := Server(s.servers[i].host, Finished, Some(t))]);
    assert s.children + {i} - {i} == s.children;
    assert s.trees[t].locks[i := Pids(s.servers[i].host, Some(i))] - {i} == s.trees[t].locks;
    assert ApplyServer(q1, i, Unlock).trees == s.trees;
    steps := ServeStep(q1, i, Unlock, [], end);
    steps := ServeStep(q, i, ChildDies, steps, end);
  }
}

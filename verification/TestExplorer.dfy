/** The Test Explorer's bookkeeping: how many runs hold an object, and discoveries put off until
    none does. */
module TestExplorer {
  import opened Basics

  type Obj = nat

  /** `pending` keeps the order of the first request; `asked` are discoveries waiting for their
      answer; `replaced` logs the objects whose children a discovery replaced. */
  datatype State = State(
    running: map<Obj, nat>, pending: seq<Obj>, objects: set<Obj>, tree: set<Obj>,
    runs: map<nat, set<Obj>>, asked: multiset<Obj>, replaced: seq<Obj>)

  datatype Step =
    | Discover(o: Obj)
    | Answer(o: Obj)
    | Fail(o: Obj)
    | Begin(run: nat)
    | Hold(run: nat, o: Obj)
    | End(run: nat)
    | Rebuild(objects: set<Obj>, tree: set<Obj>)

  function Defer(pending: seq<Obj>, o: Obj): seq<Obj> { if o in pending then pending else pending + [o] }

  function Grab(running: map<Obj, nat>, o: Obj): map<Obj, nat> {
    running[o := 1 + if o in running then running[o] else 0]
  }

  /** One hold less on each object of a run. */
  function Release(running: map<Obj, nat>, held: set<Obj>): map<Obj, nat> {
    map o | o in running && !(o in held && running[o] <= 1) :: if o in held then running[o] - 1 else running[o]
  }

  function StillHeld(pending: seq<Obj>, running: map<Obj, nat>): seq<Obj> {
    if pending == [] then []
    else
      var init, o := pending[..|pending| - 1], pending[|pending| - 1];
      StillHeld(init, running) + if o in running then [o] else []
  }

  /** What is asked again: what is free now and still an object of the tree. */
  function Reissued(pending: seq<Obj>, running: map<Obj, nat>, present: set<Obj>): seq<Obj> {
    if pending == [] then []
    else
      var init, o := pending[..|pending| - 1], pending[|pending| - 1];
      Reissued(init, running, present) + if o !in running && o in present then [o] else []
  }

  predicate Enabled(s: State, step: Step) {
    match step
    case Answer(o) => o in s.asked
    case Fail(o) => o in s.asked
    case Begin(run) => run !in s.runs
    case Hold(run, o) => run in s.runs
    case End(run) => run in s.runs
    case _ => true
  }

  function Apply(s: State, step: Step): State {
    match step
    case Discover(o) =>
      if o in s.running then s.(pending := Defer(s.pending, o))
      else if o in s.objects then s.(asked := s.asked + multiset{o})
      else s
    case Answer(o) =>
      if o in s.running then s.(pending := Defer(s.pending, o), asked := s.asked - multiset{o})
      else s.(asked := s.asked - multiset{o}, replaced := s.replaced + [o])
    case Fail(o) => s.(asked := s.asked - multiset{o})
    case Begin(run) => s.(runs := s.runs[run := {}])
    case Hold(run, o) =>
      if run !in s.runs || o in s.runs[run] then s
      else s.(running := Grab(s.running, o), runs := s.runs[run := s.runs[run] + {o}])
    case End(run) =>
      if run !in s.runs then s
      else
        var running := Release(s.running, s.runs[run]);
        s.(running := running, runs := s.runs - {run}, pending := StillHeld(s.pending, running),
           asked := s.asked + multiset(Reissued(s.pending, running, s.objects * s.tree)))
    case Rebuild(objects, tree) => s.(objects := objects, tree := tree)
  }

  // ---- What always holds

  function Holders(runs: map<nat, set<Obj>>, o: Obj): set<nat> { set r | r in runs && o in runs[r] }

  /** The counter of an object is the number of unfinished runs that hold it. */
  ghost predicate Counts(s: State) {
    forall o ::
      && (o in s.running <==> Holders(s.runs, o) != {})
      && (o in s.running ==> s.running[o] == |Holders(s.runs, o)|)
  }

  ghost predicate OnlyHeldArePending(s: State) { forall o | o in s.pending :: o in s.running }

  /** No object is put off twice. */
  ghost predicate PendingOnce(s: State) { forall o :: multiset(s.pending)[o] <= 1 }

  ghost predicate Inv(s: State) { Counts(s) && OnlyHeldArePending(s) && PendingOnce(s) }

  lemma HoldersGrow(runs: map<nat, set<Obj>>, run: nat, o: Obj, other: Obj)
    requires run in runs && o !in runs[run]
    ensures var after := runs[run := runs[run] + {o}];
            Holders(after, other) == if other == o then Holders(runs, o) + {run} else Holders(runs, other)
  {
  }

  lemma HoldersShrink(runs: map<nat, set<Obj>>, run: nat, o: Obj)
    ensures Holders(runs - {run}, o) == Holders(runs, o) - {run}
  {
  }

  lemma HoldKeepsCounts(s: State, run: nat, o: Obj)
    requires Counts(s) && run in s.runs && o !in s.runs[run]
    ensures Counts(Apply(s, Hold(run, o)))
  {
    forall other {
      HoldersGrow(s.runs, run, o, other);
    }
  }

  lemma EndKeepsCounts(s: State, run: nat)
    requires Counts(s) && run in s.runs
    ensures Counts(Apply(s, End(run)))
  {
    var t := Apply(s, End(run));
    forall o
      ensures o in t.running <==> Holders(t.runs, o) != {}
      ensures o in t.running ==> t.running[o] == |Holders(t.runs, o)|
    {
      HoldersShrink(s.runs, run, o);
      var before := Holders(s.runs, o);
      assert o in s.runs[run] <==> run in before;
      if run in before {
        assert |before - {run}| == |before| - 1;
      } else {
        assert before - {run} == before;
      }
    }
  }

  lemma {:induction false} StillHeldCounts(pending: seq<Obj>, running: map<Obj, nat>, o: Obj)
    ensures multiset(StillHeld(pending, running))[o] == if o in running then multiset(pending)[o] else 0
    decreases |pending|
  {
    if pending != [] {
      StillHeldCounts(pending[..|pending| - 1], running, o);
      assert pending == pending[..|pending| - 1] + [pending[|pending| - 1]];
    }
  }

  lemma {:induction false} ReissuedCounts(pending: seq<Obj>, running: map<Obj, nat>, present: set<Obj>, o: Obj)
    ensures multiset(Reissued(pending, running, present))[o] ==
            if o !in running && o in present then multiset(pending)[o] else 0
    decreases |pending|
  {
    if pending != [] {
      ReissuedCounts(pending[..|pending| - 1], running, present, o);
      assert pending == pending[..|pending| - 1] + [pending[|pending| - 1]];
    }
  }

  lemma {:induction false} StillHeldIs(pending: seq<Obj>, running: map<Obj, nat>, o: Obj)
    ensures o in StillHeld(pending, running) <==> o in pending && o in running
    decreases |pending|
  {
    if pending != [] {
      StillHeldIs(pending[..|pending| - 1], running, o);
    }
  }

  lemma StepKeepsInv(s: State, step: Step)
    requires Inv(s) && Enabled(s, step)
    ensures Inv(Apply(s, step))
  {
    var t := Apply(s, step);
    match step
    case Begin(run) =>
      forall o ensures Holders(t.runs, o) == Holders(s.runs, o) {
      }
    case Hold(run, o) =>
      if o !in s.runs[run] {
        HoldKeepsCounts(s, run, o);
      }
    case End(run) =>
      EndKeepsCounts(s, run);
      forall o | o in t.pending ensures o in t.running {
        StillHeldIs(s.pending, t.running, o);
      }
      forall o ensures multiset(t.pending)[o] <= 1 {
        StillHeldCounts(s.pending, t.running, o);
      }
    case _ =>
  }

  // ---- What each step does

  /** A discovery never replaces the children of an object that a run holds. */
  lemma ReplacesOnlyFree(s: State, step: Step)
    requires Inv(s) && Enabled(s, step) && Apply(s, step).replaced != s.replaced
    ensures exists o ::
              step == Answer(o) && Apply(s, step).replaced == s.replaced + [o] && Holders(s.runs, o) == {}
  {
    assert step.Answer?;
    assert step == Answer(step.o);
  }

  lemma LastHolderEnds(s: State, run: nat, o: Obj)
    requires Inv(s) && run in s.runs && o in s.pending
    ensures o !in Release(s.running, s.runs[run]) <==> Holders(s.runs, o) == {run}
  {
    EndKeepsCounts(s, run);
    HoldersShrink(s.runs, run, o);
    assert Holders(s.runs, o) != {};
  }

  /** A discovery that was put off stays so until the last run that holds the object ends; then it
      is asked again, unless the object has left the tree. */
  lemma DeferredIsReissued(s: State, step: Step, o: Obj)
    requires Inv(s) && Enabled(s, step) && o in s.pending
    ensures var t := Apply(s, step);
            o !in t.pending <==> step.End? && Holders(s.runs, o) == {step.run}
    ensures var t := Apply(s, step);
            o !in t.pending ==>
              t.asked[o] == s.asked[o] + if o in s.objects && o in s.tree then 1 else 0
  {
    if step.End? {
      var running := Release(s.running, s.runs[step.run]);
      LastHolderEnds(s, step.run, o);
      StillHeldIs(s.pending, running, o);
      ReissuedCounts(s.pending, running, s.objects * s.tree, o);
    }
  }

  /** What a step asks: an object that is free and known, when it is to be discovered; nothing else is
      asked but what was put off. */
  lemma AskedIs(s: State, step: Step, o: Obj)
    requires Inv(s) && Enabled(s, step) && Apply(s, step).asked[o] > s.asked[o]
    ensures || (step == Discover(o) && Holders(s.runs, o) == {} && o in s.objects
                && Apply(s, step).asked[o] == s.asked[o] + 1)
            || (step.End? && o in s.pending && Holders(s.runs, o) == {step.run})
  {
    if step.End? {
      var running := Release(s.running, s.runs[step.run]);
      ReissuedCounts(s.pending, running, s.objects * s.tree, o);
      assert o in multiset(s.pending);
      LastHolderEnds(s, step.run, o);
    }
  }

  /** A free object is asked for as soon as it is to be discovered, and its answer replaces its
      children. */
  lemma FreeRequestsGoThrough(s: State, o: Obj)
    requires Inv(s) && Holders(s.runs, o) == {}
    ensures o in s.objects ==> Apply(s, Discover(o)).asked == s.asked + multiset{o}
    ensures Apply(s, Answer(o)).replaced == s.replaced + [o] && Apply(s, Answer(o)).asked == s.asked - multiset{o}
  {
  }

  /** A request for a held object is not lost: it is pending as soon as it is made or answered. */
  lemma HeldRequestsWait(s: State, o: Obj)
    requires Inv(s) && Holders(s.runs, o) != {}
    ensures o in Apply(s, Discover(o)).pending && o in Apply(s, Answer(o)).pending
    ensures Apply(s, Answer(o)).asked == s.asked - multiset{o}
  {
  }

  // ---- Every run of the program

  ghost predicate Trace(s: State, steps: seq<Step>)
    decreases |steps|
  {
    steps == [] || (Enabled(s, steps[0]) && Trace(Apply(s, steps[0]), steps[1..]))
  }

  function After(s: State, steps: seq<Step>): State
    decreases |steps|
  {
    if steps == [] then s else After(Apply(s, steps[0]), steps[1..])
  }

  function Initially(objects: set<Obj>, tree: set<Obj>): State {
    State(map[], [], objects, tree, map[], multiset{}, [])
  }

  lemma {:induction false} TraceKeeps(s: State, steps: seq<Step>)
    requires Inv(s) && Trace(s, steps)
    ensures Inv(After(s, steps))
    decreases |steps|
  {
    if steps != [] {
      StepKeepsInv(s, steps[0]);
      TraceKeeps(Apply(s, steps[0]), steps[1..]);
    }
  }

  /** The runs that have begun and not ended, with the objects they hold, by what happened. */
  function Unfinished(runs: map<nat, set<Obj>>, steps: seq<Step>): map<nat, set<Obj>>
    decreases |steps|
  {
    if steps == [] then runs
    else
      Unfinished(match steps[0]
                 case Begin(run) => runs[run := {}]
                 case Hold(run, o) => runs[run := (if run in runs then runs[run] else {}) + {o}]
                 case End(run) => runs - {run}
                 case _ => runs, steps[1..])
  }

  /** The objects and the tree as they were last built. */
  function LastBuilt(objects: set<Obj>, tree: set<Obj>, steps: seq<Step>): (set<Obj>, set<Obj>)
    decreases |steps|
  {
    if steps == [] then (objects, tree)
    else if steps[0].Rebuild? then LastBuilt(steps[0].objects, steps[0].tree, steps[1..])
    else LastBuilt(objects, tree, steps[1..])
  }

  lemma {:induction false} HistoryIs(s: State, steps: seq<Step>)
    requires Trace(s, steps)
    ensures After(s, steps).runs == Unfinished(s.runs, steps)
    ensures (After(s, steps).objects, After(s, steps).tree) == LastBuilt(s.objects, s.tree, steps)
    decreases |steps|
  {
    if steps != [] {
      if steps[0].Hold? && steps[0].o in s.runs[steps[0].run] {
        assert s.runs[steps[0].run] + {steps[0].o} == s.runs[steps[0].run];
        assert s.runs[steps[0].run := s.runs[steps[0].run]] == s.runs;
      }
      HistoryIs(Apply(s, steps[0]), steps[1..]);
    }
  }

  /** The requests in flight: as many as were asked and not answered, with or without success. */
  lemma AnsweredIsDone(s: State, step: Step)
    requires Inv(s) && Enabled(s, step) && (step.Answer? || step.Fail?)
    ensures Apply(s, step).asked == s.asked - multiset{step.o} && |Apply(s, step).asked| == |s.asked| - 1
  {
  }

  /** At every await the counters are right and only held objects have discoveries put off; with no
      run left, nothing is held and nothing is put off. */
  lemma AlwaysAccurate(objects: set<Obj>, tree: set<Obj>, steps: seq<Step>)
    requires Trace(Initially(objects, tree), steps)
    ensures var t := After(Initially(objects, tree), steps);
            && Inv(t) && t.runs == Unfinished(map[], steps) && (t.objects, t.tree) == LastBuilt(objects, tree, steps)
            && (t.runs == map[] ==> forall o :: o !in t.running && o !in t.pending)
  {
    HistoryIs(Initially(objects, tree), steps);
    var t := After(Initially(objects, tree), steps);
    TraceKeeps(Initially(objects, tree), steps);
    if t.runs == map[] {
      forall o ensures o !in t.running && o !in t.pending {
        assert Holders(t.runs, o) == {};
      }
    }
  }

  // ---- The program

  class Explorer {
    var running: map<Obj, nat>
    var pending: seq<Obj>
    var objects: set<Obj>
    var tree: set<Obj>
    ghost var runs: map<nat, set<Obj>>
    ghost var asked: multiset<Obj>
    ghost var replaced: seq<Obj>

    ghost function Abs(): State
      reads this
    {
      State(running, pending, objects, tree, runs, asked, replaced)
    }

    constructor (known: set<Obj>, shown: set<Obj>)
      ensures Abs() == Initially(known, shown)
    {
      running, pending, objects, tree := map[], [], known, shown;
      runs, asked, replaced := map[], multiset{}, [];
    }

    /** `discover` up to its await; `fetch` says whether it goes on to ask the server. */
    method StartDiscovery(o: Obj) returns (fetch: bool)
      modifies this
      ensures Abs() == Apply(old(Abs()), Discover(o))
      ensures fetch <==> old(o !in running && o in objects)
    {
      if o in running {
        pending := Defer(pending, o);
        return false;
      }
      fetch := o in objects;
      if fetch {
        asked := asked + multiset{o};
      }
    }

    /** `discover` from its await on; `publish` says whether the children are replaced. */
    method Answered(o: Obj) returns (publish: bool)
      requires Enabled(Abs(), Answer(o))
      modifies this
      ensures Abs() == Apply(old(Abs()), Answer(o))
      ensures publish <==> o !in running
    {
      asked := asked - multiset{o};
      if o in running {
        pending := Defer(pending, o);
        return false;
      }
      replaced := replaced + [o];
      return true;
    }

    /** A selection of the run begins; `held` are the objects the run holds already. */
    method HoldObject(ghost run: nat, held: set<Obj>, o: Obj) returns (now: set<Obj>)
      requires run in runs && held == runs[run]
      modifies this
      ensures Abs() == Apply(old(Abs()), Hold(run, o)) && run in runs && now == runs[run]
    {
      now := held;
      if o !in held {
        running := running[o := (if o in running then running[o] else 0) + 1];
        now := held + {o};
        runs := runs[run := now];
      }
    }

    /** Lets go of the objects of a run. */
    method LetGo(held: set<Obj>)
      requires forall o | o in held :: o in running && running[o] >= 1
      modifies this`running
      ensures running == Release(old(running), held)
    {
      var left := held;
      ghost var before, done := running, {};
      while left != {}
        invariant left <= held && done == held - left && running == Release(before, done)
        decreases |left|
      {
        var o :| o in left;
        ReleaseOne(before, done, o);
        running := if running[o] - 1 > 0 then running[o := running[o] - 1] else running - {o};
        left, done := left - {o}, done + {o};
      }
    }

    /** Asks again for what was put off and is free, as far as it is in the tree. */
    method AskAgain() returns (again: seq<Obj>)
      modifies this`pending
      ensures pending == StillHeld(old(pending), running)
      ensures again == Reissued(old(pending), running, objects * tree)
    {
      var keep: seq<Obj> := [];
      again := [];
      var all := pending;
      ghost var present := objects * tree;
      for i := 0 to |all|
        invariant keep == StillHeld(all[..i], running)
        invariant again == Reissued(all[..i], running, present)
      {
        assert all[..i + 1][..i] == all[..i];
        if all[i] in running {
          keep := keep + [all[i]];
        } else if all[i] in tree && all[i] in objects {
          again := again + [all[i]];
        }
      }
      assert all[..|all|] == all;
      pending := keep;
    }

    /** The `finally` of a run. */
    method EndRun(ghost run: nat, held: set<Obj>) returns (again: seq<Obj>)
      requires run in runs && held == runs[run] && Counts(Abs())
      modifies this
      ensures Abs() == Apply(old(Abs()), End(run))
      ensures again == Reissued(old(pending), running, objects * tree)
    {
      HeldAreCounted(Abs(), run);
      EndIs(Abs(), run);
      LetGo(held);
      again := AskAgain();
      asked := asked + multiset(again);
      runs := runs - {run};
    }
  }

  lemma EndIs(s: State, run: nat)
    requires run in s.runs
    ensures var running := Release(s.running, s.runs[run]);
            Apply(s, End(run)) ==
            State(running, StillHeld(s.pending, running), s.objects, s.tree, s.runs - {run},
                  s.asked + multiset(Reissued(s.pending, running, s.objects * s.tree)), s.replaced)
  {
  }

  lemma ReleaseOne(running: map<Obj, nat>, done: set<Obj>, o: Obj)
    requires o in running && o !in done
    ensures var before := Release(running, done);
            && o in before && before[o] == running[o]
            && Release(running, done + {o}) ==
               if running[o] > 1 then before[o := running[o] - 1] else before - {o}
  {
  }

  lemma HeldAreCounted(s: State, run: nat)
    requires Counts(s) && run in s.runs
    ensures forall o | o in s.runs[run] :: o in s.running && s.running[o] >= 1
  {
    forall o | o in s.runs[run] ensures o in s.running && s.running[o] >= 1 {
      assert run in Holders(s.runs, o);
    }
  }
}

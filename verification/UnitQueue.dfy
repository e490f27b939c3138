/** The ABAP Unit queue: harmless units a few at a time, longest first; every other unit alone
    after them. */
module UnitQueue {
  import opened Basics

  /** What a class declares; `Unknown` is any other text, or none. */
  datatype Duration = Long | Medium | Short | Unknown

  datatype Schedule = Schedule(harmless: bool, duration: Duration)

  /** One object's selections, with the risk and duration its classes give it. */
  datatype Run = Run(id: nat, harmless: bool, duration: Duration)

  function Rank(d: Duration): nat {
    match d case Long => 3 case Medium => 2 case Short => 1 case Unknown => 1
  }

  // ---- Risk, duration and order

  /** Harmless only when every class of a non-empty selection is scheduled so; `None` is a class
      nobody could tell about. */
  predicate IsHarmless(schedules: seq<Option<Schedule>>) {
    !(|schedules| == 0 || exists s | s in schedules :: s.None? || !s.value.harmless)
  }

  /** A stable sort, longest first: `x` goes behind everything that is not shorter. */
  function Insert<T>(x: T, rank: T -> nat, sorted: seq<T>): seq<T> {
    if sorted == [] then [x]
    else if rank(sorted[0]) < rank(x) then [x] + sorted
    else [sorted[0]] + Insert(x, rank, sorted[1..])
  }

  function LongestFirst<T>(xs: seq<T>, rank: T -> nat): seq<T> {
    if xs == [] then [] else Insert(xs[|xs| - 1], rank, LongestFirst(xs[..|xs| - 1], rank))
  }

  function OfRank<T>(xs: seq<T>, rank: T -> nat, r: nat): seq<T> {
    if xs == [] then []
    else OfRank(xs[..|xs| - 1], rank, r) + (if rank(xs[|xs| - 1]) == r then [xs[|xs| - 1]] else [])
  }

  /** What a stable sort is: by descending rank, within a rank as they came. */
  function ByRank<T>(xs: seq<T>, rank: T -> nat, bound: nat): seq<T> {
    if bound == 0 then [] else OfRank(xs, rank, bound - 1) + ByRank(xs, rank, bound - 1)
  }

  lemma {:induction false} InsertPasses<T>(x: T, rank: T -> nat, front: seq<T>, back: seq<T>)
    requires forall y | y in front :: rank(y) >= rank(x)
    ensures Insert(x, rank, front + back) == front + Insert(x, rank, back)
    decreases |front|
  {
    if front == [] {
      assert front + back == back;
    } else {
      InsertPasses(x, rank, front[1..], back);
      assert (front + back)[1..] == front[1..] + back;
      assert (front + back)[0] == front[0];
    }
  }

  lemma {:induction false} OfRankHasRank<T>(xs: seq<T>, rank: T -> nat, r: nat)
    ensures forall y | y in OfRank(xs, rank, r) :: rank(y) == r
    decreases |xs|
  {
    if xs != [] {
      OfRankHasRank(xs[..|xs| - 1], rank, r);
    }
  }

  lemma {:induction false} ByRankHasRank<T>(xs: seq<T>, rank: T -> nat, bound: nat)
    ensures forall y | y in ByRank(xs, rank, bound) :: rank(y) < bound
    decreases bound
  {
    if bound > 0 {
      OfRankHasRank(xs, rank, bound - 1);
      ByRankHasRank(xs, rank, bound - 1);
    }
  }

  lemma OfRankAppends<T>(xs: seq<T>, x: T, rank: T -> nat, r: nat)
    ensures OfRank(xs + [x], rank, r) == OfRank(xs, rank, r) + if rank(x) == r then [x] else []
  {
    var all := xs + [x];
    assert all[..|all| - 1] == xs && all[|all| - 1] == x;
  }

  lemma {:induction false} LowerRanksIgnore<T>(xs: seq<T>, x: T, rank: T -> nat, bound: nat)
    requires rank(x) >= bound
    ensures ByRank(xs + [x], rank, bound) == ByRank(xs, rank, bound)
    decreases bound
  {
    if bound > 0 {
      var r: nat := bound - 1;
      OfRankAppends(xs, x, rank, r);
      LowerRanksIgnore(xs, x, rank, r);
    }
  }

  lemma InsertBeforeLower<T>(xs: seq<T>, x: T, rank: T -> nat, bound: nat)
    requires rank(x) == bound
    ensures Insert(x, rank, ByRank(xs, rank, bound)) == [x] + ByRank(xs, rank, bound)
  {
    ByRankHasRank(xs, rank, bound);
  }

  lemma InsertPastRank<T>(xs: seq<T>, x: T, rank: T -> nat, r: nat)
    requires rank(x) <= r
    ensures Insert(x, rank, ByRank(xs, rank, r + 1)) == OfRank(xs, rank, r) + Insert(x, rank, ByRank(xs, rank, r))
  {
    OfRankHasRank(xs, rank, r);
    InsertPasses(x, rank, OfRank(xs, rank, r), ByRank(xs, rank, r));
  }

  lemma IntoOwnRank<T>(xs: seq<T>, x: T, rank: T -> nat, r: nat)
    requires rank(x) == r
    ensures OfRank(xs, rank, r) + Insert(x, rank, ByRank(xs, rank, r)) ==
            OfRank(xs + [x], rank, r) + ByRank(xs + [x], rank, r)
  {
    assert Insert(x, rank, ByRank(xs, rank, r)) == [x] + ByRank(xs, rank, r) by { InsertBeforeLower(xs, x, rank, r); }
    assert ByRank(xs + [x], rank, r) == ByRank(xs, rank, r) by { LowerRanksIgnore(xs, x, rank, r); }
    assert OfRank(xs + [x], rank, r) == OfRank(xs, rank, r) + [x] by { OfRankAppends(xs, x, rank, r); }
    Reassociate(OfRank(xs, rank, r), [x], ByRank(xs, rank, r));
  }

  lemma IntoLowerRank<T>(xs: seq<T>, x: T, rank: T -> nat, r: nat, inserted: seq<T>)
    requires rank(x) < r && inserted == ByRank(xs + [x], rank, r)
    ensures OfRank(xs, rank, r) + inserted == ByRank(xs + [x], rank, r + 1)
  {
    OfRankAppends(xs, x, rank, r);
  }

  /** Inserting goes to the end of its own rank. */
  lemma {:induction false} InsertIntoRanks<T>(
    xs: seq<T>, x: T, rank: T -> nat, bound: nat, sorted: seq<T>, inserted: seq<T>)
    requires rank(x) < bound && sorted == ByRank(xs, rank, bound) && inserted == Insert(x, rank, sorted)
    ensures inserted == ByRank(xs + [x], rank, bound)
    decreases bound
  {
    var r: nat := bound - 1;
    var lower := ByRank(xs, rank, r);
    var below := Insert(x, rank, lower);
    assert inserted == OfRank(xs, rank, r) + below by { InsertPastRank(xs, x, rank, r); }
    if rank(x) == r {
      IntoOwnRank(xs, x, rank, r);
    } else {
      InsertIntoRanks(xs, x, rank, r, lower, below);
      IntoLowerRank(xs, x, rank, r, below);
    }
  }

  lemma Reassociate<T>(a: seq<T>, b: seq<T>, c: seq<T>)
    ensures a + (b + c) == (a + b) + c
  {
  }

  /** The sorted queue is every rank in turn, each in the order asked. */
  lemma {:induction false} SortIsStable<T>(xs: seq<T>, rank: T -> nat, bound: nat)
    requires forall x | x in xs :: rank(x) < bound
    ensures LongestFirst(xs, rank) == ByRank(xs, rank, bound)
    decreases |xs|
  {
    if xs == [] {
      NothingByRank<T>(rank, bound);
    } else {
      var init, x := xs[..|xs| - 1], xs[|xs| - 1];
      assert init + [x] == xs;
      SortIsStable(init, rank, bound);
      InsertIntoRanks(init, x, rank, bound, LongestFirst(init, rank), LongestFirst(xs, rank));
    }
  }

  lemma {:induction false} NothingByRank<T>(rank: T -> nat, bound: nat)
    ensures ByRank<T>([], rank, bound) == []
    decreases bound
  {
    if bound > 0 {
      NothingByRank<T>(rank, bound - 1);
    }
  }

  lemma {:induction false} InsertKeeps<T>(x: T, rank: T -> nat, sorted: seq<T>)
    ensures multiset(Insert(x, rank, sorted)) == multiset(sorted) + multiset{x}
    decreases |sorted|
  {
    if sorted != [] {
      assert sorted == [sorted[0]] + sorted[1..];
      InsertKeeps(x, rank, sorted[1..]);
    }
  }

  lemma {:induction false} SortKeeps<T>(xs: seq<T>, rank: T -> nat)
    ensures multiset(LongestFirst(xs, rank)) == multiset(xs)
    decreases |xs|
  {
    if xs != [] {
      assert xs == xs[..|xs| - 1] + [xs[|xs| - 1]];
      SortKeeps(xs[..|xs| - 1], rank);
      InsertKeeps(xs[|xs| - 1], rank, LongestFirst(xs[..|xs| - 1], rank));
    }
  }

  function Known(schedules: seq<Option<Schedule>>): seq<Duration> {
    if schedules == [] then []
    else
      var s := schedules[|schedules| - 1];
      Known(schedules[..|schedules| - 1]) +
      if s.Some? && s.value.duration != Unknown then [s.value.duration] else []
  }

  /** The longest duration among the classes, short when none say. */
  function DurationOf(schedules: seq<Option<Schedule>>): Duration {
    var sorted := LongestFirst(Known(schedules), Rank);
    if sorted == [] then Short else sorted[0]
  }

  lemma {:induction false} KnownHolds(schedules: seq<Option<Schedule>>, d: Duration)
    ensures d in Known(schedules) <==> d != Unknown && exists s | s in schedules :: s.Some? && s.value.duration == d
    decreases |schedules|
  {
    if schedules != [] {
      var s := schedules[|schedules| - 1];
      KnownHolds(schedules[..|schedules| - 1], d);
      assert schedules == schedules[..|schedules| - 1] + [s];
    }
  }

  lemma {:induction false} HeadIsLongest<T>(xs: seq<T>, rank: T -> nat, top: nat)
    requires xs != [] && forall x | x in xs :: rank(x) <= top
    ensures LongestFirst(xs, rank) != [] && forall x | x in xs :: rank(x) <= rank(LongestFirst(xs, rank)[0])
    ensures LongestFirst(xs, rank)[0] in xs
    decreases |xs|
  {
    var init, x, before := xs[..|xs| - 1], xs[|xs| - 1], LongestFirst(xs[..|xs| - 1], rank);
    assert xs == init + [x];
    if init != [] {
      HeadIsLongest(init, rank, top);
    }
  }

  /** A unit takes as long as its longest class. */
  lemma DurationIsLongest(schedules: seq<Option<Schedule>>)
    ensures forall s | s in schedules && s.Some? && s.value.duration != Unknown ::
              Rank(s.value.duration) <= Rank(DurationOf(schedules))
    ensures DurationOf(schedules) == Short || DurationOf(schedules) in Known(schedules)
  {
    var known := Known(schedules);
    if known != [] {
      HeadIsLongest(known, Rank, 3);
    }
    forall s | s in schedules && s.Some? && s.value.duration != Unknown
      ensures Rank(s.value.duration) <= Rank(DurationOf(schedules))
    {
      KnownHolds(schedules, s.value.duration);
    }
  }

  function Filter(units: seq<Run>, harmless: bool): seq<Run> {
    if units == [] then []
    else
      Filter(units[..|units| - 1], harmless) +
      if units[|units| - 1].harmless == harmless then [units[|units| - 1]] else []
  }

  function UnitRank(): Run -> nat { (u: Run) => Rank(u.duration) }

  function Parallel(units: seq<Run>): seq<Run> { LongestFirst(Filter(units, true), UnitRank()) }

  function Serial(units: seq<Run>): seq<Run> { LongestFirst(Filter(units, false), UnitRank()) }

  lemma {:induction false} FilterParts(units: seq<Run>)
    ensures multiset(Filter(units, true)) + multiset(Filter(units, false)) == multiset(units)
    ensures forall h | h in Filter(units, true) :: h.harmless
    ensures forall d | d in Filter(units, false) :: !d.harmless
    decreases |units|
  {
    if units != [] {
      FilterParts(units[..|units| - 1]);
      assert units == units[..|units| - 1] + [units[|units| - 1]];
    }
  }

  /** The two queues together are the units asked for, each in its queue. */
  lemma ScheduleKeepsUnits(units: seq<Run>)
    ensures multiset(Parallel(units) + Serial(units)) == multiset(units)
    ensures forall u | u in Parallel(units) :: u.harmless
    ensures forall u | u in Serial(units) :: !u.harmless
  {
    FilterParts(units);
    SortKeeps(Filter(units, true), UnitRank());
    SortKeeps(Filter(units, false), UnitRank());
    forall u | u in Parallel(units) ensures u.harmless {
      assert u in multiset(Parallel(units));
    }
    forall u | u in Serial(units) ensures !u.harmless {
      assert u in multiset(Serial(units));
    }
  }

  /** Some class of the unit declares it. */
  ghost predicate Says(schedules: seq<Option<Schedule>>, d: Duration) {
    exists s | s in schedules :: s.Some? && s.value.duration == d
  }

  /** A unit is long when one of its classes is, else medium when one is, else short. */
  lemma DurationIs(schedules: seq<Option<Schedule>>)
    ensures DurationOf(schedules) ==
            if Says(schedules, Long) then Long else if Says(schedules, Medium) then Medium else Short
  {
    DurationIsLongest(schedules);
    KnownHolds(schedules, Long);
    KnownHolds(schedules, Medium);
    KnownHolds(schedules, Unknown);
  }

  /** The units of one queue that last so long, in the order asked. */
  function Lasting(units: seq<Run>, harmless: bool, ds: set<Duration>): seq<Run> {
    if units == [] then []
    else
      Lasting(units[..|units| - 1], harmless, ds) +
      var u := units[|units| - 1];
      if u.harmless == harmless && u.duration in ds then [u] else []
  }

  lemma {:induction false} LastingIsRank(units: seq<Run>, harmless: bool, ds: set<Duration>, r: nat)
    requires forall d: Duration :: Rank(d) == r <==> d in ds
    ensures OfRank(Filter(units, harmless), UnitRank(), r) == Lasting(units, harmless, ds)
    decreases |units|
  {
    if units != [] {
      var init, u := units[..|units| - 1], units[|units| - 1];
      LastingIsRank(init, harmless, ds, r);
      if u.harmless == harmless {
        assert Filter(units, harmless)[..|Filter(units, harmless)| - 1] == Filter(init, harmless);
        assert UnitRank()(u) == r <==> u.duration in ds;
      } else {
        assert Filter(units, harmless) == Filter(init, harmless);
      }
    }
  }

  lemma ThreeRanks<T>(xs: seq<T>, rank: T -> nat)
    requires OfRank(xs, rank, 0) == []
    ensures ByRank(xs, rank, 4) == OfRank(xs, rank, 3) + OfRank(xs, rank, 2) + OfRank(xs, rank, 1)
  {
    var b0, b1, b2, b3 := ByRank(xs, rank, 0), ByRank(xs, rank, 1), ByRank(xs, rank, 2), ByRank(xs, rank, 3);
    assert b0 == [] && b1 == OfRank(xs, rank, 0) + b0;
    assert b2 == OfRank(xs, rank, 1) + b1;
    assert b3 == OfRank(xs, rank, 2) + b2;
    Reassociate(OfRank(xs, rank, 3), OfRank(xs, rank, 2), b2);
  }

  /** Each queue holds the long units, then the medium ones, then the others, all in the order asked. */
  lemma LongThenMediumThenRest(units: seq<Run>, harmless: bool)
    ensures (if harmless then Parallel(units) else Serial(units)) ==
            Lasting(units, harmless, {Long}) + Lasting(units, harmless, {Medium})
            + Lasting(units, harmless, {Short, Unknown})
  {
    var mine := Filter(units, harmless);
    assert LongestFirst(mine, UnitRank()) == ByRank(mine, UnitRank(), 4) by { SortIsStable(mine, UnitRank(), 4); }
    assert OfRank(mine, UnitRank(), 3) == Lasting(units, harmless, {Long}) by {
      LastingIsRank(units, harmless, {Long}, 3);
    }
    assert OfRank(mine, UnitRank(), 2) == Lasting(units, harmless, {Medium}) by {
      LastingIsRank(units, harmless, {Medium}, 2);
    }
    assert OfRank(mine, UnitRank(), 1) == Lasting(units, harmless, {Short, Unknown}) by {
      LastingIsRank(units, harmless, {Short, Unknown}, 1);
    }
    assert OfRank(mine, UnitRank(), 0) == [] by {
      LastingIsRank(units, harmless, {}, 0);
      NothingLasts(units, harmless);
    }
    ThreeRanks(mine, UnitRank());
  }

  lemma {:induction false} NothingLasts(units: seq<Run>, harmless: bool)
    ensures Lasting(units, harmless, {}) == []
    decreases |units|
  {
    if units != [] {
      NothingLasts(units[..|units| - 1], harmless);
    }
  }

  /** One object's unit, from the schedules of the classes it runs. */
  function UnitOf(id: nat, classes: seq<Option<Schedule>>): Run {
    Run(id, IsHarmless(classes), DurationOf(classes))
  }

  function UnitsOf(asked: seq<seq<Option<Schedule>>>): seq<Run> {
    seq(|asked|, id requires 0 <= id < |asked| => UnitOf(id, asked[id]))
  }

  ghost predicate AllHarmless(classes: seq<Option<Schedule>>) {
    classes != [] && forall s | s in classes :: s.Some? && s.value.harmless
  }

  /** A unit may share its time with others exactly when it runs some class and each class it runs
      is scheduled harmless; one class that nobody could tell about is enough to keep it alone. */
  lemma QueueIsByClasses(asked: seq<seq<Option<Schedule>>>, u: Run)
    ensures u in Parallel(UnitsOf(asked)) <==>
            u.id < |asked| && u == UnitOf(u.id, asked[u.id]) && AllHarmless(asked[u.id])
    ensures u in Serial(UnitsOf(asked)) <==>
            u.id < |asked| && u == UnitOf(u.id, asked[u.id]) && !AllHarmless(asked[u.id])
  {
    var units := UnitsOf(asked);
    ScheduleKeepsUnits(units);
    assert u in units <==> u in multiset(Parallel(units) + Serial(units));
    assert u in units <==> u.id < |asked| && u == UnitOf(u.id, asked[u.id]) by {
      if u.id < |asked| { assert units[u.id] == UnitOf(u.id, asked[u.id]); }
    }
  }

  // ---- The queue

  datatype Worker = Ready | Running(i: nat) | Ended

  /** The function that waits for the workers and then runs the rest. */
  datatype Stage = Joining | SerialReady(i: nat) | SerialRunning(i: nat) | Finished

  datatype State = State(
    parallel: seq<Run>, serial: seq<Run>, workers: seq<Worker>, next: nat, stage: Stage,
    cancelled: bool, started: seq<Run>)

  /** From one await to the next. */
  datatype Step = Turn(k: nat) | Settle(k: nat) | Join | SerialTurn | SerialSettle | Cancel

  function Max(a: int, b: int): int { if a < b then b else a }

  function PoolOf(poolSize: int, n: nat): nat { Max(1, if poolSize < n then poolSize else n) }

  function Start(units: seq<Run>, poolSize: int, cancelled: bool): State {
    var pool := seq(PoolOf(poolSize, |Parallel(units)|), _ => Ready);
    State(Parallel(units), Serial(units), pool, 0, Joining, cancelled, [])
  }

  predicate AllEnded(workers: seq<Worker>) { forall w | w in workers :: w == Ended }

  predicate Enabled(s: State, step: Step) {
    match step
    case Turn(k) => k < |s.workers| && s.workers[k] == Ready
    case Settle(k) => k < |s.workers| && s.workers[k].Running?
    case Join => s.stage == Joining && AllEnded(s.workers)
    case SerialTurn => s.stage.SerialReady?
    case SerialSettle => s.stage.SerialRunning?
    case Cancel => !s.cancelled
  }

  function Apply(s: State, step: Step): State {
    match step
    case Turn(k) =>
      if k >= |s.workers| then s
      else if s.next < |s.parallel| && !s.cancelled then
        s.(workers := s.workers[k := Running(s.next)], next := s.next + 1, started := s.started + [s.parallel[s.next]])
      else s.(workers := s.workers[k := Ended])
    case Settle(k) => if k < |s.workers| then s.(workers := s.workers[k := Ready]) else s
    case Join => s.(stage := SerialReady(0))
    case SerialTurn =>
      if !s.stage.SerialReady? then s
      else if s.stage.i < |s.serial| && !s.cancelled then
        s.(stage := SerialRunning(s.stage.i), started := s.started + [s.serial[s.stage.i]])
      else s.(stage := Finished)
    case SerialSettle => if s.stage.SerialRunning? then s.(stage := SerialReady(s.stage.i + 1)) else s
    case Cancel => s.(cancelled := true)
  }

  /** How many units of the serial queue have been started. */
  function SerialStarted(s: State): nat {
    match s.stage
    case Joining => 0
    case SerialReady(i) => i
    case SerialRunning(i) => i + 1
    case Finished => if |s.started| >= s.next then |s.started| - s.next else 0
  }

  ghost predicate Inv(s: State) {
    && s.next <= |s.parallel| && SerialStarted(s) <= |s.serial|
    && s.started == s.parallel[..s.next] + s.serial[..SerialStarted(s)]
    && (s.stage != Joining ==> AllEnded(s.workers))
    && |s.workers| >= 1
    && (!s.cancelled ==> (Ended in s.workers ==> s.next == |s.parallel|))
    && (!s.cancelled && s.stage == Finished ==> SerialStarted(s) == |s.serial|)
    && (forall k | 0 <= k < |s.workers| && s.workers[k].Running? :: s.workers[k].i < s.next)
    && (forall j, k | 0 <= j < k < |s.workers| && s.workers[j].Running? :: s.workers[j] != s.workers[k])
  }

  lemma StartsOk(units: seq<Run>, poolSize: int, cancelled: bool)
    ensures Inv(Start(units, poolSize, cancelled))
  {
  }

  lemma TurnKeepsInv(s: State, k: nat)
    requires Inv(s) && Enabled(s, Turn(k))
    ensures Inv(Apply(s, Turn(k)))
  {
    var t := Apply(s, Turn(k));
    assert s.workers[k] in s.workers;
    assert s.stage == Joining;
    if s.next < |s.parallel| && !s.cancelled {
      assert t.parallel[..t.next] == s.parallel[..s.next] + [s.parallel[s.next]];
      assert t.started == t.parallel[..t.next] + t.serial[..0];
      forall w | w in t.workers ensures w == Ended ==> w in s.workers {
      }
    }
  }

  lemma SerialTurnKeepsInv(s: State)
    requires Inv(s) && Enabled(s, SerialTurn)
    ensures Inv(Apply(s, SerialTurn))
  {
    var t := Apply(s, SerialTurn);
    if t.stage.SerialRunning? {
      var i := s.stage.i;
      assert s.serial[..i + 1] == s.serial[..i] + [s.serial[i]];
      assert t.started == s.parallel[..s.next] + (s.serial[..i] + [s.serial[i]]);
    }
  }

  lemma StepKeepsInv(s: State, step: Step)
    requires Inv(s) && Enabled(s, step)
    ensures Inv(Apply(s, step))
  {
    match step
    case Turn(k) => TurnKeepsInv(s, k);
    case Settle(k) => SettleKeepsInv(s, k);
    case SerialTurn => SerialTurnKeepsInv(s);
    case _ =>
  }

  lemma SettleKeepsInv(s: State, k: nat)
    requires Inv(s) && Enabled(s, Settle(k))
    ensures Inv(Apply(s, Settle(k)))
  {
    assert s.workers[k] in s.workers;
    forall w | w in Apply(s, Settle(k)).workers ensures w == Ended ==> w in s.workers {
    }
  }

  // ---- Runs

  ghost predicate Trace(s: State, steps: seq<Step>)
    decreases |steps|
  {
    steps == [] || (Enabled(s, steps[0]) && Trace(Apply(s, steps[0]), steps[1..]))
  }

  function After(s: State, steps: seq<Step>): State
    decreases |steps|
  {
    if steps == [] then s else After(Apply(s, steps[0]), steps[1..])
  }

  lemma {:induction false} TraceKeeps(s: State, steps: seq<Step>)
    requires Inv(s) && Trace(s, steps)
    ensures var t := After(s, steps);
            Inv(t) && t.parallel == s.parallel && t.serial == s.serial && |t.workers| == |s.workers|
    decreases |steps|
  {
    if steps != [] {
      StepKeepsInv(s, steps[0]);
      TraceKeeps(Apply(s, steps[0]), steps[1..]);
    }
  }

  function RunningCount(workers: seq<Worker>): nat {
    if workers == [] then 0 else RunningCount(workers[1..]) + if workers[0].Running? then 1 else 0
  }

  lemma {:induction false} CountBound(workers: seq<Worker>)
    ensures RunningCount(workers) <= |workers|
    ensures AllEnded(workers) ==> RunningCount(workers) == 0
    decreases |workers|
  {
    if workers != [] {
      CountBound(workers[1..]);
      assert workers[0] in workers && forall w | w in workers[1..] :: w in workers;
    }
  }

  /** Whatever the order of completions and cancellation: at most `max(1, poolSize)` harmless units
      run at once; a unit of the serial queue runs alone; units start in the order of the two
      queues, so harmless before others, longest first, and none twice. */
  lemma AnyRunKeepsTheOrder(units: seq<Run>, poolSize: int, cancelled: bool, steps: seq<Step>)
    requires Trace(Start(units, poolSize, cancelled), steps)
    ensures var t := After(Start(units, poolSize, cancelled), steps);
            && RunningCount(t.workers) <= Max(1, poolSize)
            && (t.stage.SerialRunning? ==> RunningCount(t.workers) == 0)
            && t.next <= |Parallel(units)| && SerialStarted(t) <= |Serial(units)|
            && t.started == Parallel(units)[..t.next] + Serial(units)[..SerialStarted(t)]
            && (SerialStarted(t) > 0 ==> AllEnded(t.workers))
  {
    var s := Start(units, poolSize, cancelled);
    StartsOk(units, poolSize, cancelled);
    TraceKeeps(s, steps);
    CountBound(After(s, steps).workers);
  }

  lemma {:induction false} AllRunning(workers: seq<Worker>)
    requires forall w | w in workers :: w.Running?
    ensures RunningCount(workers) == |workers|
    decreases |workers|
  {
    if workers != [] {
      AllRunning(workers[1..]);
      assert workers[0] in workers && forall w | w in workers[1..] :: w in workers;
    }
  }

  /** The pool stays full: while harmless units wait, uncancelled, and no worker is about to take the
      next, as many of them run as the pool allows. */
  lemma PoolStaysFull(units: seq<Run>, poolSize: int, cancelled: bool, steps: seq<Step>)
    requires Trace(Start(units, poolSize, cancelled), steps)
    ensures var t, n := After(Start(units, poolSize, cancelled), steps), |Parallel(units)|;
            !t.cancelled && t.next < n && Ready !in t.workers ==>
              RunningCount(t.workers) == if poolSize < 1 then 1 else if poolSize < n then poolSize else n
  {
    var s := Start(units, poolSize, cancelled);
    var t := After(s, steps);
    StartsOk(units, poolSize, cancelled);
    TraceKeeps(s, steps);
    if !t.cancelled && t.next < |Parallel(units)| && Ready !in t.workers {
      assert forall w | w in t.workers :: w == Ready || w.Running? || w == Ended;
      AllRunning(t.workers);
    }
  }

  /** At any moment of a run, what a worker runs has harmless classes only. */
  lemma SharedTimeIsHarmless(asked: seq<seq<Option<Schedule>>>, poolSize: int, cancelled: bool, steps: seq<Step>)
    requires Trace(Start(UnitsOf(asked), poolSize, cancelled), steps)
    ensures var t := After(Start(UnitsOf(asked), poolSize, cancelled), steps);
            forall w | w in t.workers && w.Running? ::
              && w.i < |t.parallel| && t.parallel[w.i].id < |asked|
              && AllHarmless(asked[t.parallel[w.i].id])
  {
    var t := After(Start(UnitsOf(asked), poolSize, cancelled), steps);
    StartsOk(UnitsOf(asked), poolSize, cancelled);
    TraceKeeps(Start(UnitsOf(asked), poolSize, cancelled), steps);
    forall w | w in t.workers && w.Running?
      ensures w.i < |t.parallel| && t.parallel[w.i].id < |asked| && AllHarmless(asked[t.parallel[w.i].id])
    {
      QueueIsByClasses(asked, t.parallel[w.i]);
    }
  }

  /** Nothing starts once it is cancelled. */
  lemma {:induction false} NothingStartsAfterCancel(s: State, steps: seq<Step>)
    requires s.cancelled && Trace(s, steps)
    ensures After(s, steps).started == s.started && After(s, steps).cancelled
    decreases |steps|
  {
    if steps != [] {
      NothingStartsAfterCancel(Apply(s, steps[0]), steps[1..]);
    }
  }

  /** A queue that finishes without being cancelled has started every unit exactly once. */
  lemma FinishedMeansEachOnce(units: seq<Run>, poolSize: int, steps: seq<Step>)
    requires Trace(Start(units, poolSize, false), steps)
    ensures var t := After(Start(units, poolSize, false), steps);
            t.stage == Finished && !t.cancelled ==>
              t.started == Parallel(units) + Serial(units) && multiset(t.started) == multiset(units)
  {
    var t := After(Start(units, poolSize, false), steps);
    StartsOk(units, poolSize, false);
    TraceKeeps(Start(units, poolSize, false), steps);
    ScheduleKeepsUnits(units);
    if t.stage == Finished && !t.cancelled {
      assert Ended in t.workers by { assert t.workers[0] in t.workers; }
      assert t.parallel[..t.next] == t.parallel && t.serial[..SerialStarted(t)] == t.serial;
    }
  }

  // ---- It gets to the end

  function Turns(workers: seq<Worker>): nat {
    if workers == [] then 0
    else Turns(workers[1..]) + match workers[0] case Ready => 1 case Running(_) => 2 case Ended => 0
  }

  function StageLeft(s: State): nat {
    var n := |s.serial|;
    match s.stage
    case Joining => 2 * n + 2
    case SerialReady(i) => if i <= n then 2 * (n - i) + 1 else 1
    case SerialRunning(i) => if i < n then 2 * (n - i) else 1
    case Finished => 0
  }

  /** Steps still to come. */
  function Left(s: State): nat {
    2 * (if s.next <= |s.parallel| then |s.parallel| - s.next else 0) + Turns(s.workers) + StageLeft(s) +
    if s.cancelled then 0 else 1
  }

  lemma {:induction false} TurnsUpdate(workers: seq<Worker>, k: nat, w: Worker)
    requires k < |workers|
    ensures Turns(workers[k := w]) + Turns([workers[k]]) == Turns(workers) + Turns([w])
    decreases |workers|
  {
    if k == 0 {
      assert workers[k := w] == [w] + workers[1..];
      assert workers == [workers[0]] + workers[1..];
    } else {
      assert workers[k := w][1..] == workers[1..][k - 1 := w];
      TurnsUpdate(workers[1..], k - 1, w);
    }
  }

  /** Every step brings the end nearer. */
  lemma StepsRunOut(s: State, step: Step)
    requires Inv(s) && Enabled(s, step)
    ensures Left(Apply(s, step)) < Left(s)
  {
    match step
    case Turn(k) =>
      TurnsUpdate(s.workers, k, Running(s.next));
      TurnsUpdate(s.workers, k, Ended);
    case Settle(k) => TurnsUpdate(s.workers, k, Ready);
    case _ =>
  }

  /** Until it has finished some step can be taken that does not wait for a cancellation. */
  lemma NeverStuck(s: State)
    requires Inv(s) && s.stage != Finished
    ensures exists step: Step :: step != Cancel && Enabled(s, step)
  {
    if s.stage.SerialReady? {
      assert Enabled(s, SerialTurn);
    } else if s.stage.SerialRunning? {
      assert Enabled(s, SerialSettle);
    } else if AllEnded(s.workers) {
      assert Enabled(s, Join);
    } else {
      var w :| w in s.workers && w != Ended;
      var k :| 0 <= k < |s.workers| && s.workers[k] == w;
      assert Enabled(s, if w == Ready then Turn(k) else Settle(k));
    }
  }

  /** So a run is no longer than this, and one that cannot go on has finished. */
  lemma {:induction false} EveryRunEnds(s: State, steps: seq<Step>)
    requires Inv(s) && Trace(s, steps)
    ensures |steps| + Left(After(s, steps)) <= Left(s)
    ensures (forall step: Step :: step != Cancel ==> !Enabled(After(s, steps), step)) ==>
              After(s, steps).stage == Finished
    decreases |steps|
  {
    if steps != [] {
      StepsRunOut(s, steps[0]);
      StepKeepsInv(s, steps[0]);
      EveryRunEnds(Apply(s, steps[0]), steps[1..]);
    } else if s.stage != Finished {
      NeverStuck(s);
    }
  }

  // ---- The program

  class Queue {
    const parallel: seq<Run>
    const serial: seq<Run>
    var next: nat
    var workers: seq<Worker>
    var stage: Stage
    var cancelled: bool
    ghost var started: seq<Run>

    ghost function Abs(): State
      reads this
    {
      State(parallel, serial, workers, next, stage, cancelled, started)
    }

    constructor (units: seq<Run>, poolSize: int, isCancelled: bool)
      ensures Abs() == Start(units, poolSize, isCancelled)
    {
      parallel, serial := Parallel(units), Serial(units);
      next, stage, cancelled, started := 0, Joining, isCancelled, [];
      workers := seq(PoolOf(poolSize, |Parallel(units)|), _ => Ready);
    }

    /** A worker at the head of its loop: it takes the next unit up to the await, or ends. */
    method WorkerTurn(k: nat) returns (unit: Option<Run>)
      requires Enabled(Abs(), Turn(k))
      modifies this
      ensures Abs() == Apply(old(Abs()), Turn(k))
      ensures unit.Some? <==> old(next) < |parallel| && !cancelled
      ensures unit.Some? ==> started == old(started) + [unit.value]
    {
      if next < |parallel| && !cancelled {
        unit := Some(parallel[next]);
        started := started + [parallel[next]];
        workers := workers[k := Running(next)];
        next := next + 1;
      } else {
        unit := None;
        workers := workers[k := Ended];
      }
    }

    method WorkerSettled(k: nat)
      requires Enabled(Abs(), Settle(k))
      modifies this`workers
      ensures Abs() == Apply(old(Abs()), Settle(k))
    {
      workers := workers[k := Ready];
    }

    method Joined()
      requires Enabled(Abs(), Join)
      modifies this`stage
      ensures Abs() == Apply(old(Abs()), Join)
    {
      stage := SerialReady(0);
    }

    method NextSerial() returns (unit: Option<Run>)
      requires Enabled(Abs(), SerialTurn)
      modifies this
      ensures Abs() == Apply(old(Abs()), SerialTurn)
      ensures unit.Some? ==> started == old(started) + [unit.value]
    {
      var i := stage.i;
      if i >= |serial| || cancelled {
        stage := Finished;
        return None;
      }
      unit := Some(serial[i]);
      started := started + [serial[i]];
      stage := SerialRunning(i);
    }

    method SerialSettled()
      requires Enabled(Abs(), SerialSettle)
      modifies this`stage
      ensures Abs() == Apply(old(Abs()), SerialSettle)
    {
      stage := SerialReady(stage.i + 1);
    }

    method RequestCancel()
      requires Enabled(Abs(), Cancel)
      modifies this`cancelled
      ensures Abs() == Apply(old(Abs()), Cancel)
    {
      cancelled := true;
    }
  }
}

/** Removal of old working copies (`cleanupOldHomes`) while other windows lock, serve, write
    and crash (`editors/vscode/launcher.js`).

    One old home path is modelled, with any number of cleaners that look at it, any number of
    server starts that lock it, and any number of directory trees that are ever published
    there. A run is a sequence of file-system operations; processes may die between any two.
    The tree digest is taken as injective, so it is identified with the tree's contents. */
module OldHomes {
  import opened Basics

  /** Everything `seedContentId` covers, and the three launcher metadata files. */
  datatype Content = Content(body: nat, meta: nat)

  datatype Place = AtHome | InQuarantine | Removed

  /** The text of a serving lock: just truncated or created, `pid\npending`, `pid\n0` or
      `pid\nchild`. Hosts and server starts are numbered; the child of start `i` is `i`. */
  datatype LockText = Torn | Pending | Pids(host: nat, child: Option<nat>)

  datatype Tree = Tree(place: Place, content: Content, locks: map<nat, LockText>)

  /** A pass of `cleanupOldHomes` over the home. `contentId` is the digest read at the home
      path. `Scanning` reads the locks of the quarantined tree one by one; `copy` is `None`
      before the save decision. */
  datatype CleanerPc =
    | Waiting
    | Looked(contentId: nat)
    | Scanning(tree: nat, contentId: nat, todo: set<nat>, decided: bool, snapshot: Option<Content>)
    | Scanned(tree: nat, contentId: nat, decided: bool, snapshot: Option<Content>)
    | Deciding(tree: nat, contentId: nat)
    | Restoring(tree: nat)

  datatype Cleaner = Cleaner(alive: bool, pc: CleanerPc)

  /** A server start in a window, from `acquireServingLock` to the removal of the lock. */
  datatype ServerPc =
    | Unlocked
    | Marked
    | LockTorn(tree: nat)
    | Locked
    | PendingTorn(tree: nat)
    | PendingWritten(tree: nat)
    | Spawned(tree: nat)
    | RecordTorn(tree: nat)
    | Serving
    | Finished

  datatype Server = Server(host: nat, pc: ServerPc, cwd: Option<nat>)

  datatype State = State(
    seed: Content,
    home: Option<nat>,
    trees: seq<Tree>,
    saved: set<Content>,
    cleaners: seq<Cleaner>,
    servers: seq<Server>,
    hosts: set<nat>,
    children: set<nat>)

  /** What a cleaner does next. The digests it reads and the comparison of marker, seed id and
      digest are answers that other processes may overtake, so they are parameters. */
  datatype CleanerOp =
    | Look(digest: nat)
    | Quarantine
    | ScanLock(i: nat, live: bool)
    | EndScan
    | Compare(digest: nat, same: bool)
    | SkipSave
    | Save(copy: Option<Content>)
    | Finish
    | Restore
    | CleanerDies

  datatype ServerOp =
    | CheckMarker
    | CreateLock
    | WriteLock
    | OpenPending
    | WritePending
    | Spawn
    | OpenRecord
    | WriteRecord
    | Unlock
    | ChildDies

  datatype Step =
    | Publish(content: Content)
    | Write(tree: nat, content: Content)
    | HostDies(host: nat)
    | Clean(c: nat, cop: CleanerOp)
    | Serve(i: nat, sop: ServerOp)

  /** `hasLiveServingLock` on one lock file: a text that is not two pids counts as live. */
  predicate Live(s: State, text: LockText) {
    match text
    case Torn => true
    case Pending => true
    case Pids(host, child) => host in s.hosts || (child.Some? && child.value in s.children)
  }

  /** `hasLiveServingLock` on a whole tree. */
  predicate HasLiveLock(s: State, tree: Tree) {
    exists i | i in tree.locks :: Live(s, tree.locks[i])
  }

  predicate EnabledCleaner(s: State, c: nat, op: CleanerOp) {
    && c < |s.cleaners| && s.cleaners[c].alive
    && var pc := s.cleaners[c].pc;
    match op
    // the checks at the home path; the digest may be of a tree that is being written
    case Look(_) => pc.Waiting? && s.home.Some?
    case Quarantine => pc.Looked?
    // a lock is found dead only when every process it names is gone
    case ScanLock(i, live) =>
      && pc.Scanning? && pc.tree < |s.trees| && i in pc.todo && i in s.trees[pc.tree].locks
      && (!live ==> !Live(s, s.trees[pc.tree].locks[i]))
    case EndScan => pc.Scanning? && pc.todo == {}
    case Compare(digest, same) => pc.Scanned? && !pc.decided && (same ==> digest == pc.contentId)
    case SkipSave => pc.Deciding? && pc.contentId == s.seed.body && pc.tree < |s.trees|
    case Save(_) => pc.Deciding? && pc.tree < |s.trees|
    case Finish => pc.Scanned? && pc.decided && pc.tree < |s.trees|
    case Restore => pc.Restoring? && pc.tree < |s.trees|
    case CleanerDies => true
  }

  predicate EnabledServer(s: State, i: nat, op: ServerOp) {
    && i < |s.servers|
    && (op.ChildDies? || s.servers[i].host in s.hosts)
    && var pc := s.servers[i].pc;
    match op
    case CheckMarker => pc.Unlocked?
    case CreateLock => pc.Marked?
    case WriteLock => pc.LockTorn? && pc.tree < |s.trees|
    case OpenPending => pc.Locked?
    case WritePending => pc.PendingTorn? && pc.tree < |s.trees|
    case Spawn => pc.PendingWritten?
    case OpenRecord => pc.Spawned?
    case WriteRecord => pc.RecordTorn? && pc.tree < |s.trees|
    // the state becomes "stopped" only when there is no child left
    case Unlock => (pc.Locked? || pc.Serving?) && i !in s.children
    case ChildDies => i in s.children
  }

  predicate Enabled(s: State, step: Step) {
    match step
    case Publish(_) => s.home.None?
    case Write(t, _) => t < |s.trees| && !s.trees[t].place.Removed?
    case HostDies(h) => h in s.hosts
    case Clean(c, op) => EnabledCleaner(s, c, op)
    case Serve(i, op) => EnabledServer(s, i, op)
  }

  function GotoCleaner(s: State, c: nat, pc: CleanerPc): State
    requires c < |s.cleaners|
  {
    s.(cleaners := s.cleaners[c := s.cleaners[c].(pc := pc)])
  }

  function GotoServer(s: State, i: nat, pc: ServerPc): State
    requires i < |s.servers|
  {
    s.(servers := s.servers[i := s.servers[i].(pc := pc)])
  }

  function SetPlace(s: State, t: nat, place: Place): State
    requires t < |s.trees|
  {
    s.(trees := s.trees[t := s.trees[t].(place := place)])
  }

  function SetLock(s: State, t: nat, i: nat, text: LockText): State
    requires t < |s.trees|
  {
    s.(trees := s.trees[t := s.trees[t].(locks := s.trees[t].locks[i := text])])
  }

  /** Writing through an open descriptor: the file keeps its tree, wherever that is. */
  function FillLock(s: State, t: nat, i: nat, text: LockText): State
    requires t < |s.trees|
  {
    if i in s.trees[t].locks then SetLock(s, t, i, text) else s
  }

  function ApplyCleaner(s: State, c: nat, op: CleanerOp): State
    requires EnabledCleaner(s, c, op)
  {
    var pc := s.cleaners[c].pc;
    match op
    case Look(digest) => GotoCleaner(s, c, Looked(digest))
    case Quarantine =>
      if s.home.None? || s.home.value >= |s.trees| then GotoCleaner(s, c, Waiting)
      else
        var t := s.home.value;
        GotoCleaner(SetPlace(s, t, InQuarantine), c, Scanning(t, pc.contentId, s.trees[t].locks.Keys, false, None))
        .(home := None)
    case ScanLock(i, live) =>
      GotoCleaner(s, c, if live then Restoring(pc.tree)
                        else Scanning(pc.tree, pc.contentId, pc.todo - {i}, pc.decided, pc.snapshot))
    case EndScan => GotoCleaner(s, c, Scanned(pc.tree, pc.contentId, pc.decided, pc.snapshot))
    case Compare(_, same) =>
      GotoCleaner(s, c, if same then Deciding(pc.tree, pc.contentId) else Restoring(pc.tree))
    case SkipSave =>
      GotoCleaner(s, c, Scanning(pc.tree, pc.contentId, s.trees[pc.tree].locks.Keys, true, None))
    // the copy is made file by file, so it may be of no single moment; it may also fail
    case Save(copy) =>
      if copy.None? then GotoCleaner(s, c, Restoring(pc.tree))
      else
        GotoCleaner(s, c, Scanning(pc.tree, pc.contentId, s.trees[pc.tree].locks.Keys, true, copy))
        .(saved := s.saved + {copy.value})
    // the last comparison and the removal
    case Finish =>
      var expected := if pc.snapshot.None? then s.seed else pc.snapshot.value;
      if s.trees[pc.tree].content == expected then GotoCleaner(SetPlace(s, pc.tree, Removed), c, Waiting)
      else GotoCleaner(s, c, Restoring(pc.tree))
    case Restore =>
      if s.home.None? then GotoCleaner(SetPlace(s, pc.tree, AtHome), c, Waiting).(home := Some(pc.tree))
      else GotoCleaner(s, c, Waiting)
    case CleanerDies => s.(cleaners := s.cleaners[c := s.cleaners[c].(alive := false)])
  }

  /** The lock is opened by its path, so the tree is the one at the home path right then. */
  function ApplyServer(s: State, i: nat, op: ServerOp): State
    requires EnabledServer(s, i, op)
  {
    var me := s.servers[i];
    var atHome := s.home.Some? && s.home.value < |s.trees|;
    match op
    case CheckMarker => GotoServer(s, i, if atHome then Marked else Finished)
    case CreateLock =>
      if atHome then GotoServer(SetLock(s, s.home.value, i, Torn), i, LockTorn(s.home.value))
      else GotoServer(s, i, Finished)
    case WriteLock => GotoServer(FillLock(s, me.pc.tree, i, Pids(me.host, None)), i, Locked)
    case OpenPending =>
      if atHome then GotoServer(SetLock(s, s.home.value, i, Torn), i, PendingTorn(s.home.value))
      else GotoServer(s, i, Finished)
    case WritePending => GotoServer(FillLock(s, me.pc.tree, i, Pending), i, PendingWritten(me.pc.tree))
    case Spawn =>
      if atHome then
        s.(servers := s.servers[i := Server(me.host, Spawned(me.pc.tree), Some(s.home.value))],
           children := s.children + {i})
      else GotoServer(s, i, Finished)
    case OpenRecord =>
      if atHome then GotoServer(SetLock(s, s.home.value, i, Torn), i, RecordTorn(s.home.value))
      // the write failed: the child is being terminated
      else GotoServer(s, i, Serving)
    case WriteRecord => GotoServer(FillLock(s, me.pc.tree, i, Pids(me.host, Some(i))), i, Serving)
    case Unlock =>
      if atHome then
        var t := s.home.value;
        GotoServer(s.(trees := s.trees[t := s.trees[t].(locks := s.trees[t].locks - {i})]), i, Finished)
      else GotoServer(s, i, Finished)
    case ChildDies => s.(children := s.children - {i})
  }

  function Apply(s: State, step: Step): State
    requires Enabled(s, step)
  {
    match step
    case Publish(content) => s.(trees := s.trees + [Tree(AtHome, content, map[])], home := Some(|s.trees|))
    case Write(t, content) => s.(trees := s.trees[t := s.trees[t].(content := content)])
    case HostDies(h) => s.(hosts := s.hosts - {h})
    case Clean(c, op) => ApplyCleaner(s, c, op)
    case Serve(i, op) => ApplyServer(s, i, op)
  }

  // ----- runs -----

  /** Any number of cleaners and server starts, on hosts that are alive, before anything was
      published at the home path. */
  ghost predicate Init(s: State) {
    && s.home.None? && s.trees == [] && s.saved == {} && s.children == {}
    && (forall c | c in s.cleaners :: c.pc.Waiting?)
    && (forall x | x in s.servers :: x.pc.Unlocked? && x.cwd.None?)
  }

  predicate IsRun(s: State, steps: seq<Step>)
    decreases |steps|
  {
    steps == [] || (Enabled(s, steps[0]) && IsRun(Apply(s, steps[0]), steps[1..]))
  }

  function After(s: State, steps: seq<Step>): State
    requires IsRun(s, steps)
    decreases |steps|
  {
    if steps == [] then s else After(Apply(s, steps[0]), steps[1..])
  }

  // ----- what a removal leaves behind -----

  /** A removed tree had no live lock, and its contents are those of the seed or of a
      snapshot that is kept. */
  ghost predicate RemovedIsRecoverable(s: State, t: nat)
    requires t < |s.trees|
  {
    s.trees[t].place.Removed? ==>
      && !HasLiveLock(s, s.trees[t])
      && (s.trees[t].content == s.seed || s.trees[t].content in s.saved)
  }

  ghost predicate RemovalsAreRecoverable(s: State) {
    forall t: nat | t < |s.trees| :: RemovedIsRecoverable(s, t)
  }

  // ----- invariant -----

  predicate HoldsTree(pc: CleanerPc) {
    pc.Scanning? || pc.Scanned? || pc.Deciding? || pc.Restoring?
  }

  ghost predicate PlacesAgree(s: State) {
    && (s.home.Some? ==> s.home.value < |s.trees| && s.trees[s.home.value].place.AtHome?)
    && (forall t: nat | t < |s.trees| && s.trees[t].place.AtHome? :: s.home == Some(t))
  }

  ghost predicate CleanerHolds(s: State, c: nat)
    requires c < |s.cleaners|
  {
    var pc := s.cleaners[c].pc;
    HoldsTree(pc) ==> pc.tree < |s.trees| && s.trees[pc.tree].place.InQuarantine?
  }

  ghost predicate CleanersApart(s: State) {
    forall c: nat, d: nat | c < d < |s.cleaners| && HoldsTree(s.cleaners[c].pc) && HoldsTree(s.cleaners[d].pc) ::
      s.cleaners[c].pc.tree != s.cleaners[d].pc.tree
  }

  /** Only start `i` writes the lock of start `i`, in the order of its program. */
  ghost predicate LockIsOwn(s: State, t: nat, i: nat)
    requires t < |s.trees| && i in s.trees[t].locks
  {
    && i < |s.servers|
    && match s.trees[t].locks[i]
       case Pids(host, child) => host == s.servers[i].host && (child == None || child == Some(i))
       case _ => true
  }

  ghost predicate LocksAreOwn(s: State) {
    forall t: nat, i: nat | t < |s.trees| && i in s.trees[t].locks :: LockIsOwn(s, t, i)
  }

  ghost predicate LockReads(s: State, t: nat, i: nat, text: LockText) {
    t < |s.trees| && i in s.trees[t].locks && s.trees[t].locks[i] == text
  }

  /** A start that has the file open finds it as truncated as it left it. */
  ghost predicate ServerFile(s: State, i: nat)
    requires i < |s.servers|
  {
    match s.servers[i].pc
    case LockTorn(t) => LockReads(s, t, i, Torn)
    case PendingTorn(t) => LockReads(s, t, i, Torn)
    case PendingWritten(t) => LockReads(s, t, i, Pending)
    case RecordTorn(t) => LockReads(s, t, i, Torn)
    case _ => true
  }

  /** What the scans have established. */
  ghost predicate CleanerKnows(s: State, c: nat)
    requires c < |s.cleaners|
  {
    var pc := s.cleaners[c].pc;
    && CleanerHolds(s, c)
    && (pc.Scanning? ==> forall i | i in s.trees[pc.tree].locks && i !in pc.todo :: !Live(s, s.trees[pc.tree].locks[i]))
    && (pc.Scanned? ==> forall i | i in s.trees[pc.tree].locks :: !Live(s, s.trees[pc.tree].locks[i]))
    && ((pc.Scanning? || pc.Scanned?) && pc.snapshot.Some? ==> pc.snapshot.value in s.saved)
  }

  ghost predicate Inv(s: State) {
    && PlacesAgree(s) && CleanersApart(s) && LocksAreOwn(s)
    && (forall c: nat | c < |s.cleaners| :: CleanerKnows(s, c))
    && (forall i: nat | i < |s.servers| :: ServerFile(s, i))
    && RemovalsAreRecoverable(s)
  }

  // ----- what the two kinds of step leave alone -----

  /** A cleaner reads and moves trees: it never changes contents or locks, and nothing but a
      removal takes a tree away. */
  ghost predicate CleanFrame(s: State, s': State) {
    && s'.seed == s.seed && s'.servers == s.servers && s'.hosts == s.hosts && s'.children == s.children
    && s.saved <= s'.saved
    && |s'.trees| == |s.trees| && |s'.cleaners| == |s.cleaners|
    && (forall t: nat | t < |s.trees| ::
          s'.trees[t].content == s.trees[t].content && s'.trees[t].locks == s.trees[t].locks)
  }

  lemma CleanKeepsContents(s: State, c: nat, op: CleanerOp)
    requires EnabledCleaner(s, c, op)
    ensures CleanFrame(s, ApplyCleaner(s, c, op))
    ensures forall d: nat | d < |s.cleaners| && d != c :: ApplyCleaner(s, c, op).cleaners[d] == s.cleaners[d]
  {
  }

  /** A server start changes no place and no contents, and no lock but its own. */
  ghost predicate ServeFrame(s: State, s': State, i: nat) {
    && s'.seed == s.seed && s'.home == s.home && s'.cleaners == s.cleaners && s'.hosts == s.hosts && s'.saved == s.saved
    && |s'.trees| == |s.trees| && |s'.servers| == |s.servers|
    && (forall t: nat | t < |s.trees| ::
          && s'.trees[t].content == s.trees[t].content && s'.trees[t].place == s.trees[t].place
          && (forall k: nat | k != i :: k in s'.trees[t].locks <==> k in s.trees[t].locks)
          && (forall k: nat | k != i && k in s.trees[t].locks :: s'.trees[t].locks[k] == s.trees[t].locks[k]))
    && (forall k: nat | k < |s.servers| && k != i :: s'.servers[k] == s.servers[k])
    && (forall k: nat | k != i :: k in s'.children <==> k in s.children)
  }

  lemma ServeKeepsPlaces(s: State, i: nat, op: ServerOp)
    requires EnabledServer(s, i, op)
    ensures ServeFrame(s, ApplyServer(s, i, op), i)
  {
  }

  /** A lock of start `i` in a tree away from home changes only while it reads `Torn`. */
  lemma ServeKeepsDistantLocks(s: State, i: nat, op: ServerOp, t: nat)
    requires EnabledServer(s, i, op)
    requires t < |s.trees| && s.home != Some(t) && ServerFile(s, i)
    ensures |ApplyServer(s, i, op).trees| == |s.trees|
    ensures ApplyServer(s, i, op).trees[t].locks.Keys == s.trees[t].locks.Keys
    ensures i in s.trees[t].locks && !s.trees[t].locks[i].Torn? ==>
              ApplyServer(s, i, op).trees[t].locks[i] == s.trees[t].locks[i]
  {
  }

  /** Away from the home path, a lock that was found dead stays as it is, and dead. */
  lemma DeadLocksStayDead(s: State, step: Step, t: nat, i: nat)
    requires Inv(s) && Enabled(s, step)
    requires t < |s.trees| && s.home != Some(t) && i in s.trees[t].locks && !Live(s, s.trees[t].locks[i])
    ensures t < |Apply(s, step).trees| && i in Apply(s, step).trees[t].locks
    ensures !Live(Apply(s, step), Apply(s, step).trees[t].locks[i])
  {
    var s' := Apply(s, step);
    match step
    case Publish(_) =>
    case Write(_, _) =>
    case HostDies(_) =>
    case Clean(c, op) => CleanKeepsContents(s, c, op);
    case Serve(k, op) =>
      ServeKeepsPlaces(s, k, op);
      assert LockIsOwn(s, t, i);
      if k == i {
        assert ServerFile(s, i);
        ServeKeepsDistantLocks(s, i, op, t);
        // its host is gone, so the start can only lose its child
        assert op.ChildDies?;
      }
  }

  /** No lock appears in a tree that is not at the home path. */
  lemma NoLockAppears(s: State, step: Step, t: nat, i: nat)
    requires Inv(s) && Enabled(s, step)
    requires t < |s.trees| && s.home != Some(t)
    requires t < |Apply(s, step).trees| && i in Apply(s, step).trees[t].locks
    ensures i in s.trees[t].locks
  {
    match step
    case Publish(_) =>
    case Write(_, _) =>
    case HostDies(_) =>
    case Clean(c, op) => CleanKeepsContents(s, c, op);
    case Serve(k, op) =>
      ServeKeepsPlaces(s, k, op);
      assert ServerFile(s, k);
      ServeKeepsDistantLocks(s, k, op, t);
  }

  lemma NoLiveLockAppears(s: State, step: Step, t: nat)
    requires Inv(s) && Enabled(s, step)
    requires t < |s.trees| && s.home != Some(t) && !HasLiveLock(s, s.trees[t])
    requires t < |Apply(s, step).trees|
    ensures !HasLiveLock(Apply(s, step), Apply(s, step).trees[t])
  {
    var s' := Apply(s, step);
    forall i | i in s'.trees[t].locks
      ensures !Live(s', s'.trees[t].locks[i])
    {
      NoLockAppears(s, step, t, i);
      DeadLocksStayDead(s, step, t, i);
    }
  }

  lemma StepKeepsPlaces(s: State, step: Step)
    requires Inv(s) && Enabled(s, step)
    ensures PlacesAgree(Apply(s, step))
  {
    match step
    case Publish(_) =>
    case Write(_, _) =>
    case HostDies(_) =>
    case Clean(c, _) => assert CleanerKnows(s, c);
    case Serve(i, op) => ServeKeepsPlaces(s, i, op);
  }

  lemma StepKeepsCleanersApart(s: State, step: Step)
    requires Inv(s) && Enabled(s, step)
    ensures CleanersApart(Apply(s, step))
  {
    var s' := Apply(s, step);
    if step.Clean? {
      CleanKeepsContents(s, step.c, step.cop);
    } else if step.Serve? {
      ServeKeepsPlaces(s, step.i, step.sop);
    }
    forall c: nat, d: nat | c < d < |s'.cleaners| && HoldsTree(s'.cleaners[c].pc) && HoldsTree(s'.cleaners[d].pc)
      ensures s'.cleaners[c].pc.tree != s'.cleaners[d].pc.tree
    {
      // a tree that is newly held comes from the home path, where no held tree is
      assert CleanerKnows(s, c) && CleanerKnows(s, d);
    }
  }

  lemma StepKeepsOwnLocks(s: State, step: Step, t: nat, i: nat)
    requires Inv(s) && Enabled(s, step)
    requires t < |Apply(s, step).trees| && i in Apply(s, step).trees[t].locks
    ensures LockIsOwn(Apply(s, step), t, i)
  {
    if t < |s.trees| && i in s.trees[t].locks {
      assert LockIsOwn(s, t, i);
    }
    if step.Clean? {
      CleanKeepsContents(s, step.c, step.cop);
    } else if step.Serve? {
      ServeKeepsPlaces(s, step.i, step.sop);
    }
  }

  lemma StepKeepsServerFile(s: State, step: Step, i: nat)
    requires Inv(s) && Enabled(s, step)
    requires i < |s.servers|
    ensures ServerFile(Apply(s, step), i)
  {
    assert ServerFile(s, i);
    if step.Clean? {
      CleanKeepsContents(s, step.c, step.cop);
    } else if step.Serve? && step.i != i {
      ServeKeepsPlaces(s, step.i, step.sop);
    } else if step.Serve? {
      OwnServeStep(s, i, step.sop);
    }
  }

  lemma OwnServeStep(s: State, i: nat, op: ServerOp)
    requires EnabledServer(s, i, op) && PlacesAgree(s) && ServerFile(s, i)
    ensures ServerFile(ApplyServer(s, i, op), i)
  {
  }

  lemma StepKeepsCleanerKnows(s: State, step: Step, c: nat)
    requires Inv(s) && Enabled(s, step)
    requires c < |s.cleaners|
    ensures CleanerKnows(Apply(s, step), c)
  {
    var s' := Apply(s, step);
    assert CleanerKnows(s, c);
    if step.Clean? && step.c == c {
      OwnCleanStep(s, c, step.cop);
    } else {
      OtherStepForCleaner(s, step, c);
    }
  }

  lemma OwnCleanStep(s: State, c: nat, op: CleanerOp)
    requires Inv(s) && EnabledCleaner(s, c, op)
    ensures CleanerKnows(ApplyCleaner(s, c, op), c)
  {
    assert CleanerKnows(s, c);
  }

  /** Another process cannot move a tree that this cleaner holds, nor revive its locks. */
  lemma OtherStepForCleaner(s: State, step: Step, c: nat)
    requires Inv(s) && Enabled(s, step) && c < |s.cleaners|
    requires !(step.Clean? && step.c == c)
    ensures CleanerKnows(Apply(s, step), c)
  {
    var s' := Apply(s, step);
    var pc := s.cleaners[c].pc;
    assert CleanerKnows(s, c);
    if step.Clean? {
      assert CleanerKnows(s, step.c);
      CleanKeepsContents(s, step.c, step.cop);
    } else if step.Serve? {
      ServeKeepsPlaces(s, step.i, step.sop);
    }
    if HoldsTree(pc) {
      assert s.home != Some(pc.tree);
      assert s'.trees[pc.tree].place.InQuarantine?;
      forall i | i in s'.trees[pc.tree].locks
        ensures i in s.trees[pc.tree].locks
        ensures !Live(s, s.trees[pc.tree].locks[i]) ==> !Live(s', s'.trees[pc.tree].locks[i])
      {
        NoLockAppears(s, step, pc.tree, i);
        if !Live(s, s.trees[pc.tree].locks[i]) {
          DeadLocksStayDead(s, step, pc.tree, i);
        }
      }
    }
  }

  lemma StepKeepsRemovals(s: State, step: Step, t: nat)
    requires Inv(s) && Enabled(s, step)
    requires t < |Apply(s, step).trees|
    ensures RemovedIsRecoverable(Apply(s, step), t)
  {
    var s' := Apply(s, step);
    if t < |s.trees| && s'.trees[t].place.Removed? {
      assert RemovedIsRecoverable(s, t);
      if s.trees[t].place.Removed? {
        NoLiveLockAppears(s, step, t);
        if step.Clean? {
          CleanKeepsContents(s, step.c, step.cop);
        } else if step.Serve? {
          ServeKeepsPlaces(s, step.i, step.sop);
        }
      } else {
        OnlyFinishRemoves(s, step, t);
        assert CleanerKnows(s, step.c);
      }
    }
  }

  /** The one step that removes a tree, and what is true when it does. */
  lemma OnlyFinishRemoves(s: State, step: Step, t: nat)
    requires Inv(s) && Enabled(s, step)
    requires t < |s.trees| && !s.trees[t].place.Removed? && Apply(s, step).trees[t].place.Removed?
    ensures step.Clean? && step.cop.Finish? && s.cleaners[step.c].pc.tree == t
    ensures s.trees[t].content == s.seed || s.trees[t].content in s.saved
    ensures !HasLiveLock(s, s.trees[t])
  {
    if step.Clean? {
      assert CleanerKnows(s, step.c);
    } else if step.Serve? {
      ServeKeepsPlaces(s, step.i, step.sop);
    }
  }

  lemma StepKeepsInv(s: State, step: Step)
    requires Inv(s) && Enabled(s, step)
    ensures Inv(Apply(s, step))
  {
    var s' := Apply(s, step);
    StepKeepsPlaces(s, step);
    StepKeepsCleanersApart(s, step);
    assert |s'.cleaners| == |s.cleaners| && |s'.servers| == |s.servers|;
    forall t: nat, i: nat | t < |s'.trees| && i in s'.trees[t].locks
      ensures LockIsOwn(s', t, i)
    {
      StepKeepsOwnLocks(s, step, t, i);
    }
    forall c: nat | c < |s'.cleaners|
      ensures CleanerKnows(s', c)
    {
      StepKeepsCleanerKnows(s, step, c);
    }
    forall i: nat | i < |s'.servers|
      ensures ServerFile(s', i)
    {
      StepKeepsServerFile(s, step, i);
    }
    forall t: nat | t < |s'.trees|
      ensures RemovedIsRecoverable(s', t)
    {
      StepKeepsRemovals(s, step, t);
    }
  }

  lemma {:induction false} RunKeepsInv(s: State, steps: seq<Step>)
    requires Inv(s) && IsRun(s, steps)
    ensures Inv(After(s, steps))
    decreases |steps|
  {
    if steps != [] {
      StepKeepsInv(s, steps[0]);
      RunKeepsInv(Apply(s, steps[0]), steps[1..]);
    }
  }

  // ----- main results -----

  /** In every run, whatever the interleaving and whoever dies: a home that is gone had no
      live lock and is recoverable, and every other tree is at its old path or in quarantine. */
  lemma CleanupIsSafe(s: State, steps: seq<Step>, t: nat)
    requires Init(s) && IsRun(s, steps) && t < |After(s, steps).trees|
    ensures var end := After(s, steps);
            || end.home == Some(t) || end.trees[t].place.InQuarantine?
            || (end.trees[t].place.Removed? && RemovedIsRecoverable(end, t))
  {
    assert Inv(s);
    RunKeepsInv(s, steps);
    assert RemovedIsRecoverable(After(s, steps), t);
  }

  /** No step but a writer's changes the contents of a tree; a saved snapshot is never
      given up, and a removed tree stays removed. */
  lemma OnlyWritersChangeContents(s: State, step: Step, t: nat)
    requires Enabled(s, step) && t < |s.trees|
    ensures t < |Apply(s, step).trees|
    ensures Apply(s, step).trees[t].content != s.trees[t].content ==>
              step.Write? && step.tree == t && !s.trees[t].place.Removed?
    ensures s.saved <= Apply(s, step).saved
  {
    match step
    case Publish(_) =>
    case Write(_, _) =>
    case HostDies(_) =>
    case Clean(c, op) => CleanKeepsContents(s, c, op);
    case Serve(i, op) => ServeKeepsPlaces(s, i, op);
  }

  // ----- a live server keeps its home -----

  /** Start `i`'s own lock, in the tree its child runs in, is live even without its host. */
  ghost predicate Covered(s: State, i: nat)
    requires i < |s.servers|
  {
    i in s.children ==>
      && s.servers[i].cwd.Some?
      && var t := s.servers[i].cwd.value;
      && t < |s.trees| && i in s.trees[t].locks
      && Live(s.(hosts := s.hosts - {s.servers[i].host}), s.trees[t].locks[i])
  }

  ghost predicate AllCovered(s: State) {
    forall i: nat | i < |s.servers| :: Covered(s, i)
  }

  /** When the child is spawned, the home path does not lead to another tree than the one
      whose lock was just marked pending. */
  predicate NotReplaced(s: State, step: Step)
    requires Enabled(s, step)
  {
    step.Serve? && step.sop.Spawn? && s.home.Some? ==> s.home.value == s.servers[step.i].pc.tree
  }

  /** How far start `i` is with the lock of its child's tree. */
  ghost predicate StartAgrees(s: State, i: nat)
    requires i < |s.servers|
  {
    var me := s.servers[i];
    if me.pc.Spawned? || me.pc.RecordTorn? || me.pc.Serving? then
      i in s.children ==>
        && me.cwd.Some? && me.cwd.value < |s.trees| && i in s.trees[me.cwd.value].locks
        && (s.trees[me.cwd.value].locks[i].Pids? ==> s.trees[me.cwd.value].locks[i].child == Some(i))
    else i !in s.children
  }

  /** Until its child is spawned, a start has written nothing but `pid\n0` outside the tree
      it is working in. */
  ghost predicate SpentElsewhere(s: State, i: nat)
    requires i < |s.servers|
  {
    match s.servers[i].pc
    case Unlocked => forall u: nat | u < |s.trees| :: i !in s.trees[u].locks
    case Marked => forall u: nat | u < |s.trees| :: i !in s.trees[u].locks
    case LockTorn(t) => forall u: nat | u < |s.trees| && u != t :: i !in s.trees[u].locks
    case Locked => forall u: nat | u < |s.trees| && i in s.trees[u].locks :: IsSpent(s.trees[u].locks[i])
    case PendingTorn(t) =>
      forall u: nat | u < |s.trees| && u != t && i in s.trees[u].locks :: IsSpent(s.trees[u].locks[i])
    case PendingWritten(t) =>
      forall u: nat | u < |s.trees| && u != t && i in s.trees[u].locks :: IsSpent(s.trees[u].locks[i])
    case _ => true
  }

  predicate IsSpent(text: LockText) { text.Pids? && text.child.None? }

  ghost predicate StartsAgree(s: State) {
    forall i: nat | i < |s.servers| :: StartAgrees(s, i) && SpentElsewhere(s, i)
  }

  lemma AgreeingIsCovered(s: State)
    requires LocksAreOwn(s)
    ensures StartsAgree(s) ==> AllCovered(s)
  {
    if StartsAgree(s) {
      forall i: nat | i < |s.servers|
        ensures Covered(s, i)
      {
        assert StartAgrees(s, i);
      }
    }
  }

  lemma OwnStepKeepsStart(s: State, i: nat, op: ServerOp)
    requires Inv(s) && EnabledServer(s, i, op) && StartAgrees(s, i) && NotReplaced(s, Serve(i, op))
    ensures StartAgrees(ApplyServer(s, i, op), i)
  {
    assert ServerFile(s, i);
  }

  lemma OwnStepKeepsSpent(s: State, i: nat, op: ServerOp)
    requires Inv(s) && EnabledServer(s, i, op) && SpentElsewhere(s, i)
    ensures SpentElsewhere(ApplyServer(s, i, op), i)
  {
    assert ServerFile(s, i);
  }

  lemma CleanKeepsStart(s: State, c: nat, op: CleanerOp, i: nat)
    requires EnabledCleaner(s, c, op) && i < |s.servers| && StartAgrees(s, i) && SpentElsewhere(s, i)
    ensures var s' := ApplyCleaner(s, c, op);
            i < |s'.servers| && StartAgrees(s', i) && SpentElsewhere(s', i)
  {
    CleanKeepsContents(s, c, op);
  }

  lemma OtherServeKeepsStart(s: State, k: nat, op: ServerOp, i: nat)
    requires EnabledServer(s, k, op) && k != i && i < |s.servers| && StartAgrees(s, i) && SpentElsewhere(s, i)
    ensures var s' := ApplyServer(s, k, op);
            i < |s'.servers| && StartAgrees(s', i) && SpentElsewhere(s', i)
  {
    ServeKeepsPlaces(s, k, op);
  }

  lemma StepKeepsStart(s: State, step: Step, i: nat)
    requires Inv(s) && StartsAgree(s) && Enabled(s, step) && NotReplaced(s, step) && i < |s.servers|
    ensures i < |Apply(s, step).servers| && StartAgrees(Apply(s, step), i) && SpentElsewhere(Apply(s, step), i)
  {
    assert StartAgrees(s, i) && SpentElsewhere(s, i);
    match step
    case Clean(c, op) => CleanKeepsStart(s, c, op, i);
    case Serve(k, op) =>
      if k == i {
        OwnStepKeepsStart(s, i, op);
        OwnStepKeepsSpent(s, i, op);
      } else {
        OtherServeKeepsStart(s, k, op, i);
      }
    case _ =>
  }

  lemma StepKeepsStarts(s: State, step: Step)
    requires Inv(s) && StartsAgree(s) && Enabled(s, step) && NotReplaced(s, step)
    ensures StartsAgree(Apply(s, step))
  {
    var s' := Apply(s, step);
    assert |s'.servers| == |s.servers|;
    forall i: nat | i < |s'.servers|
      ensures StartAgrees(s', i) && SpentElsewhere(s', i)
    {
      StepKeepsStart(s, step, i);
    }
  }

  /** A child spawned in another tree than the one with its lock has no lock there that
      outlives its host. */
  lemma ReplacedIsUncovered(s: State, step: Step)
    requires Inv(s) && StartsAgree(s) && Enabled(s, step) && !NotReplaced(s, step)
    ensures !AllCovered(Apply(s, step))
  {
    var s' := Apply(s, step);
    var i := step.i;
    assert StartAgrees(s, i) && SpentElsewhere(s, i);
    assert !Covered(s', i) by {
      var t := s.home.value;
      if i in s.trees[t].locks {
        assert LockIsOwn(s, t, i) && IsSpent(s.trees[t].locks[i]);
      }
    }
  }

  ghost predicate AlwaysCovered(s: State, steps: seq<Step>)
    requires IsRun(s, steps)
    decreases |steps|
  {
    AllCovered(s) && (steps != [] ==> AlwaysCovered(Apply(s, steps[0]), steps[1..]))
  }

  ghost predicate NeverReplaced(s: State, steps: seq<Step>)
    requires IsRun(s, steps)
    decreases |steps|
  {
    steps != [] ==> NotReplaced(s, steps[0]) && NeverReplaced(Apply(s, steps[0]), steps[1..])
  }

  lemma {:induction false} CoveredIffNeverReplacedFrom(s: State, steps: seq<Step>)
    requires Inv(s) && StartsAgree(s) && IsRun(s, steps)
    ensures AlwaysCovered(s, steps) <==> NeverReplaced(s, steps)
    decreases |steps|
  {
    AgreeingIsCovered(s);
    if steps != [] {
      var s' := Apply(s, steps[0]);
      if NotReplaced(s, steps[0]) {
        StepKeepsInv(s, steps[0]);
        StepKeepsStarts(s, steps[0]);
        CoveredIffNeverReplacedFrom(s', steps[1..]);
      } else {
        ReplacedIsUncovered(s, steps[0]);
      }
    }
  }

  /** The exact condition: in a run every live child keeps a lock that outlives its host, at
      every step, if and only if no child is spawned after the home path came to lead to
      another tree than the one marked pending for it. */
  lemma CoveredIffNeverReplaced(s: State, steps: seq<Step>)
    requires Init(s) && IsRun(s, steps)
    ensures AlwaysCovered(s, steps) <==> NeverReplaced(s, steps)
  {
    assert Inv(s) && StartsAgree(s);
    CoveredIffNeverReplacedFrom(s, steps);
  }

  lemma {:induction false} RunKeepsStarts(s: State, steps: seq<Step>)
    requires Inv(s) && StartsAgree(s) && IsRun(s, steps) && NeverReplaced(s, steps)
    ensures Inv(After(s, steps)) && StartsAgree(After(s, steps))
    decreases |steps|
  {
    if steps != [] {
      StepKeepsInv(s, steps[0]);
      StepKeepsStarts(s, steps[0]);
      RunKeepsStarts(Apply(s, steps[0]), steps[1..]);
    }
  }

  /** A home with a live server in it is never removed, and keeps a live lock even when the
      window that started the server is gone. */
  lemma ServedHomeSurvives(s: State, steps: seq<Step>, i: nat)
    requires Init(s) && IsRun(s, steps) && NeverReplaced(s, steps)
    requires i < |After(s, steps).servers| && i in After(s, steps).children
    ensures var end := After(s, steps);
            && end.servers[i].cwd.Some?
            && var t := end.servers[i].cwd.value;
            && t < |end.trees| && !end.trees[t].place.Removed? && HasLiveLock(end, end.trees[t])
  {
    assert Inv(s) && StartsAgree(s);
    RunKeepsStarts(s, steps);
    var end := After(s, steps);
    assert StartAgrees(end, i);
    var t := end.servers[i].cwd.value;
    assert LockIsOwn(end, t, i);
    assert Live(end, end.trees[t].locks[i]);
    assert RemovedIsRecoverable(end, t);
  }

  // ----- the condition is needed -----

  /** One cleaner and one window with a server to start; nothing published yet. */
  function Beginning(): State {
    State(Content(0, 0), None, [], {}, [Cleaner(true, Waiting)], [Server(0, Unlocked, None)], {0}, {})
  }

  /** A home is quarantined and published anew between the pending mark of a start and its spawn. */
  function ReplacingRun(): seq<Step> {
    [Publish(Content(0, 0)), Clean(0, Look(0)), Serve(0, CheckMarker), Serve(0, CreateLock), Serve(0, WriteLock),
     Serve(0, OpenPending), Serve(0, WritePending), Clean(0, Quarantine), Publish(Content(0, 0)), Serve(0, Spawn)]
  }

  /** Its child runs in the new tree, and its lock is in the other one. */
  function Replaced(): State {
    State(Content(0, 0), Some(1),
          [Tree(InQuarantine, Content(0, 0), map[0 := Pending]), Tree(AtHome, Content(0, 0), map[])], {},
          [Cleaner(true, Scanning(0, 0, {0}, false, None))], [Server(0, Spawned(0), Some(1))], {0}, {0})
  }

  lemma RunOn(s: State, steps: seq<Step>)
    requires steps != [] && Enabled(s, steps[0]) && IsRun(Apply(s, steps[0]), steps[1..])
    ensures IsRun(s, steps) && After(s, steps) == After(Apply(s, steps[0]), steps[1..])
  {
  }

  /** The state after the pending mark, and the first steps to it. */
  function Marked0(): State {
    State(Content(0, 0), Some(0), [Tree(AtHome, Content(0, 0), map[0 := Pending])], {},
          [Cleaner(true, Looked(0))], [Server(0, PendingWritten(0), None)], {0}, {})
  }

  lemma ReplacingRunGoesOn()
    ensures IsRun(Marked0(), ReplacingRun()[7..]) && After(Marked0(), ReplacingRun()[7..]) == Replaced()
  {
    var steps := ReplacingRun();
    var s8 := Apply(Marked0(), Clean(0, Quarantine));
    var s9 := Apply(s8, Publish(Content(0, 0)));
    assert Marked0().trees[0].locks.Keys == {0};
    assert s8.trees == [Tree(InQuarantine, Content(0, 0), map[0 := Pending])] && s8.cleaners == Replaced().cleaners;
    assert s9.trees == Replaced().trees;
    var end := Apply(s9, Serve(0, Spawn));
    assert end.servers == Replaced().servers && end.children == {0};
    assert end == Replaced();
    RunOn(s9, steps[9..]);
    RunOn(s8, steps[8..]);
    RunOn(Marked0(), steps[7..]);
  }

  /** The state with a fresh lock file that has no text yet. */
  function Locking(): State {
    State(Content(0, 0), Some(0), [Tree(AtHome, Content(0, 0), map[0 := Torn])], {},
          [Cleaner(true, Looked(0))], [Server(0, LockTorn(0), None)], {0}, {})
  }

  lemma ReplacingRunMarks()
    ensures IsRun(Locking(), ReplacingRun()[4..]) && After(Locking(), ReplacingRun()[4..]) == Replaced()
  {
    var steps := ReplacingRun();
    var s5 := Apply(Locking(), Serve(0, WriteLock));
    var s6 := Apply(s5, Serve(0, OpenPending));
    var s7 := Apply(s6, Serve(0, WritePending));
    assert s7.trees[0].locks == map[0 := Pending];
    assert s7.trees == Marked0().trees && s7.servers == Marked0().servers;
    assert s7 == Marked0();
    ReplacingRunGoesOn();
    RunOn(s6, steps[6..]);
    RunOn(s5, steps[5..]);
    RunOn(Locking(), steps[4..]);
  }

  lemma ReplacingRunBegins()
    ensures IsRun(Beginning(), ReplacingRun()) && After(Beginning(), ReplacingRun()) == Replaced()
  {
    var steps := ReplacingRun();
    var s1 := Apply(Beginning(), Publish(Content(0, 0)));
    var s2 := Apply(s1, Clean(0, Look(0)));
    var s3 := Apply(s2, Serve(0, CheckMarker));
    var s4 := Apply(s3, Serve(0, CreateLock));
    assert s1.trees == [Tree(AtHome, Content(0, 0), map[])] && s2.cleaners == Locking().cleaners;
    assert s4.trees == Locking().trees && s4.servers == Locking().servers;
    assert s4 == Locking();
    ReplacingRunMarks();
    RunOn(s3, steps[3..]);
    RunOn(s2, steps[2..]);
    RunOn(s1, steps[1..]);
    RunOn(Beginning(), steps);
  }

  /** A run from the beginning that leaves a live child without a lock of its own. */
  lemma ReplacedHomeLosesCover()
    ensures Init(Beginning()) && IsRun(Beginning(), ReplacingRun())
    ensures !AllCovered(After(Beginning(), ReplacingRun()))
    ensures !HasLiveLock(Replaced(), Replaced().trees[1]) && Replaced() == After(Beginning(), ReplacingRun())
  {
    ReplacingRunBegins();
    assert !Covered(Replaced(), 0);
  }
}

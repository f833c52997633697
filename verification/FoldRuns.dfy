/** What a fold's answer to the cursor means, over every run of the loop
    (`fold_batch` and `read_accepting_block` in `rust/chain/src/acceptance.rs`). */
module FoldRuns {
  // For any answers of the node and any interleaving with other calls, a fold that
  // ends complete has put the chain's word on disk, and one that lost a fact holds
  // the cursor. Main results: `CompleteMeansDurable` and `LostFactHoldsTheCursor`.

  import opened Bytes
  import opened WatchLog
  import opened ChainBatch
  import opened Tracker
  import opened MessageWalk
  import opened IndexRuns
  import opened TrackerLoop
  import opened CursorRuns
  import opened LoopRuns

  // ---- where a fold in progress is headed ----

  function NamedKind(ns: seq<Naming>, k: Kind, t: Txid): Kind {
    match LastNaming(ns, t) { case Some(b) => In(b) case None => k }
  }

  function MatchesKind(ms: seq<Match>, k: Kind, t: Txid): Kind
    decreases |ms|
  {
    if ms == [] then k else MatchesKind(ms[1..], if t in ms[0].watched then In(ms[0].block) else k, t)
  }

  /** What a fold in progress makes of `t`'s kind if nothing it has left to do fails. */
  function Headed(j: Job, k: Kind, t: Txid): Kind {
    match j.stage
    case Removing => Expected(k, j.batch, t)
    case Adding => NamedKind(j.batch.accepted, k, t)
    case Matching => NamedKind(j.batch.accepted, k, t)
    case Reading(todo) => MatchesKind(todo, k, t)
    case Resolving(m, _, todo) => MatchesKind([m] + todo, k, t)
    case Accepting(m, _, todo) => MatchesKind([m] + todo, k, t)
    case Finished(_) => k
  }

  lemma {:induction false} MatchesAreNamed(ns: seq<Naming>, watched: set<Txid>, interest: seq<Txid>, k: Kind, t: Txid)
    requires t in watched
    ensures MatchesKind(MatchAll(ns, watched, interest), k, t) == NamedKind(ns, k, t)
    decreases |ns|
  {
    if ns != [] {
      var m := Match(ns[0].block, Among(ns[0].txids, watched), Among(ns[0].txids, Members(interest)));
      var rest := MatchAll(ns[1..], watched, interest);
      var k1 := if t in m.watched then In(m.block) else k;
      MatchesAreNamed(ns[1..], watched, interest, k1, t);
      assert ns == [ns[0]] + ns[1..];
      LastNamingCons(ns[0], ns[1..], t);
      if m.watched != [] || m.wanted != [] {
        assert ([m] + rest)[0] == m && ([m] + rest)[1..] == rest;
      } else {
        assert [] + rest == rest;
      }
    }
  }

  lemma MatchFirst(m: Match, todo: seq<Match>, k: Kind, t: Txid)
    ensures MatchesKind([m] + todo, k, t) == MatchesKind(todo, if t in m.watched then In(m.block) else k, t)
  {
    assert ([m] + todo)[1..] == todo;
  }

  /** `t` is watched, and while the fold is complete it is headed for `goal`. */
  predicate OnCourse(c: Core, j: Job, t: Txid, goal: Kind) {
    t in c.records && (j.complete ==> Headed(j, KindIn(c, t), t) == goal)
  }

  lemma RemovingStaysOnCourse(disk: Disk, d: Desk, j: Job, a: BlockAnswer, t: Txid, goal: Kind)
    requires j.stage.Removing? && OnCourse(d.state.core, j, t, goal) && Indexed(d.state.core, Some(t))
    ensures var ran := Section(disk, d, j, a); OnCourse(ran.desk.state.core, ran.job, t, goal)
  {
    RemoveAllKinds(disk, From(d.state.core), j.batch.removed, j.now, t);
  }

  lemma AcceptingStaysOnCourse(disk: Disk, d: Desk, j: Job, a: BlockAnswer, t: Txid, goal: Kind)
    requires j.stage.Accepting? && OnCourse(d.state.core, j, t, goal)
    ensures var ran := Section(disk, d, j, a); OnCourse(ran.desk.state.core, ran.job, t, goal)
  {
    var Accepting(m, got, todo) := j.stage;
    MatchFirst(m, todo, KindIn(d.state.core, t), t);
    AcceptAllKinds(disk, From(d.state.core), m.block, got.facts, m.watched, t);
  }

  lemma ReadingStaysOnCourse(disk: Disk, d: Desk, j: Job, a: BlockAnswer, t: Txid, goal: Kind)
    requires j.stage.Reading? && OnCourse(d.state.core, j, t, goal)
    ensures var ran := Section(disk, d, j, a); OnCourse(ran.desk.state.core, ran.job, t, goal)
  {
    var todo := j.stage.todo;
    if todo != [] {
      assert todo == [todo[0]] + todo[1..];
      MatchFirst(todo[0], todo[1..], KindIn(d.state.core, t), t);
    }
  }

  /** **One section, any answer.** Served, stood in for by the sink's score or not
      readable at all, with any writes failing: a section that leaves the fold
      complete leaves `t` headed where it was. */
  lemma SectionStaysOnCourse(disk: Disk, d: Desk, j: Job, a: BlockAnswer, t: Txid, goal: Kind)
    requires OnCourse(d.state.core, j, t, goal) && (j.stage.Removing? ==> Indexed(d.state.core, Some(t)))
    ensures var ran := Section(disk, d, j, a); OnCourse(ran.desk.state.core, ran.job, t, goal)
  {
    match j.stage
    case Removing => RemovingStaysOnCourse(disk, d, j, a, t, goal);
    case Adding =>
    case Matching =>
      MatchesAreNamed(j.batch.accepted, d.state.core.records.Keys, d.interest, KindIn(d.state.core, t), t);
    case Reading(_) => ReadingStaysOnCourse(disk, d, j, a, t, goal);
    case Resolving(m, _, todo) => MatchFirst(m, todo, KindIn(d.state.core, t), t);
    case Accepting(_, _, _) => AcceptingStaysOnCourse(disk, d, j, a, t, goal);
    case Finished(_) =>
  }

  // ---- a step runs the fold's next section, or leaves it alone ----

  /** What the step answers the fold in progress, if it runs its next section. */
  function SectionAnswer(w: World, i: Input): Option<BlockAnswer> {
    match i
    case WalkStep(a, _, _) =>
      if w.loop.Listening? && w.walk.Walking? && w.walk.at.Paging? then Some(AsBlock(a)) else None
    case LoopStep(a, _, _) =>
      if w.loop.FoldingLive? || (w.loop.Draining? && w.loop.folding.Some?) then Some(AsBlock(a)) else None
    case _ => None
  }

  predicate NoFoldEnds(notes: seq<Note>) {
    forall n :: n in notes ==> !n.FoldEnded?
  }

  /** Moves the cursor or ends its hold, other than by a re-seed. */
  predicate Passes(n: Note) {
    (n.Moved? || n.Released?) && !Seeds(n)
  }

  /** The notes of a step that ends the fold of `j`: its end is noted with the job's
      answer, and only a complete job's cursor moves. */
  predicate Ends(j: Job, out: Stepped) {
    && (exists n :: n in out.notes && n.FoldEnded?)
    && (forall n :: n in out.notes && n.FoldEnded? ==> n.complete == j.complete && n.last == Last(j.batch.added))
    && (!j.complete ==> out.world.cursor.frozen && forall n :: n in out.notes ==> !Passes(n))
    && Folding(out.world).None?
  }

  lemma PageEnds(w: World, j: Job, at: Block, page: nat, clean: bool, now: nat, ok: bool)
    requires Marks(w) && w.walk.Walking? && w.loop.Listening? && (!clean ==> w.cursor.frozen)
    ensures Ends(j, PageFolded(w, j, at, page, clean, now, ok))
  {
    PageNotesAre(w, j, at, page, clean, now, ok);
    PageLeaves(w, j, at, page, clean, now, ok);
    var out := PageFolded(w, j, at, page, clean, now, ok);
    assert out.notes[0] in out.notes;
    PageFoldsNothing(w, j, at, page, clean, now, ok);
  }

  lemma PageFoldsNothing(w: World, j: Job, at: Block, page: nat, clean: bool, now: nat, ok: bool)
    requires w.loop.Listening?
    ensures Folding(PageFolded(w, j, at, page, clean, now, ok).world).None?
  {
  }

  lemma LiveEnds(w: World, j: Job, now: nat, ok: bool)
    requires w.walk.NotWalking? && (w.loop.Listening? || w.loop == Draining(None))
    ensures Ends(j, LiveFolded(w, j, now, ok))
  {
    var last := Last(j.batch.added);
    var ended := FoldEnded(None, j.complete, last, IsTip(j.batch), now);
    var out := LiveFolded(w, j, now, ok);
    assert out.notes[0] == ended;
  }

  /** A step that runs the fold's next section. */
  predicate RunsSection(disk: Disk, w: World, i: Input, out: Stepped) {
    && Folding(w).Some? && SectionAnswer(w, i).Some?
    && var ran := Section(disk, w.desk, Folding(w).value, SectionAnswer(w, i).value);
       && out.world.desk.state.core == ran.desk.state.core
       && (if ran.job.stage.Finished? then Ends(ran.job, out)
           else Folding(out.world) == Some(ran.job) && NoFoldEnds(out.notes))
  }

  lemma LiveStepRuns(disk: Disk, w: World, j: Job, a: Answer, now: nat, ok: bool, during: Job -> Loop, after: Loop)
    requires w.walk.NotWalking? && (after.Listening? || after == Draining(None))
    ensures var out := StepLive(disk, w, j, a, now, ok, during, after);
      var ran := Section(disk, w.desk, j, AsBlock(a));
      && out.world.desk.state.core == ran.desk.state.core
      && (if ran.job.stage.Finished? then Ends(ran.job, out) else out.world.loop == during(ran.job) && out.notes == [])
  {
    var ran := Section(disk, w.desk, j, AsBlock(a));
    if ran.job.stage.Finished? {
      LiveEnds(w.(desk := ran.desk, loop := after), ran.job, now, ok);
    }
  }

  lemma PagingRuns(disk: Disk, w: World, l: Ledger, a: Answer, now: nat, ok: bool)
    requires Kept(w, l) && w.loop.Listening? && w.walk.Walking? && w.walk.at.Paging?
    ensures RunsSection(disk, w, WalkStep(a, now, ok), Step(disk, w, WalkStep(a, now, ok)))
  {
    var Paging(j, c, page, clean) := w.walk.at;
    var ran := Section(disk, w.desk, j, AsBlock(a));
    SectionMarks(disk, w.desk, j, AsBlock(a));
    var w1 := w.(desk := ran.desk, walk := Walking(Paging(ran.job, c, page, clean)));
    if ran.job.stage.Finished? {
      PageEnds(w1, ran.job, c, page, clean, now, ok);
      PageFoldedDesk(w1, ran.job, c, page, clean, now, ok);
    }
  }

  lemma SectionRuns(disk: Disk, w: World, l: Ledger, i: Input)
    requires Kept(w, l) && Folding(w).Some? && SectionAnswer(w, i).Some?
    ensures RunsSection(disk, w, i, Step(disk, w, i))
  {
    match i
    case WalkStep(a, now, ok) => PagingRuns(disk, w, l, a, now, ok);
    case LoopStep(a, now, ok) =>
      match w.loop
      case FoldingLive(j) => LiveStepRuns(disk, w, j, a, now, ok, (j: Job) => FoldingLive(j), Listening);
      case Draining(Some(j)) => LiveStepRuns(disk, w, j, a, now, ok, (j: Job) => Draining(Some(j)), Draining(None));
  }

  /** A step that leaves the fold in progress and `t` alone. */
  predicate LeavesFold(w: World, out: Stepped, t: Txid) {
    && Folding(out.world) == Folding(w) && NoFoldEnds(out.notes)
    && t in w.desk.state.core.records
    && (t in out.world.desk.state.core.records ==> out.world.desk.state.core.records[t] == w.desk.state.core.records[t])
  }

  lemma RegisterLeaves(disk: Disk, s: State, u: Txid, source: Source, now: nat, order: seq<Txid>, t: Txid)
    requires t in s.core.records
    ensures var s' := Register(disk, s, u, source, now, order).state;
      t in s'.core.records ==> s'.core.records[t] == s.core.records[t]
  {
    if u !in s.core.records {
      RegisterAsDrops(disk, s, u, source, now, order);
      DropEachKeepsRecords(disk, s, EvictionOf(s, u, order), t);
    }
  }

  lemma FromMemoryLeaves(disk: Disk, s: State, u: Txid, seen: Remembered, t: Txid)
    requires t != u
    ensures var s' := FromMemory(disk, s, u, seen).state;
      t in s'.core.records ==> t in s.core.records && s'.core.records[t] == s.core.records[t]
  {
    match seen
    case SeenAccepted(b, f, _) => AcceptAllMoves(disk, From(s.core), b, f, [u], t);
    case SeenDisplaced(_, _) =>
  }

  lemma WatchLeaves(disk: Disk, d: Desk, u: Txid, source: Source, now: nat, order: seq<Txid>, t: Txid)
    requires t in d.state.core.records
    ensures var s' := WatchDesk(disk, d, u, source, now, order).desk.state;
      t in s'.core.records ==> s'.core.records[t] == d.state.core.records[t]
  {
    if u !in d.state.core.records {
      RegisterLeaves(disk, d.state, u, source, now, order, t);
      var made := Register(disk, d.state, u, source, now, order);
      if source == Transport && u in d.memory.known && !made.failed {
        FromMemoryLeaves(disk, made.state, u, Current(made.state, d.memory.known[u], now), t);
      }
    }
  }

  lemma TickLeaves(w: World, now: nat, order: seq<Txid>, holdWalk: bool, t: Txid)
    requires w.walk.Walking? && t in w.desk.state.core.records
    ensures LeavesFold(w, StepTick(w, now, order, holdWalk), t)
  {
    GuardAllIs(w.desk.state, DueEvents(w.desk.state, now, order), t);
  }

  lemma ListeningLeaves(disk: Disk, w: World, i: Input, t: Txid)
    requires Marks(w) && w.loop.Listening? && Folding(w).Some? && SectionAnswer(w, i).None? && t in w.desk.state.core.records
    ensures LeavesFold(w, StepListening(disk, w, i), t)
  {
    match i
    case SinkScore(blue, now, order) => NoDepthIsClaimedWhileHeld(disk, w.desk.state, blue, now, order, t);
    case TickNow(now, order, holdWalk) => TickLeaves(w, now, order, holdWalk, t);
    case _ =>
  }

  lemma OtherStepLeaves(disk: Disk, w: World, i: Input, t: Txid)
    requires Marks(w) && Folding(w).Some? && SectionAnswer(w, i).None? && t in w.desk.state.core.records
    ensures LeavesFold(w, Step(disk, w, i), t)
  {
    match i
    case WatchCall(u, source, now, order) => WatchLeaves(disk, w.desk, u, source, now, order, t);
    case LookupCall(_) =>
    case LoopStep(a, _, _) =>
    case _ => if w.loop.Listening? { ListeningLeaves(disk, w, i, t); }
  }

  // ---- over runs ----

  /** `t` is watched before the run and after each of its steps. */
  predicate Watching(disk: Disk, w: World, inputs: seq<Input>, t: Txid)
    decreases |inputs|
  {
    t in w.desk.state.core.records && (inputs != [] ==> Watching(disk, Step(disk, w, inputs[0]).world, inputs[1..], t))
  }

  /** The fold in progress, on course. */
  predicate Folds(w: World, batch: Batch, t: Txid, goal: Kind) {
    Folding(w).Some? && Folding(w).value.batch == batch && OnCourse(w.desk.state.core, Folding(w).value, t, goal)
  }

  /** A step that ends a complete fold leaves `t` at `goal`, and only such a step
      moves or releases the cursor. */
  predicate EndsAt(out: Stepped, batch: Batch, t: Txid, goal: Kind) {
    && (forall n :: n in out.notes && n.FoldEnded? ==> n.last == Last(batch.added))
    && (forall n :: n in out.notes && (Passes(n) || (n.FoldEnded? && n.complete)) ==>
          t in out.world.desk.state.core.records && KindIn(out.world.desk.state.core, t) == goal)
  }

  lemma StepOnCourse(disk: Disk, w: World, l: Ledger, i: Input, batch: Batch, t: Txid, goal: Kind)
    requires Kept(w, l) && Indexed(w.desk.state.core, Some(t)) && Folds(w, batch, t, goal)
    requires t in Step(disk, w, i).world.desk.state.core.records
    ensures var out := Step(disk, w, i);
      if NoFoldEnds(out.notes) then Folds(out.world, batch, t, goal) else EndsAt(out, batch, t, goal)
  {
    if SectionAnswer(w, i).Some? {
      var a := SectionAnswer(w, i).value;
      var j := Folding(w).value;
      SectionRuns(disk, w, l, i);
      SectionStaysOnCourse(disk, w.desk, j, a, t, goal);
      SectionMarks(disk, w.desk, j, a);
      var ran := Section(disk, w.desk, j, a);
    } else {
      OtherStepLeaves(disk, w, i, t);
    }
  }

  lemma StepIndexed(disk: Disk, w: World, i: Input, rest: seq<Input>, v: Option<Txid>)
    requires Indexed(w.desk.state.core, v) && KeptDrops(v, RunMoments(disk, w, [i] + rest))
    ensures var w1 := Step(disk, w, i).world;
      Indexed(w1.desk.state.core, v) && KeptDrops(v, RunMoments(disk, w1, rest))
  {
    var w1 := Step(disk, w, i).world;
    assert ([i] + rest)[0] == i && ([i] + rest)[1..] == rest;
    var first := StepOps(disk, w, i);
    StepIsOps(disk, w, i);
    PlaySplit(disk, w.desk.state, first, RunOps(disk, w1, rest));
    KeptSplit(v, Play(disk, w.desk.state, first).1, RunMoments(disk, w1, rest));
    IndexOverRuns(disk, w.desk.state, first, v);
  }

  lemma {:induction false} CourseOverRun(disk: Disk, w: World, l: Ledger, inputs: seq<Input>, last: Input, batch: Batch, t: Txid, goal: Kind)
    requires Kept(w, l) && Indexed(w.desk.state.core, Some(t)) && Folds(w, batch, t, goal)
    requires Watching(disk, w, inputs + [last], t) && DropFailed(t) !in RunMoments(disk, w, inputs + [last])
    requires NoFoldEnds(Run(disk, w, inputs).notes)
    ensures var end := Run(disk, w, inputs).world;
      && Folds(end, batch, t, goal) && Indexed(end.desk.state.core, Some(t))
      && Kept(end, Audit(l, Run(disk, w, inputs).notes))
      && t in Step(disk, end, last).world.desk.state.core.records
    decreases |inputs|
  {
    if inputs == [] {
      assert inputs + [last] == [last] && [last][0] == last;
    } else {
      var one := Step(disk, w, inputs[0]);
      var rest := Run(disk, one.world, inputs[1..]);
      assert (inputs + [last])[1..] == inputs[1..] + [last] && (inputs + [last])[0] == inputs[0];
      assert inputs + [last] == [inputs[0]] + (inputs[1..] + [last]);
      assert forall n :: n in one.notes ==> n in one.notes + rest.notes;
      assert forall n :: n in rest.notes ==> n in one.notes + rest.notes;
      StepKeeps(disk, w, l, inputs[0]);
      StepIndexed(disk, w, inputs[0], inputs[1..] + [last], Some(t));
      StepOnCourse(disk, w, l, inputs[0], batch, t, goal);
      CourseOverRun(disk, one.world, Audit(l, one.notes), inputs[1..], last, batch, t, goal);
      AuditSplit(l, one.notes, rest.notes);
    }
  }

  lemma FoldIsDurable(disk: Disk, w: World, l: Ledger, inputs: seq<Input>, last: Input, batch: Batch, now: nat, t: Txid)
    requires Kept(w, l) && Indexed(w.desk.state.core, Some(t)) && Folding(w) == Some(Job(batch, now, Removing, true))
    requires Watching(disk, w, inputs + [last], t) && DropFailed(t) !in RunMoments(disk, w, inputs + [last])
    requires NoFoldEnds(Run(disk, w, inputs).notes)
    ensures var out := Step(disk, Run(disk, w, inputs).world, last);
      && t in w.desk.state.core.records
      && (NoFoldEnds(out.notes) || EndsAt(out, batch, t, Expected(KindIn(w.desk.state.core, t), batch, t)))
  {
    var goal := Expected(KindIn(w.desk.state.core, t), batch, t);
    CourseOverRun(disk, w, l, inputs, last, batch, t, goal);
    StepOnCourse(disk, Run(disk, w, inputs).world, Audit(l, Run(disk, w, inputs).notes), last, batch, t, goal);
  }

  /** The step takes up this batch: a live one delivered with no walk on, a walk's page
      answered, or one a walk held back, in its turn. */
  predicate TakesUp(w: World, i: Input, batch: Batch, now: nat) {
    match i
    case Deliver(feed, at) => w.loop.Listening? && w.walk.NotWalking? && feed == Vcc(batch) && at == now
    case WalkStep(a, at, _) =>
      w.loop.Listening? && w.walk.Walking? && w.walk.at.Asking? && a == PageIs(Some(batch)) && at == now
    case LoopStep(_, at, _) => w.loop == Draining(None) && w.heldBack != [] && w.heldBack[0] == Vcc(batch) && at == now
    case _ => false
  }

  /** What is taken up is folded whole, from its removals on. */
  lemma TakenUpIsFolded(disk: Disk, w: World, l: Ledger, i: Input, batch: Batch, now: nat)
    requires Kept(w, l) && TakesUp(w, i, batch, now)
    ensures var w' := Step(disk, w, i).world;
      Folding(w') == Some(Job(batch, now, Removing, true)) && w'.desk == w.desk
  {
  }

  /** **A complete fold is a durable fold.** From the step that takes up a live batch, a
      walk's page or a held-back batch, through any answers of the node (a block served,
      stood in for by the sink's score or not readable), any failing writes and any
      interleaving of the fold's sections with watches, lookups, deliveries, scores and
      ticks, until the step that ends it: if it ends complete, or the step moves or
      releases the cursor, then each txid watched all along has on disk exactly the
      chain's word, unless a drop of it failed meanwhile (which hides its acceptance from
      removals). */
  lemma CompleteMeansDurable(disk: Disk, w: World, l: Ledger, start: Input, inputs: seq<Input>, last: Input, batch: Batch, now: nat, t: Txid)
    requires Kept(w, l) && Indexed(w.desk.state.core, Some(t)) && TakesUp(w, start, batch, now)
    requires var w1 := Step(disk, w, start).world;
      && Watching(disk, w1, inputs + [last], t) && DropFailed(t) !in RunMoments(disk, w1, inputs + [last])
      && NoFoldEnds(Run(disk, w1, inputs).notes)
    ensures var out := Step(disk, Run(disk, Step(disk, w, start).world, inputs).world, last);
      && t in w.desk.state.core.records
      && (NoFoldEnds(out.notes) || EndsAt(out, batch, t, Expected(KindIn(w.desk.state.core, t), batch, t)))
  {
    var one := Step(disk, w, start);
    TakenUpIsFolded(disk, w, l, start, batch, now);
    StepKeeps(disk, w, l, start);
    FoldIsDurable(disk, one.world, Audit(l, one.notes), inputs, last, batch, now, t);
  }

  // ---- a fact lost is never forgotten ----

  /** The section answered `a` loses a fact: a write it made failed, or the block of a
      watched acceptance could not be read. */
  predicate LosesFact(disk: Disk, d: Desk, j: Job, a: BlockAnswer) {
    match j.stage
    case Removing => OnRemoved(disk, d.state, j.batch.removed, j.now).failed
    case Reading(todo) => todo != [] && todo[0].watched != [] && ReadBlock(d.state, a).1.None?
    case Accepting(m, got, _) => OnAccepted(disk, d.state, m.block, got.facts, m.watched).failed
    case _ => false
  }

  lemma LostIsIncomplete(disk: Disk, d: Desk, j: Job, a: BlockAnswer)
    requires LosesFact(disk, d, j, a)
    ensures !Section(disk, d, j, a).job.complete && !Section(disk, d, j, a).job.stage.Finished?
  {
  }

  predicate Spoiled(w: World) {
    Folding(w).Some? && !Folding(w).value.complete
  }

  /** A step that ends an incomplete fold: noted incomplete, the cursor held, nothing
      moved or released. */
  predicate Holds(out: Stepped) {
    && out.world.cursor.frozen
    && (forall n :: n in out.notes ==> !Passes(n) && (n.FoldEnded? ==> !n.complete))
  }

  lemma StepSpoiled(disk: Disk, w: World, l: Ledger, i: Input)
    requires Kept(w, l) && Spoiled(w)
    ensures var out := Step(disk, w, i); if NoFoldEnds(out.notes) then Spoiled(out.world) else Holds(out)
  {
    if SectionAnswer(w, i).Some? {
      SectionRuns(disk, w, l, i);
      SectionMarks(disk, w.desk, Folding(w).value, SectionAnswer(w, i).value);
    } else {
      OtherStepFolds(disk, w, i);
    }
  }

  /** As `OtherStepLeaves`, whether or not anything is watched. */
  lemma OtherStepFolds(disk: Disk, w: World, i: Input)
    requires Marks(w) && Folding(w).Some? && SectionAnswer(w, i).None?
    ensures var out := Step(disk, w, i); Folding(out.world) == Folding(w) && NoFoldEnds(out.notes)
  {
  }

  lemma {:induction false} SpoiledOverRun(disk: Disk, w: World, l: Ledger, inputs: seq<Input>)
    requires Kept(w, l) && Spoiled(w) && NoFoldEnds(Run(disk, w, inputs).notes)
    ensures Spoiled(Run(disk, w, inputs).world) && Kept(Run(disk, w, inputs).world, Audit(l, Run(disk, w, inputs).notes))
    decreases |inputs|
  {
    if inputs != [] {
      var one := Step(disk, w, inputs[0]);
      var rest := Run(disk, one.world, inputs[1..]);
      assert forall n :: n in one.notes ==> n in one.notes + rest.notes;
      assert forall n :: n in rest.notes ==> n in one.notes + rest.notes;
      StepKeeps(disk, w, l, inputs[0]);
      StepSpoiled(disk, w, l, inputs[0]);
      SpoiledOverRun(disk, one.world, Audit(l, one.notes), inputs[1..]);
      AuditSplit(l, one.notes, rest.notes);
    }
  }

  /** **A lost fact holds the cursor.** If any section of a fold loses a fact, by a
      failed write or by a block it could not read for a watched acceptance, then
      however the run goes on, the step that ends the fold notes it incomplete,
      neither moves nor releases the cursor, and leaves it held. */
  lemma LostFactHoldsTheCursor(disk: Disk, w: World, l: Ledger, i: Input, inputs: seq<Input>, last: Input)
    requires Kept(w, l) && Folding(w).Some? && SectionAnswer(w, i).Some?
    requires LosesFact(disk, w.desk, Folding(w).value, SectionAnswer(w, i).value)
    requires NoFoldEnds(Run(disk, Step(disk, w, i).world, inputs).notes)
    ensures NoFoldEnds(Step(disk, w, i).notes)
    ensures var out := Step(disk, Run(disk, Step(disk, w, i).world, inputs).world, last);
      NoFoldEnds(out.notes) || Holds(out)
  {
    var one := Step(disk, w, i);
    SectionRuns(disk, w, l, i);
    LostIsIncomplete(disk, w.desk, Folding(w).value, SectionAnswer(w, i).value);
    StepKeeps(disk, w, l, i);
    SpoiledOverRun(disk, one.world, Audit(l, one.notes), inputs);
    StepSpoiled(disk, Run(disk, one.world, inputs).world, Audit(Audit(l, one.notes), Run(disk, one.world, inputs).notes), last);
  }
}

/** A held cursor heals (`run`, `catch_up` and `release_cursor` in
    `rust/chain/src/acceptance.rs`). */
module HoldRuns {
  // `CursorRuns` says that a hold ends only lawfully; here, that it ends: from every
  // reachable state with the cursor held and the loop idle, a tick's walk whose page
  // reaches the tip, with its blocks served and its writes landing, releases it.

  import opened Bytes
  import opened WatchLog
  import opened ChainBatch
  import opened Tracker
  import opened MessageWalk
  import opened TrackerLoop
  import opened CursorRuns
  import opened LoopMeans

  /** At most this many sections are left of a fold. */
  function SectionsLeft(j: Job): nat {
    match j.stage
    case Removing => 3 * |j.batch.accepted| + 4
    case Adding => 3 * |j.batch.accepted| + 3
    case Matching => 3 * |j.batch.accepted| + 2
    case Reading(todo) => 3 * |todo| + 1
    case Resolving(_, _, todo) => 3 * |todo| + 3
    case Accepting(_, _, todo) => 3 * |todo| + 2
    case Finished(_) => 0
  }

  lemma {:induction false} MatchesAreNoMore(ns: seq<Naming>, watched: set<Txid>, interest: seq<Txid>)
    ensures |MatchAll(ns, watched, interest)| <= |ns|
    decreases |ns|
  {
    if ns != [] {
      MatchesAreNoMore(ns[1..], watched, interest);
    }
  }

  /** Each section brings the fold nearer its end, whatever it is answered. */
  lemma SectionsProgress(disk: Disk, d: Desk, j: Job, a: BlockAnswer)
    requires !j.stage.Finished?
    ensures SectionsLeft(Section(disk, d, j, a).job) < SectionsLeft(j)
  {
    if j.stage.Matching? {
      MatchesAreNoMore(j.batch.accepted, d.state.core.records.Keys, d.interest);
    }
  }

  /** Served and landing, a section loses nothing. */
  lemma SectionLosesNothing(disk: Disk, d: Desk, j: Job, a: BlockAnswer)
    requires (forall n :: disk(n)) && a.Served?
    ensures Section(disk, d, j, a).job.complete == j.complete
  {
    match j.stage
    case Removing => RemovesAllWhenItLands(disk, From(d.state.core), j.batch.removed, j.now);
    case Accepting(m, got, _) => LandsMeansNoFailure(disk, From(d.state.core), m.block, got.facts, m.watched);
    case _ =>
  }

  function PageSteps(answers: seq<BlockAnswer>, now: nat, ok: bool): seq<Input> {
    if answers == [] then [] else [WalkStep(BlockIs(answers[0]), now, ok)] + PageSteps(answers[1..], now, ok)
  }

  /** The walk is over, its last page folded, and the hold with it. */
  predicate Healed(w: World, end: World, notes: seq<Note>, batch: Batch, ok: bool) {
    && !end.cursor.frozen && !end.desk.state.depthHeld && end.walk.NotWalking? && end.loop == Draining(None)
    && end.cursor.file == (if Last(batch.added).Some? && ok then Last(batch.added) else w.cursor.file)
    && Released(false) in notes
  }

  lemma LastPageHeals(w: World, j: Job, at: Block, page: nat, now: nat, ok: bool)
    requires Marks(w) && w.walk.Walking? && w.loop.Listening? && j.complete && IsTip(j.batch) && w.cursor.frozen
    ensures var out := PageFolded(w, j, at, page, true, now, ok); Healed(w, out.world, out.notes, j.batch, ok)
  {
    PageNotesAre(w, j, at, page, true, now, ok);
    var notes := PageNotes(w, j, at, page, true, now, ok);
    assert notes[|notes| - 1] == Released(false);
  }

  /** A complete page at the tip, under way. */
  predicate AtTheTip(w: World) {
    && w.loop.Listening? && w.walk.Walking? && w.walk.at.Paging? && w.walk.at.clean && w.cursor.frozen
    && w.walk.at.job.complete && IsTip(w.walk.at.job.batch) && !w.walk.at.job.stage.Finished?
  }

  /** One of its sections, served and landing: the page ends and heals, or is nearer its
      end. */
  lemma SectionHeals(disk: Disk, w: World, l: Ledger, a: BlockAnswer, now: nat, ok: bool)
    requires Kept(w, l) && AtTheTip(w) && (forall n :: disk(n)) && a.Served?
    ensures var one := Step(disk, w, WalkStep(BlockIs(a), now, ok)); var batch := w.walk.at.job.batch;
      || Healed(w, one.world, one.notes, batch, ok)
      || (AtTheTip(one.world) && one.world.walk.at.job.batch == batch && one.world.cursor == w.cursor
          && SectionsLeft(one.world.walk.at.job) < SectionsLeft(w.walk.at.job))
  {
    var Paging(j, c, page, clean) := w.walk.at;
    var ran := Section(disk, w.desk, j, a);
    SectionsProgress(disk, w.desk, j, a);
    SectionLosesNothing(disk, w.desk, j, a);
    SectionMarks(disk, w.desk, j, a);
    if ran.job.stage.Finished? {
      LastPageHeals(w.(desk := ran.desk, walk := Walking(Paging(ran.job, c, page, clean))), ran.job, c, page, now, ok);
    }
  }

  /** However its blocks are served, it comes to its end and the hold with it. */
  lemma {:induction false} PageHeals(disk: Disk, w: World, l: Ledger, answers: seq<BlockAnswer>, now: nat, ok: bool) returns (k: nat)
    requires Kept(w, l) && AtTheTip(w)
    requires (forall n :: disk(n)) && AllServed(answers) && |answers| >= SectionsLeft(w.walk.at.job)
    ensures k <= |answers|
    ensures var out := Run(disk, w, PageSteps(answers[..k], now, ok)); Healed(w, out.world, out.notes, w.walk.at.job.batch, ok)
    decreases SectionsLeft(w.walk.at.job)
  {
    var a, batch := answers[0], w.walk.at.job.batch;
    var one := Step(disk, w, WalkStep(BlockIs(a), now, ok));
    SectionHeals(disk, w, l, a, now, ok);
    if Healed(w, one.world, one.notes, batch, ok) {
      k := 1;
      HealsNow(disk, w, answers, now, ok);
    } else {
      StepKeeps(disk, w, l, WalkStep(BlockIs(a), now, ok));
      var rest := PageHeals(disk, one.world, Audit(l, one.notes), answers[1..], now, ok);
      k := rest + 1;
      HealsLater(disk, w, answers, rest, now, ok, batch);
    }
  }

  lemma HealsNow(disk: Disk, w: World, answers: seq<BlockAnswer>, now: nat, ok: bool)
    requires answers != []
    ensures var one := Step(disk, w, WalkStep(BlockIs(answers[0]), now, ok)); var out := Run(disk, w, PageSteps(answers[..1], now, ok));
      out.world == one.world && out.notes == one.notes
  {
    assert answers[..1] == [answers[0]];
    OneStep(disk, w, answers[0], now, ok);
  }

  lemma HealsLater(disk: Disk, w: World, answers: seq<BlockAnswer>, rest: nat, now: nat, ok: bool, batch: Batch)
    requires answers != [] && rest <= |answers[1..]|
    requires var w1 := Step(disk, w, WalkStep(BlockIs(answers[0]), now, ok)).world;
      var more := Run(disk, w1, PageSteps(answers[1..][..rest], now, ok));
      Healed(w1, more.world, more.notes, batch, ok) && w1.cursor.file == w.cursor.file
    ensures var out := Run(disk, w, PageSteps(answers[..rest + 1], now, ok)); Healed(w, out.world, out.notes, batch, ok)
  {
    var one := Step(disk, w, WalkStep(BlockIs(answers[0]), now, ok));
    assert answers[..rest + 1] == [answers[0]] + answers[1..][..rest];
    StepsMore(disk, w, answers[0], answers[1..][..rest], now, ok);
    HealedLater(w, one.world, one.notes, Run(disk, one.world, PageSteps(answers[1..][..rest], now, ok)), batch, ok);
  }

  lemma OneStep(disk: Disk, w: World, a: BlockAnswer, now: nat, ok: bool)
    ensures var one := Step(disk, w, WalkStep(BlockIs(a), now, ok)); var out := Run(disk, w, PageSteps([a], now, ok));
      out.world == one.world && out.notes == one.notes
  {
    StepsMore(disk, w, a, [], now, ok);
    var one := Step(disk, w, WalkStep(BlockIs(a), now, ok));
    assert [a] + [] == [a];
    assert one.notes + [] == one.notes;
  }

  lemma StepsMore(disk: Disk, w: World, a: BlockAnswer, rest: seq<BlockAnswer>, now: nat, ok: bool)
    ensures var one := Step(disk, w, WalkStep(BlockIs(a), now, ok)); var more := Run(disk, one.world, PageSteps(rest, now, ok));
      var out := Run(disk, w, PageSteps([a] + rest, now, ok));
      out.world == more.world && out.notes == one.notes + more.notes
  {
    assert ([a] + rest)[1..] == rest;
    var i := WalkStep(BlockIs(a), now, ok);
    assert PageSteps([a] + rest, now, ok) == [i] + PageSteps(rest, now, ok);
    assert ([i] + PageSteps(rest, now, ok))[1..] == PageSteps(rest, now, ok);
  }

  lemma HealedLater(w: World, w1: World, notes: seq<Note>, more: Stepped, batch: Batch, ok: bool)
    requires Healed(w1, more.world, more.notes, batch, ok) && w1.cursor.file == w.cursor.file
    ensures Healed(w, more.world, notes + more.notes, batch, ok)
  {
  }

  /** The steps from a tick that heals to the page its walk is served. */
  function HealSteps(batch: Batch, order: seq<Txid>, answers: seq<BlockAnswer>, now: nat, ok: bool): seq<Input> {
    [TickNow(now, order, true), WalkStep(NoAnswer, now, ok), WalkStep(PageIs(Some(batch)), now, ok)] + PageSteps(answers, now, ok)
  }

  lemma TickStartsAWalk(disk: Disk, w: World, order: seq<Txid>, now: nat)
    requires w.loop.Listening? && w.walk.NotWalking? && w.cursor.frozen
    ensures var out := Step(disk, w, TickNow(now, order, true));
      out.world.walk == Walking(Starting) && out.world.loop.Listening? && out.world.cursor == w.cursor
  {
  }

  lemma WalkAsksFirst(disk: Disk, w: World, c: Block, batch: Batch, now: nat, ok: bool)
    requires w.loop.Listening? && w.walk == Walking(Starting) && w.cursor.file == Some(c)
    ensures var w1 := Step(disk, w, WalkStep(NoAnswer, now, ok)).world;
      var w2 := Step(disk, w1, WalkStep(PageIs(Some(batch)), now, ok)).world;
      w2 == w.(walk := Walking(Paging(Job(batch, now, Removing, true), c, 0, true)))
  {
  }

  lemma RunThree(disk: Disk, w: World, a: Input, b: Input, c: Input, rest: seq<Input>)
    ensures var w1 := Step(disk, w, a); var w2 := Step(disk, w1.world, b); var w3 := Step(disk, w2.world, c);
      var more := Run(disk, w3.world, rest); var out := Run(disk, w, [a, b, c] + rest);
      out.world == more.world && out.notes == w1.notes + (w2.notes + (w3.notes + more.notes))
  {
    var w1 := Step(disk, w, a);
    var w2 := Step(disk, w1.world, b);
    assert ([a, b, c] + rest)[1..] == [b, c] + rest && ([b, c] + rest)[1..] == [c] + rest && ([c] + rest)[1..] == rest;
    assert Run(disk, w2.world, [c] + rest).world == Run(disk, Step(disk, w2.world, c).world, rest).world;
    assert Run(disk, w1.world, [b, c] + rest).world == Run(disk, w2.world, [c] + rest).world;
  }

  /** **A held cursor heals.** From every reachable state with the cursor held, a cursor
      on disk and the loop idle, a due tick begins a walk; when the node answers it with a
      page that reaches the tip and serves each block the fold asks for, and writes land,
      the hold is released within so many steps, the cursor at the page's last block. */
  lemma HeldCursorHeals(disk: Disk, w: World, l: Ledger, c: Block, batch: Batch, order: seq<Txid>, answers: seq<BlockAnswer>, now: nat, ok: bool)
    returns (k: nat)
    requires Kept(w, l) && w.loop.Listening? && w.walk.NotWalking? && w.cursor.frozen && w.cursor.file == Some(c)
    requires (forall n :: disk(n)) && AllServed(answers) && IsTip(batch) && |answers| >= 3 * |batch.accepted| + 4
    ensures k <= |answers|
    ensures var out := Run(disk, w, HealSteps(batch, order, answers[..k], now, ok)); Healed(w, out.world, out.notes, batch, ok)
  {
    var tick, start, page := TickNow(now, order, true), WalkStep(NoAnswer, now, ok), WalkStep(PageIs(Some(batch)), now, ok);
    var w1 := Step(disk, w, tick);
    var w2 := Step(disk, w1.world, start);
    var w3 := Step(disk, w2.world, page);
    var l3 := PageBegins(disk, w, l, c, batch, order, now, ok);
    k := PageHeals(disk, w3.world, l3, answers, now, ok);
    var more := Run(disk, w3.world, PageSteps(answers[..k], now, ok));
    RunThree(disk, w, tick, start, page, PageSteps(answers[..k], now, ok));
    HealedLater(w, w3.world, w1.notes + (w2.notes + w3.notes), more, batch, ok);
    Notes4(w1.notes, w2.notes, w3.notes, more.notes);
  }

  lemma Notes4(a: seq<Note>, b: seq<Note>, c: seq<Note>, d: seq<Note>)
    ensures a + (b + c) + d == a + (b + (c + d))
  {
  }

  /** The tick, the walk's start and its first page, taken up. */
  lemma PageBegins(disk: Disk, w: World, l: Ledger, c: Block, batch: Batch, order: seq<Txid>, now: nat, ok: bool) returns (l3: Ledger)
    requires Kept(w, l) && w.loop.Listening? && w.walk.NotWalking? && w.cursor.frozen && w.cursor.file == Some(c) && IsTip(batch)
    ensures var w1 := Step(disk, w, TickNow(now, order, true)).world;
      var w3 := Step(disk, Step(disk, w1, WalkStep(NoAnswer, now, ok)).world, WalkStep(PageIs(Some(batch)), now, ok)).world;
      && Kept(w3, l3) && AtTheTip(w3) && w3.walk.at.job == Job(batch, now, Removing, true) && w3.cursor == w.cursor
  {
    var tick, start, page := TickNow(now, order, true), WalkStep(NoAnswer, now, ok), WalkStep(PageIs(Some(batch)), now, ok);
    var one := Step(disk, w, tick);
    TickStartsAWalk(disk, w, order, now);
    StepKeeps(disk, w, l, tick);
    var two := Step(disk, one.world, start);
    StepKeeps(disk, one.world, Audit(l, one.notes), start);
    StepKeeps(disk, two.world, Audit(Audit(l, one.notes), two.notes), page);
    l3 := Audit(Audit(Audit(l, one.notes), two.notes), Step(disk, two.world, page).notes);
    WalkAsksFirst(disk, one.world, c, batch, now, ok);
  }
}

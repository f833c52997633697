/** A walk beside the live feed (`fold_ahead` and `run` in
    `rust/chain/src/acceptance.rs`): however its pages' sections interleave with
    deliveries, read-aheads, scores and ticks, what is persisted when the walk and
    its drain are over is what folding the pages first and the held-back feeds
    after them, in arrival order, would have persisted. */
module SerialRuns {
  import opened Bytes
  import opened WatchLog
  import opened ChainBatch
  import opened Tracker
  import opened MessageWalk
  import opened TrackerLoop

  /** What reading each block gives: its own facts, the sink's score in their place,
      or nothing. */
  type Chain = Block -> Option<Facts>

  // ---- folding on the persisted half alone ----

  function NamingOut(disk: Disk, chain: Chain, out: BatchOut, b: Block, ts: seq<Txid>): BatchOut {
    if ts == [] then out
    else
      match chain(b)
      case None => out.(complete := false)
      case Some(f) =>
        var folded := AcceptAll(disk, From(out.core), b, f, ts);
        BatchOut(folded.core, out.complete && !folded.failed)
  }

  function NamingsOut(disk: Disk, chain: Chain, out: BatchOut, ns: seq<Naming>, watched: set<Txid>): BatchOut
    decreases |ns|
  {
    if ns == [] then out
    else NamingsOut(disk, chain, NamingOut(disk, chain, out, ns[0].block, Among(ns[0].txids, watched)), ns[1..], watched)
  }

  function MatchesOut(disk: Disk, chain: Chain, out: BatchOut, ms: seq<Match>): BatchOut
    decreases |ms|
  {
    if ms == [] then out else MatchesOut(disk, chain, NamingOut(disk, chain, out, ms[0].block, ms[0].watched), ms[1..])
  }

  function AddedCore(c: Core, bs: seq<Block>): Core {
    c.(offChain := AddedAll(c.offChain, bs))
  }

  /** What a fold still in progress will come to, undisturbed: the persisted half
      and whether it is complete. */
  function Finish(disk: Disk, chain: Chain, c: Core, j: Job): BatchOut {
    var out := BatchOut(c, j.complete);
    match j.stage
    case Removing =>
      var removed := RemoveAll(disk, From(c), j.batch.removed, j.now);
      var c1 := AddedCore(removed.core, j.batch.added);
      NamingsOut(disk, chain, BatchOut(c1, j.complete && !removed.failed), j.batch.accepted, c1.records.Keys)
    case Adding =>
      var c1 := AddedCore(c, j.batch.added);
      NamingsOut(disk, chain, out.(core := c1), j.batch.accepted, c1.records.Keys)
    case Matching => NamingsOut(disk, chain, out, j.batch.accepted, c.records.Keys)
    case Reading(todo) => MatchesOut(disk, chain, out, todo)
    case Resolving(m, got, todo) => MatchesOut(disk, chain, NamingOut(disk, chain, out, m.block, m.watched), todo)
    case Accepting(m, got, todo) => MatchesOut(disk, chain, NamingOut(disk, chain, out, m.block, m.watched), todo)
    case Finished(_) => out
  }

  /** A batch or a message page folded whole, at one moment. */
  datatype Stamped = Stamped(feed: Feed, now: nat)

  function Bare(c: Core): State {
    State(c, {}, {}, {}, 0, false, false, map[])
  }

  function ChainAnswers(chain: Chain, ns: seq<Naming>): seq<Option<Facts>>
    ensures |ChainAnswers(chain, ns)| == |ns|
  {
    if ns == [] then [] else [chain(ns[0].block)] + ChainAnswers(chain, ns[1..])
  }

  function FoldFeed(disk: Disk, chain: Chain, c: Core, f: Stamped): Core {
    match f.feed
    case Vcc(batch) => FoldCore(disk, c, batch, f.now, ChainAnswers(chain, batch.accepted)).core
    case Message(page) => WalkBlocks(disk, Bare(c), page.accepted).state.core
  }

  function FoldFeeds(disk: Disk, chain: Chain, c: Core, fs: seq<Stamped>): Core
    decreases |fs|
  {
    if fs == [] then c else FoldFeeds(disk, chain, FoldFeed(disk, chain, c, fs[0]), fs[1..])
  }

  lemma {:induction false} FoldFeedsSplit(disk: Disk, chain: Chain, c: Core, a: seq<Stamped>, b: seq<Stamped>)
    ensures FoldFeeds(disk, chain, c, a + b) == FoldFeeds(disk, chain, FoldFeeds(disk, chain, c, a), b)
    decreases |a|
  {
    if a == [] {
      assert a + b == b;
    } else {
      assert (a + b)[0] == a[0] && (a + b)[1..] == a[1..] + b;
      FoldFeedsSplit(disk, chain, FoldFeed(disk, chain, c, a[0]), a[1..], b);
    }
  }

  lemma FoldOneMore(disk: Disk, chain: Chain, c: Core, a: seq<Stamped>, f: Stamped)
    ensures FoldFeeds(disk, chain, c, a + [f]) == FoldFeed(disk, chain, FoldFeeds(disk, chain, c, a), f)
  {
    FoldFeedsSplit(disk, chain, c, a, [f]);
    assert [f][1..] == [];
  }

  // ---- a fold begun is a fold whole ----

  lemma {:induction false} NamingsOutIsFold(disk: Disk, chain: Chain, out: BatchOut, ns: seq<Naming>, watched: set<Txid>)
    ensures NamingsOut(disk, chain, out, ns, watched) == FoldNamings(disk, out, ns, watched, ChainAnswers(chain, ns))
    decreases |ns|
  {
    if ns != [] {
      assert ChainAnswers(chain, ns)[1..] == ChainAnswers(chain, ns[1..]);
      NamingsOutIsFold(disk, chain, FoldNaming(disk, out, ns[0], watched, chain(ns[0].block)), ns[1..], watched);
    }
  }

  lemma BegunIsWhole(disk: Disk, chain: Chain, c: Core, batch: Batch, now: nat)
    ensures Finish(disk, chain, c, Job(batch, now, Removing, true))
         == FoldCore(disk, c, batch, now, ChainAnswers(chain, batch.accepted))
  {
    var removed := AfterRemovals(disk, c, batch, now);
    NamingsOutIsFold(disk, chain, BatchOut(removed.core, !removed.failed), batch.accepted, removed.core.records.Keys);
  }

  // ---- each section moves towards the same end ----

  function FactsRead(s: State, a: BlockAnswer): Option<Facts> {
    match ReadBlock(s, a).1 { case Some(got) => Some(got.facts) case None => None }
  }

  /** The block a section asks for, if it asks, reads as `chain` has it. */
  predicate TrueAnswer(chain: Chain, s: State, j: Job, a: BlockAnswer) {
    j.stage.Reading? && j.stage.todo != [] ==> FactsRead(s, a) == chain(j.stage.todo[0].block)
  }

  /** The facts in hand are those. */
  predicate TrueJob(chain: Chain, j: Job) {
    match j.stage
    case Resolving(m, got, _) => chain(m.block) == Some(got.facts)
    case Accepting(m, got, _) => chain(m.block) == Some(got.facts)
    case _ => true
  }

  lemma {:induction false} MatchesAreNamings(disk: Disk, chain: Chain, out: BatchOut, ns: seq<Naming>, watched: set<Txid>, interest: seq<Txid>)
    ensures MatchesOut(disk, chain, out, MatchAll(ns, watched, interest)) == NamingsOut(disk, chain, out, ns, watched)
    decreases |ns|
  {
    if ns != [] {
      var m := Match(ns[0].block, Among(ns[0].txids, watched), Among(ns[0].txids, Members(interest)));
      var rest := MatchAll(ns[1..], watched, interest);
      MatchesAreNamings(disk, chain, NamingOut(disk, chain, out, m.block, m.watched), ns[1..], watched, interest);
      if m.watched != [] || m.wanted != [] {
        assert ([m] + rest)[0] == m && ([m] + rest)[1..] == rest;
      } else {
        assert [] + rest == rest;
      }
    }
  }

  /** **One section.** However each block reads, so long as it reads alike each
      time, and whatever the lookups queued: a section leaves the fold's end as it
      was, failed writes and unread blocks and all. */
  lemma SectionConverges(disk: Disk, chain: Chain, d: Desk, j: Job, a: BlockAnswer)
    requires TrueAnswer(chain, d.state, j, a) && TrueJob(chain, j)
    ensures var ran := Section(disk, d, j, a);
      && TrueJob(chain, ran.job)
      && Finish(disk, chain, ran.desk.state.core, ran.job) == Finish(disk, chain, d.state.core, j)
  {
    match j.stage
    case Removing =>
    case Adding =>
    case Matching =>
      MatchesAreNamings(disk, chain, BatchOut(d.state.core, j.complete), j.batch.accepted, d.state.core.records.Keys, d.interest);
    case Reading(_) =>
    case Resolving(_, _, _) =>
    case Accepting(_, _, _) =>
    case Finished(_) =>
  }

  // ---- a message page sees only the persisted half ----

  lemma WalkAcceptedBare(disk: Disk, s: State, t: Txid, b: Block, f: Facts)
    ensures WalkAccepted(disk, s, t, b, f).state.core == WalkAccepted(disk, Bare(s.core), t, b, f).state.core
  {
  }

  lemma {:induction false} WalkAllBare(disk: Disk, s: State, u: State, ts: seq<Txid>, b: Block, f: Facts)
    requires s.core == u.core
    ensures WalkAll(disk, s, ts, b, f).state.core == WalkAll(disk, u, ts, b, f).state.core
    decreases |ts|
  {
    if ts != [] {
      WalkAcceptedBare(disk, s, ts[0], b, f);
      WalkAcceptedBare(disk, u, ts[0], b, f);
      WalkAllBare(disk, WalkAccepted(disk, s, ts[0], b, f).state, WalkAccepted(disk, u, ts[0], b, f).state, ts[1..], b, f);
    }
  }

  lemma {:induction false} WalkBlocksBare(disk: Disk, s: State, u: State, accepted: seq<WalkAcceptance>)
    requires s.core == u.core
    ensures WalkBlocks(disk, s, accepted).state.core == WalkBlocks(disk, u, accepted).state.core
    decreases |accepted|
  {
    if accepted != [] {
      var a := accepted[0];
      WalkAllBare(disk, s, u, a.txids, a.block, a.facts);
      WalkBlocksBare(disk, WalkAll(disk, s, a.txids, a.block, a.facts).state, WalkAll(disk, u, a.txids, a.block, a.facts).state, accepted[1..]);
    }
  }

  // ---- the history of one walk ----

  /** `pages` and `fed` in the order their folds began; `arrived` as delivered. */
  datatype History = History(pages: seq<Stamped>, arrived: seq<Feed>, fed: seq<Stamped>)

  /** What an input adds to the history of a walk in progress. */
  function Record1(h: History, w: World, i: Input): History {
    match i
    case WalkStep(a, now, _) =>
      if w.loop.Listening? && w.walk.Walking? && w.walk.at.Asking? && a.PageIs? && a.batch.Some?
      then h.(pages := h.pages + [Stamped(Vcc(a.batch.value), now)]) else h
    case Deliver(feed, _) =>
      if w.loop.Listening? && w.walk.Walking? then h.(arrived := h.arrived + [feed]) else h
    case LoopStep(_, now, _) =>
      if w.loop == Draining(None) && w.heldBack != [] then h.(fed := h.fed + [Stamped(w.heldBack[0], now)]) else h
    case _ => h
  }

  function Destiny(disk: Disk, chain: Chain, w: World): Core {
    match Folding(w)
    case Some(j) => Finish(disk, chain, w.desk.state.core, j).core
    case None => w.desk.state.core
  }

  function Feeds(fs: seq<Stamped>): seq<Feed> {
    if fs == [] then [] else [fs[0].feed] + Feeds(fs[1..])
  }

  lemma {:induction false} FeedsMore(fs: seq<Stamped>, f: Stamped)
    ensures Feeds(fs + [f]) == Feeds(fs) + [f.feed]
    decreases |fs|
  {
    if fs == [] {
      assert fs + [f] == [f] && [f][1..] == [];
    } else {
      assert (fs + [f])[0] == fs[0] && (fs + [f])[1..] == fs[1..] + [f];
      FeedsMore(fs[1..], f);
    }
  }

  function Awaiting(w: World): seq<Feed> {
    w.heldBack + (match w.loop case ReadingAhead(batch, _) => [Vcc(batch)] case _ => [])
  }

  /** A walk or its drain is under way; the persisted half is on its way to the
      pages-then-feeds fold of what has begun, and nothing delivered is lost. */
  ghost predicate Serial(disk: Disk, chain: Chain, c0: Core, w: World, h: History) {
    && w.desk.state.walking
    && (|| (w.walk.Walking? && (w.loop.Listening? || w.loop.ReadingAhead?) && h.fed == [])
        || (w.walk.NotWalking? && w.loop.Draining?))
    && (Folding(w).Some? ==> TrueJob(chain, Folding(w).value) && !Folding(w).value.stage.Finished?)
    && h.arrived == Feeds(h.fed) + Awaiting(w)
    && Destiny(disk, chain, w) == FoldFeeds(disk, chain, FoldFeeds(disk, chain, c0, h.pages), h.fed)
  }

  /** No watch is added or pruned meanwhile, and a block a fold asks for reads as
      `chain` has it. What a read-ahead is told does not matter. */
  predicate Quiet(chain: Chain, w: World, i: Input) {
    match i
    case WatchCall(_, _, _, _) => false
    case SinkScore(blue, now, order) => Expired(w.desk.state.(sinkBlue := blue), now, order) == []
    case WalkStep(a, _, _) => Folding(w).Some? ==> TrueAnswer(chain, w.desk.state, Folding(w).value, AsBlock(a))
    case LoopStep(a, _, _) => Folding(w).Some? ==> TrueAnswer(chain, w.desk.state, Folding(w).value, AsBlock(a))
    case _ => true
  }

  /** The drain is over: depth may be claimed, or another walk has begun. */
  predicate Over(w: World, i: Input) {
    i.LoopStep? && w.loop == Draining(None) && w.heldBack == []
  }

  lemma AheadTouchesNothing(w: World, batch: Batch, due: seq<Naming>, a: Answer)
    ensures var w' := StepAhead(w, batch, due, a).world;
      && w'.desk.state.core == w.desk.state.core && w'.desk.state.walking == w.desk.state.walking
      && w'.walk == w.walk
      && (due == [] ==> w'.loop == Listening && w'.heldBack == w.heldBack + [Vcc(batch)])
      && (due != [] ==> w'.loop == ReadingAhead(batch, due[1..]) && w'.heldBack == w.heldBack)
  {
  }

  lemma SerialAhead(disk: Disk, chain: Chain, c0: Core, w: World, h: History, a: Answer, now: nat, ok: bool)
    requires Serial(disk, chain, c0, w, h) && w.loop.ReadingAhead?
    ensures Serial(disk, chain, c0, StepLoop(disk, w, a, now, ok).world, h)
  {
    AheadTouchesNothing(w, w.loop.batch, w.loop.due, a);
    var w' := StepAhead(w, w.loop.batch, w.loop.due, a).world;
    assert Awaiting(w') == Awaiting(w);
  }

  lemma LiveFoldedCore(w: World, j: Job, now: nat, ok: bool)
    ensures var w' := LiveFolded(w, j, now, ok).world;
      && w'.desk.state.core == w.desk.state.core && w'.desk.state.walking == w.desk.state.walking
      && w'.walk == w.walk && w'.loop == w.loop && w'.heldBack == w.heldBack
  {
  }

  lemma SectionKeepsWalking(disk: Disk, d: Desk, j: Job, a: BlockAnswer)
    ensures Section(disk, d, j, a).desk.state.walking == d.state.walking
  {
  }

  lemma SerialDrainSection(disk: Disk, chain: Chain, c0: Core, w: World, h: History, j: Job, a: Answer, now: nat, ok: bool)
    requires Serial(disk, chain, c0, w, h) && w.loop == Draining(Some(j)) && TrueAnswer(chain, w.desk.state, j, AsBlock(a))
    ensures Serial(disk, chain, c0, StepLoop(disk, w, a, now, ok).world, h)
  {
    SectionConverges(disk, chain, w.desk, j, AsBlock(a));
    SectionKeepsWalking(disk, w.desk, j, AsBlock(a));
    var ran := Section(disk, w.desk, j, AsBlock(a));
    LiveFoldedCore(w.(desk := ran.desk).(loop := Draining(None)), ran.job, now, ok);
  }

  /** Taking the next held-back feed: its fold has begun, or is done. */
  lemma DrainNextDestiny(disk: Disk, chain: Chain, w: World, a: Answer, now: nat, ok: bool)
    requires w.loop == Draining(None) && w.heldBack != [] && w.walk.NotWalking?
    ensures var w' := StepLoop(disk, w, a, now, ok).world;
      && Destiny(disk, chain, w') == FoldFeed(disk, chain, w.desk.state.core, Stamped(w.heldBack[0], now))
      && w'.heldBack == w.heldBack[1..] && w'.walk == w.walk && w'.loop.Draining?
      && w'.desk.state.walking == w.desk.state.walking
      && (w'.loop.folding.Some? ==> w'.loop.folding.value.stage.Removing?)
  {
    match w.heldBack[0]
    case Vcc(batch) => BegunIsWhole(disk, chain, w.desk.state.core, batch, now);
    case Message(page) => SerialMessage(disk, w.desk, page, now);
  }

  /** What has arrived is what has been fed and what still waits, one feed further. */
  lemma FedOneMore(h: History, heldBack: seq<Feed>, now: nat)
    requires heldBack != [] && h.arrived == Feeds(h.fed) + heldBack
    ensures h.arrived == Feeds(h.fed + [Stamped(heldBack[0], now)]) + heldBack[1..]
  {
    FeedsMore(h.fed, Stamped(heldBack[0], now));
    assert heldBack == [heldBack[0]] + heldBack[1..];
  }

  lemma SerialDrainNext(disk: Disk, chain: Chain, c0: Core, w: World, h: History, a: Answer, now: nat, ok: bool)
    requires Serial(disk, chain, c0, w, h) && w.loop == Draining(None) && w.heldBack != []
    ensures Serial(disk, chain, c0, StepLoop(disk, w, a, now, ok).world, h.(fed := h.fed + [Stamped(w.heldBack[0], now)]))
  {
    FoldOneMore(disk, chain, FoldFeeds(disk, chain, c0, h.pages), h.fed, Stamped(w.heldBack[0], now));
    DrainNextDestiny(disk, chain, w, a, now, ok);
    var w' := StepLoop(disk, w, a, now, ok).world;
    assert Awaiting(w) == w.heldBack && Awaiting(w') == w.heldBack[1..];
    FedOneMore(h, w.heldBack, now);
  }

  lemma SerialMessage(disk: Disk, d: Desk, page: Page, now: nat)
    ensures var d' := FoldWalk(disk, d, page, now).desk;
      && d'.state.core == WalkBlocks(disk, Bare(d.state.core), page.accepted).state.core
      && d'.state.walking == d.state.walking
  {
    WalkBlocksBare(disk, d.state, Bare(d.state.core), page.accepted);
    WalkBlocksKeepsWalking(disk, d.state, page.accepted);
  }

  lemma {:induction false} WalkAllKeepsWalking(disk: Disk, s: State, ts: seq<Txid>, b: Block, f: Facts)
    ensures WalkAll(disk, s, ts, b, f).state.walking == s.walking
    decreases |ts|
  {
    if ts != [] {
      WalkAllKeepsWalking(disk, WalkAccepted(disk, s, ts[0], b, f).state, ts[1..], b, f);
    }
  }

  lemma {:induction false} WalkBlocksKeepsWalking(disk: Disk, s: State, accepted: seq<WalkAcceptance>)
    ensures WalkBlocks(disk, s, accepted).state.walking == s.walking
    decreases |accepted|
  {
    if accepted != [] {
      WalkAllKeepsWalking(disk, s, accepted[0].txids, accepted[0].block, accepted[0].facts);
      WalkBlocksKeepsWalking(disk, WalkAll(disk, s, accepted[0].txids, accepted[0].block, accepted[0].facts).state, accepted[1..]);
    }
  }

  lemma PageFoldedCore(w: World, j: Job, at: Block, page: nat, clean: bool, now: nat, ok: bool)
    requires w.loop.Listening?
    ensures var w' := PageFolded(w, j, at, page, clean, now, ok).world;
      && w'.desk.state.core == w.desk.state.core && w'.desk.state.walking == w.desk.state.walking
      && w'.heldBack == w.heldBack
      && (|| (w'.walk.NotWalking? && w'.loop == Draining(None))
          || (w'.walk.Walking? && !w'.walk.at.Paging? && w'.loop.Listening?))
  {
  }

  lemma SerialPage(disk: Disk, chain: Chain, c0: Core, w: World, h: History, a: Answer, now: nat, ok: bool)
    requires Serial(disk, chain, c0, w, h) && w.loop.Listening? && w.walk.Walking? && w.walk.at.Paging?
    requires TrueAnswer(chain, w.desk.state, w.walk.at.job, AsBlock(a))
    ensures Serial(disk, chain, c0, StepWalk(disk, w, w.walk.at, a, now, ok).world, h)
  {
    var Paging(j, c, page, clean) := w.walk.at;
    SectionConverges(disk, chain, w.desk, j, AsBlock(a));
    SectionKeepsWalking(disk, w.desk, j, AsBlock(a));
    var ran := Section(disk, w.desk, j, AsBlock(a));
    PageFoldedCore(w.(desk := ran.desk, walk := Walking(Paging(ran.job, c, page, clean))), ran.job, c, page, clean, now, ok);
  }

  lemma SerialSeed(disk: Disk, chain: Chain, c0: Core, w: World, h: History, a: Answer, now: nat, ok: bool)
    requires Serial(disk, chain, c0, w, h) && w.loop.Listening? && w.walk == Walking(Seeding)
    ensures Serial(disk, chain, c0, StepWalk(disk, w, Seeding, a, now, ok).world, h)
  {
  }

  lemma SerialAsk(disk: Disk, chain: Chain, c0: Core, w: World, h: History, a: Answer, now: nat, ok: bool)
    requires Serial(disk, chain, c0, w, h) && w.loop.Listening? && w.walk.Walking? && w.walk.at.Asking?
    ensures Serial(disk, chain, c0, StepWalk(disk, w, w.walk.at, a, now, ok).world, Record1(h, w, WalkStep(a, now, ok)))
  {
    if a.PageIs? && a.batch.Some? {
      FoldOneMore(disk, chain, c0, h.pages, Stamped(Vcc(a.batch.value), now));
      BegunIsWhole(disk, chain, w.desk.state.core, a.batch.value, now);
    }
  }

  lemma SerialWalk(disk: Disk, chain: Chain, c0: Core, w: World, h: History, a: Answer, now: nat, ok: bool)
    requires Serial(disk, chain, c0, w, h) && w.loop.Listening? && w.walk.Walking?
    requires Quiet(chain, w, WalkStep(a, now, ok))
    ensures Serial(disk, chain, c0, StepWalk(disk, w, w.walk.at, a, now, ok).world, Record1(h, w, WalkStep(a, now, ok)))
  {
    match w.walk.at
    case Starting =>
    case Asking(_, _, _) => SerialAsk(disk, chain, c0, w, h, a, now, ok);
    case Paging(_, _, _, _) => SerialPage(disk, chain, c0, w, h, a, now, ok);
    case Seeding => SerialSeed(disk, chain, c0, w, h, a, now, ok);
  }

  lemma SerialSink(disk: Disk, chain: Chain, c0: Core, w: World, h: History, blue: nat, now: nat, order: seq<Txid>)
    requires Serial(disk, chain, c0, w, h) && Quiet(chain, w, SinkScore(blue, now, order))
    ensures Serial(disk, chain, c0, OfState(w, OnSinkBlue(disk, w.desk.state, blue, now, order)).world, h)
  {
    assert OnSinkBlue(disk, w.desk.state, blue, now, order).state == w.desk.state.(sinkBlue := blue);
  }

  lemma SerialTick(disk: Disk, chain: Chain, c0: Core, w: World, h: History, now: nat, order: seq<Txid>, holdWalk: bool)
    requires Serial(disk, chain, c0, w, h) && w.loop.Listening?
    ensures Serial(disk, chain, c0, StepTick(w, now, order, holdWalk).world, h)
  {
    assert StepTick(w, now, order, holdWalk).world == w;
  }

  lemma SerialDeliver(disk: Disk, chain: Chain, c0: Core, w: World, h: History, feed: Feed, now: nat)
    requires Serial(disk, chain, c0, w, h) && w.loop.Listening?
    ensures Serial(disk, chain, c0, StepDeliver(disk, w, feed, now).world, h.(arrived := h.arrived + [feed]))
  {
    var w' := StepDeliver(disk, w, feed, now).world;
    assert Awaiting(w') == Awaiting(w) + [feed];
  }

  lemma SerialListening(disk: Disk, chain: Chain, c0: Core, w: World, h: History, i: Input)
    requires Serial(disk, chain, c0, w, h) && w.loop.Listening? && Quiet(chain, w, i)
    requires !i.LoopStep? && !i.WatchCall? && !i.LookupCall?
    ensures Serial(disk, chain, c0, StepListening(disk, w, i).world, Record1(h, w, i))
  {
    match i
    case Connect =>
    case WalkStep(a, now, ok) => SerialWalk(disk, chain, c0, w, h, a, now, ok);
    case Deliver(feed, now) => SerialDeliver(disk, chain, c0, w, h, feed, now);
    case Prime(_) =>
    case SinkScore(blue, now, order) => SerialSink(disk, chain, c0, w, h, blue, now, order);
    case TickNow(now, order, holdWalk) => SerialTick(disk, chain, c0, w, h, now, order, holdWalk);
  }

  lemma SerialLoop(disk: Disk, chain: Chain, c0: Core, w: World, h: History, a: Answer, now: nat, ok: bool)
    requires Serial(disk, chain, c0, w, h) && Quiet(chain, w, LoopStep(a, now, ok)) && !Over(w, LoopStep(a, now, ok))
    ensures Serial(disk, chain, c0, StepLoop(disk, w, a, now, ok).world, Record1(h, w, LoopStep(a, now, ok)))
  {
    match w.loop
    case Listening =>
    case ReadingAhead(_, _) => SerialAhead(disk, chain, c0, w, h, a, now, ok);
    case Draining(Some(j)) => SerialDrainSection(disk, chain, c0, w, h, j, a, now, ok);
    case Draining(None) => SerialDrainNext(disk, chain, c0, w, h, a, now, ok);
  }

  lemma SerialStep(disk: Disk, chain: Chain, c0: Core, w: World, h: History, i: Input)
    requires Serial(disk, chain, c0, w, h) && Quiet(chain, w, i) && !Over(w, i)
    ensures Serial(disk, chain, c0, Step(disk, w, i).world, Record1(h, w, i))
  {
    match i
    case LookupCall(_) =>
    case LoopStep(a, now, ok) => SerialLoop(disk, chain, c0, w, h, a, now, ok);
    case _ =>
      if w.loop.Listening? {
        SerialListening(disk, chain, c0, w, h, i);
      }
  }

  /** Every input quiet, and none before the last ends the drain. */
  predicate QuietRun(disk: Disk, chain: Chain, w: World, inputs: seq<Input>)
    decreases |inputs|
  {
    inputs == [] ||
    (Quiet(chain, w, inputs[0]) && !Over(w, inputs[0]) && QuietRun(disk, chain, Step(disk, w, inputs[0]).world, inputs[1..]))
  }

  function RecordAll(disk: Disk, h: History, w: World, inputs: seq<Input>): History
    decreases |inputs|
  {
    if inputs == [] then h
    else RecordAll(disk, Record1(h, w, inputs[0]), Step(disk, w, inputs[0]).world, inputs[1..])
  }

  lemma {:induction false} SerialRun(disk: Disk, chain: Chain, c0: Core, w: World, h: History, inputs: seq<Input>)
    requires Serial(disk, chain, c0, w, h) && QuietRun(disk, chain, w, inputs)
    ensures Serial(disk, chain, c0, Run(disk, w, inputs).world, RecordAll(disk, h, w, inputs))
    decreases |inputs|
  {
    if inputs != [] {
      SerialStep(disk, chain, c0, w, h, inputs[0]);
      SerialRun(disk, chain, c0, Step(disk, w, inputs[0]).world, Record1(h, w, inputs[0]), inputs[1..]);
    }
  }

  /** **The walk and the feed are serial.** From the moment a walk begins, for every
      interleaving of its pages' sections with deliveries, read-aheads, scores,
      ticks and lookups, and with any writes failing: at the step that ends its
      drain, the records, the index, the off-chain set and every failed write are
      those of folding all the walk's pages first and then each feed delivered
      meanwhile, in arrival order. */
  lemma WalkThenFeeds(disk: Disk, chain: Chain, w: World, inputs: seq<Input>, last: Input)
    requires w.loop.Listening? && w.walk.NotWalking? && w.heldBack == []
    requires var begun := Begin(w);
      QuietRun(disk, chain, begun, inputs) && Over(Run(disk, begun, inputs).world, last)
    ensures var begun := Begin(w);
      var h := RecordAll(disk, History([], [], []), begun, inputs);
      var done := Step(disk, Run(disk, begun, inputs).world, last).world;
      && Feeds(h.fed) == h.arrived
      && done.desk.state.core == FoldFeeds(disk, chain, FoldFeeds(disk, chain, w.desk.state.core, h.pages), h.fed)
  {
    var begun := Begin(w);
    var none := History([], [], []);
    assert Serial(disk, chain, w.desk.state.core, begun, none);
    SerialRun(disk, chain, w.desk.state.core, begun, none, inputs);
    var end := Run(disk, begun, inputs).world;
    DrainedCore(end);
    assert Feeds(RecordAll(disk, none, begun, inputs).fed) + [] == Feeds(RecordAll(disk, none, begun, inputs).fed);
  }

  lemma DrainedCore(w: World)
    ensures Drained(w).world.desk.state.core == w.desk.state.core
  {
  }
}

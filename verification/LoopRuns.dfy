/** The event loop asks nothing of the tracker's state but the operations of
    `Tracker.Op`: each step of `TrackerLoop` is a sequence of them, with the same
    events, so what every sequence of operations keeps, every run of the loop keeps. */
module LoopRuns {
  import opened Bytes
  import opened WatchLog
  import opened ChainBatch
  import opened Tracker
  import opened MessageWalk
  import opened IndexRuns
  import opened TrackerLoop

  // ---- the operations of a step ----

  function SectionOps(d: Desk, j: Job, a: BlockAnswer): seq<Op> {
    match j.stage
    case Removing => if j.batch.removed == [] then [] else [RemovedOp(j.batch.removed, j.now)]
    case Adding => [AddedOp(j.batch.added)]
    case Reading(todo) => if todo == [] then [] else [PrimeOp(ReadBlock(d.state, a).0.sinkBlue)]
    case Accepting(m, got, _) => [AcceptedOp(m.block, got.facts, m.watched)]
    case _ => []
  }

  function WalkOps(ts: seq<Txid>, b: Block, f: Facts): seq<Op> {
    if ts == [] then [] else [WalkOp(ts[0], b, f)] + WalkOps(ts[1..], b, f)
  }

  function PageOps(accepted: seq<WalkAcceptance>): seq<Op> {
    if accepted == [] then []
    else WalkOps(accepted[0].txids, accepted[0].block, accepted[0].facts) + PageOps(accepted[1..])
  }

  function AheadOps(ts: seq<Txid>, b: Block, f: Facts): seq<Op> {
    if ts == [] then [] else [AheadOp(ts[0], b, f)] + AheadOps(ts[1..], b, f)
  }

  function ReadAheadOps(s: State, due: seq<Naming>, a: BlockAnswer): seq<Op> {
    if due == [] then []
    else
      var (s1, got) := ReadBlock(s, a);
      [PrimeOp(s1.sinkBlue)] + (if got.Some? then AheadOps(due[0].txids, due[0].block, got.value.facts) else [])
  }

  function LoopOps(w: World, a: Answer): seq<Op> {
    match w.loop
    case Listening => []
    case FoldingLive(j) => SectionOps(w.desk, j, AsBlock(a))
    case ReadingAhead(_, due) => ReadAheadOps(w.desk.state, due, AsBlock(a))
    case Draining(Some(j)) => SectionOps(w.desk, j, AsBlock(a))
    case Draining(None) =>
      if w.heldBack == [] then [ForgetAheadOp]
      else match w.heldBack[0] { case Vcc(_) => [] case Message(page) => PageOps(page.accepted) }
  }

  function WatchOps(d: Desk, t: Txid, source: Source, now: nat, order: seq<Txid>): seq<Op> {
    if t in d.state.core.records then []
    else if source == Transport && t in d.memory.known then [RememberedOp(t, source, now, d.memory.known[t], order)]
    else [WatchOp(t, source, now, order)]
  }

  function ListeningOps(w: World, i: Input): seq<Op> {
    match i
    case WalkStep(a, _, _) =>
      if w.walk.Walking? && w.walk.at.Paging? then SectionOps(w.desk, w.walk.at.job, AsBlock(a)) else []
    case Deliver(feed, _) => if feed.Message? && w.walk.NotWalking? then PageOps(feed.page.accepted) else []
    case Prime(blue) => [PrimeOp(blue)]
    case SinkScore(blue, now, order) => [SinkOp(blue, now, order)]
    case TickNow(now, order, holdWalk) =>
      [MarksOp(w.desk.state.depthHeld, TickBegins(w, holdWalk).desk.state.walking), TickOp(now, order)]
    case _ => []
  }

  function InputOps(w: World, i: Input): seq<Op> {
    match i
    case WatchCall(t, source, now, order) => WatchOps(w.desk, t, source, now, order)
    case LookupCall(_) => []
    case LoopStep(a, _, _) => LoopOps(w, a)
    case _ => if w.loop.Listening? then ListeningOps(w, i) else []
  }

  /** A step ends with the two marks where it leaves them. */
  function StepOps(disk: Disk, w: World, i: Input): seq<Op> {
    var s' := Step(disk, w, i).world.desk.state;
    InputOps(w, i) + [MarksOp(s'.depthHeld, s'.walking)]
  }

  function RunOps(disk: Disk, w: World, inputs: seq<Input>): seq<Op>
    decreases |inputs|
  {
    if inputs == [] then [] else StepOps(disk, w, inputs[0]) + RunOps(disk, Step(disk, w, inputs[0]).world, inputs[1..])
  }

  /** What an observer of a run sees of the log: its events, records leaving it and
      drops whose write failed. */
  function RunMoments(disk: Disk, w: World, inputs: seq<Input>): seq<Moment> {
    Play(disk, w.desk.state, RunOps(disk, w, inputs)).1
  }

  // ---- the same events ----

  function Seen(ms: seq<Moment>): seq<Event> {
    if ms == [] then [] else (if ms[0].Emitted? then [ms[0].event] else []) + Seen(ms[1..])
  }

  /** The events about watches: all but the sender lookups' answers. */
  function Told(events: seq<Event>): seq<Event> {
    if events == [] then []
    else (if events[0].SenderResolvable? then [] else [events[0]]) + Told(events[1..])
  }

  lemma {:induction false} SeenSplit(a: seq<Moment>, b: seq<Moment>)
    ensures Seen(a + b) == Seen(a) + Seen(b)
    decreases |a|
  {
    if a == [] {
      assert a + b == b;
    } else {
      assert (a + b)[0] == a[0] && (a + b)[1..] == a[1..] + b;
      SeenSplit(a[1..], b);
    }
  }

  lemma {:induction false} ToldSplit(a: seq<Event>, b: seq<Event>)
    ensures Told(a + b) == Told(a) + Told(b)
    decreases |a|
  {
    if a == [] {
      assert a + b == b;
    } else {
      assert (a + b)[0] == a[0] && (a + b)[1..] == a[1..] + b;
      ToldSplit(a[1..], b);
    }
  }

  lemma {:induction false} SeenEmissions(events: seq<Event>)
    ensures Seen(Emissions(events)) == events
    decreases |events|
  {
    if events != [] {
      assert Emissions(events)[1..] == Emissions(events[1..]);
      SeenEmissions(events[1..]);
    }
  }

  lemma {:induction false} ToldAll(events: seq<Event>)
    requires forall e :: e in events ==> !e.SenderResolvable?
    ensures Told(events) == events
    decreases |events|
  {
    if events != [] {
      assert forall e :: e in events[1..] ==> e in events;
      ToldAll(events[1..]);
    }
  }

  lemma {:induction false} ToldNone(events: seq<Event>)
    requires forall e :: e in events ==> e.SenderResolvable?
    ensures Told(events) == []
    decreases |events|
  {
    if events != [] {
      assert forall e :: e in events[1..] ==> e in events;
      ToldNone(events[1..]);
    }
  }

  lemma {:induction false} DropsAreNotSeen(disk: Disk, s: State, ts: seq<Txid>)
    ensures Seen(DropMoments(disk, s, ts)) == []
    decreases |ts|
  {
    if ts != [] {
      var d := DropWatch(disk, s, ts[0]);
      var ms := DropMoments(disk, s, ts);
      if d.failed {
        assert ms[1..] == [];
      } else {
        assert ms[1..] == DropMoments(disk, d.state, ts[1..]);
        DropsAreNotSeen(disk, d.state, ts[1..]);
      }
    }
  }

  /** Playing `ops` from `s` ends in `s'` and tells `events`. */
  predicate Plays(disk: Disk, s: State, ops: seq<Op>, s': State, events: seq<Event>) {
    Play(disk, s, ops).0 == s' && Seen(Play(disk, s, ops).1) == Told(events)
  }

  lemma PlaysNothing(disk: Disk, s: State)
    ensures Plays(disk, s, [], s, [])
  {
  }

  lemma PlaysOne(disk: Disk, s: State, op: Op, s': State, events: seq<Event>)
    requires Apply(disk, s, op) == (s', Emissions(events)) && forall e :: e in events ==> !e.SenderResolvable?
    ensures Plays(disk, s, [op], s', events)
  {
    PlayOne(disk, s, op);
    SeenEmissions(events);
    ToldAll(events);
  }

  lemma PlaysThen(disk: Disk, s: State, a: seq<Op>, s1: State, first: seq<Event>, b: seq<Op>, s2: State, more: seq<Event>)
    requires Plays(disk, s, a, s1, first) && Plays(disk, s1, b, s2, more)
    ensures Plays(disk, s, a + b, s2, first + more)
  {
    PlaySplit(disk, s, a, b);
    SeenSplit(Play(disk, s, a).1, Play(disk, s1, b).1);
    ToldSplit(first, more);
  }

  // ---- each step's operations are its own ----

  lemma SectionPlays(disk: Disk, d: Desk, j: Job, a: BlockAnswer)
    ensures var ran := Section(disk, d, j, a); Plays(disk, d.state, SectionOps(d, j, a), ran.desk.state, ran.events)
  {
    var ran := Section(disk, d, j, a);
    match j.stage
    case Removing =>
      if j.batch.removed != [] {
        PlaysOne(disk, d.state, RemovedOp(j.batch.removed, j.now), ran.desk.state, ran.events);
      }
    case Adding =>
      assert Emissions([]) == [];
      PlaysOne(disk, d.state, AddedOp(j.batch.added), ran.desk.state, []);
    case Reading(todo) =>
      if todo != [] {
        assert Emissions([]) == [];
        PlaysOne(disk, d.state, PrimeOp(ReadBlock(d.state, a).0.sinkBlue), ran.desk.state, []);
      }
    case Accepting(m, got, _) =>
      PlaysOne(disk, d.state, AcceptedOp(m.block, got.facts, m.watched), ran.desk.state, ran.events);
    case Resolving(m, got, _) =>
      if got.daa.Some? {
        ResolveOnly(d.interest, m.wanted, got.daa.value);
      }
      ToldNone(ran.events);
    case _ =>
  }

  lemma {:induction false} WalkAllPlays(disk: Disk, s: State, ts: seq<Txid>, b: Block, f: Facts)
    ensures var did := WalkAll(disk, s, ts, b, f); Plays(disk, s, WalkOps(ts, b, f), did.state, did.events)
    decreases |ts|
  {
    if ts != [] {
      var one := WalkAccepted(disk, s, ts[0], b, f);
      PlaysOne(disk, s, WalkOp(ts[0], b, f), one.state, one.events);
      WalkAllPlays(disk, one.state, ts[1..], b, f);
      var rest := WalkAll(disk, one.state, ts[1..], b, f);
      PlaysThen(disk, s, [WalkOp(ts[0], b, f)], one.state, one.events, WalkOps(ts[1..], b, f), rest.state, rest.events);
    }
  }

  lemma {:induction false} WalkBlocksPlays(disk: Disk, s: State, accepted: seq<WalkAcceptance>)
    ensures var did := WalkBlocks(disk, s, accepted); Plays(disk, s, PageOps(accepted), did.state, did.events)
    decreases |accepted|
  {
    if accepted != [] {
      var x := accepted[0];
      var one := WalkAll(disk, s, x.txids, x.block, x.facts);
      WalkAllPlays(disk, s, x.txids, x.block, x.facts);
      WalkBlocksPlays(disk, one.state, accepted[1..]);
      var rest := WalkBlocks(disk, one.state, accepted[1..]);
      PlaysThen(disk, s, WalkOps(x.txids, x.block, x.facts), one.state, one.events, PageOps(accepted[1..]), rest.state, rest.events);
    }
  }

  lemma MessagePlays(disk: Disk, d: Desk, page: Page, now: nat)
    ensures var did := FoldWalk(disk, d, page, now); Plays(disk, d.state, PageOps(page.accepted), did.desk.state, did.events)
  {
    WalkBlocksPlays(disk, d.state, page.accepted);
    var first := FoldPage(disk, d, page, now);
    var second := ResolveDesk(first.desk, page.accepted, d.state.core.offChain.blocks);
    ResolvesOnly(first.desk.interest, page.accepted, d.state.core.offChain.blocks);
    ToldNone(second.events);
    ToldSplit(first.events, second.events);
    assert Told(first.events) + [] == Told(first.events);
  }

  lemma AheadOfMore(m: map<Txid, Ahead>, ts: seq<Txid>, a: Ahead)
    requires ts != []
    ensures m[ts[0] := a] + AheadOf(ts[1..], a) == m + AheadOf(ts, a)
  {
    assert forall t :: t in ts <==> t == ts[0] || t in ts[1..];
  }

  lemma MarkAheadMore(s: State, b: Block, f: Facts, ts: seq<Txid>)
    requires ts != []
    ensures MarkAhead(s.(ahead := s.ahead[ts[0] := Ahead(b, f)]), b, f, ts[1..]) == MarkAhead(s, b, f, ts)
    ensures AcceptedEvents(ts) == [NowAccepted(ts[0])] + AcceptedEvents(ts[1..])
  {
    AheadOfMore(s.ahead, ts, Ahead(b, f));
  }

  lemma AheadOne(disk: Disk, s: State, t: Txid, b: Block, f: Facts)
    ensures Plays(disk, s, [AheadOp(t, b, f)], s.(ahead := s.ahead[t := Ahead(b, f)]), [NowAccepted(t)])
  {
    assert Emissions([NowAccepted(t)]) == [Emitted(NowAccepted(t))];
    PlaysOne(disk, s, AheadOp(t, b, f), s.(ahead := s.ahead[t := Ahead(b, f)]), [NowAccepted(t)]);
  }

  lemma {:induction false} AheadPlays(disk: Disk, s: State, ts: seq<Txid>, b: Block, f: Facts)
    ensures Plays(disk, s, AheadOps(ts, b, f), MarkAhead(s, b, f, ts), AcceptedEvents(ts))
    decreases |ts|
  {
    if ts == [] {
      assert MarkAhead(s, b, f, ts).ahead == s.ahead;
    } else {
      var s1 := s.(ahead := s.ahead[ts[0] := Ahead(b, f)]);
      AheadOne(disk, s, ts[0], b, f);
      AheadPlays(disk, s1, ts[1..], b, f);
      MarkAheadMore(s, b, f, ts);
      PlaysThen(disk, s, [AheadOp(ts[0], b, f)], s1, [NowAccepted(ts[0])],
                AheadOps(ts[1..], b, f), MarkAhead(s, b, f, ts), AcceptedEvents(ts[1..]));
    }
  }

  lemma StepAheadPlays(disk: Disk, w: World, batch: Batch, due: seq<Naming>, a: Answer)
    ensures var out := StepAhead(w, batch, due, a);
      Plays(disk, w.desk.state, ReadAheadOps(w.desk.state, due, AsBlock(a)), out.world.desk.state, out.events)
  {
    if due != [] {
      var (s1, got) := ReadBlock(w.desk.state, AsBlock(a));
      assert Emissions([]) == [];
      PlaysOne(disk, w.desk.state, PrimeOp(s1.sinkBlue), s1, []);
      if got.Some? {
        AheadPlays(disk, s1, due[0].txids, due[0].block, got.value.facts);
        var more := AcceptedEvents(due[0].txids);
        PlaysThen(disk, w.desk.state, [PrimeOp(s1.sinkBlue)], s1, [], AheadOps(due[0].txids, due[0].block, got.value.facts),
                  MarkAhead(s1, due[0].block, got.value.facts, due[0].txids), more);
        assert [] + more == more;
      } else {
        assert [PrimeOp(s1.sinkBlue)] + [] == [PrimeOp(s1.sinkBlue)];
      }
    }
  }

  lemma RegisterSaysNothing(disk: Disk, s: State, t: Txid, source: Source, now: nat, order: seq<Txid>)
    ensures Register(disk, s, t, source, now, order).events == []
  {
  }

  lemma RememberedFailsSilently(disk: Disk, s: State, t: Txid, source: Source, now: nat, seen: Remembered, order: seq<Txid>)
    ensures var d := RegisterRemembered(disk, s, t, source, now, seen, order); d.failed ==> d.events == []
    ensures forall e :: e in RegisterRemembered(disk, s, t, source, now, seen, order).events ==> !e.SenderResolvable?
  {
    RegisterSaysNothing(disk, s, t, source, now, order);
  }

  lemma WatchPlays(disk: Disk, d: Desk, t: Txid, source: Source, now: nat, order: seq<Txid>)
    ensures var did := WatchDesk(disk, d, t, source, now, order);
      Plays(disk, d.state, WatchOps(d, t, source, now, order), did.desk.state, did.events)
  {
    if t !in d.state.core.records {
      var drops := DropMoments(disk, d.state, EvictionOf(d.state, t, order));
      DropsAreNotSeen(disk, d.state, EvictionOf(d.state, t, order));
      if source == Transport && t in d.memory.known {
        var op := RememberedOp(t, source, now, d.memory.known[t], order);
        var did := RegisterRemembered(disk, d.state, t, source, now, d.memory.known[t], order);
        RememberedFailsSilently(disk, d.state, t, source, now, d.memory.known[t], order);
        PlayOne(disk, d.state, op);
        SeenSplit(drops, Emissions(did.events));
        SeenEmissions(did.events);
        ToldAll(did.events);
        assert [] + did.events == did.events;
      } else {
        RegisterSaysNothing(disk, d.state, t, source, now, order);
        PlayOne(disk, d.state, WatchOp(t, source, now, order));
      }
    }
  }

  /** Only the marks may still change, and nothing more is told. */
  predicate UpToMarks(s: State, s': State) {
    s' == s.(depthHeld := s'.depthHeld, walking := s'.walking)
  }

  lemma PlaysMarks(disk: Disk, s: State, ops: seq<Op>, s1: State, s': State, events: seq<Event>)
    requires Plays(disk, s, ops, s1, events) && UpToMarks(s1, s')
    ensures Plays(disk, s, ops + [MarksOp(s'.depthHeld, s'.walking)], s', events)
  {
    assert Emissions([]) == [];
    PlaysOne(disk, s1, MarksOp(s'.depthHeld, s'.walking), s', []);
    PlaysThen(disk, s, ops, s1, events, [MarksOp(s'.depthHeld, s'.walking)], s', []);
    assert events + [] == events;
  }

  lemma PageFoldedMarks(w: World, j: Job, at: Block, page: nat, clean: bool, now: nat, ok: bool)
    ensures UpToMarks(w.desk.state, PageFolded(w, j, at, page, clean, now, ok).world.desk.state)
  {
  }

  lemma WalkStepMarks(disk: Disk, w: World, at: WalkAt, a: Answer, now: nat, ok: bool)
    ensures var out := StepWalk(disk, w, at, a, now, ok);
      if at.Paging? then
        var ran := Section(disk, w.desk, at.job, AsBlock(a));
        UpToMarks(ran.desk.state, out.world.desk.state) && out.events == ran.events
      else UpToMarks(w.desk.state, out.world.desk.state) && out.events == []
  {
    if at.Paging? {
      var ran := Section(disk, w.desk, at.job, AsBlock(a));
      PageFoldedMarks(w.(desk := ran.desk, walk := Walking(at.(job := ran.job))), ran.job, at.at, at.page, at.clean, now, ok);
    }
  }

  lemma LiveStepMarks(disk: Disk, w: World, j: Job, a: Answer, now: nat, ok: bool, during: Job -> Loop, after: Loop)
    ensures var out := StepLive(disk, w, j, a, now, ok, during, after);
      var ran := Section(disk, w.desk, j, AsBlock(a));
      UpToMarks(ran.desk.state, out.world.desk.state) && out.events == ran.events
  {
  }

  lemma SinkPlays(disk: Disk, s: State, blue: nat, now: nat, order: seq<Txid>)
    ensures var did := OnSinkBlue(disk, s, blue, now, order); Plays(disk, s, [SinkOp(blue, now, order)], did.state, did.events)
  {
    var settled := Settled(disk, s.(sinkBlue := blue), order);
    var expired := Expired(settled.state, now, order);
    PlayOne(disk, s, SinkOp(blue, now, order));
    SeenSplit(Emissions(settled.events), DropMoments(disk, settled.state, expired));
    SeenEmissions(settled.events);
    DropsAreNotSeen(disk, settled.state, expired);
    if ClaimsDepth(s) {
      OnlyCrossings(s.(sinkBlue := blue), order);
    }
    ToldAll(settled.events);
  }

  lemma {:induction false} OnlyCrossings(s: State, order: seq<Txid>)
    ensures forall e :: e in Crossings(s, order) ==> e.NowConfirmed?
    decreases |order|
  {
    if order != [] {
      OnlyCrossings(s, order[1..]);
    }
  }

  lemma {:induction false} OnlyDue(s: State, now: nat, order: seq<Txid>)
    ensures forall e :: e in DueEvents(s, now, order) ==> !e.SenderResolvable?
    decreases |order|
  {
    if order != [] {
      OnlyDue(s, now, order[1..]);
    }
  }

  lemma TickPlays(disk: Disk, s: State, now: nat, order: seq<Txid>)
    ensures var did := Tick(s, now, order); Plays(disk, s, [TickOp(now, order)], did.state, did.events)
  {
    OnlyDue(s, now, order);
    PlaysOne(disk, s, TickOp(now, order), Tick(s, now, order).state, Tick(s, now, order).events);
  }

  lemma StepTickPlays(disk: Disk, w: World, now: nat, order: seq<Txid>, holdWalk: bool)
    ensures var out := StepTick(w, now, order, holdWalk);
      Plays(disk, w.desk.state, ListeningOps(w, TickNow(now, order, holdWalk)), out.world.desk.state, out.events)
  {
    var s, s1 := w.desk.state, TickBegins(w, holdWalk).desk.state;
    var mark := MarksOp(s.depthHeld, s1.walking);
    assert Emissions([]) == [];
    PlaysOne(disk, s, mark, s1, []);
    TickPlays(disk, s1, now, order);
    var did := Tick(s1, now, order);
    PlaysThen(disk, s, [mark], s1, [], [TickOp(now, order)], did.state, did.events);
    assert [mark] + [TickOp(now, order)] == [mark, TickOp(now, order)] && [] + did.events == did.events;
  }

  /** The step's own operations take the state to where the step leaves it, up to
      the marks. */
  ghost predicate StepPlays(disk: Disk, w: World, ops: seq<Op>, out: Stepped) {
    exists s1 :: Plays(disk, w.desk.state, ops, s1, out.events) && UpToMarks(s1, out.world.desk.state)
  }

  lemma DrainPlays(disk: Disk, w: World, a: Answer, now: nat, ok: bool)
    requires w.loop == Draining(None)
    ensures StepPlays(disk, w, LoopOps(w, a), StepLoop(disk, w, a, now, ok))
  {
    var s := w.desk.state;
    if w.heldBack == [] {
      assert Emissions([]) == [];
      PlaysOne(disk, s, ForgetAheadOp, s.(ahead := map[]), []);
    } else {
      match w.heldBack[0]
      case Vcc(_) => PlaysNothing(disk, s);
      case Message(page) => MessagePlays(disk, w.desk, page, now);
    }
  }

  lemma LoopPlays(disk: Disk, w: World, a: Answer, now: nat, ok: bool)
    ensures StepPlays(disk, w, LoopOps(w, a), StepLoop(disk, w, a, now, ok))
  {
    match w.loop
    case Listening => PlaysNothing(disk, w.desk.state);
    case FoldingLive(j) =>
      SectionPlays(disk, w.desk, j, AsBlock(a));
      LiveStepMarks(disk, w, j, a, now, ok, (j: Job) => FoldingLive(j), Listening);
    case ReadingAhead(batch, due) => StepAheadPlays(disk, w, batch, due, a);
    case Draining(Some(j)) =>
      SectionPlays(disk, w.desk, j, AsBlock(a));
      LiveStepMarks(disk, w, j, a, now, ok, (j: Job) => Draining(Some(j)), Draining(None));
    case Draining(None) => DrainPlays(disk, w, a, now, ok);
  }

  lemma WalkPlays(disk: Disk, w: World, a: Answer, now: nat, ok: bool)
    requires w.loop.Listening?
    ensures StepPlays(disk, w, ListeningOps(w, WalkStep(a, now, ok)), StepListening(disk, w, WalkStep(a, now, ok)))
  {
    PlaysNothing(disk, w.desk.state);
    if w.walk.Walking? {
      WalkStepMarks(disk, w, w.walk.at, a, now, ok);
      if w.walk.at.Paging? {
        SectionPlays(disk, w.desk, w.walk.at.job, AsBlock(a));
      }
    }
  }

  lemma ListeningPlays(disk: Disk, w: World, i: Input)
    requires w.loop.Listening?
    ensures StepPlays(disk, w, ListeningOps(w, i), StepListening(disk, w, i))
  {
    var s := w.desk.state;
    PlaysNothing(disk, s);
    match i
    case WalkStep(a, now, ok) => WalkPlays(disk, w, a, now, ok);
    case Deliver(feed, now) => if feed.Message? { MessagePlays(disk, w.desk, feed.page, now); }
    case Prime(blue) =>
      assert Emissions([]) == [];
      PlaysOne(disk, s, PrimeOp(blue), s.(sinkBlue := blue), []);
    case SinkScore(blue, now, order) => SinkPlays(disk, s, blue, now, order);
    case TickNow(now, order, holdWalk) => StepTickPlays(disk, w, now, order, holdWalk);
    case _ =>
  }

  lemma InputPlays(disk: Disk, w: World, i: Input)
    ensures StepPlays(disk, w, InputOps(w, i), Step(disk, w, i))
  {
    PlaysNothing(disk, w.desk.state);
    match i
    case WatchCall(t, source, now, order) => WatchPlays(disk, w.desk, t, source, now, order);
    case LookupCall(t) =>
      ToldNone(NoteInterest(w.desk, t).events);
      assert Plays(disk, w.desk.state, [], w.desk.state, NoteInterest(w.desk, t).events);
    case LoopStep(a, now, ok) => LoopPlays(disk, w, a, now, ok);
    case _ => if w.loop.Listening? { ListeningPlays(disk, w, i); }
  }

  /** **A step of the loop is a sequence of operations**: they take the state where
      the step takes it, and what they tell of watches is what the step emits. */
  lemma StepIsOps(disk: Disk, w: World, i: Input)
    ensures var out := Step(disk, w, i); Plays(disk, w.desk.state, StepOps(disk, w, i), out.world.desk.state, out.events)
  {
    var out := Step(disk, w, i);
    InputPlays(disk, w, i);
    var s1 :| Plays(disk, w.desk.state, InputOps(w, i), s1, out.events) && UpToMarks(s1, out.world.desk.state);
    PlaysMarks(disk, w.desk.state, InputOps(w, i), s1, out.world.desk.state, out.events);
  }

  lemma {:induction false} RunIsOps(disk: Disk, w: World, inputs: seq<Input>)
    ensures var out := Run(disk, w, inputs); Plays(disk, w.desk.state, RunOps(disk, w, inputs), out.world.desk.state, out.events)
    decreases |inputs|
  {
    if inputs != [] {
      var one := Step(disk, w, inputs[0]);
      var rest := Run(disk, one.world, inputs[1..]);
      StepIsOps(disk, w, inputs[0]);
      RunIsOps(disk, one.world, inputs[1..]);
      PlaysThen(disk, w.desk.state, StepOps(disk, w, inputs[0]), one.world.desk.state, one.events,
                RunOps(disk, one.world, inputs[1..]), rest.world.desk.state, rest.events);
    }
  }

  // ---- what every run of the loop keeps ----

  /** **The index over every run of the loop.** After any interleaving of folds,
      walks, pages, scores, ticks and calls, with any writes failing: what the index
      lists is accepted by the block it is listed under, once and in no empty list;
      and a txid it listed while accepted it lists whenever accepted, unless a drop of
      that very txid failed. */
  lemma RunKeepsIndex(disk: Disk, w: World, inputs: seq<Input>, v: Option<Txid>)
    requires Indexed(w.desk.state.core, v) && KeptDrops(v, RunMoments(disk, w, inputs))
    ensures Indexed(Run(disk, w, inputs).world.desk.state.core, v)
  {
    RunIsOps(disk, w, inputs);
    IndexOverRuns(disk, w.desk.state, RunOps(disk, w, inputs), v);
  }

  /** So an exact index stays exact as long as no drop fails. */
  lemma RunKeepsIndexExact(disk: Disk, w: World, inputs: seq<Input>)
    requires IndexExact(w.desk.state.core) && forall t :: DropFailed(t) !in RunMoments(disk, w, inputs)
    ensures IndexExact(Run(disk, w, inputs).world.desk.state.core)
  {
    ExactIsIndexed(w.desk.state.core);
    RunKeepsIndex(disk, w, inputs, None);
    forall t
      ensures Lists(Run(disk, w, inputs).world.desk.state.core, t)
    {
      RunKeepsIndex(disk, w, inputs, Some(t));
    }
    ExactIsIndexed(Run(disk, w, inputs).world.desk.state.core);
  }

  /** The off-chain queue and set agree and stay within capacity over every run. */
  lemma RunKeepsOffChain(disk: Disk, w: World, inputs: seq<Input>)
    requires OffChainValid(w.desk.state.core.offChain)
    ensures OffChainValid(Run(disk, w, inputs).world.desk.state.core.offChain)
  {
    RunIsOps(disk, w, inputs);
    OffChainOverRuns(disk, w.desk.state, RunOps(disk, w, inputs));
  }

  /** The iteration order of a hash map names each key once. */
  predicate OrderOnce(i: Input) {
    match i
    case SinkScore(_, _, order) => NoDups(order)
    case TickNow(_, order, _) => NoDups(order)
    case _ => true
  }

  predicate OrdersOnce(ops: seq<Op>) {
    forall i :: 0 <= i < |ops| ==> OrderIsOnce(ops[i])
  }

  lemma OrdersSplit(a: seq<Op>, b: seq<Op>)
    ensures OrdersOnce(a + b) <==> OrdersOnce(a) && OrdersOnce(b)
  {
    if OrdersOnce(a + b) {
      assert forall i :: 0 <= i < |a| ==> (a + b)[i] == a[i];
      assert forall i :: 0 <= i < |b| ==> (a + b)[|a| + i] == b[i];
    }
  }

  lemma {:induction false} PageOrders(accepted: seq<WalkAcceptance>)
    ensures OrdersOnce(PageOps(accepted))
    decreases |accepted|
  {
    if accepted != [] {
      WalkOrders(accepted[0].txids, accepted[0].block, accepted[0].facts);
      PageOrders(accepted[1..]);
      OrdersSplit(WalkOps(accepted[0].txids, accepted[0].block, accepted[0].facts), PageOps(accepted[1..]));
    }
  }

  lemma {:induction false} WalkOrders(ts: seq<Txid>, b: Block, f: Facts)
    ensures OrdersOnce(WalkOps(ts, b, f)) && OrdersOnce(AheadOps(ts, b, f))
    decreases |ts|
  {
    if ts != [] {
      WalkOrders(ts[1..], b, f);
      OrdersSplit([WalkOp(ts[0], b, f)], WalkOps(ts[1..], b, f));
      OrdersSplit([AheadOp(ts[0], b, f)], AheadOps(ts[1..], b, f));
    }
  }

  lemma LoopOrders(w: World, a: Answer)
    ensures OrdersOnce(LoopOps(w, a))
  {
    match w.loop
    case ReadingAhead(_, due) =>
      var (s1, got) := ReadBlock(w.desk.state, AsBlock(a));
      if due != [] && got.Some? {
        WalkOrders(due[0].txids, due[0].block, got.value.facts);
        OrdersSplit([PrimeOp(s1.sinkBlue)], AheadOps(due[0].txids, due[0].block, got.value.facts));
      }
    case Draining(None) =>
      if w.heldBack != [] && w.heldBack[0].Message? {
        PageOrders(w.heldBack[0].page.accepted);
      }
    case _ =>
  }

  lemma StepOrders(disk: Disk, w: World, i: Input)
    requires OrderOnce(i)
    ensures OrdersOnce(StepOps(disk, w, i))
  {
    var s' := Step(disk, w, i).world.desk.state;
    OrdersSplit(InputOps(w, i), [MarksOp(s'.depthHeld, s'.walking)]);
    match i
    case LoopStep(a, _, _) => LoopOrders(w, a);
    case Deliver(feed, _) => if feed.Message? { PageOrders(feed.page.accepted); }
    case _ =>
  }

  lemma {:induction false} RunOrders(disk: Disk, w: World, inputs: seq<Input>)
    requires forall i :: 0 <= i < |inputs| ==> OrderOnce(inputs[i])
    ensures OrdersOnce(RunOps(disk, w, inputs))
    decreases |inputs|
  {
    if inputs != [] {
      var w1 := Step(disk, w, inputs[0]).world;
      StepOrders(disk, w, inputs[0]);
      RunOrders(disk, w1, inputs[1..]);
      OrdersSplit(StepOps(disk, w, inputs[0]), RunOps(disk, w1, inputs[1..]));
    }
  }

  /** **One-shot events over every run of the loop.** What a run emits about watches
      is heard here with the records that leave the log between: each live watch
      stalls at most once, elapses at most once a displacement and confirms at most
      once between displacements, unless and only unless a drop of it fails after one
      of these was signalled and a later tick or score finds it due again. A run from
      any state starts with NOTHING signalled. */
  lemma RunIsOneShot(disk: Disk, w: World, inputs: seq<Input>, h: Signalled, t: Txid)
    requires Guarded(w.desk.state, h, t) && forall i :: 0 <= i < |inputs| ==> OrderOnce(inputs[i])
    ensures Seen(RunMoments(disk, w, inputs)) == Told(Run(disk, w, inputs).events)
    ensures OneShot(disk, w.desk.state, RunOps(disk, w, inputs), h, t)
  {
    RunIsOps(disk, w, inputs);
    RunOrders(disk, w, inputs);
    EventsAreOneShot(disk, w.desk.state, RunOps(disk, w, inputs), h, t);
  }
}

/** The tracker's run loop as a step relation (`fold_batch`, `fold_ahead`,
    `fold_live`, `catch_up` and `run` in `rust/chain/src/acceptance.rs`).

    A fold is a sequence of lock-held sections with the node's answers between
    them; a catch-up walk is polled beside the live feed, so its sections
    interleave with deliveries, sink scores, ticks and other tasks' calls. One
    step is one section. Answers, clocks and which writes land are free. */
module TrackerLoop {
  import opened Bytes
  import opened WatchLog
  import opened ChainBatch
  import opened Tracker
  import opened MessageWalk

  const MAX_VCC_CATCHUP_PAGES: nat := 16
  const VCC_TIP_PAGE_THRESHOLD: nat := 100
  const CURSOR_MIN_WRITE_SECS: nat := 3

  // ---- the cursor ----

  /** `file` is what `vcc.cursor` holds on disk. */
  datatype Cursor = Cursor(file: Option<Block>, frozen: bool, since: nat, holds: nat, forceOwed: bool, writtenAt: nat)

  predicate Throttled(c: Cursor, force: bool, now: nat) {
    !force && SatSub(now / 1000, c.writtenAt) < CURSOR_MIN_WRITE_SECS
  }

  function WriteCursor(c: Cursor, b: Block, force: bool, now: nat, ok: bool): Cursor {
    if Throttled(c, force, now) then c
    else if ok then c.(file := Some(b), writtenAt := now / 1000)
    else c.(writtenAt := now / 1000, forceOwed := c.forceOwed || force)
  }

  /** Past the pruning horizon a hold is given up like any other gap. */
  predicate KeepsHold(c: Cursor, now: nat) {
    c.frozen && c.since != 0 && SatSub(now, c.since) < PRUNING_HORIZON_MS
  }

  // ---- one fold, section by section ----

  datatype BlockAnswer = Served(facts: Facts, daa: nat) | Unserved(sink: Option<nat>)

  datatype Got = Got(facts: Facts, daa: Option<nat>)

  /** A block the node cannot serve is given the sink's score and no time; a sink
      not yet known is asked for, and without one there are no facts. */
  function ReadBlock(s: State, a: BlockAnswer): (State, Option<Got>) {
    match a
    case Served(f, daa) => (s, Some(Got(f, Some(daa))))
    case Unserved(sink) =>
      if s.sinkBlue != 0 then (s, Some(Got(Facts(s.sinkBlue, 0), None)))
      else match sink
           case Some(blue) => (s.(sinkBlue := blue), Some(Got(Facts(blue, 0), None)))
           case None => (s, None)
  }

  datatype Match = Match(block: Block, watched: seq<Txid>, wanted: seq<Txid>)

  datatype Stage =
    | Removing
    | Adding
    | Matching
    | Reading(todo: seq<Match>)
    | Resolving(m: Match, got: Got, todo: seq<Match>)
    | Accepting(m: Match, got: Got, todo: seq<Match>)
    | Finished(accepted: bool)

  datatype Job = Job(batch: Batch, now: nat, stage: Stage, complete: bool)

  function MatchAll(ns: seq<Naming>, watched: set<Txid>, interest: seq<Txid>): seq<Match>
    decreases |ns|
  {
    if ns == [] then []
    else
      var m := Match(ns[0].block, Among(ns[0].txids, watched), Among(ns[0].txids, Members(interest)));
      (if m.watched != [] || m.wanted != [] then [m] else []) + MatchAll(ns[1..], watched, interest)
  }

  predicate HoldsAcceptanceAt(s: State, bs: seq<Block>) {
    exists i :: 0 <= i < |bs| && bs[i] in s.core.index
  }

  datatype Ran = Ran(desk: Desk, job: Job, events: seq<Event>)

  function Section(disk: Disk, d: Desk, j: Job, a: BlockAnswer): Ran {
    match j.stage
    case Removing =>
      if j.batch.removed == [] then Ran(d, j.(stage := Adding), [])
      else
        var did := OnRemoved(disk, d.state, j.batch.removed, j.now);
        Ran(d.(state := did.state), j.(stage := Adding, complete := j.complete && !did.failed), did.events)
    case Adding => Ran(d.(state := NoteAdded(d.state, j.batch.added)), j.(stage := Matching), [])
    case Matching =>
      Ran(d, j.(stage := Reading(MatchAll(j.batch.accepted, d.state.core.records.Keys, d.interest))), [])
    case Reading(todo) =>
      if todo == [] then Ran(d, j.(stage := Finished(HoldsAcceptanceAt(d.state, j.batch.added))), [])
      else
        var (s, got) := ReadBlock(d.state, a);
        if got.None? then
          Ran(d.(state := s), j.(stage := Reading(todo[1..]), complete := j.complete && todo[0].watched == []), [])
        else Ran(d.(state := s), j.(stage := Resolving(todo[0], got.value, todo[1..])), [])
    case Resolving(m, got, todo) =>
      var next := j.(stage := if m.watched == [] then Reading(todo) else Accepting(m, got, todo));
      if m.wanted == [] || got.daa.None? then Ran(d, next, [])
      else
        var (left, events) := Resolve(d.interest, m.wanted, got.daa.value);
        Ran(d.(interest := left), next, events)
    case Accepting(m, got, todo) =>
      var did := OnAccepted(disk, d.state, m.block, got.facts, m.watched);
      Ran(d.(state := did.state), j.(stage := Reading(todo), complete := j.complete && !did.failed), did.events)
    case Finished(_) => Ran(d, j, [])
  }

  // ---- the loop ----

  datatype Feed = Vcc(batch: Batch) | Message(page: Page)

  /** `clean`: every page so far of this walk folded completely. */
  datatype WalkAt =
    | Starting
    | Asking(at: Block, page: nat, clean: bool)
    | Paging(job: Job, at: Block, page: nat, clean: bool)
    | Seeding

  datatype Walk = NotWalking | Walking(at: WalkAt)

  /** What the loop is in the middle of; `Draining` folds what a walk held back. */
  datatype Loop =
    | Listening
    | FoldingLive(job: Job)
    | ReadingAhead(batch: Batch, due: seq<Naming>)
    | Draining(folding: Option<Job>)

  datatype World = World(desk: Desk, cursor: Cursor, walk: Walk, loop: Loop, heldBack: seq<Feed>, walkAgain: bool)

  /** The fold in progress, if it writes. */
  function Folding(w: World): Option<Job> {
    match w.loop
    case FoldingLive(j) => Some(j)
    case Draining(f) => f
    case _ =>
      match w.walk
      case Walking(at) => if at.Paging? then Some(at.job) else None
      case NotWalking => None
  }

  datatype Answer = NoAnswer | BlockIs(answer: BlockAnswer) | PageIs(batch: Option<Batch>) | SinkIs(sink: Option<Block>)

  datatype Input =
    | Connect
    | WalkStep(answer: Answer, now: nat, fileOk: bool)
    | LoopStep(answer: Answer, now: nat, fileOk: bool)
    | Deliver(feed: Feed, now: nat)
    | Prime(blue: nat)
    | SinkScore(blue: nat, now: nat, order: seq<Txid>)
    | TickNow(now: nat, order: seq<Txid>, holdWalk: bool)
    | WatchCall(t: Txid, source: Source, now: nat, order: seq<Txid>)
    | LookupCall(t: Txid)

  datatype Writer = ByLive | ByPage | BySeed

  /** Why a walk gives up on its place in the chain and seeds the cursor afresh. */
  datatype Reason = NoCursor | Unanswered | OutOfPages

  /** What a run did to the cursor, in order. A walk begins from what `vcc.cursor`
      holds; a page's fold says which block it was `asked` from, a live batch's
      none. */
  datatype Note =
    | WalkBegan(from: Option<Block>)
    | FoldEnded(asked: Option<Block>, complete: bool, last: Option<Block>, tip: bool, now: nat)
    | Moved(block: Block, writer: Writer)
    | GaveUp(reason: Reason, now: nat)
    | Released(seeded: bool)

  datatype Stepped = Stepped(world: World, events: seq<Event>, notes: seq<Note>)

  function Stay(w: World): Stepped {
    Stepped(w, [], [])
  }

  function AsBlock(a: Answer): BlockAnswer {
    if a.BlockIs? then a.answer else Unserved(None)
  }

  function Last(bs: seq<Block>): Option<Block> {
    if bs == [] then None else Some(bs[|bs| - 1])
  }

  function WithState(w: World, s: State): World {
    w.(desk := w.desk.(state := s))
  }

  function Begin(w: World): World {
    WithState(w, w.desk.state.(walking := true)).(walk := Walking(Starting))
  }

  function Freeze(w: World, now: nat): World {
    if w.cursor.frozen then w
    else WithState(w, w.desk.state.(depthHeld := true)).(
           cursor := w.cursor.(frozen := true, since := now, holds := w.cursor.holds + 1))
  }

  function Release(w: World): World {
    if !w.cursor.frozen then w
    else WithState(w, w.desk.state.(depthHeld := false)).(cursor := w.cursor.(frozen := false, since := 0))
  }

  /** The walk is over: fold what it held back. */
  function EndWalk(w: World): World {
    w.(walk := NotWalking, loop := Draining(None))
  }

  function Move(w: World, b: Block, writer: Writer, force: bool, now: nat, ok: bool): Stepped {
    Stepped(w.(cursor := WriteCursor(w.cursor, b, force, now, ok)), [],
            if ok && !Throttled(w.cursor, force, now) then [Moved(b, writer)] else [])
  }

  predicate IsTip(batch: Batch) {
    |batch.added| < VCC_TIP_PAGE_THRESHOLD
  }

  /** After a page's fold: hold or move the cursor, then stop, give up or go on. */
  function PageFolded(w: World, j: Job, at: Block, page: nat, clean: bool, now: nat, ok: bool): Stepped {
    var last := Last(j.batch.added);
    var ended := FoldEnded(Some(at), j.complete, last, IsTip(j.batch), now);
    var clean' := clean && j.complete;
    var held := if j.complete then w else Freeze(w, now);
    var moved := if last.Some? && clean' then Move(held, last.value, ByPage, true, now, ok) else Stay(held);
    var at' := if last.Some? then last.value else at;
    var notes := [ended] + moved.notes;
    if IsTip(j.batch) then
      if clean' then Stepped(EndWalk(Release(moved.world)), [], notes + [Released(false)])
      else Stepped(EndWalk(Freeze(moved.world, now)), [], notes)
    else if page + 1 >= MAX_VCC_CATCHUP_PAGES then
      if !clean' && KeepsHold(moved.world.cursor, now) then Stepped(EndWalk(moved.world), [], notes)
      else Stepped(moved.world.(walk := Walking(Seeding)), [], notes + [GaveUp(OutOfPages, now)])
    else Stepped(moved.world.(walk := Walking(Asking(at', page + 1, clean'))), [], notes)
  }

  function StepWalk(disk: Disk, w: World, at: WalkAt, a: Answer, now: nat, ok: bool): Stepped {
    match at
    case Starting =>
      (match w.cursor.file
       case Some(c) => Stepped(w.(walk := Walking(Asking(c, 0, true))), [], [WalkBegan(Some(c))])
       case None => Stepped(w.(walk := Walking(Seeding)), [], [WalkBegan(None), GaveUp(NoCursor, now)]))
    case Asking(c, page, clean) =>
      if a.PageIs? && a.batch.Some? then
        Stay(w.(walk := Walking(Paging(Job(a.batch.value, now, Removing, true), c, page, clean))))
      else if KeepsHold(w.cursor, now) then Stay(EndWalk(w))
      else Stepped(w.(walk := Walking(Seeding)), [], [GaveUp(Unanswered, now)])
    case Paging(j, c, page, clean) =>
      var ran := Section(disk, w.desk, j, AsBlock(a));
      var w1 := w.(desk := ran.desk, walk := Walking(Paging(ran.job, c, page, clean)));
      if ran.job.stage.Finished? then
        PageFolded(w1, ran.job, c, page, clean, now, ok).(events := ran.events)
      else Stepped(w1, ran.events, [])
    case Seeding =>
      if a.SinkIs? && a.sink.Some? then
        var moved := Move(w, a.sink.value, BySeed, true, now, ok);
        Stepped(EndWalk(Release(moved.world)), [], moved.notes + [Released(true)])
      else Stay(EndWalk(w))
  }

  /** After a live fold: hold the cursor, or move it when nothing is owed. */
  function LiveFolded(w: World, j: Job, now: nat, ok: bool): Stepped {
    var last := Last(j.batch.added);
    var ended := FoldEnded(None, j.complete, last, IsTip(j.batch), now);
    if !j.complete then Stepped(Freeze(w, now), [], [ended])
    else if w.cursor.frozen || last.None? then Stepped(w, [], [ended])
    else
      var force := (j.stage.Finished? && j.stage.accepted) || w.cursor.forceOwed;
      var moved := Move(w.(cursor := w.cursor.(forceOwed := false)), last.value, ByLive, force, now, ok);
      moved.(notes := [ended] + moved.notes)
  }

  function StepLive(disk: Disk, w: World, j: Job, a: Answer, now: nat, ok: bool, during: Job -> Loop, after: Loop): Stepped {
    var ran := Section(disk, w.desk, j, AsBlock(a));
    var w1 := w.(desk := ran.desk);
    if ran.job.stage.Finished? then LiveFolded(w1.(loop := after), ran.job, now, ok).(events := ran.events)
    else Stepped(w1.(loop := during(ran.job)), ran.events, [])
  }

  function FoldMessage(disk: Disk, w: World, page: Page, now: nat): Stepped {
    var did := FoldWalk(disk, w.desk, page, now);
    Stepped(w.(desk := did.desk), did.events, [])
  }

  /** The sends of ours this batch accepts that nothing has accepted yet. */
  function DueAhead(s: State, ns: seq<Naming>): seq<Naming>
    decreases |ns|
  {
    if ns == [] then []
    else
      var due := Among(ns[0].txids, set t | t in s.core.records && AwaitsFirstAcceptance(s, t));
      (if due != [] then [Naming(ns[0].block, due)] else []) + DueAhead(s, ns[1..])
  }

  function AheadOf(ts: seq<Txid>, a: Ahead): map<Txid, Ahead> {
    map t | t in Members(ts) :: a
  }

  function MarkAhead(s: State, b: Block, f: Facts, ts: seq<Txid>): State {
    s.(ahead := s.ahead + AheadOf(ts, Ahead(b, f)))
  }

  function StepAhead(w: World, batch: Batch, due: seq<Naming>, a: Answer): Stepped {
    if due == [] then Stay(w.(loop := Listening, heldBack := w.heldBack + [Vcc(batch)]))
    else
      var (s, got) := ReadBlock(w.desk.state, AsBlock(a));
      var w1 := w.(loop := ReadingAhead(batch, due[1..]));
      if got.None? then Stay(WithState(w1, s))
      else Stepped(WithState(w1, MarkAhead(s, due[0].block, got.value.facts, due[0].txids)), AcceptedEvents(due[0].txids), [])
  }

  /** Drained: depth may be claimed again, and a reconnect that came meanwhile is
      walked now. */
  function Drained(w: World): Stepped {
    var w1 := WithState(w, w.desk.state.(walking := false, ahead := map[])).(loop := Listening);
    Stay(if w.walkAgain then Begin(w1.(walkAgain := false)) else w1)
  }

  function StepLoop(disk: Disk, w: World, a: Answer, now: nat, ok: bool): Stepped {
    match w.loop
    case Listening => Stay(w)
    case FoldingLive(j) => StepLive(disk, w, j, a, now, ok, (j: Job) => FoldingLive(j), Listening)
    case ReadingAhead(batch, due) => StepAhead(w, batch, due, a)
    case Draining(Some(j)) => StepLive(disk, w, j, a, now, ok, (j: Job) => Draining(Some(j)), Draining(None))
    case Draining(None) =>
      if w.heldBack == [] then Drained(w)
      else
        var w1 := w.(heldBack := w.heldBack[1..]);
        match w.heldBack[0]
        case Vcc(batch) => Stay(w1.(loop := Draining(Some(Job(batch, now, Removing, true)))))
        case Message(page) => FoldMessage(disk, w1, page, now)
  }

  function StepDeliver(disk: Disk, w: World, feed: Feed, now: nat): Stepped {
    match feed
    case Vcc(batch) =>
      if w.walk.Walking? then Stay(w.(loop := ReadingAhead(batch, DueAhead(w.desk.state, batch.accepted))))
      else Stay(w.(loop := FoldingLive(Job(batch, now, Removing, true))))
    case Message(page) =>
      if w.walk.Walking? then Stay(w.(heldBack := w.heldBack + [feed])) else FoldMessage(disk, w, page, now)
  }

  function OfState(w: World, d: Did): Stepped {
    Stepped(WithState(w, d.state), d.events, [])
  }

  function OfDesk(w: World, d: DeskDid): Stepped {
    Stepped(w.(desk := d.desk), d.events, [])
  }

  /** A held cursor heals at a tick, not only at the next reconnect. */
  function TickBegins(w: World, holdWalk: bool): World {
    if holdWalk && w.cursor.frozen && w.walk.NotWalking? then Begin(w) else w
  }

  function StepTick(w: World, now: nat, order: seq<Txid>, holdWalk: bool): Stepped {
    var begun := TickBegins(w, holdWalk);
    OfState(begun, Tick(begun.desk.state, now, order))
  }

  /** What the loop takes up while it is listening. */
  function StepListening(disk: Disk, w: World, i: Input): Stepped {
    match i
    case Connect => Stay(if w.walk.Walking? then w.(walkAgain := true) else Begin(w))
    case WalkStep(a, now, ok) =>
      (match w.walk
       case NotWalking => Stay(w)
       case Walking(at) => StepWalk(disk, w, at, a, now, ok))
    case Deliver(feed, now) => StepDeliver(disk, w, feed, now)
    case Prime(blue) => Stay(WithState(w, w.desk.state.(sinkBlue := blue)))
    case SinkScore(blue, now, order) => OfState(w, OnSinkBlue(disk, w.desk.state, blue, now, order))
    case TickNow(now, order, holdWalk) => StepTick(w, now, order, holdWalk)
    case LoopStep(_, _, _) => Stay(w)
    case WatchCall(_, _, _, _) => Stay(w)
    case LookupCall(_) => Stay(w)
  }

  /** Other tasks call in at any time; everything else waits for the loop. */
  function Step(disk: Disk, w: World, i: Input): Stepped {
    match i
    case WatchCall(t, source, now, order) => OfDesk(w, WatchDesk(disk, w.desk, t, source, now, order))
    case LookupCall(t) => OfDesk(w, NoteInterest(w.desk, t))
    case LoopStep(a, now, ok) => StepLoop(disk, w, a, now, ok)
    case _ => if w.loop.Listening? then StepListening(disk, w, i) else Stay(w)
  }

  function Run(disk: Disk, w: World, inputs: seq<Input>): Stepped
    decreases |inputs|
  {
    if inputs == [] then Stay(w)
    else
      var one := Step(disk, w, inputs[0]);
      var rest := Run(disk, one.world, inputs[1..]);
      Stepped(rest.world, one.events + rest.events, one.notes + rest.notes)
  }
}

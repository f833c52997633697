/** What the tracker's loop does when it must (`fold_live`, `fold_ahead`, `run` and
    `read_accepting_block` in `rust/chain/src/acceptance.rs`). */
module LoopMeans {
  // Beside what may never happen (`CursorRuns`, `FoldRuns`), what does: when a live
  // batch moves the cursor, that a forced write that failed is made up for, that a
  // reconnect during a walk is walked, that a send's acceptance is read while a walk
  // runs and forgotten when it is over, and that a batch answers the lookups it can.

  import opened Bytes
  import opened WatchLog
  import opened ChainBatch
  import opened Tracker
  import opened MessageWalk
  import opened IndexRuns
  import opened TrackerLoop
  import opened CursorRuns
  import opened LoopRuns
  import opened FoldRuns

  // ---- when a live batch moves the cursor ----

  predicate MovesTo(notes: seq<Note>, b: Block) {
    exists n :: n in notes && n.Moved? && n.block == b
  }

  predicate MovesNowhere(notes: seq<Note>) {
    forall n :: n in notes ==> !n.Moved?
  }

  /** At least three seconds since the cursor was last written. */
  predicate Rested(c: Cursor, now: nat) {
    now / 1000 >= c.writtenAt + CURSOR_MIN_WRITE_SECS
  }

  /** The batch carried a block an acceptance is held at, or makes up for a forced write
      that failed: its move does not wait. */
  predicate Forced(w: World, j: Job) {
    (j.stage.Finished? && j.stage.accepted) || w.cursor.forceOwed
  }

  /** **When a live batch moves the cursor, exactly:** when it folded completely, nothing
      is owed, it added a block, its write lands, and it is forced or the last write
      lies three seconds back. A forced write that fails is owed to the next. */
  lemma LiveMovesExactlyWhen(w: World, j: Job, now: nat, ok: bool)
    ensures var out := LiveFolded(w, j, now, ok); var last := Last(j.batch.added);
      var mayMove := j.complete && !w.cursor.frozen && last.Some?;
      var moves := mayMove && ok && (Forced(w, j) || Rested(w.cursor, now));
      && (if moves then MovesTo(out.notes, last.value) else MovesNowhere(out.notes))
      && out.world.cursor.file == (if moves then last else w.cursor.file)
      && out.world.cursor.frozen == (w.cursor.frozen || !j.complete)
      && out.world.cursor.forceOwed == (if mayMove then Forced(w, j) && !ok else w.cursor.forceOwed)
      && out.world.cursor.writtenAt == (if mayMove && (Forced(w, j) || Rested(w.cursor, now)) then now / 1000 else w.cursor.writtenAt)
  {
    var out := LiveFolded(w, j, now, ok);
    var last := Last(j.batch.added);
    if j.complete && !w.cursor.frozen && last.Some? && ok && (Forced(w, j) || Rested(w.cursor, now)) {
      assert out.notes[1] == Moved(last.value, ByLive);
    }
  }

  /** **A forced write that fails is made up for:** whenever the next complete batch
      comes, however soon, its write is made. */
  lemma FailedForceIsMadeUp(w: World, j: Job, now: nat, next: Job, later: nat)
    requires j.complete && Last(j.batch.added).Some? && !w.cursor.frozen && Forced(w, j)
    requires next.complete && Last(next.batch.added).Some?
    ensures LiveFolded(LiveFolded(w, j, now, false).world, next, later, true).world.cursor.file == Last(next.batch.added)
  {
    LiveMovesExactlyWhen(w, j, now, false);
    LiveMovesExactlyWhen(LiveFolded(w, j, now, false).world, next, later, true);
  }

  /** **Unforced writes keep three seconds apart,** a write that failed counted: after one
      was tried, the next complete batch that is not forced moves the cursor if and only
      if the clock has gone on by three seconds. */
  lemma WritesKeepApart(w: World, j: Job, now: nat, ok: bool, next: Job, later: nat)
    requires j.complete && Last(j.batch.added).Some? && !w.cursor.frozen && (Forced(w, j) || Rested(w.cursor, now))
    requires next.complete && Last(next.batch.added).Some?
    requires var w1 := LiveFolded(w, j, now, ok).world; !Forced(w1, next)
    ensures var out := LiveFolded(LiveFolded(w, j, now, ok).world, next, later, true);
      MovesTo(out.notes, Last(next.batch.added).value) <==> later / 1000 >= now / 1000 + 3
  {
    LiveMovesExactlyWhen(w, j, now, ok);
    LiveMovesExactlyWhen(LiveFolded(w, j, now, ok).world, next, later, true);
  }

  /** Some record is accepted by one of these blocks. */
  ghost predicate HeldAt(c: Core, bs: seq<Block>) {
    exists t, b :: b in bs && AcceptedBy(c.records, t, b)
  }

  /** A fold ends saying whether an acceptance is held at a block the batch carried,
      whether this batch recorded it or an earlier one did. */
  lemma AcceptedMeansHeldAt(disk: Disk, d: Desk, j: Job, a: BlockAnswer)
    requires IndexExact(d.state.core) && j.stage == Reading([])
    ensures var ran := Section(disk, d, j, a).job;
      ran.stage.Finished? && (ran.stage.accepted <==> HeldAt(d.state.core, j.batch.added))
  {
    var c, bs := d.state.core, j.batch.added;
    if i :| 0 <= i < |bs| && bs[i] in c.index {
      var t := c.index[bs[i]][0];
      assert Listed(c.index, bs[i], t);
      assert AcceptedBy(c.records, t, bs[i]);
    }
    if HeldAt(c, bs) {
      var t, b :| b in bs && AcceptedBy(c.records, t, b);
      assert Listed(c.index, b, t);
      var i :| 0 <= i < |bs| && bs[i] == b;
    }
  }

  // ---- how a walk goes on ----

  /** **What follows a page:** another is asked for, from where this one ended, if and only
      if it added at least 100 blocks and was not the 16th; a shorter one ends the walk,
      with nothing held exactly when every page of it folded completely; and after a full
      16th the walk ends with the hold kept, or gives up and seeds, the hold kept exactly
      while it is younger than the pruning horizon. */
  lemma PageThenExactly(w: World, j: Job, at: Block, page: nat, clean: bool, now: nat, ok: bool)
    requires w.walk.Walking? && w.walk.at.Paging?
    ensures var w' := PageFolded(w, j, at, page, clean, now, ok).world;
      var all, last, full := clean && j.complete, Last(j.batch.added), |j.batch.added| >= 100;
      var since := if w.cursor.frozen then w.cursor.since else if j.complete then 0 else now;
      && (full && page < 15 <==> w'.walk.Walking? && w'.walk.at.Asking?)
      && (full && page < 15 ==> w'.walk.at == Asking(last.value, page + 1, all))
      && (!full ==> w'.walk.NotWalking? && w'.loop == Draining(None) && (w'.cursor.frozen <==> !all))
      && (full && page >= 15 ==>
            if !all && since != 0 && now < since + PRUNING_HORIZON_MS && (w.cursor.frozen || !j.complete)
            then w'.walk.NotWalking? && w'.loop == Draining(None) && w'.cursor.frozen
            else w'.walk == Walking(Seeding))
  {
  }

  // ---- a reconnect is walked ----

  /** A walk is still to begin. */
  predicate WalkDue(w: World) {
    w.walkAgain || w.walk == Walking(Starting)
  }

  predicate WalkBegins(notes: seq<Note>) {
    exists n :: n in notes && n.WalkBegan?
  }

  lemma ConnectOwesAWalk(disk: Disk, w: World)
    requires w.loop.Listening?
    ensures WalkDue(Step(disk, w, Connect).world)
  {
  }

  lemma PageKeepsAgain(w: World, j: Job, at: Block, page: nat, clean: bool, now: nat, ok: bool)
    ensures PageFolded(w, j, at, page, clean, now, ok).world.walkAgain == w.walkAgain
  {
  }

  lemma WalkKeepsDue(disk: Disk, w: World, at: WalkAt, a: Answer, now: nat, ok: bool)
    requires WalkDue(w) && w.walk == Walking(at)
    ensures var out := StepWalk(disk, w, at, a, now, ok); WalkDue(out.world) || WalkBegins(out.notes)
  {
    var out := StepWalk(disk, w, at, a, now, ok);
    match at
    case Starting => assert out.notes[0].WalkBegan?;
    case Paging(j, c, page, clean) =>
      var ran := Section(disk, w.desk, j, AsBlock(a));
      PageKeepsAgain(w.(desk := ran.desk, walk := Walking(Paging(ran.job, c, page, clean))), ran.job, c, page, clean, now, ok);
    case _ =>
  }

  lemma LiveKeepsAgain(w: World, j: Job, now: nat, ok: bool)
    ensures var w' := LiveFolded(w, j, now, ok).world; w'.walkAgain == w.walkAgain && w'.walk == w.walk && w'.loop == w.loop
  {
  }

  lemma LoopKeepsDue(disk: Disk, w: World, a: Answer, now: nat, ok: bool)
    requires WalkDue(w)
    ensures WalkDue(StepLoop(disk, w, a, now, ok).world)
  {
    match w.loop
    case FoldingLive(j) =>
      var ran := Section(disk, w.desk, j, AsBlock(a));
      LiveKeepsAgain(w.(desk := ran.desk).(loop := Listening), ran.job, now, ok);
    case Draining(Some(j)) =>
      var ran := Section(disk, w.desk, j, AsBlock(a));
      LiveKeepsAgain(w.(desk := ran.desk).(loop := Draining(None)), ran.job, now, ok);
    case _ =>
  }

  lemma StepKeepsDue(disk: Disk, w: World, i: Input)
    requires WalkDue(w)
    ensures var out := Step(disk, w, i); WalkDue(out.world) || WalkBegins(out.notes)
  {
    match i
    case WatchCall(_, _, _, _) =>
    case LookupCall(_) =>
    case LoopStep(a, now, ok) => LoopKeepsDue(disk, w, a, now, ok);
    case WalkStep(a, now, ok) =>
      if w.loop.Listening? && w.walk.Walking? { WalkKeepsDue(disk, w, w.walk.at, a, now, ok); }
    case _ =>
  }

  /** **A reconnect is walked.** From the moment the loop takes up a reconnect, through
      any run, a walk has begun since or one is still to begin. */
  lemma {:induction false} ReconnectIsWalked(disk: Disk, w: World, inputs: seq<Input>)
    requires WalkDue(w)
    ensures var out := Run(disk, w, inputs); WalkDue(out.world) || WalkBegins(out.notes)
    decreases |inputs|
  {
    if inputs != [] {
      var one := Step(disk, w, inputs[0]);
      var rest := Run(disk, one.world, inputs[1..]);
      StepKeepsDue(disk, w, inputs[0]);
      if WalkBegins(one.notes) {
        var n :| n in one.notes && n.WalkBegan?;
        assert n in one.notes + rest.notes;
      } else {
        ReconnectIsWalked(disk, one.world, inputs[1..]);
        if WalkBegins(rest.notes) {
          var n :| n in rest.notes && n.WalkBegan?;
          assert n in one.notes + rest.notes;
        }
      }
    }
  }

  /** What is still to begin waits for a walk or its drain, and the drain's end begins
      it. */
  lemma DrainedWalksAgain(disk: Disk, w: World, a: Answer, now: nat, ok: bool)
    requires w.walkAgain && w.loop == Draining(None) && w.heldBack == []
    ensures var w' := Step(disk, w, LoopStep(a, now, ok)).world;
      w'.walk == Walking(Starting) && w'.loop.Listening? && !w'.walkAgain && w'.desk.state.walking
  {
  }

  // ---- a send's acceptance is read ahead ----

  predicate NamedIn(ns: seq<Naming>, t: Txid, b: Block) {
    exists i :: 0 <= i < |ns| && ns[i].block == b && t in ns[i].txids
  }

  lemma NamedOn(n: Naming, ns: seq<Naming>, t: Txid, b: Block)
    ensures NamedIn([n] + ns, t, b) <==> (n.block == b && t in n.txids) || NamedIn(ns, t, b)
  {
    var all := [n] + ns;
    assert forall i :: 0 < i < |all| ==> all[i] == ns[i - 1];
    if NamedIn(ns, t, b) {
      var i :| 0 <= i < |ns| && ns[i].block == b && t in ns[i].txids;
      assert all[i + 1].block == b && t in all[i + 1].txids;
    }
    if n.block == b && t in n.txids {
      assert all[0].block == b;
    }
  }

  /** What is read ahead of a batch: each naming of a send of ours still waiting for its
      first acceptance, and nothing else. */
  lemma {:induction false} DueAheadExactly(s: State, ns: seq<Naming>, t: Txid, b: Block)
    ensures NamedIn(DueAhead(s, ns), t, b) <==> NamedIn(ns, t, b) && AwaitsFirstAcceptance(s, t)
    decreases |ns|
  {
    if ns != [] {
      var due := Among(ns[0].txids, set u | u in s.core.records && AwaitsFirstAcceptance(s, u));
      DueAheadExactly(s, ns[1..], t, b);
      assert ns == [ns[0]] + ns[1..];
      NamedOn(ns[0], ns[1..], t, b);
      if due != [] {
        NamedOn(Naming(ns[0].block, due), DueAhead(s, ns[1..]), t, b);
      } else {
        assert [] + DueAhead(s, ns[1..]) == DueAhead(s, ns[1..]);
      }
    }
  }

  /** One step for each block the loop reads ahead, all served. */
  function AheadSteps(answers: seq<BlockAnswer>): seq<Input> {
    if answers == [] then [] else [LoopStep(BlockIs(answers[0]), 0, true)] + AheadSteps(answers[1..])
  }

  predicate AllServed(answers: seq<BlockAnswer>) {
    forall i :: 0 <= i < |answers| ==> answers[i].Served?
  }

  /** Reading ahead what is due leaves each of its txids read ahead, and tells each. */
  lemma {:induction false} AheadIsRead(disk: Disk, w: World, batch: Batch, due: seq<Naming>, answers: seq<BlockAnswer>, t: Txid)
    requires w.loop == ReadingAhead(batch, due) && |answers| == |due| && AllServed(answers)
    ensures var out := Run(disk, w, AheadSteps(answers));
      && out.world.loop == ReadingAhead(batch, []) && out.world.desk.state.core == w.desk.state.core
      && out.world.walk == w.walk && out.world.heldBack == w.heldBack
      && (t in w.desk.state.ahead || (exists b: Block :: NamedIn(due, t, b)) ==> t in out.world.desk.state.ahead)
      && ((exists b: Block :: NamedIn(due, t, b)) ==> NowAccepted(t) in out.events)
    decreases |due|
  {
    if due != [] {
      var i := LoopStep(BlockIs(answers[0]), 0, true);
      var one := Step(disk, w, i);
      assert AheadSteps(answers)[0] == i && AheadSteps(answers)[1..] == AheadSteps(answers[1..]);
      AheadIsRead(disk, one.world, batch, due[1..], answers[1..], t);
      AheadOne(disk, w, batch, due, answers[0], t);
      assert due == [due[0]] + due[1..];
      forall b: Block | NamedIn(due, t, b)
        ensures t in due[0].txids || NamedIn(due[1..], t, b)
      {
        NamedOn(due[0], due[1..], t, b);
      }
    }
  }

  lemma AheadOne(disk: Disk, w: World, batch: Batch, due: seq<Naming>, a: BlockAnswer, t: Txid)
    requires w.loop == ReadingAhead(batch, due) && due != [] && a.Served?
    ensures var one := Step(disk, w, LoopStep(BlockIs(a), 0, true));
      && one.world == w.(loop := ReadingAhead(batch, due[1..]), desk := one.world.desk)
      && one.world.desk.state.core == w.desk.state.core
      && (t in w.desk.state.ahead || t in due[0].txids ==> t in one.world.desk.state.ahead)
      && (t in due[0].txids ==> NowAccepted(t) in one.events)
  {
    if t in due[0].txids {
      var i :| 0 <= i < |due[0].txids| && due[0].txids[i] == t;
      assert AcceptedEvents(due[0].txids)[i] == NowAccepted(t);
    }
  }

  lemma DeliverReadsAhead(disk: Disk, w: World, batch: Batch, at: nat)
    requires w.loop.Listening? && w.walk.Walking?
    ensures Step(disk, w, Deliver(Vcc(batch), at)).world == w.(loop := ReadingAhead(batch, DueAhead(w.desk.state, batch.accepted)))
  {
  }

  lemma ReadAheadHoldsBack(disk: Disk, w: World, batch: Batch, at: nat)
    requires w.loop == ReadingAhead(batch, [])
    ensures Step(disk, w, LoopStep(NoAnswer, at, true)).world == w.(loop := Listening, heldBack := w.heldBack + [Vcc(batch)])
  {
  }

  lemma AheadReadsAccepted(s: State, t: Txid, now: nat)
    requires t in s.core.records && s.core.records[t].status.Submitted? && t in s.ahead
    ensures Read(s, t, now).Some? && Read(s, t, now).value.ReadsAccepted?
  {
  }

  /** **A send's acceptance does not wait for a walk.** A live batch that arrives during
      one and names a send of ours still waiting: once its blocks are read, and before
      anything else happens, the send is told accepted and reads accepted; and the batch
      is held back to be folded in its turn. */
  lemma SendIsReadAhead(disk: Disk, w: World, batch: Batch, answers: seq<BlockAnswer>, t: Txid, b: Block, at: nat, now: nat)
    requires w.loop.Listening? && w.walk.Walking? && AwaitsFirstAcceptance(w.desk.state, t) && NamedIn(batch.accepted, t, b)
    requires |answers| == |DueAhead(w.desk.state, batch.accepted)| && AllServed(answers)
    ensures var out := Run(disk, Step(disk, w, Deliver(Vcc(batch), at)).world, AheadSteps(answers));
      var after := Step(disk, out.world, LoopStep(NoAnswer, at, true)).world;
      && NowAccepted(t) in out.events
      && Read(out.world.desk.state, t, now).Some? && Read(out.world.desk.state, t, now).value.ReadsAccepted?
      && after.loop.Listening? && after.heldBack == w.heldBack + [Vcc(batch)]
  {
    var due := DueAhead(w.desk.state, batch.accepted);
    DueAheadExactly(w.desk.state, batch.accepted, t, b);
    DeliverReadsAhead(disk, w, batch, at);
    var reading := w.(loop := ReadingAhead(batch, due));
    AheadIsRead(disk, reading, batch, due, answers, t);
    var out := Run(disk, reading, AheadSteps(answers));
    AheadReadsAccepted(out.world.desk.state, t, now);
    ReadAheadHoldsBack(disk, out.world, batch, at);
  }

  // ---- and forgotten when the walk is over ----

  /** Only a walk, or its drain, has anything read ahead. */
  predicate AheadOfAWalk(w: World) {
    (w.loop.ReadingAhead? ==> w.walk.Walking?) && (!w.desk.state.walking ==> w.desk.state.ahead == map[])
  }

  lemma OpLeavesAhead(disk: Disk, s: State, op: Op)
    requires !op.AheadOp? && s.ahead == map[]
    ensures Apply(disk, s, op).0.ahead == map[]
  {
    match op
    case WatchOp(t, source, now, order) => RegisterLeavesAhead(disk, s, t, source, now, order);
    case RememberedOp(t, source, now, seen, order) => RememberedLeavesAhead(disk, s, t, source, now, seen, order);
    case SinkOp(blue, now, order) =>
      var settled := Settled(disk, s.(sinkBlue := blue), order).state;
      DropEachKeepsRecords(disk, settled, Expired(settled, now, order), 0);
    case TickOp(now, order) => GuardAllIs(s, DueEvents(s, now, order), 0);
    case _ =>
  }

  lemma RegisterLeavesAhead(disk: Disk, s: State, t: Txid, source: Source, now: nat, order: seq<Txid>)
    ensures Register(disk, s, t, source, now, order).state.ahead == s.ahead
  {
  }

  lemma RememberedLeavesAhead(disk: Disk, s: State, t: Txid, source: Source, now: nat, seen: Remembered, order: seq<Txid>)
    requires s.ahead == map[]
    ensures RegisterRemembered(disk, s, t, source, now, seen, order).state.ahead == map[]
  {
    RegisterLeavesAhead(disk, s, t, source, now, order);
  }

  predicate NoneAhead(ops: seq<Op>) {
    forall i :: 0 <= i < |ops| ==> !ops[i].AheadOp?
  }

  lemma {:induction false} PlayLeavesAhead(disk: Disk, s: State, ops: seq<Op>)
    requires NoneAhead(ops) && s.ahead == map[]
    ensures Play(disk, s, ops).0.ahead == map[]
    decreases |ops|
  {
    if ops != [] {
      PlayNext(disk, s, ops);
      OpLeavesAhead(disk, s, ops[0]);
      PlayLeavesAhead(disk, Apply(disk, s, ops[0]).0, ops[1..]);
    }
  }

  lemma {:induction false} WalkOpsNoneAhead(ts: seq<Txid>, b: Block, f: Facts)
    ensures NoneAhead(WalkOps(ts, b, f))
    decreases |ts|
  {
    if ts != [] {
      WalkOpsNoneAhead(ts[1..], b, f);
    }
  }

  lemma {:induction false} PageOpsNoneAhead(accepted: seq<WalkAcceptance>)
    ensures NoneAhead(PageOps(accepted))
    decreases |accepted|
  {
    if accepted != [] {
      WalkOpsNoneAhead(accepted[0].txids, accepted[0].block, accepted[0].facts);
      PageOpsNoneAhead(accepted[1..]);
    }
  }

  lemma LoopOpsNoneAhead(w: World, a: Answer)
    requires !w.loop.ReadingAhead?
    ensures NoneAhead(LoopOps(w, a))
  {
    if w.loop == Draining(None) && w.heldBack != [] && w.heldBack[0].Message? {
      PageOpsNoneAhead(w.heldBack[0].page.accepted);
    }
  }

  lemma InputOpsNoneAhead(w: World, i: Input)
    requires !w.loop.ReadingAhead?
    ensures NoneAhead(InputOps(w, i))
  {
    match i
    case LoopStep(a, _, _) => LoopOpsNoneAhead(w, a);
    case Deliver(feed, _) => if feed.Message? { PageOpsNoneAhead(feed.page.accepted); }
    case _ =>
  }

  lemma NoneAheadThen(ops: seq<Op>, op: Op)
    requires NoneAhead(ops) && !op.AheadOp?
    ensures NoneAhead(ops + [op])
  {
  }

  lemma StepOpsNoneAhead(disk: Disk, w: World, i: Input)
    requires !w.loop.ReadingAhead?
    ensures NoneAhead(StepOps(disk, w, i))
  {
    var s' := Step(disk, w, i).world.desk.state;
    InputOpsNoneAhead(w, i);
    NoneAheadThen(InputOps(w, i), MarksOp(s'.depthHeld, s'.walking));
  }

  /** The step that ends a walk's drain is the only one that lets the walk's mark go. */
  lemma WalkingEndsDrained(disk: Disk, w: World, l: Ledger, i: Input)
    requires Kept(w, l) && w.desk.state.walking && !Step(disk, w, i).world.desk.state.walking
    ensures Step(disk, w, i).world.desk.state.ahead == map[]
  {
    StepKeeps(disk, w, l, i);
    if i.LoopStep? && w.loop == Draining(None) && w.heldBack == [] {
    } else {
      StaysWalking(disk, w, l, i);
    }
  }

  /** A walk that is on, or being drained. */
  predicate WalkOn(w: World) {
    w.walk.Walking? || w.loop.Draining?
  }

  lemma LiveStaysOn(disk: Disk, w: World, j: Job, a: Answer, now: nat, ok: bool, during: Job -> Loop, after: Loop)
    ensures var w' := StepLive(disk, w, j, a, now, ok, during, after).world;
      w'.walk == w.walk && (w'.loop == after || exists k :: w'.loop == during(k))
  {
    var ran := Section(disk, w.desk, j, AsBlock(a));
    LiveKeepsAgain(w.(desk := ran.desk).(loop := after), ran.job, now, ok);
    assert StepLive(disk, w, j, a, now, ok, during, after).world.loop == (if ran.job.stage.Finished? then after else during(ran.job));
  }

  lemma LoopStaysOn(disk: Disk, w: World, a: Answer, now: nat, ok: bool)
    requires WalkOn(w) && !(w.loop == Draining(None) && w.heldBack == [])
    ensures WalkOn(StepLoop(disk, w, a, now, ok).world)
  {
    match w.loop
    case FoldingLive(j) => LiveStaysOn(disk, w, j, a, now, ok, (j: Job) => FoldingLive(j), Listening);
    case Draining(Some(j)) => LiveStaysOn(disk, w, j, a, now, ok, (j: Job) => Draining(Some(j)), Draining(None));
    case _ =>
  }

  lemma PageStaysOn(w: World, j: Job, at: Block, page: nat, clean: bool, now: nat, ok: bool)
    requires WalkOn(w)
    ensures WalkOn(PageFolded(w, j, at, page, clean, now, ok).world)
  {
  }

  lemma WalkStaysOn(disk: Disk, w: World, at: WalkAt, a: Answer, now: nat, ok: bool)
    ensures WalkOn(StepWalk(disk, w, at, a, now, ok).world)
  {
    match at
    case Paging(j, c, page, clean) =>
      var ran := Section(disk, w.desk, j, AsBlock(a));
      PageStaysOn(w.(desk := ran.desk, walk := Walking(Paging(ran.job, c, page, clean))), ran.job, c, page, clean, now, ok);
    case _ =>
  }

  lemma StaysWalking(disk: Disk, w: World, l: Ledger, i: Input)
    requires Kept(w, l) && w.desk.state.walking && !(i.LoopStep? && w.loop == Draining(None) && w.heldBack == [])
    ensures WalkOn(Step(disk, w, i).world)
  {
    assert WalkOn(w);
    match i
    case LoopStep(a, now, ok) => LoopStaysOn(disk, w, a, now, ok);
    case WalkStep(a, now, ok) =>
      if w.loop.Listening? && w.walk.Walking? { WalkStaysOn(disk, w, w.walk.at, a, now, ok); }
    case _ =>
  }

  lemma StepKeepsAheadOfAWalk(disk: Disk, w: World, l: Ledger, i: Input)
    requires Kept(w, l) && AheadOfAWalk(w)
    ensures AheadOfAWalk(Step(disk, w, i).world)
  {
    var w' := Step(disk, w, i).world;
    ReadingNeedsAWalk(disk, w, i);
    if w.desk.state.walking {
      if !w'.desk.state.walking {
        WalkingEndsDrained(disk, w, l, i);
      }
    } else {
      StepIsOps(disk, w, i);
      StepOpsNoneAhead(disk, w, i);
      PlayLeavesAhead(disk, w.desk.state, StepOps(disk, w, i));
    }
  }

  lemma LoopNeedsAWalk(disk: Disk, w: World, a: Answer, now: nat, ok: bool)
    requires w.loop.ReadingAhead? ==> w.walk.Walking?
    ensures var w' := StepLoop(disk, w, a, now, ok).world; w'.loop.ReadingAhead? ==> w'.walk.Walking?
  {
    match w.loop
    case FoldingLive(j) => LiveStaysOn(disk, w, j, a, now, ok, (j: Job) => FoldingLive(j), Listening);
    case Draining(Some(j)) => LiveStaysOn(disk, w, j, a, now, ok, (j: Job) => Draining(Some(j)), Draining(None));
    case _ =>
  }

  lemma PageReadsNothing(w: World, j: Job, at: Block, page: nat, clean: bool, now: nat, ok: bool)
    requires w.loop.Listening?
    ensures !PageFolded(w, j, at, page, clean, now, ok).world.loop.ReadingAhead?
  {
  }

  lemma WalkReadsNothing(disk: Disk, w: World, at: WalkAt, a: Answer, now: nat, ok: bool)
    requires w.loop.Listening?
    ensures !StepWalk(disk, w, at, a, now, ok).world.loop.ReadingAhead?
  {
    match at
    case Paging(j, c, page, clean) =>
      var ran := Section(disk, w.desk, j, AsBlock(a));
      PageReadsNothing(w.(desk := ran.desk, walk := Walking(Paging(ran.job, c, page, clean))), ran.job, c, page, clean, now, ok);
    case _ =>
  }

  lemma ReadingNeedsAWalk(disk: Disk, w: World, i: Input)
    requires w.loop.ReadingAhead? ==> w.walk.Walking?
    ensures var w' := Step(disk, w, i).world; w'.loop.ReadingAhead? ==> w'.walk.Walking?
  {
    match i
    case LoopStep(a, now, ok) => LoopNeedsAWalk(disk, w, a, now, ok);
    case WalkStep(a, now, ok) =>
      if w.loop.Listening? && w.walk.Walking? { WalkReadsNothing(disk, w, w.walk.at, a, now, ok); }
    case _ =>
  }

  /** **Nothing read ahead outlives its walk:** over every run, with no walk on and
      nothing it held back left to fold, a record reads as it is on disk. */
  lemma {:induction false} AheadOnlyDuringWalks(disk: Disk, w: World, l: Ledger, inputs: seq<Input>)
    requires Kept(w, l) && AheadOfAWalk(w)
    ensures AheadOfAWalk(Run(disk, w, inputs).world)
    decreases |inputs|
  {
    if inputs != [] {
      StepKeeps(disk, w, l, inputs[0]);
      StepKeepsAheadOfAWalk(disk, w, l, inputs[0]);
      AheadOnlyDuringWalks(disk, Step(disk, w, inputs[0]).world, Audit(l, Step(disk, w, inputs[0]).notes), inputs[1..]);
    }
  }

  // ---- a block that cannot be read ----

  /** **The stand-in claims no depth and names no sender:** a block the node cannot serve
      is given the sink's own score, so what it accepts reads at depth 0 then; no time;
      and no score to look a sender up by. */
  lemma StandInIsShallow(disk: Disk, s: State, sink: Option<nat>, b: Block, ts: seq<Txid>, t: Txid, now: nat)
    requires ReadBlock(s, Unserved(sink)).1.Some?
    ensures var (s1, got) := ReadBlock(s, Unserved(sink)); var d := OnAccepted(disk, s1, b, got.value.facts, ts);
      && got.value.daa.None? && got.value.facts.ms == 0 && got.value.facts.blue == s1.sinkBlue
      && (NowAccepted(t) in d.events ==> Read(d.state, t, now) == Some(ReadsAccepted(0, 0)))
  {
    var (s1, got) := ReadBlock(s, Unserved(sink));
    var folded := AcceptAll(disk, From(s1.core), b, got.value.facts, ts);
    AcceptsFacts(disk, From(s1.core), b, got.value.facts, ts, t);
    if NowAccepted(t) in AcceptedEvents(folded.moved) {
      assert t in folded.moved;
    }
  }

  /** **Which facts stand in:** the score known, and nothing is asked; with none known,
      the sink's as the node tells it, known from then on; and with no answer to that, the
      block is left unread. */
  lemma StandInExactly(s: State, sink: Option<nat>)
    ensures var (s1, got) := ReadBlock(s, Unserved(sink));
      && s1 == s.(sinkBlue := s1.sinkBlue)
      && (got.None? <==> s.sinkBlue == 0 && sink.None?)
      && (s.sinkBlue != 0 || sink.None? ==> s1 == s)
      && (s.sinkBlue == 0 && sink.Some? ==> s1.sinkBlue == sink.value)
  {
  }

  /** Who a fold moved holds the block's facts. */
  lemma {:induction false} AcceptsFacts(disk: Disk, done: Folded, b: Block, f: Facts, ts: seq<Txid>, t: Txid)
    requires t in done.moved ==> t in done.core.records && done.core.records[t].status == Accepted(b, f.blue, f.ms)
    ensures var out := AcceptAll(disk, done, b, f, ts);
      t in out.moved ==> t in out.core.records && out.core.records[t].status == Accepted(b, f.blue, f.ms)
    decreases |ts|
  {
    if ts != [] {
      AcceptsFacts(disk, Then(done, ts[0], AcceptOne(disk, done.core, b, f, ts[0])), b, f, ts[1..], t);
    }
  }

  // ---- a batch answers the lookups it can ----

  /** Where a batch names `t`, its matching asks for that block's answer if anyone wants
      `t`'s sender. */
  lemma {:induction false} MatchesWant(ns: seq<Naming>, watched: set<Txid>, interest: seq<Txid>, t: Txid)
    ensures Wants(MatchAll(ns, watched, interest), t) <==> t in interest && exists i :: 0 <= i < |ns| && t in ns[i].txids
    decreases |ns|
  {
    if ns != [] {
      var m := Match(ns[0].block, Among(ns[0].txids, watched), Among(ns[0].txids, Members(interest)));
      var rest := MatchAll(ns[1..], watched, interest);
      MatchesWant(ns[1..], watched, interest, t);
      assert forall i :: 0 < i < |ns| ==> ns[i] == ns[1..][i - 1];
      if exists i :: 0 <= i < |ns[1..]| && t in ns[1..][i].txids {
        var i :| 0 <= i < |ns[1..]| && t in ns[1..][i].txids;
        assert t in ns[i + 1].txids;
      }
      if m.watched != [] || m.wanted != [] {
        WantsOn(m, rest, t);
      } else {
        assert [] + rest == rest;
      }
    }
  }

  predicate Wants(ms: seq<Match>, t: Txid) {
    exists i :: 0 <= i < |ms| && t in ms[i].wanted
  }

  lemma WantsOn(m: Match, ms: seq<Match>, t: Txid)
    ensures Wants([m] + ms, t) <==> t in m.wanted || Wants(ms, t)
  {
    var all := [m] + ms;
    assert forall i :: 0 < i < |all| ==> all[i] == ms[i - 1];
    if Wants(ms, t) {
      var i :| 0 <= i < |ms| && t in ms[i].wanted;
      assert t in all[i + 1].wanted;
    }
    if t in m.wanted {
      assert t in all[0].wanted;
    }
  }

  /** What the fold has left to match. */
  function LeftToMatch(j: Job): seq<Match> {
    match j.stage
    case Reading(todo) => todo
    case Resolving(m, got, todo) => [m] + todo
    case Accepting(_, _, todo) => todo
    case _ => []
  }

  /** One section with its block served: a queued lookup among what is left either is
      answered, once, and leaves the queue, or is left for the sections to come. */
  lemma SectionAnswers(disk: Disk, d: Desk, j: Job, a: BlockAnswer, t: Txid)
    requires NoDups(d.interest) && a.Served? && (j.stage.Resolving? ==> j.stage.got.daa.Some?)
    requires j.stage.Reading? || j.stage.Resolving? || j.stage.Accepting?
    ensures var ran := Section(disk, d, j, a);
      && NoDups(ran.desk.interest) && (ran.job.stage.Resolving? ==> ran.job.stage.got.daa.Some?)
      && (ran.job.stage.Reading? || ran.job.stage.Resolving? || ran.job.stage.Accepting? || ran.job.stage.Finished?)
      && (ran.job.stage.Finished? ==> LeftToMatch(j) == [])
      && var answered := j.stage.Resolving? && t in d.interest && t in j.stage.m.wanted;
         && Answers(ran.events, t) == (if answered then 1 else 0)
         && (t in ran.desk.interest <==> t in d.interest && !answered)
         && (!answered && t in d.interest ==> (Wants(LeftToMatch(ran.job), t) <==> Wants(LeftToMatch(j), t)))
  {
    match j.stage
    case Reading(todo) => if todo != [] { assert todo == [todo[0]] + todo[1..]; }
    case Resolving(m, got, todo) =>
      ResolveAnswers(d.interest, m.wanted, got.daa.value, t);
      WantsOn(m, todo, t);
    case Accepting(m, got, _) => NoAnswerAmong(OnAccepted(disk, d.state, m.block, got.facts, m.watched).events, t);
  }

  /** Sections one after another, each block served. */
  function RunServed(disk: Disk, d: Desk, j: Job, answers: seq<BlockAnswer>): Ran
    decreases |answers|
  {
    if answers == [] then Ran(d, j, [])
    else
      var ran := Section(disk, d, j, answers[0]);
      var rest := RunServed(disk, ran.desk, ran.job, answers[1..]);
      rest.(events := ran.events + rest.events)
  }

  /** **A batch answers the lookups it can.** Over the sections a fold has left, its
      blocks served, each queued lookup a block of them accepts is answered exactly once
      and leaves the queue; any other stays queued, unanswered. */
  lemma {:induction false} BatchAnswersLookups(disk: Disk, d: Desk, j: Job, answers: seq<BlockAnswer>, t: Txid)
    requires NoDups(d.interest) && AllServed(answers) && (j.stage.Resolving? ==> j.stage.got.daa.Some?)
    requires j.stage.Reading? || j.stage.Resolving? || j.stage.Accepting?
    requires RunServed(disk, d, j, answers).job.stage.Finished?
    requires forall k :: 0 <= k < |answers| ==> !RunServed(disk, d, j, answers[..k]).job.stage.Finished?
    ensures var ran := RunServed(disk, d, j, answers); var wanted := t in d.interest && Wants(LeftToMatch(j), t);
      Answers(ran.events, t) == (if wanted then 1 else 0) && (t in ran.desk.interest <==> t in d.interest && !wanted)
    decreases |answers|
  {
    assert answers[..0] == [];
    var ran := Section(disk, d, j, answers[0]);
    var rest := RunServed(disk, ran.desk, ran.job, answers[1..]);
    SectionAnswers(disk, d, j, answers[0], t);
    AnswersSplit(ran.events, rest.events, t);
    if j.stage.Resolving? {
      WantsOn(j.stage.m, j.stage.todo, t);
    }
    if |answers| > 1 {
      assert answers[..1] == [answers[0]] && answers[..1][1..] == [];
      assert RunServed(disk, d, j, answers[..1]).job == ran.job;
      forall k | 0 <= k < |answers[1..]|
        ensures !RunServed(disk, ran.desk, ran.job, answers[1..][..k]).job.stage.Finished?
      {
        assert answers[..k + 1][1..] == answers[1..][..k];
        assert !RunServed(disk, d, j, answers[..k + 1]).job.stage.Finished?;
      }
      BatchAnswersLookups(disk, ran.desk, ran.job, answers[1..], t);
    } else {
      assert answers[1..] == [];
    }
  }

  // ---- the queue of lookups over runs ----

  predicate QueueValid(d: Desk) {
    NoDups(d.interest) && |d.interest| <= SENDER_INTEREST_CAPACITY
  }

  lemma SectionKeepsQueue(disk: Disk, d: Desk, j: Job, a: BlockAnswer)
    requires QueueValid(d)
    ensures QueueValid(Section(disk, d, j, a).desk)
  {
    if j.stage.Resolving? && j.stage.got.daa.Some? {
      ResolveShrinks(d.interest, j.stage.m.wanted, j.stage.got.daa.value);
    }
  }

  lemma MessageKeepsQueue(disk: Disk, d: Desk, page: Page, now: nat)
    requires QueueValid(d)
    ensures QueueValid(FoldWalk(disk, d, page, now).desk)
  {
    ResolvePageShrinks(d.interest, page.accepted, d.state.core.offChain.blocks);
  }

  lemma PageKeepsQueue(w: World, j: Job, at: Block, page: nat, clean: bool, now: nat, ok: bool)
    ensures PageFolded(w, j, at, page, clean, now, ok).world.desk.interest == w.desk.interest
  {
  }

  lemma WalkKeepsQueue(disk: Disk, w: World, at: WalkAt, a: Answer, now: nat, ok: bool)
    requires QueueValid(w.desk)
    ensures QueueValid(StepWalk(disk, w, at, a, now, ok).world.desk)
  {
    match at
    case Paging(j, c, page, clean) =>
      var ran := Section(disk, w.desk, j, AsBlock(a));
      SectionKeepsQueue(disk, w.desk, j, AsBlock(a));
      PageKeepsQueue(w.(desk := ran.desk, walk := Walking(Paging(ran.job, c, page, clean))), ran.job, c, page, clean, now, ok);
    case _ =>
  }

  lemma LiveKeepsQueue(disk: Disk, w: World, j: Job, a: Answer, now: nat, ok: bool, during: Job -> Loop, after: Loop)
    requires QueueValid(w.desk)
    ensures QueueValid(StepLive(disk, w, j, a, now, ok, during, after).world.desk)
  {
    SectionKeepsQueue(disk, w.desk, j, AsBlock(a));
  }

  lemma DrainKeepsQueue(disk: Disk, w: World, a: Answer, now: nat, ok: bool)
    requires QueueValid(w.desk) && w.loop == Draining(None)
    ensures QueueValid(StepLoop(disk, w, a, now, ok).world.desk)
  {
    if w.heldBack != [] && w.heldBack[0].Message? {
      MessageKeepsQueue(disk, w.desk, w.heldBack[0].page, now);
    }
  }

  lemma LoopKeepsQueue(disk: Disk, w: World, a: Answer, now: nat, ok: bool)
    requires QueueValid(w.desk)
    ensures QueueValid(StepLoop(disk, w, a, now, ok).world.desk)
  {
    match w.loop
    case FoldingLive(j) => LiveKeepsQueue(disk, w, j, a, now, ok, (j: Job) => FoldingLive(j), Listening);
    case Draining(Some(j)) => LiveKeepsQueue(disk, w, j, a, now, ok, (j: Job) => Draining(Some(j)), Draining(None));
    case Draining(None) => DrainKeepsQueue(disk, w, a, now, ok);
    case _ =>
  }

  lemma StepKeepsQueue(disk: Disk, w: World, i: Input)
    requires QueueValid(w.desk)
    ensures QueueValid(Step(disk, w, i).world.desk)
  {
    match i
    case LookupCall(t) => NoteKeepsBound(w.desk, t, 0);
    case WatchCall(_, _, _, _) =>
    case LoopStep(a, now, ok) => LoopKeepsQueue(disk, w, a, now, ok);
    case WalkStep(a, now, ok) =>
      if w.loop.Listening? && w.walk.Walking? { WalkKeepsQueue(disk, w, w.walk.at, a, now, ok); }
    case Deliver(feed, now) =>
      if w.loop.Listening? && feed.Message? { MessageKeepsQueue(disk, w.desk, feed.page, now); }
    case _ =>
  }

  /** The queue of lookups stays within its bound, each lookup once, over every run. */
  lemma {:induction false} QueueOverRuns(disk: Disk, w: World, inputs: seq<Input>)
    requires QueueValid(w.desk)
    ensures QueueValid(Run(disk, w, inputs).world.desk)
    decreases |inputs|
  {
    if inputs != [] {
      StepKeepsQueue(disk, w, inputs[0]);
      QueueOverRuns(disk, Step(disk, w, inputs[0]).world, inputs[1..]);
    }
  }
}

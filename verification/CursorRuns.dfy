/** The law of the held cursor over every run of the tracker's loop (`fold_live`,
    `catch_up`, `freeze_cursor` and `release_cursor` in
    `rust/chain/src/acceptance.rs`). A ledger audits what the loop notes; main
    results: `CursorSafety`, `IncompleteFoldIsCoveredAgain`, `HoldGivenUpOnlyWhen`
    and `NothingIsClaimedWhileOwed`. */
module CursorRuns {
  import opened Bytes
  import opened WatchLog
  import opened ChainBatch
  import opened Tracker
  import opened MessageWalk
  import opened TrackerLoop

  // ---- what a history of notes means ----

  /** What a history of notes adds up to.
      `owing`: some batch since the last release did not fold completely, the
      first of them at `since`.
      `next`: the block the walk in progress must ask its next page from, after
      `pages` of them, all folded completely if `clean`.
      `fold`: the last fold, if no walk began since.
      `file`: the block the cursor was last moved to.
      `gaveUp`: the walk in progress gave up on its place.
      `holds`: how many holds have begun.
      `lawful`: every note so far obeyed the law of the cursor. */
  datatype Ledger = Ledger(owing: bool, since: nat, clean: bool, next: Option<Block>, pages: nat,
                           fold: Option<Fold>, file: Option<Block>, gaveUp: bool, holds: nat, lawful: bool)

  datatype Fold = Fold(page: bool, last: Option<Block>, tip: bool)

  /** A hold young enough to be kept. */
  predicate Keeps(l: Ledger, now: nat) {
    l.owing && l.since != 0 && SatSub(now, l.since) < PRUNING_HORIZON_MS
  }

  /** The law of the cursor. A walk begins at the persisted cursor and asks each
      page from the block the one before it ended on. A live batch moves the cursor
      to its own last block, just folded, with nothing owed. A page moves it to its
      own last block when every page of its walk so far folded completely. A hold
      ends only when such a walk's page reaches the tip, or by a re-seed; and a walk
      re-seeds only when there was no cursor to start from, when the node answers
      no more or the pages run out past the hold's horizon, or when all the pages
      it may ask for folded completely short of the tip. */
  predicate Legal(l: Ledger, n: Note) {
    match n
    case WalkBegan(from) => from == l.file
    case FoldEnded(asked, _, _, _, _) => asked.Some? ==> l.next == asked
    case Moved(b, writer) =>
      (match writer
       case ByLive => !l.owing && l.fold.Some? && !l.fold.value.page && l.fold.value.last == Some(b)
       case ByPage => l.clean && l.next == Some(b) && l.fold.Some? && l.fold.value.page && l.fold.value.last == Some(b)
       case BySeed => l.gaveUp)
    case GaveUp(reason, now) =>
      (match reason
       case NoCursor => l.file.None?
       case Unanswered => l.next.Some? && !Keeps(l, now)
       case OutOfPages => l.next.Some? && l.pages == MAX_VCC_CATCHUP_PAGES && (l.clean || !Keeps(l, now)))
    case Released(seeded) =>
      if seeded then l.gaveUp else l.clean && l.next.Some? && l.fold.Some? && l.fold.value.page && l.fold.value.tip
  }

  function Post(l: Ledger, n: Note): Ledger {
    var l := l.(lawful := l.lawful && Legal(l, n));
    match n
    case WalkBegan(from) => l.(clean := true, next := from, pages := 0, fold := None, gaveUp := false)
    case FoldEnded(asked, complete, last, tip, now) =>
      l.(owing := l.owing || !complete, since := if complete || l.owing then l.since else now,
         clean := l.clean && (asked.Some? ==> complete),
         next := if asked.Some? && last.Some? then last else asked,
         pages := l.pages + (if asked.Some? then 1 else 0),
         fold := Some(Fold(asked.Some?, last, tip)), gaveUp := false,
         holds := l.holds + (if complete || l.owing then 0 else 1))
    case Moved(b, _) => l.(file := Some(b))
    case GaveUp(_, _) => l.(next := None, gaveUp := true)
    case Released(_) => l.(owing := false, next := None, gaveUp := false)
  }

  function Audit(l: Ledger, notes: seq<Note>): Ledger
    decreases |notes|
  {
    if notes == [] then l else Audit(Post(l, notes[0]), notes[1..])
  }

  function Opening(file: Option<Block>): Ledger {
    Ledger(false, 0, true, None, 0, None, file, false, 0, true)
  }

  lemma {:induction false} AuditSplit(l: Ledger, a: seq<Note>, b: seq<Note>)
    ensures Audit(l, a + b) == Audit(Audit(l, a), b)
    decreases |a|
  {
    if a == [] {
      assert a + b == b;
    } else {
      assert (a + b)[0] == a[0] && (a + b)[1..] == a[1..] + b;
      AuditSplit(Post(l, a[0]), a[1..], b);
    }
  }

  /** A history and its last note. */
  lemma AuditLast(l: Ledger, notes: seq<Note>)
    requires notes != []
    ensures Audit(l, notes) == Post(Audit(l, notes[..|notes| - 1]), notes[|notes| - 1])
  {
    var last := notes[|notes| - 1];
    assert notes == notes[..|notes| - 1] + [last];
    AuditSplit(l, notes[..|notes| - 1], [last]);
    assert [last][1..] == [];
  }

  /** A lawful whole is lawful at every note, and up to it. */
  lemma {:induction false} AuditAt(l: Ledger, notes: seq<Note>, i: nat)
    requires Audit(l, notes).lawful && i < |notes|
    ensures Audit(l, notes[..i]).lawful && Legal(Audit(l, notes[..i]), notes[i])
    decreases |notes|
  {
    AuditLast(l, notes);
    if i < |notes| - 1 {
      AuditAt(l, notes[..|notes| - 1], i);
      assert notes[..|notes| - 1][..i] == notes[..i];
    }
  }

  lemma AuditFew(l: Ledger, a: Note, b: Note, c: Note)
    ensures Audit(l, []) == l
    ensures Audit(l, [a]) == Post(l, a)
    ensures Audit(l, [a, b]) == Post(Post(l, a), b)
    ensures Audit(l, [a, b, c]) == Post(Post(Post(l, a), b), c)
  {
    var la := Post(l, a);
    var lb := Post(la, b);
    assert [a][1..] == [] && [b][1..] == [] && [c][1..] == [];
    assert Audit(la, [b]) == lb && Audit(lb, [c]) == Post(lb, c);
    assert [a, b][1..] == [b] && [b, c][1..] == [c];
    assert Audit(la, [b, c]) == Post(lb, c);
    assert [a, b, c][1..] == [b, c];
  }

  // ---- the same, outright ----

  /** What the cursor's file holds after a history. */
  function FileAfter(file: Option<Block>, notes: seq<Note>): Option<Block>
    decreases |notes|
  {
    if notes == [] then file
    else
      var n := notes[|notes| - 1];
      if n.Moved? then Some(n.block) else FileAfter(file, notes[..|notes| - 1])
  }

  /** A stretch of one walk: nothing but complete pages and the moves they make,
      the first page asked from `from`, each of the others from the block the one
      before it ended on, the last one ending on `to`. */
  predicate Covers(from: Block, notes: seq<Note>, to: Block)
    decreases |notes|
  {
    if notes == [] then to == from
    else
      var before, n := notes[..|notes| - 1], notes[|notes| - 1];
      match n
      case FoldEnded(asked, complete, last, _, _) =>
        complete && asked.Some? && Covers(from, before, asked.value) && to == (if last.Some? then last.value else asked.value)
      case Moved(_, writer) => writer == ByPage && Covers(from, before, to)
      case _ => false
  }

  function Pages(notes: seq<Note>): nat
    decreases |notes|
  {
    if notes == [] then 0
    else Pages(notes[..|notes| - 1]) + (if notes[|notes| - 1].FoldEnded? then 1 else 0)
  }

  /** At `k` a walk began at what the file held, and from there it has covered the
      chain up to `to`. */
  predicate CoveredSince(file: Option<Block>, notes: seq<Note>, k: int, to: Block) {
    && 0 <= k < |notes| && notes[k].WalkBegan? && notes[k].from.Some?
    && notes[k].from == FileAfter(file, notes[..k])
    && Covers(notes[k].from.value, notes[k + 1..], to)
  }

  /** What a lawful ledger holds at any time. */
  lemma {:induction false} LedgerShape(file: Option<Block>, notes: seq<Note>)
    requires Audit(Opening(file), notes).lawful
    ensures var l := Audit(Opening(file), notes);
      && l.file == FileAfter(file, notes)
      && (l.next.Some? ==> !l.gaveUp && (l.fold.Some? ==> l.fold.value.page))
    decreases |notes|
  {
    if notes != [] {
      AuditLast(Opening(file), notes);
      LedgerShape(file, notes[..|notes| - 1]);
    }
  }

  lemma CoversMore(file: Option<Block>, notes: seq<Note>, k: int, at: Block, to: Block)
    requires notes != [] && CoveredSince(file, notes[..|notes| - 1], k, at)
    requires match notes[|notes| - 1]
      case FoldEnded(asked, complete, last, _, _) => complete && asked == Some(at) && to == (if last.Some? then last.value else at)
      case Moved(_, writer) => writer == ByPage && to == at
      case _ => false
    ensures CoveredSince(file, notes, k, to)
    ensures Pages(notes[k + 1..]) == Pages(notes[..|notes| - 1][k + 1..]) + (if notes[|notes| - 1].FoldEnded? then 1 else 0)
  {
    var before := notes[..|notes| - 1];
    assert before[..k] == notes[..k] && before[k] == notes[k];
    var since := notes[k + 1..];
    assert since[..|since| - 1] == before[k + 1..] && since[|since| - 1] == notes[|notes| - 1];
  }

  /** The walk in progress has covered the chain up to `to` in this many pages. */
  ghost predicate Walked(file: Option<Block>, notes: seq<Note>, to: Block, pages: nat) {
    exists k :: CoveredSince(file, notes, k, to) && Pages(notes[k + 1..]) == pages
  }

  lemma WalkStarts(file: Option<Block>, notes: seq<Note>, at: Block)
    requires notes != [] && notes[|notes| - 1] == WalkBegan(Some(at)) && FileAfter(file, notes[..|notes| - 1]) == Some(at)
    ensures Walked(file, notes, at, 0)
  {
    var k := |notes| - 1;
    assert notes[k + 1..] == [];
    assert CoveredSince(file, notes, k, at);
  }

  lemma WalkGoesOn(file: Option<Block>, notes: seq<Note>, at: Block, pages: nat, to: Block)
    requires notes != [] && Walked(file, notes[..|notes| - 1], at, pages)
    requires match notes[|notes| - 1]
      case FoldEnded(asked, complete, last, _, _) => complete && asked == Some(at) && to == (if last.Some? then last.value else at)
      case Moved(_, writer) => writer == ByPage && to == at
      case _ => false
    ensures Walked(file, notes, to, pages + (if notes[|notes| - 1].FoldEnded? then 1 else 0))
  {
    var before := notes[..|notes| - 1];
    var k :| CoveredSince(file, before, k, at) && Pages(before[k + 1..]) == pages;
    CoversMore(file, notes, k, at, to);
  }

  /** A walk whose pages all folded completely has covered the chain from the
      persisted cursor to where it asks next. */
  lemma {:induction false} WalkSoFar(file: Option<Block>, notes: seq<Note>)
    requires var l := Audit(Opening(file), notes); l.lawful && l.clean && l.next.Some?
    ensures var l := Audit(Opening(file), notes); Walked(file, notes, l.next.value, l.pages)
    decreases |notes|
  {
    assert notes != [];
    var before := notes[..|notes| - 1];
    var was, l := Audit(Opening(file), before), Audit(Opening(file), notes);
    AuditLast(Opening(file), notes);
    LedgerShape(file, before);
    if notes[|notes| - 1].WalkBegan? {
      WalkStarts(file, notes, l.next.value);
    } else {
      WalkSoFar(file, before);
      WalkGoesOn(file, notes, was.next.value, was.pages, l.next.value);
    }
  }

  /** Nothing incomplete lies in what a walk covered. */
  lemma {:induction false} CoveredIsComplete(from: Block, notes: seq<Note>, to: Block, i: nat)
    requires Covers(from, notes, to) && i < |notes|
    ensures notes[i].FoldEnded? ==> notes[i].complete
    ensures !notes[i].WalkBegan?
    decreases |notes|
  {
    if i < |notes| - 1 {
      var n := notes[|notes| - 1];
      CoveredIsComplete(from, notes[..|notes| - 1], if n.FoldEnded? then n.asked.value else to, i);
    }
  }

  /** The cursor stands still from `i` on. */
  predicate Undisturbed(notes: seq<Note>, i: nat, j: nat) {
    i <= j <= |notes| && forall m :: i <= m < j ==> !notes[m].Moved? && !notes[m].Released?
  }

  lemma {:induction false} FileStands(file: Option<Block>, notes: seq<Note>, i: nat, j: nat)
    requires Undisturbed(notes, i, j)
    ensures FileAfter(file, notes[..j]) == FileAfter(file, notes[..i])
    decreases j
  {
    if i < j {
      assert notes[..j][..j - 1] == notes[..j - 1];
      FileStands(file, notes, i, j - 1);
    }
  }

  /** An incomplete fold stays owed until a release; what is owed is owed since the
      first such fold. */
  lemma {:induction false} OwedSince(l: Ledger, notes: seq<Note>, i: nat)
    requires i < |notes| && notes[i].FoldEnded? && !notes[i].complete && !l.owing
    requires forall m :: i <= m < |notes| ==> !notes[m].Released?
    ensures var l' := Audit(l, notes);
      l'.owing && exists h :: OwedFrom(notes, h, i) && l'.since == notes[h].now
    decreases |notes|
  {
    AuditLast(l, notes);
    var before := notes[..|notes| - 1];
    if i < |notes| - 1 {
      OwedSince(l, before, i);
      var h :| OwedFrom(before, h, i) && Audit(l, before).since == before[h].now;
      assert OwedFrom(notes, h, i);
    } else if Audit(l, before).owing {
      OwingSince(l, before);
      var h :| Owes(before, h) && Audit(l, before).since == before[h].now;
      assert OwedFrom(notes, h, i);
    } else {
      assert OwedFrom(notes, i, i);
    }
  }

  predicate Owes(notes: seq<Note>, h: int) {
    0 <= h < |notes| && notes[h].FoldEnded? && !notes[h].complete && forall m :: h <= m < |notes| ==> !notes[m].Released?
  }

  /** The fold at `h` is incomplete, no later than the one at `i`, with no release
      between them. */
  predicate OwedFrom(notes: seq<Note>, h: int, i: int) {
    0 <= h <= i < |notes| && notes[h].FoldEnded? && !notes[h].complete && forall m :: h <= m <= i ==> !notes[m].Released?
  }

  lemma {:induction false} OwingSince(l: Ledger, notes: seq<Note>)
    requires !l.owing && Audit(l, notes).owing
    ensures exists h :: Owes(notes, h) && Audit(l, notes).since == notes[h].now
    decreases |notes|
  {
    AuditLast(l, notes);
    var before := notes[..|notes| - 1];
    if Audit(l, before).owing {
      OwingSince(l, before);
      var h :| Owes(before, h) && Audit(l, before).since == before[h].now;
      assert Owes(notes, h);
    } else {
      assert Owes(notes, |notes| - 1);
    }
  }

  /** A re-seed follows a walk's giving up, after every fold before it. */
  lemma {:induction false} GaveUpSince(l: Ledger, notes: seq<Note>, i: nat)
    requires i < |notes| && notes[i].FoldEnded? && Audit(l, notes).gaveUp
    ensures exists g :: i < g < |notes| && notes[g].GaveUp?
    decreases |notes|
  {
    AuditLast(l, notes);
    if i < |notes| - 1 && !notes[|notes| - 1].GaveUp? {
      GaveUpSince(l, notes[..|notes| - 1], i);
    }
  }

  /** What the law makes of the first move or release after an incomplete fold. */
  lemma NextAfterIncomplete(file: Option<Block>, notes: seq<Note>, i: nat, j: nat)
    requires Audit(Opening(file), notes).lawful && i < j < |notes|
    requires notes[i].FoldEnded? && !notes[i].complete && Undisturbed(notes, i, j)
    requires notes[j].Moved? || notes[j].Released?
    ensures !(notes[j].Moved? && notes[j].writer == ByLive)
    ensures Seeds(notes[j]) ==> exists g :: i < g < j && notes[g].GaveUp?
    ensures !Seeds(notes[j]) ==> exists k, to :: CoversAgain(file, notes, i, k, j, to)
  {
    var l := Opening(file);
    var past := notes[..j];
    AuditAt(l, notes, j);
    assert past[i] == notes[i] && Undisturbed(past, i, |past|);
    OwedSince(l, past, i);
    if Seeds(notes[j]) {
      GaveUpSince(l, past, i);
      var g :| i < g < |past| && past[g].GaveUp?;
      assert notes[g].GaveUp?;
    } else {
      WalkSoFar(file, past);
      var to := Audit(l, past).next.value;
      var k :| CoveredSince(file, past, k, to) && Pages(past[k + 1..]) == Audit(l, past).pages;
      WalkedPast(file, notes, i, k, j, to);
    }
  }

  predicate Seeds(n: Note) {
    (n.Moved? && n.writer == BySeed) || (n.Released? && n.seeded)
  }

  /** At `k`, after the fold at `i`, a walk began at what the file held before that
      fold's batch was folded, and covered the chain from there to where the note at
      `j` moves or releases the cursor. */
  predicate CoversAgain(file: Option<Block>, notes: seq<Note>, i: nat, k: int, j: nat, to: Block) {
    && i < k < j < |notes| && notes[k].WalkBegan? && notes[k].from.Some?
    && notes[k].from == FileAfter(file, notes[..i])
    && Covers(notes[k].from.value, notes[k + 1..j], to)
    && (notes[j].Moved? ==> notes[j].block == to)
  }

  lemma WalkedPast(file: Option<Block>, notes: seq<Note>, i: nat, k: nat, j: nat, to: Block)
    requires i < j < |notes| && notes[i].FoldEnded? && !notes[i].complete && Undisturbed(notes, i, j)
    requires CoveredSince(file, notes[..j], k, to) && (notes[j].Moved? ==> notes[j].block == to)
    ensures CoversAgain(file, notes, i, k, j, to)
  {
    var past := notes[..j];
    assert past[k + 1..] == notes[k + 1..j] && past[..k] == notes[..k] && past[k] == notes[k];
    if k < i {
      CoveredIsComplete(notes[k].from.value, notes[k + 1..j], to, i - k - 1);
    }
    FileStands(file, notes, i, k);
  }

  // ---- what every step keeps ----

  predicate Marks(w: World) {
    && w.desk.state.depthHeld == w.cursor.frozen
    && w.desk.state.walking == (w.walk.Walking? || w.loop.Draining?)
    && (w.walk.Walking? ==> w.loop.Listening? || w.loop.ReadingAhead?)
  }

  /** The ledger knows where the walk in progress stands. */
  predicate OnTheWalk(w: World, l: Ledger) {
    match w.walk
    case NotWalking => true
    case Walking(at) =>
      match at
      case Starting => true
      case Asking(c, page, clean) => Stands(l, c, page, clean)
      case Paging(_, c, page, clean) => Stands(l, c, page, clean)
      case Seeding => l.gaveUp
  }

  predicate Stands(l: Ledger, at: Block, page: nat, clean: bool) {
    l.next == Some(at) && l.pages == page < MAX_VCC_CATCHUP_PAGES && l.clean == clean && (!clean ==> l.owing)
  }

  predicate Kept(w: World, l: Ledger) {
    && Marks(w)
    && w.cursor.frozen == l.owing && (l.owing ==> w.cursor.since == l.since)
    && w.cursor.file == l.file && w.cursor.holds == l.holds
    && OnTheWalk(w, l)
    && l.lawful
  }

  /** Sections, message folds, watches and scores leave the loop's marks alone. */
  lemma SectionMarks(disk: Disk, d: Desk, j: Job, a: BlockAnswer)
    ensures var ran := Section(disk, d, j, a);
      && ran.desk.state.depthHeld == d.state.depthHeld && ran.desk.state.walking == d.state.walking
      && ran.job.batch == j.batch
      && (ran.job.complete ==> j.complete)
  {
  }

  lemma {:induction false} WalkAllMarks(disk: Disk, s: State, ts: seq<Txid>, b: Block, f: Facts)
    ensures var s' := WalkAll(disk, s, ts, b, f).state; s'.depthHeld == s.depthHeld && s'.walking == s.walking
    decreases |ts|
  {
    if ts != [] {
      WalkAllMarks(disk, WalkAccepted(disk, s, ts[0], b, f).state, ts[1..], b, f);
    }
  }

  lemma {:induction false} WalkBlocksMarks(disk: Disk, s: State, accepted: seq<WalkAcceptance>)
    ensures var s' := WalkBlocks(disk, s, accepted).state; s'.depthHeld == s.depthHeld && s'.walking == s.walking
    decreases |accepted|
  {
    if accepted != [] {
      WalkAllMarks(disk, s, accepted[0].txids, accepted[0].block, accepted[0].facts);
      WalkBlocksMarks(disk, WalkAll(disk, s, accepted[0].txids, accepted[0].block, accepted[0].facts).state, accepted[1..]);
    }
  }

  lemma RegisterMarks(disk: Disk, s: State, t: Txid, source: Source, now: nat, order: seq<Txid>)
    ensures var s' := Register(disk, s, t, source, now, order).state;
      s'.depthHeld == s.depthHeld && s'.walking == s.walking
  {
  }

  lemma FromMemoryMarks(disk: Disk, s: State, t: Txid, seen: Remembered)
    ensures var s' := FromMemory(disk, s, t, seen).state;
      s'.depthHeld == s.depthHeld && s'.walking == s.walking
  {
  }

  lemma WatchMarks(disk: Disk, d: Desk, t: Txid, source: Source, now: nat, order: seq<Txid>)
    ensures var s' := WatchDesk(disk, d, t, source, now, order).desk.state;
      s'.depthHeld == d.state.depthHeld && s'.walking == d.state.walking
  {
    RegisterMarks(disk, d.state, t, source, now, order);
    var made := Register(disk, d.state, t, source, now, order);
    if t in d.memory.known {
      FromMemoryMarks(disk, made.state, t, Current(made.state, d.memory.known[t], now));
    }
  }

  lemma SinkMarks(disk: Disk, s: State, blue: nat, now: nat, order: seq<Txid>)
    ensures var s' := OnSinkBlue(disk, s, blue, now, order).state; s'.depthHeld == s.depthHeld && s'.walking == s.walking
  {
    var settled := Settled(disk, s.(sinkBlue := blue), order).state;
    DropEachKeepsRecords(disk, settled, Expired(settled, now, order), 0);
  }

  lemma TickMarks(s: State, now: nat, order: seq<Txid>)
    ensures var s' := Tick(s, now, order).state; s'.depthHeld == s.depthHeld && s'.walking == s.walking
  {
    GuardAllIs(s, DueEvents(s, now, order), 0);
  }

  /** What the end of a page notes: the fold, the cursor's move, and what becomes
      of the walk. */
  function PageNotes(w: World, j: Job, at: Block, page: nat, clean: bool, now: nat, ok: bool): seq<Note> {
    var last := Last(j.batch.added);
    var clean' := clean && j.complete;
    [FoldEnded(Some(at), j.complete, last, IsTip(j.batch), now)]
    + (if last.Some? && clean' && ok then [Moved(last.value, ByPage)] else [])
    + (if IsTip(j.batch) then if clean' then [Released(false)] else []
       else if page + 1 >= MAX_VCC_CATCHUP_PAGES && !(!clean' && KeepsHold(Freeze(w, now).cursor, now)) then [GaveUp(OutOfPages, now)]
       else [])
  }

  lemma PageNotesAre(w: World, j: Job, at: Block, page: nat, clean: bool, now: nat, ok: bool)
    requires !clean ==> w.cursor.frozen
    ensures PageFolded(w, j, at, page, clean, now, ok).notes == PageNotes(w, j, at, page, clean, now, ok)
  {
  }

  lemma PageAudit(l: Ledger, ended: Note, moved: Note, after: Note)
    ensures Audit(l, [ended] + [] + []) == Post(l, ended)
    ensures Audit(l, [ended] + [moved] + []) == Post(Post(l, ended), moved)
    ensures Audit(l, [ended] + [] + [after]) == Post(Post(l, ended), after)
    ensures Audit(l, [ended] + [moved] + [after]) == Post(Post(Post(l, ended), moved), after)
  {
    AuditFew(l, ended, moved, after);
    AuditFew(l, ended, after, after);
    assert [ended] + [] + [] == [ended] && [ended] + [moved] + [] == [ended, moved];
    assert [ended] + [] + [after] == [ended, after] && [ended] + [moved] + [after] == [ended, moved, after];
  }

  /** Where the end of a page leaves the world. */
  lemma PageLeaves(w: World, j: Job, at: Block, page: nat, clean: bool, now: nat, ok: bool)
    requires Marks(w) && w.walk.Walking? && w.loop.Listening? && (!clean ==> w.cursor.frozen)
    ensures var w' := PageFolded(w, j, at, page, clean, now, ok).world;
      var last, clean' := Last(j.batch.added), clean && j.complete;
      && Marks(w')
      && w'.cursor.frozen == ((w.cursor.frozen || !clean') && !(clean' && IsTip(j.batch)))
      && (w'.cursor.frozen ==> w'.cursor.since == if w.cursor.frozen then w.cursor.since else now)
      && w'.cursor.file == (if last.Some? && clean' && ok then last else w.cursor.file)
      && w'.cursor.holds == w.cursor.holds + (if w.cursor.frozen || clean' then 0 else 1)
      && (w'.walk == NotWalking || w'.walk == Walking(Seeding)
          || w'.walk == Walking(Asking(if last.Some? then last.value else at, page + 1, clean')))
  {
  }

  /** What becomes of the walk. */
  lemma PageGoesOn(w: World, j: Job, at: Block, page: nat, clean: bool, now: nat, ok: bool)
    requires Marks(w) && w.walk.Walking? && w.loop.Listening? && (!clean ==> w.cursor.frozen)
    ensures var w' := PageFolded(w, j, at, page, clean, now, ok).world;
      && (w'.walk == Walking(Seeding) <==>
            !IsTip(j.batch) && page + 1 >= MAX_VCC_CATCHUP_PAGES && !(!(clean && j.complete) && KeepsHold(Freeze(w, now).cursor, now)))
      && (w'.walk.Walking? && !w'.walk.at.Seeding? ==> !IsTip(j.batch) && page + 1 < MAX_VCC_CATCHUP_PAGES)
  {
  }

  lemma PageKeeps(w: World, l: Ledger, j: Job, at: Block, page: nat, clean: bool, now: nat, ok: bool)
    requires Kept(w, l) && w.walk.Walking? && w.loop.Listening? && Stands(l, at, page, clean)
    ensures var out := PageFolded(w, j, at, page, clean, now, ok); Kept(out.world, Audit(l, out.notes))
  {
    var out := PageFolded(w, j, at, page, clean, now, ok);
    PageNotesAre(w, j, at, page, clean, now, ok);
    PageLeaves(w, j, at, page, clean, now, ok);
    PageGoesOn(w, j, at, page, clean, now, ok);
    PageKeepsLedger(w, l, j, at, page, clean, now, ok, out.world);
  }

  lemma PageKeepsLedger(w: World, l: Ledger, j: Job, at: Block, page: nat, clean: bool, now: nat, ok: bool, w': World)
    requires Kept(w, l) && Stands(l, at, page, clean) && Marks(w')
    requires var last, clean' := Last(j.batch.added), clean && j.complete;
      && w'.cursor.frozen == ((w.cursor.frozen || !clean') && !(clean' && IsTip(j.batch)))
      && (w'.cursor.frozen ==> w'.cursor.since == if w.cursor.frozen then w.cursor.since else now)
      && w'.cursor.file == (if last.Some? && clean' && ok then last else w.cursor.file)
      && w'.cursor.holds == w.cursor.holds + (if w.cursor.frozen || clean' then 0 else 1)
      && (w'.walk == NotWalking || w'.walk == Walking(Seeding)
          || w'.walk == Walking(Asking(if last.Some? then last.value else at, page + 1, clean')))
      && (w'.walk == Walking(Seeding) <==>
            !IsTip(j.batch) && page + 1 >= MAX_VCC_CATCHUP_PAGES && !(!clean' && KeepsHold(Freeze(w, now).cursor, now)))
      && (w'.walk.Walking? && !w'.walk.at.Seeding? ==> !IsTip(j.batch) && page + 1 < MAX_VCC_CATCHUP_PAGES)
    ensures Kept(w', Audit(l, PageNotes(w, j, at, page, clean, now, ok)))
  {
    var last := Last(j.batch.added);
    var ended := FoldEnded(Some(at), j.complete, last, IsTip(j.batch), now);
    var moved := Moved(if last.Some? then last.value else 0, ByPage);
    PageAudit(l, ended, moved, Released(false));
    PageAudit(l, ended, moved, GaveUp(OutOfPages, now));
  }

  lemma SeedKeeps(disk: Disk, w: World, l: Ledger, a: Answer, now: nat, ok: bool)
    requires Kept(w, l) && w.walk == Walking(Seeding) && w.loop.Listening?
    ensures var out := StepWalk(disk, w, Seeding, a, now, ok); Kept(out.world, Audit(l, out.notes))
  {
    var moved := Moved(if a.SinkIs? && a.sink.Some? then a.sink.value else 0, BySeed);
    AuditFew(l, moved, Released(true), moved);
    AuditFew(l, Released(true), moved, moved);
  }

  lemma PagingKeeps(disk: Disk, w: World, l: Ledger, at: WalkAt, a: Answer, now: nat, ok: bool)
    requires Kept(w, l) && w.walk == Walking(at) && at.Paging? && w.loop.Listening?
    ensures var out := StepWalk(disk, w, at, a, now, ok); Kept(out.world, Audit(l, out.notes))
  {
    var Paging(j, c, page, clean) := at;
    SectionMarks(disk, w.desk, j, AsBlock(a));
    var ran := Section(disk, w.desk, j, AsBlock(a));
    if ran.job.stage.Finished? {
      PageKeeps(w.(desk := ran.desk, walk := Walking(Paging(ran.job, c, page, clean))), l, ran.job, c, page, clean, now, ok);
    }
  }

  lemma WalkKeeps(disk: Disk, w: World, l: Ledger, at: WalkAt, a: Answer, now: nat, ok: bool)
    requires Kept(w, l) && w.walk == Walking(at) && w.loop.Listening?
    ensures var out := StepWalk(disk, w, at, a, now, ok); Kept(out.world, Audit(l, out.notes))
  {
    match at
    case Starting =>
      AuditFew(l, WalkBegan(w.cursor.file), GaveUp(NoCursor, now), Released(true));
    case Asking(_, _, _) =>
      AuditFew(l, GaveUp(Unanswered, now), Released(true), Released(true));
    case Paging(_, _, _, _) => PagingKeeps(disk, w, l, at, a, now, ok);
    case Seeding => SeedKeeps(disk, w, l, a, now, ok);
  }

  lemma LiveKeeps(w: World, l: Ledger, j: Job, now: nat, ok: bool)
    requires Kept(w, l) && w.walk.NotWalking?
    ensures var out := LiveFolded(w, j, now, ok); Kept(out.world, Audit(l, out.notes))
  {
    var last := Last(j.batch.added);
    var ended := FoldEnded(None, j.complete, last, IsTip(j.batch), now);
    var moved := Moved(if last.Some? then last.value else 0, ByLive);
    AuditFew(l, ended, moved, moved);
    var out := LiveFolded(w, j, now, ok);
    assert out.notes == [ended] || out.notes == [ended, moved];
  }

  lemma StepLiveKeeps(disk: Disk, w: World, l: Ledger, j: Job, a: Answer, now: nat, ok: bool, during: Job -> Loop, after: Loop)
    requires Kept(w, l) && w.walk.NotWalking? && after.Draining? == w.loop.Draining?
    requires forall j1 :: during(j1).Draining? == w.loop.Draining?
    ensures var out := StepLive(disk, w, j, a, now, ok, during, after); Kept(out.world, Audit(l, out.notes))
  {
    SectionMarks(disk, w.desk, j, AsBlock(a));
    var ran := Section(disk, w.desk, j, AsBlock(a));
    if ran.job.stage.Finished? {
      LiveKeeps(w.(desk := ran.desk, loop := after), l, ran.job, now, ok);
    }
  }

  lemma BeginKeeps(w: World, l: Ledger)
    requires Kept(w, l) && w.loop.Listening?
    ensures Kept(Begin(w), l)
  {
  }

  lemma DrainKeeps(disk: Disk, w: World, l: Ledger, a: Answer, now: nat, ok: bool)
    requires Kept(w, l) && w.loop == Draining(None)
    ensures var out := StepLoop(disk, w, a, now, ok); Kept(out.world, Audit(l, out.notes))
  {
    if w.heldBack == [] {
      var w1 := WithState(w, w.desk.state.(walking := false, ahead := map[])).(loop := Listening);
      if w.walkAgain {
        BeginKeeps(w1.(walkAgain := false), l);
      }
    } else if w.heldBack[0].Message? {
      WalkBlocksMarks(disk, w.desk.state, w.heldBack[0].page.accepted);
    }
  }

  lemma AheadKeeps(w: World, l: Ledger, batch: Batch, due: seq<Naming>, a: Answer)
    requires Kept(w, l) && w.loop == ReadingAhead(batch, due)
    ensures var out := StepAhead(w, batch, due, a); Kept(out.world, Audit(l, out.notes))
  {
  }

  lemma FoldingKeeps(disk: Disk, w: World, l: Ledger, a: Answer, now: nat, ok: bool)
    requires Kept(w, l) && (w.loop.FoldingLive? || (w.loop.Draining? && w.loop.folding.Some?))
    ensures var out := StepLoop(disk, w, a, now, ok); Kept(out.world, Audit(l, out.notes))
  {
    match w.loop
    case FoldingLive(j) =>
      StepLiveKeeps(disk, w, l, j, a, now, ok, (j: Job) => FoldingLive(j), Listening);
    case Draining(Some(j)) =>
      StepLiveKeeps(disk, w, l, j, a, now, ok, (j: Job) => Draining(Some(j)), Draining(None));
  }

  lemma LoopKeeps(disk: Disk, w: World, l: Ledger, a: Answer, now: nat, ok: bool)
    requires Kept(w, l)
    ensures var out := StepLoop(disk, w, a, now, ok); Kept(out.world, Audit(l, out.notes))
  {
    match w.loop
    case Listening =>
    case FoldingLive(_) => FoldingKeeps(disk, w, l, a, now, ok);
    case ReadingAhead(batch, due) => AheadKeeps(w, l, batch, due, a);
    case Draining(Some(_)) => FoldingKeeps(disk, w, l, a, now, ok);
    case Draining(None) => DrainKeeps(disk, w, l, a, now, ok);
  }

  lemma DeliverKeeps(disk: Disk, w: World, l: Ledger, feed: Feed, now: nat)
    requires Kept(w, l) && w.loop.Listening?
    ensures var out := StepDeliver(disk, w, feed, now); Kept(out.world, Audit(l, out.notes))
  {
    if feed.Message? {
      WalkBlocksMarks(disk, w.desk.state, feed.page.accepted);
    }
  }

  lemma TickKeeps(w: World, l: Ledger, now: nat, order: seq<Txid>, holdWalk: bool)
    requires Kept(w, l) && w.loop.Listening?
    ensures var out := StepTick(w, now, order, holdWalk); Kept(out.world, Audit(l, out.notes))
  {
    BeginKeeps(w, l);
    TickMarks(TickBegins(w, holdWalk).desk.state, now, order);
  }

  lemma ListeningKeeps(disk: Disk, w: World, l: Ledger, i: Input)
    requires Kept(w, l) && w.loop.Listening?
    ensures var out := StepListening(disk, w, i); Kept(out.world, Audit(l, out.notes))
  {
    match i
    case Connect => BeginKeeps(w, l);
    case WalkStep(a, now, ok) =>
      if w.walk.Walking? { WalkKeeps(disk, w, l, w.walk.at, a, now, ok); }
    case Deliver(feed, now) => DeliverKeeps(disk, w, l, feed, now);
    case Prime(_) =>
    case SinkScore(blue, now, order) => SinkMarks(disk, w.desk.state, blue, now, order);
    case TickNow(now, order, holdWalk) => TickKeeps(w, l, now, order, holdWalk);
    case LoopStep(_, _, _) =>
    case WatchCall(_, _, _, _) =>
    case LookupCall(_) =>
  }

  lemma StepKeeps(disk: Disk, w: World, l: Ledger, i: Input)
    requires Kept(w, l)
    ensures var out := Step(disk, w, i); Kept(out.world, Audit(l, out.notes))
  {
    match i
    case WatchCall(t, source, now, order) => WatchMarks(disk, w.desk, t, source, now, order);
    case LookupCall(_) =>
    case LoopStep(a, now, ok) => LoopKeeps(disk, w, l, a, now, ok);
    case _ =>
      if w.loop.Listening? { ListeningKeeps(disk, w, l, i); }
  }

  /** **Cursor safety.** In every run of live batches, catch-up walks, scores,
      ticks and calls, with any writes failing and any answers: every move of the
      cursor and every end of a hold obeys the law; the cursor is held exactly
      when some batch since the last release did not fold completely; and the file
      holds exactly the last block it was lawfully moved to. */
  lemma {:induction false} CursorSafety(disk: Disk, w: World, l: Ledger, inputs: seq<Input>)
    requires Kept(w, l)
    ensures var out := Run(disk, w, inputs); Kept(out.world, Audit(l, out.notes))
    decreases |inputs|
  {
    if inputs != [] {
      StepKeeps(disk, w, l, inputs[0]);
      var one := Step(disk, w, inputs[0]);
      CursorSafety(disk, one.world, Audit(l, one.notes), inputs[1..]);
      AuditSplit(l, one.notes, Run(disk, one.world, inputs[1..]).notes);
    }
  }

  /** A tracker just loaded, before its loop runs. */
  function Loaded(core: Core, cursor: Option<Block>): World {
    World(Desk(State(core, {}, {}, {}, 0, false, false, map[]), Memory([], map[]), []),
          Cursor(cursor, false, 0, 0, false, 0), NotWalking, Listening, [], false)
  }

  /** The notes of a run from a start. */
  function NotesOf(disk: Disk, core: Core, cursor: Option<Block>, inputs: seq<Input>): seq<Note> {
    Run(disk, Loaded(core, cursor), inputs).notes
  }

  /** **An incomplete fold is covered again.** In every run from a start, take any
      batch or page that did not fold completely and the next thing that moves or
      releases the cursor. It is never a live batch. Either a walk gave up in
      between and the cursor is seeded afresh, or a walk began after that fold, at
      the very cursor the file held before it, and folded every page from there to
      the block the cursor moves to completely, each asked from where the one before
      it ended. */
  lemma IncompleteFoldIsCoveredAgain(disk: Disk, core: Core, cursor: Option<Block>, inputs: seq<Input>, i: nat, j: nat)
    requires var notes := NotesOf(disk, core, cursor, inputs);
      && i < j < |notes| && notes[i].FoldEnded? && !notes[i].complete && Undisturbed(notes, i, j)
      && (notes[j].Moved? || notes[j].Released?)
    ensures var notes := NotesOf(disk, core, cursor, inputs);
      && !(notes[j].Moved? && notes[j].writer == ByLive)
      && (Seeds(notes[j]) ==> exists g :: i < g < j && notes[g].GaveUp?)
      && (!Seeds(notes[j]) ==> exists k, to :: CoversAgain(cursor, notes, i, k, j, to))
  {
    CursorSafety(disk, Loaded(core, cursor), Opening(cursor), inputs);
    NextAfterIncomplete(cursor, NotesOf(disk, core, cursor, inputs), i, j);
  }

  /** **A page moves the cursor only along the chain it covered**: from the cursor
      the walk began at, through complete pages each asked from where the one before
      it ended, to the block it moves to. */
  lemma PageMovesCover(disk: Disk, core: Core, cursor: Option<Block>, inputs: seq<Input>, j: nat)
    requires var notes := NotesOf(disk, core, cursor, inputs); j < |notes| && notes[j].Moved? && notes[j].writer == ByPage
    ensures var notes := NotesOf(disk, core, cursor, inputs);
      exists k :: CoveredSince(cursor, notes[..j], k, notes[j].block)
  {
    var notes := NotesOf(disk, core, cursor, inputs);
    CursorSafety(disk, Loaded(core, cursor), Opening(cursor), inputs);
    AuditAt(Opening(cursor), notes, j);
    WalkSoFar(cursor, notes[..j]);
    var k :| CoveredSince(cursor, notes[..j], k, notes[j].block) && Pages(notes[..j][k + 1..]) == Audit(Opening(cursor), notes[..j]).pages;
  }

  /** **No move passes an incomplete fold.** A live batch moves the cursor only if
      every incomplete fold before it was released; a page only if every incomplete
      fold, live or page, came before its walk began at the cursor. */
  lemma CursorMovesOnlyPastCompleteFolds(disk: Disk, core: Core, cursor: Option<Block>, inputs: seq<Input>, i: nat, j: nat)
    requires var notes := NotesOf(disk, core, cursor, inputs);
      && i < j < |notes| && notes[i].FoldEnded? && !notes[i].complete && notes[j].Moved?
    ensures var notes := NotesOf(disk, core, cursor, inputs);
      && (notes[j].writer == ByLive ==> exists k :: i < k < j && notes[k].Released?)
      && (notes[j].writer == ByPage ==> exists k :: i < k && CoveredSince(cursor, notes[..j], k, notes[j].block))
  {
    var notes := NotesOf(disk, core, cursor, inputs);
    var past := notes[..j];
    CursorSafety(disk, Loaded(core, cursor), Opening(cursor), inputs);
    AuditAt(Opening(cursor), notes, j);
    assert past[i] == notes[i];
    if notes[j].writer == ByPage {
      PageMovesCover(disk, core, cursor, inputs, j);
      var k :| CoveredSince(cursor, past, k, notes[j].block);
      if k < i {
        CoveredIsComplete(past[k].from.value, past[k + 1..], notes[j].block, i - k - 1);
      }
    } else if notes[j].writer == ByLive && forall m :: i <= m < |past| ==> !past[m].Released? {
      OwedSince(Opening(cursor), past, i);
      assert false;
    }
  }

  /** **A hold is given up only past its horizon**, or by a walk that folded every
      page it may ask for completely. */
  lemma HoldGivenUpOnlyWhen(disk: Disk, core: Core, cursor: Option<Block>, inputs: seq<Input>, i: nat, g: nat)
    requires var notes := NotesOf(disk, core, cursor, inputs);
      && i < g < |notes| && notes[i].FoldEnded? && !notes[i].complete && Undisturbed(notes, i, g) && notes[g].GaveUp?
    ensures var notes := NotesOf(disk, core, cursor, inputs);
      match notes[g].reason
      case NoCursor => FileAfter(cursor, notes[..g]).None?
      case Unanswered => PastHorizon(notes, i, notes[g].now)
      case OutOfPages => PastHorizon(notes, i, notes[g].now) || WalkedItsPages(cursor, notes, i, g)
  {
    var notes := NotesOf(disk, core, cursor, inputs);
    var past := notes[..g];
    CursorSafety(disk, Loaded(core, cursor), Opening(cursor), inputs);
    GivenUpMeans(cursor, notes, i, g);
  }

  /** It can be given up at once: with no cursor written yet, the walk a hold waits for
      has nowhere to start, seeds the cursor at the sink and releases the hold, however
      young; what was owed is not folded again. */
  lemma HoldWithoutCursorIsGivenUp(disk: Disk, w: World, sink: Block, a: Answer, now: nat, later: nat, ok: bool)
    requires w.loop.Listening? && w.walk == Walking(Starting) && w.cursor.frozen && w.cursor.file.None?
    ensures var out := Run(disk, w, [WalkStep(a, now, ok), WalkStep(SinkIs(Some(sink)), later, ok)]);
      && !out.world.cursor.frozen && out.world.desk.state.core == w.desk.state.core
      && out.notes == [WalkBegan(None), GaveUp(NoCursor, now)] + (if ok then [Moved(sink, BySeed)] else []) + [Released(true)]
  {
    var first, second := WalkStep(a, now, ok), WalkStep(SinkIs(Some(sink)), later, ok);
    var one := Step(disk, w, first);
    RunTwo(disk, w, first, second);
    assert one == Stepped(w.(walk := Walking(Seeding)), [], [WalkBegan(None), GaveUp(NoCursor, now)]);
    SeedReleases(disk, one.world, sink, later, ok);
  }

  lemma RunTwo(disk: Disk, w: World, first: Input, second: Input)
    ensures var one := Step(disk, w, first); var two := Step(disk, one.world, second);
      var out := Run(disk, w, [first, second]); out.world == two.world && out.notes == one.notes + two.notes
  {
    assert [first, second][1..] == [second] && [second][1..] == [];
    var one := Step(disk, w, first);
    var two := Step(disk, one.world, second);
    assert Run(disk, two.world, []) == Stay(two.world);
    assert two.notes + [] == two.notes;
    assert Run(disk, one.world, [second]).notes == two.notes;
  }

  lemma SeedReleases(disk: Disk, w: World, sink: Block, later: nat, ok: bool)
    requires w.loop.Listening? && w.walk == Walking(Seeding) && w.cursor.frozen
    ensures var out := Step(disk, w, WalkStep(SinkIs(Some(sink)), later, ok));
      && !out.world.cursor.frozen && out.world.desk.state.core == w.desk.state.core
      && out.notes == (if ok then [Moved(sink, BySeed)] else []) + [Released(true)]
  {
  }

  /** A fold no later than the one at `i`, not released since, is as old as the
      pruning horizon. */
  ghost predicate PastHorizon(notes: seq<Note>, i: nat, now: nat) {
    exists h :: OwedFrom(notes, h, i) && (notes[h].now == 0 || SatSub(now, notes[h].now) >= PRUNING_HORIZON_MS)
  }

  /** After the fold at `i` a walk began at the cursor and folded all the pages it
      may ask for completely. */
  ghost predicate WalkedItsPages(file: Option<Block>, notes: seq<Note>, i: nat, g: nat)
    requires g <= |notes|
  {
    exists k, to :: i < k < g && CoveredSince(file, notes[..g], k, to) && Pages(notes[k + 1..g]) == MAX_VCC_CATCHUP_PAGES
  }

  /** A hold not kept is past its horizon. */
  lemma NotKept(file: Option<Block>, notes: seq<Note>, i: nat, g: nat, now: nat)
    requires i < g <= |notes| && notes[i].FoldEnded? && !notes[i].complete && Undisturbed(notes, i, g)
    requires !Keeps(Audit(Opening(file), notes[..g]), now)
    ensures PastHorizon(notes, i, now)
  {
    var past := notes[..g];
    OwedSince(Opening(file), past, i);
    var h :| OwedFrom(past, h, i) && Audit(Opening(file), past).since == past[h].now;
    assert OwedFrom(notes, h, i);
  }

  lemma PagesWalked(file: Option<Block>, notes: seq<Note>, i: nat, g: nat)
    requires i < g <= |notes| && notes[i].FoldEnded? && !notes[i].complete
    requires var l := Audit(Opening(file), notes[..g]);
      l.lawful && l.clean && l.next.Some? && l.pages == MAX_VCC_CATCHUP_PAGES
    ensures WalkedItsPages(file, notes, i, g)
  {
    var past := notes[..g];
    var l := Audit(Opening(file), past);
    WalkSoFar(file, past);
    var k :| CoveredSince(file, past, k, l.next.value) && Pages(past[k + 1..]) == l.pages;
    assert past[k + 1..] == notes[k + 1..g] && past[i] == notes[i];
    if k < i {
      CoveredIsComplete(past[k].from.value, past[k + 1..], l.next.value, i - k - 1);
    }
  }

  lemma GivenUpMeans(file: Option<Block>, notes: seq<Note>, i: nat, g: nat)
    requires Audit(Opening(file), notes).lawful
    requires i < g < |notes| && notes[i].FoldEnded? && !notes[i].complete && Undisturbed(notes, i, g) && notes[g].GaveUp?
    ensures match notes[g].reason
      case NoCursor => FileAfter(file, notes[..g]).None?
      case Unanswered => PastHorizon(notes, i, notes[g].now)
      case OutOfPages => PastHorizon(notes, i, notes[g].now) || WalkedItsPages(file, notes, i, g)
  {
    var l := Audit(Opening(file), notes[..g]);
    AuditAt(Opening(file), notes, g);
    if notes[g].reason.NoCursor? {
      LedgerShape(file, notes[..g]);
    } else if notes[g].reason.OutOfPages? && l.clean {
      PagesWalked(file, notes, i, g);
    } else {
      NotKept(file, notes, i, g, notes[g].now);
    }
  }

  // ---- what is claimed while something is owed ----

  /** Nothing newly finalized. */
  predicate FinalizesNothing(s: State, s': State, t: Txid) {
    t in s'.core.records && s'.core.records[t].status.Finalized? ==>
      t in s.core.records && s.core.records[t].status.Finalized?
  }

  predicate Claims(e: Event) {
    e.NowConfirmed?
  }

  lemma SectionClaims(disk: Disk, d: Desk, j: Job, a: BlockAnswer, t: Txid)
    ensures var ran := Section(disk, d, j, a);
      FinalizesNothing(d.state, ran.desk.state, t) && forall e :: e in ran.events ==> !Claims(e)
  {
    match j.stage
    case Removing => RemoveAllMoves(disk, From(d.state.core), j.batch.removed, j.now, t);
    case Resolving(m, got, _) => if got.daa.Some? { ResolveOnly(d.interest, m.wanted, got.daa.value); }
    case Accepting(m, got, _) => AcceptAllMoves(disk, From(d.state.core), m.block, got.facts, m.watched, t);
    case _ =>
  }

  lemma MessageClaims(disk: Disk, d: Desk, page: Page, now: nat, t: Txid)
    ensures var out := FoldWalk(disk, d, page, now);
      FinalizesNothing(d.state, out.desk.state, t) && forall e :: e in out.events ==> !Claims(e)
  {
    WalkBlocksMoves(disk, d.state, page.accepted, t);
    ResolvesOnly(d.interest, page.accepted, d.state.core.offChain.blocks);
  }

  lemma RegisterClaims(disk: Disk, s: State, u: Txid, source: Source, now: nat, order: seq<Txid>, t: Txid)
    ensures var d := Register(disk, s, u, source, now, order);
      FinalizesNothing(s, d.state, t) && d.events == []
  {
    if u !in s.core.records {
      RegisterAsDrops(disk, s, u, source, now, order);
      DropEachKeepsRecords(disk, s, EvictionOf(s, u, order), t);
    }
  }

  lemma WatchClaims(disk: Disk, d: Desk, u: Txid, source: Source, now: nat, order: seq<Txid>, t: Txid)
    ensures var out := WatchDesk(disk, d, u, source, now, order);
      FinalizesNothing(d.state, out.desk.state, t) && forall e :: e in out.events ==> !Claims(e)
  {
    RegisterClaims(disk, d.state, u, source, now, order, t);
    if u !in d.state.core.records && source == Transport && u in d.memory.known {
      RememberedClaims(disk, d.state, u, source, now, d.memory.known[u], order, t);
    }
  }

  lemma RememberedClaims(disk: Disk, s: State, u: Txid, source: Source, now: nat, seen: Remembered, order: seq<Txid>, t: Txid)
    requires u !in s.core.records
    ensures var d := RegisterRemembered(disk, s, u, source, now, seen, order);
      FinalizesNothing(s, d.state, t) && forall e :: e in d.events ==> !Claims(e)
  {
    RegisterClaims(disk, s, u, source, now, order, t);
    var made := Register(disk, s, u, source, now, order).state;
    match Current(made, seen, now)
    case SeenAccepted(b, f, _) => AcceptAllMoves(disk, From(made.core), b, f, [u], t);
    case SeenDisplaced(_, _) =>
  }

  lemma {:induction false} DueNeverConfirms(s: State, now: nat, order: seq<Txid>)
    ensures forall e :: e in DueEvents(s, now, order) ==> !Claims(e)
    decreases |order|
  {
    if order != [] {
      DueNeverConfirms(s, now, order[1..]);
    }
  }

  lemma WalkStepClaims(disk: Disk, w: World, at: WalkAt, a: Answer, now: nat, ok: bool, t: Txid)
    ensures var out := StepWalk(disk, w, at, a, now, ok);
      FinalizesNothing(w.desk.state, out.world.desk.state, t) && forall e :: e in out.events ==> !Claims(e)
  {
    match at
    case Starting =>
    case Asking(_, _, _) =>
    case Paging(_, _, _, _) => PagingClaims(disk, w, at, a, now, ok, t);
    case Seeding =>
  }

  lemma PagingClaims(disk: Disk, w: World, at: WalkAt, a: Answer, now: nat, ok: bool, t: Txid)
    requires at.Paging?
    ensures var out := StepWalk(disk, w, at, a, now, ok);
      FinalizesNothing(w.desk.state, out.world.desk.state, t) && forall e :: e in out.events ==> !Claims(e)
  {
    SectionClaims(disk, w.desk, at.job, AsBlock(a), t);
    var ran := Section(disk, w.desk, at.job, AsBlock(a));
    PageFoldedDesk(w.(desk := ran.desk, walk := Walking(at.(job := ran.job))), ran.job, at.at, at.page, at.clean, now, ok);
  }

  /** Ending a page touches no record. */
  lemma PageFoldedDesk(w: World, j: Job, at: Block, page: nat, clean: bool, now: nat, ok: bool)
    ensures PageFolded(w, j, at, page, clean, now, ok).world.desk.state.core == w.desk.state.core
  {
  }

  lemma LiveStepClaims(disk: Disk, w: World, j: Job, a: Answer, now: nat, ok: bool, during: Job -> Loop, after: Loop, t: Txid)
    ensures var out := StepLive(disk, w, j, a, now, ok, during, after);
      FinalizesNothing(w.desk.state, out.world.desk.state, t) && forall e :: e in out.events ==> !Claims(e)
  {
    SectionClaims(disk, w.desk, j, AsBlock(a), t);
  }

  lemma DrainStepClaims(disk: Disk, w: World, a: Answer, now: nat, ok: bool, t: Txid)
    requires w.loop == Draining(None)
    ensures var out := StepLoop(disk, w, a, now, ok);
      FinalizesNothing(w.desk.state, out.world.desk.state, t) && forall e :: e in out.events ==> !Claims(e)
  {
    if w.heldBack != [] && w.heldBack[0].Message? {
      MessageClaims(disk, w.desk, w.heldBack[0].page, now, t);
    }
  }

  lemma AheadClaims(w: World, batch: Batch, due: seq<Naming>, a: Answer, t: Txid)
    ensures var out := StepAhead(w, batch, due, a);
      FinalizesNothing(w.desk.state, out.world.desk.state, t) && forall e :: e in out.events ==> !Claims(e)
  {
  }

  lemma LoopStepClaims(disk: Disk, w: World, a: Answer, now: nat, ok: bool, t: Txid)
    ensures var out := StepLoop(disk, w, a, now, ok);
      FinalizesNothing(w.desk.state, out.world.desk.state, t) && forall e :: e in out.events ==> !Claims(e)
  {
    match w.loop
    case Listening =>
    case FoldingLive(j) => LiveStepClaims(disk, w, j, a, now, ok, (j: Job) => FoldingLive(j), Listening, t);
    case ReadingAhead(batch, due) => AheadClaims(w, batch, due, a, t);
    case Draining(Some(j)) => LiveStepClaims(disk, w, j, a, now, ok, (j: Job) => Draining(Some(j)), Draining(None), t);
    case Draining(None) => DrainStepClaims(disk, w, a, now, ok, t);
  }

  lemma ListeningClaims(disk: Disk, w: World, i: Input, t: Txid)
    requires w.desk.state.depthHeld || w.desk.state.walking
    ensures var out := StepListening(disk, w, i);
      FinalizesNothing(w.desk.state, out.world.desk.state, t) && forall e :: e in out.events ==> !Claims(e)
  {
    match i
    case Connect =>
    case WalkStep(a, now, ok) =>
      if w.walk.Walking? { WalkStepClaims(disk, w, w.walk.at, a, now, ok, t); }
    case Deliver(feed, now) =>
      if feed.Message? { MessageClaims(disk, w.desk, feed.page, now, t); }
    case Prime(_) =>
    case SinkScore(blue, now, order) => NoDepthIsClaimedWhileHeld(disk, w.desk.state, blue, now, order, t);
    case TickNow(now, order, holdWalk) =>
      var begun := TickBegins(w, holdWalk);
      GuardAllIs(begun.desk.state, DueEvents(begun.desk.state, now, order), t);
      DueNeverConfirms(begun.desk.state, now, order);
    case LoopStep(_, _, _) =>
    case WatchCall(_, _, _, _) =>
    case LookupCall(_) =>
  }

  /** **While the cursor is held, a walk runs or its held-back feeds fold**, no
      step of any run emits a Confirmed or finalizes a record, and no record that
      is not Finalized reads Confirmed. */
  lemma NothingIsClaimedWhileOwed(disk: Disk, w: World, l: Ledger, i: Input, t: Txid, now: nat)
    requires Kept(w, l)
    requires w.cursor.frozen || w.walk.Walking? || w.loop.Draining?
    ensures var out := Step(disk, w, i);
      && FinalizesNothing(w.desk.state, out.world.desk.state, t)
      && (forall e :: e in out.events ==> !Claims(e))
    ensures Read(w.desk.state, t, now).Some? && Read(w.desk.state, t, now).value.ReadsConfirmed? ==>
      w.desk.state.core.records[t].status.Finalized?
  {
    match i
    case WatchCall(u, source, later, order) => WatchClaims(disk, w.desk, u, source, later, order, t);
    case LookupCall(_) =>
    case LoopStep(a, later, ok) => LoopStepClaims(disk, w, a, later, ok, t);
    case _ =>
      if w.loop.Listening? { ListeningClaims(disk, w, i, t); }
  }

  /** A ledger owes exactly when some incomplete fold has not been released since. */
  lemma {:induction false} OwesExactlyWhen(l: Ledger, notes: seq<Note>)
    requires !l.owing
    ensures Audit(l, notes).owing <==> exists h :: Owes(notes, h)
  {
    if Audit(l, notes).owing {
      OwingSince(l, notes);
    } else if h :| Owes(notes, h) {
      OwedSince(l, notes, h);
    }
  }

  /** **A reader sees Confirmed exactly when it is so.** In every run from a start, a
      watch reads Confirmed if and only if its record is final, or is accepted deep
      enough with every fold so far complete or released, no walk running and nothing
      it held back left to fold. */
  lemma ConfirmedIsReadExactlyWhen(disk: Disk, core: Core, cursor: Option<Block>, inputs: seq<Input>, t: Txid, now: nat)
    ensures var w := Run(disk, Loaded(core, cursor), inputs).world; var s := w.desk.state;
      (Read(s, t, now).Some? && Read(s, t, now).value.ReadsConfirmed?) <==>
        t in s.core.records &&
        (|| s.core.records[t].status.Finalized?
         || (IsAccepted(s, t) && Depth(s, t) >= CONFIRMED_DEPTH_BLUE
             && !(exists h :: Owes(NotesOf(disk, core, cursor, inputs), h)) && w.walk.NotWalking? && !w.loop.Draining?))
  {
    CursorSafety(disk, Loaded(core, cursor), Opening(cursor), inputs);
    OwesExactlyWhen(Opening(cursor), NotesOf(disk, core, cursor, inputs));
    ReadsConfirmedExactlyWhen(Run(disk, Loaded(core, cursor), inputs).world.desk.state, t, now);
  }
}

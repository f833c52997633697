/** The tracker's whole fold state (`TrackerState` in `rust/chain/src/acceptance.rs`). */
module Tracker {
  // The log and its index, the one-shot event guards, and what may be claimed while
  // the cursor is held or a walk runs. Each operation is a function of the state
  // before it; `TrackerStore` runs the same operations in place. Wherever the program
  // iterates its hash map, the order it happens to see is a parameter.

  import opened Bytes
  import opened WatchLog

  const TOMBSTONE_WINDOW_MS: nat := 120_000
  const STALL_AFTER_MS: nat := 60_000
  const CONFIRMED_DEPTH_BLUE: nat := 1_000
  const TERMINAL_DEPTH_BLUE: nat := 2_000
  const WATCH_CAP: nat := 512

  /** 1,080,000 blocks of 100 ms. */
  const PRUNING_HORIZON_MS: nat := 108_000_000

  datatype Event =
    | NowAccepted(txid: Txid)
    | NowConfirmed(txid: Txid, depth: nat)
    | NowDisplaced(txid: Txid)
    | WindowElapsed(txid: Txid)
    | SenderResolvable(txid: Txid, daa: nat)
    | NowStalled(txid: Txid, waited: nat)

  /** A send's acceptance read ahead of its fold. */
  datatype Ahead = Ahead(block: Block, facts: Facts)

  datatype State = State(
    core: Core,
    stalled: set<Txid>,
    elapsed: set<Txid>,
    confirmed: set<Txid>,
    sinkBlue: nat,
    depthHeld: bool,
    walking: bool,
    ahead: map<Txid, Ahead>)

  /** What the message walk remembers of a txid no one watched. */
  datatype Remembered =
    | SeenAccepted(block: Block, facts: Facts, daa: nat)
    | SeenDisplaced(since: nat, prior: Block)

  datatype Did = Did(state: State, events: seq<Event>, failed: bool)

  function SatSub(a: nat, b: nat): nat {
    if a >= b then a - b else 0
  }

  function Members(ts: seq<Txid>): set<Txid> {
    set t | t in ts
  }

  function ClaimsDepth(s: State): bool {
    !s.depthHeld && !s.walking
  }

  predicate AwaitsFirstAcceptance(s: State, t: Txid) {
    t in s.core.records && s.core.records[t].source == Send && s.core.records[t].status.Submitted?
  }

  // ---- folds ----

  function AcceptedEvents(ts: seq<Txid>): (r: seq<Event>)
    ensures |r| == |ts| && forall i :: 0 <= i < |ts| ==> r[i] == NowAccepted(ts[i])
  {
    seq(|ts|, i requires 0 <= i < |ts| => NowAccepted(ts[i]))
  }

  function DisplacedEvents(ts: seq<Txid>): (r: seq<Event>)
    ensures |r| == |ts| && forall i :: 0 <= i < |ts| ==> r[i] == NowDisplaced(ts[i])
  {
    seq(|ts|, i requires 0 <= i < |ts| => NowDisplaced(ts[i]))
  }

  /** A landed acceptance ends the read-ahead and clears the two window guards. */
  function AfterAccepting(s: State, f: Folded): State {
    s.(core := f.core, ahead := s.ahead - Members(f.moved),
       stalled := s.stalled - Members(f.moved), elapsed := s.elapsed - Members(f.moved))
  }

  function OnAccepted(disk: Disk, s: State, b: Block, f: Facts, ts: seq<Txid>): Did {
    var folded := AcceptAll(disk, From(s.core), b, f, ts);
    Did(AfterAccepting(s, folded), AcceptedEvents(folded.moved), folded.failed)
  }

  function AfterRemoving(s: State, f: Folded): State {
    s.(core := f.core, confirmed := s.confirmed - Members(f.moved))
  }

  function OnRemoved(disk: Disk, s: State, bs: seq<Block>, now: nat): Did {
    var folded := RemoveAll(disk, From(s.core), bs, now);
    Did(AfterRemoving(s, folded), DisplacedEvents(folded.moved), folded.failed)
  }

  function NoteAdded(s: State, bs: seq<Block>): State {
    s.(core := s.core.(offChain := AddedAll(s.core.offChain, bs)))
  }

  // ---- registering and dropping ----

  function DropWatch(disk: Disk, s: State, t: Txid): Did {
    var w := DropCore(disk, s.core, t);
    Did(s.(core := w.core, stalled := s.stalled - {t}, elapsed := s.elapsed - {t}, confirmed := s.confirmed - {t}),
        [], !w.ok)
  }

  /** The first record with the least registration time, in iteration order. */
  function Oldest(records: Records, order: seq<Txid>): Option<Txid>
    decreases |order|
  {
    if order == [] then None
    else
      var rest := Oldest(records, order[1..]);
      if order[0] !in records then rest
      else if rest.None? || rest.value !in records || records[order[0]].watched <= records[rest.value].watched then Some(order[0])
      else rest
  }

  function NewRecord(source: Source, now: nat): Record {
    Record(source, now, Submitted(now))
  }

  function Register(disk: Disk, s: State, t: Txid, source: Source, now: nat, order: seq<Txid>): Did {
    if t in s.core.records then Did(s, [], false)
    else
      var oldest := if |s.core.records| >= WATCH_CAP then Oldest(s.core.records, order) else None;
      var made := if oldest.Some? then DropWatch(disk, s, oldest.value) else Did(s, [], false);
      if made.failed then made
      else
        var w := Put(disk, made.state.core, t, NewRecord(source, now));
        Did(made.state.(core := w.core), [], !w.ok)
  }

  /** One record's displacement, written alone. */
  function MarkDisplaced(disk: Disk, s: State, t: Txid, since: nat, prior: Block): Did {
    if t !in s.core.records then Did(s, [], false)
    else
      var w := Put(disk, s.core, t, s.core.records[t].(status := Displaced(since, prior)));
      Did(s.(core := w.core), if w.ok then [NowDisplaced(t)] else [], !w.ok)
  }

  /** A single-transition caller's view of a fold: its events, or its failure. */
  function EventsOrFailure(d: Did): Did {
    if d.failed then d.(events := []) else d
  }

  /** An acceptance the live stream has since retired starts displaced, from now. */
  function Current(s: State, seen: Remembered, now: nat): Remembered {
    if seen.SeenAccepted? && seen.block in s.core.offChain.blocks then SeenDisplaced(now, seen.block) else seen
  }

  function RegisterRemembered(disk: Disk, s: State, t: Txid, source: Source, now: nat, seen: Remembered, order: seq<Txid>): Did {
    var made := Register(disk, s, t, source, now, order);
    if made.failed then made else FromMemory(disk, made.state, t, Current(made.state, seen, now))
  }

  /** A txid just registered takes the memory's word. */
  function FromMemory(disk: Disk, s: State, t: Txid, seen: Remembered): Did {
    match seen
    case SeenAccepted(b, f, _) => EventsOrFailure(OnAccepted(disk, s, b, f, [t]))
    case SeenDisplaced(since, prior) => MarkDisplaced(disk, s, t, since, prior)
  }

  /** The message walk says `b` accepted `t`. */
  function WalkAccepted(disk: Disk, s: State, t: Txid, b: Block, f: Facts): Did {
    if t !in s.core.records then Did(s, [], false)
    else
      var r := s.core.records[t];
      if r.status.Accepted? && r.status.ms == 0 && r.status.block == b && f.ms != 0 then
        var w := Put(disk, s.core, t, r.(status := Accepted(b, f.blue, f.ms)));
        Did(s.(core := w.core), [], !w.ok)
      else if (r.status.Submitted? || r.status.Displaced?) && r.source == Transport && b !in s.core.offChain.blocks then
        EventsOrFailure(OnAccepted(disk, s, b, f, [t]))
      else Did(s, [], false)
  }

  // ---- depth, pruning, windows ----

  function Depth(s: State, t: Txid): nat
    requires t in s.core.records && s.core.records[t].status.Accepted?
  {
    SatSub(s.sinkBlue, s.core.records[t].status.blue)
  }

  predicate IsAccepted(s: State, t: Txid) {
    t in s.core.records && s.core.records[t].status.Accepted?
  }

  predicate Crosses(s: State, t: Txid) {
    IsAccepted(s, t) && Depth(s, t) >= CONFIRMED_DEPTH_BLUE && t !in s.confirmed
  }

  function Crossings(s: State, order: seq<Txid>): seq<Event>
    decreases |order|
  {
    if order == [] then []
    else (if Crosses(s, order[0]) then [NowConfirmed(order[0], Depth(s, order[0]))] else []) + Crossings(s, order[1..])
  }

  function Deep(s: State, order: seq<Txid>): seq<Txid>
    decreases |order|
  {
    if order == [] then []
    else
      (if IsAccepted(s, order[0]) && Depth(s, order[0]) >= TERMINAL_DEPTH_BLUE then [order[0]] else []) + Deep(s, order[1..])
  }

  function FinalizeAll(disk: Disk, c: Core, ts: seq<Txid>): Core
    decreases |ts|
  {
    if ts == [] then c else FinalizeAll(disk, FinalizeOne(disk, c, ts[0]).core, ts[1..])
  }

  function Expired(s: State, now: nat, order: seq<Txid>): seq<Txid>
    decreases |order|
  {
    if order == [] then []
    else
      (if order[0] in s.core.records && SatSub(now, s.core.records[order[0]].watched) > PRUNING_HORIZON_MS then [order[0]] else [])
        + Expired(s, now, order[1..])
  }

  /** Stops at the first drop whose write fails. */
  function DropEach(disk: Disk, s: State, ts: seq<Txid>): Did
    decreases |ts|
  {
    if ts == [] then Did(s, [], false)
    else
      var d := DropWatch(disk, s, ts[0]);
      if d.failed then d else DropEach(disk, d.state, ts[1..])
  }

  function Prune(disk: Disk, s: State, now: nat, order: seq<Txid>): State {
    DropEach(disk, s, Expired(s, now, order)).state
  }

  function Txids(events: seq<Event>): set<Txid> {
    set e | e in events :: e.txid
  }

  /** Crossings are claimed and deep watches finalized only when depth may be. */
  function Settled(disk: Disk, s: State, order: seq<Txid>): Did {
    if !ClaimsDepth(s) then Did(s, [], false)
    else
      var events := Crossings(s, order);
      Did(s.(core := FinalizeAll(disk, s.core, Deep(s, order)), confirmed := s.confirmed + Txids(events)), events, false)
  }

  function OnSinkBlue(disk: Disk, s: State, blue: nat, now: nat, order: seq<Txid>): Did {
    var settled := Settled(disk, s.(sinkBlue := blue), order);
    settled.(state := Prune(disk, settled.state, now, order))
  }

  predicate StallDue(s: State, t: Txid, now: nat) {
    && AwaitsFirstAcceptance(s, t) && t !in s.stalled
    && SatSub(now, s.core.records[t].status.at) >= STALL_AFTER_MS
  }

  predicate ElapseDue(s: State, t: Txid, now: nat) {
    && t in s.core.records && s.core.records[t].status.Displaced? && t !in s.elapsed
    && SatSub(now, s.core.records[t].status.since) >= TOMBSTONE_WINDOW_MS
  }

  function DueOne(s: State, t: Txid, now: nat): seq<Event> {
    if StallDue(s, t, now) then [NowStalled(t, SatSub(now, s.core.records[t].status.at))]
    else if ElapseDue(s, t, now) then [WindowElapsed(t)]
    else []
  }

  function DueEvents(s: State, now: nat, order: seq<Txid>): seq<Event>
    decreases |order|
  {
    if order == [] then [] else DueOne(s, order[0], now) + DueEvents(s, now, order[1..])
  }

  function GuardOne(s: State, e: Event): State {
    match e
    case NowStalled(t, _) => s.(stalled := s.stalled + {t})
    case WindowElapsed(t) => s.(elapsed := s.elapsed + {t})
    case _ => s
  }

  function GuardAll(s: State, events: seq<Event>): State
    decreases |events|
  {
    if events == [] then s else GuardAll(GuardOne(s, events[0]), events[1..])
  }

  function Tick(s: State, now: nat, order: seq<Txid>): Did {
    if s.walking then Did(s, [], false)
    else
      var events := DueEvents(s, now, order);
      Did(GuardAll(s, events), events, false)
  }

  // ---- what a consumer reads ----

  datatype View =
    | ReadsSubmitted
    | ReadsAccepted(depth: nat, ms: nat)
    | ReadsConfirmed(depth: nat, ms: nat)
    | ReadsDisplaced
    | ReadsStalled(waited: nat)

  function Read(s: State, t: Txid, now: nat): Option<View> {
    if t !in s.core.records then None
    else
      var r := s.core.records[t];
      match r.status
      case Submitted(at) =>
        if t in s.ahead then Some(ReadsAccepted(SatSub(s.sinkBlue, s.ahead[t].facts.blue), s.ahead[t].facts.ms))
        else if r.source == Send && SatSub(now, at) >= STALL_AFTER_MS then Some(ReadsStalled(SatSub(now, at)))
        else Some(ReadsSubmitted)
      case Accepted(_, blue, ms) =>
        var depth := SatSub(s.sinkBlue, blue);
        if depth >= CONFIRMED_DEPTH_BLUE && ClaimsDepth(s) then Some(ReadsConfirmed(depth, ms))
        else Some(ReadsAccepted(depth, ms))
      case Finalized(_, blue, ms) => Some(ReadsConfirmed(SatSub(s.sinkBlue, blue), ms))
      case Displaced(_, _) => Some(ReadsDisplaced)
  }

  // ---- lemmas about the folds' movers ----

  /** Who a fold moved is accepted by its block; everyone else is as before. */
  lemma {:induction false} AcceptAllMoves(disk: Disk, done: Folded, b: Block, f: Facts, ts: seq<Txid>, t: Txid)
    ensures var out := AcceptAll(disk, done, b, f, ts);
      && out.core.records.Keys == done.core.records.Keys
      && out.core.offChain == done.core.offChain
      && (t in done.moved ==> t in out.moved)
      && (t in out.moved ==> t in done.moved || (t in ts && AcceptedBy(out.core.records, t, b)))
      && (t in done.core.records && (t !in out.moved || t !in ts) ==> out.core.records[t] == done.core.records[t])
      && (t in done.core.records ==>
            out.core.records[t] == done.core.records[t] || AcceptedBy(out.core.records, t, b))
    decreases |ts|
  {
    if ts != [] {
      var a := AcceptOne(disk, done.core, b, f, ts[0]);
      AcceptAllMoves(disk, Then(done, ts[0], a), b, f, ts[1..], t);
    }
  }

  lemma {:induction false} DisplaceAllMoves(disk: Disk, d: Displacing, b: Block, ts: seq<Txid>, now: nat, t: Txid)
    ensures var out := DisplaceAll(disk, d, b, ts, now);
      && out.fold.core.records.Keys == d.fold.core.records.Keys
      && (t in d.fold.moved ==> t in out.fold.moved)
      && (t in d.fold.core.records && t !in out.fold.moved ==> out.fold.core.records[t] == d.fold.core.records[t])
      && (t in d.fold.core.records ==>
            out.fold.core.records[t] == d.fold.core.records[t] || out.fold.core.records[t].status.Displaced?)
    decreases |ts|
  {
    if ts != [] {
      DisplaceAllMoves(disk, DisplaceOne(disk, d, b, ts[0], now), b, ts[1..], now, t);
    }
  }

  lemma {:induction false} RemoveAllMoves(disk: Disk, done: Folded, bs: seq<Block>, now: nat, t: Txid)
    ensures var out := RemoveAll(disk, done, bs, now);
      && out.core.records.Keys == done.core.records.Keys
      && (t in done.moved ==> t in out.moved)
      && (t in done.core.records && t !in out.moved ==> out.core.records[t] == done.core.records[t])
      && (t in done.core.records ==>
            out.core.records[t] == done.core.records[t] || out.core.records[t].status.Displaced?)
    decreases |bs|
  {
    if bs != [] {
      var c := done.core.(offChain := Removed(done.core.offChain, bs[0]));
      if bs[0] in c.index {
        DisplaceAllMoves(disk, Displacing(done.(core := c), []), bs[0], c.index[bs[0]], now, t);
      }
      RemoveAllMoves(disk, RemoveBlock(disk, done, bs[0], now), bs[1..], now, t);
    }
  }

  lemma {:induction false} FinalizeAllMoves(disk: Disk, c: Core, ts: seq<Txid>, t: Txid)
    ensures var out := FinalizeAll(disk, c, ts);
      && out.records.Keys == c.records.Keys && out.offChain == c.offChain
      && (t in c.records ==>
            || out.records[t] == c.records[t]
            || (t in ts && c.records[t].status.Accepted? && out.records[t].status.Finalized?))
    decreases |ts|
  {
    if ts != [] {
      FinalizeAllMoves(disk, FinalizeOne(disk, c, ts[0]).core, ts[1..], t);
    }
  }

  // ---- depth is claimed only when nothing is owed ----

  lemma {:induction false} DropEachKeepsRecords(disk: Disk, s: State, ts: seq<Txid>, t: Txid)
    ensures var out := DropEach(disk, s, ts).state;
      && (t in out.core.records ==> t in s.core.records && out.core.records[t] == s.core.records[t])
      && out.core.offChain == s.core.offChain
      && out.depthHeld == s.depthHeld && out.walking == s.walking && out.sinkBlue == s.sinkBlue && out.ahead == s.ahead
    decreases |ts|
  {
    if ts != [] && !DropWatch(disk, s, ts[0]).failed {
      DropEachKeepsRecords(disk, DropWatch(disk, s, ts[0]).state, ts[1..], t);
    }
  }

  /** **While the cursor is held or a walk runs**, a new sink score claims no
      crossing and finalizes nothing (records can only be pruned), and no record
      that is not Finalized reads Confirmed, whatever the score. */
  lemma NoDepthIsClaimedWhileHeld(disk: Disk, s: State, blue: nat, now: nat, order: seq<Txid>, t: Txid)
    requires s.depthHeld || s.walking
    ensures var d := OnSinkBlue(disk, s, blue, now, order);
      && d.events == []
      && (t in d.state.core.records ==> t in s.core.records && d.state.core.records[t] == s.core.records[t])
      && (Read(d.state, t, now).Some? && Read(d.state, t, now).value.ReadsConfirmed? ==>
            t in s.core.records && s.core.records[t].status.Finalized?)
  {
    var s1 := s.(sinkBlue := blue);
    DropEachKeepsRecords(disk, s1, Expired(s1, now, order), t);
  }

  /** A status reads Confirmed exactly when it was finalized, or is accepted deep
      enough with nothing owed. */
  lemma ReadsConfirmedExactlyWhen(s: State, t: Txid, now: nat)
    ensures (Read(s, t, now).Some? && Read(s, t, now).value.ReadsConfirmed?) <==>
      t in s.core.records &&
      (|| s.core.records[t].status.Finalized?
       || (IsAccepted(s, t) && Depth(s, t) >= CONFIRMED_DEPTH_BLUE && !s.depthHeld && !s.walking))
  {
  }

  // ---- one-shot events ----

  /** Everything that can be asked of the state, in any order. `order` is the
      order the program's hash map happened to iterate in. */
  datatype Op =
    | WatchOp(t: Txid, source: Source, now: nat, order: seq<Txid>)
    | RememberedOp(t: Txid, source: Source, now: nat, seen: Remembered, order: seq<Txid>)
    | RemovedOp(blocks: seq<Block>, now: nat)
    | AddedOp(blocks: seq<Block>)
    | AcceptedOp(block: Block, facts: Facts, ts: seq<Txid>)
    | WalkOp(t: Txid, block: Block, facts: Facts)
    | AheadOp(t: Txid, block: Block, facts: Facts)
    | SinkOp(blue: nat, now: nat, order: seq<Txid>)
    | TickOp(now: nat, order: seq<Txid>)
    | PrimeOp(blue: nat)
    | MarksOp(held: bool, walking: bool)
    | ForgetAheadOp

  /** What an observer of one process sees: events, records leaving the log, and
      drops whose write failed. */
  datatype Moment = Emitted(event: Event) | Gone(txid: Txid) | DropFailed(txid: Txid)

  function Emissions(events: seq<Event>): (r: seq<Moment>)
    ensures |r| == |events| && forall i :: 0 <= i < |events| ==> r[i] == Emitted(events[i])
  {
    seq(|events|, i requires 0 <= i < |events| => Emitted(events[i]))
  }

  function DropMoments(disk: Disk, s: State, ts: seq<Txid>): seq<Moment>
    decreases |ts|
  {
    if ts == [] then []
    else
      var d := DropWatch(disk, s, ts[0]);
      if d.failed then [DropFailed(ts[0])] else [Gone(ts[0])] + DropMoments(disk, d.state, ts[1..])
  }

  /** The eviction a registration makes at the cap. */
  function EvictionOf(s: State, t: Txid, order: seq<Txid>): seq<Txid> {
    if t !in s.core.records && |s.core.records| >= WATCH_CAP && Oldest(s.core.records, order).Some?
    then [Oldest(s.core.records, order).value] else []
  }

  function Apply(disk: Disk, s: State, op: Op): (State, seq<Moment>) {
    match op
    case WatchOp(t, source, now, order) =>
      (Register(disk, s, t, source, now, order).state, DropMoments(disk, s, EvictionOf(s, t, order)))
    case RememberedOp(t, source, now, seen, order) =>
      if t in s.core.records then (s, [])
      else
        var d := RegisterRemembered(disk, s, t, source, now, seen, order);
        (d.state, DropMoments(disk, s, EvictionOf(s, t, order)) + Emissions(d.events))
    case RemovedOp(bs, now) => var d := OnRemoved(disk, s, bs, now); (d.state, Emissions(d.events))
    case AddedOp(bs) => (NoteAdded(s, bs), [])
    case AcceptedOp(b, f, ts) => var d := OnAccepted(disk, s, b, f, ts); (d.state, Emissions(d.events))
    case WalkOp(t, b, f) => var d := WalkAccepted(disk, s, t, b, f); (d.state, Emissions(d.events))
    case AheadOp(t, b, f) => (s.(ahead := s.ahead[t := Ahead(b, f)]), [Emitted(NowAccepted(t))])
    case SinkOp(blue, now, order) =>
      var settled := Settled(disk, s.(sinkBlue := blue), order);
      (OnSinkBlue(disk, s, blue, now, order).state,
       Emissions(settled.events) + DropMoments(disk, settled.state, Expired(settled.state, now, order)))
    case TickOp(now, order) => var d := Tick(s, now, order); (d.state, Emissions(d.events))
    case PrimeOp(blue) => (s.(sinkBlue := blue), [])
    case MarksOp(held, walking) => (s.(depthHeld := held, walking := walking), [])
    case ForgetAheadOp => (s.(ahead := map[]), [])
  }

  function Play(disk: Disk, s: State, ops: seq<Op>): (State, seq<Moment>)
    decreases |ops|
  {
    if ops == [] then (s, [])
    else
      var (s1, first) := Apply(disk, s, ops[0]);
      var (s2, rest) := Play(disk, s1, ops[1..]);
      (s2, first + rest)
  }

  /** What has been signalled of one live watch. */
  datatype Signalled = Signalled(stalled: bool, elapsed: bool, confirmed: bool)

  const NOTHING: Signalled := Signalled(false, false, false)

  /** One stall a watch; one elapse a displacement; one confirmation between
      displacements; a record leaving the log starts over. Nothing else counts. */
  function Hear(h: Signalled, m: Moment, t: Txid): Option<Signalled> {
    match m
    case Gone(u) => Some(if u == t then NOTHING else h)
    case DropFailed(_) => Some(h)
    case Emitted(e) =>
      if e.txid != t then Some(h)
      else
        match e
        case NowStalled(_, _) => if h.stalled then None else Some(h.(stalled := true))
        case WindowElapsed(_) => if h.elapsed then None else Some(h.(elapsed := true))
        case NowConfirmed(_, _) => if h.confirmed then None else Some(h.(confirmed := true))
        case NowDisplaced(_) => Some(h.(elapsed := false, confirmed := false))
        case _ => Some(h)
  }

  function HearAll(h: Signalled, trace: seq<Moment>, t: Txid): Option<Signalled>
    decreases |trace|
  {
    if trace == [] then Some(h)
    else
      match Hear(h, trace[0], t)
      case None => None
      case Some(h1) => HearAll(h1, trace[1..], t)
  }

  lemma {:induction false} HearSplit(h: Signalled, a: seq<Moment>, b: seq<Moment>, t: Txid)
    ensures HearAll(h, a + b, t) ==
      match HearAll(h, a, t) { case None => None case Some(h1) => HearAll(h1, b, t) }
    decreases |a|
  {
    if a == [] {
      assert a + b == b;
    } else {
      assert (a + b)[0] == a[0] && (a + b)[1..] == a[1..] + b;
      if Hear(h, a[0], t).Some? {
        HearSplit(Hear(h, a[0], t).value, a[1..], b, t);
      }
    }
  }

  /** The guards cover what was signalled. */
  predicate Guarded(s: State, h: Signalled, t: Txid) {
    if t !in s.core.records then h == NOTHING
    else
      var status := s.core.records[t].status;
      && (h.stalled && status.Submitted? ==> t in s.stalled)
      && (h.elapsed && status.Displaced? ==> t in s.elapsed)
      && (h.confirmed ==> t in s.confirmed)
  }

  /** Events that change nothing for `t`, or only displace it. */
  lemma {:induction false} HearQuiet(h: Signalled, events: seq<Event>, t: Txid)
    requires forall e :: e in events ==> e.NowAccepted? || e.txid != t
    ensures HearAll(h, Emissions(events), t) == Some(h)
    decreases |events|
  {
    if events != [] {
      assert Emissions(events)[0] == Emitted(events[0]);
      assert Emissions(events)[1..] == Emissions(events[1..]);
      assert forall e :: e in events[1..] ==> e in events;
      HearQuiet(h, events[1..], t);
    }
  }

  lemma {:induction false} HearDisplaced(h: Signalled, ts: seq<Txid>, t: Txid)
    ensures HearAll(h, Emissions(DisplacedEvents(ts)), t) ==
      Some(if t in ts then h.(elapsed := false, confirmed := false) else h)
    decreases |ts|
  {
    if ts != [] {
      var events := DisplacedEvents(ts);
      assert Emissions(events)[0] == Emitted(NowDisplaced(ts[0]));
      assert Emissions(events)[1..] == Emissions(DisplacedEvents(ts[1..]));
      HearDisplaced(if ts[0] == t then h.(elapsed := false, confirmed := false) else h, ts[1..], t);
    }
  }

  lemma EmissionsSplit(a: seq<Event>, b: seq<Event>)
    ensures Emissions(a + b) == Emissions(a) + Emissions(b)
  {
  }

  lemma HearOne(h: Signalled, e: Event, t: Txid)
    ensures HearAll(h, Emissions([e]), t) == Hear(h, Emitted(e), t)
  {
    assert Emissions([e])[1..] == [];
  }

  lemma AbsentFromRest(order: seq<Txid>)
    requires order != [] && NoDups(order)
    ensures order[0] !in order[1..] && NoDups(order[1..])
  {
  }

  lemma {:induction false} HearCrossings(s: State, order: seq<Txid>, h: Signalled, t: Txid)
    requires NoDups(order)
    ensures HearAll(h, Emissions(Crossings(s, order)), t) ==
      if !(t in order && Crosses(s, t)) then Some(h) else if h.confirmed then None else Some(h.(confirmed := true))
    ensures forall e :: e in Crossings(s, order) ==> e.txid in order && Crosses(s, e.txid)
    ensures t in order && Crosses(s, t) ==> t in Txids(Crossings(s, order))
    decreases |order|
  {
    if order != [] {
      AbsentFromRest(order);
      var rest := Crossings(s, order[1..]);
      if Crosses(s, order[0]) {
        var e := NowConfirmed(order[0], Depth(s, order[0]));
        EmissionsSplit([e], rest);
        HearSplit(h, Emissions([e]), Emissions(rest), t);
        HearOne(h, e, t);
        HearCrossings(s, order[1..], if order[0] == t then h.(confirmed := true) else h, t);
        assert Crossings(s, order)[0] == e;
      } else {
        assert [] + rest == rest;
        HearCrossings(s, order[1..], h, t);
      }
    }
  }

  lemma {:induction false} HearDue(s: State, now: nat, order: seq<Txid>, h: Signalled, t: Txid)
    requires NoDups(order)
    ensures HearAll(h, Emissions(DueEvents(s, now, order)), t) ==
      if t !in order then Some(h)
      else if StallDue(s, t, now) then if h.stalled then None else Some(h.(stalled := true))
      else if ElapseDue(s, t, now) then if h.elapsed then None else Some(h.(elapsed := true))
      else Some(h)
    decreases |order|
  {
    if order != [] {
      AbsentFromRest(order);
      var one, rest := DueOne(s, order[0], now), DueEvents(s, now, order[1..]);
      if one == [] {
        assert [] + rest == rest;
        HearDue(s, now, order[1..], h, t);
      } else {
        EmissionsSplit(one, rest);
        HearSplit(h, Emissions(one), Emissions(rest), t);
        HearOne(h, one[0], t);
        HearDue(s, now, order[1..], if order[0] != t then h
                                    else if one[0].NowStalled? then h.(stalled := true) else h.(elapsed := true), t);
      }
    }
  }

  /** Each due event and only those: what a tick emits and what it then guards. */
  lemma {:induction false} DueEventsAre(s: State, now: nat, order: seq<Txid>, t: Txid)
    ensures (exists w :: NowStalled(t, w) in DueEvents(s, now, order)) <==> t in order && StallDue(s, t, now)
    ensures WindowElapsed(t) in DueEvents(s, now, order) <==> t in order && ElapseDue(s, t, now)
    decreases |order|
  {
    if order != [] {
      DueEventsAre(s, now, order[1..], t);
      var one, rest := DueOne(s, order[0], now), DueEvents(s, now, order[1..]);
      assert forall e :: e in one + rest <==> e in one || e in rest;
      if t in order && StallDue(s, t, now) {
        var w := SatSub(now, s.core.records[t].status.at);
        if t == order[0] {
          assert NowStalled(t, w) in one;
        }
      }
    }
  }

  lemma {:induction false} GuardAllIs(s: State, events: seq<Event>, t: Txid)
    ensures var out := GuardAll(s, events);
      && out == s.(stalled := out.stalled, elapsed := out.elapsed)
      && (t in out.stalled <==> t in s.stalled || exists w :: NowStalled(t, w) in events)
      && (t in out.elapsed <==> t in s.elapsed || WindowElapsed(t) in events)
    decreases |events|
  {
    if events != [] {
      GuardAllIs(GuardOne(s, events[0]), events[1..], t);
      assert forall e :: e in events <==> e == events[0] || e in events[1..];
    }
  }

  /** A tick signals exactly the stalls and elapses that are due and unsignalled,
      and none of them is due again until something else changes it. */
  lemma TickSignalsExactlyTheDue(s: State, now: nat, order: seq<Txid>, t: Txid)
    requires t in order
    ensures var d := Tick(s, now, order);
      && ((exists w :: NowStalled(t, w) in d.events) <==> !s.walking && StallDue(s, t, now))
      && (WindowElapsed(t) in d.events <==> !s.walking && ElapseDue(s, t, now))
      && d.state.core == s.core
      && (!s.walking ==> !StallDue(d.state, t, now) && !ElapseDue(d.state, t, now))
  {
    if !s.walking {
      DueEventsAre(s, now, order, t);
      GuardAllIs(s, DueEvents(s, now, order), t);
    }
  }

  lemma {:induction false} DropsKeepGuarded(disk: Disk, s: State, ts: seq<Txid>, h: Signalled, t: Txid)
    requires Guarded(s, h, t) && DropFailed(t) !in DropMoments(disk, s, ts)
    ensures var heard := HearAll(h, DropMoments(disk, s, ts), t);
      heard.Some? && Guarded(DropEach(disk, s, ts).state, heard.value, t)
    decreases |ts|
  {
    if ts != [] {
      var d := DropWatch(disk, s, ts[0]);
      var ms := DropMoments(disk, s, ts);
      if d.failed {
        assert ms == [DropFailed(ts[0])] && ms[1..] == [];
      } else {
        assert ms[1..] == DropMoments(disk, d.state, ts[1..]);
        DropsKeepGuarded(disk, d.state, ts[1..], if ts[0] == t then NOTHING else h, t);
      }
    }
  }

  lemma RegisterAsDrops(disk: Disk, s: State, t: Txid, source: Source, now: nat, order: seq<Txid>)
    requires t !in s.core.records
    ensures var evicted := DropEach(disk, s, EvictionOf(s, t, order));
      var d := Register(disk, s, t, source, now, order);
      if evicted.failed then d == evicted
      else var w := Put(disk, evicted.state.core, t, NewRecord(source, now));
           d == Did(evicted.state.(core := w.core), [], !w.ok)
  {
  }

  lemma WatchKeepsGuarded(disk: Disk, s: State, u: Txid, source: Source, now: nat, order: seq<Txid>, h: Signalled, t: Txid)
    requires Guarded(s, h, t) && u !in s.core.records && DropFailed(t) !in DropMoments(disk, s, EvictionOf(s, u, order))
    ensures var heard := HearAll(h, DropMoments(disk, s, EvictionOf(s, u, order)), t);
      heard.Some? && Guarded(Register(disk, s, u, source, now, order).state, heard.value, t)
  {
    DropsKeepGuarded(disk, s, EvictionOf(s, u, order), h, t);
    RegisterAsDrops(disk, s, u, source, now, order);
    DropEachKeepsRecords(disk, s, EvictionOf(s, u, order), u);
  }

  lemma AcceptKeepsGuarded(disk: Disk, s: State, b: Block, f: Facts, ts: seq<Txid>, h: Signalled, t: Txid)
    requires Guarded(s, h, t)
    ensures Guarded(OnAccepted(disk, s, b, f, ts).state, h, t)
    ensures HearAll(h, Emissions(OnAccepted(disk, s, b, f, ts).events), t) == Some(h)
    ensures HearAll(h, Emissions([]), t) == Some(h)
  {
    AcceptAllMoves(disk, From(s.core), b, f, ts, t);
    HearQuiet(h, OnAccepted(disk, s, b, f, ts).events, t);
  }

  lemma MarkKeepsGuarded(disk: Disk, s: State, u: Txid, since: nat, prior: Block, h: Signalled, t: Txid)
    requires Guarded(s, h, t) && u in s.core.records && s.core.records[u].status.Submitted?
    ensures var d := MarkDisplaced(disk, s, u, since, prior); var heard := HearAll(h, Emissions(d.events), t);
      heard.Some? && Guarded(d.state, heard.value, t)
  {
    var d := MarkDisplaced(disk, s, u, since, prior);
    if d.events != [] {
      HearOne(h, NowDisplaced(u), t);
    }
  }

  /** What a remembered txid's registration says once it is registered. */
  lemma SeenKeepsGuarded(disk: Disk, s: State, u: Txid, seen: Remembered, h: Signalled, t: Txid)
    requires Guarded(s, h, t) && u in s.core.records && s.core.records[u].status.Submitted?
    ensures var d := FromMemory(disk, s, u, seen); var heard := HearAll(h, Emissions(d.events), t);
      heard.Some? && Guarded(d.state, heard.value, t)
  {
    match seen
    case SeenAccepted(b, f, _) => AcceptKeepsGuarded(disk, s, b, f, [u], h, t);
    case SeenDisplaced(since, prior) => MarkKeepsGuarded(disk, s, u, since, prior, h, t);
  }

  lemma RegisteredIsNew(disk: Disk, s: State, u: Txid, source: Source, now: nat, order: seq<Txid>)
    requires u !in s.core.records
    ensures var d := Register(disk, s, u, source, now, order);
      && d.events == [] && (!d.failed ==> u in d.state.core.records && d.state.core.records[u] == NewRecord(source, now))
  {
    if !Register(disk, s, u, source, now, order).failed {
      RegisterAsDrops(disk, s, u, source, now, order);
      DropEachKeepsRecords(disk, s, EvictionOf(s, u, order), u);
    }
  }

  lemma RememberedKeepsGuarded(disk: Disk, s: State, op: Op, h: Signalled, t: Txid)
    requires op.RememberedOp? && op.t !in s.core.records
    requires Guarded(s, h, t) && DropFailed(t) !in Apply(disk, s, op).1
    ensures var (s', ms) := Apply(disk, s, op); var heard := HearAll(h, ms, t);
      heard.Some? && Guarded(s', heard.value, t)
  {
    var drops := DropMoments(disk, s, EvictionOf(s, op.t, op.order));
    var d := RegisterRemembered(disk, s, op.t, op.source, op.now, op.seen, op.order);
    var made := Register(disk, s, op.t, op.source, op.now, op.order);
    assert DropFailed(t) !in drops;
    WatchKeepsGuarded(disk, s, op.t, op.source, op.now, op.order, h, t);
    RegisteredIsNew(disk, s, op.t, op.source, op.now, op.order);
    var h1 := HearAll(h, drops, t).value;
    HearSplit(h, drops, Emissions(d.events), t);
    if made.failed {
      assert Emissions(d.events) == [];
    } else {
      SeenKeepsGuarded(disk, made.state, op.t, Current(made.state, op.seen, op.now), h1, t);
    }
  }

  lemma SinkKeepsGuarded(disk: Disk, s: State, blue: nat, now: nat, order: seq<Txid>, h: Signalled, t: Txid)
    requires Guarded(s, h, t) && NoDups(order) && DropFailed(t) !in Apply(disk, s, SinkOp(blue, now, order)).1
    ensures var (s', ms) := Apply(disk, s, SinkOp(blue, now, order)); var heard := HearAll(h, ms, t);
      heard.Some? && Guarded(s', heard.value, t)
  {
    var s1 := s.(sinkBlue := blue);
    var settled := Settled(disk, s1, order);
    var drops := DropMoments(disk, settled.state, Expired(settled.state, now, order));
    assert DropFailed(t) !in drops;
    if ClaimsDepth(s1) {
      HearCrossings(s1, order, h, t);
      FinalizeAllMoves(disk, s1.core, Deep(s1, order), t);
    } else {
      assert Emissions(settled.events) == [];
    }
    var h1 := HearAll(h, Emissions(settled.events), t).value;
    HearSplit(h, Emissions(settled.events), drops, t);
    DropsKeepGuarded(disk, settled.state, Expired(settled.state, now, order), h1, t);
  }

  predicate OrderIsOnce(op: Op) {
    match op
    case SinkOp(_, _, order) => NoDups(order)
    case TickOp(_, order) => NoDups(order)
    case _ => true
  }

  lemma ApplyKeepsGuarded(disk: Disk, s: State, op: Op, h: Signalled, t: Txid)
    requires Guarded(s, h, t) && OrderIsOnce(op) && DropFailed(t) !in Apply(disk, s, op).1
    ensures var (s', ms) := Apply(disk, s, op); var heard := HearAll(h, ms, t);
      heard.Some? && Guarded(s', heard.value, t)
  {
    match op
    case WatchOp(u, source, now, order) =>
      if u !in s.core.records {
        WatchKeepsGuarded(disk, s, u, source, now, order, h, t);
      }
    case RememberedOp(u, _, _, _, _) =>
      if u !in s.core.records {
        RememberedKeepsGuarded(disk, s, op, h, t);
      }
    case RemovedOp(bs, now) =>
      RemoveAllMoves(disk, From(s.core), bs, now, t);
      HearDisplaced(h, RemoveAll(disk, From(s.core), bs, now).moved, t);
    case AddedOp(bs) =>
    case AcceptedOp(b, f, ts) =>
      AcceptKeepsGuarded(disk, s, b, f, ts, h, t);
    case WalkOp(u, b, f) =>
      AcceptKeepsGuarded(disk, s, b, f, [u], h, t);
    case AheadOp(u, b, f) =>
      HearOne(h, NowAccepted(u), t);
      assert Emissions([NowAccepted(u)]) == [Emitted(NowAccepted(u))];
    case SinkOp(blue, now, order) =>
      SinkKeepsGuarded(disk, s, blue, now, order, h, t);
    case TickOp(now, order) =>
      if !s.walking {
        HearDue(s, now, order, h, t);
        DueEventsAre(s, now, order, t);
        GuardAllIs(s, DueEvents(s, now, order), t);
      }
    case PrimeOp(_) =>
    case MarksOp(_, _) =>
    case ForgetAheadOp =>
  }

  // ---- exactly when a signal comes a second time ----

  /** A drop that fails opens every window guard of its watch again, and only that:
      a signal is due after it exactly when the drop failed and its time has come,
      whatever was signalled before. */
  lemma DropReopensExactly(disk: Disk, s: State, t: Txid, now: nat)
    requires t in s.core.records
    ensures var d := DropWatch(disk, s, t); var status := s.core.records[t].status;
      && (StallDue(d.state, t, now) <==>
            d.failed && AwaitsFirstAcceptance(s, t) && SatSub(now, status.at) >= STALL_AFTER_MS)
      && (ElapseDue(d.state, t, now) <==>
            d.failed && status.Displaced? && SatSub(now, status.since) >= TOMBSTONE_WINDOW_MS)
      && (Crosses(d.state, t) <==> d.failed && status.Accepted? && Depth(s, t) >= CONFIRMED_DEPTH_BLUE)
    ensures t in s.stalled ==> !StallDue(s, t, now)
    ensures t in s.elapsed ==> !ElapseDue(s, t, now)
    ensures t in s.confirmed ==> !Crosses(s, t)
  {
  }

  /** The operation would signal of `t` what `h` says was signalled already. */
  predicate Repeats(s: State, h: Signalled, op: Op, t: Txid) {
    match op
    case TickOp(now, order) =>
      !s.walking && t in order && ((h.stalled && StallDue(s, t, now)) || (h.elapsed && ElapseDue(s, t, now)))
    case SinkOp(blue, _, order) => ClaimsDepth(s) && t in order && h.confirmed && Crosses(s.(sinkBlue := blue), t)
    case _ => false
  }

  /** Something was signalled of `t` that its record could signal again. */
  predicate Standing(s: State, h: Signalled, t: Txid) {
    && t in s.core.records
    && var status := s.core.records[t].status;
       (h.stalled && status.Submitted?) || (h.elapsed && status.Displaced?) || h.confirmed
  }

  lemma {:induction false} HearDrops(disk: Disk, s: State, ts: seq<Txid>, h: Signalled, t: Txid)
    ensures HearAll(h, DropMoments(disk, s, ts), t).Some?
    decreases |ts|
  {
    if ts != [] {
      var d := DropWatch(disk, s, ts[0]);
      var ms := DropMoments(disk, s, ts);
      if d.failed {
        assert ms[1..] == [];
      } else {
        assert ms[1..] == DropMoments(disk, d.state, ts[1..]);
        HearDrops(disk, d.state, ts[1..], if ts[0] == t then NOTHING else h, t);
      }
    }
  }

  lemma HearRemembered(disk: Disk, s: State, op: Op, h: Signalled, t: Txid)
    requires op.RememberedOp? && op.t !in s.core.records
    ensures HearAll(h, Apply(disk, s, op).1, t).Some?
  {
    var drops := DropMoments(disk, s, EvictionOf(s, op.t, op.order));
    var d := RegisterRemembered(disk, s, op.t, op.source, op.now, op.seen, op.order);
    HearDrops(disk, s, EvictionOf(s, op.t, op.order), h, t);
    var h1 := HearAll(h, drops, t).value;
    HearSplit(h, drops, Emissions(d.events), t);
    if d.events == [NowDisplaced(op.t)] {
      HearOne(h1, NowDisplaced(op.t), t);
    } else {
      HearQuiet(h1, d.events, t);
    }
  }

  lemma HearSink(disk: Disk, s: State, blue: nat, now: nat, order: seq<Txid>, h: Signalled, t: Txid)
    requires NoDups(order)
    ensures HearAll(h, Apply(disk, s, SinkOp(blue, now, order)).1, t).None? <==> Repeats(s, h, SinkOp(blue, now, order), t)
  {
    var s1 := s.(sinkBlue := blue);
    var settled := Settled(disk, s1, order);
    var drops := DropMoments(disk, settled.state, Expired(settled.state, now, order));
    if ClaimsDepth(s1) {
      HearCrossings(s1, order, h, t);
    } else {
      assert Emissions(settled.events) == [];
    }
    HearSplit(h, Emissions(settled.events), drops, t);
    if HearAll(h, Emissions(settled.events), t).Some? {
      HearDrops(disk, settled.state, Expired(settled.state, now, order), HearAll(h, Emissions(settled.events), t).value, t);
    }
  }

  /** Whatever the guards, one operation signals something twice exactly when it
      repeats. */
  lemma HeardTwiceExactlyWhen(disk: Disk, s: State, op: Op, h: Signalled, t: Txid)
    requires OrderIsOnce(op)
    ensures HearAll(h, Apply(disk, s, op).1, t).None? <==> Repeats(s, h, op, t)
  {
    match op
    case WatchOp(u, _, _, order) => HearDrops(disk, s, EvictionOf(s, u, order), h, t);
    case RememberedOp(u, _, _, _, _) =>
      if u !in s.core.records {
        HearRemembered(disk, s, op, h, t);
      }
    case RemovedOp(bs, now) => HearDisplaced(h, RemoveAll(disk, From(s.core), bs, now).moved, t);
    case AddedOp(_) =>
    case AcceptedOp(b, f, ts) => HearQuiet(h, OnAccepted(disk, s, b, f, ts).events, t);
    case WalkOp(u, b, f) => HearQuiet(h, WalkAccepted(disk, s, u, b, f).events, t);
    case AheadOp(u, _, _) =>
      assert Apply(disk, s, op).1 == Emissions([NowAccepted(u)]);
      HearQuiet(h, [NowAccepted(u)], t);
    case SinkOp(blue, now, order) => HearSink(disk, s, blue, now, order, h, t);
    case TickOp(now, order) =>
      if !s.walking {
        HearDue(s, now, order, h, t);
      }
    case PrimeOp(_) =>
    case MarksOp(_, _) =>
    case ForgetAheadOp =>
  }

  /** A watch whose drop failed is still there, with nothing guarded. */
  lemma {:induction false} FailedDropStays(disk: Disk, s: State, ts: seq<Txid>, t: Txid)
    requires DropFailed(t) in DropMoments(disk, s, ts)
    ensures var s' := DropEach(disk, s, ts).state;
      t in s'.core.records && t !in s'.stalled && t !in s'.elapsed && t !in s'.confirmed && DropEach(disk, s, ts).failed
    decreases |ts|
  {
    var d := DropWatch(disk, s, ts[0]);
    if !d.failed {
      assert DropFailed(t) in DropMoments(disk, d.state, ts[1..]);
      FailedDropStays(disk, d.state, ts[1..], t);
    }
  }

  lemma {:induction false} NoDropAmong(events: seq<Event>, t: Txid)
    ensures DropFailed(t) !in Emissions(events)
  {
  }

  lemma FailedDropLeaves(disk: Disk, s: State, op: Op, t: Txid)
    requires DropFailed(t) in Apply(disk, s, op).1
    ensures t in Apply(disk, s, op).0.core.records
  {
    match op
    case WatchOp(u, source, now, order) =>
      FailedDropStays(disk, s, EvictionOf(s, u, order), t);
      RegisterAsDrops(disk, s, u, source, now, order);
    case RememberedOp(u, source, now, _, order) =>
      NoDropAmong(RegisterRemembered(disk, s, u, source, now, op.seen, order).events, t);
      FailedDropStays(disk, s, EvictionOf(s, u, order), t);
      RegisterAsDrops(disk, s, u, source, now, order);
    case SinkOp(blue, now, order) =>
      var settled := Settled(disk, s.(sinkBlue := blue), order);
      NoDropAmong(settled.events, t);
      FailedDropStays(disk, settled.state, Expired(settled.state, now, order), t);
  }

  // ---- the same over runs ----

  /** Two traces after a first one. */
  lemma Append3(a: seq<Moment>, b: seq<Moment>, c: seq<Moment>)
    ensures a + (b + c) == (a + b) + c
  {
  }

  lemma PlayNext(disk: Disk, s: State, ops: seq<Op>)
    requires ops != []
    ensures var s1 := Apply(disk, s, ops[0]).0;
      && Play(disk, s, ops).0 == Play(disk, s1, ops[1..]).0
      && Play(disk, s, ops).1 == Apply(disk, s, ops[0]).1 + Play(disk, s1, ops[1..]).1
  {
  }

  lemma {:induction false} PlaySplit(disk: Disk, s: State, a: seq<Op>, b: seq<Op>)
    ensures var s1 := Play(disk, s, a).0;
      && Play(disk, s, a + b).0 == Play(disk, s1, b).0
      && Play(disk, s, a + b).1 == Play(disk, s, a).1 + Play(disk, s1, b).1
    decreases |a|
  {
    if a == [] {
      assert a + b == b;
    } else {
      assert (a + b)[0] == a[0] && (a + b)[1..] == a[1..] + b;
      PlayNext(disk, s, a + b);
      PlayNext(disk, s, a);
      var s1 := Apply(disk, s, a[0]).0;
      PlaySplit(disk, s1, a[1..], b);
      Append3(Apply(disk, s, a[0]).1, Play(disk, s1, a[1..]).1, Play(disk, Play(disk, s, a).0, b).1);
    }
  }

  lemma PlayOne(disk: Disk, s: State, op: Op)
    ensures Play(disk, s, [op]) == Apply(disk, s, op)
  {
    assert [op][1..] == [];
    assert Apply(disk, s, op).1 + [] == Apply(disk, s, op).1;
  }

  function StateAt(disk: Disk, s: State, ops: seq<Op>, i: nat): State
    requires i <= |ops|
  {
    Play(disk, s, ops[..i]).0
  }

  /** What has been signalled of `t` before the i-th operation, unless something
      was signalled twice. */
  function HeardAt(disk: Disk, s: State, ops: seq<Op>, h: Signalled, t: Txid, i: nat): Option<Signalled>
    requires i <= |ops|
  {
    HearAll(h, Play(disk, s, ops[..i]).1, t)
  }

  lemma AtNext(disk: Disk, s: State, ops: seq<Op>, h: Signalled, t: Txid, i: nat)
    requires i < |ops|
    ensures var (s', ms) := Apply(disk, StateAt(disk, s, ops, i), ops[i]);
      && StateAt(disk, s, ops, i + 1) == s'
      && HeardAt(disk, s, ops, h, t, i + 1) ==
         match HeardAt(disk, s, ops, h, t, i) { case None => None case Some(h1) => HearAll(h1, ms, t) }
  {
    assert ops[..i + 1] == ops[..i] + [ops[i]];
    PlaySplit(disk, s, ops[..i], [ops[i]]);
    PlayOne(disk, StateAt(disk, s, ops, i), ops[i]);
    HearSplit(h, Play(disk, s, ops[..i]).1, Apply(disk, StateAt(disk, s, ops, i), ops[i]).1, t);
  }

  /** The i-th operation signals a second time something signalled before it. */
  predicate RepeatsAt(disk: Disk, s: State, ops: seq<Op>, h: Signalled, t: Txid, i: int) {
    && 0 <= i < |ops| && HeardAt(disk, s, ops, h, t, i).Some?
    && Repeats(StateAt(disk, s, ops, i), HeardAt(disk, s, ops, h, t, i).value, ops[i], t)
  }

  /** The i-th operation fails to drop `t`, of which something was signalled. */
  predicate LapsesAt(disk: Disk, s: State, ops: seq<Op>, h: Signalled, t: Txid, i: int) {
    && 0 <= i < |ops| && DropFailed(t) in Apply(disk, StateAt(disk, s, ops, i), ops[i]).1
    && HeardAt(disk, s, ops, h, t, i + 1).Some?
    && Standing(StateAt(disk, s, ops, i + 1), HeardAt(disk, s, ops, h, t, i + 1).value, t)
  }

  lemma RepeatsNext(disk: Disk, s: State, ops: seq<Op>, h: Signalled, t: Txid, k: nat)
    requires k < |ops| && OrderIsOnce(ops[k]) && HeardAt(disk, s, ops, h, t, k).Some?
    ensures HeardAt(disk, s, ops, h, t, k + 1).None? <==> RepeatsAt(disk, s, ops, h, t, k)
  {
    AtNext(disk, s, ops, h, t, k);
    HeardTwiceExactlyWhen(disk, StateAt(disk, s, ops, k), ops[k], HeardAt(disk, s, ops, h, t, k).value, t);
  }

  lemma HeardStays(disk: Disk, s: State, ops: seq<Op>, h: Signalled, t: Txid, k: nat)
    requires k <= |ops| && HeardAt(disk, s, ops, h, t, k).None?
    ensures HearAll(h, Play(disk, s, ops).1, t).None?
  {
    assert ops == ops[..k] + ops[k..];
    PlaySplit(disk, s, ops[..k], ops[k..]);
    HearSplit(h, Play(disk, s, ops[..k]).1, Play(disk, Play(disk, s, ops[..k]).0, ops[k..]).1, t);
  }

  lemma {:induction false} HeardTwiceIsRepeated(disk: Disk, s: State, ops: seq<Op>, h: Signalled, t: Txid, n: nat)
    requires n <= |ops| && forall i :: 0 <= i < |ops| ==> OrderIsOnce(ops[i])
    requires HeardAt(disk, s, ops, h, t, n).None?
    ensures exists k :: k < n && RepeatsAt(disk, s, ops, h, t, k)
    decreases n
  {
    assert n > 0;
    if HeardAt(disk, s, ops, h, t, n - 1).Some? {
      RepeatsNext(disk, s, ops, h, t, n - 1);
    } else {
      HeardTwiceIsRepeated(disk, s, ops, h, t, n - 1);
    }
  }

  /** Where the guards stop covering what was signalled, a drop has failed. */
  lemma {:induction false} UnguardedHasLapsed(disk: Disk, s: State, ops: seq<Op>, h: Signalled, t: Txid, k: nat)
    requires k <= |ops| && forall i :: 0 <= i < |ops| ==> OrderIsOnce(ops[i])
    requires Guarded(s, h, t) && HeardAt(disk, s, ops, h, t, k).Some?
    requires !Guarded(StateAt(disk, s, ops, k), HeardAt(disk, s, ops, h, t, k).value, t)
    ensures exists i :: i < k && LapsesAt(disk, s, ops, h, t, i)
    decreases k
  {
    assert k > 0;
    AtNext(disk, s, ops, h, t, k - 1);
    var s1, h1 := StateAt(disk, s, ops, k - 1), HeardAt(disk, s, ops, h, t, k - 1).value;
    if Guarded(s1, h1, t) {
      if DropFailed(t) !in Apply(disk, s1, ops[k - 1]).1 {
        ApplyKeepsGuarded(disk, s1, ops[k - 1], h1, t);
      }
      FailedDropLeaves(disk, s1, ops[k - 1], t);
      assert LapsesAt(disk, s, ops, h, t, k - 1);
    } else {
      UnguardedHasLapsed(disk, s, ops, h, t, k - 1);
    }
  }

  /** Something is signalled twice if and only if a drop of `t` failed after a signal
      and a later operation finds it due again; so never without a failed drop. */
  ghost predicate OneShot(disk: Disk, s: State, ops: seq<Op>, h: Signalled, t: Txid) {
    && (HearAll(h, Play(disk, s, ops).1, t).None? <==>
          exists i, k :: i < k && LapsesAt(disk, s, ops, h, t, i) && RepeatsAt(disk, s, ops, h, t, k))
    && (DropFailed(t) !in Play(disk, s, ops).1 ==> HearAll(h, Play(disk, s, ops).1, t).Some?)
  }

  /** **One-shot events, exactly.** Over every sequence of operations on one
      process's state, with any write failing: each live watch stalls at most once,
      elapses at most once a displacement and confirms at most once between
      displacements, unless, and only unless, a drop of it fails after one of these
      was signalled and a later tick or score finds it due again. */
  lemma EventsAreOneShot(disk: Disk, s: State, ops: seq<Op>, h: Signalled, t: Txid)
    requires Guarded(s, h, t) && (forall i :: 0 <= i < |ops| ==> OrderIsOnce(ops[i]))
    ensures OneShot(disk, s, ops, h, t)
  {
    assert ops[..|ops|] == ops;
    forall k | RepeatsAt(disk, s, ops, h, t, k)
      ensures HearAll(h, Play(disk, s, ops).1, t).None?
    {
      RepeatsNext(disk, s, ops, h, t, k);
      HeardStays(disk, s, ops, h, t, k + 1);
    }
    if HearAll(h, Play(disk, s, ops).1, t).None? {
      HeardTwiceIsRepeated(disk, s, ops, h, t, |ops|);
      var k :| k < |ops| && RepeatsAt(disk, s, ops, h, t, k);
      UnguardedHasLapsed(disk, s, ops, h, t, k);
      var i :| i < k && LapsesAt(disk, s, ops, h, t, i);
      MomentOf(disk, s, ops, i, DropFailed(t));
    }
  }

  lemma InEither(a: seq<Moment>, b: seq<Moment>, m: Moment)
    ensures m in a || m in b ==> m in a + b
  {
  }

  lemma MomentOf(disk: Disk, s: State, ops: seq<Op>, i: nat, m: Moment)
    requires i < |ops| && m in Apply(disk, StateAt(disk, s, ops, i), ops[i]).1
    ensures m in Play(disk, s, ops).1
  {
    var s1 := StateAt(disk, s, ops, i);
    var rest := ops[i..];
    assert ops == ops[..i] + rest && rest[0] == ops[i];
    PlaySplit(disk, s, ops[..i], rest);
    PlayNext(disk, s1, rest);
    InEither(Apply(disk, s1, ops[i]).1, Play(disk, Apply(disk, s1, ops[i]).0, rest[1..]).1, m);
    InEither(Play(disk, s, ops[..i]).1, Play(disk, s1, rest).1, m);
  }

  lemma TickOne(s: State, t: Txid, now: nat)
    requires !s.walking
    ensures Tick(s, now, [t]).events == DueOne(s, t, now)
  {
    assert DueEvents(s, now, [t][1..]) == [];
  }

  /** It happens: a drop clears its guards before its write, so a drop that fails
      leaves a live send that stalls a second time. */
  lemma FailedDropStallsTwice(disk: Disk, t: Txid)
    requires !disk(0)
    ensures var late := PRUNING_HORIZON_MS + 1;
      var s := State(Core(map[t := NewRecord(Send, 0)], map[], OffChain([], {}), 0), {}, {}, {}, 0, false, false, map[]);
      var s1 := Tick(s, late, [t]);
      var s2 := OnSinkBlue(disk, s1.state, 0, late, [t]);
      && s1.events == [NowStalled(t, late)]
      && t in s2.state.core.records
      && Tick(s2.state, late, [t]).events == [NowStalled(t, late)]
  {
    var late := PRUNING_HORIZON_MS + 1;
    var s := State(Core(map[t := NewRecord(Send, 0)], map[], OffChain([], {}), 0), {}, {}, {}, 0, false, false, map[]);
    TickOne(s, t, late);
    var s1 := Tick(s, late, [t]).state;
    GuardAllIs(s, [NowStalled(t, late)], t);
    assert s1.core == s.core;
    assert Crossings(s1.(sinkBlue := 0), [t][1..]) == [] && Deep(s1.(sinkBlue := 0), [t][1..]) == [];
    var settled := Settled(disk, s1.(sinkBlue := 0), [t]).state;
    assert settled.core == s.core;
    assert Expired(settled, late, [t]) == [t] + Expired(settled, late, [t][1..]);
    assert DropWatch(disk, settled, t).failed;
    var s2 := OnSinkBlue(disk, s1, 0, late, [t]).state;
    assert s2 == DropWatch(disk, settled, t).state;
    TickOne(s2, t, late);
  }
}

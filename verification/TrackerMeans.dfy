/** What the tracker's operations do and say, in the terms a consumer has (`TrackerState`
    in `rust/chain/src/acceptance.rs`). */
module TrackerMeans {
  // Each result is about a status, a time or a score, not about the function that
  // computes it: what a score finalizes, drops and confirms, what a fold moves and
  // tells, which watch is evicted, and that what is told is what is then read.

  import opened Bytes
  import opened WatchLog
  import opened ChainBatch
  import opened Tracker
  import opened MessageWalk
  import opened IndexRuns
  import opened TrackerLoop
  import opened LoopRuns
  import opened GuardRuns

  // ---- what a score finalizes ----

  /** The record, final: its block, score and time carried over. */
  function AsFinal(r: Record): Record
    requires r.status.Accepted?
  {
    r.(status := Finalized(r.status.block, r.status.blue, r.status.ms))
  }

  /** Accepted at least the terminal depth below this score. */
  predicate DeepEnough(r: Record, blue: nat) {
    r.status.Accepted? && blue >= r.status.blue + TERMINAL_DEPTH_BLUE
  }

  lemma {:induction false} DeepIs(s: State, order: seq<Txid>, t: Txid)
    ensures t in Deep(s, order) <==> t in order && t in s.core.records && DeepEnough(s.core.records[t], s.sinkBlue)
    decreases |order|
  {
    if order != [] {
      DeepIs(s, order[1..], t);
    }
  }

  lemma {:induction false} FinalizesOnly(disk: Disk, c: Core, ts: seq<Txid>, t: Txid)
    ensures var c' := FinalizeAll(disk, c, ts);
      && c'.records.Keys == c.records.Keys
      && (t in c.records ==>
            || c'.records[t] == c.records[t]
            || (t in ts && c.records[t].status.Accepted? && c'.records[t] == AsFinal(c.records[t])))
    decreases |ts|
  {
    if ts != [] {
      FinalizesOnly(disk, FinalizeOne(disk, c, ts[0]).core, ts[1..], t);
    }
  }

  lemma {:induction false} FinalizesAllThatLand(disk: Disk, c: Core, ts: seq<Txid>, t: Txid)
    requires forall n :: disk(n)
    requires t in ts && t in c.records && c.records[t].status.Accepted?
    ensures var c' := FinalizeAll(disk, c, ts); t in c'.records && c'.records[t] == AsFinal(c.records[t])
    decreases |ts|
  {
    var c1 := FinalizeOne(disk, c, ts[0]).core;
    if ts[0] == t {
      FinalizesOnly(disk, c1, ts[1..], t);
    } else {
      FinalizesAllThatLand(disk, c1, ts[1..], t);
    }
  }

  /** Too old to keep: no node can tell of it any more. */
  predicate TooOld(r: Record, now: nat) {
    now > r.watched + PRUNING_HORIZON_MS
  }

  lemma {:induction false} ExpiredIs(s: State, now: nat, order: seq<Txid>, t: Txid)
    ensures t in Expired(s, now, order) <==> t in order && t in s.core.records && TooOld(s.core.records[t], now)
    decreases |order|
  {
    if order != [] {
      ExpiredIs(s, now, order[1..], t);
    }
  }

  lemma {:induction false} DropsOnly(disk: Disk, s: State, ts: seq<Txid>, t: Txid)
    ensures var s' := DropEach(disk, s, ts).state;
      t in s.core.records && t !in ts ==> t in s'.core.records && s'.core.records[t] == s.core.records[t]
    decreases |ts|
  {
    if ts != [] && !DropWatch(disk, s, ts[0]).failed {
      DropsOnly(disk, DropWatch(disk, s, ts[0]).state, ts[1..], t);
    }
  }

  lemma {:induction false} DropsAllThatLand(disk: Disk, s: State, ts: seq<Txid>, t: Txid)
    requires (forall n :: disk(n)) && t in ts
    ensures t !in DropEach(disk, s, ts).state.core.records
    decreases |ts|
  {
    var d := DropWatch(disk, s, ts[0]);
    if ts[0] == t {
      DropEachKeepsRecords(disk, d.state, ts[1..], t);
    } else {
      DropsAllThatLand(disk, d.state, ts[1..], t);
    }
  }

  /** What is left of one record by a score, as far as writes land: unchanged; final, if
      it was accepted deep enough and depth may be claimed; or dropped, if too old. */
  lemma ScoreLeaves(disk: Disk, s: State, blue: nat, now: nat, order: seq<Txid>, t: Txid)
    requires t in s.core.records
    ensures var c, c' := s.core, OnSinkBlue(disk, s, blue, now, order).state.core;
      && (t !in c'.records ==> t in order && TooOld(c.records[t], now))
      && (t in c'.records ==>
            || c'.records[t] == c.records[t]
            || (DeepEnough(c.records[t], blue) && !s.depthHeld && !s.walking && c'.records[t] == AsFinal(c.records[t])))
  {
    var s1 := s.(sinkBlue := blue);
    var settled := Settled(disk, s1, order).state;
    DeepIs(s1, order, t);
    FinalizesOnly(disk, s1.core, Deep(s1, order), t);
    ExpiredIs(settled, now, order, t);
    DropsOnly(disk, settled, Expired(settled, now, order), t);
    DropEachKeepsRecords(disk, settled, Expired(settled, now, order), t);
  }

  /** **What a score does, exactly, with its writes landing:** a watch too old is dropped;
      any other is finalized if and only if it was accepted at least 2,000 below the
      score and depth may be claimed, its block, score and time carried over; and is left
      alone otherwise. */
  lemma ScoreDoesExactly(disk: Disk, s: State, blue: nat, now: nat, order: seq<Txid>, t: Txid)
    requires (forall n :: disk(n)) && t in s.core.records && t in order
    ensures var r := s.core.records[t]; var c' := OnSinkBlue(disk, s, blue, now, order).state.core;
      && (t in c'.records <==> !TooOld(r, now))
      && (t in c'.records ==>
            c'.records[t] == if DeepEnough(r, blue) && !s.depthHeld && !s.walking then AsFinal(r) else r)
  {
    var s1 := s.(sinkBlue := blue);
    var settled := Settled(disk, s1, order).state;
    ScoreLeaves(disk, s, blue, now, order, t);
    DeepIs(s1, order, t);
    FinalizesOnly(disk, s1.core, Deep(s1, order), t);
    if ClaimsDepth(s) && DeepEnough(s.core.records[t], blue) {
      FinalizesAllThatLand(disk, s1.core, Deep(s1, order), t);
    }
    ExpiredIs(settled, now, order, t);
    if TooOld(s.core.records[t], now) {
      DropsAllThatLand(disk, settled, Expired(settled, now, order), t);
    } else {
      DropsOnly(disk, settled, Expired(settled, now, order), t);
    }
  }

  // ---- a record turns final only by a score ----

  predicate IsFinal(s: State, t: Txid) {
    t in s.core.records && s.core.records[t].status.Finalized?
  }

  /** This operation makes `t` final: a score deep enough over its acceptance, with
      nothing owed. */
  predicate MakesFinal(s: State, op: Op, t: Txid, s': State) {
    && op.SinkOp? && !s.depthHeld && !s.walking
    && t in s.core.records && DeepEnough(s.core.records[t], op.blue)
    && t in s'.core.records && s'.core.records[t] == AsFinal(s.core.records[t])
  }

  lemma OpFinalizesOnly(disk: Disk, s: State, op: Op, t: Txid)
    requires IsFinal(Apply(disk, s, op).0, t)
    ensures IsFinal(s, t) || MakesFinal(s, op, t, Apply(disk, s, op).0)
  {
    match op
    case WatchOp(u, source, now, order) => if u !in s.core.records { RegistersNew(disk, s, u, source, now, order, t); }
    case RememberedOp(u, source, now, seen, order) =>
      if u !in s.core.records {
        RegistersNew(disk, s, u, source, now, order, t);
        var made := Register(disk, s, u, source, now, order);
        if !made.failed {
          MemoryNeverFinal(disk, made.state, u, Current(made.state, seen, now), t);
        }
      }
    case RemovedOp(bs, now) => RemoveAllMoves(disk, From(s.core), bs, now, t);
    case AcceptedOp(b, f, ts) => AcceptAllMoves(disk, From(s.core), b, f, ts, t);
    case WalkOp(u, b, f) => AcceptAllMoves(disk, From(s.core), b, f, [u], t);
    case SinkOp(blue, now, order) => SinkFinalizesOnly(disk, s, blue, now, order, t);
    case TickOp(now, order) => GuardAllIs(s, DueEvents(s, now, order), t);
    case _ =>
  }

  lemma SinkFinalizesOnly(disk: Disk, s: State, blue: nat, now: nat, order: seq<Txid>, t: Txid)
    requires IsFinal(OnSinkBlue(disk, s, blue, now, order).state, t)
    ensures IsFinal(s, t) || MakesFinal(s, SinkOp(blue, now, order), t, OnSinkBlue(disk, s, blue, now, order).state)
  {
    var s1 := s.(sinkBlue := blue);
    var settled := Settled(disk, s1, order).state;
    FinalizeAllMoves(disk, s1.core, Deep(s1, order), t);
    DropEachKeepsRecords(disk, settled, Expired(settled, now, order), t);
    ScoreLeaves(disk, s, blue, now, order, t);
  }

  lemma RegistersNew(disk: Disk, s: State, u: Txid, source: Source, now: nat, order: seq<Txid>, t: Txid)
    requires u !in s.core.records
    ensures var s' := Register(disk, s, u, source, now, order).state;
      t in s'.core.records ==> if t == u then s'.core.records[t] == NewRecord(source, now)
                               else t in s.core.records && s'.core.records[t] == s.core.records[t]
  {
    RegisterAsDrops(disk, s, u, source, now, order);
    DropEachKeepsRecords(disk, s, EvictionOf(s, u, order), t);
  }

  lemma MemoryNeverFinal(disk: Disk, s: State, u: Txid, seen: Remembered, t: Txid)
    requires IsFinal(FromMemory(disk, s, u, seen).state, t)
    ensures IsFinal(s, t)
  {
    match seen
    case SeenAccepted(b, f, _) => AcceptAllMoves(disk, From(s.core), b, f, [u], t);
    case SeenDisplaced(_, _) =>
  }

  /** The i-th operation makes `t` final. */
  predicate FinalAt(disk: Disk, s: State, ops: seq<Op>, t: Txid, i: int) {
    0 <= i < |ops| && MakesFinal(StateAt(disk, s, ops, i), ops[i], t, StateAt(disk, s, ops, i + 1))
  }

  lemma {:induction false} FinalOnlyByScore(disk: Disk, s: State, ops: seq<Op>, t: Txid, n: nat)
    requires n <= |ops| && IsFinal(StateAt(disk, s, ops, n), t)
    ensures IsFinal(s, t) || exists i :: i < n && FinalAt(disk, s, ops, t, i)
    decreases n
  {
    if n > 0 {
      AtNext(disk, s, ops, NOTHING, t, n - 1);
      OpFinalizesOnly(disk, StateAt(disk, s, ops, n - 1), ops[n - 1], t);
      if IsFinal(StateAt(disk, s, ops, n - 1), t) {
        FinalOnlyByScore(disk, s, ops, t, n - 1);
      } else {
        assert FinalAt(disk, s, ops, t, n - 1);
      }
    }
  }

  /** Some operation makes `t` final. */
  ghost predicate FinalSomewhere(disk: Disk, s: State, ops: seq<Op>, t: Txid) {
    exists i :: FinalAt(disk, s, ops, t, i)
  }

  /** **A record turns final only by a score,** over every run of the loop with any
      failure: one at least 2,000 above its own, taken with the cursor not held and no
      walk on. */
  lemma RunFinalizesOnlyByScore(disk: Disk, w: World, inputs: seq<Input>, t: Txid)
    requires IsFinal(Run(disk, w, inputs).world.desk.state, t)
    ensures IsFinal(w.desk.state, t) || FinalSomewhere(disk, w.desk.state, RunOps(disk, w, inputs), t)
  {
    RunIsOps(disk, w, inputs);
    PlayFinalizesOnlyByScore(disk, w.desk.state, RunOps(disk, w, inputs), t);
  }

  lemma PlayFinalizesOnlyByScore(disk: Disk, s: State, ops: seq<Op>, t: Txid)
    requires IsFinal(Play(disk, s, ops).0, t)
    ensures IsFinal(s, t) || FinalSomewhere(disk, s, ops, t)
  {
    assert ops[..|ops|] == ops;
    FinalOnlyByScore(disk, s, ops, t, |ops|);
  }

  // ---- what a fold moves and tells ----

  lemma {:induction false} AcceptsExactly(disk: Disk, done: Folded, b: Block, f: Facts, ts: seq<Txid>, t: Txid)
    requires t !in done.moved
    ensures var out := AcceptAll(disk, done, b, f, ts);
      if t in out.moved then
        t in ts && t in done.core.records && !AcceptedBy(done.core.records, t, b)
        && out.core.records.Keys == done.core.records.Keys
        && out.core.records[t] == done.core.records[t].(status := Accepted(b, f.blue, f.ms))
      else
        out.core.records.Keys == done.core.records.Keys
        && (t in done.core.records ==> out.core.records[t] == done.core.records[t])
    decreases |ts|
  {
    if ts != [] {
      var a := AcceptOne(disk, done.core, b, f, ts[0]);
      if a.moved && ts[0] == t {
        AcceptedStays(disk, Then(done, t, a), b, f, ts[1..], t);
      } else {
        AcceptsExactly(disk, Then(done, ts[0], a), b, f, ts[1..], t);
      }
    }
  }

  lemma {:induction false} AcceptedStays(disk: Disk, done: Folded, b: Block, f: Facts, ts: seq<Txid>, t: Txid)
    requires AcceptedBy(done.core.records, t, b) && t in done.moved
    ensures var out := AcceptAll(disk, done, b, f, ts);
      t in out.moved && out.core.records.Keys == done.core.records.Keys && out.core.records[t] == done.core.records[t]
    decreases |ts|
  {
    if ts != [] {
      AcceptedStays(disk, Then(done, ts[0], AcceptOne(disk, done.core, b, f, ts[0])), b, f, ts[1..], t);
    }
  }

  /** **An acceptance tells exactly what it moved:** a txid is told accepted if and only
      if the block newly accepts its record, which then holds the block's facts; anyone
      else's record is as it was. */
  lemma AcceptanceTellsExactly(disk: Disk, s: State, b: Block, f: Facts, ts: seq<Txid>, t: Txid)
    ensures var d := OnAccepted(disk, s, b, f, ts); var c, c' := s.core, d.state.core;
      && (NowAccepted(t) in d.events <==> !AcceptedBy(c.records, t, b) && AcceptedBy(c'.records, t, b))
      && (NowAccepted(t) in d.events ==>
            t in ts && t in c.records && c'.records[t] == c.records[t].(status := Accepted(b, f.blue, f.ms)))
      && (NowAccepted(t) !in d.events && t in c.records ==> t in c'.records && c'.records[t] == c.records[t])
      && (forall e :: e in d.events ==> e.NowAccepted?)
  {
    AcceptsExactly(disk, From(s.core), b, f, ts, t);
    var moved := AcceptAll(disk, From(s.core), b, f, ts).moved;
    if t in moved {
      var i :| 0 <= i < |moved| && moved[i] == t;
      assert AcceptedEvents(moved)[i] == NowAccepted(t);
    }
  }

  /** **A removal tells exactly what it displaced:** what one of its blocks had accepted
      and is displaced from that block now. */
  lemma RemovalTellsExactly(disk: Disk, s: State, bs: seq<Block>, now: nat, t: Txid)
    requires IndexSound(s.core)
    ensures var d := OnRemoved(disk, s, bs, now); var c, c' := s.core, d.state.core;
      && (NowDisplaced(t) in d.events ==>
            t in c.records && c.records[t].status.Accepted? && c.records[t].status.block in bs
            && t in c'.records && c'.records[t] == c.records[t].(status := Displaced(now, c.records[t].status.block)))
      && (NowDisplaced(t) !in d.events && t in c.records ==> t in c'.records && c'.records[t] == c.records[t])
      && (forall e :: e in d.events ==> e.NowDisplaced?)
  {
    RemovedWereAccepted(disk, From(s.core), bs, now, t);
    var moved := RemoveAll(disk, From(s.core), bs, now).moved;
    if t in moved {
      var i :| 0 <= i < |moved| && moved[i] == t;
      assert DisplacedEvents(moved)[i] == NowDisplaced(t);
    }
  }

  // ---- who answers a failure ----

  lemma RegisteringNeverFails(disk: Disk, s: State, t: Txid, source: Source, now: nat, order: seq<Txid>)
    requires forall n :: disk(n)
    ensures !Register(disk, s, t, source, now, order).failed
  {
  }

  lemma MemoryNeverFails(disk: Disk, s: State, t: Txid, seen: Remembered)
    requires forall n :: disk(n)
    ensures !FromMemory(disk, s, t, seen).failed
  {
    match seen
    case SeenAccepted(b, f, _) => LandsMeansNoFailure(disk, From(s.core), b, f, [t]);
    case SeenDisplaced(_, _) =>
  }

  lemma RememberedNeverFails(disk: Disk, s: State, t: Txid, source: Source, now: nat, seen: Remembered, order: seq<Txid>)
    requires forall n :: disk(n)
    ensures !RegisterRemembered(disk, s, t, source, now, seen, order).failed
  {
    var made := Register(disk, s, t, source, now, order).state;
    RegisteringNeverFails(disk, s, t, source, now, order);
    MemoryNeverFails(disk, made, t, Current(made, seen, now));
  }

  lemma WalkNeverFails(disk: Disk, s: State, t: Txid, b: Block, f: Facts)
    requires forall n :: disk(n)
    ensures !WalkAccepted(disk, s, t, b, f).failed
  {
    LandsMeansNoFailure(disk, From(s.core), b, f, [t]);
  }

  lemma {:induction false} WalkAllNeverFails(disk: Disk, s: State, ts: seq<Txid>, b: Block, f: Facts)
    requires forall n :: disk(n)
    ensures !WalkAll(disk, s, ts, b, f).failed
    decreases |ts|
  {
    if ts != [] {
      WalkNeverFails(disk, s, ts[0], b, f);
      WalkAllNeverFails(disk, WalkAccepted(disk, s, ts[0], b, f).state, ts[1..], b, f);
    }
  }

  /** **Only a refused write is answered as a failure,** by every operation that answers
      for its writes. */
  lemma LandingNeverFails(disk: Disk, s: State, b: Block, f: Facts, ts: seq<Txid>, bs: seq<Block>, t: Txid, source: Source,
                          seen: Remembered, blue: nat, now: nat, order: seq<Txid>)
    requires forall n :: disk(n)
    ensures !OnAccepted(disk, s, b, f, ts).failed && !OnRemoved(disk, s, bs, now).failed
    ensures !WalkAll(disk, s, ts, b, f).failed && !OnSinkBlue(disk, s, blue, now, order).failed && !Tick(s, now, order).failed
    ensures !Register(disk, s, t, source, now, order).failed
    ensures !RegisterRemembered(disk, s, t, source, now, seen, order).failed
  {
    LandsMeansNoFailure(disk, From(s.core), b, f, ts);
    RemovesAllWhenItLands(disk, From(s.core), bs, now);
    WalkAllNeverFails(disk, s, ts, b, f);
    RegisteringNeverFails(disk, s, t, source, now, order);
    RememberedNeverFails(disk, s, t, source, now, seen, order);
  }

  // ---- who is evicted ----

  /** The oldest watch, and the first of those as old in iteration order. */
  ghost predicate IsOldest(records: Records, order: seq<Txid>, t: Txid) {
    exists i :: IsOldestAt(records, order, t, i)
  }

  predicate IsOldestAt(records: Records, order: seq<Txid>, t: Txid, i: int) {
    && 0 <= i < |order| && order[i] == t && t in records
    && (forall j :: 0 <= j < |order| && order[j] in records ==> records[t].watched <= records[order[j]].watched)
    && (forall j :: 0 <= j < i && order[j] in records ==> records[t].watched < records[order[j]].watched)
  }

  lemma {:induction false} OldestIs(records: Records, order: seq<Txid>)
    ensures var o := Oldest(records, order);
      if o.Some? then IsOldest(records, order, o.value) else forall t :: t in order ==> t !in records
    decreases |order|
  {
    if order != [] {
      var rest := order[1..];
      OldestIs(records, rest);
      var o := Oldest(records, rest);
      if Oldest(records, order) == Some(order[0]) && order[0] in records {
        assert IsOldestAt(records, order, order[0], 0) by {
          if o.Some? {
            var i :| IsOldestAt(records, rest, o.value, i);
          }
          assert forall j :: 0 < j < |order| ==> order[j] == rest[j - 1];
        }
      } else if o.Some? {
        var i :| IsOldestAt(records, rest, o.value, i);
        assert forall j :: 0 < j < |order| ==> order[j] == rest[j - 1];
        assert IsOldestAt(records, order, o.value, i + 1);
      }
    }
  }

  /** **A registration, exactly, with its writes landing:** the new watch is Submitted
      from now; below the cap no one leaves, and at the cap the oldest watch alone
      does. */
  lemma RegistersExactly(disk: Disk, s: State, t: Txid, source: Source, now: nat, order: seq<Txid>)
    requires (forall n :: disk(n)) && t !in s.core.records && forall u :: u in s.core.records ==> u in order
    ensures var d := Register(disk, s, t, source, now, order); var c, c' := s.core, d.state.core;
      && !d.failed && d.events == []
      && (|c.records| < WATCH_CAP ==> c'.records == c.records[t := Record(source, now, Submitted(now))])
      && (|c.records| >= WATCH_CAP ==>
            exists u: Txid :: IsOldest(c.records, order, u) && c'.records == (c.records - {u})[t := Record(source, now, Submitted(now))])
  {
    if |s.core.records| >= WATCH_CAP {
      OldestIs(s.core.records, order);
      var u :| u in s.core.records;
      assert u in order;
    }
  }

  /** The map's iteration order lists every record. */
  predicate ListsRecords(s: State, op: Op) {
    match op
    case WatchOp(_, _, _, order) => forall u :: u in s.core.records ==> u in order
    case RememberedOp(_, _, _, _, order) => forall u :: u in s.core.records ==> u in order
    case _ => true
  }

  lemma PutGrowsByOne(disk: Disk, c: Core, t: Txid, r: Record)
    ensures |Put(disk, c, t, r).core.records| <= |c.records| + 1
  {
  }

  lemma DropFreesOne(disk: Disk, s: State, u: Txid)
    requires u in s.core.records
    ensures var d := DropWatch(disk, s, u); |d.state.core.records| == |s.core.records| - (if d.failed then 0 else 1)
  {
    assert (s.core.records - {u}).Keys == s.core.records.Keys - {u};
    assert |s.core.records| == |s.core.records.Keys| && |s.core.records - {u}| == |(s.core.records - {u}).Keys|;
  }

  lemma RegisterKeepsCap(disk: Disk, s: State, t: Txid, source: Source, now: nat, order: seq<Txid>)
    requires |s.core.records| <= WATCH_CAP && forall u :: u in s.core.records ==> u in order
    ensures |Register(disk, s, t, source, now, order).state.core.records| <= WATCH_CAP
  {
    if |s.core.records| >= WATCH_CAP && t !in s.core.records {
      OldestIs(s.core.records, order);
      var u :| u in s.core.records;
      assert u in order;
      var oldest := Oldest(s.core.records, order).value;
      DropFreesOne(disk, s, oldest);
      PutGrowsByOne(disk, DropWatch(disk, s, oldest).state.core, t, NewRecord(source, now));
    } else {
      PutGrowsByOne(disk, s.core, t, NewRecord(source, now));
    }
  }

  lemma SameKeysSameSize(a: Records, b: Records)
    requires a.Keys == b.Keys
    ensures |a| == |b|
  {
    assert |a| == |a.Keys| && |b| == |b.Keys|;
  }

  lemma {:induction false} DropsShrink(disk: Disk, s: State, ts: seq<Txid>)
    ensures |DropEach(disk, s, ts).state.core.records| <= |s.core.records|
    decreases |ts|
  {
    if ts != [] && !DropWatch(disk, s, ts[0]).failed {
      var s1 := DropWatch(disk, s, ts[0]).state;
      assert s1.core.records.Keys <= s.core.records.Keys;
      assert |s1.core.records| == |s1.core.records.Keys| && |s.core.records| == |s.core.records.Keys|;
      FewerKeys(s1.core.records.Keys, s.core.records.Keys);
      DropsShrink(disk, s1, ts[1..]);
    }
  }

  lemma FewerKeys(a: set<Txid>, b: set<Txid>)
    requires a <= b
    ensures |a| <= |b|
  {
    assert b == a + (b - a);
  }

  lemma ApplyKeepsCap(disk: Disk, s: State, op: Op)
    requires |s.core.records| <= WATCH_CAP && ListsRecords(s, op)
    ensures |Apply(disk, s, op).0.core.records| <= WATCH_CAP
  {
    match op
    case WatchOp(u, source, now, order) => RegisterKeepsCap(disk, s, u, source, now, order);
    case RememberedOp(u, source, now, seen, order) =>
      if u !in s.core.records {
        RegisterKeepsCap(disk, s, u, source, now, order);
        var made := Register(disk, s, u, source, now, order);
        if !made.failed {
          FromMemoryKeepsKeys(disk, made.state, u, Current(made.state, seen, now));
        }
      }
    case RemovedOp(bs, now) =>
      RemoveAllMoves(disk, From(s.core), bs, now, 0);
      SameKeysSameSize(s.core.records, OnRemoved(disk, s, bs, now).state.core.records);
    case AcceptedOp(b, f, ts) =>
      AcceptAllMoves(disk, From(s.core), b, f, ts, 0);
      SameKeysSameSize(s.core.records, OnAccepted(disk, s, b, f, ts).state.core.records);
    case WalkOp(u, b, f) =>
      WalkAcceptedTouches(disk, s, u, b, f, 0);
      SameKeysSameSize(s.core.records, WalkAccepted(disk, s, u, b, f).state.core.records);
    case SinkOp(blue, now, order) => SinkKeepsCap(disk, s, blue, now, order);
    case TickOp(now, order) => GuardAllIs(s, DueEvents(s, now, order), 0);
    case _ =>
  }

  lemma FromMemoryKeepsKeys(disk: Disk, s: State, u: Txid, seen: Remembered)
    ensures |FromMemory(disk, s, u, seen).state.core.records| == |s.core.records|
  {
    match seen
    case SeenAccepted(b, f, _) =>
      AcceptAllMoves(disk, From(s.core), b, f, [u], u);
      SameKeysSameSize(s.core.records, FromMemory(disk, s, u, seen).state.core.records);
    case SeenDisplaced(_, _) =>
      SameKeysSameSize(s.core.records, FromMemory(disk, s, u, seen).state.core.records);
  }

  lemma SinkKeepsCap(disk: Disk, s: State, blue: nat, now: nat, order: seq<Txid>)
    requires |s.core.records| <= WATCH_CAP
    ensures |OnSinkBlue(disk, s, blue, now, order).state.core.records| <= WATCH_CAP
  {
    var s1 := s.(sinkBlue := blue);
    var settled := Settled(disk, s1, order).state;
    FinalizesOnly(disk, s1.core, Deep(s1, order), 0);
    SameKeysSameSize(s.core.records, settled.core.records);
    DropsShrink(disk, settled, Expired(settled, now, order));
  }

  /** The order each input brings lists every record it finds. */
  predicate OrdersList(disk: Disk, s: State, ops: seq<Op>)
    decreases |ops|
  {
    ops == [] || (ListsRecords(s, ops[0]) && OrdersList(disk, Apply(disk, s, ops[0]).0, ops[1..]))
  }

  /** **The cap holds over every run:** never more than 512 watches. */
  lemma {:induction false} CapOverRuns(disk: Disk, s: State, ops: seq<Op>)
    requires |s.core.records| <= WATCH_CAP && OrdersList(disk, s, ops)
    ensures |Play(disk, s, ops).0.core.records| <= WATCH_CAP
    decreases |ops|
  {
    if ops != [] {
      PlayNext(disk, s, ops);
      ApplyKeepsCap(disk, s, ops[0]);
      CapOverRuns(disk, Apply(disk, s, ops[0]).0, ops[1..]);
    }
  }

  // ---- what is told is what is read ----

  /** When the operation looks at the clock. */
  function ClockOf(op: Op): nat {
    match op
    case TickOp(now, _) => now
    case _ => 0
  }

  /** What a consumer told `e` then reads of its txid. */
  predicate ReadAgrees(s: State, e: Event, now: nat) {
    match Read(s, e.txid, now)
    case None => false
    case Some(v) =>
      match e
      case NowAccepted(_) => v.ReadsAccepted? || v.ReadsConfirmed?
      case NowConfirmed(_, depth) => v.ReadsConfirmed? && v.depth == depth
      case NowDisplaced(_) => v.ReadsDisplaced?
      case WindowElapsed(_) => v.ReadsDisplaced?
      case NowStalled(_, waited) => v == ReadsStalled(waited) || v.ReadsAccepted?
      case SenderResolvable(_, _) => true
  }

  lemma {:induction false} DueIs(s: State, now: nat, order: seq<Txid>, e: Event)
    requires e in DueEvents(s, now, order)
    ensures match e
      case NowStalled(t, waited) => StallDue(s, t, now) && waited == now - s.core.records[t].status.at
      case WindowElapsed(t) => ElapseDue(s, t, now)
      case _ => false
    decreases |order|
  {
    if e !in DueOne(s, order[0], now) {
      DueIs(s, now, order[1..], e);
    }
  }

  lemma {:induction false} CrossingIs(s: State, order: seq<Txid>, e: Event)
    requires e in Crossings(s, order)
    ensures e.NowConfirmed? && Crosses(s, e.txid) && e.depth == Depth(s, e.txid)
    decreases |order|
  {
    if !(Crosses(s, order[0]) && e == NowConfirmed(order[0], Depth(s, order[0]))) {
      CrossingIs(s, order[1..], e);
    }
  }

  lemma ScoreIsRead(disk: Disk, s: State, blue: nat, now: nat, order: seq<Txid>, e: Event, clock: nat)
    requires var d := OnSinkBlue(disk, s, blue, now, order); e in d.events && e.txid in d.state.core.records
    ensures ReadAgrees(OnSinkBlue(disk, s, blue, now, order).state, e, clock)
  {
    var s1 := s.(sinkBlue := blue);
    var settled := Settled(disk, s1, order).state;
    CrossingIs(s1, order, e);
    FinalizesOnly(disk, s1.core, Deep(s1, order), e.txid);
    DropEachKeepsRecords(disk, settled, Expired(settled, now, order), e.txid);
  }

  lemma AcceptanceIsRead(disk: Disk, s: State, b: Block, f: Facts, ts: seq<Txid>, e: Event, clock: nat)
    requires e in OnAccepted(disk, s, b, f, ts).events
    ensures ReadAgrees(OnAccepted(disk, s, b, f, ts).state, e, clock)
  {
    AcceptanceTellsExactly(disk, s, b, f, ts, e.txid);
  }

  lemma RemovalIsRead(disk: Disk, s: State, bs: seq<Block>, now: nat, e: Event, clock: nat)
    requires IndexSound(s.core) && e in OnRemoved(disk, s, bs, now).events
    ensures ReadAgrees(OnRemoved(disk, s, bs, now).state, e, clock)
  {
    RemovalTellsExactly(disk, s, bs, now, e.txid);
  }

  lemma TickIsRead(s: State, now: nat, order: seq<Txid>, e: Event)
    requires e in Tick(s, now, order).events
    ensures ReadAgrees(Tick(s, now, order).state, e, now)
  {
    DueIs(s, now, order, e);
    GuardAllIs(s, DueEvents(s, now, order), e.txid);
  }

  lemma WalkIsRead(disk: Disk, s: State, u: Txid, b: Block, f: Facts, e: Event, clock: nat)
    requires e in WalkAccepted(disk, s, u, b, f).events
    ensures ReadAgrees(WalkAccepted(disk, s, u, b, f).state, e, clock)
  {
    AcceptanceIsRead(disk, s, b, f, [u], e, clock);
  }

  lemma MemoryIsRead(disk: Disk, s: State, u: Txid, seen: Remembered, e: Event, clock: nat)
    requires e in FromMemory(disk, s, u, seen).events
    ensures ReadAgrees(FromMemory(disk, s, u, seen).state, e, clock)
  {
    match seen
    case SeenAccepted(b, f, _) => AcceptanceIsRead(disk, s, b, f, [u], e, clock);
    case SeenDisplaced(_, _) =>
  }

  lemma AheadIsRead(s: State, u: Txid, b: Block, f: Facts, clock: nat)
    requires u in s.core.records && !s.core.records[u].status.Displaced?
    ensures ReadAgrees(s.(ahead := s.ahead[u := Ahead(b, f)]), NowAccepted(u), clock)
  {
  }

  /** The events an operation tells are among those of its parts. */
  lemma RememberedTells(disk: Disk, s: State, op: Op, e: Event)
    requires op.RememberedOp? && Emitted(e) in Apply(disk, s, op).1
    ensures var made := Register(disk, s, op.t, op.source, op.now, op.order);
      op.t !in s.core.records && !made.failed && e in FromMemory(disk, made.state, op.t, Current(made.state, op.seen, op.now)).events
  {
    NotADrop(disk, s, EvictionOf(s, op.t, op.order), e);
    RegisterSaysNothing(disk, s, op.t, op.source, op.now, op.order);
  }

  lemma SinkTells(disk: Disk, s: State, blue: nat, now: nat, order: seq<Txid>, e: Event)
    requires Emitted(e) in Apply(disk, s, SinkOp(blue, now, order)).1
    ensures e in OnSinkBlue(disk, s, blue, now, order).events
  {
    var settled := Settled(disk, s.(sinkBlue := blue), order).state;
    NotADrop(disk, settled, Expired(settled, now, order), e);
  }

  /** **What is told is what is read.** Whoever is told something of a watch, and reads
      it next, reads just that: accepted, confirmed at the depth told, displaced, or
      stalled for the time told (or accepted after all, when the acceptance was read
      ahead of its fold). Only an acceptance read ahead of a displacement folded
      meanwhile reads displaced. */
  lemma ToldIsRead(disk: Disk, s: State, op: Op, e: Event)
    requires IndexSound(s.core) && Emitted(e) in Apply(disk, s, op).1 && e.txid in Apply(disk, s, op).0.core.records
    requires op.AheadOp? ==> !s.core.records[op.t].status.Displaced?
    ensures ReadAgrees(Apply(disk, s, op).0, e, ClockOf(op))
  {
    match op
    case WatchOp(u, source, now, order) => NotADrop(disk, s, EvictionOf(s, u, order), e);
    case RememberedOp(u, source, now, seen, order) =>
      RememberedTells(disk, s, op, e);
      var made := Register(disk, s, u, source, now, order).state;
      MemoryIsRead(disk, made, u, Current(made, seen, now), e, 0);
    case RemovedOp(bs, now) => RemovalIsRead(disk, s, bs, now, e, 0);
    case AcceptedOp(b, f, ts) => AcceptanceIsRead(disk, s, b, f, ts, e, 0);
    case WalkOp(u, b, f) => WalkIsRead(disk, s, u, b, f, e, 0);
    case AheadOp(u, b, f) => AheadIsRead(s, u, b, f, 0);
    case SinkOp(blue, now, order) =>
      SinkTells(disk, s, blue, now, order, e);
      ScoreIsRead(disk, s, blue, now, order, e, 0);
    case TickOp(now, order) => TickIsRead(s, now, order, e);
    case _ =>
  }

  lemma {:induction false} NotADrop(disk: Disk, s: State, ts: seq<Txid>, e: Event)
    ensures Emitted(e) !in DropMoments(disk, s, ts)
    decreases |ts|
  {
    if ts != [] && !DropWatch(disk, s, ts[0]).failed {
      NotADrop(disk, DropWatch(disk, s, ts[0]).state, ts[1..], e);
    }
  }

  /** **A watch reads stalled, for so long, exactly when** a tick then, with no walk on and
      the stall not told before, would tell just that, unless its acceptance is already
      read ahead. */
  lemma StallReadIsTold(s: State, t: Txid, now: nat, order: seq<Txid>, waited: nat)
    requires t in order
    ensures Read(s, t, now) == Some(ReadsStalled(waited)) <==>
      t !in s.ahead && NowStalled(t, waited) in Tick(s.(walking := false, stalled := s.stalled - {t}), now, order).events
  {
    var untold := s.(walking := false, stalled := s.stalled - {t});
    DueEventsAre(untold, now, order, t);
    assert Tick(untold, now, order).events == DueEvents(untold, now, order);
    assert StallDue(untold, t, now) && t !in s.ahead <==> Read(s, t, now).Some? && Read(s, t, now).value.ReadsStalled?;
    if NowStalled(t, waited) in DueEvents(untold, now, order) {
      DueIs(untold, now, order, NowStalled(t, waited));
    } else if Read(s, t, now) == Some(ReadsStalled(waited)) {
      var w :| NowStalled(t, w) in DueEvents(untold, now, order);
      DueIs(untold, now, order, NowStalled(t, w));
    }
  }

  /** **An acceptance reads confirmed, at such a depth, exactly when** the score now held,
      not told before, would tell just that. */
  lemma DepthReadIsTold(disk: Disk, s: State, t: Txid, now: nat, order: seq<Txid>, depth: nat)
    requires t in s.core.records && t in order && s.core.records[t].status.Accepted?
    ensures Read(s, t, now) == Some(ReadsConfirmed(depth, s.core.records[t].status.ms)) <==>
      NowConfirmed(t, depth) in OnSinkBlue(disk, s.(confirmed := s.confirmed - {t}), s.sinkBlue, now, order).events
  {
    var untold := s.(confirmed := s.confirmed - {t});
    assert untold.(sinkBlue := s.sinkBlue) == untold;
    CrossingsAre(untold, order, t, depth);
    assert OnSinkBlue(disk, untold, s.sinkBlue, now, order).events == if ClaimsDepth(s) then Crossings(untold, order) else [];
  }

  /** **Read ahead, a send reads as its fold will leave it,** depth and time included, for
      as long as the walk goes on. */
  lemma AheadReadsAsFolded(disk: Disk, s: State, t: Txid, b: Block, f: Facts, now: nat)
    requires s.walking && t in s.core.records && s.core.records[t].status.Submitted? && disk(s.core.writes)
    ensures Read(Apply(disk, s, AheadOp(t, b, f)).0, t, now) == Read(OnAccepted(disk, s, b, f, [t]).state, t, now)
  {
    AcceptanceTellsExactly(disk, s, b, f, [t], t);
    AcceptAllOne(disk, From(s.core), b, f, t);
  }

  lemma AcceptAllOne(disk: Disk, done: Folded, b: Block, f: Facts, t: Txid)
    ensures AcceptAll(disk, done, b, f, [t]) == Then(done, t, AcceptOne(disk, done.core, b, f, t))
  {
    assert [t][1..] == [];
  }
}

/** The one-shot guards, exactly (`TrackerState` in `rust/chain/src/acceptance.rs`). */
module GuardRuns {
  // `Tracker.Guarded` says that what was signalled is guarded; here, that nothing else
  // is. So a guard is cleared whenever its window starts over, and a signal that is due
  // comes. Main results: `GuardsStayExact`, `SignalsComeExactly` and, over every run of
  // the loop, `RunSignalsComeExactly`.

  import opened Bytes
  import opened WatchLog
  import opened ChainBatch
  import opened Tracker
  import opened MessageWalk
  import opened IndexRuns
  import opened TrackerLoop
  import opened LoopRuns

  /** A guard stands exactly for what was signalled of the window now open. */
  predicate GuardsExact(s: State, h: Signalled, t: Txid) {
    if t !in s.core.records then h == NOTHING && t !in s.stalled && t !in s.elapsed && t !in s.confirmed
    else
      var status := s.core.records[t].status;
      && (t in s.stalled <==> status.Submitted? && h.stalled)
      && (t in s.elapsed <==> status.Displaced? && h.elapsed)
      && (t in s.confirmed <==> h.confirmed)
  }

  lemma {:induction false} DropsKeepExact(disk: Disk, s: State, ts: seq<Txid>, h: Signalled, t: Txid)
    requires GuardsExact(s, h, t) && DropFailed(t) !in DropMoments(disk, s, ts)
    ensures var heard := HearAll(h, DropMoments(disk, s, ts), t);
      heard.Some? && GuardsExact(DropEach(disk, s, ts).state, heard.value, t)
    decreases |ts|
  {
    if ts != [] {
      var d := DropWatch(disk, s, ts[0]);
      var ms := DropMoments(disk, s, ts);
      if d.failed {
        assert ms == [DropFailed(ts[0])] && ms[1..] == [];
      } else {
        assert ms[1..] == DropMoments(disk, d.state, ts[1..]);
        DropsKeepExact(disk, d.state, ts[1..], if ts[0] == t then NOTHING else h, t);
      }
    }
  }

  lemma WatchKeepsExact(disk: Disk, s: State, u: Txid, source: Source, now: nat, order: seq<Txid>, h: Signalled, t: Txid)
    requires GuardsExact(s, h, t) && u !in s.core.records && DropFailed(t) !in DropMoments(disk, s, EvictionOf(s, u, order))
    ensures var heard := HearAll(h, DropMoments(disk, s, EvictionOf(s, u, order)), t);
      heard.Some? && GuardsExact(Register(disk, s, u, source, now, order).state, heard.value, t)
  {
    DropsKeepExact(disk, s, EvictionOf(s, u, order), h, t);
    RegisterAsDrops(disk, s, u, source, now, order);
    DropEachKeepsRecords(disk, s, EvictionOf(s, u, order), u);
  }

  lemma AcceptKeepsExact(disk: Disk, s: State, b: Block, f: Facts, ts: seq<Txid>, h: Signalled, t: Txid)
    requires GuardsExact(s, h, t)
    ensures GuardsExact(OnAccepted(disk, s, b, f, ts).state, h, t)
    ensures HearAll(h, Emissions(OnAccepted(disk, s, b, f, ts).events), t) == Some(h)
    ensures HearAll(h, Emissions([]), t) == Some(h)
  {
    AcceptAllMoves(disk, From(s.core), b, f, ts, t);
    HearQuiet(h, OnAccepted(disk, s, b, f, ts).events, t);
  }

  lemma MarkKeepsExact(disk: Disk, s: State, u: Txid, since: nat, prior: Block, h: Signalled, t: Txid)
    requires GuardsExact(s, h, t) && u in s.core.records && s.core.records[u].status.Submitted?
    requires u == t ==> h == NOTHING
    ensures var d := MarkDisplaced(disk, s, u, since, prior); var heard := HearAll(h, Emissions(d.events), t);
      heard.Some? && GuardsExact(d.state, heard.value, t)
  {
    var d := MarkDisplaced(disk, s, u, since, prior);
    if d.events != [] {
      HearOne(h, NowDisplaced(u), t);
    }
  }

  lemma SeenKeepsExact(disk: Disk, s: State, u: Txid, seen: Remembered, h: Signalled, t: Txid)
    requires GuardsExact(s, h, t) && u in s.core.records && s.core.records[u].status.Submitted?
    requires u == t ==> h == NOTHING
    ensures var d := FromMemory(disk, s, u, seen); var heard := HearAll(h, Emissions(d.events), t);
      heard.Some? && GuardsExact(d.state, heard.value, t)
  {
    match seen
    case SeenAccepted(b, f, _) => AcceptKeepsExact(disk, s, b, f, [u], h, t);
    case SeenDisplaced(since, prior) => MarkKeepsExact(disk, s, u, since, prior, h, t);
  }

  lemma {:induction false} DropsOfAbsent(disk: Disk, s: State, ts: seq<Txid>, t: Txid)
    ensures HearAll(NOTHING, DropMoments(disk, s, ts), t) == Some(NOTHING)
    decreases |ts|
  {
    if ts != [] {
      var d := DropWatch(disk, s, ts[0]);
      var ms := DropMoments(disk, s, ts);
      if d.failed {
        assert ms[1..] == [];
      } else {
        assert ms[1..] == DropMoments(disk, d.state, ts[1..]);
        DropsOfAbsent(disk, d.state, ts[1..], t);
      }
    }
  }

  lemma RememberedKeepsExact(disk: Disk, s: State, op: Op, h: Signalled, t: Txid)
    requires op.RememberedOp? && op.t !in s.core.records
    requires GuardsExact(s, h, t) && DropFailed(t) !in Apply(disk, s, op).1
    ensures var (s', ms) := Apply(disk, s, op); var heard := HearAll(h, ms, t);
      heard.Some? && GuardsExact(s', heard.value, t)
  {
    var drops := DropMoments(disk, s, EvictionOf(s, op.t, op.order));
    var d := RegisterRemembered(disk, s, op.t, op.source, op.now, op.seen, op.order);
    var made := Register(disk, s, op.t, op.source, op.now, op.order);
    assert DropFailed(t) !in drops;
    WatchKeepsExact(disk, s, op.t, op.source, op.now, op.order, h, t);
    RegisteredIsNew(disk, s, op.t, op.source, op.now, op.order);
    var h1 := HearAll(h, drops, t).value;
    if op.t == t {
      DropsOfAbsent(disk, s, EvictionOf(s, op.t, op.order), t);
    }
    HearSplit(h, drops, Emissions(d.events), t);
    if made.failed {
      assert Emissions(d.events) == [];
    } else {
      SeenKeepsExact(disk, made.state, op.t, Current(made.state, op.seen, op.now), h1, t);
    }
  }

  /** Who a removal moved was accepted before it. */
  lemma {:induction false} RemovedWereAccepted(disk: Disk, done: Folded, bs: seq<Block>, now: nat, t: Txid)
    requires IndexSound(done.core) && t !in done.moved
    ensures var out := RemoveAll(disk, done, bs, now);
      if t in out.moved then
        t in done.core.records && done.core.records[t].status.Accepted? && done.core.records[t].status.block in bs
        && t in out.core.records
        && out.core.records[t] == done.core.records[t].(status := Displaced(now, done.core.records[t].status.block))
      else t in done.core.records ==> t in out.core.records && out.core.records[t] == done.core.records[t]
    decreases |bs|
  {
    RemoveAllMoves(disk, done, bs, now, t);
    if bs != [] {
      var next := RemoveBlock(disk, done, bs[0], now);
      RemoveBlockOf(disk, done, bs[0], now, t);
      OneBlockMoves(disk, done, bs[0], now, t);
      if t in next.moved {
        StaysDisplaced(disk, next, bs[1..], now, t);
      } else {
        RemovedWereAccepted(disk, next, bs[1..], now, t);
      }
      assert forall b :: b in bs <==> b == bs[0] || b in bs[1..];
    }
  }

  lemma {:induction false} DisplacedMoves(disk: Disk, d: Displacing, b: Block, ts: seq<Txid>, now: nat, t: Txid)
    ensures var out := DisplaceAll(disk, d, b, ts, now);
      t in out.fold.moved && t !in d.fold.moved ==>
        t in ts && t in d.fold.core.records && t in out.fold.core.records
        && out.fold.core.records[t] == d.fold.core.records[t].(status := Displaced(now, b))
    decreases |ts|
  {
    if ts != [] {
      var d1 := DisplaceOne(disk, d, b, ts[0], now);
      DisplacedMoves(disk, d1, b, ts[1..], now, t);
      if t in d1.fold.core.records {
        DisplaceAgain(disk, d1, b, ts[1..], now, t);
      }
    }
  }

  /** A record displaced by this block is left as it is by the rest of the removal. */
  lemma {:induction false} DisplaceAgain(disk: Disk, d: Displacing, b: Block, ts: seq<Txid>, now: nat, t: Txid)
    requires t in d.fold.core.records
    ensures var out := DisplaceAll(disk, d, b, ts, now);
      t in out.fold.core.records
      && (out.fold.core.records[t] == d.fold.core.records[t]
          || out.fold.core.records[t] == d.fold.core.records[t].(status := Displaced(now, b)))
    decreases |ts|
  {
    if ts != [] {
      DisplaceAgain(disk, DisplaceOne(disk, d, b, ts[0], now), b, ts[1..], now, t);
    }
  }

  lemma OneBlockMoves(disk: Disk, done: Folded, b: Block, now: nat, t: Txid)
    requires IndexSound(done.core) && t !in done.moved
    ensures var out := RemoveBlock(disk, done, b, now);
      if t in out.moved then
        AcceptedBy(done.core.records, t, b) && t in out.core.records
        && out.core.records[t] == done.core.records[t].(status := Displaced(now, b))
      else t in done.core.records ==> t in out.core.records && out.core.records[t] == done.core.records[t]
  {
    var c := done.core.(offChain := Removed(done.core.offChain, b));
    if b in c.index {
      DisplacedMoves(disk, Displacing(done.(core := c), []), b, c.index[b], now, t);
      DisplaceAllMoves(disk, Displacing(done.(core := c), []), b, c.index[b], now, t);
      assert t in c.index[b] ==> Listed(done.core.index, b, t);
    }
  }

  lemma {:induction false} StaysDisplaced(disk: Disk, done: Folded, bs: seq<Block>, now: nat, t: Txid)
    requires IndexSound(done.core) && t in done.core.records && !done.core.records[t].status.Accepted?
    ensures var out := RemoveAll(disk, done, bs, now);
      t in out.core.records && out.core.records[t] == done.core.records[t]
    decreases |bs|
  {
    if bs != [] {
      RemoveBlockOf(disk, done, bs[0], now, t);
      StaysDisplaced(disk, RemoveBlock(disk, done, bs[0], now), bs[1..], now, t);
    }
  }

  lemma RemovalKeepsExact(disk: Disk, s: State, bs: seq<Block>, now: nat, h: Signalled, t: Txid)
    requires GuardsExact(s, h, t) && IndexSound(s.core)
    ensures var d := OnRemoved(disk, s, bs, now); var heard := HearAll(h, Emissions(d.events), t);
      heard.Some? && GuardsExact(d.state, heard.value, t)
  {
    RemovedWereAccepted(disk, From(s.core), bs, now, t);
    RemoveAllMoves(disk, From(s.core), bs, now, t);
    HearDisplaced(h, RemoveAll(disk, From(s.core), bs, now).moved, t);
  }

  lemma SettledKeepsExact(disk: Disk, s: State, order: seq<Txid>, h: Signalled, t: Txid)
    requires GuardsExact(s, h, t) && NoDups(order)
    ensures var d := Settled(disk, s, order); var heard := HearAll(h, Emissions(d.events), t);
      heard.Some? && GuardsExact(d.state, heard.value, t)
  {
    if ClaimsDepth(s) {
      HearCrossings(s, order, h, t);
      FinalizeAllMoves(disk, s.core, Deep(s, order), t);
      assert t in Txids(Crossings(s, order)) ==> exists e :: e in Crossings(s, order) && e.txid == t;
    } else {
      assert Emissions([]) == [];
    }
  }

  lemma SinkKeepsExact(disk: Disk, s: State, blue: nat, now: nat, order: seq<Txid>, h: Signalled, t: Txid)
    requires GuardsExact(s, h, t) && NoDups(order) && DropFailed(t) !in Apply(disk, s, SinkOp(blue, now, order)).1
    ensures var (s', ms) := Apply(disk, s, SinkOp(blue, now, order)); var heard := HearAll(h, ms, t);
      heard.Some? && GuardsExact(s', heard.value, t)
  {
    var settled := Settled(disk, s.(sinkBlue := blue), order);
    var drops := DropMoments(disk, settled.state, Expired(settled.state, now, order));
    assert DropFailed(t) !in drops;
    SettledKeepsExact(disk, s.(sinkBlue := blue), order, h, t);
    var h1 := HearAll(h, Emissions(settled.events), t).value;
    HearSplit(h, Emissions(settled.events), drops, t);
    DropsKeepExact(disk, settled.state, Expired(settled.state, now, order), h1, t);
  }

  lemma TickKeepsExact(s: State, now: nat, order: seq<Txid>, h: Signalled, t: Txid)
    requires GuardsExact(s, h, t) && NoDups(order)
    ensures var d := Tick(s, now, order); var heard := HearAll(h, Emissions(d.events), t);
      heard.Some? && GuardsExact(d.state, heard.value, t)
  {
    if s.walking {
      assert Emissions([]) == [];
    } else {
      HearDue(s, now, order, h, t);
      DueEventsAre(s, now, order, t);
      GuardAllIs(s, DueEvents(s, now, order), t);
    }
  }

  lemma ApplyKeepsExact(disk: Disk, s: State, op: Op, h: Signalled, t: Txid)
    requires GuardsExact(s, h, t) && IndexSound(s.core) && OrderIsOnce(op) && DropFailed(t) !in Apply(disk, s, op).1
    ensures var (s', ms) := Apply(disk, s, op); var heard := HearAll(h, ms, t);
      heard.Some? && GuardsExact(s', heard.value, t)
  {
    match op
    case WatchOp(u, source, now, order) =>
      if u !in s.core.records {
        WatchKeepsExact(disk, s, u, source, now, order, h, t);
      }
    case RememberedOp(u, _, _, _, _) =>
      if u !in s.core.records {
        RememberedKeepsExact(disk, s, op, h, t);
      }
    case RemovedOp(bs, now) => RemovalKeepsExact(disk, s, bs, now, h, t);
    case AddedOp(bs) =>
    case AcceptedOp(b, f, ts) => AcceptKeepsExact(disk, s, b, f, ts, h, t);
    case WalkOp(u, b, f) => AcceptKeepsExact(disk, s, b, f, [u], h, t);
    case AheadOp(u, b, f) =>
      HearOne(h, NowAccepted(u), t);
      assert Emissions([NowAccepted(u)]) == [Emitted(NowAccepted(u))];
    case SinkOp(blue, now, order) => SinkKeepsExact(disk, s, blue, now, order, h, t);
    case TickOp(now, order) => TickKeepsExact(s, now, order, h, t);
    case PrimeOp(_) =>
    case MarksOp(_, _) =>
    case ForgetAheadOp =>
  }

  /** **The guards are exact.** Over every sequence of operations with any write
      failing but a drop of `t`: while its record is Submitted, `t` is guarded against a
      stall exactly when its stall was signalled; while Displaced, against an elapse
      exactly when one was signalled since its last displacement; and against a
      confirmation exactly when one was. */
  lemma {:induction false} GuardsStayExact(disk: Disk, s: State, ops: seq<Op>, h: Signalled, t: Txid)
    requires GuardsExact(s, h, t) && IndexSound(s.core) && OrdersOnce(ops) && DropFailed(t) !in Play(disk, s, ops).1
    ensures var heard := HearAll(h, Play(disk, s, ops).1, t);
      heard.Some? && GuardsExact(Play(disk, s, ops).0, heard.value, t)
    decreases |ops|
  {
    if ops != [] {
      var (s1, first) := Apply(disk, s, ops[0]);
      var rest := Play(disk, s1, ops[1..]).1;
      PlayNext(disk, s, ops);
      KeptSplit(Some(t), first, rest);
      OrdersSplit([ops[0]], ops[1..]);
      assert ops == [ops[0]] + ops[1..];
      ApplyKeepsExact(disk, s, ops[0], h, t);
      ApplyIndexed(disk, s, ops[0], None);
      HearSplit(h, first, rest, t);
      GuardsStayExact(disk, s1, ops[1..], HearAll(h, first, t).value, t);
    }
  }

  // ---- the signals that must come ----

  /** In such a state each signal comes exactly when its time has come, with no walk on,
      and it was not signalled of this window before: earlier displacements and
      acceptances do not silence it. */
  lemma SignalsComeExactly(disk: Disk, s: State, h: Signalled, t: Txid, now: nat, order: seq<Txid>)
    requires GuardsExact(s, h, t) && t in s.core.records && t in order
    ensures var events := Tick(s, now, order).events; var r := s.core.records[t];
      && ((exists w :: NowStalled(t, w) in events) <==>
            !s.walking && r.source == Send && r.status.Submitted? && !h.stalled && now >= r.status.at + STALL_AFTER_MS)
      && (WindowElapsed(t) in events <==>
            !s.walking && r.status.Displaced? && !h.elapsed && now >= r.status.since + TOMBSTONE_WINDOW_MS)
  {
    TickSignalsExactlyTheDue(s, now, order, t);
  }

  lemma {:induction false} CrossingsAre(s: State, order: seq<Txid>, t: Txid, depth: nat)
    ensures NowConfirmed(t, depth) in Crossings(s, order) <==> t in order && Crosses(s, t) && depth == Depth(s, t)
    decreases |order|
  {
    if order != [] {
      CrossingsAre(s, order[1..], t, depth);
    }
  }

  /** The same of a score and the confirmed depth. */
  lemma ConfirmationComesExactly(disk: Disk, s: State, h: Signalled, t: Txid, blue: nat, now: nat, order: seq<Txid>, depth: nat)
    requires GuardsExact(s, h, t) && t in s.core.records && t in order
    ensures var events := OnSinkBlue(disk, s, blue, now, order).events; var status := s.core.records[t].status;
      NowConfirmed(t, depth) in events <==>
        && !s.depthHeld && !s.walking && status.Accepted? && !h.confirmed
        && blue >= status.blue + CONFIRMED_DEPTH_BLUE && depth == blue - status.blue
  {
    CrossingsAre(s.(sinkBlue := blue), order, t, depth);
  }

  /** **Signals come, over every run of the loop.** From a start with nothing signalled
      and no guard set, after any run with any failure but a drop of `t`: the next tick
      signals a stall or an elapse of `t` exactly when no walk is on, its time has come
      and the run has not signalled it of this window. */
  lemma RunSignalsComeExactly(disk: Disk, w: World, inputs: seq<Input>, h: Signalled, t: Txid, now: nat, order: seq<Txid>)
    requires GuardsExact(w.desk.state, h, t) && IndexSound(w.desk.state.core)
    requires (forall i :: 0 <= i < |inputs| ==> OrderOnce(inputs[i])) && DropFailed(t) !in RunMoments(disk, w, inputs)
    ensures var s := Run(disk, w, inputs).world.desk.state; var heard := HearAll(h, RunMoments(disk, w, inputs), t);
      && heard.Some? && GuardsExact(s, heard.value, t)
      && (t in s.core.records && t in order ==>
            var events := Tick(s, now, order).events; var r := s.core.records[t];
            && ((exists wait :: NowStalled(t, wait) in events) <==>
                  !s.walking && r.source == Send && r.status.Submitted? && !heard.value.stalled
                  && now >= r.status.at + STALL_AFTER_MS)
            && (WindowElapsed(t) in events <==>
                  !s.walking && r.status.Displaced? && !heard.value.elapsed && now >= r.status.since + TOMBSTONE_WINDOW_MS))
  {
    var s := Run(disk, w, inputs).world.desk.state;
    RunIsOps(disk, w, inputs);
    RunOrders(disk, w, inputs);
    GuardsStayExact(disk, w.desk.state, RunOps(disk, w, inputs), h, t);
    if t in s.core.records && t in order {
      SignalsComeExactly(disk, s, HearAll(h, RunMoments(disk, w, inputs), t).value, t, now, order);
    }
  }
}

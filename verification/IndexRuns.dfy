/** The accepting-block index over whole runs: sound in every reachable state, and
    listing each accepted txid as long as no drop of that txid failed. */
module IndexRuns {
  import opened Bytes
  import opened WatchLog
  import opened Tracker
  import opened MessageWalk

  // ---- building the index at load ----

  /** The load lists each accepted record under its block, in iteration order. */
  function LoadOne(records: Records, index: Index, t: Txid): Index {
    if t in records && records[t].status.Accepted? then Enlist(index, records[t].status.block, t) else index
  }

  function LoadIndex(records: Records, index: Index, order: seq<Txid>): Index
    decreases |order|
  {
    if order == [] then index else LoadIndex(records, LoadOne(records, index, order[0]), order[1..])
  }

  ghost predicate LoadedSoFar(records: Records, index: Index, seen: seq<Txid>) {
    TidyIndex(index) && forall b, t :: Listed(index, b, t) <==> t in seen && AcceptedBy(records, t, b)
  }

  lemma {:induction false} LoadIndexLists(records: Records, index: Index, seen: seq<Txid>, order: seq<Txid>)
    requires NoDups(seen + order) && LoadedSoFar(records, index, seen)
    ensures LoadedSoFar(records, LoadIndex(records, index, order), seen + order)
    decreases |order|
  {
    if order == [] {
      assert seen + order == seen;
    } else {
      var t := order[0];
      assert (seen + order)[|seen|] == t;
      assert forall i :: 0 <= i < |seen| ==> (seen + order)[i] == seen[i];
      assert t !in seen;
      assert seen + [t] + order[1..] == seen + order;
      assert forall u :: u in seen + [t] <==> u in seen || u == t;
      var next := LoadOne(records, index, t);
      forall b, u
        ensures Listed(next, b, u) <==> u in seen + [t] && AcceptedBy(records, u, b)
      {
        assert Listed(index, b, u) <==> u in seen && AcceptedBy(records, u, b);
      }
      forall b | b in next
        ensures next[b] != [] && NoDups(next[b])
      {
        assert !Listed(index, b, t);
      }
      LoadIndexLists(records, LoadOne(records, index, t), seen + [t], order[1..]);
    }
  }

  /** A load's index is exact, whatever order the records come in. */
  lemma LoadedIndexExact(records: Records, order: seq<Txid>, offChain: OffChain, writes: nat)
    requires NoDups(order) && forall t :: t in order <==> t in records
    ensures IndexExact(Core(records, LoadIndex(records, map[], order), offChain, writes))
  {
    assert [] + order == order;
    LoadIndexLists(records, map[], [], order);
  }

  // ---- sound for all, complete for one ----

  /** What the index lists is right; and it lists `v`, if anyone is asked about. */
  ghost predicate Indexed(c: Core, v: Option<Txid>) {
    IndexSound(c) && (v.Some? ==> Lists(c, v.value))
  }

  /** An exact index is one that is sound and lists each txid. */
  lemma ExactIsIndexed(c: Core)
    ensures IndexExact(c) <==> IndexSound(c) && forall t :: Lists(c, t)
  {
    if IndexSound(c) && forall t :: Lists(c, t) {
      forall b, t | AcceptedBy(c.records, t, b)
        ensures Listed(c.index, b, t)
      {
        assert Lists(c, t);
      }
    }
  }

  lemma ReindexIndexed(c: Core, c': Core, t: Txid, from: Option<Block>, v: Option<Txid>)
    requires Indexed(c, v)
    requires t in c.records && t in c'.records
    requires forall u :: u != t ==> (u in c'.records <==> u in c.records)
                                    && (u in c.records ==> c'.records[u] == c.records[u])
    requires from == if c.records[t].status.Accepted? then Some(c.records[t].status.block) else None
    requires var left := if from.Some? then Unlist(c.index, from.value, t) else c.index;
      c'.index == if c'.records[t].status.Accepted? then Enlist(left, c'.records[t].status.block, t) else left
    ensures Indexed(c', v)
  {
    var left := if from.Some? then Unlist(c.index, from.value, t) else c.index;
    forall b
      ensures !Listed(left, b, t)
    {
      assert Listed(c.index, b, t) ==> AcceptedBy(c.records, t, b);
    }
    forall b, u | u != t
      ensures Listed(c'.index, b, u) <==> Listed(c.index, b, u)
      ensures AcceptedBy(c'.records, u, b) <==> AcceptedBy(c.records, u, b)
    {
    }
    forall b
      ensures Listed(c'.index, b, t) <==> AcceptedBy(c'.records, t, b)
    {
      assert !Listed(left, b, t);
    }
    forall b | b in c'.index
      ensures c'.index[b] != [] && NoDups(c'.index[b])
    {
      assert b in left ==> !Listed(left, b, t);
    }
  }

  lemma AcceptOneIndexed(disk: Disk, c: Core, b: Block, f: Facts, t: Txid, v: Option<Txid>)
    requires Indexed(c, v)
    ensures Indexed(AcceptOne(disk, c, b, f, t).core, v)
  {
    var a := AcceptOne(disk, c, b, f, t);
    if a.moved {
      var s := c.records[t].status;
      ReindexIndexed(c, a.core, t, if s.Accepted? then Some(s.block) else None, v);
    }
  }

  lemma {:induction false} AcceptAllIndexed(disk: Disk, done: Folded, b: Block, f: Facts, ts: seq<Txid>, v: Option<Txid>)
    requires Indexed(done.core, v)
    ensures Indexed(AcceptAll(disk, done, b, f, ts).core, v)
    decreases |ts|
  {
    if ts != [] {
      AcceptOneIndexed(disk, done.core, b, f, ts[0], v);
      AcceptAllIndexed(disk, Then(done, ts[0], AcceptOne(disk, done.core, b, f, ts[0])), b, f, ts[1..], v);
    }
  }

  lemma {:induction false} RemoveAllIndexed(disk: Disk, done: Folded, bs: seq<Block>, now: nat, v: Option<Txid>)
    requires Indexed(done.core, v)
    ensures Indexed(RemoveAll(disk, done, bs, now).core, v)
    decreases |bs|
  {
    if bs != [] {
      RemoveBlockOf(disk, done, bs[0], now, if v.Some? then v.value else 0);
      RemoveAllIndexed(disk, RemoveBlock(disk, done, bs[0], now), bs[1..], now, v);
    }
  }

  lemma {:induction false} FinalizeAllIndexed(disk: Disk, c: Core, ts: seq<Txid>, v: Option<Txid>)
    requires Indexed(c, v)
    ensures Indexed(FinalizeAll(disk, c, ts), v)
    decreases |ts|
  {
    if ts != [] {
      var w := FinalizeOne(disk, c, ts[0]);
      if ts[0] in c.records && c.records[ts[0]].status.Accepted? && w.ok {
        ReindexIndexed(c, w.core, ts[0], Some(c.records[ts[0]].status.block), v);
      }
      FinalizeAllIndexed(disk, w.core, ts[1..], v);
    }
  }

  /** A drop keeps the index sound, and complete for all but the txid it fails to
      drop. */
  lemma DropIndexed(disk: Disk, c: Core, t: Txid, v: Option<Txid>)
    requires Indexed(c, v) && (DropCore(disk, c, t).ok || v != Some(t))
    ensures Indexed(DropCore(disk, c, t).core, v)
  {
    var c' := DropCore(disk, c, t).core;
    forall b, u | Listed(c'.index, b, u)
      ensures AcceptedBy(c'.records, u, b)
    {
      assert Listed(c.index, b, u);
      assert AcceptedBy(c.records, u, b);
    }
    forall b | v.Some? && AcceptedBy(c'.records, v.value, b)
      ensures Listed(c'.index, b, v.value)
    {
      assert Listed(c.index, b, v.value);
    }
  }

  /** No drop of the txid asked about failed. */
  predicate KeptDrops(v: Option<Txid>, ms: seq<Moment>) {
    v.Some? ==> DropFailed(v.value) !in ms
  }

  lemma KeptSplit(v: Option<Txid>, a: seq<Moment>, b: seq<Moment>)
    ensures KeptDrops(v, a + b) <==> KeptDrops(v, a) && KeptDrops(v, b)
  {
    assert forall m :: m in a + b <==> m in a || m in b;
  }

  lemma {:induction false} DropEachIndexed(disk: Disk, s: State, ts: seq<Txid>, v: Option<Txid>)
    requires Indexed(s.core, v) && KeptDrops(v, DropMoments(disk, s, ts))
    ensures Indexed(DropEach(disk, s, ts).state.core, v)
    decreases |ts|
  {
    if ts != [] {
      var d := DropWatch(disk, s, ts[0]);
      if d.failed {
        assert DropFailed(ts[0]) in DropMoments(disk, s, ts);
      } else {
        KeptSplit(v, [Gone(ts[0])], DropMoments(disk, d.state, ts[1..]));
      }
      DropIndexed(disk, s.core, ts[0], v);
      if !d.failed {
        DropEachIndexed(disk, d.state, ts[1..], v);
      }
    }
  }

  /** A record put in without an acceptance, where there was none, keeps the index. */
  lemma PutUnaccepted(disk: Disk, c: Core, t: Txid, r: Record, v: Option<Txid>)
    requires Indexed(c, v) && !r.status.Accepted? && (t in c.records ==> !c.records[t].status.Accepted?)
    ensures Indexed(Put(disk, c, t, r).core, v)
  {
    var c' := Put(disk, c, t, r).core;
    forall b, u
      ensures AcceptedBy(c'.records, u, b) <==> AcceptedBy(c.records, u, b)
    {
    }
  }

  lemma RegisterIndexed(disk: Disk, s: State, t: Txid, source: Source, now: nat, order: seq<Txid>, v: Option<Txid>)
    requires Indexed(s.core, v) && t !in s.core.records
    requires KeptDrops(v, DropMoments(disk, s, EvictionOf(s, t, order)))
    ensures Indexed(Register(disk, s, t, source, now, order).state.core, v)
  {
    var evicted := DropEach(disk, s, EvictionOf(s, t, order));
    DropEachIndexed(disk, s, EvictionOf(s, t, order), v);
    RegisterAsDrops(disk, s, t, source, now, order);
    DropEachKeepsRecords(disk, s, EvictionOf(s, t, order), t);
    if !evicted.failed {
      PutUnaccepted(disk, evicted.state.core, t, NewRecord(source, now), v);
    }
  }

  lemma RememberedIndexed(disk: Disk, s: State, op: Op, v: Option<Txid>)
    requires op.RememberedOp? && op.t !in s.core.records
    requires Indexed(s.core, v) && KeptDrops(v, Apply(disk, s, op).1)
    ensures Indexed(Apply(disk, s, op).0.core, v)
  {
    var drops := DropMoments(disk, s, EvictionOf(s, op.t, op.order));
    KeptSplit(v, drops, Emissions(RegisterRemembered(disk, s, op.t, op.source, op.now, op.seen, op.order).events));
    RegisterIndexed(disk, s, op.t, op.source, op.now, op.order, v);
    RegisteredIsNew(disk, s, op.t, op.source, op.now, op.order);
    var made := Register(disk, s, op.t, op.source, op.now, op.order);
    if !made.failed {
      match Current(made.state, op.seen, op.now)
      case SeenAccepted(b, f, _) => AcceptAllIndexed(disk, From(made.state.core), b, f, [op.t], v);
      case SeenDisplaced(since, prior) =>
        PutUnaccepted(disk, made.state.core, op.t,
          made.state.core.records[op.t].(status := Displaced(since, prior)), v);
    }
  }

  lemma WalkAcceptedIndexed(disk: Disk, s: State, t: Txid, b: Block, f: Facts, v: Option<Txid>)
    requires Indexed(s.core, v)
    ensures Indexed(WalkAccepted(disk, s, t, b, f).state.core, v)
  {
    if t in s.core.records {
      var r := s.core.records[t];
      if r.status.Accepted? && r.status.ms == 0 && r.status.block == b && f.ms != 0 {
        var c' := Put(disk, s.core, t, r.(status := Accepted(b, f.blue, f.ms))).core;
        forall c, u
          ensures AcceptedBy(c'.records, u, c) <==> AcceptedBy(s.core.records, u, c)
        {
        }
      } else {
        AcceptAllIndexed(disk, From(s.core), b, f, [t], v);
      }
    }
  }

  lemma SinkIndexed(disk: Disk, s: State, blue: nat, now: nat, order: seq<Txid>, v: Option<Txid>)
    requires Indexed(s.core, v) && KeptDrops(v, Apply(disk, s, SinkOp(blue, now, order)).1)
    ensures Indexed(OnSinkBlue(disk, s, blue, now, order).state.core, v)
  {
    var s1 := s.(sinkBlue := blue);
    var settled := Settled(disk, s1, order);
    KeptSplit(v, Emissions(settled.events), DropMoments(disk, settled.state, Expired(settled.state, now, order)));
    FinalizeAllIndexed(disk, s.core, Deep(s1, order), v);
    DropEachIndexed(disk, settled.state, Expired(settled.state, now, order), v);
  }

  lemma ApplyIndexed(disk: Disk, s: State, op: Op, v: Option<Txid>)
    requires Indexed(s.core, v) && KeptDrops(v, Apply(disk, s, op).1)
    ensures Indexed(Apply(disk, s, op).0.core, v)
  {
    match op
    case WatchOp(t, source, now, order) =>
      if t !in s.core.records {
        RegisterIndexed(disk, s, t, source, now, order, v);
      }
    case RememberedOp(t, _, _, _, _) =>
      if t !in s.core.records {
        RememberedIndexed(disk, s, op, v);
      }
    case RemovedOp(bs, now) => RemoveAllIndexed(disk, From(s.core), bs, now, v);
    case AddedOp(bs) =>
    case AcceptedOp(b, f, ts) => AcceptAllIndexed(disk, From(s.core), b, f, ts, v);
    case WalkOp(t, b, f) => WalkAcceptedIndexed(disk, s, t, b, f, v);
    case AheadOp(_, _, _) =>
    case SinkOp(blue, now, order) => SinkIndexed(disk, s, blue, now, order, v);
    case TickOp(now, order) =>
      GuardAllIs(s, DueEvents(s, now, order), 0);
    case PrimeOp(_) =>
    case MarksOp(_, _) =>
    case ForgetAheadOp =>
  }

  /** **The index over every run.** After any sequence of operations with any writes
      failing: what the index lists is accepted by the block it is listed under, once
      and in no empty list; and a txid it listed while accepted it lists whenever
      accepted, unless a drop of that very txid failed. */
  lemma {:induction false} IndexOverRuns(disk: Disk, s: State, ops: seq<Op>, v: Option<Txid>)
    requires Indexed(s.core, v) && KeptDrops(v, Play(disk, s, ops).1)
    ensures Indexed(Play(disk, s, ops).0.core, v)
    decreases |ops|
  {
    if ops != [] {
      var s1 := Apply(disk, s, ops[0]).0;
      PlayNext(disk, s, ops);
      KeptSplit(v, Apply(disk, s, ops[0]).1, Play(disk, s1, ops[1..]).1);
      ApplyIndexed(disk, s, ops[0], v);
      IndexOverRuns(disk, s1, ops[1..], v);
    }
  }

  lemma {:induction false} RemoveAllKeepsOffChain(disk: Disk, done: Folded, bs: seq<Block>, now: nat)
    requires OffChainValid(done.core.offChain)
    ensures OffChainValid(RemoveAll(disk, done, bs, now).core.offChain)
    decreases |bs|
  {
    if bs != [] {
      RemovedValid(done.core.offChain, bs[0]);
      var c := done.core.(offChain := Removed(done.core.offChain, bs[0]));
      if bs[0] in c.index {
        DisplaceAllKeepsOffChain(disk, Displacing(done.(core := c), []), bs[0], c.index[bs[0]], now);
      }
      RemoveAllKeepsOffChain(disk, RemoveBlock(disk, done, bs[0], now), bs[1..], now);
    }
  }

  lemma {:induction false} DisplaceAllKeepsOffChain(disk: Disk, d: Displacing, b: Block, ts: seq<Txid>, now: nat)
    ensures DisplaceAll(disk, d, b, ts, now).fold.core.offChain == d.fold.core.offChain
    decreases |ts|
  {
    if ts != [] {
      DisplaceAllKeepsOffChain(disk, DisplaceOne(disk, d, b, ts[0], now), b, ts[1..], now);
    }
  }

  lemma RegisterKeepsOffChain(disk: Disk, s: State, t: Txid, source: Source, now: nat, order: seq<Txid>)
    ensures Register(disk, s, t, source, now, order).state.core.offChain == s.core.offChain
  {
  }

  lemma RememberedKeepsOffChain(disk: Disk, s: State, t: Txid, source: Source, now: nat, seen: Remembered, order: seq<Txid>)
    ensures RegisterRemembered(disk, s, t, source, now, seen, order).state.core.offChain == s.core.offChain
  {
    RegisterKeepsOffChain(disk, s, t, source, now, order);
    var made := Register(disk, s, t, source, now, order).state;
    if seen.SeenAccepted? {
      AcceptAllMoves(disk, From(made.core), seen.block, seen.facts, [t], t);
    }
  }

  lemma WalkKeepsOffChain(disk: Disk, s: State, t: Txid, b: Block, f: Facts)
    ensures WalkAccepted(disk, s, t, b, f).state.core.offChain == s.core.offChain
  {
    AcceptAllMoves(disk, From(s.core), b, f, [t], t);
  }

  lemma SinkKeepsOffChain(disk: Disk, s: State, blue: nat, now: nat, order: seq<Txid>)
    ensures OnSinkBlue(disk, s, blue, now, order).state.core.offChain == s.core.offChain
  {
    var s1 := s.(sinkBlue := blue);
    var settled := Settled(disk, s1, order).state;
    FinalizeAllMoves(disk, s.core, Deep(s1, order), 0);
    DropEachKeepsRecords(disk, settled, Expired(settled, now, order), 0);
  }

  lemma ApplyKeepsOffChain(disk: Disk, s: State, op: Op)
    requires OffChainValid(s.core.offChain)
    ensures OffChainValid(Apply(disk, s, op).0.core.offChain)
  {
    match op
    case WatchOp(t, source, now, order) => RegisterKeepsOffChain(disk, s, t, source, now, order);
    case RememberedOp(t, source, now, seen, order) => RememberedKeepsOffChain(disk, s, t, source, now, seen, order);
    case RemovedOp(bs, now) => RemoveAllKeepsOffChain(disk, From(s.core), bs, now);
    case AddedOp(bs) => AddedAllValid(s.core.offChain, bs);
    case AcceptedOp(b, f, ts) => AcceptAllMoves(disk, From(s.core), b, f, ts, 0);
    case WalkOp(t, b, f) => WalkKeepsOffChain(disk, s, t, b, f);
    case AheadOp(_, _, _) =>
    case SinkOp(blue, now, order) => SinkKeepsOffChain(disk, s, blue, now, order);
    case TickOp(now, order) => GuardAllIs(s, DueEvents(s, now, order), 0);
    case PrimeOp(_) =>
    case MarksOp(_, _) =>
    case ForgetAheadOp =>
  }

  /** The off-chain queue and set agree and stay within capacity over every run. */
  lemma {:induction false} OffChainOverRuns(disk: Disk, s: State, ops: seq<Op>)
    requires OffChainValid(s.core.offChain)
    ensures OffChainValid(Play(disk, s, ops).0.core.offChain)
    decreases |ops|
  {
    if ops != [] {
      ApplyKeepsOffChain(disk, s, ops[0]);
      OffChainOverRuns(disk, Apply(disk, s, ops[0]).0, ops[1..]);
    }
  }
}

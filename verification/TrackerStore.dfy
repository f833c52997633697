/** The fold state in place (`TrackerState` in `rust/chain/src/acceptance.rs`):
    one object whose methods loop over txids and blocks, each write landing or
    not, proved equal to the functions of `Tracker`. */
module TrackerStore {
  import opened Bytes
  import opened WatchLog
  import opened Tracker
  import opened IndexRuns

  lemma MembersMore(ts: seq<Txid>, t: Txid)
    ensures Members(ts + [t]) == Members(ts) + {t}
    ensures AcceptedEvents(ts + [t]) == AcceptedEvents(ts) + [NowAccepted(t)]
    ensures DisplacedEvents(ts + [t]) == DisplacedEvents(ts) + [NowDisplaced(t)]
  {
    assert forall u :: u in ts + [t] <==> u in ts || u == t;
  }

  /** One txid's acceptance, as the whole state sees it. */
  function Stepped(s: State, a: Acted, t: Txid): State {
    if a.moved then s.(core := a.core, ahead := s.ahead - {t}, stalled := s.stalled - {t}, elapsed := s.elapsed - {t})
    else s.(core := a.core)
  }

  lemma AcceptingOneMore(s: State, done: Folded, a: Acted, t: Txid)
    ensures AfterAccepting(s, Then(done, t, a)) == Stepped(AfterAccepting(s, done), a, t)
    ensures AcceptedEvents(Then(done, t, a).moved) == AcceptedEvents(done.moved) + (if a.moved then [NowAccepted(t)] else [])
  {
    MembersMore(done.moved, t);
  }

  lemma AcceptAllOneMore(disk: Disk, done: Folded, b: Block, f: Facts, ts: seq<Txid>, i: nat)
    requires i < |ts|
    ensures AcceptAll(disk, done, b, f, ts[i..])
         == AcceptAll(disk, Then(done, ts[i], AcceptOne(disk, done.core, b, f, ts[i])), b, f, ts[i + 1..])
  {
    assert ts[i..][1..] == ts[i + 1..];
  }

  /** The first of two candidates unless the second registered earlier. */
  function Elder(records: Records, a: Option<Txid>, b: Option<Txid>): Option<Txid> {
    if a.None? || a.value !in records then b
    else if b.Some? && b.value in records && records[b.value].watched < records[a.value].watched then b
    else a
  }

  class TrackerState {
    const disk: Disk
    var records: Records
    var index: Index
    var offChain: OffChain
    var writes: nat
    var stalled: set<Txid>
    var elapsed: set<Txid>
    var confirmed: set<Txid>
    var sinkBlue: nat
    var depthHeld: bool
    var walking: bool
    var ahead: map<Txid, Ahead>

    /** The object's state as the functions speak of it. */
    ghost function Now(): State
      reads this
    {
      State(Core(records, index, offChain, writes), stalled, elapsed, confirmed, sinkBlue, depthHeld, walking, ahead)
    }

    /** Load: the index is rebuilt from the log's records, in iteration order. */
    constructor (disk: Disk, records: Records, order: seq<Txid>)
      requires NoDups(order) && forall t :: t in order <==> t in records
      ensures this.disk == disk && Now().core.records == records
      ensures IndexExact(Now().core) && OffChainValid(Now().core.offChain)
      ensures Now() == State(Now().core, {}, {}, {}, 0, false, false, map[])
    {
      this.disk := disk;
      this.records := records;
      this.offChain := OffChain([], {});
      this.writes := 0;
      this.stalled, this.elapsed, this.confirmed := {}, {}, {};
      this.sinkBlue, this.depthHeld, this.walking, this.ahead := 0, false, false, map[];
      this.index := map[];
      new;
      var i := 0;
      while i < |order|
        invariant i <= |order|
        invariant LoadIndex(records, index, order[i..]) == LoadIndex(records, map[], order)
        invariant Now() == State(Core(records, index, OffChain([], {}), 0), {}, {}, {}, 0, false, false, map[])
      {
        var t := order[i];
        assert order[i..][1..] == order[i + 1..];
        if t in records && records[t].status.Accepted? {
          var b := records[t].status.block;
          index := index[b := (if b in index then index[b] else []) + [t]];
        }
        i := i + 1;
      }
      LoadedIndexExact(records, order, OffChain([], {}), 0);
    }

    method Upsert(t: Txid, r: Record) returns (ok: bool)
      modifies this`records, this`writes
      ensures var w := Put(disk, old(Now()).core, t, r);
        Now() == old(Now()).(core := w.core) && ok == w.ok
    {
      if t in records && records[t] == r {
        return true;
      }
      ok := disk(writes);
      writes := writes + 1;
      if ok {
        records := records[t := r];
      }
    }

    method Remove(t: Txid) returns (ok: bool)
      modifies this`records, this`writes
      ensures var w := Delete(disk, old(Now()).core, t);
        Now() == old(Now()).(core := w.core) && ok == w.ok
    {
      if t !in records {
        return true;
      }
      ok := disk(writes);
      writes := writes + 1;
      if ok {
        records := records - {t};
      }
    }

    method LeaveIndex(b: Block, t: Txid)
      modifies this`index
      ensures Now() == old(Now()).(core := old(Now()).core.(index := Unlist(old(index), b, t)))
    {
      if b in index {
        var left := Without(index[b], t);
        index := if left == [] then index - {b} else index[b := left];
      }
    }

    /** One txid of an accepting block's list: the write first, then the index and
        the guards. */
    method AcceptWatched(b: Block, f: Facts, t: Txid) returns (moved: bool, failed: bool)
      modifies this
      ensures var a := AcceptOne(disk, old(Now()).core, b, f, t);
        moved == a.moved && failed == a.failed && Now() == Stepped(old(Now()), a, t)
    {
      if t !in records || (records[t].status.Accepted? && records[t].status.block == b) {
        return false, false;
      }
      var r := records[t];
      moved := Upsert(t, r.(status := Accepted(b, f.blue, f.ms)));
      failed := !moved;
      if moved {
        ahead := ahead - {t};
        if r.status.Accepted? {
          LeaveIndex(r.status.block, t);
        }
        index := index[b := (if b in index then index[b] else []) + [t]];
        stalled := stalled - {t};
        elapsed := elapsed - {t};
      }
    }

    method OnAccepted(b: Block, f: Facts, ts: seq<Txid>) returns (events: seq<Event>, failed: bool)
      modifies this
      ensures Tracker.OnAccepted(disk, old(Now()), b, f, ts) == Did(Now(), events, failed)
    {
      ghost var s := Now();
      ghost var done := From(s.core);
      events, failed := [], false;
      var i := 0;
      while i < |ts|
        invariant i <= |ts|
        invariant Now() == AfterAccepting(s, done) && events == AcceptedEvents(done.moved) && failed == done.failed
        invariant AcceptAll(disk, done, b, f, ts[i..]) == AcceptAll(disk, From(s.core), b, f, ts)
      {
        ghost var a := AcceptOne(disk, done.core, b, f, ts[i]);
        AcceptingOneMore(s, done, a, ts[i]);
        AcceptAllOneMore(disk, done, b, f, ts, i);
        var moved, refused := AcceptWatched(b, f, ts[i]);
        done := Then(done, ts[i], a);
        failed := failed || refused;
        if moved {
          events := events + [NowAccepted(ts[i])];
        }
        i := i + 1;
      }
    }

    /** One removed block's own list. */
    method DisplaceListed(b: Block, ts: seq<Txid>, now: nat, ghost s: State, ghost from: Folded, events0: seq<Event>, failed0: bool)
      returns (kept: seq<Txid>, events: seq<Event>, failed: bool)
      requires Now() == AfterRemoving(s, from) && events0 == DisplacedEvents(from.moved) && failed0 == from.failed
      modifies this
      ensures var d := DisplaceAll(disk, Displacing(from, []), b, ts, now);
        Now() == AfterRemoving(s, d.fold) && kept == d.kept && events == DisplacedEvents(d.fold.moved) && failed == d.fold.failed
    {
      ghost var d := Displacing(from, []);
      kept, events, failed := [], events0, failed0;
      var k := 0;
      while k < |ts|
        invariant k <= |ts|
        invariant Now() == AfterRemoving(s, d.fold) && kept == d.kept
        invariant events == DisplacedEvents(d.fold.moved) && failed == d.fold.failed
        invariant DisplaceAll(disk, d, b, ts[k..], now) == DisplaceAll(disk, Displacing(from, []), b, ts, now)
      {
        var t := ts[k];
        assert ts[k..][0] == t && ts[k..][1..] == ts[k + 1..];
        ghost var next := DisplaceOne(disk, d, b, t, now);
        MembersMore(d.fold.moved, t);
        k := k + 1;
        if t in records {
          var ok := Upsert(t, records[t].(status := Displaced(now, b)));
          if !ok {
            failed := true;
            kept := kept + [t];
          } else {
            confirmed := confirmed - {t};
            events := events + [NowDisplaced(t)];
          }
        }
        d := next;
      }
    }

    method OnRemoved(bs: seq<Block>, now: nat) returns (events: seq<Event>, failed: bool)
      modifies this
      ensures Tracker.OnRemoved(disk, old(Now()), bs, now) == Did(Now(), events, failed)
    {
      ghost var s := Now();
      ghost var done := From(s.core);
      events, failed := [], false;
      var i := 0;
      while i < |bs|
        invariant i <= |bs|
        invariant Now() == AfterRemoving(s, done) && events == DisplacedEvents(done.moved) && failed == done.failed
        invariant RemoveAll(disk, done, bs[i..], now) == RemoveAll(disk, From(s.core), bs, now)
      {
        var b := bs[i];
        assert bs[i..][0] == b && bs[i..][1..] == bs[i + 1..];
        ghost var c := done.core.(offChain := Removed(done.core.offChain, b));
        ghost var next := RemoveBlock(disk, done, b, now);
        offChain := Removed(offChain, b);
        if b in index {
          var kept;
          kept, events, failed := DisplaceListed(b, index[b], now, s, done.(core := c), events, failed);
          index := if kept == [] then index - {b} else index[b := kept];
        }
        done := next;
        i := i + 1;
      }
    }

    method NoteAdded(bs: seq<Block>)
      modifies this`offChain
      ensures Now() == Tracker.NoteAdded(old(Now()), bs)
    {
      var i := 0;
      while i < |bs|
        invariant i <= |bs|
        invariant AddedAll(offChain, bs[i..]) == AddedAll(old(offChain), bs)
      {
        assert bs[i..][0] == bs[i] && bs[i..][1..] == bs[i + 1..];
        offChain := Added(offChain, bs[i]);
        i := i + 1;
      }
    }

    method DropWatch(t: Txid) returns (ok: bool)
      modifies this
      ensures Tracker.DropWatch(disk, old(Now()), t) == Did(Now(), [], !ok)
    {
      if t in records && records[t].status.Accepted? {
        LeaveIndex(records[t].status.block, t);
      }
      stalled := stalled - {t};
      elapsed := elapsed - {t};
      confirmed := confirmed - {t};
      ok := Remove(t);
    }

    /** `min_by_key`: the first of the least, in iteration order. */
    method FindOldest(order: seq<Txid>) returns (oldest: Option<Txid>)
      ensures oldest == Oldest(records, order)
    {
      oldest := None;
      var i := 0;
      while i < |order|
        invariant i <= |order|
        invariant oldest.Some? ==> oldest.value in records
        invariant Elder(records, oldest, Oldest(records, order[i..])) == Oldest(records, order)
      {
        assert order[i..][0] == order[i] && order[i..][1..] == order[i + 1..];
        var t := order[i];
        if t in records {
          if oldest.None? || records[t].watched < records[oldest.value].watched {
            oldest := Some(t);
          }
        }
        i := i + 1;
      }
    }

    method Watch(t: Txid, source: Source, now: nat, order: seq<Txid>) returns (ok: bool)
      modifies this
      ensures Register(disk, old(Now()), t, source, now, order) == Did(Now(), [], !ok)
    {
      if t in records {
        return true;
      }
      if |records| >= WATCH_CAP {
        var oldest := FindOldest(order);
        if oldest.Some? {
          ok := DropWatch(oldest.value);
          if !ok {
            return;
          }
        }
      }
      ok := Upsert(t, Record(source, now, Submitted(now)));
    }

    method WatchRemembered(t: Txid, source: Source, now: nat, seen: Remembered, order: seq<Txid>)
      returns (events: seq<Event>, ok: bool)
      modifies this
      ensures RegisterRemembered(disk, old(Now()), t, source, now, seen, order) == Did(Now(), events, !ok)
    {
      events := [];
      ok := Watch(t, source, now, order);
      if !ok {
        return;
      }
      var current := seen;
      if seen.SeenAccepted? && seen.block in offChain.blocks {
        current := SeenDisplaced(now, seen.block);
      }
      match current {
        case SeenAccepted(b, f, _) =>
          var failed;
          events, failed := OnAccepted(b, f, [t]);
          ok := !failed;
          if failed {
            events := [];
          }
        case SeenDisplaced(since, prior) =>
          if t in records {
            ok := Upsert(t, records[t].(status := Displaced(since, prior)));
            if ok {
              events := [NowDisplaced(t)];
            }
          }
      }
    }

    method WalkAccepted(t: Txid, b: Block, f: Facts) returns (events: seq<Event>, ok: bool)
      modifies this
      ensures Tracker.WalkAccepted(disk, old(Now()), t, b, f) == Did(Now(), events, !ok)
    {
      events, ok := [], true;
      if t !in records {
        return;
      }
      var r := records[t];
      if r.status.Accepted? && r.status.ms == 0 && r.status.block == b && f.ms != 0 {
        ok := Upsert(t, r.(status := Accepted(b, f.blue, f.ms)));
      } else if (r.status.Submitted? || r.status.Displaced?) && r.source == Transport && b !in offChain.blocks {
        var failed;
        events, failed := OnAccepted(b, f, [t]);
        ok := !failed;
        if failed {
          events := [];
        }
      }
    }

    method FinalizeWatch(t: Txid) returns (ok: bool)
      modifies this`records, this`writes, this`index
      ensures var w := FinalizeOne(disk, old(Now()).core, t);
        Now() == old(Now()).(core := w.core) && ok == w.ok
    {
      if t !in records || !records[t].status.Accepted? {
        return true;
      }
      var s := records[t].status;
      ok := Upsert(t, records[t].(status := Finalized(s.block, s.blue, s.ms)));
      if ok {
        LeaveIndex(s.block, t);
      }
    }

    /** The watches past the pruning horizon. */
    method FindExpired(now: nat, order: seq<Txid>) returns (expired: seq<Txid>)
      ensures expired == Expired(Now(), now, order)
    {
      ghost var s := Now();
      expired := [];
      var i := 0;
      while i < |order|
        invariant i <= |order|
        invariant expired + Expired(s, now, order[i..]) == Expired(s, now, order)
      {
        assert order[i..][0] == order[i] && order[i..][1..] == order[i + 1..];
        if order[i] in records && SatSub(now, records[order[i]].watched) > PRUNING_HORIZON_MS {
          expired := expired + [order[i]];
        }
        i := i + 1;
      }
      assert expired + [] == expired;
    }

    /** Dropped in order, up to the first drop that does not land. */
    method DropUntilRefused(expired: seq<Txid>) returns (ok: bool)
      modifies this
      ensures Now() == DropEach(disk, old(Now()), expired).state
    {
      ghost var whole := DropEach(disk, Now(), expired).state;
      var i := 0;
      ok := true;
      while i < |expired| && ok
        invariant 0 <= i <= |expired|
        invariant ok ==> DropEach(disk, Now(), expired[i..]).state == whole
        invariant !ok ==> Now() == whole
        decreases |expired| - i
      {
        assert expired[i..][0] == expired[i] && expired[i..][1..] == expired[i + 1..];
        ok := DropWatch(expired[i]);
        i := i + 1;
      }
    }

    method PruneBeyondHorizon(now: nat, order: seq<Txid>) returns (ok: bool)
      modifies this
      ensures Now() == Prune(disk, old(Now()), now, order)
    {
      var expired := FindExpired(now, order);
      ok := DropUntilRefused(expired);
    }

    /** Who crosses the confirmed depth for the first time at this score. */
    method Cross(order: seq<Txid>) returns (events: seq<Event>, newly: set<Txid>)
      ensures events == Crossings(Now(), order) && newly == Txids(events)
    {
      events, newly := [], {};
      var i := 0;
      while i < |order|
        invariant i <= |order|
        invariant events + Crossings(Now(), order[i..]) == Crossings(Now(), order)
        invariant newly == Txids(events)
      {
        var t := order[i];
        CrossingsFrom(Now(), order, i);
        i := i + 1;
        if t in records && records[t].status.Accepted? {
          var depth := SatSub(sinkBlue, records[t].status.blue);
          if depth >= CONFIRMED_DEPTH_BLUE && t !in confirmed {
            TxidsMore(events, NowConfirmed(t, depth));
            newly := newly + {t};
            events := events + [NowConfirmed(t, depth)];
          }
        }
      }
      assert events + [] == events;
    }

    /** Who is deep enough to finalize. */
    method FindDeep(order: seq<Txid>) returns (deep: seq<Txid>)
      ensures deep == Deep(Now(), order)
    {
      deep := [];
      var i := 0;
      while i < |order|
        invariant i <= |order|
        invariant deep + Deep(Now(), order[i..]) == Deep(Now(), order)
      {
        var t := order[i];
        assert order[i..][0] == t && order[i..][1..] == order[i + 1..];
        i := i + 1;
        if t in records && records[t].status.Accepted? {
          if SatSub(sinkBlue, records[t].status.blue) >= TERMINAL_DEPTH_BLUE {
            deep := deep + [t];
          }
        }
      }
      assert deep + [] == deep;
    }

    /** A finalization that does not land is tried again at the next score. */
    method FinalizeEach(ts: seq<Txid>)
      modifies this`records, this`writes, this`index
      ensures Now() == old(Now()).(core := FinalizeAll(disk, old(Now()).core, ts))
    {
      var i := 0;
      while i < |ts|
        invariant i <= |ts|
        invariant FinalizeAll(disk, Now().core, ts[i..]) == FinalizeAll(disk, old(Now()).core, ts)
        invariant Now() == old(Now()).(core := Now().core)
      {
        assert ts[i..][0] == ts[i] && ts[i..][1..] == ts[i + 1..];
        var _ := FinalizeWatch(ts[i]);
        i := i + 1;
      }
    }

    method SinkBlue(blue: nat, now: nat, order: seq<Txid>) returns (events: seq<Event>)
      modifies this
      ensures OnSinkBlue(disk, old(Now()), blue, now, order) == Did(Now(), events, false)
    {
      sinkBlue := blue;
      events := [];
      if !depthHeld && !walking {
        var newly;
        events, newly := Cross(order);
        var deep := FindDeep(order);
        confirmed := confirmed + newly;
        FinalizeEach(deep);
      }
      var _ := PruneBeyondHorizon(now, order);
    }

    /** A stall or an elapse due for this watch and not yet signalled. */
    method Due(t: Txid, now: nat) returns (events: seq<Event>)
      ensures events == DueOne(Now(), t, now)
    {
      events := [];
      if t in records {
        var r := records[t];
        match r.status {
          case Submitted(at) =>
            if r.source == Send && SatSub(now, at) >= STALL_AFTER_MS && t !in stalled {
              events := [NowStalled(t, SatSub(now, at))];
            }
          case Displaced(since, _) =>
            if SatSub(now, since) >= TOMBSTONE_WINDOW_MS && t !in elapsed {
              events := [WindowElapsed(t)];
            }
          case _ =>
        }
      }
    }

    method GatherDue(now: nat, order: seq<Txid>) returns (events: seq<Event>)
      ensures events == DueEvents(Now(), now, order)
    {
      events := [];
      ghost var s := Now();
      ghost var whole := DueEvents(s, now, order);
      var i := 0;
      while i < |order|
        invariant i <= |order|
        invariant events + DueEvents(s, now, order[i..]) == whole
      {
        DueEventsFrom(s, now, order, i);
        ghost var before := events;
        var one := Due(order[i], now);
        events := events + one;
        assert before + (one + DueEvents(s, now, order[i + 1..])) == events + DueEvents(s, now, order[i + 1..]);
        i := i + 1;
      }
      assert events + [] == events;
    }

    method Tick(now: nat, order: seq<Txid>) returns (events: seq<Event>)
      modifies this
      ensures Tracker.Tick(old(Now()), now, order) == Did(Now(), events, false)
    {
      events := [];
      if walking {
        return;
      }
      events := GatherDue(now, order);
      var i := 0;
      while i < |events|
        invariant 0 <= i <= |events|
        invariant GuardAll(Now(), events[i..]) == GuardAll(old(Now()), events)
      {
        assert events[i..][0] == events[i] && events[i..][1..] == events[i + 1..];
        match events[i] {
          case NowStalled(t, _) => stalled := stalled + {t};
          case WindowElapsed(t) => elapsed := elapsed + {t};
          case _ =>
        }
        i := i + 1;
      }
    }
  }

  lemma CrossingsFrom(s: State, order: seq<Txid>, i: nat)
    requires i < |order|
    ensures Crossings(s, order[i..]) ==
      (if Crosses(s, order[i]) then [NowConfirmed(order[i], Depth(s, order[i]))] else []) + Crossings(s, order[i + 1..])
  {
    assert order[i..][1..] == order[i + 1..];
  }

  lemma DueEventsFrom(s: State, now: nat, order: seq<Txid>, i: nat)
    requires i < |order|
    ensures DueEvents(s, now, order[i..]) == DueOne(s, order[i], now) + DueEvents(s, now, order[i + 1..])
  {
    assert order[i..][1..] == order[i + 1..];
  }

  lemma TxidsMore(events: seq<Event>, e: Event)
    ensures Txids(events + [e]) == Txids(events) + {e.txid}
  {
    assert forall x :: x in events + [e] <==> x in events || x == e;
    assert (events + [e])[|events|] == e;
  }
}

/** The tracker's shell in place (`AcceptanceTracker` in
    `rust/chain/src/acceptance.rs`): the matched memory, the sender lookups and
    the cursor's own fields beside the fold state, each method proved equal to the
    functions of `MessageWalk` and `TrackerLoop`. */
module TrackerShell {
  import opened Bytes
  import opened WatchLog
  import opened Tracker
  import opened MessageWalk
  import opened TrackerStore
  import Loop = TrackerLoop

  /** A page's still-on-chain blocks, as the second section takes them. */
  datatype Lookup = Lookup(txids: seq<Txid>, daa: nat)

  function Lookups(accepted: seq<WalkAcceptance>, offChain: set<Block>): seq<Lookup>
    decreases |accepted|
  {
    if accepted == [] then []
    else
      (if accepted[0].block in offChain then [] else [Lookup(accepted[0].txids, accepted[0].daa)])
        + Lookups(accepted[1..], offChain)
  }

  function ResolveList(interest: seq<Txid>, ls: seq<Lookup>): (seq<Txid>, seq<Event>)
    decreases |ls|
  {
    if ls == [] then (interest, [])
    else
      var (left, events) := Resolve(interest, ls[0].txids, ls[0].daa);
      var (last, more) := ResolveList(left, ls[1..]);
      (last, events + more)
  }

  lemma {:induction false} LookupsResolveThePage(interest: seq<Txid>, accepted: seq<WalkAcceptance>, offChain: set<Block>)
    ensures ResolveList(interest, Lookups(accepted, offChain)) == ResolvePage(interest, accepted, offChain)
    decreases |accepted|
  {
    if accepted != [] {
      var rest := Lookups(accepted[1..], offChain);
      if accepted[0].block in offChain {
        LookupsResolveThePage(interest, accepted[1..], offChain);
        assert Lookups(accepted, offChain) == rest;
        var tail := ResolvePage(interest, accepted[1..], offChain);
        assert [] + tail.1 == tail.1;
      } else {
        var one := Lookup(accepted[0].txids, accepted[0].daa);
        assert ([one] + rest)[0] == one && ([one] + rest)[1..] == rest;
        LookupsResolveThePage(Resolve(interest, one.txids, one.daa).0, accepted[1..], offChain);
      }
    }
  }

  lemma Regroup<T>(a: seq<T>, b: seq<T>, c: seq<T>)
    ensures a + (b + c) == (a + b) + c
  {
  }

  lemma ResolveFrom(interest: seq<Txid>, ts: seq<Txid>, i: nat, daa: nat)
    requires i < |ts|
    ensures Resolve(interest, ts[i..], daa) ==
      if ts[i] in interest then
        var (left, events) := Resolve(TakeFirst(interest, ts[i]), ts[i + 1..], daa);
        (left, [SenderResolvable(ts[i], daa)] + events)
      else Resolve(interest, ts[i + 1..], daa)
  {
    assert ts[i..][1..] == ts[i + 1..];
  }

  lemma WalkBlocksFrom(disk: Disk, s: State, accepted: seq<WalkAcceptance>, i: nat)
    requires i < |accepted|
    ensures var a := accepted[i];
      var one := WalkAll(disk, s, a.txids, a.block, a.facts);
      var rest := WalkBlocks(disk, one.state, accepted[i + 1..]);
      WalkBlocks(disk, s, accepted[i..]) == Did(rest.state, one.events + rest.events, one.failed || rest.failed)
  {
    assert accepted[i..][1..] == accepted[i + 1..];
  }

  lemma PageFrom(m: Memory, accepted: seq<WalkAcceptance>, i: nat, offChain: set<Block>, now: nat)
    requires i < |accepted|
    ensures RecallPage(m, accepted[i..], offChain, now)
         == RecallPage(RememberAll(m, accepted[i].txids, Said(accepted[i], offChain, now)), accepted[i + 1..], offChain, now)
    ensures Lookups(accepted[i..], offChain)
         == (if accepted[i].block in offChain then [] else [Lookup(accepted[i].txids, accepted[i].daa)])
            + Lookups(accepted[i + 1..], offChain)
  {
    assert accepted[i..][1..] == accepted[i + 1..];
  }

  lemma WalkAllFrom(disk: Disk, s: State, ts: seq<Txid>, i: nat, b: Block, f: Facts)
    requires i < |ts|
    ensures var one := WalkAccepted(disk, s, ts[i], b, f);
      var rest := WalkAll(disk, one.state, ts[i + 1..], b, f);
      WalkAll(disk, s, ts[i..], b, f) == Did(rest.state, one.events + rest.events, one.failed || rest.failed)
  {
    assert ts[i..][1..] == ts[i + 1..];
  }

  class AcceptanceTracker {
    const state: TrackerState
    var order: seq<Txid>
    var known: map<Txid, Remembered>
    var interest: seq<Txid>
    var cursor: Loop.Cursor
    /** Everything broadcast so far. */
    var sent: seq<Event>

    ghost function Desk(): Desk
      reads this, state
    {
      MessageWalk.Desk(state.Now(), Memory(order, known), interest)
    }

    constructor (state: TrackerState, file: Option<Block>)
      ensures this.state == state && Desk() == MessageWalk.Desk(state.Now(), Memory([], map[]), []) && sent == []
      ensures cursor == Loop.Cursor(file, false, 0, 0, false, 0)
    {
      this.state := state;
      order, known, interest, sent := [], map[], [], [];
      cursor := Loop.Cursor(file, false, 0, 0, false, 0);
    }

    method Broadcast(events: seq<Event>)
      modifies this`sent
      ensures sent == old(sent) + events
    {
      var i := 0;
      while i < |events|
        invariant i <= |events| && sent == old(sent) + events[..i]
      {
        sent := sent + [events[i]];
        i := i + 1;
      }
    }

    // ---- the matched memory ----

    method RememberOne(t: Txid, r: Remembered)
      modifies this`order, this`known
      ensures Memory(order, known) == Remember(Memory(old(order), old(known)), t, r)
    {
      if t !in known {
        if |order| >= MATCHED_MEMORY_CAPACITY {
          known := known - {order[0]};
          order := order[1..];
        }
        order := order + [t];
      }
      known := known[t := r];
    }

    method RememberEach(ts: seq<Txid>, r: Remembered)
      modifies this`order, this`known
      ensures Memory(order, known) == RememberAll(Memory(old(order), old(known)), ts, r)
    {
      var i := 0;
      while i < |ts|
        invariant i <= |ts|
        invariant RememberAll(Memory(order, known), ts[i..], r) == RememberAll(Memory(old(order), old(known)), ts, r)
      {
        assert ts[i..][0] == ts[i] && ts[i..][1..] == ts[i + 1..];
        RememberOne(ts[i], r);
        i := i + 1;
      }
    }

    // ---- sender lookups ----

    method TakeResolvable(txids: seq<Txid>, daa: nat) returns (events: seq<Event>)
      modifies this`interest
      ensures (interest, events) == Resolve(old(interest), txids, daa)
    {
      events := [];
      var i := 0;
      ghost var whole := Resolve(interest, txids, daa);
      ghost var ahead := whole;
      assert txids[0..] == txids && [] + whole.1 == whole.1;
      while i < |txids|
        invariant i <= |txids| && ahead == Resolve(interest, txids[i..], daa)
        invariant ahead.0 == whole.0 && events + ahead.1 == whole.1
      {
        var t := txids[i];
        ResolveFrom(interest, txids, i, daa);
        i := i + 1;
        if t in interest {
          interest := TakeFirst(interest, t);
          ahead := Resolve(interest, txids[i..], daa);
          Regroup(events, [SenderResolvable(t, daa)], ahead.1);
          events := events + [SenderResolvable(t, daa)];
        }
      }
      assert events + [] == events;
    }

    method NoteSenderInterest(t: Txid)
      modifies this`interest, this`sent
      ensures var d := NoteInterest(old(Desk()), t); Desk() == d.desk && sent == old(sent) + d.events
    {
      if t in interest {
        return;
      }
      if t in known && known[t].SeenAccepted? && known[t].block !in state.offChain.blocks {
        Broadcast([SenderResolvable(t, known[t].daa)]);
        return;
      }
      if |interest| >= SENDER_INTEREST_CAPACITY {
        interest := interest[1..];
      }
      interest := interest + [t];
    }

    // ---- watching ----

    method Watch(t: Txid, source: Source, now: nat, iteration: seq<Txid>)
      modifies state, this`sent
      ensures var d := WatchDesk(state.disk, old(Desk()), t, source, now, iteration);
        Desk() == d.desk && sent == old(sent) + d.events
    {
      if t in state.records {
        return;
      }
      var events, ok := [], true;
      if source == Transport && t in known {
        events, ok := state.WatchRemembered(t, source, now, known[t], iteration);
      } else {
        ok := state.Watch(t, source, now, iteration);
      }
      if !ok {
        events := [];
      }
      Broadcast(events);
    }

    // ---- a page of the message walk ----

    method WalkEach(ts: seq<Txid>, b: Block, f: Facts) returns (events: seq<Event>)
      modifies state
      ensures var d := WalkAll(state.disk, old(state.Now()), ts, b, f);
        state.Now() == d.state && events == d.events
    {
      events := [];
      var i := 0;
      ghost var whole := WalkAll(state.disk, state.Now(), ts, b, f);
      ghost var ahead := whole;
      assert ts[0..] == ts && [] + whole.events == whole.events;
      while i < |ts|
        invariant i <= |ts| && ahead == WalkAll(state.disk, state.Now(), ts[i..], b, f)
        invariant ahead.state == whole.state && events + ahead.events == whole.events
      {
        WalkAllFrom(state.disk, state.Now(), ts, i, b, f);
        var more, _ := state.WalkAccepted(ts[i], b, f);
        i := i + 1;
        ahead := WalkAll(state.disk, state.Now(), ts[i..], b, f);
        Regroup(events, more, ahead.events);
        events := events + more;
      }
      assert events + [] == events;
    }

    /** One block of a page: the log where the walk may speak, then the memory. */
    method FoldBlock(a: WalkAcceptance, now: nat) returns (events: seq<Event>, lookups: seq<Lookup>)
      modifies state, this`order, this`known
      ensures var d := WalkAll(state.disk, old(state.Now()), a.txids, a.block, a.facts);
        state.Now() == d.state && events == d.events
      ensures state.offChain.blocks == old(state.offChain.blocks)
      ensures var off := old(state.offChain.blocks);
        && Memory(order, known) == RememberAll(Memory(old(order), old(known)), a.txids, Said(a, off, now))
        && lookups == if a.block in off then [] else [Lookup(a.txids, a.daa)]
    {
      WalkAllMoves(state.disk, state.Now(), a.txids, a.block, a.facts, 0);
      var gone := a.block in state.offChain.blocks;
      events := WalkEach(a.txids, a.block, a.facts);
      RememberEach(a.txids, if gone then SeenDisplaced(now, a.block) else SeenAccepted(a.block, a.facts, a.daa));
      lookups := if gone then [] else [Lookup(a.txids, a.daa)];
    }

    /** The first lock-held section: state and memory, block by block. */
    method FoldPageSection(page: Page, now: nat) returns (events: seq<Event>, lookups: seq<Lookup>)
      modifies state, this`order, this`known
      ensures var d := FoldPage(state.disk, old(Desk()), page, now); Desk() == d.desk && events == d.events
      ensures lookups == Lookups(page.accepted, old(state.offChain.blocks))
    {
      ghost var s := state.Now();
      ghost var off := state.offChain.blocks;
      ghost var whole := WalkBlocks(state.disk, s, page.accepted);
      ghost var ahead := whole;
      known := map t | t in known :: DisplaceOneMemory(known[t], page.removed, now);
      ghost var m := RecallPage(Memory(order, known), page.accepted, off, now);
      events, lookups := [], [];
      assert page.accepted[0..] == page.accepted && [] + whole.events == whole.events;
      var i := 0;
      while i < |page.accepted|
        invariant i <= |page.accepted| && state.offChain.blocks == off
        invariant ahead == WalkBlocks(state.disk, state.Now(), page.accepted[i..])
        invariant ahead.state == whole.state && events + ahead.events == whole.events
        invariant RecallPage(Memory(order, known), page.accepted[i..], off, now) == m
        invariant lookups + Lookups(page.accepted[i..], off) == Lookups(page.accepted, off)
      {
        WalkBlocksFrom(state.disk, state.Now(), page.accepted, i);
        PageFrom(Memory(order, known), page.accepted, i, off, now);
        var more, found := FoldBlock(page.accepted[i], now);
        i := i + 1;
        ahead := WalkBlocks(state.disk, state.Now(), page.accepted[i..]);
        Regroup(events, more, ahead.events);
        Regroup(lookups, found, Lookups(page.accepted[i..], off));
        events := events + more;
        lookups := lookups + found;
      }
      assert events + [] == events && lookups + [] == lookups;
    }

    /** The second: each still-on-chain block's sender lookups. */
    method TakeEach(lookups: seq<Lookup>) returns (events: seq<Event>)
      modifies this`interest
      ensures (interest, events) == ResolveList(old(interest), lookups)
    {
      events := [];
      var i := 0;
      ghost var whole := ResolveList(interest, lookups);
      ghost var ahead := whole;
      assert lookups[0..] == lookups && [] + whole.1 == whole.1;
      while i < |lookups|
        invariant i <= |lookups| && ahead == ResolveList(interest, lookups[i..])
        invariant ahead.0 == whole.0 && events + ahead.1 == whole.1
      {
        assert lookups[i..][1..] == lookups[i + 1..];
        var more := TakeResolvable(lookups[i].txids, lookups[i].daa);
        i := i + 1;
        ahead := ResolveList(interest, lookups[i..]);
        Regroup(events, more, ahead.1);
        events := events + more;
      }
      assert events + [] == events;
    }

    method FoldWalk(page: Page, now: nat)
      modifies state, this
      ensures var d := MessageWalk.FoldWalk(state.disk, old(Desk()), page, now);
        Desk() == d.desk && sent == old(sent) + d.events
      ensures cursor == old(cursor)
    {
      LookupsResolveThePage(interest, page.accepted, state.offChain.blocks);
      var events, lookups := FoldPageSection(page, now);
      var answers := TakeEach(lookups);
      Broadcast(events + answers);
    }

    // ---- the cursor ----

    /** `atomicWriteOk`: whether the durable write of the cursor file succeeds. */
    method WriteCursor(b: Block, force: bool, now: nat, atomicWriteOk: bool)
      modifies this`cursor
      ensures cursor == Loop.WriteCursor(old(cursor), b, force, now, atomicWriteOk)
    {
      var secs := now / 1000;
      if !force {
        if SatSub(secs, cursor.writtenAt) < Loop.CURSOR_MIN_WRITE_SECS {
          return;
        }
      }
      cursor := cursor.(writtenAt := secs);
      if atomicWriteOk {
        cursor := cursor.(file := Some(b));
      } else if force {
        cursor := cursor.(forceOwed := true);
      }
    }

    ghost function World(walk: Loop.Walk, loop: Loop.Loop, heldBack: seq<Loop.Feed>, walkAgain: bool): Loop.World
      reads this, state
    {
      Loop.World(Desk(), cursor, walk, loop, heldBack, walkAgain)
    }

    method FreezeCursor(now: nat)
      modifies this`cursor, state`depthHeld
      ensures forall walk, loop, heldBack, again ::
        World(walk, loop, heldBack, again) == Loop.Freeze(old(World(walk, loop, heldBack, again)), now)
    {
      if !cursor.frozen {
        cursor := cursor.(frozen := true, since := now, holds := cursor.holds + 1);
        state.depthHeld := true;
      }
    }

    method ReleaseCursor()
      modifies this`cursor, state`depthHeld
      ensures forall walk, loop, heldBack, again ::
        World(walk, loop, heldBack, again) == Loop.Release(old(World(walk, loop, heldBack, again)))
    {
      if cursor.frozen {
        cursor := cursor.(frozen := false, since := 0);
        state.depthHeld := false;
      }
    }
  }
}

/** The tracker's second feed, the message walk's pages (`fold_walk`, `watch` and
    `note_sender_interest` in `rust/chain/src/acceptance.rs`). */
module MessageWalk {
  // It may speak only where the ordered live stream cannot have, and whatever order
  // its pages, a watch and a sender lookup land in, nothing is lost and nothing said
  // twice.

  import opened Bytes
  import opened WatchLog
  import opened Tracker

  const MATCHED_MEMORY_CAPACITY: nat := 1024
  const SENDER_INTEREST_CAPACITY: nat := 256

  /** What the walk matched before anyone watched it, oldest first. */
  datatype Memory = Memory(order: seq<Txid>, known: map<Txid, Remembered>)

  datatype WalkAcceptance = WalkAcceptance(block: Block, facts: Facts, daa: nat, txids: seq<Txid>)

  datatype Page = Page(removed: seq<Block>, accepted: seq<WalkAcceptance>)

  /** The tracker's three lock-held parts. */
  datatype Desk = Desk(state: State, memory: Memory, interest: seq<Txid>)

  datatype DeskDid = DeskDid(desk: Desk, events: seq<Event>)

  // ---- the memory ----

  ghost predicate MemoryValid(m: Memory) {
    && NoDups(m.order) && |m.order| <= MATCHED_MEMORY_CAPACITY
    && forall t :: t in m.order <==> t in m.known
  }

  function Remember(m: Memory, t: Txid, r: Remembered): Memory {
    if t in m.known then m.(known := m.known[t := r])
    else if |m.order| >= MATCHED_MEMORY_CAPACITY then
      Memory(m.order[1..] + [t], (m.known - {m.order[0]})[t := r])
    else Memory(m.order + [t], m.known[t := r])
  }

  function RememberAll(m: Memory, ts: seq<Txid>, r: Remembered): Memory
    decreases |ts|
  {
    if ts == [] then m else RememberAll(Remember(m, ts[0], r), ts[1..], r)
  }

  function DisplaceOneMemory(r: Remembered, removed: seq<Block>, now: nat): Remembered {
    if r.SeenAccepted? && r.block in removed then SeenDisplaced(now, r.block) else r
  }

  function DisplaceMemory(m: Memory, removed: seq<Block>, now: nat): Memory {
    m.(known := map t | t in m.known :: DisplaceOneMemory(m.known[t], removed, now))
  }

  /** What a page says of the txids one block accepted. */
  function Said(a: WalkAcceptance, offChain: set<Block>, now: nat): Remembered {
    if a.block in offChain then SeenDisplaced(now, a.block) else SeenAccepted(a.block, a.facts, a.daa)
  }

  function RecallPage(m: Memory, accepted: seq<WalkAcceptance>, offChain: set<Block>, now: nat): Memory
    decreases |accepted|
  {
    if accepted == [] then m
    else RecallPage(RememberAll(m, accepted[0].txids, Said(accepted[0], offChain, now)), accepted[1..], offChain, now)
  }

  // ---- the first lock-held section of a page ----

  function WalkAll(disk: Disk, s: State, ts: seq<Txid>, b: Block, f: Facts): Did
    decreases |ts|
  {
    if ts == [] then Did(s, [], false)
    else
      var one := WalkAccepted(disk, s, ts[0], b, f);
      var rest := WalkAll(disk, one.state, ts[1..], b, f);
      Did(rest.state, one.events + rest.events, one.failed || rest.failed)
  }

  function WalkBlocks(disk: Disk, s: State, accepted: seq<WalkAcceptance>): Did
    decreases |accepted|
  {
    if accepted == [] then Did(s, [], false)
    else
      var one := WalkAll(disk, s, accepted[0].txids, accepted[0].block, accepted[0].facts);
      var rest := WalkBlocks(disk, one.state, accepted[1..]);
      Did(rest.state, one.events + rest.events, one.failed || rest.failed)
  }

  /** The state and the memory, under both locks. A failed write emits nothing. */
  function FoldPage(disk: Disk, d: Desk, page: Page, now: nat): DeskDid {
    var did := WalkBlocks(disk, d.state, page.accepted);
    var memory := RecallPage(DisplaceMemory(d.memory, page.removed, now), page.accepted, d.state.core.offChain.blocks, now);
    DeskDid(Desk(did.state, memory, d.interest), did.events)
  }

  // ---- the second: sender lookups ----

  function TakeFirst(s: seq<Txid>, t: Txid): seq<Txid> {
    if s == [] then [] else if s[0] == t then s[1..] else [s[0]] + TakeFirst(s[1..], t)
  }

  function Resolve(interest: seq<Txid>, ts: seq<Txid>, daa: nat): (seq<Txid>, seq<Event>)
    decreases |ts|
  {
    if ts == [] then (interest, [])
    else if ts[0] in interest then
      var (left, events) := Resolve(TakeFirst(interest, ts[0]), ts[1..], daa);
      (left, [SenderResolvable(ts[0], daa)] + events)
    else Resolve(interest, ts[1..], daa)
  }

  /** Only blocks still on the chain when the page folded name a sender. */
  function ResolvePage(interest: seq<Txid>, accepted: seq<WalkAcceptance>, offChain: set<Block>): (seq<Txid>, seq<Event>)
    decreases |accepted|
  {
    if accepted == [] then (interest, [])
    else
      var (left, events) := if accepted[0].block in offChain then (interest, [])
                            else Resolve(interest, accepted[0].txids, accepted[0].daa);
      var (last, more) := ResolvePage(left, accepted[1..], offChain);
      (last, events + more)
  }

  function ResolveDesk(d: Desk, accepted: seq<WalkAcceptance>, offChain: set<Block>): DeskDid {
    var (left, events) := ResolvePage(d.interest, accepted, offChain);
    DeskDid(d.(interest := left), events)
  }

  function FoldWalk(disk: Disk, d: Desk, page: Page, now: nat): DeskDid {
    var first := FoldPage(disk, d, page, now);
    var second := ResolveDesk(first.desk, page.accepted, d.state.core.offChain.blocks);
    DeskDid(second.desk, first.events + second.events)
  }

  // ---- a watch, and a sender lookup ----

  /** Only a message watch takes the walk's memory. */
  function WatchDesk(disk: Disk, d: Desk, t: Txid, source: Source, now: nat, order: seq<Txid>): DeskDid {
    if t in d.state.core.records then DeskDid(d, [])
    else
      var did := if source == Transport && t in d.memory.known
                 then RegisterRemembered(disk, d.state, t, source, now, d.memory.known[t], order)
                 else Register(disk, d.state, t, source, now, order);
      DeskDid(d.(state := did.state), if did.failed then [] else did.events)
  }

  predicate KnownOnChain(d: Desk, t: Txid) {
    t in d.memory.known && d.memory.known[t].SeenAccepted? && d.memory.known[t].block !in d.state.core.offChain.blocks
  }

  function NoteInterest(d: Desk, t: Txid): DeskDid {
    if t in d.interest then DeskDid(d, [])
    else if KnownOnChain(d, t) then DeskDid(d, [SenderResolvable(t, d.memory.known[t].daa)])
    else
      var room := if |d.interest| >= SENDER_INTEREST_CAPACITY then d.interest[1..] else d.interest;
      DeskDid(d.(interest := room + [t]), [])
  }

  // ---- the walk never overrides the stream ----

  /** All the walk may do to a record: nothing; fill in the facts of the block it
      is already accepted by, where a fallback stored time 0; or first accept a
      message watch the stream left unaccepted, by a block it has not removed. */
  predicate WalkMay(offChain: set<Block>, r: Record, r': Record) {
    && r'.source == r.source && r'.watched == r.watched
    && (|| r'.status == r.status
        || (r.status.Accepted? && r.status.ms == 0 && r'.status.Accepted? && r'.status.block == r.status.block && r'.status.ms != 0)
        || (r.source == Transport && (r.status.Submitted? || r.status.Displaced?)
            && r'.status.Accepted? && r'.status.block !in offChain))
  }

  /** The same watches, the same off-chain set, and `t` moved only as allowed. */
  ghost predicate WalkMoved(s: State, s': State, t: Txid) {
    && s'.core.records.Keys == s.core.records.Keys && s'.core.offChain == s.core.offChain
    && (t in s.core.records ==> WalkMay(s.core.offChain.blocks, s.core.records[t], s'.core.records[t]))
  }

  lemma AcceptOneTouches(disk: Disk, c: Core, b: Block, f: Facts, ts: seq<Txid>)
    requires |ts| == 1
    ensures AcceptAll(disk, From(c), b, f, ts) == Then(From(c), ts[0], AcceptOne(disk, c, b, f, ts[0]))
  {
    assert ts[1..] == [];
  }

  /** Rewriting a record under the block it is accepted by leaves the index exact. */
  lemma SameBlockExact(c: Core, c': Core, t: Txid)
    requires IndexExact(c) && t in c.records && c.records[t].status.Accepted?
    requires c'.index == c.index && c'.records.Keys == c.records.Keys
    requires forall u :: u in c.records && u != t ==> c'.records[u] == c.records[u]
    requires c'.records[t].status.Accepted? && c'.records[t].status.block == c.records[t].status.block
    ensures IndexExact(c')
  {
    forall u, b
      ensures AcceptedBy(c'.records, u, b) <==> AcceptedBy(c.records, u, b)
    {
    }
  }

  lemma PutKeepsExact(disk: Disk, c: Core, t: Txid, r: Record)
    requires IndexExact(c) && t in c.records && c.records[t].status.Accepted?
    requires r.status.Accepted? && r.status.block == c.records[t].status.block
    ensures IndexExact(Put(disk, c, t, r).core) && Put(disk, c, t, r).core.records.Keys == c.records.Keys
  {
    SameBlockExact(c, Put(disk, c, t, r).core, t);
  }

  lemma WalkAcceptedExact(disk: Disk, s: State, u: Txid, b: Block, f: Facts)
    requires IndexExact(s.core)
    ensures IndexExact(WalkAccepted(disk, s, u, b, f).state.core)
  {
    if u in s.core.records {
      var r := s.core.records[u];
      if r.status.Accepted? && r.status.ms == 0 && r.status.block == b && f.ms != 0 {
        PutKeepsExact(disk, s.core, u, r.(status := Accepted(b, f.blue, f.ms)));
      } else {
        AcceptAllExact(disk, From(s.core), b, f, [u]);
      }
    }
  }

  predicate FillsIn(r: Record, b: Block, f: Facts) {
    r.status.Accepted? && r.status.ms == 0 && r.status.block == b && f.ms != 0
  }

  lemma FillingInTouches(disk: Disk, s: State, u: Txid, b: Block, f: Facts, t: Txid)
    requires u in s.core.records && FillsIn(s.core.records[u], b, f)
    ensures WalkMoved(s, WalkAccepted(disk, s, u, b, f).state, t) && WalkAccepted(disk, s, u, b, f).events == []
  {
  }

  /** One acceptance leaves everyone else, the watches and the off-chain set alone. */
  lemma AcceptOneMoves(disk: Disk, c: Core, b: Block, f: Facts, u: Txid, t: Txid)
    ensures var a := AcceptOne(disk, c, b, f, u);
      && a.core.records.Keys == c.records.Keys && a.core.offChain == c.offChain
      && (t in c.records ==>
            || a.core.records[t] == c.records[t]
            || (t == u && a.core.records[t] == c.records[t].(status := Accepted(b, f.blue, f.ms))))
  {
  }

  lemma FirstAcceptanceTouches(disk: Disk, s: State, u: Txid, b: Block, f: Facts, t: Txid)
    requires u in s.core.records && !FillsIn(s.core.records[u], b, f)
    ensures WalkMoved(s, WalkAccepted(disk, s, u, b, f).state, t)
    ensures forall e :: e in WalkAccepted(disk, s, u, b, f).events ==> e == NowAccepted(u)
  {
    AcceptOneTouches(disk, s.core, b, f, [u]);
    AcceptOneMoves(disk, s.core, b, f, u, t);
  }

  lemma WalkAcceptedTouches(disk: Disk, s: State, u: Txid, b: Block, f: Facts, t: Txid)
    ensures WalkMoved(s, WalkAccepted(disk, s, u, b, f).state, t)
    ensures forall e :: e in WalkAccepted(disk, s, u, b, f).events ==> e == NowAccepted(u)
  {
    if u in s.core.records {
      if FillsIn(s.core.records[u], b, f) {
        FillingInTouches(disk, s, u, b, f, t);
      } else {
        FirstAcceptanceTouches(disk, s, u, b, f, t);
      }
    }
  }

  lemma WalkAcceptedMoves(disk: Disk, s: State, u: Txid, b: Block, f: Facts, t: Txid)
    ensures var s' := WalkAccepted(disk, s, u, b, f).state;
      WalkMoved(s, s', t) && (IndexExact(s.core) ==> IndexExact(s'.core))
    ensures forall e :: e in WalkAccepted(disk, s, u, b, f).events ==> e == NowAccepted(u)
  {
    WalkAcceptedTouches(disk, s, u, b, f, t);
    if IndexExact(s.core) {
      WalkAcceptedExact(disk, s, u, b, f);
    }
  }

  lemma {:induction false} WalkAllMoves(disk: Disk, s: State, ts: seq<Txid>, b: Block, f: Facts, t: Txid)
    ensures var s' := WalkAll(disk, s, ts, b, f).state;
      WalkMoved(s, s', t) && (IndexExact(s.core) ==> IndexExact(s'.core))
    ensures forall e :: e in WalkAll(disk, s, ts, b, f).events ==> e.NowAccepted?
    decreases |ts|
  {
    if ts != [] {
      WalkAcceptedMoves(disk, s, ts[0], b, f, t);
      WalkAllMoves(disk, WalkAccepted(disk, s, ts[0], b, f).state, ts[1..], b, f, t);
    }
  }

  lemma {:induction false} WalkBlocksMoves(disk: Disk, s: State, accepted: seq<WalkAcceptance>, t: Txid)
    ensures var s' := WalkBlocks(disk, s, accepted).state;
      WalkMoved(s, s', t) && (IndexExact(s.core) ==> IndexExact(s'.core))
    ensures forall e :: e in WalkBlocks(disk, s, accepted).events ==> e.NowAccepted?
    decreases |accepted|
  {
    if accepted != [] {
      WalkAllMoves(disk, s, accepted[0].txids, accepted[0].block, accepted[0].facts, t);
      WalkBlocksMoves(disk, WalkAll(disk, s, accepted[0].txids, accepted[0].block, accepted[0].facts).state, accepted[1..], t);
    }
  }

  datatype Arrival = Arrival(page: Page, now: nat)

  function FoldPages(disk: Disk, d: Desk, pages: seq<Arrival>): DeskDid
    decreases |pages|
  {
    if pages == [] then DeskDid(d, [])
    else
      var one := FoldWalk(disk, d, pages[0].page, pages[0].now);
      var rest := FoldPages(disk, one.desk, pages[1..]);
      DeskDid(rest.desk, one.events + rest.events)
  }

  /** What the walk can never do: displace; move or take back an acceptance; touch a
      Send, but for the time-0 facts of the block it is accepted by; accept onto a
      block the stream removed; or touch what is final. */
  predicate NotOverridden(offChain: set<Block>, r: Record, r': Record) {
    && (r'.status.Displaced? ==> r.status == r'.status)
    && (r.status.Accepted? ==> r'.status.Accepted? && r'.status.block == r.status.block)
    && (r.source == Send && r' != r ==> r.status.Accepted? && r.status.ms == 0)
    && (r'.status.Accepted? && r'.status.block in offChain ==> r.status.Accepted? && r.status.block == r'.status.block)
    && (r.status.Finalized? ==> r' == r)
  }

  /** **The walk never overrides the stream.** Over every sequence of pages, with
      any writes failing: no record is displaced and no displacement signalled, no
      acceptance is moved to another block, a Send changes only by filling in the
      time-0 facts of its own block, nothing is newly accepted onto a block the
      stream removed, and the index stays exact. */
  lemma {:induction false} WalkNeverOverrides(disk: Disk, d: Desk, pages: seq<Arrival>, t: Txid)
    ensures var out := FoldPages(disk, d, pages);
      && WalkMoved(d.state, out.desk.state, t) && (IndexExact(d.state.core) ==> IndexExact(out.desk.state.core))
      && (t in d.state.core.records ==>
            NotOverridden(d.state.core.offChain.blocks, d.state.core.records[t], out.desk.state.core.records[t]))
      && (forall e :: e in out.events ==> e.NowAccepted? || e.SenderResolvable?)
    decreases |pages|
  {
    if pages != [] {
      WalkBlocksMoves(disk, d.state, pages[0].page.accepted, t);
      var first := FoldPage(disk, d, pages[0].page, pages[0].now);
      ResolvesOnly(first.desk.interest, pages[0].page.accepted, d.state.core.offChain.blocks);
      WalkNeverOverrides(disk, FoldWalk(disk, d, pages[0].page, pages[0].now).desk, pages[1..], t);
    }
  }

  lemma {:induction false} ResolveOnly(interest: seq<Txid>, ts: seq<Txid>, daa: nat)
    ensures forall e :: e in Resolve(interest, ts, daa).1 ==> e.SenderResolvable?
    decreases |ts|
  {
    if ts != [] {
      ResolveOnly(TakeFirst(interest, ts[0]), ts[1..], daa);
      ResolveOnly(interest, ts[1..], daa);
    }
  }

  lemma {:induction false} ResolvesOnly(interest: seq<Txid>, accepted: seq<WalkAcceptance>, offChain: set<Block>)
    ensures forall e :: e in ResolvePage(interest, accepted, offChain).1 ==> e.SenderResolvable?
    decreases |accepted|
  {
    if accepted != [] {
      ResolveOnly(interest, accepted[0].txids, accepted[0].daa);
      var left := if accepted[0].block in offChain then interest else Resolve(interest, accepted[0].txids, accepted[0].daa).0;
      ResolvesOnly(left, accepted[1..], offChain);
    }
  }

  // ---- the memory stays bounded ----

  lemma RememberValid(m: Memory, t: Txid, r: Remembered)
    requires MemoryValid(m)
    ensures MemoryValid(Remember(m, t, r)) && t in Remember(m, t, r).known && Remember(m, t, r).known[t] == r
  {
    if t !in m.known {
      var kept := if |m.order| >= MATCHED_MEMORY_CAPACITY then m.order[1..] else m.order;
      assert |m.order| >= MATCHED_MEMORY_CAPACITY ==> m.order == [m.order[0]] + m.order[1..] && m.order[0] !in m.order[1..];
      assert forall u :: u in kept + [t] <==> u in kept || u == t;
      assert Remember(m, t, r).order == kept + [t];
    }
  }

  lemma {:induction false} RememberAllValid(m: Memory, ts: seq<Txid>, r: Remembered)
    requires MemoryValid(m)
    ensures MemoryValid(RememberAll(m, ts, r))
    decreases |ts|
  {
    if ts != [] {
      RememberValid(m, ts[0], r);
      RememberAllValid(Remember(m, ts[0], r), ts[1..], r);
    }
  }

  lemma {:induction false} RecallPageValid(m: Memory, accepted: seq<WalkAcceptance>, offChain: set<Block>, now: nat)
    requires MemoryValid(m)
    ensures MemoryValid(RecallPage(m, accepted, offChain, now))
    decreases |accepted|
  {
    if accepted != [] {
      var r := Said(accepted[0], offChain, now);
      RememberAllValid(m, accepted[0].txids, r);
      RecallPageValid(RememberAll(m, accepted[0].txids, r), accepted[1..], offChain, now);
    }
  }

  /** A page keeps the memory's queue and map in step and within capacity. */
  lemma FoldPageKeepsMemory(disk: Disk, d: Desk, page: Page, now: nat)
    requires MemoryValid(d.memory)
    ensures MemoryValid(FoldPage(disk, d, page, now).desk.memory)
  {
    var displaced := DisplaceMemory(d.memory, page.removed, now);
    assert displaced.known.Keys == d.memory.known.Keys;
    RecallPageValid(displaced, page.accepted, d.state.core.offChain.blocks, now);
  }

  // ---- a watch and a page, either way round ----

  /** The page names `t` under its i-th block and nowhere else. */
  predicate NamesOnce(page: Page, t: Txid, i: nat) {
    && i < |page.accepted| && t in page.accepted[i].txids
    && forall j :: 0 <= j < |page.accepted| && j != i ==> t !in page.accepted[j].txids
  }

  /** Whether the bounded memory still holds `t` once the page has folded. */
  predicate Survives(m: Memory, page: Page, offChain: set<Block>, now: nat, t: Txid) {
    t in RecallPage(DisplaceMemory(m, page.removed, now), page.accepted, offChain, now).known
  }

  /** The memory already holds another acceptance of `t`, still on the chain, that
      the page's own would not fill in. */
  predicate Clashes(d: Desk, t: Txid, a: WalkAcceptance) {
    && KnownOnChain(d, t)
    && (var seen := d.memory.known[t];
        (seen.block != a.block || seen.facts != a.facts)
        && !(seen.block == a.block && seen.facts.ms == 0 && a.facts.ms != 0))
  }

  lemma {:induction false} RememberAllSays(m: Memory, ts: seq<Txid>, r: Remembered, t: Txid)
    requires MemoryValid(m)
    ensures var m' := RememberAll(m, ts, r);
      t in m'.known ==> (if t in ts then m'.known[t] == r else t in m.known && m'.known[t] == m.known[t])
    decreases |ts|
  {
    if ts != [] {
      RememberValid(m, ts[0], r);
      RememberAllSays(Remember(m, ts[0], r), ts[1..], r, t);
    }
  }

  lemma {:induction false} RecallPageSays(m: Memory, accepted: seq<WalkAcceptance>, offChain: set<Block>, now: nat, t: Txid, i: int)
    requires MemoryValid(m) && -1 <= i < |accepted|
    requires forall j :: 0 <= j < |accepted| ==> (t in accepted[j].txids <==> j == i)
    ensures var m' := RecallPage(m, accepted, offChain, now);
      t in m'.known ==>
        if i >= 0 then m'.known[t] == Said(accepted[i], offChain, now) else t in m.known && m'.known[t] == m.known[t]
    decreases |accepted|
  {
    if accepted != [] {
      var r := Said(accepted[0], offChain, now);
      RememberAllValid(m, accepted[0].txids, r);
      RememberAllSays(m, accepted[0].txids, r, t);
      var m1 := RememberAll(m, accepted[0].txids, r);
      if i == 0 {
        RecallPageSays(m1, accepted[1..], offChain, now, t, -1);
      } else {
        RecallPageSays(m1, accepted[1..], offChain, now, t, if i > 0 then i - 1 else -1);
      }
    }
  }

  /** The walk's word on an unnamed txid: none. */
  lemma {:induction false} WalkAllSkips(disk: Disk, s: State, ts: seq<Txid>, b: Block, f: Facts, t: Txid)
    requires t in s.core.records && t !in ts
    ensures var s' := WalkAll(disk, s, ts, b, f).state;
      t in s'.core.records && s'.core.records[t] == s.core.records[t] && s'.core.offChain == s.core.offChain
    decreases |ts|
  {
    if ts != [] {
      AcceptAllMoves(disk, From(s.core), b, f, [ts[0]], t);
      AcceptOneTouches(disk, s.core, b, f, [ts[0]]);
      WalkAllSkips(disk, WalkAccepted(disk, s, ts[0], b, f).state, ts[1..], b, f, t);
    }
  }

  /** What one acceptance by the walk makes of a status, its write landing. */
  function WalkStatus(r: Record, b: Block, f: Facts, offChain: set<Block>): Status {
    if r.status.Accepted? && r.status.ms == 0 && r.status.block == b && f.ms != 0 then Accepted(b, f.blue, f.ms)
    else if (r.status.Submitted? || r.status.Displaced?) && r.source == Transport && b !in offChain then Accepted(b, f.blue, f.ms)
    else r.status
  }

  lemma WalkAcceptedLands(disk: Disk, s: State, t: Txid, b: Block, f: Facts)
    requires t in s.core.records && forall n :: disk(n)
    ensures var s' := WalkAccepted(disk, s, t, b, f).state;
      && t in s'.core.records && s'.core.offChain == s.core.offChain
      && s'.core.records[t] == s.core.records[t].(status := WalkStatus(s.core.records[t], b, f, s.core.offChain.blocks))
  {
    AcceptOneTouches(disk, s.core, b, f, [t]);
  }

  lemma {:induction false} WalkAllLands(disk: Disk, s: State, ts: seq<Txid>, b: Block, f: Facts, t: Txid)
    requires t in s.core.records && t in ts && forall n :: disk(n)
    ensures var s' := WalkAll(disk, s, ts, b, f).state;
      && t in s'.core.records && s'.core.offChain == s.core.offChain
      && s'.core.records[t] == s.core.records[t].(status := WalkStatus(s.core.records[t], b, f, s.core.offChain.blocks))
    decreases |ts|
  {
    var s1 := WalkAccepted(disk, s, ts[0], b, f).state;
    if ts[0] == t {
      WalkAcceptedLands(disk, s, t, b, f);
      if t in ts[1..] {
        WalkAllLands(disk, s1, ts[1..], b, f, t);
      } else {
        WalkAllSkips(disk, s1, ts[1..], b, f, t);
      }
    } else {
      WalkAllSkips(disk, s, [ts[0]], b, f, t);
      assert [ts[0]][1..] == [];
      assert WalkAll(disk, s, [ts[0]], b, f).state == s1;
      WalkAllLands(disk, s1, ts[1..], b, f, t);
    }
  }

  lemma {:induction false} WalkBlocksSkips(disk: Disk, s: State, accepted: seq<WalkAcceptance>, t: Txid)
    requires t in s.core.records && forall j :: 0 <= j < |accepted| ==> t !in accepted[j].txids
    ensures var s' := WalkBlocks(disk, s, accepted).state;
      t in s'.core.records && s'.core.records[t] == s.core.records[t] && s'.core.offChain == s.core.offChain
    decreases |accepted|
  {
    if accepted != [] {
      WalkAllSkips(disk, s, accepted[0].txids, accepted[0].block, accepted[0].facts, t);
      WalkBlocksSkips(disk, WalkAll(disk, s, accepted[0].txids, accepted[0].block, accepted[0].facts).state, accepted[1..], t);
    }
  }

  lemma {:induction false} WalkBlocksLands(disk: Disk, s: State, accepted: seq<WalkAcceptance>, t: Txid, i: nat)
    requires t in s.core.records && (forall n :: disk(n)) && NamesOnce(Page([], accepted), t, i)
    ensures var s' := WalkBlocks(disk, s, accepted).state;
      && t in s'.core.records && s'.core.offChain == s.core.offChain
      && s'.core.records[t] == s.core.records[t].(status :=
           WalkStatus(s.core.records[t], accepted[i].block, accepted[i].facts, s.core.offChain.blocks))
    decreases |accepted|
  {
    var s1 := WalkAll(disk, s, accepted[0].txids, accepted[0].block, accepted[0].facts).state;
    if i == 0 {
      WalkAllLands(disk, s, accepted[0].txids, accepted[0].block, accepted[0].facts, t);
      WalkBlocksSkips(disk, s1, accepted[1..], t);
    } else {
      WalkAllSkips(disk, s, accepted[0].txids, accepted[0].block, accepted[0].facts, t);
      WalkBlocksLands(disk, s1, accepted[1..], t, i - 1);
    }
  }

  lemma RegisterLands(disk: Disk, s: State, t: Txid, now: nat, order: seq<Txid>)
    requires t !in s.core.records && forall n :: disk(n)
    ensures var d := Register(disk, s, t, Transport, now, order);
      && !d.failed && t in d.state.core.records && d.state.core.records[t] == NewRecord(Transport, now)
      && d.state.core.offChain == s.core.offChain
  {
  }

  /** The record a message watch starts with, every write landing. */
  function FirstStatus(d: Desk, t: Txid, now: nat): Status {
    if t !in d.memory.known then Submitted(now)
    else
      match Current(d.state, d.memory.known[t], now)
      case SeenAccepted(b, f, _) => Accepted(b, f.blue, f.ms)
      case SeenDisplaced(since, prior) => Displaced(since, prior)
  }

  lemma WatchLands(disk: Disk, d: Desk, t: Txid, now: nat, order: seq<Txid>)
    requires t !in d.state.core.records && forall n :: disk(n)
    ensures var s' := WatchDesk(disk, d, t, Transport, now, order).desk.state;
      && t in s'.core.records && s'.core.records[t] == Record(Transport, now, FirstStatus(d, t, now))
      && s'.core.offChain == d.state.core.offChain
  {
    RegisterLands(disk, d.state, t, now, order);
    if t in d.memory.known {
      var made := Register(disk, d.state, t, Transport, now, order).state;
      match Current(made, d.memory.known[t], now)
      case SeenAccepted(b, f, _) => AcceptOneTouches(disk, made.core, b, f, [t]);
      case SeenDisplaced(_, _) =>
    }
  }

  /** **A watch and a page commute exactly when the memory can carry the page's
      word and does not already hold another.** For a page naming `t` once, on a
      block still on the chain, with writes landing: watching `t` as a message
      before the page or after it makes the same record, accepted by that block,
      if and only if the memory still holds `t` after the page and held no
      clashing acceptance before it. */
  lemma WatchAndPageCommuteExactlyWhen(disk: Disk, d: Desk, page: Page, t: Txid, i: nat,
                                       now: nat, pageNow: nat, order1: seq<Txid>, order2: seq<Txid>)
    requires (forall n :: disk(n)) && MemoryValid(d.memory)
    requires t !in d.state.core.records && NamesOnce(page, t, i)
    requires page.accepted[i].block !in d.state.core.offChain.blocks
    ensures var a := page.accepted[i];
      var watchFirst := FoldWalk(disk, WatchDesk(disk, d, t, Transport, now, order1).desk, page, pageNow).desk.state;
      var pageFirst := WatchDesk(disk, FoldWalk(disk, d, page, pageNow).desk, t, Transport, now, order2).desk.state;
      var record := Record(Transport, now, Accepted(a.block, a.facts.blue, a.facts.ms));
      && t in watchFirst.core.records && t in pageFirst.core.records
      && ((watchFirst.core.records[t] == pageFirst.core.records[t] == record) <==>
            Survives(d.memory, page, d.state.core.offChain.blocks, pageNow, t) && !Clashes(d, t, a))
      && (watchFirst.core.records[t] == pageFirst.core.records[t] <==>
            Survives(d.memory, page, d.state.core.offChain.blocks, pageNow, t) && !Clashes(d, t, a))
  {
    var a := page.accepted[i];
    var offChain := d.state.core.offChain.blocks;
    WatchLands(disk, d, t, now, order1);
    var watched := WatchDesk(disk, d, t, Transport, now, order1).desk;
    WalkBlocksLands(disk, watched.state, page.accepted, t, i);
    WalkBlocksMoves(disk, d.state, page.accepted, t);
    var paged := FoldWalk(disk, d, page, pageNow).desk;
    WatchLands(disk, paged, t, now, order2);
    var displaced := DisplaceMemory(d.memory, page.removed, pageNow);
    assert displaced.known.Keys == d.memory.known.Keys;
    RecallPageSays(displaced, page.accepted, offChain, pageNow, t, i);
  }

  /** **A page's removals reach what only the memory holds.** Of a txid the page does not
      name, and the memory still carries, an acceptance by a block the page removes is
      remembered displaced from then on, and a later message watch starts displaced;
      any other word stays as it was. */
  lemma RemovalDisplacesMemory(disk: Disk, d: Desk, page: Page, now: nat, t: Txid, watchedAt: nat, order: seq<Txid>)
    requires MemoryValid(d.memory) && t in d.memory.known && (forall n :: disk(n)) && t !in d.state.core.records
    requires forall j :: 0 <= j < |page.accepted| ==> t !in page.accepted[j].txids
    requires Survives(d.memory, page, d.state.core.offChain.blocks, now, t)
    ensures var paged := FoldWalk(disk, d, page, now).desk; var seen := d.memory.known[t];
      var watched := WatchDesk(disk, paged, t, Transport, watchedAt, order).desk.state.core;
      && t in paged.memory.known && t in watched.records
      && (if seen.SeenAccepted? && seen.block in page.removed then
            && paged.memory.known[t] == SeenDisplaced(now, seen.block)
            && watched.records[t] == Record(Transport, watchedAt, Displaced(now, seen.block))
          else paged.memory.known[t] == seen)
  {
    var displaced := DisplaceMemory(d.memory, page.removed, now);
    assert displaced.known.Keys == d.memory.known.Keys;
    RecallPageSays(displaced, page.accepted, d.state.core.offChain.blocks, now, t, -1);
    WalkBlocksMoves(disk, d.state, page.accepted, t);
    WatchLands(disk, FoldWalk(disk, d, page, now).desk, t, watchedAt, order);
  }

  // ---- when the memory survives ----

  function Names(accepted: seq<WalkAcceptance>): nat
    decreases |accepted|
  {
    if accepted == [] then 0 else |accepted[0].txids| + Names(accepted[1..])
  }

  /** `t` is queued with room for `more` further names behind it. */
  predicate Roomy(m: Memory, t: Txid, more: int) {
    exists p :: 0 <= p < |m.order| && m.order[p] == t && p + MATCHED_MEMORY_CAPACITY - |m.order| >= more
  }

  lemma RememberRoomy(m: Memory, u: Txid, r: Remembered, t: Txid, more: int)
    requires MemoryValid(m) && more >= 1 && Roomy(m, t, more)
    ensures Roomy(Remember(m, u, r), t, more - 1)
  {
    var p :| 0 <= p < |m.order| && m.order[p] == t && p + MATCHED_MEMORY_CAPACITY - |m.order| >= more;
    var m' := Remember(m, u, r);
    if u in m.known || |m.order| < MATCHED_MEMORY_CAPACITY {
      assert m'.order[p] == t;
    } else {
      assert m'.order[p - 1] == t;
    }
  }

  lemma {:induction false} RememberAllRoomy(m: Memory, ts: seq<Txid>, r: Remembered, t: Txid, more: nat)
    requires MemoryValid(m) && Roomy(m, t, |ts| + more)
    ensures Roomy(RememberAll(m, ts, r), t, more)
    decreases |ts|
  {
    if ts != [] {
      RememberRoomy(m, ts[0], r, t, |ts| + more);
      RememberValid(m, ts[0], r);
      RememberAllRoomy(Remember(m, ts[0], r), ts[1..], r, t, more);
    }
  }

  lemma {:induction false} RememberAllStarts(m: Memory, ts: seq<Txid>, r: Remembered, t: Txid, more: nat)
    requires MemoryValid(m) && t in ts && t !in m.known && |ts| + more <= MATCHED_MEMORY_CAPACITY
    ensures Roomy(RememberAll(m, ts, r), t, more)
    decreases |ts|
  {
    var m1 := Remember(m, ts[0], r);
    RememberValid(m, ts[0], r);
    if ts[0] == t {
      assert m1.order[|m1.order| - 1] == t;
      RememberAllRoomy(m1, ts[1..], r, t, more);
    } else {
      RememberAllStarts(m1, ts[1..], r, t, more);
    }
  }

  lemma {:induction false} RecallPageRoomy(m: Memory, accepted: seq<WalkAcceptance>, offChain: set<Block>, now: nat, t: Txid)
    requires MemoryValid(m) && Roomy(m, t, Names(accepted))
    ensures t in RecallPage(m, accepted, offChain, now).known
    decreases |accepted|
  {
    if accepted != [] {
      var r := Said(accepted[0], offChain, now);
      RememberAllValid(m, accepted[0].txids, r);
      RememberAllRoomy(m, accepted[0].txids, r, t, Names(accepted[1..]));
      RecallPageRoomy(RememberAll(m, accepted[0].txids, r), accepted[1..], offChain, now, t);
    }
  }

  lemma {:induction false} RecallPageStarts(m: Memory, accepted: seq<WalkAcceptance>, offChain: set<Block>, now: nat, t: Txid, i: nat)
    requires MemoryValid(m) && t !in m.known && NamesOnce(Page([], accepted), t, i)
    requires Names(accepted) <= MATCHED_MEMORY_CAPACITY
    ensures t in RecallPage(m, accepted, offChain, now).known
    decreases |accepted|
  {
    var r := Said(accepted[0], offChain, now);
    var ts := accepted[0].txids;
    RememberAllValid(m, ts, r);
    if i == 0 {
      RememberAllStarts(m, ts, r, t, Names(accepted[1..]));
      RecallPageRoomy(RememberAll(m, ts, r), accepted[1..], offChain, now, t);
    } else {
      RememberAllSays(m, ts, r, t);
      RecallPageStarts(RememberAll(m, ts, r), accepted[1..], offChain, now, t, i - 1);
    }
  }

  /** A page of at most the memory's capacity in names never pushes out a txid it
      was the first to name. */
  lemma SurvivesAnOrdinaryPage(m: Memory, page: Page, offChain: set<Block>, now: nat, t: Txid, i: nat)
    requires MemoryValid(m) && t !in m.known && NamesOnce(page, t, i)
    requires Names(page.accepted) <= MATCHED_MEMORY_CAPACITY
    ensures Survives(m, page, offChain, now, t)
  {
    var displaced := DisplaceMemory(m, page.removed, now);
    assert displaced.known.Keys == m.known.Keys;
    RecallPageStarts(displaced, page.accepted, offChain, now, t, i);
  }

  /** A txid the memory already holds keeps its place in the queue, and survives any
      page with no more names than there is room behind it. */
  lemma KnownSurvivesWithRoom(m: Memory, page: Page, offChain: set<Block>, now: nat, t: Txid)
    requires MemoryValid(m) && t in m.known && Roomy(m, t, Names(page.accepted))
    ensures Survives(m, page, offChain, now, t)
  {
    var displaced := DisplaceMemory(m, page.removed, now);
    assert displaced.known.Keys == m.known.Keys;
    assert Roomy(displaced, t, Names(page.accepted));
    RecallPageRoomy(displaced, page.accepted, offChain, now, t);
  }

  // ---- one answer per sender lookup ----

  function Answers(events: seq<Event>, t: Txid): nat
    decreases |events|
  {
    if events == [] then 0
    else (if events[0].SenderResolvable? && events[0].txid == t then 1 else 0) + Answers(events[1..], t)
  }

  lemma {:induction false} AnswersSplit(a: seq<Event>, b: seq<Event>, t: Txid)
    ensures Answers(a + b, t) == Answers(a, t) + Answers(b, t)
    decreases |a|
  {
    if a == [] {
      assert a + b == b;
    } else {
      assert (a + b)[1..] == a[1..] + b;
      AnswersSplit(a[1..], b, t);
    }
  }

  lemma {:induction false} NoAnswerAmong(events: seq<Event>, t: Txid)
    requires forall e :: e in events ==> !e.SenderResolvable?
    ensures Answers(events, t) == 0
    decreases |events|
  {
    if events != [] {
      assert forall e :: e in events[1..] ==> e in events;
      NoAnswerAmong(events[1..], t);
    }
  }

  lemma {:induction false} TakeFirstIs(s: seq<Txid>, t: Txid)
    requires NoDups(s)
    ensures forall u :: u in TakeFirst(s, t) <==> u in s && u != t
    ensures NoDups(TakeFirst(s, t))
    decreases |s|
  {
    if s != [] {
      assert s[0] !in s[1..];
      assert forall u :: u in s <==> u == s[0] || u in s[1..];
      TakeFirstIs(s[1..], t);
    }
  }

  lemma {:induction false} ResolveAnswers(interest: seq<Txid>, ts: seq<Txid>, daa: nat, t: Txid)
    requires NoDups(interest)
    ensures var (left, events) := Resolve(interest, ts, daa);
      && NoDups(left) && (t in left <==> t in interest && t !in ts)
      && Answers(events, t) == (if t in interest && t in ts then 1 else 0)
    decreases |ts|
  {
    if ts != [] {
      if ts[0] in interest {
        TakeFirstIs(interest, ts[0]);
        ResolveAnswers(TakeFirst(interest, ts[0]), ts[1..], daa, t);
        AnswersSplit([SenderResolvable(ts[0], daa)], Resolve(TakeFirst(interest, ts[0]), ts[1..], daa).1, t);
        assert [SenderResolvable(ts[0], daa)][1..] == [];
      } else {
        ResolveAnswers(interest, ts[1..], daa, t);
      }
    }
  }

  lemma {:induction false} ResolvePageAnswers(interest: seq<Txid>, accepted: seq<WalkAcceptance>, offChain: set<Block>, t: Txid, i: int)
    requires NoDups(interest) && -1 <= i < |accepted|
    requires forall j :: 0 <= j < |accepted| ==> (t in accepted[j].txids <==> j == i)
    requires i >= 0 ==> accepted[i].block !in offChain
    ensures var (left, events) := ResolvePage(interest, accepted, offChain);
      && NoDups(left) && (t in left <==> t in interest && i < 0)
      && Answers(events, t) == (if t in interest && i >= 0 then 1 else 0)
    decreases |accepted|
  {
    if accepted != [] {
      ResolveAnswers(interest, accepted[0].txids, accepted[0].daa, t);
      var (left, events) := if accepted[0].block in offChain then (interest, [])
                            else Resolve(interest, accepted[0].txids, accepted[0].daa);
      ResolvePageAnswers(left, accepted[1..], offChain, t, if i > 0 then i - 1 else -1);
      AnswersSplit(events, ResolvePage(left, accepted[1..], offChain).1, t);
    }
  }

  /** A lookup either answers at once or queues itself, once. */
  lemma NoteAnswers(d: Desk, t: Txid)
    requires NoDups(d.interest) && t !in d.interest
    ensures var n := NoteInterest(d, t);
      && NoDups(n.desk.interest)
      && n.desk.state == d.state && n.desk.memory == d.memory
      && Answers(n.events, t) == (if KnownOnChain(d, t) then 1 else 0)
      && (t in n.desk.interest <==> !KnownOnChain(d, t))
  {
    var n := NoteInterest(d, t);
    if KnownOnChain(d, t) {
      assert n.events[1..] == [];
    } else {
      var room := if |d.interest| >= SENDER_INTEREST_CAPACITY then d.interest[1..] else d.interest;
      assert n.desk.interest == room + [t];
      assert (room + [t])[|room|] == t;
    }
  }

  /** The queue of lookups never outgrows its bound, and only its oldest ever leaves to
      make room. */
  lemma NoteKeepsBound(d: Desk, t: Txid, u: Txid)
    requires NoDups(d.interest) && |d.interest| <= SENDER_INTEREST_CAPACITY
    ensures var left := NoteInterest(d, t).desk.interest;
      && NoDups(left) && |left| <= SENDER_INTEREST_CAPACITY
      && (u != t && u in d.interest && u !in left ==>
            u == d.interest[0] && |d.interest| == SENDER_INTEREST_CAPACITY && t in left && !KnownOnChain(d, t))
  {
    var room := if |d.interest| >= SENDER_INTEREST_CAPACITY then d.interest[1..] else d.interest;
    assert d.interest != [] ==> d.interest == [d.interest[0]] + d.interest[1..];
    if t !in d.interest {
      assert forall x :: x in room + [t] <==> x in room || x == t;
    }
  }

  lemma {:induction false} ResolveShrinks(interest: seq<Txid>, ts: seq<Txid>, daa: nat)
    requires NoDups(interest)
    ensures NoDups(Resolve(interest, ts, daa).0) && |Resolve(interest, ts, daa).0| <= |interest|
    decreases |ts|
  {
    if ts != [] {
      if ts[0] in interest {
        TakeFirstIs(interest, ts[0]);
        TakeFirstShrinks(interest, ts[0]);
        ResolveShrinks(TakeFirst(interest, ts[0]), ts[1..], daa);
      } else {
        ResolveShrinks(interest, ts[1..], daa);
      }
    }
  }

  lemma {:induction false} TakeFirstShrinks(s: seq<Txid>, t: Txid)
    ensures |TakeFirst(s, t)| <= |s|
    decreases |s|
  {
    if s != [] {
      TakeFirstShrinks(s[1..], t);
    }
  }

  lemma {:induction false} ResolvePageShrinks(interest: seq<Txid>, accepted: seq<WalkAcceptance>, offChain: set<Block>)
    requires NoDups(interest)
    ensures NoDups(ResolvePage(interest, accepted, offChain).0) && |ResolvePage(interest, accepted, offChain).0| <= |interest|
    decreases |accepted|
  {
    if accepted != [] {
      ResolveShrinks(interest, accepted[0].txids, accepted[0].daa);
      var left := if accepted[0].block in offChain then interest else Resolve(interest, accepted[0].txids, accepted[0].daa).0;
      ResolvePageShrinks(left, accepted[1..], offChain);
    }
  }

  /** The page's first section leaves `t` known on the chain and says nothing of
      senders. */
  lemma FoldPageMakesKnown(disk: Disk, d: Desk, page: Page, now: nat, t: Txid, i: nat)
    requires MemoryValid(d.memory) && NamesOnce(page, t, i)
    requires page.accepted[i].block !in d.state.core.offChain.blocks
    requires Survives(d.memory, page, d.state.core.offChain.blocks, now, t)
    ensures var first := FoldPage(disk, d, page, now);
      && KnownOnChain(first.desk, t) && first.desk.memory.known[t].daa == page.accepted[i].daa
      && first.desk.interest == d.interest && first.desk.state.core.offChain == d.state.core.offChain
      && Answers(first.events, t) == 0
  {
    WalkBlocksMoves(disk, d.state, page.accepted, t);
    var displaced := DisplaceMemory(d.memory, page.removed, now);
    assert displaced.known.Keys == d.memory.known.Keys;
    RecallPageSays(displaced, page.accepted, d.state.core.offChain.blocks, now, t, i);
    NoAnswerAmong(FoldPage(disk, d, page, now).events, t);
  }

  /** Taking the lookups of a page's blocks in two goes is taking them in one. */
  lemma {:induction false} ResolvePageSplit(interest: seq<Txid>, a: seq<WalkAcceptance>, b: seq<WalkAcceptance>, offChain: set<Block>)
    ensures var (left, first) := ResolvePage(interest, a, offChain); var (last, more) := ResolvePage(left, b, offChain);
      ResolvePage(interest, a + b, offChain) == (last, first + more)
    decreases |a|
  {
    if a == [] {
      assert a + b == b;
      assert [] + ResolvePage(interest, b, offChain).1 == ResolvePage(interest, b, offChain).1;
    } else {
      assert (a + b)[0] == a[0] && (a + b)[1..] == a[1..] + b;
      var (left, events) := if a[0].block in offChain then (interest, []) else Resolve(interest, a[0].txids, a[0].daa);
      ResolvePageSplit(left, a[1..], b, offChain);
      var (mid, more) := ResolvePage(left, a[1..], offChain);
      assert events + (more + ResolvePage(mid, b, offChain).1) == events + more + ResolvePage(mid, b, offChain).1;
    }
  }

  /** The blocks that are left of a page naming `t` once. */
  lemma ResolvePart(interest: seq<Txid>, page: Page, from: nat, to: nat, offChain: set<Block>, t: Txid, i: nat)
    requires NoDups(interest) && t !in interest && from <= to <= |page.accepted|
    requires NamesOnce(page, t, i) && page.accepted[i].block !in offChain
    ensures var (left, events) := ResolvePage(interest, page.accepted[from..to], offChain);
      NoDups(left) && t !in left && Answers(events, t) == 0
  {
    ResolvePageAnswers(interest, page.accepted[from..to], offChain, t, if from <= i < to then i - from else -1);
  }

  /** A lookup that lands after the page's first section and after the lookups of its
      first `k` blocks were taken. */
  lemma AnsweredBetween(disk: Disk, d: Desk, page: Page, now: nat, t: Txid, i: nat, k: nat)
    requires MemoryValid(d.memory) && NoDups(d.interest) && t !in d.interest && k <= |page.accepted|
    requires NamesOnce(page, t, i) && page.accepted[i].block !in d.state.core.offChain.blocks
    requires Survives(d.memory, page, d.state.core.offChain.blocks, now, t)
    ensures var offChain := d.state.core.offChain.blocks;
      var m1 := FoldPage(disk, d, page, now);
      var m2 := ResolveDesk(m1.desk, page.accepted[..k], offChain);
      var m3 := NoteInterest(m2.desk, t);
      var m4 := ResolveDesk(m3.desk, page.accepted[k..], offChain);
      Answers(m1.events + m2.events + m3.events + m4.events, t) == 1 && t !in m4.desk.interest
  {
    var offChain := d.state.core.offChain.blocks;
    var a, b := page.accepted[..k], page.accepted[k..];
    assert a == page.accepted[0..k] && b == page.accepted[k..|page.accepted|];
    FoldPageMakesKnown(disk, d, page, now, t, i);
    var m1 := FoldPage(disk, d, page, now);
    ResolvePart(m1.desk.interest, page, 0, k, offChain, t, i);
    var m2 := ResolveDesk(m1.desk, a, offChain);
    NoteAnswers(m2.desk, t);
    var m3 := NoteInterest(m2.desk, t);
    ResolvePart(m3.desk.interest, page, k, |page.accepted|, offChain, t, i);
    var m4 := ResolveDesk(m3.desk, b, offChain);
    AnswersOfFour(m1.events, m2.events, m3.events, m4.events, t);
  }

  lemma AnswersOfFour(a: seq<Event>, b: seq<Event>, c: seq<Event>, d: seq<Event>, t: Txid)
    ensures Answers(a + b + c + d, t) == Answers(a, t) + Answers(b, t) + Answers(c, t) + Answers(d, t)
  {
    AnswersSplit(a + b + c, d, t);
    AnswersSplit(a + b, c, t);
    AnswersSplit(a, b, t);
  }

  lemma AnsweredBefore(disk: Disk, d: Desk, page: Page, now: nat, t: Txid, i: nat)
    requires MemoryValid(d.memory) && NoDups(d.interest) && t !in d.interest
    requires NamesOnce(page, t, i) && page.accepted[i].block !in d.state.core.offChain.blocks
    requires Survives(d.memory, page, d.state.core.offChain.blocks, now, t)
    ensures var n := NoteInterest(d, t); var f := FoldWalk(disk, n.desk, page, now);
      Answers(n.events + f.events, t) == 1 && t !in f.desk.interest
  {
    var n := NoteInterest(d, t);
    NoteAnswers(d, t);
    FoldPageMakesKnown(disk, n.desk, page, now, t, i);
    var f1 := FoldPage(disk, n.desk, page, now);
    ResolvePageAnswers(f1.desk.interest, page.accepted, d.state.core.offChain.blocks, t, i);
    var f2 := ResolveDesk(f1.desk, page.accepted, d.state.core.offChain.blocks);
    AnswersSplit(n.events, f1.events + f2.events, t);
    AnswersSplit(f1.events, f2.events, t);
  }

  /** **One answer, wherever the lookup lands.** A page is one section that folds it
      and then one more for each of its blocks still on the chain, taking that
      block's lookups. For a page naming `t` once, on a block still on the chain, that
      the memory can carry: whether the lookup's one section runs before them all,
      after them all, or after the first and any number `k` of the others, and with
      any writes failing, exactly one SenderResolvable names `t` and the lookup is not
      left queued. */
  lemma SenderAnsweredOnce(disk: Disk, d: Desk, page: Page, now: nat, t: Txid, i: nat, k: nat)
    requires MemoryValid(d.memory) && NoDups(d.interest) && t !in d.interest && k <= |page.accepted|
    requires NamesOnce(page, t, i) && page.accepted[i].block !in d.state.core.offChain.blocks
    requires Survives(d.memory, page, d.state.core.offChain.blocks, now, t)
    ensures var n := NoteInterest(d, t); var f := FoldWalk(disk, n.desk, page, now);
      Answers(n.events + f.events, t) == 1 && t !in f.desk.interest
    ensures var offChain := d.state.core.offChain.blocks;
      var m1 := FoldPage(disk, d, page, now);
      var m2 := ResolveDesk(m1.desk, page.accepted[..k], offChain);
      var m3 := NoteInterest(m2.desk, t);
      var m4 := ResolveDesk(m3.desk, page.accepted[k..], offChain);
      Answers(m1.events + m2.events + m3.events + m4.events, t) == 1 && t !in m4.desk.interest
    ensures var offChain := d.state.core.offChain.blocks;
      var m1 := FoldPage(disk, d, page, now);
      var m2 := ResolveDesk(m1.desk, page.accepted[..k], offChain);
      var rest := ResolveDesk(m2.desk, page.accepted[k..], offChain);
      DeskDid(rest.desk, m1.events + (m2.events + rest.events)) == FoldWalk(disk, d, page, now)
  {
    AnsweredBefore(disk, d, page, now, t, i);
    AnsweredBetween(disk, d, page, now, t, i, k);
    assert page.accepted == page.accepted[..k] + page.accepted[k..];
    ResolvePageSplit(d.interest, page.accepted[..k], page.accepted[k..], d.state.core.offChain.blocks);
  }
}

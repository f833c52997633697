/** The acceptance tracker's durable half (`rust/chain/src/acceptance.rs`): the
    watch records, the accepting-block index that follows them, and what folding
    a chain batch does to both when any write may fail. */
module WatchLog {
  import opened Bytes

  /** Transaction ids and block hashes, each standing for its 32 bytes. */
  type Txid = nat
  type Block = nat

  datatype Source = Send | Transport

  datatype Status =
    | Submitted(at: nat)
    | Accepted(block: Block, blue: nat, ms: nat)
    | Displaced(since: nat, prior: Block)
    | Finalized(block: Block, blue: nat, ms: nat)

  datatype Record = Record(source: Source, watched: nat, status: Status)

  type Records = map<Txid, Record>
  type Index = map<Block, seq<Txid>>

  /** An accepting block's blue score and own timestamp, or the stand-ins a fold
      uses when the node could not serve the block. */
  datatype Facts = Facts(blue: nat, ms: nat)

  /** The chain blocks the live stream removed and has not re-added, oldest first. */
  datatype OffChain = OffChain(order: seq<Block>, blocks: set<Block>)

  const OFF_CHAIN_CAPACITY: nat := 4096

  /** `writes` counts the writes asked of the log so far. */
  datatype Core = Core(records: Records, index: Index, offChain: OffChain, writes: nat)

  /** Whether the n-th write lands: every pattern of failures is one of these. */
  type Disk = nat -> bool

  datatype Wrote = Wrote(core: Core, ok: bool)

  // ---- sequences as the program's lists ----

  predicate NoDups<T(==)>(s: seq<T>) {
    forall i, j :: 0 <= i < j < |s| ==> s[i] != s[j]
  }

  /** `retain(|x| x != gone)`. */
  function Without<T(==,!new)>(s: seq<T>, gone: T): (r: seq<T>)
    ensures forall x :: x in r <==> x in s && x != gone
    ensures NoDups(s) ==> NoDups(r)
    ensures |r| <= |s|
  {
    if s == [] then []
    else
      var rest := Without(s[1..], gone);
      if s[0] == gone then rest else (assert NoDups(s) ==> s[0] !in s[1..]; [s[0]] + rest)
  }

  // ---- the log's own writes ----

  /** A re-report of the held record writes nothing and succeeds. */
  function Put(disk: Disk, c: Core, t: Txid, r: Record): Wrote {
    if t in c.records && c.records[t] == r then Wrote(c, true)
    else if disk(c.writes) then Wrote(c.(records := c.records[t := r], writes := c.writes + 1), true)
    else Wrote(c.(writes := c.writes + 1), false)
  }

  function Delete(disk: Disk, c: Core, t: Txid): Wrote {
    if t !in c.records then Wrote(c, true)
    else if disk(c.writes) then Wrote(c.(records := c.records - {t}, writes := c.writes + 1), true)
    else Wrote(c.(writes := c.writes + 1), false)
  }

  /** A record to write, or to remove. */
  type Change = (Txid, Option<Record>)

  predicate Due(c: Core, change: Change) {
    if change.1.Some? then change.0 !in c.records || c.records[change.0] != change.1.value else change.0 in c.records
  }

  function Write(disk: Disk, c: Core, change: Change): Wrote {
    if change.1.Some? then Put(disk, c, change.0, change.1.value) else Delete(disk, c, change.0)
  }

  /** Changes written one after another, and which of them landed. */
  function WriteEach(disk: Disk, c: Core, changes: seq<Change>): seq<bool>
    decreases |changes|
  {
    if changes == [] then []
    else
      var w := Write(disk, c, changes[0]);
      [w.ok] + WriteEach(disk, w.core, changes[1..])
  }

  /** **Every pattern of failures is some disk's:** each change that is due asks the disk
      afresh, so they land or fail independently. */
  lemma {:induction false} AnyPatternOfFailures(disk: Disk, c: Core, changes: seq<Change>)
    requires forall i, j :: 0 <= i < j < |changes| ==> changes[i].0 != changes[j].0
    requires forall i :: 0 <= i < |changes| ==> Due(c, changes[i])
    ensures WriteEach(disk, c, changes) == seq(|changes|, i requires 0 <= i < |changes| => disk(c.writes + i))
    decreases |changes|
  {
    if changes != [] {
      AnyPatternOfFailures(disk, Write(disk, c, changes[0]).core, changes[1..]);
    }
  }

  // ---- the accepting-block index ----

  predicate Listed(index: Index, b: Block, t: Txid) {
    b in index && t in index[b]
  }

  predicate AcceptedBy(records: Records, t: Txid, b: Block) {
    t in records && records[t].status.Accepted? && records[t].status.block == b
  }

  /** A list left empty leaves the index. */
  function SetList(index: Index, b: Block, ts: seq<Txid>): Index {
    if ts == [] then index - {b} else index[b := ts]
  }

  function Unlist(index: Index, b: Block, t: Txid): Index {
    if b in index then SetList(index, b, Without(index[b], t)) else index
  }

  function Enlist(index: Index, b: Block, t: Txid): Index {
    index[b := (if b in index then index[b] else []) + [t]]
  }

  ghost predicate TidyIndex(index: Index) {
    forall b :: b in index ==> index[b] != [] && NoDups(index[b])
  }

  /** What the index lists is accepted by the block it is listed under, once,
      and no list is empty. */
  ghost predicate IndexSound(c: Core) {
    TidyIndex(c.index) && forall b, t :: Listed(c.index, b, t) ==> AcceptedBy(c.records, t, b)
  }

  /** The index lists `t` if it is accepted. */
  ghost predicate Lists(c: Core, t: Txid) {
    forall b :: AcceptedBy(c.records, t, b) ==> Listed(c.index, b, t)
  }

  ghost predicate IndexComplete(c: Core) {
    forall b, t :: AcceptedBy(c.records, t, b) ==> Listed(c.index, b, t)
  }

  /** A txid is listed under a block, once and in no empty list, exactly when its
      record is Accepted by that block. */
  ghost predicate IndexExact(c: Core) {
    IndexSound(c) && IndexComplete(c)
  }

  // ---- acceptances ----

  datatype Acted = Acted(core: Core, moved: bool, failed: bool)

  /** One txid's acceptance: the write first, then the index. */
  function AcceptOne(disk: Disk, c: Core, b: Block, f: Facts, t: Txid): Acted {
    if t !in c.records || AcceptedBy(c.records, t, b) then Acted(c, false, false)
    else
      var r := c.records[t];
      var w := Put(disk, c, t, r.(status := Accepted(b, f.blue, f.ms)));
      if !w.ok then Acted(w.core, false, true)
      else
        var left := if r.status.Accepted? then Unlist(w.core.index, r.status.block, t) else w.core.index;
        Acted(w.core.(index := Enlist(left, b, t)), true, false)
  }

  /** A fold over several txids: who moved, in order, and whether a write failed. */
  datatype Folded = Folded(core: Core, moved: seq<Txid>, failed: bool)

  function Then(first: Folded, t: Txid, a: Acted): Folded {
    Folded(a.core, if a.moved then first.moved + [t] else first.moved, first.failed || a.failed)
  }

  function AcceptAll(disk: Disk, done: Folded, b: Block, f: Facts, ts: seq<Txid>): Folded
    decreases |ts|
  {
    if ts == [] then done
    else AcceptAll(disk, Then(done, ts[0], AcceptOne(disk, done.core, b, f, ts[0])), b, f, ts[1..])
  }

  // ---- removals ----

  /** Displace, one after another, the txids a removed block had accepted; the
      ones whose write fails are kept. */
  datatype Displacing = Displacing(fold: Folded, kept: seq<Txid>)

  function DisplaceOne(disk: Disk, d: Displacing, b: Block, t: Txid, now: nat): Displacing {
    var c := d.fold.core;
    if t !in c.records then d
    else
      var w := Put(disk, c, t, c.records[t].(status := Displaced(now, b)));
      Displacing(Then(d.fold, t, Acted(w.core, w.ok, !w.ok)), if w.ok then d.kept else d.kept + [t])
  }

  function DisplaceAll(disk: Disk, d: Displacing, b: Block, ts: seq<Txid>, now: nat): Displacing
    decreases |ts|
  {
    if ts == [] then d else DisplaceAll(disk, DisplaceOne(disk, d, b, ts[0], now), b, ts[1..], now)
  }

  function Removed(o: OffChain, b: Block): OffChain {
    if b in o.blocks then o
    else
      var order := o.order + [b];
      if |order| > OFF_CHAIN_CAPACITY then OffChain(order[1..], o.blocks + {b} - {order[0]})
      else OffChain(order, o.blocks + {b})
  }

  function Added(o: OffChain, b: Block): OffChain {
    if b in o.blocks then OffChain(Without(o.order, b), o.blocks - {b}) else o
  }

  function AddedAll(o: OffChain, bs: seq<Block>): OffChain
    decreases |bs|
  {
    if bs == [] then o else AddedAll(Added(o, bs[0]), bs[1..])
  }

  function RemoveBlock(disk: Disk, done: Folded, b: Block, now: nat): Folded {
    var c := done.core.(offChain := Removed(done.core.offChain, b));
    if b !in c.index then done.(core := c)
    else
      var d := DisplaceAll(disk, Displacing(done.(core := c), []), b, c.index[b], now);
      d.fold.(core := d.fold.core.(index := SetList(d.fold.core.index, b, d.kept)))
  }

  function RemoveAll(disk: Disk, done: Folded, bs: seq<Block>, now: nat): Folded
    decreases |bs|
  {
    if bs == [] then done else RemoveAll(disk, RemoveBlock(disk, done, bs[0], now), bs[1..], now)
  }

  function From(c: Core): Folded {
    Folded(c, [], false)
  }

  // ---- finalizing, registering, dropping ----

  function FinalizeOne(disk: Disk, c: Core, t: Txid): Wrote {
    if t !in c.records || !c.records[t].status.Accepted? then Wrote(c, true)
    else
      var s := c.records[t].status;
      var w := Put(disk, c, t, c.records[t].(status := Finalized(s.block, s.blue, s.ms)));
      if w.ok then Wrote(w.core.(index := Unlist(w.core.index, s.block, t)), true) else w
  }

  /** Drop a watch: it leaves the index first, its record second. */
  function DropCore(disk: Disk, c: Core, t: Txid): Wrote {
    Delete(disk, if t in c.records && c.records[t].status.Accepted?
                 then c.(index := Unlist(c.index, c.records[t].status.block, t)) else c, t)
  }

  // ---- what every step keeps ----

  lemma ReindexExact(c: Core, c': Core, t: Txid, from: Option<Block>)
    requires IndexExact(c)
    requires t in c.records && t in c'.records
    requires forall u :: u != t ==> (u in c'.records <==> u in c.records)
                                    && (u in c.records ==> c'.records[u] == c.records[u])
    requires from == if c.records[t].status.Accepted? then Some(c.records[t].status.block) else None
    requires var left := if from.Some? then Unlist(c.index, from.value, t) else c.index;
      c'.index == if c'.records[t].status.Accepted? then Enlist(left, c'.records[t].status.block, t) else left
    ensures IndexExact(c')
  {
    var left := if from.Some? then Unlist(c.index, from.value, t) else c.index;
    forall b
      ensures !Listed(left, b, t)
    {
      assert AcceptedBy(c.records, t, b) <==> Listed(c.index, b, t);
    }
    forall b, u | u != t
      ensures Listed(left, b, u) <==> Listed(c.index, b, u)
    {
    }
    forall b, u
      ensures Listed(c'.index, b, u) <==> AcceptedBy(c'.records, u, b)
    {
      assert AcceptedBy(c.records, u, b) <==> Listed(c.index, b, u);
    }
    forall b | b in c'.index
      ensures c'.index[b] != [] && NoDups(c'.index[b])
    {
      assert b in left ==> !Listed(left, b, t);
    }
  }

  lemma AcceptOneExact(disk: Disk, c: Core, b: Block, f: Facts, t: Txid)
    requires IndexExact(c)
    ensures IndexExact(AcceptOne(disk, c, b, f, t).core)
  {
    var a := AcceptOne(disk, c, b, f, t);
    if a.moved {
      var s := c.records[t].status;
      ReindexExact(c, a.core, t, if s.Accepted? then Some(s.block) else None);
    }
  }

  lemma {:induction false} AcceptAllExact(disk: Disk, done: Folded, b: Block, f: Facts, ts: seq<Txid>)
    requires IndexExact(done.core)
    ensures IndexExact(AcceptAll(disk, done, b, f, ts).core)
    decreases |ts|
  {
    if ts != [] {
      AcceptOneExact(disk, done.core, b, f, ts[0]);
      AcceptAllExact(disk, Then(done, ts[0], AcceptOne(disk, done.core, b, f, ts[0])), b, f, ts[1..]);
    }
  }

  /** Between two states of one removal: everyone still to come is untouched, the
      kept are untouched, and the rest are displaced. */
  ghost predicate Midway(c: Core, d: Displacing, b: Block, seen: seq<Txid>, now: nat) {
    var c' := d.fold.core;
    && c'.index == c.index && c'.offChain == c.offChain && c'.records.Keys == c.records.Keys
    && NoDups(d.kept) && (forall t :: t in d.kept ==> t in seen)
    && (forall t :: t in c.records && (t !in seen || t in d.kept) ==> c'.records[t] == c.records[t])
    && (forall t :: t in c.records && t in seen && t !in d.kept ==>
          c'.records[t] == c.records[t].(status := Displaced(now, b)))
  }

  lemma DisplaceOneMidway(disk: Disk, c: Core, d: Displacing, b: Block, seen: seq<Txid>, t: Txid, now: nat)
    requires Midway(c, d, b, seen, now) && t !in seen && AcceptedBy(c.records, t, b)
    ensures var d1 := DisplaceOne(disk, d, b, t, now);
      Midway(c, d1, b, seen + [t], now)
      && |d1.kept| >= |d.kept| && d1.fold.failed == (d.fold.failed || |d1.kept| > |d.kept|)
  {
    assert forall u :: u in seen + [t] <==> u in seen || u == t;
  }

  lemma {:induction false} DisplaceAllMidway(disk: Disk, c: Core, d: Displacing, b: Block, seen: seq<Txid>, ts: seq<Txid>, now: nat)
    requires Midway(c, d, b, seen, now) && NoDups(seen + ts)
    requires forall t :: t in ts ==> AcceptedBy(c.records, t, b)
    ensures Midway(c, DisplaceAll(disk, d, b, ts, now), b, seen + ts, now)
    ensures var d' := DisplaceAll(disk, d, b, ts, now);
      d'.fold.failed == (d.fold.failed || |d'.kept| > |d.kept|) && |d'.kept| >= |d.kept|
    decreases |ts|
  {
    if ts == [] {
      assert seen + ts == seen;
    } else {
      var t := ts[0];
      assert (seen + ts)[|seen|] == t;
      assert forall i :: 0 <= i < |seen| ==> (seen + ts)[i] == seen[i];
      assert seen + [t] + ts[1..] == seen + ts;
      DisplaceOneMidway(disk, c, d, b, seen, t, now);
      DisplaceAllMidway(disk, c, DisplaceOne(disk, d, b, t, now), b, seen + [t], ts[1..], now);
    }
  }

  /** A removal displaces only what its block had accepted and writes nothing else;
      what it displaces or keeps stays rightly listed. */
  lemma RemoveBlockOf(disk: Disk, done: Folded, b: Block, now: nat, t: Txid)
    requires IndexSound(done.core)
    ensures var c := done.core; var out := RemoveBlock(disk, done, b, now); var c' := out.core;
      && IndexSound(c') && c'.records.Keys == c.records.Keys && c'.offChain == Removed(c.offChain, b)
      && (!out.failed ==> !done.failed)
      && (t in c.records ==>
            || c'.records[t] == c.records[t]
            || (AcceptedBy(c.records, t, b) && c'.records[t] == c.records[t].(status := Displaced(now, b))))
      && (Lists(c, t) ==> Lists(c', t) && (!out.failed ==> !AcceptedBy(c'.records, t, b)))
  {
    var c := done.core.(offChain := Removed(done.core.offChain, b));
    var out := RemoveBlock(disk, done, b, now);
    var c' := out.core;
    if b in c.index {
      var ts := c.index[b];
      assert forall u :: u in ts ==> Listed(c.index, b, u);
      assert [] + ts == ts;
      DisplaceAllMidway(disk, c, Displacing(done.(core := c), []), b, [], ts, now);
      var d := DisplaceAll(disk, Displacing(done.(core := c), []), b, ts, now);
      forall b', u
        ensures Listed(c'.index, b', u) <==> if b' == b then u in d.kept else Listed(c.index, b', u)
      {
      }
      assert forall b', u :: Listed(c.index, b', u) ==> AcceptedBy(c.records, u, b');
      if Lists(done.core, t) {
        assert AcceptedBy(c.records, t, b) ==> Listed(done.core.index, b, t);
        forall b' | AcceptedBy(c'.records, t, b')
          ensures Listed(c'.index, b', t)
        {
          assert AcceptedBy(done.core.records, t, b') ==> Listed(done.core.index, b', t);
        }
      }
    }
  }

  lemma RemoveBlockSteps(disk: Disk, done: Folded, b: Block, now: nat)
    requires IndexExact(done.core)
    ensures var c := done.core; var out := RemoveBlock(disk, done, b, now); var c' := out.core;
      && IndexExact(c') && c'.records.Keys == c.records.Keys
      && c'.offChain == Removed(c.offChain, b)
      && (forall t :: t in c.records ==>
            || c'.records[t] == c.records[t]
            || (AcceptedBy(c.records, t, b) && c'.records[t] == c.records[t].(status := Displaced(now, b))))
      && (!out.failed ==> !done.failed && forall t :: !AcceptedBy(c'.records, t, b))
  {
    var c := done.core;
    var out := RemoveBlock(disk, done, b, now);
    RemoveBlockOf(disk, done, b, now, 0);
    forall t
      ensures Lists(out.core, t)
      ensures t in c.records ==>
        || out.core.records[t] == c.records[t]
        || (AcceptedBy(c.records, t, b) && out.core.records[t] == c.records[t].(status := Displaced(now, b)))
      ensures !out.failed ==> !AcceptedBy(out.core.records, t, b)
    {
      assert Lists(c, t);
      RemoveBlockOf(disk, done, b, now, t);
    }
    forall u, t | AcceptedBy(out.core.records, t, u)
      ensures Listed(out.core.index, u, t)
    {
      assert Lists(out.core, t);
    }
  }

  lemma {:induction false} RemoveAllExact(disk: Disk, done: Folded, bs: seq<Block>, now: nat)
    requires IndexExact(done.core)
    ensures IndexExact(RemoveAll(disk, done, bs, now).core)
    decreases |bs|
  {
    if bs != [] {
      RemoveBlockSteps(disk, done, bs[0], now);
      RemoveAllExact(disk, RemoveBlock(disk, done, bs[0], now), bs[1..], now);
    }
  }

  lemma FinalizeOneExact(disk: Disk, c: Core, t: Txid)
    requires IndexExact(c)
    ensures IndexExact(FinalizeOne(disk, c, t).core)
  {
    var w := FinalizeOne(disk, c, t);
    if t in c.records && c.records[t].status.Accepted? && w.ok {
      ReindexExact(c, w.core, t, Some(c.records[t].status.block));
    }
  }

  /** **A drop keeps the index exact exactly when its write lands** (or there was
      no acceptance to unlist): the entry leaves before the record does, so a
      failed write leaves an Accepted record that no removal can reach. It is
      never unsound. */
  lemma DropExactWhen(disk: Disk, c: Core, t: Txid)
    requires IndexExact(c)
    ensures IndexSound(DropCore(disk, c, t).core)
    ensures IndexExact(DropCore(disk, c, t).core) <==>
      DropCore(disk, c, t).ok || !(t in c.records && c.records[t].status.Accepted?)
  {
    var c' := DropCore(disk, c, t).core;
    var accepted := t in c.records && c.records[t].status.Accepted?;
    forall b, u
      ensures Listed(c'.index, b, u) <==> Listed(c.index, b, u) && !(accepted && u == t)
    {
      assert AcceptedBy(c.records, u, b) <==> Listed(c.index, b, u);
    }
    forall b, u
      ensures Listed(c'.index, b, u) ==> AcceptedBy(c'.records, u, b)
      ensures AcceptedBy(c'.records, u, b) && !(accepted && u == t) ==> Listed(c'.index, b, u)
    {
      assert AcceptedBy(c.records, u, b) <==> Listed(c.index, b, u);
    }
    if accepted && !DropCore(disk, c, t).ok {
      assert AcceptedBy(c'.records, t, c.records[t].status.block);
    }
  }

  /** With the index exact, removing any block that is not the one a txid is
      accepted by leaves that txid's record alone: a stale earlier block never
      displaces a re-accepted txid. */
  lemma StaleRemovalDisplacesNothing(disk: Disk, c: Core, b: Block, now: nat, t: Txid)
    requires IndexExact(c) && t in c.records && !AcceptedBy(c.records, t, b)
    ensures t in RemoveBlock(disk, From(c), b, now).core.records
    ensures RemoveBlock(disk, From(c), b, now).core.records[t] == c.records[t]
  {
    RemoveBlockSteps(disk, From(c), b, now);
  }

  // ---- the off-chain memory ----

  ghost predicate OffChainValid(o: OffChain) {
    && NoDups(o.order) && |o.order| <= OFF_CHAIN_CAPACITY
    && forall b :: b in o.order <==> b in o.blocks
  }

  /** Queue and set always agree and stay within capacity; the block just removed
      is always held. */
  lemma RemovedValid(o: OffChain, b: Block)
    requires OffChainValid(o)
    ensures OffChainValid(Removed(o, b)) && b in Removed(o, b).blocks
  {
    if b !in o.blocks {
      var order := o.order + [b];
      assert NoDups(order);
      assert order == [order[0]] + order[1..];
      assert order[0] !in order[1..];
      assert order[|o.order|] == b;
      assert forall x :: x in order <==> x in o.blocks || x == b;
    }
  }

  lemma AddedValid(o: OffChain, b: Block)
    requires OffChainValid(o)
    ensures OffChainValid(Added(o, b)) && Added(o, b).blocks == o.blocks - {b}
  {
  }

  lemma {:induction false} AddedAllValid(o: OffChain, bs: seq<Block>)
    requires OffChainValid(o)
    ensures OffChainValid(AddedAll(o, bs))
    ensures forall b :: b in AddedAll(o, bs).blocks <==> b in o.blocks && b !in bs
    decreases |bs|
  {
    if bs != [] {
      AddedValid(o, bs[0]);
      AddedAllValid(Added(o, bs[0]), bs[1..]);
    }
  }
}

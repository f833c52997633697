/** Folding one chain batch (`fold_batch` in `rust/chain/src/acceptance.rs`) and
    folding it again: what a complete fold makes of every watched txid, and why a
    batch whose writes failed can be folded a second time. */
module ChainBatch {
  import opened Bytes
  import opened WatchLog

  /** One accepting block's list. */
  datatype Naming = Naming(block: Block, txids: seq<Txid>)

  datatype Batch = Batch(removed: seq<Block>, added: seq<Block>, accepted: seq<Naming>)

  datatype BatchOut = BatchOut(core: Core, complete: bool)

  function Among(txids: seq<Txid>, watched: set<Txid>): (r: seq<Txid>)
    ensures forall t :: t in r <==> t in txids && t in watched
  {
    if txids == [] then []
    else if txids[0] in watched then [txids[0]] + Among(txids[1..], watched)
    else Among(txids[1..], watched)
  }

  /** One accepting block, already matched: skipped when no one watches its txids,
      not folded when its facts could not be read. */
  function FoldNaming(disk: Disk, out: BatchOut, n: Naming, watched: set<Txid>, read: Option<Facts>): BatchOut {
    var ts := Among(n.txids, watched);
    if ts == [] then out
    else
      match read
      case None => out.(complete := false)
      case Some(f) =>
        var folded := AcceptAll(disk, From(out.core), n.block, f, ts);
        BatchOut(folded.core, out.complete && !folded.failed)
  }

  /** `answers` is what the node answers for each accepting block, if asked. */
  function FoldNamings(disk: Disk, out: BatchOut, ns: seq<Naming>, watched: set<Txid>, answers: seq<Option<Facts>>): BatchOut
    requires |answers| == |ns|
    decreases |ns|
  {
    if ns == [] then out
    else FoldNamings(disk, FoldNaming(disk, out, ns[0], watched, answers[0]), ns[1..], watched, answers[1..])
  }

  /** Removals before acceptances, then who is watched, then block by block. */
  function AfterRemovals(disk: Disk, c: Core, batch: Batch, now: nat): Folded {
    var removed := RemoveAll(disk, From(c), batch.removed, now);
    removed.(core := removed.core.(offChain := AddedAll(removed.core.offChain, batch.added)))
  }

  function FoldCore(disk: Disk, c: Core, batch: Batch, now: nat, answers: seq<Option<Facts>>): BatchOut
    requires |answers| == |batch.accepted|
  {
    var removed := AfterRemovals(disk, c, batch, now);
    FoldNamings(disk, BatchOut(removed.core, !removed.failed), batch.accepted, removed.core.records.Keys, answers)
  }

  // ---- what a batch means for one txid ----

  /** A status up to its times and scores. */
  datatype Kind = Waiting | In(block: Block) | Out(prior: Block) | Final(block: Block)

  function KindOf(s: Status): Kind {
    match s
    case Submitted(_) => Waiting
    case Accepted(b, _, _) => In(b)
    case Displaced(_, b) => Out(b)
    case Finalized(b, _, _) => Final(b)
  }

  /** The last accepting block that names `t`. */
  function LastNaming(ns: seq<Naming>, t: Txid): Option<Block>
    decreases |ns|
  {
    if ns == [] then None
    else if t in ns[|ns| - 1].txids then Some(ns[|ns| - 1].block)
    else LastNaming(ns[..|ns| - 1], t)
  }

  predicate NamedBy(ns: seq<Naming>, t: Txid, b: Block) {
    exists i :: 0 <= i < |ns| && t in ns[i].txids && ns[i].block == b
  }

  function AfterRemoval(k: Kind, removed: seq<Block>): Kind {
    if k.In? && k.block in removed then Out(k.block) else k
  }

  /** The chain's word: accepted by the last block naming it, else displaced if
      its block left, else unchanged. */
  function Expected(k: Kind, batch: Batch, t: Txid): Kind {
    match LastNaming(batch.accepted, t)
    case Some(b) => In(b)
    case None => AfterRemoval(k, batch.removed)
  }

  function KindIn(c: Core, t: Txid): Kind
    requires t in c.records
  {
    KindOf(c.records[t].status)
  }

  lemma {:induction false} LastNamingIsNamed(ns: seq<Naming>, t: Txid)
    ensures match LastNaming(ns, t)
      case Some(b) => NamedBy(ns, t, b)
      case None => forall i :: 0 <= i < |ns| ==> t !in ns[i].txids
    decreases |ns|
  {
    if ns != [] && t !in ns[|ns| - 1].txids {
      LastNamingIsNamed(ns[..|ns| - 1], t);
    }
  }

  lemma {:induction false} LastNamingCons(n: Naming, ns: seq<Naming>, t: Txid)
    ensures LastNaming([n] + ns, t) ==
      match LastNaming(ns, t) { case Some(b) => Some(b) case None => if t in n.txids then Some(n.block) else None }
    decreases |ns|
  {
    var all := [n] + ns;
    if ns == [] {
      assert all == [n] && all[..0] == [];
      assert LastNaming([], t) == None;
    } else {
      assert all[|all| - 1] == ns[|ns| - 1];
      assert all[..|all| - 1] == [n] + ns[..|ns| - 1];
      LastNamingCons(n, ns[..|ns| - 1], t);
    }
  }

  // ---- what each stage does to a kind ----

  lemma {:induction false} RemoveAllKinds(disk: Disk, done: Folded, bs: seq<Block>, now: nat, t: Txid)
    requires IndexSound(done.core) && Lists(done.core, t)
    ensures var out := RemoveAll(disk, done, bs, now);
      && out.core.records.Keys == done.core.records.Keys
      && (t in done.core.records ==>
            var k, k' := KindIn(done.core, t), KindIn(out.core, t);
            (k' == k || k' == AfterRemoval(k, bs)) && (!out.failed ==> k' == AfterRemoval(k, bs)))
      && (!out.failed ==> !done.failed)
    decreases |bs|
  {
    if bs != [] {
      var next := RemoveBlock(disk, done, bs[0], now);
      RemoveBlockOf(disk, done, bs[0], now, t);
      RemoveAllKinds(disk, next, bs[1..], now, t);
      if t in done.core.records {
        assert AcceptedBy(done.core.records, t, bs[0]) <==> KindIn(done.core, t) == In(bs[0]);
        assert AcceptedBy(next.core.records, t, bs[0]) <==> KindIn(next.core, t) == In(bs[0]);
        assert bs[0] in bs;
        assert forall b :: b in bs <==> b == bs[0] || b in bs[1..];
      }
    }
  }

  lemma {:induction false} AcceptAllKinds(disk: Disk, done: Folded, b: Block, f: Facts, ts: seq<Txid>, t: Txid)
    ensures var out := AcceptAll(disk, done, b, f, ts);
      && out.core.records.Keys == done.core.records.Keys
      && (t in done.core.records ==>
            var k, k' := KindIn(done.core, t), KindIn(out.core, t);
            && (k' == k || (t in ts && k' == In(b)))
            && (t in ts && !out.failed ==> k' == In(b)))
      && (!out.failed ==> !done.failed)
    decreases |ts|
  {
    if ts != [] {
      AcceptAllKinds(disk, Then(done, ts[0], AcceptOne(disk, done.core, b, f, ts[0])), b, f, ts[1..], t);
    }
  }

  lemma FoldNamingKinds(disk: Disk, out: BatchOut, n: Naming, watched: set<Txid>, read: Option<Facts>, t: Txid)
    requires IndexExact(out.core) && watched == out.core.records.Keys
    ensures var next := FoldNaming(disk, out, n, watched, read);
      && IndexExact(next.core) && next.core.records.Keys == watched
      && (next.complete ==> out.complete)
      && (t in watched ==>
            var k, k' := KindIn(out.core, t), KindIn(next.core, t);
            && (k' == k || (t in n.txids && k' == In(n.block)))
            && (t in n.txids && next.complete ==> k' == In(n.block)))
  {
    var ts := Among(n.txids, watched);
    if ts != [] && read.Some? {
      AcceptAllExact(disk, From(out.core), n.block, read.value, ts);
      AcceptAllKinds(disk, From(out.core), n.block, read.value, ts, t);
    }
  }

  lemma {:induction false} FoldNamingsKinds(disk: Disk, out: BatchOut, ns: seq<Naming>, watched: set<Txid>, answers: seq<Option<Facts>>, t: Txid)
    requires |answers| == |ns| && IndexExact(out.core) && watched == out.core.records.Keys
    ensures var done := FoldNamings(disk, out, ns, watched, answers);
      && IndexExact(done.core) && done.core.records.Keys == watched
      && (done.complete ==> out.complete)
      && (t in watched ==>
            var k, k' := KindIn(out.core, t), KindIn(done.core, t);
            && (k' == k || (k'.In? && NamedBy(ns, t, k'.block)))
            && (done.complete ==> k' == match LastNaming(ns, t) { case Some(b) => In(b) case None => k }))
    decreases |ns|
  {
    if ns != [] {
      FoldNamingKinds(disk, out, ns[0], watched, answers[0], t);
      FoldNamingsKinds(disk, FoldNaming(disk, out, ns[0], watched, answers[0]), ns[1..], watched, answers[1..], t);
      assert ns == [ns[0]] + ns[1..];
      LastNamingCons(ns[0], ns[1..], t);
      forall b | NamedBy(ns[1..], t, b) || (t in ns[0].txids && b == ns[0].block)
        ensures NamedBy(ns, t, b)
      {
        NamedByMore(ns, t, b);
      }
    }
  }

  lemma NamedByMore(ns: seq<Naming>, t: Txid, b: Block)
    requires ns != [] && (NamedBy(ns[1..], t, b) || (t in ns[0].txids && b == ns[0].block))
    ensures NamedBy(ns, t, b)
  {
    if NamedBy(ns[1..], t, b) {
      var i :| 0 <= i < |ns[1..]| && t in ns[1..][i].txids && ns[1..][i].block == b;
      assert t in ns[i + 1].txids && ns[i + 1].block == b;
    }
  }

  /** **A fold, whatever fails.** It keeps the index exact and watches no one
      else; each txid is as it was, as the removals leave it, or accepted by a
      block of a batch that names it; and a fold that answers complete has given
      every watched txid exactly the chain's word. */
  lemma FoldGivesTheChainsWord(disk: Disk, c: Core, batch: Batch, now: nat, answers: seq<Option<Facts>>, t: Txid)
    requires IndexExact(c) && |answers| == |batch.accepted|
    ensures var out := FoldCore(disk, c, batch, now, answers);
      && IndexExact(out.core) && out.core.records.Keys == c.records.Keys
      && (t in c.records ==>
            var k, k' := KindIn(c, t), KindIn(out.core, t);
            && (|| k' == k || k' == AfterRemoval(k, batch.removed)
                || (k'.In? && NamedBy(batch.accepted, t, k'.block)))
            && (out.complete ==> k' == Expected(k, batch, t)))
  {
    RemoveAllExact(disk, From(c), batch.removed, now);
    RemoveAllKinds(disk, From(c), batch.removed, now, t);
    var removed := AfterRemovals(disk, c, batch, now);
    FoldNamingsKinds(disk, BatchOut(removed.core, !removed.failed), batch.accepted, removed.core.records.Keys, answers, t);
  }

  lemma {:induction false} LandsMeansNoFailure(disk: Disk, done: Folded, b: Block, f: Facts, ts: seq<Txid>)
    requires forall n :: disk(n)
    ensures AcceptAll(disk, done, b, f, ts).failed == done.failed
    decreases |ts|
  {
    if ts != [] {
      LandsMeansNoFailure(disk, Then(done, ts[0], AcceptOne(disk, done.core, b, f, ts[0])), b, f, ts[1..]);
    }
  }

  lemma {:induction false} DisplacesAllWhenItLands(disk: Disk, d: Displacing, b: Block, ts: seq<Txid>, now: nat)
    requires forall n :: disk(n)
    ensures DisplaceAll(disk, d, b, ts, now).fold.failed == d.fold.failed
    decreases |ts|
  {
    if ts != [] {
      DisplacesAllWhenItLands(disk, DisplaceOne(disk, d, b, ts[0], now), b, ts[1..], now);
    }
  }

  lemma {:induction false} RemovesAllWhenItLands(disk: Disk, done: Folded, bs: seq<Block>, now: nat)
    requires forall n :: disk(n)
    ensures RemoveAll(disk, done, bs, now).failed == done.failed
    decreases |bs|
  {
    if bs != [] {
      var c := done.core.(offChain := Removed(done.core.offChain, bs[0]));
      if bs[0] in c.index {
        DisplacesAllWhenItLands(disk, Displacing(done.(core := c), []), bs[0], c.index[bs[0]], now);
      }
      RemovesAllWhenItLands(disk, RemoveBlock(disk, done, bs[0], now), bs[1..], now);
    }
  }

  lemma {:induction false} NamingsCompleteWhenTheyLand(disk: Disk, out: BatchOut, ns: seq<Naming>, watched: set<Txid>, answers: seq<Option<Facts>>)
    requires |answers| == |ns| && (forall n :: disk(n)) && (forall i :: 0 <= i < |answers| ==> answers[i].Some?)
    ensures FoldNamings(disk, out, ns, watched, answers).complete == out.complete
    decreases |ns|
  {
    if ns != [] {
      var ts := Among(ns[0].txids, watched);
      LandsMeansNoFailure(disk, From(out.core), ns[0].block, answers[0].value, ts);
      NamingsCompleteWhenTheyLand(disk, FoldNaming(disk, out, ns[0], watched, answers[0]), ns[1..], watched, answers[1..]);
    }
  }

  /** With every write landing and every block read, a fold is complete. */
  lemma NothingFailsIsComplete(disk: Disk, c: Core, batch: Batch, now: nat, answers: seq<Option<Facts>>)
    requires |answers| == |batch.accepted| && (forall n :: disk(n)) && (forall i :: 0 <= i < |answers| ==> answers[i].Some?)
    ensures FoldCore(disk, c, batch, now, answers).complete
  {
    RemovesAllWhenItLands(disk, From(c), batch.removed, now);
    var removed := AfterRemovals(disk, c, batch, now);
    NamingsCompleteWhenTheyLand(disk, BatchOut(removed.core, !removed.failed), batch.accepted, removed.core.records.Keys, answers);
  }

  /** **Folding again heals.** After a fold in which any writes failed and any
      blocks could not be read, one complete fold of the same batch leaves every
      watched txid with the status and block a single fold that never failed
      would have given it, whatever block facts and clock each fold had. */
  lemma RefoldHeals(bad: Disk, good: Disk, once: Disk, c: Core, batch: Batch, now1: nat, now2: nat, now: nat,
                    answers1: seq<Option<Facts>>, answers2: seq<Option<Facts>>, answers: seq<Option<Facts>>, t: Txid)
    requires IndexExact(c) && t in c.records
    requires |answers1| == |batch.accepted| && |answers2| == |batch.accepted| && |answers| == |batch.accepted|
    requires FoldCore(good, FoldCore(bad, c, batch, now1, answers1).core, batch, now2, answers2).complete
    requires FoldCore(once, c, batch, now, answers).complete
    ensures var healed := FoldCore(good, FoldCore(bad, c, batch, now1, answers1).core, batch, now2, answers2).core;
      var never := FoldCore(once, c, batch, now, answers).core;
      t in healed.records && t in never.records
      && KindIn(healed, t) == KindIn(never, t) == Expected(KindIn(c, t), batch, t)
  {
    FoldGivesTheChainsWord(bad, c, batch, now1, answers1, t);
    var c1 := FoldCore(bad, c, batch, now1, answers1).core;
    FoldGivesTheChainsWord(good, c1, batch, now2, answers2, t);
    FoldGivesTheChainsWord(once, c, batch, now, answers, t);
    LastNamingIsNamed(batch.accepted, t);
  }

  /** Every block of the batch that names `t` is its last one, and is not also taken
      off the chain by it. */
  ghost predicate NamedPlainly(batch: Batch, t: Txid) {
    forall b: Block :: NamedBy(batch.accepted, t, b) ==> LastNaming(batch.accepted, t) == Some(b) && b !in batch.removed
  }

  /** A fold after a complete one changes no status: whatever fails in it, for a txid
      the batch names plainly or not at all; and for any txid once it is complete. (A
      txid named by two blocks can be moved to the earlier one by a fold that fails
      before the later.) */
  lemma RefoldIsIdempotent(disk: Disk, again: Disk, c: Core, batch: Batch, now: nat, later: nat,
                           answers: seq<Option<Facts>>, answers2: seq<Option<Facts>>, t: Txid)
    requires IndexExact(c) && t in c.records
    requires |answers| == |batch.accepted| && |answers2| == |batch.accepted|
    requires FoldCore(disk, c, batch, now, answers).complete
    ensures var c1 := FoldCore(disk, c, batch, now, answers).core;
      var c2 := FoldCore(again, c1, batch, later, answers2);
      t in c1.records && t in c2.core.records
      && (c2.complete || NamedPlainly(batch, t) ==> KindIn(c2.core, t) == KindIn(c1, t))
  {
    FoldGivesTheChainsWord(disk, c, batch, now, answers, t);
    FoldGivesTheChainsWord(again, FoldCore(disk, c, batch, now, answers).core, batch, later, answers2, t);
    LastNamingIsNamed(batch.accepted, t);
  }
}

/** The chunked balance scan (`rust/chain/src/discovery.rs`). */
module Discovery {
  // The node is a parameter, asked once a chunk, and so is the chunk size, which the
  // wallet sets to `PROBE_BATCH`. `Scanned` says what a scan may answer in terms of the
  // whole list; `ScanFindsTheHighestFunded` compares it with the unchunked question,
  // and `WrapExactly` says when the two differ.

  import opened Bytes

  type Address = string

  const PROBE_BATCH: nat := 128

  datatype Entry = Entry(address: Address, balance: Option<nat>)
  datatype Reply = Entries(entries: seq<Entry>) | Failed(reason: string)
  datatype Scan = Highest(index: Option<nat>) | Error(why: string)

  type Node = (nat, seq<Address>) -> Reply

  predicate Positive(e: Entry) {
    e.balance.Some? && e.balance.value > 0
  }

  predicate Funded(entries: seq<Entry>, a: Address) {
    exists i :: 0 <= i < |entries| && entries[i].address == a && Positive(entries[i])
  }

  /** `o` is where `position` finds this address in the chunk. */
  predicate First(chunk: seq<Address>, o: nat)
    requires o < |chunk|
  {
    forall j :: 0 <= j < o ==> chunk[j] != chunk[o]
  }

  predicate Hit(chunk: seq<Address>, entries: seq<Entry>, o: nat) {
    o < |chunk| && First(chunk, o) && Funded(entries, chunk[o])
  }

  /** The 32-bit index of an offset in the chunk that starts at `base`. */
  function Index(base: nat, o: nat): nat {
    (base + o) % U32_LIMIT
  }

  /** The greatest index of a hit. */
  predicate BestOfChunk(chunk: seq<Address>, entries: seq<Entry>, base: nat, r: Option<nat>) {
    && (r.None? ==> forall o: nat :: o < |chunk| ==> !Hit(chunk, entries, o))
    && (r.Some? ==> exists o: nat :: o < |chunk| && Hit(chunk, entries, o) && Index(base, o) == r.value)
    && (r.Some? ==> forall o: nat :: o < |chunk| && Hit(chunk, entries, o) ==> Index(base, o) <= r.value)
  }

  /** Where an address stands in the chunk, if anywhere. */
  method Position(chunk: seq<Address>, a: Address) returns (r: Option<nat>)
    ensures r.Some? ==> r.value < |chunk| && chunk[r.value] == a && First(chunk, r.value)
    ensures r.None? ==> a !in chunk
  {
    for i := 0 to |chunk|
      invariant forall j :: 0 <= j < i ==> chunk[j] != a
    {
      if chunk[i] == a {
        return Some(i);
      }
    }
    return None;
  }

  /** Matched by address: the greatest index of a funded one, whatever the order of
      the entries and whatever else they name. */
  method HighestFundedInChunk(base: nat, chunk: seq<Address>, entries: seq<Entry>) returns (highest: Option<nat>)
    ensures BestOfChunk(chunk, entries, base, highest)
  {
    highest := None;
    for i := 0 to |entries|
      invariant BestOfChunk(chunk, entries[..i], base, highest)
    {
      var e := entries[i];
      OneMore(chunk, entries, i);
      if Positive(e) {
        var at := Position(chunk, e.address);
        if at.Some? {
          var index := Index(base, at.value);
          assert Hit(chunk, entries[..i + 1], at.value);
          highest := if highest.Some? && highest.value >= index then highest else Some(index);
        }
      }
    }
    assert entries[..|entries|] == entries;
  }

  lemma OneMore(chunk: seq<Address>, entries: seq<Entry>, i: nat)
    requires i < |entries|
    ensures forall o: nat :: Hit(chunk, entries[..i + 1], o) <==>
      Hit(chunk, entries[..i], o) || (o < |chunk| && First(chunk, o) && entries[i].address == chunk[o] && Positive(entries[i]))
  {
    forall a: Address
      ensures Funded(entries[..i + 1], a) <==> Funded(entries[..i], a) || (entries[i].address == a && Positive(entries[i]))
    {
      if Funded(entries[..i], a) {
        var j :| 0 <= j < |entries[..i]| && entries[..i][j].address == a && Positive(entries[..i][j]);
        assert entries[..i + 1][j] == entries[j];
      }
      if Funded(entries[..i + 1], a) {
        var j :| 0 <= j < |entries[..i + 1]| && entries[..i + 1][j].address == a && Positive(entries[..i + 1][j]);
        assert j < i ==> entries[..i][j] == entries[j];
      }
      if entries[i].address == a && Positive(entries[i]) {
        assert entries[..i + 1][i] == entries[i];
      }
    }
  }

  // ---- the whole list ----

  /** How many chunks of `size` addresses cover the list. */
  function Chunks(size: nat, n: nat): (k: nat)
    requires size > 0
    ensures n <= k * size < n + size
  {
    (n + size - 1) / size
  }

  function ChunkAt(size: nat, addresses: seq<Address>, k: nat): (c: seq<Address>)
    requires size > 0 && k < Chunks(size, |addresses|)
    ensures |c| <= size && k * size + |c| <= |addresses|
    ensures forall o :: 0 <= o < |c| ==> c[o] == addresses[k * size + o]
    ensures |c| == size || k * size + |c| == |addresses|
  {
    ChunkStarts(size, |addresses|, k);
    var from := k * size;
    addresses[from..if from + size < |addresses| then from + size else |addresses|]
  }

  lemma ChunkStarts(size: nat, n: nat, k: nat)
    requires size > 0 && k < Chunks(size, n)
    ensures k * size < n
  {
    Grows(k + 1, Chunks(size, n), size);
  }

  lemma Grows(a: nat, b: nat, size: nat)
    requires a <= b
    ensures a * size <= b * size
  {
  }

  function ReplyTo(size: nat, addresses: seq<Address>, node: Node, k: nat): Reply
    requires size > 0 && k < Chunks(size, |addresses|)
  {
    node(k, ChunkAt(size, addresses, k))
  }

  lemma Located(size: nat, n: nat, p: nat)
    requires size > 0 && p < n
    ensures p / size < Chunks(size, n) && p == p / size * size + p % size
  {
    if p / size >= Chunks(size, n) {
      Grows(Chunks(size, n), p / size, size);
    }
  }

  lemma LocatedAt(size: nat, k: nat, o: nat)
    requires o < size
    ensures (k * size + o) / size == k && (k * size + o) % size == o
  {
    var p := k * size + o;
    assert p == p / size * size + p % size;
    if p / size < k {
      Grows(p / size + 1, k, size);
    } else if p / size > k {
      Grows(k + 1, p / size, size);
    }
  }

  /** Position `p` of the whole list is hit by its own chunk's reply. */
  predicate HitAt(size: nat, addresses: seq<Address>, node: Node, p: nat)
    requires size > 0
  {
    p < |addresses| &&
    (Located(size, |addresses|, p);
     var reply := ReplyTo(size, addresses, node, p / size);
     reply.Entries? && Hit(ChunkAt(size, addresses, p / size), reply.entries, p % size))
  }

  function Hits(size: nat, addresses: seq<Address>, node: Node): set<nat>
    requires size > 0
  {
    set p: nat | p < |addresses| && HitAt(size, addresses, node, p)
  }

  /** The greatest 32-bit index of a hit among the first `n` positions. */
  predicate Best(hits: set<nat>, n: nat, r: Option<nat>) {
    && (r.None? ==> forall p :: p in hits ==> p >= n)
    && (r.Some? ==> exists p :: p in hits && p < n && p % U32_LIMIT == r.value)
    && (r.Some? ==> forall p :: p in hits && p < n ==> p % U32_LIMIT <= r.value)
  }

  predicate Answered(size: nat, addresses: seq<Address>, node: Node, n: nat)
    requires size > 0 && n <= Chunks(size, |addresses|)
  {
    forall k: nat :: k < n ==> ReplyTo(size, addresses, node, k).Entries?
  }

  ghost predicate FirstFailure(size: nat, addresses: seq<Address>, node: Node, k: nat, why: string)
    requires size > 0
  {
    k < Chunks(size, |addresses|) && Answered(size, addresses, node, k) && ReplyTo(size, addresses, node, k) == Failed(why)
  }

  /** What a scan may answer: the first failed chunk's reason, or the best hit. */
  ghost predicate Scanned(size: nat, addresses: seq<Address>, node: Node, r: Scan)
    requires size > 0
  {
    match r
    case Error(why) => exists k: nat :: FirstFailure(size, addresses, node, k, why)
    case Highest(index) =>
      Answered(size, addresses, node, Chunks(size, |addresses|)) && Best(Hits(size, addresses, node), |addresses|, index)
  }

  /** The wallet's own scan. */
  method HighestFundedIndex(addresses: seq<Address>, node: Node) returns (r: Scan)
    ensures Scanned(PROBE_BATCH, addresses, node, r)
  {
    r := ScanChunks(PROBE_BATCH, addresses, node);
  }

  /** The chunk walk; it stops at the first failed probe. */
  method ScanChunks(size: nat, addresses: seq<Address>, node: Node) returns (r: Scan)
    requires size > 0
    ensures Scanned(size, addresses, node, r)
  {
    var highest: Option<nat> := None;
    var k := 0;
    ghost var hits := Hits(size, addresses, node);
    while k < Chunks(size, |addresses|)
      invariant k <= Chunks(size, |addresses|)
      invariant Answered(size, addresses, node, k)
      invariant Best(hits, k * size, highest)
    {
      var base := k * size % U32_LIMIT;
      var chunk := ChunkAt(size, addresses, k);
      var reply := node(k, chunk);
      if reply.Failed? {
        assert FirstFailure(size, addresses, node, k, reply.reason);
        return Error(reply.reason);
      }
      var index := HighestFundedInChunk(base, chunk, reply.entries);
      ChunkHits(size, addresses, node, k, index);
      Grows(k, k + 1, size);
      BestMore(hits, k * size, (k + 1) * size, highest, index);
      if index.Some? {
        highest := if highest.Some? && highest.value >= index.value then highest else index;
      }
      k := k + 1;
    }
    assert Best(hits, |addresses|, highest);
    return Highest(highest);
  }

  /** A position's 32-bit index is what its chunk gives it, whatever wraps. */
  lemma IndexWraps(a: nat, o: nat)
    ensures Index(a % U32_LIMIT, o) == (a + o) % U32_LIMIT
  {
    assert a == a / U32_LIMIT * U32_LIMIT + a % U32_LIMIT;
    var low := a % U32_LIMIT + o;
    assert a + o == a / U32_LIMIT * U32_LIMIT + low;
    assert low == low / U32_LIMIT * U32_LIMIT + low % U32_LIMIT;
  }

  /** A position of chunk `k` is hit as its offset is, and has that offset's index. */
  lemma HitInChunk(size: nat, addresses: seq<Address>, node: Node, k: nat, o: nat)
    requires o < size && k < Chunks(size, |addresses|) && ReplyTo(size, addresses, node, k).Entries?
    ensures k * size + o in Hits(size, addresses, node) <==>
      Hit(ChunkAt(size, addresses, k), ReplyTo(size, addresses, node, k).entries, o)
    ensures (k * size + o) % U32_LIMIT == Index(k * size % U32_LIMIT, o)
  {
    LocatedAt(size, k, o);
    IndexWraps(k * size, o);
    var chunk := ChunkAt(size, addresses, k);
    assert o < |chunk| <==> k * size + o < |addresses|;
  }

  /** The hits in one chunk, and the best of them. */
  lemma ChunkHits(size: nat, addresses: seq<Address>, node: Node, k: nat, index: Option<nat>)
    requires size > 0 && k < Chunks(size, |addresses|) && ReplyTo(size, addresses, node, k).Entries?
    requires BestOfChunk(ChunkAt(size, addresses, k), ReplyTo(size, addresses, node, k).entries, k * size % U32_LIMIT, index)
    ensures forall p :: p in Hits(size, addresses, node) && k * size <= p < (k + 1) * size ==>
      index.Some? && p % U32_LIMIT <= index.value
    ensures index.Some? ==>
      exists p :: p in Hits(size, addresses, node) && k * size <= p < (k + 1) * size && p % U32_LIMIT == index.value
  {
    var hits, base := Hits(size, addresses, node), k * size % U32_LIMIT;
    var chunk, entries := ChunkAt(size, addresses, k), ReplyTo(size, addresses, node, k).entries;
    var from, to := k * size, (k + 1) * size;
    assert to == from + size;
    forall p | p in hits && from <= p < to
      ensures index.Some? && p % U32_LIMIT <= index.value
    {
      HitInChunk(size, addresses, node, k, p - from);
    }
    if index.Some? {
      var o: nat :| o < |chunk| && Hit(chunk, entries, o) && Index(base, o) == index.value;
      HitInChunk(size, addresses, node, k, o);
      assert from + o in hits && from <= from + o < to && (from + o) % U32_LIMIT == index.value;
    }
  }

  lemma BestMore(hits: set<nat>, n: nat, m: nat, before: Option<nat>, index: Option<nat>)
    requires n <= m && Best(hits, n, before)
    requires forall p :: p in hits && n <= p < m ==> index.Some? && p % U32_LIMIT <= index.value
    requires index.Some? ==> exists p :: p in hits && n <= p < m && p % U32_LIMIT == index.value
    ensures Best(hits, m, if index.None? || (before.Some? && before.value >= index.value) then before else index)
  {
  }

  // ---- against the unchunked question ----

  predicate DistinctAddresses(addresses: seq<Address>) {
    forall i, j :: 0 <= i < j < |addresses| ==> addresses[i] != addresses[j]
  }

  /** The node's replies say who is funded among those asked, in any order and with
      any entries for others. */
  ghost predicate Tells(size: nat, addresses: seq<Address>, node: Node, funded: Address -> bool)
    requires size > 0
  {
    forall k: nat :: k < Chunks(size, |addresses|) && ReplyTo(size, addresses, node, k).Entries? ==>
      forall a :: a in ChunkAt(size, addresses, k) ==> (Funded(ReplyTo(size, addresses, node, k).entries, a) <==> funded(a))
  }

  /** The highest funded position of the list, asked in one piece. */
  ghost predicate HighestFunded(addresses: seq<Address>, funded: Address -> bool, r: Option<nat>) {
    && (r.None? ==> forall p :: 0 <= p < |addresses| ==> !funded(addresses[p]))
    && (r.Some? ==> r.value < |addresses| && funded(addresses[r.value]))
    && (r.Some? ==> forall p :: 0 <= p < |addresses| && funded(addresses[p]) ==> p <= r.value)
  }

  /** A hit is a funded address, when no address is asked for twice. */
  lemma HitIsFunded(size: nat, addresses: seq<Address>, node: Node, funded: Address -> bool, p: nat)
    requires size > 0 && DistinctAddresses(addresses) && Tells(size, addresses, node, funded) && p < |addresses|
    requires Answered(size, addresses, node, Chunks(size, |addresses|))
    ensures HitAt(size, addresses, node, p) <==> funded(addresses[p])
  {
    Located(size, |addresses|, p);
    var k, o := p / size, p % size;
    var chunk := ChunkAt(size, addresses, k);
    assert k * size + o == p;
    assert ReplyTo(size, addresses, node, k).Entries?;
    assert o < |chunk| && chunk[o] == addresses[p];
    assert First(chunk, o) by {
      forall j: nat | j < o
        ensures chunk[j] != chunk[o]
      {
        assert chunk[j] == addresses[k * size + j];
      }
    }
  }

  lemma HitsAreFunded(size: nat, addresses: seq<Address>, node: Node, funded: Address -> bool)
    requires size > 0 && DistinctAddresses(addresses) && Tells(size, addresses, node, funded)
    requires Answered(size, addresses, node, Chunks(size, |addresses|))
    ensures Hits(size, addresses, node) == set p: nat | p < |addresses| && funded(addresses[p])
  {
    forall p: nat | p < |addresses|
      ensures HitAt(size, addresses, node, p) <==> funded(addresses[p])
    {
      HitIsFunded(size, addresses, node, funded, p);
    }
  }

  /** **Any failed chunk makes the whole an error.** */
  lemma ErrorExactlyOnFailure(size: nat, addresses: seq<Address>, node: Node, r: Scan)
    requires size > 0 && Scanned(size, addresses, node, r)
    ensures r.Error? <==> !Answered(size, addresses, node, Chunks(size, |addresses|))
  {
  }

  /** **The chunked scan answers the unchunked question,** for up to 2^32 distinct
      addresses, whatever the chunk size, the order of the replies and whatever else
      they name. */
  lemma ScanFindsTheHighestFunded(size: nat, addresses: seq<Address>, node: Node, funded: Address -> bool, r: Scan)
    requires size > 0 && DistinctAddresses(addresses) && Tells(size, addresses, node, funded)
    requires Scanned(size, addresses, node, r) && r.Highest? && |addresses| <= U32_LIMIT
    ensures HighestFunded(addresses, funded, r.index)
  {
    HitsAreFunded(size, addresses, node, funded);
    BestIsGreatest(Hits(size, addresses, node), |addresses|, r.index);
    assert forall p: nat :: p < |addresses| && funded(addresses[p]) ==> p in Hits(size, addresses, node);
  }

  lemma BestIsGreatest(hits: set<nat>, n: nat, r: Option<nat>)
    requires Best(hits, n, r) && n <= U32_LIMIT && forall p :: p in hits ==> p < n
    ensures r.None? ==> hits == {}
    ensures r.Some? ==> r.value in hits && forall p :: p in hits ==> p <= r.value
  {
    assert forall p :: p in hits ==> p % U32_LIMIT == p;
  }

  /** **Past 2^32 addresses.** Over any number of distinct addresses, the scan names
      the highest funded one if and only if that one's position fits 32 bits. */
  lemma WrapExactly(size: nat, addresses: seq<Address>, node: Node, funded: Address -> bool, r: Scan, highest: Option<nat>)
    requires size > 0 && DistinctAddresses(addresses) && Tells(size, addresses, node, funded)
    requires Scanned(size, addresses, node, r) && r.Highest? && HighestFunded(addresses, funded, highest)
    ensures r.index == highest <==> highest.None? || highest.value < U32_LIMIT
    ensures r.index.Some? <==> highest.Some?
  {
    HitsAreFunded(size, addresses, node, funded);
    assert forall p: nat :: p < |addresses| && funded(addresses[p]) ==> p in Hits(size, addresses, node);
    GreatestFits(Hits(size, addresses, node), |addresses|, highest, r.index);
  }

  /** **The chunk size does not matter,** for any number of distinct addresses: two
      scans told the same answer the same index. */
  lemma ChunkSizeDoesNotMatter(size: nat, size': nat, addresses: seq<Address>, node: Node, node': Node, funded: Address -> bool, r: Scan, r': Scan)
    requires size > 0 && size' > 0 && DistinctAddresses(addresses)
    requires Tells(size, addresses, node, funded) && Scanned(size, addresses, node, r) && r.Highest?
    requires Tells(size', addresses, node', funded) && Scanned(size', addresses, node', r') && r'.Highest?
    ensures r == r'
  {
    HitsAreFunded(size, addresses, node, funded);
    HitsAreFunded(size', addresses, node', funded);
    OneBest(Hits(size, addresses, node), |addresses|, r.index, r'.index);
  }

  lemma OneBest(hits: set<nat>, n: nat, r: Option<nat>, r': Option<nat>)
    requires Best(hits, n, r) && Best(hits, n, r') && forall p :: p in hits ==> p < n
    ensures r == r'
  {
  }

  lemma GreatestFits(hits: set<nat>, n: nat, top: Option<nat>, r: Option<nat>)
    requires Best(hits, n, r) && forall p :: p in hits ==> p < n
    requires top.None? ==> hits == {}
    requires top.Some? ==> top.value in hits && forall p :: p in hits ==> p <= top.value
    ensures (r.Some? <==> top.Some?) && (r == top <==> top.None? || top.value < U32_LIMIT)
  {
    if top.Some? && top.value < U32_LIMIT {
      assert forall p :: p in hits ==> p % U32_LIMIT == p;
    }
  }
}

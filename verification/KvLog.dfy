/** The durable log over its file (`Log` in `rust/chain/src/kvlog.rs`): load with
    repair, append, the four requests, compaction and wipe, each as a function of
    the log, the file and what the disk did.

    An append lands, fails before or after the cut it owed, stops after any byte or
    leaves only zeros. The lemmas say what each of those leaves a file to mean;
    `KvRuns` follows whole runs of them, and `KvStore` runs the same operations in
    place. */
module KvLog {
  import opened Bytes
  import opened Crc32
  import opened KvKeys
  import opened KvFormat
  import opened KvImage

  const COMPACT_RATIO: nat := 2
  const COMPACT_FLOOR: nat := 65536

  /** The growth rule. File lengths are 64-bit, so the program's saturating
      product decides the same way as this exact one. */
  predicate Grown(fileLen: nat, liveLen: nat) {
    fileLen > COMPACT_FLOOR && fileLen > COMPACT_RATIO * liveLen
  }

  /** The log in memory. `held` is a log served read-only. */
  datatype Log<T> = Log(content: Content<T>, end: nat, cutOwed: bool, held: bool, removed: bool)

  /** A copy kept aside is named by where its bytes started, their length and
      their checksum. */
  type AsideName = (nat, nat, nat)

  datatype Files = Files(disk: Bytes, asides: map<AsideName, Bytes>)

  /** How an append fares: it lands whole and synced; it fails before touching
      the file; it fails after the cut; it stops after `n` bytes (all of them
      when the sync is what failed); it leaves `n` zero bytes. */
  datatype Fate = Lands | Early | AfterCut | Tears(n: nat) | Blanks(n: nat)

  datatype Wrote<T> = Wrote(log: Log<T>, disk: Bytes, ok: bool)

  // ---- append ----

  function Buffer(end: nat, body: Bytes): Bytes
    requires |body| < U32_LIMIT
  {
    (if end == 0 then Header() else []) + Seal(body)
  }

  /** What a fate leaves of `buf` on disk. */
  function Left(buf: Bytes, fate: Fate): Bytes {
    match fate
    case Lands => buf
    case Early => []
    case AfterCut => []
    case Tears(n) => buf[..Min(n, |buf|)]
    case Blanks(n) => Zeros(Min(n, |buf|))
  }

  function Append<T>(log: Log<T>, disk: Bytes, body: Bytes, fate: Fate): Wrote<T> {
    if log.held || |body| >= U32_LIMIT || fate.Early? then Wrote(log, disk, false)
    else if |disk| < log.end || (|disk| > log.end && !log.cutOwed) then Wrote(log, disk, false)
    else
      var buf := Buffer(log.end, body);
      var disk' := disk[..log.end] + Left(buf, fate);
      match fate
      case Lands => Wrote(log.(end := log.end + |buf|, cutOwed := false), disk', true)
      case AfterCut => Wrote(log, disk', false)
      case _ => Wrote(log.(cutOwed := true), disk', false)
  }

  // ---- the writes a store asks for ----

  /** Whether a request writes at all: a re-report of the held record, a removal
      of nothing and a flag already as asked touch neither file nor memory. */
  predicate Due<T>(c: Codec<T>, s: Content<T>, f: Frame<T>) {
    match f
    case Upsert(r) => !(c.keyOf(r) in s.records && c.encode(s.records[c.keyOf(r)]) == c.encode(r))
    case Remove(k) => k in s.records
    case Tombstone(k) => k in s.records && k !in s.tombs
    case Untombstone(k) => k in s.tombs
  }

  /** What a request means for the state, whole. */
  function Do<T>(c: Codec<T>, s: Content<T>, f: Frame<T>): Content<T> {
    if Due(c, s, f) then Fold(c, s, f) else s
  }

  function Request<T>(c: Codec<T>, log: Log<T>, disk: Bytes, f: Frame<T>, fate: Fate): Wrote<T> {
    if !Due(c, log.content, f) then Wrote(log, disk, true)
    else if !Fits(c, f) then Wrote(log, disk, false)
    else
      var w := Append(log, disk, Body(c, f), fate);
      if !w.ok then w
      else Wrote(w.log.(content := Fold(c, log.content, f), removed := w.log.removed || f.Remove?), w.disk, true)
  }

  // ---- compaction, wipe ----

  /** The check a rewrite makes before it replaces anything: the image replays
      cleanly to the state it was built from, compared as encoded bytes. */
  predicate ReplaysTo<T>(c: Codec<T>, check: Option<Replayed<T>>, s: Content<T>) {
    && check.Some? && check.value.format == V2 && check.value.tail == Clean
    && check.value.acc.content.tombs == s.tombs
    && |check.value.acc.content.records| == |s.records|
    && forall k :: k in check.value.acc.content.records ==>
         k in s.records && c.encode(s.records[k]) == c.encode(check.value.acc.content.records[k])
  }

  function Compact<T>(c: Codec<T>, log: Log<T>, disk: Bytes, ok: bool): Wrote<T> {
    if log.held || (|disk| > log.end && !log.cutOwed) || !ImageFits(c, log.content) then Wrote(log, disk, false)
    else
      var image := Image(c, log.content);
      if !ReplaysTo(c, Replay(c, image, true), log.content) || !ok then Wrote(log, disk, false)
      else Wrote(log.(end := |image|, cutOwed := false, removed := false), image, true)
  }

  function Wipe<T>(log: Log<T>, disk: Bytes, ok: bool): Wrote<T> {
    if log.held || !ok then Wrote(log, disk, false)
    else Wrote(Log(NoContent(), 0, false, false, false), [], true)
  }

  // ---- load ----

  function AsideOf(goodEnd: nat, tail: Bytes): AsideName {
    (goodEnd, |tail|, Crc(tail))
  }

  datatype Loaded<T> = Refused | Loaded(log: Log<T>, files: Files)

  /** The rewrite a load makes when the file asks for one. */
  function Repaired<T>(c: Codec<T>, r: Replayed<T>, log: Log<T>, files: Files, rewriteOk: bool): Loaded<T> {
    if r.format == V1 || r.tail != Clean || Grown(|files.disk|, r.liveLen) then
      var w := Compact(c, log, files.disk, rewriteOk);
      if w.ok then Loaded(w.log, files.(disk := w.disk))
      else if r.format == V1 then Loaded(log.(held := true), files)
      else Loaded(log, files)
    else Loaded(log, files)
  }

  /** `verify` is whether the checksum gives its known answers on this device;
      `asideOk` and `rewriteOk` are whether the two atomic writes succeed. */
  function Load<T>(c: Codec<T>, files: Files, verify: bool, asideOk: bool, rewriteOk: bool): Loaded<T> {
    match Replay(c, files.disk, verify)
    case None => Refused
    case Some(r) =>
      var log := Log(r.acc.content, r.goodEnd, false, false, r.acc.removed);
      if !verify then Loaded(log.(held := true), files)
      else if r.format == Empty then Loaded(log, files)
      else if r.tail.Unreadable? && !asideOk then Loaded(log.(held := true), files)
      else
        var tail := if r.goodEnd <= |files.disk| then files.disk[r.goodEnd..] else [];
        var files' := if r.tail.Unreadable? then files.(asides := files.asides[AsideOf(r.goodEnd, tail) := tail]) else files;
        Repaired(c, r, log.(cutOwed := r.tail != Clean), files', rewriteOk)
  }

  // ---- what a file means ----

  /** The state a verified replay of these bytes gives. */
  function Meaning<T>(c: Codec<T>, disk: Bytes): Option<Content<T>> {
    match Replay(c, disk, true)
    case None => None
    case Some(r) => Some(r.acc.content)
  }

  /** A version 2 file, or none, that replays whole to `s`. */
  ghost predicate CleanFile<T(!new)>(c: Codec<T>, bytes: Bytes, s: Content<T>) {
    || (bytes == [] && s == NoContent())
    || (|bytes| >= FILE_HEADER_LEN && bytes[..FILE_HEADER_LEN] == Header()
        && Run(c, V2, true, Start(), bytes[FILE_HEADER_LEN..]).1 == []
        && Run(c, V2, true, Start(), bytes[FILE_HEADER_LEN..]).0.content == s)
  }

  /** Bytes after a clean file: replay goes on from its state. */
  lemma CleanThen<T(!new)>(c: Codec<T>, pre: Bytes, s: Content<T>, tail: Bytes)
    requires CleanFile(c, pre, s) && pre != []
    ensures FormatOf(pre + tail) == Some((V2, FILE_HEADER_LEN))
    ensures exists acc: Acc<T> ::
      acc.content == s && Run(c, V2, true, Start(), (pre + tail)[FILE_HEADER_LEN..]) == Run(c, V2, true, acc, tail)
  {
    var frames := pre[FILE_HEADER_LEN..];
    assert pre == Header() + frames;
    assert pre + tail == Header() + (frames + tail);
    HeaderFormat(frames + tail);
    RunAppend(c, V2, true, Start(), frames, tail);
    var acc := Run(c, V2, true, Start(), frames).0;
    assert acc.content == s;
  }

  /** A tail that decodes to no frame changes nothing a file means. */
  lemma StoppedTail<T(!new)>(c: Codec<T>, pre: Bytes, s: Content<T>, tail: Bytes)
    requires CleanFile(c, pre, s) && pre != []
    requires DecodeAt(c, V2, true, tail) == None
    ensures Meaning(c, pre + tail) == Some(s)
  {
    CleanThen(c, pre, s, tail);
  }

  lemma CleanMeaning<T(!new)>(c: Codec<T>, pre: Bytes, s: Content<T>)
    requires CleanFile(c, pre, s)
    ensures Meaning(c, pre) == Some(s)
  {
    if pre != [] {
      assert pre + [] == pre;
      StoppedTail(c, pre, s, []);
    }
  }

  /** A whole frame after a clean file is folded, and the file is clean again. */
  lemma FrameLands<T(!new)>(c: Codec<T>, pre: Bytes, s: Content<T>, f: Frame<T>)
    requires Good(c) && CleanFile(c, pre, s) && pre != [] && Fits(c, f)
    ensures CleanFile(c, pre + Seal(Body(c, f)), Fold(c, s, f))
  {
    var tail := Seal(Body(c, f));
    CleanThen(c, pre, s, tail);
    var acc: Acc<T> :| acc.content == s
      && Run(c, V2, true, Start(), (pre + tail)[FILE_HEADER_LEN..]) == Run(c, V2, true, acc, tail);
    assert tail + [] == tail;
    SealedFrameDecodes(c, f, []);
    assert tail[|tail|..] == [];
    assert (pre + tail)[..FILE_HEADER_LEN] == pre[..FILE_HEADER_LEN];
  }

  lemma HeaderIsClean<T(!new)>(c: Codec<T>)
    ensures CleanFile<T>(c, Header(), NoContent())
  {
    assert Header()[FILE_HEADER_LEN..] == [];
    assert Header()[..FILE_HEADER_LEN] == Header();
    assert DecodeAt<T>(c, V2, true, []) == None;
  }

  /** The append that lands keeps the file clean, its state one frame further. */
  lemma BufferLands<T(!new)>(c: Codec<T>, pre: Bytes, s: Content<T>, f: Frame<T>)
    requires Good(c) && CleanFile(c, pre, s) && Fits(c, f)
    ensures CleanFile(c, pre + Buffer(|pre|, Body(c, f)), Fold(c, s, f))
  {
    var seal := Seal(Body(c, f));
    if pre == [] {
      HeaderIsClean(c);
      FrameLands(c, Header(), NoContent(), f);
      assert pre + Buffer(|pre|, Body(c, f)) == Header() + seal;
    } else {
      FrameLands(c, pre, s, f);
      assert Buffer(|pre|, Body(c, f)) == seal;
    }
  }

  lemma TornHeader<T(!new)>(c: Codec<T>, n: nat)
    requires 0 < n < FILE_HEADER_LEN
    ensures Meaning<T>(c, Header()[..n]) == Some(NoContent())
  {
    var b := Header()[..n];
    var m := if n < 4 then n else 4;
    assert b[..m] == MAGIC[..m];
  }

  /** Every proper prefix of an append leaves the file meaning what it did. */
  lemma BufferTears<T(!new)>(c: Codec<T>, pre: Bytes, s: Content<T>, f: Frame<T>, n: nat)
    requires Good(c) && CleanFile(c, pre, s) && Fits(c, f)
    requires n < |Buffer(|pre|, Body(c, f))|
    ensures Meaning(c, pre + Buffer(|pre|, Body(c, f))[..n]) == Some(s)
  {
    var seal := Seal(Body(c, f));
    var buf := Buffer(|pre|, Body(c, f));
    if pre != [] {
      assert buf == seal;
      TornFrameDoesNotRead(Body(c, f), n, true);
      StoppedTail(c, pre, s, seal[..n]);
    } else if n == 0 {
      assert pre + buf[..n] == [];
    } else if n < FILE_HEADER_LEN {
      assert pre + buf[..n] == Header()[..n];
      TornHeader(c, n);
    } else {
      var m := n - FILE_HEADER_LEN;
      assert pre + buf[..n] == Header() + seal[..m];
      TornFrameDoesNotRead(Body(c, f), m, true);
      HeaderIsClean(c);
      StoppedTail(c, Header(), NoContent(), seal[..m]);
    }
  }

  /** Nor do the zeros a crash can leave in its place. */
  lemma BlankTail<T(!new)>(c: Codec<T>, pre: Bytes, s: Content<T>, z: Bytes)
    requires Good(c) && CleanFile(c, pre, s) && AllZero(z)
    ensures Meaning(c, pre + z) == Some(s)
  {
    if pre != [] {
      ZerosAreNoFrame(z);
      StoppedTail(c, pre, s, z);
    } else {
      assert pre + z == z;
      if z != [] {
        assert z[0] == 0 && MAGIC[0] != 0;
        assert FormatOf(z) == Some((V1, 0)) by {
          if |z| >= 8 { assert z[..4][0] == 0; }
          var m := if |z| < 4 then |z| else 4;
          assert z[..m][0] == 0 && MAGIC[..m][0] == 0x4B;
        }
        assert z[0..] == z;
        if |z| >= 4 {
          assert z[0..4] == [0, 0, 0, 0];
          assert z[4..4] == [];
        }
        assert DecodeAt(c, V1, true, z) == None;
      }
    }
  }

  // ---- the rewrite's own check ----

  lemma SameKeys(a: set<Key>, b: set<Key>)
    requires a <= b && |a| == |b|
    ensures a == b
  {
    assert b == a + (b - a);
    assert |b| == |a| + |b - a|;
    assert b - a == {};
  }

  lemma CheckedMeansSame<T(!new)>(c: Codec<T>, check: Option<Replayed<T>>, s: Content<T>)
    requires Good(c) && ReplaysTo(c, check, s)
    ensures check.value.acc.content == s
  {
    var got := check.value.acc.content;
    SameKeys(got.records.Keys, s.records.Keys);
    forall k | k in s.records
      ensures got.records[k] == s.records[k]
    {
      assert c.decode(c.encode(s.records[k])) == Some(s.records[k]);
      assert c.decode(c.encode(got.records[k])) == Some(got.records[k]);
    }
    assert got.records == s.records;
  }

  lemma CleanTailIsEmpty(rest: Bytes)
    requires Classify(V2, rest) == Clean
    ensures rest == []
  {
  }

  /** A rewrite that happens leaves a clean file meaning the state in memory. */
  lemma CompactIsClean<T(!new)>(c: Codec<T>, log: Log<T>, disk: Bytes, ok: bool)
    requires Good(c) && Compact(c, log, disk, ok).ok
    ensures var w := Compact(c, log, disk, ok);
      && w.log.content == log.content && w.log.end == |w.disk| && !w.log.held
      && CleanFile(c, w.disk, log.content)
  {
    var image := Image(c, log.content);
    var frames := Frames(c, ImageFrames(log.content));
    var check := Replay(c, image, true);
    HeaderFormat(frames);
    CheckedMeansSame(c, check, log.content);
    CleanTailIsEmpty(Run(c, V2, true, Start(), frames).1);
    assert image[..FILE_HEADER_LEN] == Header();
  }

  /** The check never refuses a filed state: a rewrite fails only if an image
      frame cannot be written, another writer grew the file, or the disk fails. */
  lemma CompactSucceedsExactlyWhen<T(!new)>(c: Codec<T>, log: Log<T>, disk: Bytes, ok: bool)
    requires Good(c) && Filed(c, log.content)
    ensures Compact(c, log, disk, ok).ok <==>
      ok && !log.held && (|disk| <= log.end || log.cutOwed) && ImageFits(c, log.content)
  {
    if ImageFits(c, log.content) {
      ImageReplays(c, log.content);
    }
  }
}

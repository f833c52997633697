/** What a log's frames mean, said without folding them (the module documentation and
    `replay` in `rust/chain/src/kvlog.rs`): the last word on each key. A key has the
    record of the last upsert filed under it that no later removal follows; it is
    flagged exactly when its last removal, flag or unflag is a flag.

    Main results: `ReplayIsTheLastWord` (any file), `RequestMeans` (one request),
    `RunIsTheLastWord` (any run and the load after it) and `HoldsRemovedExactly`. */
module KvWords {
  import opened Bytes
  import opened KvKeys
  import opened KvFormat
  import opened KvImage
  import opened KvLog
  import opened KvRuns

  // ---- the last word on a key ----

  /** `f` replaces or removes the record of `k`. */
  predicate Refiles<T>(c: Codec<T>, f: Frame<T>, k: Key) {
    (f.Upsert? && c.keyOf(f.record) == k) || (f.Remove? && f.key == k)
  }

  /** `f` takes the flag off `k`. */
  predicate Unflags<T>(f: Frame<T>, k: Key) {
    (f.Remove? || f.Untombstone?) && f.key == k
  }

  predicate FilesAt<T>(c: Codec<T>, fs: seq<Frame<T>>, k: Key, i: int) {
    && 0 <= i < |fs| && fs[i].Upsert? && c.keyOf(fs[i].record) == k
    && forall j :: i < j < |fs| ==> !Refiles(c, fs[j], k)
  }

  predicate FlagsAt<T>(fs: seq<Frame<T>>, k: Key, i: int) {
    && 0 <= i < |fs| && fs[i].Tombstone? && fs[i].key == k
    && forall j :: i < j < |fs| ==> !Unflags(fs[j], k)
  }

  /** `s` holds of `k` exactly what the frames last said of it. */
  ghost predicate LastWord<T>(c: Codec<T>, fs: seq<Frame<T>>, s: Content<T>, k: Key) {
    && (k in s.records <==> exists i :: FilesAt(c, fs, k, i))
    && (forall i :: FilesAt(c, fs, k, i) ==> k in s.records && s.records[k] == fs[i].record)
    && (k in s.tombs <==> exists i :: FlagsAt(fs, k, i))
  }

  lemma FilesMore<T>(c: Codec<T>, fs: seq<Frame<T>>, f: Frame<T>, k: Key, i: int)
    ensures FilesAt(c, fs + [f], k, i) <==>
      if i == |fs| then f.Upsert? && c.keyOf(f.record) == k else FilesAt(c, fs, k, i) && !Refiles(c, f, k)
  {
    var more := fs + [f];
    if 0 <= i < |fs| {
      assert more[|fs|] == f;
      if FilesAt(c, fs, k, i) && !Refiles(c, f, k) {
        forall j | i < j < |more|
          ensures !Refiles(c, more[j], k)
        {
          if j < |fs| { assert more[j] == fs[j]; }
        }
      }
      if FilesAt(c, more, k, i) {
        forall j | i < j < |fs|
          ensures !Refiles(c, fs[j], k)
        {
          assert more[j] == fs[j];
        }
      }
    }
  }

  lemma FlagsMore<T>(fs: seq<Frame<T>>, f: Frame<T>, k: Key, i: int)
    ensures FlagsAt(fs + [f], k, i) <==>
      if i == |fs| then f.Tombstone? && f.key == k else FlagsAt(fs, k, i) && !Unflags(f, k)
  {
    var more := fs + [f];
    if 0 <= i < |fs| {
      assert more[|fs|] == f;
      if FlagsAt(fs, k, i) && !Unflags(f, k) {
        forall j | i < j < |more|
          ensures !Unflags(more[j], k)
        {
          if j < |fs| { assert more[j] == fs[j]; }
        }
      }
      if FlagsAt(more, k, i) {
        forall j | i < j < |fs|
          ensures !Unflags(fs[j], k)
        {
          assert more[j] == fs[j];
        }
      }
    }
  }

  lemma FiledMore<T>(c: Codec<T>, fs: seq<Frame<T>>, s: Content<T>, f: Frame<T>, k: Key)
    requires LastWord(c, fs, s, k)
    ensures var s' := Fold(c, s, f);
      && (k in s'.records <==> exists i :: FilesAt(c, fs + [f], k, i))
      && (forall i :: FilesAt(c, fs + [f], k, i) ==> k in s'.records && s'.records[k] == (fs + [f])[i].record)
  {
    var s' := Fold(c, s, f);
    FilesMore(c, fs, f, k, |fs|);
    forall i
      ensures FilesAt(c, fs + [f], k, i) ==> k in s'.records && s'.records[k] == (fs + [f])[i].record
      ensures FilesAt(c, fs, k, i) && !Refiles(c, f, k) ==> FilesAt(c, fs + [f], k, i)
    {
      FilesMore(c, fs, f, k, i);
    }
    if k in s'.records {
      if f.Upsert? && c.keyOf(f.record) == k {
        assert FilesAt(c, fs + [f], k, |fs|);
      } else {
        var i :| FilesAt(c, fs, k, i);
        assert FilesAt(c, fs + [f], k, i);
      }
    }
  }

  lemma FlaggedMore<T>(c: Codec<T>, fs: seq<Frame<T>>, s: Content<T>, f: Frame<T>, k: Key)
    requires LastWord(c, fs, s, k)
    ensures k in Fold(c, s, f).tombs <==> exists i :: FlagsAt(fs + [f], k, i)
  {
    FlagsMore(fs, f, k, |fs|);
    forall i
      ensures FlagsAt(fs + [f], k, i) && i != |fs| ==> FlagsAt(fs, k, i) && !Unflags(f, k)
      ensures FlagsAt(fs, k, i) && !Unflags(f, k) ==> FlagsAt(fs + [f], k, i)
    {
      FlagsMore(fs, f, k, i);
    }
    if k in Fold(c, s, f).tombs {
      if f.Tombstone? && f.key == k {
        assert FlagsAt(fs + [f], k, |fs|);
      } else {
        var i :| FlagsAt(fs, k, i);
        assert FlagsAt(fs + [f], k, i);
      }
    }
  }

  /** One frame further, the last word is still what the state holds. */
  lemma WordMore<T>(c: Codec<T>, fs: seq<Frame<T>>, s: Content<T>, f: Frame<T>, k: Key)
    requires LastWord(c, fs, s, k)
    ensures LastWord(c, fs + [f], Fold(c, s, f), k)
  {
    FiledMore(c, fs, s, f, k);
    FlaggedMore(c, fs, s, f, k);
  }

  lemma NothingSaid<T>(c: Codec<T>, k: Key)
    ensures LastWord(c, [], NoContent(), k)
  {
  }

  // ---- what a file says ----

  /** The frames replay reads, in order. */
  function ReadFrames<T>(c: Codec<T>, format: Format, verify: bool, rest: Bytes): seq<Frame<T>>
    decreases |rest|
  {
    match DecodeAt(c, format, verify, rest)
    case None => []
    case Some(d) => [d.frame] + ReadFrames(c, format, verify, rest[d.step..])
  }

  /** The frames a verified replay of a whole file reads. */
  function FileFrames<T>(c: Codec<T>, disk: Bytes): seq<Frame<T>> {
    match FormatOf(disk)
    case None => []
    case Some((format, at)) => if format == V2 && at == 0 then [] else ReadFrames(c, format, true, disk[at..])
  }

  predicate HasRemoval<T>(fs: seq<Frame<T>>) {
    exists i :: 0 <= i < |fs| && fs[i].Remove?
  }

  lemma RemovalMore<T>(fs: seq<Frame<T>>, f: Frame<T>)
    ensures HasRemoval(fs + [f]) <==> HasRemoval(fs) || f.Remove?
  {
    assert (fs + [f])[|fs|] == f;
    if HasRemoval(fs) {
      var i :| 0 <= i < |fs| && fs[i].Remove?;
      assert (fs + [f])[i].Remove?;
    }
  }

  predicate SaidOf<T>(acc: Acc<T>, said: seq<Frame<T>>) {
    acc.removed <==> HasRemoval(said)
  }

  lemma FoldSays<T>(c: Codec<T>, acc: Acc<T>, said: seq<Frame<T>>, f: Frame<T>, bodyLen: nat, k: Key)
    requires LastWord(c, said, acc.content, k) && SaidOf(acc, said)
    ensures var next := FoldAcc(c, acc, f, bodyLen); LastWord(c, said + [f], next.content, k) && SaidOf(next, said + [f])
  {
    WordMore(c, said, acc.content, f, k);
    RemovalMore(said, f);
  }

  lemma OneWordOn<T>(a: seq<Frame<T>>, f: Frame<T>, b: seq<Frame<T>>)
    ensures a + [f] + b == a + ([f] + b)
  {
  }

  lemma ReadNext<T>(c: Codec<T>, format: Format, verify: bool, acc: Acc<T>, rest: Bytes, d: Decoded<T>)
    requires DecodeAt(c, format, verify, rest) == Some(d)
    ensures ReadFrames(c, format, verify, rest) == [d.frame] + ReadFrames(c, format, verify, rest[d.step..])
    ensures Run(c, format, verify, acc, rest) == Run(c, format, verify, FoldAcc(c, acc, d.frame, d.bodyLen), rest[d.step..])
  {
  }

  ghost predicate Agrees<T>(c: Codec<T>, acc: Acc<T>, said: seq<Frame<T>>, k: Key) {
    LastWord(c, said, acc.content, k) && SaidOf(acc, said)
  }

  lemma {:induction false} RunSays<T>(c: Codec<T>, format: Format, verify: bool, acc: Acc<T>, rest: Bytes, said: seq<Frame<T>>, k: Key)
    requires Agrees(c, acc, said, k)
    ensures Agrees(c, Run(c, format, verify, acc, rest).0, said + ReadFrames(c, format, verify, rest), k)
    decreases |rest|
  {
    var next := DecodeAt(c, format, verify, rest);
    if next.None? {
      assert said + [] == said;
    } else {
      var d := next.value;
      ReadNext(c, format, verify, acc, rest, d);
      FoldSays(c, acc, said, d.frame, d.bodyLen, k);
      OneWordOn(said, d.frame, ReadFrames(c, format, verify, rest[d.step..]));
      RunSays(c, format, verify, FoldAcc(c, acc, d.frame, d.bodyLen), rest[d.step..], said + [d.frame], k);
    }
  }

  /** **A file means the last word of its frames,** whatever file it is; and replay
      says a removal is in it exactly when one is. */
  lemma ReplayIsTheLastWord<T>(c: Codec<T>, disk: Bytes, k: Key)
    requires Replay(c, disk, true).Some?
    ensures var r := Replay(c, disk, true).value;
      LastWord(c, FileFrames(c, disk), r.acc.content, k) && (r.acc.removed <==> HasRemoval(FileFrames(c, disk)))
  {
    var (format, at) := FormatOf(disk).value;
    NothingSaid(c, k);
    if !(format == V2 && at == 0) {
      RunSays(c, format, true, Start(), disk[at..], [], k);
      assert [] + FileFrames(c, disk) == FileFrames(c, disk);
    }
  }

  lemma FramesSplit<T(!new)>(c: Codec<T>, fs: seq<Frame<T>>)
    requires Good(c) && AllFit(c, fs) && fs != []
    ensures var head := Seal(Body(c, fs[0]));
      DecodeAt(c, V2, true, Frames(c, fs)) == Some(Decoded(fs[0], |Body(c, fs[0])|, |head|))
      && Frames(c, fs)[|head|..] == Frames(c, fs[1..])
  {
    var head := Seal(Body(c, fs[0]));
    SealedFrameDecodes(c, fs[0], Frames(c, fs[1..]));
    assert (head + Frames(c, fs[1..]))[|head|..] == Frames(c, fs[1..]);
  }

  /** What was written is what is read. */
  lemma {:induction false} WrittenAreRead<T(!new)>(c: Codec<T>, fs: seq<Frame<T>>)
    requires Good(c) && AllFit(c, fs)
    ensures ReadFrames(c, V2, true, Frames(c, fs)) == fs
    decreases |fs|
  {
    if fs == [] {
      assert DecodeAt(c, V2, true, []) == None;
    } else {
      FramesSplit(c, fs);
      WrittenAreRead(c, fs[1..]);
    }
  }

  /** **Frames written replay to their last word.** */
  lemma FramesMean<T(!new)>(c: Codec<T>, fs: seq<Frame<T>>, k: Key)
    requires Good(c) && AllFit(c, fs)
    ensures LastWord(c, fs, Run(c, V2, true, Start(), Frames(c, fs)).0.content, k)
    ensures Run(c, V2, true, Start(), Frames(c, fs)).0.removed <==> HasRemoval(fs)
  {
    NothingSaid(c, k);
    WrittenAreRead(c, fs);
    RunSays(c, V2, true, Start(), Frames(c, fs), [], k);
    assert [] + fs == fs;
  }

  // ---- what a request does ----

  /** The record and the flag of `k` are as they were. */
  predicate Untouched<T(==)>(s: Content<T>, s': Content<T>, k: Key) {
    (k in s'.records <==> k in s.records) && (k in s.records ==> s'.records[k] == s.records[k])
    && (k in s'.tombs <==> k in s.tombs)
  }

  predicate SameRecord<T(==)>(s: Content<T>, s': Content<T>, k: Key) {
    (k in s'.records <==> k in s.records) && (k in s.records ==> s'.records[k] == s.records[k])
  }

  predicate SameFlag<T>(s: Content<T>, s': Content<T>, k: Key) {
    k in s'.tombs <==> k in s.tombs
  }

  function KeyOfFrame<T>(c: Codec<T>, f: Frame<T>): Key {
    if f.Upsert? then c.keyOf(f.record) else f.key
  }

  /** What an acknowledged request has done to its own key. A removal of a key that has
      no record, and a flag on one, do nothing. */
  ghost predicate Done<T>(c: Codec<T>, s: Content<T>, s': Content<T>, f: Frame<T>) {
    match f
    case Upsert(r) => c.keyOf(r) in s'.records && s'.records[c.keyOf(r)] == r && SameFlag(s, s', c.keyOf(r))
    case Remove(k) => k !in s'.records && (k in s'.tombs <==> k in s.tombs && k !in s.records)
    case Tombstone(k) => SameRecord(s, s', k) && (k in s'.tombs <==> k in s.tombs || k in s.records)
    case Untombstone(k) => SameRecord(s, s', k) && k !in s'.tombs
  }

  /** **What a request does.** Acknowledged, it has done what it says to its own key
      and nothing to any other; refused, it has done nothing at all. */
  lemma RequestMeans<T(!new)>(c: Codec<T>, log: Log<T>, disk: Bytes, f: Frame<T>, fate: Fate, k: Key)
    requires Good(c)
    ensures var w := Request(c, log, disk, f, fate);
      && (w.ok ==> Done(c, log.content, w.log.content, f))
      && (!w.ok || k != KeyOfFrame(c, f) ==> Untouched(log.content, w.log.content, k))
      && (!w.ok ==> w.log.content == log.content && w.log.removed == log.removed)
  {
    match f
    case Upsert(r) =>
      if !Due(c, log.content, f) {
        SameBytesSameRecord(c, log.content.records[c.keyOf(r)], r);
      }
    case _ =>
  }

  lemma SameBytesSameRecord<T(!new)>(c: Codec<T>, a: T, b: T)
    requires Good(c) && c.encode(a) == c.encode(b)
    ensures a == b
  {
    assert c.decode(c.encode(a)) == Some(a) && c.decode(c.encode(b)) == Some(b);
  }

  /** Flags stand on records only. */
  predicate FlagsOnRecords<T>(s: Content<T>) {
    s.tombs <= s.records.Keys
  }

  /** In such a state an acknowledged removal leaves no flag either, and every request
      keeps it so. */
  lemma RequestKeepsFlags<T(!new)>(c: Codec<T>, log: Log<T>, disk: Bytes, f: Frame<T>, fate: Fate)
    requires Good(c) && FlagsOnRecords(log.content)
    ensures var w := Request(c, log, disk, f, fate);
      FlagsOnRecords(w.log.content) && (w.ok && f.Remove? ==> f.key !in w.log.content.records && f.key !in w.log.content.tombs)
  {
    RequestMeans(c, log, disk, f, fate, KeyOfFrame(c, f));
  }

  // ---- over runs ----

  /** What is pending, applied: one word more if it has something to say; a wipe ends
      all words. */
  function Say<T>(c: Codec<T>, said: seq<Frame<T>>, s: Content<T>, r: Option<Wanted<T>>): seq<Frame<T>> {
    match r
    case None => said
    case Some(Write(f)) => if Due(c, s, f) then said + [f] else said
    case Some(Nothing) => []
  }

  /** The words in force: those of the file at the start, then each acknowledged
      request that had something to write, from the last acknowledged wipe on; and what
      a load found pending. */
  function Heard<T>(c: Codec<T>, w: World<T>, p: Promise<T>, said: seq<Frame<T>>, e: Event<T>): seq<Frame<T>> {
    var ack := Next(c, w, e).1;
    if e.Open? then if ack then Say(c, said, p.sure, p.pending) else said
    else if !Touches(c, w, e) || !ack then said
    else match e
      case Ask(f, _) => said + [f]
      case Erase(_) => []
      case _ => said
  }

  function HeardAll<T>(c: Codec<T>, w: World<T>, p: Promise<T>, said: seq<Frame<T>>, es: seq<Event<T>>): seq<Frame<T>>
    decreases |es|
  {
    if es == [] then said
    else HeardAll(c, Next(c, w, es[0]).0, Track(c, w, p, es[0]), Heard(c, w, p, said, es[0]), es[1..])
  }

  lemma SayHolds<T>(c: Codec<T>, said: seq<Frame<T>>, p: Promise<T>, k: Key)
    requires LastWord(c, said, p.sure, k)
    ensures LastWord(c, Say(c, said, p.sure, p.pending), Found(c, p), k)
  {
    match p.pending
    case None =>
    case Some(Write(f)) => if Due(c, p.sure, f) { WordMore(c, said, p.sure, f, k); }
    case Some(Nothing) => NothingSaid(c, k);
  }

  lemma AskHolds<T>(c: Codec<T>, w: World<T>, p: Promise<T>, said: seq<Frame<T>>, e: Event<T>, k: Key)
    requires LastWord(c, said, p.sure, k) && e.Ask? && (w.log.Some? ==> w.log.value.content == p.sure)
    ensures LastWord(c, Heard(c, w, p, said, e), Track(c, w, p, e).sure, k)
  {
    if Touches(c, w, e) {
      WordMore(c, said, p.sure, e.f, k);
      var due := Do(c, p.sure, e.f);
      if Next(c, w, e).1 {
        assert Track(c, w, p, e).sure == due;
      }
    }
  }

  lemma HeardHolds<T>(c: Codec<T>, w: World<T>, p: Promise<T>, said: seq<Frame<T>>, e: Event<T>, k: Key)
    requires LastWord(c, said, p.sure, k) && (w.log.Some? ==> w.log.value.content == p.sure)
    ensures LastWord(c, Heard(c, w, p, said, e), Track(c, w, p, e).sure, k)
  {
    match e
    case Open(_, _) => SayHolds(c, said, p, k);
    case Ask(_, _) => AskHolds(c, w, p, said, e, k);
    case Erase(_) => NothingSaid(c, k);
    case _ =>
  }

  lemma {:induction false} HeardAllHolds<T(!new)>(c: Codec<T>, w: World<T>, p: Promise<T>, said: seq<Frame<T>>, es: seq<Event<T>>, k: Key)
    requires Good(c) && WorldInv(c, w, p) && LastWord(c, said, p.sure, k)
    ensures LastWord(c, HeardAll(c, w, p, said, es), Play(c, w, p, es).1.sure, k)
    decreases |es|
  {
    if es != [] {
      StepKeeps(c, w, p, es[0]);
      HeardHolds(c, w, p, said, es[0], k);
      HeardAllHolds(c, Next(c, w, es[0]).0, Track(c, w, p, es[0]), Heard(c, w, p, said, es[0]), es[1..], k);
    }
  }

  /** **A run is its last word.** From any file this build reads, after any run of
      loads, requests, compactions, wipes and deaths with any failures, the next load
      serves of every key what the frames of the first file, the acknowledged requests
      since the last acknowledged wipe, and the one pending operation, last said of it. */
  lemma RunIsTheLastWord<T(!new)>(c: Codec<T>, files: Files, es: seq<Event<T>>, asideOk: bool, rewriteOk: bool, k: Key)
    requires Good(c) && Meaning(c, files.disk).Some?
    ensures var (w0, p0) := Fresh(c, files); var (w, p) := Play(c, w0, p0, es);
      var said := HeardAll(c, w0, p0, FileFrames(c, files.disk), es);
      var l := Load(c, w.files, true, asideOk, rewriteOk);
      && l.Loaded? && LastWord(c, said, p.sure, k)
      && LastWord(c, Say(c, said, p.sure, p.pending), l.log.content, k)
  {
    var (w0, p0) := Fresh(c, files);
    var p := Play(c, w0, p0, es).1;
    ReplayIsTheLastWord(c, files.disk, k);
    HeardAllHolds(c, w0, p0, FileFrames(c, files.disk), es, k);
    SayHolds(c, HeardAll(c, w0, p0, FileFrames(c, files.disk), es), p, k);
    Recovery(c, files, es, asideOk, rewriteOk);
  }

  // ---- whether a removal's bytes are still in the file ----

  /** Frames from end to end. */
  predicate AllFrames<T>(c: Codec<T>, format: Format, rest: Bytes)
    decreases |rest|
  {
    match DecodeAt(c, format, true, rest)
    case None => rest == []
    case Some(d) => AllFrames(c, format, rest[d.step..])
  }

  lemma {:induction false} RunIsAllFrames<T>(c: Codec<T>, format: Format, acc: Acc<T>, rest: Bytes)
    requires Run(c, format, true, acc, rest).1 == []
    ensures AllFrames(c, format, rest)
    decreases |rest|
  {
    var next := DecodeAt(c, format, true, rest);
    if next.Some? {
      RunIsAllFrames(c, format, FoldAcc(c, acc, next.value.frame, next.value.bodyLen), rest[next.value.step..]);
    }
  }

  lemma FirstOfBoth<T>(c: Codec<T>, format: Format, a: Bytes, b: Bytes, d: Decoded<T>)
    requires DecodeAt(c, format, true, a) == Some(d)
    ensures DecodeAt(c, format, true, a + b) == Some(d) && (a + b)[d.step..] == a[d.step..] + b
  {
    assert (a + b)[..d.step] == a[..d.step];
    DecodeIsLocal(c, format, true, a, a + b);
  }

  lemma {:induction false} ReadAppend<T>(c: Codec<T>, format: Format, a: Bytes, b: Bytes)
    requires AllFrames(c, format, a)
    ensures ReadFrames(c, format, true, a + b) == ReadFrames(c, format, true, a) + ReadFrames(c, format, true, b)
    decreases |a|
  {
    var next := DecodeAt(c, format, true, a);
    if next.None? {
      assert a + b == b;
    } else {
      FirstOfBoth(c, format, a, b, next.value);
      ReadAppend(c, format, a[next.value.step..], b);
    }
  }

  /** The frames behind a version 2 header. */
  lemma BehindHeader<T>(c: Codec<T>, frames: Bytes)
    ensures FileFrames(c, Header() + frames) == ReadFrames(c, V2, true, frames)
  {
    HeaderFormat(frames);
  }

  lemma SealSays<T(!new)>(c: Codec<T>, f: Frame<T>)
    requires Good(c) && Fits(c, f)
    ensures ReadFrames(c, V2, true, Seal(Body(c, f))) == [f]
  {
    var one := [f];
    assert one[1..] == [];
    assert Frames(c, one) == Seal(Body(c, f)) + [] == Seal(Body(c, f));
    WrittenAreRead(c, one);
  }

  lemma FirstLands<T>(c: Codec<T>, seal: Bytes)
    ensures FileFrames(c, Header() + seal) == FileFrames(c, []) + ReadFrames(c, V2, true, seal)
  {
    BehindHeader(c, seal);
  }

  lemma BufferIs(pre: Bytes, body: Bytes)
    requires |body| < U32_LIMIT
    ensures pre + Buffer(|pre|, body) == if pre == [] then Header() + Seal(body) else pre + Seal(body)
  {
  }

  /** A clean file with an append landed behind it says one frame more. */
  lemma LandedSays<T(!new)>(c: Codec<T>, pre: Bytes, s: Content<T>, f: Frame<T>)
    requires Good(c) && CleanFile(c, pre, s) && Fits(c, f)
    ensures FileFrames(c, pre + Buffer(|pre|, Body(c, f))) == FileFrames(c, pre) + [f]
  {
    var seal := Seal(Body(c, f));
    SealSays(c, f);
    BufferIs(pre, Body(c, f));
    if pre == [] {
      FirstLands(c, seal);
    } else {
      LandedBehind(c, pre, s, seal);
    }
  }

  lemma LandedBehind<T(!new)>(c: Codec<T>, pre: Bytes, s: Content<T>, seal: Bytes)
    requires CleanFile(c, pre, s) && pre != []
    ensures FileFrames(c, pre + seal) == FileFrames(c, pre) + ReadFrames(c, V2, true, seal)
  {
    var frames := pre[FILE_HEADER_LEN..];
    assert pre == Header() + frames;
    SealedBehind(c, frames, seal);
  }

  lemma SealedBehind<T>(c: Codec<T>, frames: Bytes, seal: Bytes)
    requires Run(c, V2, true, Start(), frames).1 == []
    ensures FileFrames(c, Header() + frames + seal)
         == FileFrames(c, Header() + frames) + ReadFrames(c, V2, true, seal)
  {
    assert Header() + frames + seal == Header() + (frames + seal);
    BehindHeader(c, frames);
    BehindHeader(c, frames + seal);
    RunIsAllFrames(c, V2, Start(), frames);
    ReadAppend(c, V2, frames, seal);
  }

  /** A file up to its last good frame says what the whole file says. */
  lemma GoodEndSays<T(!new)>(c: Codec<T>, disk: Bytes)
    requires Replay(c, disk, true).Some? && Replay(c, disk, true).value.format != V1
    ensures var r := Replay(c, disk, true).value;
      r.goodEnd <= |disk| && FileFrames(c, disk[..r.goodEnd]) == FileFrames(c, disk)
  {
    LeftOverIsTail(c, disk);
    if FormatOf(disk) == Some((V2, FILE_HEADER_LEN)) {
      var frames := disk[FILE_HEADER_LEN..];
      RunLeavesSuffix(c, V2, true, Start(), frames);
      var left := Run(c, V2, true, Start(), frames).1;
      var used := frames[..|frames| - |left|];
      assert frames == used + left;
      RunPrefix(c, V2, true, Start(), used, left);
      RunIsAllFrames(c, V2, Start(), used);
      ReadAppend(c, V2, used, left);
      assert ReadFrames(c, V2, true, left) == [];
      HeaderRead(disk);
      var r := Replay(c, disk, true).value;
      assert disk == Header() + frames && disk[..r.goodEnd] == Header() + used;
      BehindHeader(c, frames);
      BehindHeader(c, used);
    } else {
      assert disk[..0] == [];
    }
  }

  /** A writable log knows exactly whether a removal's frame is in its file. */
  ghost predicate KnowsRemovals<T(!new)>(c: Codec<T>, log: Log<T>, disk: Bytes) {
    log.held || (log.end <= |disk| && (log.removed <==> HasRemoval(FileFrames(c, disk[..log.end]))))
  }

  lemma ImageHasNoRemoval<T(!new)>(c: Codec<T>, s: Content<T>)
    requires Good(c) && ImageFits(c, s)
    ensures !HasRemoval(FileFrames(c, Image(c, s)))
  {
    BehindHeader(c, Frames(c, ImageFrames(s)));
    WrittenAreRead(c, ImageFrames(s));
  }

  lemma RequestKnows<T(!new)>(c: Codec<T>, log: Log<T>, disk: Bytes, f: Frame<T>, fate: Fate)
    requires Good(c) && LogInv(c, log, disk) && KnowsRemovals(c, log, disk)
    ensures var w := Request(c, log, disk, f, fate); KnowsRemovals(c, w.log, w.disk)
  {
    if Reaches(c, log, f, fate) {
      var pre := disk[..log.end];
      AppendShape(log, disk, Body(c, f), fate);
      if fate.Lands? {
        LandedSays(c, pre, log.content, f);
        RemovalMore(FileFrames(c, pre), f);
      }
    }
  }

  lemma ImageKnows<T(!new)>(c: Codec<T>, s: Content<T>, log: Log<T>)
    requires Good(c) && ImageFits(c, s) && log.end == |Image(c, s)| && !log.removed
    ensures KnowsRemovals(c, log, Image(c, s))
  {
    ImageHasNoRemoval(c, s);
    assert Image(c, s)[..log.end] == Image(c, s);
  }

  lemma CompactedKnows<T(!new)>(c: Codec<T>, log: Log<T>, disk: Bytes, ok: bool)
    requires Good(c) && Compact(c, log, disk, ok).ok
    ensures var w := Compact(c, log, disk, ok); KnowsRemovals(c, w.log, w.disk)
  {
    ImageKnows(c, log.content, Compact(c, log, disk, ok).log);
  }

  lemma CompactKnows<T(!new)>(c: Codec<T>, log: Log<T>, disk: Bytes, ok: bool)
    requires Good(c) && KnowsRemovals(c, log, disk)
    ensures var w := Compact(c, log, disk, ok); KnowsRemovals(c, w.log, w.disk)
  {
    if Compact(c, log, disk, ok).ok {
      CompactedKnows(c, log, disk, ok);
    }
  }

  lemma OpenedKnows<T(!new)>(c: Codec<T>, disk: Bytes)
    requires Good(c) && Replay(c, disk, true).Some? && Replay(c, disk, true).value.format != V1
    ensures KnowsRemovals(c, Opened(Replay(c, disk, true).value), disk)
  {
    ReplayIsTheLastWord(c, disk, []);
    GoodEndSays(c, disk);
  }

  lemma RepairedKnows<T(!new)>(c: Codec<T>, r: Replayed<T>, log: Log<T>, files: Files, rewriteOk: bool)
    requires Good(c) && (r.format == V1 || KnowsRemovals(c, log, files.disk))
    ensures var l := Repaired(c, r, log, files, rewriteOk); l.Loaded? && KnowsRemovals(c, l.log, l.files.disk)
  {
    if Compact(c, log, files.disk, rewriteOk).ok {
      CompactedKnows(c, log, files.disk, rewriteOk);
    }
  }

  lemma LoadKnows<T(!new)>(c: Codec<T>, files: Files, asideOk: bool, rewriteOk: bool)
    requires Good(c) && Replay(c, files.disk, true).Some?
    ensures var l := Load(c, files, true, asideOk, rewriteOk); l.Loaded? && KnowsRemovals(c, l.log, l.files.disk)
  {
    var r := Replay(c, files.disk, true).value;
    if r.format != V1 {
      OpenedKnows(c, files.disk);
    }
    var tail := if r.goodEnd <= |files.disk| then files.disk[r.goodEnd..] else [];
    var files' := if r.tail.Unreadable? then files.(asides := files.asides[AsideOf(r.goodEnd, tail) := tail]) else files;
    RepairedKnows(c, r, Opened(r), files', rewriteOk);
  }

  lemma NextKnows<T(!new)>(c: Codec<T>, w: World<T>, p: Promise<T>, e: Event<T>)
    requires Good(c) && WorldInv(c, w, p) && (w.log.Some? ==> KnowsRemovals(c, w.log.value, w.files.disk))
    ensures var w' := Next(c, w, e).0; w'.log.Some? ==> KnowsRemovals(c, w'.log.value, w'.files.disk)
  {
    match e
    case Open(asideOk, rewriteOk) => LoadKnows(c, w.files, asideOk, rewriteOk);
    case Ask(f, fate) => if w.log.Some? { RequestKnows(c, w.log.value, w.files.disk, f, fate); }
    case Squeeze(ok) => if w.log.Some? { CompactKnows(c, w.log.value, w.files.disk, ok); }
    case _ =>
  }

  /** **A log knows whether removed records' bytes are still in its file,** after any
      run: exactly when a removal's frame stands before its end. */
  lemma {:induction false} HoldsRemovedExactly<T(!new)>(c: Codec<T>, w: World<T>, p: Promise<T>, es: seq<Event<T>>)
    requires Good(c) && WorldInv(c, w, p) && (w.log.Some? ==> KnowsRemovals(c, w.log.value, w.files.disk))
    ensures var w' := Play(c, w, p, es).0; w'.log.Some? ==> KnowsRemovals(c, w'.log.value, w'.files.disk)
    decreases |es|
  {
    if es != [] {
      StepKeeps(c, w, p, es[0]);
      NextKnows(c, w, p, es[0]);
      HoldsRemovedExactly(c, Next(c, w, es[0]).0, Track(c, w, p, es[0]), es[1..]);
    }
  }
}

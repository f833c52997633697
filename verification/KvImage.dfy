/** The compacted file: one frame per live record, one per ghost flag, in key order
    (`Log::image` in `rust/chain/src/kvlog.rs`), and what replaying it gives back.

    `FramesReplay` is the writer and the reader together: any frames written are
    folded whole and in order. From it, `ImageReplays`: the image of any state
    replays cleanly to exactly that state, and the length replay measures for it is
    the image's own. `ReplayedImage` reads the other way: whatever a file of
    canonical frames holds, what was replayed from it can be compacted, to exactly
    the live length the growth rule compares the file with. */
module KvImage {
  import opened Bytes
  import opened KvKeys
  import opened KvFormat

  predicate AllFit<T>(c: Codec<T>, fs: seq<Frame<T>>) {
    forall i :: 0 <= i < |fs| ==> Fits(c, fs[i])
  }

  /** Frames written one after another. */
  function Frames<T>(c: Codec<T>, fs: seq<Frame<T>>): Bytes
    requires AllFit(c, fs)
  {
    if fs == [] then [] else Seal(Body(c, fs[0])) + Frames(c, fs[1..])
  }

  function FoldAll<T>(c: Codec<T>, acc: Acc<T>, fs: seq<Frame<T>>): Acc<T>
    requires AllFit(c, fs)
    decreases |fs|
  {
    if fs == [] then acc else FoldAll(c, FoldAcc(c, acc, fs[0], |Body(c, fs[0])|), fs[1..])
  }

  lemma SealedFrameDecodes<T(!new)>(c: Codec<T>, f: Frame<T>, rest: Bytes)
    requires Good(c) && Fits(c, f)
    ensures DecodeAt(c, V2, true, Seal(Body(c, f)) + rest) == Some(Decoded(f, |Body(c, f)|, |Seal(Body(c, f))|))
  {
    SealedFrameReads(Body(c, f), rest, true);
    BodyRoundTrip(c, f);
  }

  /** What the writer writes, the reader folds: whole and in order. */
  lemma {:induction false} FramesReplay<T(!new)>(c: Codec<T>, acc: Acc<T>, fs: seq<Frame<T>>)
    requires Good(c) && AllFit(c, fs)
    ensures Run(c, V2, true, acc, Frames(c, fs)) == (FoldAll(c, acc, fs), [])
    decreases |fs|
  {
    if fs == [] {
      assert DecodeAt(c, V2, true, []) == None;
    } else {
      var head := Seal(Body(c, fs[0]));
      SealedFrameDecodes(c, fs[0], Frames(c, fs[1..]));
      assert (head + Frames(c, fs[1..]))[|head|..] == Frames(c, fs[1..]);
      FramesReplay(c, FoldAcc(c, acc, fs[0], |Body(c, fs[0])|), fs[1..]);
    }
  }

  function Upserts<T>(records: map<Key, T>, ks: seq<Key>): (fs: seq<Frame<T>>)
    requires forall k :: k in ks ==> k in records
    ensures |fs| == |ks| && forall i :: 0 <= i < |ks| ==> fs[i] == Upsert(records[ks[i]])
  {
    if ks == [] then [] else [Upsert(records[ks[0]])] + Upserts(records, ks[1..])
  }

  function Tombstones<T>(ks: seq<Key>): (fs: seq<Frame<T>>)
    ensures |fs| == |ks| && forall i :: 0 <= i < |ks| ==> fs[i] == Tombstone(ks[i])
  {
    if ks == [] then [] else [Tombstone(ks[0])] + Tombstones(ks[1..])
  }

  function ImageFrames<T>(s: Content<T>): seq<Frame<T>> {
    Upserts(s.records, SortedKeys(s.records.Keys)) + Tombstones(SortedKeys(s.tombs))
  }

  /** Every frame of the image can be written. */
  predicate ImageFits<T>(c: Codec<T>, s: Content<T>) {
    AllFit(c, ImageFrames(s))
  }

  function Image<T>(c: Codec<T>, s: Content<T>): Bytes
    requires ImageFits(c, s)
  {
    Header() + Frames(c, ImageFrames(s))
  }

  /** Every record is filed under its own key. */
  predicate Filed<T>(c: Codec<T>, s: Content<T>) {
    forall k :: k in s.records ==> c.keyOf(s.records[k]) == k
  }

  function UpsertLen<T>(c: Codec<T>, r: T): nat {
    FRAME_HEADER_LEN + 1 + |c.encode(r)|
  }

  lemma {:induction false} FoldAllSplit<T>(c: Codec<T>, acc: Acc<T>, fs: seq<Frame<T>>, gs: seq<Frame<T>>)
    requires AllFit(c, fs) && AllFit(c, gs)
    ensures FoldAll(c, acc, fs + gs) == FoldAll(c, FoldAll(c, acc, fs), gs)
    decreases |fs|
  {
    if fs == [] {
      assert fs + gs == gs;
    } else {
      assert (fs + gs)[0] == fs[0] && (fs + gs)[1..] == fs[1..] + gs;
      FoldAllSplit(c, FoldAcc(c, acc, fs[0], |Body(c, fs[0])|), fs[1..], gs);
    }
  }

  /** `m` with the entries of `from` at `ks` put in, one after another. */
  function PutAll<V>(m: map<Key, V>, from: map<Key, V>, ks: seq<Key>): map<Key, V>
    requires forall k :: k in ks ==> k in from
    decreases |ks|
  {
    if ks == [] then m else PutAll(m[ks[0] := from[ks[0]]], from, ks[1..])
  }

  lemma {:induction false} PutAllHolds<V>(m: map<Key, V>, from: map<Key, V>, ks: seq<Key>)
    requires forall k :: k in ks ==> k in from
    ensures var r := PutAll(m, from, ks);
      && (forall k :: k in r <==> k in m || k in ks)
      && (forall k :: k in r ==> r[k] == if k in ks then from[k] else m[k])
    decreases |ks|
  {
    if ks != [] {
      PutAllHolds(m[ks[0] := from[ks[0]]], from, ks[1..]);
    }
  }

  lemma PutAllWhole<V>(from: map<Key, V>)
    ensures PutAll(map[], from, SortedKeys(from.Keys)) == from
  {
    PutAllHolds(map[], from, SortedKeys(from.Keys));
  }

  function UpsertLens<T>(c: Codec<T>, records: map<Key, T>): map<Key, nat> {
    map k | k in records :: UpsertLen(c, records[k])
  }

  lemma {:induction false} FoldUpserts<T>(c: Codec<T>, acc: Acc<T>, records: map<Key, T>, ks: seq<Key>)
    requires forall k :: k in ks ==> k in records && c.keyOf(records[k]) == k
    requires AllFit(c, Upserts(records, ks))
    ensures FoldAll(c, acc, Upserts(records, ks)) ==
      Acc(Content(PutAll(acc.content.records, records, ks), acc.content.tombs),
          PutAll(acc.sizes, UpsertLens(c, records), ks), acc.removed)
    decreases |ks|
  {
    var fs := Upserts(records, ks);
    if ks != [] {
      var k := ks[0];
      assert k in ks;
      var acc' := FoldAcc(c, acc, fs[0], |Body(c, fs[0])|);
      assert acc' == Acc(Content(acc.content.records[k := records[k]], acc.content.tombs),
                         acc.sizes[k := UpsertLen(c, records[k])], acc.removed);
      assert fs[1..] == Upserts(records, ks[1..]);
      FoldUpserts(c, acc', records, ks[1..]);
    }
  }

  lemma {:induction false} FoldTombstones<T>(c: Codec<T>, acc: Acc<T>, ks: seq<Key>)
    requires AllFit(c, Tombstones<T>(ks))
    ensures FoldAll(c, acc, Tombstones(ks)) ==
      acc.(content := acc.content.(tombs := acc.content.tombs + (set k | k in ks)))
    decreases |ks|
  {
    var fs := Tombstones<T>(ks);
    if ks == [] {
      assert acc.content.tombs + (set k | k in ks) == acc.content.tombs;
    } else {
      var acc' := FoldAcc(c, acc, fs[0], |Body(c, fs[0])|);
      assert fs[1..] == Tombstones(ks[1..]);
      FoldTombstones(c, acc', ks[1..]);
      assert acc'.content.tombs + (set k | k in ks[1..]) == acc.content.tombs + (set k | k in ks);
    }
  }

  /** The state an image's frames fold to. */
  function Restored<T>(c: Codec<T>, s: Content<T>): Acc<T> {
    Acc(s, UpsertLens(c, s.records), false)
  }

  lemma ImageParts<T>(c: Codec<T>, s: Content<T>)
    requires ImageFits(c, s)
    ensures AllFit(c, Upserts(s.records, SortedKeys(s.records.Keys)))
    ensures AllFit(c, Tombstones<T>(SortedKeys(s.tombs)))
  {
    var us, gs := Upserts(s.records, SortedKeys(s.records.Keys)), Tombstones<T>(SortedKeys(s.tombs));
    forall i | 0 <= i < |us| ensures Fits(c, us[i]) { assert us[i] == ImageFrames(s)[i]; }
    forall i | 0 <= i < |gs| ensures Fits(c, gs[i]) { assert gs[i] == ImageFrames(s)[|us| + i]; }
  }

  lemma ImageFolds<T>(c: Codec<T>, s: Content<T>)
    requires ImageFits(c, s) && Filed(c, s)
    ensures FoldAll(c, Start(), ImageFrames(s)) == Restored(c, s)
  {
    var ks, ts := SortedKeys(s.records.Keys), SortedKeys(s.tombs);
    var us, gs := Upserts(s.records, ks), Tombstones<T>(ts);
    ImageParts(c, s);
    FoldAllSplit(c, Start(), us, gs);
    FoldUpserts(c, Start(), s.records, ks);
    FoldTombstones(c, FoldAll(c, Start(), us), ts);
    PutAllWhole(s.records);
    PutAllWhole(UpsertLens(c, s.records));
    assert UpsertLens(c, s.records).Keys == s.records.Keys;
    assert {} + (set k | k in ts) == s.tombs;
  }

  lemma {:induction false} FramesLen<T>(c: Codec<T>, fs: seq<Frame<T>>, gs: seq<Frame<T>>)
    requires AllFit(c, fs) && AllFit(c, gs)
    ensures |Frames(c, fs + gs)| == |Frames(c, fs)| + |Frames(c, gs)|
    decreases |fs|
  {
    if fs == [] {
      assert fs + gs == gs;
    } else {
      assert (fs + gs)[1..] == fs[1..] + gs;
      FramesLen(c, fs[1..], gs);
    }
  }

  lemma {:induction false} UpsertsLen<T>(c: Codec<T>, records: map<Key, T>, ks: seq<Key>, sizes: map<Key, nat>)
    requires forall k :: k in ks ==> k in records && k in sizes && sizes[k] == UpsertLen(c, records[k])
    requires AllFit(c, Upserts(records, ks))
    ensures |Frames(c, Upserts(records, ks))| == SumSizes(ks, sizes)
    decreases |ks|
  {
    if ks != [] {
      assert Upserts(records, ks)[1..] == Upserts(records, ks[1..]);
      UpsertsLen(c, records, ks[1..], sizes);
    }
  }

  lemma {:induction false} TombstonesLen<T>(c: Codec<T>, ks: seq<Key>)
    requires AllFit(c, Tombstones<T>(ks))
    ensures |Frames(c, Tombstones<T>(ks))| == SumTombs(ks)
    decreases |ks|
  {
    if ks != [] {
      assert Tombstones<T>(ks)[1..] == Tombstones<T>(ks[1..]);
      TombstonesLen(c, ks[1..]);
    }
  }

  /** The growth rule's yardstick is the length compaction would write. */
  lemma LiveLenIsImageLen<T>(c: Codec<T>, acc: Acc<T>)
    requires ImageFits(c, acc.content)
    requires acc.sizes == Restored(c, acc.content).sizes
    ensures LiveLen(acc) == |Image(c, acc.content)|
  {
    var s := acc.content;
    var ks, ts := SortedKeys(s.records.Keys), SortedKeys(s.tombs);
    var us, gs := Upserts(s.records, ks), Tombstones<T>(ts);
    ImageParts(c, s);
    assert acc.sizes.Keys == s.records.Keys;
    FramesLen(c, us, gs);
    UpsertsLen(c, s.records, ks, acc.sizes);
    TombstonesLen(c, ts);
  }

  lemma HeaderFormat(rest: Bytes)
    ensures FormatOf(Header() + rest) == Some((V2, FILE_HEADER_LEN))
    ensures (Header() + rest)[FILE_HEADER_LEN..] == rest
  {
    var b := Header() + rest;
    LE32RoundTrip(VERSION);
    assert b[..4] == MAGIC;
    assert b[4..8] == ToLE32(VERSION);
  }

  lemma CleanReplay<T>(c: Codec<T>, frames: Bytes, acc: Acc<T>)
    requires Run(c, V2, true, Start(), frames) == (acc, [])
    ensures Replay(c, Header() + frames, true) == Some(Replayed(V2, acc, |Header() + frames|, Clean, LiveLen(acc)))
  {
    HeaderFormat(frames);
    assert ReplayFrames(c, true, V2, FILE_HEADER_LEN, Header() + frames) == (acc, []);
    assert Classify(V2, []) == Clean;
  }

  /** Compaction preserves meaning: the image of any filed state replays cleanly
      and whole to exactly that state, and measures itself exactly. */
  lemma ImageReplays<T(!new)>(c: Codec<T>, s: Content<T>)
    requires Good(c) && ImageFits(c, s) && Filed(c, s)
    ensures Replay(c, Image(c, s), true) ==
      Some(Replayed(V2, Restored(c, s), |Image(c, s)|, Clean, |Image(c, s)|))
  {
    FramesReplay(c, Start(), ImageFrames(s));
    ImageFolds(c, s);
    CleanReplay(c, Frames(c, ImageFrames(s)), Restored(c, s));
    LiveLenIsImageLen(c, Restored(c, s));
  }

  // ---- files a canonical coding wrote ----

  /** Each decodable body is the one encoding of its record. */
  ghost predicate Canonical<T(!new)>(c: Codec<T>) {
    forall b, t :: c.decode(b) == Some(t) ==> c.encode(t) == b
  }

  /** What replaying version 2 frames of a canonical coding keeps true. */
  predicate Measured<T>(c: Codec<T>, acc: Acc<T>) {
    && Filed(c, acc.content)
    && acc.sizes.Keys == acc.content.records.Keys
    && (forall k :: k in acc.content.records ==>
          Fits(c, Upsert(acc.content.records[k])) && acc.sizes[k] == UpsertLen(c, acc.content.records[k]))
    && (forall k :: k in acc.content.tombs ==> KeyFits(c, k))
  }

  lemma DecodedFrameFits<T(!new)>(c: Codec<T>, rest: Bytes)
    requires Good(c) && Canonical(c) && DecodeAt(c, V2, true, rest).Some?
    ensures var d := DecodeAt(c, V2, true, rest).value;
      Fits(c, d.frame) && |Body(c, d.frame)| == d.bodyLen
  {
    var b := FrameChecked(rest, true).value;
    assert b != [] && |b| < U32_LIMIT;
    if b[0] == 0 {
      assert c.encode(c.decode(b[1..]).value) == b[1..];
    }
  }

  lemma FoldMeasured<T>(c: Codec<T>, acc: Acc<T>, f: Frame<T>)
    requires Measured(c, acc) && Fits(c, f)
    ensures Measured(c, FoldAcc(c, acc, f, |Body(c, f)|))
  {
    match f
    case Upsert(r) =>
    case Remove(k) =>
    case Tombstone(k) =>
    case Untombstone(k) =>
  }

  lemma {:induction false} RunMeasured<T(!new)>(c: Codec<T>, acc: Acc<T>, rest: Bytes)
    requires Good(c) && Canonical(c) && Measured(c, acc)
    ensures Measured(c, Run(c, V2, true, acc, rest).0)
    decreases |rest|
  {
    match DecodeAt(c, V2, true, rest)
    case None =>
    case Some(d) =>
      DecodedFrameFits(c, rest);
      FoldMeasured(c, acc, d.frame);
      RunMeasured(c, FoldAcc(c, acc, d.frame, d.bodyLen), rest[d.step..]);
  }

  lemma {:induction false} RunFiled<T>(c: Codec<T>, format: Format, verify: bool, acc: Acc<T>, rest: Bytes)
    requires Filed(c, acc.content)
    ensures Filed(c, Run(c, format, verify, acc, rest).0.content)
    decreases |rest|
  {
    match DecodeAt(c, format, verify, rest)
    case None =>
    case Some(d) => RunFiled(c, format, verify, FoldAcc(c, acc, d.frame, d.bodyLen), rest[d.step..]);
  }

  /** For every version 2 file of a canonical coding, whatever its bytes, the
      replayed state can be compacted and `liveLen` is that compaction's length. */
  lemma ReplayedImage<T(!new)>(c: Codec<T>, bytes: Bytes)
    requires Good(c) && Canonical(c)
    requires Replay(c, bytes, true).Some? && Replay(c, bytes, true).value.format == V2
    ensures var r := Replay(c, bytes, true).value;
      && ImageFits(c, r.acc.content)
      && r.liveLen == |Image(c, r.acc.content)|
  {
    var acc := Replay(c, bytes, true).value.acc;
    var at := FormatOf(bytes).value.1;
    RunMeasured(c, Start(), bytes[at..]);
    assert Measured(c, acc);
    assert acc.sizes == Restored(c, acc.content).sizes;
    var s := acc.content;
    forall i | 0 <= i < |ImageFrames(s)|
      ensures Fits(c, ImageFrames(s)[i])
    {
      var ks, ts := SortedKeys(s.records.Keys), SortedKeys(s.tombs);
      if i < |ks| { assert ks[i] in s.records; } else { assert ts[i - |ks|] in s.tombs; }
    }
    LiveLenIsImageLen(c, acc);
  }
}

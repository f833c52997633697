/** The verdict on what follows a log's last good frame (`classify` and `load` in
    `rust/chain/src/kvlog.rs`): what is called torn and what unreadable, and what a load
    makes of a file its own append left torn or blank.

    Main results: `VerdictExactly`, `OneAppendIsTorn`, `HeldExactly` and `LoadAfterAppend`. */
module KvTails {
  import opened Bytes
  import opened Crc32
  import opened KvKeys
  import opened KvFormat
  import opened KvImage
  import opened KvLog
  import opened KvRuns
  import opened KvWords

  /** A checksum-valid frame starts somewhere in `s`. */
  predicate HoldsFrame(s: Bytes) {
    exists i :: 0 <= i < |s| && FrameAt(s[i..])
  }

  lemma ZerosHoldNoFrame(s: Bytes)
    requires AllZero(s)
    ensures !HoldsFrame(s)
  {
    forall i | 0 <= i < |s|
      ensures !FrameAt(s[i..])
    {
      ZerosAreNoFrame(s[i..]);
    }
  }

  /** **The verdict, exactly:** what a file ends on may be data, and is copied aside
      before it is cut, if and only if it holds a frame somewhere, or it is not blank and
      reaches past the one frame an append can have been at. */
  lemma VerdictExactly(rest: Bytes)
    requires rest != []
    ensures Classify(V2, rest) ==
      if HoldsFrame(rest) || (!AllZero(rest) && |rest| >= FRAME_HEADER_LEN && FRAME_HEADER_LEN + FromLE32(rest[0..4]) < |rest|)
      then Unreadable(|rest|) else Torn(|rest|)
  {
    if AllZero(rest) {
      ZerosHoldNoFrame(rest);
    }
  }

  /** **One append is called torn,** however much of it got down and whatever became of
      its bytes past the length it announces, exactly unless a frame hides in them. */
  lemma OneAppendIsTorn(body: Bytes, torn: Bytes)
    requires |body| < U32_LIMIT && 0 < |torn| <= |Seal(body)| && torn[..Min(4, |torn|)] == ToLE32(|body|)[..Min(4, |torn|)]
    ensures Classify(V2, torn) == if HoldsFrame(torn) then Unreadable(|torn|) else Torn(|torn|)
  {
    VerdictExactly(torn);
    if |torn| >= FRAME_HEADER_LEN {
      assert torn[0..4] == torn[..4] == ToLE32(|body|)[..4] == ToLE32(|body|);
      LE32RoundTrip(|body|);
    }
  }

  /** So a proper prefix of an append is. */
  lemma TornAppendIsTorn(body: Bytes, n: nat)
    requires |body| < U32_LIMIT && 0 < n < |Seal(body)|
    ensures Classify(V2, Seal(body)[..n]) == if HoldsFrame(Seal(body)[..n]) then Unreadable(n) else Torn(n)
  {
    var m := Min(4, n);
    assert Seal(body)[..n][..m] == Seal(body)[..m] == ToLE32(|body|)[..m];
    OneAppendIsTorn(body, Seal(body)[..n]);
  }

  // ---- when a load serves the log read-only ----

  lemma OldRepairHeld<T(!new)>(c: Codec<T>, r: Replayed<T>, log: Log<T>, files: Files, ok: bool)
    requires Good(c) && r.format == V1 && !log.held
    ensures var l := Repaired(c, r, log, files, ok); l.Loaded? && (l.log.held <==> !Compact(c, log, files.disk, ok).ok)
  {
    if Compact(c, log, files.disk, ok).ok {
      CompactIsClean(c, log, files.disk, ok);
    }
  }

  lemma OldHeldExactly<T(!new)>(c: Codec<T>, files: Files, asideOk: bool, rewriteOk: bool)
    requires Good(c) && Replay(c, files.disk, true).Some? && Replay(c, files.disk, true).value.format == V1
    ensures var l := Load(c, files, true, asideOk, rewriteOk); var r := Replay(c, files.disk, true).value;
      l.Loaded? && (l.log.held <==> (r.tail.Unreadable? && !asideOk) || !(rewriteOk && ImageFits(c, r.acc.content)))
  {
    var r := Replay(c, files.disk, true).value;
    OpenedCompacts(c, files.disk, rewriteOk);
    var tail := if r.goodEnd <= |files.disk| then files.disk[r.goodEnd..] else [];
    var files' := if r.tail.Unreadable? then files.(asides := files.asides[AsideOf(r.goodEnd, tail) := tail]) else files;
    OldRepairHeld(c, r, Opened(r), files', rewriteOk);
  }

  lemma NewHeldExactly<T>(c: Codec<T>, files: Files, asideOk: bool, rewriteOk: bool)
    requires Replay(c, files.disk, true).Some? && Replay(c, files.disk, true).value.format != V1
    ensures var l := Load(c, files, true, asideOk, rewriteOk); var r := Replay(c, files.disk, true).value;
      l.Loaded? && (l.log.held <==> r.tail.Unreadable? && !asideOk)
  {
    if Replay(c, files.disk, true).value.format == Empty {
      assert files.disk == [];
    }
  }

  /** **A verified load serves a log read-only exactly when** its tail may hold frames
      and could not be copied aside, or it is of version 1 and could not be rewritten. */
  lemma HeldExactly<T(!new)>(c: Codec<T>, files: Files, asideOk: bool, rewriteOk: bool)
    requires Good(c) && Replay(c, files.disk, true).Some?
    ensures var l := Load(c, files, true, asideOk, rewriteOk); var r := Replay(c, files.disk, true).value;
      l.Loaded? && (l.log.held <==>
        (r.tail.Unreadable? && !asideOk) || (r.format == V1 && !(rewriteOk && ImageFits(c, r.acc.content))))
  {
    if Replay(c, files.disk, true).value.format == V1 {
      OldHeldExactly(c, files, asideOk, rewriteOk);
    } else {
      NewHeldExactly(c, files, asideOk, rewriteOk);
    }
  }

  // ---- the load after an append ----

  /** A clean file with a tail that starts no frame. */
  lemma TailBehind<T(!new)>(c: Codec<T>, pre: Bytes, s: Content<T>, tail: Bytes)
    requires CleanFile(c, pre, s) && pre != [] && DecodeAt(c, V2, true, tail) == None
    ensures var r := Replay(c, pre + tail, true);
      r.Some? && r.value.format == V2 && r.value.goodEnd == |pre| && r.value.tail == Classify(V2, tail)
  {
    CleanThen(c, pre, s, tail);
    var acc: Acc<T> :| acc.content == s
      && Run(c, V2, true, Start(), (pre + tail)[FILE_HEADER_LEN..]) == Run(c, V2, true, acc, tail);
    assert Run(c, V2, true, acc, tail) == (acc, tail);
  }

  /** A clean file ends clean. */
  lemma CleanEnds<T(!new)>(c: Codec<T>, pre: Bytes, s: Content<T>)
    requires CleanFile(c, pre, s) && pre != []
    ensures var r := Replay(c, pre, true); r.Some? && r.value.format == V2 && r.value.tail == Clean
  {
    TailBehind(c, pre, s, []);
    assert pre + [] == pre;
  }

  /** A first append torn inside the file header. */
  lemma TornHeaderIsTorn<T(!new)>(c: Codec<T>, n: nat)
    requires 0 < n < FILE_HEADER_LEN
    ensures var r := Replay(c, Header()[..n], true);
      r.Some? && r.value.format == V2 && r.value.goodEnd == 0 && r.value.tail == Torn(n)
  {
    var b := Header()[..n];
    var m := if n < 4 then n else 4;
    assert b[..m] == MAGIC[..m];
    assert b[0] == MAGIC[0];
  }

  /** A first append left blank reads as a blank version 1 file. */
  lemma BlankFileIsOld<T(!new)>(c: Codec<T>, z: Bytes)
    requires Good(c) && AllZero(z) && z != []
    ensures var r := Replay(c, z, true);
      r.Some? && r.value.format == V1 && r.value.goodEnd == 0 && r.value.tail == Torn(|z|) && r.value.acc == Start()
  {
    assert z[0] == 0 && MAGIC[0] != 0;
    assert FormatOf(z) == Some((V1, 0)) by {
      if |z| >= 8 { assert z[..4][0] == 0; }
      var m := if |z| < 4 then |z| else 4;
      assert z[..m][0] == 0 && MAGIC[..m][0] == 0x4B;
    }
    assert z[0..] == z;
    if |z| >= 4 {
      assert z[0..4] == [0, 0, 0, 0];
      assert z[4..4] == [];
    }
    assert DecodeAt(c, V1, true, z) == None;
  }

  /** Where an append's frame begins. */
  function FrameStart(end: nat): nat {
    if end == 0 then FILE_HEADER_LEN else end
  }

  /** What of the frame itself an append that stopped short got down. */
  function TornFrame(end: nat, body: Bytes, fate: Fate): Bytes
    requires |body| < U32_LIMIT
  {
    var header := if end == 0 then FILE_HEADER_LEN else 0;
    match fate
    case Tears(n) => if header < n < header + |Seal(body)| then Seal(body)[..n - header] else []
    case _ => []
  }

  /** The first append of a file, left blank. */
  predicate BlanksFirst(end: nat, fate: Fate) {
    end == 0 && fate.Blanks? && fate.n > 0
  }

  /** What replay finds where an append went. */
  lemma AppendedTail<T(!new)>(c: Codec<T>, pre: Bytes, s: Content<T>, f: Frame<T>, fate: Fate)
    requires Good(c) && Fits(c, f) && CleanFile(c, pre, s)
    ensures var body := Body(c, f); var disk := pre + Left(Buffer(|pre|, body), fate);
      var r := Replay(c, disk, true); var torn := TornFrame(|pre|, body, fate);
      && r.Some? && (r.value.format == V1 <==> BlanksFirst(|pre|, fate))
      && (BlanksFirst(|pre|, fate) ==> r.value.acc.content == NoContent())
      && (r.value.tail.Unreadable? <==> HoldsFrame(torn))
      && (HoldsFrame(torn) ==> r.value.goodEnd == FrameStart(|pre|) <= |disk| && disk[FrameStart(|pre|)..] == torn)
  {
    var body := Body(c, f);
    var buf := Buffer(|pre|, body);
    if Whole(fate, |buf|) {
      assert Left(buf, fate) == buf;
      BufferLands(c, pre, s, f);
      CleanEnds(c, pre + buf, Fold(c, s, f));
    } else if fate.Tears? {
      TearsTail(c, pre, s, f, fate.n);
    } else if fate.Blanks? {
      BlanksTail(c, pre, s, buf, fate.n);
    } else {
      assert pre + [] == pre;
      if pre != [] {
        CleanEnds(c, pre, s);
      }
    }
  }

  lemma BlanksTail<T(!new)>(c: Codec<T>, pre: Bytes, s: Content<T>, buf: Bytes, n: nat)
    requires Good(c) && CleanFile(c, pre, s) && buf != []
    ensures var r := Replay(c, pre + Left(buf, Blanks(n)), true);
      && r.Some? && !r.value.tail.Unreadable?
      && (r.value.format == V1 <==> pre == [] && n > 0)
      && (pre == [] && n > 0 ==> r.value.acc.content == NoContent())
  {
    var z := Left(buf, Blanks(n));
    ZerosAreNoFrame(z);
    if pre != [] {
      TailBehind(c, pre, s, z);
    } else {
      assert pre + z == z;
      if z != [] {
        BlankFileIsOld(c, z);
      }
    }
  }

  lemma TearsTail<T(!new)>(c: Codec<T>, pre: Bytes, s: Content<T>, f: Frame<T>, n: nat)
    requires Good(c) && Fits(c, f) && CleanFile(c, pre, s) && n < |Buffer(|pre|, Body(c, f))|
    ensures var body := Body(c, f); var disk := pre + Buffer(|pre|, body)[..n];
      var r := Replay(c, disk, true); var torn := TornFrame(|pre|, body, Tears(n));
      && r.Some? && r.value.format != V1
      && (r.value.tail.Unreadable? <==> HoldsFrame(torn))
      && (HoldsFrame(torn) ==> r.value.goodEnd == FrameStart(|pre|) <= |disk| && disk[FrameStart(|pre|)..] == torn)
  {
    CutOf(pre, Body(c, f), n);
    if pre != [] {
      TornBehind(c, pre, s, Body(c, f), n);
    } else {
      FirstTears(c, Body(c, f), n);
    }
  }

  lemma CutOf(pre: Bytes, body: Bytes, n: nat)
    requires |body| < U32_LIMIT && n < |Buffer(|pre|, body)|
    ensures pre == [] ==> pre + Buffer(|pre|, body)[..n] == (Header() + Seal(body))[..n]
    ensures pre != [] ==> Buffer(|pre|, body)[..n] == Seal(body)[..n] == TornFrame(|pre|, body, Tears(n))
  {
  }

  lemma NoFileIsClean<T>(c: Codec<T>)
    ensures var r := Replay(c, [], true); r.Some? && r.value.format == Empty && r.value.tail == Clean
  {
  }

  lemma FirstTears<T(!new)>(c: Codec<T>, body: Bytes, n: nat)
    requires |body| < U32_LIMIT && n < FILE_HEADER_LEN + |Seal(body)|
    ensures var disk := (Header() + Seal(body))[..n];
      var r := Replay(c, disk, true); var torn := TornFrame(0, body, Tears(n));
      && r.Some? && r.value.format != V1
      && (r.value.tail.Unreadable? <==> HoldsFrame(torn))
      && (HoldsFrame(torn) ==> r.value.goodEnd == FILE_HEADER_LEN <= |disk| && disk[FILE_HEADER_LEN..] == torn)
  {
    if n < FILE_HEADER_LEN {
      assert (Header() + Seal(body))[..n] == Header()[..n];
      HeaderTears(c, n);
    } else {
      FirstCut(body, n);
      FirstFrameTears(c, body, n - FILE_HEADER_LEN);
    }
  }

  lemma FirstCut(body: Bytes, n: nat)
    requires |body| < U32_LIMIT && FILE_HEADER_LEN <= n < FILE_HEADER_LEN + |Seal(body)|
    ensures (Header() + Seal(body))[..n] == Header() + Seal(body)[..n - FILE_HEADER_LEN]
    ensures TornFrame(0, body, Tears(n)) == Seal(body)[..n - FILE_HEADER_LEN]
  {
  }

  lemma HeaderTears<T(!new)>(c: Codec<T>, n: nat)
    requires n < FILE_HEADER_LEN
    ensures var r := Replay(c, Header()[..n], true); r.Some? && r.value.format != V1 && !r.value.tail.Unreadable?
  {
    if n == 0 {
      NoFileIsClean(c);
    } else {
      TornHeaderIsTorn(c, n);
    }
  }

  lemma FirstFrameTears<T(!new)>(c: Codec<T>, body: Bytes, n: nat)
    requires |body| < U32_LIMIT && n < |Seal(body)|
    ensures var torn := Seal(body)[..n]; var disk := Header() + torn; var r := Replay(c, disk, true);
      && r.Some? && r.value.format == V2
      && (r.value.tail.Unreadable? <==> HoldsFrame(torn))
      && r.value.goodEnd == FILE_HEADER_LEN <= |disk| && disk[FILE_HEADER_LEN..] == torn
  {
    HeaderIsClean(c);
    TornBehind(c, Header(), NoContent(), body, n);
  }

  lemma TornBehind<T(!new)>(c: Codec<T>, pre: Bytes, s: Content<T>, body: Bytes, n: nat)
    requires CleanFile(c, pre, s) && pre != [] && |body| < U32_LIMIT && n < |Seal(body)|
    ensures var torn := Seal(body)[..n]; var r := Replay(c, pre + torn, true);
      && r.Some? && r.value.format == V2
      && (r.value.tail.Unreadable? <==> HoldsFrame(torn))
      && r.value.goodEnd == |pre| && (pre + torn)[r.value.goodEnd..] == torn
  {
    TornFrameDoesNotRead(body, n, true);
    TailBehind(c, pre, s, Seal(body)[..n]);
    if n > 0 {
      TornAppendIsTorn(body, n);
    }
  }

  /** **The load after an append.** However an append that reached the file fared,
      unless a whole frame hides in the part of its own that got down, the next load
      copies nothing aside, whatever its writes do, and serves the log writable; only a
      first append left blank reads as a version 1 file, and is served read-only when
      its rewrite fails too. Where a frame does hide, the torn part is copied aside whole
      or the log is read-only. */
  lemma LoadAfterAppend<T(!new)>(c: Codec<T>, log: Log<T>, disk: Bytes, asides: map<AsideName, Bytes>, f: Frame<T>,
                                 fate: Fate, asideOk: bool, rewriteOk: bool)
    requires Good(c) && Fits(c, f) && !log.held && LogInv(c, log, disk) && !fate.Early?
    ensures var body := Body(c, f); var torn := TornFrame(log.end, body, fate);
      var l := Load(c, Files(Append(log, disk, body, fate).disk, asides), true, asideOk, rewriteOk);
      && l.Loaded?
      && (!HoldsFrame(torn) ==> l.files.asides == asides && (l.log.held <==> BlanksFirst(log.end, fate) && !rewriteOk))
      && (HoldsFrame(torn) ==>
            && (l.log.held <==> !asideOk)
            && l.files.asides == if asideOk then asides[AsideOf(FrameStart(log.end), torn) := torn] else asides)
  {
    var body := Body(c, f);
    var pre := disk[..log.end];
    var wrote := Append(log, disk, body, fate).disk;
    var files := Files(wrote, asides);
    AppendShape(log, disk, body, fate);
    assert |pre| == log.end;
    AppendedTail(c, pre, log.content, f, fate);
    HeldExactly(c, files, asideOk, rewriteOk);
    LoadCopiesFirst(c, files, asideOk, rewriteOk);
  }

  // ---- the log that is open and the log a load would open ----

  /** A load of this file, which ends clean, would start from this very log. */
  ghost predicate Reopens<T>(c: Codec<T>, log: Log<T>, disk: Bytes) {
    var r := Replay(c, disk, true);
    r.Some? && r.value.tail == Clean && r.value.goodEnd == |disk| && log == Opened(r.value)
  }

  lemma CleanGoodEnd<T(!new)>(c: Codec<T>, disk: Bytes, s: Content<T>)
    requires CleanFile(c, disk, s)
    ensures var r := Replay(c, disk, true);
      r.Some? && r.value.tail == Clean && r.value.goodEnd == |disk| && r.value.acc.content == s
  {
    if disk == [] {
      NoFileIsClean(c);
    } else {
      CleanThen(c, disk, s, []);
      assert disk + [] == disk;
      CleanEnds(c, disk, s);
      TailBehind(c, disk, s, []);
    }
  }

  /** With nothing owed, memory is what a load would make. */
  lemma UnowedReopens<T(!new)>(c: Codec<T>, log: Log<T>, disk: Bytes)
    requires Good(c) && LogInv(c, log, disk) && KnowsRemovals(c, log, disk) && !log.held && !log.cutOwed
    ensures Reopens(c, log, disk)
  {
    assert disk[..log.end] == disk;
    CleanGoodEnd(c, disk, log.content);
    ReplayIsTheLastWord(c, disk, []);
  }

  /** **Acknowledged, the open log is the one a restart would open:** after every write,
      rewrite and wipe that succeeds, memory is field by field what a load of the file as
      it now is would start from, with nothing owed. */
  lemma AckedReopens<T(!new)>(c: Codec<T>, log: Log<T>, disk: Bytes, f: Frame<T>, fate: Fate, ok: bool)
    requires Good(c) && LogInv(c, log, disk) && KnowsRemovals(c, log, disk)
    ensures var w := Request(c, log, disk, f, fate); w.ok && Due(c, log.content, f) ==> Reopens(c, w.log, w.disk)
    ensures var w := Compact(c, log, disk, ok); w.ok ==> Reopens(c, w.log, w.disk)
    ensures var w := Wipe(log, disk, ok); w.ok ==> Reopens(c, w.log, w.disk)
  {
    RequestReopens(c, log, disk, f, fate);
    CompactReopens(c, log, disk, ok);
    NoFileIsClean(c);
  }

  lemma RequestReopens<T(!new)>(c: Codec<T>, log: Log<T>, disk: Bytes, f: Frame<T>, fate: Fate)
    requires Good(c) && LogInv(c, log, disk) && KnowsRemovals(c, log, disk)
    ensures var w := Request(c, log, disk, f, fate); w.ok && Due(c, log.content, f) ==> Reopens(c, w.log, w.disk)
  {
    var w := Request(c, log, disk, f, fate);
    if w.ok && Due(c, log.content, f) {
      RequestKeeps(c, log, disk, f, fate);
      RequestKnows(c, log, disk, f, fate);
      UnowedReopens(c, w.log, w.disk);
    }
  }

  lemma CompactReopens<T(!new)>(c: Codec<T>, log: Log<T>, disk: Bytes, ok: bool)
    requires Good(c)
    ensures var w := Compact(c, log, disk, ok); w.ok ==> Reopens(c, w.log, w.disk)
  {
    var w := Compact(c, log, disk, ok);
    if w.ok {
      CompactIsClean(c, log, disk, ok);
      CompactedKnows(c, log, disk, ok);
      assert w.disk[..w.log.end] == w.disk;
      UnowedReopens(c, w.log, w.disk);
    }
  }

  lemma RepairReopens<T(!new)>(c: Codec<T>, files: Files, rewritten: Files, rewriteOk: bool)
    requires Good(c) && Replay(c, files.disk, true).Some? && rewritten.disk == files.disk
    ensures var r := Replay(c, files.disk, true).value; var l := Repaired(c, r, Opened(r), rewritten, rewriteOk);
      l.Loaded? && (!l.log.held && Replay(c, l.files.disk, true).Some? && Replay(c, l.files.disk, true).value.tail == Clean
                    ==> Reopens(c, l.log, l.files.disk))
  {
    var r := Replay(c, files.disk, true).value;
    CompactReopens(c, Opened(r), files.disk, rewriteOk);
    CleanIsWhole(c, files.disk);
    LeftOverIsTail(c, files.disk);
  }

  /** So is every log a verified load opens for writing over a file it leaves clean. */
  lemma LoadReopens<T(!new)>(c: Codec<T>, files: Files, asideOk: bool, rewriteOk: bool)
    requires Good(c) && Replay(c, files.disk, true).Some?
    ensures var l := Load(c, files, true, asideOk, rewriteOk);
      l.Loaded? && (!l.log.held && Replay(c, l.files.disk, true).Some? && Replay(c, l.files.disk, true).value.tail == Clean
                    ==> Reopens(c, l.log, l.files.disk))
  {
    var r := Replay(c, files.disk, true).value;
    var tail := if r.goodEnd <= |files.disk| then files.disk[r.goodEnd..] else [];
    var files' := if r.tail.Unreadable? then files.(asides := files.asides[AsideOf(r.goodEnd, tail) := tail]) else files;
    RepairReopens(c, files, files', rewriteOk);
    if r.format == Empty {
      assert files.disk == [];
      NoFileIsClean(c);
    }
  }

  /** **Another writer's bytes are never cut.** When the file is not as long as such a log
      left it, no append touches it and none is acknowledged; and when it grew, no rewrite
      either. */
  lemma ChangedBehindIsRefused<T>(c: Codec<T>, log: Log<T>, disk: Bytes, now: Bytes, body: Bytes, fate: Fate, ok: bool)
    requires Reopens(c, log, disk) && |now| != |disk|
    ensures Append(log, now, body, fate) == Wrote(log, now, false)
    ensures |now| > |disk| ==> Compact(c, log, now, ok) == Wrote(log, now, false)
  {
  }
}

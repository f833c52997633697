/** Loads and whole runs of the durable log (`Log` in `rust/chain/src/kvlog.rs`):
    what a load leaves and what it may destroy, and what the next load yields after
    any run, any failed or torn write and any death of the process.

    Main results: `Recovery` and `PendingReachedLast` (what a run leaves to be found),
    `RepairKeepsFrames` (what a load may drop) and `LoadSettles` (a second load
    changes nothing). */
module KvRuns {
  import opened Bytes
  import opened Crc32
  import opened KvKeys
  import opened KvFormat
  import opened KvImage
  import opened KvLog

  // ---- what every step keeps ----

  /** A writable log's file replays cleanly to memory up to `end`, and anything
      past `end` is owed a cut. */
  ghost predicate LogInv<T(!new)>(c: Codec<T>, log: Log<T>, disk: Bytes) {
    log.held ||
    (&& log.end <= |disk|
     && CleanFile(c, disk[..log.end], log.content)
     && (!log.cutOwed ==> |disk| == log.end))
  }

  /** The log a load starts from, before its own writes. */
  function Opened<T>(r: Replayed<T>): Log<T> {
    Log(r.acc.content, r.goodEnd, r.tail != Clean, false, r.acc.removed)
  }

  /** What is left after the last good frame. */
  function LeftOver<T>(c: Codec<T>, disk: Bytes): Bytes
    requires FormatOf(disk).Some?
  {
    ReplayFrames(c, true, FormatOf(disk).value.0, FormatOf(disk).value.1, disk).1
  }

  lemma LastBytes(s: Bytes, at: nat, n: nat)
    requires at + n <= |s|
    ensures s[at..][|s[at..]| - n..] == s[|s| - n..]
  {
  }

  lemma LeftOverIsTail<T>(c: Codec<T>, disk: Bytes)
    requires Replay(c, disk, true).Some?
    ensures var r := Replay(c, disk, true).value;
      && r.goodEnd <= |disk| && disk[r.goodEnd..] == LeftOver(c, disk)
      && r.tail == Classify(r.format, disk[r.goodEnd..])
  {
    var (format, at) := FormatOf(disk).value;
    RunLeavesSuffix(c, format, true, Start(), disk[at..]);
    var left := LeftOver(c, disk);
    LastBytes(disk, at, |left|);
  }

  lemma HeaderRead(disk: Bytes)
    requires FormatOf(disk) == Some((V2, FILE_HEADER_LEN))
    ensures disk[..FILE_HEADER_LEN] == Header()
  {
    LE32RoundTrip(VERSION);
    LE32Injective(disk[4..8], ToLE32(VERSION));
    assert disk[..8] == disk[..4] + disk[4..8];
  }

  lemma FramesAreClean<T(!new)>(c: Codec<T>, disk: Bytes, used: Bytes, left: Bytes)
    requires FormatOf(disk) == Some((V2, FILE_HEADER_LEN))
    requires disk[FILE_HEADER_LEN..] == used + left
    requires Run(c, V2, true, Start(), used + left).1 == left
    ensures CleanFile(c, disk[..FILE_HEADER_LEN + |used|], Run(c, V2, true, Start(), used + left).0.content)
  {
    RunPrefix(c, V2, true, Start(), used, left);
    HeaderRead(disk);
    var pre := disk[..FILE_HEADER_LEN + |used|];
    assert pre[..FILE_HEADER_LEN] == disk[..FILE_HEADER_LEN];
    assert pre[FILE_HEADER_LEN..] == disk[FILE_HEADER_LEN..][..|used|];
  }

  lemma HeaderedIsClean<T(!new)>(c: Codec<T>, disk: Bytes)
    requires Replay(c, disk, true).Some? && FormatOf(disk) == Some((V2, FILE_HEADER_LEN))
    ensures var r := Replay(c, disk, true).value;
      r.goodEnd <= |disk| && CleanFile(c, disk[..r.goodEnd], r.acc.content)
  {
    var r := Replay(c, disk, true).value;
    var frames := disk[FILE_HEADER_LEN..];
    RunLeavesSuffix(c, V2, true, Start(), frames);
    var left := Run(c, V2, true, Start(), frames).1;
    var used := frames[..|frames| - |left|];
    assert frames == used + left;
    FramesAreClean(c, disk, used, left);
    assert r.goodEnd == FILE_HEADER_LEN + |used|;
  }

  /** Up to its good end a version 2 (or empty) file is clean. */
  lemma GoodEndIsClean<T(!new)>(c: Codec<T>, disk: Bytes)
    requires Replay(c, disk, true).Some? && Replay(c, disk, true).value.format != V1
    ensures var r := Replay(c, disk, true).value;
      r.goodEnd <= |disk| && CleanFile(c, disk[..r.goodEnd], r.acc.content)
  {
    if FormatOf(disk) == Some((V2, FILE_HEADER_LEN)) {
      HeaderedIsClean(c, disk);
    } else {
      LeftOverIsTail(c, disk);
      assert Replay(c, disk, true).value.goodEnd == 0;
    }
  }

  lemma RepairServes<T(!new)>(c: Codec<T>, files: Files, log: Log<T>, rewriteOk: bool)
    requires Good(c) && Replay(c, files.disk, true).Some? && Replay(c, files.disk, true).value.format != Empty
    requires var r := Replay(c, files.disk, true).value;
      log == Opened(r)
    ensures var l := Repaired(c, Replay(c, files.disk, true).value, log, files, rewriteOk);
      && l.Loaded? && l.log.content == log.content
      && Meaning(c, l.files.disk) == Some(log.content)
      && LogInv(c, l.log, l.files.disk)
  {
    var r := Replay(c, files.disk, true).value;
    var w := Compact(c, log, files.disk, rewriteOk);
    if (r.format == V1 || r.tail != Clean || Grown(|files.disk|, r.liveLen)) && w.ok {
      CompactIsClean(c, log, files.disk, rewriteOk);
      CleanMeaning(c, w.disk, log.content);
      assert w.disk[..w.log.end] == w.disk;
    } else if r.format == V2 {
      GoodEndIsClean(c, files.disk);
      LeftOverIsTail(c, files.disk);
      if r.tail == Clean {
        CleanTailIsEmpty(files.disk[r.goodEnd..]);
      }
    }
  }

  /** A load serves exactly what the file means, whatever its writes do, and the
      file it leaves means the same; a log it leaves writable satisfies the
      invariant. */
  lemma LoadServesMeaning<T(!new)>(c: Codec<T>, files: Files, asideOk: bool, rewriteOk: bool)
    requires Good(c) && Meaning(c, files.disk).Some?
    ensures var l := Load(c, files, true, asideOk, rewriteOk);
      && l.Loaded? && l.log.content == Meaning(c, files.disk).value
      && Meaning(c, l.files.disk) == Meaning(c, files.disk)
      && LogInv(c, l.log, l.files.disk)
  {
    var r := Replay(c, files.disk, true).value;
    if r.format == Empty {
      assert files.disk == [];
    } else if !(r.tail.Unreadable? && !asideOk) {
      var tail := if r.goodEnd <= |files.disk| then files.disk[r.goodEnd..] else [];
      var files' := if r.tail.Unreadable? then files.(asides := files.asides[AsideOf(r.goodEnd, tail) := tail]) else files;
      RepairServes(c, files', Opened(r), rewriteOk);
    }
  }

  // ---- requests ----

  /** What an append that reaches the file leaves of the end and the owed cut. */
  lemma AppendShape<T>(log: Log<T>, disk: Bytes, body: Bytes, fate: Fate)
    requires !log.held && |body| < U32_LIMIT && !fate.Early?
    requires log.end <= |disk| && (!log.cutOwed ==> |disk| == log.end)
    ensures var w := Append(log, disk, body, fate); var pre := disk[..log.end];
      && w.disk == pre + Left(Buffer(log.end, body), fate) && w.disk[..log.end] == pre
      && w.log.content == log.content && !w.log.held && w.ok == fate.Lands?
      && (fate.Lands? ==> w.log.end == |w.disk| && w.disk[..w.log.end] == pre + Buffer(log.end, body))
      && (!fate.Lands? ==> w.log.end == log.end && (!w.log.cutOwed ==> |w.disk| == w.log.end))
  {
    var pre := disk[..log.end];
    var w := Append(log, disk, body, fate);
    assert w.disk[..log.end] == pre;
    if fate.Lands? {
      assert w.disk[..w.log.end] == w.disk;
    }
  }

  /** The whole buffer is down: it landed, or it was its sync that failed. */
  predicate Whole(fate: Fate, size: nat) {
    fate.Lands? || (fate.Tears? && fate.n >= size)
  }

  /** What each fate leaves the file to mean: the frame folded in when its whole
      buffer is down, the state before it otherwise. */
  lemma FateMeans<T(!new)>(c: Codec<T>, pre: Bytes, s: Content<T>, f: Frame<T>, fate: Fate)
    requires Good(c) && Fits(c, f) && CleanFile(c, pre, s)
    ensures var buf := Buffer(|pre|, Body(c, f));
      Meaning(c, pre + Left(buf, fate)) == Some(if Whole(fate, |buf|) then Fold(c, s, f) else s)
  {
    var buf := Buffer(|pre|, Body(c, f));
    if Whole(fate, |buf|) {
      assert Left(buf, fate) == buf;
      BufferLands(c, pre, s, f);
      CleanMeaning(c, pre + buf, Fold(c, s, f));
    } else if fate.Tears? {
      BufferTears(c, pre, s, f, fate.n);
    } else if fate.Blanks? {
      BlankTail(c, pre, s, Left(buf, fate));
    } else {
      assert pre + [] == pre;
      CleanMeaning(c, pre, s);
    }
  }

  /** An append, whatever its fate, keeps the invariant; unless it never reached the
      file, the file means the state before it, or the whole frame folded in exactly
      when its whole buffer is down. */
  lemma AppendKeeps<T(!new)>(c: Codec<T>, log: Log<T>, disk: Bytes, f: Frame<T>, fate: Fate)
    requires Good(c) && Fits(c, f) && !log.held && LogInv(c, log, disk)
    ensures var w := Append(log, disk, Body(c, f), fate); var s' := Fold(c, log.content, f);
      && w.ok == fate.Lands? && !w.log.held && w.log.content == log.content
      && LogInv(c, if w.ok then w.log.(content := s') else w.log, w.disk)
      && (if fate.Early? then w.disk == disk
          else Meaning(c, w.disk) == Some(if Whole(fate, |Buffer(log.end, Body(c, f))|) then s' else log.content))
  {
    if !fate.Early? {
      AppendShape(log, disk, Body(c, f), fate);
      FateMeans(c, disk[..log.end], log.content, f, fate);
      if fate.Lands? {
        BufferLands(c, disk[..log.end], log.content, f);
      }
    }
  }

  /** A request that has something to write and gets as far as the file. */
  predicate Reaches<T>(c: Codec<T>, log: Log<T>, f: Frame<T>, fate: Fate) {
    Due(c, log.content, f) && Fits(c, f) && !log.held && !fate.Early?
  }

  /** Every request keeps the invariant; one that does not reach the file changes
      nothing; one that does leaves the file meaning it whole, or not at all. */
  lemma RequestKeeps<T(!new)>(c: Codec<T>, log: Log<T>, disk: Bytes, f: Frame<T>, fate: Fate)
    requires Good(c) && LogInv(c, log, disk)
    ensures var w := Request(c, log, disk, f, fate);
      && LogInv(c, w.log, w.disk)
      && w.log.content == (if w.ok then Do(c, log.content, f) else log.content)
      && (!Reaches(c, log, f, fate) ==> w.disk == disk && w.ok == !Due(c, log.content, f))
      && (Reaches(c, log, f, fate) ==>
            && w.ok == fate.Lands?
            && Meaning(c, w.disk) == Some(if Whole(fate, |Buffer(log.end, Body(c, f))|) then Do(c, log.content, f) else log.content))
  {
    if Due(c, log.content, f) && Fits(c, f) && !log.held {
      AppendKeeps(c, log, disk, f, fate);
    }
  }

  // ---- runs ----

  /** One file and the process that may have it open. */
  datatype World<T> = World(files: Files, log: Option<Log<T>>)

  datatype WipeFate = Done | Failed | Died

  /** A death in the middle of a step is that step failing as far as it got, then
      `Crash`; a wipe's rename can also land and the process die unacknowledged. */
  datatype Event<T> =
    | Open(asideOk: bool, rewriteOk: bool)
    | Ask(f: Frame<T>, fate: Fate)
    | Squeeze(ok: bool)
    | Erase(wipe: WipeFate)
    | Crash

  function Next<T>(c: Codec<T>, w: World<T>, e: Event<T>): (World<T>, bool) {
    match e
    case Open(asideOk, rewriteOk) =>
      (match Load(c, w.files, true, asideOk, rewriteOk)
       case Refused => (w.(log := None), false)
       case Loaded(log, files) => (World(files, Some(log)), true))
    case Crash => (w.(log := None), true)
    case _ =>
      if w.log.None? then (w, false)
      else
        var log, disk := w.log.value, w.files.disk;
        var wrote := match e
          case Ask(f, fate) => Request(c, log, disk, f, fate)
          case Squeeze(ok) => Compact(c, log, disk, ok)
          case Erase(fate) => Wipe(log, disk, !fate.Failed?)
          case _ => Wrote(log, disk, false);
        var died := e.Erase? && e.wipe.Died?;
        (World(w.files.(disk := wrote.disk), if died then None else Some(wrote.log)), wrote.ok && !died)
  }

  /** A request to write, or a wipe. */
  datatype Wanted<T> = Write(f: Frame<T>) | Nothing

  function Outcome<T>(c: Codec<T>, s: Content<T>, r: Wanted<T>): Content<T> {
    match r
    case Write(f) => Do(c, s, f)
    case Nothing => NoContent()
  }

  /** What the caller may rely on: the state all acknowledged operations made, and
      the one operation, if any, that is on disk whole without being acknowledged. */
  datatype Promise<T> = Promise(sure: Content<T>, pending: Option<Wanted<T>>)

  /** What the next load finds. */
  function Found<T>(c: Codec<T>, p: Promise<T>): Content<T> {
    if p.pending.None? then p.sure else Outcome(c, p.sure, p.pending.value)
  }

  /** Whether a step changes what the file holds. */
  predicate Touches<T>(c: Codec<T>, w: World<T>, e: Event<T>) {
    w.log.Some? &&
    match e
    case Ask(f, fate) => Reaches(c, w.log.value, f, fate)
    case Squeeze(ok) => Compact(c, w.log.value, w.files.disk, ok).ok
    case Erase(fate) => !w.log.value.held && !fate.Failed?
    case _ => false
  }

  /** What a step that touched the file unacknowledged left there whole. */
  function Leaves<T>(c: Codec<T>, w: World<T>, e: Event<T>): Option<Wanted<T>>
    requires Touches(c, w, e)
  {
    match e
    case Ask(f, fate) =>
      if Whole(fate, |Buffer(w.log.value.end, Body(c, f))|) then Some(Write(f)) else None
    case Erase(_) => Some(Nothing)
    case _ => None
  }

  /** What an acknowledged step means for the state. */
  function Meant<T>(c: Codec<T>, s: Content<T>, e: Event<T>): Content<T> {
    match e
    case Ask(f, _) => Do(c, s, f)
    case Erase(_) => NoContent()
    case _ => s
  }

  /** A load hands over what it found; any other step that touches the file settles
      what was pending, by its acknowledgement or by what it leaves instead. */
  function Track<T>(c: Codec<T>, w: World<T>, p: Promise<T>, e: Event<T>): Promise<T> {
    var (w', ack) := Next(c, w, e);
    if e.Open? then (if ack then Promise(Found(c, p), None) else p)
    else if !Touches(c, w, e) then p
    else if ack then Promise(Meant(c, p.sure, e), None)
    else p.(pending := Leaves(c, w, e))
  }

  function Play<T>(c: Codec<T>, w: World<T>, p: Promise<T>, es: seq<Event<T>>): (World<T>, Promise<T>)
    decreases |es|
  {
    if es == [] then (w, p) else Play(c, Next(c, w, es[0]).0, Track(c, w, p, es[0]), es[1..])
  }

  /** The file means exactly what is promised to be found, and memory is what is
      acknowledged. */
  ghost predicate WorldInv<T(!new)>(c: Codec<T>, w: World<T>, p: Promise<T>) {
    && Meaning(c, w.files.disk) == Some(Found(c, p))
    && (w.log.Some? ==> w.log.value.content == p.sure && LogInv(c, w.log.value, w.files.disk))
  }

  lemma OpenKeeps<T(!new)>(c: Codec<T>, w: World<T>, p: Promise<T>, asideOk: bool, rewriteOk: bool)
    requires Good(c) && WorldInv(c, w, p)
    ensures var e := Open(asideOk, rewriteOk); WorldInv(c, Next(c, w, e).0, Track(c, w, p, e))
  {
    LoadServesMeaning(c, w.files, asideOk, rewriteOk);
  }

  lemma AskKeeps<T(!new)>(c: Codec<T>, w: World<T>, p: Promise<T>, f: Frame<T>, fate: Fate)
    requires Good(c) && WorldInv(c, w, p) && w.log.Some?
    ensures var e := Ask(f, fate); WorldInv(c, Next(c, w, e).0, Track(c, w, p, e))
  {
    var log, disk := w.log.value, w.files.disk;
    var wrote := Request(c, log, disk, f, fate);
    RequestKeeps(c, log, disk, f, fate);
    assert Next(c, w, Ask(f, fate)) == (World(w.files.(disk := wrote.disk), Some(wrote.log)), wrote.ok);
  }

  lemma SqueezeKeeps<T(!new)>(c: Codec<T>, w: World<T>, p: Promise<T>, ok: bool)
    requires Good(c) && WorldInv(c, w, p) && w.log.Some?
    ensures var e := Squeeze(ok); WorldInv(c, Next(c, w, e).0, Track(c, w, p, e))
  {
    var log := w.log.value;
    var wrote := Compact(c, log, w.files.disk, ok);
    if wrote.ok {
      CompactedIsWhole(c, log, w.files.disk, ok);
    }
  }

  lemma CompactedIsWhole<T(!new)>(c: Codec<T>, log: Log<T>, disk: Bytes, ok: bool)
    requires Good(c) && Compact(c, log, disk, ok).ok && LogInv(c, log, disk)
    ensures var wrote := Compact(c, log, disk, ok);
      LogInv(c, wrote.log, wrote.disk) && wrote.log.content == log.content && Meaning(c, wrote.disk) == Some(log.content)
  {
    CompactIsClean(c, log, disk, ok);
    var wrote := Compact(c, log, disk, ok);
    CleanMeaning(c, wrote.disk, log.content);
    assert wrote.disk[..|wrote.disk|] == wrote.disk;
  }

  lemma EraseKeeps<T(!new)>(c: Codec<T>, w: World<T>, p: Promise<T>, fate: WipeFate)
    requires Good(c) && WorldInv(c, w, p) && w.log.Some?
    ensures var e := Erase(fate); WorldInv(c, Next(c, w, e).0, Track(c, w, p, e))
  {
    CleanMeaning<T>(c, [], NoContent());
  }

  lemma StepKeeps<T(!new)>(c: Codec<T>, w: World<T>, p: Promise<T>, e: Event<T>)
    requires Good(c) && WorldInv(c, w, p)
    ensures WorldInv(c, Next(c, w, e).0, Track(c, w, p, e))
  {
    match e
    case Open(asideOk, rewriteOk) => OpenKeeps(c, w, p, asideOk, rewriteOk);
    case Crash =>
    case Ask(f, fate) => if w.log.Some? { AskKeeps(c, w, p, f, fate); }
    case Squeeze(ok) => if w.log.Some? { SqueezeKeeps(c, w, p, ok); }
    case Erase(fate) => if w.log.Some? { EraseKeeps(c, w, p, fate); }
  }

  lemma {:induction false} RunKeeps<T(!new)>(c: Codec<T>, w: World<T>, p: Promise<T>, es: seq<Event<T>>)
    requires Good(c) && WorldInv(c, w, p)
    ensures var (w', p') := Play(c, w, p, es); WorldInv(c, w', p')
    decreases |es|
  {
    if es != [] {
      StepKeeps(c, w, p, es[0]);
      RunKeeps(c, Next(c, w, es[0]).0, Track(c, w, p, es[0]), es[1..]);
    }
  }

  /** A process starts with no log open and everything on disk acknowledged. */
  function Fresh<T>(c: Codec<T>, files: Files): (World<T>, Promise<T>)
    requires Meaning(c, files.disk).Some?
  {
    (World(files, None), Promise(Meaning(c, files.disk).value, None))
  }

  /** **Recovery.** From any file this build reads, after any run of loads,
      requests, compactions, wipes and deaths, each write landing, failing, torn at
      any byte or blanked: the next load opens and yields exactly the state of all
      acknowledged operations with the one pending operation, if there is one,
      applied whole. It is the acknowledged state alone if and only if nothing is
      pending, or what is pending would not change it. */
  lemma Recovery<T(!new)>(c: Codec<T>, files: Files, es: seq<Event<T>>, asideOk: bool, rewriteOk: bool)
    requires Good(c) && Meaning(c, files.disk).Some?
    ensures var (w0, p0) := Fresh(c, files); var (w, p) := Play(c, w0, p0, es);
      var l := Load(c, w.files, true, asideOk, rewriteOk);
      && l.Loaded? && l.log.content == Found(c, p)
      && (l.log.content == p.sure <==> p.pending.None? || Outcome(c, p.sure, p.pending.value) == p.sure)
  {
    var (w0, p0) := Fresh(c, files);
    RunKeeps(c, w0, p0, es);
    LoadServesMeaning(c, Play(c, w0, p0, es).0.files, asideOk, rewriteOk);
  }

  /** A step after which nothing earlier is pending. */
  predicate Settles<T>(c: Codec<T>, w: World<T>, e: Event<T>) {
    (e.Open? && Next(c, w, e).1) || Touches(c, w, e)
  }

  function WorldAt<T>(c: Codec<T>, w: World<T>, p: Promise<T>, es: seq<Event<T>>, i: nat): World<T>
    requires i <= |es|
  {
    Play(c, w, p, es[..i]).0
  }

  /** Step `i` left `r` on disk whole and unacknowledged, and no step since has
      touched the file or loaded it. */
  predicate LeftAt<T(==)>(c: Codec<T>, w: World<T>, p: Promise<T>, es: seq<Event<T>>, i: nat, r: Wanted<T>) {
    && i < |es| && Touches(c, WorldAt(c, w, p, es, i), es[i]) && !Next(c, WorldAt(c, w, p, es, i), es[i]).1
    && Leaves(c, WorldAt(c, w, p, es, i), es[i]) == Some(r)
    && forall j :: i < j < |es| ==> !Settles(c, WorldAt(c, w, p, es, j), es[j])
  }

  lemma {:induction false} PlayMore<T>(c: Codec<T>, w: World<T>, p: Promise<T>, es: seq<Event<T>>, e: Event<T>)
    ensures var (w1, p1) := Play(c, w, p, es); Play(c, w, p, es + [e]) == (Next(c, w1, e).0, Track(c, w1, p1, e))
    decreases |es|
  {
    if es == [] {
      assert es + [e] == [e] && [e][1..] == [];
    } else {
      assert (es + [e])[0] == es[0] && (es + [e])[1..] == es[1..] + [e];
      PlayMore(c, Next(c, w, es[0]).0, Track(c, w, p, es[0]), es[1..], e);
    }
  }

  /** A step that settles nothing leaves what was left. */
  lemma LeftMore<T>(c: Codec<T>, w: World<T>, p: Promise<T>, front: seq<Event<T>>, e: Event<T>, i: nat, r: Wanted<T>)
    requires LeftAt(c, w, p, front, i, r) && !Settles(c, Play(c, w, p, front).0, e)
    ensures LeftAt(c, w, p, front + [e], i, r)
  {
    var es := front + [e];
    assert forall j :: 0 <= j <= |front| ==> es[..j] == front[..j];
    assert front[..|front|] == front;
    forall j | i < j < |es|
      ensures !Settles(c, WorldAt(c, w, p, es, j), es[j])
    {
      if j < |front| {
        assert WorldAt(c, w, p, es, j) == WorldAt(c, w, p, front, j);
      }
    }
    assert WorldAt(c, w, p, es, i) == WorldAt(c, w, p, front, i);
  }

  /** **What is pending is the last operation to have reached the file.** */
  lemma {:induction false} PendingReachedLast<T>(c: Codec<T>, w: World<T>, p: Promise<T>, es: seq<Event<T>>)
    requires p.pending.None? && Play(c, w, p, es).1.pending.Some?
    ensures exists i: nat :: LeftAt(c, w, p, es, i, Play(c, w, p, es).1.pending.value)
  {
    var r := Play(c, w, p, es).1.pending.value;
    var n := |es| - 1;
    var front := es[..n];
    assert es == front + [es[n]];
    PlayMore(c, w, p, front, es[n]);
    if Settles(c, WorldAt(c, w, p, es, n), es[n]) {
      assert LeftAt(c, w, p, es, n, r);
    } else {
      PendingReachedLast(c, w, p, front);
      var i: nat :| LeftAt(c, w, p, front, i, r);
      LeftMore(c, w, p, front, es[n], i, r);
    }
  }

  lemma WholeTear<T>(log: Log<T>, disk: Bytes, body: Bytes)
    requires |body| < U32_LIMIT && !log.held && log.end == |disk| > 0
    ensures Append(log, disk, body, Tears(|Seal(body)|)) == Wrote(log.(cutOwed := true), disk + Seal(body), false)
  {
    var seal := Seal(body);
    assert disk[..|disk|] == disk;
    assert Buffer(|disk|, body) == seal;
    assert seal[..|seal|] == seal;
  }

  lemma FirstAppend<T>(c: Codec<T>, body: Bytes)
    requires |body| < U32_LIMIT
    ensures Append<T>(Log(NoContent(), 0, false, false, false), [], body, Lands)
         == Wrote(Log(NoContent(), |Header() + Seal(body)|, false, false, false), Header() + Seal(body), true)
  {
    var none: Bytes := [];
    assert none[..0] + (Header() + Seal(body)) == Header() + Seal(body);
  }

  /** Two records of one key, each of which can be written. */
  ghost predicate Rivals<T(!new)>(c: Codec<T>, before: T, after: T) {
    && Good(c) && c.keyOf(before) == c.keyOf(after) && before != after
    && Fits(c, Upsert(before)) && Fits(c, Upsert(after))
  }

  lemma RivalRequests<T(!new)>(c: Codec<T>, before: T, after: T, fate: Fate)
    requires Rivals(c, before, after)
    ensures var one := Header() + Seal(Body(c, Upsert(before)));
      var seal := Seal(Body(c, Upsert(after)));
      var log := Log(Content(map[c.keyOf(before) := before], {}), |one|, false, false, false);
      && Request(c, Log(NoContent(), 0, false, false, false), [], Upsert(before), Lands) == Wrote(log, one, true)
      && Request(c, log, one, Upsert(after), Tears(|seal|)) == Wrote(log.(cutOwed := true), one + seal, false)
      && Request(c, log.(cutOwed := true), one + seal, Upsert(before), fate) == Wrote(log.(cutOwed := true), one + seal, true)
  {
    assert c.decode(c.encode(before)) == Some(before) && c.decode(c.encode(after)) == Some(after);
    var one := Header() + Seal(Body(c, Upsert(before)));
    FirstAppend(c, Body(c, Upsert(before)));
    WholeTear(Log(Content(map[c.keyOf(before) := before], {}), |one|, false, false, false), one, Body(c, Upsert(after)));
  }

  lemma RivalFile<T(!new)>(c: Codec<T>, before: T, after: T)
    requires Rivals(c, before, after)
    ensures Meaning(c, Header() + Seal(Body(c, Upsert(before))) + Seal(Body(c, Upsert(after))))
         == Some(Content(map[c.keyOf(before) := after], {}))
  {
    var f, g := Upsert(before), Upsert(after);
    var one := Header() + Seal(Body(c, f));
    var s1, s2 := Content(map[c.keyOf(before) := before], {}), Content(map[c.keyOf(before) := after], {});
    assert Fold(c, NoContent<T>(), f) == s1 && Fold(c, s1, g) == s2;
    HeaderIsClean(c);
    FrameLands(c, Header(), NoContent<T>(), f);
    FrameLands(c, one, s1, g);
    CleanMeaning(c, one + Seal(Body(c, g)), s2);
  }

  /** Why the promise speaks of the last acknowledged request *that wrote*: a
      re-report answered "nothing to write" is acknowledged, and does not settle
      an earlier replacement whose sync failed after its bytes were down. */
  lemma AckedNoOpSettlesNothing<T(!new)>(c: Codec<T>, before: T, after: T, fate: Fate)
    requires Rivals(c, before, after)
    ensures var r1 := Request(c, Log(NoContent(), 0, false, false, false), [], Upsert(before), Lands);
      var r2 := Request(c, r1.log, r1.disk, Upsert(after), Tears(|Seal(Body(c, Upsert(after)))|));
      var r3 := Request(c, r2.log, r2.disk, Upsert(before), fate);
      && r1.ok && !r2.ok && r3.ok
      && r3.log.content == Content(map[c.keyOf(before) := before], {})
      && Meaning(c, r3.disk) == Some(Content(map[c.keyOf(before) := after], {}))
  {
    RivalRequests(c, before, after, fate);
    RivalFile(c, before, after);
  }

  // ---- a device whose checksum fails its known answers ----

  /** An unverified load serves its records read-only: no byte moves then, and
      none by any later request, rewrite or wipe, each of which that would
      write is refused. */
  lemma UnverifiedIsReadOnly<T>(c: Codec<T>, files: Files, asideOk: bool, rewriteOk: bool, f: Frame<T>, fate: Fate, ok: bool)
    ensures var l := Load(c, files, false, asideOk, rewriteOk);
      l.Loaded? ==>
        && l.log.held && l.files == files
        && Request(c, l.log, files.disk, f, fate) == Wrote(l.log, files.disk, !Due(c, l.log.content, f))
        && Compact(c, l.log, files.disk, ok) == Wrote(l.log, files.disk, false)
        && Wipe(l.log, files.disk, ok) == Wrote(l.log, files.disk, false)
  {
  }

  // ---- repair and fixpoint ----

  lemma RepairAddsNoCopy<T>(c: Codec<T>, r: Replayed<T>, log: Log<T>, files: Files, rewriteOk: bool)
    ensures var l := Repaired(c, r, log, files, rewriteOk); l.Loaded? && l.files.asides == files.asides
  {
  }

  /** A load changes the file only once an unreadable tail is copied aside, and
      adds no other copy. */
  lemma LoadCopiesFirst<T>(c: Codec<T>, files: Files, asideOk: bool, rewriteOk: bool)
    requires Replay(c, files.disk, true).Some?
    ensures var l := Load(c, files, true, asideOk, rewriteOk);
      var r := Replay(c, files.disk, true).value;
      && l.Loaded? && r.goodEnd <= |files.disk|
      && var dropped := files.disk[r.goodEnd..];
      && l.files.asides == (if r.tail.Unreadable? && asideOk
                            then files.asides[AsideOf(r.goodEnd, dropped) := dropped] else files.asides)
      && (l.files.disk != files.disk ==> r.tail.Unreadable? ==> asideOk)
  {
    LeftOverIsTail(c, files.disk);
    var r := Replay(c, files.disk, true).value;
    if r.format == Empty {
      assert files.disk == [];
      assert r.tail == Clean;
    } else {
      var tail := files.disk[r.goodEnd..];
      var files' := if r.tail.Unreadable? then files.(asides := files.asides[AsideOf(r.goodEnd, tail) := tail]) else files;
      RepairAddsNoCopy(c, r, Opened(r), files', rewriteOk);
    }
  }

  /** **Repair never destroys a possible frame.** Whatever a load of a version 2
      file drops either holds no checksum-valid frame at any offset, or was
      copied aside whole first; copies kept before stay, save one of the same
      name. */
  lemma RepairKeepsFrames<T(!new)>(c: Codec<T>, files: Files, asideOk: bool, rewriteOk: bool)
    requires Replay(c, files.disk, true).Some? && Replay(c, files.disk, true).value.format == V2
    ensures var l := Load(c, files, true, asideOk, rewriteOk);
      var r := Replay(c, files.disk, true).value;
      && l.Loaded? && r.goodEnd <= |files.disk|
      && var dropped := files.disk[r.goodEnd..];
      && (l.files.disk != files.disk ==>
            || (forall i :: 0 <= i < |dropped| ==> !FrameAt(dropped[i..]))
            || (AsideOf(r.goodEnd, dropped) in l.files.asides
                && l.files.asides[AsideOf(r.goodEnd, dropped)] == dropped))
      && (forall n :: n in files.asides && n != AsideOf(r.goodEnd, dropped) ==>
            n in l.files.asides && l.files.asides[n] == files.asides[n])
  {
    LoadCopiesFirst(c, files, asideOk, rewriteOk);
    LeftOverIsTail(c, files.disk);
    var r := Replay(c, files.disk, true).value;
    var dropped := files.disk[r.goodEnd..];
    assert r.tail == Classify(V2, dropped);
    if r.tail.Torn? {
      TornHoldsNoFrame(dropped);
    }
  }

  /** **Nor does the append after a repair that failed.** When a load leaves the file
      of version 2 as it was, what the next append cuts is nothing, or the very tail
      the load classified: it holds no checksum-valid frame at any offset, or was
      copied aside whole first. */
  lemma LaterCutKeepsFrames<T(!new)>(c: Codec<T>, files: Files, asideOk: bool, rewriteOk: bool, body: Bytes, fate: Fate)
    requires Replay(c, files.disk, true).Some? && Replay(c, files.disk, true).value.format == V2
    requires |body| < U32_LIMIT
    requires var l := Load(c, files, true, asideOk, rewriteOk); l.Loaded? && l.files.disk == files.disk
    ensures var l := Load(c, files, true, asideOk, rewriteOk); var w := Append(l.log, l.files.disk, body, fate);
      && (l.log.held ==> w.disk == files.disk)
      && (!l.log.held ==> l.log.end <= |files.disk|)
      && (!l.log.held && w.disk != files.disk ==>
            var cut := files.disk[l.log.end..];
            && files.disk[..l.log.end] <= w.disk
            && (|| (forall i :: 0 <= i < |cut| ==> !FrameAt(cut[i..]))
                || (AsideOf(l.log.end, cut) in l.files.asides && l.files.asides[AsideOf(l.log.end, cut)] == cut)))
  {
    var l := Load(c, files, true, asideOk, rewriteOk);
    var r := Replay(c, files.disk, true).value;
    LoadCopiesFirst(c, files, asideOk, rewriteOk);
    LeftOverIsTail(c, files.disk);
    if !l.log.held {
      LeftWritableEnds(c, files, asideOk, rewriteOk);
      if l.log.end == r.goodEnd {
        var dropped := files.disk[r.goodEnd..];
        if r.tail.Torn? {
          TornHoldsNoFrame(dropped);
        } else if r.tail == Clean {
          CleanTailIsEmpty(dropped);
        }
      } else {
        assert files.disk[l.log.end..] == [];
      }
      AppendStarts(l.log, files.disk, body, fate);
    }
  }

  /** A load that leaves the file alone ends at the last good frame, or at the end. */
  lemma LeftWritableEnds<T>(c: Codec<T>, files: Files, asideOk: bool, rewriteOk: bool)
    requires Replay(c, files.disk, true).Some? && Replay(c, files.disk, true).value.format == V2
    requires var l := Load(c, files, true, asideOk, rewriteOk); l.Loaded? && l.files.disk == files.disk && !l.log.held
    ensures var l := Load(c, files, true, asideOk, rewriteOk);
      l.log.end == Replay(c, files.disk, true).value.goodEnd || l.log.end == |files.disk|
    ensures Replay(c, files.disk, true).value.tail.Unreadable? ==> asideOk
  {
  }

  lemma AppendStarts<T>(log: Log<T>, disk: Bytes, body: Bytes, fate: Fate)
    requires |body| < U32_LIMIT && log.end <= |disk|
    ensures Append(log, disk, body, fate).disk == disk || disk[..log.end] <= Append(log, disk, body, fate).disk
  {
  }

  /** No step of a load failed: the file is as a load wants it. */
  predicate Settled<T>(c: Codec<T>, files: Files) {
    match Replay(c, files.disk, true)
    case None => false
    case Some(r) =>
      r.format == Empty || (r.format == V2 && r.tail == Clean && !Grown(|files.disk|, r.liveLen))
  }

  /** A load whose writes succeed leaves the file as it was, when that is as a load
      wants it, or else the image of what was replayed. */
  lemma LoadLeaves<T(!new)>(c: Codec<T>, files: Files)
    requires Good(c) && Replay(c, files.disk, true).Some?
    requires ImageFits(c, Replay(c, files.disk, true).value.acc.content)
    ensures var l := Load(c, files, true, true, true); var s := Replay(c, files.disk, true).value.acc.content;
      && l.Loaded? && !l.log.held
      && (if Settled(c, files) then l.files == files else l.files.disk == Image(c, s))
  {
    if !Settled(c, files) {
      UnsettledIsRewritten(c, files);
    }
  }

  lemma CleanIsWhole<T>(c: Codec<T>, disk: Bytes)
    requires Replay(c, disk, true).Some?
    ensures var r := Replay(c, disk, true).value; r.tail == Clean ==> |disk| <= r.goodEnd
  {
    LeftOverIsTail(c, disk);
    var r := Replay(c, disk, true).value;
    if r.format == Empty {
      assert disk == [];
    } else {
      assert forall rest :: Classify(r.format, rest) == Clean ==> rest == [];
    }
  }

  /** A load's own rewrite succeeds exactly when the state has an image and the disk
      agrees. */
  lemma OpenedCompacts<T(!new)>(c: Codec<T>, disk: Bytes, ok: bool)
    requires Good(c) && Replay(c, disk, true).Some?
    ensures var r := Replay(c, disk, true).value; Compact(c, Opened(r), disk, ok).ok <==> ok && ImageFits(c, r.acc.content)
  {
    CleanIsWhole(c, disk);
    ReplayIsFiled(c, disk);
    CompactSucceedsExactlyWhen(c, Opened(Replay(c, disk, true).value), disk, ok);
  }

  lemma CompactedImage<T>(c: Codec<T>, log: Log<T>, disk: Bytes, ok: bool)
    requires Compact(c, log, disk, ok).ok
    ensures var w := Compact(c, log, disk, ok); ImageFits(c, log.content) && w.disk == Image(c, log.content) && !w.log.held
  {
  }

  lemma UnsettledIsRewritten<T(!new)>(c: Codec<T>, files: Files)
    requires Good(c) && Replay(c, files.disk, true).Some? && !Settled(c, files)
    requires ImageFits(c, Replay(c, files.disk, true).value.acc.content)
    ensures var l := Load(c, files, true, true, true);
      && l.Loaded? && !l.log.held
      && l.files.disk == Image(c, Replay(c, files.disk, true).value.acc.content)
  {
    OpenedCompacts(c, files.disk, true);
    CompactedImage(c, Opened(Replay(c, files.disk, true).value), files.disk, true);
  }

  lemma ImageIsSettled<T(!new)>(c: Codec<T>, s: Content<T>, files: Files)
    requires Good(c) && ImageFits(c, s) && Filed(c, s) && files.disk == Image(c, s)
    ensures Settled(c, files)
  {
    ImageReplays(c, s);
  }

  /** A settled file is left alone, and is no longer than the floor or twice its
      live size. */
  lemma SettledStays<T>(c: Codec<T>, files: Files, asideOk: bool, rewriteOk: bool)
    requires Settled(c, files)
    ensures var l := Load(c, files, true, asideOk, rewriteOk); l.Loaded? && l.files == files
    ensures var live := Replay(c, files.disk, true).value.liveLen;
      |files.disk| <= if COMPACT_FLOOR > COMPACT_RATIO * live then COMPACT_FLOOR else COMPACT_RATIO * live
  {
  }

  /** **A load rewrites only what has grown:** a clean version 2 file is left alone, byte
      for byte, if and only if it is no longer than 64 KiB or no longer than twice its
      image. */
  lemma OnlyTheGrownAreRewritten<T(!new)>(c: Codec<T>, files: Files)
    requires Good(c) && Replay(c, files.disk, true).Some? && ImageFits(c, Replay(c, files.disk, true).value.acc.content)
    requires var r := Replay(c, files.disk, true).value;
      r.format == V2 && r.tail == Clean && r.liveLen == |Image(c, r.acc.content)|
    ensures var image := Image(c, Replay(c, files.disk, true).value.acc.content); var l := Load(c, files, true, true, true);
      l.Loaded? && (l.files == files <==> |files.disk| <= 65536 || |files.disk| <= 2 * |image|)
  {
    LoadLeaves(c, files);
  }

  /** **Load is a fixpoint.** After a load whose writes succeeded, the file is
      settled, a further load rewrites no byte and copies nothing aside, and the
      file is no longer than the floor or twice its live size. */
  lemma LoadSettles<T(!new)>(c: Codec<T>, files: Files, again: bool, again': bool)
    requires Good(c) && Replay(c, files.disk, true).Some?
    requires ImageFits(c, Replay(c, files.disk, true).value.acc.content)
    ensures var l := Load(c, files, true, true, true);
      && l.Loaded? && !l.log.held && Settled(c, l.files)
      && Load(c, l.files, true, again, again').Loaded?
      && Load(c, l.files, true, again, again').files == l.files
      && |l.files.disk| <= (if COMPACT_FLOOR > COMPACT_RATIO * Replay(c, l.files.disk, true).value.liveLen
                            then COMPACT_FLOOR else COMPACT_RATIO * Replay(c, l.files.disk, true).value.liveLen)
  {
    var l := Load(c, files, true, true, true);
    LoadLeaves(c, files);
    if !Settled(c, files) {
      ReplayIsFiled(c, files.disk);
      ImageIsSettled(c, Replay(c, files.disk, true).value.acc.content, l.files);
    }
    SettledStays(c, l.files, again, again');
  }

  lemma ReplayIsFiled<T>(c: Codec<T>, disk: Bytes)
    requires Replay(c, disk, true).Some?
    ensures Filed(c, Replay(c, disk, true).value.acc.content)
  {
    var (format, at) := FormatOf(disk).value;
    RunFiled(c, format, true, Start(), disk[at..]);
  }
}

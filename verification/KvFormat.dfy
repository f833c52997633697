/** The log file's format: frames, replay and the verdict on what follows the
    last good frame (`rust/chain/src/kvlog.rs`). */
module KvFormat {
  import opened Bytes
  import opened Crc32
  import opened KvKeys

  const MAGIC: Bytes := [0x4B, 0x56, 0x4C, 0x47]
  const VERSION: nat := 2
  const FILE_HEADER_LEN: nat := 8
  const FRAME_HEADER_LEN: nat := 8
  const V1_FRAME_HEADER_LEN: nat := 4

  datatype Frame<T> =
    | Upsert(record: T)
    | Remove(key: Key)
    | Tombstone(key: Key)
    | Untombstone(key: Key)

  /** What a store supplies: its record's serialization and key, which byte
      strings are text, and the decoder of its version 1 bodies. */
  datatype Codec<!T> = Codec(
    encode: T -> Bytes,
    decode: Bytes -> Option<T>,
    keyOf: T -> Key,
    isText: Bytes -> bool,
    v1: Bytes -> Option<Frame<T>>)

  /** The record coding round-trips, and an empty version 1 body is no frame. */
  ghost predicate Good<T(!new)>(c: Codec<T>) {
    && (forall t :: c.decode(c.encode(t)) == Some(t))
    && c.v1([]) == None
  }

  // ---- frame bodies ----

  /** A key that can be written: text, and short enough for its frame. */
  predicate KeyFits<T>(c: Codec<T>, k: Key) {
    c.isText(k) && |k| + 5 < U32_LIMIT
  }

  predicate Fits<T>(c: Codec<T>, f: Frame<T>) {
    match f
    case Upsert(r) => 1 + |c.encode(r)| < U32_LIMIT
    case Remove(k) => KeyFits(c, k)
    case Tombstone(k) => KeyFits(c, k)
    case Untombstone(k) => KeyFits(c, k)
  }

  function Body<T>(c: Codec<T>, f: Frame<T>): (b: Bytes)
    requires Fits(c, f)
    ensures |b| < U32_LIMIT
  {
    match f
    case Upsert(r) => [0] + c.encode(r)
    case Remove(k) => [1] + ToLE32(|k|) + k
    case Tombstone(k) => [2] + ToLE32(|k|) + k
    case Untombstone(k) => [3] + ToLE32(|k|) + k
  }

  function KeyOfBody<T>(c: Codec<T>, b: Bytes): Option<Key> {
    if |b| < 5 || FromLE32(b[1..5]) != |b| - 5 || !c.isText(b[5..]) then None else Some(b[5..])
  }

  function DecodeBody<T>(c: Codec<T>, b: Bytes): Option<Frame<T>> {
    if b == [] then None
    else if b[0] == 0 then
      match c.decode(b[1..]) { case None => None case Some(r) => Some(Upsert(r)) }
    else if b[0] == 1 then
      match KeyOfBody(c, b) { case None => None case Some(k) => Some(Remove(k)) }
    else if b[0] == 2 then
      match KeyOfBody(c, b) { case None => None case Some(k) => Some(Tombstone(k)) }
    else if b[0] == 3 then
      match KeyOfBody(c, b) { case None => None case Some(k) => Some(Untombstone(k)) }
    else None
  }

  lemma BodyRoundTrip<T(!new)>(c: Codec<T>, f: Frame<T>)
    requires Good(c) && Fits(c, f)
    ensures DecodeBody(c, Body(c, f)) == Some(f)
  {
    var b := Body(c, f);
    match f
    case Upsert(r) =>
      assert b[1..] == c.encode(r);
    case _ =>
      LE32RoundTrip(|f.key|);
      assert b[1..5] == ToLE32(|f.key|);
      assert b[5..] == f.key;
  }

  // ---- version 2 frames ----

  function Seal(body: Bytes): (r: Bytes)
    requires |body| < U32_LIMIT
    ensures |r| == FRAME_HEADER_LEN + |body|
  {
    var len := ToLE32(|body|);
    len + ToLE32(Crc(len + body)) + body
  }

  /** The body of the frame at the start of `bytes`, when its length fits and
      (under `verify`) its checksum holds. */
  function FrameChecked(bytes: Bytes, verify: bool): Option<Bytes> {
    if |bytes| < FRAME_HEADER_LEN then None
    else
      var len := FromLE32(bytes[0..4]);
      if FRAME_HEADER_LEN + len > |bytes| then None
      else
        var body := bytes[FRAME_HEADER_LEN..FRAME_HEADER_LEN + len];
        if verify && Crc(bytes[0..4] + body) != FromLE32(bytes[4..8]) then None else Some(body)
  }

  predicate FrameAt(bytes: Bytes) {
    FrameChecked(bytes, true).Some?
  }

  lemma SealedFrameReads(body: Bytes, rest: Bytes, verify: bool)
    requires |body| < U32_LIMIT
    ensures FrameChecked(Seal(body) + rest, verify) == Some(body)
  {
    var s := Seal(body) + rest;
    var len := ToLE32(|body|);
    var crc := Crc(len + body);
    assert s[0..4] == len;
    assert s[4..8] == ToLE32(crc);
    LE32RoundTrip(|body|);
    LE32RoundTrip(crc);
    assert s[8..8 + |body|] == body;
  }

  /** A frame cut anywhere short of its end is no frame. */
  lemma TornFrameDoesNotRead(body: Bytes, n: nat, verify: bool)
    requires |body| < U32_LIMIT && n < |Seal(body)|
    ensures FrameChecked(Seal(body)[..n], verify) == None
  {
    if n >= FRAME_HEADER_LEN {
      assert Seal(body)[..n][0..4] == ToLE32(|body|);
      LE32RoundTrip(|body|);
    }
  }

  lemma ZerosAreNoFrame(s: Bytes)
    requires AllZero(s)
    ensures !FrameAt(s)
  {
    if |s| >= FRAME_HEADER_LEN {
      FourZeros();
      EmptyBodyIsNoFrame(s, [0, 0, 0, 0]);
    }
  }

  /** Eight zeros announce an empty body whose checksum would have to be zero. */
  lemma EmptyBodyIsNoFrame(s: Bytes, zeros: Bytes)
    requires AllZero(s) && AllZero(zeros) && |zeros| == 4 && Crc(zeros) != 0 && |s| >= FRAME_HEADER_LEN
    ensures !FrameAt(s)
  {
    assert s[0..4] == zeros && s[4..8] == zeros;
    assert s[8..8 + 0] == [] && zeros + [] == zeros;
    assert FromLE32(zeros) == 0;
  }

  /** Reading a frame looks only at the frame's own bytes. */
  lemma FrameIsLocal(a: Bytes, b: Bytes, verify: bool)
    requires FrameChecked(a, verify).Some?
    requires FRAME_HEADER_LEN + |FrameChecked(a, verify).value| <= |b|
    requires a[..FRAME_HEADER_LEN + |FrameChecked(a, verify).value|]
          == b[..FRAME_HEADER_LEN + |FrameChecked(a, verify).value|]
    ensures FrameChecked(b, verify) == FrameChecked(a, verify)
  {
    var m := FRAME_HEADER_LEN + |FrameChecked(a, verify).value|;
    assert a[0..4] == a[..m][0..4] && b[0..4] == b[..m][0..4];
    assert a[4..8] == a[..m][4..8] && b[4..8] == b[..m][4..8];
    assert a[8..m] == a[..m][8..m] && b[8..m] == b[..m][8..m];
  }

  // ---- replay ----

  datatype Format = Empty | V1 | V2

  datatype Tail =
    | Clean
    | Torn(n: nat)
    | Unreadable(n: nat)

  /** What a log means: its records and the keys flagged as ghosts. */
  datatype Content<T> = Content(records: map<Key, T>, tombs: set<Key>)

  /** Replay's running state. */
  datatype Acc<T> = Acc(content: Content<T>, sizes: map<Key, nat>, removed: bool)

  function NoContent<T>(): Content<T> {
    Content(map[], {})
  }

  function Start<T>(): Acc<T> {
    Acc(NoContent(), map[], false)
  }

  function Fold<T>(c: Codec<T>, s: Content<T>, f: Frame<T>): Content<T> {
    match f
    case Upsert(r) => s.(records := s.records[c.keyOf(r) := r])
    case Remove(k) => Content(s.records - {k}, s.tombs - {k})
    case Tombstone(k) => s.(tombs := s.tombs + {k})
    case Untombstone(k) => s.(tombs := s.tombs - {k})
  }

  function FoldAcc<T>(c: Codec<T>, acc: Acc<T>, f: Frame<T>, bodyLen: nat): Acc<T> {
    var next := Fold(c, acc.content, f);
    match f
    case Upsert(r) => Acc(next, acc.sizes[c.keyOf(r) := FRAME_HEADER_LEN + bodyLen], acc.removed)
    case Remove(k) => Acc(next, acc.sizes - {k}, true)
    case Tombstone(_) => acc.(content := next)
    case Untombstone(_) => acc.(content := next)
  }

  datatype Decoded<T> = Decoded(frame: Frame<T>, bodyLen: nat, step: nat)

  /** The frame at the start of `rest`, or nothing when replay stops there. */
  function DecodeAt<T>(c: Codec<T>, format: Format, verify: bool, rest: Bytes): (r: Option<Decoded<T>>)
    ensures r.Some? ==> 0 < r.value.step <= |rest|
  {
    match format
    case Empty => None
    case V2 =>
      (match FrameChecked(rest, verify)
       case None => None
       case Some(body) =>
         match DecodeBody(c, body)
         case None => None
         case Some(f) => Some(Decoded(f, |body|, FRAME_HEADER_LEN + |body|)))
    case V1 =>
      if |rest| < V1_FRAME_HEADER_LEN then None
      else
        var len := FromLE32(rest[0..4]);
        if V1_FRAME_HEADER_LEN + len > |rest| then None
        else
          match c.v1(rest[4..4 + len])
          case None => None
          case Some(f) => Some(Decoded(f, len, V1_FRAME_HEADER_LEN + len))
  }

  /** Fold frames until one fails; the state reached and the bytes left. */
  function Run<T>(c: Codec<T>, format: Format, verify: bool, acc: Acc<T>, rest: Bytes): (Acc<T>, Bytes)
    decreases |rest|
  {
    match DecodeAt(c, format, verify, rest)
    case None => (acc, rest)
    case Some(d) => Run(c, format, verify, FoldAcc(c, acc, d.frame, d.bodyLen), rest[d.step..])
  }

  lemma {:induction false} RunLeavesSuffix<T>(c: Codec<T>, format: Format, verify: bool, acc: Acc<T>, rest: Bytes)
    ensures var left := Run(c, format, verify, acc, rest).1;
      && |left| <= |rest| && left == rest[|rest| - |left|..]
      && DecodeAt(c, format, verify, left) == None
    decreases |rest|
  {
    match DecodeAt(c, format, verify, rest)
    case None =>
    case Some(d) =>
      RunLeavesSuffix(c, format, verify, FoldAcc(c, acc, d.frame, d.bodyLen), rest[d.step..]);
  }

  lemma DecodeIsLocal<T>(c: Codec<T>, format: Format, verify: bool, a: Bytes, b: Bytes)
    requires DecodeAt(c, format, verify, a).Some?
    requires DecodeAt(c, format, verify, a).value.step <= |b|
    requires a[..DecodeAt(c, format, verify, a).value.step] == b[..DecodeAt(c, format, verify, a).value.step]
    ensures DecodeAt(c, format, verify, b) == DecodeAt(c, format, verify, a)
  {
    var m := DecodeAt(c, format, verify, a).value.step;
    match format
    case Empty =>
    case V2 => FrameIsLocal(a, b, verify);
    case V1 =>
      assert a[0..4] == a[..m][0..4] && b[0..4] == b[..m][0..4];
      assert a[4..m] == a[..m][4..m] && b[4..m] == b[..m][4..m];
  }

  /** Replaying past a cleanly replayed prefix continues from its state. */
  lemma {:induction false} RunAppend<T>(c: Codec<T>, format: Format, verify: bool, acc: Acc<T>, a: Bytes, b: Bytes)
    requires Run(c, format, verify, acc, a).1 == []
    ensures Run(c, format, verify, acc, a + b) == Run(c, format, verify, Run(c, format, verify, acc, a).0, b)
    decreases |a|
  {
    match DecodeAt(c, format, verify, a)
    case None =>
      assert a + b == b;
    case Some(d) =>
      assert (a + b)[..d.step] == a[..d.step];
      DecodeIsLocal(c, format, verify, a, a + b);
      assert (a + b)[d.step..] == a[d.step..] + b;
      RunAppend(c, format, verify, FoldAcc(c, acc, d.frame, d.bodyLen), a[d.step..], b);
  }

  lemma NothingDecodes<T>(c: Codec<T>, format: Format, verify: bool)
    ensures DecodeAt(c, format, verify, []) == None
  {
  }

  /** The bytes replay consumed replay cleanly on their own, to the same state. */
  lemma {:induction false} RunPrefix<T>(c: Codec<T>, format: Format, verify: bool, acc: Acc<T>, used: Bytes, left: Bytes)
    requires Run(c, format, verify, acc, used + left).1 == left
    ensures Run(c, format, verify, acc, used) == (Run(c, format, verify, acc, used + left).0, [])
    decreases |used|
  {
    var rest := used + left;
    match DecodeAt(c, format, verify, rest)
    case None =>
      assert |rest| == |used| + |left|;
      assert used == [];
      NothingDecodes(c, format, verify);
    case Some(d) =>
      var acc' := FoldAcc(c, acc, d.frame, d.bodyLen);
      RunLeavesSuffix(c, format, verify, acc', rest[d.step..]);
      StepWithin(c, format, verify, used, left);
      RunPrefix(c, format, verify, acc', used[d.step..], left);
  }

  /** A frame that ends within the used bytes is read from them alone. */
  lemma StepWithin<T>(c: Codec<T>, format: Format, verify: bool, used: Bytes, left: Bytes)
    requires DecodeAt(c, format, verify, used + left).Some?
    requires DecodeAt(c, format, verify, used + left).value.step <= |used|
    ensures DecodeAt(c, format, verify, used) == DecodeAt(c, format, verify, used + left)
    ensures var n := DecodeAt(c, format, verify, used + left).value.step; (used + left)[n..] == used[n..] + left
  {
    var n := DecodeAt(c, format, verify, used + left).value.step;
    assert used[..n] == (used + left)[..n];
    DecodeIsLocal(c, format, verify, used + left, used);
  }

  function Header(): (r: Bytes)
    ensures |r| == FILE_HEADER_LEN
  {
    MAGIC + ToLE32(VERSION)
  }

  predicate IsPrefix(p: Bytes, s: Bytes) {
    |p| <= |s| && s[..|p|] == p
  }

  /** The format of a file and where its frames begin; nothing for a version
      this build does not read. A version 2 start at 0 is a torn file header. */
  function FormatOf(bytes: Bytes): (r: Option<(Format, nat)>)
    ensures r.Some? ==> r.value.1 <= |bytes|
  {
    if bytes == [] then Some((Empty, 0))
    else if |bytes| >= FILE_HEADER_LEN && bytes[..4] == MAGIC then
      if FromLE32(bytes[4..8]) != VERSION then None else Some((V2, FILE_HEADER_LEN))
    else if |bytes| < FILE_HEADER_LEN && IsPrefix(bytes[..if |bytes| < 4 then |bytes| else 4], MAGIC) then
      Some((V2, 0))
    else Some((V1, 0))
  }

  function Classify(format: Format, rest: Bytes): Tail {
    var n := |rest|;
    if n == 0 then Clean
    else if AllZero(rest) then Torn(n)
    else
      match format
      case Empty => Clean
      case V1 => if n < V1_FRAME_HEADER_LEN then Torn(n) else Unreadable(n)
      case V2 =>
        if exists i :: 0 <= i < n && FrameAt(rest[i..]) then Unreadable(n)
        else if n < FRAME_HEADER_LEN then Torn(n)
        else if FRAME_HEADER_LEN + FromLE32(rest[0..4]) >= n then Torn(n)
        else Unreadable(n)
  }

  function SumSizes(ks: seq<Key>, sizes: map<Key, nat>): nat
    requires forall k :: k in ks ==> k in sizes
  {
    if ks == [] then 0 else sizes[ks[0]] + SumSizes(ks[1..], sizes)
  }

  function TombstoneFrameLen(k: Key): nat {
    FRAME_HEADER_LEN + 1 + 4 + |k|
  }

  function SumTombs(ks: seq<Key>): nat {
    if ks == [] then 0 else TombstoneFrameLen(ks[0]) + SumTombs(ks[1..])
  }

  /** What a state rewrites to, in version 2 bytes. */
  function LiveLen<T>(acc: Acc<T>): nat {
    FILE_HEADER_LEN + SumSizes(SortedKeys(acc.sizes.Keys), acc.sizes) + SumTombs(SortedKeys(acc.content.tombs))
  }

  datatype Replayed<T> = Replayed(format: Format, acc: Acc<T>, goodEnd: nat, tail: Tail, liveLen: nat)

  function ReplayFrames<T>(c: Codec<T>, verify: bool, format: Format, at: nat, bytes: Bytes): (Acc<T>, Bytes)
    requires at <= |bytes|
  {
    if format == V2 && at == 0 then (Start(), bytes) else Run(c, format, verify, Start(), bytes[at..])
  }

  function Summary<T>(format: Format, acc: Acc<T>, left: Bytes, goodEnd: nat): Replayed<T> {
    Replayed(format, acc, goodEnd, Classify(format, left), LiveLen(acc))
  }

  /** A whole file's replay; nothing when its version is refused. */
  function Replay<T>(c: Codec<T>, bytes: Bytes, verify: bool): (r: Option<Replayed<T>>)
  {
    match FormatOf(bytes)
    case None => None
    case Some((format, at)) =>
      var (acc, left) := ReplayFrames(c, verify, format, at, bytes);
      Some(Summary(format, acc, left, if |left| <= |bytes| then |bytes| - |left| else 0))
  }

  /** The replay loop as the program runs it: one offset moving over the file. */
  method RunFile<T>(c: Codec<T>, format: Format, verify: bool, bytes: Bytes, from: nat) returns (acc: Acc<T>, at: nat)
    requires from <= |bytes|
    ensures from <= at <= |bytes|
    ensures (acc, bytes[at..]) == Run(c, format, verify, Start(), bytes[from..])
  {
    at := from;
    acc := Start();
    while true
      invariant from <= at <= |bytes|
      invariant Run(c, format, verify, acc, bytes[at..]) == Run(c, format, verify, Start(), bytes[from..])
      decreases |bytes| - at
    {
      var d := DecodeAt(c, format, verify, bytes[at..]);
      if d.None? {
        break;
      }
      assert bytes[at..][d.value.step..] == bytes[at + d.value.step..];
      acc := FoldAcc(c, acc, d.value.frame, d.value.bodyLen);
      at := at + d.value.step;
    }
  }

  method ReplayFile<T>(c: Codec<T>, bytes: Bytes, verify: bool) returns (r: Option<Replayed<T>>)
    ensures r == Replay(c, bytes, verify)
  {
    var start := FormatOf(bytes);
    if start.None? {
      return None;
    }
    var (format, at) := start.value;
    var acc: Acc<T> := Start();
    if !(format == V2 && at == 0) {
      acc, at := RunFile(c, format, verify, bytes, at);
    }
    assert bytes[0..] == bytes;
    assert ReplayFrames(c, verify, format, start.value.1, bytes) == (acc, bytes[at..]);
    assert |bytes| - |bytes[at..]| == at;
    r := Some(Summary(format, acc, bytes[at..], at));
  }

  // ---- what a repair may cut ----

  /** Whatever replay calls torn in a version 2 file holds no checksum-valid
      frame at any offset, an all-zero tail included. */
  lemma TornHoldsNoFrame(rest: Bytes)
    requires Classify(V2, rest).Torn?
    ensures forall i :: 0 <= i < |rest| ==> !FrameAt(rest[i..])
  {
    if AllZero(rest) {
      forall i | 0 <= i < |rest|
        ensures !FrameAt(rest[i..])
      {
        ZerosAreNoFrame(rest[i..]);
      }
    }
  }

  /** The same for version 1: no decodable body starts anywhere in it. */
  lemma TornHoldsNoV1Frame<T(!new)>(c: Codec<T>, rest: Bytes)
    requires Good(c) && Classify(V1, rest).Torn?
    ensures forall i :: 0 <= i < |rest| ==> DecodeAt(c, V1, true, rest[i..]) == None
  {
    forall i | 0 <= i < |rest|
      ensures DecodeAt(c, V1, true, rest[i..]) == None
    {
      var tail := rest[i..];
      if |tail| >= 4 {
        assert tail[0..4] == [0, 0, 0, 0];
        assert tail[4..4] == [];
      }
    }
  }

  /** Every proper prefix of one appended frame stops replay where it began. */
  lemma TornAppendStopsReplay<T>(c: Codec<T>, acc: Acc<T>, body: Bytes, n: nat)
    requires |body| < U32_LIMIT && n < |Seal(body)|
    ensures Run(c, V2, true, acc, Seal(body)[..n]) == (acc, Seal(body)[..n])
  {
    TornFrameDoesNotRead(body, n, true);
  }
}

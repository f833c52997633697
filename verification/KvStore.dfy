/** The log in place (`Log` in `rust/chain/src/kvlog.rs`): one object over one
    file, its maps and its remembered end changing as the program changes them,
    each method proved equal to the functions of `KvLog`. What the disk does with
    a write is a parameter. */
module KvStore {
  import opened Bytes
  import opened Crc32
  import opened KvKeys
  import opened KvFormat
  import opened KvImage
  import opened KvLog

  /** The file and the copies kept beside it. */
  class Disk {
    var bytes: Bytes
    var asides: map<AsideName, Bytes>

    constructor (bytes: Bytes, asides: map<AsideName, Bytes>)
      ensures this.bytes == bytes && this.asides == asides
    {
      this.bytes, this.asides := bytes, asides;
    }

    ghost function Now(): Files
      reads this
    {
      Files(bytes, asides)
    }
  }

  lemma AllFitFrom<T>(c: Codec<T>, fs: seq<Frame<T>>, i: nat)
    requires i < |fs|
    ensures AllFit(c, fs[i..]) <==> Fits(c, fs[i]) && AllFit(c, fs[i + 1..])
    ensures AllFit(c, fs[i..]) ==> Frames(c, fs[i..]) == Seal(Body(c, fs[i])) + Frames(c, fs[i + 1..])
  {
    var here, next := fs[i..], fs[i + 1..];
    assert here[0] == fs[i] && here[1..] == next;
    assert forall k :: 0 <= k < |next| ==> next[k] == here[k + 1];
    assert forall k :: 0 < k < |here| ==> here[k] == next[k - 1];
  }

  /** The image's loop: frames pushed until one cannot be. */
  method PushEach<T>(c: Codec<T>, out0: Bytes, fs: seq<Frame<T>>) returns (out: Option<Bytes>)
    ensures out == if AllFit(c, fs) then Some(out0 + Frames(c, fs)) else None
  {
    var bytes := out0;
    var i := 0;
    assert fs[0..] == fs;
    while i < |fs|
      invariant i <= |fs|
      invariant AllFit(c, fs[i..]) <==> AllFit(c, fs)
      invariant AllFit(c, fs) ==> bytes + Frames(c, fs[i..]) == out0 + Frames(c, fs)
    {
      AllFitFrom(c, fs, i);
      if !Fits(c, fs[i]) {
        return None;
      }
      var seal := Seal(Body(c, fs[i]));
      if AllFit(c, fs) {
        assert bytes + (seal + Frames(c, fs[i + 1..])) == (bytes + seal) + Frames(c, fs[i + 1..]);
      }
      bytes := bytes + seal;
      i := i + 1;
    }
    assert bytes + [] == bytes;
    out := Some(bytes);
  }

  /** Compaction, once its image and its check are in hand. */
  lemma CompactIs<T>(c: Codec<T>, log: KvLog.Log<T>, disk: Bytes, image: Bytes, same: bool, ok: bool)
    requires !log.held && !(|disk| > log.end && !log.cutOwed)
    requires ImageFits(c, log.content) && image == Image(c, log.content)
    requires same == ReplaysTo(c, Replay(c, image, true), log.content)
    ensures KvLog.Compact(c, log, disk, ok) ==
      if same && ok then Wrote(log.(end := |image|, cutOwed := false, removed := false), image, true) else Wrote(log, disk, false)
  {
  }

  class Log<!T(==)> {
    const c: Codec<T>
    const disk: Disk
    var records: map<Key, T>
    var tombstoned: set<Key>
    var end: nat
    var cutOwed: bool
    var held: bool
    var removed: bool

    ghost function Now(): KvLog.Log<T>
      reads this
    {
      KvLog.Log(Content(records, tombstoned), end, cutOwed, held, removed)
    }

    constructor (c: Codec<T>, disk: Disk, found: Replayed<T>)
      ensures this.c == c && this.disk == disk
      ensures Now() == KvLog.Log(found.acc.content, found.goodEnd, false, false, found.acc.removed)
    {
      this.c, this.disk := c, disk;
      records, tombstoned := found.acc.content.records, found.acc.content.tombs;
      end, cutOwed, held, removed := found.goodEnd, false, false, found.acc.removed;
    }

    /** Write one frame at the remembered end, cutting first only what is owed. */
    method Append(body: Bytes, fate: Fate) returns (ok: bool)
      modifies this`end, this`cutOwed, disk`bytes
      ensures Wrote(Now(), disk.bytes, ok) == KvLog.Append(old(Now()), old(disk.bytes), body, fate)
    {
      if held || |body| >= U32_LIMIT || fate.Early? {
        return false;
      }
      var buf: Bytes := if end == 0 then Header() else [];
      buf := buf + Seal(body);
      if |disk.bytes| < end {
        return false;
      }
      if |disk.bytes| > end {
        if !cutOwed {
          return false;
        }
        disk.bytes := disk.bytes[..end];
      }
      ghost var kept := old(disk.bytes)[..end];
      assert disk.bytes == kept;
      assert buf == Buffer(end, body);
      match fate {
        case Lands =>
          disk.bytes := disk.bytes + buf;
          assert disk.bytes == kept + Left(buf, fate);
          end := end + |buf|;
          cutOwed := false;
          return true;
        case AfterCut =>
          assert disk.bytes + [] == disk.bytes;
          return false;
        case Tears(n) =>
          disk.bytes := disk.bytes + buf[..Min(n, |buf|)];
        case Blanks(n) =>
          disk.bytes := disk.bytes + Zeros(Min(n, |buf|));
        case Early =>
      }
      cutOwed := true;
      ok := false;
    }

    /** False, writing nothing, when the held record is byte for byte the same. */
    method Upsert(record: T, fate: Fate) returns (ok: bool)
      modifies this, disk`bytes
      ensures Wrote(Now(), disk.bytes, ok) == Request(c, old(Now()), old(disk.bytes), Frame.Upsert(record), fate)
    {
      var key := c.keyOf(record);
      if key in records && c.encode(records[key]) == c.encode(record) {
        return true;
      }
      if 1 + |c.encode(record)| >= U32_LIMIT {
        return false;
      }
      ok := Append([0] + c.encode(record), fate);
      if ok {
        records := records[key := record];
      }
    }

    /** Append first, mutate second. */
    method Remove(key: Key, fate: Fate) returns (ok: bool)
      modifies this, disk`bytes
      ensures Wrote(Now(), disk.bytes, ok) == Request(c, old(Now()), old(disk.bytes), Frame.Remove(key), fate)
    {
      if key !in records {
        return true;
      }
      if !KeyFits(c, key) {
        return false;
      }
      ok := Append([1] + ToLE32(|key|) + key, fate);
      if ok {
        records := records - {key};
        tombstoned := tombstoned - {key};
        removed := true;
      }
    }

    method Tombstone(key: Key, fate: Fate) returns (ok: bool)
      modifies this, disk`bytes
      ensures Wrote(Now(), disk.bytes, ok) == Request(c, old(Now()), old(disk.bytes), Frame.Tombstone(key), fate)
    {
      if key !in records || key in tombstoned {
        return true;
      }
      if !KeyFits(c, key) {
        return false;
      }
      ok := Append([2] + ToLE32(|key|) + key, fate);
      if ok {
        tombstoned := tombstoned + {key};
      }
    }

    method Untombstone(key: Key, fate: Fate) returns (ok: bool)
      modifies this, disk`bytes
      ensures Wrote(Now(), disk.bytes, ok) == Request(c, old(Now()), old(disk.bytes), Frame.Untombstone(key), fate)
    {
      if key !in tombstoned {
        return true;
      }
      if !KeyFits(c, key) {
        return false;
      }
      ok := Append([3] + ToLE32(|key|) + key, fate);
      if ok {
        tombstoned := tombstoned - {key};
      }
    }

    /** The file is emptied before the maps are. */
    method Wipe(atomicWriteOk: bool) returns (ok: bool)
      modifies this, disk`bytes
      ensures Wrote(Now(), disk.bytes, ok) == KvLog.Wipe(old(Now()), old(disk.bytes), atomicWriteOk)
    {
      if held || !atomicWriteOk {
        return false;
      }
      disk.bytes := [];
      records, tombstoned := map[], {};
      end, cutOwed, removed := 0, false, false;
      ok := true;
    }

    method MakeImage() returns (image: Option<Bytes>)
      ensures image == if ImageFits(c, Content(records, tombstoned)) then Some(Image(c, Content(records, tombstoned))) else None
    {
      image := PushEach(c, Header(), ImageFrames(Content(records, tombstoned)));
    }

    /** Whether an image replays to the state it was built from. */
    method Check(image: Bytes) returns (same: bool)
      ensures same == ReplaysTo(c, Replay(c, image, true), Content(records, tombstoned))
    {
      var check := ReplayFile(c, image, true);
      same := ReplaysTo(c, check, Content(records, tombstoned));
    }

    /** Rewrite the file as its live state, once the image is seen to replay to it. */
    method Compact(atomicWriteOk: bool) returns (ok: bool)
      modifies this, disk`bytes
      ensures Wrote(Now(), disk.bytes, ok) == KvLog.Compact(c, old(Now()), old(disk.bytes), atomicWriteOk)
    {
      ghost var log := Now();
      ghost var content := Content(records, tombstoned);
      assert log.content == content;
      if held || (|disk.bytes| > end && !cutOwed) {
        return false;
      }
      var image := MakeImage();
      if image.None? {
        return false;
      }
      var same := Check(image.value);
      CompactIs(c, log, disk.bytes, image.value, same, atomicWriteOk);
      if !same || !atomicWriteOk {
        return false;
      }
      disk.bytes := image.value;
      end, cutOwed, removed := |image.value|, false, false;
      ok := true;
    }

    /** The second half of a load: rewrite a file that asks for it. */
    method Repair(found: Replayed<T>, rewriteOk: bool)
      modifies this, disk`bytes
      ensures KvLog.Loaded(Now(), disk.Now()) == Repaired(c, found, old(Now()), old(disk.Now()), rewriteOk)
    {
      if found.format == V1 || found.tail != Clean || Grown(|disk.bytes|, found.liveLen) {
        var ok := Compact(rewriteOk);
        if !ok && found.format == V1 {
          held := true;
        }
      }
    }
  }

  /** Replay the file, copy aside what cannot be read, then repair. */
  method Load<T(==)>(c: Codec<T>, disk: Disk, verify: bool, asideOk: bool, rewriteOk: bool) returns (log: Option<Log<T>>)
    modifies disk
    ensures match KvLog.Load(c, old(disk.Now()), verify, asideOk, rewriteOk)
      case Refused => log == None && disk.Now() == old(disk.Now())
      case Loaded(l, files) => log.Some? && log.value.c == c && log.value.disk == disk
                               && log.value.Now() == l && disk.Now() == files
  {
    var found := ReplayFile(c, disk.bytes, verify);
    if found.None? {
      return None;
    }
    var r := found.value;
    var loaded := new Log(c, disk, r);
    log := Some(loaded);
    if !verify {
      loaded.held := true;
      return;
    }
    if r.format == Empty {
      return;
    }
    if r.tail.Unreadable? {
      if !asideOk {
        loaded.held := true;
        return;
      }
      var tail := if r.goodEnd <= |disk.bytes| then disk.bytes[r.goodEnd..] else [];
      disk.asides := disk.asides[AsideOf(r.goodEnd, tail) := tail];
    }
    loaded.cutOwed := r.tail != Clean;
    loaded.Repair(r, rewriteOk);
  }
}

/** The one durable write (`atomic_write` in `rust/chain/src/durable.rs`) over a
    file system that may lose what was not synced: file data never fsynced reads
    back as anything, and of the directory changes since the last directory fsync
    a crash keeps any subset. */
module Durable {
  import opened Bytes

  type Name = string

  datatype Inode = Inode(data: Bytes, synced: bool)

  /** A directory change: a new name for a file, or a file moved over another name. */
  datatype Change = Link(name: Name, id: nat) | Move(from: Name, to: Name, id: nat)

  type Directory = map<Name, nat>

  /** `kept` is the directory as last synced; `pending` what has changed since. */
  datatype FileSystem = FileSystem(inodes: map<nat, Inode>, kept: Directory, pending: seq<Change>)

  function Make(d: Directory, c: Change): Directory {
    match c
    case Link(name, id) => d[name := id]
    case Move(from, to, id) => (d - {from})[to := id]
  }

  function MakeAll(d: Directory, cs: seq<Change>): Directory
    decreases |cs|
  {
    if cs == [] then d else MakeAll(Make(d, cs[0]), cs[1..])
  }

  /** The directory a running program sees. */
  function Live(f: FileSystem): Directory {
    MakeAll(f.kept, f.pending)
  }

  /** What a crash leaves: the changes the mask picks. */
  function Survivors(d: Directory, cs: seq<Change>, mask: seq<bool>): Directory
    requires |mask| == |cs|
    decreases |cs|
  {
    if cs == [] then d else Survivors(if mask[0] then Make(d, cs[0]) else d, cs[1..], mask[1..])
  }

  /** Reading a directory's entry: unsynced data may read as any bytes. */
  predicate ReadsAs(f: FileSystem, d: Directory, name: Name, c: Option<Bytes>) {
    if name !in d then c == None
    else c.Some? && (d[name] in f.inodes && f.inodes[d[name]].synced ==> c.value == f.inodes[d[name]].data)
  }

  /** `name` may hold `c` after a crash now. */
  ghost predicate MayHold(f: FileSystem, name: Name, c: Option<Bytes>) {
    exists mask: seq<bool> :: |mask| == |f.pending| && ReadsAs(f, Survivors(f.kept, f.pending, mask), name, c)
  }

  predicate Names(c: Change, name: Name) {
    match c
    case Link(n, _) => n == name
    case Move(from, to, _) => from == name || to == name
  }

  /** An inode no other name leads to, its data synced: nothing done to other files
      can change what it reads as. */
  ghost predicate Safe(f: FileSystem, name: Name, id: nat) {
    && id in f.inodes && f.inodes[id].synced
    && forall other :: other in Live(f) && other != name ==> Live(f)[other] != id
  }

  /** Every file the target's name may lead to after a crash is safe: the one it is
      synced as, and those renamed over it since. No file has two names. */
  ghost predicate Steady(f: FileSystem, name: Name) {
    && (forall i :: 0 <= i < |f.pending| && Names(f.pending[i], name) ==>
          f.pending[i].Move? && f.pending[i].to == name != f.pending[i].from && Safe(f, name, f.pending[i].id))
    && (name in f.kept ==> Safe(f, name, f.kept[name]))
    && (forall a :: a in Live(f) ==> Live(f)[a] in f.inodes)
    && (forall a, b :: a in Live(f) && b in Live(f) && a != b ==> Live(f)[a] != Live(f)[b])
  }

  function DataOf(f: FileSystem, id: nat): Option<Bytes> {
    if id in f.inodes then Some(f.inodes[id].data) else None
  }

  function KeptContent(f: FileSystem, name: Name): Option<Bytes> {
    if name in f.kept then DataOf(f, f.kept[name]) else None
  }

  /** The target as last synced, or as some rename since then made it. */
  ghost predicate CouldBe(f: FileSystem, name: Name, c: Option<Bytes>) {
    c == KeptContent(f, name) ||
    exists i :: 0 <= i < |f.pending| && f.pending[i].Move? && f.pending[i].to == name && c == DataOf(f, f.pending[i].id)
  }

  function Content(f: FileSystem, name: Name): Option<Bytes> {
    var d := Live(f);
    if name in d then DataOf(f, d[name]) else None
  }

  function TempOf(name: Name): (r: Name)
    ensures r != name
  {
    assert |"." + name + ".tmp"| == |name| + 5;
    "." + name + ".tmp"
  }

  /** After any crash the name leads where it was synced to, or where some surviving
      rename took it. */
  lemma {:induction false} SurvivorIsSome(d: Directory, cs: seq<Change>, mask: seq<bool>, name: Name)
    requires |mask| == |cs|
    requires forall i :: 0 <= i < |cs| && Names(cs[i], name) ==> cs[i].Move? && cs[i].to == name != cs[i].from
    ensures var s := Survivors(d, cs, mask);
      || ((name in s <==> name in d) && (name in d ==> s[name] == d[name]))
      || exists i :: 0 <= i < |cs| && cs[i].Move? && cs[i].to == name && name in s && s[name] == cs[i].id
    decreases |cs|
  {
    if cs != [] {
      var d1 := if mask[0] then Make(d, cs[0]) else d;
      SurvivorIsSome(d1, cs[1..], mask[1..], name);
      var s := Survivors(d, cs, mask);
      if i :| 0 <= i < |cs[1..]| && cs[1..][i].Move? && cs[1..][i].to == name && name in s && s[name] == cs[1..][i].id {
        assert cs[i + 1] == cs[1..][i];
      } else if mask[0] && Names(cs[0], name) {
        assert cs[0].Move? && cs[0].to == name && s[name] == cs[0].id;
      }
    }
  }

  /** All changes surviving is the live directory. */
  lemma {:induction false} AllSurvive(d: Directory, cs: seq<Change>)
    ensures Survivors(d, cs, seq(|cs|, _ => true)) == MakeAll(d, cs)
    decreases |cs|
  {
    if cs != [] {
      assert seq(|cs|, _ => true)[1..] == seq(|cs[1..]|, _ => true);
      AllSurvive(Make(d, cs[0]), cs[1..]);
    }
  }

  lemma {:induction false} NoneSurvives(d: Directory, cs: seq<Change>)
    ensures Survivors(d, cs, seq(|cs|, _ => false)) == d
    decreases |cs|
  {
    if cs != [] {
      assert seq(|cs|, _ => false)[1..] == seq(|cs[1..]|, _ => false);
      NoneSurvives(d, cs[1..]);
    }
  }

  /** A crash may keep one change alone. */
  lemma {:induction false} OneSurvives(d: Directory, cs: seq<Change>, i: nat)
    requires i < |cs|
    ensures Survivors(d, cs, seq(|cs|, j => j == i)) == Make(d, cs[i])
    decreases |cs|
  {
    if i == 0 {
      assert seq(|cs|, j => j == i)[1..] == seq(|cs[1..]|, _ => false);
      NoneSurvives(Make(d, cs[0]), cs[1..]);
    } else {
      assert seq(|cs|, j => j == i)[1..] == seq(|cs[1..]|, j => j == i - 1);
      OneSurvives(d, cs[1..], i - 1);
    }
  }

  /** **What a crash can leave of a steady target, exactly:** what it is synced as, or
      any one of the files renamed over it since. */
  lemma MayHoldExactly(f: FileSystem, name: Name, c: Option<Bytes>)
    requires Steady(f, name)
    ensures MayHold(f, name, c) <==> CouldBe(f, name, c)
  {
    forall mask: seq<bool> | |mask| == |f.pending| && ReadsAs(f, Survivors(f.kept, f.pending, mask), name, c)
      ensures CouldBe(f, name, c)
    {
      SurvivorIsSome(f.kept, f.pending, mask, name);
    }
    if c == KeptContent(f, name) {
      var mask := seq(|f.pending|, _ => false);
      NoneSurvives(f.kept, f.pending);
      assert ReadsAs(f, Survivors(f.kept, f.pending, mask), name, c);
    } else if CouldBe(f, name, c) {
      var i :| 0 <= i < |f.pending| && f.pending[i].Move? && f.pending[i].to == name && c == DataOf(f, f.pending[i].id);
      var mask := seq(|f.pending|, j => j == i);
      OneSurvives(f.kept, f.pending, i);
      assert ReadsAs(f, Survivors(f.kept, f.pending, mask), name, c);
    }
  }

  lemma Exactly(f: FileSystem, name: Name)
    requires Steady(f, name)
    ensures forall c :: MayHold(f, name, c) <==> CouldBe(f, name, c)
  {
    forall c
      ensures MayHold(f, name, c) <==> CouldBe(f, name, c)
    {
      MayHoldExactly(f, name, c);
    }
  }

  /** The live target is one of them, and safe. */
  lemma LiveIsSafe(f: FileSystem, name: Name)
    requires Steady(f, name) && name in Live(f)
    ensures Safe(f, name, Live(f)[name])
  {
    AllSurvive(f.kept, f.pending);
    SurvivorIsSome(f.kept, f.pending, seq(|f.pending|, _ => true), name);
  }

  lemma {:induction false} MakeAllMore(d: Directory, cs: seq<Change>, c: Change)
    ensures MakeAll(d, cs + [c]) == Make(MakeAll(d, cs), c)
    decreases |cs|
  {
    if cs == [] {
      assert cs + [c] == [c] && [c][1..] == [];
    } else {
      assert (cs + [c])[0] == cs[0] && (cs + [c])[1..] == cs[1..] + [c];
      MakeAllMore(Make(d, cs[0]), cs[1..], c);
    }
  }

  // ---- the steps ----

  /** Create or truncate: an existing file keeps its inode and loses its data. */
  function Create(f: FileSystem, name: Name, freshId: nat): FileSystem {
    var d := Live(f);
    if name in d then f.(inodes := f.inodes[d[name] := Inode([], false)])
    else f.(inodes := f.inodes[freshId := Inode([], false)], pending := f.pending + [Link(name, freshId)])
  }

  function Write(f: FileSystem, id: nat, data: Bytes): FileSystem {
    f.(inodes := f.inodes[id := Inode(data, false)])
  }

  function Sync(f: FileSystem, id: nat): FileSystem
    requires id in f.inodes
  {
    f.(inodes := f.inodes[id := f.inodes[id].(synced := true)])
  }

  function Rename(f: FileSystem, from: Name, to: Name): FileSystem
    requires from in Live(f)
  {
    f.(pending := f.pending + [Move(from, to, Live(f)[from])])
  }

  function SyncDirectory(f: FileSystem): FileSystem {
    f.(kept := Live(f), pending := [])
  }

  /** Changing a file that another name leads to leaves the target as it was. */
  lemma OtherInode(f: FileSystem, name: Name, tmp: Name, inode: Inode)
    requires Steady(f, name) && tmp != name && tmp in Live(f)
    ensures var f' := f.(inodes := f.inodes[Live(f)[tmp] := inode]);
      && Steady(f', name) && Live(f') == Live(f)
      && forall c :: CouldBe(f', name, c) <==> CouldBe(f, name, c)
  {
    var f' := f.(inodes := f.inodes[Live(f)[tmp] := inode]);
    assert Live(f') == Live(f);
    forall id | Safe(f, name, id)
      ensures Safe(f', name, id) && DataOf(f', id) == DataOf(f, id)
    {
    }
  }

  lemma CreateOther(f: FileSystem, name: Name, tmp: Name, freshId: nat)
    requires Steady(f, name) && tmp != name && freshId !in f.inodes
    ensures var f' := Create(f, tmp, freshId);
      && Steady(f', name) && tmp in Live(f')
      && (forall c :: CouldBe(f', name, c) <==> CouldBe(f, name, c))
      && (name in Live(f') <==> name in Live(f)) && (name in Live(f) ==> Live(f')[name] == Live(f)[name])
  {
    if tmp in Live(f) {
      OtherInode(f, name, tmp, Inode([], false));
    } else {
      var f' := Create(f, tmp, freshId);
      MakeAllMore(f.kept, f.pending, Link(tmp, freshId));
      assert Live(f') == Live(f)[tmp := freshId];
      forall id | Safe(f, name, id)
        ensures Safe(f', name, id) && DataOf(f', id) == DataOf(f, id)
      {
      }
      forall c
        ensures CouldBe(f', name, c) <==> CouldBe(f, name, c)
      {
        if i :| 0 <= i < |f.pending| && f.pending[i].Move? && f.pending[i].to == name && c == DataOf(f, f.pending[i].id) {
          assert f'.pending[i] == f.pending[i];
        }
      }
    }
  }

  /** **The rename adds one value,** the new file's, whose data was synced before any
      name could point at it; it takes none away. */
  lemma RenameAdds(f: FileSystem, name: Name, tmp: Name, bytes: Bytes)
    requires Steady(f, name) && tmp != name && tmp in Live(f) && f.inodes[Live(f)[tmp]] == Inode(bytes, true)
    ensures var f' := Rename(f, tmp, name);
      && Steady(f', name) && Content(f', name) == Some(bytes)
      && forall c :: CouldBe(f', name, c) <==> CouldBe(f, name, c) || c == Some(bytes)
  {
    var id := Live(f)[tmp];
    var f' := Rename(f, tmp, name);
    MakeAllMore(f.kept, f.pending, Move(tmp, name, id));
    assert Live(f') == (Live(f) - {tmp})[name := id];
    forall x | Safe(f, name, x)
      ensures Safe(f', name, x)
    {
    }
    assert Safe(f', name, id);
    forall c
      ensures CouldBe(f', name, c) <==> CouldBe(f, name, c) || c == Some(bytes)
    {
      assert f'.pending[|f.pending|] == Move(tmp, name, id);
      if i :| 0 <= i < |f.pending| && f.pending[i].Move? && f.pending[i].to == name && c == DataOf(f, f.pending[i].id) {
        assert f'.pending[i] == f.pending[i];
      }
    }
  }

  /** **The directory's fsync settles it:** the live file is all a crash can leave. */
  lemma SyncedIsFinal(f: FileSystem, name: Name)
    requires Steady(f, name)
    ensures var f' := SyncDirectory(f);
      && Steady(f', name) && Live(f') == Live(f)
      && forall c :: CouldBe(f', name, c) <==> c == Content(f, name)
  {
    var f' := SyncDirectory(f);
    assert Live(f') == Live(f);
    if name in Live(f) {
      LiveIsSafe(f, name);
    }
  }

  /** The target is as it was, now and after a crash. */
  ghost predicate AsBefore(f: FileSystem, f': FileSystem, name: Name) {
    Steady(f', name) && Content(f', name) == Content(f, name) && forall c :: MayHold(f', name, c) <==> MayHold(f, name, c)
  }

  /** While the name leads where it led, to a file no one else has a name for, the
      target reads the same. */
  lemma ContentKept(f: FileSystem, f': FileSystem, name: Name)
    requires Steady(f, name)
    requires (name in Live(f') <==> name in Live(f)) && (name in Live(f) ==> Live(f')[name] == Live(f)[name])
    requires forall id :: Safe(f, name, id) ==> DataOf(f', id) == DataOf(f, id)
    ensures Content(f', name) == Content(f, name)
  {
    if name in Live(f) {
      LiveIsSafe(f, name);
    }
  }

  lemma CreateKeeps(f: FileSystem, name: Name, tmp: Name, freshId: nat)
    requires Steady(f, name) && tmp != name && freshId !in f.inodes
    ensures var f' := Create(f, tmp, freshId); AsBefore(f, f', name) && tmp in Live(f')
  {
    var f' := Create(f, tmp, freshId);
    CreateOther(f, name, tmp, freshId);
    ContentKept(f, f', name);
    Exactly(f, name);
    Exactly(f', name);
  }

  lemma InodeKeeps(f: FileSystem, name: Name, tmp: Name, inode: Inode)
    requires Steady(f, name) && tmp != name && tmp in Live(f)
    ensures var f' := f.(inodes := f.inodes[Live(f)[tmp] := inode]); AsBefore(f, f', name) && Live(f') == Live(f)
  {
    var f' := f.(inodes := f.inodes[Live(f)[tmp] := inode]);
    OtherInode(f, name, tmp, inode);
    ContentKept(f, f', name);
    Exactly(f, name);
    Exactly(f', name);
  }

  lemma RenameMakes(f: FileSystem, name: Name, tmp: Name, bytes: Bytes)
    requires Steady(f, name) && tmp != name && tmp in Live(f) && f.inodes[Live(f)[tmp]] == Inode(bytes, true)
    ensures var f' := Rename(f, tmp, name);
      && Steady(f', name) && Content(f', name) == Some(bytes)
      && forall c :: MayHold(f', name, c) <==> c == Some(bytes) || MayHold(f, name, c)
  {
    RenameAdds(f, name, tmp, bytes);
    Exactly(f, name);
    Exactly(Rename(f, tmp, name), name);
  }

  lemma SyncSettles(f: FileSystem, name: Name)
    requires Steady(f, name)
    ensures var f' := SyncDirectory(f);
      && Steady(f', name) && Content(f', name) == Content(f, name)
      && forall c :: MayHold(f', name, c) <==> c == Content(f, name)
  {
    SyncedIsFinal(f, name);
    Exactly(SyncDirectory(f), name);
  }

  /** Which steps fail, and how far the write got. */
  datatype Plan = Plan(directoryOk: bool, createOk: bool, written: nat, syncOk: bool, renameOk: bool, directorySyncOk: bool)

  predicate Succeeds(bytes: Bytes, plan: Plan) {
    plan.directoryOk && plan.createOk && plan.written >= |bytes| && plan.syncOk && plan.renameOk
  }

  /** What the volume holds for the target after a write: as before when it failed;
      else the new bytes now, and after a crash the new bytes or, exactly when the
      directory's fsync was refused, what a crash before it could have left. */
  ghost predicate Became(f: FileSystem, f': FileSystem, name: Name, bytes: Bytes, plan: Plan) {
    if !Succeeds(bytes, plan) then AsBefore(f, f', name)
    else
      && Steady(f', name) && Content(f', name) == Some(bytes)
      && forall c :: MayHold(f', name, c) <==> c == Some(bytes) || (!plan.directorySyncOk && MayHold(f, name, c))
  }

  /** A crash at this state leaves what one at `f` could have, or `bytes`. */
  ghost predicate OldOrNew(state: FileSystem, f: FileSystem, name: Name, bytes: Bytes) {
    forall c :: MayHold(state, name, c) ==> MayHold(f, name, c) || c == Some(bytes)
  }

  ghost predicate AllOldOrNew(states: seq<FileSystem>, from: nat, f: FileSystem, name: Name, bytes: Bytes) {
    forall i :: from <= i < |states| ==> OldOrNew(states[i], f, name, bytes)
  }

  /** As before a step is old enough: nothing new can be found. */
  lemma UnchangedIsOld(f: FileSystem, f1: FileSystem, f2: FileSystem, name: Name, bytes: Bytes)
    requires AsBefore(f, f1, name) && AsBefore(f1, f2, name)
    ensures AsBefore(f, f2, name) && OldOrNew(f2, f, name, bytes)
  {
  }

  class Volume {
    var fs: FileSystem
    /** Every state a crash could have found, in order. */
    ghost var trail: seq<FileSystem>

    constructor (fs: FileSystem)
      ensures this.fs == fs && trail == [fs]
    {
      this.fs, trail := fs, [fs];
    }

    method Reach(next: FileSystem)
      modifies this
      ensures fs == next && trail == old(trail) + [next]
    {
      fs, trail := next, trail + [next];
    }

    /** The temp file's own steps leave the target as it was. */
    method WriteTemp(name: Name, tmp: Name, bytes: Bytes, plan: Plan, freshId: nat) returns (ok: bool)
      requires Steady(fs, name) && tmp != name && freshId !in fs.inodes
      modifies this
      ensures old(trail) <= trail && AllOldOrNew(trail, |old(trail)|, old(fs), name, bytes)
      ensures AsBefore(old(fs), fs, name)
      ensures ok == (plan.createOk && plan.written >= |bytes| && plan.syncOk)
      ensures ok ==> tmp in Live(fs) && fs.inodes[Live(fs)[tmp]] == Inode(bytes, true)
    {
      if !plan.createOk {
        return false;
      }
      ghost var f := fs;
      CreateKeeps(fs, name, tmp, freshId);
      UnchangedIsOld(f, f, Create(fs, tmp, freshId), name, bytes);
      Reach(Create(fs, tmp, freshId));
      var id := Live(fs)[tmp];
      var n := if plan.written < |bytes| then plan.written else |bytes|;
      InodeKeeps(fs, name, tmp, Inode(bytes[..n], false));
      UnchangedIsOld(f, fs, Write(fs, id, bytes[..n]), name, bytes);
      Reach(Write(fs, id, bytes[..n]));
      if plan.written < |bytes| || !plan.syncOk {
        return false;
      }
      assert bytes[..n] == bytes;
      InodeKeeps(fs, name, tmp, Inode(bytes, true));
      UnchangedIsOld(f, fs, Sync(fs, id), name, bytes);
      Reach(Sync(fs, id));
      ok := true;
    }

    /** **Old or new, never torn.** From a steady target, a crash at any state of the
        write leaves what a crash before it could have left, or exactly the new bytes.
        An error leaves the target as it was. After success a crash leaves the new
        bytes or, exactly when the directory's fsync was refused, what it could have
        left before; the target is steady again either way. */
    method AtomicWrite(name: Name, bytes: Bytes, plan: Plan, freshId: nat) returns (ok: bool)
      requires Steady(fs, name) && freshId !in fs.inodes
      modifies this
      ensures old(trail) <= trail && AllOldOrNew(trail, |old(trail)|, old(fs), name, bytes)
      ensures ok == Succeeds(bytes, plan)
      ensures Steady(fs, name) && Became(old(fs), fs, name, bytes, plan)
    {
      if !plan.directoryOk {
        return false;
      }
      var tmp := TempOf(name);
      ok := WriteTemp(name, tmp, bytes, plan, freshId);
      if !ok || !plan.renameOk {
        return false;
      }
      RenameMakes(fs, name, tmp, bytes);
      Reach(Rename(fs, tmp, name));
      if plan.directorySyncOk {
        SyncSettles(fs, name);
        Reach(SyncDirectory(fs));
      }
    }
  }

  // ---- one write after another ----

  /** One write of the target: its bytes and how it fared. */
  datatype Attempt = Attempt(bytes: Bytes, plan: Plan)

  /** The values written since the last directory fsync that was not refused, with
      the value then: what the caller of these writes should expect of a crash. */
  function Since(values: set<Option<Bytes>>, attempts: seq<Attempt>): set<Option<Bytes>>
    decreases |attempts|
  {
    if attempts == [] then values
    else
      var a := attempts[0];
      Since(if !Succeeds(a.bytes, a.plan) then values
            else if a.plan.directorySyncOk then {Some(a.bytes)}
            else values + {Some(a.bytes)}, attempts[1..])
  }

  /** A run of writes, state by state. */
  ghost predicate Written(states: seq<FileSystem>, name: Name, attempts: seq<Attempt>) {
    && |states| == |attempts| + 1
    && forall i :: 0 <= i < |attempts| ==> WroteAt(states, name, attempts, i)
  }

  ghost predicate WroteAt(states: seq<FileSystem>, name: Name, attempts: seq<Attempt>, i: nat)
    requires i < |attempts| && |states| == |attempts| + 1
  {
    Steady(states[i + 1], name) && Became(states[i], states[i + 1], name, attempts[i].bytes, attempts[i].plan)
  }

  /** **After any run of writes,** each failing anywhere or succeeding with the
      directory's fsync granted or refused, a crash can leave exactly the values
      written since the last one granted, and the value the run was on then. */
  lemma {:induction false} CrashAfterWrites(states: seq<FileSystem>, name: Name, attempts: seq<Attempt>, values: set<Option<Bytes>>)
    requires Written(states, name, attempts) && Steady(states[0], name)
    requires forall c :: MayHold(states[0], name, c) <==> c in values
    ensures forall c :: MayHold(states[|attempts|], name, c) <==> c in Since(values, attempts)
    decreases |attempts|
  {
    if attempts != [] {
      var a := attempts[0];
      assert WroteAt(states, name, attempts, 0);
      forall i | 0 <= i < |attempts[1..]|
        ensures WroteAt(states[1..], name, attempts[1..], i)
      {
        assert WroteAt(states, name, attempts, i + 1);
      }
      CrashAfterWrites(states[1..], name, attempts[1..],
        if !Succeeds(a.bytes, a.plan) then values
        else if a.plan.directorySyncOk then {Some(a.bytes)} else values + {Some(a.bytes)});
    }
  }
}

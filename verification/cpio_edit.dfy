/** process_archive: remove, rename, replace and add entries, keeping the trailer and what follows it. */
module CpioEdit {
  import opened Wrappers
  import opened CpioArchive

  type Path = string

  // What lstat, readlink and read_bytes say about a file on the host.
  datatype FileStat = FileStat(mode: nat, mtime: nat, data: bytes, rdevmajor: nat, rdevminor: nat)
  type FileSystem = map<Path, FileStat>

  datatype EditError = NoSuchFile(path: Path) | UnsupportedType(path: Path)

  // The four command-line maps; dict keys are distinct, dict order is insertion order.
  datatype Plan = Plan(rename: map<bytes, bytes>, replace: map<bytes, Path>, remove: seq<bytes>, add: seq<(bytes, Path)>)

  ghost predicate DistinctAdds(plan: Plan) {
    forall i, j :: 0 <= i < j < |plan.add| ==> plan.add[i].0 != plan.add[j].0
  }

  /* ---------- one entry ---------- */

  // st_mode keeps the file type in the four bits above the twelve permission bits.
  const TYPE_UNIT: nat := 4096
  const LINK: nat := 10
  const REGULAR: nat := 8
  const DIRECTORY: nat := 4
  const BLOCK: nat := 6
  const CHARACTER: nat := 2

  function TypeBits(mode: nat): nat {
    mode / TYPE_UNIT % 16
  }

  predicate IsDevice(st: FileStat) {
    TypeBits(st.mode) == BLOCK || TypeBits(st.mode) == CHARACTER
  }

  predicate Buildable(fs: FileSystem, path: Path) {
    path in fs && TypeBits(fs[path].mode) in {LINK, REGULAR, DIRECTORY, BLOCK, CHARACTER}
  }

  function BuildEntry(name: bytes, path: Path, ino: nat, fs: FileSystem): Result<Entry, EditError> {
    if path !in fs then Failure(NoSuchFile(path))
    else if !Buildable(fs, path) then Failure(UnsupportedType(path))
    else
      var st := fs[path];
      var kind := TypeBits(st.mode);
      var data := if kind == LINK || kind == REGULAR then st.data else [];
      var mode := if IsDevice(st) then st.mode else kind * TYPE_UNIT + st.mode % TYPE_UNIT;
      Success(Entry(name, ino, mode, 0, 0, 1, st.mtime, |data|, 0, 0,
                    if IsDevice(st) then st.rdevmajor else 0, if IsDevice(st) then st.rdevminor else 0, 0, data))
  }

  function NewName(name: bytes, plan: Plan): bytes {
    if name in plan.rename then plan.rename[name] else name
  }

  function EditEntry(e: Entry, plan: Plan, fs: FileSystem): Result<Entry, EditError> {
    var name := NewName(e.name, plan);
    if name !in plan.replace then Success(e.(name := name))
    else
      match BuildEntry(name, plan.replace[name], e.ino, fs)
      case Failure(error) => Failure(error)
      case Success(r) =>
        Success(r.(uid := e.uid, gid := e.gid, nlink := e.nlink, devmajor := e.devmajor, devminor := e.devminor))
  }

  /* ---------- the whole archive ---------- */

  function WithoutTrailer(a: Archive): seq<Entry>
    requires Closed(a)
  {
    a.entries[..|a.entries| - 1]
  }

  function Trailer(a: Archive): Entry
    requires Closed(a)
  {
    a.entries[|a.entries| - 1]
  }

  function MaxInode(entries: seq<Entry>): nat {
    if entries == [] then 0
    else
      var m := MaxInode(entries[..|entries| - 1]);
      if entries[|entries| - 1].ino > m then entries[|entries| - 1].ino else m
  }

  function NextInode(a: Archive): nat
    requires Closed(a)
  {
    MaxInode(WithoutTrailer(a)) + 1
  }

  // The positions of the entries whose original name is not removed.
  function KeptIndices(entries: seq<Entry>, remove: seq<bytes>): seq<nat> {
    if entries == [] then []
    else
      var n := |entries| - 1;
      KeptIndices(entries[..n], remove) + if entries[n].name in remove then [] else [n]
  }

  function Survivors(entries: seq<Entry>, remove: seq<bytes>): seq<Entry> {
    if entries == [] then []
    else
      var n := |entries| - 1;
      Survivors(entries[..n], remove) + if entries[n].name in remove then [] else [entries[n]]
  }

  // Every survivor edited, or the error of the first one that cannot be.
  function EditAll(entries: seq<Entry>, plan: Plan, fs: FileSystem): Result<seq<Entry>, EditError> {
    if entries == [] then Success([])
    else
      match EditAll(entries[..|entries| - 1], plan, fs)
      case Failure(error) => Failure(error)
      case Success(done) =>
        match EditEntry(entries[|entries| - 1], plan, fs)
        case Failure(error) => Failure(error)
        case Success(e) => Success(done + [e])
  }

  function AddAll(add: seq<(bytes, Path)>, ino: nat, fs: FileSystem): Result<seq<Entry>, EditError> {
    if add == [] then Success([])
    else
      var n := |add| - 1;
      match AddAll(add[..n], ino, fs)
      case Failure(error) => Failure(error)
      case Success(done) =>
        match BuildEntry(add[n].0, add[n].1, ino + n, fs)
        case Failure(error) => Failure(error)
        case Success(e) => Success(done + [e])
  }

  function Edit(a: Archive, plan: Plan, fs: FileSystem): Result<Archive, EditError>
    requires Closed(a)
  {
    match EditAll(Survivors(WithoutTrailer(a), plan.remove), plan, fs)
    case Failure(error) => Failure(error)
    case Success(kept) =>
      match AddAll(plan.add, NextInode(a), fs)
      case Failure(error) => Failure(error)
      case Success(added) => Success(Archive(kept + added + [Trailer(a)], a.trailing))
  }

  /* ---------- process_archive as the loops it is ---------- */

  lemma {:induction false} EditAllFailsEarly(entries: seq<Entry>, more: seq<Entry>, plan: Plan, fs: FileSystem)
    requires EditAll(entries, plan, fs).Failure?
    ensures EditAll(entries + more, plan, fs) == EditAll(entries, plan, fs)
    decreases |more|
  {
    if more == [] {
      assert entries + more == entries;
    } else {
      EditAllFailsEarly(entries, more[..|more| - 1], plan, fs);
      assert (entries + more)[..|entries + more| - 1] == entries + more[..|more| - 1];
    }
  }

  lemma {:induction false} SurvivorsExtend(entries: seq<Entry>, k: nat, remove: seq<bytes>)
    requires k <= |entries|
    ensures Survivors(entries[..k], remove) <= Survivors(entries, remove)
    decreases |entries|
  {
    if k < |entries| {
      var front := entries[..|entries| - 1];
      SurvivorsExtend(front, k, remove);
      assert front[..k] == entries[..k];
    } else {
      assert entries[..k] == entries;
    }
  }

  lemma {:induction false} AddAllFailsEarly(add: seq<(bytes, Path)>, k: nat, ino: nat, fs: FileSystem)
    requires k <= |add| && AddAll(add[..k], ino, fs).Failure?
    ensures AddAll(add, ino, fs) == AddAll(add[..k], ino, fs)
    decreases |add|
  {
    if k < |add| {
      var front := add[..|add| - 1];
      assert front[..k] == add[..k];
      AddAllFailsEarly(front, k, ino, fs);
    } else {
      assert add[..k] == add;
    }
  }

  lemma EditAllSnoc(before: seq<Entry>, e: Entry, updated: seq<Entry>, plan: Plan, fs: FileSystem)
    requires EditAll(before, plan, fs) == Success(updated)
    ensures EditAll(before + [e], plan, fs) ==
            match EditEntry(e, plan, fs)
            case Success(edited) => Success(updated + [edited])
            case Failure(error) => Failure(error)
  {
    hide EditEntry;
    var after := before + [e];
    assert after[..|after| - 1] == before;
  }

  lemma SurvivorsSnoc(originals: seq<Entry>, i: nat, remove: seq<bytes>)
    requires i < |originals|
    ensures Survivors(originals[..i + 1], remove)
            == Survivors(originals[..i], remove) + if originals[i].name in remove then [] else [originals[i]]
  {
    assert originals[..i + 1][..i] == originals[..i];
  }

  // One more original: skipped, edited, or the error of the whole edit.
  lemma EditStep(originals: seq<Entry>, i: nat, updated: seq<Entry>, plan: Plan, fs: FileSystem)
    requires i < |originals|
    requires EditAll(Survivors(originals[..i], plan.remove), plan, fs) == Success(updated)
    ensures var now := EditAll(Survivors(originals[..i + 1], plan.remove), plan, fs);
            if originals[i].name in plan.remove then now == Success(updated)
            else
              match EditEntry(originals[i], plan, fs)
              case Success(e) => now == Success(updated + [e])
              case Failure(error) => EditAll(Survivors(originals, plan.remove), plan, fs) == Failure(error)
  {
    hide EditEntry, EditAll, Survivors;
    var before := Survivors(originals[..i], plan.remove);
    SurvivorsSnoc(originals, i, plan.remove);
    if originals[i].name in plan.remove {
      assert before + [] == before;
    } else {
      EditAllSnoc(before, originals[i], updated, plan, fs);
      var after := before + [originals[i]];
      if EditAll(after, plan, fs).Failure? {
        SurvivorsExtend(originals, i + 1, plan.remove);
        var survivors := Survivors(originals, plan.remove);
        EditAllFailsEarly(after, survivors[|after|..], plan, fs);
        assert after + survivors[|after|..] == survivors;
      }
    }
  }

  lemma AddStep(add: seq<(bytes, Path)>, j: nat, ino: nat, added: seq<Entry>, fs: FileSystem)
    requires j < |add| && AddAll(add[..j], ino, fs) == Success(added)
    ensures match BuildEntry(add[j].0, add[j].1, ino + j, fs)
            case Success(e) => AddAll(add[..j + 1], ino, fs) == Success(added + [e])
            case Failure(error) => AddAll(add, ino, fs) == Failure(error)
  {
    hide BuildEntry;
    assert add[..j + 1][..j] == add[..j];
    if AddAll(add[..j + 1], ino, fs).Failure? {
      AddAllFailsEarly(add, j + 1, ino, fs);
    }
  }

  method EditOne(entry: Entry, plan: Plan, fs: FileSystem) returns (r: Result<Entry, EditError>)
    ensures r == EditEntry(entry, plan, fs)
  {
    hide BuildEntry;
    var newEntry := entry;
    if entry.name in plan.rename {
      newEntry := newEntry.(name := plan.rename[entry.name]);
    }
    var target := newEntry.name;
    if target in plan.replace {
      var built := BuildEntry(target, plan.replace[target], newEntry.ino, fs);
      if built.Failure? {
        return Failure(built.error);
      }
      var replacement := built.value;
      replacement := replacement.(uid := newEntry.uid, gid := newEntry.gid, nlink := newEntry.nlink);
      replacement := replacement.(devmajor := newEntry.devmajor, devminor := newEntry.devminor);
      newEntry := replacement;
    }
    r := Success(newEntry);
  }

  // The first loop of process_archive.
  method EditSurvivors(originals: seq<Entry>, plan: Plan, fs: FileSystem) returns (r: Result<seq<Entry>, EditError>)
    ensures r == EditAll(Survivors(originals, plan.remove), plan, fs)
  {
    var updated: seq<Entry> := [];
    assert EditAll(Survivors(originals[..0], plan.remove), plan, fs) == Success([]);
    hide EditEntry, EditAll, Survivors;
    for i := 0 to |originals|
      invariant EditAll(Survivors(originals[..i], plan.remove), plan, fs) == Success(updated)
    {
      EditStep(originals, i, updated, plan, fs);
      var entry := originals[i];
      if entry.name in plan.remove {
        continue;
      }
      var edited := EditOne(entry, plan, fs);
      if edited.Failure? {
        return Failure(edited.error);
      }
      updated := updated + [edited.value];
    }
    assert originals[..|originals|] == originals;
    r := Success(updated);
  }

  // The second one, which numbers the added entries from the first free inode on.
  method AddFiles(updated: seq<Entry>, add: seq<(bytes, Path)>, first: nat, fs: FileSystem)
    returns (r: Result<seq<Entry>, EditError>)
    ensures r == match AddAll(add, first, fs)
                 case Failure(error) => Failure(error)
                 case Success(added) => Success(updated + added)
  {
    var entries := updated;
    ghost var added: seq<Entry> := [];
    assert AddAll(add[..0], first, fs) == Success([]);
    hide AddAll, BuildEntry;
    var nextIno := first;
    for j := 0 to |add|
      invariant nextIno == first + j
      invariant AddAll(add[..j], first, fs) == Success(added)
      invariant entries == updated + added
    {
      AddStep(add, j, first, added, fs);
      var built := BuildEntry(add[j].0, add[j].1, nextIno, fs);
      if built.Failure? {
        return Failure(built.error);
      }
      nextIno := nextIno + 1;
      entries := entries + [built.value];
      added := added + [built.value];
    }
    assert add[..|add|] == add;
    r := Success(entries);
  }

  method ProcessArchive(archive: Archive, plan: Plan, fs: FileSystem) returns (r: Result<Archive, EditError>)
    requires Closed(archive)
    ensures r == Edit(archive, plan, fs)
  {
    hide EditAll, AddAll, Survivors, NextInode, Trailer;
    var kept := EditSurvivors(WithoutTrailer(archive), plan, fs);
    if kept.Failure? {
      return Failure(kept.error);
    }
    var updated := AddFiles(kept.value, plan.add, NextInode(archive), fs);
    if updated.Failure? {
      return Failure(updated.error);
    }
    r := Success(Archive(updated.value + [Trailer(archive)], archive.trailing));
  }

  /* ---------- what an edit means ---------- */

  // KeptIndices lists exactly the unremoved positions, each once, in the archive's order.
  lemma KeptIndicesMeaning(entries: seq<Entry>, remove: seq<bytes>)
    ensures var kept := KeptIndices(entries, remove);
            && (forall k :: 0 <= k < |kept| ==> kept[k] < |entries|)
            && (forall j, k :: 0 <= j < k < |kept| ==> kept[j] < kept[k])
            && (forall i :: 0 <= i < |entries| ==> (i in kept <==> entries[i].name !in remove))
    ensures |Survivors(entries, remove)| == |KeptIndices(entries, remove)|
    ensures forall k :: 0 <= k < |KeptIndices(entries, remove)| ==>
              Survivors(entries, remove)[k] == entries[KeptIndices(entries, remove)[k]]
  {
    KeptInOrder(entries, remove);
    SurvivorsAreKept(entries, remove);
    hide KeptIndices, Survivors;
  }

  lemma {:induction false} KeptInOrder(entries: seq<Entry>, remove: seq<bytes>)
    ensures var kept := KeptIndices(entries, remove);
            && (forall k :: 0 <= k < |kept| ==> kept[k] < |entries|)
            && (forall j, k :: 0 <= j < k < |kept| ==> kept[j] < kept[k])
            && (forall i :: 0 <= i < |entries| ==> (i in kept <==> entries[i].name !in remove))
  {
    if entries != [] {
      KeptInOrder(entries[..|entries| - 1], remove);
    }
  }

  lemma {:induction false} SurvivorsAreKept(entries: seq<Entry>, remove: seq<bytes>)
    ensures |Survivors(entries, remove)| == |KeptIndices(entries, remove)|
    ensures forall k :: 0 <= k < |KeptIndices(entries, remove)| ==>
              && KeptIndices(entries, remove)[k] < |entries|
              && Survivors(entries, remove)[k] == entries[KeptIndices(entries, remove)[k]]
  {
    if entries != [] {
      SurvivorsAreKept(entries[..|entries| - 1], remove);
    }
  }

  lemma {:induction false} EditAllMeaning(entries: seq<Entry>, plan: Plan, fs: FileSystem)
    ensures EditAll(entries, plan, fs).Success? <==> forall k :: 0 <= k < |entries| ==> EditEntry(entries[k], plan, fs).Success?
    ensures EditAll(entries, plan, fs).Success? ==>
              && |EditAll(entries, plan, fs).value| == |entries|
              && forall k :: 0 <= k < |entries| ==>
                   EditEntry(entries[k], plan, fs) == Success(EditAll(entries, plan, fs).value[k])
  {
    hide EditEntry;
    if entries != [] {
      var front := entries[..|entries| - 1];
      EditAllMeaning(front, plan, fs);
      assert forall k :: 0 <= k < |front| ==> front[k] == entries[k];
    }
  }

  lemma {:induction false} AddAllMeaning(add: seq<(bytes, Path)>, ino: nat, fs: FileSystem)
    ensures AddAll(add, ino, fs).Success? <==> forall k :: 0 <= k < |add| ==> Buildable(fs, add[k].1)
    ensures AddAll(add, ino, fs).Success? ==>
              && |AddAll(add, ino, fs).value| == |add|
              && forall k :: 0 <= k < |add| ==>
                   BuildEntry(add[k].0, add[k].1, ino + k, fs) == Success(AddAll(add, ino, fs).value[k])
  {
    if add != [] {
      var front := add[..|add| - 1];
      AddAllMeaning(front, ino, fs);
      BuildSucceedsIff(add[|add| - 1].0, add[|add| - 1].1, ino + |add| - 1, fs);
      hide BuildEntry, Buildable;
      assert forall k :: 0 <= k < |front| ==> front[k] == add[k];
    }
  }

  lemma BuildSucceedsIff(name: bytes, path: Path, ino: nat, fs: FileSystem)
    ensures BuildEntry(name, path, ino, fs).Success? <==> Buildable(fs, path)
  {
  }

  // Whether `now` is what the plan makes of `before`: renamed once, and either otherwise untouched
  // or, when the new name is replaced, the host file under the old inode, owner, links and device.
  ghost predicate IsEdited(before: Entry, now: Entry, plan: Plan, fs: FileSystem) {
    && now.name == NewName(before.name, plan)
    && now.ino == before.ino
    && now.uid == before.uid && now.gid == before.gid && now.nlink == before.nlink
    && now.devmajor == before.devmajor && now.devminor == before.devminor
    && (now.name !in plan.replace ==> now == before.(name := now.name))
    && (now.name in plan.replace ==> CarriesFile(now, plan.replace[now.name], fs))
  }

  // The host file under S_IFMT: 0xA links, 8 regular files, 4 directories, 6 and 2 devices.
  ghost predicate CarriesFile(e: Entry, path: Path, fs: FileSystem) {
    && Buildable(fs, path)
    && var st := fs[path];
       var kind := st.mode / 0x1000 % 0x10;
       && kind in {0xA, 0x8, 0x4, 0x6, 0x2}
       && e.mtime == st.mtime && e.check == 0 && e.filesize == |e.data|
       && e.mode % 0x1_0000 == st.mode % 0x1_0000
       && (if kind in {0x6, 0x2} then e.mode == st.mode else e.mode < 0x1_0000)
       && e.data == (if kind in {0xA, 0x8} then st.data else [])
       && (if kind in {0x6, 0x2} then e.rdevmajor == st.rdevmajor && e.rdevminor == st.rdevminor
           else e.rdevmajor == 0 && e.rdevminor == 0)
  }

  ghost predicate IsAdded(e: Entry, name: bytes, path: Path, ino: nat, fs: FileSystem) {
    && e.name == name && e.ino == ino
    && e.uid == 0 && e.gid == 0 && e.nlink == 1 && e.devmajor == 0 && e.devminor == 0
    && CarriesFile(e, path, fs)
  }

  // What can be built: the five kinds, and an error that says which it is.
  lemma BuildableIff(name: bytes, path: Path, ino: nat, fs: FileSystem)
    ensures Buildable(fs, path) <==> path in fs && fs[path].mode / 0x1000 % 0x10 in {0xA, 0x8, 0x4, 0x6, 0x2}
    ensures !Buildable(fs, path) ==>
              BuildEntry(name, path, ino, fs) == Failure(if path in fs then UnsupportedType(path) else NoSuchFile(path))
  {
  }

  lemma BuildMeaning(name: bytes, path: Path, ino: nat, fs: FileSystem)
    requires BuildEntry(name, path, ino, fs).Success?
    ensures IsAdded(BuildEntry(name, path, ino, fs).value, name, path, ino, fs)
  {
  }

  lemma EditEntryMeaning(e: Entry, plan: Plan, fs: FileSystem)
    ensures EditEntry(e, plan, fs).Success? <==>
              (NewName(e.name, plan) in plan.replace ==> Buildable(fs, plan.replace[NewName(e.name, plan)]))
    ensures EditEntry(e, plan, fs).Success? ==> IsEdited(e, EditEntry(e, plan, fs).value, plan, fs)
  {
    var name := NewName(e.name, plan);
    if name in plan.replace {
      BuildSucceedsIff(name, plan.replace[name], e.ino, fs);
      if EditEntry(e, plan, fs).Success? {
        BuildMeaning(name, plan.replace[name], e.ino, fs);
      }
    }
  }

  // The edit fails exactly when a file it needs is missing or of an unsupported type; removed
  // entries need none, and replacement looks at the renamed name.
  lemma EditSucceedsIff(a: Archive, plan: Plan, fs: FileSystem)
    requires Closed(a)
    ensures Edit(a, plan, fs).Success? <==>
              && (forall i :: 0 <= i < |a.entries| - 1 && a.entries[i].name !in plan.remove
                    && NewName(a.entries[i].name, plan) in plan.replace
                    ==> Buildable(fs, plan.replace[NewName(a.entries[i].name, plan)]))
              && (forall k :: 0 <= k < |plan.add| ==> Buildable(fs, plan.add[k].1))
  {
    var entries := WithoutTrailer(a);
    var kept := KeptIndices(entries, plan.remove);
    var survivors := Survivors(entries, plan.remove);
    KeptIndicesMeaning(entries, plan.remove);
    EditAllMeaning(survivors, plan, fs);
    AddAllMeaning(plan.add, NextInode(a), fs);
    forall k | 0 <= k < |survivors|
      ensures EditEntry(survivors[k], plan, fs).Success? <==>
                (NewName(survivors[k].name, plan) in plan.replace
                 ==> Buildable(fs, plan.replace[NewName(survivors[k].name, plan)]))
    {
      EditEntryMeaning(survivors[k], plan, fs);
    }
    hide EditEntry, EditAll, Buildable, NewName, Survivors, KeptIndices, AddAll;
    forall i | 0 <= i < |a.entries| - 1 && a.entries[i].name !in plan.remove
      ensures exists k :: 0 <= k < |survivors| && survivors[k] == a.entries[i]
    {
      assert entries[i].name !in plan.remove;
      var k :| 0 <= k < |kept| && kept[k] == i;
      assert survivors[k] == entries[i];
    }
  }

  // The error is that of the first survivor that needs a missing or unsupported file, and only without
  // such a survivor that of the first such addition.
  lemma EditErrorFirst(a: Archive, plan: Plan, fs: FileSystem, k: nat)
    requires Closed(a) && k < |Survivors(WithoutTrailer(a), plan.remove)|
    requires forall j :: 0 <= j < k ==> EditEntry(Survivors(WithoutTrailer(a), plan.remove)[j], plan, fs).Success?
    requires EditEntry(Survivors(WithoutTrailer(a), plan.remove)[k], plan, fs).Failure?
    ensures var e := Survivors(WithoutTrailer(a), plan.remove)[k];
            var path := plan.replace[NewName(e.name, plan)];
            && NewName(e.name, plan) in plan.replace
            && Edit(a, plan, fs) == Failure(if path in fs then UnsupportedType(path) else NoSuchFile(path))
  {
    var survivors := Survivors(WithoutTrailer(a), plan.remove);
    var e := survivors[k];
    EditAllMeaning(survivors[..k], plan, fs);
    EditAllSnoc(survivors[..k], e, EditAll(survivors[..k], plan, fs).value, plan, fs);
    EditAllFailsEarly(survivors[..k] + [e], survivors[k + 1..], plan, fs);
    assert survivors[..k] + [e] + survivors[k + 1..] == survivors;
    BuildableIff(NewName(e.name, plan), plan.replace[NewName(e.name, plan)], e.ino, fs);
    hide EditAll, Survivors, KeptIndices, WithoutTrailer, Buildable, BuildEntry;
  }

  lemma AddErrorFirst(a: Archive, plan: Plan, fs: FileSystem, k: nat)
    requires Closed(a) && EditAll(Survivors(WithoutTrailer(a), plan.remove), plan, fs).Success?
    requires k < |plan.add| && !Buildable(fs, plan.add[k].1)
    requires forall j :: 0 <= j < k ==> Buildable(fs, plan.add[j].1)
    ensures var path := plan.add[k].1;
            Edit(a, plan, fs) == Failure(if path in fs then UnsupportedType(path) else NoSuchFile(path))
  {
    var ino := NextInode(a);
    AddAllMeaning(plan.add[..k], ino, fs);
    AddStep(plan.add, k, ino, AddAll(plan.add[..k], ino, fs).value, fs);
    BuildableIff(plan.add[k].0, plan.add[k].1, ino + k, fs);
    hide EditAll, AddAll, Survivors, WithoutTrailer, Buildable, BuildEntry, NextInode;
  }

  lemma KeptMeaning(entries: seq<Entry>, plan: Plan, fs: FileSystem)
    requires EditAll(Survivors(entries, plan.remove), plan, fs).Success?
    ensures var kept := KeptIndices(entries, plan.remove);
            var edited := EditAll(Survivors(entries, plan.remove), plan, fs).value;
            && |edited| == |kept|
            && forall k :: 0 <= k < |kept| ==>
                 kept[k] < |entries| && IsEdited(entries[kept[k]], edited[k], plan, fs)
  {
    var survivors := Survivors(entries, plan.remove);
    KeptIndicesMeaning(entries, plan.remove);
    EditAllMeaning(survivors, plan, fs);
    hide EditAll, KeptIndices, Survivors, IsEdited, EditEntry;
    forall k | 0 <= k < |survivors|
      ensures IsEdited(survivors[k], EditAll(survivors, plan, fs).value[k], plan, fs)
    {
      EditEntryMeaning(survivors[k], plan, fs);
    }
  }

  lemma AddedMeaning(add: seq<(bytes, Path)>, ino: nat, fs: FileSystem)
    requires AddAll(add, ino, fs).Success?
    ensures var added := AddAll(add, ino, fs).value;
            && |added| == |add|
            && forall j :: 0 <= j < |add| ==> IsAdded(added[j], add[j].0, add[j].1, ino + j, fs)
  {
    AddAllMeaning(add, ino, fs);
    hide AddAll, BuildEntry, IsAdded;
    forall j | 0 <= j < |add|
      ensures IsAdded(AddAll(add, ino, fs).value[j], add[j].0, add[j].1, ino + j, fs)
    {
      BuildMeaning(add[j].0, add[j].1, ino + j, fs);
    }
  }

  // process_archive is a filter-map: survivors in order, each edited on its own, then the added
  // files under fresh consecutive inodes, then the old trailer; trailing bytes untouched.
  lemma EditMeaning(a: Archive, plan: Plan, fs: FileSystem)
    requires Closed(a) && Edit(a, plan, fs).Success?
    ensures var r := Edit(a, plan, fs).value;
            var kept := KeptIndices(WithoutTrailer(a), plan.remove);
            && Closed(r) && r.trailing == a.trailing && Trailer(r) == Trailer(a)
            && |r.entries| == |kept| + |plan.add| + 1
            && (forall k :: 0 <= k < |kept| ==>
                  kept[k] < |a.entries| - 1 && IsEdited(a.entries[kept[k]], r.entries[k], plan, fs))
            && (forall j :: 0 <= j < |plan.add| ==>
                  IsAdded(r.entries[|kept| + j], plan.add[j].0, plan.add[j].1, NextInode(a) + j, fs))
  {
    hide IsEdited, IsAdded, EditAll, AddAll, KeptIndices, Survivors, NextInode;
    var entries := WithoutTrailer(a);
    var kept := KeptIndices(entries, plan.remove);
    KeptMeaning(entries, plan, fs);
    AddedMeaning(plan.add, NextInode(a), fs);
    assert forall k :: 0 <= k < |kept| ==> entries[kept[k]] == a.entries[kept[k]];
  }
}

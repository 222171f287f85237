/** What holds of an edit as a whole: names, inodes, undoing a rename, and reading the written file back. */
module CpioPipeline {
  import opened Wrappers
  import opened CpioHex
  import opened CpioArchive
  import opened CpioIO
  import opened CpioEdit

  /* ---------- inodes ---------- */

  lemma {:induction false} MaxInodeBounds(entries: seq<Entry>)
    ensures forall i :: 0 <= i < |entries| ==> entries[i].ino <= MaxInode(entries)
  {
    if entries != [] {
      MaxInodeBounds(entries[..|entries| - 1]);
    }
  }

  // The inode after the highest one in use, the trailer's not counted.
  lemma NextInodeMeaning(a: Archive)
    requires Closed(a)
    ensures forall i :: 0 <= i < |a.entries| - 1 ==> a.entries[i].ino < NextInode(a)
    ensures if |a.entries| == 1 then NextInode(a) == 1
            else exists i :: 0 <= i < |a.entries| - 1 && a.entries[i].ino + 1 == NextInode(a)
  {
    var entries := WithoutTrailer(a);
    MaxInodeBounds(entries);
    MaxInodeAttained(entries);
    assert forall i :: 0 <= i < |entries| ==> entries[i] == a.entries[i];
    if entries != [] {
      var i :| 0 <= i < |entries| && entries[i].ino == MaxInode(entries);
      assert a.entries[i].ino + 1 == NextInode(a);
    }
  }

  lemma {:induction false} MaxInodeAttained(entries: seq<Entry>)
    ensures if entries == [] then MaxInode(entries) == 0
            else exists i :: 0 <= i < |entries| && entries[i].ino == MaxInode(entries)
  {
    if entries != [] {
      var front := entries[..|entries| - 1];
      MaxInodeAttained(front);
      if MaxInode(entries) == MaxInode(front) && front != [] {
        var i :| 0 <= i < |front| && front[i].ino == MaxInode(front);
        assert entries[i].ino == MaxInode(entries);
      } else {
        assert entries[|entries| - 1].ino == MaxInode(entries);
      }
    }
  }

  // Survivors share an inode exactly when they did before, and each added entry has one that no
  // original (removed ones included) and no other added entry has.
  lemma InodeSharingKept(a: Archive, plan: Plan, fs: FileSystem)
    requires Closed(a) && Edit(a, plan, fs).Success?
    ensures var kept := KeptIndices(WithoutTrailer(a), plan.remove);
            var r := Edit(a, plan, fs).value;
            && |r.entries| == |kept| + |plan.add| + 1
            && (forall j, k :: 0 <= j < |kept| && 0 <= k < |kept| ==>
                  && kept[j] < |a.entries| && kept[k] < |a.entries|
                  && (r.entries[j].ino == r.entries[k].ino <==> a.entries[kept[j]].ino == a.entries[kept[k]].ino))
            && (forall j, i :: |kept| <= j < |r.entries| - 1 && 0 <= i < |a.entries| - 1 ==>
                  r.entries[j].ino != a.entries[i].ino)
            && (forall i, j :: |kept| <= i < j < |r.entries| - 1 ==> r.entries[i].ino != r.entries[j].ino)
  {
    hide KeptIndices, Edit, MaxInode, CarriesFile;
    EditMeaning(a, plan, fs);
    MaxInodeBounds(WithoutTrailer(a));
    var kept := KeptIndices(WithoutTrailer(a), plan.remove);
    var r := Edit(a, plan, fs).value;
    forall j | |kept| <= j < |r.entries| - 1
      ensures r.entries[j].ino == NextInode(a) + (j - |kept|)
    {
      assert IsAdded(r.entries[|kept| + (j - |kept|)], plan.add[j - |kept|].0, plan.add[j - |kept|].1,
                     NextInode(a) + (j - |kept|), fs);
    }
    forall i | 0 <= i < |a.entries| - 1
      ensures a.entries[i].ino < NextInode(a)
    {
      assert WithoutTrailer(a)[i] == a.entries[i];
    }
  }

  /* ---------- names ---------- */

  ghost predicate DistinctNames(entries: seq<Entry>) {
    forall i, j :: 0 <= i < j < |entries| ==> entries[i].name != entries[j].name
  }

  ghost predicate Surviving(a: Archive, plan: Plan, i: nat)
    requires Closed(a)
  {
    i < |a.entries| - 1 && a.entries[i].name !in plan.remove
  }

  // Two renames never meet, no target is the name of a survivor that keeps its name, and no added
  // name is one a survivor ends up with.
  ghost predicate CollisionFree(a: Archive, plan: Plan)
    requires Closed(a)
  {
    && (forall x, y :: x in plan.rename && y in plan.rename && plan.rename[x] == plan.rename[y] ==> x == y)
    && (forall i: nat, x :: Surviving(a, plan, i) && a.entries[i].name !in plan.rename && x in plan.rename
          ==> plan.rename[x] != a.entries[i].name)
    && (forall i: nat, j :: Surviving(a, plan, i) && 0 <= j < |plan.add|
          ==> NewName(a.entries[i].name, plan) != plan.add[j].0)
  }

  lemma NamesStayDistinct(a: Archive, plan: Plan, fs: FileSystem)
    requires Closed(a) && Edit(a, plan, fs).Success?
    requires DistinctNames(WithoutTrailer(a)) && DistinctAdds(plan) && CollisionFree(a, plan)
    ensures Closed(Edit(a, plan, fs).value) && DistinctNames(WithoutTrailer(Edit(a, plan, fs).value))
  {
    hide KeptIndices, Edit, MaxInode, CarriesFile, NextInode;
    EditMeaning(a, plan, fs);
    KeptIndicesMeaning(WithoutTrailer(a), plan.remove);
    var entries := WithoutTrailer(a);
    var kept := KeptIndices(entries, plan.remove);
    var r := Edit(a, plan, fs).value;
    forall j | |kept| <= j < |r.entries| - 1
      ensures r.entries[j].name == plan.add[j - |kept|].0
    {
      assert IsAdded(r.entries[|kept| + (j - |kept|)], plan.add[j - |kept|].0, plan.add[j - |kept|].1,
                     NextInode(a) + (j - |kept|), fs);
    }
    forall j | 0 <= j < |kept|
      ensures Surviving(a, plan, kept[j]) && r.entries[j].name == NewName(a.entries[kept[j]].name, plan)
    {
      assert kept[j] in kept && entries[kept[j]] == a.entries[kept[j]];
      assert IsEdited(a.entries[kept[j]], r.entries[j], plan, fs);
    }
    hide IsEdited, IsAdded, WithoutTrailer;
    forall i, j | 0 <= i < j < |kept|
      ensures r.entries[i].name != r.entries[j].name
    {
      assert entries[kept[i]].name != entries[kept[j]].name;
    }
    forall i, j | 0 <= i < |kept| <= j < |r.entries| - 1
      ensures r.entries[i].name != r.entries[j].name
    {
      assert Surviving(a, plan, kept[i]);
    }
    hide CollisionFree, Surviving, NewName;
    DistinctButLast(r);
  }

  lemma DistinctButLast(r: Archive)
    requires Closed(r)
    requires forall i, j :: 0 <= i < j < |r.entries| - 1 ==> r.entries[i].name != r.entries[j].name
    ensures DistinctNames(WithoutTrailer(r))
  {
  }

  function RenameOnly(m: map<bytes, bytes>): Plan {
    Plan(m, map[], [], [])
  }

  lemma {:induction false} KeptAll(entries: seq<Entry>)
    ensures |KeptIndices(entries, [])| == |entries|
    ensures forall k :: 0 <= k < |entries| ==> KeptIndices(entries, [])[k] == k
  {
    if entries != [] {
      KeptAll(entries[..|entries| - 1]);
    }
  }

  // Renaming is simultaneous: each name is looked up once, in the map, so a swap swaps.
  lemma RenameOnlyMeaning(a: Archive, m: map<bytes, bytes>, fs: FileSystem)
    requires Closed(a)
    ensures Edit(a, RenameOnly(m), fs).Success?
    ensures var r := Edit(a, RenameOnly(m), fs).value;
            && Closed(r) && r.trailing == a.trailing && |r.entries| == |a.entries| && Trailer(r) == Trailer(a)
            && forall i :: 0 <= i < |a.entries| - 1 ==>
                 r.entries[i] == a.entries[i].(name := NewName(a.entries[i].name, RenameOnly(m)))
  {
    hide KeptIndices, Edit, NewName, CarriesFile;
    var plan := RenameOnly(m);
    EditSucceedsIff(a, plan, fs);
    EditMeaning(a, plan, fs);
    KeptAll(WithoutTrailer(a));
    var kept := KeptIndices(WithoutTrailer(a), plan.remove);
    forall i | 0 <= i < |a.entries| - 1
      ensures Edit(a, plan, fs).value.entries[i] == a.entries[i].(name := NewName(a.entries[i].name, plan))
    {
      assert kept[i] == i;
      assert IsEdited(a.entries[kept[i]], Edit(a, plan, fs).value.entries[i], plan, fs);
    }
  }

  ghost predicate IsInverse(inv: map<bytes, bytes>, m: map<bytes, bytes>) {
    && (forall x :: x in m ==> m[x] in inv && inv[m[x]] == x)
    && (forall y :: y in inv ==> inv[y] in m && m[inv[y]] == y)
  }

  // Renaming back restores the archive exactly, if and only if no entry already carried a target
  // name without being renamed itself.
  lemma RenameUndoIff(a: Archive, m: map<bytes, bytes>, inv: map<bytes, bytes>, fs: FileSystem)
    requires Closed(a) && IsInverse(inv, m)
    ensures Edit(a, RenameOnly(m), fs).Success? && Closed(Edit(a, RenameOnly(m), fs).value)
    ensures Edit(Edit(a, RenameOnly(m), fs).value, RenameOnly(inv), fs) == Success(a)
            <==> forall i :: 0 <= i < |a.entries| - 1 && a.entries[i].name in inv ==> a.entries[i].name in m
  {
    RenameOnlyMeaning(a, m, fs);
    var r := Edit(a, RenameOnly(m), fs).value;
    RenameOnlyMeaning(r, inv, fs);
    var back := Edit(r, RenameOnly(inv), fs).value;
    hide Edit;
    forall i | 0 <= i < |a.entries| - 1
      ensures back.entries[i] == a.entries[i] <==> (a.entries[i].name in inv ==> a.entries[i].name in m)
    {
      var name := a.entries[i].name;
      assert r.entries[i] == a.entries[i].(name := NewName(name, RenameOnly(m)));
      assert back.entries[i] == a.entries[i].(name := NewName(NewName(name, RenameOnly(m)), RenameOnly(inv)));
    }
    if forall i :: 0 <= i < |a.entries| - 1 ==> back.entries[i] == a.entries[i] {
      assert back.entries[|a.entries| - 1] == a.entries[|a.entries| - 1];
      assert back.entries == a.entries;
    }
  }

  /* ---------- reading the edited file back ---------- */

  ghost predicate StatFits(st: FileStat) {
    && st.mtime < FIELD_LIMIT
    && (IsDevice(st) ==> st.mode < FIELD_LIMIT && st.rdevmajor < FIELD_LIMIT && st.rdevminor < FIELD_LIMIT)
    && (TypeBits(st.mode) in {LINK, REGULAR} ==> |st.data| < FIELD_LIMIT)
  }

  ghost predicate NameFits(name: bytes) {
    name != TRAILER && |name| + 1 < FIELD_LIMIT
  }

  ghost predicate SurvivorFits(name: bytes, plan: Plan, fs: FileSystem) {
    && NameFits(name)
    && (name in plan.replace && plan.replace[name] in fs ==> StatFits(fs[plan.replace[name]]))
  }

  ghost predicate AdditionFits(name: bytes, path: Path, ino: nat, fs: FileSystem) {
    NameFits(name) && (path in fs ==> StatFits(fs[path])) && ino < FIELD_LIMIT
  }

  // What a caller can check before the edit: no new name is the trailer's or too long, the host
  // files fit the header fields, and there are inodes left for the added entries.
  ghost predicate PlanFits(a: Archive, plan: Plan, fs: FileSystem)
    requires Closed(a) && Edit(a, plan, fs).Success?
  {
    && (forall i: nat {:trigger Surviving(a, plan, i)} :: Surviving(a, plan, i) ==>
          SurvivorFits(NewName(a.entries[i].name, plan), plan, fs))
    && (forall j :: 0 <= j < |plan.add| ==>
          AdditionFits(plan.add[j].0, plan.add[j].1, NextInode(a) + j, fs))
  }

  lemma EditedFits(before: Entry, now: Entry, plan: Plan, fs: FileSystem)
    requires FitsHeader(before) && IsEdited(before, now, plan, fs)
    ensures FitsHeader(now) && now.name != TRAILER <==> SurvivorFits(now.name, plan, fs)
  {
  }

  lemma AddedFits(e: Entry, name: bytes, path: Path, ino: nat, fs: FileSystem)
    requires IsAdded(e, name, path, ino, fs)
    ensures FitsHeader(e) && e.name != TRAILER <==> AdditionFits(name, path, ino, fs)
  {
  }

  ghost predicate ReadsBack(e: Entry) {
    FitsHeader(e) && e.name != TRAILER
  }

  lemma WellFormedByEntry(r: Archive)
    requires Closed(r)
    ensures WellFormed(r) <==>
              FitsHeader(Trailer(r)) && forall i :: 0 <= i < |r.entries| - 1 ==> ReadsBack(r.entries[i])
  {
    hide FitsHeader;
  }

  lemma SurvivorsFitIff(a: Archive, plan: Plan, fs: FileSystem)
    requires Closed(a) && WellFormed(a) && Edit(a, plan, fs).Success?
    ensures var kept := KeptIndices(WithoutTrailer(a), plan.remove);
            var r := Edit(a, plan, fs).value;
            && |r.entries| == |kept| + |plan.add| + 1
            && ((forall k :: 0 <= k < |kept| ==> ReadsBack(r.entries[k]))
                <==> forall i: nat {:trigger Surviving(a, plan, i)} :: Surviving(a, plan, i) ==>
                       SurvivorFits(NewName(a.entries[i].name, plan), plan, fs))
  {
    hide KeptIndices, Edit, NextInode, FitsHeader, SurvivorFits, NewName, CarriesFile, IsAdded;
    EditMeaning(a, plan, fs);
    KeptIndicesMeaning(WithoutTrailer(a), plan.remove);
    var entries := WithoutTrailer(a);
    var kept := KeptIndices(entries, plan.remove);
    var r := Edit(a, plan, fs).value;
    forall k | 0 <= k < |kept|
      ensures Surviving(a, plan, kept[k])
      ensures ReadsBack(r.entries[k]) <==> SurvivorFits(NewName(a.entries[kept[k]].name, plan), plan, fs)
    {
      assert kept[k] in kept && entries[kept[k]] == a.entries[kept[k]];
      WellFormedByEntry(a);
      EditedFits(a.entries[kept[k]], r.entries[k], plan, fs);
    }
    hide IsEdited, ReadsBack;
    forall i: nat | Surviving(a, plan, i)
      ensures exists k :: 0 <= k < |kept| && kept[k] == i
    {
      assert entries[i].name !in plan.remove;
    }
  }

  lemma AdditionsFitIff(a: Archive, plan: Plan, fs: FileSystem)
    requires Closed(a) && Edit(a, plan, fs).Success?
    ensures var kept := KeptIndices(WithoutTrailer(a), plan.remove);
            var r := Edit(a, plan, fs).value;
            && |r.entries| == |kept| + |plan.add| + 1
            && ((forall i :: |kept| <= i < |r.entries| - 1 ==> ReadsBack(r.entries[i]))
                <==> forall j :: 0 <= j < |plan.add| ==>
                       AdditionFits(plan.add[j].0, plan.add[j].1, NextInode(a) + j, fs))
  {
    hide KeptIndices, Edit, NextInode, FitsHeader, AdditionFits, CarriesFile, IsEdited, IsAdded;
    EditMeaning(a, plan, fs);
    var kept := KeptIndices(WithoutTrailer(a), plan.remove);
    var r := Edit(a, plan, fs).value;
    forall j | 0 <= j < |plan.add|
      ensures ReadsBack(r.entries[|kept| + j]) <==> AdditionFits(plan.add[j].0, plan.add[j].1, NextInode(a) + j, fs)
    {
      AddedFits(r.entries[|kept| + j], plan.add[j].0, plan.add[j].1, NextInode(a) + j, fs);
    }
    hide ReadsBack;
    if forall j :: 0 <= j < |plan.add| ==> AdditionFits(plan.add[j].0, plan.add[j].1, NextInode(a) + j, fs) {
      forall i | |kept| <= i < |r.entries| - 1
        ensures ReadsBack(r.entries[i])
      {
        var j := i - |kept|;
        assert AdditionFits(plan.add[j].0, plan.add[j].1, NextInode(a) + j, fs);
        assert r.entries[i] == r.entries[|kept| + j];
      }
    }
  }

  lemma EditKeepsTrailer(a: Archive, plan: Plan, fs: FileSystem)
    requires Closed(a) && WellFormed(a) && Edit(a, plan, fs).Success?
    ensures Closed(Edit(a, plan, fs).value) && FitsHeader(Trailer(Edit(a, plan, fs).value))
  {
    EditMeaning(a, plan, fs);
  }

  lemma EditWellFormedIff(a: Archive, plan: Plan, fs: FileSystem)
    requires Closed(a) && WellFormed(a) && Edit(a, plan, fs).Success?
    ensures WellFormed(Edit(a, plan, fs).value) <==> PlanFits(a, plan, fs)
  {
    hide KeptIndices, Edit, NextInode, ReadsBack, SurvivorFits, AdditionFits, NewName, Surviving, FitsHeader;
    var r := Edit(a, plan, fs).value;
    EditKeepsTrailer(a, plan, fs);
    SurvivorsFitIff(a, plan, fs);
    AdditionsFitIff(a, plan, fs);
    WellFormedByEntry(r);
    hide WellFormed, Closed;
  }

  // The edited archive, written and read again, is the edited archive: for every file the reader
  // accepts, exactly when the plan fits.
  lemma EditReadsBackIff(file: bytes, plan: Plan, fs: FileSystem)
    requires ReadArchive(file).Success?
    requires Edit(ReadArchive(file).value, plan, fs).Success?
    ensures var r := Edit(ReadArchive(file).value, plan, fs).value;
            ReadArchive(Serialize(r)) == Success(r) <==> PlanFits(ReadArchive(file).value, plan, fs)
  {
    ReadWellFormed(file);
    EditWellFormedIff(ReadArchive(file).value, plan, fs);
    RoundTripIff(Edit(ReadArchive(file).value, plan, fs).value);
  }

  datatype PipelineError = ReadFailed(read: ReadError) | EditFailed(edit: EditError) | WriteFailed(write: WriteError)

  // main: read, edit, write.
  method EditFile(file: bytes, plan: Plan, fs: FileSystem) returns (r: Result<bytes, PipelineError>)
    ensures match r
            case Success(out) =>
              && ReadArchive(file).Success?
              && Edit(ReadArchive(file).value, plan, fs).Success?
              && Encodable(Edit(ReadArchive(file).value, plan, fs).value.entries)
              && out == Serialize(Edit(ReadArchive(file).value, plan, fs).value)
              && (ReadArchive(out) == Success(Edit(ReadArchive(file).value, plan, fs).value)
                  <==> PlanFits(ReadArchive(file).value, plan, fs))
            case Failure(ReadFailed(error)) => ReadArchive(file) == Failure(error)
            case Failure(EditFailed(error)) =>
              && ReadArchive(file).Success?
              && Edit(ReadArchive(file).value, plan, fs) == Failure(error)
            case Failure(WriteFailed(error)) =>
              && ReadArchive(file).Success?
              && Edit(ReadArchive(file).value, plan, fs).Success?
              && !Encodable(Edit(ReadArchive(file).value, plan, fs).value.entries)
  {
    hide Edit, PlanFits;
    var archive := ReadCpio(file);
    if archive.Failure? {
      return Failure(ReadFailed(archive.error));
    }
    var processed := ProcessArchive(archive.value, plan, fs);
    if processed.Failure? {
      return Failure(EditFailed(processed.error));
    }
    var written := WriteCpio(processed.value);
    if written.Failure? {
      return Failure(WriteFailed(written.error));
    }
    EditReadsBackIff(file, plan, fs);
    r := Success(written.value);
  }

  /* ---------- the init replacement the build uses ---------- */

  const INIT: bytes := [105, 110, 105, 116]
  const INIT_STOCK: bytes := [105, 110, 105, 116, 46, 115, 116, 111, 99, 107]

  // --rename init=init.stock --add init=path
  function InitPlan(path: Path): Plan {
    Plan(map[INIT := INIT_STOCK], map[], [], [(INIT, path)])
  }

  lemma InitPlanEdit(a: Archive, k: nat, path: Path, fs: FileSystem)
    requires Closed(a) && k < |a.entries| - 1
    requires forall i :: 0 <= i < |a.entries| - 1 ==> (a.entries[i].name == INIT <==> i == k)
    requires Buildable(fs, path)
    ensures Edit(a, InitPlan(path), fs).Success?
    ensures var r := Edit(a, InitPlan(path), fs).value;
            var n := |a.entries| - 1;
            && |r.entries| == n + 2 && r.trailing == a.trailing && r.entries[n + 1] == a.entries[n]
            && (forall i :: 0 <= i < n && i != k ==> r.entries[i] == a.entries[i])
            && r.entries[k] == a.entries[k].(name := INIT_STOCK)
            && IsAdded(r.entries[n], INIT, path, NextInode(a), fs)
  {
    hide KeptIndices, Edit, CarriesFile, NextInode, Buildable;
    var plan := InitPlan(path);
    EditSucceedsIff(a, plan, fs);
    EditMeaning(a, plan, fs);
    KeptAll(WithoutTrailer(a));
    var kept := KeptIndices(WithoutTrailer(a), plan.remove);
    var r := Edit(a, plan, fs).value;
    var n := |a.entries| - 1;
    forall i | 0 <= i < n
      ensures r.entries[i] == a.entries[i].(name := NewName(a.entries[i].name, plan))
    {
      assert kept[i] == i;
      assert IsEdited(a.entries[kept[i]], r.entries[i], plan, fs);
    }
    assert IsAdded(r.entries[|kept| + 0], plan.add[0].0, plan.add[0].1, NextInode(a) + 0, fs);
  }

  // The archive the build starts from: exactly one init, no init.stock, room for one more inode, and
  // a wrapper that fits a header.
  ghost predicate OneInit(a: Archive, k: nat, path: Path, fs: FileSystem) {
    && Closed(a) && k < |a.entries| - 1
    && (forall i :: 0 <= i < |a.entries| - 1 ==> (a.entries[i].name == INIT <==> i == k))
    && (forall i :: 0 <= i < |a.entries| - 1 ==> a.entries[i].name != INIT_STOCK)
    && Buildable(fs, path) && StatFits(fs[path]) && NextInode(a) < FIELD_LIMIT
  }

  // The old init lives on under init.stock with everything else unchanged, there is one new init just
  // before the trailer, and every other entry is where and what it was.
  ghost predicate InitMoved(a: Archive, r: Archive, k: nat, path: Path, fs: FileSystem)
    requires OneInit(a, k, path, fs)
  {
    var n := |a.entries| - 1;
    && |r.entries| == n + 2 && r.trailing == a.trailing
    && (forall i :: 0 <= i < n && i != k ==> r.entries[i] == a.entries[i])
    && r.entries[k] == a.entries[k].(name := INIT_STOCK)
    && IsAdded(r.entries[n], INIT, path, NextInode(a), fs)
    && r.entries[n + 1] == a.entries[n]
    && (forall i :: 0 <= i < n + 2 ==> (r.entries[i].name == INIT <==> i == n))
    && (forall i :: 0 <= i < n + 2 ==> (r.entries[i].name == INIT_STOCK <==> i == k))
  }

  // The command the image build runs, end to end on bytes.
  lemma InitReplaced(file: bytes, k: nat, path: Path, fs: FileSystem)
    requires ReadArchive(file).Success? && OneInit(ReadArchive(file).value, k, path, fs)
    ensures var a := ReadArchive(file).value;
            && Edit(a, InitPlan(path), fs).Success?
            && var r := ReadArchive(Serialize(Edit(a, InitPlan(path), fs).value));
               r == Success(Edit(a, InitPlan(path), fs).value) && InitMoved(a, r.value, k, path, fs)
  {
    hide Edit, ReadArchive, NextInode, StatFits, Buildable, Serialize, IsAdded;
    var a := ReadArchive(file).value;
    ReadWellFormed(file);
    InitPlanEdit(a, k, path, fs);
    InitPlanFits(a, path, fs);
    EditReadsBackIff(file, InitPlan(path), fs);
    var n := |a.entries| - 1;
    var now := Edit(a, InitPlan(path), fs).value.entries;
    forall i | 0 <= i < n + 2
      ensures (now[i].name == INIT <==> i == n) && (now[i].name == INIT_STOCK <==> i == k)
    {
      if i < n && i != k {
        assert now[i] == a.entries[i];
      }
      AddedName(now[n], INIT, path, NextInode(a), fs);
    }
  }

  lemma InitNamesEncode()
    ensures Utf8(INIT) && Utf8(INIT_STOCK)
  {
    AsciiEncodes(INIT);
    AsciiEncodes(INIT_STOCK);
  }

  lemma {:induction false} AsciiEncodes(s: bytes)
    requires forall i :: 0 <= i < |s| ==> s[i] < 0x80
    ensures Utf8(s)
  {
    if s != [] {
      AsciiEncodes(s[1..]);
    }
  }

  // Moving the init aside and adding one changes nothing about which names can be encoded.
  lemma InitEncodableIff(a: Archive, r: Archive, k: nat, path: Path, fs: FileSystem)
    requires OneInit(a, k, path, fs) && InitMoved(a, r, k, path, fs)
    ensures Encodable(r.entries) <==> Encodable(a.entries)
  {
    hide Utf8, Buildable, StatFits, NextInode, CarriesFile, Closed;
    InitNamesEncode();
    var n := |a.entries| - 1;
    if Encodable(r.entries) {
      forall i | 0 <= i < |a.entries|
        ensures Utf8(a.entries[i].name)
      {
        assert Utf8(r.entries[if i == n then n + 1 else i].name);
      }
    }
    if Encodable(a.entries) {
      forall i | 0 <= i < |r.entries|
        ensures Utf8(r.entries[i].name)
      {
        assert i == n + 1 ==> r.entries[i] == a.entries[n];
      }
    }
  }

  // And the file itself: it is written exactly when every name in the input is UTF-8, and what is
  // written reads back as the archive with its init replaced.
  method ReplaceInit(file: bytes, k: nat, path: Path, fs: FileSystem) returns (r: Result<bytes, PipelineError>)
    requires ReadArchive(file).Success? && OneInit(ReadArchive(file).value, k, path, fs)
    ensures r.Success? <==> Encodable(ReadArchive(file).value.entries)
    ensures r.Success? ==>
              ReadArchive(r.value).Success? && InitMoved(ReadArchive(file).value, ReadArchive(r.value).value, k, path, fs)
    ensures r.Failure? ==> r.error.WriteFailed?
  {
    InitReplaced(file, k, path, fs);
    ghost var a := ReadArchive(file).value;
    ghost var edited := Edit(a, InitPlan(path), fs).value;
    InitEncodableIff(a, edited, k, path, fs);
    hide ReadArchive, Edit, Serialize, OneInit, InitMoved, PlanFits, Encodable;
    r := EditFile(file, InitPlan(path), fs);
  }

  lemma AddedName(e: Entry, name: bytes, path: Path, ino: nat, fs: FileSystem)
    requires IsAdded(e, name, path, ino, fs)
    ensures e.name == name
  {
  }

  lemma InitPlanFits(a: Archive, path: Path, fs: FileSystem)
    requires Closed(a) && WellFormed(a) && Edit(a, InitPlan(path), fs).Success?
    requires Buildable(fs, path) && StatFits(fs[path]) && NextInode(a) < FIELD_LIMIT
    ensures PlanFits(a, InitPlan(path), fs)
  {
    hide Edit, NextInode, StatFits, Buildable, FitsHeader;
    assert INIT != TRAILER && INIT_STOCK != TRAILER by {
      assert |INIT| != |TRAILER| && INIT_STOCK[0] != TRAILER[0];
    }
    var plan := InitPlan(path);
    forall i: nat {:trigger Surviving(a, plan, i)} | Surviving(a, plan, i)
      ensures NameFits(NewName(a.entries[i].name, plan))
    {
      NameFitsOf(a, i);
    }
  }

  lemma NameFitsOf(a: Archive, i: nat)
    requires WellFormed(a) && i < |a.entries| - 1
    ensures NameFits(a.entries[i].name)
  {
  }

  // The inode bound is needed: once the highest inode is in use, adding any file makes its header
  // a digit too long, and the archive written does not read back.
  lemma NoInodeLeft(a: Archive, plan: Plan, fs: FileSystem)
    requires Closed(a) && WellFormed(a) && Edit(a, plan, fs).Success?
    requires plan.add != [] && NextInode(a) >= FIELD_LIMIT
    ensures ReadArchive(Serialize(Edit(a, plan, fs).value)) != Success(Edit(a, plan, fs).value)
  {
    hide Edit, NextInode, NewName, Surviving, SurvivorFits, WellFormed, ReadArchive, Serialize;
    assert !AdditionFits(plan.add[0].0, plan.add[0].1, NextInode(a) + 0, fs);
    EditWellFormedIff(a, plan, fs);
    RoundTripIff(Edit(a, plan, fs).value);
  }

  const FULL: Archive := Archive(
    [Entry([46], 0xFFFF_FFFF, 0, 0, 0, 2, 0, 0, 0, 0, 0, 0, 0, []),
     Entry(TRAILER, 0, 0, 0, 0, 1, 0, 0, 0, 0, 0, 0, 0, [])], [])

  lemma FullArchive()
    ensures Closed(FULL) && WellFormed(FULL) && NextInode(FULL) == FIELD_LIMIT
  {
    var entries := WithoutTrailer(FULL);
    assert entries == [FULL.entries[0]] && entries[..0] == [];
    assert MaxInode(entries) == FIELD_LIMIT - 1;
  }

  // Such an archive, which itself reads back: one directory at the last inode.
  lemma LastInodeBreaksAdd(path: Path, fs: FileSystem)
    requires Buildable(fs, path)
    ensures ReadArchive(Serialize(FULL)) == Success(FULL)
    ensures Closed(FULL) && Edit(FULL, Plan(map[], map[], [], [(INIT, path)]), fs).Success?
    ensures var r := Edit(FULL, Plan(map[], map[], [], [(INIT, path)]), fs).value;
            ReadArchive(Serialize(r)) != Success(r)
  {
    var plan := Plan(map[], map[], [], [(INIT, path)]);
    hide Edit, ReadArchive, Serialize, Buildable, NextInode;
    FullArchive();
    hide FULL;
    RoundTripIff(FULL);
    EditSucceedsIff(FULL, plan, fs);
    NoInodeLeft(FULL, plan, fs);
  }
}

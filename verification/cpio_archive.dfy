/** The cpio newc archive: its entries, the bytes written for it, and what the reader makes of bytes. */
module CpioArchive {
  import opened Wrappers
  import opened CpioHex

  datatype Entry = Entry(
    name: bytes,
    ino: nat, mode: nat, uid: nat, gid: nat, nlink: nat, mtime: nat, filesize: nat,
    devmajor: nat, devminor: nat, rdevmajor: nat, rdevminor: nat, check: nat,
    data: bytes)

  datatype Archive = Archive(entries: seq<Entry>, trailing: bytes)

  datatype ReadError = MissingTrailer | TruncatedHeader | UnsupportedFormat | BadField | UnexpectedEnd | EmptyArchive

  const MAGIC: bytes := [48, 55, 48, 55, 48, 49]
  const TRAILER: bytes := [84, 82, 65, 73, 76, 69, 82, 33, 33, 33]
  const HEADER_SIZE: nat := 110

  // What the CpioArchive constructor demands.
  predicate Closed(a: Archive) {
    a.entries != [] && a.entries[|a.entries| - 1].name == TRAILER
  }

  /* ---------- writing ---------- */

  function Padding(length: nat): nat {
    (4 - length % 4) % 4
  }

  function Zeros(n: nat): bytes {
    seq(n, _ => 0)
  }

  // The header's numbers in the order of the format; filesize and namesize are measured, not copied.
  function HeaderValues(e: Entry): seq<nat> {
    [e.ino, e.mode, e.uid, e.gid, e.nlink, e.mtime, |e.data|,
     e.devmajor, e.devminor, e.rdevmajor, e.rdevminor, |e.name| + 1, e.check]
  }

  function NamePart(e: Entry): bytes {
    e.name + [0]
  }

  function BodyBytes(e: Entry): bytes {
    NamePart(e) + Zeros(Padding(HEADER_SIZE + |e.name| + 1)) + e.data + Zeros(Padding(|e.data|))
  }

  function EntryBytes(e: Entry): bytes {
    MAGIC + FormatFields(HeaderValues(e)) + BodyBytes(e)
  }

  function EntriesBytes(entries: seq<Entry>): bytes {
    if entries == [] then [] else EntryBytes(entries[0]) + EntriesBytes(entries[1..])
  }

  function Serialize(a: Archive): bytes {
    EntriesBytes(a.entries) + a.trailing
  }

  /* ---------- reading; the file cursor is the stretch of bytes still ahead of it ---------- */

  // file.read(n): short at the end of the file.
  function Take(s: bytes, n: nat): bytes {
    if n <= |s| then s[..n] else s
  }

  // The cursor after reading or seeking n bytes; seeking past the end is not an error.
  function Drop(s: bytes, n: nat): bytes {
    if n <= |s| then s[n..] else []
  }

  datatype EntryRead = EndOfFile | Bad(error: ReadError) | Got(entry: Entry, rest: bytes)

  function BuildEntry(fields: seq<nat>, name: bytes, data: bytes): Entry
    requires |fields| == 13
  {
    Entry(name, fields[0], fields[1], fields[2], fields[3], fields[4], fields[5], fields[6],
          fields[7], fields[8], fields[9], fields[10], fields[12], data)
  }

  // name_bytes[:-1]: whatever the last byte is, it goes.
  function WithoutLast(s: bytes): bytes {
    if s == [] then [] else s[..|s| - 1]
  }

  function ReadBody(fields: seq<nat>, s: bytes): EntryRead
    requires |fields| == 13
  {
    var namesize, filesize := fields[11], fields[6];
    if |s| < namesize then Bad(UnexpectedEnd) else
    var dataAt := Drop(s, namesize + Padding(HEADER_SIZE + namesize));
    if |dataAt| < filesize then Bad(UnexpectedEnd) else
    Got(BuildEntry(fields, WithoutLast(s[..namesize]), dataAt[..filesize]), Drop(dataAt, filesize + Padding(filesize)))
  }

  predicate HasMagic(header: bytes)
    requires |header| == HEADER_SIZE
  {
    header[..6] == MAGIC
  }

  function HeaderNumbers(header: bytes): (r: Option<seq<nat>>)
    requires |header| == HEADER_SIZE
    ensures r.Some? ==> |r.value| == 13
  {
    ParseFieldsFit(header[6..]);
    ParseFields(header[6..])
  }

  function ReadEntry(s: bytes): (r: EntryRead)
    ensures r.Got? ==> |r.rest| < |s|
  {
    if s == [] then EndOfFile
    else if |s| < HEADER_SIZE then Bad(TruncatedHeader)
    else if !HasMagic(s[..HEADER_SIZE]) then Bad(UnsupportedFormat)
    else
      match HeaderNumbers(s[..HEADER_SIZE])
      case None => Bad(BadField)
      case Some(fields) => ReadBody(fields, s[HEADER_SIZE..])
  }

  function ReadFrom(s: bytes, entries: seq<Entry>): (r: Result<Archive, ReadError>)
    ensures r.Success? ==> Closed(r.value)
    decreases |s|
  {
    match ReadEntry(s)
    case EndOfFile => Failure(if entries == [] then EmptyArchive else MissingTrailer)
    case Bad(error) => Failure(error)
    case Got(entry, rest) =>
      if entry.name == TRAILER then Success(Archive(entries + [entry], rest))
      else ReadFrom(rest, entries + [entry])
  }

  function ReadArchive(s: bytes): (r: Result<Archive, ReadError>)
    ensures r.Success? ==> Closed(r.value)
  {
    ReadFrom(s, [])
  }

  /* ---------- the archives that survive a round trip ---------- */

  // Every number the header holds is below the field limit.
  ghost predicate NumbersFit(e: Entry) {
    && e.ino < FIELD_LIMIT && e.mode < FIELD_LIMIT && e.uid < FIELD_LIMIT && e.gid < FIELD_LIMIT
    && e.nlink < FIELD_LIMIT && e.mtime < FIELD_LIMIT && |e.data| < FIELD_LIMIT
    && e.devmajor < FIELD_LIMIT && e.devminor < FIELD_LIMIT
    && e.rdevmajor < FIELD_LIMIT && e.rdevminor < FIELD_LIMIT
    && |e.name| + 1 < FIELD_LIMIT && e.check < FIELD_LIMIT
  }

  // And filesize, which is not written, is not stale.
  ghost predicate FitsHeader(e: Entry) {
    NumbersFit(e) && e.filesize == |e.data|
  }

  ghost predicate TrailerOnlyLast(entries: seq<Entry>) {
    forall i :: 0 <= i < |entries| ==> (entries[i].name == TRAILER <==> i == |entries| - 1)
  }

  ghost predicate WellFormed(a: Archive) {
    && a.entries != []
    && (forall i :: 0 <= i < |a.entries| ==> FitsHeader(a.entries[i]))
    && TrailerOnlyLast(a.entries)
  }

  lemma TakeDropConcat(x: bytes, y: bytes)
    ensures Take(x + y, |x|) == x && Drop(x + y, |x|) == y
  {
  }

  // Name and data fields are cut out of the body as they were written, whatever follows.
  lemma BodyLayout(e: Entry, rest: bytes)
    ensures var s := BodyBytes(e) + rest;
            var dataAt := Drop(s, |e.name| + 1 + Padding(HEADER_SIZE + |e.name| + 1));
            && |s| >= |e.name| + 1 && s[..|e.name|] == e.name
            && |dataAt| >= |e.data| && dataAt[..|e.data|] == e.data
            && Drop(dataAt, |e.data| + Padding(|e.data|)) == rest
  {
    var named := NamePart(e) + Zeros(Padding(HEADER_SIZE + |e.name| + 1));
    var filled := e.data + Zeros(Padding(|e.data|));
    var s := BodyBytes(e) + rest;
    assert s == named + (filled + rest);
    TakeDropConcat(named, filled + rest);
    TakeDropConcat(filled, rest);
    assert s[..|e.name|] == named[..|e.name|] == e.name;
    assert (filled + rest)[..|e.data|] == e.data;
  }

  lemma ReadBodyOfWritten(e: Entry, rest: bytes)
    requires FitsHeader(e)
    ensures ReadBody(HeaderValues(e), BodyBytes(e) + rest) == Got(e, rest)
  {
    BodyLayout(e, rest);
    hide BodyBytes, Drop;
  }

  lemma HeaderValuesFit(e: Entry)
    requires NumbersFit(e)
    ensures |HeaderValues(e)| == 13 && Fits(HeaderValues(e))
  {
  }

  lemma HeaderLayout(fields: bytes, body: bytes)
    requires |fields| == HEADER_SIZE - 6
    ensures var s := MAGIC + fields + body;
            && |s| >= HEADER_SIZE && s[HEADER_SIZE..] == body
            && s[..HEADER_SIZE][..6] == MAGIC && s[..HEADER_SIZE][6..] == fields
  {
    var header := MAGIC + fields;
    assert |MAGIC| == 6;
    assert (header + body)[..HEADER_SIZE] == header;
  }

  lemma ReadEntryOfWritten(e: Entry, rest: bytes)
    requires FitsHeader(e)
    ensures ReadEntry(EntryBytes(e) + rest) == Got(e, rest)
  {
    hide BodyBytes, FormatFields, ReadBody, ParseFields, HeaderValues, Fits;
    HeaderValuesFit(e);
    FormatFieldsParse(HeaderValues(e));
    ReadBodyOfWritten(e, rest);
    var fields, body := FormatFields(HeaderValues(e)), BodyBytes(e) + rest;
    assert EntryBytes(e) + rest == MAGIC + fields + body;
    HeaderLayout(fields, body);
  }

  lemma ReadFromStep(s: bytes, done: seq<Entry>, e: Entry, rest: bytes)
    requires ReadEntry(s) == Got(e, rest)
    ensures ReadFrom(s, done) == if e.name == TRAILER then Success(Archive(done + [e], rest)) else ReadFrom(rest, done + [e])
  {
  }

  lemma EntriesBytesStep(entries: seq<Entry>, trailing: bytes)
    requires entries != []
    ensures EntriesBytes(entries) + trailing == EntryBytes(entries[0]) + (EntriesBytes(entries[1..]) + trailing)
  {
    hide EntryBytes;
    var first, more := EntryBytes(entries[0]), EntriesBytes(entries[1..]);
    assert (first + more) + trailing == first + (more + trailing);
  }

  lemma {:induction false} ReadFromOfWritten(done: seq<Entry>, entries: seq<Entry>, trailing: bytes)
    requires entries != [] && TrailerOnlyLast(entries)
    requires forall i :: 0 <= i < |entries| ==> FitsHeader(entries[i])
    ensures ReadFrom(EntriesBytes(entries) + trailing, done) == Success(Archive(done + entries, trailing))
    decreases |entries|
  {
    hide EntryBytes, ReadEntry, FitsHeader;
    var e, more := entries[0], entries[1..];
    var rest := EntriesBytes(more) + trailing;
    EntriesBytesStep(entries, trailing);
    ReadEntryOfWritten(e, rest);
    ReadFromStep(EntriesBytes(entries) + trailing, done, e, rest);
    assert done + [e] + more == done + entries;
    assert e.name == TRAILER <==> 0 == |entries| - 1;
    if more == [] {
      assert rest == trailing && done + [e] == done + entries;
    } else {
      ReadFromOfWritten(done + [e], more, trailing);
    }
  }

  // Reading what was written gives the archive back.
  lemma ReadOfWrite(a: Archive)
    requires WellFormed(a)
    ensures ReadArchive(Serialize(a)) == Success(a)
  {
    ReadFromOfWritten([], a.entries, a.trailing);
    assert [] + a.entries == a.entries;
  }

  lemma ReadEntryFits(s: bytes)
    ensures ReadEntry(s).Got? ==> FitsHeader(ReadEntry(s).entry)
  {
    if ReadEntry(s).Got? {
      ParseFieldsFit(s[..HEADER_SIZE][6..]);
      var fields := HeaderNumbers(s[..HEADER_SIZE]).value;
      assert forall i :: 0 <= i < 13 ==> fields[i] < FIELD_LIMIT;
    }
  }

  lemma {:induction false} ReadFromWellFormed(s: bytes, entries: seq<Entry>)
    requires forall i :: 0 <= i < |entries| ==> FitsHeader(entries[i]) && entries[i].name != TRAILER
    ensures ReadFrom(s, entries).Success? ==> WellFormed(ReadFrom(s, entries).value)
    decreases |s|
  {
    ReadEntryFits(s);
    var r := ReadEntry(s);
    if r.Got? && r.entry.name != TRAILER {
      ReadFromWellFormed(r.rest, entries + [r.entry]);
    }
  }

  // Whatever bytes the reader accepts, the archive it returns can be written and read back.
  lemma ReadWellFormed(s: bytes)
    ensures ReadArchive(s).Success? ==> WellFormed(ReadArchive(s).value)
  {
    ReadFromWellFormed(s, []);
  }

  // The round trip holds for exactly the well-formed archives: an oversized field, a stale
  // filesize or a second trailer name each break it.
  lemma RoundTripIff(a: Archive)
    ensures ReadArchive(Serialize(a)) == Success(a) <==> WellFormed(a)
  {
    if WellFormed(a) {
      ReadOfWrite(a);
    }
    ReadWellFormed(Serialize(a));
  }

  // read, write, read gives what the first read gave, for every byte string the reader accepts:
  // padding bytes, letter case of the digits and a missing name terminator do not matter.
  lemma ReadWriteRead(s: bytes)
    ensures ReadArchive(s).Success? ==> ReadArchive(Serialize(ReadArchive(s).value)) == ReadArchive(s)
  {
    ReadWellFormed(s);
    if ReadArchive(s).Success? {
      ReadOfWrite(ReadArchive(s).value);
    }
  }

  /* ---------- the header, field by field ---------- */

  // The number in the eight digits from `offset` on.
  function NumberAt(s: bytes, offset: nat): Option<nat>
    requires offset + 8 <= |s|
  {
    ParseHex(s[offset..offset + 8])
  }

  lemma FieldInEntry(e: Entry, i: nat)
    requires NumbersFit(e) && i < 13
    ensures |EntryBytes(e)| >= HEADER_SIZE && NumberAt(EntryBytes(e), 6 + 8 * i) == Some(HeaderValues(e)[i])
  {
    HeaderValuesFit(e);
    FieldAt(HeaderValues(e), i);
    var fields, body := FormatFields(HeaderValues(e)), BodyBytes(e);
    hide BodyBytes, FormatFields, HeaderValues, NumbersFit;
    HeaderLayout(fields, body);
    assert EntryBytes(e)[6 + 8 * i..14 + 8 * i] == EntryBytes(e)[..HEADER_SIZE][6..][8 * i..8 * i + 8] == fields[8 * i..8 * i + 8];
  }

  // The header as cpio(5) lays it out: the magic, then each number in the place the format gives it.
  lemma HeaderFields(e: Entry)
    requires NumbersFit(e)
    ensures var s := EntryBytes(e);
            && |s| >= HEADER_SIZE && s[..6] == MAGIC
            && NumberAt(s, 6) == Some(e.ino) && NumberAt(s, 14) == Some(e.mode)
            && NumberAt(s, 22) == Some(e.uid) && NumberAt(s, 30) == Some(e.gid)
            && NumberAt(s, 38) == Some(e.nlink) && NumberAt(s, 46) == Some(e.mtime)
            && NumberAt(s, 54) == Some(|e.data|)
            && NumberAt(s, 62) == Some(e.devmajor) && NumberAt(s, 70) == Some(e.devminor)
            && NumberAt(s, 78) == Some(e.rdevmajor) && NumberAt(s, 86) == Some(e.rdevminor)
            && NumberAt(s, 94) == Some(|e.name| + 1) && NumberAt(s, 102) == Some(e.check)
  {
    hide EntryBytes, NumberAt, NumbersFit;
    StartsWithMagic(e);
    FieldInEntry(e, 0);
    FieldInEntry(e, 1);
    FieldInEntry(e, 2);
    FieldInEntry(e, 3);
    FieldInEntry(e, 4);
    FieldInEntry(e, 5);
    FieldInEntry(e, 6);
    FieldInEntry(e, 7);
    FieldInEntry(e, 8);
    FieldInEntry(e, 9);
    FieldInEntry(e, 10);
    FieldInEntry(e, 11);
    FieldInEntry(e, 12);
  }

  lemma StartsWithMagic(e: Entry)
    ensures |EntryBytes(e)| >= 6 && EntryBytes(e)[..6] == MAGIC
  {
    hide BodyBytes, FormatFields;
    var more := FormatFields(HeaderValues(e)) + BodyBytes(e);
    assert EntryBytes(e) == MAGIC + more;
  }

  /* ---------- alignment ---------- */

  // Where the data of an entry starts, counted from the start of the entry.
  function DataOffset(e: Entry): nat {
    HEADER_SIZE + |e.name| + 1 + Padding(HEADER_SIZE + |e.name| + 1)
  }

  lemma EntryDataAt(e: Entry, rest: bytes)
    requires FitsHeader(e)
    ensures |EntryBytes(e)| == DataOffset(e) + |e.data| + Padding(|e.data|)
    ensures (EntryBytes(e) + rest)[DataOffset(e)..DataOffset(e) + |e.data|] == e.data
  {
    FormatFieldsParse(HeaderValues(e));
    var before := MAGIC + FormatFields(HeaderValues(e)) + NamePart(e) + Zeros(Padding(HEADER_SIZE + |e.name| + 1));
    assert |before| == DataOffset(e);
    assert EntryBytes(e) + rest == before + e.data + (Zeros(Padding(|e.data|)) + rest);
  }

  lemma {:induction false} EntriesBytesSplit(entries: seq<Entry>, k: nat)
    requires k <= |entries|
    ensures EntriesBytes(entries) == EntriesBytes(entries[..k]) + EntriesBytes(entries[k..])
    decreases k
  {
    hide EntryBytes;
    if k == 0 {
      assert entries[..k] == [] && entries[k..] == entries;
    } else {
      EntriesBytesSplit(entries[1..], k - 1);
      assert entries[..k][1..] == entries[1..][..k - 1];
      assert entries[k..] == entries[1..][k - 1..];
      var first, middle, last := EntryBytes(entries[0]), EntriesBytes(entries[1..][..k - 1]), EntriesBytes(entries[k..]);
      assert first + (middle + last) == (first + middle) + last;
    }
  }

  lemma {:induction false} EntriesBytesAligned(entries: seq<Entry>)
    requires forall i :: 0 <= i < |entries| ==> FitsHeader(entries[i])
    ensures |EntriesBytes(entries)| % 4 == 0
    decreases |entries|
  {
    hide EntryBytes, FitsHeader;
    if entries != [] {
      EntryDataAt(entries[0], []);
      EntriesBytesAligned(entries[1..]);
    }
  }

  // Padding is computed from the start of each entry; the format asks for it from the start of
  // the archive. Both agree: every header and every data block starts at a multiple of four.
  lemma Aligned(entries: seq<Entry>, k: nat)
    requires k < |entries|
    requires forall i :: 0 <= i < |entries| ==> FitsHeader(entries[i])
    ensures var start := |EntriesBytes(entries[..k])|;
            var dataAt := start + DataOffset(entries[k]);
            && start % 4 == 0 && dataAt % 4 == 0
            && dataAt + |entries[k].data| <= |EntriesBytes(entries)|
            && EntriesBytes(entries)[dataAt..dataAt + |entries[k].data|] == entries[k].data
  {
    hide EntryBytes, FitsHeader;
    var e, before, more := entries[k], EntriesBytes(entries[..k]), EntriesBytes(entries[k + 1..]);
    EntriesBytesAligned(entries[..k]);
    EntriesBytesSplit(entries, k);
    EntryDataAt(e, more);
    assert entries[k..][0] == e && entries[k..][1..] == entries[k + 1..];
    var at := DataOffset(e);
    assert EntriesBytes(entries) == before + (EntryBytes(e) + more);
    assert EntriesBytes(entries)[|before| + at..|before| + at + |e.data|] == (EntryBytes(e) + more)[at..at + |e.data|];
  }

  /* ---------- the bytes between ---------- */

  // A piece of a text, and a run of zeros in it.
  ghost predicate Holds(s: bytes, at: nat, piece: bytes) {
    at + |piece| <= |s| && s[at..at + |piece|] == piece
  }

  ghost predicate AllZero(s: bytes, from: nat, to: nat) {
    to <= |s| && forall i :: from <= i < to ==> s[i] == 0
  }

  lemma HoldsBehind(before: bytes, s: bytes, at: nat, piece: bytes)
    requires Holds(s, at, piece)
    ensures Holds(before + s, |before| + at, piece)
  {
    assert (before + s)[|before| + at..|before| + at + |piece|] == s[at..at + |piece|];
  }

  lemma ZeroBehind(before: bytes, s: bytes, from: nat, to: nat)
    requires AllZero(s, from, to)
    ensures AllZero(before + s, |before| + from, |before| + to)
  {
    forall i | |before| + from <= i < |before| + to
      ensures (before + s)[i] == 0
    {
      assert (before + s)[i] == s[i - |before|];
    }
  }

  lemma HoldsFirst(piece: bytes, behind: bytes)
    ensures Holds(piece + behind, 0, piece)
  {
  }

  lemma ZerosFirst(n: nat, behind: bytes)
    ensures AllZero(Zeros(n) + behind, 0, n) && |Zeros(n) + behind| == n + |behind|
  {
  }

  lemma ZerosSnoc(n: nat)
    ensures [0] + Zeros(n) == Zeros(n + 1)
  {
  }

  // Data and zeros, one behind the other; zeros before them; the name before that; the header first.
  lemma DataPieces(data: bytes, tail: nat, rest: bytes)
    ensures var s := data + (Zeros(tail) + rest);
            Holds(s, 0, data) && AllZero(s, |data|, |data| + tail) && |s| == |data| + tail + |rest|
  {
    ZerosFirst(tail, rest);
    HoldsFirst(data, Zeros(tail) + rest);
    hide Holds, Zeros;
    ZeroBehind(data, Zeros(tail) + rest, 0, tail);
  }

  lemma GapPieces(gap: nat, data: bytes, tail: nat, rest: bytes)
    ensures var s := Zeros(gap) + (data + (Zeros(tail) + rest));
            && AllZero(s, 0, gap) && Holds(s, gap, data) && AllZero(s, gap + |data|, gap + |data| + tail)
            && |s| == gap + |data| + tail + |rest|
  {
    DataPieces(data, tail, rest);
    var behind := data + (Zeros(tail) + rest);
    ZerosFirst(gap, behind);
    hide Holds, AllZero;
    assert |Zeros(gap)| == gap;
    hide Zeros;
    HoldsBehind(Zeros(gap), behind, 0, data);
    ZeroBehind(Zeros(gap), behind, |data|, |data| + tail);
  }

  lemma NamePieces(name: bytes, gap: nat, data: bytes, tail: nat, rest: bytes)
    ensures var s := name + (Zeros(gap) + (data + (Zeros(tail) + rest)));
            var d := |name| + gap;
            && Holds(s, 0, name) && AllZero(s, |name|, d) && Holds(s, d, data)
            && AllZero(s, d + |data|, d + |data| + tail) && |s| == d + |data| + tail + |rest|
  {
    GapPieces(gap, data, tail, rest);
    hide Holds, Zeros, AllZero;
    var behind := Zeros(gap) + (data + (Zeros(tail) + rest));
    HoldsFirst(name, behind);
    ZeroBehind(name, behind, 0, gap);
    HoldsBehind(name, behind, gap, data);
    ZeroBehind(name, behind, gap + |data|, gap + |data| + tail);
  }

  lemma Pieces(header: bytes, name: bytes, gap: nat, data: bytes, tail: nat, rest: bytes)
    ensures var s := header + (name + (Zeros(gap) + (data + (Zeros(tail) + rest))));
            var n := |header| + |name|;
            var d := n + gap;
            && Holds(s, |header|, name) && AllZero(s, n, d) && Holds(s, d, data)
            && AllZero(s, d + |data|, d + |data| + tail) && |s| == d + |data| + tail + |rest|
  {
    NamePieces(name, gap, data, tail, rest);
    hide Holds, Zeros, AllZero;
    var behind := name + (Zeros(gap) + (data + (Zeros(tail) + rest)));
    HoldsBehind(header, behind, 0, name);
    ZeroBehind(header, behind, |name|, |name| + gap);
    HoldsBehind(header, behind, |name| + gap, data);
    ZeroBehind(header, behind, |name| + gap + |data|, |name| + gap + |data| + tail);
  }

  lemma EntryAsPieces(e: Entry, rest: bytes)
    requires NumbersFit(e)
    ensures |MAGIC + FormatFields(HeaderValues(e))| == 110
    ensures EntryBytes(e) + rest
         == (MAGIC + FormatFields(HeaderValues(e)))
            + (e.name + (Zeros(1 + Padding(110 + |e.name| + 1)) + (e.data + (Zeros(Padding(|e.data|)) + rest))))
  {
    HeaderValuesFit(e);
    FormatFieldsParse(HeaderValues(e));
    var header := MAGIC + FormatFields(HeaderValues(e));
    hide FormatFields, HeaderValues, Zeros, NumbersFit, Padding;
    var gap, tail := Zeros(Padding(110 + |e.name| + 1)), Zeros(Padding(|e.data|));
    ZerosSnoc(Padding(110 + |e.name| + 1));
    assert EntryBytes(e) == header + (e.name + [0] + gap + e.data + tail);
    Regrouped(header, e.name, [0], gap, e.data, tail, rest);
  }

  lemma Regrouped(a: bytes, b: bytes, c: bytes, d: bytes, e: bytes, f: bytes, g: bytes)
    ensures a + (b + c + d + e + f) + g == a + (b + ((c + d) + (e + (f + g))))
  {
  }

  lemma RoundedUp(n: nat)
    ensures n + Padding(n) == (n + 3) / 4 * 4
  {
  }

  lemma EntryPieces(e: Entry, rest: bytes)
    requires NumbersFit(e)
    ensures var s := EntryBytes(e) + rest;
            var n := |e.name|;
            var dataAt := (110 + n + 1 + 3) / 4 * 4;
            var end := dataAt + (|e.data| + 3) / 4 * 4;
            && |EntryBytes(e)| == end
            && Holds(s, 110, e.name) && AllZero(s, 110 + n, dataAt)
            && Holds(s, dataAt, e.data) && AllZero(s, dataAt + |e.data|, end)
  {
    EntryAsPieces(e, rest);
    RoundedUp(110 + |e.name| + 1);
    RoundedUp(|e.data|);
    var header := MAGIC + FormatFields(HeaderValues(e));
    hide EntryBytes, FormatFields, HeaderValues, Zeros, NumbersFit, Padding, Holds, AllZero;
    Pieces(header, e.name, 1 + Padding(110 + |e.name| + 1), e.data, Padding(|e.data|), rest);
  }

  // One entry, wherever it stands.
  lemma EntryInPlace(before: bytes, e: Entry, rest: bytes)
    requires NumbersFit(e)
    ensures var s := before + (EntryBytes(e) + rest);
            var start := |before|;
            var dataAt := start + (110 + |e.name| + 1 + 3) / 4 * 4;
            var next := start + |EntryBytes(e)|;
            && next == dataAt + (|e.data| + 3) / 4 * 4 <= |s|
            && Holds(s, start + 110, e.name) && AllZero(s, start + 110 + |e.name|, dataAt)
            && Holds(s, dataAt, e.data) && AllZero(s, dataAt + |e.data|, next)
  {
    EntryPieces(e, rest);
    var here := EntryBytes(e) + rest;
    hide EntryBytes, NumbersFit, Holds, AllZero;
    var n, dataAt := |e.name|, (110 + |e.name| + 1 + 3) / 4 * 4;
    HoldsBehind(before, here, 110, e.name);
    HoldsBehind(before, here, dataAt, e.data);
    ZeroBehind(before, here, 110 + n, dataAt);
    ZeroBehind(before, here, dataAt + |e.data|, |EntryBytes(e)|);
  }

  lemma LiteralLayout(s: bytes, at: nat, name: bytes, dataAt: nat, data: bytes, next: nat)
    requires Holds(s, at, name) && AllZero(s, at + |name|, dataAt) && at + |name| < dataAt
    requires Holds(s, dataAt, data) && AllZero(s, dataAt + |data|, next)
    ensures dataAt + |data| <= |s| && next <= |s|
    ensures s[at..at + |name|] == name && s[at + |name|] == 0
    ensures forall i :: at + |name| <= i < dataAt ==> s[i] == 0
    ensures s[dataAt..dataAt + |data|] == data
    ensures forall i :: dataAt + |data| <= i < next ==> s[i] == 0
  {
  }

  lemma EntryLiterally(s: bytes, before: bytes, e: Entry, rest: bytes)
    requires NumbersFit(e) && s == before + (EntryBytes(e) + rest)
    ensures var start := |before|;
            var dataAt := start + (110 + |e.name| + 1 + 3) / 4 * 4;
            var next := start + |EntryBytes(e)|;
            && next == dataAt + (|e.data| + 3) / 4 * 4 <= |s|
            && s[start + 110..start + 110 + |e.name|] == e.name
            && s[start + 110 + |e.name|] == 0
            && (forall i :: start + 110 + |e.name| <= i < dataAt ==> s[i] == 0)
            && s[dataAt..dataAt + |e.data|] == e.data
            && (forall i :: dataAt + |e.data| <= i < next ==> s[i] == 0)
  {
    EntryInPlace(before, e, rest);
    hide EntryBytes, NumbersFit, Holds, AllZero;
    LiteralLayout(s, |before| + 110, e.name, |before| + (110 + |e.name| + 1 + 3) / 4 * 4, e.data, |before| + |EntryBytes(e)|);
  }

  // Where an entry starts; for k the number of entries, where the last one ends.
  function EntryStart(a: Archive, k: nat): nat
    requires k <= |a.entries|
  {
    |EntriesBytes(a.entries[..k])|
  }

  // Every byte of a written archive outside headers and data: the name and a zero behind it, zeros up
  // to the data at the next multiple of four, the data, zeros up to the next entry, which starts at
  // the multiple of four after that.
  lemma ArchiveLayout(a: Archive, k: nat)
    requires k < |a.entries|
    requires forall i :: 0 <= i < |a.entries| ==> NumbersFit(a.entries[i])
    ensures var s := Serialize(a);
            var e := a.entries[k];
            var start, next := EntryStart(a, k), EntryStart(a, k + 1);
            var dataAt := start + (110 + |e.name| + 1 + 3) / 4 * 4;
            && next == dataAt + (|e.data| + 3) / 4 * 4 <= |s|
            && s[start + 110..start + 110 + |e.name|] == e.name
            && s[start + 110 + |e.name|] == 0
            && (forall i :: start + 110 + |e.name| <= i < dataAt ==> s[i] == 0)
            && s[dataAt..dataAt + |e.data|] == e.data
            && (forall i :: dataAt + |e.data| <= i < next ==> s[i] == 0)
  {
    var before, rest := SplitAround(a, k);
    hide EntryBytes, NumbersFit, EntryStart, Serialize;
    EntryLiterally(Serialize(a), before, a.entries[k], rest);
  }

  // The first entry starts the file, and behind the last come the trailing bytes and nothing else.
  lemma TrailingLast(a: Archive)
    ensures EntryStart(a, 0) == 0 && EntryStart(a, |a.entries|) <= |Serialize(a)|
    ensures Serialize(a)[EntryStart(a, |a.entries|)..] == a.trailing
  {
    assert a.entries[..|a.entries|] == a.entries && a.entries[..0] == [];
  }

  lemma SplitAround(a: Archive, k: nat) returns (before: bytes, rest: bytes)
    requires k < |a.entries|
    ensures Serialize(a) == before + (EntryBytes(a.entries[k]) + rest)
    ensures |before| == EntryStart(a, k) && EntryStart(a, k + 1) == |before| + |EntryBytes(a.entries[k])|
  {
    hide EntryBytes;
    EntriesBytesSplit(a.entries, k);
    EntriesBytesSplit(a.entries[..k + 1], k);
    assert a.entries[k..][0] == a.entries[k] && a.entries[k..][1..] == a.entries[k + 1..];
    assert a.entries[..k + 1][..k] == a.entries[..k];
    var last := a.entries[..k + 1][k..];
    assert last == [a.entries[k]] && last[1..] == [];
    assert EntriesBytes(last) == EntryBytes(a.entries[k]) + EntriesBytes([]);
    var x, y, z, t := EntriesBytes(a.entries[..k]), EntryBytes(a.entries[k]), EntriesBytes(a.entries[k + 1..]), a.trailing;
    assert x + (y + z) + t == x + (y + (z + t));
    before, rest := x, z + t;
  }
}

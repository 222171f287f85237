/** read_cpio and write_cpio as the loops they are, over the bytes of a file. */
module CpioIO {
  import opened Wrappers
  import opened CpioHex
  import opened CpioArchive

  datatype WriteError = UnencodableName(name: bytes)

  predicate Continues(c: byte) {
    0x80 <= c <= 0xBF
  }

  // Names are kept as the bytes of the file. Bytes that are not UTF-8 reach Python as lone
  // surrogates, and the strict encoder used for writing refuses exactly those.
  predicate Utf8(s: bytes) {
    if s == [] then true
    else if s[0] < 0x80 then Utf8(s[1..])
    else if |s| >= 2 && 0xC2 <= s[0] <= 0xDF && Continues(s[1]) then Utf8(s[2..])
    else if |s| >= 3 && 0xE0 <= s[0] <= 0xEF && Continues(s[1]) && Continues(s[2])
         && (s[0] == 0xE0 ==> s[1] >= 0xA0) && (s[0] == 0xED ==> s[1] < 0xA0) then Utf8(s[3..])
    else
      && |s| >= 4 && 0xF0 <= s[0] <= 0xF4 && Continues(s[1]) && Continues(s[2]) && Continues(s[3])
      && (s[0] == 0xF0 ==> s[1] >= 0x90) && (s[0] == 0xF4 ==> s[1] < 0x90) && Utf8(s[4..])
  }

  // A Unicode scalar value, and its encoding.
  type Scalar = c: nat | c < 0xD800 || 0xDFFF < c < 0x11_0000

  function Encode(c: Scalar): bytes {
    if c < 0x80 then [c]
    else if c < 0x800 then [0xC0 + c / 64, 0x80 + c % 64]
    else if c < 0x1_0000 then [0xE0 + c / 64 / 64, 0x80 + c / 64 % 64, 0x80 + c % 64]
    else [0xF0 + c / 64 / 64 / 64, 0x80 + c / 64 / 64 % 64, 0x80 + c / 64 % 64, 0x80 + c % 64]
  }

  function EncodeAll(cs: seq<Scalar>): bytes {
    if cs == [] then [] else Encode(cs[0]) + EncodeAll(cs[1..])
  }

  lemma EncodedUtf8(c: Scalar, rest: bytes)
    ensures Utf8(Encode(c) + rest) == Utf8(rest)
  {
    var s := Encode(c) + rest;
    assert s[|Encode(c)|..] == rest;
  }

  // The six bits a continuation byte carries come after those before it.
  function Append(high: nat, c: byte): nat
    requires Continues(c)
  {
    64 * high + (c as int - 0x80)
  }

  lemma Appended(high: nat, c: byte)
    requires Continues(c)
    ensures Append(high, c) / 64 == high && 0x80 + Append(high, c) % 64 == c
  {
  }

  lemma FirstScalar(s: bytes) returns (c: Scalar, rest: bytes)
    requires s != [] && Utf8(s)
    ensures s == Encode(c) + rest && Utf8(rest) && |rest| < |s|
  {
    if s[0] < 0x80 {
      return s[0], s[1..];
    }
    if s[0] <= 0xDF {
      var high: nat := s[0] as int - 0xC0;
      Appended(high, s[1]);
      return Append(high, s[1]), s[2..];
    }
    if s[0] <= 0xEF {
      c, rest := ThreeBytes(s);
      return;
    }
    c, rest := FourBytes(s);
  }

  lemma ThreeBytes(s: bytes) returns (c: Scalar, rest: bytes)
    requires s != [] && Utf8(s) && 0xE0 <= s[0] <= 0xEF
    ensures s == Encode(c) + rest && Utf8(rest) && |rest| < |s|
  {
    var high: nat := s[0] as int - 0xE0;
    var middle := Append(high, s[1]);
    Appended(high, s[1]);
    Appended(middle, s[2]);
    rest := s[3..];
    assert s == s[..3] + rest;
    assert 64 * middle <= Append(middle, s[2]) < 64 * middle + 64;
    assert 64 * high <= middle < 64 * high + 64;
    c := Append(middle, s[2]);
    hide Append;
    assert s[..3] == Encode(c);
  }

  lemma FourBytes(s: bytes) returns (c: Scalar, rest: bytes)
    requires s != [] && Utf8(s) && s[0] >= 0xF0
    ensures s == Encode(c) + rest && Utf8(rest) && |rest| < |s|
  {
    var high: nat := s[0] as int - 0xF0;
    var upper := Append(high, s[1]);
    var middle := Append(upper, s[2]);
    Appended(high, s[1]);
    Appended(upper, s[2]);
    Appended(middle, s[3]);
    rest := s[4..];
    assert s == s[..4] + rest;
    assert 64 * middle <= Append(middle, s[3]) < 64 * middle + 64;
    assert 64 * upper <= middle < 64 * upper + 64;
    assert 64 * high <= upper < 64 * high + 64;
    c := Append(middle, s[3]);
    hide Append;
    assert s[..4] == Encode(c);
  }

  // The accepted names are exactly the encodings of sequences of scalar values.
  lemma {:induction false} Utf8Iff(s: bytes)
    ensures Utf8(s) <==> exists cs: seq<Scalar> :: EncodeAll(cs) == s
  {
    if Utf8(s) {
      var cs := Decoded(s);
    }
    forall cs: seq<Scalar> | EncodeAll(cs) == s
      ensures Utf8(s)
    {
      AllEncoded(cs, s);
    }
  }

  lemma {:induction false} Decoded(s: bytes) returns (cs: seq<Scalar>)
    requires Utf8(s)
    ensures EncodeAll(cs) == s
    decreases |s|
  {
    hide Utf8, Encode;
    if s == [] {
      return [];
    }
    var c, rest := FirstScalar(s);
    var more := Decoded(rest);
    cs := [c] + more;
    assert cs[1..] == more;
  }

  lemma {:induction false} AllEncoded(cs: seq<Scalar>, s: bytes)
    requires EncodeAll(cs) == s
    ensures Utf8(s)
    decreases |cs|
  {
    if cs != [] {
      var n := |Encode(cs[0])|;
      assert s[n..] == EncodeAll(cs[1..]) && s == Encode(cs[0]) + s[n..];
      EncodedUtf8(cs[0], s[n..]);
      hide Utf8, Encode;
      AllEncoded(cs[1..], s[n..]);
    }
  }

  ghost predicate Encodable(entries: seq<Entry>) {
    forall i :: 0 <= i < |entries| ==> Utf8(entries[i].name)
  }

  lemma DropDrop(s: bytes, m: nat, n: nat)
    ensures Drop(Drop(s, m), n) == Drop(s, m + n)
  {
    if m + n <= |s| {
      assert s[m..][n..] == s[m + n..];
    }
  }

  // What reading the header decides.
  lemma HeaderDecides(s: bytes, entries: seq<Entry>)
    ensures var header := Take(s, HEADER_SIZE);
            && (header == [] ==>
                  ReadFrom(s, entries) == Failure(if entries == [] then EmptyArchive else MissingTrailer))
            && (header != [] && |header| != HEADER_SIZE ==> ReadFrom(s, entries) == Failure(TruncatedHeader))
            && (|header| == HEADER_SIZE && !HasMagic(header) ==> ReadFrom(s, entries) == Failure(UnsupportedFormat))
            && (|header| == HEADER_SIZE && HasMagic(header) ==>
                  match HeaderNumbers(header)
                  case None => ReadFrom(s, entries) == Failure(BadField)
                  case Some(fields) => ReadEntry(s) == ReadBody(fields, Drop(s, HEADER_SIZE)))
  {
    hide HeaderNumbers, HasMagic, ReadBody;
  }

  lemma ReadFromBad(s: bytes, entries: seq<Entry>)
    ensures ReadEntry(s).Bad? ==> ReadFrom(s, entries) == Failure(ReadEntry(s).error)
  {
    hide ReadEntry;
  }

  // What reading the name and the data decides.
  lemma BodyDecides(fields: seq<nat>, s: bytes)
    requires |fields| == 13
    ensures var nameBytes := Take(s, fields[11]);
            var dataAt := Drop(s, fields[11] + Padding(HEADER_SIZE + fields[11]));
            var data := Take(dataAt, fields[6]);
            && (|nameBytes| != fields[11] || |data| != fields[6] ==> ReadBody(fields, s) == Bad(UnexpectedEnd))
            && (|nameBytes| == fields[11] && |data| == fields[6] ==>
                  ReadBody(fields, s)
                  == Got(BuildEntry(fields, WithoutLast(nameBytes), data), Drop(dataAt, fields[6] + Padding(fields[6]))))
  {
  }

  method ReadCpio(file: bytes) returns (r: Result<Archive, ReadError>)
    ensures r == ReadArchive(file)
  {
    hide HasMagic, HeaderNumbers, WithoutLast, ReadBody, ReadEntry, ReadFrom, BuildEntry, Padding, Take, TRAILER, Closed;
    var entries: seq<Entry> := [];
    var pos: nat := 0;
    var closed := false;
    ghost var expected := ReadArchive(file);
    assert Drop(file, pos) == file;
    assert expected == ReadFrom(Drop(file, pos), entries);
    hide Drop, ReadArchive;
    while !closed
      invariant !closed ==> expected == ReadFrom(Drop(file, pos), entries)
      invariant closed ==> expected == Success(Archive(entries, Drop(file, pos)))
      decreases !closed, |Drop(file, pos)|
    {
      ghost var ahead := Drop(file, pos);
      HeaderDecides(ahead, entries);
      var header := Take(Drop(file, pos), HEADER_SIZE);
      if header == [] {
        if entries != [] {
          return Failure(MissingTrailer);
        }
        return Failure(EmptyArchive);
      }
      if |header| != HEADER_SIZE {
        return Failure(TruncatedHeader);
      }
      DropDrop(file, pos, HEADER_SIZE);
      pos := pos + HEADER_SIZE;
      if !HasMagic(header) {
        return Failure(UnsupportedFormat);
      }
      var parsed := HeaderNumbers(header);
      if parsed.None? {
        return Failure(BadField);
      }
      var f := parsed.value;
      var namesize, filesize := f[11], f[6];
      BodyDecides(f, Drop(file, pos));
      ReadFromBad(ahead, entries);

      var nameBytes := Take(Drop(file, pos), namesize);
      if |nameBytes| != namesize {
        return Failure(UnexpectedEnd);
      }
      var name := WithoutLast(nameBytes);
      DropDrop(file, pos, namesize + Padding(HEADER_SIZE + namesize));
      pos := pos + namesize + Padding(HEADER_SIZE + namesize);

      var data := Take(Drop(file, pos), filesize);
      if |data| != filesize {
        return Failure(UnexpectedEnd);
      }
      DropDrop(file, pos, filesize + Padding(filesize));
      pos := pos + filesize + Padding(filesize);

      var entry := BuildEntry(f, name, data);
      ReadFromStep(ahead, entries, entry, Drop(file, pos));
      entries := entries + [entry];
      closed := entry.name == TRAILER;
    }
    r := Success(Archive(entries, Drop(file, pos)));
  }

  lemma {:induction false} FormatFieldsAppend(fields: seq<nat>, more: seq<nat>)
    ensures FormatFields(fields + more) == FormatFields(fields) + FormatFields(more)
    decreases |fields|
  {
    if fields == [] {
      assert [] + more == more;
    } else {
      assert (fields + more)[1..] == fields[1..] + more;
      FormatFieldsAppend(fields[1..], more);
      var first, middle, last := FormatHex(fields[0], 8), FormatFields(fields[1..]), FormatFields(more);
      assert first + (middle + last) == (first + middle) + last;
    }
  }

  method FormatHeader(e: Entry) returns (header: bytes)
    ensures header == MAGIC + FormatFields(HeaderValues(e))
  {
    header := MAGIC;
    var values := HeaderValues(e);
    hide HeaderValues;
    for i := 0 to |values|
      invariant header == MAGIC + FormatFields(values[..i])
    {
      FormatFieldsAppend(values[..i], [values[i]]);
      assert values[..i + 1] == values[..i] + [values[i]];
      assert FormatFields([values[i]]) == FormatHex(values[i], 8);
      assert (MAGIC + FormatFields(values[..i])) + FormatHex(values[i], 8)
          == MAGIC + (FormatFields(values[..i]) + FormatHex(values[i], 8));
      header := header + FormatHex(values[i], 8);
    }
    assert values[..|values|] == values;
  }

  lemma {:induction false} EntriesBytesSnoc(entries: seq<Entry>, k: nat)
    requires k < |entries|
    ensures EntriesBytes(entries[..k + 1]) == EntriesBytes(entries[..k]) + EntryBytes(entries[k])
  {
    hide EntryBytes;
    EntriesBytesSplit(entries[..k + 1], k);
    assert entries[..k + 1][..k] == entries[..k];
    var last := entries[..k + 1][k..];
    assert last == [entries[k]] && last[1..] == [];
    assert EntriesBytes(last) == EntryBytes(entries[k]) + EntriesBytes([]);
  }

  // Writing succeeds exactly when every name can be encoded, and then produces these bytes.
  method WriteCpio(archive: Archive) returns (r: Result<bytes, WriteError>)
    ensures r.Success? <==> Encodable(archive.entries)
    ensures r.Success? ==> r.value == Serialize(archive)
    ensures r.Failure? ==> !Utf8(r.error.name) && exists e :: e in archive.entries && e.name == r.error.name
  {
    hide Utf8, HeaderValues, FormatFields, MAGIC;
    var out: bytes := [];
    for i := 0 to |archive.entries|
      invariant out == EntriesBytes(archive.entries[..i])
      invariant forall k :: 0 <= k < i ==> Utf8(archive.entries[k].name)
    {
      var entry := archive.entries[i];
      if !Utf8(entry.name) {
        return Failure(UnencodableName(entry.name));
      }
      var nameBytes := entry.name + [0];
      var header := FormatHeader(entry);
      ghost var before := out;
      out := out + header;
      out := out + nameBytes;
      out := out + Zeros(Padding(HEADER_SIZE + |nameBytes|));
      out := out + entry.data;
      out := out + Zeros(Padding(|entry.data|));
      Regroup(before, header, nameBytes, Zeros(Padding(HEADER_SIZE + |nameBytes|)), entry.data, Zeros(Padding(|entry.data|)));
      assert out == before + EntryBytes(entry);
      EntriesBytesSnoc(archive.entries, i);
    }
    assert archive.entries[..|archive.entries|] == archive.entries;
    out := out + archive.trailing;
    r := Success(out);
  }

  lemma Regroup(a: bytes, b: bytes, c: bytes, d: bytes, e: bytes, f: bytes)
    ensures a + b + c + d + e + f == a + (b + (c + d + e + f))
  {
  }

  /* ---------- which error a broken file is reported with ---------- */

  ghost predicate Digit(c: byte) {
    '0' as int <= c <= '9' as int || 'a' as int <= c <= 'f' as int || 'A' as int <= c <= 'F' as int
  }

  lemma {:induction false} ParseHexIff(s: bytes)
    ensures ParseHex(s).Some? <==> forall i :: 0 <= i < |s| ==> Digit(s[i])
  {
    if s != [] {
      ParseHexIff(s[..|s| - 1]);
    }
  }

  lemma {:induction false} ParseFieldsIff(s: bytes)
    requires |s| % 8 == 0
    ensures ParseFields(s).Some? <==> forall i :: 0 <= i < |s| ==> Digit(s[i])
  {
    if s != [] {
      ParseHexIff(s[..8]);
      ParseFieldsIff(s[8..]);
      assert forall i :: 0 <= i < 8 ==> s[i] == s[..8][i];
      assert forall i :: 8 <= i < |s| ==> s[i] == s[8..][i - 8];
    }
  }

  // Entries that are in order are read, and what is found behind them decides.
  lemma {:induction false} ReadOver(entries: seq<Entry>, rest: bytes, done: seq<Entry>)
    requires forall i :: 0 <= i < |entries| ==> FitsHeader(entries[i]) && entries[i].name != TRAILER
    ensures ReadFrom(EntriesBytes(entries) + rest, done) == ReadFrom(rest, done + entries)
    decreases |entries|
  {
    hide EntryBytes, ReadEntry, FitsHeader, TRAILER;
    if entries == [] {
      assert EntriesBytes(entries) + rest == rest && done + entries == done;
    } else {
      var e, more := entries[0], entries[1..];
      EntriesBytesStep(entries, rest);
      ReadEntryOfWritten(e, EntriesBytes(more) + rest);
      ReadFromStep(EntriesBytes(entries) + rest, done, e, EntriesBytes(more) + rest);
      ReadOver(more, rest, done + [e]);
      assert done + [e] + more == done + entries;
    }
  }

  // The numbers of a header as the reader sees them.
  lemma {:induction false} ParsedFieldAt(s: bytes, i: nat)
    requires |s| % 8 == 0 && ParseFields(s).Some? && i < |s| / 8
    ensures |ParseFields(s).value| == |s| / 8 && ParseHex(s[8 * i..8 * i + 8]) == Some(ParseFields(s).value[i])
    decreases i
  {
    ParseFieldsFit(s);
    if i > 0 {
      ParsedFieldAt(s[8..], i - 1);
      assert s[8..][8 * (i - 1)..8 * (i - 1) + 8] == s[8 * i..8 * i + 8];
    }
  }

  lemma HeaderNumbersIff(header: bytes)
    requires |header| == HEADER_SIZE
    ensures HeaderNumbers(header).Some? <==> forall i :: 6 <= i < 110 ==> Digit(header[i])
    ensures HeaderNumbers(header).Some? ==>
              && NumberAt(header, 54) == Some(HeaderNumbers(header).value[6])
              && NumberAt(header, 94) == Some(HeaderNumbers(header).value[11])
  {
    var s := header[6..];
    ParseFieldsIff(s);
    assert forall i :: 6 <= i < 110 ==> header[i] == s[i - 6];
    assert forall i :: 0 <= i < 104 ==> s[i] == header[i + 6];
    if HeaderNumbers(header).Some? {
      hide ParseFields, ParseHex, Digit;
      ParsedFieldAt(s, 6);
      ParsedFieldAt(s, 11);
      assert s[8 * 6..8 * 6 + 8] == header[54..62] && s[8 * 11..8 * 11 + 8] == header[94..102];
    }
  }

  // A header that is all there: another magic, something that is not a digit, or a name or data that
  // ends early.
  ghost predicate FailsAs(r: Result<Archive, ReadError>, rest: bytes)
    requires |rest| >= 110
  {
    if rest[..6] != [48, 55, 48, 55, 48, 49] then r == Failure(UnsupportedFormat)
    else if exists i :: 6 <= i < 110 && !Digit(rest[i]) then r == Failure(BadField)
    else
      && NumberAt(rest, 94).Some? && NumberAt(rest, 54).Some?
      && var size, filesize := NumberAt(rest, 94).value, NumberAt(rest, 54).value;
         (110 + size > |rest| || (filesize > 0 && (110 + size + 3) / 4 * 4 + filesize > |rest|) ==>
            r == Failure(UnexpectedEnd))
  }

  lemma HeaderCut(rest: bytes)
    requires |rest| >= 110
    ensures var header := rest[..110];
            && header[..6] == rest[..6] && (forall i :: 6 <= i < 110 ==> header[i] == rest[i])
            && NumberAt(header, 54) == NumberAt(rest, 54) && NumberAt(header, 94) == NumberAt(rest, 94)
  {
    assert rest[..110][54..62] == rest[54..62] && rest[..110][94..102] == rest[94..102];
  }

  lemma NoEarlyDigitError(rest: bytes, entries: seq<Entry>)
    requires |rest| >= 110
    ensures var header := rest[..110];
            && (!HasMagic(header) ==> ReadFrom(rest, entries) == Failure(UnsupportedFormat))
            && (HasMagic(header) && HeaderNumbers(header).None? ==> ReadFrom(rest, entries) == Failure(BadField))
            && (HasMagic(header) && HeaderNumbers(header).Some?
                && ReadBody(HeaderNumbers(header).value, rest[110..]) == Bad(UnexpectedEnd) ==>
                  ReadFrom(rest, entries) == Failure(UnexpectedEnd))
  {
    hide ReadBody, HeaderNumbers, HasMagic;
  }

  lemma HeaderFailure(rest: bytes, entries: seq<Entry>)
    requires |rest| >= 110
    ensures FailsAs(ReadFrom(rest, entries), rest)
  {
    HeaderCut(rest);
    var header := rest[..110];
    HeaderNumbersIff(header);
    NoEarlyDigitError(rest, entries);
    assert HasMagic(header) <==> rest[..6] == [48, 55, 48, 55, 48, 49];
    hide ReadBody, HeaderNumbers, Digit, NumberAt, ReadFrom, Padding, HasMagic;
    if HasMagic(header) && HeaderNumbers(header).Some? {
      var fields := HeaderNumbers(header).value;
      RoundedUp(110 + fields[11]);
      BodyTooShort(fields, rest[110..]);
    }
  }

  // Behind any number of good entries: no trailer, a cut header, or what is wrong with the next entry,
  // reported as what it is, in this order.
  lemma ReadFailure(entries: seq<Entry>, rest: bytes)
    requires forall i :: 0 <= i < |entries| ==> FitsHeader(entries[i]) && entries[i].name != TRAILER
    ensures var r := ReadArchive(EntriesBytes(entries) + rest);
            && (rest == [] ==> r == Failure(if entries == [] then EmptyArchive else MissingTrailer))
            && (0 < |rest| < 110 ==> r == Failure(TruncatedHeader))
            && (|rest| >= 110 ==> FailsAs(r, rest))
  {
    ReadOver(entries, rest, []);
    assert [] + entries == entries;
    ReadFromBad(rest, entries);
    hide FailsAs;
    if |rest| >= 110 {
      HeaderFailure(rest, entries);
    }
  }

  lemma BodyTooShort(fields: seq<nat>, s: bytes)
    requires |fields| == 13
    ensures fields[11] > |s| ==> ReadBody(fields, s) == Bad(UnexpectedEnd)
    ensures fields[6] > 0 && fields[11] + Padding(110 + fields[11]) + fields[6] > |s| ==> ReadBody(fields, s) == Bad(UnexpectedEnd)
  {
  }
}

/** tail_file: the last lines of a log read through a window of one megabyte at its end. */
module LogTail {
  import opened Wrappers

  const NEWLINE: byte := 10
  const RETURN: byte := 13
  const MAX_TAIL_BYTES: nat := 1024 * 1024

  // The position of the first newline, or the length when there is none.
  function FirstNewline(s: bytes): (p: nat)
    ensures p <= |s| && (p < |s| ==> s[p] == NEWLINE)
    ensures forall i :: 0 <= i < p ==> s[i] != NEWLINE
  {
    if s == [] || s[0] == NEWLINE then 0 else FirstNewline(s[1..]) + 1
  }

  function StripReturn(line: bytes): bytes {
    if line != [] && line[|line| - 1] == RETURN then line[..|line| - 1] else line
  }

  // str::lines: a final newline starts no line, and a line loses the return before its newline.
  function Lines(s: bytes): seq<bytes>
    decreases |s|
  {
    if s == [] then []
    else
      var p := FirstNewline(s);
      if p == |s| then [s] else [StripReturn(s[..p])] + Lines(s[p + 1..])
  }

  function LastLines(lines: seq<bytes>, n: nat): seq<bytes> {
    if |lines| > n then lines[|lines| - n..] else lines
  }

  // Where the text that tail_file looks at starts: behind the first newline of the window, or at
  // the end when the window holds none.
  function WindowStart(file: bytes): (k: nat)
    ensures k <= |file|
  {
    if |file| <= MAX_TAIL_BYTES then 0
    else
      var from := |file| - MAX_TAIL_BYTES;
      var p := FirstNewline(file[from..]);
      if p < MAX_TAIL_BYTES then from + p + 1 else |file|
  }

  /* ---------- what lines are ---------- */

  // The text as lines, each followed by its end: a newline, or a return and a newline, and behind the
  // last line possibly nothing.
  function Joined(lines: seq<bytes>, ends: seq<bytes>): bytes
    requires |lines| == |ends|
  {
    if lines == [] then [] else lines[0] + ends[0] + Joined(lines[1..], ends[1..])
  }

  // No line holds a newline; one ended by a bare newline does not end in a return; and one ended by
  // nothing is the last, and not empty.
  ghost predicate Ended(line: bytes, end: bytes, last: bool) {
    && (forall i :: 0 <= i < |line| ==> line[i] != 10)
    && (end == [10] || end == [13, 10] || (last && end == []))
    && (end == [10] && line != [] ==> line[|line| - 1] != 13)
    && (end == [] ==> line != [])
  }

  ghost predicate IsSplit(s: bytes, lines: seq<bytes>, ends: seq<bytes>) {
    && |lines| == |ends| && Joined(lines, ends) == s
    && forall i :: 0 <= i < |lines| ==> Ended(lines[i], ends[i], i == |lines| - 1)
  }

  // A newline comes first where the first line ends.
  lemma FirstNewlineAt(s: bytes, p: nat)
    requires p < |s| && s[p] == NEWLINE && forall i :: 0 <= i < p ==> s[i] != NEWLINE
    ensures FirstNewline(s) == p
  {
  }

  lemma NoNewline(s: bytes)
    requires forall i :: 0 <= i < |s| ==> s[i] != NEWLINE
    ensures FirstNewline(s) == |s|
  {
  }

  lemma SplitCons(line: bytes, end: bytes, rest: bytes, lines: seq<bytes>, ends: seq<bytes>)
    requires IsSplit(rest, lines, ends) && Ended(line, end, lines == [])
    ensures IsSplit(line + end + rest, [line] + lines, [end] + ends)
  {
    var all, allEnds := [line] + lines, [end] + ends;
    assert all[1..] == lines && allEnds[1..] == ends;
    hide Ended;
    forall i | 0 <= i < |all|
      ensures Ended(all[i], allEnds[i], i == |all| - 1)
    {
      if i > 0 {
        assert Ended(lines[i - 1], ends[i - 1], i - 1 == |lines| - 1);
      }
    }
  }

  lemma StripBare(front: bytes)
    requires front == [] || front[|front| - 1] != 13
    ensures StripReturn(front) == front
  {
  }

  lemma StripOne(line: bytes)
    ensures StripReturn(line + [13]) == line
  {
  }

  // The first line of a text with its end.
  lemma FirstLine(s: bytes, p: nat) returns (line: bytes, end: bytes)
    requires p < |s| && FirstNewline(s) == p
    ensures line == StripReturn(s[..p]) && s == line + end + s[p + 1..] && Ended(line, end, false)
  {
    hide FirstNewline, StripReturn;
    var front, rest := s[..p], s[p + 1..];
    assert s[p] == 10;
    assert s == front + [10] + rest;
    if front != [] && front[p - 1] == 13 {
      line, end := front[..p - 1], [13, 10];
      assert front == line + [13];
      StripOne(line);
      assert [13] + [10] == end;
      Regroup(line, [13], [10], rest);
    } else {
      line, end := front, [10];
      StripBare(front);
    }
  }

  lemma Regroup(a: bytes, b: bytes, c: bytes, d: bytes)
    ensures (a + b) + c + d == a + (b + c) + d
  {
  }

  // Lines gives the lines of a text.
  lemma {:induction false} LinesAreLines(s: bytes) returns (ends: seq<bytes>)
    ensures IsSplit(s, Lines(s), ends)
    decreases |s|
  {
    if s == [] {
      return [];
    }
    var p := FirstNewline(s);
    if p == |s| {
      WholeLine(s);
      return [[]];
    }
    var line, end := FirstLine(s, p);
    LinesFirst(s, p);
    hide Lines, StripReturn, IsSplit;
    var more := LinesAreLines(s[p + 1..]);
    EndedEarlier(line, end);
    SplitCons(line, end, s[p + 1..], Lines(s[p + 1..]), more);
    ends := [end] + more;
  }

  lemma WholeLine(s: bytes)
    requires s != [] && FirstNewline(s) == |s|
    ensures IsSplit(s, [s], [[]])
  {
    assert [s][1..] == [] && Joined([s], [[]]) == s + [] + Joined([], []);
  }

  lemma EndedEarlier(line: bytes, end: bytes)
    requires Ended(line, end, false)
    ensures Ended(line, end, true)
  {
  }

  // And there is no other way to split the text.
  lemma {:induction false} OnlyLines(s: bytes, lines: seq<bytes>, ends: seq<bytes>)
    requires IsSplit(s, lines, ends)
    ensures lines == Lines(s)
    decreases |lines|
  {
    hide Lines, IsSplit, StripReturn, Ended, FirstNewline, Joined;
    if lines == [] {
      SplitOfNothing(s, ends);
    } else {
      FirstOfSplit(s, lines, ends);
      var line, end, rest := lines[0], ends[0], Joined(lines[1..], ends[1..]);
      if end == [] {
        LastLine(s, line);
      } else {
        EndedFirst(s, line, end, rest);
        LinesFirst(s, |line| + |end| - 1);
        OnlyLines(rest, lines[1..], ends[1..]);
      }
      assert lines == [line] + lines[1..];
    }
  }

  lemma SplitOfNothing(s: bytes, ends: seq<bytes>)
    requires IsSplit(s, [], ends)
    ensures Lines(s) == []
  {
  }

  lemma FirstOfSplit(s: bytes, lines: seq<bytes>, ends: seq<bytes>)
    requires IsSplit(s, lines, ends) && lines != []
    ensures |ends| == |lines| && s == lines[0] + ends[0] + Joined(lines[1..], ends[1..])
    ensures Ended(lines[0], ends[0], true) && IsSplit(Joined(lines[1..], ends[1..]), lines[1..], ends[1..])
    ensures ends[0] == [] ==> lines[1..] == [] && s == lines[0]
  {
    SplitTail(s, lines, ends);
    assert Ended(lines[0], ends[0], 0 == |lines| - 1);
  }

  lemma LastLine(s: bytes, line: bytes)
    requires s == line && Ended(line, [], true)
    ensures Lines(s) == [line]
  {
    NoNewline(s);
  }

  lemma EndedFirst(s: bytes, line: bytes, end: bytes, rest: bytes)
    requires s == line + end + rest && end != [] && Ended(line, end, true)
    ensures var p := |line| + |end| - 1;
            p < |s| && FirstNewline(s) == p && StripReturn(s[..p]) == line && s[p + 1..] == rest
  {
    hide FirstNewline, StripReturn;
    var p := |line| + |end| - 1;
    assert s[p] == 10;
    assert s[p + 1..] == rest;
    if end == [10] {
      assert s[..p] == line;
      StripBare(line);
      assert forall i :: 0 <= i < p ==> s[i] == line[i];
    } else {
      assert s[..p] == line + [13];
      StripOne(line);
      assert forall i :: 0 <= i < p ==> s[i] == (line + [13])[i];
    }
    FirstNewlineAt(s, p);
  }

  lemma SplitTail(s: bytes, lines: seq<bytes>, ends: seq<bytes>)
    requires IsSplit(s, lines, ends) && lines != []
    ensures IsSplit(Joined(lines[1..], ends[1..]), lines[1..], ends[1..])
  {
    hide Ended;
    forall i | 0 <= i < |lines[1..]|
      ensures Ended(lines[1..][i], ends[1..][i], i == |lines[1..]| - 1)
    {
      assert Ended(lines[i + 1], ends[i + 1], i + 1 == |lines| - 1);
    }
  }

  lemma SplitWithoutNewlines(s: bytes, lines: seq<bytes>, ends: seq<bytes>)
    requires IsSplit(s, lines, ends)
    ensures forall i, k :: 0 <= i < |lines| && 0 <= k < |lines[i]| ==> lines[i][k] != 10
  {
    forall i, k | 0 <= i < |lines| && 0 <= k < |lines[i]|
      ensures lines[i][k] != 10
    {
      assert Ended(lines[i], ends[i], i == |lines| - 1);
    }
  }

  // The last n of a list: as many as there are, at most n, in place.
  lemma LastLinesMeaning(lines: seq<bytes>, n: nat)
    ensures |LastLines(lines, n)| == if |lines| < n then |lines| else n
    ensures forall i :: 0 <= i < |LastLines(lines, n)| ==> LastLines(lines, n)[i] == lines[|lines| - |LastLines(lines, n)| + i]
  {
  }

  // What the last n lines of a text are, however they are computed.
  ghost predicate IsTail(text: bytes, collected: seq<bytes>, n: nat) {
    exists all, ends :: IsSplit(text, all, ends) && |collected| == (if |all| < n then |all| else n)
                        && collected == all[|all| - |collected|..]
  }

  lemma LastLinesAreTail(text: bytes, n: nat)
    ensures IsTail(text, LastLines(Lines(text), n), n)
    ensures forall i, k :: 0 <= i < |LastLines(Lines(text), n)| && 0 <= k < |LastLines(Lines(text), n)[i]| ==>
              LastLines(Lines(text), n)[i][k] != 10
  {
    var ends := LinesAreLines(text);
    hide Lines, IsSplit;
    var all := Lines(text);
    SplitWithoutNewlines(text, all, ends);
    LastLinesMeaning(all, n);
    var collected := LastLines(all, n);
    hide LastLines;
    assert collected == all[|all| - |collected|..];
  }

  method TailFile(file: bytes, lines: nat) returns (collected: seq<bytes>)
    ensures collected == LastLines(Lines(file[WindowStart(file)..]), lines)
    ensures IsTail(file[WindowStart(file)..], collected, lines)
    ensures forall i, k :: 0 <= i < |collected| && 0 <= k < |collected[i]| ==> collected[i][k] != 10
  {
    hide Lines, IsTail;
    LastLinesAreTail(file[WindowStart(file)..], lines);
    var len := |file|;
    var buf;
    if len > MAX_TAIL_BYTES {
      buf := file[len - MAX_TAIL_BYTES..];
    } else {
      buf := file[0..];
    }
    if len > MAX_TAIL_BYTES {
      var pos := FirstNewline(buf);
      if pos < |buf| {
        assert buf[pos + 1..] == file[WindowStart(file)..];
        buf := buf[pos + 1..];
      } else {
        assert file[WindowStart(file)..] == [];
        buf := [];
      }
    }
    collected := Lines(buf);
    if |collected| > lines {
      collected := collected[|collected| - lines..];
    }
  }

  predicate LineStart(s: bytes, k: nat) {
    k == 0 || (k <= |s| && s[k - 1] == NEWLINE)
  }

  lemma FirstNewlineWithin(s: bytes, k: nat)
    requires 0 < k <= |s| && s[k - 1] == NEWLINE
    ensures FirstNewline(s) < k && FirstNewline(s[..k]) == FirstNewline(s)
  {
    assert s[..k][k - 1] == NEWLINE;
    assert FirstNewline(s[..k]) < k;
    assert forall i :: 0 <= i < k ==> s[..k][i] == s[i];
  }

  lemma LinesEmpty()
    ensures Lines([]) == []
  {
  }

  lemma SeveralLines(s: bytes)
    requires |Lines(s)| > 1
    ensures s != [] && FirstNewline(s) < |s|
  {
  }

  // The first line and the rest, when a newline ends it.
  lemma LinesFirst(s: bytes, p: nat)
    requires p < |s| && FirstNewline(s) == p
    ensures Lines(s) == [StripReturn(s[..p])] + Lines(s[p + 1..])
  {
    hide FirstNewline, StripReturn;
  }

  // Cutting a text where a line starts cuts its lines.
  lemma {:induction false} LinesSplit(s: bytes, k: nat)
    requires k <= |s| && LineStart(s, k)
    ensures Lines(s) == Lines(s[..k]) + Lines(s[k..])
    decreases |s|
  {
    hide Lines, StripReturn, FirstNewline;
    if k == 0 {
      assert s[..k] == [] && s[k..] == s;
      LinesEmpty();
    } else {
      FirstNewlineWithin(s, k);
      var p := FirstNewline(s);
      LinesFirst(s, p);
      LinesFirst(s[..k], p);
      var more := s[p + 1..];
      var j := k - p - 1;
      assert j > 0 ==> more[j - 1] == s[k - 1];
      LinesSplit(more, j);
      assert s[..k][..p] == s[..p] && s[..k][p + 1..] == more[..j] && more[j..] == s[k..];
      var first, middle, last := [StripReturn(s[..p])], Lines(more[..j]), Lines(s[k..]);
      assert first + (middle + last) == (first + middle) + last;
    }
  }

  // The window starts where a line of the file starts, or behind everything.
  lemma WindowStartsLine(file: bytes)
    ensures LineStart(file, WindowStart(file)) || WindowStart(file) == |file|
  {
    if |file| > MAX_TAIL_BYTES {
      var from := |file| - MAX_TAIL_BYTES;
      var p := FirstNewline(file[from..]);
      if p < MAX_TAIL_BYTES {
        assert file[from..][p] == file[from + p];
      }
    }
  }

  lemma WindowLines(file: bytes)
    ensures exists k :: 0 <= k <= |Lines(file)| && Lines(file[WindowStart(file)..]) == Lines(file)[k..]
  {
    WindowStartsLine(file);
    var start := WindowStart(file);
    if LineStart(file, start) {
      LinesSplit(file, start);
      var k := |Lines(file[..start])|;
      assert Lines(file)[k..] == Lines(file[start..]);
    } else {
      assert file[start..] == [];
      assert Lines(file)[|Lines(file)|..] == [];
    }
  }

  // What tail_file collects is always an end of the file's lines, never a part of a line, and no
  // more than was asked for.
  lemma TailIsSuffix(file: bytes, n: nat)
    ensures var collected := LastLines(Lines(file[WindowStart(file)..]), n);
            && |collected| <= n
            && exists k :: 0 <= k <= |Lines(file)| && collected == Lines(file)[k..]
  {
    hide Lines, WindowStart, LastLines;
    WindowLines(file);
    var k :| 0 <= k <= |Lines(file)| && Lines(file[WindowStart(file)..]) == Lines(file)[k..];
    var j := LastLinesSuffix(Lines(file), k, n);
  }

  lemma LastLinesSuffix(all: seq<bytes>, k: nat, n: nat) returns (j: nat)
    requires k <= |all|
    ensures j <= |all| && LastLines(all[k..], n) == all[j..] && |LastLines(all[k..], n)| <= n
  {
    j := if |all| - k > n then |all| - n else k;
    if |all| - k > n {
      assert all[k..][|all| - k - n..] == all[|all| - n..];
    }
  }

  lemma SmallFileExact(file: bytes, n: nat)
    requires |file| <= 0x10_0000
    ensures LastLines(Lines(file[WindowStart(file)..]), n) == LastLines(Lines(file), n)
  {
    assert file[0..] == file;
  }

  function Min(a: nat, b: nat): nat {
    if a < b then a else b
  }

  // Any number of last lines starts somewhere.
  lemma {:induction false} LastLinesStart(s: bytes, m: nat) returns (q: nat)
    requires 0 < m <= |Lines(s)|
    ensures q < |s| && LineStart(s, q) && |Lines(s[q..])| == m
    decreases |s|
  {
    if m == |Lines(s)| {
      assert s[0..] == s;
      return 0;
    }
    SeveralLines(s);
    var p := FirstNewline(s);
    LinesFirst(s, p);
    hide Lines, StripReturn, FirstNewline;
    var more := s[p + 1..];
    var r := LastLinesStart(more, m);
    q := p + 1 + r;
    assert more[r..] == s[q..];
    assert r > 0 ==> more[r - 1] == s[q - 1];
  }

  // On a larger file the answer is the file's last n lines exactly when the newline before those
  // lines lies in the window.
  lemma TailExactIff(file: bytes, n: nat, q: nat)
    requires |file| > 0x10_0000 && n > 0
    requires q < |file| && LineStart(file, q) && |Lines(file[q..])| == Min(n, |Lines(file)|)
    ensures LastLines(Lines(file[WindowStart(file)..]), n) == LastLines(Lines(file), n)
            <==> q >= 1 && q - 1 >= |file| - 0x10_0000
  {
    hide Lines, LineStart, WindowStart, LastLines;
    var start := WindowStart(file);
    var all, window, wanted := Lines(file), Lines(file[start..]), Lines(file[q..]);
    WindowLines(file);
    var k :| 0 <= k <= |all| && window == all[k..];
    if q >= 1 && q - 1 >= |file| - MAX_TAIL_BYTES {
      assert file[q - 1] == NEWLINE by { LineStartNewline(file, q); }
      WindowBefore(file, q);
      LaterLines(file, start, q);
    } else {
      WindowBehind(file, q);
      EarlierLines(file, q);
    }
    LastOfSuffix(all, k, n);
  }

  // The last n of an end of the list are the last n of the list when that end is long enough.
  lemma LastOfSuffix(all: seq<bytes>, k: nat, n: nat)
    requires k <= |all|
    ensures LastLines(all[k..], n) == LastLines(all, n) <==> |all| - k >= Min(n, |all|)
  {
    if |all| - k > n {
      assert all[k..][|all| - k - n..] == all[|all| - n..];
    } else if |all| > n {
      assert |all| - k == n ==> all[k..] == all[|all| - n..];
    }
  }

  lemma LineStartNewline(s: bytes, q: nat)
    requires LineStart(s, q) && q > 0
    ensures q <= |s| && s[q - 1] == NEWLINE
  {
  }

  // Lines from a later line start on are no more.
  lemma LaterLines(s: bytes, start: nat, q: nat)
    requires start <= q < |s| && 0 < q && s[q - 1] == NEWLINE
    ensures |Lines(s[start..])| >= |Lines(s[q..])|
  {
    hide Lines;
    assert s[start..][q - start..] == s[q..];
    assert q > start ==> s[start..][q - start - 1] == s[q - 1];
    LinesSplit(s[start..], q - start);
  }

  lemma LinesNonempty(s: bytes)
    requires s != []
    ensures |Lines(s)| > 0
  {
    hide FirstNewline, StripReturn;
  }

  // The window has fewer lines than the text from q on, when it starts behind q.
  lemma EarlierLines(file: bytes, q: nat)
    requires q < |file| && q < WindowStart(file)
    ensures |Lines(file[WindowStart(file)..])| < |Lines(file[q..])|
  {
    var start := WindowStart(file);
    WindowStartsLine(file);
    hide WindowStart;
    if start < |file| {
      hide Lines;
      assert file[q..][start - q..] == file[start..];
      assert file[q..][start - q - 1] == file[start - 1];
      LinesSplit(file[q..], start - q);
      LinesNonempty(file[q..][..start - q]);
    } else {
      assert file[start..] == [];
      LinesEmpty();
      hide Lines;
      LinesNonempty(file[q..]);
    }
  }

  lemma WindowBefore(file: bytes, q: nat)
    requires |file| > MAX_TAIL_BYTES && 1 <= q < |file| && file[q - 1] == NEWLINE
    requires q - 1 >= |file| - MAX_TAIL_BYTES
    ensures WindowStart(file) <= q
  {
    var from := |file| - MAX_TAIL_BYTES;
    FirstNewlineWithin(file[from..], q - from);
  }

  lemma WindowBehind(file: bytes, q: nat)
    requires |file| > MAX_TAIL_BYTES && q < |file|
    requires q == 0 || q - 1 < |file| - MAX_TAIL_BYTES
    ensures q < WindowStart(file)
  {
  }
}

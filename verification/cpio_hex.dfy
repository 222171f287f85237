/** The fixed-width hexadecimal header fields of the cpio newc format. */
module CpioHex {
  import opened Wrappers

  // Every header field is eight hexadecimal digits, so it holds a number below this.
  const FIELD_LIMIT: nat := 0x1_0000_0000

  function HexDigit(d: nat): byte
    requires d < 16
  {
    if d < 10 then 48 + d else 87 + d
  }

  // int(_, 16) takes both letter cases; anything that is not a digit is an error.
  function HexValue(c: byte): Option<nat> {
    if 48 <= c <= 57 then Some(c - 48)
    else if 97 <= c <= 102 then Some(c - 87)
    else if 65 <= c <= 70 then Some(c - 55)
    else None
  }

  // Which characters stand for a digit: written in lower case, read in either.
  lemma HexDigits(c: byte, d: nat)
    requires d < 16
    ensures HexDigit(d) == if d < 10 then '0' as int + d else 'a' as int + (d - 10)
    ensures HexValue(c) == Some(d)
            <==> (d < 10 && c == '0' as int + d) || (d >= 10 && (c == 'a' as int + (d - 10) || c == 'A' as int + (d - 10)))
  {
  }

  // f"{value:0{width}x}": at least `width` digits, and more when the value needs them.
  function FormatHex(value: nat, width: nat): bytes
    decreases value + width
  {
    if value == 0 && width == 0 then []
    else FormatHex(value / 16, if width == 0 then 0 else width - 1) + [HexDigit(value % 16)]
  }

  function ParseHex(s: bytes): Option<nat> {
    if s == [] then Some(0)
    else
      match (ParseHex(s[..|s| - 1]), HexValue(s[|s| - 1]))
      case (Some(high), Some(low)) => Some(16 * high + low)
      case _ => None
  }

  function Pow16(n: nat): nat {
    if n == 0 then 1 else 16 * Pow16(n - 1)
  }

  lemma DigitValue(d: nat)
    requires d < 16
    ensures HexValue(HexDigit(d)) == Some(d)
  {
  }

  lemma ParseHexSnoc(front: bytes, c: byte)
    ensures ParseHex(front + [c]) ==
            match (ParseHex(front), HexValue(c))
            case (Some(high), Some(low)) => Some(16 * high + low)
            case _ => None
  {
    hide HexValue;
    var s := front + [c];
    assert s[..|s| - 1] == front && s[|s| - 1] == c;
  }

  lemma {:induction false} ParseHexFormatHex(value: nat, width: nat)
    ensures ParseHex(FormatHex(value, width)) == Some(value)
    decreases value + width
  {
    if value != 0 || width != 0 {
      var w := if width == 0 then 0 else width - 1;
      assert FormatHex(value, width) == FormatHex(value / 16, w) + [HexDigit(value % 16)];
      hide HexDigit, HexValue, FormatHex, ParseHex;
      ParseHexFormatHex(value / 16, w);
      ParseHexSnoc(FormatHex(value / 16, w), HexDigit(value % 16));
      DigitValue(value % 16);
    }
  }

  // The printed field keeps its width exactly when the value is small enough for it.
  lemma {:induction false} FormatHexWidth(value: nat, width: nat)
    ensures |FormatHex(value, width)| == width <==> value < Pow16(width)
    ensures |FormatHex(value, width)| >= width
    decreases value + width
  {
    if value != 0 || width != 0 {
      FormatHexWidth(value / 16, if width == 0 then 0 else width - 1);
    }
  }

  lemma {:induction false} ParseHexBound(s: bytes)
    ensures ParseHex(s).Some? ==> ParseHex(s).value < Pow16(|s|)
  {
    if s != [] {
      ParseHexBound(s[..|s| - 1]);
    }
  }

  lemma Pow16OfEight()
    ensures Pow16(8) == FIELD_LIMIT
  {
    assert Pow16(4) == 0x1_0000;
    assert Pow16(8) == 16 * 16 * 16 * 16 * Pow16(4);
  }

  /* ---------- a run of fields, as it stands in a header ---------- */

  ghost predicate Fits(fields: seq<nat>) {
    forall i :: 0 <= i < |fields| ==> fields[i] < FIELD_LIMIT
  }

  function FormatFields(fields: seq<nat>): bytes {
    if fields == [] then [] else FormatHex(fields[0], 8) + FormatFields(fields[1..])
  }

  function ParseFields(s: bytes): Option<seq<nat>>
    requires |s| % 8 == 0
  {
    if s == [] then Some([])
    else
      match (ParseHex(s[..8]), ParseFields(s[8..]))
      case (Some(first), Some(rest)) => Some([first] + rest)
      case _ => None
  }

  lemma {:induction false} FormatFieldsParse(fields: seq<nat>)
    requires Fits(fields)
    ensures |FormatFields(fields)| == 8 * |fields|
    ensures ParseFields(FormatFields(fields)) == Some(fields)
    decreases |fields|
  {
    if fields != [] {
      Pow16OfEight();
      FormatHexWidth(fields[0], 8);
      ParseHexFormatHex(fields[0], 8);
      FormatFieldsParse(fields[1..]);
      var s := FormatFields(fields);
      assert s[..8] == FormatHex(fields[0], 8);
      assert s[8..] == FormatFields(fields[1..]);
      assert fields == [fields[0]] + fields[1..];
    }
  }

  lemma {:induction false} ParseFieldsFit(s: bytes)
    requires |s| % 8 == 0
    ensures ParseFields(s).Some? ==> |ParseFields(s).value| == |s| / 8 && Fits(ParseFields(s).value)
  {
    if s != [] {
      Pow16OfEight();
      ParseHexBound(s[..8]);
      ParseFieldsFit(s[8..]);
    }
  }

  // The i-th field stands at offset 8 * i.
  lemma {:induction false} FieldAt(fields: seq<nat>, i: nat)
    requires Fits(fields) && i < |fields|
    ensures |FormatFields(fields)| == 8 * |fields|
    ensures FormatFields(fields)[8 * i..8 * i + 8] == FormatHex(fields[i], 8)
    ensures ParseHex(FormatFields(fields)[8 * i..8 * i + 8]) == Some(fields[i])
    decreases |fields|
  {
    FormatFieldsParse(fields);
    ParseHexFormatHex(fields[i], 8);
    var s, more := FormatFields(fields), fields[1..];
    FirstField(fields);
    hide FormatHex, ParseHex, FormatFields, ParseFields;
    if i > 0 {
      FieldAt(more, i - 1);
      SliceBehind(s, 8, 8 * i);
    }
  }

  lemma SliceBehind(s: bytes, n: nat, at: nat)
    requires n <= at && at + 8 <= |s|
    ensures s[at..at + 8] == s[n..][at - n..at - n + 8]
  {
  }

  lemma FirstField(fields: seq<nat>)
    requires Fits(fields) && fields != []
    ensures |FormatFields(fields)| >= 8 && FormatFields(fields)[..8] == FormatHex(fields[0], 8)
    ensures FormatFields(fields)[8..] == FormatFields(fields[1..])
  {
    Pow16OfEight();
    FormatHexWidth(fields[0], 8);
  }
}

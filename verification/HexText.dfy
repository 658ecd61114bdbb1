/** Hexadecimal text, as Command mode carries values: written in full, read back without leading zeros. */
module HexText {
  import opened Base
  import opened AtTable

  /** Text is a sequence of ASCII codes. */
  type Text = seq<Byte>

  const ZERO: Byte := 0x30
  const UPPER_A: Byte := 0x41
  const LOWER_A: Byte := 0x61

  type Nibble = x: int | 0 <= x < 16

  /** The digit table. */
  function HexDigit(n: Nibble): (c: Byte) { if n < 10 then ZERO + n else UPPER_A + (n - 10) }

  /** `hex_digit_value`. */
  function DigitValue(c: Byte): (n: Option<Nibble>)
  {
    if ZERO <= c <= ZERO + 9 then Some(c - ZERO)
    else if LOWER_A <= c <= LOWER_A + 5 then Some(c - LOWER_A + 10)
    else if UPPER_A <= c <= UPPER_A + 5 then Some(c - UPPER_A + 10)
    else None
  }

  lemma DigitRoundTrip(n: Nibble)
    ensures DigitValue(HexDigit(n)) == Some(n)
  {
  }

  function EncodeHex(bytes: seq<Byte>): (text: Text)
    ensures |text| == 2 * |bytes|
  {
    if bytes == [] then []
    else
      var last := bytes[|bytes| - 1];
      EncodeHex(bytes[..|bytes| - 1]) + [HexDigit(last / 16), HexDigit(last % 16)]
  }

  /** The digits of a text; nothing if one of its characters is no digit. */
  function Digits(text: Text): (digits: Option<seq<Nibble>>)
    ensures digits.Some? ==> |digits.value| == |text|
  {
    if text == [] then Some([])
    else
      var before, last := Digits(text[..|text| - 1]), DigitValue(text[|text| - 1]);
      if before.None? || last.None? then None else Some(before.value + [last.value])
  }

  function Join(high: Nibble, low: Nibble): (b: Byte)
    ensures b / 16 == high && b % 16 == low
  {
    var shifted: int := high;
    16 * shifted + low
  }

  /** Digits in pairs from the right; an odd first digit is a byte of its own. */
  function Pairs(digits: seq<Nibble>): (bytes: seq<Byte>)
    ensures |bytes| == (|digits| + 1) / 2
  {
    var n := |digits|;
    if n == 0 then []
    else if n == 1 then [digits[0]]
    else Pairs(digits[..n - 2]) + [Join(digits[n - 2], digits[n - 1])]
  }

  predicate HasPrefix(text: Text) { |text| >= 2 && text[0] == ZERO && (text[1] == 0x78 || text[1] == 0x58) }

  function SkipPrefix(text: Text): (rest: Text) { if HasPrefix(text) then text[2..] else text }

  datatype Decoded = Value(bytes: seq<Byte>) | NotHex | WouldOverflow

  /** `byte_util_hex_decode`. */
  function DecodeHex(text: Text, cap: nat): (d: Decoded)
  {
    var rest := SkipPrefix(text);
    if rest == [] then NotHex
    else if (|rest| + 1) / 2 > cap then WouldOverflow
    else match Digits(rest)
      case None => NotHex
      case Some(digits) => Value(Pairs(digits))
  }

  function Number(digits: seq<Nibble>): (n: nat)
  {
    if digits == [] then 0 else 16 * Number(digits[..|digits| - 1]) + digits[|digits| - 1]
  }

  lemma NumberTwo(digits: seq<Nibble>)
    requires |digits| >= 2
    ensures var n := |digits|;
      Number(digits) == 256 * Number(digits[..n - 2]) + Join(digits[n - 2], digits[n - 1])
  {
    var n := |digits|;
    assert digits[..n - 1][..n - 2] == digits[..n - 2];
  }

  lemma {:induction false} PairsKeepNumber(digits: seq<Nibble>)
    ensures BigEndian(Pairs(digits)) == Number(digits)
  {
    var n := |digits|;
    if n == 1 {
      assert digits[..0] == [] && Number([]) == 0;
      assert Pairs(digits) == [digits[0]];
      BigEndianOne([], digits[0]);
    } else if n > 1 {
      var front := Pairs(digits[..n - 2]);
      PairsKeepNumber(digits[..n - 2]);
      NumberTwo(digits);
      BigEndianOne(front, Join(digits[n - 2], digits[n - 1]));
    }
  }

  lemma BigEndianOne(bytes: seq<Byte>, b: Byte)
    ensures BigEndian(bytes + [b]) == 256 * BigEndian(bytes) + b
  {
    assert (bytes + [b])[..|bytes|] == bytes;
  }

  // ---------------------------------------------------------------------------
  // Writing and reading back

  /** The digits of an encoded byte string. */
  function NibblesOf(bytes: seq<Byte>): (digits: seq<Nibble>)
    ensures |digits| == 2 * |bytes|
  {
    if bytes == [] then []
    else
      var last := bytes[|bytes| - 1];
      NibblesOf(bytes[..|bytes| - 1]) + [last / 16, last % 16]
  }

  lemma DigitsOne(text: Text, c: Byte)
    requires Digits(text).Some? && DigitValue(c).Some?
    ensures Digits(text + [c]) == Some(Digits(text).value + [DigitValue(c).value])
  {
    assert (text + [c])[..|text|] == text;
  }

  lemma DigitsTwo(text: Text, a: Byte, b: Byte)
    requires Digits(text).Some? && DigitValue(a).Some? && DigitValue(b).Some?
    ensures Digits(text + [a, b]) == Some(Digits(text).value + [DigitValue(a).value, DigitValue(b).value])
  {
    DigitsOne(text, a);
    DigitsOne(text + [a], b);
    assert text + [a, b] == text + [a] + [b];
    var digits, x, y := Digits(text).value, DigitValue(a).value, DigitValue(b).value;
    assert digits + [x, y] == digits + [x] + [y];
  }

  lemma {:induction false} EncodedDigits(bytes: seq<Byte>)
    ensures Digits(EncodeHex(bytes)) == Some(NibblesOf(bytes))
  {
    if bytes == [] {
    } else {
      var last := bytes[|bytes| - 1];
      EncodedDigits(bytes[..|bytes| - 1]);
      DigitRoundTrip(last / 16);
      DigitRoundTrip(last % 16);
      DigitsTwo(EncodeHex(bytes[..|bytes| - 1]), HexDigit(last / 16), HexDigit(last % 16));
    }
  }

  lemma PairsTwo(digits: seq<Nibble>, high: Nibble, low: Nibble)
    ensures Pairs(digits + [high, low]) == Pairs(digits) + [Join(high, low)]
  {
    assert (digits + [high, low])[..|digits|] == digits;
  }

  lemma {:induction false} PairsOfNibbles(bytes: seq<Byte>)
    ensures Pairs(NibblesOf(bytes)) == bytes
  {
    if bytes == [] {
    } else {
      var front, last := bytes[..|bytes| - 1], bytes[|bytes| - 1];
      PairsOfNibbles(front);
      PairsTwo(NibblesOf(front), last / 16, last % 16);
      assert Join(last / 16, last % 16) == last;
    }
  }

  /** Text of digits alone has no prefix to skip. */
  lemma DigitsHaveNoPrefix(text: Text)
    requires forall c :: c in text ==> DigitValue(c).Some?
    ensures !HasPrefix(text)
  {
    if |text| >= 2 {
      assert text[1] in text;
    }
  }

  lemma {:induction false} EncodedInDigits(bytes: seq<Byte>)
    ensures forall c :: c in EncodeHex(bytes) ==> DigitValue(c).Some?
  {
    if bytes == [] {
    } else {
      EncodedInDigits(bytes[..|bytes| - 1]);
    }
  }

  /** A value written in full reads back as itself. */
  lemma HexRoundTrip(bytes: seq<Byte>, cap: nat)
    requires bytes != [] && |bytes| <= cap
    ensures DecodeHex(EncodeHex(bytes), cap) == Value(bytes)
  {
    EncodedDigits(bytes);
    PairsOfNibbles(bytes);
    EncodedInDigits(bytes);
    DigitsHaveNoPrefix(EncodeHex(bytes));
  }

  // ---------------------------------------------------------------------------
  // Leading zeros

  /** Text without its leading zeros, but for the last digit. */
  function DropZeros(text: Text): (shorter: Text)
    ensures |shorter| <= |text| && (text != [] ==> shorter != [])
    decreases |text|
  {
    if |text| > 1 && text[0] == ZERO then DropZeros(text[1..]) else text
  }

  /** A value as the module prints it: uppercase, without leading zeros, zero as a single digit. */
  function Printed(bytes: seq<Byte>): (text: Text)
    ensures 1 <= |text| <= 2 * |bytes| + 1
  {
    if bytes == [] then [ZERO] else DropZeros(EncodeHex(bytes))
  }

  lemma {:induction false} LeadingZero(digits: seq<Nibble>)
    ensures Number([0] + digits) == Number(digits)
  {
    var all := [0] + digits;
    if digits == [] {
      assert all[..0] == [];
    } else {
      var init := digits[..|digits| - 1];
      assert all[..|digits|] == [0] + init && all[|digits|] == digits[|digits| - 1];
      LeadingZero(init);
    }
  }

  /** A text of digits is its first digit and the digits of the rest. */
  lemma {:induction false} DigitsTail(c: Byte, tail: Text)
    requires Digits([c] + tail).Some?
    ensures DigitValue(c).Some? && Digits(tail).Some?
    ensures Digits([c] + tail).value == [DigitValue(c).value] + Digits(tail).value
  {
    var text := [c] + tail;
    if tail == [] {
      assert text == [c] && text[..0] == [];
    } else {
      var init, last := tail[..|tail| - 1], tail[|tail| - 1];
      assert text[..|tail|] == [c] + init && text[|tail|] == last;
      DigitsTail(c, init);
      assert [DigitValue(c).value] + Digits(init).value + [DigitValue(last).value]
          == [DigitValue(c).value] + (Digits(init).value + [DigitValue(last).value]);
    }
  }

  /** Dropping the leading zeros keeps the number. */
  lemma {:induction false} DropZerosKeepsNumber(text: Text)
    requires text != [] && Digits(text).Some?
    ensures Digits(DropZeros(text)).Some?
    ensures Number(Digits(DropZeros(text)).value) == Number(Digits(text).value)
    decreases |text|
  {
    if |text| <= 1 || text[0] != ZERO {
    } else {
      assert text == [text[0]] + text[1..];
      DigitsTail(text[0], text[1..]);
      LeadingZero(Digits(text[1..]).value);
      DropZerosKeepsNumber(text[1..]);
    }
  }

  lemma {:induction false} DigitsAreDigits(text: Text)
    requires Digits(text).Some?
    ensures forall c :: c in text ==> DigitValue(c).Some?
  {
    if text == [] {
    } else {
      DigitsAreDigits(text[..|text| - 1]);
    }
  }

  lemma ZeroReadsBack(cap: nat)
    requires 1 <= cap
    ensures DecodeHex([ZERO], cap) == Value([0])
  {
    DigitsOne([], ZERO);
    assert [ZERO] == [] + [ZERO] && Digits([]) == Some([]);
  }

  /** The digits printed for a value are those of its number. */
  lemma PrintedDigits(bytes: seq<Byte>)
    requires bytes != []
    ensures var text := Printed(bytes);
      1 <= |text| <= 2 * |bytes| && Digits(text).Some? && Number(Digits(text).value) == BigEndian(bytes)
  {
    EncodedDigits(bytes);
    PairsOfNibbles(bytes);
    PairsKeepNumber(NibblesOf(bytes));
    DropZerosKeepsNumber(EncodeHex(bytes));
  }

  /** A printed value reads back as the same number, whatever was dropped. */
  lemma PrintedReadsBack(bytes: seq<Byte>, cap: nat)
    requires |bytes| <= cap && 1 <= cap
    ensures var d := DecodeHex(Printed(bytes), cap);
      d.Value? && BigEndian(d.bytes) == BigEndian(bytes) && |d.bytes| <= if bytes == [] then 1 else |bytes|
  {
    if bytes == [] {
      ZeroReadsBack(cap);
    } else {
      PrintedDigits(bytes);
      var text := Printed(bytes);
      PairsKeepNumber(Digits(text).value);
      DigitsAreDigits(text);
      DigitsHaveNoPrefix(text);
    }
  }

  // ---------------------------------------------------------------------------
  // Reply lines

  datatype LineType = Empty | OkLine | ErrorLine | FsError | ValueLine

  const OK_TEXT: Text := [0x4F, 0x4B]
  const ERROR_TEXT: Text := [0x45, 0x52, 0x52, 0x4F, 0x52]

  predicate CodeCharacter(c: Byte) { 0x41 <= c <= 0x5A || 0x30 <= c <= 0x39 }

  /** The index of the first character after the E that is no code character. */
  function CodeEnd(line: Text, i: nat): (end: nat)
    requires i <= |line|
    ensures i <= end <= |line|
    ensures forall k :: i <= k < end ==> CodeCharacter(line[k])
    ensures end < |line| ==> !CodeCharacter(line[end])
    decreases |line| - i
  {
    if i < |line| && CodeCharacter(line[i]) then CodeEnd(line, i + 1) else i
  }

  /** `xbee_cmd_mode_classify_line`. */
  function Classify(line: Text): (t: LineType)
  {
    if line == [] then Empty
    else if line == OK_TEXT then OkLine
    else if line == ERROR_TEXT then ErrorLine
    else if line[0] == 0x45 then
      var end := CodeEnd(line, 1);
      if end < |line| && line[end] == 0x20 && end > 1 then FsError else ValueLine
    else ValueLine
  }

  method ClassifyLine(line: array<Byte>, len: nat) returns (t: LineType)
    requires len <= line.Length
    ensures t == Classify(line[..len])
  {
    if len == 0 {
      return Empty;
    }
    if line[..len] == OK_TEXT {
      return OkLine;
    }
    if line[..len] == ERROR_TEXT {
      return ErrorLine;
    }
    if line[0] == 0x45 {
      for i := 1 to len
        invariant CodeEnd(line[..len], i) == CodeEnd(line[..len], 1)
      {
        if !CodeCharacter(line[i]) {
          return if line[i] == 0x20 && i > 1 then FsError else ValueLine;
        }
      }
    }
    t := ValueLine;
  }

  /** An `E`, a code of at least one character, and a space: how the File System commands report an error. */
  ghost predicate FileSystemError(text: Text)
  {
    text != [] && text[0] == 0x45 && exists n :: CodeThenSpace(text, n)
  }

  predicate CodeThenSpace(text: Text, n: int)
  {
    2 <= n < |text| && text[n] == 0x20 && forall k :: 1 <= k < n ==> CodeCharacter(text[k])
  }

  /** A text comes back as the value it is unless it reads as one of the four other kinds of line. */
  lemma TextComesBackExactly(text: Text)
    ensures Classify(text) == ValueLine
       <==> text != [] && text != OK_TEXT && text != ERROR_TEXT && !FileSystemError(text)
  {
    if text != [] && text[0] == 0x45 {
      var end := CodeEnd(text, 1);
      if n :| CodeThenSpace(text, n) {
        assert n == end;
      }
      if end < |text| && text[end] == 0x20 && end > 1 {
        assert CodeThenSpace(text, end);
      }
    }
  }

  /** No number reads as anything but a value. */
  lemma DigitsAreAValue(text: Text)
    requires text != []
    requires forall c :: c in text ==> DigitValue(c).Some?
    ensures Classify(text) == ValueLine
  {
    assert DigitValue(text[0]).Some? && (|text| > 1 ==> DigitValue(text[1]).Some?) by {
      assert text[0] in text;
      if |text| > 1 {
        assert text[1] in text;
      }
    }
    if text[0] == 0x45 {
      var end := CodeEnd(text, 1);
      if end < |text| {
        assert text[end] in text;
      }
    }
  }

  lemma PrintedIsDigits(bytes: seq<Byte>)
    ensures forall c :: c in Printed(bytes) ==> DigitValue(c).Some?
  {
    if bytes != [] {
      EncodedDigits(bytes);
      DropZerosKeepsNumber(EncodeHex(bytes));
      DigitsAreDigits(Printed(bytes));
    }
  }

  /**
   Replies are faithful: any numeric value of up to eight bytes, or byte value of up to 65, printed
   by the module and read back, is a value line that fits the line buffer and decodes to a value
   the table's comparison accepts as the same.
   */
  lemma RepliesAreFaithful(entry: Entry, bytes: seq<Byte>, cap: nat)
    requires (IsNumeric(entry.kind) && |bytes| <= 8) || (entry.kind.Bytes? && |bytes| <= 65)
    requires |bytes| <= cap && 1 <= cap
    ensures Classify(Printed(bytes)) == ValueLine && |Printed(bytes)| <= 160
    ensures var d := DecodeHex(Printed(bytes), cap); d.Value? && ValuesEqual(Some(entry), d.bytes, bytes)
  {
    PrintedReadsBack(bytes, cap);
    var d := DecodeHex(Printed(bytes), cap).bytes;
    if entry.kind.Bytes? {
      BytesEqualMeansSameNumber(entry, d, bytes);
    }
    PrintedIsDigits(bytes);
    DigitsAreAValue(Printed(bytes));
  }

  // ---------------------------------------------------------------------------
  // The loops

  /** `byte_util_hex_encode`: refused unless the text and its terminator fit. */
  method WriteHex(bytes: seq<Byte>, out: array<Byte>, at: nat, cap: nat) returns (ok: bool)
    requires at + cap <= out.Length
    modifies out
    ensures ok <==> 2 * |bytes| + 1 <= cap
    ensures ok ==> out[at..at + 2 * |bytes|] == EncodeHex(bytes) && out[at + 2 * |bytes|] == 0
    ensures out[..at] == old(out[..at]) && (!ok ==> out[..] == old(out[..]))
  {
    if 2 * |bytes| + 1 > cap {
      return false;
    }
    for i := 0 to |bytes|
      invariant out[at..at + 2 * i] == EncodeHex(bytes[..i])
      invariant out[..at] == old(out[..at])
    {
      assert bytes[..i + 1][..i] == bytes[..i];
      out[at + 2 * i] := HexDigit(bytes[i] / 16);
      out[at + 2 * i + 1] := HexDigit(bytes[i] % 16);
      assert out[at..at + 2 * (i + 1)] == out[at..at + 2 * i] + [HexDigit(bytes[i] / 16), HexDigit(bytes[i] % 16)];
    }
    assert bytes[..|bytes|] == bytes;
    out[at + 2 * |bytes|] := 0;
    ok := true;
  }

  /** Where byte `i` of a text of so many digits begins; an odd first digit is a byte of its own. */
  function Offset(count: nat, i: nat): (at: nat)
  {
    if i == 0 then 0 else (if count % 2 == 0 then 2 else 1) + 2 * (i - 1)
  }

  /** The bytes before `i` are decoded. */
  ghost predicate DecodedTo(rest: Text, i: nat, bytes: seq<Byte>)
  {
    var at := Offset(|rest|, i);
    at <= |rest| && Digits(rest[..at]).Some? && Pairs(Digits(rest[..at]).value) == bytes
  }

  lemma OffsetGrows(count: nat, i: nat)
    ensures var at, next := Offset(count, i), Offset(count, i + 1);
      at < next <= at + 2 && (next == at + 1 ==> i == 0)
  {
  }

  lemma DecodePair(rest: Text, at: nat)
    requires at + 2 <= |rest| && Digits(rest[..at]).Some?
    requires DigitValue(rest[at]).Some? && DigitValue(rest[at + 1]).Some?
    ensures var d := Digits(rest[..at + 2]);
      d.Some? && Pairs(d.value)
              == Pairs(Digits(rest[..at]).value) + [Join(DigitValue(rest[at]).value, DigitValue(rest[at + 1]).value)]
  {
    DigitsTwo(rest[..at], rest[at], rest[at + 1]);
    assert rest[..at + 2] == rest[..at] + [rest[at], rest[at + 1]];
    PairsTwo(Digits(rest[..at]).value, DigitValue(rest[at]).value, DigitValue(rest[at + 1]).value);
  }

  /** One more byte from one digit, the odd first one, or from two. */
  lemma DecodeOne(rest: Text, i: nat, bytes: seq<Byte>)
    requires DecodedTo(rest, i, bytes) && Offset(|rest|, i + 1) <= |rest|
    requires DigitValue(rest[Offset(|rest|, i)]).Some?
    requires DigitValue(rest[Offset(|rest|, i + 1) - 1]).Some?
    ensures var at, next := Offset(|rest|, i), Offset(|rest|, i + 1);
      var first, last := DigitValue(rest[at]).value, DigitValue(rest[next - 1]).value;
      DecodedTo(rest, i + 1, bytes + [if next == at + 1 then first else Join(first, last)])
  {
    OffsetGrows(|rest|, i);
    var at := Offset(|rest|, i);
    if Offset(|rest|, i + 1) == at + 1 {
      DigitsOne(rest[..0], rest[0]);
      assert rest[..1] == rest[..0] + [rest[0]];
    } else {
      DecodePair(rest, at);
    }
  }

  /** The byte of one digit, or of two. */
  method ReadOneByte(rest: Text, at: nat, next: nat) returns (b: Option<Byte>)
    requires at < next <= |rest| && next - at <= 2
    ensures b.None? ==> Digits(rest).None?
    ensures b.Some? ==> DigitValue(rest[at]).Some? && DigitValue(rest[next - 1]).Some?
    ensures b.Some? ==> var first, last := DigitValue(rest[at]).value, DigitValue(rest[next - 1]).value;
      b.value == if next == at + 1 then first else Join(first, last)
  {
    var value: int := 0;
    for k := at to next
      invariant k > at ==> DigitValue(rest[at]).Some?
      invariant k == next ==> DigitValue(rest[next - 1]).Some?
      invariant value == if k == at then 0
                         else if k == at + 1 then DigitValue(rest[at]).value
                         else Join(DigitValue(rest[at]).value, DigitValue(rest[at + 1]).value)
    {
      var digit := DigitValue(rest[k]);
      if digit.None? {
        BadDigitSpoils(rest, k);
        return None;
      }
      value := 16 * value + digit.value;
    }
    b := Some(value);
  }

  /** `byte_util_hex_decode`. */
  method ReadHexBytes(text: Text, out: array<Byte>, cap: nat) returns (d: Decoded)
    requires cap <= out.Length
    modifies out
    ensures d == DecodeHex(text, cap)
    ensures d.Value? ==> out[..|d.bytes|] == d.bytes
  {
    var rest := SkipPrefix(text);
    if rest == [] {
      return NotHex;
    }
    var count := (|rest| + 1) / 2;
    if count > cap {
      return WouldOverflow;
    }
    for i := 0 to count
      invariant DecodedTo(rest, i, out[..i])
    {
      var value := ReadOneByte(rest, Offset(|rest|, i), Offset(|rest|, i + 1));
      if value.None? {
        return NotHex;
      }
      DecodeOne(rest, i, out[..i]);
      out[i] := value.value;
      assert out[..i + 1] == out[..i] + [out[i]];
    }
    assert rest[..|rest|] == rest;
    d := Value(out[..count]);
  }

  datatype Scalar = Number64(n: nat) | BadText | TooWide

  function Power16(k: nat): (n: nat)
    ensures n >= 1
  {
    if k == 0 then 1 else 16 * Power16(k - 1)
  }

  /**
   `byte_util_hex_to_u64`, for a result of `width` digits: leading zeros do not count towards them.
   The firmware reads sixteen.
   */
  method ReadHex(text: Text, width: nat) returns (r: Scalar)
    ensures SkipPrefix(text) == [] ==> r == BadText
    ensures r.Number64? ==> Digits(SkipPrefix(text)).Some? && r.n == Number(Digits(SkipPrefix(text)).value)
    ensures r.Number64? ==> r.n < Power16(width)
    ensures SkipPrefix(text) != [] && Digits(SkipPrefix(text)).Some? ==>
      (r.Number64? <==> Number(Digits(SkipPrefix(text)).value) < Power16(width))
  {
    var rest := SkipPrefix(text);
    if rest == [] {
      return BadText;
    }
    var result: nat, significant: nat := 0, 0;
    for i := 0 to |rest|
      invariant significant <= width && ReadSoFar(rest, i, result, significant)
    {
      var digit := DigitValue(rest[i]);
      if digit.None? {
        BadDigitSpoils(rest, i);
        return BadText;
      }
      ReadOne(rest, i, result, significant);
      if significant > 0 || digit.value != 0 {
        significant := significant + 1;
        result := 16 * result + digit.value;
        if significant > width {
          ReadTooMany(rest, i + 1, result, significant, width);
          return TooWide;
        }
      }
    }
    ReadAll(rest, result, significant, width);
    r := Number64(result);
  }

  /** As the firmware reads: any text of digits whose number is below 2^64, and no other number. */
  method ReadHex64(text: Text) returns (r: Scalar)
    ensures r.Number64? ==> Digits(SkipPrefix(text)).Some? && r.n == Number(Digits(SkipPrefix(text)).value)
    ensures r.Number64? ==> r.n < 0x1_0000_0000_0000_0000
    ensures SkipPrefix(text) != [] && Digits(SkipPrefix(text)).Some? ==>
      (r.Number64? <==> Number(Digits(SkipPrefix(text)).value) < 0x1_0000_0000_0000_0000)
  {
    SixteenDigits();
    r := ReadHex(text, 16);
  }

  /** The digits up to `i` are read. */
  ghost predicate ReadSoFar(rest: Text, i: nat, result: nat, significant: nat)
    requires i <= |rest|
  {
    Digits(rest[..i]).Some? && result == Number(Digits(rest[..i]).value) && Width(result, significant)
  }

  lemma ReadOne(rest: Text, i: nat, result: nat, significant: nat)
    requires i < |rest| && ReadSoFar(rest, i, result, significant) && DigitValue(rest[i]).Some?
    ensures var digit := DigitValue(rest[i]).value;
      if significant > 0 || digit != 0 then ReadSoFar(rest, i + 1, 16 * result + digit, significant + 1)
      else ReadSoFar(rest, i + 1, result, significant)
  {
    var digit := DigitValue(rest[i]).value;
    assert rest[..i + 1] == rest[..i] + [rest[i]];
    DigitsOne(rest[..i], rest[i]);
    NumberOne(Digits(rest[..i]).value, digit);
    if significant > 0 || digit != 0 {
      WidthGrows(result, significant, digit);
    }
  }

  lemma ReadTooMany(rest: Text, i: nat, result: nat, significant: nat, width: nat)
    requires i <= |rest| && ReadSoFar(rest, i, result, significant) && significant == width + 1
    ensures Digits(rest).Some? ==> Number(Digits(rest).value) >= Power16(width)
  {
    WideIsLarge(result, width);
    if Digits(rest).Some? {
      LongerIsLarger(rest, i);
    }
  }

  lemma WideIsLarge(n: nat, width: nat)
    requires Width(n, width + 1)
    ensures Power16(width) <= n
  {
  }

  lemma ReadAll(rest: Text, result: nat, significant: nat, width: nat)
    requires ReadSoFar(rest, |rest|, result, significant) && significant <= width
    ensures Digits(rest).Some? && result == Number(Digits(rest).value) < Power16(width)
  {
    assert rest[..|rest|] == rest;
    PowerGrows16(significant, width);
  }

  /** A number of so many significant digits. */
  predicate Width(n: nat, significant: nat)
  {
    n < Power16(significant) && if significant == 0 then n == 0 else Power16(significant - 1) <= n
  }

  lemma WidthGrows(n: nat, significant: nat, digit: Nibble)
    requires Width(n, significant) && (significant > 0 || digit != 0)
    ensures Width(16 * n + digit, significant + 1)
  {
  }

  lemma NumberOne(digits: seq<Nibble>, digit: Nibble)
    ensures Number(digits + [digit]) == 16 * Number(digits) + digit
  {
    assert (digits + [digit])[..|digits|] == digits;
  }

  /** Sixteen digits are 64 bits. */
  lemma SixteenDigits()
    ensures Power16(16) == 0x1_0000_0000_0000_0000
  {
    assert Power16(4) == 0x1_0000;
    assert Power16(8) == 0x1_0000_0000;
    assert Power16(12) == 0x1_0000_0000_0000;
  }

  lemma {:induction false} PowerGrows16(small: nat, large: nat)
    requires small <= large
    ensures Power16(small) <= Power16(large)
  {
    if small == large {
    } else {
      PowerGrows16(small, large - 1);
    }
  }

  lemma {:induction false} BadDigitSpoils(text: Text, i: nat)
    requires i < |text| && DigitValue(text[i]).None?
    ensures Digits(text).None?
  {
    if i == |text| - 1 {
    } else {
      BadDigitSpoils(text[..|text| - 1], i);
    }
  }

  /** More digits never make a number smaller. */
  lemma {:induction false} LongerIsLarger(text: Text, k: nat)
    requires k <= |text| && Digits(text).Some?
    ensures Digits(text[..k]).Some? && Number(Digits(text[..k]).value) <= Number(Digits(text).value)
  {
    if k == |text| {
      assert text[..k] == text;
    } else {
      LongerIsLarger(text[..|text| - 1], k);
      assert text[..|text| - 1][..k] == text[..k];
      var digits := Digits(text).value;
      assert digits[..|digits| - 1] == Digits(text[..|text| - 1]).value;
    }
  }
}

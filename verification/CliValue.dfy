/** What the operator types, as a parameter's wire value, and the default written back. */
module CliValue {
  import opened Base
  import opened AtTable
  import opened HexText


  datatype Parsed = Wire(bytes: seq<Byte>) | Bad | NoRoom | NotSupported | NoDefault

  function Zeros(n: nat): (bytes: seq<Byte>)
    ensures |bytes| == n && forall i :: 0 <= i < n ==> bytes[i] == 0
  {
    seq(n, _ => 0)
  }

  /** `parse_padded`: the significant bytes, left padded to the parameter's width. */
  function ParsePadded(text: Text, width: nat, cap: nat): (p: Parsed)
  {
    if width > cap then NoRoom
    else match DecodeHex(text, VALUE_MAX)
      case NotHex => Bad
      case WouldOverflow => NoRoom
      case Value(decoded) =>
        var significant := Strip(decoded);
        if |significant| > width then NoRoom else Wire(Zeros(width - |significant|) + significant)
  }

  /** `cli_value_parse`. */
  function ParseValue(entry: Entry, text: Text, cap: nat): (p: Parsed)
  {
    if text == [] then Bad
    else if entry.kind.Exec? || entry.kind.Subcommand? then NotSupported
    else if IsNumeric(entry.kind) then ParsePadded(text, entry.maxLen, cap)
    else if entry.kind.Text? then (if |text| > entry.maxLen || |text| > cap then NoRoom else Wire(text))
    else match DecodeHex(text, if cap < entry.maxLen then cap else entry.maxLen)
      case NotHex => Bad
      case WouldOverflow => NoRoom
      case Value(decoded) => Wire(decoded)
  }

  /** `cli_value_default`. */
  function DefaultValue(entry: Entry, cap: nat): (p: Parsed)
  {
    if entry.noDefault then NoDefault
    else if entry.kind.Exec? || entry.kind.Subcommand? then NotSupported
    else if IsNumeric(entry.kind) then
      if entry.maxLen > cap then NoRoom else Wire(ToBigEndian(entry.default, entry.maxLen))
    else if entry.kind.Text? then (if cap < 1 then NoRoom else Wire([entry.default % 256]))
    else if entry.maxLen > cap then NoRoom else Wire(Zeros(entry.maxLen))
  }

  lemma {:induction false} ZerosAreZero(n: nat, rest: seq<Byte>)
    ensures BigEndian(Zeros(n) + rest) == BigEndian(rest)
  {
    if n == 0 {
      assert Zeros(0) + rest == rest;
    } else {
      BigEndianSplit([0], Zeros(n - 1) + rest);
      assert Zeros(n) + rest == [0] + (Zeros(n - 1) + rest);
      ZerosAreZero(n - 1, rest);
    }
  }

  /** A stripped byte string of more bytes is a larger number than fits in fewer. */
  lemma {:induction false} StrippedIsWide(bytes: seq<Byte>)
    requires bytes != [] && bytes[0] != 0
    ensures BigEndian(bytes) >= Power256(|bytes| - 1)
  {
    if |bytes| > 1 {
      StrippedIsWide(bytes[..|bytes| - 1]);
    } else {
      assert bytes[..0] == [];
    }
  }

  lemma StrippedFits(bytes: seq<Byte>, width: nat)
    requires bytes == [] || bytes[0] != 0
    ensures |bytes| <= width <==> BigEndian(bytes) < Power256(width)
  {
    if |bytes| > width {
      StrippedIsWide(bytes);
      PowerGrows(width, |bytes| - 1);
    } else {
      BigEndianBound(bytes);
      PowerGrows(|bytes|, width);
    }
  }

  /**
   What is typed keeps its value, at exactly the parameter's width: a number is accepted exactly
   when it fits, however many zeros it was typed with.
   */
  lemma TypedNumberIsKept(text: Text, width: nat, cap: nat)
    requires DecodeHex(text, VALUE_MAX).Value? && width <= cap
    ensures var decoded := DecodeHex(text, VALUE_MAX).bytes;
      var p := ParsePadded(text, width, cap);
      && (p.Wire? <==> BigEndian(decoded) < Power256(width))
      && (p.Wire? ==> |p.bytes| == width && BigEndian(p.bytes) == BigEndian(decoded))
      && (!p.Wire? ==> p == NoRoom)
  {
    var decoded := DecodeHex(text, VALUE_MAX).bytes;
    StripKeepsNumber(decoded);
    StrippedFits(Strip(decoded), width);
    if |Strip(decoded)| <= width {
      ZerosAreZero(width - |Strip(decoded)|, Strip(decoded));
    }
  }

  /** Typing a value as the module prints it gives back the value, under the table's comparison. */
  lemma TypedBack(entry: Entry, bytes: seq<Byte>, cap: nat)
    requires |bytes| <= entry.maxLen <= cap
    requires (IsNumeric(entry.kind) && entry.maxLen <= 8) || (entry.kind.Bytes? && 1 <= entry.maxLen <= VALUE_MAX)
    ensures var p := ParseValue(entry, Printed(bytes), cap); p.Wire? && ValuesEqual(Some(entry), p.bytes, bytes)
  {
    if entry.kind.Bytes? {
      RepliesAreFaithful(entry, bytes, entry.maxLen);
    } else {
      PrintedReadsBack(bytes, VALUE_MAX);
      BigEndianBound(bytes);
      PowerGrows(|bytes|, entry.maxLen);
      TypedNumberIsKept(Printed(bytes), entry.maxLen, cap);
    }
  }

  lemma {:induction false} LowBytes(n: nat, width: nat)
    ensures BigEndian(ToBigEndian(n, width)) < Power256(width)
    ensures BigEndian(ToBigEndian(n, width)) == n <==> n < Power256(width)
  {
    BigEndianBound(ToBigEndian(n, width));
    if n < Power256(width) {
      BigEndianOfWritten(n, width);
    }
  }

  /** What is written for the default is the default, exactly when the table's default fits the parameter. */
  lemma DefaultIsDefault(entry: Entry, cap: nat)
    requires DefaultValue(entry, cap).Wire? && (IsNumeric(entry.kind) ==> entry.maxLen <= 8)
    ensures IsDefault(Some(entry), DefaultValue(entry, cap).bytes) <==>
      (IsNumeric(entry.kind) ==> entry.default < Power256(entry.maxLen)) && (entry.kind.Text? ==> entry.default < 256)
  {
    if IsNumeric(entry.kind) {
      LowBytes(entry.default, entry.maxLen);
    }
  }

  // ---------------------------------------------------------------------------
  // The loops

  /** How many zero bytes a decoded value begins with. */
  method LeadingZeros(decoded: array<Byte>, count: nat) returns (first: nat)
    requires count <= decoded.Length
    ensures first <= count && decoded[first..count] == Strip(decoded[..count])
  {
    ghost var bytes := decoded[..count];
    first := 0;
    assert bytes[0..] == bytes;
    while first < count && decoded[first] == 0
      invariant first <= count && Strip(bytes[first..]) == Strip(bytes)
    {
      assert bytes[first..][1..] == bytes[first + 1..] && bytes[first] == decoded[first];
      first := first + 1;
    }
    assert first < count ==> bytes[first] == decoded[first];
    assert decoded[first..count] == bytes[first..];
  }

  /** The significant bytes, right-aligned behind zeros. */
  method RightAlign(decoded: array<Byte>, first: nat, count: nat, width: nat, out: array<Byte>)
    requires first <= count <= decoded.Length && count - first <= width <= out.Length && decoded != out
    modifies out
    ensures out[..width] == Zeros(width - (count - first)) + decoded[first..count]
  {
    var pad := width - (count - first);
    ghost var value := Zeros(pad) + decoded[first..count];
    for i := 0 to width
      invariant out[..i] == value[..i]
    {
      out[i] := if i < pad then 0 else decoded[first + i - pad];
      assert out[..i + 1] == out[..i] + [out[i]];
    }
  }

  method PutPadded(text: Text, width: nat, out: array<Byte>, cap: nat) returns (p: Parsed)
    requires cap <= out.Length
    modifies out
    ensures p == ParsePadded(text, width, cap)
    ensures p.Wire? ==> out[..width] == p.bytes
    ensures !p.Wire? ==> out[..] == old(out[..])
  {
    if width > cap {
      return NoRoom;
    }
    var decoded := new Byte[VALUE_MAX](_ => 0);
    var d := ReadHexBytes(text, decoded, VALUE_MAX);
    if !d.Value? {
      return if d.NotHex? then Bad else NoRoom;
    }
    var count := |d.bytes|;
    assert count <= VALUE_MAX;
    var first := LeadingZeros(decoded, count);
    ghost var significant := decoded[first..count];
    if count - first > width {
      return NoRoom;
    }
    RightAlign(decoded, first, count, width, out);
    p := Wire(out[..width]);
  }

  /** The default of a numeric parameter, least significant byte last. */
  method PutDefault(value: nat, width: nat, out: array<Byte>)
    requires width <= out.Length
    modifies out
    ensures out[..width] == ToBigEndian(value, width) && out[width..] == old(out[width..])
  {
    var rest := value;
    for i := 0 to width
      invariant ToBigEndian(value, width) == ToBigEndian(rest, width - i) + out[width - i..width]
      invariant out[width..] == old(out[width..])
    {
      ghost var done := out[width - i..width];
      out[width - 1 - i] := rest % 256;
      assert out[width - 1 - i..width] == [rest % 256] + done;
      assert ToBigEndian(rest, width - i) == ToBigEndian(rest / 256, width - i - 1) + [rest % 256];
      rest := rest / 256;
    }
    assert out[0..width] == out[..width];
  }
}

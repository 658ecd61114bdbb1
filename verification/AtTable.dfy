/**
 Looking up, checking and comparing AT parameter values.

 The command table itself is data: every result here holds for an arbitrary table of entries.
 */
module AtTable {
  import opened Base

  const VALUE_MAX := 65

  datatype ValueType = Exec | U8 | U16 | U32 | U64 | Bitmap | Text | Bytes | Subcommand

  datatype Entry = Entry(
    id: nat,
    kind: ValueType,
    readOnly: bool,
    writeOnly: bool,
    commandModeOnly: bool,
    noDefault: bool,
    maxLen: nat,
    min: nat,
    max: nat,
    default: nat
  )

  datatype Check = Accepted | NotFound | Permission | InvalidParameter | InvalidRange

  predicate IsNumeric(kind: ValueType)
  {
    kind.U8? || kind.U16? || kind.U32? || kind.U64? || kind.Bitmap?
  }

  /** The first entry with an identifier. */
  function Find(entries: seq<Entry>, id: nat): (entry: Option<Entry>)
  {
    if entries == [] then None
    else if entries[0].id == id then Some(entries[0])
    else Find(entries[1..], id)
  }

  method FindEntry(entries: seq<Entry>, id: nat) returns (entry: Option<Entry>)
    ensures entry == Find(entries, id)
    ensures entry.Some? ==> entry.value in entries && entry.value.id == id
    ensures entry.None? ==> forall e :: e in entries ==> e.id != id
  {
    for i := 0 to |entries|
      invariant forall k :: 0 <= k < i ==> entries[k].id != id
      invariant Find(entries[i..], id) == Find(entries, id)
    {
      if entries[i].id == id {
        return Some(entries[i]);
      }
      assert entries[i..][1..] == entries[i + 1..];
    }
    entry := None;
  }

  /** The value of at most eight big-endian bytes; longer input is refused. */
  function ToU64(bytes: seq<Byte>): (n: Option<nat>)
  {
    if |bytes| > 8 then None else Some(BigEndian(bytes))
  }

  /** `byte_util_be_to_u64`. */
  method ReadU64(bytes: seq<Byte>) returns (n: Option<nat>)
    ensures n == ToU64(bytes)
    ensures n.Some? ==> n.value < 0x1_0000_0000_0000_0000
  {
    if |bytes| > 8 {
      return None;
    }
    var result: nat := 0;
    for i := 0 to |bytes|
      invariant result == BigEndian(bytes[..i])
    {
      assert bytes[..i + 1][..i] == bytes[..i];
      result := result * 256 + bytes[i];
    }
    assert bytes[..|bytes|] == bytes;
    BigEndianBound(bytes);
    PowerGrows(|bytes|, 8);
    assert Power256(8) == 0x1_0000_0000_0000_0000;
    n := Some(result);
  }

  lemma {:induction false} PowerGrows(small: nat, large: nat)
    requires small <= large
    ensures Power256(small) <= Power256(large)
  {
    if small == large {
    } else {
      PowerGrows(small, large - 1);
    }
  }

  /** A byte string without its leading zero bytes. */
  function Strip(bytes: seq<Byte>): (stripped: seq<Byte>)
    ensures stripped == [] || stripped[0] != 0
  {
    if bytes != [] && bytes[0] == 0 then Strip(bytes[1..]) else bytes
  }

  lemma {:induction false} StripKeepsNumber(bytes: seq<Byte>)
    ensures BigEndian(Strip(bytes)) == BigEndian(bytes)
  {
    if bytes == [] || bytes[0] != 0 {
    } else {
      assert bytes == [0] + bytes[1..];
      BigEndianSplit([0], bytes[1..]);
      StripKeepsNumber(bytes[1..]);
    }
  }

  /** A number fixes the stripped bytes: two stripped strings with one value are one string. */
  lemma {:induction false} StrippedIsCanonical(a: seq<Byte>, b: seq<Byte>)
    requires a == [] || a[0] != 0
    requires b == [] || b[0] != 0
    requires BigEndian(a) == BigEndian(b)
    ensures a == b
  {
    if a == [] || b == [] {
      NonZeroHead(a);
      NonZeroHead(b);
    } else {
      var a', b' := a[..|a| - 1], b[..|b| - 1];
      assert a[|a| - 1] == b[|b| - 1] && BigEndian(a') == BigEndian(b');
      StrippedIsCanonical(a', b');
      assert a == a' + [a[|a| - 1]] && b == b' + [b[|b| - 1]];
    }
  }

  lemma {:induction false} NonZeroHead(bytes: seq<Byte>)
    requires bytes == [] || bytes[0] != 0
    ensures bytes != [] ==> BigEndian(bytes) > 0
  {
    if |bytes| <= 1 {
    } else {
      NonZeroHead(bytes[..|bytes| - 1]);
    }
  }

  // ---------------------------------------------------------------------------
  // Comparison

  /** `xbee_at_table_values_equal`. */
  function ValuesEqual(entry: Option<Entry>, a: seq<Byte>, b: seq<Byte>): (same: bool)
  {
    if entry.None? then false
    else if IsNumeric(entry.value.kind) then
      ToU64(a).Some? && ToU64(b).Some? && ToU64(a) == ToU64(b)
    else if entry.value.kind.Bytes? then Strip(a) == Strip(b)
    else a == b
  }

  /** `xbee_at_table_is_default`. */
  function IsDefault(entry: Option<Entry>, value: seq<Byte>): (yes: bool)
  {
    if entry.None? || entry.value.noDefault then false
    else if IsNumeric(entry.value.kind) then ToU64(value) == Some(entry.value.default)
    else if entry.value.kind.Text? then |value| == 1 && value[0] == entry.value.default
    else if entry.value.kind.Bytes? then forall i :: 0 <= i < |value| ==> value[i] == 0
    else false
  }

  lemma EqualIsSymmetric(entry: Option<Entry>, a: seq<Byte>, b: seq<Byte>)
    requires ValuesEqual(entry, a, b)
    ensures ValuesEqual(entry, b, a)
    ensures ValuesEqual(entry, a, a) && ValuesEqual(entry, b, b)
  {
  }

  lemma EqualIsTransitive(entry: Option<Entry>, a: seq<Byte>, b: seq<Byte>, c: seq<Byte>)
    requires ValuesEqual(entry, a, b) && ValuesEqual(entry, b, c)
    ensures ValuesEqual(entry, a, c)
  {
  }

  lemma {:induction false} StripOfZeros(value: seq<Byte>)
    requires forall i :: 0 <= i < |value| ==> value[i] == 0
    ensures Strip(value) == []
  {
    if value == [] {
    } else {
      StripOfZeros(value[1..]);
    }
  }

  /** All the values that count as an entry's default are one value. */
  lemma DefaultsAreOneValue(entry: Option<Entry>, a: seq<Byte>, b: seq<Byte>)
    requires IsDefault(entry, a) && IsDefault(entry, b)
    ensures ValuesEqual(entry, a, b)
  {
    if entry.value.kind.Bytes? {
      StripOfZeros(a);
      StripOfZeros(b);
    }
  }

  /** Conversely a value equal to the default is itself the default, so defaults are a whole class. */
  lemma DefaultIsAClass(entry: Option<Entry>, a: seq<Byte>, b: seq<Byte>)
    requires IsDefault(entry, a) && ValuesEqual(entry, a, b)
    ensures IsDefault(entry, b)
  {
    if entry.value.kind.Bytes? {
      StripOfZeros(a);
      OnlyZerosStripAway(b);
    }
  }

  lemma {:induction false} OnlyZerosStripAway(value: seq<Byte>)
    requires Strip(value) == []
    ensures forall i :: 0 <= i < |value| ==> value[i] == 0
  {
    if value == [] {
    } else {
      OnlyZerosStripAway(value[1..]);
      assert forall i :: 0 < i < |value| ==> value[i] == value[1..][i - 1];
    }
  }

  /** For byte parameters, equal means equal as unbounded big-endian integers. */
  lemma BytesEqualMeansSameNumber(entry: Entry, a: seq<Byte>, b: seq<Byte>)
    requires entry.kind.Bytes?
    ensures ValuesEqual(Some(entry), a, b) <==> BigEndian(a) == BigEndian(b)
  {
    StripKeepsNumber(a);
    StripKeepsNumber(b);
    if BigEndian(a) == BigEndian(b) {
      StrippedIsCanonical(Strip(a), Strip(b));
    }
  }

  /** The comparison with its two stripping loops. */
  method CompareValues(entry: Option<Entry>, a: seq<Byte>, b: seq<Byte>) returns (same: bool)
    ensures same == ValuesEqual(entry, a, b)
  {
    if entry.None? {
      return false;
    }
    if IsNumeric(entry.value.kind) {
      var left := ReadU64(a);
      if left.None? {
        return false;
      }
      var right := ReadU64(b);
      if right.None? {
        return false;
      }
      return left == right;
    }
    var left, right := a, b;
    if entry.value.kind.Bytes? {
      while left != [] && left[0] == 0
        invariant Strip(left) == Strip(a)
      {
        left := left[1..];
      }
      while right != [] && right[0] == 0
        invariant Strip(right) == Strip(b)
      {
        right := right[1..];
      }
    }
    same := left == right;
  }

  method CheckDefault(entry: Option<Entry>, value: seq<Byte>) returns (yes: bool)
    ensures yes == IsDefault(entry, value)
  {
    if entry.None? || entry.value.noDefault {
      return false;
    }
    if IsNumeric(entry.value.kind) {
      var scalar := ReadU64(value);
      return scalar == Some(entry.value.default);
    }
    if entry.value.kind.Text? {
      return |value| == 1 && value[0] == entry.value.default;
    }
    if entry.value.kind.Bytes? {
      for i := 0 to |value|
        invariant forall k :: 0 <= k < i ==> value[k] == 0
      {
        if value[i] != 0 {
          return false;
        }
      }
      return true;
    }
    yes := false;
  }

  // ---------------------------------------------------------------------------
  // Checks made before a request is sent

  /** `xbee_at_table_validate_get`. */
  function ValidateGet(entries: seq<Entry>, id: nat): (c: Check)
  {
    match Find(entries, id)
    case None => NotFound
    case Some(e) => if e.writeOnly || e.kind.Exec? then Permission else Accepted
  }

  /** `xbee_at_table_validate_set`. */
  function ValidateSet(entries: seq<Entry>, id: nat, value: seq<Byte>): (c: Check)
  {
    match Find(entries, id)
    case None => NotFound
    case Some(e) =>
      if e.readOnly then Permission
      else match e.kind
        case Exec => if |value| != 0 then InvalidParameter else Accepted
        case Text | Bytes | Subcommand => if |value| > e.maxLen then InvalidParameter else Accepted
        case U64 => if |value| == 0 || |value| > e.maxLen then InvalidParameter else Accepted
        case _ =>
          if |value| == 0 || |value| > e.maxLen then InvalidParameter
          else match ToU64(value)
            case None => InvalidParameter
            case Some(n) => if n < e.min || n > e.max then InvalidRange else Accepted
  }

  /** A table the firmware could carry: no numeric parameter is wider than eight bytes. */
  predicate WellFormed(entries: seq<Entry>)
  {
    forall e :: e in entries && IsNumeric(e.kind) ==> e.maxLen <= 8
  }

  lemma {:induction false} FoundIsInTable(entries: seq<Entry>, id: nat)
    ensures Find(entries, id).Some? ==> Find(entries, id).value in entries
  {
    if entries == [] || entries[0].id == id {
    } else {
      FoundIsInTable(entries[1..], id);
    }
  }

  /** A value that may be written is comparable: it equals itself under the table's comparison. */
  lemma SettableIsComparable(entries: seq<Entry>, id: nat, value: seq<Byte>)
    requires WellFormed(entries)
    requires ValidateSet(entries, id, value) == Accepted
    ensures ValuesEqual(Find(entries, id), value, value)
  {
    FoundIsInTable(entries, id);
  }
}

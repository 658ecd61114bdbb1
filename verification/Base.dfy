/** Values shared by every module: bytes, optional results and big-endian numbers. */
module Base {

  /** A `uint8_t`. */
  type Byte = x: int | 0 <= x < 256

  datatype Option<+T> = None | Some(value: T)

  /** The unbounded big-endian number a byte string denotes. */
  function BigEndian(bytes: seq<Byte>): (n: nat)
  {
    if bytes == [] then 0
    else BigEndian(bytes[..|bytes| - 1]) * 256 + bytes[|bytes| - 1]
  }

  function Power256(k: nat): (n: nat)
    ensures n >= 1
  {
    if k == 0 then 1 else 256 * Power256(k - 1)
  }

  /** The low `width` bytes of a number, most significant first. */
  function ToBigEndian(n: nat, width: nat): (bytes: seq<Byte>)
    ensures |bytes| == width
  {
    if width == 0 then [] else ToBigEndian(n / 256, width - 1) + [n % 256]
  }

  lemma {:induction false} BigEndianBound(bytes: seq<Byte>)
    ensures BigEndian(bytes) < Power256(|bytes|)
  {
    if bytes == [] {
    } else {
      BigEndianBound(bytes[..|bytes| - 1]);
    }
  }

  /** Writing a number big-endian and reading it back keeps its low bytes. */
  lemma {:induction false} BigEndianOfWritten(n: nat, width: nat)
    requires n < Power256(width)
    ensures BigEndian(ToBigEndian(n, width)) == n
  {
    if width == 0 {
    } else {
      var bytes := ToBigEndian(n, width);
      assert bytes[..|bytes| - 1] == ToBigEndian(n / 256, width - 1);
      BigEndianOfWritten(n / 256, width - 1);
    }
  }

  /** Reading a byte string as a number and writing it back at the same width is the identity. */
  lemma {:induction false} WrittenOfBigEndian(bytes: seq<Byte>)
    ensures ToBigEndian(BigEndian(bytes), |bytes|) == bytes
  {
    if bytes == [] {
    } else {
      WrittenOfBigEndian(bytes[..|bytes| - 1]);
    }
  }

  lemma ShiftedSplit(a: nat, power: nat, b: nat)
    ensures (a * power + b) * 256 == a * (256 * power) + b * 256
  {
  }

  /** A number is its high part, shifted by the width of its low part, and its low part. */
  lemma {:induction false} BigEndianSplit(high: seq<Byte>, low: seq<Byte>)
    ensures BigEndian(high + low) == BigEndian(high) * Power256(|low|) + BigEndian(low)
  {
    if low == [] {
      assert high + low == high;
    } else {
      var all := high + low;
      var init := low[..|low| - 1];
      assert all[..|all| - 1] == high + init;
      assert all[|all| - 1] == low[|low| - 1];
      BigEndianSplit(high, init);
      ShiftedSplit(BigEndian(high), Power256(|init|), BigEndian(init));
    }
  }
}

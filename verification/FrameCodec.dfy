/**
 API frames: their fields, the frame data they become, and what frame data decodes to.

 A frame is the value the C union holds, so a block is its bytes and a null block with a length,
 which the source refuses, cannot be written down.
 */
module FrameCodec {
  import opened Base
  import opened Bits

  const MAX_DATA := 256
  const MAX_PAYLOAD := 116
  const MAX_PASSWORD := 64

  type Word16 = x: int | 0 <= x < 0x1_0000
  type Word64 = x: int | 0 <= x < 0x1_0000_0000_0000_0000

  datatype IoSample = IoSample(
    sampleCount: Byte,
    digitalMask: nat,
    analogMask: nat,
    digitalValues: nat,
    analogValues: seq<Byte>
  )

  datatype Frame =
    // Host to module.
    | Tx64(id: Byte, dest64: Word64, options: Byte, data: seq<Byte>)
    | Tx16(id: Byte, dest16: Word16, options: Byte, data: seq<Byte>)
    | At(queued: bool, id: Byte, command: Word16, data: seq<Byte>)
    | TxRequest(id: Byte, dest64: Word64, reserved: Word16, radius: Byte, options: Byte, data: seq<Byte>)
    | ExplicitTx(id: Byte, dest64: Word64, reserved: Word16, source: Byte, destination: Byte, cluster: Word16,
                 profile: Word16, radius: Byte, options: Byte, data: seq<Byte>)
    | RemoteAt(id: Byte, dest64: Word64, reserved: Word16, options: Byte, command: Word16, data: seq<Byte>)
    | BleUnlock(step: Byte, data: seq<Byte>)
    | UserRelay(id: Byte, interface: Byte, data: seq<Byte>)
    | SecureControl(dest64: Word64, options: Byte, timeout: Word16, data: seq<Byte>)
    // Module to host.
    | Rx64(source64: Word64, rssi: Byte, options: Byte, data: seq<Byte>)
    | Rx16(source16: Word16, rssi: Byte, options: Byte, data: seq<Byte>)
    | Io64(source64: Word64, rssi: Byte, options: Byte, sample: IoSample)
    | Io16(source16: Word16, rssi: Byte, options: Byte, sample: IoSample)
    | AtResponse(id: Byte, command: Word16, status: Byte, data: seq<Byte>)
    | TxStatus(id: Byte, status: Byte)
    | ModemStatus(status: Byte)
    | ExtTxStatus(id: Byte, reserved: Word16, retries: Byte, status: Byte, discovery: Byte)
    | Rx(source64: Word64, source16: Word16, options: Byte, data: seq<Byte>)
    | ExplicitRx(source64: Word64, reserved: Word16, source: Byte, destination: Byte, cluster: Word16,
                 profile: Word16, options: Byte, data: seq<Byte>)
    | IoSampleFrame(source64: Word64, reserved: Word16, options: Byte, sample: IoSample)
    | RemoteAtResponse(id: Byte, source64: Word64, reserved: Word16, command: Word16, status: Byte, data: seq<Byte>)
    | ExtModemStatus(status: Byte, data: seq<Byte>)
    | BleUnlockResponse(step: Byte, data: seq<Byte>)
    | UserRelayOutput(interface: Byte, data: seq<Byte>)
    | SecureResponse(kind: Byte, source64: Word64, status: Byte)
    // Anything else, carried through unchanged.
    | Raw(frameType: Byte, data: seq<Byte>)

  datatype Measure = Length(n: nat) | NotSupported | InvalidParameter | WouldOverflow

  function Fits(total: nat): (m: Measure)
  {
    if total > MAX_DATA then WouldOverflow else Length(total)
  }

  function FitsPayload(fixed: nat, payload: nat, limit: nat): (m: Measure)
  {
    if payload > limit then InvalidParameter else Fits(fixed + payload)
  }

  /** `frame_data_len`: the length announced for a frame, or why it cannot be sent. */
  function DataLen(f: Frame): (m: Measure)
  {
    match f
    case Raw(_, data) => Fits(1 + |data|)
    case Tx64(_, _, _, data) => FitsPayload(11, |data|, MAX_PAYLOAD)
    case Tx16(_, _, _, data) => FitsPayload(5, |data|, MAX_PAYLOAD)
    case At(_, _, _, data) => Fits(4 + |data|)
    case TxRequest(_, _, _, _, _, data) => FitsPayload(14, |data|, MAX_PAYLOAD)
    case ExplicitTx(_, _, _, _, _, _, _, _, _, data) => FitsPayload(20, |data|, MAX_PAYLOAD)
    case RemoteAt(_, _, _, _, _, data) => Fits(15 + |data|)
    case BleUnlock(_, data) => Fits(2 + |data|)
    case UserRelay(_, _, data) => Fits(3 + |data|)
    case SecureControl(_, _, _, data) => FitsPayload(12, |data|, MAX_PASSWORD)
    case _ => NotSupported
  }

  function Be16(v: Word16): (bytes: seq<Byte>)
    ensures |bytes| == 2
  {
    ToBigEndian(v, 2)
  }

  function Be64(v: Word64): (bytes: seq<Byte>)
    ensures |bytes| == 8
  {
    ToBigEndian(v, 8)
  }

  /** `write_frame_data`: the bytes of a frame the host may send. */
  function FrameData(f: Frame): (bytes: seq<Byte>)
    requires !DataLen(f).NotSupported?
  {
    match f
    case Raw(frameType, data) => [frameType] + data
    case Tx64(id, dest, options, data) => [0x00, id] + Be64(dest) + [options] + data
    case Tx16(id, dest, options, data) => [0x01, id] + Be16(dest) + [options] + data
    case At(queued, id, command, data) => [if queued then 0x09 else 0x08, id] + Be16(command) + data
    case TxRequest(id, dest, reserved, radius, options, data) =>
      [0x10, id] + Be64(dest) + Be16(reserved) + [radius, options] + data
    case ExplicitTx(id, dest, reserved, source, destination, cluster, profile, radius, options, data) =>
      [0x11, id] + Be64(dest) + Be16(reserved) + [source, destination] + Be16(cluster) + Be16(profile)
      + [radius, options] + data
    case RemoteAt(id, dest, reserved, options, command, data) =>
      [0x17, id] + Be64(dest) + Be16(reserved) + [options] + Be16(command) + data
    case BleUnlock(step, data) => [0x2C, step] + data
    case UserRelay(id, interface, data) => [0x2D, id, interface] + data
    case SecureControl(dest, options, timeout, data) => [0x2E] + Be64(dest) + [options] + Be16(timeout) + data
  }

  /** The length announced on the wire is exactly the number of frame data bytes written. */
  lemma AnnouncedIsWritten(f: Frame)
    requires DataLen(f).Length?
    ensures |FrameData(f)| == DataLen(f).n && 1 <= DataLen(f).n <= MAX_DATA
  {
  }

  // ---------------------------------------------------------------------------
  // Decoding

  function Read16(data: seq<Byte>, at: nat): (v: Word16)
    requires at + 2 <= |data|
  {
    var high: int := data[at];
    high * 256 + data[at + 1]
  }

  function Read32(data: seq<Byte>, at: nat): (v: nat)
    requires at + 4 <= |data|
    ensures v < 0x1_0000_0000
  {
    Read16(data, at) * 0x1_0000 + Read16(data, at + 2)
  }

  function Read64(data: seq<Byte>, at: nat): (v: Word64)
    requires at + 8 <= |data|
  {
    Read32(data, at) * 0x1_0000_0000 + Read32(data, at + 4)
  }

  /** Number of set bits. */
  function PopCount(value: nat): (count: nat)
  {
    if value == 0 then 0 else value % 2 + PopCount(value / 2)
  }

  /** The trailing sample block of the I/O frames; nothing if it is truncated. */
  function DecodeIoSample(data: seq<Byte>, offset: nat, legacy: bool): (sample: Option<IoSample>)
    requires offset <= |data|
  {
    if offset + 1 + (if legacy then 2 else 3) > |data| then None
    else
      var mask := Read16(data, offset + 1);
      var digitalMask := if legacy then And(mask, 0x01FF) else mask;
      var analogMask := if legacy then And(mask / 0x200, 0x0F) else data[offset + 3];
      var at := offset + if legacy then 3 else 4;
      if digitalMask != 0 && at + 2 > |data| then None
      else
        var digital := if digitalMask != 0 then Read16(data, at) else 0;
        var start := if digitalMask != 0 then at + 2 else at;
        var length := 2 * PopCount(analogMask);
        if start + length > |data| then None
        else Some(IoSample(data[offset], digitalMask, analogMask, digital, data[start..start + length]))
  }

  function WithSample(sample: Option<IoSample>, make: IoSample -> Frame): (f: Option<Frame>)
  {
    match sample
    case None => None
    case Some(s) => Some(make(s))
  }

  /** The shortest frame data of a documented type. */
  function Shortest(frameType: Byte): (n: Option<nat>)
  {
    match frameType
    case 0x00 => Some(11)
    case 0x01 => Some(5)
    case 0x08 => Some(4)
    case 0x09 => Some(4)
    case 0x10 => Some(14)
    case 0x11 => Some(20)
    case 0x17 => Some(15)
    case 0x2C => Some(2)
    case 0x2D => Some(3)
    case 0x2E => Some(12)
    case 0x80 => Some(11)
    case 0x81 => Some(5)
    case 0x82 => Some(11)
    case 0x83 => Some(5)
    case 0x88 => Some(5)
    case 0x89 => Some(3)
    case 0x8A => Some(2)
    case 0x8B => Some(7)
    case 0x90 => Some(12)
    case 0x91 => Some(18)
    case 0x92 => Some(12)
    case 0x97 => Some(15)
    case 0x98 => Some(2)
    case 0xAC => Some(2)
    case 0xAD => Some(2)
    case 0xAE => Some(11)
    case _ => None
  }

  predicate Documented(frameType: Byte) { Shortest(frameType).Some? }

  /** `xbee_frame_decode`: nothing when the data is too short for its type. */
  function Decode(d: seq<Byte>): (f: Option<Frame>)
  {
    if d == [] || (Documented(d[0]) && |d| < Shortest(d[0]).value) then None
    else match d[0]
      case 0x00 => Some(Tx64(d[1], Read64(d, 2), d[10], d[11..]))
      case 0x01 => Some(Tx16(d[1], Read16(d, 2), d[4], d[5..]))
      case 0x08 => Some(At(false, d[1], Read16(d, 2), d[4..]))
      case 0x09 => Some(At(true, d[1], Read16(d, 2), d[4..]))
      case 0x10 => Some(TxRequest(d[1], Read64(d, 2), Read16(d, 10), d[12], d[13], d[14..]))
      case 0x11 =>
        Some(ExplicitTx(d[1], Read64(d, 2), Read16(d, 10), d[12], d[13], Read16(d, 14), Read16(d, 16),
                        d[18], d[19], d[20..]))
      case 0x17 => Some(RemoteAt(d[1], Read64(d, 2), Read16(d, 10), d[12], Read16(d, 13), d[15..]))
      case 0x2C => Some(BleUnlock(d[1], d[2..]))
      case 0x2D => Some(UserRelay(d[1], d[2], d[3..]))
      case 0x2E => Some(SecureControl(Read64(d, 1), d[9], Read16(d, 10), d[12..]))
      case 0x80 => Some(Rx64(Read64(d, 1), d[9], d[10], d[11..]))
      case 0x81 => Some(Rx16(Read16(d, 1), d[3], d[4], d[5..]))
      case 0x82 => WithSample(DecodeIoSample(d, 11, true), s => Io64(Read64(d, 1), d[9], d[10], s))
      case 0x83 => WithSample(DecodeIoSample(d, 5, true), s => Io16(Read16(d, 1), d[3], d[4], s))
      case 0x88 => Some(AtResponse(d[1], Read16(d, 2), d[4], d[5..]))
      case 0x89 => Some(TxStatus(d[1], d[2]))
      case 0x8A => Some(ModemStatus(d[1]))
      case 0x8B => Some(ExtTxStatus(d[1], Read16(d, 2), d[4], d[5], d[6]))
      case 0x90 => Some(Rx(Read64(d, 1), Read16(d, 9), d[11], d[12..]))
      case 0x91 =>
        Some(ExplicitRx(Read64(d, 1), Read16(d, 9), d[11], d[12], Read16(d, 13), Read16(d, 15), d[17], d[18..]))
      case 0x92 =>
        WithSample(DecodeIoSample(d, 12, false), s => IoSampleFrame(Read64(d, 1), Read16(d, 9), d[11], s))
      case 0x97 => Some(RemoteAtResponse(d[1], Read64(d, 2), Read16(d, 10), Read16(d, 12), d[14], d[15..]))
      case 0x98 => Some(ExtModemStatus(d[1], d[2..]))
      case 0xAC => Some(BleUnlockResponse(d[1], d[2..]))
      case 0xAD => Some(UserRelayOutput(d[1], d[2..]))
      case 0xAE => Some(SecureResponse(d[1], Read64(d, 2), d[10]))
      case _ => Some(Raw(d[0], d[1..]))
  }

  // ---------------------------------------------------------------------------
  // Round trip

  /** Reading the fixed width field is the general big-endian value. */
  lemma {:induction false} Be64IsRead(v: Word64)
    ensures Read64(Be64(v), 0) == v
  {
    BigEndianOfWritten(v, 8) by {
      assert Power256(4) == 0x1_0000_0000;
      assert Power256(8) == 0x1_0000_0000_0000_0000;
    }
    Read64IsBigEndian(Be64(v));
  }

  lemma Read64IsBigEndian(bytes: seq<Byte>)
    requires |bytes| == 8
    ensures Read64(bytes, 0) == BigEndian(bytes)
  {
    var high, low := bytes[..4], bytes[4..];
    assert bytes == high + low;
    BigEndianSplit(high, low);
    assert Power256(4) == 0x1_0000_0000;
    Read32IsBigEndian(high);
    Read32IsBigEndian(low);
  }

  lemma Read32IsBigEndian(bytes: seq<Byte>)
    requires |bytes| == 4
    ensures Read32(bytes, 0) == BigEndian(bytes)
  {
    var high, low := bytes[..2], bytes[2..];
    assert bytes == high + low;
    BigEndianSplit(high, low);
    assert Power256(2) == 0x1_0000;
    Read16IsBigEndian(high);
    Read16IsBigEndian(low);
  }

  lemma Read16IsBigEndian(bytes: seq<Byte>)
    requires |bytes| == 2
    ensures Read16(bytes, 0) == BigEndian(bytes)
  {
    assert bytes[..2 - 1][..1 - 1] == [];
    assert BigEndian(bytes[..1]) == bytes[0];
  }

  lemma Be16IsRead(v: Word16)
    ensures Read16(Be16(v), 0) == v
  {
    BigEndianOfWritten(v, 2) by {
      assert Power256(2) == 0x1_0000;
    }
    Read16IsBigEndian(Be16(v));
  }

  lemma Read16At(d: seq<Byte>, at: nat, v: Word16)
    requires at + 2 <= |d| && d[at..at + 2] == Be16(v)
    ensures Read16(d, at) == v
  {
    Be16IsRead(v);
    assert d[at] == Be16(v)[0] && d[at + 1] == Be16(v)[1];
  }

  lemma Read64At(d: seq<Byte>, at: nat, v: Word64)
    requires at + 8 <= |d| && d[at..at + 8] == Be64(v)
    ensures Read64(d, at) == v
  {
    Be64IsRead(v);
    assert forall i :: 0 <= i < 8 ==> d[at + i] == Be64(v)[i];
  }

  lemma Tx64RoundTrip(f: Frame)
    requires f.Tx64?
    ensures Decode(FrameData(f)) == Some(f)
  {
    var d := FrameData(f);
    assert d[2..10] == Be64(f.dest64);
    Read64At(d, 2, f.dest64);
    assert d[11..] == f.data;
  }

  lemma Tx16RoundTrip(f: Frame)
    requires f.Tx16?
    ensures Decode(FrameData(f)) == Some(f)
  {
    var d := FrameData(f);
    assert d[2..4] == Be16(f.dest16);
    Read16At(d, 2, f.dest16);
    assert d[5..] == f.data;
  }

  lemma AtRoundTrip(f: Frame)
    requires f.At?
    ensures Decode(FrameData(f)) == Some(f)
  {
    var d := FrameData(f);
    assert d[2..4] == Be16(f.command);
    Read16At(d, 2, f.command);
    assert d[4..] == f.data;
  }

  lemma TxRequestRoundTrip(f: Frame)
    requires f.TxRequest?
    ensures Decode(FrameData(f)) == Some(f)
  {
    var d := FrameData(f);
    assert d[2..10] == Be64(f.dest64);
    assert d[10..12] == Be16(f.reserved);
    Read64At(d, 2, f.dest64);
    Read16At(d, 10, f.reserved);
    assert d[14..] == f.data;
  }

  lemma ExplicitTxRoundTrip(f: Frame)
    requires f.ExplicitTx?
    ensures Decode(FrameData(f)) == Some(f)
  {
    var d := FrameData(f);
    assert d[2..10] == Be64(f.dest64);
    assert d[10..12] == Be16(f.reserved);
    assert d[14..16] == Be16(f.cluster);
    assert d[16..18] == Be16(f.profile);
    Read64At(d, 2, f.dest64);
    Read16At(d, 10, f.reserved);
    Read16At(d, 14, f.cluster);
    Read16At(d, 16, f.profile);
    assert d[20..] == f.data;
  }

  lemma RemoteAtRoundTrip(f: Frame)
    requires f.RemoteAt?
    ensures Decode(FrameData(f)) == Some(f)
  {
    var d := FrameData(f);
    assert d[2..10] == Be64(f.dest64);
    assert d[10..12] == Be16(f.reserved);
    assert d[13..15] == Be16(f.command);
    Read64At(d, 2, f.dest64);
    Read16At(d, 10, f.reserved);
    Read16At(d, 13, f.command);
    assert d[15..] == f.data;
  }

  lemma SecureControlRoundTrip(f: Frame)
    requires f.SecureControl?
    ensures Decode(FrameData(f)) == Some(f)
  {
    var d := FrameData(f);
    assert d[1..9] == Be64(f.dest64);
    assert d[10..12] == Be16(f.timeout);
    Read64At(d, 1, f.dest64);
    Read16At(d, 10, f.timeout);
    assert d[12..] == f.data;
  }

  /** Decoding inverts writing, for every frame that may be sent, whatever its fields. */
  lemma DecodeInvertsWriting(f: Frame)
    requires !DataLen(f).NotSupported? && !f.Raw?
    ensures Decode(FrameData(f)) == Some(f)
  {
    match f
    case Tx64(_, _, _, _) => Tx64RoundTrip(f);
    case Tx16(_, _, _, _) => Tx16RoundTrip(f);
    case At(_, _, _, _) => AtRoundTrip(f);
    case TxRequest(_, _, _, _, _, _) => TxRequestRoundTrip(f);
    case ExplicitTx(_, _, _, _, _, _, _, _, _, _) => ExplicitTxRoundTrip(f);
    case RemoteAt(_, _, _, _, _, _) => RemoteAtRoundTrip(f);
    case BleUnlock(_, data) => assert FrameData(f)[2..] == data;
    case UserRelay(_, _, data) => assert FrameData(f)[3..] == data;
    case SecureControl(_, _, _, _) => SecureControlRoundTrip(f);
  }

  /** A raw frame comes back as itself exactly when its type is not a documented one. */
  lemma RawComesBackExactlyWhenUndocumented(f: Frame)
    requires f.Raw?
    ensures Decode(FrameData(f)) == Some(f) <==> !Documented(f.frameType)
  {
    var d := FrameData(f);
    assert d[1..] == f.data;
    if Documented(f.frameType) {
      DocumentedIsNotRaw(d);
    }
  }

  lemma DocumentedIsNotRaw(d: seq<Byte>)
    requires d != [] && Documented(d[0])
    ensures Decode(d).Some? ==> !Decode(d).value.Raw?
  {
  }
}

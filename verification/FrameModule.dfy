/**
 Module-to-host frames against an independent description of their layout, and decoding as a
 bijection on the frames the host sends.
 */
module FrameModule {
  import opened Base
  import opened Bits
  import opened FrameCodec

  /** A sample block whose parts agree with its masks. */
  predicate Consistent(s: IoSample, legacy: bool)
  {
    && (if legacy then s.digitalMask < 0x200 && s.analogMask < 0x10
        else s.digitalMask < 0x1_0000 && s.analogMask < 0x100)
    && s.digitalValues < 0x1_0000 && (s.digitalMask == 0 ==> s.digitalValues == 0)
    && |s.analogValues| == 2 * PopCount(s.analogMask)
  }

  /** The layout of a sample block: one combined mask, or one for each kind of line. */
  function SampleBytes(s: IoSample, legacy: bool): (bytes: seq<Byte>)
    requires Consistent(s, legacy)
  {
    [s.sampleCount] + MaskBytes(s, legacy) + DigitalBytes(s) + s.analogValues
  }

  lemma MaskPowers()
    ensures Power2(4) == 0x10 && Power2(9) == 0x200
  {
    assert Power2(8) == 0x100;
  }

  lemma SplitMask(digital: nat, analog: nat)
    requires digital < 0x200 && analog < 0x10
    ensures And(digital + 0x200 * analog, 0x01FF) == digital
    ensures And((digital + 0x200 * analog) / 0x200, 0x0F) == analog
  {
    MaskPowers();
    SplitDivision(digital, analog);
    MaskedAs(digital + 0x200 * analog, 9, digital);
    MaskedAs(analog, 4, analog);
  }

  lemma SplitDivision(digital: nat, analog: nat)
    requires digital < 0x200 && analog < 0x10
    ensures (digital + 0x200 * analog) % 0x200 == digital && (digital + 0x200 * analog) / 0x200 == analog
    ensures analog % 0x10 == analog
  {
  }

  /** A field in the middle of a block keeps its place wherever the block is. */
  lemma FieldOf(d: seq<Byte>, at: nat, before: seq<Byte>, field: seq<Byte>, after: seq<Byte>)
    requires at + |before| + |field| + |after| <= |d|
    requires d[at..at + |before| + |field| + |after|] == before + field + after
    ensures d[at + |before|..at + |before| + |field|] == field
  {
    var block := d[at..at + |before| + |field| + |after|];
    var low := at + |before|;
    forall i | 0 <= i < |field|
      ensures d[low..low + |field|][i] == field[i]
    {
      var j := |before| + i;
      assert block[j] == d[at + j] && (before + field + after)[j] == field[i];
    }
  }

  function MaskBytes(s: IoSample, legacy: bool): (bytes: seq<Byte>)
    requires Consistent(s, legacy)
  {
    if legacy then Be16(s.digitalMask + 0x200 * s.analogMask) else Be16(s.digitalMask) + [s.analogMask]
  }

  function DigitalBytes(s: IoSample): (bytes: seq<Byte>)
    requires s.digitalValues < 0x1_0000
  {
    if s.digitalMask != 0 then Be16(s.digitalValues) else []
  }

  lemma MaskRoundTrip(d: seq<Byte>, at: nat, s: IoSample, legacy: bool)
    requires Consistent(s, legacy)
    requires at + |MaskBytes(s, legacy)| <= |d| && d[at..at + |MaskBytes(s, legacy)|] == MaskBytes(s, legacy)
    ensures legacy ==> And(Read16(d, at), 0x01FF) == s.digitalMask && And(Read16(d, at) / 0x200, 0x0F) == s.analogMask
    ensures !legacy ==> Read16(d, at) == s.digitalMask && d[at + 2] == s.analogMask
  {
    if legacy {
      Read16At(d, at, s.digitalMask + 0x200 * s.analogMask);
      SplitMask(s.digitalMask, s.analogMask);
    } else {
      FieldOf(d, at, [], Be16(s.digitalMask), [s.analogMask]);
      FieldOf(d, at, Be16(s.digitalMask), [s.analogMask], []);
      Read16At(d, at, s.digitalMask);
    }
  }

  /** A sample block is read back whole, wherever it starts and whatever follows it. */
  lemma SampleRoundTrip(d: seq<Byte>, at: nat, s: IoSample, legacy: bool)
    requires Consistent(s, legacy)
    requires at + |SampleBytes(s, legacy)| <= |d| && d[at..at + |SampleBytes(s, legacy)|] == SampleBytes(s, legacy)
    ensures DecodeIoSample(d, at, legacy) == Some(s)
  {
    var count, masks, digital := [s.sampleCount], MaskBytes(s, legacy), DigitalBytes(s);
    assert SampleBytes(s, legacy) == count + masks + digital + s.analogValues;
    SampleFields(d, at, count, masks, digital, s.analogValues);
    assert d[at..at + 1][0] == d[at];
    MaskRoundTrip(d, at + 1, s, legacy);
    if s.digitalMask != 0 {
      Read16At(d, at + if legacy then 3 else 4, s.digitalValues);
    }
  }

  lemma SampleFields(d: seq<Byte>, at: nat, count: seq<Byte>, masks: seq<Byte>, digital: seq<Byte>, analog: seq<Byte>)
    requires at + |count| + |masks| + |digital| + |analog| <= |d|
    requires d[at..at + |count| + |masks| + |digital| + |analog|] == count + masks + digital + analog
    ensures d[at..at + |count|] == count
    ensures var i := at + |count|; d[i..i + |masks|] == masks
    ensures var i := at + |count| + |masks|; d[i..i + |digital|] == digital
    ensures var i := at + |count| + |masks| + |digital|; d[i..i + |analog|] == analog
  {
    var block := count + masks + digital + analog;
    assert block == [] + count + (masks + digital + analog);
    FieldOf(d, at, [], count, masks + digital + analog);
    assert block == count + masks + (digital + analog);
    FieldOf(d, at, count, masks, digital + analog);
    assert block == (count + masks) + digital + analog;
    FieldOf(d, at, count + masks, digital, analog);
    assert block == (count + masks + digital) + analog + [];
    FieldOf(d, at, count + masks + digital, analog, []);
  }

  /** A frame the module may send. */
  predicate FromModule(f: Frame)
  {
    match f
    case Io64(_, _, _, s) => Consistent(s, true)
    case Io16(_, _, _, s) => Consistent(s, true)
    case IoSampleFrame(_, _, _, s) => Consistent(s, false)
    case Raw(_, _) => false
    case _ => DataLen(f).NotSupported?
  }

  /** The layouts of the module-to-host frames. */
  function ModuleData(f: Frame): (d: seq<Byte>)
    requires FromModule(f)
  {
    match f
    case Rx64(source, rssi, options, data) => [0x80] + Be64(source) + [rssi, options] + data
    case Rx16(source, rssi, options, data) => [0x81] + Be16(source) + [rssi, options] + data
    case Io64(source, rssi, options, s) => [0x82] + Be64(source) + [rssi, options] + SampleBytes(s, true)
    case Io16(source, rssi, options, s) => [0x83] + Be16(source) + [rssi, options] + SampleBytes(s, true)
    case AtResponse(id, command, status, data) => [0x88, id] + Be16(command) + [status] + data
    case TxStatus(id, status) => [0x89, id, status]
    case ModemStatus(status) => [0x8A, status]
    case ExtTxStatus(id, reserved, retries, status, discovery) =>
      [0x8B, id] + Be16(reserved) + [retries, status, discovery]
    case Rx(source64, source16, options, data) => [0x90] + Be64(source64) + Be16(source16) + [options] + data
    case ExplicitRx(source64, reserved, source, destination, cluster, profile, options, data) =>
      [0x91] + Be64(source64) + Be16(reserved) + [source, destination] + Be16(cluster) + Be16(profile)
      + [options] + data
    case IoSampleFrame(source, reserved, options, s) =>
      [0x92] + Be64(source) + Be16(reserved) + [options] + SampleBytes(s, false)
    case RemoteAtResponse(id, source, reserved, command, status, data) =>
      [0x97, id] + Be64(source) + Be16(reserved) + Be16(command) + [status] + data
    case ExtModemStatus(status, data) => [0x98, status] + data
    case BleUnlockResponse(step, data) => [0xAC, step] + data
    case UserRelayOutput(interface, data) => [0xAD, interface] + data
    case SecureResponse(kind, source, status) => [0xAE, kind] + Be64(source) + [status]
  }

  lemma ReceivedRoundTrip(f: Frame)
    requires f.Rx64? || f.Rx16? || f.Rx?
    ensures Decode(ModuleData(f)) == Some(f)
  {
    var d := ModuleData(f);
    match f
    case Rx64(source, _, _, data) =>
      assert d[1..9] == Be64(source);
      Read64At(d, 1, source);
      assert d[11..] == data;
    case Rx16(source, _, _, data) =>
      assert d[1..3] == Be16(source);
      Read16At(d, 1, source);
      assert d[5..] == data;
    case Rx(source64, source16, _, data) =>
      assert d[1..9] == Be64(source64) && d[9..11] == Be16(source16);
      Read64At(d, 1, source64);
      Read16At(d, 9, source16);
      assert d[12..] == data;
  }

  lemma ExplicitRxRoundTrip(f: Frame)
    requires f.ExplicitRx?
    ensures Decode(ModuleData(f)) == Some(f)
  {
    var d := ModuleData(f);
    assert d[1..9] == Be64(f.source64);
    assert d[9..11] == Be16(f.reserved);
    assert d[13..15] == Be16(f.cluster);
    assert d[15..17] == Be16(f.profile);
    Read64At(d, 1, f.source64);
    Read16At(d, 9, f.reserved);
    Read16At(d, 13, f.cluster);
    Read16At(d, 15, f.profile);
    assert d[18..] == f.data;
  }

  lemma Io64RoundTrip(f: Frame)
    requires FromModule(f) && f.Io64?
    ensures Decode(ModuleData(f)) == Some(f)
  {
    var d := ModuleData(f);
    var block := SampleBytes(f.sample, true);
    assert d == [0x82] + Be64(f.source64) + [f.rssi, f.options] + block;
    assert d[1..9] == Be64(f.source64);
    assert d[11..11 + |block|] == block;
    Read64At(d, 1, f.source64);
    SampleRoundTrip(d, 11, f.sample, true);
  }

  lemma Io16RoundTrip(f: Frame)
    requires FromModule(f) && f.Io16?
    ensures Decode(ModuleData(f)) == Some(f)
  {
    var d := ModuleData(f);
    var block := SampleBytes(f.sample, true);
    assert d == [0x83] + Be16(f.source16) + [f.rssi, f.options] + block;
    assert d[1..3] == Be16(f.source16);
    assert d[5..5 + |block|] == block;
    Read16At(d, 1, f.source16);
    SampleRoundTrip(d, 5, f.sample, true);
  }

  lemma IoSampleRoundTrip(f: Frame)
    requires FromModule(f) && f.IoSampleFrame?
    ensures Decode(ModuleData(f)) == Some(f)
  {
    var d := ModuleData(f);
    var block := SampleBytes(f.sample, false);
    var source, reserved := Be64(f.source64), Be16(f.reserved);
    assert d == [0x92] + source + reserved + [f.options] + block;
    assert d[1..9] == source;
    assert d[9..11] == reserved;
    assert d[12..12 + |block|] == block;
    Read64At(d, 1, f.source64);
    Read16At(d, 9, f.reserved);
    SampleRoundTrip(d, 12, f.sample, false);
  }

  lemma RemoteAnswerRoundTrip(f: Frame)
    requires f.RemoteAtResponse?
    ensures Decode(ModuleData(f)) == Some(f)
  {
    var d := ModuleData(f);
    var source, reserved, command := Be64(f.source64), Be16(f.reserved), Be16(f.command);
    assert d == [0x97, f.id] + source + reserved + command + [f.status] + f.data;
    assert d[2..10] == source;
    assert d[10..12] == reserved;
    assert d[12..14] == command;
    assert d[15..] == f.data;
    Read64At(d, 2, f.source64);
    Read16At(d, 10, f.reserved);
    Read16At(d, 12, f.command);
  }

  lemma AnswerRoundTrip(f: Frame)
    requires f.AtResponse? || f.ExtTxStatus? || f.SecureResponse?
    ensures Decode(ModuleData(f)) == Some(f)
  {
    var d := ModuleData(f);
    match f
    case AtResponse(_, command, _, data) =>
      assert d[2..4] == Be16(command) && d[5..] == data;
      Read16At(d, 2, command);
    case ExtTxStatus(_, reserved, _, _, _) =>
      assert d[2..4] == Be16(reserved);
      Read16At(d, 2, reserved);
    case SecureResponse(_, source, _) =>
      assert d[2..10] == Be64(source);
      Read64At(d, 2, source);
  }

  /** Every frame the module may send decodes to itself. */
  lemma DecodeReadsTheModule(f: Frame)
    requires FromModule(f)
    ensures Decode(ModuleData(f)) == Some(f)
  {
    if f.Rx64? || f.Rx16? || f.Rx? {
      ReceivedRoundTrip(f);
    } else if f.ExplicitRx? {
      ExplicitRxRoundTrip(f);
    } else if f.Io64? {
      Io64RoundTrip(f);
    } else if f.Io16? {
      Io16RoundTrip(f);
    } else if f.IoSampleFrame? {
      IoSampleRoundTrip(f);
    } else if f.RemoteAtResponse? {
      RemoteAnswerRoundTrip(f);
    } else if f.AtResponse? || f.ExtTxStatus? || f.SecureResponse? {
      AnswerRoundTrip(f);
    } else if f.ExtModemStatus? || f.BleUnlockResponse? || f.UserRelayOutput? {
      assert ModuleData(f)[2..] == f.data;
    }
  }

  // ---------------------------------------------------------------------------
  // Decoding loses nothing

  lemma Be16OfRead(d: seq<Byte>, at: nat)
    requires at + 2 <= |d|
    ensures Be16(Read16(d, at)) == d[at..at + 2]
  {
    var field := d[at..at + 2];
    Read16IsBigEndian(field);
    WrittenOfBigEndian(field);
    assert Read16(field, 0) == Read16(d, at);
  }

  lemma Be64OfRead(d: seq<Byte>, at: nat)
    requires at + 8 <= |d|
    ensures Be64(Read64(d, at)) == d[at..at + 8]
  {
    var field := d[at..at + 8];
    Read64IsBigEndian(field);
    WrittenOfBigEndian(field);
    assert Read64(field, 0) == Read64(d, at);
  }

  lemma Tx64Written(d: seq<Byte>)
    requires Decode(d).Some? && Decode(d).value.Tx64?
    ensures FrameData(Decode(d).value) == d
  {
    Be64OfRead(d, 2);
    assert d == [0x00, d[1]] + d[2..10] + [d[10]] + d[11..];
  }

  lemma Tx16Written(d: seq<Byte>)
    requires Decode(d).Some? && Decode(d).value.Tx16?
    ensures FrameData(Decode(d).value) == d
  {
    Be16OfRead(d, 2);
    assert d == [0x01, d[1]] + d[2..4] + [d[4]] + d[5..];
  }

  lemma AtWritten(d: seq<Byte>)
    requires Decode(d).Some? && Decode(d).value.At?
    ensures FrameData(Decode(d).value) == d
  {
    Be16OfRead(d, 2);
    assert d == [d[0], d[1]] + d[2..4] + d[4..];
  }

  lemma ShortWritten(d: seq<Byte>)
    requires Decode(d).Some?
    requires var f := Decode(d).value; f.BleUnlock? || f.UserRelay? || f.Raw?
    ensures FrameData(Decode(d).value) == d
  {
    assert d == [d[0]] + d[1..];
  }

  lemma TxRequestWritten(d: seq<Byte>)
    requires Decode(d).Some? && Decode(d).value.TxRequest?
    ensures FrameData(Decode(d).value) == d
  {
    Be64OfRead(d, 2);
    Be16OfRead(d, 10);
    assert d == [0x10, d[1]] + d[2..10] + d[10..12] + [d[12], d[13]] + d[14..];
  }

  lemma ExplicitTxWritten(d: seq<Byte>)
    requires Decode(d).Some? && Decode(d).value.ExplicitTx?
    ensures FrameData(Decode(d).value) == d
  {
    Be64OfRead(d, 2);
    Be16OfRead(d, 10);
    Be16OfRead(d, 14);
    Be16OfRead(d, 16);
    assert d == [0x11, d[1]] + d[2..10] + d[10..12] + [d[12], d[13]] + d[14..16] + d[16..18] + [d[18], d[19]] + d[20..];
  }

  lemma RemoteAtWritten(d: seq<Byte>)
    requires Decode(d).Some? && Decode(d).value.RemoteAt?
    ensures FrameData(Decode(d).value) == d
  {
    Be64OfRead(d, 2);
    Be16OfRead(d, 10);
    Be16OfRead(d, 13);
    assert d == [0x17, d[1]] + d[2..10] + d[10..12] + [d[12]] + d[13..15] + d[15..];
  }

  lemma SecureControlWritten(d: seq<Byte>)
    requires Decode(d).Some? && Decode(d).value.SecureControl?
    ensures FrameData(Decode(d).value) == d
  {
    Be64OfRead(d, 1);
    Be16OfRead(d, 10);
    assert d == [0x2E] + d[1..9] + [d[9]] + d[10..12] + d[12..];
  }

  /**
   Frame data that decodes to a frame the host may send is exactly that frame's data: no byte is
   ignored and none is made up, so decoding and writing are inverse both ways.
   */
  lemma WritingInvertsDecoding(d: seq<Byte>)
    requires Decode(d).Some? && !DataLen(Decode(d).value).NotSupported?
    ensures FrameData(Decode(d).value) == d
  {
    match Decode(d).value
    case Tx64(_, _, _, _) => Tx64Written(d);
    case Tx16(_, _, _, _) => Tx16Written(d);
    case At(_, _, _, _) => AtWritten(d);
    case TxRequest(_, _, _, _, _, _) => TxRequestWritten(d);
    case ExplicitTx(_, _, _, _, _, _, _, _, _, _) => ExplicitTxWritten(d);
    case RemoteAt(_, _, _, _, _, _) => RemoteAtWritten(d);
    case SecureControl(_, _, _, _) => SecureControlWritten(d);
    case _ => ShortWritten(d);
  }
}

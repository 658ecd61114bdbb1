/** The encoder and the parser as the firmware runs them, over caller-provided buffers. */
module FrameLine {
  import opened Base
  import opened Bits
  import opened FrameCodec
  import opened FrameWire

  lemma {:induction false} ByteOfWritten(v: nat, width: nat, i: nat)
    requires i < width
    ensures ToBigEndian(v, width)[i] == v / Power256(width - 1 - i) % 256
  {
    if i == width - 1 {
    } else {
      ByteOfWritten(v / 256, width - 1, i);
      DivideTwice(v, Power256(width - 2 - i));
    }
  }

  lemma DivideTwice(v: nat, p: nat)
    requires p >= 1
    ensures v / 256 / p == v / (256 * p)
  {
    var q, r := v / 256 / p, v / 256 % p;
    assert v / 256 == q * p + r;
    assert v == q * (256 * p) + (256 * r + v % 256);
    QuotientIsUnique(v, 256 * p, q, 256 * r + v % 256);
  }

  /** The byte of a 64-bit field shifted down to position `i` from the front. */
  function ByteAt(value: Word64, i: nat): (b: Byte)
    requires i < 8
  {
    value / Power256(7 - i) % 256
  }

  lemma Be64Byte(value: Word64, i: nat)
    requires i < 8
    ensures Be64(value)[..i + 1] == Be64(value)[..i] + [ByteAt(value, i)]
  {
    ByteOfWritten(value, 8, i);
  }

  lemma SumOne(data: seq<Byte>, b: Byte)
    ensures Sum(data + [b]) == (Sum(data) + b) % 256
  {
    assert (data + [b])[..|data|] == data;
  }

  /** One more byte makes the frame on the wire longer by what is sent for it. */
  lemma WireGrows(escaped: bool, body: seq<Byte>, b: Byte)
    ensures [START] + SentAll(escaped, body + [b]) == [START] + SentAll(escaped, body) + Sent(escaped, b)
  {
    SentAllAppend(escaped, body, [b]);
    SentOne(escaped, b);
  }

  lemma GrowsByOne(front: seq<Byte>, data: seq<Byte>, i: nat)
    requires i < |data|
    ensures front + data[..i] + [data[i]] == front + data[..i + 1]
  {
    assert data[..i + 1] == data[..i] + [data[i]];
  }

  /** The encoder's state as a value. */
  datatype Writing = Writing(
    pos: nat,
    sum: Byte,
    overflow: bool,
    before: seq<Byte>,
    counted: seq<Byte>,
    after: seq<Byte>,
    buffer: seq<Byte>
  )

  /** What the buffer would hold if it were large enough. */
  function WantedOf(escaped: bool, w: Writing): (bytes: seq<Byte>)
  {
    [START] + SentAll(escaped, w.before + w.counted + w.after)
  }

  /** The buffer holds what has been put so far, or has been found too small, and nothing past its end changes. */
  ghost function Sound(cap: nat, escaped: bool, beyond: seq<Byte>): (states: iset<Writing>)
  {
    iset w: Writing |
      && w.pos <= cap <= |w.buffer| && w.sum == Sum(w.counted) && w.buffer[cap..] == beyond
      && (w.overflow <==> |WantedOf(escaped, w)| > cap)
      && (!w.overflow ==> w.buffer[..w.pos] == WantedOf(escaped, w))
  }

  /** One more byte of the frame, stored if it fits or noted if not, keeps the encoder sound. */
  lemma EmitKeeps(cap: nat, escaped: bool, beyond: seq<Byte>, w: Writing, w1: Writing, byte: Byte)
    requires w in Sound(cap, escaped, beyond)
    requires w1.before + w1.counted + w1.after == w.before + w.counted + w.after + [byte]
    requires w1.sum == Sum(w1.counted) && w1.pos <= cap <= |w1.buffer| && w1.buffer[cap..] == beyond
    requires var bytes := Sent(escaped, byte);
      if w.pos + |bytes| > cap then w1.overflow && w1.pos == w.pos
      else
        && w1.overflow == w.overflow && w1.pos == w.pos + |bytes|
        && w1.buffer[..w1.pos] == w.buffer[..w.pos] + bytes
    ensures w1 in Sound(cap, escaped, beyond)
  {
    WireGrows(escaped, w.before + w.counted + w.after, byte);
  }

  /** What the encoder keeps while it writes a frame. */
  class Writer {
    const out: array<Byte>
    const cap: nat
    const escaped: bool
    var pos: nat
    var sum: Byte
    var overflow: bool
    ghost var before: seq<Byte>    // put before the data: the length
    ghost var counted: seq<Byte>   // the data, which the checksum covers
    ghost var after: seq<Byte>     // put after the data: the checksum
    ghost const beyond: seq<Byte>  // the buffer past the capacity

    ghost function View(): (w: Writing)
      reads this, out
    {
      Writing(pos, sum, overflow, before, counted, after, out[..])
    }

    ghost function Wanted(): (bytes: seq<Byte>)
      reads this
    {
      [START] + SentAll(escaped, before + counted + after)
    }

    ghost predicate Valid()
      reads this, out
    {
      View() in Sound(cap, escaped, beyond)
    }

    /** The data is being written. */
    ghost predicate Collecting()
      reads this
    {
      after == []
    }

    lemma BufferHolds()
      requires Valid()
      ensures overflow <==> |Wanted()| > cap
      ensures !overflow ==> pos == |Wanted()| <= cap <= out.Length && out[..pos] == Wanted()
      ensures cap <= out.Length && out[cap..] == beyond
    {
    }

    constructor (buffer: array<Byte>, room: nat, escapes: bool)
      requires 1 <= room <= buffer.Length && buffer[0] == START
      ensures Valid() && Collecting() && out == buffer && cap == room && escaped == escapes
      ensures before == [] && counted == [] && beyond == buffer[room..]
    {
      out, cap, escaped := buffer, room, escapes;
      pos, sum, overflow, before, counted, after := 1, 0, false, [], [], [];
      beyond := buffer[room..];
    }

    method Store(byte: Byte)
      requires cap <= out.Length && pos < cap && out[cap..] == beyond
      modifies this`pos, out
      ensures pos == old(pos) + 1 && out[..pos] == old(out[..pos]) + [byte] && out[cap..] == beyond
    {
      out[pos] := byte;
      pos := pos + 1;
    }

    /** Put a byte into the buffer, escaped if need be, or note that it does not fit. */
    method Emit(byte: Byte)
      requires cap <= out.Length && pos <= cap && out[cap..] == beyond
      modifies this`pos, this`overflow, out
      ensures pos <= cap && out[cap..] == beyond
      ensures var bytes := Sent(escaped, byte);
        if old(pos) + |bytes| > cap then overflow && pos == old(pos)
        else overflow == old(overflow) && pos == old(pos) + |bytes| && out[..pos] == old(out[..pos]) + bytes
    {
      if escaped && Special(byte) {
        if pos + 2 > cap {
          overflow := true;
          return;
        }
        Store(ESCAPE);
        Store(Flip(byte));
      } else {
        if pos + 1 > cap {
          overflow := true;
          return;
        }
        Store(byte);
      }
    }

    /** Account for a byte: in the checksum if it counts, and in the stretch it belongs to. */
    method Account(byte: Byte, count: bool)
      requires sum == Sum(counted) && (count ==> Collecting())
      modifies this`sum, this`before, this`counted, this`after
      ensures sum == Sum(counted)
      ensures before + counted + after == old(before + counted + after) + [byte]
      ensures count ==> Collecting() && before == old(before) && counted == old(counted) + [byte]
      ensures !count ==> counted == old(counted)
      ensures !count && old(counted) == [] && old(after) == [] ==> before == old(before) + [byte] && after == []
      ensures !count && old(counted) != [] ==> before == old(before) && after == old(after) + [byte]
    {
      if count {
        CountByte(byte);
      } else if counted == [] && after == [] {
        assert before + [] + [] == before && before + [byte] + [] + [] == before + [byte];
        before := before + [byte];
      } else {
        LastOfEnd(before, counted, after, byte);
        after := after + [byte];
      }
    }

    method CountByte(byte: Byte)
      requires sum == Sum(counted) && Collecting()
      modifies this`sum, this`counted
      ensures sum == Sum(counted) && counted == old(counted) + [byte]
      ensures before + counted + after == old(before + counted + after) + [byte]
    {
      SumOne(counted, byte);
      LastOfMiddle(before, counted, byte);
      counted := counted + [byte];
      sum := (sum + byte) % 256;
    }

    lemma LastOfMiddle(a: seq<Byte>, b: seq<Byte>, byte: Byte)
      ensures a + (b + [byte]) + [] == a + b + [] + [byte]
    {
    }

    lemma LastOfEnd(a: seq<Byte>, b: seq<Byte>, c: seq<Byte>, byte: Byte)
      ensures a + b + (c + [byte]) == a + b + c + [byte]
    {
    }

    /** `writer_put`. */
    method Put(byte: Byte, count: bool)
      requires Valid() && (count ==> Collecting())
      modifies this`pos, this`sum, this`overflow, this`before, this`counted, this`after, out
      ensures Valid()
      ensures count ==> Collecting() && before == old(before) && counted == old(counted) + [byte]
      ensures !count ==> counted == old(counted)
      ensures !count && old(counted) == [] && old(after) == [] ==> before == old(before) + [byte] && after == []
      ensures !count && old(counted) != [] ==> before == old(before) && after == old(after) + [byte]
    {
      ghost var w := View();
      Account(byte, count);
      Emit(byte);
      EmitKeeps(cap, escaped, beyond, w, View(), byte);
    }

    method PutPair(first: Byte, second: Byte)
      requires Valid() && Collecting()
      modifies this`pos, this`sum, this`overflow, this`before, this`counted, this`after, out
      ensures Valid() && Collecting() && before == old(before) && counted == old(counted) + [first, second]
    {
      Put(first, true);
      Put(second, true);
    }

    method PutBe16(value: Word16)
      requires Valid() && Collecting()
      modifies this`pos, this`sum, this`overflow, this`before, this`counted, this`after, out
      ensures Valid() && Collecting() && before == old(before) && counted == old(counted) + Be16(value)
    {
      ByteOfWritten(value, 2, 0);
      ByteOfWritten(value, 2, 1);
      assert Power256(1) == 256;
      assert Be16(value) == [value / 256, value % 256];
      PutPair(value / 256, value % 256);
    }

    method PutBe64(value: Word64)
      requires Valid() && Collecting()
      modifies this`pos, this`sum, this`overflow, this`before, this`counted, this`after, out
      ensures Valid() && Collecting() && before == old(before) && counted == old(counted) + Be64(value)
    {
      for i := 0 to 8
        invariant Valid() && Collecting() && before == old(before) && counted == old(counted) + Be64(value)[..i]
      {
        Be64Byte(value, i);
        Put(ByteAt(value, i), true);
      }
      assert Be64(value)[..8] == Be64(value);
    }

    method PutBlock(data: seq<Byte>)
      requires Valid() && Collecting()
      modifies this`pos, this`sum, this`overflow, this`before, this`counted, this`after, out
      ensures Valid() && Collecting() && before == old(before) && counted == old(counted) + data
    {
      for i := 0 to |data|
        invariant Valid() && Collecting() && before == old(before) && counted == old(counted) + data[..i]
      {
        GrowsByOne(old(counted), data, i);
        Put(data[i], true);
      }
      assert data[..|data|] == data;
    }

    /** The type of a frame and its identifier. */
    method PutHead(frameType: Byte, id: Byte)
      requires Valid() && Collecting() && counted == []
      modifies this`pos, this`sum, this`overflow, this`before, this`counted, this`after, out
      ensures Valid() && Collecting() && before == old(before) && counted == [frameType, id]
    {
      PutPair(frameType, id);
    }

    /** The beginning that three frames have in common. */
    method PutAddress(frameType: Byte, id: Byte, dest: Word64, reserved: Word16)
      requires Valid() && Collecting() && counted == []
      modifies this`pos, this`sum, this`overflow, this`before, this`counted, this`after, out
      ensures Valid() && Collecting() && before == old(before)
      ensures counted == [frameType, id] + Be64(dest) + Be16(reserved)
    {
      PutHead(frameType, id);
      PutBe64(dest);
      PutBe16(reserved);
    }

    /** One byte and the payload. */
    method PutTail(byte: Byte, data: seq<Byte>)
      requires Valid() && Collecting()
      modifies this`pos, this`sum, this`overflow, this`before, this`counted, this`after, out
      ensures Valid() && Collecting() && before == old(before) && counted == old(counted) + [byte] + data
    {
      Put(byte, true);
      PutBlock(data);
    }

    method PutTx64(f: Frame)
      requires Valid() && Collecting() && counted == [] && f.Tx64?
      modifies this`pos, this`sum, this`overflow, this`before, this`counted, this`after, out
      ensures Valid() && Collecting() && before == old(before) && counted == FrameData(f)
    {
      PutHead(0x00, f.id);
      PutBe64(f.dest64);
      PutTail(f.options, f.data);
    }

    method PutTx16(f: Frame)
      requires Valid() && Collecting() && counted == [] && f.Tx16?
      modifies this`pos, this`sum, this`overflow, this`before, this`counted, this`after, out
      ensures Valid() && Collecting() && before == old(before) && counted == FrameData(f)
    {
      PutHead(0x01, f.id);
      PutBe16(f.dest16);
      PutTail(f.options, f.data);
    }

    method PutTxRequest(f: Frame)
      requires Valid() && Collecting() && counted == [] && f.TxRequest?
      modifies this`pos, this`sum, this`overflow, this`before, this`counted, this`after, out
      ensures Valid() && Collecting() && before == old(before) && counted == FrameData(f)
    {
      PutAddress(0x10, f.id, f.dest64, f.reserved);
      PutPair(f.radius, f.options);
      PutBlock(f.data);
    }

    method PutExplicitTx(f: Frame)
      requires Valid() && Collecting() && counted == [] && f.ExplicitTx?
      modifies this`pos, this`sum, this`overflow, this`before, this`counted, this`after, out
      ensures Valid() && Collecting() && before == old(before) && counted == FrameData(f)
    {
      PutExplicitAddress(f);
      PutPair(f.radius, f.options);
      PutBlock(f.data);
    }

    method PutExplicitAddress(f: Frame)
      requires Valid() && Collecting() && counted == [] && f.ExplicitTx?
      modifies this`pos, this`sum, this`overflow, this`before, this`counted, this`after, out
      ensures Valid() && Collecting() && before == old(before)
      ensures counted == [0x11, f.id] + Be64(f.dest64) + Be16(f.reserved) + [f.source, f.destination]
                         + Be16(f.cluster) + Be16(f.profile)
    {
      PutAddress(0x11, f.id, f.dest64, f.reserved);
      PutPair(f.source, f.destination);
      PutBe16(f.cluster);
      PutBe16(f.profile);
    }

    method PutRemoteAt(f: Frame)
      requires Valid() && Collecting() && counted == [] && f.RemoteAt?
      modifies this`pos, this`sum, this`overflow, this`before, this`counted, this`after, out
      ensures Valid() && Collecting() && before == old(before) && counted == FrameData(f)
    {
      PutAddress(0x17, f.id, f.dest64, f.reserved);
      Put(f.options, true);
      PutBe16(f.command);
      PutBlock(f.data);
    }

    method PutSecureHead(dest: Word64, options: Byte)
      requires Valid() && Collecting() && counted == []
      modifies this`pos, this`sum, this`overflow, this`before, this`counted, this`after, out
      ensures Valid() && Collecting() && before == old(before) && counted == [0x2E] + Be64(dest) + [options]
    {
      Put(0x2E, true);
      assert counted == [0x2E];
      PutBe64(dest);
      Put(options, true);
    }

    method PutSecureControl(f: Frame)
      requires Valid() && Collecting() && counted == [] && f.SecureControl?
      modifies this`pos, this`sum, this`overflow, this`before, this`counted, this`after, out
      ensures Valid() && Collecting() && before == old(before) && counted == FrameData(f)
    {
      PutSecureHead(f.dest64, f.options);
      PutBe16(f.timeout);
      PutBlock(f.data);
    }

    method PutAt(f: Frame)
      requires Valid() && Collecting() && counted == [] && f.At?
      modifies this`pos, this`sum, this`overflow, this`before, this`counted, this`after, out
      ensures Valid() && Collecting() && before == old(before) && counted == FrameData(f)
    {
      PutHead(if f.queued then 0x09 else 0x08, f.id);
      PutBe16(f.command);
      PutBlock(f.data);
    }

    method PutShort(f: Frame)
      requires Valid() && Collecting() && counted == [] && (f.Raw? || f.BleUnlock? || f.UserRelay?)
      modifies this`pos, this`sum, this`overflow, this`before, this`counted, this`after, out
      ensures Valid() && Collecting() && before == old(before) && counted == FrameData(f)
    {
      if f.Raw? {
        Put(f.frameType, true);
      } else if f.BleUnlock? {
        PutHead(0x2C, f.step);
      } else {
        PutHead(0x2D, f.id);
        Put(f.interface, true);
        assert counted == [0x2D, f.id, f.interface];
      }
      PutBlock(f.data);
    }

    /** `write_frame_data`. */
    method PutFrame(f: Frame)
      requires Valid() && Collecting() && counted == [] && !DataLen(f).NotSupported?
      modifies this`pos, this`sum, this`overflow, this`before, this`counted, this`after, out
      ensures Valid() && Collecting() && before == old(before) && counted == FrameData(f)
    {
      match f
      case Tx64(_, _, _, _) => PutTx64(f);
      case Tx16(_, _, _, _) => PutTx16(f);
      case At(_, _, _, _) => PutAt(f);
      case TxRequest(_, _, _, _, _, _) => PutTxRequest(f);
      case ExplicitTx(_, _, _, _, _, _, _, _, _, _) => PutExplicitTx(f);
      case RemoteAt(_, _, _, _, _, _) => PutRemoteAt(f);
      case SecureControl(_, _, _, _) => PutSecureControl(f);
      case Raw(_, _) => PutShort(f);
      case BleUnlock(_, _) => PutShort(f);
      case UserRelay(_, _, _) => PutShort(f);
    }

    method PutLength(n: nat)
      requires Valid() && Collecting() && before == [] && counted == [] && n < 0x1_0000
      modifies this`pos, this`sum, this`overflow, this`before, this`counted, this`after, out
      ensures Valid() && Collecting() && before == [n / 256, n % 256] && counted == []
    {
      Put(n / 256, false);
      assert before == [n / 256];
      Put(n % 256, false);
    }

    method PutChecksum()
      requires Valid() && Collecting() && counted != [] && |counted| < 0x1_0000
      requires before == [|counted| / 256, |counted| % 256]
      modifies this`pos, this`sum, this`overflow, this`before, this`counted, this`after, out
      ensures Valid() && counted == old(counted) && Wanted() == Wire(escaped, counted)
    {
      Put(0xFF - sum, false);
      assert before + counted + after == Body(counted);
    }

    /** The length, the frame data and the checksum. */
    method PutAll(f: Frame, n: nat)
      requires Valid() && Collecting() && before == [] && counted == [] && DataLen(f) == Length(n)
      modifies this`pos, this`sum, this`overflow, this`before, this`counted, this`after, out
      ensures Valid() && Wanted() == Wire(escaped, FrameData(f))
    {
      AnnouncedIsWritten(f);
      PutLength(n);
      PutFrame(f);
      PutChecksum();
    }
  }

  datatype Encoded = Ok(len: nat) | Refused(why: Measure)

  /**
   `xbee_frame_encode`: the frame goes out exactly as the wire format says, or is refused for its
   fields, its size, or because the buffer is too small; nothing beyond the capacity is touched.
   */
  method Encode(f: Frame, escaped: bool, out: array<Byte>, cap: nat) returns (r: Encoded)
    requires cap <= out.Length
    modifies out
    ensures !DataLen(f).Length? ==> r == Refused(DataLen(f)) && out[..] == old(out[..])
    ensures DataLen(f).Length? ==>
      r == if |Wire(escaped, FrameData(f))| <= cap then Ok(|Wire(escaped, FrameData(f))|) else Refused(WouldOverflow)
    ensures r.Ok? ==> r.len <= cap && out[..r.len] == Wire(escaped, FrameData(f))
    ensures out[cap..] == old(out[cap..])
  {
    var measure := DataLen(f);
    if !measure.Length? {
      return Refused(measure);
    }
    if cap < 1 {
      return Refused(WouldOverflow);
    }
    r := EncodeInto(f, measure.n, escaped, out, cap);
  }

  method EncodeInto(f: Frame, n: nat, escaped: bool, out: array<Byte>, cap: nat) returns (r: Encoded)
    requires 1 <= cap <= out.Length && DataLen(f) == Length(n)
    modifies out
    ensures var n := |Wire(escaped, FrameData(f))|; r == if n <= cap then Ok(n) else Refused(WouldOverflow)
    ensures r.Ok? ==> out[..r.len] == Wire(escaped, FrameData(f))
    ensures out[cap..] == old(out[cap..])
  {
    out[0] := START;
    var w := new Writer(out, cap, escaped);
    w.PutAll(f, n);
    w.BufferHolds();
    r := if w.overflow then Refused(WouldOverflow) else Ok(w.pos);
  }

  /** `xbee_frame_checksum`. */
  method ComputeChecksum(data: array<Byte>, len: nat) returns (c: Byte)
    requires len <= data.Length
    ensures c == Checksum(data[..len])
  {
    var sum: Byte := 0;
    for i := 0 to len
      invariant sum == Sum(data[..i])
    {
      assert data[..i + 1][..i] == data[..i];
      sum := (sum + data[i]) % 256;
    }
    c := 0xFF - sum;
  }

  /** Clearing the lowest set bit takes one off the count. */
  lemma {:induction false} ClearLowest(value: nat)
    requires value > 0
    ensures PopCount(And(value, value - 1)) == PopCount(value) - 1
  {
    if value % 2 == 1 {
      assert (value - 1) / 2 == value / 2;
      AndItself(value / 2);
      if value > 1 {
        assert And(value, value - 1) == 2 * (value / 2);
      }
    } else {
      assert (value - 1) / 2 == value / 2 - 1;
      ClearLowest(value / 2);
      assert And(value, value - 1) == 2 * And(value / 2, value / 2 - 1);
    }
  }

  /** `popcount16`: one turn of the loop for each set bit. */
  method CountBits(value: nat) returns (count: nat)
    ensures count == PopCount(value)
  {
    var rest := value;
    count := 0;
    while rest != 0
      invariant count + PopCount(rest) == PopCount(value)
      decreases rest
    {
      ClearLowest(rest);
      rest := And(rest, rest - 1);
      count := count + 1;
    }
  }

  /** The streaming parser. */
  class FrameParser {
    const buf: array<Byte>
    const cap: nat
    var escaped: bool
    var place: Place
    var len: nat
    var expected: nat
    var escapeNext: bool
    var overflowed: bool

    /** The buffer as a value: nothing is stored of a frame that is too long. */
    ghost function View(): (p: Parser)
      requires len <= buf.Length || overflowed
      reads this, buf
    {
      Parser(escaped, cap, place, if overflowed then [] else buf[..len], len, expected, escapeNext, overflowed)
    }

    ghost predicate Valid()
      reads this, buf
    {
      cap <= buf.Length && (len <= cap || overflowed) && Sane(View())
    }

    constructor (buffer: array<Byte>, room: nat, escapes: bool)
      requires 1 <= room <= buffer.Length
      ensures Valid() && buf == buffer && cap == room && View() == NewParser(escapes, room)
    {
      buf, cap, escaped := buffer, room, escapes;
      place, len, expected, escapeNext, overflowed := WaitStart, 0, 0, false, false;
    }

    /** `xbee_frame_parser_reset`. */
    method Reset()
      requires Valid()
      modifies this
      ensures Valid() && escaped == old(escaped) && View() == NewParser(escaped, cap)
    {
      place, len, expected, escapeNext, overflowed := WaitStart, 0, 0, false, false;
    }

    /** `xbee_frame_parser_set_escaped`, and the reset it begins with. */
    method SetEscaped(escapes: bool)
      requires Valid()
      modifies this
      ensures Valid() && View() == NewParser(escapes, cap)
    {
      Reset();
      escaped := escapes;
    }

    /** `xbee_frame_parser_feed`: one received byte, without ever writing outside the buffer. */
    method Feed(received: Byte) returns (verdict: Verdict)
      requires Valid()
      modifies this, buf
      ensures Valid()
      ensures View() == FrameWire.Feed(old(View()), received).0
      ensures verdict == FrameWire.Feed(old(View()), received).1
      ensures buf[cap..] == old(buf[cap..])
    {
      FeedStaysSane(View(), received);
      if received == START && !escapeNext {
        place, len, expected, escapeNext, overflowed := LenMsb, 0, 0, false, false;
        return InProgress;
      }
      if place.WaitStart? {
        return InProgress;
      }
      var byte := received;
      if escaped {
        if escapeNext {
          byte := Flip(byte);
          escapeNext := false;
        } else if byte == ESCAPE {
          escapeNext := true;
          return InProgress;
        }
      }
      verdict := TakeByte(byte);
    }

    method TakeByte(byte: Byte) returns (verdict: Verdict)
      requires Valid() && !place.WaitStart?
      modifies this, buf
      ensures cap <= buf.Length && (len <= cap || overflowed)
      ensures View() == Take(old(View()), byte).0
      ensures verdict == Take(old(View()), byte).1
      ensures buf[cap..] == old(buf[cap..])
    {
      verdict := InProgress;
      match place
      case LenMsb =>
        expected, place := byte * 256, LenLsb;
      case LenLsb =>
        expected := expected + byte;
        if expected == 0 {
          place := WaitStart;
        } else {
          overflowed, place := expected > cap, InData;
        }
      case InData =>
        if !overflowed {
          buf[len] := byte;
        }
        len := len + 1;
        assert !overflowed ==> buf[..len] == old(buf[..len]) + [byte];
        if len >= expected {
          place := AtChecksum;
        }
      case AtChecksum =>
        if overflowed {
          verdict := TooLong;
        } else {
          var sum := ComputeChecksum(buf, len);
          verdict := if sum != byte then BadChecksum else Delivered(buf[..len]);
        }
        place := WaitStart;
    }
  }
}

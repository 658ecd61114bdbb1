/**
 Frames on the wire: the delimiter, the escaped length, data and checksum, and the parser that
 takes them apart one byte at a time from whatever the line delivers.
 */
module FrameWire {
  import opened Base
  import opened FrameCodec

  const START: Byte := 0x7E
  const ESCAPE: Byte := 0x7D
  const XON: Byte := 0x11
  const XOFF: Byte := 0x13

  /** Worst case: everything but the delimiter escaped. */
  const MAX_ENCODED := 1 + 2 * (MAX_DATA + 3)

  predicate Special(b: Byte) { b == START || b == ESCAPE || b == XON || b == XOFF }

  /** Exclusive or with 0x20. */
  function Flip(b: Byte): (r: Byte)
    ensures if b / 0x20 % 2 == 1 then r == b - 0x20 else r == b + 0x20
  {
    if b / 0x20 % 2 == 1 then b - 0x20 else b + 0x20
  }

  lemma FlipTwice(b: Byte)
    ensures Flip(Flip(b)) == b
    ensures Special(b) ==> !Special(Flip(b))
  {
  }

  /** One byte as it is sent. */
  function Sent(escaped: bool, b: Byte): (bytes: seq<Byte>)
    ensures 1 <= |bytes| <= 2
  {
    if escaped && Special(b) then [ESCAPE, Flip(b)] else [b]
  }

  function SentAll(escaped: bool, data: seq<Byte>): (bytes: seq<Byte>)
    ensures |data| <= |bytes| <= 2 * |data|
    decreases |data|
  {
    if data == [] then [] else Sent(escaped, data[0]) + SentAll(escaped, data[1..])
  }

  lemma {:induction false} SentAllAppend(escaped: bool, a: seq<Byte>, b: seq<Byte>)
    ensures SentAll(escaped, a + b) == SentAll(escaped, a) + SentAll(escaped, b)
    decreases |a|
  {
    if a == [] {
      assert a + b == b;
    } else {
      SentAllAppend(escaped, a[1..], b);
      assert (a + b)[0] == a[0] && (a + b)[1..] == a[1..] + b;
      var s, t, u := Sent(escaped, a[0]), SentAll(escaped, a[1..]), SentAll(escaped, b);
      assert s + (t + u) == (s + t) + u;
    }
  }

  lemma SentOne(escaped: bool, b: Byte)
    ensures SentAll(escaped, [b]) == Sent(escaped, b)
  {
    assert [b][1..] == [];
  }

  /** In API mode 2 the delimiter never appears inside a frame. */
  lemma {:induction false} NoDelimiterInside(data: seq<Byte>)
    ensures START !in SentAll(true, data)
    decreases |data|
  {
    if data == [] {
    } else {
      NoDelimiterInside(data[1..]);
      FlipTwice(data[0]);
    }
  }

  lemma {:induction false} UnescapedIsItself(data: seq<Byte>)
    ensures SentAll(false, data) == data
    decreases |data|
  {
    if data == [] {
    } else {
      UnescapedIsItself(data[1..]);
    }
  }

  function Sum(data: seq<Byte>): (sum: Byte)
  {
    if data == [] then 0 else (Sum(data[..|data| - 1]) + data[|data| - 1]) % 256
  }

  /** `xbee_frame_checksum`. */
  function Checksum(data: seq<Byte>): (c: Byte) { 0xFF - Sum(data) }

  /** Everything after the delimiter, before escaping. */
  function Body(data: seq<Byte>): (body: seq<Byte>)
    requires |data| < 0x1_0000
  {
    [|data| / 256, |data| % 256] + data + [Checksum(data)]
  }

  /** A frame as sent. */
  function Wire(escaped: bool, data: seq<Byte>): (bytes: seq<Byte>)
    requires |data| < 0x1_0000
  {
    [START] + SentAll(escaped, Body(data))
  }

  /** No frame the host may send needs more than the worst case. */
  lemma WireFits(escaped: bool, data: seq<Byte>)
    requires |data| <= MAX_DATA
    ensures |Wire(escaped, data)| <= MAX_ENCODED
  {
  }

  // ---------------------------------------------------------------------------
  // The parser

  datatype Place = WaitStart | LenMsb | LenLsb | InData | AtChecksum

  datatype Parser = Parser(
    escaped: bool,
    cap: nat,
    place: Place,
    data: seq<Byte>,   // what is in the buffer
    len: nat,          // data bytes counted
    expected: nat,
    escapeNext: bool,
    overflowed: bool
  )

  datatype Verdict = InProgress | Delivered(data: seq<Byte>) | BadChecksum | TooLong

  function Fed(parser: Parser, verdict: Verdict): (r: (Parser, Verdict)) { (parser, verdict) }

  function Started(p: Parser): (r: Parser)
  {
    p.(place := LenMsb, data := [], len := 0, expected := 0, escapeNext := false, overflowed := false)
  }

  /** One unescaped byte inside a frame. */
  function Take(p: Parser, b: Byte): (r: (Parser, Verdict))
  {
    match p.place
    case WaitStart => Fed(p, InProgress)
    case LenMsb => Fed(p.(expected := b * 256, place := LenLsb), InProgress)
    case LenLsb =>
      var expected := p.expected + b;
      if expected == 0 then Fed(p.(expected := 0, place := WaitStart), InProgress)
      else Fed(p.(expected := expected, overflowed := expected > p.cap, place := InData), InProgress)
    case InData =>
      var p1 := p.(data := if p.overflowed then p.data else p.data + [b], len := p.len + 1);
      Fed(if p1.len >= p1.expected then p1.(place := AtChecksum) else p1, InProgress)
    case AtChecksum =>
      Fed(p.(place := WaitStart),
          if p.overflowed then TooLong
          else if Checksum(p.data) != b then BadChecksum
          else Delivered(p.data))
  }

  /** `xbee_frame_parser_feed`. */
  function Feed(p: Parser, b: Byte): (r: (Parser, Verdict))
    ensures r.0.escaped == p.escaped && r.0.cap == p.cap
  {
    if b == START && !p.escapeNext then Fed(Started(p), InProgress)
    else if p.place.WaitStart? then Fed(p, InProgress)
    else if p.escaped && p.escapeNext then Take(p.(escapeNext := false), Flip(b))
    else if p.escaped && b == ESCAPE then Fed(p.(escapeNext := true), InProgress)
    else Take(p, b)
  }

  function FeedAll(p: Parser, bytes: seq<Byte>): (r: (Parser, seq<Verdict>))
    ensures |r.1| == |bytes|
    ensures r.0.escaped == p.escaped && r.0.cap == p.cap
  {
    if bytes == [] then (p, [])
    else
      var before := FeedAll(p, bytes[..|bytes| - 1]);
      var last := Feed(before.0, bytes[|bytes| - 1]);
      (last.0, before.1 + [last.1])
  }

  lemma {:induction false} FeedAllAppend(p: Parser, a: seq<Byte>, b: seq<Byte>)
    ensures FeedAll(p, a + b).0 == FeedAll(FeedAll(p, a).0, b).0
    ensures FeedAll(p, a + b).1 == FeedAll(p, a).1 + FeedAll(FeedAll(p, a).0, b).1
  {
    if b == [] {
      assert a + b == a;
    } else {
      var n := |b| - 1;
      assert (a + b)[..|a + b| - 1] == a + b[..n];
      FeedAllAppend(p, a, b[..n]);
    }
  }

  lemma FeedOne(p: Parser, b: Byte)
    ensures FeedAll(p, [b]).0 == Feed(p, b).0
    ensures FeedAll(p, [b]).1 == [Feed(p, b).1]
  {
    assert [b][..0] == [];
    assert FeedAll(p, []) == (p, []);
  }

  lemma FeedTwo(p: Parser, a: Byte, b: Byte)
    ensures FeedAll(p, [a, b]).0 == Feed(Feed(p, a).0, b).0
    ensures FeedAll(p, [a, b]).1 == [Feed(p, a).1, Feed(Feed(p, a).0, b).1]
  {
    assert [a, b] == [a] + [b];
    FeedAllAppend(p, [a], [b]);
    FeedOne(p, a);
    FeedOne(Feed(p, a).0, b);
  }

  /** The last of the verdicts on a non-empty run of bytes; all before it are "in progress". */
  ghost predicate EndsIn(verdicts: seq<Verdict>, verdict: Verdict)
  {
    && verdicts != []
    && verdicts[|verdicts| - 1] == verdict
    && forall i :: 0 <= i < |verdicts| - 1 ==> verdicts[i] == InProgress
  }

  /** Bytes that take the parser from one state to another without a verdict. */
  ghost predicate Carries(p: Parser, bytes: seq<Byte>, q: Parser)
  {
    FeedAll(p, bytes).0 == q && forall i :: 0 <= i < |bytes| ==> FeedAll(p, bytes).1[i] == InProgress
  }

  lemma CarriesOn(p: Parser, a: seq<Byte>, q: Parser, b: seq<Byte>, r: Parser)
    requires Carries(p, a, q) && Carries(q, b, r)
    ensures Carries(p, a + b, r)
  {
    FeedAllAppend(p, a, b);
  }

  lemma CarriesToEnd(p: Parser, a: seq<Byte>, q: Parser, b: seq<Byte>, verdict: Verdict)
    requires Carries(p, a, q) && EndsIn(FeedAll(q, b).1, verdict)
    ensures EndsIn(FeedAll(p, a + b).1, verdict)
    ensures FeedAll(p, a + b).0 == FeedAll(q, b).0
  {
    FeedAllAppend(p, a, b);
  }

  /** Bytes after the delimiter contain no other, escaped or not. */
  predicate NoDelimiter(escaped: bool, data: seq<Byte>) { escaped || START !in data }

  /** A sent byte arrives as itself. */
  lemma OneArrives(p: Parser, b: Byte)
    requires !p.escapeNext && !p.place.WaitStart? && (p.escaped || b != START)
    ensures FeedAll(p, Sent(p.escaped, b)).0 == Take(p, b).0
    ensures EndsIn(FeedAll(p, Sent(p.escaped, b)).1, Take(p, b).1)
  {
    FlipTwice(b);
    if p.escaped && Special(b) {
      FeedTwo(p, ESCAPE, Flip(b));
      assert p.(escapeNext := true).(escapeNext := false) == p;
    } else {
      FeedOne(p, b);
    }
  }

  lemma OneCarries(p: Parser, b: Byte)
    requires !p.escapeNext && !p.place.WaitStart? && (p.escaped || b != START)
    requires Take(p, b).1 == InProgress
    ensures Carries(p, Sent(p.escaped, b), Take(p, b).0)
  {
    OneArrives(p, b);
  }

  /** Where the parser is after `k` data bytes of a frame of `n` it can hold. */
  function Midway(p: Parser, data: seq<Byte>, k: nat): (r: Parser)
    requires k <= |data|
    ensures r.escaped == p.escaped
  {
    p.(place := if k < |data| then InData else AtChecksum, data := data[..k], len := k, expected := |data|,
       escapeNext := false, overflowed := false)
  }

  lemma MidwayTakes(p: Parser, data: seq<Byte>, k: nat)
    requires k < |data|
    ensures Take(Midway(p, data, k), data[k]) == Fed(Midway(p, data, k + 1), InProgress)
  {
    assert data[..k + 1] == data[..k] + [data[k]];
  }

  lemma {:induction false} DataArrives(p: Parser, data: seq<Byte>, k: nat)
    requires k <= |data| && NoDelimiter(p.escaped, data)
    ensures Carries(Midway(p, data, 0), SentAll(p.escaped, data[..k]), Midway(p, data, k))
  {
    var start := Midway(p, data, 0);
    if k == 0 {
      assert SentAll(p.escaped, data[..0]) == [];
    } else {
      DataArrives(p, data, k - 1);
      var before, b := data[..k - 1], data[k - 1];
      assert data[..k] == before + [b];
      SentAllAppend(p.escaped, before, [b]);
      SentOne(p.escaped, b);
      MidwayTakes(p, data, k - 1);
      OneCarries(Midway(p, data, k - 1), b);
      CarriesOn(start, SentAll(p.escaped, before), Midway(p, data, k - 1), Sent(p.escaped, b), Midway(p, data, k));
    }
  }

  predicate Deliverable(p: Parser, data: seq<Byte>)
  {
    && 1 <= |data| <= p.cap && |data| < 0x1_0000
    && NoDelimiter(p.escaped, Body(data))
  }

  /** The two length bytes take the parser to the data. */
  lemma LengthArrives(p: Parser, data: seq<Byte>)
    requires Deliverable(p, data)
    ensures Carries(Started(p), SentAll(p.escaped, Body(data)[..2]), Midway(p, data, 0))
  {
    var high, low := |data| / 256, |data| % 256;
    assert Body(data)[..2] == [high] + [low];
    assert high == Body(data)[0] && low == Body(data)[1];
    SentAllAppend(p.escaped, [high], [low]);
    SentOne(p.escaped, high);
    SentOne(p.escaped, low);
    var s := Started(p);
    var s1 := Take(s, high).0;
    OneCarries(s, high);
    LengthTakes(p, data);
    OneCarries(s1, low);
    CarriesOn(s, Sent(p.escaped, high), s1, Sent(p.escaped, low), Midway(p, data, 0));
  }

  lemma LengthTakes(p: Parser, data: seq<Byte>)
    requires 1 <= |data| <= p.cap && |data| < 0x1_0000
    ensures Take(Take(Started(p), |data| / 256).0, |data| % 256) == Fed(Midway(p, data, 0), InProgress)
  {
    assert data[..0] == [];
  }

  /** The parser after a whole frame it could hold. */
  function Done(p: Parser, data: seq<Byte>): (r: Parser)
  {
    Midway(p, data, |data|).(place := WaitStart)
  }

  lemma SumArrives(p: Parser, data: seq<Byte>)
    requires Deliverable(p, data)
    ensures FeedAll(Midway(p, data, |data|), Sent(p.escaped, Checksum(data))).0 == Done(p, data)
    ensures EndsIn(FeedAll(Midway(p, data, |data|), Sent(p.escaped, Checksum(data))).1, Delivered(data))
  {
    assert data[..|data|] == data;
    assert Checksum(data) == Body(data)[|data| + 2];
    OneArrives(Midway(p, data, |data|), Checksum(data));
  }

  /** Everything after the delimiter is in progress, except that the last byte delivers the data. */
  lemma BodyArrives(p: Parser, data: seq<Byte>)
    requires Deliverable(p, data)
    ensures FeedAll(Started(p), SentAll(p.escaped, Body(data))).0 == Done(p, data)
    ensures EndsIn(FeedAll(Started(p), SentAll(p.escaped, Body(data))).1, Delivered(data))
  {
    var length, sum := Body(data)[..2], Checksum(data);
    var a, b, c := SentAll(p.escaped, length), SentAll(p.escaped, data), Sent(p.escaped, sum);
    assert SentAll(p.escaped, Body(data)) == a + b + c by {
      assert Body(data) == length + data + [sum];
      SentAllAppend(p.escaped, length + data, [sum]);
      SentAllAppend(p.escaped, length, data);
      SentOne(p.escaped, sum);
    }
    LengthArrives(p, data);
    assert NoDelimiter(p.escaped, data) by {
      assert forall i :: 0 <= i < |data| ==> data[i] == Body(data)[i + 2];
    }
    DataArrives(p, data, |data|);
    assert data[..|data|] == data;
    CarriesOn(Started(p), a, Midway(p, data, 0), b, Midway(p, data, |data|));
    SumArrives(p, data);
    CarriesToEnd(Started(p), a + b, Midway(p, data, |data|), c, Delivered(data));
  }

  /**
   A frame arrives whole: from any state without an escape pending, the bytes of a frame the
   buffer can hold are "in progress" up to the last one, which delivers exactly the data sent.
   In API mode 1 this needs the bytes after the delimiter to contain no other delimiter.
   */
  lemma FrameArrives(p: Parser, data: seq<Byte>)
    requires !p.escapeNext && Deliverable(p, data)
    ensures FeedAll(p, Wire(p.escaped, data)).0 == Done(p, data)
    ensures EndsIn(FeedAll(p, Wire(p.escaped, data)).1, Delivered(data))
  {
    FeedOne(p, START);
    BodyArrives(p, data);
    CarriesToEnd(p, [START], Started(p), SentAll(p.escaped, Body(data)), Delivered(data));
  }

  /**
   The whole path of a frame. What the host may send is at most 519 bytes on the wire in API
   mode 2, reaches a parser with room for it, and decodes to the frame that was sent.
   */
  lemma FrameRoundTrip(f: Frame, p: Parser)
    requires DataLen(f).Length? && (f.Raw? ==> !Documented(f.frameType))
    requires p.escaped && !p.escapeNext && p.cap >= DataLen(f).n
    ensures var data := FrameData(f);
      && |data| == DataLen(f).n && |Wire(true, data)| <= MAX_ENCODED
      && EndsIn(FeedAll(p, Wire(true, data)).1, Delivered(data))
      && Decode(data) == Some(f)
  {
    AnnouncedIsWritten(f);
    WireFits(true, FrameData(f));
    FrameArrives(p, FrameData(f));
    if f.Raw? {
      RawComesBackExactlyWhenUndocumented(f);
    } else {
      DecodeInvertsWriting(f);
    }
  }

  // ---------------------------------------------------------------------------
  // API mode 1

  /** In API mode 1 everything is counted from the last delimiter, `m` bytes ago. */
  predicate Counted(p: Parser, m: nat)
  {
    && !p.escaped && !p.escapeNext
    && (p.place.LenMsb? ==> m == 0)
    && (p.place.LenLsb? ==> m == 1)
    && (p.place.LenMsb? || p.place.LenLsb? ==> p.len == 0 && p.data == [] && !p.overflowed)
    && (p.place.InData? || p.place.AtChecksum? ==> m == p.len + 2 && (p.overflowed || |p.data| == p.len))
  }

  lemma {:induction false} CountsFromDelimiter(p: Parser, bytes: seq<Byte>)
    requires !p.escaped && !p.escapeNext && START !in bytes
    ensures Counted(FeedAll(Started(p), bytes).0, |bytes|)
  {
    if bytes == [] {
    } else {
      CountsFromDelimiter(p, bytes[..|bytes| - 1]);
      assert bytes[|bytes| - 1] in bytes;
    }
  }

  lemma {:induction false} LastDelimiter(bytes: seq<Byte>) returns (before: seq<Byte>, after: seq<Byte>)
    requires START in bytes
    ensures bytes == before + [START] + after && START !in after
  {
    var n := |bytes| - 1;
    if bytes[n] == START {
      before, after := bytes[..n], [];
    } else {
      before, after := LastDelimiter(bytes[..n]);
      after := after + [bytes[n]];
    }
  }

  /**
   In API mode 1 a frame is delivered by its last byte exactly when no byte after the delimiter
   looks like another one: a later delimiter makes the parser start over, and what it may then
   deliver is shorter than what was sent.
   */
  lemma UnescapedArrivesExactlyWithoutDelimiter(p: Parser, data: seq<Byte>)
    requires !p.escaped && !p.escapeNext && 1 <= |data| <= p.cap && |data| < 0x1_0000
    ensures var v := FeedAll(p, Wire(false, data)).1;
      v[|v| - 1] == Delivered(data) <==> START !in Body(data)
  {
    if START !in Body(data) {
      FrameArrives(p, data);
    } else {
      var before, after := RestartOf(data);
      RestartedDelivers(p, [START] + before, data, after);
    }
  }

  /** Where an unescaped frame looks as if it began again. */
  lemma RestartOf(data: seq<Byte>) returns (before: seq<Byte>, after: seq<Byte>)
    requires |data| < 0x1_0000 && START in Body(data)
    ensures Wire(false, data) == ([START] + before) + ([START] + after)
    ensures START !in after && |after| < |data| + 3
  {
    var body := Body(data);
    before, after := LastDelimiter(body);
    UnescapedIsItself(body);
    Regrouped(before, after);
  }

  lemma Regrouped(before: seq<Byte>, after: seq<Byte>)
    ensures [START] + (before + [START] + after) == ([START] + before) + ([START] + after)
  {
  }

  lemma RestartedDelivers(p: Parser, front: seq<Byte>, data: seq<Byte>, after: seq<Byte>)
    requires !p.escaped && !p.escapeNext && START !in after && |after| < |data| + 3
    ensures var v := FeedAll(p, front + ([START] + after)).1; v[|v| - 1] != Delivered(data)
  {
    FeedAllAppend(p, front, [START] + after);
    UnescapedNeverEscapes(p, front);
    RestartIsShorter(FeedAll(p, front).0, data, after);
  }

  lemma {:induction false} UnescapedNeverEscapes(p: Parser, bytes: seq<Byte>)
    requires !p.escaped && !p.escapeNext
    ensures !FeedAll(p, bytes).0.escapeNext
  {
    if bytes == [] {
    } else {
      UnescapedNeverEscapes(p, bytes[..|bytes| - 1]);
    }
  }

  lemma RestartIsShorter(q: Parser, data: seq<Byte>, after: seq<Byte>)
    requires !q.escaped && !q.escapeNext && START !in after
    requires |after| < |data| + 3
    ensures var v := FeedAll(q, [START] + after).1; v[|v| - 1] != Delivered(data)
  {
    FeedAllAppend(q, [START], after);
    FeedOne(q, START);
    if after != [] {
      var n := |after| - 1;
      CountsFromDelimiter(q, after[..n]);
      assert after[n] in after;
    }
  }

  // ---------------------------------------------------------------------------
  // Resynchronisation

  /** A parser that could be running: it never waits for a delimiter with an escape pending. */
  predicate Sane(p: Parser)
  {
    && (p.place.WaitStart? ==> !p.escapeNext)
    && (p.escapeNext ==> p.escaped)
    && (p.overflowed || |p.data| == p.len)
    && (p.place.InData? ==> p.len < p.expected && (p.overflowed <==> p.expected > p.cap))
    && (p.place.AtChecksum? ==> p.len == p.expected && (p.overflowed <==> p.expected > p.cap))
    && (p.place.LenMsb? || p.place.LenLsb? ==> p.len == 0 && !p.overflowed)
    && (p.place.LenLsb? ==> p.expected % 256 == 0)
  }

  /** Any byte keeps the parser sane, and a byte to be stored has a place inside the buffer. */
  lemma FeedStaysSane(p: Parser, b: Byte)
    requires Sane(p)
    ensures Sane(Feed(p, b).0)
    ensures p.place.InData? && !p.overflowed ==> p.len < p.cap
  {
  }

  lemma {:induction false} FeedAllStaysSane(p: Parser, bytes: seq<Byte>)
    requires Sane(p)
    ensures Sane(FeedAll(p, bytes).0)
  {
    if bytes == [] {
    } else {
      FeedAllStaysSane(p, bytes[..|bytes| - 1]);
      FeedStaysSane(FeedAll(p, bytes[..|bytes| - 1]).0, bytes[|bytes| - 1]);
    }
  }

  /** Whatever state it starts in, the parser comes out of a sent byte with no escape pending. */
  lemma OneClearsEscape(p: Parser, b: Byte)
    requires p.escaped && Sane(p) && !p.escapeNext
    ensures var p1 := FeedAll(p, Sent(true, b)).0; p1.escaped && Sane(p1) && !p1.escapeNext
  {
    FlipTwice(b);
    FeedAllStaysSane(p, Sent(true, b));
    if Special(b) {
      FeedTwo(p, ESCAPE, Flip(b));
    } else {
      FeedOne(p, b);
    }
  }

  lemma {:induction false} AllClearEscape(p: Parser, data: seq<Byte>)
    requires p.escaped && Sane(p) && !p.escapeNext
    ensures var p1 := FeedAll(p, SentAll(true, data)).0; p1.escaped && Sane(p1) && !p1.escapeNext
    decreases |data|
  {
    if data == [] {
    } else {
      OneClearsEscape(p, data[0]);
      FeedAllAppend(p, Sent(true, data[0]), SentAll(true, data[1..]));
      AllClearEscape(FeedAll(p, Sent(true, data[0])).0, data[1..]);
    }
  }

  /** A whole frame leaves no escape pending, even if its delimiter was swallowed by one. */
  lemma FrameClearsEscape(p: Parser, data: seq<Byte>)
    requires p.escaped && Sane(p) && |data| < 0x1_0000
    ensures var p1 := FeedAll(p, Wire(true, data)).0; p1.escaped && Sane(p1) && !p1.escapeNext
  {
    FeedAllAppend(p, [START], SentAll(true, Body(data)));
    FeedOne(p, START);
    FeedStaysSane(p, START);
    AllClearEscape(Feed(p, START).0, Body(data));
  }

  /** A new parser. */
  function NewParser(escaped: bool, cap: nat): (p: Parser)
    ensures Sane(p)
  {
    Parser(escaped, cap, WaitStart, [], 0, 0, false, false)
  }

  /**
   Resynchronisation. After any bytes whatever, of two frames sent back to back the second is
   always delivered intact, and the first too unless the noise left an escape pending.
   */
  lemma Resynchronises(cap: nat, noise: seq<Byte>, first: seq<Byte>, second: seq<Byte>)
    requires 1 <= |first| <= cap && |first| < 0x1_0000 && 1 <= |second| <= cap && |second| < 0x1_0000
    ensures var p := FeedAll(NewParser(true, cap), noise).0;
      var v := FeedAll(p, Wire(true, first) + Wire(true, second)).1;
      && v[|v| - 1] == Delivered(second)
      && (!p.escapeNext ==> v[|Wire(true, first)| - 1] == Delivered(first))
  {
    var p := FeedAll(NewParser(true, cap), noise).0;
    FeedAllStaysSane(NewParser(true, cap), noise);
    FeedAllAppend(p, Wire(true, first), Wire(true, second));
    FrameClearsEscape(p, first);
    FrameArrives(FeedAll(p, Wire(true, first)).0, second);
    if !p.escapeNext {
      FrameArrives(p, first);
    }
  }
}

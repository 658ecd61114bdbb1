/**
 Answers as values: which request a frame is for, what becomes of it, and what becomes of all the
 requests of a table over a whole pass.
 */
module ApiAnswers {
  import opened Base
  import opened Ticks
  import opened FrameCodec
  import opened FrameWire

  const RESPONSE_MAX := 128

  datatype Status = Ok | InvalidState | NoMoreResource | InvalidParameter | NotSupported | WouldOverflow | Timeout
                  | Aborted | Truncated | Failure | InProgress

  datatype RequestState = Idle | Pending | Done | Failed

  /** The type byte of a frame. */
  function TypeOf(f: Frame): (t: Byte)
    ensures !DataLen(f).NotSupported? ==> t == FrameData(f)[0]
  {
    match f
    case Raw(t, _) => t
    case Tx64(_, _, _, _) => 0x00
    case Tx16(_, _, _, _) => 0x01
    case At(queued, _, _, _) => if queued then 0x09 else 0x08
    case TxRequest(_, _, _, _, _, _) => 0x10
    case ExplicitTx(_, _, _, _, _, _, _, _, _, _) => 0x11
    case RemoteAt(_, _, _, _, _, _) => 0x17
    case BleUnlock(_, _) => 0x2C
    case UserRelay(_, _, _) => 0x2D
    case SecureControl(_, _, _, _) => 0x2E
    case Rx64(_, _, _, _) => 0x80
    case Rx16(_, _, _, _) => 0x81
    case Io64(_, _, _, _) => 0x82
    case Io16(_, _, _, _) => 0x83
    case AtResponse(_, _, _, _) => 0x88
    case TxStatus(_, _) => 0x89
    case ModemStatus(_) => 0x8A
    case ExtTxStatus(_, _, _, _, _) => 0x8B
    case Rx(_, _, _, _) => 0x90
    case ExplicitRx(_, _, _, _, _, _, _, _) => 0x91
    case IoSampleFrame(_, _, _, _) => 0x92
    case RemoteAtResponse(_, _, _, _, _, _) => 0x97
    case ExtModemStatus(_, _) => 0x98
    case BleUnlockResponse(_, _) => 0xAC
    case UserRelayOutput(_, _) => 0xAD
    case SecureResponse(_, _, _) => 0xAE
  }

  /** `xbee_frame_has_frame_id`; a raw frame never counts as carrying one. */
  predicate HasId(f: Frame)
  {
    f.Tx64? || f.Tx16? || f.At? || f.TxRequest? || f.ExplicitTx? || f.RemoteAt? || f.UserRelay?
    || f.AtResponse? || f.TxStatus? || f.ExtTxStatus? || f.RemoteAtResponse?
  }

  function WithId(f: Frame, id: Byte): (r: Frame)
    requires HasId(f)
    ensures HasId(r) && r.id == id && TypeOf(r) == TypeOf(f) && DataLen(r) == DataLen(f)
  {
    f.(id := id)
  }

  /** `response_type_for`: the type that answers a request, or zero. */
  function AnswerType(requestType: Byte): (t: Byte)
  {
    match requestType
    case 0x08 => 0x88
    case 0x09 => 0x88
    case 0x17 => 0x97
    case 0x00 => 0x89
    case 0x01 => 0x89
    case 0x2D => 0x89
    case 0x10 => 0x8B
    case 0x11 => 0x8B
    case 0x2C => 0xAC
    case 0x2E => 0xAE
    case _ => 0
  }

  // ---------------------------------------------------------------------------
  // Requests and tables as values

  datatype Held = Held(
    state: RequestState,
    result: Status,
    id: Byte,
    expectType: Byte,
    multi: bool,
    responses: nat,
    deadline: Tick,
    data: seq<Byte>,
    response: Option<Frame>,
    completions: nat
  )

  /** The requests in the slots when a pass began, those that have completed since among them. */
  type Table = seq<Option<Held>>

  /** A frame is for a request in flight that awaits its type and, if it names one, its identifier. */
  predicate Takes(h: Held, f: Frame)
  {
    h.state.Pending? && h.expectType == TypeOf(f) && (HasId(f) ==> h.id == f.id)
  }

  /** A frame as the parser delivers it is for a request. */
  predicate IsFor(h: Held, data: seq<Byte>)
  {
    var f := Decode(data);
    f.Some? && Takes(h, f.value)
  }

  predicate SlotTakes(t: Table, i: nat, f: Frame)
    requires i < |t|
  {
    t[i].Some? && Takes(t[i].value, f)
  }

  /** The first slot a frame is for, or the size of the table. */
  function Taker(t: Table, f: Frame): (i: nat)
    ensures i <= |t| && (i < |t| ==> SlotTakes(t, i, f))
    ensures forall k: nat :: k < i ==> !SlotTakes(t, k, f)
  {
    TakerFrom(t, f, 0)
  }

  function TakerFrom(t: Table, f: Frame, from: nat): (i: nat)
    requires from <= |t|
    ensures from <= i <= |t| && (i < |t| ==> SlotTakes(t, i, f))
    ensures forall k: nat :: from <= k < i ==> !SlotTakes(t, k, f)
    decreases |t| - from
  {
    if from == |t| || SlotTakes(t, from, f) then from else TakerFrom(t, f, from + 1)
  }

  lemma TakerIs(t: Table, f: Frame, i: nat)
    requires i <= |t| && (i < |t| ==> SlotTakes(t, i, f))
    requires forall k: nat :: k < i ==> !SlotTakes(t, k, f)
    ensures Taker(t, f) == i
  {
  }

  /** A request that ends. */
  function Ended(h: Held, with: Status): (r: Held)
  {
    h.(result := with, state := if with.Ok? then Done else Failed, completions := h.completions + 1)
  }

  /** A request that gets an answer: a collection goes on, anything else ends. */
  function Answered(h: Held, f: Frame, data: seq<Byte>): (r: Held)
  {
    if |data| > RESPONSE_MAX then Ended(h, Status.WouldOverflow)
    else
      var kept := h.(data := data, response := Some(f), responses := h.responses + 1);
      if h.multi then kept else Ended(kept, Ok)
  }

  function Dispatched(t: Table, f: Frame, data: seq<Byte>): (r: Table)
    ensures |r| == |t|
  {
    var i := Taker(t, f);
    if i < |t| then t[i := Some(Answered(t[i].value, f, data))] else t
  }

  /** One frame from the parser. */
  function Handled(t: Table, data: seq<Byte>): (r: Table)
    ensures |r| == |t|
  {
    match Decode(data)
    case None => t
    case Some(f) => Dispatched(t, f, data)
  }

  /** What the unsolicited callback gets of it. */
  function Unclaimed(t: Table, data: seq<Byte>): (frames: seq<Frame>)
  {
    match Decode(data)
    case None => []
    case Some(f) => if Taker(t, f) < |t| then [] else [f]
  }

  function HandledAll(t: Table, frames: seq<seq<Byte>>): (r: Table)
    ensures |r| == |t|
  {
    if frames == [] then t else Handled(HandledAll(t, frames[..|frames| - 1]), frames[|frames| - 1])
  }

  function UnclaimedAll(t: Table, frames: seq<seq<Byte>>): (r: seq<Frame>)
  {
    if frames == [] then []
    else
      var init, last := frames[..|frames| - 1], frames[|frames| - 1];
      UnclaimedAll(t, init) + Unclaimed(HandledAll(t, init), last)
  }

  lemma HandledOneMore(t: Table, frames: seq<seq<Byte>>, data: seq<Byte>)
    ensures HandledAll(t, frames + [data]) == Handled(HandledAll(t, frames), data)
    ensures UnclaimedAll(t, frames + [data]) == UnclaimedAll(t, frames) + Unclaimed(HandledAll(t, frames), data)
  {
    assert (frames + [data])[..|frames|] == frames;
  }

  /** The frames among the verdicts of the parser. */
  function Deliveries(verdicts: seq<Verdict>): (frames: seq<seq<Byte>>)
  {
    if verdicts == [] then []
    else
      Deliveries(verdicts[..|verdicts| - 1]) + Delivery(verdicts[|verdicts| - 1])
  }

  /** The frames that bytes complete. */
  function FramesIn(p: Parser, bytes: seq<Byte>): (frames: seq<seq<Byte>>)
  {
    Deliveries(FeedAll(p, bytes).1)
  }

  /** One more byte completes at most one more frame. */
  lemma OneMoreDelivery(p: Parser, bytes: seq<Byte>, i: nat)
    requires i < |bytes|
    ensures var last := Feed(FeedAll(p, bytes[..i]).0, bytes[i]);
      && FeedAll(p, bytes[..i + 1]).0 == last.0
      && FramesIn(p, bytes[..i + 1]) == FramesIn(p, bytes[..i]) + Delivery(last.1)
  {
    var before := FeedAll(p, bytes[..i]);
    var verdict := Feed(before.0, bytes[i]).1;
    assert bytes[..i + 1][..i] == bytes[..i];
    assert (before.1 + [verdict])[..|before.1|] == before.1;
  }

  function Delivery(v: Verdict): (frames: seq<seq<Byte>>) { if v.Delivered? then [v.data] else [] }

  lemma HandledDelivery(t: Table, v: Verdict)
    ensures HandledAll(t, Delivery(v)) == if v.Delivered? then Handled(t, v.data) else t
    ensures UnclaimedAll(t, Delivery(v)) == if v.Delivered? then Unclaimed(t, v.data) else []
  {
    if v.Delivered? {
      HandledOneMore(t, [], v.data);
      assert [] + [v.data] == [v.data];
    }
  }

  lemma HandledMore(t: Table, frames: seq<seq<Byte>>, v: Verdict)
    ensures HandledAll(t, frames + Delivery(v)) == HandledAll(HandledAll(t, frames), Delivery(v))
    ensures UnclaimedAll(t, frames + Delivery(v))
         == UnclaimedAll(t, frames) + UnclaimedAll(HandledAll(t, frames), Delivery(v))
  {
    if v.Delivered? {
      HandledOneMore(t, frames, v.data);
      HandledDelivery(HandledAll(t, frames), v);
    } else {
      assert frames + [] == frames;
    }
  }

  lemma OneMoreByte(p: Parser, t: Table, claimed: seq<Frame>, bytes: seq<Byte>, i: nat)
    requires i < |bytes|
    ensures var last, t1 := Feed(FeedAll(p, bytes[..i]).0, bytes[i]), HandledAll(t, FramesIn(p, bytes[..i]));
      && FeedAll(p, bytes[..i + 1]).0 == last.0
      && HandledAll(t, FramesIn(p, bytes[..i + 1])) == HandledAll(t1, Delivery(last.1))
      && claimed + UnclaimedAll(t, FramesIn(p, bytes[..i + 1]))
         == claimed + UnclaimedAll(t, FramesIn(p, bytes[..i])) + UnclaimedAll(t1, Delivery(last.1))
  {
    OneMoreDelivery(p, bytes, i);
    var frames, v := FramesIn(p, bytes[..i]), Feed(FeedAll(p, bytes[..i]).0, bytes[i]).1;
    HandledMore(t, frames, v);
    Appended(claimed, UnclaimedAll(t, frames), UnclaimedAll(HandledAll(t, frames), Delivery(v)));
  }

  lemma Appended(a: seq<Frame>, b: seq<Frame>, c: seq<Frame>)
    ensures a + (b + c) == a + b + c
  {
  }

  /** How an overdue request ends: for a collection that got answers the deadline is its end. */
  function LapseResult(multi: bool, responses: nat): (s: Status)
  {
    if multi && responses > 0 then Ok else Timeout
  }

  function Lapsed(h: Held, now: Tick): (r: Held)
  {
    if h.state.Pending? && Reached(now, h.deadline) then Ended(h, LapseResult(h.multi, h.responses)) else h
  }

  function Expired(t: Table, now: Tick): (r: Table)
    ensures |r| == |t|
    ensures forall i :: 0 <= i < |t| ==> r[i] == if t[i].None? then None else Some(Lapsed(t[i].value, now))
  {
    seq(|t|, i requires 0 <= i < |t| => if t[i].None? then None else Some(Lapsed(t[i].value, now)))
  }

  /** Every request in the slots is in flight and has not completed, or has completed once. */
  predicate EachOnce(t: Table)
  {
    forall i :: 0 <= i < |t| && t[i].Some? ==>
      var h := t[i].value;
      if h.state.Pending? then h.completions == 0 else (h.state.Done? || h.state.Failed?) && h.completions == 1
  }

  /** Whatever frames arrive, and whenever the deadlines are looked at, nothing completes twice. */
  lemma {:induction false} EveryRequestEndsOnce(t: Table, frames: seq<seq<Byte>>, now: Tick)
    requires EachOnce(t)
    ensures EachOnce(HandledAll(t, frames)) && EachOnce(Expired(HandledAll(t, frames), now))
  {
    if frames == [] {
    } else {
      EveryRequestEndsOnce(t, frames[..|frames| - 1], now);
    }
  }

  function LapsedAt(t: Table, i: nat, now: Tick): (r: Table)
    requires i < |t|
  {
    if t[i].None? then t else t[i := Some(Lapsed(t[i].value, now))]
  }

  /** The deadlines of the first slots have been looked at. */
  function ExpiredTo(t: Table, now: Tick, n: nat): (r: Table)
    requires n <= |t|
    ensures |r| == |t|
  {
    if n == 0 then t else LapsedAt(ExpiredTo(t, now, n - 1), n - 1, now)
  }

  lemma {:induction false} ExpiredSoFar(t: Table, now: Tick, n: nat)
    requires n <= |t|
    ensures ExpiredTo(t, now, n) == Expired(t, now)[..n] + t[n..]
  {
    if n == 0 {
      assert Expired(t, now)[..0] == [];
    } else {
      ExpiredSoFar(t, now, n - 1);
    }
  }

  // ---------------------------------------------------------------------------
  // Every request as if it were alone

  /** What frames do to a request on its own. */
  function AnsweredAll(h: Held, frames: seq<seq<Byte>>): (r: Held)
  {
    if frames == [] then h
    else
      var before, data := AnsweredAll(h, frames[..|frames| - 1]), frames[|frames| - 1];
      if IsFor(before, data) then Answered(before, Decode(data).value, data) else before
  }

  /** Requests in flight that carry an identifier carry different ones. */
  ghost predicate Named(t: Table)
  {
    forall i, j :: 0 <= i < j < |t| && Names(t[i]) && Names(t[j]) ==> t[i].value.id != t[j].value.id
  }

  predicate Names(slot: Option<Held>)
  {
    slot.Some? && slot.value.state.Pending? && slot.value.id != 0
  }

  /** Awaits a type of answer that names its request. */
  predicate Identified(h: Held)
  {
    h.id != 0 && (h.expectType == 0x88 || h.expectType == 0x89 || h.expectType == 0x8B || h.expectType == 0x97)
  }

  lemma IdentifiedIsNamed(h: Held, data: seq<Byte>)
    requires Identified(h) && IsFor(h, data)
    ensures HasId(Decode(data).value)
  {
  }

  lemma HandledKeepsNamed(t: Table, data: seq<Byte>)
    requires Named(t)
    ensures Named(Handled(t, data))
  {
    var r := Handled(t, data);
    assert forall i :: 0 <= i < |t| && Names(r[i]) ==> Names(t[i]) && r[i].value.id == t[i].value.id;
  }

  lemma HandledSlot(t: Table, data: seq<Byte>, i: nat)
    requires Named(t) && i < |t| && t[i].Some? && Identified(t[i].value)
    ensures var f, r := Decode(data), Handled(t, data)[i];
      r == if IsFor(t[i].value, data) then Some(Answered(t[i].value, f.value, data)) else t[i]
  {
    var f := Decode(data);
    if IsFor(t[i].value, data) {
      IdentifiedIsNamed(t[i].value, data);
      var k := Taker(t, f.value);
      assert SlotTakes(t, i, f.value);
      assert k == i by {
        assert Names(t[k]) && Names(t[i]) && t[k].value.id == t[i].value.id;
      }
    }
  }

  /**
   Requests do not disturb each other: whatever frames arrive, and whatever else is in flight, a
   request with an identifier ends up as if it had been the only one.
   */
  lemma {:induction false} RequestsDoNotInterfere(t: Table, frames: seq<seq<Byte>>, i: nat)
    requires Named(t) && i < |t| && t[i].Some? && Identified(t[i].value)
    ensures Named(HandledAll(t, frames))
    ensures HandledAll(t, frames)[i] == Some(AnsweredAll(t[i].value, frames))
    ensures Identified(AnsweredAll(t[i].value, frames))
  {
    if frames == [] {
    } else {
      var init, last := frames[..|frames| - 1], frames[|frames| - 1];
      RequestsDoNotInterfere(t, init, i);
      HandledKeepsNamed(HandledAll(t, init), last);
      HandledSlot(HandledAll(t, init), last, i);
    }
  }

  /** The first of the frames that is for a request, or their number. */
  function FirstFor(h: Held, frames: seq<seq<Byte>>): (k: nat)
    ensures k <= |frames|
    ensures k < |frames| ==> IsFor(h, frames[k])
    ensures forall j :: 0 <= j < k ==> !IsFor(h, frames[j])
  {
    if frames == [] then 0
    else
      var n := |frames| - 1;
      var init := frames[..n];
      var k := FirstFor(h, init);
      assert forall j :: 0 <= j < n ==> init[j] == frames[j];
      if k < n then k else if IsFor(h, frames[n]) then n else n + 1
  }

  /** A request for one answer gets the first that is for it, and nothing changes it afterwards. */
  lemma {:induction false} FirstAnswerCounts(h: Held, frames: seq<seq<Byte>>)
    requires h.state.Pending? && !h.multi
    ensures var k := FirstFor(h, frames);
      AnsweredAll(h, frames)
      == if k == |frames| then h else Answered(h, Decode(frames[k]).value, frames[k])
  {
    if frames == [] {
    } else {
      FirstAnswerCounts(h, frames[..|frames| - 1]);
    }
  }

  /**
   A request for one answer, in flight under its identifier, completes in a stretch of frames
   exactly if one of them is for it, with the first such frame as its answer.
   */
  lemma NamedRequestIsAnswered(t: Table, frames: seq<seq<Byte>>, i: nat)
    requires Named(t) && i < |t| && t[i].Some? && Identified(t[i].value)
    requires t[i].value.state.Pending? && !t[i].value.multi
    ensures var h, r := t[i].value, HandledAll(t, frames)[i];
      var k := FirstFor(h, frames);
      && r.Some?
      && (r.value.state.Pending? <==> k == |frames|)
      && (k < |frames| && |frames[k]| <= RESPONSE_MAX ==>
            r.value.state.Done? && r.value.response == Decode(frames[k]) && r.value.data == frames[k])
  {
    RequestsDoNotInterfere(t, frames, i);
    FirstAnswerCounts(t[i].value, frames);
  }

  /** How many of the frames are for a request and fit its buffer. */
  function CountFor(h: Held, frames: seq<seq<Byte>>): (n: nat)
  {
    if frames == [] then 0
    else
      var data := frames[|frames| - 1];
      CountFor(h, frames[..|frames| - 1])
      + if IsFor(h, data) then 1 else 0
  }

  /** A collection goes on through every answer that fits, and counts them all. */
  lemma {:induction false} CollectionCountsAll(h: Held, frames: seq<seq<Byte>>)
    requires h.state.Pending? && h.multi
    requires forall k :: 0 <= k < |frames| ==> |frames[k]| <= RESPONSE_MAX
    ensures var r := AnsweredAll(h, frames);
      && r.responses == h.responses + CountFor(h, frames)
      && r == h.(responses := r.responses, data := r.data, response := r.response)
  {
    if frames == [] {
    } else {
      var init := frames[..|frames| - 1];
      assert forall k :: 0 <= k < |init| ==> init[k] == frames[k];
      CollectionCountsAll(h, init);
    }
  }

  /** The answer to a request, arriving whole in API mode 2 at a parser with no escape pending, completes it. */
  lemma AnswerOnTheLineCompletes(t: Table, i: nat, p: Parser, data: seq<Byte>)
    requires Named(t) && i < |t| && t[i].Some? && Identified(t[i].value)
    requires t[i].value.state.Pending? && !t[i].value.multi
    requires p.escaped && !p.escapeNext && 1 <= |data| <= p.cap && |data| <= RESPONSE_MAX
    requires IsFor(t[i].value, data)
    ensures var r := HandledAll(t, FramesIn(p, Wire(true, data)))[i];
      r.Some? && r.value.state.Done? && r.value.result.Ok? && r.value.response == Decode(data)
  {
    var v := FeedAll(p, Wire(true, data)).1;
    FrameArrives(p, data);
    QuietUntilLast(v, data);
    NamedRequestIsAnswered(t, [data], i);
    assert [data][..0] == [];
  }

  lemma {:induction false} QuietUntilLast(v: seq<Verdict>, data: seq<Byte>)
    requires v != [] && v[|v| - 1] == Delivered(data)
    requires forall i :: 0 <= i < |v| - 1 ==> v[i].InProgress?
    ensures Deliveries(v) == [data]
  {
    AllQuiet(v[..|v| - 1]);
  }

  lemma {:induction false} AllQuiet(v: seq<Verdict>)
    requires forall i :: 0 <= i < |v| ==> v[i].InProgress?
    ensures Deliveries(v) == []
  {
    if v == [] {
    } else {
      AllQuiet(v[..|v| - 1]);
    }
  }
}

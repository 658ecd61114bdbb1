/**
 The API-mode transport: which requests are in flight, under which identifiers, and how each of
 them ends.

 Requests are objects their callers own; the table only refers to them.
 */
module Api {
  import opened Base
  import opened Ticks
  import opened FrameCodec
  import FrameLine
  import opened ApiAnswers

  // ---------------------------------------------------------------------------
  // Identifiers

  function Successor(id: Byte): (r: Byte)
    requires 1 <= id <= 255
    ensures 1 <= r <= 255
  {
    if id == 255 then 1 else id + 1
  }

  /** The identifier `k` steps round the cycle. */
  function Cycle(id: Byte, k: nat): (r: Byte)
    requires 1 <= id <= 255
    ensures 1 <= r <= 255
  {
    if k == 0 then id else Successor(Cycle(id, k - 1))
  }

  lemma {:induction false} CycleIsArithmetic(id: Byte, k: nat)
    requires 1 <= id <= 255 && k < 255
    ensures Cycle(id, k) == if id + k <= 255 then id + k else id + k - 255
  {
    if k == 0 {
    } else {
      CycleIsArithmetic(id, k - 1);
    }
  }

  /** The 255 steps of the scan try every identifier. */
  lemma CycleReaches(id: Byte, target: Byte) returns (k: nat)
    requires 1 <= id <= 255 && 1 <= target <= 255
    ensures k < 255 && Cycle(id, k) == target
  {
    k := if target >= id then target - id else target + 255 - id;
    CycleIsArithmetic(id, k);
  }

  /** The numbers from one to `n`. */
  function UpTo(n: nat): (r: set<nat>)
    ensures |r| == n && forall x :: x in r <==> 1 <= x <= n
  {
    if n == 0 then {} else UpTo(n - 1) + {n}
  }

  /** The numbers in a sequence. */
  function Numbers(s: seq<nat>): (r: set<nat>) { set i | 0 <= i < |s| :: s[i] }

  lemma {:induction false} FewNumbers(s: seq<nat>)
    ensures |Numbers(s)| <= |s|
  {
    if s == [] {
      assert Numbers(s) == {};
    } else {
      var n := |s| - 1;
      FewNumbers(s[..n]);
      assert Numbers(s) == Numbers(s[..n]) + {s[n]};
    }
  }

  lemma {:induction false} SubsetIsSmaller(a: set<nat>, b: set<nat>)
    requires a <= b
    ensures |a| <= |b|
  {
    if a == {} {
    } else {
      var x :| x in a;
      SubsetIsSmaller(a - {x}, b - {x});
    }
  }

  /** Pigeonhole: fewer than 255 numbers cannot be all the identifiers. */
  lemma SomeIdIsFree(used: seq<nat>)
    requires |used| < 255
    ensures exists id: nat :: 1 <= id <= 255 && id !in used
  {
    if forall id: nat :: 1 <= id <= 255 ==> id in used {
      forall id | id in UpTo(255)
        ensures id in Numbers(used)
      {
        assert id in used;
      }
      FewNumbers(used);
      SubsetIsSmaller(UpTo(255), Numbers(used));
    }
  }

  // ---------------------------------------------------------------------------
  // Requests

  class Request {
    var state: RequestState
    var result: Status
    var id: Byte
    var requestType: Byte
    var expectType: Byte
    var multi: bool
    var responses: nat
    var deadline: Tick
    var responseData: seq<Byte>
    var response: Option<Frame>
    ghost var carriesId: bool     // the frame sent carried an identifier
    ghost var completions: nat    // how often it has completed since it was sent

    constructor ()
      ensures state.Idle? && completions == 0
    {
      state, result, id, requestType, expectType, multi := Idle, Ok, 0, 0, 0, false;
      responses, deadline, responseData, response := 0, 0, [], None;
      carriesId, completions := false, 0;
    }

    /** In flight: sent, awaiting an answer of some type, not completed. */
    ghost predicate InFlight()
      reads this
    {
      state.Pending? && result.InProgress? && expectType != 0 && completions == 0 && (carriesId <==> id != 0)
    }

    ghost function Value(): (h: Held)
      reads this
    {
      Held(state, result, id, expectType, multi, responses, deadline, responseData, response, completions)
    }

    /** Completed exactly once, with a result that goes with the state. */
    ghost predicate Completed(with: Status)
      reads this
    {
      result == with && state == (if with.Ok? then Done else Failed) && completions == 1
    }

    predicate IsComplete()
      reads this
    {
      state.Done? || state.Failed?
    }

    method Complete(with: Status)
      requires InFlight()
      modifies this`result, this`state, this`completions
      ensures Completed(with) && Value() == Ended(old(Value()), with)
    {
      result := with;
      state := if with.Ok? then Done else Failed;
      completions := completions + 1;
    }

    /** Back to the initial state. */
    method Clear()
      modifies this
      ensures state.Idle? && responses == 0 && completions == 0
    {
      state, result, id, requestType, expectType, multi := Idle, Ok, 0, 0, 0, false;
      responses, deadline, responseData, response := 0, 0, [], None;
      carriesId, completions := false, 0;
    }

    /** The fields a send fills in, before it is known whether an answer will come. */
    method Fill(frameId: Byte, sentType: Byte, answer: Byte, several: bool, due: Tick, ghost carries: bool)
      modifies this
      ensures state.Pending? && result.InProgress? && id == frameId && requestType == sentType
      ensures expectType == answer && multi == several && deadline == due && responses == 0
      ensures carriesId == carries && completions == 0
    {
      Clear();
      state, result, id, requestType, expectType := Pending, InProgress, frameId, sentType, answer;
      multi, deadline := several, due;
      carriesId := carries;
    }

    /** `store_response`. */
    method Store(data: seq<Byte>) returns (s: Status)
      modifies this`responseData, this`response
      ensures s == if |data| > RESPONSE_MAX then Status.WouldOverflow else if Decode(data).None? then Truncated else Ok
      ensures |data| > RESPONSE_MAX ==> responseData == old(responseData) && response == old(response)
      ensures |data| <= RESPONSE_MAX ==> responseData == data && response == Decode(data)
    {
      if |data| > RESPONSE_MAX {
        return Status.WouldOverflow;
      }
      responseData := data;
      response := Decode(data);
      s := if response.None? then Truncated else Ok;
    }

    /** Store an answer, and count it. */
    method Keep(data: seq<Byte>) returns (s: Status)
      requires Decode(data).Some?
      modifies this`responseData, this`response, this`responses
      ensures s == if |data| > RESPONSE_MAX then Status.WouldOverflow else Ok
      ensures Value()
           == if !s.Ok? then old(Value())
              else old(Value()).(data := data, response := Decode(data), responses := old(responses) + 1)
    {
      s := Store(data);
      if s.Ok? {
        responses := responses + 1;
      }
    }
  }

  /** Emptying one slot of a table of distinct requests removes that request and no other. */
  lemma EmptyOne(was: seq<Request?>, index: nat)
    requires index < |was|
    requires forall i, j :: 0 <= i < j < |was| && was[i] != null ==> was[i] != was[j]
    ensures forall r: Request :: r in was[index := null] <==> r in was && r != was[index]
  {
    var now := was[index := null];
    forall r: Request
      ensures r in now <==> r in was && r != was[index]
    {
      if r in was && r != was[index] {
        var k :| 0 <= k < |was| && was[k] == r;
        assert now[k] == r;
      }
      if r in now {
        var k :| 0 <= k < |now| && now[k] == r;
        assert was[k] == r;
      }
    }
  }

  ghost predicate AllDistinct(roll: seq<Request?>)
  {
    forall i, j :: 0 <= i < j < |roll| && roll[i] != null ==> roll[i] != roll[j]
  }

  /** The requests of a roll that are still in flight, each in its slot. */
  ghost function Waiting(roll: seq<Request?>): (left: seq<Request?>)
    reads set r: Request | r in roll
    ensures |left| == |roll|
    ensures forall i :: 0 <= i < |roll| ==>
      left[i] == if roll[i] != null && roll[i].state.Pending? then roll[i] else null
  {
    seq(|roll|, i requires 0 <= i < |roll| reads set r: Request | r in roll =>
      if roll[i] != null && roll[i].state.Pending? then roll[i] else null)
  }

  /** The requests of a roll as values. */
  ghost function Values(roll: seq<Request?>): (t: Table)
    reads set r: Request | r in roll
    ensures |t| == |roll|
    ensures forall i :: 0 <= i < |roll| ==> t[i] == if roll[i] == null then None else Some(roll[i].Value())
  {
    seq(|roll|, i requires 0 <= i < |roll| reads set r: Request | r in roll =>
      if roll[i] == null then None else Some(roll[i].Value()))
  }

  // ---------------------------------------------------------------------------
  // The table

  class Tracker {
    const pending: array<Request?>
    var nextId: Byte
    const txBuf: array<Byte>
    ghost var sent: seq<seq<Byte>>  // everything handed to the UART

    /** The requests tracked now. */
    ghost function Tracked(): (requests: set<Request>)
      reads pending
    {
      set r: Request | r in pending[..]
    }

    ghost predicate Carries(i: nat)
      requires i < pending.Length
      reads this, pending, Tracked()
    {
      pending[i] != null && pending[i].carriesId
    }

    /** Tracked requests are distinct and in flight, and no two carry the same identifier. */
    ghost predicate Valid()
      reads this, pending, Tracked()
    {
      && 0 < pending.Length < 255
      && 1 <= nextId && txBuf.Length == FrameWire.MAX_ENCODED
      && (forall i :: 0 <= i < pending.Length && pending[i] != null ==> pending[i].InFlight())
      && (forall i, j :: 0 <= i < j < pending.Length && pending[i] != null ==> pending[i] != pending[j])
      && (forall i, j :: 0 <= i < j < pending.Length && Carries(i) && Carries(j) ==> pending[i].id != pending[j].id)
    }

    constructor (slots: nat)
      requires 0 < slots < 255
      ensures Valid() && fresh(pending) && fresh(txBuf) && pending.Length == slots && Tracked() == {} && sent == []
    {
      pending := new Request?[slots](_ => null);
      txBuf := new Byte[FrameWire.MAX_ENCODED](_ => 0);
      nextId, sent := 1, [];
    }

    /** `find_slot`: the first slot holding a request, or the first free one. */
    method FindSlot(request: Request?) returns (found: bool, index: nat)
      ensures found ==> index < pending.Length && pending[index] == request
      ensures !found ==> request !in pending[..]
    {
      for i := 0 to pending.Length
        invariant request !in pending[..i]
      {
        if pending[i] == request {
          return true, i;
        }
      }
      found, index := false, 0;
    }

    method IdInUse(id: Byte) returns (used: bool)
      ensures used <==> exists i :: 0 <= i < pending.Length && pending[i] != null && pending[i].id == id
    {
      for i := 0 to pending.Length
        invariant forall k :: 0 <= k < i && pending[k] != null ==> pending[k].id != id
      {
        if pending[i] != null && pending[i].id == id {
          return true;
        }
      }
      used := false;
    }

    /** The identifiers in the table, zero for an empty slot. */
    ghost function Ids(): (ids: seq<nat>)
      reads this, pending, Tracked()
      ensures |ids| == pending.Length
      ensures forall i :: 0 <= i < pending.Length && pending[i] != null ==> ids[i] == pending[i].id
    {
      seq(pending.Length, i requires 0 <= i < pending.Length reads this, pending, Tracked() =>
        if pending[i] == null then 0 else pending[i].id as nat)
    }

    /** Allocation always succeeds: the cyclic scan meets a free identifier within its 255 steps. */
    method AllocateId() returns (id: Byte)
      requires Valid()
      modifies this`nextId
      ensures Valid() && id != 0
      ensures forall i :: 0 <= i < pending.Length && pending[i] != null ==> pending[i].id != id
    {
      ghost var first := nextId;
      ghost var ids := Ids();
      var attempts := 0;
      while attempts < 255
        invariant attempts <= 255 && 1 <= nextId && nextId == Cycle(first, attempts)
        invariant forall k: nat :: k < attempts ==> Cycle(first, k) in ids
      {
        var candidate := nextId;
        nextId := if nextId == 255 then 1 else nextId + 1;
        var used := IdInUse(candidate);
        if !used {
          return candidate;
        }
        attempts := attempts + 1;
        assert Cycle(first, attempts - 1) == candidate && candidate in ids;
      }
      SomeIdIsFree(ids);
      ghost var free: nat :| 1 <= free <= 255 && free !in ids;
      ghost var k := CycleReaches(first, free);
      assert false;
    }

    /** The table is what is left in flight of a roll: the requests in the slots when a pass began. */
    ghost predicate Follows(roll: seq<Request?>)
      reads this, pending, set r: Request | r in roll
    {
      AllDistinct(roll) && pending[..] == Waiting(roll)
    }

    lemma RollBegins()
      requires Valid()
      ensures Follows(pending[..]) && Named(Values(pending[..])) && EachOnce(Values(pending[..]))
    {
      var t := Values(pending[..]);
      forall i, j | 0 <= i < j < |t| && Names(t[i]) && Names(t[j])
        ensures t[i].value.id != t[j].value.id
      {
        assert Carries(i) && Carries(j);
      }
    }

    /** `finish_request`. */
    method Finish(index: nat, request: Request, result: Status, ghost roll: seq<Request?>)
      requires Valid() && Follows(roll) && index < pending.Length && pending[index] == request
      modifies pending, request`result, request`state, request`completions
      ensures Valid() && Follows(roll) && pending[..] == old(pending[..])[index := null]
      ensures Values(roll) == old(Values(roll))[index := Some(Ended(old(request.Value()), result))]
      ensures request.Completed(result)
    {
      assert roll[index] == request by {
        assert pending[index] == Waiting(roll)[index];
      }
      request.Complete(result);
      pending[index] := null;
      assert forall i :: 0 <= i < pending.Length && i != index ==> pending[i] == old(pending[i]) != request;
    }

    /** The frame a send puts on the wire: with a new identifier if it carries one and is tracked. */
    static function Stamped(f: Frame, id: Byte): (r: Frame)
    {
      if HasId(f) then WithId(f, id) else f
    }

    static function Refusal(why: Measure): (s: Status)
      requires !why.Length?
    {
      match why
      case NotSupported => Status.NotSupported
      case InvalidParameter => Status.InvalidParameter
      case WouldOverflow => Status.WouldOverflow
    }

    /** Put a frame on the wire, or say why not. */
    method Transmit(f: Frame, escaped: bool, written: bool) returns (s: Status)
      requires Valid()
      modifies txBuf, this`sent
      ensures Valid()
      ensures s.Ok? <==> DataLen(f).Length? && written
      ensures s.Ok? ==> sent == old(sent) + [FrameWire.Wire(escaped, FrameData(f))]
      ensures !s.Ok? ==> sent == old(sent)
      ensures !DataLen(f).Length? ==> s == Refusal(DataLen(f))
      ensures !s.InvalidState? && !s.NoMoreResource?
    {
      if DataLen(f).Length? {
        AnnouncedIsWritten(f);
        FrameWire.WireFits(escaped, FrameData(f));
      }
      var r := FrameLine.Encode(f, escaped, txBuf, txBuf.Length);
      if r.Refused? {
        return Refusal(r.why);
      }
      if !written {
        return Failure;
      }
      sent := sent + [txBuf[..r.len]];
      s := Ok;
    }

    /** A request can be tracked: it is not yet, and a slot is free. */
    ghost predicate CanTrack(request: Request?)
      reads pending
    {
      request == null || (request !in pending[..] && null in pending[..])
    }

    /**
     Send a frame, optionally tracking its answer. A send that fails leaves the table and every
     request as they were; one that succeeds takes a free slot and an identifier nobody has.
     */
    method Send(f: Frame, request: Request?, several: bool, due: Tick, escaped: bool, written: bool)
      returns (s: Status, id: Byte, slot: nat)
      requires Valid()
      modifies this`nextId, this`sent, txBuf, pending, request
      ensures Valid()
      ensures s.Ok? <==> DataLen(f).Length? && written && old(CanTrack(request))
      ensures s.InvalidState? <==> request != null && old(request in pending[..])
      ensures !s.Ok? ==> pending[..] == old(pending[..]) && sent == old(sent)
      ensures !s.Ok? && request != null ==> unchanged(request)
      ensures s.Ok? ==> sent == old(sent) + [FrameWire.Wire(escaped, FrameData(Stamped(f, id)))]
      ensures s.Ok? && request == null ==> id == 0 && pending[..] == old(pending[..])
      ensures s.Ok? && request != null && HasId(f) ==>
        id != 0 && forall i :: 0 <= i < pending.Length && old(pending[i]) != null ==> old(pending[i].id) != id
      ensures s.Ok? && request != null && AnswerType(TypeOf(f)) != 0 ==>
        && slot < pending.Length && old(pending[slot]) == null
        && pending[..] == old(pending[..])[slot := request] && request.id == id && request.multi == several
        && request.expectType == AnswerType(TypeOf(f)) && request.deadline == due
      ensures s.Ok? && request != null && AnswerType(TypeOf(f)) == 0 ==>
        pending[..] == old(pending[..]) && request.Completed(Ok)
    {
      if request == null {
        id, slot := 0, 0;
        s := Transmit(Stamped(f, 0), escaped, written);
      } else {
        s, id, slot := SendTracked(f, request, several, due, escaped, written);
      }
    }

    method SendTracked(f: Frame, request: Request, several: bool, due: Tick, escaped: bool, written: bool)
      returns (s: Status, id: Byte, slot: nat)
      requires Valid()
      modifies this`nextId, this`sent, txBuf, pending, request
      ensures Valid()
      ensures s.Ok? <==> DataLen(f).Length? && written && old(CanTrack(request))
      ensures s.InvalidState? <==> old(request in pending[..])
      ensures !s.Ok? ==> pending[..] == old(pending[..]) && sent == old(sent) && unchanged(request)
      ensures s.Ok? ==> sent == old(sent) + [FrameWire.Wire(escaped, FrameData(Stamped(f, id)))]
      ensures s.Ok? && HasId(f) ==>
        id != 0 && forall i :: 0 <= i < pending.Length && old(pending[i]) != null ==> old(pending[i].id) != id
      ensures s.Ok? && AnswerType(TypeOf(f)) != 0 ==>
        && slot < pending.Length && old(pending[slot]) == null
        && pending[..] == old(pending[..])[slot := request] && request.id == id && request.multi == several
        && request.expectType == AnswerType(TypeOf(f)) && request.deadline == due
      ensures s.Ok? && AnswerType(TypeOf(f)) == 0 ==> pending[..] == old(pending[..]) && request.Completed(Ok)
    {
      s, id, slot := Prepare(f, request);
      if s.Ok? {
        s := SendPrepared(f, request, slot, id, several, due, escaped, written);
      }
    }

    /** With a slot and an identifier at hand the frame goes out, and the request is tracked. */
    method SendPrepared(f: Frame, request: Request, slot: nat, id: Byte, several: bool, due: Tick, escaped: bool,
                        written: bool)
      returns (s: Status)
      requires Valid() && request !in pending[..] && slot < pending.Length && pending[slot] == null
      requires id != 0 ==> forall i :: 0 <= i < pending.Length && pending[i] != null ==> pending[i].id != id
      modifies this`sent, txBuf, pending, request
      ensures Valid() && !s.InvalidState?
      ensures s.Ok? <==> DataLen(f).Length? && written
      ensures !s.Ok? ==> pending[..] == old(pending[..]) && sent == old(sent) && unchanged(request)
      ensures s.Ok? ==> sent == old(sent) + [FrameWire.Wire(escaped, FrameData(Stamped(f, id)))]
      ensures s.Ok? && AnswerType(TypeOf(f)) != 0 ==>
        && pending[..] == old(pending[..])[slot := request] && request.id == id && request.multi == several
        && request.expectType == AnswerType(TypeOf(f)) && request.deadline == due
      ensures s.Ok? && AnswerType(TypeOf(f)) == 0 ==> pending[..] == old(pending[..]) && request.Completed(Ok)
    {
      s := Transmit(Stamped(f, id), escaped, written);
      if s.Ok? {
        Track(request, slot, id, TypeOf(f), AnswerType(TypeOf(f)), several, due);
      }
    }

    /** The checks before a frame is sent: a slot and, if the frame carries one, an identifier. */
    method Prepare(f: Frame, request: Request) returns (s: Status, id: Byte, slot: nat)
      requires Valid()
      modifies this`nextId
      ensures Valid()
      ensures s.Ok? <==> CanTrack(request)
      ensures s.InvalidState? <==> request in pending[..]
      ensures s.Ok? && !HasId(f) ==> id == 0
      ensures s.Ok? ==> slot < pending.Length && pending[slot] == null
      ensures s.Ok? && HasId(f) ==>
        id != 0 && forall i :: 0 <= i < pending.Length && pending[i] != null ==> pending[i].id != id
    {
      s, id, slot := Ok, 0, 0;
      var tracked, _ := FindSlot(request);
      if tracked {
        return InvalidState, 0, 0;
      }
      var free;
      free, slot := FindSlot(null);
      if !free {
        return NoMoreResource, 0, 0;
      }
      if HasId(f) {
        id := AllocateId();
      }
    }

    /** Fill in a request that has been sent, and track it if an answer can come. */
    method Track(request: Request, slot: nat, id: Byte, sentType: Byte, answer: Byte, several: bool, due: Tick)
      requires Valid() && request !in pending[..] && slot < pending.Length && pending[slot] == null
      requires id != 0 ==> forall i :: 0 <= i < pending.Length && pending[i] != null ==> pending[i].id != id
      modifies pending, request
      ensures Valid()
      ensures answer != 0 ==>
        && pending[..] == old(pending[..])[slot := request] && request.id == id && request.multi == several
        && request.expectType == answer && request.deadline == due
      ensures answer == 0 ==> pending[..] == old(pending[..]) && request.Completed(Ok)
    {
      request.Fill(id, sentType, answer, several, due, id != 0);
      if answer == 0 {
        request.state, request.result := Done, Ok;
        request.completions := 1;
        return;
      }
      pending[slot] := request;
    }

    // -------------------------------------------------------------------------
    // Answers

    /** The request in a slot is the kind the frame answers, and is named by it if it names one. */
    predicate Answers(f: Frame, i: nat)
      requires i < pending.Length
      reads this, pending, pending[i]
    {
      pending[i] != null && pending[i].expectType == TypeOf(f) && (HasId(f) ==> pending[i].id == f.id)
    }

    /** A frame that names an identifier answers at most one request. */
    lemma NamesAtMostOne(f: Frame, i: nat, j: nat)
      requires Valid() && HasId(f) && f.id != 0
      requires i < pending.Length && j < pending.Length && Answers(f, i) && Answers(f, j)
      ensures i == j
    {
      assert Carries(i) && Carries(j);
    }

    method FindAnswered(f: Frame, ghost roll: seq<Request?>) returns (found: bool, index: nat)
      requires Valid() && Follows(roll)
      ensures found ==> index < pending.Length && Answers(f, index)
      ensures found ==> forall k :: 0 <= k < index ==> !Answers(f, k)
      ensures !found ==> forall k :: 0 <= k < pending.Length ==> !Answers(f, k)
      ensures Taker(Values(roll), f) == if found then index else |roll|
    {
      for i := 0 to pending.Length
        invariant forall k :: 0 <= k < i ==> !Answers(f, k)
      {
        if Answers(f, i) {
          FirstAnswers(f, roll, i);
          return true, i;
        }
      }
      FirstAnswers(f, roll, pending.Length);
      found, index := false, 0;
    }

    lemma SlotAnswers(f: Frame, roll: seq<Request?>, i: nat)
      requires Valid() && Follows(roll) && i < pending.Length
      ensures |roll| == pending.Length && (Answers(f, i) <==> SlotTakes(Values(roll), i, f))
    {
      assert pending[i] == Waiting(roll)[i];
    }

    lemma FirstAnswers(f: Frame, roll: seq<Request?>, i: nat)
      requires Valid() && Follows(roll) && i <= pending.Length && (i < pending.Length ==> Answers(f, i))
      requires forall k :: 0 <= k < i ==> !Answers(f, k)
      ensures |roll| == pending.Length && Taker(Values(roll), f) == i
    {
      forall k: nat | k <= i && k < pending.Length
        ensures Answers(f, k) <==> SlotTakes(Values(roll), k, f)
      {
        SlotAnswers(f, roll, k);
      }
      assert |roll| == |Waiting(roll)|;
      TakerIs(Values(roll), f, i);
    }

    lemma UpdatedTwice(t: Table, i: nat, x: Option<Held>, y: Option<Held>)
      requires i < |t|
      ensures t[i := x][i := y] == t[i := y]
    {
    }

    /** Hand an answer to the request it is for; only that request and its slot change. */
    method Deliver(index: nat, request: Request, data: seq<Byte>, ghost roll: seq<Request?>)
      requires Valid() && Follows(roll) && index < pending.Length && pending[index] == request && Decode(data).Some?
      modifies pending, request`responseData, request`response, request`responses, request`result, request`state,
               request`completions
      ensures Valid() && Follows(roll)
      ensures Values(roll)
           == old(Values(roll))[index := Some(Answered(old(request.Value()), Decode(data).value, data))]
      ensures if request.state.Pending? then request.InFlight() && pending[..] == old(pending[..])
              else request.completions == 1 && pending[..] == old(pending[..])[index := null]
      ensures |data| > RESPONSE_MAX ==> request.Completed(Status.WouldOverflow)
      ensures |data| <= RESPONSE_MAX ==>
        && request.responseData == data && request.response == Decode(data)
        && request.responses == old(request.responses) + 1
      ensures |data| <= RESPONSE_MAX && !request.multi ==> request.Completed(Ok)
      ensures |data| <= RESPONSE_MAX && request.multi ==> request.InFlight()
    {
      ghost var t := Values(roll);
      var s := Keep(index, request, data, roll);
      ghost var kept := Some(request.Value());
      if !s.Ok? {
        Finish(index, request, s, roll);
        UpdatedTwice(t, index, kept, Some(request.Value()));
        return;
      }
      if !request.multi {
        Finish(index, request, Ok, roll);
        UpdatedTwice(t, index, kept, Some(request.Value()));
      }
    }

    /** Store an answer in its request, if it fits. */
    method Keep(index: nat, request: Request, data: seq<Byte>, ghost roll: seq<Request?>) returns (s: Status)
      requires Valid() && Follows(roll) && index < pending.Length && pending[index] == request && Decode(data).Some?
      modifies request`responseData, request`response, request`responses
      ensures Valid() && Follows(roll) && s == if |data| > RESPONSE_MAX then Status.WouldOverflow else Ok
      ensures Values(roll) == old(Values(roll))[index := Some(request.Value())]
      ensures request.Value()
           == if !s.Ok? then old(request.Value())
              else old(request.Value()).(data := data, response := Decode(data),
                                         responses := old(request.responses) + 1)
    {
      assert pending[index] == Waiting(roll)[index];
      s := request.Keep(data);
    }

    /** A request of the roll that is in flight or has completed once is accounted for. */
    lemma RollIsAccounted(roll: seq<Request?>, r: Request)
      requires Valid() && Follows(roll) && r in roll
      requires r.state.Pending? || (r.IsComplete() && r.completions == 1)
      ensures Accounted(r)
    {
      var k :| 0 <= k < |roll| && roll[k] == r;
      assert pending[k] == Waiting(roll)[k];
      if r in pending[..] {
        var j :| 0 <= j < |roll| && pending[j] == r;
        assert pending[j] == Waiting(roll)[j];
      }
    }

    /** Deliver, and what it leaves alone. */
    method DeliverTo(index: nat, data: seq<Byte>, ghost roll: seq<Request?>)
      requires Valid() && Follows(roll) && index < pending.Length && pending[index] != null && Decode(data).Some?
      modifies pending, pending[index]
      ensures Valid() && Follows(roll)
      ensures Values(roll)
           == old(Values(roll))[index := Some(Answered(old(pending[index].Value()), Decode(data).value, data))]
      ensures AllAccounted(old(Tracked()))
      ensures forall r :: r in old(Tracked()) && r != old(pending[index]) ==> unchanged(r) && r in Tracked()
    {
      EmptyOne(pending[..], index);
      TrackedInFlight();
      Deliver(index, pending[index], data, roll);
    }

    lemma TrackedInFlight()
      requires Valid()
      ensures forall r :: r in Tracked() ==> r.InFlight()
    {
    }

    /**
     `dispatch_to_request`: the first request a frame is for gets it and, unless it is collecting,
     completes; no other request changes.
     */
    method Dispatch(f: Frame, data: seq<Byte>, ghost roll: seq<Request?>) returns (hit: bool)
      requires Valid() && Follows(roll) && Decode(data) == Some(f)
      modifies pending, Tracked()
      ensures Valid() && Follows(roll)
      ensures Values(roll) == Dispatched(old(Values(roll)), f, data)
      ensures hit <==> Taker(old(Values(roll)), f) < |roll|
      ensures hit <==> old(exists i :: 0 <= i < pending.Length && Answers(f, i))
      ensures AllAccounted(old(Tracked()))
      ensures !hit ==> pending[..] == old(pending[..]) && forall r :: r in old(Tracked()) ==> unchanged(r)
      ensures forall r :: r in old(Tracked()) ==>
        (unchanged(r) && r in Tracked()) || (old(r.expectType) == TypeOf(f) && (HasId(f) ==> old(r.id) == f.id))
    {
      var index;
      TakerMeansAnswers(f, roll);
      hit, index := FindAnswered(f, roll);
      if hit {
        DeliverTo(index, data, roll);
      }
    }

    /** Still in flight and tracked, or completed once and not tracked. */
    ghost predicate Accounted(r: Request)
      reads pending, r
    {
      if r in pending[..] then r.InFlight() else r.IsComplete() && r.completions == 1
    }

    // -------------------------------------------------------------------------
    // Deadlines

    /** What is due ends, slot by slot. */
    method ExpireAll(now: Tick, ghost roll: seq<Request?>)
      requires Valid() && Follows(roll)
      modifies pending, Tracked()
      ensures Valid() && Follows(roll) && Values(roll) == Expired(old(Values(roll)), now)
      ensures forall k :: 0 <= k < |roll| && roll[k] != null && roll[k].state.Pending? ==> unchanged(roll[k])
    {
      ghost var t := Values(roll);
      for i := 0 to pending.Length
        invariant Valid() && Follows(roll)
        invariant forall k :: 0 <= k < |roll| && roll[k] != null && roll[k].state.Pending? ==> unchanged(roll[k])
        invariant Values(roll) == ExpiredTo(t, now, i)
      {
        CheckDeadline(i, pending[i], now, roll);
      }
      ExpiredSoFar(t, now, |t|);
    }

    method CheckDeadline(i: nat, r: Request?, now: Tick, ghost roll: seq<Request?>)
      requires Valid() && Follows(roll) && i < pending.Length && pending[i] == r
      modifies pending, r
      ensures Valid() && Follows(roll)
      ensures Values(roll) == LapsedAt(old(Values(roll)), i, now)
      ensures roll[i] != null && roll[i].state.Pending? ==> unchanged(roll[i])
    {
      assert r == Waiting(roll)[i];
      if r != null && Reached(now, r.deadline) {
        Finish(i, r, LapseResult(r.multi, r.responses), roll);
      }
    }

    /** `check_deadlines`: what is due ends, what is not is left alone, and nothing overdue stays. */
    method CheckDeadlines(now: Tick, ghost roll: seq<Request?>)
      requires Valid() && Follows(roll)
      modifies pending, Tracked()
      ensures Valid() && AllAccounted(old(Tracked()))
      ensures Follows(roll) && Values(roll) == Expired(old(Values(roll)), now)
      ensures forall i :: 0 <= i < pending.Length && pending[i] != null ==>
        !Reached(now, pending[i].deadline) && pending[i] == old(pending[i]) && unchanged(pending[i])
      ensures forall i :: 0 <= i < pending.Length && old(pending[i]) != null && pending[i] == null ==>
        && Reached(now, old(pending[i].deadline))
        && old(pending[i]).Completed(LapseResult(old(pending[i].multi), old(pending[i].responses)))
    {
      ghost var was, t := pending[..], Values(roll);
      ExpireAll(now, roll);
      forall k | 0 <= k < |was|
        ensures pending[k] != null ==> !Reached(now, pending[k].deadline) && pending[k] == was[k] && unchanged(was[k])
        ensures was[k] != null && pending[k] == null ==>
          && Reached(now, old(was[k].deadline))
          && was[k].Completed(LapseResult(old(was[k].multi), old(was[k].responses)))
        ensures was[k] != null ==> Accounted(was[k])
      {
        assert was[k] == old(Waiting(roll))[k] && pending[k] == Waiting(roll)[k];
        assert Values(roll)[k] == Expired(t, now)[k];
        if was[k] != null {
          RollIsAccounted(roll, was[k]);
        }
      }
    }

    /** `xbee_api_abort_all`: the table empties and every request that was in it ends with the result. */
    method AbortAll(result: Status)
      requires Valid()
      modifies pending, Tracked()
      ensures Valid() && Tracked() == {}
      ensures forall i :: 0 <= i < pending.Length && old(pending[i]) != null ==> old(pending[i]).Completed(result)
    {
      ghost var was := pending[..];
      RollBegins();
      for i := 0 to pending.Length
        invariant Valid() && Follows(was)
        invariant forall k :: i <= k < pending.Length ==> pending[k] == was[k]
        invariant forall k :: 0 <= k < i ==> pending[k] == null && (was[k] != null ==> was[k].Completed(result))
      {
        if pending[i] != null {
          Finish(i, pending[i], result, was);
        }
      }
    }

    /** `xbee_api_request_reset`: the caller takes its request back, and a late answer finds nobody. */
    method Reclaim(request: Request)
      requires Valid()
      modifies pending, request
      ensures Valid() && request.state.Idle? && request !in pending[..]
      ensures forall r: Request :: r != request ==> (r in pending[..] <==> old(r in pending[..]))
    {
      var found, index := FindSlot(request);
      if found {
        EmptyOne(pending[..], index);
        pending[index] := null;
      }
      request.Clear();
    }

    // -------------------------------------------------------------------------
    // A pass of the super loop

    /** Tracking is monotone: everything tracked before is accounted for, and nothing new is tracked. */
    ghost predicate AllAccounted(before: set<Request>)
      reads pending, before
    {
      && (forall r: Request :: r in pending[..] ==> r in before)
      && (forall r :: r in before ==> Accounted(r))
    }

    lemma AllOfRollAccounted(roll: seq<Request?>)
      requires Valid() && Follows(roll) && EachOnce(Values(roll))
      ensures AllAccounted(set r: Request | r in roll)
    {
      forall r: Request | r in roll
        ensures Accounted(r)
      {
        var k :| 0 <= k < |roll| && roll[k] == r;
        assert Values(roll)[k] == Some(r.Value());
        RollIsAccounted(roll, r);
      }
      forall r: Request | r in pending[..]
        ensures r in roll
      {
        var k :| 0 <= k < |roll| && pending[k] == r;
        assert Waiting(roll)[k] == r;
      }
    }

    lemma AllAccountedNow()
      requires Valid()
      ensures AllAccounted(Tracked())
    {
    }

    /** Some request in flight answers a frame exactly if the roll has a taker for it. */
    lemma TakerMeansAnswers(f: Frame, roll: seq<Request?>)
      requires Valid() && Follows(roll)
      ensures Taker(Values(roll), f) < |roll| <==> exists i :: 0 <= i < pending.Length && Answers(f, i)
    {
      var t := Values(roll);
      assert forall i :: 0 <= i < |roll| ==> Waiting(roll)[i] == pending[i] && (SlotTakes(t, i, f) <==> Answers(f, i));
    }
  }

  // ---------------------------------------------------------------------------
  // The transport

  class Transport {
    const tracker: Tracker
    const parser: FrameLine.FrameParser
    ghost var unsolicited: seq<Frame>  // frames handed to the unsolicited callback
    ghost var flushes: nat             // how often the receive buffer has been emptied

    ghost predicate Valid()
      reads this, tracker, tracker.pending, tracker.Tracked(), parser, parser.buf
    {
      tracker.Valid() && parser.Valid()
    }

    constructor (t: Tracker, p: FrameLine.FrameParser)
      requires t.Valid() && p.Valid()
      ensures Valid() && tracker == t && parser == p && unsolicited == []
    {
      tracker, parser, unsolicited, flushes := t, p, [], 0;
    }

    /** `handle_frame`: an answer goes to its request, anything else to the callback. */
    method HandleFrame(data: seq<Byte>, ghost roll: seq<Request?>)
      requires tracker.Valid() && tracker.Follows(roll)
      modifies tracker.pending, tracker.Tracked(), this`unsolicited
      ensures tracker.Valid() && tracker.Follows(roll) && tracker.AllAccounted(old(tracker.Tracked()))
      ensures Values(roll) == Handled(old(Values(roll)), data)
      ensures unsolicited == old(unsolicited) + Unclaimed(old(Values(roll)), data)
      ensures Decode(data).None? ==> unsolicited == old(unsolicited) && tracker.Tracked() == old(tracker.Tracked())
      ensures Decode(data).Some? ==>
        unsolicited == old(unsolicited)
          + if old(exists i :: 0 <= i < tracker.pending.Length && tracker.Answers(Decode(data).value, i)) then []
            else [Decode(data).value]
    {
      var f := Decode(data);
      if f.None? {
        return;
      }
      var hit := tracker.Dispatch(f.value, data, roll);
      if !hit {
        unsolicited := unsolicited + [f.value];
      }
    }

    method Receive(byte: Byte, ghost roll: seq<Request?>)
      requires Valid() && tracker.Follows(roll)
      modifies this`unsolicited, parser, parser.buf, tracker.pending, tracker.Tracked()
      ensures Valid() && tracker.Follows(roll) && tracker.AllAccounted(old(tracker.Tracked()))
      ensures parser.View() == FrameWire.Feed(old(parser.View()), byte).0
      ensures var frames, t := Delivery(FrameWire.Feed(old(parser.View()), byte).1), old(Values(roll));
        Values(roll) == HandledAll(t, frames) && unsolicited == old(unsolicited) + UnclaimedAll(t, frames)
    {
      HandledDelivery(Values(roll), FrameWire.Feed(parser.View(), byte).1);
      tracker.AllAccountedNow();
      var verdict := parser.Feed(byte);
      if verdict.Delivered? {
        HandleFrame(verdict.data, roll);
      }
    }

    /** Every frame that the bytes complete goes to the request it is for or to the callback, in order. */
    method ReceiveAll(chunk: seq<Byte>, ghost roll: seq<Request?>)
      requires Valid() && tracker.Follows(roll)
      modifies this`unsolicited, parser, parser.buf, tracker.pending, tracker.Tracked()
      ensures Valid() && tracker.Follows(roll) && tracker.Tracked() <= old(tracker.Tracked())
      ensures parser.View() == FrameWire.FeedAll(old(parser.View()), chunk).0
      ensures var frames, t := FramesIn(old(parser.View()), chunk), old(Values(roll));
        Values(roll) == HandledAll(t, frames) && unsolicited == old(unsolicited) + UnclaimedAll(t, frames)
    {
      ghost var before, p, t := tracker.Tracked(), parser.View(), Values(roll);
      for i := 0 to |chunk|
        invariant Valid() && tracker.Follows(roll) && tracker.Tracked() <= before
        invariant parser.View() == FrameWire.FeedAll(p, chunk[..i]).0
        invariant Values(roll) == HandledAll(t, FramesIn(p, chunk[..i]))
        invariant unsolicited == old(unsolicited) + UnclaimedAll(t, FramesIn(p, chunk[..i]))
      {
        OneMoreByte(p, t, old(unsolicited), chunk, i);
        Receive(chunk[i], roll);
      }
      assert chunk[..|chunk|] == chunk;
    }

    /**
     `xbee_api_process`: every frame that the received bytes complete goes to the request it is for
     or to the callback, in order; then what is overdue ends. Every request tracked before is
     afterwards either still in flight or completed exactly once, nothing new is tracked, and
     nothing is overdue.
     */
    method Process(chunk: seq<Byte>, now: Tick)
      requires Valid()
      modifies this`unsolicited, parser, parser.buf, tracker.pending, tracker.Tracked()
      ensures Valid() && tracker.AllAccounted(old(tracker.Tracked()))
      ensures tracker.Follows(old(tracker.pending[..]))
      ensures parser.View() == FrameWire.FeedAll(old(parser.View()), chunk).0
      ensures var frames, t := FramesIn(old(parser.View()), chunk), old(Values(tracker.pending[..]));
        && Values(old(tracker.pending[..])) == Expired(HandledAll(t, frames), now)
        && unsolicited == old(unsolicited) + UnclaimedAll(t, frames)
      ensures forall r :: r in tracker.Tracked() ==> !Reached(now, r.deadline)
    {
      ghost var roll := tracker.pending[..];
      tracker.RollBegins();
      EveryRequestEndsOnce(Values(roll), FramesIn(parser.View(), chunk), now);
      ReceiveAll(chunk, roll);
      tracker.CheckDeadlines(now, roll);
      tracker.AllOfRollAccounted(roll);
    }

    /** `xbee_api_abort_all`: besides ending every request it forgets what has been received. */
    method AbortAll(result: Status)
      requires Valid()
      modifies tracker.pending, tracker.Tracked(), parser, this`flushes
      ensures Valid() && tracker.Tracked() == {}
      ensures forall r :: r in old(tracker.Tracked()) ==> r.Completed(result)
      ensures parser.View() == FrameWire.NewParser(old(parser.escaped), parser.cap)
      ensures flushes == old(flushes) + 1
    {
      tracker.AbortAll(result);
      parser.Reset();
      flushes := flushes + 1;
    }
  }
}

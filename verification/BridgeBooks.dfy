/**
 The bridge's books as values: what the terminal sent, what the filter let through, what is queued
 for the module, what the transport took and what is gone; and what each event does to them.
 */
module BridgeBooks {
  import opened Base
  import opened Ticks
  import E = EscapeTiming

  const UART_CHUNK := 64

  // ---------------------------------------------------------------------------
  // Streams

  /** Positions in strictly increasing order, all below `n`. */
  ghost predicate Increasing(places: seq<nat>, n: nat)
  {
    && (forall i, j :: 0 <= i < j < |places| ==> places[i] < places[j])
    && (forall i :: 0 <= i < |places| ==> places[i] < n)
  }

  /** `part` is what `whole` holds at those places: a subsequence of it. */
  ghost predicate PickedFrom(part: seq<Byte>, whole: seq<Byte>, places: seq<nat>)
  {
    && |part| == |places| && Increasing(places, |whole|)
    && forall i :: 0 <= i < |part| ==> part[i] == whole[places[i]]
  }

  lemma {:induction false} PlacesAtLeast(places: seq<nat>, n: nat, i: nat)
    requires Increasing(places, n) && i < |places|
    ensures i <= places[i] <= n - (|places| - i)
    decreases i
  {
    if i > 0 {
      PlacesAtLeast(places, n, i - 1);
    }
    PlacesAtMost(places, n, i);
  }

  lemma {:induction false} PlacesAtMost(places: seq<nat>, n: nat, i: nat)
    requires Increasing(places, n) && i < |places|
    ensures places[i] <= n - (|places| - i)
    decreases |places| - i
  {
    if i + 1 == |places| {
    } else {
      PlacesAtMost(places, n, i + 1);
    }
  }

  /** Picking as many bytes as there are picks all of them. */
  lemma PickedAll(part: seq<Byte>, whole: seq<Byte>, places: seq<nat>)
    requires PickedFrom(part, whole, places) && |part| == |whole|
    ensures part == whole
  {
    forall i | 0 <= i < |part|
      ensures part[i] == whole[i]
    {
      PlacesAtLeast(places, |whole|, i);
    }
  }

  lemma PickOneMore(part: seq<Byte>, whole: seq<Byte>, places: seq<nat>, b: Byte)
    requires PickedFrom(part, whole, places)
    ensures PickedFrom(part + [b], whole + [b], places + [|whole|])
    ensures PickedFrom(part, whole + [b], places)
  {
  }

  /** Losing a stretch in the middle leaves a subsequence. */
  lemma LoseMiddle(front: seq<Byte>, lost: seq<Byte>, back: seq<Byte>, whole: seq<Byte>, places: seq<nat>)
    requires PickedFrom(front + lost + back, whole, places)
    ensures PickedFrom(front + back, whole, places[..|front|] + places[|front| + |lost|..])
  {
    var rest := places[..|front|] + places[|front| + |lost|..];
    assert forall i :: 0 <= i < |front| ==> (front + lost + back)[i] == front[i] && rest[i] == places[i];
    assert forall i :: |front| <= i < |front + back| ==>
      (front + lost + back)[i + |lost|] == (front + back)[i] && rest[i] == places[i + |lost|];
  }

  // ---------------------------------------------------------------------------
  // A queue with room for so many bytes

  /** What fits is queued in order and the rest is gone: a full queue takes nothing more. */
  predicate Stocked(room: nat, before: seq<Byte>, now: seq<Byte>, offered: seq<Byte>, gone: int)
  {
    var k := if |before| + |offered| <= room then |offered| else room - |before|;
    |before| <= room && now == before + offered[..k] && gone == |offered| - k
  }

  lemma StockedMore(room: nat, a: seq<Byte>, b: seq<Byte>, c: seq<Byte>, x: seq<Byte>, y: seq<Byte>, m: int, n: int)
    requires Stocked(room, a, b, x, m) && Stocked(room, b, c, y, n)
    ensures Stocked(room, a, c, x + y, m + n)
  {
    if |a| + |x| <= room {
      var k := if |b| + |y| <= room then |y| else room - |b|;
      assert b == a + x;
      assert (x + y)[..|x| + k] == x + y[..k];
      assert a + x + y[..k] == a + (x + y[..k]);
    } else {
      var k := room - |a|;
      assert y[..0] == [] && c == b;
      assert (x + y)[..k] == x[..k];
    }
  }

  /** What has been released since is offered to the queue, which takes what it has room for. */
  predicate Offered(room: nat, queue: seq<Byte>, queue1: seq<Byte>, released: seq<Byte>, released1: seq<Byte>,
                    gone: int)
  {
    released <= released1 && Stocked(room, queue, queue1, released1[|released|..], gone)
  }

  lemma OfferedOnce(room: nat, a: seq<Byte>, b: seq<Byte>, stream: seq<Byte>, more: seq<Byte>, gone: int)
    requires Stocked(room, a, b, more, gone)
    ensures Offered(room, a, b, stream, stream + more, gone)
  {
    assert (stream + more)[|stream|..] == more;
  }

  lemma OfferedTwice(room: nat, a: seq<Byte>, b: seq<Byte>, c: seq<Byte>,
                     x: seq<Byte>, y: seq<Byte>, z: seq<Byte>, m: int, n: int)
    requires Offered(room, a, b, x, y, m) && Offered(room, b, c, y, z, n)
    ensures Offered(room, a, c, x, z, m + n)
  {
    StockedMore(room, a, b, c, y[|x|..], z[|y|..], m, n);
    assert z[|x|..] == y[|x|..] + z[|y|..];
  }

  // ---------------------------------------------------------------------------
  // The session

  /** The calls a stretch of terminal bytes makes of the detector. */
  function Arrivals(bytes: seq<Byte>, times: seq<int>): (calls: seq<E.Call>)
    requires |times| == |bytes|
    ensures |calls| == |bytes|
  {
    seq(|bytes|, i requires 0 <= i < |bytes| => E.Arrives(bytes[i], times[i]))
  }

  lemma OneMoreCall(start: int, calls: seq<E.Call>, c: E.Call)
    ensures E.After(start, calls + [c]) == E.Step(E.After(start, calls), c)
  {
    assert (calls + [c])[..|calls|] == calls;
  }

  /**
   The session is the detector's run over its calls: the filter holds back nothing but escape
   characters, and swallows only the sequence it exits for.
   */
  ghost predicate Follows(allow: bool, start: int, calls: seq<E.Call>, d: E.Detector, released: seq<Byte>,
                          terminal: seq<Byte>, active: bool)
  {
    var r := E.After(start, calls);
    if !allow then active && calls == [] && released == terminal
    else
      && r.detector == d && r.released == released && r.fed == terminal && (active <==> r.exitAt.None?)
      && if active then released + E.Held(d.held) == terminal
         else released + E.Held(E.ESCAPE_COUNT) == terminal && d.held == 0
  }

  lemma FeedFollows(start: int, calls: seq<E.Call>, d: E.Detector, released: seq<Byte>, terminal: seq<Byte>,
                    byte: Byte, now: int)
    requires E.Sound(d) && Follows(true, start, calls, d, released, terminal, true)
    ensures var x := E.Feed(d, byte, At(now));
      Follows(true, start, calls + [E.Arrives(byte, now)], x.detector, released + x.release, terminal + [byte], true)
  {
    var x := E.Feed(d, byte, At(now));
    OneMoreCall(start, calls, E.Arrives(byte, now));
    assert E.Held(d.held) + [E.ESCAPE_CHAR] == E.Held(d.held + 1);
    assert x.release + E.Held(x.detector.held) == E.Held(d.held) + [byte];
    assert released + x.release + E.Held(x.detector.held) == released + (x.release + E.Held(x.detector.held));
    assert released + (E.Held(d.held) + [byte]) == terminal + [byte];
  }

  lemma LookFollows(start: int, calls: seq<E.Call>, d: E.Detector, released: seq<Byte>, terminal: seq<Byte>, now: int)
    requires E.Sound(d) && Follows(true, start, calls, d, released, terminal, true)
    ensures var x := E.Idle(d, At(now));
      Follows(true, start, calls + [E.Looks(now)], x.detector, released + x.release, terminal, !x.exits)
  {
    OneMoreCall(start, calls, E.Looks(now));
    assert released + [] == released;
  }

  /** A byte counter after `n` increments: it wraps. */
  function Count(n: nat): (c: Tick)
  {
    if n == 0 then 0 else Add(Count(n - 1), 1)
  }

  lemma {:induction false} CountIsWrapped(n: nat)
    ensures Count(n) == At(n)
  {
    if n == 0 {
    } else {
      CountIsWrapped(n - 1);
      AddOfTimes(n - 1, 1);
    }
  }

  function Subtract(c: Tick, n: nat): (r: Tick)
    requires n < WRAP
  {
    if c >= n then c - n else c + WRAP - n
  }

  lemma {:induction false} CountAdds(n: nat, k: nat)
    requires k < WRAP
    ensures Add(Count(n), k) == Count(n + k)
  {
    if k == 0 {
    } else {
      CountAdds(n, k - 1);
    }
  }

  lemma SubtractUndoesAdd(c: Tick, k: nat)
    requires k < WRAP
    ensures Subtract(Add(c, k), k) == c
  {
  }

  lemma CountSubtracts(n: nat, k: nat)
    requires k < WRAP && k <= n
    ensures Subtract(Count(n), k) == Count(n - k)
  {
    CountAdds(n - k, k);
    SubtractUndoesAdd(Count(n - k), k);
  }

  datatype Books = Books(
    calls: seq<E.Call>,    // every call of the escape detector, with its true time
    detector: E.Detector,
    active: bool,
    terminal: seq<Byte>,   // everything the terminal sent
    released: seq<Byte>,   // what the escape filter let through
    uart: seq<Byte>,       // what the transport took
    queue: seq<Byte>,      // what waits for the transport
    lost: nat,             // bytes released and gone
    places: seq<nat>,      // where in the released stream each surviving byte was
    toModule: Tick,
    dropped: Tick
  )

  /** Books that balance: every byte released was taken, is queued, or is counted as dropped. */
  ghost function Square(): (books: iset<Books>)
  {
    iset b: Books |
      && PickedFrom(b.uart + b.queue, b.released, b.places)
      && |b.released| == |b.uart| + |b.queue| + b.lost
      && b.toModule == Count(|b.uart| + |b.queue|) && b.dropped == Count(b.lost)
  }

  /** Books of a session that has followed its detector, or had none. */
  ghost function Fair(allow: bool, start: int): (books: iset<Books>)
  {
    iset b | b in Square() && E.Sound(b.detector)
             && Follows(allow, start, b.calls, b.detector, b.released, b.terminal, b.active)
  }

  // ---------------------------------------------------------------------------
  // A byte is offered to the queue

  function Queued(b: Books, room: nat, byte: Byte): (r: Books)
  {
    var more := b.(released := b.released + [byte]);
    if |b.queue| < room then
      more.(queue := b.queue + [byte], places := b.places + [|b.released|], toModule := Add(b.toModule, 1))
    else
      more.(lost := b.lost + 1, dropped := Add(b.dropped, 1))
  }

  lemma QueuedIsSquare(b: Books, room: nat, byte: Byte)
    requires b in Square()
    ensures Queued(b, room, byte) in Square()
  {
    PickOneMore(b.uart + b.queue, b.released, b.places, byte);
    assert b.uart + (b.queue + [byte]) == b.uart + b.queue + [byte];
  }

  function QueuedAll(b: Books, room: nat, bytes: seq<Byte>): (r: Books)
  {
    if bytes == [] then b else Queued(QueuedAll(b, room, bytes[..|bytes| - 1]), room, bytes[|bytes| - 1])
  }

  lemma QueuedOneMore(b: Books, room: nat, bytes: seq<Byte>, i: nat)
    requires i < |bytes|
    ensures QueuedAll(b, room, bytes[..i + 1]) == Queued(QueuedAll(b, room, bytes[..i]), room, bytes[i])
  {
    assert bytes[..i + 1][..i] == bytes[..i];
  }

  /** Books after bytes were offered: nothing changes but the queue's side of them, and they stay square. */
  ghost predicate Took(b: Books, r: Books, room: nat, bytes: seq<Byte>)
  {
    && r in Square() && r.released == b.released + bytes
    && r == b.(released := r.released, queue := r.queue, lost := r.lost, places := r.places,
               toModule := r.toModule, dropped := r.dropped)
    && |r.queue| <= room && Stocked(room, b.queue, r.queue, bytes, r.lost - b.lost)
  }

  lemma TookOneMore(b: Books, r: Books, room: nat, bytes: seq<Byte>, byte: Byte)
    requires Took(b, r, room, bytes)
    ensures Took(b, Queued(r, room, byte), room, bytes + [byte])
  {
    var r1 := Queued(r, room, byte);
    QueuedIsSquare(r, room, byte);
    assert b.released + bytes + [byte] == b.released + (bytes + [byte]);
    StockedMore(room, b.queue, r.queue, r1.queue, bytes, [byte], r.lost - b.lost, r1.lost - r.lost);
  }

  /** Offering a stretch offers its bytes one by one. */
  lemma {:induction false} OfferKeeps(b: Books, room: nat, bytes: seq<Byte>)
    requires b in Square() && |b.queue| <= room
    ensures Took(b, QueuedAll(b, room, bytes), room, bytes)
  {
    if bytes == [] {
      assert b.released + [] == b.released && b.queue + [] == b.queue;
    } else {
      var n := |bytes| - 1;
      OfferKeeps(b, room, bytes[..n]);
      TookOneMore(b, QueuedAll(b, room, bytes[..n]), room, bytes[..n], bytes[n]);
      LastApart(bytes);
    }
  }

  // ---------------------------------------------------------------------------
  // What each event does

  /** A byte from the terminal. */
  function Accepted(b: Books, allow: bool, room: nat, byte: Byte, now: int): (r: Books)
  {
    var b1 := b.(terminal := b.terminal + [byte]);
    if !allow then Queued(b1, room, byte)
    else
      var x := E.Feed(b.detector, byte, At(now));
      QueuedAll(b1.(calls := b.calls + [E.Arrives(byte, now)], detector := x.detector), room, x.release)
  }

  function AcceptedAll(b: Books, allow: bool, room: nat, bytes: seq<Byte>, times: seq<int>): (r: Books)
    requires |times| == |bytes|
  {
    if bytes == [] then b
    else
      var n := |bytes| - 1;
      Accepted(AcceptedAll(b, allow, room, bytes[..n], times[..n]), allow, room, bytes[n], times[n])
  }

  /** A look at the clock. */
  function Looked(b: Books, allow: bool, room: nat, now: int): (r: Books)
  {
    if !allow then b
    else
      var x := E.Idle(b.detector, At(now));
      QueuedAll(b.(calls := b.calls + [E.Looks(now)], detector := x.detector), room, x.release).(active := !x.exits)
  }

  /** A chunk for the transport. */
  function Taken(b: Books, busy: bool, writes: bool): (r: Books)
  {
    var k := if |b.queue| < UART_CHUNK then |b.queue| else UART_CHUNK;
    var rest := b.(queue := b.queue[k..]);
    if busy || k == 0 then b
    else if writes then rest.(uart := b.uart + b.queue[..k])
    else Discarded(b, k)
  }

  /** A refused write: the bytes move from sent to dropped. */
  function Discarded(b: Books, k: nat): (r: Books)
    requires k <= |b.queue| && k < WRAP
  {
    var n := |b.uart|;
    b.(queue := b.queue[k..], lost := b.lost + k,
       places := if n + k <= |b.places| then b.places[..n] + b.places[n + k..] else b.places,
       toModule := Subtract(b.toModule, k), dropped := Add(b.dropped, k))
  }

  // ---------------------------------------------------------------------------
  // What the events keep

  /** Books after a stretch of terminal bytes: the filter has seen each of them, in order. */
  ghost predicate Heard(b: Books, r: Books, allow: bool, start: int, room: nat, bytes: seq<Byte>, times: seq<int>)
    requires |times| == |bytes|
  {
    && r in Fair(allow, start) && r.active && r.terminal == b.terminal + bytes && r.uart == b.uart
    && r.calls == b.calls + (if allow then Arrivals(bytes, times) else [])
    && |r.queue| <= room && Offered(room, b.queue, r.queue, b.released, r.released, r.lost - b.lost)
  }

  lemma AcceptKeeps(b: Books, allow: bool, start: int, room: nat, byte: Byte, now: int)
    requires b in Fair(allow, start) && b.active && |b.queue| <= room
    ensures Heard(b, Accepted(b, allow, room, byte, now), allow, start, room, [byte], [now])
  {
    assert Arrivals([byte], [now]) == [E.Arrives(byte, now)];
    if allow {
      FilteredKeeps(b, start, room, byte, now);
    } else {
      PlainKeeps(b, start, room, byte, now);
    }
  }

  lemma FilteredKeeps(b: Books, start: int, room: nat, byte: Byte, now: int)
    requires b in Fair(true, start) && b.active && |b.queue| <= room
    ensures Heard(b, Accepted(b, true, room, byte, now), true, start, room, [byte], [now])
  {
    var x, calls := E.Feed(b.detector, byte, At(now)), b.calls + [E.Arrives(byte, now)];
    assert Arrivals([byte], [now]) == [E.Arrives(byte, now)];
    FeedFollows(start, b.calls, b.detector, b.released, b.terminal, byte, now);
    E.CallsStaySound(b.detector, byte, At(now));
    var b1 := b.(terminal := b.terminal + [byte], calls := calls, detector := x.detector);
    assert b1 in Square();
    OfferKeepsFair(b, b1, room, x.release);
  }

  lemma PlainKeeps(b: Books, start: int, room: nat, byte: Byte, now: int)
    requires b in Fair(false, start) && b.active && |b.queue| <= room
    ensures Heard(b, Accepted(b, false, room, byte, now), false, start, room, [byte], [now])
  {
    var b1 := b.(terminal := b.terminal + [byte]);
    assert [byte][..0] == [] && QueuedAll(b1, room, []) == b1;
    assert QueuedAll(b1, room, [byte]) == Queued(b1, room, byte);
    assert b1 in Square();
    OfferKeepsFair(b, b1, room, [byte]);
  }

  /** Offering what a step of the filter let through. */
  lemma OfferKeepsFair(b: Books, b1: Books, room: nat, bytes: seq<Byte>)
    requires b1 in Square() && |b1.queue| <= room
    requires b1.queue == b.queue && b1.released == b.released && b1.lost == b.lost
    ensures var r := QueuedAll(b1, room, bytes);
      && r in Square() && r.released == b.released + bytes && |r.queue| <= room
      && r == b1.(released := r.released, queue := r.queue, lost := r.lost, places := r.places,
                  toModule := r.toModule, dropped := r.dropped)
      && Offered(room, b.queue, r.queue, b.released, r.released, r.lost - b.lost)
  {
    OfferKeeps(b1, room, bytes);
    var r := QueuedAll(b1, room, bytes);
    OfferedOnce(room, b.queue, r.queue, b.released, bytes, r.lost - b.lost);
  }

  lemma LookKeeps(b: Books, allow: bool, start: int, room: nat, now: int)
    requires b in Fair(allow, start) && b.active && |b.queue| <= room
    ensures var r, x := Looked(b, allow, room, now), E.Idle(b.detector, At(now));
      && r in Fair(allow, start) && r.terminal == b.terminal && r.uart == b.uart
      && r.calls == b.calls + (if allow then [E.Looks(now)] else [])
      && r.released == b.released + (if allow then x.release else [])
      && (r.active <==> !allow || !x.exits)
      && |r.queue| <= room && Offered(room, b.queue, r.queue, b.released, r.released, r.lost - b.lost)
  {
    if allow {
      var x := E.Idle(b.detector, At(now));
      LookFollows(start, b.calls, b.detector, b.released, b.terminal, now);
      E.CallsStaySound(b.detector, 0, At(now));
      OfferKeepsFair(b, b.(calls := b.calls + [E.Looks(now)], detector := x.detector), room, x.release);
    } else {
      assert b.released + [] == b.released;
      OfferedOnce(room, b.queue, b.queue, b.released, [], 0);
    }
  }

  lemma LastApart<T>(s: seq<T>)
    requires s != []
    ensures s == s[..|s| - 1] + [s[|s| - 1]]
  {
  }

  lemma OneMoreByte(stream: seq<Byte>, calls: seq<E.Call>, bytes: seq<Byte>, times: seq<int>, byte: Byte, now: int)
    requires |times| == |bytes|
    ensures stream + bytes + [byte] == stream + (bytes + [byte])
    ensures calls + Arrivals(bytes, times) + [E.Arrives(byte, now)] == calls + Arrivals(bytes + [byte], times + [now])
  {
    assert Arrivals(bytes + [byte], times + [now]) == Arrivals(bytes, times) + [E.Arrives(byte, now)];
  }

  lemma HeardOneMore(b: Books, r: Books, allow: bool, start: int, room: nat, bytes: seq<Byte>, times: seq<int>,
                     byte: Byte, now: int)
    requires |times| == |bytes| && Heard(b, r, allow, start, room, bytes, times)
    ensures Heard(b, Accepted(r, allow, room, byte, now), allow, start, room, bytes + [byte], times + [now])
  {
    var r1 := Accepted(r, allow, room, byte, now);
    AcceptKeeps(r, allow, start, room, byte, now);
    OneMoreByte(b.terminal, b.calls, bytes, times, byte, now);
    assert Arrivals([byte], [now]) == [E.Arrives(byte, now)];
    OfferedTwice(room, b.queue, r.queue, r1.queue, b.released, r.released, r1.released,
                 r.lost - b.lost, r1.lost - r.lost);
  }

  lemma {:induction false} AcceptAllKeeps(b: Books, allow: bool, start: int, room: nat, bytes: seq<Byte>,
                                          times: seq<int>)
    requires b in Fair(allow, start) && b.active && |b.queue| <= room && |times| == |bytes|
    ensures Heard(b, AcceptedAll(b, allow, room, bytes, times), allow, start, room, bytes, times)
  {
    if bytes == [] {
      assert b.released + [] == b.released;
      OfferedOnce(room, b.queue, b.queue, b.released, [], 0);
    } else {
      var n := |bytes| - 1;
      AcceptAllKeeps(b, allow, start, room, bytes[..n], times[..n]);
      HeardOneMore(b, AcceptedAll(b, allow, room, bytes[..n], times[..n]), allow, start, room, bytes[..n], times[..n],
                   bytes[n], times[n]);
      LastApart(bytes);
      LastApart(times);
    }
  }

  lemma AcceptedOneMore(b: Books, allow: bool, room: nat, bytes: seq<Byte>, times: seq<int>, i: nat)
    requires |times| == |bytes| && i < |bytes|
    ensures AcceptedAll(b, allow, room, bytes[..i + 1], times[..i + 1])
         == Accepted(AcceptedAll(b, allow, room, bytes[..i], times[..i]), allow, room, bytes[i], times[i])
  {
    assert bytes[..i + 1][..i] == bytes[..i] && times[..i + 1][..i] == times[..i];
  }

  lemma SendKeeps(b: Books, k: nat)
    requires b in Square() && k <= |b.queue|
    ensures b.(queue := b.queue[k..], uart := b.uart + b.queue[..k]) in Square()
  {
    assert b.uart + b.queue == b.uart + b.queue[..k] + b.queue[k..];
  }

  lemma DiscardKeeps(b: Books, k: nat)
    requires b in Square() && k <= |b.queue| && k < WRAP
    ensures Discarded(b, k) in Square()
  {
    CountSubtracts(|b.uart| + |b.queue|, k);
    CountAdds(b.lost, k);
    DiscardedIsPicked(b, k);
    MadeSquare(Discarded(b, k));
  }

  lemma MadeSquare(b: Books)
    requires PickedFrom(b.uart + b.queue, b.released, b.places)
    requires |b.released| == |b.uart| + |b.queue| + b.lost
    requires b.toModule == Count(|b.uart| + |b.queue|) && b.dropped == Count(b.lost)
    ensures b in Square()
  {
  }

  /** What survives a discarded chunk is still picked from what was released. */
  lemma DiscardedIsPicked(b: Books, k: nat)
    requires b in Square() && k <= |b.queue|
    ensures |b.uart| + k <= |b.places|
    ensures PickedFrom(b.uart + b.queue[k..], b.released, b.places[..|b.uart|] + b.places[|b.uart| + k..])
  {
    var front, rest := b.queue[..k], b.queue[k..];
    assert b.uart + b.queue == b.uart + front + rest;
    LoseMiddle(b.uart, front, rest, b.released, b.places);
  }

  lemma TakeKeeps(b: Books, allow: bool, start: int, busy: bool, writes: bool)
    requires b in Fair(allow, start)
    ensures Taken(b, busy, writes) in Fair(allow, start)
  {
    var k := if |b.queue| < UART_CHUNK then |b.queue| else UART_CHUNK;
    if writes {
      SendKeeps(b, k);
    } else {
      DiscardKeeps(b, k);
    }
  }
}

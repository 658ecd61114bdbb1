/**
 The transparent bridge: the escape detector as an object, the ring towards the module, and the
 session's counters.
 */
module Bridge {
  import opened Base
  import opened Ticks
  import RingBuffer
  import opened BridgeBooks

  /** What a call of the detector tells the bridge to do. */
  class EscapeOut {
    const release: array<Byte>
    var len: nat
    var exits: bool

    ghost predicate Valid()
      reads this
    {
      release.Length == E.ESCAPE_COUNT + 1 && len <= release.Length
    }

    constructor ()
      ensures Valid() && fresh(release) && len == 0 && !exits
    {
      release := new Byte[E.ESCAPE_COUNT + 1](_ => 0);
      len, exits := 0, false;
    }

    method Clear()
      requires Valid()
      modifies this
      ensures Valid() && len == 0 && !exits
    {
      len, exits := 0, false;
    }

    /** `out_push`: a byte that does not fit would be dropped silently. */
    method Push(byte: Byte)
      requires Valid()
      modifies this`len, release
      ensures Valid()
      ensures release[..len] == if old(len) < release.Length then old(release[..len]) + [byte] else old(release[..len])
    {
      if len < release.Length {
        release[len] := byte;
        len := len + 1;
      }
    }
  }

  class EscapeDetector {
    var held: nat
    var armed: bool
    var lastByteMs: Tick

    ghost function View(): (d: E.Detector)
      reads this
    {
      E.Detector(held, armed, lastByteMs)
    }

    ghost predicate Valid()
      reads this
    {
      E.Sound(View())
    }

    constructor (now: Tick)
      ensures Valid() && View() == E.Reset(now)
    {
      held, armed, lastByteMs := 0, false, now;
    }

    method Reset(now: Tick)
      modifies this
      ensures Valid() && View() == E.Reset(now)
    {
      held, armed, lastByteMs := 0, false, now;
    }

    /** `release_held`: everything held goes out, in order, and all of it fits. */
    method ReleaseHeld(out: EscapeOut)
      requires Valid() && out.Valid() && out.len == 0
      modifies this`held, this`armed, out`len, out.release
      ensures Valid() && out.Valid() && held == 0 && !armed && lastByteMs == old(lastByteMs)
      ensures out.release[..out.len] == E.Held(old(held))
    {
      for i := 0 to held
        invariant out.Valid() && out.len == i && out.release[..i] == E.Held(i)
        invariant held == old(held) && armed == old(armed)
      {
        out.Push(E.ESCAPE_CHAR);
        assert E.Held(i) + [E.ESCAPE_CHAR] == E.Held(i + 1);
      }
      held, armed := 0, false;
    }

    method Feed(byte: Byte, now: Tick, out: EscapeOut)
      requires Valid() && out.Valid()
      modifies this, out, out.release
      ensures Valid() && out.Valid()
      ensures E.Reaction(View(), out.release[..out.len], out.exits) == E.Feed(old(View()), byte, now)
    {
      out.Clear();
      if armed {
        ReleaseHeld(out);
        out.Push(byte);
        lastByteMs := now;
        return;
      }
      if byte == E.ESCAPE_CHAR {
        if held > 0 {
          held := held + 1;
          lastByteMs := now;
          if held >= E.ESCAPE_COUNT {
            armed := true;
          }
          return;
        }
        if Elapsed(now, lastByteMs, E.GUARD_MS) {
          held := 1;
          lastByteMs := now;
          return;
        }
        out.Push(byte);
        lastByteMs := now;
        return;
      }
      ReleaseHeld(out);
      out.Push(byte);
      lastByteMs := now;
    }

    method Idle(now: Tick, out: EscapeOut)
      requires Valid() && out.Valid()
      modifies this, out, out.release
      ensures Valid() && out.Valid()
      ensures E.Reaction(View(), out.release[..out.len], out.exits) == E.Idle(old(View()), now)
    {
      out.Clear();
      if held == 0 {
        return;
      }
      if !Elapsed(now, lastByteMs, E.GUARD_MS) {
        return;
      }
      if armed {
        held, armed := 0, false;
        out.exits := true;
        return;
      }
      ReleaseHeld(out);
    }
  }

  class Session {
    const ring: RingBuffer.Ring
    const escape: EscapeDetector
    const out: EscapeOut
    const chunk: array<Byte>
    const allowEscape: bool
    var active: bool
    var toModule: Tick
    var dropped: Tick
    ghost const start: int         // when the session began, in true milliseconds
    ghost var calls: seq<E.Call>
    ghost var terminal: seq<Byte>
    ghost var released: seq<Byte>
    ghost var uart: seq<Byte>
    ghost var lost: nat
    ghost var places: seq<nat>

    ghost function View(): (b: Books)
      requires ring.popped <= |ring.pushed|
      reads this, ring, escape
    {
      Books(calls, escape.View(), active, terminal, released, uart, ring.Contents(), lost, places, toModule, dropped)
    }

    ghost predicate Wired()
      reads this, ring, ring.storage, escape, out
    {
      && ring.Valid() && escape.Valid() && out.Valid() && chunk.Length == UART_CHUNK
      && chunk != ring.storage && out.release != ring.storage && chunk != out.release
    }

    ghost predicate Valid()
      reads this, ring, ring.storage, escape, out
    {
      Wired() && View() in Fair(allowEscape, start)
    }

    constructor (r: RingBuffer.Ring, allow: bool, now: int)
      requires r.Valid() && r.Contents() == []
      ensures Valid() && active && ring == r && allowEscape == allow && terminal == [] && released == [] && uart == []
      ensures start == now && calls == [] && lost == 0
    {
      ring, allowEscape, start, calls := r, allow, now, [];
      escape := new EscapeDetector(At(now));
      out := new EscapeOut();
      chunk := new Byte[UART_CHUNK](_ => 0);
      active, toModule, dropped := true, 0, 0;
      terminal, released, uart, lost, places := [], [], [], 0, [];
    }

    /** `queue_for_module`: the byte is queued if the ring has room, and counted as gone if not. */
    method QueueForModule(byte: Byte)
      requires Wired()
      modifies this`toModule, this`dropped, this`released, this`lost, this`places, ring`head, ring`pushed, ring.storage
      ensures Wired() && View() == Queued(old(View()), ring.mask, byte)
      ensures released == old(released) + [byte]
      ensures if |old(ring.Contents())| < ring.mask
              then ring.Contents() == old(ring.Contents()) + [byte] && lost == old(lost)
              else ring.Contents() == old(ring.Contents()) && lost == old(lost) + 1
    {
      var s := ring.Push(byte);
      if s.Ok? {
        toModule := Add(toModule, 1);
        places := places + [|released|];
      } else {
        dropped := Add(dropped, 1);
        lost := lost + 1;
      }
      released := released + [byte];
    }

    method QueueReleased()
      requires Wired()
      modifies this`toModule, this`dropped, this`released, this`lost, this`places, ring`head, ring`pushed, ring.storage
      ensures Wired() && View() == QueuedAll(old(View()), ring.mask, out.release[..out.len])
    {
      ghost var first, bytes := View(), out.release[..out.len];
      for j := 0 to out.len
        invariant Wired() && View() == QueuedAll(first, ring.mask, bytes[..j])
      {
        QueueForModule(out.release[j]);
        QueuedOneMore(first, ring.mask, bytes, j);
      }
      assert bytes[..|bytes|] == bytes;
    }

    /**
     `service_terminal`: every byte read goes through the filter, in order, and what the filter lets
     through is offered to the queue. `times` is the clock at each byte.
     */
    method ServiceTerminal(bytes: seq<Byte>, times: seq<int>)
      requires Valid() && active && |times| == |bytes|
      modifies this, ring`head, ring`pushed, ring.storage, escape, out, out.release
      ensures Valid() && active && terminal == old(terminal) + bytes && uart == old(uart)
      ensures calls == old(calls) + if allowEscape then Arrivals(bytes, times) else []
      ensures Offered(ring.mask, old(ring.Contents()), ring.Contents(), old(released), released, lost - old(lost))
    {
      ghost var first := View();
      ring.NeverOverfull();
      AcceptAllKeeps(first, allowEscape, start, ring.mask, bytes, times);
      for i := 0 to |bytes|
        invariant Wired() && View() == AcceptedAll(first, allowEscape, ring.mask, bytes[..i], times[..i])
      {
        Accept(bytes[i], times[i]);
        AcceptedOneMore(first, allowEscape, ring.mask, bytes, times, i);
      }
      assert bytes[..|bytes|] == bytes && times[..|bytes|] == times;
    }

    method Accept(byte: Byte, now: int)
      requires Wired()
      modifies this, ring`head, ring`pushed, ring.storage, escape, out, out.release
      ensures Wired() && View() == Accepted(old(View()), allowEscape, ring.mask, byte, now)
    {
      terminal := terminal + [byte];
      if allowEscape {
        calls := calls + [E.Arrives(byte, now)];
        escape.Feed(byte, At(now), out);
        QueueReleased();
      } else {
        QueueForModule(byte);
      }
    }

    /**
     `service_module_tx`: when the line is free one chunk of the oldest bytes leaves the queue; the
     transport takes it, or a refused write loses it and counts it.
     */
    method ServiceModuleTx(busy: bool, writes: bool)
      requires Valid()
      modifies this`toModule, this`dropped, this`uart, this`lost, this`places, ring`tail, ring`popped, chunk
      ensures Valid() && released == old(released) && terminal == old(terminal) && calls == old(calls)
      ensures busy ==> uart == old(uart) && ring.Contents() == old(ring.Contents()) && lost == old(lost)
      ensures !busy ==>
        var queue := old(ring.Contents());
        var k := if |queue| < UART_CHUNK then |queue| else UART_CHUNK;
        && ring.Contents() == queue[k..]
        && uart == old(uart) + (if writes then queue[..k] else [])
        && lost == old(lost) + if writes then 0 else k
    {
      TakeKeeps(View(), allowEscape, start, busy, writes);
      Take(busy, writes);
    }

    method Take(busy: bool, writes: bool)
      requires Wired()
      modifies this`toModule, this`dropped, this`uart, this`lost, this`places, ring`tail, ring`popped, chunk
      ensures Wired() && View() == Taken(old(View()), busy, writes)
    {
      if busy {
        return;
      }
      ghost var b := View();
      var count := ReadChunk();
      if count > 0 {
        HandOver(count, writes, b);
      }
    }

    /** What has left the ring is the transport's, or lost. */
    method HandOver(count: nat, writes: bool, ghost b: Books)
      requires Wired() && 0 < count <= |b.queue| && (count == |b.queue| <= UART_CHUNK || count == UART_CHUNK)
      requires View() == b.(queue := b.queue[count..]) && chunk[..count] == b.queue[..count]
      modifies this`toModule, this`dropped, this`uart, this`lost, this`places
      ensures Wired() && View() == Taken(b, false, writes)
    {
      if writes {
        uart := uart + chunk[..count];
      } else {
        LoseChunk(count);
      }
    }

    method ReadChunk() returns (count: nat)
      requires Wired()
      modifies ring`tail, ring`popped, chunk
      ensures Wired()
      ensures var queue := old(ring.Contents());
        && count == (if |queue| < UART_CHUNK then |queue| else UART_CHUNK)
        && chunk[..count] == queue[..count] && ring.Contents() == queue[count..]
      ensures count == 0 ==> ring.Contents() == old(ring.Contents())
    {
      count := ring.Read(chunk, UART_CHUNK);
      assert old(ring.Contents()) == chunk[..count] + ring.Contents();
    }

    /** A refused write: the chunk has left the ring, so its bytes move from sent to dropped. */
    method LoseChunk(count: nat)
      requires count <= UART_CHUNK
      modifies this`toModule, this`dropped, this`lost, this`places
      ensures lost == old(lost) + count
      ensures dropped == Add(old(dropped), count) && toModule == Subtract(old(toModule), count)
      ensures places == if |uart| + count <= |old(places)| then old(places)[..|uart|] + old(places)[|uart| + count..]
                        else old(places)
    {
      dropped := Add(dropped, count);
      toModule := Subtract(toModule, count);
      lost := lost + count;
      if |uart| + count <= |places| {
        places := places[..|uart|] + places[|uart| + count..];
      }
    }

    /**
     `service_escape`: the detector looks at the clock; a candidate that has run out of time is
     released and offered to the queue, and the sequence leaves the bridge.
     */
    method ServiceEscape(now: int)
      requires Valid() && active
      modifies this, ring`head, ring`pushed, ring.storage, escape, out, out.release
      ensures Valid() && terminal == old(terminal) && uart == old(uart)
      ensures calls == old(calls) + if allowEscape then [E.Looks(now)] else []
      ensures released == old(released) + if allowEscape then E.Idle(old(escape.View()), At(now)).release else []
      ensures !active <==> allowEscape && E.Idle(old(escape.View()), At(now)).exits
      ensures Offered(ring.mask, old(ring.Contents()), ring.Contents(), old(released), released, lost - old(lost))
    {
      ring.NeverOverfull();
      LookKeeps(View(), allowEscape, start, ring.mask, now);
      Look(now);
    }

    method Look(now: int)
      requires Wired() && active
      modifies this, ring`head, ring`pushed, ring.storage, escape, out, out.release
      ensures Wired() && View() == Looked(old(View()), allowEscape, ring.mask, now)
    {
      if !allowEscape {
        return;
      }
      calls := calls + [E.Looks(now)];
      escape.Idle(At(now), out);
      QueueReleased();
      active := !out.exits;
    }

    /** What has survived: taken by the transport, or still queued for it. */
    ghost function Surviving(): (bytes: seq<Byte>)
      requires ring.popped <= |ring.pushed|
      reads this, ring
    {
      uart + ring.Contents()
    }

    /**
     What the transport took is a subsequence of what the terminal sent; if nothing was dropped it
     is exactly the terminal's stream up to what is queued and, with the escape allowed, held back
     or swallowed by the exit.
     */
    lemma StreamIsKept()
      requires Valid()
      ensures PickedFrom(Surviving(), released, places) && released <= terminal
      ensures |uart| + |ring.Contents()| + lost == |released|
      ensures toModule == Count(|uart| + |ring.Contents()|) && dropped == Count(lost)
      ensures lost == 0 ==> uart + ring.Contents() == released
    {
      if lost == 0 {
        PickedAll(Surviving(), released, places);
      }
    }

    /**
     The session is left only for the sequence, and a terminal that never pauses is never cut off:
     the promises of the detector, kept by the bridge. They hold as long as time does not run
     backwards.
     */
    lemma LeftOnlyForTheSequence()
      requires Valid() && allowEscape && E.Proper(start, calls)
      ensures !active ==>
        var r := E.After(start, calls);
        var n := |terminal|;
        && n >= E.ESCAPE_COUNT && n == |r.times| && terminal[n - E.ESCAPE_COUNT..] == E.Held(E.ESCAPE_COUNT)
        && E.TimeOf(start, r, n - 2) - E.TimeOf(start, r, n - 3) >= E.GUARD_MS
        && r.exitAt.value - E.TimeOf(start, r, n) >= E.GUARD_MS
      ensures E.Busy(start, E.After(start, calls)) ==> active && released == terminal
    {
      if !active {
        E.ExitsOnlyForTheSequence(start, calls);
      }
      if E.Busy(start, E.After(start, calls)) {
        E.BusyStreamsPass(start, calls);
      }
    }
  }
}

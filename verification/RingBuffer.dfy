/** The byte ring as an object, used from one context at a time. */
module RingBuffer {
  import opened Base
  import opened Bits
  import opened RingConcurrency

  const MIN_CAPACITY := 2
  const MAX_CAPACITY := 32768

  datatype Status = Ok | InvalidParameter | Full | Empty

  /** `ring_buffer_init`'s test of a capacity. */
  function CheckCapacity(capacity: nat): (s: Status)
  {
    if capacity < MIN_CAPACITY || capacity > MAX_CAPACITY || And(capacity, capacity - 1) != 0 then InvalidParameter
    else Ok
  }

  lemma AcceptedCapacities(capacity: nat)
    ensures CheckCapacity(capacity).Ok? <==> MIN_CAPACITY <= capacity <= MAX_CAPACITY && IsPower2(capacity)
  {
    if capacity >= 1 {
      PowerOfTwoTest(capacity);
    }
  }

  class Ring {
    const storage: array<Byte>
    const mask: nat
    var head: nat
    var tail: nat
    ghost const bits: nat
    ghost var pushed: seq<Byte>
    ghost var popped: nat

    /** The sequential ring is the concurrent one with both sides at rest. */
    ghost function Abstract(): (m: Machine)
      requires popped <= |pushed|
      reads this, storage
    {
      Machine(mask, storage[..], head, tail, Resting, Waiting, pushed, pushed[..popped], 0)
    }

    ghost predicate Valid()
      reads this, storage
    {
      popped <= |pushed| && bits <= 15 && Abstract() in States(bits)
    }

    /** The bytes waiting, oldest first. */
    ghost function Contents(): (waiting: seq<Byte>)
      requires popped <= |pushed|
      reads this
    {
      pushed[popped..]
    }

    /** One slot is always kept free. */
    lemma NeverOverfull()
      requires Valid()
      ensures |Contents()| <= mask
    {
    }

    constructor (memory: array<Byte>, ghost k: nat)
      requires memory.Length == Power2(k) && 1 <= k <= 15
      ensures Valid() && storage == memory && mask == memory.Length - 1 && Contents() == []
    {
      storage, mask, bits := memory, memory.Length - 1, k;
      head, tail, pushed, popped := 0, 0, [], 0;
      new;
      RemainderOfSmall(0, Power2(k));
    }

    method Push(byte: Byte) returns (s: Status)
      requires Valid()
      modifies this`head, this`pushed, storage
      ensures Valid()
      ensures s.Ok? <==> |old(Contents())| < mask
      ensures s.Ok? ==> Contents() == old(Contents()) + [byte]
      ensures !s.Ok? ==> s.Full? && Contents() == old(Contents())
    {
      ghost var m0 := Abstract();
      ghost var m1 := Moved(m0, RingConcurrency.Move.Push(byte));
      MoveStays(bits, m0, RingConcurrency.Move.Push(byte));
      LoadedStays(bits, m1);
      var next := Advance(head, mask);
      if next == tail {
        return Full;
      }
      ghost var m2 := ProducerMoves(m1);
      StoreStays(bits, m2);
      ghost var m3 := ProducerMoves(m2);
      PublishStays(bits, m3);
      storage[head] := byte;
      head := next;
      pushed := pushed + [byte];
      s := Ok;
      assert pushed[..popped] == old(pushed)[..popped];
      assert Abstract() == ProducerMoves(m3);
    }

    method Pop() returns (s: Status, byte: Byte)
      requires Valid()
      modifies this`tail, this`popped
      ensures Valid()
      ensures s.Ok? <==> old(Contents()) != []
      ensures s.Ok? ==> old(Contents()) == [byte] + Contents()
      ensures !s.Ok? ==> s.Empty? && Contents() == old(Contents())
    {
      ghost var m := Abstract();
      PopTakes(bits, m);
      if tail == head {
        return Empty, 0;
      }
      byte := storage[tail];
      tail := Advance(tail, mask);
      popped := popped + 1;
      s := Ok;
      assert Abstract() == Popped(m);
    }

    /** The copy loop of a read: it works on a local tail and leaves the ring alone. */
    method Copy(dst: array<Byte>, max: nat) returns (count: nat, at: nat, ghost m: Machine)
      requires Valid() && max <= dst.Length && dst != storage
      modifies dst
      ensures Valid() && count <= max && dst[count..] == old(dst[count..])
      ensures m in States(bits) && ConsumerMoves(m).consumer.Waiting?
      ensures m == Abstract().(consumer := Copying(max, head, at, dst[..count]), seen := |pushed|)
    {
      m := Abstract().(consumer := Copying(max, head, tail, []), seen := |pushed|);
      assert m.accepted[popped..popped] == [];
      var from := head;
      count, at := 0, tail;
      while count < max && at != from
        invariant count <= max
        invariant m in States(bits)
        invariant m == Abstract().(consumer := Copying(max, from, at, dst[..count]), seen := |pushed|)
        invariant dst[count..] == old(dst[count..])
        decreases max - count
      {
        at, m := CopyOne(dst, max, from, at, count, m);
        count := count + 1;
      }
      CopyingStays(bits, m);
    }

    method CopyOne(dst: array<Byte>, max: nat, from: nat, at: nat, count: nat, ghost m: Machine)
      returns (next: nat, ghost m1: Machine)
      requires Valid() && count < max <= dst.Length && dst != storage && at != from && m in States(bits)
      requires m == Abstract().(consumer := Copying(max, from, at, dst[..count]), seen := |pushed|)
      modifies dst
      ensures Valid() && m1 in States(bits) && dst[count + 1..] == old(dst[count + 1..])
      ensures m1 == Abstract().(consumer := Copying(max, from, next, dst[..count + 1]), seen := |pushed|)
    {
      ghost var before := dst[..count];
      CopyGoesOn(bits, m);
      CopyOneStays(bits, m);
      dst[count] := storage[at];
      next := Advance(at, mask);
      assert dst[..count + 1] == before + [dst[count]];
      m1 := m.(consumer := Copying(max, from, next, dst[..count + 1]));
    }

    /** Takes at most `max` of the oldest bytes. */
    method Read(dst: array<Byte>, max: nat) returns (count: nat)
      requires Valid() && max <= dst.Length && dst != storage
      modifies this`tail, this`popped, dst
      ensures Valid()
      ensures count == if max <= |old(Contents())| then max else |old(Contents())|
      ensures old(Contents()) == dst[..count] + Contents()
      ensures dst[count..] == old(dst[count..])
    {
      ghost var m;
      var at;
      count, at, m := Copy(dst, max);
      CopyEnds(bits, m);
      if count > 0 {
        Release(at, count, m);
      }
    }

    /** The slots that were copied are free again. */
    method Release(at: nat, count: nat, ghost m: Machine)
      requires popped + count <= |pushed| && m.consumer.Copying? && HandedOver(m) in States(bits) && bits <= 15
      requires m == Abstract().(consumer := m.consumer, seen := m.seen) && m.consumer.tail == at
      requires pushed[..popped + count] == pushed[..popped] + m.consumer.copied
      modifies this`tail, this`popped
      ensures Valid() && popped == old(popped) + count
    {
      tail := at;
      popped := popped + count;
      assert Abstract() == HandedOver(m);
    }

    method Count() returns (n: nat)
      requires Valid()
      ensures n == |Contents()|
    {
      WaitingCount(bits, Abstract());
      n := And(Unsigned32(head - tail), mask);
    }

    method Free() returns (n: nat)
      requires Valid()
      ensures n == mask - |Contents()|
    {
      var used := Count();
      n := mask - used;
    }

    method Clear()
      requires Valid()
      modifies this`tail, this`popped
      ensures Valid() && Contents() == []
    {
      tail := head;
      popped := |pushed|;
      assert pushed[..popped] == pushed;
    }
  }
}

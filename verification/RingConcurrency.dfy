/**
 The byte ring under concurrency.

 One producer, an interrupt handler, and one consumer, the super loop, each run their operations
 one memory access at a time, interleaved in any order. `accepted` and `consumed` are histories:
 no step reads them.
 */
module RingConcurrency {
  import opened Base
  import opened Bits

  datatype Producer =
    | Resting
    | Loaded(byte: Byte, head: nat, next: nat)   // the head is read
    | Cleared(byte: Byte, head: nat, next: nat)  // the tail was read and there is room
    | Stored(byte: Byte, next: nat)              // the byte is in its slot, not yet published

  datatype Consumer =
    | Waiting
    | Popping(tail: nat)                 // pop has read the tail
    | Found(tail: nat)                   // the head was read and there is a byte
    | Taken(tail: nat, byte: Byte)       // the byte is copied, the slot not yet released
    | Sampled(limit: nat, head: nat)     // read has sampled the head
    | Copying(limit: nat, head: nat, tail: nat, copied: seq<Byte>)  // the copy loop

  datatype Machine = Machine(
    mask: nat,
    storage: seq<Byte>,
    head: nat,
    tail: nat,
    producer: Producer,
    consumer: Consumer,
    accepted: seq<Byte>,  // bytes whose push has returned OK
    consumed: seq<Byte>,  // bytes pop and read have handed over
    seen: nat             // bytes accepted when read sampled the head
  )

  /** Who moves next, and what it starts if it is at rest. */
  datatype Move = Push(byte: Byte) | Produce | Pop | Read(limit: nat) | Consume

  function Advance(index: nat, mask: nat): (next: nat) { And(index + 1, mask) }

  function ProducerMoves(m: Machine): (r: Machine)
    requires m.head < |m.storage| && (m.producer.Cleared? ==> m.producer.head < |m.storage|)
  {
    match m.producer
    case Resting => m
    case Loaded(byte, head, next) =>
      if next == m.tail then m.(producer := Resting) else m.(producer := Cleared(byte, head, next))
    case Cleared(byte, head, next) =>
      m.(storage := m.storage[head := byte], producer := Stored(byte, next))
    case Stored(byte, next) =>
      m.(head := next, producer := Resting, accepted := m.accepted + [byte])
  }

  function ConsumerMoves(m: Machine): (r: Machine)
    requires m.tail < |m.storage|
    requires m.consumer.Found? || m.consumer.Copying? ==> m.consumer.tail < |m.storage|
  {
    match m.consumer
    case Waiting => m
    case Popping(tail) => if tail == m.head then m.(consumer := Waiting) else m.(consumer := Found(tail))
    case Found(tail) => m.(consumer := Taken(tail, m.storage[tail]))
    case Taken(tail, byte) =>
      m.(tail := Advance(tail, m.mask), consumer := Waiting, consumed := m.consumed + [byte])
    case Sampled(limit, head) => m.(consumer := Copying(limit, head, m.tail, []))
    case Copying(limit, head, tail, copied) =>
      if |copied| < limit && tail != head then
        m.(consumer := Copying(limit, head, Advance(tail, m.mask), copied + [m.storage[tail]]))
      else if |copied| > 0 then
        m.(tail := tail, consumer := Waiting, consumed := m.consumed + copied)
      else m.(consumer := Waiting)
  }

  predicate InBounds(m: Machine)
  {
    && m.head < |m.storage| && m.tail < |m.storage|
    && (m.producer.Cleared? ==> m.producer.head < |m.storage|)
    && (m.consumer.Found? || m.consumer.Copying? ==> m.consumer.tail < |m.storage|)
  }

  function Moved(m: Machine, move: Move): (r: Machine)
    requires InBounds(m)
  {
    match move
    case Push(byte) =>
      if m.producer.Resting? then m.(producer := Loaded(byte, m.head, Advance(m.head, m.mask))) else m
    case Produce => ProducerMoves(m)
    case Pop => if m.consumer.Waiting? then m.(consumer := Popping(m.tail)) else m
    case Read(limit) =>
      if m.consumer.Waiting? then m.(consumer := Sampled(limit, m.head), seen := |m.accepted|) else m
    case Consume => ConsumerMoves(m)
  }

  /** `ring_buffer_init` over storage of any content. */
  function Fresh(storage: seq<Byte>): (m: Machine)
    requires |storage| >= 1
  {
    Machine(|storage| - 1, storage, 0, 0, Resting, Waiting, [], [], 0)
  }

  // ---------------------------------------------------------------------------
  // The invariant

  function NextSlot(slot: nat, c: nat): (next: nat) { if slot + 1 == c then 0 else slot + 1 }

  /** The slot of byte `i`: the storage is filled round and round. */
  function Slot(i: nat, c: nat): (slot: nat)
    requires c >= 1
    ensures slot < c
  {
    if i == 0 then 0 else NextSlot(Slot(i - 1, c), c)
  }

  lemma {:induction false} SlotIsRemainder(i: nat, c: nat)
    requires c >= 1
    ensures Slot(i, c) == i % c
  {
    if i == 0 {
      RemainderOfSmall(0, c);
    } else {
      SlotIsRemainder(i - 1, c);
      NextPosition(i - 1, c);
    }
  }

  /** The index after a slot, with the mask of the firmware. */
  lemma AdvanceIsNext(slot: nat, k: nat)
    requires slot < Power2(k)
    ensures Advance(slot, Power2(k) - 1) == NextSlot(slot, Power2(k))
  {
    MaskIsRemainder(slot + 1, k);
    RemainderOfSmall(slot, Power2(k));
    NextPosition(slot, Power2(k));
  }

  lemma AdvanceIsNextSlot(i: nat, k: nat)
    ensures Advance(Slot(i, Power2(k)), Power2(k) - 1) == Slot(i + 1, Power2(k))
  {
    AdvanceIsNext(Slot(i, Power2(k)), k);
  }

  lemma SlotsDiffer(a: nat, b: nat, c: nat)
    requires c >= 1 && a < b < a + c
    ensures Slot(a, c) != Slot(b, c)
  {
    SlotIsRemainder(a, c);
    SlotIsRemainder(b, c);
    DistinctPositions(a, b, c);
  }

  /** Every byte accepted and not yet handed over is in its slot. */
  ghost predicate Holds(m: Machine, c: nat)
    requires c >= 1
  {
    && |m.storage| == c
    && forall i :: |m.consumed| <= i < |m.accepted| ==> m.storage[Slot(i, c)] == m.accepted[i]
  }

  ghost predicate Indexed(m: Machine, c: nat)
    requires c >= 1
  {
    && m.mask == c - 1
    && m.head == Slot(|m.accepted|, c) && m.tail == Slot(|m.consumed|, c)
    && |m.consumed| <= |m.accepted| <= |m.consumed| + m.mask
    && m.consumed == m.accepted[..|m.consumed|]
  }

  ghost predicate ProducerReady(m: Machine, c: nat)
    requires c >= 1
  {
    match m.producer
    case Resting => true
    case Loaded(_, head, next) => head == m.head && next == Slot(|m.accepted| + 1, c)
    case Cleared(_, head, next) =>
      && head == m.head && next == Slot(|m.accepted| + 1, c)
      && |m.accepted| < |m.consumed| + m.mask
    case Stored(byte, next) =>
      && next == Slot(|m.accepted| + 1, c)
      && |m.accepted| < |m.consumed| + m.mask
      && |m.storage| == c && m.storage[Slot(|m.accepted|, c)] == byte
  }

  ghost predicate ConsumerReady(m: Machine, c: nat)
    requires c >= 1
  {
    match m.consumer
    case Waiting => true
    case Popping(tail) => tail == m.tail
    case Found(tail) => tail == m.tail && |m.consumed| < |m.accepted|
    case Taken(tail, byte) =>
      tail == m.tail && |m.consumed| < |m.accepted| && byte == m.accepted[|m.consumed|]
    case Sampled(_, head) =>
      |m.consumed| <= m.seen <= |m.accepted| && head == Slot(m.seen, c)
    case Copying(limit, head, tail, copied) =>
      && |copied| <= limit
      && |m.consumed| + |copied| <= m.seen <= |m.accepted|
      && head == Slot(m.seen, c) && tail == Slot(|m.consumed| + |copied|, c)
      && copied == m.accepted[|m.consumed|..|m.consumed| + |copied|]
  }

  /** The states a ring of capacity `2^k` can be in. */
  ghost function States(k: nat): (states: iset<Machine>)
  {
    iset m | Indexed(m, Power2(k)) && Holds(m, Power2(k)) && ProducerReady(m, Power2(k)) && ConsumerReady(m, Power2(k))
  }

  lemma StatesAreInBounds(k: nat, m: Machine)
    requires m in States(k)
    ensures InBounds(m)
  {
  }

  lemma ConsumerOnly(k: nat, m: Machine, to: Consumer)
    requires m in States(k) && ConsumerReady(m.(consumer := to), Power2(k))
    ensures m.(consumer := to) in States(k)
  {
  }

  lemma ProducerOnly(k: nat, m: Machine, to: Producer)
    requires m in States(k) && ProducerReady(m.(producer := to), Power2(k))
    ensures m.(producer := to) in States(k)
  {
  }

  /** The first `j` bytes accepted are now those handed over. */
  lemma HandedStays(k: nat, m: Machine, j: nat)
    requires m in States(k) && |m.consumed| <= j <= |m.accepted|
    ensures m.(tail := Slot(j, Power2(k)), consumer := Waiting, consumed := m.accepted[..j]) in States(k)
  {
  }

  /** The next slot is the tail exactly when all slots but one are taken. */
  lemma NextIsTail(k: nat, m: Machine)
    requires m in States(k)
    ensures Slot(|m.accepted| + 1, Power2(k)) == m.tail <==> |m.accepted| == |m.consumed| + m.mask
  {
    var c := Power2(k);
    if |m.accepted| < |m.consumed| + m.mask {
      SlotsDiffer(|m.consumed|, |m.accepted| + 1, c);
    } else {
      SlotWraps(|m.consumed|, c);
    }
  }

  lemma LoadedStays(k: nat, m: Machine)
    requires m in States(k) && m.producer.Loaded?
    ensures ProducerMoves(m) in States(k)
    ensures ProducerMoves(m).producer.Resting? <==> |m.accepted| == |m.consumed| + m.mask
  {
    NextIsTail(k, m);
    var Loaded(byte, head, next) := m.producer;
    ProducerOnly(k, m, if next == m.tail then Resting else Cleared(byte, head, next));
  }

  lemma SlotWraps(i: nat, c: nat)
    requires c >= 1
    ensures Slot(i + c, c) == Slot(i, c)
  {
    SlotIsRemainder(i, c);
    SlotIsRemainder(i + c, c);
    TurnedPosition(i, c);
  }

  /** The store goes to a slot that holds nothing unread. */
  lemma StoreIsSafe(k: nat, m: Machine, i: nat)
    requires m in States(k) && m.producer.Cleared?
    requires |m.consumed| <= i < |m.accepted|
    ensures Slot(i, Power2(k)) != m.producer.head
  {
    SlotsDiffer(i, |m.accepted|, Power2(k));
  }

  lemma StoreStays(k: nat, m: Machine)
    requires m in States(k) && m.producer.Cleared?
    ensures ProducerMoves(m) in States(k)
  {
    forall i: nat | |m.consumed| <= i < |m.accepted|
      ensures Slot(i, Power2(k)) != m.producer.head
    {
      StoreIsSafe(k, m, i);
    }
  }

  lemma PublishStays(k: nat, m: Machine)
    requires m in States(k) && m.producer.Stored?
    ensures ProducerMoves(m) in States(k)
  {
    PublishedHolds(k, m);
    PublishedIsReadable(k, m);
    MoreAccepted(m.accepted, m.producer.byte, 0, |m.consumed|);
  }

  lemma PublishedHolds(k: nat, m: Machine)
    requires m in States(k) && m.producer.Stored?
    ensures Holds(ProducerMoves(m), Power2(k))
  {
  }

  lemma PublishedIsReadable(k: nat, m: Machine)
    requires m in States(k) && m.producer.Stored?
    ensures ConsumerReady(ProducerMoves(m), Power2(k))
  {
    if m.consumer.Copying? {
      MoreAccepted(m.accepted, m.producer.byte, |m.consumed|, |m.consumed| + |m.consumer.copied|);
    }
  }

  lemma MoreAccepted(accepted: seq<Byte>, byte: Byte, from: nat, to: nat)
    requires from <= to <= |accepted|
    ensures (accepted + [byte])[from..to] == accepted[from..to]
  {
  }

  lemma TakenStays(k: nat, m: Machine)
    requires m in States(k) && m.consumer.Taken?
    ensures ConsumerMoves(m) in States(k)
  {
    var n := |m.consumed|;
    AdvanceIsNextSlot(n, k);
    HandedStays(k, m, n + 1);
    assert m.accepted[..n + 1] == m.consumed + [m.accepted[n]];
  }

  lemma PoppingStays(k: nat, m: Machine)
    requires m in States(k) && m.consumer.Popping?
    ensures ConsumerMoves(m) in States(k)
    ensures ConsumerMoves(m).consumer.Waiting? <==> m.accepted == m.consumed
  {
    if |m.consumed| < |m.accepted| {
      SlotsDiffer(|m.consumed|, |m.accepted|, Power2(k));
    }
  }

  /** The masked difference of the indices is the number of bytes waiting. */
  lemma WaitingCount(k: nat, m: Machine)
    requires Indexed(m, Power2(k)) && k <= 32
    ensures And(Unsigned32(m.head - m.tail), m.mask) == |m.accepted| - |m.consumed|
  {
    IndexDistance(m.head, m.tail, m.mask, |m.consumed|, |m.accepted|, k);
  }

  /** What the loop has copied are the oldest bytes waiting. */
  lemma CopiedIsOldest(k: nat, m: Machine)
    requires m in States(k) && m.consumer.Copying?
    ensures var n, copied := |m.consumed|, m.consumer.copied;
      && n + |copied| <= |m.accepted|
      && m.accepted[n..] == copied + m.accepted[n + |copied|..]
      && m.accepted[..n + |copied|] == m.consumed + copied
  {
    var n, j := |m.consumed|, |m.consumed| + |m.consumer.copied|;
    assert m.accepted[n..] == m.accepted[n..j] + m.accepted[j..];
    assert m.accepted[..j] == m.accepted[..n] + m.accepted[n..j];
  }

  lemma NextCopied(k: nat, m: Machine)
    requires m in States(k) && m.consumer.Copying? && |m.consumed| + |m.consumer.copied| < |m.accepted|
    ensures m.consumer.tail < |m.storage|
    ensures m.storage[m.consumer.tail] == m.accepted[|m.consumed| + |m.consumer.copied|]
  {
  }

  lemma CopyingUpTo(k: nat, m: Machine, limit: nat, j: nat)
    requires m in States(k) && |m.consumed| <= j <= m.seen <= |m.accepted| && j - |m.consumed| <= limit
    ensures var c := Power2(k);
      m.(consumer := Copying(limit, Slot(m.seen, c), Slot(j, c), m.accepted[|m.consumed|..j])) in States(k)
  {
    var c := Power2(k);
    ConsumerOnly(k, m, Copying(limit, Slot(m.seen, c), Slot(j, c), m.accepted[|m.consumed|..j]));
  }

  lemma OneMoreCopied(accepted: seq<Byte>, n: nat, j: nat)
    requires n <= j < |accepted|
    ensures accepted[n..j + 1] == accepted[n..j] + [accepted[j]]
  {
  }

  /** The next byte of the copy loop. */
  lemma CopyOneStays(k: nat, m: Machine)
    requires m in States(k) && m.consumer.Copying?
    requires |m.consumer.copied| < m.consumer.limit && |m.consumed| + |m.consumer.copied| < m.seen
    ensures m.consumer.tail < |m.storage| && m.consumer.tail != m.consumer.head
    ensures var c := m.consumer;
      m.(consumer := c.(tail := Advance(c.tail, m.mask), copied := c.copied + [m.storage[c.tail]])) in States(k)
  {
    CopyIsAt(k, m);
    NextConsumer(k, m);
    CopyingUpTo(k, m, m.consumer.limit, |m.consumed| + |m.consumer.copied| + 1);
  }

  lemma NextConsumer(k: nat, m: Machine)
    requires m in States(k) && m.consumer.Copying? && |m.consumed| + |m.consumer.copied| < m.seen
    ensures var c, to := m.consumer, |m.consumed| + |m.consumer.copied| + 1;
      && c.tail < |m.storage| && to <= |m.accepted|
      && c.(tail := Advance(c.tail, m.mask), copied := c.copied + [m.storage[c.tail]])
         == Copying(c.limit, Slot(m.seen, Power2(k)), Slot(to, Power2(k)), m.accepted[|m.consumed|..to])
  {
    var n, j := |m.consumed|, |m.consumed| + |m.consumer.copied|;
    CopyIsAt(k, m);
    AdvanceIsNextSlot(j, k);
    OneMoreCopied(m.accepted, n, j);
    NextCopied(k, m);
  }

  /** Where the copy loop is. */
  lemma CopyIsAt(k: nat, m: Machine)
    requires m in States(k) && m.consumer.Copying? && |m.consumed| + |m.consumer.copied| < m.seen
    ensures var c, j := Power2(k), |m.consumed| + |m.consumer.copied|;
      && j < m.seen <= |m.accepted| && m.mask == c - 1
      && m.consumer.head == Slot(m.seen, c) && m.consumer.tail == Slot(j, c) && m.consumer.tail != m.consumer.head
      && m.consumer.copied == m.accepted[|m.consumed|..j]
  {
    SlotsDiffer(|m.consumed| + |m.consumer.copied|, m.seen, Power2(k));
  }

  /** The copy loop goes on exactly while there is room and a byte. */
  lemma CopyGoesOn(k: nat, m: Machine)
    requires m in States(k) && m.consumer.Copying?
    ensures |m.consumer.copied| < m.consumer.limit && m.consumer.tail != m.consumer.head <==>
      |m.consumer.copied| < m.consumer.limit && |m.consumed| + |m.consumer.copied| < m.seen
  {
    if |m.consumer.copied| < m.consumer.limit && |m.consumed| + |m.consumer.copied| < m.seen {
      CopyOneStays(k, m);
    }
  }

  lemma CopyHandsOver(k: nat, m: Machine)
    requires m in States(k) && m.consumer.Copying?
    ensures m.(tail := m.consumer.tail, consumer := Waiting, consumed := m.consumed + m.consumer.copied) in States(k)
  {
    CopiedIsOldest(k, m);
    HandedStays(k, m, |m.consumed| + |m.consumer.copied|);
  }

  lemma CopyingStays(k: nat, m: Machine)
    requires m in States(k) && m.consumer.Copying?
    ensures ConsumerMoves(m) in States(k)
    ensures ConsumerMoves(m).consumer.Waiting? <==>
      |m.consumer.copied| == m.consumer.limit || |m.consumed| + |m.consumer.copied| == m.seen
  {
    CopyGoesOn(k, m);
    if |m.consumer.copied| < m.consumer.limit && m.consumer.tail != m.consumer.head {
      CopyOneStays(k, m);
    } else if |m.consumer.copied| > 0 {
      CopyHandsOver(k, m);
    } else {
      ConsumerOnly(k, m, Waiting);
    }
  }

  /** All the steps of a pop from an idle consumer. */
  function Popped(m: Machine): (r: Machine)
    requires InBounds(m) && m.consumer.Waiting?
  {
    var found := ConsumerMoves(m.(consumer := Popping(m.tail)));
    if found.consumer.Waiting? then found else ConsumerMoves(ConsumerMoves(found))
  }

  lemma PoppedStays(k: nat, m: Machine)
    requires m in States(k) && m.consumer.Waiting?
    ensures InBounds(m) && Popped(m) in States(k)
  {
    PopStays(k, m);
    var reading := m.(consumer := Popping(m.tail));
    ConsumerStays(k, reading);
    var found := ConsumerMoves(reading);
    if found.consumer.Found? {
      ConsumerStays(k, found);
      ConsumerStays(k, ConsumerMoves(found));
    }
  }

  /** A pop takes the oldest byte, or finds that there is none. */
  lemma PopTakes(k: nat, m: Machine)
    requires m in States(k) && m.consumer.Waiting?
    ensures InBounds(m) && Popped(m) in States(k)
    ensures m.tail == m.head <==> m.accepted == m.consumed
    ensures m.tail != m.head ==>
      var n := |m.consumed|;
      && n < |m.accepted| && m.storage[m.tail] == m.accepted[n]
      && m.accepted[n..] == [m.accepted[n]] + m.accepted[n + 1..]
      && Popped(m) == m.(tail := Advance(m.tail, m.mask), consumed := m.accepted[..n + 1])
  {
    PoppedStays(k, m);
    HeadIsTail(k, m);
    if m.tail != m.head {
      var n := |m.consumed|;
      assert m.accepted[..n + 1] == m.accepted[..n] + [m.accepted[n]];
    }
  }

  lemma HeadIsTail(k: nat, m: Machine)
    requires m in States(k)
    ensures m.tail == m.head <==> m.accepted == m.consumed
  {
    if |m.consumed| < |m.accepted| {
      SlotsDiffer(|m.consumed|, |m.accepted|, Power2(k));
    }
  }

  /** When the copy loop ends, what it has copied is handed over, and the ring is as if it had been popped. */
  lemma CopyEnds(k: nat, m: Machine)
    requires m in States(k) && m.consumer.Copying? && ConsumerMoves(m).consumer.Waiting?
    ensures var n, copied := |m.consumed|, m.consumer.copied;
      && |copied| == (if m.consumer.limit <= m.seen - n then m.consumer.limit else m.seen - n)
      && n + |copied| <= |m.accepted|
      && m.accepted[n..] == copied + m.accepted[n + |copied|..]
      && m.accepted[..n + |copied|] == m.consumed + copied
      && (copied != [] ==> HandedOver(m) in States(k))
  {
    CopyingStays(k, m);
    CopiedIsOldest(k, m);
    if m.consumer.copied != [] {
      assert ConsumerMoves(m) == HandedOver(m).(seen := m.seen);
      SeenDoesNotMatter(k, ConsumerMoves(m));
    }
  }

  function HandedOver(m: Machine): (r: Machine)
    requires m.consumer.Copying?
  {
    m.(tail := m.consumer.tail, consumer := Waiting, consumed := m.consumed + m.consumer.copied, seen := 0)
  }

  lemma SeenDoesNotMatter(k: nat, m: Machine)
    requires m in States(k) && m.consumer.Waiting?
    ensures m.(seen := 0) in States(k)
  {
  }

  lemma PushStays(k: nat, m: Machine, byte: Byte)
    requires m in States(k)
    ensures m.producer.Resting? ==> m.(producer := Loaded(byte, m.head, Advance(m.head, m.mask))) in States(k)
  {
    AdvanceIsNextSlot(|m.accepted|, k);
    if m.producer.Resting? {
      ProducerOnly(k, m, Loaded(byte, m.head, Advance(m.head, m.mask)));
    }
  }

  lemma PopStays(k: nat, m: Machine)
    requires m in States(k)
    ensures m.consumer.Waiting? ==> m.(consumer := Popping(m.tail)) in States(k)
  {
    if m.consumer.Waiting? {
      ConsumerOnly(k, m, Popping(m.tail));
    }
  }

  lemma SampleStays(k: nat, m: Machine, limit: nat)
    requires m in States(k)
    ensures m.consumer.Waiting? ==> m.(consumer := Sampled(limit, m.head), seen := |m.accepted|) in States(k)
  {
  }

  lemma ProducerStays(k: nat, m: Machine)
    requires m in States(k)
    ensures InBounds(m) && ProducerMoves(m) in States(k)
  {
    StatesAreInBounds(k, m);
    match m.producer
    case Resting =>
    case Loaded(_, _, _) => LoadedStays(k, m);
    case Cleared(_, _, _) => StoreStays(k, m);
    case Stored(_, _) => PublishStays(k, m);
  }

  lemma FoundStays(k: nat, m: Machine)
    requires m in States(k) && m.consumer.Found?
    ensures ConsumerMoves(m) in States(k)
  {
    ConsumerOnly(k, m, Taken(m.tail, m.storage[m.tail]));
  }

  lemma SampledStays(k: nat, m: Machine)
    requires m in States(k) && m.consumer.Sampled?
    ensures ConsumerMoves(m) in States(k)
  {
    ConsumerOnly(k, m, Copying(m.consumer.limit, m.consumer.head, m.tail, []));
  }

  lemma ConsumerStays(k: nat, m: Machine)
    requires m in States(k)
    ensures InBounds(m) && ConsumerMoves(m) in States(k)
  {
    StatesAreInBounds(k, m);
    match m.consumer
    case Waiting =>
    case Popping(_) => PoppingStays(k, m);
    case Found(_) => FoundStays(k, m);
    case Taken(_, _) => TakenStays(k, m);
    case Sampled(_, _) => SampledStays(k, m);
    case Copying(_, _, _, _) => CopyingStays(k, m);
  }

  lemma MoveStays(k: nat, m: Machine, move: Move)
    requires m in States(k)
    ensures InBounds(m) && Moved(m, move) in States(k)
  {
    StatesAreInBounds(k, m);
    match move
    case Push(byte) => PushStays(k, m, byte);
    case Produce => ProducerStays(k, m);
    case Pop => PopStays(k, m);
    case Read(limit) => SampleStays(k, m, limit);
    case Consume => ConsumerStays(k, m);
  }

  // ---------------------------------------------------------------------------
  // Every interleaving

  /** The machine after a sequence of moves; every interleaving is one. */
  ghost predicate Reaches(start: Machine, moves: seq<Move>, end: Machine)
  {
    if moves == [] then end == start
    else exists before ::
      Reaches(start, moves[..|moves| - 1], before) && InBounds(before) && end == Moved(before, moves[|moves| - 1])
  }

  lemma {:induction false} ReachedStates(k: nat, storage: seq<Byte>, moves: seq<Move>, end: Machine)
    requires |storage| == Power2(k) && Reaches(Fresh(storage), moves, end)
    ensures end in States(k)
  {
    if moves == [] {
      Bits.RemainderOfSmall(0, Power2(k));
    } else {
      var before :| Reaches(Fresh(storage), moves[..|moves| - 1], before) && InBounds(before)
                 && end == Moved(before, moves[|moves| - 1]);
      ReachedStates(k, storage, moves[..|moves| - 1], before);
      MoveStays(k, before, moves[|moves| - 1]);
    }
  }

  /** No interleaving ever blocks: the indices always stay inside the storage. */
  lemma {:induction false} EveryInterleavingRuns(k: nat, storage: seq<Byte>, moves: seq<Move>)
    requires |storage| == Power2(k)
    ensures exists end :: Reaches(Fresh(storage), moves, end)
  {
    if moves == [] {
      assert Reaches(Fresh(storage), moves, Fresh(storage));
    } else {
      EveryInterleavingRuns(k, storage, moves[..|moves| - 1]);
      var before :| Reaches(Fresh(storage), moves[..|moves| - 1], before);
      ReachedStates(k, storage, moves[..|moves| - 1], before);
      StatesAreInBounds(k, before);
      assert Reaches(Fresh(storage), moves, Moved(before, moves[|moves| - 1]));
    }
  }

  /**
   The ring is a queue under every interleaving: what was handed over is a prefix of what was
   accepted, in order, nothing lost and nothing twice, and at most the capacity less one waits.
   */
  lemma ConsumedIsPrefix(k: nat, storage: seq<Byte>, moves: seq<Move>, end: Machine)
    requires |storage| == Power2(k) && Reaches(Fresh(storage), moves, end)
    ensures end.consumed <= end.accepted
    ensures |end.accepted| - |end.consumed| <= Power2(k) - 1
  {
    ReachedStates(k, storage, moves, end);
  }

  /**
   A count made from a head sampled earlier, while the producer goes on, never overstates: it is
   exactly what was waiting at the sample.
   */
  lemma CountIsExact(k: nat, storage: seq<Byte>, moves: seq<Move>, m: Machine, sampled: nat)
    requires k <= 32 && |storage| == Power2(k) && Reaches(Fresh(storage), moves, m)
    requires |m.consumed| <= sampled <= |m.accepted|
    ensures And(Unsigned32(Slot(sampled, Power2(k)) - m.tail), m.mask) == sampled - |m.consumed|
  {
    ReachedStates(k, storage, moves, m);
    CountOfState(k, m, sampled);
  }

  lemma CountOfState(k: nat, m: Machine, sampled: nat)
    requires k <= 32 && Indexed(m, Power2(k)) && |m.consumed| <= sampled <= |m.accepted|
    ensures And(Unsigned32(Slot(sampled, Power2(k)) - m.tail), m.mask) == sampled - |m.consumed|
  {
    IndexDistance(Slot(sampled, Power2(k)), m.tail, m.mask, |m.consumed|, sampled, k);
  }

  lemma IndexDistance(head: nat, tail: nat, mask: nat, a: nat, b: nat, k: nat)
    requires head == Slot(b, Power2(k)) && tail == Slot(a, Power2(k)) && mask == Power2(k) - 1
    requires a <= b < a + Power2(k) && k <= 32
    ensures And(Unsigned32(head - tail), mask) == b - a
  {
    SlotDistance(a, b, k);
  }

  lemma SlotDistance(a: nat, b: nat, k: nat)
    requires a <= b < a + Power2(k) && k <= 32
    ensures And(Unsigned32(Slot(b, Power2(k)) - Slot(a, Power2(k))), Power2(k) - 1) == b - a
  {
    SlotIsRemainder(a, Power2(k));
    SlotIsRemainder(b, Power2(k));
    DistanceOfPositions(a, b, k);
  }

  /** A push is refused only when the ring is full, and a pop comes back empty only when it is empty. */
  lemma RefusalsAreTrue(k: nat, storage: seq<Byte>, moves: seq<Move>, m: Machine)
    requires |storage| == Power2(k) && Reaches(Fresh(storage), moves, m)
    ensures InBounds(m)
    ensures m.producer.Loaded? && ProducerMoves(m).producer.Resting?
        ==> |m.accepted| - |m.consumed| == Power2(k) - 1
    ensures m.consumer.Popping? && ConsumerMoves(m).consumer.Waiting? ==> m.accepted == m.consumed
  {
    ReachedStates(k, storage, moves, m);
    if m.producer.Loaded? {
      LoadedStays(k, m);
    }
    if m.consumer.Popping? {
      PoppingStays(k, m);
    }
  }

  /** A read hands over everything that was accepted when it sampled the head, up to its limit. */
  lemma ReadTakesWhatWasThere(k: nat, storage: seq<Byte>, moves: seq<Move>, m: Machine)
    requires |storage| == Power2(k) && Reaches(Fresh(storage), moves, m)
    requires m.consumer.Copying?
    ensures InBounds(m)
    ensures ConsumerMoves(m).consumer.Waiting? ==>
      var n := if m.consumer.limit <= m.seen - |m.consumed| then m.consumer.limit else m.seen - |m.consumed|;
      && 0 <= n <= |m.accepted| - |m.consumed|
      && ConsumerMoves(m).consumed == m.accepted[..|m.consumed| + n]
  {
    ReachedStates(k, storage, moves, m);
    CopyingStays(k, m);
    CopiedIsOldest(k, m);
  }

  /** No store ever goes to a slot that still holds an unread byte. */
  lemma NoSlotWrittenWhileUnread(k: nat, storage: seq<Byte>, moves: seq<Move>, m: Machine, i: nat)
    requires |storage| == Power2(k) && Reaches(Fresh(storage), moves, m)
    requires m.producer.Cleared? && |m.consumed| <= i < |m.accepted|
    ensures i % Power2(k) != m.producer.head
  {
    ReachedStates(k, storage, moves, m);
    StoreIsSafe(k, m, i);
    SlotIsRemainder(i, Power2(k));
  }
}

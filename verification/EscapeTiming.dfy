/**
 The bridge's escape sequence as a function of what arrives and when: three escape characters with
 a guard time of silence before and after them.
 */
module EscapeTiming {
  import opened Base
  import opened Ticks

  const ESCAPE_CHAR: Byte := 0x1D
  const ESCAPE_COUNT := 3
  const GUARD_MS := 1000

  datatype Detector = Detector(held: nat, armed: bool, last: Tick)

  datatype Reaction = Reaction(detector: Detector, release: seq<Byte>, exits: bool)

  /** The escape characters held back. */
  function Held(n: nat): (bytes: seq<Byte>)
    ensures |bytes| == n && forall i :: 0 <= i < n ==> bytes[i] == ESCAPE_CHAR
  {
    seq(n, _ => ESCAPE_CHAR)
  }

  function Reset(now: Tick): (d: Detector) { Detector(0, false, now) }

  /** `xbee_bridge_escape_feed`. */
  function Feed(d: Detector, byte: Byte, now: Tick): (r: Reaction)
  {
    if d.armed then Reaction(Detector(0, false, now), Held(d.held) + [byte], false)
    else if byte == ESCAPE_CHAR then
      if d.held > 0 then Reaction(Detector(d.held + 1, d.held + 1 >= ESCAPE_COUNT, now), [], false)
      else if Elapsed(now, d.last, GUARD_MS) then Reaction(Detector(1, d.armed, now), [], false)
      else Reaction(d.(last := now), [byte], false)
    else Reaction(Detector(0, false, now), Held(d.held) + [byte], false)
  }

  /** `xbee_bridge_escape_idle`. */
  function Idle(d: Detector, now: Tick): (r: Reaction)
  {
    if d.held == 0 || !Elapsed(now, d.last, GUARD_MS) then Reaction(d, [], false)
    else if d.armed then Reaction(d.(held := 0, armed := false), [], true)
    else Reaction(d.(held := 0, armed := false), Held(d.held), false)
  }

  /** Armed exactly when all three are held, and never more than three. */
  predicate Sound(d: Detector)
  {
    d.held <= ESCAPE_COUNT && (d.armed <==> d.held == ESCAPE_COUNT)
  }

  /** One call keeps the detector sound, and what it releases fits the output record. */
  lemma CallsStaySound(d: Detector, byte: Byte, now: Tick)
    requires Sound(d)
    ensures Sound(Feed(d, byte, now).detector) && Sound(Idle(d, now).detector)
    ensures |Feed(d, byte, now).release| <= ESCAPE_COUNT + 1 && |Idle(d, now).release| < ESCAPE_COUNT
  {
  }

  // ---------------------------------------------------------------------------
  // Runs

  /** A byte arrives, or the bridge looks whether a guard time has passed. Times are true milliseconds. */
  datatype Call = Arrives(byte: Byte, at: int) | Looks(at: int)

  datatype Run = Run(
    detector: Detector,
    fed: seq<Byte>,
    times: seq<int>,      // of the bytes fed
    released: seq<Byte>,
    exitAt: Option<int>,  // when the bridge was left
    at: int               // of the last call
  )

  function Begin(start: int): (r: Run) { Run(Reset(At(start)), [], [], [], None, start) }

  /** A call, with what the clock shows. */
  function StepAt(r: Run, c: Call, tick: Tick): (r1: Run)
  {
    match c
    case Arrives(byte, at) =>
      var x := Feed(r.detector, byte, tick);
      Run(x.detector, r.fed + [byte], r.times + [at], r.released + x.release, r.exitAt, at)
    case Looks(at) =>
      var x := Idle(r.detector, tick);
      r.(detector := x.detector, released := r.released + x.release,
         exitAt := if x.exits then Some(at) else r.exitAt, at := at)
  }

  function Step(r: Run, c: Call): (r1: Run) { StepAt(r, c, At(c.at)) }

  function After(start: int, calls: seq<Call>): (r: Run)
  {
    if calls == [] then Begin(start) else Step(After(start, calls[..|calls| - 1]), calls[|calls| - 1])
  }

  /** Time does not run backwards, and nothing follows an exit. */
  predicate Proper(start: int, calls: seq<Call>)
  {
    calls == []
    || (var init := calls[..|calls| - 1];
        Proper(start, init) && After(start, init).exitAt.None? && calls[|calls| - 1].at >= After(start, init).at)
  }

  /** When byte `i` arrived, or the session began. */
  function TimeOf(start: int, r: Run, i: int): (t: int)
    requires |r.times| >= i
  {
    if i <= 0 then start else r.times[i - 1]
  }

  /** The last `n` bytes are escape characters, the first of them a guard time after the byte before. */
  ghost predicate Candidate(start: int, r: Run, n: nat)
  {
    && n <= |r.fed| == |r.times|
    && r.fed[|r.fed| - n..] == Held(n)
    && (n > 0 ==> TimeOf(start, r, |r.fed| - n + 1) - TimeOf(start, r, |r.fed| - n) >= GUARD_MS)
  }

  /** What holds throughout a run, apart from what the detector remembers of the clock. */
  ghost predicate Shaped(start: int, r: Run)
  {
    && |r.fed| == |r.times|
    && Sound(r.detector)
    && TimeOf(start, r, |r.fed|) <= r.at
    && Candidate(start, r, r.detector.held)
    && match r.exitAt
       case None => r.released + Held(r.detector.held) == r.fed
       case Some(at) =>
         && r.detector.held == 0 && r.released + Held(ESCAPE_COUNT) == r.fed
         && Candidate(start, r, ESCAPE_COUNT) && at - TimeOf(start, r, |r.fed|) >= GUARD_MS
  }

  /** What holds throughout a run. */
  ghost predicate Keeping(start: int, r: Run)
  {
    Shaped(start, r) && r.detector.last == At(TimeOf(start, r, |r.fed|))
  }

  /** A guard that reads as elapsed has truly elapsed, however long the gap. */
  lemma ElapsedIsTrue(now: int, since: int, window: nat)
    requires now >= since && Elapsed(At(now), At(since), window)
    ensures now - since >= window
  {
    if now - since < HALF {
      ElapsedMeansTrueTime(now, since, window);
    } else {
      DifferenceIsBounded(At(now), At(since));
    }
  }

  lemma DifferenceIsBounded(now: Tick, since: Tick)
    ensures -HALF <= SignedDifference(now, since) < HALF
  {
  }

  /** The clock reads as a guard time later only if one has passed. */
  predicate Honest(start: int, r: Run, at: int, tick: Tick)
    requires |r.times| >= |r.fed|
  {
    Elapsed(tick, r.detector.last, GUARD_MS) ==> at - TimeOf(start, r, |r.fed|) >= GUARD_MS
  }

  lemma ClockIsHonest(start: int, r: Run, at: int)
    requires Keeping(start, r) && at >= r.at
    ensures Honest(start, r, at, At(at))
  {
    var since := TimeOf(start, r, |r.fed|);
    if Elapsed(At(at), At(since), GUARD_MS) {
      ElapsedIsTrue(at, since, GUARD_MS);
    }
  }

  /** An escape character joins those held. */
  lemma JoinKeeps(start: int, r: Run, at: int, tick: Tick)
    requires Shaped(start, r) && r.exitAt.None? && at >= r.at && r.detector.held > 0 && !r.detector.armed
    ensures Shaped(start, StepAt(r, Arrives(ESCAPE_CHAR, at), tick))
  {
    var r1 := StepAt(r, Arrives(ESCAPE_CHAR, at), tick);
    var n := r.detector.held;
    CallsStaySound(r.detector, ESCAPE_CHAR, tick);
    assert Held(n) + [ESCAPE_CHAR] == Held(n + 1);
    assert r1.fed[|r1.fed| - (n + 1)..] == r.fed[|r.fed| - n..] + [ESCAPE_CHAR];
    assert r.released + Held(n) + [ESCAPE_CHAR] == r.released + (Held(n) + [ESCAPE_CHAR]);
    assert r.released + [] == r.released;
  }

  /** The first escape character after a silence is held back. */
  lemma FirstKeeps(start: int, r: Run, at: int, tick: Tick)
    requires Shaped(start, r) && r.exitAt.None? && at >= r.at && r.detector.held == 0
    requires Elapsed(tick, r.detector.last, GUARD_MS) && Honest(start, r, at, tick)
    ensures Shaped(start, StepAt(r, Arrives(ESCAPE_CHAR, at), tick))
  {
    var r1 := StepAt(r, Arrives(ESCAPE_CHAR, at), tick);
    assert r1.fed[|r1.fed| - 1..] == [ESCAPE_CHAR] && Held(1) == [ESCAPE_CHAR];
    assert r.released + Held(0) == r.released && r.released + [] == r.released;
  }

  /** Any other byte passes, after what was held back. */
  lemma PassKeeps(start: int, r: Run, byte: Byte, at: int, tick: Tick)
    requires Shaped(start, r) && r.exitAt.None? && at >= r.at
    requires Feed(r.detector, byte, tick).release == Held(r.detector.held) + [byte]
    requires Feed(r.detector, byte, tick).detector.held == 0
    ensures Shaped(start, StepAt(r, Arrives(byte, at), tick))
  {
    var r1 := StepAt(r, Arrives(byte, at), tick);
    var held := Held(r.detector.held);
    CallsStaySound(r.detector, byte, tick);
    assert r1.fed[|r1.fed|..] == Held(0);
    assert r.released + (held + [byte]) == r.released + held + [byte];
    assert r1.released + Held(0) == r1.released;
  }

  lemma ArrivalKeeps(start: int, r: Run, byte: Byte, at: int, tick: Tick)
    requires Shaped(start, r) && r.exitAt.None? && at >= r.at && Honest(start, r, at, tick)
    ensures Shaped(start, StepAt(r, Arrives(byte, at), tick))
  {
    var d := r.detector;
    if byte == ESCAPE_CHAR && !d.armed && d.held > 0 {
      JoinKeeps(start, r, at, tick);
    } else if byte == ESCAPE_CHAR && d.held == 0 && Elapsed(tick, d.last, GUARD_MS) {
      FirstKeeps(start, r, at, tick);
    } else {
      assert d.held == 0 ==> Held(d.held) + [byte] == [byte];
      PassKeeps(start, r, byte, at, tick);
    }
  }

  /** A look at the clock that finds nothing to do. */
  lemma QuietLookKeeps(start: int, r: Run, at: int, tick: Tick)
    requires Shaped(start, r) && r.exitAt.None? && at >= r.at
    requires Idle(r.detector, tick) == Reaction(r.detector, [], false)
    ensures Shaped(start, StepAt(r, Looks(at), tick))
  {
    assert r.released + [] == r.released;
  }

  /** A candidate that never grew into the sequence is released. */
  lemma ReleaseKeeps(start: int, r: Run, at: int, tick: Tick)
    requires Shaped(start, r) && r.exitAt.None? && at >= r.at && r.detector.held > 0 && !r.detector.armed
    requires Elapsed(tick, r.detector.last, GUARD_MS)
    ensures Shaped(start, StepAt(r, Looks(at), tick))
  {
    var r1 := StepAt(r, Looks(at), tick);
    assert r1.fed[|r1.fed|..] == Held(0);
    assert r1.released + Held(0) == r1.released;
  }

  /** The sequence is swallowed. */
  lemma ExitKeeps(start: int, r: Run, at: int, tick: Tick)
    requires Shaped(start, r) && r.exitAt.None? && at >= r.at && r.detector.armed
    requires Elapsed(tick, r.detector.last, GUARD_MS) && Honest(start, r, at, tick)
    ensures Shaped(start, StepAt(r, Looks(at), tick))
  {
    var r1 := StepAt(r, Looks(at), tick);
    assert r1.fed[|r1.fed|..] == Held(0);
    assert r.released + [] == r.released;
  }

  lemma LookKeeps(start: int, r: Run, at: int, tick: Tick)
    requires Shaped(start, r) && r.exitAt.None? && at >= r.at && Honest(start, r, at, tick)
    ensures Shaped(start, StepAt(r, Looks(at), tick))
  {
    if r.detector.held == 0 || !Elapsed(tick, r.detector.last, GUARD_MS) {
      QuietLookKeeps(start, r, at, tick);
    } else if r.detector.armed {
      ExitKeeps(start, r, at, tick);
    } else {
      ReleaseKeeps(start, r, at, tick);
    }
  }

  /** The detector remembers when the last byte arrived. */
  lemma RemembersTheClock(start: int, r: Run, c: Call)
    requires |r.fed| == |r.times| && r.detector.last == At(TimeOf(start, r, |r.fed|))
    ensures var r1 := Step(r, c); |r1.fed| == |r1.times| && r1.detector.last == At(TimeOf(start, r1, |r1.fed|))
  {
  }

  lemma {:induction false} RunsKeep(start: int, calls: seq<Call>)
    requires Proper(start, calls)
    ensures Keeping(start, After(start, calls))
  {
    if calls == [] {
    } else {
      var init, last := calls[..|calls| - 1], calls[|calls| - 1];
      var r := After(start, init);
      RunsKeep(start, init);
      ClockIsHonest(start, r, last.at);
      RemembersTheClock(start, r, last);
      match last
      case Arrives(byte, at) => ArrivalKeeps(start, r, byte, at, At(at));
      case Looks(at) => LookKeeps(start, r, at, At(at));
    }
  }

  /** Nothing is lost, repeated or reordered: what was released and what is held is what was fed. */
  lemma NothingIsLost(start: int, calls: seq<Call>)
    requires Proper(start, calls)
    ensures var r := After(start, calls);
      && (r.exitAt.None? ==> r.released + Held(r.detector.held) == r.fed && r.detector.held <= ESCAPE_COUNT)
      && (r.exitAt.Some? ==> r.released + Held(ESCAPE_COUNT) == r.fed)
  {
    RunsKeep(start, calls);
  }

  /**
   The bridge is left only for the sequence: the last three bytes are escape characters, a guard
   time of silence lies before the first of them and another between the last and the exit. This
   needs no bound on the gaps: a counter that wrapped can only make the bridge wait.
   */
  lemma ExitsOnlyForTheSequence(start: int, calls: seq<Call>)
    requires Proper(start, calls) && After(start, calls).exitAt.Some?
    ensures var r := After(start, calls);
      var n := |r.fed|;
      && n >= ESCAPE_COUNT && n == |r.times| && r.fed[n - ESCAPE_COUNT..] == Held(ESCAPE_COUNT)
      && TimeOf(start, r, n - 2) - TimeOf(start, r, n - 3) >= GUARD_MS
      && r.exitAt.value - TimeOf(start, r, n) >= GUARD_MS
  {
    RunsKeep(start, calls);
  }

  /** A stream without a guard time of silence. */
  ghost predicate Busy(start: int, r: Run)
  {
    forall i :: 0 <= i < |r.times| ==> TimeOf(start, r, i + 1) - TimeOf(start, r, i) < GUARD_MS
  }

  /** In a busy stream every byte passes at once and the bridge is never left. */
  lemma {:induction false} BusyStreamsPass(start: int, calls: seq<Call>)
    requires Proper(start, calls) && Busy(start, After(start, calls))
    ensures var r := After(start, calls); r.released == r.fed && r.exitAt.None? && r.detector.held == 0
  {
    if calls == [] {
    } else {
      var init, last := calls[..|calls| - 1], calls[|calls| - 1];
      var r0, r := After(start, init), After(start, calls);
      RunsKeep(start, init);
      assert forall i :: 0 <= i <= |r0.times| ==> TimeOf(start, r, i) == TimeOf(start, r0, i);
      assert Busy(start, r0) by {
        forall i | 0 <= i < |r0.times|
          ensures TimeOf(start, r0, i + 1) - TimeOf(start, r0, i) < GUARD_MS
        {
          assert TimeOf(start, r, i + 1) - TimeOf(start, r, i) < GUARD_MS;
        }
      }
      BusyStreamsPass(start, init);
      if last.Arrives? {
        var n := |r0.times|;
        assert TimeOf(start, r, n + 1) - TimeOf(start, r, n) < GUARD_MS;
        ElapsedMeansTrueTime(last.at, TimeOf(start, r0, n), GUARD_MS);
        assert Held(0) + [last.byte] == [last.byte];
      }
    }
  }

  /**
   The sequence does leave the bridge: after a silence, three escape characters in a row and
   another silence, both at least a guard time and under half the counter's range.
   */
  lemma TheSequenceExits(r: Run, quiet: int, t1: int, t2: int, t3: int, t4: int)
    requires r.detector.held == 0 && !r.detector.armed && r.detector.last == At(quiet)
    requires GUARD_MS <= t1 - quiet < HALF && GUARD_MS <= t4 - t3 < HALF
    ensures var r1 := Step(Step(Step(r, Arrives(ESCAPE_CHAR, t1)), Arrives(ESCAPE_CHAR, t2)), Arrives(ESCAPE_CHAR, t3));
      Step(r1, Looks(t4)).exitAt == Some(t4) && Step(r1, Looks(t4)).released == r.released
  {
    ElapsedMeansTrueTime(t1, quiet, GUARD_MS);
    ElapsedMeansTrueTime(t4, t3, GUARD_MS);
    assert r.released + [] == r.released;
  }
}

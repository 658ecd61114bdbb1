/**
 What the outcome of a provisioning run is evidence of.

 A pass result means that every readable entry was asked for exactly once, in table order, and
 that every value the module reported equals the expected one. A failed read is evidence of
 nothing: it neither counts as a match nor as a mismatch.
 */
module ProvisionPass {
  import opened AtTable
  import opened ProvisionEngine

  /**
   `seg` is the log of reading the readable entries below `n`: one read and one answer each, in
   table order. `differs` holds exactly those whose answer was a value other than the expected.
   */
  ghost predicate IsPass(cfg: Config, saved: seq<Saved>, differs: set<nat>, seg: seq<Event>, n: nat)
    requires n <= |cfg.params|
  {
    if n == 0 then seg == []
    else if !Readable(cfg, n - 1) then IsPass(cfg, saved, differs, seg, n - 1)
    else
      && |seg| >= 2
      && seg[|seg| - 2] == Get(n - 1)
      && seg[|seg| - 1].Reply?
      && (n - 1 in differs <==> Contradicts(cfg, saved, n - 1, seg[|seg| - 1].answer))
      && IsPass(cfg, saved, differs, seg[..|seg| - 2], n - 1)
  }

  /** The module reported a value, and it is not the expected one. */
  predicate Contradicts(cfg: Config, saved: seq<Saved>, i: nat, a: Answer)
    requires i < |cfg.params|
  {
    a.ok && !ValuesEqual(EntryOf(cfg, i), a.value, Expected(cfg, saved, i))
  }

  /** A complete pass without a contradiction, possibly followed by the session close. */
  ghost predicate CleanPass(cfg: Config, saved: seq<Saved>, seg: seq<Event>)
  {
    || IsPass(cfg, saved, {}, seg, |cfg.params|)
    || (seg != [] && seg[|seg| - 1] == Exit && IsPass(cfg, saved, {}, seg[..|seg| - 1], |cfg.params|))
  }

  lemma {:induction false} PassIgnoresLater(cfg: Config, saved: seq<Saved>, differs: set<nat>, i: nat,
                                            seg: seq<Event>, n: nat)
    requires n <= i && n <= |cfg.params|
    requires IsPass(cfg, saved, differs, seg, n)
    ensures IsPass(cfg, saved, differs + {i}, seg, n)
  {
    if n == 0 {
    } else {
      if Readable(cfg, n - 1) {
        PassIgnoresLater(cfg, saved, differs, i, seg[..|seg| - 2], n - 1);
      } else {
        PassIgnoresLater(cfg, saved, differs, i, seg, n - 1);
      }
    }
  }

  lemma {:induction false} PassSkipsUnreadable(cfg: Config, saved: seq<Saved>, differs: set<nat>, seg: seq<Event>,
                                               n: nat, m: nat)
    requires n <= m <= |cfg.params|
    requires IsPass(cfg, saved, differs, seg, n)
    requires forall k :: n <= k < m ==> !Readable(cfg, k)
    ensures IsPass(cfg, saved, differs, seg, m)
    decreases m
  {
    if n == m {
    } else {
      PassSkipsUnreadable(cfg, saved, differs, seg, n, m - 1);
    }
  }

  /** What a clean pass says about one entry: it was asked once, and its answer was no contradiction. */
  lemma {:induction false} PassAnswersFor(cfg: Config, saved: seq<Saved>, differs: set<nat>, seg: seq<Event>,
                                          n: nat, i: nat)
    returns (k: nat)
    requires i < n <= |cfg.params| && Readable(cfg, i)
    requires IsPass(cfg, saved, differs, seg, n)
    ensures k + 1 < |seg| && seg[k] == Get(i) && seg[k + 1].Reply?
    ensures i in differs <==> Contradicts(cfg, saved, i, seg[k + 1].answer)
    ensures forall j :: 0 <= j < |seg| && seg[j] == Get(i) ==> j == k
  {
    if !Readable(cfg, n - 1) {
      k := PassAnswersFor(cfg, saved, differs, seg, n - 1, i);
    } else if i == n - 1 {
      k := |seg| - 2;
      PassAsksBelow(cfg, saved, differs, seg[..|seg| - 2], n - 1);
      assert forall j :: 0 <= j < |seg| - 2 ==> seg[j] == seg[..|seg| - 2][j];
    } else {
      k := PassAnswersFor(cfg, saved, differs, seg[..|seg| - 2], n - 1, i);
      assert forall j :: 0 <= j < |seg| - 2 ==> seg[j] == seg[..|seg| - 2][j];
    }
  }

  lemma {:induction false} PassAsksBelow(cfg: Config, saved: seq<Saved>, differs: set<nat>, seg: seq<Event>, n: nat)
    requires n <= |cfg.params|
    requires IsPass(cfg, saved, differs, seg, n)
    ensures forall j :: 0 <= j < |seg| ==>
      (seg[j].Get? && seg[j].index < n && Readable(cfg, seg[j].index)) || seg[j].Reply?
  {
    if n == 0 {
    } else {
      if Readable(cfg, n - 1) {
        PassAsksBelow(cfg, saved, differs, seg[..|seg| - 2], n - 1);
        assert forall j :: 0 <= j < |seg| - 2 ==> seg[j] == seg[..|seg| - 2][j];
      } else {
        PassAsksBelow(cfg, saved, differs, seg, n - 1);
      }
    }
  }

  // ---------------------------------------------------------------------------
  // The log since the last reset

  function SinceReset(log: seq<Event>): (seg: seq<Event>)
  {
    if log == [] || log[|log| - 1].HwReset? then [] else SinceReset(log[..|log| - 1]) + [log[|log| - 1]]
  }

  lemma SinceResetOne(log: seq<Event>, ev: Event)
    ensures SinceReset(log + [ev]) == if ev.HwReset? then [] else SinceReset(log) + [ev]
  {
    assert (log + [ev])[..|log|] == log;
  }

  // ---------------------------------------------------------------------------
  // The invariant

  predicate Passes(o: Outcome) { o.Written? || o.WrittenWithDifferences? || o.AlreadyProvisioned? }

  function SavedSoFar(e: Engine): (saved: seq<Saved>) { if e.verifying then e.accepted else [] }

  function DiffersSoFar(e: Engine): (d: set<nat>) { if e.verifying then {} else e.differs }

  /** What a pass result rests on. */
  ghost predicate Evidence(cfg: Config, e: Engine, log: seq<Event>, o: Outcome)
  {
    && (o.Written? ==> HwReset in log && e.accepted == [] && CleanPass(cfg, [], SinceReset(log)))
    && (o.WrittenWithDifferences? ==>
          HwReset in log && e.accepted != [] && CleanPass(cfg, e.accepted, SinceReset(log)))
    && (o.AlreadyProvisioned? ==> CleanPass(cfg, [], log))
  }

  /** The reading passes so far, as far as they are still evidence. */
  ghost predicate PassSoFar(cfg: Config, e: Engine, log: seq<Event>)
    requires InRange(cfg, e)
  {
    && (e.verifying ==> HwReset in log && !e.abortRequested)
    && match e.phase
       case Audit => e.abortRequested || Reading(cfg, e, log)
       case Bringup | Open | Reset => !e.active && (e.abortRequested || Fresh(e, log))
       case Close => !e.active && Evidence(cfg, e, log, e.pending) && (e.pending.Running? ==> Settled(e))
       case Done => !e.active && Evidence(cfg, e, log, e.outcome)
       case Discard => !e.active && !Passes(e.pending)
       case AwaitDecision => Settled(e)
       case Restore | Write | Review | Commit => Settled(e) && e.active
       case Idle => true
  }

  /** The states of the engine that a log is sound evidence for. */
  ghost function Sound(cfg: Config, log: seq<Event>): (states: iset<Engine>)
  {
    iset e | InRange(cfg, e) && PassSoFar(cfg, e, log)
  }

  /** The restore has been decided on, and no verification has begun. */
  predicate Settled(e: Engine) { !e.verifying && !e.abortRequested }

  predicate Midrun(phase: Phase)
  {
    phase.Restore? || phase.Write? || phase.Review? || phase.Commit?
  }

  /** No read has been made yet in this pass. */
  ghost predicate Fresh(e: Engine, log: seq<Event>)
  {
    if e.verifying then SinceReset(log) == [] else log == [] && e.differs == {}
  }

  /** A read of entry `index` is outstanding, and everything before it was read in order. */
  ghost predicate Reading(cfg: Config, e: Engine, log: seq<Event>)
    requires InRange(cfg, e)
  {
    var seg := if e.verifying then SinceReset(log) else log;
    && e.active
    && seg != [] && seg[|seg| - 1] == Get(e.index) && Readable(cfg, e.index)
    && IsPass(cfg, SavedSoFar(e), DiffersSoFar(e), seg[..|seg| - 1], e.index)
    && (forall i :: i in DiffersSoFar(e) ==> i < e.index && Readable(cfg, i))
    && (e.mismatches == 0 <==> DiffersSoFar(e) == {})
  }

  /** Entry `from` is next, everything before it was read in order, and nothing is outstanding. */
  ghost predicate Between(cfg: Config, e: Engine, log: seq<Event>, from: nat)
    requires from <= |cfg.params|
  {
    var seg := if e.verifying then SinceReset(log) else log;
    && IsPass(cfg, SavedSoFar(e), DiffersSoFar(e), seg, from)
    && (forall i :: i in DiffersSoFar(e) ==> i < from && Readable(cfg, i))
    && (e.mismatches == 0 <==> DiffersSoFar(e) == {})
  }

  /** Appending a step keeps the invariant. */
  ghost predicate Keeps(cfg: Config, log: seq<Event>, s: Step)
  {
    s.engine in Sound(cfg, log + s.events)
  }

  lemma EndingIsSound(cfg: Config, e: Engine, log: seq<Event>)
    requires InRange(cfg, e) && !e.active
    requires (e.phase.Close? && !e.pending.Running? && !Passes(e.pending)) || (e.phase.Done? && !Passes(e.outcome))
    requires e.verifying ==> HwReset in log && !e.abortRequested
    ensures e in Sound(cfg, log)
  {
  }

  /** An ending that claims nothing needs no evidence. */
  lemma CloseKeeps(cfg: Config, e: Engine, w: World, o: Outcome, log: seq<Event>)
    requires InRange(cfg, e) && !o.Running? && !Passes(o)
    requires e.verifying ==> HwReset in log && !e.abortRequested
    ensures Keeps(cfg, log, CloseSession(e, w, o))
  {
    var s := CloseSession(e, w, o);
    EndingIsSound(cfg, s.engine, log + s.events);
  }

  lemma ClaimKeeps(cfg: Config, e: Engine, w: World, o: Outcome, log: seq<Event>)
    requires InRange(cfg, e) && Passes(o) && !e.abortRequested
    requires e.verifying ==> HwReset in log
    requires if e.verifying then o == (if e.accepted == [] then Written else WrittenWithDifferences)
             else o.AlreadyProvisioned?
    requires IsPass(cfg, SavedSoFar(e), {}, if e.verifying then SinceReset(log) else log, |cfg.params|)
    ensures Keeps(cfg, log, CloseSession(e, w, o))
  {
    assert log + [] == log;
    ClaimAfterExit(cfg, e, o, log);
    var s := CloseSession(e, w, o);
    ClaimIsSound(cfg, e, s.engine, o, log + s.events);
  }

  lemma ClaimIsSound(cfg: Config, e: Engine, r: Engine, o: Outcome, log: seq<Event>)
    requires InRange(cfg, r) && !r.active && Evidence(cfg, e, log, o) && !o.Running?
    requires r.accepted == e.accepted && r.verifying == e.verifying && r.abortRequested == e.abortRequested
    requires !e.abortRequested && (e.verifying ==> HwReset in log)
    requires (r.phase.Close? && r.pending == o) || (r.phase.Done? && r.outcome == o)
    ensures r in Sound(cfg, log)
  {
  }

  lemma ClaimAfterExit(cfg: Config, e: Engine, o: Outcome, log: seq<Event>)
    requires Passes(o) && (e.verifying ==> HwReset in log)
    requires if e.verifying then o == (if e.accepted == [] then Written else WrittenWithDifferences)
             else o.AlreadyProvisioned?
    requires IsPass(cfg, SavedSoFar(e), {}, if e.verifying then SinceReset(log) else log, |cfg.params|)
    ensures Evidence(cfg, e, log, o) && Evidence(cfg, e, log + [Exit], o)
  {
    SinceResetOne(log, Exit);
    var seg := if e.verifying then SinceReset(log) else log;
    assert (seg + [Exit])[..|seg|] == seg;
  }

  lemma ReadKeeps(cfg: Config, e: Engine, w: World, from: nat, log: seq<Event>)
    requires InRange(cfg, e) && from <= |cfg.params|
    requires e.phase.Audit? && !e.abortRequested && (e.verifying ==> HwReset in log)
    requires Between(cfg, e, log, from)
    ensures StartNextRead(cfg, e, w, from).Some? ==> Keeps(cfg, log, StartNextRead(cfg, e, w, from).value)
    ensures StartNextRead(cfg, e, w, from).None? ==> Between(cfg, e, log, |cfg.params|)
  {
    var i := NextReadable(cfg, from);
    var seg := if e.verifying then SinceReset(log) else log;
    PassSkipsUnreadable(cfg, SavedSoFar(e), DiffersSoFar(e), seg, from, i);
    if i < |cfg.params| {
      if w.submits {
        OneReadKeeps(cfg, e, i, log);
      } else {
        CloseKeeps(cfg, e, w, if e.verifying then FailVerify else FailAudit, log);
      }
    }
  }

  /** The next read is sent. */
  lemma OneReadKeeps(cfg: Config, e: Engine, i: nat, log: seq<Event>)
    requires i < |cfg.params| && Readable(cfg, i) && e.phase.Audit? && !e.abortRequested
    requires (e.verifying ==> HwReset in log) && Between(cfg, e, log, i)
    ensures Keeps(cfg, log, Step(e.(index := i, active := true), [Get(i)]))
  {
    OneMoreRead(cfg, e, i, log);
    ReadingIsSound(cfg, e.(index := i, active := true), log + [Get(i)]);
  }

  lemma OneMoreRead(cfg: Config, e: Engine, i: nat, log: seq<Event>)
    requires i < |cfg.params| && Readable(cfg, i) && Between(cfg, e, log, i)
    ensures Reading(cfg, e.(index := i, active := true), log + [Get(i)])
  {
    var seg := if e.verifying then SinceReset(log) else log;
    SinceResetOne(log, Get(i));
    assert (seg + [Get(i)])[..|seg|] == seg;
  }

  lemma ReadingIsSound(cfg: Config, e: Engine, log: seq<Event>)
    requires InRange(cfg, e) && e.phase.Audit? && !e.abortRequested && (e.verifying ==> HwReset in log)
    requires Reading(cfg, e, log)
    ensures e in Sound(cfg, log)
  {
  }

  lemma ReadResultKeeps(cfg: Config, e: Engine, w: World, a: Answer, log: seq<Event>)
    requires InRange(cfg, e) && PassSoFar(cfg, e, log) && e.phase.Audit?
    ensures Keeps(cfg, log + [Reply(a)], HandleReadResult(cfg, e.(active := false), w, a))
  {
    var e0 := e.(active := false);
    var e1 := Compared(cfg, e0, a);
    var log1 := log + [Reply(a)];
    if Unexpected(cfg, e0, a) && e.verifying {
      CloseKeeps(cfg, e1, w, FailVerify, log1);
    } else if e.abortRequested {
      CloseKeeps(cfg, e1, w, Aborted, log1);
    } else {
      ComparedIsBetween(cfg, e, a, log);
      ReadOnKeeps(cfg, e1, w, log1);
    }
  }

  lemma AfterKeeps(cfg: Config, log: seq<Event>, before: seq<Event>, s: Step)
    requires Keeps(cfg, log + before, s)
    ensures Keeps(cfg, log, After(before, s))
  {
    assert log + (before + s.events) == log + before + s.events;
  }

  lemma ComparedIsBetween(cfg: Config, e: Engine, a: Answer, log: seq<Event>)
    requires InRange(cfg, e) && PassSoFar(cfg, e, log) && e.phase.Audit? && !e.abortRequested
    requires Unexpected(cfg, e, a) ==> !e.verifying
    ensures Between(cfg, Compared(cfg, e.(active := false), a), log + [Reply(a)], e.index + 1)
  {
    SinceResetOne(log, Reply(a));
    var seg := if e.verifying then SinceReset(log) else log;
    var seg1 := seg + [Reply(a)];
    assert seg1[..|seg1| - 2] == seg[..|seg| - 1];
    if Unexpected(cfg, e, a) {
      PassIgnoresLater(cfg, SavedSoFar(e), DiffersSoFar(e), e.index, seg[..|seg| - 1], e.index);
    }
  }

  lemma ReadOnKeeps(cfg: Config, e: Engine, w: World, log: seq<Event>)
    requires InRange(cfg, e) && e.phase.Audit? && !e.abortRequested && (e.verifying ==> HwReset in log)
    requires Between(cfg, e, log, e.index + 1)
    ensures Keeps(cfg, log, ReadOn(cfg, e, w))
  {
    ReadKeeps(cfg, e, w, e.index + 1, log);
    if StartNextRead(cfg, e, w, e.index + 1).None? {
      PassCompleteKeeps(cfg, e, w, log);
    }
  }

  lemma PassCompleteKeeps(cfg: Config, e: Engine, w: World, log: seq<Event>)
    requires InRange(cfg, e) && !e.abortRequested && (e.verifying ==> HwReset in log)
    requires Between(cfg, e, log, |cfg.params|)
    ensures Keeps(cfg, log, PassComplete(e, w, cfg))
  {
    if e.verifying {
      ClaimKeeps(cfg, e, w, if e.accepted != [] then WrittenWithDifferences else Written, log);
    } else if e.mismatches == 0 {
      ClaimKeeps(cfg, e, w, AlreadyProvisioned, log);
    } else {
      RestoreClaimsNothing(cfg, e, w, false);
      var s := StartRestore(cfg, e, w, false);
      UnclaimingIsSound(cfg, s.engine, log + s.events);
    }
  }

  /** Between the restore and the commit nothing is claimed, whatever the log. */
  ghost predicate ClaimsNothing(cfg: Config, s: Step)
  {
    s.engine in Unclaiming(cfg)
  }

  /** States that are sound for every log. */
  ghost function Unclaiming(cfg: Config): (states: iset<Engine>)
  {
    iset e | InRange(cfg, e) && Settled(e) && Quiet(e)
  }

  predicate Quiet(e: Engine)
  {
    match e.phase
    case Restore | Write | Review | Commit => e.active
    case AwaitDecision => true
    case Close | Discard => !e.active && !Passes(e.pending)
    case Done => !e.active && !Passes(e.outcome)
    case _ => false
  }

  lemma UnclaimingIsSound(cfg: Config, e: Engine, log: seq<Event>)
    requires e in Unclaiming(cfg)
    ensures e in Sound(cfg, log)
  {
  }

  lemma DiscardClaimsNothing(cfg: Config, e: Engine, w: World, o: Outcome)
    requires InRange(cfg, e) && Settled(e) && !Passes(o)
    ensures ClaimsNothing(cfg, StartDiscard(e, w, o))
  {
  }

  lemma CloseClaimsNothing(cfg: Config, e: Engine, w: World, o: Outcome)
    requires InRange(cfg, e) && Settled(e) && !Passes(o)
    ensures ClaimsNothing(cfg, CloseSession(e, w, o))
  {
  }

  lemma ReviewClaimsNothing(cfg: Config, e: Engine, w: World, from: nat)
    requires InRange(cfg, e) && Settled(e) && e.phase.Review? && from <= |cfg.params|
    ensures ClaimsNothing(cfg, ReviewFrom(cfg, e, w, from))
  {
    DiscardClaimsNothing(cfg, e, w, FailReview);
  }

  lemma WriteClaimsNothing(cfg: Config, e: Engine, w: World, from: nat)
    requires InRange(cfg, e) && Settled(e) && e.phase.Write? && from <= |cfg.params|
    ensures ClaimsNothing(cfg, WriteFrom(cfg, e, w, from))
  {
    CloseClaimsNothing(cfg, e, w, FailWrite);
    CloseClaimsNothing(cfg, e, w, FailCommit);
    ReviewClaimsNothing(cfg, e.(reviewMismatches := 0, overflow := false, accepted := [], phase := Review), w, 0);
  }

  lemma RestoreClaimsNothing(cfg: Config, e: Engine, w: World, fallback: bool)
    requires InRange(cfg, e) && Settled(e)
    ensures ClaimsNothing(cfg, StartRestore(cfg, e, w, fallback))
  {
    CloseClaimsNothing(cfg, e, w, FailRestore);
  }

  lemma RestoreResultClaimsNothing(cfg: Config, e: Engine, w: World, a: Answer)
    requires InRange(cfg, e) && Settled(e)
    ensures ClaimsNothing(cfg, HandleRestoreResult(cfg, e, w, a))
  {
    if a.ok {
      WriteClaimsNothing(cfg, e.(phase := Write), w, 0);
    } else if cfg.factoryRestore && !e.fellBack {
      RestoreClaimsNothing(cfg, e.(fellBack := true), w, true);
    } else {
      CloseClaimsNothing(cfg, e, w, FailRestore);
    }
  }

  lemma WriteResultClaimsNothing(cfg: Config, e: Engine, w: World, a: Answer)
    requires InRange(cfg, e) && Settled(e) && e.phase.Write?
    ensures ClaimsNothing(cfg, HandleWriteResult(cfg, e, w, a))
  {
    if a.ok {
      WriteClaimsNothing(cfg, e, w, e.index + 1);
    } else {
      CloseClaimsNothing(cfg, e, w, FailWrite);
    }
  }

  lemma ReviewResultClaimsNothing(cfg: Config, e: Engine, w: World, a: Answer)
    requires InRange(cfg, e) && Settled(e) && e.phase.Review?
    ensures ClaimsNothing(cfg, HandleReviewResult(cfg, e, w, a))
  {
    ReviewClaimsNothing(cfg, Reviewed(cfg, e, a).engine, w, e.index + 1);
  }

  lemma MidrunClaimsNothing(cfg: Config, e: Engine, w: World, a: Answer)
    requires InRange(cfg, e) && Midrun(e.phase) && Settled(e)
    ensures ClaimsNothing(cfg, ProcessAnswer(cfg, e, w, a))
  {
    match e.phase
    case Restore => RestoreResultClaimsNothing(cfg, e, w, a);
    case Write => WriteResultClaimsNothing(cfg, e, w, a);
    case Review => ReviewResultClaimsNothing(cfg, e, w, a);
    case Commit => CloseClaimsNothing(cfg, e, w, if a.ok then Running else FailCommit);
  }

  lemma DecisionClaimsNothing(cfg: Config, e: Engine, w: World)
    requires InRange(cfg, e) && e.phase.AwaitDecision? && Settled(e)
    ensures ClaimsNothing(cfg, ProcessDecision(e, w))
  {
    DiscardClaimsNothing(cfg, e, w, Declined);
    CloseClaimsNothing(cfg, e, w, FailCommit);
  }

  lemma OpenKeeps(cfg: Config, e: Engine, w: World, log: seq<Event>)
    requires InRange(cfg, e) && PassSoFar(cfg, e, log) && e.phase.Open? && !e.active
    ensures Keeps(cfg, log, ProcessOpen(cfg, e, w))
  {
    assert log + [] == log;
    if w.opening.Opened? {
      if e.abortRequested {
        CloseKeeps(cfg, e, w, Aborted, log);
      } else {
        var e1 := e.(mismatches := 0, phase := Audit);
        ReadKeeps(cfg, e1, w, 0, log);
        CloseKeeps(cfg, e1, w, FailAudit, log);
      }
    }
  }

  lemma CloseWaitKeeps(cfg: Config, e: Engine, w: World, log: seq<Event>)
    requires InRange(cfg, e) && PassSoFar(cfg, e, log) && e.phase.Close?
    ensures Keeps(cfg, log, ProcessClose(e, w))
  {
    SinceResetOne(log, HwReset);
    assert log + [] == log;
  }

  lemma BringupKeeps(cfg: Config, e: Engine, w: World, log: seq<Event>)
    requires InRange(cfg, e) && PassSoFar(cfg, e, log) && e.phase.Bringup?
    ensures Keeps(cfg, log, ProcessBringup(e, w, cfg))
  {
    assert log + [] == log;
  }

  lemma DiscardWaitKeeps(cfg: Config, e: Engine, w: World, log: seq<Event>)
    requires InRange(cfg, e) && PassSoFar(cfg, e, log) && e.phase.Discard?
    ensures Keeps(cfg, log, ProcessDiscard(e, w))
  {
    assert log + [] == log;
  }

  lemma IdleKeeps(cfg: Config, e: Engine, w: World, log: seq<Event>)
    requires InRange(cfg, e) && PassSoFar(cfg, e, log) && !e.active
    ensures Keeps(cfg, log, Process(cfg, e, w))
  {
    assert log + [] == log;
    match e.phase
    case Bringup => BringupKeeps(cfg, e, w, log);
    case Open => OpenKeeps(cfg, e, w, log);
    case Close => CloseWaitKeeps(cfg, e, w, log);
    case Discard => DiscardWaitKeeps(cfg, e, w, log);
    case AwaitDecision =>
      DecisionClaimsNothing(cfg, e, w);
      UnclaimingIsSound(cfg, ProcessDecision(e, w).engine, log + ProcessDecision(e, w).events);
    case _ =>
  }

  lemma AnswerKeeps(cfg: Config, e: Engine, w: World, a: Answer, log: seq<Event>)
    requires InRange(cfg, e) && PassSoFar(cfg, e, log) && e.active
    ensures Keeps(cfg, log, After([Reply(a)], ProcessAnswer(cfg, e.(active := false), w, a)))
  {
    var e0 := e.(active := false);
    if e.phase.Audit? {
      ReadResultKeeps(cfg, e, w, a, log);
      AfterKeeps(cfg, log, [Reply(a)], HandleReadResult(cfg, e0, w, a));
    } else if Midrun(e.phase) {
      MidrunClaimsNothing(cfg, e0, w, a);
      var s := ProcessAnswer(cfg, e0, w, a);
      UnclaimingIsSound(cfg, s.engine, log + ([Reply(a)] + s.events));
    }
  }

  lemma HostKeeps(cfg: Config, e: Engine, save: bool, log: seq<Event>)
    requires InRange(cfg, e) && PassSoFar(cfg, e, log)
    ensures Keeps(cfg, log, Decide(e, save).0)
    ensures Keeps(cfg, log, Abort(e).0)
  {
    assert log + [] == log;
  }

  lemma ReactKeeps(cfg: Config, e: Engine, input: Input, log: seq<Event>)
    requires InRange(cfg, e) && PassSoFar(cfg, e, log)
    ensures Keeps(cfg, log, React(cfg, e, input))
  {
    assert log + [] == log;
    match input
    case Pass(w) =>
      if !e.active {
        IdleKeeps(cfg, e, w, log);
      } else if w.answer.Some? {
        AnswerKeeps(cfg, e, w, w.answer.value, log);
      }
    case AskAbort => HostKeeps(cfg, e, false, log);
    case AskDecide(save) => HostKeeps(cfg, e, save, log);
  }

  /** The invariant holds throughout every run, under every world. */
  lemma {:induction false} RunsKeepEvidence(cfg: Config, left: Engine, review: bool, inputs: seq<Input>)
    requires cfg.params != []
    ensures var s := RunOf(cfg, Start(left, review), inputs); PassSoFar(cfg, s.engine, s.events)
  {
    if inputs == [] {
    } else {
      var init := inputs[..|inputs| - 1];
      RunsKeepEvidence(cfg, left, review, init);
      var before := RunOf(cfg, Start(left, review), init);
      ReactKeeps(cfg, before.engine, inputs[|inputs| - 1], before.events);
    }
  }

  lemma RunIsSound(cfg: Config, review: bool, run: Step)
    requires IsRun(cfg, review, run)
    ensures run.engine in Sound(cfg, run.events)
  {
    var left, inputs :| run == RunOf(cfg, Start(left, review), inputs);
    RunsKeepEvidence(cfg, left, review, inputs);
  }

  /**
   A run that ends well has read back the whole configuration: the verification that follows the
   reset asked for every readable entry once, in table order, and every answer it got equals the
   configured value, or the saved one where the host accepted a difference.
   */
  lemma PassMeansReadBack(cfg: Config, review: bool, run: Step)
    requires IsRun(cfg, review, run) && run.engine.phase.Done?
    ensures Evidence(cfg, run.engine, run.events, run.engine.outcome)
  {
    RunIsSound(cfg, review, run);
  }

  lemma CleanPassOnlyReads(cfg: Config, log: seq<Event>)
    requires CleanPass(cfg, [], log)
    ensures forall ev :: ev in log ==> ev.Get? || ev.Reply? || ev.Exit?
  {
    if IsPass(cfg, [], {}, log, |cfg.params|) {
      PassAsksBelow(cfg, [], {}, log, |cfg.params|);
    } else {
      var init := log[..|log| - 1];
      PassAsksBelow(cfg, [], {}, init, |cfg.params|);
      assert log == init + [Exit];
    }
  }

  /** A run that found nothing to do is one clean pass: it sent nothing but reads. */
  lemma AlreadyProvisionedOnlyReads(cfg: Config, review: bool, run: Step)
    requires IsRun(cfg, review, run) && run.engine.phase.Done? && run.engine.outcome.AlreadyProvisioned?
    ensures CleanPass(cfg, [], run.events)
    ensures forall ev :: ev in run.events ==> ev.Get? || ev.Reply? || ev.Exit?
  {
    PassMeansReadBack(cfg, review, run);
    CleanPassOnlyReads(cfg, run.events);
  }
}

/**
 A provisioning run cannot go on for ever by itself.

 Every pass either waits for the world, keeps the session open while the host thinks, or moves
 the run strictly closer to its end. The loop of restore, write, reset and verify is therefore
 taken at most once, and the number of moves has a bound that depends only on the table.
 */
module ProvisionTermination {
  import opened Ticks
  import opened ProvisionEngine
  import opened ProvisionTrace

  /** How far a phase is from the end, in rounds of the table. */
  function Distance(phase: Phase, round: nat): (d: nat)
    ensures d <= 13 * round
  {
    match phase
    case Reset => 13 * round
    case Bringup => 12 * round
    case Open => 11 * round
    case Audit => 10 * round
    case Restore => 9 * round
    case Write => 8 * round
    case Review => 7 * round
    case AwaitDecision => 6 * round
    case Commit => 5 * round
    case Close => 4 * round
    case Discard => 3 * round
    case Done | Idle => 0
  }

  /** Work left inside a phase: entries of the table, or the fallback restore. */
  function Remaining(cfg: Config, e: Engine): (r: nat)
    ensures r <= |cfg.params| + 1
  {
    match e.phase
    case Audit | Write | Review => if e.index <= |cfg.params| then |cfg.params| - e.index else 0
    case Restore => if e.fellBack then 0 else 1
    case _ => 0
  }

  function Round(cfg: Config): (r: nat) { |cfg.params| + 2 }

  function Measure(cfg: Config, e: Engine): (m: nat)
  {
    (if e.verifying then 0 else 14 * Round(cfg)) + Distance(e.phase, Round(cfg)) + Remaining(cfg, e)
  }

  /** The pass has nothing to do until the world moves. */
  predicate Waits(e: Engine, w: World)
  {
    if e.phase.Idle? || e.phase.Done? then true
    else if e.active then w.answer.None?
    else match e.phase
      case Bringup => !(e.abortRequested && !e.verifying) && !w.failed && !w.ready
      case Open => w.opening.InProgress?
      case Close => w.sessionOpen && !Reached(w.now, e.closeDeadline)
      case Discard => !w.failed && !w.ready
      case AwaitDecision =>
        w.sessionOpen && e.decision.Undecided? && !(Reached(w.now, e.keepaliveTick) && w.submits)
      case _ => false
  }

  /** The pass sends or finishes the read that keeps an open session open. */
  predicate KeepsAlive(e: Engine, w: World)
  {
    e.phase.AwaitDecision?
    && if e.active then w.answer.Some?
       else w.sessionOpen && e.decision.Undecided? && Reached(w.now, e.keepaliveTick) && w.submits
  }

  /** The part of the discipline the measure rests on: one reset for verification, no idle requests. */
  predicate Steady(e: Engine)
  {
    && (e.phase.Close? && e.pending.Running? ==> !e.verifying)
    && (if Waiting(e.phase) then e.active else e.active ==> e.phase.AwaitDecision?)
  }

  predicate Drops(cfg: Config, e: Engine, s: Step) { Measure(cfg, s.engine) < Measure(cfg, e) }

  lemma CloseDrops(cfg: Config, e: Engine, from: Engine, w: World, o: Outcome)
    requires Distance(from.phase, Round(cfg)) >= 5 * Round(cfg) && from.verifying == e.verifying
    ensures Drops(cfg, from, CloseSession(e, w, o))
  {
  }

  lemma DiscardDrops(cfg: Config, e: Engine, from: Engine, w: World, o: Outcome)
    requires Distance(from.phase, Round(cfg)) >= 5 * Round(cfg) && from.verifying == e.verifying
    ensures Drops(cfg, from, StartDiscard(e, w, o))
  {
  }

  lemma CommitDrops(cfg: Config, e: Engine, from: Engine, w: World)
    requires Distance(from.phase, Round(cfg)) >= 6 * Round(cfg) && from.verifying == e.verifying
    ensures Drops(cfg, from, StartCommit(e, w))
  {
    CloseDrops(cfg, e, from, w, FailCommit);
  }

  lemma RestoreDrops(cfg: Config, e: Engine, from: Engine, w: World, fallback: bool)
    requires from.verifying == e.verifying
    requires from.phase.Audit? || (from.phase.Restore? && !from.fellBack && e.fellBack)
    ensures Drops(cfg, from, StartRestore(cfg, e, w, fallback))
  {
    CloseDrops(cfg, e, from, w, FailRestore);
  }

  lemma EnterDrops(cfg: Config, e: Engine, from: Engine, w: World)
    requires Distance(from.phase, Round(cfg)) >= 7 * Round(cfg) && from.verifying == e.verifying
    ensures Drops(cfg, from, EnterDecision(e, w))
  {
    if e.overflow {
      DiscardDrops(cfg, e, from, w, FailReview);
    }
  }

  lemma ReviewDrops(cfg: Config, e: Engine, from: Engine, w: World, at: nat)
    requires at <= |cfg.params| && e.phase.Review? && from.verifying == e.verifying
    requires from.phase.Restore? || from.phase.Write? || (from.phase.Review? && from.index < at)
    ensures Drops(cfg, from, ReviewFrom(cfg, e, w, at))
  {
    var i := NextReadable(cfg, at);
    if i == |cfg.params| {
      EnterDrops(cfg, e, from, w);
    } else if !w.submits {
      DiscardDrops(cfg, e, from, w, FailReview);
    } else {
      assert Drops(cfg, from, Step(e.(index := i, active := true), UnreadableReports(at, i) + [Get(i)]));
    }
  }

  lemma WriteDrops(cfg: Config, e: Engine, from: Engine, w: World, at: nat)
    requires at <= |cfg.params| && e.phase.Write? && from.verifying == e.verifying
    requires from.phase.Restore? || (from.phase.Write? && from.index < at)
    ensures Drops(cfg, from, WriteFrom(cfg, e, w, at))
  {
    if StartNextWrite(cfg, e, w, at).Some? {
      NextWriteDrops(cfg, e, from, w, at);
    } else if e.review {
      ReviewDrops(cfg, e.(reviewMismatches := 0, overflow := false, accepted := [], phase := Review), from, w, 0);
    } else {
      CommitDrops(cfg, e, from, w);
    }
  }

  lemma NextWriteDrops(cfg: Config, e: Engine, from: Engine, w: World, at: nat)
    requires at <= |cfg.params| && e.phase.Write? && from.verifying == e.verifying
    requires from.phase.Restore? || (from.phase.Write? && from.index < at)
    ensures var s := StartNextWrite(cfg, e, w, at); s.Some? ==> Drops(cfg, from, s.value)
  {
    CloseDrops(cfg, e, from, w, FailWrite);
  }

  lemma ReadDrops(cfg: Config, e: Engine, from: Engine, w: World, at: nat)
    requires at <= |cfg.params| && e.phase.Audit? && from.verifying == e.verifying
    requires from.phase.Open? || (from.phase.Audit? && from.index < at)
    ensures StartNextRead(cfg, e, w, at).Some? ==> Drops(cfg, from, StartNextRead(cfg, e, w, at).value)
  {
    CloseDrops(cfg, e, from, w, if e.verifying then FailVerify else FailAudit);
  }

  lemma PassCompleteDrops(cfg: Config, e: Engine, from: Engine, w: World)
    requires from.phase.Audit? && from.verifying == e.verifying
    ensures Drops(cfg, from, PassComplete(e, w, cfg))
  {
    CloseDrops(cfg, e, from, w, if e.accepted != [] then WrittenWithDifferences else Written);
    CloseDrops(cfg, e, from, w, AlreadyProvisioned);
    RestoreDrops(cfg, e, from, w, false);
  }

  lemma ReadResultDrops(cfg: Config, e: Engine, from: Engine, w: World, a: Answer)
    requires InRange(cfg, e) && e.phase.Audit? && from == e.(active := true)
    ensures Drops(cfg, from, HandleReadResult(cfg, e, w, a))
  {
    var e1 := Compared(cfg, e, a);
    CloseDrops(cfg, e1, from, w, FailVerify);
    ReadOnDrops(cfg, e1, from, w);
  }

  lemma ReadOnDrops(cfg: Config, e: Engine, from: Engine, w: World)
    requires InRange(cfg, e) && e.phase.Audit? && from.phase.Audit?
    requires from.verifying == e.verifying && from.index == e.index
    ensures Drops(cfg, from, ReadOn(cfg, e, w))
  {
    CloseDrops(cfg, e, from, w, Aborted);
    if StartNextRead(cfg, e, w, e.index + 1).Some? {
      ReadDrops(cfg, e, from, w, e.index + 1);
    } else {
      PassCompleteDrops(cfg, e, from, w);
    }
  }

  lemma RestoreResultDrops(cfg: Config, e: Engine, from: Engine, w: World, a: Answer)
    requires e.phase.Restore? && from == e.(active := true)
    ensures Drops(cfg, from, HandleRestoreResult(cfg, e, w, a))
  {
    if a.ok {
      WriteDrops(cfg, e.(phase := Write), from, w, 0);
    } else if cfg.factoryRestore && !e.fellBack {
      RestoreDrops(cfg, e.(fellBack := true), from, w, true);
    } else {
      CloseDrops(cfg, e, from, w, FailRestore);
    }
  }

  lemma WriteResultDrops(cfg: Config, e: Engine, from: Engine, w: World, a: Answer)
    requires InRange(cfg, e) && e.phase.Write? && from == e.(active := true)
    ensures Drops(cfg, from, HandleWriteResult(cfg, e, w, a))
  {
    WriteResultIs(cfg, e, w, a);
    if a.ok {
      WriteDrops(cfg, e, from, w, e.index + 1);
    } else {
      CloseDrops(cfg, e, from, w, FailWrite);
    }
  }

  lemma ReviewResultDrops(cfg: Config, e: Engine, from: Engine, w: World, a: Answer)
    requires InRange(cfg, e) && e.phase.Review? && from == e.(active := true)
    ensures Drops(cfg, from, HandleReviewResult(cfg, e, w, a))
  {
    ReviewResultIs(cfg, e, w, a);
    ReviewDrops(cfg, Reviewed(cfg, e, a).engine, from, w, e.index + 1);
  }

  lemma AnswerDrops(cfg: Config, e: Engine, w: World, a: Answer)
    requires InRange(cfg, e) && Waiting(e.phase) && e.active
    ensures Drops(cfg, e, ProcessAnswer(cfg, e.(active := false), w, a))
  {
    var e0 := e.(active := false);
    match e.phase
    case Audit => ReadResultDrops(cfg, e0, e, w, a);
    case Restore => RestoreResultDrops(cfg, e0, e, w, a);
    case Write => WriteResultDrops(cfg, e0, e, w, a);
    case Review => ReviewResultDrops(cfg, e0, e, w, a);
    case Commit => CloseDrops(cfg, e0, e, w, if a.ok then Running else FailCommit);
  }

  lemma StartReadPassDrops(cfg: Config, e: Engine, w: World)
    requires e.phase.Open?
    ensures Drops(cfg, e, StartReadPass(cfg, e, w))
  {
    var e1 := e.(mismatches := 0, phase := Audit);
    CloseDrops(cfg, e1, e, w, FailAudit);
    ReadDrops(cfg, e1, e, w, 0);
  }

  lemma OpenDrops(cfg: Config, e: Engine, w: World)
    requires e.phase.Open? && !w.opening.InProgress?
    ensures Drops(cfg, e, ProcessOpen(cfg, e, w))
  {
    if w.opening.Opened? {
      CloseDrops(cfg, e, e, w, Aborted);
      StartReadPassDrops(cfg, e, w);
    }
  }

  lemma DecisionDrops(cfg: Config, e: Engine, w: World)
    requires e.phase.AwaitDecision? && (!w.sessionOpen || !e.decision.Undecided?)
    ensures Drops(cfg, e, ProcessDecision(e, w))
  {
    CommitDrops(cfg, e, e, w);
    DiscardDrops(cfg, e, e, w, Declined);
  }

  lemma CloseWaitDrops(cfg: Config, e: Engine, w: World)
    requires e.phase.Close? && Steady(e) && (w.sessionOpen ==> Reached(w.now, e.closeDeadline))
    ensures Drops(cfg, e, ProcessClose(e, w))
  {
  }

  lemma BringupDrops(cfg: Config, e: Engine, w: World)
    requires e.phase.Bringup? && !e.active && !Waits(e, w)
    ensures Drops(cfg, e, ProcessBringup(e, w, cfg))
  {
  }

  lemma DiscardWaitDrops(cfg: Config, e: Engine, w: World)
    requires e.phase.Discard? && !e.active && !Waits(e, w)
    ensures Drops(cfg, e, ProcessDiscard(e, w))
  {
  }

  lemma WaitStays(cfg: Config, e: Engine, w: World)
    requires InRange(cfg, e) && Steady(e) && Waits(e, w)
    ensures Process(cfg, e, w) == Step(e, [])
  {
  }

  lemma KeepAliveStays(cfg: Config, e: Engine, w: World)
    requires InRange(cfg, e) && KeepsAlive(e, w)
    ensures Measure(cfg, Process(cfg, e, w).engine) == Measure(cfg, e)
  {
  }

  lemma IdleDrops(cfg: Config, e: Engine, w: World)
    requires InRange(cfg, e) && Steady(e) && !e.active && !Waits(e, w) && !KeepsAlive(e, w)
    ensures Drops(cfg, e, Process(cfg, e, w))
  {
    match e.phase
    case Open => OpenDrops(cfg, e, w);
    case AwaitDecision => DecisionDrops(cfg, e, w);
    case Close => CloseWaitDrops(cfg, e, w);
    case Bringup => BringupDrops(cfg, e, w);
    case Discard => DiscardWaitDrops(cfg, e, w);
    case _ =>
  }

  /** Every pass waits, keeps the session open, or strictly decreases the measure. */
  lemma PassDecreases(cfg: Config, e: Engine, w: World)
    requires InRange(cfg, e) && Steady(e)
    ensures Waits(e, w) ==> Process(cfg, e, w) == Step(e, [])
    ensures KeepsAlive(e, w) ==> Measure(cfg, Process(cfg, e, w).engine) == Measure(cfg, e)
    ensures !Waits(e, w) && !KeepsAlive(e, w) ==> Drops(cfg, e, Process(cfg, e, w))
  {
    if Waits(e, w) {
      WaitStays(cfg, e, w);
    } else if KeepsAlive(e, w) {
      KeepAliveStays(cfg, e, w);
    } else if e.active {
      AnswerDrops(cfg, e, w, w.answer.value);
    } else {
      IdleDrops(cfg, e, w);
    }
  }

  // ---------------------------------------------------------------------------
  // Whole runs

  /** The input is a pass that moves the run. */
  predicate IsMove(e: Engine, input: Input)
  {
    input.Pass? && !Waits(e, input.world) && !KeepsAlive(e, input.world)
  }

  /** The passes of a run that move it. */
  function Moves(cfg: Config, start: Engine, inputs: seq<Input>): (n: nat)
    requires InRange(cfg, start)
  {
    if inputs == [] then 0
    else
      var init, last := inputs[..|inputs| - 1], inputs[|inputs| - 1];
      Moves(cfg, start, init) + if IsMove(RunOf(cfg, start, init).engine, last) then 1 else 0
  }

  /** Nothing holds the run up: every input moves it until it is done. */
  predicate Prompt(cfg: Config, start: Engine, inputs: seq<Input>)
    requires InRange(cfg, start)
  {
    inputs == []
    || (var init, last := inputs[..|inputs| - 1], inputs[|inputs| - 1];
        var e := RunOf(cfg, start, init).engine;
        Prompt(cfg, start, init) && (e.phase.Done? || IsMove(e, last)))
  }

  lemma LinkedIsSteady(cfg: Config, e: Engine, st: Stage)
    requires Linked(cfg, e, st)
    ensures Steady(e)
  {
  }

  lemma ReactMeasure(cfg: Config, e: Engine, input: Input)
    requires InRange(cfg, e) && Steady(e)
    ensures Measure(cfg, React(cfg, e, input).engine) + (if IsMove(e, input) then 1 else 0) <= Measure(cfg, e)
  {
    if input.Pass? {
      PassDecreases(cfg, e, input.world);
    }
  }

  lemma DoneStaysDone(cfg: Config, e: Engine, input: Input)
    requires InRange(cfg, e) && e.phase.Done? && !e.active
    ensures React(cfg, e, input) == Step(e, [])
  {
  }

  /** Moves spend the measure. */
  lemma {:induction false} MovesSpendMeasure(cfg: Config, left: Engine, review: bool, inputs: seq<Input>)
    requires cfg.params != []
    ensures var start := Start(left, review);
      Moves(cfg, start, inputs) + Measure(cfg, RunOf(cfg, start, inputs).engine) <= Measure(cfg, start)
  {
    if inputs == [] {
    } else {
      var init := inputs[..|inputs| - 1];
      var start := Start(left, review);
      MovesSpendMeasure(cfg, left, review, init);
      RunsAreOrderly(cfg, left, review, init);
      var e := RunOf(cfg, start, init).engine;
      LinkedIsSteady(cfg, e, Steps(review, BEGIN, RunOf(cfg, start, init).events));
      ReactMeasure(cfg, e, inputs[|inputs| - 1]);
    }
  }

  lemma MeasureOfStart(cfg: Config, left: Engine, review: bool)
    ensures Measure(cfg, Start(left, review)) == 26 * (|cfg.params| + 2)
  {
  }

  lemma MeasureAtTheEnd(cfg: Config, e: Engine)
    requires InRange(cfg, e) && Measure(cfg, e) == 0
    ensures e.phase.Done? || e.phase.Idle?
  {
  }

  lemma {:induction false} PromptRunsMove(cfg: Config, left: Engine, review: bool, inputs: seq<Input>)
    requires cfg.params != [] && Prompt(cfg, Start(left, review), inputs)
    ensures var start := Start(left, review);
      RunOf(cfg, start, inputs).engine.phase.Done? || Moves(cfg, start, inputs) == |inputs|
  {
    if inputs == [] {
    } else {
      var init := inputs[..|inputs| - 1];
      var start := Start(left, review);
      PromptRunsMove(cfg, left, review, init);
      var e := RunOf(cfg, start, init).engine;
      if e.phase.Done? {
        RunsAreOrderly(cfg, left, review, init);
        DoneStaysDone(cfg, e, inputs[|inputs| - 1]);
      }
    }
  }

  /**
   Whatever the module, the facade and the host do, a run moves at most 26 times per table entry
   plus a constant; so a run that nothing holds up is done after that many passes.
   */
  lemma RunsAreBounded(cfg: Config, left: Engine, review: bool, inputs: seq<Input>)
    requires cfg.params != []
    ensures Moves(cfg, Start(left, review), inputs) <= 26 * (|cfg.params| + 2)
    ensures Prompt(cfg, Start(left, review), inputs) && |inputs| >= 26 * (|cfg.params| + 2)
        ==> RunOf(cfg, Start(left, review), inputs).engine.phase.Done?
  {
    var end := RunOf(cfg, Start(left, review), inputs);
    MovesSpendMeasure(cfg, left, review, inputs);
    MeasureOfStart(cfg, left, review);
    if Prompt(cfg, Start(left, review), inputs) {
      PromptRunsMove(cfg, left, review, inputs);
    }
    if Measure(cfg, end.engine) == 0 {
      MeasureAtTheEnd(cfg, end.engine);
      RunsAreOrderly(cfg, left, review, inputs);
    }
  }
}

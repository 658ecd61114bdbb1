/**
 What the audit saw, and so what a run will skip.

 In any world, once a run has gone past its audit the log begins with one complete pass over the
 table, and the marked entries are those whose answer contradicted the configuration. Against an
 honest module that answered every read of the audit, they are those the module really deviates on:
 a caller can tell before the run which entries it will leave to the restored defaults.
 */
module ProvisionAudit {
  import opened Ticks
  import opened ProvisionEngine
  import opened ProvisionPass
  import ProvisionWrites

  // ---------------------------------------------------------------------------
  // The log begins with the audit

  /** Past the audit: restoring, writing, reviewing, committing or verifying. */
  predicate PastAudit(e: Engine)
  {
    e.verifying || Midrun(e.phase) || e.phase.AwaitDecision? || (e.phase.Close? && e.pending.Running?)
  }

  /** Results only a verification gives. */
  predicate Verified(o: Outcome) { o.Written? || o.WrittenWithDifferences? || o.FailVerify? }

  /** The log begins with a complete pass in which exactly these entries were contradicted, and some were. */
  ghost predicate Audited(cfg: Config, differs: set<nat>, log: seq<Event>)
  {
    && differs != {} && (exists a: nat :: AuditEnds(cfg, differs, log, a))
    && (forall i :: i in differs ==> i < |cfg.params| && Readable(cfg, i))
  }

  ghost predicate AuditEnds(cfg: Config, differs: set<nat>, log: seq<Event>, a: nat)
  {
    a < |log| && log[a].Run? && IsPass(cfg, [], differs, log[..a], |cfg.params|)
  }

  ghost predicate Known(cfg: Config, e: Engine, log: seq<Event>)
  {
    && (PastAudit(e) ==> Audited(cfg, e.differs, log))
    && (e.phase.Close? && Verified(e.pending) ==> e.verifying)
    && (e.phase.Done? && Verified(e.outcome) ==> e.verifying)
    && (e.phase.Discard? ==> !Verified(e.pending))
  }

  /** The engine states a log says this of. */
  ghost function Knowing(cfg: Config, log: seq<Event>): (states: iset<Engine>) { iset e | Known(cfg, e, log) }

  ghost predicate Keeps(cfg: Config, log: seq<Event>, s: Step) { s.engine in Knowing(cfg, log + s.events) }

  ghost function States(cfg: Config, log: seq<Event>): (states: iset<Engine>)
  {
    iset e | InRange(cfg, e) && PassSoFar(cfg, e, log) && Known(cfg, e, log)
  }

  lemma AuditedGrows(cfg: Config, differs: set<nat>, log: seq<Event>, events: seq<Event>)
    requires Audited(cfg, differs, log)
    ensures Audited(cfg, differs, log + events)
  {
    var a: nat :| AuditEnds(cfg, differs, log, a);
    assert (log + events)[..a] == log[..a];
    assert AuditEnds(cfg, differs, log + events, a);
  }

  /** States that mark nothing more, are not past an audit that was not over, and claim no result too early. */
  ghost function Modest(e: Engine): (states: iset<Engine>)
  {
    iset r: Engine |
      && r.differs == e.differs && (PastAudit(r) ==> PastAudit(e))
      && (r.phase.Close? && Verified(r.pending) ==> r.verifying)
      && (r.phase.Done? && Verified(r.outcome) ==> r.verifying)
      && (r.phase.Discard? ==> !Verified(r.pending))
  }

  lemma StaysKnown(cfg: Config, e: Engine, s: Step, log: seq<Event>)
    requires Known(cfg, e, log) && s.engine in Modest(e)
    ensures Keeps(cfg, log, s)
  {
    if PastAudit(s.engine) {
      AuditedGrows(cfg, e.differs, log, s.events);
    }
  }

  /** The audit is over, and the restore begins. */
  lemma AuditCompletes(cfg: Config, e: Engine, w: World, log: seq<Event>)
    requires InRange(cfg, e) && !e.verifying && e.phase.Audit?
    requires Between(cfg, e, log, |cfg.params|)
    ensures Keeps(cfg, log, PassComplete(e, w, cfg))
  {
    if e.mismatches != 0 && w.submits {
      var restore := Run(RestoreCommand(cfg, false));
      assert (log + [restore])[..|log|] == log;
      assert AuditEnds(cfg, e.differs, log + [restore], |log|);
    }
  }

  lemma VerificationCompletes(cfg: Config, e: Engine, w: World, log: seq<Event>)
    requires InRange(cfg, e) && e.verifying && e.phase.Audit? && Known(cfg, e, log)
    ensures Keeps(cfg, log, PassComplete(e, w, cfg))
  {
    StaysKnown(cfg, e, PassComplete(e, w, cfg), log);
  }

  lemma ReadIsModest(cfg: Config, e: Engine, w: World, from: nat)
    requires InRange(cfg, e) && e.phase.Audit? && from <= |cfg.params|
    ensures var s := StartNextRead(cfg, e, w, from); s.Some? ==> s.value.engine in Modest(e)
  {
    if NextReadable(cfg, from) < |cfg.params| && !w.submits {
      CloseIsModest(e, w, if e.verifying then FailVerify else FailAudit);
    }
  }

  lemma ReadOnKnown(cfg: Config, e: Engine, w: World, log: seq<Event>)
    requires InRange(cfg, e) && e.phase.Audit? && Known(cfg, e, log) && (e.verifying ==> HwReset in log)
    requires !e.abortRequested ==> Between(cfg, e, log, e.index + 1)
    ensures Keeps(cfg, log, ReadOn(cfg, e, w))
  {
    if e.abortRequested && !e.verifying {
      CloseIsModest(e, w, Aborted);
      StaysKnown(cfg, e, CloseSession(e, w, Aborted), log);
    } else if StartNextRead(cfg, e, w, e.index + 1).Some? {
      ReadIsModest(cfg, e, w, e.index + 1);
      StaysKnown(cfg, e, StartNextRead(cfg, e, w, e.index + 1).value, log);
    } else if e.verifying {
      VerificationCompletes(cfg, e, w, log);
    } else {
      ReadKeeps(cfg, e, w, e.index + 1, log);
      AuditCompletes(cfg, e, w, log);
    }
  }

  lemma ReadResultKnown(cfg: Config, e: Engine, w: World, a: Answer, log: seq<Event>)
    requires e in States(cfg, log) && e.phase.Audit?
    ensures Keeps(cfg, log + [Reply(a)], HandleReadResult(cfg, e.(active := false), w, a))
  {
    var e1 := Compared(cfg, e.(active := false), a);
    var log1 := log + [Reply(a)];
    ComparedIsKnown(cfg, e, a, log);
    if Unexpected(cfg, e.(active := false), a) && e.verifying {
      StaysKnown(cfg, e1, CloseSession(e1, w, FailVerify), log1);
    } else {
      if !e.abortRequested {
        ComparedIsBetween(cfg, e, a, log);
      }
      ReadOnKnown(cfg, e1, w, log1);
    }
  }

  lemma ComparedIsKnown(cfg: Config, e: Engine, a: Answer, log: seq<Event>)
    requires e in States(cfg, log) && e.phase.Audit?
    ensures var e1, log1 := Compared(cfg, e.(active := false), a), log + [Reply(a)];
      Known(cfg, e1, log1) && (e.verifying ==> HwReset in log1)
  {
    if e.verifying {
      StaysKnown(cfg, e, Step(Compared(cfg, e.(active := false), a), [Reply(a)]), log);
    }
  }

  lemma MidrunKnown(cfg: Config, e: Engine, w: World, a: Answer, log: seq<Event>)
    requires InRange(cfg, e) && Midrun(e.phase) && Settled(e) && Known(cfg, e, log)
    ensures Keeps(cfg, log, ProcessAnswer(cfg, e, w, a))
  {
    MidrunIsModest(cfg, e, w, a);
    StaysKnown(cfg, e, ProcessAnswer(cfg, e, w, a), log);
  }

  lemma CloseIsModest(e: Engine, w: World, o: Outcome)
    requires Verified(o) ==> e.verifying
    requires o.Running? ==> PastAudit(e)
    ensures CloseSession(e, w, o).engine in Modest(e)
  {
  }

  lemma RestoreIsModest(cfg: Config, e: Engine, w: World, a: Answer)
    requires InRange(cfg, e) && Settled(e) && e.phase.Restore?
    ensures HandleRestoreResult(cfg, e, w, a).engine in Modest(e)
  {
    if a.ok {
      WriteIsModest(cfg, e.(phase := Write), w, 0);
    }
  }

  lemma CommitIsModest(e: Engine, w: World)
    requires PastAudit(e)
    ensures StartCommit(e, w).engine in Modest(e)
  {
    CloseIsModest(e, w, FailCommit);
  }

  lemma DiscardIsModest(e: Engine, w: World, o: Outcome)
    requires (e.phase.AwaitDecision? || e.phase.Review?) && !Verified(o)
    ensures StartDiscard(e, w, o).engine in Modest(e)
  {
  }

  lemma EndIsModest(e: Engine, o: Outcome)
    requires Verified(o) ==> e.verifying
    ensures Finish(e, o) in Modest(e)
  {
  }

  lemma ReviewIsModest(cfg: Config, e: Engine, w: World, from: nat)
    requires InRange(cfg, e) && Settled(e) && e.phase.Review? && from <= |cfg.params|
    ensures ReviewFrom(cfg, e, w, from).engine in Modest(e)
  {
  }

  lemma WriteIsModest(cfg: Config, e: Engine, w: World, from: nat)
    requires InRange(cfg, e) && Settled(e) && e.phase.Write? && from <= |cfg.params|
    ensures WriteFrom(cfg, e, w, from).engine in Modest(e)
  {
    CommitIsModest(e, w);
    CloseIsModest(e, w, FailWrite);
    ReviewIsModest(cfg, e.(reviewMismatches := 0, overflow := false, accepted := [], phase := Review), w, 0);
  }

  lemma WriteResultIsModest(cfg: Config, e: Engine, w: World, a: Answer)
    requires InRange(cfg, e) && Settled(e) && e.phase.Write?
    ensures HandleWriteResult(cfg, e, w, a).engine in Modest(e)
  {
    if a.ok {
      WriteIsModest(cfg, e, w, e.index + 1);
    } else {
      CloseIsModest(e, w, FailWrite);
    }
  }

  lemma ReviewResultIsModest(cfg: Config, e: Engine, w: World, a: Answer)
    requires InRange(cfg, e) && Settled(e) && e.phase.Review?
    ensures HandleReviewResult(cfg, e, w, a).engine in Modest(e)
  {
    var e1, from := Reviewed(cfg, e, a).engine, e.index + 1;
    ReviewIsModest(cfg, e1, w, from);
  }

  lemma MidrunIsModest(cfg: Config, e: Engine, w: World, a: Answer)
    requires InRange(cfg, e) && Midrun(e.phase) && Settled(e)
    ensures ProcessAnswer(cfg, e, w, a).engine in Modest(e)
  {
    match e.phase
    case Restore => RestoreIsModest(cfg, e, w, a);
    case Write => WriteResultIsModest(cfg, e, w, a);
    case Review => ReviewResultIsModest(cfg, e, w, a);
    case Commit => CloseIsModest(e, w, if a.ok then Running else FailCommit);
  }

  lemma AnswerKnown(cfg: Config, e: Engine, w: World, a: Answer, log: seq<Event>)
    requires e in States(cfg, log) && e.active
    ensures Keeps(cfg, log + [Reply(a)], ProcessAnswer(cfg, e.(active := false), w, a))
  {
    var e0 := e.(active := false);
    if e.phase.Audit? {
      ReadResultKnown(cfg, e, w, a, log);
    } else {
      StaysKnown(cfg, e, Step(e0, [Reply(a)]), log);
      if Midrun(e.phase) {
        MidrunKnown(cfg, e0, w, a, log + [Reply(a)]);
      } else {
        StaysKnown(cfg, e0, Step(e0, []), log + [Reply(a)]);
      }
    }
  }

  lemma ReadPassIsModest(cfg: Config, e: Engine, w: World)
    requires InRange(cfg, e) && e.phase.Open?
    ensures StartReadPass(cfg, e, w).engine in Modest(e)
  {
    var e1 := e.(mismatches := 0, phase := Audit);
    CloseIsModest(e1, w, FailAudit);
    ReadIsModest(cfg, e1, w, 0);
    assert StartReadPass(cfg, e, w).engine in Modest(e1);
  }

  lemma OpenIsModest(cfg: Config, e: Engine, w: World)
    requires InRange(cfg, e) && e.phase.Open?
    ensures ProcessOpen(cfg, e, w).engine in Modest(e)
  {
    match w.opening
    case InProgress =>
    case NotOpened =>
    case Opened =>
      if e.abortRequested {
        CloseIsModest(e, w, Aborted);
      } else {
        ReadPassIsModest(cfg, e, w);
      }
  }

  lemma DecisionIsModest(e: Engine, w: World)
    requires e.phase.AwaitDecision?
    ensures ProcessDecision(e, w).engine in Modest(e)
  {
    if !w.sessionOpen {
      EndIsModest(e, FailSession);
    } else {
      match e.decision
      case Save => CommitIsModest(e, w);
      case Drop => DiscardIsModest(e, w, Declined);
      case Undecided => assert ProcessDecision(e, w).engine.phase.AwaitDecision?;
    }
  }

  lemma BringupIsModest(cfg: Config, e: Engine, w: World)
    requires e.phase.Bringup?
    ensures ProcessBringup(e, w, cfg).engine in Modest(e)
  {
    EndIsModest(e, Aborted);
    EndIsModest(e, FailBringup);
    EndIsModest(e, FailReset);
    EndIsModest(e, FailSession);
  }

  lemma DiscardWaitIsModest(cfg: Config, e: Engine, w: World, log: seq<Event>)
    requires e.phase.Discard? && Known(cfg, e, log)
    ensures ProcessDiscard(e, w).engine in Modest(e)
  {
    EndIsModest(e, FailReset);
    EndIsModest(e, e.pending);
  }

  lemma CloseWaitIsModest(cfg: Config, e: Engine, w: World, log: seq<Event>)
    requires e.phase.Close? && Known(cfg, e, log)
    ensures ProcessClose(e, w).engine in Modest(e)
  {
    if w.sessionOpen && !Reached(w.now, e.closeDeadline) {
      assert ProcessClose(e, w).engine == e;
    } else if w.sessionOpen {
      EndIsModest(e, if e.pending.Running? then FailCommit else e.pending);
    } else if !e.pending.Running? {
      EndIsModest(e, e.pending);
    } else {
      EndIsModest(e, FailReset);
    }
  }

  lemma OpenKnown(cfg: Config, e: Engine, w: World, log: seq<Event>)
    requires InRange(cfg, e) && Known(cfg, e, log) && e.phase.Open?
    ensures Keeps(cfg, log, ProcessOpen(cfg, e, w))
  {
    OpenIsModest(cfg, e, w);
    StaysKnown(cfg, e, ProcessOpen(cfg, e, w), log);
  }

  lemma IdleKnown(cfg: Config, e: Engine, w: World, log: seq<Event>)
    requires e in States(cfg, log) && !e.active
    ensures Keeps(cfg, log, Process(cfg, e, w))
  {
    match e.phase
    case Bringup =>
      BringupIsModest(cfg, e, w);
      StaysKnown(cfg, e, ProcessBringup(e, w, cfg), log);
    case Open => OpenKnown(cfg, e, w, log);
    case Close =>
      CloseWaitIsModest(cfg, e, w, log);
      StaysKnown(cfg, e, ProcessClose(e, w), log);
    case Reset => StaysKnown(cfg, e, Step(e.(phase := Bringup), []), log);
    case AwaitDecision =>
      DecisionIsModest(e, w);
      StaysKnown(cfg, e, ProcessDecision(e, w), log);
    case Discard =>
      DiscardWaitIsModest(cfg, e, w, log);
      StaysKnown(cfg, e, ProcessDiscard(e, w), log);
    case _ => StaysKnown(cfg, e, Step(e, []), log);
  }

  lemma ReactKnown(cfg: Config, e: Engine, input: Input, log: seq<Event>)
    requires e in States(cfg, log)
    ensures Keeps(cfg, log, React(cfg, e, input))
  {
    if input.Pass? && !e.active {
      IdleKnown(cfg, e, input.world, log);
    } else if input.Pass? && !e.phase.Idle? && input.world.answer.Some? {
      var a := input.world.answer.value;
      var s := ProcessAnswer(cfg, e.(active := false), input.world, a);
      AnswerKnown(cfg, e, input.world, a, log);
      assert log + ([Reply(a)] + s.events) == log + [Reply(a)] + s.events;
    } else {
      HostIsModest(cfg, e, input);
      StaysKnown(cfg, e, React(cfg, e, input), log);
    }
  }

  lemma HostIsModest(cfg: Config, e: Engine, input: Input)
    requires InRange(cfg, e)
    requires input.Pass? ==> e.phase.Idle? || (e.active && input.world.answer.None?)
    requires (e.phase.Close? && Verified(e.pending) ==> e.verifying) && (e.phase.Discard? ==> !Verified(e.pending))
    requires e.phase.Done? && Verified(e.outcome) ==> e.verifying
    ensures React(cfg, e, input).engine in Modest(e)
  {
    match input
    case Pass(w) => IdlePassIsModest(cfg, e, w);
    case AskAbort => AbortIsModest(e);
    case AskDecide(save) => DecideIsModest(e, save);
  }

  lemma AbortIsModest(e: Engine)
    requires (e.phase.Close? && Verified(e.pending) ==> e.verifying) && (e.phase.Discard? ==> !Verified(e.pending))
    requires e.phase.Done? && Verified(e.outcome) ==> e.verifying
    ensures Abort(e).0.engine in Modest(e)
  {
  }

  lemma DecideIsModest(e: Engine, save: bool)
    requires (e.phase.Close? && Verified(e.pending) ==> e.verifying) && (e.phase.Discard? ==> !Verified(e.pending))
    requires e.phase.Done? && Verified(e.outcome) ==> e.verifying
    ensures Decide(e, save).0.engine in Modest(e)
  {
  }

  lemma IdlePassIsModest(cfg: Config, e: Engine, w: World)
    requires InRange(cfg, e) && (e.phase.Idle? || (e.active && w.answer.None?))
    requires (e.phase.Close? && Verified(e.pending) ==> e.verifying) && (e.phase.Discard? ==> !Verified(e.pending))
    requires e.phase.Done? && Verified(e.outcome) ==> e.verifying
    ensures Process(cfg, e, w).engine in Modest(e)
  {
    assert Process(cfg, e, w).engine == e;
  }

  /** In every run, under every world, what is marked is what the audit's answers contradicted. */
  lemma {:induction false} MarksAreTheAudit(cfg: Config, left: Engine, review: bool, inputs: seq<Input>)
    requires cfg.params != []
    ensures var s := RunOf(cfg, Start(left, review), inputs); s.engine in States(cfg, s.events)
  {
    if inputs == [] {
    } else {
      var init := inputs[..|inputs| - 1];
      var before := RunOf(cfg, Start(left, review), init);
      MarksAreTheAudit(cfg, left, review, init);
      ReactKeeps(cfg, before.engine, inputs[|inputs| - 1], before.events);
      ReactKnown(cfg, before.engine, inputs[|inputs| - 1], before.events);
    }
  }

  // ---------------------------------------------------------------------------
  // What is written is what the audit found

  /** Entries are marked nowhere but in the audit. */
  lemma OnlyTheAuditMarks(cfg: Config, e: Engine, input: Input, log: seq<Event>)
    requires e in States(cfg, log)
    ensures React(cfg, e, input).engine.differs == e.differs || (e.phase.Audit? && !e.verifying)
  {
    if input.Pass? && !e.active {
      PassesDoNotMark(cfg, e, input.world);
    } else if input.Pass? && input.world.answer.Some? {
      AnswersMarkInTheAudit(cfg, e.(active := false), input.world, input.world.answer.value);
    }
  }

  lemma PassesDoNotMark(cfg: Config, e: Engine, w: World)
    requires InRange(cfg, e) && !e.active
    ensures Process(cfg, e, w).engine.differs == e.differs
  {
    match e.phase
    case Bringup => BringupIsModest(cfg, e, w);
    case Open => OpenIsModest(cfg, e, w);
    case AwaitDecision => DecisionIsModest(e, w);
    case Close => assert ProcessClose(e, w).engine.differs == e.differs;
    case _ =>
  }

  lemma AnswersMarkInTheAudit(cfg: Config, e: Engine, w: World, a: Answer)
    requires InRange(cfg, e) && (Midrun(e.phase) ==> Settled(e))
    ensures ProcessAnswer(cfg, e, w, a).engine.differs == e.differs || (e.phase.Audit? && !e.verifying)
  {
    if Midrun(e.phase) {
      MidrunIsModest(cfg, e, w, a);
    } else if e.phase.Audit? && e.verifying {
      VerifyingMarksNothing(cfg, e, w, a);
    }
  }

  lemma VerifyingMarksNothing(cfg: Config, e: Engine, w: World, a: Answer)
    requires InRange(cfg, e) && e.phase.Audit? && e.verifying
    ensures HandleReadResult(cfg, e, w, a).engine.differs == e.differs
  {
    if !Unexpected(cfg, e, a) {
      ReadOnMarksNothing(cfg, e, w);
    }
  }

  lemma ReadOnMarksNothing(cfg: Config, e: Engine, w: World)
    requires InRange(cfg, e) && e.phase.Audit?
    ensures ReadOn(cfg, e, w).engine.differs == e.differs
  {
    CloseMarksNothing(e, w, Aborted);
    CloseMarksNothing(e, w, if e.verifying then FailVerify else FailAudit);
    EndOfPassMarksNothing(cfg, e, w);
  }

  lemma CloseMarksNothing(e: Engine, w: World, o: Outcome)
    ensures CloseSession(e, w, o).engine.differs == e.differs
  {
  }

  lemma EndOfPassMarksNothing(cfg: Config, e: Engine, w: World)
    ensures PassComplete(e, w, cfg).engine.differs == e.differs
  {
  }

  predicate Commits(events: seq<Event>) { Run(WR) in events }

  /** After the write to flash has been sent it is being waited for. */
  lemma WritesToFlashAreCommits(cfg: Config, e: Engine, w: World, from: nat)
    requires InRange(cfg, e) && from <= |cfg.params|
    ensures var s := WriteFrom(cfg, e, w, from); Commits(s.events) ==> s.engine.phase.Commit?
    ensures var s := ReviewFrom(cfg, e, w, from); !Commits(s.events)
  {
  }

  lemma AnswersAreCommits(cfg: Config, e: Engine, w: World, a: Answer)
    requires InRange(cfg, e)
    ensures var s := ProcessAnswer(cfg, e, w, a); Commits(s.events) ==> s.engine.phase.Commit?
  {
    match e.phase
    case Audit => ReadsDoNotCommit(cfg, e, w, a);
    case Restore => RestoreAnswersAreCommits(cfg, e, w, a);
    case Write => WritesToFlashAreCommits(cfg, e, w, e.index + 1);
    case Review => ReviewsDoNotCommit(cfg, e, w, a);
    case _ =>
  }

  lemma RestoreAnswersAreCommits(cfg: Config, e: Engine, w: World, a: Answer)
    requires InRange(cfg, e)
    ensures var s := HandleRestoreResult(cfg, e, w, a); Commits(s.events) ==> s.engine.phase.Commit?
  {
    if a.ok {
      WritesToFlashAreCommits(cfg, e.(phase := Write), w, 0);
    }
  }

  lemma ReviewsDoNotCommit(cfg: Config, e: Engine, w: World, a: Answer)
    requires InRange(cfg, e)
    ensures !Commits(HandleReviewResult(cfg, e, w, a).events)
  {
    var r := Reviewed(cfg, e, a);
    var e1, from := r.engine, e.index + 1;
    WritesToFlashAreCommits(cfg, e1, w, from);
    assert r.events == [r.events[0]];
    assert HandleReviewResult(cfg, e, w, a).events == r.events + ReviewFrom(cfg, e1, w, from).events;
  }

  lemma ReadsDoNotCommit(cfg: Config, e: Engine, w: World, a: Answer)
    requires InRange(cfg, e)
    ensures !Commits(HandleReadResult(cfg, e, w, a).events)
  {
  }

  lemma PassesAreCommits(cfg: Config, e: Engine, w: World)
    requires InRange(cfg, e) && !e.active
    ensures var s := Process(cfg, e, w); Commits(s.events) ==> s.engine.phase.Commit?
  {
    match e.phase
    case Open => OpeningDoesNotCommit(cfg, e, w);
    case AwaitDecision => DecisionsAreCommits(e, w);
    case Close => assert !Commits(ProcessClose(e, w).events);
    case _ =>
  }

  lemma OpeningDoesNotCommit(cfg: Config, e: Engine, w: World)
    requires InRange(cfg, e)
    ensures !Commits(ProcessOpen(cfg, e, w).events)
  {
  }

  lemma DecisionsAreCommits(e: Engine, w: World)
    ensures var s := ProcessDecision(e, w); Commits(s.events) ==> s.engine.phase.Commit?
  {
  }

  lemma ReactsAreCommits(cfg: Config, e: Engine, input: Input)
    requires InRange(cfg, e)
    ensures var s := React(cfg, e, input); Commits(s.events) ==> s.engine.phase.Commit?
  {
    if input.Pass? && !e.active {
      PassesAreCommits(cfg, e, input.world);
    } else if input.Pass? && input.world.answer.Some? {
      AnswersAreCommits(cfg, e.(active := false), input.world, input.world.answer.value);
    }
  }

  lemma {:induction false} CommittedIsAudited(cfg: Config, left: Engine, review: bool, inputs: seq<Input>)
    requires cfg.params != []
    ensures var s := RunOf(cfg, Start(left, review), inputs);
      Commits(s.events) ==> Audited(cfg, s.engine.differs, s.events)
  {
    if inputs == [] {
    } else {
      var init, last := inputs[..|inputs| - 1], inputs[|inputs| - 1];
      var before := RunOf(cfg, Start(left, review), init);
      var s := React(cfg, before.engine, last);
      CommittedIsAudited(cfg, left, review, init);
      MarksAreTheAudit(cfg, left, review, init);
      MarksAreTheAudit(cfg, left, review, inputs);
      if Commits(before.events) {
        ProvisionWrites.RunsKeep(cfg, left, review, init);
        OnlyTheAuditMarks(cfg, before.engine, last, before.events);
        AuditedGrows(cfg, before.engine.differs, before.events, s.events);
      } else {
        ReactsAreCommits(cfg, before.engine, last);
      }
    }
  }

  /**
   The write to flash is complete and nothing more: in every run, in any world, the log begins with
   a complete audit, and what has been sent by the time of the write is a write of exactly those
   entries that are not at their default or that the audit's answers contradicted.
   */
  lemma CommitFollowsTheAudit(cfg: Config, review: bool, run: Step, k: nat)
    requires IsRun(cfg, review, run) && k < |run.events| && run.events[k] == Run(WR)
    ensures Audited(cfg, run.engine.differs, run.events)
    ensures forall i: nat :: Put(i) in run.events[..k] <==> i < |cfg.params| && !Skipped(cfg, run.engine.differs, i)
  {
    ProvisionWrites.CommitIsComplete(cfg, review, run, k);
    assert run.events[k] in run.events;
    var left, inputs :| run == RunOf(cfg, Start(left, review), inputs);
    CommittedIsAudited(cfg, left, review, inputs);
  }
}

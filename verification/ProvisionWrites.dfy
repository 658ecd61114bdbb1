/**
 What a run writes, in any world: when it writes to flash it has sent every deviating parameter,
 and nothing else.
 */
module ProvisionWrites {
  import opened ProvisionEngine
  import ProvisionOrder
  import ProvisionTrace

  /** The table writes sent so far are those of the deviating entries below `n`. */
  ghost predicate PutsAre(cfg: Config, differs: set<nat>, log: seq<Event>, n: nat)
  {
    forall i: nat :: Put(i) in log <==> i < n && i < |cfg.params| && !Skipped(cfg, differs, i)
  }

  ghost predicate AllPut(cfg: Config, e: Engine, log: seq<Event>)
  {
    PutsAre(cfg, e.differs, log, |cfg.params|)
  }

  /** Nothing has been written, and nothing committed. */
  ghost predicate Clean(log: seq<Event>)
  {
    Run(WR) !in log && forall i: nat :: Put(i) !in log
  }

  /** Nothing goes to flash unless every deviation has been sent. */
  ghost predicate Earned(cfg: Config, e: Engine, log: seq<Event>)
  {
    Run(WR) in log ==> AllPut(cfg, e, log)
  }

  ghost predicate WroteSoFar(cfg: Config, e: Engine, log: seq<Event>)
  {
    && (e.verifying ==> AllPut(cfg, e, log))
    && match e.phase
       case Bringup | Open | Audit => e.verifying || Clean(log)
       case Reset => e.verifying
       case Restore => !e.verifying && Clean(log)
       case Write => !e.verifying && Run(WR) !in log && PutsAre(cfg, e.differs, log, e.index + 1)
       case Review | AwaitDecision | Commit => AllPut(cfg, e, log)
       case Close => Earned(cfg, e, log) && (e.pending.Running? ==> AllPut(cfg, e, log))
       case Discard | Done => Earned(cfg, e, log)
       case Idle => false
  }

  /** The engine states that go with a log. */
  ghost function States(cfg: Config, log: seq<Event>): (states: iset<Engine>)
  {
    iset e | InRange(cfg, e) && WroteSoFar(cfg, e, log)
  }

  ghost predicate Keeps(cfg: Config, log: seq<Event>, s: Step) { s.engine in States(cfg, log + s.events) }

  /** Events that are neither a table write nor the write to flash. */
  predicate Other(events: seq<Event>) { forall ev :: ev in events ==> !ev.Put? && ev != Run(WR) }

  lemma OthersChangeNothing(cfg: Config, differs: set<nat>, log: seq<Event>, events: seq<Event>, n: nat)
    requires Other(events)
    ensures PutsAre(cfg, differs, log + events, n) == PutsAre(cfg, differs, log, n)
    ensures Clean(log + events) == Clean(log)
    ensures Run(WR) in log + events <==> Run(WR) in log
  {
    assert forall i: nat :: Put(i) in log + events <==> Put(i) in log || Put(i) in events;
    assert forall i: nat {:trigger Put(i) in events} :: Put(i) in events ==> false;
    assert Run(WR) in events ==> false;
  }

  /** A state that was reached by other events keeps what the log says of it. */
  lemma QuietKeeps(cfg: Config, log: seq<Event>, s: Step)
    requires Other(s.events) && s.engine in States(cfg, log)
    ensures Keeps(cfg, log, s)
  {
    OthersChangeNothing(cfg, s.engine.differs, log, s.events, |cfg.params|);
    OthersChangeNothing(cfg, s.engine.differs, log, s.events, s.engine.index + 1);
  }

  lemma CloseKeeps(cfg: Config, e: Engine, w: World, o: Outcome, log: seq<Event>)
    requires InRange(cfg, e) && Earned(cfg, e, log)
    requires o.Running? || e.verifying ==> AllPut(cfg, e, log)
    ensures Keeps(cfg, log, CloseSession(e, w, o))
  {
    QuietKeeps(cfg, log, CloseSession(e, w, o));
  }

  lemma DiscardKeeps(cfg: Config, e: Engine, w: World, o: Outcome, log: seq<Event>)
    requires InRange(cfg, e) && AllPut(cfg, e, log)
    ensures Keeps(cfg, log, StartDiscard(e, w, o))
  {
    QuietKeeps(cfg, log, StartDiscard(e, w, o));
  }

  lemma CommitKeeps(cfg: Config, e: Engine, w: World, log: seq<Event>)
    requires InRange(cfg, e) && AllPut(cfg, e, log)
    ensures Keeps(cfg, log, StartCommit(e, w))
  {
    if w.submits {
      assert forall i: nat :: Put(i) in log + [Run(WR)] <==> Put(i) in log;
    } else {
      CloseKeeps(cfg, e, w, FailCommit, log);
    }
  }

  lemma AfterKeeps(cfg: Config, log: seq<Event>, before: seq<Event>, s: Step)
    ensures Keeps(cfg, log + before, s) ==> Keeps(cfg, log, After(before, s))
  {
    assert log + (before + s.events) == log + before + s.events;
  }

  /** The engine in the review, with every deviation sent. */
  ghost function Reviewing(cfg: Config, log: seq<Event>): (states: iset<Engine>)
  {
    iset e | InRange(cfg, e) && e.phase.Review? && AllPut(cfg, e, log)
  }

  lemma EnterKeeps(cfg: Config, e: Engine, w: World, log: seq<Event>)
    requires InRange(cfg, e) && AllPut(cfg, e, log)
    ensures Keeps(cfg, log, EnterDecision(e, w))
  {
    if e.overflow {
      DiscardKeeps(cfg, e, w, FailReview, log);
    } else {
      QuietKeeps(cfg, log, EnterDecision(e, w));
    }
  }

  lemma ReviewKeeps(cfg: Config, e: Engine, w: World, from: nat, log: seq<Event>)
    requires e in Reviewing(cfg, log) && from <= |cfg.params|
    ensures Keeps(cfg, log, ReviewFrom(cfg, e, w, from))
  {
    var i := NextReadable(cfg, from);
    var reports := UnreadableReports(from, i);
    OthersChangeNothing(cfg, e.differs, log, reports, |cfg.params|);
    if i == |cfg.params| {
      EnterKeeps(cfg, e, w, log + reports);
      AfterKeeps(cfg, log, reports, EnterDecision(e, w));
    } else if w.submits {
      QuietKeeps(cfg, log, ReviewFrom(cfg, e, w, from));
    } else {
      DiscardKeeps(cfg, e, w, FailReview, log + reports);
      AfterKeeps(cfg, log, reports, StartDiscard(e, w, FailReview));
    }
  }

  /** The entries up to the next deviation are skipped, so there is nothing to add for them. */
  lemma SkippedAddNothing(cfg: Config, differs: set<nat>, log: seq<Event>, from: nat)
    requires from <= |cfg.params| && PutsAre(cfg, differs, log, from)
    ensures PutsAre(cfg, differs, log, NextWritten(cfg, differs, from))
  {
    var i := NextWritten(cfg, differs, from);
    forall k: nat
      ensures Put(k) in log <==> k < i && k < |cfg.params| && !Skipped(cfg, differs, k)
    {
    }
  }

  lemma WriteKeeps(cfg: Config, e: Engine, w: World, from: nat, log: seq<Event>)
    requires InRange(cfg, e) && e.phase.Write? && !e.verifying && Run(WR) !in log && from <= |cfg.params|
    requires PutsAre(cfg, e.differs, log, from)
    ensures Keeps(cfg, log, WriteFrom(cfg, e, w, from))
  {
    var i := NextWritten(cfg, e.differs, from);
    SkippedAddNothing(cfg, e.differs, log, from);
    if i == |cfg.params| {
      if e.review {
        ReviewKeeps(cfg, e.(reviewMismatches := 0, overflow := false, accepted := [], phase := Review), w, 0, log);
      } else {
        CommitKeeps(cfg, e, w, log);
      }
    } else if w.submits {
      assert forall k: nat :: Put(k) in log + [Put(i)] <==> Put(k) in log || k == i;
    } else {
      CloseKeeps(cfg, e, w, FailWrite, log);
    }
  }

  lemma RestoreKeeps(cfg: Config, e: Engine, w: World, fallback: bool, log: seq<Event>)
    requires InRange(cfg, e) && !e.verifying && Clean(log)
    ensures Keeps(cfg, log, StartRestore(cfg, e, w, fallback))
  {
    QuietKeeps(cfg, log, StartRestore(cfg, e, w, fallback));
  }

  lemma ReadKeeps(cfg: Config, e: Engine, w: World, from: nat, log: seq<Event>)
    requires InRange(cfg, e) && e.phase.Audit? && from <= |cfg.params|
    requires if e.verifying then AllPut(cfg, e, log) else Clean(log)
    ensures StartNextRead(cfg, e, w, from).Some? ==> Keeps(cfg, log, StartNextRead(cfg, e, w, from).value)
  {
    var i := NextReadable(cfg, from);
    if i < |cfg.params| && w.submits {
      QuietKeeps(cfg, log, StartNextRead(cfg, e, w, from).value);
    } else {
      CloseKeeps(cfg, e, w, if e.verifying then FailVerify else FailAudit, log);
    }
  }

  lemma ReadResultKeeps(cfg: Config, e: Engine, w: World, a: Answer, log: seq<Event>)
    requires InRange(cfg, e) && e.phase.Audit?
    requires if e.verifying then AllPut(cfg, e, log) else Clean(log)
    ensures Keeps(cfg, log, HandleReadResult(cfg, e, w, a))
  {
    var e1 := Compared(cfg, e, a);
    if Unexpected(cfg, e, a) && e.verifying {
      CloseKeeps(cfg, e1, w, FailVerify, log);
    } else {
      ReadOnKeeps(cfg, e1, w, log);
    }
  }

  lemma ReadOnKeeps(cfg: Config, e: Engine, w: World, log: seq<Event>)
    requires InRange(cfg, e) && e.phase.Audit?
    requires if e.verifying then AllPut(cfg, e, log) else Clean(log)
    ensures Keeps(cfg, log, ReadOn(cfg, e, w))
  {
    if e.abortRequested && !e.verifying {
      CloseKeeps(cfg, e, w, Aborted, log);
    } else {
      ReadKeeps(cfg, e, w, e.index + 1, log);
      PassCompleteKeeps(cfg, e, w, log);
    }
  }

  lemma PassCompleteKeeps(cfg: Config, e: Engine, w: World, log: seq<Event>)
    requires InRange(cfg, e) && e.phase.Audit?
    requires if e.verifying then AllPut(cfg, e, log) else Clean(log)
    ensures Keeps(cfg, log, PassComplete(e, w, cfg))
  {
    if e.verifying {
      CloseKeeps(cfg, e, w, if e.accepted != [] then WrittenWithDifferences else Written, log);
    } else if e.mismatches == 0 {
      CloseKeeps(cfg, e, w, AlreadyProvisioned, log);
    } else {
      RestoreKeeps(cfg, e, w, false, log);
    }
  }

  lemma RestoreResultKeeps(cfg: Config, e: Engine, w: World, a: Answer, log: seq<Event>)
    requires InRange(cfg, e) && e.phase.Restore? && !e.verifying && Clean(log)
    ensures Keeps(cfg, log, HandleRestoreResult(cfg, e, w, a))
  {
    if a.ok {
      WriteKeeps(cfg, e.(phase := Write), w, 0, log);
    } else {
      RestoreKeeps(cfg, e.(fellBack := true), w, true, log);
      CloseKeeps(cfg, e, w, FailRestore, log);
    }
  }

  lemma WriteResultKeeps(cfg: Config, e: Engine, w: World, a: Answer, log: seq<Event>)
    requires InRange(cfg, e) && e.phase.Write? && WroteSoFar(cfg, e, log)
    ensures Keeps(cfg, log, HandleWriteResult(cfg, e, w, a))
  {
    if a.ok {
      WriteKeeps(cfg, e, w, e.index + 1, log);
    } else {
      CloseKeeps(cfg, e, w, FailWrite, log);
    }
  }

  lemma ReviewedKeeps(cfg: Config, e: Engine, a: Answer, log: seq<Event>)
    requires e in Reviewing(cfg, log)
    ensures var r := Reviewed(cfg, e, a); r.engine in Reviewing(cfg, log + r.events)
  {
    var r := Reviewed(cfg, e, a);
    assert r.events == [r.events[0]];
    OthersChangeNothing(cfg, e.differs, log, r.events, |cfg.params|);
  }

  lemma ReviewResultKeeps(cfg: Config, e: Engine, w: World, a: Answer, log: seq<Event>)
    requires e in Reviewing(cfg, log)
    ensures Keeps(cfg, log, HandleReviewResult(cfg, e, w, a))
  {
    var r := Reviewed(cfg, e, a);
    ReviewResultIs(cfg, e, w, a);
    ReviewedKeeps(cfg, e, a, log);
    ReviewKeeps(cfg, r.engine, w, e.index + 1, log + r.events);
    AfterKeeps(cfg, log, r.events, ReviewFrom(cfg, r.engine, w, e.index + 1));
  }

  lemma AnswerKeeps(cfg: Config, e: Engine, w: World, a: Answer, log: seq<Event>)
    requires InRange(cfg, e) && WroteSoFar(cfg, e, log)
    ensures Keeps(cfg, log, ProcessAnswer(cfg, e, w, a))
  {
    match e.phase
    case Audit => ReadResultKeeps(cfg, e, w, a, log);
    case Restore => RestoreResultKeeps(cfg, e, w, a, log);
    case Write => WriteResultKeeps(cfg, e, w, a, log);
    case Review => ReviewResultKeeps(cfg, e, w, a, log);
    case Commit => CloseKeeps(cfg, e, w, if a.ok then Running else FailCommit, log);
    case _ => QuietKeeps(cfg, log, Step(e, []));
  }

  lemma OpenKeeps(cfg: Config, e: Engine, w: World, log: seq<Event>)
    requires InRange(cfg, e) && e.phase.Open? && WroteSoFar(cfg, e, log)
    ensures Keeps(cfg, log, ProcessOpen(cfg, e, w))
  {
    match w.opening
    case InProgress => QuietKeeps(cfg, log, Step(e, []));
    case NotOpened => QuietKeeps(cfg, log, Step(Finish(e, FailSession), []));
    case Opened => OpenedKeeps(cfg, e, w, log);
  }

  lemma OpenedKeeps(cfg: Config, e: Engine, w: World, log: seq<Event>)
    requires InRange(cfg, e) && e.phase.Open? && w.opening.Opened? && WroteSoFar(cfg, e, log)
    ensures Keeps(cfg, log, ProcessOpen(cfg, e, w))
  {
    if e.abortRequested {
      CloseKeeps(cfg, e, w, Aborted, log);
    } else {
      var e1 := e.(mismatches := 0, phase := Audit);
      ReadKeeps(cfg, e1, w, 0, log);
      CloseKeeps(cfg, e1, w, FailAudit, log);
    }
  }

  lemma DecisionKeeps(cfg: Config, e: Engine, w: World, log: seq<Event>)
    requires InRange(cfg, e) && e.phase.AwaitDecision? && WroteSoFar(cfg, e, log)
    ensures Keeps(cfg, log, ProcessDecision(e, w))
  {
    if w.sessionOpen && e.decision.Save? {
      CommitKeeps(cfg, e, w, log);
    } else if w.sessionOpen && e.decision.Drop? {
      DiscardKeeps(cfg, e, w, Declined, log);
    } else {
      QuietKeeps(cfg, log, ProcessDecision(e, w));
    }
  }

  lemma EndKeeps(cfg: Config, e: Engine, o: Outcome, log: seq<Event>)
    requires InRange(cfg, e) && Earned(cfg, e, log) && (e.verifying ==> AllPut(cfg, e, log))
    ensures Keeps(cfg, log, Step(Finish(e, o), []))
  {
    QuietKeeps(cfg, log, Step(Finish(e, o), []));
  }

  lemma BringupKeeps(cfg: Config, e: Engine, w: World, log: seq<Event>)
    requires InRange(cfg, e) && e.phase.Bringup? && WroteSoFar(cfg, e, log)
    ensures Keeps(cfg, log, ProcessBringup(e, w, cfg))
  {
    EndKeeps(cfg, e, Aborted, log);
    EndKeeps(cfg, e, FailBringup, log);
    EndKeeps(cfg, e, FailReset, log);
    EndKeeps(cfg, e, FailSession, log);
    assert log + [] == log;
  }

  lemma CloseWaitKeeps(cfg: Config, e: Engine, w: World, log: seq<Event>)
    requires InRange(cfg, e) && e.phase.Close? && WroteSoFar(cfg, e, log)
    ensures Keeps(cfg, log, ProcessClose(e, w))
  {
    if w.sessionOpen || !e.pending.Running? || !w.resets {
      EndKeeps(cfg, e, FailCommit, log);
      EndKeeps(cfg, e, FailReset, log);
      EndKeeps(cfg, e, e.pending, log);
      assert log + [] == log;
    } else {
      QuietKeeps(cfg, log, ProcessClose(e, w));
    }
  }

  lemma IdleKeeps(cfg: Config, e: Engine, w: World, log: seq<Event>)
    requires InRange(cfg, e) && !e.active && WroteSoFar(cfg, e, log)
    ensures Keeps(cfg, log, Process(cfg, e, w))
  {
    match e.phase
    case Bringup => BringupKeeps(cfg, e, w, log);
    case Open => OpenKeeps(cfg, e, w, log);
    case Close => CloseWaitKeeps(cfg, e, w, log);
    case Reset => QuietKeeps(cfg, log, Step(e.(phase := Bringup), []));
    case AwaitDecision => DecisionKeeps(cfg, e, w, log);
    case Discard => QuietKeeps(cfg, log, ProcessDiscard(e, w));
    case _ => QuietKeeps(cfg, log, Step(e, []));
  }

  lemma ReactKeeps(cfg: Config, e: Engine, input: Input, log: seq<Event>)
    requires e in States(cfg, log)
    ensures Keeps(cfg, log, React(cfg, e, input))
  {
    if input.Pass? && !e.active {
      IdleKeeps(cfg, e, input.world, log);
    } else if input.Pass? && !e.phase.Idle? && input.world.answer.Some? {
      var a := input.world.answer.value;
      var e1 := e.(active := false);
      QuietKeeps(cfg, log, Step(e1, [Reply(a)]));
      AnswerKeeps(cfg, e1, input.world, a, log + [Reply(a)]);
      AfterKeeps(cfg, log, [Reply(a)], ProcessAnswer(cfg, e1, input.world, a));
    } else {
      QuietKeeps(cfg, log, React(cfg, e, input));
    }
  }

  lemma {:induction false} RunsKeep(cfg: Config, left: Engine, review: bool, inputs: seq<Input>)
    requires cfg.params != []
    ensures var s := RunOf(cfg, Start(left, review), inputs); s.engine in States(cfg, s.events)
  {
    if inputs == [] {
    } else {
      var init := inputs[..|inputs| - 1];
      var before := RunOf(cfg, Start(left, review), init);
      RunsKeep(cfg, left, review, init);
      ReactKeeps(cfg, before.engine, inputs[|inputs| - 1], before.events);
    }
  }

  /**
   The write to flash is complete: in every run, in any world, what has been sent by then is a write
   of every entry that is not at its default or that the audit saw differ, and of no other.
   */
  lemma CommitIsComplete(cfg: Config, review: bool, run: Step, k: nat)
    requires IsRun(cfg, review, run) && k < |run.events| && run.events[k] == Run(WR)
    ensures forall i: nat :: Put(i) in run.events[..k] <==> i < |cfg.params| && !Skipped(cfg, run.engine.differs, i)
  {
    RunIsEarned(cfg, review, run);
    ProvisionTrace.RunIsOrderly(cfg, review, run);
    assert run.events[k] in run.events;
    forall i: nat
      ensures Put(i) in run.events[..k] <==> Put(i) in run.events
    {
      WritesPrecedeCommit(review, run.events, k, i);
    }
  }

  lemma RunIsEarned(cfg: Config, review: bool, run: Step)
    requires IsRun(cfg, review, run)
    ensures Earned(cfg, run.engine, run.events)
  {
    var left, inputs :| run == RunOf(cfg, Start(left, review), inputs);
    RunsKeep(cfg, left, review, inputs);
    StatesAreEarned(cfg, run.engine, run.events);
  }

  lemma StatesAreEarned(cfg: Config, e: Engine, log: seq<Event>)
    requires e in States(cfg, log)
    ensures Earned(cfg, e, log)
  {
  }

  lemma WritesPrecedeCommit(review: bool, log: seq<Event>, k: nat, i: nat)
    requires ProvisionTrace.Orderly(review, log) && k < |log| && log[k] == Run(WR)
    ensures Put(i) in log[..k] <==> Put(i) in log
  {
    if Put(i) in log {
      var a, b, c, d := ProvisionOrder.CommandsInOrder(review, log);
      var j :| 0 <= j < |log| && log[j] == Put(i);
      assert ProvisionOrder.IsCommand(log[j]) && ProvisionOrder.IsCommand(log[k]);
      assert log[..k][j] == Put(i);
    }
  }

  // ---------------------------------------------------------------------------
  // A table in which nothing can be read

  /** The states of a run that has nothing to read. */
  predicate Blind(e: Engine)
  {
    !e.verifying && !e.active
    && (e.phase.Bringup? || e.phase.Open? || (e.phase.Close? && !e.pending.Running?) || e.phase.Done?)
  }

  lemma BlindStays(cfg: Config, e: Engine, input: Input)
    requires InRange(cfg, e) && NextReadable(cfg, 0) == |cfg.params| && Blind(e)
    ensures var s := React(cfg, e, input);
      Blind(s.engine) && forall ev :: ev in s.events ==> ev.AbortAsked? || ev.Exit?
  {
    match input
    case Pass(w) => BlindPass(cfg, e, w);
    case AskAbort =>
    case AskDecide(_) =>
  }

  lemma BlindPass(cfg: Config, e: Engine, w: World)
    requires InRange(cfg, e) && NextReadable(cfg, 0) == |cfg.params| && Blind(e)
    ensures var s := Process(cfg, e, w);
      Blind(s.engine) && forall ev :: ev in s.events ==> ev.AbortAsked? || ev.Exit?
  {
  }

  /** With nothing to read the audit fails: nothing is ever read, restored, written or verified. */
  lemma {:induction false} NothingReadableNothingDone(cfg: Config, left: Engine, review: bool, inputs: seq<Input>)
    requires cfg.params != [] && NextReadable(cfg, 0) == |cfg.params|
    ensures var s := RunOf(cfg, Start(left, review), inputs);
      Blind(s.engine) && forall ev :: ev in s.events ==> ev.AbortAsked? || ev.Exit?
  {
    if inputs == [] {
    } else {
      var init := inputs[..|inputs| - 1];
      NothingReadableNothingDone(cfg, left, review, init);
      BlindStays(cfg, RunOf(cfg, Start(left, review), init).engine, inputs[|inputs| - 1]);
    }
  }
}

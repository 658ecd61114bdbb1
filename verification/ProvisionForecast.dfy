/**
 What a caller can tell before a run against an honest module.

 Which entries a run skips follows from the configuration and from what the module holds: those at
 their default that the audit cannot see differ. So whether the configuration will be reproduced can
 be decided beforehand, and the condition is exact.
 */
module ProvisionForecast {
  import opened Base
  import opened AtTable
  import opened ProvisionEngine
  import opened ProvisionModule
  import ProvisionPass
  import ProvisionAudit
  import ProvisionEndToEnd
  import ProvisionTermination

  // ---------------------------------------------------------------------------
  // The answers of the audit

  /** No executable command has been sent before this place in the log. */
  predicate Auditing(log: seq<Event>, k: nat) { forall j :: 0 <= j < k && j < |log| ==> !log[j].Run? }

  /** The module answered every read of the audit. */
  ghost predicate AuditHeard(log: seq<Event>)
  {
    forall k: nat :: k < |log| && log[k].Reply? && Auditing(log, k) ==> log[k].answer.ok
  }

  /** The answer at this place of the log is to a read of the audit, and is true of the module. */
  ghost predicate TrueAt(cfg: Config, m0: Module, log: seq<Event>, k: nat)
    requires 0 < k < |log|
  {
    log[k - 1].Get? && log[k].Reply? && Auditing(log, k) ==>
      && log[k - 1].index < |cfg.params|
      && (log[k].answer.ok ==>
            ValuesEqual(EntryOf(cfg, log[k - 1].index), log[k].answer.value,
                        Held(m0.working, cfg.params[log[k - 1].index].command)))
  }

  ghost predicate Truthful(cfg: Config, m0: Module, log: seq<Event>)
  {
    forall k: nat :: 0 < k < |log| ==> TrueAt(cfg, m0, log, k)
  }

  predicate NoReply(events: seq<Event>) { forall ev :: ev in events ==> !ev.Reply? }

  lemma TruthfulGrows(cfg: Config, m0: Module, log: seq<Event>, events: seq<Event>)
    requires Truthful(cfg, m0, log) && NoReply(events)
    ensures Truthful(cfg, m0, log + events)
  {
    var all := log + events;
    forall k: nat | 0 < k < |all|
      ensures TrueAt(cfg, m0, all, k)
    {
      if k < |log| {
        assert TrueAt(cfg, m0, log, k);
        assert Auditing(all, k) ==> Auditing(log, k) by {
          assert forall j :: 0 <= j < k ==> all[j] == log[j];
        }
      } else {
        assert all[k] in events;
      }
    }
  }

  /** An answer that is true of what is being asked keeps the log truthful. */
  lemma AnswerIsTruthful(cfg: Config, m0: Module, log: seq<Event>, a: Answer)
    requires Truthful(cfg, m0, log)
    requires log != [] ==> TrueAt(cfg, m0, log + [Reply(a)], |log|)
    ensures Truthful(cfg, m0, log + [Reply(a)])
  {
    var all := log + [Reply(a)];
    forall k: nat | 0 < k < |all|
      ensures TrueAt(cfg, m0, all, k)
    {
      if k < |log| {
        assert TrueAt(cfg, m0, log, k);
        assert Auditing(all, k) ==> Auditing(log, k) by {
          assert forall j :: 0 <= j < k ==> all[j] == log[j];
        }
      }
    }
  }

  lemma ReplyThenOthers(cfg: Config, m0: Module, log: seq<Event>, reply: Event, events: seq<Event>)
    requires Truthful(cfg, m0, log + [reply]) && NoReply(events)
    ensures Truthful(cfg, m0, log + ([reply] + events))
  {
    TruthfulGrows(cfg, m0, log + [reply], events);
    assert log + ([reply] + events) == log + [reply] + events;
  }

  // ---------------------------------------------------------------------------
  // Only a pass with an answer puts an answer into the log

  lemma WritesDoNotReply(cfg: Config, e: Engine, w: World, from: nat)
    requires InRange(cfg, e) && from <= |cfg.params|
    ensures NoReply(ReviewFrom(cfg, e, w, from).events) && NoReply(WriteFrom(cfg, e, w, from).events)
  {
    ReviewingDoesNotReply(cfg, e, w, from);
    ReviewingDoesNotReply(cfg, e.(reviewMismatches := 0, overflow := false, accepted := [], phase := Review), w, 0);
  }

  lemma ReviewingDoesNotReply(cfg: Config, e: Engine, w: World, from: nat)
    requires from <= |cfg.params|
    ensures NoReply(ReviewFrom(cfg, e, w, from).events)
  {
  }

  lemma ReadsDoNotReply(cfg: Config, e: Engine, w: World, a: Answer)
    requires InRange(cfg, e)
    ensures NoReply(HandleReadResult(cfg, e, w, a).events)
  {
  }

  lemma RestoresDoNotReply(cfg: Config, e: Engine, w: World, a: Answer)
    requires InRange(cfg, e)
    ensures NoReply(HandleRestoreResult(cfg, e, w, a).events)
  {
    if a.ok {
      WritesDoNotReply(cfg, e.(phase := Write), w, 0);
    }
  }

  lemma ReviewsDoNotReply(cfg: Config, e: Engine, w: World, a: Answer)
    requires InRange(cfg, e)
    ensures NoReply(HandleReviewResult(cfg, e, w, a).events)
  {
    var r := Reviewed(cfg, e, a);
    ReviewResultIs(cfg, e, w, a);
    ReviewFromDoesNotReply(cfg, r.engine, w, e.index + 1, r.events);
  }

  lemma ReviewFromDoesNotReply(cfg: Config, e: Engine, w: World, from: nat, report: seq<Event>)
    requires InRange(cfg, e) && from <= |cfg.params| && |report| == 1 && !report[0].Reply?
    ensures NoReply(After(report, ReviewFrom(cfg, e, w, from)).events)
  {
    WritesDoNotReply(cfg, e, w, from);
    OneThenOthers(report, ReviewFrom(cfg, e, w, from).events);
  }

  lemma OneThenOthers(one: seq<Event>, others: seq<Event>)
    requires |one| == 1 && !one[0].Reply? && NoReply(others)
    ensures NoReply(one + others)
  {
  }

  lemma HandlersDoNotReply(cfg: Config, e: Engine, w: World, a: Answer)
    requires InRange(cfg, e)
    ensures NoReply(ProcessAnswer(cfg, e, w, a).events)
  {
    match e.phase
    case Audit => ReadsDoNotReply(cfg, e, w, a);
    case Restore => RestoresDoNotReply(cfg, e, w, a);
    case Write => WritesDoNotReply(cfg, e, w, e.index + 1);
    case Review => ReviewsDoNotReply(cfg, e, w, a);
    case _ =>
  }

  lemma QuietPassesDoNotReply(cfg: Config, e: Engine, w: World)
    requires InRange(cfg, e) && !e.active
    ensures NoReply(Process(cfg, e, w).events)
  {
    match e.phase
    case Open => OpeningDoesNotReply(cfg, e, w);
    case AwaitDecision => DecidingDoesNotReply(e, w);
    case Close => assert NoReply(ProcessClose(e, w).events);
    case _ =>
  }

  lemma OpeningDoesNotReply(cfg: Config, e: Engine, w: World)
    requires InRange(cfg, e)
    ensures NoReply(ProcessOpen(cfg, e, w).events)
  {
  }

  lemma DecidingDoesNotReply(e: Engine, w: World)
    ensures NoReply(ProcessDecision(e, w).events)
  {
  }

  // ---------------------------------------------------------------------------
  // Honest runs answer truthfully

  /** The log of an honest run that nobody aborted. */
  ghost predicate Credible(cfg: Config, m0: Module, e: Engine, log: seq<Event>)
  {
    !e.abortRequested ==> Truthful(cfg, m0, log)
  }

  lemma AuditedIsNotAuditing(cfg: Config, differs: set<nat>, log: seq<Event>, ev: Event)
    requires ProvisionAudit.Audited(cfg, differs, log)
    ensures !Auditing(log + [ev], |log|)
  {
    var a: nat :| ProvisionAudit.AuditEnds(cfg, differs, log, a);
    assert (log + [ev])[a].Run?;
  }

  lemma HonestAnswerIsTrue(cfg: Config, m0: Module, e: Engine, log: seq<Event>, a: Answer)
    requires e in ProvisionAudit.States(cfg, log) && e in States(cfg, m0, Effects(cfg, m0, log))
    requires e.active && !e.abortRequested && log != []
    requires HonestAnswer(cfg, e, Effects(cfg, m0, log), a)
    ensures TrueAt(cfg, m0, log + [Reply(a)], |log|)
  {
    var all := log + [Reply(a)];
    if ProvisionAudit.PastAudit(e) {
      AuditedIsNotAuditing(cfg, e.differs, log, Reply(a));
    } else {
      AskingIsAuditing(cfg, e, log);
      assert all[|log| - 1] == log[|log| - 1];
    }
  }

  /** Before the audit is over only a read of the audit can be outstanding. */
  lemma AskingIsAuditing(cfg: Config, e: Engine, log: seq<Event>)
    requires e in ProvisionAudit.States(cfg, log) && e.active && !e.abortRequested
    requires !ProvisionAudit.PastAudit(e) && !e.phase.Idle?
    ensures e.phase.Audit? && !e.verifying && log != [] && log[|log| - 1] == Get(e.index)
  {
  }

  lemma AnswerStaysTruthful(cfg: Config, m0: Module, e: Engine, log: seq<Event>, w: World, a: Answer)
    requires e in ProvisionAudit.States(cfg, log) && e in States(cfg, m0, Effects(cfg, m0, log))
    requires Truthful(cfg, m0, log) && e.active && !e.abortRequested
    requires HonestAnswer(cfg, e, Effects(cfg, m0, log), a)
    ensures Truthful(cfg, m0, log + ([Reply(a)] + ProcessAnswer(cfg, e.(active := false), w, a).events))
  {
    var events := ProcessAnswer(cfg, e.(active := false), w, a).events;
    if log != [] {
      HonestAnswerIsTrue(cfg, m0, e, log, a);
    }
    AnswerIsTruthful(cfg, m0, log, a);
    HandlersDoNotReply(cfg, e.(active := false), w, a);
    ReplyThenOthers(cfg, m0, log, Reply(a), events);
  }

  lemma ReactStaysTruthful(cfg: Config, m0: Module, e: Engine, log: seq<Event>, input: Input)
    requires e in ProvisionAudit.States(cfg, log) && e in States(cfg, m0, Effects(cfg, m0, log))
    requires Truthful(cfg, m0, log) && !e.abortRequested
    requires input.Pass? ==> Honest(cfg, e, Effects(cfg, m0, log), input.world)
    ensures Truthful(cfg, m0, log + React(cfg, e, input).events)
  {
    if input.Pass? && e.active && input.world.answer.Some? {
      AnswerStaysTruthful(cfg, m0, e, log, input.world, input.world.answer.value);
    } else {
      if input.Pass? && !e.active {
        QuietPassesDoNotReply(cfg, e, input.world);
      }
      TruthfulGrows(cfg, m0, log, React(cfg, e, input).events);
    }
  }

  lemma AbortsAreFinal(cfg: Config, e: Engine, input: Input)
    requires InRange(cfg, e) && e.abortRequested
    ensures React(cfg, e, input).engine.abortRequested
  {
  }

  lemma {:induction false} HonestRunsAreCredible(cfg: Config, m0: Module, left: Engine, review: bool,
                                                 inputs: seq<Input>)
    requires cfg.params != [] && ProvisionEndToEnd.SomethingReadable(cfg)
    requires HonestRun(cfg, m0, Start(left, review), inputs)
    ensures var s := RunOf(cfg, Start(left, review), inputs); Credible(cfg, m0, s.engine, s.events)
  {
    if inputs == [] {
    } else {
      var init := inputs[..|inputs| - 1];
      var before := RunOf(cfg, Start(left, review), init);
      HonestRunsAreCredible(cfg, m0, left, review, init);
      ProvisionAudit.MarksAreTheAudit(cfg, left, review, init);
      ProvisionEndToEnd.HonestRunsKeep(cfg, m0, left, review, init);
      if before.engine.abortRequested {
        AbortsAreFinal(cfg, before.engine, inputs[|inputs| - 1]);
      } else {
        ReactStaysTruthful(cfg, m0, before.engine, before.events, inputs[|inputs| - 1]);
      }
    }
  }

  // ---------------------------------------------------------------------------
  // Which entries will be skipped

  /** The module can be read to deviate from the configuration at this entry. */
  predicate Deviates(cfg: Config, m0: Module, i: nat)
    requires i < |cfg.params|
  {
    Readable(cfg, i) && !ValuesEqual(EntryOf(cfg, i), Held(m0.working, cfg.params[i].command), cfg.params[i].value)
  }

  /** An entry that a run leaves to the restored defaults. */
  predicate LeftToDefault(cfg: Config, m0: Module, i: nat)
    requires i < |cfg.params|
  {
    IsDefault(EntryOf(cfg, i), cfg.params[i].value) && !Deviates(cfg, m0, i)
  }

  /** The restored defaults are the table's, for every entry that will be left to them. */
  predicate DefaultsWillDo(cfg: Config, m0: Module)
  {
    forall i :: 0 <= i < |cfg.params| && LeftToDefault(cfg, m0, i) ==>
      IsDefault(EntryOf(cfg, i), Held(Restored(cfg, m0), cfg.params[i].command))
  }

  lemma EqualCarries(entry: Option<Entry>, a: seq<Byte>, b: seq<Byte>, c: seq<Byte>)
    requires ValuesEqual(entry, a, b)
    ensures ValuesEqual(entry, a, c) <==> ValuesEqual(entry, b, c)
  {
    EqualIsSymmetric(entry, a, b);
    if ValuesEqual(entry, a, c) {
      EqualIsTransitive(entry, b, a, c);
    }
    if ValuesEqual(entry, b, c) {
      EqualIsTransitive(entry, a, b, c);
    }
  }

  /** One entry of an audit whose answers were heard and true is marked exactly if the module deviates. */
  lemma MarkedIsDeviating(cfg: Config, m0: Module, differs: set<nat>, log: seq<Event>, a: nat, i: nat)
    requires ProvisionAudit.AuditEnds(cfg, differs, log, a) && i < |cfg.params| && Readable(cfg, i)
    requires Truthful(cfg, m0, log) && AuditHeard(log)
    ensures i in differs <==> Deviates(cfg, m0, i)
  {
    var seg := log[..a];
    var k := ProvisionPass.PassAnswersFor(cfg, [], differs, seg, |cfg.params|, i);
    ProvisionPass.PassAsksBelow(cfg, [], differs, seg, |cfg.params|);
    assert log[k] == Get(i) && log[k + 1] == seg[k + 1];
    assert Auditing(log, k + 1) by {
      assert forall j :: 0 <= j < k + 1 ==> log[j] == seg[j];
    }
    assert TrueAt(cfg, m0, log, k + 1);
    EqualCarries(EntryOf(cfg, i), log[k + 1].answer.value, Held(m0.working, cfg.params[i].command),
                 cfg.params[i].value);
  }

  /** Past an audit that was heard, what is marked is what can be read to deviate. */
  lemma MarksAreDeviations(cfg: Config, m0: Module, e: Engine, log: seq<Event>)
    requires ProvisionAudit.Audited(cfg, e.differs, log)
    requires Truthful(cfg, m0, log) && AuditHeard(log)
    ensures forall i :: 0 <= i < |cfg.params| ==> (i in e.differs <==> Deviates(cfg, m0, i))
  {
    var a: nat :| ProvisionAudit.AuditEnds(cfg, e.differs, log, a);
    forall i | 0 <= i < |cfg.params|
      ensures i in e.differs <==> Deviates(cfg, m0, i)
    {
      if Readable(cfg, i) {
        MarkedIsDeviating(cfg, m0, e.differs, log, a, i);
      }
    }
  }

  /** A run that ended with a verified result skipped exactly the entries that were to be left. */
  lemma SkippedIsForeseen(cfg: Config, m0: Module, left: Engine, review: bool, inputs: seq<Input>)
    requires cfg.params != [] && ProvisionEndToEnd.SomethingReadable(cfg)
    requires HonestRun(cfg, m0, Start(left, review), inputs)
    requires var run := RunOf(cfg, Start(left, review), inputs);
      run.engine.phase.Done? && ProvisionAudit.Verified(run.engine.outcome) && AuditHeard(run.events)
    ensures var e := RunOf(cfg, Start(left, review), inputs).engine;
      forall i :: 0 <= i < |cfg.params| ==> (Skipped(cfg, e.differs, i) <==> LeftToDefault(cfg, m0, i))
  {
    var run := RunOf(cfg, Start(left, review), inputs);
    ProvisionAudit.MarksAreTheAudit(cfg, left, review, inputs);
    HonestRunsAreCredible(cfg, m0, left, review, inputs);
    VerifiedIsCredible(cfg, m0, run.engine, run.events);
    MarksAreDeviations(cfg, m0, run.engine, run.events);
  }

  lemma VerifiedIsCredible(cfg: Config, m0: Module, e: Engine, log: seq<Event>)
    requires e in ProvisionAudit.States(cfg, log) && Credible(cfg, m0, e, log)
    requires e.phase.Done? && ProvisionAudit.Verified(e.outcome)
    ensures Truthful(cfg, m0, log) && ProvisionAudit.Audited(cfg, e.differs, log)
  {
  }

  /**
   The forecast is exact: an honest run that wrote, whose audit was answered, has reproduced the
   configuration in flash if and only if the restored defaults are the table's for every entry that
   is at its default in the configuration and that is unreadable or already right in the module.
   */
  lemma WrittenMatchesExactly(cfg: Config, m0: Module, left: Engine, review: bool, inputs: seq<Input>)
    requires cfg.params != [] && ProvisionEndToEnd.SomethingReadable(cfg) && Configured(cfg)
    requires HonestRun(cfg, m0, Start(left, review), inputs)
    requires var run := RunOf(cfg, Start(left, review), inputs);
      run.engine.phase.Done? && ProvisionAudit.Verified(run.engine.outcome) && AuditHeard(run.events)
    ensures var run := RunOf(cfg, Start(left, review), inputs);
      Matches(cfg, Effects(cfg, m0, run.events).flash) <==> DefaultsWillDo(cfg, m0)
  {
    var e := RunOf(cfg, Start(left, review), inputs).engine;
    SkippedIsForeseen(cfg, m0, left, review, inputs);
    ProvisionEndToEnd.AllOrNothing(cfg, m0, left, review, inputs);
    ProvisionEndToEnd.MatchesExactlyWhenDefaultsAgree(cfg, m0, e.differs);
    assert DefaultsAgree(cfg, Restored(cfg, m0), e.differs) <==> DefaultsWillDo(cfg, m0);
  }

  // ---------------------------------------------------------------------------
  // The whole run, foretold

  /** A pass without a contradiction, heard and true, means that nothing deviates. */
  lemma CleanMeansRight(cfg: Config, m0: Module, log: seq<Event>, i: nat)
    requires ProvisionPass.CleanPass(cfg, [], log) && Truthful(cfg, m0, log) && AuditHeard(log)
    requires forall ev :: ev in log ==> !ev.Run?
    requires i < |cfg.params|
    ensures !Deviates(cfg, m0, i)
  {
    if Readable(cfg, i) {
      var seg := if ProvisionPass.IsPass(cfg, [], {}, log, |cfg.params|) then log else log[..|log| - 1];
      var k := ProvisionPass.PassAnswersFor(cfg, [], {}, seg, |cfg.params|, i);
      assert log[k] == Get(i) && log[k + 1] == seg[k + 1];
      assert Auditing(log, k + 1) by {
        assert forall j :: 0 <= j < |log| ==> log[j] in log;
      }
      assert TrueAt(cfg, m0, log, k + 1);
      EqualCarries(EntryOf(cfg, i), log[k + 1].answer.value, Held(m0.working, cfg.params[i].command),
                   cfg.params[i].value);
    }
  }

  /** How an uninterrupted honest run can end. */
  lemma UninterruptedEnds(cfg: Config, m0: Module, left: Engine, inputs: seq<Input>)
    requires cfg.params != [] && ProvisionEndToEnd.SomethingReadable(cfg)
    requires HonestRun(cfg, m0, Start(left, false), inputs)
    requires forall input :: input in inputs ==> input.Pass?
    requires RunOf(cfg, Start(left, false), inputs).engine.phase.Done?
    ensures var o := RunOf(cfg, Start(left, false), inputs).engine.outcome;
      o.AlreadyProvisioned? || ProvisionAudit.Verified(o)
  {
    ProvisionEndToEnd.HonestRunsKeep(cfg, m0, left, false, inputs);
    ProvisionEndToEnd.OutcomeIsReal(cfg, left, false, inputs);
    ProvisionEndToEnd.PassesNeverAbort(cfg, left, false, inputs);
  }

  /** A verified result means that something did deviate. */
  lemma VerifiedFoundSomething(cfg: Config, m0: Module, left: Engine, review: bool, inputs: seq<Input>)
    returns (i: nat)
    requires cfg.params != [] && ProvisionEndToEnd.SomethingReadable(cfg)
    requires HonestRun(cfg, m0, Start(left, review), inputs)
    requires var run := RunOf(cfg, Start(left, review), inputs);
      run.engine.phase.Done? && ProvisionAudit.Verified(run.engine.outcome) && AuditHeard(run.events)
    ensures i < |cfg.params| && Deviates(cfg, m0, i)
  {
    var run := RunOf(cfg, Start(left, review), inputs);
    ProvisionAudit.MarksAreTheAudit(cfg, left, review, inputs);
    HonestRunsAreCredible(cfg, m0, left, review, inputs);
    VerifiedIsCredible(cfg, m0, run.engine, run.events);
    MarksAreDeviations(cfg, m0, run.engine, run.events);
    i :| i in run.engine.differs;
  }

  lemma NothingToDoMeansRight(cfg: Config, m0: Module, left: Engine, inputs: seq<Input>, i: nat)
    requires cfg.params != [] && ProvisionEndToEnd.SomethingReadable(cfg)
    requires HonestRun(cfg, m0, Start(left, false), inputs)
    requires forall input :: input in inputs ==> input.Pass?
    requires var run := RunOf(cfg, Start(left, false), inputs);
      run.engine.phase.Done? && run.engine.outcome.AlreadyProvisioned? && AuditHeard(run.events)
    requires i < |cfg.params|
    ensures !Deviates(cfg, m0, i)
  {
    var run := RunOf(cfg, Start(left, false), inputs);
    HonestRunsAreCredible(cfg, m0, left, false, inputs);
    ProvisionEndToEnd.PassesNeverAbort(cfg, left, false, inputs);
    ProvisionPass.AlreadyProvisionedOnlyReads(cfg, false, run);
    CleanMeansRight(cfg, m0, run.events, i);
  }

  /**
   End to end, on what is known before the run. Against an honest module that answers the audit, if
   the restored defaults will do, an uninterrupted run without a review is done after a bounded
   number of passes: it has written if the module could be read to deviate from the configuration
   anywhere, and flash then holds the configuration for every entry, readable or not; otherwise it
   has found nothing to do.
   */
  lemma ProvisionsAsForecast(cfg: Config, m0: Module, left: Engine, inputs: seq<Input>)
    requires cfg.params != [] && ProvisionEndToEnd.SomethingReadable(cfg)
    requires Configured(cfg) && DefaultsWillDo(cfg, m0)
    requires HonestRun(cfg, m0, Start(left, false), inputs)
    requires forall input :: input in inputs ==> input.Pass?
    requires ProvisionTermination.Prompt(cfg, Start(left, false), inputs)
    requires |inputs| >= 26 * (|cfg.params| + 2)
    requires AuditHeard(RunOf(cfg, Start(left, false), inputs).events)
    ensures var run := RunOf(cfg, Start(left, false), inputs);
      && run.engine.phase.Done?
      && ((exists i :: 0 <= i < |cfg.params| && Deviates(cfg, m0, i)) ==> run.engine.outcome.Written?)
      && ((forall i :: 0 <= i < |cfg.params| ==> !Deviates(cfg, m0, i)) ==> run.engine.outcome.AlreadyProvisioned?)
      && (run.engine.outcome.Written? ==> Matches(cfg, Effects(cfg, m0, run.events).flash))
  {
    var run := RunOf(cfg, Start(left, false), inputs);
    ProvisionTermination.RunsAreBounded(cfg, left, false, inputs);
    UninterruptedEnds(cfg, m0, left, inputs);
    if run.engine.outcome.AlreadyProvisioned? {
      forall i | 0 <= i < |cfg.params|
        ensures !Deviates(cfg, m0, i)
      {
        NothingToDoMeansRight(cfg, m0, left, inputs, i);
      }
    } else {
      var i := VerifiedFoundSomething(cfg, m0, left, false, inputs);
      SkippedIsForeseen(cfg, m0, left, false, inputs);
      assert DefaultsAgree(cfg, Restored(cfg, m0), run.engine.differs);
      ProvisionEndToEnd.HonestRunsSucceed(cfg, m0, left, false, inputs);
    }
  }
}

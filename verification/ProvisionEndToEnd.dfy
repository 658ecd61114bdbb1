/** What a whole provisioning run leaves in an honest module. */
module ProvisionEndToEnd {
  import opened AtTable
  import opened ProvisionEngine
  import opened ProvisionModule
  import ProvisionPass
  import ProvisionTermination
  import ProvisionTrace

  /** Something in the table can be read. */
  predicate SomethingReadable(cfg: Config) { NextReadable(cfg, 0) < |cfg.params| }

  lemma {:induction false} HonestRunsKeep(cfg: Config, m0: Module, left: Engine, review: bool, inputs: seq<Input>)
    requires cfg.params != [] && SomethingReadable(cfg)
    requires HonestRun(cfg, m0, Start(left, review), inputs)
    ensures var s := RunOf(cfg, Start(left, review), inputs);
      s.engine in States(cfg, m0, Effects(cfg, m0, s.events))
  {
    if inputs == [] {
    } else {
      var init := inputs[..|inputs| - 1];
      var start := Start(left, review);
      HonestRunsKeep(cfg, m0, left, review, init);
      var before := RunOf(cfg, start, init);
      ProvisionTrace.RunsAreOrderly(cfg, left, review, init);
      OpenAbortsAreEarly(cfg, before.engine, ProvisionTrace.Steps(review, ProvisionTrace.BEGIN, before.events));
      ReactKeeps(cfg, m0, Effects(cfg, m0, before.events), before.engine, inputs[|inputs| - 1]);
      EffectsAppend(cfg, m0, before.events, React(cfg, before.engine, inputs[|inputs| - 1]).events);
    }
  }

  lemma OpenAbortsAreEarly(cfg: Config, e: Engine, st: ProvisionTrace.Stage)
    requires ProvisionTrace.Linked(cfg, e, st)
    ensures e.abortRequested && e.phase.Open? ==> !e.verifying
  {
  }

  /**
   All or nothing: an honest run that is done has either put the whole image of the configuration
   into flash, and the module runs on it, or left the stored values exactly as they were.
   */
  lemma AllOrNothing(cfg: Config, m0: Module, left: Engine, review: bool, inputs: seq<Input>)
    requires cfg.params != [] && SomethingReadable(cfg)
    requires HonestRun(cfg, m0, Start(left, review), inputs)
    requires RunOf(cfg, Start(left, review), inputs).engine.phase.Done?
    ensures var run := RunOf(cfg, Start(left, review), inputs);
      var m := Effects(cfg, m0, run.events);
      var image := Image(cfg, run.engine.differs, Restored(cfg, m0), |cfg.params|);
      match run.engine.outcome
      case Written | WrittenWithDifferences | FailVerify => m.flash == image && m.working == image
      case AlreadyProvisioned | Aborted => m == m0
      case Declined | FailReview => m.flash == m0.flash && m.working == m0.flash
      case _ => false
  {
    var run := RunOf(cfg, Start(left, review), inputs);
    HonestRunsKeep(cfg, m0, left, review, inputs);
    OutcomeIsReal(cfg, left, review, inputs);
    DoneLeaves(cfg, m0, run.engine, Effects(cfg, m0, run.events));
  }

  lemma DoneLeaves(cfg: Config, m0: Module, e: Engine, m: Module)
    requires e in States(cfg, m0, m) && e.phase.Done? && !e.outcome.Running?
    ensures LeftBy(cfg, m0, e, m, e.outcome)
  {
  }

  /** A finished run has a result. */
  lemma OutcomeIsReal(cfg: Config, left: Engine, review: bool, inputs: seq<Input>)
    requires cfg.params != []
    requires RunOf(cfg, Start(left, review), inputs).engine.phase.Done?
    ensures !RunOf(cfg, Start(left, review), inputs).engine.outcome.Running?
  {
    var run := RunOf(cfg, Start(left, review), inputs);
    ProvisionTrace.RunsAreOrderly(cfg, left, review, inputs);
    ResultOfLinked(cfg, run.engine, ProvisionTrace.Steps(review, ProvisionTrace.BEGIN, run.events));
  }

  lemma ResultOfLinked(cfg: Config, e: Engine, st: ProvisionTrace.Stage)
    requires ProvisionTrace.Linked(cfg, e, st) && e.phase.Done?
    ensures !e.outcome.Running?
  {
  }

  /** Passes never ask for an abort. */
  lemma {:induction false} PassesNeverAbort(cfg: Config, left: Engine, review: bool, inputs: seq<Input>)
    requires cfg.params != []
    requires forall input :: input in inputs ==> input.Pass?
    ensures var e := RunOf(cfg, Start(left, review), inputs).engine; !e.abortRequested && e.review == review
  {
    if inputs == [] {
    } else {
      var init := inputs[..|inputs| - 1];
      PassesNeverAbort(cfg, left, review, init);
      PassKeepsRun(cfg, RunOf(cfg, Start(left, review), init).engine, inputs[|inputs| - 1]);
    }
  }

  lemma PassKeepsRun(cfg: Config, e: Engine, input: Input)
    requires InRange(cfg, e) && input.Pass?
    ensures SameRun(e, React(cfg, e, input).engine)
  {
  }

  /**
   With a configuration the module's defaults agree with wherever they can be read, an honest run
   never fails: it writes, finds nothing to do, or stops because the host said so. What it wrote
   is the configuration if the defaults agree everywhere.
   */
  lemma HonestRunsSucceed(cfg: Config, m0: Module, left: Engine, review: bool, inputs: seq<Input>)
    requires cfg.params != [] && SomethingReadable(cfg)
    requires HonestRun(cfg, m0, Start(left, review), inputs)
    requires RunOf(cfg, Start(left, review), inputs).engine.phase.Done?
    requires ReadsBack(cfg, m0, RunOf(cfg, Start(left, review), inputs).engine.differs)
    ensures var run := RunOf(cfg, Start(left, review), inputs);
      && (run.engine.outcome in {Written, AlreadyProvisioned, Aborted, Declined})
      && (run.engine.outcome.Aborted? ==> run.engine.abortRequested)
      && (run.engine.outcome.Declined? ==> run.engine.review)
      && (run.engine.outcome.Written? && Reproducible(cfg, m0, run.engine.differs) ==>
            Matches(cfg, Effects(cfg, m0, run.events).flash))
  {
    var run := RunOf(cfg, Start(left, review), inputs);
    HonestRunsKeep(cfg, m0, left, review, inputs);
    OutcomeIsReal(cfg, left, review, inputs);
    EndingOfStates(cfg, m0, Effects(cfg, m0, run.events), run.engine);
  }

  lemma EndingOfStates(cfg: Config, m0: Module, m: Module, e: Engine)
    requires e in States(cfg, m0, m) && e.phase.Done? && !e.outcome.Running?
    requires ReadsBack(cfg, m0, e.differs)
    ensures e.outcome in {Written, AlreadyProvisioned, Aborted, Declined}
    ensures e.outcome.Aborted? ==> e.abortRequested
    ensures e.outcome.Declined? ==> e.review
    ensures e.outcome.Written? && Reproducible(cfg, m0, e.differs) ==> Matches(cfg, m.flash)
  {
    if Reproducible(cfg, m0, e.differs) {
      ImageMatches(cfg, m0, e.differs);
    }
  }

  /** The module answered a read of this table entry with a value that is not the configured one. */
  ghost predicate FoundMismatch(cfg: Config, log: seq<Event>, k: nat)
  {
    && k + 1 < |log| && log[k].Get? && log[k].index < |cfg.params| && log[k + 1].Reply?
    && ProvisionPass.Contradicts(cfg, [], log[k].index, log[k + 1].answer)
  }

  lemma NothingToDoMeansNoMismatch(cfg: Config, log: seq<Event>, k: nat)
    requires ProvisionPass.CleanPass(cfg, [], log)
    ensures !FoundMismatch(cfg, log, k)
  {
    if FoundMismatch(cfg, log, k) {
      var seg := if log[|log| - 1].Exit? then log[..|log| - 1] else log;
      assert ProvisionPass.IsPass(cfg, [], {}, seg, |cfg.params|) by {
        if ProvisionPass.IsPass(cfg, [], {}, log, |cfg.params|) {
          ProvisionPass.PassAsksBelow(cfg, [], {}, log, |cfg.params|);
        }
      }
      ProvisionPass.PassAsksBelow(cfg, [], {}, seg, |cfg.params|);
      assert seg[k] == log[k] && seg[k + 1] == log[k + 1];
      var at := ProvisionPass.PassAnswersFor(cfg, [], {}, seg, |cfg.params|, log[k].index);
    }
  }

  /**
   End to end. Against an honest module, a run without a review that nothing holds up is done
   after a bounded number of passes; if a read found a mismatch it ends written, and flash then
   holds the configuration for every entry, the unreadable ones included.
   */
  lemma ProvisionsEndToEnd(cfg: Config, m0: Module, left: Engine, inputs: seq<Input>)
    requires cfg.params != [] && SomethingReadable(cfg)
    requires HonestRun(cfg, m0, Start(left, false), inputs)
    requires forall input :: input in inputs ==> input.Pass?
    requires ProvisionTermination.Prompt(cfg, Start(left, false), inputs)
    requires |inputs| >= 26 * (|cfg.params| + 2)
    requires Reproducible(cfg, m0, RunOf(cfg, Start(left, false), inputs).engine.differs)
    ensures var run := RunOf(cfg, Start(left, false), inputs);
      && run.engine.phase.Done?
      && (run.engine.outcome.Written? || run.engine.outcome.AlreadyProvisioned?)
      && ((exists k: nat :: FoundMismatch(cfg, run.events, k)) ==> run.engine.outcome.Written?)
      && (run.engine.outcome.Written? ==> Matches(cfg, Effects(cfg, m0, run.events).flash))
  {
    var run := RunOf(cfg, Start(left, false), inputs);
    ProvisionTermination.RunsAreBounded(cfg, left, false, inputs);
    HonestRunsSucceed(cfg, m0, left, false, inputs);
    PassesNeverAbort(cfg, left, false, inputs);
    if k: nat :| FoundMismatch(cfg, run.events, k) {
      if run.engine.outcome.AlreadyProvisioned? {
        ProvisionPass.AlreadyProvisionedOnlyReads(cfg, false, run);
        NothingToDoMeansNoMismatch(cfg, run.events, k);
      }
    }
  }

  /**
   The condition is exact: flash written from this image matches the configuration if and only if
   the restored value of every skipped entry is the entry's default in the command table.
   */
  lemma MatchesExactlyWhenDefaultsAgree(cfg: Config, m0: Module, differs: set<nat>)
    requires Configured(cfg)
    ensures Matches(cfg, Image(cfg, differs, Restored(cfg, m0), |cfg.params|))
       <==> DefaultsAgree(cfg, Restored(cfg, m0), differs)
  {
    var restored := Restored(cfg, m0);
    var image := Image(cfg, differs, restored, |cfg.params|);
    if Matches(cfg, image) {
      forall i | 0 <= i < |cfg.params| && Skipped(cfg, differs, i)
        ensures IsDefault(EntryOf(cfg, i), Held(restored, cfg.params[i].command))
      {
        ImageHolds(cfg, differs, restored, |cfg.params|, i);
        EqualIsSymmetric(EntryOf(cfg, i), Held(image, cfg.params[i].command), cfg.params[i].value);
        DefaultIsAClass(EntryOf(cfg, i), cfg.params[i].value, Held(restored, cfg.params[i].command));
      }
    } else if DefaultsAgree(cfg, restored, differs) {
      ImageMatches(cfg, m0, differs);
    }
  }
}

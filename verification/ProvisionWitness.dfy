/**
 Runs that exist: for every configuration and every module with readable values there is an honest
 run that nothing holds up, so what is proved of such runs is never empty; and a write-only key
 that such a run leaves wrong while it reports success.
 */
module ProvisionWitness {
  import opened Base
  import opened AtTable
  import opened ProvisionEngine
  import opened ProvisionModule
  import opened ProvisionForecast
  import ProvisionTrace

  /** Every value the module could be asked for is one it can report. */
  predicate Reportable(cfg: Config, values: Values)
  {
    forall i :: 0 <= i < |cfg.params| && Readable(cfg, i) ==>
      var held := Held(values, cfg.params[i].command); ValuesEqual(EntryOf(cfg, i), held, held)
  }

  predicate Sensible(cfg: Config, m: Module)
  {
    Reportable(cfg, m.working) && Reportable(cfg, m.flash) && Reportable(cfg, m.factory) && Reportable(cfg, m.custom)
  }

  lemma ApplyKeepsSensible(cfg: Config, m: Module, ev: Event)
    requires Configured(cfg) && Sensible(cfg, m)
    ensures Sensible(cfg, Apply(cfg, m, ev))
  {
    if ev.Put? && ev.index < |cfg.params| {
      var p := cfg.params[ev.index];
      SettableIsComparable(cfg.entries, p.command, p.value);
      forall i | 0 <= i < |cfg.params| && Readable(cfg, i)
        ensures var held := Held(m.working[p.command := p.value], cfg.params[i].command);
          ValuesEqual(EntryOf(cfg, i), held, held)
      {
      }
    }
  }

  lemma {:induction false} EffectsKeepSensible(cfg: Config, m: Module, log: seq<Event>)
    requires Configured(cfg) && Sensible(cfg, m)
    ensures Sensible(cfg, Effects(cfg, m, log))
    decreases |log|
  {
    if log == [] {
    } else {
      ApplyKeepsSensible(cfg, m, log[0]);
      EffectsKeepSensible(cfg, Apply(cfg, m, log[0]), log[1..]);
    }
  }

  /** A world in which everything goes well and the module says what it holds. */
  function Obliging(cfg: Config, e: Engine, m: Module): (w: World)
    requires InRange(cfg, e)
  {
    World(0, Some(TrueAnswer(cfg, e, m)), false, true, cfg.mode, true, Opened, !e.phase.Close?, true, true, true, 0, 0)
  }

  function TrueAnswer(cfg: Config, e: Engine, m: Module): (a: Answer)
    requires InRange(cfg, e)
  {
    if e.phase.Audit? || e.phase.Review? then Answer(true, Held(m.working, cfg.params[e.index].command))
    else if e.phase.Restore? then Answer(AcceptsRestore(cfg, m, e.fellBack), [])
    else Answer(true, [])
  }

  lemma ObligingIsHonest(cfg: Config, m0: Module, e: Engine, m: Module)
    requires e in States(cfg, m0, m) && Sensible(cfg, m)
    ensures Honest(cfg, e, m, Obliging(cfg, e, m))
  {
  }

  lemma ObligingMoves(cfg: Config, e: Engine, m: Module, st: ProvisionTrace.Stage)
    requires InRange(cfg, e) && ProvisionTrace.Linked(cfg, e, st) && !e.review && !e.phase.Done?
    ensures ProvisionTermination.IsMove(e, Pass(Obliging(cfg, e, m)))
  {
  }

  /** The run in which every pass meets an obliging world. */
  function ObligingRun(cfg: Config, m0: Module, left: Engine, n: nat): (inputs: seq<Input>)
    requires cfg.params != []
    ensures |inputs| == n
  {
    if n == 0 then []
    else
      var init := ObligingRun(cfg, m0, left, n - 1);
      var before := RunOf(cfg, Start(left, false), init);
      init + [Pass(Obliging(cfg, before.engine, Effects(cfg, m0, before.events)))]
  }

  lemma {:induction false} ObligingRunsArePasses(cfg: Config, m0: Module, left: Engine, n: nat)
    requires cfg.params != []
    ensures forall input :: input in ObligingRun(cfg, m0, left, n) ==> input.Pass?
  {
    if n == 0 {
    } else {
      ObligingRunsArePasses(cfg, m0, left, n - 1);
    }
  }

  lemma {:induction false} ObligingRunsAreHonest(cfg: Config, m0: Module, left: Engine, n: nat)
    requires cfg.params != [] && ProvisionEndToEnd.SomethingReadable(cfg)
    requires Configured(cfg) && Sensible(cfg, m0)
    ensures HonestRun(cfg, m0, Start(left, false), ObligingRun(cfg, m0, left, n))
  {
    if n == 0 {
    } else {
      var init := ObligingRun(cfg, m0, left, n - 1);
      var before := RunOf(cfg, Start(left, false), init);
      var m := Effects(cfg, m0, before.events);
      ObligingRunsAreHonest(cfg, m0, left, n - 1);
      ProvisionEndToEnd.HonestRunsKeep(cfg, m0, left, false, init);
      EffectsKeepSensible(cfg, m0, before.events);
      ObligingIsHonest(cfg, m0, before.engine, m);
      OneMoreInput(init, Pass(Obliging(cfg, before.engine, m)));
    }
  }

  lemma OneMoreInput(init: seq<Input>, last: Input)
    ensures (init + [last])[..|init + [last]| - 1] == init && (init + [last])[|init + [last]| - 1] == last
  {
  }

  lemma {:induction false} ObligingRunsArePrompt(cfg: Config, m0: Module, left: Engine, n: nat)
    requires cfg.params != []
    ensures ProvisionTermination.Prompt(cfg, Start(left, false), ObligingRun(cfg, m0, left, n))
  {
    if n == 0 {
    } else {
      var init := ObligingRun(cfg, m0, left, n - 1);
      var before := RunOf(cfg, Start(left, false), init);
      var m := Effects(cfg, m0, before.events);
      ObligingRunsArePrompt(cfg, m0, left, n - 1);
      ProvisionTrace.RunsAreOrderly(cfg, left, false, init);
      if !before.engine.phase.Done? {
        ObligingMoves(cfg, before.engine, m, ProvisionTrace.Steps(false, ProvisionTrace.BEGIN, before.events));
      }
      OneMoreInput(init, Pass(Obliging(cfg, before.engine, m)));
    }
  }

  // ---------------------------------------------------------------------------
  // Every read of the audit is answered

  lemma HeardGrows(log: seq<Event>, events: seq<Event>)
    requires AuditHeard(log) && NoReply(events)
    ensures AuditHeard(log + events)
  {
    var all := log + events;
    forall k: nat | |log| <= k < |all|
      ensures !all[k].Reply?
    {
      assert all[k] in events;
    }
    forall k: nat | k < |all| && all[k].Reply? && Auditing(all, k)
      ensures all[k].answer.ok
    {
      assert Auditing(log, k) by {
        assert forall j :: 0 <= j < k && j < |log| ==> all[j] == log[j];
      }
    }
  }

  lemma ReplyIsHeard(log: seq<Event>, a: Answer)
    requires AuditHeard(log) && (a.ok || !Auditing(log + [Reply(a)], |log|))
    ensures AuditHeard(log + [Reply(a)])
  {
    var all := log + [Reply(a)];
    forall k: nat | k < |all| && all[k].Reply? && Auditing(all, k)
      ensures all[k].answer.ok
    {
      if k < |log| {
        assert Auditing(log, k) by {
          assert forall j :: 0 <= j < k ==> all[j] == log[j];
        }
      }
    }
  }

  lemma ReplyThenOthersAreHeard(log: seq<Event>, reply: Event, events: seq<Event>)
    requires AuditHeard(log + [reply]) && NoReply(events)
    ensures AuditHeard(log + ([reply] + events))
  {
    HeardGrows(log + [reply], events);
    assert log + ([reply] + events) == log + [reply] + events;
  }

  lemma PassIsHeard(cfg: Config, e: Engine, m: Module, log: seq<Event>)
    requires e in ProvisionAudit.States(cfg, log) && AuditHeard(log)
    ensures AuditHeard(log + React(cfg, e, Pass(Obliging(cfg, e, m))).events)
  {
    var w := Obliging(cfg, e, m);
    if e.active && !e.phase.Idle? {
      var a := TrueAnswer(cfg, e, m);
      if !a.ok {
        AuditedIsNotAuditing(cfg, e.differs, log, Reply(a));
      }
      ReplyIsHeard(log, a);
      HandlersDoNotReply(cfg, e.(active := false), w, a);
      ReplyThenOthersAreHeard(log, Reply(a), ProcessAnswer(cfg, e.(active := false), w, a).events);
    } else {
      if !e.active {
        QuietPassesDoNotReply(cfg, e, w);
      }
      HeardGrows(log, React(cfg, e, Pass(w)).events);
    }
  }

  lemma {:induction false} ObligingRunsAreHeard(cfg: Config, m0: Module, left: Engine, n: nat)
    requires cfg.params != []
    ensures AuditHeard(RunOf(cfg, Start(left, false), ObligingRun(cfg, m0, left, n)).events)
  {
    if n == 0 {
    } else {
      var init := ObligingRun(cfg, m0, left, n - 1);
      var before := RunOf(cfg, Start(left, false), init);
      ObligingRunsAreHeard(cfg, m0, left, n - 1);
      ProvisionAudit.MarksAreTheAudit(cfg, left, false, init);
      PassIsHeard(cfg, before.engine, Effects(cfg, m0, before.events), before.events);
      ObligingRunGoesOn(cfg, m0, left, n - 1);
    }
  }

  lemma ObligingRunGoesOn(cfg: Config, m0: Module, left: Engine, n: nat)
    requires cfg.params != []
    ensures var before := RunOf(cfg, Start(left, false), ObligingRun(cfg, m0, left, n));
      var w := Obliging(cfg, before.engine, Effects(cfg, m0, before.events));
      RunOf(cfg, Start(left, false), ObligingRun(cfg, m0, left, n + 1)).events
      == before.events + React(cfg, before.engine, Pass(w)).events
  {
    var init := ObligingRun(cfg, m0, left, n);
    var before := RunOf(cfg, Start(left, false), init);
    OneMoreInput(init, Pass(Obliging(cfg, before.engine, Effects(cfg, m0, before.events))));
  }

  // ---------------------------------------------------------------------------
  // What such a run leaves

  /** The restored defaults are the table's, for every entry that will be left to them and can be read. */
  predicate DefaultsReadBack(cfg: Config, m0: Module)
  {
    forall i :: 0 <= i < |cfg.params| && LeftToDefault(cfg, m0, i) && Readable(cfg, i) ==>
      IsDefault(EntryOf(cfg, i), Held(Restored(cfg, m0), cfg.params[i].command))
  }

  /**
   The forecast can fail: wherever the module deviates somewhere and the defaults read back, there is
   an honest run that ends written, and it has reproduced the configuration if and only if the
   restored defaults will do for the entries nobody can read as well.
   */
  lemma SomeRunWrites(cfg: Config, m0: Module, left: Engine) returns (inputs: seq<Input>)
    requires cfg.params != [] && ProvisionEndToEnd.SomethingReadable(cfg)
    requires Configured(cfg) && Sensible(cfg, m0) && DefaultsReadBack(cfg, m0)
    requires exists i :: 0 <= i < |cfg.params| && Deviates(cfg, m0, i)
    ensures HonestRun(cfg, m0, Start(left, false), inputs)
    ensures var run := RunOf(cfg, Start(left, false), inputs);
      && run.engine.phase.Done? && run.engine.outcome.Written?
      && (Matches(cfg, Effects(cfg, m0, run.events).flash) <==> DefaultsWillDo(cfg, m0))
  {
    var n := 26 * (|cfg.params| + 2);
    inputs := ObligingRun(cfg, m0, left, n);
    var run := RunOf(cfg, Start(left, false), inputs);
    ObligingRunsArePasses(cfg, m0, left, n);
    ObligingRunsAreHonest(cfg, m0, left, n);
    ObligingRunsArePrompt(cfg, m0, left, n);
    ObligingRunsAreHeard(cfg, m0, left, n);
    ProvisionTermination.RunsAreBounded(cfg, left, false, inputs);
    UninterruptedEnds(cfg, m0, left, inputs);
    if run.engine.outcome.AlreadyProvisioned? {
      var i :| 0 <= i < |cfg.params| && Deviates(cfg, m0, i);
      NothingToDoMeansRight(cfg, m0, left, inputs, i);
    }
    SkippedIsForeseen(cfg, m0, left, false, inputs);
    assert ReadsBack(cfg, m0, run.engine.differs);
    ProvisionEndToEnd.HonestRunsSucceed(cfg, m0, left, false, inputs);
    WrittenMatchesExactly(cfg, m0, left, false, inputs);
  }

  // ---------------------------------------------------------------------------
  // The case of a key

  const LEVEL := Entry(1, U8, false, false, false, false, 1, 0, 255, 4)
  const KEY := Entry(2, Bytes, false, true, false, false, 16, 0, 0, 0)

  /** A number that can be read, and a key that can only be written and is to be at its default, none. */
  const KEYED := Config([LEVEL, KEY], [Param(1, [2]), Param(2, [0])], true, Transparent)

  /** A module with another number, whose factory defaults bring back a key. */
  const MODULE := Module(map[1 := [3], 2 := [7]], map[1 := [3], 2 := [7]], map[1 := [4], 2 := [7]], map[], true)

  lemma KeyedIsConfigured()
    ensures KEYED.params != [] && Configured(KEYED) && ProvisionEndToEnd.SomethingReadable(KEYED)
    ensures EntryOf(KEYED, 0) == Some(LEVEL) && EntryOf(KEYED, 1) == Some(KEY)
    ensures Readable(KEYED, 0) && !Readable(KEYED, 1)
  {
    assert Find(KEYED.entries, 1) == Some(LEVEL);
    assert KEYED.entries[1..] == [KEY] && Find([KEY], 2) == Some(KEY);
    assert ToU64([2]) == Some(2) by {
      assert [2][..0] == [];
    }
  }

  lemma Numbers()
    ensures ToU64([2]) == Some(2) && ToU64([3]) == Some(3) && ToU64([4]) == Some(4)
  {
    assert [2][..0] == [] && [3][..0] == [] && [4][..0] == [];
  }

  /**
   The input on which the configuration is not reproduced: an honest run over this table ends
   written, and the key in flash is not the configured one.
   */
  lemma WrittenWithTheWrongKey(left: Engine) returns (inputs: seq<Input>)
    ensures HonestRun(KEYED, MODULE, Start(left, false), inputs)
    ensures var run := RunOf(KEYED, Start(left, false), inputs);
      && run.engine.phase.Done? && run.engine.outcome.Written?
      && !Matches(KEYED, Effects(KEYED, MODULE, run.events).flash)
  {
    KeyedIsConfigured();
    Numbers();
    assert Deviates(KEYED, MODULE, 0) && LeftToDefault(KEYED, MODULE, 1);
    assert !IsDefault(Some(KEY), [7]) by {
      assert [7][0] == 7;
    }
    inputs := SomeRunWrites(KEYED, MODULE, left);
  }
}

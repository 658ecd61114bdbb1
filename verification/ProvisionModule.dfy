/**
 A provisioning run against an honest module.

 The module has a working configuration, a stored one, and the defaults its two restore commands
 bring back. What the run does to it is a function of the log; what it reports is constrained by
 what it holds. A read may still fail, and R1 may still be refused.
 */
module ProvisionModule {
  import opened Base
  import opened Ticks
  import opened AtTable
  import opened ProvisionEngine

  type Values = map<nat, seq<Byte>>

  datatype Module = Module(
    working: Values,
    flash: Values,
    factory: Values,  // what R1 restores
    custom: Values,   // what RE restores
    takesR1: bool     // this firmware knows R1
  )

  function Held(values: Values, command: nat): (value: seq<Byte>)
  {
    if command in values then values[command] else []
  }

  /** What an accepted event does to the module. */
  function Apply(cfg: Config, m: Module, ev: Event): (r: Module)
    ensures r.factory == m.factory && r.custom == m.custom && r.takesR1 == m.takesR1
  {
    match ev
    case Put(i) =>
      if i < |cfg.params| then m.(working := m.working[cfg.params[i].command := cfg.params[i].value]) else m
    case Run(R1) => if m.takesR1 then m.(working := m.factory) else m
    case Run(RE) => m.(working := m.custom)
    case Run(WR) => m.(flash := m.working)
    case HwReset => m.(working := m.flash)
    case _ => m
  }

  function Effects(cfg: Config, m: Module, log: seq<Event>): (r: Module)
    ensures r.factory == m.factory && r.custom == m.custom && r.takesR1 == m.takesR1
    decreases |log|
  {
    if log == [] then m else Effects(cfg, Apply(cfg, m, log[0]), log[1..])
  }

  lemma {:induction false} EffectsAppend(cfg: Config, m: Module, a: seq<Event>, b: seq<Event>)
    ensures Effects(cfg, m, a + b) == Effects(cfg, Effects(cfg, m, a), b)
    decreases |a|
  {
    if a == [] {
      assert a + b == b;
    } else {
      assert (a + b)[0] == a[0] && (a + b)[1..] == a[1..] + b;
      EffectsAppend(cfg, Apply(cfg, m, a[0]), a[1..], b);
    }
  }

  lemma EffectOfOne(cfg: Config, m: Module, ev: Event)
    ensures Effects(cfg, m, [ev]) == Apply(cfg, m, ev)
  {
    assert [ev][1..] == [];
  }

  lemma {:induction false} ReportsChangeNothing(cfg: Config, m: Module, reports: seq<Event>)
    requires forall k :: 0 <= k < |reports| ==> reports[k].Report?
    ensures Effects(cfg, m, reports) == m
    decreases |reports|
  {
    if reports == [] {
    } else {
      ReportsChangeNothing(cfg, m, reports[1..]);
    }
  }

  // ---------------------------------------------------------------------------
  // Honesty

  predicate AcceptsRestore(cfg: Config, m: Module, fallback: bool)
  {
    RestoreCommand(cfg, fallback).R1? ==> m.takesR1
  }

  /** A read fails or reports what is held; R1 succeeds on a firmware that has it; the rest succeeds. */
  predicate HonestAnswer(cfg: Config, e: Engine, m: Module, a: Answer)
    requires InRange(cfg, e)
  {
    match e.phase
    case Audit | Review =>
      a.ok ==> ValuesEqual(EntryOf(cfg, e.index), a.value, Held(m.working, cfg.params[e.index].command))
    case Restore => a.ok <==> AcceptsRestore(cfg, m, e.fellBack)
    case Write | Commit => a.ok
    case _ => true
  }

  /** Nothing is refused, sessions open, stay open and close in time, and the module is honest. */
  predicate Honest(cfg: Config, e: Engine, m: Module, w: World)
    requires InRange(cfg, e)
  {
    && w.submits && w.resets && w.opens && !w.failed && !w.opening.NotOpened?
    && (e.verifying ==> w.mode == cfg.mode)
    && (e.phase.AwaitDecision? ==> w.sessionOpen)
    && (e.phase.Close? && w.sessionOpen ==> !Reached(w.now, e.closeDeadline))
    && (e.active && w.answer.Some? ==> HonestAnswer(cfg, e, m, w.answer.value))
  }

  /** Every pass of the run met an honest world. Aborts and decisions may come at any time. */
  predicate HonestRun(cfg: Config, m0: Module, start: Engine, inputs: seq<Input>)
    requires InRange(cfg, start)
  {
    inputs == []
    || (var init, last := inputs[..|inputs| - 1], inputs[|inputs| - 1];
        var before := RunOf(cfg, start, init);
        && HonestRun(cfg, m0, start, init)
        && (last.Pass? ==> Honest(cfg, before.engine, Effects(cfg, m0, before.events), last.world)))
  }

  // ---------------------------------------------------------------------------
  // What a run leaves behind

  /** The defaults the run's restore brings back. */
  function Restored(cfg: Config, m: Module): (values: Values)
  {
    if cfg.factoryRestore && m.takesR1 then m.factory else m.custom
  }

  /** Restored values overwritten with the first `n` configured ones, except the skipped. */
  function Image(cfg: Config, differs: set<nat>, restored: Values, n: nat): (values: Values)
    requires n <= |cfg.params|
  {
    if n == 0 then restored
    else
      var before := Image(cfg, differs, restored, n - 1);
      if Skipped(cfg, differs, n - 1) then before
      else before[cfg.params[n - 1].command := cfg.params[n - 1].value]
  }

  lemma {:induction false} ImageSkips(cfg: Config, differs: set<nat>, restored: Values, from: nat, to: nat)
    requires from <= to <= |cfg.params|
    requires forall k :: from <= k < to ==> Skipped(cfg, differs, k)
    ensures Image(cfg, differs, restored, to) == Image(cfg, differs, restored, from)
  {
    if from == to {
    } else {
      ImageSkips(cfg, differs, restored, from, to - 1);
    }
  }

  predicate DistinctCommands(cfg: Config)
  {
    forall i, j :: 0 <= i < j < |cfg.params| ==> cfg.params[i].command != cfg.params[j].command
  }

  /** An entry of the image is the configured value, or the restored one where it was skipped. */
  lemma {:induction false} ImageHolds(cfg: Config, differs: set<nat>, restored: Values, n: nat, i: nat)
    requires i < |cfg.params| && n <= |cfg.params| && DistinctCommands(cfg)
    ensures Held(Image(cfg, differs, restored, n), cfg.params[i].command)
         == if i < n && !Skipped(cfg, differs, i) then cfg.params[i].value
            else Held(restored, cfg.params[i].command)
  {
    if n == 0 {
    } else {
      ImageHolds(cfg, differs, restored, n - 1, i);
    }
  }

  /** A configuration the firmware accepts: comparable, settable values for distinct commands. */
  predicate Configured(cfg: Config)
  {
    && WellFormed(cfg.entries) && DistinctCommands(cfg)
    && forall i :: 0 <= i < |cfg.params| ==>
         ValidateSet(cfg.entries, cfg.params[i].command, cfg.params[i].value) == Accepted
  }

  /** For every skipped entry the module's default really is the one in the table. */
  predicate DefaultsAgree(cfg: Config, restored: Values, differs: set<nat>)
  {
    forall i :: 0 <= i < |cfg.params| && Skipped(cfg, differs, i) ==>
      IsDefault(EntryOf(cfg, i), Held(restored, cfg.params[i].command))
  }

  /** The restore and the writes together reproduce the configuration. */
  predicate Reproducible(cfg: Config, m0: Module, differs: set<nat>)
  {
    Configured(cfg) && DefaultsAgree(cfg, Restored(cfg, m0), differs)
  }

  /** What a run can read back will be the configuration, whatever happens to entries nobody can read. */
  predicate ReadsBack(cfg: Config, m0: Module, differs: set<nat>)
  {
    Configured(cfg)
    && forall i :: 0 <= i < |cfg.params| && Skipped(cfg, differs, i) && Readable(cfg, i) ==>
         IsDefault(EntryOf(cfg, i), Held(Restored(cfg, m0), cfg.params[i].command))
  }

  /** The values held are the configured ones, for every entry, readable or not. */
  predicate Matches(cfg: Config, values: Values)
  {
    forall i :: 0 <= i < |cfg.params| ==>
      ValuesEqual(EntryOf(cfg, i), Held(values, cfg.params[i].command), cfg.params[i].value)
  }

  /** One entry of the image is the configured value, unless it is left to a default that is another. */
  lemma ImageMatchesAt(cfg: Config, m0: Module, differs: set<nat>, i: nat)
    requires Configured(cfg) && i < |cfg.params|
    requires Skipped(cfg, differs, i) ==> IsDefault(EntryOf(cfg, i), Held(Restored(cfg, m0), cfg.params[i].command))
    ensures ValuesEqual(EntryOf(cfg, i),
                        Held(Image(cfg, differs, Restored(cfg, m0), |cfg.params|), cfg.params[i].command),
                        cfg.params[i].value)
  {
    ImageHolds(cfg, differs, Restored(cfg, m0), |cfg.params|, i);
    if Skipped(cfg, differs, i) {
      DefaultsAreOneValue(EntryOf(cfg, i), Held(Restored(cfg, m0), cfg.params[i].command), cfg.params[i].value);
    } else {
      SettableIsComparable(cfg.entries, cfg.params[i].command, cfg.params[i].value);
    }
  }

  lemma ImageMatches(cfg: Config, m0: Module, differs: set<nat>)
    requires Reproducible(cfg, m0, differs)
    ensures Matches(cfg, Image(cfg, differs, Restored(cfg, m0), |cfg.params|))
  {
    forall i | 0 <= i < |cfg.params|
      ensures ValuesEqual(EntryOf(cfg, i),
                          Held(Image(cfg, differs, Restored(cfg, m0), |cfg.params|), cfg.params[i].command),
                          cfg.params[i].value)
    {
      ImageMatchesAt(cfg, m0, differs, i);
    }
  }

  /** The serial mode a value of the parameter AP stands for. */
  function ModeOf(value: seq<Byte>): (mode: Mode)
  {
    match BigEndian(value)
    case 0 => Transparent
    case 1 => Api1
    case _ => Api2
  }

  /**
   A provisioned module that comes back in the mode its flash holds comes back in the configured
   one, as an honest one is assumed to: unless AP was left to a default that is another.
   */
  lemma ComesBackAsConfigured(cfg: Config, m0: Module, e: Engine, m: Module, ap: nat)
    requires Configured(cfg) && Provisioned(cfg, m0, e, m)
    requires ap < |cfg.params| && EntryOf(cfg, ap).Some? && IsNumeric(EntryOf(cfg, ap).value.kind)
    requires cfg.mode == ModeOf(cfg.params[ap].value)
    requires Skipped(cfg, e.differs, ap) ==>
      IsDefault(EntryOf(cfg, ap), Held(Restored(cfg, m0), cfg.params[ap].command))
    ensures ModeOf(Held(m.flash, cfg.params[ap].command)) == cfg.mode
  {
    ImageMatchesAt(cfg, m0, e.differs, ap);
  }

  /** Endings an honest module never causes when the configuration is reproducible. */
  predicate Spoiled(o: Outcome) { o.FailVerify? || o.WrittenWithDifferences? || o.FailReview? }

  predicate Unspoiled(e: Engine)
  {
    e.accepted == [] && !e.overflow && !Spoiled(e.outcome) && !Spoiled(e.pending)
  }

  predicate BeforeReview(e: Engine)
  {
    !e.verifying
    && (e.phase.Bringup? || e.phase.Open? || e.phase.Audit? || e.phase.Restore? || e.phase.Write?)
  }

  /** No difference shows up where none can. */
  predicate Calm(cfg: Config, m0: Module, e: Engine)
  {
    (BeforeReview(e) || ReadsBack(cfg, m0, e.differs)) ==> Unspoiled(e)
  }

  /** A read that is outstanding is of something readable. */
  predicate Asking(cfg: Config, e: Engine)
    requires InRange(cfg, e)
  {
    e.active && (e.phase.Audit? || e.phase.Review?) ==> Readable(cfg, e.index)
  }

  predicate Untouched(m0: Module, m: Module) { m == m0 }

  predicate Provisioned(cfg: Config, m0: Module, e: Engine, m: Module)
  {
    && m.working == m.flash
    && m.flash == Image(cfg, e.differs, Restored(cfg, m0), |cfg.params|)
  }

  /** The module at the end of a run: provisioned as a whole, or with its stored values untouched. */
  predicate LeftBy(cfg: Config, m0: Module, e: Engine, m: Module, o: Outcome)
  {
    match o
    case Running | Written | WrittenWithDifferences | FailVerify => Provisioned(cfg, m0, e, m)
    case AlreadyProvisioned => Untouched(m0, m)
    case Aborted => Untouched(m0, m) && e.abortRequested
    case Declined | FailReview => m.flash == m0.flash && m.working == m.flash && e.review
    case _ => false
  }

  predicate InStep(cfg: Config, m0: Module, e: Engine, m: Module)
    requires InRange(cfg, e)
  {
    match e.phase
    case Bringup | Open | Audit =>
      if e.verifying then Provisioned(cfg, m0, e, m) else Untouched(m0, m) && !e.fellBack
    case Reset => e.verifying && Provisioned(cfg, m0, e, m)
    case Restore =>
      && !e.verifying && m.flash == m0.flash
      && (e.fellBack ==> !m.takesR1)
      && (AcceptsRestore(cfg, m, e.fellBack) ==> m.working == Restored(cfg, m0))
    case Write =>
      && !e.verifying && m.flash == m0.flash
      && m.working == Image(cfg, e.differs, Restored(cfg, m0), e.index + 1)
    case Review | AwaitDecision =>
      && !e.verifying && e.review && m.flash == m0.flash
      && m.working == Image(cfg, e.differs, Restored(cfg, m0), |cfg.params|)
    case Commit => !e.verifying && Provisioned(cfg, m0, e, m)
    case Close | Discard => LeftBy(cfg, m0, e, m, e.pending)
    case Done => LeftBy(cfg, m0, e, m, e.outcome)
    case Idle => false
  }

  /** Engine states that go with a module. */
  ghost function States(cfg: Config, m0: Module, m: Module): (states: iset<Engine>)
  {
    iset e | InRange(cfg, e) && m.takesR1 == m0.takesR1 && m.factory == m0.factory && m.custom == m0.custom
             && InStep(cfg, m0, e, m) && Calm(cfg, m0, e) && Asking(cfg, e)
  }

  ghost predicate Keeps(cfg: Config, m0: Module, m: Module, s: Step)
  {
    s.engine in States(cfg, m0, Effects(cfg, m, s.events))
  }

  lemma AfterKeeps(cfg: Config, m0: Module, m: Module, before: seq<Event>, s: Step)
    requires Keeps(cfg, m0, Effects(cfg, m, before), s)
    ensures Keeps(cfg, m0, m, After(before, s))
  {
    EffectsAppend(cfg, m, before, s.events);
  }

  predicate SameModule(m0: Module, m: Module)
  {
    m.takesR1 == m0.takesR1 && m.factory == m0.factory && m.custom == m0.custom
  }

  lemma ClosingChangesNothing(cfg: Config, m: Module, e: Engine, w: World, o: Outcome)
    ensures Effects(cfg, m, CloseSession(e, w, o).events) == m
    ensures var e1 := CloseSession(e, w, o).engine;
      && e1.differs == e.differs && e1.accepted == e.accepted && e1.overflow == e.overflow
      && (e1.phase.Close? ==> e1.outcome == e.outcome)
  {
    EffectOfOne(cfg, m, Exit);
  }

  lemma CloseKeeps(cfg: Config, m0: Module, m: Module, e: Engine, w: World, o: Outcome)
    requires InRange(cfg, e) && SameModule(m0, m) && LeftBy(cfg, m0, e, m, o)
    requires ReadsBack(cfg, m0, e.differs) ==> Unspoiled(e.(pending := o))
    ensures Keeps(cfg, m0, m, CloseSession(e, w, o))
  {
    ClosingChangesNothing(cfg, m, e, w, o);
  }

  lemma DiscardKeeps(cfg: Config, m0: Module, m: Module, e: Engine, w: World, o: Outcome)
    requires InRange(cfg, e) && SameModule(m0, m) && m.flash == m0.flash && w.resets
    requires (o.Declined? || o.FailReview?) && e.review
    requires ReadsBack(cfg, m0, e.differs) ==> Unspoiled(e.(pending := o))
    ensures Keeps(cfg, m0, m, StartDiscard(e, w, o))
  {
    EffectOfOne(cfg, m, HwReset);
  }

  lemma CommitKeeps(cfg: Config, m0: Module, m: Module, e: Engine, w: World)
    requires InRange(cfg, e) && SameModule(m0, m) && w.submits && !e.verifying
    requires m.working == Image(cfg, e.differs, Restored(cfg, m0), |cfg.params|)
    requires ReadsBack(cfg, m0, e.differs) ==> Unspoiled(e)
    ensures Keeps(cfg, m0, m, StartCommit(e, w))
  {
    EffectOfOne(cfg, m, Run(WR));
  }

  /** Reading back for the host changes nothing. */
  lemma ReviewKeeps(cfg: Config, m0: Module, m: Module, e: Engine, w: World, from: nat)
    requires InRange(cfg, e) && SameModule(m0, m) && w.submits && w.resets
    requires from <= |cfg.params| && e.phase.Review? && InStep(cfg, m0, e, m) && Calm(cfg, m0, e)
    ensures Keeps(cfg, m0, m, ReviewFrom(cfg, e, w, from))
  {
    var i := NextReadable(cfg, from);
    var reports := UnreadableReports(from, i);
    ReportsChangeNothing(cfg, m, reports);
    if i == |cfg.params| {
      DecisionEntryKeeps(cfg, m0, m, e, w);
      AfterKeeps(cfg, m0, m, reports, EnterDecision(e, w));
    } else {
      EffectOfOne(cfg, m, Get(i));
      AfterKeeps(cfg, m0, m, reports, Step(e.(index := i, active := true), [Get(i)]));
    }
  }

  lemma DecisionEntryKeeps(cfg: Config, m0: Module, m: Module, e: Engine, w: World)
    requires InRange(cfg, e) && SameModule(m0, m) && w.resets
    requires e.phase.Review? && InStep(cfg, m0, e, m) && Calm(cfg, m0, e)
    ensures Keeps(cfg, m0, m, EnterDecision(e, w))
  {
    if e.overflow {
      DiscardKeeps(cfg, m0, m, e, w, FailReview);
    }
  }

  lemma PutKeeps(cfg: Config, m0: Module, m: Module, e: Engine, i: nat)
    requires i < |cfg.params| && SameModule(m0, m) && !Skipped(cfg, e.differs, i)
    requires e.phase.Write? && !e.verifying && m.flash == m0.flash && Unspoiled(e)
    requires m.working == Image(cfg, e.differs, Restored(cfg, m0), i)
    ensures Keeps(cfg, m0, m, Step(e.(index := i, active := true), [Put(i)]))
  {
    EffectOfOne(cfg, m, Put(i));
  }

  lemma WriteKeeps(cfg: Config, m0: Module, m: Module, e: Engine, w: World, from: nat)
    requires InRange(cfg, e) && SameModule(m0, m) && w.submits && w.resets
    requires from <= |cfg.params| && e.phase.Write? && !e.verifying && m.flash == m0.flash
    requires m.working == Image(cfg, e.differs, Restored(cfg, m0), from)
    requires Unspoiled(e)
    ensures Keeps(cfg, m0, m, WriteFrom(cfg, e, w, from))
  {
    var i := NextWritten(cfg, e.differs, from);
    ImageSkips(cfg, e.differs, Restored(cfg, m0), from, i);
    if i < |cfg.params| {
      PutKeeps(cfg, m0, m, e, i);
    } else if e.review {
      var e1 := e.(reviewMismatches := 0, overflow := false, accepted := [], phase := Review);
      ReviewKeeps(cfg, m0, m, e1, w, 0);
    } else {
      CommitKeeps(cfg, m0, m, e, w);
    }
  }

  lemma RestoreKeeps(cfg: Config, m0: Module, m: Module, e: Engine, w: World, fallback: bool)
    requires InRange(cfg, e) && SameModule(m0, m) && w.submits && !e.verifying
    requires m.flash == m0.flash && e.fellBack == fallback && (fallback ==> !m.takesR1)
    requires Unspoiled(e)
    ensures Keeps(cfg, m0, m, StartRestore(cfg, e, w, fallback))
  {
    EffectOfOne(cfg, m, Run(RestoreCommand(cfg, fallback)));
  }

  lemma ReadKeeps(cfg: Config, m0: Module, m: Module, e: Engine, w: World, from: nat)
    requires InRange(cfg, e) && SameModule(m0, m) && w.submits
    requires from <= |cfg.params| && e.phase.Audit? && InStep(cfg, m0, e, m) && Calm(cfg, m0, e)
    ensures StartNextRead(cfg, e, w, from).Some? ==> Keeps(cfg, m0, m, StartNextRead(cfg, e, w, from).value)
  {
    var i := NextReadable(cfg, from);
    if i < |cfg.params| {
      EffectOfOne(cfg, m, Get(i));
    }
  }

  lemma PassCompleteKeeps(cfg: Config, m0: Module, m: Module, e: Engine, w: World)
    requires InRange(cfg, e) && SameModule(m0, m) && w.submits
    requires e.phase.Audit? && InStep(cfg, m0, e, m) && Calm(cfg, m0, e)
    ensures Keeps(cfg, m0, m, PassComplete(e, w, cfg))
  {
    if e.verifying {
      CloseKeeps(cfg, m0, m, e, w, if e.accepted != [] then WrittenWithDifferences else Written);
    } else if e.mismatches == 0 {
      CloseKeeps(cfg, m0, m, e, w, AlreadyProvisioned);
    } else {
      RestoreKeeps(cfg, m0, m, e, w, false);
    }
  }

  lemma ReadOnKeeps(cfg: Config, m0: Module, m: Module, e: Engine, w: World)
    requires InRange(cfg, e) && SameModule(m0, m) && w.submits
    requires e.phase.Audit? && InStep(cfg, m0, e, m) && Calm(cfg, m0, e)
    ensures Keeps(cfg, m0, m, ReadOn(cfg, e, w))
  {
    if e.abortRequested && !e.verifying {
      CloseKeeps(cfg, m0, m, e, w, Aborted);
    } else if StartNextRead(cfg, e, w, e.index + 1).Some? {
      ReadKeeps(cfg, m0, m, e, w, e.index + 1);
    } else {
      PassCompleteKeeps(cfg, m0, m, e, w);
    }
  }

  /** An honest answer about a reproduced configuration is the expected one. */
  lemma HonestMatches(cfg: Config, m0: Module, m: Module, e: Engine, a: Answer)
    requires InRange(cfg, e) && ReadsBack(cfg, m0, e.differs) && Readable(cfg, e.index)
    requires m.working == Image(cfg, e.differs, Restored(cfg, m0), |cfg.params|)
    requires a.ok ==> ValuesEqual(EntryOf(cfg, e.index), a.value, Held(m.working, cfg.params[e.index].command))
    ensures a.ok ==> ValuesEqual(EntryOf(cfg, e.index), a.value, cfg.params[e.index].value)
  {
    ImageMatchesAt(cfg, m0, e.differs, e.index);
    if a.ok {
      EqualIsTransitive(EntryOf(cfg, e.index), a.value, Held(m.working, cfg.params[e.index].command),
                        cfg.params[e.index].value);
    }
  }

  lemma ReadResultKeeps(cfg: Config, m0: Module, m: Module, e: Engine, w: World, a: Answer)
    requires e in States(cfg, m0, m) && w.submits
    requires e.phase.Audit? && HonestAnswer(cfg, e, m, a) && Readable(cfg, e.index)
    ensures Keeps(cfg, m0, m, HandleReadResult(cfg, e, w, a))
  {
    var e1 := Compared(cfg, e, a);
    if e.verifying && ReadsBack(cfg, m0, e.differs) {
      HonestMatches(cfg, m0, m, e, a);
    }
    if Unexpected(cfg, e, a) && e.verifying {
      CloseKeeps(cfg, m0, m, e1, w, FailVerify);
    } else {
      ReadOnKeeps(cfg, m0, m, e1, w);
    }
  }

  lemma RestoreResultKeeps(cfg: Config, m0: Module, m: Module, e: Engine, w: World, a: Answer)
    requires e in States(cfg, m0, m) && w.submits && w.resets
    requires e.phase.Restore? && HonestAnswer(cfg, e, m, a)
    ensures Keeps(cfg, m0, m, HandleRestoreResult(cfg, e, w, a))
  {
    if a.ok {
      WriteKeeps(cfg, m0, m, e.(phase := Write), w, 0);
    } else {
      RestoreKeeps(cfg, m0, m, e.(fellBack := true), w, true);
    }
  }

  lemma ReviewedKeeps(cfg: Config, m0: Module, m: Module, e: Engine, a: Answer)
    requires e in States(cfg, m0, m) && e.phase.Review? && HonestAnswer(cfg, e, m, a) && Readable(cfg, e.index)
    ensures Reviewed(cfg, e, a).engine in States(cfg, m0, m)
  {
    if ReadsBack(cfg, m0, e.differs) {
      HonestMatches(cfg, m0, m, e, a);
    }
  }

  lemma ReviewResultKeeps(cfg: Config, m0: Module, m: Module, e: Engine, w: World, a: Answer)
    requires e in States(cfg, m0, m) && w.submits && w.resets
    requires e.phase.Review? && HonestAnswer(cfg, e, m, a) && Readable(cfg, e.index)
    ensures Keeps(cfg, m0, m, HandleReviewResult(cfg, e, w, a))
  {
    var r := Reviewed(cfg, e, a);
    ReviewedKeeps(cfg, m0, m, e, a);
    ReviewKeeps(cfg, m0, m, r.engine, w, e.index + 1);
    ReportsChangeNothing(cfg, m, r.events);
    AfterKeeps(cfg, m0, m, r.events, ReviewFrom(cfg, r.engine, w, e.index + 1));
  }

  lemma WriteResultKeeps(cfg: Config, m0: Module, m: Module, e: Engine, w: World, a: Answer)
    requires e in States(cfg, m0, m) && w.submits && w.resets && e.phase.Write? && a.ok
    ensures Keeps(cfg, m0, m, HandleWriteResult(cfg, e, w, a))
  {
    WriteKeeps(cfg, m0, m, e, w, e.index + 1);
  }

  lemma CommitResultKeeps(cfg: Config, m0: Module, m: Module, e: Engine, w: World, a: Answer)
    requires e in States(cfg, m0, m) && e.phase.Commit? && a.ok
    ensures Keeps(cfg, m0, m, HandleCommitResult(e, w, a))
  {
    CloseKeeps(cfg, m0, m, e, w, Running);
  }

  lemma AnswerKeeps(cfg: Config, m0: Module, m: Module, e: Engine, w: World, a: Answer)
    requires e in States(cfg, m0, m) && w.submits && w.resets
    requires HonestAnswer(cfg, e, m, a)
    requires e.phase.Audit? || e.phase.Review? ==> Readable(cfg, e.index)
    ensures Keeps(cfg, m0, m, ProcessAnswer(cfg, e, w, a))
  {
    match e.phase
    case Audit => ReadResultKeeps(cfg, m0, m, e, w, a);
    case Restore => RestoreResultKeeps(cfg, m0, m, e, w, a);
    case Write => WriteResultKeeps(cfg, m0, m, e, w, a);
    case Review => ReviewResultKeeps(cfg, m0, m, e, w, a);
    case Commit => CommitResultKeeps(cfg, m0, m, e, w, a);
    case _ =>
  }

  lemma OpenKeeps(cfg: Config, m0: Module, m: Module, e: Engine, w: World)
    requires InRange(cfg, e) && SameModule(m0, m) && w.submits && Honest(cfg, e, m, w)
    requires e.phase.Open? && InStep(cfg, m0, e, m) && Calm(cfg, m0, e) && (e.abortRequested ==> !e.verifying)
    requires NextReadable(cfg, 0) < |cfg.params|
    ensures Keeps(cfg, m0, m, ProcessOpen(cfg, e, w))
  {
    if w.opening.Opened? {
      if e.abortRequested {
        CloseKeeps(cfg, m0, m, e, w, Aborted);
      } else {
        ReadKeeps(cfg, m0, m, e.(mismatches := 0, phase := Audit), w, 0);
      }
    }
  }

  lemma EndKeeps(cfg: Config, m0: Module, m: Module, e: Engine)
    requires e in States(cfg, m0, m) && e.phase.Close? && !e.pending.Running?
    ensures Keeps(cfg, m0, m, Step(Finish(e, e.pending), []))
  {
  }

  lemma ResetKeeps(cfg: Config, m0: Module, m: Module, e: Engine)
    requires e in States(cfg, m0, m) && e.phase.Close? && e.pending.Running?
    ensures Keeps(cfg, m0, m, Step(e.(verifying := true, phase := Reset), [HwReset]))
  {
    EffectOfOne(cfg, m, HwReset);
  }

  lemma CloseWaitKeeps(cfg: Config, m0: Module, m: Module, e: Engine, w: World)
    requires e in States(cfg, m0, m) && Honest(cfg, e, m, w) && e.phase.Close?
    ensures Keeps(cfg, m0, m, ProcessClose(e, w))
  {
    if !w.sessionOpen {
      if e.pending.Running? {
        ResetKeeps(cfg, m0, m, e);
      } else {
        EndKeeps(cfg, m0, m, e);
      }
    }
  }

  lemma DecisionKeeps(cfg: Config, m0: Module, m: Module, e: Engine, w: World)
    requires InRange(cfg, e) && SameModule(m0, m) && Honest(cfg, e, m, w)
    requires e.phase.AwaitDecision? && InStep(cfg, m0, e, m) && Calm(cfg, m0, e)
    ensures Keeps(cfg, m0, m, ProcessDecision(e, w))
  {
    match e.decision
    case Save => CommitKeeps(cfg, m0, m, e, w);
    case Drop => DiscardKeeps(cfg, m0, m, e, w, Declined);
    case Undecided => EffectOfOne(cfg, m, KeepAlive);
  }

  lemma BringupKeeps(cfg: Config, m0: Module, m: Module, e: Engine, w: World)
    requires InRange(cfg, e) && SameModule(m0, m) && Honest(cfg, e, m, w)
    requires e.phase.Bringup? && InStep(cfg, m0, e, m) && Calm(cfg, m0, e)
    ensures Keeps(cfg, m0, m, ProcessBringup(e, w, cfg))
  {
  }

  lemma DiscardWaitKeeps(cfg: Config, m0: Module, m: Module, e: Engine, w: World)
    requires InRange(cfg, e) && SameModule(m0, m) && Honest(cfg, e, m, w)
    requires e.phase.Discard? && InStep(cfg, m0, e, m) && Calm(cfg, m0, e)
    ensures Keeps(cfg, m0, m, ProcessDiscard(e, w))
  {
  }

  lemma IdleKeeps(cfg: Config, m0: Module, m: Module, e: Engine, w: World)
    requires InRange(cfg, e) && SameModule(m0, m) && Honest(cfg, e, m, w) && !e.active
    requires InStep(cfg, m0, e, m) && Calm(cfg, m0, e) && (e.abortRequested && e.phase.Open? ==> !e.verifying)
    requires NextReadable(cfg, 0) < |cfg.params|
    ensures Keeps(cfg, m0, m, Process(cfg, e, w))
  {
    match e.phase
    case Bringup => BringupKeeps(cfg, m0, m, e, w);
    case Open => OpenKeeps(cfg, m0, m, e, w);
    case Close => CloseWaitKeeps(cfg, m0, m, e, w);
    case AwaitDecision => DecisionKeeps(cfg, m0, m, e, w);
    case Discard => DiscardWaitKeeps(cfg, m0, m, e, w);
    case _ =>
  }

  lemma DecideKeeps(cfg: Config, m0: Module, m: Module, e: Engine, save: bool)
    requires e in States(cfg, m0, m)
    ensures Keeps(cfg, m0, m, Decide(e, save).0)
  {
    EffectOfOne(cfg, m, Decided(save));
  }

  lemma AbortKeeps(cfg: Config, m0: Module, m: Module, e: Engine)
    requires e in States(cfg, m0, m)
    ensures Keeps(cfg, m0, m, Abort(e).0)
  {
    if e.phase.AwaitDecision? {
      DecideKeeps(cfg, m0, m, e, false);
    } else {
      EffectOfOne(cfg, m, AbortAsked);
    }
  }

  lemma AnswerTaken(cfg: Config, m0: Module, m: Module, e: Engine)
    requires e in States(cfg, m0, m)
    ensures e.(active := false) in States(cfg, m0, m)
  {
    var taken := e.(active := false);
    assert InRange(cfg, taken);
    assert BeforeReview(taken) == BeforeReview(e) && Unspoiled(taken) == Unspoiled(e);
    TakenInStep(cfg, m0, e, m);
  }

  lemma TakenInStep(cfg: Config, m0: Module, e: Engine, m: Module)
    requires InRange(cfg, e) && InStep(cfg, m0, e, m)
    ensures InRange(cfg, e.(active := false)) && InStep(cfg, m0, e.(active := false), m)
  {
    var taken := e.(active := false);
    assert Provisioned(cfg, m0, taken, m) == Provisioned(cfg, m0, e, m);
    assert LeftBy(cfg, m0, taken, m, e.pending) == LeftBy(cfg, m0, e, m, e.pending);
    assert LeftBy(cfg, m0, taken, m, e.outcome) == LeftBy(cfg, m0, e, m, e.outcome);
  }

  lemma AnsweredKeeps(cfg: Config, m0: Module, m: Module, e: Engine, w: World, a: Answer)
    requires e in States(cfg, m0, m) && w.submits && w.resets && HonestAnswer(cfg, e, m, a) && e.active
    ensures Keeps(cfg, m0, m, After([Reply(a)], ProcessAnswer(cfg, e.(active := false), w, a)))
  {
    AnswerTaken(cfg, m0, m, e);
    AnswerKeeps(cfg, m0, m, e.(active := false), w, a);
    EffectOfOne(cfg, m, Reply(a));
    AfterKeeps(cfg, m0, m, [Reply(a)], ProcessAnswer(cfg, e.(active := false), w, a));
  }

  lemma ReactKeeps(cfg: Config, m0: Module, m: Module, e: Engine, input: Input)
    requires e in States(cfg, m0, m)
    requires e.abortRequested && e.phase.Open? ==> !e.verifying
    requires NextReadable(cfg, 0) < |cfg.params|
    requires input.Pass? ==> Honest(cfg, e, m, input.world)
    ensures Keeps(cfg, m0, m, React(cfg, e, input))
  {
    match input
    case Pass(w) =>
      if !e.active {
        IdleKeeps(cfg, m0, m, e, w);
      } else if w.answer.Some? {
        AnsweredKeeps(cfg, m0, m, e, w, w.answer.value);
      }
    case AskAbort => AbortKeeps(cfg, m0, m, e);
    case AskDecide(save) => DecideKeeps(cfg, m0, m, e, save);
  }
}

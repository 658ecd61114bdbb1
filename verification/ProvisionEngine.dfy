/**
 The provisioning sequence as a function of its state and of what the world answers.

 One `World` holds every answer the facade, the module and the clock can give during one pass
 of the super loop. Nothing is assumed about it: any submission may be refused, any read may
 fail, the session may lapse at any time. A pass makes at most one submission, at most one
 reset and at most one close, so one answer of each kind covers every execution.
 */
module ProvisionEngine {
  import opened Base
  import opened Ticks
  import opened AtTable

  const MAX_PARAMS := 128
  const MAX_ACCEPTED := 8

  datatype Mode = Transparent | Api1 | Api2 | Undetermined

  datatype Param = Param(command: nat, value: seq<Byte>)

  /** The configuration table, the command table behind it, and the build-time choices. */
  datatype Config = Config(
    entries: seq<Entry>,
    params: seq<Param>,
    factoryRestore: bool,  // R1 first, falling back to RE; otherwise RE alone
    mode: Mode             // serial mode the configuration asks for
  )

  datatype Phase =
    | Idle | Bringup | Open | Audit | Restore | Write | Review | AwaitDecision
    | Discard | Commit | Close | Reset | Done

  datatype Outcome =
    | Running | AlreadyProvisioned | Written | FailBringup | FailSession | FailAudit | FailRestore
    | FailWrite | FailCommit | FailReset | FailVerify | Aborted | Declined
    | WrittenWithDifferences | FailReview

  datatype Decision = Undecided | Save | Drop

  datatype Saved = Saved(index: nat, value: seq<Byte>)

  datatype Engine = Engine(
    phase: Phase,
    outcome: Outcome,
    pending: Outcome,
    active: bool,              // a request is outstanding
    index: nat,
    verifying: bool,
    mismatches: nat,
    fellBack: bool,
    differs: set<nat>,         // entries the audit saw differ
    review: bool,              // a host asked to review before the commit
    reviewMismatches: nat,
    overflow: bool,
    accepted: seq<Saved>,
    decision: Decision,
    closeDeadline: Tick,
    keepaliveTick: Tick,
    keepaliveTicks: Tick,
    abortRequested: bool
  )

  datatype Answer = Answer(ok: bool, value: seq<Byte>)

  datatype Opening = InProgress | Opened | NotOpened

  datatype World = World(
    now: Tick,
    answer: Option<Answer>,  // the outstanding request, if it has completed
    failed: bool,            // the facade reports bring-up failed
    ready: bool,             // the facade reports ready
    mode: Mode,              // the mode bring-up found
    opens: bool,             // a session can be requested
    opening: Opening,        // progress of the requested session
    sessionOpen: bool,
    closes: bool,            // the session close can be started
    submits: bool,           // a request is accepted
    resets: bool,            // the reset pulse can be started
    closeTicks: Tick,        // XBEE_PROV_CLOSE_TIMEOUT_MS in ticks
    keepaliveTicks: Tick     // half the quiet window the transport allows, in ticks
  )

  datatype ExecCommand = R1 | RE | WR

  datatype ReviewKind = Match | Mismatch | Unreadable | ReadFailed

  /** What a run does that the outside can see, in order. */
  datatype Event =
    | Get(index: nat)             // a read of a table entry was accepted
    | Put(index: nat)             // a write of a table entry was accepted
    | Run(command: ExecCommand)   // an executable command was accepted
    | KeepAlive                   // the read that keeps the session open was accepted
    | Reply(answer: Answer)       // the outstanding request completed
    | Report(entry: nat, kind: ReviewKind, value: seq<Byte>)  // the review callback
    | Exit                        // the session close was started
    | HwReset                     // the reset pulse was started
    | AbortAsked                  // an abort was accepted
    | Decided(save: bool)         // the host's decision was accepted

  /** The engine after a step, and the events the step produced. */
  datatype Step = Step(engine: Engine, events: seq<Event>)

  function After(before: seq<Event>, step: Step): (r: Step) { Step(step.engine, before + step.events) }

  // ---------------------------------------------------------------------------
  // The configuration

  /** The engine's position is inside the table. */
  predicate InRange(cfg: Config, e: Engine) { e.index < |cfg.params| }

  function EntryOf(cfg: Config, i: nat): (entry: Option<Entry>)
    requires i < |cfg.params|
  {
    Find(cfg.entries, cfg.params[i].command)
  }

  predicate Readable(cfg: Config, i: nat)
    requires i < |cfg.params|
  {
    ValidateGet(cfg.entries, cfg.params[i].command) == Accepted
  }

  /** A parameter the write pass leaves alone: at its default, and not seen to differ. */
  predicate Skipped(cfg: Config, differs: set<nat>, i: nat)
    requires i < |cfg.params|
  {
    IsDefault(EntryOf(cfg, i), cfg.params[i].value) && i !in differs
  }

  function NextReadable(cfg: Config, from: nat): (i: nat)
    requires from <= |cfg.params|
    ensures from <= i <= |cfg.params|
    ensures i < |cfg.params| ==> Readable(cfg, i)
    ensures forall k :: from <= k < i ==> !Readable(cfg, k)
    decreases |cfg.params| - from
  {
    if from < |cfg.params| && !Readable(cfg, from) then NextReadable(cfg, from + 1) else from
  }

  function NextWritten(cfg: Config, differs: set<nat>, from: nat): (i: nat)
    requires from <= |cfg.params|
    ensures from <= i <= |cfg.params|
    ensures i < |cfg.params| ==> !Skipped(cfg, differs, i)
    ensures forall k :: from <= k < i ==> Skipped(cfg, differs, k)
    decreases |cfg.params| - from
  {
    if from < |cfg.params| && Skipped(cfg, differs, from) then NextWritten(cfg, differs, from + 1) else from
  }

  /** The first saved value for a table entry. */
  function FindSaved(accepted: seq<Saved>, i: nat): (s: Option<seq<Byte>>)
  {
    if accepted == [] then None
    else if accepted[0].index == i then Some(accepted[0].value)
    else FindSaved(accepted[1..], i)
  }

  /** The value a pass compares entry `i` with: a saved one first, then the configured one. */
  function Expected(cfg: Config, accepted: seq<Saved>, i: nat): (value: seq<Byte>)
    requires i < |cfg.params|
  {
    match FindSaved(accepted, i)
    case Some(v) => v
    case None => cfg.params[i].value
  }

  /** What no pass changes: only the host asks for an abort, and only starting asks for a review. */
  predicate SameRun(e: Engine, r: Engine)
  {
    r.abortRequested == e.abortRequested && r.review == e.review
  }

  // ---------------------------------------------------------------------------
  // Endings

  function Finish(e: Engine, outcome: Outcome): (r: Engine)
  {
    e.(outcome := outcome, phase := Done, active := false)
  }

  function CloseSession(e: Engine, w: World, outcome: Outcome): (s: Step)
    ensures s.engine.index == e.index && !s.engine.active && s.engine.pending == outcome
    ensures s.engine.verifying == e.verifying && SameRun(e, s.engine)
    ensures s.engine.phase.Close?
         || (s.engine.phase.Done? && s.engine.outcome == outcome && !outcome.Running?)
  {
    var e1 := e.(pending := outcome, active := false, closeDeadline := Add(w.now, w.closeTicks));
    if w.sessionOpen && w.closes then Step(e1.(phase := Close), [Exit])
    else if outcome.Running? then Step(e1.(phase := Close), [])
    else Step(Finish(e1, outcome), [])
  }

  function StartDiscard(e: Engine, w: World, outcome: Outcome): (s: Step)
    ensures s.engine.index == e.index && !s.engine.active && s.engine.pending == outcome
    ensures s.engine.verifying == e.verifying && SameRun(e, s.engine)
    ensures s.engine.phase.Discard? || (s.engine.phase.Done? && s.engine.outcome == FailReset)
  {
    var e1 := e.(active := false, pending := outcome);
    if w.resets then Step(e1.(phase := Discard), [HwReset]) else Step(Finish(e1, FailReset), [])
  }

  // ---------------------------------------------------------------------------
  // Reading

  /** `start_next_read`: nothing when the table has run out. */
  function StartNextRead(cfg: Config, e: Engine, w: World, from: nat): (s: Option<Step>)
    requires from <= |cfg.params|
    ensures s.Some? ==> SameRun(e, s.value.engine)
  {
    var i := NextReadable(cfg, from);
    if i == |cfg.params| then None
    else if w.submits then Some(Step(e.(index := i, active := true), [Get(i)]))
    else Some(CloseSession(e, w, if e.verifying then FailVerify else FailAudit))
  }

  function StartReadPass(cfg: Config, e: Engine, w: World): (s: Step)
    ensures InRange(cfg, e) ==> InRange(cfg, s.engine)
    ensures SameRun(e, s.engine)
  {
    var e1 := e.(mismatches := 0, phase := Audit);
    match StartNextRead(cfg, e1, w, 0)
    case Some(s) => s
    case None => CloseSession(e1, w, FailAudit)
  }

  /** The module reported a value, and it is not the one this pass expects. */
  predicate Unexpected(cfg: Config, e: Engine, a: Answer)
    requires InRange(cfg, e)
  {
    a.ok
    && !ValuesEqual(EntryOf(cfg, e.index), a.value,
                    Expected(cfg, if e.verifying then e.accepted else [], e.index))
  }

  /** The state after an answer has been compared. */
  function Compared(cfg: Config, e: Engine, a: Answer): (r: Engine)
    requires InRange(cfg, e)
    ensures r == e.(mismatches := r.mismatches, differs := r.differs)
    ensures e.verifying ==> r.differs == e.differs
  {
    if !Unexpected(cfg, e, a) then e
    else e.(mismatches := e.mismatches + 1,
            differs := if e.verifying then e.differs else e.differs + {e.index})
  }

  function HandleReadResult(cfg: Config, e: Engine, w: World, a: Answer): (s: Step)
    requires InRange(cfg, e)
    ensures InRange(cfg, s.engine)
    ensures SameRun(e, s.engine)
  {
    if Unexpected(cfg, e, a) && e.verifying then CloseSession(Compared(cfg, e, a), w, FailVerify)
    else ReadOn(cfg, Compared(cfg, e, a), w)
  }

  /** The rest of a pass after one answer. */
  function ReadOn(cfg: Config, e: Engine, w: World): (s: Step)
    requires InRange(cfg, e)
    ensures InRange(cfg, s.engine)
    ensures SameRun(e, s.engine)
  {
    if e.abortRequested && !e.verifying then CloseSession(e, w, Aborted)
    else match StartNextRead(cfg, e, w, e.index + 1)
      case Some(s) => s
      case None => PassComplete(e, w, cfg)
  }

  function PassComplete(e: Engine, w: World, cfg: Config): (s: Step)
    ensures InRange(cfg, e) ==> InRange(cfg, s.engine)
    ensures SameRun(e, s.engine)
  {
    if e.verifying then CloseSession(e, w, if e.accepted != [] then WrittenWithDifferences else Written)
    else if e.mismatches == 0 then CloseSession(e, w, AlreadyProvisioned)
    else StartRestore(cfg, e, w, false)
  }

  // ---------------------------------------------------------------------------
  // Restoring and writing

  function RestoreCommand(cfg: Config, fallback: bool): (c: ExecCommand)
  {
    if cfg.factoryRestore && !fallback then R1 else RE
  }

  function StartRestore(cfg: Config, e: Engine, w: World, fallback: bool): (s: Step)
    ensures s.engine.index == e.index
    ensures SameRun(e, s.engine)
  {
    if w.submits then Step(e.(phase := Restore, active := true), [Run(RestoreCommand(cfg, fallback))])
    else CloseSession(e, w, FailRestore)
  }

  function HandleRestoreResult(cfg: Config, e: Engine, w: World, a: Answer): (s: Step)
    ensures InRange(cfg, e) ==> InRange(cfg, s.engine)
    ensures SameRun(e, s.engine)
  {
    if a.ok then WriteFrom(cfg, e.(phase := Write), w, 0)
    else if cfg.factoryRestore && !e.fellBack then StartRestore(cfg, e.(fellBack := true), w, true)
    else CloseSession(e, w, FailRestore)
  }

  /** `start_next_write`: nothing when there is nothing left to write. */
  function StartNextWrite(cfg: Config, e: Engine, w: World, from: nat): (s: Option<Step>)
    requires from <= |cfg.params|
    ensures s.Some? ==> SameRun(e, s.value.engine)
  {
    var i := NextWritten(cfg, e.differs, from);
    if i == |cfg.params| then None
    else if w.submits then Some(Step(e.(index := i, active := true), [Put(i)]))
    else Some(CloseSession(e, w, FailWrite))
  }

  function WriteFrom(cfg: Config, e: Engine, w: World, from: nat): (s: Step)
    requires from <= |cfg.params|
    ensures InRange(cfg, e) ==> InRange(cfg, s.engine)
    ensures SameRun(e, s.engine)
  {
    match StartNextWrite(cfg, e, w, from)
    case Some(s) => s
    case None => if e.review then StartReview(cfg, e, w) else StartCommit(e, w)
  }

  function HandleWriteResult(cfg: Config, e: Engine, w: World, a: Answer): (s: Step)
    requires InRange(cfg, e)
    ensures InRange(cfg, s.engine)
    ensures SameRun(e, s.engine)
  {
    if a.ok then WriteFrom(cfg, e, w, e.index + 1) else CloseSession(e, w, FailWrite)
  }

  lemma WriteResultIs(cfg: Config, e: Engine, w: World, a: Answer)
    requires InRange(cfg, e)
    ensures HandleWriteResult(cfg, e, w, a)
         == if a.ok then WriteFrom(cfg, e, w, e.index + 1) else CloseSession(e, w, FailWrite)
  {
  }

  function StartCommit(e: Engine, w: World): (s: Step)
    ensures s.engine.index == e.index
    ensures SameRun(e, s.engine)
  {
    if w.submits then Step(e.(phase := Commit, active := true), [Run(WR)])
    else CloseSession(e, w, FailCommit)
  }

  function HandleCommitResult(e: Engine, w: World, a: Answer): (s: Step)
    ensures s.engine.index == e.index
    ensures SameRun(e, s.engine)
  {
    CloseSession(e, w, if a.ok then Running else FailCommit)
  }

  // ---------------------------------------------------------------------------
  // Reviewing and deciding

  /** One callback for each unreadable entry in `[from, to)`. */
  function UnreadableReports(from: nat, to: nat): (events: seq<Event>)
    requires from <= to
    ensures |events| == to - from
    ensures forall k :: 0 <= k < |events| ==> events[k] == Report(from + k, Unreadable, [])
  {
    seq(to - from, k requires 0 <= k => Report(from + k, Unreadable, []))
  }

  function ReviewFrom(cfg: Config, e: Engine, w: World, from: nat): (s: Step)
    requires from <= |cfg.params|
    ensures InRange(cfg, e) ==> InRange(cfg, s.engine)
    ensures SameRun(e, s.engine)
  {
    var i := NextReadable(cfg, from);
    var reports := UnreadableReports(from, i);
    if i == |cfg.params| then After(reports, EnterDecision(e, w))
    else if w.submits then Step(e.(index := i, active := true), reports + [Get(i)])
    else After(reports, StartDiscard(e, w, FailReview))
  }

  function StartReview(cfg: Config, e: Engine, w: World): (s: Step)
    ensures InRange(cfg, e) ==> InRange(cfg, s.engine)
    ensures SameRun(e, s.engine)
  {
    ReviewFrom(cfg, e.(reviewMismatches := 0, overflow := false, accepted := [], phase := Review), w, 0)
  }

  /** A difference is counted, and its value kept for the verification while there is room. */
  function KeepDifference(e: Engine, value: seq<Byte>): (r: Engine)
    ensures r == e.(reviewMismatches := r.reviewMismatches, overflow := r.overflow, accepted := r.accepted)
  {
    var e1 := e.(reviewMismatches := e.reviewMismatches + 1);
    if |e.accepted| < MAX_ACCEPTED && |value| <= VALUE_MAX then e1.(accepted := e.accepted + [Saved(e.index, value)])
    else e1.(overflow := true)
  }

  /** The state and the callback after one read of the review. */
  function Reviewed(cfg: Config, e: Engine, a: Answer): (s: Step)
    requires e.index < |cfg.params|
    ensures |s.events| == 1 && s.events[0].Report? && s.events[0].entry == e.index
    ensures s.engine == e.(reviewMismatches := s.engine.reviewMismatches, overflow := s.engine.overflow,
                           accepted := s.engine.accepted)
  {
    if !a.ok then Step(e, [Report(e.index, ReadFailed, [])])
    else if ValuesEqual(EntryOf(cfg, e.index), a.value, cfg.params[e.index].value) then
      Step(e, [Report(e.index, Match, a.value)])
    else Step(KeepDifference(e, a.value), [Report(e.index, Mismatch, a.value)])
  }

  function HandleReviewResult(cfg: Config, e: Engine, w: World, a: Answer): (s: Step)
    requires InRange(cfg, e)
    ensures InRange(cfg, s.engine)
    ensures SameRun(e, s.engine)
  {
    var r := Reviewed(cfg, e, a);
    After(r.events, ReviewFrom(cfg, r.engine, w, e.index + 1))
  }

  lemma ReviewResultIs(cfg: Config, e: Engine, w: World, a: Answer)
    requires InRange(cfg, e)
    ensures var r := Reviewed(cfg, e, a);
      HandleReviewResult(cfg, e, w, a) == After(r.events, ReviewFrom(cfg, r.engine, w, e.index + 1))
  {
  }

  function EnterDecision(e: Engine, w: World): (s: Step)
    ensures s.engine.index == e.index
    ensures SameRun(e, s.engine)
  {
    if e.overflow then StartDiscard(e, w, FailReview)
    else Step(e.(decision := Undecided, keepaliveTicks := w.keepaliveTicks,
                 keepaliveTick := Add(w.now, w.keepaliveTicks), phase := AwaitDecision), [])
  }

  function ProcessDecision(e: Engine, w: World): (s: Step)
    ensures s.engine.index == e.index
    ensures SameRun(e, s.engine)
  {
    if !w.sessionOpen then Step(Finish(e, FailSession), [])
    else match e.decision
      case Save => StartCommit(e, w)
      case Drop => StartDiscard(e, w, Declined)
      case Undecided =>
        if Reached(w.now, e.keepaliveTick) && w.submits then
          Step(e.(active := true, keepaliveTick := Add(w.now, e.keepaliveTicks)), [KeepAlive])
        else Step(e, [])
  }

  // ---------------------------------------------------------------------------
  // One pass

  function ProcessAnswer(cfg: Config, e: Engine, w: World, a: Answer): (s: Step)
    requires InRange(cfg, e)
    ensures InRange(cfg, s.engine)
    ensures SameRun(e, s.engine)
  {
    match e.phase
    case Audit => HandleReadResult(cfg, e, w, a)
    case Restore => HandleRestoreResult(cfg, e, w, a)
    case Write => HandleWriteResult(cfg, e, w, a)
    case Review => HandleReviewResult(cfg, e, w, a)
    case Commit => HandleCommitResult(e, w, a)
    case _ => Step(e, [])
  }

  function ProcessBringup(e: Engine, w: World, cfg: Config): (s: Step)
    ensures s.engine.index == e.index
    ensures SameRun(e, s.engine)
  {
    if e.abortRequested && !e.verifying then Step(Finish(e, Aborted), [])
    else if w.failed then Step(Finish(e, FailBringup), [])
    else if !w.ready then Step(e, [])
    else if e.verifying && w.mode != cfg.mode then Step(Finish(e, FailReset), [])
    else if !w.opens then Step(Finish(e, FailSession), [])
    else Step(e.(phase := Open), [])
  }

  function ProcessOpen(cfg: Config, e: Engine, w: World): (s: Step)
    ensures InRange(cfg, e) ==> InRange(cfg, s.engine)
    ensures SameRun(e, s.engine)
  {
    match w.opening
    case InProgress => Step(e, [])
    case NotOpened => Step(Finish(e, FailSession), [])
    case Opened => if e.abortRequested then CloseSession(e, w, Aborted) else StartReadPass(cfg, e, w)
  }

  function ProcessClose(e: Engine, w: World): (s: Step)
    ensures s.engine.index == e.index
    ensures SameRun(e, s.engine)
  {
    if w.sessionOpen then
      if !Reached(w.now, e.closeDeadline) then Step(e, [])
      else Step(Finish(e, if e.pending.Running? then FailCommit else e.pending), [])
    else if !e.pending.Running? then Step(Finish(e, e.pending), [])
    else if !w.resets then Step(Finish(e, FailReset), [])
    else Step(e.(verifying := true, phase := Reset), [HwReset])
  }

  function ProcessDiscard(e: Engine, w: World): (s: Step)
    ensures s.engine.index == e.index
    ensures SameRun(e, s.engine)
  {
    if w.failed then Step(Finish(e, FailReset), [])
    else if !w.ready then Step(e, [])
    else Step(Finish(e, e.pending), [])
  }

  /** `xbee_provision_process`. */
  function Process(cfg: Config, e: Engine, w: World): (s: Step)
    requires InRange(cfg, e)
    ensures InRange(cfg, s.engine)
    ensures SameRun(e, s.engine)
  {
    if e.phase.Idle? then Step(e, [])
    else if e.active then
      match w.answer
      case None => Step(e, [])
      case Some(a) => After([Reply(a)], ProcessAnswer(cfg, e.(active := false), w, a))
    else match e.phase
      case Bringup => ProcessBringup(e, w, cfg)
      case Open => ProcessOpen(cfg, e, w)
      case Close => ProcessClose(e, w)
      case Reset => Step(e.(phase := Bringup), [])
      case AwaitDecision => ProcessDecision(e, w)
      case Discard => ProcessDiscard(e, w)
      case _ => Step(e, [])
  }

  /** `xbee_provision_decide`: the second result says whether the call was accepted. */
  function Decide(e: Engine, save: bool): (r: (Step, bool))
  {
    if e.phase.AwaitDecision? && e.decision.Undecided? then
      (Step(e.(decision := if save then Save else Drop), [Decided(save)]), true)
    else (Step(e, []), false)
  }

  /** `xbee_provision_abort`. */
  function Abort(e: Engine): (r: (Step, bool))
  {
    if e.phase.AwaitDecision? then Decide(e, false)
    else if e.verifying || !(e.phase.Bringup? || e.phase.Open? || e.phase.Audit?) then (Step(e, []), false)
    else (Step(e.(abortRequested := true), [AbortAsked]), true)
  }

  /**
   `prepare_run` followed by either entry point: everything a run keeps is reset, and what an
   earlier run left in the other fields stays.
   */
  function Start(e: Engine, review: bool): (r: Engine)
  {
    e.(phase := Bringup, outcome := Running, pending := Running, active := false, verifying := false,
       fellBack := false, abortRequested := false, reviewMismatches := 0, overflow := false,
       accepted := [], decision := Undecided, index := 0, differs := {}, review := review)
  }

  // ---------------------------------------------------------------------------
  // Whole runs

  /** One thing that can happen to a started run. */
  datatype Input = Pass(world: World) | AskAbort | AskDecide(save: bool)

  function React(cfg: Config, e: Engine, input: Input): (s: Step)
    requires InRange(cfg, e)
    ensures InRange(cfg, s.engine)
  {
    match input
    case Pass(w) => Process(cfg, e, w)
    case AskAbort => Abort(e).0
    case AskDecide(save) => Decide(e, save).0
  }

  /** The state and the whole log of a run: any sequence of passes, aborts and decisions. */
  function RunOf(cfg: Config, start: Engine, inputs: seq<Input>): (s: Step)
    requires InRange(cfg, start)
    ensures InRange(cfg, s.engine)
  {
    if inputs == [] then Step(start, [])
    else
      var before := RunOf(cfg, start, inputs[..|inputs| - 1]);
      After(before.events, React(cfg, before.engine, inputs[|inputs| - 1]))
  }

  /** A run in any world: the state it has reached and its log, whatever an earlier run left behind. */
  ghost predicate IsRun(cfg: Config, review: bool, run: Step)
  {
    cfg.params != []
    && exists left: Engine, inputs: seq<Input> :: run == RunOf(cfg, Start(left, review), inputs)
  }

  /** A start begins a run. */
  lemma RunBegins(cfg: Config, left: Engine, review: bool)
    requires cfg.params != []
    ensures IsRun(cfg, review, Step(Start(left, review), []))
  {
    assert Step(Start(left, review), []) == RunOf(cfg, Start(left, review), []);
  }

  lemma RunIsInRange(cfg: Config, review: bool, run: Step)
    requires IsRun(cfg, review, run)
    ensures InRange(cfg, run.engine)
  {
  }

  /** One more input moves a run one step on. */
  lemma RunGrows(cfg: Config, start: Engine, inputs: seq<Input>, input: Input)
    requires InRange(cfg, start)
    ensures var before := RunOf(cfg, start, inputs);
      RunOf(cfg, start, inputs + [input]) == After(before.events, React(cfg, before.engine, input))
  {
    var longer := inputs + [input];
    assert longer[..|longer| - 1] == inputs;
  }

  /** What is added to a log is added to its latest part. */
  lemma LatestPartGrows(log: seq<Event>, s: Step, began: nat)
    requires began <= |log|
    ensures After(log, s).events[began..] == After(log[began..], s).events
  {
    assert (log + s.events)[began..] == log[began..] + s.events;
  }

  /** Whatever happens next, the run goes on: its log is the part of the whole log since it began. */
  lemma RunGoesOn(cfg: Config, review: bool, before: Step, began: nat, input: Input)
    requires InRange(cfg, before.engine) && began <= |before.events|
    requires IsRun(cfg, review, Step(before.engine, before.events[began..]))
    ensures var after := After(before.events, React(cfg, before.engine, input));
      IsRun(cfg, review, Step(after.engine, after.events[began..]))
  {
    var so := Step(before.engine, before.events[began..]);
    var left, inputs :| so == RunOf(cfg, Start(left, review), inputs);
    RunGrows(cfg, Start(left, review), inputs, input);
    LatestPartGrows(before.events, React(cfg, before.engine, input), began);
  }
}

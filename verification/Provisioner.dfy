/**
 The provisioning sequence as the firmware runs it: file-scope state updated step by step, with
 loops that scan the table, a bitmap of the entries the audit saw differ, and a fixed buffer of
 accepted values. Every method is proved to do what the specification function of the same step
 does; `log` records what the outside can see.
 */
module Provisioner {
  import opened Base
  import opened Ticks
  import opened AtTable
  import opened ProvisionEngine
  import ProvisionTrace
  import ProvisionPass

  // ---------------------------------------------------------------------------
  // The bitmap

  function Mask(k: nat): (m: bv8)
    requires k < 8
  {
    (1 as bv8) << k
  }

  lemma MasksAreDistinct(bits: bv8, k: nat, j: nat)
    requires k < 8 && j < 8
    ensures (bits | Mask(k)) & Mask(j) != 0 <==> (k == j || bits & Mask(j) != 0)
  {
    assert k in {0, 1, 2, 3, 4, 5, 6, 7} && j in {0, 1, 2, 3, 4, 5, 6, 7};
  }

  predicate Marked(bitmap: seq<bv8>, i: nat)
    requires i / 8 < |bitmap|
  {
    bitmap[i / 8] & Mask(i % 8) != 0
  }

  function MarkedEntries(bitmap: seq<bv8>): (marked: set<nat>)
  {
    set i: nat | 0 <= i < 8 * |bitmap| && Marked(bitmap, i)
  }

  /** Setting one bit adds that entry and no other. */
  lemma MarkAddsOne(bitmap: seq<bv8>, i: nat)
    requires i / 8 < |bitmap|
    ensures MarkedEntries(bitmap[i / 8 := bitmap[i / 8] | Mask(i % 8)]) == MarkedEntries(bitmap) + {i}
  {
    var after := bitmap[i / 8 := bitmap[i / 8] | Mask(i % 8)];
    forall j: nat | j / 8 < |bitmap|
      ensures Marked(after, j) <==> j == i || Marked(bitmap, j)
    {
      MasksAreDistinct(bitmap[i / 8], i % 8, j % 8);
    }
  }

  // ---------------------------------------------------------------------------
  // The sequence

  lemma AfterTwice(a: seq<Event>, b: seq<Event>, s: Step)
    ensures After(a, After(b, s)) == After(a + b, s)
  {
    assert a + b + s.events == a + (b + s.events);
  }

  lemma ReviewResultAfter(cfg: Config, e: Engine, w: World, a: Answer, log: seq<Event>)
    requires InRange(cfg, e)
    ensures var r := Reviewed(cfg, e, a);
      After(log, HandleReviewResult(cfg, e, w, a)) == After(log + r.events, ReviewFrom(cfg, r.engine, w, e.index + 1))
  {
    var r := Reviewed(cfg, e, a);
    ReviewResultIs(cfg, e, w, a);
    AfterTwice(log, r.events, ReviewFrom(cfg, r.engine, w, e.index + 1));
  }

  /** The answer a start or a host call returns. */
  datatype Status = Ok | InvalidState | NotReady | WouldOverflow | Failure

  class Provisioner {
    const cfg: Config
    var state: Phase
    var result: Outcome
    var pendingResult: Outcome
    var reqActive: bool
    var tableIndex: nat
    var verifying: bool
    var mismatchCount: nat
    var restoreFellBack: bool
    const auditMismatch: array<bv8>
    var review: bool
    var reviewMismatchCount: nat
    var reviewOverflow: bool
    const accepted: array<Saved>
    var acceptedCount: nat
    var decision: Decision
    var closeDeadlineTick: Tick
    var keepaliveTick: Tick
    var keepaliveTicks: Tick
    var abortRequested: bool
    ghost var log: seq<Event>

    ghost predicate Valid()
      reads this
    {
      && auditMismatch.Length == MAX_PARAMS / 8
      && accepted.Length == MAX_ACCEPTED
      && acceptedCount <= MAX_ACCEPTED
      && (!Runnable() ==> state.Idle? || state.Done?)
      && (Runnable() ==> tableIndex < |cfg.params|)
    }

    /** The table has entries, and no more than the bitmap has bits for. */
    predicate Runnable() { 0 < |cfg.params| <= MAX_PARAMS }

    /** The state as a value. */
    ghost function View(): (e: Engine)
      requires Valid()
      reads this, auditMismatch, accepted
    {
      Engine(state, result, pendingResult, reqActive, tableIndex, verifying, mismatchCount, restoreFellBack,
             MarkedEntries(auditMismatch[..]), review, reviewMismatchCount, reviewOverflow,
             accepted[..acceptedCount], decision, closeDeadlineTick, keepaliveTick, keepaliveTicks, abortRequested)
    }

    /** The state and everything the outside has seen so far. */
    ghost function Now(): (s: Step)
      requires Valid()
      reads this, auditMismatch, accepted
    {
      Step(View(), log)
    }

    /** The run that began when so much of the log was there is still going on, or has ended as it is. */
    ghost predicate InRun(reviewing: bool, began: nat)
      requires Valid()
      reads this, auditMismatch, accepted
    {
      began <= |log| && IsRun(cfg, reviewing, Step(View(), log[began..]))
    }

    constructor (config: Config)
      ensures Valid() && cfg == config && log == [] && state.Idle?
      ensures fresh(auditMismatch) && fresh(accepted)
    {
      cfg := config;
      state, result, pendingResult := Idle, Running, Running;
      reqActive, tableIndex, verifying, mismatchCount, restoreFellBack := false, 0, false, 0, false;
      auditMismatch := new bv8[MAX_PARAMS / 8](_ => 0);
      review, reviewMismatchCount, reviewOverflow := false, 0, false;
      accepted := new Saved[MAX_ACCEPTED](_ => Saved(0, []));
      acceptedCount, decision := 0, Undecided;
      closeDeadlineTick, keepaliveTick, keepaliveTicks, abortRequested := 0, 0, 0, false;
      log := [];
    }

    method Finish(outcome: Outcome)
      requires Valid()
      modifies this`result, this`state, this`reqActive
      ensures Valid() && Now() == After(old(log), Step(ProvisionEngine.Finish(old(View()), outcome), []))
    {
      result, state, reqActive := outcome, Done, false;
    }

    method CloseSession(w: World, outcome: Outcome)
      requires Valid() && Runnable()
      modifies this
      ensures Valid() && Now() == After(old(log), ProvisionEngine.CloseSession(old(View()), w, outcome))
    {
      PrepareClose(w, outcome);
      if !w.sessionOpen || !w.closes {
        if outcome.Running? {
          state := Close;
          return;
        }
        Finish(outcome);
        return;
      }
      log := log + [Exit];
      state := Close;
    }

    method PrepareClose(w: World, outcome: Outcome)
      requires Valid()
      modifies this`pendingResult, this`reqActive, this`closeDeadlineTick
      ensures Valid()
      ensures View()
           == old(View()).(pending := outcome, active := false, closeDeadline := Add(w.now, w.closeTicks))
    {
      pendingResult, reqActive := outcome, false;
      closeDeadlineTick := Add(w.now, w.closeTicks);
    }

    method StartCommit(w: World)
      requires Valid() && Runnable()
      modifies this
      ensures Valid() && Now() == After(old(log), ProvisionEngine.StartCommit(old(View()), w))
    {
      if !w.submits {
        CloseSession(w, FailCommit);
        return;
      }
      log := log + [Run(WR)];
      state, reqActive := Commit, true;
    }

    method MarkMismatch(index: nat)
      requires Valid() && index < MAX_PARAMS
      modifies auditMismatch
      ensures Valid() && View() == old(View()).(differs := old(View()).differs + {index})
    {
      ghost var bits, kept := auditMismatch[..], accepted[..acceptedCount];
      MarkAddsOne(bits, index);
      auditMismatch[index / 8] := auditMismatch[index / 8] | Mask(index % 8);
      assert auditMismatch[..] == bits[index / 8 := bits[index / 8] | Mask(index % 8)];
      assert accepted[..acceptedCount] == kept;
    }

    method IsMismatch(index: nat) returns (differs: bool)
      requires Valid() && index < MAX_PARAMS
      ensures differs <==> index in View().differs
    {
      differs := auditMismatch[index / 8] & Mask(index % 8) != 0;
      assert differs == Marked(auditMismatch[..], index);
    }

    /** Nothing is done when the table has run out; otherwise a read is out or the run was stopped. */
    method StartNextRead(w: World, from: nat) returns (busy: bool)
      requires Valid() && Runnable() && from <= |cfg.params|
      modifies this
      ensures Valid() && busy == ProvisionEngine.StartNextRead(cfg, old(View()), w, from).Some?
      ensures busy ==> Now() == After(old(log), ProvisionEngine.StartNextRead(cfg, old(View()), w, from).value)
      ensures !busy ==> Now() == old(Now())
    {
      var i := from;
      while i < |cfg.params| && ValidateGet(cfg.entries, cfg.params[i].command) != Accepted
        invariant i <= |cfg.params|
        invariant NextReadable(cfg, i) == NextReadable(cfg, from)
      {
        i := i + 1;
      }
      if i == |cfg.params| {
        return false;
      }
      if !w.submits {
        CloseSession(w, if verifying then FailVerify else FailAudit);
        return true;
      }
      log := log + [Get(i)];
      tableIndex, reqActive := i, true;
      busy := true;
    }

    /** The next entry that is not at its default, or that the audit saw differ. */
    method FindDeviation(from: nat) returns (i: nat)
      requires Valid() && Runnable() && from <= |cfg.params|
      ensures i == NextWritten(cfg, View().differs, from)
    {
      i := from;
      while i < |cfg.params|
        invariant i <= |cfg.params|
        invariant NextWritten(cfg, View().differs, i) == NextWritten(cfg, View().differs, from)
      {
        var entry := FindEntry(cfg.entries, cfg.params[i].command);
        var isDefault := CheckDefault(entry, cfg.params[i].value);
        var differs := IsMismatch(i);
        if !isDefault || differs {
          return;
        }
        i := i + 1;
      }
    }

    method StartNextWrite(w: World, from: nat) returns (busy: bool)
      requires Valid() && Runnable() && from <= |cfg.params|
      modifies this
      ensures Valid() && busy == ProvisionEngine.StartNextWrite(cfg, old(View()), w, from).Some?
      ensures busy ==> Now() == After(old(log), ProvisionEngine.StartNextWrite(cfg, old(View()), w, from).value)
      ensures !busy ==> Now() == old(Now())
    {
      var i := FindDeviation(from);
      if i == |cfg.params| {
        return false;
      }
      if !w.submits {
        CloseSession(w, FailWrite);
        return true;
      }
      log := log + [Put(i)];
      tableIndex, reqActive := i, true;
      busy := true;
    }

    method StartDiscard(w: World, outcome: Outcome)
      requires Valid() && Runnable()
      modifies this
      ensures Valid() && Now() == After(old(log), ProvisionEngine.StartDiscard(old(View()), w, outcome))
    {
      ghost var was := View();
      reqActive, pendingResult := false, outcome;
      assert View() == was.(active := false, pending := outcome);
      if !w.resets {
        Finish(FailReset);
        return;
      }
      log := log + [HwReset];
      state := Discard;
    }

    method FindAccepted(index: nat) returns (saved: Option<seq<Byte>>)
      requires Valid()
      ensures saved == FindSaved(accepted[..acceptedCount], index)
    {
      var i := 0;
      while i < acceptedCount
        invariant i <= acceptedCount
        invariant FindSaved(accepted[i..acceptedCount], index) == FindSaved(accepted[..acceptedCount], index)
      {
        if accepted[i].index == index {
          return Some(accepted[i].value);
        }
        assert accepted[i..acceptedCount][1..] == accepted[i + 1..acceptedCount];
        i := i + 1;
      }
      saved := None;
    }

    method EnterDecision(w: World)
      requires Valid() && Runnable()
      modifies this
      ensures Valid() && Now() == After(old(log), ProvisionEngine.EnterDecision(old(View()), w))
    {
      if reviewOverflow {
        StartDiscard(w, FailReview);
        return;
      }
      decision, keepaliveTicks := Undecided, w.keepaliveTicks;
      keepaliveTick := Add(w.now, keepaliveTicks);
      state := AwaitDecision;
    }

    /** Report the entries that cannot be read, up to the next one that can. */
    method ReportUnreadable(from: nat) returns (i: nat)
      requires Valid() && Runnable() && from <= |cfg.params|
      modifies this`log
      ensures i == NextReadable(cfg, from)
      ensures log == old(log) + UnreadableReports(from, i)
    {
      i := from;
      while i < |cfg.params| && ValidateGet(cfg.entries, cfg.params[i].command) != Accepted
        invariant from <= i <= |cfg.params|
        invariant NextReadable(cfg, i) == NextReadable(cfg, from)
        invariant log == old(log) + UnreadableReports(from, i)
      {
        log := log + [Report(i, Unreadable, [])];
        assert UnreadableReports(from, i + 1) == UnreadableReports(from, i) + [Report(i, Unreadable, [])];
        i := i + 1;
      }
    }

    method StartNextReview(w: World, from: nat) returns (busy: bool)
      requires Valid() && Runnable() && from <= |cfg.params|
      modifies this
      ensures Valid()
      ensures busy ==> Now() == After(old(log), ReviewFrom(cfg, old(View()), w, from))
      ensures !busy ==> NextReadable(cfg, from) == |cfg.params|
      ensures !busy ==> Now() == After(old(log), Step(old(View()), UnreadableReports(from, |cfg.params|)))
    {
      ghost var was := View();
      var i := ReportUnreadable(from);
      assert View() == was;
      ghost var reports := UnreadableReports(from, i);
      if i == |cfg.params| {
        return false;
      }
      if !w.submits {
        StartDiscard(w, FailReview);
        AfterTwice(old(log), reports, ProvisionEngine.StartDiscard(was, w, FailReview));
        return true;
      }
      assert log + [Get(i)] == old(log) + (reports + [Get(i)]);
      log := log + [Get(i)];
      tableIndex, reqActive := i, true;
      busy := true;
    }

    /** The review goes on to the next entry, or to the decision. */
    method ReviewOn(w: World, from: nat)
      requires Valid() && Runnable() && from <= |cfg.params|
      modifies this
      ensures Valid() && Now() == After(old(log), ReviewFrom(cfg, old(View()), w, from))
    {
      var busy := StartNextReview(w, from);
      if !busy {
        EnterDecision(w);
      }
    }

    method StartReview(w: World)
      requires Valid() && Runnable()
      modifies this
      ensures Valid() && Now() == After(old(log), ProvisionEngine.StartReview(cfg, old(View()), w))
    {
      ghost var was := View();
      reviewMismatchCount, reviewOverflow, acceptedCount := 0, false, 0;
      state := Review;
      assert View() == was.(reviewMismatches := 0, overflow := false, accepted := [], phase := Review);
      ReviewOn(w, 0);
    }

    method Remember(value: seq<Byte>)
      requires Valid() && Runnable() && acceptedCount < MAX_ACCEPTED
      modifies this`acceptedCount, accepted
      ensures Valid() && View() == old(View()).(accepted := old(View()).accepted + [Saved(tableIndex, value)])
    {
      ghost var bits, kept := auditMismatch[..], accepted[..acceptedCount];
      accepted[acceptedCount] := Saved(tableIndex, value);
      acceptedCount := acceptedCount + 1;
      assert accepted[..acceptedCount] == kept + [Saved(tableIndex, value)];
      assert auditMismatch[..] == bits;
    }

    /** Count a difference and keep its value for the verification, while there is room. */
    method Keep(value: seq<Byte>)
      requires Valid() && Runnable()
      modifies this`reviewMismatchCount, this`acceptedCount, this`reviewOverflow, accepted
      ensures Valid() && View() == KeepDifference(old(View()), value)
    {
      reviewMismatchCount := reviewMismatchCount + 1;
      if acceptedCount < MAX_ACCEPTED && |value| <= VALUE_MAX {
        Remember(value);
      } else {
        reviewOverflow := true;
      }
    }

    /** Compare one answer of the review, keep it if it differs, and tell the host. */
    method RecordReview(a: Answer)
      requires Valid() && Runnable()
      modifies this, accepted
      ensures Valid() && Now() == After(old(log), Reviewed(cfg, old(View()), a))
    {
      if !a.ok {
        log := log + [Report(tableIndex, ReadFailed, [])];
        return;
      }
      var entry := FindEntry(cfg.entries, cfg.params[tableIndex].command);
      var same := CompareValues(entry, a.value, cfg.params[tableIndex].value);
      if same {
        log := log + [Report(tableIndex, Match, a.value)];
      } else {
        Keep(a.value);
        log := log + [Report(tableIndex, Mismatch, a.value)];
      }
    }

    method HandleReviewResult(w: World, a: Answer)
      requires Valid() && Runnable()
      modifies this, accepted
      ensures Valid() && Now() == After(old(log), ProvisionEngine.HandleReviewResult(cfg, old(View()), w, a))
    {
      ReviewResultAfter(cfg, View(), w, a, log);
      RecordReview(a);
      ReviewOn(w, tableIndex + 1);
    }

    method StartRestore(w: World, fallback: bool)
      requires Valid() && Runnable()
      modifies this
      ensures Valid() && Now() == After(old(log), ProvisionEngine.StartRestore(cfg, old(View()), w, fallback))
    {
      var command := if cfg.factoryRestore && !fallback then R1 else RE;
      if !w.submits {
        CloseSession(w, FailRestore);
        return;
      }
      log := log + [Run(command)];
      state, reqActive := Restore, true;
    }

    method StartReadPass(w: World)
      requires Valid() && Runnable()
      modifies this
      ensures Valid() && Now() == After(old(log), ProvisionEngine.StartReadPass(cfg, old(View()), w))
    {
      BeginPass();
      var busy := StartNextRead(w, 0);
      if !busy {
        CloseSession(w, FailAudit);
      }
    }

    method BeginPass()
      requires Valid() && Runnable()
      modifies this`mismatchCount, this`state
      ensures Valid() && View() == old(View()).(mismatches := 0, phase := Audit)
    {
      mismatchCount := 0;
      state := Audit;
    }

    /** The value a read pass compares the current entry with. */
    method ExpectedValue() returns (expected: seq<Byte>)
      requires Valid() && Runnable()
      ensures expected == Expected(cfg, if verifying then View().accepted else [], tableIndex)
    {
      expected := cfg.params[tableIndex].value;
      if verifying {
        var saved := FindAccepted(tableIndex);
        if saved.Some? {
          expected := saved.value;
        }
      }
    }

    method IsUnexpected(a: Answer) returns (unexpected: bool)
      requires Valid() && Runnable()
      ensures unexpected == Unexpected(cfg, View(), a)
    {
      if !a.ok {
        return false;
      }
      var entry := FindEntry(cfg.entries, cfg.params[tableIndex].command);
      var expected := ExpectedValue();
      var same := CompareValues(entry, a.value, expected);
      unexpected := !same;
    }

    /** Count a mismatch, and mark the entry during the audit. */
    method NoteMismatch()
      requires Valid() && Runnable()
      modifies this`mismatchCount, auditMismatch
      ensures Valid() && log == old(log)
      ensures View() == old(View()).(mismatches := old(mismatchCount) + 1,
                                     differs := if verifying then old(View()).differs
                                                else old(View()).differs + {tableIndex})
    {
      ghost var was := View();
      mismatchCount := mismatchCount + 1;
      assert View() == was.(mismatches := was.mismatches + 1);
      if !verifying {
        MarkMismatch(tableIndex);
      }
    }

    method HandleReadResult(w: World, a: Answer)
      requires Valid() && Runnable()
      modifies this, auditMismatch
      ensures Valid() && Now() == After(old(log), ProvisionEngine.HandleReadResult(cfg, old(View()), w, a))
    {
      ghost var was := View();
      var unexpected := IsUnexpected(a);
      if unexpected {
        NoteMismatch();
      }
      assert View() == Compared(cfg, was, a);
      if unexpected && verifying {
        CloseSession(w, FailVerify);
        return;
      }
      ReadTheRest(w);
    }

    method ReadTheRest(w: World)
      requires Valid() && Runnable()
      modifies this
      ensures Valid() && Now() == After(old(log), ReadOn(cfg, old(View()), w))
    {
      if abortRequested && !verifying {
        CloseSession(w, Aborted);
        return;
      }
      var busy := StartNextRead(w, tableIndex + 1);
      if !busy {
        CompletePass(w);
      }
    }

    method CompletePass(w: World)
      requires Valid() && Runnable()
      modifies this
      ensures Valid() && Now() == After(old(log), PassComplete(old(View()), w, cfg))
    {
      if verifying {
        if acceptedCount > 0 {
          CloseSession(w, WrittenWithDifferences);
          return;
        }
        CloseSession(w, Written);
        return;
      }
      if mismatchCount == 0 {
        CloseSession(w, AlreadyProvisioned);
        return;
      }
      StartRestore(w, false);
    }

    /** Write on from one entry, or go on once every deviating parameter has been written. */
    method WriteOn(w: World, from: nat)
      requires Valid() && Runnable() && from <= |cfg.params|
      modifies this
      ensures Valid() && Now() == After(old(log), WriteFrom(cfg, old(View()), w, from))
    {
      var busy := StartNextWrite(w, from);
      if !busy {
        if review {
          StartReview(w);
        } else {
          StartCommit(w);
        }
      }
    }

    method HandleRestoreResult(w: World, a: Answer)
      requires Valid() && Runnable()
      modifies this
      ensures Valid() && Now() == After(old(log), ProvisionEngine.HandleRestoreResult(cfg, old(View()), w, a))
    {
      if !a.ok {
        if cfg.factoryRestore && !restoreFellBack {
          restoreFellBack := true;
          StartRestore(w, true);
          return;
        }
        CloseSession(w, FailRestore);
        return;
      }
      state := Write;
      WriteOn(w, 0);
    }

    method ProcessDecision(w: World)
      requires Valid() && Runnable()
      modifies this
      ensures Valid() && Now() == After(old(log), ProvisionEngine.ProcessDecision(old(View()), w))
    {
      if !w.sessionOpen {
        Finish(FailSession);
        return;
      }
      if decision.Save? {
        StartCommit(w);
        return;
      }
      if decision.Drop? {
        StartDiscard(w, Declined);
        return;
      }
      if Reached(w.now, keepaliveTick) && w.submits {
        log := log + [KeepAlive];
        reqActive := true;
        keepaliveTick := Add(w.now, keepaliveTicks);
      }
    }

    /** Advance the run while a request is outstanding. */
    method ProcessRequest(w: World)
      requires Valid() && Runnable() && reqActive
      modifies this, auditMismatch, accepted
      ensures Valid()
      ensures w.answer.None? ==> Now() == old(Now())
      ensures w.answer.Some? ==>
        Now() == After(old(log) + [Reply(w.answer.value)],
                       ProcessAnswer(cfg, old(View()).(active := false), w, w.answer.value))
    {
      if w.answer.None? {
        return;
      }
      var a := w.answer.value;
      ghost var was := View();
      log := log + [Reply(a)];
      reqActive := false;
      assert View() == was.(active := false);
      HandleAnswer(w, a);
    }

    method HandleAnswer(w: World, a: Answer)
      requires Valid() && Runnable()
      modifies this, auditMismatch, accepted
      ensures Valid() && Now() == After(old(log), ProcessAnswer(cfg, old(View()), w, a))
    {
      match state
      case Audit => HandleReadResult(w, a);
      case Restore => HandleRestoreResult(w, a);
      case Write =>
        if !a.ok {
          CloseSession(w, FailWrite);
        } else {
          WriteOn(w, tableIndex + 1);
        }
      case Review => HandleReviewResult(w, a);
      case Commit =>
        if !a.ok {
          CloseSession(w, FailCommit);
        } else {
          CloseSession(w, Running);
        }
      case _ =>
    }

    method ProcessBringup(w: World)
      requires Valid() && Runnable()
      modifies this
      ensures Valid() && Now() == After(old(log), ProvisionEngine.ProcessBringup(old(View()), w, cfg))
    {
      if abortRequested && !verifying {
        Finish(Aborted);
        return;
      }
      if w.failed {
        Finish(FailBringup);
        return;
      }
      if !w.ready {
        return;
      }
      if verifying && w.mode != cfg.mode {
        Finish(FailReset);
        return;
      }
      if !w.opens {
        Finish(FailSession);
        return;
      }
      state := Open;
    }

    method ProcessOpen(w: World)
      requires Valid() && Runnable()
      modifies this
      ensures Valid() && Now() == After(old(log), ProvisionEngine.ProcessOpen(cfg, old(View()), w))
    {
      match w.opening
      case InProgress =>
      case NotOpened => Finish(FailSession);
      case Opened =>
        if abortRequested {
          CloseSession(w, Aborted);
        } else {
          StartReadPass(w);
        }
    }

    method ProcessClose(w: World)
      requires Valid() && Runnable()
      modifies this
      ensures Valid() && Now() == After(old(log), ProvisionEngine.ProcessClose(old(View()), w))
    {
      if w.sessionOpen {
        if Reached(w.now, closeDeadlineTick) {
          Finish(if pendingResult.Running? then FailCommit else pendingResult);
        }
        return;
      }
      if !pendingResult.Running? {
        Finish(pendingResult);
        return;
      }
      if !w.resets {
        Finish(FailReset);
        return;
      }
      log := log + [HwReset];
      verifying, state := true, Reset;
    }

    method ProcessDiscard(w: World)
      requires Valid() && Runnable()
      modifies this
      ensures Valid() && Now() == After(old(log), ProvisionEngine.ProcessDiscard(old(View()), w))
    {
      if w.failed {
        Finish(FailReset);
        return;
      }
      if w.ready {
        Finish(pendingResult);
      }
    }

    /** Advance the run: one pass of the super loop, in whatever world it meets. */
    method Process(w: World)
      requires Valid()
      modifies this, auditMismatch, accepted
      ensures Valid()
      ensures Runnable() ==> Now() == After(old(log), ProvisionEngine.Process(cfg, old(View()), w))
      ensures !Runnable() ==> Now() == old(Now())
      ensures forall r: bool, b: nat :: old(InRun(r, b)) ==> InRun(r, b)
    {
      ghost var before := Now();
      Advance(w);
      forall r: bool, b: nat | old(InRun(r, b))
        ensures InRun(r, b)
      {
        if Runnable() {
          RunGoesOn(cfg, r, before, b, Pass(w));
        }
      }
    }

    method Advance(w: World)
      requires Valid()
      modifies this, auditMismatch, accepted
      ensures Valid()
      ensures Runnable() ==> Now() == After(old(log), ProvisionEngine.Process(cfg, old(View()), w))
      ensures !Runnable() ==> Now() == old(Now())
    {
      if state.Idle? || (state.Done? && !reqActive) || !Runnable() {
        return;
      }
      if reqActive {
        ghost var was := View();
        ProcessRequest(w);
        if w.answer.Some? {
          AfterTwice(old(log), [Reply(w.answer.value)],
                     ProcessAnswer(cfg, was.(active := false), w, w.answer.value));
        }
        return;
      }
      ProcessState(w);
    }

    /** A pass with no request outstanding. */
    method ProcessState(w: World)
      requires Valid() && Runnable() && !reqActive
      modifies this
      ensures Valid() && Now() == After(old(log), ProvisionEngine.Process(cfg, old(View()), w))
    {
      match state
      case Bringup => ProcessBringup(w);
      case Open => ProcessOpen(w);
      case Close => ProcessClose(w);
      case Reset => state := Bringup;
      case AwaitDecision => ProcessDecision(w);
      case Discard => ProcessDiscard(w);
      case _ =>
    }

    // -------------------------------------------------------------------------
    // What the host calls

    /** Clear everything a run keeps; the start state is the specification's. */
    method PrepareRun(reviewing: bool) returns (status: Status)
      requires Valid()
      modifies this, auditMismatch
      ensures Valid() && log == old(log)
      ensures status == if cfg.params == [] then InvalidState else if !Runnable() then WouldOverflow else Ok
      ensures status.Ok? ==> View() == Start(old(View()), reviewing).(phase := old(state))
      ensures !status.Ok? ==> View() == ProvisionEngine.Finish(old(View()), FailBringup)
    {
      if |cfg.params| == 0 {
        Finish(FailBringup);
        return InvalidState;
      }
      if |cfg.params| > MAX_PARAMS {
        Finish(FailBringup);
        return WouldOverflow;
      }
      ClearMarks();
      ClearRun(reviewing);
      status := Ok;
    }

    method ClearRun(reviewing: bool)
      requires Valid()
      modifies this
      ensures Valid() && log == old(log)
      ensures View() == Start(old(View()), reviewing).(phase := old(state), differs := old(View()).differs)
    {
      ClearReview(reviewing);
      ClearProgress();
      result, pendingResult := Running, Running;
    }

    method ClearProgress()
      requires Valid()
      modifies this`reqActive, this`verifying, this`restoreFellBack, this`abortRequested, this`tableIndex
      ensures Valid()
      ensures View() == old(View()).(active := false, verifying := false, fellBack := false,
                                     abortRequested := false, index := 0)
    {
      reqActive, verifying, restoreFellBack := false, false, false;
      abortRequested, tableIndex := false, 0;
    }

    method ClearReview(reviewing: bool)
      requires Valid()
      modifies this`reviewMismatchCount, this`reviewOverflow, this`acceptedCount, this`decision, this`review
      ensures Valid()
      ensures View() == old(View()).(reviewMismatches := 0, overflow := false, accepted := [],
                                     decision := Undecided, review := reviewing)
    {
      reviewMismatchCount, reviewOverflow, acceptedCount := 0, false, 0;
      decision, review := Undecided, reviewing;
    }

    method ClearMarks()
      requires Valid()
      modifies auditMismatch
      ensures Valid() && View() == old(View()).(differs := {})
    {
      ghost var kept := accepted[..acceptedCount];
      var i := 0;
      while i < auditMismatch.Length
        invariant i <= auditMismatch.Length
        invariant forall k :: 0 <= k < i ==> auditMismatch[k] == 0
      {
        auditMismatch[i] := 0;
        i := i + 1;
      }
      assert MarkedEntries(auditMismatch[..]) == {};
      assert accepted[..acceptedCount] == kept;
    }

    /** Start a run on a facade the caller already runs. */
    method StartRun(w: World, reviewing: bool) returns (status: Status)
      requires Valid()
      modifies this, auditMismatch
      ensures Valid() && log == old(log)
      ensures !(old(state).Idle? || old(state).Done?) ==> status.InvalidState? && Now() == old(Now())
      ensures (old(state).Idle? || old(state).Done?) && !w.ready ==> status.NotReady? && Now() == old(Now())
      ensures status.Ok? <==> (old(state).Idle? || old(state).Done?) && w.ready && Runnable()
      ensures status.Ok? ==> View() == Start(old(View()), reviewing) && InRun(reviewing, |log|)
      ensures (old(state).Idle? || old(state).Done?) && w.ready && !Runnable() ==>
        && status == (if cfg.params == [] then InvalidState else WouldOverflow)
        && View() == ProvisionEngine.Finish(old(View()), FailBringup)
    {
      ghost var was := View();
      if !state.Idle? && !state.Done? {
        return InvalidState;
      }
      if !w.ready {
        return NotReady;
      }
      status := PrepareRun(reviewing);
      if status.Ok? {
        state := Bringup;
        RunBegins(cfg, was, reviewing);
        assert log[|log|..] == [];
      }
    }

    /** Start a run at boot, which brings the facade up itself and never asks for a review. */
    method Init(w: World) returns (status: Status)
      requires Valid()
      modifies this, auditMismatch
      ensures Valid() && log == old(log)
      ensures status.Ok? <==> Runnable() && !w.failed
      ensures status.Ok? ==> View() == Start(old(View()), false) && IsRun(cfg, false, Step(View(), []))
      ensures !status.Ok? ==> state.Done? && result.FailBringup?
      ensures !Runnable() ==>
        && status == (if cfg.params == [] then InvalidState else WouldOverflow)
        && View() == ProvisionEngine.Finish(old(View()), FailBringup)
    {
      ghost var was := View();
      status := PrepareRun(false);
      if status.Ok? {
        if w.failed {
          Finish(FailBringup);
          return Failure;
        }
        state := Bringup;
        RunBegins(cfg, was, false);
        assert log[|log|..] == [];
      }
    }

    predicate IsAwaitingDecision()
      reads this
    {
      state.AwaitDecision? && decision.Undecided?
    }

    /** The host's answer to the review. */
    method Decide(save: bool) returns (status: Status)
      requires Valid()
      modifies this
      ensures Valid() && Now() == After(old(log), ProvisionEngine.Decide(old(View()), save).0)
      ensures status.Ok? <==> ProvisionEngine.Decide(old(View()), save).1
      ensures status.Ok? || status.InvalidState?
      ensures forall r: bool, b: nat :: old(InRun(r, b)) ==> InRun(r, b)
    {
      ghost var before := Now();
      if IsAwaitingDecision() {
        log := log + [Decided(save)];
        decision := if save then Save else Drop;
        status := Ok;
      } else {
        status := InvalidState;
      }
      forall r: bool, b: nat | old(InRun(r, b))
        ensures InRun(r, b)
      {
        RunIsInRange(cfg, r, Step(before.engine, before.events[b..]));
        RunGoesOn(cfg, r, before, b, AskDecide(save));
      }
    }

    method Abort() returns (status: Status)
      requires Valid()
      modifies this
      ensures Valid() && Now() == After(old(log), ProvisionEngine.Abort(old(View())).0)
      ensures status.Ok? <==> ProvisionEngine.Abort(old(View())).1
      ensures status.Ok? || status.InvalidState?
      ensures forall r: bool, b: nat :: old(InRun(r, b)) ==> InRun(r, b)
    {
      ghost var before := Now();
      if state.AwaitDecision? {
        status := Decide(false);
      } else if verifying || (!state.Bringup? && !state.Open? && !state.Audit?) {
        status := InvalidState;
      } else {
        log := log + [AbortAsked];
        abortRequested := true;
        status := Ok;
      }
      forall r: bool, b: nat | old(InRun(r, b))
        ensures InRun(r, b)
      {
        RunIsInRange(cfg, r, Step(before.engine, before.events[b..]));
        RunGoesOn(cfg, r, before, b, AskAbort);
      }
    }

    /** What is proved of every run holds of this object: what it sent, and what its result rests on. */
    lemma KeepsItsPromises(reviewing: bool, began: nat)
      requires Valid() && InRun(reviewing, began)
      ensures ProvisionTrace.Orderly(reviewing, log[began..])
      ensures state.Done? ==> ProvisionPass.Evidence(cfg, View(), log[began..], result)
    {
      var run := Step(View(), log[began..]);
      ProvisionTrace.RunIsOrderly(cfg, reviewing, run);
      if state.Done? {
        ProvisionPass.PassMeansReadBack(cfg, reviewing, run);
      }
    }
  }
}

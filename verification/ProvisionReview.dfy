/**
 What the host is told before it decides, and what is kept of it for the verification.
 */
module ProvisionReview {
  import opened AtTable
  import opened ProvisionEngine
  import ProvisionPass

  /** The table entries reported so far, in order. */
  function Reported(log: seq<Event>): (entries: seq<nat>)
  {
    if log == [] then []
    else
      var ev := log[|log| - 1];
      Reported(log[..|log| - 1]) + if ev.Report? then [ev.entry] else []
  }

  /** The values reported as different so far, in order. */
  function Different(log: seq<Event>): (values: seq<Saved>)
  {
    if log == [] then []
    else
      var ev := log[|log| - 1];
      Different(log[..|log| - 1]) + if ev.Report? && ev.kind.Mismatch? then [Saved(ev.entry, ev.value)] else []
  }

  function Range(n: nat): (r: seq<nat>)
    ensures |r| == n && forall i :: 0 <= i < n ==> r[i] == i
  {
    seq(n, i requires 0 <= i => i)
  }

  lemma ReportedOne(log: seq<Event>, ev: Event)
    ensures Reported(log + [ev]) == Reported(log) + if ev.Report? then [ev.entry] else []
    ensures Different(log + [ev])
         == Different(log) + if ev.Report? && ev.kind.Mismatch? then [Saved(ev.entry, ev.value)] else []
  {
    assert (log + [ev])[..|log|] == log;
  }

  lemma OneMoreUnreadable(log: seq<Event>, from: nat, to: nat)
    requires from < to
    ensures log + UnreadableReports(from, to)
         == log + UnreadableReports(from, to - 1) + [Report(to - 1, Unreadable, [])]
  {
    var last := Report(to - 1, Unreadable, []);
    var before := UnreadableReports(from, to - 1);
    assert UnreadableReports(from, to) == before + [last];
    assert log + (before + [last]) == log + before + [last];
  }

  lemma {:induction false} UnreadableReported(log: seq<Event>, from: nat, to: nat)
    requires from <= to && Reported(log) == Range(from)
    ensures Reported(log + UnreadableReports(from, to)) == Range(to)
    ensures Different(log + UnreadableReports(from, to)) == Different(log)
  {
    if from == to {
      assert log + UnreadableReports(from, to) == log;
    } else {
      UnreadableReported(log, from, to - 1);
      var ev := Report(to - 1, Unreadable, []);
      var before := UnreadableReports(from, to - 1);
      ReportedOne(log + before, ev);
      OneMoreUnreadable(log, from, to);
      assert Range(to) == Range(to - 1) + [to - 1];
    }
  }

  lemma {:induction false} QuietEvents(log: seq<Event>, events: seq<Event>)
    requires forall ev :: ev in events ==> !ev.Report?
    ensures Reported(log + events) == Reported(log)
    ensures Different(log + events) == Different(log)
  {
    if events == [] {
      assert log + events == log;
    } else {
      var n := |events| - 1;
      QuietEvents(log, events[..n]);
      ReportedOne(log + events[..n], events[n]);
      assert log + events == log + events[..n] + [events[n]];
      assert events[n] in events;
    }
  }

  /** The different values appear in strictly increasing table order, among those reported. */
  lemma {:induction false} DifferentIncreases(log: seq<Event>)
    requires Reported(log) == Range(|Reported(log)|)
    ensures forall i :: 0 <= i < |Different(log)| ==> Different(log)[i].index < |Reported(log)|
    ensures forall i, j :: 0 <= i < j < |Different(log)| ==> Different(log)[i].index < Different(log)[j].index
  {
    if log == [] {
    } else {
      var init := log[..|log| - 1];
      var ev := log[|log| - 1];
      assert Reported(init) == Range(|Reported(init)|) by {
        assert Reported(init) == Reported(log)[..|Reported(init)|];
      }
      DifferentIncreases(init);
      if ev.Report? {
        assert Reported(log)[|Reported(init)|] == ev.entry;
      }
    }
  }

  // ---------------------------------------------------------------------------
  // The invariant

  /** Every entry below `n` has been reported once, in order, and the engine kept the differences. */
  ghost predicate ReviewedTo(e: Engine, log: seq<Event>, n: nat)
  {
    && Reported(log) == Range(n)
    && e.reviewMismatches == |Different(log)|
    && (!e.overflow ==> e.accepted == Different(log))
    && |e.accepted| <= MAX_ACCEPTED
  }

  ghost predicate NothingReviewed(e: Engine, log: seq<Event>)
  {
    Reported(log) == [] && Different(log) == [] && e.accepted == [] && !e.overflow && e.reviewMismatches == 0
  }

  /** The review is complete and everything it found was kept, or no review was asked for. */
  ghost predicate Agreed(cfg: Config, e: Engine, log: seq<Event>)
  {
    if e.review then ReviewedTo(e, log, |cfg.params|) && !e.overflow else NothingReviewed(e, log)
  }

  ghost predicate ReviewSoFar(cfg: Config, e: Engine, log: seq<Event>)
    requires InRange(cfg, e)
  {
    match e.phase
    case Bringup | Open => !e.active && if e.verifying then Agreed(cfg, e, log) else NothingReviewed(e, log)
    case Audit => if e.verifying then Agreed(cfg, e, log) else NothingReviewed(e, log)
    case Restore | Write => NothingReviewed(e, log) && !e.verifying
    case Review =>
      && e.active && e.review && !e.verifying
      && ReviewedTo(e, log, e.index) && log != [] && log[|log| - 1] == Get(e.index) && Readable(cfg, e.index)
    case AwaitDecision => e.review && Agreed(cfg, e, log) && !e.verifying
    case Commit => Agreed(cfg, e, log)
    case Reset => !e.active && Agreed(cfg, e, log) && e.verifying
    case Close => !e.active && (e.pending.Running? || Verified(e.pending) ==> Agreed(cfg, e, log))
    case Done => !e.active && (Verified(e.outcome) ==> Agreed(cfg, e, log))
    case Discard => !e.active && !Verified(e.pending)
    case Idle => false
  }

  predicate Verified(o: Outcome) { o.Written? || o.WrittenWithDifferences? }

  /** What was reported is true: of the configuration, and of what the module just answered. */
  ghost predicate Truthful(cfg: Config, log: seq<Event>)
  {
    forall k :: 0 <= k < |log| && log[k].Report? ==> TrueReport(cfg, log, k)
  }

  ghost predicate TrueReport(cfg: Config, log: seq<Event>, k: nat)
    requires k < |log| && log[k].Report?
  {
    var r := log[k];
    && r.entry < |cfg.params|
    && (r.kind.Unreadable? ==> !Readable(cfg, r.entry))
    && (!r.kind.Unreadable? ==>
         && k >= 2 && log[k - 2] == Get(r.entry) && log[k - 1].Reply?
         && (r.kind.ReadFailed? <==> !log[k - 1].answer.ok)
         && (!r.kind.ReadFailed? ==> r.value == log[k - 1].answer.value)
         && (r.kind.Match? ==> ValuesEqual(EntryOf(cfg, r.entry), r.value, cfg.params[r.entry].value))
         && (r.kind.Mismatch? ==> !ValuesEqual(EntryOf(cfg, r.entry), r.value, cfg.params[r.entry].value)))
  }

  ghost function Consistent(cfg: Config, log: seq<Event>): (states: iset<Engine>)
  {
    iset e | InRange(cfg, e) && ReviewSoFar(cfg, e, log) && Truthful(cfg, log)
  }

  ghost predicate Keeps(cfg: Config, log: seq<Event>, s: Step)
  {
    s.engine in Consistent(cfg, log + s.events)
  }

  lemma QuietIsTruthful(cfg: Config, log: seq<Event>, events: seq<Event>)
    requires Truthful(cfg, log)
    requires forall ev :: ev in events ==> !ev.Report?
    ensures Truthful(cfg, log + events)
    ensures Reported(log + events) == Reported(log)
    ensures Different(log + events) == Different(log)
  {
    QuietEvents(log, events);
    assert forall k :: 0 <= k < |log| ==> (log + events)[k] == log[k];
    assert forall k :: |log| <= k < |log + events| ==> (log + events)[k] in events;
  }

  lemma CloseKeeps(cfg: Config, e: Engine, w: World, o: Outcome, log: seq<Event>)
    requires InRange(cfg, e) && Truthful(cfg, log)
    requires o.Running? || Verified(o) ==> Agreed(cfg, e, log)
    ensures Keeps(cfg, log, CloseSession(e, w, o))
  {
    var s := CloseSession(e, w, o);
    var log1 := log + s.events;
    QuietIsTruthful(cfg, log, s.events);
    if Agreed(cfg, e, log) {
      AgreedStays(cfg, e, log, s.engine, log1);
    }
    ClosedSoFar(cfg, s.engine, o, log1);
  }

  lemma AgreedStays(cfg: Config, e: Engine, log: seq<Event>, e1: Engine, log1: seq<Event>)
    requires Agreed(cfg, e, log) && e1.review == e.review && e1.accepted == e.accepted
    requires e1.overflow == e.overflow && e1.reviewMismatches == e.reviewMismatches
    requires Reported(log1) == Reported(log) && Different(log1) == Different(log)
    ensures Agreed(cfg, e1, log1)
  {
  }

  lemma ClosedSoFar(cfg: Config, e: Engine, o: Outcome, log: seq<Event>)
    requires InRange(cfg, e) && Truthful(cfg, log) && !e.active
    requires o.Running? || Verified(o) ==> Agreed(cfg, e, log)
    requires (e.phase.Close? && e.pending == o) || (e.phase.Done? && e.outcome == o)
    ensures e in Consistent(cfg, log)
  {
  }

  lemma DiscardKeeps(cfg: Config, e: Engine, w: World, o: Outcome, log: seq<Event>)
    requires InRange(cfg, e) && Truthful(cfg, log) && !Verified(o) && !o.Running?
    ensures Keeps(cfg, log, StartDiscard(e, w, o))
  {
    QuietIsTruthful(cfg, log, StartDiscard(e, w, o).events);
  }

  lemma CommitKeeps(cfg: Config, e: Engine, w: World, log: seq<Event>)
    requires InRange(cfg, e) && Truthful(cfg, log) && Agreed(cfg, e, log)
    ensures Keeps(cfg, log, StartCommit(e, w))
  {
    QuietIsTruthful(cfg, log, [Run(WR)]);
    CloseKeeps(cfg, e, w, FailCommit, log);
  }

  lemma UnreadableIsTruthful(cfg: Config, log: seq<Event>, from: nat, to: nat)
    requires from <= to <= |cfg.params| && Truthful(cfg, log)
    requires forall k :: from <= k < to ==> !Readable(cfg, k)
    ensures Truthful(cfg, log + UnreadableReports(from, to))
  {
    var reports := UnreadableReports(from, to);
    var log1 := log + reports;
    forall k | 0 <= k < |log1| && log1[k].Report?
      ensures TrueReport(cfg, log1, k)
    {
      if k < |log| {
        assert TrueReport(cfg, log, k);
      } else {
        assert log1[k] == reports[k - |log|];
      }
    }
  }

  lemma AfterKeeps(cfg: Config, log: seq<Event>, before: seq<Event>, s: Step)
    requires Keeps(cfg, log + before, s)
    ensures Keeps(cfg, log, After(before, s))
  {
    assert log + (before + s.events) == log + before + s.events;
  }

  lemma ReviewReadKeeps(cfg: Config, e: Engine, i: nat, log: seq<Event>)
    requires i < |cfg.params| && Readable(cfg, i) && Truthful(cfg, log)
    requires e.phase.Review? && e.review && !e.verifying && ReviewedTo(e, log, i)
    ensures Keeps(cfg, log, Step(e.(index := i, active := true), [Get(i)]))
  {
    QuietIsTruthful(cfg, log, [Get(i)]);
  }

  lemma ReviewKeeps(cfg: Config, e: Engine, w: World, from: nat, log: seq<Event>)
    requires InRange(cfg, e) && from <= |cfg.params| && Truthful(cfg, log)
    requires e.phase.Review? && e.review && !e.verifying
    requires ReviewedTo(e, log, from)
    ensures Keeps(cfg, log, ReviewFrom(cfg, e, w, from))
  {
    var i := NextReadable(cfg, from);
    var reports := UnreadableReports(from, i);
    var log1 := log + reports;
    UnreadableReported(log, from, i);
    UnreadableIsTruthful(cfg, log, from, i);
    if i == |cfg.params| {
      DecisionEntryKeeps(cfg, e, w, log1);
      AfterKeeps(cfg, log, reports, EnterDecision(e, w));
    } else if w.submits {
      ReviewReadKeeps(cfg, e, i, log1);
      AfterKeeps(cfg, log, reports, Step(e.(index := i, active := true), [Get(i)]));
    } else {
      DiscardKeeps(cfg, e, w, FailReview, log1);
      AfterKeeps(cfg, log, reports, StartDiscard(e, w, FailReview));
    }
  }

  lemma DecisionEntryKeeps(cfg: Config, e: Engine, w: World, log: seq<Event>)
    requires InRange(cfg, e) && Truthful(cfg, log) && e.review && !e.verifying
    requires ReviewedTo(e, log, |cfg.params|)
    ensures Keeps(cfg, log, EnterDecision(e, w))
  {
    assert log + [] == log;
    if e.overflow {
      DiscardKeeps(cfg, e, w, FailReview, log);
    }
  }

  lemma PutKeeps(cfg: Config, e: Engine, i: nat, log: seq<Event>)
    requires i < |cfg.params| && Truthful(cfg, log)
    requires e.phase.Write? && !e.verifying && NothingReviewed(e, log)
    ensures Keeps(cfg, log, Step(e.(index := i, active := true), [Put(i)]))
  {
    QuietIsTruthful(cfg, log, [Put(i)]);
  }

  lemma WriteKeeps(cfg: Config, e: Engine, w: World, from: nat, log: seq<Event>)
    requires InRange(cfg, e) && from <= |cfg.params| && Truthful(cfg, log)
    requires e.phase.Write? && !e.verifying && NothingReviewed(e, log)
    ensures Keeps(cfg, log, WriteFrom(cfg, e, w, from))
  {
    var i := NextWritten(cfg, e.differs, from);
    if i < |cfg.params| {
      if w.submits {
        PutKeeps(cfg, e, i, log);
      } else {
        CloseKeeps(cfg, e, w, FailWrite, log);
      }
    } else if e.review {
      var e1 := e.(reviewMismatches := 0, overflow := false, accepted := [], phase := Review);
      assert Reported(log) == Range(0);
      ReviewKeeps(cfg, e1, w, 0, log);
    } else {
      CommitKeeps(cfg, e, w, log);
    }
  }

  /** One answer of the review is reported truthfully and kept. */
  lemma AnswerIsReported(cfg: Config, e: Engine, a: Answer, log: seq<Event>)
    requires InRange(cfg, e) && Readable(cfg, e.index) && Truthful(cfg, log)
    requires ReviewedTo(e, log, e.index) && log != [] && log[|log| - 1] == Get(e.index)
    ensures var r := Reviewed(cfg, e, a);
      var log1 := log + [Reply(a)] + r.events;
      ReviewedTo(r.engine, log1, e.index + 1) && Truthful(cfg, log1)
  {
    var r := Reviewed(cfg, e, a);
    var log1 := log + [Reply(a)];
    assert r.events == [r.events[0]];
    QuietIsTruthful(cfg, log, [Reply(a)]);
    ReportExtends(cfg, log1, r.events[0]);
    AnswerIsKept(cfg, e, a, log1);
  }

  lemma AnswerIsKept(cfg: Config, e: Engine, a: Answer, log: seq<Event>)
    requires InRange(cfg, e) && ReviewedTo(e, log, e.index)
    ensures var r := Reviewed(cfg, e, a); ReviewedTo(r.engine, log + r.events, e.index + 1)
  {
    var r := Reviewed(cfg, e, a);
    var ev := r.events[0];
    var log1 := log + [ev];
    assert r.events == [ev];
    ReportedOne(log, ev);
    assert Reported(log1) == Range(e.index + 1);
    CountIsKept(cfg, e, a, Different(log));
  }

  /** The mismatch count and the kept values follow the differences reported. */
  lemma CountIsKept(cfg: Config, e: Engine, a: Answer, different: seq<Saved>)
    requires InRange(cfg, e) && |e.accepted| <= MAX_ACCEPTED
    requires e.reviewMismatches == |different| && (!e.overflow ==> e.accepted == different)
    ensures var r := Reviewed(cfg, e, a);
      var ev := r.events[0];
      var different1 := different + if ev.kind.Mismatch? then [Saved(ev.entry, ev.value)] else [];
      && r.engine.reviewMismatches == |different1|
      && (!r.engine.overflow ==> r.engine.accepted == different1)
      && |r.engine.accepted| <= MAX_ACCEPTED
  {
    if a.ok && !ValuesEqual(EntryOf(cfg, e.index), a.value, cfg.params[e.index].value) {
      assert Reviewed(cfg, e, a) == Step(KeepDifference(e, a.value), [Report(e.index, Mismatch, a.value)]);
    } else {
      assert different + [] == different;
    }
  }

  lemma ReportExtends(cfg: Config, log: seq<Event>, report: Event)
    requires Truthful(cfg, log) && report.Report? && TrueReport(cfg, log + [report], |log|)
    ensures Truthful(cfg, log + [report])
  {
    var log1 := log + [report];
    forall k | 0 <= k < |log1| && log1[k].Report?
      ensures TrueReport(cfg, log1, k)
    {
      assert k < |log| ==> log1[k] == log[k] && TrueReport(cfg, log, k);
    }
  }

  lemma ReviewResultKeeps(cfg: Config, e: Engine, w: World, a: Answer, log: seq<Event>)
    requires InRange(cfg, e) && e.phase.Review? && ReviewSoFar(cfg, e, log) && Truthful(cfg, log)
    ensures Keeps(cfg, log + [Reply(a)], HandleReviewResult(cfg, e.(active := false), w, a))
  {
    var e0 := e.(active := false);
    var log1 := log + [Reply(a)];
    var r := Reviewed(cfg, e0, a);
    ReviewResultIs(cfg, e0, w, a);
    AnswerIsReported(cfg, e0, a, log);
    ReviewKeeps(cfg, r.engine, w, e.index + 1, log1 + r.events);
    AfterKeeps(cfg, log1, r.events, ReviewFrom(cfg, r.engine, w, e.index + 1));
  }

  lemma RestoreResultKeeps(cfg: Config, e: Engine, w: World, a: Answer, log: seq<Event>)
    requires InRange(cfg, e) && Truthful(cfg, log) && !e.verifying && NothingReviewed(e, log)
    ensures Keeps(cfg, log, HandleRestoreResult(cfg, e, w, a))
  {
    if a.ok {
      WriteKeeps(cfg, e.(phase := Write), w, 0, log);
    } else if cfg.factoryRestore && !e.fellBack {
      RestoreKeeps(cfg, e.(fellBack := true), w, true, log);
    } else {
      CloseKeeps(cfg, e, w, FailRestore, log);
    }
  }

  lemma RestoreKeeps(cfg: Config, e: Engine, w: World, fallback: bool, log: seq<Event>)
    requires InRange(cfg, e) && Truthful(cfg, log) && !e.verifying && NothingReviewed(e, log)
    ensures Keeps(cfg, log, StartRestore(cfg, e, w, fallback))
  {
    var c := RestoreCommand(cfg, fallback);
    QuietIsTruthful(cfg, log, [Run(c)]);
    CloseKeeps(cfg, e, w, FailRestore, log);
    assert e.(phase := Restore, active := true) in Consistent(cfg, log + [Run(c)]);
  }

  /** The review's side of a reading pass, audit or verification. */
  ghost predicate ReadingSide(cfg: Config, e: Engine, log: seq<Event>)
  {
    if e.verifying then Agreed(cfg, e, log) else NothingReviewed(e, log)
  }

  lemma ReadKeeps(cfg: Config, e: Engine, w: World, from: nat, log: seq<Event>)
    requires InRange(cfg, e) && from <= |cfg.params| && Truthful(cfg, log)
    requires e.phase.Audit? && ReadingSide(cfg, e, log)
    ensures StartNextRead(cfg, e, w, from).Some? ==> Keeps(cfg, log, StartNextRead(cfg, e, w, from).value)
  {
    var i := NextReadable(cfg, from);
    if i < |cfg.params| {
      if w.submits {
        QuietIsTruthful(cfg, log, [Get(i)]);
        assert e.(index := i, active := true) in Consistent(cfg, log + [Get(i)]);
      } else {
        CloseKeeps(cfg, e, w, if e.verifying then FailVerify else FailAudit, log);
      }
    }
  }

  lemma PassCompleteKeeps(cfg: Config, e: Engine, w: World, log: seq<Event>)
    requires InRange(cfg, e) && Truthful(cfg, log) && ReadingSide(cfg, e, log)
    ensures Keeps(cfg, log, PassComplete(e, w, cfg))
  {
    if e.verifying {
      CloseKeeps(cfg, e, w, if e.accepted != [] then WrittenWithDifferences else Written, log);
    } else if e.mismatches == 0 {
      CloseKeeps(cfg, e, w, AlreadyProvisioned, log);
    } else {
      RestoreKeeps(cfg, e, w, false, log);
    }
  }

  lemma ReadResultKeeps(cfg: Config, e: Engine, w: World, a: Answer, log: seq<Event>)
    requires InRange(cfg, e) && e.phase.Audit? && Truthful(cfg, log) && ReadingSide(cfg, e, log)
    ensures Keeps(cfg, log, HandleReadResult(cfg, e, w, a))
  {
    var e1 := Compared(cfg, e, a);
    if Unexpected(cfg, e, a) && e.verifying {
      CloseKeeps(cfg, e1, w, FailVerify, log);
    } else {
      ReadOnKeeps(cfg, e1, w, log);
    }
  }

  lemma ReadOnKeeps(cfg: Config, e: Engine, w: World, log: seq<Event>)
    requires InRange(cfg, e) && e.phase.Audit? && Truthful(cfg, log) && ReadingSide(cfg, e, log)
    ensures Keeps(cfg, log, ReadOn(cfg, e, w))
  {
    if e.abortRequested && !e.verifying {
      CloseKeeps(cfg, e, w, Aborted, log);
    } else {
      ReadKeeps(cfg, e, w, e.index + 1, log);
      if StartNextRead(cfg, e, w, e.index + 1).None? {
        PassCompleteKeeps(cfg, e, w, log);
      }
    }
  }

  lemma WriteResultKeeps(cfg: Config, e: Engine, w: World, a: Answer, log: seq<Event>)
    requires InRange(cfg, e) && Truthful(cfg, log)
    requires e.phase.Write? && !e.verifying && NothingReviewed(e, log)
    ensures Keeps(cfg, log, HandleWriteResult(cfg, e, w, a))
  {
    if a.ok {
      WriteKeeps(cfg, e, w, e.index + 1, log);
    } else {
      CloseKeeps(cfg, e, w, FailWrite, log);
    }
  }

  lemma KeptAliveKeeps(cfg: Config, e: Engine, log: seq<Event>)
    requires InRange(cfg, e) && Truthful(cfg, log)
    requires e.phase.AwaitDecision? && e.review && !e.verifying && Agreed(cfg, e, log)
    ensures Keeps(cfg, log, Step(e, []))
  {
    assert log + [] == log;
  }

  lemma AnswerKeeps(cfg: Config, e: Engine, w: World, a: Answer, log: seq<Event>)
    requires InRange(cfg, e) && ReviewSoFar(cfg, e, log) && Truthful(cfg, log) && e.active
    ensures Keeps(cfg, log + [Reply(a)], ProcessAnswer(cfg, e.(active := false), w, a))
  {
    var e0 := e.(active := false);
    var log1 := log + [Reply(a)];
    if e.phase.Review? {
      ReviewResultKeeps(cfg, e, w, a, log);
    } else {
      QuietIsTruthful(cfg, log, [Reply(a)]);
      match e.phase
      case Audit => ReadResultKeeps(cfg, e0, w, a, log1);
      case Restore => RestoreResultKeeps(cfg, e0, w, a, log1);
      case Write => WriteResultKeeps(cfg, e0, w, a, log1);
      case Commit => CloseKeeps(cfg, e0, w, if a.ok then Running else FailCommit, log1);
      case _ => KeptAliveKeeps(cfg, e0, log1);
    }
  }

  lemma OpenKeeps(cfg: Config, e: Engine, w: World, log: seq<Event>)
    requires InRange(cfg, e) && ReviewSoFar(cfg, e, log) && Truthful(cfg, log) && e.phase.Open?
    ensures Keeps(cfg, log, ProcessOpen(cfg, e, w))
  {
    assert log + [] == log;
    if w.opening.Opened? {
      if e.abortRequested {
        CloseKeeps(cfg, e, w, Aborted, log);
      } else {
        var e1 := e.(mismatches := 0, phase := Audit);
        ReadKeeps(cfg, e1, w, 0, log);
        CloseKeeps(cfg, e1, w, FailAudit, log);
      }
    }
  }

  lemma DecisionKeeps(cfg: Config, e: Engine, w: World, log: seq<Event>)
    requires InRange(cfg, e) && ReviewSoFar(cfg, e, log) && Truthful(cfg, log) && e.phase.AwaitDecision?
    ensures Keeps(cfg, log, ProcessDecision(e, w))
  {
    if !w.sessionOpen {
      EndKeeps(cfg, e, FailSession, log);
    } else {
      match e.decision
      case Save => CommitKeeps(cfg, e, w, log);
      case Drop => DiscardKeeps(cfg, e, w, Declined, log);
      case Undecided => WaitKeeps(cfg, e, w, log);
    }
  }

  lemma WaitKeeps(cfg: Config, e: Engine, w: World, log: seq<Event>)
    requires InRange(cfg, e) && ReviewSoFar(cfg, e, log) && Truthful(cfg, log)
    requires e.phase.AwaitDecision? && e.decision.Undecided? && w.sessionOpen
    ensures Keeps(cfg, log, ProcessDecision(e, w))
  {
    assert log + [] == log;
    QuietIsTruthful(cfg, log, [KeepAlive]);
  }

  lemma BringupKeeps(cfg: Config, e: Engine, w: World, log: seq<Event>)
    requires InRange(cfg, e) && ReviewSoFar(cfg, e, log) && Truthful(cfg, log) && e.phase.Bringup? && !e.active
    ensures Keeps(cfg, log, ProcessBringup(e, w, cfg))
  {
    assert log + [] == log;
  }

  lemma EndKeeps(cfg: Config, e: Engine, o: Outcome, log: seq<Event>)
    requires InRange(cfg, e) && Truthful(cfg, log)
    requires Verified(o) ==> Agreed(cfg, e, log)
    ensures Keeps(cfg, log, Step(Finish(e, o), []))
  {
    assert log + [] == log;
  }

  lemma ResetKeeps(cfg: Config, e: Engine, log: seq<Event>)
    requires InRange(cfg, e) && Truthful(cfg, log) && !e.active && Agreed(cfg, e, log)
    ensures Keeps(cfg, log, Step(e.(verifying := true, phase := Reset), [HwReset]))
  {
    QuietIsTruthful(cfg, log, [HwReset]);
  }

  lemma CloseWaitKeeps(cfg: Config, e: Engine, w: World, log: seq<Event>)
    requires InRange(cfg, e) && ReviewSoFar(cfg, e, log) && Truthful(cfg, log) && e.phase.Close?
    ensures Keeps(cfg, log, ProcessClose(e, w))
  {
    assert log + [] == log;
    EndKeeps(cfg, e, FailCommit, log);
    EndKeeps(cfg, e, FailReset, log);
    EndKeeps(cfg, e, e.pending, log);
    if e.pending.Running? {
      ResetKeeps(cfg, e, log);
    }
  }

  lemma DiscardWaitKeeps(cfg: Config, e: Engine, w: World, log: seq<Event>)
    requires InRange(cfg, e) && ReviewSoFar(cfg, e, log) && Truthful(cfg, log) && e.phase.Discard?
    ensures Keeps(cfg, log, ProcessDiscard(e, w))
  {
    assert log + [] == log;
  }

  lemma IdleKeeps(cfg: Config, e: Engine, w: World, log: seq<Event>)
    requires InRange(cfg, e) && ReviewSoFar(cfg, e, log) && Truthful(cfg, log) && !e.active
    ensures Keeps(cfg, log, Process(cfg, e, w))
  {
    match e.phase
    case Bringup => BringupKeeps(cfg, e, w, log);
    case Open => OpenKeeps(cfg, e, w, log);
    case Close => CloseWaitKeeps(cfg, e, w, log);
    case Discard => DiscardWaitKeeps(cfg, e, w, log);
    case AwaitDecision => DecisionKeeps(cfg, e, w, log);
    case _ => QuietIsTruthful(cfg, log, []);
  }

  lemma DecideKeeps(cfg: Config, e: Engine, save: bool, log: seq<Event>)
    requires InRange(cfg, e) && ReviewSoFar(cfg, e, log) && Truthful(cfg, log)
    ensures Keeps(cfg, log, Decide(e, save).0)
  {
    assert log + [] == log;
    QuietIsTruthful(cfg, log, [Decided(save)]);
  }

  lemma AbortKeeps(cfg: Config, e: Engine, log: seq<Event>)
    requires InRange(cfg, e) && ReviewSoFar(cfg, e, log) && Truthful(cfg, log)
    ensures Keeps(cfg, log, Abort(e).0)
  {
    if e.phase.AwaitDecision? {
      DecideKeeps(cfg, e, false, log);
    } else {
      assert log + [] == log;
      QuietIsTruthful(cfg, log, [AbortAsked]);
    }
  }

  lemma ReactKeeps(cfg: Config, e: Engine, input: Input, log: seq<Event>)
    requires InRange(cfg, e) && ReviewSoFar(cfg, e, log) && Truthful(cfg, log)
    ensures Keeps(cfg, log, React(cfg, e, input))
  {
    assert log + [] == log;
    match input
    case Pass(w) =>
      if !e.active {
        IdleKeeps(cfg, e, w, log);
      } else if w.answer.Some? {
        var a := w.answer.value;
        AnswerKeeps(cfg, e, w, a, log);
        var s := ProcessAnswer(cfg, e.(active := false), w, a);
        assert log + ([Reply(a)] + s.events) == log + [Reply(a)] + s.events;
      }
    case AskAbort => AbortKeeps(cfg, e, log);
    case AskDecide(save) => DecideKeeps(cfg, e, save, log);
  }

  lemma {:induction false} RunsKeepReview(cfg: Config, left: Engine, review: bool, inputs: seq<Input>)
    requires cfg.params != []
    ensures var s := RunOf(cfg, Start(left, review), inputs);
      ReviewSoFar(cfg, s.engine, s.events) && Truthful(cfg, s.events)
  {
    if inputs == [] {
    } else {
      var init := inputs[..|inputs| - 1];
      RunsKeepReview(cfg, left, review, init);
      var before := RunOf(cfg, Start(left, review), init);
      ReactKeeps(cfg, before.engine, inputs[|inputs| - 1], before.events);
    }
  }

  lemma RunIsConsistent(cfg: Config, review: bool, run: Step)
    requires IsRun(cfg, review, run)
    ensures run.engine in Consistent(cfg, run.events)
  {
    var left, inputs :| run == RunOf(cfg, Start(left, review), inputs);
    RunsKeepReview(cfg, left, review, inputs);
  }

  /**
   When the host is asked to decide, the callback has been called exactly once for every table
   entry, in table order, every report is true, and the mismatch count is the number of values
   kept for the verification.
   */
  lemma DecisionIsInformed(cfg: Config, review: bool, run: Step)
    requires IsRun(cfg, review, run) && run.engine.phase.AwaitDecision?
    ensures Reported(run.events) == Range(|cfg.params|) && Truthful(cfg, run.events)
    ensures run.engine.accepted == Different(run.events)
    ensures run.engine.reviewMismatches == |run.engine.accepted| <= MAX_ACCEPTED
  {
    RunIsConsistent(cfg, review, run);
  }

  /**
   A run saved with differences kept one to eight of them, for distinct entries in table order.
   Each kept value is the one the review read and reported as different, and the verification
   expected it.
   */
  lemma DifferencesAreTheReviewed(cfg: Config, review: bool, run: Step)
    requires IsRun(cfg, review, run) && run.engine.phase.Done? && run.engine.outcome.WrittenWithDifferences?
    ensures var kept := run.engine.accepted;
      && 1 <= |kept| <= MAX_ACCEPTED && kept == Different(run.events)
      && (forall i, j :: 0 <= i < j < |kept| ==> kept[i].index < kept[j].index)
      && Reported(run.events) == Range(|cfg.params|) && Truthful(cfg, run.events)
      && ProvisionPass.CleanPass(cfg, kept, ProvisionPass.SinceReset(run.events))
  {
    RunIsConsistent(cfg, review, run);
    ProvisionPass.PassMeansReadBack(cfg, review, run);
    VerifiedIsReviewed(cfg, run.engine, run.events);
    KeptIncreases(run.engine, run.events, |cfg.params|);
  }

  lemma VerifiedIsReviewed(cfg: Config, e: Engine, log: seq<Event>)
    requires e in Consistent(cfg, log) && e.phase.Done? && Verified(e.outcome) && e.accepted != []
    ensures ReviewedTo(e, log, |cfg.params|) && !e.overflow && Truthful(cfg, log)
  {
  }

  lemma KeptIncreases(e: Engine, log: seq<Event>, n: nat)
    requires ReviewedTo(e, log, n) && !e.overflow
    ensures var kept := e.accepted; forall i, j :: 0 <= i < j < |kept| ==> kept[i].index < kept[j].index
  {
    DifferentIncreases(log);
  }
}

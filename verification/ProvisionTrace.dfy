/**
 What a provisioning run may send, and in which order.

 `Next` is the sending discipline written down on its own, as an automaton over the log. The
 engine is shown to follow it in every run under every world, and the discipline is then shown
 to mean what its users rely on: the order of the commands, at most one write to flash, nothing
 to flash before every write was acknowledged and the host agreed.
 */
module ProvisionTrace {
  import opened Ticks
  import opened ProvisionEngine

  datatype Stage =
    | Reading(next: nat, waiting: bool)    // audit
    | Aborting                             // an abort was accepted before the restore
    | Restoring(command: ExecCommand)      // waiting for a restore
    | Refused                              // R1 was refused, RE may follow
    | Writing(next: nat, waiting: bool)    // restored, every write so far acknowledged
    | Reviewing(next: nat, waiting: bool)  // reading back before the decision
    | Deciding(waiting: bool)              // keeping the session open
    | Saving(waiting: bool)                // the host said save
    | Dropping                             // the host said discard
    | Committing                           // waiting for WR
    | Committed                            // WR acknowledged
    | Verifying(next: nat, waiting: bool)  // reset, reading back
    | Failed                               // a refusal: only an ending may follow
    | Ended                                // nothing may follow
    | Bad

  /** The sending discipline of a run that does or does not ask for a review. */
  function Next(review: bool, st: Stage, ev: Event): (r: Stage)
  {
    match st
    case Reading(next, waiting) =>
      if ev.Get? && !waiting && ev.index >= next then Reading(ev.index + 1, true)
      else if ev.Reply? && waiting then Reading(next, false)
      else if ev.Run? && !ev.command.WR? && !waiting then Restoring(ev.command)
      else if ev.AbortAsked? then Aborting
      else if ev.Exit? && !waiting then Ended
      else Bad
    case Aborting =>
      if ev.AbortAsked? || ev.Reply? then Aborting else if ev.Exit? then Ended else Bad
    case Restoring(command) =>
      if !ev.Reply? then Bad
      else if ev.answer.ok then Writing(0, false)
      else if command.R1? then Refused
      else Failed
    case Refused =>
      if ev == Run(RE) then Restoring(RE) else if ev.Exit? then Ended else Bad
    case Writing(next, waiting) =>
      if ev.Put? && !waiting && ev.index >= next then Writing(ev.index + 1, true)
      else if ev.Reply? && waiting then (if ev.answer.ok then Writing(next, false) else Failed)
      else if ev.Exit? && !waiting then Ended
      else if !review && ev == Run(WR) && !waiting then Committing
      else if review && !waiting then NextReview(0, ev)
      else Bad
    case Reviewing(next, waiting) =>
      if waiting then (if ev.Reply? then Reviewing(next, false) else Bad) else NextReview(next, ev)
    case Deciding(waiting) =>
      if ev.KeepAlive? && !waiting then Deciding(true)
      else if ev.Reply? && waiting then Deciding(false)
      else if ev.Decided? then (if ev.save then Saving(waiting) else Dropping)
      else Bad
    case Saving(waiting) =>
      if ev.Reply? && waiting then Saving(false)
      else if ev == Run(WR) && !waiting then Committing
      else if ev.Exit? && !waiting then Ended
      else Bad
    case Dropping => if ev.Reply? then Dropping else if ev.HwReset? then Ended else Bad
    case Committing => if ev.Reply? then (if ev.answer.ok then Committed else Failed) else Bad
    case Committed => if ev.Exit? then Committed else if ev.HwReset? then Verifying(0, false) else Bad
    case Verifying(next, waiting) =>
      if ev.Get? && !waiting && ev.index >= next then Verifying(ev.index + 1, true)
      else if ev.Reply? && waiting then Verifying(next, false)
      else if ev.Exit? && !waiting then Ended
      else Bad
    case Failed => if ev.Exit? then Ended else Bad
    case Ended => Bad
    case Bad => Bad
  }

  /** A review reads, reports, keeps the session open, and ends in a decision or a reset. */
  function NextReview(next: nat, ev: Event): (r: Stage)
  {
    match ev
    case Get(i) => if i >= next then Reviewing(i + 1, true) else Bad
    case Report(_, _, _) => Reviewing(next, false)
    case KeepAlive => Deciding(true)
    case Decided(save) => if save then Saving(false) else Dropping
    case HwReset => Ended
    case _ => Bad
  }

  function Steps(review: bool, st: Stage, events: seq<Event>): (r: Stage)
    decreases |events|
  {
    if events == [] then st else Steps(review, Next(review, st, events[0]), events[1..])
  }

  const BEGIN := Reading(0, false)

  predicate Orderly(review: bool, log: seq<Event>) { Steps(review, BEGIN, log) != Bad }

  lemma {:induction false} StepsAppend(review: bool, st: Stage, a: seq<Event>, b: seq<Event>)
    ensures Steps(review, st, a + b) == Steps(review, Steps(review, st, a), b)
    decreases |a|
  {
    if a == [] {
      assert a + b == b;
    } else {
      assert (a + b)[0] == a[0] && (a + b)[1..] == a[1..] + b;
      StepsAppend(review, Next(review, st, a[0]), a[1..], b);
    }
  }

  lemma StepsLast(review: bool, log: seq<Event>)
    requires log != []
    ensures Steps(review, BEGIN, log)
         == Next(review, Steps(review, BEGIN, log[..|log| - 1]), log[|log| - 1])
  {
    var n := |log| - 1;
    assert log == log[..n] + [log[n]];
    StepsAppend(review, BEGIN, log[..n], [log[n]]);
    assert [log[n]][1..] == [];
  }

  // ---------------------------------------------------------------------------
  // The engine follows the discipline

  /** Stages from which a reviewed run may enter or stay at the decision with nothing outstanding. */
  predicate CanDecide(st: Stage)
  {
    match st
    case Writing(_, waiting) => !waiting
    case Reviewing(_, waiting) => !waiting
    case Deciding(waiting) => !waiting
    case _ => false
  }

  /** Where the discipline stands, given where the engine stands. */
  predicate Linked(cfg: Config, e: Engine, st: Stage)
  {
    && st != Bad
    && (e.abortRequested ==> st.Aborting? || st.Ended?)
    && (Waiting(e.phase) || e.phase.AwaitDecision? || !e.active)
    && AtPhase(cfg, e, st)
  }

  predicate AtPhase(cfg: Config, e: Engine, st: Stage)
  {
    match e.phase
    case Bringup | Open => st == Resting(e, 0) && (e.fellBack ==> e.verifying)
    case Audit =>
      && e.active && (e.fellBack ==> e.verifying)
      && st == (if e.verifying then Verifying(e.index + 1, true)
                else if e.abortRequested then Aborting else Reading(e.index + 1, true))
    case Restore => e.active && !e.verifying && st == Restoring(RestoreCommand(cfg, e.fellBack))
    case Write => e.active && !e.verifying && st == Writing(e.index + 1, true)
    case Review => e.active && !e.verifying && e.review && st == Reviewing(e.index + 1, true)
    case AwaitDecision => !e.verifying && e.review && AtDecision(e, st)
    case Commit => e.active && !e.verifying && st == Committing
    case Close => e.pending.Running? ==> !e.verifying && st == Committed
    case Reset => e.verifying && st == Resting(e, 0)
    case Discard => !e.pending.Running?
    case Done => !e.outcome.Running?
    case Idle => false
  }

  /** Phases that always have a request outstanding. */
  predicate Waiting(phase: Phase)
  {
    phase.Audit? || phase.Restore? || phase.Write? || phase.Review? || phase.Commit?
  }

  /** The stage of a reading run with nothing outstanding. */
  function Resting(e: Engine, next: nat): (st: Stage)
  {
    if e.verifying then Verifying(next, false) else if e.abortRequested then Aborting else Reading(next, false)
  }

  predicate AtDecision(e: Engine, st: Stage)
  {
    if e.decision.Save? then st == Saving(e.active)
    else if e.decision.Drop? then st == Dropping
    else if e.active then st == Deciding(true)
    else CanDecide(st)
  }

  lemma {:induction false} ReportsKeepReviewing(st: Stage, reports: seq<Event>)
    requires CanDecide(st) && !st.Deciding?
    requires forall k :: 0 <= k < |reports| ==> reports[k].Report?
    ensures var r := Steps(true, st, reports);
      r == st || r == Reviewing(if st.Reviewing? then st.next else 0, false)
    decreases |reports|
  {
    if reports == [] {
    } else {
      ReportsKeepReviewing(Next(true, st, reports[0]), reports[1..]);
    }
  }

  /** The discipline still holds, and the engine is still linked to it, after a step. */
  ghost predicate Follows(cfg: Config, review: bool, st: Stage, s: Step)
  {
    s.engine.review == review && Steps(review, st, s.events) in Stages(cfg, s.engine)
  }

  /** The stages the discipline may be at for a given state of the engine. */
  ghost function Stages(cfg: Config, e: Engine): iset<Stage> { iset st | Linked(cfg, e, st) }

  lemma StepsOfOne(review: bool, st: Stage, ev: Event)
    ensures Steps(review, st, [ev]) == Next(review, st, ev)
  {
    assert [ev][1..] == [];
  }

  lemma FollowsAfter(cfg: Config, review: bool, st: Stage, before: seq<Event>, s: Step)
    requires Follows(cfg, review, Steps(review, st, before), s)
    ensures Follows(cfg, review, st, After(before, s))
  {
    StepsAppend(review, st, before, s.events);
  }

  lemma EndFollows(cfg: Config, e: Engine, outcome: Outcome, st: Stage)
    requires Linked(cfg, e, st) && !outcome.Running?
    ensures Follows(cfg, e.review, st, Step(Finish(e, outcome), []))
  {
  }

  lemma CloseFollows(cfg: Config, e: Engine, w: World, outcome: Outcome, st: Stage)
    requires !outcome.Running?
    requires st != Bad && Next(e.review, st, Exit) == Ended
    requires e.abortRequested ==> st.Aborting?
    ensures Follows(cfg, e.review, st, CloseSession(e, w, outcome))
  {
    StepsOfOne(e.review, st, Exit);
    var s := CloseSession(e, w, outcome);
    if w.sessionOpen && w.closes {
      assert s.events == [Exit];
      assert s.engine.phase == Close;
    } else {
      assert s.events == [];
      assert s.engine.phase == Done;
      assert Steps(e.review, st, s.events) == st;
    }
  }

  lemma DiscardFollows(cfg: Config, e: Engine, w: World, outcome: Outcome, st: Stage)
    requires !outcome.Running? && !e.abortRequested
    requires st != Bad && Next(e.review, st, HwReset) == Ended
    ensures Follows(cfg, e.review, st, StartDiscard(e, w, outcome))
  {
    StepsOfOne(e.review, st, HwReset);
    var s := StartDiscard(e, w, outcome);
    if w.resets {
      assert s.events == [HwReset];
      assert s.engine.phase == Discard;
    } else {
      assert Steps(e.review, st, s.events) == st;
      assert s.engine.phase == Done;
    }
  }

  lemma CommitFollows(cfg: Config, e: Engine, w: World, st: Stage)
    requires !e.abortRequested && !e.verifying
    requires if e.review then st == Saving(false) else st.Writing? && !st.waiting
    ensures Follows(cfg, e.review, st, StartCommit(e, w))
  {
    StepsOfOne(e.review, st, Run(WR));
    CloseFollows(cfg, e, w, FailCommit, st);
  }

  /** The engine between the restore and the decision, with nothing outstanding. */
  predicate Midway(e: Engine) { !e.active && !e.verifying && !e.abortRequested }

  lemma EnterFollows(cfg: Config, e: Engine, w: World, st: Stage)
    requires e.phase.Review? && Midway(e) && e.review && CanDecide(st) && !st.Deciding?
    ensures Follows(cfg, true, st, EnterDecision(e, w))
  {
    if e.overflow {
      DiscardFollows(cfg, e, w, FailReview, st);
    }
  }

  lemma ReviewFollows(cfg: Config, e: Engine, w: World, from: nat, st: Stage)
    requires from <= |cfg.params|
    requires e.phase.Review? && Midway(e) && e.review
    requires CanDecide(st) && !st.Deciding? && (st.Reviewing? ==> st.next <= from)
    ensures Follows(cfg, true, st, ReviewFrom(cfg, e, w, from))
  {
    var i := NextReadable(cfg, from);
    var reports := UnreadableReports(from, i);
    ReportsKeepReviewing(st, reports);
    var r := Steps(true, st, reports);
    if i == |cfg.params| {
      EnterFollows(cfg, e, w, r);
      FollowsAfter(cfg, true, st, reports, EnterDecision(e, w));
    } else if w.submits {
      StepsOfOne(true, r, Get(i));
      FollowsAfter(cfg, true, st, reports, Step(e.(index := i, active := true), [Get(i)]));
    } else {
      DiscardFollows(cfg, e, w, FailReview, r);
      FollowsAfter(cfg, true, st, reports, StartDiscard(e, w, FailReview));
    }
  }

  lemma WriteFollows(cfg: Config, e: Engine, w: World, from: nat, st: Stage)
    requires from <= |cfg.params|
    requires e.phase.Write? && Midway(e)
    requires st.Writing? && !st.waiting && st.next <= from
    ensures Follows(cfg, e.review, st, WriteFrom(cfg, e, w, from))
  {
    var i := NextWritten(cfg, e.differs, from);
    if i < |cfg.params| {
      NextWriteFollows(cfg, e, w, from, st);
    } else if e.review {
      var e1 := e.(reviewMismatches := 0, overflow := false, accepted := [], phase := Review);
      ReviewFollows(cfg, e1, w, 0, st);
    } else {
      CommitFollows(cfg, e, w, st);
    }
  }

  lemma NextWriteFollows(cfg: Config, e: Engine, w: World, from: nat, st: Stage)
    requires from <= |cfg.params| && e.phase.Write? && Midway(e)
    requires st.Writing? && !st.waiting && st.next <= from
    ensures var s := StartNextWrite(cfg, e, w, from); s.Some? ==> Follows(cfg, e.review, st, s.value)
  {
    StepsOfOne(e.review, st, Put(NextWritten(cfg, e.differs, from)));
    CloseFollows(cfg, e, w, FailWrite, st);
  }

  lemma ReadFollows(cfg: Config, e: Engine, w: World, from: nat, st: Stage)
    requires from <= |cfg.params|
    requires e.phase.Audit? && !e.active && !e.abortRequested && (e.fellBack ==> e.verifying)
    requires st == if e.verifying then Verifying(from, false) else Reading(from, false)
    ensures StartNextRead(cfg, e, w, from).Some?
        ==> Follows(cfg, e.review, st, StartNextRead(cfg, e, w, from).value)
  {
    if w.submits {
      NextReadFollows(cfg, e, w, from, st);
    } else {
      CloseFollows(cfg, e, w, if e.verifying then FailVerify else FailAudit, st);
    }
  }

  lemma NextReadFollows(cfg: Config, e: Engine, w: World, from: nat, st: Stage)
    requires from <= |cfg.params| && w.submits
    requires e.phase.Audit? && !e.active && !e.abortRequested && (e.fellBack ==> e.verifying)
    requires st == if e.verifying then Verifying(from, false) else Reading(from, false)
    ensures StartNextRead(cfg, e, w, from).Some?
        ==> Follows(cfg, e.review, st, StartNextRead(cfg, e, w, from).value)
  {
    StepsOfOne(e.review, st, Get(NextReadable(cfg, from)));
  }

  lemma RestoreFollows(cfg: Config, e: Engine, w: World, fallback: bool, st: Stage)
    requires !e.verifying && !e.abortRequested && e.fellBack == fallback
    requires if fallback then st.Refused? else st.Reading? && !st.waiting
    ensures Follows(cfg, e.review, st, StartRestore(cfg, e, w, fallback))
  {
    StepsOfOne(e.review, st, Run(RestoreCommand(cfg, fallback)));
    CloseFollows(cfg, e, w, FailRestore, st);
  }

  lemma ReadResultFollows(cfg: Config, e: Engine, w: World, a: Answer, st: Stage)
    requires InRange(cfg, e) && e.phase.Audit? && !e.active
    requires e.abortRequested ==> !e.verifying
    requires !e.verifying ==> !e.fellBack
    requires st == if e.verifying then Verifying(e.index + 1, false)
                   else if e.abortRequested then Aborting else Reading(e.index + 1, false)
    ensures Follows(cfg, e.review, st, HandleReadResult(cfg, e, w, a))
  {
    var e1 := Compared(cfg, e, a);
    if Unexpected(cfg, e, a) && e.verifying {
      CloseFollows(cfg, e1, w, FailVerify, st);
    } else {
      ReadOnFollows(cfg, e1, w, st);
    }
  }

  lemma ReadOnFollows(cfg: Config, e: Engine, w: World, st: Stage)
    requires InRange(cfg, e) && e.phase.Audit? && !e.active
    requires e.abortRequested ==> !e.verifying
    requires !e.verifying ==> !e.fellBack
    requires st == if e.verifying then Verifying(e.index + 1, false)
                   else if e.abortRequested then Aborting else Reading(e.index + 1, false)
    ensures Follows(cfg, e.review, st, ReadOn(cfg, e, w))
  {
    if e.abortRequested {
      CloseFollows(cfg, e, w, Aborted, st);
    } else {
      ReadFollows(cfg, e, w, e.index + 1, st);
      if StartNextRead(cfg, e, w, e.index + 1).None? {
        PassCompleteFollows(cfg, e, w, st);
      }
    }
  }

  lemma PassCompleteFollows(cfg: Config, e: Engine, w: World, st: Stage)
    requires e.phase.Audit? && !e.active && !e.abortRequested && (e.fellBack ==> e.verifying)
    requires if e.verifying then st.Verifying? && !st.waiting else st.Reading? && !st.waiting
    ensures Follows(cfg, e.review, st, PassComplete(e, w, cfg))
  {
    if e.verifying {
      CloseFollows(cfg, e, w, if e.accepted != [] then WrittenWithDifferences else Written, st);
    } else if e.mismatches == 0 {
      CloseFollows(cfg, e, w, AlreadyProvisioned, st);
    } else {
      RestoreFollows(cfg, e, w, false, st);
    }
  }

  lemma ReportThenReviewFollows(cfg: Config, e: Engine, w: World, from: nat, report: seq<Event>, st: Stage)
    requires from <= |cfg.params| && e.phase.Review? && Midway(e) && e.review
    requires |report| == 1 && report[0].Report?
    requires st == Reviewing(from, false)
    ensures Follows(cfg, true, st, After(report, ReviewFrom(cfg, e, w, from)))
  {
    assert report == [report[0]];
    StepsOfOne(true, st, report[0]);
    ReviewFollows(cfg, e, w, from, st);
    FollowsAfter(cfg, true, st, report, ReviewFrom(cfg, e, w, from));
  }

  lemma ReviewResultFollows(cfg: Config, e: Engine, w: World, a: Answer, st: Stage)
    requires InRange(cfg, e) && e.phase.Review? && Midway(e) && e.review
    requires st == Reviewing(e.index + 1, false)
    ensures Follows(cfg, true, st, HandleReviewResult(cfg, e, w, a))
  {
    var r := Reviewed(cfg, e, a);
    ReviewResultIs(cfg, e, w, a);
    ReportThenReviewFollows(cfg, r.engine, w, e.index + 1, r.events, st);
  }

  lemma RestoreResultFollows(cfg: Config, e: Engine, w: World, a: Answer, st: Stage)
    requires e.phase.Restore? && Midway(e)
    requires st == Next(e.review, Restoring(RestoreCommand(cfg, e.fellBack)), Reply(a))
    ensures Follows(cfg, e.review, st, HandleRestoreResult(cfg, e, w, a))
  {
    if a.ok {
      WriteFollows(cfg, e.(phase := Write), w, 0, st);
    } else if cfg.factoryRestore && !e.fellBack {
      RestoreFollows(cfg, e.(fellBack := true), w, true, st);
    } else {
      CloseFollows(cfg, e, w, FailRestore, st);
    }
  }

  lemma WriteResultFollows(cfg: Config, e: Engine, w: World, a: Answer, st: Stage)
    requires InRange(cfg, e) && e.phase.Write? && Midway(e)
    requires st == if a.ok then Writing(e.index + 1, false) else Failed
    ensures Follows(cfg, e.review, st, HandleWriteResult(cfg, e, w, a))
  {
    WriteResultIs(cfg, e, w, a);
    if a.ok {
      WriteFollows(cfg, e, w, e.index + 1, st);
    } else {
      CloseFollows(cfg, e, w, FailWrite, st);
    }
  }

  lemma CommitResultFollows(cfg: Config, e: Engine, w: World, a: Answer, st: Stage)
    requires e.phase.Commit? && Midway(e)
    requires st == Next(e.review, Committing, Reply(a))
    ensures Follows(cfg, e.review, st, HandleCommitResult(e, w, a))
  {
    if a.ok {
      StepsOfOne(e.review, st, Exit);
      assert Steps(e.review, st, CloseSession(e, w, Running).events) == st;
    } else {
      CloseFollows(cfg, e, w, FailCommit, st);
    }
  }

  lemma AnswerFollows(cfg: Config, e: Engine, w: World, a: Answer, st: Stage)
    requires InRange(cfg, e) && e.active && Linked(cfg, e, st)
    ensures Follows(cfg, e.review, Next(e.review, st, Reply(a)), ProcessAnswer(cfg, e.(active := false), w, a))
  {
    var e1 := e.(active := false);
    var st1 := Next(e.review, st, Reply(a));
    match e.phase
    case Audit => ReadResultFollows(cfg, e1, w, a, st1);
    case Restore => RestoreResultFollows(cfg, e1, w, a, st1);
    case Write => WriteResultFollows(cfg, e1, w, a, st1);
    case Review => ReviewResultFollows(cfg, e1, w, a, st1);
    case Commit => CommitResultFollows(cfg, e1, w, a, st1);
    case AwaitDecision =>
      assert ProcessAnswer(cfg, e1, w, a) == Step(e1, []);
      assert Linked(cfg, e1, st1);
    case _ =>
  }

  lemma OpenFollows(cfg: Config, e: Engine, w: World, st: Stage)
    requires InRange(cfg, e) && e.phase.Open? && Linked(cfg, e, st)
    ensures Follows(cfg, e.review, st, ProcessOpen(cfg, e, w))
  {
    if w.opening.Opened? {
      if e.abortRequested {
        CloseFollows(cfg, e, w, Aborted, st);
      } else {
        var e1 := e.(mismatches := 0, phase := Audit);
        ReadFollows(cfg, e1, w, 0, st);
        CloseFollows(cfg, e1, w, FailAudit, st);
      }
    }
  }

  lemma DecisionFollows(cfg: Config, e: Engine, w: World, st: Stage)
    requires e.phase.AwaitDecision? && !e.active && Linked(cfg, e, st)
    ensures Follows(cfg, e.review, st, ProcessDecision(e, w))
  {
    match e.decision
    case Save => CommitFollows(cfg, e, w, st);
    case Drop => DiscardFollows(cfg, e, w, Declined, st);
    case Undecided => WaitFollows(cfg, e, w, st);
  }

  lemma WaitFollows(cfg: Config, e: Engine, w: World, st: Stage)
    requires e.phase.AwaitDecision? && e.decision.Undecided? && !e.active && Linked(cfg, e, st)
    ensures Follows(cfg, e.review, st, ProcessDecision(e, w))
  {
    StepsOfOne(true, st, KeepAlive);
  }

  lemma DecideLinked(cfg: Config, e: Engine, save: bool, st: Stage)
    requires Linked(cfg, e, st) && Decide(e, save).1
    ensures Linked(cfg, Decide(e, save).0.engine, Next(true, st, Decided(save)))
  {
  }

  lemma AbortLinked(cfg: Config, e: Engine, st: Stage)
    requires Linked(cfg, e, st) && !e.phase.AwaitDecision? && Abort(e).1
    ensures Linked(cfg, Abort(e).0.engine, Next(e.review, st, AbortAsked))
  {
  }

  lemma DecideFollows(cfg: Config, e: Engine, save: bool, st: Stage)
    requires Linked(cfg, e, st)
    ensures Follows(cfg, e.review, st, Decide(e, save).0)
  {
    if Decide(e, save).1 {
      DecideLinked(cfg, e, save, st);
      StepsOfOne(true, st, Decided(save));
    }
  }

  lemma AbortFollows(cfg: Config, e: Engine, st: Stage)
    requires Linked(cfg, e, st)
    ensures Follows(cfg, e.review, st, Abort(e).0)
  {
    if e.phase.AwaitDecision? {
      DecideFollows(cfg, e, false, st);
    } else if Abort(e).1 {
      AbortLinked(cfg, e, st);
      StepsOfOne(e.review, st, AbortAsked);
    }
  }

  lemma QuietFollows(cfg: Config, e: Engine, w: World, st: Stage)
    requires InRange(cfg, e) && Linked(cfg, e, st)
    requires e.phase.Bringup? || e.phase.Close? || e.phase.Reset? || e.phase.Discard? || e.phase.Done?
    ensures Follows(cfg, e.review, st, Process(cfg, e, w))
  {
    match e.phase
    case Bringup => BringupFollows(cfg, e, w, st);
    case Close => CloseWaitFollows(cfg, e, w, st);
    case Discard => DiscardWaitFollows(cfg, e, w, st);
    case Reset | Done => assert Steps(e.review, st, []) == st;
    case _ =>
  }

  lemma DiscardWaitFollows(cfg: Config, e: Engine, w: World, st: Stage)
    requires Linked(cfg, e, st) && e.phase.Discard?
    ensures Follows(cfg, e.review, st, ProcessDiscard(e, w))
  {
    EndFollows(cfg, e, FailReset, st);
    EndFollows(cfg, e, e.pending, st);
  }

  lemma BringupFollows(cfg: Config, e: Engine, w: World, st: Stage)
    requires Linked(cfg, e, st) && e.phase.Bringup?
    ensures Follows(cfg, e.review, st, ProcessBringup(e, w, cfg))
  {
    EndFollows(cfg, e, Aborted, st);
    EndFollows(cfg, e, FailBringup, st);
    EndFollows(cfg, e, FailReset, st);
    EndFollows(cfg, e, FailSession, st);
  }

  lemma CloseWaitFollows(cfg: Config, e: Engine, w: World, st: Stage)
    requires Linked(cfg, e, st) && e.phase.Close?
    ensures Follows(cfg, e.review, st, ProcessClose(e, w))
  {
    if !w.sessionOpen && e.pending.Running? && w.resets {
      StepsOfOne(e.review, st, HwReset);
    } else if w.sessionOpen && Reached(w.now, e.closeDeadline) {
      EndFollows(cfg, e, if e.pending.Running? then FailCommit else e.pending, st);
    } else if !w.sessionOpen {
      EndFollows(cfg, e, if e.pending.Running? then FailReset else e.pending, st);
    }
  }

  lemma ReactFollows(cfg: Config, e: Engine, input: Input, st: Stage)
    requires InRange(cfg, e) && Linked(cfg, e, st)
    ensures Follows(cfg, e.review, st, React(cfg, e, input))
  {
    if input.AskAbort? {
      AbortFollows(cfg, e, st);
    } else if input.AskDecide? {
      DecideFollows(cfg, e, input.save, st);
    } else if e.active {
      var w := input.world;
      if w.answer.Some? {
        var a := w.answer.value;
        AnswerFollows(cfg, e, w, a, st);
        StepsOfOne(e.review, st, Reply(a));
        FollowsAfter(cfg, e.review, st, [Reply(a)], ProcessAnswer(cfg, e.(active := false), w, a));
      } else {
        assert Follows(cfg, e.review, st, Step(e, []));
      }
    } else if e.phase.Open? {
      OpenFollows(cfg, e, input.world, st);
    } else if e.phase.AwaitDecision? {
      DecisionFollows(cfg, e, input.world, st);
    } else {
      QuietFollows(cfg, e, input.world, st);
    }
  }

  /** Every run, under every world, follows the discipline. */
  lemma {:induction false} RunsAreOrderly(cfg: Config, left: Engine, review: bool, inputs: seq<Input>)
    requires cfg.params != []
    ensures var s := RunOf(cfg, Start(left, review), inputs);
      && Orderly(review, s.events)
      && s.engine.review == review
      && Linked(cfg, s.engine, Steps(review, BEGIN, s.events))
  {
    if inputs == [] {
    } else {
      var init := inputs[..|inputs| - 1];
      RunsAreOrderly(cfg, left, review, init);
      var before := RunOf(cfg, Start(left, review), init);
      var s := React(cfg, before.engine, inputs[|inputs| - 1]);
      ReactFollows(cfg, before.engine, inputs[|inputs| - 1], Steps(review, BEGIN, before.events));
      StepsAppend(review, BEGIN, before.events, s.events);
    }
  }

  lemma RunIsOrderly(cfg: Config, review: bool, run: Step)
    requires IsRun(cfg, review, run)
    ensures Orderly(review, run.events)
    ensures Linked(cfg, run.engine, Steps(review, BEGIN, run.events)) && run.engine.review == review
  {
    var left, inputs :| run == RunOf(cfg, Start(left, review), inputs);
    RunsAreOrderly(cfg, left, review, inputs);
  }
}

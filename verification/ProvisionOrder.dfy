/**
 What the sending discipline means: statements about every orderly log, and so, through
 `RunsAreOrderly`, about every provisioning run.
 */
module ProvisionOrder {
  import opened ProvisionEngine
  import opened ProvisionTrace

  function StageOf(review: bool, log: seq<Event>): (st: Stage) { Steps(review, BEGIN, log) }

  lemma {:induction false} BadIsFinal(review: bool, log: seq<Event>)
    ensures Steps(review, Bad, log) == Bad
    decreases |log|
  {
    if log == [] {
    } else {
      BadIsFinal(review, log[1..]);
    }
  }

  lemma PrefixIsOrderly(review: bool, log: seq<Event>, k: nat)
    requires Orderly(review, log) && k <= |log|
    ensures Orderly(review, log[..k])
    ensures k < |log| ==> Next(review, StageOf(review, log[..k]), log[k]) != Bad
  {
    assert log == log[..k] + log[k..];
    StepsAppend(review, BEGIN, log[..k], log[k..]);
    BadIsFinal(review, log[k..]);
    if k < |log| {
      assert log[..k + 1][..k] == log[..k];
      StepsLast(review, log[..k + 1]);
      assert log == log[..k + 1] + log[k + 1..];
      StepsAppend(review, BEGIN, log[..k + 1], log[k + 1..]);
      BadIsFinal(review, log[k + 1..]);
    }
  }

  // ---------------------------------------------------------------------------
  // The order of the commands

  predicate IsCommand(ev: Event) { ev.Get? || ev.Put? || ev.Run? || ev.KeepAlive? }

  predicate IsRestore(ev: Event) { ev.Run? && !ev.command.WR? }

  /**
   The commands of a log come in five sections: audit reads up to `a`, restores up to `b`,
   writes up to `c`, review reads and keep-alives up to `d`; what follows is one write to flash
   and then verification reads.
   */
  ghost predicate Sections(log: seq<Event>, a: nat, b: nat, c: nat, d: nat)
  {
    && a <= b <= c <= d <= |log|
    && (forall i :: 0 <= i < a && IsCommand(log[i]) ==> log[i].Get?)
    && (forall i :: a <= i < b && IsCommand(log[i]) ==> IsRestore(log[i]))
    && (forall i :: b <= i < c && IsCommand(log[i]) ==> log[i].Put?)
    && (forall i :: c <= i < d && IsCommand(log[i]) ==> log[i].Get? || log[i].KeepAlive?)
    && (d < |log| ==> log[d] == Run(WR))
    && (forall i :: d < i < |log| && IsCommand(log[i]) ==> log[i].Get?)
  }

  /** The section an event belongs to, by the stage it happens in. */
  function SectionOf(st: Stage, ev: Event): (r: nat)
  {
    match st
    case Reading(_, _) | Aborting => if ev.Run? then 1 else 0
    case Restoring(_) | Refused => 1
    case Writing(_, _) => if ev == Run(WR) then 4 else if ev.Put? || ev.Reply? || ev.Exit? then 2 else 3
    case Reviewing(_, _) | Deciding(_) | Saving(_) | Dropping => if ev == Run(WR) then 4 else 3
    case _ => 4
  }

  /** The sections from number `r` on are still empty after `n` events. */
  ghost predicate EmptyFrom(r: nat, n: nat, a: nat, b: nat, c: nat, d: nat)
  {
    && (r <= 0 ==> a == n)
    && (r <= 1 ==> b == n)
    && (r <= 2 ==> c == n)
    && (r <= 3 ==> d == n)
  }

  /** The earliest section that may still grow. */
  function Growing(st: Stage): (r: nat)
  {
    match st
    case Reading(_, _) | Aborting => 0
    case Restoring(_) | Refused => 1
    case Writing(_, _) => 2
    case Reviewing(_, _) | Deciding(_) | Saving(_) | Dropping => 3
    case _ => 4
  }

  predicate Fits(r: nat, ev: Event)
  {
    !IsCommand(ev)
    || (if r == 0 then ev.Get?
        else if r == 1 then IsRestore(ev)
        else if r == 2 then ev.Put?
        else if r == 3 then ev.Get? || ev.KeepAlive?
        else ev.Get? || ev == Run(WR))
  }

  /** One more event in section `r`: every later section now starts after it. */
  lemma ExtendSections(log: seq<Event>, r: nat, a: nat, b: nat, c: nat, d: nat)
    returns (a': nat, b': nat, c': nat, d': nat)
    requires log != [] && r <= 4
    requires Sections(log[..|log| - 1], a, b, c, d)
    requires EmptyFrom(r, |log| - 1, a, b, c, d)
    requires Fits(r, log[|log| - 1])
    requires r == 4 ==> (log[|log| - 1] == Run(WR) <==> d == |log| - 1)
    ensures Sections(log, a', b', c', d')
    ensures EmptyFrom(r, |log|, a', b', c', d')
    ensures r == 4 ==> d' < |log|
  {
    var n := |log| - 1;
    assert forall i :: 0 <= i < n ==> log[..n][i] == log[i];
    a' := if r <= 0 then n + 1 else a;
    b' := if r <= 1 then n + 1 else b;
    c' := if r <= 2 then n + 1 else c;
    d' := if r <= 3 then n + 1 else d;
  }

  /** Every run sends its commands in that order, and at most one of them writes flash. */
  lemma {:induction false} CommandsInOrder(review: bool, log: seq<Event>)
    returns (a: nat, b: nat, c: nat, d: nat)
    requires Orderly(review, log)
    ensures Sections(log, a, b, c, d)
    ensures var st := StageOf(review, log);
      && EmptyFrom(Growing(st), |log|, a, b, c, d)
      && (st.Committing? || st.Committed? || st.Verifying? ==> d < |log|)
  {
    if log == [] {
      a, b, c, d := 0, 0, 0, 0;
    } else {
      var n := |log| - 1;
      var ev := log[n];
      PrefixIsOrderly(review, log, n);
      StepsLast(review, log);
      a, b, c, d := CommandsInOrder(review, log[..n]);
      var st := StageOf(review, log[..n]);
      HereFits(review, st, ev, d == n);
      a, b, c, d := ExtendSections(log, SectionHere(st, ev, d == n), a, b, c, d);
    }
  }

  /** An ending after the reads and before any flash write is no command and belongs to any section. */
  function SectionHere(st: Stage, ev: Event, unwritten: bool): (r: nat)
  {
    if SectionOf(st, ev) == 4 && unwritten && ev != Run(WR) then 3 else SectionOf(st, ev)
  }

  lemma HereFits(review: bool, st: Stage, ev: Event, unwritten: bool)
    requires st != Bad && Next(review, st, ev) != Bad
    requires st.Committing? || st.Committed? || st.Verifying? ==> !unwritten
    requires Growing(st) < 4 ==> unwritten
    ensures var r, next := SectionHere(st, ev, unwritten), Next(review, st, ev);
      && (Growing(st) <= r || (unwritten && r == 3)) && r <= 4 && Fits(r, ev) && r <= Growing(next)
      && (r == 4 ==> (ev == Run(WR) <==> unwritten))
      && (next.Committing? || next.Committed? || next.Verifying? ==> r == 4)
  {
  }

  lemma CommitAtMostOnce(review: bool, log: seq<Event>, i: nat, j: nat)
    requires Orderly(review, log) && i < j < |log|
    requires log[i] == Run(WR)
    ensures log[j] != Run(WR)
  {
    var a, b, c, d := CommandsInOrder(review, log);
  }

  // ---------------------------------------------------------------------------
  // Restores and writes

  /** What is known of the restores sent so far. */
  ghost predicate RestoresSoFar(log: seq<Event>, st: Stage)
  {
    && (forall i :: 0 <= i < |log| && IsRestore(log[i]) ==>
          match st
          case Reading(_, _) | Aborting => false
          case Restoring(command) => i == |log| - 1 || (command.RE? && RefusedR1(log, i))
          case Refused => RefusedR1(log, i)
          case _ => true)
    && (st.Restoring? ==> !st.command.WR? && log != [] && log[|log| - 1] == Run(st.command))
    && (forall i, j :: 0 <= i < j < |log| && IsRestore(log[i]) && IsRestore(log[j]) ==>
          RefusedR1(log, i) && log[j] == Run(RE))
  }

  ghost predicate RefusedR1(log: seq<Event>, i: nat)
  {
    i + 1 < |log| && log[i] == Run(R1) && log[i + 1].Reply? && !log[i + 1].answer.ok
  }

  ghost predicate AcknowledgedRestore(log: seq<Event>, r: nat)
  {
    r + 1 < |log| && IsRestore(log[r]) && log[r + 1].Reply? && log[r + 1].answer.ok
  }

  /** Stages only a restored module reaches. */
  predicate Restored(st: Stage)
  {
    st.Writing? || st.Reviewing? || st.Deciding? || st.Saving? || st.Dropping?
    || st.Committing? || st.Committed? || st.Verifying?
  }

  lemma {:induction false} RestoresInvariant(review: bool, log: seq<Event>)
    requires Orderly(review, log)
    ensures RestoresSoFar(log, StageOf(review, log))
  {
    if log == [] {
    } else {
      var n := |log| - 1;
      var init := log[..n];
      PrefixIsOrderly(review, log, n);
      StepsLast(review, log);
      RestoresInvariant(review, init);
      assert log == init + [log[n]];
      RestoresStep(review, init, StageOf(review, init), log[n]);
    }
  }

  lemma RestoresStep(review: bool, log: seq<Event>, st: Stage, ev: Event)
    requires RestoresSoFar(log, st) && Next(review, st, ev) != Bad
    ensures RestoresSoFar(log + [ev], Next(review, st, ev))
  {
    var all := log + [ev];
    assert forall i :: 0 <= i < |log| ==> all[i] == log[i];
    assert forall i :: 0 <= i && RefusedR1(log, i) ==> RefusedR1(all, i);
  }

  /** Past the restore there is an acknowledged one. */
  lemma {:induction false} RestoredWasAcknowledged(review: bool, log: seq<Event>) returns (r: nat)
    requires Orderly(review, log) && Restored(StageOf(review, log))
    ensures AcknowledgedRestore(log, r)
  {
    var n := |log| - 1;
    var init := log[..n];
    PrefixIsOrderly(review, log, n);
    StepsLast(review, log);
    if Restored(StageOf(review, init)) {
      r := RestoredWasAcknowledged(review, init);
    } else {
      RestoresInvariant(review, init);
      r := n - 1;
    }
  }

  /** A second restore is RE, and only after the module refused R1. */
  lemma SecondRestoreIsTheFallback(review: bool, log: seq<Event>, i: nat, j: nat)
    requires Orderly(review, log) && i < j < |log|
    requires IsRestore(log[i]) && IsRestore(log[j])
    ensures log[i] == Run(R1) && log[i + 1].Reply? && !log[i + 1].answer.ok && log[j] == Run(RE)
  {
    RestoresInvariant(review, log);
  }

  /** What is known of the table writes sent so far. */
  ghost predicate WritesSoFar(log: seq<Event>, st: Stage)
  {
    && (forall i :: 0 <= i < |log| && log[i].Put? ==>
          match st
          case Reading(_, _) | Aborting | Restoring(_) | Refused => false
          case Writing(next, waiting) =>
            log[i].index < next && (Acknowledged(log, i) || (waiting && i == |log| - 1))
          case Failed | Ended => true
          case _ => Acknowledged(log, i))
    && (st.Writing? && st.waiting ==> log != [] && log[|log| - 1].Put?)
  }

  ghost predicate Acknowledged(log: seq<Event>, i: nat)
  {
    i + 1 < |log| && log[i + 1].Reply? && log[i + 1].answer.ok
  }

  lemma {:induction false} WritesInvariant(review: bool, log: seq<Event>)
    requires Orderly(review, log)
    ensures WritesSoFar(log, StageOf(review, log))
  {
    if log == [] {
    } else {
      var n := |log| - 1;
      var init := log[..n];
      PrefixIsOrderly(review, log, n);
      StepsLast(review, log);
      WritesInvariant(review, init);
      assert log == init + [log[n]];
      WritesStep(review, init, StageOf(review, init), log[n]);
    }
  }

  lemma WritesStep(review: bool, log: seq<Event>, st: Stage, ev: Event)
    requires WritesSoFar(log, st) && Next(review, st, ev) != Bad
    ensures WritesSoFar(log + [ev], Next(review, st, ev))
  {
    var all := log + [ev];
    assert forall i :: 0 <= i < |log| ==> all[i] == log[i];
    assert forall i :: 0 <= i && Acknowledged(log, i) ==> Acknowledged(all, i);
  }

  /** Table writes go out in strictly increasing table order. */
  lemma WritesIncrease(review: bool, log: seq<Event>, i: nat, j: nat)
    requires Orderly(review, log) && i < j < |log|
    requires log[i].Put? && log[j].Put?
    ensures log[i].index < log[j].index
  {
    PrefixIsOrderly(review, log, j);
    WritesInvariant(review, log[..j]);
    assert log[..j][i] == log[i];
  }

  // ---------------------------------------------------------------------------
  // What the host asked for

  ghost predicate AnswersSoFar(review: bool, log: seq<Event>, st: Stage)
  {
    && (review && (st.Saving? || st.Committing? || st.Committed? || st.Verifying?) ==> Decided(true) in log)
    && (Decided(false) in log ==> (st.Dropping? || st.Ended?) && Exit !in log && Run(WR) !in log)
    && (st.Dropping? ==> Decided(false) in log)
  }

  ghost predicate AbortSoFar(log: seq<Event>, st: Stage)
  {
    && (st.Reading? ==> forall ev :: ev in log ==> ev.Get? || ev.Reply?)
    && (AbortAsked in log ==>
          (st.Aborting? || st.Ended?) && forall ev :: ev in log ==> !ev.Run? && !ev.Put?)
    && (st.Aborting? ==> AbortAsked in log)
  }

  lemma {:induction false} AbortInvariant(review: bool, log: seq<Event>)
    requires Orderly(review, log)
    ensures AbortSoFar(log, StageOf(review, log))
  {
    if log == [] {
    } else {
      var n := |log| - 1;
      PrefixIsOrderly(review, log, n);
      StepsLast(review, log);
      AbortInvariant(review, log[..n]);
      assert log == log[..n] + [log[n]];
      AbortStep(review, log[..n], StageOf(review, log[..n]), log[n]);
    }
  }

  lemma AbortStep(review: bool, log: seq<Event>, st: Stage, ev: Event)
    requires AbortSoFar(log, st) && Next(review, st, ev) != Bad
    ensures AbortSoFar(log + [ev], Next(review, st, ev))
  {
  }

  lemma {:induction false} AnswersInvariant(review: bool, log: seq<Event>)
    requires Orderly(review, log)
    ensures AnswersSoFar(review, log, StageOf(review, log))
  {
    if log == [] {
    } else {
      var n := |log| - 1;
      var init := log[..n];
      PrefixIsOrderly(review, log, n);
      StepsLast(review, log);
      AnswersInvariant(review, init);
      assert log == init + [log[n]];
      NothingFinalYet(review, init);
      AnswersStep(review, init, StageOf(review, init), log[n]);
    }
  }

  lemma AnswersStep(review: bool, log: seq<Event>, st: Stage, ev: Event)
    requires AnswersSoFar(review, log, st) && Next(review, st, ev) != Bad
    requires Growing(st) < 4 ==> Exit !in log && Run(WR) !in log
    ensures AnswersSoFar(review, log + [ev], Next(review, st, ev))
  {
  }

  /** Before the commit and before an ending, the session is open and flash untouched. */
  lemma {:induction false} NothingFinalYet(review: bool, log: seq<Event>)
    requires Orderly(review, log)
    ensures Growing(StageOf(review, log)) < 4 ==> Exit !in log && Run(WR) !in log
  {
    if log == [] {
    } else {
      var n := |log| - 1;
      PrefixIsOrderly(review, log, n);
      StepsLast(review, log);
      NothingFinalYet(review, log[..n]);
      assert log == log[..n] + [log[n]];
      GrowingStep(review, StageOf(review, log[..n]), log[n]);
    }
  }

  lemma GrowingStep(review: bool, st: Stage, ev: Event)
    requires Next(review, st, ev) != Bad
    ensures Growing(Next(review, st, ev)) < 4 ==> Growing(st) < 4 && ev != Exit && ev != Run(WR)
  {
  }

  /**
   Nothing reaches flash before it is earned: at the write to flash the restore and every table
   write have been acknowledged, none was refused, and a reviewing host has said save.
   */
  lemma CommitIsEarned(review: bool, log: seq<Event>, k: nat)
    requires Orderly(review, log) && k < |log| && log[k] == Run(WR)
    ensures exists r :: AcknowledgedRestore(log[..k], r)
    ensures forall i :: 0 <= i < k && log[i].Put? ==> Acknowledged(log[..k], i)
    ensures review ==> Decided(true) in log[..k]
    ensures Decided(false) !in log && AbortAsked !in log
  {
    PrefixIsOrderly(review, log, k);
    var r := RestoredWasAcknowledged(review, log[..k]);
    WritesInvariant(review, log[..k]);
    AnswersInvariant(review, log[..k]);
    AnswersInvariant(review, log);
    AbortInvariant(review, log);
    assert log[k] in log;
    assert forall i :: 0 <= i < k && log[i].Put? ==> log[..k][i].Put?;
  }

  /** Once an abort is accepted, the run never restores, writes or commits. */
  lemma AbortedNeverWrites(review: bool, log: seq<Event>)
    requires Orderly(review, log) && AbortAsked in log
    ensures forall ev :: ev in log ==> !ev.Run? && !ev.Put?
  {
    AbortInvariant(review, log);
  }

  /**
   Once the host has said discard, nothing is written to flash, and the session is not closed,
   so the staged values are never applied either.
   */
  lemma DroppedNeverCommits(review: bool, log: seq<Event>)
    requires Orderly(review, log) && Decided(false) in log
    ensures Run(WR) !in log && Exit !in log
  {
    AnswersInvariant(review, log);
  }
}

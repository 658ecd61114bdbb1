/**
 What the Command mode transport may put on the line, and when: the discipline of its writes,
 on its own, and what it means for the guard times around the escape sequence.
 */
module CmdTrace {
  import opened Base
  import opened Ticks

  datatype Happening =
    | Entered(lastTx: Tick, window: Tick)  // a session was asked for; the line last carried a byte at `lastTx`
    | Escaped(now: Tick)                   // the escape characters were written
    | Opened                               // the module's OK arrived
    | Wrote(bytes: seq<Byte>)              // a command, the exit command, or data
    | Left                                 // the session, or the attempt at one, is over

  datatype Standing = Outside | Guarding(lastTx: Tick, window: Tick) | Waiting | Inside | Broken

  function Next(st: Standing, h: Happening): (r: Standing)
  {
    match st
    case Outside =>
      if h.Entered? then Guarding(h.lastTx, h.window) else if h.Wrote? || h.Left? then Outside else Broken
    case Guarding(lastTx, window) =>
      if h.Escaped? && Reached(h.now, Add(lastTx, window)) then Waiting
      else if h.Left? then Outside
      else Broken
    case Waiting => if h.Opened? then Inside else if h.Left? then Outside else Broken
    case Inside => if h.Wrote? then Inside else if h.Left? then Outside else Broken
    case Broken => Broken
  }

  function After(log: seq<Happening>): (st: Standing)
  {
    if log == [] then Outside else Next(After(log[..|log| - 1]), log[|log| - 1])
  }

  lemma AfterOne(log: seq<Happening>, h: Happening)
    ensures After(log + [h]) == Next(After(log), h)
  {
    assert (log + [h])[..|log|] == log;
  }

  lemma {:induction false} PrefixIsOrderly(log: seq<Happening>, k: nat)
    requires After(log) != Broken && k <= |log|
    ensures After(log[..k]) != Broken
  {
    if k == |log| {
      assert log[..k] == log;
    } else {
      PrefixIsOrderly(log[..|log| - 1], k);
      assert log[..|log| - 1][..k] == log[..k];
    }
  }

  lemma StepAt(log: seq<Happening>, k: nat)
    requires After(log) != Broken && k < |log|
    ensures After(log[..k]) != Broken && Next(After(log[..k]), log[k]) != Broken
    ensures After(log[..k + 1]) == Next(After(log[..k]), log[k])
  {
    PrefixIsOrderly(log, k);
    PrefixIsOrderly(log, k + 1);
    assert log[..k + 1] == log[..k] + [log[k]];
    AfterOne(log[..k], log[k]);
  }

  /**
   The escape characters come straight after the entry, with nothing written in between, and not
   before the guard is over.
   */
  lemma EscapeFollowsSilence(log: seq<Happening>, k: nat)
    requires After(log) != Broken && k < |log| && log[k].Escaped?
    ensures k >= 1 && log[k - 1].Entered?
    ensures Reached(log[k].now, Add(log[k - 1].lastTx, log[k - 1].window))
  {
    assert log[..0] == [];
    StepAt(log, k);
    if k > 0 {
      StepAt(log, k - 1);
    }
  }

  /** The session opens straight after the escape characters, with nothing written in between. */
  lemma OpeningFollowsEscape(log: seq<Happening>, k: nat)
    requires After(log) != Broken && k < |log| && log[k].Opened?
    ensures k >= 1 && log[k - 1].Escaped?
  {
    assert log[..0] == [];
    StepAt(log, k);
    if k > 0 {
      StepAt(log, k - 1);
    }
  }

  /**
   Nothing is written from the entry on until the escape characters, nor from them until the session
   opens or is given up.
   */
  lemma {:induction false} SilenceIsKept(log: seq<Happening>, i: nat, k: nat) returns (m: nat)
    requires After(log) != Broken && i < k < |log|
    requires log[i].Entered? || log[i].Escaped?
    requires log[k].Wrote?
    ensures i < m < k && (log[m].Opened? || log[m].Left?)
  {
    StepAt(log, k);
    m := StaysSilent(log, i, k);
  }

  /** Between an entry or escape and a place where writing is allowed, the session opened or was left. */
  lemma {:induction false} StaysSilent(log: seq<Happening>, i: nat, k: nat) returns (m: nat)
    requires After(log) != Broken && i < k <= |log|
    requires log[i].Entered? || log[i].Escaped?
    requires After(log[..k]).Outside? || After(log[..k]).Inside?
    ensures i < m < k && (log[m].Opened? || log[m].Left?)
  {
    StepAt(log, k - 1);
    StepAt(log, i);
    if log[k - 1].Opened? || log[k - 1].Left? {
      m := k - 1;
    } else {
      m := StaysSilent(log, i, k - 1);
    }
  }

  /**
   In true time: the escape characters go out no earlier than the guard window after the line last
   carried a byte, as long as the wait is under half the counter's range.
   */
  lemma GuardIsKept(log: seq<Happening>, k: nat, lastTx: int, now: int)
    requires After(log) != Broken && 1 <= k < |log| && log[k].Escaped? && log[k - 1].Entered?
    requires log[k - 1].lastTx == At(lastTx) && log[k].now == At(now)
    requires -HALF <= now - (lastTx + log[k - 1].window) < HALF
    ensures now >= lastTx + log[k - 1].window
  {
    EscapeFollowsSilence(log, k);
    AddOfTimes(lastTx, log[k - 1].window);
    ReachedMeansTrueTime(now, lastTx + log[k - 1].window);
  }
}

/**
 The facade as the firmware keeps it: file-scope state that each call updates. Every method is
 proved to do what the routing specification's function of the same call does.
 */
module Facade {
  import opened Base
  import opened Ticks
  import opened AtTable
  import R = FacadeRouting

  class Facade {
    const entries: seq<Entry>
    var state: R.State
    var user: Option<nat>
    var awaiting: bool
    var session: R.Session
    var mode: R.Mode
    var sessionDeadline: Tick
    var wakeGuard: Tick
    var requests: map<nat, R.Progress>  // the callers' request objects

    ghost function View(): (f: R.Facade)
      reads this
    {
      R.Facade(state, user, awaiting, session, mode, sessionDeadline, wakeGuard, requests)
    }

    ghost predicate Valid()
      reads this
    {
      R.Valid(View())
    }

    constructor (table: seq<Entry>)
      ensures Valid() && entries == table && state.Off? && user.None? && requests == map[]
    {
      entries, state, user, awaiting, session, mode := table, R.Off, None, false, R.NoSession, R.Undetermined;
      sessionDeadline, wakeGuard, requests := 0, 0, map[];
    }

    predicate UsesCommandMode()
      reads this
    {
      !session.NoSession? || !R.IsApi(mode)
    }

    method FinishUserRequest(ok: bool)
      requires user.Some?
      modifies this`requests, this`user
      ensures View() == R.Finish(old(View()), ok)
    {
      requests := requests[user.value := R.Ended(ok)];
      user := None;
    }

    method Submit(op: R.Op, command: nat, value: seq<Byte>, request: nat, now: Tick, sessionReady: bool, sends: bool)
      returns (s: R.Status)
      requires Valid()
      modifies this
      ensures Valid()
      ensures R.Call(View(), s) == R.Submit(old(View()), entries, op, command, value, request, now, sessionReady, sends)
    {
      R.StaysValid(View(), R.DoSubmit(entries, op, command, value, request, now, sessionReady, sends));
      if !state.Ready? {
        return R.NotReady;
      }
      if !Reached(now, wakeGuard) {
        return R.NotReady;
      }
      if user.Some? {
        return R.Occupied;
      }
      if R.Validate(entries, op, command, value) != Accepted {
        return R.Refused;
      }
      if !op.Read? && !UsesCommandMode() {
        var entry := FindEntry(entries, command);
        if entry.Some? && entry.value.commandModeOnly {
          return R.Status.NotSupported;
        }
      }
      if !sends {
        requests := requests[request := R.Ended(false)];
        return R.Refused;
      }
      user := Some(request);
      awaiting := UsesCommandMode() && !sessionReady;
      requests := requests[request := R.InFlight(UsesCommandMode())];
      s := R.Ok;
    }

    method OpenSession(now: Tick, openTicks: Tick, sessionReady: bool) returns (s: R.Status)
      requires Valid()
      modifies this
      ensures Valid() && R.Call(View(), s) == R.OpenSession(old(View()), now, openTicks, sessionReady)
    {
      if !state.Ready? {
        return R.NotReady;
      }
      if user.Some? {
        return R.Occupied;
      }
      if !session.NoSession? {
        return R.InvalidState;
      }
      sessionDeadline := Add(now, openTicks);
      session := if sessionReady then R.Established else R.Requested;
      s := R.Ok;
    }

    method SessionStatus(now: Tick) returns (s: R.Status)
      requires Valid()
      modifies this
      ensures Valid() && R.Call(View(), s) == R.SessionStatus(old(View()), now)
    {
      if session.NoSession? {
        return R.InvalidState;
      }
      if session.Established? {
        return R.Ok;
      }
      if Reached(now, sessionDeadline) {
        session := R.NoSession;
        return R.Timeout;
      }
      s := R.InProgress;
    }

    method CloseSession(exits: bool) returns (s: R.Status)
      requires Valid()
      modifies this
      ensures Valid() && R.Call(View(), s) == R.CloseSession(old(View()), exits)
    {
      if session.NoSession? {
        return R.InvalidState;
      }
      if user.Some? {
        return R.Occupied;
      }
      if !session.Established? {
        session := R.NoSession;
        return R.Ok;
      }
      s := if exits then R.Ok else R.Refused;
    }

    method HwReset(pulses: bool) returns (s: R.Status)
      requires Valid()
      modifies this
      ensures Valid() && R.Call(View(), s) == R.HwReset(old(View()), pulses)
    {
      R.StaysValid(View(), R.DoReset(pulses));
      if user.Some? {
        FinishUserRequest(false);
      }
      if !pulses {
        return R.Refused;
      }
      mode, session, state := R.Undetermined, R.NoSession, R.BringingUp;
      s := R.Ok;
    }

    method AdvanceSession(w: R.World)
      modifies this`session
      ensures View() == R.AdvanceSession(old(View()), w)
    {
      match session
      case NoSession =>
      case Requested =>
        if w.sessionIdle {
          session := R.Entering;
        }
      case Entering =>
        if w.sessionReady {
          session := R.Established;
        } else if w.sessionIdle {
          session := R.Requested;
        }
      case Established =>
        if w.sessionIdle && user.None? {
          session := R.NoSession;
        }
    }

    method PollRequest(w: R.World, idle: bool)
      requires user.Some?
      modifies this
      ensures View() == R.Poll(old(View()), w, idle)
    {
      if awaiting {
        if w.sessionReady {
          awaiting := false;
          if !w.sends {
            FinishUserRequest(false);
          }
        } else if idle {
          FinishUserRequest(false);
        }
        return;
      }
      if w.done.Some? {
        FinishUserRequest(w.done.value);
      }
    }

    /** The facade's part of a pass, once the transports have run. */
    method Process(w: R.World)
      requires Valid()
      modifies this
      ensures Valid() && View() == R.Process(old(View()), w)
    {
      R.StaysValid(View(), R.DoProcess(w));
      if state.Off? {
        return;
      }
      var idle := w.sessionIdle && !session.Requested?;
      AdvanceSession(w);
      if state.Ready? {
        if user.Some? {
          PollRequest(w, idle);
          if user.None? && w.adopts.Some? {
            mode := w.adopts.value;
          }
        }
        return;
      }
      if state.Asleep? {
        if w.next.Ready? {
          state, wakeGuard := R.Ready, w.settled;
        }
        return;
      }
      if !state.Failed? {
        state := if w.next.Ready? || w.next.Failed? then w.next else R.BringingUp;
        mode := w.found;
      }
    }
  }
}

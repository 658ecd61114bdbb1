/**
 How the facade routes application requests: over API frames, or through a Command mode session.

 The transports, bring-up and sleep are the world's: each input carries what they answer. A
 request is named by a number; its progress records which transport carries it.
 */
module FacadeRouting {
  import opened Base
  import opened Ticks
  import opened AtTable

  datatype Mode = Undetermined | Transparent | Api1 | Api2

  datatype State = Off | BringingUp | Ready | Asleep | Failed

  datatype Session = NoSession | Requested | Entering | Established

  datatype Progress = InFlight(viaCommandMode: bool) | Ended(ok: bool)

  datatype Facade = Facade(
    state: State,
    user: Option<nat>,         // the application's request, while one is in flight
    awaiting: bool,            // it waits for a session to open before it is sent
    session: Session,
    mode: Mode,                // the mode detected
    sessionDeadline: Tick,
    wakeGuard: Tick,
    requests: map<nat, Progress>
  )

  datatype Op = Read | Write | Execute

  datatype Status = Ok | NotReady | Occupied | InvalidState | NotSupported | Refused | Timeout | InProgress

  predicate IsApi(mode: Mode) { mode.Api1? || mode.Api2? }

  /** `use_cmd_transport`. */
  predicate UsesCommandMode(f: Facade) { !f.session.NoSession? || !IsApi(f.mode) }

  /** `finish_user_request`. */
  function Finish(f: Facade, ok: bool): (r: Facade)
    requires f.user.Some?
  {
    f.(requests := f.requests[f.user.value := Ended(ok)], user := None)
  }

  datatype Call = Call(facade: Facade, status: Status)

  /** The command table's verdict on a request. */
  function Validate(entries: seq<Entry>, op: Op, command: nat, value: seq<Byte>): (c: Check)
  {
    if op.Read? then ValidateGet(entries, command) else ValidateSet(entries, command, value)
  }

  /** A command that only works from Command mode cannot travel as a frame. */
  predicate NeedsCommandMode(entries: seq<Entry>, op: Op, command: nat)
  {
    !op.Read? && Find(entries, command).Some? && Find(entries, command).value.commandModeOnly
  }

  /**
   `submit`. `sends` says whether the transport takes the request: a frame, a command in an open
   session, or the start of the escape sequence.
   */
  function Submit(f: Facade, entries: seq<Entry>, op: Op, command: nat, value: seq<Byte>, request: nat, now: Tick,
                  sessionReady: bool, sends: bool): (c: Call)
  {
    if !f.state.Ready? || !Reached(now, f.wakeGuard) then Call(f, NotReady)
    else if f.user.Some? then Call(f, Occupied)
    else if Validate(entries, op, command, value) != Accepted then Call(f, Refused)
    else if !UsesCommandMode(f) && NeedsCommandMode(entries, op, command) then Call(f, Status.NotSupported)
    else if !sends then Call(f.(requests := f.requests[request := Ended(false)]), Refused)
    else Call(f.(user := Some(request), awaiting := UsesCommandMode(f) && !sessionReady,
                 requests := f.requests[request := InFlight(UsesCommandMode(f))]), Ok)
  }

  /** `xbee_cmd_session_open`. */
  function OpenSession(f: Facade, now: Tick, openTicks: Tick, sessionReady: bool): (c: Call)
  {
    if !f.state.Ready? then Call(f, NotReady)
    else if f.user.Some? then Call(f, Occupied)
    else if !f.session.NoSession? then Call(f, InvalidState)
    else Call(f.(sessionDeadline := Add(now, openTicks),
                 session := if sessionReady then Established else Requested), Ok)
  }

  /** `xbee_cmd_session_status`: a session that did not open in time is dropped, whoever is waiting. */
  function SessionStatus(f: Facade, now: Tick): (c: Call)
  {
    if f.session.NoSession? then Call(f, InvalidState)
    else if f.session.Established? then Call(f, Ok)
    else if Reached(now, f.sessionDeadline) then Call(f.(session := NoSession), Timeout)
    else Call(f, InProgress)
  }

  /** `xbee_cmd_session_close`. */
  function CloseSession(f: Facade, exits: bool): (c: Call)
  {
    if f.session.NoSession? then Call(f, InvalidState)
    else if f.user.Some? then Call(f, Occupied)
    else if !f.session.Established? then Call(f.(session := NoSession), Ok)
    else Call(f, if exits then Ok else Refused)
  }

  /** `xbee_hw_reset`: nothing in flight survives, whether or not the pulse can be started. */
  function HwReset(f: Facade, pulses: bool): (c: Call)
  {
    var f1 := if f.user.Some? then Finish(f, false) else f;
    if !pulses then Call(f1, Refused)
    else Call(f1.(mode := Undetermined, session := NoSession, state := BringingUp), Ok)
  }

  /** What the transports report during one pass. */
  datatype World = World(
    sessionReady: bool,    // a command may be sent
    sessionIdle: bool,     // no session, and none being entered
    sends: bool,           // the command that waited for the session is taken
    done: Option<bool>,    // how the transport polled says the request ended, if it has
    adopts: Option<Mode>,  // a completed mode change the facade now follows
    next: State,           // where bring-up or sleep has got to
    settled: Tick,         // when a module that has just woken is ready to receive
    found: Mode            // and the mode it found
  )

  /** `advance_cmd_session`. */
  function AdvanceSession(f: Facade, w: World): (r: Facade)
  {
    match f.session
    case NoSession => f
    case Requested => if w.sessionIdle then f.(session := Entering) else f
    case Entering =>
      if w.sessionReady then f.(session := Established)
      else if w.sessionIdle then f.(session := Requested)
      else f
    case Established => if w.sessionIdle && f.user.None? then f.(session := NoSession) else f
  }

  /** `poll_request`. */
  function Poll(f: Facade, w: World, idle: bool): (r: Facade)
    requires f.user.Some?
  {
    if f.awaiting then
      if w.sessionReady then (if w.sends then f.(awaiting := false) else Finish(f.(awaiting := false), false))
      else if idle then Finish(f, false)
      else f
    else match w.done
      case None => f
      case Some(ok) => Finish(f, ok)
  }

  /** `xbee_process`, after the transports have run. */
  function Process(f: Facade, w: World): (r: Facade)
  {
    if f.state.Off? then f
    else
      var f1 := AdvanceSession(f, w);
      if f1.state.Ready? then
        if f1.user.None? then f1
        else
          var f2 := Poll(f1, w, w.sessionIdle && !f.session.Requested?);
          if f2.user.None? && w.adopts.Some? then f2.(mode := w.adopts.value) else f2
      else if f1.state.Failed? then f1
      else if f1.state.Asleep? then (if w.next.Ready? then f1.(state := Ready, wakeGuard := w.settled) else f1)
      else f1.(state := if w.next.Ready? || w.next.Failed? then w.next else BringingUp, mode := w.found)
  }

  /** `xbee_sleep_enter`, in a module that can sleep. */
  function Sleep(f: Facade, w: World): (r: Facade)
  {
    if f.state.Ready? && f.user.None? && w.sessionIdle then f.(state := Asleep) else f
  }

  datatype Input =
    | DoSubmit(entries: seq<Entry>, op: Op, command: nat, value: seq<Byte>, request: nat, now: Tick,
               sessionReady: bool, sends: bool)
    | DoOpen(now: Tick, openTicks: Tick, sessionReady: bool)
    | DoStatus(now: Tick)
    | DoClose(exits: bool)
    | DoReset(pulses: bool)
    | DoProcess(world: World)
    | DoSleep(world: World)

  function React(f: Facade, input: Input): (r: Facade)
  {
    match input
    case DoSubmit(entries, op, command, value, request, now, sessionReady, sends) =>
      Submit(f, entries, op, command, value, request, now, sessionReady, sends).facade
    case DoOpen(now, openTicks, sessionReady) => OpenSession(f, now, openTicks, sessionReady).facade
    case DoStatus(now) => SessionStatus(f, now).facade
    case DoClose(exits) => CloseSession(f, exits).facade
    case DoReset(pulses) => HwReset(f, pulses).facade
    case DoProcess(w) => Process(f, w)
    case DoSleep(w) => Sleep(f, w)
  }

  // ---------------------------------------------------------------------------
  // Who is in flight

  /** At most one request is in flight, and it is exactly the one the facade tracks, while it is ready. */
  ghost predicate Valid(f: Facade)
  {
    && (f.user.Some? ==> f.state.Ready? && f.user.value in f.requests)
    && (forall q :: q in f.requests ==> (f.requests[q].InFlight? <==> f.user == Some(q)))
  }

  lemma StaysValid(f: Facade, input: Input)
    requires Valid(f)
    ensures Valid(React(f, input))
  {
  }

  /** The calls of an application between two initialisations. */
  function After(f: Facade, inputs: seq<Input>): (r: Facade)
  {
    if inputs == [] then f else React(After(f, inputs[..|inputs| - 1]), inputs[|inputs| - 1])
  }

  /** A request is in flight exactly while the facade tracks it, in every run. */
  lemma {:induction false} InFlightIsTracked(f: Facade, inputs: seq<Input>, request: nat)
    requires Valid(f)
    ensures Valid(After(f, inputs))
    ensures var f1 := After(f, inputs);
      request in f1.requests && f1.requests[request].InFlight? <==> f1.user == Some(request)
  {
    if inputs == [] {
    } else {
      InFlightIsTracked(f, inputs[..|inputs| - 1], request);
      StaysValid(After(f, inputs[..|inputs| - 1]), inputs[|inputs| - 1]);
    }
  }

  // ---------------------------------------------------------------------------
  // Routing

  /** A forced session is being opened while the module would otherwise be reached by frames. */
  predicate Precarious(f: Facade)
  {
    (f.session.Requested? || f.session.Entering?) && IsApi(f.mode)
  }

  /** The tracked request is still in flight, and the facade polls the transport that carries it. */
  ghost predicate RoutedAs(f: Facade, request: nat, viaCommandMode: bool)
  {
    && f.user == Some(request) && request in f.requests
    && f.requests[request] == InFlight(viaCommandMode) && UsesCommandMode(f) == viaCommandMode
  }

  /** While a request is in flight outside a precarious state, no call changes its route or makes it precarious. */
  lemma StepKeepsRoute(f: Facade, input: Input, request: nat, viaCommandMode: bool)
    requires Valid(f) && RoutedAs(f, request, viaCommandMode) && !Precarious(f)
    ensures RouteKept(React(f, input), request, viaCommandMode)
  {
    match input
    case DoProcess(w) => ProcessKeepsRoute(f, w, request, viaCommandMode);
    case DoStatus(now) => StatusKeepsRoute(f, now, request, viaCommandMode);
    case _ => assert RouteKept(React(f, input), request, viaCommandMode);
  }

  /** Still on its route, with nothing to change it, or ended. */
  ghost predicate RouteKept(f: Facade, request: nat, viaCommandMode: bool)
  {
    || (RoutedAs(f, request, viaCommandMode) && !Precarious(f))
    || (request in f.requests && f.requests[request].Ended? && f.user.None?)
  }

  lemma ProcessKeepsRoute(f: Facade, w: World, request: nat, viaCommandMode: bool)
    requires Valid(f) && RoutedAs(f, request, viaCommandMode) && !Precarious(f)
    ensures RouteKept(Process(f, w), request, viaCommandMode)
  {
  }

  lemma StatusKeepsRoute(f: Facade, now: Tick, request: nat, viaCommandMode: bool)
    requires Valid(f) && RoutedAs(f, request, viaCommandMode) && !Precarious(f)
    ensures RouteKept(SessionStatus(f, now).facade, request, viaCommandMode)
  {
  }

  /** The first moment after which the request has ended, or the whole run if it has not. */
  ghost predicate KeepsRoute(f: Facade, inputs: seq<Input>, request: nat, viaCommandMode: bool)
  {
    forall k :: 0 <= k <= |inputs| ==>
      RoutedAs(After(f, inputs[..k]), request, viaCommandMode)
      || exists j :: 0 <= j <= k && HasEnded(After(f, inputs[..j]), request)
  }

  predicate HasEnded(f: Facade, request: nat) { request in f.requests && f.requests[request].Ended? }

  lemma {:induction false} RunKeepsRoute(f: Facade, inputs: seq<Input>, k: nat, request: nat, viaCommandMode: bool)
    requires Valid(f) && RoutedAs(f, request, viaCommandMode) && !Precarious(f) && k <= |inputs|
    ensures (RoutedAs(After(f, inputs[..k]), request, viaCommandMode) && !Precarious(After(f, inputs[..k])))
         || exists j :: 0 <= j <= k && HasEnded(After(f, inputs[..j]), request)
  {
    if k == 0 {
      assert inputs[..0] == [];
    } else {
      RunKeepsRoute(f, inputs, k - 1, request, viaCommandMode);
      var before := After(f, inputs[..k - 1]);
      assert inputs[..k][..k - 1] == inputs[..k - 1];
      InFlightIsTracked(f, inputs[..k - 1], request);
      if RoutedAs(before, request, viaCommandMode) && !Precarious(before) {
        StepKeepsRoute(before, inputs[k - 1], request, viaCommandMode);
        assert HasEnded(After(f, inputs[..k]), request) || RoutedAs(After(f, inputs[..k]), request, viaCommandMode);
      }
    }
  }

  /** Asking for the session's progress after its deadline, with a request in flight, changes the route under it. */
  lemma StatusCanReroute(f: Facade, request: nat)
    requires Valid(f) && RoutedAs(f, request, true) && Precarious(f)
    ensures var f1 := React(f, DoStatus(f.sessionDeadline));
      && f1.user == Some(request) && f1.requests == f.requests && !UsesCommandMode(f1)
      && (f.awaiting ==> Stranded(f1, request))
  {
  }

  /** The request waits for a session that nobody is opening any more. */
  ghost predicate Stranded(f: Facade, request: nat)
  {
    Valid(f) && f.user == Some(request) && f.awaiting && f.session.NoSession? && IsApi(f.mode)
  }

  /**
   While the facade does not use Command mode it does not drive that transport either, so the
   transport stays in the middle of its escape sequence: neither ready nor idle.
   */
  ghost predicate Undriven(f: Facade, inputs: seq<Input>)
  {
    forall k :: 0 <= k < |inputs| && inputs[k].DoProcess? && !UsesCommandMode(After(f, inputs[..k])) ==>
      !inputs[k].world.sessionReady && !inputs[k].world.sessionIdle
  }

  lemma StaysStranded(f: Facade, input: Input, request: nat)
    requires Stranded(f, request) && !input.DoReset?
    requires input.DoProcess? ==> !input.world.sessionReady && !input.world.sessionIdle
    ensures Stranded(React(f, input), request)
  {
  }

  lemma {:induction false} StrandedUntilReset(f: Facade, inputs: seq<Input>, k: nat, request: nat)
    requires Stranded(f, request) && Undriven(f, inputs) && k <= |inputs|
    requires forall j :: 0 <= j < k ==> !inputs[j].DoReset?
    ensures Stranded(After(f, inputs[..k]), request)
  {
    if k > 0 {
      StrandedUntilReset(f, inputs, k - 1, request);
      assert inputs[..k][..k - 1] == inputs[..k - 1];
      StaysStranded(After(f, inputs[..k - 1]), inputs[k - 1], request);
    }
  }

  /** Once the route has changed under a waiting request it waits until the module is reset, whatever is called. */
  lemma OnlyAResetEndsTheWait(f: Facade, inputs: seq<Input>, request: nat)
    requires Stranded(f, request) && Undriven(f, inputs)
    ensures (exists k :: 0 <= k <= |inputs| && HasEnded(After(f, inputs[..k]), request))
       <==> (exists j :: 0 <= j < |inputs| && inputs[j].DoReset?)
  {
    if j :| 0 <= j < |inputs| && inputs[j].DoReset? {
      var first := FirstReset(inputs, j);
      StrandedUntilReset(f, inputs, first, request);
      assert inputs[..first + 1][..first] == inputs[..first];
      assert HasEnded(After(f, inputs[..first + 1]), request);
    } else {
      forall k | 0 <= k <= |inputs|
        ensures !HasEnded(After(f, inputs[..k]), request)
      {
        StrandedUntilReset(f, inputs, k, request);
      }
    }
  }

  lemma FirstReset(inputs: seq<Input>, j: nat) returns (first: nat)
    requires j < |inputs| && inputs[j].DoReset?
    ensures first <= j && inputs[first].DoReset? && forall i :: 0 <= i < first ==> !inputs[i].DoReset?
  {
    first := 0;
    while !inputs[first].DoReset?
      invariant first <= j && forall i :: 0 <= i < first ==> !inputs[i].DoReset?
      decreases j - first
    {
      first := first + 1;
    }
  }

  /**
   The case arises: over an API mode a session is asked for, a request is accepted while it is being
   opened, and the status is asked for after the deadline. The request is still in flight, and the
   transport that carries it is no longer the one polled.
   */
  lemma RerouteHappens(f: Facade, submit: Input, openTicks: Tick) returns (inputs: seq<Input>)
    requires Valid(f) && f.state.Ready? && f.user.None? && f.session.NoSession? && IsApi(f.mode)
    requires submit.DoSubmit? && Reached(submit.now, f.wakeGuard) && submit.sends
    requires Validate(submit.entries, submit.op, submit.command, submit.value) == Accepted
    ensures |inputs| == 3 && inputs[0].DoOpen? && inputs[1] == submit && inputs[2].DoStatus?
    ensures RoutedAs(After(f, inputs[..2]), submit.request, true) && Precarious(After(f, inputs[..2]))
    ensures var end := After(f, inputs);
      end.user == Some(submit.request) && end.requests[submit.request].InFlight? && !UsesCommandMode(end)
  {
    var open := DoOpen(submit.now, openTicks, false);
    var f1 := React(f, open);
    var f2 := React(f1, submit);
    var status := DoStatus(f2.sessionDeadline);
    inputs := [open, submit, status];
    StaysValid(f, open);
    StaysValid(f1, submit);
    AfterOne(f, [], open);
    AfterOne(f, [open], submit);
    AfterOne(f, [open, submit], status);
    assert [] + [open] == [open] && [open] + [submit] == inputs[..2] && inputs[..2] + [status] == inputs;
    StatusCanReroute(f2, submit.request);
  }

  lemma AfterOne(f: Facade, inputs: seq<Input>, last: Input)
    ensures After(f, inputs + [last]) == React(After(f, inputs), last)
  {
    assert (inputs + [last])[..|inputs|] == inputs;
  }

  /**
   Routing stability, exactly: a request in flight is polled on the transport that carries it
   until it ends, whatever is called, if and only if no session was being opened over an API mode.
   */
  lemma RouteIsStableExactlyUnlessOpening(f: Facade, request: nat, viaCommandMode: bool)
    requires Valid(f) && RoutedAs(f, request, viaCommandMode)
    ensures (forall inputs: seq<Input> :: KeepsRoute(f, inputs, request, viaCommandMode)) <==> !Precarious(f)
  {
    if !Precarious(f) {
      forall inputs: seq<Input>
        ensures KeepsRoute(f, inputs, request, viaCommandMode)
      {
        forall k | 0 <= k <= |inputs|
          ensures RoutedAs(After(f, inputs[..k]), request, viaCommandMode)
               || exists j :: 0 <= j <= k && HasEnded(After(f, inputs[..j]), request)
        {
          RunKeepsRoute(f, inputs, k, request, viaCommandMode);
        }
      }
    } else {
      var inputs := [DoStatus(f.sessionDeadline)];
      StatusCanReroute(f, request);
      assert inputs[..0] == [] && inputs[..1] == inputs;
      assert After(f, inputs) == React(f, DoStatus(f.sessionDeadline));
      assert !RoutedAs(After(f, inputs[..1]), request, viaCommandMode);
      assert forall j :: 0 <= j <= 1 ==> !HasEnded(After(f, inputs[..j]), request);
      assert !KeepsRoute(f, inputs, request, viaCommandMode);
    }
  }

  /** A request accepted while no session is being opened starts on its route, and stays there. */
  lemma AcceptedRequestsAreRouted(f: Facade, input: Input)
    requires Valid(f) && input.DoSubmit? && f.user.None?
    requires Submit(f, input.entries, input.op, input.command, input.value, input.request, input.now,
                    input.sessionReady, input.sends).status.Ok?
    ensures var f1 := React(f, input);
      && RoutedAs(f1, input.request, UsesCommandMode(f)) && Valid(f1)
      && ((forall inputs: seq<Input> :: KeepsRoute(f1, inputs, input.request, UsesCommandMode(f))) <==> !Precarious(f))
  {
    var f1 := React(f, input);
    StaysValid(f, input);
    RouteIsStableExactlyUnlessOpening(f1, input.request, UsesCommandMode(f));
  }
}

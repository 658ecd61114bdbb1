/**
 Replies as values: how received bytes become lines, what a line does to the command in flight and
 to the session, and what the clock does to them.
 */
module CmdReplies {
  import opened Base
  import opened Ticks
  import opened HexText
  import opened CmdTrace

  const LINE_MAX := 160
  const COMMAND_MAX := 160
  const GUARD_MARGIN := 50
  const OK_MARGIN := 500
  const REPLY_TIMEOUT := 1000
  const SESSION_MARGIN := 500
  const CR: Byte := 0x0D
  const LF: Byte := 0x0A

  datatype State = Idle | GuardPre | WaitOk | Active | Busy | Exiting

  datatype Status = Ok | InvalidState | InvalidParameter | WouldOverflow | Failure | Timeout | Aborted
                  | CommandError | NotSupported | InProgress

  datatype RequestState = Unsent | Pending | Done | Failed

  /** How one line ends a command; nothing if it does not. */
  function Ending(multiline: bool, t: LineType): (s: Option<Status>)
  {
    if multiline then (if t.Empty? then Some(Ok) else None)
    else match t
      case OkLine | ValueLine => Some(Ok)
      case ErrorLine => Some(CommandError)
      case FsError => Some(Status.NotSupported)
      case Empty => None
  }

  datatype Asked = Asked(
    state: RequestState,
    result: Status,
    command: nat,
    reply: LineType,
    multiline: bool,
    lines: int,
    deadline: Tick,
    value: Text,
    completions: nat
  )

  /** A session, with the command that was in flight when a pass began even if it has completed since. */
  datatype Progress = Progress(
    state: State,
    partial: Text,            // what has arrived of the current line
    stateDeadline: Tick,
    sessionDeadline: Tick,
    asked: Option<Asked>,
    handled: seq<Text>,       // the lines handled so far
    log: seq<Happening>
  )

  function Ended(a: Asked, with: Status, final: LineType): (r: Asked)
  {
    a.(result := with, reply := final, state := if with.Ok? then Done else Failed, completions := a.completions + 1)
  }

  /** The command in flight, if any, ends. */
  function EndedIfAny(asked: Option<Asked>, with: Status, final: LineType): (r: Option<Asked>)
  {
    if asked.Some? && asked.value.state.Pending? then Some(Ended(asked.value, with, final)) else asked
  }

  /** A line for a command in flight is counted, unless it is a stray empty one, and kept if it is a value. */
  function Kept(a: Asked, line: Text): (r: Asked)
  {
    var t := Classify(line);
    a.(lines := if t.Empty? && !a.multiline then a.lines else a.lines + 1,
       value := if t.ValueLine? || (t.FsError? && !a.multiline) then line else a.value)
  }

  /** And it may end the command. */
  function Replied(a: Asked, line: Text): (r: Asked)
  {
    var t := Classify(line);
    match Ending(a.multiline, t)
    case None => Kept(a, line)
    case Some(with) => Ended(Kept(a, line), with, t)
  }

  /** `handle_line`; a line that concerns the session renews it until `renewed`. */
  function Handled(p: Progress, line: Text, renewed: Tick): (r: Progress)
  {
    var t := Classify(line);
    match p.state
    case WaitOk =>
      if t.OkLine? then p.(state := Active, sessionDeadline := renewed, log := p.log + [Opened]) else p
    case Exiting =>
      if t.OkLine? then p.(state := State.Idle, asked := EndedIfAny(p.asked, Ok, t), log := p.log + [Left]) else p
    case Busy =>
      if p.asked.None? then p
      else
        var a := Replied(p.asked.value, line);
        p.(asked := Some(a), sessionDeadline := renewed, state := if a.state.Pending? then Busy else Active)
    case _ => p
  }

  /** `feed_byte`: a carriage return ends a line; one too long for the buffer is dropped whole. */
  function Fed(p: Progress, byte: Byte, renewed: Tick): (r: Progress)
  {
    if byte == LF then p
    else if byte == CR then
      if |p.partial| > LINE_MAX then p.(partial := [])
      else Handled(p, p.partial, renewed).(partial := [], handled := p.handled + [p.partial])
    else p.(partial := p.partial + [byte])
  }

  function FedAll(p: Progress, bytes: seq<Byte>, renewed: Tick): (r: Progress)
  {
    if bytes == [] then p else Fed(FedAll(p, bytes[..|bytes| - 1], renewed), bytes[|bytes| - 1], renewed)
  }

  lemma FedOneMore(p: Progress, bytes: seq<Byte>, i: nat, renewed: Tick)
    requires i < |bytes|
    ensures FedAll(p, bytes[..i + 1], renewed) == Fed(FedAll(p, bytes[..i], renewed), bytes[i], renewed)
  {
    assert bytes[..i + 1][..i] == bytes[..i];
  }

  /** How an overdue command ends: for one of several lines the deadline is its end. */
  function LapseResult(multiline: bool, lines: int): (s: Status)
  {
    if multiline && lines > 0 then Ok else Timeout
  }

  function GivenUp(p: Progress): (r: Progress) { p.(state := State.Idle, partial := [], log := p.log + [Left]) }

  /** What the clock does: `okDeadline` is until when the module may take to answer the escape characters. */
  function Lapsed(p: Progress, now: Tick, writes: bool, okDeadline: Tick): (r: Progress)
  {
    match p.state
    case GuardPre =>
      if Reached(now, p.stateDeadline) && writes then
        p.(state := WaitOk, stateDeadline := okDeadline, partial := [], log := p.log + [Escaped(now)])
      else p
    case WaitOk => if Reached(now, p.stateDeadline) then GivenUp(p) else p
    case Busy =>
      if p.asked.Some? && Reached(now, p.asked.value.deadline) then
        var a := p.asked.value;
        p.(state := Active, asked := Some(Ended(a, LapseResult(a.multiline, a.lines), Empty)))
      else p
    case Exiting =>
      if Reached(now, p.stateDeadline) then GivenUp(p).(asked := EndedIfAny(p.asked, Timeout, Empty)) else p
    case Active => if Reached(now, p.sessionDeadline) then GivenUp(p) else p
    case Idle => p
  }

  // ---------------------------------------------------------------------------
  // Bytes are lines

  datatype Assembled = Assembled(lines: seq<Text>, rest: Text)

  /** The lines that bytes complete, and what is left over: line feeds do not count, lines too long are dropped. */
  function Assemble(partial: Text, bytes: seq<Byte>): (r: Assembled)
  {
    if bytes == [] then Assembled([], partial)
    else
      var before, byte := Assemble(partial, bytes[..|bytes| - 1]), bytes[|bytes| - 1];
      if byte == LF then before
      else if byte == CR then Assembled(before.lines + if |before.rest| > LINE_MAX then [] else [before.rest], [])
      else before.(rest := before.rest + [byte])
  }

  function HandledAll(p: Progress, lines: seq<Text>, renewed: Tick): (r: Progress)
    ensures r.partial == p.partial && r.handled == p.handled
  {
    if lines == [] then p else Handled(HandledAll(p, lines[..|lines| - 1], renewed), lines[|lines| - 1], renewed)
  }

  /** Feeding bytes is handling their lines one after the other. */
  lemma {:induction false} BytesAreLines(p: Progress, bytes: seq<Byte>, renewed: Tick)
    ensures var x := Assemble(p.partial, bytes);
      FedAll(p, bytes, renewed)
      == HandledAll(p, x.lines, renewed).(partial := x.rest, handled := p.handled + x.lines)
  {
    if bytes == [] {
      assert p.handled + [] == p.handled;
    } else {
      var n := |bytes| - 1;
      var before, byte := Assemble(p.partial, bytes[..n]), bytes[n];
      BytesAreLines(p, bytes[..n], renewed);
      if byte == CR && |before.rest| <= LINE_MAX {
        assert (before.lines + [before.rest])[..|before.lines|] == before.lines;
        assert p.handled + before.lines + [before.rest] == p.handled + (before.lines + [before.rest]);
        HandledIgnoresAssembly(HandledAll(p, before.lines, renewed), before.rest, p.handled + before.lines, before.rest,
                               renewed);
      } else if byte == CR {
        assert before.lines + [] == before.lines;
      }
    }
  }

  lemma HandledIgnoresAssembly(p: Progress, partial: Text, handled: seq<Text>, line: Text, renewed: Tick)
    ensures Handled(p.(partial := partial, handled := handled), line, renewed)
         == Handled(p, line, renewed).(partial := partial, handled := handled)
  {
  }

  // ---------------------------------------------------------------------------
  // What ends a command

  function RepliedAll(a: Asked, lines: seq<Text>): (r: Asked)
  {
    if lines == [] then a
    else
      var before := RepliedAll(a, lines[..|lines| - 1]);
      if before.state.Pending? then Replied(before, lines[|lines| - 1]) else before
  }

  /** While a command is awaited every line is its own, until one ends it; later lines change nothing. */
  lemma {:induction false} LinesGoToTheCommand(p: Progress, lines: seq<Text>, renewed: Tick)
    requires p.state.Busy? && p.asked.Some? && p.asked.value.state.Pending?
    ensures var r, a := HandledAll(p, lines, renewed), RepliedAll(p.asked.value, lines);
      && r.asked == Some(a) && r.log == p.log
      && r.state == if a.state.Pending? then Busy else Active
  {
    if lines == [] {
    } else {
      LinesGoToTheCommand(p, lines[..|lines| - 1], renewed);
    }
  }

  /** A line that ends a command. */
  predicate Ends(multiline: bool, line: Text) { Ending(multiline, Classify(line)).Some? }

  /** The first line that ends a command, or the number of lines. */
  function FirstEnd(multiline: bool, lines: seq<Text>): (k: nat)
    ensures k <= |lines| && (k < |lines| ==> Ends(multiline, lines[k]))
    ensures forall j :: 0 <= j < k ==> !Ends(multiline, lines[j])
  {
    if lines == [] then 0
    else
      var n := |lines| - 1;
      var init := lines[..n];
      var k := FirstEnd(multiline, init);
      assert forall j :: 0 <= j < n ==> init[j] == lines[j];
      if k < n then k else if Ends(multiline, lines[n]) then n else n + 1
  }

  /** The last value line among the first so many lines, or what there was before. */
  function LastValue(before: Text, lines: seq<Text>, k: nat): (value: Text)
    requires k <= |lines|
  {
    if k == 0 then before
    else if Classify(lines[k - 1]).ValueLine? then lines[k - 1]
    else LastValue(before, lines, k - 1)
  }

  /**
   The command is answered by the first line that ends it: for a command of one line the first that
   is not empty, with its value; for one of several the empty line, with everything before it
   counted and the last value line kept.
   */
  lemma {:induction false} FirstEndCounts(a: Asked, lines: seq<Text>)
    requires a.state.Pending?
    ensures var r, k := RepliedAll(a, lines), FirstEnd(a.multiline, lines);
      && r.multiline == a.multiline && r.deadline == a.deadline && r.command == a.command
      && (k == |lines| ==>
            && r.state.Pending? && r.completions == a.completions && r.result == a.result
            && r.value == (if a.multiline then LastValue(a.value, lines, k) else a.value)
            && r.lines == a.lines + (if a.multiline then k else 0))
      && (k < |lines| ==>
            && !r.state.Pending? && r.completions == a.completions + 1 && r.reply == Classify(lines[k])
            && r.result == Ending(a.multiline, Classify(lines[k])).value
            && (a.multiline ==> r.value == LastValue(a.value, lines, k) && r.lines == a.lines + k + 1)
            && (!a.multiline ==> r.lines == a.lines + 1)
            && (!a.multiline && (r.reply.ValueLine? || r.reply.FsError?) ==> r.value == lines[k]))
  {
    if lines == [] {
    } else {
      var n := |lines| - 1;
      var init := lines[..n];
      FirstEndCounts(a, init);
      var k := FirstEnd(a.multiline, init);
      LastValueOfPrefix(a.value, lines, n, k);
    }
  }

  lemma {:induction false} LastValueOfPrefix(before: Text, lines: seq<Text>, n: nat, k: nat)
    requires k <= n <= |lines|
    ensures LastValue(before, lines[..n], k) == LastValue(before, lines, k)
  {
    if k == 0 {
    } else {
      LastValueOfPrefix(before, lines, n, k - 1);
    }
  }

  /**
   A pass with a command in flight: the command is answered by the first ending line among those the
   received bytes complete; without one it ends at its deadline, and otherwise stays in flight.
   */
  lemma PassAnswers(p: Progress, bytes: seq<Byte>, renewed: Tick, now: Tick, writes: bool, okDeadline: Tick)
    requires p.state.Busy? && p.asked.Some? && p.asked.value.state.Pending? && p.asked.value.completions == 0
    ensures var a, lines := p.asked.value, Assemble(p.partial, bytes).lines;
      var k := FirstEnd(a.multiline, lines);
      var r := Lapsed(FedAll(p, bytes, renewed), now, writes, okDeadline).asked;
      && r.Some?
      && (r.value.state.Pending? ==> r.value.completions == 0)
      && (!r.value.state.Pending? ==> r.value.completions == 1)
      && (k < |lines| ==>
            r.value == RepliedAll(a, lines) && r.value.result == Ending(a.multiline, Classify(lines[k])).value)
      && (k == |lines| ==> (r.value.state.Pending? <==> !Reached(now, a.deadline)))
      && (k == |lines| && Reached(now, a.deadline) ==>
            r.value.result == LapseResult(a.multiline, a.lines + if a.multiline then |lines| else 0))
  {
    var x := Assemble(p.partial, bytes);
    BytesAreLines(p, bytes, renewed);
    LinesGoToTheCommand(p, x.lines, renewed);
    FirstEndCounts(p.asked.value, x.lines);
  }
}

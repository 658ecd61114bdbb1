/**
 The Command mode transport: entering a session with the escape sequence, sending AT commands as
 text, assembling reply lines, and ending every command exactly once.

 The interval from milliseconds to ticks is any function; whether a write succeeds is the world's.
 */
module CmdMode {
  import opened Base
  import opened Ticks
  import opened HexText
  import opened CmdTrace
  import opened CmdReplies

  datatype Format = NoValue | Hex | Plain

  /** "AT" and the two command characters. */
  function Head(command: nat): (head: seq<Byte>)
    requires command < 0x1_0000
    ensures |head| == 4
  {
    [0x41, 0x54, command / 256, command % 256]
  }

  /** The value of a command as text. */
  function ValueText(value: seq<Byte>, format: Format): (text: seq<Byte>)
  {
    if format.Hex? then EncodeHex(value) else if format.Plain? then value else []
  }

  /** The text of a command; nothing if it does not fit the command buffer. */
  function CommandText(command: nat, value: seq<Byte>, format: Format): (text: Option<seq<Byte>>)
    requires command < 0x1_0000
  {
    var body := ValueText(value, format);
    if 4 + |body| + 1 > COMMAND_MAX then None else Some(Head(command) + body + [CR])
  }

  class CmdRequest {
    var state: RequestState
    var result: Status
    var command: nat
    var reply: LineType
    var multiline: bool
    var lines: int
    var deadline: Tick
    var value: Text
    ghost var completions: nat

    constructor ()
      ensures state.Unsent? && completions == 0
    {
      state, result, command, reply, multiline := Unsent, Ok, 0, Empty, false;
      lines, deadline, value, completions := 0, 0, [], 0;
    }

    ghost predicate InFlight()
      reads this
    {
      state.Pending? && result.InProgress? && completions == 0
    }

    ghost function Value(): (a: Asked)
      reads this
    {
      Asked(state, result, command, reply, multiline, lines, deadline, value, completions)
    }

    /** Completed exactly once. */
    ghost predicate Completed(with: Status, final: LineType)
      reads this
    {
      result == with && reply == final && state == (if with.Ok? then Done else Failed) && completions == 1
    }

    method Complete(with: Status, final: LineType)
      requires InFlight()
      modifies this`result, this`reply, this`state, this`completions
      ensures Completed(with, final) && Value() == Ended(old(Value()), with, final)
    {
      reply, result := final, with;
      state := if with.Ok? then Done else Failed;
      completions := completions + 1;
    }

    method Keep(line: Text, t: LineType)
      requires t == Classify(line)
      modifies this`lines, this`value
      ensures Value() == Kept(old(Value()), line)
    {
      lines := lines + 1;
      if t.ValueLine? || (t.FsError? && !multiline) {
        value := line;
      }
      if t.Empty? && !multiline {
        lines := lines - 1;
      }
    }

    method Start(sent: nat, several: bool, due: Tick)
      modifies this
      ensures InFlight() && command == sent && multiline == several && deadline == due && lines == 0 && value == []
    {
      state, result, command, reply, multiline := Pending, InProgress, sent, Empty, several;
      lines, deadline, value, completions := 0, due, [], 0;
    }
  }

  class Session {
    const toTicks: nat -> Tick
    var state: State
    var commandChar: Byte
    var guardMs: nat
    var timeoutMs: nat
    var stateDeadline: Tick
    var sessionDeadline: Tick
    var active: CmdRequest?
    const lineBuf: array<Byte>
    var lineLen: nat
    var lineOverflow: bool
    const cmdBuf: array<Byte>
    ghost var partial: seq<Byte>   // what has arrived of the current line
    ghost var handled: seq<Text>   // the lines handled so far
    ghost var log: seq<Happening>

    /** Where the discipline of the line stands for a state. */
    ghost predicate Stands(st: Standing)
      reads this
    {
      match state
      case Idle => st == Outside
      case GuardPre => st.Guarding? && stateDeadline == Add(st.lastTx, st.window)
      case WaitOk => st == Waiting
      case Active | Busy | Exiting => st == Inside
    }

    /** The buffer holds the line so far, or the line has been given up as too long. */
    ghost predicate Assembling()
      reads this, lineBuf
    {
      && lineBuf.Length == LINE_MAX + 1 && lineLen <= LINE_MAX
      && (lineOverflow <==> |partial| > LINE_MAX)
      && (!lineOverflow ==> lineBuf[..lineLen] == partial)
      && (lineOverflow ==> lineLen == LINE_MAX)
    }

    /** A command is in flight only while one is awaited or the session closes, and always while one is awaited. */
    ghost predicate Valid()
      reads this, active, lineBuf
    {
      && Assembling() && cmdBuf.Length == COMMAND_MAX && cmdBuf != lineBuf
      && (active != null ==> active.InFlight() && (state.Busy? || state.Exiting?))
      && (state.Busy? ==> active != null)
      && Stands(After(log))
    }

    /** The session as a value, with the command that was in flight when a pass began. */
    ghost function View(asked: CmdRequest?): (p: Progress)
      reads this, asked
    {
      Progress(state, partial, stateDeadline, sessionDeadline, if asked == null then None else Some(asked.Value()),
               handled, log)
    }

    /** The command is still awaited exactly while it has not completed. */
    ghost predicate Follows(asked: CmdRequest?)
      reads this, asked
    {
      active == if asked != null && asked.state.Pending? then asked else null
    }

    /** Until when a session renewed now lasts. */
    function Renewed(now: Tick): (deadline: Tick)
      reads this`timeoutMs
    {
      Add(now, toTicks(if timeoutMs > SESSION_MARGIN then timeoutMs - SESSION_MARGIN else timeoutMs))
    }

    /** Until when the module may take to answer escape characters sent now. */
    function OkDeadline(now: Tick): (deadline: Tick)
      reads this`guardMs
    {
      Add(now, toTicks(guardMs + OK_MARGIN))
    }

    /** A request in flight before is still in flight, or completed exactly once and let go. */
    ghost predicate Accounted(r: CmdRequest)
      reads this, r
    {
      if active == r then r.InFlight() else (r.state.Done? || r.state.Failed?) && r.completions == 1
    }

    constructor (ticks: nat -> Tick)
      ensures Valid() && state.Idle? && active == null && log == [] && toTicks == ticks
      ensures fresh(lineBuf) && fresh(cmdBuf)
    {
      toTicks := ticks;
      lineBuf := new Byte[LINE_MAX + 1](_ => 0);
      cmdBuf := new Byte[COMMAND_MAX](_ => 0);
      partial, handled := [], [];
      state, commandChar, guardMs, timeoutMs := Idle, 0x2B, 1000, 10000;
      stateDeadline, sessionDeadline, active, lineLen, lineOverflow, log := 0, 0, null, 0, false, [];
    }

    method Note(ghost h: Happening)
      modifies this`log
      ensures log == old(log) + [h] && After(log) == Next(After(old(log)), h)
    {
      AfterOne(log, h);
      log := log + [h];
    }

    method ResetLine()
      requires lineBuf.Length == LINE_MAX + 1
      modifies this`lineLen, this`lineOverflow, this`partial
      ensures Assembling() && partial == []
    {
      lineLen, lineOverflow, partial := 0, false, [];
    }

    /** Put the value after the command characters; nothing if it does not fit with its end. */
    method PutValue(value: seq<Byte>, format: Format) returns (end: nat)
      requires cmdBuf.Length == COMMAND_MAX
      modifies cmdBuf
      ensures end != 0 <==> 4 + |ValueText(value, format)| + 1 <= COMMAND_MAX
      ensures end != 0 ==> end == 4 + |ValueText(value, format)|
      ensures end != 0 ==> cmdBuf[..4] == old(cmdBuf[..4]) && cmdBuf[4..end] == ValueText(value, format)
    {
      if format.Hex? && |value| > 0 {
        var fits := WriteHex(value, cmdBuf, 4, COMMAND_MAX - 4);
        if !fits {
          return 0;
        }
        return 4 + 2 * |value|;
      }
      if format.Plain? {
        if 4 + |value| + 1 > COMMAND_MAX {
          return 0;
        }
        for i := 0 to |value|
          invariant cmdBuf[..4] == old(cmdBuf[..4])
          invariant cmdBuf[4..4 + i] == value[..i]
        {
          cmdBuf[4 + i] := value[i];
        }
        return 4 + |value|;
      }
      end := 4;
    }

    /** `write_command`: the command is built in its buffer and written whole, or not at all. */
    method WriteCommand(command: nat, value: seq<Byte>, format: Format, writes: bool) returns (s: Status)
      requires Valid() && command < 0x1_0000
      requires state.Active? || state.Busy?
      modifies cmdBuf, this`log
      ensures Valid()
      ensures s.Ok? <==> CommandText(command, value, format).Some? && writes
      ensures s.Ok? ==> log == old(log) + [Wrote(CommandText(command, value, format).value)]
      ensures !s.Ok? ==> log == old(log)
    {
      var end := BuildCommand(command, value, format);
      if end == 0 {
        return Status.WouldOverflow;
      }
      if !writes {
        return Failure;
      }
      Note(Wrote(cmdBuf[..end]));
      s := Ok;
    }

    method BuildCommand(command: nat, value: seq<Byte>, format: Format) returns (end: nat)
      requires cmdBuf.Length == COMMAND_MAX && command < 0x1_0000
      modifies cmdBuf
      ensures end != 0 <==> CommandText(command, value, format).Some?
      ensures end != 0 ==> end <= COMMAND_MAX && cmdBuf[..end] == CommandText(command, value, format).value
    {
      var head := Head(command);
      cmdBuf[0], cmdBuf[1], cmdBuf[2], cmdBuf[3] := head[0], head[1], head[2], head[3];
      assert cmdBuf[..4] == head;
      var pos := PutValue(value, format);
      if pos == 0 {
        return 0;
      }
      cmdBuf[pos] := CR;
      assert cmdBuf[..pos + 1] == cmdBuf[..4] + cmdBuf[4..pos] + [CR];
      end := pos + 1;
    }

    /** `xbee_cmd_mode_set_params`: only between sessions, so a silence already measured stays valid. */
    method SetParams(cc: Byte, gt: nat, ct: nat) returns (s: Status)
      requires Valid()
      modifies this`commandChar, this`guardMs, this`timeoutMs
      ensures Valid()
      ensures s.Ok? <==> gt != 0 && ct != 0 && state.Idle?
      ensures s.Ok? ==> commandChar == cc && guardMs == gt && timeoutMs == ct
      ensures !s.Ok? ==> unchanged(this)
    {
      if gt == 0 || ct == 0 {
        return InvalidParameter;
      }
      if !state.Idle? {
        return InvalidState;
      }
      commandChar, guardMs, timeoutMs := cc, gt, ct;
      s := Ok;
    }

    /** Begin opening a session: silence is measured from when the line last carried a byte. */
    method Enter(lastTx: Tick) returns (s: Status)
      requires Valid()
      modifies this
      ensures Valid() && active == old(active)
      ensures s.Ok? <==> old(state).Idle?
      ensures s.Ok? ==> state.GuardPre? && log == old(log) + [Entered(lastTx, toTicks(guardMs + GUARD_MARGIN))]
      ensures !s.Ok? ==> log == old(log) && state == old(state)
      ensures guardMs == old(guardMs) && commandChar == old(commandChar)
    {
      if !state.Idle? {
        return InvalidState;
      }
      var window := toTicks(guardMs + GUARD_MARGIN);
      Note(Entered(lastTx, window));
      state := GuardPre;
      stateDeadline := Add(lastTx, window);
      ResetLine();
      s := Ok;
    }

    method RefreshSession(now: Tick)
      modifies this`sessionDeadline
      ensures sessionDeadline == Renewed(now)
    {
      var window := timeoutMs;
      if window > SESSION_MARGIN {
        window := window - SESSION_MARGIN;
      }
      sessionDeadline := Add(now, toTicks(window));
    }

    /** Complete the command in flight and let it go. */
    method FinishRequest(with: Status, final: LineType)
      requires active != null ==> active.InFlight()
      modifies this`active, active
      ensures active == null
      ensures old(active) != null ==> old(active).Completed(with, final)
      ensures old(active) != null ==> old(active).Value() == Ended(old(active.Value()), with, final)
    {
      if active != null {
        active.Complete(with, final);
        active := null;
      }
    }

    /** `send_command`. */
    method Send(command: nat, value: seq<Byte>, format: Format, request: CmdRequest, timeout: nat, several: bool,
                now: Tick, writes: bool)
      returns (s: Status)
      requires Valid() && command < 0x1_0000
      modifies this, request, cmdBuf
      ensures Valid()
      ensures s.Ok? <==> old(state).Active? && CommandText(command, value, format).Some? && writes
      ensures s.Ok? ==> state.Busy? && active == request && request.command == command && request.multiline == several
                        && request.deadline == Add(now, toTicks(timeout)) && request.lines == 0
                        && log == old(log) + [Wrote(CommandText(command, value, format).value)]
      ensures !s.Ok? ==> unchanged(this) && unchanged(request)
    {
      if !state.Active? {
        return InvalidState;
      }
      s := WriteCommand(command, value, format, writes);
      if !s.Ok? {
        return;
      }
      request.Start(command, several, Add(now, toTicks(timeout)));
      active := request;
      state := Busy;
      ResetLine();
      s := Ok;
    }

    /** `xbee_cmd_mode_exit`: the exit command goes out, and what was in flight will not be answered any more. */
    method Exit(request: CmdRequest?, now: Tick, writes: bool) returns (s: Status)
      requires Valid()
      modifies this, active, request, cmdBuf
      ensures Valid()
      ensures s.Ok? <==> (old(state).Active? || old(state).Busy?) && writes
      ensures s.Ok? ==>
        state.Exiting? && active == request && log == old(log) + [Wrote(CommandText(0x434E, [], NoValue).value)]
      ensures s.Ok? && old(active) != null && old(active) != request ==> old(active).Completed(Aborted, Empty)
      ensures !s.Ok? ==> unchanged(this)
      ensures !s.Ok? ==> (active != null ==> unchanged(active)) && (request != null ==> unchanged(request))
    {
      if !state.Active? && !state.Busy? {
        return InvalidState;
      }
      s := WriteCommand(0x434E, [], NoValue, writes);
      if !s.Ok? {
        return;
      }
      FinishRequest(Aborted, Empty);
      if request != null {
        request.Start(0x434E, false, Add(now, toTicks(REPLY_TIMEOUT)));
        active := request;
      }
      state := Exiting;
      stateDeadline := Add(now, toTicks(REPLY_TIMEOUT));
      ResetLine();
      s := Ok;
    }

    /** `xbee_cmd_mode_abandon`. */
    method Abandon(result: Status)
      requires Valid()
      modifies this, active
      ensures Valid() && state.Idle? && active == null && log == old(log) + [Left]
      ensures old(active) != null ==> old(active).Completed(result, Empty)
    {
      FinishRequest(result, Empty);
      state := Idle;
      Note(Left);
      ResetLine();
    }

    /** `xbee_cmd_mode_send_data`: only outside a session, so the guard silence is never broken from here. */
    method SendData(data: seq<Byte>, writes: bool) returns (s: Status)
      requires Valid()
      modifies this`log
      ensures Valid()
      ensures s.Ok? <==> state.Idle? && (data == [] || writes)
      ensures log == if s.Ok? && data != [] then old(log) + [Wrote(data)] else old(log)
    {
      if !state.Idle? {
        return InvalidState;
      }
      if data == [] {
        return Ok;
      }
      if !writes {
        return Failure;
      }
      Note(Wrote(data));
      s := Ok;
    }

    // -------------------------------------------------------------------------
    // Reply lines

    /** A line while a command is in flight: it is kept and counted, and may end the command. */
    method HandleReply(line: Text, t: LineType, now: Tick)
      requires Valid() && state.Busy? && t == Classify(line)
      modifies this`state, this`active, this`sessionDeadline, active
      ensures Valid() && log == old(log)
      ensures old(active).Value() == Replied(old(active.Value()), line) && sessionDeadline == Renewed(now)
      ensures Ending(old(active.multiline), t).Some? ==>
        state.Active? && active == null && old(active).Completed(Ending(old(active.multiline), t).value, t)
      ensures Ending(old(active.multiline), t).None? ==> state.Busy? && active == old(active)
      ensures t.ValueLine? || (t.FsError? && !old(active.multiline)) ==> old(active).value == line
    {
      RefreshSession(now);
      active.Keep(line, t);
      var ending := Ending(active.multiline, t);
      if ending.Some? {
        state := Active;
        FinishRequest(ending.value, t);
      }
    }

    /** `handle_line`. */
    method HandleLine(line: Text, now: Tick, ghost asked: CmdRequest?)
      requires Valid() && Follows(asked)
      modifies this`state, this`active, this`sessionDeadline, this`log, active
      ensures Valid() && Follows(asked)
      ensures View(asked) == Handled(old(View(asked)), line, Renewed(now))
      ensures active == old(active) || active == null
      ensures old(active) != null ==> Accounted(old(active))
      ensures old(state).WaitOk? ==>
        if Classify(line).OkLine? then state.Active? && log == old(log) + [Opened]
        else state.WaitOk? && log == old(log)
      ensures old(state).Exiting? ==>
        if Classify(line).OkLine? then
          state.Idle? && log == old(log) + [Left] && (old(active) != null ==> old(active).Completed(Ok, OkLine))
        else state.Exiting? && log == old(log) && active == old(active)
      ensures !old(state).WaitOk? && !old(state).Exiting? ==> log == old(log)
      ensures !old(state).WaitOk? && !old(state).Exiting? && !old(state).Busy? ==> state == old(state)
    {
      var t := Classify(line);
      if state.WaitOk? {
        if t.OkLine? {
          OpenSession(now);
        }
        return;
      }
      if state.Exiting? {
        if t.OkLine? {
          CloseSession();
        }
        return;
      }
      if state.Busy? {
        HandleReply(line, t, now);
      }
    }

    method OpenSession(now: Tick)
      requires Valid() && state.WaitOk?
      modifies this`state, this`sessionDeadline, this`log
      ensures Valid() && state.Active? && sessionDeadline == Renewed(now) && log == old(log) + [Opened]
    {
      state := Active;
      Note(Opened);
      RefreshSession(now);
    }

    method CloseSession()
      requires Valid() && state.Exiting?
      modifies this`state, this`active, this`log, active
      ensures Valid() && state.Idle? && active == null && log == old(log) + [Left]
      ensures old(active) != null ==>
        old(active).Completed(Ok, OkLine) && old(active).Value() == Ended(old(active.Value()), Ok, OkLine)
    {
      FinishRequest(Ok, OkLine);
      Leave();
    }

    method Leave()
      requires Assembling() && !After(log).Broken? && active == null
      requires cmdBuf.Length == COMMAND_MAX && cmdBuf != lineBuf
      modifies this`state, this`log
      ensures Valid() && state.Idle? && log == old(log) + [Left]
    {
      state := Idle;
      Note(Left);
    }

    /** `feed_byte`: a carriage return hands over the line, unless it was too long for the buffer. */
    method FeedByte(byte: Byte, now: Tick, ghost asked: CmdRequest?)
      requires Valid() && Follows(asked)
      modifies this`state, this`active, this`sessionDeadline, this`log, this`lineLen, this`lineOverflow, this`partial,
               this`handled, lineBuf, active
      ensures Valid() && Follows(asked)
      ensures View(asked) == Fed(old(View(asked)), byte, Renewed(now))
      ensures active == old(active) || active == null
      ensures old(active) != null ==> Accounted(old(active))
    {
      if byte == LF {
        return;
      }
      if byte == CR {
        EndLine(now, asked);
        return;
      }
      Collect(byte);
    }

    method EndLine(now: Tick, ghost asked: CmdRequest?)
      requires Valid() && Follows(asked)
      modifies this`state, this`active, this`sessionDeadline, this`log, this`lineLen, this`lineOverflow, this`partial,
               this`handled, active
      ensures Valid() && Follows(asked)
      ensures View(asked) == Fed(old(View(asked)), CR, Renewed(now))
      ensures active == old(active) || active == null
      ensures old(active) != null ==> Accounted(old(active))
    {
      if lineOverflow {
        ResetLine();
        return;
      }
      TakeLine(lineBuf[..lineLen], now, asked);
      ResetLine();
    }

    /** A line is handled, and known to have been. */
    method TakeLine(line: Text, now: Tick, ghost asked: CmdRequest?)
      requires Valid() && Follows(asked)
      modifies this`state, this`active, this`sessionDeadline, this`log, this`handled, active
      ensures Valid() && Follows(asked)
      ensures View(asked) == Handled(old(View(asked)), line, Renewed(now)).(handled := old(handled) + [line])
      ensures active == old(active) || active == null
      ensures old(active) != null ==> Accounted(old(active))
    {
      HandleLine(line, now, asked);
      handled := handled + [line];
    }

    method Collect(byte: Byte)
      requires Assembling()
      modifies this`lineLen, this`lineOverflow, this`partial, lineBuf
      ensures Assembling() && partial == old(partial) + [byte]
    {
      partial := partial + [byte];
      if lineLen >= LINE_MAX {
        lineOverflow := true;
        return;
      }
      lineBuf[lineLen] := byte;
      lineLen := lineLen + 1;
    }

    // -------------------------------------------------------------------------
    // A pass of the super loop

    /** `process_entry`: the escape characters go out once the guard is over and the line accepts them. */
    method ProcessEntry(now: Tick, writes: bool)
      requires Valid() && state.GuardPre?
      modifies this`state, this`stateDeadline, this`log, this`lineLen, this`lineOverflow, this`partial
      ensures Valid() && active == old(active)
      ensures View(null) == Lapsed(old(View(null)), now, writes, OkDeadline(now))
      ensures if Reached(now, old(stateDeadline)) && writes then
                state.WaitOk? && log == old(log) + [Escaped(now)] && stateDeadline == OkDeadline(now)
              else unchanged(this)
    {
      if !Reached(now, stateDeadline) || !writes {
        return;
      }
      Note(Escaped(now));
      state := WaitOk;
      stateDeadline := Add(now, toTicks(guardMs + OK_MARGIN));
      ResetLine();
    }

    /** What a deadline does in the current state. */
    method CheckDeadlines(now: Tick, writes: bool, ghost asked: CmdRequest?)
      requires Valid() && Follows(asked)
      modifies this`state, this`stateDeadline, this`active, this`log, this`lineLen, this`lineOverflow, this`partial,
               active
      ensures Valid() && Follows(asked)
      ensures View(asked) == Lapsed(old(View(asked)), now, writes, OkDeadline(now))
      ensures active == old(active) || active == null
      ensures old(active) != null ==> Accounted(old(active))
      ensures state.Busy? ==> old(state).Busy? && !Reached(now, active.deadline)
    {
      match state
      case Busy => CheckCommand(now, writes, asked);
      case Exiting => CheckExit(now, writes, asked);
      case Idle =>
      case _ => CheckQuiet(now, writes);
    }

    /** The deadlines of a session, or of the attempt at one, with no command in flight. */
    method CheckQuiet(now: Tick, writes: bool)
      requires Valid() && (state.GuardPre? || state.WaitOk? || state.Active?)
      modifies this`state, this`stateDeadline, this`log, this`lineLen, this`lineOverflow, this`partial
      ensures Valid() && active == null && !state.Busy?
      ensures View(null) == Lapsed(old(View(null)), now, writes, OkDeadline(now))
    {
      match state
      case GuardPre => ProcessEntry(now, writes);
      case WaitOk => CheckDeadline(stateDeadline, now);
      case Active => CheckDeadline(sessionDeadline, now);
    }

    /** An open or opening session without a command ends at its deadline. */
    method CheckDeadline(deadline: Tick, now: Tick)
      requires Valid() && (state.WaitOk? || state.Active?)
      modifies this`state, this`log, this`lineLen, this`lineOverflow, this`partial
      ensures Valid()
      ensures View(null) == if Reached(now, deadline) then GivenUp(old(View(null))) else old(View(null))
    {
      if Reached(now, deadline) {
        GiveUp();
      }
    }

    /** The command in flight ends if it has run out of time. */
    method CheckCommand(now: Tick, writes: bool, ghost asked: CmdRequest?)
      requires Valid() && state.Busy? && active == asked
      modifies this`state, this`active, active
      ensures Valid() && Follows(asked) && (active == asked || active == null)
      ensures View(asked) == Lapsed(old(View(asked)), now, writes, OkDeadline(now))
      ensures asked != null && Accounted(asked)
      ensures state.Busy? ==> active == asked && !Reached(now, active.deadline)
    {
      if Reached(now, active.deadline) {
        var collected, several := active.lines > 0, active.multiline;
        state := Active;
        FinishRequest(if several && collected then Ok else Timeout, Empty);
      }
    }

    /** An exit that the module does not acknowledge in time is given up. */
    method CheckExit(now: Tick, writes: bool, ghost asked: CmdRequest?)
      requires Valid() && state.Exiting? && Follows(asked)
      modifies this`state, this`active, this`log, this`lineLen, this`lineOverflow, this`partial, active
      ensures Valid() && !state.Busy? && Follows(asked) && (active == old(active) || active == null)
      ensures View(asked) == Lapsed(old(View(asked)), now, writes, OkDeadline(now))
      ensures old(active) != null ==> Accounted(old(active))
    {
      if Reached(now, stateDeadline) {
        GiveUpExit();
      }
    }

    /** The module never acknowledged the exit. */
    method GiveUpExit()
      requires Valid() && state.Exiting?
      modifies this`state, this`active, this`log, this`lineLen, this`lineOverflow, this`partial, active
      ensures Valid() && state.Idle? && active == null && partial == [] && log == old(log) + [Left]
      ensures old(active) != null ==> old(active).Value() == Ended(old(active.Value()), Timeout, Empty)
    {
      FinishRequest(Timeout, Empty);
      GiveUp();
    }

    /** The session, or the attempt at one, is over. */
    method GiveUp()
      requires Assembling() && !After(log).Broken? && active == null
      requires cmdBuf.Length == COMMAND_MAX && cmdBuf != lineBuf
      modifies this`state, this`log, this`lineLen, this`lineOverflow, this`partial
      ensures Valid() && state.Idle? && partial == [] && log == old(log) + [Left]
    {
      state := Idle;
      Note(Left);
      ResetLine();
    }

    /**
     `xbee_cmd_mode_process`: outside a session the bytes are radio data and are passed on; inside
     one every line they complete is handled, in order. Then the clock is looked at. A command in
     flight before is still in flight afterwards or has completed exactly once, none starts, none is
     overdue, and what was written keeps the discipline.
     */
    method Process(chunk: seq<Byte>, now: Tick, writes: bool) returns (data: seq<Byte>)
      requires Valid()
      modifies this, lineBuf, active
      ensures Valid() && Follows(old(active))
      ensures data == if old(state).Idle? then chunk else []
      ensures var p := old(View(active));
        View(old(active)) == Lapsed(if p.state.Idle? then p else FedAll(p, chunk, old(Renewed(now))), now, writes,
                                    old(OkDeadline(now)))
      ensures active == old(active) || active == null
      ensures old(active) != null ==> Accounted(old(active))
      ensures state.Busy? ==> !Reached(now, active.deadline)
    {
      data := [];
      ghost var asked, p := active, View(active);
      if state.Idle? {
        data := chunk;
      } else {
        for i := 0 to |chunk|
          invariant Valid() && Follows(asked)
          invariant View(asked) == FedAll(p, chunk[..i], old(Renewed(now)))
          invariant timeoutMs == old(timeoutMs) && guardMs == old(guardMs)
          invariant active == asked || active == null
          invariant asked != null ==> Accounted(asked)
        {
          FedOneMore(p, chunk, i, old(Renewed(now)));
          FeedByte(chunk[i], now, asked);
        }
        assert chunk[..|chunk|] == chunk;
      }
      CheckDeadlines(now, writes, asked);
    }

    /**
     The line has kept its discipline ever since the session object began: nothing was written
     between an entry or the escape characters and the opening or leaving of the session.
     */
    lemma SessionKeepsSilence(i: nat, k: nat) returns (m: nat)
      requires Valid() && i < k < |log|
      requires log[i].Entered? || log[i].Escaped?
      requires log[k].Wrote?
      ensures i < m < k && (log[m].Opened? || log[m].Left?)
    {
      m := SilenceIsKept(log, i, k);
    }

    /** And in true time no escape characters went out before the guard was over. */
    lemma SessionKeepsGuard(k: nat, lastTx: int, now: int)
      requires Valid() && 1 <= k < |log| && log[k].Escaped?
      requires log[k - 1].Entered? ==>
        && log[k - 1].lastTx == At(lastTx) && log[k].now == At(now)
        && -HALF <= now - (lastTx + log[k - 1].window) < HALF
      ensures log[k - 1].Entered? && now >= lastTx + log[k - 1].window
    {
      EscapeFollowsSilence(log, k);
      GuardIsKept(log, k, lastTx, now);
    }
  }
}

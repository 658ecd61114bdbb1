/**
 What a read gives the application: the facade copies the answer of whichever transport carried
 the request. The two ways are compared with what the module holds, and so with each other.
 */
module FacadeAnswers {
  import opened Base
  import opened Ticks
  import opened AtTable
  import opened HexText
  import opened FrameCodec
  import FrameModule
  import FrameWire
  import Api = ApiAnswers
  import Cmd = CmdReplies
  import ProvisionEngine
  import ProvisionModule

  datatype Result =
    | Ok
    | UnknownCommand
    | BadParameter
    | Failure
    | TooLong
    | FromFrames(reported: Api.Status)
    | FromCommand(ended: Cmd.Status)

  /** What a completed request carries. */
  datatype Outcome = Outcome(result: Result, status: Byte, value: seq<Byte>)

  const STATUS_OK: Byte := 0
  const STATUS_ERROR: Byte := 1
  const STATUS_INVALID_COMMAND: Byte := 2
  const STATUS_INVALID_PARAMETER: Byte := 3

  /** `status_from_at`. */
  function FromStatus(status: Byte): (r: Result)
  {
    if status == STATUS_OK then Ok
    else if status == STATUS_INVALID_COMMAND then UnknownCommand
    else if status == STATUS_INVALID_PARAMETER then BadParameter
    else Failure
  }

  /** A request for an AT command that has completed well holds an AT response. */
  predicate HoldsResponse(h: Api.Held)
  {
    (h.state.Done? || h.state.Failed?) && h.result.Ok? ==> h.response.Some? && h.response.value.AtResponse?
  }

  /** The outcome of a request that travelled as a frame; nothing while it is in flight. */
  function ByFrame(h: Api.Held): (o: Option<Outcome>)
    requires HoldsResponse(h)
  {
    if !h.state.Done? && !h.state.Failed? then None
    else if !h.result.Ok? then Some(Outcome(FromFrames(h.result), STATUS_OK, []))
    else
      var AtResponse(_, _, status, data) := h.response.value;
      if |data| > VALUE_MAX then Some(Outcome(TooLong, status, []))
      else Some(Outcome(FromStatus(status), status, data))
  }

  predicate IsText(entry: Option<Entry>)
  {
    entry.Some? && (entry.value.kind.Text? || entry.value.kind.Subcommand?)
  }

  /** The outcome of a request that travelled as a command. */
  function ByLine(entry: Option<Entry>, a: Cmd.Asked): (o: Option<Outcome>)
  {
    if !a.state.Done? && !a.state.Failed? then None
    else if !a.result.Ok? then
      Some(Outcome(FromCommand(a.result), if a.reply.ErrorLine? then STATUS_ERROR else STATUS_OK, []))
    else if !a.reply.ValueLine? then Some(Outcome(Ok, STATUS_OK, []))
    else if IsText(entry) then
      Some(if |a.value| > VALUE_MAX then Outcome(TooLong, STATUS_OK, []) else Outcome(Ok, STATUS_OK, a.value))
    else match CommandBytes(a)
      case Value(bytes) => Some(Outcome(Ok, STATUS_OK, bytes))
      case _ => Some(Outcome(BadParameter, STATUS_OK, []))
  }

  /** `xbee_cmd_mode_value_bytes`. */
  function CommandBytes(a: Cmd.Asked): (d: Decoded)
  {
    if !a.state.Done? || a.value == [] then NotHex else DecodeHex(a.value, VALUE_MAX)
  }

  // ---------------------------------------------------------------------------
  // Reading over frames

  /** The module's response to a read, arriving whole at a parser with no escape pending, is what the read gives. */
  lemma ResponseIsRead(t: Api.Table, i: nat, p: FrameWire.Parser, command: Word16, status: Byte, value: seq<Byte>)
    requires Api.Named(t) && i < |t| && t[i].Some? && t[i].value.expectType == 0x88 && t[i].value.id != 0
    requires t[i].value.state.Pending? && !t[i].value.multi
    requires p.escaped && !p.escapeNext && |value| + 5 <= p.cap && |value| <= VALUE_MAX
    ensures var data := FrameModule.ModuleData(AtResponse(t[i].value.id, command, status, value));
      var r := Api.HandledAll(t, Api.FramesIn(p, FrameWire.Wire(true, data)))[i];
      && r.Some? && HoldsResponse(r.value)
      && ByFrame(r.value) == Some(Outcome(FromStatus(status), status, value))
  {
    var f := AtResponse(t[i].value.id, command, status, value);
    FrameModule.DecodeReadsTheModule(f);
    Api.AnswerOnTheLineCompletes(t, i, p, FrameModule.ModuleData(f));
  }

  // ---------------------------------------------------------------------------
  // Reading over Command mode

  /** How the module reports a value it holds: a text as it stands, anything else as digits. */
  function Reply(entry: Option<Entry>, value: seq<Byte>): (line: Text)
  {
    if IsText(entry) then value else Printed(value)
  }

  predicate OneLine(text: Text) { |text| <= Cmd.LINE_MAX && Cmd.CR !in text && Cmd.LF !in text }

  lemma {:induction false} PlainTextCollects(text: Text)
    requires Cmd.CR !in text && Cmd.LF !in text
    ensures Cmd.Assemble([], text) == Cmd.Assembled([], text)
  {
    if text == [] {
    } else {
      PlainTextCollects(text[..|text| - 1]);
      assert text[|text| - 1] in text;
    }
  }

  lemma OneLineArrives(text: Text)
    requires OneLine(text)
    ensures Cmd.Assemble([], text + [Cmd.CR]) == Cmd.Assembled([text], [])
  {
    assert (text + [Cmd.CR])[..|text|] == text;
    PlainTextCollects(text);
  }

  lemma OneLineIsHandled(p: Cmd.Progress, text: Text, renewed: Tick)
    ensures Cmd.HandledAll(p, [text], renewed) == Cmd.Handled(p, text, renewed)
  {
    assert [text][..0] == [];
  }

  /** A reply line that arrives in an open session goes to the command in flight. */
  lemma LineReachesTheCommand(p: Cmd.Progress, text: Text, renewed: Tick)
    requires p.state.Busy? && p.asked.Some? && p.partial == [] && OneLine(text)
    ensures Cmd.FedAll(p, text + [Cmd.CR], renewed).asked == Some(Cmd.Replied(p.asked.value, text))
  {
    OneLineArrives(text);
    OneLineIsHandled(p, text, renewed);
    Cmd.BytesAreLines(p, text + [Cmd.CR], renewed);
  }

  /** What a read gives once the module's reply has arrived, byte by byte, at an open session. */
  function ReadOverLine(p: Cmd.Progress, entry: Option<Entry>, value: seq<Byte>, renewed: Tick): (o: Option<Outcome>)
  {
    match Cmd.FedAll(p, Reply(entry, value) + [Cmd.CR], renewed).asked
    case None => None
    case Some(a) => ByLine(entry, a)
  }

  /** A value that is digits on the line. */
  predicate InDigits(entry: Entry, value: seq<Byte>)
  {
    (IsNumeric(entry.kind) && |value| <= 8) || (entry.kind.Bytes? && |value| <= VALUE_MAX)
  }

  /** Its reply is read as a value the comparison accepts as the same. */
  lemma DigitsAreRead(entry: Entry, a: Cmd.Asked, value: seq<Byte>)
    requires InDigits(entry, value) && a.state.Pending? && !a.multiline
    ensures var o := ByLine(Some(entry), Cmd.Replied(a, Printed(value)));
      o.Some? && o.value.result.Ok? && ValuesEqual(Some(entry), o.value.value, value)
  {
    RepliesAreFaithful(entry, value, VALUE_MAX);
  }

  /**
   A text is read as it stands exactly when it does not look like another kind of line. A text OK is
   read as empty, an empty one is not an answer yet, and the others are read as failures.
   */
  lemma TextIsReadExactly(entry: Entry, a: Cmd.Asked, value: seq<Byte>)
    requires IsText(Some(entry)) && |value| <= VALUE_MAX && a.state.Pending? && !a.multiline
    ensures var o := ByLine(Some(entry), Cmd.Replied(a, value));
      && (o == Some(Outcome(Ok, STATUS_OK, value)) <==>
            value != [] && value != OK_TEXT && value != ERROR_TEXT && !FileSystemError(value))
      && (value == OK_TEXT ==> o == Some(Outcome(Ok, STATUS_OK, [])))
      && (value == [] ==> o == None)
      && (value == ERROR_TEXT || FileSystemError(value) ==> o.Some? && !o.value.result.Ok?)
  {
    TextComesBackExactly(value);
  }

  /** The value can be read in both ways. */
  ghost predicate Readable(entry: Entry, value: seq<Byte>)
  {
    || InDigits(entry, value)
    || (IsText(Some(entry)) && |value| <= VALUE_MAX && Classify(value).ValueLine? && OneLine(value))
  }

  /** Whichever transport carries a read, from the bytes on the line to the application, it gives the same value. */
  lemma TransportsAgree(entry: Entry, value: seq<Byte>, command: Word16, t: Api.Table, i: nat, q: FrameWire.Parser,
                        p: Cmd.Progress, renewed: Tick)
    requires Readable(entry, value)
    requires Api.Named(t) && i < |t| && t[i].Some? && t[i].value.expectType == 0x88 && t[i].value.id != 0
    requires t[i].value.state.Pending? && !t[i].value.multi
    requires q.escaped && !q.escapeNext && |value| + 5 <= q.cap
    requires p.state.Busy? && p.asked.Some? && p.asked.value.state.Pending? && p.partial == []
    requires !p.asked.value.multiline
    ensures var data := FrameModule.ModuleData(AtResponse(t[i].value.id, command, STATUS_OK, value));
      var h := Api.HandledAll(t, Api.FramesIn(q, FrameWire.Wire(true, data)))[i];
      var o := ReadOverLine(p, Some(entry), value, renewed);
      && h.Some? && HoldsResponse(h.value) && ByFrame(h.value) == Some(Outcome(Ok, STATUS_OK, value))
      && o.Some? && o.value.result.Ok? && ValuesEqual(Some(entry), o.value.value, value)
  {
    ResponseIsRead(t, i, q, command, STATUS_OK, value);
    LineIsRead(p, entry, value, renewed);
  }

  /** Over Command mode a value is read back as the comparison's equal. */
  lemma LineIsRead(p: Cmd.Progress, entry: Entry, value: seq<Byte>, renewed: Tick)
    requires Readable(entry, value) && p.state.Busy? && p.partial == []
    requires p.asked.Some? && p.asked.value.state.Pending? && !p.asked.value.multiline
    ensures var o := ReadOverLine(p, Some(entry), value, renewed);
      o.Some? && o.value.result.Ok? && ValuesEqual(Some(entry), o.value.value, value)
  {
    ReplyIsOneLine(entry, value);
    LineReachesTheCommand(p, Reply(Some(entry), value), renewed);
    if InDigits(entry, value) {
      DigitsAreRead(entry, p.asked.value, value);
    } else {
      TextIsReadExactly(entry, p.asked.value, value);
      TextComesBackExactly(value);
    }
  }

  lemma ReplyIsOneLine(entry: Entry, value: seq<Byte>)
    requires Readable(entry, value)
    ensures OneLine(Reply(Some(entry), value))
  {
    if InDigits(entry, value) {
      RepliesAreFaithful(entry, value, VALUE_MAX);
      PrintedIsDigits(value);
    }
  }

  // ---------------------------------------------------------------------------
  // The honest module

  /**
   The honest module of the end-to-end results exists on a Command mode line: what a read reports of
   the value held is honest unless that value is the text OK, which is reported as empty.
   */
  lemma HonestUnlessOk(cfg: ProvisionEngine.Config, e: ProvisionEngine.Engine, m: ProvisionModule.Module,
                       p: Cmd.Progress, renewed: Tick)
    requires ProvisionEngine.InRange(cfg, e) && (e.phase.Audit? || e.phase.Review?)
    requires p.state.Busy? && p.asked.Some? && p.asked.value.state.Pending? && p.partial == []
    requires !p.asked.value.multiline
    requires var entry, value := ProvisionEngine.EntryOf(cfg, e.index),
                                 ProvisionModule.Held(m.working, cfg.params[e.index].command);
      entry.Some? && (InDigits(entry.value, value) || (IsText(entry) && |value| <= VALUE_MAX && OneLine(value)))
    ensures var entry, value := ProvisionEngine.EntryOf(cfg, e.index),
                                ProvisionModule.Held(m.working, cfg.params[e.index].command);
      var o := ReadOverLine(p, entry, value, renewed);
      o.Some? ==>
        (ProvisionModule.HonestAnswer(cfg, e, m, ProvisionEngine.Answer(o.value.result.Ok?, o.value.value)) <==>
          !(IsText(entry) && value == OK_TEXT))
  {
    var entry := ProvisionEngine.EntryOf(cfg, e.index);
    var value := ProvisionModule.Held(m.working, cfg.params[e.index].command);
    TrueUnlessOk(p, entry.value, value, renewed);
  }

  /** What a read over Command mode reports is the value held, unless that is the text OK. */
  lemma TrueUnlessOk(p: Cmd.Progress, entry: Entry, value: seq<Byte>, renewed: Tick)
    requires p.state.Busy? && p.partial == []
    requires p.asked.Some? && p.asked.value.state.Pending? && !p.asked.value.multiline
    requires InDigits(entry, value) || (IsText(Some(entry)) && |value| <= VALUE_MAX && OneLine(value))
    ensures var o := ReadOverLine(p, Some(entry), value, renewed);
      o.Some? ==>
        ((o.value.result.Ok? ==> ValuesEqual(Some(entry), o.value.value, value)) <==>
          !(IsText(Some(entry)) && value == OK_TEXT))
  {
    if InDigits(entry, value) {
      LineIsRead(p, entry, value, renewed);
    } else {
      LineReachesTheCommand(p, value, renewed);
      TextIsReadExactly(entry, p.asked.value, value);
    }
  }

  // ---------------------------------------------------------------------------
  // The copying

  /** The answer part of the application's request. */
  class Request {
    const value: array<Byte>
    var valueLen: nat
    var status: Byte
    var result: Option<Result>  // none while it is in flight

    ghost predicate Valid()
      reads this
    {
      value.Length == VALUE_MAX && valueLen <= VALUE_MAX
    }

    ghost predicate InFlight()
      reads this
    {
      Valid() && result.None? && valueLen == 0 && status == STATUS_OK
    }

    ghost predicate Carries(o: Outcome)
      reads this, value
    {
      Valid() && result == Some(o.result) && status == o.status && value[..valueLen] == o.value
    }

    constructor ()
      ensures InFlight() && fresh(value)
    {
      value := new Byte[VALUE_MAX](_ => 0);
      valueLen, status, result := 0, STATUS_OK, None;
    }

    /** `store_value`: refused rather than truncated. */
    method StoreValue(bytes: seq<Byte>) returns (stored: bool)
      requires Valid()
      modifies this`valueLen, value
      ensures Valid() && (stored <==> |bytes| <= VALUE_MAX)
      ensures if stored then value[..valueLen] == bytes else valueLen == old(valueLen) && value[..] == old(value[..])
    {
      if |bytes| > VALUE_MAX {
        return false;
      }
      for i := 0 to |bytes|
        invariant value[..i] == bytes[..i]
      {
        value[i] := bytes[i];
      }
      valueLen := |bytes|;
      stored := true;
    }

    /** The part of `poll_request` for a request that travelled as a frame. */
    method PollFrame(h: Api.Held)
      requires InFlight() && HoldsResponse(h)
      modifies this`valueLen, this`status, this`result, value
      ensures match ByFrame(h) case None => InFlight() case Some(o) => Carries(o)
    {
      if !h.state.Done? && !h.state.Failed? {
        return;
      }
      if !h.result.Ok? {
        result := Some(FromFrames(h.result));
        return;
      }
      status := h.response.value.status;
      var stored := StoreValue(h.response.value.data);
      result := Some(if stored then FromStatus(status) else TooLong);
    }

    /** And for one that travelled as a command. */
    method PollLine(entry: Option<Entry>, a: Cmd.Asked)
      requires InFlight()
      modifies this`valueLen, this`status, this`result, value
      ensures match ByLine(entry, a) case None => InFlight() case Some(o) => Carries(o)
    {
      if !a.state.Done? && !a.state.Failed? {
        return;
      }
      if !a.result.Ok? {
        status, result := if a.reply.ErrorLine? then STATUS_ERROR else STATUS_OK, Some(FromCommand(a.result));
        return;
      }
      status, result := STATUS_OK, Some(Ok);
      if a.reply.ValueLine? {
        var copied := CopyLine(entry, a);
        result := Some(copied);
      }
    }

    method CopyLine(entry: Option<Entry>, a: Cmd.Asked) returns (r: Result)
      requires Valid() && valueLen == 0 && a.reply.ValueLine? && a.result.Ok? && (a.state.Done? || a.state.Failed?)
      modifies this`valueLen, value
      ensures Valid() && ByLine(entry, a) == Some(Outcome(r, STATUS_OK, value[..valueLen]))
    {
      if entry.Some? && (entry.value.kind.Text? || entry.value.kind.Subcommand?) {
        var stored := StoreValue(a.value);
        return if stored then Ok else TooLong;
      }
      if !a.state.Done? || a.value == [] {
        return BadParameter;
      }
      var d := ReadHexBytes(a.value, value, VALUE_MAX);
      if d.Value? {
        valueLen := |d.bytes|;
        return Ok;
      }
      r := BadParameter;
    }
  }
}

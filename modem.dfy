/** The SIM7600X controller object: it owns the serial line, runs command exchanges on it,
    and caches the call, position and network state the replies report. Listener callbacks
    are recorded as an event log. */
module Modem {
  import opened Text
  import opened AtReplies
  import opened SmsReplies
  import opened GpsReplies
  import opened Transport
  import opened ModemLogic

  /** Everything the controller caches, as one value. */
  datatype State = State(call: Call, gps: GpsData, network: Network, events: seq<Event>)

  /** The outcome of `run_self_test`. */
  datatype SelfTest = SelfTest(atResponse: bool, simCard: bool, network: bool, signal: bool, gpsModule: bool)

  /** The outcome of `get_module_info`. */
  datatype ModuleInfo = ModuleInfo(manufacturer: string, model: string, revision: string, imei: string)

  /** The serial line after the given commands were exchanged on it, one after another. */
  twostate predicate Exchanged(p: SerialPort, commands: seq<string>)
    reads p
  {
    p.consumed == ReadsAfter(p.isOpen, old(p.consumed), commands)
    && p.written == WrittenAfter(p.isOpen, old(p.written), commands)
  }

  // The commands, one name each.
  const AnswerCommand: string := "ATA"
  const HangupCommand: string := "ATH"
  const TextModeCommand: string := "AT+CMGF=1"
  const DeleteAllCommand: string := "AT+CMGD=1,4"
  const GpsStatusQuery: string := "AT+CGPS?"
  const GpsOnCommand: string := "AT+CGPS=1,1"
  const GpsOffCommand: string := "AT+CGPS=0"
  const GnssStatusQuery: string := "AT+CGPSSTATUS?"
  const NmeaConfigCommand: string := "AT+CGPSINFOCFG=1,31"
  const PositionQuery: string := "AT+CGPSINFO"
  const GgaQuery: string := "AT+CGPSINF=32"
  const CregQuery: string := "AT+CREG?"
  const CsqQuery: string := "AT+CSQ"
  const CopsQuery: string := "AT+COPS?"
  const DeregisterCommand: string := "AT+COPS=2"
  const AutoRegisterCommand: string := "AT+COPS=0"
  const ImeiQuery: string := "AT+GSN"
  const PinQuery: string := "AT+CPIN?"
  const ManufacturerQuery: string := "AT+CGMI"
  const ModelQuery: string := "AT+CGMM"
  const RevisionQuery: string := "AT+CGMR"
  const AttentionCommand: string := "AT"

  function AudioCommand(code: nat): string { "AT+CSDVC=" + NatToString(code) }
  function VolumeCommand(level: int): string { "AT+CLVL=" + IntToString(Clamp(level, 0, 5)) }
  function MicGainCommand(gain: int): string { "AT+CMIC=0," + IntToString(Clamp(gain, 0, 15)) }
  function MuteCommand(mute: bool): string { "AT+CMUT=" + (if mute then "1" else "0") }
  function DtmfCommand(tone: string): string { "AT+VTS=" + tone }
  function ReadCommand(index: int): string { "AT+CMGR=" + IntToString(index) }
  function ListCommand(status: string): string { "AT+CMGL=\"" + status + "\"" }
  function DeleteCommand(index: int): string { "AT+CMGD=" + IntToString(index) }
  function ModeCommand(mode: string): string { "AT+CNMP=" + NetworkModeCode(mode) }

  /** An identification reply with every `OK` removed, then stripped. */
  function InfoField(reply: string): string
  {
    Strip(RemoveAll(reply, "OK"))
  }

  /** A reply that ends in the result code and has no other `OK` gives its text, stripped. */
  lemma InfoFieldOfReply(text: string)
    requires !Contains(text + "O", "OK")
    ensures InfoField(text + "OK") == Strip(text)
  {
    assert "OK"[..1] == "O";
    RemoveAllTrailing(text, "OK");
  }

  /** The commands of a network status refresh, in order. */
  const NetworkQueries: seq<string> := [CregQuery, CsqQuery, CopsQuery]

  /** The commands of a self-test, in order: the attention check, the SIM check, the
      network refresh and the GNSS power query. */
  const SelfTestCommands: seq<string> := [AttentionCommand, PinQuery] + NetworkQueries + [GpsStatusQuery]

  /** The four steps of a self-test, one after another, are one run of its commands. */
  lemma SelfTestExchanges(isOpen: bool, written: seq<string>, consumed: nat)
    ensures WrittenAfter(isOpen, WrittenAfter(isOpen, WrittenAfter(isOpen, WrittenAfter(isOpen, written,
              [AttentionCommand]), [PinQuery]), NetworkQueries), [GpsStatusQuery])
         == WrittenAfter(isOpen, written, SelfTestCommands)
    ensures ReadsAfter(isOpen, ReadsAfter(isOpen, ReadsAfter(isOpen, ReadsAfter(isOpen, consumed,
              [AttentionCommand]), [PinQuery]), NetworkQueries), [GpsStatusQuery])
         == ReadsAfter(isOpen, consumed, SelfTestCommands)
  {
    ExchangesChain(isOpen, written, consumed, [AttentionCommand], [PinQuery]);
    ExchangesChain(isOpen, written, consumed, [AttentionCommand, PinQuery], NetworkQueries);
    ExchangesChain(isOpen, written, consumed, [AttentionCommand, PinQuery] + NetworkQueries, [GpsStatusQuery]);
    assert [AttentionCommand] + [PinQuery] == [AttentionCommand, PinQuery];
  }

  /** The commands of the satellite refinement step, in order. */
  const RefineCommands: seq<string> := [GnssStatusQuery, NmeaConfigCommand, PositionQuery, GgaQuery]

  /** The commands of a position query: the refinement step runs unless the reply carries
      no report at all. */
  function PositionCommands(reply: string): seq<string>
  {
    [PositionQuery] + (if ClassifyCgpsinfo(reply).NoReport? then [] else RefineCommands)
  }

  function DialCommand(number: string): string
  {
    "ATD" + KeepOnly(number, DialChars) + ";"
  }

  function SubmitCommand(number: string): string
  {
    "AT+CMGS=\"" + KeepOnly(number, SmsChars) + "\""
  }

  class Sim7600x {
    const serial: SerialPort
    var callState: CallState
    var callNumber: string
    var gps: GpsData
    var signalStrength: int
    var networkRegistered: bool
    var operatorName: string
    var events: seq<Event>

    ghost function Snapshot(): State
      reads this
    {
      State(Call(callState, callNumber), gps, Network(networkRegistered, signalStrength, operatorName), events)
    }

    /** The signal is a percentage and the position record is sane. */
    ghost predicate Valid()
      reads this
    {
      0 <= signalStrength <= 100 && SaneGps(gps)
    }

    /** The trimmed reply of the exchange whose read loop is the `k`-th on this line, for
        each poll budget: a view of `Reply` fixed with the line. */
    ghost const replies: (nat, nat) -> string

    /** The replies are those of this line; on a line that is not open they do not depend
        on the position. */
    ghost predicate Linked()
    {
      (forall k: nat, budget: nat {:trigger Reply(serial.isOpen, serial.arrivals, k, budget)} ::
         ReplyAt(k, budget) == Reply(serial.isOpen, serial.arrivals, k, budget))
      && (!serial.isOpen ==>
            forall j: nat, k: nat, budget: nat {:trigger ReplyAt(j, budget), ReplyAt(k, budget)} ::
              ReplyAt(j, budget) == ReplyAt(k, budget))
    }

    /** The reply of the exchange whose read loop is the `k`-th on this line. */
    ghost function ReplyAt(k: nat, budget: nat): string
    {
      replies(k, budget)
    }

    constructor (serial: SerialPort)
      ensures this.serial == serial && Valid() && Linked()
      ensures Snapshot() == State(Call(Idle, ""), NoPosition, Network(false, 0, ""), [])
    {
      this.serial := serial;
      replies := (k: nat, budget: nat) => Reply(serial.isOpen, serial.arrivals, k, budget);
      callState := Idle;
      callNumber := "";
      gps := NoPosition;
      signalStrength := 0;
      networkRegistered := false;
      operatorName := "";
      events := [];
    }

    // ------------------------------------------------------------ command exchange

    /** `_send_at_command`: on an open line, write the command and a line end, read until
        a result code, a prompt or the budget, and return the trimmed text; on a line that
        is not open, return the not-connected reply without touching the line. */
    method SendAtCommand(command: string, budget: nat) returns (reply: string)
      requires Linked()
      modifies serial
      ensures reply == ReplyAt(old(serial.consumed), budget)
      ensures Exchanged(serial, [command])
    {
      if !serial.isOpen {
        assert NotConnected == Reply(serial.isOpen, serial.arrivals, serial.consumed, budget);
        return NotConnected;
      }
      serial.Write(command + CRLF);
      var script := serial.NextArrivals();
      var text := ReadUntil(ResultCode, script, budget);
      reply := Strip(text);
      assert reply == Reply(serial.isOpen, serial.arrivals, old(serial.consumed), budget);
      assert CommandLines([command]) == [command + CRLF];
    }

    // ------------------------------------------------------------ audio

    method SetAudioDevice(device: string) returns (ok: bool)
      requires Linked()
      modifies serial
      ensures AudioDeviceCode(device).None? ==> !ok && Exchanged(serial, [])
      ensures AudioDeviceCode(device).Some? ==>
        var command := AudioCommand(AudioDeviceCode(device).value);
        ok == Contains(ReplyAt(old(serial.consumed), Polls2s), "OK")
        && Exchanged(serial, [command])
    {
      var code := AudioDeviceCode(device);
      if code.None? {
        return false;
      }
      var reply := SendAtCommand(AudioCommand(code.value), Polls2s);
      ok := Contains(reply, "OK");
    }

    /** `set_volume`: the level is clamped to 0..5 before it is sent. */
    method SetVolume(level: int) returns (ok: bool)
      requires Linked()
      modifies serial
      ensures ok == Contains(ReplyAt(old(serial.consumed), Polls2s), "OK")
      ensures Exchanged(serial, [VolumeCommand(level)])
    {
      var reply := SendAtCommand(VolumeCommand(level), Polls2s);
      ok := Contains(reply, "OK");
    }

    /** `set_mic_gain`: the gain is clamped to 0..15 before it is sent. */
    method SetMicGain(gain: int) returns (ok: bool)
      requires Linked()
      modifies serial
      ensures ok == Contains(ReplyAt(old(serial.consumed), Polls2s), "OK")
      ensures Exchanged(serial, [MicGainCommand(gain)])
    {
      var reply := SendAtCommand(MicGainCommand(gain), Polls2s);
      ok := Contains(reply, "OK");
    }

    method MuteMic(mute: bool) returns (ok: bool)
      requires Linked()
      modifies serial
      ensures ok == Contains(ReplyAt(old(serial.consumed), Polls2s), "OK")
      ensures Exchanged(serial, [MuteCommand(mute)])
    {
      var reply := SendAtCommand(MuteCommand(mute), Polls2s);
      ok := Contains(reply, "OK");
    }

    // ------------------------------------------------------------ calls

    /** `dial`: the number keeps only digits, `+`, `*` and `#`; a reply with `OK` or
        `CONNECT` starts dialling that number, any other reply changes nothing. */
    method Dial(number: string) returns (ok: bool)
      requires Linked()
      modifies this, serial
      ensures ok == (Contains(ReplyAt(old(serial.consumed), Polls10s), "OK")
                     || Contains(ReplyAt(old(serial.consumed), Polls10s), "CONNECT"))
      ensures ok ==> Snapshot() == old(Snapshot()).(call := Call(Dialing, KeepOnly(number, DialChars)))
      ensures !ok ==> Snapshot() == old(Snapshot())
      ensures Exchanged(serial, [DialCommand(number)])
    {
      var clean := KeepOnly(number, DialChars);
      var reply := SendAtCommand(DialCommand(number), Polls10s);
      if Contains(reply, "OK") || Contains(reply, "CONNECT") {
        callState := Dialing;
        callNumber := clean;
        ok := true;
      } else {
        ok := false;
      }
    }

    /** `answer`: a reply with `OK` or `CONNECT` makes the call active whatever its state
        was; the number is kept. */
    method Answer() returns (ok: bool)
      requires Linked()
      modifies this, serial
      ensures ok == (Contains(ReplyAt(old(serial.consumed), Polls5s), "OK")
                     || Contains(ReplyAt(old(serial.consumed), Polls5s), "CONNECT"))
      ensures ok ==> Snapshot() == old(Snapshot()).(call := Call(Active, old(callNumber)))
      ensures !ok ==> Snapshot() == old(Snapshot())
      ensures Exchanged(serial, [AnswerCommand])
    {
      var reply := SendAtCommand(AnswerCommand, Polls5s);
      if Contains(reply, "OK") || Contains(reply, "CONNECT") {
        callState := Active;
        ok := true;
      } else {
        ok := false;
      }
    }

    /** `hangup`: only a reply with `OK` ends the call, from any state. */
    method Hangup() returns (ok: bool)
      requires Linked()
      modifies this, serial
      ensures ok == Contains(ReplyAt(old(serial.consumed), Polls5s), "OK")
      ensures ok ==> Snapshot() == old(Snapshot()).(call := Call(Idle, ""))
      ensures !ok ==> Snapshot() == old(Snapshot())
      ensures Exchanged(serial, [HangupCommand])
    {
      var reply := SendAtCommand(HangupCommand, Polls5s);
      if Contains(reply, "OK") {
        callState := Idle;
        callNumber := "";
        ok := true;
      } else {
        ok := false;
      }
    }

    method SendDtmf(tone: string) returns (ok: bool)
      requires Linked()
      modifies serial
      ensures ok == Contains(ReplyAt(old(serial.consumed), Polls2s), "OK")
      ensures Exchanged(serial, [DtmfCommand(tone)])
    {
      var reply := SendAtCommand(DtmfCommand(tone), Polls2s);
      ok := Contains(reply, "OK");
    }

    /** One stripped line of unsolicited output: a caller identification makes the call
        incoming, a call end makes it idle, and a new-message indication yields its index. */
    method HandleLine(line: string) returns (announced: seq<nat>)
      modifies this`callState, this`callNumber, this`events
      ensures Call(callState, callNumber) == Apply(Call(old(callState), old(callNumber)), Classify(line))
      ensures events == old(events) + EventOf(Classify(line))
      ensures announced == AnnouncedIndex(Classify(line))
    {
      announced := [];
      if Contains(line, "+CLIP:") {
        var number := ParseClip(line);
        if number.Some? {
          assert Classify(line) == Ring(number.value);
          callState := Incoming;
          callNumber := number.value;
          events := events + [IncomingCall(number.value)];
        }
      } else if Contains(line, "NO CARRIER") || Contains(line, "BUSY") {
        assert Classify(line) == Ended;
        callState := Idle;
        callNumber := "";
        events := events + [CallEnded];
      } else if Contains(line, "+CMTI:") {
        var index := ParseCmti(line);
        if index.Some? {
          announced := [index.value];
        }
      }
    }

    /** `_process_unsolicited`: each stripped line of the stripped block is handled in turn;
        call notices update the call and raise their events, and new-message indications
        yield the storage indices to read, in order. */
    method ProcessUnsolicited(data: string) returns (toRead: seq<nat>)
      modifies this`callState, this`callNumber, this`events
      ensures Call(callState, callNumber) == ApplyAll(Call(old(callState), old(callNumber)), Notices(data))
      ensures events == old(events) + NoticeEvents(Notices(data))
      ensures toRead == NewMessages(Notices(data))
    {
      var lines := Split(Strip(data), '\n');
      toRead := HandleLines(lines);
    }

    /** The loop of `_process_unsolicited` over the lines of a block. */
    method HandleLines(lines: seq<string>) returns (toRead: seq<nat>)
      modifies this`callState, this`callNumber, this`events
      ensures Call(callState, callNumber) == ApplyAll(Call(old(callState), old(callNumber)), LineNotices(lines))
      ensures events == old(events) + NoticeEvents(LineNotices(lines))
      ensures toRead == NewMessages(LineNotices(lines))
    {
      ghost var ns := LineNotices(lines);
      ghost var call0 := Call(callState, callNumber);
      toRead := [];
      var i := 0;
      while i < |lines|
        invariant 0 <= i <= |lines|
        invariant Call(callState, callNumber) == ApplyAll(call0, ns[..i])
        invariant events == old(events) + NoticeEvents(ns[..i])
        invariant toRead == NewMessages(ns[..i])
      {
        ghost var before := events;
        var announced := HandleLine(Strip(lines[i]));
        toRead := toRead + announced;
        NoticeStep(call0, ns, i);
        assert events == before + EventOf(ns[i]);
        AppendAssoc(old(events), NoticeEvents(ns[..i]), EventOf(ns[i]));
        i := i + 1;
      }
      assert ns[..|lines|] == ns;
    }

    // ------------------------------------------------------------ messages

    /** The body of a message after the `>` prompt: the text and Ctrl-Z are written, and
        success is a `+CMGS:` report in what the modem sends next. */
    method SubmitBody(message: string) returns (ok: bool)
      modifies serial
      ensures ok == Contains(ReadText(Submission, ScriptAt(serial.arrivals, old(serial.consumed)), SubmissionPolls), "+CMGS:")
      ensures serial.written == old(serial.written) + [message, [CtrlZ]]
      ensures serial.consumed == old(serial.consumed) + 1
    {
      serial.Write(message);
      serial.Write([CtrlZ]);
      var script := serial.NextArrivals();
      var text := ReadUntil(Submission, script, SubmissionPolls);
      ok := Contains(text, "+CMGS:");
    }

    /** `send_sms`: select text mode, start the submission to the number (digits and `+`
        only), and write the body and Ctrl-Z only once the `>` prompt came back; success
        is a `+CMGS:` report in the text that follows. */
    method SendSms(number: string, message: string) returns (ok: bool)
      requires Linked()
      modifies serial
      ensures Contains(ReplyAt(old(serial.consumed) + 1, Polls5s), ">") ==>
        serial.isOpen
        && ok == Contains(ReadText(Submission, ScriptAt(serial.arrivals, old(serial.consumed) + 2), SubmissionPolls), "+CMGS:")
        && serial.written == old(serial.written) + CommandLines([TextModeCommand, SubmitCommand(number)]) + [message, [CtrlZ]]
        && serial.consumed == old(serial.consumed) + 3
      ensures !Contains(ReplyAt(old(serial.consumed) + 1, Polls5s), ">") ==>
        !ok && Exchanged(serial, [TextModeCommand, SubmitCommand(number)])
    {
      ghost var o, w, c := serial.isOpen, serial.written, serial.consumed;
      var _ := SendAtCommand(TextModeCommand, Polls2s);
      ghost var c1 := serial.consumed;
      var reply := SendAtCommand(SubmitCommand(number), Polls5s);
      SameReply(c1, c + 1, Polls5s);
      TwoExchanges(o, w, c, TextModeCommand, SubmitCommand(number));
      if Contains(reply, ">") {
        NotConnectedReply();
        assert reply == Reply(serial.isOpen, serial.arrivals, c1, Polls5s);
        assert o && serial.consumed == c + 2;
        ok := SubmitBody(message);
      } else {
        ok := false;
      }
    }

    /** `read_sms`: the message at `index` as the read reply gives it, if it matches. */
    method ReadSms(index: int) returns (m: Option<SmsMessage>)
      requires Linked()
      modifies serial
      ensures m == ParseCmgr(ReplyAt(old(serial.consumed), Polls3s), index)
      ensures Exchanged(serial, [ReadCommand(index)])
    {
      var reply := SendAtCommand(ReadCommand(index), Polls3s);
      m := ParseCmgr(reply, index);
    }

    /** The follow-up of a new-message indication: read the message and hand it to the
        listener when it could be read. */
    method ReceiveSms(index: nat) returns (m: Option<SmsMessage>)
      requires Linked()
      modifies this, serial
      ensures m == ParseCmgr(ReplyAt(old(serial.consumed), Polls3s), index)
      ensures Snapshot() == old(Snapshot()).(events := old(events) + if m.Some? then [SmsReceived(m.value)] else [])
      ensures Exchanged(serial, [ReadCommand(index)])
    {
      m := ReadSms(index);
      if m.Some? {
        events := events + [SmsReceived(m.value)];
      }
    }

    /** `list_sms`: every entry of the list reply, in order; the filter only goes into the
        command. */
    method ListSms(status: string) returns (ms: seq<SmsMessage>)
      requires Linked()
      modifies serial
      ensures ms == ParseCmgl(ReplyAt(old(serial.consumed), Polls10s))
      ensures forall k :: 0 <= k < |ms| ==> '+' !in ms[k].content
      ensures Exchanged(serial, [ListCommand(status)])
    {
      var reply := SendAtCommand(ListCommand(status), Polls10s);
      ms := ParseCmgl(reply);
      ListedBodiesHaveNoPlus(reply);
    }

    method DeleteSms(index: int) returns (ok: bool)
      requires Linked()
      modifies serial
      ensures ok == Contains(ReplyAt(old(serial.consumed), Polls2s), "OK")
      ensures Exchanged(serial, [DeleteCommand(index)])
    {
      var reply := SendAtCommand(DeleteCommand(index), Polls2s);
      ok := Contains(reply, "OK");
    }

    method DeleteAllSms() returns (ok: bool)
      requires Linked()
      modifies serial
      ensures ok == Contains(ReplyAt(old(serial.consumed), Polls2s), "OK")
      ensures Exchanged(serial, [DeleteAllCommand])
    {
      var reply := SendAtCommand(DeleteAllCommand, Polls2s);
      ok := Contains(reply, "OK");
    }

    // ------------------------------------------------------------ position

    /** `gps_power_on`: no power command when the module already reports it is on. */
    method GpsPowerOn() returns (ok: bool)
      requires Linked()
      modifies serial
      ensures Contains(ReplyAt(old(serial.consumed), Polls3s), "+CGPS: 1") ==>
        ok && Exchanged(serial, [GpsStatusQuery])
      ensures !Contains(ReplyAt(old(serial.consumed), Polls3s), "+CGPS: 1") ==>
        ok == Contains(ReplyAt(old(serial.consumed) + 1, Polls5s), "OK") && Exchanged(serial, [GpsStatusQuery, GpsOnCommand])
    {
      ghost var o, w, c := serial.isOpen, serial.written, serial.consumed;
      var status := SendAtCommand(GpsStatusQuery, Polls3s);
      if Contains(status, "+CGPS: 1") {
        return true;
      }
      var reply := SendAtCommand(GpsOnCommand, Polls5s);
      ok := Contains(reply, "OK");
      ExchangesChain(o, w, c, [GpsStatusQuery], [GpsOnCommand]);
      assert [GpsStatusQuery] + [GpsOnCommand] == [GpsStatusQuery, GpsOnCommand];
    }

    /** `gps_power_off`: the fix flag is cleared whether or not the module acknowledged. */
    method GpsPowerOff() returns (ok: bool)
      requires Valid()
      requires Linked()
      modifies this, serial
      ensures Valid()
      ensures ok == Contains(ReplyAt(old(serial.consumed), Polls5s), "OK")
      ensures Snapshot() == old(Snapshot()).(gps := old(gps).(fixStatus := false))
      ensures Exchanged(serial, [GpsOffCommand])
    {
      var reply := SendAtCommand(GpsOffCommand, Polls5s);
      gps := gps.(fixStatus := false);
      ok := Contains(reply, "OK");
    }

    /** `_update_gps_satellites`: four exchanges, then the refinement of fix kind,
        satellites and HDOP from their replies. */
    method UpdateGpsSatellites(ghost c: nat)
      requires Linked() && c == serial.consumed
      modifies this`gps, serial
      ensures gps == RefineSatellites(old(gps),
        ReplyAt(c, Polls3s), ReplyAt(c + 1, Polls2s), ReplyAt(c + 2, Polls3s), ReplyAt(c + 3, Polls3s))
      ensures Exchanged(serial, RefineCommands)
    {
      ghost var o, w := serial.isOpen, serial.written;
      var status := SendAtCommand(GnssStatusQuery, Polls3s);
      var config := SendAtCommand(NmeaConfigCommand, Polls2s);
      var nmea := SendAtCommand(PositionQuery, Polls3s);
      var sentence := SendAtCommand(GgaQuery, Polls3s);
      FourExchanges(o, w, c, GnssStatusQuery, NmeaConfigCommand, PositionQuery, GgaQuery);
      assert config == ReplyAt(c + 1, Polls2s) && nmea == ReplyAt(c + 2, Polls3s) && sentence == ReplyAt(c + 3, Polls3s);
      gps := RefineSatellites(gps, status, config, nmea, sentence);
    }

    /** The part of `get_gps_position` after the position query: the reply decides between
        a new record, a cleared fix and no change, and the refinement step runs unless the
        reply carries no report at all. */
    method ApplyPositionReply(reply: string, ghost c: nat)
      requires SaneGps(gps)
      requires Linked() && c == serial.consumed
      modifies this`gps, serial
      ensures SaneGps(gps)
      ensures gps == PositionAfter(old(gps), reply, ReplyAt(c, Polls3s),
        ReplyAt(c + 1, Polls2s), ReplyAt(c + 2, Polls3s), ReplyAt(c + 3, Polls3s))
      ensures Exchanged(serial, if ClassifyCgpsinfo(reply).NoReport? then [] else RefineCommands)
    {
      var kind := ClassifyCgpsinfo(reply);
      if kind.Position? || kind.NoFix? {
        if kind.Position? {
          gps := PositionOf(kind.fix);
        } else {
          gps := gps.(fixStatus := false, fixType := 0);
        }
        ghost var g1 := gps;
        UpdateGpsSatellites(c);
        RefineKeepsSane(g1, ReplyAt(c, Polls3s), ReplyAt(c + 1, Polls2s), ReplyAt(c + 2, Polls3s), ReplyAt(c + 3, Polls3s));
      } else {
        assert WrittenAfter(serial.isOpen, serial.written, []) == serial.written;
      }
    }

    /** `get_gps_position`: the position query and its reply's effect on the record, which
        is then handed to the listener and returned. */
    method GetGpsPosition() returns (g: GpsData)
      requires Valid()
      requires Linked()
      modifies this`gps, this`events, serial
      ensures Valid()
      ensures g == PositionAfter(old(gps), ReplyAt(old(serial.consumed), Polls5s),
        ReplyAt(old(serial.consumed) + 1, Polls3s), ReplyAt(old(serial.consumed) + 2, Polls2s),
        ReplyAt(old(serial.consumed) + 3, Polls3s), ReplyAt(old(serial.consumed) + 4, Polls3s))
      ensures gps == g && events == old(events) + [GpsUpdate(g)]
      ensures Exchanged(serial, PositionCommands(ReplyAt(old(serial.consumed), Polls5s)))
    {
      ghost var o, w, c := serial.isOpen, serial.written, serial.consumed;
      var reply := SendAtCommand(PositionQuery, Polls5s);
      ghost var c1 := serial.consumed;
      ApplyPositionReply(reply, c1);
      ghost var rest := if ClassifyCgpsinfo(reply).NoReport? then [] else RefineCommands;
      ExchangesChain(o, w, c, [PositionQuery], rest);
      assert PositionCommands(reply) == [PositionQuery] + rest;
      if o { assert c1 == c + 1; } else { assert c1 == c; }
      assert ReplyAt(c1, Polls3s) == ReplyAt(c + 1, Polls3s) && ReplyAt(c1 + 1, Polls2s) == ReplyAt(c + 2, Polls2s)
        && ReplyAt(c1 + 2, Polls3s) == ReplyAt(c + 3, Polls3s) && ReplyAt(c1 + 3, Polls3s) == ReplyAt(c + 4, Polls3s);
      events := events + [GpsUpdate(gps)];
      g := gps;
    }

    // ------------------------------------------------------------ network

    /** `_update_network_status`: registration, signal and operator, each replaced only
        when its reply matches. The ghost `c` names the line's read count on entry. */
    method UpdateNetworkStatus(ghost c: nat)
      requires Valid()
      requires Linked() && c == serial.consumed
      modifies this, serial
      ensures Valid()
      ensures Snapshot() == old(Snapshot()).(network := UpdateNetwork(old(Snapshot()).network,
        ReplyAt(c, Polls2s), ReplyAt(c + 1, Polls2s), ReplyAt(c + 2, Polls2s)))
      ensures Exchanged(serial, NetworkQueries)
    {
      ghost var o, w := serial.isOpen, serial.written;
      var creg := SendAtCommand(CregQuery, Polls2s);
      var csq := SendAtCommand(CsqQuery, Polls2s);
      var cops := SendAtCommand(CopsQuery, Polls2s);
      ThreeExchanges(o, w, c, CregQuery, CsqQuery, CopsQuery);
      assert csq == ReplyAt(c + 1, Polls2s) && cops == ReplyAt(c + 2, Polls2s);
      ghost var before := Snapshot();
      assert before == old(Snapshot());
      var n := UpdateNetwork(Network(networkRegistered, signalStrength, operatorName), creg, csq, cops);
      UpdateNetworkKeepsPercent(before.network, creg, csq, cops);
      networkRegistered, signalStrength, operatorName := n.registered, n.signal, n.operator;
      assert Snapshot() == before.(network := n);
    }

    /** `set_network_mode`: unknown modes select automatic. */
    method SetNetworkMode(mode: string) returns (ok: bool)
      requires Linked()
      modifies serial
      ensures ok == Contains(ReplyAt(old(serial.consumed), Polls2s), "OK")
      ensures Exchanged(serial, [ModeCommand(mode)])
    {
      var reply := SendAtCommand(ModeCommand(mode), Polls2s);
      ok := Contains(reply, "OK");
    }

    /** `force_network_registration`: deregister, then register automatically; only the
        second reply decides. */
    method ForceNetworkRegistration() returns (ok: bool)
      requires Linked()
      modifies serial
      ensures ok == Contains(ReplyAt(old(serial.consumed) + 1, Polls30s), "OK")
      ensures Exchanged(serial, [DeregisterCommand, AutoRegisterCommand])
    {
      ghost var o, w, c := serial.isOpen, serial.written, serial.consumed;
      var _ := SendAtCommand(DeregisterCommand, Polls5s);
      var reply := SendAtCommand(AutoRegisterCommand, Polls30s);
      ExchangesChain(o, w, c, [DeregisterCommand], [AutoRegisterCommand]);
      assert [DeregisterCommand] + [AutoRegisterCommand] == [DeregisterCommand, AutoRegisterCommand];
      ok := Contains(reply, "OK");
    }

    /** `get_imei`: the first stripped reply line of exactly fifteen digits, or "". */
    method GetImei() returns (imei: string)
      requires Linked()
      modifies serial
      ensures imei == ParseImei(ReplyAt(old(serial.consumed), Polls2s))
      ensures imei == "" || IsImei(imei)
      ensures imei == "" <==>
        forall k :: 0 <= k < |ImeiLines(ReplyAt(old(serial.consumed), Polls2s))| ==>
          !IsImei(ImeiLines(ReplyAt(old(serial.consumed), Polls2s))[k])
      ensures imei != "" ==>
        exists k :: 0 <= k < |ImeiLines(ReplyAt(old(serial.consumed), Polls2s))| &&
          ImeiLines(ReplyAt(old(serial.consumed), Polls2s))[k] == imei &&
          forall j :: 0 <= j < k ==> !IsImei(ImeiLines(ReplyAt(old(serial.consumed), Polls2s))[j])
      ensures Exchanged(serial, [ImeiQuery])
    {
      var reply := SendAtCommand(ImeiQuery, Polls2s);
      imei := ParseImei(reply);
      FirstImeiSpec(ImeiLines(reply));
    }

    method GetSimStatus() returns (status: string)
      requires Linked()
      modifies serial
      ensures status == SimStatus(ReplyAt(old(serial.consumed), Polls2s))
      ensures Exchanged(serial, [PinQuery])
    {
      var reply := SendAtCommand(PinQuery, Polls2s);
      status := SimStatus(reply);
    }

    /** `send_raw_command`: one exchange with the caller's command and budget. */
    method SendRawCommand(command: string, budget: nat) returns (reply: string)
      requires Linked()
      modifies serial
      ensures reply == ReplyAt(old(serial.consumed), budget)
      ensures Exchanged(serial, [command])
    {
      reply := SendAtCommand(command, budget);
    }

    /** `get_module_info`: manufacturer, model and revision with their result codes removed,
        then the IMEI. */
    method GetModuleInfo() returns (info: ModuleInfo)
      requires Linked()
      modifies serial
      ensures info == ModuleInfo(InfoField(ReplyAt(old(serial.consumed), Polls2s)),
        InfoField(ReplyAt(old(serial.consumed) + 1, Polls2s)), InfoField(ReplyAt(old(serial.consumed) + 2, Polls2s)),
        ParseImei(ReplyAt(old(serial.consumed) + 3, Polls2s)))
      ensures Exchanged(serial, [ManufacturerQuery, ModelQuery, RevisionQuery, ImeiQuery])
    {
      ghost var o, w, c := serial.isOpen, serial.written, serial.consumed;
      var manufacturer := SendAtCommand(ManufacturerQuery, Polls2s);
      ghost var c1 := serial.consumed;
      var model := SendAtCommand(ModelQuery, Polls2s);
      ghost var c2 := serial.consumed;
      var revision := SendAtCommand(RevisionQuery, Polls2s);
      ghost var c3 := serial.consumed;
      var imei := GetImei();
      FourExchanges(o, w, c, ManufacturerQuery, ModelQuery, RevisionQuery, ImeiQuery);
      SameReply(c1, c + 1, Polls2s);
      SameReply(c2, c + 2, Polls2s);
      SameReply(c3, c + 3, Polls2s);
      info := ModuleInfo(InfoField(manufacturer), InfoField(model), InfoField(revision), imei);
    }

    /** On an open line the `j`-th and the `k`-th reply are the same when `j == k`; on a
        line that is not open they always are. */
    lemma SameReply(j: nat, k: nat, budget: nat)
      requires Linked() && (serial.isOpen ==> j == k)
      ensures ReplyAt(j, budget) == ReplyAt(k, budget)
    {
    }

    /** `run_self_test`: the attention check, the SIM check, a network refresh and the GNSS
        query, in that order. */
    method RunSelfTest() returns (t: SelfTest)
      requires Valid()
      requires Linked()
      modifies this, serial
      ensures Valid()
      ensures Snapshot() == old(Snapshot()).(network := UpdateNetwork(old(Snapshot()).network,
        ReplyAt(old(serial.consumed) + 2, Polls2s), ReplyAt(old(serial.consumed) + 3, Polls2s),
        ReplyAt(old(serial.consumed) + 4, Polls2s)))
      ensures t == SelfTest(Contains(ReplyAt(old(serial.consumed), Polls2s), "OK"),
        SimStatus(ReplyAt(old(serial.consumed) + 1, Polls2s)) == "READY",
        networkRegistered, signalStrength > 0, Contains(ReplyAt(old(serial.consumed) + 5, Polls2s), "OK"))
      ensures Exchanged(serial, SelfTestCommands)
    {
      ghost var o, w, c := serial.isOpen, serial.written, serial.consumed;
      var at := SendAtCommand(AttentionCommand, Polls2s);
      ghost var c1 := serial.consumed;
      var sim := GetSimStatus();
      ghost var c2 := serial.consumed;
      UpdateNetworkStatus(c2);
      ghost var c5 := serial.consumed;
      var gnss := SendAtCommand(GpsStatusQuery, Polls2s);
      SameReply(c1, c + 1, Polls2s);
      SameReply(c2, c + 2, Polls2s);
      SameReply(c2 + 1, c + 3, Polls2s);
      SameReply(c2 + 2, c + 4, Polls2s);
      SameReply(c5, c + 5, Polls2s);
      SelfTestExchanges(o, w, c);
      t := SelfTest(Contains(at, "OK"), sim == "READY", networkRegistered, signalStrength > 0, Contains(gnss, "OK"));
    }
  }
}

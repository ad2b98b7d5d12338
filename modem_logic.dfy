/** The decisions of the SIM7600X controller, apart from the object that carries them out:
    command budgets, number clean-up, the audio and network-mode tables, the order in which
    unsolicited lines are recognised, and how network and position replies update the
    cached state. */
module ModemLogic {
  import opened Text
  import opened Scan
  import opened AtReplies
  import opened SmsReplies
  import opened GpsReplies
  import opened Transport

  /** Call progress as the controller tracks it (section 6.3 of ITU-T V.250 names the
      commands that move it). */
  datatype CallState = Idle | Dialing | Ringing | Incoming | Active | Held

  /** The current call: its state and the remote number ("" when there is none). */
  datatype Call = Call(state: CallState, number: string)

  /** The registration flag, signal percentage and operator name the controller caches. */
  datatype Network = Network(registered: bool, signal: int, operator: string)

  /** A notification the controller hands to its listener. */
  datatype Event = IncomingCall(number: string) | CallEnded | SmsReceived(message: SmsMessage) | GpsUpdate(position: GpsData)

  // ---------------------------------------------------------------- exchanges

  /** Poll budgets of the read loop, which polls every 0.05 s: 2 s, 3 s, 5 s, 10 s, 30 s.
      The submission report is awaited for 10 s in 0.1 s polls. */
  const Polls2s: nat := 40
  const Polls3s: nat := 60
  const Polls5s: nat := 100
  const Polls10s: nat := 200
  const Polls30s: nat := 600
  const SubmissionPolls: nat := 100

  /** The text the driver returns in place of a reply when it cannot talk to the module. */
  function ErrorReply(reason: string): string
  {
    "ERROR: " + reason
  }

  /** The reply of an exchange on a line that is not open. */
  const NotConnected: string := ErrorReply("Not connected")

  /** The trimmed reply of the exchange whose read loop is the `k`-th on the line, on a line
      that is open or not. */
  function Reply(isOpen: bool, arrivals: seq<seq<string>>, k: nat, budget: nat): string
  {
    if !isOpen then NotConnected else Strip(ReadText(ResultCode, ScriptAt(arrivals, k), budget))
  }

  /** The text an exchange writes: the command and a line end. */
  function CommandLines(commands: seq<string>): seq<string>
  {
    if commands == [] then [] else [commands[0] + CRLF] + CommandLines(commands[1..])
  }

  /** One line per command, each the command followed by CR LF. */
  lemma {:induction false} CommandLinesEach(commands: seq<string>)
    ensures |CommandLines(commands)| == |commands|
    ensures forall k :: 0 <= k < |commands| ==> CommandLines(commands)[k] == commands[k] + CRLF
  {
    if commands != [] {
      CommandLinesEach(commands[1..]);
    }
  }

  lemma {:induction false} CommandLinesAppend(xs: seq<string>, ys: seq<string>)
    ensures CommandLines(xs + ys) == CommandLines(xs) + CommandLines(ys)
  {
    if xs == [] {
      assert xs + ys == ys;
    } else {
      assert (xs + ys)[1..] == xs[1..] + ys;
      CommandLinesAppend(xs[1..], ys);
    }
  }

  /** What the serial line records after the given exchanges on a line that is open or
      not: the commands written, or nothing at all. */
  function WrittenAfter(isOpen: bool, written: seq<string>, commands: seq<string>): seq<string>
  {
    if isOpen then written + CommandLines(commands) else written
  }

  /** The read loops the given exchanges run: one per command on an open line, none on a
      line that is not open. */
  function ReadsAfter(isOpen: bool, consumed: nat, commands: seq<string>): nat
  {
    if isOpen then consumed + |commands| else consumed
  }

  /** Two runs of exchanges, one after the other, are one run of both. */
  lemma ExchangesChain(isOpen: bool, written: seq<string>, consumed: nat, xs: seq<string>, ys: seq<string>)
    ensures WrittenAfter(isOpen, WrittenAfter(isOpen, written, xs), ys) == WrittenAfter(isOpen, written, xs + ys)
    ensures ReadsAfter(isOpen, ReadsAfter(isOpen, consumed, xs), ys) == ReadsAfter(isOpen, consumed, xs + ys)
  {
    CommandLinesAppend(xs, ys);
    if isOpen {
      assert written + CommandLines(xs) + CommandLines(ys) == written + (CommandLines(xs) + CommandLines(ys));
    }
  }

  /** Two exchanges, one after the other, are one run of the two commands. */
  lemma TwoExchanges(isOpen: bool, written: seq<string>, consumed: nat, a: string, b: string)
    ensures WrittenAfter(isOpen, WrittenAfter(isOpen, written, [a]), [b]) == WrittenAfter(isOpen, written, [a, b])
    ensures ReadsAfter(isOpen, ReadsAfter(isOpen, consumed, [a]), [b]) == ReadsAfter(isOpen, consumed, [a, b])
  {
    ExchangesChain(isOpen, written, consumed, [a], [b]);
    assert [a] + [b] == [a, b];
  }

  /** Three exchanges, one after the other, are one run of the three commands. */
  lemma ThreeExchanges(isOpen: bool, written: seq<string>, consumed: nat, a: string, b: string, c: string)
    ensures WrittenAfter(isOpen, WrittenAfter(isOpen, WrittenAfter(isOpen, written, [a]), [b]), [c])
         == WrittenAfter(isOpen, written, [a, b, c])
    ensures ReadsAfter(isOpen, ReadsAfter(isOpen, ReadsAfter(isOpen, consumed, [a]), [b]), [c])
         == ReadsAfter(isOpen, consumed, [a, b, c])
  {
    TwoExchanges(isOpen, written, consumed, a, b);
    ExchangesChain(isOpen, written, consumed, [a, b], [c]);
    assert [a, b] + [c] == [a, b, c];
  }

  /** Four exchanges, one after the other, are one run of the four commands. */
  lemma FourExchanges(isOpen: bool, written: seq<string>, consumed: nat, a: string, b: string, c: string, d: string)
    ensures WrittenAfter(isOpen, WrittenAfter(isOpen, WrittenAfter(isOpen, WrittenAfter(isOpen, written, [a]), [b]), [c]), [d])
         == WrittenAfter(isOpen, written, [a, b, c, d])
    ensures ReadsAfter(isOpen, ReadsAfter(isOpen, ReadsAfter(isOpen, ReadsAfter(isOpen, consumed, [a]), [b]), [c]), [d])
         == ReadsAfter(isOpen, consumed, [a, b, c, d])
  {
    ThreeExchanges(isOpen, written, consumed, a, b, c);
    ExchangesChain(isOpen, written, consumed, [a, b, c], [d]);
    assert [a, b, c] + [d] == [a, b, c, d];
  }

  /** A line that is not open never shows the message prompt, a result code `OK` or a
      submission report. */
  lemma NotConnectedReply()
    ensures !Contains(NotConnected, ">") && !Contains(NotConnected, "OK")
    ensures !Contains(NotConnected, "+CMGS:") && !Contains(NotConnected, "CONNECT")
    ensures Contains(NotConnected, "ERROR")
  {
    assert NotConnected == "" + "ERROR" + ": Not connected";
    ContainsInside("", "ERROR", ": Not connected");
    NotConnectedLacks('>');
    MissingCharNotContained(NotConnected, ">", 0);
    NotConnectedLacks('K');
    MissingCharNotContained(NotConnected, "OK", 1);
    NotConnectedLacks('+');
    MissingCharNotContained(NotConnected, "+CMGS:", 0);
    NotConnectedLacks('C');
    MissingCharNotContained(NotConnected, "CONNECT", 0);
  }

  lemma NotConnectedLacks(c: char)
    requires c in {'>', 'K', '+', 'C'}
    ensures c !in NotConnected
  {
    forall i | 0 <= i < |NotConnected| ensures NotConnected[i] != c {
      assert NotConnected[i] in "ERROR: Not connected";
    }
  }

  /** Text that lacks one character of `sub` does not contain `sub`. */
  lemma MissingCharNotContained(s: string, sub: string, k: nat)
    requires k < |sub| && sub[k] !in s
    ensures !Contains(s, sub)
  {
    ContainsIff(s, sub);
    forall i | 0 <= i ensures !OccursAt(s, sub, i) {
      if i + |sub| <= |s| {
        assert s[i..i + |sub|][k] == s[i + k];
      }
    }
  }

  /** `str(i)` for any integer. */
  function IntToString(i: int): string
  {
    if i < 0 then "-" + NatToString(-i) else NatToString(i)
  }

  // ---------------------------------------------------------------- numbers and tables

  /** Characters `dial` keeps (`[^\d+*#]` removed). */
  const DialChars: set<char> := {'0', '1', '2', '3', '4', '5', '6', '7', '8', '9', '+', '*', '#'}

  /** Characters `send_sms` keeps (`[^\d+]` removed). */
  const SmsChars: set<char> := {'0', '1', '2', '3', '4', '5', '6', '7', '8', '9', '+'}

  /** `max(lo, min(hi, x))`. */
  function Clamp(x: int, lo: int, hi: int): (r: int)
    requires lo <= hi
    ensures lo <= r <= hi
    ensures lo <= x <= hi ==> r == x
    ensures x < lo ==> r == lo
    ensures x > hi ==> r == hi
  {
    if x < lo then lo else if x > hi then hi else x
  }

  /** The `AT+CSDVC` code of an audio device name, if the name is known. */
  function AudioDeviceCode(device: string): (r: Option<nat>)
    ensures r.Some? <==> device in {"headset", "speaker", "handset"}
    ensures r.Some? ==> r.value in {0, 1, 3}
  {
    if device == "headset" then Some(1)
    else if device == "speaker" then Some(3)
    else if device == "handset" then Some(0)
    else None
  }

  /** Different device names select different outputs. */
  lemma AudioDeviceCodeInjective(a: string, b: string)
    requires AudioDeviceCode(a).Some? && AudioDeviceCode(a) == AudioDeviceCode(b)
    ensures a == b
  {
  }

  /** The `AT+CNMP` code of a network mode; an unknown mode falls back to automatic. */
  function NetworkModeCode(mode: string): (code: string)
    ensures code in {"2", "38", "14", "13"}
    ensures mode !in {"4g", "3g", "2g"} ==> code == "2"
  {
    if mode == "4g" then "38"
    else if mode == "3g" then "14"
    else if mode == "2g" then "13"
    else "2"
  }

  /** Each named mode selects its own code. */
  lemma NetworkModeCodeInjective(a: string, b: string)
    requires a in {"auto", "4g", "3g", "2g"} && b in {"auto", "4g", "3g", "2g"}
    requires NetworkModeCode(a) == NetworkModeCode(b)
    ensures a == b
  {
  }

  // ---------------------------------------------------------------- unsolicited lines

  /** What one unsolicited line means to the controller. */
  datatype Notice = Ring(caller: string) | Ended | NewMessage(index: nat) | Ignored

  /** The checks run on a stripped line, in order: caller identification, then call end,
      then new-message indication. A `+CLIP` line without a quoted number is ignored even if
      it also reports a call end. */
  function Classify(line: string): Notice
  {
    if Contains(line, "+CLIP:") then
      match ParseClip(line)
      case Some(number) => Ring(number)
      case None => Ignored
    else if Contains(line, "NO CARRIER") || Contains(line, "BUSY") then Ended
    else if Contains(line, "+CMTI:") then
      match ParseCmti(line)
      case Some(k) => NewMessage(k)
      case None => Ignored
    else Ignored
  }

  /** Each kind of notice comes from exactly the lines the checks assign to it. */
  lemma ClassifyCases(line: string)
    ensures var n := Classify(line);
      && (n.Ring? <==> Contains(line, "+CLIP:") && ParseClip(line).Some?)
      && (n.Ring? ==> n.caller == ParseClip(line).value)
      && (n.Ended? <==> !Contains(line, "+CLIP:") && (Contains(line, "NO CARRIER") || Contains(line, "BUSY")))
      && (n.NewMessage? ==> ParseCmti(line) == Some(n.index))
      && (n.NewMessage? <==> !Contains(line, "+CLIP:") && !Contains(line, "NO CARRIER") && !Contains(line, "BUSY")
                             && Contains(line, "+CMTI:") && ParseCmti(line).Some?)
  {
  }

  /** The notices of a block of unsolicited text, one per line of the stripped block. */
  function Notices(data: string): seq<Notice>
  {
    LineNotices(Split(Strip(data), '\n'))
  }

  /** The notices of some lines, one per stripped line. */
  function LineNotices(lines: seq<string>): (ns: seq<Notice>)
    ensures |ns| == |lines|
  {
    seq(|lines|, k requires 0 <= k < |lines| => Classify(Strip(lines[k])))
  }

  /** The call after one notice. */
  function Apply(c: Call, n: Notice): Call
  {
    match n
    case Ring(number) => Call(Incoming, number)
    case Ended => Call(Idle, "")
    case _ => c
  }

  predicate IsCallNotice(n: Notice)
  {
    n.Ring? || n.Ended?
  }

  /** The call after a run of notices, applied in order. */
  function ApplyAll(c: Call, ns: seq<Notice>): Call
  {
    if ns == [] then c else Apply(ApplyAll(c, ns[..|ns| - 1]), ns[|ns| - 1])
  }

  /** The event one notice raises, if any. */
  function EventOf(n: Notice): seq<Event>
  {
    match n
    case Ring(number) => [IncomingCall(number)]
    case Ended => [CallEnded]
    case _ => []
  }

  /** The storage index one notice announces, if any. */
  function AnnouncedIndex(n: Notice): seq<nat>
  {
    if n.NewMessage? then [n.index] else []
  }

  /** The events a run of notices raises, in order. */
  function NoticeEvents(ns: seq<Notice>): seq<Event>
  {
    if ns == [] then [] else NoticeEvents(ns[..|ns| - 1]) + EventOf(ns[|ns| - 1])
  }

  /** The storage indices of new messages a run of notices announces, in order. */
  function NewMessages(ns: seq<Notice>): (ks: seq<nat>)
    ensures |ks| <= |ns|
  {
    if ns == [] then [] else NewMessages(ns[..|ns| - 1]) + AnnouncedIndex(ns[|ns| - 1])
  }

  /** Handling one more notice extends the call, the events and the announced indices by
      that notice's effect. */
  lemma NoticeStep(c: Call, ns: seq<Notice>, i: nat)
    requires i < |ns|
    ensures ApplyAll(c, ns[..i + 1]) == Apply(ApplyAll(c, ns[..i]), ns[i])
    ensures NoticeEvents(ns[..i + 1]) == NoticeEvents(ns[..i]) + EventOf(ns[i])
    ensures NewMessages(ns[..i + 1]) == NewMessages(ns[..i]) + AnnouncedIndex(ns[i])
  {
    assert ns[..i + 1][..i] == ns[..i];
  }

  /** Notices that are not about calls leave the call as it was. */
  lemma {:induction false} QuietNoticesKeepCall(c: Call, ns: seq<Notice>)
    requires forall k :: 0 <= k < |ns| ==> !IsCallNotice(ns[k])
    ensures ApplyAll(c, ns) == c
  {
    if ns != [] {
      QuietNoticesKeepCall(c, ns[..|ns| - 1]);
    }
  }

  /** After a block of notices, the call is what the last call notice made it. */
  lemma {:induction false} LastCallNoticeWins(c: Call, ns: seq<Notice>, i: nat)
    requires i < |ns| && IsCallNotice(ns[i])
    requires forall k :: i < k < |ns| ==> !IsCallNotice(ns[k])
    ensures ApplyAll(c, ns) == Apply(c, ns[i])
  {
    if i == |ns| - 1 {
    } else {
      LastCallNoticeWins(c, ns[..|ns| - 1], i);
    }
  }

  /** Every announced index comes from a new-message notice. */
  lemma {:induction false} NewMessagesAnnounced(ns: seq<Notice>, j: nat)
    requires j < |NewMessages(ns)|
    ensures exists k :: 0 <= k < |ns| && ns[k] == NewMessage(NewMessages(ns)[j])
  {
    var init := ns[..|ns| - 1];
    if j < |NewMessages(init)| {
      NewMessagesAnnounced(init, j);
      var k :| 0 <= k < |init| && init[k] == NewMessage(NewMessages(init)[j]);
      assert ns[k] == init[k];
    } else {
      assert ns[|ns| - 1] == NewMessage(NewMessages(ns)[j]);
    }
  }

  /** A caller-identification line sets up an incoming call from that number. */
  lemma RingLine(number: string)
    requires '"' !in number
    ensures Classify(RenderClip(number)) == Ring(number)
  {
    ClipRoundTrip(number);
    var s := RenderClip(number);
    assert s == "" + "+CLIP:" + s[6..];
    ContainsInside("", "+CLIP:", s[6..]);
  }

  // ---------------------------------------------------------------- network status

  /** `_update_network_status` given the replies to `AT+CREG?`, `AT+CSQ` and `AT+COPS?`:
      each field is replaced when its reply matches and kept otherwise. */
  function UpdateNetwork(n: Network, cregReply: string, csqReply: string, copsReply: string): Network
  {
    var registered := match ParseCreg(cregReply) case Some(stat) => IsRegistered(stat) case None => n.registered;
    var signal := match ParseCsq(csqReply) case Some(rssi) => SignalPercent(rssi) case None => n.signal;
    var operator := match ParseCops(copsReply) case Some(name) => name case None => n.operator;
    Network(registered, signal, operator)
  }

  /** The signal stays a percentage. */
  lemma UpdateNetworkKeepsPercent(n: Network, cregReply: string, csqReply: string, copsReply: string)
    requires 0 <= n.signal <= 100
    ensures 0 <= UpdateNetwork(n, cregReply, csqReply, copsReply).signal <= 100
  {
    match ParseCsq(csqReply)
    case Some(rssi) => assert SignalPercent(rssi) <= 100;
    case None =>
  }

  /** With the modem unreachable every cached network field is kept. */
  lemma UpdateNetworkDisconnected(n: Network)
    ensures UpdateNetwork(n, NotConnected, NotConnected, NotConnected) == n
  {
    forall t | CregAt(t).Some? ensures "+CREG:" <= t { }
    forall t | CsqAt(t).Some? ensures "+CSQ:" <= t { }
    forall t | CopsAt(t).Some? ensures "+COPS:" <= t { }
    NotConnectedNoMatch("+CREG:", CregAt);
    NotConnectedNoMatch("+CSQ:", CsqAt);
    NotConnectedNoMatch("+COPS:", CopsAt);
  }

  /** A matcher whose tag starts with `+` finds nothing in the disconnected reply. */
  lemma NotConnectedNoMatch<T>(tag: string, m: string -> Option<T>)
    requires tag != [] && tag[0] == '+'
    requires forall t :: m(t).Some? ==> tag <= t
    ensures Search(NotConnected, m).None?
  {
    NotConnectedLacks('+');
    MissingCharNotContained(NotConnected, tag, 0);
    NoTagNoMatch(NotConnected, tag, m);
  }

  /** A matcher that needs a tag finds nothing in text that lacks the tag. */
  lemma NoTagNoMatch<T>(s: string, tag: string, m: string -> Option<T>)
    requires forall t :: m(t).Some? ==> tag <= t
    requires !Contains(s, tag)
    ensures Search(s, m).None?
  {
    SearchLeftmost(s, m);
    forall i | 0 <= i <= |s| && m(s[i..]).Some? ensures false {
      assert s[i..i + |tag|] == tag;
      OccurrenceContained(s, tag, i);
    }
  }

  // ---------------------------------------------------------------- position

  /** The record after a position query, given the position reply and the replies of the
      refinement step (status, configuration, position, sentence). */
  function PositionAfter(g: GpsData, reply: string, status: string, config: string, nmea: string, sentence: string): (r: GpsData)
  {
    match ClassifyCgpsinfo(reply)
    case Position(f) => RefineSatellites(PositionOf(f), status, config, nmea, sentence)
    case NoFix => RefineSatellites(g.(fixStatus := false, fixType := 0), status, config, nmea, sentence)
    case NoReport => g
  }

  /** A report replaces the whole record: the position fields come from the report, the
      fix flag is set, and satellites, HDOP and fix kind start from their defaults before
      the refinement step may set them. */
  lemma PositionReplacesRecord(g: GpsData, reply: string, status: string, config: string, nmea: string, sentence: string)
    requires ClassifyCgpsinfo(reply).Position?
    ensures var f := ClassifyCgpsinfo(reply).fix;
      var r := PositionAfter(g, reply, status, config, nmea, sentence);
      r == PositionOf(f).(satellites := r.satellites, hdop := r.hdop, fixType := r.fixType) && r.fixStatus
  {
    var f := ClassifyCgpsinfo(reply).fix;
    PositionOfReport(f);
    RefineSatellitesFields(PositionOf(f), status, config, nmea, sentence);
  }

  /** A bare `+CGPSINFO:` clears the fix flag and keeps the last position. */
  lemma NoFixKeepsPosition(g: GpsData, reply: string, status: string, config: string, nmea: string, sentence: string)
    requires ClassifyCgpsinfo(reply).NoFix?
    ensures var r := PositionAfter(g, reply, status, config, nmea, sentence);
      !r.fixStatus && r.latitude == g.latitude && r.longitude == g.longitude && r.altitude == g.altitude
      && r.speed == g.speed && r.course == g.course && r.timestamp == g.timestamp
  {
    RefineSatellitesFields(g.(fixStatus := false, fixType := 0), status, config, nmea, sentence);
  }

  /** A reply without the tag leaves the record untouched. */
  lemma NoReportKeepsRecord(g: GpsData, reply: string, status: string, config: string, nmea: string, sentence: string)
    requires !Contains(reply, "+CGPSINFO:")
    ensures PositionAfter(g, reply, status, config, nmea, sentence) == g
  {
    ClassifyCgpsinfoCases(reply);
  }

  /** Sanity of a position record: fix kind 0, 2 or 3 and a non-negative HDOP. */
  predicate SaneGps(g: GpsData)
  {
    g.fixType in {0, 2, 3} && g.hdop >= 0.0 && g.satellites >= 0
  }

  lemma FloatOfNonNegative(t: string)
    requires forall k :: 0 <= k < |t| ==> IsDigit(t[k]) || t[k] == '.'
    ensures FloatOf(t).Some? ==> FloatOf(t).value >= 0.0
  {
  }

  lemma RefineKeepsSane(g: GpsData, status: string, config: string, nmea: string, sentence: string)
    requires SaneGps(g)
    ensures SaneGps(RefineSatellites(g, status, config, nmea, sentence))
  {
    if Search(nmea + sentence, GgaAt).Some? {
      var gga := Search(nmea + sentence, GgaAt).value;
      GgaWellFormed(nmea + sentence);
      FloatOfNonNegative(gga.hdop);
    }
  }

  /** Every position query keeps the record sane. */
  lemma PositionAfterKeepsSane(g: GpsData, reply: string, status: string, config: string, nmea: string, sentence: string)
    requires SaneGps(g)
    ensures SaneGps(PositionAfter(g, reply, status, config, nmea, sentence))
  {
    match ClassifyCgpsinfo(reply)
    case Position(f) => RefineKeepsSane(PositionOf(f), status, config, nmea, sentence);
    case NoFix => RefineKeepsSane(g.(fixStatus := false, fixType := 0), status, config, nmea, sentence);
    case NoReport =>
  }
}

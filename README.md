# PiPhone SIM7600X core, in Dafny

A verified model of the core of PiPhone, a Raspberry Pi phone built on the SIMCom
SIM7600X 4G HAT:

- **The modem controller** (`sim7600x.py`, class `SIM7600X`). It talks AT commands over a
  serial line: a command exchange that polls until a final result code, a prompt or a
  timeout. It also covers:
  - call control (`ATD`, `ATA`, `ATH`, DTMF) and the unsolicited `+CLIP` / `NO CARRIER` /
    `BUSY` / `+CMTI` lines;
  - text-mode SMS (`+CMGS`, `+CMGR`, `+CMGL`, delete);
  - GNSS (`+CGPSINFO` in the NMEA 0183 `ddmm.mmmm` convention, GGA satellites and HDOP,
    `+CGPSSTATUS`);
  - network status (`+CREG`, `+CSQ`, `+COPS`), the audio and network-mode tables, IMEI,
    SIM status, module identification and the self-test.
- **The simulator** (`SIM7600XSimulator`, same file): an in-memory SMS table with a monotone
  index counter, a fixed network, and a position that drifts randomly.
- **The dialer screen** (`ui/phone_screen.py`): the typed number, its formatted display, the
  call flags and the call-duration timer.
- **The messages screen** (`ui/sms_screen.py`): conversations per remote number, rebuilt from
  the modem's listing, extended on receive and send, and deduplicated by
  (content, timestamp) during the unread poll. It also covers list previews.

Files and modules:

| file | module | what it holds |
|---|---|---|
| `text.dfy` | `Text` | the Python `str` operations the code uses (`in`, `strip`, `split`, `replace`, `[:n]`, `lower`, `re.sub` filters, `str(n)` / `int(s)`) |
| `scan.dfy` | `Scan` | prefix matchers for the fixed regular expressions, and `re.search` as a leftmost search |
| `transport.dfy` | `Transport` | the read loop as a poll budget over a script of arriving chunks, and the serial line |
| `at_replies.dfy` | `AtReplies` | `+CREG`, `+CSQ`, `+COPS`, `+CLIP`, `+CMTI`, `+CPIN`, `+GSN` replies (3GPP TS 27.007 and 27.005) |
| `sms_replies.dfy` | `SmsReplies` | `+CMGR` and `+CMGL` replies (sections 3.4.2 and 3.4.3 of 3GPP TS 27.005) |
| `gps_replies.dfy` | `GpsReplies` | `+CGPSINFO`, NMEA coordinates, GGA fields, the satellites fallback, `+CGPSSTATUS` |
| `modem_logic.dfy` | `ModemLogic` | the controller's decisions as functions: budgets, tables, unsolicited lines, network and position updates |
| `modem.dfy` | `Modem` | the `SIM7600X` object as a class over a `SerialPort` |
| `simulator.dfy` | `Simulator` | `SIM7600XSimulator` as a class with its table invariant |
| `phone_screen.dfy` | `PhoneScreen` | `PhoneScreen` as a class, the display formatter and the duration label |
| `sms_screen.dfy` | `SmsScreen` | `SMSScreen` as a class over a map of conversations |

How the model abstracts the environment:

- **Serial line and time.**
  - The serial line is a `SerialPort` object. It records every write and gives, for each
    read loop in turn, the script of text waiting at each poll.
  - A timeout becomes a poll budget, because the loop sleeps 0.05 s between polls:
    2 s is 40 polls, 3 s is 60, 5 s is 100, 10 s is 200 and 30 s is 600.
  - The SMS confirmation loop polls every 0.1 s for 10 s, which is 100 polls.
- **Callbacks.** `on_incoming_call`, `on_call_ended`, `on_sms_received` and `on_gps_update`
  become an event log on the controller.
- **Unsolicited messages.** A `+CMTI` line yields the index of the message to read, and
  `ReceiveSms` performs that read.
- **The screens' modem calls.** The screens record their requests. What the modem answered
  (dial, answer or send accepted) is a parameter of the screen method.
- **Inputs from outside the code.** The modem's listings, the clock reading and the random
  draws are parameters too.
- **Numbers.**
  - Python floats are exact `real`s.
  - Python's `int(v / 100)` on a non-negative value is the floor.
  - `int((rssi / 31) * 100)` is the floor of the exact quotient.

Where the code and its design notes differ, the model follows the code. The notes say a
call's timer "starts at 0". But `_start_call_timer` sets the count to 0 and calls
`_update_call_timer` at once, which shows `00:00` and counts one second. So after a
successful dial or answer the model has `callSeconds == 1` and the label `Clock(0)`.

## Model

| member | source | states |
|---|---|---|
| Text.ContainsIff | sim7600x.py:310 | Python's `sub in s` holds exactly when `sub` occurs at some offset of `s` |
| Text.RemoveAll | sim7600x.py:862 | `replace(pat, '')` never makes a text longer |
| Text.RemoveAllAbsent | sim7600x.py:862 | a text without the pattern is left unchanged by `replace(pat, '')` |
| Text.RemoveAllTrailing | sim7600x.py:862 | when the only occurrence is a final one, `replace` removes exactly that suffix |
| Text.TrimStartSuffix | sim7600x.py:314 | `lstrip` keeps a suffix, drops only whitespace, and stops at the first non-space |
| Text.TrimEndPrefix | sim7600x.py:314 | `rstrip` keeps a prefix, drops only whitespace, and stops at the last non-space |
| Text.StripSlice | sim7600x.py:314 | `strip` returns a slice of its input with only whitespace outside it and non-space characters at both borders |
| Text.StripIdempotent | sim7600x.py:340-343 | stripping a stripped line changes nothing |
| Text.StripTrailingCrlf | sim7600x.py:513 | a stripped body followed by CR LF strips back to the body |
| Text.Prefix | ui/sms_screen.py:343 | `s[:n]` has length `min(n, len(s))` and is a prefix of `s` |
| Text.Split | sim7600x.py:340 | `split(sep)` yields at least one part and no part contains the separator |
| Text.SplitJoin | sim7600x.py:340 | joining the parts of `split(sep)` with `sep` gives the text back |
| Text.IndexOf | sim7600x.py:340 | the position of the first occurrence of a character: it is there, and nowhere before it |
| Text.KeepOnly | sim7600x.py:384 | `re.sub('[^...]', '', s)` is never longer than `s` and holds only kept characters |
| Text.KeepOnlyAppend | sim7600x.py:384 | the filter distributes over concatenation, so it keeps the order of the kept characters |
| Text.KeepOnlyFixed | sim7600x.py:434 | a number made only of kept characters is passed through unchanged |
| Text.KeepOnlyIdempotent | sim7600x.py:434 | cleaning a cleaned number changes nothing |
| Text.ReplaceCrlf | sim7600x.py:486 | `replace('\r\n', '\n')` never makes a text longer |
| Text.ReplaceCrlfIdentity | sim7600x.py:486 | the rewrite changes a body exactly when the body holds a CR LF pair |
| Text.Lower | sim7600x.py:652 | `lower()` keeps the length and lowers each ASCII letter in place |
| Text.DigitChar | sim7600x.py:366 | a digit value below ten has a digit character that reads back as it |
| Text.NatToString | sim7600x.py:257 | `str(n)` of a non-negative number is a non-empty run of digits |
| Text.NatToStringValue | sim7600x.py:366 | `int(str(n)) == n` |
| Scan.Lit | sim7600x.py:347 | a literal matches exactly when it is a prefix, and yields what follows it |
| Scan.SpaceRunStops | sim7600x.py:347 | the `\s*` run is all whitespace and stops at the first non-space |
| Scan.DigitRunStops | sim7600x.py:364 | the `\d+` run is all digits and stops at the first non-digit |
| Scan.Number | sim7600x.py:364 | `(\d+)` matches exactly when the text starts with a digit |
| Scan.Quoted | sim7600x.py:347 | `"([^"]*)"` yields a field without quotes that, quoted, is a prefix of the text |
| Scan.FindFromLeftmost | sim7600x.py:347 | the search finds the leftmost offset where the pattern matches, and finding none means no offset matches |
| Scan.SearchLeftmost | sim7600x.py:347 | `re.search` succeeds exactly when the pattern matches at some offset, and returns the match at the leftmost one |
| Scan.SearchAtStart | sim7600x.py:347 | a reply that starts with a match is matched there |
| Scan.NumberOfRendered | sim7600x.py:364 | a rendered number followed by a non-digit reads back as that number |
| Scan.QuotedOfRendered | sim7600x.py:347 | a quoted field without inner quotes reads back as its contents |
| Scan.SpacesOfRendered | sim7600x.py:347 | `\s*` skips exactly the leading whitespace |
| Transport.NothingFinished | sim7600x.py:310 | an empty buffer never ends a read loop |
| Transport.StopPollStops | sim7600x.py:304-312 | the loop stops at the first poll whose buffer holds `OK`, `ERROR` or `>`, or when the budget is spent |
| Transport.StopPollUnique | sim7600x.py:304-312 | that stopping poll is unique |
| Transport.TimeoutKeepsPartialText | sim7600x.py:304-314 | a loop that times out returns all the partial text that arrived |
| Transport.FirstPollFinishes | sim7600x.py:304-311 | a reply complete at its first poll is read in one poll, whatever follows it |
| Transport.SplitReplyStopsAtCompletion | sim7600x.py:304-311 | a reply split over two polls is read up to the poll that completes it, and later chunks stay unread |
| Transport.ReadUntil | sim7600x.py:301-312 | the polling loop returns exactly the text of the specified stopping poll |
| Transport.SerialPort.constructor | sim7600x.py:288 | a line starts with nothing written and no read loop run |
| Transport.SerialPort.Write | sim7600x.py:298 | a write appends to the write log and runs no read loop |
| Transport.SerialPort.NextArrivals | sim7600x.py:305-307 | each read loop consumes the next script of arriving text |
| AtReplies.CregRoundTrip | sim7600x.py:697-701 | the `<stat>` of a well-formed `+CREG: <n>,<stat>` reply is read back |
| AtReplies.SignalPercent | sim7600x.py:709-712 | rssi 99 gives 0; otherwise the floor of `rssi*100/31`, capped at 100; always within [0, 100] |
| AtReplies.SignalPercentScale | sim7600x.py:709-712 | 0 gives 0, 31 gives 100, and a stronger rssi never gives fewer percent |
| AtReplies.CsqRoundTrip | sim7600x.py:704-707 | the `<rssi>` of a `+CSQ: <rssi>,<ber>` reply is read back |
| AtReplies.CopsRoundTrip | sim7600x.py:715-718 | the operator name of a `+COPS: <mode>,<format>,"<oper>"` reply is read back |
| AtReplies.ClipRoundTrip | sim7600x.py:346-349 | the number of a `+CLIP: "<number>"` line is read back |
| AtReplies.CmtiRoundTrip | sim7600x.py:363-366 | the index of a `+CMTI: "<mem>",<index>` line is read back |
| AtReplies.SimStatus | sim7600x.py:830-839 | READY, PIN REQUIRED, NO SIM and UNKNOWN, each exactly when its rule is the first that applies |
| AtReplies.FirstImei | sim7600x.py:823-828 | the result is "" or a fifteen-digit line |
| AtReplies.FirstImeiSpec | sim7600x.py:823-828 | a line is found exactly when some line is fifteen digits, and the result is the line at the first such position: no earlier line is fifteen digits |
| AtReplies.ImeiRoundTrip | sim7600x.py:820-828 | the usual reply, fifteen digits then the result code, yields the IMEI |
| SmsReplies.HeaderRoundTrip | sim7600x.py:476 | the status, sender and timestamp fields read back, and the alpha field is skipped |
| SmsReplies.CmgrAtRendered | sim7600x.py:475-478 | a read reply matches with its header and everything after the first line end as body |
| SmsReplies.CmgrRoundTrip | sim7600x.py:472-488 | a read reply gives the asked index, the header fields and the stripped body with CR LF turned into LF |
| SmsReplies.NonPlusRunStops | sim7600x.py:504 | the `[^\+]+` run holds no `+` and stops at the first one |
| SmsReplies.ListBody | sim7600x.py:504 | a listed body never contains `+` |
| SmsReplies.CmglAt | sim7600x.py:504 | a matched entry's body has no `+` and the match consumes text |
| SmsReplies.ListedBodiesHaveNoPlus | sim7600x.py:504-514 | no message that `list_sms` returns has a `+` in its content |
| SmsReplies.CmglEntryRoundTrip | sim7600x.py:504-514 | one well-formed list entry reads back as its message |
| SmsReplies.CmglRoundTrip | sim7600x.py:501-516 | a list reply of well-formed entries reads back as exactly those messages, in order |
| SmsReplies.CmglLastBodyKeepsResultCode | sim7600x.py:504-513 | the last listed body runs on to the end of the reply and keeps the trailing `OK` |
| GpsReplies.AccuracyMeters | sim7600x.py:64-68 | five metres per unit of HDOP, and zero exactly when HDOP is not positive |
| GpsReplies.AccuracyMonotone | sim7600x.py:64-68 | a smaller HDOP never reports a larger error radius |
| GpsReplies.DecimalAt | sim7600x.py:565 | `\d+\.?\d*` matches exactly when the text starts with a digit, and splits the text into the numeral and the rest |
| GpsReplies.DecimalOfRendered | sim7600x.py:565 | a rendered numeral reads back as itself when nothing after it can extend it |
| GpsReplies.FloatOfDecimal | sim7600x.py:571-573 | `float()` of a matched numeral is its exact decimal value |
| GpsReplies.NmeaDegrees | sim7600x.py:577 | `int(v / 100)` is the whole number of hundreds in `v` |
| GpsReplies.NmeaMinutes | sim7600x.py:578 | the minutes part lies in [0, 100) |
| GpsReplies.NmeaDecomposition | sim7600x.py:577-579 | a value written as `d*100 + m` with m in [0, 100) converts to `d + m/60` |
| GpsReplies.NmeaDecimalBounds | sim7600x.py:577-585 | the decimal degrees lie between the whole degrees and 100/60 above them |
| GpsReplies.Coordinate | sim7600x.py:579-587 | the coordinate is the converted value, negated exactly for `S` or `W` |
| GpsReplies.DirAt | sim7600x.py:565 | `[NS]` (or `[EW]`) yields one of its two letters |
| GpsReplies.CoordAt | sim7600x.py:565 | a coordinate field pair yields a well-formed numeral and one of the two hemisphere letters |
| GpsReplies.CoordOfRendered | sim7600x.py:565 | a rendered coordinate pair reads back |
| GpsReplies.DigitsAt | sim7600x.py:565 | the date field `(\d+)` is a non-empty digit run and a prefix of the text |
| GpsReplies.TimesAt | sim7600x.py:565 | date, time, altitude, speed and course read as well-formed fields |
| GpsReplies.TimesOfRendered | sim7600x.py:565 | the five rendered time fields read back |
| GpsReplies.CgpsinfoAt | sim7600x.py:564-567 | a matched report is well formed and starts with the `+CGPSINFO:` tag |
| GpsReplies.CgpsinfoRoundTrip | sim7600x.py:564-567 | a well-formed position report is found and read back in full |
| GpsReplies.PositionOfReport | sim7600x.py:569-597 | a report gives each coordinate in decimal degrees, negated exactly for `S` and `W`; altitude, speed and course are the parsed decimals; `"<date> <time>"`, a fix, and default satellites, HDOP and fix kind |
| GpsReplies.ClassifyCgpsinfo | sim7600x.py:564-604 | a recognised report is well formed |
| GpsReplies.ClassifyCgpsinfoCases | sim7600x.py:564-604 | a report exactly when the pattern matches somewhere; nothing exactly when the tag is absent |
| GpsReplies.ReportHasTag | sim7600x.py:564-604 | a matched report implies the reply contains the tag |
| GpsReplies.NumeralRunStops | sim7600x.py:640 | `[\d.]*` covers digits and points only and stops at the first other character |
| GpsReplies.NumeralField | sim7600x.py:640 | a `[\d.]*,` field holds only digits and points |
| GpsReplies.GgaFieldsAt | sim7600x.py:640 | the satellites and HDOP fields are well formed |
| GpsReplies.GgaAt | sim7600x.py:639-642 | a matched GGA sentence yields well-formed satellites and HDOP |
| GpsReplies.GgaFieldsOfRendered | sim7600x.py:640 | rendered satellites and HDOP fields read back as written |
| GpsReplies.GgaFieldsRoundTrip | sim7600x.py:639-649 | the satellites count reads back and the HDOP text reads as its decimal value |
| GpsReplies.EmptyHdop | sim7600x.py:646-649 | an empty HDOP field, where `float()` raises, reads as 0.0 |
| GpsReplies.SatellitesMentionRendered | sim7600x.py:652-654 | a count followed by the word "satellites" in any letter case is found |
| GpsReplies.FixTypeOf | sim7600x.py:618-625 | 3 exactly for "3D Fix", else 2 for "2D Fix", else 0 exactly for "Location Not Fix" or "Location Unknown", and no change exactly when none of the four phrases occurs |
| GpsReplies.RefineSatellitesFields | sim7600x.py:615-654 | the refinement changes only fix kind, satellites and HDOP; GGA sets satellites and HDOP, otherwise the configuration reply's count sets the satellites |
| ModemLogic.CommandLinesEach | sim7600x.py:297 | each command is written followed by CR LF, one write per command |
| ModemLogic.ExchangesChain | sim7600x.py:288-298 | two runs of exchanges, one after the other, write and read as one run of both |
| ModemLogic.NotConnectedReply | sim7600x.py:288-289 | the not-connected reply holds `ERROR` and no prompt, `OK`, `+CMGS:` or `CONNECT` |
| ModemLogic.Clamp | sim7600x.py:262-268 | `max(lo, min(hi, x))` lies in [lo, hi], equals x inside it, and is the nearer bound outside |
| ModemLogic.AudioDeviceCode | sim7600x.py:248-255 | a code exactly for headset, speaker and handset, and the code is 0, 1 or 3 |
| ModemLogic.AudioDeviceCodeInjective | sim7600x.py:248-252 | different device names select different outputs |
| ModemLogic.NetworkModeCode | sim7600x.py:799-806 | the code is one of 2, 38, 14 and 13, and any mode other than 4g, 3g and 2g falls back to automatic |
| ModemLogic.NetworkModeCodeInjective | sim7600x.py:799-804 | each named mode selects its own code |
| ModemLogic.ClassifyCases | sim7600x.py:342-369 | caller identification first, then `NO CARRIER`/`BUSY`, then `+CMTI`; each notice kind holds exactly when its check is the first that applies |
| ModemLogic.LineNotices | sim7600x.py:340-343 | one notice per line of the block |
| ModemLogic.NewMessages | sim7600x.py:363-367 | at most one read per line |
| ModemLogic.NoticeStep | sim7600x.py:342-369 | handling one more line extends the call, the events and the reads by that line's effect alone |
| ModemLogic.QuietNoticesKeepCall | sim7600x.py:342-369 | lines that are not about calls leave the call state and number unchanged |
| ModemLogic.LastCallNoticeWins | sim7600x.py:342-369 | after a block, the call is what its last call line made it |
| ModemLogic.NewMessagesAnnounced | sim7600x.py:363-367 | every message read comes from a `+CMTI` line carrying that index |
| ModemLogic.RingLine | sim7600x.py:346-351 | a caller-identification line makes the call incoming from that number |
| ModemLogic.UpdateNetworkKeepsPercent | sim7600x.py:694-712 | the cached signal stays a percentage |
| ModemLogic.UpdateNetworkDisconnected | sim7600x.py:694-718 | with the module unreachable no reply matches, and every cached network field is kept |
| ModemLogic.PositionReplacesRecord | sim7600x.py:569-600 | a report replaces the whole record with a fix; only the refinement may then set satellites, HDOP and fix kind |
| ModemLogic.NoFixKeepsPosition | sim7600x.py:601-608 | a bare `+CGPSINFO:` clears the fix and keeps position, altitude, speed, course and timestamp |
| ModemLogic.NoReportKeepsRecord | sim7600x.py:601-609 | a reply without the tag leaves the record untouched |
| ModemLogic.RefineKeepsSane | sim7600x.py:615-654 | the refinement keeps fix kind in {0, 2, 3} and HDOP non-negative |
| ModemLogic.PositionAfterKeepsSane | sim7600x.py:551-613 | every position query keeps the record sane |
| Modem.InfoFieldOfReply | sim7600x.py:862 | an identification reply that ends in `OK` and has no other `OK` gives its text, stripped |
| Modem.SelfTestExchanges | sim7600x.py:877-903 | the self-test's steps together are one run of its six commands in order |
| Modem.Sim7600x.constructor | sim7600x.py:100-111 | idle with no number, no position, unregistered, zero signal, no operator, no events |
| Modem.Sim7600x.SendAtCommand | sim7600x.py:277-314 | on an open line, the command and CR LF are written and the reply is the trimmed text of the read loop; on a closed line, `ERROR: Not connected` and nothing written |
| Modem.Sim7600x.SetAudioDevice | sim7600x.py:243-258 | an unknown device fails with nothing sent; a known one sends its code, and the result is whether the reply holds `OK` |
| Modem.Sim7600x.SetVolume | sim7600x.py:260-264 | the level sent is clamped to 0..5, and the result is whether the reply holds `OK` |
| Modem.Sim7600x.SetMicGain | sim7600x.py:266-270 | the gain sent is clamped to 0..15, and the result is whether the reply holds `OK` |
| Modem.Sim7600x.MuteMic | sim7600x.py:272-275 | `AT+CMUT=1` or `=0`, and the result is whether the reply holds `OK` |
| Modem.Sim7600x.Dial | sim7600x.py:373-392 | the number keeps only digits, `+`, `*` and `#`; with `OK` or `CONNECT` the call is dialling that number, otherwise nothing changes |
| Modem.Sim7600x.Answer | sim7600x.py:394-400 | with `OK` or `CONNECT` the call is active whatever its state, with its number kept; otherwise nothing changes |
| Modem.Sim7600x.Hangup | sim7600x.py:402-409 | only `OK` ends the call, from any state, clearing the number; otherwise nothing changes |
| Modem.Sim7600x.SendDtmf | sim7600x.py:411-414 | `AT+VTS=<tone>`, and the result is whether the reply holds `OK` |
| Modem.Sim7600x.HandleLine | sim7600x.py:343-369 | one line moves the call, raises the events and announces the reads its notice specifies |
| Modem.Sim7600x.ProcessUnsolicited | sim7600x.py:338-369 | a block moves the call, raises the events and announces the reads of its lines, in order |
| Modem.Sim7600x.HandleLines | sim7600x.py:342-369 | the loop over the lines applies every notice in order |
| Modem.Sim7600x.SubmitBody | sim7600x.py:444-458 | body and Ctrl-Z are written, and the result is whether the submission report arrived |
| Modem.Sim7600x.SendSms | sim7600x.py:422-460 | text mode, then `AT+CMGS` to the cleaned number; the body and Ctrl-Z are written only after a `>` prompt; the result is whether `+CMGS:` arrived, and false without a prompt |
| Modem.Sim7600x.ReadSms | sim7600x.py:462-488 | the message of the read reply at the asked index, or nothing when the reply does not match |
| Modem.Sim7600x.ReceiveSms | sim7600x.py:363-369 | an announced message is read and, when it matches, handed on as one event |
| Modem.Sim7600x.ListSms | sim7600x.py:490-516 | every entry of the list reply in order, none with a `+` in its body |
| Modem.Sim7600x.DeleteSms | sim7600x.py:518-521 | `AT+CMGD=<index>`, and the result is whether the reply holds `OK` |
| Modem.Sim7600x.DeleteAllSms | sim7600x.py:523-526 | `AT+CMGD=1,4`, and the result is whether the reply holds `OK` |
| Modem.Sim7600x.GpsPowerOn | sim7600x.py:530-543 | no power command when the status reply says `+CGPS: 1`; otherwise `AT+CGPS=1,1`, succeeding on `OK` |
| Modem.Sim7600x.GpsPowerOff | sim7600x.py:545-549 | the fix flag is cleared whether or not the module acknowledged |
| Modem.Sim7600x.UpdateGpsSatellites | sim7600x.py:615-654 | four exchanges in order, then the record refined from their replies |
| Modem.Sim7600x.ApplyPositionReply | sim7600x.py:569-608 | the record after the position reply, and the refinement exchanges exactly when the reply has the tag |
| Modem.Sim7600x.GetGpsPosition | sim7600x.py:551-613 | the new record is the specified update of the old one, and it is returned and announced as one event |
| Modem.Sim7600x.UpdateNetworkStatus | sim7600x.py:694-718 | registration, signal and operator each come from their reply when it matches, or are kept |
| Modem.Sim7600x.SetNetworkMode | sim7600x.py:789-809 | the mode's code, automatic for unknown modes, and the result is whether the reply holds `OK` |
| Modem.Sim7600x.ForceNetworkRegistration | sim7600x.py:811-818 | deregister, then register automatically; only the second reply decides the result |
| Modem.Sim7600x.GetImei | sim7600x.py:820-828 | the reply's stripped lines are searched in order: "" exactly when none is fifteen digits, otherwise the line at the first fifteen-digit position |
| Modem.Sim7600x.GetSimStatus | sim7600x.py:830-839 | the SIM status of the `AT+CPIN?` reply |
| Modem.Sim7600x.SendRawCommand | sim7600x.py:843-854 | one exchange with the caller's command and budget |
| Modem.Sim7600x.GetModuleInfo | sim7600x.py:856-875 | manufacturer, model and revision with `OK` removed and stripped, then the IMEI |
| Modem.Sim7600x.RunSelfTest | sim7600x.py:877-905 | the attention check, SIM READY, a network refresh and its registration, a positive signal, and `OK` from the GNSS query |
| Simulator.Without | sim7600x.py:980-982 | the comprehension never lengthens the table |
| Simulator.WithoutRemoves | sim7600x.py:980-982 | a message remains exactly when it was stored and carries another index |
| Simulator.WithoutAbsent | sim7600x.py:980-982 | deleting an index the table lacks leaves it unchanged |
| Simulator.WithoutEntry | sim7600x.py:980-982 | with increasing indices, deleting the k-th entry's index removes just that entry, the rest in order |
| Simulator.WithoutKeepsTable | sim7600x.py:980-982 | deletion keeps indices positive, increasing and below the counter |
| Simulator.SentKeepsTable | sim7600x.py:960-969 | storing under the counter and advancing it keeps indices positive, increasing and below the counter |
| Simulator.CounterIsFresh | sim7600x.py:960-969 | the counter never hands out an index that is still stored |
| Simulator.DriftBounds | sim7600x.py:994-1006 | with a fix, at most 0.0001 degree of movement per axis, 6 to 12 satellites, a 3D fix and 4 to 12.5 m accuracy; without a fix only the timestamp changes |
| Simulator.Sim7600xSimulator.constructor | sim7600x.py:912-934 | connected, 75 % signal, "Test Network", the San Francisco fix, the two stored messages and counter 3 |
| Simulator.Sim7600xSimulator.Connect | sim7600x.py:936-938 | always connects |
| Simulator.Sim7600xSimulator.Disconnect | sim7600x.py:940-941 | disconnects |
| Simulator.Sim7600xSimulator.Dial | sim7600x.py:946-949 | always dialling, with the number as given, unsanitised |
| Simulator.Sim7600xSimulator.Answer | sim7600x.py:951-953 | always active |
| Simulator.Sim7600xSimulator.Hangup | sim7600x.py:955-958 | always idle with no number |
| Simulator.Sim7600xSimulator.SendSms | sim7600x.py:960-969 | appends one sent entry under the counter, then advances it; the table invariant holds |
| Simulator.Sim7600xSimulator.ListSms | sim7600x.py:971-972 | the whole table, whatever status is asked |
| Simulator.Sim7600xSimulator.ReadSms | sim7600x.py:974-978 | nothing exactly when no entry has the index, else the first entry that has it |
| Simulator.Sim7600xSimulator.DeleteSms | sim7600x.py:980-982 | the table without that index; the invariant holds |
| Simulator.Sim7600xSimulator.GpsPowerOn | sim7600x.py:984-987 | a 3D fix, with the position kept |
| Simulator.Sim7600xSimulator.GpsPowerOff | sim7600x.py:989-992 | no fix, with the position kept |
| Simulator.Sim7600xSimulator.GetGpsPosition | sim7600x.py:994-1006 | the record drifts as the draws and clock say, and is returned |
| PhoneScreen.Unformat | ui/phone_screen.py:212-219 | removing the display punctuation yields a plain number |
| PhoneScreen.DisplayTenRoundTrip | ui/phone_screen.py:216-217 | `(abc) def-ghij` gives back the ten-character number |
| PhoneScreen.DisplaySevenRoundTrip | ui/phone_screen.py:218-219 | `abc-defg` gives back the seven-character number |
| PhoneScreen.DisplayRoundTrip | ui/phone_screen.py:212-219 | for every plain number, removing the punctuation from its display gives the number back |
| PhoneScreen.DisplayShape | ui/phone_screen.py:212-219 | ten characters gain `(`, `)`, ` ` and `-` at their places; seven gain `-`; any other length is shown unchanged |
| PhoneScreen.Pad2 | ui/phone_screen.py:321 | `{:02d}` is at least two digits |
| PhoneScreen.ClockRoundTrip | ui/phone_screen.py:319-321 | the `mm:ss` label, with mins = s div 60 and secs = s mod 60, reads back as s |
| PhoneScreen.ClockShape | ui/phone_screen.py:319-321 | below 100 minutes the label is five characters with `:` in the middle |
| PhoneScreen.PhoneScreen.constructor | ui/phone_screen.py:17-32 | empty number, no call, timer stopped at 0, dialer shown |
| PhoneScreen.PhoneScreen.OnDigit | ui/phone_screen.py:191-201 | in a call the key goes out as DTMF and the number is unchanged; otherwise appended only below 15 characters, so the length never exceeds 15 |
| PhoneScreen.PhoneScreen.OnBackspace | ui/phone_screen.py:203-207 | removes exactly the last character, only when not in a call and the number is non-empty |
| PhoneScreen.PhoneScreen.ClearNumber | ui/phone_screen.py:326-329 | empties the number and its display |
| PhoneScreen.PhoneScreen.UpdateCallTimer | ui/phone_screen.py:314-324 | while running, shows `Clock(s)`, counts one second and schedules one more tick; stopped, does nothing |
| PhoneScreen.PhoneScreen.Tick | ui/phone_screen.py:324 | a scheduled tick runs the update; a tick of a stopped timer ends its chain |
| PhoneScreen.PhoneScreen.StartCallTimerAsWritten | ui/phone_screen.py:303-307 | as written: restarts at 0, shows `00:00`, and adds a callback chain beside any still pending |
| PhoneScreen.PhoneScreen.StopCallTimerAsWritten | ui/phone_screen.py:309-312 | as written: stops and zeroes, leaving the pending callback scheduled |
| PhoneScreen.PhoneScreen.StartCallTimer | ui/phone_screen.py:303-307 | corrected: restarts at 0, shows `00:00`, and keeps exactly one chain |
| PhoneScreen.PhoneScreen.StopCallTimer | ui/phone_screen.py:309-312 | corrected: stops, zeroes and cancels the chain |
| PhoneScreen.PhoneScreen.OnDial | ui/phone_screen.py:223-244 | nothing with an empty number; dialled (or no modem): in call, call view, timer started beside any callback still pending, so one chain runs only if none was pending; refused: "Call failed" shown and every other field kept |
| PhoneScreen.PhoneScreen.OnAnswer | ui/phone_screen.py:246-255 | only with a modem; accepted: in call, not incoming, answer button hidden, timer started beside any callback still pending; refused: every field but the request log kept |
| PhoneScreen.PhoneScreen.EndCall | ui/phone_screen.py:275-283 | both flags false, the timer stopped at 0, `00:00` shown, the dialer back; a callback still pending stays scheduled; number and caller label kept |
| PhoneScreen.PhoneScreen.OnHangup | ui/phone_screen.py:257-262 | asks the modem to hang up whatever it answers, then ends the call as `_end_call` does, leaving the pending callback, the number and the caller label |
| PhoneScreen.PhoneScreen.OnIncomingCall | ui/phone_screen.py:264-269 | incoming, the number becomes the caller's, "Unknown" shown for an empty one |
| PhoneScreen.TimerRestartAsWritten | ui/phone_screen.py:223-324 | through the screen's handlers, dialling, hanging up and dialling again within a second leaves two chains, so two ticks count three seconds |
| PhoneScreen.TimerRestart | ui/phone_screen.py:303-324 | corrected: the same timer calls (start, stop, start) with cancelling keep one chain, and a second of ticks counts one second |
| SmsScreen.StatusTags | ui/sms_screen.py:282 | the two `STO` tags show as sent, the two `REC` tags as received |
| SmsScreen.ThreadOfAppend | ui/sms_screen.py:453-460 | appending adds exactly one entry at the end of that number's conversation, creating it if absent; other conversations unchanged |
| SmsScreen.GroupedBySender | ui/sms_screen.py:267-283 | every sender's conversation is exactly its listed messages in listing order, and a conversation exists exactly for the senders listed |
| SmsScreen.AbsorbKnows | ui/sms_screen.py:503-521 | after a message is considered its pair is known, and known pairs stay known |
| SmsScreen.AbsorbKeepsUnique | ui/sms_screen.py:503-521 | considering a message never introduces a repeated (content, timestamp) pair |
| SmsScreen.AbsorbAllKeepsUnique | ui/sms_screen.py:499-521 | a whole unread check never introduces a repeated pair |
| SmsScreen.AbsorbAllKnows | ui/sms_screen.py:499-521 | after the check every listed message is known |
| SmsScreen.AbsorbAllKnown | ui/sms_screen.py:499-531 | a listing of known messages changes nothing and deletes nothing |
| SmsScreen.CheckIdempotent | ui/sms_screen.py:491-531 | a second check of the same listing adds nothing and deletes nothing |
| SmsScreen.DeletionsAreNew | ui/sms_screen.py:529-531 | every deletion is of a positive index of a message that was new at its turn |
| SmsScreen.NewAreDeleted | ui/sms_screen.py:529-531 | every message that was new at its turn and has a positive index is deleted |
| SmsScreen.PreviewBounds | ui/sms_screen.py:330 | at most 35 characters then `...`: short content unchanged, long content cut to 35 plus `...`, always starting as the content |
| SmsScreen.ShortStampCutsHour | ui/sms_screen.py:343 | as written, `24/01/01,12:00:00` shows as `24/01/01,1` |
| SmsScreen.StampDateOfStamp | ui/sms_screen.py:343 | corrected: a `date,time` stamp shows as its date |
| SmsScreen.SmsScreen.constructor | ui/sms_screen.py:18-35 | loads the listing, shows the list and runs the first unread check |
| SmsScreen.SmsScreen.LoadMessages | ui/sms_screen.py:267-283 | with a modem the store becomes the listing grouped by sender; without one it is unchanged |
| SmsScreen.SmsScreen.ShowConversationList | ui/sms_screen.py:227-238 | no conversation open |
| SmsScreen.SmsScreen.ShowConversation | ui/sms_screen.py:240-252 | that number's conversation open |
| SmsScreen.SmsScreen.AppendEntry | ui/sms_screen.py:277-283 | creates the conversation if absent, then appends the entry |
| SmsScreen.SmsScreen.OnSmsReceived | ui/sms_screen.py:449-460 | appends one received entry to the sender's conversation |
| SmsScreen.SmsScreen.HasPair | ui/sms_screen.py:505-509 | the `any(...)` scan is true exactly when some entry has the same content and timestamp |
| SmsScreen.SmsScreen.CheckForNewSms | ui/sms_screen.py:491-531 | each unknown message is appended once as received, and the indices deleted are those the check specifies |
| SmsScreen.SmsScreen.SendMessage | ui/sms_screen.py:383-412 | nothing without an open conversation or a non-blank reply; sent (or no modem): one sent entry, draft cleared; refused: store unchanged and an error shown |
| SmsScreen.SmsScreen.SendComposedMessage | ui/sms_screen.py:414-447 | warnings for a blank recipient or message; sent (or no modem): one sent entry under the recipient, whose conversation opens; refused: store unchanged and an error shown |

## Left out

- Threads and locking: the monitor thread, its lock, `Event`, `join` and sleeps
  (sim7600x.py:319-336). Unsolicited text is handled as one sequential block. A `+CMTI`
  line yields the index to read instead of calling `read_sms` under the monitor's lock.
  In the code that nesting deadlocks: `_lock` is a plain, non-reentrant `threading.Lock`
  (sim7600x.py:123), held by the monitor (line 330) while `read_sms` reaches
  `_send_at_command`, which acquires it again (line 291). So `ReceiveSms` models the
  read the code intends, not what the monitor thread does.
- Serial I/O details: `serial.Serial`, `reset_input_buffer`, `in_waiting` and byte
  decoding. These are a scripted line and a write log; each read loop starts from fresh
  input. Exceptions inside the exchange, and the `ERROR: <exception>` reply, are not
  modelled.
- `connect`, `disconnect`, `_initialize_module` and `_setup_audio`: port opening and
  start-up command sequences, outside this core.
- `get_call_status`, `get_gps_satellites`, `get_gps_status`, `get_signal_strength`,
  `get_network_info`, `GPSData.to_dict`, the APN and PDP commands: accessors or
  commands outside this core.
- The simulator's overrides outside its call, SMS and GPS state are not modelled:
  `_send_at_command` returning `OK`, `get_module_info`, `run_self_test`, the APN and PDP
  stubs, `set_network_mode` and `force_network_registration` each return a constant, and
  `get_gps_status` (sim7600x.py:1008-1016) reports the current fix, fix kind, satellites,
  HDOP and accuracy from the GPS record.
- Text.Lower, Text.KeepOnly, AtReplies.FirstImei and the digit scanners are ASCII-only:
  only `0`-`9` are digits and only `A`-`Z` are lowered. Python 3's `\d`, `str.isdigit()`,
  `int()` and `str.lower()` also accept or change other Unicode text. The number filter of
  sim7600x.py:384 keeps other scripts' decimal digits, the IMEI test at line 826 accepts
  superscript digits, and the lowering at line 652 can change a text's length.
- Floating point: floats are exact reals, so binary rounding of `float()` and of the
  NMEA arithmetic is not modelled.
- Randomness and clocks: `random.uniform`, `random.randint` and `time.strftime` values are
  parameters (`Draw`, `now`).
- tkinter: widgets, colours, packing and message boxes are not modelled. The labels the
  logic sets are fields, and message boxes are an alert log.
- The conversation list's drawing order (`_refresh_conversation_list` sorts nothing; dict
  insertion order) is not modelled. Conversations are a `map`.
- `_refresh_messages`, `_manual_refresh` and the 10-second rescheduling of the unread check
  are not modelled. One call of the check is modelled, and its exception printing is
  left out.
- `_on_mute`, `_on_speaker` and `_show_dtmf_pad` are left out because their bodies are
  empty.
- PhoneScreen.PhoneScreen.OnDigit: a keypad key is one character, as the keypad sends.
- Modem.Sim7600x.UpdateGpsSatellites: the 0.5 s pause between exchanges is not modelled.
- Modem.Sim7600x.GpsPowerOn: the 2 s pause after power-on is not modelled.
- Modem.Sim7600x.ForceNetworkRegistration: the 2 s pause between exchanges is not
  modelled.
- Modem.Sim7600x.SendSms: the 3 s pause before the confirmation loop is not modelled, so
  text arriving during it counts as arriving at the first poll.
- `audio_bridge.py`, `main.py` and the other screens (`ui/components.py`,
  `ui/diagnostics_screen.py`, `ui/gps_screen.py`, `ui/theme.py`) are not part of this
  model.

## Findings

| source | as written | input that shows it | evidently intended | confidence | as-written member | corrected member |
|---|---|---|---|---|---|---|
| ui/phone_screen.py:303-324 | `_start_call_timer` and `_stop_call_timer` only flip a flag. A callback scheduled with `after(1000, …)` still runs, so restarting within a second starts a second chain. `_on_dial`, `_on_answer` and `_end_call` use these as written, and so do the model's handlers | dial, hang up, then dial again within one second: two chains run, and the duration counts two seconds per second | stopping the timer cancels its pending callback, so one chain runs | not executed | PhoneScreen.TimerRestartAsWritten | PhoneScreen.TimerRestart |
| ui/sms_screen.py:343 | `latest['timestamp'][:10]` | the module's stamp `24/01/01,12:00:00` shows as `24/01/01,1` | show the date part before the comma | not executed | SmsScreen.ShortStampCutsHour | SmsScreen.StampDateOfStamp |

/** The dialer screen of the phone: the number being typed, the call flags, the call-length
    timer driven by the toolkit's one-second callbacks, and the texts of the labels it
    updates. The modem is the controller of `Modem`, seen here only through the requests
    the screen makes and the answers it gets back. */
module PhoneScreen {
  import opened Text
  import opened Scan

  /** The dialer accepts at most this many characters. */
  const MaxDigits := 15

  // ---------------------------------------------------------------- number display

  predicate IsPunctuation(c: char)
  {
    c == '(' || c == ')' || c == ' ' || c == '-'
  }

  /** A number as typed or received: no display punctuation in it. */
  predicate Plain(s: string)
  {
    forall k :: 0 <= k < |s| ==> !IsPunctuation(s[k])
  }

  /** `_update_display`: ten characters as `(abc) def-ghij`, seven as `abc-defg`, any
      other length as typed. */
  function Display(n: string): string
  {
    if |n| == 10 then "(" + n[..3] + ") " + n[3..6] + "-" + n[6..]
    else if |n| == 7 then n[..3] + "-" + n[3..]
    else n
  }

  /** The display text with the punctuation taken out again. */
  function Unformat(d: string): (r: string)
    ensures Plain(r)
  {
    if d == [] then []
    else if IsPunctuation(d[0]) then Unformat(d[1..])
    else [d[0]] + Unformat(d[1..])
  }

  lemma {:induction false} UnformatAppend(a: string, b: string)
    ensures Unformat(a + b) == Unformat(a) + Unformat(b)
  {
    if a != [] {
      var ab := a + b;
      assert ab[0] == a[0] && ab[1..] == a[1..] + b;
      UnformatAppend(a[1..], b);
      if IsPunctuation(a[0]) {
        assert Unformat(ab) == Unformat(a[1..] + b);
      } else {
        assert Unformat(ab) == [a[0]] + Unformat(a[1..] + b);
      }
    } else {
      assert a + b == b;
    }
  }

  lemma {:induction false} UnformatPlain(s: string)
    requires Plain(s)
    ensures Unformat(s) == s
  {
    if s != [] {
      UnformatPlain(s[1..]);
      assert s == [s[0]] + s[1..];
    }
  }

  lemma UnformatTen(a: string, b: string, c: string)
    requires Plain(a) && Plain(b) && Plain(c)
    ensures Unformat("(" + a + ") " + b + "-" + c) == a + b + c
  {
    assert Unformat("(") == [] && Unformat(") ") == [] && Unformat("-") == [];
    var p := "(" + a;
    UnformatAppend("(", a);
    UnformatPlain(a);
    assert Unformat(p) == a;
    var q := p + ") ";
    UnformatAppend(p, ") ");
    assert Unformat(q) == a;
    var r := q + b;
    UnformatAppend(q, b);
    UnformatPlain(b);
    assert Unformat(r) == a + b;
    var t := r + "-";
    UnformatAppend(r, "-");
    assert Unformat(t) == a + b;
    UnformatAppend(t, c);
    UnformatPlain(c);
  }

  lemma DisplayTenRoundTrip(n: string)
    requires Plain(n) && |n| == 10
    ensures Unformat(Display(n)) == n
  {
    UnformatTen(n[..3], n[3..6], n[6..]);
    assert n[..3] + n[3..6] + n[6..] == n;
  }

  lemma DisplaySevenRoundTrip(n: string)
    requires Plain(n) && |n| == 7
    ensures Unformat(Display(n)) == n
  {
    var a, c := n[..3], n[3..];
    UnformatPlain(a);
    UnformatPlain(c);
    UnformatAppend(a, "-");
    UnformatAppend(a + "-", c);
    assert a + c == n;
  }

  /** The display only adds punctuation: taking it out gives back the number. */
  lemma DisplayRoundTrip(n: string)
    requires Plain(n)
    ensures Unformat(Display(n)) == n
  {
    if |n| == 10 {
      DisplayTenRoundTrip(n);
    } else if |n| == 7 {
      DisplaySevenRoundTrip(n);
    } else {
      UnformatPlain(n);
    }
  }

  /** Where the punctuation goes: four characters around a ten-character number, one
      dash in a seven-character number, none otherwise. */
  lemma DisplayShape(n: string)
    ensures |n| == 10 ==> |Display(n)| == 14 && Display(n)[0] == '(' && Display(n)[4] == ')'
                          && Display(n)[5] == ' ' && Display(n)[9] == '-'
    ensures |n| == 7 ==> |Display(n)| == 8 && Display(n)[3] == '-'
    ensures |n| != 10 && |n| != 7 ==> Display(n) == n
  {
  }

  // ---------------------------------------------------------------- call duration

  /** `f"{n:02d}"`: at least two digits, zero-padded. */
  function Pad2(n: nat): (r: string)
    ensures |r| >= 2 && AllDigits(r)
  {
    if n < 10 then "0" + NatToString(n) else NatToString(n)
  }

  /** The duration label: minutes and seconds of a count of seconds. */
  function Clock(s: nat): string
  {
    Pad2(s / 60) + ":" + Pad2(s % 60)
  }

  /** Reading a duration label back into seconds. */
  function ParseClock(t: string): Option<nat>
  {
    match Number(t)
    case None => None
    case Some(m) => ParseSeconds(m.value, m.rest)
  }

  /** The `:ss` part of a duration label after `mins` minutes. */
  function ParseSeconds(mins: nat, t: string): Option<nat>
  {
    match Lit(t, ":")
    case None => None
    case Some(r) =>
      match Number(r)
      case None => None
      case Some(sec) => if sec.rest == [] then Some(mins * 60 + sec.value) else None
  }

  lemma PaddedNumber(n: nat, tail: string)
    requires tail == [] || !IsDigit(tail[0])
    ensures Number(Pad2(n) + tail) == Some(Parsed(n, tail))
  {
    if n < 10 {
      var d := DigitChar(n);
      var s := Pad2(n) + tail;
      assert s == ['0', d] + tail;
      assert s[1..] == [d] + tail && s[1..][1..] == tail;
      assert DigitRun(tail) == 0;
      assert DigitRun(s) == 2;
      assert s[..2] == ['0', d] && s[2..] == tail;
      assert ['0', d][..1] == "0";
      assert DigitsValue("0") == 0;
    } else {
      NumberOfRendered(n, tail);
    }
  }

  lemma SecondsOfPadded(q: nat, r: nat)
    ensures ParseSeconds(q, ":" + Pad2(r)) == Some(q * 60 + r)
  {
    var sec := Pad2(r);
    assert Lit(":" + sec, ":") == Some(sec);
    assert sec + [] == sec;
    PaddedNumber(r, []);
  }

  lemma ParseOfPadded(q: nat, r: nat)
    ensures ParseClock(Pad2(q) + ":" + Pad2(r)) == Some(q * 60 + r)
  {
    var after := ":" + Pad2(r);
    assert Pad2(q) + ":" + Pad2(r) == Pad2(q) + after;
    PaddedNumber(q, after);
    SecondsOfPadded(q, r);
  }

  /** The label shows the minutes and the seconds within the minute, and reads back as
      the count it was drawn from. */
  lemma ClockRoundTrip(s: nat)
    ensures ParseClock(Clock(s)) == Some(s)
  {
    var q, r := s / 60, s % 60;
    assert q * 60 + r == s;
    assert Clock(s) == Pad2(q) + ":" + Pad2(r);
    ParseOfPadded(q, r);
  }

  /** Below 100 minutes the label is `mm:ss`. */
  lemma ClockShape(s: nat)
    requires s < 6000
    ensures |Clock(s)| == 5 && Clock(s)[2] == ':'
  {
    var m := s / 60;
    if m >= 10 {
      assert NatToString(m) == NatToString(m / 10) + [DigitChar(m % 10)];
    }
    var sec := s % 60;
    if sec >= 10 {
      assert NatToString(sec) == NatToString(sec / 10) + [DigitChar(sec % 10)];
    }
  }

  // ---------------------------------------------------------------- the screen

  /** What the screen asks of the modem. */
  datatype Request = Dtmf(key: char) | DialRequest(number: string) | AnswerRequest | HangupRequest

  /** Which of the two frames is packed. */
  datatype View = Dialer | InCall

  class PhoneScreen {
    /** Whether a modem was handed to the screen (the demo mode runs without one). */
    const hasModem: bool
    var phoneNumber: string
    var inCall: bool
    var incomingCall: bool
    var callSeconds: nat
    var timerRunning: bool
    /** Timer callbacks the toolkit has scheduled and not yet run; each runs a second
        after it was scheduled. */
    var pendingTicks: nat
    var numberShown: string
    var callerShown: string
    var statusShown: string
    var durationShown: string
    var view: View
    var answerShown: bool
    var requests: seq<Request>

    /** One callback chain while the timer runs, none while it is stopped: the duration
        advances by one per second. */
    ghost predicate Valid()
      reads this
    {
      pendingTicks == (if timerRunning then 1 else 0)
    }

    constructor (hasModem: bool)
      ensures Valid() && this.hasModem == hasModem
      ensures phoneNumber == "" && !inCall && !incomingCall && callSeconds == 0 && !timerRunning
      ensures numberShown == "" && callerShown == "" && statusShown == "" && durationShown == Clock(0)
      ensures view == Dialer && !answerShown && requests == []
    {
      this.hasModem := hasModem;
      phoneNumber := "";
      inCall := false;
      incomingCall := false;
      callSeconds := 0;
      timerRunning := false;
      pendingTicks := 0;
      numberShown := "";
      callerShown := "";
      statusShown := "";
      durationShown := "00:00";
      view := Dialer;
      answerShown := false;
      requests := [];
    }

    /** `_on_digit`: during a call the key goes out as a DTMF tone; otherwise it is
        appended while the number is shorter than the limit. */
    method OnDigit(key: char)
      modifies this`phoneNumber, this`numberShown, this`requests
      ensures inCall ==> phoneNumber == old(phoneNumber) && numberShown == old(numberShown)
                         && requests == old(requests) + (if hasModem then [Dtmf(key)] else [])
      ensures !inCall && |old(phoneNumber)| < MaxDigits ==>
                phoneNumber == old(phoneNumber) + [key] && numberShown == Display(phoneNumber)
                && requests == old(requests)
      ensures !inCall && |old(phoneNumber)| >= MaxDigits ==>
                phoneNumber == old(phoneNumber) && numberShown == old(numberShown) && requests == old(requests)
      ensures |old(phoneNumber)| <= MaxDigits ==> |phoneNumber| <= MaxDigits
    {
      if inCall {
        if hasModem {
          requests := requests + [Dtmf(key)];
        }
      } else if |phoneNumber| < MaxDigits {
        phoneNumber := phoneNumber + [key];
        numberShown := Display(phoneNumber);
      }
    }

    /** `_on_backspace`: drops the last character when not in a call. */
    method OnBackspace()
      modifies this`phoneNumber, this`numberShown
      ensures !old(inCall) && old(phoneNumber) != [] ==>
                old(phoneNumber) == phoneNumber + [old(phoneNumber)[|old(phoneNumber)| - 1]]
                && numberShown == Display(phoneNumber)
      ensures old(inCall) || old(phoneNumber) == [] ==>
                phoneNumber == old(phoneNumber) && numberShown == old(numberShown)
    {
      if !inCall && phoneNumber != [] {
        phoneNumber := phoneNumber[..|phoneNumber| - 1];
        numberShown := Display(phoneNumber);
      }
    }

    /** `clear_number`. */
    method ClearNumber()
      modifies this`phoneNumber, this`numberShown
      ensures phoneNumber == "" && numberShown == Display("")
    {
      phoneNumber := "";
      numberShown := Display(phoneNumber);
    }

    // ------------------------------------------------------------ call timer

    /** `_update_call_timer`: while running, show the elapsed time, count one second and
        schedule the next run. */
    method UpdateCallTimer()
      modifies this`durationShown, this`callSeconds, this`pendingTicks
      ensures old(timerRunning) ==> durationShown == Clock(old(callSeconds)) && callSeconds == old(callSeconds) + 1
                                    && pendingTicks == old(pendingTicks) + 1
      ensures !old(timerRunning) ==> durationShown == old(durationShown) && callSeconds == old(callSeconds)
                                     && pendingTicks == old(pendingTicks)
    {
      if !timerRunning {
        return;
      }
      durationShown := Clock(callSeconds);
      callSeconds := callSeconds + 1;
      pendingTicks := pendingTicks + 1;
    }

    /** The toolkit runs one scheduled timer callback. */
    method Tick()
      requires pendingTicks > 0
      modifies this`durationShown, this`callSeconds, this`pendingTicks
      ensures timerRunning ==> durationShown == Clock(old(callSeconds)) && callSeconds == old(callSeconds) + 1
                               && pendingTicks == old(pendingTicks)
      ensures !timerRunning ==> durationShown == old(durationShown) && callSeconds == old(callSeconds)
                                && pendingTicks == old(pendingTicks) - 1
      ensures old(Valid()) ==> Valid()
    {
      pendingTicks := pendingTicks - 1;
      UpdateCallTimer();
    }

    /** `_start_call_timer` as written: a callback still scheduled from an earlier run
        of the timer stays scheduled. */
    method StartCallTimerAsWritten()
      modifies this`durationShown, this`callSeconds, this`pendingTicks, this`timerRunning
      ensures timerRunning && callSeconds == 1 && durationShown == Clock(0)
      ensures pendingTicks == old(pendingTicks) + 1
    {
      callSeconds := 0;
      timerRunning := true;
      UpdateCallTimer();
    }

    /** `_stop_call_timer` as written: the scheduled callback is left to run. */
    method StopCallTimerAsWritten()
      modifies this`callSeconds, this`timerRunning
      ensures !timerRunning && callSeconds == 0
    {
      timerRunning := false;
      callSeconds := 0;
    }

    /** Starting the timer cancels any callback still scheduled, so one chain runs. */
    method StartCallTimer()
      modifies this`durationShown, this`callSeconds, this`pendingTicks, this`timerRunning
      ensures Valid() && timerRunning && callSeconds == 1 && durationShown == Clock(0)
    {
      pendingTicks := 0;
      callSeconds := 0;
      timerRunning := true;
      UpdateCallTimer();
    }

    /** Stopping the timer cancels its scheduled callback. */
    method StopCallTimer()
      modifies this`callSeconds, this`timerRunning, this`pendingTicks
      ensures Valid() && !timerRunning && callSeconds == 0
    {
      timerRunning := false;
      callSeconds := 0;
      pendingTicks := 0;
    }

    // ------------------------------------------------------------ calls

    /** `_on_dial`: nothing without a number; otherwise the call view and the timer
        start once the modem accepts the dial (or at once without a modem). The timer
        starts as written, beside any callback an earlier call left scheduled. */
    method OnDial(accepted: bool)
      modifies this`requests, this`inCall, this`callerShown, this`statusShown, this`view
      modifies this`durationShown, this`callSeconds, this`pendingTicks, this`timerRunning
      ensures old(phoneNumber) == [] ==> unchanged(this)
      ensures old(phoneNumber) != [] ==>
                requests == old(requests) + (if hasModem then [DialRequest(old(phoneNumber))] else [])
      ensures old(phoneNumber) != [] && (accepted || !hasModem) ==>
                inCall && callerShown == phoneNumber && statusShown == "Dialing..." && view == InCall
                && timerRunning && callSeconds == 1 && durationShown == Clock(0)
                && pendingTicks == old(pendingTicks) + 1
                && (Valid() <==> old(pendingTicks) == 0)
      ensures old(phoneNumber) != [] && hasModem && !accepted ==>
                statusShown == "Call failed"
                && inCall == old(inCall) && callerShown == old(callerShown) && view == old(view)
                && timerRunning == old(timerRunning) && callSeconds == old(callSeconds)
                && durationShown == old(durationShown) && pendingTicks == old(pendingTicks)
    {
      if phoneNumber == [] {
        return;
      }
      if hasModem {
        requests := requests + [DialRequest(phoneNumber)];
        if !accepted {
          statusShown := "Call failed";
          return;
        }
      }
      inCall := true;
      callerShown := phoneNumber;
      statusShown := "Dialing...";
      view := InCall;
      StartCallTimerAsWritten();
    }

    /** `_on_answer`: only with a modem, and only once it accepts; the timer starts as
        written. */
    method OnAnswer(accepted: bool)
      modifies this`requests, this`inCall, this`incomingCall, this`statusShown, this`answerShown
      modifies this`durationShown, this`callSeconds, this`pendingTicks, this`timerRunning
      ensures !hasModem ==> unchanged(this)
      ensures hasModem ==> requests == old(requests) + [AnswerRequest]
      ensures hasModem && accepted ==>
                inCall && !incomingCall && statusShown == "Connected" && !answerShown
                && timerRunning && callSeconds == 1 && durationShown == Clock(0)
                && pendingTicks == old(pendingTicks) + 1
                && (Valid() <==> old(pendingTicks) == 0)
      ensures hasModem && !accepted ==>
                inCall == old(inCall) && incomingCall == old(incomingCall)
                && statusShown == old(statusShown) && answerShown == old(answerShown)
                && timerRunning == old(timerRunning) && callSeconds == old(callSeconds)
                && durationShown == old(durationShown) && pendingTicks == old(pendingTicks)
    {
      if hasModem {
        requests := requests + [AnswerRequest];
        if accepted {
          inCall := true;
          incomingCall := false;
          statusShown := "Connected";
          answerShown := false;
          StartCallTimerAsWritten();
        }
      }
    }

    /** `_end_call`: both call flags drop, the timer stops and the dialer returns. The
        stop is as written: a callback still scheduled stays scheduled, and runs as a
        no-op unless a new call starts the timer first. */
    method EndCall()
      modifies this`inCall, this`incomingCall, this`callSeconds, this`timerRunning
      modifies this`statusShown, this`durationShown, this`answerShown, this`view
      ensures !inCall && !incomingCall && !timerRunning && callSeconds == 0
      ensures pendingTicks == old(pendingTicks)
      ensures statusShown == "" && durationShown == Clock(0) && !answerShown && view == Dialer
    {
      inCall := false;
      incomingCall := false;
      StopCallTimerAsWritten();
      statusShown := "";
      durationShown := "00:00";
      answerShown := false;
      view := Dialer;
    }

    /** `_on_hangup`: ask the modem to hang up, whatever it answers, and end the call. */
    method OnHangup()
      modifies this`requests, this`inCall, this`incomingCall, this`callSeconds, this`timerRunning
      modifies this`statusShown, this`durationShown, this`answerShown, this`view
      ensures requests == old(requests) + (if hasModem then [HangupRequest] else [])
      ensures !inCall && !incomingCall && !timerRunning && callSeconds == 0
      ensures pendingTicks == old(pendingTicks)
      ensures statusShown == "" && durationShown == Clock(0) && !answerShown && view == Dialer
    {
      if hasModem {
        requests := requests + [HangupRequest];
      }
      EndCall();
    }

    /** `_on_incoming_call`: the caller's number replaces what was typed and the answer
        button appears. */
    method OnIncomingCall(number: string)
      modifies this`incomingCall, this`phoneNumber, this`callerShown, this`view, this`answerShown, this`statusShown
      ensures incomingCall && phoneNumber == number
      ensures callerShown == (if number == "" then "Unknown" else number)
      ensures view == InCall && answerShown && statusShown == "Incoming Call"
    {
      incomingCall := true;
      phoneNumber := number;
      callerShown := if number == "" then "Unknown" else number;
      view := InCall;
      answerShown := true;
      statusShown := "Incoming Call";
    }
  }

  /** Dialling, hanging up and dialling again within a second, through the screen's own
      handlers: the first call's callback is still scheduled when the second call
      schedules its own, so two chains count the same call and one second of ticks adds
      two. */
  method TimerRestartAsWritten() returns (p: PhoneScreen)
    ensures p.inCall && p.timerRunning && p.pendingTicks == 2 && p.callSeconds == 3 && !p.Valid()
  {
    p := new PhoneScreen(true);
    p.OnDigit('5');
    p.OnDial(true);
    p.OnHangup();
    p.OnDial(true);
    p.Tick();
    p.Tick();
  }

  /** The timer calls of that sequence (start, stop, start, then a second of ticks) with
      the cancelling timer: one chain, one second per second. */
  method TimerRestart() returns (p: PhoneScreen)
    ensures p.timerRunning && p.pendingTicks == 1 && p.callSeconds == 2 && p.durationShown == Clock(1)
    ensures p.Valid()
  {
    p := new PhoneScreen(true);
    p.StartCallTimer();
    p.StopCallTimer();
    p.StartCallTimer();
    p.Tick();
  }
}

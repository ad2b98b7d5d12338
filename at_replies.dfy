/** Reply grammars of the network, SIM, identity and call-notification commands
    (sections 7.2, 7.3, 7.18, 8.3 and 8.5 of 3GPP TS 27.007, and `+CMTI` of section 3.4.1
    of 3GPP TS 27.005), as the driver reads them out of the reply text. */
module AtReplies {
  import opened Text
  import opened Scan

  // ---------------------------------------------------------------- +CREG

  /** `\+CREG:\s*\d+,(\d+)` at the front of `s`: the registration <stat>. */
  function CregAt(s: string): Option<nat>
  {
    var t :- Lit(s, "+CREG:");
    var n :- Number(Spaces(t));
    var u :- Lit(n.rest, ",");
    var stat :- Number(u);
    Some(stat.value)
  }

  /** The registration status in a reply to `AT+CREG?`, if the reply has one. */
  function ParseCreg(reply: string): Option<nat>
  {
    Search(reply, CregAt)
  }

  /** Registered on the home network (1) or roaming (5). */
  predicate IsRegistered(stat: nat)
  {
    stat == 1 || stat == 5
  }

  function RenderCreg(mode: nat, stat: nat): string
  {
    "+CREG: " + NatToString(mode) + "," + NatToString(stat)
  }

  /** The driver reads back the <stat> of a well-formed `+CREG` reply. */
  lemma CregRoundTrip(mode: nat, stat: nat, tail: string)
    requires tail == [] || !IsDigit(tail[0])
    ensures ParseCreg(RenderCreg(mode, stat) + tail) == Some(stat)
  {
    var m, st := NatToString(mode), NatToString(stat);
    var s := RenderCreg(mode, stat) + tail;
    var u := st + tail;
    var t := " " + (m + ("," + u));
    assert s == "+CREG:" + t;
    assert Lit(s, "+CREG:") == Some(t);
    SpacesOfRendered(" ", m + ("," + u));
    NumberOfRendered(mode, "," + u);
    assert Lit("," + u, ",") == Some(u);
    NumberOfRendered(stat, tail);
    assert CregAt(s) == Some(stat);
    SearchAtStart(s, CregAt);
  }

  // ---------------------------------------------------------------- +CSQ

  /** `\+CSQ:\s*(\d+),` at the front of `s`: the raw <rssi>. */
  function CsqAt(s: string): Option<nat>
  {
    var t :- Lit(s, "+CSQ:");
    var rssi :- Number(Spaces(t));
    var _ :- Lit(rssi.rest, ",");
    Some(rssi.value)
  }

  function ParseCsq(reply: string): Option<nat>
  {
    Search(reply, CsqAt)
  }

  /** Signal strength in percent: 99 (not known) is 0, otherwise the rssi scaled from
      0..31 to 0..100, rounded down and capped at 100. */
  function SignalPercent(rssi: nat): (p: nat)
    ensures p <= 100
    ensures rssi == 99 ==> p == 0
    ensures rssi != 99 && rssi <= 31 ==> p * 31 <= rssi * 100 < (p + 1) * 31
    ensures rssi != 99 && rssi >= 31 ==> p == 100
  {
    if rssi == 99 then 0
    else if rssi * 100 / 31 < 100 then rssi * 100 / 31
    else 100
  }

  /** The end points of the scale, and that a stronger reading never shows fewer percent. */
  lemma SignalPercentScale(a: nat, b: nat)
    requires a <= b <= 31
    ensures SignalPercent(0) == 0 && SignalPercent(31) == 100
    ensures SignalPercent(a) <= SignalPercent(b)
  {
    var pa, pb := SignalPercent(a), SignalPercent(b);
    assert pa * 31 <= a * 100 <= b * 100 < (pb + 1) * 31;
  }

  function RenderCsq(rssi: nat, ber: nat): string
  {
    "+CSQ: " + NatToString(rssi) + "," + NatToString(ber)
  }

  lemma CsqRoundTrip(rssi: nat, ber: nat, tail: string)
    ensures ParseCsq(RenderCsq(rssi, ber) + tail) == Some(rssi)
  {
    var r, b := NatToString(rssi), NatToString(ber);
    var s := RenderCsq(rssi, ber) + tail;
    assert s == "+CSQ:" + (" " + (r + ("," + (b + tail))));
    SpacesOfRendered(" ", r + ("," + (b + tail)));
    NumberOfRendered(rssi, "," + (b + tail));
    assert CsqAt(s) == Some(rssi);
    SearchAtStart(s, CsqAt);
  }

  // ---------------------------------------------------------------- +COPS

  /** `\+COPS:\s*\d+,\d+,"([^"]*)"` at the front of `s`: the operator name. */
  function CopsAt(s: string): Option<string>
  {
    var t :- Lit(s, "+COPS:");
    var mode :- Number(Spaces(t));
    CopsAfterMode(mode.rest)
  }

  /** `,\d+,"([^"]*)"`: the part of the `+COPS` grammar after <mode>. */
  function CopsAfterMode(s: string): Option<string>
  {
    var u :- Lit(s, ",");
    var format :- Number(u);
    var v :- Lit(format.rest, ",");
    var name :- Quoted(v);
    Some(name.value)
  }

  function ParseCops(reply: string): Option<string>
  {
    Search(reply, CopsAt)
  }

  function RenderCops(mode: nat, format: nat, name: string): string
  {
    "+COPS: " + NatToString(mode) + "," + NatToString(format) + ",\"" + name + "\""
  }

  lemma CopsRoundTrip(mode: nat, format: nat, name: string, tail: string)
    requires '"' !in name
    ensures ParseCops(RenderCops(mode, format, name) + tail) == Some(name)
  {
    var m, f := NatToString(mode), NatToString(format);
    var afterMode := "," + f + ",\"" + name + "\"" + tail;
    var s := RenderCops(mode, format, name) + tail;
    assert s == "+COPS:" + (" " + (m + afterMode));
    SpacesOfRendered(" ", m + afterMode);
    NumberOfRendered(mode, afterMode);
    CopsAfterModeOfRendered(format, name, tail);
    assert CopsAt(s) == Some(name);
    SearchAtStart(s, CopsAt);
  }

  lemma CopsAfterModeOfRendered(format: nat, name: string, tail: string)
    requires '"' !in name
    ensures CopsAfterMode("," + NatToString(format) + ",\"" + name + "\"" + tail) == Some(name)
  {
    var f := NatToString(format);
    var q := "\"" + name + "\"" + tail;
    var u := f + ("," + q);
    var s := "," + f + ",\"" + name + "\"" + tail;
    assert s == "," + u;
    assert Lit(s, ",") == Some(u);
    NumberOfRendered(format, "," + q);
    assert Lit("," + q, ",") == Some(q);
    QuotedOfRendered(name, tail);
  }

  // ---------------------------------------------------------------- +CLIP

  /** `\+CLIP:\s*"([^"]*)"` at the front of `s`: the calling number. */
  function ClipAt(s: string): Option<string>
  {
    var t :- Lit(s, "+CLIP:");
    var number :- Quoted(Spaces(t));
    Some(number.value)
  }

  function ParseClip(line: string): Option<string>
  {
    Search(line, ClipAt)
  }

  /** A caller-identification line as the modem sends it (section 7.18 of 3GPP TS 27.007). */
  function RenderClip(number: string): string
  {
    "+CLIP: \"" + number + "\",145,,,,0"
  }

  lemma ClipRoundTrip(number: string)
    requires '"' !in number
    ensures ParseClip(RenderClip(number)) == Some(number)
  {
    var s := RenderClip(number);
    var tail := ",145,,,,0";
    assert s == "+CLIP:" + (" " + ("\"" + number + "\"" + tail));
    SpacesOfRendered(" ", "\"" + number + "\"" + tail);
    QuotedOfRendered(number, tail);
    assert ClipAt(s) == Some(number);
    SearchAtStart(s, ClipAt);
  }

  // ---------------------------------------------------------------- +CMTI

  /** `\+CMTI:\s*"[^"]*",(\d+)` at the front of `s`: the storage index of a new message. */
  function CmtiAt(s: string): Option<nat>
  {
    var t :- Lit(s, "+CMTI:");
    var mem :- Quoted(Spaces(t));
    var u :- Lit(mem.rest, ",");
    var index :- Number(u);
    Some(index.value)
  }

  function ParseCmti(line: string): Option<nat>
  {
    Search(line, CmtiAt)
  }

  /** A new-message indication as the modem sends it (section 3.4.1 of 3GPP TS 27.005). */
  function RenderCmti(mem: string, index: nat): string
  {
    "+CMTI: \"" + mem + "\"," + NatToString(index)
  }

  lemma CmtiRoundTrip(mem: string, index: nat)
    requires '"' !in mem
    ensures ParseCmti(RenderCmti(mem, index)) == Some(index)
  {
    var s := RenderCmti(mem, index);
    var k := NatToString(index);
    var q := "\"" + mem + "\"" + ("," + k);
    assert s == "+CMTI:" + (" " + q);
    assert Lit(s, "+CMTI:") == Some(" " + q);
    SpacesOfRendered(" ", q);
    QuotedOfRendered(mem, "," + k);
    assert Lit("," + k, ",") == Some(k);
    NumberOfRendered(index, "");
    assert k + "" == k;
    assert CmtiAt(s) == Some(index);
    SearchAtStart(s, CmtiAt);
  }

  // ---------------------------------------------------------------- +CPIN

  /** The SIM status the driver reports for a reply to `AT+CPIN?`; the first rule that
      applies wins. */
  function SimStatus(reply: string): (status: string)
    ensures status in {"READY", "PIN REQUIRED", "NO SIM", "UNKNOWN"}
    ensures status == "READY" <==> Contains(reply, "+CPIN: READY")
    ensures status == "PIN REQUIRED" <==> !Contains(reply, "+CPIN: READY") && Contains(reply, "+CPIN: SIM PIN")
    ensures status == "NO SIM" <==>
      !Contains(reply, "+CPIN: READY") && !Contains(reply, "+CPIN: SIM PIN") && Contains(reply, "ERROR")
  {
    if Contains(reply, "+CPIN: READY") then "READY"
    else if Contains(reply, "+CPIN: SIM PIN") then "PIN REQUIRED"
    else if Contains(reply, "ERROR") then "NO SIM"
    else "UNKNOWN"
  }

  // ---------------------------------------------------------------- +GSN

  predicate IsImei(line: string)
  {
    AllDigits(line) && |line| == 15
  }

  /** The first of the (stripped) lines that is exactly fifteen digits; "" when none is. */
  function FirstImei(lines: seq<string>): (imei: string)
    ensures imei == "" || IsImei(imei)
  {
    if lines == [] then ""
    else if IsImei(lines[0]) then lines[0]
    else FirstImei(lines[1..])
  }

  /** FirstImei finds a fifteen-digit line exactly when there is one, and what it returns is the
      line at the first such position: no earlier line is fifteen digits. */
  lemma {:induction false} FirstImeiSpec(lines: seq<string>)
    ensures FirstImei(lines) != "" <==> exists k :: 0 <= k < |lines| && IsImei(lines[k])
    ensures FirstImei(lines) != "" ==>
      exists k :: 0 <= k < |lines| && lines[k] == FirstImei(lines) &&
        forall j :: 0 <= j < k ==> !IsImei(lines[j])
  {
    if lines == [] {
    } else if IsImei(lines[0]) {
      assert lines[0] == FirstImei(lines);
    } else {
      var rest := lines[1..];
      FirstImeiSpec(rest);
      if exists k :: 0 <= k < |lines| && IsImei(lines[k]) {
        var k :| 0 <= k < |lines| && IsImei(lines[k]);
        assert rest[k - 1] == lines[k];
      }
      if FirstImei(lines) != "" {
        var k :| 0 <= k < |rest| && rest[k] == FirstImei(rest) &&
          forall j :: 0 <= j < k ==> !IsImei(rest[j]);
        assert lines[k + 1] == FirstImei(lines);
        forall j | 0 <= j < k + 1
          ensures !IsImei(lines[j])
        {
          if j > 0 { assert lines[j] == rest[j - 1]; }
        }
      }
    }
  }

  function StripAll(lines: seq<string>): (r: seq<string>)
    ensures |r| == |lines|
    ensures forall k :: 0 <= k < |lines| ==> r[k] == Strip(lines[k])
  {
    if lines == [] then [] else [Strip(lines[0])] + StripAll(lines[1..])
  }

  /** The IMEI in a reply to `AT+GSN` (section 5.4 of 3GPP TS 27.007), or "". */
  function ParseImei(reply: string): string
  {
    FirstImei(ImeiLines(reply))
  }

  /** The stripped lines of a reply, in the order the IMEI search visits them. */
  function ImeiLines(reply: string): seq<string>
  {
    StripAll(Split(Strip(reply), '\n'))
  }

  /** The usual reply, the fifteen digits followed by the result code, yields the IMEI. */
  lemma ImeiRoundTrip(imei: string)
    requires IsImei(imei)
    ensures ParseImei(imei + "\r\n\r\nOK") == imei
  {
    var reply := imei + "\r\n\r\nOK";
    assert !IsSpace(reply[0]) by {
      assert reply[0] == imei[0];
    }
    assert TrimStart(reply) == reply;
    assert TrimEnd(reply) == reply;
    var i := |imei| + 1;
    assert reply[i] == '\n';
    assert forall k :: 0 <= k < i ==> reply[k] != '\n' by {
      forall k | 0 <= k < i ensures reply[k] != '\n' {
        if k < |imei| {
          assert reply[k] == imei[k];
        }
      }
    }
    assert '\n' in reply;
    assert IndexOf(reply, '\n') == i;
    assert reply[..i] == imei + "\r";
    var parts := Split(reply, '\n');
    assert parts[0] == imei + "\r";
    StripTrailingCr(imei);
  }

  lemma StripTrailingCr(d: string)
    requires AllDigits(d)
    ensures Strip(d + "\r") == d
  {
    var t := d + "\r";
    assert !IsSpace(t[0]) by {
      assert t[0] == d[0];
    }
    assert TrimStart(t) == t;
    assert !IsSpace(d[|d| - 1]) by {
      assert IsDigit(d[|d| - 1]);
    }
    TrimEndSpaces(d, "\r");
  }
}

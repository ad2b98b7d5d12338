/** Text-mode SMS reply grammars: `+CMGR` (read, section 3.4.3 of 3GPP TS 27.005) and
    `+CMGL` (list, section 3.4.2), as the driver cuts them out of the reply text. */
module SmsReplies {
  import opened Text
  import opened Scan

  /** A stored message: storage index, status tag ("REC UNREAD", "REC READ", "STO UNSENT",
      "STO SENT"), sender, modem-native timestamp and body. */
  datatype SmsMessage = SmsMessage(index: int, status: string, sender: string, timestamp: string, content: string)

  datatype Header = Header(status: string, sender: string, timestamp: string)

  /** `"([^"]*)","([^"]*)","[^"]*","([^"]*)"`: status, sender, (alpha, skipped), timestamp. */
  function HeaderAt(s: string): (r: Option<Parsed<Header>>)
    ensures r.Some? ==> |r.value.rest| < |s|
  {
    var status :- Quoted(s);
    var a :- Lit(status.rest, ",");
    var sender :- Quoted(a);
    var b :- Lit(sender.rest, ",");
    var alpha :- Quoted(b);
    var c :- Lit(alpha.rest, ",");
    var stamp :- Quoted(c);
    Some(Parsed(Header(status.value, sender.value, stamp.value), stamp.rest))
  }

  function Quote(q: string): string
  {
    "\"" + q + "\""
  }

  /** The header fields as the modem writes them, followed by `tail`. */
  function RenderHeaderThen(h: Header, tail: string): string
  {
    Quote(h.status) + ("," + (Quote(h.sender) + ("," + (Quote("") + ("," + (Quote(h.timestamp) + tail))))))
  }

  predicate HeaderFieldsPlain(h: Header)
  {
    '"' !in h.status && '"' !in h.sender && '"' !in h.timestamp
  }

  lemma FieldThenComma(q: string, t: string)
    requires '"' !in q
    ensures Quoted(Quote(q) + ("," + t)) == Some(Parsed(q, "," + t))
    ensures Lit("," + t, ",") == Some(t)
  {
    QuotedOfRendered(q, "," + t);
    assert ("," + t)[1..] == t;
  }

  lemma HeaderRoundTrip(h: Header, tail: string)
    requires HeaderFieldsPlain(h)
    ensures HeaderAt(RenderHeaderThen(h, tail)) == Some(Parsed(h, tail))
  {
    var t3 := Quote(h.timestamp) + tail;
    var t2 := Quote("") + ("," + t3);
    var t1 := Quote(h.sender) + ("," + t2);
    FieldThenComma(h.status, t1);
    FieldThenComma(h.sender, t2);
    FieldThenComma("", t3);
    QuotedOfRendered(h.timestamp, tail);
  }

  // ---------------------------------------------------------------- +CMGR

  /** `.*?\r\n(.+)` with `.` matching line ends: everything after the first line end that
      is followed by at least one character. */
  function ReadBody(s: string): Option<string>
  {
    if CRLF <= s && |s| > 2 then Some(s[2..])
    else if s == [] then None
    else ReadBody(s[1..])
  }

  datatype CmgrMatch = CmgrMatch(header: Header, body: string)

  /** `\+CMGR:\s*"([^"]*)","([^"]*)","[^"]*","([^"]*)".*?\r\n(.+)` at the front of `s`. */
  function CmgrAt(s: string): Option<CmgrMatch>
  {
    var t :- Lit(s, "+CMGR:");
    var h :- HeaderAt(Spaces(t));
    var body :- ReadBody(h.rest);
    Some(CmgrMatch(h.value, body))
  }

  /** The message `read_sms(index)` returns for a reply to `AT+CMGR=<index>`: the index
      asked for, the header fields, and the stripped body with CR LF turned into LF. */
  function ParseCmgr(reply: string, index: int): Option<SmsMessage>
  {
    match Search(reply, CmgrAt)
    case None => None
    case Some(m) => Some(SmsMessage(index, m.header.status, m.header.sender, m.header.timestamp, ReplaceCrlf(Strip(m.body))))
  }

  function RenderCmgr(h: Header, body: string): string
  {
    "+CMGR:" + (" " + RenderHeaderThen(h, CRLF + body))
  }

  lemma CmgrAtRendered(h: Header, body: string)
    requires HeaderFieldsPlain(h) && body != []
    ensures CmgrAt(RenderCmgr(h, body)) == Some(CmgrMatch(h, body))
  {
    var s := RenderCmgr(h, body);
    var afterHeader := CRLF + body;
    assert s[6..] == " " + RenderHeaderThen(h, afterHeader);
    assert Lit(s, "+CMGR:") == Some(" " + RenderHeaderThen(h, afterHeader));
    SpacesOfRendered(" ", RenderHeaderThen(h, afterHeader));
    HeaderRoundTrip(h, afterHeader);
    assert afterHeader[2..] == body;
    assert ReadBody(afterHeader) == Some(body);
  }

  /** A read reply reads back as its header and its body, with CR LF pairs turned into LF. */
  lemma CmgrRoundTrip(h: Header, body: string, index: int)
    requires HeaderFieldsPlain(h)
    requires body != [] && !IsSpace(body[0]) && !IsSpace(body[|body| - 1])
    ensures ParseCmgr(RenderCmgr(h, body), index) == Some(SmsMessage(index, h.status, h.sender, h.timestamp, ReplaceCrlf(body)))
  {
    CmgrAtRendered(h, body);
    SearchAtStart(RenderCmgr(h, body), CmgrAt);
    assert TrimStart(body) == body;
    assert TrimEnd(body) == body;
  }

  // ---------------------------------------------------------------- +CMGL

  /** Length of the leading run of characters other than `+`. */
  function NonPlusRun(s: string): (n: nat)
    ensures n <= |s|
  {
    if s != [] && s[0] != '+' then 1 + NonPlusRun(s[1..]) else 0
  }

  /** The run holds no `+` and stops at the first one. */
  lemma {:induction false} NonPlusRunStops(s: string)
    ensures forall k :: 0 <= k < NonPlusRun(s) ==> s[k] != '+'
    ensures NonPlusRun(s) == |s| || s[NonPlusRun(s)] == '+'
  {
    if s != [] && s[0] != '+' {
      NonPlusRunStops(s[1..]);
      forall k | 0 <= k < NonPlusRun(s) ensures s[k] != '+' {
        if k > 0 { assert s[k] == s[1..][k - 1]; }
      }
    }
  }

  /** The run over a text without `+` followed by a `+` or nothing is exactly that text. */
  lemma NonPlusRunOver(b: string, tail: string)
    requires '+' !in b
    requires tail == [] || tail[0] == '+'
    ensures NonPlusRun(b + tail) == |b|
    ensures (b + tail)[..|b|] == b && (b + tail)[|b|..] == tail
  {
    var s := b + tail;
    assert forall k :: 0 <= k < |b| ==> s[k] == b[k];
    assert |b| < |s| ==> s[|b|] == tail[0];
    NonPlusRunStops(s);
  }

  /** `.*?\r\n([^\+]+)` with `.` matching line ends: the first line end followed by a
      character other than `+`, and the run of such characters after it. */
  function ListBody(s: string): (r: Option<Parsed<string>>)
    ensures r.Some? ==> |r.value.rest| < |s| && '+' !in r.value.value
  {
    if CRLF <= s && |s| > 2 && s[2] != '+' then
      NonPlusRunStops(s[2..]);
      var n := NonPlusRun(s[2..]);
      Some(Parsed(s[2..2 + n], s[2 + n..]))
    else if s == [] then None
    else ListBody(s[1..])
  }

  /** `\+CMGL:\s*(\d+),"([^"]*)","([^"]*)","[^"]*","([^"]*)".*?\r\n([^\+]+)` at the front
      of `s`; yields the message and the text after the match. */
  function CmglAt(s: string): (r: Option<Parsed<SmsMessage>>)
    ensures r.Some? ==> |r.value.rest| < |s| && '+' !in r.value.value.content
  {
    var t :- Lit(s, "+CMGL:");
    var index :- Number(Spaces(t));
    var u :- Lit(index.rest, ",");
    var h :- HeaderAt(u);
    var body :- ListBody(h.rest);
    StripNoPlus(body.value);
    Some(Parsed(SmsMessage(index.value, h.value.status, h.value.sender, h.value.timestamp, Strip(body.value)), body.rest))
  }

  /** Python's `re.findall` over a list reply: matches are taken left to right, each search
      resuming where the previous match ended. */
  function ParseCmgl(reply: string): (ms: seq<SmsMessage>)
    decreases |reply|
  {
    if reply == [] then []
    else
      match CmglAt(reply)
      case Some(p) => [p.value] + ParseCmgl(p.rest)
      case None => ParseCmgl(reply[1..])
  }

  lemma StripNoPlus(b: string)
    requires '+' !in b
    ensures '+' !in Strip(b)
  {
    StripIsSlice(b);
  }

  /** A listed body never contains `+`: the list grammar ends each body at the first `+`. */
  lemma {:induction false} ListedBodiesHaveNoPlus(reply: string)
    ensures forall k :: 0 <= k < |ParseCmgl(reply)| ==> '+' !in ParseCmgl(reply)[k].content
    decreases |reply|
  {
    if reply != [] {
      match CmglAt(reply)
      case Some(p) => ListedBodiesHaveNoPlus(p.rest);
      case None => ListedBodiesHaveNoPlus(reply[1..]);
    }
  }

  /** A message the list grammar can carry back unchanged. */
  predicate Listable(m: SmsMessage)
  {
    m.index >= 0 && HeaderFieldsPlain(Header(m.status, m.sender, m.timestamp))
    && m.content != [] && '+' !in m.content
    && !IsSpace(m.content[0]) && !IsSpace(m.content[|m.content| - 1])
  }

  /** One entry of a list reply, as the modem writes it, followed by `tail`. */
  function RenderCmglEntryThen(m: SmsMessage, tail: string): string
    requires m.index >= 0
  {
    "+CMGL:" + (" " + (NatToString(m.index) + ("," + RenderHeaderThen(Header(m.status, m.sender, m.timestamp),
      CRLF + (m.content + (CRLF + tail))))))
  }

  function RenderCmgl(ms: seq<SmsMessage>): string
    requires forall k :: 0 <= k < |ms| ==> Listable(ms[k])
  {
    if ms == [] then "" else assert Listable(ms[0]); RenderCmglEntryThen(ms[0], RenderCmgl(ms[1..]))
  }

  /** Reading an entry comes down to the body pattern on what follows its header. */
  lemma CmglAtRendered(m: SmsMessage, tail: string)
    requires m.index >= 0 && HeaderFieldsPlain(Header(m.status, m.sender, m.timestamp))
    requires ListBody(CRLF + (m.content + (CRLF + tail))).Some?
    ensures var b := ListBody(CRLF + (m.content + (CRLF + tail))).value;
      CmglAt(RenderCmglEntryThen(m, tail)) == Some(Parsed(m.(content := Strip(b.value)), b.rest))
  {
    var h := Header(m.status, m.sender, m.timestamp);
    var afterHeader := CRLF + (m.content + (CRLF + tail));
    var afterIndex := "," + RenderHeaderThen(h, afterHeader);
    var s := RenderCmglEntryThen(m, tail);
    assert s[6..] == " " + (NatToString(m.index) + afterIndex);
    assert Lit(s, "+CMGL:") == Some(" " + (NatToString(m.index) + afterIndex));
    SpacesOfRendered(" ", NatToString(m.index) + afterIndex);
    NumberOfRendered(m.index, afterIndex);
    assert afterIndex[1..] == RenderHeaderThen(h, afterHeader);
    assert Lit(afterIndex, ",") == Some(RenderHeaderThen(h, afterHeader));
    HeaderRoundTrip(h, afterHeader);
  }

  lemma CmglEntryRoundTrip(m: SmsMessage, tail: string)
    requires Listable(m)
    requires tail == [] || tail[0] == '+'
    ensures CmglAt(RenderCmglEntryThen(m, tail)) == Some(Parsed(m, tail))
  {
    ListBodyOfRendered(m.content, tail);
    CmglAtRendered(m, tail);
    StripTrailingCrlf(m.content);
  }

  lemma ListBodyOfRendered(b: string, tail: string)
    requires b != [] && '+' !in b
    requires tail == [] || tail[0] == '+'
    ensures ListBody(CRLF + (b + (CRLF + tail))) == Some(Parsed(b + CRLF, tail))
  {
    var s := CRLF + (b + (CRLF + tail));
    var t := s[2..];
    assert t == (b + CRLF) + tail;
    NonPlusRunOver(b + CRLF, tail);
    assert s[2..2 + |b| + 2] == b + CRLF;
    assert s[2 + |b| + 2..] == tail;
  }

  /** A list reply made of well-formed entries reads back as exactly those messages, in
      order. */
  lemma {:induction false} CmglRoundTrip(ms: seq<SmsMessage>)
    requires forall k :: 0 <= k < |ms| ==> Listable(ms[k])
    ensures ParseCmgl(RenderCmgl(ms)) == ms
  {
    if ms != [] {
      var tail := RenderCmgl(ms[1..]);
      assert tail == [] || tail[0] == '+' by {
        if ms[1..] != [] {
          assert tail[0] == '+';
        }
      }
      var r := RenderCmglEntryThen(ms[0], tail);
      assert RenderCmgl(ms) == r;
      assert r[0] == '+';
      CmglEntryRoundTrip(ms[0], tail);
      assert ParseCmgl(r) == [ms[0]] + ParseCmgl(tail);
      CmglRoundTrip(ms[1..]);
      HeadTail(ms);
    }
  }

  /** A non-empty sequence is its first element followed by the rest. */
  lemma HeadTail<T>(s: seq<T>)
    requires s != []
    ensures [s[0]] + s[1..] == s
  {
  }

  /** The final result code of a list reply is not cut off: the body pattern runs on to the
      end of the reply, so the last listed body keeps the blank line and the `OK`. */
  lemma {:induction false} CmglLastBodyKeepsResultCode(m: SmsMessage)
    requires Listable(m)
    ensures ParseCmgl(RenderCmglEntryThen(m, "\r\nOK")) == [m.(content := m.content + "\r\n\r\nOK")]
  {
    var body := m.content + "\r\n\r\nOK";
    var afterHeader := CRLF + (m.content + (CRLF + "\r\nOK"));
    assert afterHeader[2..] == body;
    NonPlusRunOver(body, "");
    assert body + "" == body;
    assert |afterHeader| == 2 + |body|;
    assert afterHeader[2..2 + |body|] == body;
    assert ListBody(afterHeader) == Some(Parsed(body, ""));
    CmglAtRendered(m, "\r\nOK");
    assert TrimStart(body) == body;
    assert TrimEnd(body) == body;
  }
}

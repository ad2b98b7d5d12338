/** The messages screen of the phone: conversations kept per remote number, filled from
    the modem's listing, extended by notifications, by the periodic check for unread
    messages and by the messages the user sends. The modem's listings and answers are
    parameters; the requests the screen makes of it are logged. */
module SmsScreen {
  import opened Text
  import opened SmsReplies

  /** One bubble of a conversation. */
  datatype Entry = Entry(content: string, timestamp: string, isSent: bool)

  /** A `send_sms` request: recipient and body. */
  datatype Outgoing = Outgoing(number: string, message: string)

  type Conversations = map<string, seq<Entry>>

  /** `status.startswith("STO")`: a stored (sent or unsent) message rather than a
      received one. */
  predicate IsStored(status: string)
  {
    |status| >= 3 && status[..3] == "STO"
  }

  /** The module's four status tags: only the two stored ones show as sent. */
  lemma StatusTags()
    ensures IsStored("STO SENT") && IsStored("STO UNSENT")
    ensures !IsStored("REC READ") && !IsStored("REC UNREAD")
  {
    assert "REC READ"[..3][0] == 'R';
    assert "REC UNREAD"[..3][0] == 'R';
  }

  function EntryOf(m: SmsMessage): Entry
  {
    Entry(m.content, m.timestamp, IsStored(m.status))
  }

  /** `conversations.get(number, [])`. */
  function Thread(conv: Conversations, number: string): seq<Entry>
  {
    if number in conv then conv[number] else []
  }

  /** Create the conversation if absent, then append the entry to it. */
  function Append(conv: Conversations, number: string, e: Entry): Conversations
  {
    conv[number := Thread(conv, number) + [e]]
  }

  /** Appending touches one conversation: it gains exactly that entry at its end, and
      every other conversation stays as it was. */
  lemma ThreadOfAppend(conv: Conversations, number: string, e: Entry, other: string)
    ensures Thread(Append(conv, number, e), number) == Thread(conv, number) + [e]
    ensures other != number ==> Thread(Append(conv, number, e), other) == Thread(conv, other)
    ensures other in Append(conv, number, e) <==> other in conv || other == number
  {
  }

  // ---------------------------------------------------------------- loading

  /** `_load_messages`: the listing grouped by sender, in listing order. */
  function Grouped(ms: seq<SmsMessage>): Conversations
  {
    if ms == [] then map[]
    else Append(Grouped(ms[..|ms| - 1]), ms[|ms| - 1].sender, EntryOf(ms[|ms| - 1]))
  }

  /** The entries of the messages from one sender, in listing order. */
  function FromSender(ms: seq<SmsMessage>, number: string): seq<Entry>
  {
    if ms == [] then []
    else FromSender(ms[..|ms| - 1], number)
         + (if ms[|ms| - 1].sender == number then [EntryOf(ms[|ms| - 1])] else [])
  }

  /** Loading places every listed message in exactly its sender's conversation and
      keeps their order; a conversation exists iff some listed message comes from it. */
  lemma {:induction false} GroupedBySender(ms: seq<SmsMessage>, number: string)
    ensures Thread(Grouped(ms), number) == FromSender(ms, number)
    ensures number in Grouped(ms) <==> exists k :: 0 <= k < |ms| && ms[k].sender == number
  {
    if ms != [] {
      var p, m := ms[..|ms| - 1], ms[|ms| - 1];
      GroupedBySender(p, number);
      ThreadOfAppend(Grouped(p), m.sender, EntryOf(m), number);
      if number in Grouped(ms) && m.sender != number {
        var k :| 0 <= k < |p| && p[k].sender == number;
        assert ms[k] == p[k];
      }
      if exists k :: 0 <= k < |ms| && ms[k].sender == number {
        var k :| 0 <= k < |ms| && ms[k].sender == number;
        if k < |p| {
          assert p[k] == ms[k];
        }
      }
    }
  }

  // ---------------------------------------------------------------- the unread check

  predicate SamePair(e: Entry, m: SmsMessage)
  {
    e.content == m.content && e.timestamp == m.timestamp
  }

  /** The sender's conversation already holds an entry with this content and timestamp. */
  predicate Known(conv: Conversations, m: SmsMessage)
  {
    exists k :: 0 <= k < |Thread(conv, m.sender)| && SamePair(Thread(conv, m.sender)[k], m)
  }

  /** One message of the unread listing: skipped when known, else appended as received. */
  function Absorb(conv: Conversations, m: SmsMessage): Conversations
  {
    if Known(conv, m) then conv else Append(conv, m.sender, Entry(m.content, m.timestamp, false))
  }

  /** The whole unread listing, in order. */
  function AbsorbAll(conv: Conversations, ms: seq<SmsMessage>): Conversations
  {
    if ms == [] then conv else Absorb(AbsorbAll(conv, ms[..|ms| - 1]), ms[|ms| - 1])
  }

  /** The `delete_sms` requests of the check: the index of each appended message whose
      index is positive. */
  function Deletions(conv: Conversations, ms: seq<SmsMessage>): seq<int>
  {
    if ms == [] then []
    else
      var p, m := ms[..|ms| - 1], ms[|ms| - 1];
      Deletions(conv, p) + (if !Known(AbsorbAll(conv, p), m) && m.index > 0 then [m.index] else [])
  }

  /** No two entries of a conversation share content and timestamp. */
  predicate PairsUnique(es: seq<Entry>)
  {
    forall i, j :: 0 <= i < j < |es| ==> !(es[i].content == es[j].content && es[i].timestamp == es[j].timestamp)
  }

  /** After absorbing a message it is known, and whatever was known stays known. */
  lemma AbsorbKnows(conv: Conversations, m: SmsMessage, x: SmsMessage)
    ensures Known(Absorb(conv, m), m)
    ensures Known(conv, x) ==> Known(Absorb(conv, m), x)
  {
    if !Known(conv, m) {
      var e := Entry(m.content, m.timestamp, false);
      ThreadOfAppend(conv, m.sender, e, m.sender);
      var t := Thread(Absorb(conv, m), m.sender);
      assert SamePair(t[|t| - 1], m);
      if Known(conv, x) {
        ThreadOfAppend(conv, m.sender, e, x.sender);
        var k :| 0 <= k < |Thread(conv, x.sender)| && SamePair(Thread(conv, x.sender)[k], x);
        assert Thread(Absorb(conv, m), x.sender)[k] == Thread(conv, x.sender)[k];
      }
    }
  }

  /** The check never introduces a repeated (content, timestamp) pair. */
  lemma AbsorbKeepsUnique(conv: Conversations, m: SmsMessage, number: string)
    requires PairsUnique(Thread(conv, number))
    ensures PairsUnique(Thread(Absorb(conv, m), number))
  {
    if !Known(conv, m) {
      var e := Entry(m.content, m.timestamp, false);
      ThreadOfAppend(conv, m.sender, e, number);
      if number == m.sender {
        var t, u := Thread(conv, number), Thread(conv, number) + [e];
        forall i, j | 0 <= i < j < |u|
          ensures !(u[i].content == u[j].content && u[i].timestamp == u[j].timestamp)
        {
          if j == |t| {
            assert u[i] == t[i];
            assert !SamePair(t[i], m);
          } else {
            assert u[i] == t[i] && u[j] == t[j];
          }
        }
      }
    }
  }

  lemma {:induction false} AbsorbAllKeepsUnique(conv: Conversations, ms: seq<SmsMessage>, number: string)
    requires PairsUnique(Thread(conv, number))
    ensures PairsUnique(Thread(AbsorbAll(conv, ms), number))
  {
    if ms != [] {
      AbsorbAllKeepsUnique(conv, ms[..|ms| - 1], number);
      AbsorbKeepsUnique(AbsorbAll(conv, ms[..|ms| - 1]), ms[|ms| - 1], number);
    }
  }

  /** After the check every message of the listing is known. */
  lemma {:induction false} AbsorbAllKnows(conv: Conversations, ms: seq<SmsMessage>)
    ensures forall k :: 0 <= k < |ms| ==> Known(AbsorbAll(conv, ms), ms[k])
  {
    if ms != [] {
      var p, m := ms[..|ms| - 1], ms[|ms| - 1];
      AbsorbAllKnows(conv, p);
      forall k | 0 <= k < |ms|
        ensures Known(AbsorbAll(conv, ms), ms[k])
      {
        AbsorbKnows(AbsorbAll(conv, p), m, ms[k]);
        if k < |p| {
          assert ms[k] == p[k];
        }
      }
    }
  }

  /** A listing whose messages are all known changes nothing and deletes nothing. */
  lemma {:induction false} AbsorbAllKnown(conv: Conversations, ms: seq<SmsMessage>)
    requires forall k :: 0 <= k < |ms| ==> Known(conv, ms[k])
    ensures AbsorbAll(conv, ms) == conv && Deletions(conv, ms) == []
  {
    if ms != [] {
      var p := ms[..|ms| - 1];
      assert forall k :: 0 <= k < |p| ==> p[k] == ms[k];
      AbsorbAllKnown(conv, p);
    }
  }

  /** Checking the same unread listing twice: the second check adds nothing and asks
      for no deletion. */
  lemma CheckIdempotent(conv: Conversations, ms: seq<SmsMessage>)
    ensures AbsorbAll(AbsorbAll(conv, ms), ms) == AbsorbAll(conv, ms)
    ensures Deletions(AbsorbAll(conv, ms), ms) == []
  {
    AbsorbAllKnows(conv, ms);
    AbsorbAllKnown(AbsorbAll(conv, ms), ms);
  }

  /** Message `k` was new when the check reached it. */
  predicate NewAt(conv: Conversations, ms: seq<SmsMessage>, k: int)
    requires 0 <= k < |ms|
  {
    !Known(AbsorbAll(conv, ms[..k]), ms[k])
  }

  lemma NewAtPrefix(conv: Conversations, ms: seq<SmsMessage>, k: nat)
    requires k < |ms| - 1
    ensures ms[k] == ms[..|ms| - 1][k]
    ensures NewAt(conv, ms, k) == NewAt(conv, ms[..|ms| - 1], k)
  {
    assert ms[..k] == ms[..|ms| - 1][..k];
  }

  /** Every deletion the check asks for is of a positive index carried by a message
      that was new at its turn. */
  lemma {:induction false} DeletionsAreNew(conv: Conversations, ms: seq<SmsMessage>)
    ensures forall d :: d in Deletions(conv, ms) ==>
              d > 0 && exists k :: 0 <= k < |ms| && ms[k].index == d && NewAt(conv, ms, k)
  {
    if ms != [] {
      var p, m := ms[..|ms| - 1], ms[|ms| - 1];
      DeletionsAreNew(conv, p);
      forall d | d in Deletions(conv, ms)
        ensures d > 0 && exists k :: 0 <= k < |ms| && ms[k].index == d && NewAt(conv, ms, k)
      {
        if d in Deletions(conv, p) {
          var k :| 0 <= k < |p| && p[k].index == d && NewAt(conv, p, k);
          NewAtPrefix(conv, ms, k);
        } else {
          assert ms[..|p|] == p;
          assert NewAt(conv, ms, |p|);
        }
      }
    }
  }

  /** Every message that was new at its turn and carries a positive index is deleted. */
  lemma {:induction false} NewAreDeleted(conv: Conversations, ms: seq<SmsMessage>)
    ensures forall k :: 0 <= k < |ms| && ms[k].index > 0 && NewAt(conv, ms, k) ==>
              ms[k].index in Deletions(conv, ms)
  {
    if ms != [] {
      var p, m := ms[..|ms| - 1], ms[|ms| - 1];
      NewAreDeleted(conv, p);
      forall k | 0 <= k < |ms| && ms[k].index > 0 && NewAt(conv, ms, k)
        ensures ms[k].index in Deletions(conv, ms)
      {
        if k < |p| {
          NewAtPrefix(conv, ms, k);
          assert ms[k].index in Deletions(conv, p);
        } else {
          assert ms[..|p|] == p;
        }
      }
    }
  }

  // ---------------------------------------------------------------- list rows

  const PreviewLength := 35

  /** The preview of the latest message: at most 35 characters, then `...`. */
  function Preview(content: string): string
  {
    if |content| > PreviewLength then content[..PreviewLength] + "..." else content
  }

  /** A preview is never longer than 38 characters and always starts as the message
      does; a short message is shown whole. */
  lemma PreviewBounds(content: string)
    ensures |Preview(content)| <= PreviewLength + 3
    ensures |content| <= PreviewLength ==> Preview(content) == content
    ensures |content| > PreviewLength ==> |Preview(content)| == PreviewLength + 3 && Preview(content)[PreviewLength..] == "..."
    ensures var n := if |content| < PreviewLength then |content| else PreviewLength;
            Preview(content)[..n] == content[..n]
  {
  }

  /** `latest['timestamp'][:10]` as written. */
  function ShortStampAsWritten(timestamp: string): string
  {
    Prefix(timestamp, 10)
  }

  /** On the module's `yy/MM/dd,hh:mm:ss` stamps the first ten characters run past the
      date into the hour. */
  lemma ShortStampCutsHour()
    ensures ShortStampAsWritten("24/01/01,12:00:00") == "24/01/01,1"
  {
  }

  /** The date of a stamp: what precedes its comma, or the first ten characters of a
      stamp without one. */
  function StampDate(timestamp: string): string
  {
    if ',' in timestamp then timestamp[..IndexOf(timestamp, ',')] else Prefix(timestamp, 10)
  }

  /** A stamp in the module's format shows as its date, whatever the date's length. */
  lemma StampDateOfStamp(date: string, time: string)
    requires ',' !in date
    ensures StampDate(date + "," + time) == date
  {
    IndexOfAfter(date, ',', time);
    assert (date + "," + time)[..|date|] == date;
  }

  // ---------------------------------------------------------------- the screen

  class SmsScreen {
    /** Whether a modem was handed to the screen. */
    const hasModem: bool
    var conversations: Conversations
    var current: Option<string>
    /** The text of the reply box under an open conversation. */
    var draft: string
    var sends: seq<Outgoing>
    var deletes: seq<int>
    var alerts: seq<string>

    /** A conversation is open (`if not self.current_conversation` fails). */
    predicate Open()
      reads this
    {
      current.Some? && current.value != ""
    }

    /** The screen loads the listing, shows the list and runs the first unread check. */
    constructor (hasModem: bool, listed: seq<SmsMessage>, unread: seq<SmsMessage>)
      ensures this.hasModem == hasModem && current == None && draft == "" && sends == [] && alerts == []
      ensures hasModem ==> conversations == AbsorbAll(Grouped(listed), unread)
                           && deletes == Deletions(Grouped(listed), unread)
      ensures !hasModem ==> conversations == map[] && deletes == []
    {
      this.hasModem := hasModem;
      conversations := map[];
      current := None;
      draft := "";
      sends := [];
      deletes := [];
      alerts := [];
      new;
      LoadMessages(listed);
      ShowConversationList();
      CheckForNewSms(unread);
    }

    /** `_load_messages`: with a modem, replace the store by the listing grouped by sender. */
    method LoadMessages(listed: seq<SmsMessage>)
      modifies this`conversations
      ensures hasModem ==> conversations == Grouped(listed)
      ensures !hasModem ==> conversations == old(conversations)
    {
      if !hasModem {
        return;
      }
      conversations := map[];
      for i := 0 to |listed|
        invariant conversations == Grouped(listed[..i])
      {
        AppendEntry(listed[i].sender, EntryOf(listed[i]));
        assert listed[..i + 1][..i] == listed[..i];
      }
      assert listed[..|listed|] == listed;
    }

    /** `_show_conversation_list`: no conversation open. */
    method ShowConversationList()
      modifies this`current
      ensures current == None && !Open()
    {
      current := None;
    }

    /** `_show_conversation`. */
    method ShowConversation(number: string)
      modifies this`current
      ensures current == Some(number)
    {
      current := Some(number);
    }

    /** Create the conversation if absent, then append the entry to it. */
    method AppendEntry(number: string, e: Entry)
      modifies this`conversations
      ensures conversations == Append(old(conversations), number, e)
    {
      if number !in conversations {
        conversations := conversations[number := []];
      }
      conversations := conversations[number := conversations[number] + [e]];
    }

    /** `_on_sms_received`: the message is appended, as received, to its sender's
        conversation. */
    method OnSmsReceived(sms: SmsMessage)
      modifies this`conversations
      ensures conversations == Append(old(conversations), sms.sender, Entry(sms.content, sms.timestamp, false))
    {
      AppendEntry(sms.sender, Entry(sms.content, sms.timestamp, false));
    }

    /** The `any(...)` scan: does the conversation hold this content and timestamp? */
    method HasPair(existing: seq<Entry>, m: SmsMessage) returns (found: bool)
      ensures found <==> exists k :: 0 <= k < |existing| && SamePair(existing[k], m)
    {
      var i := 0;
      while i < |existing|
        invariant 0 <= i <= |existing|
        invariant forall k :: 0 <= k < i ==> !SamePair(existing[k], m)
      {
        if existing[i].content == m.content && existing[i].timestamp == m.timestamp {
          return true;
        }
        i := i + 1;
      }
      return false;
    }

    /** `_check_for_new_sms` on one unread listing: each message not yet in its sender's
        conversation is appended as received and, when its index is positive, deleted
        from the module. */
    method CheckForNewSms(unread: seq<SmsMessage>)
      modifies this`conversations, this`deletes
      ensures hasModem ==> conversations == AbsorbAll(old(conversations), unread)
                           && deletes == old(deletes) + Deletions(old(conversations), unread)
      ensures !hasModem ==> conversations == old(conversations) && deletes == old(deletes)
    {
      if !hasModem {
        return;
      }
      ghost var conv0, deletes0 := conversations, deletes;
      for i := 0 to |unread|
        invariant conversations == AbsorbAll(conv0, unread[..i])
        invariant deletes == deletes0 + Deletions(conv0, unread[..i])
      {
        var msg := unread[i];
        assert unread[..i + 1][..i] == unread[..i];
        assert unread[..i + 1][i] == msg;
        var known := false;
        if msg.sender in conversations {
          known := HasPair(conversations[msg.sender], msg);
        }
        if !known {
          ghost var before := deletes;
          AppendEntry(msg.sender, Entry(msg.content, msg.timestamp, false));
          if msg.index > 0 {
            deletes := deletes + [msg.index];
            AppendAssoc(deletes0, Deletions(conv0, unread[..i]), [msg.index]);
          }
        }
      }
      assert unread[..|unread|] == unread;
    }

    /** `_send_message`: the trimmed reply goes to the open conversation; once sent (or
        with no modem) it is appended there as sent and the box is cleared. */
    method SendMessage(accepted: bool, now: string)
      modifies this`conversations, this`draft, this`sends, this`alerts
      ensures !old(Open()) || Strip(old(draft)) == [] ==>
                conversations == old(conversations) && draft == old(draft) && sends == old(sends) && alerts == old(alerts)
      ensures old(Open()) && Strip(old(draft)) != [] ==>
                sends == old(sends) + (if hasModem then [Outgoing(current.value, Strip(old(draft)))] else [])
      ensures old(Open()) && Strip(old(draft)) != [] && (accepted || !hasModem) ==>
                conversations == Append(old(conversations), current.value, Entry(Strip(old(draft)), now, true))
                && draft == "" && alerts == old(alerts)
      ensures old(Open()) && Strip(old(draft)) != [] && hasModem && !accepted ==>
                conversations == old(conversations) && draft == old(draft) && alerts == old(alerts) + ["Failed to send message"]
    {
      if !Open() {
        return;
      }
      var message := Strip(draft);
      if message == [] {
        return;
      }
      var success := true;
      if hasModem {
        sends := sends + [Outgoing(current.value, message)];
        success := accepted;
      }
      if success {
        AppendEntry(current.value, Entry(message, now, true));
        draft := "";
      } else {
        alerts := alerts + ["Failed to send message"];
      }
    }

    /** `_send_composed_message`: both fields must be non-empty once trimmed; once sent
        the message is appended under the recipient, whose conversation opens. */
    method SendComposedMessage(recipientText: string, bodyText: string, accepted: bool, now: string)
      modifies this`conversations, this`current, this`sends, this`alerts
      ensures Strip(recipientText) == [] ==>
                conversations == old(conversations) && current == old(current) && sends == old(sends)
                && alerts == old(alerts) + ["Please enter a recipient"]
      ensures Strip(recipientText) != [] && Strip(bodyText) == [] ==>
                conversations == old(conversations) && current == old(current) && sends == old(sends)
                && alerts == old(alerts) + ["Please enter a message"]
      ensures Strip(recipientText) != [] && Strip(bodyText) != [] ==>
                sends == old(sends) + (if hasModem then [Outgoing(Strip(recipientText), Strip(bodyText))] else [])
      ensures Strip(recipientText) != [] && Strip(bodyText) != [] && (accepted || !hasModem) ==>
                conversations == Append(old(conversations), Strip(recipientText), Entry(Strip(bodyText), now, true))
                && current == Some(Strip(recipientText)) && alerts == old(alerts)
      ensures Strip(recipientText) != [] && Strip(bodyText) != [] && hasModem && !accepted ==>
                conversations == old(conversations) && current == old(current)
                && alerts == old(alerts) + ["Failed to send message"]
    {
      var recipient := Strip(recipientText);
      var message := Strip(bodyText);
      if recipient == [] {
        alerts := alerts + ["Please enter a recipient"];
        return;
      }
      if message == [] {
        alerts := alerts + ["Please enter a message"];
        return;
      }
      var success := true;
      if hasModem {
        sends := sends + [Outgoing(recipient, message)];
        success := accepted;
      }
      if success {
        AppendEntry(recipient, Entry(message, now, true));
        ShowConversation(recipient);
      } else {
        alerts := alerts + ["Failed to send message"];
      }
    }
  }
}

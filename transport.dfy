/** The serial line to the modem and the read loop of a command exchange. Time is counted
    in polls: the loop sleeps a fixed slice between polls, so a timeout is a poll budget,
    and what the modem sends is a script giving the text that is waiting at each poll. */
module Transport {
  import opened Text

  /** What ends a read loop: a final result code or prompt after a command, or the
      submission report after a message body. */
  datatype Until = ResultCode | Submission

  predicate Finished(until: Until, buf: string)
  {
    match until
    case ResultCode => Contains(buf, "OK") || Contains(buf, "ERROR") || Contains(buf, ">")
    case Submission => Contains(buf, "+CMGS:") || Contains(buf, "ERROR")
  }

  /** Nothing has been read yet, so no loop stops before its first poll. */
  lemma NothingFinished(until: Until)
    ensures !Finished(until, "")
  {
  }

  /** The text waiting at poll `k` (counting from 0); nothing once the script is over. */
  function Chunk(script: seq<string>, k: nat): string
  {
    if k < |script| then script[k] else ""
  }

  /** The text accumulated over the first `n` polls. */
  function Received(script: seq<string>, n: nat): string
  {
    if n == 0 then "" else Received(script, n - 1) + Chunk(script, n - 1)
  }

  /** What a read loop of `budget` polls has read after poll `n`: either it stopped there
      at the first finished buffer, or it never saw one and ran out of polls. */
  predicate StopsAt(until: Until, script: seq<string>, budget: nat, n: nat)
  {
    n <= budget
    && (n == budget || (n > 0 && Finished(until, Received(script, n))))
    && forall j :: 1 <= j < n ==> !Finished(until, Received(script, j))
  }

  function StopFrom(until: Until, script: seq<string>, budget: nat, k: nat): nat
    requires k <= budget
    decreases budget - k
  {
    if k > 0 && Finished(until, Received(script, k)) then k
    else if k == budget then k
    else StopFrom(until, script, budget, k + 1)
  }

  /** The number of polls a read loop performs. */
  function StopPoll(until: Until, script: seq<string>, budget: nat): nat
  {
    StopFrom(until, script, budget, 0)
  }

  /** Searching from poll `k` on finds the stopping poll when no poll before `k` finished. */
  lemma {:induction false} StopFromStops(until: Until, script: seq<string>, budget: nat, k: nat)
    requires k <= budget
    requires forall j :: 1 <= j < k ==> !Finished(until, Received(script, j))
    ensures k <= StopFrom(until, script, budget, k) && StopsAt(until, script, budget, StopFrom(until, script, budget, k))
    decreases budget - k
  {
    if !(k > 0 && Finished(until, Received(script, k))) && k != budget {
      StopFromStops(until, script, budget, k + 1);
    }
  }

  /** The loop stops at the first finished buffer, or when the budget is spent. */
  lemma StopPollStops(until: Until, script: seq<string>, budget: nat)
    ensures StopsAt(until, script, budget, StopPoll(until, script, budget))
  {
    StopFromStops(until, script, budget, 0);
  }

  lemma {:induction false} StopFromUnique(until: Until, script: seq<string>, budget: nat, k: nat, n: nat)
    requires k <= n && StopsAt(until, script, budget, n)
    ensures StopFrom(until, script, budget, k) == n
    decreases n - k
  {
    if k < n {
      StopFromUnique(until, script, budget, k + 1, n);
    }
  }

  /** A loop stops at exactly one poll: the first finished buffer, or the budget. */
  lemma StopPollUnique(until: Until, script: seq<string>, budget: nat, n: nat)
    requires StopsAt(until, script, budget, n)
    ensures StopPoll(until, script, budget) == n
  {
    StopFromUnique(until, script, budget, 0, n);
  }

  /** The text a read loop returns before trimming. */
  function ReadText(until: Until, script: seq<string>, budget: nat): string
  {
    Received(script, StopPoll(until, script, budget))
  }

  /** A loop that times out returns whatever partial text arrived within its budget. */
  lemma TimeoutKeepsPartialText(until: Until, script: seq<string>, budget: nat)
    requires forall j :: 1 <= j <= budget ==> !Finished(until, Received(script, j))
    ensures ReadText(until, script, budget) == Received(script, budget)
  {
    StopPollUnique(until, script, budget, budget);
  }

  /** A reply complete at its first poll is read in one poll, whatever follows it. */
  lemma FirstPollFinishes(until: Until, script: seq<string>, budget: nat)
    requires budget >= 1 && script != [] && Finished(until, script[0])
    ensures ReadText(until, script, budget) == script[0]
  {
    assert Received(script, 1) == script[0];
    StopPollUnique(until, script, budget, 1);
  }

  /** A reply spread over polls is read up to the first poll that completes it, and the
      chunks after that are left unread. */
  lemma SplitReplyStopsAtCompletion(until: Until, a: string, b: string, rest: seq<string>, budget: nat)
    requires budget >= 2 && !Finished(until, a) && Finished(until, a + b)
    ensures ReadText(until, [a, b] + rest, budget) == a + b
  {
    var script := [a, b] + rest;
    assert Received(script, 1) == a;
    assert Received(script, 2) == a + b;
    StopPollUnique(until, script, budget, 2);
  }

  /** The read loop: one chunk per poll, checking the buffer after each chunk that arrived,
      until it is finished or the budget is spent. */
  method ReadUntil(until: Until, script: seq<string>, budget: nat) returns (buf: string)
    ensures buf == ReadText(until, script, budget)
  {
    buf := "";
    var polls: nat := 0;
    var done := false;
    while polls < budget && !done
      invariant polls <= budget
      invariant buf == Received(script, polls)
      invariant forall j :: 1 <= j < polls ==> !Finished(until, Received(script, j))
      invariant done <==> polls > 0 && Finished(until, buf)
    {
      var chunk := Chunk(script, polls);
      assert Received(script, polls + 1) == buf + chunk;
      polls := polls + 1;
      if chunk != "" {
        buf := buf + chunk;
        done := Finished(until, buf);
      }
    }
    StopPollUnique(until, script, budget, polls);
  }

  /** The script of read loop `k` (counting from 0); an exhausted line sends nothing. */
  function ScriptAt(arrivals: seq<seq<string>>, k: nat): seq<string>
  {
    if k < |arrivals| then arrivals[k] else []
  }

  /** Ctrl-Z (byte 26), which ends a text-mode message body. */
  const CtrlZ: char := 26 as char

  /** The serial line: whether it is open, what the modem sends during each successive read
      loop, how many read loops have run, and every write made to it. */
  class SerialPort {
    const isOpen: bool
    const arrivals: seq<seq<string>>
    var consumed: nat
    var written: seq<string>

    constructor (isOpen: bool, arrivals: seq<seq<string>>)
      ensures this.isOpen == isOpen && this.arrivals == arrivals && consumed == 0 && written == []
    {
      this.isOpen := isOpen;
      this.arrivals := arrivals;
      consumed := 0;
      written := [];
    }

    method Write(data: string)
      modifies this
      ensures written == old(written) + [data] && consumed == old(consumed)
    {
      written := written + [data];
    }

    /** The text the modem sends during the next read loop. */
    method NextArrivals() returns (script: seq<string>)
      modifies this
      ensures script == ScriptAt(arrivals, old(consumed)) && consumed == old(consumed) + 1
      ensures written == old(written)
    {
      script := ScriptAt(arrivals, consumed);
      consumed := consumed + 1;
    }
  }
}

/** Prefix matchers standing in for the fixed regular expressions the driver applies to
    modem replies, and the leftmost-match search of Python's `re.search`. A matcher looks
    at a suffix of the reply and either fails or yields a value. */
module Scan {
  import opened Text

  /** A value read from the front of a text, and the text left after it. */
  datatype Parsed<T> = Parsed(value: T, rest: string)

  /** The literal `lit` at the front of `s`; yields what follows it. */
  function Lit(s: string, lit: string): (r: Option<string>)
    ensures r.Some? <==> lit <= s
    ensures r.Some? ==> s == lit + r.value
  {
    if lit <= s then Some(s[|lit|..]) else None
  }

  /** Length of the leading whitespace run. */
  function SpaceRun(s: string): (n: nat)
    ensures n <= |s|
  {
    if s != [] && IsSpace(s[0]) then 1 + SpaceRun(s[1..]) else 0
  }

  /** The run is all whitespace and stops at the first character that is not. */
  lemma {:induction false} SpaceRunStops(s: string)
    ensures forall k :: 0 <= k < SpaceRun(s) ==> IsSpace(s[k])
    ensures SpaceRun(s) == |s| || !IsSpace(s[SpaceRun(s)])
  {
    if s != [] && IsSpace(s[0]) {
      SpaceRunStops(s[1..]);
      forall k | 0 <= k < SpaceRun(s) ensures IsSpace(s[k]) {
        if k > 0 { assert s[k] == s[1..][k - 1]; }
      }
    }
  }

  /** Regex `\s*`: skips the leading whitespace. */
  function Spaces(s: string): string
  {
    s[SpaceRun(s)..]
  }

  /** Length of the leading run of ASCII digits. */
  function DigitRun(s: string): (n: nat)
    ensures n <= |s|
  {
    if s != [] && IsDigit(s[0]) then 1 + DigitRun(s[1..]) else 0
  }

  /** The run is all digits and stops at the first character that is not one. */
  lemma {:induction false} DigitRunStops(s: string)
    ensures forall k :: 0 <= k < DigitRun(s) ==> IsDigit(s[k])
    ensures DigitRun(s) == |s| || !IsDigit(s[DigitRun(s)])
  {
    if s != [] && IsDigit(s[0]) {
      DigitRunStops(s[1..]);
      forall k | 0 <= k < DigitRun(s) ensures IsDigit(s[k]) {
        if k > 0 { assert s[k] == s[1..][k - 1]; }
      }
    }
  }

  /** Regex `(\d+)` where the next pattern element cannot be a digit: the whole leading
      digit run, read as a number. */
  function Number(s: string): (r: Option<Parsed<nat>>)
    ensures r.Some? <==> s != [] && IsDigit(s[0])
  {
    var n := DigitRun(s);
    DigitRunStops(s);
    if n == 0 then None else Some(Parsed(DigitsValue(s[..n]), s[n..]))
  }

  /** Regex `"([^"]*)"`: a double-quoted field; yields its contents. */
  function Quoted(s: string): (r: Option<Parsed<string>>)
    ensures r.Some? ==> '"' !in r.value.value && s == "\"" + r.value.value + "\"" + r.value.rest
  {
    if s != [] && s[0] == '"' && '"' in s[1..] then
      var j := IndexOf(s[1..], '"');
      assert s == "\"" + s[1..1 + j] + "\"" + s[2 + j..];
      Some(Parsed(s[1..1 + j], s[2 + j..]))
    else
      None
  }

  /** Leftmost offset at or after `i` where the matcher succeeds. */
  function FindFrom<T>(s: string, m: string -> Option<T>, i: nat): (r: Option<nat>)
    requires i <= |s|
    ensures r.Some? ==> i <= r.value <= |s|
    decreases |s| - i
  {
    if m(s[i..]).Some? then Some(i)
    else if i == |s| then None
    else FindFrom(s, m, i + 1)
  }

  /** The offset found is the leftmost one at or after `i` where the matcher succeeds;
      finding none means the matcher fails everywhere from `i` on. */
  lemma {:induction false} FindFromLeftmost<T>(s: string, m: string -> Option<T>, i: nat)
    requires i <= |s|
    ensures FindFrom(s, m, i).Some? ==> m(s[FindFrom(s, m, i).value..]).Some?
    ensures FindFrom(s, m, i).Some? ==> forall j :: i <= j < FindFrom(s, m, i).value ==> m(s[j..]).None?
    ensures FindFrom(s, m, i).None? ==> forall j :: i <= j <= |s| ==> m(s[j..]).None?
    decreases |s| - i
  {
    if m(s[i..]).None? && i < |s| {
      FindFromLeftmost(s, m, i + 1);
    }
  }

  /** Python's `re.search`: the match at the leftmost offset where one exists. */
  function Search<T>(s: string, m: string -> Option<T>): Option<T>
  {
    match FindFrom(s, m, 0)
    case Some(i) => m(s[i..])
    case None => None
  }

  /** A search finds something exactly when the matcher succeeds at some offset, and then
      it is the match at the leftmost such offset. */
  lemma SearchLeftmost<T>(s: string, m: string -> Option<T>)
    ensures Search(s, m).Some? <==> exists i :: 0 <= i <= |s| && m(s[i..]).Some?
    ensures Search(s, m).Some? ==>
      exists i :: 0 <= i <= |s| && Search(s, m) == m(s[i..]) && forall j :: 0 <= j < i ==> m(s[j..]).None?
  {
    FindFromLeftmost(s, m, 0);
    match FindFrom(s, m, 0)
    case Some(i) =>
    case None =>
  }

  /** A reply that starts with a match is matched there. */
  lemma SearchAtStart<T>(s: string, m: string -> Option<T>)
    requires m(s).Some?
    ensures Search(s, m) == m(s)
  {
    assert s[0..] == s;
  }

  /** A rendered number followed by a non-digit reads back as that number. */
  lemma NumberOfRendered(n: nat, tail: string)
    requires tail == [] || !IsDigit(tail[0])
    ensures Number(NatToString(n) + tail) == Some(Parsed(n, tail))
  {
    var d := NatToString(n);
    var s := d + tail;
    assert forall i :: 0 <= i < |d| ==> s[i] == d[i];
    assert |d| < |s| ==> s[|d|] == tail[0];
    DigitRunStops(s);
    assert DigitRun(s) == |d|;
    assert s[..|d|] == d;
    NatToStringValue(n);
  }

  /** A quoted field without inner quotes reads back as its contents. */
  lemma QuotedOfRendered(q: string, tail: string)
    requires '"' !in q
    ensures Quoted("\"" + q + "\"" + tail) == Some(Parsed(q, tail))
  {
    var s := "\"" + q + "\"" + tail;
    var s1 := s[1..];
    assert s1 == q + "\"" + tail;
    assert s1[|q|] == '"';
    assert forall i :: 0 <= i < |q| ==> s1[i] == q[i];
    var j := IndexOf(s1, '"');
    assert j == |q|;
    assert s[1..1 + j] == q;
  }

  /** Whitespace skipping stops at the first non-space character. */
  lemma SpacesOfRendered(sp: string, t: string)
    requires forall k :: 0 <= k < |sp| ==> IsSpace(sp[k])
    requires t == [] || !IsSpace(t[0])
    ensures Spaces(sp + t) == t
  {
    var s := sp + t;
    assert forall i :: 0 <= i < |sp| ==> s[i] == sp[i];
    assert |sp| < |s| ==> s[|sp|] == t[0];
    SpaceRunStops(s);
    assert SpaceRun(s) == |sp|;
  }
}

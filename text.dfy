/** Python `str` operations the modem driver and the screens rely on, over `seq<char>`. */
module Text {

  datatype Option<+T> = None | Some(value: T) {
    predicate IsFailure() { None? }
    function PropagateFailure<U>(): Option<U> requires None? { None }
    function Extract(): T requires Some? { value }
  }

  const CRLF: string := "\r\n"

  /** `sub` occurs in `s` at offset `i`. */
  predicate OccursAt(s: string, sub: string, i: int) {
    0 <= i && i + |sub| <= |s| && s[i..i + |sub|] == sub
  }

  /** Python's `sub in s`. */
  predicate Contains(s: string, sub: string)
    decreases |s|
  {
    sub <= s || (s != [] && Contains(s[1..], sub))
  }

  lemma {:induction false} ContainsIff(s: string, sub: string)
    ensures Contains(s, sub) <==> exists i :: OccursAt(s, sub, i)
    decreases |s|
  {
    if Contains(s, sub) {
      if sub <= s {
        assert OccursAt(s, sub, 0);
      } else {
        ContainsIff(s[1..], sub);
        var i :| OccursAt(s[1..], sub, i);
        assert s[i + 1..i + 1 + |sub|] == s[1..][i..i + |sub|];
        assert OccursAt(s, sub, i + 1);
      }
    }
    forall i | OccursAt(s, sub, i) ensures Contains(s, sub) {
      OccurrenceContained(s, sub, i);
    }
  }

  lemma {:induction false} OccurrenceContained(s: string, sub: string, i: int)
    requires OccursAt(s, sub, i)
    ensures Contains(s, sub)
    decreases i
  {
    if i == 0 {
      assert sub <= s;
    } else {
      assert s[1..][i - 1..i - 1 + |sub|] == s[i..i + |sub|];
      OccurrenceContained(s[1..], sub, i - 1);
    }
  }

  /** An occurrence inside a piece is an occurrence inside the whole. */
  lemma ContainsInside(a: string, sub: string, b: string)
    ensures Contains(a + sub + b, sub)
  {
    var s := a + sub + b;
    assert s[|a|..|a| + |sub|] == sub;
    assert OccursAt(s, sub, |a|);
    ContainsIff(s, sub);
  }

  /** Python's `s.replace(pat, "")`: the occurrences of `pat` found scanning left to right,
      without overlap, removed. */
  function RemoveAll(s: string, pat: string): (r: string)
    requires pat != []
    ensures |r| <= |s|
    decreases |s|
  {
    if s == [] then []
    else if pat <= s then RemoveAll(s[|pat|..], pat)
    else [s[0]] + RemoveAll(s[1..], pat)
  }

  /** A text without the pattern is left as it is. */
  lemma {:induction false} RemoveAllAbsent(s: string, pat: string)
    requires pat != [] && !Contains(s, pat)
    ensures RemoveAll(s, pat) == s
    decreases |s|
  {
    if s != [] {
      RemoveAllAbsent(s[1..], pat);
      assert [s[0]] + s[1..] == s;
    }
  }

  /** A final occurrence is all that is removed when no other occurrence starts before it. */
  lemma {:induction false} RemoveAllTrailing(a: string, pat: string)
    requires pat != [] && !Contains(a + pat[..|pat| - 1], pat)
    ensures RemoveAll(a + pat, pat) == a
    decreases |a|
  {
    if a == [] {
      assert a + pat == pat && pat[|pat|..] == [];
    } else {
      var s, t := a + pat, a + pat[..|pat| - 1];
      assert s[..|pat|] == t[..|pat|];
      assert !(pat <= s);
      assert s[1..] == a[1..] + pat && t[1..] == a[1..] + pat[..|pat| - 1];
      RemoveAllTrailing(a[1..], pat);
      assert [a[0]] + a[1..] == a;
    }
  }

  /** Python's `str.isspace()` for one character. */
  predicate IsSpace(c: char) {
    var n := c as int;
    (9 <= n <= 13 || 28 <= n <= 32) || (n == 0x85 || n == 0xA0 || n == 0x1680
    || 0x2000 <= n <= 0x200A || n == 0x2028 || n == 0x2029 || n == 0x202F || n == 0x205F || n == 0x3000)
  }

  predicate IsDigit(c: char) { '0' <= c <= '9' }

  /** Python's `str.isdigit()` (ASCII digits): non-empty and digits only. */
  predicate AllDigits(s: string) {
    s != [] && forall i :: 0 <= i < |s| ==> IsDigit(s[i])
  }

  /** Python's `str.lstrip()`. */
  function TrimStart(s: string): (r: string)
    ensures |r| <= |s|
  {
    if s != [] && IsSpace(s[0]) then TrimStart(s[1..]) else s
  }

  /** Python's `str.rstrip()`. */
  function TrimEnd(s: string): (r: string)
    ensures |r| <= |s|
  {
    if s != [] && IsSpace(s[|s| - 1]) then TrimEnd(s[..|s| - 1]) else s
  }

  /** lstrip keeps a suffix, removes only whitespace, and stops at the first non-space. */
  lemma {:induction false} TrimStartSuffix(s: string)
    ensures var r := TrimStart(s);
      |r| <= |s| && r == s[|s| - |r|..]
      && (forall i :: 0 <= i < |s| - |r| ==> IsSpace(s[i]))
      && (r == [] || !IsSpace(r[0]))
    decreases |s|
  {
    if s != [] && IsSpace(s[0]) {
      TrimStartSuffix(s[1..]);
      var r := TrimStart(s[1..]);
      assert s[1..][|s| - 1 - |r|..] == s[|s| - |r|..];
      forall i | 0 <= i < |s| - |r| ensures IsSpace(s[i]) {
        if i > 0 {
          assert s[i] == s[1..][i - 1];
        }
      }
    }
  }

  /** rstrip keeps a prefix, removes only whitespace, and stops at the last non-space. */
  lemma {:induction false} TrimEndPrefix(s: string)
    ensures var r := TrimEnd(s);
      |r| <= |s| && r == s[..|r|]
      && (forall i :: |r| <= i < |s| ==> IsSpace(s[i]))
      && (r == [] || !IsSpace(r[|r| - 1]))
    decreases |s|
  {
    if s != [] && IsSpace(s[|s| - 1]) {
      TrimEndPrefix(s[..|s| - 1]);
      var r := TrimEnd(s[..|s| - 1]);
      assert s[..|s| - 1][..|r|] == s[..|r|];
      forall i | |r| <= i < |s| ensures IsSpace(s[i]) {
        if i < |s| - 1 {
          assert s[i] == s[..|s| - 1][i];
        }
      }
    }
  }

  /** Python's `str.strip()`: the longest slice without surrounding whitespace. */
  function Strip(s: string): (r: string)
  {
    TrimEnd(TrimStart(s))
  }

  /** Strip removes exactly the surrounding whitespace: the result is the slice of `s`
      starting at `|s| - |TrimStart(s)|`, bordered by non-space characters, and only
      whitespace lies outside it. */
  lemma StripSlice(s: string)
    ensures var i, r := |s| - |TrimStart(s)|, Strip(s);
      i + |r| <= |s| && r == s[i..i + |r|]
      && (forall k :: 0 <= k < i ==> IsSpace(s[k]))
      && (forall k :: i + |r| <= k < |s| ==> IsSpace(s[k]))
    ensures Strip(s) == [] || (!IsSpace(Strip(s)[0]) && !IsSpace(Strip(s)[|Strip(s)| - 1]))
  {
    StripIsSlice(s);
    StripDropsTrailingSpace(s);
    StripBordered(s);
  }

  lemma StripIsSlice(s: string)
    ensures var i, r := |s| - |TrimStart(s)|, Strip(s); i + |r| <= |s| && r == s[i..i + |r|]
  {
    var t := TrimStart(s);
    var r := TrimEnd(t);
    var i := |s| - |t|;
    TrimStartSuffix(s);
    TrimEndPrefix(t);
    assert t == s[i..];
    assert r == t[..|r|];
  }

  lemma StripDropsTrailingSpace(s: string)
    ensures var i, r := |s| - |TrimStart(s)|, Strip(s);
      i + |r| <= |s| && forall k :: i + |r| <= k < |s| ==> IsSpace(s[k])
  {
    var t := TrimStart(s);
    var r := TrimEnd(t);
    var i := |s| - |t|;
    TrimStartSuffix(s);
    TrimEndPrefix(t);
    forall k | i + |r| <= k < |s| ensures IsSpace(s[k]) {
      assert s[k] == t[k - i];
    }
  }

  lemma StripBordered(s: string)
    ensures Strip(s) == [] || (!IsSpace(Strip(s)[0]) && !IsSpace(Strip(s)[|Strip(s)| - 1]))
  {
    var t := TrimStart(s);
    var r := TrimEnd(t);
    TrimStartSuffix(s);
    TrimEndPrefix(t);
    if r != [] {
      assert r[0] == t[0];
    }
  }

  /** A string that is already stripped stays so. */
  lemma StripIdempotent(s: string)
    ensures Strip(Strip(s)) == Strip(s)
  {
    var r := Strip(s);
    StripBordered(s);
    if r != [] {
      assert TrimStart(r) == r;
      assert TrimEnd(r) == r;
    }
  }

  /** Line terminators after a stripped, non-empty text are removed again by Strip. */
  lemma StripTrailingCrlf(b: string)
    requires b != [] && !IsSpace(b[0]) && !IsSpace(b[|b| - 1])
    ensures Strip(b + CRLF) == b
  {
    var t := b + CRLF;
    assert TrimStart(t) == t by {
      assert t[0] == b[0];
    }
    assert IsSpace('\r') && IsSpace('\n');
    TrimEndSpaces(b, CRLF);
  }

  /** Trailing whitespace after a text that does not end in whitespace is what TrimEnd removes. */
  lemma {:induction false} TrimEndSpaces(b: string, w: string)
    requires b == [] || !IsSpace(b[|b| - 1])
    requires forall k :: 0 <= k < |w| ==> IsSpace(w[k])
    ensures TrimEnd(b + w) == b
    decreases |w|
  {
    if w == [] {
      assert b + w == b;
    } else {
      var t := b + w;
      assert t[..|t| - 1] == b + w[..|w| - 1];
      TrimEndSpaces(b, w[..|w| - 1]);
    }
  }

  /** Python's `s[:n]` for `n >= 0`. */
  function Prefix(s: string, n: nat): (r: string)
    ensures |r| == if n <= |s| then n else |s|
    ensures r <= s
  {
    if n <= |s| then s[..n] else s
  }

  /** Python's `s.split(sep)` with a one-character separator. */
  function Split(s: string, sep: char): (parts: seq<string>)
    ensures |parts| >= 1
    ensures forall k :: 0 <= k < |parts| ==> sep !in parts[k]
    decreases |s|
  {
    if sep in s then
      var i := IndexOf(s, sep);
      [s[..i]] + Split(s[i + 1..], sep)
    else
      [s]
  }

  /** Python's `sep.join(parts)`. */
  function Join(parts: seq<string>, sep: char): string
  {
    if |parts| <= 1 then (if parts == [] then "" else parts[0])
    else parts[0] + [sep] + Join(parts[1..], sep)
  }

  /** Position of the first occurrence of `c`. */
  function IndexOf(s: string, c: char): (i: nat)
    requires c in s
    ensures i < |s| && s[i] == c && c !in s[..i]
    ensures forall k :: 0 <= k < i ==> s[k] != c
  {
    if s[0] == c then 0 else 1 + IndexOf(s[1..], c)
  }

  /** Concatenation is associative. */
  lemma AppendAssoc<T>(a: seq<T>, b: seq<T>, c: seq<T>)
    ensures a + b + c == a + (b + c)
  {
  }

  /** The first `c` after a text without one is right after that text. */
  lemma IndexOfAfter(w: string, c: char, rest: string)
    requires c !in w
    ensures IndexOf(w + [c] + rest, c) == |w|
  {
    var s := w + [c] + rest;
    assert s[|w|] == c;
    assert forall k :: 0 <= k < |w| ==> s[k] == w[k];
  }

  /** Splitting loses nothing: joining the parts with the separator gives the text back. */
  lemma {:induction false} SplitJoin(s: string, sep: char)
    ensures Join(Split(s, sep), sep) == s
    decreases |s|
  {
    if sep in s {
      var i := IndexOf(s, sep);
      SplitJoin(s[i + 1..], sep);
      assert s == s[..i] + [sep] + s[i + 1..];
    }
  }

  /** Python's `re.sub('[^...]', '', s)`: the characters of `s` that lie in `keep`, in order. */
  function KeepOnly(s: string, keep: set<char>): (r: string)
    ensures |r| <= |s|
    ensures forall k :: 0 <= k < |r| ==> r[k] in keep
  {
    if s == [] then [] else KeepOnly(s[..|s| - 1], keep) + (if s[|s| - 1] in keep then [s[|s| - 1]] else [])
  }

  /** Filtering distributes over concatenation, so it keeps the relative order of what it keeps. */
  lemma {:induction false} KeepOnlyAppend(a: string, b: string, keep: set<char>)
    ensures KeepOnly(a + b, keep) == KeepOnly(a, keep) + KeepOnly(b, keep)
    decreases |b|
  {
    if b == [] {
      assert a + b == a;
    } else {
      var b', x := b[..|b| - 1], b[|b| - 1];
      var e := if x in keep then [x] else [];
      KeepOnlyAppend(a, b', keep);
      assert (a + b)[..|a + b| - 1] == a + b' && (a + b)[|a + b| - 1] == x;
      assert KeepOnly(a + b, keep) == KeepOnly(a, keep) + KeepOnly(b', keep) + e;
      assert KeepOnly(b, keep) == KeepOnly(b', keep) + e;
    }
  }

  /** A text made only of kept characters is left unchanged, and filtering twice is filtering once. */
  lemma {:induction false} KeepOnlyFixed(s: string, keep: set<char>)
    requires forall k :: 0 <= k < |s| ==> s[k] in keep
    ensures KeepOnly(s, keep) == s
    decreases |s|
  {
    if s != [] {
      KeepOnlyFixed(s[..|s| - 1], keep);
    }
  }

  lemma KeepOnlyIdempotent(s: string, keep: set<char>)
    ensures KeepOnly(KeepOnly(s, keep), keep) == KeepOnly(s, keep)
  {
    KeepOnlyFixed(KeepOnly(s, keep), keep);
  }

  /** Python's `s.replace('\r\n', '\n')` (left-to-right, non-overlapping). */
  function ReplaceCrlf(s: string): (r: string)
    ensures |r| <= |s|
  {
    if CRLF <= s then "\n" + ReplaceCrlf(s[2..])
    else if s == [] then []
    else [s[0]] + ReplaceCrlf(s[1..])
  }

  /** The rewrite changes a text exactly when the text holds a CR LF pair. */
  lemma {:induction false} ReplaceCrlfIdentity(s: string)
    ensures ReplaceCrlf(s) == s <==> !Contains(s, CRLF)
  {
    if CRLF <= s {
      assert |ReplaceCrlf(s)| < |s|;
    } else if s != [] {
      ReplaceCrlfIdentity(s[1..]);
    }
  }

  function LowerChar(c: char): char {
    if 'A' <= c <= 'Z' then (c as int + 32) as char else c
  }

  /** Python's `str.lower()` on ASCII letters. */
  function Lower(s: string): (r: string)
    ensures |r| == |s|
    ensures forall k :: 0 <= k < |s| ==> r[k] == LowerChar(s[k])
  {
    if s == [] then [] else [LowerChar(s[0])] + Lower(s[1..])
  }

  function DigitValue(c: char): nat
    requires IsDigit(c)
  {
    c as int - '0' as int
  }

  function DigitChar(d: nat): (c: char)
    requires d < 10
    ensures IsDigit(c) && DigitValue(c) == d
  {
    ('0' as int + d) as char
  }

  /** Python's `int(s)` for a run of ASCII digits. */
  function DigitsValue(s: string): nat
    requires forall k :: 0 <= k < |s| ==> IsDigit(s[k])
  {
    if s == [] then 0 else DigitsValue(s[..|s| - 1]) * 10 + DigitValue(s[|s| - 1])
  }

  /** Python's `str(n)` for `n >= 0` (the formatting of `f"...{n}"`). */
  function NatToString(n: nat): (r: string)
    ensures AllDigits(r)
  {
    if n < 10 then [DigitChar(n)] else NatToString(n / 10) + [DigitChar(n % 10)]
  }

  /** Reading back a rendered number gives the number. */
  lemma {:induction false} NatToStringValue(n: nat)
    ensures DigitsValue(NatToString(n)) == n
  {
    if n >= 10 {
      NatToStringValue(n / 10);
      var s := NatToString(n);
      assert s[..|s| - 1] == NatToString(n / 10);
    }
  }
}

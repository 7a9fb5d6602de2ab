/**
 * The pieces of Rust's `str`/`char` behaviour the inventory, present, harvesting
 * and parser code relies on: Unicode whitespace, trimming, substring search,
 * `lines()`, `split`, `split_whitespace`, `join`, decimal rendering of integers
 * and `parse::<i32>()` of a digit run.
 */
module Strings {
  import opened Wrappers

  const I32Max: int := 2147483647
  const I32Min: int := -2147483648

  predicate IsI32(n: int) { I32Min <= n <= I32Max }

  predicate IsAsciiDigit(c: char) { '0' <= c <= '9' }

  /** The Unicode White_Space property: what `char::is_whitespace`, `str::trim`
      and the regex class `\s` all test. */
  predicate IsWhitespace(c: char) {
    || ('\t' <= c <= '\r') || c == ' ' || c == '\U{85}' || c == '\U{A0}'
    || c == '\U{1680}' || ('\U{2000}' <= c <= '\U{200A}')
    || c == '\U{2028}' || c == '\U{2029}' || c == '\U{202F}' || c == '\U{205F}'
    || c == '\U{3000}'
  }

  predicate NotWhitespace(c: char) { !IsWhitespace(c) }

  predicate AllDigits(s: string) { forall k :: 0 <= k < |s| ==> IsAsciiDigit(s[k]) }

  // ---------------------------------------------------------------------------
  // Scanning from the front
  // ---------------------------------------------------------------------------

  /** Length of the longest prefix of `s` whose characters all satisfy `p`. */
  function LeadingCount(s: string, p: char -> bool): (n: nat)
    ensures n <= |s|
  {
    if s == [] || !p(s[0]) then 0 else 1 + LeadingCount(s[1..], p)
  }

  /** The prefix LeadingCount measures satisfies `p`, and the character after
      it does not. */
  lemma {:induction false} LeadingCountSpec(s: string, p: char -> bool)
    ensures forall k :: 0 <= k < LeadingCount(s, p) ==> p(s[k])
    ensures LeadingCount(s, p) < |s| ==> !p(s[LeadingCount(s, p)])
  {
    if s != [] && p(s[0]) {
      LeadingCountSpec(s[1..], p);
      forall k | 0 <= k < LeadingCount(s, p)
        ensures p(s[k])
      {
        if k > 0 {
          assert s[k] == s[1..][k - 1];
        }
      }
    }
  }

  /** Length of the longest suffix of `s` whose characters all satisfy `p`. */
  function TrailingCount(s: string, p: char -> bool): (n: nat)
    ensures n <= |s|
  {
    if s == [] || !p(s[|s| - 1]) then 0 else 1 + TrailingCount(s[..|s| - 1], p)
  }

  /** The suffix TrailingCount measures satisfies `p`, and the character before
      it does not. */
  lemma {:induction false} TrailingCountSpec(s: string, p: char -> bool)
    ensures forall k :: |s| - TrailingCount(s, p) <= k < |s| ==> p(s[k])
    ensures TrailingCount(s, p) < |s| ==> !p(s[|s| - TrailingCount(s, p) - 1])
  {
    if s != [] && p(s[|s| - 1]) {
      var t := s[..|s| - 1];
      TrailingCountSpec(t, p);
      forall k | |s| - TrailingCount(s, p) <= k < |s|
        ensures p(s[k])
      {
        if k < |s| - 1 {
          assert s[k] == t[k];
        }
      }
    }
  }

  /** The characterisation in LeadingCountSpec determines LeadingCount. */
  lemma {:induction false} LeadingCountIs(s: string, p: char -> bool, n: nat)
    requires n <= |s|
    requires forall k :: 0 <= k < n ==> p(s[k])
    requires n == |s| || !p(s[n])
    ensures LeadingCount(s, p) == n
  {
    LeadingCountSpec(s, p);
  }

  /** Index of the first character at or after `i` that fails `p` (or |s|):
      the `while pos < len && p(chars[pos]) { pos += 1 }` loops of the source. */
  function SkipWhile(s: string, i: nat, p: char -> bool): (j: nat)
    requires i <= |s|
    ensures i <= j <= |s|
    decreases |s| - i
  {
    if i < |s| && p(s[i]) then SkipWhile(s, i + 1, p) else i
  }

  /** SkipWhile passes over characters satisfying `p` and stops on one that does not. */
  lemma {:induction false} SkipWhileSpec(s: string, i: nat, p: char -> bool)
    requires i <= |s|
    ensures forall k :: i <= k < SkipWhile(s, i, p) ==> p(s[k])
    ensures SkipWhile(s, i, p) < |s| ==> !p(s[SkipWhile(s, i, p)])
    decreases |s| - i
  {
    if i < |s| && p(s[i]) {
      SkipWhileSpec(s, i + 1, p);
    }
  }

  /** The characterisation in SkipWhileSpec determines SkipWhile. */
  lemma {:induction false} SkipWhileIs(s: string, i: nat, p: char -> bool, j: nat)
    requires i <= j <= |s|
    requires forall k :: i <= k < j ==> p(s[k])
    requires j == |s| || !p(s[j])
    ensures SkipWhile(s, i, p) == j
    decreases j - i
  {
    if i < j {
      SkipWhileIs(s, i + 1, p, j);
    }
  }

  lemma {:induction false} LeadingCountAppend(a: string, b: string, p: char -> bool)
    requires forall k :: 0 <= k < |a| ==> p(a[k])
    ensures LeadingCount(a + b, p) == |a| + LeadingCount(b, p)
  {
    if a != [] {
      assert (a + b)[1..] == a[1..] + b;
      LeadingCountAppend(a[1..], b, p);
    } else {
      assert a + b == b;
    }
  }

  lemma LeadingCountStops(a: string, b: string, p: char -> bool)
    requires forall k :: 0 <= k < |a| ==> p(a[k])
    requires b != [] && !p(b[0])
    ensures LeadingCount(a + b, p) == |a|
  {
    LeadingCountAppend(a, b, p);
  }

  /** `str::trim_start`. */
  function TrimStart(s: string): (r: string)
    ensures |r| <= |s|
  {
    if s != [] && IsWhitespace(s[0]) then TrimStart(s[1..]) else s
  }

  /** `str::trim_end`. */
  function TrimEnd(s: string): (r: string)
    ensures |r| <= |s|
  {
    if s != [] && IsWhitespace(s[|s| - 1]) then TrimEnd(s[..|s| - 1]) else s
  }

  /** `str::trim`: drops leading and trailing Unicode whitespace. */
  function Trim(s: string): (r: string)
    ensures |r| <= |s|
  {
    TrimEnd(TrimStart(s))
  }

  /** `trim_start` drops exactly the leading whitespace. */
  lemma {:induction false} TrimStartIs(s: string)
    ensures TrimStart(s) == s[LeadingCount(s, IsWhitespace)..]
  {
    if s != [] && IsWhitespace(s[0]) {
      TrimStartIs(s[1..]);
      assert s[1..][LeadingCount(s[1..], IsWhitespace)..] == s[1 + LeadingCount(s[1..], IsWhitespace)..];
    }
  }

  lemma {:induction false} TrimStartFirst(s: string)
    ensures TrimStart(s) == [] || NotWhitespace(TrimStart(s)[0])
  {
    if s != [] && IsWhitespace(s[0]) {
      TrimStartFirst(s[1..]);
    }
  }

  /** `trim_end` drops exactly the trailing whitespace. */
  lemma {:induction false} TrimEndIs(s: string)
    ensures TrimEnd(s) == s[..|s| - TrailingCount(s, IsWhitespace)]
  {
    if s != [] && IsWhitespace(s[|s| - 1]) {
      var p := s[..|s| - 1];
      TrimEndIs(p);
      assert p[..|p| - TrailingCount(p, IsWhitespace)] == s[..|p| - TrailingCount(p, IsWhitespace)];
    }
  }

  /** What `str::trim` leaves: a slice of `s` that is empty exactly when `s`
      is all whitespace, and otherwise starts and ends with a character that
      is not whitespace. */
  lemma TrimEnds(s: string)
    ensures Trim(s) == [] || (NotWhitespace(Trim(s)[0]) && NotWhitespace(Trim(s)[|Trim(s)| - 1]))
    ensures Trim(s) == [] <==> forall k :: 0 <= k < |s| ==> IsWhitespace(s[k])
  {
    TrimStartIs(s);
    var n := LeadingCount(s, IsWhitespace);
    var u := s[n..];
    TrimEndIs(u);
    var m := TrailingCount(u, IsWhitespace);
    LeadingCountSpec(s, IsWhitespace);
    TrailingCountSpec(u, IsWhitespace);
    assert Trim(s) == s[n..n + (|u| - m)];
    if Trim(s) != [] {
      assert Trim(s)[0] == u[0];
      assert Trim(s)[|Trim(s)| - 1] == u[|u| - m - 1];
    }
  }

  lemma TrimStartNoop(s: string)
    requires s == [] || NotWhitespace(s[0])
    ensures TrimStart(s) == s
  {
  }

  lemma TrimNoop(s: string)
    requires s == [] || (NotWhitespace(s[0]) && NotWhitespace(s[|s| - 1]))
    ensures Trim(s) == s
  {
    TrimStartNoop(s);
  }

  lemma TrimIdempotent(s: string)
    ensures Trim(Trim(s)) == Trim(s)
  {
    TrimEnds(s);
    TrimNoop(Trim(s));
  }

  // ---------------------------------------------------------------------------
  // Substrings
  // ---------------------------------------------------------------------------

  /** `c` does not occur in `s`. */
  predicate NoChar(s: string, c: char) { forall k :: 0 <= k < |s| ==> s[k] != c }

  lemma NoCharConcat(a: string, b: string, c: char)
    ensures NoChar(a + b, c) <==> NoChar(a, c) && NoChar(b, c)
  {
    if NoChar(a, c) && NoChar(b, c) {
      forall k | 0 <= k < |a + b| ensures (a + b)[k] != c {
        if k >= |a| { assert (a + b)[k] == b[k - |a|]; }
      }
    }
    if NoChar(a + b, c) {
      forall k | 0 <= k < |a| ensures a[k] != c {
        assert (a + b)[k] == a[k];
      }
      forall k | 0 <= k < |b| ensures b[k] != c {
        assert (a + b)[|a| + k] == b[k];
      }
    }
  }

  predicate StartsWith(s: string, w: string) { |w| <= |s| && s[..|w|] == w }

  /** `w` occurs in `s` at index `k`. */
  predicate MatchAt(s: string, w: string, k: nat) { k + |w| <= |s| && s[k..k + |w|] == w }

  lemma MatchAtShift(s: string, w: string, k: nat)
    requires s != [] && k >= 1
    ensures MatchAt(s, w, k) == MatchAt(s[1..], w, k - 1)
  {
    if k + |w| <= |s| {
      var a, b := s[k..k + |w|], s[1..][k - 1..k - 1 + |w|];
      assert |a| == |b| && forall j :: 0 <= j < |a| ==> a[j] == s[k + j] == b[j];
      assert a == b;
    }
  }

  /** `str::find`: index of the first occurrence of `w` in `s`. */
  function Find(s: string, w: string): (r: Option<nat>)
    ensures r.Some? ==> MatchAt(s, w, r.value)
    ensures r.Some? ==> forall k: nat :: k < r.value ==> !MatchAt(s, w, k)
    ensures r.None? ==> forall k: nat :: !MatchAt(s, w, k)
    decreases |s|
  {
    if StartsWith(s, w) then
      assert s[0..|w|] == s[..|w|];
      Some(0)
    else if s == [] then None
    else
      assert !MatchAt(s, w, 0) by {
        if |w| <= |s| { assert s[0..|w|] == s[..|w|]; }
      }
      forall k: nat | 1 <= k
        ensures MatchAt(s, w, k) == MatchAt(s[1..], w, k - 1)
      {
        MatchAtShift(s, w, k);
      }
      match Find(s[1..], w)
      case None => None
      case Some(i) => Some(i + 1)
  }

  /** `str::contains`. */
  predicate Contains(s: string, w: string) { Find(s, w).Some? }

  lemma ContainsAt(s: string, w: string, k: nat)
    requires k + |w| <= |s| && s[k..k + |w|] == w
    ensures Contains(s, w)
  {
    assert MatchAt(s, w, k);
  }

  /** If some character of `w` never occurs in `s`, then `w` occurs nowhere in `s`. */
  lemma NoMatchByChar(s: string, w: string, j: nat)
    requires j < |w| && NoChar(s, w[j])
    ensures forall k: nat :: !MatchAt(s, w, k)
    ensures !Contains(s, w)
  {
    forall k: nat | k + |w| <= |s|
      ensures !MatchAt(s, w, k)
    {
      assert s[k..k + |w|][j] == s[k + j];
    }
  }

  /** An index found after `n` more characters. */
  function ShiftIndex(r: Option<nat>, n: nat): Option<nat>
  {
    match r
    case None => None
    case Some(i) => Some(i + n)
  }

  /** A search that does not match at the front goes on one character later. */
  lemma FindStep(s: string, w: string)
    requires s != [] && !StartsWith(s, w)
    ensures Find(s, w) == ShiftIndex(Find(s[1..], w), 1)
  {
  }

  /** A prefix free of `w`'s first character only shifts the search result. */
  lemma {:induction false} FindSkip(p: string, s: string, w: string)
    requires w != [] && NoChar(p, w[0])
    ensures Find(p + s, w) == ShiftIndex(Find(s, w), |p|)
  {
    if p != [] {
      assert (p + s)[1..] == p[1..] + s;
      FindSkip(p[1..], s, w);
      FindStep(p + s, w);
    } else {
      assert p + s == s;
    }
  }

  // ---------------------------------------------------------------------------
  // Joining and splitting
  // ---------------------------------------------------------------------------

  /** `[String]::join`. */
  function Join(xs: seq<string>, sep: string): string
  {
    if |xs| == 0 then ""
    else if |xs| == 1 then xs[0]
    else xs[0] + sep + Join(xs[1..], sep)
  }

  lemma {:induction false} JoinSnoc(xs: seq<string>, x: string, sep: string)
    requires xs != []
    ensures Join(xs + [x], sep) == Join(xs, sep) + sep + x
  {
    if |xs| == 1 {
      assert xs + [x] == [xs[0], x];
      assert Join([x], sep) == x;
    } else {
      assert (xs + [x])[1..] == xs[1..] + [x];
      JoinSnoc(xs[1..], x, sep);
    }
  }

  /** `str::split(c)`: the pieces between the occurrences of `c` (never empty). */
  function SplitOn(s: string, c: char): (r: seq<string>)
    ensures |r| >= 1
    ensures forall i :: 0 <= i < |r| ==> NoChar(r[i], c)
    decreases |s|
  {
    var n := LeadingCount(s, x => x != c);
    LeadingCountSpec(s, x => x != c);
    if n == |s| then [s] else [s[..n]] + SplitOn(s[n + 1..], c)
  }

  /** Splitting at `c` undoes joining with `c` when no piece contains `c`. */
  lemma {:induction false} SplitOnJoin(xs: seq<string>, c: char)
    requires xs != []
    requires forall i :: 0 <= i < |xs| ==> NoChar(xs[i], c)
    ensures SplitOn(Join(xs, [c]), c) == xs
  {
    if |xs| == 1 {
      LeadingCountAppend(xs[0], [], x => x != c);
      assert xs[0] + [] == xs[0];
    } else {
      var s := Join(xs, [c]);
      var rest := Join(xs[1..], [c]);
      assert s == xs[0] + ([c] + rest);
      LeadingCountStops(xs[0], [c] + rest, x => x != c);
      assert s[..|xs[0]|] == xs[0];
      assert s[|xs[0]| + 1..] == rest;
      SplitOnJoin(xs[1..], c);
    }
  }

  function StripCR(s: string): string {
    if s != [] && s[|s| - 1] == '\r' then s[..|s| - 1] else s
  }

  /** `str::lines`: split at `\n`, drop one `\r` before each `\n`, and produce no
      final empty line for a trailing `\n`. */
  function Lines(s: string): (r: seq<string>)
    ensures forall i :: 0 <= i < |r| ==> NoChar(r[i], '\n')
    decreases |s|
  {
    if s == [] then []
    else
      var n := LeadingCount(s, x => x != '\n');
      LeadingCountSpec(s, x => x != '\n');
      if n == |s| then [s] else [StripCR(s[..n])] + Lines(s[n + 1..])
  }

  /** For text without `\r` that does not end with `\n`, `lines()` and
      `split('\n')` agree. */
  lemma {:induction false} LinesAsSplit(s: string)
    requires s != [] && s[|s| - 1] != '\n'
    requires NoChar(s, '\r')
    ensures Lines(s) == SplitOn(s, '\n')
  {
    var n := LeadingCount(s, x => x != '\n');
    LeadingCountSpec(s, x => x != '\n');
    if n < |s| {
      assert n + 1 < |s|;
      assert s[..n] == [] || s[..n][|s[..n]| - 1] == s[n - 1];
      LinesAsSplit(s[n + 1..]);
    }
  }

  /** `str::split_whitespace`: the maximal runs of non-whitespace characters. */
  function Words(s: string): (r: seq<string>)
    ensures forall i :: 0 <= i < |r| ==> IsWord(r[i])
    decreases |s|
  {
    var t := TrimStart(s);
    if t == [] then []
    else
      TrimStartFirst(s);
      var n := LeadingCount(t, NotWhitespace);
      LeadingCountSpec(t, NotWhitespace);
      assert n >= 1 && IsWord(t[..n]);
      [t[..n]] + Words(t[n..])
  }

  predicate IsWord(w: string) { w != [] && forall k :: 0 <= k < |w| ==> NotWhitespace(w[k]) }

  lemma WordsOfWord(w: string)
    requires IsWord(w)
    ensures Words(w) == [w]
  {
    TrimStartNoop(w);
    LeadingCountAppend(w, [], NotWhitespace);
    assert w + [] == w;
  }

  lemma TrimStartSpace(rest: string)
    ensures TrimStart(" " + rest) == TrimStart(rest)
  {
    assert (" " + rest)[1..] == rest;
  }

  lemma WordsUnfold(s: string, n: nat)
    requires s != [] && NotWhitespace(s[0])
    requires n == LeadingCount(s, NotWhitespace)
    ensures Words(s) == [s[..n]] + Words(s[n..])
  {
    TrimStartNoop(s);
  }

  lemma WordsCons(w: string, rest: string)
    requires IsWord(w)
    ensures Words(w + " " + rest) == [w] + Words(rest)
  {
    var s := w + (" " + rest);
    assert w + " " + rest == s;
    TrimStartNoop(s);
    LeadingCountStops(w, " " + rest, NotWhitespace);
    WordsUnfold(s, |w|);
    assert s[..|w|] == w;
    assert s[|w|..] == " " + rest;
    TrimStartSpace(rest);
  }

  /** Re-splitting words joined by single spaces gives the words back. */
  lemma {:induction false} WordsOfJoin(ws: seq<string>)
    requires forall i :: 0 <= i < |ws| ==> IsWord(ws[i])
    ensures Words(Join(ws, " ")) == ws
  {
    if |ws| == 1 {
      WordsOfWord(ws[0]);
    } else if |ws| > 1 {
      WordsCons(ws[0], Join(ws[1..], " "));
      WordsOfJoin(ws[1..]);
    }
  }

  // ---------------------------------------------------------------------------
  // ASCII case mapping
  // ---------------------------------------------------------------------------

  function ToLowerAscii(c: char): char {
    if 'A' <= c <= 'Z' then (c as int + 32) as char else c
  }

  function ToUpperAscii(c: char): char {
    if 'a' <= c <= 'z' then (c as int - 32) as char else c
  }

  function LowerAscii(s: string): (r: string)
    ensures |r| == |s| && forall k :: 0 <= k < |s| ==> r[k] == ToLowerAscii(s[k])
  {
    seq(|s|, k requires 0 <= k < |s| => ToLowerAscii(s[k]))
  }

  /** `str::eq_ignore_ascii_case`. */
  predicate EqIgnoreAsciiCase(a: string, b: string) { LowerAscii(a) == LowerAscii(b) }

  // ---------------------------------------------------------------------------
  // Decimal numbers
  // ---------------------------------------------------------------------------

  function DigitChar(d: nat): char
    requires d < 10
  {
    ('0' as int + d) as char
  }

  /** The value of one decimal digit (0 for any other character). */
  function DigitValue(ch: char): nat
  {
    if IsAsciiDigit(ch) then ch as int - '0' as int else 0
  }

  /** The value of a run of ASCII decimal digits (leading zeros allowed). */
  function DigitsValue(d: string): nat
  {
    if d == [] then 0 else DigitsValue(d[..|d| - 1]) * 10 + DigitValue(d[|d| - 1])
  }

  /** `Display` of a non-negative integer: decimal digits, no leading zero. */
  function NatToString(n: nat): (r: string)
    ensures r != []
  {
    if n < 10 then [DigitChar(n)] else NatToString(n / 10) + [DigitChar(n % 10)]
  }

  /** The rendering is a digit run without a leading zero. */
  lemma {:induction false} NatToStringDigits(n: nat)
    ensures AllDigits(NatToString(n))
    ensures NatToString(n)[0] == '0' ==> n == 0 && NatToString(n) == "0"
  {
    if n >= 10 {
      NatToStringDigits(n / 10);
      var s := NatToString(n);
      assert s == NatToString(n / 10) + [DigitChar(n % 10)];
      assert s[0] == NatToString(n / 10)[0];
    }
  }

  /** Reading the rendering back gives the number. */
  lemma {:induction false} NatToStringValue(n: nat)
    ensures AllDigits(NatToString(n))
    ensures DigitsValue(NatToString(n)) == n
  {
    NatToStringDigits(n);
    if n >= 10 {
      var s := NatToString(n);
      assert s[..|s| - 1] == NatToString(n / 10);
      NatToStringValue(n / 10);
    }
  }

  /** `Display` of an integer: a minus sign before the digits when negative. */
  function IntToString(i: int): (r: string)
    ensures r != []
  {
    if i < 0 then "-" + NatToString(-i) else NatToString(i)
  }

  lemma IntToStringInjective(a: int, b: int)
    requires IntToString(a) == IntToString(b)
    ensures a == b
  {
    var s := IntToString(a);
    if a < 0 && b < 0 {
      assert s[1..] == NatToString(-a) == NatToString(-b);
      NatToStringValue(-a);
      NatToStringValue(-b);
    } else if a >= 0 && b >= 0 {
      NatToStringValue(a);
      NatToStringValue(b);
    } else {
      // one text starts with '-', the other with a digit
      NatToStringDigits(if a < 0 then b else a);
      assert false;
    }
  }

  /** `"<digits>".parse::<i32>()` for a digit run: fails when the run is empty
      or its value overflows an i32. Every caller passes a run of ASCII digits. */
  function ParseI32(d: string): (r: Option<int>)
    ensures r.Some? ==> d != [] && 0 <= r.value <= I32Max && r.value == DigitsValue(d)
    ensures r.None? <==> d == [] || DigitsValue(d) > I32Max
  {
    if d != [] && DigitsValue(d) <= I32Max then Some(DigitsValue(d)) else None
  }
}

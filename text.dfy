/**
 * The string operations of Rust's standard library that the three core files
 * rely on (`trim`, `split_whitespace`, `split`, `split_once`, `lines`,
 * `join`, `starts_with`, `contains`, `to_ascii_lowercase` and the integer
 * `parse` implementations), over strings as sequences of Unicode scalar values.
 */
module Text {
  import opened Wrappers

  /** Unicode White_Space, the set Rust's `char::is_whitespace` tests. */
  predicate IsWhitespace(c: char) {
    var n := c as int;
    (0x09 <= n <= 0x0D) || n == 0x20 || n == 0x85 || n == 0xA0 || n == 0x1680
    || (0x2000 <= n <= 0x200A) || n == 0x2028 || n == 0x2029 || n == 0x202F
    || n == 0x205F || n == 0x3000
  }

  predicate NoWhitespace(s: string) {
    forall i :: 0 <= i < |s| ==> !IsWhitespace(s[i])
  }

  /** A word as `split_whitespace` yields it: non-empty, no whitespace. */
  predicate IsWord(s: string) {
    s != [] && NoWhitespace(s)
  }

  predicate IsAsciiDigit(c: char) {
    '0' <= c <= '9'
  }

  /** `pat` occurs in `s` at position `k`. */
  predicate OccursAt(s: string, pat: string, k: nat) {
    k + |pat| <= |s| && s[k..k + |pat|] == pat
  }

  // ---------------------------------------------------------------------------
  // trim
  // ---------------------------------------------------------------------------

  /** `trim_start`: drops the leading whitespace and nothing else. */
  function TrimStart(s: string): (r: string)
    ensures |r| <= |s| && r == s[|s| - |r|..]
    ensures r == [] || !IsWhitespace(r[0])
  {
    if s != [] && IsWhitespace(s[0]) then TrimStart(s[1..]) else s
  }

  /** What `trim_start` drops is whitespace. */
  lemma {:induction false} TrimStartDrops(s: string)
    ensures forall i :: 0 <= i < |s| - |TrimStart(s)| ==> IsWhitespace(s[i])
  {
    if s != [] && IsWhitespace(s[0]) {
      TrimStartDrops(s[1..]);
      forall i | 1 <= i < |s| - |TrimStart(s)|
        ensures IsWhitespace(s[i])
      {
        assert s[i] == s[1..][i - 1];
      }
    }
  }

  /** `trim_end`: drops the trailing whitespace and nothing else. */
  function TrimEnd(s: string): (r: string)
    ensures |r| <= |s| && r == s[..|r|]
    ensures r == [] || !IsWhitespace(r[|r| - 1])
  {
    if s != [] && IsWhitespace(s[|s| - 1]) then TrimEnd(s[..|s| - 1]) else s
  }

  /** What `trim_end` drops is whitespace. */
  lemma {:induction false} TrimEndDrops(s: string)
    ensures forall i :: |TrimEnd(s)| <= i < |s| ==> IsWhitespace(s[i])
  {
    if s != [] && IsWhitespace(s[|s| - 1]) {
      TrimEndDrops(s[..|s| - 1]);
      forall i | |TrimEnd(s)| <= i < |s| - 1
        ensures IsWhitespace(s[i])
      {
        assert s[i] == s[..|s| - 1][i];
      }
    }
  }

  /** `trim`: the longest infix of `s` that neither starts nor ends with whitespace. */
  function Trim(s: string): (r: string)
    ensures r == [] || (!IsWhitespace(r[0]) && !IsWhitespace(r[|r| - 1]))
    ensures (s == [] || (!IsWhitespace(s[0]) && !IsWhitespace(s[|s| - 1]))) ==> r == s
  {
    TrimEnd(TrimStart(s))
  }

  /** The trimmed string sits in `s` after the leading whitespace. */
  lemma TrimInfix(s: string)
    ensures OccursAt(s, Trim(s), |s| - |TrimStart(s)|)
  {
    var t := TrimStart(s);
    var r := TrimEnd(t);
    var k := |s| - |t|;
    assert t == s[k..];
    assert r == t[..|r|];
    SliceOfSuffix(s, k, |r|);
  }

  lemma SliceOfSuffix<T>(s: seq<T>, k: nat, m: nat)
    requires k + m <= |s|
    ensures s[k..][..m] == s[k..k + m]
  {
  }

  /** Trimming keeps no character the string lacks. */
  lemma TrimWithin(s: string, c: char)
    requires c !in s
    ensures c !in Trim(s)
  {
    var r := Trim(s);
    var k := |s| - |TrimStart(s)|;
    TrimInfix(s);
    forall j | 0 <= j < |r|
      ensures r[j] != c
    {
      assert r[j] == s[k..k + |r|][j] == s[k + j];
    }
  }

  // ---------------------------------------------------------------------------
  // split_whitespace
  // ---------------------------------------------------------------------------

  /** The longest prefix of `s` without whitespace. */
  function TakeWord(s: string): (w: string)
    ensures |w| <= |s| && w == s[..|w|] && NoWhitespace(w)
    ensures |w| < |s| ==> IsWhitespace(s[|w|])
    ensures s != [] && !IsWhitespace(s[0]) ==> w != []
  {
    if s == [] || IsWhitespace(s[0]) then [] else [s[0]] + TakeWord(s[1..])
  }

  /** `split_whitespace`: the maximal runs of non-whitespace characters, in order. */
  function SplitWhitespace(s: string): (r: seq<string>)
    ensures forall i :: 0 <= i < |r| ==> IsWord(r[i])
    decreases |s|
  {
    var t := TrimStart(s);
    if t == [] then []
    else
      var w := TakeWord(t);
      var rest := SplitWhitespace(t[|w|..]);
      WordsCons(w, rest);
      [w] + rest
  }

  lemma WordsCons(w: string, ws: seq<string>)
    requires IsWord(w) && forall i :: 0 <= i < |ws| ==> IsWord(ws[i])
    ensures forall i :: 0 <= i < |ws| + 1 ==> IsWord(([w] + ws)[i])
  {
    assert forall i :: 1 <= i < |ws| + 1 ==> ([w] + ws)[i] == ws[i - 1];
  }

  /** `join`: the parts with `sep` between every two of them. */
  function JoinWith(parts: seq<string>, sep: string): string {
    if parts == [] then ""
    else if |parts| == 1 then parts[0]
    else parts[0] + sep + JoinWith(parts[1..], sep)
  }

  lemma TakeWordBeforeSpace(w: string, rest: string)
    requires NoWhitespace(w) && rest != [] && IsWhitespace(rest[0])
    ensures TakeWord(w + rest) == w
  {
    if w != [] {
      assert (w + rest)[1..] == w[1..] + rest;
      TakeWordBeforeSpace(w[1..], rest);
    }
  }

  lemma TakeWordWhole(w: string)
    requires NoWhitespace(w)
    ensures TakeWord(w) == w
  {
    if w != [] {
      TakeWordWhole(w[1..]);
    }
  }

  /** Splitting words joined by single spaces gives the words back. */
  lemma {:induction false} SplitJoinedWords(ws: seq<string>)
    requires forall i :: 0 <= i < |ws| ==> IsWord(ws[i])
    ensures SplitWhitespace(JoinWith(ws, " ")) == ws
  {
    if |ws| == 1 {
      SplitOneWord(ws[0]);
    } else if |ws| > 1 {
      assert JoinWith(ws, " ") == ws[0] + " " + JoinWith(ws[1..], " ");
      SplitJoinedWords(ws[1..]);
      SplitWordThenSpace(ws[0], JoinWith(ws[1..], " "));
      assert ws == [ws[0]] + ws[1..];
    }
  }

  /** A single word splits into itself. */
  lemma SplitOneWord(w: string)
    requires IsWord(w)
    ensures SplitWhitespace(w) == [w]
  {
    assert TrimStart(w) == w;
    TakeWordWhole(w);
    assert w[|w|..] == [];
  }

  /** A word and a space come off the front of a split as that word. */
  lemma SplitWordThenSpace(w: string, tail: string)
    requires IsWord(w)
    ensures SplitWhitespace(w + " " + tail) == [w] + SplitWhitespace(tail)
  {
    var s := w + " " + tail;
    assert s == w + (" " + tail);
    assert TrimStart(s) == s;
    TakeWordBeforeSpace(w, " " + tail);
    assert s[|w|..] == " " + tail;
    assert (" " + tail)[1..] == tail;
    assert SplitWhitespace(" " + tail) == SplitWhitespace(tail);
  }

  // ---------------------------------------------------------------------------
  // split / lines
  // ---------------------------------------------------------------------------

  /** `split(c)`: the pieces between occurrences of `c`; one more piece than occurrences. */
  function SplitOn(s: string, c: char): (r: seq<string>)
    ensures |r| >= 1
    ensures forall i :: 0 <= i < |r| ==> c !in r[i]
  {
    if s == [] then [[]]
    else
      var t := SplitOn(s[1..], c);
      if s[0] == c then [[]] + t else [[s[0]] + t[0]] + t[1..]
  }

  /** Rejoining the pieces with the separator gives the string back. */
  lemma {:induction false} SplitOnJoin(s: string, c: char)
    ensures JoinWith(SplitOn(s, c), [c]) == s
  {
    if s != [] {
      SplitOnJoin(s[1..], c);
      var t := SplitOn(s[1..], c);
      if s[0] == c {
        assert s == [c] + s[1..];
      } else if |t| == 1 {
      } else {
        assert JoinWith(t, [c]) == t[0] + [c] + JoinWith(t[1..], [c]);
        assert s == [s[0]] + s[1..];
      }
    }
  }

  /** A piece free of the separator is glued to the first piece that follows it. */
  lemma {:induction false} SplitOnPrefix(w: string, rest: string, c: char)
    requires c !in w
    ensures SplitOn(w + rest, c) == [w + SplitOn(rest, c)[0]] + SplitOn(rest, c)[1..]
  {
    var r := SplitOn(rest, c);
    if w == [] {
      assert w + rest == rest && w + r[0] == r[0];
      assert r == [r[0]] + r[1..];
    } else {
      assert (w + rest)[1..] == w[1..] + rest;
      SplitOnPrefix(w[1..], rest, c);
      var t := SplitOn(w[1..] + rest, c);
      assert t[0] == w[1..] + r[0] && t[1..] == r[1..];
      assert [w[0]] + (w[1..] + r[0]) == w + r[0];
    }
  }

  /** The pieces of `s` that are not empty. */
  function NonEmpty(pieces: seq<string>): seq<string> {
    if pieces == [] then []
    else if pieces[0] == [] then NonEmpty(pieces[1..])
    else [pieces[0]] + NonEmpty(pieces[1..])
  }

  /** What is kept is non-empty and was among the pieces. */
  lemma {:induction false} NonEmptyElems(pieces: seq<string>)
    ensures forall i :: 0 <= i < |NonEmpty(pieces)| ==> NonEmpty(pieces)[i] != []
    ensures forall x :: x in NonEmpty(pieces) ==> x in pieces
  {
    if pieces != [] {
      NonEmptyElems(pieces[1..]);
      if pieces[0] != [] {
        var r := NonEmpty(pieces[1..]);
        assert NonEmpty(pieces) == [pieces[0]] + r;
        forall i | 0 <= i < |NonEmpty(pieces)|
          ensures NonEmpty(pieces)[i] != []
        {
          if i > 0 {
            assert NonEmpty(pieces)[i] == r[i - 1];
          }
        }
      }
    }
  }

  function StripCarriageReturn(p: string): string {
    if p != [] && p[|p| - 1] == '\r' then p[..|p| - 1] else p
  }

  /**
   * `lines`: the pieces between line feeds, each with one carriage return
   * before its line feed removed; a final line feed ends the last line
   * rather than starting an empty one.
   */
  function Lines(s: string): (r: seq<string>)
    ensures forall i :: 0 <= i < |r| ==> '\n' !in r[i]
  {
    LinesOf(SplitOn(s, '\n'))
  }

  /** The lines of the pieces between line feeds: all but the last stripped, the last kept unless empty. */
  function LinesOf(pieces: seq<string>): (r: seq<string>)
    requires |pieces| >= 1 && forall i :: 0 <= i < |pieces| ==> '\n' !in pieces[i]
    ensures forall i :: 0 <= i < |r| ==> '\n' !in r[i]
  {
    var n := |pieces|;
    var body := seq(n - 1, i requires 0 <= i < n - 1 => StripCarriageReturn(pieces[i]));
    body + (if pieces[n - 1] == [] then [] else [pieces[n - 1]])
  }

  /** One more piece in front is one more stripped line in front. */
  lemma LinesOfCons(a: string, t: seq<string>)
    requires '\n' !in a && |t| >= 1 && forall i :: 0 <= i < |t| ==> '\n' !in t[i]
    ensures LinesOf([a] + t) == [StripCarriageReturn(a)] + LinesOf(t)
  {
    var pieces := [a] + t;
    var n := |t|;
    var body := seq(n - 1, i requires 0 <= i < n - 1 => StripCarriageReturn(t[i]));
    var body' := seq(n, i requires 0 <= i < n => StripCarriageReturn(pieces[i]));
    assert forall i :: 0 <= i < n - 1 ==> body'[i + 1] == body[i];
    assert body' == [StripCarriageReturn(a)] + body;
    assert pieces[n] == t[n - 1];
  }

  /** The empty text has no lines. */
  lemma LinesEmpty()
    ensures Lines("") == []
  {
  }

  /** Text without a line feed is one line, kept whole. */
  lemma LinesSingle(s: string)
    requires '\n' !in s && s != []
    ensures Lines(s) == [s]
  {
    SplitOnPrefix(s, "", '\n');
    assert s + "" == s;
  }

  /** A line without a feed, then a feed: the first piece is that line, the rest split on. */
  lemma SplitOnLineFeed(a: string, b: string)
    requires '\n' !in a
    ensures SplitOn(a + "\n" + b, '\n') == [a] + SplitOn(b, '\n')
  {
    var t := SplitOn(b, '\n');
    assert ("\n" + b)[0] == '\n' && ("\n" + b)[1..] == b;
    assert SplitOn("\n" + b, '\n') == [[]] + t;
    SplitOnPrefix(a, "\n" + b, '\n');
    assert a + "\n" + b == a + ("\n" + b);
    var u := SplitOn("\n" + b, '\n');
    assert u[0] == [] && u[1..] == t;
    assert a + u[0] == a;
  }

  /** A line feed ends the line before it, which loses one carriage return before the feed. */
  lemma LinesCons(a: string, b: string)
    requires '\n' !in a
    ensures Lines(a + "\n" + b) == [StripCarriageReturn(a)] + Lines(b)
  {
    SplitOnLineFeed(a, b);
    LinesOfCons(a, SplitOn(b, '\n'));
  }

  // ---------------------------------------------------------------------------
  // prefixes, infixes, split_once, case
  // ---------------------------------------------------------------------------

  predicate StartsWith(s: string, prefix: string) {
    |prefix| <= |s| && s[..|prefix|] == prefix
  }

  /** A sequence is its own longest prefix. */
  lemma TakeAll<T>(s: seq<T>)
    ensures s[..|s|] == s
  {
  }

  /** `strip_prefix`. */
  function StripPrefix(s: string, prefix: string): (r: Option<string>)
    ensures r.Some? <==> StartsWith(s, prefix)
    ensures r.Some? ==> s == prefix + r.value
  {
    if StartsWith(s, prefix) then Some(s[|prefix|..]) else None
  }

  /** `contains(pat)` for a string pattern. */
  function Contains(s: string, pat: string): (b: bool)
    ensures b <==> exists k: nat :: OccursAt(s, pat, k)
    decreases |s|
  {
    if |pat| > |s| then false
    else if s[..|pat|] == pat then
      assert OccursAt(s, pat, 0);
      true
    else
      var b := Contains(s[1..], pat);
      forall k: nat
        ensures OccursAt(s, pat, k + 1) <==> OccursAt(s[1..], pat, k)
      {
        if k + 1 + |pat| <= |s| {
          assert forall i :: k + 1 <= i < k + 1 + |pat| ==> s[i] == s[1..][i - 1];
          assert s[k + 1..k + 1 + |pat|] == s[1..][k..k + |pat|];
        }
      }
      assert !OccursAt(s, pat, 0);
      assert (exists k: nat :: OccursAt(s, pat, k)) ==> exists k: nat :: OccursAt(s[1..], pat, k) by {
        if exists k: nat :: OccursAt(s, pat, k) {
          var k: nat :| OccursAt(s, pat, k);
          assert k > 0;
          assert OccursAt(s[1..], pat, k - 1);
        }
      }
      b
  }

  /** The position of the first `c` in `s`, or `|s|` when there is none. */
  function IndexOf(s: string, c: char): (k: nat)
    ensures k <= |s| && (k < |s| ==> s[k] == c)
    ensures forall i :: 0 <= i < k ==> s[i] != c
  {
    if s == [] then 0 else if s[0] == c then 0 else 1 + IndexOf(s[1..], c)
  }

  /** `split_once(c)`: the text before and after the first `c`. */
  function SplitOnce(s: string, c: char): (r: Option<(string, string)>)
    ensures r.None? <==> c !in s
    ensures r.Some? ==> s == r.value.0 + [c] + r.value.1 && c !in r.value.0
  {
    var k := IndexOf(s, c);
    if k == |s| then None
    else
      assert s == s[..k] + [c] + s[k + 1..];
      Some((s[..k], s[k + 1..]))
  }

  /** A text cut at its first `c` gives back the two pieces. */
  lemma SplitOnceAt(a: string, b: string, c: char)
    requires c !in a
    ensures SplitOnce(a + [c] + b, c) == Some((a, b))
  {
    var s := a + [c] + b;
    assert s[|a|] == c;
    var k := IndexOf(s, c);
    assert forall i :: 0 <= i < |a| ==> s[i] == a[i];
    assert k == |a|;
    assert s[..k] == a && s[k + 1..] == b;
  }

  /** The position of the first whitespace character, or `|s|`. */
  function IndexOfWhitespace(s: string): (k: nat)
    ensures k <= |s| && (k < |s| ==> IsWhitespace(s[k]))
    ensures forall i :: 0 <= i < k ==> !IsWhitespace(s[i])
  {
    if s == [] then 0 else if IsWhitespace(s[0]) then 0 else 1 + IndexOfWhitespace(s[1..])
  }

  /**
   * `split_once(char::is_whitespace).unwrap_or((s, ""))`: the first word and
   * what follows the whitespace character after it.
   */
  function SplitAtWhitespace(s: string): (r: (string, string))
    ensures NoWhitespace(r.0)
    ensures |r.0| <= |s| && r.0 == s[..|r.0|]
    ensures r.1 == [] ==> r.0 == s || (|s| == |r.0| + 1 && IsWhitespace(s[|s| - 1]))
    ensures |r.0| < |s| ==> s == r.0 + [s[|r.0|]] + r.1 && IsWhitespace(s[|r.0|])
    ensures |r.0| == |s| ==> r == (s, "")
  {
    var k := IndexOfWhitespace(s);
    if k == |s| then (s, "")
    else
      assert s == s[..k] + [s[k]] + s[k + 1..];
      (s[..k], s[k + 1..])
  }

  function LowerAscii(c: char): char {
    if 'A' <= c <= 'Z' then (c as int + 32) as char else c
  }

  /** `to_ascii_lowercase`: maps `A`-`Z` to `a`-`z` and keeps every other character. */
  function ToAsciiLower(s: string): (r: string)
    ensures |r| == |s|
    ensures forall i :: 0 <= i < |s| ==> r[i] == LowerAscii(s[i])
  {
    seq(|s|, i requires 0 <= i < |s| => LowerAscii(s[i]))
  }

  // ---------------------------------------------------------------------------
  // integer parsing
  // ---------------------------------------------------------------------------

  const U64_LIMIT: nat := 0x1_0000_0000_0000_0000
  const I32_LIMIT: nat := 0x8000_0000

  /** The values of a `u64` (and of a `usize` on a 64-bit target). */
  type U64 = x: nat | x < U64_LIMIT

  predicate AllDigits(s: string) {
    forall i :: 0 <= i < |s| ==> IsAsciiDigit(s[i])
  }

  /** The decimal value of a string of ASCII digits, most significant first. */
  function DigitsValue(s: string): nat
    requires AllDigits(s)
  {
    if s == [] then 0 else DigitsValue(s[..|s| - 1]) * 10 + (s[|s| - 1] as int - '0' as int)
  }

  /** The digits after an optional leading `+`. */
  function UnsignedDigits(s: string): string {
    if s != [] && s[0] == '+' then s[1..] else s
  }

  /**
   * `parse::<u64>()` (and `parse::<usize>()` on a 64-bit target): an optional
   * `+`, then at least one ASCII digit and nothing else, with a value below 2^64.
   */
  function ParseU64(s: string): (r: Option<nat>)
    ensures r.Some? <==> (var d := UnsignedDigits(s); d != [] && AllDigits(d) && DigitsValue(d) < U64_LIMIT)
    ensures r.Some? ==> r.value == DigitsValue(UnsignedDigits(s)) && r.value < U64_LIMIT
  {
    var d := UnsignedDigits(s);
    if d != [] && AllDigits(d) && DigitsValue(d) < U64_LIMIT then Some(DigitsValue(d)) else None
  }

  /**
   * `parse::<i32>()`: an optional `+` or `-`, then at least one ASCII digit
   * and nothing else, with a value in [-2^31, 2^31 - 1].
   */
  function ParseI32(s: string): (r: Option<int>)
    ensures r.Some? ==> -(I32_LIMIT as int) <= r.value < I32_LIMIT
    ensures r.Some? && s != [] && s[0] == '-' ==> AllDigits(s[1..]) && r.value == -(DigitsValue(s[1..]) as int)
    ensures r.Some? && !(s != [] && s[0] == '-') ==> ParseU64(s) == Some(r.value)
    ensures s != [] && s[0] == '-' ==>
      (r.Some? <==> s[1..] != [] && AllDigits(s[1..]) && DigitsValue(s[1..]) <= I32_LIMIT)
    ensures !(s != [] && s[0] == '-') ==>
      (r.Some? <==> ParseU64(s).Some? && ParseU64(s).value < I32_LIMIT)
  {
    if s != [] && s[0] == '-' then
      var d := s[1..];
      if d != [] && AllDigits(d) && DigitsValue(d) <= I32_LIMIT then
        var v: int := -(DigitsValue(d) as int);
        Some(v)
      else None
    else
      var d := UnsignedDigits(s);
      if d != [] && AllDigits(d) && DigitsValue(d) < I32_LIMIT then
        var v: int := DigitsValue(d);
        Some(v)
      else None
  }

  /** The decimal digits of `n`, most significant first, without leading zeros. */
  function Decimal(n: nat): (s: string)
    ensures s != [] && AllDigits(s)
  {
    var d := ['0' + ((n % 10) as char)];
    assert AllDigits(d);
    if n < 10 then d else Decimal(n / 10) + d
  }

  /** Digits are never whitespace, so a decimal numeral is one word. */
  lemma DecimalIsWord(n: nat)
    ensures IsWord(Decimal(n))
  {
    var s := Decimal(n);
    forall i | 0 <= i < |s|
      ensures !IsWhitespace(s[i])
    {
      assert IsAsciiDigit(s[i]);
    }
  }

  /** Reading the digits of `n` back gives `n`. */
  lemma {:induction false} DecimalValue(n: nat)
    ensures DigitsValue(Decimal(n)) == n
  {
    var s := Decimal(n);
    if n >= 10 {
      DecimalValue(n / 10);
      assert s[..|s| - 1] == Decimal(n / 10);
    }
  }

  /** `parse::<u64>()` undoes decimal formatting. */
  lemma ParseDecimal(n: nat)
    requires n < U64_LIMIT
    ensures ParseU64(Decimal(n)) == Some(n)
  {
    DecimalValue(n);
  }
}

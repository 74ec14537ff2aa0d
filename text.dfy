/**
 * The few Python `str` operations the mbRole scripts rely on, written out over
 * `seq<char>`: `startswith`, `strip()`, `strip(chars)`, `split()`, `" ".join`,
 * `split("/")[-1]` and the decimal rendering of an `int` in an f-string.
 */
module Text {

  /** The characters for which Python's `str.isspace()` holds. */
  const Whitespace: set<char> := {
    '\t', '\n', '\U{B}', '\U{C}', '\r', '\U{1C}', '\U{1D}', '\U{1E}', '\U{1F}', ' ',
    '\U{85}', '\U{A0}', '\U{1680}', '\U{2000}', '\U{2001}', '\U{2002}', '\U{2003}',
    '\U{2004}', '\U{2005}', '\U{2006}', '\U{2007}', '\U{2008}', '\U{2009}', '\U{200A}',
    '\U{2028}', '\U{2029}', '\U{202F}', '\U{205F}', '\U{3000}'
  }

  predicate IsSpace(c: char) {
    c in Whitespace
  }

  /** `s.startswith(prefix)` */
  predicate StartsWith(s: string, prefix: string) {
    |prefix| <= |s| && s[..|prefix|] == prefix
  }

  /** Drops the leading characters that belong to `cs`. */
  function TrimLeft(s: string, cs: set<char>): (r: string)
    ensures |r| <= |s| && r == s[|s| - |r|..]
    ensures r == [] || r[0] !in cs
    ensures forall i | 0 <= i < |s| - |r| :: s[i] in cs
  {
    if s != [] && s[0] in cs then TrimLeft(s[1..], cs) else s
  }

  /** Drops the trailing characters that belong to `cs`. */
  function TrimRight(s: string, cs: set<char>): (r: string)
    ensures |r| <= |s| && r == s[..|r|]
    ensures r == [] || r[|r| - 1] !in cs
    ensures forall i | |r| <= i < |s| :: s[i] in cs
  {
    if s != [] && s[|s| - 1] in cs then TrimRight(s[..|s| - 1], cs) else s
  }

  /** `s.strip(chars)`: the longest middle part of `s` that neither starts nor ends with a character of `cs`. */
  function StripChars(s: string, cs: set<char>): (r: string)
    ensures r == [] || (r[0] !in cs && r[|r| - 1] !in cs)
    ensures exists i :: IsStripped(s, r, cs, i)
  {
    var l := TrimLeft(s, cs);
    var r := TrimRight(l, cs);
    assert s[|s| - |l|..][..|r|] == r;
    assert IsStripped(s, r, cs, |s| - |l|);
    r
  }

  /** `r` is `s` with `i` leading and some trailing characters of `cs` removed. */
  predicate IsStripped(s: string, r: string, cs: set<char>, i: int) {
    && 0 <= i <= |s| - |r|
    && s[i..i + |r|] == r
    && (forall k | 0 <= k < i :: s[k] in cs)
    && (forall k | i + |r| <= k < |s| :: s[k] in cs)
  }

  /** `s.strip()` */
  function Strip(s: string): string {
    StripChars(s, Whitespace)
  }

  /** Stripping twice strips nothing more. */
  lemma {:induction false} StripCharsIdempotent(s: string, cs: set<char>)
    ensures StripChars(StripChars(s, cs), cs) == StripChars(s, cs)
  {
    var r := StripChars(s, cs);
    assert TrimLeft(r, cs) == r;
    assert TrimRight(r, cs) == r;
  }

  /** Length of the leading run of non-space characters of `s`. */
  function WordLength(s: string): (n: nat)
    ensures n <= |s|
    ensures forall i | 0 <= i < n :: !IsSpace(s[i])
    ensures n < |s| ==> IsSpace(s[n])
  {
    if s == [] || IsSpace(s[0]) then 0 else 1 + WordLength(s[1..])
  }

  /** `s.split()`: the maximal runs of non-space characters, in order. */
  function Split(s: string): (r: seq<string>)
    ensures forall t | t in r :: t != [] && forall c | c in t :: !IsSpace(c)
    decreases |s|
  {
    if s == [] then []
    else if IsSpace(s[0]) then Split(s[1..])
    else
      var n := WordLength(s);
      [s[..n]] + Split(s[n..])
  }

  /** `sep.join(parts)` */
  function Join(sep: string, parts: seq<string>): string {
    if parts == [] then []
    else if |parts| == 1 then parts[0]
    else parts[0] + sep + Join(sep, parts[1..])
  }

  /** Splitting words joined by single spaces gives the words back. */
  lemma {:induction false} SplitJoin(words: seq<string>)
    requires forall t | t in words :: t != [] && forall c | c in t :: !IsSpace(c)
    ensures Split(Join(" ", words)) == words
  {
    if words == [] {
    } else {
      var w := words[0];
      assert w in words;
      var s := Join(" ", words);
      SplitWordThenRest(w, if |words| == 1 then [] else " " + Join(" ", words[1..]));
      if |words| == 1 {
        assert s == w + [];
      } else {
        assert s == w + (" " + Join(" ", words[1..]));
        var tail := " " + Join(" ", words[1..]);
        assert Split(tail) == Split(Join(" ", words[1..])) by {
          assert tail[0] == ' ' && tail[1..] == Join(" ", words[1..]);
        }
        assert forall t | t in words[1..] :: t in words;
        SplitJoin(words[1..]);
      }
    }
  }

  /** A word followed by text that is empty or starts with a space splits into the word first. */
  lemma {:induction false} SplitWordThenRest(w: string, rest: string)
    requires w != [] && forall c | c in w :: !IsSpace(c)
    requires rest == [] || IsSpace(rest[0])
    ensures Split(w + rest) == [w] + Split(rest)
  {
    WordLengthOfWord(w, rest);
    var s := w + rest;
    assert s[..|w|] == w && s[|w|..] == rest;
  }

  lemma {:induction false} WordLengthOfWord(w: string, rest: string)
    requires forall c | c in w :: !IsSpace(c)
    requires rest == [] || IsSpace(rest[0])
    ensures WordLength(w + rest) == |w|
    decreases |w|
  {
    if w != [] {
      assert (w + rest)[1..] == w[1..] + rest;
      assert w[0] in w;
      WordLengthOfWord(w[1..], rest);
    } else {
      assert w + rest == rest;
    }
  }

  /**
   * `split()` cuts at every whitespace character: the tokens of text made of
   * two parts around one are those of the first part followed by those of
   * the second. With `SplitWord` and `SplitBlank` this determines `Split`
   * on every string.
   */
  lemma {:induction false} SplitAtSpace(a: string, c: char, b: string)
    requires IsSpace(c)
    ensures Split(a + [c] + b) == Split(a) + Split(b)
    decreases |a|
  {
    var s := a + [c] + b;
    if a == [] {
      assert s[1..] == b;
    } else if IsSpace(a[0]) {
      assert s[1..] == a[1..] + [c] + b;
      SplitAtSpace(a[1..], c, b);
    } else {
      var n := WordLength(a);
      WordLengthBeforeSpace(a, c, b);
      assert s[..n] == a[..n];
      assert s[n..] == a[n..] + [c] + b;
      SplitAtSpace(a[n..], c, b);
    }
  }

  lemma {:induction false} WordLengthBeforeSpace(a: string, c: char, b: string)
    requires IsSpace(c)
    ensures WordLength(a + [c] + b) == WordLength(a)
    decreases |a|
  {
    if a != [] && !IsSpace(a[0]) {
      assert (a + [c] + b)[1..] == a[1..] + [c] + b;
      WordLengthBeforeSpace(a[1..], c, b);
    }
  }

  /** A word without whitespace is one token. */
  lemma SplitWord(w: string)
    requires w != [] && forall c | c in w :: !IsSpace(c)
    ensures Split(w) == [w]
  {
    SplitWordThenRest(w, []);
    assert w + [] == w;
  }

  /** Text of nothing but whitespace has no tokens. */
  lemma {:induction false} SplitBlank(s: string)
    requires forall c | c in s :: IsSpace(c)
    ensures Split(s) == []
    decreases |s|
  {
    if s != [] {
      assert s[0] in s;
      assert forall c | c in s[1..] :: c in s;
      SplitBlank(s[1..]);
    }
  }

  /** Two words around one whitespace character split into exactly those two words. */
  lemma SplitTwoWords(w1: string, c: char, w2: string)
    requires w1 != [] && forall x | x in w1 :: !IsSpace(x)
    requires w2 != [] && forall x | x in w2 :: !IsSpace(x)
    requires IsSpace(c)
    ensures Split(w1 + [c] + w2) == [w1, w2]
  {
    SplitAtSpace(w1, c, w2);
    SplitWord(w1);
    SplitWord(w2);
  }

  /** `s.split(sep)[-1]` for a one-character separator: the text after the last `sep`, or all of `s`. */
  function LastSegment(s: string, sep: char): (r: string)
    ensures sep !in r
    ensures |r| <= |s| && r == s[|s| - |r|..]
    ensures |r| < |s| ==> s[|s| - |r| - 1] == sep
  {
    if s == [] then []
    else if s[|s| - 1] == sep then []
    else LastSegment(s[..|s| - 1], sep) + [s[|s| - 1]]
  }

  /** The last segment has no separator in it, so taking it again changes nothing. */
  lemma {:induction false} LastSegmentIdempotent(s: string, sep: char)
    ensures LastSegment(LastSegment(s, sep), sep) == LastSegment(s, sep)
  {
    NoSeparatorIsOneSegment(LastSegment(s, sep), sep);
  }

  lemma {:induction false} NoSeparatorIsOneSegment(s: string, sep: char)
    requires sep !in s
    ensures LastSegment(s, sep) == s
    decreases |s|
  {
    if s != [] {
      var init := s[..|s| - 1];
      assert s == init + [s[|s| - 1]];
      assert sep !in init;
      NoSeparatorIsOneSegment(init, sep);
    }
  }

  /** The decimal digits of `n`, as Python's `str(n)` writes a non-negative `int`. */
  function NatToString(n: nat): (r: string)
    ensures r != []
    ensures IsDigits(r)
    ensures |r| > 1 ==> r[0] != '0'
    decreases n
  {
    if n < 10 then [Digit(n)] else NatToString(n / 10) + [Digit(n % 10)]
  }

  function Digit(d: nat): (c: char)
    requires d < 10
    ensures '0' <= c <= '9'
  {
    ['0', '1', '2', '3', '4', '5', '6', '7', '8', '9'][d]
  }

  predicate IsDigits(s: string) {
    forall i | 0 <= i < |s| :: '0' <= s[i] <= '9'
  }

  /** `str(i)` for any `int`: a minus sign in front of the digits of a negative number. */
  function IntToString(i: int): string {
    if i < 0 then "-" + NatToString(-i) else NatToString(i)
  }

  /** Reading decimal digits back as a number. */
  function DigitsValue(s: string): nat
    requires IsDigits(s)
  {
    if s == [] then 0
    else
      10 * DigitsValue(s[..|s| - 1]) + ((s[|s| - 1] as int) - ('0' as int))
  }

  /** Reading the rendering back gives the number: the rendering is one-to-one. */
  lemma {:induction false} NatToStringRoundTrip(n: nat)
    ensures DigitsValue(NatToString(n)) == n
    decreases n
  {
    var r := NatToString(n);
    if n < 10 {
      assert r[..|r| - 1] == [];
    } else {
      NatToStringRoundTrip(n / 10);
      assert r[..|r| - 1] == NatToString(n / 10);
    }
  }

  lemma NatToStringInjective(m: nat, n: nat)
    requires NatToString(m) == NatToString(n)
    ensures m == n
  {
    NatToStringRoundTrip(m);
    NatToStringRoundTrip(n);
  }
}

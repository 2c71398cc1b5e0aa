/** The parts of Python's `str` that the scripts rely on: strip, split on one
    character, split on whitespace, join, find, int() and str() of an integer,
    startswith, lower.  Strings are sequences of characters. */
module Text {
  import opened Wrappers

  /** The characters str.strip() and str.split() treat as whitespace. */
  predicate IsSpace(c: char) {
    || c == ' ' || c == '\t' || c == '\n' || c == '\r' || c == '\U{000B}' || c == '\U{000C}'
    || ('\U{001C}' <= c <= '\U{001F}') || c == '\U{0085}' || c == '\U{00A0}' || c == '\U{1680}'
    || ('\U{2000}' <= c <= '\U{200A}') || c == '\U{2028}' || c == '\U{2029}' || c == '\U{202F}'
    || c == '\U{205F}' || c == '\U{3000}'
  }

  predicate AllSpace(s: string) {
    forall i :: 0 <= i < |s| ==> IsSpace(s[i])
  }

  /** Index of the first non-space character (|s| when there is none). */
  function StripStart(s: string): (i: nat)
    ensures i <= |s| && forall j :: 0 <= j < i ==> IsSpace(s[j])
    ensures i < |s| ==> !IsSpace(s[i])
  {
    SpaceRunEnd(s, 0)
  }

  /** End of the run of whitespace that starts at k. */
  function SpaceRunEnd(s: string, k: nat): (i: nat)
    requires k <= |s|
    ensures k <= i <= |s| && forall j :: k <= j < i ==> IsSpace(s[j])
    ensures i < |s| ==> !IsSpace(s[i])
    decreases |s| - k
  {
    if k == |s| || !IsSpace(s[k]) then k else SpaceRunEnd(s, k + 1)
  }

  /** str.strip(): s without its leading and trailing whitespace (see
      StripPadded for the converse). */
  function Strip(s: string): (r: string)
    ensures |r| <= |s|
    ensures |r| > 0 ==> !IsSpace(r[0]) && !IsSpace(r[|r| - 1])
    decreases |s|
  {
    if |s| > 0 && IsSpace(s[0]) then Strip(s[1..])
    else if |s| > 0 && IsSpace(s[|s| - 1]) then Strip(s[..|s| - 1])
    else s
  }

  /** The whitespace run from k ends at the first non-space at or after k. */
  lemma {:induction false} SpaceRunEndIs(s: string, k: nat, i: nat)
    requires k <= i <= |s| && forall j :: k <= j < i ==> IsSpace(s[j])
    requires i < |s| ==> !IsSpace(s[i])
    ensures SpaceRunEnd(s, k) == i
    decreases i - k
  {
    if k < i {
      SpaceRunEndIs(s, k + 1, i);
    }
  }

  /** Strip leaves a string that has no whitespace at either end untouched. */
  lemma StripUnchanged(s: string)
    requires |s| == 0 || (!IsSpace(s[0]) && !IsSpace(s[|s| - 1]))
    ensures Strip(s) == s
  {
  }

  /** Blank text strips to the empty string. */
  lemma {:induction false} StripBlank(q: string)
    requires AllSpace(q)
    ensures Strip(q) == ""
    decreases |q|
  {
    if |q| > 0 {
      StripBlank(q[1..]);
    }
  }

  /** strip() of m padded with whitespace on both sides is m, when m has no
      whitespace at either end. */
  lemma {:induction false} StripPadded(p: string, m: string, q: string)
    requires AllSpace(p) && AllSpace(q)
    requires |m| == 0 || (!IsSpace(m[0]) && !IsSpace(m[|m| - 1]))
    ensures Strip(p + m + q) == m
    decreases |p| + |q|
  {
    var s := p + m + q;
    if |p| > 0 {
      assert s[0] == p[0] && s[1..] == p[1..] + m + q;
      StripPadded(p[1..], m, q);
    } else if |m| == 0 {
      assert s == q;
      StripBlank(q);
    } else if |q| > 0 {
      var q' := q[..|q| - 1];
      assert s[0] == m[0] && s[|s| - 1] == q[|q| - 1];
      assert s[..|s| - 1] == p + m + q';
      StripPadded(p, m, q');
    } else {
      assert s == m;
    }
  }

  /** No character of s is c. */
  predicate Lacks(s: string, c: char) {
    forall j :: 0 <= j < |s| ==> s[j] != c
  }

  /** str.find(c): the index of the first c, or -1. */
  function IndexOf(s: string, c: char): (i: int)
    ensures -1 <= i < |s|
    ensures i == -1 ==> Lacks(s, c)
    ensures i >= 0 ==> s[i] == c && forall j :: 0 <= j < i ==> s[j] != c
  {
    IndexFrom(s, c, 0)
  }

  /** The index of the first c at or after k, or -1. */
  function IndexFrom(s: string, c: char, k: nat): (i: int)
    requires k <= |s|
    ensures -1 <= i < |s|
    ensures i == -1 ==> forall j :: k <= j < |s| ==> s[j] != c
    ensures i >= 0 ==> k <= i && s[i] == c && forall j :: k <= j < i ==> s[j] != c
    decreases |s| - k
  {
    if k == |s| then -1
    else if s[k] == c then k
    else IndexFrom(s, c, k + 1)
  }

  /** str.rfind(c): the index of the last c, or -1. */
  function LastIndexOf(s: string, c: char): (i: int)
    ensures -1 <= i < |s|
    ensures i >= 0 ==> s[i] == c
    ensures forall k :: i < k < |s| ==> s[k] != c
  {
    LastBefore(s, c, |s|)
  }

  /** The index of the last c before n, or -1. */
  function LastBefore(s: string, c: char, n: nat): (i: int)
    requires n <= |s|
    ensures -1 <= i < n
    ensures i >= 0 ==> s[i] == c
    ensures forall k :: i < k < n ==> s[k] != c
  {
    if n == 0 then -1
    else if s[n - 1] == c then n - 1
    else LastBefore(s, c, n - 1)
  }

  /** sep.join(parts). */
  function Join(parts: seq<string>, sep: string): string {
    if |parts| == 0 then ""
    else if |parts| == 1 then parts[0]
    else parts[0] + sep + Join(parts[1..], sep)
  }

  /** str.split(c) for a one-character separator: the pieces between the c's,
      empty pieces included. */
  function SplitOn(s: string, c: char): (parts: seq<string>)
    ensures |parts| >= 1
    decreases |s|
  {
    var i := IndexOf(s, c);
    if i == -1 then [s] else [s[..i]] + SplitOn(s[i + 1..], c)
  }

  /** A list of at least one piece, joined after a first piece x. */
  lemma JoinCons(x: string, parts: seq<string>, sep: string)
    requires |parts| >= 1
    ensures Join([x] + parts, sep) == x + sep + Join(parts, sep)
  {
    assert ([x] + parts)[1..] == parts;
  }

  /** Around its first separator, text is the piece before, the separator
      and the rest. */
  lemma FirstSeparator(s: string, c: char)
    requires IndexOf(s, c) >= 0
    ensures var i := IndexOf(s, c);
      s == s[..i] + [c] + s[i + 1..] && Lacks(s[..i], c)
  {
  }

  /** Joining the pieces of a split with the separator gives the text back. */
  lemma {:induction false} JoinSplitOn(s: string, c: char)
    ensures Join(SplitOn(s, c), [c]) == s
    decreases |s|
  {
    var i := IndexOf(s, c);
    if i == -1 {
      SplitOnWhole(s, c);
    } else {
      var x, y := s[..i], s[i + 1..];
      FirstSeparator(s, c);
      SplitOnCons(x, y, c);
      JoinSplitOn(y, c);
      JoinCons(x, SplitOn(y, c), [c]);
    }
  }

  /** No piece of a split holds the separator. */
  lemma {:induction false} SplitOnLacks(s: string, c: char)
    ensures forall i :: 0 <= i < |SplitOn(s, c)| ==> Lacks(SplitOn(s, c)[i], c)
    decreases |s|
  {
    var i := IndexOf(s, c);
    if i == -1 {
      SplitOnWhole(s, c);
    } else {
      var x, y := s[..i], s[i + 1..];
      FirstSeparator(s, c);
      SplitOnCons(x, y, c);
      SplitOnLacks(y, c);
      var parts, rest := SplitOn(s, c), SplitOn(y, c);
      assert parts == [x] + rest;
      forall k | 0 <= k < |parts| ensures Lacks(parts[k], c) {
        if k > 0 {
          assert parts[k] == rest[k - 1];
        }
      }
    }
  }

  /** Joining c-free pieces with c and splitting on c gives the pieces back. */
  lemma {:induction false} SplitOnJoin(parts: seq<string>, c: char)
    requires |parts| >= 1
    requires forall i :: 0 <= i < |parts| ==> Lacks(parts[i], c)
    ensures SplitOn(Join(parts, [c]), c) == parts
  {
    if |parts| > 1 {
      var rest := Join(parts[1..], [c]);
      assert Join(parts, [c]) == parts[0] + [c] + rest;
      SplitOnCons(parts[0], rest, c);
      SplitOnJoin(parts[1..], c);
      assert parts == [parts[0]] + parts[1..];
    } else {
      SplitOnWhole(parts[0], c);
    }
  }

  /** Text without the separator is a single piece. */
  lemma SplitOnWhole(x: string, c: char)
    requires Lacks(x, c)
    ensures SplitOn(x, c) == [x]
  {
    assert IndexOf(x, c) == -1;
  }

  /** A c-free piece, the separator, then y: the piece comes first. */
  lemma SplitOnCons(x: string, y: string, c: char)
    requires Lacks(x, c)
    ensures SplitOn(x + [c] + y, c) == [x] + SplitOn(y, c)
  {
    var s := x + [c] + y;
    assert s[..|x|] == x && s[|x|] == c && s[|x| + 1..] == y;
    assert forall j :: 0 <= j < |x| ==> s[j] != c by {
      forall j | 0 <= j < |x| ensures s[j] != c {
        assert s[j] == x[j];
      }
    }
    IndexOfUnique(s, c, |x|);
  }

  /** One step of split: the piece before the first separator, then the rest. */
  lemma SplitOnAt(s: string, c: char, i: int)
    requires 0 <= i < |s| && s[i] == c && forall j :: 0 <= j < i ==> s[j] != c
    ensures SplitOn(s, c) == [s[..i]] + SplitOn(s[i + 1..], c)
  {
    IndexOfUnique(s, c, i);
  }

  /** The first occurrence is the only index with c there and none before. */
  lemma IndexOfUnique(s: string, c: char, i: int)
    requires 0 <= i < |s| && s[i] == c && forall j :: 0 <= j < i ==> s[j] != c
    ensures IndexOf(s, c) == i
  {
  }

  /** The last occurrence is the only index with c there and none after. */
  lemma LastIndexOfUnique(s: string, c: char, i: int)
    requires 0 <= i < |s| && s[i] == c && forall j :: i < j < |s| ==> s[j] != c
    ensures LastIndexOf(s, c) == i
  {
  }

  /** The last piece of a join comes after the join of the others. */
  lemma {:induction false} JoinSnoc(parts: seq<string>, sep: string)
    requires |parts| >= 2
    ensures Join(parts, sep) == Join(parts[..|parts| - 1], sep) + sep + parts[|parts| - 1]
    decreases |parts|
  {
    var n := |parts|;
    if n > 2 {
      JoinSnoc(parts[1..], sep);
      assert parts[1..][..n - 2] == parts[..n - 1][1..];
    }
  }

  /** A split has two pieces or more exactly when the separator occurs, and
      its first piece is the text before the first separator (or all of it). */
  lemma SplitOnFirst(s: string, c: char)
    ensures |SplitOn(s, c)| >= 2 <==> IndexOf(s, c) >= 0
    ensures SplitOn(s, c)[0] == if IndexOf(s, c) >= 0 then s[..IndexOf(s, c)] else s
  {
  }

  /** str.startswith(prefix). */
  predicate StartsWith(s: string, prefix: string) {
    |prefix| <= |s| && s[..|prefix|] == prefix
  }

  /** str.split(c, 1) as a pair: the text before the first c and the text
      after it (the whole text and "" when there is no c). */
  function SplitOnce(s: string, c: char): (string, string)
    decreases |s|
  {
    if |s| == 0 then ("", "")
    else if s[0] == c then ("", s[1..])
    else
      var (before, after) := SplitOnce(s[1..], c);
      ([s[0]] + before, after)
  }

  /** SplitOnce cuts at the first separator, which it drops. */
  lemma {:induction false} SplitOnceAt(s: string, c: char)
    requires IndexOf(s, c) >= 0
    ensures var i := IndexOf(s, c);
      SplitOnce(s, c) == (s[..i], s[i + 1..])
    decreases |s|
  {
    if s[0] != c {
      IndexOfUnique(s[1..], c, IndexOf(s, c) - 1);
      SplitOnceAt(s[1..], c);
      var i := IndexOf(s, c);
      assert s[..i] == [s[0]] + s[1..][..i - 1];
      assert s[i + 1..] == s[1..][i..];
    }
  }

  /** Splitting once and joining the two halves with c gives the text back,
      and the first half holds no c. */
  lemma SplitOnceJoin(s: string, c: char)
    requires IndexOf(s, c) >= 0
    ensures SplitOnce(s, c).0 + [c] + SplitOnce(s, c).1 == s
    ensures Lacks(SplitOnce(s, c).0, c)
  {
    SplitOnceAt(s, c);
    var i := IndexOf(s, c);
    assert s == s[..i] + [c] + s[i + 1..];
  }

  /** str.split() with no argument: the maximal runs of non-whitespace
      (SplitWhitespaceWords and SplitWhitespaceBlank state what they are). */
  function SplitWhitespace(s: string): (tokens: seq<string>)
    decreases |s|
  {
    var a := StripStart(s);
    if a == |s| then []
    else
      var t := s[a..];
      var n := TokenLength(t);
      [t[..n]] + SplitWhitespace(t[n..])
  }

  /** Every token of str.split() is a word. */
  lemma {:induction false} SplitWhitespaceWords(s: string)
    ensures forall i :: 0 <= i < |SplitWhitespace(s)| ==> IsWord(SplitWhitespace(s)[i])
    decreases |s|
  {
    var a := StripStart(s);
    if a < |s| {
      var t := s[a..];
      var n := TokenLength(t);
      var w := t[..n];
      assert IsWord(w) by {
        forall k | 0 <= k < n ensures !IsSpace(w[k]) {
          assert w[k] == t[k];
        }
      }
      SplitWhitespaceWords(t[n..]);
      var tokens, rest := SplitWhitespace(s), SplitWhitespace(t[n..]);
      assert tokens == [w] + rest;
      forall i | 0 <= i < |tokens| ensures IsWord(tokens[i]) {
        if i > 0 {
          assert tokens[i] == rest[i - 1];
        }
      }
    }
  }

  /** str.split() yields no token exactly when the text is blank. */
  lemma SplitWhitespaceBlank(s: string)
    ensures AllSpace(s) <==> |SplitWhitespace(s)| == 0
  {
    var a := StripStart(s);
    if a == |s| {
      assert s[..a] == s;
    } else {
      assert !IsSpace(s[a]);
    }
  }

  /** Length of the run of non-whitespace at the front of s. */
  function TokenLength(s: string): (n: nat)
    requires |s| > 0 && !IsSpace(s[0])
    ensures 1 <= n <= |s|
    ensures forall k :: 0 <= k < n ==> !IsSpace(s[k])
    ensures n < |s| ==> IsSpace(s[n])
    decreases |s|
  {
    if |s| == 1 || IsSpace(s[1]) then 1 else 1 + TokenLength(s[1..])
  }

  /** Whitespace in front of the first token does not change the tokens. */
  lemma SplitWhitespaceSkipSpace(s: string)
    requires |s| > 0 && IsSpace(s[0])
    ensures SplitWhitespace(s) == SplitWhitespace(s[1..])
  {
    var a := StripStart(s[1..]);
    SpaceRunEndIs(s, 0, 1 + a);
    if a < |s| - 1 {
      assert s[1 + a..] == s[1..][a..];
    }
  }

  /** Non-empty text without whitespace: what str.split() yields. */
  predicate IsWord(w: string) {
    |w| > 0 && forall k :: 0 <= k < |w| ==> !IsSpace(w[k])
  }

  /** A token followed by whitespace or by the end of the string is one run. */
  lemma {:induction false} TokenLengthOfWord(w: string, u: string)
    requires IsWord(w)
    requires |u| == 0 || IsSpace(u[0])
    ensures TokenLength(w + u) == |w|
    decreases |w|
  {
    if |w| > 1 {
      assert (w + u)[1..] == w[1..] + u;
      TokenLengthOfWord(w[1..], u);
    }
  }

  /** A word followed by whitespace or the end is the first token. */
  lemma SplitWhitespaceWord(w: string, u: string)
    requires IsWord(w)
    requires |u| == 0 || IsSpace(u[0])
    ensures SplitWhitespace(w + u) == [w] + SplitWhitespace(u)
  {
    var s := w + u;
    SpaceRunEndIs(s, 0, 0);
    assert s[0..] == s;
    TokenLengthOfWord(w, u);
    assert s[..|w|] == w && s[|w|..] == u;
  }

  /** Joining words with a space and splitting on whitespace gives the words
      back. */
  lemma {:induction false} SplitWhitespaceJoin(words: seq<string>)
    requires forall i :: 0 <= i < |words| ==> IsWord(words[i])
    ensures SplitWhitespace(Join(words, " ")) == words
  {
    if |words| == 1 {
      assert words[0] + "" == words[0];
      SplitWhitespaceWord(words[0], "");
    } else if |words| > 1 {
      SplitWhitespaceJoinStep(words);
      SplitWhitespaceJoin(words[1..]);
      assert words == [words[0]] + words[1..];
    } else {
      assert StripStart("") == 0;
    }
  }

  /** The first of several joined words is the first token. */
  lemma SplitWhitespaceJoinStep(words: seq<string>)
    requires |words| > 1 && IsWord(words[0])
    ensures SplitWhitespace(Join(words, " ")) == [words[0]] + SplitWhitespace(Join(words[1..], " "))
  {
    var rest := Join(words[1..], " ");
    var u := " " + rest;
    assert Join(words, " ") == words[0] + u;
    SplitWhitespaceWord(words[0], u);
    SplitWhitespaceSkipSpace(u);
    assert u[1..] == rest;
  }

  /* ---------------- int() and str() on decimal integers ---------------- */

  predicate IsDigit(c: char) {
    '0' <= c <= '9'
  }

  /** The digits of an int() literal: decimal digits, single underscores
      allowed between digits (a digit, or a group followed by a digit or by
      '_' and a digit). */
  predicate IsDigitGroup(s: string)
    decreases |s|
  {
    && |s| > 0 && IsDigit(s[|s| - 1])
    && (|s| == 1
        || IsDigitGroup(s[..|s| - 1])
        || (|s| >= 3 && s[|s| - 2] == '_' && IsDigitGroup(s[..|s| - 2])))
  }

  /** A run of decimal digits is a digit group. */
  lemma {:induction false} DigitsAreGroup(s: string)
    requires |s| > 0 && forall i :: 0 <= i < |s| ==> IsDigit(s[i])
    ensures IsDigitGroup(s)
    decreases |s|
  {
    if |s| > 1 {
      DigitsAreGroup(s[..|s| - 1]);
    }
  }

  /** The value of a digit group, underscores ignored. */
  function DigitsValue(s: string): nat {
    if |s| == 0 then 0
    else if IsDigit(s[|s| - 1]) then 10 * DigitsValue(s[..|s| - 1]) + (s[|s| - 1] - '0') as nat
    else DigitsValue(s[..|s| - 1])
  }

  /** int(s) on a str: surrounding whitespace, then an optional sign, then a
      digit group; None where Python raises ValueError. */
  function ParseInt(s: string): (r: Option<int>)
    ensures r.Some? ==> |Strip(s)| > 0
  {
    var t := Strip(s);
    if |t| > 0 && (t[0] == '-' || t[0] == '+') then
      var v: int := DigitsValue(t[1..]);
      if IsDigitGroup(t[1..]) then Some(if t[0] == '-' then -v else v)
      else None
    else if IsDigitGroup(t) then Some(DigitsValue(t))
    else None
  }

  function DigitChar(d: nat): (c: char)
    requires d < 10
    ensures IsDigit(c) && (c - '0') as nat == d
  {
    ('0' as int + d) as char
  }

  /** str(n) for n >= 0. */
  function NatToString(n: nat): (s: string)
    ensures |s| > 0
    ensures forall i :: 0 <= i < |s| ==> IsDigit(s[i])
    ensures DigitsValue(s) == n
  {
    if n < 10 then
      assert DigitsValue([DigitChar(n)][..0]) == 0;
      [DigitChar(n)]
    else
      var s := NatToString(n / 10) + [DigitChar(n % 10)];
      assert s[..|s| - 1] == NatToString(n / 10);
      s
  }

  /** str(i) for an integer. */
  function IntToString(i: int): (s: string)
    ensures |s| > 0 && (s[0] == '-' <==> i < 0)
  {
    if i < 0 then "-" + NatToString(-i) else NatToString(i)
  }

  /** int(str(i)) == i. */
  lemma ParseIntOfIntToString(i: int)
    ensures ParseInt(IntToString(i)) == Some(i)
  {
    var s := IntToString(i);
    var d := if i < 0 then NatToString(-i) else NatToString(i);
    DigitsAreGroup(d);
    assert !IsSpace(s[0]) && !IsSpace(s[|s| - 1]);
    StripUnchanged(s);
    if i < 0 {
      assert s[1..] == d;
    }
  }

  /** str.lower() on the ASCII letters. */
  function Lower(s: string): (r: string)
    ensures |r| == |s|
    ensures forall i :: 0 <= i < |s| ==> r[i] == LowerChar(s[i])
  {
    seq(|s|, i requires 0 <= i < |s| => LowerChar(s[i]))
  }

  function LowerChar(c: char): char {
    if 'A' <= c <= 'Z' then (c as int - 'A' as int + 'a' as int) as char else c
  }
}

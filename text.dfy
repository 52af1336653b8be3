/**
 * The JavaScript string operations the application relies on, stated over `seq<char>`:
 * the whitespace class of `\s` and `trim()`, ASCII case mapping, `includes`,
 * `split` on a single character, `join`, and the `replace(/^\$/, "")` idiom.
 */
module Text {

  /** The code points JavaScript calls WhiteSpace or LineTerminator: what `\s` matches and `trim()` removes. */
  predicate IsSpace(c: char) {
    || c == ' '
    || ('\t' <= c <= '\r')
    || c == '\U{00A0}' || c == '\U{1680}'
    || ('\U{2000}' <= c <= '\U{200A}')
    || c == '\U{2028}' || c == '\U{2029}'
    || c == '\U{202F}' || c == '\U{205F}' || c == '\U{3000}' || c == '\U{FEFF}'
  }

  /** The characters that a regular-expression `.` refuses to match. */
  predicate IsLineTerminator(c: char) {
    c == '\n' || c == '\r' || c == '\U{2028}' || c == '\U{2029}'
  }

  predicate NoLineTerminator(s: string) {
    forall i :: 0 <= i < |s| ==> !IsLineTerminator(s[i])
  }

  /** A suffix of a line is still a single line. */
  lemma NoLineTerminatorSuffix(s: string, k: nat)
    requires NoLineTerminator(s) && k <= |s|
    ensures NoLineTerminator(s[k..])
  {
    forall i | 0 <= i < |s| - k ensures !IsLineTerminator(s[k..][i]) {
      assert s[k..][i] == s[k + i];
    }
  }

  predicate IsAsciiLetter(c: char) {
    ('a' <= c <= 'z') || ('A' <= c <= 'Z')
  }

  /** `toUpperCase` restricted to ASCII; every other character is left as it is. */
  function UpperChar(c: char): (r: char)
    ensures 'a' <= c <= 'z' ==> 'A' <= r <= 'Z' && r as int == c as int - 32
    ensures !('a' <= c <= 'z') ==> r == c
  {
    if 'a' <= c <= 'z' then (c as int - 32) as char else c
  }

  /** `toLowerCase` restricted to ASCII. */
  function LowerChar(c: char): (r: char)
    ensures 'A' <= c <= 'Z' ==> 'a' <= r <= 'z' && r as int == c as int + 32
    ensures !('A' <= c <= 'Z') ==> r == c
  {
    if 'A' <= c <= 'Z' then (c as int + 32) as char else c
  }

  function ToUpper(s: string): (r: string)
    ensures |r| == |s|
    ensures forall i :: 0 <= i < |s| ==> r[i] == UpperChar(s[i])
  {
    seq(|s|, i requires 0 <= i < |s| => UpperChar(s[i]))
  }

  function ToLower(s: string): (r: string)
    ensures |r| == |s|
    ensures forall i :: 0 <= i < |s| ==> r[i] == LowerChar(s[i])
  {
    seq(|s|, i requires 0 <= i < |s| => LowerChar(s[i]))
  }

  /** Length of the longest prefix of `s` whose characters all satisfy `p`. */
  function Span(s: string, p: char -> bool): (n: nat)
    ensures n <= |s|
    ensures forall i :: 0 <= i < n ==> p(s[i])
    ensures n < |s| ==> !p(s[n])
  {
    if s == [] || !p(s[0]) then 0 else 1 + Span(s[1..], p)
  }

  /** Length of the longest suffix of `s` whose characters all satisfy `p`. */
  function SpanEnd(s: string, p: char -> bool): (n: nat)
    ensures n <= |s|
    ensures forall i :: |s| - n <= i < |s| ==> p(s[i])
    ensures n < |s| ==> !p(s[|s| - n - 1])
  {
    if s == [] || !p(s[|s| - 1]) then 0 else 1 + SpanEnd(s[..|s| - 1], p)
  }

  /** A run of characters satisfying `p` contributes its whole length to the span of what it starts. */
  lemma {:induction false} SpanAppend(x: string, y: string, p: char -> bool)
    requires forall i :: 0 <= i < |x| ==> p(x[i])
    ensures Span(x + y, p) == |x| + Span(y, p)
    decreases |x|
  {
    if x == [] {
      assert x + y == y;
    } else {
      assert (x + y)[1..] == x[1..] + y;
      SpanAppend(x[1..], y, p);
    }
  }

  /** The span cannot reach past a character that fails `p`. */
  lemma SpanStopsAt(s: string, p: char -> bool, i: nat)
    requires i < |s| && !p(s[i])
    ensures Span(s, p) <= i
  {
  }

  predicate AllSpace(s: string) {
    forall i :: 0 <= i < |s| ==> IsSpace(s[i])
  }

  predicate NoSpace(s: string) {
    forall i :: 0 <= i < |s| ==> !IsSpace(s[i])
  }

  /** `trimStart()`: the suffix left after the leading whitespace. */
  function TrimStart(s: string): (r: string)
    ensures |r| <= |s| && r == s[|s| - |r|..]
    ensures AllSpace(s[..|s| - |r|])
    ensures r != [] ==> !IsSpace(r[0])
  {
    s[Span(s, IsSpace)..]
  }

  /** `trimEnd()`: the prefix left before the trailing whitespace. */
  function TrimEnd(s: string): (r: string)
    ensures |r| <= |s| && r == s[..|r|]
    ensures AllSpace(s[|r|..])
    ensures r != [] ==> !IsSpace(r[|r| - 1])
  {
    s[..|s| - SpanEnd(s, IsSpace)]
  }

  /** `trim()`: neither end of the result is whitespace, and only whitespace was removed. */
  function Trim(s: string): (r: string)
    ensures r == [] || (!IsSpace(r[0]) && !IsSpace(r[|r| - 1]))
  {
    TrimEnd(TrimStart(s))
  }

  /** `trim()` removes only whitespace: the result is a slice of `s` with nothing but whitespace around it. */
  lemma TrimIsSlice(s: string) returns (lo: nat)
    ensures lo + |Trim(s)| <= |s| && Trim(s) == s[lo..lo + |Trim(s)|]
    ensures AllSpace(s[..lo]) && AllSpace(s[lo + |Trim(s)|..])
  {
    var t := TrimStart(s);
    lo := |s| - |t|;
    SliceOfSlice(s, lo, t, TrimEnd(t));
  }

  /** A prefix `r` of the suffix `t` of `s` that starts at `lo`, with whitespace around it. */
  lemma SliceOfSlice(s: string, lo: nat, t: string, r: string)
    requires lo <= |s| && t == s[lo..] && AllSpace(s[..lo])
    requires |r| <= |t| && r == t[..|r|] && AllSpace(t[|r|..])
    ensures lo + |r| <= |s| && r == s[lo..lo + |r|] && AllSpace(s[lo + |r|..])
  {
    assert t[|r|..] == s[lo + |r|..];
  }

  /** Upper-casing keeps every character's whitespace class, so the leading span of whitespace is the same. */
  lemma {:induction false} SpanOfUpper(s: string)
    ensures Span(ToUpper(s), IsSpace) == Span(s, IsSpace)
    decreases |s|
  {
    if s != [] {
      assert ToUpper(s)[1..] == ToUpper(s[1..]);
      SpanOfUpper(s[1..]);
    }
  }

  /** The same for the trailing span of whitespace. */
  lemma {:induction false} SpanEndOfUpper(s: string)
    ensures SpanEnd(ToUpper(s), IsSpace) == SpanEnd(s, IsSpace)
    decreases |s|
  {
    if s != [] {
      assert ToUpper(s)[..|s| - 1] == ToUpper(s[..|s| - 1]);
      SpanEndOfUpper(s[..|s| - 1]);
    }
  }

  /** Upper-casing a slice is slicing the upper-cased string. */
  lemma UpperSlice(s: string, a: nat, b: nat)
    requires a <= b <= |s|
    ensures ToUpper(s)[a..b] == ToUpper(s[a..b])
  {
  }

  lemma TrimStartOfUpper(s: string)
    ensures TrimStart(ToUpper(s)) == ToUpper(TrimStart(s))
  {
    SpanOfUpper(s);
    UpperSlice(s, Span(s, IsSpace), |s|);
    assert s[Span(s, IsSpace)..|s|] == s[Span(s, IsSpace)..];
  }

  lemma TrimEndOfUpper(s: string)
    ensures TrimEnd(ToUpper(s)) == ToUpper(TrimEnd(s))
  {
    SpanEndOfUpper(s);
    UpperSlice(s, 0, |s| - SpanEnd(s, IsSpace));
    assert s[0..|s| - SpanEnd(s, IsSpace)] == s[..|s| - SpanEnd(s, IsSpace)];
  }

  /** `s.toUpperCase().trim()` is `s.trim().toUpperCase()`: the two steps commute. */
  lemma TrimOfUpper(s: string)
    ensures Trim(ToUpper(s)) == ToUpper(Trim(s))
  {
    TrimStartOfUpper(s);
    TrimEndOfUpper(TrimStart(s));
  }

  /** Trimming a string that has no whitespace at either end leaves it unchanged. */
  lemma TrimUnchanged(s: string)
    requires s == [] || (!IsSpace(s[0]) && !IsSpace(s[|s| - 1]))
    ensures Trim(s) == s
  {
  }

  /** Leading whitespace makes no difference to the trimmed result. */
  lemma TrimAfterSpaces(ws: string, x: string)
    requires AllSpace(ws)
    ensures Trim(ws + x) == Trim(x)
  {
    TrimStartAfterSpaces(ws, x);
  }

  lemma TrimStartAfterSpaces(ws: string, x: string)
    requires AllSpace(ws)
    ensures TrimStart(ws + x) == TrimStart(x)
  {
    var n := Span(x, IsSpace);
    assert Span(ws + x, IsSpace) == |ws| + n by {
      assert forall i :: 0 <= i < |ws| + n ==> IsSpace((ws + x)[i]);
      if |ws| + n < |ws + x| {
        assert (ws + x)[|ws| + n] == x[n];
      }
    }
    assert (ws + x)[|ws| + n..] == x[n..];
  }

  /** `!s.trim()`: a string trims to the empty string exactly when it is all whitespace. */
  lemma TrimEmpty(s: string)
    ensures Trim(s) == [] <==> AllSpace(s)
  {
    if Trim(s) == [] {
      var lo := TrimIsSlice(s);
      assert s == s[..lo] + s[lo..];
    }
  }

  predicate OccursAt(s: string, sub: string, i: nat) {
    i + |sub| <= |s| && s[i..i + |sub|] == sub
  }

  /** `s.includes(sub)`. */
  predicate Contains(s: string, sub: string) {
    exists i: nat | i <= |s| :: OccursAt(s, sub, i)
  }

  /** `replace(/^\$/, "")`: drop one leading `$`, if there is one. */
  function StripDollar(s: string): (r: string)
    ensures s != [] && s[0] == '$' ==> r == s[1..]
    ensures !(s != [] && s[0] == '$') ==> r == s
  {
    if s != [] && s[0] == '$' then s[1..] else s
  }

  /** `xs.join(sep)`. */
  function Join(xs: seq<string>, sep: string): string {
    if |xs| == 0 then ""
    else if |xs| == 1 then xs[0]
    else xs[0] + sep + Join(xs[1..], sep)
  }

  function CountChar(s: string, c: char): (n: nat)
    ensures n <= |s|
  {
    if s == [] then 0 else (if s[0] == c then 1 else 0) + CountChar(s[1..], c)
  }

  lemma CountCharAppend(a: string, b: string, c: char)
    ensures CountChar(a + b, c) == CountChar(a, c) + CountChar(b, c)
  {
    if a == [] {
      assert a + b == b;
    } else {
      assert (a + b)[1..] == a[1..] + b;
      CountCharAppend(a[1..], b, c);
    }
  }

  /** `s.split(c)` for a one-character separator: the pieces between the occurrences of `c`. */
  function SplitOn(s: string, c: char): (r: seq<string>)
    ensures |r| >= 1
    ensures forall k :: 0 <= k < |r| ==> c !in r[k]
    decreases |s|
  {
    var n := Span(s, x => x != c);
    if n == |s| then [s] else [s[..n]] + SplitOn(s[n + 1..], c)
  }

  /** A property of every character of `s` holds of every character of its pieces. */
  lemma {:induction false} SplitOnKeeps(s: string, c: char, p: char -> bool)
    requires forall i :: 0 <= i < |s| ==> p(s[i])
    ensures forall k, i :: 0 <= k < |SplitOn(s, c)| && 0 <= i < |SplitOn(s, c)[k]| ==> p(SplitOn(s, c)[k][i])
    decreases |s|
  {
    var n := Span(s, x => x != c);
    if n < |s| {
      SplitOnKeeps(s[n + 1..], c, p);
      assert SplitOn(s, c) == [s[..n]] + SplitOn(s[n + 1..], c);
    }
  }

  /** Splitting on `c` and joining with `c` gives back the input: no character is lost or reordered. */
  lemma {:induction false} JoinSplitOn(s: string, c: char)
    ensures Join(SplitOn(s, c), [c]) == s
    decreases |s|
  {
    var n := Span(s, x => x != c);
    if n < |s| {
      var rest := SplitOn(s[n + 1..], c);
      assert SplitOn(s, c) == [s[..n]] + rest;
      assert Join([s[..n]] + rest, [c]) == s[..n] + [c] + Join(rest, [c]) by {
        assert ([s[..n]] + rest)[1..] == rest;
      }
      JoinSplitOn(s[n + 1..], c);
      assert s == s[..n] + [c] + s[n + 1..];
    }
  }

  /** `split` on `c` yields one more piece than there are occurrences of `c`. */
  lemma {:induction false} SplitOnLength(s: string, c: char)
    ensures |SplitOn(s, c)| == CountChar(s, c) + 1
    decreases |s|
  {
    var n := Span(s, x => x != c);
    assert CountChar(s[..n], c) == 0 by { NoCharCount(s[..n], c); }
    if n == |s| {
      assert s[..n] == s;
    } else {
      SplitOnLength(s[n + 1..], c);
      assert s == s[..n] + ([c] + s[n + 1..]);
      CountCharAppend(s[..n], [c] + s[n + 1..], c);
      CountCharAppend([c], s[n + 1..], c);
    }
  }

  lemma {:induction false} NoCharCount(s: string, c: char)
    requires c !in s
    ensures CountChar(s, c) == 0
  {
    if s != [] {
      NoCharCount(s[1..], c);
    }
  }
}

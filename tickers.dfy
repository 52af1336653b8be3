/**
 * The portfolio's ticker list: free text split on runs of whitespace, `,`, `;` and `|`,
 * each piece stripped of one leading `$`, upper-cased and trimmed, empty pieces dropped.
 */
module Portfolio {
  import opened Text
  import Seqs

  /** A character of the class `[\s,;|\n]`. */
  predicate IsSeparator(c: char) {
    IsSpace(c) || c == ',' || c == ';' || c == '|'
  }

  predicate IsTokenChar(c: char) {
    !IsSeparator(c)
  }

  predicate NoSeparator(s: string) {
    forall i :: 0 <= i < |s| ==> !IsSeparator(s[i])
  }

  predicate AllSeparators(s: string) {
    forall i :: 0 <= i < |s| ==> IsSeparator(s[i])
  }

  predicate NoLowercase(s: string) {
    forall i :: 0 <= i < |s| ==> !('a' <= s[i] <= 'z')
  }

  /**
   * `raw.split(/[\s,;|\n]+/)`: the text between maximal runs of separators, with an empty
   * piece before a leading run and after a trailing one.
   */
  function Pieces(s: string): (r: seq<string>)
    ensures |r| >= 1
    ensures forall i :: 0 <= i < |r| ==> NoSeparator(r[i])
    decreases |s|
  {
    var k := Span(s, IsTokenChar);
    if k == |s| then [s]
    else
      var m := Span(s[k..], IsSeparator);
      [s[..k]] + Pieces(s[k + m..])
  }

  /** `t.replace(/^\$/, "").toUpperCase().trim()`. */
  function Token(piece: string): string {
    Trim(ToUpper(StripDollar(piece)))
  }

  /** `.filter((t) => t.length > 0)`. */
  function NonEmpty(xs: seq<string>): (r: seq<string>)
    ensures |r| <= |xs|
    ensures forall i :: 0 <= i < |r| ==> r[i] != []
  {
    Seqs.Filter((x: string) => x != [], xs)
  }

  /** The filter keeps the non-empty strings of its input, and only those. */
  lemma NonEmptyMembers(xs: seq<string>)
    ensures forall x :: x in NonEmpty(xs) <==> x in xs && x != []
  {
    Seqs.FilterMembers((x: string) => x != [], xs);
  }

  /** The filter keeps the order of the strings: it distributes over concatenation. */
  lemma NonEmptyAppend(a: seq<string>, b: seq<string>)
    ensures NonEmpty(a + b) == NonEmpty(a) + NonEmpty(b)
  {
    Seqs.FilterAppend((x: string) => x != [], a, b);
  }

  /** Filtering one string at a time. */
  lemma NonEmptyCons(x: string, xs: seq<string>)
    ensures NonEmpty([x] + xs) == (if x == [] then [] else [x]) + NonEmpty(xs)
  {
    NonEmptyAppend([x], xs);
    assert [x][1..] == [];
  }

  /** `parseTickers(raw)`. */
  function ParseTickers(raw: string): seq<string> {
    NonEmpty(Seqs.Map(Token, Pieces(raw)))
  }

  /** What a ticker must look like to pass through the parser unchanged. */
  predicate IsTicker(t: string) {
    t != [] && NoSeparator(t) && NoLowercase(t) && t[0] != '$'
  }

  /**
   * On a separator-free piece `trim()` has nothing to remove, and the token is the upper case
   * of the piece with at most one leading `$` removed: `$$x` gives `$X`.
   */
  lemma TokenOfPiece(piece: string)
    requires NoSeparator(piece)
    ensures Token(piece) == ToUpper(StripDollar(piece))
    ensures NoSeparator(Token(piece)) && NoLowercase(Token(piece))
    ensures |piece| >= 2 && piece[0] == '$' && piece[1] == '$' ==> Token(piece) == "$" + ToUpper(piece[2..])
  {
    var u := ToUpper(StripDollar(piece));
    UpperKeepsSeparators(StripDollar(piece));
    TrimUnchanged(u);
    if |piece| >= 2 && piece[0] == '$' && piece[1] == '$' {
      UpperOfDollar(piece[1..]);
      assert piece[1..][1..] == piece[2..];
    }
  }

  /** Upper-casing leaves the separators where they were and removes every lower-case letter. */
  lemma UpperKeepsSeparators(s: string)
    requires NoSeparator(s)
    ensures NoSeparator(ToUpper(s)) && NoLowercase(ToUpper(s))
    ensures s == [] || (!IsSpace(ToUpper(s)[0]) && !IsSpace(ToUpper(s)[|s| - 1]))
  {
  }

  lemma UpperOfDollar(s: string)
    requires s != [] && s[0] == '$'
    ensures ToUpper(s) == "$" + ToUpper(s[1..])
  {
  }

  /** Every ticker produced is non-empty, free of separators and of lower-case ASCII letters. */
  lemma ParsedTickersWellFormed(raw: string)
    ensures forall i :: 0 <= i < |ParseTickers(raw)| ==>
      ParseTickers(raw)[i] != [] && NoSeparator(ParseTickers(raw)[i]) && NoLowercase(ParseTickers(raw)[i])
  {
    var ts := Seqs.Map(Token, Pieces(raw));
    NonEmptyMembers(ts);
    forall t | t in ts ensures NoSeparator(t) && NoLowercase(t) {
      var j :| 0 <= j < |ts| && ts[j] == t;
      TokenOfPiece(Pieces(raw)[j]);
    }
  }

  /** Input made only of separators, the empty string included, lists no ticker. */
  lemma SeparatorsOnly(raw: string)
    requires AllSeparators(raw)
    ensures ParseTickers(raw) == []
  {
    EmptyToken();
    if raw == [] {
      assert Pieces(raw) == [""];
    } else {
      assert Span(raw, IsTokenChar) == 0;
      assert Span(raw, IsSeparator) == |raw| by {
        SpanAppend(raw, [], IsSeparator);
        assert raw + [] == raw;
      }
      assert raw[0..] == raw && raw[|raw|..] == [];
      PiecesStep(raw, 0, |raw|);
      assert Pieces(raw) == ["", ""];
      EmptyToken();
      assert Seqs.Map(Token, ["", ""]) == ["", ""];
    }
  }

  /** One step of the split: the token up to position `k`, then the rest after `m` separators. */
  lemma PiecesStep(s: string, k: nat, m: nat)
    requires k < |s| && Span(s, IsTokenChar) == k && Span(s[k..], IsSeparator) == m
    ensures Pieces(s) == [s[..k]] + Pieces(s[k + m..])
  {
  }

  lemma EmptyToken()
    ensures Token("") == ""
  {
    TrimUnchanged("");
  }

  /** A run of separators followed by a token is skipped in one step. */
  lemma SkipSeparators(sep: string, rest: string)
    requires AllSeparators(sep) && (rest == [] || !IsSeparator(rest[0]))
    ensures Span(sep + rest, IsSeparator) == |sep|
  {
    SpanAppend(sep, rest, IsSeparator);
  }

  /** A token followed by a separator is read up to that separator. */
  lemma ReadToken(t: string, rest: string)
    requires NoSeparator(t) && (rest == [] || IsSeparator(rest[0]))
    ensures Span(t + rest, IsTokenChar) == |t|
  {
    SpanAppend(t, rest, IsTokenChar);
  }

  /** Splitting the tickers joined by a run of separators gives the tickers back. */
  lemma {:induction false} PiecesOfJoin(ts: seq<string>, sep: string)
    requires |ts| >= 1 && sep != [] && AllSeparators(sep)
    requires forall i :: 0 <= i < |ts| ==> ts[i] != [] && NoSeparator(ts[i])
    ensures Pieces(Join(ts, sep)) == ts
    decreases |ts|
  {
    var s := Join(ts, sep);
    if |ts| == 1 {
      ReadToken(ts[0], []);
      assert ts[0] + [] == ts[0];
    } else {
      var rest := Join(ts[1..], sep);
      PiecesOfJoin(ts[1..], sep);
      JoinStartsWithHead(ts[1..], sep);
      PiecesOfTokenThenRest(ts[0], sep, rest);
    }
  }

  /** A token, a run of separators and a text that is empty or starts with a token split as the token and then the text. */
  lemma PiecesOfTokenThenRest(t: string, sep: string, rest: string)
    requires NoSeparator(t) && sep != [] && AllSeparators(sep) && (rest == [] || !IsSeparator(rest[0]))
    ensures Pieces(t + sep + rest) == [t] + Pieces(rest)
  {
    var s := t + sep + rest;
    assert s == t + (sep + rest);
    ReadToken(t, sep + rest);
    var k := |t|;
    assert s[k..] == sep + rest;
    SkipSeparators(sep, rest);
    assert s[k + |sep|..] == rest;
    assert s[..k] == t;
    PiecesStep(s, k, |sep|);
  }

  /** A piece that is exactly `$` becomes empty and is dropped, wherever it stands. */
  lemma LoneDollarDropped(p: string, sep1: string, sep2: string, q: string)
    requires sep1 != [] && AllSeparators(sep1) && sep2 != [] && AllSeparators(sep2)
    ensures ParseTickers(p + sep1 + "$" + sep2 + q) == ParseTickers(p) + ParseTickers(q)
  {
    var d := "$" + sep2 + q;
    RegroupTail(p, sep1, "$", sep2, q);
    ParseTickersAppend(p, sep1, d);
    ParseTickersAppend("$", sep2, q);
    LoneDollar();
    assert ParseTickers(d) == ParseTickers(q);
  }

  /** A lone `$` lists no ticker. */
  lemma LoneDollar()
    ensures ParseTickers("$") == []
  {
    assert !IsSeparator('$');
    assert NoSeparator("$");
    ParseTickersOfPiece("$");
  }

  lemma JoinStartsWithHead(ts: seq<string>, sep: string)
    requires |ts| >= 1 && ts[0] != []
    ensures |Join(ts, sep)| >= 1 && Join(ts, sep)[0] == ts[0][0]
  {
  }

  /** A ticker is its own token. */
  lemma TokenOfTicker(t: string)
    requires IsTicker(t)
    ensures Token(t) == t
  {
    TokenOfPiece(t);
    assert ToUpper(t) == t;
  }

  /**
   * Tickers written out with any run of separators between them are read back exactly,
   * in their order and with their repetitions: the parser inverts `tickers.join(", ")`.
   */
  lemma {:induction false} ParseTickersOfJoin(ts: seq<string>, sep: string)
    requires sep != [] && AllSeparators(sep)
    requires forall i :: 0 <= i < |ts| ==> IsTicker(ts[i])
    ensures ParseTickers(Join(ts, sep)) == ts
  {
    if ts == [] {
      assert Pieces("") == [""];
      assert Token("") == "";
    } else {
      PiecesOfJoin(ts, sep);
      forall i | 0 <= i < |ts| ensures Token(ts[i]) == ts[i] {
        TokenOfTicker(ts[i]);
      }
      assert Seqs.Map(Token, ts) == ts;
      NonEmptyUnchanged(ts);
    }
  }

  /** The filter leaves a list without empty strings as it is. */
  lemma {:induction false} NonEmptyUnchanged(xs: seq<string>)
    requires forall i :: 0 <= i < |xs| ==> xs[i] != []
    ensures NonEmpty(xs) == xs
    decreases |xs|
  {
    if xs != [] {
      NonEmptyUnchanged(xs[1..]);
      NonEmptyCons(xs[0], xs[1..]);
      assert xs == [xs[0]] + xs[1..];
    }
  }

  // ---------------------------------------------------------------------------
  // Splitting anywhere

  /** `Span` is the first position whose character fails `p`, or the end. */
  lemma SpanIs(s: string, p: char -> bool, n: nat)
    requires n <= |s| && (forall i :: 0 <= i < n ==> p(s[i])) && (n < |s| ==> !p(s[n]))
    ensures Span(s, p) == n
  {
  }

  /** The words of a text: its pieces without the empty ones a leading or trailing run leaves. */
  function Words(s: string): seq<string> {
    NonEmpty(Pieces(s))
  }

  /** Separators at the start of a text change none of its words. */
  lemma LeadingSeparators(q: string)
    ensures Words(q) == Words(q[Span(q, IsSeparator)..])
  {
    var j := Span(q, IsSeparator);
    if j > 0 {
      SpanIs(q, IsTokenChar, 0);
      assert q[0..] == q;
      PiecesStep(q, 0, j);
      NonEmptyCons("", Pieces(q[j..]));
    }
  }

  /** A text without separators is a single word, or none when it is empty. */
  lemma WordsOfToken(t: string)
    requires NoSeparator(t)
    ensures Words(t) == if t == [] then [] else [t]
  {
    SpanIs(t, IsTokenChar, |t|);
    assert Pieces(t) == [t] + [];
    NonEmptyCons(t, []);
  }

  /** The words of a token, a run of separators and a text that is empty or starts with a token. */
  lemma WordsOfTokenThenRest(t: string, sep: string, rest: string)
    requires NoSeparator(t) && sep != [] && AllSeparators(sep) && (rest == [] || !IsSeparator(rest[0]))
    ensures Words(t + sep + rest) == (if t == [] then [] else [t]) + Words(rest)
  {
    PiecesOfTokenThenRest(t, sep, rest);
    NonEmptyCons(t, Pieces(rest));
  }

  /**
   * Two texts joined by any non-empty run of separators have the words of the first, then
   * the words of the second, whatever runs the texts themselves start or end with.
   */
  lemma {:induction false} WordsOfJoin(p: string, sep: string, q: string)
    requires sep != [] && AllSeparators(sep)
    ensures Words(p + sep + q) == Words(p) + Words(q)
    decreases |p|
  {
    var k := Span(p, IsTokenChar);
    if k == |p| {
      JoinAfterToken(p, sep, q);
    } else {
      var m := Span(p[k..], IsSeparator);
      var t, r, tail := p[..k], p[k..k + m], p[k + m..];
      Cut3(p, k, k + m);
      if tail == [] {
        assert p == t + r;
        JoinAfterTrailingRun(t, r, sep, q);
      } else {
        var h := if t == [] then [] else [t];
        assert p + sep + q == t + r + tail + sep + q;
        JoinInside(t, r, tail, sep, q);
        WordsOfJoin(tail, sep, q);
        assert Words(p) == h + Words(tail);
        assert Words(p + sep + q) == h + (Words(tail) + Words(q));
        Assoc(h, Words(tail), Words(q));
      }
    }
  }

  /** The case of `WordsOfJoin` where the first text has no separator: it is one word, or none. */
  lemma JoinAfterToken(p: string, sep: string, q: string)
    requires sep != [] && AllSeparators(sep) && NoSeparator(p)
    ensures Words(p + sep + q) == Words(p) + Words(q)
  {
    var j := Span(q, IsSeparator);
    var rest := q[j..];
    Cut(q, j);
    Regroup(p, sep, q[..j], rest);
    WordsOfTokenThenRest(p, sep + q[..j], rest);
    LeadingSeparators(q);
    WordsOfToken(p);
  }

  /** The case of `WordsOfJoin` where the first text is a token and a run of separators. */
  lemma JoinAfterTrailingRun(t: string, r: string, sep: string, q: string)
    requires NoSeparator(t) && r != [] && AllSeparators(r) && sep != [] && AllSeparators(sep)
    ensures Words(t + r + sep + q) == Words(t + r) + Words(q)
  {
    var j := Span(q, IsSeparator);
    var rest := q[j..];
    var h := if t == [] then [] else [t];
    Cut(q, j);
    RegroupRun(t, r, sep, q[..j], rest);
    WordsOfTokenThenRest(t, r + (sep + q[..j]), rest);
    assert Words(t + r + sep + q) == h + Words(rest);
    WordsOfTokenThenRest(t, r, []);
    assert t + r + [] == t + r;
    WordsOfToken([]);
    assert Words(t + r) == h;
    LeadingSeparators(q);
  }

  /** The step of `WordsOfJoin`: the first word is read off both sides alike. */
  lemma JoinInside(t: string, r: string, tail: string, sep: string, q: string)
    requires NoSeparator(t) && r != [] && AllSeparators(r) && tail != [] && !IsSeparator(tail[0])
    ensures Words(t + r + tail) == (if t == [] then [] else [t]) + Words(tail)
    ensures Words(t + r + tail + sep + q) == (if t == [] then [] else [t]) + Words(tail + sep + q)
  {
    WordsOfTokenThenRest(t, r, tail);
    RegroupTail(t, r, tail, sep, q);
    assert (tail + sep + q)[0] == tail[0];
    WordsOfTokenThenRest(t, r, tail + sep + q);
  }

  lemma Assoc<T>(a: seq<T>, b: seq<T>, c: seq<T>)
    ensures a + (b + c) == a + b + c
  {
  }

  lemma Cut<T>(s: seq<T>, i: nat)
    requires i <= |s|
    ensures s == s[..i] + s[i..]
  {
  }

  lemma Cut3<T>(s: seq<T>, i: nat, j: nat)
    requires i <= j <= |s|
    ensures s == s[..i] + s[i..j] + s[j..]
  {
    assert s[..j] == s[..i] + s[i..j];
  }

  lemma Regroup<T>(p: seq<T>, sep: seq<T>, q1: seq<T>, q2: seq<T>)
    ensures p + sep + (q1 + q2) == p + (sep + q1) + q2
  {
  }

  lemma RegroupTail<T>(t: seq<T>, r: seq<T>, tail: seq<T>, sep: seq<T>, q: seq<T>)
    ensures t + r + tail + sep + q == t + r + (tail + sep + q)
  {
  }

  lemma RegroupRun<T>(t: seq<T>, r: seq<T>, sep: seq<T>, q1: seq<T>, q2: seq<T>)
    ensures t + r + sep + (q1 + q2) == t + (r + (sep + q1)) + q2
  {
  }

  /** Dropping the empty pieces first changes nothing, because an empty piece has an empty token. */
  lemma {:induction false} TokensOfWords(xs: seq<string>)
    ensures NonEmpty(Seqs.Map(Token, xs)) == NonEmpty(Seqs.Map(Token, NonEmpty(xs)))
    decreases |xs|
  {
    if xs != [] {
      var x, rest := xs[0], xs[1..];
      TokensOfWords(rest);
      assert xs == [x] + rest;
      MapCons(x, rest);
      NonEmptyCons(x, rest);
      NonEmptyCons(Token(x), Seqs.Map(Token, rest));
      if x == [] {
        EmptyToken();
        assert NonEmpty(xs) == NonEmpty(rest);
      } else {
        MapCons(x, NonEmpty(rest));
        NonEmptyCons(Token(x), Seqs.Map(Token, NonEmpty(rest)));
      }
    }
  }

  lemma MapCons(x: string, xs: seq<string>)
    ensures Seqs.Map(Token, [x] + xs) == [Token(x)] + Seqs.Map(Token, xs)
  {
    Seqs.MapAppend(Token, [x], xs);
  }

  /**
   * `parseTickers` reads two texts joined by separators as the tickers of the first followed
   * by those of the second: order and repetitions are kept, for any texts.
   */
  lemma ParseTickersAppend(p: string, sep: string, q: string)
    requires sep != [] && AllSeparators(sep)
    ensures ParseTickers(p + sep + q) == ParseTickers(p) + ParseTickers(q)
  {
    WordsOfJoin(p, sep, q);
    TokensOfWords(Pieces(p + sep + q));
    TokensOfWords(Pieces(p));
    TokensOfWords(Pieces(q));
    Seqs.MapAppend(Token, Words(p), Words(q));
    NonEmptyAppend(Seqs.Map(Token, Words(p)), Seqs.Map(Token, Words(q)));
  }

  /** A text without separators is one piece: no ticker when it is empty or a lone `$`, else its token. */
  lemma ParseTickersOfPiece(t: string)
    requires NoSeparator(t)
    ensures ParseTickers(t) == if t == "" || t == "$" then [] else [Token(t)]
    ensures t != "" && t != "$" ==> Token(t) != []
  {
    SpanIs(t, IsTokenChar, |t|);
    assert Pieces(t) == [t];
    TokenOfPiece(t);
    assert Seqs.Map(Token, [t]) == [Token(t)];
    NonEmptyCons(Token(t), []);
  }
}

/**
 * The note renderer of the list: a note's text cut into runs of plain text and pasted
 * images written `![alt](url)`, every plain run then shown line by line.
 */
module NoteImages {
  import opened Wrappers
  import opened Text

  /** A piece of a rendered note: a run of plain text, or an image with its alt text and address. */
  datatype Part = Plain(text: string) | Image(alt: string, url: string)

  /** One match of the image pattern in a note: where it starts, what it captured, where it ends. */
  datatype Match = Match(start: nat, alt: string, url: string, end: nat)

  /** How an image is written in a note. */
  function ImageSyntax(alt: string, url: string): string {
    "![" + alt + "](" + url + ")"
  }

  /** What the captures `[^\]]*` and `[^)]+` admit. */
  predicate ImageFields(alt: string, url: string) {
    ']' !in alt && ')' !in url && url != []
  }

  /** Position `i` of `s` holds the image `alt`, `url` written out, character by character. */
  predicate SyntaxAt(s: string, i: nat, alt: string, url: string) {
    var j, k := i + 2 + |alt|, i + 4 + |alt| + |url|;
    && k < |s|
    && s[i] == '!' && s[i + 1] == '[' && s[i + 2..j] == alt
    && s[j] == ']' && s[j + 1] == '(' && s[j + 2..k] == url && s[k] == ')'
  }

  /** The character-by-character form is the written-out image. */
  lemma SyntaxAtIsSyntax(s: string, i: nat, alt: string, url: string)
    requires SyntaxAt(s, i, alt, url)
    ensures s[i..i + |alt| + |url| + 5] == ImageSyntax(alt, url)
  {
    var j, k := i + 2 + |alt|, i + 4 + |alt| + |url|;
    assert s[i..i + 2] == "![";
    SliceSplit(s, i, i + 2, j);
    assert s[i..j] == "![" + alt;
    assert s[j..j + 2] == "](";
    SliceSplit(s, i, j, j + 2);
    assert s[i..j + 2] == "![" + alt + "](";
    SliceSplit(s, i, j + 2, k);
    assert s[i..k] == "![" + alt + "](" + url;
    assert s[k..k + 1] == ")";
    SliceSplit(s, i, k, k + 1);
  }

  lemma SliceSplit(s: string, a: nat, b: nat, c: nat)
    requires a <= b <= c <= |s|
    ensures s[a..c] == s[a..b] + s[b..c]
  {
  }

  lemma SyntaxIsSyntaxAt(p: string, alt: string, url: string, rest: string)
    ensures SyntaxAt(p + ImageSyntax(alt, url) + rest, |p|, alt, url)
    ensures |p + ImageSyntax(alt, url)| == |p| + |alt| + |url| + 5
  {
    var s := p + ImageSyntax(alt, url) + rest;
    var i := |p|;
    var j, k := i + 2 + |alt|, i + 4 + |alt| + |url|;
    assert s == p + "![" + alt + "](" + url + ")" + rest;
    assert s[i + 2..j] == alt;
    assert s[j + 2..k] == url;
  }

  /** The first position at or after `i` that holds `c`, or the end of `s`: the greedy run of `[^c]`. */
  function UpTo(s: string, i: nat, c: char): (n: nat)
    requires i <= |s|
    ensures i <= n <= |s|
    decreases |s| - i
  {
    if i == |s| || s[i] == c then i else UpTo(s, i + 1, c)
  }

  /** The run is as long as it can be: no character in it is `c`, the next one is. */
  lemma {:induction false} UpToStops(s: string, i: nat, c: char)
    requires i <= |s|
    ensures forall k :: i <= k < UpTo(s, i, c) ==> s[k] != c
    ensures UpTo(s, i, c) < |s| ==> s[UpTo(s, i, c)] == c
    decreases |s| - i
  {
    if i < |s| && s[i] != c {
      UpToStops(s, i + 1, c);
    }
  }

  lemma {:induction false} UpToIs(s: string, i: nat, n: nat, c: char)
    requires i <= n < |s| && s[n] == c && forall k :: i <= k < n ==> s[k] != c
    ensures UpTo(s, i, c) == n
    decreases n - i
  {
    if i < n {
      UpToIs(s, i + 1, n, c);
    }
  }

  /**
   * One attempt of `/!\[([^\]]*)\]\(([^)]+)\)/` at position `i` of `s`: the alt text and
   * address captured and where the match ends. Neither character class can give back a
   * character the literal after it needs, so the greedy runs are the only way to match.
   */
  function MatchAt(s: string, i: nat): (r: Option<Match>)
    requires i <= |s|
    ensures r.Some? ==> var m := r.value;
      m.start == i && m.end == i + |m.alt| + |m.url| + 5 && m.end <= |s|
  {
    if i + 1 < |s| && s[i] == '!' && s[i + 1] == '[' then
      var j := UpTo(s, i + 2, ']');
      if j + 1 < |s| && s[j + 1] == '(' then
        var k := UpTo(s, j + 2, ')');
        if j + 2 < k < |s| then Some(Match(i, s[i + 2..j], s[j + 2..k], k + 1)) else None
      else None
    else None
  }

  /** A match is an image written out, with captures the pattern admits. */
  lemma MatchAtSound(s: string, i: nat, m: Match)
    requires i <= |s| && MatchAt(s, i) == Some(m)
    ensures ImageFields(m.alt, m.url) && SyntaxAt(s, i, m.alt, m.url)
  {
    var j, k := MatchAtShape(s, i, m);
    SyntaxOfRuns(s, i, j, k);
  }

  /**
   * What a match at `i` read: `![`, a run without `]` up to `j`, `](`, a non-empty run
   * without `)` up to `k`, and `)`.
   */
  lemma MatchAtShape(s: string, i: nat, m: Match) returns (j: nat, k: nat)
    requires i <= |s| && MatchAt(s, i) == Some(m)
    ensures i + 2 <= j && j + 2 < k < |s|
    ensures s[i] == '!' && s[i + 1] == '[' && s[j] == ']' && s[j + 1] == '(' && s[k] == ')'
    ensures m == Match(i, s[i + 2..j], s[j + 2..k], k + 1)
    ensures ']' !in s[i + 2..j] && ')' !in s[j + 2..k]
  {
    j := UpTo(s, i + 2, ']');
    k := UpTo(s, j + 2, ')');
    UpToStops(s, i + 2, ']');
    UpToStops(s, j + 2, ')');
    RunWithout(s, i + 2, ']');
    RunWithout(s, j + 2, ')');
  }

  lemma SyntaxOfRuns(s: string, i: nat, j: nat, k: nat)
    requires i + 2 <= j && j + 2 < k < |s|
    requires s[i] == '!' && s[i + 1] == '[' && s[j] == ']' && s[j + 1] == '(' && s[k] == ')'
    ensures SyntaxAt(s, i, s[i + 2..j], s[j + 2..k])
  {
  }

  /** The run up to `c` holds no `c`. */
  lemma RunWithout(s: string, i: nat, c: char)
    requires i <= |s|
    ensures c !in s[i..UpTo(s, i, c)]
  {
    UpToStops(s, i, c);
  }

  /** An image written out at position `i` matches there, with exactly its alt text and address. */
  lemma MatchOfSyntax(s: string, i: nat, alt: string, url: string)
    requires i <= |s| && ImageFields(alt, url) && SyntaxAt(s, i, alt, url)
    ensures MatchAt(s, i) == Some(Match(i, alt, url, i + |alt| + |url| + 5))
  {
    var j, k := i + 2 + |alt|, i + 4 + |alt| + |url|;
    assert forall x :: i + 2 <= x < j ==> s[x] == alt[x - i - 2];
    UpToIs(s, i + 2, j, ']');
    assert forall x :: j + 2 <= x < k ==> s[x] == url[x - j - 2];
    UpToIs(s, j + 2, k, ')');
  }

  /**
   * `imageRegex.exec(s)` with `lastIndex` at `from`: the leftmost match that starts at or
   * after `from`, or none.
   */
  function NextMatch(s: string, from: nat): (r: Option<Match>)
    requires from <= |s|
    ensures r.Some? ==> from <= r.value.start < r.value.end <= |s| && MatchAt(s, r.value.start) == r
    decreases |s| - from
  {
    if MatchAt(s, from).Some? then MatchAt(s, from)
    else if from == |s| then None
    else NextMatch(s, from + 1)
  }

  /** The search finds the leftmost match: none starts between `from` and the one found. */
  lemma {:induction false} NextMatchLeftmost(s: string, from: nat)
    requires from <= |s|
    ensures NextMatch(s, from).Some? ==> forall i :: from <= i < NextMatch(s, from).value.start ==> MatchAt(s, i).None?
    ensures NextMatch(s, from).None? ==> forall i :: from <= i <= |s| ==> MatchAt(s, i).None?
    decreases |s| - from
  {
    if MatchAt(s, from).None? && from < |s| {
      assert NextMatch(s, from) == NextMatch(s, from + 1);
      NextMatchLeftmost(s, from + 1);
    }
  }

  /** The plain run between the end of one match and the start of the next, unless it is empty. */
  function Before(s: string, from: nat, start: nat): seq<Part>
    requires from <= start <= |s|
  {
    if from < start then [Plain(s[from..start])] else []
  }

  /** The parts of the note from position `from` on, in the order the renderer lists them. */
  function Parts(s: string, from: nat): seq<Part>
    requires from <= |s|
    decreases |s| - from
  {
    match NextMatch(s, from)
    case None => Before(s, from, |s|)
    case Some(m) => Before(s, from, m.start) + [Image(m.alt, m.url)] + Parts(s, m.end)
  }

  lemma PartsStep(s: string, from: nat, m: Match)
    requires from <= |s| && NextMatch(s, from) == Some(m)
    ensures from <= m.start < m.end <= |s|
    ensures Parts(s, from) == Before(s, from, m.start) + [Image(m.alt, m.url)] + Parts(s, m.end)
  {
  }

  lemma PartsEnd(s: string, from: nat)
    requires from <= |s| && NextMatch(s, from) == None
    ensures Parts(s, from) == Before(s, from, |s|)
  {
  }

  /** `renderNoteWithImages`'s loop over `imageRegex.exec(noteText)`. */
  method SplitNote(note: string) returns (parts: seq<Part>)
    ensures parts == Parts(note, 0)
  {
    parts := [];
    var lastIndex := 0;
    var next := NextMatch(note, 0);
    while next.Some?
      invariant lastIndex <= |note|
      invariant next == NextMatch(note, lastIndex)
      invariant parts + Parts(note, lastIndex) == Parts(note, 0)
      decreases |note| - lastIndex
    {
      var m := next.value;
      PartsStep(note, lastIndex, m);
      var before := parts;
      if m.start > lastIndex {
        parts := parts + [Plain(note[lastIndex..m.start])];
      }
      parts := parts + [Image(m.alt, m.url)];
      assert parts == before + Before(note, lastIndex, m.start) + [Image(m.alt, m.url)];
      LoopStep(parts, before, Before(note, lastIndex, m.start), Image(m.alt, m.url), Parts(note, m.end), Parts(note, 0));
      lastIndex := m.end;
      next := NextMatch(note, lastIndex);
    }
    PartsEnd(note, lastIndex);
    if lastIndex < |note| {
      assert note[lastIndex..|note|] == note[lastIndex..];
      parts := parts + [Plain(note[lastIndex..])];
    } else {
      assert parts + [] == parts;
    }
  }

  lemma LoopStep(parts: seq<Part>, before: seq<Part>, pre: seq<Part>, img: Part, rest: seq<Part>, whole: seq<Part>)
    requires parts == before + pre + [img] && before + (pre + [img] + rest) == whole
    ensures parts + rest == whole
  {
    assert before + (pre + [img] + rest) == before + pre + [img] + rest;
  }

  // ---------------------------------------------------------------------------
  // Writing the parts back

  function Show(p: Part): string {
    match p
    case Plain(t) => t
    case Image(alt, url) => ImageSyntax(alt, url)
  }

  /** The note text the parts were cut from. */
  function Render(ps: seq<Part>): string {
    if ps == [] then "" else Show(ps[0]) + Render(ps[1..])
  }

  lemma {:induction false} RenderAppend(a: seq<Part>, b: seq<Part>)
    ensures Render(a + b) == Render(a) + Render(b)
    decreases |a|
  {
    if a == [] {
      assert a + b == b;
    } else {
      assert (a + b)[0] == a[0] && (a + b)[1..] == a[1..] + b;
      RenderAppend(a[1..], b);
    }
  }

  lemma RenderBefore(s: string, from: nat, start: nat)
    requires from <= start <= |s|
    ensures Render(Before(s, from, start)) == s[from..start]
  {
    if from < start {
      assert Render([Plain(s[from..start])]) == s[from..start] + "";
    }
  }

  /** A match covers exactly the written-out image it captured. */
  lemma ImageSpan(s: string, m: Match)
    requires m.start <= |s| && MatchAt(s, m.start) == Some(m)
    ensures s[m.start..m.end] == ImageSyntax(m.alt, m.url) && ImageFields(m.alt, m.url)
  {
    MatchAtSound(s, m.start, m);
    SyntaxAtIsSyntax(s, m.start, m.alt, m.url);
  }

  lemma RenderOne(p: Part)
    ensures Render([p]) == Show(p)
  {
    assert Render([p]) == Show(p) + "";
  }

  lemma RenderCut(s: string, a: nat, b: nat, c: nat, pre: seq<Part>, img: Part, rest: seq<Part>)
    requires a <= b <= c <= |s|
    requires Render(pre) == s[a..b] && Show(img) == s[b..c] && Render(rest) == s[c..]
    ensures Render(pre + [img] + rest) == s[a..]
  {
    RenderAppend(pre + [img], rest);
    RenderAppend(pre, [img]);
    RenderOne(img);
    SliceSplit(s, a, b, c);
    SliceSplit(s, a, c, |s|);
    assert s[a..|s|] == s[a..] && s[c..|s|] == s[c..];
  }

  /** The parts give back the note: nothing is dropped, doubled or moved. */
  lemma {:induction false} RenderParts(s: string, from: nat)
    requires from <= |s|
    ensures Render(Parts(s, from)) == s[from..]
    decreases |s| - from
  {
    match NextMatch(s, from)
    case None =>
      PartsEnd(s, from);
      RenderBefore(s, from, |s|);
      assert s[from..|s|] == s[from..];
    case Some(m) =>
      PartsStep(s, from, m);
      RenderParts(s, m.end);
      ImageSpan(s, m);
      RenderBefore(s, from, m.start);
      RenderCut(s, from, m.start, m.end, Before(s, from, m.start), Image(m.alt, m.url), Parts(s, m.end));
  }

  /**
   * The shape of a part list: plain runs are never empty and never side by side, and every
   * image has an address and captures that the pattern admits.
   */
  predicate Shaped(ps: seq<Part>) {
    && (forall i :: 0 <= i < |ps| && ps[i].Plain? ==> ps[i].text != [])
    && (forall i :: 0 <= i < |ps| && ps[i].Image? ==> ImageFields(ps[i].alt, ps[i].url))
    && (forall i, j :: 0 <= i && j == i + 1 < |ps| ==> ps[i].Image? || ps[j].Image?)
  }

  /** Putting a part in front of a shaped list keeps the shape when the part fits there. */
  lemma ShapedPush(x: Part, xs: seq<Part>)
    requires Shaped(xs)
    requires x.Plain? ==> x.text != [] && xs != [] && xs[0].Image?
    requires x.Image? ==> ImageFields(x.alt, x.url)
    ensures Shaped([x] + xs)
  {
    var ps := [x] + xs;
    assert forall i :: 1 <= i < |ps| ==> ps[i] == xs[i - 1];
  }

  lemma ShapedCons(pre: seq<Part>, alt: string, url: string, rest: seq<Part>)
    requires pre == [] || (|pre| == 1 && pre[0].Plain? && pre[0].text != [])
    requires ImageFields(alt, url) && Shaped(rest)
    ensures Shaped(pre + [Image(alt, url)] + rest)
  {
    ShapedPush(Image(alt, url), rest);
    if pre != [] {
      ShapedPush(pre[0], [Image(alt, url)] + rest);
      assert pre + [Image(alt, url)] + rest == [pre[0]] + ([Image(alt, url)] + rest);
    } else {
      assert pre + [Image(alt, url)] + rest == [Image(alt, url)] + rest;
    }
  }

  /** Every part list the renderer produces has that shape. */
  lemma {:induction false} PartsShaped(s: string, from: nat)
    requires from <= |s|
    ensures Shaped(Parts(s, from))
    decreases |s| - from
  {
    match NextMatch(s, from)
    case None =>
      PartsEnd(s, from);
    case Some(m) =>
      PartsStep(s, from, m);
      PartsShaped(s, m.end);
      ImageSpan(s, m);
      ShapedCons(Before(s, from, m.start), m.alt, m.url, Parts(s, m.end));
  }

  /** The part lists that come back unchanged: shaped, and no `!` in a plain run. */
  predicate Renderable(ps: seq<Part>) {
    Shaped(ps) && forall i :: 0 <= i < |ps| && ps[i].Plain? ==> '!' !in ps[i].text
  }

  /** Plain text without `!` holds no match, so the search runs past it. */
  lemma {:induction false} SkipPlain(s: string, from: nat, n: nat)
    requires from <= n <= |s|
    requires forall i :: from <= i < n ==> s[i] != '!'
    ensures NextMatch(s, from) == NextMatch(s, n)
    decreases n - from
  {
    if from < n {
      assert MatchAt(s, from).None?;
      assert NextMatch(s, from) == NextMatch(s, from + 1);
      SkipPlain(s, from + 1, n);
    }
  }

  /** An image written out at position `i` is the next part there. */
  lemma PartsAtImage(s: string, i: nat, alt: string, url: string, rest: seq<Part>)
    requires i <= |s| && ImageFields(alt, url) && SyntaxAt(s, i, alt, url)
    requires Parts(s, i + |alt| + |url| + 5) == rest
    ensures Parts(s, i) == [Image(alt, url)] + rest
  {
    MatchOfSyntax(s, i, alt, url);
    PartsStep(s, i, Match(i, alt, url, i + |alt| + |url| + 5));
  }

  lemma PartsOfImage(p: string, alt: string, url: string, r: string, rest: seq<Part>)
    requires ImageFields(alt, url)
    requires Parts(p + ImageSyntax(alt, url) + r, |p + ImageSyntax(alt, url)|) == rest
    ensures Parts(p + ImageSyntax(alt, url) + r, |p|) == [Image(alt, url)] + rest
  {
    SyntaxIsSyntaxAt(p, alt, url, r);
    PartsAtImage(p + ImageSyntax(alt, url) + r, |p|, alt, url, rest);
  }

  lemma PlainChars(s: string, from: nat, t: string)
    requires from + |t| <= |s| && s[from..from + |t|] == t && '!' !in t
    ensures forall i :: from <= i < from + |t| ==> s[i] != '!'
  {
    assert forall i :: from <= i < from + |t| ==> s[i] == t[i - from];
  }

  /** After a plain run without `!`, an image written out is the next match. */
  lemma NextOfPlainImage(s: string, i: nat, t: string, alt: string, url: string, end: nat)
    requires i + |t| <= |s| && s[i..i + |t|] == t && '!' !in t
    requires ImageFields(alt, url) && SyntaxAt(s, i + |t|, alt, url)
    requires end == i + |t| + |alt| + |url| + 5
    ensures NextMatch(s, i) == Some(Match(i + |t|, alt, url, end))
  {
    PlainChars(s, i, t);
    MatchOfSyntax(s, i + |t|, alt, url);
    NextAfterPlain(s, i, i + |t|, Match(i + |t|, alt, url, end));
  }

  /** The search runs past text without `!` to the match after it. */
  lemma NextAfterPlain(s: string, i: nat, n: nat, m: Match)
    requires i <= n <= |s| && forall k :: i <= k < n ==> s[k] != '!'
    requires MatchAt(s, n) == Some(m)
    ensures NextMatch(s, i) == Some(m)
  {
    SkipPlain(s, i, n);
  }

  lemma PartsAfterPlain(s: string, i: nat, m: Match, t: string, rest: seq<Part>)
    requires i < m.start <= |s| && NextMatch(s, i) == Some(m)
    requires s[i..m.start] == t && Parts(s, m.end) == rest
    ensures Parts(s, i) == [Plain(t), Image(m.alt, m.url)] + rest
  {
    PartsStep(s, i, m);
    Pair(Plain(t), Image(m.alt, m.url), rest);
  }

  lemma Pair<X>(a: X, b: X, r: seq<X>)
    ensures [a] + [b] + r == [a, b] + r
  {
  }

  /** Where the run and the image sit in `p + t + ImageSyntax(alt, url) + r`. */
  lemma PlainImageLayout(p: string, t: string, alt: string, url: string, r: string)
    ensures var s := p + t + ImageSyntax(alt, url) + r;
      && |p| + |t| <= |s| && s[|p|..|p| + |t|] == t && SyntaxAt(s, |p| + |t|, alt, url)
      && |p + t + ImageSyntax(alt, url)| == |p| + |t| + |alt| + |url| + 5
  {
    SyntaxIsSyntaxAt(p + t, alt, url, r);
    assert p + t + (ImageSyntax(alt, url) + r) == p + t + ImageSyntax(alt, url) + r;
    assert (p + t + (ImageSyntax(alt, url) + r))[|p|..|p| + |t|] == t;
  }

  /** In `p + t + ImageSyntax(alt, url) + r`, the image is the next match after `p`. */
  lemma PlainImageNext(p: string, t: string, alt: string, url: string, r: string)
    requires '!' !in t && ImageFields(alt, url)
    ensures var s := p + t + ImageSyntax(alt, url) + r;
      && |p| + |t| <= |s| && s[|p|..|p| + |t|] == t
      && NextMatch(s, |p|) == Some(Match(|p| + |t|, alt, url, |p + t + ImageSyntax(alt, url)|))
  {
    PlainImageLayout(p, t, alt, url, r);
    NextOfPlainImage(p + t + ImageSyntax(alt, url) + r, |p|, t, alt, url, |p + t + ImageSyntax(alt, url)|);
  }

  /** A plain run without `!` and then an image written out: the run and the image are the next two parts. */
  lemma PartsOfPlainImage(p: string, t: string, alt: string, url: string, r: string, rest: seq<Part>)
    requires t != [] && '!' !in t && ImageFields(alt, url)
    requires Parts(p + t + ImageSyntax(alt, url) + r, |p + t + ImageSyntax(alt, url)|) == rest
    ensures Parts(p + t + ImageSyntax(alt, url) + r, |p|) == [Plain(t), Image(alt, url)] + rest
  {
    PlainImageNext(p, t, alt, url, r);
    PartsAfterPlain(p + t + ImageSyntax(alt, url) + r, |p|,
                    Match(|p| + |t|, alt, url, |p + t + ImageSyntax(alt, url)|), t, rest);
  }

  /** A plain run without `!` at the end of the note is its last part. */
  lemma PartsOfPlainTail(s: string, from: nat)
    requires from < |s| && forall i :: from <= i < |s| ==> s[i] != '!'
    ensures Parts(s, from) == [Plain(s[from..])]
  {
    SkipPlain(s, from, |s|);
    assert MatchAt(s, |s|).None?;
    PartsEnd(s, from);
    assert s[from..|s|] == s[from..];
  }

  lemma PartsOfPlainEnd(p: string, t: string)
    requires t != [] && '!' !in t
    ensures Parts(p + t, |p|) == [Plain(t)]
  {
    var s := p + t;
    assert s[|p|..|p| + |t|] == t && s[|p|..] == t;
    PlainChars(s, |p|, t);
    PartsOfPlainTail(s, |p|);
  }

  lemma RenderCons(ps: seq<Part>)
    requires ps != []
    ensures Render(ps) == Show(ps[0]) + Render(ps[1..])
  {
  }

  lemma Assoc(a: string, b: string, c: string)
    ensures a + (b + c) == a + b + c
  {
  }

  lemma Assoc4(a: string, b: string, c: string, d: string)
    ensures a + (b + (c + d)) == a + b + c + d
  {
  }

  lemma RenderableAt(ps: seq<Part>, i: nat)
    requires Renderable(ps) && i < |ps|
    ensures ps[i].Plain? ==> ps[i].text != [] && '!' !in ps[i].text && (i + 1 < |ps| ==> ps[i + 1].Image?)
    ensures ps[i].Image? ==> ImageFields(ps[i].alt, ps[i].url)
  {
  }

  lemma RenderableRest(ps: seq<Part>, k: nat)
    requires Renderable(ps) && k <= |ps|
    ensures Renderable(ps[k..])
  {
    assert forall i :: 0 <= i < |ps| - k ==> ps[k..][i] == ps[i + k];
  }

  /** A part list that starts with an image: the image, then the rest. */
  lemma SplitImage(ps: seq<Part>)
    requires ps != [] && ps[0].Image?
    ensures ps == [Image(ps[0].alt, ps[0].url)] + ps[1..]
    ensures Render(ps) == ImageSyntax(ps[0].alt, ps[0].url) + Render(ps[1..])
  {
  }

  /** A part list that is one plain run. */
  lemma SplitPlain(ps: seq<Part>)
    requires |ps| == 1 && ps[0].Plain?
    ensures ps == [Plain(ps[0].text)]
    ensures Render(ps) == ps[0].text
  {
    assert ps[1..] == [];
    assert ps[0].text + [] == ps[0].text;
  }

  /** A part list that starts with a plain run and an image: the two, then the rest. */
  lemma SplitPlainImage(ps: seq<Part>)
    requires |ps| >= 2 && ps[0].Plain? && ps[1].Image?
    ensures ps == [Plain(ps[0].text), Image(ps[1].alt, ps[1].url)] + ps[2..]
    ensures Render(ps) == ps[0].text + (ImageSyntax(ps[1].alt, ps[1].url) + Render(ps[2..]))
  {
    RenderCons(ps);
    RenderCons(ps[1..]);
    assert ps[1..][0] == ps[1] && ps[1..][1..] == ps[2..];
  }

  /** Cutting a written-out part list gives the list back: the renderer inverts `Render`. */
  lemma {:induction false} PartsOfRender(p: string, ps: seq<Part>)
    requires Renderable(ps)
    ensures Parts(p + Render(ps), |p|) == ps
    decreases |ps|, 1
  {
    if ps == [] {
      assert p + Render(ps) == p;
      assert MatchAt(p, |p|).None?;
      PartsEnd(p, |p|);
    } else if ps[0].Image? {
      ImageFirst(p, ps);
    } else if |ps| == 1 {
      RenderableAt(ps, 0);
      SplitPlain(ps);
      PartsOfPlainEnd(p, ps[0].text);
    } else {
      PlainFirst(p, ps);
    }
  }

  lemma {:induction false} ImageFirst(p: string, ps: seq<Part>)
    requires Renderable(ps) && ps != [] && ps[0].Image?
    ensures Parts(p + Render(ps), |p|) == ps
    decreases |ps|, 0
  {
    var alt, url, rest := ps[0].alt, ps[0].url, ps[1..];
    RenderableAt(ps, 0);
    RenderableRest(ps, 1);
    PartsOfRender(p + ImageSyntax(alt, url), rest);
    SplitImage(ps);
    Assoc(p, ImageSyntax(alt, url), Render(rest));
    PartsOfImage(p, alt, url, Render(rest), rest);
  }

  lemma {:induction false} PlainFirst(p: string, ps: seq<Part>)
    requires Renderable(ps) && |ps| >= 2 && ps[0].Plain?
    ensures Parts(p + Render(ps), |p|) == ps
    decreases |ps|, 0
  {
    var t, alt, url, rest := ps[0].text, ps[1].alt, ps[1].url, ps[2..];
    RenderableAt(ps, 0);
    RenderableAt(ps, 1);
    RenderableRest(ps, 2);
    PartsOfRender(p + t + ImageSyntax(alt, url), rest);
    SplitPlainImage(ps);
    Assoc4(p, t, ImageSyntax(alt, url), Render(rest));
    PartsOfPlainImage(p, t, alt, url, Render(rest), rest);
  }

  /** The round trip from the start of a note. */
  lemma SplitRender(ps: seq<Part>)
    requires Renderable(ps)
    ensures Parts(Render(ps), 0) == ps
  {
    PartsOfRender("", ps);
    assert "" + Render(ps) == Render(ps);
  }

  // ---------------------------------------------------------------------------
  // Showing a part

  /** `part.split('\n')`: the lines of a plain run, shown with a line break after all but the last. */
  function Lines(text: string): seq<string> {
    SplitOn(text, '\n')
  }

  /** A run of `n` line feeds shows as `n + 1` lines, none holding a line feed, that join back to the run. */
  lemma LinesShape(text: string)
    ensures |Lines(text)| == CountChar(text, '\n') + 1
    ensures forall i :: 0 <= i < |Lines(text)| ==> '\n' !in Lines(text)[i]
    ensures Join(Lines(text), "\n") == text
  {
    SplitOnLength(text, '\n');
    JoinSplitOn(text, '\n');
  }

  /** `part.alt || "pasted image"`. */
  function AltText(alt: string): (r: string)
    ensures r != []
    ensures alt != [] ==> r == alt
  {
    if alt == [] then "pasted image" else alt
  }
}

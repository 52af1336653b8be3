/**
 * The deterministic parts of the morning-brief job: how an email is turned into text for
 * the prompt, how the plain-text summary is turned into the HTML mail body, how the two
 * mail folders are bundled, and the order in which the handler gives up.
 */
module MorningBrief {
  import opened Wrappers
  import opened Text
  import Seqs
  import Portfolio

  predicate StartsWith(s: string, p: string) {
    |p| <= |s| && s[..|p|] == p
  }

  lemma NotStartsWith(s: string, p: string, i: nat)
    requires i < |p| && i < |s| && s[i] != p[i]
    ensures !StartsWith(s, p)
  {
    if |p| <= |s| {
      assert s[..|p|][i] == s[i];
    }
  }

  lemma StartsWithPrefix(p: string, rest: string)
    ensures StartsWith(p + rest, p) && (p + rest)[|p|..] == rest
  {
    assert (p + rest)[..|p|] == p;
  }

  // ---------------------------------------------------------------------------
  // Portfolio tickers

  /**
   * `getPortfolioTickers` after the database read: a missing or empty `tickers` field gives
   * no tickers, anything else goes through the portfolio page's parser.
   */
  function PortfolioTickers(field: Option<string>): (r: seq<string>)
    ensures field.None? ==> r == []
    ensures forall i :: 0 <= i < |r| ==> r[i] != [] && Portfolio.NoSeparator(r[i])
  {
    if field.None? || field.value == [] then []
    else
      Portfolio.ParsedTickersWellFormed(field.value);
      Portfolio.ParseTickers(field.value)
  }

  /** The job reads a stored ticker list exactly as the portfolio page does, the empty text included. */
  lemma BriefTickersAsPortfolio(raw: string)
    ensures PortfolioTickers(Some(raw)) == Portfolio.ParseTickers(raw)
  {
    if raw == [] {
      Portfolio.SeparatorsOnly(raw);
    }
  }

  // ---------------------------------------------------------------------------
  // Email text

  /** No two whitespace characters in a row. */
  predicate NoDoubleSpace(s: string) {
    forall i :: 1 <= i < |s| ==> !(IsSpace(s[i - 1]) && IsSpace(s[i]))
  }

  /** The only whitespace character left is the plain space. */
  predicate OnlyPlainSpaces(s: string) {
    forall i :: 0 <= i < |s| && IsSpace(s[i]) ==> s[i] == ' '
  }

  /** `s.replace(/\s+/g, " ")`: every maximal run of whitespace becomes one space. */
  function Collapse(s: string): (r: string)
    ensures (r == []) == (s == [])
    ensures r != [] ==> (IsSpace(r[0]) <==> IsSpace(s[0]))
    ensures NoDoubleSpace(r) && OnlyPlainSpaces(r)
    decreases |s|
  {
    if s == [] then []
    else if IsSpace(s[0]) then " " + Collapse(s[Span(s, IsSpace)..])
    else [s[0]] + Collapse(s[1..])
  }

  /** The characters of `s` that are not whitespace, in order. */
  function Visible(s: string): string {
    if s == [] then [] else (if IsSpace(s[0]) then [] else [s[0]]) + Visible(s[1..])
  }

  lemma {:induction false} VisibleAppend(a: string, b: string)
    ensures Visible(a + b) == Visible(a) + Visible(b)
    decreases |a|
  {
    if a == [] {
      assert a + b == b;
    } else {
      assert (a + b)[0] == a[0] && (a + b)[1..] == a[1..] + b;
      VisibleAppend(a[1..], b);
    }
  }

  lemma {:induction false} VisibleOfSpaces(a: string)
    requires AllSpace(a)
    ensures Visible(a) == []
    decreases |a|
  {
    if a != [] {
      VisibleOfSpaces(a[1..]);
    }
  }

  /** Collapsing whitespace changes no other character: the visible text is kept as it is. */
  lemma {:induction false} CollapseKeepsText(s: string)
    ensures Visible(Collapse(s)) == Visible(s)
    decreases |s|
  {
    if s != [] {
      if IsSpace(s[0]) {
        var n := Span(s, IsSpace);
        CollapseKeepsText(s[n..]);
        assert s == s[..n] + s[n..];
        VisibleAppend(s[..n], s[n..]);
        VisibleOfSpaces(s[..n]);
        VisibleAppend(" ", Collapse(s[n..]));
      } else {
        CollapseKeepsText(s[1..]);
        VisibleAppend([s[0]], Collapse(s[1..]));
      }
    }
  }

  /** `(msg.body?.content || "").replace(/\s+/g, " ").trim().slice(0, 1500)`. */
  function EmailBody(content: Option<string>): string {
    var t := Trim(Collapse(content.GetOr("")));
    if |t| <= 1500 then t else t[..1500]
  }

  lemma SliceKeepsSpacing(s: string, lo: nat, hi: nat)
    requires lo <= hi <= |s| && NoDoubleSpace(s) && OnlyPlainSpaces(s)
    ensures NoDoubleSpace(s[lo..hi]) && OnlyPlainSpaces(s[lo..hi])
  {
    forall i | 1 <= i < hi - lo ensures !(IsSpace(s[lo..hi][i - 1]) && IsSpace(s[lo..hi][i])) {
      assert s[lo..hi][i - 1] == s[lo + i - 1] && s[lo..hi][i] == s[lo + i];
    }
  }

  /** Trimming keeps the spacing of a collapsed text and leaves no leading whitespace. */
  lemma TrimKeepsSpacing(c: string)
    requires NoDoubleSpace(c) && OnlyPlainSpaces(c)
    ensures NoDoubleSpace(Trim(c)) && OnlyPlainSpaces(Trim(c))
  {
    var lo := TrimIsSlice(c);
    SliceKeepsSpacing(c, lo, lo + |Trim(c)|);
  }

  /** Only plain spaces means no line breaks. */
  lemma PlainSpacesNoNewline(b: string)
    requires OnlyPlainSpaces(b)
    ensures '\n' !in b
  {
    if '\n' in b {
      var i :| 0 <= i < |b| && b[i] == '\n';
      assert IsSpace(b[i]);
    }
  }

  /**
   * The body put into the prompt is at most 1500 characters, does not start with whitespace,
   * never has two whitespace characters in a row and holds no line break.
   */
  lemma EmailBodyShape(content: Option<string>)
    ensures |EmailBody(content)| <= 1500
    ensures EmailBody(content) == [] || !IsSpace(EmailBody(content)[0])
    ensures NoDoubleSpace(EmailBody(content)) && OnlyPlainSpaces(EmailBody(content))
    ensures '\n' !in EmailBody(content)
  {
    var t := Trim(Collapse(content.GetOr("")));
    TrimKeepsSpacing(Collapse(content.GetOr("")));
    var n := if |t| <= 1500 then |t| else 1500;
    assert EmailBody(content) == t[..n];
    CutKeepsShape(t, n);
  }

  lemma CutKeepsShape(t: string, n: nat)
    requires n <= |t| && (t == [] || !IsSpace(t[0])) && NoDoubleSpace(t) && OnlyPlainSpaces(t)
    ensures t[..n] == [] || !IsSpace(t[..n][0])
    ensures NoDoubleSpace(t[..n]) && OnlyPlainSpaces(t[..n]) && '\n' !in t[..n]
  {
    assert t[..n] == t[0..n];
    SliceKeepsSpacing(t, 0, n);
    PlainSpacesNoNewline(t[..n]);
  }

  /** Trimming removes only whitespace. */
  lemma TrimKeepsText(c: string)
    ensures Visible(Trim(c)) == Visible(c)
  {
    var t := Trim(c);
    var lo := TrimIsSlice(c);
    SliceThree(c, lo, lo + |t|);
    VisibleBetweenSpaces(c[..lo], t, c[lo + |t|..]);
  }

  lemma SliceThree(s: string, a: nat, b: nat)
    requires a <= b <= |s|
    ensures s == s[..a] + s[a..b] + s[b..]
  {
  }

  /** Whitespace around a text adds nothing visible. */
  lemma VisibleBetweenSpaces(left: string, t: string, right: string)
    requires AllSpace(left) && AllSpace(right)
    ensures Visible(left + t + right) == Visible(t)
  {
    VisibleAppend(left + t, right);
    VisibleAppend(left, t);
    VisibleOfSpaces(left);
    VisibleOfSpaces(right);
  }

  /** A body short enough to escape the cut keeps every visible character of the email. */
  lemma EmailBodyKeepsText(content: Option<string>)
    requires |Trim(Collapse(content.GetOr("")))| <= 1500
    ensures Visible(EmailBody(content)) == Visible(content.GetOr(""))
  {
    TrimKeepsText(Collapse(content.GetOr("")));
    CollapseKeepsText(content.GetOr(""));
  }

  /** `msg.from?.emailAddress?.name || msg.from?.emailAddress?.address || "Unknown"`. */
  function Sender(name: Option<string>, address: Option<string>): (r: string)
    ensures r != []
    ensures !Blank(name) ==> r == name.value
    ensures Blank(name) && !Blank(address) ==> r == address.value
    ensures Blank(name) && Blank(address) ==> r == "Unknown"
  {
    if !Blank(name) then name.value
    else if !Blank(address) then address.value
    else "Unknown"
  }

  /** A JavaScript value that `||` passes over: absent or the empty string. */
  predicate Blank(o: Option<string>) {
    o.None? || o.value == []
  }

  /** The fields of a Microsoft Graph message the job reads. */
  datatype GraphMessage = GraphMessage(
    subject: string,
    content: Option<string>,
    name: Option<string>,
    address: Option<string>,
    received: string)

  /** The text `getEmails` makes of one message. */
  function EmailText(m: GraphMessage): string {
    "From: " + Sender(m.name, m.address) + "\nSubject: " + m.subject + "\nReceived: " + m.received
      + "\n\n" + EmailBody(m.content)
  }

  // ---------------------------------------------------------------------------
  // HTML mail body

  /** `s.replace(/c/g, rep)` for a one-character pattern. */
  function ReplaceChar(s: string, c: char, rep: string): (r: string)
    ensures c !in rep ==> c !in r
  {
    if s == [] then [] else (if s[0] == c then rep else [s[0]]) + ReplaceChar(s[1..], c, rep)
  }

  lemma {:induction false} ReplaceCharAppend(a: string, b: string, c: char, rep: string)
    ensures ReplaceChar(a + b, c, rep) == ReplaceChar(a, c, rep) + ReplaceChar(b, c, rep)
    decreases |a|
  {
    if a == [] {
      assert a + b == b;
    } else {
      assert (a + b)[0] == a[0] && (a + b)[1..] == a[1..] + b;
      ReplaceCharAppend(a[1..], b, c, rep);
    }
  }

  lemma ReplaceOne(x: char, c: char, rep: string)
    ensures ReplaceChar([x], c, rep) == if x == c then rep else [x]
  {
    assert ReplaceChar([x][1..], c, rep) == [];
  }

  lemma {:induction false} ReplaceCharAbsent(s: string, c: char, rep: string)
    requires c !in s
    ensures ReplaceChar(s, c, rep) == s
    decreases |s|
  {
    if s != [] {
      ReplaceCharAbsent(s[1..], c, rep);
    }
  }

  /** The three escaping passes of `sendEmail`, `&` first. */
  function EscapePasses(s: string): string {
    ReplaceChar(ReplaceChar(ReplaceChar(s, '&', "&amp;"), '<', "&lt;"), '>', "&gt;")
  }

  /** The entity each character stands for in HTML text. */
  function EscapeChar(c: char): string {
    if c == '&' then "&amp;" else if c == '<' then "&lt;" else if c == '>' then "&gt;" else [c]
  }

  /** Escaping character by character. */
  function Escape(s: string): string {
    if s == [] then [] else EscapeChar(s[0]) + Escape(s[1..])
  }

  lemma EscapeOneChar(x: char)
    ensures EscapePasses([x]) == EscapeChar(x)
  {
    var a := ReplaceChar([x], '&', "&amp;");
    ReplaceOne(x, '&', "&amp;");
    if x == '<' {
      EscapeLt();
    } else if x == '>' {
      ReplaceCharAbsent(a, '<', "&lt;");
      ReplaceOne(x, '>', "&gt;");
    } else {
      ReplaceCharAbsent(a, '<', "&lt;");
      ReplaceCharAbsent(a, '>', "&gt;");
    }
  }

  /** What the `<` pass makes of `<` is left alone by the `>` pass. */
  lemma EscapeLt()
    ensures ReplaceChar(ReplaceChar(['<'], '<', "&lt;"), '>', "&gt;") == "&lt;"
  {
    ReplaceOne('<', '<', "&lt;");
    ReplaceCharAbsent("&lt;", '>', "&gt;");
  }

  /**
   * Because `&` is escaped first, the three passes escape each character exactly once:
   * `<` becomes `&lt;`, never `&amp;lt;`.
   */
  lemma {:induction false} EscapeInOrder(s: string)
    ensures EscapePasses(s) == Escape(s)
    decreases |s|
  {
    if s != [] {
      var x, rest := s[0], s[1..];
      assert s == [x] + rest;
      EscapeInOrder(rest);
      ReplaceCharAppend([x], rest, '&', "&amp;");
      var a1, a2 := ReplaceChar([x], '&', "&amp;"), ReplaceChar(rest, '&', "&amp;");
      ReplaceCharAppend(a1, a2, '<', "&lt;");
      var b1, b2 := ReplaceChar(a1, '<', "&lt;"), ReplaceChar(a2, '<', "&lt;");
      ReplaceCharAppend(b1, b2, '>', "&gt;");
      EscapeOneChar(x);
    }
  }

  /** Escaping `<` before `&` would escape the ampersand of `&lt;` a second time. */
  lemma EscapeOrderMatters()
    ensures ReplaceChar(ReplaceChar("<", '<', "&lt;"), '&', "&amp;") == "&amp;lt;"
    ensures EscapePasses("<") == "&lt;"
  {
    assert "<" == ['<'];
    EscapeOneChar('<');
    ReplaceOne('<', '<', "&lt;");
    AmpOfLt();
  }

  lemma AmpOfLt()
    ensures ReplaceChar("&lt;", '&', "&amp;") == "&amp;lt;"
  {
    assert "&lt;" == ['&'] + "lt;";
    ReplaceCharAppend(['&'], "lt;", '&', "&amp;");
    ReplaceOne('&', '&', "&amp;");
    ReplaceCharAbsent("lt;", '&', "&amp;");
    assert "&amp;" + "lt;" == "&amp;lt;";
  }

  /** `t.replace(/\n\n/g, "</p><p>")`: blank-line pairs, matched left to right without overlap. */
  function ReplaceBlankLines(t: string): string {
    if |t| >= 2 && t[0] == '\n' && t[1] == '\n' then "</p><p>" + ReplaceBlankLines(t[2..])
    else if t == [] then []
    else [t[0]] + ReplaceBlankLines(t[1..])
  }

  /** The two newline passes of `sendEmail`. */
  function NewlinePasses(t: string): string {
    ReplaceChar(ReplaceBlankLines(t), '\n', "<br>")
  }

  /** The newline conversion in one left-to-right pass. */
  function LineBreaks(t: string): (r: string)
    ensures '\n' !in r
  {
    if |t| >= 2 && t[0] == '\n' && t[1] == '\n' then "</p><p>" + LineBreaks(t[2..])
    else if t == [] then []
    else if t[0] == '\n' then "<br>" + LineBreaks(t[1..])
    else [t[0]] + LineBreaks(t[1..])
  }

  /**
   * The two passes together turn each pair of newlines into a paragraph break and each
   * remaining newline into a line break, left to right.
   */
  lemma {:induction false} NewlinesInOrder(t: string)
    ensures NewlinePasses(t) == LineBreaks(t)
    decreases |t|
  {
    if |t| >= 2 && t[0] == '\n' && t[1] == '\n' {
      NewlinesInOrder(t[2..]);
      ReplaceCharAppend("</p><p>", ReplaceBlankLines(t[2..]), '\n', "<br>");
      ReplaceCharAbsent("</p><p>", '\n', "<br>");
    } else if t != [] {
      NewlinesInOrder(t[1..]);
      ReplaceCharAppend([t[0]], ReplaceBlankLines(t[1..]), '\n', "<br>");
      assert ReplaceChar([t[0]], '\n', "<br>") == (if t[0] == '\n' then "<br>" else [t[0]]) by {
        assert ReplaceChar([t[0]][1..], '\n', "<br>") == [];
      }
    }
  }

  /** The HTML content of the mail sent for a summary. */
  function ToHtml(summary: string): string {
    "<p>" + NewlinePasses(EscapePasses(summary)) + "</p>"
  }

  /** No newline survives the conversion. */
  lemma HtmlHasNoNewline(summary: string)
    ensures '\n' !in ToHtml(summary)
  {
    var inner := NewlinePasses(EscapePasses(summary));
    assert '\n' !in inner;
  }

  /** Reading the HTML back: tags become newlines again and entities become characters. */
  function Decode(h: string): string
    decreases |h|
  {
    if h == [] then []
    else if StartsWith(h, "</p><p>") then "\n\n" + Decode(h[7..])
    else if StartsWith(h, "<br>") then "\n" + Decode(h[4..])
    else if StartsWith(h, "&amp;") then "&" + Decode(h[5..])
    else if StartsWith(h, "&lt;") then "<" + Decode(h[4..])
    else if StartsWith(h, "&gt;") then ">" + Decode(h[4..])
    else [h[0]] + Decode(h[1..])
  }

  /** What the recipient's mail reader shows: the paragraph wrapper removed and the rest decoded. */
  function FromHtml(h: string): Option<string> {
    if |h| >= 7 && h[..3] == "<p>" && h[|h| - 4..] == "</p>" then Some(Decode(h[3..|h| - 4])) else None
  }

  lemma DecodeTag(tag: string, text: string, rest: string)
    requires || (tag == "</p><p>" && text == "\n\n") || (tag == "<br>" && text == "\n")
             || (tag == "&amp;" && text == "&") || (tag == "&lt;" && text == "<") || (tag == "&gt;" && text == ">")
    ensures Decode(tag + rest) == text + Decode(rest)
  {
    var h := tag + rest;
    StartsWithPrefix(tag, rest);
    if tag == "<br>" {
      NotStartsWith(h, "</p><p>", 1);
    } else if tag == "&amp;" {
      NotStartsWith(h, "</p><p>", 0);
      NotStartsWith(h, "<br>", 0);
    } else if tag == "&lt;" {
      NotStartsWith(h, "</p><p>", 0);
      NotStartsWith(h, "<br>", 0);
      NotStartsWith(h, "&amp;", 1);
    } else if tag == "&gt;" {
      NotStartsWith(h, "</p><p>", 0);
      NotStartsWith(h, "<br>", 0);
      NotStartsWith(h, "&amp;", 1);
      NotStartsWith(h, "&lt;", 1);
    }
  }

  lemma DecodePlain(c: char, rest: string)
    requires c != '<' && c != '&'
    ensures Decode([c] + rest) == [c] + Decode(rest)
  {
    var h := [c] + rest;
    assert h[1..] == rest;
    NotStartsWith(h, "</p><p>", 0);
    NotStartsWith(h, "<br>", 0);
    NotStartsWith(h, "&amp;", 0);
    NotStartsWith(h, "&lt;", 0);
    NotStartsWith(h, "&gt;", 0);
  }

  lemma {:induction false} LineBreaksPlain(x: string, rest: string)
    requires '\n' !in x
    ensures LineBreaks(x + rest) == x + LineBreaks(rest)
    decreases |x|
  {
    if x == [] {
      assert x + rest == rest;
    } else {
      assert (x + rest)[0] == x[0] && (x + rest)[1..] == x[1..] + rest;
      LineBreaksPlain(x[1..], rest);
    }
  }

  lemma EscapeStartsWith(s: string)
    requires s != [] && s[0] != '\n'
    ensures Escape(s) != [] && Escape(s)[0] != '\n'
  {
  }

  /** Decoding undoes escaping and newline conversion: the recipient reads the summary as written. */
  lemma {:induction false} DecodeInverts(s: string)
    ensures Decode(LineBreaks(Escape(s))) == s
    decreases |s|
  {
    if |s| >= 2 && s[0] == '\n' && s[1] == '\n' {
      var rest := s[2..];
      assert Escape(s) == "\n\n" + Escape(rest) by {
        assert s[1..][1..] == rest;
      }
      DecodeInverts(rest);
      DecodeTag("</p><p>", "\n\n", LineBreaks(Escape(rest)));
      assert s == "\n\n" + rest;
    } else if s != [] {
      var rest := s[1..];
      DecodeInverts(rest);
      assert s == [s[0]] + rest;
      if s[0] == '\n' {
        if rest != [] {
          EscapeStartsWith(rest);
        }
        DecodeTag("<br>", "\n", LineBreaks(Escape(rest)));
      } else {
        var e := EscapeChar(s[0]);
        LineBreaksPlain(e, Escape(rest));
        var tail := LineBreaks(Escape(rest));
        if s[0] == '&' {
          DecodeTag("&amp;", "&", tail);
        } else if s[0] == '<' {
          DecodeTag("&lt;", "<", tail);
        } else if s[0] == '>' {
          DecodeTag("&gt;", ">", tail);
        } else {
          DecodePlain(s[0], tail);
        }
      }
    }
  }

  /** The mail body, read back, is exactly the summary that was sent. */
  lemma HtmlRoundTrip(summary: string)
    ensures FromHtml(ToHtml(summary)) == Some(summary)
  {
    var inner := NewlinePasses(EscapePasses(summary));
    var h := ToHtml(summary);
    assert h[..3] == "<p>" && h[|h| - 4..] == "</p>" && h[3..|h| - 4] == inner;
    EscapeInOrder(summary);
    NewlinesInOrder(Escape(summary));
    DecodeInverts(summary);
  }

  // ---------------------------------------------------------------------------
  // Bundling the two folders

  const InboxTag: string := "[INBOX]\n"
  const StreetTag: string := "[STREETACCOUNT]\n"

  function TagAll(tag: string, emails: seq<string>): (r: seq<string>)
    ensures |r| == |emails|
    ensures forall i :: 0 <= i < |r| ==> r[i] == tag + emails[i]
  {
    if emails == [] then [] else [tag + emails[0]] + TagAll(tag, emails[1..])
  }

  /** `[...inbox.map(tag), ...street.map(tag)]`. */
  function Bundle(inbox: seq<string>, street: seq<string>): seq<string> {
    TagAll(InboxTag, inbox) + TagAll(StreetTag, street)
  }

  /** Sorting the bundle back into its two folders by the tag each email carries. */
  function Unbundle(all: seq<string>): (seq<string>, seq<string>) {
    if all == [] then ([], [])
    else
      var rest := Unbundle(all[1..]);
      if StartsWith(all[0], InboxTag) then ([all[0][|InboxTag|..]] + rest.0, rest.1)
      else if StartsWith(all[0], StreetTag) then (rest.0, [all[0][|StreetTag|..]] + rest.1)
      else rest
  }

  lemma UnbundleInboxStep(e: string, rest: seq<string>)
    ensures Unbundle([InboxTag + e] + rest) == ([e] + Unbundle(rest).0, Unbundle(rest).1)
  {
    var all := [InboxTag + e] + rest;
    assert all[0] == InboxTag + e && all[1..] == rest;
    StartsWithPrefix(InboxTag, e);
  }

  lemma UnbundleStreetStep(e: string, rest: seq<string>)
    ensures Unbundle([StreetTag + e] + rest) == (Unbundle(rest).0, [e] + Unbundle(rest).1)
  {
    var all := [StreetTag + e] + rest;
    assert all[0] == StreetTag + e && all[1..] == rest;
    NotStartsWith(StreetTag + e, InboxTag, 1);
    StartsWithPrefix(StreetTag, e);
  }

  lemma {:induction false} UnbundleStreet(street: seq<string>)
    ensures Unbundle(TagAll(StreetTag, street)) == ([], street)
    decreases |street|
  {
    if street != [] {
      UnbundleStreet(street[1..]);
      UnbundleStreetStep(street[0], TagAll(StreetTag, street[1..]));
      assert street == [street[0]] + street[1..];
    }
  }

  /**
   * The bundle keeps every email of both folders, in order, inbox first, and the tags tell
   * them apart: sorting by tag gives the two folders back.
   */
  lemma {:induction false} BundleTagsFolders(inbox: seq<string>, street: seq<string>)
    ensures |Bundle(inbox, street)| == |inbox| + |street|
    ensures Unbundle(Bundle(inbox, street)) == (inbox, street)
    decreases |inbox|
  {
    if inbox == [] {
      assert Bundle(inbox, street) == TagAll(StreetTag, street);
      UnbundleStreet(street);
    } else {
      assert Bundle(inbox, street) == [InboxTag + inbox[0]] + Bundle(inbox[1..], street);
      BundleTagsFolders(inbox[1..], street);
      UnbundleInboxStep(inbox[0], Bundle(inbox[1..], street));
      assert inbox == [inbox[0]] + inbox[1..];
    }
  }

  // ---------------------------------------------------------------------------
  // The handler

  datatype Response =
    | Unauthorized
    | Failed      // the 500 of the `catch`: a Graph call, the model request or the mail threw
    | NoTickers
    | NoEmails
    | Briefed(emailsProcessed: nat, tickers: seq<string>, portfolio: string, emails: string)

  /** The header the job expects; an unset secret is written into it as `undefined`. */
  function ExpectedAuth(secret: Option<string>): string {
    "Bearer " + secret.GetOr("undefined")
  }

  /**
   * `GET` with its I/O results as parameters: the authorization header, the cron secret, the
   * messages of the two folders (`None` when the Graph token, the folder lookup or the message
   * request threw), the stored ticker list, and whether the request to the model and the mail
   * that follows went through without throwing. The three reads run together under
   * `Promise.all`, so a Graph failure is a 500 before the ticker list is looked at.
   */
  function Handle(auth: Option<string>, secret: Option<string>, inbox: Option<seq<GraphMessage>>,
                  street: Option<seq<GraphMessage>>, field: Option<string>, delivered: bool): Response
  {
    if auth != Some(ExpectedAuth(secret)) then Unauthorized
    else if inbox.None? || street.None? then Failed
    else
      var tickers := PortfolioTickers(field);
      if |tickers| == 0 then NoTickers
      else
        var all := Bundle(Seqs.Map(EmailText, inbox.value), Seqs.Map(EmailText, street.value));
        if |all| == 0 then NoEmails
        else if !delivered then Failed
        else Briefed(|all|, tickers, Join(tickers, ", "), Join(all, "\n\n---\n\n"))
  }

  /**
   * The handler checks authorization first, then that both folders could be read, then the
   * ticker list, then the mail: a brief is written exactly when all are in place and the
   * model and mail calls go through, and it reports every message of both folders.
   */
  lemma HandleOrder(auth: Option<string>, secret: Option<string>, inbox: Option<seq<GraphMessage>>,
                    street: Option<seq<GraphMessage>>, field: Option<string>, delivered: bool)
    ensures var r := Handle(auth, secret, inbox, street, field, delivered);
      var ok := auth == Some(ExpectedAuth(secret));
      var read := inbox.Some? && street.Some?;
      && (r == Unauthorized <==> !ok)
      && (r == Failed <==> ok && (!read || (PortfolioTickers(field) != []
                                            && (inbox.value != [] || street.value != []) && !delivered)))
      && (r == NoTickers <==> ok && read && PortfolioTickers(field) == [])
      && (r == NoEmails <==> ok && read && PortfolioTickers(field) != [] && inbox.value == [] && street.value == [])
      && (r.Briefed? <==> ok && read && PortfolioTickers(field) != [] && (inbox.value != [] || street.value != []) && delivered)
      && (r.Briefed? ==> r.emailsProcessed == |inbox.value| + |street.value| && r.tickers == PortfolioTickers(field))
  {
    var r := Handle(auth, secret, inbox, street, field, delivered);
    if auth != Some(ExpectedAuth(secret)) {
      assert r == Unauthorized;
    } else if inbox.None? || street.None? {
      assert r == Failed;
    } else if PortfolioTickers(field) == [] {
      assert r == NoTickers;
    } else {
      BundleSize(inbox.value, street.value);
      if inbox.value == [] && street.value == [] {
        assert r == NoEmails;
      } else if !delivered {
        assert r == Failed;
      } else {
        assert r.Briefed? && r.emailsProcessed == |inbox.value| + |street.value|;
      }
    }
  }

  lemma BundleSize(inbox: seq<GraphMessage>, street: seq<GraphMessage>)
    ensures |Bundle(Seqs.Map(EmailText, inbox), Seqs.Map(EmailText, street))| == |inbox| + |street|
  {
    BundleTagsFolders(Seqs.Map(EmailText, inbox), Seqs.Map(EmailText, street));
  }

  /** With the secret unset, the literal header `Bearer undefined` is let through. */
  lemma UnsetSecretAdmitsUndefined(inbox: Option<seq<GraphMessage>>, street: Option<seq<GraphMessage>>,
                                   field: Option<string>, delivered: bool)
    ensures Handle(Some("Bearer undefined"), None, inbox, street, field, delivered) != Unauthorized
  {
    assert ExpectedAuth(None) == "Bearer undefined";
  }

  /** The check the handler evidently means: a configured secret, and the header that names it. */
  predicate Authorized(auth: Option<string>, secret: Option<string>) {
    secret.Some? && auth == Some("Bearer " + secret.value)
  }

  /** `GET` with the authorization check refusing every request while the secret is unset. */
  function HandleSecured(auth: Option<string>, secret: Option<string>, inbox: Option<seq<GraphMessage>>,
                         street: Option<seq<GraphMessage>>, field: Option<string>, delivered: bool): (r: Response)
    ensures secret.None? ==> r == Unauthorized
    ensures r == Unauthorized <==> !Authorized(auth, secret)
    ensures r != Unauthorized ==> r == Handle(auth, secret, inbox, street, field, delivered)
  {
    if !Authorized(auth, secret) then Unauthorized else Handle(auth, secret, inbox, street, field, delivered)
  }

  /** Once the secret is set, the corrected handler answers exactly as the handler as written. */
  lemma SecuredAgreesWhenConfigured(auth: Option<string>, secret: Option<string>, inbox: Option<seq<GraphMessage>>,
                                    street: Option<seq<GraphMessage>>, field: Option<string>, delivered: bool)
    requires secret.Some?
    ensures HandleSecured(auth, secret, inbox, street, field, delivered) == Handle(auth, secret, inbox, street, field, delivered)
  {
    HandleOrder(auth, secret, inbox, street, field, delivered);
  }
}

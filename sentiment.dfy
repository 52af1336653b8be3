/**
 * The sentiment route: for one ticker it takes the Stocktwits message stream, labels every
 * message from the platform's own Bullish/Bearish tag, counts the labels and picks an
 * overall label by a strict-majority rule whose ties go to neutral.
 *
 * The HTTP fetch is a parameter (`fetch`, from URL to what the request produced), so the
 * route itself is a pure function of the query parameter and the upstream answer.
 */
module Sentiment {
  import opened Wrappers
  import Text
  import Decimal
  import Seqs

  datatype Label = Bullish | Neutral | Bearish

  /** Stocktwits' sentiment object: `basic` is "Bullish" or "Bearish" by contract, but any string may arrive. */
  datatype StocktwitsSentiment = StocktwitsSentiment(basic: string)

  /** `entities`, whose `sentiment` may be absent or null (both `None`). */
  datatype Entities = Entities(sentiment: Option<StocktwitsSentiment>)

  datatype StocktwitsMessage = StocktwitsMessage(id: int, body: string, username: string, entities: Option<Entities>)

  datatype UpstreamError = UpstreamError(message: string)

  /** The decoded upstream JSON: `messages`, `errors` and `response.status`, each possibly absent. */
  datatype StocktwitsResponse = StocktwitsResponse(
    messages: Option<seq<StocktwitsMessage>>,
    errors: Option<seq<UpstreamError>>,
    status: Option<int>)

  /** What the fetch-and-decode step produced: it threw, or it yielded a payload. */
  datatype FetchResult = Threw | Payload(data: StocktwitsResponse)

  datatype TweetResult = TweetResult(id: string, text: string, username: string, sentiment: Label)

  datatype SentimentResponse = SentimentResponse(
    ticker: string,
    tweetCount: nat,
    bullish: nat,
    neutral: nat,
    bearish: nat,
    overall: Label,  // the JSON field `label`
    messages: seq<TweetResult>)

  /** The HTTP reply: the JSON body of a 200, or an error status with its `error` text. */
  datatype Reply = Ok(body: SentimentResponse) | Failure(status: nat, error: string)

  /** `toLabel`: only the exact tags "Bullish" and "Bearish" are polar; anything else, or nothing, is neutral. */
  function ToLabel(s: Option<string>): (l: Label)
    ensures l == Bullish <==> s == Some("Bullish")
    ensures l == Bearish <==> s == Some("Bearish")
  {
    if s == Some("Bullish") then Bullish
    else if s == Some("Bearish") then Bearish
    else Neutral
  }

  /** `m.entities?.sentiment?.basic`. */
  function Tag(m: StocktwitsMessage): Option<string> {
    match m.entities
    case None => None
    case Some(e) =>
      match e.sentiment
      case None => None
      case Some(s) => Some(s.basic)
  }

  /** One upstream message as the route reports it: `id` is `String(m.id)`, `text` the body, `username` copied. */
  function ToTweet(m: StocktwitsMessage): TweetResult {
    TweetResult(Decimal.IntToDecimal(m.id), m.body, m.username, ToLabel(Tag(m)))
  }

  /** The reported `id` is the decimal numeral of the upstream id: `Number` reads it back exactly. */
  lemma TweetIdReadsBack(m: StocktwitsMessage)
    ensures Decimal.ToNumber(ToTweet(m).id) == Some(m.id)
    ensures Decimal.Canonical(if m.id < 0 then ToTweet(m).id[1..] else ToTweet(m).id)
  {
    Decimal.NumberOfDecimal(m.id);
    Decimal.IntToDecimalCanonical(m.id);
  }

  /** `data.messages.map(...)`: one result per message, in the same order. */
  function ToTweets(ms: seq<StocktwitsMessage>): (ts: seq<TweetResult>)
    ensures |ts| == |ms|
    ensures forall i :: 0 <= i < |ms| ==> ts[i] == ToTweet(ms[i])
  {
    Seqs.Map(ToTweet, ms)
  }

  /** `messages.filter((m) => m.sentiment === l)`: the results of label `l`, and only those. */
  function WithLabel(ts: seq<TweetResult>, l: Label): (r: seq<TweetResult>)
    ensures |r| <= |ts|
    ensures forall t :: t in r <==> t in ts && t.sentiment == l
  {
    Seqs.FilterMembers((t: TweetResult) => t.sentiment == l, ts);
    Seqs.Filter((t: TweetResult) => t.sentiment == l, ts)
  }

  /** The filter keeps the order of the results: it distributes over concatenation. */
  lemma WithLabelAppend(a: seq<TweetResult>, b: seq<TweetResult>, l: Label)
    ensures WithLabel(a + b, l) == WithLabel(a, l) + WithLabel(b, l)
  {
    Seqs.FilterAppend((t: TweetResult) => t.sentiment == l, a, b);
  }

  function Count(ts: seq<TweetResult>, l: Label): nat {
    |WithLabel(ts, l)|
  }

  /** Counting one result at a time: the first result adds one exactly when it has the label. */
  lemma CountCons(ts: seq<TweetResult>, l: Label)
    requires ts != []
    ensures Count(ts, l) == (if ts[0].sentiment == l then 1 else 0) + Count(ts[1..], l)
  {
    assert ts == [ts[0]] + ts[1..];
    WithLabelAppend([ts[0]], ts[1..], l);
  }

  /** The count attached to one label. */
  function Tally(bullish: nat, neutral: nat, bearish: nat, l: Label): nat {
    match l
    case Bullish => bullish
    case Neutral => neutral
    case Bearish => bearish
  }

  /** The overall label chosen from the three counts (see `MajorityIsStrictWinner`). */
  function MajorityLabel(bullish: nat, neutral: nat, bearish: nat): Label {
    if bullish > bearish && bullish > neutral then Bullish
    else if bearish > bullish && bearish > neutral then Bearish
    else Neutral
  }

  /**
   * The overall label is bullish or bearish exactly when that label's count is strictly above
   * both other counts; every tie for the top count, and a neutral majority, give neutral.
   */
  lemma MajorityIsStrictWinner(bullish: nat, neutral: nat, bearish: nat)
    ensures forall l :: l != Neutral ==>
      (MajorityLabel(bullish, neutral, bearish) == l <==>
       forall o :: o != l ==> Tally(bullish, neutral, bearish, l) > Tally(bullish, neutral, bearish, o))
    ensures forall l, o ::
      (&& l != o
       && Tally(bullish, neutral, bearish, l) == Tally(bullish, neutral, bearish, o)
       && (forall x :: Tally(bullish, neutral, bearish, x) <= Tally(bullish, neutral, bearish, l)))
      ==> MajorityLabel(bullish, neutral, bearish) == Neutral
    ensures neutral >= bullish && neutral >= bearish ==> MajorityLabel(bullish, neutral, bearish) == Neutral
  {
    var t := (l: Label) => Tally(bullish, neutral, bearish, l);
    assert t(Bullish) == bullish && t(Neutral) == neutral && t(Bearish) == bearish;
    forall l | l != Neutral
      ensures MajorityLabel(bullish, neutral, bearish) == l <==>
        forall o :: o != l ==> Tally(bullish, neutral, bearish, l) > Tally(bullish, neutral, bearish, o)
    {
      var others := if l == Bullish then [Neutral, Bearish] else [Neutral, Bullish];
      assert forall o :: o != l ==> o in others;
    }
    forall l, o | l != o && Tally(bullish, neutral, bearish, l) == Tally(bullish, neutral, bearish, o)
      && (forall x :: Tally(bullish, neutral, bearish, x) <= Tally(bullish, neutral, bearish, l))
      ensures MajorityLabel(bullish, neutral, bearish) == Neutral
    {
      assert Tally(bullish, neutral, bearish, Bullish) <= Tally(bullish, neutral, bearish, l);
      assert Tally(bullish, neutral, bearish, Bearish) <= Tally(bullish, neutral, bearish, l);
      assert Tally(bullish, neutral, bearish, Neutral) <= Tally(bullish, neutral, bearish, l);
    }
  }

  /** Every message carries exactly one of the three labels, so the counts add up to the number of messages. */
  lemma {:induction false} CountsPartition(ts: seq<TweetResult>)
    ensures Count(ts, Bullish) + Count(ts, Neutral) + Count(ts, Bearish) == |ts|
  {
    if ts != [] {
      CountsPartition(ts[1..]);
    }
  }

  /** The response record built from the cleaned ticker and a message stream. */
  function Summarize(clean: string, ms: seq<StocktwitsMessage>): (r: SentimentResponse)
    ensures r.ticker == clean
    ensures r.tweetCount == |ms| == |r.messages|
    ensures forall i :: 0 <= i < |ms| ==> r.messages[i] == ToTweet(ms[i])
    ensures r.bullish == Count(r.messages, Bullish)
    ensures r.neutral == Count(r.messages, Neutral)
    ensures r.bearish == Count(r.messages, Bearish)
    ensures r.bullish + r.neutral + r.bearish == r.tweetCount
    ensures r.overall == MajorityLabel(r.bullish, r.neutral, r.bearish)
    ensures ms == [] ==> r.bullish == r.neutral == r.bearish == 0 && r.overall == Neutral
  {
    var ts := ToTweets(ms);
    CountsPartition(ts);
    var bullish := Count(ts, Bullish);
    var bearish := Count(ts, Bearish);
    var neutral := Count(ts, Neutral);
    SentimentResponse(clean, |ts|, bullish, neutral, bearish, MajorityLabel(bullish, neutral, bearish), ts)
  }

  /** `ticker.replace(/^\$/, "").toUpperCase()`: one leading `$` dropped, ASCII letters upper-cased, nothing trimmed. */
  function CleanTicker(ticker: string): (clean: string)
    ensures var k := if ticker != [] && ticker[0] == '$' then 1 else 0;
      |clean| == |ticker| - k && forall i :: 0 <= i < |clean| ==> clean[i] == Text.UpperChar(ticker[i + k])
  {
    var k := if ticker != [] && ticker[0] == '$' then 1 else 0;
    assert Text.StripDollar(ticker) == ticker[k..];
    Text.ToUpper(Text.StripDollar(ticker))
  }

  function StreamUrl(clean: string): string {
    "https://api.stocktwits.com/api/2/streams/symbol/" + clean + ".json"
  }

  /** What the route's fetch produced for a (non-empty) ticker: the stream of its cleaned form. */
  function Upstream(ticker: string, fetch: string -> FetchResult): FetchResult {
    fetch(StreamUrl(CleanTicker(ticker)))
  }

  /**
   * `GET /api/sentiment?ticker=...`. A missing or empty ticker is refused before the fetch
   * is consulted; a fetch or decode that throws is a 500; a 404 status or a missing
   * `messages` list means "no data" even when `errors` is present; `errors` is reported,
   * as a 400 with its first message, only when `messages` exists.
   */
  function Get(ticker: Option<string>, fetch: string -> FetchResult): (r: Reply)
    ensures ticker.None? || ticker == Some("") ==> r == Failure(400, "ticker is required")
    ensures ticker.Some? && ticker.value != "" && Upstream(ticker.value, fetch).Threw? ==>
      r == Failure(500, "Failed to fetch data")
    ensures ticker.Some? && ticker.value != "" && Upstream(ticker.value, fetch).Payload? ==>
      var d := Upstream(ticker.value, fetch).data;
      && (d.status == Some(404) || d.messages.None? ==>
            r == Failure(404, "No Stocktwits data found for $" + CleanTicker(ticker.value)))
      && (d.status != Some(404) && d.messages.Some? && d.errors.Some? && d.errors.value != [] ==>
            r == Failure(400, d.errors.value[0].message))
      && (d.status != Some(404) && d.messages.Some? && (d.errors.None? || d.errors.value == []) ==>
            r == Ok(Summarize(CleanTicker(ticker.value), d.messages.value)))
  {
    if ticker.None? || ticker.value == "" then Failure(400, "ticker is required")
    else
      var clean := CleanTicker(ticker.value);
      match fetch(StreamUrl(clean))
      case Threw => Failure(500, "Failed to fetch data")
      case Payload(d) =>
        if d.status == Some(404) || d.messages.None? then Failure(404, "No Stocktwits data found for $" + clean)
        else if d.errors.Some? && |d.errors.value| > 0 then Failure(400, d.errors.value[0].message)
        else Ok(Summarize(clean, d.messages.value))
  }

  /** The labels of a result list, in order. */
  function Labels(ts: seq<TweetResult>): (ls: seq<Label>)
    ensures |ls| == |ts|
    ensures forall i :: 0 <= i < |ts| ==> ls[i] == ts[i].sentiment
  {
    Seqs.Map((t: TweetResult) => t.sentiment, ts)
  }

  /** A label's count is its multiplicity among the labels: counting does not depend on where a label occurs. */
  lemma {:induction false} CountIsMultiplicity(ts: seq<TweetResult>, l: Label)
    ensures Count(ts, l) == multiset(Labels(ts))[l]
  {
    if ts != [] {
      CountIsMultiplicity(ts[1..], l);
      CountCons(ts, l);
      assert Labels(ts) == [ts[0].sentiment] + Labels(ts[1..]);
    }
  }

  function MessageLabel(m: StocktwitsMessage): Label {
    ToLabel(Tag(m))
  }

  /**
   * The counts and the overall label depend only on which messages arrived, not on their
   * order: any permutation of the stream gives the same tallies and label.
   */
  lemma SummaryOrderIndependent(clean: string, ms: seq<StocktwitsMessage>, ns: seq<StocktwitsMessage>)
    requires multiset(ms) == multiset(ns)
    ensures var a, b := Summarize(clean, ms), Summarize(clean, ns);
      a.bullish == b.bullish && a.neutral == b.neutral && a.bearish == b.bearish
      && a.tweetCount == b.tweetCount && a.overall == b.overall
  {
    Seqs.MapPermutation(MessageLabel, ms, ns);
    assert Labels(ToTweets(ms)) == Seqs.Map(MessageLabel, ms);
    assert Labels(ToTweets(ns)) == Seqs.Map(MessageLabel, ns);
    assert |ms| == |multiset(ms)| == |ns|;
    forall l ensures Count(ToTweets(ms), l) == Count(ToTweets(ns), l) {
      CountIsMultiplicity(ToTweets(ms), l);
      CountIsMultiplicity(ToTweets(ns), l);
    }
  }

  function Mirror(l: Label): Label {
    match l
    case Bullish => Bearish
    case Neutral => Neutral
    case Bearish => Bullish
  }

  /** The same message with its "Bullish" and "Bearish" tags exchanged. */
  function MirrorMessage(m: StocktwitsMessage): StocktwitsMessage {
    var t := Tag(m);
    if t == Some("Bullish") then m.(entities := Some(Entities(Some(StocktwitsSentiment("Bearish")))))
    else if t == Some("Bearish") then m.(entities := Some(Entities(Some(StocktwitsSentiment("Bullish")))))
    else m
  }

  function MirrorStream(ms: seq<StocktwitsMessage>): (r: seq<StocktwitsMessage>)
    ensures |r| == |ms| && forall i :: 0 <= i < |ms| ==> r[i] == MirrorMessage(ms[i])
  {
    seq(|ms|, i requires 0 <= i < |ms| => MirrorMessage(ms[i]))
  }

  lemma {:induction false} CountMirrored(ms: seq<StocktwitsMessage>, l: Label)
    ensures Count(ToTweets(MirrorStream(ms)), l) == Count(ToTweets(ms), Mirror(l))
  {
    if ms != [] {
      CountMirrored(ms[1..], l);
      assert ToTweets(MirrorStream(ms))[1..] == ToTweets(MirrorStream(ms[1..]));
      assert ToTweets(ms)[1..] == ToTweets(ms[1..]);
      CountCons(ToTweets(MirrorStream(ms)), l);
      CountCons(ToTweets(ms), Mirror(l));
    }
  }

  /**
   * Bullish and bearish are treated alike: exchanging every "Bullish" tag with "Bearish"
   * exchanges the two counts and mirrors the overall label.
   */
  lemma SummaryMirrored(clean: string, ms: seq<StocktwitsMessage>)
    ensures var a, b := Summarize(clean, ms), Summarize(clean, MirrorStream(ms));
      b.bullish == a.bearish && b.bearish == a.bullish && b.neutral == a.neutral
      && b.overall == Mirror(a.overall)
  {
    CountMirrored(ms, Bullish);
    CountMirrored(ms, Bearish);
    CountMirrored(ms, Neutral);
  }

  /**
   * The cleaning strips only one `$`, so it is not idempotent: `$$aapl` cleans to `$AAPL`,
   * which cleans again to `AAPL`.
   */
  lemma CleanTickerNotIdempotent()
    ensures CleanTicker("$$aapl") == "$AAPL"
    ensures CleanTicker(CleanTicker("$$aapl")) == "AAPL"
  {
    assert CleanTicker("$$aapl") == "$AAPL" by {
      assert Text.StripDollar("$$aapl") == "$aapl";
    }
    assert Text.StripDollar("$AAPL") == "AAPL";
  }

  /** Cleaning a cleaned ticker changes nothing unless the cleaned ticker still starts with `$`. */
  lemma CleanTickerIdempotent(ticker: string)
    requires var c := CleanTicker(ticker); c == [] || c[0] != '$'
    ensures CleanTicker(CleanTicker(ticker)) == CleanTicker(ticker)
  {
  }

  /** "$aapl" and "AAPL" name the same stream. */
  lemma CleanTickerExamples()
    ensures CleanTicker("$aapl") == CleanTicker("AAPL") == "AAPL"
    ensures CleanTicker(" aapl") == " AAPL"
  {
    assert Text.StripDollar("$aapl") == "aapl";
  }

  lemma CountAppend(a: seq<TweetResult>, b: seq<TweetResult>, l: Label)
    ensures Count(a + b, l) == Count(a, l) + Count(b, l)
  {
    WithLabelAppend(a, b, l);
  }

  lemma {:induction false} CountRepeated(t: TweetResult, k: nat, l: Label)
    ensures Count(seq(k, _ => t), l) == if t.sentiment == l then k else 0
  {
    if k > 0 {
      CountRepeated(t, k - 1, l);
      assert seq(k, _ => t)[1..] == seq(k - 1, _ => t);
      CountCons(seq(k, _ => t), l);
    }
  }

  /**
   * Ten messages, six tagged Bullish, one Bearish and three untagged, count 6/3/1 and are
   * bullish overall (6 > 1 and 6 > 3).
   */
  lemma SixBullishOneBearishThreeUntagged(b: StocktwitsMessage, r: StocktwitsMessage, u: StocktwitsMessage)
    requires Tag(b) == Some("Bullish") && Tag(r) == Some("Bearish") && Tag(u) == None
    ensures var s := Summarize("AAPL", seq(6, _ => b) + [r] + seq(3, _ => u));
      s.bullish == 6 && s.bearish == 1 && s.neutral == 3 && s.tweetCount == 10 && s.overall == Bullish
  {
    var ms := seq(6, _ => b) + [r] + seq(3, _ => u);
    var tb, tr, tu := ToTweet(b), ToTweet(r), ToTweet(u);
    var ts := seq(6, _ => tb) + [tr] + seq(3, _ => tu);
    ExampleTweets(b, r, u);
    ExampleCounts(tb, tr, tu);
    assert Summarize("AAPL", ms).messages == ts;
  }

  lemma ExampleTweets(b: StocktwitsMessage, r: StocktwitsMessage, u: StocktwitsMessage)
    ensures ToTweets(seq(6, _ => b) + [r] + seq(3, _ => u))
         == seq(6, _ => ToTweet(b)) + [ToTweet(r)] + seq(3, _ => ToTweet(u))
  {
    var ms := seq(6, _ => b) + [r] + seq(3, _ => u);
    var ws := seq(6, _ => ToTweet(b)) + [ToTweet(r)] + seq(3, _ => ToTweet(u));
    forall i | 0 <= i < 10 ensures ToTweets(ms)[i] == ws[i] {
      assert ms[i] == if i < 6 then b else if i == 6 then r else u;
    }
  }

  lemma ExampleCounts(tb: TweetResult, tr: TweetResult, tu: TweetResult)
    requires tb.sentiment == Bullish && tr.sentiment == Bearish && tu.sentiment == Neutral
    ensures var ts := seq(6, _ => tb) + [tr] + seq(3, _ => tu);
      Count(ts, Bullish) == 6 && Count(ts, Bearish) == 1 && Count(ts, Neutral) == 3
  {
    var bs, us := seq(6, _ => tb), seq(3, _ => tu);
    assert [tr] == seq(1, _ => tr);
    forall l ensures Count(bs + [tr] + us, l) == Count(bs, l) + Count([tr], l) + Count(us, l) {
      CountAppend(bs + [tr], us, l);
      CountAppend(bs, [tr], l);
    }
    CountRepeated(tb, 6, Bullish);
    CountRepeated(tb, 6, Bearish);
    CountRepeated(tb, 6, Neutral);
    CountRepeated(tr, 1, Bullish);
    CountRepeated(tr, 1, Bearish);
    CountRepeated(tr, 1, Neutral);
    CountRepeated(tu, 3, Bullish);
    CountRepeated(tu, 3, Bearish);
    CountRepeated(tu, 3, Neutral);
  }
}

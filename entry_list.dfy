/**
 * The note list: searching the notes, grouping them by earnings period, ordering each group
 * newest first and the periods latest first, and splitting the ticker field into chips.
 */
module EntryList {
  import opened Wrappers
  import opened Text
  import Decimal
  import Seqs
  import Sorting
  import EntryParser

  /** A stored note, with `entry_date` already read as a day number. */
  datatype Entry = Entry(
    id: string,
    ticker: string,
    day: int,
    source: Option<string>,
    note: string,
    link: Option<string>,
    flag: Option<string>,
    period: string,
    createdAt: string)

  // ---------------------------------------------------------------------------
  // Search

  /**
   * The search test: an empty query lets everything through; otherwise the lower-cased query
   * must occur in the lower-cased ticker, note, or non-empty source.
   */
  predicate Matches(e: Entry, query: string) {
    var q := ToLower(query);
    || query == []
    || Contains(ToLower(e.ticker), q)
    || Contains(ToLower(e.note), q)
    || (e.source.Some? && e.source.value != [] && Contains(ToLower(e.source.value), q))
  }

  /** `entries.filter(...)`: an entry is shown exactly when it matches the query. */
  function Search(entries: seq<Entry>, query: string): (r: seq<Entry>)
    ensures |r| <= |entries|
    ensures forall e :: e in r <==> e in entries && Matches(e, query)
  {
    if entries == [] then []
    else (if Matches(entries[0], query) then [entries[0]] else []) + Search(entries[1..], query)
  }

  /** An empty search shows every entry, in order. */
  lemma {:induction false} SearchEmptyQuery(entries: seq<Entry>)
    ensures Search(entries, "") == entries
    decreases |entries|
  {
    if entries != [] {
      SearchEmptyQuery(entries[1..]);
      assert entries == [entries[0]] + entries[1..];
    }
  }

  /** Searching keeps the relative order of the entries: it distributes over concatenation. */
  lemma {:induction false} SearchAppend(a: seq<Entry>, b: seq<Entry>, query: string)
    ensures Search(a + b, query) == Search(a, query) + Search(b, query)
    decreases |a|
  {
    if a == [] {
      assert a + b == b;
    } else {
      assert (a + b)[0] == a[0] && (a + b)[1..] == a[1..] + b;
      SearchAppend(a[1..], b, query);
      var rest := Search(a[1..], query) + Search(b, query);
      if Matches(a[0], query) {
        assert Search(a + b, query) == [a[0]] + rest;
      } else {
        assert Search(a + b, query) == rest;
      }
    }
  }

  lemma LowerOfUpper(q: string)
    ensures ToLower(ToUpper(q)) == ToLower(q)
  {
  }

  /** Two queries that agree once lower-cased select the same entries. */
  lemma {:induction false} SearchCaseInsensitive(entries: seq<Entry>, q1: string, q2: string)
    requires ToLower(q1) == ToLower(q2)
    ensures Search(entries, q1) == Search(entries, q2)
    decreases |entries|
  {
    assert |q1| == |ToLower(q1)| == |ToLower(q2)| == |q2|;
    if entries != [] {
      SearchCaseInsensitive(entries[1..], q1, q2);
    }
  }

  /** Searching in capitals finds the same entries. */
  lemma SearchIgnoresCase(entries: seq<Entry>, query: string)
    ensures Search(entries, ToUpper(query)) == Search(entries, query)
  {
    LowerOfUpper(query);
    SearchCaseInsensitive(entries, ToUpper(query), query);
  }

  // ---------------------------------------------------------------------------
  // Grouping by earnings period

  predicate Distinct(ks: seq<string>) {
    forall i, j :: 0 <= i < j < |ks| ==> ks[i] != ks[j]
  }

  /** The periods of `es`, each once, in order of first appearance: `Object.keys` of the groups. */
  function Keys(es: seq<Entry>): seq<string>
    decreases |es|
  {
    if es == [] then []
    else
      var ks := Keys(es[..|es| - 1]);
      var p := es[|es| - 1].period;
      if p in ks then ks else ks + [p]
  }

  /** The `reduce` of the list: each entry appended to the group of its period. */
  function Grouped(es: seq<Entry>): map<string, seq<Entry>>
    decreases |es|
  {
    if es == [] then map[]
    else
      var g := Grouped(es[..|es| - 1]);
      var e := es[|es| - 1];
      g[e.period := (if e.period in g then g[e.period] else []) + [e]]
  }

  /** The entries of period `p`, in their order. */
  function OfPeriod(es: seq<Entry>, p: string): (r: seq<Entry>)
    ensures forall e :: e in r <==> e in es && e.period == p
    decreases |es|
  {
    if es == [] then []
    else
      var e := es[|es| - 1];
      assert es == es[..|es| - 1] + [e];
      OfPeriod(es[..|es| - 1], p) + (if e.period == p then [e] else [])
  }

  /** One more entry: the grouping and the key list after it. */
  lemma GroupStep(es: seq<Entry>, e: Entry)
    ensures Keys(es + [e]) == if e.period in Keys(es) then Keys(es) else Keys(es) + [e.period]
    ensures Grouped(es + [e]) == Grouped(es)[e.period := (if e.period in Grouped(es) then Grouped(es)[e.period] else []) + [e]]
  {
    assert (es + [e])[..|es|] == es;
  }

  lemma OfPeriodStep(es: seq<Entry>, e: Entry)
    ensures OfPeriod(es + [e], e.period) == OfPeriod(es, e.period) + [e]
    ensures forall p :: p != e.period ==> OfPeriod(es + [e], p) == OfPeriod(es, p)
  {
    assert (es + [e])[..|es|] == es;
  }

  /** The groups are keyed by exactly the periods that occur, each key once. */
  lemma {:induction false} GroupKeys(es: seq<Entry>)
    ensures Distinct(Keys(es))
    ensures forall p :: p in Grouped(es) <==> p in Keys(es)
    decreases |es|
  {
    if es != [] {
      var init, e := es[..|es| - 1], es[|es| - 1];
      assert es == init + [e];
      GroupKeys(init);
      GroupStep(init, e);
    }
  }

  /**
   * The group of a period holds exactly that period's entries, in their order; a period
   * without a group has no entry.
   */
  lemma {:induction false} GroupContents(es: seq<Entry>)
    ensures forall p :: p in Grouped(es) ==> Grouped(es)[p] == OfPeriod(es, p)
    ensures forall p :: p !in Grouped(es) ==> OfPeriod(es, p) == []
    decreases |es|
  {
    if es != [] {
      var init, e := es[..|es| - 1], es[|es| - 1];
      assert es == init + [e];
      GroupContents(init);
      GroupStep(init, e);
      OfPeriodStep(init, e);
    }
  }

  /** Every shown entry lands in the group of its own period, and in no other. */
  lemma EntryInItsGroup(es: seq<Entry>, e: Entry, p: string)
    requires e in es && p in Grouped(es)
    ensures e in Grouped(es)[p] <==> e.period == p
    ensures e.period in Grouped(es)
  {
    GroupContents(es);
  }

  /** The total size of the groups listed in `ks`. */
  function SumSizes(g: map<string, seq<Entry>>, ks: seq<string>): nat
    requires forall k :: k in ks ==> k in g
    decreases |ks|
  {
    if ks == [] then 0 else SumSizes(g, ks[..|ks| - 1]) + |g[ks[|ks| - 1]]|
  }

  lemma {:induction false} SumSizesUpdate(g: map<string, seq<Entry>>, ks: seq<string>, p: string, v: seq<Entry>)
    requires forall k :: k in ks ==> k in g
    requires Distinct(ks)
    ensures SumSizes(g[p := v], ks) + (if p in ks then |g[p]| else 0) == SumSizes(g, ks) + (if p in ks then |v| else 0)
    decreases |ks|
  {
    if ks != [] {
      var init := ks[..|ks| - 1];
      assert Distinct(init);
      assert forall k :: k in init ==> k in ks;
      SumSizesUpdate(g, init, p, v);
      if ks[|ks| - 1] == p {
        assert p !in init;
      }
      assert p in ks <==> p in init || ks[|ks| - 1] == p;
    }
  }

  /** The group sizes add up to the number of shown entries: nothing is lost or counted twice. */
  lemma {:induction false} GroupSizesSum(es: seq<Entry>)
    ensures forall k :: k in Keys(es) ==> k in Grouped(es)
    ensures SumSizes(Grouped(es), Keys(es)) == |es|
    decreases |es|
  {
    GroupKeys(es);
    if es != [] {
      var init, e := es[..|es| - 1], es[|es| - 1];
      assert es == init + [e];
      GroupSizesSum(init);
      GroupKeys(init);
      GroupStep(init, e);
      GroupSizeStep(Grouped(init), Keys(init), e);
    }
  }

  lemma GroupSizeStep(g: map<string, seq<Entry>>, ks: seq<string>, e: Entry)
    requires Distinct(ks) && forall p :: p in g <==> p in ks
    ensures var g' := g[e.period := (if e.period in g then g[e.period] else []) + [e]];
      var ks' := if e.period in ks then ks else ks + [e.period];
      (forall k :: k in ks' ==> k in g') && SumSizes(g', ks') == SumSizes(g, ks) + 1
  {
    var v := (if e.period in g then g[e.period] else []) + [e];
    SumSizesUpdate(g, ks, e.period, v);
    if e.period !in ks {
      assert (ks + [e.period])[..|ks|] == ks;
    }
  }

  /** The grouping loop of the list, with the groups' keys in insertion order. */
  method GroupByPeriod(entries: seq<Entry>) returns (keys: seq<string>, groups: map<string, seq<Entry>>)
    ensures keys == Keys(entries) && groups == Grouped(entries)
  {
    keys, groups := [], map[];
    var i := 0;
    while i < |entries|
      invariant 0 <= i <= |entries|
      invariant keys == Keys(entries[..i]) && groups == Grouped(entries[..i])
    {
      var e := entries[i];
      GroupKeys(entries[..i]);
      GroupStep(entries[..i], e);
      assert entries[..i + 1] == entries[..i] + [e];
      keys, groups := AddToGroup(keys, groups, e);
      i := i + 1;
    }
    assert entries[..|entries|] == entries;
  }

  /** One step of the `reduce`: open the period's group if it has none, then push the entry. */
  method AddToGroup(keys: seq<string>, groups: map<string, seq<Entry>>, e: Entry)
    returns (keys': seq<string>, groups': map<string, seq<Entry>>)
    requires e.period in groups <==> e.period in keys
    ensures keys' == if e.period in keys then keys else keys + [e.period]
    ensures groups' == groups[e.period := (if e.period in groups then groups[e.period] else []) + [e]]
  {
    keys', groups' := keys, groups;
    if e.period !in groups' {
      groups' := groups'[e.period := []];
      keys' := keys' + [e.period];
    }
    groups' := groups'[e.period := groups'[e.period] + [e]];
  }

  // ---------------------------------------------------------------------------
  // Ordering within a group

  function Day(e: Entry): int {
    e.day
  }

  /** `group.sort((a, b) => b.day - a.day)`: newest first, ties in their original order. */
  function NewestFirst(group: seq<Entry>): seq<Entry> {
    Sorting.SortBy(Day, group)
  }

  /** A sorted group is newest first, holds the same entries, and keeps same-day entries in order. */
  lemma NewestFirstSorted(group: seq<Entry>, d: int)
    ensures Sorting.SortedDesc(Day, NewestFirst(group))
    ensures multiset(NewestFirst(group)) == multiset(group)
    ensures Sorting.WithKey(Day, NewestFirst(group), d) == Sorting.WithKey(Day, group, d)
  {
    Sorting.SortBySorted(Day, group);
    Sorting.SortByPermutation(Day, group);
    Sorting.SortByStable(Day, group, d);
  }

  /** After the first `i` keys: their groups have been passed through `f`, every other group is as it was. */
  ghost predicate DoneUpTo<V>(keys: seq<string>, groups: map<string, V>, f: V -> V, now: map<string, V>, i: nat)
    requires i <= |keys|
  {
    && now.Keys == groups.Keys
    && (forall p :: p in groups && p in keys[..i] ==> now[p] == f(groups[p]))
    && (forall p :: p in groups && p !in keys[..i] ==> now[p] == groups[p])
  }

  /** Updating the group of the next key extends the done prefix by that key. */
  lemma DoneUpToStep<V>(keys: seq<string>, groups: map<string, V>, f: V -> V, now: map<string, V>, i: nat)
    requires Distinct(keys) && forall p :: p in groups <==> p in keys
    requires i < |keys| && DoneUpTo(keys, groups, f, now, i)
    ensures keys[i] in now
    ensures DoneUpTo(keys, groups, f, now[keys[i] := f(now[keys[i]])], i + 1)
  {
    var p := keys[i];
    assert p !in keys[..i];
    assert keys[..i + 1] == keys[..i] + [p];
  }

  /** `Object.keys(groups).forEach(p => groups[p].sort(...))`. */
  method SortGroups(keys: seq<string>, groups: map<string, seq<Entry>>) returns (sorted: map<string, seq<Entry>>)
    requires Distinct(keys) && forall p :: p in groups <==> p in keys
    ensures sorted.Keys == groups.Keys
    ensures forall p :: p in groups ==> sorted[p] == NewestFirst(groups[p])
  {
    sorted := groups;
    var i := 0;
    while i < |keys|
      invariant 0 <= i <= |keys|
      invariant DoneUpTo(keys, groups, NewestFirst, sorted, i)
    {
      DoneUpToStep(keys, groups, NewestFirst, sorted, i);
      sorted := sorted[keys[i] := NewestFirst(sorted[keys[i]])];
      i := i + 1;
    }
    assert keys[..|keys|] == keys;
  }

  // ---------------------------------------------------------------------------
  // Ordering the periods

  /** `a.split(" ")` taken apart as `[q, year]`; a missing second field is `undefined` (`None`). */
  function Fields(a: string): (string, Option<string>) {
    var f := SplitOn(a, ' ');
    (f[0], if |f| >= 2 then Some(f[1]) else None)
  }

  /** `Number(x)`: `undefined` and text that is not a numeral give NaN (`None`). */
  function NumberOf(x: Option<string>): Option<int> {
    if x.None? then None else Decimal.ToNumber(x.value)
  }

  /** `q.replace("Q", "")`: the first `Q`, if any, is removed. */
  function DropFirstQ(q: string): string {
    var n := Span(q, c => c != 'Q');
    if n == |q| then q else q[..n] + q[n + 1..]
  }

  /** A difference of two numbers as the sort sees it: NaN counts as 0, "equal". */
  function Minus(x: Option<int>, y: Option<int>): int {
    if x.Some? && y.Some? then x.value - y.value else 0
  }

  /** The `sortedPeriods` comparator: later year first, then higher quarter first. */
  function ComparePeriods(a: string, b: string): int {
    var (qA, yearA) := Fields(a);
    var (qB, yearB) := Fields(b);
    if yearA != yearB then Minus(NumberOf(yearB), NumberOf(yearA))
    else Minus(NumberOf(Some(DropFirstQ(qB))), NumberOf(Some(DropFirstQ(qA))))
  }

  function InsertPeriod(k: string, s: seq<string>): seq<string> {
    if s == [] || ComparePeriods(k, s[0]) <= 0 then [k] + s else [s[0]] + InsertPeriod(k, s[1..])
  }

  /** `Object.keys(groups).sort(ComparePeriods)`, stably. */
  function SortPeriods(keys: seq<string>): seq<string> {
    if keys == [] then [] else InsertPeriod(keys[0], SortPeriods(keys[1..]))
  }

  /** A quarter of a year, the thing a period label names. */
  datatype Quarter = Quarter(q: int, year: int)

  predicate InRange(xs: seq<Quarter>) {
    forall i :: 0 <= i < |xs| ==> 1 <= xs[i].q <= 4
  }

  /** The label of a quarter, as the period generator writes it: `Qn YYYY`. */
  function Label(x: Quarter): string {
    EntryParser.Period(x.q, x.year)
  }

  function Labels(xs: seq<Quarter>): seq<string> {
    Seqs.Map(Label, xs)
  }

  /** Position on the quarter time line: a later quarter has a larger rank. */
  function QuarterRank(x: Quarter): int {
    4 * x.year + x.q
  }

  lemma DecimalChars(n: int)
    ensures ' ' !in Decimal.IntToDecimal(n) && 'Q' !in Decimal.IntToDecimal(n)
  {
    Decimal.IntToDecimalCanonical(n);
    var d := Decimal.IntToDecimal(n);
    if n < 0 {
      assert forall i :: 1 <= i < |d| ==> d[i] == d[1..][i - 1];
    }
  }

  lemma SplitOnPair(a: string, b: string, c: char)
    requires c !in a && c !in b
    ensures SplitOn(a + [c] + b, c) == [a, b]
  {
    var s := a + [c] + b;
    SpanAppend(a, [c] + b, x => x != c);
    assert s == a + ([c] + b);
    assert Span([c] + b, x => x != c) == 0;
    assert s[|a| + 1..] == b;
    SpanAppend(b, [], x => x != c);
    assert b + [] == b;
    assert s[..|a|] == a;
  }

  /** A generated label splits into `Qn` and the year, and both numbers read back. */
  lemma LabelFields(q: int, y: int)
    requires 1 <= q <= 4
    ensures Fields(EntryParser.Period(q, y)) == ("Q" + Decimal.IntToDecimal(q), Some(Decimal.IntToDecimal(y)))
    ensures NumberOf(Some(DropFirstQ("Q" + Decimal.IntToDecimal(q)))) == Some(q)
    ensures NumberOf(Some(Decimal.IntToDecimal(y))) == Some(y)
  {
    var dq, dy := Decimal.IntToDecimal(q), Decimal.IntToDecimal(y);
    DecimalChars(q);
    DecimalChars(y);
    assert EntryParser.Period(q, y) == ("Q" + dq) + [' '] + dy;
    SplitOnPair("Q" + dq, dy, ' ');
    assert DropFirstQ("Q" + dq) == dq by {
      assert ("Q" + dq)[1..] == dq;
    }
    Decimal.NumberOfDecimal(q);
    Decimal.NumberOfDecimal(y);
  }

  /**
   * Between two labels the comparator puts the later year first, then the higher quarter:
   * it orders by rank, latest first.
   */
  lemma CompareLabels(x: Quarter, z: Quarter)
    requires 1 <= x.q <= 4 && 1 <= z.q <= 4
    ensures x.year != z.year ==> ComparePeriods(Label(x), Label(z)) == z.year - x.year
    ensures x.year == z.year ==> ComparePeriods(Label(x), Label(z)) == z.q - x.q
    ensures ComparePeriods(Label(x), Label(z)) <= 0 <==> QuarterRank(x) >= QuarterRank(z)
  {
    var dqx, dyx := Decimal.IntToDecimal(x.q), Decimal.IntToDecimal(x.year);
    var dqz, dyz := Decimal.IntToDecimal(z.q), Decimal.IntToDecimal(z.year);
    LabelFields(x.q, x.year);
    LabelFields(z.q, z.year);
    if dyx == dyz {
      Decimal.IntToDecimalInjective(x.year, z.year);
    }
    CompareByFields(Label(x), Label(z), "Q" + dqx, dyx, "Q" + dqz, dyz, x.q, x.year, z.q, z.year);
  }

  /** The comparator on two labels whose fields read as the given numbers. */
  lemma CompareByFields(a: string, b: string, qa: string, ya: string, qb: string, yb: string,
                        nqa: int, nya: int, nqb: int, nyb: int)
    requires Fields(a) == (qa, Some(ya)) && Fields(b) == (qb, Some(yb))
    requires NumberOf(Some(ya)) == Some(nya) && NumberOf(Some(yb)) == Some(nyb)
    requires NumberOf(Some(DropFirstQ(qa))) == Some(nqa) && NumberOf(Some(DropFirstQ(qb))) == Some(nqb)
    requires ya == yb <==> nya == nyb
    ensures nya != nyb ==> ComparePeriods(a, b) == nyb - nya
    ensures nya == nyb ==> ComparePeriods(a, b) == nqb - nqa
  {
  }

  lemma LabelsCons(xs: seq<Quarter>)
    requires xs != []
    ensures Labels(xs) == [Label(xs[0])] + Labels(xs[1..])
  {
    assert Labels(xs)[1..] == Labels(xs[1..]);
  }

  lemma {:induction false} InsertLabel(x: Quarter, s: seq<Quarter>)
    requires 1 <= x.q <= 4 && InRange(s)
    ensures InsertPeriod(Label(x), Labels(s)) == Labels(Sorting.Insert(QuarterRank, x, s))
    decreases |s|
  {
    if s == [] {
      assert Labels([x]) == [Label(x)];
    } else {
      CompareLabels(x, s[0]);
      if QuarterRank(x) >= QuarterRank(s[0]) {
        InsertLabelHere(x, s);
      } else {
        InsertLabel(x, s[1..]);
        InsertLabelLater(x, s);
      }
    }
  }

  /** Both insertions stop in front of the first element. */
  lemma InsertLabelHere(x: Quarter, s: seq<Quarter>)
    requires s != [] && QuarterRank(x) >= QuarterRank(s[0]) && ComparePeriods(Label(x), Label(s[0])) <= 0
    ensures InsertPeriod(Label(x), Labels(s)) == Labels(Sorting.Insert(QuarterRank, x, s))
  {
    LabelsCons(s);
    LabelsCons([x] + s);
    assert ([x] + s)[1..] == s;
  }

  /** Both insertions pass the first element and go on in the rest. */
  lemma InsertLabelLater(x: Quarter, s: seq<Quarter>)
    requires s != [] && QuarterRank(x) < QuarterRank(s[0]) && ComparePeriods(Label(x), Label(s[0])) > 0
    requires InsertPeriod(Label(x), Labels(s[1..])) == Labels(Sorting.Insert(QuarterRank, x, s[1..]))
    ensures InsertPeriod(Label(x), Labels(s)) == Labels(Sorting.Insert(QuarterRank, x, s))
  {
    var r := Sorting.Insert(QuarterRank, x, s);
    LabelsCons(s);
    assert r == [s[0]] + Sorting.Insert(QuarterRank, x, s[1..]);
    LabelsCons(r);
  }

  /** On well-formed labels the comparator sort is the sort by rank, latest first. */
  lemma {:induction false} SortLabels(xs: seq<Quarter>)
    requires InRange(xs)
    ensures SortPeriods(Labels(xs)) == Labels(Sorting.SortBy(QuarterRank, xs))
    decreases |xs|
  {
    if xs != [] {
      var rest := xs[1..];
      SortLabels(rest);
      LabelsCons(xs);
      var sorted := Sorting.SortBy(QuarterRank, rest);
      Sorting.SortByPermutation(QuarterRank, rest);
      forall i | 0 <= i < |sorted| ensures 1 <= sorted[i].q <= 4 {
        assert sorted[i] in multiset(rest);
      }
      InsertLabel(xs[0], sorted);
    }
  }

  /**
   * The sorted labels are those of the same quarters, from the latest year to the earliest
   * and, within a year, from Q4 down to Q1.
   */
  lemma SortedPeriodsOrder(xs: seq<Quarter>)
    requires InRange(xs)
    ensures var r := Sorting.SortBy(QuarterRank, xs);
      && SortPeriods(Labels(xs)) == Labels(r)
      && multiset(r) == multiset(xs)
      && forall i, j :: 0 <= i < j < |r| ==>
           r[i].year > r[j].year || (r[i].year == r[j].year && r[i].q >= r[j].q)
  {
    SortLabels(xs);
    Sorting.SortBySorted(QuarterRank, xs);
    Sorting.SortByPermutation(QuarterRank, xs);
    var r := Sorting.SortBy(QuarterRank, xs);
    forall i, j | 0 <= i < j < |r| ensures r[i].year > r[j].year || (r[i].year == r[j].year && r[i].q >= r[j].q) {
      assert r[i] in multiset(xs) && r[j] in multiset(xs);
    }
  }

  /** The quarters the period generator lists, latest first. */
  function EarningsQuarters(y: int): (r: seq<Quarter>)
    ensures |r| == 12
  {
    seq(12, i requires 0 <= i < 12 => Quarter(4 - i % 4, y + 1 - i / 4))
  }

  /** The generated labels are those of quarters whose rank falls by one at each step. */
  lemma EarningsQuartersRank(y: int)
    ensures EntryParser.EarningsPeriods(y) == Labels(EarningsQuarters(y))
    ensures InRange(EarningsQuarters(y))
    ensures forall i :: 0 <= i < 12 ==> QuarterRank(EarningsQuarters(y)[i]) == 4 * y + 8 - i
  {
    forall i | 0 <= i < 12 ensures 1 <= 4 - i % 4 <= 4 && 4 * (y + 1 - i / 4) + (4 - i % 4) == 4 * y + 8 - i {
      EntryParser.Index4(i);
    }
  }

  /** The list's period order agrees with the generator's: sorting the generated labels changes nothing. */
  lemma EarningsPeriodsAlreadySorted(y: int)
    ensures SortPeriods(EntryParser.EarningsPeriods(y)) == EntryParser.EarningsPeriods(y)
  {
    var xs := EarningsQuarters(y);
    EarningsQuartersRank(y);
    QuartersSorted(y);
    SortLabels(xs);
    Sorting.SortBySortedUnchanged(QuarterRank, xs);
  }

  lemma QuartersSorted(y: int)
    ensures Sorting.SortedDesc(QuarterRank, EarningsQuarters(y))
  {
    EarningsQuartersRank(y);
  }

  // ---------------------------------------------------------------------------
  // The whole list

  /**
   * The list as shown: the matching entries grouped by period, each group newest first, and
   * the periods in comparator order.
   */
  method ListView(entries: seq<Entry>, query: string) returns (periods: seq<string>, groups: map<string, seq<Entry>>)
    ensures var shown := Search(entries, query);
      && periods == SortPeriods(Keys(shown))
      && (forall p :: p in groups <==> p in Keys(shown))
      && (forall p :: p in groups ==> groups[p] == NewestFirst(OfPeriod(shown, p)))
      && (forall p :: p in groups ==> Sorting.SortedDesc(Day, groups[p]) && multiset(groups[p]) == multiset(OfPeriod(shown, p)))
  {
    var shown := Search(entries, query);
    var keys, grouped := GroupByPeriod(shown);
    GroupKeys(shown);
    GroupContents(shown);
    groups := SortGroups(keys, grouped);
    periods := SortPeriods(keys);
    forall p | p in groups
      ensures Sorting.SortedDesc(Day, groups[p]) && multiset(groups[p]) == multiset(OfPeriod(shown, p))
    {
      NewestFirstSorted(OfPeriod(shown, p), 0);
    }
  }

  // ---------------------------------------------------------------------------
  // Ticker chips

  /** `entry.ticker.split(",").map((t) => t.trim())`. */
  function Chips(ticker: string): seq<string> {
    Seqs.Map(Trim, SplitOn(ticker, ','))
  }

  /** There is one chip more than there are commas, each chip trimmed and free of commas. */
  lemma ChipsShape(ticker: string)
    ensures |Chips(ticker)| == CountChar(ticker, ',') + 1
    ensures forall i :: 0 <= i < |Chips(ticker)| ==> ',' !in Chips(ticker)[i]
  {
    SplitOnLength(ticker, ',');
    var pieces := SplitOn(ticker, ',');
    forall i | 0 <= i < |pieces| ensures ',' !in Trim(pieces[i]) {
      var lo := TrimIsSlice(pieces[i]);
    }
  }

  /** Without whitespace in the field the chips, joined with commas, give the field back. */
  lemma ChipsRebuild(ticker: string)
    requires NoSpace(ticker)
    ensures Join(Chips(ticker), ",") == ticker
  {
    var pieces := SplitOn(ticker, ',');
    JoinSplitOn(ticker, ',');
    forall i | 0 <= i < |pieces| ensures Trim(pieces[i]) == pieces[i] {
      PieceOfNoSpace(ticker, i);
      TrimUnchanged(pieces[i]);
    }
    assert Chips(ticker) == pieces;
  }

  lemma PieceOfNoSpace(ticker: string, i: int)
    requires NoSpace(ticker) && 0 <= i < |SplitOn(ticker, ',')|
    ensures NoSpace(SplitOn(ticker, ',')[i])
  {
    SplitOnKeeps(ticker, ',', c => !IsSpace(c));
  }
}

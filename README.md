# Stock research notebook: a verified model of its logic

This project models, in Dafny, the deterministic logic of a personal stock-research web
application, and proves properties of that model. The application has five pieces of such logic:

- **Sentiment route** (`GET /api/sentiment?ticker=…`). It cleans the ticker, reads the
  Stocktwits message stream for it, and labels each message from the platform's own
  Bullish/Bearish tag. It then counts the labels and picks an overall label by a
  strict-majority rule whose ties go to neutral. The upstream fetch is a function parameter,
  so the route is a pure function (`sentiment.dfy`, module `Sentiment`).
- **Quick-entry parser and earnings periods.**
  - `parseEntry` reads `TICKER M/D/YYYY: note` into a ticker, a `YYYY-MM-DD` date and a note.
    The regular expression is modelled as a scanner. The language of the pattern is stated
    directly, and both directions are proved: soundness and completeness.
  - `generateEarningsPeriods` is an imperative nested loop. It takes the current year as a
    parameter (`parse_entry.dfy`, module `EntryParser`).
- **Portfolio ticker list.** `parseTickers` splits free text on runs of separators, strips
  one `$`, upper-cases and drops empty pieces (`tickers.dfy`, module `Portfolio`).
- **Morning-brief job** (`morning_brief.dfy`, module `MorningBrief`). The model covers:
  - how each email becomes prompt text: whitespace collapsed, trimmed, cut at 1500
    characters, with a sender fallback;
  - how the summary becomes the HTML mail body;
  - how the two mail folders are bundled;
  - the order in which the handler gives up.
- **Note list and entry form.**
  - The list searches the notes (`entry_list.dfy`, module `EntryList`). It groups them by
    earnings period with a `reduce` that mutates its accumulator, which is a method here. It
    sorts each group newest first in place (a loop over the keys) and orders the periods with
    a comparator. It also splits the ticker field into chips.
  - The note renderer cuts a note into text and `![alt](url)` images with a `while` loop
    (`note_images.dfy`, module `NoteImages`).
  - The entry form's `handleSubmit` is a class `Form` whose fields are the component state.
    Its `Submit` method takes the sign-in and insert outcomes as parameters
    (`entry_form.dfy`, module `EntryForm`).

Shared pieces:

- JavaScript string operations (`text.dfy`, `Text`): the `\s` class, `trim`, ASCII case
  mapping, `split` and `join`.
- `String(n)`, `Number(s)` and `padStart` (`decimal.dfy`, `Decimal`).
- `map` with its permutation lemmas, and `filter` (`seqs.dfy`, `Seqs`).
- The stable comparator sort (`sorting.dfy`, `Sorting`).
- `Option` for `null` and `undefined` (`wrappers.dfy`, `Wrappers`).

Where a written description of the system differs from the code, the model follows the code:

- The sentiment route has only the platform-tag path. There is no word scoring, no overall
  numeric score and no truncation of the message list.
- The server-side ticker clean does not trim: `" aapl"` is looked up as `" AAPL"`.
- An empty message list is not an error. It gives zero counts and a neutral label.
- A year written with leading zeros loses them through `Number`, so `0025` becomes `25`.
- With `CRON_SECRET` unset, the morning-brief handler accepts the header `Bearer undefined`.
  See Findings.

## Model

| member | source | states |
|---|---|---|
| Sentiment.ToLabel | app/api/sentiment/route.ts:37-41 | bullish exactly for the tag "Bullish", bearish exactly for "Bearish"; anything else, or no tag, is neutral |
| Sentiment.CleanTicker | app/api/sentiment/route.ts:50 | the cleaned ticker drops one leading `$` (only one), upper-cases ASCII letters position by position, and trims nothing |
| Sentiment.CleanTickerNotIdempotent | app/api/sentiment/route.ts:50 | `$$aapl` cleans to `$AAPL`, which cleans again to `AAPL`: one `$` per pass |
| Sentiment.CleanTickerIdempotent | app/api/sentiment/route.ts:50 | cleaning a cleaned ticker that does not start with `$` changes nothing |
| Sentiment.CleanTickerExamples | app/api/sentiment/route.ts:50 | `$aapl` and `AAPL` clean to `AAPL`; ` aapl` keeps its space |
| Sentiment.TweetIdReadsBack | app/api/sentiment/route.ts:72 | the reported `id` is the canonical decimal numeral of the upstream id, and `Number` reads it back exactly |
| Sentiment.ToTweets | app/api/sentiment/route.ts:71-76 | one result per upstream message, in the same order, each built from its own message |
| Sentiment.WithLabel | app/api/sentiment/route.ts:78-80 | a message is kept exactly when it is in the input and carries the label |
| Sentiment.WithLabelAppend | app/api/sentiment/route.ts:78-80 | the label filter keeps relative order: filtering a concatenation is the concatenation of the filtered parts |
| Sentiment.CountsPartition | app/api/sentiment/route.ts:78-80 | the bullish, neutral and bearish counts add up to the number of messages |
| Sentiment.MajorityIsStrictWinner | app/api/sentiment/route.ts:82-84 | the label is bullish or bearish exactly when that count is strictly above both others; any tie for the top, or a neutral majority, gives neutral |
| Sentiment.Summarize | app/api/sentiment/route.ts:71-94 | the response carries the cleaned ticker, one result per message in order, counts equal to the label counts summing to `tweetCount`, the majority label, and all-zero counts with neutral for an empty stream |
| Sentiment.Get | app/api/sentiment/route.ts:43-101 | a missing or empty ticker is a 400 `ticker is required` before the fetch is consulted; a fetch or decode that throws is a 500 `Failed to fetch data`; status 404 or a missing `messages` list is a 404 `No Stocktwits data found for $` followed by the cleaned ticker, even when `errors` is present; otherwise a non-empty `errors` list is a 400 carrying its first message; otherwise a 200 whose body is the summary of the stream for the cleaned ticker |
| Sentiment.CountIsMultiplicity | app/api/sentiment/route.ts:78-80 | a label's count is its multiplicity among the labels |
| Sentiment.SummaryOrderIndependent | app/api/sentiment/route.ts:71-84 | any permutation of the stream gives the same counts, total and overall label |
| Sentiment.CountMirrored | app/api/sentiment/route.ts:78-80 | exchanging Bullish and Bearish tags exchanges the counts of the two labels |
| Sentiment.SummaryMirrored | app/api/sentiment/route.ts:78-84 | exchanging the tags swaps the bullish and bearish counts and mirrors the overall label |
| Sentiment.CountCons | app/api/sentiment/route.ts:78-80 | a label's count is one for a first message carrying it plus the count of the rest |
| Sentiment.CountAppend | app/api/sentiment/route.ts:78-80 | counting distributes over concatenation of result lists |
| Sentiment.SixBullishOneBearishThreeUntagged | app/api/sentiment/route.ts:71-94 | ten messages (six Bullish, one Bearish, three untagged) count 6/3/1 and are bullish overall |
| EntryParser.Lead | lib/parseEntry.ts:10 | a field of the pattern: the run taken is within its length bounds, of its class, and followed by its stop character |
| EntryParser.LeadOf | lib/parseEntry.ts:10 | a run of the right length followed by the stop character is exactly what the field takes |
| EntryParser.ParseDateSound | lib/parseEntry.ts:10 | an accepted date text is one or two digits, `/`, one or two digits, `/`, four digits and `:` |
| EntryParser.ParseDateComplete | lib/parseEntry.ts:10 | every such date text is accepted, with exactly its fields |
| EntryParser.ParseNoteSound | lib/parseEntry.ts:10 | an accepted note part is whitespace, then a non-empty single-line note |
| EntryParser.ParseNoteComplete | lib/parseEntry.ts:10 | any whitespace-then-note split of the rest is accepted, with the same trimmed note |
| EntryParser.ParseLineSound | lib/parseEntry.ts:10-17 | an accepted trimmed line has the full shape of the pattern, and the result is built from its pieces |
| EntryParser.ParseLineComplete | lib/parseEntry.ts:10-34 | a trimmed line with the pattern's shape is accepted, with the result built from its pieces |
| EntryParser.ParseEntrySound | lib/parseEntry.ts:7-34 | whatever `parseEntry` accepts matches the pattern after `trim()`, with ticker upper-cased, date formatted and note trimmed |
| EntryParser.ParseEntryComplete | lib/parseEntry.ts:7-34 | whatever matches the pattern after `trim()` is accepted with exactly that result; everything else is `null` |
| EntryParser.ParsedTicker | lib/parseEntry.ts:31 | an accepted ticker is one to five upper-case ASCII letters |
| EntryParser.ParsedNote | lib/parseEntry.ts:33 | an accepted note is non-empty, has no whitespace at either end and holds no line terminator |
| EntryParser.FormatDateDigits | lib/parseEntry.ts:28 | for a year without a leading zero the date is the year digits, `-`, month and day padded to two digits, ten characters in all |
| EntryParser.YearLosesLeadingZeros | lib/parseEntry.ts:20-28 | a year written with leading zeros loses them, and the date is shorter than ten characters |
| EntryParser.ParseEntryDate | lib/parseEntry.ts:20-28 | any one- or two-digit month and day are accepted and copied padded into the date, with no calendar check (`13/40/2025` gives `2025-13-40`) |
| EntryParser.EarningsPeriods | lib/parseEntry.ts:37-49 | the generator's list has twelve labels |
| EntryParser.GenerateEarningsPeriods | lib/parseEntry.ts:37-49 | the nested counting-down loops push exactly the list `EarningsPeriods(currentYear)` |
| EntryParser.EarningsPeriodsStep | lib/parseEntry.ts:42-46 | the label pushed for quarter `q` of `year` is the next entry of the list |
| EntryParser.PeriodInjective | lib/parseEntry.ts:44 | a label `Q{q} {year}` determines its quarter and year |
| EntryParser.EarningsPeriodsCover | lib/parseEntry.ts:42-46 | quarter `q` of `year` is listed exactly when `year` is the previous, current or next year |
| EntryParser.PeriodListed | lib/parseEntry.ts:42-46 | every quarter of the three years is listed |
| EntryParser.ListedPeriodInRange | lib/parseEntry.ts:42-46 | a listed quarter lies in one of the three years |
| EntryParser.SlotOf | lib/parseEntry.ts:42-46 | each entry of the list names a quarter 1-4 of one of the three years |
| EntryParser.EarningsPeriodsDistinct | lib/parseEntry.ts:42-46 | no label appears twice |
| EntryParser.EarningsPeriodsEnds | lib/parseEntry.ts:42-46 | the first label is `Q4 {y+1}` and the last is `Q1 {y-1}` |
| Decimal.NatToDecimalValue | app/api/sentiment/route.ts:72 | `String(n)` writes a canonical numeral whose value is `n` |
| Decimal.NumberOfDecimal | app/api/sentiment/route.ts:72 | `Number(String(n)) == n` for every integer, negative ones included |
| Decimal.NumberOfDigits | lib/parseEntry.ts:20 | `Number` reads a non-empty digit string as the value it spells |
| Decimal.IntToDecimalCanonical | app/api/sentiment/route.ts:72 | `String(n)` is a canonical numeral, after `-` when `n` is negative |
| Decimal.IntToDecimalInjective | lib/parseEntry.ts:44 | distinct integers are written as distinct numerals |
| Decimal.DecimalOfDigits | lib/parseEntry.ts:28 | a canonical numeral is exactly what `String` writes for its value |
| Decimal.LeadingZerosValue | lib/parseEntry.ts:20 | leading zeros do not change what `Number` reads |
| Decimal.PadStart | lib/parseEntry.ts:28 | `padStart(width, "0")` keeps the text as a suffix, reaches the width and fills only with `0` |
| Decimal.PadTwoDigits | lib/parseEntry.ts:28 | a one- or two-digit field read by `Number` and padded to two is the same digits, padded |
| Portfolio.Pieces | app/portfolio/PortfolioClient.tsx:16 | the split yields at least one piece, none containing whitespace, `,`, `;` or `\|` |
| Portfolio.NonEmpty | app/portfolio/PortfolioClient.tsx:18 | the filter keeps no empty string |
| Portfolio.NonEmptyMembers | app/portfolio/PortfolioClient.tsx:18 | a string is kept exactly when it is in the input and non-empty |
| Portfolio.NonEmptyAppend | app/portfolio/PortfolioClient.tsx:18 | the filter keeps relative order: filtering a concatenation is the concatenation of the filtered parts |
| Portfolio.NonEmptyCons | app/portfolio/PortfolioClient.tsx:18 | the first string is kept exactly when it is non-empty, ahead of the filtered rest |
| Portfolio.NonEmptyUnchanged | app/portfolio/PortfolioClient.tsx:18 | a list without empty strings passes the filter unchanged |
| Portfolio.TokenOfPiece | app/portfolio/PortfolioClient.tsx:17 | a token is the upper case of its separator-free piece with at most one `$` removed (`$$x` gives `$X`); `trim()` has nothing to do |
| Portfolio.ParsedTickersWellFormed | app/portfolio/PortfolioClient.tsx:14-19 | every ticker is non-empty and free of separators and lower-case ASCII letters |
| Portfolio.SeparatorsOnly | app/portfolio/PortfolioClient.tsx:14-19 | text made only of separators, the empty text included, gives no ticker |
| Portfolio.ParseTickersOfPiece | app/portfolio/PortfolioClient.tsx:14-19 | a text without separators gives no ticker when it is empty or exactly `$`, and otherwise exactly one non-empty ticker, its token |
| Portfolio.LoneDollar | app/portfolio/PortfolioClient.tsx:14-19 | the text `$` alone gives no ticker |
| Portfolio.LoneDollarDropped | app/portfolio/PortfolioClient.tsx:14-19 | a `$` standing alone between separators is dropped wherever it stands: any text before it and any text after it give their own tickers, and nothing for the `$` |
| Portfolio.WordsOfToken | app/portfolio/PortfolioClient.tsx:16-18 | a text without separators splits into itself, which survives the empty-piece filter unless it is empty |
| Portfolio.WordsOfTokenThenRest | app/portfolio/PortfolioClient.tsx:16-18 | a token, a run of separators and a text not starting with one split into the token (unless empty) and then the words of the text |
| Portfolio.LeadingSeparators | app/portfolio/PortfolioClient.tsx:16-18 | separators at the start of a text change none of its non-empty pieces |
| Portfolio.WordsOfJoin | app/portfolio/PortfolioClient.tsx:16-18 | for any two texts and any non-empty run of separators between them, the non-empty pieces of the whole are those of the first text followed by those of the second |
| Portfolio.TokensOfWords | app/portfolio/PortfolioClient.tsx:17-18 | dropping empty pieces before taking tokens changes no resulting ticker, since an empty piece has an empty token |
| Portfolio.ParseTickersAppend | app/portfolio/PortfolioClient.tsx:14-19 | for any two texts and any non-empty run of separators between them, the tickers of the whole are the tickers of the first followed by those of the second, order and repetitions kept |
| Portfolio.PiecesOfJoin | app/portfolio/PortfolioClient.tsx:16 | splitting non-empty separator-free tokens joined by one non-empty run of separators, the same `sep` repeated between every pair, gives the tokens back |
| Portfolio.PiecesOfTokenThenRest | app/portfolio/PortfolioClient.tsx:16 | a token, a run of separators and a text that is empty or starts with a token split as the token followed by the pieces of the text |
| Portfolio.TokenOfTicker | app/portfolio/PortfolioClient.tsx:17 | a well-formed ticker is its own token |
| Portfolio.ParseTickersOfJoin | app/portfolio/PortfolioClient.tsx:14-19 | tickers joined by separators are read back exactly, in order and with repetitions |
| MorningBrief.PortfolioTickers | app/api/morning-brief/route.ts:84-89 | a missing ticker field gives no tickers; every ticker is non-empty and separator-free |
| MorningBrief.BriefTickersAsPortfolio | app/api/morning-brief/route.ts:84-89 | the job parses a stored list exactly as the portfolio page does |
| MorningBrief.Collapse | app/api/morning-brief/route.ts:66 | after collapsing, no two whitespace characters are adjacent, only plain spaces remain, and the text starts with whitespace exactly when the input did |
| MorningBrief.CollapseKeepsText | app/api/morning-brief/route.ts:66 | collapsing changes no non-whitespace character |
| MorningBrief.TrimKeepsSpacing | app/api/morning-brief/route.ts:66 | trimming a collapsed text keeps its single plain spaces |
| MorningBrief.TrimKeepsText | app/api/morning-brief/route.ts:66 | trimming removes only whitespace |
| MorningBrief.EmailBodyShape | app/api/morning-brief/route.ts:66 | the body is at most 1500 characters, does not start with whitespace, has no two whitespace characters in a row and no line break |
| MorningBrief.EmailBodyKeepsText | app/api/morning-brief/route.ts:66 | a body short enough to escape the cut keeps every visible character of the email, in order |
| MorningBrief.Sender | app/api/morning-brief/route.ts:67 | the sender is the name if non-empty, else the address if non-empty, else `Unknown`, and never empty |
| MorningBrief.ReplaceChar | app/api/morning-brief/route.ts:95-99 | a global one-character replacement whose replacement lacks the character leaves none of it |
| MorningBrief.EscapeOneChar | app/api/morning-brief/route.ts:95-97 | the three passes turn each single character into its HTML entity, or leave it |
| MorningBrief.EscapeInOrder | app/api/morning-brief/route.ts:95-97 | because `&` is escaped first, the three passes escape each character exactly once |
| MorningBrief.EscapeOrderMatters | app/api/morning-brief/route.ts:95-97 | `<` becomes `&lt;`; escaping `<` before `&` would have given `&amp;lt;` |
| MorningBrief.LineBreaks | app/api/morning-brief/route.ts:98-99 | the one-pass newline conversion leaves no line feed |
| MorningBrief.NewlinesInOrder | app/api/morning-brief/route.ts:98-99 | the two passes turn each `\n\n`, left to right without overlap, into `</p><p>` and each remaining `\n` into `<br>` |
| MorningBrief.HtmlHasNoNewline | app/api/morning-brief/route.ts:94-110 | no line feed survives in the mail body |
| MorningBrief.DecodeInverts | app/api/morning-brief/route.ts:94-99 | decoding tags and entities undoes escaping and newline conversion |
| MorningBrief.HtmlRoundTrip | app/api/morning-brief/route.ts:94-110 | the `<p>…</p>` mail body, read back, is exactly the summary that was sent |
| MorningBrief.TagAll | app/api/morning-brief/route.ts:136-139 | each email is prefixed with its folder tag, count and order kept |
| MorningBrief.UnbundleStreet | app/api/morning-brief/route.ts:138 | a bundle of StreetAccount emails sorts back entirely into that folder |
| MorningBrief.BundleTagsFolders | app/api/morning-brief/route.ts:136-139 | the bundle holds every email of both folders, inbox first and in order, and sorting it by tag gives both folders back |
| MorningBrief.HandleOrder | app/api/morning-brief/route.ts:117-190 | 401 exactly on a wrong header; then a 500 exactly when a folder could not be read (Graph token, folder lookup or message request threw), before the ticker list is looked at; then "no tickers" exactly when the list is empty, even with mail; then "no emails" exactly when both folders are empty; then a 500 exactly when the model request or the mail throws; a brief exactly otherwise, reporting every email of both folders and the tickers |
| MorningBrief.BundleSize | app/api/morning-brief/route.ts:136-139 | the bundle holds as many texts as the two folders hold messages |
| MorningBrief.UnsetSecretAdmitsUndefined | app/api/morning-brief/route.ts:119 | with the secret unset, the header `Bearer undefined` is let through |
| MorningBrief.HandleSecured | app/api/morning-brief/route.ts:118-121 | the corrected check refuses everything while the secret is unset, and otherwise answers as the handler does |
| MorningBrief.SecuredAgreesWhenConfigured | app/api/morning-brief/route.ts:118-121 | with the secret set, the corrected handler and the handler as written agree on every request |
| EntryList.Search | components/EntryList.tsx:33-41 | an entry is shown exactly when it is in the list and matches: empty query, or the lower-cased query in the lower-cased ticker, note or non-empty source |
| EntryList.SearchEmptyQuery | components/EntryList.tsx:34 | an empty query shows every entry in order |
| EntryList.SearchAppend | components/EntryList.tsx:33 | filtering distributes over concatenation, so relative order is kept |
| EntryList.SearchCaseInsensitive | components/EntryList.tsx:35-39 | queries equal after lower-casing select the same entries |
| EntryList.SearchIgnoresCase | components/EntryList.tsx:35-39 | an upper-cased query finds the same entries |
| EntryList.OfPeriod | components/EntryList.tsx:44-51 | the entries of a period are exactly the listed entries carrying it |
| EntryList.GroupStep | components/EntryList.tsx:44-51 | one more entry opens its period's group if needed and is appended to it |
| EntryList.GroupKeys | components/EntryList.tsx:44-51 | the groups are keyed by exactly the periods that occur, each key once |
| EntryList.GroupContents | components/EntryList.tsx:44-51 | a period's group holds exactly that period's entries, in order |
| EntryList.EntryInItsGroup | components/EntryList.tsx:44-51 | every entry lands in its own period's group and in no other |
| EntryList.GroupSizesSum | components/EntryList.tsx:44-51 | the group sizes add up to the number of filtered entries |
| EntryList.AddToGroup | components/EntryList.tsx:46-49 | a step of the `reduce` opens a missing group, then pushes the entry |
| EntryList.GroupByPeriod | components/EntryList.tsx:44-51 | the `reduce` loop builds the keys in first-appearance order and the groups `Grouped(entries)` |
| EntryList.NewestFirstSorted | components/EntryList.tsx:55-57 | a sorted group is newest first, holds the same entries, and keeps same-day entries in order |
| EntryList.SortGroups | components/EntryList.tsx:54-58 | the loop over the keys sorts every group newest first and keeps the key set |
| EntryList.LabelFields | components/EntryList.tsx:62-65 | a generated label splits into `Qn` and the year, and both read back as numbers |
| EntryList.CompareLabels | components/EntryList.tsx:61-66 | the comparator puts the later year first, then the higher quarter |
| EntryList.SortLabels | components/EntryList.tsx:61-66 | on well-formed labels the comparator sort is the sort by quarter rank, latest first |
| EntryList.SortedPeriodsOrder | components/EntryList.tsx:61-66 | sorted periods run from the latest year to the earliest, Q4 down to Q1 within a year, and are the same periods |
| EntryList.EarningsQuartersRank | lib/parseEntry.ts:42-46 | the generated labels are those of quarters whose rank falls by one at each step |
| EntryList.EarningsPeriodsAlreadySorted | components/EntryList.tsx:61-66 | sorting the generator's labels with the list's comparator changes nothing |
| EntryList.ListView | components/EntryList.tsx:33-66 | the shown periods are the sorted keys of the matching entries; each group holds that period's matching entries, newest first |
| EntryList.ChipsShape | components/EntryList.tsx:149-154 | a field with k commas shows k+1 chips, none containing a comma |
| EntryList.ChipsRebuild | components/EntryList.tsx:149-154 | without whitespace, the chips joined by commas give the field back |
| Sorting.Insert | components/EntryList.tsx:55-57 | insertion adds exactly one element to the multiset |
| Sorting.SortBySorted | components/EntryList.tsx:55-57 | the comparator sort orders by key, largest first |
| Sorting.SortByPermutation | components/EntryList.tsx:55-57 | the sort only reorders |
| Sorting.SortByStable | components/EntryList.tsx:55-57 | elements with equal keys keep their relative order |
| Sorting.SortBySortedUnchanged | components/EntryList.tsx:61-66 | sorting what is already in order changes nothing |
| NoteImages.MatchAt | components/EntryList.tsx:85 | a match at `i` starts at `i` and spans `![`, the alt text, `](`, the address and `)` |
| NoteImages.UpToStops | components/EntryList.tsx:85 | a greedy `[^c]` run holds no `c` and stops at `c` or the end |
| NoteImages.MatchAtSound | components/EntryList.tsx:85 | every match is an image written out, with an alt text without `]` and a non-empty address without `)` |
| NoteImages.MatchOfSyntax | components/EntryList.tsx:85 | every image written out with such captures matches there, with exactly those captures |
| NoteImages.NextMatch | components/EntryList.tsx:90 | `exec` from `lastIndex` returns a match at or after it that ends within the note |
| NoteImages.NextMatchLeftmost | components/EntryList.tsx:90 | the match found is the leftmost: none starts between `lastIndex` and it |
| NoteImages.SplitNote | components/EntryList.tsx:84-100 | the `while` loop over `exec` produces exactly the part list `Parts(note, 0)` |
| NoteImages.ImageSpan | components/EntryList.tsx:94-95 | a match covers exactly the image text it captured |
| NoteImages.RenderParts | components/EntryList.tsx:84-100 | text parts and each image's `![alt](url)` concatenated rebuild the note exactly |
| NoteImages.PartsShaped | components/EntryList.tsx:84-100 | no text part is empty, no two text parts are adjacent, and every image has captures the pattern admits |
| NoteImages.SplitRender | components/EntryList.tsx:84-100 | cutting the text of any such part list without `!` in its text gives the list back |
| NoteImages.LinesShape | components/EntryList.tsx:104-108 | a text part with n line feeds shows n+1 lines without line feeds that join back to it |
| NoteImages.AltText | components/EntryList.tsx:115 | the image's alt attribute is never empty, and is the alt text when there is one |
| EntryForm.Validate | components/EntryForm.tsx:33-51 | the checks run in order and each message is set exactly when its check is the first to fail; the form passes exactly when ticker and note are not blank and date and period are set |
| EntryForm.OrNull | components/EntryForm.tsx:66-68 | `s \|\| null` is null exactly for the empty string, else `s` |
| EntryForm.RowTicker | components/EntryForm.tsx:64 | upper-casing then trimming equals trimming then upper-casing, and gives a non-empty trimmed ticker without lower-case ASCII letters |
| EntryForm.RowOfValidForm | components/EntryForm.tsx:62-70 | the row of a valid form has ticker upper-cased and trimmed, note trimmed and non-empty, source trimmed or null exactly when blank, flag null exactly when empty, and date and period copied |
| EntryForm.Form.constructor | components/EntryForm.tsx:18-25 | every field starts empty, not loading, no error |
| EntryForm.Form.Clear | components/EntryForm.tsx:75-79 | ticker, date, source, note and flag become empty; the period is kept |
| EntryForm.Form.Submit | components/EntryForm.tsx:29-84 | the first failing check sets its message and inserts nothing, leaving `loading` as it was; with no user the login message is set and nothing is inserted; otherwise the normalised row is inserted; on success the fields but the period are cleared and `onEntryAdded` runs; on failure the fields are unchanged and the error is the insert's message; past the checks `loading` ends false |
| EntryForm.AddedFormRejected | components/EntryForm.tsx:33-36 | a cleared form fails its first check until a ticker is entered again |
| Text.TrimOfUpper | components/EntryForm.tsx:64 | `toUpperCase().trim()` equals `trim().toUpperCase()` |
| Text.TrimEmpty | components/EntryForm.tsx:33 | `!s.trim()` holds exactly when `s` is all whitespace |
| Text.SplitOnLength | components/EntryList.tsx:149 | splitting on a character yields one more piece than its occurrences |
| Text.JoinSplitOn | components/EntryList.tsx:149 | splitting on a character and joining with it gives the input back |

## Findings

| source | as written | input that shows it | evidently intended | confidence | as-written member | corrected member |
|---|---|---|---|---|---|---|
| app/api/morning-brief/route.ts:119 | the expected header is the template `Bearer ${process.env.CRON_SECRET}`, which reads `Bearer undefined` when the variable is unset | `CRON_SECRET` unset, request header `authorization: Bearer undefined` | refuse every request while no secret is configured | medium; not executed | MorningBrief.UnsetSecretAdmitsUndefined | MorningBrief.HandleSecured |

## Left out

- Network, database and authentication calls are parameters. These are the Stocktwits fetch
  (`fetch` in `Sentiment.Get`), the Microsoft Graph calls, the Supabase reads and writes, and
  the sign-in lookup. In `Sentiment.Get`, a fetch or JSON decoding that throws is the
  upstream result `Threw`. In `MorningBrief.Handle`, a Graph call that throws (token, folder
  lookup or message request) makes that folder `None`.
- `MorningBrief.Handle`: the request to the language model, its reply (including the
  `No summary generated.` fallback) and the sending of the mail are left out. Whether they
  went through without throwing is the `delivered` parameter; the handler stops at the
  portfolio and email text it would send.
- `MorningBrief.Handle`: a Supabase read that throws is not modelled; the source's
  `getPortfolioTickers` does not check the query's error, and a missing row gives no tickers.
- Parallel fetching with `Promise.all` is left out; only its three results are used.
- `Sentiment.ToTweet`: message ids are unbounded integers read exactly. The source decodes
  them as JSON numbers (doubles), so an id above 2^53 arrives rounded, and `String` writes
  ids from 1e21 up in exponent form (app/api/sentiment/route.ts:72).
- `MorningBrief.Handle`: an email's `subject` and `receivedDateTime` are taken as strings. An
  absent one, which the template would print as `undefined`, is not modelled.
- Clocks and locales are left out:
  - The current year is a parameter of `GenerateEarningsPeriods`.
  - The 24-hour mail window, `toLocaleDateString` and the mail subject date are not modelled.
- `entry_date` is an integer day. `Date` parsing of the stored text, and the NaN an
  unparseable date gives the sort, are not modelled.
- `EntryParser.ParseEntry` has no `new Date(...)` validity check. For the one-to-two-digit
  month and day and the four-digit year the pattern admits, that check never fails.
- Case mapping covers ASCII letters only. Unicode case mapping (`ß`, accented letters) is not
  modelled. Whitespace is the explicit `\s` set of `Text.IsSpace`.
- Lengths count Unicode characters, not UTF-16 code units. The 1500-character cut therefore
  differs from the source on text outside the Basic Multilingual Plane.
- `Decimal.ToNumber` reads only blank text, decimal digit strings and signed digit strings.
  Other `Number` syntaxes (hex, exponents, `Infinity`) are NaN in the model.
- `EntryList.SortPeriods` is stable insertion sort. Its properties are proved for well-formed
  `Qn YYYY` labels. For malformed labels the comparator treats NaN as "equal" and is not a
  consistent order; JavaScript then leaves the order to the engine.
- JSX rendering is left out: flags, dates, buttons, the empty-list message and the delete
  handler. So are the portfolio page's save state and its `setTimeout` status reset.
- `EntryForm.Form.Submit`: each submit runs to completion. Interleaving with a second submit
  while the first awaits is not modelled; the source's button is disabled while `loading`.
  `onEntryAdded` is the `added` result.
- The client-side sentiment page, with its own trimming ticker clean and percentage bar, is
  UI and is not part of this model.

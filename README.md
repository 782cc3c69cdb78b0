# esconsole, modelled in Dafny

esconsole is a terminal console for an Elasticsearch 1.7 cluster. It shows
the `_cat/indices` listing as a list. The user marks entries in that list,
deletes the marked indices, and creates a new index "after" the one under
the cursor. This project models the data-handling core of that console:

- **`CatIndices`** (`cat_indices.dfy`): one listing line becomes a record
  with nine optional fields.
  - A line of two tokens is a closed index: `status` and `index`.
  - Any other line is read positionally.
  - The four count columns go through `int()`. A token that `int()`
    rejects is a `MalformedField` error.
  - The record prints back as its raw line.
  - The parse is modelled twice: as a function, and as the field-setting
    loop of the constructor (`ParseLine`). The loop is proved equal to the
    function.
- **`Listing`** (`listing.dfy`): builds the list of records.
  - The dump is right-stripped, split at newlines, and every line is
    parsed (`CatIndicesResponse`).
  - The records are then ordered by `index` with Python's stable `sorted`.
  - The older console sorts raw lines by the `index` of their parse
    (`sort_indices`). It is proved to be the stable sort of the lines by
    their parsed `index`.
- **`IndexAge`** (`age.dfy`): `IndexInfo.age`.
  - The index name is matched against
    `^(\d+-\d+-\d+t\d+:\d+:\d+).(\d+z)$`.
  - The first group is read with `strptime("%Y-%m-%dt%H:%M:%S")`.
  - The age is the `.days` of `now - date`, with the proleptic Gregorian
    calendar of `datetime`.
  - `now` is a parameter.
- **`Suggestion`** (`suggest.dfy`): the proposed name for the "create
  after" action.
  - The name is split at its one `.`.
  - `rstrip("z")` and `int()` are applied to the suffix.
  - The proposal is `"%s.%03dz" % (ts, n + 1)`.
- **`Selection`** (`selection.dfy`): `MultiSelectListWidget`.
  - The marks are an array of booleans and there is a focus position.
  - `v` flips the mark under the focus and `c` clears all marks.
  - `k`/`j` (and `up`/`down`) move the focus.
  - `selected()` lists the marked labels in list order.
- **`Console`** (`console.dfy`): `IndicesListWidget`, up to the
  Elasticsearch calls it makes.
  - Construction is modelled.
  - So are the names a "yes" to the deletion prompt would delete and the
    defaults the creation popup would open with.
  - So is the digit filter and `value()` of the popup's number fields
    (`NumberEdit`).

Both versions of the console are in the repository, `esconsole.py` (older)
and `esconsole/esconsole.py` (newer). Their parser, selection, deletion and
suggestion code is the same. The model cites both.

### Python semantics

The console is Python 2 code, and the model follows Python 2.7:

- Strings are sequences of characters compared by character code, so
  `sorted` orders names byte-wise.
- `None` sorts before every string. A closed-index line has an `index`,
  but a one-token line has none.
- `strip()` removes ASCII whitespace (space and the characters 9 to 13).
- `\d` and `int()` accept ASCII digits only. `int()` takes surrounding
  whitespace and one optional sign, and whitespace may also stand between
  the sign and the digits (`int("- 5")` is `-5`).
- A Python exception is an `Err` value of a `Result` (or `None` of an
  `Option`) naming the cause.

### Behaviour worth knowing (the model follows the code)

- **Impossible dates.** A name that matches the timestamp pattern but is
  not a real date (February 30, hour 24, second 60 or 61) makes
  `strptime` or `datetime` raise. It does not give age `-1`.
  `IndexAge.Age` returns `Err(BadTime)`, and `AgeOfImpossibleDate` shows
  such a name.
- **Loose pattern.** The pattern accepts more than the layout the tests
  write, `%Y-%m-%dt%H:%M:%S.000z` (test/test_data.py:10):
  - every `\d+` accepts any number of digits;
  - the `.` accepts any character but a newline;
  - `$` also matches before a final newline.
- **Future stamps.** A stamp less than a day in the future also has age
  `-1`, because `timedelta.days` floors. A stamp further ahead is more
  negative (`AgeOfFutureStamp`).
- **Missing name.** `age` of a record without `index` (a one-token line)
  raises, because `re.match` is given `None`. The model returns
  `Err(IndexIsNone)`.
- **Unparsable line.** A line with a non-numeric count column aborts the
  whole listing (`ParseListing` returns the error of the first such line).
  The line is not skipped.
- **The age tests.** The tests in `test/test_data.py` hand `IndexInfo`
  the raw line rather than a parsed record, so `index` there is the
  string method `str.index`, and `re.match` raises `TypeError`, so the
  three tests cannot pass as written. `AgeZeroDays`,
  `AgeFiveDays` and `AgeOfPlainName` state what those tests evidently
  mean, on a parsed record, which is how `IndicesListWidget` uses
  `IndexInfo`.
- **Duplicate names.** Duplicate index names are kept, in their original
  order, next to each other.
- **Unrecognised name.** The "create after" action raises on a name
  without exactly one `.`, and on a suffix `int()` rejects. The model
  names each cause in `SuggestError`.

## Model

| member | source | states |
|---|---|---|
| CatIndices.IntHeaderPositions | esconsole/esconsole.py:57-58 | the `int()` columns are exactly positions 3 to 6 of the nine headers (`pri`, `rep`, `docs_count`, `docs_deleted`) |
| CatIndices.Store | esconsole/esconsole.py:74 | `setattr` of one header changes that field and no other |
| CatIndices.Convert | esconsole/esconsole.py:70-73 | a converted token fits the column's type and is never `None` |
| CatIndices.ConvertCases | esconsole/esconsole.py:70-73 | an integer column holds `int(token)` or fails, and any other column holds the token itself |
| CatIndices.ParseLine | esconsole/esconsole.py:55-74 | the constructor's loop (set every header to `None`, then assign in order) gives exactly the record or error of the parse function |
| CatIndices.FillFromFields | esconsole/esconsole.py:69-74 | the `zip` loop from header `k` succeeds exactly when every remaining token converts, stores each under its header and leaves the others unchanged |
| CatIndices.FillFromError | esconsole/esconsole.py:69-74 | a failing loop stops at the first token that does not convert and reports its header and token |
| CatIndices.FillSucceeds | esconsole/esconsole.py:68-74 | the positional loop from the first header succeeds exactly when every integer-column token present is a number |
| CatIndices.FillAt | esconsole/esconsole.py:63-74 | after a successful loop, header `k` holds its converted token while tokens last and stays `None` after, and the raw line is kept |
| CatIndices.FillValues | esconsole/esconsole.py:63-74 | after a successful loop each text column holds its token, each count column `int()` of its token, and every header past the last token `None` |
| CatIndices.ClosedLine | esconsole/esconsole.py:66-67 | a two-token line always parses, into `status` and `index` only, with the other seven fields `None` |
| CatIndices.PositionalLine | esconsole/esconsole.py:68-74 | any other line parses exactly when each of its integer-column tokens is a number; header `k` then holds token `k` (as an integer for the counts) and the headers past the last token stay `None` |
| CatIndices.ParseErrorIsFirstBadNumber | esconsole.py:63-72 | a parse error names the first integer column, in header order, whose token `int()` rejects |
| CatIndices.FillFromIgnoresExtra | esconsole/esconsole.py:69 | `zip` stops at nine: tokens past the ninth are never looked at |
| CatIndices.ExtraTokensIgnored | esconsole/esconsole.py:69 | appending tokens to a line of nine or more does not change its parse |
| CatIndices.ReparseRepr | esconsole/esconsole.py:76-77 | parsing the printed form (`__repr__`, the raw line) of a parsed record gives the same record back |
| CatIndices.Parse | esconsole/esconsole.py:55-74 | definition: the record `CatIndicesResponseLine(line)` builds, `ParseTokens` of the line's tokens; pinned down by `ClosedLine`, `PositionalLine`, `ParseErrorIsFirstBadNumber` and `ParseLine` |
| CatIndices.ParseTokens | esconsole/esconsole.py:66-74 | definition: two tokens are `status` and `index`, any other count is read positionally; pinned down by `ClosedLine`, `FillValues` and `NineColumns` |
| CatIndices.Tokens | esconsole/esconsole.py:65 | definition: `re.split(" +", line.strip())`; pinned down by `TokensOfGapped` and `OpenLineTokens` |
| CatIndices.Repr | esconsole/esconsole.py:76-77 | definition: `__repr__` is the raw line; `ReparseRepr` states that it parses back to the same record |
| CatIndices.TokensOfGapped | esconsole/esconsole.py:65 | `re.split(" +", line.strip())` of non-blank words separated by runs of one or more spaces, with any number of trailing spaces, gives those words back |
| CatIndices.OpenLineLayout | esconsole/esconsole.py:61 | the sample line is the nine open-index columns separated by runs of 2, 3, 3, 3, 10, 12, 7 and 11 spaces, and one trailing space |
| CatIndices.OpenLineTokens | esconsole/esconsole.py:61-65 | the sample line splits into exactly its nine columns |
| CatIndices.NineColumns | esconsole/esconsole.py:68-74 | a nine-token line whose four count tokens are numbers fills all nine fields, the sizes and names as text |
| CatIndices.OpenLineExample | esconsole/esconsole.py:61-74 | the sample open-index line, with its column padding and trailing space, parses into its nine columns, with the four counts as integers and the sizes as text |
| PyText.RStrip | esconsole/esconsole.py:85 | definition of `rstrip()`; it never lengthens the text, and `RStripShape` pins it down |
| PyText.Strip | esconsole/esconsole.py:65 | definition of `strip()`; it never lengthens the text, and `StripEnds`, `StripUnpadded` and `StripTrailingSpaces` pin it down |
| PyText.RStripShape | esconsole/esconsole.py:85 | `rstrip()` keeps a prefix, drops only whitespace, and ends in non-whitespace |
| PyText.LStripShape | esconsole/esconsole.py:65 | `lstrip()` keeps a suffix, drops only whitespace, and starts with non-whitespace |
| PyText.StripEnds | esconsole/esconsole.py:65 | a stripped line is empty or starts and ends with non-whitespace |
| PyText.StripUnpadded | esconsole/esconsole.py:65 | `strip()` leaves a text without whitespace at its ends unchanged |
| PyText.StripTrailingSpaces | esconsole/esconsole.py:61-65 | `strip()` of a non-blank text followed by spaces is that text |
| PyText.RStripChar | esconsole/esconsole.py:166 | `rstrip("z")` keeps a prefix that does not end in `z` and drops only `z`s |
| PyText.SplitOn | esconsole/esconsole.py:85 | `split(c)` gives at least one piece and no piece holds `c` |
| PyText.JoinSplit | esconsole/esconsole.py:85 | joining the pieces of `split(c)` with `c` gives the text back |
| PyText.SplitJoin | esconsole/esconsole.py:165 | splitting `c`-free pieces joined with `c` gives the pieces back |
| PyText.SplitPieceThen | esconsole/esconsole.py:165 | `(p + c + t).split(c)` is `p` followed by the pieces of `t` when `p` holds no `c` |
| PyText.SplitCount | esconsole/esconsole.py:165 | `split(c)` gives one more piece than `c` occurs |
| PyText.SplitRuns | esconsole/esconsole.py:65 | `re.split(" +", s)` gives at least one piece and no piece holds a space |
| PyText.RunsSpaces | esconsole/esconsole.py:65 | a run of any length of leading spaces gives one empty first piece |
| PyText.RunsGap | esconsole/esconsole.py:65 | `re.split(" +", p + <n spaces> + t)` is `p` followed by the pieces of `t`, for any run length `n >= 1` |
| PyText.SplitRunsGaps | esconsole/esconsole.py:65 | splitting non-empty space-free words separated by runs of one or more spaces gives the words back |
| PyText.Decimal | esconsole/esconsole.py:167 | the decimal numeral of `n`: digits only, value `n`, no leading zero |
| PyText.ZeroPadded | esconsole/esconsole.py:167 | a zero-padded numeral has at least the requested width and only digits, and one wider than the width has no leading zero unless it is `0` itself |
| PyText.ZeroPaddedValue | esconsole/esconsole.py:167 | zero-padding keeps the value |
| PyText.PyInt | esconsole/esconsole.py:71 | a value comes only from non-blank text, and a negative one only from text that starts with `-` after stripping; pinned down by `PyIntDigits`, `PyIntNegative`, `PyIntSpacedSign` and `PyIntRejects` |
| PyText.SignedDigits | esconsole/esconsole.py:71 | the stripped text `int()` accepts: a value only from non-empty text, and a negative one only from text that starts with `-` |
| PyText.PyIntDigits | esconsole/esconsole.py:71 | `int()` of a non-empty run of digits is its decimal value |
| PyText.PyIntNegative | esconsole/esconsole.py:166 | `int()` of `-` and digits is minus their value |
| PyText.PyIntSpacedSign | esconsole/esconsole.py:166 | `int()` of `-`, any number of spaces, and digits is minus their value |
| PyText.PyIntRejects | esconsole/esconsole.py:71 | `int()` raises on a text holding a character that is not a digit, whitespace or sign |
| PyText.LexLeTotal | esconsole/esconsole.py:88 | string order is total |
| PyText.LexLeTrans | esconsole/esconsole.py:88 | string order is transitive |
| PyText.LexLeAntisym | esconsole/esconsole.py:88 | string order is antisymmetric |
| Listing.KeyLe | esconsole/esconsole.py:88 | definition of Python 2's `<=` on `index` keys, `None` first; `KeyLeTotal`, `KeyLeTrans` and `KeyLeAntisym` make it a total order |
| Listing.KeyLeTotal | esconsole/esconsole.py:88 | the order on `index` keys (`None` first) is total |
| Listing.KeyLeTrans | esconsole/esconsole.py:88 | the order on `index` keys is transitive |
| Listing.KeyLeAntisym | esconsole/esconsole.py:88 | the order on `index` keys is antisymmetric |
| Listing.Insert | esconsole/esconsole.py:88 | inserting adds exactly one element |
| Listing.SortBy | esconsole/esconsole.py:88 | `sorted` is a permutation of its input |
| Listing.InsertSorted | esconsole/esconsole.py:88 | inserting into a sorted list keeps it sorted |
| Listing.SortBySorted | esconsole/esconsole.py:88 | the result of `sorted(..., key=...)` is ordered by the key |
| Listing.InsertWithKey | esconsole/esconsole.py:88 | insertion places an element after every element of equal key |
| Listing.SortByStable | esconsole/esconsole.py:88 | `sorted` is stable: the elements of each key keep their input order |
| Listing.DumpLines | esconsole/esconsole.py:85 | the lines of the right-stripped dump hold no newline and join back into it |
| Listing.ParseAll | esconsole/esconsole.py:85-86 | definition: every line parsed in order, stopping at the first error; pinned down by `MapAllOk` and `MapAllError` |
| Listing.MapAllOk | esconsole/esconsole.py:86 | parsing every line succeeds exactly when each line parses, and then gives each line's record in order |
| Listing.MapAllError | esconsole/esconsole.py:85-86 | a failing build reports the error of the first line that does not parse |
| Listing.MapAllPrefixError | esconsole/esconsole.py:85-86 | once a prefix fails, the whole list fails with the same error |
| Listing.ParseEach | esconsole/esconsole.py:85-86 | the loop that builds one record per line gives exactly what parsing every line gives: all records in line order, or the error of the first line that fails |
| Listing.ParseListing | esconsole/esconsole.py:81-88 | the constructor's loop succeeds exactly when every line parses, and otherwise reports the first failing line's error; on success the records are ordered by `index`, are a permutation of the parsed lines, and keep the input order within each `index` |
| Listing.InsertFirsts | esconsole.py:84-90 | inserting a `(line, index)` pair and dropping the keys is inserting the line by its `index` |
| Listing.KeyedByPermutation | esconsole.py:86-88 | a permutation of `(line, index)` pairs still pairs each line with its own `index` |
| Listing.SortPairsIsSortFirsts | esconsole.py:84-90 | sorting the pairs by their second element and keeping the lines is sorting the lines by their `index` |
| Listing.PairWithNames | esconsole.py:85-87 | the pairing loop fails exactly when parsing every line fails, with the same error; otherwise it pairs each line, in order, with the `index` of its own record |
| Listing.PairsSortLikeLines | esconsole.py:86-90 | sorting the built pairs on the name and keeping the lines gives the lines sorted by their `index` |
| Listing.SortIndices | esconsole.py:84-90 | `sort_indices` succeeds exactly when every line parses; its result is ordered by each line's `index`, and the lines of each `index` keep their input order |
| IndexAge.DaysInMonth | esconsole/esconsole.py:109 | months have 28 to 31 days, and February has 29 exactly in leap years |
| IndexAge.DaysBetween | esconsole/esconsole.py:110-111 | `(now - date).days` is the floor of the difference in whole days |
| IndexAge.YearLength | esconsole/esconsole.py:110 | a leap year has 366 days and any other year 365 |
| IndexAge.MonthsOfYear | esconsole/esconsole.py:110 | the month lengths of a year add up to its length |
| IndexAge.Ordinal | esconsole/esconsole.py:110 | definition: `date.toordinal()`, days since 1 January of year 1 counting it as day 1; `OrdinalPositive`, `MonthsOfYear` and `PrevDay` pin it down |
| IndexAge.Instant | esconsole/esconsole.py:110-111 | definition: microseconds since the proleptic epoch; `InstantDaysBack` and `DaysBetween` pin it down |
| IndexAge.OrdinalPositive | esconsole/esconsole.py:110 | every valid date lies on or after day 1 |
| IndexAge.PrevDay | test/test_data.py:17-19 | the day before is a valid date one ordinal day earlier, at the same time of day |
| IndexAge.DaysBack | test/test_data.py:17-19 | `now - timedelta(days=k)` is valid, `k` ordinal days earlier, at the same time of day |
| IndexAge.LeadingDigits | esconsole/esconsole.py:104 | the digit run that starts a text is maximal |
| IndexAge.TrailingDigits | esconsole/esconsole.py:104 | the digit run that ends a text is maximal |
| IndexAge.Spells | esconsole/esconsole.py:104 | definition: a name is six digit runs separated by `-`, `-`, `t`, `:` and `:`, then one character other than a newline, a digit run, `z`, and an optional final newline; `MatchSound` and `MatchComplete` tie it to the matcher |
| IndexAge.MatchStamp | esconsole/esconsole.py:104 | a match yields six non-empty digit runs |
| IndexAge.FieldOf | esconsole/esconsole.py:104 | `\d+` followed by a separator takes exactly the digit run before it |
| IndexAge.SecondsRunOf | esconsole/esconsole.py:104 | the greedy seconds group keeps the longest digit run that still leaves one character and a digit before `z` |
| IndexAge.MatchSound | esconsole/esconsole.py:104 | every name the matcher accepts spells the pattern with the returned runs |
| IndexAge.MatchComplete | esconsole/esconsole.py:104 | every name that spells the pattern is accepted, with the same first five runs, and the seconds run exact when the character after it is not a digit |
| IndexAge.StrpTime | esconsole/esconsole.py:109 | an accepted stamp is a valid `datetime` with no microseconds whose fields are the digits' values |
| IndexAge.StrpTimeAccepts | esconsole/esconsole.py:109 | the converse: fields of the widths the directives accept that name a real date and time are read as exactly that time |
| IndexAge.StrpTimeUnpadded | esconsole/esconsole.py:109 | `2015-1-5t1:2:3` is accepted as 5 January 2015, 01:02:03 |
| IndexAge.DigitsBound | esconsole/esconsole.py:109 | a `k`-digit numeral is below `10^k` |
| IndexAge.Age | esconsole/esconsole.py:102-111 | `age` raises `TypeError` (`IndexIsNone`) exactly when `index` is `None`, and a `strptime` error (`BadTime`) carries the matched stamp |
| IndexAge.AgeWithoutStamp | esconsole/esconsole.py:104-106 | a name that does not spell the pattern has age `-1` |
| IndexAge.AgeWithStamp | esconsole/esconsole.py:104-111 | a name that spells the pattern has the floor-days age of its stamp, or a date error |
| IndexAge.StampOfFields | test/test_data.py:10 | the written fields of `strftime` have the widths and values the `strptime` directives read |
| IndexAge.StrpTimeOfStamp | esconsole/esconsole.py:109 | `strptime` reads the written fields back as the written time, without microseconds |
| IndexAge.StampName | test/test_data.py:10 | definition: the index name `strftime("%Y-%m-%dt%H:%M:%S.000z")` writes; `StampNameMatches` and `StampNameRoundTrip` pin it down |
| IndexAge.StampNameMatches | esconsole/esconsole.py:104 | the matcher splits a written name back into its written fields |
| IndexAge.DottedMatches | esconsole/esconsole.py:104 | digit runs written with a `.` and `000z` after the seconds are matched back as exactly those runs |
| IndexAge.StampNameRoundTrip | esconsole/esconsole.py:104-109 | matching and `strptime` of a written name give back the written time |
| IndexAge.AgeOfStampName | esconsole/esconsole.py:102-111 | the age of a written name is the whole days from its time to `now` |
| IndexAge.InstantDaysBack | test/test_data.py:17-19 | a time `k` calendar days back lies exactly `k` whole days before |
| IndexAge.AgeOfDaysBack | test/test_data.py:15-21 | a name written `k` days before `now` is `k` days old |
| IndexAge.AgeZeroDays | test/test_data.py:8-12 | on a parsed record, a name written at `now` is 0 days old |
| IndexAge.AgeFiveDays | test/test_data.py:15-21 | on a parsed record, a name written 5 days before `now` is 5 days old |
| IndexAge.AgeOfFutureStamp | esconsole/esconsole.py:110-111 | a stamp later than `now` has a negative age |
| IndexAge.AgeOfPlainName | test/test_data.py:25-29 | on a parsed record, `some_random_index_name` has age `-1` |
| IndexAge.AgeOfImpossibleDate | esconsole/esconsole.py:109 | a stamp of February 30 matches but makes `strptime` raise |
| IndexAge.AgeOfBadStamp | esconsole/esconsole.py:104-109 | a name in the written layout whose fields are no date makes `age` raise, carrying those fields |
| Suggestion.Format03 | esconsole/esconsole.py:167 | `%03d` writes at least three characters, all digits, or a minus sign then digits; a rendering wider than three has no padding zero, after the sign or at the front |
| Suggestion.Format03Value | esconsole/esconsole.py:166-167 | `int()` reads `%03d` of `n` back as `n` |
| Suggestion.NextName | esconsole/esconsole.py:165-167 | the proposal fails only on a name that does not split in two, or on a suffix `int()` rejects |
| Suggestion.SuggestFor | esconsole/esconsole.py:160-169 | a proposal comes from a line that parses; it follows that line's `index`, is that name's proposal, and defaults to its `pri` and `rep` |
| Suggestion.OneDot | esconsole/esconsole.py:165 | a name with one `.` is the prefix, the `.` and the suffix, neither holding a `.` |
| Suggestion.NextNameFails | esconsole.py:125-127 | the proposal fails exactly when the name does not hold exactly one `.` or `int()` rejects its stripped suffix; it fails on the split exactly in the first case |
| Suggestion.NextNameOf | esconsole/esconsole.py:165-167 | `ts.<suffix>` whose suffix reads as `n` becomes `ts.<n+1 as %03d>z` |
| Suggestion.WrittenSuffix | esconsole/esconsole.py:166-167 | a written suffix holds no `.`, loses exactly its `z`, and reads back as its number |
| Suggestion.ProposalParts | esconsole/esconsole.py:165-167 | a proposal holds one `.` and splits into the prefix and the written suffix |
| Suggestion.NextNameReadsBack | esconsole/esconsole.py:165-167 | the proposal keeps the prefix and its suffix reads as the old number plus one |
| Suggestion.NextNameTwice | esconsole/esconsole.py:165-167 | the proposal of the proposal adds two |
| Suggestion.NextAfterZero | esconsole/esconsole.py:165-167 | `ts.000z` is followed by `ts.001z` |
| Suggestion.NextAfterNines | esconsole/esconsole.py:165-167 | `ts.999z` is followed by `ts.1000z`: the width grows past three |
| Suggestion.NoProposalWithoutOneDot | esconsole/esconsole.py:165 | a name without exactly one `.` gets no proposal |
| Selection.Marked | esconsole/esconsole.py:24-29 | definition: the entries whose mark is set, in list order; `MarkedAtPositions`, `MarkedCount` and `MarkedFlip` pin it down |
| Selection.MarkedPositions | esconsole/esconsole.py:24-29 | marked positions lie inside the list |
| Selection.MarkedAtPositions | esconsole/esconsole.py:24-29 | the selection is the entries at the marked positions, in strictly increasing order, and a position is among them exactly when its mark is set |
| Selection.MarkedAtPositionsValues | esconsole/esconsole.py:24-29 | the selection holds, in order, the labels at the marked positions, one per position |
| Selection.PositionsIncrease | esconsole/esconsole.py:24-29 | the marked positions are visited in strictly increasing order |
| Selection.PositionsExact | esconsole/esconsole.py:24-29 | a position is among the marked positions exactly when its mark is set |
| Selection.MarkedCount | esconsole/esconsole.py:143-144 | as many entries are selected as marks are set |
| Selection.NoneMarked | esconsole/esconsole.py:41-44 | with no mark set nothing is selected |
| Selection.MarkedAppend | esconsole/esconsole.py:24-29 | the selection of a list cut in two is the selection of each part |
| Selection.MarkedFlip | esconsole/esconsole.py:35-40 | flipping one mark adds or removes exactly that entry, between the entries selected before and after it |
| Selection.MultiSelectList.constructor | esconsole/esconsole.py:16-22 | the list shows the given labels with nothing marked and the focus on the first |
| Selection.MultiSelectList.Selected | esconsole/esconsole.py:24-29 | the loop collects exactly the marked labels, in list order |
| Selection.MultiSelectList.ItemUnderCursor | esconsole/esconsole.py:31-32 | the label under the focus, and nothing exactly when the list is empty |
| Selection.MultiSelectList.Toggle | esconsole/esconsole.py:35-40 | `v` flips the focused mark and no other |
| Selection.MultiSelectList.ClearAll | esconsole/esconsole.py:41-44 | `c` clears every mark |
| Selection.MultiSelectList.MoveUp | esconsole/esconsole.py:47-48 | `k` moves the focus up one entry, stopping at the first |
| Selection.MultiSelectList.MoveDown | esconsole/esconsole.py:49-50 | `j` moves the focus down one entry, stopping at the last |
| Selection.MultiSelectList.Keypress | esconsole/esconsole.py:34-52 | `v` flips the focused mark only and fails on an empty list; `c` leaves nothing selected; `k`/`up` and `j`/`down` move the focus one entry, stopping at the ends; every other key changes neither marks nor focus |
| Selection.MultiSelectList.ToggleTwice | esconsole/esconsole.py:35-40 | pressing `v` twice restores every mark |
| Console.Labels | esconsole/esconsole.py:127 | one label per record |
| Console.ParsedRecordsReparse | esconsole/esconsole.py:126-129 | every record of a parsed listing reads back from its label |
| Console.DeletionNames | esconsole/esconsole.py:150-152 | definition: parse every selected line and take its `index`, stopping at the first line that does not parse; `DeletionOfLabels` and `DeletedAreMarked` pin it down |
| Console.DeletionOfLabels | esconsole/esconsole.py:150-152 | the names deleted for the labels of records are those records' `index` fields, in order |
| Console.MarkedLabels | esconsole/esconsole.py:127-129 | the selected labels are the labels of the marked records |
| Console.MarkedReparse | esconsole/esconsole.py:150 | every marked record reads back from its label |
| Console.DeletedAreMarked | esconsole/esconsole.py:146-155 | a "yes" deletes exactly the `index` of each marked record, in list order |
| Console.SuggestForRecord | esconsole/esconsole.py:160-169 | the proposal for a record's label: none when `index` is `None`, otherwise that name's proposal with the record's `pri` and `rep` |
| Console.DefaultText | esconsole/esconsole.py:189-190 | `str(default)` is `None` for no value, otherwise the numeral of the number with its sign |
| Console.ValidChar | esconsole/esconsole.py:192-193 | definition: membership in the ten digit strings; `ValidCharIsDigit` restates it as one ASCII digit |
| Console.NumberValue | esconsole/esconsole.py:195-196 | definition: `int()` of the field's text; `TypedTextValue` and `DefaultValue` pin it down |
| Console.ValidCharIsDigit | esconsole/esconsole.py:192-193 | a typed character is accepted exactly when it is one ASCII digit |
| Console.TypedTextValue | esconsole/esconsole.py:192-196 | text typed through the filter reads as its decimal value, and `value()` raises on the empty field |
| Console.DefaultValue | esconsole/esconsole.py:189-196 | an untouched field reads back its default number, and raises for a `None` default |
| Console.Submit | esconsole/esconsole.py:236-237 | the popup hands over the name and the two numbers exactly when both fields read as numbers, whether or not it was cancelled |
| Console.SubmitDefaults | esconsole/esconsole.py:200-205 | a popup closed untouched submits the proposed name with the record's `pri` and `rep`, and only when both are present |
| Console.IndicesList.constructor | esconsole/esconsole.py:127-129 | the list shows each record's raw line, nothing marked, the focus first |
| Console.IndicesList.DeleteSelectedAnswer | esconsole/esconsole.py:146-155 | anything but `y` deletes nothing; `y` parses every selected line and names the `index` of each, or stops at the first line that does not parse |
| Console.IndicesList.AppendSuggestion | esconsole/esconsole.py:157-169 | an empty list has no entry under the focus; otherwise the focused record's proposal, defaulting to its `pri` and `rep`, and `NoIndexName` when it has no `index` |
| Console.IndicesList.Open | esconsole/esconsole.py:123-130 | the widget exists exactly when every line parses, and otherwise the first failing line's error; its records are sorted by `index`, are the parsed lines, and keep the input order within each `index`; nothing is marked, and the focus is first |

## Left out

- The urwid user interface is not modelled: widgets, attribute maps, overlays, popups, the help screen, the yes/no prompt and the main loop. The marks, the focus and the keys above stand in for them.
- Focus moves other than `k`/`j`/`up`/`down` are not modelled (page up, page down, home, end, mouse). They are urwid `ListBox` behaviour, which is foreign code.
- The health display and its polling thread are not modelled (concurrency and the network).
- The Elasticsearch client calls are not modelled: `cat.indices`, `indices.delete`, `indices.create` and `cluster.health`. The listing text comes in as a parameter, and the deletion and creation actions stop at the arguments they would pass.
- `create_index` and `refresh` are not modelled, because they only call the client and rebuild the screen.
- The current time is a parameter `now` of `IndexAge.Age` rather than `datetime.now()`.
- The older console's `help` and key routing (`D`, `A`) are not modelled beyond the two actions they trigger.
- PyText.PyInt: does not accept underscores, non-ASCII digits or non-ASCII whitespace, since Python 2's `int()` on a byte string does not either.
- IndexAge.StampName: pads every year to four digits. Python 2's `strftime` raises for years before 1900, which is not modelled.
- Console.IndicesList.AppendSuggestion: stops at the values the popup is opened with. The popup's editing of the name field is free text and is not modelled.
- Selection.MultiSelectList.Keypress: keys other than `v`, `c`, `k`, `j`, `up` and `down` leave marks and focus unchanged. urwid's `ListBox` moves the focus for some of them (page up, page down, home, end), which is not modelled. The `AttributeError` of `v` on an empty list is `ok == false`.

# flyhigh fare-observation pipeline, in Dafny

This project models the scraper of `flyhigh.py` as the code is written. It
builds the Google Flights search address for ARN to FRA in SEK for one
departure date. It reads the result items of that page into flight records
(`parsePrice`, `parseTimes`, `parseFlights`). It appends those records to the
`flights` table of an SQLite file (`connectDB`, `writeFlights`). It walks the
season 2019-04-01 to 2019-09-30 one day at a time (`main`). The project also
models `reduceLabels`, the loop of the two exploration scripts that leaves
every twentieth tick label of a plot visible.

Modules, one per concern of the program:

- `Wrappers`: `Option` and `Result`, which stand for Python's `None` and for
  raised exceptions.
- `Text`: the Python string built-ins the scraper uses. These are
  `str.split()` with and without a separator, `str.strip()`, `str.isdigit()`
  on ASCII digits and `int()` of a digit string; and the decimal digits of a
  number as `strftime` writes a date's fields.
- `Calendar`: the proleptic Gregorian dates of `datetime`, adding one day,
  comparison, `strftime('%Y-%m-%d')` as glibc writes it (a year below 1000
  without leading zeros), and `strptime` with `'%Y-%m-%d'` and
  `'%Y-%m-%d-%H:%M'`.
- `Query`: `buildQueryURL` and a parser that recovers its four arguments.
- `Extract`: `parsePrice`, `parseTimes`, the record built for one result
  item, and the generator loop of `parseFlights`. A separately named variant
  with overnight rollover is included. The pipeline does not use it.
- `Store`: the `flights` table as a class. It holds the row sequence, the
  AUTOINCREMENT counter, and the committed state that a rollback returns to.
- `Driver`: `main`'s loop over the season, with the browser and
  `datetime.now()` as parameters.
- `TickLabels`, `ExploreNotebook`, `ExploreScript`: the tick labels, and
  `reduceLabels` as `analysis/python/explore.py` and `analysis/explore.py`
  write it.

In four places the code does not do what the pipeline is meant to do. The
model follows the code.

- An overnight flight is meant to arrive the next day, but arrival times are
  not rolled over. Such a flight is stored arriving before it departs
  (`Extract.ArrivalBeforeDeparture`). The rollover exists only as
  `Extract.WithRollover`, named apart.
- A result item whose price text holds no digit at all, or that has no price
  element, is meant to be kept with an unknown price. Instead `int('')`
  raises `ValueError`, and a missing element raises `AttributeError`
  (`Extract.Error.MissingPrice`).
- The price is meant to be read from every digit of the price text, with
  all other characters dropped: "1,500 kr" is meant to give 1500 and "kr500"
  500. Instead a token that is not all digits is dropped whole
  (`Extract.PriceDropsMixedToken`). "1,500 kr" and "kr500" then raise
  (`Extract.PriceWithSeparatorComma`, `Extract.PriceOfWord`), and
  "1 500,50 kr" gives 1.
- One bad result item is meant to be skipped while the others are stored.
  Instead it raises out of the generator. The `with db:` block then rolls
  back the rows already inserted for that date, and the exception ends
  `main`, so later dates are not visited.

## Model

| member | source | states |
|---|---|---|
| Text.Numeral | flyhigh.py:29 | `int()` of a string of k digits is below 10^k |
| Text.IsNumeral | flyhigh.py:29 | `str.isdigit()`: at least one character, and every character an ASCII digit; Text.NumeralNoSpace shows such a token holds no whitespace |
| Text.Decimal | flyhigh.py:79 | the digits strftime writes for a year form a non-empty digit string of one digit exactly when n < 10; Text.NumeralOfDecimal is its inverse |
| Text.DecimalLengthAbove | flyhigh.py:79 | a number of at least 10^w is written with more than w digits |
| Text.DecimalOfFourDigits | flyhigh.py:79 | a year from 1000 to 9999 is written with exactly four digits, so unpadded and zero-padded writing agree |
| Text.Padded | flyhigh.py:79 | `%m` and `%d` write a digit string of exactly the width when the number has fewer digits, and the plain digits otherwise; Text.NumeralOfPadded reads the number back |
| Text.NumeralNoSpace | flyhigh.py:29 | a digit string holds no whitespace, so `split()` keeps it whole |
| Text.NumeralOfDecimal | flyhigh.py:79 | `int()` reads back the digits written for n |
| Text.NumeralAppend | flyhigh.py:29 | the value of two joined digit strings is the first times 10^(length of the second) plus the second |
| Text.NumeralOfPadded | flyhigh.py:79 | `int()` ignores the leading zeros strftime pads with |
| Text.Strip | flyhigh.py:32 | `strip()` never lengthens a text, and its result neither starts nor ends with whitespace |
| Text.StripSurrounded | flyhigh.py:32 | `strip()` removes exactly the whitespace around a text that neither starts nor ends with whitespace |
| Text.StripOneSpace | flyhigh.py:32 | one whitespace character before or after a text without outer whitespace is stripped off |
| Text.TrimStartDropsSpace | flyhigh.py:32 | what `strip()` drops at the front is whitespace, and what it keeps is a suffix |
| Text.TrimEndDropsSpace | flyhigh.py:32 | what `strip()` drops at the end is whitespace, and what it keeps is a prefix |
| Text.Words | flyhigh.py:29 | `split()` without a separator yields only non-empty tokens free of whitespace |
| Text.WordsCons | flyhigh.py:29 | a token followed by whitespace is split off as one token, ahead of the tokens of the rest |
| Text.WordsOfTwo | flyhigh.py:29 | two tokens separated by one whitespace character split into exactly those two |
| Text.WordsOfThree | flyhigh.py:29 | three tokens separated by single whitespace characters split into exactly those three |
| Text.SplitOn | flyhigh.py:32 | `split(sep)` yields at least one piece, and no piece holds the separator |
| Text.JoinOfSplit | flyhigh.py:32 | joining the pieces of `split(sep)` with sep gives the text back |
| Text.SplitOfJoin | flyhigh.py:32 | splitting a join of separator-free pieces gives the pieces back |
| Calendar.DaysInMonth | flyhigh.py:88 | month lengths lie between 28 and 31 |
| Calendar.DayNumberOrder | flyhigh.py:78 | the ordinal day number orders valid dates as Python's `<` does, and is one-to-one |
| Calendar.NotAfter | flyhigh.py:78 | Python's `<=` on dates holds exactly when the second date is not before the first |
| Calendar.DaysBeforeYearStep | flyhigh.py:88 | the days before year y + 1 are those before year y plus the length of year y |
| Calendar.LeapIndicators | flyhigh.py:88 | a year has 365 days, plus one for a multiple of 4, minus one for a multiple of 100, plus one for a multiple of 400 |
| Calendar.NextDay | flyhigh.py:88 | adding one day gives a valid date after the old one |
| Calendar.NextDayNumber | flyhigh.py:88 | adding one day adds one to the ordinal |
| Calendar.NextDayIsSuccessor | flyhigh.py:88 | no valid date lies strictly between a date and the next day |
| Calendar.DateRange | flyhigh.py:77-88 | the dates walked are empty exactly when the last date is before the first, and otherwise start at the first |
| Calendar.DateRangeStep | flyhigh.py:77-88 | a date not after the last one is followed in the range by the range from the next day |
| Calendar.DateRangeSteps | flyhigh.py:77-88 | the range starts at the first date, stays within the bounds, and each date is followed by the next day |
| Calendar.DateRangeLength | flyhigh.py:77-88 | a range holds last minus first plus one dates, counted as ordinals |
| Calendar.DateRangeAscending | flyhigh.py:77-88 | the dates of the range are strictly ascending, so none repeats |
| Calendar.DateRangeComplete | flyhigh.py:77-88 | a valid date is in the range exactly when it lies between first and last |
| Calendar.FormatDate | flyhigh.py:79 | `strftime('%Y-%m-%d')` writes ten characters with '-' at positions 4 and 7 for a year from 1000 on, and fewer than ten, with the year's '-' six from the end, for an earlier year; Calendar.ParseDateOfFormat says when `strptime` reads it back |
| Calendar.YearDigits | flyhigh.py:79 | a valid year is written with four digits from 1000 on and with at most three before |
| Calendar.ShortYearFields | flyhigh.py:39 | a date written with a year below 1000 does not match `'%Y-%m-%d'`, whatever follows it |
| Calendar.NumberField | flyhigh.py:32 | a one- or two-digit strptime field is read only with its value in the allowed bounds |
| Calendar.DayField | flyhigh.py:39 | `strptime`'s `%d`, including a space followed by one non-zero digit, yields only a day from 1 to 31 |
| Calendar.ParseClock | flyhigh.py:32 | `%H:%M` yields an hour in 0..23 and a minute in 0..59 |
| Calendar.ParseDate | flyhigh.py:39 | `strptime(s, '%Y-%m-%d')` only yields valid dates |
| Calendar.ParseStamp | flyhigh.py:32 | `strptime(s, '%Y-%m-%d-%H:%M')` only yields valid date-times |
| Calendar.YearOfPadded | flyhigh.py:79 | a four-digit zero-padded year followed by '-' reads back as that year, with the rest after the '-' |
| Calendar.DayFieldOfPadded | flyhigh.py:79 | a zero-padded day followed by a non-digit reads back as that day |
| Calendar.ParseDateOfFormat | flyhigh.py:76-79 | `strptime` with `'%Y-%m-%d'` reads back every date `strftime` writes with a year from 1000 on, and raises for an earlier year |
| Calendar.ParseStampOfFormat | flyhigh.py:32 | a formatted date joined by '-' to a clock text parses to that date at that clock time, and fails exactly when the clock text does or the year is below 1000 |
| Calendar.ParseClockOfText | flyhigh.py:32 | "HH:MM" reads back as (HH, MM) exactly when it is a time of day |
| Query.BuildQueryURL | flyhigh.py:13-16 | the address starts with the fixed prefix, ends with the five fixed options, and is as long as the template with the four values filled in; Query.ParseOfBuild inverts it |
| Query.OptionsText | flyhigh.py:14 | the five trailing options joined by ';' are the template's text after "c:{currency}" and its ';' |
| Query.RouteText | flyhigh.py:14 | "{fr}.{to}.{date}" is the '.'-join of the three values |
| Query.PartsText | flyhigh.py:14 | the route, the currency option and the trailing options joined by ';' are the template's text after its prefix |
| Query.URLShape | flyhigh.py:13-16 | the address is the fixed prefix, then "fr.to.date", then "c:currency" and the five fixed options, all separated by ';' |
| Query.ParseQueryURL | flyhigh.py:13-16 | whatever the parser recovers from an address holds no separator that would make it ambiguous |
| Query.ParseOfBuild | flyhigh.py:13-16 | when fr, to and date hold no '.' or ';' and currency holds no ';', all four are recovered from the address |
| Query.BuildOfParse | flyhigh.py:13-16 | the parser accepts nothing except addresses the template builds |
| Extract.DigitTokens | flyhigh.py:29 | every token kept is all digits, every all-digit token is kept, and no more tokens come out than went in |
| Extract.DigitTokensAppend | flyhigh.py:29 | filtering two token lists one after the other gives the filtered first followed by the filtered second, so the order is kept |
| Extract.JoinDigitsAppend | flyhigh.py:29 | joining two lists of digit tokens gives the join of the first followed by the join of the second |
| Extract.ParsePrice | flyhigh.py:28-29 | `parsePrice` fails exactly when no token is all digits |
| Extract.LeadingDigits | flyhigh.py:29 | the digits of a text that starts with an all-digit token and whitespace are that token followed by the digits of the rest |
| Extract.PriceOfLeadingNumeral | flyhigh.py:29 | a leading all-digit token is kept in front: the price is the value of that token followed by the digits of the rest |
| Extract.JoinDigits | flyhigh.py:29 | joining all-digit tokens gives a digit string that is empty only when there are no tokens |
| Extract.PriceSucceeds | flyhigh.py:29 | `parsePrice` succeeds exactly when some whitespace-separated token is made only of digits |
| Extract.DigitTokensEmpty | flyhigh.py:29 | no token is kept exactly when no token is all digits |
| Extract.PriceOfAmount | flyhigh.py:29 | an amount followed by whitespace and a unit reads as the amount |
| Extract.PriceOfTwoTokens | flyhigh.py:29 | two all-digit tokens and a unit read as the value of the two tokens concatenated in order |
| Extract.GroupedValue | flyhigh.py:29 | a number and a three-digit zero-padded group, joined, read as the number times 1000 plus the group |
| Extract.PriceOfGroupedAmount | flyhigh.py:29 | an amount with a whitespace thousands separator reads as the whole amount |
| Extract.PriceExample | flyhigh.py:29 | "1 500 kr" gives 1500 |
| Extract.PriceDropsMixedToken | flyhigh.py:29 | a token that mixes digits with other characters contributes nothing |
| Extract.PriceWithSeparatorComma | flyhigh.py:29 | "1,500 kr" is an error, not 0 |
| Extract.PriceOfWord | flyhigh.py:29 | a single token that is not all digits ("kr500") is an error |
| Extract.MapAll | flyhigh.py:32 | a comprehension that succeeds has one result per element |
| Extract.ParseTimes | flyhigh.py:31-32 | `parseTimes` that succeeds gives one timestamp per en-dash-separated piece |
| Extract.MapAllMeaning | flyhigh.py:32 | the comprehension succeeds exactly when every call does, and then holds each call's result at that call's position |
| Extract.MapAllAgree | flyhigh.py:32 | two calls that agree on every element give the same comprehension |
| Extract.TimesOnSearchedDate | flyhigh.py:31-32 | on a date from year 1000 on that the driver formats, each piece is read as a clock time placed on that date |
| Extract.TimesOnShortYear | flyhigh.py:31-32 | on a date before year 1000, `parseTimes` raises whatever the times text is |
| Extract.TimesKeepSearchedDate | flyhigh.py:31-32 | on a date from year 1000 on, `parseTimes` succeeds exactly when every en-dash-separated piece is a valid clock time; it then gives one timestamp per piece, in order, each on the searched date |
| Extract.TimesOfTwoPieces | flyhigh.py:31-32 | two pieces that are clock times give the two timestamps on the searched date, from year 1000 on |
| Extract.SplitRange | flyhigh.py:32 | splitting "A – B" at the en dash gives "A " and " B" |
| Extract.RangePieces | flyhigh.py:32 | "A – B" splits into two pieces that strip to A and B |
| Extract.TimesOfRange | flyhigh.py:31-32 | "HH1:MM1 – HH2:MM2" gives both times on the searched date, from year 1000 on |
| Extract.Assemble | flyhigh.py:36-45 | an item without times fails first with that error; a record that is built has the first two parsed times, the searched date at midnight, `data-fp`, the duration, the value of the price and the given now |
| Extract.Record | flyhigh.py:37-45 | a record copies `data-fp` and the duration verbatim, takes the first two parsed times, sets flightDate to the searched date at midnight, holds the parsed price and the given now |
| Extract.RecordSucceeds | flyhigh.py:37-45 | the dict is built exactly when flightId, duration and price are present, at least two times and the date parsed, and the price has an all-digit token |
| Extract.AssembleSucceeds | flyhigh.py:36-45 | an item yields a record exactly when every element and attribute is present, the times parse to at least two, the date parses and the price has an all-digit token |
| Extract.AssembleOnShortYear | flyhigh.py:36-39 | on a date before year 1000, every item with times fails with the bad-time error |
| Extract.AssembleOnSearchedDate | flyhigh.py:36-39 | on a date from year 1000 on that the driver formats, the date parses back and the times are clock times placed on that date |
| Extract.RecordWithDate | flyhigh.py:39 | a record built from a parsed date never fails with the bad-date error |
| Extract.NoBadDateOnSearchedDate | flyhigh.py:39 | on a date the driver formats, the bad-date error cannot arise |
| Extract.RecordOfStamps | flyhigh.py:40-41 | departure and arrival come from the first two pieces, placed on the searched date |
| Extract.RecordOnSearchedDate | flyhigh.py:36-41 | a record's flightDate is the searched date at midnight, and departure and arrival are the first two clock times, both on that date |
| Extract.RecordOfComplete | flyhigh.py:37-45 | an item with every part present and a price that parses becomes the record of its first two times, the date at midnight, the price's value and the given now |
| Extract.AssembleOfRange | flyhigh.py:36-45 | from year 1000 on, an item with times "HH1:MM1 – HH2:MM2" becomes the flight departing at HH1:MM1 and arriving at HH2:MM2, both on the searched date |
| Extract.OvernightArrivesEarlier | flyhigh.py:36-45 | as written, from year 1000 on, an item whose arrival clock time is earlier than its departure clock time becomes a record with both times on the searched date, so it arrives before it departs |
| Extract.ArrivalBeforeDeparture | flyhigh.py:32 | as written, from year 1000 on, "23:50 – 00:20" is stored arriving before it departs |
| Extract.Harvest | flyhigh.py:35-45 | the generator yields no more records than there are items, and all of them when no item raises |
| Extract.FlightStep | flyhigh.py:36-44 | the loop body on the i-th item stamps its record with the clock reading taken when that item is reached |
| Extract.HarvestYields | flyhigh.py:35-45 | the generator yields one record per item, in document order, until the first item that raises, whose error ends it |
| Extract.HarvestStops | flyhigh.py:35-45 | once an item has raised, later items change nothing |
| Extract.ParseFlights | flyhigh.py:35-45 | the loop yields exactly what the generator specification gives |
| Extract.WithRollover | flyhigh.py:40-41 | the corrected variant changes nothing but the arrival's date, which stays or moves to the next day |
| Extract.RolloverOrders | flyhigh.py:40-41 | the corrected variant moves the arrival to the next day exactly when its clock time is earlier than the departure's, so the arrival never precedes the departure |
| Extract.RolloverOrdersArrival | flyhigh.py:40-41 | for a record departing at HH1:MM1 and arriving at HH2:MM2 on the searched date, the corrected variant keeps the departure and arrives at HH2:MM2 on that date, or on the next day when HH2:MM2 is earlier than HH1:MM1; the arrival then never precedes the departure |
| Store.AscendingPairs | flyhigh.py:52 | ascending ids are strictly increasing across the whole table and bounded by the last |
| Store.AscendingPrefix | flyhigh.py:52 | a prefix of a table with ascending ids has ascending ids |
| Store.AscendingAppend | flyhigh.py:52 | a row whose id is above the last one keeps the ids ascending |
| Store.Numbered | flyhigh.py:52-71 | inserting n flights creates n rows, the first with the id after the last one handed out |
| Store.NumberedRows | flyhigh.py:52-71 | inserting n flights creates n rows, in order, with the consecutive ids after the last one handed out |
| Store.NumberedStep | flyhigh.py:68-71 | inserting one more flight after a batch numbers it right after the batch |
| Store.FlightsOfNumbered | flyhigh.py:66-71 | the stored records are exactly the flights written, in order |
| Store.NumberedAppend | flyhigh.py:66-71 | writing two batches one after the other numbers the second from where the first stopped |
| Store.RowsOfTwoBatches | flyhigh.py:66-71 | a table with two batches appended holds its old rows followed by both batches, numbered in sequence |
| Store.AppendKeepsIds | flyhigh.py:52-71 | appending freshly numbered rows keeps ids ascending, and every new id is above every old one |
| Store.Database.constructor | flyhigh.py:48 | a new database file has no table and no rows |
| Store.Database.EnsureTable | flyhigh.py:47-62 | CREATE TABLE IF NOT EXISTS plus commit keeps existing rows, and a second call changes nothing |
| Store.Database.Insert | flyhigh.py:68-71 | one INSERT appends one row with the next id and changes no earlier row |
| Store.Database.InsertAll | flyhigh.py:66-71 | one row per flight is appended, in iteration order, and the committed state is untouched |
| Store.Database.Commit | flyhigh.py:72 | commit makes the current rows the committed ones |
| Store.Database.Rollback | flyhigh.py:85-86 | rollback returns the table to the last committed rows and ids |
| Store.Database.WriteFlights | flyhigh.py:64-72 | every flight is appended as one row, in order, existing rows are kept, and one commit follows |
| Driver.StoredAppend | flyhigh.py:77-88 | the records of one more date follow those of the dates before |
| Driver.SearchURL | flyhigh.py:79-80 | the address built for date d parses back to ARN, FRA, the date as `strftime` writes it, and SEK |
| Driver.FormatDateSeparable | flyhigh.py:79-80 | a formatted date holds neither '.' nor ';', so the address keeps it apart from the other query fields |
| Driver.PageFlights | flyhigh.py:82-83 | the generator for one page yields no more records than the page has items, all of them when nothing raises, and the record of item i carries the clock reading for item i |
| Driver.ScrapeDate | flyhigh.py:79-86 | for one date, the page's records are committed when the generator finishes, and the table is as before when it raises |
| Driver.Visit | flyhigh.py:79-88 | one loop turn extends the committed rows with the records of the date, or leaves them as they were when the date's page raised |
| Driver.Run | flyhigh.py:77-88 | without an exception every date of the range is visited once, in order; an exception stops the loop at that date, which leaves no row; the table, committed, holds the old rows followed by the records of the visited dates |
| Driver.Season | flyhigh.py:74-88 | a run without an exception visits the 183 dates of the range from 2019-04-01 to 2019-09-30; an exception stops it at a date of that range, with that date's error; the table holds the old rows followed by the records of the visited dates |
| Driver.SeasonBounds | flyhigh.py:75-76 | the two season texts parse as 2019-04-01 and 2019-09-30 |
| Driver.SeasonLength | flyhigh.py:75-78 | the season has 183 departure dates |
| TickLabels.Shown | analysis/python/explore.py:19-23 | of n labels the first is shown, the next nineteen are hidden, and the pattern repeats every twenty |
| TickLabels.ShownCount | analysis/python/explore.py:19-23 | of n labels, (n + 19) / 20 stay visible, and the first label always does |
| ExploreNotebook.Visibility | analysis/python/explore.py:22 | `not bool(i % 20)` is true exactly when i % 20 == 0 |
| ExploreNotebook.ReduceLabels | analysis/python/explore.py:19-23 | afterwards the visibilities are those of TickLabels.Shown: label i is visible exactly when i % 20 == 0, and only visibilities change |
| ExploreScript.ReduceLabels | analysis/explore.py:19-26 | each label gets its visibility from one of the two branches; the final visibilities equal those of the `not bool(i % 20)` version |
| ExploreScript.SameFlag | analysis/explore.py:22-25 | the branch taken sets the same flag as `not bool(i % 20)` |

## Left out

- The browser (`getDriver`, `driver.quit()`, the two-second sleep) is not part of this model. A page is the sequence of result items it yields, given by the `fetch` parameter of the driver.
- The HTML parser is not part of this model. A result item is an abstract value with an optional `data-fp` attribute and optional times, duration and price texts.
- `datetime.now()` is the `clock` parameter: the time, down to the microsecond (`Calendar.Instant`), at which each item of each date's page is reached.
- The `print` calls are not modelled. They write only to the console.
- The SQLite driver, its cursor and its column type conversion are not part of this model. The table holds the record values themselves. `connectDB` opening a new connection on every date is modelled as the schema step on one database.
- Store.Database.Insert: does not model a failing INSERT, because the source handles none; only the exceptions the generator raises are modelled. Besides disk full or a locked file, this leaves out a price above 2^63 − 1 (two ten-digit tokens are enough), for which sqlite3 raises OverflowError, rolling back the date and ending `main`; the model stores that row.
- Extract.ParsePrice: digits are ASCII digits only. Unicode digits that `str.isdigit()` also accepts (superscripts and others) are not modelled.
- Calendar.ParseDate, Calendar.ParseClock and Calendar.ParseStamp: fields are read as ASCII digits only. The `\d` of strptime's regular expressions also accepts other Unicode decimal digits, which are not modelled.
- Calendar.ParseStamp: the CPython strptime regular expressions are modelled only for the two formats used, and only through their effect on text of the shape these formats accept.
- Driver.ScrapeDate: the lazy generator interleaves its items with the inserts. The model runs the generator first, inserts the records it yielded, and rolls them back when it raised. The end state is the same, but the order of the individual steps is not modelled.
- A price kept as unknown, a price read from every digit of its text, and the skipping of one bad item are not modelled. The code raises when an element or attribute is missing or no token of the price is all digits. Otherwise it keeps only the all-digit tokens. The model follows the code.
- ExploreNotebook.ReduceLabels and ExploreScript.ReduceLabels: these require the labels to be distinct objects, as the tick labels of one axis are. A list naming one label twice is not modelled.
- The pandas and SQL queries of the two exploration scripts are not part of this model. Their `strftime` bucketing, `groupby` and `julianday` differences are library calls over floating point.
- The matplotlib plotting and file saving are not part of this model.
- `visualisation/flyhigh.js`, `visualisation/app/src/analytics.js` and `visualisation/app/src/utils.js` are not part of this model. They are d3/canvas drawing, analytics script injection and a wrapper around d3's date formatting.

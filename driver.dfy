/** main (flyhigh.py:74-88): one search per departure date of the season,
    each page's records written to the database inside `with db:`. The
    browser (getDriver) and datetime.now() are parameters: `fetch` gives the
    result items of the page at an address, `clock(d, i)` the time at which
    item i of the page for date d is reached. */
module Driver {
  import opened Wrappers
  import opened Text
  import opened Calendar
  import opened Query
  import opened Extract
  import opened Store

  const Origin := "ARN"
  const Destination := "FRA"
  const Currency := "SEK"

  /** dateRange: the first and the last departure date searched. */
  const SeasonText: seq<string> := ["2019-04-01", "2019-09-30"]

  /** The address searched for departure date d (flyhigh.py:79-80). */
  function SearchURL(d: Date): (url: string)
    requires ValidDate(d)
    ensures ParseQueryURL(url) == Some(Search(Origin, Destination, FormatDate(d), Currency))
  {
    FormatDateSeparable(d);
    ParseOfBuild(Search(Origin, Destination, FormatDate(d), Currency));
    BuildQueryURL(Origin, Destination, FormatDate(d), Currency)
  }

  /** A formatted date holds neither '.' nor ';', so it can be told apart
      in the address. */
  lemma FormatDateSeparable(d: Date)
    requires ValidDate(d)
    ensures Separable(Search(Origin, Destination, FormatDate(d), Currency))
  {
    var s := FormatDate(d);
    assert forall i :: 0 <= i < |s| ==> IsDigit(s[i]) || s[i] == '-' by {
      var y, m, dd := Decimal(d.year), Padded(d.month, 2), Padded(d.day, 2);
      assert s == y + "-" + m + "-" + dd;
    }
  }

  /** datetime.now() while the page for date d is read, item by item. */
  function PageClock(clock: (Date, nat) -> Instant, d: Date): nat -> Instant {
    (i: nat) => clock(d, i)
  }

  /** What parseFlights yields for the page of date d, and the exception
      it stops with. */
  function PageFlights(d: Date, fetch: string -> seq<Item>, clock: (Date, nat) -> Instant)
    : (r: (seq<Flight>, Option<Error>))
    requires ValidDate(d)
    ensures |r.0| <= |fetch(SearchURL(d))|
    ensures r.1.None? ==> |r.0| == |fetch(SearchURL(d))|
    ensures forall i :: 0 <= i < |r.0| ==> r.0[i].timestamp == clock(d, i)
  {
    var step := FlightStep(FormatDate(d), PageClock(clock, d));
    HarvestYields(fetch(SearchURL(d)), step);
    Harvest(fetch(SearchURL(d)), step)
  }

  /** What the run does with one date: the records it writes and the
      exception that stops it. */
  type Page = (seq<Flight>, Option<Error>)

  /** The page of every date; dates the datetime constructor rejects never
      reach the loop. */
  function Pages(fetch: string -> seq<Item>, clock: (Date, nat) -> Instant): Date -> Page {
    d => if ValidDate(d) then PageFlights(d, fetch, clock) else ([], None)
  }

  /** `page` gives the page of every valid date. */
  ghost predicate Agrees(page: Date -> Page, fetch: string -> seq<Item>, clock: (Date, nat) -> Instant) {
    forall d {:trigger PageFlights(d, fetch, clock)} :: ValidDate(d) ==> page(d) == PageFlights(d, fetch, clock)
  }

  lemma PagesAgree(fetch: string -> seq<Item>, clock: (Date, nat) -> Instant)
    ensures Agrees(Pages(fetch, clock), fetch, clock)
  {
  }

  /** The records of the pages of the given dates, page after page. */
  function Stored(ds: seq<Date>, page: Date -> Page): seq<Flight>
    decreases |ds|
  {
    if ds == [] then [] else Stored(ds[..|ds| - 1], page) + page(ds[|ds| - 1]).0
  }

  /** The records of one more date follow those of the dates before. */
  lemma StoredAppend(ds: seq<Date>, d: Date, page: Date -> Page)
    ensures Stored(ds + [d], page) == Stored(ds, page) + page(d).0
  {
    assert (ds + [d])[..|ds|] == ds;
  }

  /** One pass of main's loop body (flyhigh.py:79-86) for date d: build
      the address, load the page, connect, and write what parseFlights
      yields inside `with db:`. When the page raises, the rows inserted
      for it are rolled back and the table is as before. */
  method ScrapeDate(db: Database, fetch: string -> seq<Item>, clock: (Date, nat) -> Instant, d: Date)
    returns (flights: seq<Flight>, failure: Option<Error>)
    requires db.Valid() && db.rows == db.savedRows && db.lastId == db.savedLastId
    requires ValidDate(d)
    modifies db
    ensures db.Valid() && db.rows == db.savedRows && db.lastId == db.savedLastId
    ensures (flights, failure) == PageFlights(d, fetch, clock)
    ensures failure.None? ==>
      && db.rows == old(db.rows) + Numbered(flights, old(db.lastId))
      && db.lastId == old(db.lastId) + |flights|
    ensures failure.Some? ==> db.rows == old(db.rows) && db.lastId == old(db.lastId)
  {
    var date := FormatDate(d);
    var url := BuildQueryURL(Origin, Destination, date, Currency);
    var items := fetch(url);
    db.EnsureTable();
    flights, failure := ParseFlights(items, date, PageClock(clock, d));
    if failure.None? {
      db.WriteFlights(flights);
    } else {
      db.InsertAll(flights);
      db.Rollback();
    }
  }

  /** The table as the run leaves it after the dates `visited`: committed,
      holding the rows it started with followed by the numbered records of
      those dates. */
  ghost predicate Holds(db: Database, rows0: seq<Row>, id0: nat, visited: seq<Date>, page: Date -> Page)
    reads db
  {
    && db.Valid() && db.rows == db.savedRows && db.lastId == db.savedLastId
    && db.rows == rows0 + Numbered(Stored(visited, page), id0)
    && db.lastId == id0 + |Stored(visited, page)|
  }

  /** One turn of main's loop as the run sees it: the table held the
      records of the dates already visited; after a page without
      exception it also holds those of date d, and after one that raised it
      is as before. */
  method Visit(db: Database, fetch: string -> seq<Item>, clock: (Date, nat) -> Instant, d: Date,
               ghost page: Date -> Page, ghost visited: seq<Date>, ghost rows0: seq<Row>, ghost id0: nat)
    returns (failure: Option<Error>)
    requires Agrees(page, fetch, clock) && ValidDate(d)
    requires Holds(db, rows0, id0, visited, page)
    modifies db
    ensures failure == page(d).1
    ensures failure.None? ==> Holds(db, rows0, id0, visited + [d], page)
    ensures failure.Some? ==> Holds(db, rows0, id0, visited, page)
  {
    ghost var before := Stored(visited, page);
    ghost var oldRows, oldId := db.rows, db.lastId;
    assert oldRows == rows0 + Numbered(before, id0) && oldId == id0 + |before|;
    var flights;
    flights, failure := ScrapeDate(db, fetch, clock, d);
    assert page(d) == PageFlights(d, fetch, clock) == (flights, failure);
    if failure.None? {
      StoredAppend(visited, d, page);
      assert Stored(visited + [d], page) == before + flights;
      calc {
        db.rows;
        oldRows + Numbered(flights, oldId);
        { assert Numbered(flights, oldId) == Numbered(flights, id0 + |before|); }
        (rows0 + Numbered(before, id0)) + Numbered(flights, id0 + |before|);
        { RowsOfTwoBatches(rows0, id0, before, flights); }
        rows0 + Numbered(before + flights, id0);
      }
      assert db.lastId == id0 + |before + flights|;
    }
  }

  /** Visiting the first date of what is left of the range. */
  lemma RangeAdvance(visited: seq<Date>, cur: Date, first: Date, last: Date)
    requires ValidDate(first) && ValidDate(cur) && ValidDate(last) && last != LastDate
    requires NotAfter(cur, last)
    requires visited + DateRange(cur, last) == DateRange(first, last)
    ensures cur != LastDate && ValidDate(NextDay(cur))
    ensures (visited + [cur]) + DateRange(NextDay(cur), last) == DateRange(first, last)
    ensures visited + [cur] <= DateRange(first, last)
  {
    DateRangeStep(cur, last);
    ConsShift(visited, cur, DateRange(NextDay(cur), last), DateRange(first, last));
  }

  lemma ConsShift(visited: seq<Date>, cur: Date, rest: seq<Date>, whole: seq<Date>)
    requires visited + ([cur] + rest) == whole
    ensures (visited + [cur]) + rest == whole && visited + [cur] <= whole
  {
    assert visited + ([cur] + rest) == (visited + [cur]) + rest;
  }

  /** The date loop of main (flyhigh.py:77-88) from `first` to `last`.
      visited holds the dates whose records were committed; stop is the
      date whose page raised, with the exception, which ends the run.
      On success every date of the range is visited once, in order; in
      both cases the table holds the rows it had, followed by the records
      of the visited dates, and the failing date leaves no row. */
  method Run(db: Database, fetch: string -> seq<Item>, clock: (Date, nat) -> Instant, first: Date, last: Date,
             ghost page: Date -> Page)
    returns (visited: seq<Date>, stop: Option<(Date, Error)>)
    requires Agrees(page, fetch, clock)
    requires db.Valid() && db.rows == db.savedRows && db.lastId == db.savedLastId
    requires ValidDate(first) && ValidDate(last) && last != LastDate
    modifies db
    ensures stop.None? ==> visited == DateRange(first, last)
    ensures stop.Some? ==>
      && visited + [stop.value.0] <= DateRange(first, last)
      && page(stop.value.0).1 == Some(stop.value.1)
    ensures forall i :: 0 <= i < |visited| ==> page(visited[i]).1.None?
    ensures Holds(db, old(db.rows), old(db.lastId), visited, page)
  {
    ghost var rows0, id0 := db.rows, db.lastId;
    visited, stop := [], None;
    assert rows0 + Numbered(Stored(visited, page), id0) == rows0;
    var cur := first;
    while NotAfter(cur, last)
      invariant ValidDate(cur)
      invariant visited + DateRange(cur, last) == DateRange(first, last)
      invariant forall i :: 0 <= i < |visited| ==> page(visited[i]).1.None?
      invariant Holds(db, rows0, id0, visited, page)
      decreases |DateRange(cur, last)|
    {
      RangeAdvance(visited, cur, first, last);
      var failure := Visit(db, fetch, clock, cur, page, visited, rows0, id0);
      if failure.Some? {
        stop := Some((cur, failure.value));
        return;
      }
      visited := visited + [cur];
      cur := NextDay(cur);
    }
    assert DateRange(cur, last) == [];
    assert visited + [] == visited;
  }

  /** main: the run over the season of flyhigh.py:75, its two dates read
      with strptime. */
  method Season(db: Database, fetch: string -> seq<Item>, clock: (Date, nat) -> Instant)
    returns (visited: seq<Date>, stop: Option<(Date, Error)>)
    requires db.Valid() && db.rows == db.savedRows && db.lastId == db.savedLastId
    modifies db
    ensures stop.None? ==> |visited| == 183 && visited == DateRange(Date(2019, 4, 1), Date(2019, 9, 30))
    ensures stop.Some? ==> visited + [stop.value.0] <= DateRange(Date(2019, 4, 1), Date(2019, 9, 30))
    ensures stop.Some? ==> Pages(fetch, clock)(stop.value.0).1 == Some(stop.value.1)
    ensures db.rows == old(db.rows) + Numbered(Stored(visited, Pages(fetch, clock)), old(db.lastId))
  {
    SeasonBounds();
    var bounds := [ParseDate(SeasonText[0]), ParseDate(SeasonText[1])];
    var first, last := bounds[0].value, bounds[1].value;
    PagesAgree(fetch, clock);
    visited, stop := Run(db, fetch, clock, first, last, Pages(fetch, clock));
    SeasonLength(first, last);
  }

  /** The two season dates parse as 2019-04-01 and 2019-09-30. */
  lemma SeasonBounds()
    ensures ParseDate(SeasonText[0]) == Some(Date(2019, 4, 1))
    ensures ParseDate(SeasonText[1]) == Some(Date(2019, 9, 30))
  {
    FirstDateText();
    LastDateText();
    ParseDateOfFormat(Date(2019, 4, 1));
    ParseDateOfFormat(Date(2019, 9, 30));
  }

  lemma YearText()
    ensures Decimal(2019) == "2019"
  {
    assert Decimal(2) == "2" && Decimal(20) == "20" && Decimal(201) == "201" && Decimal(2019) == "2019";
  }

  lemma FirstDateText()
    ensures FormatDate(Date(2019, 4, 1)) == SeasonText[0]
  {
    YearText();
    assert Zeros(1) == "0";
    assert Decimal(4) == "4" && Decimal(1) == "1";
    assert Padded(4, 2) == "04" && Padded(1, 2) == "01";
  }

  lemma LastDateText()
    ensures FormatDate(Date(2019, 9, 30)) == SeasonText[1]
  {
    YearText();
    assert Zeros(1) == "0";
    assert Decimal(9) == "9" && Decimal(3) == "3" && Decimal(30) == "30";
    assert Padded(9, 2) == "09" && Padded(30, 2) == "30";
  }

  /** The season has 183 departure dates. */
  lemma SeasonLength(first: Date, last: Date)
    requires first == Date(2019, 4, 1) && last == Date(2019, 9, 30)
    ensures |DateRange(first, last)| == 183
  {
    assert !IsLeapYear(2019);
    assert DaysBeforeMonth(2019, 4) == 90 && DaysBeforeMonth(2019, 9) == 243;
    assert ValidDate(first) && ValidDate(last) && NotAfter(first, last);
    DateRangeLength(first, last);
  }
}

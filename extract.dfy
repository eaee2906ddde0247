/** parseFlights (flyhigh.py:27-45): from the result items of one search
    page to flight records, through parsePrice and parseTimes. The HTML
    parser is not modelled: a page is the sequence of result items it
    finds, each with the attribute and sub-element texts the code reads. */
module Extract {
  import opened Wrappers
  import opened Text
  import opened Calendar

  /** U+2013 EN DASH, the separator between the two clock times. */
  const EnDash: char := '\U{2013}'

  /** One `li.gws-flights-results__result-item`: its `data-fp` attribute
      and the text of its times, duration and price sub-elements, each None
      when the element lacks it. */
  datatype Item = Item(
    fp: Option<string>,
    times: Option<string>,
    duration: Option<string>,
    price: Option<string>)

  /** The dict parseFlights yields for one item. */
  datatype Flight = Flight(
    flightId: string,
    flightDate: DateTime,
    departure: DateTime,
    arrival: DateTime,
    duration: string,
    price: nat,
    timestamp: Instant)

  /** The exceptions that end the generator. */
  datatype Error =
    | MissingTimes      // no times element: AttributeError on .text
    | BadTime           // a clock time strptime rejects: ValueError
    | MissingFlightId   // no data-fp attribute: KeyError
    | BadDate           // the searched date strptime rejects: ValueError
    | TooFewTimes       // fewer than two clock times: IndexError on times[1]
    | MissingDuration   // no duration element: AttributeError on .text
    | MissingPrice      // no price element: AttributeError on .text
    | BadPrice          // no all-digit token in the price: int('') raises ValueError

  // ---------------------------------------------------------------------
  // parsePrice
  // ---------------------------------------------------------------------

  /** The tokens str.isdigit() accepts, in their order: every kept token
      is all digits and every all-digit token is kept. DigitTokensAppend
      gives the order. */
  function DigitTokens(ws: seq<string>): (ds: seq<string>)
    ensures forall i :: 0 <= i < |ds| ==> IsNumeral(ds[i])
    ensures forall i :: 0 <= i < |ws| && IsNumeral(ws[i]) ==> ws[i] in ds
    ensures |ds| <= |ws|
  {
    if ws == [] then []
    else (if IsNumeral(ws[0]) then [ws[0]] else []) + DigitTokens(ws[1..])
  }

  /** ''.join(ds) for digit tokens. */
  function JoinDigits(ds: seq<string>): (s: string)
    requires forall i :: 0 <= i < |ds| ==> IsNumeral(ds[i])
    ensures AllDigits(s)
    ensures s == [] <==> ds == []
  {
    if ds == [] then []
    else
      assert IsNumeral(ds[0]);
      var rest := JoinDigits(ds[1..]);
      DigitsAppend(ds[0], rest);
      ds[0] + rest
  }

  lemma DigitsAppend(a: string, b: string)
    requires AllDigits(a) && AllDigits(b)
    ensures AllDigits(a + b)
  {
    forall i | 0 <= i < |a + b|
      ensures IsDigit((a + b)[i])
    {
      if i >= |a| {
        assert (a + b)[i] == b[i - |a|];
      }
    }
  }

  /** The comprehension keeps the tokens of a concatenation in order: those
      of the first part, then those of the second. */
  lemma {:induction false} DigitTokensAppend(a: seq<string>, b: seq<string>)
    ensures DigitTokens(a + b) == DigitTokens(a) + DigitTokens(b)
  {
    if a == [] {
      assert a + b == b;
    } else {
      assert (a + b)[1..] == a[1..] + b;
      DigitTokensAppend(a[1..], b);
    }
  }

  /** ''.join of a concatenation is the join of the first part followed by
      that of the second. */
  lemma {:induction false} JoinDigitsAppend(a: seq<string>, b: seq<string>)
    requires forall i :: 0 <= i < |a| ==> IsNumeral(a[i])
    requires forall i :: 0 <= i < |b| ==> IsNumeral(b[i])
    ensures JoinDigits(a + b) == JoinDigits(a) + JoinDigits(b)
  {
    if a == [] {
      assert a + b == b;
    } else {
      assert (a + b)[1..] == a[1..] + b;
      JoinDigitsAppend(a[1..], b);
    }
  }

  /** parsePrice (flyhigh.py:28-29): the whitespace-separated tokens made
      only of digits, concatenated in order and read as one integer; None
      stands for the ValueError int('') raises when there is none. */
  function ParsePrice(price: string): (r: Option<nat>)
    ensures r.None? <==> DigitTokens(Words(price)) == []
  {
    var digits := JoinDigits(DigitTokens(Words(price)));
    if digits == [] then None else Some(Numeral(digits))
  }

  /** parsePrice succeeds exactly when some whitespace-separated token is
      made only of digits. */
  lemma PriceSucceeds(price: string)
    ensures ParsePrice(price).Some? <==> exists i :: 0 <= i < |Words(price)| && IsNumeral(Words(price)[i])
  {
    var ws := Words(price);
    DigitTokensEmpty(ws);
    var ds := DigitTokens(ws);
    assert ParsePrice(price).Some? <==> ds != [];
    if ds != [] {
      var i :| 0 <= i < |ws| && IsNumeral(ws[i]);
      assert ParsePrice(price).Some?;
      assert IsNumeral(Words(price)[i]);
    } else {
      forall i | 0 <= i < |ws|
        ensures !IsNumeral(ws[i])
      {
      }
    }
  }

  lemma {:induction false} DigitTokensEmpty(ws: seq<string>)
    ensures DigitTokens(ws) == [] <==> forall i :: 0 <= i < |ws| ==> !IsNumeral(ws[i])
  {
    if ws != [] {
      DigitTokensEmpty(ws[1..]);
      assert forall i :: 1 <= i < |ws| ==> ws[i] == ws[1..][i - 1];
    }
  }

  /** A price written as an amount and a unit ("1500 kr") reads as the
      amount, whatever whitespace separates them. */
  lemma PriceOfAmount(n: nat, sp: char, unit: string)
    requires IsSpace(sp) && |unit| > 0 && NoSpace(unit) && !AllDigits(unit)
    ensures ParsePrice(Decimal(n) + [sp] + unit) == Some(n)
  {
    WordsCons(Decimal(n), sp, unit);
    WordsOfWord(unit);
    var ws := Words(Decimal(n) + [sp] + unit);
    assert ws == [Decimal(n), unit];
    assert DigitTokens(ws[1..]) == [];
    assert DigitTokens(ws) == [Decimal(n)];
    assert JoinDigits([Decimal(n)]) == Decimal(n) + [];
    assert Decimal(n) + [] == Decimal(n);
    NumeralOfDecimal(n);
  }

  /** Two all-digit tokens and a unit: the value n of the digits of both
      tokens, joined. */
  lemma PriceOfTwoTokens(a: string, b: string, sp: char, unit: string, n: nat)
    requires IsNumeral(a) && IsNumeral(b) && Numeral(a + b) == n
    requires IsSpace(sp) && |unit| > 0 && NoSpace(unit) && !AllDigits(unit)
    ensures ParsePrice(a + [sp] + b + [sp] + unit) == Some(n)
  {
    WordsOfThree(a, b, unit, sp);
    var ws := [a, b, unit];
    assert ws[1..] == [b, unit];
    assert ws[1..][1..] == [unit];
    assert DigitTokens([unit]) == [];
    assert DigitTokens(ws) == [a, b];
    assert JoinDigits([a, b]) == a + (b + []);
    assert b + [] == b;
  }

  /** A price with a thousands separator ("1 500 kr", the separator being
      any whitespace character) reads as the whole amount. */
  lemma PriceOfGroupedAmount(thousands: nat, rest: nat, sp: char, unit: string)
    requires rest < 1000
    requires IsSpace(sp) && |unit| > 0 && NoSpace(unit) && !AllDigits(unit)
    ensures ParsePrice(Decimal(thousands) + [sp] + Padded(rest, 3) + [sp] + unit)
      == Some(thousands * 1000 + rest)
  {
    GroupedValue(thousands, rest);
    PriceOfTwoTokens(Decimal(thousands), Padded(rest, 3), sp, unit, thousands * 1000 + rest);
  }

  /** The two groups, written next to each other, read as one numeral of
      value thousands * 1000 + rest. */
  lemma GroupedValue(thousands: nat, rest: nat)
    requires rest < 1000
    ensures IsNumeral(Decimal(thousands)) && IsNumeral(Padded(rest, 3))
    ensures Numeral(Decimal(thousands) + Padded(rest, 3)) == thousands * 1000 + rest
  {
    var a := Decimal(thousands);
    var b := Padded(rest, 3);
    assert Pow10(3) == 1000;
    PaddedLength(rest, 3);
    NumeralOfDecimal(thousands);
    NumeralOfPadded(rest, 3);
    NumeralAppend(a, b);
    assert Pow10(|b|) == 1000 by { assert |b| == 3; }
  }

  /** "1 500 kr" gives 1500. */
  lemma PriceExample(price: string)
    requires price == "1 500 kr"
    ensures ParsePrice(price) == Some(1500)
  {
    UnitKr();
    assert price == "1" + [' '] + "500" + [' '] + "kr";
    assert "1" + "500" == "1500";
    NumeralOf1500();
    PriceOfTwoTokens("1", "500", ' ', "kr", 1500);
  }

  /** "kr" is one token that is not a number. */
  lemma UnitKr()
    ensures |"kr"| > 0 && NoSpace("kr") && !AllDigits("kr")
  {
    assert !IsDigit("kr"[0]);
    assert !IsSpace("kr"[0]) && !IsSpace("kr"[1]);
  }

  lemma NumeralOf1500()
    ensures Numeral("1500") == 1500
  {
    assert "1500"[..3] == "150" && "150"[..2] == "15" && "15"[..1] == "1" && "1"[..0] == [];
  }

  /** An all-digit token in front, followed by whitespace, is kept: its
      digits come first, and the price is the value of those digits
      followed by the digits of the rest (NumeralAppend splits that value).
      With PriceDropsMixedToken and WordsAfterSpace this fixes the price of
      every text, one leading token at a time. */
  lemma PriceOfLeadingNumeral(a: string, sp: char, rest: string)
    requires IsNumeral(a) && IsSpace(sp)
    ensures JoinDigits(DigitTokens(Words(a + [sp] + rest))) == a + JoinDigits(DigitTokens(Words(rest)))
    ensures ParsePrice(a + [sp] + rest) == Some(Numeral(a + JoinDigits(DigitTokens(Words(rest)))))
  {
    LeadingDigits(a, sp, rest);
    PriceOfDigits(a + [sp] + rest, a + JoinDigits(DigitTokens(Words(rest))));
  }

  /** A text whose digit tokens join to a non-empty digit string reads as
      the value of that string. */
  lemma PriceOfDigits(price: string, digits: string)
    requires JoinDigits(DigitTokens(Words(price))) == digits && digits != []
    ensures AllDigits(digits) && ParsePrice(price) == Some(Numeral(digits))
  {
  }

  /** The digits of a text that starts with an all-digit token and
      whitespace are that token followed by the digits of the rest. */
  lemma LeadingDigits(a: string, sp: char, rest: string)
    requires IsNumeral(a) && IsSpace(sp)
    ensures JoinDigits(DigitTokens(Words(a + [sp] + rest))) == a + JoinDigits(DigitTokens(Words(rest)))
  {
    NumeralNoSpace(a);
    var ws := Words(rest);
    assert Words(a + [sp] + rest) == [a] + ws by {
      WordsCons(a, sp, rest);
    }
    var ds := DigitTokens(ws);
    assert DigitTokens([a] + ws) == [a] + ds by {
      assert ([a] + ws)[1..] == ws;
    }
    assert JoinDigits([a] + ds) == a + JoinDigits(ds) by {
      assert ([a] + ds)[1..] == ds;
    }
  }

  /** A token mixing digits with other characters ("1,500", "kr500")
      contributes nothing: the price is that of the remaining text. */
  lemma PriceDropsMixedToken(w: string, sp: char, rest: string)
    requires |w| > 0 && NoSpace(w) && !AllDigits(w) && IsSpace(sp)
    ensures ParsePrice(w + [sp] + rest) == ParsePrice(rest)
  {
    WordsCons(w, sp, rest);
    var ws := Words(w + [sp] + rest);
    assert ws[1..] == Words(rest);
    assert DigitTokens(ws) == DigitTokens(Words(rest));
  }

  /** With no all-digit token the price is an error, never 0: "1,500 kr"
      fails. */
  lemma PriceWithSeparatorComma()
    ensures ParsePrice("1,500 kr") == None
  {
    var amount := "1,500";
    assert !AllDigits(amount) by { assert !IsDigit(amount[1]); }
    assert NoSpace(amount) by {
      assert forall i :: 0 <= i < |amount| ==> amount[i] in {'1', ',', '5', '0'};
    }
    UnitKr();
    calc {
      ParsePrice("1,500 kr");
      { assert "1,500 kr" == amount + [' '] + "kr"; }
      ParsePrice(amount + [' '] + "kr");
      { PriceDropsMixedToken(amount, ' ', "kr"); }
      ParsePrice("kr");
      { PriceOfWord("kr"); }
      None;
    }
  }

  /** A single token that is not all digits ("kr500") is an error. */
  lemma PriceOfWord(w: string)
    requires |w| > 0 && NoSpace(w) && !AllDigits(w)
    ensures ParsePrice(w) == None
  {
    WordsOfWord(w);
    assert DigitTokens([w]) == [];
  }

  // ---------------------------------------------------------------------
  // parseTimes
  // ---------------------------------------------------------------------

  /** [f(x) for x in xs] where f may raise: None as soon as one call does,
      otherwise the results in order. */
  function MapAll<A, B>(xs: seq<A>, f: A -> Option<B>): (r: Option<seq<B>>)
    ensures r.Some? ==> |r.value| == |xs|
  {
    if xs == [] then Some([])
    else
      var y := f(xs[0]);
      if y.None? then None
      else
        var rest := MapAll(xs[1..], f);
        if rest.None? then None else Some([y.value] + rest.value)
  }

  /** The comprehension succeeds exactly when every call does, and then
      holds each call's result at the same position. */
  lemma {:induction false} MapAllMeaning<A, B>(xs: seq<A>, f: A -> Option<B>)
    ensures var r := MapAll(xs, f);
      && (r.Some? <==> forall i :: 0 <= i < |xs| ==> f(xs[i]).Some?)
      && (r.Some? ==> |r.value| == |xs| && forall i :: 0 <= i < |xs| ==> f(xs[i]) == Some(r.value[i]))
  {
    if xs != [] {
      MapAllMeaning(xs[1..], f);
      assert forall i :: 1 <= i < |xs| ==> xs[i] == xs[1..][i - 1];
    }
  }

  lemma MapAllOfTwo<A, B>(xs: seq<A>, f: A -> Option<B>, y0: B, y1: B)
    requires |xs| == 2 && f(xs[0]) == Some(y0) && f(xs[1]) == Some(y1)
    ensures MapAll(xs, f) == Some([y0, y1])
  {
    var tail := xs[1..];
    assert tail[0] == xs[1] && tail[1..] == [];
    assert MapAll(tail[1..], f) == Some([]);
    assert MapAll(tail, f) == Some([y1] + []);
    assert [y1] + [] == [y1];
    assert MapAll(xs, f) == Some([y0] + [y1]);
    assert [y0] + [y1] == [y0, y1];
  }

  /** Two functions that agree on every element map the same way. */
  lemma {:induction false} MapAllAgree<A, B>(xs: seq<A>, f: A -> Option<B>, g: A -> Option<B>)
    requires forall i :: 0 <= i < |xs| ==> f(xs[i]) == g(xs[i])
    ensures MapAll(xs, f) == MapAll(xs, g)
  {
    if xs != [] {
      MapAllAgree(xs[1..], f, g);
    }
  }

  /** parseTimes (flyhigh.py:31-32): for each en-dash-separated piece p of
      the text, in order, strptime(date + '-' + p.strip(), '%Y-%m-%d-%H:%M'). */
  function ParseTimes(times: string, date: string): (r: Option<seq<DateTime>>)
    ensures r.Some? ==> |r.value| == |SplitOn(times, EnDash)|
  {
    MapAll(SplitOn(times, EnDash), p => ParseStamp(date + "-" + Strip(p)))
  }

  /** A clock text, placed on date d. */
  function StampOnDate(d: Date, clock: string): Option<DateTime> {
    var c := ParseClock(clock);
    if c.None? then None else Some(DateTime(d, c.value.0, c.value.1))
  }

  /** On a date the driver formats, parseTimes reads each piece as a clock
      time placed on that date. */
  lemma TimesOnSearchedDate(times: string, d: Date)
    requires ValidDate(d) && FourDigitYear(d)
    ensures ParseTimes(times, FormatDate(d)) == MapAll(SplitOn(times, EnDash), p => StampOnDate(d, Strip(p)))
  {
    var pieces := SplitOn(times, EnDash);
    var f := p => ParseStamp(FormatDate(d) + "-" + Strip(p));
    var g := p => StampOnDate(d, Strip(p));
    forall i | 0 <= i < |pieces|
      ensures f(pieces[i]) == g(pieces[i])
    {
      ParseStampOfFormat(d, Strip(pieces[i]));
    }
    MapAllAgree(pieces, f, g);
  }

  /** Clock texts placed on date d: all of them parse, or the whole fails. */
  lemma StampsOnDate(pieces: seq<string>, d: Date)
    ensures var r := MapAll(pieces, p => StampOnDate(d, Strip(p)));
      && (r.Some? <==> forall i :: 0 <= i < |pieces| ==> ParseClock(Strip(pieces[i])).Some?)
      && (r.Some? ==> |r.value| == |pieces| && forall i :: 0 <= i < |pieces| ==>
            r.value[i] == DateTime(d, ParseClock(Strip(pieces[i])).value.0, ParseClock(Strip(pieces[i])).value.1))
  {
    MapAllMeaning(pieces, p => StampOnDate(d, Strip(p)));
  }

  /** On a date the driver formats, parseTimes succeeds exactly when every
      piece is a clock time "H:M" (hour 0..23, minute 0..59), and every
      timestamp carries the searched date: there is no rollover to the
      next day. */
  lemma TimesKeepSearchedDate(times: string, d: Date)
    requires ValidDate(d) && FourDigitYear(d)
    ensures var pieces := SplitOn(times, EnDash);
      var r := ParseTimes(times, FormatDate(d));
      && (r.Some? <==> forall i :: 0 <= i < |pieces| ==> ParseClock(Strip(pieces[i])).Some?)
      && (r.Some? ==> |r.value| == |pieces| && forall i :: 0 <= i < |pieces| ==>
            r.value[i] == DateTime(d, ParseClock(Strip(pieces[i])).value.0, ParseClock(Strip(pieces[i])).value.1))
  {
    TimesOnSearchedDate(times, d);
    StampsOnDate(SplitOn(times, EnDash), d);
  }

  lemma ClockTextShape(h: nat, m: nat)
    requires h < 100 && m < 100
    ensures var c := ClockText(h, m);
      |c| == 5 && EnDash !in c && !IsSpace(c[0]) && !IsSpace(c[|c| - 1])
  {
    assert Pow10(2) == 100;
    PaddedLength(h, 2);
    PaddedLength(m, 2);
    var c := ClockText(h, m);
    assert forall i :: 0 <= i < |c| ==> IsDigit(c[i]) || c[i] == ':';
  }

  /** Two pieces that are clock times give the two timestamps on date d. */
  lemma TimesOfTwoPieces(times: string, d: Date, h1: nat, m1: nat, h2: nat, m2: nat)
    requires ValidDate(d) && FourDigitYear(d)
    requires var pieces := SplitOn(times, EnDash);
      && |pieces| == 2
      && ParseClock(Strip(pieces[0])) == Some((h1, m1))
      && ParseClock(Strip(pieces[1])) == Some((h2, m2))
    ensures ParseTimes(times, FormatDate(d)) == Some([DateTime(d, h1, m1), DateTime(d, h2, m2)])
  {
    var pieces := SplitOn(times, EnDash);
    TimesOnSearchedDate(times, d);
    MapAllOfTwo(pieces, p => StampOnDate(d, Strip(p)), DateTime(d, h1, m1), DateTime(d, h2, m2));
  }

  /** The two pieces of "HH:MM – HH:MM", stripped, are the two clock texts. */
  lemma RangePieces(c1: string, c2: string)
    requires |c1| > 0 && |c2| > 0 && EnDash !in c1 && EnDash !in c2
    requires !IsSpace(c1[0]) && !IsSpace(c1[|c1| - 1]) && !IsSpace(c2[0]) && !IsSpace(c2[|c2| - 1])
    ensures var pieces := SplitOn(c1 + " \U{2013} " + c2, EnDash);
      |pieces| == 2 && Strip(pieces[0]) == c1 && Strip(pieces[1]) == c2
  {
    SplitRange(c1, c2);
    StripOneSpace(' ', c1);
    StripOneSpace(' ', c2);
    assert c1 + " " == c1 + [' '] && " " + c2 == [' '] + c2;
  }

  /** Splitting "HH:MM – HH:MM" at the en dash leaves the blanks around it
      on the two pieces. */
  lemma SplitRange(c1: string, c2: string)
    requires EnDash !in c1 && EnDash !in c2
    ensures SplitOn(c1 + " \U{2013} " + c2, EnDash) == [c1 + " ", " " + c2]
  {
    var left, right := c1 + " ", " " + c2;
    calc {
      SplitOn(c1 + " \U{2013} " + c2, EnDash);
      { assert c1 + " \U{2013} " + c2 == left + [EnDash] + right; }
      SplitOn(left + [EnDash] + right, EnDash);
      { assert EnDash !in left; SplitOfPrefix(left, EnDash, right); }
      [left] + SplitOn(right, EnDash);
      { assert EnDash !in right; SplitOfPiece(right, EnDash); }
      [left, right];
    }
  }

  /** "HH:MM – HH:MM" on a formatted date gives the two times on that date. */
  lemma TimesOfRange(h1: nat, m1: nat, h2: nat, m2: nat, d: Date)
    requires h1 <= 23 && m1 <= 59 && h2 <= 23 && m2 <= 59 && ValidDate(d) && FourDigitYear(d)
    ensures ParseTimes(ClockText(h1, m1) + " \U{2013} " + ClockText(h2, m2), FormatDate(d))
      == Some([DateTime(d, h1, m1), DateTime(d, h2, m2)])
  {
    ClockTextShape(h1, m1);
    ClockTextShape(h2, m2);
    RangePieces(ClockText(h1, m1), ClockText(h2, m2));
    ParseClockOfText(h1, m1);
    ParseClockOfText(h2, m2);
    TimesOfTwoPieces(ClockText(h1, m1) + " \U{2013} " + ClockText(h2, m2), d, h1, m1, h2, m2);
  }

  // ---------------------------------------------------------------------
  // One record
  // ---------------------------------------------------------------------

  /** The body of the loop in parseFlights (flyhigh.py:36-45) for one item.
      `now` stands for datetime.now(). The times are read first (line 36);
      the searched date is read again for flightDate (line 39), which, both
      readings being pure, is the same as reading it up front and handing
      the outcome to Record. */
  function Assemble(item: Item, date: string, now: Instant): (r: Result<Flight, Error>)
    ensures item.times.None? ==> r == Err(MissingTimes)
    ensures r.Ok? ==>
      && item.times.Some?
      && var times := ParseTimes(item.times.value, date);
      && times.Some? && |times.value| >= 2
      && r.value.departure == times.value[0] && r.value.arrival == times.value[1]
      && ParseDate(date).Some? && r.value.flightDate == Midnight(ParseDate(date).value)
      && Some(r.value.flightId) == item.fp && Some(r.value.duration) == item.duration
      && item.price.Some? && ParsePrice(item.price.value) == Some(r.value.price)
      && r.value.timestamp == now
  {
    if item.times.None? then Err(MissingTimes)
    else Record(item, ParseTimes(item.times.value, date), ParseDate(date), now)
  }

  /** The dict of flyhigh.py:37-45 built from the parsed times and date, in
      the order Python evaluates its entries: flightId, flightDate,
      departure, arrival, duration, price, timestamp. */
  function Record(item: Item, times: Option<seq<DateTime>>, flightDate: Option<Date>, now: Instant)
    : (r: Result<Flight, Error>)
    ensures r.Ok? ==>
      && Some(r.value.flightId) == item.fp
      && times.Some? && |times.value| >= 2
      && r.value.departure == times.value[0] && r.value.arrival == times.value[1]
      && flightDate.Some? && r.value.flightDate == Midnight(flightDate.value)
      && Some(r.value.duration) == item.duration
      && item.price.Some? && ParsePrice(item.price.value) == Some(r.value.price)
      && r.value.timestamp == now
  {
    if times.None? then Err(BadTime)
    else if item.fp.None? then Err(MissingFlightId)
    else if flightDate.None? then Err(BadDate)
    else if |times.value| < 2 then Err(TooFewTimes)
    else if item.duration.None? then Err(MissingDuration)
    else if item.price.None? then Err(MissingPrice)
    else
      var price := ParsePrice(item.price.value);
      if price.None? then Err(BadPrice)
      else Ok(Flight(item.fp.value, Midnight(flightDate.value), times.value[0], times.value[1],
                     item.duration.value, price.value, now))
  }

  /** An item yields a record exactly when every element and attribute is
      there, its times parse to at least two, the date parses and its price
      has an all-digit token. */
  lemma AssembleSucceeds(item: Item, date: string, now: Instant)
    ensures Assemble(item, date, now).Ok? <==>
      && item.fp.Some? && item.times.Some? && item.duration.Some? && item.price.Some?
      && ParseTimes(item.times.value, date).Some? && |ParseTimes(item.times.value, date).value| >= 2
      && ParseDate(date).Some?
      && ParsePrice(item.price.value).Some?
  {
    if item.times.Some? {
      RecordSucceeds(item, ParseTimes(item.times.value, date), ParseDate(date), now);
    }
  }

  /** The dict is built exactly when every field it needs is there. */
  lemma RecordSucceeds(item: Item, times: Option<seq<DateTime>>, flightDate: Option<Date>, now: Instant)
    ensures Record(item, times, flightDate, now).Ok? <==>
      && item.fp.Some? && item.duration.Some? && item.price.Some?
      && times.Some? && |times.value| >= 2 && flightDate.Some?
      && ParsePrice(item.price.value).Some?
  {
  }

  /** On a date the driver formats, the date always parses back and the
      times are clock times placed on that date. */
  lemma AssembleOnSearchedDate(item: Item, d: Date, now: Instant)
    requires ValidDate(d) && FourDigitYear(d) && item.times.Some?
    ensures Assemble(item, FormatDate(d), now)
      == Record(item, MapAll(SplitOn(item.times.value, EnDash), p => StampOnDate(d, Strip(p))), Some(d), now)
  {
    ParseDateOfFormat(d);
    TimesOnSearchedDate(item.times.value, d);
  }

  /** A date that parsed never makes the record fail with BadDate. */
  lemma RecordWithDate(item: Item, times: Option<seq<DateTime>>, d: Date, now: Instant)
    ensures Record(item, times, Some(d), now) != Err(BadDate)
  {
  }

  /** On a date the driver formats, no BadDate error can arise. */
  lemma NoBadDateOnSearchedDate(item: Item, d: Date, now: Instant)
    requires ValidDate(d)
    ensures Assemble(item, FormatDate(d), now) != Err(BadDate)
  {
    if item.times.Some? && !FourDigitYear(d) {
      AssembleOnShortYear(item, d, now);
    } else if item.times.Some? {
      AssembleOnSearchedDate(item, d, now);
      RecordWithDate(item, MapAll(SplitOn(item.times.value, EnDash), p => StampOnDate(d, Strip(p))), d, now);
    }
  }

  /** As written, a searched date before year 1000 is formatted with a
      short year, which strptime rejects: no time text then parses. */
  lemma TimesOnShortYear(times: string, d: Date)
    requires ValidDate(d) && !FourDigitYear(d)
    ensures ParseTimes(times, FormatDate(d)) == None
  {
    var pieces := SplitOn(times, EnDash);
    ParseStampOfFormat(d, Strip(pieces[0]));
  }

  /** So every item with times fails with BadTime on such a date. */
  lemma AssembleOnShortYear(item: Item, d: Date, now: Instant)
    requires ValidDate(d) && !FourDigitYear(d) && item.times.Some?
    ensures Assemble(item, FormatDate(d), now) == Err(BadTime)
  {
    TimesOnShortYear(item.times.value, d);
  }

  /** A record built from a known date and from times that are the clock
      texts of `pieces` placed on that date. */
  lemma RecordOfStamps(item: Item, times: Option<seq<DateTime>>, pieces: seq<string>, d: Date, now: Instant)
    requires times.Some? ==>
      && |times.value| == |pieces|
      && forall i :: 0 <= i < |pieces| ==> Some(times.value[i]) == StampOnDate(d, Strip(pieces[i]))
    ensures var r := Record(item, times, Some(d), now);
      r.Ok? ==>
        && r.value.flightDate == Midnight(d)
        && |pieces| >= 2
        && Some(r.value.departure) == StampOnDate(d, Strip(pieces[0]))
        && Some(r.value.arrival) == StampOnDate(d, Strip(pieces[1]))
        && r.value.departure.date == d && r.value.arrival.date == d
  {
  }

  /** On a date the driver formats, a record's flightDate is that date at
      midnight, and its departure and arrival are the clock times of the
      item's first two pieces, on that same date. */
  lemma RecordOnSearchedDate(item: Item, d: Date, now: Instant)
    requires ValidDate(d)
    ensures var r := Assemble(item, FormatDate(d), now);
      r.Ok? ==>
        var pieces := SplitOn(item.times.value, EnDash);
        && r.value.flightDate == Midnight(d)
        && |pieces| >= 2
        && Some(r.value.departure) == StampOnDate(d, Strip(pieces[0]))
        && Some(r.value.arrival) == StampOnDate(d, Strip(pieces[1]))
        && r.value.departure.date == d && r.value.arrival.date == d
  {
    if item.times.Some? && !FourDigitYear(d) {
      AssembleOnShortYear(item, d, now);
    } else if item.times.Some? {
      var pieces := SplitOn(item.times.value, EnDash);
      var times := MapAll(pieces, p => StampOnDate(d, Strip(p)));
      StampsOfRecord(item, d, now, pieces, times);
    }
  }

  /** The record of an item with times, on a date from year 1000 on. */
  lemma StampsOfRecord(item: Item, d: Date, now: Instant, pieces: seq<string>, times: Option<seq<DateTime>>)
    requires ValidDate(d) && FourDigitYear(d) && item.times.Some?
    requires pieces == SplitOn(item.times.value, EnDash)
    requires times == MapAll(pieces, p => StampOnDate(d, Strip(p)))
    ensures var r := Assemble(item, FormatDate(d), now);
      r.Ok? ==>
        && r.value.flightDate == Midnight(d)
        && |pieces| >= 2
        && Some(r.value.departure) == StampOnDate(d, Strip(pieces[0]))
        && Some(r.value.arrival) == StampOnDate(d, Strip(pieces[1]))
        && r.value.departure.date == d && r.value.arrival.date == d
  {
    var f := p => StampOnDate(d, Strip(p));
    assert Assemble(item, FormatDate(d), now) == Record(item, times, Some(d), now) by {
      AssembleOnSearchedDate(item, d, now);
    }
    MapAllMeaning(pieces, f);
    RecordOfStamps(item, times, pieces, d, now);
  }

  /** An item whose times read "HH1:MM1 – HH2:MM2", with an identifier,
      a duration and a price that parses to n, becomes the record of a
      flight on the searched date departing at HH1:MM1 and arriving at
      HH2:MM2 on that same date. */
  lemma AssembleOfRange(flightId: string, h1: nat, m1: nat, h2: nat, m2: nat,
                        duration: string, price: string, n: nat, d: Date, now: Instant)
    requires h1 <= 23 && m1 <= 59 && h2 <= 23 && m2 <= 59 && ValidDate(d) && FourDigitYear(d)
    requires ParsePrice(price) == Some(n)
    ensures var item := Item(Some(flightId), Some(ClockText(h1, m1) + " \U{2013} " + ClockText(h2, m2)),
                             Some(duration), Some(price));
      Assemble(item, FormatDate(d), now)
        == Ok(Flight(flightId, Midnight(d), DateTime(d, h1, m1), DateTime(d, h2, m2), duration, n, now))
  {
    var times := ClockText(h1, m1) + " \U{2013} " + ClockText(h2, m2);
    var item := Item(Some(flightId), Some(times), Some(duration), Some(price));
    var dep, arr := DateTime(d, h1, m1), DateTime(d, h2, m2);
    calc {
      Assemble(item, FormatDate(d), now);
      Record(item, ParseTimes(times, FormatDate(d)), ParseDate(FormatDate(d)), now);
      { TimesOfRange(h1, m1, h2, m2, d); ParseDateOfFormat(d); }
      Record(item, Some([dep, arr]), Some(d), now);
      { RecordOfComplete(item, dep, arr, d, now, flightId, duration, price, n); }
      Ok(Flight(flightId, Midnight(d), dep, arr, duration, n, now));
    }
  }

  /** An item with every part present and a price that parses becomes the
      record of its first two times. */
  lemma RecordOfComplete(item: Item, dep: DateTime, arr: DateTime, d: Date, now: Instant,
                         flightId: string, duration: string, price: string, n: nat)
    requires item.fp == Some(flightId) && item.duration == Some(duration) && item.price == Some(price)
    requires ParsePrice(price) == Some(n)
    ensures Record(item, Some([dep, arr]), Some(d), now)
      == Ok(Flight(flightId, Midnight(d), dep, arr, duration, n, now))
  {
  }

  /** As written, a flight whose arrival clock time is earlier than its
      departure clock time is stored arriving before it departs. */
  lemma OvernightArrivesEarlier(flightId: string, h1: nat, m1: nat, h2: nat, m2: nat,
                                duration: string, price: string, n: nat, d: Date, now: Instant)
    requires h1 <= 23 && m1 <= 59 && h2 <= 23 && m2 <= 59 && ValidDate(d) && FourDigitYear(d)
    requires h2 < h1 || (h2 == h1 && m2 < m1)
    requires ParsePrice(price) == Some(n)
    ensures var item := Item(Some(flightId), Some(ClockText(h1, m1) + " \U{2013} " + ClockText(h2, m2)),
                             Some(duration), Some(price));
      var dep, arr := DateTime(d, h1, m1), DateTime(d, h2, m2);
      && Assemble(item, FormatDate(d), now) == Ok(Flight(flightId, Midnight(d), dep, arr, duration, n, now))
      && EarlierThan(arr, dep)
  {
    AssembleOfRange(flightId, h1, m1, h2, m2, duration, price, n, d, now);
    SameDayEarlier(d, h1, m1, h2, m2);
  }

  /** On one date, the earlier clock time is the earlier datetime. */
  lemma SameDayEarlier(d: Date, h1: nat, m1: nat, h2: nat, m2: nat)
    requires h2 < h1 || (h2 == h1 && m2 < m1)
    ensures EarlierThan(DateTime(d, h2, m2), DateTime(d, h1, m1))
  {
  }

  /** "23:50 – 00:20" is stored arriving at 00:20 on the day it departs. */
  lemma ArrivalBeforeDeparture(flightId: string, duration: string, d: Date, now: Instant)
    requires ValidDate(d) && FourDigitYear(d)
    ensures var item := Item(Some(flightId), Some(ClockText(23, 50) + " \U{2013} " + ClockText(0, 20)),
                             Some(duration), Some("1 500 kr"));
      var r := Assemble(item, FormatDate(d), now);
      && r.Ok?
      && r.value.departure == DateTime(d, 23, 50)
      && r.value.arrival == DateTime(d, 0, 20)
      && EarlierThan(r.value.arrival, r.value.departure)
  {
    PriceExample("1 500 kr");
    OvernightArrivesEarlier(flightId, 23, 50, 0, 20, duration, "1 500 kr", 1500, d, now);
  }

  // ---------------------------------------------------------------------
  // The generator
  // ---------------------------------------------------------------------

  /** What a generator whose loop body is `step` yields over `items`: the
      results of the items up to the first one that raises, and that
      exception. step(x, i) is the body run on item x, the i-th. */
  function Harvest(items: seq<Item>, step: (Item, nat) -> Result<Flight, Error>): (r: (seq<Flight>, Option<Error>))
    ensures |r.0| <= |items|
    ensures r.1.None? ==> |r.0| == |items|
    decreases |items|
  {
    if items == [] then ([], None)
    else
      var n := |items| - 1;
      var before := Harvest(items[..n], step);
      if before.1.Some? then before
      else match step(items[n], n)
        case Ok(f) => (before.0 + [f], None)
        case Err(e) => (before.0, Some(e))
  }

  /** The body of parseFlights' loop on the i-th item, datetime.now()
      being clock(i) when item i is reached. */
  function FlightStep(date: string, clock: nat -> Instant): (step: (Item, nat) -> Result<Flight, Error>)
    ensures forall item: Item, i: nat :: step(item, i).Ok? ==> step(item, i).value.timestamp == clock(i)
  {
    (item: Item, i: nat) => Assemble(item, date, clock(i))
  }

  /** One result per item, in document order, until the first item that
      raises; that item's error ends the generator and no later item is
      looked at. */
  lemma {:induction false} HarvestYields(items: seq<Item>, step: (Item, nat) -> Result<Flight, Error>)
    ensures var (flights, failure) := Harvest(items, step);
      && |flights| <= |items|
      && (forall i :: 0 <= i < |flights| ==> step(items[i], i) == Ok(flights[i]))
      && (failure.None? <==> |flights| == |items|)
      && (failure.Some? ==> step(items[|flights|], |flights|) == Err(failure.value))
    decreases |items|
  {
    if items != [] {
      var n := |items| - 1;
      HarvestYields(items[..n], step);
      assert forall i :: 0 <= i < n ==> items[..n][i] == items[i];
    }
  }

  /** Once an item has raised, later items change nothing. */
  lemma {:induction false} HarvestStops(items: seq<Item>, k: nat, step: (Item, nat) -> Result<Flight, Error>)
    requires k <= |items| && Harvest(items[..k], step).1.Some?
    ensures Harvest(items, step) == Harvest(items[..k], step)
    decreases |items| - k
  {
    if k < |items| {
      var n := |items| - 1;
      assert items[..n][..k] == items[..k];
      HarvestStops(items[..n], k, step);
    } else {
      assert items[..k] == items;
    }
  }

  /** The generator after one more item, while no earlier item has raised. */
  lemma HarvestNext(items: seq<Item>, k: nat, step: (Item, nat) -> Result<Flight, Error>)
    requires k < |items| && Harvest(items[..k], step).1.None?
    ensures Harvest(items[..k + 1], step) == match step(items[k], k)
      case Ok(f) => (Harvest(items[..k], step).0 + [f], None)
      case Err(e) => (Harvest(items[..k], step).0, Some(e))
  {
    assert items[..k + 1][..k] == items[..k];
  }

  /** The loop of parseFlights (flyhigh.py:35-45), run to completion: the
      records it yields and the exception it stops with. */
  method ParseFlights(items: seq<Item>, date: string, clock: nat -> Instant)
    returns (flights: seq<Flight>, failure: Option<Error>)
    ensures (flights, failure) == Harvest(items, FlightStep(date, clock))
  {
    var step := FlightStep(date, clock);
    flights, failure := [], None;
    var k := 0;
    while k < |items|
      invariant 0 <= k <= |items|
      invariant Harvest(items[..k], step) == (flights, None)
    {
      var r := step(items[k], k);
      HarvestNext(items, k, step);
      match r
      case Err(e) =>
        failure := Some(e);
        HarvestStops(items, k + 1, step);
        return;
      case Ok(f) =>
        flights := flights + [f];
      k := k + 1;
    }
    assert items[..k] == items;
  }

  // ---------------------------------------------------------------------
  // A separately named correction: overnight rollover
  // ---------------------------------------------------------------------

  /** Not what flyhigh.py does: the arrival moved to the next day when its
      clock time is earlier than the departure's. */
  function WithRollover(f: Flight): (g: Flight)
    requires ValidDateTime(f.arrival) && f.arrival.date != LastDate
    ensures g == f.(arrival := g.arrival)
    ensures g.arrival == f.arrival.(date := g.arrival.date)
    ensures g.arrival.date == f.arrival.date || g.arrival.date == NextDay(f.arrival.date)
  {
    if f.arrival.hour < f.departure.hour
       || (f.arrival.hour == f.departure.hour && f.arrival.minute < f.departure.minute)
    then f.(arrival := f.arrival.(date := NextDay(f.arrival.date)))
    else f
  }

  /** With the correction, a flight whose clock times are on one date
      arrives that day when the arrival time is not earlier than the
      departure time and the next day otherwise, so the arrival never
      precedes the departure. */
  lemma RolloverOrders(f: Flight)
    requires ValidDateTime(f.departure) && ValidDateTime(f.arrival)
    requires f.departure.date == f.arrival.date && f.arrival.date != LastDate
    ensures var g := WithRollover(f);
      var overnight := EarlierThan(f.arrival, f.departure);
      && g.departure == f.departure
      && g.arrival == f.arrival.(date := if overnight then NextDay(f.arrival.date) else f.arrival.date)
      && !EarlierThan(g.arrival, g.departure)
  {
  }

  /** A record departing at HH1:MM1 and arriving at HH2:MM2 on the
      searched date d, as AssembleOfRange gives it, corrected: the arrival
      is at HH2:MM2 on d or, when that is earlier than HH1:MM1, on the day
      after d. */
  lemma RolloverOrdersArrival(f: Flight, d: Date, h1: nat, m1: nat, h2: nat, m2: nat)
    requires h1 <= 23 && m1 <= 59 && h2 <= 23 && m2 <= 59 && ValidDate(d) && d != LastDate
    requires f.departure == DateTime(d, h1, m1) && f.arrival == DateTime(d, h2, m2)
    ensures var overnight := h2 < h1 || (h2 == h1 && m2 < m1);
      && WithRollover(f).departure == DateTime(d, h1, m1)
      && WithRollover(f).arrival == DateTime(if overnight then NextDay(d) else d, h2, m2)
      && !EarlierThan(WithRollover(f).arrival, WithRollover(f).departure)
  {
    RolloverOrders(f);
  }
}

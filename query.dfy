/** buildQueryURL (flyhigh.py:13-16): the search-page address for one
    origin, destination, departure date and currency, and the parser that
    recovers those four from it. */
module Query {
  import opened Wrappers
  import opened Text

  /** The fixed text of the template before {fr}. */
  const Prefix := "https://www.google.com/flights#flt="

  /** The fixed text of the template after {currency}. */
  const Suffix := ";e:1;s:0;sd:1;t:f;tt:o"

  /** The trailing ';'-separated options of the template, after "c:{currency}". */
  const Options: seq<string> := ["e:1", "s:0", "sd:1", "t:f", "tt:o"]

  datatype Search = Search(fr: string, to: string, date: string, currency: string)

  /** url.format(fr = fr, to = to, date = date, currency = currency) */
  function BuildQueryURL(fr: string, to: string, date: string, currency: string): (url: string)
    ensures |url| == |Prefix| + |fr| + |to| + |date| + |currency| + 5 + |Suffix|
    ensures url[..|Prefix|] == Prefix && url[|url| - |Suffix|..] == Suffix
  {
    Prefix + fr + "." + to + "." + date + ";c:" + currency + Suffix
  }

  /** The four values can be told apart in the address when the first three
      hold neither '.' nor ';' and the currency holds no ';'. */
  predicate Separable(q: Search) {
    && '.' !in q.fr && ';' !in q.fr
    && '.' !in q.to && ';' !in q.to
    && '.' !in q.date && ';' !in q.date
    && ';' !in q.currency
  }

  /** Reads origin, destination, date and currency back out of an address
      of the template's shape. */
  function ParseQueryURL(url: string): (r: Option<Search>)
    ensures r.Some? ==> Separable(r.value)
  {
    if |url| < |Prefix| || url[..|Prefix|] != Prefix then None
    else
      var parts := SplitOn(url[|Prefix|..], ';');
      if |parts| != 7 || parts[2..] != Options || |parts[1]| < 2 || parts[1][..2] != "c:" then None
      else
        var route := SplitOn(parts[0], '.');
        if |route| != 3 then None
        else
          SplitKeepsOut(parts[0], '.', ';');
          Some(Search(route[0], route[1], route[2], parts[1][2..]))
  }

  /** The trailing options joined by ';' are the template's suffix after
      its leading ';'. */
  lemma OptionsText()
    ensures Join(Options, ';') == Suffix[1..]
  {
    calc {
      Join(Options, ';');
      { JoinFive("e:1", "s:0", "sd:1", "t:f", "tt:o", ';'); }
      "e:1" + [';'] + "s:0" + [';'] + "sd:1" + [';'] + "t:f" + [';'] + "tt:o";
      Suffix[1..];
    }
  }

  /** Five pieces joined by a separator. */
  lemma JoinFive(a: string, b: string, c: string, d: string, e: string, sep: char)
    ensures Join([a, b, c, d, e], sep) == a + [sep] + b + [sep] + c + [sep] + d + [sep] + e
  {
    JoinCons(d, [e], sep);
    JoinCons(c, [d, e], sep);
    JoinCons(b, [c, d, e], sep);
    JoinCons(a, [b, c, d, e], sep);
  }

  /** Joining a piece in front of at least one more. */
  lemma JoinCons(p: string, ps: seq<string>, sep: char)
    requires |ps| >= 1
    ensures Join([p] + ps, sep) == p + [sep] + Join(ps, sep)
  {
    assert ([p] + ps)[1..] == ps;
  }

  /** "fr.to.date" is the '.'-join of the three. */
  lemma RouteText(fr: string, to: string, date: string)
    ensures Join([fr, to, date], '.') == fr + "." + to + "." + date
  {
    assert [to, date][1..] == [date];
    assert Join([to, date], '.') == to + "." + date;
    assert [fr, to, date][1..] == [to, date];
  }

  /** The address written as the prefix followed by its ';'-separated parts. */
  lemma URLShape(q: Search)
    ensures BuildQueryURL(q.fr, q.to, q.date, q.currency)
      == Prefix + Join([Join([q.fr, q.to, q.date], '.'), "c:" + q.currency] + Options, ';')
  {
    var route := Join([q.fr, q.to, q.date], '.');
    var cur := "c:" + q.currency;
    calc {
      Prefix + Join([route, cur] + Options, ';');
      { PartsText(route, cur); }
      Prefix + (route + [';'] + cur + Suffix);
      { RouteText(q.fr, q.to, q.date); }
      Prefix + ((q.fr + "." + q.to + "." + q.date) + [';'] + cur + Suffix);
      { TemplateRegroup(Prefix, q.fr, q.to, q.date, q.currency, Suffix); }
      Prefix + q.fr + "." + q.to + "." + q.date + ";c:" + q.currency + Suffix;
    }
  }

  /** The template's pieces, regrouped around the ';' before "c:". */
  lemma TemplateRegroup(pre: string, fr: string, to: string, date: string, currency: string, post: string)
    ensures pre + ((fr + "." + to + "." + date) + [';'] + ("c:" + currency) + post)
      == pre + fr + "." + to + "." + date + ";c:" + currency + post
  {
    assert [';'] + ("c:" + currency) == ";c:" + currency;
  }

  /** The route and the currency option, followed by the trailing options,
      joined by ';'. */
  lemma PartsText(route: string, cur: string)
    ensures Join([route, cur] + Options, ';') == route + [';'] + cur + Suffix
  {
    var ps := [route, cur] + Options;
    calc {
      Join(ps, ';');
      { assert ps == [route] + ([cur] + Options); JoinCons(route, [cur] + Options, ';'); }
      route + [';'] + Join([cur] + Options, ';');
      { JoinCons(cur, Options, ';'); }
      route + [';'] + (cur + [';'] + Join(Options, ';'));
      { OptionsText(); }
      route + [';'] + (cur + [';'] + Suffix[1..]);
      { assert Suffix == [';'] + Suffix[1..]; }
      route + [';'] + cur + Suffix;
    }
  }

  /** Every separable search is recovered from its address. */
  lemma ParseOfBuild(q: Search)
    requires Separable(q)
    ensures ParseQueryURL(BuildQueryURL(q.fr, q.to, q.date, q.currency)) == Some(q)
  {
    var url := BuildQueryURL(q.fr, q.to, q.date, q.currency);
    var route := Join([q.fr, q.to, q.date], '.');
    var ps := [route, "c:" + q.currency] + Options;
    URLShape(q);
    assert url[..|Prefix|] == Prefix;
    assert url[|Prefix|..] == Join(ps, ';');
    SplitOfJoin([q.fr, q.to, q.date], '.');
    JoinOfSplit(route, ';');
    JoinKeepsOut([q.fr, q.to, q.date], '.', ';');
    SplitOfJoin(ps, ';');
    assert ps[1][2..] == q.currency;
  }

  /** Conversely, an address that parses is the address built from what
      it parses to: the parser accepts nothing else. */
  lemma BuildOfParse(url: string)
    requires ParseQueryURL(url).Some?
    ensures var q := ParseQueryURL(url).value;
      BuildQueryURL(q.fr, q.to, q.date, q.currency) == url
  {
    var q := ParseQueryURL(url).value;
    var parts := SplitOn(url[|Prefix|..], ';');
    var route := SplitOn(parts[0], '.');
    JoinOfSplit(url[|Prefix|..], ';');
    JoinOfSplit(parts[0], '.');
    assert route == [q.fr, q.to, q.date];
    assert parts[1] == "c:" + q.currency;
    assert parts == [Join(route, '.'), "c:" + q.currency] + Options;
    URLShape(q);
    assert url == url[..|Prefix|] + url[|Prefix|..];
  }
}

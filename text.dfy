/** The Python string built-ins the scraper relies on, restricted to what it
    uses: str.split() with and without a separator, str.strip(),
    str.isdigit() and int() of a digit string; and the decimal digits of a
    non-negative integer, as strftime writes a date's fields. Digits are
    ASCII digits only. */
module Text {

  /** str.isspace() for one character: ASCII whitespace, the information
      separators, NEL, NO-BREAK SPACE and the Unicode space separators. */
  predicate IsSpace(c: char) {
    || c == ' '
    || ('\t' <= c <= '\r')
    || ('\U{1c}' <= c <= '\U{1f}')
    || c == '\U{85}' || c == '\U{a0}' || c == '\U{1680}'
    || ('\U{2000}' <= c <= '\U{200a}')
    || c == '\U{2028}' || c == '\U{2029}' || c == '\U{202f}'
    || c == '\U{205f}' || c == '\U{3000}'
  }

  predicate IsDigit(c: char) {
    '0' <= c <= '9'
  }

  predicate AllDigits(s: string) {
    forall i :: 0 <= i < |s| ==> IsDigit(s[i])
  }

  /** str.isdigit(): at least one character, and every character a digit. */
  predicate IsNumeral(s: string) {
    |s| > 0 && AllDigits(s)
  }

  predicate NoSpace(s: string) {
    forall i :: 0 <= i < |s| ==> !IsSpace(s[i])
  }

  /** Digits are not whitespace. */
  lemma NumeralNoSpace(s: string)
    requires AllDigits(s)
    ensures NoSpace(s)
  {
    forall i | 0 <= i < |s|
      ensures !IsSpace(s[i])
    {
      assert IsDigit(s[i]);
    }
  }

  function DigitValue(c: char): (d: nat)
    requires IsDigit(c)
    ensures d < 10
  {
    (c as int - '0' as int) as nat
  }

  function DigitChar(d: nat): (c: char)
    requires d < 10
    ensures IsDigit(c) && DigitValue(c) == d
  {
    ('0' as int + d) as char
  }

  function Pow10(k: nat): (p: nat)
    ensures p >= 1
  {
    if k == 0 then 1 else 10 * Pow10(k - 1)
  }

  // ---------------------------------------------------------------------
  // int() and str() on non-negative integers
  // ---------------------------------------------------------------------

  /** int(s) for a string of ASCII digits (leading zeros allowed). */
  function Numeral(s: string): (n: nat)
    requires AllDigits(s)
    ensures n < Pow10(|s|)
  {
    if s == [] then 0 else Numeral(s[..|s| - 1]) * 10 + DigitValue(s[|s| - 1])
  }

  /** The shortest decimal numeral of n: the digits strftime writes for a
      year. */
  function Decimal(n: nat): (s: string)
    ensures IsNumeral(s)
    ensures n < 10 <==> |s| == 1
  {
    if n < 10 then [DigitChar(n)] else Decimal(n / 10) + [DigitChar(n % 10)]
  }

  /** The decimal numeral of n left-padded with zeros to at least `width`
      characters, as strftime's %m and %d write it. */
  function Padded(n: nat, width: nat): (s: string)
    ensures IsNumeral(s)
    ensures |s| == if |Decimal(n)| < width then width else |Decimal(n)|
  {
    var d := Decimal(n);
    if |d| >= width then d else Zeros(width - |d|) + d
  }

  function Zeros(k: nat): (s: string)
    ensures |s| == k && AllDigits(s)
    ensures forall i :: 0 <= i < k ==> s[i] == '0'
  {
    seq(k, _ => '0')
  }

  /** int() reads back the numeral of n. */
  lemma {:induction false} NumeralOfDecimal(n: nat)
    ensures Numeral(Decimal(n)) == n
  {
    if n >= 10 {
      var s := Decimal(n);
      assert s[..|s| - 1] == Decimal(n / 10);
      NumeralOfDecimal(n / 10);
    }
  }

  /** The value of a concatenation of digit strings. */
  lemma {:induction false} NumeralAppend(a: string, b: string)
    requires AllDigits(a) && AllDigits(b)
    ensures Numeral(a + b) == Numeral(a) * Pow10(|b|) + Numeral(b)
  {
    if b == [] {
      assert a + b == a;
    } else {
      var b' := b[..|b| - 1];
      var digit := DigitValue(b[|b| - 1]);
      assert (a + b)[..|a + b| - 1] == a + b';
      assert (a + b)[|a + b| - 1] == b[|b| - 1];
      NumeralAppend(a, b');
      Regroup(Numeral(a), Pow10(|b'|), Numeral(b'), digit,
              Numeral(a + b'), Numeral(a + b), Numeral(b), Pow10(|b|));
    }
  }

  /** Appending a digit to the second part shifts the first one more
      place: with ab' = x * p + n, ab = ab' * 10 + digit, nb = n * 10 + digit
      and pb = 10 * p, ab = x * pb + nb. */
  lemma Regroup(x: int, p: int, n: int, digit: int, ab': int, ab: int, nb: int, pb: int)
    requires ab' == x * p + n && ab == ab' * 10 + digit
    requires nb == n * 10 + digit && pb == 10 * p
    ensures ab == x * pb + nb
  {
  }

  lemma {:induction false} NumeralOfZeros(k: nat)
    ensures Numeral(Zeros(k)) == 0
  {
    if k > 0 {
      assert Zeros(k)[..k - 1] == Zeros(k - 1);
      NumeralOfZeros(k - 1);
    }
  }

  /** int() ignores the zeros that padding adds. */
  lemma NumeralOfPadded(n: nat, width: nat)
    ensures Numeral(Padded(n, width)) == n
  {
    NumeralOfDecimal(n);
    var d := Decimal(n);
    if |d| < width {
      var z := Zeros(width - |d|);
      assert Padded(n, width) == z + d;
      NumeralAppend(z, d);
      NumeralOfZeros(width - |d|);
      assert Numeral(z) * Pow10(|d|) == 0;
    }
  }

  /** A number below 10^w has at most w digits. */
  lemma {:induction false} DecimalLength(n: nat, w: nat)
    requires 1 <= w && n < Pow10(w)
    ensures |Decimal(n)| <= w
  {
    if n >= 10 {
      assert Pow10(1) == 10;
      assert n / 10 < Pow10(w - 1);
      DecimalLength(n / 10, w - 1);
    }
  }

  /** A number of at least 10^w has more than w digits. */
  lemma {:induction false} DecimalLengthAbove(n: nat, w: nat)
    requires Pow10(w) <= n
    ensures |Decimal(n)| > w
  {
    if w > 0 {
      assert Pow10(w - 1) <= n / 10;
      DecimalLengthAbove(n / 10, w - 1);
    }
  }

  /** A four-digit number needs no padding to four places. */
  lemma DecimalOfFourDigits(n: nat)
    requires 1000 <= n < 10000
    ensures |Decimal(n)| == 4 && Padded(n, 4) == Decimal(n)
  {
    assert Pow10(3) == 1000 && Pow10(4) == 10000;
    DecimalLength(n, 4);
    DecimalLengthAbove(n, 3);
  }

  lemma PaddedLength(n: nat, w: nat)
    requires 1 <= w && n < Pow10(w)
    ensures |Padded(n, w)| == w
  {
    DecimalLength(n, w);
  }

  // ---------------------------------------------------------------------
  // str.strip() and str.split() without a separator
  // ---------------------------------------------------------------------

  /** s without its leading whitespace. */
  function TrimStart(s: string): (r: string)
    ensures |r| <= |s|
    ensures r == [] || !IsSpace(r[0])
  {
    if s != [] && IsSpace(s[0]) then TrimStart(s[1..]) else s
  }

  /** What TrimStart drops is whitespace, and what it keeps is a suffix. */
  lemma {:induction false} TrimStartDropsSpace(s: string)
    ensures var r := TrimStart(s);
      && r == s[|s| - |r|..]
      && forall i :: 0 <= i < |s| - |r| ==> IsSpace(s[i])
  {
    if s != [] && IsSpace(s[0]) {
      TrimStartDropsSpace(s[1..]);
    }
  }

  /** s without its trailing whitespace. */
  function TrimEnd(s: string): (r: string)
    ensures |r| <= |s|
    ensures r == [] || !IsSpace(r[|r| - 1])
  {
    if s != [] && IsSpace(s[|s| - 1]) then TrimEnd(s[..|s| - 1]) else s
  }

  /** What TrimEnd drops is whitespace, and what it keeps is a prefix. */
  lemma {:induction false} TrimEndDropsSpace(s: string)
    ensures var r := TrimEnd(s);
      && r == s[..|r|]
      && forall i :: |r| <= i < |s| ==> IsSpace(s[i])
  {
    if s != [] && IsSpace(s[|s| - 1]) {
      TrimEndDropsSpace(s[..|s| - 1]);
    }
  }

  /** str.strip() */
  function Strip(s: string): (r: string)
    ensures |r| <= |s|
    ensures r == [] || (!IsSpace(r[0]) && !IsSpace(r[|r| - 1]))
  {
    TrimEndDropsSpace(TrimStart(s));
    TrimEnd(TrimStart(s))
  }

  predicate AllSpace(s: string) {
    forall i :: 0 <= i < |s| ==> IsSpace(s[i])
  }

  lemma {:induction false} TrimStartSpaces(pre: string, w: string)
    requires AllSpace(pre) && (w == [] || !IsSpace(w[0]))
    ensures TrimStart(pre + w) == w
  {
    if pre != [] {
      assert (pre + w)[1..] == pre[1..] + w;
      TrimStartSpaces(pre[1..], w);
    } else {
      assert pre + w == w;
    }
  }

  lemma {:induction false} TrimEndSpaces(w: string, post: string)
    requires AllSpace(post) && (w == [] || !IsSpace(w[|w| - 1]))
    ensures TrimEnd(w + post) == w
  {
    if post != [] {
      var s := w + post;
      assert s[..|s| - 1] == w + post[..|post| - 1];
      TrimEndSpaces(w, post[..|post| - 1]);
    } else {
      assert w + post == w;
    }
  }

  /** strip() removes exactly the whitespace around a text that neither
      starts nor ends with whitespace. */
  lemma StripSurrounded(pre: string, w: string, post: string)
    requires AllSpace(pre) && AllSpace(post)
    requires w == [] || (!IsSpace(w[0]) && !IsSpace(w[|w| - 1]))
    ensures Strip(pre + w + post) == w
  {
    if w == [] {
      assert pre + w + post == pre + post;
      TrimStartSpaces(pre + post, []);
      assert pre + post + [] == pre + post;
    } else {
      assert pre + w + post == pre + (w + post);
      TrimStartSpaces(pre, w + post);
      TrimEndSpaces(w, post);
    }
  }

  /** One whitespace character before or after a word is stripped off. */
  lemma StripOneSpace(c: char, w: string)
    requires IsSpace(c) && |w| > 0 && !IsSpace(w[0]) && !IsSpace(w[|w| - 1])
    ensures Strip(w + [c]) == w && Strip([c] + w) == w
  {
    assert Strip(w + [c]) == w by {
      StripSurrounded([], w, [c]);
      assert [] + w + [c] == w + [c];
    }
    assert Strip([c] + w) == w by {
      StripSurrounded([c], w, []);
      assert [c] + w + [] == [c] + w;
    }
  }

  /** Length of the run of non-whitespace characters that starts s. */
  function WordLength(s: string): (k: nat)
    ensures k <= |s|
    ensures forall i :: 0 <= i < k ==> !IsSpace(s[i])
    ensures k == |s| || IsSpace(s[k])
  {
    if s == [] || IsSpace(s[0]) then 0 else 1 + WordLength(s[1..])
  }

  /** str.split() with no separator: the maximal runs of non-whitespace
      characters, in order; never an empty word. */
  function Words(s: string): (ws: seq<string>)
    ensures forall i :: 0 <= i < |ws| ==> |ws[i]| > 0 && NoSpace(ws[i])
    decreases |s|
  {
    var t := TrimStart(s);
    if t == [] then []
    else
      var k := WordLength(t);
      [t[..k]] + Words(t[k..])
  }

  lemma {:induction false} WordLengthOf(w: string, rest: string)
    requires NoSpace(w) && (rest == [] || IsSpace(rest[0]))
    ensures WordLength(w + rest) == |w|
  {
    if w != [] {
      assert (w + rest)[1..] == w[1..] + rest;
      WordLengthOf(w[1..], rest);
    } else {
      assert w + rest == rest;
    }
  }

  /** Whitespace between words only separates them. */
  lemma WordsAfterSpace(c: char, rest: string)
    requires IsSpace(c)
    ensures Words([c] + rest) == Words(rest)
  {
    assert ([c] + rest)[1..] == rest;
  }

  /** A word followed by whitespace is split off as one token. */
  lemma WordsCons(w: string, c: char, rest: string)
    requires |w| > 0 && NoSpace(w) && IsSpace(c)
    ensures Words(w + [c] + rest) == [w] + Words(rest)
  {
    var s := w + [c] + rest;
    assert s == w + ([c] + rest);
    WordLengthOf(w, [c] + rest);
    assert s[..|w|] == w;
    assert s[|w|..] == [c] + rest;
    WordsAfterSpace(c, rest);
  }

  /** Two tokens separated by one whitespace character. */
  lemma WordsOfTwo(b: string, c: string, sp: char)
    requires |b| > 0 && NoSpace(b) && |c| > 0 && NoSpace(c) && IsSpace(sp)
    ensures Words(b + [sp] + c) == [b, c]
  {
    WordsCons(b, sp, c);
    WordsOfWord(c);
  }

  /** Three tokens separated by single whitespace characters. */
  lemma WordsOfThree(a: string, b: string, c: string, sp: char)
    requires |a| > 0 && NoSpace(a) && |b| > 0 && NoSpace(b) && |c| > 0 && NoSpace(c) && IsSpace(sp)
    ensures Words(a + [sp] + b + [sp] + c) == [a, b, c]
  {
    var tail := b + [sp] + c;
    SeparatedAssoc(a, b, c, sp);
    WordsCons(a, sp, tail);
    WordsOfTwo(b, c, sp);
  }

  /** Regrouping three pieces joined by single separators. */
  lemma SeparatedAssoc<T>(a: seq<T>, b: seq<T>, c: seq<T>, sp: T)
    ensures a + [sp] + b + [sp] + c == a + [sp] + (b + [sp] + c)
  {
  }

  lemma WordsOfWord(w: string)
    requires |w| > 0 && NoSpace(w)
    ensures Words(w) == [w]
  {
    WordLengthOf(w, []);
    assert w + [] == w;
    assert w[|w|..] == [];
  }

  // ---------------------------------------------------------------------
  // str.split(sep) with a one-character separator, and its inverse
  // ---------------------------------------------------------------------

  /** s.split(sep): the pieces between occurrences of sep, in order,
      including empty pieces; there is always at least one piece. */
  function SplitOn(s: string, sep: char): (ps: seq<string>)
    ensures |ps| >= 1
    ensures forall i :: 0 <= i < |ps| ==> sep !in ps[i]
  {
    if s == [] then [[]]
    else
      var rest := SplitOn(s[1..], sep);
      if s[0] == sep then [[]] + rest else [[s[0]] + rest[0]] + rest[1..]
  }

  /** sep.join(ps) */
  function Join(ps: seq<string>, sep: char): string
    requires |ps| >= 1
  {
    if |ps| == 1 then ps[0] else ps[0] + [sep] + Join(ps[1..], sep)
  }

  /** Joining the pieces of a split gives the text back. */
  lemma {:induction false} JoinOfSplit(s: string, sep: char)
    ensures Join(SplitOn(s, sep), sep) == s
  {
    if s != [] {
      var rest := SplitOn(s[1..], sep);
      JoinOfSplit(s[1..], sep);
      if s[0] == sep {
        assert SplitOn(s, sep)[1..] == rest;
      } else {
        var ps := SplitOn(s, sep);
        if |rest| == 1 {
          assert ps == [[s[0]] + rest[0]];
        } else {
          assert ps[1..] == rest[1..];
          assert Join(rest, sep) == rest[0] + [sep] + Join(rest[1..], sep);
        }
      }
    }
  }

  lemma {:induction false} SplitOfPiece(w: string, sep: char)
    requires sep !in w
    ensures SplitOn(w, sep) == [w]
  {
    if w != [] {
      SplitOfPiece(w[1..], sep);
      assert [w[0]] + w[1..] == w;
    }
  }

  lemma {:induction false} SplitOfPrefix(w: string, sep: char, rest: string)
    requires sep !in w
    ensures SplitOn(w + [sep] + rest, sep) == [w] + SplitOn(rest, sep)
  {
    var s := w + [sep] + rest;
    if w == [] {
      assert s[1..] == rest;
    } else {
      assert s[1..] == w[1..] + [sep] + rest;
      SplitOfPrefix(w[1..], sep, rest);
      assert [w[0]] + w[1..] == w;
    }
  }

  /** Splitting a join of separator-free pieces gives the pieces back. */
  lemma {:induction false} SplitOfJoin(ps: seq<string>, sep: char)
    requires |ps| >= 1
    requires forall i :: 0 <= i < |ps| ==> sep !in ps[i]
    ensures SplitOn(Join(ps, sep), sep) == ps
  {
    if |ps| == 1 {
      SplitOfPiece(ps[0], sep);
    } else {
      SplitOfJoin(ps[1..], sep);
      SplitOfPrefix(ps[0], sep, Join(ps[1..], sep));
      assert [ps[0]] + ps[1..] == ps;
    }
  }

  /** A character missing from a text is missing from each of its pieces. */
  lemma {:induction false} SplitKeepsOut(s: string, sep: char, c: char)
    requires c !in s
    ensures forall i :: 0 <= i < |SplitOn(s, sep)| ==> c !in SplitOn(s, sep)[i]
  {
    if s != [] {
      SplitKeepsOut(s[1..], sep, c);
    }
  }

  /** A character that is neither the separator nor in any piece is
      missing from the join. */
  lemma {:induction false} JoinKeepsOut(ps: seq<string>, sep: char, c: char)
    requires |ps| >= 1 && c != sep
    requires forall i :: 0 <= i < |ps| ==> c !in ps[i]
    ensures c !in Join(ps, sep)
  {
    if |ps| > 1 {
      JoinKeepsOut(ps[1..], sep, c);
    }
  }
}

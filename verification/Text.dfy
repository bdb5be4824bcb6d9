/** The string operations of Rust's standard library that the builder and the translator
    rely on: split, replace, the trims, suffix tests and decimal formatting. */
module Text {

  datatype Option<+T> = None | Some(value: T)

  // ---- counting and membership --------------------------------------------------------

  function Count<T(==)>(s: seq<T>, c: T): nat
  {
    if s == [] then 0 else (if s[0] == c then 1 else 0) + Count(s[1..], c)
  }

  lemma CountConcat<T>(a: seq<T>, b: seq<T>, c: T)
    ensures Count(a + b, c) == Count(a, c) + Count(b, c)
  {
    if a == [] {
      assert a + b == b;
    } else {
      assert (a + b)[1..] == a[1..] + b;
    }
  }

  lemma CountZero<T>(s: seq<T>, c: T)
    ensures Count(s, c) == 0 <==> c !in s
  {
  }

  lemma ConcatTail<T>(a: seq<T>, b: seq<T>)
    requires a != []
    ensures a + b != [] && (a + b)[0] == a[0] && (a + b)[1..] == a[1..] + b
  {
  }

  lemma Associate<T>(a: seq<T>, b: seq<T>, c: seq<T>)
    ensures a + (b + c) == a + b + c
  {
  }

  lemma SamePrefix<T>(a: seq<T>, x: seq<T>, y: seq<T>)
    ensures a + x == a + y <==> x == y
  {
    assert (a + x)[|a|..] == x && (a + y)[|a|..] == y;
  }

  // ---- split --------------------------------------------------------------------------

  /** The parts of `s` between the occurrences of `sep`; never empty. */
  function Split<T(==)>(s: seq<T>, sep: T): (parts: seq<seq<T>>)
    ensures |parts| == Count(s, sep) + 1
  {
    if s == [] then [[]]
    else
      var rest := Split(s[1..], sep);
      if s[0] == sep then [[]] + rest else [[s[0]] + rest[0]] + rest[1..]
  }

  lemma SplitNone<T>(s: seq<T>, sep: T)
    requires sep !in s
    ensures Split(s, sep) == [s]
  {
    if s != [] {
      SplitNone(s[1..], sep);
      assert [s[0]] + s[1..] == s;
    }
  }

  lemma SplitFirst<T>(a: seq<T>, sep: T, b: seq<T>)
    requires sep !in a
    ensures Split(a + [sep] + b, sep) == [a] + Split(b, sep)
  {
    var s := a + [sep] + b;
    if a == [] {
      assert s[1..] == b;
    } else {
      assert s[1..] == a[1..] + [sep] + b;
      SplitFirst(a[1..], sep, b);
      assert [a[0]] + a[1..] == a;
    }
  }

  /** The items in order, `sep` between them. */
  function Separated<T>(items: seq<seq<T>>, sep: seq<T>): seq<T> {
    if items == [] then []
    else if |items| == 1 then items[0]
    else items[0] + sep + Separated(items[1..], sep)
  }

  lemma {:induction false} SeparatedSnoc<T>(items: seq<seq<T>>, item: seq<T>, sep: seq<T>)
    ensures Separated(items + [item], sep) == if items == [] then item else Separated(items, sep) + sep + item
  {
    if items != [] {
      assert (items + [item])[1..] == items[1..] + [item];
      SeparatedSnoc(items[1..], item, sep);
    }
  }

  /** Splitting gives the parts that hold no separator and make up the text. */
  lemma {:induction false} SplitExactly<T>(s: seq<T>, sep: T)
    ensures Separated(Split(s, sep), [sep]) == s
    ensures forall p | p in Split(s, sep) :: sep !in p
  {
    if s != [] {
      var rest := Split(s[1..], sep);
      assert Split(s, sep) == if s[0] == sep then [[]] + rest else [[s[0]] + rest[0]] + rest[1..];
      hide *;
      SplitExactly(s[1..], sep);
      assert s == [s[0]] + s[1..];
      assert rest[0] in rest && forall p | p in rest[1..] :: p in rest;
      if s[0] == sep {
        SeparatedFront(rest, sep);
      } else {
        SeparatedPrepend(s[0], rest, sep);
      }
    }
  }

  lemma SeparatedFront<T>(parts: seq<seq<T>>, sep: T)
    requires parts != []
    ensures Separated([[]] + parts, [sep]) == [sep] + Separated(parts, [sep])
  {
    assert ([[]] + parts)[1..] == parts;
  }

  lemma SeparatedPrepend<T>(c: T, parts: seq<seq<T>>, sep: T)
    requires parts != []
    ensures Separated([[c] + parts[0]] + parts[1..], [sep]) == [c] + Separated(parts, [sep])
  {
    var all := [[c] + parts[0]] + parts[1..];
    if |parts| > 1 {
      assert all[1..] == parts[1..];
      var tail := Separated(parts[1..], [sep]);
      assert [c] + parts[0] + [sep] + tail == [c] + (parts[0] + [sep] + tail);
    }
  }

  // ---- replace ------------------------------------------------------------------------

  /** `str::replace`: left to right, non-overlapping. */
  function Replace(s: string, pat: string, to: string): string
    requires pat != ""
  {
    if |s| < |pat| then s
    else if pat <= s then to + Replace(s[|pat|..], pat, to)
    else [s[0]] + Replace(s[1..], pat, to)
  }

  /** How many times `Replace` replaces. */
  function Occurs(s: string, pat: string): nat
    requires pat != ""
  {
    if |s| < |pat| then 0
    else if pat <= s then 1 + Occurs(s[|pat|..], pat)
    else Occurs(s[1..], pat)
  }

  /** The text before the last replaced occurrence, and the text after it. */
  function BeforeLast(s: string, pat: string): string
    requires pat != "" && Occurs(s, pat) > 0
  {
    if pat <= s then
      if Occurs(s[|pat|..], pat) == 0 then "" else pat + BeforeLast(s[|pat|..], pat)
    else [s[0]] + BeforeLast(s[1..], pat)
  }

  function AfterLast(s: string, pat: string): string
    requires pat != "" && Occurs(s, pat) > 0
  {
    if pat <= s then
      if Occurs(s[|pat|..], pat) == 0 then s[|pat|..] else AfterLast(s[|pat|..], pat)
    else AfterLast(s[1..], pat)
  }

  lemma ReplaceNone(s: string, pat: string, to: string)
    requires pat != "" && Occurs(s, pat) == 0
    ensures Replace(s, pat, to) == s
  {
  }

  // ---- suffixes and trims -------------------------------------------------------------

  predicate EndsWith(s: string, p: string) {
    |p| <= |s| && s[|s| - |p|..] == p
  }

  /** `char::is_whitespace`: the Unicode White_Space code points. */
  predicate IsSpace(c: char) {
    || '\t' <= c <= '\r' || c == ' ' || c == '\U{85}' || c == '\U{A0}' || c == '\U{1680}'
    || '\U{2000}' <= c <= '\U{200A}' || c == '\U{2028}' || c == '\U{2029}'
    || c == '\U{202F}' || c == '\U{205F}' || c == '\U{3000}'
  }

  function TrimEnd(s: string): (r: string)
    ensures r <= s
    ensures r == "" || !IsSpace(r[|r| - 1])
  {
    if s == "" || !IsSpace(s[|s| - 1]) then s else TrimEnd(s[..|s| - 1])
  }

  function TrimStart(s: string): string {
    if s == "" || !IsSpace(s[0]) then s else TrimStart(s[1..])
  }

  function Trim(s: string): string {
    TrimEnd(TrimStart(s))
  }

  /** `str::trim_end_matches`: drops the suffix as often as it is there. */
  function TrimEndMatches(s: string, p: string): string
    requires p != ""
    decreases |s|
  {
    if EndsWith(s, p) then TrimEndMatches(s[..|s| - |p|], p) else s
  }

  lemma {:induction false} TrimEndConcat(a: string, b: string)
    requires TrimEnd(b) != ""
    ensures TrimEnd(a + b) == a + TrimEnd(b)
  {
    var k := |b| - 1;
    assert (a + b)[|a + b| - 1] == b[k];
    if IsSpace(b[k]) {
      assert (a + b)[..|a + b| - 1] == a + b[..k];
      TrimEndConcat(a, b[..k]);
    }
  }

  // ---- decimal numerals ---------------------------------------------------------------

  predicate IsDigit(c: char) {
    '0' <= c <= '9'
  }

  predicate AllDigits(s: string) {
    forall c | c in s :: IsDigit(c)
  }

  function DigitChar(d: nat): (c: char)
    requires d < 10
    ensures IsDigit(c) && c as int == 48 + d
  {
    (48 + d) as char
  }

  /** `format!("{}", n)`. */
  function Dec(n: nat): (s: string)
    ensures s != "" && AllDigits(s)
  {
    if n < 10 then [DigitChar(n)] else Dec(n / 10) + [DigitChar(n % 10)]
  }

  function DigitValue(c: char): nat
    requires IsDigit(c)
  {
    c as int - 48
  }

  function Val(s: string): nat
    requires AllDigits(s)
  {
    if s == "" then 0
    else
      assert s[|s| - 1] in s;
      10 * Val(s[..|s| - 1]) + DigitValue(s[|s| - 1])
  }

  lemma ValDec(n: nat)
    ensures Val(Dec(n)) == n
  {
    if n >= 10 {
      assert Dec(n)[..|Dec(n)| - 1] == Dec(n / 10);
      ValDec(n / 10);
    } else {
      assert Dec(n)[..0] == "";
      assert Val(Dec(n)[..0]) == 0;
    }
  }

  lemma DecInjective(a: nat, b: nat)
    requires Dec(a) == Dec(b)
    ensures a == b
  {
    ValDec(a);
    ValDec(b);
  }

  /** A numeral as it is written: no zero in front of another digit. */
  predicate Numeral(s: string) {
    s != "" && AllDigits(s) && (|s| > 1 ==> s[0] != '0')
  }

  lemma {:induction false} DecIsNumeral(n: nat)
    ensures Numeral(Dec(n)) && (n > 0 ==> Dec(n)[0] != '0')
  {
    if n >= 10 {
      DecIsNumeral(n / 10);
    }
  }

  lemma {:induction false} DecOfVal(s: string)
    requires Numeral(s)
    ensures Dec(Val(s)) == s && (s[0] != '0' ==> Val(s) > 0)
  {
    var k := |s| - 1;
    var s', c := s[..k], s[k];
    assert c in s && s == s' + [c];
    if k == 0 {
      assert s' == "" && Val(s') == 0;
    } else {
      assert s'[0] == s[0] && AllDigits(s');
      DecOfVal(s');
    }
  }

  /** The decimal numeral of `n` is the one that stands for it. */
  lemma DecExactly(n: nat, s: string)
    requires Numeral(s)
    ensures Dec(n) == s <==> Val(s) == n
  {
    ValDec(n);
    DecOfVal(s);
  }

  function Pow(b: nat, e: nat): (p: nat)
    ensures b >= 1 ==> p >= 1
  {
    if e == 0 then 1 else b * Pow(b, e - 1)
  }

  lemma ValSnoc(s: string, c: char)
    requires AllDigits(s) && IsDigit(c)
    ensures AllDigits(s + [c]) && Val(s + [c]) == 10 * Val(s) + DigitValue(c)
  {
    assert (s + [c])[..|s|] == s;
  }

  lemma ValConcat(a: string, b: string)
    requires AllDigits(a) && AllDigits(b)
    ensures AllDigits(a + b)
    ensures Val(a + b) == Val(a) * Pow(10, |b|) + Val(b)
  {
    if b == "" {
      assert a + b == a;
    } else {
      var b', c := b[..|b| - 1], b[|b| - 1];
      assert c in b && AllDigits(b');
      ValConcat(a, b');
      PowStep(10, |b'|);
      TimesTen(Val(a), Pow(10, |b'|));
      hide Val, Pow;
      ValSnoc(a + b', c);
      ValSnoc(b', c);
      assert a + b == (a + b') + [c] && b == b' + [c];
    }
  }

  lemma PowStep(b: nat, e: nat)
    ensures Pow(b, e + 1) == b * Pow(b, e)
  {
  }

  lemma Distribute(a: nat, b: nat, h: nat)
    ensures a * h + b * h == (a + b) * h
  {
  }

  lemma TimesTen(x: nat, p: nat)
    ensures x * (10 * p) == 10 * (x * p)
  {
  }

  /** The leading digit of the numeral of `n`. */
  function LeadingDigit(n: nat): (d: nat)
    ensures d < 10 && Dec(n)[0] == DigitChar(d)
    ensures n < 10 ==> d == n
  {
    if n < 10 then n else LeadingDigit(n / 10)
  }
}

/** Placeholders read back from SQL text: a `$` with the digits that follow it. */
module References {
  import opened Text
  import opened Translator

  /** The digits at the front of `s`. */
  function Digits(s: string): (d: string)
    ensures d <= s && AllDigits(d)
    ensures |d| < |s| ==> !IsDigit(s[|d|])
  {
    if s != "" && IsDigit(s[0]) then [s[0]] + Digits(s[1..]) else ""
  }

  /** The numerals of the placeholders of `s`, left to right. */
  function Refs(s: string): (rs: seq<string>)
    ensures forall r | r in rs :: r != "" && AllDigits(r)
    decreases |s|
  {
    if s == "" then []
    else if s[0] == '$' then
      var d := Digits(s[1..]);
      (if d == "" then [] else [d]) + Refs(s[1 + |d|..])
    else Refs(s[1..])
  }

  /** `s` with the numeral of every placeholder changed by `f`. */
  ghost function MapRefs(s: string, f: string -> string): string
    decreases |s|
  {
    if s == "" then ""
    else if s[0] == '$' then
      var d := Digits(s[1..]);
      "$" + (if d == "" then "" else f(d)) + MapRefs(s[1 + |d|..], f)
    else [s[0]] + MapRefs(s[1..], f)
  }

  /** `f` turns numerals into numerals. */
  ghost predicate OnNumerals(f: string -> string) {
    forall d | d != "" && AllDigits(d) :: f(d) != "" && AllDigits(f(d))
  }

  lemma DigitsOf(d: string, rest: string)
    requires AllDigits(d) && (rest == "" || !IsDigit(rest[0]))
    ensures Digits(d + rest) == d
  {
    if d == "" {
      assert d + rest == rest;
    } else {
      assert (d + rest)[1..] == d[1..] + rest;
      assert d[0] in d;
      DigitsOf(d[1..], rest);
      assert [d[0]] + d[1..] == d;
    }
  }

  predicate Halted(rest: string) {
    rest != "" ==> !IsDigit(rest[0])
  }

  lemma DollarParts(d: string, rest: string)
    ensures var t := "$" + d + rest;
            t[0] == '$' && t[1..] == d + rest && t[1 + |d|..] == rest
  {
    assert "$" + d + rest == "$" + (d + rest);
  }

  lemma RefsUnfold(t: string)
    requires t != "" && t[0] == '$'
    ensures var d := Digits(t[1..]); Refs(t) == (if d == "" then [] else [d]) + Refs(t[1 + |d|..])
  {
    hide Digits, AllDigits;
  }

  /** How a text that starts with a placeholder, or with something else, is read. */
  lemma RefsAtDollar(d: string, rest: string)
    requires AllDigits(d) && Halted(rest)
    ensures Refs("$" + d + rest) == (if d == "" then [] else [d]) + Refs(rest)
  {
    DigitsOf(d, rest);
    DollarParts(d, rest);
    hide Digits, AllDigits, Refs;
    RefsUnfold("$" + d + rest);
  }

  lemma RefsAtChar(c: char, rest: string)
    requires c != '$'
    ensures Refs([c] + rest) == Refs(rest)
  {
    assert ([c] + rest)[1..] == rest;
  }

  lemma MapRefsHalted(s: string, f: string -> string)
    requires Halted(s)
    ensures Halted(MapRefs(s, f))
  {
  }

  lemma MapRefsEmpty(f: string -> string)
    ensures MapRefs("", f) == "" && Refs("") == []
  {
  }

  lemma MapRefsAtDollar(s: string, f: string -> string) returns (d: string, rest: string)
    requires s != "" && s[0] == '$'
    ensures AllDigits(d) && Halted(rest) && s == "$" + d + rest && |rest| < |s|
    ensures d == Digits(s[1..])
    ensures MapRefs(s, f) == "$" + (if d == "" then "" else f(d)) + MapRefs(rest, f)
    ensures Refs(s) == (if d == "" then [] else [d]) + Refs(rest)
  {
    d := Digits(s[1..]);
    rest := s[1 + |d|..];
  }

  lemma MapRefsAtChar(s: string, f: string -> string)
    requires s != "" && s[0] != '$'
    ensures MapRefs(s, f) == [s[0]] + MapRefs(s[1..], f) && Refs(s) == Refs(s[1..])
  {
  }

  ghost predicate Pointwise(rs: seq<string>, qs: seq<string>, f: string -> string) {
    |rs| == |qs| && forall i | 0 <= i < |rs| :: rs[i] == f(qs[i])
  }

  /** Changing the numerals changes the references and nothing else that is read. */
  lemma {:induction false} RefsOfMapRefs(s: string, f: string -> string)
    requires OnNumerals(f)
    ensures Pointwise(Refs(MapRefs(s, f)), Refs(s), f)
    decreases |s|
  {
    hide Refs, MapRefs, Digits;
    if s == "" {
      MapRefsEmpty(f);
    } else if s[0] == '$' {
      var d, rest := MapRefsAtDollar(s, f);
      var d' := if d == "" then "" else f(d);
      assert AllDigits(d') && (d == "" <==> d' == "");
      MapRefsHalted(rest, f);
      RefsAtDollar(d', MapRefs(rest, f));
      RefsOfMapRefs(rest, f);
    } else {
      MapRefsAtChar(s, f);
      RefsOfMapRefs(s[1..], f);
      RefsAtChar(s[0], MapRefs(s[1..], f));
    }
  }

  lemma {:induction false} MapRefsAgree(s: string, f: string -> string, g: string -> string)
    requires forall r | r in Refs(s) :: f(r) == g(r)
    ensures MapRefs(s, f) == MapRefs(s, g)
    decreases |s|
  {
    if s == "" {
    } else if s[0] == '$' {
      var d := Digits(s[1..]);
      assert d != "" ==> Refs(s)[0] == d;
      MapRefsAgree(s[1 + |d|..], f, g);
    } else {
      MapRefsAgree(s[1..], f, g);
    }
  }

  /** Two renumberings of a text are the same exactly when they agree on its references. */
  lemma MapRefsEqual(s: string, f: string -> string, g: string -> string)
    requires OnNumerals(f) && OnNumerals(g)
    ensures MapRefs(s, f) == MapRefs(s, g) <==> forall r | r in Refs(s) :: f(r) == g(r)
  {
    hide Refs, MapRefs, OnNumerals;
    if MapRefs(s, f) == MapRefs(s, g) {
      RefsOfMapRefs(s, f);
      RefsOfMapRefs(s, g);
    } else if forall r | r in Refs(s) :: f(r) == g(r) {
      MapRefsAgree(s, f, g);
    }
  }

  // ---- the references a translated text shows ------------------------------------------------

  /** No digit directly follows a `?`, so that no translated numeral runs on. */
  predicate NoDigitAfterMark(s: string) {
    forall i | 0 <= i < |s| - 1 && s[i] == '?' :: !IsDigit(s[i + 1])
  }

  function Numerals(first: nat, n: nat): (r: seq<string>)
    ensures |r| == n
    ensures forall i | 0 <= i < n :: r[i] == Dec(first + i)
    decreases n
  {
    if n == 0 then [] else [Dec(first)] + Numerals(first + 1, n - 1)
  }

  lemma NoDigitAfterMarkTail(s: string)
    requires s != ""
    ensures NoDigitAfterMark(s) <==> NoDigitAfterMark(s[1..]) && (s[0] == '?' && |s| > 1 ==> !IsDigit(s[1]))
  {
    if NoDigitAfterMark(s) {
      forall i | 0 <= i < |s[1..]| - 1 && s[1..][i] == '?' ensures !IsDigit(s[1..][i + 1]) {
        assert s[i + 1] == '?';
      }
    } else {
      var i :| 0 <= i < |s| - 1 && s[i] == '?' && IsDigit(s[i + 1]);
      if i > 0 {
        assert s[1..][i - 1] == '?' && IsDigit(s[1..][(i - 1) + 1]);
      }
    }
  }

  // ---- a `?` text read by its marks and its own placeholders -------------------------------------

  /** The digits at the front of a text stay where they are, and what comes next is no digit. */
  lemma NumberedDigits(t: string, first: nat)
    ensures var d, rest := Digits(t), t[|Digits(t)|..];
            && Numbered(t, first) == d + Numbered(rest, first)
            && Halted(rest) && Halted(Numbered(rest, first)) && Count(t, '?') == Count(rest, '?')
  {
    var d, rest := Digits(t), t[|Digits(t)|..];
    assert t == d + rest && '?' !in d;
    assert Halted(rest);
    HaltedNumbered(rest, first);
    hide Digits, Numbered, Count, AllDigits, Halted;
    NumberedConcat(d, rest, first);
    CountConcat(d, rest, '?');
    CountZero(d, '?');
    NumberedIdentity(d, first);
  }

  lemma HaltedNumbered(s: string, first: nat)
    ensures Halted(s) ==> Halted(Numbered(s, first))
  {
  }

  lemma NumberedStep(s: string, first: nat)
    ensures s == "" ==> Numbered(s, first) == "" && Count(s, '?') == 0
    ensures s != "" && s[0] == '?' ==>
              Numbered(s, first) == "$" + Dec(first) + Numbered(s[1..], first + 1)
              && Count(s, '?') == 1 + Count(s[1..], '?')
    ensures s != "" && s[0] != '?' ==>
              Numbered(s, first) == [s[0]] + Numbered(s[1..], first) && Count(s, '?') == Count(s[1..], '?')
  {
  }

  /** A mark, with whatever digits come behind it. */
  lemma NumberedAtMark(s: string, first: nat)
    requires s != "" && s[0] == '?'
    ensures var e := Digits(s[1..]);
            var rest := s[1 + |e|..];
            && Numbered(s, first) == "$" + (Dec(first) + e) + Numbered(rest, first + 1)
            && Halted(rest) && Halted(Numbered(rest, first + 1)) && Count(s, '?') == 1 + Count(rest, '?')
  {
    hide Numbered, Count, Digits, AllDigits, Halted, Dec;
    var e := Digits(s[1..]);
    var rest := s[1 + |e|..];
    assert s[1..][|e|..] == rest;
    NumberedStep(s, first);
    NumberedDigits(s[1..], first + 1);
    assert "$" + Dec(first) + (e + Numbered(rest, first + 1)) == "$" + (Dec(first) + e) + Numbered(rest, first + 1);
  }

  /** A placeholder of the `?` text itself. */
  lemma NumberedAtDollar(s: string, first: nat)
    requires s != "" && s[0] == '$'
    ensures var d := Digits(s[1..]);
            var rest := s[1 + |d|..];
            && Numbered(s, first) == "$" + d + Numbered(rest, first)
            && Halted(rest) && Halted(Numbered(rest, first)) && Count(s, '?') == Count(rest, '?')
  {
    hide Numbered, Count, Digits, AllDigits, Halted;
    var d := Digits(s[1..]);
    var rest := s[1 + |d|..];
    assert s[1..][|d|..] == rest;
    NumberedStep(s, first);
    NumberedDigits(s[1..], first);
    assert "$" + (d + Numbered(rest, first)) == "$" + d + Numbered(rest, first);
  }

  lemma {:induction false} RefsSkip(a: string, b: string)
    requires '$' !in a
    ensures Refs(a + b) == Refs(b)
  {
    hide Refs;
    if a == "" {
      assert a + b == b;
    } else {
      assert a[0] in a && a + b == [a[0]] + (a[1..] + b);
      RefsAtChar(a[0], a[1..] + b);
      RefsSkip(a[1..], b);
    }
  }

  lemma RefsBehindMark(s: string)
    requires s != "" && s[0] == '?'
    ensures Refs(s) == Refs(s[1 + |Digits(s[1..])|..])
  {
    var e := Digits(s[1..]);
    var rest := s[1 + |e|..];
    assert '$' !in e;
    hide Refs, Digits, AllDigits;
    assert s == ['?'] + (e + rest);
    RefsAtChar('?', e + rest);
    RefsSkip(e, rest);
  }

  lemma {:induction false} NoDigitAfterMarkSkip(d: string, rest: string)
    requires '?' !in d
    ensures NoDigitAfterMark(d + rest) <==> NoDigitAfterMark(rest)
  {
    hide NoDigitAfterMark;
    if d == "" {
      assert d + rest == rest;
    } else {
      var s := d + rest;
      assert s[0] == d[0] && d[0] in d && s[1..] == d[1..] + rest;
      NoDigitAfterMarkTail(s);
      NoDigitAfterMarkSkip(d[1..], rest);
    }
  }

  lemma NoDigitAfterThisMark(s: string)
    requires s != "" && s[0] == '?'
    ensures var e := Digits(s[1..]);
            NoDigitAfterMark(s) <==> e == "" && NoDigitAfterMark(s[1 + |e|..])
  {
    hide NoDigitAfterMark, Digits;
    HaltedDigits(s[1..]);
    NoDigitAfterMarkTail(s);
  }

  lemma NoDigitAfterMarkAtDollar(s: string)
    requires s != "" && s[0] == '$'
    ensures NoDigitAfterMark(s) <==> NoDigitAfterMark(s[1 + |Digits(s[1..])|..])
  {
    var d := Digits(s[1..]);
    assert '?' !in "$" + d && s == "$" + d + s[1 + |d|..];
    hide NoDigitAfterMark, Digits;
    NoDigitAfterMarkSkip("$" + d, s[1 + |d|..]);
  }

  /** A translated text shows the placeholders of its marks and those it had before. */
  lemma {:induction false} RefsCounted(s: string, first: nat)
    ensures |Refs(Numbered(s, first))| == Count(s, '?') + |Refs(s)|
    decreases |s|
  {
    hide Refs, Numbered, Count, Digits, AllDigits, Halted, Dec;
    NumberedStep(s, first);
    if s == "" {
      assert Refs("") == [] by { NoRefs(); }
    } else if s[0] == '?' {
      NumberedAtMark(s, first);
      ReadMark(s, first);
      RefsBehindMark(s);
      RefsCounted(s[1 + |Digits(s[1..])|..], first + 1);
    } else if s[0] == '$' {
      ReadOwn(s, first);
      NumberedAtDollar(s, first);
      RefsCounted(s[1 + |Digits(s[1..])|..], first);
    } else {
      RefsCounted(s[1..], first);
      RefsAtChar(s[0], Numbered(s[1..], first));
      RefsAtChar(s[0], s[1..]);
      assert s == [s[0]] + s[1..];
    }
  }

  lemma NoRefs()
    ensures Refs("") == []
  {
  }

  lemma ReadMark(s: string, first: nat)
    requires s != "" && s[0] == '?'
    ensures var e := Digits(s[1..]);
            Refs(Numbered(s, first)) == [Dec(first) + e] + Refs(Numbered(s[1 + |e|..], first + 1))
  {
    NumberedAtMark(s, first);
    var e := Digits(s[1..]);
    assert AllDigits(Dec(first) + e);
    hide Refs, Numbered, Digits, AllDigits, Halted, Dec;
    RefsAtDollar(Dec(first) + e, Numbered(s[1 + |e|..], first + 1));
  }

  lemma ReadOwn(s: string, first: nat)
    requires s != "" && s[0] == '$'
    ensures var d := Digits(s[1..]);
            var rest, own := s[1 + |d|..], if d == "" then [] else [d];
            Refs(s) == own + Refs(rest) && Refs(Numbered(s, first)) == own + Refs(Numbered(rest, first))
  {
    NumberedAtDollar(s, first);
    hide Refs, Numbered, AllDigits, Halted;
    RefsUnfold(s);
    RefsAtDollar(Digits(s[1..]), Numbered(s[1 + |Digits(s[1..])|..], first));
  }

  /** The placeholders of a translated text, read left to right, are exactly `first`, `first+1`, ...
      one for each mark -- if and only if the source shows no placeholder of its own and no digit
      directly follows a `?`. */
  lemma {:induction false} RefsNumbered(s: string, first: nat)
    ensures Refs(Numbered(s, first)) == Numerals(first, Count(s, '?'))
       <==> NoDigitAfterMark(s) && Refs(s) == []
    decreases |s|
  {
    hide Refs, Numbered, Count, Digits, AllDigits, Halted, Dec, NoDigitAfterMark, Numerals;
    RefsCounted(s, first);
    NumberedStep(s, first);
    if s == "" {
      NothingToRead(first);
    } else if s[0] == '?' {
      var e := Digits(s[1..]);
      var rest := s[1 + |e|..];
      NumberedAtMark(s, first);
      ReadMark(s, first);
      RefsBehindMark(s);
      NoDigitAfterThisMark(s);
      RefsNumbered(rest, first + 1);
      SameNumerals(first, e, Refs(Numbered(rest, first + 1)), Count(rest, '?'));
    } else if s[0] == '$' {
      ReadOwn(s, first);
      NumberedAtDollar(s, first);
      NoDigitAfterMarkAtDollar(s);
      RefsNumbered(s[1 + |Digits(s[1..])|..], first);
    } else {
      RefsNumbered(s[1..], first);
      RefsAtChar(s[0], Numbered(s[1..], first));
      RefsAtChar(s[0], s[1..]);
      NoDigitAfterMarkSkip([s[0]], s[1..]);
      assert s == [s[0]] + s[1..];
    }
  }

  lemma NothingToRead(first: nat)
    ensures Refs("") == [] && Numerals(first, 0) == [] && NoDigitAfterMark("")
  {
  }

  lemma SameNumerals(first: nat, e: string, later: seq<string>, n: nat)
    ensures [Dec(first) + e] + later == Numerals(first, n + 1) <==> e == "" && later == Numerals(first + 1, n)
  {
    hide Dec;
    var all, want := [Dec(first) + e] + later, [Dec(first)] + Numerals(first + 1, n);
    assert all[1..] == later && want[1..] == Numerals(first + 1, n);
    assert |Dec(first) + e| == |Dec(first)| + |e|;
    assert e == "" ==> Dec(first) + e == Dec(first);
  }

  lemma HaltedDigits(s: string)
    ensures Halted(s) <==> Digits(s) == ""
  {
  }
}

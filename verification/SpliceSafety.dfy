/** When splicing keeps the two routes together, exactly, and with them the placeholders in order. */
module SpliceSafety {
  import opened Text
  import opened Drivers
  import opened Translator
  import opened References
  import opened Builder
  import opened TwoRoutes
  import opened Splice
  import opened Rounds
  import opened Numbering

  // ---- renumbering a translated text -----------------------------------------------------------------

  /** Changing the numerals of a translated text by `f` is translating from `n` later on: said of
      each mark, with the digits behind it, and of each placeholder the source had before. */
  ghost predicate ReadsAs(s: string, first: nat, n: nat, f: string -> string)
    decreases |s|
  {
    if s == "" then true
    else if s[0] == '?' then
      var e := Digits(s[1..]);
      f(Dec(first) + e) == Dec(first + n) + e && ReadsAs(s[1 + |e|..], first + 1, n, f)
    else if s[0] == '$' then
      var d := Digits(s[1..]);
      (d == "" || f(d) == d) && ReadsAs(s[1 + |d|..], first, n, f)
    else ReadsAs(s[1..], first, n, f)
  }

  lemma SameStart(a: string, x: string, b: string, y: string)
    requires AllDigits(a) && AllDigits(b) && Halted(x) && Halted(y)
    ensures "$" + a + x == "$" + b + y <==> a == b && x == y
  {
    DigitsOf(a, x);
    DigitsOf(b, y);
    DollarParts(a, x);
    DollarParts(b, y);
    hide Digits, AllDigits, Halted;
  }

  /** A changed placeholder is the wanted one, and the rest is the wanted rest. */
  lemma MovedStart(a: string, x: string, b: string, y: string, f: string -> string)
    requires OnNumerals(f) && AllDigits(a) && AllDigits(b) && Halted(x) && Halted(y)
    ensures MapRefs("$" + a + x, f) == "$" + b + y
       <==> (if a == "" then "" else f(a)) == b && MapRefs(x, f) == y
  {
    var a' := if a == "" then "" else f(a);
    assert AllDigits(a');
    hide MapRefs, AllDigits, Halted, OnNumerals;
    MapRefsSplit(a, x, f);
    MapRefsHalted(x, f);
    SameStart(a', MapRefs(x, f), b, y);
  }

  lemma NumeralThenDigits(k: nat, e: string)
    requires AllDigits(e)
    ensures AllDigits(Dec(k) + e) && Dec(k) + e != ""
  {
    hide Dec;
  }

  lemma {:induction false} MapRefsNumbered(s: string, first: nat, n: nat, f: string -> string)
    requires OnNumerals(f)
    ensures MapRefs(Numbered(s, first), f) == Numbered(s, first + n) <==> ReadsAs(s, first, n, f)
    decreases |s|
  {
    hide MapRefs, Numbered, Count, Digits, AllDigits, Halted, Dec, OnNumerals;
    NumberedStep(s, first);
    NumberedStep(s, first + n);
    if s == "" {
      MapRefsEmpty(f);
    } else if s[0] == '?' {
      MapRefsNumbered(s[1 + |Digits(s[1..])|..], first + 1, n, f);
      MapRefsAtMark(s, first, n, f);
    } else if s[0] == '$' {
      MapRefsNumbered(s[1 + |Digits(s[1..])|..], first, n, f);
      MapRefsAtOwn(s, first, n, f);
    } else {
      MapRefsNumbered(s[1..], first, n, f);
      MapRefsBehindChar(s[0], Numbered(s[1..], first), f);
      SamePrefix([s[0]], MapRefs(Numbered(s[1..], first), f), Numbered(s[1..], first + n));
    }
  }

  lemma MapRefsAtMark(s: string, first: nat, n: nat, f: string -> string)
    requires OnNumerals(f) && s != "" && s[0] == '?'
    ensures var e := Digits(s[1..]);
            var rest := s[1 + |e|..];
            MapRefs(Numbered(s, first), f) == Numbered(s, first + n)
            <==> f(Dec(first) + e) == Dec(first + n) + e
                 && MapRefs(Numbered(rest, first + 1), f) == Numbered(rest, first + 1 + n)
  {
    hide MapRefs, Numbered, Digits, AllDigits, Halted, Dec, OnNumerals;
    var e := Digits(s[1..]);
    var rest := s[1 + |e|..];
    NumberedAtMark(s, first);
    NumberedAtMark(s, first + n);
    NumeralThenDigits(first, e);
    NumeralThenDigits(first + n, e);
    MovedStart(Dec(first) + e, Numbered(rest, first + 1), Dec(first + n) + e, Numbered(rest, first + n + 1), f);
  }

  lemma MapRefsAtOwn(s: string, first: nat, n: nat, f: string -> string)
    requires OnNumerals(f) && s != "" && s[0] == '$'
    ensures var d := Digits(s[1..]);
            var rest := s[1 + |d|..];
            MapRefs(Numbered(s, first), f) == Numbered(s, first + n)
            <==> (d == "" || f(d) == d) && MapRefs(Numbered(rest, first), f) == Numbered(rest, first + n)
  {
    hide MapRefs, Numbered, Digits, AllDigits, Halted, OnNumerals;
    var d := Digits(s[1..]);
    var rest := s[1 + |d|..];
    NumberedAtDollar(s, first);
    NumberedAtDollar(s, first + n);
    MovedStart(d, Numbered(rest, first), d, Numbered(rest, first + n), f);
  }

  lemma MapRefsBehindChar(c: char, t: string, f: string -> string)
    requires c != '$'
    ensures MapRefs([c] + t, f) == [c] + MapRefs(t, f)
  {
    hide MapRefs;
    assert ([c] + t)[1..] == t;
    MapRefsAtChar([c] + t, f);
  }

  /** Renumbering a translated text is translating it from a later number exactly when no digit
      follows a mark and none of the numbers to be changed stood in the source already. */
  lemma RenumberNumbered(s: string, first: nat, m: nat, n: nat)
    requires 1 <= first && first - 1 + Count(s, '?') <= m
    ensures MapRefs(Numbered(s, first), Renumber(m, n)) == Numbered(s, first + n)
       <==> n == 0 || (NoDigitAfterMark(s) && forall r | r in Refs(s) :: !IsRef(r, m))
  {
    hide MapRefs, Refs, Numbered, NoDigitAfterMark, Renumber, IsRef, ReadsAs, OnNumerals;
    RenumberOnNumerals(m, n);
    MapRefsNumbered(s, first, n, Renumber(m, n));
    RenumberReads(s, first, m, n);
  }

  lemma {:induction false} RenumberReads(s: string, first: nat, m: nat, n: nat)
    requires 1 <= first && first - 1 + Count(s, '?') <= m
    ensures ReadsAs(s, first, n, Renumber(m, n))
       <==> n == 0 || (NoDigitAfterMark(s) && forall r | r in Refs(s) :: !IsRef(r, m))
    decreases |s|
  {
    hide Refs, Count, Digits, AllDigits, Dec, Val, NoDigitAfterMark, Renumber, IsRef, Numbered, Halted;
    if s == "" {
      NothingToRead(first);
    } else if s[0] == '?' {
      var e := Digits(s[1..]);
      NumberedAtMark(s, first);
      RefsBehindMark(s);
      NoDigitAfterThisMark(s);
      RenumberReads(s[1 + |e|..], first + 1, m, n);
      RenumberAtMark(first, e, m, n);
    } else if s[0] == '$' {
      var d := Digits(s[1..]);
      NumberedAtDollar(s, first);
      RefsUnfold(s);
      NoDigitAfterMarkAtDollar(s);
      RenumberReads(s[1 + |d|..], first, m, n);
      if d != "" {
        RenumberStays(d, m, n);
      }
    } else {
      NumberedStep(s, first);
      assert s == [s[0]] + s[1..];
      RefsAtChar(s[0], s[1..]);
      NoDigitAfterMarkSkip([s[0]], s[1..]);
      RenumberReads(s[1..], first, m, n);
    }
  }

  lemma RenumberAtMark(v: nat, e: string, m: nat, n: nat)
    requires 1 <= v <= m && AllDigits(e)
    ensures Renumber(m, n)(Dec(v) + e) == Dec(v + n) + e <==> n == 0 || e == ""
  {
    hide Dec, Val, AllDigits, Pow, Renumber;
    var d, want := Dec(v) + e, Dec(v + n) + e;
    TargetValue(v, e, n);
    RenumberValue(d, m, n);
    if n == 0 {
      assert want == d;
    } else if e == "" {
      ValDec(v);
      assert d == Dec(v) && want == Dec(v + n);
    } else {
      TenTimes(n, |e|);
    }
  }

  lemma RenumberValue(d: string, m: nat, n: nat)
    requires d != "" && AllDigits(d)
    ensures Renumber(m, n)(d) == if IsRef(d, m) then Dec(Val(d) + n) else d
    ensures AllDigits(Renumber(m, n)(d))
    ensures Val(Renumber(m, n)(d)) == Val(d) + if IsRef(d, m) then n else 0
    ensures n == 0 ==> Renumber(m, n)(d) == d
  {
    hide Dec, Val, AllDigits;
    ValDec(Val(d) + n);
  }

  lemma TenTimes(n: nat, e: nat)
    requires n > 0 && e > 0
    ensures n * Pow(10, e) > n
  {
    PowerGrows(n, 0, e);
    assert Pow(10, 0) == 1;
  }

  lemma RenumberStays(d: string, m: nat, n: nat)
    requires d != "" && AllDigits(d)
    ensures Renumber(m, n)(d) == d <==> n == 0 || !IsRef(d, m)
  {
    hide Dec, Val, AllDigits;
    if IsRef(d, m) {
      ValDec(Val(d) + n);
    }
  }

  // ---- splicing and the two routes -------------------------------------------------------------------

  /** The `?` text of a fragment read from the left, its first mark numbered `v`: no other round
      touches a mark's number, with the digits behind it, and none a placeholder that stood in the
      text before. */
  predicate RightFrom(s: string, v: nat, m: nat, n: nat)
    decreases |s|
  {
    if s == "" then true
    else if s[0] == '?' then
      var e := Digits(s[1..]);
      Safe(v, e, m, n) && RightFrom(s[1 + |e|..], v + 1, m, n)
    else if s[0] == '$' then
      var d := Digits(s[1..]);
      (d == "" || Untouched(d, m)) && RightFrom(s[1 + |d|..], v, m, n)
    else RightFrom(s[1..], v, m, n)
  }

  /** What a caller can check before the call: the `?` text with its `m` arguments, spliced onto `n`. */
  predicate SpliceRight(s: string, m: nat, n: nat) {
    n == 0 || RightFrom(s, 1, m, n)
  }

  lemma {:induction false} RoundsRead(s: string, v: nat, m: nat, n: nat)
    requires 1 <= v && v - 1 + Count(s, '?') <= m
    ensures ReadsAs(s, v, n, RoundsFn(m, n)) <==> n == 0 || RightFrom(s, v, m, n)
    decreases |s|
  {
    hide Count, Digits, AllDigits, Dec, Safe, Untouched, AfterRounds, Numbered, Halted;
    if s == "" {
    } else if s[0] == '?' {
      var e := Digits(s[1..]);
      NumberedAtMark(s, v);
      PlaceholderExact(v, e, m, n);
      RoundsRead(s[1 + |e|..], v + 1, m, n);
    } else if s[0] == '$' {
      var d := Digits(s[1..]);
      NumberedAtDollar(s, v);
      if d != "" {
        OtherExact(d, m, n);
      }
      RoundsRead(s[1 + |d|..], v, m, n);
    } else {
      NumberedStep(s, v);
      RoundsRead(s[1..], v, m, n);
    }
  }

  /** Splicing agreeing fragments onto agreeing builders keeps the two routes together exactly when
      the reading of the fragment's `?` text finds nothing that another round touches. */
  lemma SpliceAgreesExactly(m: State, p: State, subm: State, subp: State)
    requires Agree(m, p) && Agree(subm, subp)
    ensures Agree(Push(m, subm.sql, subm.args), Push(p, subp.sql, subp.args))
       <==> SpliceRight(subm.sql, |subm.args|, |m.args|)
  {
    hide Numbered, MapRefs, Shifted, Count, RightFrom, OnNumerals, ReadsAs, RoundsFn;
    var k, n := |subm.args|, |m.args|;
    ShiftedIsMapRefs(subp.sql, k, n);
    RoundsOnNumerals(k, n);
    MapRefsNumbered(subm.sql, 1, n, RoundsFn(k, n));
    RoundsRead(subm.sql, 1, k, n);
    NumberedConcat(m.sql, subm.sql, 1);
    CountConcat(m.sql, subm.sql, '?');
    SamePrefix(p.sql, Shifted(Postgres, subp.sql, k, n), Numbered(subm.sql, 1 + n));
  }

  predicate SafeRange(v: nat, c: nat, m: nat, n: nat) {
    forall i | v <= i < v + c :: Safe(i, "", m, n)
  }

  lemma SafeRangeStep(v: nat, c: nat, m: nat, n: nat)
    ensures SafeRange(v, c + 1, m, n) <==> Safe(v, "", m, n) && SafeRange(v + 1, c, m, n)
  {
    hide Safe;
  }

  lemma {:induction false} ReadableRight(s: string, v: nat, m: nat, n: nat)
    requires NoDigitAfterMark(s) && Refs(s) == []
    ensures RightFrom(s, v, m, n) <==> SafeRange(v, Count(s, '?'), m, n)
    decreases |s|
  {
    hide Refs, Count, Digits, AllDigits, Safe, SafeRange, Untouched, NoDigitAfterMark, Numbered, Halted;
    NumberedStep(s, v);
    if s == "" {
      assert SafeRange(v, 0, m, n) by { NoRange(v, m, n); }
    } else if s[0] == '?' {
      NumberedAtMark(s, v);
      RefsBehindMark(s);
      NoDigitAfterThisMark(s);
      ReadableRight(s[1 + |Digits(s[1..])|..], v + 1, m, n);
      SafeRangeStep(v, Count(s[1 + |Digits(s[1..])|..], '?'), m, n);
    } else if s[0] == '$' {
      NumberedAtDollar(s, v);
      RefsUnfold(s);
      NoDigitAfterMarkAtDollar(s);
      ReadableRight(s[1 + |Digits(s[1..])|..], v, m, n);
    } else {
      assert s == [s[0]] + s[1..];
      RefsAtChar(s[0], s[1..]);
      NoDigitAfterMarkSkip([s[0]], s[1..]);
      ReadableRight(s[1..], v, m, n);
    }
  }

  lemma NoRange(v: nat, m: nat, n: nat)
    ensures SafeRange(v, 0, m, n)
  {
  }

  /** For a fragment whose placeholders read in order, that is a matter of the two counts. */
  lemma SpliceRightInOrder(subm: State, subp: State, n: nat)
    requires Agree(subm, subp) && Refs(subp.sql) == Numerals(1, |subp.args|)
    ensures SpliceRight(subm.sql, |subm.args|, n) <==> SpliceSafe(|subm.args|, n)
  {
    hide Refs, Numbered, Numerals, Count, RightFrom, SpliceSafe, NoDigitAfterMark, Safe;
    var k := |subm.args|;
    RefsNumbered(subm.sql, 1);
    ReadableRight(subm.sql, 1, k, n);
    SpliceSafeExact(k, n);
  }

  /** The same of the `$` text on its own: spliced behind placeholders in order, a fragment in order
      leaves them in order exactly for safe numbers, and where none runs on across the joint. */
  lemma PushInOrderExactly(st: State, sub: string, args: seq<Bson>)
    requires st.driver == Postgres
    requires Refs(st.sql) == Numerals(1, |st.args|) && Refs(sub) == Numerals(1, |args|)
    ensures var end := Push(st, sub, args);
            Refs(end.sql) == Numerals(1, |end.args|) <==> SpliceSafe(|args|, |st.args|) && Joint(st.sql, sub)
  {
    hide Refs, MapRefs, Shifted, Dec, Safe, SpliceSafe, OnNumerals, EndsInPlaceholder, Halted, Numerals;
    var k, n := |args|, |st.args|;
    var moved := Shifted(Postgres, sub, k, n);
    ShiftedIsMapRefs(sub, k, n);
    RoundsOnNumerals(k, n);
    RefsOfMapRefs(sub, RoundsFn(k, n));
    HaltedMapRefs(sub, RoundsFn(k, n));
    if Joint(st.sql, sub) {
      RefsConcat(st.sql, moved);
      NumeralsConcat(1, n, k);
      SamePrefix(Numerals(1, n), Refs(moved), Numerals(1 + n, k));
      MovedInOrder(Refs(moved), k, n);
      SpliceSafeExact(k, n);
    } else {
      RefsRunOnAcross(st.sql, moved);
      NotInOrder(n, k, Refs(moved), Refs(st.sql + moved));
    }
  }

  lemma HaltedMapRefs(s: string, f: string -> string)
    ensures Halted(MapRefs(s, f)) <==> Halted(s)
  {
  }

  lemma NotInOrder(n: nat, k: nat, qs: seq<string>, all: seq<string>)
    requires |qs| == k && RunsOn(Numerals(1, n), qs, all)
    ensures all != Numerals(1, n + k)
  {
    hide Dec;
  }

  lemma MovedInOrder(rs: seq<string>, k: nat, n: nat)
    requires Pointwise(rs, Numerals(1, k), RoundsFn(k, n))
    ensures rs == Numerals(1 + n, k) <==> n == 0 || forall v | 1 <= v <= k :: Safe(v, "", k, n)
  {
    hide Dec, AfterRounds, Safe;
    var want := Numerals(1 + n, k);
    forall i | 0 <= i < k ensures rs[i] == want[i] <==> n == 0 || Safe(i + 1, "", k, n) {
      assert Numerals(1, k)[i] == Dec(1 + i) && want[i] == Dec(1 + n + i);
      assert Dec(i + 1) + "" == Dec(i + 1) && Dec(i + 1 + n) + "" == Dec(i + 1 + n);
      PlaceholderExact(i + 1, "", k, n);
    }
    forall v | 1 <= v <= k ensures n == 0 || Safe(v, "", k, n) <==> rs[v - 1] == want[v - 1] {
      assert rs[v - 1] == want[v - 1] <==> n == 0 || Safe((v - 1) + 1, "", k, n);
    }
  }

  lemma EmptyAgrees(driver: Driver, formats: map<string, string>)
    requires UsesMarks(driver)
    ensures Agree(Empty(driver, formats), Empty(Postgres, formats))
  {
  }

  /** An agreeing pair whose placeholders read in order has no digit after a mark, and none before. */
  lemma InOrderReads(m: State, p: State)
    requires Agree(m, p) && Refs(p.sql) == Numerals(1, |p.args|)
    ensures NoDigitAfterMark(m.sql) && Refs(m.sql) == []
  {
    hide Refs, Numbered, Numerals, Count, NoDigitAfterMark;
    RefsNumbered(m.sql, 1);
  }

  /** Two builders filled by any programs of clean calls: splicing the second onto the first commutes
      with the translation exactly when the reading of the second's text allows it, which for
      orderly calls without placeholders of their own is a matter of the two argument counts. */
  lemma SpliceOfPrograms(formats: map<string, string>, ops: seq<Op>, sub: seq<Op>)
    requires forall op | op in ops + sub :: Clean(formats, op)
    ensures var m, p := Run(Empty(Mysql, formats), ops), Run(Empty(Postgres, formats), ops);
            var subm, subp := Run(Empty(Mysql, formats), sub), Run(Empty(Postgres, formats), sub);
            && (Agree(Push(m, subm.sql, subm.args), Push(p, subp.sql, subp.args))
                <==> SpliceRight(subm.sql, |subm.args|, |m.args|))
            && ((forall op | op in sub :: RefFree(formats, op) && Orderly(formats, op)) ==>
                  (SpliceRight(subm.sql, |subm.args|, |m.args|) <==> SpliceSafe(|subm.args|, |m.args|)))
  {
    hide Run, Clean, RefFree, Orderly, Push, SpliceSafe, SpliceRight, Numbered, Count, Refs, Numerals;
    assert forall op | op in ops :: op in ops + sub;
    assert forall op | op in sub :: op in ops + sub;
    var m, p := Empty(Mysql, formats), Empty(Postgres, formats);
    EmptyAgrees(Mysql, formats);
    RunAgrees(m, p, ops);
    RunAgrees(m, p, sub);
    SpliceAgreesExactly(Run(m, ops), Run(p, ops), Run(m, sub), Run(p, sub));
    if forall op | op in sub :: RefFree(formats, op) && Orderly(formats, op) {
      EmptyInOrder(formats);
      NumberingExact(p, sub);
      SpliceRightInOrder(Run(m, sub), Run(p, sub), |Run(m, ops).args|);
    }
  }

  // ---- two failing splices ---------------------------------------------------------------------------

  /** One round on a list of two single-digit placeholders. */
  lemma ReplaceInPair(x: char, y: char, c: char, d: char)
    requires x != '$' && y != '$'
    ensures Replace(['$', x, ',', '$', y], ['$', c], ['$', d])
         == ['$', if x == c then d else x, ',', '$', if y == c then d else y]
  {
    var pat, to := ['$', c], ['$', d];
    ReplacePlace(y, [], c, d);
    assert [',', '$', y][0] == ',' && pat[0] == '$';
    ReplaceMiss([',', '$', y], pat, to);
    assert [',', '$', y][1..] == ['$', y] + [] && Replace([], pat, to) == [];
    ReplacePlace(x, [',', '$', y], c, d);
    assert ['$', x] + [',', '$', y] == ['$', x, ',', '$', y];
  }

  lemma ReplacePlace(x: char, rest: string, c: char, d: char)
    requires x != '$'
    ensures Replace(['$', x] + rest, ['$', c], ['$', d])
         == ['$', if x == c then d else x] + Replace(rest, ['$', c], ['$', d])
  {
    hide Replace;
    var t, pat, to := ['$', x] + rest, ['$', c], ['$', d];
    if x == c {
      assert pat <= t && t[2..] == rest;
      ReplaceHit(t, pat, to);
    } else {
      assert t[1..] == [x] + rest && t[1..][1..] == rest;
      assert t[1] == x && pat[1] == c;
      ReplaceMiss(t, pat, to);
      ReplaceMiss(t[1..], pat, to);
    }
  }

  /** Two arguments spliced onto one: both placeholders end as `$3`. */
  lemma TwoOntoOneCollides()
    ensures !SpliceSafe(2, 1)
    ensures Shifted(Postgres, "$1,$2", 2, 1) == "$3,$3"
  {
    assert Collides(1, 2, 1);
    ShiftedTwo("$1,$2");
    hide Replace, Shifted;
    ReplaceInPair('1', '2', '1', '2');
    ReplaceInPair('2', '2', '2', '3');
  }

  lemma ShiftedTwo(s: string)
    ensures Shifted(Postgres, s, 2, 1) == Replace(Replace(s, "$1", "$2"), "$2", "$3")
  {
    hide Replace;
    assert Dec(1) == "1" && Dec(2) == "2" && Dec(3) == "3";
    assert StmtConvert(Postgres, 0) == "$1" && StmtConvert(Postgres, 1) == "$2" && StmtConvert(Postgres, 2) == "$3";
    assert Shifted(Postgres, s, 1, 1) == Replace(s, "$1", "$2");
  }

  lemma ReplaceNext(x: string, rest: string)
    requires '$' !in x
    ensures Replace(x + "$1" + rest, "$1", "$2") == x + "$2" + Replace(rest, "$1", "$2")
  {
    hide Replace;
    var t := "$1" + rest;
    assert x + "$1" + rest == x + t && t[2..] == rest;
    ReplaceSkip(x, t, "$1", "$2");
    ReplaceHit(t, "$1", "$2");
  }

  lemma ShiftedOne(s: string)
    ensures Shifted(Postgres, s, 1, 1) == Replace(s, "$1", "$2")
  {
    hide Replace;
    assert Dec(1) == "1" && Dec(2) == "2";
    assert StmtConvert(Postgres, 0) == "$1" && StmtConvert(Postgres, 1) == "$2";
    assert Shifted(Postgres, s, 0, 1) == s;
  }

  /** One argument spliced onto one, the two counts being safe: a column called `$1` is moved with
      its placeholder. */
  lemma OwnDollarCollides()
    ensures Clean(map[], Compare(Eq, "$1", Null))
    ensures Run(Empty(Mysql, map[]), [Compare(Eq, "$1", Null)]).sql == "$1 = ?"
    ensures Run(Empty(Postgres, map[]), [Compare(Eq, "$1", Null)]).sql == "$1 = $1"
    ensures SpliceSafe(1, 1) && !SpliceRight("$1 = ?", 1, 1)
    ensures Shifted(Postgres, "$1 = $1", 1, 1) == "$2 = $2"
  {
    hide Run, SpliceSafe, SpliceRight, Shifted;
    OwnDollarBuilt(Mysql);
    OwnDollarBuilt(Postgres);
    OwnDollarRead();
    OwnDollarShifted();
    hide Clean;
    assert StmtConvert(Postgres, 0) == "$1" by { FirstPlaceholder(); }
  }

  /** And a literal that starts like a placeholder is changed too. */
  lemma LiteralChanges()
    ensures Shifted(Postgres, "price = '$10' and a = $1", 1, 1) == "price = '$20' and a = $2"
  {
    hide *;
    LiteralParts();
    ShiftedOne("price = '$10' and a = $1");
    ReplaceTwice("price = '", "0' and a = ");
  }

  lemma LiteralParts()
    ensures "price = '" + "$1" + "0' and a = " + "$1" == "price = '$10' and a = $1"
    ensures "price = '" + "$2" + "0' and a = " + "$2" == "price = '$20' and a = $2"
    ensures '$' !in "price = '" && '$' !in "0' and a = "
  {
  }

  lemma ReplaceTwice(x: string, y: string)
    requires '$' !in x && '$' !in y
    ensures Replace(x + "$1" + y + "$1", "$1", "$2") == x + "$2" + y + "$2"
  {
    ReplaceNone("", "$1", "$2");
    hide Replace;
    ReplaceNext(y, "");
    ReplaceNext(x, y + "$1");
    assert y + "$1" + "" == y + "$1" && y + "$2" + "" == y + "$2";
    assert x + "$1" + (y + "$1") == x + "$1" + y + "$1" && x + "$2" + (y + "$2") == x + "$2" + y + "$2";
  }

  lemma OwnDollarShifted()
    ensures Shifted(Postgres, "$1 = $1", 1, 1) == "$2 = $2"
  {
    hide Replace, Shifted;
    ShiftedOne("$1 = $1");
    ReplaceTwice("", " = ");
    assert "" + "$1" + " = " + "$1" == "$1 = $1" && "" + "$2" + " = " + "$2" == "$2 = $2";
  }

  lemma FirstPlaceholder()
    ensures StmtConvert(Postgres, 0) == "$1"
  {
    assert Dec(1) == "1";
  }

  lemma OwnDollarBuilt(driver: Driver)
    ensures Run(Empty(driver, map[]), [Compare(Eq, "$1", Null)]).sql == "$1 = " + StmtConvert(driver, 0)
    ensures Clean(map[], Compare(Eq, "$1", Null))
  {
    var op, st := Compare(Eq, "$1", Null), Empty(driver, map[]);
    hide Render, StmtConvert, Run;
    OneCall(st, op);
    assert "$1" + " = " == "$1 = " && Base(op, "") == "";
    RenderPair(driver, map[], "$1 = ", "$1", Null, 0);
  }

  lemma OwnDollarRead()
    ensures SpliceSafe(1, 1) && !SpliceRight("$1 = ?", 1, 1)
  {
    var s := "$1 = ?";
    assert Digits(s[1..]) == "1" by {
      assert s[1..][1..] == " = ?";
    }
    assert !Untouched("1", 1) by {
      assert Dec(1) == "1";
    }
  }
}

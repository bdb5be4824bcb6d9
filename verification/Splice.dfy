/** `push` and `push_wrapper`: splicing a finished fragment onto a builder. For `$` databases the
    fragment's placeholders are moved up by a loop of textual replacements; this module settles
    when that loop is the simultaneous renumbering it is meant to be. */
module Splice {
  import opened Text
  import opened Drivers
  import opened References
  import opened Builder

  /** The first `k` rounds of the loop, with `n` arguments already bound. */
  function Shifted(driver: Driver, sql: string, k: nat, n: nat): string {
    if k == 0 then sql
    else Replace(Shifted(driver, sql, k - 1, n), StmtConvert(driver, k - 1), StmtConvert(driver, k - 1 + n))
  }

  function SplicedText(driver: Driver, sql: string, m: nat, n: nat): string {
    match driver
    case Postgres | Mssql => Shifted(driver, sql, m, n)
    case Mysql | Sqlite => sql
  }

  function Push(st: State, sql: string, args: seq<Bson>): State {
    st.(sql := st.sql + SplicedText(st.driver, sql, |args|, |st.args|), args := st.args + args)
  }

  /** What the fragment should become: each `$v` with `1 <= v <= m` is `$(v+n)`, all at once. */
  ghost function Renumber(m: nat, n: nat): string -> string {
    d => if IsRef(d, m) then Dec(Val(d) + n) else d
  }

  predicate IsRef(d: string, m: nat) {
    AllDigits(d) && d == Dec(Val(d)) && 1 <= Val(d) <= m
  }

  // ---- one replacement, read on the numerals ---------------------------------------------------

  function Hit(d: string, k: nat, n: nat): (r: string)
    ensures d != "" && AllDigits(d) ==> r != "" && AllDigits(r)
  {
    if Dec(k) <= d then Dec(k + n) + d[|Dec(k)|..] else d
  }

  ghost function HitFn(k: nat, n: nat): string -> string {
    d => Hit(d, k, n)
  }

  /** The numeral that the first `k` rounds make of `d`. */
  function AfterRounds(d: string, k: nat, n: nat): (r: string)
    ensures d != "" && AllDigits(d) ==> r != "" && AllDigits(r)
  {
    if k == 0 then d else Hit(AfterRounds(d, k - 1, n), k, n)
  }

  ghost function RoundsFn(k: nat, n: nat): string -> string {
    d => AfterRounds(d, k, n)
  }

  lemma ReplaceMiss(t: string, pat: string, to: string)
    requires pat != "" && t != "" && !(pat <= t)
    ensures Replace(t, pat, to) == [t[0]] + Replace(t[1..], pat, to)
  {
    if |t| < |pat| {
      assert Replace(t[1..], pat, to) == t[1..];
    }
  }

  lemma ReplaceHit(t: string, pat: string, to: string)
    requires pat != "" && pat <= t
    ensures Replace(t, pat, to) == to + Replace(t[|pat|..], pat, to)
  {
  }

  lemma {:induction false} ReplaceSkip(x: string, r: string, pat: string, to: string)
    requires pat != "" && pat[0] == '$' && '$' !in x
    ensures Replace(x + r, pat, to) == x + Replace(r, pat, to)
  {
    hide Replace;
    if x == "" {
      assert x + r == r && x + Replace(r, pat, to) == Replace(r, pat, to);
    } else {
      var t := x + r;
      assert t[0] == x[0] && x[0] in x && t[1..] == x[1..] + r;
      assert forall c | c in x[1..] :: c in x;
      ReplaceMiss(t, pat, to);
      ReplaceSkip(x[1..], r, pat, to);
      assert [x[0]] + (x[1..] + Replace(r, pat, to)) == x + Replace(r, pat, to);
    }
  }

  lemma PrefixOfNumeral(p: string, d: string, rest: string)
    requires p != "" && AllDigits(p) && AllDigits(d) && Halted(rest)
    ensures "$" + p <= "$" + d + rest <==> p <= d
  {
    var t := "$" + d + rest;
    assert forall i | 0 <= i < |d| :: t[1 + i] == d[i];
    assert rest != "" ==> t[1 + |d|] == rest[0];
    assert |p| > |d| ==> p[|d|] in p;
    if "$" + p <= t {
      assert forall i | 0 <= i < |p| :: p[i] == ("$" + p)[1 + i] == t[1 + i];
      assert |p| <= |d|;
    }
  }

  lemma ReplaceAtDollar(d: string, rest: string, k: nat, n: nat)
    requires AllDigits(d) && Halted(rest)
    ensures var pat, to := "$" + Dec(k), "$" + Dec(k + n);
            Replace("$" + d + rest, pat, to)
            == "$" + (if d == "" then "" else Hit(d, k, n)) + Replace(rest, pat, to)
  {
    hide Dec, Replace;
    var t, pat, to := "$" + d + rest, "$" + Dec(k), "$" + Dec(k + n);
    PrefixOfNumeral(Dec(k), d, rest);
    if Dec(k) <= d {
      var tail := d[|Dec(k)|..];
      assert forall c | c in tail :: c in d;
      ReplaceSkip(tail, rest, pat, to);
      assert t[|pat|..] == tail + rest;
      ReplaceHit(t, pat, to);
      assert to + (tail + Replace(rest, pat, to)) == "$" + (Dec(k + n) + tail) + Replace(rest, pat, to);
    } else {
      ReplaceSkip(d, rest, pat, to);
      assert t[1..] == d + rest;
      ReplaceMiss(t, pat, to);
      assert ['$'] + (d + Replace(rest, pat, to)) == "$" + d + Replace(rest, pat, to);
    }
  }

  lemma {:induction false} ReplaceIsMapRefs(t: string, k: nat, n: nat)
    ensures Replace(t, "$" + Dec(k), "$" + Dec(k + n)) == MapRefs(t, HitFn(k, n))
    decreases |t|
  {
    hide MapRefs, Refs, Dec, Hit, Digits;
    var pat, to, f := "$" + Dec(k), "$" + Dec(k + n), HitFn(k, n);
    if t == "" {
      MapRefsEmpty(f);
    } else if t[0] == '$' {
      var d, rest := MapRefsAtDollar(t, f);
      ReplaceAtDollar(d, rest, k, n);
      ReplaceIsMapRefs(rest, k, n);
    } else {
      MapRefsAtChar(t, f);
      ReplaceIsMapRefs(t[1..], k, n);
      ReplaceMiss(t, pat, to);
    }
  }

  lemma {:induction false} MapRefsCompose(s: string, f: string -> string, g: string -> string, gf: string -> string)
    requires OnNumerals(f) && forall d :: gf(d) == g(f(d))
    ensures MapRefs(MapRefs(s, f), g) == MapRefs(s, gf)
    decreases |s|
  {
    hide MapRefs, Refs;
    if s == "" {
      MapRefsEmpty(f);
      MapRefsEmpty(g);
      MapRefsEmpty(gf);
    } else if s[0] == '$' {
      var d, rest := MapRefsAtDollar(s, f);
      var d2, rest2 := MapRefsAtDollar(s, gf);
      assert rest == s[1 + |d|..] == rest2;
      hide Digits;
      var d', r' := if d == "" then "" else f(d), MapRefs(rest, f);
      MapRefsHalted(rest, f);
      MapRefsSplit(d', r', g);
      MapRefsCompose(rest, f, g, gf);
    } else {
      MapRefsAtChar(s, f);
      MapRefsAtChar(s, gf);
      MapRefsAtChar(MapRefs(s, f), g);
      assert MapRefs(s, f)[1..] == MapRefs(s[1..], f);
      MapRefsCompose(s[1..], f, g, gf);
    }
  }

  lemma MapRefsSplit(d: string, rest: string, f: string -> string)
    requires AllDigits(d) && Halted(rest)
    ensures MapRefs("$" + d + rest, f) == "$" + (if d == "" then "" else f(d)) + MapRefs(rest, f)
  {
    DigitsOf(d, rest);
    DollarParts(d, rest);
    hide Digits, AllDigits;
  }

  lemma {:induction false} MapRefsIdentity(s: string, f: string -> string)
    requires forall d :: f(d) == d
    ensures MapRefs(s, f) == s
    decreases |s|
  {
    hide MapRefs, Refs;
    if s == "" {
      MapRefsEmpty(f);
    } else if s[0] == '$' {
      var d, rest := MapRefsAtDollar(s, f);
      MapRefsIdentity(rest, f);
    } else {
      MapRefsAtChar(s, f);
      MapRefsIdentity(s[1..], f);
    }
  }

  lemma RoundsFnStep(k: nat, n: nat)
    requires k > 0
    ensures OnNumerals(RoundsFn(k - 1, n))
    ensures forall d :: RoundsFn(k, n)(d) == HitFn(k, n)(RoundsFn(k - 1, n)(d))
  {
    hide Hit;
  }

  /** For every text, the loop changes the numerals of its placeholders by `AfterRounds` and nothing else. */
  lemma {:induction false} ShiftedIsMapRefs(s: string, m: nat, n: nat)
    ensures Shifted(Postgres, s, m, n) == MapRefs(s, RoundsFn(m, n))
  {
    hide MapRefs, Dec, Replace, AfterRounds, OnNumerals;
    if m == 0 {
      assert forall d :: RoundsFn(0, n)(d) == d by { RoundsFnZero(n); }
      MapRefsIdentity(s, RoundsFn(0, n));
    } else {
      RoundsFnStep(m, n);
      ShiftedIsMapRefs(s, m - 1, n);
      ReplaceIsMapRefs(MapRefs(s, RoundsFn(m - 1, n)), m, n);
      hide RoundsFn, HitFn;
      MapRefsCompose(s, RoundsFn(m - 1, n), HitFn(m, n), RoundsFn(m, n));
    }
  }

  lemma RoundsFnZero(n: nat)
    ensures forall d :: RoundsFn(0, n)(d) == d
  {
  }
}

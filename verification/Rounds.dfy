/** When the replacement loop of `push` is the renumbering it is meant to be, exactly. */
module Rounds {
  import opened Text
  import opened Drivers
  import opened References
  import opened Splice

  /** No other round of the loop touches the placeholder `v` of a fragment with `m` arguments, the
      digits `e` right behind it included: neither an earlier one before its own turn, nor a later
      one after it. */
  predicate Safe(v: nat, e: string, m: nat, n: nat) {
    NotHitBefore(v, v) && NotHitAfter(v, e, m, n)
  }

  predicate NotHitBefore(v: nat, bound: nat) {
    forall j | 1 <= j < bound :: !(Dec(j) <= Dec(v))
  }

  predicate NotHitAfter(v: nat, e: string, m: nat, n: nat) {
    forall j | v < j <= m :: !(Dec(j) <= Dec(v + n) + e)
  }

  /** No round of the loop touches the numeral `d`. */
  predicate Untouched(d: string, m: nat) {
    forall j | 1 <= j <= m :: !(Dec(j) <= d)
  }

  // ---- a hit in numbers ------------------------------------------------------------------------

  lemma ScaleUp(n: nat, p: nat, q: nat)
    requires p >= q
    ensures n * p >= n * q
  {
    assert n * (p - q) >= 0;
    assert n * (p - q) == n * p - n * q;
  }

  /** A hit adds `n` at the place of the numeral's prefix. */
  lemma HitValue(d: string, k: nat, n: nat)
    requires d != "" && AllDigits(d) && Dec(k) <= d
    ensures Val(Hit(d, k, n)) == Val(d) + n * Pow(10, |d| - |Dec(k)|)
  {
    hide Val, Pow, Hit;
    var tail := HitText(d, k, n);
    NumeralBefore(k, tail);
    NumeralBefore(k + n, tail);
    hide Dec, AllDigits;
    Distribute(k, n, Pow(10, |tail|));
  }

  lemma HitText(d: string, k: nat, n: nat) returns (tail: string)
    requires AllDigits(d) && Dec(k) <= d
    ensures AllDigits(tail) && |tail| == |d| - |Dec(k)|
    ensures d == Dec(k) + tail && Hit(d, k, n) == Dec(k + n) + tail
  {
    hide Dec;
    tail := d[|Dec(k)|..];
    assert forall c | c in tail :: c in d;
  }

  lemma NumeralBefore(k: nat, tail: string)
    requires AllDigits(tail)
    ensures AllDigits(Dec(k) + tail) && Val(Dec(k) + tail) == k * Pow(10, |tail|) + Val(tail)
  {
    hide Dec, Val, Pow;
    ValConcat(Dec(k), tail);
    ValDec(k);
  }

  lemma {:induction false} PowerGrows(n: nat, e: nat, f: nat)
    requires n > 0 && e <= f
    ensures n * Pow(10, e) <= n * Pow(10, f)
    ensures e < f ==> n * Pow(10, e) < n * Pow(10, f)
  {
    if e < f {
      PowerGrows(n, e, f - 1);
      assert Pow(10, f) == 10 * Pow(10, f - 1);
      TimesTen(n, Pow(10, f - 1));
      ScaleUp(n, Pow(10, f - 1), 1);
    }
  }

  /** A numeral that is hit grows, by more the more digits follow the part that is hit. */
  lemma HitGrows(d: string, k: nat, n: nat, e: nat)
    requires d != "" && AllDigits(d) && n > 0
    ensures Val(Hit(d, k, n)) >= Val(d)
    ensures Dec(k) <= d ==> Val(Hit(d, k, n)) > Val(d)
    ensures Dec(k) <= d && |d| > |Dec(k)| + e ==> Val(Hit(d, k, n)) > Val(d) + n * Pow(10, e)
  {
    hide Val, Pow, Hit, Dec;
    if Dec(k) <= d {
      HitValue(d, k, n);
      ScaleUp(n, Pow(10, |d| - |Dec(k)|), 1);
      if |d| > |Dec(k)| + e {
        PowerGrows(n, e, |d| - |Dec(k)|);
      }
    } else {
      HitMiss(d, k, n);
    }
  }

  lemma HitMiss(d: string, k: nat, n: nat)
    requires !(Dec(k) <= d)
    ensures Hit(d, k, n) == d
  {
  }

  lemma HitWhole(k: nat, e: string, n: nat)
    ensures Hit(Dec(k) + e, k, n) == Dec(k + n) + e
  {
    hide Dec;
    assert (Dec(k) + e)[|Dec(k)|..] == e;
  }

  /** Where the numeral of `v`, with the digits `e` behind it, is meant to go. */
  lemma TargetValue(v: nat, e: string, n: nat)
    requires AllDigits(e)
    ensures AllDigits(Dec(v) + e) && AllDigits(Dec(v + n) + e) && Dec(v) + e != ""
    ensures Val(Dec(v + n) + e) == Val(Dec(v) + e) + n * Pow(10, |e|)
  {
    hide Dec, Val, Pow;
    NumeralBefore(v, e);
    NumeralBefore(v + n, e);
    Distribute(v, n, Pow(10, |e|));
  }

  lemma {:induction false} LongerNumeral(k: nat, v: nat)
    requires k <= v
    ensures |Dec(k)| <= |Dec(v)|
  {
    if k >= 10 {
      LongerNumeral(k / 10, v / 10);
    }
  }

  /** The numeral of a smaller number that is a prefix is a shorter one. */
  lemma EarlierPrefix(k: nat, v: nat, e: string)
    requires k < v
    ensures Dec(k) <= Dec(v) + e <==> Dec(k) <= Dec(v)
    ensures Dec(k) <= Dec(v) ==> |Dec(k)| < |Dec(v)|
  {
    LongerNumeral(k, v);
    ValDec(k);
    ValDec(v);
    hide Dec, Val;
    assert |Dec(k)| == |Dec(v)| && Dec(k) <= Dec(v) ==> Dec(k) == Dec(v);
    assert (Dec(v) + e)[..|Dec(k)|] == Dec(v)[..|Dec(k)|];
  }

  // ---- the rounds ---------------------------------------------------------------------------------

  /** Before its turn a numeral either still stands, or has grown past its target for good. */
  lemma {:induction false} RoundsBefore(v: nat, e: string, k: nat, n: nat)
    requires n > 0 && k < v && AllDigits(e)
    ensures AllDigits(Dec(v) + e) && AllDigits(AfterRounds(Dec(v) + e, k, n))
    ensures if NotHitBefore(v, k + 1) then AfterRounds(Dec(v) + e, k, n) == Dec(v) + e
            else Val(AfterRounds(Dec(v) + e, k, n)) > Val(Dec(v) + e) + n * Pow(10, |e|)
  {
    hide Dec, Val, Hit, Pow, AllDigits;
    TargetValue(v, e, n);
    if k > 0 {
      var d := Dec(v) + e;
      RoundsBefore(v, e, k - 1, n);
      HitGrows(AfterRounds(d, k - 1, n), k, n, |e|);
      EarlierPrefix(k, v, e);
      NotHitBeforeStep(v, k);
      if NotHitBefore(v, k + 1) {
        HitMiss(d, k, n);
      }
    }
  }

  lemma NotHitBeforeStep(v: nat, k: nat)
    requires k > 0
    ensures NotHitBefore(v, k + 1) <==> NotHitBefore(v, k) && !(Dec(k) <= Dec(v))
  {
    hide Dec;
  }

  lemma NotHitAfterStep(v: nat, e: string, k: nat, n: nat)
    requires k > v
    ensures NotHitAfter(v, e, k, n) <==> NotHitAfter(v, e, k - 1, n) && !(Dec(k) <= Dec(v + n) + e)
  {
    hide Dec;
  }

  lemma UntouchedStep(d: string, m: nat)
    requires m > 0
    ensures Untouched(d, m) <==> Untouched(d, m - 1) && !(Dec(m) <= d)
  {
    hide Dec;
  }

  /** The placeholder `v`, with the digits `e` behind it, ends as `v + n` with those digits exactly
      when it is safe; else it ends too big. */
  lemma {:induction false} RoundsExactly(v: nat, e: string, m: nat, n: nat)
    requires n > 0 && 1 <= v <= m && AllDigits(e)
    ensures AllDigits(AfterRounds(Dec(v) + e, m, n)) && AllDigits(Dec(v + n) + e)
    ensures if Safe(v, e, m, n) then AfterRounds(Dec(v) + e, m, n) == Dec(v + n) + e
            else Val(AfterRounds(Dec(v) + e, m, n)) > Val(Dec(v + n) + e)
  {
    hide Dec, Val, Hit, Pow, AllDigits, NotHitBefore;
    var d := Dec(v) + e;
    TargetValue(v, e, n);
    if m == v {
      RoundsBefore(v, e, v - 1, n);
      HitGrows(AfterRounds(d, v - 1, n), v, n, 0);
      HitWhole(v, e, n);
    } else {
      RoundsExactly(v, e, m - 1, n);
      HitGrows(AfterRounds(d, m - 1, n), m, n, 0);
      NotHitAfterStep(v, e, m, n);
      if Safe(v, e, m, n) {
        HitMiss(Dec(v + n) + e, m, n);
      }
    }
  }

  /** Any other numeral is left alone exactly when no round touches it. */
  lemma {:induction false} RoundsLeave(d: string, m: nat, n: nat)
    requires n > 0 && d != "" && AllDigits(d)
    ensures AllDigits(AfterRounds(d, m, n))
    ensures if Untouched(d, m) then AfterRounds(d, m, n) == d else Val(AfterRounds(d, m, n)) > Val(d)
  {
    hide Dec, Val, Hit, AllDigits;
    if m > 0 {
      RoundsLeave(d, m - 1, n);
      HitGrows(AfterRounds(d, m - 1, n), m, n, 0);
      UntouchedStep(d, m);
      if Untouched(d, m) {
        HitMiss(d, m, n);
      }
    }
  }

  lemma {:induction false} RoundsIdle(d: string, k: nat)
    ensures AfterRounds(d, k, 0) == d
  {
    hide Dec;
    if k > 0 {
      RoundsIdle(d, k - 1);
      assert Dec(k) <= d ==> Dec(k) + d[|Dec(k)|..] == d;
    }
  }

  lemma PlaceholderExact(v: nat, e: string, m: nat, n: nat)
    requires 1 <= v <= m && AllDigits(e)
    ensures AfterRounds(Dec(v) + e, m, n) == Dec(v + n) + e <==> n == 0 || Safe(v, e, m, n)
  {
    hide Safe, AllDigits, Dec, Val;
    if n == 0 {
      RoundsIdle(Dec(v) + e, m);
    } else {
      RoundsExactly(v, e, m, n);
    }
  }

  lemma OtherExact(d: string, m: nat, n: nat)
    requires d != "" && AllDigits(d)
    ensures AfterRounds(d, m, n) == d <==> n == 0 || Untouched(d, m)
  {
    hide Untouched, AllDigits, Val;
    if n == 0 {
      RoundsIdle(d, m);
    } else {
      RoundsLeave(d, m, n);
    }
  }

  /** A placeholder among `$1..$m` is to be moved, any other one to stay. */
  predicate RefSafe(r: string, m: nat, n: nat)
    requires AllDigits(r)
  {
    if IsRef(r, m) then Safe(Val(r), "", m, n) else Untouched(r, m)
  }

  /** For every text: the loop is the simultaneous renumbering of `$1..$m` exactly when every
      placeholder among them that occurs is safe, and every other one untouched. */
  lemma ShiftExact(s: string, m: nat, n: nat)
    ensures Shifted(Postgres, s, m, n) == MapRefs(s, Renumber(m, n))
       <==> n == 0 || forall r | r in Refs(s) :: RefSafe(r, m, n)
  {
    hide Refs, MapRefs, RefSafe, Shifted, OnNumerals, RoundsFn, Renumber;
    ShiftedIsMapRefs(s, m, n);
    RoundsOnNumerals(m, n);
    RenumberOnNumerals(m, n);
    MapRefsEqual(s, RoundsFn(m, n), Renumber(m, n));
    forall r | r in Refs(s)
      ensures RoundsFn(m, n)(r) == Renumber(m, n)(r) <==> n == 0 || RefSafe(r, m, n)
    {
      ShiftExactAt(r, m, n);
    }
  }

  lemma ShiftExactAt(r: string, m: nat, n: nat)
    requires r != "" && AllDigits(r)
    ensures RoundsFn(m, n)(r) == Renumber(m, n)(r) <==> n == 0 || RefSafe(r, m, n)
  {
    hide Safe, Untouched, Dec, AfterRounds, Val, AllDigits;
    assert RoundsFn(m, n)(r) == AfterRounds(r, m, n);
    if IsRef(r, m) {
      var v := Val(r);
      assert Renumber(m, n)(r) == Dec(v + n);
      assert Dec(v) + "" == r && Dec(v + n) + "" == Dec(v + n);
      assert AllDigits("") by { NoDigitsAtAll(); }
      PlaceholderExact(v, "", m, n);
    } else {
      assert Renumber(m, n)(r) == r;
      OtherExact(r, m, n);
    }
  }

  lemma NoDigitsAtAll()
    ensures AllDigits("")
  {
  }

  lemma RoundsOnNumerals(m: nat, n: nat)
    ensures OnNumerals(RoundsFn(m, n))
  {
    hide Hit;
  }

  lemma RenumberOnNumerals(m: nat, n: nat)
    ensures OnNumerals(Renumber(m, n))
  {
    hide Dec, Val;
  }

  // ---- the condition in numbers --------------------------------------------------------------------

  /** What a caller can check before the call: `m` arguments spliced onto `n`. */
  predicate SpliceSafe(m: nat, n: nat) {
    || n == 0 || m <= 1
    || (m <= 9 && forall v | 1 <= v <= m :: !Collides(v, m, n))
  }

  /** The moved numeral of `v` starts with the numeral of a later placeholder. */
  predicate Collides(v: nat, m: nat, n: nat) {
    v < LeadingDigit(v + n) <= m
  }

  lemma SingleDigitPrefix(j: nat, x: nat)
    requires 1 <= j <= 9
    ensures Dec(j) <= Dec(x) <==> LeadingDigit(x) == j
  {
    assert Dec(j) == [DigitChar(j)];
  }

  lemma SafeUpToNine(v: nat, m: nat, n: nat)
    requires 1 <= v <= m <= 9
    ensures Safe(v, "", m, n) <==> !Collides(v, m, n)
  {
    hide Dec, LeadingDigit;
    assert Dec(v + n) + "" == Dec(v + n);
    forall j | 1 <= j <= 9
      ensures Dec(j) <= Dec(v + n) <==> LeadingDigit(v + n) == j
      ensures Dec(j) <= Dec(v) <==> v == j
    {
      SingleDigitPrefix(j, v + n);
      SingleDigitPrefix(j, v);
    }
    if Collides(v, m, n) {
      assert Dec(LeadingDigit(v + n)) <= Dec(v + n);
    }
  }

  lemma SpliceSafeExact(m: nat, n: nat)
    ensures SpliceSafe(m, n) <==> n == 0 || forall v | 1 <= v <= m :: Safe(v, "", m, n)
  {
    hide Safe, Collides;
    if m >= 10 {
      TenIsHit(m, n);
    } else {
      forall v | 1 <= v <= m ensures Safe(v, "", m, n) <==> !Collides(v, m, n) {
        SafeUpToNine(v, m, n);
      }
      OneIsSafe(n);
    }
  }

  lemma OneIsSafe(n: nat)
    ensures Safe(1, "", 1, n)
  {
  }

  lemma TenIsHit(m: nat, n: nat)
    ensures !Safe(10, "", m, n)
  {
    assert Dec(1) <= Dec(10);
  }
}

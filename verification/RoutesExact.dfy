/** Clean calls are the only ones that keep the two routes together. */
module RoutesExact {
  import opened Text
  import opened Drivers
  import opened Translator
  import opened Builder
  import opened TwoRoutes

  // ---- the numbers can be told from the text ---------------------------------------------------

  /** The text before the first mark. */
  function Front(s: string): (f: string)
    ensures f <= s
  {
    if s == "" || s[0] == '?' then "" else [s[0]] + Front(s[1..])
  }

  lemma {:induction false} MarkedAfterFront(s: string, js: seq<nat>)
    requires |js| == Count(s, '?')
    ensures Front(s) <= Marked(s, js)
    ensures js == [] ==> Marked(s, js) == Front(s)
    ensures js != [] ==> |Marked(s, js)| > |Front(s)| && Marked(s, js)[|Front(s)|] == '$'
  {
    if s != "" && s[0] != '?' {
      MarkedAfterFront(s[1..], js);
    }
  }

  /** A text that stays a prefix when digits are put before it is all digits. */
  lemma {:induction false} ShiftedIsDigits(w: string, front: string)
    requires w != "" && AllDigits(w) && front <= w + front
    ensures AllDigits(front)
    decreases |front|
  {
    if |front| <= |w| {
      assert forall i | 0 <= i < |front| :: front[i] == w[i] && w[i] in w;
    } else {
      var rest := front[|w|..];
      assert front == w + rest;
      assert w + front == w + (w + rest) && rest <= w + rest;
      ShiftedIsDigits(w, rest);
    }
  }

  lemma DigitAtFront(w: string, front: string, y: string)
    requires w != "" && AllDigits(w) && front <= y && front <= w + y
    ensures |w + y| > |front| && IsDigit((w + y)[|front|])
  {
    assert front <= w + front by {
      assert forall i | 0 <= i < |front| :: (w + front)[i] == (w + y)[i];
    }
    ShiftedIsDigits(w, front);
    assert w + y == (w + front) + y[|front|..];
    assert (w + front)[|front|] in w + front;
  }

  /** Two different numerals cannot be made up for by the text that follows them. */
  lemma DifferentNumerals(a: nat, b: nat, front: string, x: string, y: string)
    requires |Dec(a)| <= |Dec(b)| && Dec(a) + x == Dec(b) + y
    requires front <= x && front <= y
    requires (x == front && y == front) || (|x| > |front| && x[|front|] == '$')
    ensures a == b
  {
    var k, w := |Dec(a)|, Dec(b)[|Dec(a)|..];
    assert Dec(a) == (Dec(a) + x)[..k] == (Dec(b) + y)[..k] == Dec(b)[..k];
    assert x == (Dec(a) + x)[k..] == (Dec(b) + y)[k..] == w + y;
    if w == "" {
      assert Dec(a) == Dec(b);
      DecInjective(a, b);
    } else {
      assert forall d | d in w :: d in Dec(b);
      hide Dec;
      DigitAtFront(w, front, y);
    }
  }

  lemma AfterDollar(num: string, x: string)
    ensures ("$" + num + x)[1..] == num + x && (num + x)[|num|..] == x
  {
    assert "$" + num + x == "$" + (num + x);
  }

  lemma SameFirstNumeral(t: string, js: seq<nat>, ks: seq<nat>)
    requires |js| == |ks| == Count(t, '?') + 1
    requires Dec(js[0]) + Marked(t, js[1..]) == Dec(ks[0]) + Marked(t, ks[1..])
    ensures js[0] == ks[0]
  {
    MarkedAfterFront(t, js[1..]);
    MarkedAfterFront(t, ks[1..]);
    hide Dec, Marked, Front, Count;
    if |Dec(js[0])| <= |Dec(ks[0])| {
      DifferentNumerals(js[0], ks[0], Front(t), Marked(t, js[1..]), Marked(t, ks[1..]));
    } else {
      DifferentNumerals(ks[0], js[0], Front(t), Marked(t, ks[1..]), Marked(t, js[1..]));
    }
  }

  /** The numbers can be told from the marked text, whatever else the text holds. */
  lemma {:induction false} MarkedInjective(s: string, js: seq<nat>, ks: seq<nat>)
    requires |js| == |ks| == Count(s, '?')
    requires Marked(s, js) == Marked(s, ks)
    ensures js == ks
  {
    hide Dec;
    if s != "" {
      var t := s[1..];
      if s[0] == '?' {
        AfterDollar(Dec(js[0]), Marked(t, js[1..]));
        AfterDollar(Dec(ks[0]), Marked(t, ks[1..]));
        SameFirstNumeral(t, js, ks);
        MarkedInjective(t, js[1..], ks[1..]);
        assert js == [js[0]] + js[1..] && ks == [ks[0]] + ks[1..];
      } else {
        assert Marked(s, js)[1..] == Marked(t, js) && Marked(s, ks)[1..] == Marked(t, ks);
        MarkedInjective(t, js, ks);
      }
    }
  }

  // ---- the numbers a `$` builder writes ----------------------------------------------------------------

  function Repeat(k: nat, n: nat): (r: seq<nat>)
    ensures |r| == n && forall i | 0 <= i < n :: r[i] == k
  {
    seq(n, _ => k)
  }

  function SlotsOf(formats: map<string, string>, p: Piece, n: nat): seq<nat> {
    if p.Hole? then Repeat(n + 1, HolesPerArg(formats, p.column)) else []
  }

  /** The number of the argument at every placeholder, left to right. */
  function Slots(formats: map<string, string>, ps: seq<Piece>, n: nat): seq<nat> {
    if ps == [] then [] else SlotsOf(formats, ps[0], n) + Slots(formats, ps[1..], n + |Bound(ps[0])|)
  }

  lemma {:induction false} ReplaceIsMarked(f: string, k: nat)
    requires '?' !in f
    ensures Count(Replace(f, "{}", "?"), '?') == Occurs(f, "{}")
    ensures Replace(f, "{}", "$" + Dec(k)) == Marked(Replace(f, "{}", "?"), Repeat(k, Occurs(f, "{}")))
    decreases |f|
  {
    hide Dec;
    if |f| < 2 {
      MarkFreeIsMarked(f);
    } else if "{}" <= f {
      var r := Replace(f[2..], "{}", "?");
      ReplaceIsMarked(f[2..], k);
      assert ("?" + r)[1..] == r;
      assert Repeat(k, Occurs(f, "{}"))[1..] == Repeat(k, Occurs(f[2..], "{}"));
    } else {
      var r := Replace(f[1..], "{}", "?");
      ReplaceIsMarked(f[1..], k);
      assert ([f[0]] + r)[1..] == r && f[0] in f;
    }
  }

  lemma PieceIsMarked(driver: Driver, formats: map<string, string>, p: Piece, n: nat)
    requires UsesMarks(driver) && MarkFreePiece(formats, p)
    ensures |SlotsOf(formats, p, n)| == Count(PieceText(driver, formats, p, n), '?')
    ensures PieceText(Postgres, formats, p, n) == Marked(PieceText(driver, formats, p, n), SlotsOf(formats, p, n))
  {
    match p
    case Lit(text) => MarkFreeIsMarked(text);
    case Hole(column, _) =>
      if column in formats {
        ReplaceIsMarked(formats[column], n + 1);
      } else {
        assert "?"[1..] == "" && SlotsOf(formats, p, n)[1..] == [] && Marked("", []) == "";
      }
  }

  lemma {:induction false} RenderIsMarked(driver: Driver, formats: map<string, string>, ps: seq<Piece>, n: nat)
    requires UsesMarks(driver) && forall p | p in ps :: MarkFreePiece(formats, p)
    ensures |Slots(formats, ps, n)| == Count(Render(driver, formats, ps, n), '?')
    ensures Render(Postgres, formats, ps, n) == Marked(Render(driver, formats, ps, n), Slots(formats, ps, n))
  {
    hide PieceText, MarkFreePiece, SlotsOf, Bound, Render;
    if ps == [] {
      NothingRendered(driver, formats, n);
      NothingRendered(Postgres, formats, n);
    } else {
      assert ps[0] in ps;
      var next := n + |Bound(ps[0])|;
      RenderStep(driver, formats, ps, n);
      RenderStep(Postgres, formats, ps, n);
      PieceIsMarked(driver, formats, ps[0], n);
      RenderIsMarked(driver, formats, ps[1..], next);
      assert Slots(formats, ps, n) == SlotsOf(formats, ps[0], n) + Slots(formats, ps[1..], next);
      hide Marked, Slots;
      MarkedConcat(PieceText(driver, formats, ps[0], n), SlotsOf(formats, ps[0], n),
                   Render(driver, formats, ps[1..], next), Slots(formats, ps[1..], next));
    }
  }

  lemma {:induction false} SlotsAbove(formats: map<string, string>, ps: seq<Piece>, n: nat)
    ensures forall i | 0 <= i < |Slots(formats, ps, n)| :: Slots(formats, ps, n)[i] > n
  {
    hide HolesPerArg;
    if ps != [] {
      SlotsAbove(formats, ps[1..], n + |Bound(ps[0])|);
    }
  }

  lemma OnePlaceEach(k: nat, h: nat, later: seq<nat>, rest: seq<nat>)
    requires Repeat(k, h) + later == [k] + rest
    requires forall i | 0 <= i < |later| :: later[i] > k
    requires rest != [] ==> rest[0] == k + 1
    ensures h == 1 && later == rest
  {
    var all := Repeat(k, h) + later;
    assert all[0] == k;
    assert h >= 1;
    assert rest != [] ==> all[1] == k + 1;
    assert h <= 1;
    assert later == all[1..] == rest;
  }

  lemma HoleSlot(formats: map<string, string>, ps: seq<Piece>, n: nat)
    requires ps != [] && ps[0].Hole? && Slots(formats, ps, n) == From(n + 1, |Values(ps)|)
    ensures HolesPerArg(formats, ps[0].column) == 1
    ensures Slots(formats, ps[1..], n + 1) == From(n + 2, |Values(ps[1..])|)
  {
    hide HolesPerArg, Repeat;
    var h, later := HolesPerArg(formats, ps[0].column), Slots(formats, ps[1..], n + 1);
    var rest := From(n + 2, |Values(ps[1..])|);
    SlotsAbove(formats, ps[1..], n + 1);
    assert Repeat(n + 1, h) + later == [n + 1] + rest;
    OnePlaceEach(n + 1, h, later, rest);
  }

  /** The numbers are consecutive, one for each argument, only if each argument has one place. */
  lemma {:induction false} ConsecutiveSlots(formats: map<string, string>, ps: seq<Piece>, n: nat)
    requires Slots(formats, ps, n) == From(n + 1, |Values(ps)|)
    ensures forall p | p in ps && p.Hole? :: HolesPerArg(formats, p.column) == 1
  {
    hide HolesPerArg, Repeat;
    if ps != [] {
      if ps[0].Hole? {
        HoleSlot(formats, ps, n);
      }
      ConsecutiveSlots(formats, ps[1..], n + |Bound(ps[0])|);
      assert ps == [ps[0]] + ps[1..];
    }
  }

  // ---- cleanness is needed ------------------------------------------------------------------

  lemma MarksStay(a: string, b: string)
    requires '?' !in a + b
    ensures '?' !in a && '?' !in b
  {
    assert forall c | c in a :: c in a + b;
    assert forall c | c in b :: c in a + b;
  }

  lemma DollarPieceShowsMarks(formats: map<string, string>, p: Piece, n: nat)
    requires '?' !in PieceText(Postgres, formats, p, n)
    ensures MarkFreePiece(formats, p)
  {
    if p.Hole? && p.column in formats {
      var f, num := formats[p.column], "$" + Dec(n + 1);
      CountZero(num, '?');
      CountZero(f, '?');
      CountZero(Replace(f, "{}", num), '?');
      ReplaceCountsMarks(f, num);
    }
  }

  lemma {:induction false} DollarTextShowsMarks(formats: map<string, string>, ps: seq<Piece>, n: nat)
    requires '?' !in Render(Postgres, formats, ps, n)
    ensures forall p | p in ps :: MarkFreePiece(formats, p)
  {
    hide PieceText, MarkFreePiece;
    if ps != [] {
      var next := n + |Bound(ps[0])|;
      MarksStay(PieceText(Postgres, formats, ps[0], n), Render(Postgres, formats, ps[1..], next));
      DollarPieceShowsMarks(formats, ps[0], n);
      DollarTextShowsMarks(formats, ps[1..], next);
      assert ps == [ps[0]] + ps[1..];
    }
  }

  // ---- whole programs -----------------------------------------------------------------------

  lemma {:induction false} SlotsConcat(formats: map<string, string>, a: seq<Piece>, b: seq<Piece>, n: nat)
    ensures Slots(formats, a + b, n) == Slots(formats, a, n) + Slots(formats, b, n + |Values(a)|)
  {
    hide SlotsOf, Bound;
    if a == [] {
      assert a + b == b;
    } else {
      var next := n + |Bound(a[0])|;
      assert (a + b)[1..] == a[1..] + b;
      SlotsConcat(formats, a[1..], b, next);
      var x, y := Slots(formats, a[1..], next), Slots(formats, b, n + |Values(a)|);
      assert SlotsOf(formats, a[0], n) + (x + y) == SlotsOf(formats, a[0], n) + x + y;
    }
  }

  /** The `$` state is the `?` state with the numbers `js` at its marks. */
  ghost predicate MarkedBy(m: State, p: State, js: seq<nat>) {
    && UsesMarks(m.driver) && p.driver == Postgres && m.formats == p.formats && p.args == m.args
    && |js| == Count(m.sql, '?') && p.sql == Marked(m.sql, js)
  }

  predicate MarkFree(formats: map<string, string>, op: Op) {
    forall q | q in Pieces(op) :: MarkFreePiece(formats, q)
  }

  lemma StepIsMarked(m: State, p: State, js: seq<nat>, op: Op)
    requires MarkedBy(m, p, js) && MarkFree(m.formats, op)
    ensures MarkedBy(Apply(m, op), Apply(p, op), js + Slots(m.formats, Pieces(op), |m.args|))
  {
    hide Base, Pieces, Render, Marked, Count, MarkFreePiece, Slots;
    var ps, n := Pieces(op), |m.args|;
    MarkedBase(op, m.sql, js);
    RenderIsMarked(m.driver, m.formats, ps, n);
    MarkedConcat(Base(op, m.sql), js, Render(m.driver, m.formats, ps, n), Slots(m.formats, ps, n));
  }

  /** Over a program without marks of its own the texts differ in nothing but the numbers. */
  lemma {:induction false} RunIsMarked(m: State, p: State, js: seq<nat>, ops: seq<Op>)
    requires MarkedBy(m, p, js) && forall op | op in ops :: MarkFree(m.formats, op)
    ensures MarkedBy(Run(m, ops), Run(p, ops), js + Slots(m.formats, AllPieces(ops), |m.args|))
    decreases |ops|
  {
    hide MarkedBy, MarkFree, Pieces, Slots, Apply, Values;
    if ops == [] {
      assert js + Slots(m.formats, [], |m.args|) == js by { NoSlots(m.formats, |m.args|); }
    } else {
      var op, rest := ops[0], AllPieces(ops[1..]);
      var first := Slots(m.formats, Pieces(op), |m.args|);
      assert op in ops;
      StepIsMarked(m, p, js, op);
      ApplyFrame(m, op);
      RunIsMarked(Apply(m, op), Apply(p, op), js + first, ops[1..]);
      SlotsConcat(m.formats, Pieces(op), rest, |m.args|);
      var later := Slots(m.formats, rest, |m.args| + |Values(Pieces(op))|);
      assert js + first + later == js + (first + later);
    }
  }

  lemma NoSlots(formats: map<string, string>, n: nat)
    ensures Slots(formats, [], n) == []
  {
  }

  /** A `?` in the text stays: where the end shows none, no call wrote one. */
  lemma {:induction false} EndShowsMarks(p: State, ops: seq<Op>)
    requires p.driver == Postgres && '?' !in Run(p, ops).sql
    ensures '?' !in p.sql && forall op | op in ops :: MarkFree(p.formats, op)
    decreases |ops|
  {
    hide MarkFree, Apply;
    if ops != [] {
      ApplyFrame(p, ops[0]);
      EndShowsMarks(Apply(p, ops[0]), ops[1..]);
      StepShowsMarks(p, ops[0]);
      assert ops == [ops[0]] + ops[1..];
    }
  }

  lemma StepShowsMarks(p: State, op: Op)
    requires p.driver == Postgres && '?' !in Apply(p, op).sql
    ensures '?' !in p.sql && MarkFree(p.formats, op)
  {
    hide Base, Render, Pieces, Count, MarkFreePiece, Numbered;
    var text := Render(Postgres, p.formats, Pieces(op), |p.args|);
    MarksStay(Base(op, p.sql), text);
    NumberedBase(op, p.sql);
    CountZero(p.sql, '?');
    CountZero(Base(op, p.sql), '?');
    DollarTextShowsMarks(p.formats, Pieces(op), |p.args|);
  }

  lemma AgreementIsMarked(m: State, p: State)
    requires Agree(m, p)
    ensures MarkedBy(m, p, From(1, |m.args|)) && '?' !in p.sql && |m.args| == Count(m.sql, '?')
  {
    NumberedIsMarked(m.sql, 1);
    NumberedHasNoMark(m.sql, 1);
  }

  lemma {:induction false} FromConcat(first: nat, a: nat, b: nat)
    ensures From(first, a + b) == From(first, a) + From(first + a, b)
    decreases a
  {
    if a > 0 {
      FromConcat(first + 1, a - 1, b);
    }
  }

  lemma {:induction false} InAllPieces(ops: seq<Op>)
    ensures forall op, q | op in ops && q in Pieces(op) :: q in AllPieces(ops)
  {
    hide Pieces;
    if ops != [] {
      InAllPieces(ops[1..]);
      assert ops == [ops[0]] + ops[1..];
    }
  }

  lemma EndIsClean(m: State, p: State, ops: seq<Op>)
    requires Agree(m, p) && Agree(Run(m, ops), Run(p, ops))
    ensures forall op | op in ops :: Clean(m.formats, op)
  {
    hide Agree, Run, Pieces, Slots, Marked, Values, MarkFreePiece, HolesPerArg, AllPieces;
    var ps, n, endm, endp := AllPieces(ops), |m.args|, Run(m, ops), Run(p, ops);
    AgreementIsMarked(m, p);
    AgreementIsMarked(endm, endp);
    EndShowsMarks(p, ops);
    RunIsMarked(m, p, From(1, n), ops);
    RunArgs(m, ops);
    MarkedInjective(endm.sql, From(1, n) + Slots(m.formats, ps, n), From(1, |endm.args|));
    FromConcat(1, n, |Values(ps)|);
    SamePrefix(From(1, n), Slots(m.formats, ps, n), From(n + 1, |Values(ps)|));
    ConsecutiveSlots(m.formats, ps, n);
    InAllPieces(ops);
  }

  /** The two routes end in agreement exactly when every call is clean: what one call did wrong no
      later call makes up for. */
  lemma RoutesCommuteExactly(m: State, p: State, ops: seq<Op>)
    requires Agree(m, p)
    ensures Agree(Run(m, ops), Run(p, ops)) <==> forall op | op in ops :: Clean(m.formats, op)
  {
    hide Agree, Run, Clean;
    if forall op | op in ops :: Clean(m.formats, op) {
      RunAgrees(m, p, ops);
    } else if Agree(Run(m, ops), Run(p, ops)) {
      EndIsClean(m, p, ops);
    }
  }

  /** From agreeing states a call keeps the agreement exactly when it is clean. */
  lemma StepAgreesExactly(m: State, p: State, op: Op)
    requires Agree(m, p)
    ensures Agree(Apply(m, op), Apply(p, op)) <==> Clean(m.formats, op)
  {
    hide Agree, Apply, Clean;
    OneCall(m, op);
    OneCall(p, op);
    RoutesCommuteExactly(m, p, [op]);
    assert op in [op];
  }
}

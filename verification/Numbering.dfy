/** The placeholders of Postgres SQL built by any program of calls, read left to right. */
module Numbering {
  import opened Text
  import opened Drivers
  import opened Translator
  import opened References
  import opened Builder
  import opened TwoRoutes
  import opened Binding

  /** The format used holds exactly one `{}`, and no digit comes right after it. */
  predicate OrderlyPiece(formats: map<string, string>, p: Piece) {
    p.Hole? && p.column in formats ==>
      Occurs(formats[p.column], "{}") == 1 && Halted(AfterLast(formats[p.column], "{}"))
  }

  /** No `$` comes directly before a digit; any other `$` is no placeholder. */
  predicate Refless(s: string) {
    forall i | 0 <= i < |s| - 1 && s[i] == '$' :: !IsDigit(s[i + 1])
  }

  predicate RefFreePiece(formats: map<string, string>, p: Piece) {
    match p
    case Lit(text) => Refless(text)
    case Hole(column, _) => column in formats ==> Refless(formats[column])
  }

  /** No name, condition or format of the call holds what would read as a placeholder. */
  predicate RefFree(formats: map<string, string>, op: Op) {
    forall p | p in Pieces(op) :: RefFreePiece(formats, p)
  }

  predicate AllOrderly(formats: map<string, string>, ps: seq<Piece>) {
    forall p | p in ps :: OrderlyPiece(formats, p)
  }

  predicate Orderly(formats: map<string, string>, op: Op) {
    AllOrderly(formats, Pieces(op))
  }

  // ---- reading a concatenation ------------------------------------------------------------------

  /** A `$`, with or without digits, is the last thing in the text. */
  predicate EndsInPlaceholder(s: string)
    decreases |s|
  {
    if s == "" then false
    else if s[0] == '$' then
      var rest := s[1 + |Digits(s[1..])|..];
      rest == "" || EndsInPlaceholder(rest)
    else EndsInPlaceholder(s[1..])
  }

  /** No placeholder runs on across the joint of the two texts. */
  predicate Joint(a: string, b: string) {
    EndsInPlaceholder(a) ==> Halted(b)
  }

  lemma {:induction false} RefsConcat(a: string, b: string)
    requires Joint(a, b)
    ensures Refs(a + b) == Refs(a) + Refs(b)
    decreases |a|
  {
    hide Refs, Digits, AllDigits;
    if a == "" {
      assert a + b == b;
      NoRefs();
    } else if a[0] == '$' {
      var d, rest := DollarSplit(a);
      RefsConcat(rest, b);
      DollarRefsConcat(d, rest, b);
    } else {
      assert a == [a[0]] + a[1..] && a + b == [a[0]] + (a[1..] + b);
      RefsAtChar(a[0], a[1..]);
      RefsAtChar(a[0], a[1..] + b);
      RefsConcat(a[1..], b);
    }
  }

  lemma DollarSplit(a: string) returns (d: string, rest: string)
    requires a != "" && a[0] == '$'
    ensures AllDigits(d) && Halted(rest) && a == "$" + d + rest
    ensures EndsInPlaceholder(a) <==> rest == "" || EndsInPlaceholder(rest)
  {
    hide EndsInPlaceholder;
    PlaceholderUnfold(a);
    d := Digits(a[1..]);
    rest := a[1 + |d|..];
    DigitsHalt(a[1..]);
  }

  lemma DollarRefsConcat(d: string, rest: string, b: string)
    requires AllDigits(d) && Halted(rest) && (rest == "" ==> Halted(b))
    requires Refs(rest + b) == Refs(rest) + Refs(b)
    ensures Refs("$" + d + rest + b) == Refs("$" + d + rest) + Refs(b)
  {
    hide Refs, AllDigits;
    assert "$" + d + rest + b == "$" + d + (rest + b);
    assert rest + b == "" || (rest + b)[0] == (if rest == "" then b[0] else rest[0]);
    RefsAtDollar(d, rest);
    RefsAtDollar(d, rest + b);
  }

  lemma PlaceholderUnfold(a: string)
    requires a != "" && a[0] == '$'
    ensures var rest := a[1 + |Digits(a[1..])|..];
            EndsInPlaceholder(a) <==> rest == "" || EndsInPlaceholder(rest)
  {
    hide Digits;
  }

  lemma DigitsHalt(s: string)
    ensures AllDigits(Digits(s)) && Halted(s[|Digits(s)|..])
  {
  }

  predicate EndsInNumeral(s: string) {
    s != "" && (IsDigit(s[|s| - 1]) || s[|s| - 1] == '$')
  }

  lemma {:induction false} PlaceholderEndsInNumeral(s: string)
    ensures EndsInPlaceholder(s) ==> EndsInNumeral(s)
    decreases |s|
  {
    hide Digits, AllDigits;
    if s != "" {
      if s[0] == '$' {
        var d, rest := DollarSplit(s);
        PlaceholderEndsInNumeral(rest);
        EndOfRest(d, rest);
      } else {
        PlaceholderEndsInNumeral(s[1..]);
      }
    }
  }

  /** Where a placeholder does run on, it is read wrongly, or one too many is read. */
  lemma {:induction false} RefsRunOnAcross(a: string, b: string)
    requires EndsInPlaceholder(a) && !Halted(b)
    ensures RunsOn(Refs(a), Refs(b), Refs(a + b))
    decreases |a|
  {
    hide Refs, Digits, AllDigits, RunsOn;
    if a[0] == '$' {
      var d, rest := DollarSplit(a);
      if rest == "" {
        LastRunsOn(d, b);
        assert a == "$" + d;
      } else {
        RefsRunOnAcross(rest, b);
        assert a + b == "$" + d + (rest + b) && (rest + b)[0] == rest[0];
        RefsAtDollar(d, rest);
        RefsAtDollar(d, rest + b);
        RunsOnBehind(if d == "" then [] else [d], Refs(rest), Refs(b), Refs(rest + b));
      }
    } else {
      RefsRunOnAcross(a[1..], b);
      assert a == [a[0]] + a[1..] && a + b == [a[0]] + (a[1..] + b);
      RefsAtChar(a[0], a[1..]);
      RefsAtChar(a[0], a[1..] + b);
    }
  }

  predicate RunsOn(rs: seq<string>, qs: seq<string>, all: seq<string>) {
    var n := |rs|;
    || |all| == n + |qs| + 1
    || (0 < n <= |all| && |all[n - 1]| > |rs[n - 1]|)
  }

  lemma RunsOnBehind(front: seq<string>, rs: seq<string>, qs: seq<string>, all: seq<string>)
    requires RunsOn(rs, qs, all)
    ensures RunsOn(front + rs, qs, front + all)
  {
  }

  lemma LastRunsOn(d: string, b: string)
    requires AllDigits(d) && !Halted(b)
    ensures RunsOn(Refs("$" + d), Refs(b), Refs("$" + d + b))
  {
    hide Refs, Digits, AllDigits, Halted;
    var e, rest := DigitsSplit(b);
    RefsOfNumeral(d);
    assert "$" + d + b == "$" + d + (e + rest);
    if d == "" {
      NoDollarInDigits(e);
      RefsSkip(e, rest);
      RefsAtDollar(e, rest);
      assert "$" + d + (e + rest) == "$" + e + rest;
    } else {
      RefsRunOn(d, e, rest);
    }
  }

  lemma DigitsSplit(b: string) returns (e: string, rest: string)
    ensures b == e + rest && AllDigits(e) && Halted(rest) && (e == "" <==> Halted(b))
  {
    e := Digits(b);
    rest := b[|e|..];
    DigitsHalt(b);
    HaltedDigits(b);
  }

  lemma NoDollarInDigits(e: string)
    requires AllDigits(e)
    ensures '$' !in e
  {
  }

  lemma RefsOfNumeral(d: string)
    requires AllDigits(d)
    ensures Refs("$" + d) == if d == "" then [] else [d]
  {
    NoRefs();
    assert Halted("");
    hide Refs, AllDigits;
    RefsAtDollar(d, "");
    assert "$" + d + "" == "$" + d;
  }

  /** With nothing after its digits a placeholder ends in a numeral. */
  lemma EndOfRest(d: string, rest: string)
    requires AllDigits(d)
    ensures rest == "" ==> EndsInNumeral("$" + d + rest)
    ensures rest != "" ==> (EndsInNumeral("$" + d + rest) <==> EndsInNumeral(rest))
  {
    var t := "$" + d + rest;
    if rest == "" {
      assert d != "" ==> d[|d| - 1] in d && t[|t| - 1] == d[|d| - 1];
    } else {
      assert t[|t| - 1] == rest[|rest| - 1];
    }
  }

  // ---- what an operation leaves ------------------------------------------------------------------

  lemma ReflessTail(s: string)
    requires s != ""
    ensures Refless(s) <==> Refless(s[1..]) && (s[0] == '$' ==> Halted(s[1..]))
  {
    var tail := s[1..];
    if Refless(s) {
      forall i | 0 <= i < |tail| - 1 && tail[i] == '$' ensures !IsDigit(tail[i + 1]) {
        assert s[i + 1] == '$';
      }
    } else {
      var i :| 0 <= i < |s| - 1 && s[i] == '$' && IsDigit(s[i + 1]);
      assert i > 0 ==> tail[i - 1] == '$' && IsDigit(tail[(i - 1) + 1]);
    }
  }

  /** Those texts are the ones that show no placeholder. */
  lemma {:induction false} RefsOfRefless(s: string)
    ensures Refless(s) <==> Refs(s) == []
  {
    hide Refs, Refless, Halted;
    if s == "" {
      NoRefs();
      assert Refless(s) by { NoDollar(); }
    } else {
      ReflessTail(s);
      RefsOfRefless(s[1..]);
      assert s == [s[0]] + s[1..];
      if s[0] == '$' && !Halted(s[1..]) {
        NumeralShows(s);
      } else {
        RefsBehind(s[0], s[1..]);
      }
    }
  }

  lemma NoDollar()
    ensures Refless("")
  {
  }

  lemma NumeralShows(s: string)
    requires s != "" && s[0] == '$' && !Halted(s[1..])
    ensures Refs(s) != []
  {
    HaltedDigits(s[1..]);
    hide Digits, AllDigits;
    RefsUnfold(s);
  }

  /** One character more in front, which starts no placeholder. */
  lemma RefsBehind(c: char, rest: string)
    requires c == '$' ==> Halted(rest)
    ensures Refs([c] + rest) == Refs(rest)
  {
    hide Refs, Halted;
    if c == '$' {
      RefsAtDollar("", rest);
      assert "$" + "" + rest == [c] + rest;
    } else {
      RefsAtChar(c, rest);
    }
  }

  lemma PlainReads(w: string)
    requires Plain(w)
    ensures '$' !in w && Halted(w) && Refs(w) == []
  {
    assert w != "" ==> w[0] in w;
    RefsSkip(w, "");
    assert w + "" == w;
  }

  lemma RefsOfBase(op: Op, s: string)
    ensures Refs(Base(op, s)) == Refs(s)
  {
    hide Base, Refs, Plain, Halted;
    var front, kept, back, link := BaseCuts(op, s);
    PlainLink(link);
    PlainReads(front);
    PlainReads(back);
    PlainReads(link);
    assert front + kept + back == front + (kept + back);
    RefsSkip(front, kept + back);
    RefsConcat(kept, back);
    RefsConcat(kept, link);
    assert Refs(kept) + [] == Refs(kept);
  }

  lemma NumeralAllowsLink(s: string)
    requires EndsInNumeral(s)
    ensures !NotAllowAddAndOnEnd(s)
  {
    assert TrimEnd(s) == s;
    hide TrimEnd;
    NotThatEnd(s, " where");
    NotThatEnd(s, " and");
    NotThatEnd(s, " or");
  }

  lemma NotThatEnd(s: string, p: string)
    requires p != "" && EndsInNumeral(s) && !EndsInNumeral(p)
    ensures !EndsWith(s, p)
  {
    assert |p| <= |s| ==> s[|s| - |p|..][|p| - 1] == s[|s| - 1];
  }

  lemma LinkEnds(s: string, connective: string)
    requires connective == " and " || connective == " or "
    ensures !EndsInNumeral(Link(s, connective))
  {
    if EndsInNumeral(s) {
      NumeralAllowsLink(s);
    }
  }

  /** What is left ends in a numeral only where the operation goes on with a blank, or not at all. */
  lemma BaseEnds(op: Op, s: string)
    ensures EndsInNumeral(Base(op, s)) ==> op.InArray? || op.OrderBy? || op.GroupBy? || op.Limit?
    ensures EndsInNumeral(Base(op, s)) && op.InArray? ==> op.values == []
  {
    hide Link, CutTail, TrimEnd, TrimStart, EndsInNumeral;
    LinkEnds(s, " and ");
    LinkEnds(s, " or ");
  }

  // ---- the pieces of an operation ------------------------------------------------------------------

  /** After a hole comes text, and it does not start with a digit; before a further piece a text
      ends in neither a digit nor a `$`. */
  predicate Spaced(ps: seq<Piece>) {
    forall i | 0 <= i < |ps| - 1 :: Joins(ps[i], ps[i + 1])
  }

  predicate Joins(p: Piece, q: Piece) {
    if p.Hole? then Separates(q) else !EndsInNumeral(p.text)
  }

  predicate Separates(p: Piece) {
    p.Lit? && p.text != "" && !IsDigit(p.text[0])
  }

  lemma SpacedConcat(a: seq<Piece>, b: seq<Piece>)
    requires Spaced(a) && Spaced(b) && (a != [] && b != [] ==> Joins(a[|a| - 1], b[0]))
    ensures Spaced(a + b)
  {
    hide Joins;
    var s := a + b;
    forall i | 0 <= i < |s| - 1 ensures Joins(s[i], s[i + 1]) {
      if i < |a| - 1 {
        assert s[i] == a[i] && s[i + 1] == a[i + 1];
      } else if i >= |a| {
        assert s[i] == b[i - |a|] && s[i + 1] == b[(i - |a|) + 1];
      } else {
        assert s[i] == a[|a| - 1] && s[i + 1] == b[0];
      }
    }
  }

  lemma {:induction false} SpacedInList(column: string, values: seq<Bson>)
    requires values != []
    ensures var ps := InList(column, values);
            ps != [] && Spaced(ps) && Separates(ps[0]) && ps[|ps| - 1] == Lit(" ")
  {
    var k := |values| - 1;
    var item := [Lit(" "), Hole(column, values[k]), Lit(" ")];
    assert Spaced(item);
    if k == 0 {
      assert InList(column, values) == item;
    } else {
      SpacedInList(column, values[..k]);
      var front := InList(column, values[..k]);
      assert front[|front| - 1] == Lit(" ");
      SpacedConcat(front, [Lit(",")]);
      SpacedConcat(front + [Lit(",")], item);
    }
  }

  lemma {:induction false} SpacedEqList(fields: seq<(string, Bson)>)
    requires fields != []
    ensures var ps := EqList(fields);
            ps != [] && Spaced(ps) && ps[0].Lit? && ps[|ps| - 1].Hole?
  {
    var k := |fields| - 1;
    var pair := [Lit(fields[k].0 + " = "), Hole(fields[k].0, fields[k].1)];
    assert Spaced(pair);
    if k == 0 {
      assert EqList(fields) == pair;
    } else {
      SpacedEqList(fields[..k]);
      var front := EqList(fields[..k]);
      assert front[|front| - 1].Hole?;
      SpacedConcat(front, [Lit(" and ")]);
      SpacedConcat(front + [Lit(" and ")], pair);
    }
  }

  lemma SpacedWrap(open: Piece, inner: seq<Piece>, close: Piece)
    requires Spaced(inner) && inner != []
    requires Joins(open, inner[0]) && Joins(inner[|inner| - 1], close)
    ensures Spaced([open] + inner + [close])
  {
    hide Joins;
    SpacedConcat([open], inner);
    SpacedConcat([open] + inner, [close]);
  }

  lemma SpacedPieces(op: Op)
    ensures Spaced(Pieces(op))
    ensures op.OrderBy? || op.GroupBy? || op.Limit? ==> Pieces(op) == [] || Separates(Pieces(op)[0])
  {
    hide Spaced, EndsInNumeral, InList, EqList, Separates;
    match op
    case Compare(cmp, column, value) =>
      SpacedPair(column, Sign(cmp), column, value);
    case Like(negated, column, value) =>
      SpacedPair(column, if negated then " not like " else " like ", column, LikePattern(value, negated));
    case Between(negated, column, lo, hi) =>
      SpacedBetween(column, if negated then " not between " else " between ", lo, hi);
    case InArray(negated, column, values) =>
      if values == [] {
        SpacedOne([]);
      } else {
        SpacedInList(column, values);
        SpacedWithin(column, if negated then " not in (" else " in (", InList(column, values));
      }
    case AllEq(fields) =>
      if fields == [] {
        SpacedOne([]);
      } else {
        SpacedEqList(fields);
        SpacedWithin("", "(", EqList(fields));
        assert "" + "(" == "(";
      }
    case _ =>
      SpacedOne(Pieces(op));
  }

  lemma SpacedOne(ps: seq<Piece>)
    requires |ps| <= 1
    ensures Spaced(ps)
    ensures ps != [] && ps[0].Lit? && ps[0].text != "" && ps[0].text[0] == ' ' ==> Separates(ps[0])
  {
  }

  lemma TextEnds(a: string, w: string)
    requires w != "" && (w[|w| - 1] == ' ' || w[|w| - 1] == '(')
    ensures !EndsInNumeral(a + w)
  {
    assert (a + w)[|a + w| - 1] == w[|w| - 1];
  }

  lemma SpacedPair(name: string, w: string, column: string, v: Bson)
    requires w != "" && w[|w| - 1] == ' '
    ensures Spaced([Lit(name + w), Hole(column, v)])
  {
    TextEnds(name, w);
    hide EndsInNumeral;
  }

  lemma SpacedBetween(column: string, w: string, lo: Bson, hi: Bson)
    requires w != "" && w[|w| - 1] == ' '
    ensures Spaced([Lit(column + w), Hole(column, lo), Lit(" and "), Hole(column, hi)])
  {
    var a, b := [Lit(column + w), Hole(column, lo)], [Lit("" + " and "), Hole(column, hi)];
    SpacedPair(column, w, column, lo);
    SpacedPair("", " and ", column, hi);
    assert Joins(a[1], b[0]) && "" + " and " == " and ";
    hide Spaced, Joins;
    SpacedConcat(a, b);
    assert a + b == [Lit(column + w), Hole(column, lo), Lit(" and "), Hole(column, hi)];
  }

  lemma SpacedWithin(column: string, w: string, inner: seq<Piece>)
    requires w != "" && w[|w| - 1] == '(' && Spaced(inner) && inner != []
    requires inner[|inner| - 1].Hole? || inner[|inner| - 1] == Lit(" ")
    ensures Spaced([Lit(column + w)] + inner + [Lit(")")])
  {
    TextEnds(column, w);
    hide Spaced;
    SpacedWrap(Lit(column + w), inner, Lit(")"));
  }

  lemma SpacedTail(ps: seq<Piece>)
    requires ps != [] && Spaced(ps)
    ensures Spaced(ps[1..])
    ensures ps[1..] != [] ==> Joins(ps[0], ps[1])
  {
    hide Joins;
    var rest := ps[1..];
    assert rest != [] ==> Joins(ps[0], ps[0 + 1]);
    forall i | 0 <= i < |rest| - 1 ensures Joins(rest[i], rest[i + 1]) {
      assert rest[i] == ps[i + 1] && rest[i + 1] == ps[(i + 1) + 1];
    }
  }

  lemma RenderHalted(driver: Driver, formats: map<string, string>, ps: seq<Piece>, n: nat)
    requires ps == [] || Separates(ps[0])
    ensures Halted(Render(driver, formats, ps, n))
  {
  }

  // ---- the placeholders an operation writes --------------------------------------------------------

  /** The numerals of a format without placeholders with `$num` for each `{}`: digits that follow run on. */
  function FormatRefs(f: string, num: string): seq<string> {
    if |f| < 2 then []
    else if "{}" <= f then [num + Digits(f[2..])] + FormatRefs(f[2..], num)
    else FormatRefs(f[1..], num)
  }

  function PieceRefs(formats: map<string, string>, p: Piece, num: string): seq<string> {
    match p
    case Lit(_) => []
    case Hole(column, _) => if column in formats then FormatRefs(formats[column], num) else [num]
  }

  function SlotRefs(formats: map<string, string>, ps: seq<Piece>, n: nat): seq<string> {
    if ps == [] then []
    else PieceRefs(formats, ps[0], Dec(n + 1)) + SlotRefs(formats, ps[1..], n + |Bound(ps[0])|)
  }

  /** Replacing leaves the digits at the front of a text, and what comes after them, apart. */
  lemma {:induction false} ReplaceAfterDigits(f: string, to: string)
    requires to != "" && !IsDigit(to[0])
    ensures var d := Digits(f); Replace(f, "{}", to) == d + Replace(f[|d|..], "{}", to)
    ensures Halted(Replace(f[|Digits(f)|..], "{}", to))
    decreases |f|
  {
    hide Replace, Digits, AllDigits, Halted;
    var d := Digits(f);
    HaltedDigits(f);
    if d == "" {
      ReplaceHalted(f, to);
      assert f[|d|..] == f && d + Replace(f, "{}", to) == Replace(f, "{}", to);
    } else {
      var d' := Digits(f[1..]);
      ReplaceAfterDigits(f[1..], to);
      DigitsStep(f);
      assert f[1..][|d'|..] == f[|d|..];
      ReplaceAtDigit(f, to);
      assert d + Replace(f[|d|..], "{}", to) == [f[0]] + (d' + Replace(f[|d|..], "{}", to));
    }
  }

  lemma DigitsStep(f: string)
    requires Digits(f) != ""
    ensures f != "" && IsDigit(f[0]) && Digits(f) == [f[0]] + Digits(f[1..])
  {
  }

  lemma ReplaceAtDigit(f: string, to: string)
    requires f != "" && IsDigit(f[0])
    ensures Replace(f, "{}", to) == [f[0]] + Replace(f[1..], "{}", to)
  {
    assert |f| < 2 ==> f == [f[0]] && f[1..] == "";
  }

  lemma ReplaceHalted(f: string, to: string)
    requires Halted(f) && to != "" && !IsDigit(to[0])
    ensures Halted(Replace(f, "{}", to))
  {
  }

  lemma {:induction false} RefsOfFormat(f: string, num: string)
    requires Refless(f) && num != "" && AllDigits(num)
    ensures Refs(Replace(f, "{}", "$" + num)) == FormatRefs(f, num)
    decreases |f|
  {
    hide Refs, Digits, AllDigits, Refless, Halted;
    if |f| < 2 {
      RefsOfRefless(f);
    } else {
      ReflessTail(f);
      if "{}" <= f {
        ReflessTail(f[1..]);
        assert f[1..][1..] == f[2..];
        RefsOfFormat(f[2..], num);
        RefsAfterHole(f[2..], num);
      } else {
        RefsOfFormat(f[1..], num);
        if f[0] == '$' {
          ReplaceHalted(f[1..], "$" + num);
        }
        RefsBehind(f[0], Replace(f[1..], "{}", "$" + num));
      }
    }
  }

  lemma RefsAfterHole(rest: string, num: string)
    requires num != "" && AllDigits(num)
    ensures var to := "$" + num;
            Refs(to + Replace(rest, "{}", to)) == [num + Digits(rest)] + Refs(Replace(rest, "{}", to))
  {
    hide Refs, Digits, Replace;
    hide AllDigits, Halted;
    var d := Digits(rest);
    ReplaceAfterDigits(rest, "$" + num);
    RefsRunOn(num, d, Replace(rest[|d|..], "{}", "$" + num));
  }

  /** Digits behind a numeral are read as part of it. */
  lemma RefsRunOn(num: string, d: string, after: string)
    requires num != "" && AllDigits(num) && AllDigits(d) && Halted(after)
    ensures Refs("$" + num + (d + after)) == [num + d] + Refs(d + after)
  {
    hide Refs;
    assert AllDigits(num + d) && '$' !in d;
    assert "$" + num + (d + after) == "$" + (num + d) + after;
    hide AllDigits, Halted;
    RefsAtDollar(num + d, after);
    RefsSkip(d, after);
  }

  lemma RefsOfPiece(formats: map<string, string>, p: Piece, n: nat)
    requires RefFreePiece(formats, p)
    ensures Refs(PieceText(Postgres, formats, p, n)) == PieceRefs(formats, p, Dec(n + 1))
  {
    var num := Dec(n + 1);
    match p
    case Lit(text) => RefsOfRefless(text);
    case Hole(column, _) =>
      if column in formats {
        RefsOfFormat(formats[column], num);
      } else {
        RefsOfNumeral(num);
      }
  }

  lemma {:induction false} RefsOfRender(formats: map<string, string>, ps: seq<Piece>, n: nat)
    requires Spaced(ps) && forall p | p in ps :: RefFreePiece(formats, p)
    ensures Refs(Render(Postgres, formats, ps, n)) == SlotRefs(formats, ps, n)
  {
    hide Refs, PieceText, PieceRefs, RefFreePiece, Spaced, Joins, Joint, Dec;
    if ps == [] {
      NoRefs();
    } else {
      var p, rest, next := ps[0], ps[1..], n + |Bound(ps[0])|;
      assert p in ps;
      SpacedTail(ps);
      RefsOfPiece(formats, p, n);
      RefsOfRender(formats, rest, next);
      PieceJoint(formats, p, n, rest, next);
      RefsConcat(PieceText(Postgres, formats, p, n), Render(Postgres, formats, rest, next));
    }
  }

  lemma PieceJoint(formats: map<string, string>, p: Piece, n: nat, rest: seq<Piece>, next: nat)
    requires rest != [] ==> Joins(p, rest[0])
    ensures Joint(PieceText(Postgres, formats, p, n), Render(Postgres, formats, rest, next))
  {
    hide Halted, EndsInPlaceholder, EndsInNumeral, Separates;
    PlaceholderEndsInNumeral(PieceText(Postgres, formats, p, n));
    if rest == [] || Separates(rest[0]) {
      RenderHalted(Postgres, formats, rest, next);
    }
  }

  /** From any Postgres state a call whose names and formats hold no placeholder writes those of its
      own holes behind the others. */
  lemma RefsOfApply(st: State, op: Op)
    requires st.driver == Postgres && RefFree(st.formats, op)
    ensures Refs(Apply(st, op).sql) == Refs(st.sql) + SlotRefs(st.formats, Pieces(op), |st.args|)
  {
    hide Refs, Base, Render, Spaced, Separates, Halted, EndsInNumeral, RefFreePiece, SlotRefs, EndsInPlaceholder;
    var ps, n := Pieces(op), |st.args|;
    PlaceholderEndsInNumeral(Base(op, st.sql));
    SpacedPieces(op);
    RefsOfBase(op, st.sql);
    BaseEnds(op, st.sql);
    RefsOfRender(st.formats, ps, n);
    if ps == [] || Separates(ps[0]) {
      RenderHalted(Postgres, st.formats, ps, n);
    }
    RefsConcat(Base(op, st.sql), Render(Postgres, st.formats, ps, n));
  }

  // ---- when the numbers are in order ----------------------------------------------------------------

  lemma ValAtLeast(a: string, b: string)
    requires AllDigits(a) && AllDigits(b)
    ensures AllDigits(a + b) && Val(a + b) >= Val(a)
    ensures b != "" ==> Val(a + b) >= 10 * Val(a)
    decreases |b|
  {
    if b == "" {
      assert a + b == a;
    } else {
      var b', c := b[..|b| - 1], b[|b| - 1];
      assert c in b && AllDigits(b');
      ValAtLeast(a, b');
      ValSnoc(a + b', c);
      assert a + b == (a + b') + [c];
    }
  }

  /** Every numeral written from the n-th argument on stands for more than n. */
  predicate Above(rs: seq<string>, n: nat) {
    forall i | 0 <= i < |rs| :: AllDigits(rs[i]) && Val(rs[i]) > n
  }

  lemma {:induction false} FormatAbove(f: string, k: nat)
    ensures Above(FormatRefs(f, Dec(k + 1)), k)
    ensures |FormatRefs(f, Dec(k + 1))| == Occurs(f, "{}")
    decreases |f|
  {
    hide Dec, Val, Digits;
    if |f| >= 2 {
      if "{}" <= f {
        FormatAbove(f[2..], k);
        DigitsHalt(f[2..]);
        ValDec(k + 1);
        ValAtLeast(Dec(k + 1), Digits(f[2..]));
      } else {
        FormatAbove(f[1..], k);
      }
    }
  }

  lemma {:induction false} SlotRefsAbove(formats: map<string, string>, ps: seq<Piece>, n: nat)
    ensures Above(SlotRefs(formats, ps, n), n)
  {
    hide Dec, Val;
    if ps != [] {
      SlotRefsAbove(formats, ps[1..], n + |Bound(ps[0])|);
      ValDec(n + 1);
      if ps[0].Hole? && ps[0].column in formats {
        FormatAbove(formats[ps[0].column], n);
      }
    }
  }

  /** A format with one `{}` writes one numeral, its own unless a digit follows. */
  lemma {:induction false} OneFormatRef(f: string, num: string)
    requires Occurs(f, "{}") == 1
    ensures FormatRefs(f, num) == [num + Digits(AfterLast(f, "{}"))]
    decreases |f|
  {
    hide Digits;
    if "{}" <= f {
      NoFormatRefs(f[2..], num);
    } else {
      OneFormatRef(f[1..], num);
    }
  }

  lemma {:induction false} NoFormatRefs(f: string, num: string)
    requires Occurs(f, "{}") == 0
    ensures FormatRefs(f, num) == []
    decreases |f|
  {
    if |f| >= 2 {
      NoFormatRefs(f[1..], num);
    }
  }

  lemma {:induction false} SecondFormatRef(f: string, num: string)
    requires |FormatRefs(f, num)| >= 2
    ensures exists d :: AllDigits(d) && FormatRefs(f, num)[1] == num + d
    decreases |f|
  {
    if "{}" <= f {
      SomeFormatRef(f[2..], num);
    } else {
      SecondFormatRef(f[1..], num);
    }
  }

  lemma {:induction false} SomeFormatRef(f: string, num: string)
    requires FormatRefs(f, num) != []
    ensures exists d :: AllDigits(d) && FormatRefs(f, num)[0] == num + d
    decreases |f|
  {
    if "{}" <= f {
      DigitsHalt(f[2..]);
    } else {
      SomeFormatRef(f[1..], num);
    }
  }

  /** The numerals begin with the right one and then go on rightly exactly when the format is orderly. */
  lemma OrderlyHead(f: string, k: nat, later: seq<string>, v: nat)
    requires Above(later, k + 1)
    ensures FormatRefs(f, Dec(k + 1)) + later == Numerals(k + 1, v + 1)
       <==> Occurs(f, "{}") == 1 && Halted(AfterLast(f, "{}")) && later == Numerals(k + 2, v)
  {
    hide Dec, Val, FormatRefs, Halted, Digits;
    var num := Dec(k + 1);
    var all, first, want := FormatRefs(f, num) + later, FormatRefs(f, num), Numerals(k + 1, v + 1);
    FormatAbove(f, k);
    ValDec(k + 1);
    assert want == [num] + Numerals(k + 2, v);
    if Occurs(f, "{}") == 1 {
      OneFormatRef(f, num);
      HaltedDigits(AfterLast(f, "{}"));
      var d := Digits(AfterLast(f, "{}"));
      assert all == [num + d] + later && all[1..] == later && want[1..] == Numerals(k + 2, v);
      assert num + d == num <==> d == "" by {
        assert |num + d| == |num| + |d|;
      }
    } else if Occurs(f, "{}") == 0 {
      assert first == [] && all == later && want[0] == num;
      assert later != [] ==> Val(later[0]) != Val(num);
    } else {
      SecondFormatRef(f, num);
      SameValue(first[1], num, k);
      ValDec(k + 2);
      assert all[1] == first[1];
      assert v > 0 ==> want[1] == Dec(k + 2);
    }
  }

  /** A numeral with digits behind it is not the next number. */
  lemma SameValue(r: string, num: string, k: nat)
    requires AllDigits(num) && Val(num) == k + 1
    requires exists d :: AllDigits(d) && r == num + d
    ensures AllDigits(r) && Val(r) != k + 2
  {
    var d :| AllDigits(d) && r == num + d;
    ValAtLeast(num, d);
    assert num + "" == num;
  }

  lemma OrderlyStep(formats: map<string, string>, ps: seq<Piece>, n: nat)
    requires ps != []
    ensures SlotRefs(formats, ps, n) == Numerals(n + 1, |Values(ps)|)
       <==> OrderlyPiece(formats, ps[0])
            && SlotRefs(formats, ps[1..], n + |Bound(ps[0])|) == Numerals(n + |Bound(ps[0])| + 1, |Values(ps[1..])|)
  {
    hide Dec, FormatRefs, Numerals, Halted, SlotRefs, Values, Above, Occurs, AfterLast;
    var p, rest := ps[0], ps[1..];
    SlotRefsStep(formats, ps, n);
    if p.Hole? {
      var later, v := SlotRefs(formats, rest, n + 1), |Values(rest)|;
      SlotRefsAbove(formats, rest, n + 1);
      if p.column in formats {
        OrderlyHead(formats[p.column], n, later, v);
      } else {
        SameNumerals(n + 1, "", later, v);
        assert Dec(n + 1) + "" == Dec(n + 1);
      }
    }
  }

  lemma SlotRefsStep(formats: map<string, string>, ps: seq<Piece>, n: nat)
    requires ps != []
    ensures SlotRefs(formats, ps, n)
         == PieceRefs(formats, ps[0], Dec(n + 1)) + SlotRefs(formats, ps[1..], n + |Bound(ps[0])|)
    ensures |Values(ps)| == |Bound(ps[0])| + |Values(ps[1..])|
  {
    hide PieceRefs, Dec, Bound;
  }

  lemma {:induction false} OrderlyExactly(formats: map<string, string>, ps: seq<Piece>, n: nat)
    ensures SlotRefs(formats, ps, n) == Numerals(n + 1, |Values(ps)|) <==> AllOrderly(formats, ps)
  {
    hide OrderlyPiece, Numerals;
    if ps == [] {
      NoNumerals(n + 1);
    } else {
      hide *;
      OrderlyStep(formats, ps, n);
      OrderlyExactly(formats, ps[1..], n + |Bound(ps[0])|);
      AllOrderlyStep(formats, ps);
    }
  }

  lemma AllOrderlyStep(formats: map<string, string>, ps: seq<Piece>)
    requires ps != []
    ensures AllOrderly(formats, ps) <==> OrderlyPiece(formats, ps[0]) && AllOrderly(formats, ps[1..])
  {
    hide OrderlyPiece;
    assert ps == [ps[0]] + ps[1..];
  }

  lemma NoNumerals(first: nat)
    ensures Numerals(first, 0) == []
  {
  }

  // ---- whole programs ----------------------------------------------------------------------------------

  lemma {:induction false} SlotRefsConcat(formats: map<string, string>, a: seq<Piece>, b: seq<Piece>, n: nat)
    ensures SlotRefs(formats, a + b, n) == SlotRefs(formats, a, n) + SlotRefs(formats, b, n + |Values(a)|)
  {
    hide *;
    if a == [] {
      NothingWritten(formats, n);
      NoValues();
      assert a + b == b;
    } else {
      var next := n + |Bound(a[0])|;
      ConcatTail(a, b);
      SlotRefsStep(formats, a, n);
      SlotRefsStep(formats, a + b, n);
      SlotRefsConcat(formats, a[1..], b, next);
      Associate(PieceRefs(formats, a[0], Dec(n + 1)), SlotRefs(formats, a[1..], next),
                SlotRefs(formats, b, n + |Values(a)|));
    }
  }

  /** A program writes the placeholders of its pieces, in order, behind the earlier ones. */
  lemma {:induction false} RefsOfRun(st: State, ops: seq<Op>)
    requires st.driver == Postgres && forall op | op in ops :: RefFree(st.formats, op)
    ensures Refs(Run(st, ops).sql) == Refs(st.sql) + SlotRefs(st.formats, AllPieces(ops), |st.args|)
    decreases |ops|
  {
    hide Refs, RefFree, Apply, SlotRefs, Pieces, Values;
    if ops == [] {
      NothingWritten(st.formats, |st.args|);
      assert Refs(st.sql) + [] == Refs(st.sql);
    } else {
      assert ops[0] in ops;
      var st', rest := Apply(st, ops[0]), AllPieces(ops[1..]);
      ApplyFrame(st, ops[0]);
      RefsOfApply(st, ops[0]);
      RefsOfRun(st', ops[1..]);
      SlotRefsConcat(st.formats, Pieces(ops[0]), rest, |st.args|);
      var a, b := Refs(st.sql), SlotRefs(st.formats, Pieces(ops[0]), |st.args|);
      var c := SlotRefs(st.formats, rest, |st'.args|);
      assert a + b + c == a + (b + c);
    }
  }

  lemma NothingWritten(formats: map<string, string>, n: nat)
    ensures SlotRefs(formats, [], n) == []
  {
  }

  lemma {:induction false} PiecesOfAll(formats: map<string, string>, ops: seq<Op>)
    ensures AllOrderly(formats, AllPieces(ops)) <==> forall op | op in ops :: Orderly(formats, op)
  {
    hide OrderlyPiece, Pieces;
    if ops != [] {
      PiecesOfAll(formats, ops[1..]);
      assert ops == [ops[0]] + ops[1..];
      hide AllOrderly;
      AllOrderlyConcat(formats, Pieces(ops[0]), AllPieces(ops[1..]));
      assert Orderly(formats, ops[0]) <==> AllOrderly(formats, Pieces(ops[0]));
    }
  }

  lemma AllOrderlyConcat(formats: map<string, string>, a: seq<Piece>, b: seq<Piece>)
    ensures AllOrderly(formats, a + b) <==> AllOrderly(formats, a) && AllOrderly(formats, b)
  {
    hide OrderlyPiece;
    if AllOrderly(formats, a + b) {
      assert forall p | p in a :: p in a + b;
      assert forall p | p in b :: p in a + b;
    }
  }

  /** From any Postgres state whose placeholders are in order, and for every program of calls whose
      names and formats hold no placeholder: the placeholders, read left to right, are again exactly
      `$1` to `$n` with `n` the number of arguments -- if and only if every format used holds exactly
      one `{}` with no digit right after it. */
  lemma NumberingExact(st: State, ops: seq<Op>)
    requires st.driver == Postgres && Refs(st.sql) == Numerals(1, |st.args|)
    requires forall op | op in ops :: RefFree(st.formats, op)
    ensures var p := Run(st, ops);
            Refs(p.sql) == Numerals(1, |p.args|) <==> forall op | op in ops :: Orderly(st.formats, op)
  {
    hide Refs, RefFree, Orderly, Run, SlotRefs, Numerals, AllPieces, AllOrderly;
    var ps, n := AllPieces(ops), |st.args|;
    RefsOfRun(st, ops);
    RunArgs(st, ops);
    OrderlyExactly(st.formats, ps, n);
    PiecesOfAll(st.formats, ops);
    NumeralsConcat(1, n, |Values(ps)|);
    SamePrefix(Numerals(1, n), SlotRefs(st.formats, ps, n), Numerals(n + 1, |Values(ps)|));
  }

  lemma {:induction false} NumeralsConcat(first: nat, a: nat, b: nat)
    ensures Numerals(first, a + b) == Numerals(first, a) + Numerals(first + a, b)
    decreases a
  {
    hide Dec;
    if a > 0 {
      NumeralsConcat(first + 1, a - 1, b);
    }
  }

  lemma EmptyInOrder(formats: map<string, string>)
    ensures Refs(Empty(Postgres, formats).sql) == Numerals(1, |Empty(Postgres, formats).args|)
  {
  }

  /** A format such as `{}0` makes the first placeholder read as `$10`. */
  lemma DigitAfterHoleMisreads()
    ensures Refs(Run(Empty(Postgres, map["a" := "{}0"]), [Compare(Eq, "a", Null)]).sql) == ["10"]
  {
    var op, st := Compare(Eq, "a", Null), Empty(Postgres, map["a" := "{}0"]);
    assert [op][1..] == [];
    RefsOfApply(st, op);
    hide Refs, Apply, FormatRefs;
    NoRefs();
    RunOnFormat();
    assert Pieces(op)[1..] == [Hole("a", Null)] && Pieces(op)[1..][1..] == [];
    assert SlotRefs(st.formats, Pieces(op)[1..][1..], 1) == [];
    assert Run(st, [op]) == Apply(st, op);
  }

  lemma RunOnFormat()
    ensures FormatRefs("{}0", Dec(1)) == ["10"]
  {
    var f := "{}0";
    assert f[2..] == "0" && "0"[1..] == "" && Digits("") == "";
    assert Digits("0") == "0" && FormatRefs("0", "1") == [];
    assert "{}" <= f && Dec(1) == "1" && "1" + "0" == "10";
    assert FormatRefs(f, "1") == ["1" + Digits(f[2..])] + FormatRefs(f[2..], "1");
  }
}

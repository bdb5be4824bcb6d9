/** The builder decides from the end of its text whether a connective may be added. Here that is
    proved to be the same as keeping a list of operands and a list of links between them. */
module Shape {
  import opened Text
  import opened Drivers
  import opened Builder

  /** Operands and the links after them; a last link may dangle. */
  datatype Chain = Chain(operands: seq<string>, links: seq<string>) {
    predicate Valid() {
      && (|links| == |operands| || |links| + 1 == |operands|)
      && forall i | 0 <= i < |links| :: links[i] == " and " || links[i] == " or "
    }

    /** Nothing to link to: the chain is empty or its last link dangles. */
    predicate Open() {
      |links| == |operands|
    }

    function Linked(link: string): Chain {
      if Open() then this else this.(links := links + [link])
    }

    function With(operand: string): Chain {
      Linked(" and ").(operands := operands + [operand])
    }

    function Text(): string
      requires Valid()
      decreases |operands| + |links|
    {
      if operands == [] then ""
      else if Open() then Chain(operands, links[..|links| - 1]).Text() + links[|links| - 1]
      else Chain(operands[..|operands| - 1], links).Text() + operands[|operands| - 1]
    }
  }

  /** The calls that write conditions. */
  predicate IsCondition(op: Op) {
    op.And? || op.Or? || op.Compare? || op.Between? || op.Like? || op.IsNull? || op.InArray? || op.AllEq?
  }

  function Step(x: Chain, op: Op, operand: string): Chain {
    match op
    case And => x.Linked(" and ")
    case Or => x.Linked(" or ")
    case AllEq(fields) => if fields == [] then x.Linked(" and ") else x.With(operand)
    case InArray(_, _, values) => if values == [] then x else x.With(operand)
    case _ => x.With(operand)
  }

  /** The chain a program builds when `n` arguments are bound before it. */
  function Build(driver: Driver, formats: map<string, string>, x: Chain, n: nat, ops: seq<Op>): Chain
    decreases |ops|
  {
    if ops == [] then x
    else
      var ps := Pieces(ops[0]);
      Build(driver, formats, Step(x, ops[0], Render(driver, formats, ps, n)), n + |Values(ps)|, ops[1..])
  }

  // ---- what the end of a text says ---------------------------------------------------------------

  lemma EndsWithin(a: string, t: string, p: string)
    requires |t| >= |p|
    ensures EndsWith(a + t, p) <==> EndsWith(t, p)
  {
    assert (a + t)[|a + t| - |p|..] == t[|t| - |p|..];
  }

  lemma EndsAcross(a: string, c: char, t: string, p: string)
    requires |t| < |p| && EndsWith(a + [c] + t, p)
    ensures p[|p| - 1 - |t|] == c
  {
    var s := a + [c] + t;
    assert s[|s| - |p|..][|p| - 1 - |t|] == s[|a|] == c;
  }

  predicate Keyword(p: string) {
    p == " where" || p == " and" || p == " or"
  }

  /** A character that is no part of a keyword, no blank and no operator. */
  predicate Guards(c: char) {
    c == '?' || IsDigit(c)
  }

  lemma GuardedKeyword(a: string, c: char, t: string, p: string)
    requires Keyword(p) && Guards(c)
    ensures EndsWith(a + [c] + t, p) <==> EndsWith(t, p)
  {
    if |t| >= |p| {
      EndsWithin(a + [c], t, p);
    } else if EndsWith(a + [c] + t, p) {
      EndsAcross(a, c, t, p);
    }
  }

  lemma SpacedKeyword(a: string, t: string, p: string)
    requires Keyword(p)
    ensures EndsWith(a + " " + t, p) <==> EndsWith(" " + t, p)
  {
    if |t| + 1 >= |p| {
      EndsWithin(a, " " + t, p);
      assert a + " " + t == a + (" " + t);
    } else if EndsWith(a + " " + t, p) {
      EndsAcross(a, ' ', t, p);
    }
  }

  /** After a placeholder only the text that follows it matters. */
  lemma GuardedVerdict(a: string, c: char, post: string)
    requires Guards(c)
    ensures NotAllowAddAndOnEnd(a + [c] + post) <==> TrimEnd(post) != "" && NotAllowAddAndOnEnd(post)
  {
    var t := TrimEnd(post);
    if t == "" {
      GuardedBlank(a, c, post);
      NoKeywordAfterGuard(a, c);
    } else {
      TrimEndConcat(a + [c], post);
      GuardedKeyword(a, c, t, " where");
      GuardedKeyword(a, c, t, " and");
      GuardedKeyword(a, c, t, " or");
    }
  }

  lemma {:induction false} GuardedBlank(a: string, c: char, post: string)
    requires Guards(c) && TrimEnd(post) == ""
    ensures TrimEnd(a + [c] + post) == a + [c]
  {
    if post == "" {
      assert a + [c] + post == a + [c];
    } else {
      var s := a + [c] + post;
      assert s[..|s| - 1] == a + [c] + post[..|post| - 1];
      GuardedBlank(a, c, post[..|post| - 1]);
    }
  }

  lemma NoKeywordAfterGuard(a: string, c: char)
    requires Guards(c)
    ensures !EndsWith(a + [c], " where") && !EndsWith(a + [c], " and") && !EndsWith(a + [c], " or")
  {
    assert a + [c] + "" == a + [c];
    GuardedKeyword(a, c, "", " where");
    GuardedKeyword(a, c, "", " and");
    GuardedKeyword(a, c, "", " or");
  }

  /** After a blank, what precedes the blank does not matter, unless all is blank. */
  lemma SpacedVerdict(a: string, v: string)
    requires !NotAllowAddAndOnEnd(" " + v)
    ensures !NotAllowAddAndOnEnd(a + " " + v)
  {
    var t := TrimEnd(v);
    if t == "" {
      BlankOnly(v);
      assert false;
    } else {
      TrimEndConcat(" ", v);
      TrimEndConcat(a + " ", v);
      SpacedKeyword(a, t, " where");
      SpacedKeyword(a, t, " and");
      SpacedKeyword(a, t, " or");
    }
  }

  lemma {:induction false} BlankOnly(v: string)
    requires TrimEnd(v) == ""
    ensures TrimEnd(" " + v) == ""
  {
    if v == "" {
      assert (" " + v)[..0] == "";
    } else {
      BlankOnly(v[..|v| - 1]);
      assert (" " + v)[..|v|] == " " + v[..|v| - 1];
    }
  }

  lemma ClosingParenthesis(a: string)
    ensures !NotAllowAddAndOnEnd(a + ")")
  {
    var s := a + ")";
    assert TrimEnd(s) == s;
    forall p | Keyword(p) ensures !EndsWith(s, p) {
      if |p| <= |s| {
        assert s[|s| - |p|..][|p| - 1] == ')';
      }
    }
  }

  // ---- operands ----------------------------------------------------------------------------------------

  /** The column's format does not end in a connective or in a character that expects an operand. */
  predicate EndsClosed(formats: map<string, string>, column: string) {
    column in formats ==> !NotAllowAddAndOnEnd(" " + Replace(formats[column], "{}", "?"))
  }

  predicate ClosedOp(formats: map<string, string>, op: Op) {
    match op
    case Compare(_, column, _) => EndsClosed(formats, column)
    case Between(_, column, _, _) => EndsClosed(formats, column)
    case Like(_, column, _) => EndsClosed(formats, column)
    case _ => true
  }

  /** Text that closes whatever it is appended to. */
  ghost predicate Solid(t: string) {
    forall before :: !NotAllowAddAndOnEnd(before + t)
  }

  lemma {:induction false} LastHole(f: string, to: string)
    requires Occurs(f, "{}") > 0
    ensures Replace(f, "{}", to) == Replace(BeforeLast(f, "{}"), "{}", to) + to + AfterLast(f, "{}")
    decreases |f|
  {
    if "{}" <= f {
      var rest := f[2..];
      if Occurs(rest, "{}") == 0 {
        ReplaceNone(rest, "{}", to);
      } else {
        LastHole(rest, to);
        var b := BeforeLast(rest, "{}");
        assert ("{}" + b)[2..] == b;
      }
    } else {
      LastHole(f[1..], to);
      LastHoleStep(f, to);
    }
  }

  lemma LastHoleStep(f: string, to: string)
    requires Occurs(f, "{}") > 0 && !("{}" <= f)
    ensures Replace(BeforeLast(f, "{}"), "{}", to) == [f[0]] + Replace(BeforeLast(f[1..], "{}"), "{}", to)
  {
    var b := BeforeLast(f[1..], "{}");
    var c := [f[0]] + b;
    assert c[1..] == b;
    BeforeIsPrefix(f[1..]);
    assert |c| >= 2 ==> c[1] == b[0] == f[1];
  }

  lemma {:induction false} BeforeIsPrefix(f: string)
    requires Occurs(f, "{}") > 0
    ensures BeforeLast(f, "{}") <= f
    decreases |f|
  {
    if "{}" <= f {
      if Occurs(f[2..], "{}") > 0 {
        BeforeIsPrefix(f[2..]);
        assert f == "{}" + f[2..];
      }
    } else {
      BeforeIsPrefix(f[1..]);
      assert f == [f[0]] + f[1..];
    }
  }

  lemma PlaceholderGuards(driver: Driver, n: nat)
    ensures var ph := StmtConvert(driver, n); Guards(ph[|ph| - 1])
  {
    var num := Dec(n + 1);
    assert num[|num| - 1] in num;
  }

  /** Whether a formatted placeholder closes an operand does not depend on the placeholder. */
  lemma FormatCloses(driver: Driver, formats: map<string, string>, column: string, n: nat)
    ensures EndsClosed(formats, column)
       <==> !NotAllowAddAndOnEnd(" " + Format(formats, column, StmtConvert(driver, n)))
  {
    hide NotAllowAddAndOnEnd, Replace, Occurs, BeforeLast, AfterLast;
    var ph := StmtConvert(driver, n);
    PlaceholderGuards(driver, n);
    if column in formats {
      var f := formats[column];
      if Occurs(f, "{}") == 0 {
        ReplaceNone(f, "{}", "?");
        ReplaceNone(f, "{}", ph);
      } else {
        LastHole(f, "?");
        LastHole(f, ph);
        var post := AfterLast(f, "{}");
        GuardedAfter(" " + Replace(BeforeLast(f, "{}"), "{}", "?"), "?", post, " " + Replace(f, "{}", "?"));
        GuardedAfter(" " + Replace(BeforeLast(f, "{}"), "{}", ph), ph, post, " " + Replace(f, "{}", ph));
      }
    } else {
      GuardedAfter(" ", ph, "", " " + ph);
    }
  }

  lemma GuardedAfter(a: string, ph: string, post: string, whole: string)
    requires ph != "" && Guards(ph[|ph| - 1]) && whole == a + ph + post
    ensures NotAllowAddAndOnEnd(whole) <==> TrimEnd(post) != "" && NotAllowAddAndOnEnd(post)
  {
    hide NotAllowAddAndOnEnd;
    var k := |ph| - 1;
    assert whole == (a + ph[..k]) + [ph[k]] + post;
    GuardedVerdict(a + ph[..k], ph[k], post);
  }

  lemma SolidAfterBlank(a: string, v: string)
    requires !NotAllowAddAndOnEnd(" " + v)
    ensures Solid(a + " " + v)
  {
    hide NotAllowAddAndOnEnd;
    forall before: string ensures !NotAllowAddAndOnEnd(before + (a + " " + v)) {
      SpacedVerdict(before + a, v);
      assert before + (a + " " + v) == (before + a) + " " + v;
    }
  }

  lemma SolidParenthesis(a: string)
    ensures Solid(a + ")")
  {
    hide NotAllowAddAndOnEnd;
    forall before: string ensures !NotAllowAddAndOnEnd(before + (a + ")")) {
      ClosingParenthesis(before + a);
      assert before + (a + ")") == (before + a) + ")";
    }
  }

  lemma RenderBound(driver: Driver, formats: map<string, string>, before: seq<Piece>, text: string,
                    column: string, v: Bson, n: nat)
    requires text != "" && text[|text| - 1] == ' ' && EndsClosed(formats, column)
    ensures Solid(Render(driver, formats, before + [Lit(text), Hole(column, v)], n))
  {
    hide *;
    var k := n + |Values(before)|;
    RenderConcat(driver, formats, before, [Lit(text), Hole(column, v)], n);
    RenderPair(driver, formats, text, column, v, k);
    FormatCloses(driver, formats, column, k);
    var data := Format(formats, column, StmtConvert(driver, k));
    var first, rest := Render(driver, formats, before, n), text[..|text| - 1];
    assert text == rest + " ";
    assert first + (text + data) == (first + rest) + " " + data;
    SolidAfterBlank(first + rest, data);
  }

  lemma RenderClosed(driver: Driver, formats: map<string, string>, before: seq<Piece>, n: nat)
    ensures Solid(Render(driver, formats, before + [Lit(")")], n))
  {
    hide Render, Solid;
    RenderConcat(driver, formats, before, [Lit(")")], n);
    RenderOne(driver, formats, Lit(")"), n + |Values(before)|);
    SolidParenthesis(Render(driver, formats, before, n));
  }

  lemma NullIsClosed()
    ensures !NotAllowAddAndOnEnd(" null")
  {
    assert TrimEnd(" null") == " null";
  }

  lemma RenderNull(driver: Driver, formats: map<string, string>, negated: bool, column: string, n: nat)
    ensures Solid(Render(driver, formats, Pieces(IsNull(negated, column)), n))
  {
    hide Render, Solid, NotAllowAddAndOnEnd;
    RenderOne(driver, formats, Pieces(IsNull(negated, column))[0], n);
    SolidNull(column, negated);
  }

  lemma SolidNull(column: string, negated: bool)
    ensures Solid(column + (if negated then " is not null" else " is null"))
  {
    hide *;
    var verb := if negated then " is not" else " is";
    NullIsClosed();
    assert " " + "null" == " null";
    SolidAfterBlank(column + verb, "null");
    assert verb + " null" == if negated then " is not null" else " is null";
    assert column + verb + " " + "null" == column + (verb + " null");
  }

  predicate HasOperand(op: Op) {
    IsCondition(op) && Pieces(op) != []
  }

  lemma OperandIsSolid(driver: Driver, formats: map<string, string>, op: Op, n: nat)
    requires HasOperand(op) && ClosedOp(formats, op)
    ensures Solid(Render(driver, formats, Pieces(op), n))
  {
    hide Render, Solid, EndsClosed;
    var ps := Pieces(op);
    match op
    case Compare(cmp, column, value) =>
      RenderBound(driver, formats, [], column + Sign(cmp), column, value, n);
      assert [] + ps == ps;
    case Between(negated, column, lo, hi) =>
      RenderBound(driver, formats, ps[..2], " and ", column, hi, n);
      assert ps == ps[..2] + [Lit(" and "), Hole(column, hi)];
    case Like(negated, column, value) =>
      var text := column + (if negated then " not like " else " like ");
      RenderBound(driver, formats, [], text, column, LikePattern(value, negated), n);
      assert [] + ps == ps;
    case IsNull(negated, column) =>
      RenderNull(driver, formats, negated, column, n);
    case InArray(_, _, _) =>
      RenderClosed(driver, formats, ps[..|ps| - 1], n);
      assert ps == ps[..|ps| - 1] + [Lit(")")];
    case AllEq(_) =>
      RenderClosed(driver, formats, ps[..|ps| - 1], n);
      assert ps == ps[..|ps| - 1] + [Lit(")")];
  }

  // ---- the refinement ------------------------------------------------------------------------------------

  ghost predicate AllSolid(x: Chain) {
    forall o | o in x.operands :: Solid(o)
  }

  /** Reading the end of the text tells exactly whether the chain is open. */
  lemma TextTellsOpen(x: Chain)
    requires x.Valid() && AllSolid(x)
    ensures NotAllowAddAndOnEnd(x.Text()) <==> x.Open()
  {
    hide NotAllowAddAndOnEnd;
    if x.operands == [] {
      EmptyIsOpen();
    } else if x.Open() {
      assert Chain(x.operands, x.links[..|x.links| - 1]).Valid();
      LinkOpens(Chain(x.operands, x.links[..|x.links| - 1]).Text());
    } else {
      var o := x.operands[|x.operands| - 1];
      assert o in x.operands && Solid(o);
    }
  }

  lemma EmptyIsOpen()
    ensures NotAllowAddAndOnEnd("")
  {
  }

  lemma LinkedText(x: Chain, link: string)
    requires x.Valid() && AllSolid(x) && (link == " and " || link == " or ")
    ensures x.Linked(link).Valid() && AllSolid(x.Linked(link)) && x.Linked(link).Text() == Link(x.Text(), link)
  {
    hide NotAllowAddAndOnEnd, Solid;
    TextTellsOpen(x);
    if !x.Open() {
      assert (x.links + [link])[..|x.links|] == x.links;
    }
  }

  lemma WithText(x: Chain, operand: string)
    requires x.Valid() && AllSolid(x) && Solid(operand)
    ensures x.With(operand).Valid() && AllSolid(x.With(operand))
    ensures x.With(operand).Text() == Link(x.Text(), " and ") + operand
  {
    hide NotAllowAddAndOnEnd, Solid, Link;
    var y := x.Linked(" and ");
    LinkedText(x, " and ");
    assert (x.operands + [operand])[..|x.operands|] == x.operands;
    assert y.Valid();
  }

  lemma StepText(st: State, x: Chain, op: Op)
    requires IsCondition(op) && ClosedOp(st.formats, op)
    requires x.Valid() && AllSolid(x) && st.sql == x.Text()
    ensures var y := Step(x, op, Render(st.driver, st.formats, Pieces(op), |st.args|));
            y.Valid() && AllSolid(y) && Apply(st, op).sql == y.Text()
  {
    hide NotAllowAddAndOnEnd, Solid, Link, ClosedOp, AllSolid;
    var text := Render(st.driver, st.formats, Pieces(op), |st.args|);
    if HasOperand(op) {
      OperandIsSolid(st.driver, st.formats, op, |st.args|);
      hide Render;
      WithText(x, text);
    } else {
      assert text == "" && Base(op, st.sql) + "" == Base(op, st.sql);
      LinkedText(x, if op.Or? then " or " else " and ");
    }
  }

  /** For every program of conditions and on every database the text is the chain's text: one
      link between operands, never two; at most one link dangles; and a link once written, `or`
      included, stays. */
  lemma {:induction false} TextIsChain(st: State, x: Chain, ops: seq<Op>)
    requires forall op | op in ops :: IsCondition(op) && ClosedOp(st.formats, op)
    requires x.Valid() && AllSolid(x) && st.sql == x.Text()
    ensures var y := Build(st.driver, st.formats, x, |st.args|, ops);
            y.Valid() && AllSolid(y) && Run(st, ops).sql == y.Text()
    decreases |ops|
  {
    hide NotAllowAddAndOnEnd, Solid, Link, ClosedOp, AllSolid, Step, Render, Pieces, Base;
    if ops != [] {
      assert ops[0] in ops;
      StepText(st, x, ops[0]);
      var operand := Render(st.driver, st.formats, Pieces(ops[0]), |st.args|);
      TextIsChain(Apply(st, ops[0]), Step(x, ops[0], operand), ops[1..]);
    }
  }

  /** An `or` before a condition stays an `or`. */
  lemma OrStays(st: State, x: Chain, op: Op)
    requires x.Valid() && AllSolid(x) && st.sql == x.Text() && !x.Open()
    requires HasOperand(op) && ClosedOp(st.formats, op)
    ensures Run(st, [Or, op]).sql == st.sql + " or " + Render(st.driver, st.formats, Pieces(op), |st.args|)
  {
    hide NotAllowAddAndOnEnd, Solid, Render, Pieces;
    var ops := [Or, op];
    var mid := Apply(st, Or);
    assert ops[1..] == [op] && [op][1..] == [];
    TextTellsOpen(x);
    assert mid.args == st.args + Values(Pieces(Or)) && Pieces(Or) == [] by { NoPieces(st); }
    LinkOpens(st.sql);
    assert mid.sql == st.sql + " or " by { NoPieces(st); }
    assert Base(op, mid.sql) == mid.sql;
    assert Run(Apply(mid, op), []) == Apply(mid, op);
    assert Run(mid, [op]) == Run(Apply(mid, op), [op][1..]);
    assert Run(st, ops) == Run(mid, ops[1..]);
  }

  lemma NoPieces(st: State)
    ensures Pieces(Or) == [] && Apply(st, Or) == st.(sql := Link(st.sql, " or "))
  {
    assert Link(st.sql, " or ") + "" == Link(st.sql, " or ") && st.args + [] == st.args;
  }

  // ---- sorting after conditions ----------------------------------------------------------------------------

  lemma ClosedKeepsEnd(t: string, p: string)
    requires Keyword(p) && !NotAllowAddAndOnEnd(t)
    ensures !EndsWith(t, p) && TrimEndMatches(t, p) == t
  {
  }

  lemma StripsOnce(t: string, p: string)
    requires Keyword(p) && !NotAllowAddAndOnEnd(t)
    ensures TrimEndMatches(t + p, p) == t
  {
    ClosedKeepsEnd(t, p);
    assert (t + p)[|t + p| - |p|..] == p && (t + p)[..|t + p| - |p|] == t;
  }

  lemma OtherKeyword(t: string, p: string, q: string)
    requires Keyword(p) && Keyword(q) && p != q
    ensures TrimEndMatches(t + p, q) == t + p
  {
    var s := t + p;
    assert |q| <= |s| ==> s[|s| - |q|..][|q| - 1] == s[|s| - 1] == p[|p| - 1];
  }

  lemma TrimsBlank(t: string, p: string)
    requires p != "" && !IsSpace(p[|p| - 1])
    ensures TrimEnd(t + p + " ") == t + p
  {
    var s := t + p;
    assert s[|s| - 1] == p[|p| - 1];
    assert (s + " ")[..|s|] == s;
  }

  lemma CutDangling(t: string, link: string)
    requires !NotAllowAddAndOnEnd(t) && (link == " and " || link == " or ")
    ensures CutTail(TrimEnd(t + link)) == t
  {
    var p := if link == " and " then " and" else " or";
    assert t + link == (t + p) + " ";
    hide TrimEndMatches, NotAllowAddAndOnEnd, TrimEnd;
    TrimsBlank(t, p);
    OtherKeyword(t, p, " where");
    StripsOnce(t, p);
    if p == " and" {
      ClosedKeepsEnd(t, " or");
    } else {
      OtherKeyword(t, p, " and");
    }
  }

  lemma {:induction false} TrimmedTwice(t: string)
    ensures TrimEnd(TrimEnd(t)) == TrimEnd(t)
  {
  }

  lemma CutClosed(t: string)
    requires !NotAllowAddAndOnEnd(t)
    ensures CutTail(TrimEnd(t)) == TrimEnd(t)
  {
    TrimmedTwice(t);
    var u := TrimEnd(t);
    assert !NotAllowAddAndOnEnd(u);
    hide TrimEndMatches, NotAllowAddAndOnEnd;
    ClosedKeepsEnd(u, " where");
    ClosedKeepsEnd(u, " and");
    ClosedKeepsEnd(u, " or");
  }

  lemma NothingToCut()
    ensures CutTail(TrimEnd("")) == ""
  {
  }

  /** The chain without its dangling link. */
  function Settled(x: Chain): Chain
    requires x.Valid()
  {
    if x.Open() && x.links != [] then x.(links := x.links[..|x.links| - 1]) else x
  }

  /** Sorting after any conditions: exactly a dangling link is cut, or else trailing blanks, and
      the keys follow. */
  lemma SortingCutsDangling(st: State, x: Chain, keys: seq<(string, bool)>)
    requires x.Valid() && AllSolid(x) && st.sql == x.Text() && keys != []
    ensures Settled(x).Valid()
    ensures Apply(st, OrderBy(keys)).sql
         == (if x.Open() then Settled(x).Text() else TrimEnd(x.Text())) + (" order by " + OrderList(keys) + " ")
  {
    hide NotAllowAddAndOnEnd, CutTail, TrimEnd, OrderList, Solid, Render;
    RenderOne(st.driver, st.formats, Pieces(OrderBy(keys))[0], |st.args|);
    TextTellsOpen(x);
    if !x.Open() {
      CutClosed(x.Text());
    } else if x.operands == [] {
      NothingToCut();
    } else {
      var y := Settled(x);
      assert AllSolid(y) && y.Valid() && !y.Open();
      TextTellsOpen(y);
      CutDangling(y.Text(), x.links[|x.links| - 1]);
    }
  }
}

/** What each call of the builder writes and binds, letter by letter. */
module Written {
  import opened Text
  import opened Drivers
  import opened Builder

  // ---- where no connective is added ------------------------------------------------------------------

  const BLANKS := "\t\n\U{0B}\U{0C}\r \U{85}\U{A0}\U{1680}\U{2000}\U{2001}\U{2002}\U{2003}\U{2004}\U{2005}"
                + "\U{2006}\U{2007}\U{2008}\U{2009}\U{200A}\U{2028}\U{2029}\U{202F}\U{205F}\U{3000}"

  predicate AllBlank(s: string) {
    forall c | c in s :: c in BLANKS
  }

  predicate Expecting(w: string) {
    w == "" || EndsWith(w, " where") || EndsWith(w, " and") || EndsWith(w, " or") || w[|w| - 1] in "(,=+-*/%^><&|"
  }

  /** But for blanks the text is empty, or ends in a keyword or a character that asks for more. */
  ghost predicate Awaits(text: string) {
    exists k :: 0 <= k <= |text| && AllBlank(text[k..]) && Expecting(text[..k])
  }

  lemma BlankExactly(c: char)
    ensures IsSpace(c) <==> c in BLANKS
  {
  }

  lemma ExpectingEnd(w: string)
    requires Expecting(w) && w != ""
    ensures !IsSpace(w[|w| - 1])
  {
    var c := w[|w| - 1];
    if EndsWith(w, " where") {
      assert c == w[|w| - 6..][5];
    } else if EndsWith(w, " and") {
      assert c == w[|w| - 4..][3];
    } else if EndsWith(w, " or") {
      assert c == w[|w| - 3..][2];
    } else {
      assert c in "(,=+-*/%^><&|";
    }
  }

  lemma {:induction false} TrimEndExactly(w: string, b: string)
    requires AllBlank(b) && (w != "" ==> !IsSpace(w[|w| - 1]))
    ensures TrimEnd(w + b) == w
  {
    if b == "" {
      assert w + b == w;
    } else {
      hide AllBlank;
      var b', c := b[..|b| - 1], b[|b| - 1];
      assert AllBlank(b') && IsSpace(c) by { BlankSnoc(b); }
      assert (w + b)[..|w + b| - 1] == w + b' && (w + b)[|w + b| - 1] == c;
      TrimEndExactly(w, b');
    }
  }

  lemma BlankSnoc(b: string)
    requires AllBlank(b) && b != ""
    ensures AllBlank(b[..|b| - 1]) && IsSpace(b[|b| - 1])
  {
    BlankExactly(b[|b| - 1]);
  }

  lemma {:induction false} TrimmedRest(s: string)
    ensures AllBlank(s[|TrimEnd(s)|..])
  {
    if s != "" && IsSpace(s[|s| - 1]) {
      var k := |s| - 1;
      TrimmedRest(s[..k]);
      BlankExactly(s[k]);
      assert s[|TrimEnd(s)|..] == s[..k][|TrimEnd(s)|..] + [s[k]];
    }
  }

  /** The guard of `and` and `or`, told without trimming. */
  lemma AwaitsExactly(text: string)
    ensures NotAllowAddAndOnEnd(text) <==> Awaits(text)
  {
    hide AllBlank, EndsWith, IsSpace;
    var w := TrimEnd(text);
    TrimmedRest(text);
    assert text[..|w|] == w;
    GuardIsExpecting(text);
    if Awaits(text) {
      var k :| 0 <= k <= |text| && AllBlank(text[k..]) && Expecting(text[..k]);
      if k > 0 {
        ExpectingEnd(text[..k]);
      }
      TrimEndExactly(text[..k], text[k..]);
      assert text == text[..k] + text[k..];
    }
  }

  lemma GuardIsExpecting(text: string)
    ensures NotAllowAddAndOnEnd(text) <==> Expecting(TrimEnd(text))
  {
    hide EndsWith, IsSpace, TrimEnd;
  }

  /** The text with ` and ` behind it, unless it awaits something already. */
  ghost function Behind(text: string): string {
    if Awaits(text) then text else text + " and "
  }

  lemma LinkIsBehind(text: string)
    ensures Link(text, " and ") == Behind(text)
  {
    hide Awaits;
    AwaitsExactly(text);
  }

  // ---- what stands for an argument ---------------------------------------------------------------------

  /** The k-th argument, counting from one, in the column's format. */
  function Slot(st: State, column: string, k: nat): string {
    var mark := match st.driver case Mysql | Sqlite => "?" case Postgres => "$" + Dec(k) case Mssql => "@p" + Dec(k);
    if column in st.formats then Replace(st.formats[column], "{}", mark) else mark
  }

  lemma SlotIsText(st: State, column: string, v: Bson, n: nat)
    ensures PieceText(st.driver, st.formats, Hole(column, v), n) == Slot(st, column, n + 1)
    ensures Format(st.formats, column, StmtConvert(st.driver, n)) == Slot(st, column, n + 1)
  {
  }

  /** The state with a condition linked to it. */
  ghost function Linked(st: State, text: string, values: seq<Bson>): State {
    st.(sql := Behind(st.sql) + text, args := st.args + values)
  }

  // ---- the comparisons ------------------------------------------------------------------------------------

  lemma PairWritten(st: State, op: Op, text: string, column: string, v: Bson)
    requires Base(op, st.sql) == Link(st.sql, " and ") && Pieces(op) == [Lit(text), Hole(column, v)]
    ensures Apply(st, op) == Linked(st, text + Slot(st, column, |st.args| + 1), [v])
  {
    hide Awaits, Slot, Format, Base, Link, Behind, Pieces;
    PairValues(text, column, v);
    hide Values, Render;
    LinkIsBehind(st.sql);
    RenderPair(st.driver, st.formats, text, column, v, |st.args|);
    SlotIsText(st, column, v, |st.args|);
  }

  lemma PairValues(text: string, column: string, v: Bson)
    ensures Values([Lit(text), Hole(column, v)]) == [v]
  {
    assert [Lit(text), Hole(column, v)] == [Lit(text)] + [Hole(column, v)];
    RenderOne(Mysql, map[], Lit(text), 0);
    RenderOne(Mysql, map[], Hole(column, v), 0);
    hide Values;
    ValuesConcat([Lit(text)], [Hole(column, v)]);
  }

  /** Each comparison writes its own sign between the column and the placeholder. */
  lemma ComparisonWritten(st: State, column: string, v: Bson)
    ensures var slot := Slot(st, column, |st.args| + 1);
            && Apply(st, Compare(Eq, column, v)) == Linked(st, column + " = " + slot, [v])
            && Apply(st, Compare(Ne, column, v)) == Linked(st, column + " <> " + slot, [v])
            && Apply(st, Compare(Gt, column, v)) == Linked(st, column + " > " + slot, [v])
            && Apply(st, Compare(Ge, column, v)) == Linked(st, column + " >= " + slot, [v])
            && Apply(st, Compare(Lt, column, v)) == Linked(st, column + " < " + slot, [v])
            && Apply(st, Compare(Le, column, v)) == Linked(st, column + " <= " + slot, [v])
  {
    hide Apply, Linked, Slot, Link;
    PairWritten(st, Compare(Eq, column, v), column + " = ", column, v);
    PairWritten(st, Compare(Ne, column, v), column + " <> ", column, v);
    PairWritten(st, Compare(Gt, column, v), column + " > ", column, v);
    PairWritten(st, Compare(Ge, column, v), column + " >= ", column, v);
    PairWritten(st, Compare(Lt, column, v), column + " < ", column, v);
    PairWritten(st, Compare(Le, column, v), column + " <= ", column, v);
  }

  /** A sign of SQL, read as a relation on integers. */
  predicate Related(sign: string, x: int, y: int) {
    if sign == "=" then x == y
    else if sign == "<>" then x != y
    else if sign == ">" then x > y
    else if sign == ">=" then x >= y
    else if sign == "<" then x < y
    else sign == "<=" && x <= y
  }

  /** What a caller asks for by the name of the comparison. */
  predicate AskedFor(cmp: Comparison, x: int, y: int) {
    match cmp
    case Eq => !(x < y) && !(y < x)
    case Ne => x < y || y < x
    case Gt => y < x
    case Ge => !(x < y)
    case Lt => x < y
    case Le => !(y < x)
  }

  /** The sign that is written reads as the comparison that was asked for. */
  lemma SignReads(st: State, cmp: Comparison, column: string, v: Bson) returns (sign: string)
    ensures ' ' !in sign
    ensures Apply(st, Compare(cmp, column, v))
         == Linked(st, column + " " + sign + " " + Slot(st, column, |st.args| + 1), [v])
    ensures forall x, y :: Related(sign, x, y) <==> AskedFor(cmp, x, y)
  {
    ComparisonWritten(st, column, v);
    hide Apply, Linked, Slot;
    sign := match cmp case Eq => "=" case Ne => "<>" case Gt => ">" case Ge => ">=" case Lt => "<" case Le => "<=";
    var slot := Slot(st, column, |st.args| + 1);
    var spaced := match cmp
      case Eq => " = " case Ne => " <> " case Gt => " > " case Ge => " >= " case Lt => " < " case Le => " <= ";
    assert spaced == " " + sign + " ";
    assert column + " " + sign + " " + slot == column + spaced + slot;
  }

  lemma BetweenWritten(st: State, column: string, lo: Bson, hi: Bson)
    ensures var a, b := Slot(st, column, |st.args| + 1), Slot(st, column, |st.args| + 2);
            && Apply(st, Between(false, column, lo, hi))
               == Linked(st, column + " between " + a + " and " + b, [lo, hi])
            && Apply(st, Between(true, column, lo, hi))
               == Linked(st, column + " not between " + a + " and " + b, [lo, hi])
  {
    hide Apply, Linked, Slot;
    BetweenIsWritten(st, false, column + " between ", column, lo, hi);
    BetweenIsWritten(st, true, column + " not between ", column, lo, hi);
  }

  lemma BetweenIsWritten(st: State, negated: bool, text: string, column: string, lo: Bson, hi: Bson)
    requires text == column + (if negated then " not between " else " between ")
    ensures Apply(st, Between(negated, column, lo, hi))
         == Linked(st, text + Slot(st, column, |st.args| + 1) + " and " + Slot(st, column, |st.args| + 2), [lo, hi])
  {
    hide Awaits, Slot, Format, Behind, Values, Render, Link;
    var n := |st.args|;
    var p, q := [Lit(text), Hole(column, lo)], [Lit(" and "), Hole(column, hi)];
    LinkIsBehind(st.sql);
    assert Pieces(Between(negated, column, lo, hi)) == p + q;
    PairValues(text, column, lo);
    PairValues(" and ", column, hi);
    ValuesConcat(p, q);
    RenderConcat(st.driver, st.formats, p, q, n);
    RenderPair(st.driver, st.formats, text, column, lo, n);
    RenderPair(st.driver, st.formats, " and ", column, hi, n + 1);
    SlotIsText(st, column, lo, n);
    SlotIsText(st, column, hi, n + 1);
    var a, b := Slot(st, column, n + 1), Slot(st, column, n + 2);
    assert text + a + (" and " + b) == text + a + " and " + b;
  }

  /** What a value shows as. */
  function Shown(v: Bson): string {
    match v case Str(s) => s case Other(shown) => shown case Null => "null"
  }

  /** `like` binds the value with a `%` behind it, `not_like` with one before it too. */
  lemma LikeWritten(st: State, column: string, v: Bson)
    ensures var slot := Slot(st, column, |st.args| + 1);
            && Apply(st, Like(false, column, v)) == Linked(st, column + " like " + slot, [Str(Shown(v) + "%")])
            && Apply(st, Like(true, column, v))
               == Linked(st, column + " not like " + slot, [Str("%" + Shown(v) + "%")])
  {
    hide Apply, Linked, Slot, Link;
    assert "" + Shown(v) + "%" == Shown(v) + "%";
    PairWritten(st, Like(false, column, v), column + " like ", column, Str(Shown(v) + "%"));
    PairWritten(st, Like(true, column, v), column + " not like ", column, Str("%" + Shown(v) + "%"));
  }

  lemma LitWritten(st: State, op: Op, text: string)
    requires Pieces(op) == [Lit(text)]
    ensures Apply(st, op) == st.(sql := Base(op, st.sql) + text)
  {
    hide Base, Pieces;
    RenderOne(st.driver, st.formats, Lit(text), |st.args|);
    assert st.args + [] == st.args;
  }

  lemma ConnectiveWritten(st: State)
    ensures Apply(st, And) == st.(sql := Behind(st.sql))
    ensures Apply(st, Or) == st.(sql := if Awaits(st.sql) then st.sql else st.sql + " or ")
  {
    hide Awaits, NotAllowAddAndOnEnd;
    LinkIsBehind(st.sql);
    AwaitsExactly(st.sql);
    assert st.args + [] == st.args;
    assert Link(st.sql, " and ") + "" == Link(st.sql, " and ") && Link(st.sql, " or ") + "" == Link(st.sql, " or ");
  }

  lemma NullTestWritten(st: State, column: string)
    ensures Apply(st, IsNull(false, column)) == Linked(st, column + " is null", [])
    ensures Apply(st, IsNull(true, column)) == Linked(st, column + " is not null", [])
  {
    LinkIsBehind(st.sql);
    assert st.args + [] == st.args;
    hide Apply, Link, Behind;
    LitWritten(st, IsNull(false, column), column + " is null");
    LitWritten(st, IsNull(true, column), column + " is not null");
  }

  lemma HavingWritten(st: State, condition: string)
    ensures Apply(st, Having(condition)) == Linked(st, "having " + condition, [])
  {
    LinkIsBehind(st.sql);
    assert st.args + [] == st.args;
    hide Apply, Link, Behind;
    LitWritten(st, Having(condition), "having " + condition);
  }

  lemma LimitWritten(st: State, count: nat)
    ensures Apply(st, Limit(count)) == st.(sql := st.sql + " limit " + Dec(count) + " ")
  {
    hide Apply, Dec;
    LitWritten(st, Limit(count), " limit " + Dec(count) + " ");
    assert st.sql + (" limit " + Dec(count) + " ") == st.sql + " limit " + Dec(count) + " ";
  }

  // ---- lists -------------------------------------------------------------------------------------------------

  function Items(st: State, column: string, n: nat): seq<string> {
    seq(n, i requires 0 <= i < n => " " + Slot(st, column, |st.args| + 1 + i) + " ")
  }

  lemma {:induction false} ItemsRendered(st: State, column: string, values: seq<Bson>)
    requires values != []
    ensures Render(st.driver, st.formats, InList(column, values), |st.args|)
         == Separated(Items(st, column, |values|), ",")
  {
    hide Slot, PieceText, Render, Values;
    var k, n := |values| - 1, |st.args|;
    var items := Items(st, column, k);
    var item := [Lit(" "), Hole(column, values[k]), Lit(" ")];
    var text := " " + Slot(st, column, n + 1 + k) + " ";
    assert Items(st, column, k + 1) == items + [text];
    assert k == 0 ==> InList(column, values) == item && items == [];
    assert k > 0 ==> InList(column, values) == InList(column, values[..k]) + [Lit(",")] + item && items != [];
    hide *;
    ItemRendered(st, column, values[k], n + k);
    SeparatedSnoc(items, text, ",");
    if k > 0 {
      var front := InList(column, values[..k]);
      ItemsRendered(st, column, values[..k]);
      InListValues(column, values[..k]);
      CommaRendered(st, front, item, n, ",");
    }
  }

  lemma ItemRendered(st: State, column: string, v: Bson, n: nat)
    ensures Render(st.driver, st.formats, [Lit(" "), Hole(column, v), Lit(" ")], n)
         == " " + Slot(st, column, n + 1) + " "
  {
    hide Render, Slot, Format;
    PairValues(" ", column, v);
    RenderPair(st.driver, st.formats, " ", column, v, n);
    SlotIsText(st, column, v, n);
    RenderConcat(st.driver, st.formats, [Lit(" "), Hole(column, v)], [Lit(" ")], n);
    LitRendered(st, " ", n + 1);
    assert [Lit(" "), Hole(column, v)] + [Lit(" ")] == [Lit(" "), Hole(column, v), Lit(" ")];
  }

  lemma LitRendered(st: State, text: string, n: nat)
    ensures Render(st.driver, st.formats, [Lit(text)], n) == text && Values([Lit(text)]) == []
  {
    RenderOne(st.driver, st.formats, Lit(text), n);
  }

  lemma CommaRendered(st: State, front: seq<Piece>, item: seq<Piece>, n: nat, sep: string)
    ensures Render(st.driver, st.formats, front + [Lit(sep)] + item, n)
         == Render(st.driver, st.formats, front, n) + sep + Render(st.driver, st.formats, item, n + |Values(front)|)
    ensures Values(front + [Lit(sep)] + item) == Values(front) + Values(item)
  {
    hide Render, Values;
    var m := n + |Values(front)|;
    LitRendered(st, sep, m);
    RenderConcat(st.driver, st.formats, front + [Lit(sep)], item, n);
    RenderConcat(st.driver, st.formats, front, [Lit(sep)], n);
    ValuesConcat(front + [Lit(sep)], item);
    ValuesConcat(front, [Lit(sep)]);
    assert Values(front) + [] == Values(front);
  }

  lemma Enclosed(st: State, open: string, inner: seq<Piece>, close: string, n: nat)
    ensures Render(st.driver, st.formats, [Lit(open)] + inner + [Lit(close)], n)
         == open + Render(st.driver, st.formats, inner, n) + close
    ensures Values([Lit(open)] + inner + [Lit(close)]) == Values(inner)
  {
    hide Render, Values;
    LitRendered(st, open, n);
    LitRendered(st, close, n + |Values(inner)|);
    RenderConcat(st.driver, st.formats, [Lit(open)] + inner, [Lit(close)], n);
    RenderConcat(st.driver, st.formats, [Lit(open)], inner, n);
    ValuesConcat([Lit(open)] + inner, [Lit(close)]);
    ValuesConcat([Lit(open)], inner);
    assert [] + Values(inner) + [] == Values(inner);
  }

  /** `in` and `not in` write one placeholder for each value; without values they do nothing. */
  lemma InArrayWritten(st: State, column: string, values: seq<Bson>)
    ensures var list := Separated(Items(st, column, |values|), ",");
            && Apply(st, InArray(false, column, values))
               == (if values == [] then st else Linked(st, column + " in (" + list + ")", values))
            && Apply(st, InArray(true, column, values))
               == (if values == [] then st else Linked(st, column + " not in (" + list + ")", values))
  {
    hide Apply, Linked, Items;
    InArrayIsWritten(st, false, column, values);
    InArrayIsWritten(st, true, column, values);
  }

  lemma InArrayIsWritten(st: State, negated: bool, column: string, values: seq<Bson>)
    ensures var open := column + (if negated then " not in (" else " in (");
            Apply(st, InArray(negated, column, values))
            == if values == [] then st else Linked(st, open + Separated(Items(st, column, |values|), ",") + ")", values)
  {
    hide Awaits, Behind, Link, Items, InList, Separated;
    if values == [] {
      assert st.sql + "" == st.sql && st.args + [] == st.args;
    } else {
      hide Render, Values;
      LinkIsBehind(st.sql);
      ItemsRendered(st, column, values);
      InListValues(column, values);
      Enclosed(st, column + (if negated then " not in (" else " in ("), InList(column, values), ")", |st.args|);
    }
  }

  function Equations(st: State, fields: seq<(string, Bson)>): seq<string> {
    seq(|fields|, i requires 0 <= i < |fields| => fields[i].0 + " = " + Slot(st, fields[i].0, |st.args| + 1 + i))
  }

  function FieldValues(fields: seq<(string, Bson)>): seq<Bson> {
    seq(|fields|, i requires 0 <= i < |fields| => fields[i].1)
  }

  lemma EquationsSnoc(st: State, fields: seq<(string, Bson)>)
    requires fields != []
    ensures var k := |fields| - 1;
            && |Equations(st, fields[..k])| == k && |FieldValues(fields[..k])| == k
            && Equations(st, fields)
               == Equations(st, fields[..k]) + [fields[k].0 + " = " + Slot(st, fields[k].0, |st.args| + 1 + k)]
            && FieldValues(fields) == FieldValues(fields[..k]) + [fields[k].1]
  {
    hide Slot;
  }

  lemma EqListSnoc(fields: seq<(string, Bson)>)
    requires fields != []
    ensures var k := |fields| - 1;
            var pair := [Lit(fields[k].0 + " = "), Hole(fields[k].0, fields[k].1)];
            EqList(fields) == if k == 0 then pair else EqList(fields[..k]) + [Lit(" and ")] + pair
  {
  }

  lemma EquationRendered(st: State, name: string, v: Bson, n: nat)
    ensures var pair := [Lit(name + " = "), Hole(name, v)];
            Render(st.driver, st.formats, pair, n) == name + " = " + Slot(st, name, n + 1) && Values(pair) == [v]
  {
    hide *;
    RenderPair(st.driver, st.formats, name + " = ", name, v, n);
    SlotIsText(st, name, v, n);
    PairValues(name + " = ", name, v);
  }

  lemma {:induction false} EquationsRendered(st: State, fields: seq<(string, Bson)>)
    requires fields != []
    ensures Render(st.driver, st.formats, EqList(fields), |st.args|) == Separated(Equations(st, fields), " and ")
    ensures Values(EqList(fields)) == FieldValues(fields)
  {
    hide *;
    var k, n := |fields| - 1, |st.args|;
    var front, name, v := fields[..k], fields[k].0, fields[k].1;
    EquationsSnoc(st, fields);
    EqListSnoc(fields);
    EquationRendered(st, name, v, n + k);
    SeparatedSnoc(Equations(st, front), name + " = " + Slot(st, name, n + k + 1), " and ");
    if k > 0 {
      EquationsRendered(st, front);
      CommaRendered(st, EqList(front), [Lit(name + " = "), Hole(name, v)], n, " and ");
    }
  }

  /** `all_eq` writes its fields in order, in one pair of parentheses. */
  lemma AllEqWritten(st: State, fields: seq<(string, Bson)>)
    ensures Apply(st, AllEq(fields))
         == if fields == [] then Linked(st, "", [])
            else Linked(st, "(" + Separated(Equations(st, fields), " and ") + ")", FieldValues(fields))
  {
    hide Awaits, Behind, Link, Equations, FieldValues, EqList, Separated;
    LinkIsBehind(st.sql);
    if fields != [] {
      hide Render, Values;
      EquationsRendered(st, fields);
      Enclosed(st, "(", EqList(fields), ")", |st.args|);
    }
  }

  // ---- sorting and grouping ------------------------------------------------------------------------------------

  function Times(word: string, n: nat): string {
    if n == 0 then "" else Times(word, n - 1) + word
  }

  lemma {:induction false} StripsAll(s: string, p: string) returns (n: nat)
    requires p != ""
    ensures s == TrimEndMatches(s, p) + Times(p, n) && !EndsWith(TrimEndMatches(s, p), p)
    decreases |s|
  {
    hide Times;
    n := 0;
    TimesNone(p);
    if EndsWith(s, p) {
      var s' := s[..|s| - |p|];
      assert s == s' + p && TrimEndMatches(s, p) == TrimEndMatches(s', p);
      hide TrimEndMatches, EndsWith;
      n := StripsAll(s', p);
      TimesMore(TrimEndMatches(s, p), p, n);
      n := n + 1;
    }
  }

  lemma TimesNone(p: string)
    ensures Times(p, 0) == ""
  {
  }

  lemma TimesMore(a: string, p: string, n: nat)
    ensures a + Times(p, n) + p == a + Times(p, n + 1)
  {
  }

  /** What is left of a text: at its end no `or`, before that no `and`, before that no `where`. */
  predicate CutTo(trimmed: string, kept: string, ors: nat, ands: nat, wheres: nat) {
    && trimmed == kept + Times(" or", ors) + Times(" and", ands) + Times(" where", wheres)
    && !EndsWith(kept, " or") && !EndsWith(kept + Times(" or", ors), " and")
    && !EndsWith(kept + Times(" or", ors) + Times(" and", ands), " where")
  }

  lemma CutTailExactly(s: string) returns (ors: nat, ands: nat, wheres: nat)
    ensures CutTo(s, CutTail(s), ors, ands, wheres)
  {
    var w := TrimEndMatches(s, " where");
    var a := TrimEndMatches(w, " and");
    wheres := StripsAll(s, " where");
    ands := StripsAll(w, " and");
    ors := StripsAll(a, " or");
  }

  lemma {:induction false} TrimStartExactly(s: string) returns (blank: string)
    ensures s == blank + TrimStart(s) && AllBlank(blank)
    ensures TrimStart(s) == "" || TrimStart(s)[0] !in BLANKS
  {
    blank := "";
    if s != "" {
      BlankExactly(s[0]);
      if IsSpace(s[0]) {
        var rest := TrimStartExactly(s[1..]);
        blank := [s[0]] + rest;
        assert s == [s[0]] + s[1..];
      }
    }
  }

  lemma TrimEndSplits(s: string) returns (blank: string)
    ensures s == TrimEnd(s) + blank && AllBlank(blank)
    ensures TrimEnd(s) == "" || TrimEnd(s)[|TrimEnd(s)| - 1] !in BLANKS
  {
    hide AllBlank, IsSpace;
    var t := TrimEnd(s);
    blank := s[|t|..];
    TrimmedRest(s);
    if t != "" {
      BlankExactly(t[|t| - 1]);
    }
  }

  function Keys(keys: seq<(string, bool)>): seq<string> {
    seq(|keys|, i requires 0 <= i < |keys| => keys[i].0 + if keys[i].1 then " asc" else " desc")
  }

  lemma {:induction false} KeysListed(keys: seq<(string, bool)>)
    requires keys != []
    ensures OrderList(keys) == Separated(Keys(keys), ",")
  {
    var k := |keys| - 1;
    assert Keys(keys) == Keys(keys[..k]) + [KeyText(keys[k])];
    SeparatedSnoc(Keys(keys[..k]), KeyText(keys[k]), ",");
    hide KeyText;
    if k > 0 {
      KeysListed(keys[..k]);
    } else {
      assert "" + KeyText(keys[0]) == KeyText(keys[0]);
    }
  }

  lemma {:induction false} ColumnsListed(columns: seq<string>)
    requires columns != []
    ensures ColumnList(columns) == Separated(columns, ",")
  {
    var k := |columns| - 1;
    assert columns == columns[..k] + [columns[k]];
    SeparatedSnoc(columns[..k], columns[k], ",");
    if k > 0 {
      ColumnsListed(columns[..k]);
    } else {
      assert "" + columns[0] == columns[0];
    }
  }

  /** Sorting cuts blanks off the end, then `where`s, `and`s and `or`s, and writes the keys. */
  lemma OrderByWritten(st: State, keys: seq<(string, bool)>)
    returns (kept: string, ors: nat, ands: nat, wheres: nat, blank: string)
    requires keys != []
    ensures var trimmed := kept + Times(" or", ors) + Times(" and", ands) + Times(" where", wheres);
            AllBlank(blank) && st.sql == trimmed + blank
            && (trimmed == "" || trimmed[|trimmed| - 1] !in BLANKS) && CutTo(trimmed, kept, ors, ands, wheres)
    ensures Apply(st, OrderBy(keys)) == st.(sql := kept + " order by " + Separated(Keys(keys), ",") + " ")
  {
    hide AllBlank, Apply, CutTail, TrimEnd, Keys, Separated, OrderList, Times;
    blank := TrimEndSplits(st.sql);
    ors, ands, wheres := CutTailExactly(TrimEnd(st.sql));
    kept := CutTail(TrimEnd(st.sql));
    KeysListed(keys);
    var text := " order by " + OrderList(keys) + " ";
    LitWritten(st, OrderBy(keys), text);
    assert kept + text == kept + " order by " + OrderList(keys) + " ";
  }

  /** Grouping cuts the same, and blanks off the front. */
  lemma GroupByWritten(st: State, columns: seq<string>)
    returns (front: string, kept: string, ors: nat, ands: nat, wheres: nat, blank: string)
    requires columns != []
    ensures var trimmed := kept + Times(" or", ors) + Times(" and", ands) + Times(" where", wheres);
            && AllBlank(front) && AllBlank(blank) && st.sql == front + trimmed + blank
            && (trimmed + blank == "" || (trimmed + blank)[0] !in BLANKS)
            && (trimmed == "" || trimmed[|trimmed| - 1] !in BLANKS) && CutTo(trimmed, kept, ors, ands, wheres)
    ensures Apply(st, GroupBy(columns)) == st.(sql := kept + " group by " + Separated(columns, ",") + " ")
  {
    hide AllBlank, Apply, CutTail, TrimEnd, TrimStart, Separated, ColumnList, Times;
    front := TrimStartExactly(st.sql);
    blank := TrimEndSplits(TrimStart(st.sql));
    ors, ands, wheres := CutTailExactly(Trim(st.sql));
    kept := CutTail(Trim(st.sql));
    ColumnsListed(columns);
    var text := " group by " + ColumnList(columns) + " ";
    LitWritten(st, GroupBy(columns), text);
    assert kept + text == kept + " group by " + ColumnList(columns) + " ";
    assert front + Trim(st.sql) + blank == front + (Trim(st.sql) + blank);
  }

  lemma NothingToSort(st: State)
    ensures Apply(st, OrderBy([])) == st && Apply(st, GroupBy([])) == st
  {
    assert st.sql + "" == st.sql && st.args + [] == st.args;
  }
}

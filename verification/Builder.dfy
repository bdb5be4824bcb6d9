/** The SQL builder: what every call does to the text and the arguments. */
module Builder {
  import opened Text
  import opened Drivers

  /** An argument value. Only its kind "string or not" and its display text matter. */
  datatype Bson = Null | Str(s: string) | Other(shown: string)

  /** The pattern that `like` and `not_like` bind. */
  function LikePattern(v: Bson, negated: bool): Bson {
    var shown := match v case Null => "null" case Str(s) => s case Other(t) => t;
    Str((if negated then "%" else "") + shown + "%")
  }

  datatype Comparison = Eq | Ne | Gt | Ge | Lt | Le

  function Sign(c: Comparison): string {
    match c
    case Eq => " = "
    case Ne => " <> "
    case Gt => " > "
    case Ge => " >= "
    case Lt => " < "
    case Le => " <= "
  }

  /** One call on the builder. A null, non-object or empty argument of `all_eq` is `AllEq([])`. */
  datatype Op =
    | And
    | Or
    | Compare(cmp: Comparison, column: string, value: Bson)
    | Between(negated: bool, column: string, lo: Bson, hi: Bson)
    | Like(negated: bool, column: string, value: Bson)
    | IsNull(negated: bool, column: string)
    | InArray(negated: bool, column: string, values: seq<Bson>)
    | AllEq(fields: seq<(string, Bson)>)
    | OrderBy(keys: seq<(string, bool)>)
    | GroupBy(columns: seq<string>)
    | Limit(count: nat)
    | Having(condition: string)

  datatype State = State(driver: Driver, formats: map<string, string>, sql: string, args: seq<Bson>)

  // ---- the end of the text --------------------------------------------------------------

  /** After one of these characters no connective is added. */
  predicate ExpectsOperand(c: char) {
    || c == '(' || c == ',' || c == '=' || c == '+' || c == '-' || c == '*' || c == '/'
    || c == '%' || c == '^' || c == '>' || c == '<' || c == '&' || c == '|'
  }

  predicate NotAllowAddAndOnEnd(text: string) {
    var sql := TrimEnd(text);
    || sql == ""
    || EndsWith(sql, " where") || EndsWith(sql, " and") || EndsWith(sql, " or")
    || ExpectsOperand(sql[|sql| - 1])
  }

  function Link(sql: string, connective: string): string {
    if NotAllowAddAndOnEnd(sql) then sql else sql + connective
  }

  lemma LinkOpens(a: string)
    ensures NotAllowAddAndOnEnd(a + " and ") && NotAllowAddAndOnEnd(a + " or ")
  {
    assert (a + " and ")[..|a| + 4] == a + " and";
    assert TrimEnd(a + " and ") == TrimEnd(a + " and") == a + " and";
    assert EndsWith(a + " and", " and");
    assert (a + " or ")[..|a| + 3] == a + " or";
    assert TrimEnd(a + " or ") == TrimEnd(a + " or") == a + " or";
    assert EndsWith(a + " or", " or");
  }

  /** What `order_by` and `group_by` cut off the end of the text. */
  function CutTail(sql: string): string {
    TrimEndMatches(TrimEndMatches(TrimEndMatches(sql, " where"), " and"), " or")
  }

  /** The text an operation leaves before it appends its own. */
  function Base(op: Op, sql: string): string {
    match op
    case And => Link(sql, " and ")
    case Or => Link(sql, " or ")
    case InArray(_, _, values) => if values == [] then sql else Link(sql, " and ")
    case OrderBy(keys) => if keys == [] then sql else CutTail(TrimEnd(sql))
    case GroupBy(columns) => if columns == [] then sql else CutTail(Trim(sql))
    case Limit(_) => sql
    case _ => Link(sql, " and ")
  }

  // ---- the text an operation appends -----------------------------------------------------

  /** Appended text, with a hole for every bound argument. */
  datatype Piece = Lit(text: string) | Hole(column: string, value: Bson)

  function InList(column: string, values: seq<Bson>): seq<Piece>
    requires values != []
  {
    var k := |values| - 1;
    (if k == 0 then [] else InList(column, values[..k]) + [Lit(",")])
    + [Lit(" "), Hole(column, values[k]), Lit(" ")]
  }

  function EqList(fields: seq<(string, Bson)>): seq<Piece>
    requires fields != []
  {
    var k := |fields| - 1;
    (if k == 0 then [] else EqList(fields[..k]) + [Lit(" and ")])
    + [Lit(fields[k].0 + " = "), Hole(fields[k].0, fields[k].1)]
  }

  function KeyText(key: (string, bool)): string {
    key.0 + (if key.1 then " asc" else " desc")
  }

  function OrderList(keys: seq<(string, bool)>): string
    requires keys != []
  {
    var k := |keys| - 1;
    (if k == 0 then "" else OrderList(keys[..k]) + ",")
    + KeyText(keys[k])
  }

  function ColumnList(columns: seq<string>): string
    requires columns != []
  {
    var k := |columns| - 1;
    (if k == 0 then "" else ColumnList(columns[..k]) + ",") + columns[k]
  }

  function Pieces(op: Op): seq<Piece> {
    match op
    case And | Or => []
    case Compare(cmp, column, value) => [Lit(column + Sign(cmp)), Hole(column, value)]
    case Between(negated, column, lo, hi) =>
      [Lit(column + (if negated then " not between " else " between ")), Hole(column, lo),
       Lit(" and "), Hole(column, hi)]
    case Like(negated, column, value) =>
      [Lit(column + (if negated then " not like " else " like ")), Hole(column, LikePattern(value, negated))]
    case IsNull(negated, column) => [Lit(column + (if negated then " is not null" else " is null"))]
    case InArray(negated, column, values) =>
      if values == [] then []
      else [Lit(column + (if negated then " not in (" else " in ("))] + InList(column, values) + [Lit(")")]
    case AllEq(fields) => if fields == [] then [] else [Lit("(")] + EqList(fields) + [Lit(")")]
    case OrderBy(keys) => if keys == [] then [] else [Lit(" order by " + OrderList(keys) + " ")]
    case GroupBy(columns) => if columns == [] then [] else [Lit(" group by " + ColumnList(columns) + " ")]
    case Limit(count) => [Lit(" limit " + Dec(count) + " ")]
    case Having(condition) => [Lit("having " + condition)]
  }

  function Bound(p: Piece): seq<Bson> {
    match p case Lit(_) => [] case Hole(_, v) => [v]
  }

  function Values(ps: seq<Piece>): seq<Bson> {
    if ps == [] then [] else Bound(ps[0]) + Values(ps[1..])
  }

  /** `do_format_column`. */
  function Format(formats: map<string, string>, column: string, data: string): string {
    if column in formats then Replace(formats[column], "{}", data) else data
  }

  function PieceText(driver: Driver, formats: map<string, string>, p: Piece, n: nat): string {
    match p
    case Lit(text) => text
    case Hole(column, _) => Format(formats, column, StmtConvert(driver, n))
  }

  /** The text of the pieces when `n` arguments are bound before them. */
  function Render(driver: Driver, formats: map<string, string>, ps: seq<Piece>, n: nat): string {
    if ps == [] then ""
    else PieceText(driver, formats, ps[0], n) + Render(driver, formats, ps[1..], n + |Bound(ps[0])|)
  }

  function Append(st: State, base: string, ps: seq<Piece>): State {
    st.(sql := base + Render(st.driver, st.formats, ps, |st.args|), args := st.args + Values(ps))
  }

  function Apply(st: State, op: Op): State {
    Append(st, Base(op, st.sql), Pieces(op))
  }

  function Run(st: State, ops: seq<Op>): State
    decreases |ops|
  {
    if ops == [] then st else Run(Apply(st, ops[0]), ops[1..])
  }

  /** All that a program appends. */
  function AllPieces(ops: seq<Op>): seq<Piece> {
    if ops == [] then [] else Pieces(ops[0]) + AllPieces(ops[1..])
  }

  function Empty(driver: Driver, formats: map<string, string>): State {
    State(driver, formats, "", [])
  }

  lemma {:induction false} RunConcat(st: State, a: seq<Op>, b: seq<Op>)
    ensures Run(st, a + b) == Run(Run(st, a), b)
    decreases |a|
  {
    if a == [] {
      assert a + b == b;
    } else {
      assert (a + b)[1..] == a[1..] + b;
      RunConcat(Apply(st, a[0]), a[1..], b);
    }
  }

  lemma {:induction false} RunFrame(st: State, ops: seq<Op>)
    ensures Run(st, ops).driver == st.driver && Run(st, ops).formats == st.formats
    decreases |ops|
  {
    if ops != [] {
      RunFrame(Apply(st, ops[0]), ops[1..]);
    }
  }

  lemma {:induction false} ValuesConcat(a: seq<Piece>, b: seq<Piece>)
    ensures Values(a + b) == Values(a) + Values(b)
  {
    if a == [] {
      assert a + b == b;
    } else {
      assert (a + b)[1..] == a[1..] + b;
      ValuesConcat(a[1..], b);
    }
  }

  lemma ApplyFrame(st: State, op: Op)
    ensures var end := Apply(st, op);
            end.driver == st.driver && end.formats == st.formats && end.args == st.args + Values(Pieces(op))
  {
  }

  lemma {:induction false} RunArgs(st: State, ops: seq<Op>)
    ensures Run(st, ops).args == st.args + Values(AllPieces(ops))
    decreases |ops|
  {
    hide Apply, Pieces, Values;
    if ops == [] {
      assert st.args + Values([]) == st.args by { NoValues(); }
    } else {
      ApplyFrame(st, ops[0]);
      RunArgs(Apply(st, ops[0]), ops[1..]);
      ValuesConcat(Pieces(ops[0]), AllPieces(ops[1..]));
      var a, b := Values(Pieces(ops[0])), Values(AllPieces(ops[1..]));
      assert st.args + a + b == st.args + (a + b);
    }
  }

  lemma NoValues()
    ensures Values([]) == []
  {
  }

  lemma OneCall(st: State, op: Op)
    ensures Run(st, [op]) == Apply(st, op)
  {
    assert [op][1..] == [];
  }

  lemma RenderStep(driver: Driver, formats: map<string, string>, ps: seq<Piece>, n: nat)
    requires ps != []
    ensures Render(driver, formats, ps, n)
         == PieceText(driver, formats, ps[0], n) + Render(driver, formats, ps[1..], n + |Bound(ps[0])|)
    ensures Values(ps) == Bound(ps[0]) + Values(ps[1..])
  {
    hide PieceText, Bound;
  }

  lemma NothingRendered(driver: Driver, formats: map<string, string>, n: nat)
    ensures Render(driver, formats, [], n) == "" && Values([]) == []
  {
  }

  lemma {:induction false} RenderConcat(driver: Driver, formats: map<string, string>, a: seq<Piece>,
                                        b: seq<Piece>, n: nat)
    ensures Render(driver, formats, a + b, n)
         == Render(driver, formats, a, n) + Render(driver, formats, b, n + |Values(a)|)
  {
    hide PieceText, Bound, Render, Values;
    if a == [] {
      NothingRendered(driver, formats, n);
      assert a + b == b;
    } else {
      RenderStep(driver, formats, a, n);
      RenderStep(driver, formats, a + b, n);
      var text, next := PieceText(driver, formats, a[0], n), n + |Bound(a[0])|;
      assert (a + b)[1..] == a[1..] + b;
      RenderConcat(driver, formats, a[1..], b, next);
      var x, y := Render(driver, formats, a[1..], next), Render(driver, formats, b, n + |Values(a)|);
      assert text + (x + y) == text + x + y;
    }
  }

  lemma AppendConcat(st: State, base: string, a: seq<Piece>, b: seq<Piece>)
    ensures Append(st, base, a + b) == Append(Append(st, base, a), Append(st, base, a).sql, b)
  {
    hide Render, Values;
    RenderConcat(st.driver, st.formats, a, b, |st.args|);
    ValuesConcat(a, b);
    var x, y := Render(st.driver, st.formats, a, |st.args|), Render(st.driver, st.formats, b, |st.args| + |Values(a)|);
    assert base + (x + y) == base + x + y;
    assert st.args + (Values(a) + Values(b)) == st.args + Values(a) + Values(b);
  }

  lemma RenderOne(driver: Driver, formats: map<string, string>, p: Piece, n: nat)
    ensures Render(driver, formats, [p], n) == PieceText(driver, formats, p, n)
    ensures Values([p]) == Bound(p)
  {
    assert [p][1..] == [];
    assert Render(driver, formats, [p][1..], n + |Bound(p)|) == "";
    assert PieceText(driver, formats, p, n) + "" == PieceText(driver, formats, p, n);
    assert Bound(p) + [] == Bound(p);
  }

  lemma RenderPair(driver: Driver, formats: map<string, string>, text: string, column: string, v: Bson, n: nat)
    ensures Render(driver, formats, [Lit(text), Hole(column, v)], n)
         == text + Format(formats, column, StmtConvert(driver, n))
  {
    hide Render, Format;
    RenderConcat(driver, formats, [Lit(text)], [Hole(column, v)], n);
    RenderOne(driver, formats, Lit(text), n);
    RenderOne(driver, formats, Hole(column, v), n);
    assert [Lit(text)] + [Hole(column, v)] == [Lit(text), Hole(column, v)];
  }

  lemma RunSnoc(st: State, ops: seq<Op>, op: Op)
    ensures Run(st, ops + [op]) == Apply(Run(st, ops), op)
  {
    RunConcat(st, ops, [op]);
    assert [op][1..] == [];
  }

  lemma ItemHoles(column: string, value: Bson)
    ensures Values([Lit(" "), Hole(column, value), Lit(" ")]) == [value]
  {
    var blank, hole := Lit(" "), Hole(column, value);
    RenderOne(Mysql, map[], blank, 0);
    RenderOne(Mysql, map[], hole, 0);
    hide Values;
    ValuesConcat([blank], [hole]);
    ValuesConcat([blank, hole], [blank]);
    assert [blank] + [hole] == [blank, hole] && [blank, hole] + [blank] == [blank, hole, blank];
  }

  lemma {:induction false} InListValues(column: string, values: seq<Bson>)
    requires values != []
    ensures Values(InList(column, values)) == values
  {
    hide Render, PieceText, Values;
    var k := |values| - 1;
    var item := [Lit(" "), Hole(column, values[k]), Lit(" ")];
    ItemHoles(column, values[k]);
    if k == 0 {
      assert InList(column, values) == item;
    } else {
      var front := InList(column, values[..k]);
      InListValues(column, values[..k]);
      ValuesConcat(front + [Lit(",")], item);
      ValuesConcat(front, [Lit(",")]);
      RenderOne(Mysql, map[], Lit(","), 0);
      assert values[..k] + [] + [values[k]] == values;
    }
  }
}

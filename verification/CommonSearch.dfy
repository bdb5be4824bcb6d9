/** `CommonSearch`: a list of search fields compiled to builder calls. */
module CommonSearch {
  import opened Text
  import opened Drivers
  import opened Builder
  import opened Shape
  import W = DynamicWrapper

  datatype SearchField = SearchField(field: Option<string>, operator: Option<string>,
                                     fieldType: Option<string>, val: Option<string>)

  /** The library parsers the conversion calls. */
  datatype Parsers = Parsers(integer: string -> Option<Bson>, float: string -> Option<Bson>,
                             isDateTime: string -> bool, isDate: string -> bool)

  /** Lower case, as far as equality with an ASCII word can tell: `A-Z` and the Kelvin sign are
      the characters whose lower case is an ASCII letter. */
  function Lower(s: string): string {
    seq(|s|, i requires 0 <= i < |s| =>
      if 'A' <= s[i] <= 'Z' then (s[i] as int + 32) as char else if s[i] == '\U{212A}' then 'k' else s[i])
  }

  function OrEmpty(s: Option<string>): string {
    match s case Some(t) => t case None => ""
  }

  /** `to_value_inner`; a value that fails to parse is bound as null. */
  function ToValueInner(parsers: Parsers, fieldType: Option<string>, text: string): Bson {
    match fieldType
    case None => Str(text)
    case Some(t) =>
      var kind := Lower(t);
      if kind == "integer" then (match parsers.integer(text) case Some(v) => v case None => Null)
      else if kind == "float" then (match parsers.float(text) case Some(v) => v case None => Null)
      else if kind == "boolean" then Other(if Lower(text) == "true" then "true" else "false")
      else if kind == "datetime" then (if parsers.isDateTime(text) then Str(text) else Null)
      else if kind == "date" then (if parsers.isDate(text) then Str(text) else Null)
      else Str(text)
  }

  function ToValue(parsers: Parsers, f: SearchField): Bson {
    ToValueInner(parsers, f.fieldType, OrEmpty(f.val))
  }

  function SplitValue(parsers: Parsers, f: SearchField): (list: seq<Bson>)
    ensures |list| == Count(OrEmpty(f.val), ',') + 1
  {
    var parts := Split(OrEmpty(f.val), ',');
    seq(|parts|, i requires 0 <= i < |parts| => ToValueInner(parsers, f.fieldType, parts[i]))
  }

  /** What one field becomes: nothing, one call, or an index out of bounds. */
  datatype Compiled = Skip | Emit(op: Op) | Panic

  /** The operators that are recognised; note that `egt` is strict. */
  datatype Operator =
    | Comparing(cmp: Comparison) | Liking(negated: bool) | Containing(negated: bool)
    | Ranging(negated: bool) | Missing(negated: bool) | Unknown

  function OperatorOf(word: string): Operator {
    if word == "eq" then Comparing(Eq)
    else if word == "ne" then Comparing(Ne)
    else if word == "gt" || word == "egt" then Comparing(Gt)
    else if word == "lt" then Comparing(Lt)
    else if word == "elt" then Comparing(Le)
    else if word == "like" then Liking(false)
    else if word == "not like" then Liking(true)
    else if word == "in" then Containing(false)
    else if word == "not in" then Containing(true)
    else if word == "range" then Ranging(false)
    else if word == "not range" then Ranging(true)
    else if word == "null" then Missing(false)
    else if word == "not null" then Missing(true)
    else Unknown
  }

  function OperatorIn(f: SearchField): Operator {
    match f.operator case None => Unknown case Some(t) => OperatorOf(Lower(t))
  }

  function Compile(parsers: Parsers, f: SearchField): Compiled {
    var column := OrEmpty(f.field);
    match OperatorIn(f)
    case Comparing(cmp) => Emit(Compare(cmp, column, ToValue(parsers, f)))
    case Liking(negated) => Emit(Like(negated, column, ToValue(parsers, f)))
    case Containing(negated) => Emit(InArray(negated, column, SplitValue(parsers, f)))
    case Ranging(negated) =>
      var list := SplitValue(parsers, f);
      if |list| < 2 then Panic else Emit(Between(negated, column, list[0], list[1]))
    case Missing(negated) => Emit(IsNull(negated, column))
    case Unknown => Skip
  }

  predicate Panics(parsers: Parsers, search: seq<SearchField>) {
    exists i :: 0 <= i < |search| && Compile(parsers, search[i]).Panic?
  }

  /** The condition calls of the list, in order. */
  function Conditions(parsers: Parsers, search: seq<SearchField>): seq<Op> {
    if search == [] then []
    else
      var rest := Conditions(parsers, search[1..]);
      match Compile(parsers, search[0]) case Emit(op) => [op] + rest case _ => rest
  }

  /** Every condition call comes after a call of `and`. */
  function Calls(conditions: seq<Op>): seq<Op> {
    if conditions == [] then [] else [And, conditions[0]] + Calls(conditions[1..])
  }

  lemma CallsConcat(a: seq<Op>, b: seq<Op>)
    ensures Calls(a + b) == Calls(a) + Calls(b)
  {
    if a == [] {
      assert a + b == b;
    } else {
      assert (a + b)[1..] == a[1..] + b;
    }
  }

  lemma ConditionsSnoc(parsers: Parsers, search: seq<SearchField>, f: SearchField)
    ensures Conditions(parsers, search + [f])
         == Conditions(parsers, search) + (match Compile(parsers, f) case Emit(op) => [op] case _ => [])
  {
    hide Compile;
    if search == [] {
      assert search + [f] == [f] && [f][1..] == [];
    } else {
      assert (search + [f])[1..] == search[1..] + [f];
      ConditionsSnoc(parsers, search[1..], f);
    }
  }

  /** `into_wrapper`; `ok` is false when an index is out of bounds. */
  method IntoWrapper(parsers: Parsers, search: seq<SearchField>, wp: W.DynamicWrapper) returns (ok: bool)
    modifies wp`sql, wp`args
    ensures ok <==> !Panics(parsers, search)
    ensures ok ==> wp.State() == Run(old(wp.State()), Calls(Conditions(parsers, search)))
  {
    hide Apply, Compile, Run, Calls, Conditions;
    ghost var start := wp.State();
    NothingRun(parsers, start);
    for i := 0 to |search|
      invariant wp.State() == Run(start, Calls(Conditions(parsers, search[..i])))
      invariant forall j | 0 <= j < i :: !Compile(parsers, search[j]).Panic?
    {
      var compiled := Compile(parsers, search[i]);
      ghost var before := Conditions(parsers, search[..i]);
      assert search[..i + 1] == search[..i] + [search[i]];
      ConditionsSnoc(parsers, search[..i], search[i]);
      match compiled {
        case Skip =>
          assert before + [] == before;
        case Panic =>
          return false;
        case Emit(op) =>
          wp.And();
          wp.Perform(op);
          CallsConcat(before, [op]);
          RunPair(start, Calls(before), op);
      }
    }
    assert search[..|search|] == search;
    return true;
  }

  lemma NothingRun(parsers: Parsers, st: State)
    ensures Run(st, Calls(Conditions(parsers, []))) == st
  {
  }

  lemma CompiledKind(parsers: Parsers, f: SearchField)
    ensures Compile(parsers, f).Emit? ==>
              var op := Compile(parsers, f).op;
              (op.Compare? || op.Between? || op.Like? || op.IsNull? || op.InArray?) && (op.InArray? ==> op.values != [])
  {
  }

  lemma RunPair(st: State, ops: seq<Op>, op: Op)
    ensures Run(st, ops + Calls([op])) == Apply(Apply(Run(st, ops), And), op)
  {
    hide Apply;
    assert Calls([op]) == [And, op] by {
      assert [op][1..] == [];
    }
    RunSnoc(st, ops, And);
    RunSnoc(st, ops + [And], op);
    assert ops + [And] + [op] == ops + [And, op];
  }

  // ---- what the filter reads and binds --------------------------------------------------------------

  /** How many arguments a field binds. */
  function Arity(f: SearchField): nat {
    match OperatorIn(f)
    case Comparing(_) | Liking(_) => 1
    case Ranging(_) => 2
    case Containing(_) => Count(OrEmpty(f.val), ',') + 1
    case Missing(_) | Unknown => 0
  }

  function SumOfArities(search: seq<SearchField>): nat {
    if search == [] then 0 else Arity(search[0]) + SumOfArities(search[1..])
  }

  function RecognisedCount(search: seq<SearchField>): nat {
    if search == [] then 0 else (if OperatorIn(search[0]) != Unknown then 1 else 0) + RecognisedCount(search[1..])
  }

  function AllArguments(ops: seq<Op>): seq<Bson> {
    if ops == [] then [] else Arguments(ops[0]) + AllArguments(ops[1..])
  }

  /** The texts of the conditions when `n` arguments are bound before them. */
  function Operands(driver: Driver, formats: map<string, string>, n: nat, ops: seq<Op>): seq<string>
    decreases |ops|
  {
    if ops == [] then []
    else
      [Render(driver, formats, Pieces(ops[0]), n)]
      + Operands(driver, formats, n + |Values(Pieces(ops[0]))|, ops[1..])
  }

  /** The values a condition call binds, read from the call alone. */
  function Arguments(op: Op): seq<Bson> {
    match op
    case Compare(_, _, value) => [value]
    case Like(negated, _, value) => [LikePattern(value, negated)]
    case Between(_, _, lo, hi) => [lo, hi]
    case InArray(_, _, values) => values
    case _ => []
  }

  lemma ValuesOfCall(op: Op)
    requires op.Compare? || op.Between? || op.Like? || op.IsNull? || op.InArray?
    ensures Values(Pieces(op)) == Arguments(op)
  {
    var ps := Pieces(op);
    if op.InArray? {
      if op.values != [] {
        ValuesOfList(ps[0], op.column, op.values);
      }
    } else if op.IsNull? {
      RenderOne(Mysql, map[], ps[0], 0);
    } else {
      ValuesOfPair(ps[0], ps[1]);
      if op.Between? {
        ValuesOfPair(ps[2], ps[3]);
        assert ps == [ps[0], ps[1]] + [ps[2], ps[3]];
        hide Values;
        ValuesConcat([ps[0], ps[1]], [ps[2], ps[3]]);
      } else {
        assert ps == [ps[0], ps[1]];
      }
    }
  }

  lemma ValuesOfList(open: Piece, column: string, values: seq<Bson>)
    requires open.Lit? && values != []
    ensures Values([open] + InList(column, values) + [Lit(")")]) == values
  {
    hide Values, InList;
    InListValues(column, values);
    ValuesConcat([open] + InList(column, values), [Lit(")")]);
    ValuesConcat([open], InList(column, values));
    RenderOne(Mysql, map[], open, 0);
    RenderOne(Mysql, map[], Lit(")"), 0);
    assert [] + values + [] == values;
  }

  lemma ValuesOfPair(p: Piece, q: Piece)
    ensures Values([p, q]) == Bound(p) + Bound(q)
  {
    hide Values;
    assert [p, q] == [p] + [q];
    ValuesConcat([p], [q]);
    RenderOne(Mysql, map[], p, 0);
    RenderOne(Mysql, map[], q, 0);
  }

  /** A field is emitted exactly when its operator is recognised, and binds its arity; a value
      that fails to parse is bound all the same. */
  lemma ArityOfCompiled(parsers: Parsers, f: SearchField)
    ensures !Compile(parsers, f).Panic? ==> (Compile(parsers, f).Emit? <==> OperatorIn(f) != Unknown)
    ensures Compile(parsers, f).Emit? ==> |Arguments(Compile(parsers, f).op)| == Arity(f)
    ensures Compile(parsers, f).Skip? ==> Arity(f) == 0
  {
    hide OperatorIn, Count, ToValue, LikePattern, OrEmpty;
  }

  /** The compilation fails exactly on a range whose value holds no comma. */
  lemma PanicExactly(parsers: Parsers, f: SearchField)
    ensures Compile(parsers, f).Panic? <==>
              OperatorIn(f).Ranging? && ',' !in OrEmpty(f.val)
  {
    CountZero(OrEmpty(f.val), ',');
    hide OperatorIn, Count, ToValue, OrEmpty;
  }

  /** Two inputs that the names of the operators do not suggest: `egt` excludes equality, and a
      range with a single bound fails. */
  lemma OperatorSurprises(parsers: Parsers)
    ensures var f := SearchField(Some("a"), Some("EGT"), None, Some("1"));
            Compile(parsers, f) == Emit(Compare(Gt, "a", Str("1")))
    ensures var f := SearchField(Some("a"), Some("range"), None, Some("1"));
            Panics(parsers, [f])
  {
    var word := "EGT";
    assert Lower(word) == "egt" && Lower("range") == "range";
    var f := SearchField(Some("a"), Some("range"), None, Some("1"));
    assert OperatorIn(f) == Ranging(false);
    PanicExactly(parsers, f);
    assert Compile(parsers, [f][0]).Panic?;
  }

  lemma FilterArity(parsers: Parsers, search: seq<SearchField>)
    requires !Panics(parsers, search)
    ensures |AllArguments(Conditions(parsers, search))| == SumOfArities(search)
    ensures |Conditions(parsers, search)| == RecognisedCount(search)
  {
    hide Compile, OperatorIn, Arity, Arguments;
    if search != [] {
      assert !Compile(parsers, search[0]).Panic?;
      forall i | 0 <= i < |search[1..]| ensures !Compile(parsers, search[1..][i]).Panic? {
        assert search[1..][i] == search[i + 1];
      }
      FilterArity(parsers, search[1..]);
      ArityOfCompiled(parsers, search[0]);
      CompiledKind(parsers, search[0]);
      var rest := Conditions(parsers, search[1..]);
      if Compile(parsers, search[0]).Emit? {
        var op := Compile(parsers, search[0]).op;
        assert ([op] + rest)[1..] == rest;
      }
    }
  }

  // ---- the filter's text -------------------------------------------------------------------------------

  /** Calls that have an operand and end closed. */
  predicate Operative(formats: map<string, string>, op: Op) {
    HasOperand(op) && ClosedOp(formats, op) && !op.AllEq?
  }

  function WithAll(x: Chain, operands: seq<string>): Chain
    decreases |operands|
  {
    if operands == [] then x else WithAll(x.With(operands[0]), operands[1..])
  }

  lemma LinkedStep(formats: map<string, string>, x: Chain, op: Op, operand: string)
    requires x.Valid() && Operative(formats, op)
    ensures Step(x.Linked(" and "), op, operand) == x.With(operand) && x.With(operand).Valid()
  {
    hide ClosedOp;
  }

  lemma BuildStep(driver: Driver, formats: map<string, string>, x: Chain, n: nat, op: Op, rest: seq<Op>)
    ensures var text, k := Render(driver, formats, Pieces(op), n), |Values(Pieces(op))|;
            Build(driver, formats, x, n, [op] + rest)
            == Build(driver, formats, Step(x, op, text), n + k, rest)
  {
    hide Render, Step, Values, Pieces;
    assert ([op] + rest)[0] == op && ([op] + rest)[1..] == rest;
  }

  lemma AndStep(x: Chain, text: string)
    ensures Step(x, And, text) == x.Linked(" and ") && |Values(Pieces(And))| == 0
  {
  }

  lemma BuildPair(driver: Driver, formats: map<string, string>, x: Chain, n: nat, op: Op, rest: seq<Op>)
    ensures var text, k := Render(driver, formats, Pieces(op), n), |Values(Pieces(op))|;
            Build(driver, formats, x, n, [And, op] + rest)
            == Build(driver, formats, Step(x.Linked(" and "), op, text), n + k, rest)
  {
    hide Render, Step, Values, Pieces, Build;
    assert [And, op] + rest == [And] + ([op] + rest);
    AndStep(x, Render(driver, formats, Pieces(And), n));
    BuildStep(driver, formats, x, n, And, [op] + rest);
    BuildStep(driver, formats, x.Linked(" and "), n, op, rest);
  }

  lemma {:induction false} CallsBuild(driver: Driver, formats: map<string, string>, x: Chain, n: nat, ops: seq<Op>)
    requires x.Valid() && forall op | op in ops :: Operative(formats, op)
    ensures Build(driver, formats, x, n, Calls(ops)) == WithAll(x, Operands(driver, formats, n, ops))
    decreases |ops|
  {
    hide Render, Operative, Values, Pieces, Step, Chain.With;
    if ops != [] {
      var op, calls := ops[0], Calls(ops);
      assert op in ops;
      var text, k := Render(driver, formats, Pieces(op), n), |Values(Pieces(op))|;
      LinkedStep(formats, x, op, text);
      BuildPair(driver, formats, x, n, op, Calls(ops[1..]));
      assert calls == [And, op] + Calls(ops[1..]);
      CallsBuild(driver, formats, x.With(text), n + k, ops[1..]);
      var all := Operands(driver, formats, n, ops);
      assert all[0] == text && all[1..] == Operands(driver, formats, n + k, ops[1..]);
    }
  }

  /** Operands added to a chain: linked to it unless it is open, and to one another. */
  lemma {:induction false} WithAllText(x: Chain, operands: seq<string>)
    requires x.Valid() && operands != []
    ensures WithAll(x, operands).Valid()
    ensures WithAll(x, operands).Text() == x.Text() + (if x.Open() then "" else " and ") + Separated(operands, " and ")
    decreases |operands|
  {
    hide Chain.Text;
    var y, rest, joint := x.With(operands[0]), operands[1..], if x.Open() then "" else " and ";
    WithOneText(x, operands[0]);
    if rest == [] {
      assert WithAll(y, []) == y;
    } else {
      WithAllText(y, rest);
      assert x.Text() + joint + operands[0] + " and " + Separated(rest, " and ")
          == x.Text() + joint + (operands[0] + " and " + Separated(rest, " and "));
    }
  }

  lemma WithOneText(x: Chain, operand: string)
    requires x.Valid()
    ensures x.With(operand).Valid() && !x.With(operand).Open()
    ensures x.With(operand).Text() == x.Text() + (if x.Open() then "" else " and ") + operand
  {
    var y := x.With(operand);
    assert y.operands[..|y.operands| - 1] == x.operands;
    assert Chain(x.operands, x.links) == x;
    if x.Open() {
      assert x.Text() + "" == x.Text();
    } else {
      assert y.links[..|y.links| - 1] == x.links;
    }
  }

  /** A filter leaves the text of any builder as it is and appends its operands, one for every
      recognised operator, joined by single `and`s: linked to what is there unless a link already
      dangles. Its arguments come behind those already bound, one after another in their order. */
  lemma FilterText(parsers: Parsers, search: seq<SearchField>, st: State, x: Chain)
    requires !Panics(parsers, search)
    requires forall op | op in Conditions(parsers, search) :: ClosedOp(st.formats, op)
    requires x.Valid() && AllSolid(x) && st.sql == x.Text()
    ensures var ops := Conditions(parsers, search);
            var operands := Operands(st.driver, st.formats, |st.args|, ops);
            var end := Run(st, Calls(ops));
            && end.sql == (if operands == [] then st.sql
                           else st.sql + (if x.Open() then "" else " and ") + Separated(operands, " and "))
            && |operands| == RecognisedCount(search)
            && end.args == st.args + AllArguments(ops)
            && |end.args| == |st.args| + SumOfArities(search)
  {
    hide Render, ClosedOp, Compile, Apply, Pieces, AllSolid, Chain.Text;
    var ops := Conditions(parsers, search);
    var operands := Operands(st.driver, st.formats, |st.args|, ops);
    forall op | op in ops
      ensures Operative(st.formats, op)
      ensures op.Compare? || op.Between? || op.Like? || op.IsNull? || op.InArray?
    {
      ConditionsOperate(parsers, search, op);
    }
    CallsAreConditions(st.formats, ops);
    TextIsChain(st, x, Calls(ops));
    CallsBuild(st.driver, st.formats, x, |st.args|, ops);
    if operands != [] {
      WithAllText(x, operands);
    }
    FilterArity(parsers, search);
    OperandCount(st.driver, st.formats, |st.args|, ops);
    CallsArgs(st, ops);
  }

  lemma ConditionsOperate(parsers: Parsers, search: seq<SearchField>, op: Op)
    requires op in Conditions(parsers, search)
    ensures HasOperand(op) && !op.AllEq?
    ensures op.Compare? || op.Between? || op.Like? || op.IsNull? || op.InArray?
  {
    if op !in Conditions(parsers, search[1..]) {
      CompiledKind(parsers, search[0]);
      hide Compile;
    }
  }

  lemma CallsAreConditions(formats: map<string, string>, ops: seq<Op>)
    requires forall op | op in ops :: Operative(formats, op)
    ensures forall op | op in Calls(ops) :: IsCondition(op) && ClosedOp(formats, op)
  {
    if ops != [] {
      assert ops[0] in ops;
      CallsAreConditions(formats, ops[1..]);
    }
  }

  lemma OperandCount(driver: Driver, formats: map<string, string>, n: nat, ops: seq<Op>)
    ensures |Operands(driver, formats, n, ops)| == |ops|
    decreases |ops|
  {
    hide Render;
    if ops != [] {
      OperandCount(driver, formats, n + |Values(Pieces(ops[0]))|, ops[1..]);
    }
  }

  lemma {:induction false} CallsArgs(st: State, ops: seq<Op>)
    requires forall op | op in ops :: op.Compare? || op.Between? || op.Like? || op.IsNull? || op.InArray?
    ensures Run(st, Calls(ops)).args == st.args + AllArguments(ops)
    decreases |ops|
  {
    hide Render, Base, Pieces, Values, Arguments;
    if ops != [] {
      assert ops[0] in ops;
      ValuesOfCall(ops[0]);
      var calls := Calls(ops);
      var one := Apply(st, And);
      var two := Apply(one, ops[0]);
      assert calls[1..][0] == ops[0] && calls[1..][1..] == Calls(ops[1..]);
      assert Run(st, calls) == Run(one, calls[1..]) == Run(two, Calls(ops[1..]));
      AndBindsNothing(st);
      CallsArgs(two, ops[1..]);
    }
  }

  lemma AndBindsNothing(st: State)
    ensures Apply(st, And).args == st.args
  {
  }
}

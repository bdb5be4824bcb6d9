/** `DynamicWrapper`: the builder object whose calls grow its text and its arguments in place.
    Every call is proved to be one step of `Builder.Apply`. */
module DynamicWrapper {
  import opened Text
  import opened Drivers
  import B = Builder
  import S = Splice

  /** Appending pieces one after another is appending their concatenation. */
  lemma Chained(st: B.State, base: string, a: seq<B.Piece>, mid: B.State, b: seq<B.Piece>, end: B.State)
    requires mid == B.Append(st, base, a)
    requires end == B.Append(mid, mid.sql, b)
    ensures end == B.Append(st, base, a + b)
  {
    B.AppendConcat(st, base, a, b);
  }

  lemma Rebased(st: B.State, base: string, ps: seq<B.Piece>)
    ensures B.Append(st.(sql := base), base, ps) == B.Append(st, base, ps)
  {
  }

  lemma AppendNothing(st: B.State)
    ensures B.Append(st, st.sql, []) == st
  {
    assert st.sql + "" == st.sql && st.args + [] == st.args;
  }

  lemma AppendLit(st: B.State, base: string, text: string)
    ensures B.Append(st, base, [B.Lit(text)]) == st.(sql := base + text)
  {
    B.RenderOne(st.driver, st.formats, B.Lit(text), |st.args|);
    assert st.args + [] == st.args;
  }

  /** Every item of a list with the comma that follows it. */
  ghost function InItems(column: string, values: seq<B.Bson>): seq<B.Piece> {
    if values == [] then [] else B.InList(column, values) + [B.Lit(",")]
  }

  lemma ItemPushed(st: B.State, head: seq<B.Piece>, column: string, values: seq<B.Bson>, j: nat,
                   before: B.State, bound: B.State, spaced: B.State, after: B.State)
    requires j < |values|
    requires before == B.Append(st, st.sql, head + InItems(column, values[..j]))
    requires bound == B.Append(before, before.sql, [B.Lit(" "), B.Hole(column, values[j])])
    requires spaced == B.Append(bound, bound.sql, [B.Lit(" ")])
    requires after == B.Append(spaced, spaced.sql, [B.Lit(",")])
    ensures spaced == B.Append(st, st.sql, head + B.InList(column, values[..j + 1]))
    ensures after == B.Append(st, st.sql, head + InItems(column, values[..j + 1]))
  {
    hide B.Append;
    var was, item, blank := head + InItems(column, values[..j]), [B.Lit(" "), B.Hole(column, values[j])], [B.Lit(" ")];
    Chained(st, st.sql, was, before, item, bound);
    Chained(st, st.sql, was + item, bound, blank, spaced);
    Chained(st, st.sql, was + item + blank, spaced, [B.Lit(",")], after);
    assert values[..j + 1][..j] == values[..j];
    assert was + item + blank == head + B.InList(column, values[..j + 1]);
    assert was + item + blank + [B.Lit(",")] == head + InItems(column, values[..j + 1]);
  }

  lemma FieldPushed(st: B.State, done: seq<B.Piece>, before: B.State, op: B.Op, after: B.State)
    requires op.Compare? && B.NotAllowAddAndOnEnd(before.sql)
    requires before == B.Append(st, st.sql, done) && after == B.Apply(before, op)
    ensures after == B.Append(st, st.sql, done + B.Pieces(op))
  {
    hide B.Append, B.Pieces, B.NotAllowAddAndOnEnd;
    assert B.Base(op, before.sql) == before.sql;
    Chained(st, st.sql, done, before, B.Pieces(op), after);
  }

  lemma OpenAfter(sql: string)
    ensures B.NotAllowAddAndOnEnd(sql + "(")
    ensures B.NotAllowAddAndOnEnd(sql + " and ")
  {
    assert TrimEnd(sql + "(") == sql + "(";
    B.LinkOpens(sql);
  }

  class DynamicWrapper {
    var driver: Driver
    var sql: string
    var args: seq<B.Bson>
    var formats: map<string, string>

    ghost function State(): B.State
      reads this
    {
      B.State(driver, formats, sql, args)
    }

    constructor (driver: Driver)
      ensures State() == B.Empty(driver, map[])
    {
      this.driver := driver;
      sql := "";
      args := [];
      formats := map[];
    }

    method SetFormats(formats: map<string, string>)
      modifies this`formats
      ensures State() == old(State()).(formats := formats)
    {
      this.formats := formats;
    }

    /** `push` and, with the fields of another builder, `push_wrapper`. */
    method Push(sql: string, args: seq<B.Bson>)
      modifies this`sql, this`args
      ensures State() == S.Push(old(State()), sql, args)
    {
      var newSql := sql;
      match driver {
      case Mysql | Sqlite =>
      case Postgres | Mssql =>
        for indexTarget := 0 to |args|
          invariant newSql == S.Shifted(driver, sql, indexTarget, |this.args|)
        {
          var convertColumn := StmtConvert(driver, indexTarget);
          var convertColumnNew := StmtConvert(driver, indexTarget + |this.args|);
          newSql := Replace(newSql, convertColumn, convertColumnNew);
        }
      }
      assert newSql == S.SplicedText(driver, sql, |args|, |this.args|);
      hide S.SplicedText, S.Shifted;
      this.sql := this.sql + newSql;
      ghost var text := this.sql;
      for j := 0 to |args|
        invariant this.sql == text
        invariant this.args == old(this.args) + args[..j]
      {
        assert args[..j + 1] == args[..j] + [args[j]];
        this.args := this.args + [args[j]];
      }
      assert args[..|args|] == args;
    }

    method And()
      modifies this`sql
      ensures State() == B.Apply(old(State()), B.And)
      ensures sql == B.Link(old(sql), " and ")
    {
      if !B.NotAllowAddAndOnEnd(sql) {
        sql := sql + " and ";
      }
      AppendNothing(State());
    }

    method Or()
      modifies this`sql
      ensures State() == B.Apply(old(State()), B.Or)
    {
      if !B.NotAllowAddAndOnEnd(sql) {
        sql := sql + " or ";
      }
      AppendNothing(State());
    }

    method PushStr(text: string)
      modifies this`sql
      ensures State() == B.Append(old(State()), old(sql), [B.Lit(text)])
      ensures sql == old(sql) + text
    {
      AppendLit(State(), sql, text);
      sql := sql + text;
    }

    /** The lines every binding call repeats: the next placeholder in the column's format,
        and then the argument. */
    method Bind(column: string, value: B.Bson)
      modifies this`sql, this`args
      ensures State() == B.Append(old(State()), old(sql), [B.Hole(column, value)])
    {
      var convertColumn := StmtConvert(driver, |args|);
      if column in formats {
        convertColumn := Replace(formats[column], "{}", convertColumn);
      }
      B.RenderOne(driver, formats, B.Hole(column, value), |args|);
      sql := sql + convertColumn;
      args := args + [value];
    }

    method PushBound(text: string, column: string, value: B.Bson)
      modifies this`sql, this`args
      ensures State() == B.Append(old(State()), old(sql), [B.Lit(text), B.Hole(column, value)])
    {
      ghost var st := State();
      PushStr(text);
      ghost var mid := State();
      Bind(column, value);
      Chained(st, st.sql, [B.Lit(text)], mid, [B.Hole(column, value)], State());
      assert [B.Lit(text)] + [B.Hole(column, value)] == [B.Lit(text), B.Hole(column, value)];
    }

    /** `eq`, `ne`, `gt`, `ge`, `lt`, `le`. */
    method Compare(cmp: B.Comparison, column: string, value: B.Bson)
      modifies this`sql, this`args
      ensures State() == B.Apply(old(State()), B.Compare(cmp, column, value))
    {
      hide B.Append, B.NotAllowAddAndOnEnd, B.Render;
      And();
      ghost var base := sql;
      PushBound(column + B.Sign(cmp), column, value);
      Rebased(old(State()), base, B.Pieces(B.Compare(cmp, column, value)));
    }

    /** `between` and `not_between`. */
    method Between(negated: bool, column: string, lo: B.Bson, hi: B.Bson)
      modifies this`sql, this`args
      ensures State() == B.Apply(old(State()), B.Between(negated, column, lo, hi))
    {
      hide B.Append, B.NotAllowAddAndOnEnd, B.Render;
      var text := column + (if negated then " not between " else " between ");
      And();
      ghost var st := State();
      PushBound(text, column, lo);
      ghost var mid := State();
      PushBound(" and ", column, hi);
      ghost var a, b := [B.Lit(text), B.Hole(column, lo)], [B.Lit(" and "), B.Hole(column, hi)];
      Chained(st, st.sql, a, mid, b, State());
      assert a + b == B.Pieces(B.Between(negated, column, lo, hi));
      Rebased(old(State()), st.sql, a + b);
    }

    /** `like`, `like_left` and `like_right` bind the same pattern; `not_like` another one. */
    method Like(negated: bool, column: string, value: B.Bson)
      modifies this`sql, this`args
      ensures State() == B.Apply(old(State()), B.Like(negated, column, value))
    {
      hide B.Append, B.NotAllowAddAndOnEnd, B.Render;
      And();
      ghost var base := sql;
      PushBound(column + (if negated then " not like " else " like "), column, B.LikePattern(value, negated));
      Rebased(old(State()), base, B.Pieces(B.Like(negated, column, value)));
    }

    /** `is_null` and `is_not_null`. */
    method IsNull(negated: bool, column: string)
      modifies this`sql
      ensures State() == B.Apply(old(State()), B.IsNull(negated, column))
    {
      hide B.Append, B.NotAllowAddAndOnEnd, B.Render;
      And();
      ghost var base := sql;
      PushStr(column + (if negated then " is not null" else " is null"));
      Rebased(old(State()), base, B.Pieces(B.IsNull(negated, column)));
    }

    method Having(condition: string)
      modifies this`sql
      ensures State() == B.Apply(old(State()), B.Having(condition))
    {
      hide B.Append, B.NotAllowAddAndOnEnd, B.Render;
      And();
      ghost var base := sql;
      PushStr("having " + condition);
      Rebased(old(State()), base, B.Pieces(B.Having(condition)));
    }

    method Limit(count: nat)
      modifies this`sql
      ensures State() == B.Apply(old(State()), B.Limit(count))
    {
      PushStr(" limit " + Dec(count) + " ");
    }

    method PushKeys(keys: seq<(string, bool)>)
      requires keys != []
      modifies this`sql
      ensures sql == old(sql) + B.OrderList(keys)
    {
      hide B.KeyText;
      for j := 0 to |keys|
        invariant j == 0 ==> sql == old(sql)
        invariant 0 < j < |keys| ==> sql == old(sql) + (B.OrderList(keys[..j]) + ",")
        invariant j == |keys| ==> sql == old(sql) + B.OrderList(keys)
      {
        assert keys[..j + 1][..j] == keys[..j];
        assert j + 1 == |keys| ==> keys[..j + 1] == keys;
        sql := sql + B.KeyText(keys[j]);
        if j + 1 != |keys| {
          sql := sql + ",";
        }
      }
    }

    method OrderBys(keys: seq<(string, bool)>)
      modifies this`sql
      ensures State() == B.Apply(old(State()), B.OrderBy(keys))
    {
      hide B.Append, B.CutTail, B.OrderList;
      if keys == [] {
        AppendNothing(State());
        return;
      }
      ghost var st := State();
      sql := B.CutTail(TrimEnd(sql));
      ghost var base := sql;
      sql := sql + " order by ";
      PushKeys(keys);
      sql := sql + " ";
      AppendLit(st, base, " order by " + B.OrderList(keys) + " ");
    }

    /** `order_by`: one direction for all columns. */
    method OrderBy(ascending: bool, columns: seq<string>)
      modifies this`sql
      ensures var keys := seq(|columns|, i requires 0 <= i < |columns| => (columns[i], ascending));
              State() == B.Apply(old(State()), B.OrderBy(keys))
    {
      OrderBys(seq(|columns|, i requires 0 <= i < |columns| => (columns[i], ascending)));
    }

    method PushColumns(columns: seq<string>)
      requires columns != []
      modifies this`sql
      ensures sql == old(sql) + B.ColumnList(columns)
    {
      for j := 0 to |columns|
        invariant j == 0 ==> sql == old(sql)
        invariant 0 < j < |columns| ==> sql == old(sql) + (B.ColumnList(columns[..j]) + ",")
        invariant j == |columns| ==> sql == old(sql) + B.ColumnList(columns)
      {
        assert columns[..j + 1][..j] == columns[..j];
        assert j + 1 == |columns| ==> columns[..j + 1] == columns;
        sql := sql + columns[j];
        if j + 1 != |columns| {
          sql := sql + ",";
        }
      }
    }

    method GroupBy(columns: seq<string>)
      modifies this`sql
      ensures State() == B.Apply(old(State()), B.GroupBy(columns))
    {
      hide B.Append, B.CutTail, B.ColumnList;
      if columns == [] {
        AppendNothing(State());
        return;
      }
      ghost var st := State();
      sql := B.CutTail(Trim(sql));
      ghost var base := sql;
      sql := sql + " group by ";
      PushColumns(columns);
      sql := sql + " ";
      AppendLit(st, base, " group by " + B.ColumnList(columns) + " ");
    }

    /** `in_array` (also `in_` and `in`) and `not_in`: a comma after every item, and the last
        one taken back. */
    method InArray(negated: bool, column: string, values: seq<B.Bson>)
      modifies this`sql, this`args
      ensures State() == B.Apply(old(State()), B.InArray(negated, column, values))
    {
      hide B.Append, B.InList;
      if values == [] {
        AppendNothing(State());
        return;
      }
      And();
      ghost var st := State();
      var text := column + (if negated then " not in (" else " in (");
      PushStr(text);
      PushItems(column, values, st, [B.Lit(text)]);
      ghost var list := State();
      PushStr(")");
      Chained(st, st.sql, [B.Lit(text)] + B.InList(column, values), list, [B.Lit(")")], State());
      Rebased(old(State()), st.sql, B.Pieces(B.InArray(negated, column, values)));
    }

    /** The loop of `in_array`, with the last comma taken back. */
    method PushItems(column: string, values: seq<B.Bson>, ghost st: B.State, ghost head: seq<B.Piece>)
      requires values != []
      requires State() == B.Append(st, st.sql, head)
      modifies this`sql, this`args
      ensures State() == B.Append(st, st.sql, head + B.InList(column, values))
    {
      hide B.Append, B.InList;
      assert head + [] == head;
      for j := 0 to |values|
        invariant State() == B.Append(st, st.sql, head + InItems(column, values[..j]))
        invariant j > 0 ==> sql != ""
        invariant j > 0 ==>
          State().(sql := sql[..|sql| - 1]) == B.Append(st, st.sql, head + B.InList(column, values[..j]))
      {
        ghost var before := State();
        PushBound(" ", column, values[j]);
        ghost var bound := State();
        PushStr(" ");
        ghost var spaced := State();
        PushStr(",");
        assert sql[..|sql| - 1] == spaced.sql;
        ItemPushed(st, head, column, values, j, before, bound, spaced, State());
      }
      assert values[..|values|] == values;
      sql := sql[..|sql| - 1];
    }

    /** The comparators called inside add no connective of their own. */
    method AllEq(fields: seq<(string, B.Bson)>)
      modifies this`sql, this`args
      ensures State() == B.Apply(old(State()), B.AllEq(fields))
    {
      hide B.Append, B.EqList;
      And();
      ghost var st := State();
      if fields == [] {
        return;
      }
      PushStr("(");
      PushFields(fields, st);
      ghost var list := State();
      PushStr(")");
      Chained(st, st.sql, [B.Lit("(")] + B.EqList(fields), list, [B.Lit(")")], State());
      Rebased(old(State()), st.sql, B.Pieces(B.AllEq(fields)));
    }

    method PushFields(fields: seq<(string, B.Bson)>, ghost st: B.State)
      requires fields != []
      requires State() == B.Append(st, st.sql, [B.Lit("(")]) && sql == st.sql + "("
      modifies this`sql, this`args
      ensures State() == B.Append(st, st.sql, [B.Lit("(")] + B.EqList(fields))
    {
      hide B.Append, B.NotAllowAddAndOnEnd;
      ghost var done := [B.Lit("(")];
      OpenAfter(st.sql);
      for j := 0 to |fields|
        invariant State() == B.Append(st, st.sql, done)
        invariant j == 0 ==> done == [B.Lit("(")]
        invariant 0 < j < |fields| ==> done == [B.Lit("(")] + B.EqList(fields[..j]) + [B.Lit(" and ")]
        invariant j == |fields| ==> done == [B.Lit("(")] + B.EqList(fields)
        invariant j < |fields| ==> B.NotAllowAddAndOnEnd(sql)
      {
        ghost var before := State();
        ghost var op := B.Compare(B.Eq, fields[j].0, fields[j].1);
        Compare(B.Eq, fields[j].0, fields[j].1);
        FieldPushed(st, done, before, op, State());
        done := done + B.Pieces(op);
        assert fields[..j + 1][..j] == fields[..j];
        assert j + 1 == |fields| ==> fields[..j + 1] == fields;
        assert done == [B.Lit("(")] + B.EqList(fields[..j + 1]);
        if j + 1 != |fields| {
          before := State();
          PushStr(" and ");
          Chained(st, st.sql, done, before, [B.Lit(" and ")], State());
          done := done + [B.Lit(" and ")];
          OpenAfter(before.sql);
        }
      }
    }

    /** The call that a value of `Op` stands for; `order_by` and `order_bys` are one. */
    method Perform(op: B.Op)
      modifies this`sql, this`args
      ensures State() == B.Apply(old(State()), op)
    {
      match op
      case And => And();
      case Or => Or();
      case Compare(cmp, column, value) => Compare(cmp, column, value);
      case Between(negated, column, lo, hi) => Between(negated, column, lo, hi);
      case Like(negated, column, value) => Like(negated, column, value);
      case IsNull(negated, column) => IsNull(negated, column);
      case InArray(negated, column, values) => InArray(negated, column, values);
      case AllEq(fields) => AllEq(fields);
      case OrderBy(keys) => OrderBys(keys);
      case GroupBy(columns) => GroupBy(columns);
      case Limit(count) => Limit(count);
      case Having(condition) => Having(condition);
    }
  }
}

/** What a filter field makes of the SQL, word by word, told from the field alone. */
module Filters {
  import opened Text
  import opened Builder
  import opened CommonSearch
  import opened Written

  /** The letter `l`, small or capital; the Kelvin sign is a capital k. */
  predicate SameLetter(c: char, l: char) {
    c == l || ('a' <= l <= 'z' && c as int + 32 == l as int) || (l == 'k' && c == '\U{212A}')
  }

  predicate Spells(w: string, word: string) {
    |w| == |word| && forall i | 0 <= i < |w| :: SameLetter(w[i], word[i])
  }

  /** Small letters and blanks. */
  predicate SmallWord(word: string) {
    forall i | 0 <= i < |word| :: 'a' <= word[i] <= 'z' || word[i] == ' '
  }

  lemma LowerSpells(w: string, word: string)
    requires SmallWord(word)
    ensures Lower(w) == word <==> Spells(w, word)
  {
    var low := Lower(w);
    if |w| == |word| {
      forall i | 0 <= i < |w| ensures low[i] == word[i] <==> SameLetter(w[i], word[i]) {
      }
      assert (forall i | 0 <= i < |w| :: low[i] == word[i]) ==> low == word;
    }
  }

  // ---- what is bound -----------------------------------------------------------------------------------

  /** The value a text stands for under its field type; what does not parse is null. */
  function BoundAs(parsers: Parsers, fieldType: Option<string>, text: string): Bson {
    match fieldType
    case None => Str(text)
    case Some(t) =>
      if Spells(t, "integer") then OrNull(parsers.integer(text))
      else if Spells(t, "float") then OrNull(parsers.float(text))
      else if Spells(t, "boolean") then (if Spells(text, "true") then Other("true") else Other("false"))
      else if Spells(t, "datetime") && !parsers.isDateTime(text) then Null
      else if Spells(t, "date") && !parsers.isDate(text) then Null
      else Str(text)
  }

  function OrNull(v: Option<Bson>): Bson {
    if v.Some? then v.value else Null
  }

  lemma BoundExactly(parsers: Parsers, fieldType: Option<string>, text: string)
    ensures ToValueInner(parsers, fieldType, text) == BoundAs(parsers, fieldType, text)
  {
    if fieldType.Some? {
      var t := fieldType.value;
      LowerSpells(t, "integer");
      LowerSpells(t, "float");
      LowerSpells(t, "boolean");
      LowerSpells(t, "datetime");
      LowerSpells(t, "date");
      LowerSpells(text, "true");
      hide Lower, Spells;
    }
  }

  function TextOf(s: Option<string>): string {
    if s.Some? then s.value else ""
  }

  /** One value for each part between commas. */
  function BoundList(parsers: Parsers, fieldType: Option<string>, parts: seq<string>): seq<Bson> {
    seq(|parts|, i requires 0 <= i < |parts| => BoundAs(parsers, fieldType, parts[i]))
  }

  // ---- one field on any builder --------------------------------------------------------------------------

  /** The builder after a filter of the one field. */
  function Filtered(parsers: Parsers, st: State, f: SearchField): State {
    Run(st, Calls(Conditions(parsers, [f])))
  }

  lemma FilteredBy(parsers: Parsers, st: State, f: SearchField)
    ensures Filtered(parsers, st, f)
         == match Compile(parsers, f) case Emit(op) => Apply(Apply(st, And), op) case _ => st
  {
    hide Apply, Compile;
    assert [f][1..] == [] && Conditions(parsers, []) == [];
    match Compile(parsers, f)
    case Emit(op) =>
      assert [op][1..] == [] && Calls([]) == [];
      assert Conditions(parsers, [f]) == [op] + [] == [op];
      assert Calls([op]) == [And, op];
      RunTwo(st, And, op);
    case _ =>
  }

  lemma RunTwo(st: State, a: Op, b: Op)
    ensures Run(st, [a, b]) == Apply(Apply(st, a), b)
  {
    hide Apply;
    assert [a, b][1..] == [b];
    OneCall(Apply(st, a), b);
  }

  lemma Emitted(parsers: Parsers, st: State, f: SearchField, op: Op)
    requires Compile(parsers, f) == Emit(op)
    ensures Filtered(parsers, st, f) == Apply(Apply(st, And), op)
  {
    hide Filtered, Apply, Compile;
    FilteredBy(parsers, st, f);
  }

  /** The `and` before a condition and the condition's own are one. */
  lemma BehindOnce(text: string)
    ensures Behind(Behind(text)) == Behind(text)
  {
    hide Awaits, NotAllowAddAndOnEnd;
    LinkOpens(text);
    AwaitsExactly(text + " and ");
  }

  lemma AfterAnd(st: State)
    ensures var mid := Apply(st, And);
            && mid.driver == st.driver && mid.formats == st.formats && mid.args == st.args
            && mid.sql == Behind(st.sql)
            && forall text, values :: Linked(mid, text, values) == Linked(st, text, values)
  {
    hide Awaits, Apply, Behind;
    ConnectiveWritten(st);
    BehindOnce(st.sql);
  }

  lemma SameSlots(a: State, b: State, column: string)
    requires a.driver == b.driver && a.formats == b.formats && a.args == b.args
    ensures forall k :: Slot(a, column, k) == Slot(b, column, k)
    ensures forall n :: Items(a, column, n) == Items(b, column, n)
  {
  }

  /** A condition after `and` is the condition linked to what was there. */
  lemma LinkedOnce(st: State, op: Op, text: string, values: seq<Bson>)
    requires Apply(Apply(st, And), op) == Linked(Apply(st, And), text, values)
    ensures Apply(Apply(st, And), op) == Linked(st, text, values)
  {
    hide *;
    AfterAnd(st);
  }

  /** The words are read in small letters. */
  lemma WordRead(f: SearchField, word: string)
    requires SmallWord(word) && f.operator.Some? && Spells(f.operator.value, word)
    ensures OperatorIn(f) == OperatorOf(word)
  {
    hide Spells, SmallWord, Lower, OperatorOf;
    LowerSpells(f.operator.value, word);
  }

  lemma SmallWords()
    ensures forall word | word in WORDS :: SmallWord(word)
  {
  }

  const SIGNS := map["eq" := " = ", "ne" := " <> ", "gt" := " > ", "egt" := " > ", "lt" := " < ", "elt" := " <= "]

  lemma ComparingRead()
    ensures OperatorOf("eq") == Comparing(Eq) && OperatorOf("ne") == Comparing(Ne)
    ensures OperatorOf("gt") == Comparing(Gt) && OperatorOf("egt") == Comparing(Gt)
    ensures OperatorOf("lt") == Comparing(Lt) && OperatorOf("elt") == Comparing(Le)
  {
  }

  lemma OthersRead()
    ensures OperatorOf("like") == Liking(false) && OperatorOf("not like") == Liking(true)
    ensures OperatorOf("in") == Containing(false) && OperatorOf("not in") == Containing(true)
    ensures OperatorOf("range") == Ranging(false) && OperatorOf("not range") == Ranging(true)
    ensures OperatorOf("null") == Missing(false) && OperatorOf("not null") == Missing(true)
  {
  }

  lemma ComparingMeans(word: string) returns (cmp: Comparison)
    requires word in SIGNS
    ensures word in WORDS && OperatorOf(word) == Comparing(cmp)
    ensures SIGNS[word] == Sign(cmp)
  {
    ComparingRead();
    hide OperatorOf;
    cmp := if word == "eq" then Eq else if word == "ne" then Ne else if word == "lt" then Lt
           else if word == "elt" then Le else Gt;
  }

  lemma SignLinked(st: State, cmp: Comparison, column: string, v: Bson)
    ensures Apply(Apply(st, And), Compare(cmp, column, v))
         == Linked(st, column + Sign(cmp) + Slot(st, column, |st.args| + 1), [v])
  {
    var mid := Apply(st, And);
    hide Apply, Linked, Slot;
    AfterAnd(st);
    SameSlots(st, mid, column);
    ComparisonWritten(mid, column, v);
    LinkedOnce(st, Compare(cmp, column, v), column + Sign(cmp) + Slot(mid, column, |mid.args| + 1), [v]);
  }

  /** The six comparing words, in any letter case, on any column and builder, for any value. */
  lemma ComparingWord(parsers: Parsers, st: State, f: SearchField, word: string)
    requires word in SIGNS && f.operator.Some? && Spells(f.operator.value, word)
    ensures var column := TextOf(f.field);
            Filtered(parsers, st, f)
            == Linked(st, column + SIGNS[word] + Slot(st, column, |st.args| + 1),
                      [BoundAs(parsers, f.fieldType, TextOf(f.val))])
  {
    var column, v := TextOf(f.field), BoundAs(parsers, f.fieldType, TextOf(f.val));
    SmallWords();
    var cmp := ComparingMeans(word);
    WordRead(f, word);
    BoundExactly(parsers, f.fieldType, TextOf(f.val));
    hide OperatorIn, OperatorOf, ToValueInner, BoundAs, Spells, SmallWord, Sign;
    assert Compile(parsers, f) == Emit(Compare(cmp, column, v));
    hide *;
    Emitted(parsers, st, f, Compare(cmp, column, v));
    SignLinked(st, cmp, column, v);
  }

  /** `like` and `not like` bind the patterns. */
  lemma LikeWord(parsers: Parsers, st: State, f: SearchField, negated: bool)
    requires f.operator.Some? && Spells(f.operator.value, if negated then "not like" else "like")
    ensures var column := TextOf(f.field);
            var shown := Shown(BoundAs(parsers, f.fieldType, TextOf(f.val)));
            Filtered(parsers, st, f)
            == Linked(st, column + (if negated then " not like " else " like ") + Slot(st, column, |st.args| + 1),
                      [Str(if negated then "%" + shown + "%" else shown + "%")])
  {
    var column, v, mid := TextOf(f.field), BoundAs(parsers, f.fieldType, TextOf(f.val)), Apply(st, And);
    SmallWords();
    OthersRead();
    WordRead(f, if negated then "not like" else "like");
    BoundExactly(parsers, f.fieldType, TextOf(f.val));
    hide OperatorIn, OperatorOf, ToValueInner, BoundAs, Spells, SmallWord;
    assert Compile(parsers, f) == Emit(Like(negated, column, v));
    hide *;
    Emitted(parsers, st, f, Like(negated, column, v));
    AfterAnd(st);
    SameSlots(st, mid, column);
    LikeWritten(mid, column, v);
    LinkedOnce(st, Like(negated, column, v),
               column + (if negated then " not like " else " like ") + Slot(mid, column, |mid.args| + 1),
               [Str(if negated then "%" + Shown(v) + "%" else Shown(v) + "%")]);
  }

  lemma ListBound(parsers: Parsers, f: SearchField)
    ensures SplitValue(parsers, f) == BoundList(parsers, f.fieldType, Split(TextOf(f.val), ','))
  {
    var parts := Split(TextOf(f.val), ',');
    hide ToValueInner, BoundAs;
    forall i | 0 <= i < |parts|
      ensures ToValueInner(parsers, f.fieldType, parts[i]) == BoundAs(parsers, f.fieldType, parts[i])
    {
      BoundExactly(parsers, f.fieldType, parts[i]);
    }
  }

  /** `in` and `not in` list one placeholder for each part between commas. */
  lemma InWord(parsers: Parsers, st: State, f: SearchField, negated: bool)
    requires f.operator.Some? && Spells(f.operator.value, if negated then "not in" else "in")
    ensures var column, values := TextOf(f.field), BoundList(parsers, f.fieldType, Split(TextOf(f.val), ','));
            Filtered(parsers, st, f)
            == Linked(st, column + (if negated then " not in (" else " in (")
                          + Separated(Items(st, column, |values|), ",") + ")", values)
  {
    var column, values := TextOf(f.field), BoundList(parsers, f.fieldType, Split(TextOf(f.val), ','));
    var mid, op := Apply(st, And), InArray(negated, column, values);
    SmallWords();
    OthersRead();
    WordRead(f, if negated then "not in" else "in");
    ListBound(parsers, f);
    hide OperatorIn, OperatorOf, SplitValue, Spells, SmallWord;
    assert Compile(parsers, f) == Emit(op);
    hide *;
    Emitted(parsers, st, f, op);
    AfterAnd(st);
    SameSlots(st, mid, column);
    InArrayWritten(mid, column, values);
    LinkedOnce(st, op, column + (if negated then " not in (" else " in (")
                       + Separated(Items(mid, column, |values|), ",") + ")", values);
  }

  /** `range` and `not range` bind the first two parts between commas; with one part they fail. */
  lemma RangeWord(parsers: Parsers, st: State, f: SearchField, negated: bool)
    requires f.operator.Some? && Spells(f.operator.value, if negated then "not range" else "range")
    ensures var column, values := TextOf(f.field), BoundList(parsers, f.fieldType, Split(TextOf(f.val), ','));
            var a, b := Slot(st, column, |st.args| + 1), Slot(st, column, |st.args| + 2);
            && (Panics(parsers, [f]) <==> |values| == 1)
            && (|values| > 1 ==>
                  Filtered(parsers, st, f)
                  == Linked(st, column + (if negated then " not between " else " between ") + a + " and " + b,
                            [values[0], values[1]]))
  {
    var column, values := TextOf(f.field), BoundList(parsers, f.fieldType, Split(TextOf(f.val), ','));
    var mid := Apply(st, And);
    SmallWords();
    OthersRead();
    WordRead(f, if negated then "not range" else "range");
    RangeCompiled(parsers, f, negated);
    OnePanics(parsers, f);
    hide *;
    if |values| > 1 {
      var op := Between(negated, column, values[0], values[1]);
      Emitted(parsers, st, f, op);
      AfterAnd(st);
      SameSlots(st, mid, column);
      BetweenWritten(mid, column, values[0], values[1]);
      var a, b := Slot(mid, column, |mid.args| + 1), Slot(mid, column, |mid.args| + 2);
      LinkedOnce(st, op, column + (if negated then " not between " else " between ") + a + " and " + b,
                 [values[0], values[1]]);
    }
  }

  lemma RangeCompiled(parsers: Parsers, f: SearchField, negated: bool)
    requires OperatorIn(f) == Ranging(negated)
    ensures var values := BoundList(parsers, f.fieldType, Split(TextOf(f.val), ','));
            && |values| >= 1
            && Compile(parsers, f)
               == if |values| > 1 then Emit(Between(negated, TextOf(f.field), values[0], values[1])) else Panic
  {
    ListBound(parsers, f);
    hide OperatorIn, SplitValue, BoundAs, Count;
    assert |BoundList(parsers, f.fieldType, Split(TextOf(f.val), ','))| == |Split(TextOf(f.val), ',')|;
  }

  lemma OnePanics(parsers: Parsers, f: SearchField)
    ensures Panics(parsers, [f]) <==> Compile(parsers, f).Panic?
  {
    hide Compile;
    assert [f][0] == f;
  }

  lemma NullWord(parsers: Parsers, st: State, f: SearchField, negated: bool)
    requires f.operator.Some? && Spells(f.operator.value, if negated then "not null" else "null")
    ensures Filtered(parsers, st, f)
         == Linked(st, TextOf(f.field) + (if negated then " is not null" else " is null"), [])
  {
    var op := IsNull(negated, TextOf(f.field));
    SmallWords();
    OthersRead();
    WordRead(f, if negated then "not null" else "null");
    hide OperatorIn, OperatorOf, Spells, SmallWord;
    assert Compile(parsers, f) == Emit(op);
    hide *;
    Emitted(parsers, st, f, op);
    NullTestWritten(Apply(st, And), TextOf(f.field));
    LinkedOnce(st, op, TextOf(f.field) + (if negated then " is not null" else " is null"), []);
  }

  const WORDS := {"eq", "ne", "gt", "egt", "lt", "elt", "like", "not like", "in", "not in", "range", "not range",
                  "null", "not null"}

  /** Without an operator, or with any other word, nothing is written and nothing fails. */
  lemma OtherWord(parsers: Parsers, st: State, f: SearchField)
    requires f.operator.Some? ==> forall word | word in WORDS :: !Spells(f.operator.value, word)
    ensures Filtered(parsers, st, f) == st && !Panics(parsers, [f])
  {
    FilteredBy(parsers, st, f);
    OnePanics(parsers, f);
    hide Filtered, Panics, Spells, Apply;
    if f.operator.Some? {
      forall word | word in WORDS ensures Lower(f.operator.value) != word {
        LowerSpells(f.operator.value, word) by { assert SmallWord(word); }
      }
      hide Lower;
      NotAWord(Lower(f.operator.value));
    }
  }

  lemma NotAWord(w: string)
    requires w !in WORDS
    ensures OperatorOf(w) == Unknown
  {
  }
}

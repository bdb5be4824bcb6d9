/** Programs that splice whole builders and go on building, the spliced ones made the same way:
    the two routes, the placeholders and the bound values over all of them. */
module Nesting {
  import opened Text
  import opened Drivers
  import opened Translator
  import opened References
  import opened Builder
  import opened TwoRoutes
  import opened RoutesExact
  import opened Binding
  import opened Inlining
  import opened Splice
  import opened Rounds
  import opened SpliceSafety
  import opened Numbering

  /** Calls on one builder; `Spliced` fills another one, with its own formats, and pushes it. */
  datatype Program =
    | Done
    | Then(op: Op, next: Program)
    | Spliced(formats: map<string, string>, fragment: Program, next: Program)

  function RunAll(st: State, prog: Program): State
    decreases prog
  {
    match prog
    case Done => st
    case Then(op, next) => RunAll(Apply(st, op), next)
    case Spliced(formats, fragment, next) =>
      var sub := RunAll(Empty(st.driver, formats), fragment);
      RunAll(Push(st, sub.sql, sub.args), next)
  }

  /** The values a program binds, whatever the database. */
  function AllValues(prog: Program): seq<Bson> {
    match prog
    case Done => []
    case Then(op, next) => Values(Pieces(op)) + AllValues(next)
    case Spliced(_, fragment, next) => AllValues(fragment) + AllValues(next)
  }

  // ---- what is asked of the calls, before any is made -------------------------------------------------

  predicate CleanCalls(formats: map<string, string>, prog: Program)
    decreases prog
  {
    match prog
    case Done => true
    case Then(op, next) => Clean(formats, op) && CleanCalls(formats, next)
    case Spliced(f, fragment, next) => CleanCalls(f, fragment) && CleanCalls(formats, next)
  }

  predicate OrderlyCalls(formats: map<string, string>, prog: Program)
    decreases prog
  {
    match prog
    case Done => true
    case Then(op, next) => Orderly(formats, op) && OrderlyCalls(formats, next)
    case Spliced(f, fragment, next) => OrderlyCalls(f, fragment) && OrderlyCalls(formats, next)
  }

  /** Every splice is made at a safe pair of argument counts. */
  predicate SafeSplices(prog: Program, n: nat)
    decreases prog
  {
    match prog
    case Done => true
    case Then(op, next) => SafeSplices(next, n + |Values(Pieces(op))|)
    case Spliced(_, fragment, next) =>
      var k := |AllValues(fragment)|;
      SafeSplices(fragment, 0) && SpliceSafe(k, n) && SafeSplices(next, n + k)
  }

  /** No name, condition or format holds what would read as a placeholder. */
  predicate Fits(formats: map<string, string>, prog: Program)
    decreases prog
  {
    match prog
    case Done => true
    case Then(op, next) => RefFree(formats, op) && Fits(formats, next)
    case Spliced(f, fragment, next) => Fits(f, fragment) && Fits(formats, next)
  }

  /** No fragment whose text starts with a digit is spliced right behind a placeholder. */
  predicate Joints(st: State, prog: Program)
    decreases prog
  {
    match prog
    case Done => true
    case Then(op, next) => Joints(Apply(st, op), next)
    case Spliced(formats, fragment, next) =>
      var start := Empty(st.driver, formats);
      var sub := RunAll(start, fragment);
      Joints(start, fragment) && Joint(st.sql, sub.sql) && Joints(Push(st, sub.sql, sub.args), next)
  }

  // ---- what every program keeps ------------------------------------------------------------------------

  lemma {:induction false} RunAllFrame(st: State, prog: Program)
    ensures var end := RunAll(st, prog);
            end.driver == st.driver && end.formats == st.formats && end.args == st.args + AllValues(prog)
    decreases prog
  {
    hide Apply, Push, Values, Pieces;
    match prog
    case Done =>
    case Then(op, next) =>
      ApplyFrame(st, op);
      RunAllFrame(Apply(st, op), next);
      assert st.args + Values(Pieces(op)) + AllValues(next) == st.args + (Values(Pieces(op)) + AllValues(next));
    case Spliced(formats, fragment, next) =>
      var start := Empty(st.driver, formats);
      var sub := RunAll(start, fragment);
      RunAllFrame(start, fragment);
      PushFrame(st, sub.sql, sub.args);
      RunAllFrame(Push(st, sub.sql, sub.args), next);
      assert start.args == [] && [] + AllValues(fragment) == AllValues(fragment);
      assert st.args + AllValues(fragment) + AllValues(next) == st.args + (AllValues(fragment) + AllValues(next));
  }

  // ---- the placeholders ----------------------------------------------------------------------------------

  predicate InOrder(st: State) {
    Refs(st.sql) == Numerals(1, |st.args|)
  }

  /** The placeholders are in order after every call and splice, those in the fragments included. */
  ghost predicate InOrderAlong(st: State, prog: Program)
    decreases prog
  {
    InOrder(st) &&
    match prog
    case Done => true
    case Then(op, next) => InOrderAlong(Apply(st, op), next)
    case Spliced(formats, fragment, next) =>
      var start := Empty(st.driver, formats);
      var sub := RunAll(start, fragment);
      InOrderAlong(start, fragment) && InOrderAlong(Push(st, sub.sql, sub.args), next)
  }

  lemma {:induction false} EndsInOrder(st: State, prog: Program)
    requires InOrderAlong(st, prog)
    ensures InOrder(RunAll(st, prog))
    decreases prog
  {
    hide InOrder, Apply;
    match prog
    case Done =>
    case Then(op, next) => EndsInOrder(Apply(st, op), next);
    case Spliced(formats, fragment, next) =>
      var sub := RunAll(Empty(st.driver, formats), fragment);
      EndsInOrder(Push(st, sub.sql, sub.args), next);
  }

  lemma CallInOrder(st: State, op: Op)
    requires st.driver == Postgres && InOrder(st) && RefFree(st.formats, op)
    ensures InOrder(Apply(st, op)) <==> Orderly(st.formats, op)
  {
    hide Refs, Numerals, RefFree, Orderly, Apply, Run;
    NumberingExact(st, [op]);
    OneCall(st, op);
  }

  lemma SpliceInOrder(st: State, sub: State)
    requires st.driver == Postgres && InOrder(st) && InOrder(sub)
    ensures InOrder(Push(st, sub.sql, sub.args)) <==> SpliceSafe(|sub.args|, |st.args|) && Joint(st.sql, sub.sql)
  {
    hide Refs, Numerals, Push, SpliceSafe, Joint;
    PushInOrderExactly(st, sub.sql, sub.args);
  }

  /** For every nested program on Postgres: the placeholders are `$1` to `$n` after every call and
      splice if and only if every format used is orderly, every splice is at safe counts, and no
      fragment whose text starts with a digit is spliced right behind a placeholder. */
  lemma {:induction false} NestedInOrderExactly(st: State, prog: Program)
    requires st.driver == Postgres && InOrder(st) && Fits(st.formats, prog)
    ensures InOrderAlong(st, prog)
       <==> OrderlyCalls(st.formats, prog) && SafeSplices(prog, |st.args|) && Joints(st, prog)
    decreases prog
  {
    hide InOrder, Apply, Push, Orderly, RefFree, Joint, SpliceSafe;
    match prog
    case Done =>
    case Then(op, next) =>
      CallInOrder(st, op);
      ApplyFrame(st, op);
      if InOrder(Apply(st, op)) {
        NestedInOrderExactly(Apply(st, op), next);
      } else {
        AlongStarts(Apply(st, op), next);
      }
    case Spliced(formats, fragment, next) =>
      var start := Empty(Postgres, formats);
      var sub := RunAll(start, fragment);
      StartInOrder(formats);
      NestedInOrderExactly(start, fragment);
      RunAllFrame(start, fragment);
      assert sub.args == AllValues(fragment);
      if InOrderAlong(start, fragment) {
        EndsInOrder(start, fragment);
        SpliceInOrder(st, sub);
        PushFrame(st, sub.sql, sub.args);
        if SpliceSafe(|sub.args|, |st.args|) && Joint(st.sql, sub.sql) {
          NestedInOrderExactly(Push(st, sub.sql, sub.args), next);
        } else {
          AlongStarts(Push(st, sub.sql, sub.args), next);
        }
      }
  }

  lemma AlongStarts(st: State, prog: Program)
    ensures InOrderAlong(st, prog) ==> InOrder(st)
  {
  }

  lemma StartInOrder(formats: map<string, string>)
    ensures InOrder(Empty(Postgres, formats))
  {
    EmptyInOrder(formats);
  }

  lemma PushFrame(st: State, sql: string, args: seq<Bson>)
    ensures var end := Push(st, sql, args);
            end.driver == st.driver && end.formats == st.formats && end.args == st.args + args
  {
  }

  // ---- the two routes ------------------------------------------------------------------------------------

  /** The routes agree after every call and splice, those in the fragments included. */
  ghost predicate AgreeAlong(m: State, p: State, prog: Program)
    decreases prog
  {
    Agree(m, p) &&
    match prog
    case Done => true
    case Then(op, next) => AgreeAlong(Apply(m, op), Apply(p, op), next)
    case Spliced(formats, fragment, next) =>
      var startm, startp := Empty(m.driver, formats), Empty(p.driver, formats);
      var subm, subp := RunAll(startm, fragment), RunAll(startp, fragment);
      AgreeAlong(startm, startp, fragment)
      && AgreeAlong(Push(m, subm.sql, subm.args), Push(p, subp.sql, subp.args), next)
  }

  lemma {:induction false} EndsAgreeing(m: State, p: State, prog: Program)
    requires AgreeAlong(m, p, prog)
    ensures Agree(RunAll(m, prog), RunAll(p, prog))
    decreases prog
  {
    hide Agree, Apply;
    match prog
    case Done =>
    case Then(op, next) => EndsAgreeing(Apply(m, op), Apply(p, op), next);
    case Spliced(formats, fragment, next) =>
      var subm, subp := RunAll(Empty(m.driver, formats), fragment), RunAll(Empty(p.driver, formats), fragment);
      EndsAgreeing(Push(m, subm.sql, subm.args), Push(p, subp.sql, subp.args), next);
  }

  lemma AgreeFrame(m: State, p: State)
    requires Agree(m, p)
    ensures UsesMarks(m.driver) && p.driver == Postgres && m.formats == p.formats && m.args == p.args
  {
  }

  /** At every splice the reading of the fragment's `?` text allows it. */
  predicate SplicesRead(m: State, prog: Program)
    decreases prog
  {
    match prog
    case Done => true
    case Then(op, next) => SplicesRead(Apply(m, op), next)
    case Spliced(formats, fragment, next) =>
      var start := Empty(m.driver, formats);
      var sub := RunAll(start, fragment);
      && SplicesRead(start, fragment) && SpliceRight(sub.sql, |sub.args|, |m.args|)
      && SplicesRead(Push(m, sub.sql, sub.args), next)
  }

  /** For every nested program: the two routes agree after every call and splice if and only if
      every call is clean and at every splice the reading of the fragment's text allows it. */
  lemma {:induction false} NestedRoutesExactly(m: State, p: State, prog: Program)
    requires Agree(m, p)
    ensures AgreeAlong(m, p, prog) <==> CleanCalls(m.formats, prog) && SplicesRead(m, prog)
    decreases prog
  {
    hide Agree, Apply, Push, SpliceRight, Clean;
    AgreeFrame(m, p);
    match prog
    case Done =>
    case Then(op, next) =>
      StepAgreesExactly(m, p, op);
      ApplyFrame(m, op);
      if Clean(m.formats, op) {
        NestedRoutesExactly(Apply(m, op), Apply(p, op), next);
      } else {
        AgreeStarts(Apply(m, op), Apply(p, op), next);
      }
    case Spliced(formats, fragment, next) =>
      var startm, startp := Empty(m.driver, formats), Empty(Postgres, formats);
      var subm, subp := RunAll(startm, fragment), RunAll(startp, fragment);
      EmptyAgrees(m.driver, formats);
      NestedRoutesExactly(startm, startp, fragment);
      if AgreeAlong(startm, startp, fragment) {
        EndsAgreeing(startm, startp, fragment);
        SpliceAgreesExactly(m, p, subm, subp);
        PushFrame(m, subm.sql, subm.args);
        if SpliceRight(subm.sql, |subm.args|, |m.args|) {
          NestedRoutesExactly(Push(m, subm.sql, subm.args), Push(p, subp.sql, subp.args), next);
        } else {
          AgreeStarts(Push(m, subm.sql, subm.args), Push(p, subp.sql, subp.args), next);
        }
      }
  }

  /** Where the placeholders are in order all along, that reading is a matter of the counts, and
      they are safe. */
  lemma {:induction false} InOrderReadsAlong(m: State, p: State, prog: Program)
    requires Agree(m, p) && CleanCalls(m.formats, prog) && InOrderAlong(p, prog) && SafeSplices(prog, |m.args|)
    ensures SplicesRead(m, prog)
    decreases prog
  {
    hide Agree, InOrder, Apply, Push, SpliceRight, SpliceSafe, Clean, Values, Pieces, AllValues;
    AgreeFrame(m, p);
    match prog
    case Done =>
    case Then(op, next) =>
      StepAgreesExactly(m, p, op);
      ApplyFrame(m, op);
      InOrderReadsAlong(Apply(m, op), Apply(p, op), next);
    case Spliced(formats, fragment, next) =>
      var startm, startp := Empty(m.driver, formats), Empty(Postgres, formats);
      var subm, subp := RunAll(startm, fragment), RunAll(startp, fragment);
      EmptyAgrees(m.driver, formats);
      InOrderReadsAlong(startm, startp, fragment);
      InOrderSplice(m, p, formats, fragment);
      PushFrame(m, subm.sql, subm.args);
      InOrderReadsAlong(Push(m, subm.sql, subm.args), Push(p, subp.sql, subp.args), next);
  }

  lemma InOrderSplice(m: State, p: State, formats: map<string, string>, fragment: Program)
    requires var startm, startp := Empty(m.driver, formats), Empty(Postgres, formats);
             && Agree(m, p) && CleanCalls(formats, fragment)
             && SplicesRead(startm, fragment) && InOrderAlong(startp, fragment)
             && SpliceSafe(|AllValues(fragment)|, |m.args|)
    ensures var subm := RunAll(Empty(m.driver, formats), fragment);
            var subp := RunAll(Empty(Postgres, formats), fragment);
            && subm.args == AllValues(fragment)
            && SpliceRight(subm.sql, |subm.args|, |m.args|)
            && Agree(Push(m, subm.sql, subm.args), Push(p, subp.sql, subp.args))
  {
    hide Agree, InOrder, Push, SpliceRight, SpliceSafe, RunAll, CleanCalls, SplicesRead, InOrderAlong, AgreeAlong;
    var startm, startp := Empty(m.driver, formats), Empty(Postgres, formats);
    var subm, subp := RunAll(startm, fragment), RunAll(startp, fragment);
    AgreeFrame(m, p);
    EmptyAgrees(m.driver, formats);
    NestedRoutesExactly(startm, startp, fragment);
    EndsAgreeing(startm, startp, fragment);
    EndsInOrder(startp, fragment);
    RunAllFrame(startm, fragment);
    assert [] + AllValues(fragment) == AllValues(fragment);
    FragmentInOrder(subm, subp, |m.args|);
    SpliceAgreesExactly(m, p, subm, subp);
  }

  lemma FragmentInOrder(subm: State, subp: State, n: nat)
    requires Agree(subm, subp) && InOrder(subp)
    ensures SpliceRight(subm.sql, |subm.args|, n) <==> SpliceSafe(|subm.args|, n)
  {
    hide Agree, Refs, Numerals, SpliceRight, SpliceSafe;
    SpliceRightInOrder(subm, subp, n);
  }

  lemma AgreeStarts(m: State, p: State, prog: Program)
    ensures AgreeAlong(m, p, prog) ==> Agree(m, p)
  {
  }

  // ---- what a finished program says ---------------------------------------------------------------------------

  /** The reference builder on nested programs: a fragment is written where it is spliced. */
  function RunInline(formats: map<string, string>, ts: seq<Token>, prog: Program): seq<Token>
    decreases prog
  {
    match prog
    case Done => ts
    case Then(op, next) => RunInline(formats, ApplyT(formats, ts, op), next)
    case Spliced(f, fragment, next) => RunInline(formats, ts + RunInline(f, [], fragment), next)
  }

  predicate Matched(st: State) {
    UsesMarks(st.driver) && Count(st.sql, '?') == |st.args|
  }

  /** For every nested program of clean calls: the SQL with each argument put in place of its `?`
      is what a builder writes that puts the values straight into the text. */
  lemma {:induction false} RunInlines(st: State, prog: Program)
    requires Matched(st) && CleanCalls(st.formats, prog)
    ensures var end := RunAll(st, prog);
            Fill(end.sql, end.args) == RunInline(st.formats, Fill(st.sql, st.args), prog) && Matched(end)
    decreases prog
  {
    hide Fill, Count, Apply, ApplyT, Clean;
    match prog
    case Done =>
    case Then(op, next) =>
      StepInlines(st, op);
      ApplyFrame(st, op);
      RunInlines(Apply(st, op), next);
    case Spliced(formats, fragment, next) =>
      var start := Empty(st.driver, formats);
      var sub := RunAll(start, fragment);
      assert Matched(start) && Fill(start.sql, start.args) == [] by { EmptyMatched(st.driver, formats); }
      RunInlines(start, fragment);
      RunAllFrame(start, fragment);
      FillConcat(st.sql, st.args, sub.sql, sub.args);
      CountConcat(st.sql, sub.sql, '?');
      RunInlines(Push(st, sub.sql, sub.args), next);
  }

  lemma EmptyMatched(driver: Driver, formats: map<string, string>)
    requires UsesMarks(driver)
    ensures Matched(Empty(driver, formats)) && Fill("", []) == []
  {
  }

  /** The text as Postgres reads it: `$k` stands for the k-th argument. */
  function FillDollar(t: string, args: seq<Bson>): seq<Token>
    decreases |t|
  {
    if t == "" then []
    else if t[0] == '$' then
      var d := Digits(t[1..]);
      (if IsRef(d, |args|) then [Arg(args[Val(d) - 1])] else Chars("$" + d)) + FillDollar(t[1 + |d|..], args)
    else [Ch(t[0])] + FillDollar(t[1..], args)
  }

  lemma FillDollarAtMark(k: nat, rest: string, args: seq<Bson>)
    requires 1 <= k <= |args| && Halted(rest)
    ensures FillDollar("$" + Dec(k) + rest, args) == [Arg(args[k - 1])] + FillDollar(rest, args)
  {
    hide *;
    NumeralIsRef(k, rest, |args|);
    FillDollarStep(Dec(k), k, rest, args);
  }

  lemma NumeralIsRef(k: nat, rest: string, n: nat)
    requires 1 <= k <= n && Halted(rest)
    ensures Digits(Dec(k) + rest) == Dec(k) && IsRef(Dec(k), n) && Val(Dec(k)) == k
  {
    ValDec(k);
    DigitsOf(Dec(k), rest);
    hide Dec, Digits, Val;
  }

  lemma FillDollarStep(d: string, k: nat, rest: string, args: seq<Bson>)
    requires AllDigits(d) && Digits(d + rest) == d && IsRef(d, |args|) && Val(d) == k
    ensures FillDollar("$" + d + rest, args) == [Arg(args[k - 1])] + FillDollar(rest, args)
  {
    hide Digits, IsRef, Chars, AllDigits, Val;
    DollarParts(d, rest);
  }

  /** Reading a translated text as Postgres does is filling the arguments into the source. */
  lemma {:induction false} FillNumbered(s: string, args: seq<Bson>, n: nat)
    requires NoDigitAfterMark(s) && Refs(s) == [] && n + Count(s, '?') == |args|
    ensures FillDollar(Numbered(s, n + 1), args) == Fill(s, args[n..])
  {
    hide Numbered, FillDollar, NoDigitAfterMark, Halted, Dec, Refs, Digits;
    NumberedStep(s, n + 1);
    if s == "" {
      assert FillDollar("", args) == [] by { NothingToFill(args); }
    } else {
      var c, tail := s[0], s[1..];
      NoDigitAfterMarkTail(s);
      NoRefHere(s);
      HaltedNumbered(tail, if c == '?' then n + 2 else n + 1);
      if c == '?' {
        FillNumbered(tail, args, n + 1);
        MarkThenHalted(s);
        FillDollarAtMark(n + 1, Numbered(tail, n + 2), args);
        assert args[n..][1..] == args[n + 1..];
      } else {
        FillNumbered(tail, args, n);
        FillDollarAtChar(c, Numbered(tail, n + 1), args);
      }
    }
  }

  /** Where a text shows no placeholder, neither does its tail, and no digit follows a `$`. */
  lemma NoRefHere(s: string)
    requires s != "" && Refs(s) == []
    ensures Refs(s[1..]) == [] && (s[0] == '$' ==> Halted(s[1..]))
  {
    HaltedDigits(s[1..]);
    hide Digits, AllDigits;
    if s[0] == '$' {
      RefsUnfold(s);
    } else {
      assert s == [s[0]] + s[1..];
      RefsAtChar(s[0], s[1..]);
    }
  }

  lemma MarkThenHalted(s: string)
    requires s != "" && s[0] == '?' && NoDigitAfterMark(s)
    ensures Halted(s[1..])
  {
  }

  lemma NothingToFill(args: seq<Bson>)
    ensures FillDollar("", args) == []
  {
  }

  lemma FillDollarAtChar(c: char, rest: string, args: seq<Bson>)
    requires c == '$' ==> Halted(rest)
    ensures FillDollar([c] + rest, args) == [Ch(c)] + FillDollar(rest, args)
  {
    assert ([c] + rest)[1..] == rest;
    HaltedDigits(rest);
    if c == '$' {
      assert !IsRef("", |args|);
      assert Chars("$" + "") == [Ch('$')] by {
        assert "$"[1..] == "";
      }
    }
  }

  /** From end to end, for every nested program whose calls are clean and orderly and whose splices
      are at safe counts: the SQL that Postgres is given, read with its arguments, is what a builder
      writes that puts the values straight into the text. */
  lemma PostgresInlines(formats: map<string, string>, prog: Program)
    requires Fits(formats, prog) && OrderlyCalls(formats, prog) && Joints(Empty(Postgres, formats), prog)
    requires CleanCalls(formats, prog) && SafeSplices(prog, 0)
    ensures var end := RunAll(Empty(Postgres, formats), prog);
            FillDollar(end.sql, end.args) == RunInline(formats, [], prog)
  {
    hide FillDollar, Fill, Count, Numbered, NoDigitAfterMark, Refs, Numerals, Agree;
    var startm, startp := Empty(Mysql, formats), Empty(Postgres, formats);
    var m, p := RunAll(startm, prog), RunAll(startp, prog);
    EmptyAgrees(Mysql, formats);
    EmptyMatched(Mysql, formats);
    StartInOrder(formats);
    NestedInOrderExactly(startp, prog);
    InOrderReadsAlong(startm, startp, prog);
    NestedRoutesExactly(startm, startp, prog);
    EndsAgreeing(startm, startp, prog);
    EndsInOrder(startp, prog);
    FilledInOrder(m, p);
    RunInlines(startm, prog);
  }

  /** Read with its arguments, the text of the one route is the text of the other. */
  lemma FilledInOrder(m: State, p: State)
    requires Agree(m, p) && InOrder(p)
    ensures FillDollar(p.sql, p.args) == Fill(m.sql, m.args)
  {
    hide FillDollar, Fill, Count, Numbered, NoDigitAfterMark, Refs, Numerals;
    InOrderReads(m, p);
    FillNumbered(m.sql, m.args, 0);
    assert m.args[0..] == m.args;
  }
}

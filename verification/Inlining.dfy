/** A builder that writes every value straight into the text, and binds nothing. The text of the
    real builder with its arguments filled in is proved to be what this one writes. */
module Inlining {
  import opened Text
  import opened Translator
  import opened Builder
  import opened TwoRoutes
  import opened Binding

  // ---- the reference builder ------------------------------------------------------------------------

  predicate Blank(t: Token) {
    t.Ch? && IsSpace(t.c)
  }

  function TrimEndT(ts: seq<Token>): seq<Token> {
    if ts == [] || !Blank(ts[|ts| - 1]) then ts else TrimEndT(ts[..|ts| - 1])
  }

  function TrimStartT(ts: seq<Token>): seq<Token> {
    if ts == [] || !Blank(ts[0]) then ts else TrimStartT(ts[1..])
  }

  /** A value is never part of a word. */
  predicate EndsWithT(ts: seq<Token>, p: string) {
    |p| <= |ts| && ts[|ts| - |p|..] == Chars(p)
  }

  function TrimEndMatchesT(ts: seq<Token>, p: string): seq<Token>
    requires p != ""
    decreases |ts|
  {
    if EndsWithT(ts, p) then TrimEndMatchesT(ts[..|ts| - |p|], p) else ts
  }

  function CutTailT(ts: seq<Token>): seq<Token> {
    TrimEndMatchesT(TrimEndMatchesT(TrimEndMatchesT(ts, " where"), " and"), " or")
  }

  predicate NotAllowT(text: seq<Token>) {
    var ts := TrimEndT(text);
    || ts == []
    || EndsWithT(ts, " where") || EndsWithT(ts, " and") || EndsWithT(ts, " or")
    || (ts[|ts| - 1].Ch? && ExpectsOperand(ts[|ts| - 1].c))
  }

  function LinkT(ts: seq<Token>, connective: string): seq<Token> {
    if NotAllowT(ts) then ts else ts + Chars(connective)
  }

  function BaseT(op: Op, ts: seq<Token>): seq<Token> {
    match op
    case And => LinkT(ts, " and ")
    case Or => LinkT(ts, " or ")
    case InArray(_, _, values) => if values == [] then ts else LinkT(ts, " and ")
    case OrderBy(keys) => if keys == [] then ts else CutTailT(TrimEndT(ts))
    case GroupBy(columns) => if columns == [] then ts else CutTailT(TrimEndT(TrimStartT(ts)))
    case Limit(_) => ts
    case _ => LinkT(ts, " and ")
  }

  function ApplyT(formats: map<string, string>, ts: seq<Token>, op: Op): seq<Token> {
    BaseT(op, ts) + Inline(formats, Pieces(op))
  }

  // ---- filling in commutes with what the builder does to its text ------------------------------------

  lemma {:induction false} CharsAt(p: string)
    ensures |Chars(p)| == |p| && forall i | 0 <= i < |p| :: Chars(p)[i] == Ch(p[i])
  {
    if p != "" {
      CharsAt(p[1..]);
    }
  }

  predicate FilledAt(s: string, ts: seq<Token>) {
    |ts| == |s| && forall i | 0 <= i < |s| :: if s[i] == '?' then ts[i].Arg? else ts[i] == Ch(s[i])
  }

  lemma {:induction false} FillAt(s: string, args: seq<Bson>)
    requires Count(s, '?') == |args|
    ensures FilledAt(s, Fill(s, args))
  {
    if s != "" {
      if s[0] == '?' {
        FillAt(s[1..], args[1..]);
      } else {
        FillAt(s[1..], args);
      }
    }
  }

  lemma FilledEndsWith(s: string, ts: seq<Token>, p: string)
    requires FilledAt(s, ts) && '?' !in p
    ensures EndsWithT(ts, p) <==> EndsWith(s, p)
  {
    CharsAt(p);
    hide Chars;
    var k := |s| - |p|;
    if |p| <= |s| {
      var end, word := ts[k..], Chars(p);
      forall i | 0 <= i < |p| ensures end[i] == word[i] <==> s[k..][i] == p[i] {
        assert p[i] in p && end[i] == ts[k + i] && s[k..][i] == s[k + i];
      }
      assert (forall i | 0 <= i < |p| :: end[i] == word[i]) ==> end == word;
      assert (forall i | 0 <= i < |p| :: s[k..][i] == p[i]) ==> s[k..] == p;
    }
  }

  lemma FillSuffix(s: string, p: string, args: seq<Bson>)
    requires EndsWith(s, p) && '?' !in p && Count(s, '?') == |args|
    ensures var s' := s[..|s| - |p|];
            && Count(s', '?') == |args| && |Fill(s, args)| == |s|
            && Fill(s, args)[..|s'|] == Fill(s', args)
  {
    var s' := s[..|s| - |p|];
    assert s == s' + p;
    CountConcat(s', p, '?');
    CountZero(p, '?');
    FillAt(s', args);
    FillAt(s, args);
    hide Fill, Count;
    FillConcat(s', args, p, []);
    assert args + [] == args;
  }

  lemma {:induction false} FillTrimEnd(s: string, args: seq<Bson>)
    requires Count(s, '?') == |args|
    ensures TrimEndT(Fill(s, args)) == Fill(TrimEnd(s), args) && Count(TrimEnd(s), '?') == |args|
  {
    FillAt(s, args);
    hide Fill, Count;
    if s != "" && IsSpace(s[|s| - 1]) {
      var s', c := s[..|s| - 1], s[|s| - 1];
      assert s == s' + [c];
      FillSuffix(s, [c], args);
      FillTrimEnd(s', args);
    }
  }

  lemma {:induction false} FillTrimStart(s: string, args: seq<Bson>)
    requires Count(s, '?') == |args|
    ensures TrimStartT(Fill(s, args)) == Fill(TrimStart(s), args) && Count(TrimStart(s), '?') == |args|
  {
    if s != "" && IsSpace(s[0]) {
      FillTrimStart(s[1..], args);
    }
  }

  lemma {:induction false} FillTrimEndMatches(s: string, p: string, args: seq<Bson>)
    requires Count(s, '?') == |args| && p != "" && '?' !in p
    ensures TrimEndMatchesT(Fill(s, args), p) == Fill(TrimEndMatches(s, p), args)
    ensures Count(TrimEndMatches(s, p), '?') == |args|
    decreases |s|
  {
    FillAt(s, args);
    FilledEndsWith(s, Fill(s, args), p);
    if EndsWith(s, p) {
      FillSuffix(s, p, args);
      hide Fill, Count;
      FillTrimEndMatches(s[..|s| - |p|], p, args);
    }
  }

  lemma FillCutTail(s: string, args: seq<Bson>)
    requires Count(s, '?') == |args|
    ensures CutTailT(Fill(s, args)) == Fill(CutTail(s), args) && Count(CutTail(s), '?') == |args|
  {
    hide Fill, Count, TrimEndMatches, TrimEndMatchesT;
    var w := TrimEndMatches(s, " where");
    FillTrimEndMatches(s, " where", args);
    FillTrimEndMatches(w, " and", args);
    FillTrimEndMatches(TrimEndMatches(w, " and"), " or", args);
  }

  lemma FillVerdict(s: string, args: seq<Bson>)
    requires Count(s, '?') == |args|
    ensures NotAllowT(Fill(s, args)) <==> NotAllowAddAndOnEnd(s)
  {
    hide Fill, Count, TrimEnd, TrimEndT, EndsWith, EndsWithT;
    FillTrimEnd(s, args);
    var t := TrimEnd(s);
    var ts := Fill(t, args);
    FillAt(t, args);
    FilledEndsWith(t, ts, " where");
    FilledEndsWith(t, ts, " and");
    FilledEndsWith(t, ts, " or");
  }

  lemma FillLink(s: string, connective: string, args: seq<Bson>)
    requires Count(s, '?') == |args| && Plain(connective)
    ensures LinkT(Fill(s, args), connective) == Fill(Link(s, connective), args)
    ensures Count(Link(s, connective), '?') == |args|
  {
    hide Fill, Count, NotAllowT, NotAllowAddAndOnEnd, Plain;
    FillVerdict(s, args);
    FillBack(s, connective, args);
    PlainCount(connective);
    CountConcat(s, connective, '?');
  }

  lemma FillBase(op: Op, s: string, args: seq<Bson>)
    requires Count(s, '?') == |args|
    ensures BaseT(op, Fill(s, args)) == Fill(Base(op, s), args)
    ensures Count(Base(op, s), '?') == |args|
  {
    hide Fill, Count, Link, LinkT, CutTail, CutTailT, TrimEnd, TrimEndT, TrimStart, TrimStartT;
    FillLink(s, " and ", args);
    FillLink(s, " or ", args);
    match op
    case OrderBy(_) =>
      FillTrimEnd(s, args);
      FillCutTail(TrimEnd(s), args);
    case GroupBy(_) =>
      FillTrimStart(s, args);
      FillTrimEnd(TrimStart(s), args);
      FillCutTail(Trim(s), args);
    case _ =>
  }

  /** One clean call: its text with the arguments filled in is what the reference builder writes. */
  lemma StepInlines(st: State, op: Op)
    requires UsesMarks(st.driver) && Count(st.sql, '?') == |st.args| && Clean(st.formats, op)
    ensures var end := Apply(st, op);
            && Fill(end.sql, end.args) == ApplyT(st.formats, Fill(st.sql, st.args), op)
            && Count(end.sql, '?') == |end.args|
  {
    hide Fill, Count, Render, Base, BaseT, Pieces, CleanPiece, Values, Inline;
    var ps, n := Pieces(op), |st.args|;
    FillBase(op, st.sql, st.args);
    FillRender(st.driver, st.formats, ps, n);
    NumberedRender(st.driver, st.formats, ps, n);
    FillConcat(Base(op, st.sql), st.args, Render(st.driver, st.formats, ps, n), Values(ps));
    CountConcat(Base(op, st.sql), Render(st.driver, st.formats, ps, n), '?');
  }
}

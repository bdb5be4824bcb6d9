/** The two routes to Postgres SQL: build with `$k` directly, or build with `?` and translate. */
module TwoRoutes {
  import opened Text
  import opened Drivers
  import opened Translator
  import opened Builder

  // ---- the translation changes no decision the builder takes -----------------------------

  lemma PlainKeywords()
    ensures Plain(" where") && Plain(" and") && Plain(" or")
  {
  }

  lemma PlainLink(link: string)
    requires link in ["", " and ", " or "]
    ensures Plain(link) && '?' !in link
  {
  }

  /** The verdict on the end of the text is the same whatever numbers stand at its marks. */
  lemma MarkedVerdict(s: string, js: seq<nat>)
    requires |js| == Count(s, '?')
    ensures NotAllowAddAndOnEnd(Marked(s, js)) <==> NotAllowAddAndOnEnd(s)
  {
    var t := TrimEnd(s);
    MarkedTrimEnd(s, js);
    PlainKeywords();
    MarkedEndsWith(t, " where", js);
    MarkedEndsWith(t, " and", js);
    MarkedEndsWith(t, " or", js);
    MarkedEnd(t, js);
    hide Marked, Count, TrimEnd, EndsWith, Plain;
  }

  /** The last character stays, or is a mark that becomes a digit. */
  lemma MarkedEnd(s: string, js: seq<nat>)
    requires |js| == Count(s, '?')
    ensures var t := Marked(s, js);
            if s == "" then t == ""
            else t != "" && if s[|s| - 1] == '?' then IsDigit(t[|t| - 1]) else t[|t| - 1] == s[|s| - 1]
  {
    if s != "" {
      hide Marked, Count;
      var k := |s| - 1;
      assert s == s[..k] + [s[k]];
      if s[k] == '?' {
        MarkedLast(s, js);
      } else {
        MarkedBefore(s[..k], [s[k]], js);
      }
    }
  }

  lemma MarkedLink(s: string, connective: string, js: seq<nat>)
    requires '?' !in connective && |js| == Count(s, '?')
    ensures Count(Link(s, connective), '?') == |js|
    ensures Link(Marked(s, js), connective) == Marked(Link(s, connective), js)
  {
    hide NotAllowAddAndOnEnd, Marked, Count;
    MarkedVerdict(s, js);
    CountConcat(s, connective, '?');
    CountZero(connective, '?');
    MarkedBefore(s, connective, js);
  }

  lemma MarkedCutTail(s: string, js: seq<nat>)
    requires |js| == Count(s, '?')
    ensures Count(CutTail(s), '?') == |js| && CutTail(Marked(s, js)) == Marked(CutTail(s), js)
  {
    hide TrimEndMatches, Marked, Count;
    PlainKeywords();
    var w := TrimEndMatches(s, " where");
    MarkedTrimEndMatches(s, " where", js);
    MarkedTrimEndMatches(w, " and", js);
    MarkedTrimEndMatches(TrimEndMatches(w, " and"), " or", js);
  }

  /** What a call leaves of the text is the same, whatever numbers stand at its marks. */
  lemma MarkedBase(op: Op, s: string, js: seq<nat>)
    requires |js| == Count(s, '?')
    ensures Count(Base(op, s), '?') == |js| && Base(op, Marked(s, js)) == Marked(Base(op, s), js)
  {
    hide Marked, Count, Link, CutTail, TrimEnd, TrimStart, Plain;
    PlainLink(" and ");
    PlainLink(" or ");
    match op
    case Or => MarkedLink(s, " or ", js);
    case OrderBy(_) =>
      MarkedTrimEnd(s, js);
      MarkedCutTail(TrimEnd(s), js);
    case GroupBy(_) =>
      MarkedTrimStart(s, js);
      MarkedTrimEnd(TrimStart(s), js);
      MarkedCutTail(Trim(s), js);
    case Limit(_) =>
    case _ => MarkedLink(s, " and ", js);
  }

  /** The verdict on the end of the text is the same before and after translation. */
  lemma SameVerdict(s: string, first: nat)
    ensures NotAllowAddAndOnEnd(Numbered(s, first)) <==> NotAllowAddAndOnEnd(s)
  {
    hide Marked, Numbered, Count, NotAllowAddAndOnEnd;
    NumberedIsMarked(s, first);
    MarkedVerdict(s, From(first, Count(s, '?')));
  }

  lemma NumberedBase(op: Op, s: string)
    ensures Base(op, Numbered(s, 1)) == Numbered(Base(op, s), 1)
    ensures Count(Base(op, s), '?') == Count(s, '?')
  {
    hide Marked, Numbered, Count, Base;
    NumberedIsMarked(s, 1);
    NumberedIsMarked(Base(op, s), 1);
    MarkedBase(op, s, From(1, Count(s, '?')));
  }

  // ---- formats ----------------------------------------------------------------------------

  lemma {:induction false} ReplaceCountsMarks(f: string, to: string)
    ensures Count(to, '?') == 0 ==> Count(Replace(f, "{}", to), '?') == Count(f, '?')
    ensures Count(to, '?') == 1 ==> Count(Replace(f, "{}", to), '?') == Count(f, '?') + Occurs(f, "{}")
    decreases |f|
  {
    if |f| >= 2 {
      if "{}" <= f {
        assert f == ['{'] + (['}'] + f[2..]);
        assert f[1..] == ['}'] + f[2..] && f[1..][1..] == f[2..];
        ReplaceCountsMarks(f[2..], to);
        CountConcat(to, Replace(f[2..], "{}", to), '?');
      } else {
        ReplaceCountsMarks(f[1..], to);
        var rest := Replace(f[1..], "{}", to);
        assert ([f[0]] + rest)[1..] == rest;
      }
    }
  }

  /** With exactly one `{}` and no `?`, formatting and numbering commute. */
  lemma {:induction false} NumberedReplace(f: string, k: nat)
    requires '?' !in f && Occurs(f, "{}") <= 1
    ensures Numbered(Replace(f, "{}", "?"), k) == Replace(f, "{}", "$" + Dec(k))
    decreases |f|
  {
    if |f| < 2 || Occurs(f, "{}") == 0 {
      ReplaceNone(f, "{}", "?");
      ReplaceNone(f, "{}", "$" + Dec(k));
      NumberedIdentity(f, k);
    } else if "{}" <= f {
      var rest := f[2..];
      ReplaceNone(rest, "{}", "?");
      ReplaceNone(rest, "{}", "$" + Dec(k));
      assert ("?" + rest)[1..] == rest;
      NumberedIdentity(rest, k + 1);
    } else {
      NumberedReplace(f[1..], k);
      var r := Replace(f[1..], "{}", "?");
      assert ([f[0]] + r)[1..] == r;
      assert f[0] in f;
    }
  }

  // ---- clean calls ------------------------------------------------------------------------

  /** How many placeholders one argument of the column gets. */
  function HolesPerArg(formats: map<string, string>, column: string): nat {
    if column in formats then Occurs(formats[column], "{}") else 1
  }

  predicate MarkFreePiece(formats: map<string, string>, p: Piece) {
    match p
    case Lit(text) => '?' !in text
    case Hole(column, _) => column in formats ==> '?' !in formats[column]
  }

  predicate CleanPiece(formats: map<string, string>, p: Piece) {
    MarkFreePiece(formats, p) && (p.Hole? ==> HolesPerArg(formats, p.column) == 1)
  }

  /** No `?` in the names and formats used, and each format used holds exactly one `{}`. */
  predicate Clean(formats: map<string, string>, op: Op) {
    forall p | p in Pieces(op) :: CleanPiece(formats, p)
  }

  predicate UsesMarks(driver: Driver) {
    driver == Mysql || driver == Sqlite
  }

  lemma NumberedPiece(driver: Driver, formats: map<string, string>, p: Piece, n: nat)
    requires UsesMarks(driver) && CleanPiece(formats, p)
    ensures Numbered(PieceText(driver, formats, p, n), n + 1) == PieceText(Postgres, formats, p, n)
    ensures Count(PieceText(driver, formats, p, n), '?') == |Bound(p)|
  {
    match p
    case Lit(text) =>
      CountZero(text, '?');
      NumberedIdentity(text, n + 1);
    case Hole(column, _) =>
      assert "?"[1..] == "" && Count("?", '?') == 1;
      if column in formats {
        NumberedReplace(formats[column], n + 1);
        ReplaceCountsMarks(formats[column], "?");
        CountZero(formats[column], '?');
      }
  }

  lemma {:induction false} NumberedRender(driver: Driver, formats: map<string, string>, ps: seq<Piece>, n: nat)
    requires UsesMarks(driver)
    requires forall p | p in ps :: CleanPiece(formats, p)
    ensures Numbered(Render(driver, formats, ps, n), n + 1) == Render(Postgres, formats, ps, n)
    ensures Count(Render(driver, formats, ps, n), '?') == |Values(ps)|
  {
    hide PieceText, CleanPiece, Bound, Render, Values;
    if ps == [] {
      NothingRendered(driver, formats, n);
      NothingRendered(Postgres, formats, n);
    } else {
      hide Numbered, Count;
      assert ps[0] in ps;
      RenderStep(driver, formats, ps, n);
      RenderStep(Postgres, formats, ps, n);
      var head, next := PieceText(driver, formats, ps[0], n), n + |Bound(ps[0])|;
      var rest := Render(driver, formats, ps[1..], next);
      NumberedPiece(driver, formats, ps[0], n);
      NumberedRender(driver, formats, ps[1..], next);
      NumberedConcat(head, rest, n + 1);
      CountConcat(head, rest, '?');
    }
  }

  // ---- the two routes ----------------------------------------------------------------------

  /** The `?` state and the `$` state tell the same story, and every argument has its `?`. */
  predicate Agree(m: State, p: State) {
    && UsesMarks(m.driver) && p.driver == Postgres && m.formats == p.formats
    && p.sql == Numbered(m.sql, 1)
    && p.args == m.args
    && Count(m.sql, '?') == |m.args|
  }

  lemma AppliedText(m: State, p: State, op: Op)
    requires Agree(m, p)
    ensures var ps, n := Pieces(op), |m.args|;
            && Apply(p, op).sql == Numbered(Base(op, m.sql), 1) + Render(Postgres, m.formats, ps, n)
            && Numbered(Apply(m, op).sql, 1)
               == Numbered(Base(op, m.sql), 1) + Numbered(Render(m.driver, m.formats, ps, n), n + 1)
            && Count(Apply(m, op).sql, '?') == n + Count(Render(m.driver, m.formats, ps, n), '?')
  {
    var ps, n := Pieces(op), |m.args|;
    NumberedBase(op, m.sql);
    NumberedConcat(Base(op, m.sql), Render(m.driver, m.formats, ps, n), 1);
    CountConcat(Base(op, m.sql), Render(m.driver, m.formats, ps, n), '?');
  }

  lemma StepAgrees(m: State, p: State, op: Op)
    requires Agree(m, p) && Clean(m.formats, op)
    ensures Agree(Apply(m, op), Apply(p, op))
  {
    hide Base, Pieces, Render, Numbered, Count;
    AppliedText(m, p, op);
    NumberedRender(m.driver, m.formats, Pieces(op), |m.args|);
  }

  lemma {:induction false} RunAgrees(m: State, p: State, ops: seq<Op>)
    requires Agree(m, p) && forall op | op in ops :: Clean(m.formats, op)
    ensures Agree(Run(m, ops), Run(p, ops))
    decreases |ops|
  {
    if ops != [] {
      assert ops[0] in ops;
      StepAgrees(m, p, ops[0]);
      RunAgrees(Apply(m, ops[0]), Apply(p, ops[0]), ops[1..]);
    }
  }

  /** For every program of clean calls the translated `?` SQL is the `$` SQL, character for
      character, and the arguments are the same. */
  lemma RoutesCommute(driver: Driver, formats: map<string, string>, ops: seq<Op>)
    requires UsesMarks(driver) && forall op | op in ops :: Clean(formats, op)
    ensures Numbered(Run(Empty(driver, formats), ops).sql, 1) == Run(Empty(Postgres, formats), ops).sql
    ensures Run(Empty(driver, formats), ops).args == Run(Empty(Postgres, formats), ops).args
  {
    RunAgrees(Empty(driver, formats), Empty(Postgres, formats), ops);
  }
}

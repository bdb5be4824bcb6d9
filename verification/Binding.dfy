/** Every value a call binds lands in its own place: the text with its arguments filled in. */
module Binding {
  import opened Text
  import opened Drivers
  import opened Translator
  import opened Builder
  import opened TwoRoutes

  datatype Token = Ch(c: char) | Arg(v: Bson)

  function Chars(s: string): seq<Token> {
    if s == "" then [] else [Ch(s[0])] + Chars(s[1..])
  }

  /** The text with the k-th argument in place of the k-th `?`. */
  function Fill(s: string, args: seq<Bson>): seq<Token> {
    if s == "" then []
    else if s[0] == '?' && args != [] then [Arg(args[0])] + Fill(s[1..], args[1..])
    else [Ch(s[0])] + Fill(s[1..], args)
  }

  /** A format with the value itself in place of its `{}`. */
  function InlineFormat(f: string, v: Bson): seq<Token> {
    if |f| < 2 then Chars(f)
    else if "{}" <= f then [Arg(v)] + InlineFormat(f[2..], v)
    else [Ch(f[0])] + InlineFormat(f[1..], v)
  }

  function InlinePiece(formats: map<string, string>, p: Piece): seq<Token> {
    match p
    case Lit(text) => Chars(text)
    case Hole(column, v) => if column in formats then InlineFormat(formats[column], v) else [Arg(v)]
  }

  /** What an operation says, with every value written where its column's hole is. */
  function Inline(formats: map<string, string>, ps: seq<Piece>): seq<Token> {
    if ps == [] then [] else InlinePiece(formats, ps[0]) + Inline(formats, ps[1..])
  }

  lemma {:induction false} FillPlain(s: string, args: seq<Bson>)
    requires '?' !in s
    ensures Fill(s, args) == Chars(s)
  {
    if s != "" {
      FillPlain(s[1..], args);
    }
  }

  lemma {:induction false} FillConcat(a: string, x: seq<Bson>, b: string, y: seq<Bson>)
    requires Count(a, '?') == |x|
    ensures Fill(a + b, x + y) == Fill(a, x) + Fill(b, y)
  {
    hide *;
    if a == "" {
      NothingFilled(x);
      assert a + b == b && x + y == y;
    } else {
      var c, t, rest := a[0], a[1..], a[1..] + b;
      assert a == [c] + t && a + b == [c] + rest;
      FillStep(c, t, x);
      FillStep(c, rest, x + y);
      if c == '?' {
        assert (x + y)[1..] == x[1..] + y && (x + y)[0] == x[0];
        FillConcat(t, x[1..], b, y);
        assert [Arg(x[0])] + (Fill(t, x[1..]) + Fill(b, y)) == [Arg(x[0])] + Fill(t, x[1..]) + Fill(b, y);
      } else {
        FillConcat(t, x, b, y);
        assert [Ch(c)] + (Fill(t, x) + Fill(b, y)) == [Ch(c)] + Fill(t, x) + Fill(b, y);
      }
    }
  }

  lemma NothingFilled(args: seq<Bson>)
    ensures Fill("", args) == [] && Count("", '?') == 0
  {
  }

  lemma FillStep(c: char, t: string, args: seq<Bson>)
    ensures Count([c] + t, '?') == (if c == '?' then 1 else 0) + Count(t, '?')
    ensures Fill([c] + t, args)
         == if c == '?' && args != [] then [Arg(args[0])] + Fill(t, args[1..]) else [Ch(c)] + Fill(t, args)
  {
    assert ([c] + t)[1..] == t;
  }

  lemma {:induction false} InlineWithout(f: string, v: Bson)
    requires Occurs(f, "{}") == 0
    ensures InlineFormat(f, v) == Chars(f)
  {
    if |f| >= 2 {
      InlineWithout(f[1..], v);
    }
  }

  lemma {:induction false} FillFormat(f: string, v: Bson)
    requires '?' !in f && Occurs(f, "{}") == 1
    ensures Fill(Replace(f, "{}", "?"), [v]) == InlineFormat(f, v)
    decreases |f|
  {
    if "{}" <= f {
      var rest := f[2..];
      ReplaceNone(rest, "{}", "?");
      assert ("?" + rest)[1..] == rest && [v][1..] == [];
      FillPlain(rest, []);
      InlineWithout(rest, v);
    } else {
      FillFormat(f[1..], v);
      assert f[0] in f;
      var r := Replace(f[1..], "{}", "?");
      assert ([f[0]] + r)[1..] == r;
    }
  }

  lemma FillPiece(driver: Driver, formats: map<string, string>, p: Piece, n: nat)
    requires UsesMarks(driver) && CleanPiece(formats, p)
    ensures Fill(PieceText(driver, formats, p, n), Bound(p)) == InlinePiece(formats, p)
  {
    match p
    case Lit(text) => FillPlain(text, []);
    case Hole(column, v) =>
      if column in formats {
        FillFormat(formats[column], v);
      } else {
        assert "?"[1..] == "" && [v][1..] == [] && Fill("", []) == [];
      }
  }

  lemma {:induction false} FillRender(driver: Driver, formats: map<string, string>, ps: seq<Piece>, n: nat)
    requires UsesMarks(driver) && forall p | p in ps :: CleanPiece(formats, p)
    ensures Fill(Render(driver, formats, ps, n), Values(ps)) == Inline(formats, ps)
  {
    hide PieceText, CleanPiece, InlinePiece, Bound;
    if ps == [] {
      assert Render(driver, formats, ps, n) == "";
    } else {
      assert ps[0] in ps;
      var next := n + |Bound(ps[0])|;
      NumberedPiece(driver, formats, ps[0], n);
      FillPiece(driver, formats, ps[0], n);
      FillRender(driver, formats, ps[1..], next);
      hide Fill;
      var text, rest := PieceText(driver, formats, ps[0], n), Render(driver, formats, ps[1..], next);
      FillConcat(text, Bound(ps[0]), rest, Values(ps[1..]));
    }
  }

  // ---- what an operation leaves of the text before it ---------------------------------------------

  lemma PlainBlank(c: char)
    requires IsSpace(c)
    ensures Plain([c])
  {
  }

  lemma PlainConcat(a: string, b: string)
    requires Plain(a) && Plain(b)
    ensures Plain(a + b)
  {
  }

  lemma EndsApart(s: string, p: string)
    requires EndsWith(s, p)
    ensures |p| <= |s| && s == s[..|s| - |p|] + p
  {
  }

  lemma {:induction false} TrimEndCuts(s: string) returns (cut: string)
    ensures s == TrimEnd(s) + cut && Plain(cut)
  {
    cut := "";
    if s != "" && IsSpace(s[|s| - 1]) {
      hide Plain;
      var s', c := s[..|s| - 1], s[|s| - 1];
      var rest := TrimEndCuts(s');
      PlainBlank(c);
      PlainConcat(rest, [c]);
      cut := rest + [c];
      assert s == s' + [c];
    }
  }

  lemma {:induction false} TrimStartCuts(s: string) returns (cut: string)
    ensures s == cut + TrimStart(s) && Plain(cut)
  {
    cut := "";
    if s != "" && IsSpace(s[0]) {
      var rest := TrimStartCuts(s[1..]);
      cut := [s[0]] + rest;
      assert s == [s[0]] + s[1..];
    }
  }

  lemma {:induction false} TrimEndMatchesCuts(s: string, p: string) returns (cut: string)
    requires p != "" && Plain(p)
    ensures s == TrimEndMatches(s, p) + cut && Plain(cut)
    decreases |s|
  {
    cut := "";
    if EndsWith(s, p) {
      hide Plain, EndsWith;
      var s' := s[..|s| - |p|];
      assert s == s' + p by { EndsApart(s, p); }
      var rest := TrimEndMatchesCuts(s', p);
      PlainConcat(rest, p);
      cut := rest + p;
    }
  }

  lemma CutTailCuts(s: string) returns (cut: string)
    ensures s == CutTail(s) + cut && Plain(cut)
  {
    hide TrimEndMatches;
    PlainKeywords();
    var w := TrimEndMatches(s, " where");
    var a := TrimEndMatches(w, " and");
    var c1 := TrimEndMatchesCuts(s, " where");
    var c2 := TrimEndMatchesCuts(w, " and");
    var c3 := TrimEndMatchesCuts(a, " or");
    cut := c3 + c2 + c1;
  }

  /** Only blanks and keywords at the ends are cut, and at most a connective is added. */
  lemma BaseCuts(op: Op, s: string) returns (front: string, kept: string, back: string, link: string)
    ensures s == front + kept + back && Base(op, s) == kept + link
    ensures Plain(front) && Plain(back) && link in ["", " and ", " or "]
  {
    hide CutTail, TrimEnd, TrimStart, NotAllowAddAndOnEnd;
    front, kept, back, link := "", s, "", "";
    match op
    case Or => link := if NotAllowAddAndOnEnd(s) then "" else " or ";
    case InArray(_, _, values) => link := if values == [] || NotAllowAddAndOnEnd(s) then "" else " and ";
    case OrderBy(keys) =>
      if keys != [] {
        var c1 := TrimEndCuts(s);
        var c2 := CutTailCuts(TrimEnd(s));
        kept, back := CutTail(TrimEnd(s)), c2 + c1;
      }
    case GroupBy(columns) =>
      if columns != [] {
        front := TrimStartCuts(s);
        var c1 := TrimEndCuts(TrimStart(s));
        var c2 := CutTailCuts(Trim(s));
        kept, back := CutTail(Trim(s)), c2 + c1;
        assert s == front + (kept + (c2 + c1));
      }
    case Limit(_) =>
    case _ => link := if NotAllowAddAndOnEnd(s) then "" else " and ";
  }

  lemma FillFront(front: string, rest: string, args: seq<Bson>)
    requires Plain(front)
    ensures Fill(front + rest, args) == Chars(front) + Fill(rest, args)
  {
    FillPlain(front, []);
    PlainCount(front);
    hide Fill, Chars, Plain;
    FillConcat(front, [], rest, args);
    assert [] + args == args;
  }

  lemma FillBack(kept: string, back: string, args: seq<Bson>)
    requires Plain(back) && Count(kept, '?') == |args|
    ensures Fill(kept + back, args) == Fill(kept, args) + Chars(back)
  {
    FillPlain(back, []);
    hide Fill, Chars, Plain;
    FillConcat(kept, args, back, []);
    assert args + [] == args;
  }

  /** One call on the filled-in text: every earlier value stays where it was, only plain text at
      the ends is cut and at most a connective is added, and behind it stands what the call says,
      with each of its values in its own column's hole. */
  lemma StepBinds(st: State, op: Op) returns (front: string, kept: string, back: string, link: string)
    requires UsesMarks(st.driver) && Count(st.sql, '?') == |st.args| && Clean(st.formats, op)
    ensures Plain(front) && Plain(back) && link in ["", " and ", " or "]
    ensures Fill(st.sql, st.args) == Chars(front) + Fill(kept, st.args) + Chars(back)
    ensures Fill(Apply(st, op).sql, Apply(st, op).args)
         == Fill(kept, st.args) + Chars(link) + Inline(st.formats, Pieces(op))
  {
    hide Fill, Chars, Render, Base, Plain, Pieces, CleanPiece, Values, Inline, Count;
    var ps, n := Pieces(op), |st.args|;
    front, kept, back, link := BaseCuts(op, st.sql);
    PlainLink(link);
    PlainCount(front);
    PlainCount(back);
    PlainCount(link);
    CountConcat(front + kept, back, '?');
    CountConcat(front, kept, '?');
    CountConcat(kept, link, '?');
    FillFront(front, kept + back, st.args);
    FillBack(kept, back, st.args);
    FillBack(kept, link, st.args);
    assert front + kept + back == front + (kept + back);
    FillRender(st.driver, st.formats, ps, n);
    FillConcat(kept + link, st.args, Render(st.driver, st.formats, ps, n), Values(ps));
  }

  lemma PlainCount(s: string)
    requires Plain(s)
    ensures Count(s, '?') == 0
  {
    CountZero(s, '?');
  }
}

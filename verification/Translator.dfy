/** `rbatis_compatible_sql`: SQL written with `?` becomes SQL written with `$1`, `$2`, ...
    when the database is Postgres. */
module Translator {
  import opened Text
  import opened Drivers

  /** The meaning of the translation: the k-th `?` of `s` becomes `$` followed by `first + k`. */
  function Numbered(s: string, first: nat): string {
    if s == "" then ""
    else if s[0] == '?' then "$" + Dec(first) + Numbered(s[1..], first + 1)
    else [s[0]] + Numbered(s[1..], first)
  }

  /** The parts of a split, joined by the numerals counting from `first`. */
  function Rejoin(parts: seq<string>, first: nat): string
    requires parts != []
  {
    if |parts| == 1 then parts[0] else parts[0] + "$" + Dec(first) + Rejoin(parts[1..], first + 1)
  }

  lemma {:induction false} RejoinSplit(s: string, first: nat)
    ensures Rejoin(Split(s, '?'), first) == Numbered(s, first)
  {
    hide Dec, Count;
    if s == "" {
    } else if s[0] == '?' {
      RejoinSplit(s[1..], first + 1);
      assert Split(s, '?') == [""] + Split(s[1..], '?');
    } else {
      RejoinSplit(s[1..], first);
      hide Split;
      RejoinPrepend(s[0], Split(s[1..], '?'), first);
      SplitPlain(s, '?');
    }
  }

  lemma SplitPlain(s: string, sep: char)
    requires s != "" && s[0] != sep
    ensures var rest := Split(s[1..], sep); Split(s, sep) == [[s[0]] + rest[0]] + rest[1..]
  {
  }

  lemma RejoinPrepend(c: char, parts: seq<string>, first: nat)
    requires parts != []
    ensures Rejoin([[c] + parts[0]] + parts[1..], first) == [c] + Rejoin(parts, first)
  {
    hide Dec;
    var all := [[c] + parts[0]] + parts[1..];
    if |parts| > 1 {
      assert all[1..] == parts[1..];
      var tail := Rejoin(parts[1..], first + 1);
      assert [c] + parts[0] + "$" + Dec(first) + tail == [c] + (parts[0] + "$" + Dec(first) + tail);
    }
  }

  lemma RejoinSnoc(parts: seq<string>, next: string, first: nat)
    requires parts != []
    ensures Rejoin(parts + [next], first) == Rejoin(parts, first) + "$" + Dec(first + |parts| - 1) + next
  {
    if |parts| > 1 {
      assert (parts + [next])[1..] == parts[1..] + [next];
      RejoinSnoc(parts[1..], next, first + 1);
    } else {
      assert (parts + [next])[1..] == [next];
    }
  }

  /** `None` stands for a connection whose driver type cannot be read. */
  method CompatibleSql(driver: Option<Driver>, sql: string) returns (out: string)
    ensures out == if driver == Some(Postgres) then Numbered(sql, 1) else sql
  {
    match driver
    case Some(Postgres) =>
      var sqlOut := "";
      var parts := Split(sql, '?');
      var count := |parts|;
      var i := 1;
      while i <= count
        invariant 1 <= i <= count + 1
        invariant i == 1 ==> sqlOut == ""
        invariant 1 < i <= count ==> sqlOut == Rejoin(parts[..i - 1], 1) + "$" + Dec(i - 1)
        invariant i == count + 1 ==> sqlOut == Rejoin(parts, 1)
      {
        if i > 1 {
          RejoinSnoc(parts[..i - 1], parts[i - 1], 1);
          assert parts[..i] == parts[..i - 1] + [parts[i - 1]];
        }
        assert i == count ==> parts[..i] == parts;
        sqlOut := sqlOut + parts[i - 1];
        if i < count {
          sqlOut := sqlOut + "$" + Dec(i);
        }
        i := i + 1;
      }
      RejoinSplit(sql, 1);
      out := sqlOut;
    case _ =>
      out := sql;
  }

  // ---- laws of the translation --------------------------------------------------------

  lemma {:induction false} NumberedConcat(a: string, b: string, first: nat)
    ensures Numbered(a + b, first) == Numbered(a, first) + Numbered(b, first + Count(a, '?'))
  {
    if a == "" {
      assert a + b == b;
    } else {
      assert (a + b)[1..] == a[1..] + b;
      NumberedConcat(a[1..], b, if a[0] == '?' then first + 1 else first);
    }
  }

  lemma {:induction false} NumberedHasNoMark(s: string, first: nat)
    ensures '?' !in Numbered(s, first)
  {
    if s != "" {
      NumberedHasNoMark(s[1..], if s[0] == '?' then first + 1 else first);
    }
  }

  lemma {:induction false} NumberedIdentity(s: string, first: nat)
    requires '?' !in s
    ensures Numbered(s, first) == s
  {
    if s != "" {
      NumberedIdentity(s[1..], first);
    }
  }

  /** Translating twice is translating once. */
  lemma NumberedIdempotent(s: string, first: nat, again: nat)
    ensures Numbered(Numbered(s, first), again) == Numbered(s, first)
  {
    NumberedHasNoMark(s, first);
    NumberedIdentity(Numbered(s, first), again);
  }

  /** Reads `$first`, `$first+1`, ... in turn as `?`. */
  function Denumbered(t: string, next: nat): string
    decreases |t|
  {
    if t == "" then ""
    else if "$" + Dec(next) <= t then "?" + Denumbered(t[1 + |Dec(next)|..], next + 1)
    else [t[0]] + Denumbered(t[1..], next)
  }

  /** Nothing is lost: every `$`-free source is recovered from its translation. */
  lemma {:induction false} DenumberedNumbered(s: string, first: nat)
    requires '$' !in s
    ensures Denumbered(Numbered(s, first), first) == s
  {
    if s != "" {
      var rest := Numbered(s[1..], if s[0] == '?' then first + 1 else first);
      DenumberedNumbered(s[1..], if s[0] == '?' then first + 1 else first);
      if s[0] == '?' {
        var mark := "$" + Dec(first);
        assert (mark + rest)[|mark|..] == rest;
        assert mark <= mark + rest;
      } else {
        assert ([s[0]] + rest)[1..] == rest;
        assert s[0] in s;
      }
    }
  }

  // ---- any numbers at the marks ------------------------------------------------------------

  /** The text with `$js[k]` in place of its k-th `?`. */
  function Marked(s: string, js: seq<nat>): string
    requires |js| == Count(s, '?')
  {
    if s == "" then ""
    else if s[0] == '?' then "$" + Dec(js[0]) + Marked(s[1..], js[1..])
    else [s[0]] + Marked(s[1..], js)
  }

  function From(first: nat, n: nat): seq<nat>
    decreases n
  {
    if n == 0 then [] else [first] + From(first + 1, n - 1)
  }

  lemma {:induction false} FromLength(first: nat, n: nat)
    ensures |From(first, n)| == n
    decreases n
  {
    if n > 0 {
      FromLength(first + 1, n - 1);
    }
  }

  lemma {:induction false} NumberedIsMarked(s: string, first: nat)
    ensures |From(first, Count(s, '?'))| == Count(s, '?')
    ensures Numbered(s, first) == Marked(s, From(first, Count(s, '?')))
  {
    FromLength(first, Count(s, '?'));
    if s != "" {
      NumberedIsMarked(s[1..], if s[0] == '?' then first + 1 else first);
    }
  }

  lemma {:induction false} MarkedConcat(a: string, js: seq<nat>, b: string, ks: seq<nat>)
    requires |js| == Count(a, '?') && |ks| == Count(b, '?')
    ensures Count(a + b, '?') == |js + ks|
    ensures Marked(a + b, js + ks) == Marked(a, js) + Marked(b, ks)
  {
    CountConcat(a, b, '?');
    if a == "" {
      assert a + b == b && js + ks == ks;
    } else {
      assert (a + b)[1..] == a[1..] + b;
      if a[0] == '?' {
        assert (js + ks)[1..] == js[1..] + ks;
        MarkedConcat(a[1..], js[1..], b, ks);
      } else {
        MarkedConcat(a[1..], js, b, ks);
      }
    }
  }

  lemma {:induction false} MarkFreeIsMarked(s: string)
    requires '?' !in s
    ensures Count(s, '?') == 0 && Marked(s, []) == s
  {
    if s != "" {
      MarkFreeIsMarked(s[1..]);
    }
  }

  // ---- the numbers do not disturb text at the ends ---------------------------------------

  /** Text that no placeholder can be part of. */
  predicate Plain(p: string) {
    forall c | c in p :: c != '?' && c != '$' && !IsDigit(c)
  }

  lemma MarkedBefore(s: string, p: string, js: seq<nat>)
    requires '?' !in p && |js| == Count(s + p, '?')
    ensures Count(s, '?') == |js| && Marked(s + p, js) == Marked(s, js) + p
  {
    hide Marked, Count;
    MarkFreeIsMarked(p);
    CountConcat(s, p, '?');
    MarkedConcat(s, js, p, []);
    assert js + [] == js;
  }

  /** A text that ends in a mark becomes one that ends in a digit. */
  lemma MarkedLast(s: string, js: seq<nat>)
    requires s != "" && s[|s| - 1] == '?' && |js| == Count(s, '?')
    ensures var t := Marked(s, js); t != "" && IsDigit(t[|t| - 1])
  {
    var s', k := s[..|s| - 1], |js| - 1;
    assert s == s' + "?" && "?"[1..] == "";
    assert Count("?", '?') == 1;
    CountConcat(s', "?", '?');
    var num := Dec(js[k]);
    assert Marked("?", [js[k]]) == "$" + num by {
      assert [js[k]][1..] == [] && Marked("", []) == "";
    }
    hide Marked, Count, Dec;
    MarkedConcat(s', js[..k], "?", [js[k]]);
    assert js == js[..k] + [js[k]];
    assert num[|num| - 1] in num;
  }

  lemma EndsWithSnoc(s: string, c: char, p: string, e: char)
    ensures EndsWith(s + [c], p + [e]) <==> c == e && EndsWith(s, p)
  {
    if |p| <= |s| {
      var k := |s| - |p|;
      assert (s + [c])[k..] == s[k..] + [c];
      assert (s + [c])[k..][|p|] == c;
      assert (p + [e])[|p|] == e && (p + [e])[..|p|] == p;
      assert (s[k..] + [c])[..|p|] == s[k..];
    }
  }

  lemma {:induction false} MarkedEndsWith(s: string, p: string, js: seq<nat>)
    requires Plain(p) && |js| == Count(s, '?')
    ensures EndsWith(Marked(s, js), p) <==> EndsWith(s, p)
  {
    hide EndsWith;
    if s == "" {
      assert Marked(s, js) == s;
    } else if p == "" {
      EndsInNothing(s);
      EndsInNothing(Marked(s, js));
    } else {
      hide Marked, Count;
      var s', c := s[..|s| - 1], s[|s| - 1];
      var p', e := p[..|p| - 1], p[|p| - 1];
      assert s == s' + [c] && p == p' + [e] && e in p;
      EndsWithSnoc(s', c, p', e);
      if c == '?' {
        MarkedLast(s, js);
        var t := Marked(s, js);
        assert t == t[..|t| - 1] + [t[|t| - 1]];
        EndsWithSnoc(t[..|t| - 1], t[|t| - 1], p', e);
      } else {
        MarkedBefore(s', [c], js);
        assert forall x | x in p' :: x in p;
        MarkedEndsWith(s', p', js);
        EndsWithSnoc(Marked(s', js), c, p', e);
      }
    }
  }

  lemma EndsInNothing(s: string)
    ensures EndsWith(s, "")
  {
  }

  lemma {:induction false} MarkedTrimEnd(s: string, js: seq<nat>)
    requires |js| == Count(s, '?')
    ensures Count(TrimEnd(s), '?') == |js| && TrimEnd(Marked(s, js)) == Marked(TrimEnd(s), js)
  {
    if s == "" {
      assert Marked(s, js) == s;
    } else {
      hide Marked, Count;
      var s', c := s[..|s| - 1], s[|s| - 1];
      var t := Marked(s, js);
      assert s == s' + [c];
      if c == '?' {
        MarkedLast(s, js);
      } else {
        MarkedBefore(s', [c], js);
        assert t[..|t| - 1] == Marked(s', js);
        if IsSpace(c) {
          MarkedTrimEnd(s', js);
        }
      }
    }
  }

  lemma {:induction false} MarkedTrimStart(s: string, js: seq<nat>)
    requires |js| == Count(s, '?')
    ensures Count(TrimStart(s), '?') == |js| && TrimStart(Marked(s, js)) == Marked(TrimStart(s), js)
  {
    if s != "" && IsSpace(s[0]) {
      MarkedTrimStart(s[1..], js);
    }
  }

  lemma {:induction false} MarkedTrimEndMatches(s: string, p: string, js: seq<nat>)
    requires p != "" && Plain(p) && |js| == Count(s, '?')
    ensures Count(TrimEndMatches(s, p), '?') == |js|
    ensures TrimEndMatches(Marked(s, js), p) == Marked(TrimEndMatches(s, p), js)
    decreases |s|
  {
    hide Marked, Count;
    MarkedEndsWith(s, p, js);
    if EndsWith(s, p) {
      var s', t := s[..|s| - |p|], Marked(s, js);
      assert s == s' + p;
      MarkedBefore(s', p, js);
      assert t[..|t| - |p|] == Marked(s', js);
      MarkedTrimEndMatches(s', p, js);
    }
  }

  /** The translation commutes with stripping a suffix that no placeholder can be part of. */
  lemma NumberedTrimEndMatches(s: string, p: string, first: nat)
    requires p != "" && Plain(p)
    ensures TrimEndMatches(Numbered(s, first), p) == Numbered(TrimEndMatches(s, p), first)
    ensures Count(TrimEndMatches(s, p), '?') == Count(s, '?')
  {
    hide Marked, Count, Numbered, TrimEndMatches;
    NumberedIsMarked(s, first);
    NumberedIsMarked(TrimEndMatches(s, p), first);
    MarkedTrimEndMatches(s, p, From(first, Count(s, '?')));
  }
}

/** The positional codecs `num_to_string`, `number_to_string` and `num_to_string_v2`, and the
    random strings made of their output. */
module Codec {
  import opened Text

  /** The characters from `lo` to `hi`. */
  function Span(lo: char, hi: char): string
    requires lo <= hi <= '~'
  {
    seq(hi as int - lo as int + 1, i requires 0 <= i < hi as int - lo as int + 1 => (lo as int + i) as char)
  }

  const BASE32 := Span('A', 'H') + Span('J', 'Z') + Span('2', '5') + Span('7', '9')
  const BASE10 := Span('1', '9') + Span('0', '0')
  const BASE56 := Span('a', 'h') + Span('j', 'n') + Span('p', 'z')
                + Span('A', 'H') + Span('J', 'N') + Span('P', 'Z') + Span('2', '9')

  predicate NoRepeats(codec: string) {
    forall i, j | 0 <= i < j < |codec| :: codec[i] != codec[j]
  }

  /** Two or more characters, each there once. */
  predicate Alphabet(codec: string) {
    |codec| >= 2 && NoRepeats(codec)
  }

  lemma SpanFacts(lo: char, hi: char)
    requires lo <= hi <= '~'
    ensures NoRepeats(Span(lo, hi)) && |Span(lo, hi)| == hi as int - lo as int + 1
    ensures forall c | c in Span(lo, hi) :: lo <= c <= hi
  {
  }

  lemma Joined(a: string, b: string)
    requires NoRepeats(a) && NoRepeats(b) && forall c | c in a :: c !in b
    ensures NoRepeats(a + b)
  {
    forall i, j | 0 <= i < j < |a + b| ensures (a + b)[i] != (a + b)[j] {
      if i < |a| <= j {
        assert a[i] in a && b[j - |a|] in b;
      }
    }
  }

  lemma Base32()
    ensures Alphabet(BASE32) && |BASE32| == 32
  {
    SpanFacts('A', 'H');
    SpanFacts('J', 'Z');
    SpanFacts('2', '5');
    SpanFacts('7', '9');
    hide Span, NoRepeats;
    Joined(Span('A', 'H'), Span('J', 'Z'));
    Joined(Span('A', 'H') + Span('J', 'Z'), Span('2', '5'));
    Joined(Span('A', 'H') + Span('J', 'Z') + Span('2', '5'), Span('7', '9'));
  }

  lemma Base10()
    ensures Alphabet(BASE10) && |BASE10| == 10
  {
    SpanFacts('1', '9');
    SpanFacts('0', '0');
    hide Span, NoRepeats;
    Joined(Span('1', '9'), Span('0', '0'));
  }

  lemma Base56()
    ensures Alphabet(BASE56) && |BASE56| == 56
  {
    SpanFacts('a', 'h');
    SpanFacts('j', 'n');
    SpanFacts('p', 'z');
    SpanFacts('A', 'H');
    SpanFacts('J', 'N');
    SpanFacts('P', 'Z');
    SpanFacts('2', '9');
    hide Span, NoRepeats;
    var small := Span('a', 'h') + Span('j', 'n') + Span('p', 'z');
    Joined(Span('a', 'h'), Span('j', 'n'));
    Joined(Span('a', 'h') + Span('j', 'n'), Span('p', 'z'));
    assert forall c | c in small :: 'a' <= c <= 'z';
    Joined(small, Span('A', 'H'));
    Joined(small + Span('A', 'H'), Span('J', 'N'));
    Joined(small + Span('A', 'H') + Span('J', 'N'), Span('P', 'Z'));
    Joined(small + Span('A', 'H') + Span('J', 'N') + Span('P', 'Z'), Span('2', '9'));
  }

  /** The alphabets, character by character. */
  lemma Alphabets()
    ensures BASE32 == "ABCDEFGHJKLMNOPQRSTUVWXYZ2345789"
    ensures BASE10 == "1234567890"
    ensures BASE56 == "abcdefghjklmnpqrstuvwxyz" + "ABCDEFGHJKLMNPQRSTUVWXYZ" + "23456789"
  {
    Letters();
    CapitalLetters();
    Figures();
    hide Span;
    SmallRow();
    CapitalRow();
    var small, capital := "abcdefghjklmnpqrstuvwxyz", "ABCDEFGHJKLMNPQRSTUVWXYZ";
    var x, y, z := Span('A', 'H'), Span('J', 'N'), Span('P', 'Z');
    assert small + x + y + z == small + (x + y + z) == small + capital;
  }

  lemma SmallRow()
    ensures "abcdefgh" + "jklmn" + "pqrstuvwxyz" == "abcdefghjklmnpqrstuvwxyz"
  {
  }

  lemma CapitalRow()
    ensures "ABCDEFGH" + "JKLMN" + "PQRSTUVWXYZ" == "ABCDEFGHJKLMNPQRSTUVWXYZ"
  {
  }

  lemma Letters()
    ensures Span('a', 'h') == "abcdefgh" && Span('j', 'n') == "jklmn" && Span('p', 'z') == "pqrstuvwxyz"
  {
  }

  lemma CapitalLetters()
    ensures Span('A', 'H') == "ABCDEFGH" && Span('J', 'N') == "JKLMN" && Span('P', 'Z') == "PQRSTUVWXYZ"
    ensures Span('J', 'Z') == "JKLMNOPQRSTUVWXYZ"
  {
  }

  lemma Figures()
    ensures Span('2', '5') == "2345" && Span('7', '9') == "789" && Span('2', '9') == "23456789"
    ensures Span('1', '9') == "123456789" && Span('0', '0') == "0"
  {
  }

  /** The numeral of `n` over the alphabet; nothing for zero and below. */
  function Encoded(codec: string, n: int): string
    requires |codec| >= 2
    decreases n
  {
    if n <= 0 then "" else Encoded(codec, n / |codec|) + [codec[n % |codec|]]
  }

  method NumToString(codec: string, n: int) returns (result: string)
    requires |codec| >= 2
    ensures result == Encoded(codec, n)
  {
    hide Encoded;
    var len := |codec|;
    var t := n;
    result := "";
    while t > 0
      invariant Encoded(codec, n) == Encoded(codec, t) + result
      decreases t
    {
      EncodedStep(codec, t);
      var ch := codec[t % len];
      assert Encoded(codec, t / len) + [ch] + result == Encoded(codec, t / len) + ([ch] + result);
      t := t / len;
      result := [ch] + result;
    }
    EncodedStep(codec, t);
  }

  lemma Quotient(t: int, b: int)
    requires b >= 2 && t > 0
    ensures 0 <= t / b < t
  {
    var q := t / b;
    assert t == q * b + t % b;
    assert q >= 0;
    Scale(2, b, q);
  }

  lemma EncodedStep(codec: string, t: int)
    requires |codec| >= 2
    ensures t <= 0 ==> Encoded(codec, t) == ""
    ensures t > 0 ==> 0 <= t / |codec| < t
    ensures t > 0 ==> Encoded(codec, t) == Encoded(codec, t / |codec|) + [codec[t % |codec|]]
  {
    if t > 0 {
      Quotient(t, |codec|);
    }
  }

  // ---- decoding --------------------------------------------------------------------------------------

  predicate Over(codec: string, s: string) {
    forall i | 0 <= i < |s| :: s[i] in codec
  }

  function Index(codec: string, c: char): (i: nat)
    requires c in codec
    ensures i < |codec| && codec[i] == c
  {
    if codec[0] == c then 0 else 1 + Index(codec[1..], c)
  }

  lemma IndexOf(codec: string, i: nat)
    requires Alphabet(codec) && i < |codec|
    ensures Index(codec, codec[i]) == i
  {
  }

  function Value(codec: string, s: string): nat
    requires Over(codec, s)
  {
    if s == "" then 0 else Value(codec, s[..|s| - 1]) * |codec| + Index(codec, s[|s| - 1])
  }

  lemma ValueSnoc(codec: string, s: string, c: char)
    requires Over(codec, s) && c in codec
    ensures Over(codec, s + [c]) && Value(codec, s + [c]) == Value(codec, s) * |codec| + Index(codec, c)
  {
    assert (s + [c])[..|s|] == s;
  }

  lemma Scale(x: int, y: int, b: int)
    requires x <= y && b >= 0
    ensures x * b <= y * b
  {
    assert (y - x) * b >= 0;
    assert (y - x) * b == y * b - x * b;
  }

  lemma SmallMultiple(k: int, b: int)
    requires b > 0 && -b < k * b < b
    ensures k == 0
  {
    if k >= 1 {
      Scale(1, k, b);
    } else if k <= -1 {
      Scale(k, -1, b);
    }
  }

  lemma Difference(p: int, q: int, b: int)
    ensures (p - q) * b == p * b - q * b
  {
  }

  lemma DivModUnique(x: int, q: int, b: nat, d: int)
    requires b > 0 && 0 <= d < b && x == q * b + d
    ensures x / b == q && x % b == d
  {
    var p, r := x / b, x % b;
    assert x == p * b + r;
    Difference(p, q, b);
    SmallMultiple(p - q, b);
  }

  lemma {:induction false} ValueOfEncoded(codec: string, n: int)
    requires Alphabet(codec) && n >= 0
    ensures Over(codec, Encoded(codec, n)) && Value(codec, Encoded(codec, n)) == n
    decreases n
  {
    hide Index, Value;
    if n == 0 {
      ValueOfNothing(codec);
    } else {
      var b := |codec|;
      ValueOfEncoded(codec, n / b);
      IndexOf(codec, n % b);
      ValueSnoc(codec, Encoded(codec, n / b), codec[n % b]);
    }
  }

  lemma ValueOfNothing(codec: string)
    ensures Over(codec, "") && Value(codec, "") == 0
  {
  }

  /** No leading zero digit. */
  predicate Canonical(codec: string, s: string)
    requires |codec| >= 2
  {
    Over(codec, s) && (s != "" ==> s[0] != codec[0])
  }

  lemma {:induction false} EncodedCanonical(codec: string, n: int)
    requires Alphabet(codec)
    ensures Canonical(codec, Encoded(codec, n))
    ensures n > 0 ==> Encoded(codec, n) != ""
    decreases n
  {
    if n > 0 {
      var b := |codec|;
      EncodedCanonical(codec, n / b);
      if n < b {
        DivModUnique(n, 0, b, n);
        assert codec[n % b] != codec[0];
      } else {
        AtLeastOne(n, b);
      }
    }
  }

  lemma AtLeastOne(n: int, b: int)
    requires 0 < b <= n
    ensures n / b > 0
  {
  }

  /** Every string without a leading zero digit is the numeral of its value. */
  lemma {:induction false} EncodedOfValue(codec: string, s: string)
    requires Alphabet(codec) && Canonical(codec, s)
    ensures Encoded(codec, Value(codec, s)) == s
    ensures s != "" ==> Value(codec, s) > 0
  {
    hide Index, Value, Encoded;
    ValueOfNothing(codec);
    EncodedStep(codec, 0);
    if s != "" {
      var b, s', c := |codec|, s[..|s| - 1], s[|s| - 1];
      var q, d := Value(codec, s'), Index(codec, c);
      EncodedOfValue(codec, s');
      assert s == s' + [c];
      ValueSnoc(codec, s', c);
      DivModUnique(q * b + d, q, b, d);
      EncodedStep(codec, q * b + d);
      if s' == "" {
        assert codec[d] == s[0] && d != 0;
      } else {
        assert q * b >= 1;
      }
    }
  }

  /** Encoding and decoding are inverse to each other, between the numbers from zero on and the
      strings over the alphabet without a leading zero digit. */
  lemma Bijection(codec: string, n: nat, s: string)
    requires Alphabet(codec) && Canonical(codec, s)
    ensures Encoded(codec, n) == s <==> Value(codec, s) == n
  {
    ValueOfEncoded(codec, n);
    EncodedOfValue(codec, s);
  }

  // ---- length and order ----------------------------------------------------------------------------------

  lemma ScaleStrictly(x: nat, y: nat, b: nat, d: nat)
    requires x < y && d < b
    ensures x * b + d < y * b
  {
    Scale(x + 1, y, b);
    Difference(x + 1, 1, b);
  }

  lemma {:induction false} ValueBelow(codec: string, s: string)
    requires Over(codec, s)
    ensures Value(codec, s) < Pow(|codec|, |s|)
  {
    if s != "" {
      var s', b := s[..|s| - 1], |codec|;
      ValueBelow(codec, s');
      ScaleStrictly(Value(codec, s'), Pow(b, |s'|), b, Index(codec, s[|s| - 1]));
    }
  }

  lemma {:induction false} ValueAtLeast(codec: string, s: string)
    requires |codec| >= 2 && Canonical(codec, s) && s != ""
    ensures Value(codec, s) >= Pow(|codec|, |s| - 1)
  {
    var s', b := s[..|s| - 1], |codec|;
    if s' == "" {
      assert codec[Index(codec, s[0])] == s[0];
    } else {
      ValueAtLeast(codec, s');
      Scale(Pow(b, |s'| - 1), Value(codec, s'), b);
      assert Pow(b, |s| - 1) == b * Pow(b, |s'| - 1) == Pow(b, |s'| - 1) * b;
    }
  }

  /** The numeral of `n` has `L` digits exactly when `n` lies between the powers. */
  lemma EncodedLength(codec: string, n: int)
    requires Alphabet(codec) && n > 0
    ensures Encoded(codec, n) != ""
    ensures Pow(|codec|, |Encoded(codec, n)| - 1) <= n < Pow(|codec|, |Encoded(codec, n)|)
  {
    hide Encoded, Value, Pow;
    EncodedCanonical(codec, n);
    ValueOfEncoded(codec, n);
    ValueBelow(codec, Encoded(codec, n));
    ValueAtLeast(codec, Encoded(codec, n));
  }

  /** At `i`, the first place where the two strings differ, the first has the earlier character. */
  predicate LessAt(codec: string, s: string, t: string, i: nat)
    requires Over(codec, s) && Over(codec, t)
  {
    i < |s| && i < |t| && s[..i] == t[..i] && Index(codec, s[i]) < Index(codec, t[i])
  }

  predicate LexLess(codec: string, s: string, t: string)
    requires Over(codec, s) && Over(codec, t)
  {
    exists i | 0 <= i < |s| :: LessAt(codec, s, t, i)
  }

  predicate ShortLex(codec: string, s: string, t: string)
    requires Over(codec, s) && Over(codec, t)
  {
    |s| < |t| || (|s| == |t| && LexLess(codec, s, t))
  }

  lemma LessAtFront(codec: string, s: string, t: string, i: nat, k: nat)
    requires Over(codec, s) && Over(codec, t) && i < k <= |s| && k <= |t|
    ensures LessAt(codec, s[..k], t[..k], i) <==> LessAt(codec, s, t, i)
  {
    assert s[..k][..i] == s[..i] && t[..k][..i] == t[..i];
  }

  lemma {:induction false} LessValue(codec: string, s: string, t: string, i: nat)
    requires Over(codec, s) && Over(codec, t) && |s| == |t| && LessAt(codec, s, t, i)
    ensures Value(codec, s) < Value(codec, t)
  {
    var k := |s| - 1;
    if i < k {
      LessAtFront(codec, s, t, i, k);
      LessValue(codec, s[..k], t[..k], i);
      hide Index;
      ScaleStrictly(Value(codec, s[..k]), Value(codec, t[..k]), |codec|, Index(codec, s[k]));
    } else {
      assert s[..k] == t[..k];
    }
  }

  /** Two different strings of one length are ordered one way or the other. */
  lemma {:induction false} Comparable(codec: string, s: string, t: string)
    requires Over(codec, s) && Over(codec, t) && |s| == |t| && s != t
    ensures LexLess(codec, s, t) || LexLess(codec, t, s)
  {
    hide Index;
    var i := 0;
    while i < |s| && s[i] == t[i]
      invariant 0 <= i <= |s| && s[..i] == t[..i]
    {
      i := i + 1;
    }
    assert s[..|s|] == s && t[..|t|] == t;
    if Index(codec, s[i]) < Index(codec, t[i]) {
      assert LessAt(codec, s, t, i);
    } else {
      assert Index(codec, s[i]) != Index(codec, t[i]);
      assert LessAt(codec, t, s, i);
    }
  }

  lemma SameLengthOrder(codec: string, s: string, t: string)
    requires Over(codec, s) && Over(codec, t) && |s| == |t|
    ensures Value(codec, s) < Value(codec, t) <==> LexLess(codec, s, t)
  {
    hide Value, LessAt;
    if LexLess(codec, s, t) {
      var i :| 0 <= i < |s| && LessAt(codec, s, t, i);
      LessValue(codec, s, t, i);
    } else if s != t {
      Comparable(codec, s, t);
      var i :| 0 <= i < |t| && LessAt(codec, t, s, i);
      LessValue(codec, t, s, i);
    }
  }

  lemma {:induction false} PowGrows(b: nat, e: nat, f: nat)
    requires b >= 1 && e <= f
    ensures Pow(b, e) <= Pow(b, f)
  {
    if e < f {
      PowGrows(b, e, f - 1);
      Scale(1, b, Pow(b, f - 1));
    }
  }

  lemma ShorterIsLess(codec: string, s: string, t: string)
    requires |codec| >= 2 && Over(codec, s) && Canonical(codec, t) && |s| < |t|
    ensures Value(codec, s) < Value(codec, t)
  {
    ValueBelow(codec, s);
    ValueAtLeast(codec, t);
    PowGrows(|codec|, |s|, |t| - 1);
  }

  /** Numbers are ordered as their numerals in shortlex order. */
  lemma OrderPreserved(codec: string, n: nat, m: nat)
    requires Alphabet(codec)
    ensures Over(codec, Encoded(codec, n)) && Over(codec, Encoded(codec, m))
    ensures n < m <==> ShortLex(codec, Encoded(codec, n), Encoded(codec, m))
  {
    hide Encoded, Value, LexLess;
    var s, t := Encoded(codec, n), Encoded(codec, m);
    EncodedCanonical(codec, n);
    EncodedCanonical(codec, m);
    ValueOfEncoded(codec, n);
    ValueOfEncoded(codec, m);
    if |s| < |t| {
      ShorterIsLess(codec, s, t);
    } else if |t| < |s| {
      ShorterIsLess(codec, t, s);
    } else {
      SameLengthOrder(codec, s, t);
    }
  }

  // ---- random strings ----------------------------------------------------------------------------------------

  function Concatenated(codec: string, draws: seq<nat>): string
    requires |codec| >= 2
  {
    if draws == [] then ""
    else Concatenated(codec, draws[..|draws| - 1]) + Encoded(codec, draws[|draws| - 1])
  }

  /** `generate_rand_string` and its kin over a given stream of draws; `None` when the stream ends
      before the string is long enough. */
  method GenerateRand(codec: string, len: nat, draws: seq<nat>) returns (r: Option<string>)
    requires |codec| >= 2
    ensures r == if |Concatenated(codec, draws)| >= len then Some(Concatenated(codec, draws)[..len]) else None
  {
    var retkey := "";
    var i := 0;
    while |retkey| < len
      invariant 0 <= i <= |draws| && retkey == Concatenated(codec, draws[..i])
      decreases |draws| - i
    {
      if i == |draws| {
        assert draws[..i] == draws;
        return None;
      }
      var key := NumToString(codec, draws[i]);
      assert draws[..i + 1][..i] == draws[..i];
      retkey := retkey + key;
      i := i + 1;
    }
    ConcatenatedPrefix(codec, draws, i);
    assert retkey[..len] == Concatenated(codec, draws)[..len];
    return Some(retkey[..len]);
  }

  lemma {:induction false} ConcatenatedPrefix(codec: string, draws: seq<nat>, i: nat)
    requires |codec| >= 2 && i <= |draws|
    ensures Concatenated(codec, draws[..i]) <= Concatenated(codec, draws)
  {
    if i < |draws| {
      ConcatenatedPrefix(codec, draws[..|draws| - 1], i);
      assert draws[..|draws| - 1][..i] == draws[..i];
    } else {
      assert draws[..i] == draws;
    }
  }

  function NonZero(draws: seq<nat>): nat {
    if draws == [] then 0 else NonZero(draws[..|draws| - 1]) + (if draws[|draws| - 1] > 0 then 1 else 0)
  }

  /** `len` draws other than zero are enough, and every character is of the alphabet. */
  lemma {:induction false} EnoughDraws(codec: string, draws: seq<nat>)
    requires Alphabet(codec)
    ensures |Concatenated(codec, draws)| >= NonZero(draws)
    ensures Over(codec, Concatenated(codec, draws))
  {
    hide Encoded;
    if draws != [] {
      EnoughDraws(codec, draws[..|draws| - 1]);
      EncodedCanonical(codec, draws[|draws| - 1]);
    }
  }
}

/** `parse_query` and the percent-encoding that undoes it. Texts are byte sequences. */
module QueryString {
  import opened Text

  type Byte = b: int | 0 <= b < 256
  type Bytes = seq<Byte>

  const AMPERSAND: Byte := 38
  const EQUALS: Byte := 61
  const PERCENT: Byte := 37

  // ---- percent-encoding (sections 2.1 and 2.3 of RFC 3986) -----------------------------------------

  predicate Unreserved(b: Byte) {
    48 <= b <= 57 || 65 <= b <= 90 || 97 <= b <= 122 || b == 45 || b == 46 || b == 95 || b == 126
  }

  function HexDigit(n: nat): Byte
    requires n < 16
  {
    if n < 10 then 48 + n else 55 + n
  }

  function HexValue(b: Byte): Option<nat> {
    if 48 <= b <= 57 then Some(b - 48)
    else if 65 <= b <= 70 then Some(b - 55)
    else if 97 <= b <= 102 then Some(b - 87)
    else None
  }

  /** `get_url_encode2`. */
  function Encode(value: Bytes): Bytes {
    if value == [] then []
    else
      var b := value[0];
      (if Unreserved(b) then [b] else [PERCENT, HexDigit(b / 16), HexDigit(b % 16)]) + Encode(value[1..])
  }

  /** `percent_decode`: a `%` that no two hexadecimal digits follow stands for itself. */
  function Decode(s: Bytes): Bytes {
    if s == [] then []
    else if s[0] == PERCENT && |s| >= 3 && HexValue(s[1]).Some? && HexValue(s[2]).Some? then
      [HexValue(s[1]).value * 16 + HexValue(s[2]).value as Byte] + Decode(s[3..])
    else [s[0]] + Decode(s[1..])
  }

  lemma {:induction false} DecodeEncode(value: Bytes)
    ensures Decode(Encode(value)) == value
  {
    if value != [] {
      var b, rest := value[0], Encode(value[1..]);
      DecodeEncode(value[1..]);
      if Unreserved(b) {
        assert ([b] + rest)[1..] == rest;
      } else {
        var code := [PERCENT, HexDigit(b / 16), HexDigit(b % 16)];
        assert (code + rest)[3..] == rest;
        assert HexValue(HexDigit(b / 16)) == Some(b / 16) && HexValue(HexDigit(b % 16)) == Some(b % 16);
      }
    }
  }

  lemma {:induction false} EncodeSafe(value: Bytes)
    ensures AMPERSAND !in Encode(value) && EQUALS !in Encode(value)
  {
    if value != [] {
      EncodeSafe(value[1..]);
    }
  }

  // ---- parsing ----------------------------------------------------------------------------------------

  /** The segments inserted in order; a segment without `=` is an index out of bounds. */
  function InsertSegments(parts: seq<Bytes>, res: map<Bytes, Bytes>): Option<map<Bytes, Bytes>>
    decreases |parts|
  {
    if parts == [] then Some(res)
    else
      var kv := Split(parts[0], EQUALS);
      if |kv| < 2 then None else InsertSegments(parts[1..], res[kv[0] := Decode(kv[1])])
  }

  function Parsed(query: Bytes): Option<map<Bytes, Bytes>> {
    if query == [] then Some(map[]) else InsertSegments(Split(query, AMPERSAND), map[])
  }

  method ParseQuery(query: Bytes) returns (r: Option<map<Bytes, Bytes>>)
    ensures r == Parsed(query)
  {
    if query == [] {
      return Some(map[]);
    }
    var parts := Split(query, AMPERSAND);
    var res: map<Bytes, Bytes> := map[];
    assert parts[0..] == parts;
    for i := 0 to |parts|
      invariant InsertSegments(parts[i..], res) == Parsed(query)
    {
      assert parts[i..][0] == parts[i] && parts[i..][1..] == parts[i + 1..];
      var kv := Split(parts[i], EQUALS);
      if |kv| < 2 {
        return None;
      }
      res := res[kv[0] := Decode(kv[1])];
    }
    return Some(res);
  }

  // ---- the round trip -----------------------------------------------------------------------------------

  type Pair = (Bytes, Bytes)

  function Segment(p: Pair): Bytes {
    p.0 + [EQUALS] + Encode(p.1)
  }

  function Written(pairs: seq<Pair>): Bytes {
    if pairs == [] then []
    else if |pairs| == 1 then Segment(pairs[0])
    else Segment(pairs[0]) + [AMPERSAND] + Written(pairs[1..])
  }

  /** The pairs inserted in order: the last of a key wins. */
  function InsertAll(pairs: seq<Pair>, res: map<Bytes, Bytes>): map<Bytes, Bytes>
    decreases |pairs|
  {
    if pairs == [] then res else InsertAll(pairs[1..], res[pairs[0].0 := pairs[0].1])
  }

  predicate PlainKey(key: Bytes) {
    AMPERSAND !in key && EQUALS !in key
  }

  function Segments(pairs: seq<Pair>): seq<Bytes> {
    if pairs == [] then [] else [Segment(pairs[0])] + Segments(pairs[1..])
  }

  lemma {:induction false} SplitWritten(pairs: seq<Pair>)
    requires pairs != [] && forall p | p in pairs :: PlainKey(p.0)
    ensures Split(Written(pairs), AMPERSAND) == Segments(pairs)
  {
    hide Split, Encode, Count;
    var first := Segment(pairs[0]);
    assert pairs[0] in pairs;
    EncodeSafe(pairs[0].1);
    if |pairs| == 1 {
      SplitNone(first, AMPERSAND);
    } else {
      SplitFirst(first, AMPERSAND, Written(pairs[1..]));
      SplitWritten(pairs[1..]);
    }
  }

  lemma {:induction false} InsertWritten(pairs: seq<Pair>, res: map<Bytes, Bytes>)
    requires forall p | p in pairs :: PlainKey(p.0)
    ensures InsertSegments(Segments(pairs), res) == Some(InsertAll(pairs, res))
    decreases |pairs|
  {
    hide Split, Encode, Decode, Count;
    if pairs != [] {
      var p := pairs[0];
      assert p in pairs;
      EncodeSafe(p.1);
      SplitFirst(p.0, EQUALS, Encode(p.1));
      SplitNone(Encode(p.1), EQUALS);
      DecodeEncode(p.1);
      assert Segments(pairs)[1..] == Segments(pairs[1..]);
      InsertWritten(pairs[1..], res[p.0 := p.1]);
    }
  }

  lemma {:induction false} SplitHasNoSeparator(s: Bytes, sep: Byte)
    ensures forall i | 0 <= i < |Split(s, sep)| ::
              sep !in Split(s, sep)[i] && forall c | c in Split(s, sep)[i] :: c in s
  {
    if s != [] {
      SplitHasNoSeparator(s[1..], sep);
      assert s == [s[0]] + s[1..];
    }
  }

  /** No key that comes out of the parser holds a separator. */
  lemma {:induction false} ParsedKeysArePlain(parts: seq<Bytes>, res: map<Bytes, Bytes>)
    requires forall p | p in parts :: AMPERSAND !in p
    requires forall k | k in res :: PlainKey(k)
    ensures InsertSegments(parts, res).Some? ==> forall k | k in InsertSegments(parts, res).value :: PlainKey(k)
    decreases |parts|
  {
    hide Decode, Count;
    if parts != [] {
      var kv := Split(parts[0], EQUALS);
      assert parts[0] in parts;
      if |kv| >= 2 {
        SplitHasNoSeparator(parts[0], EQUALS);
        assert PlainKey(kv[0]);
        ParsedKeysArePlain(parts[1..], res[kv[0] := Decode(kv[1])]);
      }
    }
  }

  lemma {:induction false} InsertAllKeys(pairs: seq<Pair>, res: map<Bytes, Bytes>)
    ensures forall k | k in res :: k in InsertAll(pairs, res)
    ensures forall p | p in pairs :: p.0 in InsertAll(pairs, res)
    decreases |pairs|
  {
    if pairs != [] {
      InsertAllKeys(pairs[1..], res[pairs[0].0 := pairs[0].1]);
      assert pairs == [pairs[0]] + pairs[1..];
    }
  }

  /** Writing any pairs and parsing them back gives the map of the pairs, last one winning,
      exactly when no key holds `&` or `=`; the values may be any bytes. */
  lemma RoundTripExact(pairs: seq<Pair>)
    ensures Parsed(Written(pairs)) == Some(InsertAll(pairs, map[])) <==> forall p | p in pairs :: PlainKey(p.0)
  {
    hide Split, InsertSegments, InsertAll, Encode, Count;
    if pairs == [] {
      NothingWritten();
    } else if forall p | p in pairs :: PlainKey(p.0) {
      SplitWritten(pairs);
      InsertWritten(pairs, map[]);
      WrittenSomething(pairs);
    } else {
      InsertAllKeys(pairs, map[]);
      WrittenSomething(pairs);
      SplitHasNoSeparator(Written(pairs), AMPERSAND);
      ParsedKeysArePlain(Split(Written(pairs), AMPERSAND), map[]);
    }
  }

  lemma NothingWritten()
    ensures InsertAll([], map[]) == map[]
  {
  }

  lemma WrittenSomething(pairs: seq<Pair>)
    requires pairs != []
    ensures Written(pairs) != []
  {
  }

  lemma {:induction false} InsertFailsExactly(parts: seq<Bytes>, res: map<Bytes, Bytes>)
    ensures InsertSegments(parts, res) == None <==> exists p :: p in parts && EQUALS !in p
    decreases |parts|
  {
    if parts != [] {
      var kv := Split(parts[0], EQUALS);
      CountZero(parts[0], EQUALS);
      assert parts == [parts[0]] + parts[1..];
      if |kv| >= 2 {
        InsertFailsExactly(parts[1..], res[kv[0] := Decode(kv[1])]);
      } else {
        assert parts[0] in parts && EQUALS !in parts[0];
      }
    }
  }

  /** The parser fails exactly when the query is not empty and some segment has no `=`. */
  lemma FailsExactly(query: Bytes)
    ensures Parsed(query) == None <==> query != [] && exists p :: p in Split(query, AMPERSAND) && EQUALS !in p
  {
    InsertFailsExactly(Split(query, AMPERSAND), map[]);
  }

  /** `a=b&` fails: its last segment is empty. */
  lemma TrailingAmpersandFails()
    ensures Parsed([97, EQUALS, 98, AMPERSAND]) == None
  {
    var pair, query := [97, EQUALS, 98], [97, EQUALS, 98, AMPERSAND];
    hide Split, Count, InsertSegments;
    assert pair + [AMPERSAND] + [] == query;
    SplitFirst(pair, AMPERSAND, []);
    SplitNone([], AMPERSAND);
    assert [] in Split(query, AMPERSAND) && EQUALS !in [];
    FailsExactly(query);
  }

  /** The key `=` with the value `a` comes back as the empty key with the empty value. */
  lemma SeparatorKeyIsLost()
    ensures Parsed(Written([([EQUALS], [97])])) == Some(map[[] := []])
  {
    var written := [EQUALS, EQUALS, 97];
    assert Encode([97]) == [97] by {
      assert [97][1..] == [];
    }
    assert Written([([EQUALS], [97])]) == written;
    SplitNone(written, AMPERSAND);
    hide Count, Encode;
    SplitNone([97], EQUALS);
    SplitFirst([], EQUALS, [97]);
    SplitFirst([], EQUALS, [EQUALS, 97]);
    assert [] + [EQUALS] + [97] == [EQUALS, 97] && [] + [EQUALS] + [EQUALS, 97] == written;
    var kv := Split(written, EQUALS);
    assert kv[0] == [] && kv[1] == [] && Decode([]) == [];
    var parts: seq<Bytes> := [written];
    assert parts[1..] == [] && InsertSegments([], map[[] := []]) == Some(map[[] := []]);
    assert InsertSegments(parts, map[]) == InsertSegments(parts[1..], map[[] := []]);
  }

  // ---- what decoding does to any bytes ------------------------------------------------------------------

  /** A hexadecimal digit in either case, by its place in the row of digits. */
  predicate Hex(b: Byte, n: nat) {
    (n < 10 && b == 48 + n) || (10 <= n < 16 && (b == 65 + (n - 10) || b == 97 + (n - 10)))
  }

  predicate AnyHex(b: Byte) {
    48 <= b <= 57 || 65 <= b <= 70 || 97 <= b <= 102
  }

  lemma HexExactly(b: Byte)
    ensures HexValue(b).Some? <==> AnyHex(b)
    ensures forall n: nat :: Hex(b, n) <==> HexValue(b) == Some(n)
  {
  }

  /** Only an escape is changed; a `+`, for one, stays. */
  lemma {:induction false} DecodePlain(v: Bytes)
    requires PERCENT !in v
    ensures Decode(v) == v
  {
    if v != [] {
      DecodePlain(v[1..]);
      assert v == [v[0]] + v[1..];
    }
  }

  /** A `%` with two hexadecimal digits is the byte they spell, and decoding goes on behind them. */
  lemma DecodeEscape(a: Byte, b: Byte, rest: Bytes, hi: nat, lo: nat)
    requires Hex(a, hi) && Hex(b, lo)
    ensures hi * 16 + lo < 256
    ensures Decode([PERCENT, a, b] + rest) == [(hi * 16 + lo) as Byte] + Decode(rest)
  {
    HexExactly(a);
    HexExactly(b);
    hide HexValue;
    assert ([PERCENT, a, b] + rest)[3..] == rest;
  }

  /** Any other byte stays, a `%` without its two digits too. */
  lemma DecodeOther(b: Byte, rest: Bytes)
    requires b == PERCENT ==> |rest| < 2 || !AnyHex(rest[0]) || !AnyHex(rest[1])
    ensures Decode([b] + rest) == [b] + Decode(rest)
  {
    if |rest| >= 2 {
      HexExactly(rest[0]);
      HexExactly(rest[1]);
      assert ([b] + rest)[1] == rest[0] && ([b] + rest)[2] == rest[1];
    }
    hide HexValue;
    assert ([b] + rest)[1..] == rest;
  }

  /** An unreserved byte is written as itself, any other as `%` and two capital digits. */
  lemma EncodeByte(b: Byte, rest: Bytes)
    ensures 48 <= b <= 57 || 65 <= b <= 90 || 97 <= b <= 122 || b in [45, 46, 95, 126] ==>
              Encode([b] + rest) == [b] + Encode(rest)
    ensures !(48 <= b <= 57 || 65 <= b <= 90 || 97 <= b <= 122 || b in [45, 46, 95, 126]) ==>
              exists hi: Byte, lo: Byte ::
                && Encode([b] + rest) == [PERCENT, hi, lo] + Encode(rest)
                && Hex(hi, b / 16) && Hex(lo, b % 16) && hi < 97 && lo < 97
  {
    assert ([b] + rest)[1..] == rest;
    var hi, lo := HexDigit(b / 16), HexDigit(b % 16);
    assert Hex(hi, b / 16) && Hex(lo, b % 16) && hi < 97 && lo < 97;
    if !Unreserved(b) {
      assert Encode([b] + rest) == [PERCENT, hi, lo] + Encode(rest);
    }
  }

  // ---- what parsing reads ----------------------------------------------------------------------------------

  /** A segment that holds an `=`: what is before the first one, and what is behind it up to the next. */
  predicate KeyValue(segment: Bytes, key: Bytes, value: Bytes) {
    EQUALS !in key && EQUALS !in value
    && (segment == key + [EQUALS] + value || key + [EQUALS] + value + [EQUALS] <= segment)
  }

  lemma KeyValueSplits(segment: Bytes, key: Bytes, value: Bytes)
    requires KeyValue(segment, key, value)
    ensures var kv := Split(segment, EQUALS); |kv| >= 2 && kv[0] == key && kv[1] == value
  {
    hide Split, Count;
    if segment == key + [EQUALS] + value {
      SplitFirst(key, EQUALS, value);
      SplitNone(value, EQUALS);
    } else {
      var rest := segment[|key| + 1 + |value| + 1..];
      assert segment == key + [EQUALS] + (value + [EQUALS] + rest);
      SplitFirst(key, EQUALS, value + [EQUALS] + rest);
      SplitFirst(value, EQUALS, rest);
    }
  }

  lemma {:induction false} UntouchedKey(parts: seq<Bytes>, res: map<Bytes, Bytes>, key: Bytes)
    requires InsertSegments(parts, res).Some?
    requires forall i, v | 0 <= i < |parts| :: !KeyValue(parts[i], key, v)
    ensures var r := InsertSegments(parts, res).value;
            (key in r <==> key in res) && (key in r ==> r[key] == res[key])
    decreases |parts|
  {
    hide Decode, Split, Count;
    if parts != [] {
      var kv := Split(parts[0], EQUALS);
      SplitReads(parts[0]);
      assert KeyValue(parts[0], kv[0], kv[1]);
      forall i, v | 0 <= i < |parts[1..]| ensures !KeyValue(parts[1..][i], key, v) {
        assert parts[1..][i] == parts[i + 1];
      }
      UntouchedKey(parts[1..], res[kv[0] := Decode(kv[1])], key);
    }
  }

  /** The first two parts of a split are its key and its value. */
  lemma SplitReads(segment: Bytes)
    ensures var kv := Split(segment, EQUALS); |kv| >= 2 ==> KeyValue(segment, kv[0], kv[1])
  {
    var kv := Split(segment, EQUALS);
    SplitExactly(segment, EQUALS);
    if |kv| >= 2 {
      assert kv[0] in kv && kv[1] in kv;
      hide Split;
      var rest := Separated(kv[1..], [EQUALS]);
      assert segment == kv[0] + [EQUALS] + rest;
      if |kv| == 2 {
        assert rest == kv[1];
      } else {
        assert kv[1..][1..] == kv[2..];
        assert rest == kv[1] + [EQUALS] + Separated(kv[2..], [EQUALS]);
        assert segment == kv[0] + [EQUALS] + kv[1] + [EQUALS] + Separated(kv[2..], [EQUALS]);
      }
    }
  }

  lemma {:induction false} LastWins(parts: seq<Bytes>, res: map<Bytes, Bytes>, i: nat, key: Bytes, value: Bytes)
    requires InsertSegments(parts, res).Some?
    requires i < |parts| && KeyValue(parts[i], key, value)
    requires forall j, v | i < j < |parts| :: !KeyValue(parts[j], key, v)
    ensures var r := InsertSegments(parts, res).value; key in r && r[key] == Decode(value)
    decreases |parts|
  {
    hide Decode, Split, Count;
    var kv := Split(parts[0], EQUALS);
    var next := res[kv[0] := Decode(kv[1])];
    forall j, v | i - 1 < j < |parts[1..]| && 0 <= j ensures !KeyValue(parts[1..][j], key, v) {
      assert parts[1..][j] == parts[j + 1];
    }
    if i == 0 {
      KeyValueSplits(parts[0], key, value);
      UntouchedKey(parts[1..], next, key);
    } else {
      assert parts[1..][i - 1] == parts[i];
      LastWins(parts[1..], next, i - 1, key, value);
    }
  }

  ghost predicate Mentioned(parts: seq<Bytes>, key: Bytes) {
    exists i, v :: 0 <= i < |parts| && KeyValue(parts[i], key, v)
  }

  /** Of any query that parses: a key has the decoded value of its last segment, and there is no
      other key. */
  lemma ParsedExactly(query: Bytes, key: Bytes)
    requires Parsed(query).Some? && query != []
    ensures var parts, r := Split(query, AMPERSAND), Parsed(query).value;
            && (key in r <==> Mentioned(parts, key))
            && forall i, v | 0 <= i < |parts| && KeyValue(parts[i], key, v)
                             && (forall j, w | i < j < |parts| :: !KeyValue(parts[j], key, w)) :: r[key] == Decode(v)
  {
    hide Decode, Split, Count, InsertSegments, KeyValue;
    var parts, r := Split(query, AMPERSAND), Parsed(query).value;
    assert r == InsertSegments(parts, map[]).value;
    if Mentioned(parts, key) {
      var i, v := LastSegment(parts, key, |parts|);
      LastWins(parts, map[], i, key, v);
    } else {
      UntouchedKey(parts, map[], key);
    }
    forall i, v | 0 <= i < |parts| && KeyValue(parts[i], key, v)
                  && (forall j, w | i < j < |parts| :: !KeyValue(parts[j], key, w))
      ensures key in Parsed(query).value && Parsed(query).value[key] == Decode(v)
    {
      LastWins(parts, map[], i, key, v);
    }
  }

  lemma {:induction false} LastSegment(parts: seq<Bytes>, key: Bytes, n: nat) returns (i: nat, v: Bytes)
    requires n <= |parts| && exists i, v :: 0 <= i < n && KeyValue(parts[i], key, v)
    requires forall j, w | n <= j < |parts| :: !KeyValue(parts[j], key, w)
    ensures i < |parts| && KeyValue(parts[i], key, v)
    ensures forall j, w | i < j < |parts| :: !KeyValue(parts[j], key, w)
  {
    hide KeyValue;
    var segment := parts[n - 1];
    if exists w :: KeyValue(segment, key, w) {
      i := n - 1;
      v :| KeyValue(segment, key, v);
    } else {
      i, v := LastSegment(parts, key, n - 1);
    }
  }

  /** One pair without escapes is read as it stands. */
  lemma ParsedPair(key: Bytes, value: Bytes)
    requires PlainKey(key) && PlainKey(value) && PERCENT !in value
    ensures Parsed(key + [EQUALS] + value) == Some(map[key := value])
  {
    var segment := key + [EQUALS] + value;
    hide Split, Count, Decode;
    SplitNone(segment, AMPERSAND);
    KeyValueSplits(segment, key, value);
    DecodePlain(value);
    var parts: seq<Bytes> := [segment];
    assert parts[1..] == [] && InsertSegments([], map[key := value]) == Some(map[key := value]);
    assert InsertSegments(parts, map[]) == InsertSegments(parts[1..], map[][key := value]);
  }
}

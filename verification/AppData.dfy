/** The process-wide cache with expiring entries, against a plain map that is never swept. */
module AppData {
  import opened Text

  datatype ValuePair = ValuePair(value: string, key: string, timestamp: nat, expired: nat)

  predicate WellKeyed(data: map<string, ValuePair>) {
    forall k | k in data :: data[k].key == k
  }

  /** What the sweep takes: at or after the expiry, a zero lifetime included. */
  predicate SweptAway(e: ValuePair, now: int) {
    now >= e.timestamp + e.expired
  }

  /** What a read still sees: up to and including the expiry, a zero lifetime for ever. */
  predicate Live(e: ValuePair, now: nat) {
    e.expired > 0 ==> now <= e.timestamp + e.expired
  }

  function Swept(data: map<string, ValuePair>, now: nat): map<string, ValuePair> {
    if |data| > 10 then map k | k in data && !SweptAway(data[k], now) :: data[k] else data
  }

  function Lookup(data: map<string, ValuePair>, key: string, now: nat): Option<string> {
    if key in data && Live(data[key], now) then Some(data[key].value) else None
  }

  /** A sweep of more than ten entries leaves what has not reached its expiry, and as it is. */
  lemma SweptExactly(data: map<string, ValuePair>, now: nat)
    ensures forall k :: k in Swept(data, now) <==>
              k in data && (|data| <= 10 || now < data[k].timestamp + data[k].expired)
    ensures forall k | k in Swept(data, now) :: Swept(data, now)[k] == data[k]
  {
  }

  lemma SweptByKeys(data: map<string, ValuePair>, keys: seq<string>, now: nat)
    requires forall k :: k in keys <==> |data| > 10 && k in data && SweptAway(data[k], now)
    ensures (map k | k in data && k !in keys :: data[k]) == Swept(data, now)
  {
    hide SweptAway;
  }

  /** A read returns the value of an entry of lifetime zero, or not past its expiry. */
  lemma LookupExactly(data: map<string, ValuePair>, key: string, now: nat, v: string)
    ensures Lookup(data, key, now) == Some(v) <==>
              key in data && data[key].value == v
              && (data[key].expired == 0 || now <= data[key].timestamp + data[key].expired)
  {
  }

  class AppData {
    var data: map<string, ValuePair>

    constructor ()
      ensures data == map[]
    {
      data := map[];
    }

    /** The first half of the sweep: the keys of the entries to take, in whatever order the hash
        map yields them. */
    method SweptKeys(now: nat) returns (keys: seq<string>)
      requires WellKeyed(data)
      ensures forall k :: k in keys <==> |data| > 10 && k in data && SweptAway(data[k], now)
    {
      keys := [];
      if |data| > 10 {
        var rest := data.Keys;
        while rest != {}
          invariant rest <= data.Keys
          invariant forall k :: k in keys <==> k in data.Keys - rest && SweptAway(data[k], now)
        {
          var k :| k in rest;
          if SweptAway(data[k], now) {
            keys := keys + [data[k].key];
          }
          rest := rest - {k};
        }
      }
    }

    /** `global_app_data_resizing`: the collected keys are then removed one by one. */
    method Resizing(now: nat)
      requires WellKeyed(data)
      modifies this
      ensures data == Swept(old(data), now) && WellKeyed(data)
      ensures forall k :: k in data <==>
                k in old(data) && (|old(data)| <= 10 || now < old(data)[k].timestamp + old(data)[k].expired)
    {
      hide SweptAway, Swept;
      var keys := SweptKeys(now);
      for i := 0 to |keys|
        invariant data == map k | k in old(data) && k !in keys[..i] :: old(data)[k]
      {
        assert keys[..i + 1] == keys[..i] + [keys[i]];
        Remove(keys[i]);
      }
      assert keys[..|keys|] == keys;
      SweptByKeys(old(data), keys, now);
      SweptExactly(old(data), now);
    }

    method InsertWithExpire(key: string, val: string, exp: nat, now: nat, later: nat)
      requires WellKeyed(data)
      modifies this
      ensures data == Swept(old(data)[key := ValuePair(val, key, now, exp)], later) && WellKeyed(data)
    {
      data := data[key := ValuePair(val, key, now, exp)];
      Resizing(later);
    }

    method Remove(key: string)
      modifies this
      ensures data == old(data) - {key}
    {
      data := data - {key};
    }

    method Get(key: string, now: nat) returns (r: Option<string>)
      modifies this
      ensures r == Lookup(old(data), key, now)
      ensures data == if key in old(data) && r == None then old(data) - {key} else old(data)
    {
      if key !in data {
        return None;
      }
      var mpt := data[key];
      if mpt.expired > 0 {
        if now > mpt.timestamp + mpt.expired {
          Remove(key);
          return None;
        }
      }
      return Some(mpt.value);
    }
  }

  // ---- one sweep ---------------------------------------------------------------------------------

  /** A sweep changes what a later read returns exactly when it ran and either took an entry with
      lifetime zero or was read in the very instant of the expiry. */
  lemma SweepSeenExactly(data: map<string, ValuePair>, swept: nat, key: string, read: nat)
    requires swept <= read
    ensures Lookup(Swept(data, swept), key, read) != Lookup(data, key, read)
       <==> |data| > 10 && key in data && var e := data[key];
            (e.expired == 0 && e.timestamp <= swept) || swept == read == e.timestamp + e.expired
  {
  }

  // ---- whole runs ----------------------------------------------------------------------------------

  datatype Call =
    | Insert(key: string, val: string, exp: nat, at: nat, sweptAt: nat)
    | Delete(key: string)
    | Read(key: string, at: nat)
    | Resize(at: nat)

  /** The cache together with the plain map, the time of the last sweep, and the time. */
  datatype Both = Both(cache: map<string, ValuePair>, plain: map<string, ValuePair>, swept: int, now: nat)

  const START := Both(map[], map[], -1, 0)

  /** A call on the object itself. */
  method Perform(cache: AppData, ghost s: Both, c: Call) returns (r: Option<string>)
    requires s.cache == cache.data && WellKeyed(cache.data)
    modifies cache
    ensures cache.data == Step(s, c).cache && WellKeyed(cache.data)
    ensures c.Read? ==> r == Lookup(s.cache, c.key, c.at)
  {
    hide Swept, Lookup;
    r := None;
    match c
    case Insert(key, val, exp, at, sweptAt) => cache.InsertWithExpire(key, val, exp, at, sweptAt);
    case Delete(key) => cache.Remove(key);
    case Read(key, at) => r := cache.Get(key, at);
    case Resize(at) => cache.Resizing(at);
  }

  predicate InOrder(s: Both, c: Call) {
    match c
    case Insert(_, _, _, at, sweptAt) => s.now <= at <= sweptAt
    case Delete(_) => true
    case Read(_, at) => s.now <= at
    case Resize(at) => s.now <= at
  }

  /** All that is asked of a run is that its clock does not go back. */
  lemma InOrderExactly(s: Both)
    ensures forall k, v, exp, at, later :: InOrder(s, Insert(k, v, exp, at, later)) <==> s.now <= at && at <= later
    ensures forall k :: InOrder(s, Delete(k))
    ensures forall k, at :: InOrder(s, Read(k, at)) <==> s.now <= at
    ensures forall at :: InOrder(s, Resize(at)) <==> s.now <= at
  {
  }

  function Write(s: Both, key: string, e: ValuePair, at: nat): Both {
    s.(cache := s.cache[key := e], plain := s.plain[key := e], now := at)
  }

  function Sweeping(s: Both, at: nat): Both {
    s.(cache := Swept(s.cache, at), swept := at, now := at)
  }

  function Step(s: Both, c: Call): Both {
    match c
    case Insert(key, val, exp, at, sweptAt) => Sweeping(Write(s, key, ValuePair(val, key, at, exp), at), sweptAt)
    case Delete(key) => s.(cache := s.cache - {key}, plain := s.plain - {key})
    case Read(key, at) =>
      s.(cache := if key in s.cache && Lookup(s.cache, key, at) == None then s.cache - {key} else s.cache, now := at)
    case Resize(at) => Sweeping(s, at)
  }

  predicate Ordered(s: Both, calls: seq<Call>)
    decreases |calls|
  {
    calls == [] || (InOrder(s, calls[0]) && Ordered(Step(s, calls[0]), calls[1..]))
  }

  function Run(s: Both, calls: seq<Call>): Both
    decreases |calls|
  {
    if calls == [] then s else Run(Step(s, calls[0]), calls[1..])
  }

  predicate SweepTakes(data: map<string, ValuePair>, key: string, at: nat) {
    |data| > 10 && key in data && SweptAway(data[key], at)
  }

  /** Whether a sweep of more than ten entries has taken the key since it was last written or
      deleted. */
  function TakenBy(s: Both, c: Call, key: string, taken: bool): bool {
    match c
    case Insert(k, val, exp, at, sweptAt) =>
      (taken && k != key) || SweepTakes(s.cache[k := ValuePair(val, k, at, exp)], key, sweptAt)
    case Delete(k) => taken && k != key
    case Read(_, _) => taken
    case Resize(at) => taken || SweepTakes(s.cache, key, at)
  }

  function Taken(s: Both, calls: seq<Call>, key: string, taken: bool): bool
    decreases |calls|
  {
    if calls == [] then taken else Taken(Step(s, calls[0]), calls[1..], key, TakenBy(s, calls[0], key, taken))
  }

  predicate Inv(s: Both) {
    s.swept <= s.now && forall k | k in s.cache :: k in s.plain && s.plain[k] == s.cache[k]
  }

  /** A written key is missing from the cache because a sweep took it, or because a read found it
      expired. */
  predicate Accounts(s: Both, key: string, taken: bool) {
    && (taken ==> key in s.plain && key !in s.cache && SweptAway(s.plain[key], s.swept))
    && (!taken && key in s.plain && key !in s.cache ==> s.plain[key].expired > 0 && !Live(s.plain[key], s.now))
  }

  lemma SweepingAccounts(s: Both, at: nat, key: string, taken: bool)
    requires Inv(s) && Accounts(s, key, taken) && s.now <= at
    ensures Inv(Sweeping(s, at)) && Accounts(Sweeping(s, at), key, taken || SweepTakes(s.cache, key, at))
  {
  }

  lemma WriteAccounts(s: Both, k: string, e: ValuePair, at: nat, key: string, taken: bool)
    requires Inv(s) && Accounts(s, key, taken) && s.now <= at
    ensures Inv(Write(s, k, e, at)) && Accounts(Write(s, k, e, at), key, taken && k != key)
  {
  }

  lemma StepAccounts(s: Both, c: Call, key: string, taken: bool)
    requires Inv(s) && Accounts(s, key, taken) && InOrder(s, c)
    ensures Inv(Step(s, c)) && Accounts(Step(s, c), key, TakenBy(s, c, key, taken))
  {
    match c
    case Insert(k, val, exp, at, sweptAt) =>
      hide Accounts, Inv, Swept, SweepTakes;
      var e := ValuePair(val, k, at, exp);
      WriteAccounts(s, k, e, at, key, taken);
      SweepingAccounts(Write(s, k, e, at), sweptAt, key, taken && k != key);
    case Resize(at) =>
      hide Accounts, Inv, Swept, SweepTakes;
      SweepingAccounts(s, at, key, taken);
    case _ =>
  }

  lemma {:induction false} RunAccounts(s: Both, calls: seq<Call>, key: string, taken: bool)
    requires Inv(s) && Accounts(s, key, taken) && Ordered(s, calls)
    ensures Inv(Run(s, calls)) && Accounts(Run(s, calls), key, Taken(s, calls, key, taken))
    decreases |calls|
  {
    hide Inv, Accounts, Step, InOrder, TakenBy;
    if calls != [] {
      StepAccounts(s, calls[0], key, taken);
      RunAccounts(Step(s, calls[0]), calls[1..], key, TakenBy(s, calls[0], key, taken));
    }
  }

  /** Over every run with a clock that does not go back, whatever the lifetimes: a read differs
      from the plain map's if and only if a sweep of more than ten entries has taken the key since
      it was last written, and its lifetime is zero or it is read in the instant of its expiry. */
  lemma ReadsDifferExactly(calls: seq<Call>, key: string, at: nat)
    requires Ordered(START, calls) && Run(START, calls).now <= at
    ensures var s := Run(START, calls);
            Lookup(s.cache, key, at) != Lookup(s.plain, key, at) <==>
              && Taken(START, calls, key, false)
              && key in s.plain && var e := s.plain[key];
              e.expired == 0 || at == e.timestamp + e.expired
  {
    RunAccounts(START, calls, key, false);
  }

  /** The latest insert of the key that no delete came after. */
  function LastWrite(calls: seq<Call>, key: string): Option<Call> {
    if calls == [] then None
    else
      var k := |calls| - 1;
      var c := calls[k];
      if c.Insert? && c.key == key then Some(c)
      else if c.Delete? && c.key == key then None
      else LastWrite(calls[..k], key)
  }

  lemma {:induction false} RunSnoc(s: Both, calls: seq<Call>, c: Call)
    ensures Run(s, calls + [c]) == Step(Run(s, calls), c)
    decreases |calls|
  {
    hide Step;
    if calls == [] {
      assert calls + [c] == [c] && [c][1..] == [];
    } else {
      assert (calls + [c])[1..] == calls[1..] + [c];
      RunSnoc(Step(s, calls[0]), calls[1..], c);
    }
  }

  lemma {:induction false} PlainIsLastWrite(calls: seq<Call>, key: string)
    ensures var plain, w := Run(START, calls).plain, LastWrite(calls, key);
            && (key in plain <==> w.Some?)
            && (w.Some? ==> w.value.Insert? && w.value.key == key
                            && plain[key] == ValuePair(w.value.val, key, w.value.at, w.value.exp))
  {
    hide Swept;
    if calls != [] {
      var k := |calls| - 1;
      PlainIsLastWrite(calls[..k], key);
      RunSnoc(START, calls[..k], calls[k]);
      assert calls == calls[..k] + [calls[k]];
    }
  }

  /** Every read of every run, told from the calls: nothing for a key that a sweep has taken, was
      never inserted or is deleted; otherwise the value last inserted, up to and including its
      expiry, and for ever with lifetime zero. */
  lemma ReadsLastWrite(calls: seq<Call>, key: string, at: nat)
    requires Ordered(START, calls) && Run(START, calls).now <= at
    ensures var w := LastWrite(calls, key);
            && (w.Some? ==> w.value.Insert?)
            && Lookup(Run(START, calls).cache, key, at)
               == if w.Some? && !Taken(START, calls, key, false)
                     && (w.value.exp == 0 || at <= w.value.at + w.value.exp)
                  then Some(w.value.val) else None
  {
    RunAccounts(START, calls, key, false);
    PlainIsLastWrite(calls, key);
    hide Run, Taken, LastWrite;
  }

  /** In particular the instant of a differing read is that of the last sweep. */
  lemma ReadsDifferOnly(calls: seq<Call>, key: string, at: nat)
    requires Ordered(START, calls) && Run(START, calls).now <= at
    ensures var s := Run(START, calls);
            Lookup(s.cache, key, at) != Lookup(s.plain, key, at) ==>
              key in s.plain && var e := s.plain[key];
              e.expired == 0 || at == s.swept == e.timestamp + e.expired
  {
    RunAccounts(START, calls, key, false);
  }

  /** With positive lifetimes, every read made strictly after the last sweep is the plain map's. */
  lemma SweepingIsInvisible(calls: seq<Call>, key: string, at: nat)
    requires Ordered(START, calls) && Run(START, calls).now <= at && Run(START, calls).swept < at
    requires forall c | c in calls && c.Insert? :: c.exp > 0
    ensures Lookup(Run(START, calls).cache, key, at) == Lookup(Run(START, calls).plain, key, at)
  {
    ReadsDifferOnly(calls, key, at);
    PlainPositive(START, calls);
  }

  lemma {:induction false} PlainPositive(s: Both, calls: seq<Call>)
    requires forall c | c in calls && c.Insert? :: c.exp > 0
    requires forall k | k in s.plain :: s.plain[k].expired > 0
    ensures forall k | k in Run(s, calls).plain :: Run(s, calls).plain[k].expired > 0
    decreases |calls|
  {
    if calls != [] {
      assert calls[0] in calls;
      PlainPositive(Step(s, calls[0]), calls[1..]);
    }
  }

  // ---- a run where the sweep shows --------------------------------------------------------------------

  /** Ten entries, and an eleventh that is swept in the instant of its expiry. */
  function Eleven(i: nat, exp: nat): (calls: seq<Call>)
    requires i <= 10
    ensures |calls| == 11 - i
    decreases 10 - i
  {
    if i == 10 then [Insert(Dec(10), "v", exp, 0, exp)] else [Insert(Dec(i), "v", 1, 0, 0)] + Eleven(i + 1, exp)
  }

  lemma {:induction false} ElevenRun(s: Both, i: nat, exp: nat)
    requires i <= 10 && |s.cache| == i && s.now == 0
    requires forall j: nat | j >= i :: Dec(j) !in s.cache
    requires forall k | k in s.cache :: !SweptAway(s.cache[k], 0)
    ensures Ordered(s, Eleven(i, exp))
    ensures var end := Run(s, Eleven(i, exp));
            end.now == exp && Dec(10) !in end.cache && Lookup(end.plain, Dec(10), exp) == Some("v")
    decreases 10 - i
  {
    hide Dec;
    var calls := Eleven(i, exp);
    var e := ValuePair("v", Dec(i), 0, if i == 10 then exp else 1);
    var data := s.cache[Dec(i) := e];
    assert Dec(i) !in s.cache && |data| == i + 1;
    var s' := Step(s, calls[0]);
    if i == 10 {
      assert calls[1..] == [] && Dec(10) !in Swept(data, exp);
    } else {
      assert s'.cache == data && calls[1..] == Eleven(i + 1, exp);
      forall j: nat | j >= i + 1 ensures Dec(j) !in data {
        if Dec(j) == Dec(i) {
          DecInjective(i, j);
        }
      }
      ElevenRun(s', i + 1, exp);
    }
  }

  /** Eleven inserts, whatever the last one's lifetime: swept and read in the instant of its
      expiry it is gone, where the plain map still has it. */
  lemma SweepTakesLiveEntry(exp: nat)
    ensures var calls := Eleven(0, exp);
            && Ordered(START, calls) && Run(START, calls).now == exp
            && Lookup(Run(START, calls).cache, Dec(10), exp) == None
            && Lookup(Run(START, calls).plain, Dec(10), exp) == Some("v")
  {
    hide Dec;
    ElevenRun(START, 0, exp);
  }
}

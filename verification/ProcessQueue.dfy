/** The periodic task queue: the object the worker and its callers update in place, and the
    simple form that one round of the worker amounts to. */
module ProcessQueue {

  const U64_SIZE := 0x1_0000_0000_0000_0000

  type U64 = x: int | 0 <= x < 0x1_0000_0000_0000_0000

  datatype Task = Task(id: string, handler: string, cyclic: bool, last: U64, period: U64)

  /** `current_time - last_time` on unsigned 64-bit numbers, wrapping. */
  function Elapsed(now: U64, last: U64): U64 {
    if now >= last then now - last else now - last + U64_SIZE
  }

  predicate Due(t: Task, now: U64) {
    Elapsed(now, t.last) > t.period
  }

  /** More than its period has passed since the task's stamp; a stamp still to come lies a whole
      turn of the 64-bit clock back. */
  predicate PastPeriod(t: Task, now: U64) {
    || (t.last <= now && now - t.last > t.period)
    || (t.last > now && now + 0x1_0000_0000_0000_0000 - t.last > t.period)
  }

  lemma DueExactly(t: Task, now: U64)
    ensures Due(t, now) <==> PastPeriod(t, now)
  {
  }

  // ---- what the operations mean --------------------------------------------------------------

  function DueOf(q: seq<Task>, now: U64): seq<Task> {
    if q == [] then [] else (if Due(q[0], now) then [q[0]] else []) + DueOf(q[1..], now)
  }

  function OneShots(ts: seq<Task>): seq<Task> {
    if ts == [] then [] else (if ts[0].cyclic then [] else [ts[0]]) + OneShots(ts[1..])
  }

  function Ids(ts: seq<Task>): set<string> {
    set t | t in ts :: t.id
  }

  function StampIds(q: seq<Task>, ids: set<string>, now: U64): seq<Task> {
    seq(|q|, i requires 0 <= i < |q| => if q[i].id in ids then q[i].(last := now) else q[i])
  }

  /** Without the first task of that id. */
  function Without(q: seq<Task>, id: string): seq<Task> {
    if q == [] then [] else if q[0].id == id then q[1..] else [q[0]] + Without(q[1..], id)
  }

  function WithoutEach(q: seq<Task>, ts: seq<Task>): seq<Task>
    decreases |ts|
  {
    if ts == [] then q else WithoutEach(Without(q, ts[0].id), ts[1..])
  }

  predicate Distinct(q: seq<Task>) {
    forall i, j | 0 <= i < j < |q| :: q[i].id != q[j].id
  }

  lemma {:induction false} DueOfSnoc(q: seq<Task>, t: Task, now: U64)
    ensures DueOf(q + [t], now) == DueOf(q, now) + (if Due(t, now) then [t] else [])
  {
    hide Due;
    if q == [] {
      assert q + [t] == [t] && [t][1..] == [];
    } else {
      DueOfSnoc(q[1..], t, now);
      DueOfCons(q[0], q[1..], now);
      DueOfCons(q[0], q[1..] + [t], now);
      hide DueOf;
      assert q == [q[0]] + q[1..] && q + [t] == [q[0]] + (q[1..] + [t]);
    }
  }

  lemma DueOfCons(t: Task, q: seq<Task>, now: U64)
    ensures DueOf([t] + q, now) == (if Due(t, now) then [t] else []) + DueOf(q, now)
  {
    hide Due;
    assert ([t] + q)[1..] == q;
  }

  lemma {:induction false} OneShotsSnoc(q: seq<Task>, t: Task)
    ensures OneShots(q + [t]) == OneShots(q) + (if t.cyclic then [] else [t])
  {
    if q == [] {
      assert q + [t] == [t] && [t][1..] == [];
    } else {
      OneShotsSnoc(q[1..], t);
      OneShotsCons(q[0], q[1..]);
      OneShotsCons(q[0], q[1..] + [t]);
      hide OneShots;
      assert q == [q[0]] + q[1..] && q + [t] == [q[0]] + (q[1..] + [t]);
    }
  }

  lemma OneShotsCons(t: Task, q: seq<Task>)
    ensures OneShots([t] + q) == (if t.cyclic then [] else [t]) + OneShots(q)
  {
    assert ([t] + q)[1..] == q;
  }

  lemma {:induction false} WithoutAt(q: seq<Task>, i: nat)
    requires i < |q| && forall j | 0 <= j < i :: q[j].id != q[i].id
    ensures Without(q, q[i].id) == q[..i] + q[i + 1..]
  {
    if i > 0 {
      WithoutAt(q[1..], i - 1);
      assert q[..i] == [q[0]] + q[1..][..i - 1];
    }
  }

  lemma WithoutNone(q: seq<Task>, id: string)
    requires forall t | t in q :: t.id != id
    ensures Without(q, id) == q
  {
    if q != [] {
      WithoutNone(q[1..], id);
      assert [q[0]] + q[1..] == q;
    }
  }

  lemma {:induction false} WithoutEachSnoc(q: seq<Task>, ts: seq<Task>, t: Task)
    ensures WithoutEach(q, ts + [t]) == Without(WithoutEach(q, ts), t.id)
    decreases |ts|
  {
    if ts == [] {
      assert ts + [t] == [t] && [t][1..] == [];
    } else {
      assert (ts + [t])[1..] == ts[1..] + [t];
      WithoutEachSnoc(Without(q, ts[0].id), ts[1..], t);
    }
  }

  // ---- the object ------------------------------------------------------------------------------

  class ProcessQueue {
    var queue: seq<Task>

    constructor ()
      ensures queue == []
    {
      queue := [];
    }

    method QueueAdd(task: Task)
      modifies this
      ensures queue == old(queue) + [task]
    {
      queue := queue + [task];
    }

    method QueueRemove(task: Task)
      modifies this
      ensures queue == Without(old(queue), task.id)
    {
      for i := 0 to |queue|
        invariant queue == old(queue)
        invariant forall j | 0 <= j < i :: queue[j].id != task.id
      {
        if task.id == queue[i].id {
          WithoutAt(queue, i);
          queue := queue[..i] + queue[i + 1..];
          return;
        }
      }
      WithoutNone(queue, task.id);
    }

    /** `update_task_lasttime`: stamps every task of that id. */
    method UpdateTaskLastTime(task: Task, now: U64)
      modifies this
      ensures queue == StampIds(old(queue), {task.id}, now)
    {
      for i := 0 to |queue|
        invariant |queue| == |old(queue)|
        invariant forall j | 0 <= j < i :: queue[j] == StampIds(old(queue), {task.id}, now)[j]
        invariant forall j | i <= j < |queue| :: queue[j] == old(queue)[j]
      {
        if task.id == queue[i].id {
          queue := queue[i := queue[i].(last := now)];
        }
      }
    }

    /** The pass under the read lock: over a snapshot, dispatch what is due, stamp the live
        entries by id, and collect the one-shot tasks. */
    method Pass(now: U64) returns (dispatched: seq<Task>, shouldRemove: seq<Task>)
      modifies this
      ensures dispatched == DueOf(old(queue), now)
      ensures forall t :: t in dispatched <==> t in old(queue) && PastPeriod(t, now)
      ensures shouldRemove == OneShots(dispatched)
      ensures queue == StampIds(old(queue), Ids(dispatched), now)
    {
      hide Due, PastPeriod;
      DispatchedExactly(queue, now);
      var snapshot := queue;
      dispatched, shouldRemove := [], [];
      assert snapshot[..0] == [];
      for k := 0 to |snapshot|
        invariant dispatched == DueOf(snapshot[..k], now)
        invariant shouldRemove == OneShots(dispatched)
        invariant queue == StampIds(snapshot, Ids(dispatched), now)
      {
        var ct := snapshot[k];
        assert snapshot[..k + 1] == snapshot[..k] + [ct];
        DueOfSnoc(snapshot[..k], ct, now);
        if Due(ct, now) {
          UpdateTaskLastTime(ct, now);
          StampBoth(snapshot, dispatched, ct, now);
          OneShotsSnoc(dispatched, ct);
          dispatched := dispatched + [ct];
          if !ct.cyclic {
            shouldRemove := shouldRemove + [ct];
          }
        }
      }
      assert snapshot[..|snapshot|] == snapshot;
    }

    /** One whole round with nothing in between: the pass, then the removals one by one. */
    method Round(now: U64) returns (dispatched: seq<Task>)
      modifies this
      ensures dispatched == DueOf(old(queue), now)
      ensures forall t :: t in dispatched <==> t in old(queue) && PastPeriod(t, now)
      ensures Distinct(old(queue)) ==> queue == RoundOf(old(queue), now)
    {
      var shouldRemove;
      dispatched, shouldRemove := Pass(now);
      ghost var stamped := queue;
      for k := 0 to |shouldRemove|
        invariant queue == WithoutEach(stamped, shouldRemove[..k])
      {
        WithoutEachSnoc(stamped, shouldRemove[..k], shouldRemove[k]);
        assert shouldRemove[..k + 1] == shouldRemove[..k] + [shouldRemove[k]];
        QueueRemove(shouldRemove[k]);
      }
      assert shouldRemove[..|shouldRemove|] == shouldRemove;
      if Distinct(old(queue)) {
        StampIsSimple(old(queue), now);
        RoundIsSimple(old(queue), now);
      }
    }
  }

  lemma DispatchedExactly(q: seq<Task>, now: U64)
    ensures forall t :: t in DueOf(q, now) <==> t in q && PastPeriod(t, now)
  {
    DueOfMembers(q, now);
    hide Due, PastPeriod;
    forall t: Task ensures Due(t, now) <==> PastPeriod(t, now) {
      DueExactly(t, now);
    }
  }

  lemma StampBoth(q: seq<Task>, ts: seq<Task>, t: Task, now: U64)
    ensures StampIds(StampIds(q, Ids(ts), now), {t.id}, now) == StampIds(q, Ids(ts + [t]), now)
  {
    assert Ids(ts + [t]) == Ids(ts) + {t.id} by {
      assert t in ts + [t];
    }
  }

  // ---- the simple form ---------------------------------------------------------------------------

  function StampedIfDue(t: Task, now: U64): Task {
    if Due(t, now) then t.(last := now) else t
  }

  function Stamped(q: seq<Task>, now: U64): seq<Task> {
    if q == [] then [] else [StampedIfDue(q[0], now)] + Stamped(q[1..], now)
  }

  /** Due one-shot tasks are gone, due cyclic tasks are stamped, all else is as it was. */
  function RoundOf(q: seq<Task>, now: U64): seq<Task> {
    if q == [] then []
    else (if Due(q[0], now) && !q[0].cyclic then [] else [StampedIfDue(q[0], now)]) + RoundOf(q[1..], now)
  }

  /** What a round makes of each task: due one-shot tasks go, due cyclic ones are stamped, all others
      stay, and nothing comes in. */
  lemma {:induction false} RoundExactly(q: seq<Task>, now: U64)
    ensures forall u :: u in RoundOf(q, now) <==>
              || (u in q && !PastPeriod(u, now))
              || exists t :: t in q && PastPeriod(t, now) && t.cyclic && u == t.(last := now)
  {
    if q != [] {
      DueExactly(q[0], now);
      hide Due, PastPeriod;
      RoundExactly(q[1..], now);
      assert q == [q[0]] + q[1..];
    }
  }

  lemma {:induction false} DueOfMembers(q: seq<Task>, now: U64)
    ensures forall t :: t in DueOf(q, now) <==> t in q && Due(t, now)
  {
    if q != [] {
      DueOfMembers(q[1..], now);
      hide Due;
    }
  }

  lemma {:induction false} OneShotMembers(ts: seq<Task>)
    ensures forall t :: t in OneShots(ts) <==> t in ts && !t.cyclic
  {
    if ts != [] {
      OneShotMembers(ts[1..]);
    }
  }

  lemma DistinctTail(q: seq<Task>)
    requires q != [] && Distinct(q)
    ensures Distinct(q[1..])
    ensures forall t | t in q[1..] :: t.id != q[0].id
  {
  }

  /** With distinct ids, stamping by the ids of the due tasks stamps the due tasks. */
  lemma {:induction false} StampIsSimple(q: seq<Task>, now: U64)
    requires Distinct(q)
    ensures StampIds(q, Ids(DueOf(q, now)), now) == Stamped(q, now)
  {
    hide Due;
    StampedAt(q, now);
    DueOfMembers(q, now);
    forall i | 0 <= i < |q| ensures q[i].id in Ids(DueOf(q, now)) <==> Due(q[i], now) {
      if q[i].id in Ids(DueOf(q, now)) {
        var t :| t in DueOf(q, now) && t.id == q[i].id;
        assert t in q;
      }
      assert Due(q[i], now) ==> q[i] in DueOf(q, now);
    }
  }

  lemma {:induction false} StampedAt(q: seq<Task>, now: U64)
    ensures |Stamped(q, now)| == |q|
    ensures forall i | 0 <= i < |q| :: Stamped(q, now)[i] == StampedIfDue(q[i], now)
  {
    if q != [] {
      StampedAt(q[1..], now);
    }
  }

  lemma {:induction false} WithoutEachSkips(t: Task, q: seq<Task>, ts: seq<Task>)
    requires forall u | u in ts :: u.id != t.id
    ensures WithoutEach([t] + q, ts) == [t] + WithoutEach(q, ts)
    decreases |ts|
  {
    if ts != [] {
      assert ts[0] in ts && ([t] + q)[1..] == q;
      WithoutEachSkips(t, Without(q, ts[0].id), ts[1..]);
    }
  }

  /** Removing the due one-shot tasks one at a time leaves exactly the round's simple form. */
  lemma {:induction false} RoundIsSimple(q: seq<Task>, now: U64)
    requires Distinct(q)
    ensures WithoutEach(Stamped(q, now), OneShots(DueOf(q, now))) == RoundOf(q, now)
  {
    hide Due;
    if q != [] {
      var t, rest := q[0], q[1..];
      var head, due := StampedIfDue(t, now), OneShots(DueOf(rest, now));
      DistinctTail(q);
      RoundIsSimple(rest, now);
      DueOfMembers(rest, now);
      OneShotMembers(DueOf(rest, now));
      assert ([head] + Stamped(rest, now))[1..] == Stamped(rest, now);
      DueHead(q, now);
      if Due(t, now) && !t.cyclic {
        assert ([t] + due)[1..] == due;
      } else {
        assert [] + due == due;
        WithoutEachSkips(head, Stamped(rest, now), due);
      }
    }
  }

  lemma DueHead(q: seq<Task>, now: U64)
    requires q != []
    ensures OneShots(DueOf(q, now))
         == (if Due(q[0], now) && !q[0].cyclic then [q[0]] else []) + OneShots(DueOf(q[1..], now))
  {
    hide Due;
    var rest := DueOf(q[1..], now);
    if Due(q[0], now) {
      assert ([q[0]] + rest)[1..] == rest;
    } else {
      assert [] + rest == rest;
    }
  }
}

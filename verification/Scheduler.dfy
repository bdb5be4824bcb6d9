/** The worker and its callers as a state machine, and what holds over every run of it. */
module Scheduler {
  import opened ProcessQueue

  datatype Dispatch = Dispatch(task: Task, at: U64)

  /** Where the worker is: waiting, between reading the clock and taking the read lock, or
      removing the one-shot tasks of the last pass one by one. */
  datatype Phase = Idle | Timed(now: U64) | Removing(pending: seq<Task>)

  datatype System = System(clock: U64, queue: seq<Task>, phase: Phase,
                           log: seq<Dispatch>, created: map<string, Task>, taken: seq<string>)

  datatype Event =
    | Tick(seconds: nat)
    | ReadClock
    | Pass
    | RemoveNext
    | EndRound
    | Add(task: Task)
    | Remove(id: string)

  function Init(clock: U64): System {
    System(clock, [], Idle, [], map[], [])
  }

  /** Added tasks have fresh ids and were stamped no later than now. */
  predicate Enabled(s: System, e: Event) {
    match e
    case Tick(seconds) => s.clock + seconds < U64_SIZE
    case ReadClock => s.phase.Idle?
    case Pass => s.phase.Timed?
    case RemoveNext => s.phase.Removing? && s.phase.pending != []
    case EndRound => s.phase.Removing? && s.phase.pending == []
    case Add(task) => task.id !in s.created && task.last <= s.clock
    case Remove(_) => true
  }

  function Entries(ts: seq<Task>, now: U64): (r: seq<Dispatch>)
    ensures |r| == |ts| && forall i | 0 <= i < |ts| :: r[i] == Dispatch(ts[i], now)
  {
    seq(|ts|, i requires 0 <= i < |ts| => Dispatch(ts[i], now))
  }

  function Taken(s: System, id: string): System {
    s.(queue := Without(s.queue, id), taken := if id in Ids(s.queue) then s.taken + [id] else s.taken)
  }

  function Next(s: System, e: Event): System
    requires Enabled(s, e)
  {
    match e
    case Tick(seconds) => s.(clock := s.clock + seconds)
    case ReadClock => s.(phase := Timed(s.clock))
    case Pass =>
      var now, due := s.phase.now, DueOf(s.queue, s.phase.now);
      s.(queue := StampIds(s.queue, Ids(due), now), phase := Removing(OneShots(due)), log := s.log + Entries(due, now))
    case RemoveNext => Taken(s, s.phase.pending[0].id).(phase := Removing(s.phase.pending[1..]))
    case EndRound => s.(phase := Idle)
    case Add(task) => s.(queue := s.queue + [task], created := s.created[task.id := task])
    case Remove(id) => Taken(s, id)
  }

  predicate Legal(s: System, es: seq<Event>)
    decreases |es|
  {
    es == [] || (Enabled(s, es[0]) && Legal(Next(s, es[0]), es[1..]))
  }

  function After(s: System, es: seq<Event>): System
    requires Legal(s, es)
    decreases |es|
  {
    if es == [] then s else After(Next(s, es[0]), es[1..])
  }

  /** An event on the queue object itself: the machine's queue is the object's, and the pass logs what
      the object dispatches. A removal goes by the id alone. */
  method Perform(pq: ProcessQueue, s: System, e: Event) returns (dispatched: seq<Task>)
    requires Enabled(s, e) && pq.queue == s.queue
    modifies pq
    ensures pq.queue == Next(s, e).queue
    ensures e.Pass? ==> Next(s, e).log == s.log + Entries(dispatched, s.phase.now)
    ensures e.Pass? ==> Next(s, e).phase == Removing(OneShots(dispatched))
    ensures !e.Pass? ==> dispatched == [] && Next(s, e).log == s.log
  {
    dispatched := [];
    match e
    case Pass =>
      var shouldRemove;
      dispatched, shouldRemove := pq.Pass(s.phase.now);
    case RemoveNext => pq.QueueRemove(s.phase.pending[0]);
    case Add(task) => pq.QueueAdd(task);
    case Remove(id) => pq.QueueRemove(Task(id, "", false, 0, 0));
    case Tick(_) | ReadClock | EndRound =>
  }

  // ---- removing ----------------------------------------------------------------------------------

  lemma {:induction false} WithoutMembers(q: seq<Task>, id: string)
    ensures forall t | t in Without(q, id) :: t in q
    ensures forall t | t in q && t.id != id :: t in Without(q, id)
  {
    if q != [] {
      WithoutMembers(q[1..], id);
      assert q == [q[0]] + q[1..];
    }
  }

  lemma DistinctCons(t: Task, rest: seq<Task>)
    requires Distinct(rest) && forall u | u in rest :: u.id != t.id
    ensures Distinct([t] + rest)
  {
    var q := [t] + rest;
    forall i, j | 0 <= i < j < |q| ensures q[i].id != q[j].id {
      assert q[j] == rest[j - 1] && q[j] in rest;
    }
  }

  lemma {:induction false} WithoutDistinct(q: seq<Task>, id: string)
    requires Distinct(q)
    ensures Distinct(Without(q, id)) && forall t | t in Without(q, id) :: t.id != id
  {
    if q != [] {
      DistinctTail(q);
      WithoutMembers(q[1..], id);
      WithoutDistinct(q[1..], id);
      if q[0].id != id {
        var rest := Without(q[1..], id);
        assert forall t | t in rest :: t.id != q[0].id;
        DistinctCons(q[0], rest);
      }
    }
  }

  lemma WithoutFacts(q: seq<Task>, id: string)
    requires Distinct(q)
    ensures forall t | t in Without(q, id) :: t in q && t.id != id
    ensures forall t | t in q && t.id != id :: t in Without(q, id)
    ensures Distinct(Without(q, id))
  {
    WithoutMembers(q, id);
    WithoutDistinct(q, id);
  }

  function IdBag(q: seq<Task>): multiset<string> {
    if q == [] then multiset{} else multiset{q[0].id} + IdBag(q[1..])
  }

  lemma {:induction false} IdBagWithout(q: seq<Task>, id: string)
    ensures id in Ids(q) ==> IdBag(q) == IdBag(Without(q, id)) + multiset{id}
    ensures id !in Ids(q) ==> Without(q, id) == q
  {
    if id !in Ids(q) {
      WithoutNone(q, id);
    } else if q[0].id != id {
      assert q == [q[0]] + q[1..];
      IdBagWithout(q[1..], id);
      assert ([q[0]] + Without(q[1..], id))[1..] == Without(q[1..], id);
    }
  }

  lemma {:induction false} IdBagSnoc(q: seq<Task>, t: Task)
    ensures IdBag(q + [t]) == IdBag(q) + multiset{t.id}
  {
    if q == [] {
      assert q + [t] == [t] && [t][1..] == [];
    } else {
      assert (q + [t])[1..] == q[1..] + [t];
      IdBagSnoc(q[1..], t);
    }
  }

  lemma {:induction false} IdBagSame(q: seq<Task>, r: seq<Task>)
    requires |q| == |r| && forall i | 0 <= i < |q| :: q[i].id == r[i].id
    ensures IdBag(q) == IdBag(r)
  {
    if q != [] {
      IdBagSame(q[1..], r[1..]);
    }
  }

  // ---- invariants ----------------------------------------------------------------------------------

  /** `t` is as it was added under its id, but for its stamp. */
  predicate Original(t: Task, created: map<string, Task>) {
    t.id in created && created[t.id].(last := t.last) == t
  }

  predicate Known(s: System) {
    && Distinct(s.queue)
    && (forall t | t in s.queue :: Original(t, s.created))
    && (s.phase.Removing? ==> forall t | t in s.phase.pending :: !t.cyclic && Original(t, s.created))
    && (forall d | d in s.log :: Original(d.task, s.created))
  }

  /** A one-shot task that was dispatched is in the queue only while its removal is pending. */
  predicate Spent(s: System) {
    forall d | d in s.log && !d.task.cyclic && d.task.id in Ids(s.queue) ::
      s.phase.Removing? && d.task.id in Ids(s.phase.pending)
  }

  predicate OnceOnly(log: seq<Dispatch>) {
    forall i, j | 0 <= i < j < |log| && log[i].task.id == log[j].task.id :: log[i].task.cyclic
  }

  predicate Conserved(s: System) {
    multiset(s.created.Keys) == IdBag(s.queue) + multiset(s.taken)
  }

  predicate Inv(s: System) {
    Known(s) && Spent(s) && OnceOnly(s.log) && Conserved(s)
  }

  lemma PassKeepsKnown(s: System)
    requires Known(s) && s.phase.Timed?
    ensures Known(Next(s, Pass))
    ensures Ids(Next(s, Pass).queue) == Ids(s.queue)
  {
    hide Due;
    var now := s.phase.now;
    var due, q := DueOf(s.queue, now), Next(s, Pass).queue;
    DueOfMembers(s.queue, now);
    OneShotMembers(due);
    forall i | 0 <= i < |q| ensures q[i].id == s.queue[i].id && Original(q[i], s.created) {
      assert s.queue[i] in s.queue;
    }
    assert Ids(q) == Ids(s.queue) by {
      forall id | id in Ids(s.queue) ensures id in Ids(q) {
        var i :| 0 <= i < |s.queue| && s.queue[i].id == id;
        assert q[i] in q;
      }
    }
    var log := s.log + Entries(due, now);
    forall d | d in log ensures Original(d.task, s.created) {
      if d !in s.log {
        var i :| 0 <= i < |due| && d == Entries(due, now)[i];
        assert due[i] in due;
      }
    }
  }

  lemma TakenKeepsKnown(s: System, id: string)
    requires Known(s)
    ensures Known(Taken(s, id)) && id !in Ids(Taken(s, id).queue) && Ids(Taken(s, id).queue) <= Ids(s.queue)
  {
    WithoutFacts(s.queue, id);
  }

  lemma StepKeepsKnown(s: System, e: Event)
    requires Known(s) && Enabled(s, e)
    ensures Known(Next(s, e))
  {
    match e
    case Pass => PassKeepsKnown(s);
    case RemoveNext => TakenKeepsKnown(s, s.phase.pending[0].id);
    case Remove(id) => TakenKeepsKnown(s, id);
    case Add(task) =>
      assert forall t | t in s.queue :: t.id != task.id;
    case _ =>
  }

  /** The due tasks of a pass have distinct ids. */
  lemma {:induction false} DueDistinct(q: seq<Task>, now: U64)
    requires Distinct(q)
    ensures Distinct(DueOf(q, now))
  {
    hide Due;
    if q != [] {
      DistinctTail(q);
      DueDistinct(q[1..], now);
      DueOfMembers(q[1..], now);
      var all, rest := DueOf(q, now), DueOf(q[1..], now);
      if Due(q[0], now) {
        forall i, j | 0 <= i < j < |all| ensures all[i].id != all[j].id {
          assert all[j] == rest[j - 1] && rest[j - 1] in rest;
        }
      }
    }
  }

  lemma PassKeepsOnce(s: System)
    requires Known(s) && Spent(s) && OnceOnly(s.log) && s.phase.Timed?
    ensures Spent(Next(s, Pass)) && OnceOnly(Next(s, Pass).log)
  {
    hide Due, Original;
    var now := s.phase.now;
    var due, s' := DueOf(s.queue, now), Next(s, Pass);
    DueOfMembers(s.queue, now);
    OneShotMembers(due);
    DueDistinct(s.queue, now);
    PassKeepsKnown(s);
    forall d | d in s'.log && !d.task.cyclic && d.task.id in Ids(s'.queue)
      ensures d.task.id in Ids(s'.phase.pending)
    {
      if d !in s.log {
        var i :| 0 <= i < |due| && d == Entries(due, now)[i];
        assert due[i] in due && due[i] in OneShots(due);
      }
    }
    assert Distinct(due);
    SpentNotLogged(s);
    LogOnce(s.log, due, now);
  }

  lemma SpentNotLogged(s: System)
    requires Spent(s) && s.phase.Timed?
    ensures forall d, t | d in s.log && t in DueOf(s.queue, s.phase.now) && d.task.id == t.id :: d.task.cyclic
  {
    hide Due;
    DueOfMembers(s.queue, s.phase.now);
    forall d, t | d in s.log && t in DueOf(s.queue, s.phase.now) && d.task.id == t.id ensures d.task.cyclic {
      assert t in s.queue && d.task.id in Ids(s.queue);
    }
  }

  lemma LogOnce(log: seq<Dispatch>, due: seq<Task>, now: U64)
    requires OnceOnly(log) && Distinct(due)
    requires forall d, t | d in log && t in due && d.task.id == t.id :: d.task.cyclic
    ensures OnceOnly(log + Entries(due, now))
  {
    var all, n := log + Entries(due, now), |log|;
    forall i, j | 0 <= i < j < |all| && all[i].task.id == all[j].task.id ensures all[i].task.cyclic {
      if j >= n {
        assert all[j].task == due[j - n] && due[j - n] in due;
        assert i < n ==> all[i] in log;
      }
    }
  }

  lemma StepKeepsOnce(s: System, e: Event)
    requires Known(s) && Spent(s) && OnceOnly(s.log) && Enabled(s, e)
    ensures Spent(Next(s, e)) && OnceOnly(Next(s, e).log)
  {
    match e
    case Pass => PassKeepsOnce(s);
    case RemoveNext =>
      var id := s.phase.pending[0].id;
      TakenKeepsKnown(s, id);
      forall d | d in s.log && !d.task.cyclic && d.task.id in Ids(Next(s, e).queue)
        ensures d.task.id in Ids(s.phase.pending[1..])
      {
        var t :| t in s.phase.pending && t.id == d.task.id;
        assert t in s.phase.pending[1..];
      }
    case Remove(id) => TakenKeepsKnown(s, id);
    case Add(task) =>
      forall d | d in s.log && d.task.id in Ids(s.queue + [task]) ensures d.task.id in Ids(s.queue) {
        assert d.task.id in s.created;
      }
    case _ =>
  }

  lemma TakenConserves(s: System, id: string)
    requires Conserved(s)
    ensures Conserved(Taken(s, id))
  {
    IdBagWithout(s.queue, id);
  }

  lemma AddConserves(created: map<string, Task>, queue: seq<Task>, taken: multiset<string>, task: Task)
    requires multiset(created.Keys) == IdBag(queue) + taken && task.id !in created
    ensures multiset(created[task.id := task].Keys) == IdBag(queue + [task]) + taken
  {
    IdBagSnoc(queue, task);
    hide IdBag;
    assert created[task.id := task].Keys == created.Keys + {task.id};
    assert multiset(created.Keys + {task.id}) == multiset(created.Keys) + multiset{task.id};
  }

  lemma StepConserves(s: System, e: Event)
    requires Conserved(s) && Enabled(s, e)
    ensures Conserved(Next(s, e))
  {
    hide IdBag, DueOf, OneShots;
    match e
    case Pass => IdBagSame(s.queue, Next(s, e).queue);
    case RemoveNext => TakenConserves(s, s.phase.pending[0].id);
    case Remove(id) => TakenConserves(s, id);
    case Add(task) => AddConserves(s.created, s.queue, multiset(s.taken), task);
    case _ =>
  }

  lemma StepKeepsInv(s: System, e: Event)
    requires Inv(s) && Enabled(s, e)
    ensures Inv(Next(s, e))
  {
    StepKeepsKnown(s, e);
    StepKeepsOnce(s, e);
    StepConserves(s, e);
  }

  lemma {:induction false} RunKeepsInv(s: System, es: seq<Event>)
    requires Inv(s) && Legal(s, es)
    ensures Inv(After(s, es))
    decreases |es|
  {
    hide Inv, Enabled, Next;
    if es != [] {
      StepKeepsInv(s, es[0]);
      RunKeepsInv(Next(s, es[0]), es[1..]);
    }
  }

  // ---- what holds over every run -----------------------------------------------------------------------

  /** A one-shot task is dispatched at most once, and once dispatched it is in no later snapshot:
      when the worker has read the clock for a pass, it is no longer in the queue. */
  lemma AtMostOnce(clock: U64, es: seq<Event>)
    requires Legal(Init(clock), es)
    ensures var s := After(Init(clock), es);
            && (forall i, j | 0 <= i < j < |s.log| && s.log[i].task.id == s.log[j].task.id :: s.log[i].task.cyclic)
            && (s.phase.Timed? ==> forall d | d in s.log && !d.task.cyclic :: d.task.id !in Ids(s.queue))
  {
    InitInv(clock);
    RunKeepsInv(Init(clock), es);
  }

  lemma InitInv(clock: U64)
    ensures Inv(Init(clock))
  {
  }

  /** Every task ever added is either queued or was taken out, once. */
  lemma Conservation(clock: U64, es: seq<Event>)
    requires Legal(Init(clock), es)
    ensures var s := After(Init(clock), es);
            multiset(s.created.Keys) == IdBag(s.queue) + multiset(s.taken)
  {
    InitInv(clock);
    RunKeepsInv(Init(clock), es);
  }

  /** The worker's own removals leave every cyclic task in the queue. */
  lemma WorkerKeepsCyclic(clock: U64, es: seq<Event>)
    requires Legal(Init(clock), es) && Enabled(After(Init(clock), es), RemoveNext)
    ensures var s := After(Init(clock), es);
            forall t | t in s.queue && t.cyclic :: t in Next(s, RemoveNext).queue
  {
    InitInv(clock);
    RunKeepsInv(Init(clock), es);
    var s := After(Init(clock), es);
    var p := s.phase.pending[0];
    assert p in s.phase.pending;
    WithoutFacts(s.queue, p.id);
  }

  // ---- the worker's round as events ----------------------------------------------------------------

  /** Callers may always remove, may add a fresh task stamped by now, and the clock may go on while it
      fits; the worker always has exactly one next step. */
  lemma EnabledExactly(s: System)
    ensures forall id :: Enabled(s, Remove(id))
    ensures forall t: Task :: Enabled(s, Add(t)) <==> t.id !in s.created && t.last <= s.clock
    ensures forall n: nat :: Enabled(s, Tick(n)) <==> s.clock + n < 0x1_0000_0000_0000_0000
    ensures Enabled(s, ReadClock) <==> s.phase.Idle?
    ensures Enabled(s, Pass) <==> s.phase.Timed?
    ensures Enabled(s, RemoveNext) <==> s.phase.Removing? && |s.phase.pending| > 0
    ensures Enabled(s, EndRound) <==> s.phase.Removing? && |s.phase.pending| == 0
  {
  }

  function RemoveAll(k: nat): seq<Event> {
    if k == 0 then [EndRound] else [RemoveNext] + RemoveAll(k - 1)
  }

  lemma {:induction false} RemovesAll(s: System)
    requires s.phase.Removing?
    ensures var ts := s.phase.pending;
            var es := RemoveAll(|ts|);
            && Legal(s, es)
            && After(s, es) == s.(queue := WithoutEach(s.queue, ts), phase := Idle, taken := After(s, es).taken)
    decreases |s.phase.pending|
  {
    hide Without;
    var ts := s.phase.pending;
    var es := RemoveAll(|ts|);
    if ts == [] {
      assert es[1..] == [] && Legal(Next(s, EndRound), []);
    } else {
      var s' := Next(s, RemoveNext);
      RemovesAll(s');
      assert es[1..] == RemoveAll(|ts| - 1);
      assert WithoutEach(s.queue, ts) == WithoutEach(s'.queue, ts[1..]);
    }
  }

  /** From rest, the worker's steps with nothing in between are one round: what is due by the clock is
      dispatched in queue order, the queue ends in its simple form, and the worker is at rest again. */
  lemma RoundAsEvents(s: System)
    requires Known(s) && s.phase.Idle?
    ensures var due := DueOf(s.queue, s.clock);
            var es := [ReadClock, Pass] + RemoveAll(|OneShots(due)|);
            && Legal(s, es)
            && After(s, es) == s.(queue := RoundOf(s.queue, s.clock), log := s.log + Entries(due, s.clock),
                                  taken := After(s, es).taken)
  {
    var now, due := s.clock, DueOf(s.queue, s.clock);
    var rest := RemoveAll(|OneShots(due)|);
    var es := [ReadClock, Pass] + rest;
    var s1 := Next(s, ReadClock);
    var s2 := Next(s1, Pass);
    StampIsSimple(s.queue, now);
    RoundIsSimple(s.queue, now);
    RemovesAll(s2);
    hide DueOf, OneShots, RemoveAll, WithoutEach, StampIds, Stamped, RoundOf, Entries;
    assert es[1..] == [Pass] + rest && ([Pass] + rest)[1..] == rest;
    assert Legal(s1, es[1..]) && After(s1, es[1..]) == After(s2, rest);
  }
}

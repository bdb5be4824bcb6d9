/** When dispatches keep their distance: the first comes more than a period after a task's
    creation, and every next one more than a period after the one before. */
module TaskSpacing {
  import opened Text
  import opened ProcessQueue
  import opened Scheduler

  /** The time of the latest dispatch of `id`, or else its creation stamp. */
  function LastStamp(log: seq<Dispatch>, created: map<string, Task>, id: string): int {
    if log == [] then (if id in created then created[id].last else 0)
    else
      var d := log[|log| - 1];
      if d.task.id == id then d.at else LastStamp(log[..|log| - 1], created, id)
  }

  predicate Spaced(log: seq<Dispatch>, created: map<string, Task>) {
    log == [] ||
    (var k := |log| - 1;
     Spaced(log[..k], created)
     && log[k].at - LastStamp(log[..k], created, log[k].task.id) > log[k].task.period)
  }

  /** A queued task carries the time of its latest dispatch, or its creation stamp. */
  predicate CarriesStamps(s: System) {
    forall t | t in s.queue :: t.last == LastStamp(s.log, s.created, t.id)
  }

  /** No due task was stamped after the time the pass goes by. */
  predicate OnTime(s: System)
    requires s.phase.Timed?
  {
    forall t | t in s.queue && Due(t, s.phase.now) :: t.last <= s.phase.now
  }

  predicate AllOnTime(s: System, es: seq<Event>)
    requires Legal(s, es)
    decreases |es|
  {
    es == [] || ((es[0].Pass? ==> OnTime(s)) && AllOnTime(Next(s, es[0]), es[1..]))
  }

  // ---- the log grows -------------------------------------------------------------------------------

  lemma {:induction false} LastStampSkips(log: seq<Dispatch>, more: seq<Dispatch>, created: map<string, Task>,
                                          id: string)
    requires forall d | d in more :: d.task.id != id
    ensures LastStamp(log + more, created, id) == LastStamp(log, created, id)
  {
    if more == [] {
      assert log + more == log;
    } else {
      var k := |more| - 1;
      assert (log + more)[..|log| + k] == log + more[..k];
      assert more[k] in more;
      LastStampSkips(log, more[..k], created, id);
    }
  }

  lemma {:induction false} LastStampHits(log: seq<Dispatch>, more: seq<Dispatch>, created: map<string, Task>,
                                         id: string, now: U64)
    requires exists d :: d in more && d.task.id == id
    requires forall d | d in more :: d.at == now
    ensures LastStamp(log + more, created, id) == now
  {
    var k := |more| - 1;
    assert more[k] in more;
    if more[k].task.id != id {
      assert (log + more)[..|log| + k] == log + more[..k];
      var d :| d in more && d.task.id == id;
      assert d in more[..k];
      LastStampHits(log, more[..k], created, id, now);
    }
  }

  lemma OthersBefore(due: seq<Task>, now: U64)
    requires Distinct(due) && due != []
    ensures var k := |due| - 1; forall d | d in Entries(due[..k], now) :: d.task.id != due[k].id
  {
    var k := |due| - 1;
    forall d | d in Entries(due[..k], now) ensures d.task.id != due[k].id {
      var i :| 0 <= i < k && d == Entries(due[..k], now)[i];
    }
  }

  /** The dispatches of one pass are spaced exactly when each is, on its own, after the log. */
  lemma {:induction false} SpacedEntries(log: seq<Dispatch>, created: map<string, Task>, due: seq<Task>, now: U64)
    requires Distinct(due)
    ensures Spaced(log + Entries(due, now), created)
       <==> Spaced(log, created) && forall t | t in due :: now - LastStamp(log, created, t.id) > t.period
  {
    hide LastStamp, Spaced, Entries;
    var more := Entries(due, now);
    if due == [] {
      assert log + more == log;
    } else {
      var k := |due| - 1;
      var front := due[..k];
      assert Entries(front, now) == more[..k] && more[k] == Dispatch(due[k], now);
      SpacedEntries(log, created, front, now);
      assert log + more == log + more[..k] + [more[k]];
      SpacedSnoc(log + more[..k], more[k], created);
      OthersBefore(due, now);
      LastStampSkips(log, more[..k], created, due[k].id);
      assert due == front + [due[k]];
    }
  }

  lemma SpacedSnoc(log: seq<Dispatch>, d: Dispatch, created: map<string, Task>)
    ensures Spaced(log + [d], created)
       <==> Spaced(log, created) && d.at - LastStamp(log, created, d.task.id) > d.task.period
  {
    hide LastStamp;
    assert (log + [d])[..|log|] == log;
  }

  lemma {:induction false} LastStampFrame(log: seq<Dispatch>, created: map<string, Task>, task: Task, id: string)
    requires task.id !in created && id in created
    ensures LastStamp(log, created[task.id := task], id) == LastStamp(log, created, id)
  {
    if log != [] {
      LastStampFrame(log[..|log| - 1], created, task, id);
    }
  }

  lemma {:induction false} SpacedFrame(log: seq<Dispatch>, created: map<string, Task>, task: Task)
    requires task.id !in created && forall d | d in log :: d.task.id in created
    ensures Spaced(log, created[task.id := task]) <==> Spaced(log, created)
  {
    if log != [] {
      var k := |log| - 1;
      assert log[k] in log;
      SpacedFrame(log[..k], created, task);
      LastStampFrame(log[..k], created, task, log[k].task.id);
    }
  }

  // ---- one step ---------------------------------------------------------------------------------------

  lemma PassKeepsStamps(s: System)
    requires Known(s) && CarriesStamps(s) && s.phase.Timed?
    ensures CarriesStamps(Next(s, Pass))
  {
    hide Due, LastStamp;
    var now := s.phase.now;
    var due, q := DueOf(s.queue, now), Next(s, Pass).queue;
    var more := Entries(due, now);
    forall t | t in q ensures t.last == LastStamp(s.log + more, s.created, t.id) {
      var i :| 0 <= i < |q| && q[i] == t;
      var was := s.queue[i];
      assert was in s.queue && was.id == t.id;
      if t.id in Ids(due) {
        var u :| u in due && u.id == t.id;
        var j :| 0 <= j < |due| && due[j] == u;
        assert more[j] in more && more[j].task.id == t.id;
        LastStampHits(s.log, more, s.created, t.id, now);
      } else {
        forall d | d in more ensures d.task.id != t.id {
          var j :| 0 <= j < |more| && more[j] == d;
          assert due[j] in due;
        }
        LastStampSkips(s.log, more, s.created, t.id);
      }
    }
  }

  lemma AddKeepsStamps(s: System, task: Task)
    requires Known(s) && CarriesStamps(s) && Enabled(s, Add(task))
    ensures CarriesStamps(Next(s, Add(task)))
  {
    var s' := s.(queue := s.queue + [task], created := s.created[task.id := task]);
    forall t | t in s'.queue ensures t.last == LastStamp(s'.log, s'.created, t.id) {
      if t in s.queue {
        LastStampFrame(s.log, s.created, task, t.id);
      } else {
        NeverDispatched(s'.log, s'.created, task.id);
      }
    }
  }

  lemma {:induction false} NeverDispatched(log: seq<Dispatch>, created: map<string, Task>, id: string)
    requires id in created && forall d | d in log :: d.task.id != id
    ensures LastStamp(log, created, id) == created[id].last
  {
    if log != [] {
      assert log[|log| - 1] in log;
      NeverDispatched(log[..|log| - 1], created, id);
    }
  }

  lemma StepKeepsStamps(s: System, e: Event)
    requires Known(s) && CarriesStamps(s) && Enabled(s, e)
    ensures CarriesStamps(Next(s, e))
  {
    match e
    case Pass => PassKeepsStamps(s);
    case RemoveNext => WithoutFacts(s.queue, s.phase.pending[0].id);
    case Remove(id) => WithoutFacts(s.queue, id);
    case Add(task) => AddKeepsStamps(s, task);
    case _ =>
  }

  lemma {:induction false} RunKeepsStamps(s: System, es: seq<Event>)
    requires Known(s) && CarriesStamps(s) && Legal(s, es)
    ensures Known(After(s, es)) && CarriesStamps(After(s, es))
    decreases |es|
  {
    hide Known, CarriesStamps, Enabled, Next;
    if es != [] {
      StepKeepsKnown(s, es[0]);
      StepKeepsStamps(s, es[0]);
      RunKeepsStamps(Next(s, es[0]), es[1..]);
    }
  }

  /** Over every run: a pass dispatches a queued task if and only if more than its period has passed
      since its latest dispatch or, before the first, its creation; a stamp after the reading lies a
      whole turn of the 64-bit clock back. It dispatches nothing that is not queued. */
  lemma DispatchedInPass(clock: U64, es: seq<Event>)
    requires Legal(Init(clock), es) && After(Init(clock), es).phase.Timed?
    ensures var s := After(Init(clock), es);
            var now, log := s.phase.now, Next(s, Pass).log;
            && |log| >= |s.log| && log[..|s.log|] == s.log
            && (forall d | d in log[|s.log|..] :: d.at == now && d.task in s.queue)
            && (forall t | t in s.queue ::
                  var last := LastStamp(s.log, s.created, t.id);
                  Dispatch(t, now) in log[|s.log|..] <==>
                    if last <= now then now - last > t.period
                    else now - last + 0x1_0000_0000_0000_0000 > t.period)
  {
    var s := After(Init(clock), es);
    RunKeepsStamps(Init(clock), es);
    var now := s.phase.now;
    var due := DueOf(s.queue, now);
    var log, more := Next(s, Pass).log, Entries(due, now);
    assert log == s.log + more && log[|s.log|..] == more && log[..|s.log|] == s.log;
    DispatchedExactly(s.queue, now);
    hide DueOf, LastStamp, After, Next;
    forall d | d in more ensures d.at == now && d.task in s.queue {
      var i :| 0 <= i < |more| && more[i] == d;
      assert due[i] in due;
    }
    forall t | t in s.queue ensures Dispatch(t, now) in more <==> PastPeriod(t, now) {
      InEntries(due, now, t);
    }
  }

  lemma InEntries(due: seq<Task>, now: U64, t: Task)
    ensures Dispatch(t, now) in Entries(due, now) <==> t in due
  {
    var more := Entries(due, now);
    if t in due {
      var i :| 0 <= i < |due| && due[i] == t;
      assert more[i] == Dispatch(t, now);
    }
  }

  lemma StepSpacedExactly(s: System, e: Event)
    requires Known(s) && CarriesStamps(s) && Enabled(s, e)
    ensures Spaced(Next(s, e).log, Next(s, e).created)
       <==> Spaced(s.log, s.created) && (e.Pass? ==> OnTime(s))
  {
    match e
    case Pass =>
      var now := s.phase.now;
      var due := DueOf(s.queue, now);
      DueDistinct(s.queue, now);
      SpacedEntries(s.log, s.created, due, now);
      DueOfMembers(s.queue, now);
      hide Spaced, LastStamp;
      assert forall t | t in due :: t in s.queue;
      assert (forall t | t in due :: now - LastStamp(s.log, s.created, t.id) > t.period) <==> OnTime(s);
    case Add(task) =>
      forall d | d in s.log ensures d.task.id in s.created {
        assert Original(d.task, s.created);
      }
      SpacedFrame(s.log, s.created, task);
    case _ =>
  }

  lemma {:induction false} RunSpacedExactly(s: System, es: seq<Event>)
    requires Known(s) && CarriesStamps(s) && Legal(s, es)
    ensures Spaced(After(s, es).log, After(s, es).created)
       <==> Spaced(s.log, s.created) && AllOnTime(s, es)
    decreases |es|
  {
    hide Spaced, Known, CarriesStamps, OnTime, Enabled, Next;
    if es != [] {
      StepKeepsKnown(s, es[0]);
      StepKeepsStamps(s, es[0]);
      StepSpacedExactly(s, es[0]);
      RunSpacedExactly(Next(s, es[0]), es[1..]);
    }
  }

  // ---- told from the events alone ---------------------------------------------------------------------

  /** A task stamped after the reading the pass goes by, whose wrapped difference exceeds its period. */
  predicate FiresEarly(t: Task, reading: U64) {
    t.last > reading && Due(t, reading)
  }

  /** What an onlooker who sees only the events keeps: the clock, the worker's reading while it is
      out, and the ids added since then that would fire early. */
  datatype Watch = Watch(clock: int, reading: Option<U64>, late: set<string>)

  function Watched(w: Watch, e: Event): Watch {
    match e
    case Tick(elapsed) => w.(clock := w.clock + elapsed)
    case ReadClock => if 0 <= w.clock < U64_SIZE then w.(reading := Some(w.clock)) else w
    case Pass => w.(reading := None, late := {})
    case Add(task) =>
      if w.reading.Some? && FiresEarly(task, w.reading.value) then w.(late := w.late + {task.id}) else w
    case Remove(id) => w.(late := w.late - {id})
    case RemoveNext | EndRound => w
  }

  /** No pass comes while a task that was added since the reading, would fire early, and has not
      been removed again, is waiting. */
  predicate NoneLate(w: Watch, es: seq<Event>)
    decreases |es|
  {
    es == [] || ((es[0].Pass? ==> w.late == {}) && NoneLate(Watched(w, es[0]), es[1..]))
  }

  function LateIds(s: System): set<string> {
    if s.phase.Timed? then set t | t in s.queue && FiresEarly(t, s.phase.now) :: t.id else {}
  }

  predicate Watches(w: Watch, s: System) {
    && w.clock == s.clock
    && w.reading == (if s.phase.Timed? then Some(s.phase.now) else None)
    && w.late == LateIds(s)
    && (s.phase.Timed? ==> s.phase.now <= s.clock)
    && forall t | t in s.queue :: t.last <= s.clock
  }

  lemma StepWatched(w: Watch, s: System, e: Event)
    requires Known(s) && Watches(w, s) && Enabled(s, e)
    ensures Watches(Watched(w, e), Next(s, e))
    ensures e.Pass? ==> (OnTime(s) <==> w.late == {})
  {
    hide Due;
    match e
    case Pass =>
      forall t | t in s.queue && FiresEarly(t, s.phase.now) ensures t.id in w.late {
      }
    case RemoveNext => WithoutFacts(s.queue, s.phase.pending[0].id);
    case Remove(id) => RemoveWatched(s, id);
    case Add(task) => AddWatched(s, task);
    case _ =>
  }

  lemma RemoveWatched(s: System, id: string)
    requires Known(s)
    ensures LateIds(Next(s, Remove(id))) == LateIds(s) - {id}
    ensures forall t | t in Next(s, Remove(id)).queue :: t in s.queue
  {
    hide FiresEarly;
    WithoutFacts(s.queue, id);
  }

  lemma AddWatched(s: System, task: Task)
    requires Enabled(s, Add(task))
    ensures LateIds(Next(s, Add(task)))
         == LateIds(s) + (if s.phase.Timed? && FiresEarly(task, s.phase.now) then {task.id} else {})
    ensures forall t | t in Next(s, Add(task)).queue :: t in s.queue || t == task
  {
    hide FiresEarly;
    assert task in Next(s, Add(task)).queue;
  }

  lemma {:induction false} RunWatched(w: Watch, s: System, es: seq<Event>)
    requires Known(s) && Watches(w, s) && Legal(s, es)
    ensures AllOnTime(s, es) <==> NoneLate(w, es)
    decreases |es|
  {
    hide Known, Watches, OnTime, Enabled, Next, Watched;
    if es != [] {
      StepKeepsKnown(s, es[0]);
      StepWatched(w, s, es[0]);
      RunWatched(Watched(w, es[0]), Next(s, es[0]), es[1..]);
    }
  }

  /** Over every run: the first dispatch of each task is more than its period after its creation
      and consecutive dispatches are more than a period apart -- if and only if no pass comes while
      a task is waiting that was added since the worker read the clock, is stamped after that
      reading, and is due by the wrapped difference. */
  lemma SpacingExact(clock: U64, es: seq<Event>)
    requires Legal(Init(clock), es)
    ensures var s := After(Init(clock), es);
            Spaced(s.log, s.created) <==> NoneLate(Watch(clock, None, {}), es)
  {
    RunSpacedExactly(Init(clock), es);
    RunWatched(Watch(clock, None, {}), Init(clock), es);
  }

  lemma {:induction false} LastStampAtLeast(log: seq<Dispatch>, created: map<string, Task>, id: string, i: nat)
    requires Spaced(log, created) && i < |log| && log[i].task.id == id
    ensures LastStamp(log, created, id) >= log[i].at
    decreases |log|
  {
    var k := |log| - 1;
    if i < k {
      LastStampAtLeast(log[..k], created, id, i);
    }
  }

  lemma {:induction false} LastStampAfterCreation(log: seq<Dispatch>, created: map<string, Task>, id: string)
    requires Spaced(log, created) && id in created
    ensures LastStamp(log, created, id) >= created[id].last
  {
    if log != [] {
      LastStampAfterCreation(log[..|log| - 1], created, id);
    }
  }

  /** What a spaced log says of any dispatch: it comes more than a period after every earlier one
      of its id and, be it the first or not, after the entry's creation. */
  lemma {:induction false} SpacedMeansApart(log: seq<Dispatch>, created: map<string, Task>, j: nat)
    requires Spaced(log, created) && j < |log| && log[j].task.id in created
    ensures forall i | 0 <= i < j && log[i].task.id == log[j].task.id :: log[j].at - log[i].at > log[j].task.period
    ensures log[j].at - created[log[j].task.id].last > log[j].task.period
    decreases |log|
  {
    var k, id := |log| - 1, log[j].task.id;
    if j < k {
      SpacedMeansApart(log[..k], created, j);
    } else {
      LastStampAfterCreation(log[..k], created, id);
      forall i | 0 <= i < j && log[i].task.id == id ensures LastStamp(log[..k], created, id) >= log[i].at {
        LastStampAtLeast(log[..k], created, id, i);
      }
    }
  }

  /** A task added between the worker's clock reading and its lock is dispatched at once: the
      unsigned difference wraps. */
  lemma LateTaskFiresAtOnce()
    ensures var task := Task("1", "h", true, 6, 10);
            var es := [ReadClock, Tick(1), Add(task), Pass];
            && Legal(Init(5), es)
            && After(Init(5), es).log == [Dispatch(task, 5)]
            && !Spaced(After(Init(5), es).log, After(Init(5), es).created)
  {
    var task := Task("1", "h", true, 6, 10);
    var es := [ReadClock, Tick(1), Add(task), Pass];
    var s0 := Init(5);
    var s1 := Next(s0, ReadClock);
    var s2 := Next(s1, Tick(1));
    var s3 := Next(s2, Add(task));
    LatePass(s3, task);
    hide DueOf, StampIds, OneShots, Spaced, LastStamp;
    var s4 := Next(s3, Pass);
    assert es[1..] == [Tick(1), Add(task), Pass];
    assert es[1..][1..] == [Add(task), Pass];
    assert es[1..][1..][1..] == [Pass] && [Pass][1..] == [];
    assert Legal(s4, []) && Legal(s3, [Pass]);
    assert Legal(s2, [Add(task), Pass]) && Legal(s1, [Tick(1), Add(task), Pass]) && Legal(s0, es);
    assert After(s0, es) == After(s1, es[1..]) == After(s2, [Add(task), Pass]) == After(s3, [Pass]) == s4;
  }

  lemma LatePass(s: System, task: Task)
    requires s.phase == Timed(5) && s.queue == [task] && s.log == []
    requires task.id in s.created && s.created[task.id] == task
    requires task.last == 6 && task.period == 10
    ensures Next(s, Pass).log == [Dispatch(task, 5)]
    ensures !Spaced(Next(s, Pass).log, s.created)
  {
    assert [task][1..] == [] && Due(task, 5);
    assert DueOf(s.queue, 5) == [task] + DueOf([], 5) == [task];
    assert Next(s, Pass).log == [] + Entries([task], 5) == [Dispatch(task, 5)];
    SpacedSnoc([], Dispatch(task, 5), s.created);
    assert [] + [Dispatch(task, 5)] == [Dispatch(task, 5)];
  }
}

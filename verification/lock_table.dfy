/** The daemon's table of per-instance mutexes: lock_instance, cleanup_instance_lock and the requests using them. */
module LockTable {

  type Id = nat
  type Task = nat
  type Mutex = nat

  // Where a request stands. Waiting and Holding keep a reference to the mutex. Finished has dropped
  // its guard and goes on to the cleanup. Tested has seen the count of one and let go of the table
  // entry, but has not removed it yet.
  datatype Phase = Waiting(id: Id, mutex: Mutex) | Holding(id: Id, mutex: Mutex) | Finished(id: Id) | Tested(id: Id)

  datatype State = State(table: map<Id, Mutex>, tasks: map<Task, Phase>, next: Mutex)

  datatype Event =
    | Arrive(task: Task, id: Id)       // look the mutex up, or insert a new one
    | Acquire(task: Task)
    | Finish(task: Task, ok: bool)     // the handler returns; an error skips the cleanup
    | Test(task: Task)                 // is the table's reference the only one left?
    | Remove(task: Task)

  const EMPTY: State := State(map[], map[], 0)

  predicate Uses(p: Phase) {
    p.Waiting? || p.Holding?
  }

  ghost predicate Held(s: State, m: Mutex) {
    exists t :: t in s.tasks && s.tasks[t].Holding? && s.tasks[t].mutex == m
  }

  // Arc::strong_count: the table's references and the tasks'.
  function StrongCount(s: State, m: Mutex): nat {
    |set id | id in s.table && s.table[id] == m| + |set t | t in s.tasks && Uses(s.tasks[t]) && s.tasks[t].mutex == m|
  }

  ghost predicate Enabled(s: State, e: Event) {
    match e
    case Arrive(t, _) => t !in s.tasks
    case Acquire(t) => t in s.tasks && s.tasks[t].Waiting? && !Held(s, s.tasks[t].mutex)
    case Finish(t, _) => t in s.tasks && s.tasks[t].Holding?
    case Test(t) => t in s.tasks && s.tasks[t].Finished?
    case Remove(t) => t in s.tasks && s.tasks[t].Tested?
  }

  function Next(s: State, e: Event): State {
    match e
    case Arrive(t, id) =>
      if id in s.table then s.(tasks := s.tasks[t := Waiting(id, s.table[id])])
      else State(s.table[id := s.next], s.tasks[t := Waiting(id, s.next)], s.next + 1)
    case Acquire(t) =>
      if t in s.tasks && s.tasks[t].Waiting? then s.(tasks := s.tasks[t := Holding(s.tasks[t].id, s.tasks[t].mutex)]) else s
    case Finish(t, ok) =>
      if t in s.tasks && ok then s.(tasks := s.tasks[t := Finished(s.tasks[t].id)]) else s.(tasks := s.tasks - {t})
    case Test(t) =>
      if t in s.tasks && s.tasks[t].id in s.table && StrongCount(s, s.table[s.tasks[t].id]) == 1
      then s.(tasks := s.tasks[t := Tested(s.tasks[t].id)])
      else s.(tasks := s.tasks - {t})
    case Remove(t) =>
      if t in s.tasks then State(s.table - {s.tasks[t].id}, s.tasks - {t}, s.next) else s
  }

  function After(s: State, events: seq<Event>): State
    decreases |events|
  {
    if events == [] then s else After(Next(s, events[0]), events[1..])
  }

  ghost predicate Run(s: State, events: seq<Event>)
    decreases |events|
  {
    events == [] || (Enabled(s, events[0]) && Run(Next(s, events[0]), events[1..]))
  }

  /* ---------- what every run keeps ---------- */

  ghost predicate Sound(s: State) {
    && (forall i, j :: i in s.table && j in s.table && s.table[i] == s.table[j] ==> i == j)
    && (forall i :: i in s.table ==> s.table[i] < s.next)
    && (forall t :: t in s.tasks && Uses(s.tasks[t]) ==> s.tasks[t].mutex < s.next)
    && (forall t, u ::
          (t in s.tasks && u in s.tasks && s.tasks[t].Holding? && s.tasks[u].Holding? && s.tasks[t].mutex == s.tasks[u].mutex)
          ==> t == u)
  }

  // Every task waiting for or holding an instance points at the mutex the table has for it.
  ghost predicate Coherent(s: State) {
    forall t :: t in s.tasks && Uses(s.tasks[t]) ==> s.tasks[t].id in s.table && s.table[s.tasks[t].id] == s.tasks[t].mutex
  }

  ghost predicate InUse(s: State, id: Id) {
    exists t :: t in s.tasks && Uses(s.tasks[t]) && s.tasks[t].id == id
  }

  // At most one request holds any one instance.
  ghost predicate Exclusive(s: State) {
    forall t, u ::
      (t in s.tasks && u in s.tasks && s.tasks[t].Holding? && s.tasks[u].Holding? && s.tasks[t].id == s.tasks[u].id)
      ==> t == u
  }

  // A removal that comes too late: since the test, another request has taken up the same mutex.
  ghost predicate Stale(s: State, e: Event) {
    e.Remove? && e.task in s.tasks && InUse(s, s.tasks[e.task].id)
  }

  lemma SoundKept(s: State, e: Event)
    requires Sound(s) && Enabled(s, e)
    ensures Sound(Next(s, e))
  {
    hide StrongCount;
  }

  lemma CoherentExclusive(s: State)
    requires Sound(s) && Coherent(s)
    ensures Exclusive(s)
  {
  }

  // Of all steps, only a stale removal breaks coherence, and every stale removal does.
  lemma CoherenceKeptIff(s: State, e: Event)
    requires Sound(s) && Coherent(s) && Enabled(s, e)
    ensures Coherent(Next(s, e)) <==> !Stale(s, e)
  {
    hide StrongCount;
    if Stale(s, e) {
      var t :| t in s.tasks && Uses(s.tasks[t]) && s.tasks[t].id == s.tasks[e.task].id;
      assert t in Next(s, e).tasks && Next(s, e).tasks[t] == s.tasks[t];
    }
  }

  ghost predicate NeverStale(s: State, events: seq<Event>) {
    forall k :: 0 <= k < |events| ==> !Stale(After(s, events[..k]), events[k])
  }

  ghost predicate AlwaysCoherent(s: State, events: seq<Event>) {
    forall k :: 0 <= k <= |events| ==> Coherent(After(s, events[..k]))
  }

  lemma AfterFirst(s: State, events: seq<Event>, k: nat)
    requires 0 < k <= |events|
    ensures After(s, events[..k]) == After(Next(s, events[0]), events[1..][..k - 1])
  {
    hide Next;
    assert events[..k][0] == events[0] && events[..k][1..] == events[1..][..k - 1];
  }

  lemma SplitFirst(s: State, events: seq<Event>)
    requires events != []
    ensures NeverStale(s, events) <==> !Stale(s, events[0]) && NeverStale(Next(s, events[0]), events[1..])
    ensures AlwaysCoherent(s, events) <==> Coherent(s) && AlwaysCoherent(Next(s, events[0]), events[1..])
  {
    hide Next, Stale, Coherent;
    var more := events[1..];
    assert events[..0] == [];
    forall k | 0 <= k <= |more|
      ensures After(s, events[..k + 1]) == After(Next(s, events[0]), more[..k])
    {
      AfterFirst(s, events, k + 1);
    }
    if NeverStale(s, events) {
      forall k | 0 <= k < |more|
        ensures !Stale(After(Next(s, events[0]), more[..k]), more[k])
      {
        assert more[k] == events[k + 1];
      }
    }
    if !Stale(s, events[0]) && NeverStale(Next(s, events[0]), more) {
      forall k | 0 <= k < |events|
        ensures !Stale(After(s, events[..k]), events[k])
      {
        if k > 0 {
          assert more[k - 1] == events[k];
          assert After(s, events[..k - 1 + 1]) == After(Next(s, events[0]), more[..k - 1]);
        }
      }
    }
    if AlwaysCoherent(s, events) {
      assert Coherent(After(s, events[..0]));
      forall k | 0 <= k <= |more|
        ensures Coherent(After(Next(s, events[0]), more[..k]))
      {
        assert Coherent(After(s, events[..k + 1]));
      }
    }
    if Coherent(s) && AlwaysCoherent(Next(s, events[0]), more) {
      forall k | 0 <= k <= |events|
        ensures Coherent(After(s, events[..k]))
      {
        if k > 0 {
          assert Coherent(After(Next(s, events[0]), more[..k - 1]));
          assert After(s, events[..k - 1 + 1]) == After(Next(s, events[0]), more[..k - 1]);
        }
      }
    }
  }

  // A run stays coherent from its first state to its last exactly when none of its removals is stale.
  lemma {:induction false} CoherentRunIff(s: State, events: seq<Event>)
    requires Sound(s) && Coherent(s) && Run(s, events)
    ensures AlwaysCoherent(s, events) <==> NeverStale(s, events)
    ensures Sound(After(s, events))
    decreases |events|
  {
    hide Next, Stale, Coherent, Sound, Enabled;
    if events == [] {
      assert events[..0] == [];
    } else {
      SplitFirst(s, events);
      SoundKept(s, events[0]);
      CoherenceKeptIff(s, events[0]);
      if Coherent(Next(s, events[0])) {
        CoherentRunIff(Next(s, events[0]), events[1..]);
      } else {
        SoundRun(Next(s, events[0]), events[1..]);
        assert events[1..][..0] == [];
        assert !Coherent(After(Next(s, events[0]), events[1..][..0]));
      }
    }
  }

  lemma {:induction false} SoundRun(s: State, events: seq<Event>)
    requires Sound(s) && Run(s, events)
    ensures Sound(After(s, events))
    decreases |events|
  {
    hide Next, Sound, Enabled;
    if events != [] {
      SoundKept(s, events[0]);
      SoundRun(Next(s, events[0]), events[1..]);
    }
  }

  // From the empty table, no stale removal means mutual exclusion after every event of the run.
  lemma MutualExclusion(events: seq<Event>, k: nat)
    requires Run(EMPTY, events) && NeverStale(EMPTY, events) && k <= |events|
    ensures Exclusive(After(EMPTY, events[..k]))
  {
    hide Next, Stale, Sound, Enabled, Exclusive;
    assert Sound(EMPTY) by {
      EmptySound();
    }
    CoherentRunIff(EMPTY, events);
    RunPrefix(EMPTY, events, k);
    SoundRun(EMPTY, events[..k]);
    CoherentExclusive(After(EMPTY, events[..k]));
  }

  lemma EmptySound()
    ensures Sound(EMPTY)
  {
  }

  lemma {:induction false} RunPrefix(s: State, events: seq<Event>, k: nat)
    requires Run(s, events) && k <= |events|
    ensures Run(s, events[..k])
    decreases k
  {
    hide Next, Enabled;
    if k > 0 {
      RunPrefix(Next(s, events[0]), events[1..], k - 1);
      assert events[..k][1..] == events[1..][..k - 1];
    }
  }

  /* ---------- what a stale removal costs ---------- */

  // One request already holds the instance through the old mutex, or is free to; the next one to
  // arrive finds no entry, makes a new mutex and holds the same instance too.
  lemma StaleLosesExclusion(s: State, e: Event, t: Task, u: Task)
    requires Sound(s) && Coherent(s) && Enabled(s, e) && Stale(s, e)
    requires var id := s.tasks[e.task].id;
             && t in s.tasks && Uses(s.tasks[t]) && s.tasks[t].id == id
             && (s.tasks[t].Waiting? ==> !Held(s, s.tasks[t].mutex))
    requires u !in s.tasks
    ensures var id := s.tasks[e.task].id;
            var events := (if s.tasks[t].Waiting? then [Acquire(t)] else []) + [Arrive(u, id), Acquire(u)];
            Run(Next(s, e), events) && !Exclusive(After(Next(s, e), events))
  {
    hide StrongCount;
    var id := s.tasks[e.task].id;
    var s0 := Next(s, e);
    assert t != e.task && s0.tasks[t] == s.tasks[t];
    assert forall v :: v in s0.tasks ==> v in s.tasks && s0.tasks[v] == s.tasks[v];
    var first := if s.tasks[t].Waiting? then [Acquire(t)] else [];
    var s1 := if s.tasks[t].Waiting? then Next(s0, Acquire(t)) else s0;
    assert s1.tasks[t] == Holding(id, s.tasks[t].mutex);
    var last := [Arrive(u, id), Acquire(u)];
    var s2 := Next(s1, Arrive(u, id));
    assert s2.tasks[u] == Waiting(id, s.next) && s2.tasks[t] == s1.tasks[t];
    var s3 := Next(s2, Acquire(u));
    assert s3.tasks[u] == Holding(id, s.next) && s3.tasks[t] == s1.tasks[t];
    assert !Held(s2, s.next);
    hide Next, Enabled;
    assert Enabled(s1, Arrive(u, id)) && Enabled(s2, Acquire(u)) by {
      ArriveAcquire(s1, s2, u, id);
    }
    TwoSteps(s1, last);
    if s.tasks[t].Waiting? {
      AcquireEnabled(s0, t);
      assert (first + last)[0] == Acquire(t) && (first + last)[1..] == last;
    } else {
      assert first + last == last;
    }
  }

  lemma AcquireEnabled(s: State, t: Task)
    requires t in s.tasks && s.tasks[t].Waiting? && !Held(s, s.tasks[t].mutex)
    ensures Enabled(s, Acquire(t))
  {
  }

  lemma ArriveAcquire(s1: State, s2: State, u: Task, id: Id)
    requires u !in s1.tasks && u in s2.tasks && s2.tasks[u].Waiting? && !Held(s2, s2.tasks[u].mutex)
    ensures Enabled(s1, Arrive(u, id)) && Enabled(s2, Acquire(u))
  {
  }

  lemma TwoSteps(s: State, events: seq<Event>)
    requires |events| == 2
    ensures Run(s, events) <==> Enabled(s, events[0]) && Enabled(Next(s, events[0]), events[1])
    ensures After(s, events) == Next(Next(s, events[0]), events[1])
  {
    hide Next, Enabled;
    var more := events[1..];
    assert more[0] == events[1] && more[1..] == [];
    assert After(Next(s, events[0]), more) == After(Next(Next(s, events[0]), more[0]), []);
    assert Run(Next(s, events[0]), more) <==> Enabled(Next(s, events[0]), more[0]) && Run(Next(Next(s, events[0]), more[0]), []);
  }

  // So for every coherent state and removal: exclusion can still be lost if and only if the removal
  // was stale, as long as no later removal is.
  lemma ExclusionLostIff(s: State, e: Event)
    requires Sound(s) && Coherent(s) && Enabled(s, e)
    ensures (exists events :: Run(Next(s, e), events) && NeverStale(Next(s, e), events)
               && !Exclusive(After(Next(s, e), events)))
            <==> Stale(s, e)
  {
    if Stale(s, e) {
      var id := s.tasks[e.task].id;
      var t, u := UserAndNewcomer(s, id);
      StaleLosesExclusion(s, e, t, u);
      var events := (if s.tasks[t].Waiting? then [Acquire(t)] else []) + [Arrive(u, id), Acquire(u)];
      assert NeverStale(Next(s, e), events) by {
        hide Next;
      }
    } else {
      hide Next, Stale, Enabled;
      CoherenceKeptIff(s, e);
      SoundKept(s, e);
      hide Sound, Coherent, Exclusive;
      forall events | Run(Next(s, e), events) && NeverStale(Next(s, e), events)
        ensures Exclusive(After(Next(s, e), events))
      {
        CoherentRunIff(Next(s, e), events);
        assert events[..|events|] == events;
        CoherentExclusive(After(Next(s, e), events));
      }
    }
  }

  // The holder of the instance if there is one, any waiting request otherwise; and a request not
  // in the table of tasks yet.
  lemma UserAndNewcomer(s: State, id: Id) returns (t: Task, u: Task)
    requires Sound(s) && Coherent(s) && InUse(s, id)
    ensures t in s.tasks && Uses(s.tasks[t]) && s.tasks[t].id == id
    ensures s.tasks[t].Waiting? ==> !Held(s, s.tasks[t].mutex)
    ensures u !in s.tasks
  {
    t :| t in s.tasks && Uses(s.tasks[t]) && s.tasks[t].id == id;
    if Held(s, s.tasks[t].mutex) {
      t :| t in s.tasks && s.tasks[t].Holding? && s.tasks[t].mutex == s.table[id];
    }
    u := NewTask(s.tasks.Keys);
  }

  lemma NewTask(used: set<Task>) returns (u: Task)
    ensures u !in used && forall t :: t in used ==> t < u
    decreases used
  {
    if used == {} {
      u := 0;
    } else {
      var t :| t in used;
      var v := NewTask(used - {t});
      u := if t < v then v else t + 1;
      assert forall w :: w in used ==> w == t || w in used - {t};
    }
  }

  /* ---------- the two ways to schedule the cleanup ---------- */

  // Test and removal as one step: whoever has tested removes before anything else happens.
  ghost predicate AtomicCleanup(s: State, events: seq<Event>)
    decreases |events|
  {
    && (forall t :: t in s.tasks && s.tasks[t].Tested? ==> events == [] || events[0] == Remove(t))
    && (events != [] ==> AtomicCleanup(Next(s, events[0]), events[1..]))
  }

  ghost predicate TestedUnused(s: State) {
    forall t :: t in s.tasks && s.tasks[t].Tested? ==> !InUse(s, s.tasks[t].id)
  }

  lemma CountOneUnused(s: State, id: Id)
    requires Sound(s) && Coherent(s) && id in s.table
    ensures StrongCount(s, s.table[id]) == 1 <==> !InUse(s, id)
  {
    var owners := set i | i in s.table && s.table[i] == s.table[id];
    assert owners == {id};
    var users := set t | t in s.tasks && Uses(s.tasks[t]) && s.tasks[t].mutex == s.table[id];
    if InUse(s, id) {
      var t :| t in s.tasks && Uses(s.tasks[t]) && s.tasks[t].id == id;
      assert t in users;
    } else {
      assert users == {};
    }
  }

  lemma TestedUnusedKept(s: State, e: Event)
    requires Sound(s) && Coherent(s) && Enabled(s, e) && TestedUnused(s)
    requires forall t :: t in s.tasks && s.tasks[t].Tested? ==> e == Remove(t)
    ensures TestedUnused(Next(s, e)) && !Stale(s, e)
  {
    if e.Test? && s.tasks[e.task].id in s.table {
      CountOneUnused(s, s.tasks[e.task].id);
    }
    hide StrongCount;
    var s' := Next(s, e);
    forall t | t in s'.tasks && s'.tasks[t].Tested?
      ensures !InUse(s', s'.tasks[t].id)
    {
      assert e == Test(t);
      assert forall u :: u in s'.tasks && Uses(s'.tasks[u]) ==> u in s.tasks && s'.tasks[u] == s.tasks[u];
    }
  }

  lemma {:induction false} AtomicNeverStale(s: State, events: seq<Event>)
    requires Sound(s) && Coherent(s) && TestedUnused(s)
    requires Run(s, events) && AtomicCleanup(s, events)
    ensures NeverStale(s, events)
    decreases |events|
  {
    hide Next, Stale, Coherent, Sound, Enabled, TestedUnused;
    if events != [] {
      TestedUnusedKept(s, events[0]);
      CoherenceKeptIff(s, events[0]);
      SoundKept(s, events[0]);
      AtomicNeverStale(Next(s, events[0]), events[1..]);
      SplitFirst(s, events);
    }
  }

  // With test and removal in one step, mutual exclusion holds in every run, although entries come
  // and go and failing requests leave theirs behind.
  lemma AtomicCleanupExcludes(events: seq<Event>, k: nat)
    requires Run(EMPTY, events) && AtomicCleanup(EMPTY, events) && k <= |events|
    ensures Exclusive(After(EMPTY, events[..k]))
  {
    EmptySound();
    AtomicNeverStale(EMPTY, events);
    MutualExclusion(events, k);
  }

  // A request that nobody meets, on any table without requests: afterwards nobody holds anything, and
  // the entry is gone exactly when the request succeeded; an error leaves it.
  function Alone(t: Task, id: Id, ok: bool): seq<Event> {
    [Arrive(t, id)] + ([Acquire(t)] + ([Finish(t, ok)] + if ok then [Test(t)] + [Remove(t)] else []))
  }

  lemma LoneRequest(s: State, t: Task, id: Id, ok: bool)
    requires Sound(s) && s.tasks == map[]
    ensures var k := After(s, Alone(t, id, ok));
            && Run(s, Alone(t, id, ok)) && k.tasks == map[]
            && (if ok then k.table == s.table - {id}
                else id in k.table && k.table - {id} == s.table - {id} && (id in s.table ==> k.table == s.table))
  {
    var s1 := Next(s, Arrive(t, id));
    var s2 := Next(s1, Acquire(t));
    LoneHolder(s, t, id);
    var rest := [Finish(t, ok)] + if ok then [Test(t)] + [Remove(t)] else [];
    LoneEnd(s2, t, id, ok);
    hide Next, Enabled, Sound;
    RunCons(s1, Acquire(t), s2, rest);
    RunCons(s, Arrive(t, id), s1, [Acquire(t)] + rest);
  }

  lemma LoneHolder(s: State, t: Task, id: Id)
    requires Sound(s) && s.tasks == map[]
    ensures var s1 := Next(s, Arrive(t, id));
            var s2 := Next(s1, Acquire(t));
            && Enabled(s, Arrive(t, id)) && Enabled(s1, Acquire(t)) && Sound(s2)
            && id in s2.table && s2.tasks == map[t := Holding(id, s2.table[id])]
            && s2.table - {id} == s.table - {id} && (id in s.table ==> s2.table == s.table)
  {
    SoundKept(s, Arrive(t, id));
    SoundKept(Next(s, Arrive(t, id)), Acquire(t));
    hide StrongCount;
  }

  lemma LoneEnd(s: State, t: Task, id: Id, ok: bool)
    requires Sound(s) && id in s.table && s.tasks == map[t := Holding(id, s.table[id])]
    ensures var events := [Finish(t, ok)] + if ok then [Test(t)] + [Remove(t)] else [];
            var k := After(s, events);
            && Run(s, events) && k.tasks == map[]
            && k.table == if ok then s.table - {id} else s.table
  {
    var s3 := Next(s, Finish(t, ok));
    SoundKept(s, Finish(t, ok));
    hide StrongCount;
    if ok {
      assert s3.tasks == map[t := Finished(id)] && s3.table == s.table;
      LoneCleanup(s3, t, id);
      hide Next, Enabled, Sound;
      RunCons(s, Finish(t, ok), s3, [Test(t)] + [Remove(t)]);
    } else {
      assert s3.tasks == map[];
      RunCons(s, Finish(t, ok), s3, []);
    }
  }

  lemma LoneCleanup(s: State, t: Task, id: Id)
    requires Sound(s) && id in s.table && s.tasks == map[t := Finished(id)]
    ensures var k := After(s, [Test(t)] + [Remove(t)]);
            Run(s, [Test(t)] + [Remove(t)]) && k.tasks == map[] && k.table == s.table - {id}
  {
    assert Coherent(s) && !InUse(s, id);
    CountOneUnused(s, id);
    hide StrongCount;
    var s4 := Next(s, Test(t));
    assert s4.tasks == map[t := Tested(id)] && s4.table == s.table;
    var s5 := Next(s4, Remove(t));
    assert s5.tasks == map[];
    RunCons(s4, Remove(t), s5, []);
    RunCons(s, Test(t), s4, [Remove(t)]);
  }

  const GAP_RUN: seq<Event> := [
    Arrive(1, 7), Acquire(1), Finish(1, true), Test(1),
    Arrive(2, 7), Acquire(2), Remove(1),
    Arrive(3, 7), Acquire(3)]

  lemma RunCons(s: State, e: Event, s1: State, events: seq<Event>)
    requires Enabled(s, e) && Next(s, e) == s1 && Run(s1, events)
    ensures Run(s, [e] + events) && After(s, [e] + events) == After(s1, events)
  {
    hide Next, Enabled;
    assert ([e] + events)[1..] == events;
  }

  // The test of the run below: nobody else refers to mutex 0.
  lemma GapTest()
    ensures Next(State(map[7 := 0], map[1 := Finished(7)], 1), Test(1)) == State(map[7 := 0], map[1 := Tested(7)], 1)
  {
    var s := State(map[7 := 0], map[1 := Finished(7)], 1);
    assert Sound(s) && Coherent(s) && !InUse(s, 7);
    CountOneUnused(s, 7);
    hide StrongCount;
  }

  const TESTED: State := State(map[7 := 0], map[1 := Tested(7)], 1)
  const BOTH_HOLD: State := State(map[7 := 1], map[2 := Holding(7, 0), 3 := Holding(7, 1)], 2)

  lemma GapEnd()
    ensures Run(TESTED, GAP_RUN[4..]) && After(TESTED, GAP_RUN[4..]) == BOTH_HOLD
  {
    hide StrongCount;
    var s5 := State(map[7 := 0], map[1 := Tested(7), 2 := Waiting(7, 0)], 1);
    var s6 := State(map[7 := 0], map[1 := Tested(7), 2 := Holding(7, 0)], 1);
    var s7 := State(map[], map[2 := Holding(7, 0)], 1);
    var s8 := State(map[7 := 1], map[2 := Holding(7, 0), 3 := Waiting(7, 1)], 2);
    RunCons(s8, Acquire(3), BOTH_HOLD, []);
    RunCons(s7, Arrive(3, 7), s8, [Acquire(3)]);
    RunCons(s6, Remove(1), s7, [Arrive(3, 7), Acquire(3)]);
    RunCons(s5, Acquire(2), s6, [Remove(1), Arrive(3, 7), Acquire(3)]);
    RunCons(TESTED, Arrive(2, 7), s5, [Acquire(2), Remove(1), Arrive(3, 7), Acquire(3)]);
    assert GAP_RUN[4..] == [Arrive(2, 7)] + [Acquire(2), Remove(1), Arrive(3, 7), Acquire(3)];
  }

  // The code drops the entry before it removes it. In that gap request 2 takes the mutex, request 1
  // then removes it, and request 3 gets a new one: both hold instance 7.
  lemma GapBreaksExclusion()
    ensures Run(EMPTY, GAP_RUN) && !Exclusive(After(EMPTY, GAP_RUN))
  {
    hide StrongCount;
    var s1 := State(map[7 := 0], map[1 := Waiting(7, 0)], 1);
    var s2 := State(map[7 := 0], map[1 := Holding(7, 0)], 1);
    var s3 := State(map[7 := 0], map[1 := Finished(7)], 1);
    GapTest();
    GapEnd();
    var rest := GAP_RUN[4..];
    RunCons(s3, Test(1), TESTED, rest);
    RunCons(s2, Finish(1, true), s3, [Test(1)] + rest);
    RunCons(s1, Acquire(1), s2, [Finish(1, true)] + ([Test(1)] + rest));
    RunCons(EMPTY, Arrive(1, 7), s1, [Acquire(1)] + ([Finish(1, true)] + ([Test(1)] + rest)));
    assert GAP_RUN == [Arrive(1, 7)] + ([Acquire(1)] + ([Finish(1, true)] + ([Test(1)] + rest)));
    assert BOTH_HOLD.tasks[2].id == BOTH_HOLD.tasks[3].id;
  }

  /* ---------- the daemon's own operations on its map ---------- */

  // instance_locks as the field it is; tasks stands for the references its clients hold.
  class InstanceLocks {
    var instanceLocks: map<Id, Mutex>
    var tasks: map<Task, Phase>
    var nextMutex: Mutex

    function View(): State
      reads this
    {
      State(instanceLocks, tasks, nextMutex)
    }

    constructor ()
      ensures View() == EMPTY
    {
      instanceLocks, tasks, nextMutex := map[], map[], 0;
    }

    // lock_instance up to the point where it waits for the mutex.
    method LockInstance(task: Task, id: Id) returns (lock: Mutex)
      requires Enabled(View(), Arrive(task, id))
      modifies this
      ensures View() == Next(old(View()), Arrive(task, id))
      ensures id in instanceLocks && lock == instanceLocks[id] && tasks[task] == Waiting(id, lock)
    {
      if id in instanceLocks {
        lock := instanceLocks[id];
      } else {
        lock := nextMutex;
        nextMutex := nextMutex + 1;
        instanceLocks := instanceLocks[id := lock];
      }
      tasks := tasks[task := Waiting(id, lock)];
    }

    // cleanup_instance_lock up to where it lets go of the entry.
    method TestForCleanup(task: Task) returns (shouldRemove: bool)
      requires Enabled(View(), Test(task))
      modifies this`tasks
      ensures View() == Next(old(View()), Test(task))
      ensures shouldRemove <==> task in tasks
      ensures Sound(old(View())) && Coherent(old(View())) ==>
                (shouldRemove <==> old(tasks[task].id in instanceLocks && !InUse(View(), tasks[task].id)))
    {
      var id := tasks[task].id;
      shouldRemove := false;
      if Sound(View()) && Coherent(View()) && id in instanceLocks {
        CountOneUnused(View(), id);
      }
      hide StrongCount;
      if id in instanceLocks {
        shouldRemove := StrongCount(View(), instanceLocks[id]) == 1;
      }
      tasks := if shouldRemove then tasks[task := Tested(id)] else tasks - {task};
    }

    method RemoveEntry(task: Task)
      requires Enabled(View(), Remove(task))
      modifies this`instanceLocks, this`tasks
      ensures View() == Next(old(View()), Remove(task))
    {
      instanceLocks := instanceLocks - {tasks[task].id};
      tasks := tasks - {task};
    }
  }
}

/** The process supervisor of qemu-init: the heartbeat loop, interrupted anywhere by its signal handler. */
module Supervisor {

  type Pid = nat

  // Where the main program stands: at the loop test, at the test of child_exited, before each write
  // and call of the respawn branch, and inside spawnChild before either of its two writes.
  datatype Pc = LoopTop | Test | Handle | Limit | Fork | Assign(pid: Pid) | Clear | Beat | Ended

  // childPid, exited, status and shutdown are the globals. `alive` are the supervised children still
  // running, `zombies` every child waitpid would return, orphans included. `spawned` and `recorded`
  // count the forks and the exits the handler records.
  datatype State = State(
    pc: Pc, childPid: Pid, exited: bool, status: nat, shutdown: bool, respawns: nat,
    alive: set<Pid>, zombies: map<Pid, nat>, spawned: nat, recorded: nat)

  const START: State := State(Fork, 0, false, 0, false, 0, {}, map[], 0, 0)

  const RESPAWN_LIMIT: nat := 3

  datatype Event =
    | Main(newPid: Pid)                    // one step of the main program; newPid is what fork returns
    | ChildExits(pid: Pid, code: nat)      // a supervised child ends
    | OrphanExits(pid: Pid, code: nat)     // some other descendant ends as a child of PID 1
    | Reap(pid: Pid)                       // one waitpid of the SIGCHLD handler
    | Terminate                            // SIGTERM or SIGINT

  predicate Enabled(s: State, e: Event) {
    match e
    case Main(p) => s.pc != Ended && (s.pc.Fork? ==> p > 0 && p !in s.alive && p !in s.zombies)
    case ChildExits(p, _) => p in s.alive
    case OrphanExits(p, _) => p > 0 && p !in s.alive && p !in s.zombies && (s.pc.Assign? ==> p != s.pc.pid)
    case Reap(p) => p in s.zombies
    case Terminate => true
  }

  function MainStep(s: State, p: Pid): State {
    match s.pc
    case LoopTop => s.(pc := if s.shutdown then Ended else Test)
    case Test => s.(pc := if s.exited then Handle else Beat)
    case Handle => s.(exited := false, pc := Limit)
    case Limit => if s.respawns < RESPAWN_LIMIT then s.(respawns := s.respawns + 1, pc := Fork) else s.(pc := Beat)
    case Fork => s.(alive := s.alive + {p}, spawned := s.spawned + 1, pc := Assign(p))
    case Assign(pid) => s.(childPid := pid, pc := Clear)
    case Clear => s.(exited := false, pc := if s.respawns == 0 then LoopTop else Beat)
    case Beat => s.(pc := LoopTop)
    case Ended => s
  }

  function ReapOne(s: State, p: Pid): State {
    if p !in s.zombies then s
    else
      var t := s.(zombies := s.zombies - {p});
      if p == s.childPid then t.(status := s.zombies[p], exited := true, childPid := 0, recorded := s.recorded + 1) else t
  }

  function Step(s: State, e: Event): State {
    match e
    case Main(p) => MainStep(s, p)
    case ChildExits(p, code) => s.(alive := s.alive - {p}, zombies := s.zombies[p := code])
    case OrphanExits(p, code) => s.(zombies := s.zombies[p := code])
    case Reap(p) => ReapOne(s, p)
    case Terminate => s.(shutdown := true)
  }

  predicate Possible(s: State, events: seq<Event>)
    decreases |events|
  {
    events == [] || (Enabled(s, events[0]) && Possible(Step(s, events[0]), events[1..]))
  }

  function After(s: State, events: seq<Event>): State
    decreases |events|
  {
    if events == [] then s else After(Step(s, events[0]), events[1..])
  }

  // Between seeing an exit and recording the next child's pid nothing is supervised.
  predicate Respawning(pc: Pc) {
    pc.Handle? || pc.Limit? || pc.Fork?
  }

  ghost predicate Invariant(s: State) {
    && 0 !in s.alive && 0 !in s.zombies && s.alive !! s.zombies.Keys
    // who is supervised
    && (Respawning(s.pc) ==> s.alive == {} && s.childPid == 0)
    && (s.pc.Assign? ==> s.alive <= {s.pc.pid} && s.childPid == 0 && s.pc.pid > 0)
    && (!Respawning(s.pc) && !s.pc.Assign? ==> s.alive <= {s.childPid})
    && (s.pc.Handle? ==> s.exited) && (s.pc.Limit? || s.pc.Fork? || s.pc.Assign? ==> !s.exited)
    && (s.exited ==> s.alive == {} && s.childPid == 0)
    // how often
    && s.respawns <= RESPAWN_LIMIT
    && s.spawned + (if s.pc.Fork? then 1 else 0) == 1 + s.respawns
    && s.respawns + (if s.pc.Limit? then 1 else 0) + (if s.exited then 1 else 0) <= s.recorded
  }

  lemma InvariantKept(s: State, e: Event)
    requires Invariant(s) && Enabled(s, e)
    ensures Invariant(Step(s, e))
  {
  }

  lemma {:induction false} InvariantRun(s: State, events: seq<Event>)
    requires Invariant(s) && Possible(s, events)
    ensures Invariant(After(s, events))
    decreases |events|
  {
    hide Step, Enabled, Invariant;
    if events != [] {
      InvariantKept(s, events[0]);
      InvariantRun(Step(s, events[0]), events[1..]);
    }
  }

  // Wherever the signals fall: at most four children are ever spawned, at most one of them runs at
  // a time, and there are no more respawns than exits recorded.
  lemma Supervision(events: seq<Event>)
    requires Possible(START, events)
    ensures var s := After(START, events);
            && s.spawned <= 4 && |s.alive| <= 1 && s.respawns <= s.recorded && s.spawned <= s.recorded + 1
  {
    InvariantRun(START, events);
    var s := After(START, events);
    var one := if s.pc.Assign? then s.pc.pid else s.childPid;
    assert s.alive == {} || s.alive == {one};
  }

  /* ---------- a recorded exit is answered ---------- */

  // Steps of the main program in a run; the others are signals.
  function Mains(events: seq<Event>): nat
    decreases |events|
  {
    if events == [] then 0 else (if events[0].Main? then 1 else 0) + Mains(events[1..])
  }

  // The program is n of its steps away from having forked once more.
  ghost predicate Due(s: State, n: nat) {
    || (s.pc.Test? && s.exited && s.respawns < 3 && n == 4)
    || (s.pc.Handle? && s.respawns < 3 && n == 3)
    || (s.pc.Limit? && s.respawns < 3 && n == 2)
    || (s.pc.Fork? && n == 1)
  }

  lemma DueStep(s: State, e: Event, n: nat)
    requires Invariant(s) && Enabled(s, e) && Due(s, n)
    ensures !e.Main? ==> Due(Step(s, e), n) && Step(s, e).spawned == s.spawned
    ensures e.Main? && n > 1 ==> Due(Step(s, e), n - 1) && Step(s, e).spawned == s.spawned
    ensures e.Main? && n == 1 ==> Step(s, e).spawned == s.spawned + 1
  {
  }

  lemma {:induction false} SignalsSpawnNothing(s: State, events: seq<Event>)
    requires Mains(events) == 0
    ensures After(s, events).spawned == s.spawned && After(s, events).pc == s.pc && After(s, events).respawns == s.respawns
    decreases |events|
  {
    if events != [] {
      SignalsSpawnNothing(Step(s, events[0]), events[1..]);
    }
  }

  // Wherever the signals fall, that many steps of the program fork exactly one child.
  lemma {:induction false} DueSpawnsOne(s: State, events: seq<Event>, n: nat)
    requires Invariant(s) && Possible(s, events) && Due(s, n) && Mains(events) == n
    ensures After(s, events).spawned == s.spawned + 1
    decreases |events|
  {
    hide Step, Enabled, Invariant, Due;
    assert n > 0 by { DuePositive(s, n); }
    InvariantKept(s, events[0]);
    DueStep(s, events[0], n);
    if !events[0].Main? {
      DueSpawnsOne(Step(s, events[0]), events[1..], n);
    } else if n == 1 {
      SignalsSpawnNothing(Step(s, events[0]), events[1..]);
    } else {
      DueSpawnsOne(Step(s, events[0]), events[1..], n - 1);
    }
  }

  lemma DuePositive(s: State, n: nat)
    requires Due(s, n)
    ensures n > 0
  {
  }

  // An exit recorded before the test is answered by one respawn within four steps, while fewer than
  // three respawns have been made.
  lemma ExitRespawns(s: State, events: seq<Event>)
    requires Invariant(s) && Possible(s, events)
    requires s.pc.Test? && s.exited && s.respawns < 3 && Mains(events) == 4
    ensures After(s, events).spawned == s.spawned + 1
  {
    hide Step, Enabled, Invariant;
    DueSpawnsOne(s, events, 4);
  }

  // The same for the exit after the third respawn: within three steps it is cleared and nothing forked.
  ghost predicate GivingUp(s: State, n: nat) {
    && s.respawns == 3
    && ((s.pc.Test? && s.exited && n == 3) || (s.pc.Handle? && n == 2) || (s.pc.Limit? && n == 1)
        || (s.pc.Beat? && !s.exited && s.childPid == 0 && n == 0))
  }

  lemma GivingUpStep(s: State, e: Event, n: nat)
    requires Invariant(s) && Enabled(s, e) && GivingUp(s, n) && (e.Main? ==> n > 0)
    ensures GivingUp(Step(s, e), if e.Main? then n - 1 else n) && Step(s, e).spawned == s.spawned
  {
  }

  lemma {:induction false} LimitGivesUp(s: State, events: seq<Event>, n: nat)
    requires Invariant(s) && Possible(s, events) && GivingUp(s, n) && Mains(events) == n
    ensures After(s, events).spawned == s.spawned && !After(s, events).exited && After(s, events).pc.Beat?
    decreases |events|
  {
    if events == [] {
      assert GivingUp(s, 0);
    } else {
      hide Step, Enabled, Invariant, GivingUp;
      InvariantKept(s, events[0]);
      GivingUpStep(s, events[0], n);
      LimitGivesUp(Step(s, events[0]), events[1..], if events[0].Main? then n - 1 else n);
    }
  }

  lemma ExitAtLimit(s: State, events: seq<Event>)
    requires Invariant(s) && Possible(s, events)
    requires s.pc.Test? && s.exited && s.respawns == 3 && Mains(events) == 3
    ensures After(s, events).spawned == s.spawned && !After(s, events).exited && After(s, events).pc.Beat?
  {
    hide Step, Enabled, Invariant;
    LimitGivesUp(s, events, 3);
  }

  lemma SpawnedGrows(s: State, e: Event)
    ensures Step(s, e).spawned >= s.spawned
  {
  }

  lemma {:induction false} SpawnedGrowsRun(s: State, events: seq<Event>)
    ensures After(s, events).spawned >= s.spawned
    decreases |events|
  {
    hide Step;
    if events != [] {
      SpawnedGrows(s, events[0]);
      SpawnedGrowsRun(Step(s, events[0]), events[1..]);
    }
  }

  // On the way to a heartbeat the fork that is due is made.
  lemma {:induction false} DueBeforeBeat(s: State, events: seq<Event>, n: nat)
    requires Invariant(s) && Possible(s, events) && Due(s, n) && After(s, events).pc.Beat?
    ensures After(s, events).spawned > s.spawned
    decreases |events|
  {
    if events != [] {
      hide Step, Enabled, Invariant, Due;
      InvariantKept(s, events[0]);
      DuePositive(s, n);
      DueStep(s, events[0], n);
      if events[0].Main? && n == 1 {
        SpawnedGrowsRun(Step(s, events[0]), events[1..]);
      } else {
        DueBeforeBeat(Step(s, events[0]), events[1..], if events[0].Main? then n - 1 else n);
      }
    }
  }

  lemma {:induction false} RunSplit(s: State, first: seq<Event>, second: seq<Event>)
    requires Possible(s, first + second)
    ensures Possible(s, first) && Possible(After(s, first), second)
    ensures After(s, first + second) == After(After(s, first), second)
    decreases |first|
  {
    hide Step, Enabled;
    if first == [] {
      assert first + second == second;
    } else {
      assert (first + second)[1..] == first[1..] + second;
      RunSplit(Step(s, first[0]), first[1..], second);
    }
  }

  // Over every run: between a test that finds an exit and the next heartbeat a child is spawned, or
  // the limit was reached at that test.
  lemma ExitAnswered(first: seq<Event>, second: seq<Event>)
    requires Possible(START, first + second)
    requires After(START, first).pc.Test? && After(START, first).exited && After(START, first + second).pc.Beat?
    ensures After(START, first + second).spawned > After(START, first).spawned || After(START, first).respawns == RESPAWN_LIMIT
  {
    RunSplit(START, first, second);
    InvariantRun(START, first);
    var s := After(START, first);
    hide Step, Enabled, After, Possible;
    if s.respawns < 3 {
      DueBeforeBeat(s, second, 4);
    }
  }

  // A child that ends while it is supervised: once the handler reaps it, its exit is recorded with its
  // own status, whatever the program and other children do in between.
  ghost predicate Ending(s: State, p: Pid, code: nat) {
    && Invariant(s) && !Respawning(s.pc) && !s.pc.Assign?
    && s.childPid == p && p in s.zombies && s.zombies[p] == code && !s.exited
  }

  lemma EndingStep(s: State, e: Event, p: Pid, code: nat)
    requires Ending(s, p, code) && Enabled(s, e) && e != Reap(p)
    ensures Ending(Step(s, e), p, code) && Step(s, e).recorded == s.recorded
  {
    InvariantKept(s, e);
  }

  lemma {:induction false} ExitRecorded(s: State, events: seq<Event>, p: Pid, code: nat)
    requires Ending(s, p, code) && Possible(s, events + [Reap(p)]) && Reap(p) !in events
    ensures var t := After(s, events + [Reap(p)]);
            t.exited && t.status == code && t.childPid == 0 && t.recorded == s.recorded + 1
    decreases |events|
  {
    if events == [] {
      assert events + [Reap(p)] == [Reap(p)] && [Reap(p)][1..] == [];
    } else {
      assert (events + [Reap(p)])[1..] == events[1..] + [Reap(p)];
      hide Step, Enabled, Ending;
      EndingStep(s, events[0], p, code);
      ExitRecorded(Step(s, events[0]), events[1..], p, code);
    }
  }

  // And such an ending does begin when the supervised child exits.
  lemma ChildBeginsEnding(s: State, p: Pid, code: nat)
    requires Invariant(s) && p in s.alive && !s.pc.Assign?
    ensures Enabled(s, ChildExits(p, code)) && Ending(Step(s, ChildExits(p, code)), p, code)
  {
    InvariantKept(s, ChildExits(p, code));
  }

  /* ---------- shutting down ---------- */

  // After a termination signal the program takes at most eight more steps.
  function StepsLeft(pc: Pc): nat {
    match pc
    case Test => 8 case Handle => 7 case Limit => 6 case Fork => 5 case Assign(_) => 4 case Clear => 3
    case Beat => 2 case LoopTop => 1 case Ended => 0
  }

  lemma ShutdownStep(s: State, e: Event)
    requires s.shutdown && Enabled(s, e)
    ensures Step(s, e).shutdown
    ensures if e.Main? then StepsLeft(Step(s, e).pc) < StepsLeft(s.pc) else Step(s, e).pc == s.pc
  {
  }

  lemma {:induction false} ShutdownEnds(s: State, events: seq<Event>)
    requires s.shutdown && Possible(s, events)
    ensures Mains(events) + StepsLeft(After(s, events).pc) <= StepsLeft(s.pc) <= 8
    decreases |events|
  {
    if events != [] {
      hide Step, Enabled, StepsLeft;
      ShutdownStep(s, events[0]);
      ShutdownEnds(Step(s, events[0]), events[1..]);
    }
  }

  lemma TerminationEnds(s: State, events: seq<Event>)
    requires Possible(s, [Terminate] + events)
    ensures Mains(events) <= 8
  {
    assert ([Terminate] + events)[1..] == events;
    ShutdownEnds(Step(s, Terminate), events);
  }

  // Left alone, the program gets to its loop and goes round: test, heartbeat, loop test.
  lemma QuietRound(s: State, a: Pid, b: Pid, c: Pid)
    requires s.pc.LoopTop? && !s.shutdown && !s.exited
    ensures Possible(s, [Main(a), Main(b), Main(c)]) && After(s, [Main(a), Main(b), Main(c)]) == s
  {
    var t := Step(s, Main(a));
    var u := Step(t, Main(b));
    Cons(u, Main(c), []);
    Cons(t, Main(b), [Main(c)]);
    Cons(s, Main(a), [Main(b)] + [Main(c)]);
    assert [Main(a), Main(b), Main(c)] == [Main(a)] + ([Main(b)] + [Main(c)]);
  }

  // The first child is started before the loop, a later one is followed by the round's heartbeat.
  lemma QuietFork(s: State, p: Pid, b: Pid, c: Pid)
    requires s.pc.Fork? && Invariant(s) && Enabled(s, Main(p))
    ensures Possible(s, [Main(p), Main(b), Main(c)])
    ensures After(s, [Main(p), Main(b), Main(c)])
         == s.(pc := if s.respawns == 0 then LoopTop else Beat, childPid := p, alive := {p}, spawned := s.spawned + 1)
  {
    var t := Step(s, Main(p));
    var u := Step(t, Main(b));
    Cons(u, Main(c), []);
    Cons(t, Main(b), [Main(c)]);
    Cons(s, Main(p), [Main(b)] + [Main(c)]);
    assert [Main(p), Main(b), Main(c)] == [Main(p)] + ([Main(b)] + [Main(c)]);
  }

  // The loop ends only when asked to.
  lemma {:induction false} EndsOnlyOnShutdown(s: State, events: seq<Event>)
    requires Possible(s, events) && !s.pc.Ended? && After(s, events).pc.Ended?
    ensures exists i :: 0 <= i < |events| && After(s, events[..i]).shutdown
    decreases |events|
  {
    if s.shutdown {
      assert After(s, events[..0]).shutdown;
    } else {
      var k := Step(s, events[0]);
      EndsOnlyOnShutdown(k, events[1..]);
      var i :| 0 <= i < |events[1..]| && After(k, events[1..][..i]).shutdown;
      assert events[..i + 1][0] == events[0] && events[..i + 1][1..] == events[1..][..i];
      assert After(s, events[..i + 1]).shutdown;
    }
  }

  /* ---------- exits that go unnoticed ---------- */

  // Nothing runs, no exit is recorded or waiting to be, and the program is not about to respawn.
  predicate Adrift(s: State) {
    && s.alive == {} && !s.exited && s.childPid !in s.zombies
    && !Respawning(s.pc) && !s.pc.Assign?
  }

  // Only a stranger that dies under the very pid still remembered can be mistaken for the child.
  ghost predicate NoImpostor(events: seq<Event>, pid: Pid) {
    forall i :: 0 <= i < |events| && events[i].OrphanExits? ==> events[i].pid != pid
  }

  lemma {:induction false} AdriftForever(s: State, events: seq<Event>)
    requires Invariant(s) && Possible(s, events) && Adrift(s) && NoImpostor(events, s.childPid)
    ensures Adrift(After(s, events)) && After(s, events).spawned == s.spawned
    decreases |events|
  {
    if events != [] {
      InvariantKept(s, events[0]);
      assert Adrift(Step(s, events[0])) && Step(s, events[0]).childPid == s.childPid;
      assert forall i :: 0 <= i < |events[1..]| ==> events[1..][i] == events[i + 1];
      AdriftForever(Step(s, events[0]), events[1..]);
    }
  }

  // A step sets the supervisor adrift in exactly three cases: the respawn limit is reached, the new
  // child was already reaped when its pid is stored, or its exit was recorded before child_exited
  // is cleared.
  lemma SetAdriftIff(s: State, e: Event)
    requires Invariant(s) && Enabled(s, e) && !Adrift(s)
    ensures Adrift(Step(s, e))
            <==> e.Main? && ((s.pc.Limit? && s.respawns == RESPAWN_LIMIT)
                             || (s.pc.Assign? && s.alive == {} && s.pc.pid !in s.zombies)
                             || (s.pc.Clear? && s.exited))
  {
  }

  const LOST_EXIT: seq<Event> := [Main(5), Main(0), ChildExits(5, 0), Reap(5), Main(0)]

  // The first child exits between the two writes of spawnChild: it is reaped and recorded, and then
  // forgotten, so no child runs, none is respawned, and the limit was never touched.
  lemma FirstExitLost()
    ensures Possible(START, LOST_EXIT)
    ensures var s := After(START, LOST_EXIT); Adrift(s) && s.recorded == 1 && s.respawns == 0 && s.spawned == 1
  {
    var s1 := Step(START, Main(5));
    var s2 := Step(s1, Main(0));
    var s3 := Step(s2, ChildExits(5, 0));
    var s4 := Step(s3, Reap(5));
    Cons(s4, Main(0), []);
    Cons(s3, Reap(5), [Main(0)]);
    Cons(s2, ChildExits(5, 0), [Reap(5), Main(0)]);
    Cons(s1, Main(0), [ChildExits(5, 0), Reap(5), Main(0)]);
    Cons(START, Main(5), [Main(0), ChildExits(5, 0), Reap(5), Main(0)]);
    assert LOST_EXIT == [Main(5)] + [Main(0), ChildExits(5, 0), Reap(5), Main(0)];
  }

  lemma Cons(s: State, e: Event, events: seq<Event>)
    requires Enabled(s, e) && Possible(Step(s, e), events)
    ensures Possible(s, [e] + events) && After(s, [e] + events) == After(Step(s, e), events)
  {
    hide Step, Enabled;
    assert ([e] + events)[1..] == events;
  }

  /* ---------- the handler and spawnChild on the globals ---------- */

  class Globals {
    var shutdownRequested: bool
    var childPid: Pid
    var childExitStatus: nat
    var childExited: bool

    ghost predicate Shows(s: State)
      reads this
    {
      shutdownRequested == s.shutdown && childPid == s.childPid && childExitStatus == s.status && childExited == s.exited
    }

    constructor ()
      ensures Shows(START)
    {
      shutdownRequested, childPid, childExitStatus, childExited := false, 0, 0, false;
    }

    method HandleTerminate(ghost s: State)
      requires Shows(s)
      modifies this
      ensures Shows(Step(s, Terminate))
    {
      shutdownRequested := true;
    }

    // The SIGCHLD branch: waitpid answers `reaped`, in that order, and then no more.
    method HandleChild(reaped: seq<(Pid, nat)>, ghost s: State)
      requires Shows(s) && Invariant(s)
      requires forall i :: 0 <= i < |reaped| ==> reaped[i].0 in s.zombies && s.zombies[reaped[i].0] == reaped[i].1
      requires forall i, j :: 0 <= i < j < |reaped| ==> reaped[i].0 != reaped[j].0
      modifies this
      ensures Shows(ReapAll(s, reaped)) && Invariant(ReapAll(s, reaped))
    {
      ghost var t := s;
      for i := 0 to |reaped|
        invariant t == ReapAll(s, reaped[..i]) && Shows(t) && Invariant(t)
        invariant forall k :: i <= k < |reaped| ==> reaped[k].0 in t.zombies && t.zombies[reaped[k].0] == reaped[k].1
      {
        var (pid, status) := reaped[i];
        InvariantKept(t, Reap(pid));
        assert reaped[..i + 1][..i] == reaped[..i];
        if pid == childPid {
          childExitStatus := status;
          childExited := true;
          childPid := 0;
        }
        t := ReapOne(t, pid);
      }
      assert reaped[..|reaped|] == reaped;
    }

    // spawnChild when no signal falls between its writes.
    method SpawnChild(pid: Pid, ghost s: State)
      requires Shows(s) && s.pc.Fork? && Enabled(s, Main(pid))
      modifies this
      ensures Shows(MainStep(MainStep(MainStep(s, pid), 0), 0))
      ensures childPid == pid && !childExited
    {
      childPid := pid;
      childExited := false;
    }
  }

  ghost function ReapAll(s: State, reaped: seq<(Pid, nat)>): State {
    if reaped == [] then s else ReapOne(ReapAll(s, reaped[..|reaped| - 1]), reaped[|reaped| - 1].0)
  }
}

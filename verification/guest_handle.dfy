/** A guest process as the daemon sees it: one child, reaped by whoever waits first, and its exit status. */
module GuestHandle {
  import opened Wrappers

  datatype ExitStatus = ExitStatus(code: Option<int>, signal: Option<int>)

  predicate ExitedCleanly(e: ExitStatus) {
    e == ExitStatus(Some(0), None)
  }

  // What waitpid answers when asked without blocking.
  datatype Poll = StillAlive | Gone(status: ExitStatus) | PollFails

  // `reaped` counts the statuses collected from the operating system.
  datatype State = State(child: bool, exit: Option<ExitStatus>, reaped: nat)

  const SPAWNED: State := State(true, None, 0)

  datatype WaitCall = TryWait(poll: Poll) | Wait(outcome: Option<ExitStatus>)
  datatype Report = Status(exit: ExitStatus) | NotYet | Error

  // The calls take turns on the handle's mutex, so each is one step.
  function Step(s: State, c: WaitCall): (State, Report) {
    if s.exit.Some? then (s, Status(s.exit.value))
    else if !s.child then (s, if c.TryWait? then NotYet else Error)
    else
      match c
      case TryWait(StillAlive) => (s, NotYet)
      case TryWait(PollFails) => (s, Error)
      case TryWait(Gone(e)) => (State(false, Some(e), s.reaped + 1), Status(e))
      case Wait(Some(e)) => (State(false, Some(e), s.reaped + 1), Status(e))
      case Wait(None) => (State(false, None, s.reaped), Error)
  }

  function Run(s: State, calls: seq<WaitCall>): (State, seq<Report>)
    decreases |calls|
  {
    if calls == [] then (s, [])
    else
      var (t, report) := Step(s, calls[0]);
      var (u, reports) := Run(t, calls[1..]);
      (u, [report] + reports)
  }

  ghost predicate Valid(s: State) {
    && (s.child ==> s.exit.None? && s.reaped == 0)
    && s.reaped == if s.exit.Some? then 1 else 0
  }

  // In every interleaving the child is reaped at most once, all reported statuses are the same one,
  // and from the first report on every call reports it.
  lemma {:induction false} OneStatus(s: State, calls: seq<WaitCall>)
    requires Valid(s)
    ensures var (t, reports) := Run(s, calls);
            && Valid(t) && t.reaped <= 1 && |reports| == |calls|
            && (s.exit.Some? ==> t.exit == s.exit && forall i :: 0 <= i < |reports| ==> reports[i] == Status(s.exit.value))
            && (forall i :: 0 <= i < |reports| && reports[i].Status? ==> t.exit == Some(reports[i].exit))
            && (forall i, j :: 0 <= i <= j < |reports| && reports[i].Status? ==> reports[j] == reports[i])
    decreases |calls|
  {
    if calls != [] {
      OneStatus(Step(s, calls[0]).0, calls[1..]);
    }
  }

  // A blocking wait that fails has taken the child with it: no call ever reports a status again.
  lemma {:induction false} FailedWaitLosesStatus(s: State, calls: seq<WaitCall>)
    requires Valid(s) && s.exit.None? && !s.child
    ensures var (t, reports) := Run(s, calls);
            && t == s && |reports| == |calls|
            && forall i :: 0 <= i < |reports| ==> reports[i] == if calls[i].TryWait? then NotYet else Error
    decreases |calls|
  {
    if calls != [] {
      FailedWaitLosesStatus(s, calls[1..]);
    }
  }

  // What a call collects from the operating system, if it gets to ask.
  function Delivers(c: WaitCall): Option<ExitStatus> {
    match c
    case TryWait(Gone(e)) => Some(e)
    case TryWait(_) => None
    case Wait(outcome) => outcome
  }

  // The status everybody is told is the one the first successful call collected: before it a poll says
  // not yet, or that it failed, and from it on every call reports that status.
  lemma {:induction false} DeliveredStatus(s: State, calls: seq<WaitCall>, i: nat)
    requires s.child && s.exit.None? && i < |calls| && Delivers(calls[i]).Some?
    requires forall j :: 0 <= j < i ==> calls[j].TryWait? && Delivers(calls[j]).None?
    ensures var (t, reports) := Run(s, calls);
            && |reports| == |calls| && t.exit == Delivers(calls[i]) && t.reaped == s.reaped + 1 && !t.child
            && (forall j :: i <= j < |calls| ==> reports[j] == Status(Delivers(calls[i]).value))
            && (forall j :: 0 <= j < i ==> reports[j] == if calls[j].poll.StillAlive? then NotYet else Error)
    decreases |calls|
  {
    var (t, report) := Step(s, calls[0]);
    if i == 0 {
      AlwaysReported(t, calls[1..]);
    } else {
      DeliveredStatus(t, calls[1..], i - 1);
    }
  }

  // A blocking wait that fails reports an error, and so does every wait after it, and a poll finds
  // nothing for good.
  lemma FailedWait(s: State, calls: seq<WaitCall>)
    requires Valid(s) && s.child && calls != [] && calls[0] == Wait(None)
    ensures var (t, reports) := Run(s, calls);
            && |reports| == |calls| && !t.child && t.exit.None? && t.reaped == 0
            && forall i :: 0 <= i < |reports| ==> reports[i] == if calls[i].TryWait? then NotYet else Error
  {
    FailedWaitLosesStatus(Step(s, calls[0]).0, calls[1..]);
  }

  lemma {:induction false} AlwaysReported(s: State, calls: seq<WaitCall>)
    requires s.exit.Some?
    ensures var (t, reports) := Run(s, calls);
            t == s && |reports| == |calls| && forall j :: 0 <= j < |calls| ==> reports[j] == Status(s.exit.value)
    decreases |calls|
  {
    if calls != [] {
      AlwaysReported(s, calls[1..]);
    }
  }

  // Milliseconds on a clock that every sleep moves on by at least `pause`.
  ghost predicate Advances(clock: nat -> nat, pause: nat) {
    forall k: nat :: clock(k + 1) >= clock(k) + pause
  }

  lemma {:induction false} ClockAfter(clock: nat -> nat, pause: nat, k: nat)
    requires Advances(clock, pause)
    ensures clock(k) >= clock(0) + k * pause
  {
    if k > 0 {
      ClockAfter(clock, pause, k - 1);
      assert clock(k - 1 + 1) >= clock(k - 1) + pause;
    }
  }

  class Guest {
    var child: bool
    var exit: Option<ExitStatus>
    ghost var reaped: nat

    ghost function View(): State
      reads this
    {
      State(child, exit, reaped)
    }

    constructor ()
      ensures View() == SPAWNED
    {
      child, exit, reaped := true, None, 0;
    }

    method TryWait(poll: Poll) returns (report: Report)
      requires Valid(View())
      modifies this
      ensures Valid(View()) && (View(), report) == Step(old(View()), WaitCall.TryWait(poll))
    {
      if exit.Some? {
        return Status(exit.value);
      }
      if !child {
        return NotYet;
      }
      match poll
      case StillAlive => return NotYet;
      case PollFails => return Error;
      case Gone(e) =>
        child := false;
        exit := Some(e);
        reaped := reaped + 1;
        return Status(e);
    }

    method Wait(outcome: Option<ExitStatus>) returns (report: Report)
      requires Valid(View())
      modifies this
      ensures Valid(View()) && (View(), report) == Step(old(View()), WaitCall.Wait(outcome))
    {
      if exit.Some? {
        return Status(exit.value);
      }
      if !child {
        return Error;
      }
      child := false;
      if outcome.None? {
        return Error;
      }
      exit := outcome;
      reaped := reaped + 1;
      report := Status(outcome.value);
    }

    // Poll every 200 ms until a status, an error or the deadline, which is set at `start`, before the
    // first poll. `polls` and `clock` give the answer and the time of the k-th round.
    method WaitTimeout(timeout: nat, start: nat, polls: nat -> Poll, clock: nat -> nat) returns (report: Report, rounds: nat)
      requires Valid(View()) && Advances(clock, 200) && start <= clock(0)
      modifies this
      ensures Valid(View())
      ensures 1 <= rounds && 200 * (rounds - 1) <= timeout + 199
      ensures old(exit).Some? ==> report == Status(old(exit).value) && rounds == 1
      ensures old(child) ==>
                && (forall k :: 0 <= k < rounds - 1 ==> polls(k) == StillAlive && clock(k) < start + timeout)
                && (View(), report) == Step(old(View()), WaitCall.TryWait(polls(rounds - 1)))
                && (report == NotYet ==> clock(rounds - 1) >= start + timeout)
    {
      var deadline := start + timeout;
      rounds := 0;
      while true
        invariant View() == old(View())
        invariant rounds > 0 ==> old(exit).None? && clock(rounds - 1) < deadline
        invariant old(child) ==> forall k :: 0 <= k < rounds ==> polls(k) == StillAlive && clock(k) < deadline
        decreases timeout + 1 - (if rounds == 0 then 0 else clock(rounds - 1) - start + 1)
      {
        ClockAfter(clock, 200, rounds);
        if rounds > 0 {
          ClockAfter(clock, 200, rounds - 1);
          assert clock(rounds - 1 + 1) >= clock(rounds - 1) + 200;
        }
        report := TryWait(polls(rounds));
        rounds := rounds + 1;
        if report != NotYet || clock(rounds - 1) >= deadline {
          return;
        }
      }
    }
  }
}

/** The two polling loops of a start, until adb answers and until the guest reports it has booted, and what
    the start's own timeout leaves for each. */
module BootPoll {
  import opened Wrappers
  import opened GuestHandle

  datatype Devices = Listed | Unlisted | ListFails

  // One round of wait_for_adb while the handle stays registered: the guest's poll, then adb's answers.
  datatype AdbRound = AdbRound(poll: Poll, connects: bool, devices: Devices)

  datatype AdbVerdict = GuestExited | AdbTimeout | AdbReady | PollFailed

  predicate Answers(connects: bool, devices: Devices) {
    connects && devices.Listed?
  }

  // What a round that ends the loop ends it with.
  function Verdict(r: AdbRound): AdbVerdict {
    match r.poll
    case PollFails => PollFailed
    case Gone(_) => GuestExited
    case StillAlive => if Answers(r.connects, r.devices) then AdbReady else AdbTimeout
  }

  ghost predicate GoesOn(timeoutSecs: nat, start: nat, round: nat -> AdbRound, clock: nat -> nat, k: nat) {
    Verdict(round(k)).AdbTimeout? && clock(k) < start + 1000 * timeoutSecs
  }

  // The first round that sees the guest gone, sees its poll fail, sees the device, or finds the
  // deadline passed gives the verdict, and it comes within timeout + 1 rounds.
  ghost predicate AdbPollEnds(timeoutSecs: nat, start: nat, round: nat -> AdbRound, clock: nat -> nat,
                              verdict: AdbVerdict, rounds: nat)
  {
    && 1 <= rounds <= timeoutSecs + 1
    && (forall k :: 0 <= k < rounds - 1 ==> GoesOn(timeoutSecs, start, round, clock, k))
    && !GoesOn(timeoutSecs, start, round, clock, rounds - 1)
    && verdict == Verdict(round(rounds - 1))
  }

  // So the rounds and the clock decide: there is no second way for the loop to end.
  lemma AdbPollUnique(timeoutSecs: nat, start: nat, round: nat -> AdbRound, clock: nat -> nat,
                      v: AdbVerdict, m: nat, w: AdbVerdict, n: nat)
    requires AdbPollEnds(timeoutSecs, start, round, clock, v, m) && AdbPollEnds(timeoutSecs, start, round, clock, w, n)
    ensures v == w && m == n
  {
    hide GoesOn, Verdict;
  }

  // Polls once a second until the deadline, which is set at `start`.
  method WaitForAdb(timeoutSecs: nat, start: nat, round: nat -> AdbRound, clock: nat -> nat)
    returns (verdict: AdbVerdict, rounds: nat)
    requires Advances(clock, 1000) && start <= clock(0)
    ensures AdbPollEnds(timeoutSecs, start, round, clock, verdict, rounds)
  {
    var deadline := start + 1000 * timeoutSecs;
    rounds := 0;
    while true
      invariant rounds <= timeoutSecs
      invariant forall k :: 0 <= k < rounds ==> GoesOn(timeoutSecs, start, round, clock, k)
      decreases timeoutSecs - rounds
    {
      var now, r := clock(rounds), round(rounds);
      ClockAfter(clock, 1000, rounds);
      rounds := rounds + 1;
      match r.poll {
        case PollFails => return PollFailed, rounds;
        case Gone(_) => return GuestExited, rounds;
        case StillAlive =>
      }
      if !r.connects {
        if now >= deadline {
          return AdbTimeout, rounds;
        }
        continue;
      }
      match r.devices
      case Listed => return AdbReady, rounds;
      case Unlisted =>
        if now >= deadline {
          return AdbTimeout, rounds;
        }
      case ListFails =>
        if now >= deadline {
          return AdbTimeout, rounds;
        }
    }
  }

  // One round of verify_boot_completed: the boot property, or None when it cannot be read, and
  // whether either log shows the marker.
  datatype BootRound = BootRound(connects: bool, devices: Devices, booted: Option<bool>, consoleMarker: bool, runLogMarker: bool)

  // Nothing left of the caller's timeout means two minutes, not none.
  function BootTimeout(secs: Option<nat>): nat {
    if secs.None? || secs.value == 0 then 120 else secs.value
  }

  predicate Confirms(r: BootRound) {
    Answers(r.connects, r.devices) && (r.booted == Some(true) || r.consoleMarker || r.runLogMarker)
  }

  // Confirmed by the first round that confirms, if the deadline has not passed in one before it.
  ghost predicate BootPollEnds(secs: Option<nat>, start: nat, round: nat -> BootRound, clock: nat -> nat,
                               confirmed: bool, rounds: nat)
  {
    && 1 <= rounds <= 2 * BootTimeout(secs) + 1
    && (forall k :: 0 <= k < rounds - 1 ==> !Confirms(round(k)) && clock(k) < start + 1000 * BootTimeout(secs))
    && (confirmed <==> Confirms(round(rounds - 1)))
    && (!confirmed ==> clock(rounds - 1) >= start + 1000 * BootTimeout(secs))
  }

  // Polls at least every half second.
  method VerifyBootCompleted(timeoutSecs: Option<nat>, start: nat, round: nat -> BootRound, clock: nat -> nat)
    returns (confirmed: bool, rounds: nat)
    requires Advances(clock, 500) && start <= clock(0)
    ensures BootPollEnds(timeoutSecs, start, round, clock, confirmed, rounds)
  {
    var timeout := BootTimeout(timeoutSecs);
    var deadline := start + 1000 * timeout;
    rounds := 0;
    while true
      invariant rounds <= 2 * timeout
      invariant forall k :: 0 <= k < rounds ==> !Confirms(round(k)) && clock(k) < deadline
      decreases 2 * timeout - rounds
    {
      var now, r := clock(rounds), round(rounds);
      ClockAfter(clock, 500, rounds);
      rounds := rounds + 1;
      if !r.connects || !r.devices.Listed? {
        if now >= deadline {
          return false, rounds;
        }
        continue;
      }
      if r.booted == Some(true) || r.consoleMarker || r.runLogMarker {
        return true, rounds;
      }
      if now >= deadline {
        return false, rounds;
      }
    }
  }

  /* ---------- one timeout for both polls ---------- */

  // secs_remaining: whole seconds up to the deadline, none once it has passed. Times are milliseconds.
  function SecsRemaining(deadline: nat, now: nat): nat {
    if now <= deadline then (deadline - now) / 1000 else 0
  }

  // What the polls of one start see. Its deadline counts from `begun`; each poll asks for the
  // seconds remaining and then sets a deadline of its own at its start.
  datatype Polls = Polls(
    begun: nat,
    adbAsked: nat, adbStart: nat, adb: nat -> AdbRound, adbClock: nat -> nat,
    bootAsked: nat, bootStart: nat, boot: nat -> BootRound, bootClock: nat -> nat)

  ghost predicate Timely(p: Polls) {
    && Advances(p.adbClock, 1000) && p.begun <= p.adbAsked <= p.adbStart <= p.adbClock(0)
    && Advances(p.bootClock, 500) && p.bootAsked <= p.bootStart <= p.bootClock(0)
  }

  function StartDeadline(p: Polls, timeoutSecs: nat): nat {
    p.begun + 1000 * timeoutSecs
  }

  function AdbSecs(p: Polls, timeoutSecs: nat): nat {
    SecsRemaining(StartDeadline(p, timeoutSecs), p.adbAsked)
  }

  function BootSecs(p: Polls, timeoutSecs: nat): nat {
    SecsRemaining(StartDeadline(p, timeoutSecs), p.bootAsked)
  }

  function AdbDeadline(p: Polls, timeoutSecs: nat): nat {
    p.adbStart + 1000 * AdbSecs(p, timeoutSecs)
  }

  function BootDeadline(p: Polls, timeoutSecs: nat): nat {
    p.bootStart + 1000 * BootTimeout(Some(BootSecs(p, timeoutSecs)))
  }

  ghost predicate AdbEnds(p: Polls, timeoutSecs: nat, verdict: AdbVerdict, rounds: nat) {
    AdbPollEnds(AdbSecs(p, timeoutSecs), p.adbStart, p.adb, p.adbClock, verdict, rounds)
  }

  ghost predicate BootEnds(p: Polls, timeoutSecs: nat, confirmed: bool, rounds: nat) {
    BootPollEnds(Some(BootSecs(p, timeoutSecs)), p.bootStart, p.boot, p.bootClock, confirmed, rounds)
  }

  // How far a deadline set anew, from whole seconds, can move the caller's: no further when a second
  // or more is left and setting it took no longer than the fraction dropped.
  lemma RestartedDeadline(deadline: nat, asked: nat, start: nat)
    requires asked <= start
    ensures start + 1000 * SecsRemaining(deadline, asked) <= deadline
            <==> asked <= deadline && start - asked <= (deadline - asked) % 1000
  {
    if asked <= deadline {
      assert 1000 * ((deadline - asked) / 1000) + (deadline - asked) % 1000 == deadline - asked;
    }
  }

  // The boot check's deadline stays within the caller's exactly when a whole second is left and
  // setting it takes no longer than the fraction dropped. With less than a second left it is at
  // least 119 seconds late, so the timeout is no ceiling.
  lemma BootDeadlineIff(p: Polls, timeoutSecs: nat)
    requires Timely(p)
    ensures BootDeadline(p, timeoutSecs) <= StartDeadline(p, timeoutSecs)
            <==> (BootSecs(p, timeoutSecs) > 0
                  && p.bootStart - p.bootAsked <= (StartDeadline(p, timeoutSecs) - p.bootAsked) % 1000)
    ensures BootSecs(p, timeoutSecs) == 0 ==> BootDeadline(p, timeoutSecs) > StartDeadline(p, timeoutSecs) + 119_000
  {
    RestartedDeadline(StartDeadline(p, timeoutSecs), p.bootAsked, p.bootStart);
  }

  // With no time between asking and setting: exactly when a whole second is left.
  lemma PromptBootDeadlineIff(p: Polls, timeoutSecs: nat)
    requires Timely(p) && p.bootAsked == p.bootStart
    ensures BootDeadline(p, timeoutSecs) <= StartDeadline(p, timeoutSecs) <==> BootSecs(p, timeoutSecs) > 0
  {
    BootDeadlineIff(p, timeoutSecs);
  }

  // The adb poll never sets a deadline past the caller's but by the time it took to set it.
  lemma AdbDeadlineWithin(p: Polls, timeoutSecs: nat)
    requires Timely(p)
    ensures AdbSecs(p, timeoutSecs) <= timeoutSecs
    ensures p.adbAsked <= StartDeadline(p, timeoutSecs) ==>
              AdbDeadline(p, timeoutSecs) <= StartDeadline(p, timeoutSecs) + (p.adbStart - p.adbAsked)
  {
    RestartedDeadline(StartDeadline(p, timeoutSecs), p.adbAsked, p.adbStart);
  }

  // A start with 180 seconds whose device is listed half a second before they are over, and which
  // then never boots: the boot check runs on for two minutes.
  const LATE_ANSWER: Polls := Polls(
    0,
    0, 0, k => AdbRound(StillAlive, true, if k < 179 then Unlisted else Listed), k => 500 + 1000 * k,
    179_500, 179_500, k => BootRound(true, Listed, Some(false), false, false), k => 179_500 + 500 * k)

  lemma LateAnswerOverruns()
    ensures Timely(LATE_ANSWER)
    ensures AdbEnds(LATE_ANSWER, 180, AdbReady, 180)
    ensures BootEnds(LATE_ANSWER, 180, false, 241)
    ensures LATE_ANSWER.bootClock(240) == StartDeadline(LATE_ANSWER, 180) + 119_500
  {
    var p := LATE_ANSWER;
    assert AdbSecs(p, 180) == 180 && BootSecs(p, 180) == 0;
  }
}

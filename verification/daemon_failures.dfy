/** Runs of a new daemon: what holds of all of them, and one for each step that leaves an instance half-way. */
module DaemonFailures {
  import opened Wrappers
  import opened BootPoll
  import opened Instances
  import opened DaemonPrune
  import opened DaemonRuns
  import opened DaemonSettled
  import opened DaemonHolds
  import opened DaemonGuests
  import opened DaemonWatchers

  lemma NewHostGood(c: Config)
    ensures Settled(NewHost(c)) && Shown(NewHost(c)) && Watched(NewHost(c)) && OwnPorts(NewHost(c)) && OwnMatches(NewHost(c))
  {
  }

  // Whatever the requests and watchers of a new daemon did: ports belong to ids and differ between
  // slots; nothing is half-way, every registered guest shows as Running and has a watcher exactly as
  // long as none of the steps named for each has happened; and a watcher that compares and removes
  // in one step takes out its own guest only.
  lemma FromNothing(c: Config, events: seq<Event>)
    requires Possible(NewHost(c), events)
    ensures Wired(After(NewHost(c), events)) && OwnPorts(After(NewHost(c), events))
    ensures forall i, j :: i in After(NewHost(c), events).disk && j in After(NewHost(c), events).disk && i != j
              && Allocator.Slot(i) && Allocator.Slot(j)
              ==> After(NewHost(c), events).disk[i].adbPort != After(NewHost(c), events).disk[j].adbPort
    ensures AlwaysSettled(NewHost(c), events) <==> NeverUnsettled(NewHost(c), events)
    ensures AlwaysShown(NewHost(c), events) <==> NeverUnshown(NewHost(c), events)
    ensures AlwaysWatched(NewHost(c), events) <==> NeverUnwatched(NewHost(c), events)
    ensures PromptRemoval(NewHost(c), events) ==> OnlyOwnRemovals(NewHost(c), events)
  {
    NewHostGood(c);
    WiredRun(NewHost(c), events);
    OwnPortsKept(NewHost(c), events);
    forall i, j | i in After(NewHost(c), events).disk && j in After(NewHost(c), events).disk && i != j
                  && Allocator.Slot(i) && Allocator.Slot(j)
      ensures After(NewHost(c), events).disk[i].adbPort != After(NewHost(c), events).disk[j].adbPort
    {
      SlotPortsDistinct(NewHost(c), events, i, j);
    }
    hide After, Possible;
    SettledRunIff(NewHost(c), events);
    ShownRunIff(NewHost(c), events);
    WatchedRunIff(NewHost(c), events);
    if PromptRemoval(NewHost(c), events) {
      PromptNeverEvicts(NewHost(c), events);
    }
  }

  // In every state a new daemon gets to, a successful hold protects exactly the instances that do not
  // rest in Destroyed, for exactly as long as they are not destroyed and no watcher writes what it read
  // before the hold; and a registered guest stays
  // for exactly as long as no step ends its registration.
  lemma FromThere(c: Config, before: seq<Event>, id: Id, now: nat, after: seq<Event>)
    requires Possible(NewHost(c), before)
    ensures var h := After(NewHost(c), before);
            var held := Step(h, Request(Hold(id, now)));
            Serve(h, Hold(id, now)).1.Acted? && Possible(held, after) ==>
              && id in h.disk
              && (AlwaysProtected(held, after, id)
                  <==> h.disk[id].state != Destroyed && NeverDestroyed(held, after, id)
                       && NoneWritten(after, StaleCopies(h, id)))
    ensures var h := After(NewHost(c), before);
            id in h.registry && Possible(h, after) ==>
              (AlwaysRegistered(h, after, id, h.registry[id]) <==> GuestLeftAlone(h, after, id))
  {
    NewHostGood(c);
    WiredRun(NewHost(c), before);
    var h := After(NewHost(c), before);
    hide After, Possible, Wired;
    if Serve(h, Hold(id, now)).1.Acted? && Possible(Serve(h, Hold(id, now)).0, after) {
      HoldProtectsIff(h, id, now, after);
    }
    if id in h.registry && Possible(h, after) {
      RegisteredRunIff(h, after, id);
    }
  }

  /* ---------- one run for each failure ---------- */

  function Making(now: nat): Event {
    Request(Create(None, now))
  }

  function Launching(options: StartOptions, env: StartEnv): Event {
    Request(CreateStart(None, env.begin, options, env))
  }

  function Marking(cleanup: Cleanup, now: nat): DestroyEnv {
    DestroyEnv(true, cleanup, now, now)
  }

  // A destroy or prune that cannot see the guest's end.
  function Blind(now: nat): DestroyEnv {
    DestroyEnv(false, FilesRemoved, now, now)
  }

  function Always(env: DestroyEnv): Id -> DestroyEnv {
    _ => env
  }

  const WAITING: StartOptions := StartOptions(false, false)

  lemma FirstSlot()
    ensures Allocator.Allocate({}, None) == Some(1)
  {
    Allocator.AllocateMeaning({}, None);
    assert Allocator.Distance(1, 1) == 0;
    hide Allocator.Allocate;
  }

  // After the first create.
  lemma Made(c: Config, now: nat)
    ensures var k := Step(NewHost(c), Making(now));
            && Enabled(NewHost(c), Making(now)) && Settled(k) && k.registry == map[] && k.dirs == {1}
            && k.disk == map[1 := Fresh(c, 1, None, Created, now)]
  {
    FirstSlot();
    hide Allocator.Allocate;
    NewHostGood(c);
    SettledKeptIff(NewHost(c), Making(now));
  }

  // After the first create-start, which skips the wait for adb.
  lemma Launched(c: Config, now: nat)
    ensures var e := Launching(SKIPPING, Smooth(now));
            var k := Step(NewHost(c), e);
            && Enabled(NewHost(c), e) && Settled(k) && k.registry == map[1 := 0] && k.dirs == {1}
            && k.watchers == map[0 := Blocked(1)]
            && k.disk == map[1 := Fresh(c, 1, None, Running, now)]
  {
    FirstSlot();
    hide Allocator.Allocate;
    NewHostGood(c);
    SettledKeptIff(NewHost(c), Launching(SKIPPING, Smooth(now)));
  }

  // A step that leaves an instance half-way, from a settled host after one step of a new daemon.
  lemma SecondStepUnsettles(c: Config, first: Event, second: Event)
    requires Enabled(NewHost(c), first) && Settled(Step(NewHost(c), first))
    requires Enabled(Step(NewHost(c), first), second) && Unsettles(Step(NewHost(c), first), second)
    ensures Possible(NewHost(c), [first, second]) && !Settled(After(NewHost(c), [first, second]))
  {
    SettledKeptIff(Step(NewHost(c), first), second);
    hide Step, Settled, Enabled, Unsettles;
    Cons(Step(NewHost(c), first), second, []);
    Cons(NewHost(c), first, [second]);
    assert [first, second] == [first] + [second];
  }

  lemma PreparationFailureHangs(c: Config, now: nat, spawned: bool)
    ensures var e := Request(Start(1, WAITING, StartEnv(false, spawned, AdbReady, true, true, true, now, now)));
            Possible(NewHost(c), [Making(now), e]) && !Settled(After(NewHost(c), [Making(now), e]))
  {
    Made(c, now);
    var e := Request(Start(1, WAITING, StartEnv(false, spawned, AdbReady, true, true, true, now, now)));
    hide Step, Settled;
    SecondStepUnsettles(c, Making(now), e);
  }

  // The guest is spawned and its poll fails: Starting, whether or not it can be ended.
  lemma PollFailureHangs(c: Config, now: nat, ended: bool)
    ensures var e := Request(Start(1, WAITING, StartEnv(true, true, PollFailed, true, ended, true, now, now)));
            var k := After(NewHost(c), [Making(now), e]);
            && Possible(NewHost(c), [Making(now), e]) && !Settled(k)
            && 1 in k.disk && k.disk[1].state == Starting && (1 in k.registry <==> !ended)
  {
    Made(c, now);
    var e := Request(Start(1, WAITING, StartEnv(true, true, PollFailed, true, ended, true, now, now)));
    var a := Step(NewHost(c), Making(now));
    SettledWired(a);
    StartSettles(a, 1, WAITING, e.call.start);
    hide Step, Settled, StartInstance, Local, Wired;
    SecondStepUnsettles(c, Making(now), e);
    StepOfStart(a, 1, WAITING, e.call.start);
    AfterTwo(NewHost(c), Making(now), e);
  }

  lemma StepOfStart(h: Host, id: Id, options: StartOptions, env: StartEnv)
    ensures Step(h, Request(Start(id, options, env))) == StartInstance(Bare(h), id, options, env).0.host
  {
    hide StartInstance;
  }

  lemma AfterTwo(h: Host, first: Event, second: Event)
    ensures After(h, [first, second]) == Step(Step(h, first), second)
  {
    hide Step;
    assert [first, second][1..] == [second] && [second][1..] == [];
    assert After(Step(h, first), [second]) == After(Step(Step(h, first), second), []);
  }

  lemma KeptFilesHang(c: Config, now: nat)
    ensures var e := Request(Destroy(1, Marking(FilesKept, now)));
            Possible(NewHost(c), [Making(now), e]) && !Settled(After(NewHost(c), [Making(now), e]))
    ensures var e := Request(PruneExpired(0, now, [1], Always(Marking(FilesKept, now))));
            Possible(NewHost(c), [Making(now), e]) && !Settled(After(NewHost(c), [Making(now), e]))
    ensures var e := Request(PruneAll([1], Always(Marking(FilesKept, now))));
            Possible(NewHost(c), [Making(now), e]) && !Settled(After(NewHost(c), [Making(now), e]))
  {
    Made(c, now);
    hide Step, Settled;
    var a := Step(NewHost(c), Making(now));
    assert 1 in Expired(a, 0, now) && 1 in Live(a) - HeldLive(a);
    assert LeftMarked(a, 1, Marking(FilesKept, now));
    SecondStepUnsettles(c, Making(now), Request(Destroy(1, Marking(FilesKept, now))));
    SecondStepUnsettles(c, Making(now), Request(PruneExpired(0, now, [1], Always(Marking(FilesKept, now)))));
    SecondStepUnsettles(c, Making(now), Request(PruneAll([1], Always(Marking(FilesKept, now)))));
  }

  lemma UnseenEndHangs(c: Config, now: nat)
    ensures var s := Launching(SKIPPING, Smooth(now));
            var e := Request(Destroy(1, Blind(now)));
            Possible(NewHost(c), [s, e]) && !Settled(After(NewHost(c), [s, e]))
    ensures var s := Launching(SKIPPING, Smooth(now));
            var e := Request(PruneExpired(0, now, [1], Always(Blind(now))));
            Possible(NewHost(c), [s, e]) && !Settled(After(NewHost(c), [s, e]))
    ensures var s := Launching(SKIPPING, Smooth(now));
            var e := Request(PruneAll([1], Always(Blind(now))));
            Possible(NewHost(c), [s, e]) && !Settled(After(NewHost(c), [s, e]))
  {
    Launched(c, now);
    hide Step, Settled;
    var s := Launching(SKIPPING, Smooth(now));
    var a := Step(NewHost(c), s);
    assert 1 in Expired(a, 0, now) && 1 in Live(a) - HeldLive(a);
    assert LeftMarked(a, 1, Blind(now));
    SecondStepUnsettles(c, s, Request(Destroy(1, Blind(now))));
    SecondStepUnsettles(c, s, Request(PruneExpired(0, now, [1], Always(Blind(now)))));
    SecondStepUnsettles(c, s, Request(PruneAll([1], Always(Blind(now)))));
  }

  // The watcher's wait fails: Running, with no guest registered and no exit to be written.
  lemma FailedWaitHangs(c: Config, now: nat)
    ensures var events := [Launching(SKIPPING, Smooth(now)), Waited(0, None), HandleRemoved(0)];
            Possible(NewHost(c), events) && !Settled(After(NewHost(c), events))
  {
    Launched(c, now);
    var s := Launching(SKIPPING, Smooth(now));
    var a := Step(NewHost(c), s);
    WatcherFails(a);
    var b := Step(a, Waited(0, None));
    SettledKeptIff(a, Waited(0, None));
    SettledKeptIff(b, HandleRemoved(0));
    hide Step, Settled, Enabled, Unsettles;
    Cons(b, HandleRemoved(0), []);
    Cons(a, Waited(0, None), [HandleRemoved(0)]);
    Cons(NewHost(c), s, [Waited(0, None)] + [HandleRemoved(0)]);
    assert [s, Waited(0, None), HandleRemoved(0)] == [s] + ([Waited(0, None)] + [HandleRemoved(0)]);
  }

  lemma WatcherFails(h: Host)
    requires h.watchers == map[0 := Blocked(1)] && h.registry == map[1 := 0]
    requires 1 in h.disk && h.disk[1].state == Running
    ensures Enabled(h, Waited(0, None)) && !Unsettles(h, Waited(0, None))
    ensures var k := Step(h, Waited(0, None)); Enabled(k, HandleRemoved(0)) && Unsettles(k, HandleRemoved(0))
  {
  }

  // A start that ends with its boot unverified: Running and registered, and nobody waits for the guest.
  lemma UnverifiedBootUnwatched(c: Config, now: nat)
    ensures var e := Launching(StartOptions(false, true), StartEnv(true, true, AdbReady, true, true, false, now, now));
            var k := Step(NewHost(c), e);
            && Enabled(NewHost(c), e) && Settled(k) && !Watched(k)
            && 1 in k.registry && 1 in k.disk && k.disk[1].state == Running && k.watchers == map[]
  {
    var e := Launching(StartOptions(false, true), StartEnv(true, true, AdbReady, true, true, false, now, now));
    FirstSlot();
    hide Allocator.Allocate;
    NewHostGood(c);
    SettledKeptIff(NewHost(c), e);
    assert !WatchedAt(Step(NewHost(c), e), 1);
  }

  // A hold that succeeds and protects nothing: the instance rests in Destroyed, is marked held, and is
  // not listed.
  lemma HoldOfDestroyed(c: Config, now: nat)
    ensures var events := [Making(now), Request(Destroy(1, Marking(FilesKept, now))), Request(Hold(1, now))];
            var k := After(NewHost(c), events);
            && Possible(NewHost(c), events) && 1 in k.disk && k.disk[1].held && k.disk[1].state == Destroyed
            && Serve(After(NewHost(c), events[..2]), Hold(1, now)).1.Acted?
            && Serve(k, ListAll).1.Listing? && 1 !in Serve(k, ListAll).1.instances
  {
    Made(c, now);
    var d, e := Request(Destroy(1, Marking(FilesKept, now))), Request(Hold(1, now));
    var a := Step(NewHost(c), Making(now));
    SettledWired(a);
    DestroySettles(a, 1, Marking(FilesKept, now));
    var b := Step(a, d);
    HoldSettles(b, 1, now);
    var k := Step(b, e);
    hide DestroyInstance, HoldInstance, Wired;
    ProtectedIff(k, 1);
    AfterTwo(NewHost(c), Making(now), d);
    assert [Making(now), d, e][..2] == [Making(now), d];
    hide Serve, Step, Enabled;
    Cons(b, e, []);
    Cons(a, d, [e]);
    Cons(NewHost(c), Making(now), [d] + [e]);
    assert [Making(now), d, e] == [Making(now)] + ([d] + [e]);
  }

  /* ---------- what comes between a watcher's read and its write ---------- */

  // The first guest has exited, and its watcher has read the metadata and not yet written it.
  function Reading(now: nat): seq<Event> {
    [Launching(SKIPPING, Smooth(now)), Waited(0, Some(CLEAN)), HandleRemoved(0), ExitRead(0, now)]
  }

  lemma ReadingRun(c: Config, now: nat)
    ensures var k := After(NewHost(c), Reading(now));
            && Possible(NewHost(c), Reading(now)) && Settled(k)
            && k.registry == map[] && k.dirs == {1} && k.disk == map[1 := Fresh(c, 1, None, Running, now)]
            && k.watchers == map[0 := Loaded(1, Fresh(c, 1, None, Stopped, now))]
  {
    Launched(c, now);
    var e1, e2, e3, e4 := Launching(SKIPPING, Smooth(now)), Waited(0, Some(CLEAN)), HandleRemoved(0), ExitRead(0, now);
    var a := Step(NewHost(c), e1);
    SettledWired(a);
    hide Step, Settled, Wired;
    var b := Step(a, e2);
    WatcherSees(a, 1, 0);
    SettledKeptIff(a, e2);
    var d := Step(b, e3);
    WatcherRemoves(b, 1, 0);
    SettledKeptIff(b, e3);
    var f := Step(d, e4);
    SettledWired(d);
    WatcherReads(d, 1, 0, now);
    SettledKeptIff(d, e4);
    Cons(d, e4, []);
    Cons(b, e3, [e4]);
    Cons(a, e2, [e3] + [e4]);
    Cons(NewHost(c), e1, [e2] + ([e3] + [e4]));
    assert Reading(now) == [e1] + ([e2] + ([e3] + [e4]));
  }

  // A hold that succeeds, and takes effect, and is lost: the watcher writes the copy it read before.
  // The next prune of everything takes the instance.
  lemma HoldLost(c: Config, now: nat)
    ensures var h := After(NewHost(c), Reading(now));
            var a := Step(h, Request(Hold(1, now)));
            var b := Step(a, ExitWritten(0));
            && Possible(NewHost(c), Reading(now)) && Enabled(a, ExitWritten(0))
            && Serve(h, Hold(1, now)).1.Acted? && Protected(a, 1)
            && 1 in b.disk && !b.disk[1].held && 1 in Live(b) - HeldLive(b)
            && 1 !in Step(b, Request(PruneAll([1], Always(Marking(FilesRemoved, now))))).disk
  {
    ReadingRun(c, now);
    var h := After(NewHost(c), Reading(now));
    SettledWired(h);
    HoldSettles(h, 1, now);
    HoldHoldsIff(h, 1, now);
    var a := Step(h, Request(Hold(1, now)));
    StepOfHold(h, 1, now);
    hide HoldInstance, Wired, After, Reading, Protected, Settled, Serve;
    WatcherWrites(a, 1, 0, Fresh(c, 1, None, Stopped, now));
    var b := Step(a, ExitWritten(0));
    PruneTakesOnly(b, now);
  }

  lemma StepOfHold(h: Host, id: Id, now: nat)
    ensures Step(h, Request(Hold(id, now))) == Serve(h, Hold(id, now)).0 == HoldInstance(Bare(h), id, now).0.host
    ensures Serve(h, Hold(id, now)).1 == HoldInstance(Bare(h), id, now).1
  {
    hide HoldInstance;
  }

  lemma PruneTakesOnly(h: Host, now: nat)
    requires Wired(h) && h.dirs == {1} && 1 in Live(h) - HeldLive(h) && 1 !in h.registry
    ensures 1 !in Step(h, Request(PruneAll([1], Always(Marking(FilesRemoved, now))))).disk
  {
    WiredHoused(h);
    var outcome := Always(Marking(FilesRemoved, now));
    PruneAllAccounts(h, [1], outcome);
    PruneFrame(h, Live(h) - HeldLive(h), outcome, 1);
    hide Prune, PrunedHost, Housed;
  }

  // A destroy that removes everything, and is undone: the write brings directory and metadata back.
  lemma DestroyUndone(c: Config, now: nat)
    ensures var h := After(NewHost(c), Reading(now));
            var a := Step(h, Request(Destroy(1, Marking(FilesRemoved, now))));
            var b := Step(a, ExitWritten(0));
            && Possible(NewHost(c), Reading(now)) && Enabled(a, ExitWritten(0))
            && 1 !in a.disk && 1 !in a.dirs
            && 1 in b.disk && 1 in b.dirs && b.disk[1].state == Stopped
  {
    ReadingRun(c, now);
    var h := After(NewHost(c), Reading(now));
    SettledWired(h);
    var env := Marking(FilesRemoved, now);
    DestroySettles(h, 1, env);
    DestroyedDirs(h, 1, env);
    var a := Step(h, Request(Destroy(1, env)));
    hide DestroyInstance, Wired, After, Reading, Settled;
    WatcherWrites(a, 1, 0, Fresh(c, 1, None, Stopped, now));
  }

  lemma DestroyedDirs(h: Host, id: Id, env: DestroyEnv)
    requires env.cleanup.FilesRemoved? && id !in h.registry
    ensures id !in DestroyInstance(Bare(h), id, env).0.host.dirs
  {
  }

  // A deploy that is refused, and changes what the instance boots: a boot image has been deployed
  // before, the new one is copied over it, and the init_boot image cannot be copied.
  lemma RefusedDeployChanges(c: Config, first: bytes, second: bytes, now: nat)
    requires first != second
    ensures var a := Step(Step(NewHost(c), Making(now)), Request(Deploy(1, Some(Copied(first)), None, now)));
            var (k, reply) := Serve(a, Deploy(1, Some(Copied(second)), Some(CopyFails(None)), now));
            && reply == Refused(CopyFailed) && 1 in a.disk && 1 in k.disk
            && BootInEffect(a, 1) == ByContent(Some(first)) && BootInEffect(k, 1) == ByContent(Some(second))
  {
    Made(c, now);
    hide Step, Settled;
    StepOfDeploy(Step(NewHost(c), Making(now)), first, second, now);
  }

  lemma StepOfDeploy(h: Host, first: bytes, second: bytes, now: nat)
    requires 1 in h.disk
    ensures var a := Step(h, Request(Deploy(1, Some(Copied(first)), None, now)));
            var (k, reply) := Serve(a, Deploy(1, Some(Copied(second)), Some(CopyFails(None)), now));
            && reply == Refused(CopyFailed) && 1 in a.disk && 1 in k.disk
            && BootInEffect(a, 1) == ByContent(Some(first)) && BootInEffect(k, 1) == ByContent(Some(second))
  {
  }
}

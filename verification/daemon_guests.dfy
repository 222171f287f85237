/** Over every run of the daemon: which steps take a guest out of the
    registry, when a registered guest shows as Running, and when it has a watcher. */
module DaemonGuests {
  import opened Wrappers
  import opened Instances
  import opened DaemonPrune
  import opened DaemonRuns
  import opened DaemonSettled

  /* ---------- what one step does to a registered guest ---------- */

  // A registered guest has metadata, and it says Running.
  ghost predicate ShownAt(h: Host, id: Id) {
    id in h.registry ==> id in h.disk && h.disk[id].state == Running
  }

  ghost predicate Shown(h: Host) {
    Wired(h) && forall id :: ShownAt(h, id)
  }

  // A registered guest has a watcher that has not got past the registry yet.
  ghost predicate WatchedAt(h: Host, id: Id) {
    id in h.registry ==>
      var g := h.registry[id];
      g in h.watchers && h.watchers[g].id == id && !HasExit(h.watchers[g])
  }

  ghost predicate Watched(h: Host) {
    Wired(h) && forall id :: WatchedAt(h, id)
  }

  // The steps that end the registration of a guest: requests for its instance, and a watcher of its
  // instance, be it its own or one that compared handles before the guest was registered.
  ghost predicate EndsGuest(h: Host, e: Event, id: Id) {
    id in h.registry &&
    match e
    case Request(Stop(i, env)) => i == id && id in h.disk && env.ended
    case Request(Destroy(i, env)) => i == id && env.ended
    case Request(WaitAdb(i, env)) => i == id && id in h.disk && (env.adb.GuestExited? || (env.adb.AdbTimeout? && env.ended))
    case Request(PruneExpired(maxAge, now, _, outcome)) => id in Expired(h, maxAge, now) && outcome(id).ended
    case Request(PruneAll(_, outcome)) => id in Live(h) - HeldLive(h) && outcome(id).ended
    case HandleRemoved(g) => g in h.watchers && h.watchers[g].id == id
    case _ => false
  }

  // A start that registers a guest and ends with an error, the guest still registered.
  predicate StartUnshown(options: StartOptions, env: StartEnv) {
    StaysRegistered(options, env) && StartState(options, env) != Running
  }

  predicate StartUnwatched(options: StartOptions, env: StartEnv) {
    StaysRegistered(options, env) && !(StartState(options, env) == Running && Verified(options, env))
  }

  // The steps after which a registered guest no longer shows as Running: a watcher writes the exit of
  // another guest, or a request cannot see the end of the guest and leaves it registered.
  ghost predicate Unshows(h: Host, e: Event, id: Id) {
    match e
    case ExitWritten(g) => id in h.registry && g in h.watchers && h.watchers[g].id == id
    case Request(Start(i, options, env)) => i == id && !StartRefused(h, id, options) && StartUnshown(options, env)
    case Request(CreateStart(_, _, options, env)) =>
      Allocator.Allocate(h.dirs, h.cursor) == Some(id) && !(options.skipAdbWait && options.verifyBoot)
      && id !in h.registry && StartUnshown(options, env)
    case Request(WaitAdb(i, env)) => i == id && id in h.registry && env.adb.AdbTimeout? && !env.ended
    case Request(Destroy(i, env)) => i == id && id in h.registry && !env.ended
    case Request(PruneExpired(maxAge, now, _, outcome)) =>
      id in Expired(h, maxAge, now) && id in h.registry && !outcome(id).ended
    case Request(PruneAll(_, outcome)) => id in Live(h) - HeldLive(h) && id in h.registry && !outcome(id).ended
    case _ => false
  }

  // The starts that leave a guest registered and spawn no watcher for it.
  ghost predicate Unwatches(h: Host, e: Event, id: Id) {
    match e
    case Request(Start(i, options, env)) => i == id && !StartRefused(h, id, options) && StartUnwatched(options, env)
    case Request(CreateStart(_, _, options, env)) =>
      Allocator.Allocate(h.dirs, h.cursor) == Some(id) && !(options.skipAdbWait && options.verifyBoot)
      && id !in h.registry && StartUnwatched(options, env)
    case _ => false
  }

  // What requests do to watchers: none is touched, and new ones wait.
  ghost predicate KeepsWatchers(h: Host, k: Host) {
    && (forall g :: g in h.watchers ==> g in k.watchers && k.watchers[g] == h.watchers[g])
    && (forall g :: g in k.watchers && g !in h.watchers ==> k.watchers[g].Blocked?)
  }

  // What any step does to the registered guest of any instance.
  ghost predicate GuestFollows(h: Host, k: Host, e: Event, id: Id) {
    && Wired(k) && k.nextGeneration >= h.nextGeneration && (e.Request? ==> KeepsWatchers(h, k))
    && (id in h.registry ==> (id in k.registry <==> !EndsGuest(h, e, id)))
    && (id in k.registry ==> if id in h.registry then k.registry[id] == h.registry[id] else k.registry[id] >= h.nextGeneration)
    && (ShownAt(h, id) ==> (ShownAt(k, id) <==> !Unshows(h, e, id)))
    && (WatchedAt(h, id) ==> (WatchedAt(k, id) <==> !Unwatches(h, e, id)))
  }

  // The steps that only concern other instances, or none.
  ghost predicate Spares(h: Host, e: Event, id: Id) {
    !EndsGuest(h, e, id) && !Unshows(h, e, id) && !Unwatches(h, e, id)
  }

  lemma LocalGuestFollows(h: Host, k: Host, e: Event, touched: Id, id: Id)
    requires Local(h, k, touched) && id != touched && Spares(h, e, id)
    ensures GuestFollows(h, k, e, id)
  {
    assert SameAt(h, k, id);
    hide Wired, EndsGuest, Unshows, Unwatches;
  }

  lemma UnchangedGuestFollows(h: Host, e: Event, id: Id)
    requires Wired(h) && e.Request? && Spares(h, e, id)
    ensures GuestFollows(h, h, e, id)
  {
    hide Wired, EndsGuest, Unshows, Unwatches;
  }

  lemma StartGuest(h: Host, id: Id, options: StartOptions, env: StartEnv, j: Id)
    requires Wired(h)
    ensures GuestFollows(h, StartInstance(Bare(h), id, options, env).0.host, Request(Start(id, options, env)), j)
  {
    assert h.nextGeneration !in h.watchers;
    hide StartInstance, Wired, StaysRegistered, StartState, Verified;
    StartSettles(h, id, options, env);
    var k := StartInstance(Bare(h), id, options, env).0.host;
    var e := Request(Start(id, options, env));
    if StartRefused(h, id, options) {
      UnchangedGuestFollows(h, e, j);
    } else if j != id {
      LocalGuestFollows(h, k, e, id, j);
    }
  }

  lemma CreateGuest(h: Host, purpose: Option<string>, now: nat, j: Id)
    requires Wired(h)
    ensures var k := CreateInstance(Bare(h), purpose, now).0.host;
            GuestFollows(h, k, Request(Create(purpose, now)), j) && k.registry == h.registry
  {
    hide CreateInstance, Wired, Allocator.Allocate;
    CreateSettles(h, purpose, now);
    var (created, reply) := CreateInstance(Bare(h), purpose, now);
    if !reply.Acted? {
      UnchangedGuestFollows(h, Request(Create(purpose, now)), j);
    } else if j != reply.summary.id {
      LocalGuestFollows(h, created.host, Request(Create(purpose, now)), reply.summary.id, j);
    }
  }

  // The start that follows a create acts on the created instance in the slot given.
  lemma CreateStartGuest(h: Host, purpose: Option<string>, now: nat, options: StartOptions, env: StartEnv, j: Id)
    requires Wired(h)
    ensures GuestFollows(h, CreateAndStart(Bare(h), purpose, now, options, env).0.host,
                         Request(CreateStart(purpose, now, options, env)), j)
  {
    hide CreateInstance, StartInstance, CreateAndStart, Wired, Allocator.Allocate, StartUnshown, StartUnwatched;
    CreateStartSame(h, purpose, now, options, env);
    CreateSettles(h, purpose, now);
    CreateGuest(h, purpose, now, j);
    var (created, reply) := CreateInstance(Bare(h), purpose, now);
    if reply.Acted? {
      StartGuest(created.host, reply.summary.id, options, env, j);
    }
  }

  lemma OneGuest(h: Host, e: Event, j: Id)
    requires Wired(h) && e.Request?
    requires e.call.Stop? || e.call.Hold? || e.call.Deploy? || e.call.WaitAdb? || e.call.Destroy?
    ensures GuestFollows(h, Serve(h, e.call).0, e, j)
  {
    hide StopInstance, HoldInstance, DeployImages, WaitForAdbReply, DestroyInstance, Wired, CleanupOf;
    var k := Serve(h, e.call).0;
    match e.call
    case Stop(id, env) =>
      StopSettles(h, id, env);
      if k == h { UnchangedGuestFollows(h, e, j); } else if j != id { LocalGuestFollows(h, k, e, id, j); }
    case Hold(id, now) =>
      HoldSettles(h, id, now);
      if k == h { UnchangedGuestFollows(h, e, j); } else if j != id { LocalGuestFollows(h, k, e, id, j); }
    case Deploy(id, boot, initBoot, now) =>
      DeploySettles(h, id, boot, initBoot, now);
      if k == h { UnchangedGuestFollows(h, e, j); } else if j != id { LocalGuestFollows(h, k, e, id, j); }
    case WaitAdb(id, env) =>
      WaitSettles(h, id, env);
      if j != id {
        if k == h { UnchangedGuestFollows(h, e, j); } else { LocalGuestFollows(h, k, e, id, j); }
      }
    case Destroy(id, env) =>
      DestroySettles(h, id, env);
      if j != id { LocalGuestFollows(h, k, e, id, j); }
  }

  lemma PruneGuest(h: Host, targets: set<Id>, outcome: Id -> DestroyEnv, e: Event, j: Id)
    requires Wired(h) && targets <= h.disk.Keys
    requires EndsGuest(h, e, j) <==> j in h.registry && j in targets && outcome(j).ended
    requires Unshows(h, e, j) <==> j in h.registry && j in targets && !outcome(j).ended
    requires !Unwatches(h, e, j)
    ensures GuestFollows(h, PrunedHost(h, targets, outcome), e, j)
  {
    hide EndsGuest, Unshows, Unwatches;
    PrunedWatchers(h, targets, outcome);
    WiredHoused(h);
    PruneFrame(h, targets, outcome, j);
    hide PrunedHost, Wired;
  }

  lemma WatcherGuest(h: Host, e: Event, j: Id)
    requires Wired(h) && Enabled(h, e) && !e.Request?
    ensures GuestFollows(h, Step(h, e), e, j)
  {
  }

  lemma StepGuest(h: Host, e: Event, j: Id)
    requires Wired(h) && Enabled(h, e)
    ensures GuestFollows(h, Step(h, e), e, j)
  {
    hide CreateInstance, CreateAndStart, StartInstance, StopInstance, HoldInstance, DestroyInstance, DeployImages,
         WaitForAdbReply, Prune, List, Wired, PrunedHost, GuestFollows;
    if !e.Request? {
      WatcherGuest(h, e, j);
    } else {
      match e.call
      case Create(purpose, now) => CreateGuest(h, purpose, now, j);
      case CreateStart(purpose, now, options, env) => CreateStartGuest(h, purpose, now, options, env, j);
      case Start(id, options, env) => StartGuest(h, id, options, env, j);
      case PruneExpired(maxAge, now, order, outcome) =>
        WiredHoused(h);
        PruneExpiredAccounts(h, maxAge, now, order, outcome);
        PruneGuest(h, Expired(h, maxAge, now), outcome, e, j);
      case PruneAll(order, outcome) =>
        WiredHoused(h);
        PruneAllAccounts(h, order, outcome);
        PruneGuest(h, Live(h) - HeldLive(h), outcome, e, j);
      case Status(_) => UnchangedGuestFollows(h, e, j);
      case ListAll => UnchangedGuestFollows(h, e, j);
      case _ => OneGuest(h, e, j);
    }
  }

  /* ---------- over every run ---------- */

  // No step of the run ends the registration of the guest of id.
  ghost predicate GuestLeftAlone(h: Host, events: seq<Event>, id: Id)
    decreases |events|
  {
    events != [] ==> !EndsGuest(h, events[0], id) && GuestLeftAlone(Step(h, events[0]), events[1..], id)
  }

  ghost predicate AlwaysRegistered(h: Host, events: seq<Event>, id: Id, g: Generation)
    decreases |events|
  {
    && id in h.registry && h.registry[id] == g
    && (events != [] ==> AlwaysRegistered(Step(h, events[0]), events[1..], id, g))
  }

  // A registered guest stays registered, as the same generation, through exactly the runs in which no
  // step ends its registration.
  lemma {:induction false} RegisteredRunIff(h: Host, events: seq<Event>, id: Id)
    requires Wired(h) && Possible(h, events) && id in h.registry
    ensures AlwaysRegistered(h, events, id, h.registry[id]) <==> GuestLeftAlone(h, events, id)
    decreases |events|
  {
    hide Step, Enabled, Wired, EndsGuest, ShownAt, Unshows, WatchedAt, Unwatches;
    if events != [] {
      StepGuest(h, events[0], id);
      if !EndsGuest(h, events[0], id) {
        RegisteredRunIff(Step(h, events[0]), events[1..], id);
      }
    }
  }

  ghost predicate AlwaysShown(h: Host, events: seq<Event>)
    decreases |events|
  {
    Shown(h) && (events != [] ==> AlwaysShown(Step(h, events[0]), events[1..]))
  }

  ghost predicate NeverUnshown(h: Host, events: seq<Event>)
    decreases |events|
  {
    events != [] ==>
      && (forall id :: !Unshows(h, events[0], id))
      && NeverUnshown(Step(h, events[0]), events[1..])
  }

  // Registered guests show as Running through exactly the runs without one of the steps named above.
  lemma {:induction false} ShownRunIff(h: Host, events: seq<Event>)
    requires Shown(h) && Possible(h, events)
    ensures AlwaysShown(h, events) <==> NeverUnshown(h, events)
    decreases |events|
  {
    hide Step, Enabled, Wired, EndsGuest, ShownAt, Unshows, WatchedAt, Unwatches;
    if events != [] {
      var k := Step(h, events[0]);
      StepGuest(h, events[0], 0);
      forall id
        ensures ShownAt(k, id) <==> !Unshows(h, events[0], id)
      {
        assert ShownAt(h, id);
        StepGuest(h, events[0], id);
      }
      if Shown(k) {
        ShownRunIff(k, events[1..]);
      }
    }
  }

  ghost predicate AlwaysWatched(h: Host, events: seq<Event>)
    decreases |events|
  {
    Watched(h) && (events != [] ==> AlwaysWatched(Step(h, events[0]), events[1..]))
  }

  ghost predicate NeverUnwatched(h: Host, events: seq<Event>)
    decreases |events|
  {
    events != [] ==>
      && (forall id :: !Unwatches(h, events[0], id))
      && NeverUnwatched(Step(h, events[0]), events[1..])
  }

  // Every registered guest has a watcher through exactly the runs in which no start ends with an
  // error and its guest registered: a boot that is not verified is one way to get there.
  lemma {:induction false} WatchedRunIff(h: Host, events: seq<Event>)
    requires Watched(h) && Possible(h, events)
    ensures AlwaysWatched(h, events) <==> NeverUnwatched(h, events)
    decreases |events|
  {
    hide Step, Enabled, Wired, EndsGuest, ShownAt, Unshows, WatchedAt, Unwatches;
    if events != [] {
      var k := Step(h, events[0]);
      StepGuest(h, events[0], 0);
      forall id
        ensures WatchedAt(k, id) <==> !Unwatches(h, events[0], id)
      {
        assert WatchedAt(h, id);
        StepGuest(h, events[0], id);
      }
      if Watched(k) {
        WatchedRunIff(k, events[1..]);
      }
    }
  }

}

/** Over every run of the daemon: how long a hold protects an instance, what a watcher's late write does to it,
    and that every instance keeps its own adb port. */
module DaemonHolds {
  import opened Wrappers
  import opened Instances
  import opened DaemonPrune
  import opened DaemonRuns
  import opened DaemonSettled
  import opened DaemonGuests

  ghost predicate HeldAt(h: Host, id: Id) {
    id in h.disk && h.disk[id].held && h.disk[id].state != Destroyed
  }

  // The one request that ends a held instance: its own destroy, unless processes turn out to remain.
  ghost predicate Ends(h: Host, e: Event, id: Id) {
    e.Request? && e.call.Destroy? && e.call.id == id && !CleanupOf(h, id, e.call.destroy).GuestsRemain?
  }

  // A watcher writes its copy of the metadata, which may be an old one.
  ghost predicate Overwrites(h: Host, e: Event, id: Id) {
    e.ExitWritten? && e.g in h.watchers && h.watchers[e.g].Loaded? && h.watchers[e.g].id == id
  }

  // What any step does to the metadata of any instance.
  ghost predicate Follows(h: Host, k: Host, e: Event, id: Id) {
    && Wired(k) && k.config == h.config
    && (if Overwrites(h, e, id) then id in k.disk && k.disk[id] == h.watchers[e.g].copy
        else
          && Descends(h, k, id)
          && (HeldAt(h, id) && !Ends(h, e, id) ==> id in k.disk && k.disk[id].state != Destroyed)
          && (Ends(h, e, id) ==> id !in k.disk || k.disk[id].state == Destroyed))
  }

  lemma LocalFollows(h: Host, k: Host, e: Event, touched: Id, id: Id)
    requires Local(h, k, touched) && id != touched && !Ends(h, e, id) && e.Request?
    ensures Follows(h, k, e, id)
  {
    assert SameAt(h, k, id);
  }

  lemma UnchangedFollows(h: Host, e: Event, id: Id)
    requires Wired(h) && !Ends(h, e, id) && e.Request?
    ensures Follows(h, h, e, id)
  {
  }

  lemma StartFollows(h: Host, id: Id, options: StartOptions, env: StartEnv, e: Event, j: Id)
    requires Wired(h) && !Ends(h, e, j) && e.Request?
    ensures Follows(h, StartInstance(Bare(h), id, options, env).0.host, e, j)
  {
    hide StartInstance, Wired;
    StartSettles(h, id, options, env);
    var k := StartInstance(Bare(h), id, options, env).0.host;
    if StartRefused(h, id, options) {
      UnchangedFollows(h, e, j);
    } else if j != id {
      LocalFollows(h, k, e, id, j);
    }
  }

  lemma CreateStartFollows(h: Host, purpose: Option<string>, now: nat, options: StartOptions, env: StartEnv, j: Id)
    requires Wired(h)
    ensures Follows(h, CreateAndStart(Bare(h), purpose, now, options, env).0.host,
                    Request(CreateStart(purpose, now, options, env)), j)
  {
    hide CreateInstance, StartInstance, CreateAndStart, Wired, SameAt, Allocator.Allocate;
    var e := Request(CreateStart(purpose, now, options, env));
    CreateSettles(h, purpose, now);
    CreateStartSame(h, purpose, now, options, env);
    var (created, reply) := CreateInstance(Bare(h), purpose, now);
    if reply.Acted? {
      var id := reply.summary.id;
      StartFollows(created.host, id, options, env, e, j);
      StartSettles(created.host, id, options, env);
      var k := StartInstance(Bare(created.host), id, options, env).0.host;
      if j != id {
        if k != created.host {
          LocalTransitive(h, created.host, k, id);
        }
        LocalFollows(h, k, e, id, j);
      }
    } else {
      UnchangedFollows(h, e, j);
    }
  }

  lemma CreateFollows(h: Host, purpose: Option<string>, now: nat, j: Id)
    requires Wired(h)
    ensures Follows(h, CreateInstance(Bare(h), purpose, now).0.host, Request(Create(purpose, now)), j)
  {
    hide CreateInstance, Wired, Allocator.Allocate;
    var e := Request(Create(purpose, now));
    CreateSettles(h, purpose, now);
    var (created, reply) := CreateInstance(Bare(h), purpose, now);
    if !reply.Acted? {
      UnchangedFollows(h, e, j);
    } else if j != reply.summary.id {
      LocalFollows(h, created.host, e, reply.summary.id, j);
    }
  }

  lemma OneFollows(h: Host, e: Event, j: Id)
    requires Wired(h) && e.Request?
    requires e.call.Stop? || e.call.Hold? || e.call.Deploy? || e.call.WaitAdb? || e.call.Destroy?
    ensures Follows(h, Serve(h, e.call).0, e, j)
  {
    hide StopInstance, HoldInstance, DeployImages, WaitForAdbReply, DestroyInstance, Wired;
    var k := Serve(h, e.call).0;
    match e.call
    case Stop(id, env) =>
      StopSettles(h, id, env);
      if k == h { UnchangedFollows(h, e, j); } else if j != id { LocalFollows(h, k, e, id, j); }
    case Hold(id, now) =>
      HoldSettles(h, id, now);
      if k == h { UnchangedFollows(h, e, j); } else if j != id { LocalFollows(h, k, e, id, j); }
    case Deploy(id, boot, initBoot, now) =>
      DeploySettles(h, id, boot, initBoot, now);
      if k == h { UnchangedFollows(h, e, j); } else if j != id { LocalFollows(h, k, e, id, j); }
    case WaitAdb(id, env) =>
      WaitSettles(h, id, env);
      if k == h { UnchangedFollows(h, e, j); } else if j != id { LocalFollows(h, k, e, id, j); }
    case Destroy(id, env) =>
      DestroySettles(h, id, env);
      if j != id { LocalFollows(h, k, e, id, j); }
  }

  lemma PruneFollows(h: Host, targets: set<Id>, outcome: Id -> DestroyEnv, e: Event, j: Id)
    requires Wired(h) && targets <= h.disk.Keys && e.Request? && !Ends(h, e, j) && (HeldAt(h, j) ==> j !in targets)
    ensures Follows(h, PrunedHost(h, targets, outcome), e, j)
  {
    PruneFrame(h, targets, outcome, j);
    PrunedWatchers(h, targets, outcome);
  }

  lemma WatcherFollows(h: Host, e: Event, j: Id)
    requires Wired(h) && Enabled(h, e) && !e.Request?
    ensures Follows(h, Step(h, e), e, j)
  {
  }

  lemma StepFollows(h: Host, e: Event, j: Id)
    requires Wired(h) && Enabled(h, e)
    ensures Follows(h, Step(h, e), e, j)
  {
    hide CreateInstance, CreateAndStart, StartInstance, StopInstance, HoldInstance, DestroyInstance, DeployImages,
         WaitForAdbReply, Prune, List, Wired, PrunedHost, Follows;
    if !e.Request? {
      WatcherFollows(h, e, j);
    } else {
      match e.call
      case Create(purpose, now) => CreateFollows(h, purpose, now, j);
      case CreateStart(purpose, now, options, env) => CreateStartFollows(h, purpose, now, options, env, j);
      case Start(id, options, env) => StartFollows(h, id, options, env, e, j);
      case PruneExpired(maxAge, now, order, outcome) =>
        WiredHoused(h);
        PruneExpiredAccounts(h, maxAge, now, order, outcome);
        PruneFollows(h, Expired(h, maxAge, now), outcome, e, j);
      case PruneAll(order, outcome) =>
        WiredHoused(h);
        PruneAllAccounts(h, order, outcome);
        PruneFollows(h, Live(h) - HeldLive(h), outcome, e, j);
      case Status(_) => UnchangedFollows(h, e, j);
      case ListAll => UnchangedFollows(h, e, j);
      case _ => OneFollows(h, e, j);
    }
  }

  // The copies watchers are about to write that do not know of a hold of the instance.
  function StaleCopies(h: Host, id: Id): set<Generation> {
    set g | g in h.watchers && h.watchers[g].Loaded? && h.watchers[g].id == id && !h.watchers[g].copy.held
  }

  // A step keeps a held instance, held, unless it is its own destroy with no guest left behind, or
  // the write of a stale copy.
  lemma HoldKeptIff(h: Host, e: Event, id: Id)
    requires Wired(h) && Enabled(h, e) && HeldAt(h, id)
    ensures Wired(Step(h, e))
    ensures HeldAt(Step(h, e), id) <==> !Ends(h, e, id) && !(e.ExitWritten? && e.g in StaleCopies(h, id))
  {
    StepFollows(h, e, id);
    if Overwrites(h, e, id) {
      hide Step, Enabled;
    } else {
      hide Step, Enabled, Wired;
    }
  }

  // What any step does to the copies watchers are about to write: requests do nothing to them, a read
  // makes one of what is on disk, and a write uses up its own.
  lemma StepLoaded(h: Host, e: Event, g: Generation)
    requires Wired(h) && Enabled(h, e)
    ensures var k := Step(h, e);
            && (g in h.watchers && h.watchers[g].Loaded? && e != ExitWritten(g) ==>
                  g in k.watchers && k.watchers[g] == h.watchers[g])
            && (g in k.watchers && k.watchers[g].Loaded? ==>
                  || (g in h.watchers && k.watchers[g] == h.watchers[g])
                  || (e.ExitRead? && e.g == g && k.watchers[g].id in h.disk
                      && k.watchers[g].copy == h.disk[k.watchers[g].id].(
                           state := k.watchers[g].copy.state, updatedAt := k.watchers[g].copy.updatedAt)))
  {
    StepGuest(h, e, 0);
    if e.Request? {
      hide Step, Wired, EndsGuest, Unshows, Unwatches, ShownAt, WatchedAt;
    }
  }

  // As long as the hold stands no new stale copy comes up.
  lemma StaleKept(h: Host, e: Event, id: Id)
    requires Wired(h) && Enabled(h, e) && HeldAt(h, id) && !(e.ExitWritten? && e.g in StaleCopies(h, id))
    ensures StaleCopies(Step(h, e), id) == StaleCopies(h, id)
  {
    forall g
      ensures g in StaleCopies(Step(h, e), id) <==> g in StaleCopies(h, id)
    {
      StepLoaded(h, e, g);
      hide Step, Wired, Enabled;
    }
  }

  // What a hold is for: the instance stays held and is listed as it is.
  ghost predicate Protected(h: Host, id: Id) {
    var listing := Serve(h, ListAll).1;
    HeldAt(h, id) && listing.Listing? && id in listing.instances
    && listing.instances[id] == Summary(id, Some(h.disk[id].adbPort), h.disk[id].state)
  }

  lemma ProtectedIff(h: Host, id: Id)
    requires Wired(h) && id in h.disk && h.disk[id].held
    ensures Protected(h, id) <==> h.disk[id].state != Destroyed
    ensures id in Serve(h, ListAll).1.instances <==> h.disk[id].state != Destroyed
  {
    WiredHoused(h);
    hide Wired;
  }

  ghost predicate NeverDestroyed(h: Host, events: seq<Event>, id: Id)
    decreases |events|
  {
    events != [] ==> !Ends(h, events[0], id) && NeverDestroyed(Step(h, events[0]), events[1..], id)
  }

  ghost predicate AlwaysProtected(h: Host, events: seq<Event>, id: Id)
    decreases |events|
  {
    Protected(h, id) && (events != [] ==> AlwaysProtected(Step(h, events[0]), events[1..], id))
  }

  lemma {:induction false} UnnamedNeverDestroyed(h: Host, events: seq<Event>, id: Id)
    requires forall i :: 0 <= i < |events| && events[i].Request? && events[i].call.Destroy? ==> events[i].call.id != id
    ensures NeverDestroyed(h, events, id)
    decreases |events|
  {
    if events != [] {
      hide Step;
      assert forall i :: 0 <= i < |events[1..]| ==> events[1..][i] == events[i + 1];
      UnnamedNeverDestroyed(Step(h, events[0]), events[1..], id);
    }
  }

  ghost predicate NoneWritten(events: seq<Event>, stale: set<Generation>) {
    forall i :: 0 <= i < |events| ==> !(events[i].ExitWritten? && events[i].g in stale)
  }

  lemma NoneWrittenSplit(events: seq<Event>, stale: set<Generation>)
    requires events != []
    ensures NoneWritten(events, stale)
            <==> !(events[0].ExitWritten? && events[0].g in stale) && NoneWritten(events[1..], stale)
  {
    assert forall i :: 0 <= i < |events[1..]| ==> events[1..][i] == events[i + 1];
    if NoneWritten(events[1..], stale) {
      assert forall i :: 0 < i < |events| ==> events[i] == events[1..][i - 1];
    }
  }

  // Through starts, stops, deploys, waits, both prunes and guest exits a held instance stays on disk,
  // held and listed, in every run exactly as long as nobody destroys it and no watcher writes a copy
  // that is stale at the start.
  lemma {:induction false} HoldSafeIff(h: Host, events: seq<Event>, id: Id)
    requires Wired(h) && Possible(h, events) && HeldAt(h, id)
    ensures AlwaysProtected(h, events, id) <==> NeverDestroyed(h, events, id) && NoneWritten(events, StaleCopies(h, id))
    decreases |events|
  {
    hide Step, Enabled, Ends, Protected, Wired, StaleCopies, NoneWritten;
    ProtectedIff(h, id);
    if events == [] {
      assert NoneWritten(events, StaleCopies(h, id)) by { NoEvents(StaleCopies(h, id)); }
    } else {
      NoneWrittenSplit(events, StaleCopies(h, id));
      HoldKeptIff(h, events[0], id);
      if HeldAt(Step(h, events[0]), id) {
        StaleKept(h, events[0], id);
        HoldSafeIff(Step(h, events[0]), events[1..], id);
      } else {
        ProtectedHeld(Step(h, events[0]), events[1..], id);
      }
    }
  }

  lemma NoEvents(stale: set<Generation>)
    ensures NoneWritten([], stale)
  {
  }

  lemma ProtectedHeld(h: Host, events: seq<Event>, id: Id)
    ensures AlwaysProtected(h, events, id) ==> HeldAt(h, id)
  {
    hide HeldAt, Step;
  }

  // A hold that succeeds on an instance makes it held and listed unless it rests in Destroyed, where
  // a failed cleanup leaves it: there it is marked held and stays unlisted.
  lemma HoldHoldsIff(h: Host, id: Id, now: nat)
    requires Wired(h) && Serve(h, Hold(id, now)).1.Acted?
    ensures var k := Serve(h, Hold(id, now)).0;
            && Wired(k) && id in h.disk && id in k.disk && k.disk[id].held
            && (HeldAt(k, id) <==> h.disk[id].state != Destroyed)
            && (Protected(k, id) <==> h.disk[id].state != Destroyed)
  {
    HoldSettles(h, id, now);
    hide HoldInstance, Protected;
    ProtectedIff(Serve(h, Hold(id, now)).0, id);
  }

  lemma HoldKeepsCopies(h: Host, id: Id, now: nat)
    requires Wired(h)
    ensures StaleCopies(Serve(h, Hold(id, now)).0, id) == StaleCopies(h, id)
  {
    HoldSettles(h, id, now);
    hide HoldInstance, Wired, SameAt;
  }

  // After a successful hold, over every run: protected throughout if and only if the instance was not
  // resting in Destroyed, is not destroyed in the run, and no watcher writes what it read before the hold.
  lemma HoldProtectsIff(h: Host, id: Id, now: nat, events: seq<Event>)
    requires Wired(h) && Serve(h, Hold(id, now)).1.Acted?
    requires Possible(Serve(h, Hold(id, now)).0, events)
    ensures id in h.disk
    ensures var k := Serve(h, Hold(id, now)).0;
            AlwaysProtected(k, events, id)
            <==> h.disk[id].state != Destroyed && NeverDestroyed(k, events, id) && NoneWritten(events, StaleCopies(h, id))
  {
    var k := Serve(h, Hold(id, now)).0;
    HoldHoldsIff(h, id, now);
    HoldKeepsCopies(h, id, now);
    hide Serve, Protected, Wired, Step, Ends, Enabled, StaleCopies, NoneWritten;
    if HeldAt(k, id) {
      HoldSafeIff(k, events, id);
    } else {
      ProtectedHeld(k, events, id);
    }
  }

  // With no watcher of the instance between its read and its write at the time of the hold, only a
  // destroy ends the protection.
  lemma QuietHoldProtectsIff(h: Host, id: Id, now: nat, events: seq<Event>)
    requires Wired(h) && Serve(h, Hold(id, now)).1.Acted?
    requires Possible(Serve(h, Hold(id, now)).0, events)
    requires forall g :: g in h.watchers && h.watchers[g].id == id ==> !h.watchers[g].Loaded?
    ensures id in h.disk
    ensures var k := Serve(h, Hold(id, now)).0;
            AlwaysProtected(k, events, id) <==> h.disk[id].state != Destroyed && NeverDestroyed(k, events, id)
  {
    HoldProtectsIff(h, id, now, events);
    assert StaleCopies(h, id) == {};
    hide Serve, Wired, AlwaysProtected, NeverDestroyed, StaleCopies;
  }

  /* ---------- a write that comes late ---------- */

  lemma {:induction false} LoadedStays(h: Host, events: seq<Event>, g: Generation)
    requires Wired(h) && Possible(h, events) && ExitWritten(g) !in events
    requires g in h.watchers && h.watchers[g].Loaded?
    ensures Wired(After(h, events)) && g in After(h, events).watchers && After(h, events).watchers[g] == h.watchers[g]
    decreases |events|
  {
    hide Step, Enabled, Wired;
    if events != [] {
      StepLoaded(h, events[0], g);
      StepFollows(h, events[0], 0);
      LoadedStays(Step(h, events[0]), events[1..], g);
    }
  }

  // Whatever happens between a watcher's read and its write, the metadata it leaves is the one it
  // read, with the guest's end in it: metadata destroyed meanwhile comes back, and purpose, images,
  // port, hold and creation time of an instance made anew or changed meanwhile are those of the read.
  // It is what a read and write in one step would leave if and only if nothing but state and time of
  // update had changed.
  lemma LateWriteIff(h: Host, g: Generation, now: nat, events: seq<Event>)
    requires Wired(h) && g in h.watchers && h.watchers[g].Reported? && h.watchers[g].id in h.disk
    requires Possible(Step(h, ExitRead(g, now)), events) && ExitWritten(g) !in events
    ensures var id := h.watchers[g].id;
            var exit := h.watchers[g].exit;
            var state := if exit.code == Some(0) && exit.signal == None then Stopped else Failed;
            var b := After(Step(h, ExitRead(g, now)), events);
            var k := Step(b, ExitWritten(g));
            && Enabled(b, ExitWritten(g))
            && id in k.disk && id in k.dirs && k.disk[id] == InState(h.disk[id], state, now)
            && ((id in b.disk && k.disk[id] == InState(b.disk[id], state, now))
                <==> (id in b.disk
                      && b.disk[id] == h.disk[id].(state := b.disk[id].state, updatedAt := b.disk[id].updatedAt)))
  {
    var a := Step(h, ExitRead(g, now));
    assert Wired(a) && g in a.watchers && a.watchers[g] == Loaded(h.watchers[g].id, InState(h.disk[h.watchers[g].id], ExitState(h.watchers[g].exit), now));
    LoadedStays(a, events, g);
    hide Wired, Possible, After;
  }

  /* ---------- over every run ---------- */

  lemma {:induction false} WiredRun(h: Host, events: seq<Event>)
    requires Wired(h) && Possible(h, events)
    ensures Wired(After(h, events))
    decreases |events|
  {
    hide Step, Enabled, Wired;
    if events != [] {
      StepFollows(h, events[0], 0);
      WiredRun(Step(h, events[0]), events[1..]);
    }
  }

  /* ---------- ports ---------- */

  // On disk and in the copies watchers are about to write.
  ghost predicate OwnPorts(h: Host) {
    && (forall id :: id in h.disk ==> h.disk[id].adbPort == Port(h.config, id))
    && (forall g :: g in h.watchers && h.watchers[g].Loaded? ==>
          h.watchers[g].copy.adbPort == Port(h.config, h.watchers[g].id))
  }

  lemma {:induction false} OwnPortsKept(h: Host, events: seq<Event>)
    requires Wired(h) && Possible(h, events) && OwnPorts(h)
    ensures OwnPorts(After(h, events)) && After(h, events).config == h.config
    decreases |events|
  {
    hide Step, Enabled, Wired;
    if events != [] {
      var k := Step(h, events[0]);
      StepFollows(h, events[0], 0);
      forall id | id in k.disk
        ensures k.disk[id].adbPort == Port(k.config, id)
      {
        StepFollows(h, events[0], id);
      }
      forall g | g in k.watchers && k.watchers[g].Loaded?
        ensures k.watchers[g].copy.adbPort == Port(k.config, k.watchers[g].id)
      {
        StepLoaded(h, events[0], g);
      }
      OwnPortsKept(k, events[1..]);
    }
  }

  // Sixteen-bit ports: two ids share one exactly when they agree modulo 2^16.
  lemma PortsCollideIff(c: Config, i: Id, j: Id)
    ensures Port(c, i) == Port(c, j) <==> i % 0x1_0000 == j % 0x1_0000
  {
    var a, b := i % 0x1_0000, j % 0x1_0000;
    var x, y := c.baseAdbPort + a - 1, c.baseAdbPort + b - 1;
    assert x == 0x1_0000 * (x / 0x1_0000) + x % 0x1_0000;
    assert y == 0x1_0000 * (y / 0x1_0000) + y % 0x1_0000;
    assert x - y == a - b;
  }

  lemma SlotPortsDiffer(c: Config, i: Id, j: Id)
    requires Allocator.Slot(i) && Allocator.Slot(j) && i != j
    ensures Port(c, i) != Port(c, j)
  {
    PortsCollideIff(c, i, j);
    hide Port;
  }

  lemma OwnPortAt(h: Host, id: Id)
    requires OwnPorts(h) && id in h.disk
    ensures h.disk[id].adbPort == Port(h.config, id)
  {
    hide Port;
  }

  // So over any run the instances in slots have ports of their own, and no sum leaves sixteen bits
  // for any slot exactly when the base is at most 65436.
  lemma SlotPortsDistinct(h: Host, events: seq<Event>, i: Id, j: Id)
    requires Wired(h) && Possible(h, events) && OwnPorts(h)
    requires i in After(h, events).disk && j in After(h, events).disk && i != j
    requires Allocator.Slot(i) && Allocator.Slot(j)
    ensures After(h, events).disk[i].adbPort != After(h, events).disk[j].adbPort
  {
    OwnPortsKept(h, events);
    var k := After(h, events);
    hide Possible, After, Wired;
    OwnPortAt(k, i);
    OwnPortAt(k, j);
    SlotPortsDiffer(h.config, i, j);
    hide OwnPorts, Port, Allocator.Slot;
  }

  lemma PortsInRangeIff(c: Config)
    ensures (forall id :: Allocator.Slot(id) ==> c.baseAdbPort + id < 0x1_0000) <==> c.baseAdbPort <= 65436
  {
    if c.baseAdbPort > 65436 {
      assert Allocator.Slot(99);
    }
  }

  // Outside the slots it is not so: destroying the unknown instance 65537 while a process matching
  // it survives records a Failed instance with the port of slot 1.
  lemma StrayDestroyTakesPort(c: Config, now: nat)
    ensures var empty := NewHost(c);
            var k := Serve(empty, Destroy(65537, DestroyEnv(true, GuestsRemain, now, now))).0;
            Settled(empty) && Settled(k) && 65537 in k.disk && k.disk[65537].state == Failed
            && k.disk[65537].adbPort == Port(c, 1)
  {
    var empty := NewHost(c);
    var env := DestroyEnv(true, GuestsRemain, now, now);
    DestroySettledIff(empty, 65537, env);
    DestroySettles(empty, 65537, env);
    PortsCollideIff(c, 65537, 1);
    hide DestroyInstance, Port;
  }
}

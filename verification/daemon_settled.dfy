/** Over every run of the daemon: when instances are settled between steps, and what leaves one half-way. */
module DaemonSettled {
  import opened Wrappers
  import GH = GuestHandle
  import opened Instances
  import opened DaemonCache
  import opened DaemonPrune
  import opened DaemonRuns

  /* ---------- between requests ---------- */

  // A watcher that is past the registry and has yet to write the final state.
  predicate HasExit(w: Watcher) {
    w.Reported? || w.Loaded?
  }

  ghost predicate Pending(h: Host, id: Id) {
    exists g :: g in h.watchers && HasExit(h.watchers[g]) && h.watchers[g].id == id
  }

  ghost predicate Rests(h: Host, id: Id) {
    id in h.disk ==>
      && h.disk[id].state != Starting && h.disk[id].state != Destroyed
      && (h.disk[id].state == Running ==> id in h.registry || Pending(h, id))
  }

  // Running means a registered guest or an exit about to be written, and nobody is left half-way.
  ghost predicate Settled(h: Host) {
    Wired(h) && forall id :: Rests(h, id)
  }

  // A start that neither ends nor fails: its preparation fails, or the poll of its guest does.
  predicate HangsStarting(options: StartOptions, env: StartEnv) {
    !env.prepared || (env.spawned && !options.skipAdbWait && env.adb.PollFailed?)
  }

  // A destroy or prune that goes no further than the mark: the guest's end cannot be seen, or the
  // files cannot be removed.
  ghost predicate LeftMarked(h: Host, id: Id, env: DestroyEnv) {
    id in h.disk && CleanupOf(h, id, env).FilesKept?
  }

  // A watcher whose wait failed, which takes the handle of a Running instance and writes nothing.
  ghost predicate Abandons(h: Host, g: Generation) {
    && g in h.watchers && h.watchers[g].Matched? && h.watchers[g].outcome.None?
    && var id := h.watchers[g].id;
       id in h.disk && h.disk[id].state == Running && id in h.registry && !Pending(h, id)
  }

  // The steps that leave an instance half-way.
  ghost predicate Unsettles(h: Host, e: Event) {
    match e
    case Request(Start(id, options, env)) => !StartRefused(h, id, options) && HangsStarting(options, env)
    case Request(CreateStart(_, _, options, env)) =>
      var slot := Allocator.Allocate(h.dirs, h.cursor);
      slot.Some? && !(options.skipAdbWait && options.verifyBoot) && slot.value !in h.registry && HangsStarting(options, env)
    case Request(Destroy(id, env)) => LeftMarked(h, id, env)
    case Request(PruneExpired(maxAge, now, _, outcome)) =>
      exists id :: id in Expired(h, maxAge, now) && LeftMarked(h, id, outcome(id))
    case Request(PruneAll(_, outcome)) => exists id :: id in Live(h) - HeldLive(h) && LeftMarked(h, id, outcome(id))
    case HandleRemoved(g) => Abandons(h, g)
    case _ => false
  }

  lemma LocalRests(h: Host, k: Host, id: Id)
    requires Settled(h) && Local(h, k, id)
    ensures Settled(k) <==> Rests(k, id)
  {
    hide Wired;
    if Rests(k, id) {
      forall j
        ensures Rests(k, j)
      {
        if j != id {
          assert SameAt(h, k, j) && Rests(h, j);
          if Pending(h, j) {
            var g :| g in h.watchers && HasExit(h.watchers[g]) && h.watchers[g].id == j;
            assert g in k.watchers && k.watchers[g] == h.watchers[g];
          }
        }
      }
    }
  }

  // A touch that keeps the state and the registry keeps the instance at rest.
  lemma SameStateRests(h: Host, k: Host, id: Id)
    requires Settled(h) && Local(h, k, id) && id in h.disk && id in k.disk
    requires k.registry == h.registry && k.disk[id].state == h.disk[id].state
    ensures Settled(k)
  {
    hide Wired, SameAt;
    assert Rests(h, id);
    if Pending(h, id) {
      var g :| g in h.watchers && HasExit(h.watchers[g]) && h.watchers[g].id == id;
      assert g in k.watchers && k.watchers[g] == h.watchers[g];
    }
    hide Pending;
    LocalRests(h, k, id);
  }

  lemma CreateStartSame(h: Host, purpose: Option<string>, now: nat, options: StartOptions, env: StartEnv)
    ensures var (created, reply) := CreateInstance(Bare(h), purpose, now);
            CreateAndStart(Bare(h), purpose, now, options, env).0.host
            == if reply.Acted? then StartInstance(Bare(created.host), reply.summary.id, options, env).0.host else created.host
  {
    var (created, reply) := CreateInstance(Bare(h), purpose, now);
    assert Alike(Bare(h), Bare(h));
    CreateSame(Bare(h), Bare(h), purpose, now);
    hide CreateInstance, StartInstance;
    if reply.Acted? {
      assert Alike(created, Bare(created.host));
      StartSame(created, Bare(created.host), reply.summary.id, options, env);
    }
  }

  lemma CreateSettled(h: Host, purpose: Option<string>, now: nat)
    requires Settled(h)
    ensures Settled(CreateInstance(Bare(h), purpose, now).0.host)
  {
    hide CreateInstance, Local, Wired;
    CreateSettles(h, purpose, now);
    if CreateInstance(Bare(h), purpose, now).1.Acted? {
      LocalRests(h, CreateInstance(Bare(h), purpose, now).0.host, CreateInstance(Bare(h), purpose, now).1.summary.id);
    }
  }

  lemma StartSettledIff(h: Host, id: Id, options: StartOptions, env: StartEnv)
    requires Settled(h)
    ensures Settled(StartInstance(Bare(h), id, options, env).0.host)
            <==> StartRefused(h, id, options) || !HangsStarting(options, env)
  {
    hide StartInstance, Local, Wired, StartRefused, Pending;
    StartSettles(h, id, options, env);
    if !StartRefused(h, id, options) {
      LocalRests(h, StartInstance(Bare(h), id, options, env).0.host, id);
    }
  }

  lemma CreateStartSettledIff(h: Host, purpose: Option<string>, now: nat, options: StartOptions, env: StartEnv)
    requires Settled(h)
    ensures Settled(CreateAndStart(Bare(h), purpose, now, options, env).0.host)
            <==> !Unsettles(h, Request(CreateStart(purpose, now, options, env)))
  {
    hide CreateInstance, StartInstance, CreateAndStart, Settled, Allocator.Allocate;
    CreateStartSame(h, purpose, now, options, env);
    SettledWired(h);
    CreateSettles(h, purpose, now);
    CreateSettled(h, purpose, now);
    var (created, reply) := CreateInstance(Bare(h), purpose, now);
    if reply.Acted? {
      StartSettledIff(created.host, reply.summary.id, options, env);
    }
  }

  lemma SettledWired(h: Host)
    requires Settled(h)
    ensures Wired(h)
  {
  }

  lemma PruneSettledIff(h: Host, targets: set<Id>, outcome: Id -> DestroyEnv)
    requires Settled(h) && targets <= h.disk.Keys
    ensures Settled(PrunedHost(h, targets, outcome)) <==> !exists id :: id in targets && LeftMarked(h, id, outcome(id))
  {
    hide PrunedHost, Housed;
    var k := PrunedHost(h, targets, outcome);
    SettledWired(h);
    PrunedWatchers(h, targets, outcome);
    forall id
      ensures Rests(k, id) <==> !(id in targets && LeftMarked(h, id, outcome(id)))
    {
      assert Housed(h) by { WiredHoused(h); }
      PruneFrame(h, targets, outcome, id);
      assert Rests(h, id);
      assert Pending(h, id) <==> Pending(k, id);
    }
  }

  lemma WiredHoused(h: Host)
    requires Wired(h)
    ensures Housed(h)
  {
  }

  lemma PrunedWatchers(h: Host, targets: set<Id>, outcome: Id -> DestroyEnv)
    requires Wired(h)
    ensures var k := PrunedHost(h, targets, outcome);
            k.watchers == h.watchers && k.nextGeneration == h.nextGeneration && k.config == h.config && Wired(k)
  {
    HousedPruned(h, targets, outcome);
    hide Housed;
  }

  lemma SamePending(h: Host, k: Host, j: Id)
    requires Pending(h, j)
    requires forall g :: g in h.watchers && HasExit(h.watchers[g]) && h.watchers[g].id == j ==>
               g in k.watchers && HasExit(k.watchers[g]) && k.watchers[g].id == j
    ensures Pending(k, j)
  {
    var g :| g in h.watchers && HasExit(h.watchers[g]) && h.watchers[g].id == j;
    assert g in k.watchers && HasExit(k.watchers[g]) && k.watchers[g].id == j;
  }

  lemma WaitedSettled(h: Host, g: Generation, outcome: Option<GH.ExitStatus>)
    requires Settled(h) && Enabled(h, Waited(g, outcome))
    ensures Settled(Step(h, Waited(g, outcome)))
  {
    var k := Step(h, Waited(g, outcome));
    assert Wired(k);
    forall j
      ensures Rests(k, j)
    {
      assert Rests(h, j);
      if Pending(h, j) {
        SamePending(h, k, j);
      }
    }
  }

  lemma ReadSettled(h: Host, g: Generation, now: nat)
    requires Settled(h) && Enabled(h, ExitRead(g, now))
    ensures Settled(Step(h, ExitRead(g, now)))
  {
    var k := Step(h, ExitRead(g, now));
    assert Wired(k);
    forall j
      ensures Rests(k, j)
    {
      assert Rests(h, j);
      if Pending(h, j) && (j != h.watchers[g].id || j in h.disk) {
        SamePending(h, k, j);
      }
    }
  }

  lemma WrittenSettled(h: Host, g: Generation)
    requires Settled(h) && Enabled(h, ExitWritten(g))
    ensures Settled(Step(h, ExitWritten(g)))
  {
    var k := Step(h, ExitWritten(g));
    assert Wired(k);
    forall j
      ensures Rests(k, j)
    {
      assert Rests(h, j);
      if Pending(h, j) && j != h.watchers[g].id {
        SamePending(h, k, j);
      }
    }
  }

  lemma RemovedSettledIff(h: Host, g: Generation)
    requires Settled(h) && Enabled(h, HandleRemoved(g))
    ensures Settled(Step(h, HandleRemoved(g))) <==> !Abandons(h, g)
  {
    var k := Step(h, HandleRemoved(g));
    var id := h.watchers[g].id;
    assert Wired(k);
    forall j
      ensures Rests(k, j) <==> !(j == id && Abandons(h, g))
    {
      assert Rests(h, j);
      if Pending(h, j) {
        SamePending(h, k, j);
      }
      if h.watchers[g].outcome.Some? {
        assert g in k.watchers && k.watchers[g] == Reported(id, h.watchers[g].outcome.value);
      } else if Pending(k, j) {
        SamePending(k, h, j);
      }
    }
    assert Rests(k, id) <==> !Abandons(h, g);
    hide Step, Rests, Abandons;
  }

  // A step keeps a settled host settled unless it is one of those that leave an instance half-way,
  // and each of those does.
  lemma SettledKeptIff(h: Host, e: Event)
    requires Settled(h) && Enabled(h, e)
    ensures Settled(Step(h, e)) <==> !Unsettles(h, e)
  {
    SettledWired(h);
    hide CreateInstance, CreateAndStart, StartInstance, StopInstance, HoldInstance, DestroyInstance, DeployImages,
         WaitForAdbReply, Prune, List, Settled, Wired, Local, Expired, Live, HeldLive, PrunedHost, Allocator.Allocate;
    if !e.Request? {
      hide Enabled, Step, Abandons;
      match e
      case Waited(g, outcome) => WaitedSettled(h, g, outcome);
      case HandleRemoved(g) => RemovedSettledIff(h, g);
      case ExitRead(g, now) => ReadSettled(h, g, now);
      case ExitWritten(g) => WrittenSettled(h, g);
    } else {
      hide LeftMarked, HangsStarting;
      match e.call
      case Create(purpose, now) => CreateSettled(h, purpose, now);
      case CreateStart(purpose, now, options, env) => CreateStartSettledIff(h, purpose, now, options, env);
      case Start(id, options, env) => StartSettledIff(h, id, options, env);
      case Stop(id, env) => StopSettled(h, id, env);
      case Hold(id, now) => HoldSettled(h, id, now);
      case Destroy(id, env) => DestroySettledIff(h, id, env);
      case Deploy(id, boot, initBoot, now) => DeploySettled(h, id, boot, initBoot, now);
      case WaitAdb(id, env) => WaitSettled(h, id, env);
      case PruneExpired(maxAge, now, order, outcome) =>
        PruneExpiredAccounts(h, maxAge, now, order, outcome);
        ExpiredOnDisk(h, maxAge, now);
        PruneSettledIff(h, Expired(h, maxAge, now), outcome);
      case PruneAll(order, outcome) =>
        PruneAllAccounts(h, order, outcome);
        ExpiredOnDisk(h, 0, 0);
        PruneSettledIff(h, Live(h) - HeldLive(h), outcome);
      case Status(id) =>
      case ListAll =>
    }
  }

  lemma ExpiredOnDisk(h: Host, maxAge: nat, now: nat)
    ensures Expired(h, maxAge, now) <= h.disk.Keys && Live(h) <= h.disk.Keys
  {
  }

  lemma StopSettled(h: Host, id: Id, env: StopEnv)
    requires Settled(h)
    ensures Settled(StopInstance(Bare(h), id, env).0.host)
  {
    hide StopInstance, Local, Wired, Pending;
    StopSettles(h, id, env);
    if id in h.disk && !TerminationFails(h, id, env.ended) {
      LocalRests(h, StopInstance(Bare(h), id, env).0.host, id);
    }
  }

  lemma HoldSettled(h: Host, id: Id, now: nat)
    requires Settled(h)
    ensures Settled(HoldInstance(Bare(h), id, now).0.host)
  {
    SettledWired(h);
    hide HoldInstance, Local, Settled;
    HoldSettles(h, id, now);
    if id in h.disk {
      SameStateRests(h, HoldInstance(Bare(h), id, now).0.host, id);
    }
  }

  lemma DeploySettled(h: Host, id: Id, boot: Option<Copy>, initBoot: Option<Copy>, now: nat)
    requires Settled(h)
    ensures Settled(DeployImages(Bare(h), id, boot, initBoot, now).0.host)
  {
    SettledWired(h);
    hide DeployImages, Local, Settled;
    DeploySettles(h, id, boot, initBoot, now);
    if id in h.disk {
      SameStateRests(h, DeployImages(Bare(h), id, boot, initBoot, now).0.host, id);
    }
  }

  lemma DestroySettledIff(h: Host, id: Id, env: DestroyEnv)
    requires Settled(h)
    ensures Settled(DestroyInstance(Bare(h), id, env).0.host) <==> !LeftMarked(h, id, env)
  {
    hide DestroyInstance, Local, Wired, Pending;
    DestroySettles(h, id, env);
    LocalRests(h, DestroyInstance(Bare(h), id, env).0.host, id);
  }

  lemma WaitSettled(h: Host, id: Id, env: WaitEnv)
    requires Settled(h)
    ensures Settled(WaitForAdbReply(Bare(h), id, env).0.host)
  {
    hide WaitForAdbReply, Local, Wired, Pending;
    WaitSettles(h, id, env);
    if id in h.disk && !(id in h.registry && env.adb.PollFailed?) {
      LocalRests(h, WaitForAdbReply(Bare(h), id, env).0.host, id);
    }
  }

  ghost predicate AlwaysSettled(h: Host, events: seq<Event>)
    decreases |events|
  {
    Settled(h) && (events != [] ==> AlwaysSettled(Step(h, events[0]), events[1..]))
  }

  ghost predicate NeverUnsettled(h: Host, events: seq<Event>)
    decreases |events|
  {
    events != [] ==> !Unsettles(h, events[0]) && NeverUnsettled(Step(h, events[0]), events[1..])
  }

  // In every run of requests and watcher steps from a settled host, every state in between is
  // settled if and only if no step was one that leaves an instance half-way.
  lemma {:induction false} SettledRunIff(h: Host, events: seq<Event>)
    requires Settled(h) && Possible(h, events)
    ensures AlwaysSettled(h, events) <==> NeverUnsettled(h, events)
    decreases |events|
  {
    hide Step, Settled, Enabled, Unsettles;
    if events != [] {
      SettledKeptIff(h, events[0]);
      if Settled(Step(h, events[0])) {
        SettledRunIff(Step(h, events[0]), events[1..]);
      }
    }
  }
}

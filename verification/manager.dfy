/** InstanceManager with its fields and effects; each method is held to the function of the same request. */
module Manager {
  import opened Wrappers
  import GuestHandle
  import BootPoll
  import I = Instances
  import Allocator

  // The files and the registry all managers of one daemon share.
  class Store {
    const config: I.Config
    var disk: map<I.Id, I.Metadata>
    var dirs: set<I.Id>
    var artifacts: map<I.Id, I.Artifacts>
    var cursor: Option<nat>
    var registry: map<I.Id, I.Generation>
    var nextGeneration: I.Generation
    var watchers: map<I.Generation, I.Watcher>

    ghost function View(): I.Host
      reads this
    {
      I.Host(config, disk, dirs, artifacts, cursor, registry, nextGeneration, watchers)
    }

    constructor (config: I.Config)
      ensures View() == I.Host(config, map[], {}, map[], None, map[], 0, map[])
    {
      this.config := config;
      disk, dirs, artifacts, cursor, registry, nextGeneration, watchers := map[], {}, map[], None, map[], 0, map[];
    }

    method Insert(id: I.Id) returns (g: I.Generation)
      modifies this
      ensures View() == I.Register(old(View()), id) && g == old(nextGeneration)
    {
      g := nextGeneration;
      registry := registry[id := g];
      nextGeneration := nextGeneration + 1;
    }

    method RemoveIfHandle(id: I.Id, g: I.Generation)
      modifies this
      ensures View() == I.RemoveIfHandle(old(View()), id, g)
      ensures registry == if id in old(registry) && old(registry[id]) == g then old(registry) - {id} else old(registry)
    {
      if id in registry {
        if registry[id] == g {
          registry := registry - {id};
        }
      }
    }
  }

  // What the two polls of a start make of its reply: it is acted on exactly when the deciding adb
  // round answers and, if asked for, the deciding boot round confirms.
  ghost predicate Polled(p: BootPoll.Polls, secs: nat, verifyBoot: bool, env: I.StartEnv, rounds: nat, bootRounds: nat,
                         reply: I.Reply)
  {
    && BootPoll.AdbEnds(p, secs, env.adb, rounds)
    && (verifyBoot && env.adb.AdbReady? ==> BootPoll.BootEnds(p, secs, env.booted, bootRounds))
    && (reply.Acted? <==>
          && BootPoll.Verdict(p.adb(rounds - 1)).AdbReady?
          && (verifyBoot ==> bootRounds > 0 && BootPoll.Confirms(p.boot(bootRounds - 1))))
  }

  lemma PolledSo(p: BootPoll.Polls, secs: nat, verifyBoot: bool, env: I.StartEnv, rounds: nat, bootRounds: nat,
                 reply: I.Reply)
    requires BootPoll.AdbPollEnds(BootPoll.SecsRemaining(p.begun + 1000 * secs, p.adbAsked), p.adbStart, p.adb, p.adbClock,
                                  env.adb, rounds)
    requires verifyBoot && env.adb.AdbReady? ==>
               BootPoll.BootPollEnds(Some(BootPoll.SecsRemaining(p.begun + 1000 * secs, p.bootAsked)), p.bootStart, p.boot,
                                     p.bootClock, env.booted, bootRounds)
    requires reply.Acted? <==> env.adb.AdbReady? && (verifyBoot ==> env.booted)
    ensures Polled(p, secs, verifyBoot, env, rounds, bootRounds, reply)
  {
  }

  class InstanceManager {
    const store: Store
    var metadataCache: map<I.Id, I.Metadata>

    ghost function View(): I.World
      reads this, store
    {
      I.World(store.View(), metadataCache)
    }

    constructor (store: Store)
      ensures this.store == store && metadataCache == map[]
    {
      this.store := store;
      metadataCache := map[];
    }

    method Metadata(id: I.Id) returns (m: Option<I.Metadata>)
      ensures m == I.Lookup(View(), id)
    {
      if id in metadataCache {
        return Some(metadataCache[id]);
      }
      if id in store.disk {
        return Some(store.disk[id]);
      }
      m := None;
    }

    method WriteMetadata(id: I.Id, m: I.Metadata)
      modifies store
      ensures store.View() == I.Write(old(store.View()), id, m)
    {
      store.dirs := store.dirs + {id};
      store.disk := store.disk[id := m];
    }

    method Save(id: I.Id, m: I.Metadata)
      modifies this, store
      ensures View() == I.Save(old(View()), id, m) && I.Lookup(View(), id) == Some(m)
      ensures store.registry == old(store.registry)
    {
      WriteMetadata(id, m);
      metadataCache := metadataCache[id := m];
    }

    // `ended`: neither a signal nor a poll of the guest fails.
    method TerminateGuest(id: I.Id, ended: bool) returns (done: bool)
      modifies store
      ensures store.View() == I.TerminateGuest(old(store.View()), id, ended)
      ensures done <==> !I.TerminationFails(old(store.View()), id, ended)
    {
      if id in store.registry {
        var handle := store.registry[id];
        if !ended {
          return false;
        }
        store.RemoveIfHandle(id, handle);
      }
      done := true;
    }

    method CreateInstance(purpose: Option<string>, now: nat) returns (reply: I.Reply)
      modifies this, store
      ensures (View(), reply) == I.CreateInstance(old(View()), purpose, now)
    {
      var id, cursor := Allocator.AllocateId(store.dirs, store.cursor);
      if id.None? {
        return I.Refused(I.NoSlot);
      }
      store.cursor := cursor;
      var m := I.Fresh(store.config, id.value, purpose, I.Created, now);
      Save(id.value, m);
      reply := I.Acted(I.Summarise(id.value, m));
    }

    // `round` and `clock` answer the poll, whose deadline is set at `start`; `rounds` counts it.
    method WaitForAdb(id: I.Id, timeoutSecs: Option<nat>, start: nat, round: nat -> BootPoll.AdbRound, clock: nat -> nat,
                      ended: bool, now: nat)
      returns (reply: I.Reply, verdict: BootPoll.AdbVerdict, rounds: nat)
      requires GuestHandle.Advances(clock, 1000) && start <= clock(0)
      modifies this, store
      ensures (View(), reply) == I.WaitForAdbReply(old(View()), id, I.WaitEnv(verdict, ended, now))
      ensures I.Lookup(old(View()), id).Some? && id in old(store.registry) ==>
                BootPoll.AdbPollEnds(if timeoutSecs.Some? then timeoutSecs.value else store.config.adbWaitTimeout,
                                     start, round, clock, verdict, rounds)
                && (reply.Acted? <==> verdict.AdbReady?)
    {
      verdict, rounds := BootPoll.AdbTimeout, 0;
      var found := Metadata(id);
      if found.None? {
        return I.Refused(I.NoMetadata), verdict, 0;
      }
      var m := found.value;
      if id !in store.registry {
        Save(id, I.InState(m, I.Failed, now));
        return I.Refused(I.HandleLost), verdict, 0;
      }
      var handle := store.registry[id];
      var timeout := if timeoutSecs.Some? then timeoutSecs.value else store.config.adbWaitTimeout;
      verdict, rounds := BootPoll.WaitForAdb(timeout, start, round, clock);
      match verdict
      case PollFailed =>
        reply := I.Refused(I.GuestUnreachable);
      case GuestExited =>
        store.RemoveIfHandle(id, handle);
        Save(id, I.InState(m, I.Failed, now));
        reply := I.Refused(I.ExitedEarly);
      case AdbTimeout =>
        var _ := TerminateGuest(id, ended);
        Save(id, I.InState(m, I.Failed, now));
        reply := I.Refused(I.AdbTimedOut);
      case AdbReady =>
        m := m.(state := I.Running, updatedAt := now);
        Save(id, m);
        reply := I.Acted(I.Summarise(id, m));
    }

    method SpawnExitWatcher(id: I.Id, g: I.Generation)
      modifies store
      ensures store.View() == I.SpawnWatcher(old(store.View()), id, g)
    {
      store.watchers := store.watchers[g := I.Blocked(id)];
    }

    // The thread of a watcher, up to each point where others may act.
    method WaitReturns(g: I.Generation, outcome: Option<GuestHandle.ExitStatus>)
      modifies store
      ensures store.View() == I.WaitReturns(old(store.View()), g, outcome)
    {
      if g !in store.watchers || !store.watchers[g].Blocked? {
        return;
      }
      var id := store.watchers[g].id;
      if id in store.registry && store.registry[id] == g {
        store.watchers := store.watchers[g := I.Matched(id, outcome)];
      } else if outcome.Some? {
        store.watchers := store.watchers[g := I.Reported(id, outcome.value)];
      } else {
        store.watchers := store.watchers - {g};
      }
    }

    method RemoveMatched(g: I.Generation)
      modifies store
      ensures store.View() == I.RemoveMatched(old(store.View()), g)
    {
      if g !in store.watchers || !store.watchers[g].Matched? {
        return;
      }
      var id, outcome := store.watchers[g].id, store.watchers[g].outcome;
      store.registry := store.registry - {id};
      if outcome.Some? {
        store.watchers := store.watchers[g := I.Reported(id, outcome.value)];
      } else {
        store.watchers := store.watchers - {g};
      }
    }

    // handle_guest_exit up to its write, on a manager of its own, which reads the file because its
    // cache is empty.
    method ReadExit(g: I.Generation, now: nat)
      requires metadataCache == map[]
      modifies store
      ensures store.View() == I.ReadExit(old(store.View()), g, now)
    {
      if g !in store.watchers || !store.watchers[g].Reported? {
        return;
      }
      var id, exit := store.watchers[g].id, store.watchers[g].exit;
      var found := Metadata(id);
      if found.None? {
        store.watchers := store.watchers - {g};
        return;
      }
      var m := found.value;
      m := m.(state := if GuestHandle.ExitedCleanly(exit) then I.Stopped else I.Failed, updatedAt := now);
      store.watchers := store.watchers[g := I.Loaded(id, m)];
    }

    // Its write, whatever has been written since.
    method WriteExit(g: I.Generation)
      modifies this, store
      ensures store.View() == I.WriteExit(old(store.View()), g)
    {
      if g !in store.watchers || !store.watchers[g].Loaded? {
        return;
      }
      var id, m := store.watchers[g].id, store.watchers[g].copy;
      Save(id, m);
      store.watchers := store.watchers - {g};
    }

    method SkipAdbWait(id: I.Id, options: I.StartOptions, g: I.Generation, env: I.StartEnv) returns (reply: I.Reply)
      requires options.skipAdbWait
      modifies this, store
      ensures (View(), reply) == I.AwaitGuest(old(View()), id, options, env, g)
    {
      var found := Metadata(id);
      if found.None? {
        return I.Refused(I.NoMetadata);
      }
      var m := found.value.(state := I.Running, updatedAt := env.end);
      Save(id, m);
      SpawnExitWatcher(id, g);
      reply := I.Acted(I.Summarise(id, m));
    }

    // A failed wait of a start ends the guest, as far as it can.
    method WaitOrTerminate(id: I.Id, secs: nat, p: BootPoll.Polls, ended: bool, endedAfter: bool, now: nat)
      returns (reply: I.Reply, verdict: BootPoll.AdbVerdict, rounds: nat)
      requires BootPoll.Timely(p)
      modifies this, store
      ensures var (waited, waitReply) := I.WaitForAdbReply(old(View()), id, I.WaitEnv(verdict, ended, now));
              && reply == waitReply
              && View() == if reply.Refused? then waited.(host := I.TerminateGuest(waited.host, id, endedAfter)) else waited
      ensures I.Lookup(old(View()), id).Some? && id in old(store.registry) ==>
                && BootPoll.AdbPollEnds(secs, p.adbStart, p.adb, p.adbClock, verdict, rounds)
                && (reply.Acted? <==> verdict.AdbReady?)
    {
      hide I.WaitForAdbReply, I.Lookup, I.TerminateGuest, BootPoll.AdbPollEnds;
      reply, verdict, rounds := WaitForAdb(id, Some(secs), p.adbStart, p.adb, p.adbClock, ended, now);
      if reply.Refused? {
        var _ := TerminateGuest(id, endedAfter);
      }
    }

    // The part of a start after the guest is registered: one timeout, shared by two polls.
    method AwaitGuest(id: I.Id, options: I.StartOptions, g: I.Generation, timeoutSecs: Option<nat>, p: BootPoll.Polls,
                      ended: bool, endedAfter: bool, begin: nat, now: nat)
      returns (reply: I.Reply, env: I.StartEnv, rounds: nat, bootRounds: nat)
      requires BootPoll.Timely(p)
      modifies this, store
      ensures (View(), reply) == I.AwaitGuest(old(View()), id, options, env, g)
      ensures env == I.StartEnv(true, true, env.adb, ended, endedAfter, env.booted, begin, now)
      ensures var secs := if timeoutSecs.Some? then timeoutSecs.value else store.config.startTimeout;
              !options.skipAdbWait && I.Lookup(old(View()), id).Some? && id in old(store.registry) ==>
                Polled(p, secs, options.verifyBoot, env, rounds, bootRounds, reply)
    {
      env, rounds, bootRounds := I.StartEnv(true, true, BootPoll.AdbTimeout, ended, endedAfter, false, begin, now), 0, 0;
      if options.skipAdbWait {
        reply := SkipAdbWait(id, options, g, env);
        return;
      }
      var secs := if timeoutSecs.Some? then timeoutSecs.value else store.config.startTimeout;
      hide I.WaitForAdbReply, I.Lookup, I.Save, I.InState, I.TerminateGuest, I.SpawnWatcher,
           Polled, BootPoll.AdbPollEnds, BootPoll.BootPollEnds, BootPoll.SecsRemaining;
      ghost var polled := I.Lookup(View(), id).Some? && id in store.registry;
      var deadline := p.begun + 1000 * secs;
      var adbSecs := BootPoll.SecsRemaining(deadline, p.adbAsked);
      var verdict, booted;
      reply, verdict, rounds := WaitOrTerminate(id, adbSecs, p, ended, endedAfter, now);
      env := env.(adb := verdict);
      if reply.Acted? {
        if options.verifyBoot {
          var bootSecs := BootPoll.SecsRemaining(deadline, p.bootAsked);
          booted, bootRounds := BootPoll.VerifyBootCompleted(Some(bootSecs), p.bootStart, p.boot, p.bootClock);
          env := env.(booted := booted);
        }
        if options.verifyBoot && !booted {
          reply := I.Refused(I.BootUnverified);
        } else {
          SpawnExitWatcher(id, g);
        }
      }
      if polled {
        PolledSo(p, secs, options.verifyBoot, env, rounds, bootRounds, reply);
      }
    }

    // Which starts are not refused before anything is done.
    ghost predicate Startable(id: I.Id, options: I.StartOptions)
      reads this, store
    {
      I.Lookup(View(), id).Some? && id !in store.registry && !(options.skipAdbWait && options.verifyBoot)
    }

    method StartInstance(id: I.Id, options: I.StartOptions, prepared: bool, spawned: bool, ended: bool, endedAfter: bool,
                         timeoutSecs: Option<nat>, p: BootPoll.Polls, begin: nat, end: nat)
      returns (reply: I.Reply, ghost env: I.StartEnv, rounds: nat, bootRounds: nat)
      requires BootPoll.Timely(p)
      modifies this, store
      ensures (View(), reply) == I.StartInstance(old(View()), id, options, env)
      ensures env == I.StartEnv(prepared, spawned, env.adb, ended, endedAfter, env.booted, begin, end)
      ensures var secs := if timeoutSecs.Some? then timeoutSecs.value else store.config.startTimeout;
              old(Startable(id, options)) && prepared && spawned && !options.skipAdbWait ==>
                Polled(p, secs, options.verifyBoot, env, rounds, bootRounds, reply)
    {
      env, rounds, bootRounds := I.StartEnv(prepared, spawned, BootPoll.AdbTimeout, ended, endedAfter, false, begin, end), 0, 0;
      if options.skipAdbWait && options.verifyBoot {
        reply := I.Refused(I.InvalidOptions);
        return;
      }
      if id in store.registry {
        reply := I.Refused(I.AlreadyRunning);
        return;
      }
      var found := Metadata(id);
      if found.None? {
        reply := I.Refused(I.NoMetadata);
        return;
      }
      hide I.Save, I.InState, I.Lookup, I.Register;
      var m := I.InState(found.value, I.Starting, begin);
      Save(id, m);
      if !prepared {
        reply := I.Refused(I.PreparationFailed);
        return;
      }
      if !spawned {
        Save(id, I.InState(m, I.Failed, end));
        reply := I.Refused(I.SpawnFailed);
        return;
      }
      var g := store.Insert(id);
      hide I.AwaitGuest, Polled, BootPoll.Timely;
      reply, env, rounds, bootRounds := AwaitGuest(id, options, g, timeoutSecs, p, ended, endedAfter, begin, end);
    }

    method StopInstance(id: I.Id, env: I.StopEnv) returns (reply: I.Reply)
      modifies this, store
      ensures (View(), reply) == I.StopInstance(old(View()), id, env)
    {
      var found := Metadata(id);
      if found.None? {
        return I.Refused(I.NoMetadata);
      }
      var m := found.value;
      var exit := if id in store.registry then env.exit else None;
      var done := TerminateGuest(id, env.ended);
      if !done {
        return I.Refused(I.GuestUnreachable);
      }
      var state := I.Stopped;
      if exit.Some? && !GuestHandle.ExitedCleanly(exit.value) {
        state := I.Failed;
      }
      m := m.(state := state, updatedAt := env.now);
      Save(id, m);
      if !env.killed {
        m := m.(state := I.Failed, updatedAt := env.later);
        Save(id, m);
      }
      reply := I.Acted(I.Summarise(id, m));
    }

    method HoldInstance(id: I.Id, now: nat) returns (reply: I.Reply)
      modifies this, store
      ensures (View(), reply) == I.HoldInstance(old(View()), id, now)
    {
      var found := Metadata(id);
      if found.None? {
        return I.Refused(I.NoMetadata);
      }
      var m := found.value;
      m := m.(held := true);
      m := m.(updatedAt := now);
      Save(id, m);
      reply := I.Acted(I.Summarise(id, m));
    }

    // Both copies go to the instance's own artifacts, the boot image first.
    method Deploy(id: I.Id, boot: Option<I.Copy>, initBoot: Option<I.Copy>, now: nat) returns (reply: I.Reply)
      modifies this, store
      ensures (View(), reply) == I.DeployImages(old(View()), id, boot, initBoot, now)
    {
      var found := Metadata(id);
      if found.None? {
        return I.Refused(I.NoMetadata);
      }
      var m := found.value;
      if boot.Some? {
        var files := if id in store.artifacts then store.artifacts[id] else I.Artifacts(None, None);
        store.artifacts := store.artifacts[id := files.(boot := I.AfterCopy(boot, files.boot))];
        if boot.value.CopyFails? {
          return I.Refused(I.CopyFailed);
        }
        m := m.(bootImage := I.Artifact);
      }
      if initBoot.Some? {
        var files := if id in store.artifacts then store.artifacts[id] else I.Artifacts(None, None);
        store.artifacts := store.artifacts[id := files.(initBoot := I.AfterCopy(initBoot, files.initBoot))];
        if initBoot.value.CopyFails? {
          return I.Refused(I.CopyFailed);
        }
        m := m.(initBootImage := I.Artifact);
      }
      m := m.(updatedAt := now);
      Save(id, m);
      reply := I.Updated;
    }

    method MarkMetadataState(id: I.Id, state: I.InstanceState, now: nat)
      modifies this, store
      ensures View() == I.MarkState(old(View()), id, state, now)
    {
      var found := Metadata(id);
      var m;
      if found.Some? {
        m := found.value.(state := state, updatedAt := now);
        if m.createdAt == 0 {
          m := m.(createdAt := now);
        }
      } else {
        m := I.Fresh(store.config, id, None, state, now);
      }
      Save(id, m);
    }

    method PrepareDestroy(id: I.Id, env: I.DestroyEnv) returns (done: bool)
      modifies this, store
      ensures View() == I.PrepareDestroy(old(View()), id, env)
      ensures done <==> !I.TerminationFails(old(store.View()), id, env.ended)
    {
      var now := env.now;
      var found := Metadata(id);
      var m := if found.Some? then found.value else I.Fresh(store.config, id, None, I.Destroyed, 0);
      m := m.(state := I.Destroyed, updatedAt := now);
      if m.createdAt == 0 {
        m := m.(createdAt := now);
      }
      if id in store.disk {
        WriteMetadata(id, m);
      }
      metadataCache := metadataCache - {id};
      done := TerminateGuest(id, env.ended);
    }

    method FinishDestroy(id: I.Id, env: I.DestroyEnv) returns (killed: bool)
      modifies this, store
      ensures View() == I.FinishDestroy(old(View()), id, env)
      ensures killed <==> !env.cleanup.GuestsRemain?
    {
      killed := !env.cleanup.GuestsRemain?;
      match env.cleanup
      case GuestsRemain => MarkMetadataState(id, I.Failed, env.later);
      case FilesRemoved =>
        store.disk := store.disk - {id};
        store.dirs := store.dirs - {id};
        store.artifacts := store.artifacts - {id};
        metadataCache := metadataCache - {id};
      case FilesKept =>
      case MetadataLost =>
        store.disk := store.disk - {id};
    }

    method DestroyInstance(id: I.Id, env: I.DestroyEnv) returns (reply: I.Reply)
      modifies this, store
      ensures (View(), reply) == I.DestroyInstance(old(View()), id, env)
    {
      var done := PrepareDestroy(id, env);
      if !done {
        return I.Refused(I.GuestUnreachable);
      }
      var cleaner := new InstanceManager(store);
      var killed := cleaner.FinishDestroy(id, env);
      if !killed {
        return I.Refused(I.DestroyIncomplete);
      }
      reply := I.Acted(I.Summary(id, None, I.Destroyed));
    }

    method PruneInstance(id: I.Id, env: I.DestroyEnv) returns (killed: bool)
      modifies this, store
      ensures View() == I.PruneOne(old(View()), id, env)
      ensures killed <==> I.Rids(old(store.View()), id, env)
    {
      var done := PrepareDestroy(id, env);
      if !done {
        return false;
      }
      var cleaner := new InstanceManager(store);
      killed := cleaner.FinishDestroy(id, env);
      if !killed {
        var found := cleaner.Metadata(id);
        if found.Some? {
          metadataCache := metadataCache[id := found.value];
        }
      }
    }

    method PruneExpiredInstances(maxAge: nat, now: nat, order: seq<I.Id>, outcome: I.Id -> I.DestroyEnv)
      returns (pruned: nat, retained: nat)
      modifies this, store
      ensures I.PruneResult(View(), pruned, retained)
              == I.Prune(old(View()), I.UpTo(I.Cutoff(now, maxAge)), order, outcome)
    {
      var cutoff := if now >= maxAge then now - maxAge else 0;
      pruned, retained := 0, 0;
      for i := 0 to |order|
        invariant I.PruneResult(View(), pruned, retained) == I.Prune(old(View()), I.UpTo(cutoff), order[..i], outcome)
      {
        assert order[..i + 1][..i] == order[..i];
        var id := order[i];
        var found := Metadata(id);
        if found.None? {
          continue;
        }
        var m := found.value;
        if m.state == I.Destroyed {
          continue;
        }
        if m.held {
          continue;
        }
        if m.updatedAt > cutoff {
          continue;
        }
        var killed := PruneInstance(id, outcome(id));
        if killed {
          pruned := pruned + 1;
        } else {
          retained := retained + 1;
        }
      }
      assert order[..|order|] == order;
    }

    method PruneAllInstances(order: seq<I.Id>, outcome: I.Id -> I.DestroyEnv) returns (pruned: nat, retained: nat)
      modifies this, store
      ensures I.PruneResult(View(), pruned, retained) == I.Prune(old(View()), I.Everything, order, outcome)
    {
      pruned, retained := 0, 0;
      for i := 0 to |order|
        invariant I.PruneResult(View(), pruned, retained) == I.Prune(old(View()), I.Everything, order[..i], outcome)
      {
        assert order[..i + 1][..i] == order[..i];
        var id := order[i];
        var found := Metadata(id);
        if found.None? {
          continue;
        }
        var m := found.value;
        if m.state == I.Destroyed {
          continue;
        }
        if m.held {
          retained := retained + 1;
          continue;
        }
        var killed := PruneInstance(id, outcome(id));
        if killed {
          pruned := pruned + 1;
        } else {
          retained := retained + 1;
        }
      }
      assert order[..|order|] == order;
    }
  }
}

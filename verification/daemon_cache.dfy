/** A manager's metadata cache never shows: it agrees with the disk, and no reply depends on it. */
module DaemonCache {
  import opened Wrappers
  import opened GuestHandle
  import opened Instances

  ghost predicate Coherent(w: World) {
    forall id :: id in w.cache ==> id in w.host.disk && w.host.disk[id] == w.cache[id]
  }

  // Two managers of one host: they look up and save alike.
  ghost predicate Alike(w: World, v: World) {
    Coherent(w) && Coherent(v) && w.host == v.host
  }

  lemma LookupAlike(w: World, v: World, id: Id)
    requires Alike(w, v)
    ensures w.host == v.host && Lookup(w, id) == Lookup(v, id)
  {
  }

  lemma SaveAlike(w: World, v: World, id: Id, m: Metadata)
    requires Alike(w, v)
    ensures Alike(Save(w, id, m), Save(v, id, m))
  {
  }

  // The registry, the watchers and the cursor are not cached.
  lemma HostAlike(w: World, v: World, h: Host)
    requires Alike(w, v) && h.disk == w.host.disk
    ensures Alike(w.(host := h), v.(host := h))
  {
  }

  // What has to hold of an operation on both: hosts and replies the same, caches still coherent.
  ghost predicate SameOutcome(left: (World, Reply), right: (World, Reply)) {
    Alike(left.0, right.0) && left.1 == right.1
  }

  lemma TerminateKeepsDisk(h: Host, id: Id, ended: bool)
    ensures TerminateGuest(h, id, ended).disk == h.disk
  {
  }

  lemma WaitSame(w: World, v: World, id: Id, env: WaitEnv)
    requires Alike(w, v)
    ensures SameOutcome(WaitForAdbReply(w, id, env), WaitForAdbReply(v, id, env))
  {
    hide Alike, Save, Lookup, InState, TerminateGuest, RemoveIfHandle;
    LookupAlike(w, v, id);
    if Lookup(w, id).Some? {
      var m := Lookup(w, id).value;
      SaveAlike(w, v, id, InState(m, Failed, env.now));
      SaveAlike(w, v, id, InState(m, Running, env.now));
      if id in w.host.registry {
        var h := RemoveIfHandle(w.host, id, w.host.registry[id]);
        assert h.disk == w.host.disk by {
          RemoveKeepsDisk(w.host, id);
        }
        HostAlike(w, v, h);
        SaveAlike(w.(host := h), v.(host := h), id, InState(m, Failed, env.now));
        var k := TerminateGuest(w.host, id, env.ended);
        TerminateKeepsDisk(w.host, id, env.ended);
        HostAlike(w, v, k);
        SaveAlike(w.(host := k), v.(host := k), id, InState(m, Failed, env.now));
      }
    }
  }

  lemma RemoveKeepsDisk(h: Host, id: Id)
    requires id in h.registry
    ensures RemoveIfHandle(h, id, h.registry[id]).disk == h.disk
  {
  }

  lemma AwaitSame(w: World, v: World, id: Id, options: StartOptions, env: StartEnv, g: Generation)
    requires Alike(w, v)
    ensures SameOutcome(AwaitGuest(w, id, options, env, g), AwaitGuest(v, id, options, env, g))
  {
    hide Alike, Save, Lookup, InState, TerminateGuest, WaitForAdbReply;
    LookupAlike(w, v, id);
    if options.skipAdbWait {
      if Lookup(w, id).Some? {
        var running := InState(Lookup(w, id).value, Running, env.end);
        SaveAlike(w, v, id, running);
        LookupAlike(Save(w, id, running), Save(v, id, running), id);
        HostAlike(Save(w, id, running), Save(v, id, running), SpawnWatcher(Save(w, id, running).host, id, g));
      }
    } else {
      var wait := WaitEnv(env.adb, env.ended, env.end);
      WaitSame(w, v, id, wait);
      var waited, waitedToo := WaitForAdbReply(w, id, wait).0, WaitForAdbReply(v, id, wait).0;
      LookupAlike(waited, waitedToo, id);
      TerminateKeepsDisk(waited.host, id, env.endedAfter);
      HostAlike(waited, waitedToo, TerminateGuest(waited.host, id, env.endedAfter));
      HostAlike(waited, waitedToo, SpawnWatcher(waited.host, id, g));
    }
  }

  lemma StartSame(w: World, v: World, id: Id, options: StartOptions, env: StartEnv)
    requires Alike(w, v)
    ensures SameOutcome(StartInstance(w, id, options, env), StartInstance(v, id, options, env))
  {
    hide Alike, Save, Lookup, InState, AwaitGuest;
    LookupAlike(w, v, id);
    if Lookup(w, id).Some? {
      var starting := InState(Lookup(w, id).value, Starting, env.begin);
      var w1, v1 := Save(w, id, starting), Save(v, id, starting);
      SaveAlike(w, v, id, starting);
      LookupAlike(w1, v1, id);
      SaveAlike(w1, v1, id, InState(starting, Failed, env.end));
      HostAlike(w1, v1, Register(w1.host, id));
      AwaitSame(w1.(host := Register(w1.host, id)), v1.(host := Register(w1.host, id)), id, options, env, w1.host.nextGeneration);
    }
  }

  lemma StopSame(w: World, v: World, id: Id, env: StopEnv)
    requires Alike(w, v)
    ensures SameOutcome(StopInstance(w, id, env), StopInstance(v, id, env))
  {
    hide Alike, Save, Lookup, InState, TerminateGuest;
    LookupAlike(w, v, id);
    if Lookup(w, id).Some? {
      var h := TerminateGuest(w.host, id, env.ended);
      TerminateKeepsDisk(w.host, id, env.ended);
      HostAlike(w, v, h);
      var exit := if id in w.host.registry then env.exit else None;
      var state := if exit.None? || ExitedCleanly(exit.value) then Stopped else Failed;
      var stopped := InState(Lookup(w, id).value, state, env.now);
      var w1, v1 := Save(w.(host := h), id, stopped), Save(v.(host := h), id, stopped);
      SaveAlike(w.(host := h), v.(host := h), id, stopped);
      SaveAlike(w1, v1, id, InState(stopped, Failed, env.later));
    }
  }

  lemma CreateSame(w: World, v: World, purpose: Option<string>, now: nat)
    requires Alike(w, v)
    ensures SameOutcome(CreateInstance(w, purpose, now), CreateInstance(v, purpose, now))
  {
    hide Alike, Save, Fresh, Allocator.Allocate;
    LookupAlike(w, v, 0);
    match Allocator.Allocate(w.host.dirs, w.host.cursor)
    case None =>
    case Some(id) =>
      var h := w.host.(cursor := Some(Allocator.NextSlot(id)));
      HostAlike(w, v, h);
      SaveAlike(w.(host := h), v.(host := h), id, Fresh(w.host.config, id, purpose, Created, now));
  }

  lemma ListSame(w: World, v: World)
    requires Alike(w, v)
    ensures List(w) == List(v)
  {
    forall id
      ensures Lookup(w, id) == Lookup(v, id)
    {
      LookupAlike(w, v, id);
    }
    hide Lookup, Alike;
  }

  lemma HoldSame(w: World, v: World, id: Id, now: nat)
    requires Alike(w, v)
    ensures SameOutcome(HoldInstance(w, id, now), HoldInstance(v, id, now))
  {
    hide Alike, Save, Lookup;
    LookupAlike(w, v, id);
    if Lookup(w, id).Some? {
      SaveAlike(w, v, id, Lookup(w, id).value.(held := true, updatedAt := now));
    }
  }

  lemma DeploySame(w: World, v: World, id: Id, boot: Option<Copy>, initBoot: Option<Copy>, now: nat)
    requires Alike(w, v)
    ensures SameOutcome(DeployImages(w, id, boot, initBoot, now), DeployImages(v, id, boot, initBoot, now))
  {
    LookupAlike(w, v, id);
    var h1 := PutBoot(w.host, id, boot);
    var h2 := PutInitBoot(h1, id, initBoot);
    PutKeepsDisk(w.host, id, boot, initBoot);
    HostAlike(w, v, h1);
    HostAlike(w, v, h2);
    hide Alike, Save, PutBoot, PutInitBoot, Lookup;
    if Lookup(w, id).Some? {
      var m := Lookup(w, id).value;
      SaveAlike(w.(host := h2), v.(host := h2), id,
                m.(bootImage := if boot.Some? then Artifact else m.bootImage,
                   initBootImage := if initBoot.Some? then Artifact else m.initBootImage,
                   updatedAt := now));
    }
  }

  lemma PutKeepsDisk(h: Host, id: Id, boot: Option<Copy>, initBoot: Option<Copy>)
    ensures PutBoot(h, id, boot).disk == h.disk && PutInitBoot(PutBoot(h, id, boot), id, initBoot).disk == h.disk
  {
  }

  lemma PrepareSame(w: World, v: World, id: Id, env: DestroyEnv)
    requires Alike(w, v)
    ensures Alike(PrepareDestroy(w, id, env), PrepareDestroy(v, id, env))
    ensures id !in PrepareDestroy(w, id, env).cache && id !in PrepareDestroy(v, id, env).cache
  {
    LookupAlike(w, v, id);
    hide Lookup;
  }

  // The cleanup leaves every other instance's metadata alone, and its own manager coherent.
  lemma FinishLocal(h: Host, id: Id, env: DestroyEnv)
    ensures var cleaned := FinishDestroy(World(h, map[]), id, env);
            && Coherent(cleaned)
            && forall j :: j != id && j in h.disk ==> j in cleaned.host.disk && cleaned.host.disk[j] == h.disk[j]
  {
  }

  lemma PruneOneSame(w: World, v: World, id: Id, env: DestroyEnv)
    requires Alike(w, v)
    ensures Alike(PruneOne(w, id, env), PruneOne(v, id, env))
  {
    PrepareSame(w, v, id, env);
    FinishLocal(PrepareDestroy(w, id, env).host, id, env);
    hide PrepareDestroy, FinishDestroy, TerminationFails;
  }

  lemma DestroySame(w: World, v: World, id: Id, env: DestroyEnv)
    requires Alike(w, v)
    ensures SameOutcome(DestroyInstance(w, id, env), DestroyInstance(v, id, env))
  {
    PrepareSame(w, v, id, env);
    FinishLocal(PrepareDestroy(w, id, env).host, id, env);
    hide PrepareDestroy, FinishDestroy, TerminationFails, Lookup;
  }

  ghost predicate SamePrune(r: PruneResult, q: PruneResult) {
    Alike(r.world, q.world) && r.pruned == q.pruned && r.retained == q.retained
  }

  lemma PruneStepSame(r: PruneResult, q: PruneResult, scope: Scope, id: Id, env: DestroyEnv)
    requires SamePrune(r, q)
    ensures SamePrune(PruneStep(r, scope, id, env), PruneStep(q, scope, id, env))
  {
    hide PruneOne, Lookup, Alike, Prunable, Rids;
    LookupAlike(r.world, q.world, id);
    PruneOneSame(r.world, q.world, id, env);
  }

  lemma {:induction false} PruneSame(w: World, v: World, scope: Scope, order: seq<Id>, outcome: Id -> DestroyEnv)
    requires Alike(w, v)
    ensures SamePrune(Prune(w, scope, order, outcome), Prune(v, scope, order, outcome))
    decreases |order|
  {
    hide PruneStep, Alike;
    if order != [] {
      var id, front := order[|order| - 1], order[..|order| - 1];
      PruneSame(w, v, scope, front, outcome);
      PruneStepSame(Prune(w, scope, front, outcome), Prune(v, scope, front, outcome), scope, id, outcome(id));
    }
  }

  // One request, on any two managers of the same host whose caches agree with the disk.
  lemma HandleSame(w: World, v: World, call: Call)
    requires Alike(w, v)
    ensures SameOutcome(Handle(w, call), Handle(v, call))
  {
    hide CreateInstance, StartInstance, StopInstance, HoldInstance, DestroyInstance, DeployImages, WaitForAdbReply, Prune, List, Lookup, Alike;
    match call
    case Create(purpose, now) => CreateSame(w, v, purpose, now);
    case CreateStart(purpose, now, options, env) =>
      CreateSame(w, v, purpose, now);
      var (w1, reply) := CreateInstance(w, purpose, now);
      if reply.Acted? {
        StartSame(w1, CreateInstance(v, purpose, now).0, reply.summary.id, options, env);
      }
    case Start(id, options, env) => StartSame(w, v, id, options, env);
    case Stop(id, env) => StopSame(w, v, id, env);
    case Hold(id, now) => HoldSame(w, v, id, now);
    case Destroy(id, env) => DestroySame(w, v, id, env);
    case Deploy(id, boot, initBoot, now) => DeploySame(w, v, id, boot, initBoot, now);
    case WaitAdb(id, env) => WaitSame(w, v, id, env);
    case PruneExpired(maxAge, now, order, outcome) => PruneSame(w, v, UpTo(Cutoff(now, maxAge)), order, outcome);
    case PruneAll(order, outcome) => PruneSame(w, v, Everything, order, outcome);
    case Status(id) => LookupAlike(w, v, id);
    case ListAll => ListSame(w, v);
  }

  function HandleAll(w: World, calls: seq<Call>): (World, seq<Reply>)
    decreases |calls|
  {
    if calls == [] then (w, [])
    else
      var (w1, reply) := Handle(w, calls[0]);
      var (w2, replies) := HandleAll(w1, calls[1..]);
      (w2, [reply] + replies)
  }

  function ServeAll(h: Host, calls: seq<Call>): (Host, seq<Reply>)
    decreases |calls|
  {
    if calls == [] then (h, [])
    else
      var (h1, reply) := Serve(h, calls[0]);
      var (h2, replies) := ServeAll(h1, calls[1..]);
      (h2, [reply] + replies)
  }

  // A long-lived manager leaves the same host and gives the same replies as the fresh one the
  // daemon builds for each request, over any sequence of requests.
  lemma {:induction false} OneManagerLikeMany(w: World, calls: seq<Call>)
    requires Coherent(w)
    ensures Coherent(HandleAll(w, calls).0)
    ensures HandleAll(w, calls).0.host == ServeAll(w.host, calls).0
    ensures HandleAll(w, calls).1 == ServeAll(w.host, calls).1
    decreases |calls|
  {
    hide Handle;
    if calls != [] {
      HandleSame(w, World(w.host, map[]), calls[0]);
      OneManagerLikeMany(Handle(w, calls[0]).0, calls[1..]);
    }
  }
}

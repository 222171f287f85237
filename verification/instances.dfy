/** Instances as the cfctl daemon keeps them: metadata files, a manager's cache of them, the guest
    registry and the exit watchers; and what each request does to them. */
module Instances {
  import opened Wrappers
  import opened GuestHandle
  import opened BootPoll
  import Allocator

  type Id = nat
  type Generation = nat

  datatype InstanceState = Unknown | Created | Starting | Running | Stopped | Failed | Destroyed

  // The image an instance boots: a file elsewhere, or the copy among its own artifacts.
  datatype Image = External(path: string) | Artifact

  datatype Metadata = Metadata(
    purpose: Option<string>, adbPort: nat, state: InstanceState,
    bootImage: Image, initBootImage: Image,
    createdAt: nat, updatedAt: nat, held: bool)

  // Timeouts in seconds, for requests that name none.
  datatype Config = Config(baseAdbPort: nat, bootImage: string, initBootImage: string, startTimeout: nat, adbWaitTimeout: nat)

  // What artifacts/boot.img and artifacts/init_boot.img hold, where they exist.
  datatype Artifacts = Artifacts(boot: Option<bytes>, initBoot: Option<bytes>)

  // A watcher thread: blocked in wait(); past it, having found its own handle in the registry and
  // about to remove what is there (no outcome when the wait failed); past the registry; or with the
  // metadata it has read and changed, about to write it.
  datatype Watcher =
    | Blocked(id: Id)
    | Matched(id: Id, outcome: Option<ExitStatus>)
    | Reported(id: Id, exit: ExitStatus)
    | Loaded(id: Id, copy: Metadata)

  // Everything that outlives a request. Each spawned guest has a generation of its own.
  datatype Host = Host(
    config: Config,
    disk: map<Id, Metadata>, dirs: set<Id>, artifacts: map<Id, Artifacts>, cursor: Option<nat>,
    registry: map<Id, Generation>, nextGeneration: Generation, watchers: map<Generation, Watcher>)

  datatype World = World(host: Host, cache: map<Id, Metadata>)

  /* ---------- requests, with what the outside answers to them ---------- */

  datatype StartOptions = StartOptions(skipAdbWait: bool, verifyBoot: bool)

  // In all of these `ended` says that terminate_guest, where there is a handle, comes to its end. It
  // does not when a signal or a poll of the guest fails: then the handle stays registered.

  // Whether directories, qemu data and the run log could be prepared, the guest spawned, and what
  // the polls ended with; the terminations after an adb timeout and after any failed wait; the
  // clock before and after.
  datatype StartEnv = StartEnv(
    prepared: bool, spawned: bool, adb: AdbVerdict, ended: bool, endedAfter: bool, booted: bool, begin: nat, end: nat)

  datatype WaitEnv = WaitEnv(adb: AdbVerdict, ended: bool, now: nat)

  // The guest's exit if it had a handle, and whether no process is left afterwards.
  datatype StopEnv = StopEnv(ended: bool, exit: Option<ExitStatus>, killed: bool, now: nat, later: nat)

  // How cleaning up ends: processes are left, or everything is removed, or removing the files fails
  // with the metadata still there or already gone.
  datatype Cleanup = GuestsRemain | FilesRemoved | FilesKept | MetadataLost
  datatype DestroyEnv = DestroyEnv(ended: bool, cleanup: Cleanup, now: nat, later: nat)

  // One fs::copy: done, or failed with the target as it was or with something else left in it.
  datatype Copy = Copied(content: bytes) | CopyFails(left: Option<bytes>)

  datatype Call =
    | Create(purpose: Option<string>, now: nat)
    | CreateStart(purpose: Option<string>, now: nat, options: StartOptions, start: StartEnv)
    | Start(id: Id, options: StartOptions, start: StartEnv)
    | Stop(id: Id, stop: StopEnv)
    | Hold(id: Id, now: nat)
    | Destroy(id: Id, destroy: DestroyEnv)
    | Deploy(id: Id, boot: Option<Copy>, initBoot: Option<Copy>, now: nat)
    | WaitAdb(id: Id, wait: WaitEnv)
    | PruneExpired(maxAge: nat, now: nat, order: seq<Id>, outcome: Id -> DestroyEnv)
    | PruneAll(order: seq<Id>, outcome: Id -> DestroyEnv)
    | Status(id: Id)
    | ListAll

  datatype Error =
    | NoSlot | NoMetadata | InvalidOptions | AlreadyRunning | PreparationFailed | SpawnFailed
    | HandleLost | GuestUnreachable | ExitedEarly | AdbTimedOut | BootUnverified | DestroyIncomplete | CopyFailed

  datatype Summary = Summary(id: Id, port: Option<nat>, state: InstanceState)

  datatype Reply = Refused(error: Error) | Acted(summary: Summary) | Updated | Pruned(pruned: nat, retained: nat)
                 | Listing(instances: map<Id, Summary>)

  /* ---------- metadata ---------- */

  // base_adb_port + id as u16 - 1, in sixteen bits.
  function Port(c: Config, id: Id): nat {
    (c.baseAdbPort + id % 0x1_0000 - 1) % 0x1_0000
  }

  function Lookup(w: World, id: Id): Option<Metadata> {
    if id in w.cache then Some(w.cache[id])
    else if id in w.host.disk then Some(w.host.disk[id])
    else None
  }

  // write_metadata, which also makes the directory.
  function Write(h: Host, id: Id, m: Metadata): Host {
    h.(disk := h.disk[id := m], dirs := h.dirs + {id})
  }

  function Save(w: World, id: Id, m: Metadata): World {
    World(Write(w.host, id, m), w.cache[id := m])
  }

  function InState(m: Metadata, state: InstanceState, now: nat): Metadata {
    m.(state := state, updatedAt := now)
  }

  function Summarise(id: Id, m: Metadata): Summary {
    Summary(id, Some(m.adbPort), m.state)
  }

  function Fresh(c: Config, id: Id, purpose: Option<string>, state: InstanceState, now: nat): Metadata {
    Metadata(purpose, Port(c, id), state, External(c.bootImage), External(c.initBootImage), now, now, false)
  }

  function MarkState(w: World, id: Id, state: InstanceState, now: nat): World {
    var m :=
      match Lookup(w, id)
      case Some(m) => InState(m, state, now).(createdAt := if m.createdAt == 0 then now else m.createdAt)
      case None => Fresh(w.host.config, id, None, state, now);
    Save(w, id, m)
  }

  /* ---------- the registry ---------- */

  function Register(h: Host, id: Id): Host {
    h.(registry := h.registry[id := h.nextGeneration], nextGeneration := h.nextGeneration + 1)
  }

  function RemoveIfHandle(h: Host, id: Id, g: Generation): Host {
    if id in h.registry && h.registry[id] == g then h.(registry := h.registry - {id}) else h
  }

  // terminate_guest signals the guest it finds, and removes that guest's handle.
  function TerminateGuest(h: Host, id: Id, ended: bool): Host {
    if id in h.registry && ended then RemoveIfHandle(h, id, h.registry[id]) else h
  }

  predicate TerminationFails(h: Host, id: Id, ended: bool) {
    id in h.registry && !ended
  }

  function SpawnWatcher(h: Host, id: Id, g: Generation): Host {
    h.(watchers := h.watchers[g := Blocked(id)])
  }

  /* ---------- the steps of an exit watcher ---------- */

  // Past the registry: a failed wait has nothing to write.
  function PastRegistry(h: Host, g: Generation, id: Id, outcome: Option<ExitStatus>): Host {
    h.(watchers := if outcome.Some? then h.watchers[g := Reported(id, outcome.value)] else h.watchers - {g})
  }

  // wait() returns, and the first half of remove_if_handle looks whether the handle is its own.
  function WaitReturns(h: Host, g: Generation, outcome: Option<ExitStatus>): Host {
    if g !in h.watchers || !h.watchers[g].Blocked? then h
    else
      var id := h.watchers[g].id;
      if id in h.registry && h.registry[id] == g then h.(watchers := h.watchers[g := Matched(id, outcome)])
      else PastRegistry(h, g, id, outcome)
  }

  // The second half removes whatever is registered by then.
  function RemoveMatched(h: Host, g: Generation): Host {
    if g !in h.watchers || !h.watchers[g].Matched? then h
    else PastRegistry(h.(registry := h.registry - {h.watchers[g].id}), g, h.watchers[g].id, h.watchers[g].outcome)
  }

  function ExitState(exit: ExitStatus): InstanceState {
    if ExitedCleanly(exit) then Stopped else Failed
  }

  // handle_guest_exit reads the metadata and makes its changes to the copy. Without metadata it is done.
  function ReadExit(h: Host, g: Generation, now: nat): Host {
    if g !in h.watchers || !h.watchers[g].Reported? then h
    else
      var id := h.watchers[g].id;
      if id !in h.disk then h.(watchers := h.watchers - {g})
      else h.(watchers := h.watchers[g := Loaded(id, InState(h.disk[id], ExitState(h.watchers[g].exit), now))])
  }

  // It writes its copy back over whatever is there by then.
  function WriteExit(h: Host, g: Generation): Host {
    if g !in h.watchers || !h.watchers[g].Loaded? then h
    else Write(h, h.watchers[g].id, h.watchers[g].copy).(watchers := h.watchers - {g})
  }

  /* ---------- requests ---------- */

  function CreateInstance(w: World, purpose: Option<string>, now: nat): (World, Reply) {
    match Allocator.Allocate(w.host.dirs, w.host.cursor)
    case None => (w, Refused(NoSlot))
    case Some(id) =>
      var m := Fresh(w.host.config, id, purpose, Created, now);
      (Save(w.(host := w.host.(cursor := Some(Allocator.NextSlot(id)))), id, m), Acted(Summarise(id, m)))
  }

  function LaunchFailure(w: World, id: Id, m: Metadata, now: nat): World {
    Save(w, id, InState(m, Failed, now))
  }

  function WaitForAdbReply(w: World, id: Id, env: WaitEnv): (World, Reply) {
    match Lookup(w, id)
    case None => (w, Refused(NoMetadata))
    case Some(m) =>
      if id !in w.host.registry then (LaunchFailure(w, id, m, env.now), Refused(HandleLost))
      else
        match env.adb
        case PollFailed => (w, Refused(GuestUnreachable))
        case GuestExited =>
          (LaunchFailure(w.(host := RemoveIfHandle(w.host, id, w.host.registry[id])), id, m, env.now), Refused(ExitedEarly))
        case AdbTimeout =>
          (LaunchFailure(w.(host := TerminateGuest(w.host, id, env.ended)), id, m, env.now), Refused(AdbTimedOut))
        case AdbReady =>
          var running := InState(m, Running, env.now);
          (Save(w, id, running), Acted(Summarise(id, running)))
  }

  // After the guest is spawned and registered as generation g.
  function AwaitGuest(w: World, id: Id, options: StartOptions, env: StartEnv, g: Generation): (World, Reply) {
    if options.skipAdbWait then
      match Lookup(w, id)
      case None => (w, Refused(NoMetadata))
      case Some(m) =>
        var running := InState(m, Running, env.end);
        var saved := Save(w, id, running);
        (saved.(host := SpawnWatcher(saved.host, id, g)), Acted(Summarise(id, running)))
    else
      var (waited, reply) := WaitForAdbReply(w, id, WaitEnv(env.adb, env.ended, env.end));
      if reply.Refused? then (waited.(host := TerminateGuest(waited.host, id, env.endedAfter)), reply)
      else if options.verifyBoot && !env.booted then (waited, Refused(BootUnverified))
      else (waited.(host := SpawnWatcher(waited.host, id, g)), reply)
  }

  function StartInstance(w: World, id: Id, options: StartOptions, env: StartEnv): (World, Reply) {
    if options.skipAdbWait && options.verifyBoot then (w, Refused(InvalidOptions))
    else if id in w.host.registry then (w, Refused(AlreadyRunning))
    else
      match Lookup(w, id)
      case None => (w, Refused(NoMetadata))
      case Some(m) =>
        var starting := InState(m, Starting, env.begin);
        var w1 := Save(w, id, starting);
        if !env.prepared then (w1, Refused(PreparationFailed))
        else if !env.spawned then (Save(w1, id, InState(starting, Failed, env.end)), Refused(SpawnFailed))
        else AwaitGuest(w1.(host := Register(w1.host, id)), id, options, env, w1.host.nextGeneration)
  }

  function CreateAndStart(w: World, purpose: Option<string>, now: nat, options: StartOptions, env: StartEnv): (World, Reply) {
    var (created, reply) := CreateInstance(w, purpose, now);
    if reply.Acted? then StartInstance(created, reply.summary.id, options, env) else (created, reply)
  }

  function StopInstance(w: World, id: Id, env: StopEnv): (World, Reply) {
    match Lookup(w, id)
    case None => (w, Refused(NoMetadata))
    case Some(m) =>
      if TerminationFails(w.host, id, env.ended) then (w, Refused(GuestUnreachable))
      else
        var exit := if id in w.host.registry then env.exit else None;
        var state := if exit.None? || ExitedCleanly(exit.value) then Stopped else Failed;
        var stopped := InState(m, state, env.now);
        var w1 := Save(w.(host := TerminateGuest(w.host, id, env.ended)), id, stopped);
        if env.killed then (w1, Acted(Summarise(id, stopped)))
        else
          var failed := InState(stopped, Failed, env.later);
          (Save(w1, id, failed), Acted(Summarise(id, failed)))
  }

  function HoldInstance(w: World, id: Id, now: nat): (World, Reply) {
    match Lookup(w, id)
    case None => (w, Refused(NoMetadata))
    case Some(m) =>
      var held := m.(held := true, updatedAt := now);
      (Save(w, id, held), Acted(Summarise(id, held)))
  }

  function ArtifactsOf(h: Host, id: Id): Artifacts {
    if id in h.artifacts then h.artifacts[id] else Artifacts(None, None)
  }

  // What a copy, if there is to be one, leaves in its target.
  function AfterCopy(copy: Option<Copy>, before: Option<bytes>): Option<bytes> {
    match copy
    case None => before
    case Some(Copied(content)) => Some(content)
    case Some(CopyFails(left)) => if left.Some? then left else before
  }

  predicate Fails(copy: Option<Copy>) {
    copy.Some? && copy.value.CopyFails?
  }

  function PutBoot(h: Host, id: Id, copy: Option<Copy>): Host {
    if copy.None? then h
    else
      var files := ArtifactsOf(h, id);
      h.(artifacts := h.artifacts[id := files.(boot := AfterCopy(copy, files.boot))])
  }

  function PutInitBoot(h: Host, id: Id, copy: Option<Copy>): Host {
    if copy.None? then h
    else
      var files := ArtifactsOf(h, id);
      h.(artifacts := h.artifacts[id := files.(initBoot := AfterCopy(copy, files.initBoot))])
  }

  // The boot image first; the other one is not tried when that fails.
  function DeployImages(w: World, id: Id, boot: Option<Copy>, initBoot: Option<Copy>, now: nat): (World, Reply) {
    match Lookup(w, id)
    case None => (w, Refused(NoMetadata))
    case Some(m) =>
      var w1 := w.(host := PutBoot(w.host, id, boot));
      if Fails(boot) then (w1, Refused(CopyFailed))
      else
        var w2 := w1.(host := PutInitBoot(w1.host, id, initBoot));
        if Fails(initBoot) then (w2, Refused(CopyFailed))
        else
          (Save(w2, id, m.(bootImage := if boot.Some? then Artifact else m.bootImage,
                           initBootImage := if initBoot.Some? then Artifact else m.initBootImage,
                           updatedAt := now)), Updated)
  }

  // Marks the metadata Destroyed where there is any, forgets the cached copy, ends the guest.
  function PrepareDestroy(w: World, id: Id, env: DestroyEnv): World {
    var m := match Lookup(w, id) case Some(m) => m case None => Fresh(w.host.config, id, None, Destroyed, 0);
    var marked := InState(m, Destroyed, env.now).(createdAt := if m.createdAt == 0 then env.now else m.createdAt);
    var host := if id in w.host.disk then Write(w.host, id, marked) else w.host;
    World(TerminateGuest(host, id, env.ended), w.cache - {id})
  }

  function FinishDestroy(w: World, id: Id, env: DestroyEnv): World {
    match env.cleanup
    case GuestsRemain => MarkState(w, id, Failed, env.later)
    case FilesRemoved => World(w.host.(disk := w.host.disk - {id}, dirs := w.host.dirs - {id}, artifacts := w.host.artifacts - {id}), w.cache - {id})
    case FilesKept => w
    case MetadataLost => w.(host := w.host.(disk := w.host.disk - {id}))
  }

  // The cleanup runs on a manager of its own, which starts with an empty cache, and not at all when
  // the guest's end cannot be seen.
  function DestroyInstance(w: World, id: Id, env: DestroyEnv): (World, Reply) {
    var prepared := PrepareDestroy(w, id, env);
    if TerminationFails(w.host, id, env.ended) then (prepared, Refused(GuestUnreachable))
    else
      var cleaned := FinishDestroy(World(prepared.host, map[]), id, env);
      (World(cleaned.host, prepared.cache),
       if env.cleanup.GuestsRemain? then Refused(DestroyIncomplete) else Acted(Summary(id, None, Destroyed)))
  }

  // prune_instance: the same on a second manager, whose view is taken over when guests remain.
  function PruneOne(w: World, id: Id, env: DestroyEnv): World {
    var prepared := PrepareDestroy(w, id, env);
    if TerminationFails(w.host, id, env.ended) then prepared
    else
      var cleaned := FinishDestroy(World(prepared.host, map[]), id, env);
      if env.cleanup.GuestsRemain? then
        match Lookup(cleaned, id)
        case Some(m) => World(cleaned.host, prepared.cache[id := m])
        case None => World(cleaned.host, prepared.cache)
      else World(cleaned.host, prepared.cache)
  }

  // Whether a destroy or prune of the instance gets rid of its guest.
  predicate Rids(h: Host, id: Id, env: DestroyEnv) {
    !TerminationFails(h, id, env.ended) && !env.cleanup.GuestsRemain?
  }

  // Either prune: only instances last updated by the cutoff, or all of them.
  datatype Scope = UpTo(cutoff: nat) | Everything

  predicate Prunable(m: Metadata, scope: Scope) {
    m.state != Destroyed && !m.held && (scope.UpTo? ==> m.updatedAt <= scope.cutoff)
  }

  datatype PruneResult = PruneResult(world: World, pruned: nat, retained: nat)

  function PruneStep(r: PruneResult, scope: Scope, id: Id, env: DestroyEnv): PruneResult {
    match Lookup(r.world, id)
    case None => r
    case Some(m) =>
      if Prunable(m, scope) then
        var world := PruneOne(r.world, id, env);
        if Rids(r.world.host, id, env) then PruneResult(world, r.pruned + 1, r.retained)
        else PruneResult(world, r.pruned, r.retained + 1)
      else if scope.Everything? && m.state != Destroyed && m.held then r.(retained := r.retained + 1)
      else r
  }

  function Prune(w: World, scope: Scope, order: seq<Id>, outcome: Id -> DestroyEnv): PruneResult {
    if order == [] then PruneResult(w, 0, 0)
    else
      var id := order[|order| - 1];
      PruneStep(Prune(w, scope, order[..|order| - 1], outcome), scope, id, outcome(id))
  }

  function Cutoff(now: nat, maxAge: nat): nat {
    if now >= maxAge then now - maxAge else 0
  }

  function List(w: World): map<Id, Summary> {
    map id | id in w.host.dirs && Lookup(w, id).Some? && Lookup(w, id).value.state != Destroyed
      :: Summarise(id, Lookup(w, id).value)
  }

  function Handle(w: World, call: Call): (World, Reply) {
    match call
    case Create(purpose, now) => CreateInstance(w, purpose, now)
    case CreateStart(purpose, now, options, env) => CreateAndStart(w, purpose, now, options, env)
    case Start(id, options, env) => StartInstance(w, id, options, env)
    case Stop(id, env) => StopInstance(w, id, env)
    case Hold(id, now) => HoldInstance(w, id, now)
    case Destroy(id, env) => DestroyInstance(w, id, env)
    case Deploy(id, boot, initBoot, now) => DeployImages(w, id, boot, initBoot, now)
    case WaitAdb(id, env) => WaitForAdbReply(w, id, env)
    case PruneExpired(maxAge, now, order, outcome) =>
      var r := Prune(w, UpTo(Cutoff(now, maxAge)), order, outcome);
      (r.world, Pruned(r.pruned, r.retained))
    case PruneAll(order, outcome) =>
      var r := Prune(w, Everything, order, outcome);
      (r.world, Pruned(r.pruned, r.retained))
    case Status(id) =>
      (w, match Lookup(w, id) case Some(m) => Acted(Summarise(id, m)) case None => Refused(NoMetadata))
    case ListAll => (w, Listing(List(w)))
  }

  // The daemon gives every request a manager with an empty cache.
  function Serve(h: Host, call: Call): (Host, Reply) {
    var (w, reply) := Handle(World(h, map[]), call);
    (w.host, reply)
  }
}

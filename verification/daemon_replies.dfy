/** What the daemon answers: every reply, error and time stamp, request by request. */
module DaemonReplies {
  import opened Wrappers
  import opened Instances
  import opened DaemonPrune
  import opened DaemonRuns

  // A reply that is not an error names the instance, and its port and state as they are on disk.
  ghost predicate Tells(reply: Reply, k: Host, id: Id) {
    reply.Acted? ==>
      && id in k.disk && reply.summary.id == id
      && reply.summary.port == Some(k.disk[id].adbPort) && reply.summary.state == k.disk[id].state
  }

  // A create is refused exactly when all 99 directories exist. Otherwise it takes the first free slot
  // from the stored one on, or from the first when none or no slot is stored; stores the one after it,
  // going round; and writes a new instance with the default images.
  lemma CreateServed(h: Host, purpose: Option<string>, now: nat)
    requires Wired(h)
    ensures var (k, reply) := Serve(h, Create(purpose, now));
            && (reply.Refused? || reply.Acted?)
            && (reply.Refused? <==> forall id :: 1 <= id <= 99 ==> id in h.dirs)
            && (reply.Refused? ==> reply == Refused(NoSlot) && k == h)
            && (reply.Acted? ==>
                  var id := reply.summary.id;
                  var start := if h.cursor.Some? && 1 <= h.cursor.value <= 99 then h.cursor.value else 1;
                  && 1 <= id <= 99 && id !in h.dirs && Tells(reply, k, id)
                  && (forall x :: 1 <= x <= 99 && (x - start) % 99 < (id - start) % 99 ==> x in h.dirs)
                  && k == h.(
                       disk := h.disk[id := Metadata(
                         purpose, (h.config.baseAdbPort + id - 1) % 0x1_0000, Created,
                         External(h.config.bootImage), External(h.config.initBootImage), now, now, false)],
                       dirs := h.dirs + {id},
                       cursor := Some(id % 99 + 1)))
  {
    Allocator.AllocateMeaning(h.dirs, h.cursor);
    hide Allocator.Allocate;
    match Allocator.Allocate(h.dirs, h.cursor)
    case None =>
      hide Allocator.FirstFree;
    case Some(id) =>
      FirstRound(h.dirs, Allocator.StartSlot(h.cursor), id);
      hide Allocator.FirstFree, Wired;
      assert id % 0x1_0000 == id;
  }

  lemma FirstRound(taken: set<Id>, start: Id, id: Id)
    requires Allocator.Slot(start) && Allocator.FirstFree(taken, start, id)
    ensures 1 <= id <= 99 && id !in taken
    ensures forall x :: 1 <= x <= 99 && (x - start) % 99 < (id - start) % 99 ==> x in taken
  {
    forall x | 1 <= x <= 99 && (x - start) % 99 < (id - start) % 99
      ensures x in taken
    {
      assert Allocator.Distance(start, x) == (x - start) % 99 && Allocator.Distance(start, id) == (id - start) % 99;
    }
  }

  // What a start that is not refused answers, and when.
  function StartReply(options: StartOptions, env: StartEnv): Option<Error> {
    if !env.prepared then Some(PreparationFailed)
    else if !env.spawned then Some(SpawnFailed)
    else if options.skipAdbWait then None
    else
      match env.adb
      case PollFailed => Some(GuestUnreachable)
      case GuestExited => Some(ExitedEarly)
      case AdbTimeout => Some(AdbTimedOut)
      case AdbReady => if options.verifyBoot && !env.booted then Some(BootUnverified) else None
  }

  lemma WaitReplies(w: World, id: Id, env: WaitEnv)
    requires id in w.cache && id in w.host.disk && w.host.disk[id] == w.cache[id] && id in w.host.registry
    ensures var (v, reply) := WaitForAdbReply(w, id, env);
            && id in v.cache && id in v.host.disk && v.host.disk[id] == v.cache[id] && v.host.cursor == w.host.cursor
            && (match env.adb
                case PollFailed => v == w && reply == Refused(GuestUnreachable)
                case GuestExited => v.cache[id] == w.cache[id].(state := Failed, updatedAt := env.now) && reply == Refused(ExitedEarly)
                case AdbTimeout => v.cache[id] == w.cache[id].(state := Failed, updatedAt := env.now) && reply == Refused(AdbTimedOut)
                case AdbReady =>
                  && v.cache[id] == w.cache[id].(state := Running, updatedAt := env.now)
                  && reply == Acted(Summary(id, Some(w.cache[id].adbPort), Running)))
  {
  }

  lemma TerminateTouchesRegistry(h: Host, id: Id, ended: bool)
    ensures TerminateGuest(h, id, ended) == h.(registry := TerminateGuest(h, id, ended).registry)
  {
  }

  lemma AwaitReplies(w: World, id: Id, options: StartOptions, env: StartEnv, g: Generation)
    requires id in w.cache && id in w.host.disk && w.host.disk[id] == w.cache[id] && id in w.host.registry
    requires env.prepared && env.spawned && !(options.skipAdbWait && options.verifyBoot)
    ensures var (v, reply) := AwaitGuest(w, id, options, env, g);
            && id in v.host.disk && v.host.cursor == w.host.cursor
            && v.host.disk[id].updatedAt == (if !options.skipAdbWait && env.adb.PollFailed? then w.cache[id].updatedAt else env.end)
            && reply == (match StartReply(options, env)
                         case Some(error) => Refused(error)
                         case None => Acted(Summary(id, Some(w.cache[id].adbPort), Running)))
  {
    if !options.skipAdbWait {
      var wait := WaitEnv(env.adb, env.ended, env.end);
      WaitReplies(w, id, wait);
      TerminateTouchesRegistry(WaitForAdbReply(w, id, wait).0.host, id, env.endedAfter);
      hide WaitForAdbReply, TerminateGuest;
    }
  }

  // A start is refused for its options, for a registered guest or for want of metadata, in this order,
  // with nothing changed. Otherwise it answers what StartReply says, and the metadata carries the time
  // of the last write: the beginning for a start that goes no further than that, the end for all others.
  lemma StartServed(h: Host, id: Id, options: StartOptions, env: StartEnv)
    requires Wired(h)
    ensures var (k, reply) := Serve(h, Start(id, options, env));
            && k.cursor == h.cursor && Tells(reply, k, id)
            && (if options.skipAdbWait && options.verifyBoot then k == h && reply == Refused(InvalidOptions)
                else if id in h.registry then k == h && reply == Refused(AlreadyRunning)
                else if id !in h.disk then k == h && reply == Refused(NoMetadata)
                else
                  && id in k.disk
                  && k.disk[id] == h.disk[id].(
                       state := StartState(options, env),
                       updatedAt := if !env.prepared || (env.spawned && !options.skipAdbWait && env.adb.PollFailed?)
                                    then env.begin else env.end)
                  && (match StartReply(options, env)
                      case Some(error) => reply == Refused(error)
                      case None => reply.Acted? && k.disk[id].state == Running))
  {
    StartSettles(h, id, options, env);
    if !StartRefused(h, id, options) {
      var w1 := Save(Bare(h), id, InState(h.disk[id], Starting, env.begin));
      if env.prepared && env.spawned {
        AwaitReplies(w1.(host := Register(w1.host, id)), id, options, env, w1.host.nextGeneration);
      }
      hide AwaitGuest, Local, Wired;
    } else {
      hide AwaitGuest, Local, Wired;
    }
  }

  // Create and start in one request: a refused create is the whole answer, and a start by the daemon's
  // next request would have done and answered the same.
  lemma CreateStartServed(h: Host, purpose: Option<string>, now: nat, options: StartOptions, env: StartEnv)
    requires Wired(h)
    ensures var (k, reply) := Serve(h, Create(purpose, now));
            Serve(h, CreateStart(purpose, now, options, env))
            == if reply.Refused? then (k, reply) else Serve(k, Start(reply.summary.id, options, env))
  {
    CreateServed(h, purpose, now);
    var (created, reply) := CreateInstance(Bare(h), purpose, now);
    if reply.Acted? {
      assert DaemonCache.Alike(Bare(h), Bare(h));
      DaemonCache.CreateSame(Bare(h), Bare(h), purpose, now);
      hide CreateInstance, StartInstance;
      assert DaemonCache.Alike(created, Bare(created.host));
      DaemonCache.StartSame(created, Bare(created.host), reply.summary.id, options, env);
    }
  }

  // A stop fails for want of metadata, or when the guest's end cannot be seen, with nothing changed.
  // Otherwise it answers what it wrote: Stopped unless the guest's exit was seen and was not a plain
  // zero, or processes are left.
  lemma StopServed(h: Host, id: Id, env: StopEnv)
    requires Wired(h)
    ensures var (k, reply) := Serve(h, Stop(id, env));
            && k.cursor == h.cursor && Tells(reply, k, id)
            && (if id !in h.disk then k == h && reply == Refused(NoMetadata)
                else if id in h.registry && !env.ended then k == h && reply == Refused(GuestUnreachable)
                else
                  && reply.Acted? && id !in k.registry
                  && k.disk[id] == h.disk[id].(
                       state := if env.killed && (id in h.registry && env.exit.Some? ==>
                                                    env.exit.value.code == Some(0) && env.exit.value.signal == None)
                                then Stopped else Failed,
                       updatedAt := if env.killed then env.now else env.later))
  {
    TerminateTouchesRegistry(h, id, env.ended);
  }

  lemma HoldServed(h: Host, id: Id, now: nat)
    requires Wired(h)
    ensures var (k, reply) := Serve(h, Hold(id, now));
            && k.cursor == h.cursor && Tells(reply, k, id)
            && (if id !in h.disk then k == h && reply == Refused(NoMetadata)
                else reply.Acted? && id in k.disk && k.disk[id] == h.disk[id].(held := true, updatedAt := now))
  {
  }

  lemma WaitServed(h: Host, id: Id, env: WaitEnv)
    requires Wired(h)
    ensures var (k, reply) := Serve(h, WaitAdb(id, env));
            && k.cursor == h.cursor && Tells(reply, k, id)
            && (if id !in h.disk then k == h && reply == Refused(NoMetadata)
                else if id !in h.registry then
                  && reply == Refused(HandleLost)
                  && id in k.disk && k.disk[id] == h.disk[id].(state := Failed, updatedAt := env.now)
                else
                  id in k.disk &&
                  match env.adb
                  case PollFailed => k == h && reply == Refused(GuestUnreachable)
                  case GuestExited =>
                    reply == Refused(ExitedEarly) && k.disk[id] == h.disk[id].(state := Failed, updatedAt := env.now)
                  case AdbTimeout =>
                    reply == Refused(AdbTimedOut) && k.disk[id] == h.disk[id].(state := Failed, updatedAt := env.now)
                  case AdbReady => reply.Acted? && k.disk[id] == h.disk[id].(state := Running, updatedAt := env.now))
  {
    TerminateTouchesRegistry(h, id, env.ended);
  }

  lemma DestroyParts(h: Host, id: Id, env: DestroyEnv)
    ensures var prepared := PrepareDestroy(Bare(h), id, env).host;
            Serve(h, Destroy(id, env))
            == if id in h.registry && !env.ended then (prepared, Refused(GuestUnreachable))
               else (FinishDestroy(World(prepared, map[]), id, env).host,
                     if env.cleanup.GuestsRemain? then Refused(DestroyIncomplete) else Acted(Summary(id, None, Destroyed)))
  {
    hide PrepareDestroy, FinishDestroy;
  }

  lemma PreparedHost(h: Host, id: Id, env: DestroyEnv)
    requires Wired(h)
    ensures var k := PrepareDestroy(Bare(h), id, env).host;
            && k.dirs == h.dirs && k.artifacts == h.artifacts && k.cursor == h.cursor && k.config == h.config
            && (id in k.disk <==> id in h.disk)
            && (id in h.disk ==>
                  k.disk[id] == h.disk[id].(state := Destroyed, updatedAt := env.now,
                                            createdAt := if h.disk[id].createdAt == 0 then env.now else h.disk[id].createdAt))
  {
    assert id in h.disk ==> h.dirs + {id} == h.dirs;
    hide Wired;
  }

  lemma FinishedHost(h: Host, id: Id, env: DestroyEnv)
    ensures var k := FinishDestroy(World(h, map[]), id, env).host;
            && k.cursor == h.cursor
            && (id in k.dirs <==> env.cleanup.GuestsRemain? || (id in h.dirs && !env.cleanup.FilesRemoved?))
            && (id in k.disk <==> env.cleanup.GuestsRemain? || (id in h.disk && env.cleanup.FilesKept?))
            && ArtifactsOf(k, id) == (if env.cleanup.FilesRemoved? then Artifacts(None, None) else ArtifactsOf(h, id))
            && (id in k.disk ==>
                  if !env.cleanup.GuestsRemain? then k.disk[id] == h.disk[id]
                  else if id in h.disk then
                    k.disk[id] == h.disk[id].(state := Failed, updatedAt := env.later,
                                              createdAt := if h.disk[id].createdAt == 0 then env.later else h.disk[id].createdAt)
                  else
                    k.disk[id] == Metadata(
                      None, (h.config.baseAdbPort + id % 0x1_0000 - 1) % 0x1_0000, Failed,
                      External(h.config.bootImage), External(h.config.initBootImage), env.later, env.later, false))
  {
  }

  // A destroy succeeds exactly when the guest's end can be seen and no process is left, also for an
  // instance that does not exist. What it leaves of the metadata: the mark, or Failed, dated by the
  // write and with a creation time where there was none; for an unknown instance with processes left,
  // a Failed one with the defaults.
  lemma DestroyServed(h: Host, id: Id, env: DestroyEnv)
    requires Wired(h)
    ensures var (k, reply) := Serve(h, Destroy(id, env));
            var unseen := id in h.registry && !env.ended;
            && k.cursor == h.cursor
            && reply == (if unseen then Refused(GuestUnreachable)
                         else if env.cleanup.GuestsRemain? then Refused(DestroyIncomplete)
                         else Acted(Summary(id, None, Destroyed)))
            && (id in k.dirs <==> (!unseen && env.cleanup.GuestsRemain?) || (id in h.dirs && (unseen || !env.cleanup.FilesRemoved?)))
            && (id in k.disk <==> (!unseen && env.cleanup.GuestsRemain?) || (id in h.disk && (unseen || env.cleanup.FilesKept?)))
            && ArtifactsOf(k, id) == (if !unseen && env.cleanup.FilesRemoved? then Artifacts(None, None) else ArtifactsOf(h, id))
            && (id in k.disk ==>
                  if id !in h.disk then
                    k.disk[id] == Metadata(
                      None, (h.config.baseAdbPort + id % 0x1_0000 - 1) % 0x1_0000, Failed,
                      External(h.config.bootImage), External(h.config.initBootImage), env.later, env.later, false)
                  else
                    var born := if h.disk[id].createdAt == 0 then env.now else h.disk[id].createdAt;
                    k.disk[id] == if !unseen && env.cleanup.GuestsRemain?
                                  then h.disk[id].(state := Failed, updatedAt := env.later, createdAt := if born == 0 then env.later else born)
                                  else h.disk[id].(state := Destroyed, updatedAt := env.now, createdAt := born))
  {
    PreparedHost(h, id, env);
    FinishedHost(PrepareDestroy(Bare(h), id, env).host, id, env);
    DestroyParts(h, id, env);
    hide PrepareDestroy, FinishDestroy, Wired, Serve, DestroyInstance;
  }

  // A status is refused exactly when there is no metadata, and nothing is changed.
  lemma StatusServed(h: Host, id: Id)
    ensures var (k, reply) := Serve(h, Status(id));
            && k == h && Tells(reply, k, id)
            && (if id in h.disk then reply.Acted? else reply == Refused(NoMetadata))
  {
  }

  // The list has exactly the instances whose directory exists and whose metadata is not Destroyed, held
  // or not, each with its id, port and state.
  lemma ListServed(h: Host)
    ensures var (k, reply) := Serve(h, ListAll);
            && k == h && reply.Listing?
            && (forall id :: id in reply.instances <==> id in h.dirs && id in h.disk && h.disk[id].state != Destroyed)
            && (forall id :: id in reply.instances ==>
                  && reply.instances[id].id == id && reply.instances[id].port == Some(h.disk[id].adbPort)
                  && reply.instances[id].state == h.disk[id].state)
  {
  }

  // What a copy, if one is made, leaves in its target: the new content, or when it fails whatever it
  // got to, which may be nothing.
  function Put(copy: Option<Copy>, before: Option<bytes>): Option<bytes> {
    match copy
    case None => before
    case Some(Copied(content)) => Some(content)
    case Some(CopyFails(None)) => before
    case Some(CopyFails(Some(part))) => Some(part)
  }

  // A deploy that is refused for want of metadata changes nothing; a failing copy says so, and the
  // init_boot image is not touched after a failing boot image. A successful one changes the images
  // given and the time alone.
  lemma DeployServed(h: Host, id: Id, boot: Option<Copy>, initBoot: Option<Copy>, now: nat)
    ensures var (k, reply) := Serve(h, Deploy(id, boot, initBoot, now));
            var fails := boot.Some? && boot.value.CopyFails?;
            && k.cursor == h.cursor
            && reply == (if id !in h.disk then Refused(NoMetadata)
                         else if fails || (initBoot.Some? && initBoot.value.CopyFails?) then Refused(CopyFailed)
                         else Updated)
            && (id !in h.disk ==> k == h)
            && (id in h.disk ==>
                  ArtifactsOf(k, id) == Artifacts(Put(boot, ArtifactsOf(h, id).boot),
                                                  if fails then ArtifactsOf(h, id).initBoot
                                                  else Put(initBoot, ArtifactsOf(h, id).initBoot)))
            && (reply == Updated ==>
                  id in k.disk && k.disk[id] == h.disk[id].(
                    bootImage := if boot.Some? then Artifact else h.disk[id].bootImage,
                    initBootImage := if initBoot.Some? then Artifact else h.disk[id].initBootImage,
                    updatedAt := now))
  {
  }
}

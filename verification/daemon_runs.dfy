/** Runs of the daemon: requests, one at a time, interleaved with the four steps of each exit watcher. */
module DaemonRuns {
  import opened Wrappers
  import opened GuestHandle
  import opened BootPoll
  import opened Instances
  import opened DaemonPrune

  // A watcher's wait returns, or fails, and it compares its handle with the registered one; it
  // removes what is registered; later it reads the metadata, and later still writes it back.
  datatype Event =
    | Request(call: Call)
    | Waited(g: Generation, outcome: Option<ExitStatus>)
    | HandleRemoved(g: Generation)
    | ExitRead(g: Generation, now: nat)
    | ExitWritten(g: Generation)

  ghost predicate Enabled(h: Host, e: Event) {
    match e
    case Request(PruneExpired(_, _, order, _)) => Lists(order, h.dirs)
    case Request(PruneAll(order, _)) => Lists(order, h.dirs)
    case Request(_) => true
    case Waited(g, _) => g in h.watchers && h.watchers[g].Blocked?
    case HandleRemoved(g) => g in h.watchers && h.watchers[g].Matched?
    case ExitRead(g, _) => g in h.watchers && h.watchers[g].Reported?
    case ExitWritten(g) => g in h.watchers && h.watchers[g].Loaded?
  }

  function Step(h: Host, e: Event): Host {
    match e
    case Request(call) => Serve(h, call).0
    case Waited(g, outcome) => WaitReturns(h, g, outcome)
    case HandleRemoved(g) => RemoveMatched(h, g)
    case ExitRead(g, now) => ReadExit(h, g, now)
    case ExitWritten(g) => WriteExit(h, g)
  }

  ghost predicate Possible(h: Host, events: seq<Event>)
    decreases |events|
  {
    events == [] || (Enabled(h, events[0]) && Possible(Step(h, events[0]), events[1..]))
  }

  function After(h: Host, events: seq<Event>): Host
    decreases |events|
  {
    if events == [] then h else After(Step(h, events[0]), events[1..])
  }

  // A daemon started over an empty state directory.
  function NewHost(c: Config): Host {
    Host(c, map[], {}, map[], None, map[], 0, map[])
  }

  /* ---------- what a request does to one instance, and that it leaves the others alone ---------- */

  // Generations are handed out in order, metadata lies in directories, and what watchers are about to
  // write says that a guest has ended.
  ghost predicate Wired(h: Host) {
    && Housed(h)
    && (forall g :: g in h.watchers ==> g < h.nextGeneration)
    && (forall id :: id in h.registry ==> h.registry[id] < h.nextGeneration)
    && (forall g :: g in h.watchers && h.watchers[g].Loaded? ==>
          h.watchers[g].copy.state == Stopped || h.watchers[g].copy.state == Failed)
  }

  ghost predicate SameAt(h: Host, k: Host, id: Id) {
    && (id in k.disk <==> id in h.disk) && (id in h.disk ==> k.disk[id] == h.disk[id])
    && (id in k.dirs <==> id in h.dirs) && ArtifactsOf(k, id) == ArtifactsOf(h, id)
    && (id in k.registry <==> id in h.registry) && (id in h.registry ==> k.registry[id] == h.registry[id])
  }

  // Only `id` is touched, and the only new watchers are blocked ones of new generations.
  ghost predicate Local(h: Host, k: Host, id: Id) {
    && Wired(k) && k.config == h.config && k.nextGeneration >= h.nextGeneration
    && (forall j :: j != id ==> SameAt(h, k, j))
    && (forall g :: g in h.watchers ==> g in k.watchers && k.watchers[g] == h.watchers[g])
    && (forall g :: g in k.watchers && g !in h.watchers ==> k.watchers[g] == Blocked(id))
  }

  // Ports and purposes stay; a hold is not taken back.
  ghost predicate Evolves(m: Metadata, n: Metadata) {
    n.adbPort == m.adbPort && n.purpose == m.purpose && (m.held ==> n.held)
  }

  // The metadata at id, if any, comes from what was there or is new with the port of the id.
  ghost predicate Descends(h: Host, k: Host, id: Id) {
    id in k.disk ==>
      if id in h.disk then Evolves(h.disk[id], k.disk[id]) else k.disk[id].adbPort == Port(h.config, id)
  }

  function Bare(h: Host): World {
    World(h, map[])
  }

  predicate StartRefused(h: Host, id: Id, options: StartOptions) {
    (options.skipAdbWait && options.verifyBoot) || id in h.registry || id !in h.disk
  }

  lemma LocalTransitive(h: Host, k: Host, l: Host, id: Id)
    requires Local(h, k, id) && Local(k, l, id)
    ensures Local(h, l, id)
  {
    hide Wired;
    forall j | j != id
      ensures SameAt(h, l, j)
    {
      assert SameAt(h, k, j) && SameAt(k, l, j);
    }
  }

  lemma SaveLocal(w: World, id: Id, m: Metadata)
    requires Wired(w.host)
    ensures Local(w.host, Save(w, id, m).host, id)
  {
  }

  // What a start that was not refused leaves behind.
  function StartState(options: StartOptions, env: StartEnv): InstanceState {
    if !env.prepared then Starting
    else if !env.spawned then Failed
    else if options.skipAdbWait || env.adb.AdbReady? then Running
    else if env.adb.PollFailed? then Starting
    else Failed
  }

  predicate StaysRegistered(options: StartOptions, env: StartEnv) {
    env.prepared && env.spawned &&
    (options.skipAdbWait ||
     match env.adb
     case AdbReady => true
     case GuestExited => false
     case AdbTimeout => !env.ended && !env.endedAfter
     case PollFailed => !env.endedAfter)
  }

  predicate Verified(options: StartOptions, env: StartEnv) {
    options.verifyBoot ==> env.booted
  }

  // The wait of a start, whose guest is registered as generation g.
  lemma WaitInStart(w: World, id: Id, env: WaitEnv, g: Generation)
    requires Wired(w.host) && id in w.cache && id in w.host.disk && w.host.disk[id] == w.cache[id]
    requires id in w.host.registry && w.host.registry[id] == g
    ensures var (v, reply) := WaitForAdbReply(w, id, env);
            var state := if env.adb.PollFailed? then w.cache[id].state else if env.adb.AdbReady? then Running else Failed;
            && Local(w.host, v.host, id) && v.host.watchers == w.host.watchers && id in v.host.disk
            && v.host.disk[id] == w.cache[id].(state := state, updatedAt := v.host.disk[id].updatedAt)
            && (id in v.host.registry
                <==> env.adb.AdbReady? || env.adb.PollFailed? || (env.adb.AdbTimeout? && !env.ended))
            && (id in v.host.registry ==> v.host.registry[id] == g)
            && (reply.Acted? <==> env.adb.AdbReady?)
  {
  }

  lemma TerminateLocal(h: Host, id: Id, ended: bool)
    requires Wired(h)
    ensures var k := TerminateGuest(h, id, ended);
            && Local(h, k, id) && k.disk == h.disk && k.watchers == h.watchers
            && (id in k.registry <==> TerminationFails(h, id, ended))
            && (id in k.registry ==> k.registry == h.registry)
  {
  }

  lemma WatcherLocal(h: Host, id: Id, g: Generation)
    requires Wired(h) && g !in h.watchers && g < h.nextGeneration
    ensures Local(h, SpawnWatcher(h, id, g), id)
  {
  }

  // From the registered guest of generation g on.
  lemma AwaitSettles(w: World, id: Id, options: StartOptions, env: StartEnv, g: Generation)
    requires Wired(w.host) && id in w.cache && id in w.host.disk && w.host.disk[id] == w.cache[id]
    requires w.cache[id].state == Starting && env.prepared && env.spawned && !(options.skipAdbWait && options.verifyBoot)
    requires id in w.host.registry && w.host.registry[id] == g
    requires g !in w.host.watchers && g < w.host.nextGeneration
    ensures var (v, reply) := AwaitGuest(w, id, options, env, g);
            && Local(w.host, v.host, id) && id in v.host.disk
            && v.host.disk[id] == w.cache[id].(state := StartState(options, env), updatedAt := v.host.disk[id].updatedAt)
            && (id in v.host.registry <==> StaysRegistered(options, env))
            && (id in v.host.registry ==> v.host.registry[id] == g)
            && (reply.Acted? <==> StartState(options, env).Running? && Verified(options, env))
            && (reply.Acted? <==> g in v.host.watchers)
  {
    if options.skipAdbWait {
      var running := InState(w.cache[id], Running, env.end);
      SaveLocal(w, id, running);
      WatcherLocal(Save(w, id, running).host, id, g);
      LocalTransitive(w.host, Save(w, id, running).host, SpawnWatcher(Save(w, id, running).host, id, g), id);
      hide Local, Wired;
    } else {
      hide WaitForAdbReply, Local;
      var wait := WaitEnv(env.adb, env.ended, env.end);
      WaitInStart(w, id, wait, g);
      var v := WaitForAdbReply(w, id, wait).0.host;
      assert Wired(v) && g < v.nextGeneration by { LocalMeans(w.host, v, id); }
      hide Wired;
      TerminateLocal(v, id, env.endedAfter);
      WatcherLocal(v, id, g);
      LocalTransitive(w.host, v, TerminateGuest(v, id, env.endedAfter), id);
      LocalTransitive(w.host, v, SpawnWatcher(v, id, g), id);
      hide TerminateGuest;
    }
  }

  lemma LocalMeans(h: Host, k: Host, id: Id)
    requires Local(h, k, id)
    ensures Wired(k) && k.nextGeneration >= h.nextGeneration
  {
  }

  // Start settles: refused without a change, or Running and registered, or Failed and unregistered,
  // unless its preparation fails or a poll or termination of the guest does. A boot that is not
  // verified is Running, registered and without a watcher.
  lemma StartSettles(h: Host, id: Id, options: StartOptions, env: StartEnv)
    requires Wired(h)
    ensures var (w, reply) := StartInstance(Bare(h), id, options, env);
            var k := w.host;
            if StartRefused(h, id, options) then k == h && reply.Refused?
            else
              && Local(h, k, id) && id in k.disk
              && k.disk[id] == h.disk[id].(state := StartState(options, env), updatedAt := k.disk[id].updatedAt)
              && (id in k.registry <==> StaysRegistered(options, env))
              && (id in k.registry ==> k.registry[id] == h.nextGeneration)
              && (reply.Acted? <==> StartState(options, env).Running? && Verified(options, env))
              && (reply.Acted? <==> h.nextGeneration in k.watchers)
  {
    if !StartRefused(h, id, options) {
      var starting := InState(h.disk[id], Starting, env.begin);
      var w1 := Save(Bare(h), id, starting);
      SaveLocal(Bare(h), id, starting);
      SaveLocal(w1, id, InState(starting, Failed, env.end));
      LocalTransitive(h, w1.host, Save(w1, id, InState(starting, Failed, env.end)).host, id);
      if env.prepared && env.spawned {
        var w2 := w1.(host := Register(w1.host, id));
        assert Local(h, w2.host, id);
        hide AwaitGuest, Local, Wired;
        AwaitSettlesAfter(h, w2, id, options, env);
      } else {
        hide AwaitGuest, Local, Wired;
      }
    }
  }

  lemma AwaitSettlesAfter(h: Host, w: World, id: Id, options: StartOptions, env: StartEnv)
    requires Local(h, w.host, id) && id in w.cache && id in w.host.disk && w.host.disk[id] == w.cache[id]
    requires w.cache[id].state == Starting && env.prepared && env.spawned && !(options.skipAdbWait && options.verifyBoot)
    requires id in w.host.registry && w.host.registry[id] == h.nextGeneration
    requires h.nextGeneration !in w.host.watchers && h.nextGeneration < w.host.nextGeneration
    ensures var (v, reply) := AwaitGuest(w, id, options, env, h.nextGeneration);
            && Local(h, v.host, id) && id in v.host.disk
            && v.host.disk[id] == w.cache[id].(state := StartState(options, env), updatedAt := v.host.disk[id].updatedAt)
            && (id in v.host.registry <==> StaysRegistered(options, env))
            && (id in v.host.registry ==> v.host.registry[id] == h.nextGeneration)
            && (reply.Acted? <==> StartState(options, env).Running? && Verified(options, env))
            && (reply.Acted? <==> h.nextGeneration in v.host.watchers)
  {
    hide AwaitGuest;
    AwaitSettles(w, id, options, env, h.nextGeneration);
    LocalTransitive(h, w.host, AwaitGuest(w, id, options, env, h.nextGeneration).0.host, id);
  }

  // The same from the polls themselves: a start whose guest is spawned ends Running exactly when the
  // deciding adb round answers, reports success exactly when the deciding boot round confirms too,
  // and has polled at most timeout + 1 and 2 * timeout + 1 times.
  lemma StartFromPolls(h: Host, id: Id, verifyBoot: bool, env: StartEnv, p: Polls, timeoutSecs: nat,
                       rounds: nat, bootRounds: nat)
    requires Wired(h) && Timely(p) && !StartRefused(h, id, StartOptions(false, verifyBoot)) && env.prepared && env.spawned
    requires AdbEnds(p, timeoutSecs, env.adb, rounds)
    requires verifyBoot && env.adb.AdbReady? ==> BootEnds(p, timeoutSecs, env.booted, bootRounds)
    ensures 1 <= rounds <= timeoutSecs + 1
    ensures verifyBoot && env.adb.AdbReady? ==> 1 <= bootRounds <= 2 * BootTimeout(Some(BootSecs(p, timeoutSecs))) + 1
    ensures var (k, reply) := Serve(h, Start(id, StartOptions(false, verifyBoot), env));
            var last := p.adb(rounds - 1);
            && id in k.disk
            && (k.disk[id].state == Running <==> last.poll.StillAlive? && last.connects && last.devices.Listed?)
            && (k.disk[id].state == Starting <==> last.poll.PollFails?)
            && (k.disk[id].state == Failed <==>
                  last.poll.Gone? || (last.poll.StillAlive? && !(last.connects && last.devices.Listed?)))
            && (k.disk[id].state == Running ==> id in k.registry)
            && (last.poll.Gone? ==> id !in k.registry)
            && (env.endedAfter && k.disk[id].state != Running ==> id !in k.registry)
            && (reply.Acted? <==>
                  k.disk[id].state == Running
                  && (verifyBoot ==>
                        var sure := p.boot(bootRounds - 1);
                        sure.connects && sure.devices.Listed?
                        && (sure.booted == Some(true) || sure.consoleMarker || sure.runLogMarker)))
            && (reply == Refused(AdbTimedOut) ==> p.adbClock(rounds - 1) >= AdbDeadline(p, timeoutSecs))
  {
    AdbDeadlineWithin(p, timeoutSecs);
    StartSettles(h, id, StartOptions(false, verifyBoot), env);
    TimedOutReply(h, id, verifyBoot, env);
    hide StartInstance, Local, Wired;
  }

  lemma TimedOutReply(h: Host, id: Id, verifyBoot: bool, env: StartEnv)
    requires Wired(h) && !StartRefused(h, id, StartOptions(false, verifyBoot)) && env.prepared && env.spawned
    ensures StartInstance(Bare(h), id, StartOptions(false, verifyBoot), env).1 == Refused(AdbTimedOut) ==> env.adb.AdbTimeout?
  {
  }

  // A guest that answers in the first round is Running, whatever later rounds would have said.
  lemma AnswerAtOnce(h: Host, id: Id, env: StartEnv, p: Polls, timeoutSecs: nat, rounds: nat)
    requires Wired(h) && Timely(p) && !StartRefused(h, id, StartOptions(false, false)) && env.prepared && env.spawned
    requires AdbEnds(p, timeoutSecs, env.adb, rounds)
    requires p.adb(0).poll.StillAlive? && p.adb(0).connects && p.adb(0).devices.Listed?
    ensures rounds == 1 && Serve(h, Start(id, StartOptions(false, false), env)).1.Acted?
    ensures var k := Serve(h, Start(id, StartOptions(false, false), env)).0;
            id in k.disk && k.disk[id].state == Running && id in k.registry && k.registry[id] in k.watchers
  {
    assert !GoesOn(AdbSecs(p, timeoutSecs), p.adbStart, p.adb, p.adbClock, 0);
    StartSettles(h, id, StartOptions(false, false), env);
    hide StartInstance, Local, Wired;
  }

  lemma WaitSettles(h: Host, id: Id, env: WaitEnv)
    requires Wired(h)
    ensures var (w, reply) := WaitForAdbReply(Bare(h), id, env);
            var k := w.host;
            if id !in h.disk || (id in h.registry && env.adb.PollFailed?) then k == h && reply.Refused?
            else
              && Local(h, k, id) && id in k.disk
              && k.disk[id] == InState(h.disk[id], if id in h.registry && env.adb.AdbReady? then Running else Failed, env.now)
              && (id in k.registry <==> id in h.registry && (env.adb.AdbReady? || (env.adb.AdbTimeout? && !env.ended)))
              && (id in k.registry ==> k.registry == h.registry)
              && (reply.Acted? <==> k.disk[id].state == Running)
  {
  }

  lemma StopSettles(h: Host, id: Id, env: StopEnv)
    requires Wired(h)
    ensures var (w, reply) := StopInstance(Bare(h), id, env);
            var k := w.host;
            if id !in h.disk || TerminationFails(h, id, env.ended) then k == h && reply.Refused?
            else
              && Local(h, k, id) && id in k.disk && id !in k.registry
              && k.disk[id] == h.disk[id].(state := k.disk[id].state, updatedAt := k.disk[id].updatedAt)
              && (k.disk[id].state == Stopped
                  <==> env.killed && (id in h.registry && env.exit.Some? ==> ExitedCleanly(env.exit.value)))
              && (k.disk[id].state == Stopped || k.disk[id].state == Failed)
  {
    if id in h.disk && !TerminationFails(h, id, env.ended) {
      var exit := if id in h.registry then env.exit else None;
      var state := if exit.None? || ExitedCleanly(exit.value) then Stopped else Failed;
      var ended := TerminateGuest(h, id, env.ended);
      TerminateLocal(h, id, env.ended);
      hide TerminateGuest;
      var stopped := InState(h.disk[id], state, env.now);
      SavedTwice(h, ended, id, stopped, InState(stopped, Failed, env.later));
      hide Local, Wired, Save;
      StopEnds(h, id, env);
    }
  }

  lemma SaveWorld(w: World, id: Id, m: Metadata)
    ensures var k := Save(w, id, m).host;
            id in k.disk && k.disk[id] == m && k.registry == w.host.registry && k.watchers == w.host.watchers
  {
  }

  // One or two saves on top of a local change.
  lemma SavedTwice(h: Host, k: Host, id: Id, first: Metadata, second: Metadata)
    requires Local(h, k, id)
    ensures var w1 := Save(Bare(k), id, first);
            var w2 := Save(w1, id, second);
            && Local(h, w1.host, id) && Local(h, w2.host, id)
            && id in w1.host.disk && w1.host.disk[id] == first && w1.host.registry == k.registry && w1.host.watchers == k.watchers
            && id in w2.host.disk && w2.host.disk[id] == second && w2.host.registry == k.registry && w2.host.watchers == k.watchers
  {
    LocalMeans(h, k, id);
    hide Wired;
    var w1 := Save(Bare(k), id, first);
    var w2 := Save(w1, id, second);
    SaveLocal(Bare(k), id, first);
    LocalTransitive(h, k, w1.host, id);
    LocalMeans(h, w1.host, id);
    SaveLocal(w1, id, second);
    LocalTransitive(h, w1.host, w2.host, id);
    SaveWorld(Bare(k), id, first);
    SaveWorld(w1, id, second);
    hide Save, Local;
  }

  lemma StopEnds(h: Host, id: Id, env: StopEnv)
    requires id in h.disk && !TerminationFails(h, id, env.ended)
    ensures var exit := if id in h.registry then env.exit else None;
            var state := if exit.None? || ExitedCleanly(exit.value) then Stopped else Failed;
            var stopped := InState(h.disk[id], state, env.now);
            var w1 := Save(Bare(TerminateGuest(h, id, env.ended)), id, stopped);
            StopInstance(Bare(h), id, env)
            == if env.killed then (w1, Acted(Summarise(id, stopped)))
               else (Save(w1, id, InState(stopped, Failed, env.later)), Acted(Summarise(id, InState(stopped, Failed, env.later))))
  {
    hide Save, TerminateGuest, InState, ExitedCleanly;
  }

  lemma HoldSettles(h: Host, id: Id, now: nat)
    requires Wired(h)
    ensures var (w, reply) := HoldInstance(Bare(h), id, now);
            var k := w.host;
            if id !in h.disk then k == h && reply.Refused?
            else
              && reply.Acted? && Local(h, k, id) && id in k.disk && k.registry == h.registry
              && k.disk[id] == h.disk[id].(held := true, updatedAt := now)
  {
  }

  lemma DeploySettles(h: Host, id: Id, boot: Option<Copy>, initBoot: Option<Copy>, now: nat)
    requires Wired(h)
    ensures var (w, reply) := DeployImages(Bare(h), id, boot, initBoot, now);
            var k := w.host;
            if id !in h.disk then k == h && reply.Refused?
            else
              && Local(h, k, id) && id in k.disk && k.registry == h.registry && k.watchers == h.watchers
              && k.disk[id].state == h.disk[id].state && Evolves(h.disk[id], k.disk[id])
              && (reply.Refused? ==> k == h.(artifacts := k.artifacts))
  {
    if id in h.disk {
      var h1 := PutBoot(h, id, boot);
      var h2 := PutInitBoot(h1, id, initBoot);
      PutLocal(h, id, boot, initBoot);
      var m := h.disk[id];
      var n := m.(bootImage := if boot.Some? then Artifact else m.bootImage,
                  initBootImage := if initBoot.Some? then Artifact else m.initBootImage,
                  updatedAt := now);
      SavedTwice(h, h2, id, n, n);
      hide Local, Wired, Save, PutBoot, PutInitBoot, Fails;
      DeployEnds(h, id, boot, initBoot, now);
    }
  }

  lemma PutLocal(h: Host, id: Id, boot: Option<Copy>, initBoot: Option<Copy>)
    requires Wired(h)
    ensures var h1 := PutBoot(h, id, boot);
            var h2 := PutInitBoot(h1, id, initBoot);
            && Local(h, h1, id) && Local(h, h2, id)
            && h1 == h.(artifacts := h1.artifacts) && h2 == h.(artifacts := h2.artifacts)
  {
    hide AfterCopy;
  }

  lemma DeployEnds(h: Host, id: Id, boot: Option<Copy>, initBoot: Option<Copy>, now: nat)
    requires id in h.disk
    ensures var h1 := PutBoot(h, id, boot);
            var h2 := PutInitBoot(h1, id, initBoot);
            var m := h.disk[id];
            DeployImages(Bare(h), id, boot, initBoot, now)
            == if Fails(boot) then (Bare(h1), Refused(CopyFailed))
               else if Fails(initBoot) then (Bare(h2), Refused(CopyFailed))
               else (Save(Bare(h2), id, m.(bootImage := if boot.Some? then Artifact else m.bootImage,
                                           initBootImage := if initBoot.Some? then Artifact else m.initBootImage,
                                           updatedAt := now)), Updated)
  {
    hide PutBoot, PutInitBoot, Fails, Save;
  }

  // What an instance would boot: a file elsewhere, or the content of its own artifact.
  datatype Booted = ByPath(path: string) | ByContent(content: Option<bytes>)

  function BootInEffect(h: Host, id: Id): Booted
    requires id in h.disk
  {
    match h.disk[id].bootImage
    case External(path) => ByPath(path)
    case Artifact => ByContent(ArtifactsOf(h, id).boot)
  }

  function InitBootInEffect(h: Host, id: Id): Booted
    requires id in h.disk
  {
    match h.disk[id].initBootImage
    case External(path) => ByPath(path)
    case Artifact => ByContent(ArtifactsOf(h, id).initBoot)
  }

  // Whether a copy puts something else into its target.
  predicate Changes(copy: Option<Copy>, before: Option<bytes>) {
    AfterCopy(copy, before) != before
  }

  // A deploy succeeds exactly when all copies asked for do, and then the instance boots exactly the
  // images given, and otherwise what it did before. A refused one writes no metadata, but it leaves
  // the images in effect unchanged if and only if no copy it got to changed the content of an
  // artifact that the metadata names.
  lemma DeployMeaning(h: Host, id: Id, boot: Option<Copy>, initBoot: Option<Copy>, now: nat)
    requires id in h.disk
    ensures var (k, reply) := Serve(h, Deploy(id, boot, initBoot, now));
            && id in k.disk
            && (reply == Updated <==> !Fails(boot) && !Fails(initBoot))
            && (reply == Updated ==>
                  && k.disk[id].updatedAt == now
                  && (BootInEffect(k, id) == if boot.Some? then ByContent(Some(boot.value.content)) else BootInEffect(h, id))
                  && (InitBootInEffect(k, id)
                      == if initBoot.Some? then ByContent(Some(initBoot.value.content)) else InitBootInEffect(h, id)))
            && (reply != Updated ==>
                  && k.disk == h.disk
                  && (BootInEffect(k, id) == BootInEffect(h, id)
                      <==> h.disk[id].bootImage != Artifact || !Changes(boot, ArtifactsOf(h, id).boot))
                  && (InitBootInEffect(k, id) == InitBootInEffect(h, id)
                      <==> (h.disk[id].initBootImage != Artifact || Fails(boot)
                            || !Changes(initBoot, ArtifactsOf(h, id).initBoot))))
  {
    var h1 := PutBoot(h, id, boot);
    assert ArtifactsOf(h1, id) == ArtifactsOf(h, id).(boot := AfterCopy(boot, ArtifactsOf(h, id).boot));
    var h2 := PutInitBoot(h1, id, initBoot);
    assert ArtifactsOf(h2, id) == ArtifactsOf(h1, id).(initBoot := AfterCopy(initBoot, ArtifactsOf(h, id).initBoot));
  }

  // In particular a refused deploy with no copy of the boot image, or of an instance that boots none of
  // its artifacts, changes nothing it boots; and an init_boot copy that fails before it writes never does.
  lemma RefusedDeployKeeps(h: Host, id: Id, boot: Option<Copy>, initBoot: Option<Copy>, now: nat)
    requires id in h.disk && Serve(h, Deploy(id, boot, initBoot, now)).1 != Updated
    requires initBoot.Some? ==> initBoot.value == CopyFails(None)
    requires boot.None? || boot.value == CopyFails(None) || h.disk[id].bootImage != Artifact
    ensures var k := Serve(h, Deploy(id, boot, initBoot, now)).0;
            id in k.disk && BootInEffect(k, id) == BootInEffect(h, id) && InitBootInEffect(k, id) == InitBootInEffect(h, id)
  {
    DeployMeaning(h, id, boot, initBoot, now);
    hide Serve, BootInEffect, InitBootInEffect;
  }

  lemma PrepareSettles(h: Host, id: Id, env: DestroyEnv)
    requires Wired(h)
    ensures var k := PrepareDestroy(Bare(h), id, env).host;
            && Local(h, k, id) && (id in k.disk <==> id in h.disk) && Descends(h, k, id)
            && (id in k.registry <==> TerminationFails(h, id, env.ended))
            && (id in k.registry ==> k.registry == h.registry)
            && (id in k.disk ==> k.disk[id].state == Destroyed)
  {
  }

  lemma FinishSettles(h: Host, id: Id, env: DestroyEnv)
    requires Wired(h)
    ensures var k := FinishDestroy(World(h, map[]), id, env).host;
            && Local(h, k, id) && k.registry == h.registry && Descends(h, k, id)
            && (id in k.disk <==> env.cleanup.GuestsRemain? || (env.cleanup.FilesKept? && id in h.disk))
            && (id in k.disk ==> if env.cleanup.GuestsRemain? then k.disk[id].state == Failed else k.disk == h.disk)
  {
  }

  lemma DestroySettles(h: Host, id: Id, env: DestroyEnv)
    requires Wired(h)
    ensures var k := DestroyInstance(Bare(h), id, env).0.host;
            var cleanup := CleanupOf(h, id, env);
            && Local(h, k, id) && Descends(h, k, id)
            && (id in k.registry <==> TerminationFails(h, id, env.ended))
            && (id in k.registry ==> k.registry[id] == h.registry[id])
            && (id in k.disk <==> cleanup.GuestsRemain? || (cleanup.FilesKept? && id in h.disk))
            && (id in k.disk ==> k.disk[id].state == if cleanup.GuestsRemain? then Failed else Destroyed)
  {
    hide PrepareDestroy, FinishDestroy;
    PrepareSettles(h, id, env);
    if !TerminationFails(h, id, env.ended) {
      var prepared := PrepareDestroy(Bare(h), id, env).host;
      FinishSettles(prepared, id, env);
      LocalTransitive(h, prepared, FinishDestroy(World(prepared, map[]), id, env).host, id);
    }
    hide SameAt;
  }

  lemma CreateSettles(h: Host, purpose: Option<string>, now: nat)
    requires Wired(h)
    ensures var (w, reply) := CreateInstance(Bare(h), purpose, now);
            var k := w.host;
            match Allocator.Allocate(h.dirs, h.cursor)
            case None => k == h && reply.Refused?
            case Some(id) =>
              && Allocator.Slot(id) && id !in h.dirs && id !in h.disk
              && reply.Acted? && reply.summary.id == id
              && Local(h, k, id) && id in k.disk && k.registry == h.registry
              && k.disk[id] == Fresh(h.config, id, purpose, Created, now)
  {
    Allocator.AllocateMeaning(h.dirs, h.cursor);
    hide Allocator.Allocate;
  }
}

/** Pruning: which instances it takes, what is left of them, and that the directory order does not matter. */
module DaemonPrune {
  import opened Wrappers
  import opened Instances
  import opened DaemonCache

  // A metadata file lies in its instance's directory.
  ghost predicate Housed(h: Host) {
    h.disk.Keys <= h.dirs
  }

  ghost predicate Lists(order: seq<Id>, ids: set<Id>) {
    && (forall i, j :: 0 <= i < j < |order| ==> order[i] != order[j])
    && (forall id :: id in order <==> id in ids)
  }

  function Targets(h: Host, scope: Scope): set<Id> {
    set id | id in h.disk && Prunable(h.disk[id], scope)
  }

  // How the cleanup ends; when the guest's end cannot be seen it never begins, and leaves the files.
  function CleanupOf(h: Host, id: Id, env: DestroyEnv): Cleanup {
    if TerminationFails(h, id, env.ended) then FilesKept else env.cleanup
  }

  // What is on disk for a target afterwards, if anything is.
  function PrunedMetadata(m: Metadata, env: DestroyEnv, cleanup: Cleanup): Metadata {
    var born := if m.createdAt == 0 then env.now else m.createdAt;
    var marked := InState(m, Destroyed, env.now).(createdAt := born);
    if cleanup.GuestsRemain?
    then InState(marked, Failed, env.later).(createdAt := if born == 0 then env.later else born)
    else marked
  }

  predicate LosesMetadata(cleanup: Cleanup) {
    cleanup.FilesRemoved? || cleanup.MetadataLost?
  }

  // The host with each of `ids` pruned on its own and nothing else changed.
  function PrunedHost(h: Host, ids: set<Id>, outcome: Id -> DestroyEnv): Host {
    h.(disk := (map id | id in h.disk && !(id in ids && LosesMetadata(CleanupOf(h, id, outcome(id))))
                  :: if id in ids then PrunedMetadata(h.disk[id], outcome(id), CleanupOf(h, id, outcome(id))) else h.disk[id]),
       dirs := (set id | id in h.dirs && !(id in ids && CleanupOf(h, id, outcome(id)).FilesRemoved?)),
       artifacts := (map id | id in h.artifacts && !(id in ids && CleanupOf(h, id, outcome(id)).FilesRemoved?) :: h.artifacts[id]),
       registry := (map id | id in h.registry && !(id in ids && outcome(id).ended) :: h.registry[id]))
  }

  lemma MapsEqual<T>(a: map<Id, T>, b: map<Id, T>)
    requires forall id :: id in a <==> id in b
    requires forall id :: id in a ==> a[id] == b[id]
    ensures a == b
  {
    assert a.Keys == b.Keys;
  }

  // The marking and the end of the guest, before the cleanup.
  lemma PrepareHost(w: World, id: Id, env: DestroyEnv)
    requires Coherent(w) && Housed(w.host) && id in w.host.disk
    ensures var m := w.host.disk[id];
            var born := if m.createdAt == 0 then env.now else m.createdAt;
            PrepareDestroy(w, id, env).host
            == w.host.(disk := w.host.disk[id := InState(m, Destroyed, env.now).(createdAt := born)],
                       registry := if env.ended then w.host.registry - {id} else w.host.registry)
  {
    assert Lookup(w, id) == Some(w.host.disk[id]);
    assert w.host.dirs + {id} == w.host.dirs;
    hide Lookup, InState;
    if id !in w.host.registry {
      assert w.host.registry - {id} == w.host.registry;
    }
  }

  lemma FinishHost(h: Host, id: Id, env: DestroyEnv)
    requires Housed(h) && id in h.disk
    ensures var after := FinishDestroy(World(h, map[]), id, env).host;
            && after == h.(disk := after.disk, dirs := after.dirs, artifacts := after.artifacts)
            && (after.artifacts == if env.cleanup.FilesRemoved? then h.artifacts - {id} else h.artifacts)
            && (after.dirs == if env.cleanup.FilesRemoved? then h.dirs - {id} else h.dirs)
            && (after.disk == if LosesMetadata(env.cleanup) then h.disk - {id}
                              else if env.cleanup.FilesKept? then h.disk
                              else h.disk[id := InState(h.disk[id], Failed, env.later).(
                                     createdAt := if h.disk[id].createdAt == 0 then env.later else h.disk[id].createdAt)])
  {
    assert h.dirs + {id} == h.dirs;
  }

  lemma PruneOneSteps(w: World, id: Id, env: DestroyEnv)
    ensures var prepared := PrepareDestroy(w, id, env).host;
            PruneOne(w, id, env).host
            == if TerminationFails(w.host, id, env.ended) then prepared else FinishDestroy(World(prepared, map[]), id, env).host
  {
    hide PrepareDestroy, FinishDestroy, Lookup, TerminationFails;
  }

  // The same for one id, written as updates.
  function PrunedAlone(h: Host, id: Id, env: DestroyEnv): Host
    requires id in h.disk
  {
    var cleanup := CleanupOf(h, id, env);
    h.(disk := if LosesMetadata(cleanup) then h.disk - {id} else h.disk[id := PrunedMetadata(h.disk[id], env, cleanup)],
       dirs := if cleanup.FilesRemoved? then h.dirs - {id} else h.dirs,
       artifacts := if cleanup.FilesRemoved? then h.artifacts - {id} else h.artifacts,
       registry := if env.ended then h.registry - {id} else h.registry)
  }

  lemma PrunedSingle(h: Host, id: Id, outcome: Id -> DestroyEnv)
    requires id in h.disk
    ensures PrunedHost(h, {id}, outcome) == PrunedAlone(h, id, outcome(id))
  {
    hide CleanupOf, PrunedMetadata, LosesMetadata;
    var left, right := PrunedHost(h, {id}, outcome), PrunedAlone(h, id, outcome(id));
    MapsEqual(left.disk, right.disk);
    MapsEqual(left.artifacts, right.artifacts);
    MapsEqual(left.registry, right.registry);
    assert left.dirs == right.dirs;
  }

  lemma MarkedThenGone(disk: map<Id, Metadata>, id: Id, marked: Metadata, last: Metadata)
    ensures disk[id := marked] - {id} == disk - {id} && disk[id := marked][id := last] == disk[id := last]
  {
  }

  lemma PruneOneHost(w: World, id: Id, outcome: Id -> DestroyEnv)
    requires Coherent(w) && Housed(w.host) && id in w.host.disk
    ensures PruneOne(w, id, outcome(id)).host == PrunedHost(w.host, {id}, outcome)
  {
    var env := outcome(id);
    var prepared := PrepareDestroy(w, id, env).host;
    PruneOneSteps(w, id, env);
    PrepareHost(w, id, env);
    FinishHost(prepared, id, env);
    PrunedSingle(w.host, id, outcome);
    hide PruneOne, PrepareDestroy, FinishDestroy, Coherent, Housed, PrunedHost;
    var marked := prepared.disk[id];
    MarkedThenGone(w.host.disk, id, marked, PrunedMetadata(w.host.disk[id], env, CleanupOf(w.host, id, env)));
    if id !in w.host.registry {
      assert w.host.registry - {id} == w.host.registry;
    }
  }

  lemma PrunedHostExtend(h: Host, ids: set<Id>, id: Id, outcome: Id -> DestroyEnv)
    requires id !in ids
    ensures PrunedHost(PrunedHost(h, ids, outcome), {id}, outcome) == PrunedHost(h, ids + {id}, outcome)
  {
    hide PrunedMetadata, LosesMetadata;
    assert CleanupOf(PrunedHost(h, ids, outcome), id, outcome(id)) == CleanupOf(h, id, outcome(id));
    hide CleanupOf;
    var left := PrunedHost(PrunedHost(h, ids, outcome), {id}, outcome);
    var right := PrunedHost(h, ids + {id}, outcome);
    MapsEqual(left.disk, right.disk);
    MapsEqual(left.registry, right.registry);
    MapsEqual(left.artifacts, right.artifacts);
    assert left.dirs == right.dirs;
  }

  lemma PrunedHostNothing(h: Host, outcome: Id -> DestroyEnv)
    ensures PrunedHost(h, {}, outcome) == h
  {
    MapsEqual(PrunedHost(h, {}, outcome).disk, h.disk);
    MapsEqual(PrunedHost(h, {}, outcome).registry, h.registry);
    MapsEqual(PrunedHost(h, {}, outcome).artifacts, h.artifacts);
    assert PrunedHost(h, {}, outcome).dirs == h.dirs;
  }

  function Ids(order: seq<Id>): set<Id> {
    set id | id in order
  }

  // Those whose guest's end could be seen, if they had one, and of which no process is left.
  function Gone(h: Host, ids: set<Id>, outcome: Id -> DestroyEnv): set<Id> {
    set id | id in ids && (id in h.registry ==> outcome(id).ended) && !outcome(id).cleanup.GuestsRemain?
  }

  function HeldLive(h: Host): set<Id> {
    set id | id in h.disk && h.disk[id].state != Destroyed && h.disk[id].held
  }

  // The loop after the part `seen` of the directory listing: what is taken, and how it is counted.
  ghost predicate PrunedSoFar(r: PruneResult, h: Host, scope: Scope, seen: set<Id>, outcome: Id -> DestroyEnv) {
    var taken := Targets(h, scope) * seen;
    && Coherent(r.world)
    && r.world.host == PrunedHost(h, taken, outcome)
    && r.pruned == |Gone(h, taken, outcome)|
    && r.pruned + r.retained == |taken| + if scope.Everything? then |HeldLive(h) * seen| else 0
  }

  lemma LookupPruned(w: World, h: Host, taken: set<Id>, id: Id, outcome: Id -> DestroyEnv)
    requires Coherent(w) && w.host == PrunedHost(h, taken, outcome) && id !in taken
    ensures Lookup(w, id) == if id in h.disk then Some(h.disk[id]) else None
  {
    hide PrunedMetadata, LosesMetadata;
  }

  lemma HousedPruned(h: Host, taken: set<Id>, outcome: Id -> DestroyEnv)
    requires Housed(h)
    ensures Housed(PrunedHost(h, taken, outcome))
  {
    hide PrunedMetadata;
  }

  lemma TakesHost(w: World, h: Host, taken: set<Id>, id: Id, outcome: Id -> DestroyEnv)
    requires Housed(h) && Coherent(w) && w.host == PrunedHost(h, taken, outcome) && id !in taken && id in h.disk
    ensures Coherent(PruneOne(w, id, outcome(id)))
    ensures PruneOne(w, id, outcome(id)).host == PrunedHost(h, taken + {id}, outcome)
  {
    assert id in w.host.disk;
    HousedPruned(h, taken, outcome);
    hide PrunedHost, Housed, Coherent, PruneOne;
    PruneOneHost(w, id, outcome);
    PrunedHostExtend(h, taken, id, outcome);
    PruneOneSame(w, w, id, outcome(id));
  }

  lemma CountTaken(h: Host, taken: set<Id>, id: Id, outcome: Id -> DestroyEnv)
    requires id !in taken
    ensures |taken + {id}| == |taken| + 1
    ensures |Gone(h, taken + {id}, outcome)| == |Gone(h, taken, outcome)| + if Rids(h, id, outcome(id)) then 1 else 0
  {
    assert Gone(h, taken + {id}, outcome) == Gone(h, taken, outcome) + if Rids(h, id, outcome(id)) then {id} else {};
  }

  lemma RidsUntaken(h: Host, taken: set<Id>, id: Id, outcome: Id -> DestroyEnv)
    requires id !in taken
    ensures Rids(PrunedHost(h, taken, outcome), id, outcome(id)) == Rids(h, id, outcome(id))
  {
    hide PrunedMetadata, LosesMetadata, CleanupOf;
  }

  lemma PruneTakes(r: PruneResult, h: Host, scope: Scope, seen: set<Id>, id: Id, outcome: Id -> DestroyEnv)
    requires Housed(h) && PrunedSoFar(r, h, scope, seen, outcome) && id !in seen && id in Targets(h, scope)
    ensures PrunedSoFar(PruneStep(r, scope, id, outcome(id)), h, scope, seen + {id}, outcome)
  {
    var taken := Targets(h, scope) * seen;
    assert Targets(h, scope) * (seen + {id}) == taken + {id};
    assert HeldLive(h) * (seen + {id}) == HeldLive(h) * seen;
    assert id in h.disk && Prunable(h.disk[id], scope);
    hide PruneOne, PrunedHost, Coherent, Lookup, Gone, Housed, Targets, HeldLive, Rids;
    LookupPruned(r.world, h, taken, id, outcome);
    TakesHost(r.world, h, taken, id, outcome);
    CountTaken(h, taken, id, outcome);
    RidsUntaken(h, taken, id, outcome);
  }

  lemma CountHeld(h: Host, seen: set<Id>, id: Id)
    requires id !in seen
    ensures |HeldLive(h) * (seen + {id})| == |HeldLive(h) * seen| + if id in HeldLive(h) then 1 else 0
  {
    var held := HeldLive(h);
    hide HeldLive;
    assert held * (seen + {id}) == held * seen + if id in held then {id} else {};
  }

  lemma TargetsUnseen(h: Host, scope: Scope, seen: set<Id>, id: Id)
    requires id !in Targets(h, scope)
    ensures Targets(h, scope) * (seen + {id}) == Targets(h, scope) * seen
  {
    hide Targets;
  }

  lemma Untargeted(h: Host, scope: Scope, id: Id)
    requires id !in Targets(h, scope)
    ensures id in h.disk ==> !Prunable(h.disk[id], scope)
    ensures id in HeldLive(h) <==> id in h.disk && h.disk[id].state != Destroyed && h.disk[id].held
  {
  }

  lemma StepPasses(r: PruneResult, scope: Scope, id: Id, env: DestroyEnv)
    requires Lookup(r.world, id).Some? ==> !Prunable(Lookup(r.world, id).value, scope)
    ensures var m := Lookup(r.world, id);
            PruneStep(r, scope, id, env) ==
            r.(retained := r.retained + if scope.Everything? && m.Some? && m.value.state != Destroyed && m.value.held then 1 else 0)
  {
    hide PruneOne, Lookup, Prunable;
  }

  lemma PrunePasses(r: PruneResult, h: Host, scope: Scope, seen: set<Id>, id: Id, outcome: Id -> DestroyEnv)
    requires PrunedSoFar(r, h, scope, seen, outcome) && id !in seen && id !in Targets(h, scope)
    ensures PrunedSoFar(PruneStep(r, scope, id, outcome(id)), h, scope, seen + {id}, outcome)
  {
    hide PruneStep, PrunedHost, Coherent, Lookup, Gone, Targets, HeldLive, Prunable;
    Untargeted(h, scope, id);
    TargetsUnseen(h, scope, seen, id);
    CountHeld(h, seen, id);
    LookupPruned(r.world, h, Targets(h, scope) * seen, id, outcome);
    StepPasses(r, scope, id, outcome(id));
  }

  lemma PruneNothing(h: Host, scope: Scope, outcome: Id -> DestroyEnv)
    ensures PrunedSoFar(PruneResult(World(h, map[]), 0, 0), h, scope, Ids([]), outcome)
  {
    PrunedHostNothing(h, outcome);
    hide PrunedHost, Targets, HeldLive, Rids;
    assert Targets(h, scope) * Ids([]) == {} && HeldLive(h) * Ids([]) == {};
  }

  lemma {:induction false} PruneMeaning(h: Host, scope: Scope, order: seq<Id>, outcome: Id -> DestroyEnv)
    requires Housed(h)
    requires forall i, j :: 0 <= i < j < |order| ==> order[i] != order[j]
    ensures PrunedSoFar(Prune(World(h, map[]), scope, order, outcome), h, scope, Ids(order), outcome)
    decreases |order|
  {
    hide PruneStep, PrunedSoFar, Targets, Housed;
    if order == [] {
      PruneNothing(h, scope, outcome);
    } else {
      var id, front := order[|order| - 1], order[..|order| - 1];
      PruneMeaning(h, scope, front, outcome);
      assert Ids(order) == Ids(front) + {id};
      var r := Prune(World(h, map[]), scope, front, outcome);
      if id in Targets(h, scope) {
        PruneTakes(r, h, scope, Ids(front), id, outcome);
      } else {
        PrunePasses(r, h, scope, Ids(front), id, outcome);
      }
    }
  }

  lemma ListedTargets(h: Host, scope: Scope, order: seq<Id>)
    requires Housed(h) && Lists(order, h.dirs)
    ensures Targets(h, scope) * Ids(order) == Targets(h, scope)
    ensures HeldLive(h) * Ids(order) == HeldLive(h)
  {
  }

  function Expired(h: Host, maxAge: nat, now: nat): set<Id> {
    set id | id in h.disk && h.disk[id].state != Destroyed && !h.disk[id].held
             && h.disk[id].updatedAt + maxAge <= (if now >= maxAge then now else maxAge)
  }

  function Live(h: Host): set<Id> {
    set id | id in h.disk && h.disk[id].state != Destroyed
  }

  lemma ExpiredTargets(h: Host, maxAge: nat, now: nat)
    ensures Targets(h, UpTo(Cutoff(now, maxAge))) == Expired(h, maxAge, now)
  {
  }

  lemma LiveTargets(h: Host)
    ensures Targets(h, Everything) == Live(h) - HeldLive(h) && HeldLive(h) <= Live(h)
  {
  }

  // prune_expired takes exactly the live, unheld instances last updated by the cutoff, accounts for
  // each of them once, and leaves every other instance alone, in whatever order they are listed.
  lemma PruneExpiredAccounts(h: Host, maxAge: nat, now: nat, order: seq<Id>, outcome: Id -> DestroyEnv)
    requires Housed(h) && Lists(order, h.dirs)
    ensures var (after, reply) := Serve(h, PruneExpired(maxAge, now, order, outcome));
            var targets := Expired(h, maxAge, now);
            && after == PrunedHost(h, targets, outcome)
            && reply.Pruned? && reply.pruned == |Gone(h, targets, outcome)| && reply.pruned + reply.retained == |targets|
  {
    hide PrunedHost, Prune, Targets, Gone, Ids, HeldLive, Expired, Coherent;
    var scope := UpTo(Cutoff(now, maxAge));
    ListedTargets(h, scope, order);
    ExpiredTargets(h, maxAge, now);
    PruneMeaning(h, scope, order, outcome);
  }

  // prune_all accounts for every live instance: the held ones are retained, the others taken.
  lemma PruneAllAccounts(h: Host, order: seq<Id>, outcome: Id -> DestroyEnv)
    requires Housed(h) && Lists(order, h.dirs)
    ensures var (after, reply) := Serve(h, PruneAll(order, outcome));
            var targets := Live(h) - HeldLive(h);
            && after == PrunedHost(h, targets, outcome)
            && reply.Pruned? && reply.pruned == |Gone(h, targets, outcome)| && reply.pruned + reply.retained == |Live(h)|
  {
    hide PrunedHost, Prune, Targets, Gone, Ids, HeldLive, Live, Coherent;
    ListedTargets(h, Everything, order);
    LiveTargets(h);
    PruneMeaning(h, Everything, order, outcome);
    assert |Live(h)| == |Live(h) - HeldLive(h)| + |HeldLive(h)|;
  }

  // However the file system lists the directories, a prune leaves the same host and the same counts.
  lemma ListingOrderIrrelevant(h: Host, maxAge: nat, now: nat, one: seq<Id>, two: seq<Id>, outcome: Id -> DestroyEnv)
    requires Housed(h) && Lists(one, h.dirs) && Lists(two, h.dirs)
    ensures Serve(h, PruneExpired(maxAge, now, one, outcome)) == Serve(h, PruneExpired(maxAge, now, two, outcome))
    ensures Serve(h, PruneAll(one, outcome)) == Serve(h, PruneAll(two, outcome))
  {
    hide Serve, Lists;
    PruneExpiredAccounts(h, maxAge, now, one, outcome);
    PruneExpiredAccounts(h, maxAge, now, two, outcome);
    PruneAllAccounts(h, one, outcome);
    PruneAllAccounts(h, two, outcome);
    hide PrunedHost, Gone, Expired, Live, HeldLive;
  }

  // Outside the targets nothing changes: metadata, directory and guest handle stay. The targets end
  // unregistered unless the end of their guest could not be seen, and gone or Failed unless that or
  // removing their files failed.
  lemma PruneFrame(h: Host, targets: set<Id>, outcome: Id -> DestroyEnv, id: Id)
    requires Housed(h) && targets <= h.disk.Keys
    ensures var after := PrunedHost(h, targets, outcome);
            var cleanup := CleanupOf(h, id, outcome(id));
            && Housed(after) && after.watchers == h.watchers && after.cursor == h.cursor
            && (id !in targets ==>
                  && (id in after.disk <==> id in h.disk) && (id in h.disk ==> after.disk[id] == h.disk[id])
                  && (id in after.dirs <==> id in h.dirs)
                  && ArtifactsOf(after, id) == ArtifactsOf(h, id)
                  && (id in after.registry <==> id in h.registry))
            && (id in after.registry ==> id in h.registry && after.registry[id] == h.registry[id])
            && (id in targets ==>
                  && (id in after.registry <==> TerminationFails(h, id, outcome(id).ended))
                  && (id in after.dirs <==> !cleanup.FilesRemoved?)
                  && (id in after.disk <==> cleanup.GuestsRemain? || cleanup.FilesKept?)
                  && (id in after.disk ==>
                        var born := if h.disk[id].createdAt == 0 then outcome(id).now else h.disk[id].createdAt;
                        after.disk[id] ==
                        if cleanup.GuestsRemain?
                        then h.disk[id].(state := Failed, updatedAt := outcome(id).later,
                                         createdAt := if born == 0 then outcome(id).later else born)
                        else h.disk[id].(state := Destroyed, updatedAt := outcome(id).now, createdAt := born)))
  {
  }
}

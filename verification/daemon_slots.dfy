/** The slots of a running daemon: its creates are the allocator's, nothing else moves the cursor, and so
    slots are given out fairly over every run. */
module DaemonSlots {
  import opened Wrappers
  import opened Instances
  import opened DaemonPrune
  import opened DaemonRuns
  import opened DaemonSettled
  import opened DaemonHolds
  import opened DaemonReplies

  // What the allocator sees of the host.
  function Slots(h: Host): Allocator.State {
    Allocator.State(h.dirs, h.cursor)
  }

  predicate Creates(e: Event) {
    e.Request? && (e.call.Create? || e.call.CreateStart?)
  }

  // A step as the allocator sees it: an allocation, or directories that go and come.
  function AsAllocation(h: Host, e: Event): Allocator.Event {
    if Creates(e) then Allocator.Allocates
    else Allocator.Changes(h.dirs - Step(h, e).dirs, Step(h, e).dirs - h.dirs)
  }

  lemma CreateAllocates(h: Host, purpose: Option<string>, now: nat)
    requires Wired(h)
    ensures Slots(Serve(h, Create(purpose, now)).0) == Allocator.Step(Slots(h), Allocator.Allocates)
  {
    hide Allocator.Allocate;
  }

  lemma StartKeepsSlots(h: Host, id: Id, options: StartOptions, env: StartEnv)
    requires Wired(h)
    ensures Slots(Serve(h, Start(id, options, env)).0) == Slots(h)
  {
    StartServed(h, id, options, env);
    StartSettles(h, id, options, env);
    var k := Serve(h, Start(id, options, env)).0;
    ServeStart(h, id, options, env);
    if !StartRefused(h, id, options) {
      HousedAt(h, id);
      HousedAt(k, id);
      assert forall j :: j != id ==> SameAt(h, k, j);
      assert forall j :: j in k.dirs <==> j in h.dirs;
    }
    hide StartInstance, Wired, Serve;
  }

  lemma ServeStart(h: Host, id: Id, options: StartOptions, env: StartEnv)
    ensures Serve(h, Start(id, options, env)).0 == StartInstance(Bare(h), id, options, env).0.host
  {
    hide StartInstance;
  }

  lemma HousedAt(h: Host, id: Id)
    requires Wired(h) && id in h.disk
    ensures id in h.dirs
  {
  }

  lemma CursorKept(h: Host, e: Event)
    requires Wired(h) && Enabled(h, e) && !Creates(e)
    ensures Step(h, e).cursor == h.cursor
  {
    hide CreateInstance, CreateAndStart, StartInstance, StopInstance, HoldInstance, DestroyInstance, DeployImages,
         WaitForAdbReply, Prune, List, Wired, PrunedHost;
    if e.Request? {
      match e.call
      case Start(id, options, env) => StartServed(h, id, options, env);
      case Stop(id, env) => StopServed(h, id, env);
      case Hold(id, now) => HoldServed(h, id, now);
      case Destroy(id, env) => DestroyServed(h, id, env);
      case Deploy(id, boot, initBoot, now) => DeployServed(h, id, boot, initBoot, now);
      case WaitAdb(id, env) => WaitServed(h, id, env);
      case PruneExpired(maxAge, now, order, outcome) =>
        WiredHoused(h);
        PruneExpiredAccounts(h, maxAge, now, order, outcome);
        PruneFrame(h, Expired(h, maxAge, now), outcome, 0);
      case PruneAll(order, outcome) =>
        WiredHoused(h);
        PruneAllAccounts(h, order, outcome);
        PruneFrame(h, Live(h) - HeldLive(h), outcome, 0);
      case Status(_) =>
      case ListAll =>
    }
  }

  // A create, alone or with a start, is one allocation; every other step keeps the cursor.
  lemma StepAllocates(h: Host, e: Event)
    requires Wired(h) && Enabled(h, e)
    ensures Slots(Step(h, e)) == Allocator.Step(Slots(h), AsAllocation(h, e))
    ensures !Creates(e) ==> Step(h, e).cursor == h.cursor
  {
    hide CreateInstance, StartInstance, CreateAndStart, Wired, Allocator.Allocate;
    if !Creates(e) {
      CursorKept(h, e);
      var k := Step(h, e);
      hide Step;
      assert h.dirs - (h.dirs - k.dirs) + (k.dirs - h.dirs) == k.dirs;
    } else {
      match e.call
      case Create(purpose, now) => CreateAllocates(h, purpose, now);
      case CreateStart(purpose, now, options, env) =>
        CreateAllocates(h, purpose, now);
        CreateStartServed(h, purpose, now, options, env);
        CreateSettles(h, purpose, now);
        var (k, reply) := Serve(h, Create(purpose, now));
        if reply.Acted? {
          CreatedWired(h, purpose, now);
          StartKeepsSlots(k, reply.summary.id, options, env);
        }
    }
  }

  lemma CreatedWired(h: Host, purpose: Option<string>, now: nat)
    requires Wired(h)
    ensures Wired(Serve(h, Create(purpose, now)).0)
  {
    CreateSettles(h, purpose, now);
    hide CreateInstance;
  }

  function Allocations(h: Host, events: seq<Event>): seq<Allocator.Event>
    decreases |events|
  {
    if events == [] then [] else [AsAllocation(h, events[0])] + Allocations(Step(h, events[0]), events[1..])
  }

  lemma {:induction false} AllocationsFollow(h: Host, events: seq<Event>, i: nat)
    requires Wired(h) && Possible(h, events) && i <= |events|
    ensures |Allocations(h, events)| == |events|
    ensures Slots(After(h, events[..i])) == Allocator.After(Slots(h), Allocations(h, events)[..i])
    ensures i < |events| ==> Allocations(h, events)[i] == AsAllocation(After(h, events[..i]), events[i])
    decreases |events|
  {
    hide Step, Wired, Enabled, AsAllocation, Slots, Allocator.Step;
    if events != [] {
      var k, more := Step(h, events[0]), events[1..];
      StepFollows(h, events[0], 0);
      StepAllocates(h, events[0]);
      AllocationsFollow(k, more, 0);
      if i > 0 {
        AllocationsFollow(k, more, i - 1);
        var all := Allocations(h, events);
        assert events[..i][0] == events[0] && events[..i][1..] == more[..i - 1];
        assert all[..i][0] == all[0] && all[..i][1..] == Allocations(k, more)[..i - 1];
      } else {
        assert events[..0] == [] && Allocations(h, events)[..0] == [];
      }
    } else {
      assert events[..i] == [] && Allocations(h, events)[..i] == [];
    }
  }

  // A create makes this slot, which had no directory before.
  ghost predicate Makes(h: Host, e: Event, id: Id) {
    Creates(e) && id !in h.dirs && id in Step(h, e).dirs
  }

  lemma MakesGives(h: Host, e: Event, id: Id)
    requires Wired(h) && Enabled(h, e)
    ensures Makes(h, e, id) <==> Allocator.Gives(Slots(h), AsAllocation(h, e), id)
  {
    StepAllocates(h, e);
    Allocator.AllocateMeaning(h.dirs, h.cursor);
    hide Step, Allocator.Allocate, Wired, Enabled;
  }

  // A create made x, or went past x because its directory existed.
  ghost predicate Considered(h: Host, e: Event, x: Id) {
    Creates(e) && exists id ::
      && Makes(h, e, id)
      && (x == id
          || (1 <= x <= 99 && 1 <= id <= 99 && x in h.dirs
              && Allocator.Distance(Allocator.StartSlot(h.cursor), x) < Allocator.Distance(Allocator.StartSlot(h.cursor), id)))
  }

  lemma ConsidersIsConsidered(h: Host, e: Event, x: Id)
    requires Wired(h) && Enabled(h, e) && Allocator.Considers(Slots(h), AsAllocation(h, e), x)
    ensures Considered(h, e, x)
  {
    var id := Allocator.Allocate(h.dirs, h.cursor).value;
    MakesGives(h, e, id);
    hide Step, Allocator.Allocate, Wired, Enabled, Makes;
  }

  // Fairness of the daemon: between two creates that give the same slot every other one was given
  // out, or its directory existed when the cursor passed it, whatever was destroyed, pruned, brought
  // back by watchers or made otherwise in between.
  lemma DaemonFair(h: Host, events: seq<Event>, i: nat, j: nat, id: Id, x: Id)
    requires Wired(h) && Possible(h, events) && i < j < |events|
    requires Makes(After(h, events[..i]), events[i], id) && Makes(After(h, events[..j]), events[j], id)
    requires 1 <= x <= 99 && x != id
    ensures exists k :: i < k <= j && Considered(After(h, events[..k]), events[k], x)
  {
    var all := Allocations(h, events);
    AllocationsFollow(h, events, i);
    AllocationsFollow(h, events, j);
    EnabledAt(h, events, i);
    EnabledAt(h, events, j);
    MakesGives(After(h, events[..i]), events[i], id);
    MakesGives(After(h, events[..j]), events[j], id);
    hide Step, Wired, Enabled, Possible, AsAllocation, Allocator.Step, Allocator.Gives, Allocator.Considers, Makes, Considered;
    Allocator.Fair(Slots(h), all, i, j, id, x);
    var k :| i < k <= j && Allocator.Considers(Allocator.After(Slots(h), all[..k]), all[k], x);
    AllocationsFollow(h, events, k);
    EnabledAt(h, events, k);
    ConsidersIsConsidered(After(h, events[..k]), events[k], x);
  }

  lemma {:induction false} EnabledAt(h: Host, events: seq<Event>, i: nat)
    requires Wired(h) && Possible(h, events) && i < |events|
    ensures Wired(After(h, events[..i])) && Enabled(After(h, events[..i]), events[i])
    decreases i
  {
    hide Step, Wired, Enabled;
    if i == 0 {
      assert events[..0] == [];
    } else {
      StepFollows(h, events[0], 0);
      EnabledAt(Step(h, events[0]), events[1..], i - 1);
      assert events[..i][0] == events[0] && events[..i][1..] == events[1..][..i - 1];
    }
  }
}

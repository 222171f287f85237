/** The gap inside remove_if_handle: when a watcher takes out a newer guest than its own, and that it
    does not when its two halves are one step. */
module DaemonWatchers {
  import opened Wrappers
  import opened Instances
  import opened DaemonRuns
  import opened DaemonGuests
  import opened BootPoll
  import GH = GuestHandle

  // A guest that has left the registry never comes back: who is registered later is newer.
  lemma {:induction false} OnlyNewer(h: Host, events: seq<Event>, id: Id, g: Generation)
    requires Wired(h) && Possible(h, events) && g < h.nextGeneration
    requires id in h.registry ==> h.registry[id] > g
    ensures id in After(h, events).registry ==> After(h, events).registry[id] > g
    decreases |events|
  {
    hide Step, Enabled, Wired, EndsGuest, ShownAt, Unshows, WatchedAt, Unwatches, KeepsWatchers;
    if events != [] {
      StepGuest(h, events[0], id);
      OnlyNewer(Step(h, events[0]), events[1..], id, g);
    }
  }

  // At the end of a run an instance has the guest it began with if and only if no step ended its
  // registration; otherwise it has a newer one or none.
  lemma {:induction false} SameGuestIff(h: Host, events: seq<Event>, id: Id)
    requires Wired(h) && Possible(h, events) && id in h.registry
    ensures var k := After(h, events);
            && (GuestLeftAlone(h, events, id) ==> id in k.registry && k.registry[id] == h.registry[id])
            && (!GuestLeftAlone(h, events, id) && id in k.registry ==> k.registry[id] > h.registry[id])
    decreases |events|
  {
    if events != [] {
      assert h.registry[id] < h.nextGeneration;
      hide Step, Enabled, Wired, EndsGuest, ShownAt, Unshows, WatchedAt, Unwatches, KeepsWatchers;
      StepGuest(h, events[0], id);
      if EndsGuest(h, events[0], id) {
        OnlyNewer(Step(h, events[0]), events[1..], id, h.registry[id]);
      } else {
        SameGuestIff(Step(h, events[0]), events[1..], id);
      }
    }
  }

  lemma MatchedStep(h: Host, e: Event, g: Generation)
    requires Wired(h) && Enabled(h, e) && e != HandleRemoved(g) && g in h.watchers && h.watchers[g].Matched?
    ensures Wired(Step(h, e)) && g in Step(h, e).watchers && Step(h, e).watchers[g] == h.watchers[g]
  {
    StepGuest(h, e, 0);
    if e.Request? {
      hide Step, Wired;
    }
  }

  lemma {:induction false} MatchedStays(h: Host, events: seq<Event>, g: Generation)
    requires Wired(h) && Possible(h, events) && HandleRemoved(g) !in events
    requires g in h.watchers && h.watchers[g].Matched?
    ensures Wired(After(h, events)) && g in After(h, events).watchers && After(h, events).watchers[g] == h.watchers[g]
    decreases |events|
  {
    hide Step, Enabled, Wired;
    if events != [] {
      MatchedStep(h, events[0], g);
      MatchedStays(Step(h, events[0]), events[1..], g);
    }
  }

  // From the moment a watcher found its own handle registered, over any run up to its removal: the
  // removal empties the entry, and what it takes out is a newer guest if and only if there is one,
  // because a step in between ended the registration of its own.
  lemma EvictsNewerIff(h: Host, events: seq<Event>, id: Id, g: Generation)
    requires Wired(h) && Possible(h, events) && HandleRemoved(g) !in events
    requires g in h.watchers && h.watchers[g].Matched? && h.watchers[g].id == id
    requires id in h.registry && h.registry[id] == g
    ensures var k := After(h, events);
            && Enabled(k, HandleRemoved(g)) && id !in Step(k, HandleRemoved(g)).registry
            && ((id in k.registry && k.registry[id] > g) <==> (id in k.registry && !GuestLeftAlone(h, events, id)))
            && (GuestLeftAlone(h, events, id) ==> id in k.registry && k.registry[id] == g)
  {
    MatchedStays(h, events, g);
    SameGuestIff(h, events, id);
    hide Wired, Possible, After, GuestLeftAlone;
  }

  /* ---------- a watcher's life ---------- */

  function StepsToGo(h: Host, g: Generation): nat {
    if g !in h.watchers then 0
    else
      match h.watchers[g]
      case Blocked(_) => 4
      case Matched(_, _) => 3
      case Reported(_, _) => 2
      case Loaded(_, _) => 1
  }

  predicate StepOf(e: Event, g: Generation) {
    !e.Request? && e.g == g
  }

  // A watcher comes nearer to its end with each of its own at most four steps, keeps the instance it
  // is for, and no request and no other watcher moves it.
  lemma WatcherAdvances(h: Host, e: Event, g: Generation)
    requires Wired(h) && Enabled(h, e) && g in h.watchers
    ensures StepOf(e, g) ==> StepsToGo(Step(h, e), g) < StepsToGo(h, g) <= 4
    ensures !StepOf(e, g) ==> g in Step(h, e).watchers && Step(h, e).watchers[g] == h.watchers[g]
    ensures g in Step(h, e).watchers ==> Step(h, e).watchers[g].id == h.watchers[g].id
  {
    StepGuest(h, e, 0);
    if e.Request? {
      hide Step, Wired;
    }
  }

  // With no metadata left there is nothing to read, and the watcher is done.
  lemma NothingToRead(h: Host, g: Generation, now: nat)
    requires Enabled(h, ExitRead(g, now)) && h.watchers[g].id !in h.disk
    ensures Step(h, ExitRead(g, now)) == h.(watchers := h.watchers - {g})
  {
  }

  /* ---------- both halves as one step ---------- */

  // Whoever has found its handle removes before anything else happens.
  ghost predicate PromptRemoval(h: Host, events: seq<Event>)
    decreases |events|
  {
    && (forall g :: g in h.watchers && h.watchers[g].Matched? ==> events == [] || events[0] == HandleRemoved(g))
    && (events != [] ==> PromptRemoval(Step(h, events[0]), events[1..]))
  }

  // What a watcher is about to remove is its own handle.
  ghost predicate OwnMatches(h: Host) {
    forall g :: g in h.watchers && h.watchers[g].Matched? ==>
      h.watchers[g].id in h.registry && h.registry[h.watchers[g].id] == g
  }

  lemma PromptStep(h: Host, e: Event)
    requires Wired(h) && Enabled(h, e) && OwnMatches(h)
    requires forall g :: g in h.watchers && h.watchers[g].Matched? ==> e == HandleRemoved(g)
    ensures Wired(Step(h, e)) && OwnMatches(Step(h, e))
  {
    StepGuest(h, e, 0);
    if e.Request? {
      hide Step, Wired;
    }
  }

  // Only its own watcher removes the guest of an instance.
  ghost predicate OnlyOwnRemovals(h: Host, events: seq<Event>)
    decreases |events|
  {
    events != [] ==>
      && (events[0].HandleRemoved? ==>
            var g := events[0].g;
            g in h.watchers && h.watchers[g].id in h.registry && h.registry[h.watchers[g].id] == g)
      && OnlyOwnRemovals(Step(h, events[0]), events[1..])
  }

  // With remove_if_handle as one step no watcher of an earlier guest ever evicts a newer one.
  lemma {:induction false} PromptNeverEvicts(h: Host, events: seq<Event>)
    requires Wired(h) && Possible(h, events) && OwnMatches(h) && PromptRemoval(h, events)
    ensures OnlyOwnRemovals(h, events)
    decreases |events|
  {
    hide Step, Wired;
    if events != [] {
      PromptStep(h, events[0]);
      PromptNeverEvicts(Step(h, events[0]), events[1..]);
    }
  }

  /* ---------- runs in which a watcher comes late ---------- */

  const CLEAN: GH.ExitStatus := GH.ExitStatus(Some(0), None)
  const SKIPPING: StartOptions := StartOptions(true, false)

  function Smooth(now: nat): StartEnv {
    StartEnv(true, true, AdbReady, true, true, true, now, now)
  }

  function QuickStart(id: Id, now: nat): Event {
    Request(Start(id, SKIPPING, Smooth(now)))
  }

  function QuickStop(id: Id, now: nat): Event {
    Request(Stop(id, StopEnv(true, Some(CLEAN), true, now, now)))
  }

  lemma Cons(h: Host, e: Event, events: seq<Event>)
    requires Enabled(h, e) && Possible(Step(h, e), events)
    ensures Possible(h, [e] + events) && After(h, [e] + events) == After(Step(h, e), events)
  {
    hide Step, Enabled;
    assert ([e] + events)[1..] == events;
  }

  lemma QuickStartRegisters(h: Host, id: Id, now: nat)
    requires Wired(h) && id in h.disk && id !in h.registry
    ensures var k := Step(h, QuickStart(id, now));
            && Wired(k) && id in k.disk && k.disk[id].state == Running
            && k.registry == h.registry[id := h.nextGeneration]
            && k.nextGeneration == h.nextGeneration + 1
            && k.watchers == h.watchers[h.nextGeneration := Blocked(id)]
  {
  }

  lemma QuickStopUnregisters(h: Host, id: Id, now: nat)
    requires Wired(h) && id in h.disk
    ensures var k := Step(h, QuickStop(id, now));
            && Wired(k) && id in k.disk && id !in k.registry
            && k.nextGeneration == h.nextGeneration && k.watchers == h.watchers
  {
  }

  lemma WatcherSees(h: Host, id: Id, g: Generation)
    requires Wired(h) && g in h.watchers && h.watchers[g] == Blocked(id) && id in h.disk
    ensures Enabled(h, Waited(g, Some(CLEAN)))
    ensures var k := Step(h, Waited(g, Some(CLEAN)));
            Wired(k) && k == h.(watchers := k.watchers)
            && k.watchers == h.watchers[g := if id in h.registry && h.registry[id] == g then Matched(id, Some(CLEAN))
                                             else Reported(id, CLEAN)]
  {
  }

  lemma WatcherReads(h: Host, id: Id, g: Generation, now: nat)
    requires Wired(h) && g in h.watchers && h.watchers[g] == Reported(id, CLEAN) && id in h.disk
    ensures Enabled(h, ExitRead(g, now)) && Wired(Step(h, ExitRead(g, now)))
    ensures Step(h, ExitRead(g, now))
         == h.(watchers := h.watchers[g := Loaded(id, InState(h.disk[id], Stopped, now))])
  {
  }

  lemma WatcherWrites(h: Host, id: Id, g: Generation, copy: Metadata)
    requires g in h.watchers && h.watchers[g] == Loaded(id, copy)
    ensures Enabled(h, ExitWritten(g))
    ensures Step(h, ExitWritten(g))
         == h.(disk := h.disk[id := copy], dirs := h.dirs + {id}, watchers := h.watchers - {g})
  {
  }

  // A late write: start, stop, and start again before the first guest's watcher comes to write. The
  // second guest is registered, and its metadata says Stopped.
  lemma LateWriteHappens(h: Host, id: Id, now: nat)
    requires Wired(h) && id in h.disk && id !in h.registry
    ensures var g := h.nextGeneration;
            var events := [QuickStart(id, now), QuickStop(id, now), Waited(g, Some(CLEAN)),
                           QuickStart(id, now), ExitRead(g, now), ExitWritten(g)];
            var k := After(h, events);
            && Possible(h, events) && id in k.registry && k.registry[id] == g + 1
            && id in k.disk && k.disk[id].state == Stopped
  {
    var g := h.nextGeneration;
    hide Step, Wired;
    var e1, e2, e3, e4, e5 := QuickStart(id, now), QuickStop(id, now), Waited(g, Some(CLEAN)), ExitRead(g, now), ExitWritten(g);
    var a := Step(h, e1);
    QuickStartRegisters(h, id, now);
    var b := Step(a, e2);
    QuickStopUnregisters(a, id, now);
    var c := Step(b, e3);
    WatcherSees(b, id, g);
    var d := Step(c, e1);
    QuickStartRegisters(c, id, now);
    var f := Step(d, e4);
    WatcherReads(d, id, g, now);
    WatcherWrites(f, id, g, InState(d.disk[id], Stopped, now));
    Cons(f, e5, []);
    Cons(d, e4, [e5]);
    Cons(c, e1, [e4] + [e5]);
    Cons(b, e3, [e1] + ([e4] + [e5]));
    Cons(a, e2, [e3] + ([e1] + ([e4] + [e5])));
    Cons(h, e1, [e2] + ([e3] + ([e1] + ([e4] + [e5]))));
    assert [e1, e2, e3, e1, e4, e5] == [e1] + ([e2] + ([e3] + ([e1] + ([e4] + [e5]))));
  }

  // An instance made anew while a watcher of its predecessor is about to write: it gets the
  // predecessor's purpose, images and state.
  lemma RecreatedOverwritten(h: Host, id: Id, g: Generation, copy: Metadata, purpose: Option<string>, now: nat)
    requires Wired(h) && g in h.watchers && h.watchers[g] == Loaded(id, copy)
    requires Allocator.Allocate(h.dirs, h.cursor) == Some(id)
    ensures var a := Step(h, Request(Create(purpose, now)));
            var k := Step(a, ExitWritten(g));
            && id in a.disk && a.disk[id].purpose == purpose && a.disk[id].state == Created
            && Enabled(a, ExitWritten(g)) && id in k.disk && k.disk[id] == copy && k.disk[id].state != Created
  {
    hide Allocator.Allocate;
    CreateSettles(h, purpose, now);
    var a := Step(h, Request(Create(purpose, now)));
    StepOfCreate(h, purpose, now);
    assert copy.state == Stopped || copy.state == Failed;
    hide CreateInstance, Wired;
    WatcherWrites(a, id, g, copy);
  }

  lemma StepOfCreate(h: Host, purpose: Option<string>, now: nat)
    ensures Step(h, Request(Create(purpose, now))) == CreateInstance(Bare(h), purpose, now).0.host
  {
    hide CreateInstance;
  }

  // An eviction: the first guest's watcher finds its handle, the guest is stopped and another one
  // started, and the watcher then removes that one. It runs, its own watcher waits, and nothing can
  // reach it through the registry.
  lemma EvictionHappens(h: Host, id: Id, now: nat)
    requires Wired(h) && id in h.disk && id !in h.registry
    ensures var g := h.nextGeneration;
            var events := [QuickStart(id, now), Waited(g, Some(CLEAN)), QuickStop(id, now),
                           QuickStart(id, now), HandleRemoved(g)];
            var k := After(h, events);
            && Possible(h, events) && id !in k.registry && id in k.disk && k.disk[id].state == Running
            && g + 1 in k.watchers && k.watchers[g + 1] == Blocked(id)
  {
    var g := h.nextGeneration;
    var e1, e2, e3, e4 := QuickStart(id, now), Waited(g, Some(CLEAN)), QuickStop(id, now), HandleRemoved(g);
    hide Step, Wired;
    var a := Step(h, e1);
    QuickStartRegisters(h, id, now);
    var b := Step(a, e2);
    WatcherSees(a, id, g);
    var c := Step(b, e3);
    QuickStopUnregisters(b, id, now);
    var d := Step(c, e1);
    QuickStartRegisters(c, id, now);
    WatcherRemoves(d, id, g);
    Cons(d, e4, []);
    Cons(c, e1, [e4]);
    Cons(b, e3, [e1] + [e4]);
    Cons(a, e2, [e3] + ([e1] + [e4]));
    Cons(h, e1, [e2] + ([e3] + ([e1] + [e4])));
    assert [e1, e2, e3, e1, e4] == [e1] + ([e2] + ([e3] + ([e1] + [e4])));
  }

  lemma WatcherRemoves(h: Host, id: Id, g: Generation)
    requires g in h.watchers && h.watchers[g] == Matched(id, Some(CLEAN))
    ensures Enabled(h, HandleRemoved(g))
    ensures Step(h, HandleRemoved(g))
         == h.(registry := h.registry - {id}, watchers := h.watchers[g := Reported(id, CLEAN)])
  {
  }
}

/** The round-robin slot allocator of the cfctl daemon (allocate_id) and its fairness over histories. */
module Allocator {
  import opened Wrappers

  const SLOTS: nat := 99

  predicate Slot(id: nat) {
    1 <= id <= SLOTS
  }

  function NextSlot(id: nat): nat {
    id % SLOTS + 1
  }

  // How many slots after `from` the slot `to` comes, going round.
  function Distance(from: nat, to: nat): nat
    requires Slot(from) && Slot(to)
  {
    if to >= from then to - from else to + SLOTS - from
  }

  // The stored cursor: None when the file is missing or does not parse. Zero and anything past the
  // last slot start over.
  function StartSlot(stored: Option<nat>): (c: nat)
    ensures Slot(c)
  {
    if stored.None? || !Slot(stored.value) then 1 else stored.value
  }

  // The first of n slots from c on that is not taken.
  function Scan(taken: set<nat>, c: nat, n: nat): Option<nat>
    decreases n
  {
    if n == 0 then None
    else if c !in taken then Some(c)
    else Scan(taken, NextSlot(c), n - 1)
  }

  function Allocate(taken: set<nat>, stored: Option<nat>): Option<nat> {
    Scan(taken, StartSlot(stored), SLOTS)
  }

  ghost predicate FirstFree(taken: set<nat>, start: nat, id: nat)
    requires Slot(start)
  {
    && Slot(id) && id !in taken
    && forall x :: Slot(x) && Distance(start, x) < Distance(start, id) ==> x in taken
  }

  lemma {:induction false} ScanMeaning(taken: set<nat>, c: nat, n: nat)
    requires Slot(c) && n <= SLOTS
    ensures match Scan(taken, c, n)
            case Some(id) => FirstFree(taken, c, id) && Distance(c, id) < n
            case None => forall x :: Slot(x) && Distance(c, x) < n ==> x in taken
    decreases n
  {
    if n != 0 && c in taken {
      ScanMeaning(taken, NextSlot(c), n - 1);
      forall x | Slot(x)
        ensures x == c || Distance(c, x) == Distance(NextSlot(c), x) + 1
      {
      }
    }
  }

  // From any stored cursor the allocator gives the first free slot in cyclic order, and none
  // exactly when all are taken.
  lemma AllocateMeaning(taken: set<nat>, stored: Option<nat>)
    ensures match Allocate(taken, stored)
            case Some(id) => FirstFree(taken, StartSlot(stored), id)
            case None => forall x :: Slot(x) ==> x in taken
  {
    ScanMeaning(taken, StartSlot(stored), SLOTS);
  }

  // allocate_id: the scan loop and the cursor file it rewrites on success only.
  method AllocateId(taken: set<nat>, stored: Option<nat>) returns (id: Option<nat>, stored': Option<nat>)
    ensures id == Allocate(taken, stored)
    ensures id.Some? ==> FirstFree(taken, StartSlot(stored), id.value) && stored' == Some(NextSlot(id.value))
    ensures id.None? ==> stored' == stored && forall x :: Slot(x) ==> x in taken
  {
    var next: nat := if stored.None? then 1 else stored.value;
    if next == 0 {
      next := 1;
    }
    var candidate: nat := next;
    var selected: Option<nat> := None;
    var tried: nat := 0;
    while tried < 99
      invariant 0 <= tried <= 99
      invariant tried == 0 ==> candidate == next
      invariant tried > 0 ==> Slot(candidate)
      invariant var c := if Slot(candidate) then candidate else 1;
                Scan(taken, c, 99 - tried) == Allocate(taken, stored)
      decreases 99 - tried
    {
      if candidate == 0 || candidate > 99 {
        candidate := 1;
      }
      if candidate !in taken {
        selected := Some(candidate);
        candidate := candidate % 99 + 1;
        break;
      }
      candidate := candidate % 99 + 1;
      tried := tried + 1;
    }
    AllocateMeaning(taken, stored);
    if selected.None? {
      return None, stored;
    }
    return selected, Some(candidate);
  }

  /* ---------- histories ---------- */

  datatype State = State(taken: set<nat>, stored: Option<nat>)

  // A slot can be given back, or taken by something else, at any time between allocations.
  datatype Event = Allocates | Changes(freed: set<nat>, occupied: set<nat>)

  function Step(s: State, e: Event): State {
    match e
    case Changes(freed, occupied) => s.(taken := s.taken - freed + occupied)
    case Allocates =>
      match Allocate(s.taken, s.stored)
      case None => s
      case Some(id) => State(s.taken + {id}, Some(NextSlot(id)))
  }

  function After(s: State, events: seq<Event>): State
    decreases |events|
  {
    if events == [] then s else After(Step(s, events[0]), events[1..])
  }

  ghost predicate Gives(s: State, e: Event, id: nat) {
    e.Allocates? && Allocate(s.taken, s.stored) == Some(id)
  }

  // An allocation from s returned x, or went past x and found it taken.
  ghost predicate Considers(s: State, e: Event, x: nat) {
    && e.Allocates?
    && match Allocate(s.taken, s.stored)
       case None => false
       case Some(id) =>
         x == id
         || (Slot(x) && Slot(id) && x in s.taken
             && Distance(StartSlot(s.stored), x) < Distance(StartSlot(s.stored), id))
  }

  // The cursor stands before x, and x before id.
  ghost predicate Ahead(s: State, x: nat, id: nat) {
    && Slot(id) && Slot(x) && x != id
    && s.stored.Some? && Slot(s.stored.value)
    && Distance(s.stored.value, x) < Distance(s.stored.value, id)
  }

  lemma StaysAhead(s: State, e: Event, x: nat, id: nat)
    requires Ahead(s, x, id) && !Considers(s, e, x)
    ensures Ahead(Step(s, e), x, id) && !Gives(s, e, id)
  {
    AllocateMeaning(s.taken, s.stored);
    hide Allocate;
  }

  // Then giving out id means considering x first.
  lemma {:induction false} Sweep(s: State, events: seq<Event>, id: nat, x: nat) returns (k: nat)
    requires Ahead(s, x, id)
    requires events != [] && Gives(After(s, events[..|events| - 1]), events[|events| - 1], id)
    ensures k < |events| && Considers(After(s, events[..k]), events[k], x)
    decreases |events|
  {
    hide Considers, Gives, Step, Ahead;
    var e, more := events[0], events[1..];
    assert events[..0] == [];
    if Considers(s, e, x) {
      return 0;
    }
    StaysAhead(s, e, x, id);
    assert |events| > 1;
    assert events[..|events| - 1][0] == e && events[..|events| - 1][1..] == more[..|more| - 1];
    k := Sweep(Step(s, e), more, id, x);
    assert events[..k + 1][0] == e && events[..k + 1][1..] == more[..k];
    k := k + 1;
  }

  lemma {:induction false} AfterAppend(s: State, first: seq<Event>, second: seq<Event>)
    ensures After(s, first + second) == After(After(s, first), second)
    decreases |first|
  {
    if first == [] {
      assert first + second == second;
    } else {
      AfterAppend(Step(s, first[0]), first[1..], second);
      assert (first + second)[1..] == first[1..] + second;
    }
  }

  // Fairness: between two allocations of the same id, every other slot was given out, or was taken
  // when the cursor went past it, whatever was freed and occupied meanwhile.
  lemma Fair(s: State, events: seq<Event>, i: nat, j: nat, id: nat, x: nat)
    requires i < j < |events|
    requires Gives(After(s, events[..i]), events[i], id) && Gives(After(s, events[..j]), events[j], id)
    requires Slot(x) && x != id
    ensures exists k :: i < k <= j && Considers(After(s, events[..k]), events[k], x)
  {
    var t := After(s, events[..i + 1]);
    AfterAppend(s, events[..i], [events[i]]);
    assert events[..i] + [events[i]] == events[..i + 1];
    assert t == After(Step(After(s, events[..i]), events[i]), []);
    PassedBehind(After(s, events[..i]), events[i], id, x);
    hide Considers, Gives, Step, Ahead;
    var between := events[i + 1..j + 1];
    AfterAppend(s, events[..i + 1], between[..|between| - 1]);
    assert events[..i + 1] + between[..|between| - 1] == events[..j];
    var k := Sweep(t, between, id, x);
    AfterAppend(s, events[..i + 1], between[..k]);
    assert events[..i + 1] + between[..k] == events[..i + 1 + k];
    assert between[k] == events[i + 1 + k];
    assert Considers(After(s, events[..i + 1 + k]), events[i + 1 + k], x);
  }

  // Just after id was given out, every other slot is nearer to the cursor than id.
  lemma PassedBehind(s: State, e: Event, id: nat, x: nat)
    requires Gives(s, e, id) && Slot(x) && x != id
    ensures Ahead(Step(s, e), x, id)
  {
    AllocateMeaning(s.taken, s.stored);
    hide Allocate;
  }
}

/**
 The connection reaper. A connection announces its end from its own thread and is freed by another:
 the manager thread while the server runs, the destructor of the manager at the end. Freeing a
 connection waits for its thread. Every lock section is one atomic step; threads interleave freely.
 */
module Reaper {
  import opened Bytes

  datatype Manager = Manager(conns: seq<nat>, zombies: seq<nat>, disposing: bool)

  function Erased(s: seq<nat>, c: nat): seq<nat> {
    if s == [] then [] else if s[0] == c then s[1..] else [s[0]] + Erased(s[1..], c)
  }

  function Added(m: Manager, c: nat): Manager { if c in m.conns then m else m.(conns := m.conns + [c]) }

  function Removed(m: Manager, c: nat): Manager {
    var m1 := m.(conns := Erased(m.conns, c));
    if m.disposing || c in m.zombies then m1 else m1.(zombies := m.zombies + [c])
  }

  class ResourceManager {
    var conns: seq<nat>
    var zombies: seq<nat>
    var disposing: bool

    function View(): Manager
      reads this
    {
      Manager(conns, zombies, disposing)
    }

    constructor ()
      ensures View() == Manager([], [], false)
    {
      conns, zombies, disposing := [], [], false;
    }

    method Add(c: nat)
      modifies this
      ensures View() == Added(old(View()), c)
    {
      var at := Find(conns, c);
      if at == |conns| { conns := conns + [c]; }
    }

    method Remove(c: nat)
      modifies this
      ensures View() == Removed(old(View()), c)
    {
      var at := Find(conns, c);
      ErasedAt(conns, c, at);
      if at < |conns| { conns := conns[..at] + conns[at + 1..]; }
      if disposing { return; }
      var z := Find(zombies, c);
      if z < |zombies| { return; }
      zombies := zombies + [c];
    }

    /** The lock section of clear: the caller frees the copy without the lock. */
    method Swap() returns (copy: seq<nat>)
      modifies this
      ensures View() == old(View()).(zombies := []) && copy == old(zombies)
    {
      copy, zombies := zombies, [];
    }

    /** The lock section of the destructor. */
    method Dispose() returns (copy: seq<nat>)
      modifies this
      ensures View() == old(View()).(disposing := true) && copy == conns
    {
      disposing := true;
      copy := conns;
    }
  }

  method Find(s: seq<nat>, c: nat) returns (at: nat)
    ensures at <= |s| && (at < |s| ==> s[at] == c) && c !in s[..at]
  {
    at := 0;
    while at < |s| && s[at] != c
      invariant at <= |s| && c !in s[..at]
    {
      at := at + 1;
    }
  }

  lemma {:induction false} ErasedAt(s: seq<nat>, c: nat, at: nat)
    requires at <= |s| && (at < |s| ==> s[at] == c) && c !in s[..at]
    ensures Erased(s, c) == if at < |s| then s[..at] + s[at + 1..] else s
    decreases |s|
  {
    if at > 0 {
      var h, t := s[0], s[1..];
      assert h in s[..at];
      assert t[..at - 1] == s[..at][1..];
      ErasedAt(t, c, at - 1);
      assert s == [h] + t;
      if at < |s| {
        assert s[..at] == [h] + t[..at - 1] && s[at + 1..] == t[at..];
        Assoc([h], t[..at - 1], t[at..]);
      }
    }
  }

  // ----- the threads

  /** A connection's thread: serving, past its call of remove, or joined. */
  datatype Thread = Running | Finishing | Ended

  /** The destructor of the manager: not called, manager thread joined, freeing the zombies,
      freeing the connections left, freeing the last zombies, finished. */
  datatype Phase = Up | Stopped | Clearing | Disposing | Sweeping | Gone

  /** `reaping` is what the manager thread still has to free of its copy, `pending` what the
      destructor has; `freed` lists the connections freed so far. */
  datatype World = World(manager: Manager, threads: map<nat, Thread>, reaping: seq<nat>, phase: Phase,
      pending: seq<nat>, freed: seq<nat>)

  const START := World(Manager([], [], false), map[], [], Up, [], [])

  datatype Step =
    | Add(c: nat)
    | Remove(c: nat)
    | End(c: nat)
    | Reap
    | FreeReaped
    | Stop
    | Clear
    | Dispose
    | Sweep
    | FreePending
    | Finish

  predicate Is(w: World, c: nat, t: Thread) { c in w.threads && w.threads[c] == t }

  /** Connections arrive only before the destructor runs, each calls remove once, and freeing waits
      for the connection's thread. */
  predicate Enabled(w: World, s: Step) {
    match s
    case Add(c) => w.phase == Up && c !in w.threads
    case Remove(c) => Is(w, c, Running)
    case End(c) => Is(w, c, Finishing)
    case Reap => w.phase == Up && w.reaping == []
    case FreeReaped => w.reaping != [] && Is(w, w.reaping[0], Ended)
    case Stop => w.phase == Up && w.reaping == []
    case Clear => w.phase == Stopped
    case Dispose => w.phase == Clearing && w.pending == []
    case Sweep => w.phase == Disposing && w.pending == []
    case FreePending => w.pending != [] && Is(w, w.pending[0], Ended)
    case Finish => w.phase == Sweeping && w.pending == []
  }

  function Apply(w: World, s: Step): World
    requires Enabled(w, s)
  {
    var m := w.manager;
    match s
    case Add(c) => w.(manager := Added(m, c), threads := w.threads[c := Running])
    case Remove(c) => w.(manager := Removed(m, c), threads := w.threads[c := Finishing])
    case End(c) => w.(threads := w.threads[c := Ended])
    case Reap => w.(manager := m.(zombies := []), reaping := m.zombies)
    case FreeReaped => w.(reaping := w.reaping[1..], freed := w.freed + [w.reaping[0]])
    case Stop => w.(phase := Stopped)
    case Clear => w.(manager := m.(zombies := []), phase := Clearing, pending := m.zombies)
    case Dispose => w.(manager := m.(disposing := true), phase := Phase.Disposing, pending := m.conns)
    case Sweep => w.(manager := m.(zombies := []), phase := Sweeping, pending := m.zombies)
    case FreePending => w.(pending := w.pending[1..], freed := w.freed + [w.pending[0]])
    case Finish => w.(phase := Gone)
  }

  predicate Possible(w: World, steps: seq<Step>)
    decreases |steps|
  {
    steps == [] || (Enabled(w, steps[0]) && Possible(Apply(w, steps[0]), steps[1..]))
  }

  function Run(w: World, steps: seq<Step>): World
    requires Possible(w, steps)
    decreases |steps|
  {
    if steps == [] then w else Run(Apply(w, steps[0]), steps[1..])
  }

  // ----- every connection is in one place

  /** The connections nobody has taken charge of yet. */
  function Live(w: World): seq<nat> { if w.manager.disposing then [] else w.manager.conns }

  /** Every place where a connection waits to be freed, or has been. */
  function Places(w: World): multiset<nat> {
    multiset(Live(w)) + multiset(w.manager.zombies) + multiset(w.reaping) + multiset(w.pending) + multiset(w.freed)
  }

  /** Adding lists a connection once, however often it is called, and leaves the others where they are. */
  lemma AddListsOnce(m: Manager, c: nat)
    requires Distinct(m.conns)
    ensures var r := Added(m, c);
            && Distinct(r.conns) && c in r.conns && Added(r, c) == r
            && r.zombies == m.zombies && r.disposing == m.disposing
            && m.conns <= r.conns && |r.conns| == |m.conns| + if c in m.conns then 0 else 1
  {
  }

  predicate NotRunning(w: World, s: seq<nat>) { forall c :: c in s ==> c in w.threads && w.threads[c] != Running }

  predicate Distinct(s: seq<nat>) { forall i, j :: 0 <= i < j < |s| ==> s[i] != s[j] }

  /** The list of connections is that of the running threads. */
  predicate ListsOk(w: World) {
    && Distinct(w.manager.conns)
    && (forall c :: c in w.manager.conns ==> c in w.threads)
    && (forall c :: c in w.threads ==> (w.threads[c] == Running <==> c in w.manager.conns))
    && NotRunning(w, w.manager.zombies) && NotRunning(w, w.reaping)
    && (w.phase != Phase.Disposing ==> NotRunning(w, w.pending))
    && (w.phase == Phase.Disposing ==> forall c :: c in w.pending ==> c in w.threads)
    && (w.manager.disposing ==> forall c :: c in w.manager.conns ==> c in w.pending)
    && (forall c :: c in w.freed ==> Is(w, c, Ended))
  }

  predicate PhaseOk(w: World) {
    && (w.manager.disposing <==> w.phase == Phase.Disposing || w.phase == Sweeping || w.phase == Gone)
    && (w.phase != Up ==> w.reaping == [])
    && (w.phase == Up || w.phase == Stopped || w.phase == Gone ==> w.pending == [])
    && (w.phase == Sweeping || w.phase == Gone ==> w.manager.zombies == [])
  }

  predicate Ok(w: World) { Places(w) == multiset(w.threads.Keys) && ListsOk(w) && PhaseOk(w) }

  lemma {:induction false} ErasedMultiset(s: seq<nat>, c: nat)
    ensures multiset(Erased(s, c)) == multiset(s) - multiset{c}
  {
    if s != [] {
      assert s == [s[0]] + s[1..];
      ErasedMultiset(s[1..], c);
    }
  }

  lemma HeadAndTail(s: seq<nat>)
    requires s != []
    ensures multiset(s) == multiset{s[0]} + multiset(s[1..])
  {
    assert s == [s[0]] + s[1..];
  }

  lemma PhaseKept(w: World, s: Step)
    requires PhaseOk(w) && Enabled(w, s)
    ensures PhaseOk(Apply(w, s))
  {
    hide Erased;
  }

  lemma {:induction false} ErasedMembers(s: seq<nat>, c: nat)
    requires Distinct(s)
    ensures Distinct(Erased(s, c)) && forall x :: x in Erased(s, c) <==> x in s && x != c
  {
    if s != [] {
      var t := s[1..];
      assert s == [s[0]] + t && s[0] !in t;
      ErasedMembers(t, c);
    }
  }

  lemma AddPlaced(w: World, c: nat)
    requires Places(w) == multiset(w.threads.Keys) && c !in w.manager.conns && !w.manager.disposing
             && Enabled(w, Add(c))
    ensures var w' := Apply(w, Add(c)); Places(w') == multiset(w'.threads.Keys)
  {
    var w' := Apply(w, Add(c));
    var keys := w.threads.Keys;
    assert w'.threads.Keys == keys + {c};
    assert multiset(keys + {c}) == multiset(keys) + multiset{c};
    LastOne(w.manager.conns, c);
    OneMore(multiset(w.manager.conns), multiset(w.manager.zombies), multiset(w.reaping), multiset(w.pending),
            multiset(w.freed), c);
  }

  lemma OneMore(a: multiset<nat>, b: multiset<nat>, d: multiset<nat>, e: multiset<nat>, f: multiset<nat>, c: nat)
    ensures (a + multiset{c}) + b + d + e + f == (a + b + d + e + f) + multiset{c}
  {
  }

  lemma FreePlaced(w: World, s: Step)
    requires Enabled(w, s) && (s.FreeReaped? || s.FreePending?)
    ensures Places(Apply(w, s)) == Places(w)
  {
    if s.FreeReaped? { FreeReapedPlaced(w); } else { FreePendingPlaced(w); }
  }

  lemma FreeReapedPlaced(w: World)
    requires Enabled(w, FreeReaped)
    ensures Places(Apply(w, FreeReaped)) == Places(w)
  {
    HeadAndTail(w.reaping);
    LastOne(w.freed, w.reaping[0]);
  }

  lemma FreePendingPlaced(w: World)
    requires Enabled(w, FreePending)
    ensures Places(Apply(w, FreePending)) == Places(w)
  {
    HeadAndTail(w.pending);
    LastOne(w.freed, w.pending[0]);
  }

  lemma LastOne(s: seq<nat>, c: nat)
    ensures multiset(s + [c]) == multiset(s) + multiset{c}
  {
  }

  lemma RemovePlaced(w: World, c: nat)
    requires Ok(w) && Enabled(w, Remove(c))
    ensures var w' := Apply(w, Remove(c)); Places(w') == multiset(w'.threads.Keys)
  {
    hide Erased, Distinct, Places;
    assert Apply(w, Remove(c)).threads.Keys == w.threads.Keys;
    RemoveMoves(w, c);
  }

  /** A connection that announces its end changes lists, or stays where the destructor has it. */
  lemma RemoveMoves(w: World, c: nat)
    requires Enabled(w, Remove(c)) && (!w.manager.disposing ==> c in w.manager.conns && c !in w.manager.zombies)
    ensures Places(Apply(w, Remove(c))) == Places(w)
  {
    hide Erased;
    var m := w.manager;
    ErasedMultiset(m.conns, c);
    if !m.disposing {
      LastOne(m.zombies, c);
      Moved(multiset(m.conns), multiset(m.zombies), c);
    }
  }

  lemma Moved(a: multiset<nat>, b: multiset<nat>, c: nat)
    requires c in a
    ensures (a - multiset{c}) + (b + multiset{c}) == a + b
  {
  }

  /** Lists change hands as a whole. */
  lemma ListPlaced(w: World, s: Step)
    requires PhaseOk(w) && Enabled(w, s) && (s.Reap? || s.Clear? || s.Dispose? || s.Sweep?)
    ensures Places(Apply(w, s)) == Places(w)
  {
    match s
    case Reap => assert w.reaping == [];
    case Clear => assert w.pending == [];
    case Dispose => assert w.pending == [] && !w.manager.disposing;
    case Sweep => assert w.pending == [];
  }

  lemma PlacesKept(w: World, s: Step)
    requires Ok(w) && Enabled(w, s)
    ensures Places(Apply(w, s)) == multiset(Apply(w, s).threads.Keys)
  {
    hide Places, Added, Removed;
    match s
    case Add(c) => AddPlaced(w, c);
    case Remove(c) => RemovePlaced(w, c);
    case End(c) => EndPlaced(w, c);
    case FreeReaped => FreePlaced(w, s);
    case FreePending => FreePlaced(w, s);
    case Reap => ListPlaced(w, s);
    case Clear => ListPlaced(w, s);
    case Dispose => ListPlaced(w, s);
    case Sweep => ListPlaced(w, s);
    case Stop => PhasePlaced(w, Stopped);
    case Finish => PhasePlaced(w, Gone);
  }

  lemma EndPlaced(w: World, c: nat)
    requires Enabled(w, End(c))
    ensures var w' := Apply(w, End(c)); Places(w') == Places(w) && w'.threads.Keys == w.threads.Keys
  {
    assert Apply(w, End(c)).threads.Keys == w.threads.Keys;
  }

  lemma PhasePlaced(w: World, phase: Phase)
    ensures Places(w.(phase := phase)) == Places(w)
  {
  }

  lemma RemoveKeepsLists(w: World, c: nat)
    requires Ok(w) && Enabled(w, Remove(c))
    ensures ListsOk(Apply(w, Remove(c)))
  {
    hide Erased, Distinct, Places;
    ErasedMembers(w.manager.conns, c);
  }

  lemma AddKeepsLists(w: World, c: nat)
    requires Ok(w) && Enabled(w, Add(c))
    ensures ListsOk(Apply(w, Add(c)))
  {
    hide Places;
  }

  lemma EndKeepsLists(w: World, c: nat)
    requires ListsOk(w) && Enabled(w, End(c))
    ensures ListsOk(Apply(w, End(c)))
  {
    hide Distinct;
  }

  lemma FreeKeepsLists(w: World, s: Step)
    requires ListsOk(w) && PhaseOk(w) && Enabled(w, s) && (s.FreeReaped? || s.FreePending?)
    ensures ListsOk(Apply(w, s))
  {
    hide Distinct;
    var list := if s.FreeReaped? then w.reaping else w.pending;
    assert list == [list[0]] + list[1..];
  }

  lemma TakeKeepsLists(w: World, s: Step)
    requires ListsOk(w) && PhaseOk(w) && Enabled(w, s)
             && (s.Reap? || s.Clear? || s.Dispose? || s.Sweep? || s.Stop? || s.Finish?)
    ensures ListsOk(Apply(w, s))
  {
    hide Distinct;
  }

  lemma ListsKept(w: World, s: Step)
    requires Ok(w) && Enabled(w, s)
    ensures ListsOk(Apply(w, s))
  {
    hide Places, ListsOk, PhaseOk, Apply;
    match s
    case Add(c) => AddKeepsLists(w, c);
    case Remove(c) => RemoveKeepsLists(w, c);
    case End(c) => EndKeepsLists(w, c);
    case FreeReaped => FreeKeepsLists(w, s);
    case FreePending => FreeKeepsLists(w, s);
    case Reap => TakeKeepsLists(w, s);
    case Clear => TakeKeepsLists(w, s);
    case Dispose => TakeKeepsLists(w, s);
    case Sweep => TakeKeepsLists(w, s);
    case Stop => TakeKeepsLists(w, s);
    case Finish => TakeKeepsLists(w, s);
  }

  lemma StepKeepsOk(w: World, s: Step)
    requires Ok(w) && Enabled(w, s)
    ensures Ok(Apply(w, s))
  {
    hide Places, ListsOk, PhaseOk, Apply, Enabled;
    PlacesKept(w, s);
    ListsKept(w, s);
    PhaseKept(w, s);
  }

  lemma {:induction false} RunKeepsOk(w: World, steps: seq<Step>)
    requires Ok(w) && Possible(w, steps)
    ensures Ok(Run(w, steps))
    decreases |steps|
  {
    hide Ok, Apply, Enabled;
    if steps != [] {
      StepKeepsOk(w, steps[0]);
      RunKeepsOk(Apply(w, steps[0]), steps[1..]);
    }
  }

  // ----- exactly once

  /** Over every interleaving, no connection is freed twice, none that was never added, and none
      before its own thread has ended: the thread that frees it is another one. */
  lemma FreedAtMostOnce(steps: seq<Step>, c: nat)
    requires Possible(START, steps)
    ensures var w := Run(START, steps);
            && multiset(w.freed)[c] <= 1 && (c in w.freed ==> Is(w, c, Ended))
  {
    hide Possible, Run;
    StartOk();
    RunKeepsOk(START, steps);
    var w := Run(START, steps);
    assert multiset(w.freed)[c] <= Places(w)[c] <= 1;
  }

  lemma StartOk()
    ensures Ok(START)
  {
    assert START.threads.Keys == {};
  }

  /** Once the manager is gone, every connection ever added has been freed, exactly once. */
  lemma FreedExactlyOnce(steps: seq<Step>)
    requires Possible(START, steps) && Run(START, steps).phase == Gone
    ensures var w := Run(START, steps); multiset(w.freed) == multiset(w.threads.Keys)
  {
    hide Possible, Run;
    StartOk();
    RunKeepsOk(START, steps);
  }

  // ----- destruction ends

  ghost function Unended(threads: map<nat, Thread>): set<nat> { set c | c in threads && threads[c] != Ended }

  function Rank(p: Phase): nat {
    match p
    case Up => 5
    case Stopped => 4
    case Clearing => 3
    case Disposing => 2
    case Sweeping => 1
    case Gone => 0
  }

  /** What is left to do: lists to free, threads to run to their end, phases to go through. */
  ghost function Work(w: World): nat {
    |Live(w)| + |w.manager.zombies| + |w.reaping| + |w.pending| + |w.manager.conns| + |Unended(w.threads)|
        + Rank(w.phase)
  }

  lemma {:induction false} ErasedLength(s: seq<nat>, c: nat)
    requires c in s
    ensures |Erased(s, c)| == |s| - 1
  {
    if s[0] != c { ErasedLength(s[1..], c); }
  }

  lemma ThreadEnds(threads: map<nat, Thread>, c: nat)
    requires c in threads && threads[c] == Finishing
    ensures |Unended(threads[c := Ended])| == |Unended(threads)| - 1
  {
    assert Unended(threads[c := Ended]) == Unended(threads) - {c};
  }

  lemma ThreadFinishes(threads: map<nat, Thread>, c: nat)
    requires c in threads && threads[c] == Running
    ensures Unended(threads[c := Finishing]) == Unended(threads)
  {
  }

  lemma EveryStepCounts(w: World, s: Step)
    requires Ok(w) && w.phase != Up && Enabled(w, s)
    ensures Work(Apply(w, s)) < Work(w) && Apply(w, s).phase != Up
  {
    hide Places, Unended, Erased, Distinct;
    if s.Remove? {
      ErasedLength(w.manager.conns, s.c);
      ThreadFinishes(w.threads, s.c);
    } else if s.End? {
      ThreadEnds(w.threads, s.c);
    }
  }

  /** Once the manager thread is joined, the destructor is done after a bounded number of steps of
      all threads together, whatever the schedule. */
  lemma {:induction false} DestructionEnds(w: World, steps: seq<Step>)
    requires Ok(w) && w.phase != Up && Possible(w, steps)
    ensures |steps| <= Work(w)
    decreases |steps|
  {
    hide Ok, Apply, Enabled, Work;
    if steps != [] {
      EveryStepCounts(w, steps[0]);
      StepKeepsOk(w, steps[0]);
      DestructionEnds(Apply(w, steps[0]), steps[1..]);
    }
  }

  /** And it does not get stuck before: until the manager is gone, some thread can take a step other
      than accepting a connection or looking for zombies. */
  lemma DestructionGoesOn(w: World)
    requires Ok(w) && w.phase != Gone
    ensures exists s: Step :: Enabled(w, s) && !s.Add? && !s.Reap?
  {
    hide Places, Distinct;
    if w.reaping != [] {
      Unblocks(w, w.reaping[0], FreeReaped);
    } else if w.pending != [] {
      Unblocks(w, w.pending[0], FreePending);
    } else {
      hide ListsOk;
      match w.phase
      case Up => assert Enabled(w, Stop);
      case Stopped => assert Enabled(w, Clear);
      case Clearing => assert Enabled(w, Dispose);
      case Disposing => assert Enabled(w, Sweep);
      case Sweeping => assert Enabled(w, Finish);
    }
  }

  /** Whatever a connection's thread is at, it can go on, or the connection can be freed. */
  lemma Unblocks(w: World, c: nat, free: Step)
    requires c in w.threads && (free == FreeReaped || free == FreePending) && (Is(w, c, Ended) ==> Enabled(w, free))
    ensures exists s: Step :: Enabled(w, s) && !s.Add? && !s.Reap?
  {
    match w.threads[c]
    case Running => assert Enabled(w, Remove(c));
    case Finishing => assert Enabled(w, End(c));
    case Ended => assert Enabled(w, free);
  }

  /** A removal puts a connection up for freeing exactly when the manager is not being destroyed and
      the connection is not already up for it. */
  lemma RemoveListsExactly(m: Manager, c: nat)
    ensures Removed(m, c).zombies == (if !m.disposing && c !in m.zombies then m.zombies + [c] else m.zombies)
    ensures multiset(Removed(m, c).zombies)[c] == multiset(m.zombies)[c] + 1 <==> !m.disposing && c !in m.zombies
  {
    hide Erased;
    LastOne(m.zombies, c);
  }

  /** So the manager relies on each connection calling remove once: a second call lists it again
      exactly when it comes after the manager took its copy and before destruction. */
  lemma SecondRemoveFreesTwice(m: Manager, c: nat, taken: bool)
    requires !m.disposing && c !in m.zombies
    ensures var m1 := Removed(m, c);
            var m2 := if taken then m1.(zombies := []) else m1;
            c in m1.zombies && (multiset(Removed(m2, c).zombies)[c] == multiset(m2.zombies)[c] + 1 <==> taken)
  {
    hide Erased;
    var m1 := Removed(m, c);
    RemoveListsExactly(m, c);
    RemoveListsExactly(if taken then m1.(zombies := []) else m1, c);
  }
}

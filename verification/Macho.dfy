/** Machines over a hierarchy of states, with entry and exit actions, initial transitions, history and boxes. */
module Macho {
  import opened Options
  import opened StateHierarchy

  /** How a state is initialised: by its init action, by its history if it has one, or by an init action with
      parameters. */
  datatype Initializer = Default | History | Parameters

  datatype Event = Event(id: nat)

  datatype Target = Target(state: StateInstance, init: Initializer)

  /** Where the machine is: its state, how many actions of the user ran, and what each state has for its history. */
  datatype Point = Point(state: StateInstance, calls: nat, memory: map<StateInstance, StateInstance?>)

  /** The machine went from one resting point to another because of a goal; without a goal it stayed. */
  datatype Leg = Leg(from: Point, goal: Option<Target>, to: Point)

  class Machine {
    const states: set<StateInstance>
    const root: StateInstance
    ghost const maxDepth: nat
    /** The user's init actions and event handlers: where they go next, and which further event a handler dispatches.
        They may act differently each time. Further events rank lower, so that they end. */
    const onInit: (StateInstance, nat) -> Option<Target>
    const onEvent: (Event, StateInstance, nat) -> Option<Target>
    const onFollow: (Event, StateInstance, nat) -> Option<Event>
    ghost const rank: Event -> nat
    var current: StateInstance?
    var pendingState: StateInstance?
    var pendingInit: Initializer
    var pendingEvent: Option<Event>
    /** How many actions of the user ran, and how many boxes were made. */
    var calls: nat
    var boxCount: nat
    ghost var trace: seq<Action>

    constructor (root: StateInstance, states: set<StateInstance>, ghost maxDepth: nat,
        onInit: (StateInstance, nat) -> Option<Target>, onEvent: (Event, StateInstance, nat) -> Option<Target>,
        onFollow: (Event, StateInstance, nat) -> Option<Event>, ghost rank: Event -> nat)
      ensures this.root == root && this.states == states && this.maxDepth == maxDepth
      ensures this.onInit == onInit && this.onEvent == onEvent && this.onFollow == onFollow && this.rank == rank
      ensures current == null && pendingState == null && pendingEvent == None && trace == [] && calls == 0
        && boxCount == 0
    {
      this.root, this.states, this.maxDepth := root, states, maxDepth;
      this.onInit, this.onEvent, this.onFollow, this.rank := onInit, onEvent, onFollow, rank;
      current, pendingState, pendingInit, pendingEvent := null, null, Default, None;
      calls, boxCount, trace := 0, 0, [];
    }

    /** The hierarchy is complete, and init actions only go to states inside theirs. */
    ghost predicate Hierarchy() {
      && root in states && root.parent == null && root.strategy == NoHistory
      && (forall s :: s in states ==> Rooted(s) && s.depth <= maxDepth && IsChild(s, root))
      && (forall s :: s in states ==> if s.parent == null then s == root else s.parent in states)
      && (forall s, n :: s in states && onInit(s, n).Some? ==> Inside(onInit(s, n).value.state, s))
      && (forall n :: onInit(root, n) == None)
      && (forall e, s, n :: s in states && onEvent(e, s, n).Some? ==> onEvent(e, s, n).value.state in states)
      && (forall e, s, n :: s in states && onFollow(e, s, n).Some? ==> rank(onFollow(e, s, n).value) < rank(e))
    }

    /** A state of the machine inside another. */
    ghost predicate Inside(s: StateInstance, other: StateInstance) {
      s in states && Rooted(s) && IsChild(s, other) && s != other
    }

    /** The states around the current one, and itself. */
    ghost function Active(): seq<StateInstance>
      requires Hierarchy() && (current != null ==> current in states)
      reads this`current
    {
      if current == null then [] else Chain(current)
    }

    /** A state that keeps a history may have this one. */
    ghost predicate Recalls(s: StateInstance, history: StateInstance) {
      Inside(history, s) && s.strategy != NoHistory
    }

    /** A state's history is empty, or the state keeps one and it is inside the state. */
    ghost predicate Historic()
      reads states`history
    {
      forall s :: s in states && s.history != null ==> Recalls(s, s.history)
    }

    /** Every state entered has its box; a state's own box is gone with its exit unless it is persistent. */
    ghost predicate Boxed(active: seq<StateInstance>)
      reads this`boxCount, states`box
    {
      && (forall s :: s in states && s in active ==> s.box.Some?)
      && (forall s :: s in states && s !in active && s.ownBox && !s.persistent ==> s.box == None)
      && (forall s :: s in states && s.box.Some? ==> s.box.value <= boxCount)
    }

    ghost predicate Valid()
      reads this, states
    {
      && Hierarchy() && Historic() && (current != null ==> current in states)
      && Replay(trace) == Some(Active()) && Boxed(Active())
      && (pendingState != null ==> pendingState in states)
    }

    /** s is left unless it is around next; then nothing outside it is left either. */
    lemma ExitStops(s: StateInstance, next: StateInstance)
      requires Hierarchy() && s in states && next in states && s.parent != null
      ensures s == next || !IsChild(next, s) ==> Shared(Chain(s), Above(next)) == Shared(Chain(s.parent), Above(next))
      ensures !(s == next || !IsChild(next, s)) ==> Shared(Chain(s), Above(next)) == |Chain(s)|
    {
      if next.parent != null {
        ChainMembers(next.parent, s);
        if IsChild(next.parent, s) {
          DepthsGrow(next.parent, s);
          SharedAll(Chain(s), Above(next));
        } else {
          SharedDrop(Chain(s.parent), s, Above(next));
        }
      } else {
        SharedDrop(Chain(s.parent), s, Above(next));
      }
    }

    /** The exit action of the innermost state that is entered. */
    method Leave(s: StateInstance)
      requires Hierarchy() && s in states && s.parent != null
      requires Replay(trace) == Some(Chain(s)) && Boxed(Chain(s))
      modifies this`trace, s`box
      ensures trace == old(trace) + [Exited(s)] && Replay(trace) == Some(Chain(s.parent)) && Boxed(Chain(s.parent))
      ensures s.box == if s.ownBox && !s.persistent then None else old(s.box)
    {
      hide Replay, Chain;
      ChainLast(s);
      ReplayExit(trace, Chain(s.parent), s);
      trace := trace + [Exited(s)];
      if s.ownBox && !s.persistent {
        s.box := None;
      }
    }

    lemma ChainLast(s: StateInstance)
      requires Rooted(s) && s.parent != null
      ensures Chain(s) == Chain(s.parent) + [s] && Chain(s)[..|Chain(s)| - 1] == Chain(s.parent)
      ensures s !in Chain(s.parent) && forall t :: t in Chain(s) <==> t in Chain(s.parent) || t == s
    {
      ChainMembers(s.parent, s);
      if IsChild(s.parent, s) {
        DepthsGrow(s.parent, s);
      }
    }

    /** What is left of the exits after the first. */
    lemma ExitsMore(s: StateInstance, k: nat)
      requires Rooted(s) && s.parent != null && k <= |Chain(s.parent)|
      ensures k <= |Chain(s)| && Exits(Chain(s)[k..]) == [Exited(s)] + Exits(Chain(s.parent)[k..])
        && Chain(s)[..k] == Chain(s.parent)[..k]
      ensures forall t :: t in Chain(s)[k..] <==> t in Chain(s.parent)[k..] || t == s
    {
      assert Chain(s)[k..] == Chain(s.parent)[k..] + [s];
      EntriesMore(Chain(s.parent)[k..], s);
    }

    /** A new machine over states that were not used yet is ready to start. */
    lemma Unstarted()
      requires Hierarchy() && current == null && pendingState == null && trace == []
      requires forall s :: s in states ==> s.history == null && s.box == None
      ensures Valid()
    {
    }

    /** Takes the exit actions from s outwards that going to next asks for. */
    method Exit(s: StateInstance, next: StateInstance)
      requires Hierarchy() && s in states && next in states
      requires Replay(trace) == Some(Chain(s)) && Boxed(Chain(s))
      modifies this`trace, states`box
      ensures var k := Shared(Chain(s), Above(next));
        trace == old(trace) + Exits(Chain(s)[k..]) && Replay(trace) == Some(Chain(s)[..k]) && Boxed(Chain(s)[..k])
      ensures forall t :: t in states && t !in Chain(s)[Shared(Chain(s), Above(next))..] ==> t.box == old(t.box)
      ensures forall t :: t in states && t.persistent ==> t.box == old(t.box)
      decreases s.depth
    {
      hide Replay, Boxed, Chain, Above, Shared, Exits;
      if s.parent == null {
        RootChain(s, next);
        return;
      }
      ExitStops(s, next);
      if s == next || !IsChild(next, s) {
        Leave(s);
        Exit(s.parent, next);
        ExitsMore(s, Shared(Chain(s), Above(next)));
      } else {
        NoExits(Chain(s));
      }
    }

    lemma RootChain(s: StateInstance, next: StateInstance)
      requires Rooted(s) && Rooted(next) && s.parent == null
      ensures Chain(s) == [] && Shared(Chain(s), Above(next)) == 0 && Exits([]) == []
    {
    }

    lemma NoExits(chain: seq<StateInstance>)
      ensures chain[|chain|..] == [] && chain[..|chain|] == chain && Exits([]) == []
    {
    }

    /** The states around t, and t too unless the entry is the first. */
    ghost function Reached(t: StateInstance, first: bool): seq<StateInstance>
      requires Rooted(t)
    {
      if first then Above(t) else Chain(t)
    }

    /** t is entered unless previous is inside it already; then nothing outside it is entered either. */
    lemma EntryStops(t: StateInstance, previous: StateInstance, first: bool)
      requires Hierarchy() && t in states && previous in states && t.parent != null
      ensures first || !IsChild(previous, t) ==>
        Shared(Chain(previous), Reached(t, first)) == Shared(Chain(previous), Reached(t.parent, false))
        && Shared(Chain(previous), Reached(t, first)) <= |Chain(t.parent)|
      ensures !first && IsChild(previous, t) ==> Shared(Chain(previous), Reached(t, first)) == |Chain(t)|
    {
      ChainMembers(previous, t);
      if !first {
        if IsChild(previous, t) {
          SharedAll(Chain(t), Chain(previous));
        } else {
          SharedDrop(Chain(t.parent), t, Chain(previous));
        }
      }
    }

    method CreateBox(t: StateInstance)
      modifies this`boxCount, t`box
      ensures t.box.Some? && (old(t.box).Some? ==> t.box == old(t.box)) && boxCount >= old(boxCount)
      ensures old(t.box) == None && t.ownBox ==> old(boxCount) < t.box.value
      ensures old(t.box) == None ==> t.box.value <= boxCount
    {
      if t.box == None {
        if t.ownBox {
          boxCount := boxCount + 1;
          t.box := Some(boxCount);
        } else {
          t.box := Some(0);
        }
      }
    }

    lemma BoxedMore(t: StateInstance, around: seq<StateInstance>, chain: seq<StateInstance>, before: nat)
      requires t in states && t.box.Some? && t.box.value <= boxCount && before <= boxCount
      requires forall s :: s in chain <==> s in around || s == t
      requires forall s :: s in states && s != t && s in around ==> s.box.Some?
      requires forall s :: s in states && s != t && s !in around && s.ownBox && !s.persistent ==> s.box == None
      requires forall s :: s in states && s != t && s.box.Some? ==> s.box.value <= before
      ensures Boxed(chain)
    {
    }

    /** The entry action of a state inside the states that are entered. */
    method Join(t: StateInstance)
      requires Hierarchy() && t in states && t.parent != null
      requires Replay(trace) == Some(Chain(t.parent)) && Boxed(Chain(t.parent))
      modifies this`trace, this`boxCount, t`box
      ensures trace == old(trace) + [Entered(t)] && Replay(trace) == Some(Chain(t)) && Boxed(Chain(t))
      ensures t.box.Some? && (old(t.box).Some? ==> t.box == old(t.box))
      ensures boxCount >= old(boxCount) && (t.ownBox && !t.persistent ==> old(boxCount) < t.box.value)
    {
      hide Hierarchy, Chain;
      LookAt(t);
      CreateBox(t);
      ReplayMore(trace, Entered(t));
      trace := trace + [Entered(t)];
      BoxedMore(t, Chain(t.parent), Chain(t), old(boxCount));
    }

    lemma LookAt(t: StateInstance)
      requires Hierarchy() && t in states && t.parent != null
      ensures Rooted(t) && Rooted(t.parent) && t.parent in states && t.parent.depth < t.depth
      ensures Chain(t) == Chain(t.parent) + [t] && t !in Chain(t.parent)
      ensures forall s :: s in Chain(t) <==> s in Chain(t.parent) || s == t
    {
      ChainLast(t);
    }

    /** What comes after the entries of the states around t. */
    lemma EntriesLast(t: StateInstance, k: nat)
      requires Rooted(t) && t.parent != null && k <= |Chain(t.parent)|
      ensures k <= |Chain(t)| && Entries(Chain(t)[k..]) == Entries(Chain(t.parent)[k..]) + [Entered(t)]
        && Chain(t)[..k] == Chain(t.parent)[..k]
      ensures t !in Chain(t.parent)[k..] && forall s :: s in Chain(t)[k..] <==> s in Chain(t.parent)[k..] || s == t
    {
      ChainLast(t);
      assert Chain(t)[k..] == Chain(t.parent)[k..] + [t];
      EntriesMore(Chain(t.parent)[k..], t);
    }

    /** The states have boxes, and those of the states that do not keep theirs were made after the first `before`. */
    ghost predicate Fresh(entered: seq<StateInstance>, before: nat)
      reads states`box
    {
      forall s :: s in entered ==> s in states && s.box.Some? && (s.ownBox && !s.persistent ==> before < s.box.value)
    }

    lemma FreshMore(t: StateInstance, k: nat, before: nat)
      requires Rooted(t) && t.parent != null && k <= |Chain(t.parent)| && Fresh(Chain(t.parent)[k..], before)
        && Fresh([t], before)
      ensures Fresh(Chain(t)[k..], before)
    {
      EntriesLast(t, k);
      assert t in [t];
    }

    /** Takes the entry actions down to t that coming from previous asks for. */
    method Entry(t: StateInstance, previous: StateInstance, first: bool)
      requires Hierarchy() && t in states && previous in states
      requires var k := Shared(Chain(previous), Reached(t, first));
        k <= |Chain(t)| && Replay(trace) == Some(Chain(t)[..k]) && Boxed(Chain(t)[..k])
      modifies this`trace, this`boxCount, states`box
      ensures trace == old(trace) + Entries(Chain(t)[Shared(Chain(previous), Reached(t, first))..])
      ensures Replay(trace) == Some(Chain(t)) && Boxed(Chain(t)) && boxCount >= old(boxCount)
      ensures forall s :: s in states ==>
        (s !in Chain(t)[Shared(Chain(previous), Reached(t, first))..] || old(s.box).Some? ==> s.box == old(s.box))
      ensures Fresh(Chain(t)[Shared(Chain(previous), Reached(t, first))..], old(boxCount))
      decreases t.depth
    {
      hide Replay, Boxed, Chain, Above, Shared, Entries, Reached;
      if t.parent == null {
        RootEntry(t, previous, first);
        return;
      }
      EntryStops(t, previous, first);
      ghost var k := Shared(Chain(previous), Reached(t, first));
      if first || !IsChild(previous, t) {
        EntriesLast(t, k);
        Entry(t.parent, previous, false);
        Join(t);
        FreshMore(t, k, old(boxCount));
      } else {
        NoEntries(Chain(t));
      }
    }

    lemma RootEntry(t: StateInstance, previous: StateInstance, first: bool)
      requires Rooted(t) && Rooted(previous) && t.parent == null
      ensures Chain(t) == [] && Shared(Chain(previous), Reached(t, first)) == 0 && Entries([]) == []
    {
    }

    lemma NoEntries(chain: seq<StateInstance>)
      ensures chain[|chain|..] == [] && chain[..|chain|] == chain && Entries([]) == []
    {
    }

    /** The state just inside `outer` on the way to s. */
    ghost function Toward(s: StateInstance, outer: StateInstance): StateInstance
      requires Rooted(s) && IsChild(s, outer) && s != outer
      decreases s.depth
    {
      if s.parent == outer then s else Toward(s.parent, outer)
    }

    /** What a state around s remembers when s is left: s, or the state just inside on the way to it, or nothing new. */
    ghost function Remembered(outer: StateInstance, s: StateInstance, before: StateInstance?): StateInstance?
      requires Rooted(s)
    {
      if s == outer || !IsChild(s, outer) then before else
      match outer.strategy
      case NoHistory => before
      case Shallow => Toward(s, outer)
      case Deep => s
    }

    /** Updates the history of the states around s. */
    method SetHistorySuper(s: StateInstance, deep: StateInstance)
      requires Hierarchy() && s in states && deep in states && IsChild(deep, s)
      modifies states`history
      ensures forall t :: t in states && IsChild(s, t) && t != s ==> t.history == Remembered(t, deep, old(t.history))
      ensures forall t :: t in states && !(IsChild(s, t) && t != s) ==> t.history == old(t.history)
      decreases s.depth
    {
      if s.parent != null {
        SaveHistory(s.parent, s, deep);
      }
    }

    lemma TowardParent(s: StateInstance, inner: StateInstance)
      requires Rooted(s) && IsChild(s, inner) && inner.parent != null
      ensures IsChild(s, inner.parent) && s != inner.parent && Toward(s, inner.parent) == inner
      decreases s.depth
    {
      DepthsGrow(s, inner);
      if s != inner {
        TowardParent(s.parent, inner);
        DepthsGrow(s.parent, inner.parent);
      }
    }

    /** The parent's strategy decides what it keeps; the states around it are asked next. */
    method SaveHistory(self: StateInstance, shallow: StateInstance, deep: StateInstance)
      requires Hierarchy() && self in states && shallow in states && deep in states
      requires shallow.parent == self && IsChild(deep, shallow)
      modifies states`history
      ensures forall t :: t in states && IsChild(shallow, t) && t != shallow ==>
        t.history == Remembered(t, deep, old(t.history))
      ensures forall t :: t in states && !(IsChild(shallow, t) && t != shallow) ==> t.history == old(t.history)
      decreases shallow.depth, 0
    {
      TowardParent(deep, shallow);
      DepthsGrow(shallow, self);
      match self.strategy {
        case NoHistory =>
        case Shallow => self.history := shallow;
        case Deep => self.history := deep;
      }
      assert self.history == Remembered(self, deep, old(self.history));
      forall t | t in states
        ensures IsChild(shallow, t) && t != shallow <==> IsChild(self, t)
      {
        if IsChild(self, t) {
          DepthsGrow(self, t);
        }
      }
      SetHistorySuper(self, deep);
    }

    /** Every state keeps a history inside it. */
    lemma RememberedInside(outer: StateInstance, s: StateInstance, before: StateInstance?)
      requires Hierarchy() && outer in states && s in states && (before != null ==> Recalls(outer, before))
      ensures var h := Remembered(outer, s, before); h != null ==> Recalls(outer, h)
    {
      if s != outer && IsChild(s, outer) {
        TowardInside(s, outer);
      }
    }

    lemma TowardInside(s: StateInstance, outer: StateInstance)
      requires Hierarchy() && s in states && IsChild(s, outer) && s != outer
      ensures Toward(s, outer).parent == outer && Inside(Toward(s, outer), outer) && IsChild(s, Toward(s, outer))
      decreases s.depth
    {
      DepthsGrow(s, outer);
      if s.parent != outer {
        TowardInside(s.parent, outer);
      }
    }

    lemma KeptChain(s: StateInstance, next: StateInstance)
      requires Hierarchy() && s in states && next in states
      ensures var k := Shared(Chain(s), Above(next));
        k <= |Chain(next)| && Chain(s)[..k] == Chain(next)[..k] && Reached(next, true) == Above(next)
    {
      if next.parent != null {
        assert Chain(next)[..|Above(next)|] == Above(next);
      }
    }

    /** The states around s remember it, each in its own way. */
    method KeepHistory(s: StateInstance)
      requires Hierarchy() && s in states && Historic()
      modifies states`history
      ensures Historic() && forall t :: t in states ==> t.history == Remembered(t, s, old(t.history))
    {
      hide Toward, Inside;
      SetHistorySuper(s, s);
      forall t | t in states
        ensures t.history == Remembered(t, s, old(t.history)) && (t.history != null ==> Recalls(t, t.history))
      {
        RememberedInside(t, s, old(t.history));
      }
    }

    /** Goes from the current state to the pending one: exits, history, entries. */
    method Transition()
      requires Valid() && current != null && pendingState != null
      modifies this`current, this`pendingState, this`trace, this`boxCount, states`box, states`history
      ensures current == old(pendingState) && pendingState == null
      ensures Valid()
      // innermost first, the states not around the target are left; then, outermost first, the states around it and it
      // are entered
      ensures var k := Shared(Chain(old(current)), Above(current));
        trace == old(trace) + Exits(Chain(old(current))[k..]) + Entries(Chain(current)[k..])
        && Fresh(Chain(current)[k..], old(boxCount))
      ensures forall s :: s in states ==> s.history == Remembered(s, old(current), old(s.history))
      ensures forall s :: s in states && s.persistent && old(s.box).Some? ==> s.box == old(s.box)
    {
      hide Replay, Boxed, Chain, Above, Shared, Exits, Entries, Reached, Remembered, Toward, Hierarchy, Fresh, Historic;
      var next := pendingState;
      KeptChain(current, next);
      Exit(current, next);
      KeepHistory(current);
      var previous := current;
      current := next;
      Entry(current, previous, true);
      pendingState := null;
    }

    /** Prepares a transition; there may be only one. */
    method SetPendingState(s: StateInstance, init: Initializer)
      requires pendingState == null || (pendingState == s && pendingInit == init)
      modifies this`pendingState, this`pendingInit
      ensures pendingState == s && pendingInit == init
    {
      pendingState := s;
      pendingInit := init;
    }

    ghost function Histories(): map<StateInstance, StateInstance?>
      reads states`history
    {
      map s | s in states :: s.history
    }

    ghost function Now(): (p: Point)
      requires Hierarchy() && Historic() && current != null && current in states
      reads this`current, this`calls, states`history
      ensures Sound(p)
    {
      Point(current, calls, Histories())
    }

    /** The transition that is pending. */
    ghost function Pending(): Option<Target>
      reads this`pendingState, this`pendingInit
    {
      if pendingState == null then None else Some(Target(pendingState, pendingInit))
    }

    /** Every history is empty or inside its state. */
    ghost predicate Sound(p: Point) {
      p.state in states && p.memory.Keys == states
      && forall s :: s in states && p.memory[s] != null ==> Recalls(s, p.memory[s])
    }

    /** What the states have for their histories once the state at p is left. */
    ghost function Kept(p: Point): map<StateInstance, StateInstance?>
      requires Hierarchy() && Sound(p)
    {
      map s | s in states :: Remembered(s, p.state, p.memory[s])
    }

    /** The goal asks for a history that there is. */
    ghost predicate Returns(p: Point, goal: Target)
      requires Hierarchy() && Sound(p) && goal.state in states
    {
      goal.init == History && Kept(p)[goal.state] != null
    }

    /** The machine after one transition with its initialisation, which uses the target's history up. */
    ghost function Arrival(p: Point, goal: Target): Point
      requires Hierarchy() && Sound(p) && goal.state in states
    {
      Point(goal.state, if Returns(p, goal) then p.calls else p.calls + 1,
        if goal.init == Parameters then Kept(p) else Kept(p)[goal.state := null])
    }

    /** The transition that the initialisation asks for. */
    ghost function Further(p: Point, goal: Target): Option<Target>
      requires Hierarchy() && Sound(p) && goal.state in states
    {
      if Returns(p, goal) then Some(Target(Kept(p)[goal.state], Default)) else onInit(goal.state, p.calls)
    }

    lemma ArrivalSound(p: Point, goal: Target)
      requires Hierarchy() && Sound(p) && goal.state in states
      ensures Sound(Arrival(p, goal)) && goal.state.depth <= maxDepth
      ensures Further(p, goal).Some? ==>
        Inside(Further(p, goal).value.state, goal.state)
          && goal.state.depth < Further(p, goal).value.state.depth <= maxDepth
    {
      hide Remembered;
      forall s | s in states
        ensures Kept(p)[s] != null ==> Recalls(s, Kept(p)[s])
      {
        RememberedInside(s, p.state, p.memory[s]);
      }
      if Further(p, goal).Some? {
        DepthsGrow(Further(p, goal).value.state, goal.state);
      }
    }

    /** Where the machine comes to rest: in the target, or where its history or init action leads from there. */
    ghost function Settling(p: Point, goal: Target): (rest: Point)
      requires Hierarchy() && Sound(p) && goal.state in states
      ensures Sound(rest) && IsChild(rest.state, goal.state)
      decreases maxDepth - goal.state.depth
    {
      ArrivalSound(p, goal);
      var further := Further(p, goal);
      if further == None then Arrival(p, goal)
      else
        var rest := Settling(Arrival(p, goal), further.value);
        Within(rest.state, further.value.state, goal.state);
        rest
    }

    /** Nothing leads on from the root. */
    lemma SettlesAtRoot(p: Point)
      requires Hierarchy() && Sound(p)
      ensures Settling(p, Target(root, Default)).state == root
    {
    }

    /** Going to a state by its history, the machine rests in the state remembered or inside it, in that state itself if
        its init action asks for nothing. */
    lemma SettlesBack(p: Point, goal: Target)
      requires Hierarchy() && Sound(p) && goal.state in states && Returns(p, goal)
      ensures var h := Kept(p)[goal.state];
        IsChild(Settling(p, goal).state, h) && (onInit(h, p.calls) == None ==> Settling(p, goal).state == h)
    {
      hide Kept, Remembered;
      ArrivalSound(p, goal);
    }

    /** A state without history has none in any state of the machine: going to it by its history is going to it. */
    lemma NoHistoryNever(p: Point, s: StateInstance)
      requires Hierarchy() && Sound(p) && s in states && s.strategy == NoHistory
      ensures p.memory[s] == null && Settling(p, Target(s, History)) == Settling(p, Target(s, Default))
    {
      assert p.memory[s] != null ==> Recalls(s, p.memory[s]);
    }

    /** The history of a state is not touched while the machine goes elsewhere. */
    lemma {:induction false} HistoryLasts(p: Point, goal: Target, outer: StateInstance)
      requires Hierarchy() && Sound(p) && goal.state in states && outer in states
      requires !IsChild(Settling(p, goal).state, outer)
      ensures outer in Settling(p, goal).memory && Settling(p, goal).memory[outer] == Kept(p)[outer]
      decreases maxDepth - goal.state.depth
    {
      hide Toward;
      ArrivalSound(p, goal);
      var further := Further(p, goal);
      if further.Some? {
        HistoryLasts(Arrival(p, goal), further.value, outer);
      }
      if IsChild(goal.state, outer) {
        Within(Settling(p, goal).state, goal.state, outer);
      }
    }

    /** The user's init action of a state. */
    method RunInit(s: StateInstance)
      requires Valid() && s == current && pendingState == null
      modifies this`pendingState, this`pendingInit, this`calls
      ensures Valid() && calls == old(calls) + 1 && Pending() == onInit(s, old(calls))
      ensures pendingState != null ==> Inside(pendingState, s)
    {
      var target := onInit(s, calls);
      calls := calls + 1;
      if target.Some? {
        SetPendingState(target.value.state, target.value.init);
      }
    }

    /** Goes on to the state's history if that is asked for and there is one; otherwise the user's init action runs. */
    method Init(s: StateInstance, history: bool)
      requires Valid() && s == current && pendingState == null
      modifies this`pendingState, this`pendingInit, this`calls, s`history
      ensures Valid() && s.history == null && (pendingState != null ==> Inside(pendingState, s))
      ensures history && old(s.history) != null ==>
        Pending() == Some(Target(old(s.history), Default)) && calls == old(calls)
      ensures !(history && old(s.history) != null) ==> Pending() == onInit(s, old(calls)) && calls == old(calls) + 1
    {
      hide Boxed, Replay;
      if history && s.history != null {
        SetPendingState(s.history, Default);
      } else {
        RunInit(s);
      }
      s.history := null;
    }

    /** Initialises the state that was gone to; any further transition goes deeper. */
    method Execute(init: Initializer, s: StateInstance)
      requires Valid() && s == current && pendingState == null
      modifies this`pendingState, this`pendingInit, this`calls, s`history
      ensures Valid() && (pendingState != null ==> Inside(pendingState, s))
      ensures init == History && old(s.history) != null ==>
        Pending() == Some(Target(old(s.history), Default)) && calls == old(calls)
      ensures !(init == History && old(s.history) != null) ==>
        Pending() == onInit(s, old(calls)) && calls == old(calls) + 1
      ensures s.history == if init == Parameters then old(s.history) else null
    {
      hide Boxed, Replay;
      match init {
        case Default => Init(s, false);
        case History => Init(s, true);
        case Parameters => RunInit(s);
      }
    }

    /** The trace of going from one state to another by way of a target: left are the states not around the target. */
    ghost function Path(from: StateInstance, target: StateInstance, to: StateInstance): seq<Action>
      requires Rooted(from) && Rooted(target) && Rooted(to)
    {
      var k := Shared(Chain(from), Above(target));
      Exits(Chain(from)[k..]) + (if k <= |Chain(to)| then Entries(Chain(to)[k..]) else [])
    }

    /** Going on to a state inside leaves nothing, and enters the states on the way. */
    lemma Deeper(from: StateInstance, target: StateInstance, middle: StateInstance, to: StateInstance)
      requires Hierarchy() && from in states && target in states && middle in states && Inside(to, middle)
        && IsChild(middle, target)
      ensures Path(from, target, middle) + Path(middle, to, to) == Path(from, target, to)
    {
      hide Shared, Exits, Entries, Chain, Above, IsChild;
      KeptChain(from, target);
      ChainPrefix(middle, target);
      AboveInside(middle, to);
      DeeperTrace(Chain(from), Shared(Chain(from), Above(target)), Chain(middle), Chain(to));
    }

    /** A state stays entered that is around the state left and around the target. */
    ghost predicate Stays(x: StateInstance, from: StateInstance, target: StateInstance)
      requires Rooted(from) && Rooted(target)
    {
      IsChild(from, x) && IsChild(target, x) && x != target
    }

    /** What is left and entered on the way: the states around where it begins are left and the states around where it
        ends are entered, but for those that stay entered; the target itself does not, even if it was entered. */
    lemma PathMeans(from: StateInstance, target: StateInstance, to: StateInstance, x: StateInstance)
      requires Hierarchy() && from in states && target in states && to in states && IsChild(to, target)
      requires x in states && x.parent != null
      ensures Exited(x) in Path(from, target, to) <==> IsChild(from, x) && !Stays(x, from, target)
      ensures Entered(x) in Path(from, target, to) <==> IsChild(to, x) && !Stays(x, from, target)
    {
      hide Shared, Exits, Entries, Chain;
      var k := Shared(Chain(from), Above(target));
      KeptChain(from, target);
      ChainPrefix(to, target);
      StaysShared(from, target, x);
      ChainMembers(from, x);
      ChainMembers(to, x);
      assert Chain(to)[..k] == Chain(from)[..k] && k <= |Chain(to)|;
      ChainOnce(from, k);
      ChainOnce(to, k);
      ActionMembers(Chain(from)[k..], x);
      ActionMembers(Chain(to)[k..], x);
    }

    lemma StaysShared(from: StateInstance, target: StateInstance, x: StateInstance)
      requires Hierarchy() && from in states && target in states && x in states && x.parent != null
      ensures x in Chain(from)[..Shared(Chain(from), Above(target))] <==> Stays(x, from, target)
    {
      var a, b := Chain(from), Above(target);
      var k := Shared(a, b);
      assert a[..k] == b[..k];
      ChainMembers(from, x);
      if target.parent != null {
        ChainMembers(target.parent, x);
        DepthsGrow(target, target.parent);
        if IsChild(target.parent, x) {
          DepthsGrow(target.parent, x);
        }
      }
      if Stays(x, from, target) {
        SharedLeast(a, b, Chain(x));
        assert Chain(x)[|Chain(x)| - 1] == x == a[..k][|Chain(x)| - 1];
      }
      if x in a[..k] {
        assert x in a && x in b;
      }
    }

    lemma ChainPrefix(s: StateInstance, outer: StateInstance)
      requires Hierarchy() && s in states && outer in states && IsChild(s, outer)
      ensures Chain(outer) <= Chain(s)
    {
      if outer.parent != null {
        ChainMembers(s, outer);
      }
    }

    lemma AboveInside(middle: StateInstance, to: StateInstance)
      requires Hierarchy() && middle in states && Inside(to, middle)
      ensures Chain(middle) <= Chain(to) && Shared(Chain(middle), Above(to)) == |Chain(middle)|
    {
      DepthsGrow(to, middle);
      ChainPrefix(to, middle);
      ChainPrefix(to.parent, middle);
      SharedAll(Chain(middle), Above(to));
    }

    lemma DeeperTrace(from: seq<StateInstance>, k: nat, middle: seq<StateInstance>, to: seq<StateInstance>)
      requires k <= |from| && k <= |middle| && middle <= to
      ensures Exits(middle[|middle|..]) == []
      ensures Entries(middle[k..]) + Entries(to[|middle|..]) == Entries(to[k..])
    {
      assert middle[k..] + to[|middle|..] == to[k..];
    }

    /** Performs the pending transition and those that init actions and histories ask for after it. */
    method Settle()
      requires Valid() && current != null && pendingState != null
      modifies this`current, this`pendingState, this`pendingInit, this`calls, this`trace, this`boxCount, states`box,
        states`history
      ensures Valid() && pendingState == null && current != null
      ensures Now() == Settling(old(Now()), old(Pending()).value)
      ensures trace == old(trace) + Path(old(current), old(pendingState), current)
    {
      hide Replay, Boxed, Chain, Above, Shared, Exits, Entries, Remembered, Historic, Path, Fresh, Arrival, Further,
        Sound, Histories;
      ghost var from, target := current, pendingState;
      Perform();
      while pendingState != null
        invariant Valid() && current != null && IsChild(current, target)
        invariant pendingState != null ==> Inside(pendingState, current)
        invariant trace == old(trace) + Path(from, target, current)
        invariant Settling(old(Now()), old(Pending()).value) ==
          if pendingState == null then Now() else Settling(Now(), Pending().value)
        decreases if pendingState == null then 0 else maxDepth + 1 - pendingState.depth
      {
        ghost var middle, next := current, pendingState;
        Deeper(from, target, middle, next);
        Within(next, middle, target);
        Perform();
        if pendingState != null {
          DepthsGrow(pendingState, next);
        }
      }
    }

    /** One transition with its initialisation. */
    method Perform()
      requires Valid() && current != null && pendingState != null
      modifies this`current, this`pendingState, this`pendingInit, this`calls, this`trace, this`boxCount, states`box,
        states`history
      ensures Valid() && current == old(pendingState) && (pendingState != null ==> Inside(pendingState, current))
      ensures Now() == Arrival(old(Now()), old(Pending()).value)
      ensures Pending() == Further(old(Now()), old(Pending()).value)
      ensures trace == old(trace) + Path(old(current), current, current)
    {
      hide Replay, Boxed, Chain, Above, Shared, Exits, Entries, Remembered, Fresh, Inside, Hierarchy;
      KeptChain(current, pendingState);
      Transition();
      var init := pendingInit;
      ghost var kept := Histories();
      assert kept == Kept(old(Now()));
      Execute(init, current);
      assert Histories() == if init == Parameters then kept else kept[current := null];
    }

    lemma {:induction false} Within(s: StateInstance, middle: StateInstance, outer: StateInstance)
      requires Rooted(s) && Rooted(middle) && IsChild(s, middle) && IsChild(middle, outer)
      ensures IsChild(s, outer)
      decreases s.depth
    {
      if s != middle {
        Within(s.parent, middle, outer);
      }
    }

    /** The handler of an event may ask for a transition, and may dispatch one further event. */
    method Handle(event: Event)
      requires Valid() && current != null && pendingState == null && pendingEvent == None
      modifies this`pendingState, this`pendingInit, this`pendingEvent, this`calls
      ensures Valid() && calls == old(calls) + 1
      ensures Pending() == onEvent(event, current, old(calls)) && pendingEvent == onFollow(event, current, old(calls))
      ensures pendingEvent.Some? ==> rank(pendingEvent.value) < rank(event)
    {
      hide Boxed, Replay;
      var target := onEvent(event, current, calls);
      pendingEvent := onFollow(event, current, calls);
      calls := calls + 1;
      if target.Some? {
        SetPendingState(target.value.state, target.value.init);
      }
    }

    /** A leg stays, or ends where its goal settles. */
    ghost predicate Settled(leg: Leg) {
      && Hierarchy() && Sound(leg.from) && Sound(leg.to) && (leg.goal == None ==> leg.to == leg.from)
      && (leg.goal.Some? ==> leg.goal.value.state in states && leg.to == Settling(leg.from, leg.goal.value))
    }

    /** What is left and entered on a leg. */
    ghost function Way(leg: Leg): seq<Action>
      requires Settled(leg)
    {
      if leg.goal == None then [] else Path(leg.from.state, leg.goal.value.state, leg.to.state)
    }

    ghost function Ways(legs: seq<Leg>): seq<Action>
      requires forall leg :: leg in legs ==> Settled(leg)
    {
      if legs == [] then [] else Ways(legs[..|legs| - 1]) + Way(legs[|legs| - 1])
    }

    lemma WaysMore(legs: seq<Leg>, leg: Leg)
      requires (forall l :: l in legs ==> Settled(l)) && Settled(leg)
      ensures (forall l :: l in legs + [leg] ==> Settled(l)) && Ways(legs + [leg]) == Ways(legs) + Way(leg)
    {
      assert (legs + [leg])[..|legs|] == legs;
    }

    /** The handler of the event was called at p; this is where and why the next leg goes. */
    ghost predicate Sends(p: Point, event: Event, leg: Leg) {
      leg.from == p.(calls := p.calls + 1) && leg.goal == onEvent(event, p.state, p.calls)
    }

    /** Each handler is called where a leg ends; it sends the machine on the next leg, and gives the event that the next
        handler is called with. */
    ghost predicate Ran(legs: seq<Leg>, handled: seq<Event>) {
      && (forall leg :: leg in legs ==> Settled(leg)) && |handled| <= |legs|
      && (forall i :: 0 < i < |legs| && i <= |handled| ==> Sends(legs[i - 1].to, handled[i - 1], legs[i]))
      && (forall i :: 0 < i < |handled| ==> Follows(handled[i - 1], legs[i - 1].to) == Some(handled[i]))
    }

    /** The further event that the handler called at p dispatches. */
    ghost function Follows(event: Event, p: Point): Option<Event> {
      onFollow(event, p.state, p.calls)
    }

    /** What is pending now is what the last handler asked for. */
    ghost predicate Asked(legs: seq<Leg>, handled: seq<Event>)
      requires Hierarchy() && Historic() && current != null && current in states
      reads this`current, this`pendingState, this`pendingInit, this`pendingEvent, this`calls, states`history
    {
      |handled| == |legs| > 0 &&
      var event, p := handled[|handled| - 1], legs[|legs| - 1].to;
      Sends(p, event, Leg(Now(), Pending(), Now())) && pendingEvent == Follows(event, p)
    }

    lemma RanNext(legs: seq<Leg>, handled: seq<Event>, leg: Leg)
      requires Ran(legs, handled) && |legs| == |handled| && Settled(leg)
      requires legs != [] ==> Sends(legs[|legs| - 1].to, handled[|legs| - 1], leg)
      ensures Ran(legs + [leg], handled) && (legs + [leg])[..|legs|] == legs
    {
      hide Settled, Sends;
      var more := legs + [leg];
      assert forall i :: 0 <= i < |legs| ==> more[i] == legs[i];
    }

    lemma RanCalled(legs: seq<Leg>, handled: seq<Event>, event: Event)
      requires Ran(legs, handled) && |legs| == |handled| + 1
      requires handled != [] ==> Follows(handled[|handled| - 1], legs[|handled| - 1].to) == Some(event)
      ensures Ran(legs, handled + [event]) && (handled + [event])[..|handled|] == handled
    {
      hide Settled, Sends;
      var more := handled + [event];
      assert forall i :: 0 <= i < |handled| ==> more[i] == handled[i];
    }

    /** The leg does not end in `outer`. */
    ghost predicate Away(leg: Leg, outer: StateInstance)
      requires Settled(leg)
    {
      !IsChild(leg.to.state, outer)
    }

    /** What one leg does to the history of a state that it does not end in. */
    lemma HistoryAfter(leg: Leg, outer: StateInstance)
      requires Settled(leg) && outer in states && Away(leg, outer)
      ensures leg.goal.Some? ==> leg.to.memory[outer] == Kept(leg.from)[outer]
      ensures !IsChild(leg.from.state, outer) ==> leg.to.memory[outer] == leg.from.memory[outer]
    {
      if leg.goal.Some? {
        HistoryLasts(leg.from, leg.goal.value, outer);
      }
    }

    /** However many handlers run after a state inside `outer` was left, while the machine rests outside `outer` its
        history is what it was on leaving. */
    lemma {:induction false} HistoryKept(legs: seq<Leg>, handled: seq<Event>, outer: StateInstance, i: nat)
      requires Hierarchy() && Ran(legs, handled) && |legs| == |handled| + 1 && i < |legs|
      requires outer in states && legs[0].goal.Some?
      requires forall leg :: leg in legs ==> Away(leg, outer)
      ensures Sound(legs[0].from) && Sound(legs[i].to) && legs[i].to.memory[outer] == Kept(legs[0].from)[outer]
    {
      hide Settling, Inside, Kept, IsChild;
      assert legs[0] in legs && legs[i] in legs;
      HistoryAfter(legs[i], outer);
      if i > 0 {
        assert legs[i - 1] in legs && Sends(legs[i - 1].to, handled[i - 1], legs[i]);
        HistoryKept(legs, handled, outer, i - 1);
      }
    }

    /** Going back to `outer` by its history then, the machine rests in or inside the state that was left (deep history)
        or the state just inside `outer` around it (shallow history); exactly there if its init action asks for
        nothing. */
    lemma HistoryReturns(legs: seq<Leg>, handled: seq<Event>, outer: StateInstance, calls: nat)
      requires Ran(legs, handled) && |legs| == |handled| + 1 && outer in states && legs[0].goal.Some?
      requires Settled(legs[0]) && Inside(legs[0].from.state, outer) && outer.strategy != NoHistory
      requires forall leg :: leg in legs ==> Away(leg, outer)
      ensures var s, p := legs[0].from.state, legs[|handled|].to.(calls := calls);
        && Settled(legs[|handled|]) && Sound(p)
        && var h, back := if outer.strategy == Deep then s else Toward(s, outer), Settling(p, Target(outer, History));
          IsChild(back.state, h) && (onInit(h, calls) == None ==> back.state == h)
    {
      hide Settling, Toward, Arrival, Further, IsChild, Sends, Follows;
      assert legs[|handled|] in legs && legs[0] in legs;
      HistoryKept(legs, handled, outer, |handled|);
      var left, p := legs[0].from, legs[|handled|].to.(calls := calls);
      assert Kept(left)[outer] == Remembered(outer, left.state, left.memory[outer]);
      assert Kept(p)[outer] == Remembered(outer, p.state, p.memory[outer]) == p.memory[outer];
      SettlesBack(p, Target(outer, History));
    }

    /** Performs the pending transition, if any. */
    method Rest() returns (ghost leg: Leg)
      requires Valid() && current != null
      modifies this`current, this`pendingState, this`pendingInit, this`calls, this`trace, this`boxCount, states`box,
        states`history
      ensures Valid() && current != null && pendingState == null
      ensures Settled(leg) && leg == Leg(old(Now()), old(Pending()), Now()) && trace == old(trace) + Way(leg)
    {
      hide Replay, Boxed, Historic, Path, Chain, Sound, Settling, Histories;
      ghost var from, goal := Now(), Pending();
      if pendingState != null {
        Settle();
      }
      leg := Leg(from, goal, Now());
    }

    /** Performs a pending transition, and then has a pending event handled. */
    method Round(ghost legs: seq<Leg>, ghost handled: seq<Event>)
        returns (ghost legs': seq<Leg>, ghost handled': seq<Event>)
      requires Valid() && current != null && (pendingState != null || pendingEvent != None)
      requires Ran(legs, handled) && |legs| == |handled| && (legs != [] ==> Asked(legs, handled))
      modifies this`current, this`pendingState, this`pendingInit, this`pendingEvent, this`calls, this`trace,
        this`boxCount
      modifies states`box, states`history
      ensures Valid() && current != null && Ran(legs', handled')
      ensures |legs'| == |legs| + 1 && legs'[..|legs|] == legs && Settled(legs'[|legs|])
      ensures legs'[|legs|].from == old(Now()) && legs'[|legs|].goal == old(Pending())
      ensures trace == old(trace) + Way(legs'[|legs|])
      ensures old(pendingEvent) == None ==>
        handled' == handled && pendingState == null && pendingEvent == None && legs'[|legs|].to == Now()
      ensures old(pendingEvent).Some? ==>
        |handled'| == |handled| + 1 && handled'[..|handled|] == handled
          && handled'[|handled|] == old(pendingEvent).value
        && Asked(legs', handled')
        && (pendingEvent.Some? ==> rank(pendingEvent.value) < rank(old(pendingEvent).value))
    {
      hide Hierarchy, Historic, Boxed, Replay, Ran, Way, Settled, Sound, Histories;
      ghost var leg := Rest();
      RanNext(legs, handled, leg);
      legs', handled' := legs + [leg], handled;
      if pendingEvent != None {
        var event := pendingEvent.value;
        pendingEvent := None;
        RanCalled(legs', handled, event);
        handled' := handled + [event];
        Handle(event);
      }
    }

    lemma RanWays(before: seq<Leg>, legs: seq<Leg>, handled: seq<Event>)
      requires Ran(legs, handled) && |legs| == |before| + 1 && legs[..|before|] == before && Settled(legs[|before|])
      ensures (forall leg :: leg in before ==> Settled(leg)) && (forall leg :: leg in legs ==> Settled(leg))
      ensures Ways(legs) == Ways(before) + Way(legs[|before|])
    {
    }

    lemma RanNone()
      ensures Ran([], []) && Ways([]) == []
    {
    }

    /** When nothing was asked for, the machine stays. */
    lemma RanStay(legs: seq<Leg>, handled: seq<Event>) returns (legs': seq<Leg>)
      requires Valid() && current != null && pendingState == null
      requires Ran(legs, handled) && (legs != [] ==> Asked(legs, handled)) && |legs| == |handled|
      ensures legs' == legs + [Leg(Now(), None, Now())]
      ensures Ran(legs', handled) && Ways(legs') == Ways(legs)
    {
      hide Replay, Boxed, Historic, IsChild, Chain, Path, Settling, Sound, Histories, Hierarchy;
      var last := Leg(Now(), None, Now());
      legs' := legs + [last];
      RanNext(legs, handled, last);
      WaysMore(legs, last);
    }

    /** Performs what is pending until nothing is. The machine goes on a leg for what is pending at first, and on one
        more for each event handled; the trace grows by what is left and entered on them. */
    method RattleOn() returns (ghost legs: seq<Leg>, ghost handled: seq<Event>)
      requires Valid() && current != null
      modifies this`current, this`pendingState, this`pendingInit, this`pendingEvent, this`calls, this`trace,
        this`boxCount
      modifies states`box, states`history
      ensures Valid() && current != null && pendingState == null && pendingEvent == None
      ensures Ran(legs, handled) && |legs| == |handled| + 1 && Now() == legs[|handled|].to
      ensures trace == old(trace) + Ways(legs) && old(trace) <= trace
      ensures legs[0].from == old(Now()) && legs[0].goal == old(Pending())
      ensures old(pendingEvent) == None ==> handled == []
      ensures old(pendingEvent).Some? ==> handled != [] && handled[0] == old(pendingEvent).value
      ensures handled != [] ==> Follows(handled[|handled| - 1], legs[|handled| - 1].to) == None
    {
      hide Ways, Way, Settled, Path, Boxed, Replay, Hierarchy, Historic, Histories, Sound;
      legs, handled := [], [];
      RanNone();
      while pendingState != null || pendingEvent != None
        invariant Valid() && current != null && Ran(legs, handled) && trace == old(trace) + Ways(legs)
        invariant legs == [] ==>
          handled == [] && Pending() == old(Pending()) && pendingEvent == old(pendingEvent) && Now() == old(Now())
        invariant legs != [] ==>
          && legs[0].from == old(Now()) && legs[0].goal == old(Pending())
          && (old(pendingEvent) == None <==> handled == [])
          && (handled != [] ==> handled[0] == old(pendingEvent).value)
        invariant |legs| == |handled| ==> legs == [] || Asked(legs, handled)
        invariant |legs| != |handled| ==>
          |legs| == |handled| + 1 && pendingState == null && pendingEvent == None && Now() == legs[|handled|].to
          && (handled != [] ==> Follows(handled[|handled| - 1], legs[|handled| - 1].to) == None)
        decreases if pendingEvent == None then 0 else 1 + rank(pendingEvent.value),
          if pendingState == null then 0 else 1
      {
        ghost var before := legs;
        legs, handled := Round(legs, handled);
        RanWays(before, legs, handled);
      }
      if |legs| == |handled| {
        legs := RanStay(legs, handled);
      }
    }

    lemma OneLeg(legs: seq<Leg>)
      requires |legs| == 1 && Settled(legs[0])
      ensures Ways(legs) == Way(legs[0])
    {
      assert Ways(legs[..0]) == [];
    }

    /** Enters the given state, and whatever its init actions lead to inside it. */
    method Start(instance: StateInstance)
      requires Valid() && current == null && pendingState == null && pendingEvent == None && instance in states
      modifies this`current, this`pendingState, this`pendingInit, this`pendingEvent, this`calls, this`trace,
        this`boxCount
      modifies states`box, states`history
      ensures Valid() && current != null && pendingState == null && pendingEvent == None
      ensures Now() == Settling(Point(root, old(calls), old(Histories())), Target(instance, Default))
      ensures IsChild(current, instance) && trace == old(trace) + Path(root, instance, current)
    {
      hide Replay, Boxed, Path, Settling, Histories, Sound, Rooted;
      current := root;
      SetPendingState(instance, Default);
      ghost var from := Now();
      ghost var legs, handled := RattleOn();
      OneLeg(legs);
    }

    /** Goes to the given state, and whatever its init actions and histories lead to inside it. */
    method SetState(instance: StateInstance, init: Initializer)
      requires Valid() && current != null && pendingState == null && pendingEvent == None && instance in states
      modifies this`current, this`pendingState, this`pendingInit, this`pendingEvent, this`calls, this`trace,
        this`boxCount
      modifies states`box, states`history
      ensures Valid() && current != null && pendingState == null && pendingEvent == None
      ensures Now() == Settling(old(Now()), Target(instance, init))
      ensures IsChild(current, instance) && trace == old(trace) + Path(old(current), instance, current)
      // with history, where the machine was left
      ensures var h := Remembered(instance, old(current), old(instance.history));
        init == History && h != null ==> IsChild(current, h) && (onInit(h, old(calls)) == None ==> current == h)
    {
      hide Replay, Boxed, Path, Settling, Remembered;
      SetPendingState(instance, init);
      ghost var from, goal := Now(), Target(instance, init);
      ghost var legs, handled := RattleOn();
      OneLeg(legs);
      if Returns(from, goal) {
        SettlesBack(from, goal);
      }
    }

    /** Lets the current state handle an event, and the states the machine comes to the events dispatched further. */
    method Dispatch(event: Event) returns (ghost legs: seq<Leg>, ghost handled: seq<Event>)
      requires Valid() && current != null && pendingState == null && pendingEvent == None
      modifies this`current, this`pendingState, this`pendingInit, this`pendingEvent, this`calls, this`trace,
        this`boxCount
      modifies states`box, states`history
      ensures Valid() && current != null && pendingState == null && pendingEvent == None
      ensures Ran(legs, handled) && |legs| == |handled| + 1 && legs[0] == Leg(old(Now()), None, old(Now()))
      ensures handled != [] && handled[0] == event
      ensures Follows(handled[|handled| - 1], legs[|handled| - 1].to) == None
      ensures Now() == legs[|handled|].to && trace == old(trace) + Ways(legs) && old(trace) <= trace
    {
      hide Replay, Boxed, Historic, Path, IsChild, Rooted, Chain, Ways, Sound, Histories;
      pendingEvent := Some(event);
      legs, handled := RattleOn();
      assert legs[0] in legs;
    }

    lemma RootPath(from: StateInstance)
      requires Hierarchy() && from in states
      ensures Path(from, root, root) == Exits(Chain(from)) && Chain(root) == []
    {
      assert Chain(from)[0..] == Chain(from);
    }

    /** Leaves every state. */
    method Shutdown()
      requires Valid() && current != null && pendingState == null && pendingEvent == None
      modifies this`current, this`pendingState, this`pendingInit, this`pendingEvent, this`calls, this`trace,
        this`boxCount
      modifies states`box, states`history
      ensures Valid() && current == null && pendingState == null && pendingEvent == None
      ensures Replay(trace) == Some([])
      ensures trace == old(trace) + Exits(old(Chain(current)))
      ensures forall s :: s in states && s.ownBox && !s.persistent ==> s.box == None
    {
      hide Settling;
      ghost var from := current;
      ghost var start := Now();
      SetState(root, Default);
      SettlesAtRoot(start);
      RootPath(from);
      current := null;
    }
  }
}

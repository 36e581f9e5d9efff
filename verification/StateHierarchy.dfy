/** States inside states, and the trace of entering and leaving them. */
module StateHierarchy {
  import opened Options

  datatype Strategy = NoHistory | Shallow | Deep

  /** What a machine keeps of one state. The root is the one without a parent. */
  class StateInstance {
    const parent: StateInstance?
    const strategy: Strategy
    /** Whether the state declares a box of its own, and whether that survives the state's exit. */
    const ownBox: bool
    const persistent: bool
    ghost const depth: nat
    var history: StateInstance?
    var box: Option<nat>

    constructor (parent: StateInstance?, strategy: Strategy, ownBox: bool, persistent: bool)
      requires parent != null ==> Rooted(parent)
      ensures Rooted(this) && this.parent == parent && depth == (if parent == null then 0 else parent.depth + 1)
      ensures this.strategy == strategy && this.ownBox == ownBox && this.persistent == persistent
      ensures history == null && box == None
    {
      this.parent, this.strategy, this.ownBox, this.persistent := parent, strategy, ownBox, persistent;
      depth := if parent == null then 0 else parent.depth + 1;
      history, box := null, None;
    }
  }

  /** The parents lead up to a state without one. */
  ghost predicate Rooted(s: StateInstance)
    decreases s.depth
  {
    s.parent != null ==> s.depth > s.parent.depth && Rooted(s.parent)
  }

  /** Is s the other state or inside it? */
  predicate IsChild(s: StateInstance, other: StateInstance)
    requires Rooted(s)
    decreases s.depth
  {
    s == other || (s.parent != null && IsChild(s.parent, other))
  }

  /** The states around s and s itself, outermost first, without the root. */
  ghost function Chain(s: StateInstance): seq<StateInstance>
    requires Rooted(s)
    decreases s.depth
  {
    if s.parent == null then [] else Chain(s.parent) + [s]
  }

  /** The states around s. */
  ghost function Above(s: StateInstance): seq<StateInstance>
    requires Rooted(s)
  {
    if s.parent == null then [] else Chain(s.parent)
  }

  /** How many elements the two begin with in common. */
  ghost function Shared<T>(a: seq<T>, b: seq<T>): (n: nat)
    ensures n <= |a| && n <= |b| && a[..n] == b[..n]
  {
    if a != [] && b != [] && a[0] == b[0] then 1 + Shared(a[1..], b[1..]) else 0
  }

  lemma {:induction false} ChainMembers(s: StateInstance, other: StateInstance)
    requires Rooted(s) && Rooted(other) && other.parent != null
    ensures IsChild(s, other) <==> other in Chain(s)
    ensures IsChild(s, other) ==> Chain(other) <= Chain(s)
    decreases s.depth
  {
    if s.parent != null {
      ChainMembers(s.parent, other);
    }
  }

  /** An element that is not in the other list does not count. */
  lemma {:induction false} SharedDrop<T>(a: seq<T>, x: T, b: seq<T>)
    requires x !in b
    ensures Shared(a + [x], b) == Shared(a, b) && Shared(b, a + [x]) == Shared(b, a)
  {
    if a == [] {
      assert [] + [x] == [x];
    } else {
      assert (a + [x])[1..] == a[1..] + [x];
      if b != [] {
        SharedDrop(a[1..], x, b[1..]);
      }
    }
  }

  lemma {:induction false} SharedAll<T>(a: seq<T>, b: seq<T>)
    requires a <= b
    ensures Shared(a, b) == |a| && Shared(b, a) == |a|
  {
    if a != [] {
      assert b[0] == a[0] && a[1..] <= b[1..];
      SharedAll(a[1..], b[1..]);
    }
  }

  lemma {:induction false} SharedLeast<T>(a: seq<T>, b: seq<T>, c: seq<T>)
    requires c <= a && c <= b
    ensures |c| <= Shared(a, b)
  {
    if c != [] {
      assert c[0] == a[0] == b[0] && c[1..] <= a[1..] && c[1..] <= b[1..];
      SharedLeast(a[1..], b[1..], c[1..]);
    }
  }

  /** No state is in a chain twice. */
  lemma {:induction false} ChainOnce(s: StateInstance, k: nat)
    requires Rooted(s) && k <= |Chain(s)|
    ensures forall x :: x in Chain(s)[k..] <==> x in Chain(s) && x !in Chain(s)[..k]
    decreases s.depth
  {
    if s.parent != null {
      var rest := Chain(s.parent);
      if k < |Chain(s)| {
        ChainOnce(s.parent, k);
        assert Chain(s)[..k] == rest[..k] && Chain(s)[k..] == rest[k..] + [s];
        if s in rest {
          ChainInside(s.parent, s);
        }
      } else {
        assert Chain(s)[..k] == Chain(s);
      }
    }
  }

  lemma {:induction false} ChainInside(s: StateInstance, x: StateInstance)
    requires Rooted(s) && x in Chain(s)
    ensures Rooted(x) && x.parent != null && IsChild(s, x) && x.depth <= s.depth
    decreases s.depth
  {
    if x != s {
      ChainInside(s.parent, x);
    }
  }

  lemma {:induction false} DepthsGrow(s: StateInstance, other: StateInstance)
    requires Rooted(s) && IsChild(s, other)
    ensures Rooted(other) && other.depth <= s.depth && (s != other ==> other.depth < s.depth)
    decreases s.depth
  {
    if s != other {
      DepthsGrow(s.parent, other);
    }
  }

  datatype Action = Entered(s: StateInstance) | Exited(s: StateInstance)

  /** The states entered and not exited, if every state was entered inside the states around it and exited before
      them. */
  ghost function Replay(trace: seq<Action>): Option<seq<StateInstance>> {
    if trace == [] then
      Some([])
    else
      var before := Replay(trace[..|trace| - 1]);
      if before.None? then None else
      match trace[|trace| - 1]
      case Entered(s) => if Rooted(s) && s.parent != null && before.value == Chain(s.parent)
        then Some(before.value + [s]) else None
      case Exited(s) =>
        if before.value != [] && before.value[|before.value| - 1] == s then Some(before.value[..|before.value| - 1])
          else None
  }

  lemma ReplayMore(trace: seq<Action>, a: Action)
    ensures (trace + [a])[..|trace + [a]| - 1] == trace && (trace + [a])[|trace + [a]| - 1] == a
  {
  }

  lemma ReplayExit(trace: seq<Action>, around: seq<StateInstance>, s: StateInstance)
    requires Replay(trace) == Some(around + [s])
    ensures Replay(trace + [Exited(s)]) == Some(around)
  {
    ReplayMore(trace, Exited(s));
    assert (around + [s])[..|around|] == around;
  }

  ghost function Entries(states: seq<StateInstance>): seq<Action> {
    seq(|states|, i requires 0 <= i < |states| => Entered(states[i]))
  }

  /** Innermost first. */
  ghost function Exits(states: seq<StateInstance>): seq<Action> {
    seq(|states|, i requires 0 <= i < |states| => Exited(states[|states| - 1 - i]))
  }

  lemma ActionMembers(states: seq<StateInstance>, x: StateInstance)
    ensures Entered(x) in Entries(states) <==> x in states
    ensures Exited(x) in Exits(states) <==> x in states
    ensures Entered(x) !in Exits(states) && Exited(x) !in Entries(states)
  {
    if x in states {
      var i :| 0 <= i < |states| && states[i] == x;
      assert Entries(states)[i] == Entered(x) && Exits(states)[|states| - 1 - i] == Exited(x);
    }
  }

  lemma EntriesMore(states: seq<StateInstance>, s: StateInstance)
    ensures Entries(states + [s]) == Entries(states) + [Entered(s)]
      && Exits(states + [s]) == [Exited(s)] + Exits(states)
  {
  }
}

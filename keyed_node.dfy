/** The per-node reconciler of the keyed variant: `NodeRenderer` (mod.ts). */
module KeyedNode {
  import opened Wrappers
  import opened Identity
  import opened KeyedTree
  import opened KeyedProps
  import opened KeyedChildren

  /** `NodeRendererState`. */
  datatype NodeState = NodeState(node: Node, props: map<Name, Prop>, children: seq<Child>, cache: Cache)

  /**
   * getDerivedStateFromProps: the state for the next props. An equal node
   * hash keeps the state; otherwise props and children are each kept or
   * re-derived under their own hash, and the cache is the map the children
   * differ wrote into, started empty.
   */
  function GetDerivedStateFromProps(config: Config, state: NodeState, stamp: nat): (r: Result<NodeState, ChildError>)
    // equal node hashes: the state comes back as it was, nothing re-derived or created
    ensures state.node.hash == config.node.hash ==> r == Success(state)
    // different node hashes: the new node, with props gated by the attribute hash
    ensures state.node.hash != config.node.hash && r.Success? ==>
      && r.value.node == config.node
      && (state.node.attrsHash == config.node.attrsHash ==> r.value.props == state.props)
      && (state.node.attrsHash != config.node.attrsHash ==>
            r.value.props == DerivedProps(config.node.attrs, config.send, config.key, state.node.attrs, state.props, stamp))
    // ... and children gated by the entries hash: kept with an empty cache, or
    // derived from an empty cache against the past keyed children and cache
    ensures state.node.hash != config.node.hash && state.node.entriesHash == config.node.entriesHash ==>
      r.Success? && r.value.children == state.children && r.value.cache == map[]
    ensures state.node.hash != config.node.hash && state.node.entriesHash != config.node.entriesHash ==>
      match DeriveChildren(config.node.entries, map[], config.send, state.node.keyed, state.cache, stamp)
      case Failure(e) => r == Failure(e)
      case Success(d) => r.Success? && r.value.children == d.children && r.value.cache == d.cache
  {
    var pastNode := state.node;
    var node := config.node;
    if pastNode.hash == node.hash then Success(state)
    else
      var props :=
        if pastNode.attrsHash == node.attrsHash then state.props
        else DerivedProps(node.attrs, config.send, config.key, pastNode.attrs, state.props, stamp);
      if pastNode.entriesHash == node.entriesHash then Success(NodeState(node, props, state.children, map[]))
      else
        match DeriveChildren(node.entries, map[], config.send, pastNode.keyed, state.cache, stamp)
        case Failure(e) => Failure(e)
        case Success(d) => Success(NodeState(node, props, d.children, d.cache))
  }

  /**
   * The transition throws exactly when the node and entries hashes both
   * changed and some non-leaf entry has a key the past node did not have.
   */
  lemma TransitionFailsOnUnknownKey(config: Config, state: NodeState, stamp: nat)
    ensures GetDerivedStateFromProps(config, state, stamp).Failure? <==>
      && state.node.hash != config.node.hash
      && state.node.entriesHash != config.node.entriesHash
      && exists i :: 0 <= i < |config.node.entries| && Unknown(config.node.entries[i], state.node.keyed)
  {
    DeriveFailsOnUnknownKey(config.node.entries, |config.node.entries|, map[], config.send, state.node.keyed, state.cache, stamp);
  }

  /**
   * After a successful transition every element in the cache was created by
   * that transition (the cache is rebuilt, never merged with the past one),
   * and a child reused from the past cache is not in the new cache unless a
   * rebuilt entry put it there.
   */
  lemma CacheHoldsOnlyNewElements(config: Config, state: NodeState, stamp: nat, next: NodeState)
    requires state.node.hash != config.node.hash
    requires GetDerivedStateFromProps(config, state, stamp) == Success(next)
    ensures forall k | k in next.cache :: next.cache[k].stamp == stamp
    ensures next.cache.Keys == if state.node.entriesHash == config.node.entriesHash then {}
                               else RebuiltKeys(config.node.entries, |config.node.entries|, state.node.keyed)
  {
    if state.node.entriesHash != config.node.entriesHash {
      var d := DeriveChildren(config.node.entries, map[], config.send, state.node.keyed, state.cache, stamp).value;
      DeriveCacheKeys(config.node.entries, |config.node.entries|, map[], config.send, state.node.keyed, state.cache, stamp, d);
      DeriveCacheValues(config.node.entries, |config.node.entries|, map[], config.send, state.node.keyed, state.cache, stamp, d);
      forall k | k in next.cache ensures next.cache[k].stamp == stamp {
        var i :| 0 <= i < |config.node.entries| && Rebuilt(config.node.entries[i], state.node.keyed)
              && config.node.entries[i].key == k;
        LastRebuiltExists(config.node.entries, |config.node.entries|, i, state.node.keyed);
      }
    }
  }

  /** Among the rebuilt entries carrying entry `i`'s key, there is a last one. */
  lemma {:induction false} LastRebuiltExists(entries: seq<Entry>, n: nat, i: nat, pastKeyed: map<Key, Node>)
    requires i < n <= |entries| && Rebuilt(entries[i], pastKeyed)
    ensures exists j ::
      && i <= j < n && Rebuilt(entries[j], pastKeyed) && entries[j].key == entries[i].key
      && LastRebuilt(entries, n, j, pastKeyed)
    decreases n - i
  {
    if !LastRebuilt(entries, n, i, pastKeyed) {
      var j :| i < j < n && Rebuilt(entries[j], pastKeyed) && entries[j].key == entries[i].key;
      LastRebuiltExists(entries, n, j, pastKeyed);
    }
  }

  /** Applying the transition again with the same props leaves the state it produced unchanged. */
  lemma TransitionIsIdempotent(config: Config, state: NodeState, stamp: nat, stamp': nat)
    requires GetDerivedStateFromProps(config, state, stamp).Success?
    ensures var next := GetDerivedStateFromProps(config, state, stamp).value;
      GetDerivedStateFromProps(config, next, stamp') == Success(next)
  {
  }

  /** The event handlers a state holds among its props. */
  ghost function Handlers(state: NodeState): set<Handler>
  {
    set name | name in state.props && state.props[name].Bound? :: state.props[name].handler
  }

  /** The elements a state holds, as children or in its cache. */
  ghost function Elements(state: NodeState): set<ElementRef>
  {
    (set i | 0 <= i < |state.children| && state.children[i].ElementChild? :: state.children[i].element)
    + state.cache.Values
  }

  /** Every handler and element of `state` was created with a stamp below `bound`. */
  ghost predicate StampsBelow(state: NodeState, bound: nat)
  {
    && (forall h | h in Handlers(state) :: h.stamp < bound)
    && (forall e | e in Elements(state) :: e.stamp < bound)
  }

  /**
   * Everything the constructor's state holds was created by the constructor:
   * every handler and every element carries its stamp.
   */
  lemma InitialStateIsNew(config: Config, stamp: nat)
    ensures var d := InitialChildren(config.node.entries, map[], config.send, stamp);
      var state := NodeState(config.node, InitialProps(config.node.attrs, config.send, config.key, stamp), d.children, d.cache);
      && (forall h | h in Handlers(state) :: h.stamp == stamp)
      && (forall e | e in Elements(state) :: e.stamp == stamp)
  {
    var entries := config.node.entries;
    var d := InitialChildren(entries, map[], config.send, stamp);
    var props := InitialProps(config.node.attrs, config.send, config.key, stamp);
    var state := NodeState(config.node, props, d.children, d.cache);
    InitialChildrenAt(entries, |entries|, map[], config.send, stamp);
    InitialCache(entries, |entries|, map[], config.send, stamp);
    forall h | h in Handlers(state) ensures h.stamp == stamp {
      var name :| name in props && props[name].Bound? && props[name].handler == h;
    }
    forall e | e in Elements(state) ensures e.stamp == stamp {
      if e !in d.cache.Values {
        var i :| 0 <= i < |d.children| && d.children[i].ElementChild? && d.children[i].element == e;
      }
    }
  }

  /**
   * A transition only reuses or creates: every handler and element of the
   * state it returns is either one the past state held or one created by
   * this transition, with its stamp.
   */
  lemma TransitionReusesOrCreates(config: Config, state: NodeState, stamp: nat, next: NodeState)
    requires GetDerivedStateFromProps(config, state, stamp) == Success(next)
    ensures forall h | h in Handlers(next) :: h in Handlers(state) || h.stamp == stamp
    ensures forall e | e in Elements(next) :: e in Elements(state) || e.stamp == stamp
  {
    if state.node.hash != config.node.hash {
      var attrs := config.node.attrs;
      forall h | h in Handlers(next) ensures h in Handlers(state) || h.stamp == stamp {
        var name :| name in next.props && next.props[name].Bound? && next.props[name].handler == h;
        if state.node.attrsHash != config.node.attrsHash && name in attrs && Unchanged(name, attrs[name], state.node.attrs) {
          assert next.props[name] == Lookup(state.props, name);
        }
      }
      if state.node.entriesHash != config.node.entriesHash {
        var entries := config.node.entries;
        var d := DeriveChildren(entries, map[], config.send, state.node.keyed, state.cache, stamp).value;
        DeriveChildrenAt(entries, |entries|, map[], config.send, state.node.keyed, state.cache, stamp, d);
        CacheHoldsOnlyNewElements(config, state, stamp, next);
        forall e | e in Elements(next) ensures e in Elements(state) || e.stamp == stamp {
          if e !in next.cache.Values {
            var i :| 0 <= i < |next.children| && next.children[i].ElementChild? && next.children[i].element == e;
            if Reused(entries[i], state.node.keyed) {
              assert e in state.cache.Values;
            }
          }
        }
      } else {
        forall e | e in Elements(next) ensures e in Elements(state) {
          var i :| 0 <= i < |next.children| && next.children[i].ElementChild? && next.children[i].element == e;
          assert state.children[i].element == e;
        }
      }
    }
  }

  /** `NodeRenderer`: one reconciler instance. */
  class NodeRenderer {
    /** `this.props`. */
    var config: Config
    /** `this.state`. */
    var state: NodeState
    /**
     * Where this instance's handlers and elements come from; one allocator
     * serves the instance for its whole life, as one heap serves the host library.
     */
    const heap: Allocator

    /**
     * The retained node always has the hash of the node in the props last
     * received, and everything the state holds was created before the
     * allocator's next stamp, so whatever an update creates is new.
     */
    ghost predicate Valid()
      reads this, heap
    {
      && state.node.hash == config.node.hash
      && StampsBelow(state, heap.next)
    }

    /**
     * The constructor: props from the attributes alone, and one new element
     * per non-leaf entry written into a new cache.
     */
    constructor (config: Config, heap: Allocator)
      modifies heap
      ensures Valid() && this.config == config && this.heap == heap
      ensures state.node == config.node
      ensures state.props == InitialProps(config.node.attrs, config.send, config.key, old(heap.next))
      ensures Derived(state.children, state.cache) == InitialChildren(config.node.entries, map[], config.send, old(heap.next))
      ensures heap.next == old(heap.next) + 1
    {
      var stamp := heap.Fresh();
      var props := InitializeProps(config.node.attrs, config.send, config.key, stamp);
      var derived := InitializeChildren(config.node.entries, map[], config.send, stamp);
      InitialStateIsNew(config, stamp);
      this.config := config;
      this.heap := heap;
      state := NodeState(config.node, props, derived.children, derived.cache);
    }

    /** `shouldComponentUpdate(props)`: re-render only when the node hash changed. */
    function ShouldComponentUpdate(next: Config): (update: bool)
      reads this, heap
      ensures update <==> config.node.hash != next.node.hash
      // declining to re-render never hides a state change
      ensures Valid() && !update ==> forall stamp: nat :: GetDerivedStateFromProps(next, state, stamp) == Success(state)
    {
      config.node.hash != next.node.hash
    }

    /**
     * One update as the host library runs it: derive the next state, ask
     * whether to re-render, then commit the new props and state. If the
     * derivation throws, nothing is committed. Every handler and element the
     * update creates is distinct from every one the instance held before.
     */
    method ReceiveProps(next: Config) returns (r: Result<bool, ChildError>)
      requires Valid()
      modifies this, heap
      ensures heap.next == old(heap.next) + 1
      ensures var derived := GetDerivedStateFromProps(next, old(state), old(heap.next));
        match derived
        case Success(s) => r == Success(old(config.node.hash) != next.node.hash) && state == s && config == next && Valid()
        case Failure(e) => r == Failure(e) && state == old(state) && config == old(config) && Valid()
      // what is not kept is created by this update ...
      ensures forall h | h in Handlers(state) && h !in Handlers(old(state)) :: h.stamp == old(heap.next)
      ensures forall e | e in Elements(state) && e !in Elements(old(state)) :: e.stamp == old(heap.next)
      // ... and what this update creates is none of what was held before
      ensures forall h | h in Handlers(state) && h.stamp == old(heap.next) :: h !in Handlers(old(state))
      ensures forall e | e in Elements(state) && e.stamp == old(heap.next) :: e !in Elements(old(state))
    {
      var stamp := heap.Fresh();
      var derived := GetDerivedStateFromProps(next, state, stamp);
      match derived {
        case Success(s) =>
          TransitionReusesOrCreates(next, state, stamp, s);
          var update := ShouldComponentUpdate(next);
          state, config := s, next;
          r := Success(update);
        case Failure(e) =>
          r := Failure(e);
      }
    }

    /** `render()`: the retained tag (or the default), props and children. */
    function Render(): (out: HostElement)
      reads this
      ensures out.tag == TagName(state.node.tag)
      ensures out.props == state.props && out.children == state.children
    {
      HostElement(TagName(state.node.tag), state.props, state.children)
    }
  }
}

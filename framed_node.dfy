/** The per-node reconciler of the frame-synchronized variant: `NodeRenderer` (react.ts). */
module FramedNode {
  import opened Wrappers
  import opened Identity
  import opened FramedTree
  import opened FramedProps

  /** `NodeRendererState`: no children are retained in this variant. */
  datatype NodeState = NodeState(node: Node, props: map<Name, Prop>)

  /**
   * getDerivedStateFromProps: an equal node hash keeps the state; otherwise
   * the new node, with the past props when the attribute hash is unchanged
   * and props derived from the new attributes otherwise.
   */
  function GetDerivedStateFromProps(config: Config, state: NodeState, stamp: nat): (next: NodeState)
    ensures state.node.hash == config.node.hash ==> next == state
    ensures state.node.hash != config.node.hash ==> next.node == config.node
    ensures state.node.hash != config.node.hash && state.node.attrsHash == config.node.attrsHash ==>
      next.props == state.props
    ensures state.node.hash != config.node.hash && state.node.attrsHash != config.node.attrsHash ==>
      next.props == DerivedProps(config.node.attrs, config.send, config.key, state.node.attrs, state.props, stamp)
  {
    var pastNode := state.node;
    if pastNode.hash == config.node.hash then state
    else
      NodeState(
        config.node,
        if pastNode.attrsHash == config.node.attrsHash then state.props
        else DerivedProps(config.node.attrs, config.send, config.key, pastNode.attrs, state.props, stamp))
  }

  /** Applying the transition again with the same props leaves the state it produced unchanged. */
  lemma TransitionIsIdempotent(config: Config, state: NodeState, stamp: nat, stamp': nat)
    ensures var next := GetDerivedStateFromProps(config, state, stamp);
      GetDerivedStateFromProps(config, next, stamp') == next
  {
  }

  /** The child `initializeChildren` makes for the entry at position `slot`. */
  function ChildOf(entry: Entry, send: Send, stamp: nat, slot: nat): Child
  {
    match entry.value
    case Leaf(text) => TextChild(text)
    case Tree(node) => ElementChild(ElementRef(stamp, slot, Config(Some(entry.key), node, send)))
  }

  /** initializeChildren: `entries.map(...)`, a new element for every non-leaf entry. */
  function InitializeChildren(entries: seq<Entry>, send: Send, stamp: nat): (children: seq<Child>)
    ensures |children| == |entries|
    ensures forall i | 0 <= i < |entries| && entries[i].value.Leaf? :: children[i] == TextChild(entries[i].value.text)
    ensures forall i | 0 <= i < |entries| && entries[i].value.Tree? ::
      children[i] == ElementChild(ElementRef(stamp, i, Config(Some(entries[i].key), entries[i].value.node, send)))
  {
    seq(|entries|, i requires 0 <= i < |entries| => ChildOf(entries[i], send, stamp, i))
  }

  /**
   * Two renders never share an element: the children built with different
   * stamps have no element in common, and within one render the elements
   * are pairwise distinct.
   */
  lemma RendersShareNoElement(entries: seq<Entry>, entries': seq<Entry>, send: Send, stamp: nat, stamp': nat)
    ensures var children, children' := InitializeChildren(entries, send, stamp), InitializeChildren(entries', send, stamp');
      && (stamp != stamp' ==> forall i, j | 0 <= i < |children| && 0 <= j < |children'| && children[i].ElementChild? ::
            children[i] != children'[j])
      && (forall i, j | 0 <= i < j < |children| && children[i].ElementChild? :: children[i] != children[j])
  {
  }

  /** The event handlers a state holds among its props. */
  ghost function Handlers(state: NodeState): set<Handler>
  {
    set name | name in state.props && state.props[name].Bound? :: state.props[name].handler
  }

  /** The elements among some children. */
  ghost function Elements(children: seq<Child>): set<ElementRef>
  {
    set i | 0 <= i < |children| && children[i].ElementChild? :: children[i].element
  }

  /**
   * A transition only reuses or creates: every handler of the state it
   * returns is either one the past state held or one created by this
   * transition, with its stamp.
   */
  lemma TransitionReusesOrCreates(config: Config, state: NodeState, stamp: nat)
    ensures var next := GetDerivedStateFromProps(config, state, stamp);
      forall h | h in Handlers(next) :: h in Handlers(state) || h.stamp == stamp
  {
    var next := GetDerivedStateFromProps(config, state, stamp);
    var attrs := config.node.attrs;
    forall h | h in Handlers(next) ensures h in Handlers(state) || h.stamp == stamp {
      var name :| name in next.props && next.props[name].Bound? && next.props[name].handler == h;
      if state.node.hash != config.node.hash && state.node.attrsHash != config.node.attrsHash
         && name in attrs && Unchanged(name, attrs[name], state.node.attrs) {
        assert next.props[name] == Lookup(state.props, name);
      }
    }
  }

  /** Every handler of the constructor's props was created by the constructor, with its stamp. */
  lemma InitialHandlersAreNew(node: Node, send: Send, key: Option<Key>, stamp: nat)
    ensures forall h | h in Handlers(NodeState(node, InitialProps(node.attrs, send, key, stamp))) :: h.stamp == stamp
  {
    var props := InitialProps(node.attrs, send, key, stamp);
    forall h | h in Handlers(NodeState(node, props)) ensures h.stamp == stamp {
      var name :| name in props && props[name].Bound? && props[name].handler == h;
    }
  }

  /** `NodeRenderer`: one reconciler instance. */
  class NodeRenderer {
    /** `this.props`. */
    var config: Config
    /** `this.state`. */
    var state: NodeState
    /**
     * Where this instance's handlers and elements come from; one allocator
     * serves the instance for its whole life, as one heap serves the host library.
     */
    const heap: Allocator
    /** Every element this instance's renders have created so far. */
    ghost var rendered: set<ElementRef>

    /**
     * The retained node always has the hash of the node in the props last
     * received, and every handler held and element rendered was created
     * before the allocator's next stamp, so whatever a later call creates is new.
     */
    ghost predicate Valid()
      reads this, heap
    {
      && state.node.hash == config.node.hash
      && (forall h | h in Handlers(state) :: h.stamp < heap.next)
      && (forall e | e in rendered :: e.stamp < heap.next)
    }

    /** The constructor: props from the attributes alone; children are built at render time. */
    constructor (config: Config, heap: Allocator)
      modifies heap
      ensures Valid() && this.config == config && this.heap == heap && rendered == {}
      ensures state == NodeState(config.node, InitialProps(config.node.attrs, config.send, config.key, old(heap.next)))
      ensures heap.next == old(heap.next) + 1
    {
      var stamp := heap.Fresh();
      var props := InitializeProps(config.node.attrs, config.send, config.key, stamp);
      InitialHandlersAreNew(config.node, config.send, config.key, stamp);
      this.config := config;
      this.heap := heap;
      state := NodeState(config.node, props);
      rendered := {};
    }

    /** `shouldComponentUpdate(props)`: re-render only when the node hash changed. */
    function ShouldComponentUpdate(next: Config): (update: bool)
      reads this
      ensures update <==> config.node.hash != next.node.hash
      // declining to re-render never hides a state change
      ensures state.node.hash == config.node.hash && !update ==>
        forall stamp: nat :: GetDerivedStateFromProps(next, state, stamp) == state
    {
      config.node.hash != next.node.hash
    }

    /**
     * One update as the host library runs it: derive the next state, ask
     * whether to re-render, commit. Every handler the update creates is
     * distinct from every one the instance held before.
     */
    method ReceiveProps(next: Config) returns (update: bool)
      requires Valid()
      modifies this, heap
      ensures Valid() && config == next && heap.next == old(heap.next) + 1 && rendered == old(rendered)
      ensures state == GetDerivedStateFromProps(next, old(state), old(heap.next))
      ensures update == (old(config.node.hash) != next.node.hash)
      // what is not kept is created by this update, and is none of what was held before
      ensures forall h | h in Handlers(state) && h !in Handlers(old(state)) :: h.stamp == old(heap.next)
      ensures forall h | h in Handlers(state) && h.stamp == old(heap.next) :: h !in Handlers(old(state))
    {
      var stamp := heap.Fresh();
      var derived := GetDerivedStateFromProps(next, state, stamp);
      TransitionReusesOrCreates(next, state, stamp);
      update := ShouldComponentUpdate(next);
      state, config := derived, next;
    }

    /**
     * `render()`: the retained tag (or the default) and props, and children
     * built afresh, none of them an element an earlier render created.
     */
    method Render() returns (out: HostElement)
      requires Valid()
      modifies this, heap
      ensures Valid() && heap.next == old(heap.next) + 1
      ensures state == old(state) && config == old(config)
      ensures out.tag == TagName(state.node.tag) && out.props == state.props
      ensures out.children == InitializeChildren(state.node.entries, config.send, old(heap.next))
      // two renders share no element
      ensures Elements(out.children) !! old(rendered)
      ensures rendered == old(rendered) + Elements(out.children)
    {
      var stamp := heap.Fresh();
      out := HostElement(TagName(state.node.tag), state.props, InitializeChildren(state.node.entries, config.send, stamp));
      rendered := rendered + Elements(out.children);
    }
  }
}

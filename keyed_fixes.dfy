/**
 * Two defects of the keyed children differ (mod.ts), each shown on a concrete
 * input against the code as written, and a corrected differ and transition
 * with the intended property proved.
 */
module KeyedFixes {
  import opened Wrappers
  import opened KeyedTree
  import opened KeyedChildren
  import opened KeyedProps
  import opened KeyedNode

  /** A childless node with the given hash. */
  function Bare(hash: int): Node
  {
    Node(hash, None, 0, map[], 0, [], map[])
  }

  /** A parent node with the given hashes, entries and keyed children. */
  function Parent(hash: int, entriesHash: int, entries: seq<Entry>, keyed: map<Key, Node>): Node
  {
    Node(hash, None, 0, map[], entriesHash, entries, keyed)
  }

  /** Every key the node lists in `keyed` belongs to one of its non-leaf entries. */
  ghost predicate WellKeyed(node: Node)
  {
    node.keyed.Keys <= TreeKeys(node.entries, |node.entries|)
  }

  /**
   * The retained state can serve the next update: every keyed child of the
   * retained node has an element in the cache, and no child is missing.
   */
  ghost predicate Coherent(state: NodeState)
  {
    state.node.keyed.Keys <= state.cache.Keys && Missing !in state.children
  }

  /** The producer's hashes are trusted: an equal entries hash means equal keyed children. */
  ghost predicate HashesTrusted(past: Node, node: Node)
  {
    past.entriesHash == node.entriesHash ==> past.keyed == node.keyed
  }

  // ---------------------------------------------------------------------
  // Defect 1: a key the past node did not have makes the update throw.
  // ---------------------------------------------------------------------

  /**
   * Key churn, as written: children [k1, k2] become [k1, k3]. Reading
   * `pastKeyed["k3"].hash` throws, so the update fails instead of creating
   * an element for k3.
   */
  lemma KeyChurnCrashesAsWritten()
    ensures var a, b, c := Bare(1), Bare(2), Bare(3);
      var past := Parent(10, 100, [Entry("k1", Tree(a)), Entry("k2", Tree(b))], map["k1" := a, "k2" := b]);
      var next := Parent(11, 101, [Entry("k1", Tree(a)), Entry("k3", Tree(c))], map["k1" := a, "k3" := c]);
      var ea, eb := NewElement("k1", a, 0, 0, 0), NewElement("k2", b, 0, 0, 1);
      var state := NodeState(past, map[], [ElementChild(ea), ElementChild(eb)], map["k1" := ea, "k2" := eb]);
      && Coherent(state)
      && GetDerivedStateFromProps(Config(None, next, 0), state, 1) == Failure(MissingPastKey("k3"))
  {
    var a, b, c := Bare(1), Bare(2), Bare(3);
    var entries := [Entry("k1", Tree(a)), Entry("k3", Tree(c))];
    var ea, eb := NewElement("k1", a, 0, 0, 0), NewElement("k2", b, 0, 0, 1);
    var pastKeyed := map["k1" := a, "k2" := b];
    var pastCache := map["k1" := ea, "k2" := eb];
    assert DeriveFirst(entries, 1, map[], 0, pastKeyed, pastCache, 1).Success?;
    assert DeriveFirst(entries, 2, map[], 0, pastKeyed, pastCache, 1) == Failure(MissingPastKey("k3"));
  }

  /** What the corrected differ has produced after the first `n` entries. */
  function CorrectedFirst(entries: seq<Entry>, n: nat, cache: Cache, send: Send,
                          pastKeyed: map<Key, Node>, pastCache: Cache, stamp: nat): Derived
    requires n <= |entries|
    decreases n
  {
    if n == 0 then Derived([], cache)
    else
      var d := CorrectedFirst(entries, n - 1, cache, send, pastKeyed, pastCache, stamp);
      var entry := entries[n - 1];
      match entry.value
      case Leaf(text) => Derived(d.children + [TextChild(text)], d.cache)
      case Tree(node) =>
        if entry.key in pastKeyed && node.hash == pastKeyed[entry.key].hash then
          if entry.key in pastCache then
            Derived(d.children + [ElementChild(pastCache[entry.key])], d.cache[entry.key := pastCache[entry.key]])
          else Derived(d.children + [Missing], d.cache)
        else
          var element := NewElement(entry.key, node, send, stamp, n - 1);
          Derived(d.children + [ElementChild(element)], d.cache[entry.key := element])
  }

  /**
   * The corrected children differ: `pastKeyed[key]?.hash`, so an unknown key
   * counts as changed, and a reused element is also written into the new cache.
   */
  function DeriveChildrenCorrected(entries: seq<Entry>, cache: Cache, send: Send,
                                   pastKeyed: map<Key, Node>, pastCache: Cache, stamp: nat): Derived
  {
    CorrectedFirst(entries, |entries|, cache, send, pastKeyed, pastCache, stamp)
  }

  /**
   * The corrected differ, entry by entry: a leaf passes through; a non-leaf
   * entry whose key the past node had with the same hash gets its past
   * element; any other non-leaf entry, including one with a key the past node
   * lacked, gets a new element.
   */
  lemma {:induction false} CorrectedChildrenAt(entries: seq<Entry>, n: nat, cache: Cache, send: Send,
                                               pastKeyed: map<Key, Node>, pastCache: Cache, stamp: nat)
    requires n <= |entries|
    ensures var d := CorrectedFirst(entries, n, cache, send, pastKeyed, pastCache, stamp);
      && |d.children| == n
      && (forall i | 0 <= i < n && entries[i].value.Leaf? :: d.children[i] == TextChild(entries[i].value.text))
      && (forall i | 0 <= i < n && Reused(entries[i], pastKeyed) :: d.children[i] == PastChild(pastCache, entries[i].key))
      && (forall i | 0 <= i < n && entries[i].value.Tree? && !Reused(entries[i], pastKeyed) ::
            d.children[i] == ElementChild(NewElement(entries[i].key, entries[i].value.node, send, stamp, i)))
    decreases n
  {
    if n > 0 {
      CorrectedChildrenAt(entries, n - 1, cache, send, pastKeyed, pastCache, stamp);
    }
  }

  /**
   * When every past keyed child has an element in the past cache, the
   * corrected differ misses no child, and its cache covers every non-leaf
   * entry's key.
   */
  lemma {:induction false} CorrectedChildrenCover(entries: seq<Entry>, n: nat, cache: Cache, send: Send,
                                                  pastKeyed: map<Key, Node>, pastCache: Cache, stamp: nat)
    requires n <= |entries|
    requires pastKeyed.Keys <= pastCache.Keys
    ensures var d := CorrectedFirst(entries, n, cache, send, pastKeyed, pastCache, stamp);
      Missing !in d.children && d.cache.Keys == cache.Keys + TreeKeys(entries, n)
    decreases n
  {
    if n > 0 {
      CorrectedChildrenCover(entries, n - 1, cache, send, pastKeyed, pastCache, stamp);
      assert TreeKeys(entries, n)
          == TreeKeys(entries, n - 1) + (if entries[n - 1].value.Tree? then {entries[n - 1].key} else {});
    }
  }

  /** Key churn, corrected: k1 keeps its element, k3 gets a new one, k2 leaves the cache. */
  lemma KeyChurnCorrected()
    ensures var a, b, c := Bare(1), Bare(2), Bare(3);
      var ea, eb := NewElement("k1", a, 0, 0, 0), NewElement("k2", b, 0, 0, 1);
      var d := DeriveChildrenCorrected([Entry("k1", Tree(a)), Entry("k3", Tree(c))], map[], 0,
                                       map["k1" := a, "k2" := b], map["k1" := ea, "k2" := eb], 1);
      && d.children == [ElementChild(ea), ElementChild(NewElement("k3", c, 0, 1, 1))]
      && d.cache == map["k1" := ea, "k3" := NewElement("k3", c, 0, 1, 1)]
  {
    var a, b, c := Bare(1), Bare(2), Bare(3);
    var entries := [Entry("k1", Tree(a)), Entry("k3", Tree(c))];
    var ea, eb := NewElement("k1", a, 0, 0, 0), NewElement("k2", b, 0, 0, 1);
    var pastKeyed, pastCache := map["k1" := a, "k2" := b], map["k1" := ea, "k2" := eb];
    assert CorrectedFirst(entries, 1, map[], 0, pastKeyed, pastCache, 1) == Derived([ElementChild(ea)], map["k1" := ea]);
  }

  // ---------------------------------------------------------------------
  // Defect 2: the new cache loses reused children, so a later update
  // returns `undefined` for a child whose hash never changed.
  // ---------------------------------------------------------------------

  /**
   * As written: children [a, b] are reordered to [b, a] (both reused, so the
   * new cache stays empty), then b is edited; child a, unchanged throughout,
   * is looked up in the empty cache and comes back missing.
   */
  lemma ReorderThenEditLosesChild()
    ensures var a, b, b' := Bare(1), Bare(2), Bare(3);
      var ea, eb := NewElement("a", a, 0, 0, 0), NewElement("b", b, 0, 0, 1);
      var p0 := Parent(10, 100, [Entry("a", Tree(a)), Entry("b", Tree(b))], map["a" := a, "b" := b]);
      var p1 := Parent(11, 101, [Entry("b", Tree(b)), Entry("a", Tree(a))], map["a" := a, "b" := b]);
      var p2 := Parent(12, 102, [Entry("a", Tree(a)), Entry("b", Tree(b'))], map["a" := a, "b" := b']);
      var s0 := NodeState(p0, map[], [ElementChild(ea), ElementChild(eb)], map["a" := ea, "b" := eb]);
      var r1 := GetDerivedStateFromProps(Config(None, p1, 0), s0, 1);
      && Coherent(s0)
      && r1 == Success(NodeState(p1, map[], [ElementChild(eb), ElementChild(ea)], map[]))
      && !Coherent(r1.value)
      && GetDerivedStateFromProps(Config(None, p2, 0), r1.value, 2).value.children[0] == Missing
  {
    var a, b, b' := Bare(1), Bare(2), Bare(3);
    var ea, eb := NewElement("a", a, 0, 0, 0), NewElement("b", b, 0, 0, 1);
    var keyed := map["a" := a, "b" := b];
    var e1 := [Entry("b", Tree(b)), Entry("a", Tree(a))];
    var e2 := [Entry("a", Tree(a)), Entry("b", Tree(b'))];
    var cache0 := map["a" := ea, "b" := eb];
    var r1 := DeriveFirst(e1, 1, map[], 0, keyed, cache0, 1);
    assert r1.Success? && r1.value.children == [ElementChild(eb)] && r1.value.cache == map[];
    var r2 := DeriveFirst(e1, 2, map[], 0, keyed, cache0, 1);
    assert r2.Success? && r2.value.children == [ElementChild(eb), ElementChild(ea)] && r2.value.cache == map[];
    var r3 := DeriveFirst(e2, 1, map[], 0, keyed, map[], 2);
    assert r3.Success? && r3.value.children[0] == Missing;
    var r4 := DeriveFirst(e2, 2, map[], 0, keyed, map[], 2);
    assert r4.Success? && r4.value.children[0] == Missing;
  }

  /**
   * The corrected transition: as getDerivedStateFromProps, but with the
   * corrected children differ and, when the entries hash is unchanged, the
   * past cache kept alongside the past children.
   */
  function GetDerivedStateFromPropsCorrected(config: Config, state: NodeState, stamp: nat): NodeState
  {
    var pastNode := state.node;
    var node := config.node;
    if pastNode.hash == node.hash then state
    else
      var props :=
        if pastNode.attrsHash == node.attrsHash then state.props
        else DerivedProps(node.attrs, config.send, config.key, pastNode.attrs, state.props, stamp);
      if pastNode.entriesHash == node.entriesHash then NodeState(node, props, state.children, state.cache)
      else
        var d := DeriveChildrenCorrected(node.entries, map[], config.send, pastNode.keyed, state.cache, stamp);
        NodeState(node, props, d.children, d.cache)
  }

  /**
   * The corrected transition never throws and keeps the state coherent, so
   * no update ever produces a missing child.
   */
  lemma CorrectedKeepsCoherent(config: Config, state: NodeState, stamp: nat)
    requires Coherent(state) && WellKeyed(config.node) && HashesTrusted(state.node, config.node)
    ensures Coherent(GetDerivedStateFromPropsCorrected(config, state, stamp))
  {
    var node := config.node;
    if state.node.hash != node.hash && state.node.entriesHash != node.entriesHash {
      CorrectedChildrenCover(node.entries, |node.entries|, map[], config.send, state.node.keyed, state.cache, stamp);
    }
  }

  /** The constructor's state is coherent for a node whose keyed children are among its entries. */
  lemma InitialStateCoherent(config: Config, props: map<Name, Prop>, stamp: nat)
    requires WellKeyed(config.node)
    ensures var d := InitialChildren(config.node.entries, map[], config.send, stamp);
      Coherent(NodeState(config.node, props, d.children, d.cache))
  {
    var entries := config.node.entries;
    var d := InitialChildren(entries, map[], config.send, stamp);
    InitialChildrenAt(entries, |entries|, map[], config.send, stamp);
    InitialCache(entries, |entries|, map[], config.send, stamp);
    forall i | 0 <= i < |d.children| ensures d.children[i] != Missing {
    }
  }
}

/** The keyed children differ: `getDerivedChildren` and `initializeChildren` (mod.ts). */
module KeyedChildren {
  import opened Wrappers
  import opened KeyedTree

  /** `NodeCache`: the element last created for each key. */
  type Cache = map<Key, ElementRef>

  /** The children a call returns, with the cache it wrote into. */
  datatype Derived = Derived(children: seq<Child>, cache: Cache)

  /** Reading `.hash` of `pastKeyed[key]` when the past node had no child under `key` (a TypeError). */
  datatype ChildError = MissingPastKey(key: Key)

  /** `pastCache[key]`. */
  function PastChild(pastCache: Cache, key: Key): Child
  {
    if key in pastCache then ElementChild(pastCache[key]) else Missing
  }

  /** The element created for a non-leaf entry at position `slot`. */
  function NewElement(key: Key, node: Node, send: Send, stamp: nat, slot: nat): ElementRef
  {
    ElementRef(stamp, slot, Config(Some(key), node, send))
  }

  /** A non-leaf entry whose key the past node lacked: getDerivedChildren throws on it. */
  ghost predicate Unknown(entry: Entry, pastKeyed: map<Key, Node>)
  {
    entry.value.Tree? && entry.key !in pastKeyed
  }

  /** A non-leaf entry whose hash equals the past node's under its key: its past element is returned. */
  ghost predicate Reused(entry: Entry, pastKeyed: map<Key, Node>)
  {
    entry.value.Tree? && entry.key in pastKeyed && entry.value.node.hash == pastKeyed[entry.key].hash
  }

  /** A non-leaf entry whose hash differs from the past node's under its key: a new element is created. */
  ghost predicate Rebuilt(entry: Entry, pastKeyed: map<Key, Node>)
  {
    entry.value.Tree? && entry.key in pastKeyed && entry.value.node.hash != pastKeyed[entry.key].hash
  }

  /** No later entry among the first `n` is rebuilt under the same key as entry `i`. */
  ghost predicate LastRebuilt(entries: seq<Entry>, n: nat, i: nat, pastKeyed: map<Key, Node>)
    requires i < n <= |entries|
  {
    forall j | i < j < n && Rebuilt(entries[j], pastKeyed) :: entries[j].key != entries[i].key
  }

  /** What getDerivedChildren has produced after mapping the first `n` entries. */
  function DeriveFirst(entries: seq<Entry>, n: nat, cache: Cache, send: Send,
                       pastKeyed: map<Key, Node>, pastCache: Cache, stamp: nat): Result<Derived, ChildError>
    requires n <= |entries|
    decreases n
  {
    if n == 0 then Success(Derived([], cache))
    else
      var prefix := DeriveFirst(entries, n - 1, cache, send, pastKeyed, pastCache, stamp);
      if prefix.Failure? then prefix
      else
        var d := prefix.value;
        var entry := entries[n - 1];
        match entry.value
        case Leaf(text) => Success(Derived(d.children + [TextChild(text)], d.cache))
        case Tree(node) =>
          if entry.key !in pastKeyed then Failure(MissingPastKey(entry.key))
          else if node.hash == pastKeyed[entry.key].hash then
            Success(Derived(d.children + [PastChild(pastCache, entry.key)], d.cache))
          else
            var element := NewElement(entry.key, node, send, stamp, n - 1);
            Success(Derived(d.children + [ElementChild(element)], d.cache[entry.key := element]))
  }

  /** getDerivedChildren(entries, cache, send, pastKeyed, pastCache). */
  function DeriveChildren(entries: seq<Entry>, cache: Cache, send: Send,
                          pastKeyed: map<Key, Node>, pastCache: Cache, stamp: nat): Result<Derived, ChildError>
  {
    DeriveFirst(entries, |entries|, cache, send, pastKeyed, pastCache, stamp)
  }

  /** Once mapping has thrown, it stays thrown with the same error. */
  lemma {:induction false} FailureSticks(entries: seq<Entry>, n: nat, m: nat, cache: Cache, send: Send,
                                         pastKeyed: map<Key, Node>, pastCache: Cache, stamp: nat)
    requires n <= m <= |entries|
    requires DeriveFirst(entries, n, cache, send, pastKeyed, pastCache, stamp).Failure?
    ensures DeriveFirst(entries, m, cache, send, pastKeyed, pastCache, stamp)
         == DeriveFirst(entries, n, cache, send, pastKeyed, pastCache, stamp)
    decreases m
  {
    if m > n {
      FailureSticks(entries, n, m - 1, cache, send, pastKeyed, pastCache, stamp);
    }
  }

  /**
   * Mapping throws exactly when some non-leaf entry has a key the past node
   * lacked, and the error names the first such key.
   */
  lemma {:induction false} DeriveFailsOnUnknownKey(entries: seq<Entry>, n: nat, cache: Cache, send: Send,
                                                   pastKeyed: map<Key, Node>, pastCache: Cache, stamp: nat)
    requires n <= |entries|
    ensures DeriveFirst(entries, n, cache, send, pastKeyed, pastCache, stamp).Failure?
        <==> exists i :: 0 <= i < n && Unknown(entries[i], pastKeyed)
    ensures DeriveFirst(entries, n, cache, send, pastKeyed, pastCache, stamp).Failure? ==>
      exists i :: 0 <= i < n && Unknown(entries[i], pastKeyed)
        && (forall j | 0 <= j < i :: !Unknown(entries[j], pastKeyed))
        && DeriveFirst(entries, n, cache, send, pastKeyed, pastCache, stamp).error == MissingPastKey(entries[i].key)
    decreases n
  {
    if n > 0 {
      DeriveFailsOnUnknownKey(entries, n - 1, cache, send, pastKeyed, pastCache, stamp);
      var prefix := DeriveFirst(entries, n - 1, cache, send, pastKeyed, pastCache, stamp);
      if prefix.Success? && Unknown(entries[n - 1], pastKeyed) {
        assert forall j | 0 <= j < n - 1 :: !Unknown(entries[j], pastKeyed);
      }
    }
  }

  /**
   * The children, entry by entry: same length and order as the entries; a
   * leaf passes through; a reused entry gets its past element from
   * `pastCache` (nothing if the cache lacks the key); a rebuilt entry gets a
   * new element carrying its key and node.
   */
  lemma {:induction false} DeriveChildrenAt(entries: seq<Entry>, n: nat, cache: Cache, send: Send,
                                            pastKeyed: map<Key, Node>, pastCache: Cache, stamp: nat, d: Derived)
    requires n <= |entries|
    requires DeriveFirst(entries, n, cache, send, pastKeyed, pastCache, stamp) == Success(d)
    ensures |d.children| == n
    ensures forall i | 0 <= i < n && entries[i].value.Leaf? :: d.children[i] == TextChild(entries[i].value.text)
    ensures forall i | 0 <= i < n && entries[i].value.Tree? :: entries[i].key in pastKeyed
    ensures forall i | 0 <= i < n && Reused(entries[i], pastKeyed) :: d.children[i] == PastChild(pastCache, entries[i].key)
    ensures forall i | 0 <= i < n && Rebuilt(entries[i], pastKeyed) ::
      d.children[i] == ElementChild(NewElement(entries[i].key, entries[i].value.node, send, stamp, i))
    decreases n
  {
    if n > 0 {
      var prefix := DeriveFirst(entries, n - 1, cache, send, pastKeyed, pastCache, stamp);
      DeriveChildrenAt(entries, n - 1, cache, send, pastKeyed, pastCache, stamp, prefix.value);
    }
  }

  /** One step of the mapping, as far as the cache is concerned. */
  lemma CacheStep(entries: seq<Entry>, n: nat, cache: Cache, send: Send,
                  pastKeyed: map<Key, Node>, pastCache: Cache, stamp: nat, d: Derived)
    requires 0 < n <= |entries|
    requires DeriveFirst(entries, n, cache, send, pastKeyed, pastCache, stamp) == Success(d)
    ensures DeriveFirst(entries, n - 1, cache, send, pastKeyed, pastCache, stamp).Success?
    ensures var p := DeriveFirst(entries, n - 1, cache, send, pastKeyed, pastCache, stamp).value;
      d.cache == if Rebuilt(entries[n - 1], pastKeyed)
                 then p.cache[entries[n - 1].key := NewElement(entries[n - 1].key, entries[n - 1].value.node, send, stamp, n - 1)]
                 else p.cache
  {
  }

  /** The set of keys of the rebuilt entries among the first `n`. */
  ghost function RebuiltKeys(entries: seq<Entry>, n: nat, pastKeyed: map<Key, Node>): set<Key>
    requires n <= |entries|
  {
    set i | 0 <= i < n && Rebuilt(entries[i], pastKeyed) :: entries[i].key
  }

  /**
   * The cache afterwards holds the keys passed in plus the keys of the
   * rebuilt entries and no other: a reused entry writes nothing, so its key
   * is in the result only if it was already there.
   */
  lemma {:induction false} DeriveCacheKeys(entries: seq<Entry>, n: nat, cache: Cache, send: Send,
                                           pastKeyed: map<Key, Node>, pastCache: Cache, stamp: nat, d: Derived)
    requires n <= |entries|
    requires DeriveFirst(entries, n, cache, send, pastKeyed, pastCache, stamp) == Success(d)
    ensures d.cache.Keys == cache.Keys + RebuiltKeys(entries, n, pastKeyed)
    decreases n
  {
    if n > 0 {
      CacheStep(entries, n, cache, send, pastKeyed, pastCache, stamp, d);
      var p := DeriveFirst(entries, n - 1, cache, send, pastKeyed, pastCache, stamp).value;
      DeriveCacheKeys(entries, n - 1, cache, send, pastKeyed, pastCache, stamp, p);
      assert RebuiltKeys(entries, n, pastKeyed) == RebuiltKeys(entries, n - 1, pastKeyed)
        + (if Rebuilt(entries[n - 1], pastKeyed) then {entries[n - 1].key} else {});
    }
  }

  /**
   * The cache afterwards, value by value: a key no rebuilt entry carries
   * keeps what it held, and the key of a rebuilt entry holds the element
   * created for the last rebuilt entry with that key.
   */
  lemma {:induction false} DeriveCacheValues(entries: seq<Entry>, n: nat, cache: Cache, send: Send,
                                             pastKeyed: map<Key, Node>, pastCache: Cache, stamp: nat, d: Derived)
    requires n <= |entries|
    requires DeriveFirst(entries, n, cache, send, pastKeyed, pastCache, stamp) == Success(d)
    ensures forall k | k in cache && k !in RebuiltKeys(entries, n, pastKeyed) :: k in d.cache && d.cache[k] == cache[k]
    ensures forall i | 0 <= i < n && Rebuilt(entries[i], pastKeyed) && LastRebuilt(entries, n, i, pastKeyed) ::
      entries[i].key in d.cache && d.cache[entries[i].key] == NewElement(entries[i].key, entries[i].value.node, send, stamp, i)
    decreases n
  {
    if n > 0 {
      CacheStep(entries, n, cache, send, pastKeyed, pastCache, stamp, d);
      var p := DeriveFirst(entries, n - 1, cache, send, pastKeyed, pastCache, stamp).value;
      DeriveCacheValues(entries, n - 1, cache, send, pastKeyed, pastCache, stamp, p);
      assert RebuiltKeys(entries, n - 1, pastKeyed) <= RebuiltKeys(entries, n, pastKeyed);
      if Rebuilt(entries[n - 1], pastKeyed) {
        assert entries[n - 1].key in RebuiltKeys(entries, n, pastKeyed);
      }
      forall i | 0 <= i < n - 1 && Rebuilt(entries[i], pastKeyed) && LastRebuilt(entries, n, i, pastKeyed)
        ensures LastRebuilt(entries, n - 1, i, pastKeyed)
      {
      }
    }
  }

  /** getDerivedChildren: maps the entries in order, writing each new element into `cache`. */
  method GetDerivedChildren(entries: seq<Entry>, cache: Cache, send: Send,
                            pastKeyed: map<Key, Node>, pastCache: Cache, stamp: nat)
    returns (r: Result<Derived, ChildError>)
    ensures r == DeriveChildren(entries, cache, send, pastKeyed, pastCache, stamp)
  {
    var children: seq<Child> := [];
    var out := cache;
    var i := 0;
    while i < |entries|
      invariant 0 <= i <= |entries|
      invariant DeriveFirst(entries, i, cache, send, pastKeyed, pastCache, stamp) == Success(Derived(children, out))
    {
      var entry := entries[i];
      match entry.value {
        case Leaf(text) =>
          children := children + [TextChild(text)];
        case Tree(node) =>
          if entry.key !in pastKeyed {
            FailureSticks(entries, i + 1, |entries|, cache, send, pastKeyed, pastCache, stamp);
            return Failure(MissingPastKey(entry.key));
          }
          if node.hash == pastKeyed[entry.key].hash {
            children := children + [PastChild(pastCache, entry.key)];
          } else {
            var element := NewElement(entry.key, node, send, stamp, i);
            out := out[entry.key := element];
            children := children + [ElementChild(element)];
          }
      }
      i := i + 1;
    }
    r := Success(Derived(children, out));
  }

  /** What initializeChildren has produced after mapping the first `n` entries. */
  function InitialFirst(entries: seq<Entry>, n: nat, cache: Cache, send: Send, stamp: nat): Derived
    requires n <= |entries|
    decreases n
  {
    if n == 0 then Derived([], cache)
    else
      var d := InitialFirst(entries, n - 1, cache, send, stamp);
      var entry := entries[n - 1];
      match entry.value
      case Leaf(text) => Derived(d.children + [TextChild(text)], d.cache)
      case Tree(node) =>
        var element := NewElement(entry.key, node, send, stamp, n - 1);
        Derived(d.children + [ElementChild(element)], d.cache[entry.key := element])
  }

  /** initializeChildren(entries, cache, send). */
  function InitialChildren(entries: seq<Entry>, cache: Cache, send: Send, stamp: nat): Derived
  {
    InitialFirst(entries, |entries|, cache, send, stamp)
  }

  /** The keys of the non-leaf entries among the first `n`. */
  ghost function TreeKeys(entries: seq<Entry>, n: nat): set<Key>
    requires n <= |entries|
  {
    set i | 0 <= i < n && entries[i].value.Tree? :: entries[i].key
  }

  /**
   * Initial children: same length and order as the entries, leaves pass
   * through, every non-leaf entry gets a new element carrying its key and node.
   */
  lemma {:induction false} InitialChildrenAt(entries: seq<Entry>, n: nat, cache: Cache, send: Send, stamp: nat)
    requires n <= |entries|
    ensures var d := InitialFirst(entries, n, cache, send, stamp);
      && |d.children| == n
      && (forall i | 0 <= i < n && entries[i].value.Leaf? :: d.children[i] == TextChild(entries[i].value.text))
      && (forall i | 0 <= i < n && entries[i].value.Tree? ::
            d.children[i] == ElementChild(NewElement(entries[i].key, entries[i].value.node, send, stamp, i)))
    decreases n
  {
    if n > 0 {
      InitialChildrenAt(entries, n - 1, cache, send, stamp);
    }
  }

  /**
   * The initial cache gains exactly the non-leaf keys, each holding an
   * element created by this call for that key; other keys keep their value.
   */
  lemma {:induction false} InitialCache(entries: seq<Entry>, n: nat, cache: Cache, send: Send, stamp: nat)
    requires n <= |entries|
    ensures var d := InitialFirst(entries, n, cache, send, stamp);
      && d.cache.Keys == cache.Keys + TreeKeys(entries, n)
      && (forall k | k in TreeKeys(entries, n) :: d.cache[k].stamp == stamp && d.cache[k].config.key == Some(k))
      && (forall k | k in cache && k !in TreeKeys(entries, n) :: d.cache[k] == cache[k])
    decreases n
  {
    if n > 0 {
      InitialCache(entries, n - 1, cache, send, stamp);
      var d := InitialFirst(entries, n, cache, send, stamp);
      var p := InitialFirst(entries, n - 1, cache, send, stamp);
      var entry := entries[n - 1];
      if entry.value.Tree? {
        assert d.cache == p.cache[entry.key := NewElement(entry.key, entry.value.node, send, stamp, n - 1)];
        assert TreeKeys(entries, n) == TreeKeys(entries, n - 1) + {entry.key};
      } else {
        assert d.cache == p.cache;
        assert TreeKeys(entries, n) == TreeKeys(entries, n - 1);
      }
    }
  }

  /** initializeChildren: maps the entries in order, writing every element into `cache`. */
  method InitializeChildren(entries: seq<Entry>, cache: Cache, send: Send, stamp: nat) returns (d: Derived)
    ensures d == InitialChildren(entries, cache, send, stamp)
  {
    var children: seq<Child> := [];
    var out := cache;
    var i := 0;
    while i < |entries|
      invariant 0 <= i <= |entries|
      invariant InitialFirst(entries, i, cache, send, stamp) == Derived(children, out)
    {
      var entry := entries[i];
      match entry.value {
        case Leaf(text) =>
          children := children + [TextChild(text)];
        case Tree(node) =>
          var element := NewElement(entry.key, node, send, stamp, i);
          out := out[entry.key := element];
          children := children + [ElementChild(element)];
      }
      i := i + 1;
    }
    d := Derived(children, out);
  }
}

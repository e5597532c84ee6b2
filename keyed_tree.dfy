/**
 * The keyed variant (mod.ts): the tree the producer sends, and the values the
 * reconciler derives from it for the host renderer.
 */
module KeyedTree {
  import opened Wrappers

  type Key = string
  type Name = string

  /** An opaque value supplied by the producer: a literal prop value, or the context of an event. */
  type Value = string

  /** Identity of the producer port's `send` function; one is shared by every handler of a tree. */
  type Send = nat

  /** The tag used when a node has none. */
  const DefaultTag: string := "g"

  datatype Attribute = Attribute(hash: int, event: bool, value: Value)

  /** `Markup = string | Node`. */
  datatype Markup = Leaf(text: string) | Tree(node: Node)

  /**
   * A node and the producer's hashes of it: `hash` of the whole node,
   * `attrsHash` of its attributes, `entriesHash` of its entries. `keyed`
   * maps each child key to the child node.
   */
  datatype Node = Node(
    hash: int,
    tag: Option<string>,
    attrsHash: int,
    attrs: map<Name, Attribute>,
    entriesHash: int,
    entries: seq<Entry>,
    keyed: map<Key, Node>)

  datatype Entry = Entry(key: Key, value: Markup)

  /** What a handler passes to `send`. */
  datatype Event = Event(context: Value, value: Value)

  /** One call of a `send` function. */
  datatype Delivery = Delivery(send: Send, event: Event)

  /** An event-handler closure: created with stamp `stamp` for attribute `name`, bound to `context` and `send`. */
  datatype Handler = Handler(stamp: nat, name: Name, context: Value, send: Send)

  /** The props a `NodeRenderer` element is created with. */
  datatype Config = Config(key: Option<Key>, node: Node, send: Send)

  /** A `NodeRenderer` element: created with stamp `stamp` at position `slot` of its parent's entries. */
  datatype ElementRef = ElementRef(stamp: nat, slot: nat, config: Config)

  /** A derived prop; `Undefined` is what reading an absent name gives. */
  datatype Prop = Undefined | KeyProp(key: Key) | Literal(value: Value) | Bound(handler: Handler)

  /** A derived child; `Missing` is what reading an absent cache key gives. */
  datatype Child = TextChild(text: string) | ElementChild(element: ElementRef) | Missing

  /** What a render hands to the host: `createElement(tag, props, children)`. */
  datatype HostElement = HostElement(tag: string, props: map<Name, Prop>, children: seq<Child>)

  /** `getEventHandler(context, send)`: a closure bound to `context` and `send`. */
  function GetEventHandler(context: Value, send: Send, stamp: nat, name: Name): Handler
  {
    Handler(stamp, name, context, send)
  }

  /** Calling handler `h` with `value`: the calls of `send` it makes, in order. */
  function Invoke(h: Handler, value: Value): (calls: seq<Delivery>)
    ensures |calls| == 1
    ensures calls[0].send == h.send && calls[0].event.context == h.context && calls[0].event.value == value
  {
    [Delivery(h.send, Event(h.context, value))]
  }

  /** The tag a node renders with. */
  function TagName(tag: Option<string>): (name: string)
    ensures tag.None? ==> name == DefaultTag
    ensures tag.Some? ==> name == tag.value
  {
    match tag
    case Some(t) => t
    case None => DefaultTag
  }
}

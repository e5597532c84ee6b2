/**
 * The frame-synchronized variant (react.ts): the tree the producer sends,
 * the messages sent back to it, and the values derived for the host renderer.
 */
module FramedTree {
  import opened Wrappers

  type Key = string
  type Name = string

  /** An opaque value supplied by the producer: a literal prop value, or the payload of an event. */
  type Value = string

  /** Identity of the producer port's `send` function. */
  type Send = nat

  /** Identity of the host event object a handler is called with. */
  type DomEvent = nat

  /** The tag used when a node has none. */
  const DefaultTag: string := "g"

  /** `handler`, `preventDefault` and `stopPropagation` are `true` or absent in the source. */
  datatype Attribute = Attribute(hash: int, handler: bool, preventDefault: bool, stopPropagation: bool, event: Value)

  datatype Markup = Leaf(text: string) | Tree(node: Node)

  datatype Node = Node(
    hash: int,
    tag: Option<string>,
    attrsHash: int,
    attrs: map<Name, Attribute>,
    entriesHash: int,
    entries: seq<Entry>)

  datatype Entry = Entry(key: Key, value: Markup)

  /** What `send` carries: `null` (a frame tick) or an event. */
  datatype Message = FrameTick | Event(event: Value, value: DomEvent)

  /** The observable effects of a handler call, in order. */
  datatype Effect = PreventDefault(target: DomEvent) | StopPropagation(target: DomEvent) | Sent(send: Send, message: Message)

  /** An event-handler closure created with stamp `stamp` for attribute `name`. */
  datatype Handler = Handler(stamp: nat, name: Name, event: Value, send: Send, preventDefault: bool, stopPropagation: bool)

  /** The props a `NodeRenderer` element is created with. */
  datatype Config = Config(key: Option<Key>, node: Node, send: Send)

  /** A `NodeRenderer` element: created with stamp `stamp` at position `slot` of its parent's entries. */
  datatype ElementRef = ElementRef(stamp: nat, slot: nat, config: Config)

  /** A derived prop; `Undefined` is what reading an absent name gives. */
  datatype Prop = Undefined | KeyProp(key: Key) | Literal(value: Value) | Bound(handler: Handler)

  datatype Child = TextChild(text: string) | ElementChild(element: ElementRef)

  /** What a render hands to the host: `createElement(tag, props, children)`. */
  datatype HostElement = HostElement(tag: string, props: map<Name, Prop>, children: seq<Child>)

  /** `getEventHandler(event, send, preventDefault, stopPropagation)`. */
  function GetEventHandler(event: Value, send: Send, preventDefault: bool, stopPropagation: bool,
                           stamp: nat, name: Name): Handler
  {
    Handler(stamp, name, event, send, preventDefault, stopPropagation)
  }

  /** Calling handler `h` with host event `value`: its effects, in order. */
  function Invoke(h: Handler, value: DomEvent): (effects: seq<Effect>)
    // exactly one call of `send`, the last effect, carrying the bound payload and the host event
    ensures |effects| >= 1 && effects[|effects| - 1] == Sent(h.send, Event(h.event, value))
    ensures forall i | 0 <= i < |effects| - 1 :: !effects[i].Sent?
    // the flags decide which of the other two effects happen, each at most once, on this event
    ensures PreventDefault(value) in effects <==> h.preventDefault
    ensures StopPropagation(value) in effects <==> h.stopPropagation
    ensures |effects| == 1 + (if h.preventDefault then 1 else 0) + (if h.stopPropagation then 1 else 0)
    ensures forall i | 0 <= i < |effects| :: effects[i].Sent? || effects[i].target == value
    // preventDefault comes before stopPropagation
    ensures forall i, j | 0 <= i < |effects| && 0 <= j < |effects| && effects[i].PreventDefault? && effects[j].StopPropagation? :: i < j
  {
    (if h.preventDefault then [PreventDefault(value)] else [])
    + (if h.stopPropagation then [StopPropagation(value)] else [])
    + [Sent(h.send, Event(h.event, value))]
  }

  /** The tag a node renders with. */
  function TagName(tag: Option<string>): (name: string)
    ensures tag.None? ==> name == DefaultTag
    ensures tag.Some? ==> name == tag.value
  {
    match tag
    case Some(t) => t
    case None => DefaultTag
  }
}

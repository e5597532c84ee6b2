/** The root bridge of the keyed variant: `Renderer` (mod.ts). */
module KeyedRoot {
  import opened Wrappers
  import opened KeyedTree

  /** A call the renderer makes on the producer's inbound port. */
  datatype PortCall = Subscribe | Unsubscribe

  /** What the root renders: the text itself, or a `NodeRenderer` element without a key. */
  datatype RootOutput = TextOutput(text: string) | NodeOutput(config: Config)

  /**
   * `shouldComponentUpdate`: an update is declined only when both the current
   * and the next markup are nodes with the same hash.
   */
  function ShouldUpdate(html: Markup, nextHtml: Markup): (update: bool)
    ensures !update <==> html.Tree? && nextHtml.Tree? && html.node.hash == nextHtml.node.hash
  {
    if nextHtml.Leaf? then true
    else if html.Leaf? then true
    else nextHtml.node.hash != html.node.hash
  }

  /** `render()`. */
  function RenderRoot(html: Markup, send: Send): (out: RootOutput)
    ensures html.Leaf? <==> out.TextOutput?
    ensures html.Leaf? ==> out.text == html.text
    ensures html.Tree? ==> out.config == Config(None, html.node, send)
  {
    match html
    case Leaf(text) => TextOutput(text)
    case Tree(node) => NodeOutput(Config(None, node, send))
  }

  class Renderer {
    /** `this.state.html`. */
    var html: Markup
    /** `this.props.toElm.send`. */
    const send: Send
    /** The calls made on `this.props.fromElm`, in order. */
    ghost var portCalls: seq<PortCall>

    constructor (send: Send)
      ensures html == Leaf("") && this.send == send && portCalls == []
    {
      html := Leaf("");
      this.send := send;
      portCalls := [];
    }

    /**
     * `handleHtml`: the markup the producer pushed becomes the state, and
     * `update` is the root gate the host library then applies.
     */
    method HandleHtml(next: Markup) returns (update: bool)
      modifies this
      ensures html == next && portCalls == old(portCalls)
      ensures update == ShouldUpdate(old(html), next)
    {
      update := ShouldComponentUpdate(next);
      html := next;
    }

    method ComponentDidMount()
      modifies this
      ensures html == old(html) && portCalls == old(portCalls) + [Subscribe]
    {
      portCalls := portCalls + [Subscribe];
    }

    method ComponentWillUnmount()
      modifies this
      ensures html == old(html) && portCalls == old(portCalls) + [Unsubscribe]
    {
      portCalls := portCalls + [Unsubscribe];
    }

    function ShouldComponentUpdate(nextHtml: Markup): (update: bool)
      reads this
      ensures update == ShouldUpdate(html, nextHtml)
    {
      ShouldUpdate(html, nextHtml)
    }

    function Render(): (out: RootOutput)
      reads this
      ensures out == RenderRoot(html, send)
    {
      RenderRoot(html, send)
    }
  }
}

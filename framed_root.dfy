/**
 * The root bridge of the frame-synchronized variant: `Renderer` (react.ts),
 * with the host's frame-request registry it uses.
 */
module FramedRoot {
  import opened Wrappers
  import opened FramedTree

  /** A call the renderer makes on the producer's ports. */
  datatype PortCall = Subscribe | Unsubscribe | SendMessage(message: Message)

  /** What the root renders: the text itself, or a `NodeRenderer` element without a key. */
  datatype RootOutput = TextOutput(text: string) | NodeOutput(config: Config)

  /**
   * `shouldComponentUpdate`: an update is declined only when both the current
   * and the next markup are nodes with the same hash.
   */
  function ShouldUpdate(html: Markup, nextHtml: Markup): (update: bool)
    ensures !update <==> html.Tree? && nextHtml.Tree? && html.node.hash == nextHtml.node.hash
  {
    if nextHtml.Leaf? then true
    else if html.Leaf? then true
    else nextHtml.node.hash != html.node.hash
  }

  /** `render()`. */
  function RenderRoot(html: Markup, send: Send): (out: RootOutput)
    ensures html.Leaf? <==> out.TextOutput?
    ensures html.Leaf? ==> out.text == html.text
    ensures html.Tree? ==> out.config == Config(None, html.node, send)
  {
    match html
    case Leaf(text) => TextOutput(text)
    case Tree(node) => NodeOutput(Config(None, node, send))
  }

  /** The host's animation-frame registry: `requestAnimationFrame` and `cancelAnimationFrame`. */
  class FrameHost {
    /** The id the next request receives. */
    var next: nat
    /** The requests registered and neither fired nor cancelled. */
    var pending: set<nat>

    ghost predicate Valid()
      reads this
    {
      forall id | id in pending :: id < next
    }

    constructor ()
      ensures Valid() && next == 0 && pending == {}
    {
      next := 0;
      pending := {};
    }

    method Request() returns (id: nat)
      requires Valid()
      modifies this
      ensures Valid() && id == old(next) && id !in old(pending)
      ensures next == old(next) + 1 && pending == old(pending) + {id}
    {
      id := next;
      next := next + 1;
      pending := pending + {id};
    }

    method Cancel(id: nat)
      requires Valid()
      modifies this
      ensures Valid() && next == old(next) && pending == old(pending) - {id}
    {
      pending := pending - {id};
    }

    /** The host fires request `id`: it leaves the registry before its callback runs. */
    method Fire(id: nat)
      requires Valid() && id in pending
      modifies this
      ensures Valid() && next == old(next) && pending == old(pending) - {id}
    {
      pending := pending - {id};
    }
  }

  class Renderer {
    /** `this.state.html`. */
    var html: Markup
    /** `this.animationFrameRequest`. */
    var animationFrameRequest: Option<nat>
    /** `this.props.toElmPort.send`. */
    const send: Send
    /** The host's frame registry. */
    const host: FrameHost
    /** The calls made on the producer's ports, in order. */
    ghost var portCalls: seq<PortCall>

    ghost predicate Valid()
      reads this, host
    {
      host.Valid()
    }

    /** At most one frame request is outstanding, and it is the one the field holds. */
    ghost predicate NoLeak()
      reads this, host
    {
      host.pending <= if animationFrameRequest.Some? then {animationFrameRequest.value} else {}
    }

    constructor (send: Send, host: FrameHost)
      requires host.Valid()
      ensures Valid() && this.send == send && this.host == host
      ensures html == Leaf("") && animationFrameRequest == None && portCalls == []
    {
      html := Leaf("");
      animationFrameRequest := None;
      this.send := send;
      this.host := host;
      portCalls := [];
    }

    /**
     * `handleHtml`: `null` requests a frame and stores the request, leaving
     * `html` alone; markup becomes the state, and `update` is the root gate
     * the host library then applies. A request already stored is overwritten
     * without being cancelled.
     */
    method HandleHtml(next: Option<Markup>) returns (update: bool)
      requires Valid()
      modifies this, host
      ensures Valid() && portCalls == old(portCalls) && host.next == old(host.next) + (if next.None? then 1 else 0)
      ensures next.None? ==> && html == old(html)
                              && animationFrameRequest == Some(old(host.next))
                              && host.pending == old(host.pending) + {old(host.next)}
      ensures next.Some? ==> && html == next.value
                              && animationFrameRequest == old(animationFrameRequest)
                              && host.pending == old(host.pending)
      ensures update == (next.Some? && ShouldUpdate(old(html), next.value))
      // no leak only while no request is outstanding when `null` arrives
      ensures old(NoLeak()) && (next.Some? || old(host.pending) == {}) ==> NoLeak()
    {
      match next {
        case None =>
          var id := host.Request();
          animationFrameRequest := Some(id);
          update := false;
        case Some(markup) =>
          update := ShouldComponentUpdate(markup);
          html := markup;
      }
    }

    /**
     * `handleAnimationFrame`, as run when the host fires request `fired`:
     * one `send(null)`, then the stored request is cleared.
     */
    method HandleAnimationFrame(fired: nat)
      requires Valid() && fired in host.pending
      modifies this, host
      ensures Valid() && html == old(html) && host.next == old(host.next)
      ensures host.pending == old(host.pending) - {fired}
      ensures portCalls == old(portCalls) + [SendMessage(FrameTick)]
      ensures animationFrameRequest == None
      ensures old(NoLeak()) ==> NoLeak() && host.pending == {}
    {
      host.Fire(fired);
      portCalls := portCalls + [SendMessage(FrameTick)];
      animationFrameRequest := None;
    }

    method ComponentDidMount()
      modifies this
      ensures html == old(html) && animationFrameRequest == old(animationFrameRequest)
      ensures portCalls == old(portCalls) + [Subscribe]
    {
      portCalls := portCalls + [Subscribe];
    }

    /** `componentWillUnmount`: unsubscribe, then cancel exactly the stored request, if any. */
    method ComponentWillUnmount()
      requires Valid()
      modifies this, host
      ensures Valid() && html == old(html) && host.next == old(host.next)
      ensures portCalls == old(portCalls) + [Unsubscribe]
      ensures animationFrameRequest == None
      ensures host.pending == old(host.pending) - (if old(animationFrameRequest).Some? then {old(animationFrameRequest).value} else {})
      ensures old(NoLeak()) ==> host.pending == {}
    {
      portCalls := portCalls + [Unsubscribe];
      if animationFrameRequest.Some? {
        host.Cancel(animationFrameRequest.value);
        animationFrameRequest := None;
      }
    }

    function ShouldComponentUpdate(nextHtml: Markup): (update: bool)
      reads this
      ensures update == ShouldUpdate(html, nextHtml)
    {
      ShouldUpdate(html, nextHtml)
    }

    function Render(): (out: RootOutput)
      reads this
      ensures out == RenderRoot(html, send)
    {
      RenderRoot(html, send)
    }

    /**
     * `handleHtml` with at most one outstanding request: a stored request is
     * cancelled before the new one is made, and a frame is still requested
     * for every `null`.
     */
    method HandleHtmlSingleRequest(next: Option<Markup>) returns (update: bool)
      requires Valid()
      modifies this, host
      ensures Valid() && portCalls == old(portCalls)
      ensures next.None? ==> && html == old(html) && animationFrameRequest == Some(old(host.next))
                              && host.next == old(host.next) + 1
                              && host.pending == old(host.pending)
                                   - (if old(animationFrameRequest).Some? then {old(animationFrameRequest).value} else {})
                                   + {old(host.next)}
      ensures next.Some? ==> && html == next.value && animationFrameRequest == old(animationFrameRequest)
                              && host.pending == old(host.pending) && host.next == old(host.next)
      ensures update == (next.Some? && ShouldUpdate(old(html), next.value))
      ensures old(NoLeak()) ==> NoLeak()
    {
      match next {
        case None =>
          if animationFrameRequest.Some? {
            host.Cancel(animationFrameRequest.value);
          }
          var id := host.Request();
          animationFrameRequest := Some(id);
          update := false;
        case Some(markup) =>
          update := ShouldComponentUpdate(markup);
          html := markup;
      }
    }
  }

  /**
   * Two `null`s in a row, then unmount: the first request was overwritten,
   * is never cancelled, stays registered, and when it fires the renderer
   * sends to the producer after it has unsubscribed.
   */
  method DoubleNullLeaksFrame() returns (r: Renderer)
    ensures r.animationFrameRequest == None
    ensures r.host.pending == {} && r.host.next == 2
    ensures r.portCalls == [Subscribe, Unsubscribe, SendMessage(FrameTick)]
  {
    var host := new FrameHost();
    r := new Renderer(0, host);
    r.ComponentDidMount();
    var _ := r.HandleHtml(None);
    var _ := r.HandleHtml(None);
    r.ComponentWillUnmount();
    assert 0 in host.pending;
    r.HandleAnimationFrame(0);
  }

  /**
   * The same sequence with the single-request handler still requests a
   * frame for each `null`, yet leaves nothing registered after unmount.
   */
  method DoubleNullSingleRequest() returns (r: Renderer)
    ensures r.animationFrameRequest == None && r.host.pending == {} && r.host.next == 2
    ensures r.portCalls == [Subscribe, Unsubscribe]
  {
    var host := new FrameHost();
    r := new Renderer(0, host);
    r.ComponentDidMount();
    var _ := r.HandleHtmlSingleRequest(None);
    assert host.pending == {0};
    var _ := r.HandleHtmlSingleRequest(None);
    r.ComponentWillUnmount();
  }
}

# Hash-memoized reconciliation of producer trees (Dafny model)

This project models the core of a bridge that renders a tree produced by a
foreign application (an Elm program, through ports) with a host UI library.
The producer sends `Markup`: either a string or a `Node` carrying its own
hashes (`hash` of the whole node, `attrsHash` of its attributes,
`entriesHash` of its keyed entries). The bridge turns it into
`(tag, props, children)` descriptions. It reuses earlier derived props and
child elements wherever a hash shows that nothing changed. It also wires
event attributes into handlers that forward events through one `send`
function.

Two variants are modelled.

- **Keyed variant (`mod.ts`), modules `Keyed*`.**
  - `KeyedTree` holds the data model and event handlers.
  - `KeyedProps` holds `getDerivedProps` and `initializeProps`.
  - `KeyedChildren` holds `getDerivedChildren` and `initializeChildren`, with the per-node child cache.
  - `KeyedNode` holds the `NodeRenderer` state transition and the class itself.
  - `KeyedRoot` holds the root `Renderer`.
  - `KeyedFixes` holds two defects and their corrections.
- **Frame-synchronized variant (`react.ts`), modules `Framed*`.**
  - Props are memoized the same way. Children are rebuilt on every render.
  - Handlers may prevent the default action and stop propagation.
  - The root keeps one animation-frame request, which it sets when the producer sends `null`.
  - `FramedFixes` and `FramedRoot` hold two defects and their corrections.

Modelling choices:

- **Object identity.** Each call that may create objects takes one *stamp* from a monotone counter (`Identity.Allocator`). A handler closure is identified by its stamp and attribute name. A `NodeRenderer` element is identified by its stamp and its position in the parent's entries. "Reused" means the past value comes back unchanged. "Created by this call" means the value carries the current stamp. Each `NodeRenderer` keeps the one allocator it was constructed with. Its invariant says that every handler and element it holds was stamped earlier. So whatever an update or a render creates is distinct from everything the instance held or rendered before.
- **Deriving functions and loops.** `getDerivedProps`, `initializeProps`, `getDerivedChildren` and `initializeChildren` fill a record or a cache in a loop. Each is a method with a loop, proved equal to a function (`DerivedProps`, `DeriveChildren`, ...). The state transitions and the lemmas are stated over those functions.
- **Classes.** `NodeRenderer` and `Renderer` are classes whose fields are the component's `props` and `state`. The lifecycle calls made by the host library become explicit method calls.
- **JavaScript `undefined`.** Reading an absent name of the past props gives `Prop.Undefined`. Reading an absent key of the past cache gives `Child.Missing`. Reading `.hash` of an absent `pastKeyed[key]` throws, modelled as `Failure(MissingPastKey(key))`.
- **Event logs.** Calls of `send`, `preventDefault` and `stopPropagation` are the sequence of effects a handler call returns. Port subscriptions go in a ghost log on the root renderer. The browser's `requestAnimationFrame` registry is the `FrameHost` class: an id counter and a set of pending requests.

## Model

| member | source | states |
|---|---|---|
| KeyedTree.Invoke | mod.ts:116-118 | a handler call makes exactly one call of the bound `send`, with `{context, value}` |
| KeyedTree.TagName | mod.ts:244 | the tag is the node's tag, or `"g"` when it has none |
| KeyedProps.DerivedProps | mod.ts:120-142 | the names are exactly the new attribute names plus `key` when defined, so a name only the past attributes had is dropped; an unchanged hash keeps the past prop as it was (an absent past attribute never matches); a changed event attribute gets a handler created by this call, bound to its value and `send`; any other changed attribute gets its literal value |
| KeyedProps.GetDerivedProps | mod.ts:127-141 | the `for...in` loop builds exactly `DerivedProps` |
| KeyedProps.InitialProps | mod.ts:182-193 | the names are the attribute names plus `key`; every event attribute gets a handler created by this call, every other attribute its literal value |
| KeyedProps.InitializeProps | mod.ts:182-193 | the loop builds exactly `InitialProps` |
| KeyedProps.InitialIsDerivedFromNothing | mod.ts:182-193 | initializing gives the same props as deriving against no past attributes |
| KeyedProps.RederiveIsIdentity | mod.ts:132-133 | deriving again from the same attributes against the props just derived gives those props back |
| KeyedChildren.FailureSticks | mod.ts:151-162 | once a call of the mapping callback has thrown, the whole mapping fails with that error |
| KeyedChildren.DeriveFailsOnUnknownKey | mod.ts:154-156 | the children differ throws exactly when a non-leaf entry has a key the past node's `keyed` lacks, and it reports the first such key |
| KeyedChildren.DeriveChildrenAt | mod.ts:151-162 | on success the children match the entries in length and order; a leaf passes through; an entry whose hash equals `pastKeyed[key].hash` gets `pastCache[key]`, which is missing when the cache lacks the key; any other non-leaf entry gets a new element with its key, node and `send` |
| KeyedChildren.DeriveCacheKeys | mod.ts:156-157 | the cache gains exactly the keys of the rebuilt entries; a reused entry's key is not written |
| KeyedChildren.DeriveCacheValues | mod.ts:157-161 | a key no rebuilt entry carries keeps its value; a rebuilt key holds the element created for its last rebuilt entry |
| KeyedChildren.GetDerivedChildren | mod.ts:144-163 | mapping the entries in order while writing into `cache` gives exactly `DeriveChildren`, including the error |
| KeyedChildren.InitialChildrenAt | mod.ts:195-206 | initial children match the entries in length and order; leaves pass through; every non-leaf entry gets a new element with its key |
| KeyedChildren.InitialCache | mod.ts:199-204 | the initial cache gains exactly the non-leaf keys, each holding an element created by this call for that key |
| KeyedChildren.InitializeChildren | mod.ts:195-206 | the mapping loop gives exactly `InitialChildren` |
| KeyedNode.GetDerivedStateFromProps | mod.ts:208-232 | an equal node hash returns the identical state; otherwise the new node, with props kept when `attrsHash` is equal and derived from the new attributes against the past ones otherwise, and children kept with an empty cache when `entriesHash` is equal and otherwise taken, with the cache or the error, from the children differ started on an empty cache |
| KeyedNode.TransitionFailsOnUnknownKey | mod.ts:221-229 | the transition throws exactly when the node and entries hashes changed and a non-leaf entry has a key the past node lacked |
| KeyedNode.CacheHoldsOnlyNewElements | mod.ts:214-230 | after a changed node hash the cache holds only elements created by this transition, under exactly the rebuilt keys; nothing is merged from the past cache |
| KeyedNode.TransitionIsIdempotent | mod.ts:208-232 | applying the transition again with the same props returns the state it produced |
| KeyedNode.InitialStateIsNew | mod.ts:172-179 | every handler and element of the constructor's state was created by the constructor |
| KeyedNode.TransitionReusesOrCreates | mod.ts:208-232 | every handler and element of the next state is either held by the past state or created by this transition |
| KeyedNode.NodeRenderer.constructor | mod.ts:167-180 | the state holds the node, props from the attributes alone, and children and cache from `initializeChildren` on a fresh empty cache; the instance keeps its allocator, and all it holds predates the allocator's next stamp |
| KeyedNode.NodeRenderer.ShouldComponentUpdate | mod.ts:234-236 | re-render exactly when the node hash changed; declining never hides a state change |
| KeyedNode.NodeRenderer.ReceiveProps | mod.ts:208-232 | the new state is the transition's result and the props are committed; if the transition throws, nothing changes; every handler and element not kept was created by this update and is none of those held before |
| KeyedNode.NodeRenderer.Render | mod.ts:238-245 | renders the retained tag (or `"g"`), props and children |
| KeyedRoot.ShouldUpdate | mod.ts:79-84 | an update is declined exactly when both markups are nodes with equal hashes, so a string on either side is always accepted |
| KeyedRoot.RenderRoot | mod.ts:86-93 | a string renders as itself; a node renders as a keyless element with the node and the port's `send` |
| KeyedRoot.Renderer.constructor | mod.ts:62-65 | the initial markup is the empty string |
| KeyedRoot.Renderer.HandleHtml | mod.ts:67-69 | pushed markup becomes the state, and the root gate on the old and new markup is reported as the update decision |
| KeyedRoot.Renderer.ComponentDidMount | mod.ts:71-73 | subscribes once |
| KeyedRoot.Renderer.ComponentWillUnmount | mod.ts:75-77 | unsubscribes once |
| KeyedRoot.Renderer.ShouldComponentUpdate | mod.ts:79-84 | the root gate on the current markup |
| KeyedRoot.Renderer.Render | mod.ts:86-93 | the root render of the current markup |
| KeyedFixes.KeyChurnCrashesAsWritten | mod.ts:154-156 | going from children k1, k2 to k1, k3 throws on k3 |
| KeyedFixes.CorrectedChildrenAt | mod.ts:151-162 | corrected differ: an entry whose key the past node had with the same hash is reused; any other non-leaf entry, including an unknown key, gets a new element |
| KeyedFixes.CorrectedChildrenCover | mod.ts:156-157 | corrected differ: when the past cache covers the past keyed children, no child is missing and the cache covers every non-leaf key |
| KeyedFixes.KeyChurnCorrected | mod.ts:154-161 | corrected differ on k1, k2 to k1, k3: k1 keeps its element, k3 gets a new one, k2 leaves the cache |
| KeyedFixes.ReorderThenEditLosesChild | mod.ts:214-230 | as written, reordering two children empties the cache, and a later edit of one of them turns the other, unchanged, into a missing child |
| KeyedFixes.CorrectedKeepsCoherent | mod.ts:208-231 | the corrected transition keeps every past keyed child in the cache and never produces a missing child |
| KeyedFixes.InitialStateCoherent | mod.ts:195-206 | the constructor's children and cache are coherent |
| FramedTree.Invoke | react.ts:127-133 | a handler call prevents the default action (if flagged), then stops propagation (if flagged), then calls `send({event, value})` exactly once, last |
| FramedTree.TagName | react.ts:218 | the tag is the node's tag, or `"g"` when it has none |
| FramedProps.DerivedProps | react.ts:135-157 | the names are exactly the new attribute names plus `key`; an unchanged hash keeps the past prop; a changed `handler` attribute gets a handler created by this call over `attr.event`, without flags; any other attribute gets `attr.event` literally |
| FramedProps.GetDerivedProps | react.ts:144-154 | the loop builds exactly `DerivedProps` |
| FramedProps.InitialProps | react.ts:166-177 | the names are the attribute names plus `key`; handler attributes get unflagged handlers created by this call, others their literal `event` |
| FramedProps.InitializeProps | react.ts:168-175 | the loop builds exactly `InitialProps` |
| FramedProps.InitialIsDerivedFromNothing | react.ts:166-177 | initializing gives the same props as deriving against no past attributes |
| FramedProps.CreatedHandlersOnlyForward | react.ts:149-150 | a handler created by the differ only forwards: one `send`, no default prevention, no propagation stop |
| FramedProps.RederiveIsIdentity | react.ts:147-148 | deriving again from the same attributes against the props just derived gives those props back |
| FramedNode.GetDerivedStateFromProps | react.ts:192-206 | an equal node hash returns the identical state; otherwise the new node, with the past props when `attrsHash` is equal and props derived from the new attributes otherwise |
| FramedNode.TransitionIsIdempotent | react.ts:196-197 | applying the transition again with the same props returns the state it produced |
| FramedNode.TransitionReusesOrCreates | react.ts:192-206 | every handler of the next state is either held by the past state or created by this transition |
| FramedNode.InitialHandlersAreNew | react.ts:163 | every handler of the constructor's props was created by the constructor |
| FramedNode.InitializeChildren | react.ts:179-190 | children match the entries in length and order; leaves pass through; every non-leaf entry gets a new element with its key |
| FramedNode.RendersShareNoElement | react.ts:217-221 | two renders share no element, and one render's elements are pairwise distinct: children are never reused |
| FramedNode.NodeRenderer.constructor | react.ts:160-164 | the state holds the node and props from the attributes alone; the instance keeps its allocator and has rendered nothing yet |
| FramedNode.NodeRenderer.ShouldComponentUpdate | react.ts:208-210 | re-render exactly when the node hash changed; declining never hides a state change |
| FramedNode.NodeRenderer.ReceiveProps | react.ts:192-206 | the new state is the transition's result and the props are committed; every handler not kept was created by this update and is none of those held before |
| FramedNode.NodeRenderer.Render | react.ts:212-222 | renders the retained tag (or `"g"`) and props with children rebuilt afresh from the entries; no element of a render is one an earlier render of the instance created |
| FramedRoot.ShouldUpdate | react.ts:93-98 | an update is declined exactly when both markups are nodes with equal hashes |
| FramedRoot.RenderRoot | react.ts:100-107 | a string renders as itself; a node renders as a keyless element with the node and the port's `send` |
| FramedRoot.FrameHost.Request | react.ts:70 | a frame request gets a new id that becomes pending |
| FramedRoot.FrameHost.Cancel | react.ts:88 | cancelling removes exactly that id from the pending requests |
| FramedRoot.Renderer.constructor | react.ts:61-66 | the initial markup is the empty string and no frame request is stored |
| FramedRoot.Renderer.HandleHtml | react.ts:68-74 | `null` stores a new pending frame request and leaves `html` alone; markup becomes `html` and leaves the request alone; if none was pending before, at most one request is pending afterwards; the root gate is reported for markup, and `null` causes no update |
| FramedRoot.Renderer.HandleAnimationFrame | react.ts:76-79 | the fired request stops pending, `send(null)` is called once, and the stored request is cleared |
| FramedRoot.Renderer.ComponentDidMount | react.ts:81-83 | subscribes once |
| FramedRoot.Renderer.ComponentWillUnmount | react.ts:85-91 | unsubscribes, cancels exactly the stored request if there is one, and clears it; with at most one request outstanding, none is pending afterwards |
| FramedRoot.Renderer.ShouldComponentUpdate | react.ts:93-98 | the root gate on the current markup |
| FramedRoot.Renderer.Render | react.ts:100-107 | the root render of the current markup |
| FramedRoot.Renderer.HandleHtmlSingleRequest | react.ts:68-74 | corrected `handleHtml`: `null` cancels exactly the stored request, then registers one new request and stores it; markup leaves the registry alone; so at most one request is ever pending |
| FramedRoot.DoubleNullLeaksFrame | react.ts:68-91 | as written, `null`, `null`, unmount leaves the first request pending, and when it fires `send(null)` follows the unsubscription |
| FramedRoot.DoubleNullSingleRequest | react.ts:68-91 | with the corrected handler the same sequence still requests two frames, yet leaves nothing pending and sends nothing after unmount |
| FramedFixes.PreventDefaultDroppedAsWritten | react.ts:149-150 | as written, a handler attribute flagged `preventDefault` gets a handler that only sends |
| FramedFixes.FlagsHonoured | react.ts:127-133 | corrected differ: a created handler prevents the default and stops propagation exactly as its attribute's flags say, then sends once |
| FramedFixes.WithFlagsAgreesWithoutFlags | react.ts:144-154 | the correction changes nothing for attributes without flags |
| FramedFixes.PreventDefaultDroppedOnFirstRenderAsWritten | react.ts:170-171 | as written, on a first render a handler attribute flagged `preventDefault` gets a handler that only sends |
| FramedFixes.InitialWithFlagsIsDerivedFromNothing | react.ts:166-177 | the corrected initializer equals the corrected differ run against no past attributes |
| FramedFixes.InitialFlagsHonoured | react.ts:170-171 | corrected initializer: every handler attribute's handler prevents the default and stops propagation exactly as its flags say, then sends once |

## Left out

- The host UI library itself is outside the model: React's lifecycle scheduling, `setState` batching, and the way it keeps one component instance per key. `ReceiveProps` applies `getDerivedStateFromProps`, asks `shouldComponentUpdate`, then commits. Child reconciler instances and their recursion are the library's business, so each `NodeRenderer` is modelled on its own.
- `createElement` allocates an object. The model keeps only the element's identity (stamp and position) and its props. The host element a render returns is a plain description with no identity.
- Whether the host library passes `key` on to the component is outside the model. The key is an explicit field of `Config`.
- Hashes are opaque integers compared with `==`. They are never computed or checked. That equal hashes mean equal subtrees is an unverified producer precondition: it appears as `HashesTrusted` where a lemma needs it. `NaN` hashes are not modelled.
- `for...in` visits names in the JavaScript object's order. Maps here have no order, and handler identity does not depend on it, so the loops pick names in an unspecified order.
- The extra `send` field that both `getDerivedStateFromProps` put into the returned state (mod.ts:217, react.ts:200) is never read, so it is not modelled.
- Exceptions thrown by user code inside a handler are not modelled. The producer's side of the ports (`subscribe`, `unsubscribe`, `send`) is recorded in a log only.
- `requestAnimationFrame` and `cancelAnimationFrame` are an abstract registry (`FrameHost`): an id counter and a pending set. Frame timing is not modelled, and the timestamp passed to the callback is ignored.
- FramedRoot.Renderer.HandleAnimationFrame: does not model re-entry. Ports are a log, so `send(null)` (react.ts:77) never calls back into `handleHtml`. If the producer answered `null` synchronously, the request made by that call would be overwritten with `null` at react.ts:78, and unmount would not cancel it. The `NoLeak` guarantees of `HandleAnimationFrame` and `HandleHtmlSingleRequest` hold only without such re-entry.
- showcase/web/index.ts is not part of this model. It is bootstrap code that imports a `Changeset` type that mod.ts does not define.
- showcase/scripts/build.mjs and showcase/scripts/serve.mjs are not part of this model. They are bundling and a development server.
- `keyed` is modelled as the declared `Record<string, Node>`. A string stored there by a producer is not modelled.
- KeyedChildren.DeriveFailsOnUnknownKey: the maps model own-property lookup only. The producer's objects inherit `Object.prototype`. A new child keyed `"toString"`, `"constructor"`, `"valueOf"`, `"hasOwnProperty"` or another inherited member name reads a function at mod.ts:155. Its `.hash` is `undefined`, so mod.ts:156 does not throw and mod.ts:157 creates an element, where the model reports `MissingPastKey`. The same holds for `KeyedNode.TransitionFailsOnUnknownKey`. `"__proto__"` as a key of the cache is not modelled either.
- Where the code departs from what its own types and signatures suggest, the model follows the code:
  - a key unknown to the past node throws instead of being treated as new;
  - a reused child is not recorded in the new cache, which its `NodeCache` type is there to hold;
  - react.ts never passes the handler flags that `Attribute` declares and `getEventHandler` accepts.
  Each is listed under Findings, with a corrected member beside it. The classes follow the code as written.

## Findings

| source | as written | input that shows it | evidently intended | confidence | as-written member | corrected member |
|---|---|---|---|---|---|---|
| mod.ts:155-156 | `pastKeyed[key].hash` is read without a guard, so a non-leaf entry whose key the past node lacked throws a TypeError and the whole update fails | children keyed k1, k2 updated to k1, k3 (entries hash changed) | `pastKeyed[key]?.hash`: an unknown key gets a freshly created element | high; not executed | KeyedFixes.KeyChurnCrashesAsWritten | KeyedFixes.DeriveChildrenCorrected |
| mod.ts:156, mod.ts:214-230 | a reused child is returned but not written into the new cache, and an unchanged entries hash leaves the new cache empty, so a later update reads `undefined` for a child whose hash never changed | children a, b reordered to b, a, then b edited: child a becomes `undefined` | the new cache holds every keyed child, reused ones included, and keeps the past cache when the entries are unchanged | high; not executed | KeyedFixes.ReorderThenEditLosesChild | KeyedFixes.GetDerivedStateFromPropsCorrected |
| react.ts:150 | `getEventHandler(attr.event, send)` in getDerivedProps drops the attribute's `preventDefault` and `stopPropagation` flags | a changed `handler` attribute with `preventDefault: true`; its new handler never calls `preventDefault` | pass `attr.preventDefault` and `attr.stopPropagation` to `getEventHandler` | medium; not executed | FramedFixes.PreventDefaultDroppedAsWritten | FramedFixes.DerivedPropsWithFlags |
| react.ts:171 | `getEventHandler(attr.event, send)` in initializeProps drops the same flags on a first render | a `handler` attribute with `preventDefault: true` on a new node; its handler never calls `preventDefault` | pass the flags here too | medium; not executed | FramedFixes.PreventDefaultDroppedOnFirstRenderAsWritten | FramedFixes.InitialPropsWithFlags |
| react.ts:70 | a second `null` overwrites the stored request without cancelling the first, so unmount cancels only the last one and the first fires later | `null`, `null`, unmount: the first frame fires and calls `send(null)` after unsubscribing | at most one outstanding frame request, all cancelled on unmount | medium; not executed | FramedRoot.DoubleNullLeaksFrame | FramedRoot.Renderer.HandleHtmlSingleRequest |

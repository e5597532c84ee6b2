/** The attribute differ of the frame-synchronized variant: `getDerivedProps` and `initializeProps` (react.ts). */
module FramedProps {
  import opened Wrappers
  import opened FramedTree

  /** The reserved prop name under which an element's key is passed. */
  const KeyName: Name := "key"

  /** The names the key contributes: `key` when it is defined. */
  function KeyNames(key: Option<Key>): set<Name>
  {
    if key.Some? then {KeyName} else {}
  }

  /** The props a derivation starts from: `{ key }` or `{}`. */
  function BaseProps(key: Option<Key>): (props: map<Name, Prop>)
    ensures props.Keys == KeyNames(key)
  {
    if key.Some? then map[KeyName := KeyProp(key.value)] else map[]
  }

  /** `pastProps[name]`. */
  function Lookup(pastProps: map<Name, Prop>, name: Name): Prop
  {
    if name in pastProps then pastProps[name] else Undefined
  }

  /** `attr.hash === pastAttrs[name]?.hash`: an absent past attribute never matches. */
  predicate Unchanged(name: Name, attr: Attribute, pastAttrs: map<Name, Attribute>)
  {
    name in pastAttrs && pastAttrs[name].hash == attr.hash
  }

  /** The handler the source creates for a handler attribute: `getEventHandler(attr.event, send)`, no flags. */
  function UnflaggedHandler(name: Name, attr: Attribute, send: Send, stamp: nat): Handler
  {
    GetEventHandler(attr.event, send, false, false, stamp, name)
  }

  /** The value one iteration of the `for...in` loop of getDerivedProps stores under `name`. */
  function DerivedProp(name: Name, attr: Attribute, send: Send, pastAttrs: map<Name, Attribute>,
                       pastProps: map<Name, Prop>, stamp: nat): Prop
  {
    if Unchanged(name, attr, pastAttrs) then Lookup(pastProps, name)
    else if attr.handler then Bound(UnflaggedHandler(name, attr, send, stamp))
    else Literal(attr.event)
  }

  /** The props getDerivedProps returns. */
  function DerivedProps(attrs: map<Name, Attribute>, send: Send, key: Option<Key>,
                        pastAttrs: map<Name, Attribute>, pastProps: map<Name, Prop>, stamp: nat): (props: map<Name, Prop>)
    // exactly the new names, plus `key`: a name only the past attributes had is dropped
    ensures props.Keys == attrs.Keys + KeyNames(key)
    ensures key.Some? && KeyName !in attrs ==> props[KeyName] == KeyProp(key.value)
    // an attribute whose hash is unchanged keeps the past prop, as it was
    ensures forall name | name in attrs && Unchanged(name, attrs[name], pastAttrs) ::
      props[name] == Lookup(pastProps, name)
    // a changed handler attribute gets a handler created by this call, without its flags
    ensures forall name | name in attrs && !Unchanged(name, attrs[name], pastAttrs) && attrs[name].handler ::
      props[name] == Bound(Handler(stamp, name, attrs[name].event, send, false, false))
    // any other changed attribute is passed through literally
    ensures forall name | name in attrs && !Unchanged(name, attrs[name], pastAttrs) && !attrs[name].handler ::
      props[name] == Literal(attrs[name].event)
  {
    BaseProps(key) + map name | name in attrs :: DerivedProp(name, attrs[name], send, pastAttrs, pastProps, stamp)
  }

  /** A map with the right names and the right value under each name is the derived props. */
  lemma DerivedPropsByName(props: map<Name, Prop>, attrs: map<Name, Attribute>, send: Send, key: Option<Key>,
                           pastAttrs: map<Name, Attribute>, pastProps: map<Name, Prop>, stamp: nat)
    requires props.Keys == KeyNames(key) + attrs.Keys
    requires forall name | name in attrs :: props[name] == DerivedProp(name, attrs[name], send, pastAttrs, pastProps, stamp)
    requires forall name | name in props && name !in attrs :: props[name] == BaseProps(key)[name]
    ensures props == DerivedProps(attrs, send, key, pastAttrs, pastProps, stamp)
  {
  }

  /** getDerivedProps: fills `props` in a loop over the new attribute names. */
  method GetDerivedProps(attrs: map<Name, Attribute>, send: Send, key: Option<Key>,
                         pastAttrs: map<Name, Attribute>, pastProps: map<Name, Prop>, stamp: nat)
    returns (props: map<Name, Prop>)
    ensures props == DerivedProps(attrs, send, key, pastAttrs, pastProps, stamp)
  {
    props := BaseProps(key);
    var todo := attrs.Keys;
    while todo != {}
      invariant todo <= attrs.Keys
      invariant props.Keys == KeyNames(key) + (attrs.Keys - todo)
      invariant forall name | name in attrs.Keys - todo ::
        props[name] == DerivedProp(name, attrs[name], send, pastAttrs, pastProps, stamp)
      invariant forall name | name in props && name !in attrs.Keys - todo :: props[name] == BaseProps(key)[name]
      decreases todo
    {
      var name :| name in todo;
      var attr := attrs[name];
      var value;
      if name in pastAttrs && attr.hash == pastAttrs[name].hash {
        value := Lookup(pastProps, name);
      } else if attr.handler {
        value := Bound(GetEventHandler(attr.event, send, false, false, stamp, name));
      } else {
        value := Literal(attr.event);
      }
      props := props[name := value];
      todo := todo - {name};
    }
    DerivedPropsByName(props, attrs, send, key, pastAttrs, pastProps, stamp);
  }

  /** The props initializeProps returns. */
  function InitialProps(attrs: map<Name, Attribute>, send: Send, key: Option<Key>, stamp: nat): (props: map<Name, Prop>)
    ensures props.Keys == attrs.Keys + KeyNames(key)
    ensures key.Some? && KeyName !in attrs ==> props[KeyName] == KeyProp(key.value)
    ensures forall name | name in attrs && attrs[name].handler ::
      props[name] == Bound(Handler(stamp, name, attrs[name].event, send, false, false))
    ensures forall name | name in attrs && !attrs[name].handler :: props[name] == Literal(attrs[name].event)
  {
    BaseProps(key) + map name | name in attrs ::
      if attrs[name].handler then Bound(UnflaggedHandler(name, attrs[name], send, stamp)) else Literal(attrs[name].event)
  }

  /** initializeProps: fills `props` in a loop over the attribute names. */
  method InitializeProps(attrs: map<Name, Attribute>, send: Send, key: Option<Key>, stamp: nat)
    returns (props: map<Name, Prop>)
    ensures props == InitialProps(attrs, send, key, stamp)
  {
    props := BaseProps(key);
    var todo := attrs.Keys;
    while todo != {}
      invariant todo <= attrs.Keys
      invariant props.Keys == KeyNames(key) + (attrs.Keys - todo)
      invariant forall name | name in attrs.Keys - todo :: props[name] == InitialProps(attrs, send, key, stamp)[name]
      invariant forall name | name in props && name !in attrs.Keys - todo :: props[name] == BaseProps(key)[name]
      decreases todo
    {
      var name :| name in todo;
      var attr := attrs[name];
      if attr.handler {
        props := props[name := Bound(GetEventHandler(attr.event, send, false, false, stamp, name))];
      } else {
        props := props[name := Literal(attr.event)];
      }
      todo := todo - {name};
    }
    assert props == InitialProps(attrs, send, key, stamp);
  }

  /** Initializing is deriving against no past attributes: nothing is reused. */
  lemma InitialIsDerivedFromNothing(attrs: map<Name, Attribute>, send: Send, key: Option<Key>,
                                    pastProps: map<Name, Prop>, stamp: nat)
    ensures InitialProps(attrs, send, key, stamp) == DerivedProps(attrs, send, key, map[], pastProps, stamp)
  {
    var a, b := InitialProps(attrs, send, key, stamp), DerivedProps(attrs, send, key, map[], pastProps, stamp);
    assert forall name | name in a.Keys :: a[name] == b[name];
  }

  /**
   * Every handler a derivation creates only forwards: called with any host
   * event it makes one call of `send` and neither prevents the default nor
   * stops propagation, whatever flags the attribute carries.
   */
  lemma CreatedHandlersOnlyForward(attrs: map<Name, Attribute>, send: Send, key: Option<Key>,
                                   pastAttrs: map<Name, Attribute>, pastProps: map<Name, Prop>, stamp: nat,
                                   name: Name, value: DomEvent)
    requires name in attrs && attrs[name].handler && !Unchanged(name, attrs[name], pastAttrs)
    ensures var props := DerivedProps(attrs, send, key, pastAttrs, pastProps, stamp);
      props[name].Bound? && Invoke(props[name].handler, value) == [Sent(send, Event(attrs[name].event, value))]
  {
    var h := DerivedProps(attrs, send, key, pastAttrs, pastProps, stamp)[name].handler;
    var effects := Invoke(h, value);
    assert |effects| == 1;
  }

  /** Deriving again against the props just derived, from the same attributes, gives back exactly those props. */
  lemma RederiveIsIdentity(attrs: map<Name, Attribute>, send: Send, key: Option<Key>,
                           pastAttrs: map<Name, Attribute>, pastProps: map<Name, Prop>, stamp: nat, stamp': nat)
    ensures var props := DerivedProps(attrs, send, key, pastAttrs, pastProps, stamp);
      DerivedProps(attrs, send, key, attrs, props, stamp') == props
  {
    var props := DerivedProps(attrs, send, key, pastAttrs, pastProps, stamp);
    var again := DerivedProps(attrs, send, key, attrs, props, stamp');
    assert forall name | name in again.Keys :: again[name] == props[name];
  }
}

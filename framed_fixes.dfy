/**
 * A defect of the attribute differ and of the attribute initializer of
 * react.ts, shown on concrete inputs against the code as written, and the
 * corrected definitions with the intended property proved.
 */
module FramedFixes {
  import opened Wrappers
  import opened FramedTree
  import opened FramedProps

  /**
   * As written: a handler attribute that asks for `preventDefault` gets a
   * handler that, called with host event 7, only sends; the default action
   * of the event is not prevented.
   */
  lemma PreventDefaultDroppedAsWritten()
    ensures var attr := Attribute(1, true, true, false, "submit");
      var props := DerivedProps(map["onSubmit" := attr], 0, None, map[], map[], 0);
      && props["onSubmit"].Bound?
      && Invoke(props["onSubmit"].handler, 7) == [Sent(0, Event("submit", 7))]
      && PreventDefault(7) !in Invoke(props["onSubmit"].handler, 7)
  {
    var attr := Attribute(1, true, true, false, "submit");
    var props := DerivedProps(map["onSubmit" := attr], 0, None, map[], map[], 0);
    assert !Unchanged("onSubmit", attr, map[]);
    CreatedHandlersOnlyForward(map["onSubmit" := attr], 0, None, map[], map[], 0, "onSubmit", 7);
  }

  /** The corrected value for `name`: the handler is created with the attribute's flags. */
  function FlaggedProp(name: Name, attr: Attribute, send: Send, pastAttrs: map<Name, Attribute>,
                       pastProps: map<Name, Prop>, stamp: nat): Prop
  {
    if Unchanged(name, attr, pastAttrs) then Lookup(pastProps, name)
    else if attr.handler then Bound(GetEventHandler(attr.event, send, attr.preventDefault, attr.stopPropagation, stamp, name))
    else Literal(attr.event)
  }

  /** getDerivedProps with `getEventHandler(attr.event, send, attr.preventDefault, attr.stopPropagation)`. */
  function DerivedPropsWithFlags(attrs: map<Name, Attribute>, send: Send, key: Option<Key>,
                                 pastAttrs: map<Name, Attribute>, pastProps: map<Name, Prop>, stamp: nat): map<Name, Prop>
  {
    BaseProps(key) + map name | name in attrs :: FlaggedProp(name, attrs[name], send, pastAttrs, pastProps, stamp)
  }

  /**
   * Corrected: the handler created for a changed handler attribute, called
   * with any host event, prevents its default exactly when the attribute
   * asks for it, stops its propagation exactly when the attribute asks for
   * it, and then sends the attribute's payload with the event once.
   */
  lemma FlagsHonoured(attrs: map<Name, Attribute>, send: Send, key: Option<Key>,
                      pastAttrs: map<Name, Attribute>, pastProps: map<Name, Prop>, stamp: nat,
                      name: Name, value: DomEvent)
    requires name in attrs && attrs[name].handler && !Unchanged(name, attrs[name], pastAttrs)
    ensures var props := DerivedPropsWithFlags(attrs, send, key, pastAttrs, pastProps, stamp);
      && props[name].Bound?
      && var effects := Invoke(props[name].handler, value);
      && (PreventDefault(value) in effects <==> attrs[name].preventDefault)
      && (StopPropagation(value) in effects <==> attrs[name].stopPropagation)
      && effects[|effects| - 1] == Sent(send, Event(attrs[name].event, value))
  {
    var props := DerivedPropsWithFlags(attrs, send, key, pastAttrs, pastProps, stamp);
    assert props[name] == FlaggedProp(name, attrs[name], send, pastAttrs, pastProps, stamp);
  }

  /** The correction changes handlers only: with no flag set anywhere it derives exactly what the source derives. */
  lemma WithFlagsAgreesWithoutFlags(attrs: map<Name, Attribute>, send: Send, key: Option<Key>,
                                    pastAttrs: map<Name, Attribute>, pastProps: map<Name, Prop>, stamp: nat)
    requires forall name | name in attrs :: !attrs[name].preventDefault && !attrs[name].stopPropagation
    ensures DerivedPropsWithFlags(attrs, send, key, pastAttrs, pastProps, stamp)
         == DerivedProps(attrs, send, key, pastAttrs, pastProps, stamp)
  {
    var a := DerivedPropsWithFlags(attrs, send, key, pastAttrs, pastProps, stamp);
    var b := DerivedProps(attrs, send, key, pastAttrs, pastProps, stamp);
    assert forall name | name in attrs :: a[name] == b[name];
  }

  /**
   * As written, on a first render: a handler attribute that asks for
   * `preventDefault` gets a handler that, called with host event 7, only sends.
   */
  lemma PreventDefaultDroppedOnFirstRenderAsWritten()
    ensures var attr := Attribute(1, true, true, false, "submit");
      var props := InitialProps(map["onSubmit" := attr], 0, None, 0);
      && props["onSubmit"].Bound?
      && Invoke(props["onSubmit"].handler, 7) == [Sent(0, Event("submit", 7))]
      && PreventDefault(7) !in Invoke(props["onSubmit"].handler, 7)
  {
    var attrs := map["onSubmit" := Attribute(1, true, true, false, "submit")];
    InitialIsDerivedFromNothing(attrs, 0, None, map[], 0);
    CreatedHandlersOnlyForward(attrs, 0, None, map[], map[], 0, "onSubmit", 7);
  }

  /** initializeProps with `getEventHandler(attr.event, send, attr.preventDefault, attr.stopPropagation)`. */
  function InitialPropsWithFlags(attrs: map<Name, Attribute>, send: Send, key: Option<Key>, stamp: nat): map<Name, Prop>
  {
    BaseProps(key) + map name | name in attrs ::
      if attrs[name].handler
      then Bound(GetEventHandler(attrs[name].event, send, attrs[name].preventDefault, attrs[name].stopPropagation, stamp, name))
      else Literal(attrs[name].event)
  }

  /** The corrected initializer is the corrected differ run against no past attributes. */
  lemma InitialWithFlagsIsDerivedFromNothing(attrs: map<Name, Attribute>, send: Send, key: Option<Key>,
                                             pastProps: map<Name, Prop>, stamp: nat)
    ensures InitialPropsWithFlags(attrs, send, key, stamp) == DerivedPropsWithFlags(attrs, send, key, map[], pastProps, stamp)
  {
    var a, b := InitialPropsWithFlags(attrs, send, key, stamp), DerivedPropsWithFlags(attrs, send, key, map[], pastProps, stamp);
    assert forall name | name in a.Keys :: a[name] == b[name];
  }

  /**
   * Corrected, on a first render: every handler attribute gets a handler
   * that prevents the default exactly when the attribute asks for it, stops
   * propagation exactly when it asks for it, and then sends once.
   */
  lemma InitialFlagsHonoured(attrs: map<Name, Attribute>, send: Send, key: Option<Key>, stamp: nat,
                             name: Name, value: DomEvent)
    requires name in attrs && attrs[name].handler
    ensures var props := InitialPropsWithFlags(attrs, send, key, stamp);
      && props[name].Bound?
      && var effects := Invoke(props[name].handler, value);
      && (PreventDefault(value) in effects <==> attrs[name].preventDefault)
      && (StopPropagation(value) in effects <==> attrs[name].stopPropagation)
      && effects[|effects| - 1] == Sent(send, Event(attrs[name].event, value))
  {
    InitialWithFlagsIsDerivedFromNothing(attrs, send, key, map[], stamp);
    FlagsHonoured(attrs, send, key, map[], map[], stamp, name, value);
  }
}

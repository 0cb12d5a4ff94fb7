/** The directive hook and its helpers as they run against an element: each
    method updates the element's class list in place and is proved to have
    exactly the effect that module Effects describes. */
module Directive {
  import opened Options
  import opened JsValues
  import opened Casing
  import opened ClassList
  import opened Naming
  import opened Validation
  import opened VNodes
  import opened Effects

  /** setElemClass: resolve the mode, build the class name (returning early
      when BEM finds no base), then add or remove it. `thrown` is the
      exception of the class list, if any. */
  method SetElemClass(className: string, add: Json, el: Element, b: Binding, vnode: VNode) returns (thrown: Option<DomError>)
    requires el.Valid()
    modifies el
    ensures el.Valid()
    ensures Applied(el.classes, thrown) == ElemClassEffect(old(el.classes), className, add, b, vnode)
  {
    var cls := className;
    var mode := Default;
    if "is" in b.modifiers {
      mode := ForceIsPrefix;
    }
    if "bem" in b.modifiers {
      mode := Bem;
    }
    if b.name == "is" {
      mode := ForceIsPrefix;
    }
    if b.name == "bem" {
      mode := Bem;
    }
    assert mode == ResolveMode(b.name, b.modifiers);

    match mode {
      case ForceIsPrefix =>
        cls := WithIsPrefix(cls);
      case Bem =>
        var baseClass: string;
        if b.arg.Some? {
          baseClass := b.arg.value;
          if !PresentNonEmpty(vnode.prevClass) || baseClass !in SplitOnSpace(vnode.prevClass.value) {
            return None;
          }
        } else {
          var classes := if PresentNonEmpty(vnode.prevClass) then BaseCandidates(SplitOnSpace(vnode.prevClass.value)) else [];
          if |classes| == 0 {
            return None;
          }
          baseClass := classes[0];
        }
        assert BemBase(b.arg, vnode.prevClass) == Some(baseClass);
        cls := baseClass + "--" + WithoutIsPrefix(cls);
      case Default =>
    }
    assert TargetClass(className, b, vnode) == Some(cls);

    if Truthy(add) {
      thrown := el.Add(cls);
    } else {
      thrown := el.Remove(cls);
    }
  }

  /** setClassByName: look up the camel-case state property of the name;
      -1 when it is undefined or null, otherwise set the class from it. */
  method SetClassByName(className: string, el: Element, b: Binding, vnode: VNode) returns (outcome: Outcome)
    requires el.Valid()
    modifies el
    ensures el.Valid()
    ensures Effect(el.classes, outcome) == ClassByNameEffect(old(el.classes), className, b, vnode)
  {
    var prop := Kebab2Camel(className);
    var value := StateLookup(vnode.state, prop);
    if value == Undefined || value == Null {
      return Returned(-1);
    }
    var thrown := SetElemClass(className, value, el, b, vnode);
    if thrown.Some? {
      return Threw(thrown.value);
    }
    return Returned(0);
  }

  /** The array loop of the hook: every name in order through
      setClassByName, returning -1 at the first missing state property. */
  method ApplyNames(items: seq<Json>, el: Element, b: Binding, vnode: VNode) returns (outcome: Outcome)
    requires el.Valid()
    requires AllStrings(items)
    modifies el
    ensures el.Valid()
    ensures Effect(el.classes, outcome) == ArrayEffect(old(el.classes), Names(items), b, vnode)
  {
    ghost var start := el.classes;
    ghost var names := Names(items);
    for i := 0 to |items|
      invariant el.Valid()
      invariant ArrayEffect(start, names[..i], b, vnode) == Effect(el.classes, Returned(0))
    {
      ArrayEffectStep(start, names, i, b, vnode);
      var r := SetClassByName(items[i].s, el, b, vnode);
      if r != Returned(0) {
        // -1 is returned; an exception escapes the loop
        return r;
      }
    }
    assert names[..|names|] == names;
    return Returned(0);
  }

  /** The object loop of the hook: every key in order, skipping the
      unchanged ones and setting `camel2Kebab(key)` from the others. */
  method ApplyKeys(el: Element, b: Binding, vnode: VNode, isBem: bool, sameClasses: bool) returns (outcome: Outcome)
    requires el.Valid()
    requires b.value.Obj?
    modifies el
    ensures el.Valid()
    ensures Effect(el.classes, outcome) == ObjectEffect(old(el.classes), Keys(b.value.entries), b, vnode, isBem, sameClasses)
  {
    var value := b.value;
    ghost var start := el.classes;
    var keys := Keys(value.entries);
    for i := 0 to |keys|
      invariant el.Valid()
      invariant ObjectEffect(start, keys[..i], b, vnode, isBem, sameClasses) == Effect(el.classes, Returned(0))
    {
      var key := keys[i];
      ObjectEffectStep(start, keys, i, b, vnode, isBem, sameClasses);
      KeyEffectSkipsExactlyUnchanged(el.classes, key, b, vnode, isBem, sameClasses);
      if Truthy(b.oldValue) && StrictEquals(Get(value, key), Get(b.oldValue, key)) && (!isBem || sameClasses) {
        continue;
      }
      var thrown := SetElemClass(Camel2Kebab(key), Get(value, key), el, b, vnode);
      if thrown.Some? {
        return Threw(thrown.value);
      }
    }
    assert keys[..|keys|] == keys;
    return Returned(0);
  }

  /** The hook once the value passed its checks: a string, an array, or an
      object with the `isBem` flag and checkIfSameClasses computed once. */
  method Dispatch(el: Element, b: Binding, vnode: VNode, oldVnode: Option<VNode>) returns (outcome: Outcome)
    requires el.Valid()
    requires Dispatchable(b.value)
    modifies el
    ensures el.Valid()
    ensures Effect(el.classes, outcome) == DispatchEffect(old(el.classes), b, vnode, oldVnode)
  {
    var value := b.value;
    if value.Str? {
      outcome := SetClassByName(value.s, el, b, vnode);
      return;
    }
    if value.Arr? {
      outcome := ApplyNames(value.items, el, b, vnode);
      return;
    }
    var isBem := "bem" in b.modifiers || b.name == "bem";
    var sameClasses := SameClasses(vnode, oldVnode);
    outcome := ApplyKeys(el, b, vnode, isBem, sameClasses);
  }

  /** The hook of src/index.js: the hand-written checks, each returning -1,
      then the value is applied. */
  method Hook(el: Element, b: Binding, vnode: VNode, oldVnode: Option<VNode>) returns (outcome: Outcome)
    requires el.Valid()
    modifies el
    ensures el.Valid()
    ensures Effect(el.classes, outcome) == HookEffect(old(el.classes), b, vnode, oldVnode)
  {
    var value := b.value;
    if value == Undefined || value == Null {
      return Returned(-1);
    }
    if TypeOf(value) != TypeString && TypeOf(value) != TypeObject {
      return Returned(-1);
    }
    if value.Arr? && !AllStrings(value.items) {
      return Returned(-1);
    }
    if value.Obj? && !AllBooleans(value.entries) {
      return Returned(-1);
    }
    outcome := Dispatch(el, b, vnode, oldVnode);
  }

  /** The hook of index.js: the same, with the schema as the check. */
  method SchemaHook(el: Element, b: Binding, vnode: VNode, oldVnode: Option<VNode>) returns (outcome: Outcome)
    requires el.Valid()
    modifies el
    ensures el.Valid()
    ensures Effect(el.classes, outcome) == SchemaHookEffect(old(el.classes), b, vnode, oldVnode)
  {
    var value := b.value;
    if value == Undefined || value == Null {
      return Returned(-1);
    }
    if !SchemaAccepts(value) {
      return Returned(-1);
    }
    outcome := Dispatch(el, b, vnode, oldVnode);
  }
}

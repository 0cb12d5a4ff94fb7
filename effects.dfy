/** What one call of the hook does, as functions of the class list before the
    call: the class list after it and how the call ends. The methods of module
    Directive are proved to have exactly these effects. */
module Effects {
  import opened Options
  import opened JsValues
  import opened Casing
  import opened ClassList
  import opened Naming
  import opened Validation
  import opened VNodes

  /** The directive binding: the registered name (without `v-`), the
      modifiers, the argument if one was written, and the current and
      previous values (`Undefined` on the first call). */
  datatype Binding = Binding(name: string, modifiers: set<string>, arg: Option<string>, value: Json, oldValue: Json)

  /** How a call ends: it returns a status (0 or -1), or an exception thrown
      by the class list escapes it. */
  datatype Outcome = Returned(code: int) | Threw(error: DomError)

  datatype Effect = Effect(classes: seq<string>, outcome: Outcome)

  /** The class list after setElemClass, and the exception it threw, if any. */
  datatype Applied = Applied(classes: seq<string>, error: Option<DomError>)

  /** `vnode.context._data[prop]` */
  function StateLookup(state: map<string, Json>, prop: string): Json {
    if prop in state then state[prop] else Undefined
  }

  /** The state property behind a class name is undefined or null. */
  predicate Missing(vnode: VNode, name: string) {
    IsNullish(StateLookup(vnode.state, Kebab2Camel(name)))
  }

  /** The class setElemClass touches for `name`, or None when BEM gating skips it. */
  function TargetClass(name: string, b: Binding, vnode: VNode): Option<string> {
    ModifierClass(ResolveMode(b.name, b.modifiers), name, b.arg, vnode.prevClass)
  }

  /** setElemClass: one class is added (when `add` is truthy) or removed, and
      no other class changes; nothing happens when BEM gating skips the name;
      a malformed class name makes the class list throw. */
  function ElemClassEffect(classes: seq<string>, name: string, add: Json, b: Binding, vnode: VNode): (a: Applied)
    ensures TargetClass(name, b, vnode).None? ==> a == Applied(classes, None)
    ensures TargetClass(name, b, vnode).Some? ==> a.error == TokenError(TargetClass(name, b, vnode).value)
    ensures a.error.Some? ==> a.classes == classes
    ensures TargetClass(name, b, vnode).Some? && a.error.None? ==>
            var t := TargetClass(name, b, vnode).value;
            (t in a.classes <==> Truthy(add)) && forall u :: u != t ==> (u in a.classes <==> u in classes)
  {
    match TargetClass(name, b, vnode)
    case None => Applied(classes, None)
    case Some(t) =>
      match TokenError(t)
      case Some(e) => Applied(classes, Some(e))
      case None => Applied(ApplyToken(classes, t, Truthy(add)), None)
  }

  /** setClassByName: -1 and no change when the state property behind the
      name is undefined or null; otherwise setElemClass with that property's
      value, and 0 unless the class list threw. */
  function ClassByNameEffect(classes: seq<string>, name: string, b: Binding, vnode: VNode): (e: Effect)
    ensures e.outcome == Returned(-1) <==> Missing(vnode, name)
    ensures e.outcome == Returned(-1) ==> e.classes == classes
    ensures e.outcome.Returned? ==> e.outcome.code == 0 || e.outcome.code == -1
    ensures !Missing(vnode, name) ==>
            ElemClassEffect(classes, name, StateLookup(vnode.state, Kebab2Camel(name)), b, vnode).classes == e.classes
  {
    var value := StateLookup(vnode.state, Kebab2Camel(name));
    if IsNullish(value) then Effect(classes, Returned(-1))
    else
      var a := ElemClassEffect(classes, name, value, b, vnode);
      Effect(a.classes, if a.error.Some? then Threw(a.error.value) else Returned(0))
  }

  /** With its state property present, setClassByName throws exactly what
      setElemClass throws, and otherwise returns 0. */
  lemma ClassByNameOutcome(classes: seq<string>, name: string, b: Binding, vnode: VNode)
    requires !Missing(vnode, name)
    ensures var a := ElemClassEffect(classes, name, StateLookup(vnode.state, Kebab2Camel(name)), b, vnode);
            ClassByNameEffect(classes, name, b, vnode).outcome == if a.error.Some? then Threw(a.error.value) else Returned(0)
  {
  }

  /** An array value: the names in order, stopping at the first one that does
      not return 0. */
  function ArrayEffect(classes: seq<string>, names: seq<string>, b: Binding, vnode: VNode): (e: Effect)
    ensures e.outcome.Returned? ==> e.outcome.code == 0 || e.outcome.code == -1
    decreases |names|
  {
    if names == [] then Effect(classes, Returned(0))
    else
      var first := ClassByNameEffect(classes, names[0], b, vnode);
      if first.outcome != Returned(0) then first
      else ArrayEffect(first.classes, names[1..], b, vnode)
  }

  /** Processing `xs + ys` is processing `xs` and then, if that returned 0,
      processing `ys` from where it left the class list. */
  lemma {:induction false} ArrayEffectAppend(classes: seq<string>, xs: seq<string>, ys: seq<string>, b: Binding, vnode: VNode)
    ensures ArrayEffect(classes, xs + ys, b, vnode) ==
            var e := ArrayEffect(classes, xs, b, vnode);
            if e.outcome != Returned(0) then e else ArrayEffect(e.classes, ys, b, vnode)
    decreases |xs|
  {
    if xs == [] {
      assert xs + ys == ys;
    } else {
      var first := ClassByNameEffect(classes, xs[0], b, vnode);
      assert (xs + ys)[0] == xs[0] && (xs + ys)[1..] == xs[1..] + ys;
      if first.outcome == Returned(0) {
        ArrayEffectAppend(first.classes, xs[1..], ys, b, vnode);
      }
    }
  }

  /** Processing one more name. */
  lemma ArrayEffectSnoc(classes: seq<string>, names: seq<string>, name: string, b: Binding, vnode: VNode)
    ensures ArrayEffect(classes, names + [name], b, vnode) ==
            var e := ArrayEffect(classes, names, b, vnode);
            if e.outcome != Returned(0) then e else ClassByNameEffect(e.classes, name, b, vnode)
  {
    ArrayEffectAppend(classes, names, [name], b, vnode);
    var e := ArrayEffect(classes, names, b, vnode);
    if e.outcome == Returned(0) {
      assert [name][1..] == [];
    }
  }

  /** One iteration of the array loop: the prefix grows by one name, and once
      it stops short of 0 the whole array ends the same way. */
  lemma ArrayEffectStep(classes: seq<string>, names: seq<string>, i: nat, b: Binding, vnode: VNode)
    requires i < |names|
    requires ArrayEffect(classes, names[..i], b, vnode).outcome == Returned(0)
    ensures ArrayEffect(classes, names[..i + 1], b, vnode) ==
            ClassByNameEffect(ArrayEffect(classes, names[..i], b, vnode).classes, names[i], b, vnode)
    ensures ArrayEffect(classes, names[..i + 1], b, vnode).outcome != Returned(0) ==>
            ArrayEffect(classes, names, b, vnode) == ArrayEffect(classes, names[..i + 1], b, vnode)
  {
    assert names[..i + 1] == names[..i] + [names[i]];
    ArrayEffectSnoc(classes, names[..i], names[i], b, vnode);
    ArrayEffectAppend(classes, names[..i + 1], names[i + 1..], b, vnode);
    assert names[..i + 1] + names[i + 1..] == names;
  }

  /** The first name whose state property is missing makes the array return
      -1 with the names before it applied and the names after it untouched. */
  lemma {:induction false} ArrayEffectStopsAtMissing(classes: seq<string>, names: seq<string>, k: nat, b: Binding, vnode: VNode)
    requires k < |names|
    requires ArrayEffect(classes, names[..k], b, vnode).outcome == Returned(0)
    requires Missing(vnode, names[k])
    ensures ArrayEffect(classes, names, b, vnode) == Effect(ArrayEffect(classes, names[..k], b, vnode).classes, Returned(-1))
  {
    var e := ArrayEffect(classes, names[..k], b, vnode);
    ArrayEffectAppend(classes, names[..k], names[k..], b, vnode);
    assert names[..k] + names[k..] == names;
    assert names[k..][0] == names[k];
  }

  /** An array returns -1 only at a name whose state property is missing,
      after all the names before it returned 0. */
  lemma {:induction false} ArrayEffectFailure(classes: seq<string>, names: seq<string>, b: Binding, vnode: VNode)
    requires ArrayEffect(classes, names, b, vnode).outcome == Returned(-1)
    ensures exists k :: 0 <= k < |names| && Missing(vnode, names[k])
                        && ArrayEffect(classes, names[..k], b, vnode) == Effect(ArrayEffect(classes, names, b, vnode).classes, Returned(0))
    decreases |names|
  {
    var first := ClassByNameEffect(classes, names[0], b, vnode);
    assert names[..0] == [];
    if first.outcome == Returned(-1) {
      assert Missing(vnode, names[0]);
    } else {
      ArrayEffectFailure(first.classes, names[1..], b, vnode);
      var k :| 0 <= k < |names[1..]| && Missing(vnode, names[1..][k])
               && ArrayEffect(first.classes, names[1..][..k], b, vnode) == Effect(ArrayEffect(classes, names, b, vnode).classes, Returned(0));
      ArrayEffectAppend(classes, [names[0]], names[1..][..k], b, vnode);
      assert [names[0]] + names[1..][..k] == names[..k + 1];
      assert names[1..][k] == names[k + 1];
    }
  }

  /** When every name has its state property, the array never returns -1: it
      returns 0 unless the class list throws. */
  lemma {:induction false} ArrayEffectNoMissing(classes: seq<string>, names: seq<string>, b: Binding, vnode: VNode)
    requires forall i :: 0 <= i < |names| ==> !Missing(vnode, names[i])
    ensures ArrayEffect(classes, names, b, vnode).outcome == Returned(0) || ArrayEffect(classes, names, b, vnode).outcome.Threw?
    decreases |names|
  {
    if names != [] {
      assert !Missing(vnode, names[0]);
      var first := ClassByNameEffect(classes, names[0], b, vnode);
      if first.outcome == Returned(0) {
        ArrayEffectNoMissing(first.classes, names[1..], b, vnode);
      }
    }
  }

  /** A key of an object value is left alone: there was a previous value, the
      key's value is identical to the previous one, and either the directive
      is not BEM or the class declarations did not change. */
  predicate KeyUnchanged(b: Binding, key: string, isBem: bool, sameClasses: bool)
    requires !IsNullish(b.value)
    // only a primitive value equal to the previous one is left alone
    ensures KeyUnchanged(b, key, isBem, sameClasses) ==>
            !IsNullish(b.oldValue) && IsPrimitive(Get(b.value, key)) && Get(b.oldValue, key) == Get(b.value, key)
    ensures isBem && !sameClasses ==> !KeyUnchanged(b, key, isBem, sameClasses)
  {
    Truthy(b.oldValue) && StrictEquals(Get(b.value, key), Get(b.oldValue, key)) && (!isBem || sameClasses)
  }

  /** An object value: every key in order, skipped when unchanged, otherwise
      applied as `camel2Kebab(key)` with the key's value; it never returns -1. */
  function ObjectEffect(classes: seq<string>, keys: seq<string>, b: Binding, vnode: VNode, isBem: bool, sameClasses: bool): (e: Effect)
    requires !IsNullish(b.value)
    ensures e.outcome == Returned(0) || e.outcome.Threw?
    decreases |keys|
  {
    if keys == [] then Effect(classes, Returned(0))
    else if KeyUnchanged(b, keys[0], isBem, sameClasses) then
      ObjectEffect(classes, keys[1..], b, vnode, isBem, sameClasses)
    else
      var a := ElemClassEffect(classes, Camel2Kebab(keys[0]), Get(b.value, keys[0]), b, vnode);
      if a.error.Some? then Effect(a.classes, Threw(a.error.value))
      else ObjectEffect(a.classes, keys[1..], b, vnode, isBem, sameClasses)
  }

  /** One key of an object value. */
  function KeyEffect(classes: seq<string>, key: string, b: Binding, vnode: VNode, isBem: bool, sameClasses: bool): Effect
    requires !IsNullish(b.value)
  {
    ObjectEffect(classes, [key], b, vnode, isBem, sameClasses)
  }

  /** Processing `xs + ys` is processing `xs` and then, unless it threw,
      processing `ys` from where it left the class list. */
  lemma {:induction false} ObjectEffectAppend(classes: seq<string>, xs: seq<string>, ys: seq<string>, b: Binding, vnode: VNode, isBem: bool, sameClasses: bool)
    requires !IsNullish(b.value)
    ensures ObjectEffect(classes, xs + ys, b, vnode, isBem, sameClasses) ==
            var e := ObjectEffect(classes, xs, b, vnode, isBem, sameClasses);
            if e.outcome != Returned(0) then e else ObjectEffect(e.classes, ys, b, vnode, isBem, sameClasses)
    decreases |xs|
  {
    if xs == [] {
      assert xs + ys == ys;
    } else {
      assert (xs + ys)[0] == xs[0] && (xs + ys)[1..] == xs[1..] + ys;
      if KeyUnchanged(b, xs[0], isBem, sameClasses) {
        ObjectEffectAppend(classes, xs[1..], ys, b, vnode, isBem, sameClasses);
      } else {
        var a := ElemClassEffect(classes, Camel2Kebab(xs[0]), Get(b.value, xs[0]), b, vnode);
        if a.error.None? {
          ObjectEffectAppend(a.classes, xs[1..], ys, b, vnode, isBem, sameClasses);
        }
      }
    }
  }

  /** Processing one more key. */
  lemma ObjectEffectSnoc(classes: seq<string>, keys: seq<string>, key: string, b: Binding, vnode: VNode, isBem: bool, sameClasses: bool)
    requires !IsNullish(b.value)
    ensures ObjectEffect(classes, keys + [key], b, vnode, isBem, sameClasses) ==
            var e := ObjectEffect(classes, keys, b, vnode, isBem, sameClasses);
            if e.outcome != Returned(0) then e else KeyEffect(e.classes, key, b, vnode, isBem, sameClasses)
  {
    ObjectEffectAppend(classes, keys, [key], b, vnode, isBem, sameClasses);
  }

  /** One iteration of the object loop: the prefix grows by one key, and once
      it throws the whole object ends the same way. */
  lemma ObjectEffectStep(classes: seq<string>, keys: seq<string>, i: nat, b: Binding, vnode: VNode, isBem: bool, sameClasses: bool)
    requires !IsNullish(b.value)
    requires i < |keys|
    requires ObjectEffect(classes, keys[..i], b, vnode, isBem, sameClasses).outcome == Returned(0)
    ensures ObjectEffect(classes, keys[..i + 1], b, vnode, isBem, sameClasses) ==
            KeyEffect(ObjectEffect(classes, keys[..i], b, vnode, isBem, sameClasses).classes, keys[i], b, vnode, isBem, sameClasses)
    ensures ObjectEffect(classes, keys[..i + 1], b, vnode, isBem, sameClasses).outcome != Returned(0) ==>
            ObjectEffect(classes, keys, b, vnode, isBem, sameClasses) == ObjectEffect(classes, keys[..i + 1], b, vnode, isBem, sameClasses)
  {
    assert keys[..i + 1] == keys[..i] + [keys[i]];
    ObjectEffectSnoc(classes, keys[..i], keys[i], b, vnode, isBem, sameClasses);
    ObjectEffectAppend(classes, keys[..i + 1], keys[i + 1..], b, vnode, isBem, sameClasses);
    assert keys[..i + 1] + keys[i + 1..] == keys;
  }

  /** A key is skipped exactly when it is unchanged; otherwise its class is
      set from its value. */
  lemma {:induction false} KeyEffectSkipsExactlyUnchanged(classes: seq<string>, key: string, b: Binding, vnode: VNode, isBem: bool, sameClasses: bool)
    requires !IsNullish(b.value)
    ensures KeyUnchanged(b, key, isBem, sameClasses) ==> KeyEffect(classes, key, b, vnode, isBem, sameClasses) == Effect(classes, Returned(0))
    ensures !KeyUnchanged(b, key, isBem, sameClasses) ==>
            var a := ElemClassEffect(classes, Camel2Kebab(key), Get(b.value, key), b, vnode);
            KeyEffect(classes, key, b, vnode, isBem, sameClasses) ==
            Effect(a.classes, if a.error.Some? then Threw(a.error.value) else Returned(0))
  {
    var ks := [key];
    assert ks[0] == key && ks[1..] == [];
    assert ObjectEffect(classes, [], b, vnode, isBem, sameClasses) == Effect(classes, Returned(0));
    if !KeyUnchanged(b, key, isBem, sameClasses) {
      var a := ElemClassEffect(classes, Camel2Kebab(key), Get(b.value, key), b, vnode);
      assert ObjectEffect(a.classes, [], b, vnode, isBem, sameClasses) == Effect(a.classes, Returned(0));
    }
  }

  /** When every key is unchanged, the class list is left exactly as it was. */
  lemma {:induction false} ObjectEffectAllUnchanged(classes: seq<string>, keys: seq<string>, b: Binding, vnode: VNode, isBem: bool, sameClasses: bool)
    requires !IsNullish(b.value)
    requires forall i :: 0 <= i < |keys| ==> KeyUnchanged(b, keys[i], isBem, sameClasses)
    ensures ObjectEffect(classes, keys, b, vnode, isBem, sameClasses) == Effect(classes, Returned(0))
    decreases |keys|
  {
    if keys != [] {
      assert KeyUnchanged(b, keys[0], isBem, sameClasses);
      ObjectEffectAllUnchanged(classes, keys[1..], b, vnode, isBem, sameClasses);
    }
  }

  /** Skip on unchanged: an object of booleans applied again with itself as
      the previous value changes no class, provided the directive is not BEM
      or the class declarations did not change. */
  lemma {:induction false} ObjectReappliedIsNoop(classes: seq<string>, b: Binding, vnode: VNode, isBem: bool, sameClasses: bool)
    requires b.value.Obj? && b.oldValue == b.value && AllBooleans(b.value.entries)
    requires !isBem || sameClasses
    ensures ObjectEffect(classes, Keys(b.value.entries), b, vnode, isBem, sameClasses) == Effect(classes, Returned(0))
  {
    var keys := Keys(b.value.entries);
    forall i | 0 <= i < |keys| ensures KeyUnchanged(b, keys[i], isBem, sameClasses) {
      assert keys[i] in keys;
      assert Get(b.value, keys[i]).Bool?;
    }
    ObjectEffectAllUnchanged(classes, keys, b, vnode, isBem, sameClasses);
  }

  /** The value shapes the hook goes on with once its checks pass. */
  predicate Dispatchable(v: Json) {
    v.Str? || (v.Arr? && AllStrings(v.items)) || v.Obj?
  }

  function Names(items: seq<Json>): (names: seq<string>)
    requires AllStrings(items)
    ensures |names| == |items|
    ensures forall i :: 0 <= i < |items| ==> names[i] == items[i].s
  {
    if items == [] then [] else [items[0].s] + Names(items[1..])
  }

  /** The hook once the value passed its checks: a string goes through
      setClassByName, an array name by name, an object key by key. */
  function DispatchEffect(classes: seq<string>, b: Binding, vnode: VNode, oldVnode: Option<VNode>): (e: Effect)
    requires Dispatchable(b.value)
    ensures e.outcome.Returned? ==> e.outcome.code == 0 || e.outcome.code == -1
    ensures b.value.Obj? ==> e.outcome != Returned(-1)
    // -1 comes only from a state property that is missing
    ensures e.outcome == Returned(-1) ==>
            (b.value.Str? && Missing(vnode, b.value.s))
            || (b.value.Arr? && exists i :: 0 <= i < |b.value.items| && Missing(vnode, b.value.items[i].s))
  {
    if b.value.Str? then ClassByNameEffect(classes, b.value.s, b, vnode)
    else if b.value.Arr? then
      var names := Names(b.value.items);
      var e := ArrayEffect(classes, names, b, vnode);
      if e.outcome == Returned(-1) then
        ArrayEffectFailure(classes, names, b, vnode);
        e
      else e
    else ObjectEffect(classes, Keys(b.value.entries), b, vnode, IsBemFlag(b.name, b.modifiers), SameClasses(vnode, oldVnode))
  }

  /** The hook of src/index.js. */
  function HookEffect(classes: seq<string>, b: Binding, vnode: VNode, oldVnode: Option<VNode>): (e: Effect)
    // a value the checks refuse changes nothing
    ensures CheckValue(b.value).Some? ==> e == Effect(classes, Returned(-1))
    ensures CheckValue(b.value).None? && e.outcome == Returned(-1) ==> !b.value.Obj?
  {
    if CheckValue(b.value).Some? then Effect(classes, Returned(-1))
    else DispatchEffect(classes, b, vnode, oldVnode)
  }

  /** The hook of index.js. */
  function SchemaHookEffect(classes: seq<string>, b: Binding, vnode: VNode, oldVnode: Option<VNode>): (e: Effect)
    // a value the schema refuses changes nothing
    ensures !SchemaAccepts(b.value) ==> e == Effect(classes, Returned(-1))
    ensures SchemaAccepts(b.value) && e.outcome == Returned(-1) ==> !b.value.Obj?
  {
    if IsNullish(b.value) || !SchemaAccepts(b.value) then Effect(classes, Returned(-1))
    else DispatchEffect(classes, b, vnode, oldVnode)
  }

  /** A string value that passed the checks is exactly setClassByName on it:
      -1 and no change when its state property is missing, otherwise the
      class is set from that property and the status is 0. */
  lemma {:induction false} StringValueIsClassByName(classes: seq<string>, b: Binding, vnode: VNode, oldVnode: Option<VNode>)
    requires b.value.Str?
    ensures HookEffect(classes, b, vnode, oldVnode) == ClassByNameEffect(classes, b.value.s, b, vnode)
    ensures SchemaHookEffect(classes, b, vnode, oldVnode) == ClassByNameEffect(classes, b.value.s, b, vnode)
    ensures HookEffect(classes, b, vnode, oldVnode).outcome == Returned(-1) <==> Missing(vnode, b.value.s)
  {
  }

  /** Both hooks reject a bad value with -1 and no change, and otherwise end
      with 0, -1 or an exception of the class list. */
  lemma {:induction false} HookOutcomes(classes: seq<string>, b: Binding, vnode: VNode, oldVnode: Option<VNode>)
    ensures CheckValue(b.value).Some? ==> HookEffect(classes, b, vnode, oldVnode) == Effect(classes, Returned(-1))
    ensures IsNullish(b.value) || !SchemaAccepts(b.value) ==> SchemaHookEffect(classes, b, vnode, oldVnode) == Effect(classes, Returned(-1))
    ensures HookEffect(classes, b, vnode, oldVnode).outcome.Returned? ==> HookEffect(classes, b, vnode, oldVnode).outcome.code in {0, -1}
    ensures SchemaHookEffect(classes, b, vnode, oldVnode).outcome.Returned? ==> SchemaHookEffect(classes, b, vnode, oldVnode).outcome.code in {0, -1}
  {
  }

  /** An object value never returns -1 once it passed the checks, even when
      BEM gating skips some of its keys. */
  lemma {:induction false} ObjectValueNeverFails(classes: seq<string>, b: Binding, vnode: VNode, oldVnode: Option<VNode>)
    requires b.value.Obj? && SchemaAccepts(b.value)
    ensures SchemaHookEffect(classes, b, vnode, oldVnode).outcome == Returned(0)
            || SchemaHookEffect(classes, b, vnode, oldVnode).outcome.Threw?
    ensures CheckValue(b.value).None? ==>
            HookEffect(classes, b, vnode, oldVnode).outcome == Returned(0) || HookEffect(classes, b, vnode, oldVnode).outcome.Threw?
  {
  }

  /** The two hooks behave alike on every value except an object whose keys
      missed by the pattern `.` hold a non-boolean. */
  lemma {:induction false} HooksAgree(classes: seq<string>, b: Binding, vnode: VNode, oldVnode: Option<VNode>)
    requires b.value.Obj? ==> forall k :: k in Keys(b.value.entries) && !MatchesAnyChar(k) ==> Lookup(b.value.entries, k).Bool?
    ensures HookEffect(classes, b, vnode, oldVnode) == SchemaHookEffect(classes, b, vnode, oldVnode)
  {
    CheckValueVersusSchema(b.value);
  }

  /** The other half: an object the schema accepts that holds a non-boolean
      under a key missed by `.` is refused by the hand-written checks with -1,
      while the schema hook goes on and never returns -1 for it. */
  lemma {:induction false} HooksDisagree(classes: seq<string>, b: Binding, vnode: VNode, oldVnode: Option<VNode>, k: string)
    requires b.value.Obj? && SchemaAccepts(b.value)
    requires k in Keys(b.value.entries) && !MatchesAnyChar(k) && !Lookup(b.value.entries, k).Bool?
    ensures HookEffect(classes, b, vnode, oldVnode) == Effect(classes, Returned(-1))
    ensures SchemaHookEffect(classes, b, vnode, oldVnode).outcome != Returned(-1)
  {
    assert !AllBooleans(b.value.entries);
  }
}

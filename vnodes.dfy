/** What the hook reads of the virtual nodes, and the comparison of the class
    declarations of the new and the old node (checkIfSameClasses). */
module VNodes {
  import opened Options
  import opened JsValues

  /** A virtual node as the hook sees it: `data.class` (Undefined when
      absent), `elm._prevClass` (the class string of the previous render) and
      `context._data` (the component's state; a missing key is undefined). */
  datatype VNode = VNode(classDecl: Json, prevClass: Option<string>, state: map<string, Json>)

  /** `items.includes(x)` */
  predicate Includes(items: seq<Json>, x: Json) {
    exists j :: 0 <= j < |items| && StrictEquals(x, items[j])
  }

  /** checkIfSameClasses: both declarations present and truthy, of the same
      `typeof`, and then equal strings, arrays of equal length whose members
      all occur in the old array, or objects with as many keys as the old one
      whose every key the old one has with an identical value. */
  function SameClasses(vnode: VNode, oldVnode: Option<VNode>): (same: bool)
    ensures same ==> oldVnode.Some? && Truthy(vnode.classDecl) && Truthy(oldVnode.value.classDecl)
                     && TypeOf(vnode.classDecl) == TypeOf(oldVnode.value.classDecl)
    ensures vnode.classDecl.Str? && oldVnode.Some? ==>
            (same <==> vnode.classDecl.s != "" && oldVnode.value.classDecl == vnode.classDecl)
    ensures vnode.classDecl.Bool? || vnode.classDecl.Num? ==> !same
  {
    if oldVnode.None? || !Truthy(vnode.classDecl) || !Truthy(oldVnode.value.classDecl) then false
    else
      var classes := vnode.classDecl;
      var oldClasses := oldVnode.value.classDecl;
      if TypeOf(classes) != TypeOf(oldClasses) then false
      else if classes.Str? then classes == oldClasses
      else if classes.Arr? then SameArrays(classes.items, oldClasses)
      else if classes.Obj? then SameObjects(classes.entries, oldClasses)
      else false
  }

  /** The array branch: `classes.length === oldClasses.length` (an old plain
      object has no length) and every member occurs in the old array. */
  predicate SameArrays(items: seq<Json>, oldClasses: Json)
    // arrays or objects among the members are never found again
    ensures SameArrays(items, oldClasses) ==>
            oldClasses.Arr? && (forall i :: 0 <= i < |items| ==> IsPrimitive(items[i]) && items[i] in oldClasses.items)
  {
    oldClasses.Arr? && |items| == |oldClasses.items|
    && forall i :: 0 <= i < |items| ==> Includes(oldClasses.items, items[i])
  }

  /** The object branch: as many keys as the old declaration, and each key
      an own key of the old one with an identical value. */
  predicate SameObjects(entries: seq<(string, Json)>, oldClasses: Json)
    requires !IsNullish(oldClasses)
    // every value is a primitive that the old declaration holds under the same key
    ensures SameObjects(entries, oldClasses) ==>
            forall k :: k in Keys(entries) ==> IsPrimitive(Lookup(entries, k)) && Get(oldClasses, k) == Lookup(entries, k)
    ensures SameObjects(entries, oldClasses) && oldClasses.Obj? ==> |oldClasses.entries| == |entries|
  {
    OwnKeyCount(oldClasses) == |entries|
    && forall k :: k in Keys(entries) ==>
         HasOwnKey(oldClasses, k) && StrictEquals(Lookup(entries, k), Get(oldClasses, k))
  }

  /** Two array declarations are the same exactly when their lengths agree and
      every new member occurs in the old array. */
  lemma {:induction false} SameClassesArrays(vnode: VNode, oldVnode: VNode)
    requires vnode.classDecl.Arr? && oldVnode.classDecl.Arr?
    ensures SameClasses(vnode, Some(oldVnode)) <==>
            |vnode.classDecl.items| == |oldVnode.classDecl.items|
            && forall i :: 0 <= i < |vnode.classDecl.items| ==> Includes(oldVnode.classDecl.items, vnode.classDecl.items[i])
  {
  }

  /** Two object declarations are the same exactly when they have as many keys
      and every new key has an identical value in the old one. */
  lemma {:induction false} SameClassesObjects(vnode: VNode, oldVnode: VNode)
    requires vnode.classDecl.Obj? && oldVnode.classDecl.Obj?
    ensures SameClasses(vnode, Some(oldVnode)) <==>
            |oldVnode.classDecl.entries| == |vnode.classDecl.entries|
            && forall k :: k in Keys(vnode.classDecl.entries) ==>
                 k in Keys(oldVnode.classDecl.entries)
                 && StrictEquals(Lookup(vnode.classDecl.entries, k), Lookup(oldVnode.classDecl.entries, k))
  {
    var classes, oldClasses := vnode.classDecl, oldVnode.classDecl;
    assert SameClasses(vnode, Some(oldVnode)) == SameObjects(classes.entries, oldClasses);
    ObjectAccessors(oldClasses);
    forall k | k in Keys(classes.entries)
      ensures (HasOwnKey(oldClasses, k) && StrictEquals(Lookup(classes.entries, k), Get(oldClasses, k)))
              == (k in Keys(oldClasses.entries) && StrictEquals(Lookup(classes.entries, k), Lookup(oldClasses.entries, k)))
    {
    }
    assert SameObjects(classes.entries, oldClasses) <==>
           OwnKeyCount(oldClasses) == |classes.entries|
           && forall k :: k in Keys(classes.entries) ==>
                HasOwnKey(oldClasses, k) && StrictEquals(Lookup(classes.entries, k), Get(oldClasses, k));
  }

  /** An array declaration of primitive members is the same as itself. */
  lemma {:induction false} SameClassesArrayReflexive(vnode: VNode, oldVnode: VNode)
    requires vnode.classDecl.Arr? && oldVnode.classDecl == vnode.classDecl
    requires forall i :: 0 <= i < |vnode.classDecl.items| ==> IsPrimitive(vnode.classDecl.items[i])
    ensures SameClasses(vnode, Some(oldVnode))
  {
    var items := vnode.classDecl.items;
    forall i | 0 <= i < |items| ensures Includes(items, items[i]) {
      assert StrictEquals(items[i], items[i]);
    }
  }

  /** An object declaration with primitive values is the same as itself. */
  lemma {:induction false} SameClassesObjectReflexive(vnode: VNode, oldVnode: VNode)
    requires vnode.classDecl.Obj? && oldVnode.classDecl == vnode.classDecl
    requires forall i :: 0 <= i < |vnode.classDecl.entries| ==> IsPrimitive(vnode.classDecl.entries[i].1)
    ensures SameClasses(vnode, Some(oldVnode))
  {
    var entries := vnode.classDecl.entries;
    forall k | k in Keys(entries)
      ensures HasOwnKey(oldVnode.classDecl, k) && StrictEquals(Lookup(entries, k), Get(oldVnode.classDecl, k))
    {
      var v := Lookup(entries, k);
      assert (k, v) in entries;
      var i :| 0 <= i < |entries| && entries[i] == (k, v);
      assert IsPrimitive(entries[i].1);
    }
  }

  /** The array comparison is not multiset equality, and it is not symmetric. */
  lemma ArrayComparisonIsLoose()
    ensures var a, b := Str("a"), Str("b");
            SameClasses(VNode(Arr([a, a, b]), None, map[]), Some(VNode(Arr([a, b, b]), None, map[])))
    ensures var a, b := Str("a"), Str("b");
            SameClasses(VNode(Arr([a, a]), None, map[]), Some(VNode(Arr([a, b]), None, map[])))
            && !SameClasses(VNode(Arr([a, b]), None, map[]), Some(VNode(Arr([a, a]), None, map[])))
  {
    var a, b := Str("a"), Str("b");
    assert Includes([a, b, b], a) by { assert StrictEquals(a, [a, b, b][0]); }
    assert Includes([a, b, b], b) by { assert StrictEquals(b, [a, b, b][1]); }
    assert Includes([a, b], a) by { assert StrictEquals(a, [a, b][0]); }
    assert !Includes([a, a], b);
    assert [a, b][1] == b;
  }
}

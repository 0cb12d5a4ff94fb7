/** Concrete runs of both hooks: the expectations of test/index.test.js,
    which exercises the schema hook of index.js, and runs that single out a
    branch of the source. */
module Scenarios {
  import opened Options
  import opened JsValues
  import opened Casing
  import opened ClassList
  import opened Naming
  import opened Validation
  import opened VNodes
  import opened Effects

  /** A first call (no previous value) of a directive. */
  function FirstCall(name: string, modifiers: set<string>, arg: Option<string>, value: Json): Binding {
    Binding(name, modifiers, arg, value, Undefined)
  }

  /** A node with the given previous class string and component state. */
  function Node(prevClass: Option<string>, state: map<string, Json>): VNode {
    VNode(Undefined, prevClass, state)
  }

  /** A string value whose state property is present: both hooks are
      setElemClass on the value with that property. */
  lemma StringValueHook(classes: seq<string>, b: Binding, vnode: VNode)
    requires b.value.Str? && !Missing(vnode, b.value.s)
    ensures var a := ElemClassEffect(classes, b.value.s, StateLookup(vnode.state, Kebab2Camel(b.value.s)), b, vnode);
            HookEffect(classes, b, vnode, None) == Effect(a.classes, if a.error.Some? then Threw(a.error.value) else Returned(0))
    ensures SchemaHookEffect(classes, b, vnode, None) == HookEffect(classes, b, vnode, None)
  {
  }

  // Facts about the literals of the scenarios

  /** A name without hyphens names the state property of the same spelling. */
  lemma HyphenFreeNameIsItsProperty(u: string)
    requires '-' !in u
    ensures Kebab2Camel(u) == u
  {
    assert u == u + "";
    Kebab2CamelHyphenFreePrefix(u, "");
  }

  /** A class string without spaces splits into itself alone. */
  lemma SpaceFreeIsOneToken(t: string)
    requires ' ' !in t
    ensures SplitOnSpace(t) == [t]
  {
    SplitJoin([t]);
  }

  /** A single token is a base candidate iff it has no `--`. */
  lemma SingleCandidate(t: string)
    ensures BaseCandidates([t]) == if HasBemSeparator(t) then [] else [t]
  {
    assert [t][1..] == [];
  }

  /** `is-hidden` is `is`, one `-h` match and `idden`, and camel-cases to `isHidden`. */
  lemma IsHiddenSplitsAtHyphen()
    ensures "is-hidden" == "is" + (['-', 'h'] + "idden")
    ensures "is" + ([ToUpper('h')] + "idden") == "isHidden"
    ensures '-' !in "is" && '-' !in "idden"
  {
    assert ToUpper('h') == 'H';
  }

  /** The class `is-hidden` reads the state property `isHidden`. */
  lemma IsHiddenProperty()
    ensures Kebab2Camel("is-hidden") == "isHidden"
  {
    IsHiddenSplitsAtHyphen();
    Kebab2CamelHyphenFreePrefix("is", ['-', 'h'] + "idden");
    Kebab2CamelMatch('h', "idden");
    HyphenFreeNameIsItsProperty("idden");
  }

  /** `hidden` has no hyphen and no `is-`: forcing the prefix gives `is-hidden`. */
  lemma HiddenHasNoIsPrefix()
    ensures '-' !in "hidden"
    ensures !HasIsPrefix("hidden")
    ensures WithIsPrefix("hidden") == "is-hidden"
    ensures WithoutIsPrefix("hidden") == "hidden"
  {
    assert "hidden"[..3][0] == 'h';
    assert "is-" + "hidden" == "is-hidden";
  }

  /** The class `hidden` reads the state property `hidden`. */
  lemma HiddenProperty()
    ensures Kebab2Camel("hidden") == "hidden"
  {
    HiddenHasNoIsPrefix();
    HyphenFreeNameIsItsProperty("hidden");
  }

  /** `is-hidden` is a token the class list accepts. */
  lemma IsHiddenIsValidToken()
    ensures TokenError("is-hidden") == None
  {
    var t := "is-hidden";
    forall i | 0 <= i < |t| ensures !IsAsciiWhitespace(t[i]) {
      assert 'a' <= t[i] <= 'z' || t[i] == '-';
    }
  }

  /** `base-class` is one token and holds no `--`. */
  lemma BaseClassIsBaseCandidate()
    ensures ' ' !in "base-class"
    ensures !HasBemSeparator("base-class")
  {
    var t := "base-class";
    forall i | 0 <= i < |t| - 1 ensures !(t[i] == '-' && t[i + 1] == '-') {
      if i < 4 { assert t[i] != '-'; } else if i == 4 { assert t[5] != '-'; } else { assert t[i] != '-'; }
    }
  }

  /** The BEM classes built for `hidden` on the bases `base-class` and ``. */
  lemma BemClassLiterals()
    ensures "base-class" + "--" + "hidden" == "base-class--hidden"
    ensures "" + "--" + "hidden" == "--hidden"
  {
  }

  /** `base-class--hidden` is a token the class list accepts. */
  lemma BemClassIsValidToken()
    ensures TokenError("base-class--hidden") == None
  {
    var t := "base-class--hidden";
    forall i | 0 <= i < |t| ensures !IsAsciiWhitespace(t[i]) {
      assert 'a' <= t[i] <= 'z' || t[i] == '-';
    }
  }

  /** With previous class `base-class`, the class built for `hidden` is
      `base-class--hidden`. */
  lemma ImplicitBaseClass()
    ensures ModifierClass(Bem, "hidden", None, Some("base-class")) == Some("base-class--hidden")
  {
    BaseClassIsBaseCandidate();
    SpaceFreeIsOneToken("base-class");
    SingleCandidate("base-class");
    HiddenHasNoIsPrefix();
    BemClassLiterals();
  }

  /** The previous class `other` does not hold the token `base-class`. */
  lemma OtherIsNotBaseClass()
    ensures SplitOnSpace("other") == ["other"]
    ensures "base-class" !in SplitOnSpace("other")
  {
    SpaceFreeIsOneToken("other");
  }

  /** `modifier--other` is one token and holds `--`. */
  lemma ModifierTokenHasSeparator()
    ensures SplitOnSpace("modifier--other") == ["modifier--other"]
    ensures HasBemSeparator("modifier--other")
  {
    SpaceFreeIsOneToken("modifier--other");
    var t := "modifier--other";
    assert t[8] == '-' && t[9] == '-';
  }

  /** `card--active ` splits into `card--active` and an empty piece. */
  lemma TrailingSpaceKeepsEmptyPiece()
    ensures SplitOnSpace("card--active ") == ["card--active", ""]
  {
    SplitJoin(["card--active", ""]);
    assert JoinWithSpace(["card--active", ""]) == "card--active ";
  }

  /** Of those two pieces only the empty one is a base candidate. */
  lemma EmptyPieceIsOnlyCandidate()
    ensures BaseCandidates(["card--active", ""]) == [""]
  {
    var t := "card--active";
    assert t[4] == '-' && t[5] == '-';
    assert [t, ""][1..] == [""];
    SingleCandidate("");
  }

  /** With previous class `modifier--other` there is no implicit base. */
  lemma ModifierTokenIsNoBase()
    ensures BemBase(None, Some("modifier--other")) == None
  {
    ModifierTokenHasSeparator();
    SingleCandidate("modifier--other");
  }

  /** With previous class `card--active ` the implicit base is the empty string. */
  lemma TrailingSpaceBase()
    ensures BemBase(None, Some("card--active ")) == Some("")
  {
    TrailingSpaceKeepsEmptyPiece();
    EmptyPieceIsOnlyCandidate();
  }

  // The scenarios

  lemma AddsIsHidden()
    ensures ElemClassEffect(["static-class"], "is-hidden", Bool(true), FirstCall("mods", {}, None, Str("is-hidden")), Node(None, map["isHidden" := Bool(true)]))
            == Applied(["static-class", "is-hidden"], None)
  {
    IsHiddenIsValidToken();
    assert ResolveMode("mods", {}) == Default;
    assert ApplyToken(["static-class"], "is-hidden", true) == ["static-class", "is-hidden"];
  }

  /** test/index.test.js:63-65: the class of a string value is added next to
      a static class while its property is true. */
  lemma StringValueAdds()
    ensures HookEffect(["static-class"], FirstCall("mods", {}, None, Str("is-hidden")), Node(None, map["isHidden" := Bool(true)]), None)
            == Effect(["static-class", "is-hidden"], Returned(0))
    ensures SchemaHookEffect(["static-class"], FirstCall("mods", {}, None, Str("is-hidden")), Node(None, map["isHidden" := Bool(true)]), None)
            == Effect(["static-class", "is-hidden"], Returned(0))
  {
    IsHiddenProperty();
    AddsIsHidden();
    StringValueHook(["static-class"], FirstCall("mods", {}, None, Str("is-hidden")), Node(None, map["isHidden" := Bool(true)]));
  }

  lemma RemovesIsHidden()
    ensures ElemClassEffect(["static-class", "is-hidden"], "is-hidden", Bool(false), FirstCall("mods", {}, None, Str("is-hidden")), Node(None, map["isHidden" := Bool(false)]))
            == Applied(["static-class"], None)
  {
    IsHiddenIsValidToken();
    assert ResolveMode("mods", {}) == Default;
    var tokens := ["static-class", "is-hidden"];
    assert tokens[1..] == ["is-hidden"];
    assert RemoveToken(["is-hidden"], "is-hidden") == [];
  }

  /** test/index.test.js:46-50: the class is removed once the property turns
      false. The static class beside it, which stays, is added here. */
  lemma StringValueRemoves()
    ensures HookEffect(["static-class", "is-hidden"], FirstCall("mods", {}, None, Str("is-hidden")), Node(None, map["isHidden" := Bool(false)]), None)
            == Effect(["static-class"], Returned(0))
    ensures SchemaHookEffect(["static-class", "is-hidden"], FirstCall("mods", {}, None, Str("is-hidden")), Node(None, map["isHidden" := Bool(false)]), None)
            == Effect(["static-class"], Returned(0))
  {
    IsHiddenProperty();
    RemovesIsHidden();
    StringValueHook(["static-class", "is-hidden"], FirstCall("mods", {}, None, Str("is-hidden")), Node(None, map["isHidden" := Bool(false)]));
  }

  lemma RegisteredIsSetsClass()
    ensures ElemClassEffect([], "hidden", Bool(true), FirstCall("is", {}, None, Str("hidden")), Node(None, map["hidden" := Bool(true)]))
            == Applied(["is-hidden"], None)
  {
    HiddenHasNoIsPrefix();
    IsHiddenIsValidToken();
    assert ResolveMode("is", {}) == ForceIsPrefix;
  }

  /** test/index.test.js:129-130: a directive registered as `is` prefixes
      with `is-` without any modifier. */
  lemma RegisteredIsForcesPrefix()
    ensures HookEffect([], FirstCall("is", {}, None, Str("hidden")), Node(None, map["hidden" := Bool(true)]), None)
            == Effect(["is-hidden"], Returned(0))
    ensures SchemaHookEffect([], FirstCall("is", {}, None, Str("hidden")), Node(None, map["hidden" := Bool(true)]), None)
            == Effect(["is-hidden"], Returned(0))
  {
    HiddenProperty();
    RegisteredIsSetsClass();
    StringValueHook([], FirstCall("is", {}, None, Str("hidden")), Node(None, map["hidden" := Bool(true)]));
  }

  lemma RegisteredBemTarget()
    ensures TargetClass("hidden", FirstCall("bem", {}, None, Str("hidden")), Node(Some("base-class"), map["hidden" := Bool(true)]))
            == Some("base-class--hidden")
  {
    ImplicitBaseClass();
    assert ResolveMode("bem", {}) == Bem;
  }

  lemma RegisteredBemSetsClass()
    ensures ElemClassEffect(["base-class"], "hidden", Bool(true), FirstCall("bem", {}, None, Str("hidden")), Node(Some("base-class"), map["hidden" := Bool(true)]))
            == Applied(["base-class", "base-class--hidden"], None)
  {
    RegisteredBemTarget();
    BemClassIsValidToken();
    assert ApplyToken(["base-class"], "base-class--hidden", true) == ["base-class", "base-class--hidden"];
  }

  /** test/index.test.js:129-131: with previous class `base-class`, a
      directive registered as `bem` builds `base-class--hidden` from the
      implicit base. */
  lemma RegisteredBemBuildsBemClass()
    ensures HookEffect(["base-class"], FirstCall("bem", {}, None, Str("hidden")), Node(Some("base-class"), map["hidden" := Bool(true)]), None)
            == Effect(["base-class", "base-class--hidden"], Returned(0))
    ensures SchemaHookEffect(["base-class"], FirstCall("bem", {}, None, Str("hidden")), Node(Some("base-class"), map["hidden" := Bool(true)]), None)
            == Effect(["base-class", "base-class--hidden"], Returned(0))
  {
    HiddenProperty();
    RegisteredBemSetsClass();
    StringValueHook(["base-class"], FirstCall("bem", {}, None, Str("hidden")), Node(Some("base-class"), map["hidden" := Bool(true)]));
  }

  lemma NoPreviousClassSkips()
    ensures TargetClass("hidden", FirstCall("bem", {}, None, Str("hidden")), Node(None, map["hidden" := Bool(true)])) == None
  {
    assert ResolveMode("bem", {}) == Bem;
  }

  /** test/index.test.js:93-94: in BEM mode with no previous class there is
      no base, nothing is touched, and the hook still returns 0. */
  lemma BemWithoutPreviousClass()
    ensures HookEffect(["x"], FirstCall("bem", {}, None, Str("hidden")), Node(None, map["hidden" := Bool(true)]), None)
            == Effect(["x"], Returned(0))
    ensures SchemaHookEffect(["x"], FirstCall("bem", {}, None, Str("hidden")), Node(None, map["hidden" := Bool(true)]), None)
            == Effect(["x"], Returned(0))
  {
    HiddenProperty();
    NoPreviousClassSkips();
    StringValueHook(["x"], FirstCall("bem", {}, None, Str("hidden")), Node(None, map["hidden" := Bool(true)]));
  }

  lemma AbsentBaseSkips()
    ensures TargetClass("hidden", FirstCall("mods", {"bem"}, Some("base-class"), Str("hidden")), Node(Some("other"), map["hidden" := Bool(true)])) == None
  {
    OtherIsNotBaseClass();
    assert ResolveMode("mods", {"bem"}) == Bem;
  }

  /** test/index.test.js:113-114: an explicit base absent from the previous
      class string leaves the class list alone. */
  lemma BemExplicitBaseAbsent()
    ensures HookEffect(["x"], FirstCall("mods", {"bem"}, Some("base-class"), Str("hidden")), Node(Some("other"), map["hidden" := Bool(true)]), None)
            == Effect(["x"], Returned(0))
    ensures SchemaHookEffect(["x"], FirstCall("mods", {"bem"}, Some("base-class"), Str("hidden")), Node(Some("other"), map["hidden" := Bool(true)]), None)
            == Effect(["x"], Returned(0))
  {
    HiddenProperty();
    AbsentBaseSkips();
    StringValueHook(["x"], FirstCall("mods", {"bem"}, Some("base-class"), Str("hidden")), Node(Some("other"), map["hidden" := Bool(true)]));
  }

  /** A previous class string whose only token is itself a modifier offers no
      base: nothing is touched. */
  lemma BemModifierTokenIsNoBase()
    ensures TargetClass("hidden", FirstCall("bem", {}, None, Str("hidden")), Node(Some("modifier--other"), map[])) == None
  {
    ModifierTokenIsNoBase();
    assert ResolveMode("bem", {}) == Bem;
  }

  /** The single-space split keeps empty tokens, and an empty token has no
      `--`: a trailing space makes the empty string the base. */
  lemma BemEmptyTokenIsABase()
    ensures TargetClass("hidden", FirstCall("bem", {}, None, Str("hidden")), Node(Some("card--active "), map[])) == Some("--hidden")
  {
    TrailingSpaceBase();
    HiddenHasNoIsPrefix();
    BemClassLiterals();
    assert ResolveMode("bem", {}) == Bem;
  }

  /** An array stops at the first name whose property is missing: `a` has
      none, so `b` is never applied. */
  lemma ArrayStopsAtMissingName()
    ensures HookEffect([], FirstCall("mods", {}, None, Arr([Str("a"), Str("b")])), Node(None, map["b" := Bool(true)]), None)
            == Effect([], Returned(-1))
    ensures SchemaHookEffect([], FirstCall("mods", {}, None, Arr([Str("a"), Str("b")])), Node(None, map["b" := Bool(true)]), None)
            == Effect([], Returned(-1))
  {
    var b := FirstCall("mods", {}, None, Arr([Str("a"), Str("b")]));
    var vnode := Node(None, map["b" := Bool(true)]);
    assert Names([Str("a"), Str("b")]) == ["a", "b"];
    HyphenFreeNameIsItsProperty("a");
    assert ClassByNameEffect([], "a", b, vnode) == Effect([], Returned(-1));
  }

  /** A number is refused by both hooks with -1 and no change. */
  lemma NumberIsRefused()
    ensures HookEffect(["x"], FirstCall("mods", {}, None, Num(123.0)), Node(None, map[]), None) == Effect(["x"], Returned(-1))
    ensures SchemaHookEffect(["x"], FirstCall("mods", {}, None, Num(123.0)), Node(None, map[]), None) == Effect(["x"], Returned(-1))
  {
  }

  /** An object key that is no usable class token passes both checks and then
      makes the class list throw, so the hook does not return 0. */
  lemma EmptyObjectKeyThrows()
    ensures HookEffect([], FirstCall("mods", {}, None, Obj([("", Bool(true))])), Node(None, map[]), None)
            == Effect([], Threw(SyntaxError))
    ensures SchemaHookEffect([], FirstCall("mods", {}, None, Obj([("", Bool(true))])), Node(None, map[]), None)
            == Effect([], Threw(SyntaxError))
  {
    var b := FirstCall("mods", {}, None, Obj([("", Bool(true))]));
    var vnode := Node(None, map[]);
    assert Keys([("", Bool(true))]) == [""];
    assert Lookup([("", Bool(true))], "") == Bool(true);
    assert CheckValue(b.value) == None;
    assert Camel2Kebab("") == "";
    assert ResolveMode("mods", {}) == Default;
    KeyEffectSkipsExactlyUnchanged([], "", b, vnode, false, false);
  }
}

/** How a modifier name becomes a class name: the naming mode chosen from the
    directive's modifiers and registered name, the `is-` prefix, and the BEM
    form `base--modifier` whose base is found in the element's previous class
    string. */
module Naming {
  import opened Options

  datatype Mode = Default | ForceIsPrefix | Bem

  /** The mode of setElemClass: default, then the `is` modifier, then the
      `bem` modifier, then a directive registered as `is`, then one registered
      as `bem`; the last rule that applies wins. */
  function ResolveMode(name: string, modifiers: set<string>): (m: Mode)
    ensures m == Bem <==> name == "bem" || (name != "is" && "bem" in modifiers)
    ensures m == ForceIsPrefix <==> name == "is" || (name != "bem" && "is" in modifiers && "bem" !in modifiers)
  {
    var m0 := Default;
    var m1 := if "is" in modifiers then ForceIsPrefix else m0;
    var m2 := if "bem" in modifiers then Bem else m1;
    var m3 := if name == "is" then ForceIsPrefix else m2;
    if name == "bem" then Bem else m3
  }

  /** The `isBem` flag of the hook, which gates the skipping of unchanged keys.
      It is computed apart from ResolveMode. */
  predicate IsBemFlag(name: string, modifiers: set<string>)
    ensures IsBemFlag(name, modifiers) <==> ResolveMode(name, modifiers) == Bem || (name == "is" && "bem" in modifiers)
  {
    "bem" in modifiers || name == "bem"
  }

  /** The flag and the mode disagree exactly for a directive registered as
      `is` that carries the `bem` modifier: it is gated as BEM but named with
      the `is-` prefix. */
  lemma {:induction false} BemFlagVersusMode(name: string, modifiers: set<string>)
    ensures ResolveMode(name, modifiers) == Bem ==> IsBemFlag(name, modifiers)
    ensures IsBemFlag(name, modifiers) && ResolveMode(name, modifiers) != Bem
            <==> name == "is" && "bem" in modifiers
  {
  }

  predicate HasIsPrefix(s: string) {
    |s| >= 3 && s[..3] == "is-"
  }

  /** The name under the force-is-prefix mode. */
  function WithIsPrefix(s: string): (r: string)
    ensures HasIsPrefix(r)
    ensures r == s || r == "is-" + s
    ensures r == s <==> HasIsPrefix(s)
  {
    if HasIsPrefix(s) then s else "is-" + s
  }

  /** `s.replace(/^is-/, '')`: at most one leading `is-` goes. */
  function WithoutIsPrefix(s: string): (r: string)
    ensures HasIsPrefix(s) ==> "is-" + r == s
    ensures !HasIsPrefix(s) ==> r == s
  {
    if HasIsPrefix(s) then s[3..] else s
  }

  /** Prefixing twice is prefixing once; stripping a prefix that was just
      forced gives what stripping the raw name gives; and only one `is-` is
      ever stripped. */
  lemma {:induction false} IsPrefixLaws(s: string)
    ensures WithIsPrefix(WithIsPrefix(s)) == WithIsPrefix(s)
    ensures WithoutIsPrefix(WithIsPrefix(s)) == WithoutIsPrefix(s)
    ensures !HasIsPrefix(s) ==> WithoutIsPrefix(WithIsPrefix(s)) == s
    ensures WithoutIsPrefix("is-" + s) == s
  {
    assert ("is-" + s)[..3] == "is-";
    assert ("is-" + s)[3..] == s;
  }

  /** `s.split(' ')`: the pieces between single spaces, empty ones included. */
  function SplitOnSpace(s: string): (parts: seq<string>)
    ensures |parts| >= 1
    ensures forall i :: 0 <= i < |parts| ==> ' ' !in parts[i]
  {
    if s == [] then [""]
    else
      var rest := SplitOnSpace(s[1..]);
      if s[0] == ' ' then [""] + rest
      else [[s[0]] + rest[0]] + rest[1..]
  }

  /** `parts.join(' ')` */
  function JoinWithSpace(parts: seq<string>): string
    requires |parts| >= 1
  {
    if |parts| == 1 then parts[0] else parts[0] + " " + JoinWithSpace(parts[1..])
  }

  /** Joining the pieces gives back the string. */
  lemma {:induction false} JoinSplit(s: string)
    ensures JoinWithSpace(SplitOnSpace(s)) == s
  {
    if s != [] {
      var rest := SplitOnSpace(s[1..]);
      JoinSplit(s[1..]);
      if s[0] == ' ' {
        assert SplitOnSpace(s) == [""] + rest;
        assert ([""] + rest)[1..] == rest;
        assert s == [' '] + s[1..];
      } else {
        var parts := SplitOnSpace(s);
        assert parts == [[s[0]] + rest[0]] + rest[1..];
        if |rest| == 1 {
          assert s == [s[0]] + rest[0];
        } else {
          assert parts[1..] == rest[1..];
          assert JoinWithSpace(rest) == rest[0] + " " + JoinWithSpace(rest[1..]);
          assert s == [s[0]] + s[1..];
        }
      }
    }
  }

  /** A piece without spaces followed by more text: the piece opens the
      first part of the split. */
  lemma {:induction false} SplitAfterPiece(a: string, t: string)
    requires ' ' !in a
    ensures SplitOnSpace(a + t) == [a + SplitOnSpace(t)[0]] + SplitOnSpace(t)[1..]
  {
    if a != [] {
      SplitAfterPiece(a[1..], t);
      assert (a + t)[1..] == a[1..] + t;
      assert [a[0]] + (a[1..] + SplitOnSpace(t)[0]) == a + SplitOnSpace(t)[0];
    } else {
      var p := SplitOnSpace(t);
      assert a + t == t && a + p[0] == p[0];
      assert p == [p[0]] + p[1..];
    }
  }

  /** Splitting the joined pieces gives back the pieces, when none of them
      holds a space. */
  lemma {:induction false} SplitJoin(parts: seq<string>)
    requires |parts| >= 1
    requires forall i :: 0 <= i < |parts| ==> ' ' !in parts[i]
    ensures SplitOnSpace(JoinWithSpace(parts)) == parts
  {
    if |parts| == 1 {
      SplitAfterPiece(parts[0], "");
      assert parts[0] + "" == parts[0];
    } else {
      var tail := JoinWithSpace(parts[1..]);
      SplitJoin(parts[1..]);
      assert JoinWithSpace(parts) == parts[0] + (" " + tail);
      SplitAfterPiece(parts[0], " " + tail);
      assert (" " + tail)[0] == ' ' && (" " + tail)[1..] == tail;
      assert SplitOnSpace(" " + tail) == [""] + parts[1..];
      assert parts[0] + "" == parts[0];
    }
  }

  /** `t.includes('--')`: the token is itself a BEM modifier class. */
  predicate HasBemSeparator(t: string) {
    exists i :: 0 <= i < |t| - 1 && t[i] == '-' && t[i + 1] == '-'
  }

  /** `tokens.filter(t => !t.includes('--'))`: the candidate base classes, in
      their original order. */
  function BaseCandidates(tokens: seq<string>): (r: seq<string>)
    ensures forall t :: t in r ==> t in tokens && !HasBemSeparator(t)
    ensures forall t :: t in tokens && !HasBemSeparator(t) ==> t in r
    // the first candidate is the first token without a separator
    ensures r != [] ==> exists i :: 0 <= i < |tokens| && tokens[i] == r[0]
                                    && forall j :: 0 <= j < i ==> HasBemSeparator(tokens[j])
  {
    if tokens == [] then []
    else if HasBemSeparator(tokens[0]) then
      var rest := BaseCandidates(tokens[1..]);
      assert forall t :: t in tokens[1..] ==> t in tokens;
      assert rest != [] ==> exists i :: 1 <= i < |tokens| && tokens[i] == rest[0]
                                        && forall j :: 0 <= j < i ==> HasBemSeparator(tokens[j]) by {
        if rest != [] {
          var i :| 0 <= i < |tokens[1..]| && tokens[1..][i] == rest[0]
                   && forall j :: 0 <= j < i ==> HasBemSeparator(tokens[1..][j]);
          assert tokens[i + 1] == rest[0];
          assert forall j :: 0 <= j < i + 1 ==> HasBemSeparator(tokens[j]) by {
            forall j | 0 <= j < i + 1 ensures HasBemSeparator(tokens[j]) {
              if j > 0 { assert tokens[j] == tokens[1..][j - 1]; }
            }
          }
        }
      }
      rest
    else [tokens[0]] + BaseCandidates(tokens[1..])
  }

  /** `s` counts as true in JavaScript: present and not empty. */
  predicate PresentNonEmpty(s: Option<string>) {
    s.Some? && s.value != ""
  }

  /** The base class of a BEM modifier, or None when the modifier is skipped.
      With an argument, the argument is the base, provided it is one of the
      space-separated tokens of the previous class string. Without one, the
      base is the first token of that string that is not itself a modifier. */
  function BemBase(arg: Option<string>, prevClass: Option<string>): Option<string>
  {
    match arg
    case Some(a) =>
      if PresentNonEmpty(prevClass) && a in SplitOnSpace(prevClass.value) then Some(a) else None
    case None =>
      var candidates := if PresentNonEmpty(prevClass) then BaseCandidates(SplitOnSpace(prevClass.value)) else [];
      if |candidates| == 0 then None else Some(candidates[0])
  }

  /** The class setElemClass touches for the modifier `name`, or None when BEM
      gating skips it. */
  function ModifierClass(mode: Mode, name: string, arg: Option<string>, prevClass: Option<string>): Option<string> {
    match mode
    case Default => Some(name)
    case ForceIsPrefix => Some(WithIsPrefix(name))
    case Bem =>
      match BemBase(arg, prevClass)
      case None => None
      case Some(base) => Some(base + "--" + WithoutIsPrefix(name))
  }

  /** Only BEM gating leaves a modifier without a class, and whatever the mode
      the class ends with the modifier name less one leading `is-`. */
  lemma {:induction false} ModifierClassEndsWithName(mode: Mode, name: string, arg: Option<string>, prevClass: Option<string>)
    ensures ModifierClass(mode, name, arg, prevClass).None? <==> mode == Bem && BemBase(arg, prevClass).None?
    ensures ModifierClass(mode, name, arg, prevClass).Some? ==>
            EndsWith(ModifierClass(mode, name, arg, prevClass).value, WithoutIsPrefix(name))
  {
    StrippedIsSuffix(name);
    match mode
    case Default =>
    case ForceIsPrefix =>
      if !HasIsPrefix(name) { SuffixOfConcat("is-", name); }
    case Bem =>
      if BemBase(arg, prevClass).Some? {
        SuffixOfConcat(BemBase(arg, prevClass).value + "--", WithoutIsPrefix(name));
      }
  }

  /** `s.endsWith(w)` */
  predicate EndsWith(s: string, w: string) {
    |w| <= |s| && s[|s| - |w|..] == w
  }

  lemma SuffixOfConcat(u: string, w: string)
    ensures EndsWith(u + w, w)
  {
    assert (u + w)[|u|..] == w;
  }

  /** A name ends with itself less one leading `is-`. */
  lemma StrippedIsSuffix(name: string)
    ensures EndsWith(name, WithoutIsPrefix(name))
  {
    if HasIsPrefix(name) {
      SuffixOfConcat("is-", WithoutIsPrefix(name));
    } else {
      assert name[0..] == name;
    }
  }

  /** Force-is-prefix output starts with `is-` and does not change a name that
      already does. */
  lemma {:induction false} ForceIsPrefixClass(name: string, arg: Option<string>, prevClass: Option<string>)
    ensures ModifierClass(ForceIsPrefix, name, arg, prevClass).Some?
    ensures HasIsPrefix(ModifierClass(ForceIsPrefix, name, arg, prevClass).value)
    ensures HasIsPrefix(name) ==> ModifierClass(ForceIsPrefix, name, arg, prevClass) == Some(name)
  {
  }

  /** With an explicit base: no class unless the previous class string holds
      the argument as a space-separated token; otherwise `arg--name`, one
      leading `is-` of the name removed. */
  lemma {:induction false} BemExplicitBase(name: string, a: string, prevClass: Option<string>)
    ensures ModifierClass(Bem, name, Some(a), prevClass).Some?
            <==> PresentNonEmpty(prevClass) && a in SplitOnSpace(prevClass.value)
    ensures ModifierClass(Bem, name, Some(a), prevClass).Some? ==>
            ModifierClass(Bem, name, Some(a), prevClass).value == a + "--" + WithoutIsPrefix(name)
  {
  }

  /** Without an argument: no class when no token of the previous class string
      lacks `--`; otherwise the base is the first token that lacks it. */
  lemma {:induction false} BemImplicitBase(name: string, prevClass: Option<string>)
    ensures ModifierClass(Bem, name, None, prevClass).None?
            <==> !PresentNonEmpty(prevClass)
                 || forall t :: t in SplitOnSpace(prevClass.value) ==> HasBemSeparator(t)
    ensures ModifierClass(Bem, name, None, prevClass).Some? ==>
            var tokens := SplitOnSpace(prevClass.value);
            exists i :: 0 <= i < |tokens| && !HasBemSeparator(tokens[i])
                        && (forall j :: 0 <= j < i ==> HasBemSeparator(tokens[j]))
                        && ModifierClass(Bem, name, None, prevClass).value == tokens[i] + "--" + WithoutIsPrefix(name)
  {
    if PresentNonEmpty(prevClass) {
      var tokens := SplitOnSpace(prevClass.value);
      var candidates := BaseCandidates(tokens);
      if candidates != [] {
        assert candidates[0] in candidates;
      }
    }
  }

  /** A BEM class always holds the `--` separator. */
  lemma {:induction false} BemClassHasSeparator(name: string, arg: Option<string>, prevClass: Option<string>)
    requires ModifierClass(Bem, name, arg, prevClass).Some?
    ensures HasBemSeparator(ModifierClass(Bem, name, arg, prevClass).value)
  {
    var base := BemBase(arg, prevClass).value;
    var c := base + "--" + WithoutIsPrefix(name);
    assert c[|base|] == '-' && c[|base| + 1] == '-';
  }
}

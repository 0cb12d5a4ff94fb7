/** The two name converters: a class name in kebab case names the state
    property in camel case, and an object key in camel case names the class
    in kebab case. Both touch ASCII letters and digits only. */
module Casing {
  import opened JsValues

  predicate IsAsciiUpper(c: char) {
    'A' <= c <= 'Z'
  }

  predicate IsAsciiLower(c: char) {
    'a' <= c <= 'z'
  }

  function ToUpper(c: char): (u: char)
    ensures !IsAsciiLower(u)
  {
    if IsAsciiLower(c) then (c as int - 32) as char else c
  }

  function ToLower(c: char): (l: char)
    ensures !IsAsciiUpper(l)
  {
    if IsAsciiUpper(c) then (c as int + 32) as char else c
  }

  predicate NoUpper(s: string) {
    forall i :: 0 <= i < |s| ==> !IsAsciiUpper(s[i])
  }

  predicate NoDigit(s: string) {
    forall i :: 0 <= i < |s| ==> !IsDigit(s[i])
  }

  /** `s.replace(/-[a-z0-9]/g, m => m.toUpperCase()[1])`: every hyphen
      followed by a lower-case letter or a digit is dropped and that character
      upper-cased; the matches are found left to right without overlapping. */
  function Kebab2Camel(s: string): (r: string)
    ensures |r| <= |s|
    ensures |s| > 0 && !IsAsciiLower(s[0]) ==> |r| > 0 && !IsAsciiLower(r[0])
    // no hyphen is left in front of a lower-case letter
    ensures forall i, j :: 0 <= i < j < |r| && j == i + 1 && r[i] == '-' ==> !IsAsciiLower(r[j])
  {
    if |s| >= 2 && s[0] == '-' && (IsAsciiLower(s[1]) || IsDigit(s[1])) then
      [ToUpper(s[1])] + Kebab2Camel(s[2..])
    else if s == [] then []
    else [s[0]] + Kebab2Camel(s[1..])
  }

  /** The length of the run of digits that starts `s`. */
  function DigitRun(s: string): (n: nat)
    ensures n <= |s|
    ensures forall i :: 0 <= i < n ==> IsDigit(s[i])
    ensures n < |s| ==> !IsDigit(s[n])
    ensures s != [] && IsDigit(s[0]) ==> n >= 1
  {
    if s != [] && IsDigit(s[0]) then 1 + DigitRun(s[1..]) else 0
  }

  /** `s.replace(/[A-Z]|\d+/g, m => '-' + m.toLowerCase())`: a hyphen goes in
      front of every upper-case letter, which is lower-cased, and in front of
      every maximal run of digits. */
  function Camel2Kebab(s: string): (r: string)
    ensures NoUpper(r)
    decreases |s|
  {
    if s == [] then []
    else if IsAsciiUpper(s[0]) then ['-', ToLower(s[0])] + Camel2Kebab(s[1..])
    else if IsDigit(s[0]) then
      var n := DigitRun(s);
      ['-'] + s[..n] + Camel2Kebab(s[n..])
    else [s[0]] + Camel2Kebab(s[1..])
  }

  /** A name with neither upper-case letters nor digits is its own kebab form. */
  lemma {:induction false} Camel2KebabIdentity(s: string)
    requires NoUpper(s) && NoDigit(s)
    ensures Camel2Kebab(s) == s
  {
    if s != [] {
      Camel2KebabIdentity(s[1..]);
    }
  }

  /** Kebab to camel and back is the identity on names without upper-case
      letters and digits, such as lower-case words joined by hyphens. */
  lemma {:induction false} KebabCamelKebab(s: string)
    requires NoUpper(s) && NoDigit(s)
    ensures Camel2Kebab(Kebab2Camel(s)) == s
  {
    if |s| >= 2 && s[0] == '-' && IsAsciiLower(s[1]) {
      var t := Kebab2Camel(s[2..]);
      KebabCamelKebab(s[2..]);
      var u := [ToUpper(s[1])] + t;
      assert u[0] == ToUpper(s[1]) && IsAsciiUpper(u[0]) && u[1..] == t;
      assert ToLower(ToUpper(s[1])) == s[1];
      assert Camel2Kebab(u) == ['-', s[1]] + Camel2Kebab(t);
      assert s == ['-', s[1]] + s[2..];
    } else if s != [] {
      var t := Kebab2Camel(s[1..]);
      KebabCamelKebab(s[1..]);
      var u := [s[0]] + t;
      assert u[0] == s[0] && u[1..] == t;
      assert Camel2Kebab(u) == [s[0]] + Camel2Kebab(t);
      assert s == [s[0]] + s[1..];
    }
  }

  /** Kebab2Camel leaves a hyphen-free prefix alone. */
  lemma {:induction false} Kebab2CamelHyphenFreePrefix(u: string, t: string)
    requires '-' !in u
    ensures Kebab2Camel(u + t) == u + Kebab2Camel(t)
  {
    if u != [] {
      assert (u + t)[1..] == u[1..] + t;
      Kebab2CamelHyphenFreePrefix(u[1..], t);
      assert u == [u[0]] + u[1..];
    } else {
      assert u + t == t;
    }
  }

  /** One match of the kebab pattern: a hyphen and a lower-case letter or digit. */
  lemma Kebab2CamelMatch(c: char, t: string)
    requires IsAsciiLower(c) || IsDigit(c)
    ensures Kebab2Camel(['-', c] + t) == [ToUpper(c)] + Kebab2Camel(t)
  {
    var k := ['-', c] + t;
    assert k[0] == '-' && k[1] == c && k[2..] == t;
  }

  /** Camel to kebab and back is the identity on every hyphen-free name, for
      instance on camel-case object keys. */
  lemma {:induction false} CamelKebabCamel(s: string)
    requires '-' !in s
    ensures Kebab2Camel(Camel2Kebab(s)) == s
    decreases |s|, 1
  {
    if s == [] {
    } else if IsAsciiUpper(s[0]) {
      CamelKebabCamel(s[1..]);
      Kebab2CamelMatch(ToLower(s[0]), Camel2Kebab(s[1..]));
      assert ToUpper(ToLower(s[0])) == s[0];
      assert s == [s[0]] + s[1..];
    } else if IsDigit(s[0]) {
      CamelKebabCamelDigits(s);
    } else {
      var t := Camel2Kebab(s[1..]);
      CamelKebabCamel(s[1..]);
      Kebab2CamelHyphenFreePrefix([s[0]], t);
      assert s == [s[0]] + s[1..];
    }
  }

  /** Camel2Kebab on a name that starts with a digit. */
  lemma Camel2KebabDigits(s: string)
    requires s != [] && IsDigit(s[0])
    ensures Camel2Kebab(s) == ['-', s[0]] + (s[1..DigitRun(s)] + Camel2Kebab(s[DigitRun(s)..]))
  {
    var n := DigitRun(s);
    assert s[..n] == [s[0]] + s[1..n];
    Regroup(s[0], s[1..n], Camel2Kebab(s[n..]));
  }

  lemma SplitAfterFirst(s: string, n: nat)
    requires 1 <= n <= |s|
    ensures s == [s[0]] + (s[1..n] + s[n..])
  {
    assert s == s[..n] + s[n..] && s[..n] == [s[0]] + s[1..n];
  }

  lemma Regroup(c: char, d: string, x: string)
    ensures ['-'] + ([c] + d) + x == ['-', c] + (d + x)
  {
  }

  /** The digit-run case of CamelKebabCamel. */
  lemma {:induction false} CamelKebabCamelDigits(s: string)
    requires '-' !in s && s != [] && IsDigit(s[0])
    ensures Kebab2Camel(Camel2Kebab(s)) == s
    decreases |s|, 0
  {
    var n := DigitRun(s);
    var d := s[1..n];
    var t := Camel2Kebab(s[n..]);
    CamelKebabCamel(s[n..]);
    Camel2KebabDigits(s);
    Kebab2CamelMatch(s[0], d + t);
    assert '-' !in d by {
      forall i | 0 <= i < |d| ensures d[i] != '-' { assert d[i] == s[i + 1] && IsDigit(s[i + 1]); }
    }
    Kebab2CamelHyphenFreePrefix(d, t);
    SplitAfterFirst(s, n);
    calc {
      Kebab2Camel(Camel2Kebab(s));
      Kebab2Camel(['-', s[0]] + (d + t));
      [ToUpper(s[0])] + Kebab2Camel(d + t);
      [s[0]] + (d + Kebab2Camel(t));
      [s[0]] + (d + s[n..]);
    }
  }
}

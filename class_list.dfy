/** The element's class list (a DOMTokenList): an ordered set of class
    tokens. `add` appends a token that is absent, `remove` deletes it, and
    both throw on a token that is empty or holds ASCII whitespace. */
module ClassList {
  import opened Options

  /** The DOMException that `add` and `remove` throw on a malformed token. */
  datatype DomError = SyntaxError | InvalidCharacterError

  predicate IsAsciiWhitespace(c: char) {
    c == '\t' || c == '\n' || c == '\U{000C}' || c == '\r' || c == ' '
  }

  /** The exception a token makes `add` and `remove` throw, if any. */
  function TokenError(token: string): (e: Option<DomError>)
    ensures e.None? <==> token != "" && forall i :: 0 <= i < |token| ==> !IsAsciiWhitespace(token[i])
    ensures e == Some(SyntaxError) <==> token == ""
  {
    if token == "" then Some(SyntaxError)
    else if exists i :: 0 <= i < |token| && IsAsciiWhitespace(token[i]) then Some(InvalidCharacterError)
    else None
  }

  predicate Distinct(tokens: seq<string>) {
    forall i, j :: 0 <= i < j < |tokens| ==> tokens[i] != tokens[j]
  }

  predicate WellFormed(tokens: seq<string>) {
    Distinct(tokens) && forall t :: t in tokens ==> TokenError(t).None?
  }

  /** `classList.add(token)` on a well-formed token. */
  function AddToken(tokens: seq<string>, token: string): (r: seq<string>)
    ensures token in r
    ensures forall u :: u != token ==> (u in r <==> u in tokens)
    ensures token in tokens ==> r == tokens
    ensures Distinct(tokens) ==> Distinct(r)
  {
    if token in tokens then tokens else tokens + [token]
  }

  /** `classList.remove(token)` on a well-formed token. */
  function RemoveToken(tokens: seq<string>, token: string): (r: seq<string>)
    ensures token !in r
    ensures forall u :: u != token ==> (u in r <==> u in tokens)
    ensures token !in tokens ==> r == tokens
    ensures Distinct(tokens) ==> Distinct(r)
  {
    if tokens == [] then []
    else if tokens[0] == token then RemoveToken(tokens[1..], token)
    else
      var rest := RemoveToken(tokens[1..], token);
      assert Distinct(tokens) ==> tokens[0] !in tokens[1..];
      [tokens[0]] + rest
  }

  /** Adds the token when `add` holds, removes it otherwise. */
  function ApplyToken(tokens: seq<string>, token: string, add: bool): (r: seq<string>)
    ensures token in r <==> add
    ensures forall u :: u != token ==> (u in r <==> u in tokens)
  {
    if add then AddToken(tokens, token) else RemoveToken(tokens, token)
  }

  /** Adding or removing a class a second time changes nothing. */
  lemma {:induction false} ApplyTokenIdempotent(tokens: seq<string>, token: string, add: bool)
    ensures ApplyToken(ApplyToken(tokens, token, add), token, add) == ApplyToken(tokens, token, add)
  {
  }

  /** A DOM element, reduced to its class list. */
  class Element {
    var classes: seq<string>

    ghost predicate Valid()
      reads this
    {
      WellFormed(classes)
    }

    constructor (initial: seq<string>)
      requires WellFormed(initial)
      ensures Valid() && classes == initial
    {
      classes := initial;
    }

    /** `classList.add(token)`: `e` is the exception thrown, if any. */
    method Add(token: string) returns (e: Option<DomError>)
      requires Valid()
      modifies this
      ensures Valid()
      ensures e == TokenError(token)
      ensures classes == if e.None? then AddToken(old(classes), token) else old(classes)
    {
      e := TokenError(token);
      if e.None? && token !in classes {
        classes := classes + [token];
      }
    }

    /** `classList.remove(token)`: `e` is the exception thrown, if any. */
    method Remove(token: string) returns (e: Option<DomError>)
      requires Valid()
      modifies this
      ensures Valid()
      ensures e == TokenError(token)
      ensures classes == if e.None? then RemoveToken(old(classes), token) else old(classes)
    {
      e := TokenError(token);
      if e.None? {
        classes := RemoveToken(classes, token);
      }
    }
  }
}

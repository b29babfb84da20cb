/** OAuth 2.0 scopes (crates/oauth2-types/src/scope.rs): the grammar of section 3.3 and appendix A.4
    of RFC 6749. */
module Scope {
  import opened Text
  import opened Order

  predicate NqChar(c: char) { c as int == 0x21 || 0x23 <= c as int <= 0x5B || 0x5D <= c as int <= 0x7E }

  /** scope-token = 1*NQCHAR */
  predicate IsToken(s: string) { s != "" && forall i :: 0 <= i < |s| ==> NqChar(s[i]) }

  /** NQCHAR is what can be printed of ASCII but the space, the quote and the backslash. */
  lemma TokenIff(s: string)
    ensures IsToken(s) <==> |s| >= 1 && forall i :: 0 <= i < |s| ==> ' ' < s[i] <= '~' && s[i] != '"' && s[i] != '\\'
  {
  }

  function TokenSet(s: string): set<string> {
    var pieces := Split(s, ' ');
    set i | 0 <= i < |pieces| :: pieces[i]
  }

  /** `Scope::from_str`. */
  function FromStr(s: string): Option<set<string>> {
    var pieces := Split(s, ' ');
    if forall i :: 0 <= i < |pieces| ==> IsToken(pieces[i]) then Some(TokenSet(s)) else None
  }

  ghost function Print(scope: set<string>): string { Join(Sorted(scope), " ") }

  predicate Contains(scope: set<string>, token: string) { IsToken(token) && token in scope }

  /** scope = scope-token *( SP scope-token ) */
  ghost predicate IsScope(s: string, tokens: seq<string>) {
    |tokens| >= 1 && (forall i :: 0 <= i < |tokens| ==> IsToken(tokens[i])) && s == Join(tokens, " ")
  }

  /** Parsing accepts exactly the grammar, and gives the tokens of the one way to read the text. */
  lemma AcceptsGrammar(s: string)
    ensures FromStr(s).Some? <==> exists tokens :: IsScope(s, tokens)
    ensures forall tokens :: IsScope(s, tokens) ==>
      forall t :: t in FromStr(s).value <==> t in tokens
  {
    hide IsToken;
    if FromStr(s).Some? {
      assert IsScope(s, Split(s, ' '));
    }
    forall tokens | IsScope(s, tokens)
      ensures FromStr(s).Some? && forall t :: t in FromStr(s).value <==> t in tokens
    {
      TokensHaveNoSpace(tokens);
      SplitUndoesJoin(tokens, ' ');
    }
  }

  lemma TokensHaveNoSpace(tokens: seq<string>)
    requires forall i :: 0 <= i < |tokens| ==> IsToken(tokens[i])
    ensures forall i :: 0 <= i < |tokens| ==> ' ' !in tokens[i]
  {
  }

  predicate Printable(scope: set<string>) { scope != {} && forall t :: t in scope ==> IsToken(t) }

  lemma ParsedIsPrintable(s: string)
    requires FromStr(s).Some?
    ensures Printable(FromStr(s).value)
  {
    assert Split(s, ' ')[0] in FromStr(s).value;
  }

  /** Parsing undoes printing exactly for the non-empty scopes of valid tokens. */
  lemma RoundTripIff(scope: set<string>)
    ensures FromStr(Print(scope)) == Some(scope) <==> Printable(scope)
  {
    hide IsToken;
    if Printable(scope) {
      var tokens := Sorted(scope);
      assert |tokens| >= 1;
      assert forall i :: 0 <= i < |tokens| ==> tokens[i] in scope;
      TokensHaveNoSpace(tokens);
      SplitUndoesJoin(tokens, ' ');
      assert Split(Print(scope), ' ') == tokens;
      assert TokenSet(Print(scope)) == scope;
    }
    if FromStr(Print(scope)) == Some(scope) {
      ParsedIsPrintable(Print(scope));
    }
  }

  ghost predicate SameWords(p: seq<string>, q: seq<string>) { forall t :: t in p <==> t in q }

  /** Two accepted texts print alike exactly when they have the same tokens, whatever their order
      and however often each is repeated. */
  lemma PrintsAlikeIff(a: string, b: string)
    requires FromStr(a).Some? && FromStr(b).Some?
    ensures Print(FromStr(a).value) == Print(FromStr(b).value)
       <==> SameWords(Split(a, ' '), Split(b, ' '))
  {
    hide FromStr, Print, Printable, Split;
    var x, y := FromStr(a).value, FromStr(b).value;
    ParsedIsPrintable(a);
    ParsedIsPrintable(b);
    ParsedWords(a);
    ParsedWords(b);
    RoundTripIff(x);
    RoundTripIff(y);
    assert FromStr(Print(x)) == Some(x) && FromStr(Print(y)) == Some(y);
    assert x == y <==> Print(x) == Print(y);
    SameMembers(x, Split(a, ' '), y, Split(b, ' '));
  }

  lemma SameMembers(x: set<string>, p: seq<string>, y: set<string>, q: seq<string>)
    requires (forall t :: t in x <==> t in p) && (forall t :: t in y <==> t in q)
    ensures x == y <==> SameWords(p, q)
  {
    if SameWords(p, q) {
      forall t ensures t in x <==> t in y {
        assert t in p <==> t in q;
      }
    }
  }

  lemma ParsedWords(s: string)
    requires FromStr(s).Some?
    ensures forall t :: t in FromStr(s).value <==> t in Split(s, ' ')
  {
    hide IsToken, Split;
  }

  /** In a parsed scope, `contains` finds exactly the words of the text. */
  lemma ContainsWords(s: string, token: string)
    requires FromStr(s).Some?
    ensures Contains(FromStr(s).value, token) <==> token in Split(s, ' ')
  {
    hide IsToken, FromStr, Split;
    ParsedWords(s);
    if token in Split(s, ' ') {
      ParsedIsPrintable(s);
    }
  }

  /** The tokens in `done` have been written, those in `rest` remain. */
  ghost predicate Written(scope: set<string>, done: seq<string>, rest: set<string>, text: string) {
    Sorted(scope) == done + Sorted(rest) && text == Join(done, " ")
  }

  lemma WriteNext(scope: set<string>, done: seq<string>, rest: set<string>, text: string, token: string)
    requires Written(scope, done, rest, text) && IsLeast(token, rest)
    ensures Written(scope, done + [token], rest - {token}, if done == [] then token else text + (" " + token))
  {
    hide Sorted, IsLeast, Join;
    SortedStep(rest, token);
    JoinOneMore(done, token);
    assert done + ([token] + Sorted(rest - {token})) == (done + [token]) + Sorted(rest - {token});
  }

  /** `Display`: the tokens in ascending order with a space before each but the first. */
  method Display(scope: set<string>) returns (text: string)
    ensures text == Print(scope)
  {
    NothingJoined();
    assert [] + Sorted(scope) == Sorted(scope);
    hide Sorted, Join, IsLeast;
    text := "";
    var rest, index := scope, 0;
    ghost var done: seq<string> := [];
    while rest != {}
      invariant Written(scope, done, rest, text) && index == |done|
      decreases rest
    {
      LeastExists(rest);
      var token :| IsLeast(token, rest);
      WriteNext(scope, done, rest, text, token);
      assert token in rest by { LeastIsMember(token, rest); }
      if index == 0 {
        text := token;
      } else {
        text := text + (" " + token);
      }
      done, rest, index := done + [token], rest - {token}, index + 1;
    }
    assert done + [] == done;
  }

  lemma LeastIsMember(m: string, s: set<string>)
    requires IsLeast(m, s)
    ensures m in s
  {
  }

  lemma NothingJoined()
    ensures Join<char>([], " ") == "" && Sorted({}) == []
  {
  }

  lemma JoinOneMore(done: seq<string>, token: string)
    ensures Join(done + [token], " ") == if done == [] then token else Join(done, " ") + (" " + token)
  {
    if done == [] {
      assert done + [token] == [token];
    } else {
      JoinAppend(done, [token], " ");
    }
  }
}

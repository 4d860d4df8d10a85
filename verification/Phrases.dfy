/** The command-line phrases of the server: tokens, the documented phrases and the parser
    that reads them. */
module Phrases {
  import opened Wrappers
  import opened Sequences
  import Version

  datatype Token =
    | Import | Env | From | Listen | On | Port | Help | Question | Override | Overriding | And | Existing
    | String(text: string)
    | Number(text: string)

  datatype Action =
    | ImportEnv(file: Option<string>, overrideExisting: bool)
    | ListenOn(host: Option<string>, port: Option<string>)
    | ShowHelp

  // ----- the documented phrases

  /** How an import says that existing variables are overridden, if it does. */
  datatype Style = Keep | AndOverride | SayOverriding

  datatype Phrase =
    | ImportPhrase(file: Option<string>, style: Style)
    | HostPort(host: string, port: string)
    | OnlyPort(port: string)
    | Address(addr: string, numeric: bool)
    | HelpMe
    | HelpWord
    | QuestionMark
    | WhatCanYouDo

  function Spell(p: Phrase): (tokens: seq<Token>)
    ensures tokens != []
  {
    match p
    case ImportPhrase(None, Keep) => [Import, Env]
    case ImportPhrase(None, AndOverride) => [Import, Env, And, Override, Existing]
    case ImportPhrase(None, SayOverriding) => [Import, Env, Overriding, Existing]
    case ImportPhrase(Some(f), Keep) => [Import, Env, From, String(f)]
    case ImportPhrase(Some(f), AndOverride) => [Import, Env, From, String(f), And, Override, Existing]
    case ImportPhrase(Some(f), SayOverriding) => [Import, Env, From, String(f), Overriding, Existing]
    case HostPort(host, port) => [Listen, On, String(host), Port, Number(port)]
    case OnlyPort(port) => [Listen, On, Port, Number(port)]
    case Address(addr, numeric) => [Listen, On, if numeric then Number(addr) else String(addr)]
    case HelpMe => [Help, String("me")]
    case HelpWord => [Help]
    case QuestionMark => [Question]
    case WhatCanYouDo => [String("what"), String("can"), String("you"), String("do")]
  }

  function Meaning(p: Phrase): Action {
    match p
    case ImportPhrase(file, style) => ImportEnv(file, style != Keep)
    case HostPort(host, port) => ListenOn(Some(host), Some(port))
    case OnlyPort(port) => ListenOn(None, Some(port))
    case Address(addr, numeric) =>
      (match Version.SplitOnce(addr, ':')
       case Some((host, port)) => ListenOn(Some(host), Some(port))
       case None => if numeric then ListenOn(None, Some(addr)) else ListenOn(Some(addr), None))
    case _ => ShowHelp
  }

  // ----- the parser

  predicate At(t: seq<Token>, k: nat, token: Token) { k < |t| && t[k] == token }

  predicate StringAt(t: seq<Token>, k: nat) { k < |t| && t[k].String? }

  predicate NumberAt(t: seq<Token>, k: nat) { k < |t| && t[k].Number? }

  /** The import patterns, in the order of the source. */
  function FirstImport(t: seq<Token>): Phrase
    requires At(t, 0, Import) && At(t, 1, Env)
  {
    if At(t, 2, From) && StringAt(t, 3) && At(t, 4, And) && At(t, 5, Override) && At(t, 6, Existing)
    then ImportPhrase(Some(t[3].text), AndOverride)
    else if At(t, 2, And) && At(t, 3, Override) && At(t, 4, Existing) then ImportPhrase(None, AndOverride)
    else if At(t, 2, Overriding) && At(t, 3, Existing) then ImportPhrase(None, SayOverriding)
    else if At(t, 2, From) && StringAt(t, 3) && At(t, 4, Overriding) && At(t, 5, Existing)
    then ImportPhrase(Some(t[3].text), SayOverriding)
    else if At(t, 2, From) && StringAt(t, 3) then ImportPhrase(Some(t[3].text), Keep)
    else ImportPhrase(None, Keep)
  }

  /** The listen patterns, in the order of the source. */
  function FirstListen(t: seq<Token>): Option<Phrase>
    requires At(t, 0, Listen) && At(t, 1, On)
  {
    if StringAt(t, 2) && At(t, 3, Port) && NumberAt(t, 4) then Some(HostPort(t[2].text, t[4].text))
    else if At(t, 2, Port) && NumberAt(t, 3) then Some(OnlyPort(t[3].text))
    else if StringAt(t, 2) then Some(Address(t[2].text, false))
    else if NumberAt(t, 2) then Some(Address(t[2].text, true))
    else None
  }

  /** The first pattern that matches at the start of `t`. */
  function First(t: seq<Token>): Option<Phrase> {
    if At(t, 0, Import) && At(t, 1, Env) then Some(FirstImport(t))
    else if At(t, 0, Listen) && At(t, 1, On) then FirstListen(t)
    else if At(t, 0, Help) && At(t, 1, String("me")) then Some(HelpMe)
    else if At(t, 0, Help) then Some(HelpWord)
    else if At(t, 0, Question) then Some(QuestionMark)
    else if At(t, 0, String("what")) && At(t, 1, String("can")) && At(t, 2, String("you")) && At(t, 3, String("do"))
    then Some(WhatCanYouDo)
    else None
  }

  /** No documented phrase that matches at the start of `t` is longer than `p`. */
  ghost predicate Longest(t: seq<Token>, p: Phrase) {
    Spell(p) <= t && forall q :: Spell(q) <= t ==> |Spell(q)| <= |Spell(p)|
  }

  lemma ImportMatches(t: seq<Token>)
    requires At(t, 0, Import) && At(t, 1, Env)
    ensures Spell(FirstImport(t)) <= t
  {}

  lemma FirstMatches(t: seq<Token>)
    ensures First(t).Some? ==> Spell(First(t).value) <= t
  {
    if At(t, 0, Import) && At(t, 1, Env) { ImportMatches(t); }
  }

  lemma NoImportLonger(t: seq<Token>, q: Phrase)
    requires Spell(q) <= t && q.ImportPhrase?
    ensures At(t, 0, Import) && At(t, 1, Env) && |Spell(q)| <= |Spell(FirstImport(t))|
  {
    var s := Spell(q);
    assert forall k :: 0 <= k < |s| ==> t[k] == s[k];
  }

  lemma NoneLonger(t: seq<Token>, q: Phrase)
    requires Spell(q) <= t
    ensures First(t).Some? && |Spell(q)| <= |Spell(First(t).value)|
  {
    var s := Spell(q);
    if q.ImportPhrase? {
      NoImportLonger(t, q);
    } else {
      assert forall k :: 0 <= k < |s| ==> t[k] == s[k];
    }
  }

  /** Although the patterns are tried in order, the one taken is the longest documented
      phrase that matches, and none is taken only if no documented phrase matches. */
  lemma FirstIsLongest(t: seq<Token>, p: Phrase)
    ensures First(t) == Some(p) <==> Longest(t, p)
    ensures First(t) == None <==> forall q :: !(Spell(q) <= t)
  {
    FirstMatches(t);
    forall q | Spell(q) <= t ensures First(t).Some? && |Spell(q)| <= |Spell(First(t).value)| { NoneLonger(t, q); }
    if Longest(t, p) {
      SpellInjective(t, p, First(t).value);
    }
  }

  /** Two documented phrases of one length that match at the same place are one. */
  lemma SpellInjective(t: seq<Token>, p: Phrase, q: Phrase)
    requires Spell(p) <= t && Spell(q) <= t && |Spell(p)| == |Spell(q)|
    ensures p == q
  {
    assert Spell(p) == Spell(q);
  }

  /** How far each match arm advances. */
  function Width(p: Phrase): (n: nat)
    ensures n > 0
  {
    match p
    case ImportPhrase(None, Keep) => 2
    case ImportPhrase(None, AndOverride) => 5
    case ImportPhrase(None, SayOverriding) => 4
    case ImportPhrase(Some(_), Keep) => 4
    case ImportPhrase(Some(_), AndOverride) => 7
    case ImportPhrase(Some(_), SayOverriding) => 6
    case HostPort(_, _) => 5
    case OnlyPort(_) => 4
    case Address(_, _) => 3
    case HelpMe => 2
    case HelpWord => 1
    case QuestionMark => 1
    case WhatCanYouDo => 4
  }

  /** Every arm advances by exactly the tokens of its phrase. */
  lemma WidthIsLength(p: Phrase)
    ensures Width(p) == |Spell(p)|
  {}

  lemma FirstFits(t: seq<Token>)
    ensures First(t).Some? ==> Width(First(t).value) <= |t|
  {
    FirstMatches(t);
    if First(t).Some? { WidthIsLength(First(t).value); }
  }

  /** Read phrases from left to right; a token that starts none is skipped. */
  function ParseTokens(t: seq<Token>): seq<Action>
    decreases |t|
  {
    if t == [] then []
    else
      FirstFits(t);
      match First(t)
      case None => ParseTokens(t[1..])
      case Some(p) => [Meaning(p)] + ParseTokens(t[Width(p)..])
  }

  /** One turn of the loop at position `i`. */
  lemma Turn(t: seq<Token>, i: nat, found: Option<Phrase>, done: seq<Action>, all: seq<Action>)
    requires i < |t| && found == First(t[i..]) && all == done + ParseTokens(t[i..])
    ensures found.None? ==> all == done + ParseTokens(t[i + 1..])
    ensures found.Some? ==>
              var j := i + Width(found.value);
              j <= |t| && all == done + [Meaning(found.value)] + ParseTokens(t[j..])
  {
    FirstFits(t[i..]);
    if found.None? {
      assert t[i..][1..] == t[i + 1..];
    } else {
      var j := i + Width(found.value);
      assert t[i..][Width(found.value)..] == t[j..];
      Assoc(done, [Meaning(found.value)], ParseTokens(t[j..]));
    }
  }

  /** The `match` at position `i`: what it pushes, if anything, and how far it moves. */
  method Match(tokens: seq<Token>, i: nat, done: seq<Action>, ghost all: seq<Action>) returns (actions: seq<Action>, next: nat)
    requires i < |tokens| && all == done + ParseTokens(tokens[i..])
    ensures i < next <= |tokens| && all == actions + ParseTokens(tokens[next..])
  {
    var found := First(tokens[i..]);
    Turn(tokens, i, found, done, all);
    match found
    case None => return done, i + 1;
    case Some(p) => return done + [Meaning(p)], i + Width(p);
  }

  /** `NaturalParser::parse`. */
  method Parse(tokens: seq<Token>) returns (actions: seq<Action>)
    ensures actions == ParseTokens(tokens)
  {
    actions := [];
    var i := 0;
    ghost var all := ParseTokens(tokens);
    while i < |tokens|
      invariant i <= |tokens| && all == actions + ParseTokens(tokens[i..])
    {
      actions, i := Match(tokens, i, actions, all);
    }
  }

  // ----- phrases in a row

  function SpellAll(ps: seq<Phrase>): seq<Token> {
    if ps == [] then [] else Spell(ps[0]) + SpellAll(ps[1..])
  }

  function MeaningAll(ps: seq<Phrase>): seq<Action> {
    if ps == [] then [] else [Meaning(ps[0])] + MeaningAll(ps[1..])
  }

  /** What a further phrase can start with; none of these continues a phrase. */
  predicate Fresh(t: seq<Token>) {
    t == [] || t[0] in {Import, Listen, Help, Question, String("what")}
  }

  lemma FreshAll(ps: seq<Phrase>)
    ensures Fresh(SpellAll(ps))
  {
    if ps != [] { assert SpellAll(ps)[0] == Spell(ps[0])[0]; }
  }

  lemma FirstImportOfSpell(p: Phrase, rest: seq<Token>)
    requires p.ImportPhrase? && Fresh(rest)
    ensures First(Spell(p) + rest) == Some(p)
  {
    var s, t := Spell(p), Spell(p) + rest;
    assert forall k :: 0 <= k < |s| ==> t[k] == s[k];
    assert rest != [] ==> t[|s|] == rest[0];
  }

  lemma FirstOfSpell(p: Phrase, rest: seq<Token>)
    requires Fresh(rest)
    ensures First(Spell(p) + rest) == Some(p)
  {
    var s, t := Spell(p), Spell(p) + rest;
    if p.ImportPhrase? {
      FirstImportOfSpell(p, rest);
    } else {
      assert forall k :: 0 <= k < |s| ==> t[k] == s[k];
      assert rest != [] ==> t[|s|] == rest[0];
    }
  }

  /** Any documented phrases, one after the other and in any order, are read back as
      themselves: longest match never joins two of them. */
  lemma {:induction false} PhrasesAreRead(ps: seq<Phrase>)
    ensures ParseTokens(SpellAll(ps)) == MeaningAll(ps)
    decreases |ps|
  {
    if ps == [] {
    } else {
      var s, rest := Spell(ps[0]), SpellAll(ps[1..]);
      FreshAll(ps[1..]);
      FirstOfSpell(ps[0], rest);
      WidthIsLength(ps[0]);
      assert (s + rest)[|s|..] == rest;
      PhrasesAreRead(ps[1..]);
    }
  }
}

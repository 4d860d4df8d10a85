/** Command lines: arguments, their words, the tokens they become, and the actions that
    can be written down. */
module CommandLine {
  import opened Wrappers
  import opened Sequences
  import opened Words
  import opened Phrases
  import Version

  // ----- words to tokens

  function Tokenize(word: string): Token {
    if word == "import" then Import
    else if word == "env" then Env
    else if word == "from" then From
    else if word == "listen" then Listen
    else if word == "on" then On
    else if word == "port" then Port
    else if word == "help" then Help
    else if word == "?" then Question
    else if word == "override" then Override
    else if word == "overriding" then Overriding
    else if word == "and" then And
    else if word == "existing" then Existing
    else if Version.ParseU16(word).Some? then Number(word)
    else String(word)
  }

  function Tokens(words: seq<string>): (t: seq<Token>)
    ensures |t| == |words| && forall i :: 0 <= i < |t| ==> t[i] == Tokenize(words[i])
  {
    if words == [] then [] else [Tokenize(words[0])] + Tokens(words[1..])
  }

  lemma TokensConcat(a: seq<string>, b: seq<string>)
    ensures Tokens(a + b) == Tokens(a) + Tokens(b)
  {}

  lemma TokensSnoc(words: seq<string>, j: nat)
    requires j < |words|
    ensures Tokens(words[..j + 1]) == Tokens(words[..j]) + [Tokenize(words[j])]
  {
    assert words[..j + 1] == words[..j] + [words[j]];
    TokensConcat(words[..j], [words[j]]);
  }

  /** The loop over the words of one argument. */
  method PushWords(before: seq<Token>, words: seq<string>) returns (tokens: seq<Token>)
    ensures tokens == before + Tokens(words)
  {
    tokens := before;
    for j := 0 to |words|
      invariant tokens == before + Tokens(words[..j])
    {
      TokensSnoc(words, j);
      Assoc(before, Tokens(words[..j]), [Tokenize(words[j])]);
      tokens := tokens + [Tokenize(words[j])];
    }
    assert words[..|words|] == words;
  }

  /** `NaturalParser::from_args`. */
  method FromArgs(args: seq<string>) returns (tokens: seq<Token>)
    ensures tokens == Tokens(WordsOf(args))
  {
    tokens := [];
    assert args[..0] == [];
    for i := 0 to |args|
      invariant tokens == Tokens(WordsOf(args[..i]))
    {
      tokens := PushWords(tokens, SplitWords(args[i]));
      WordsSnoc(args, i);
      TokensConcat(WordsOf(args[..i]), SplitWords(args[i]));
    }
    assert args[..|args|] == args;
  }

  /** A word that is not a keyword, and a word that is a port number. */
  predicate PlainWord(w: string) { IsWord(w) && Tokenize(w) == String(w) }

  predicate NumberWord(w: string) { IsWord(w) && Tokenize(w) == Number(w) }

  /** What the command line means. */
  function Read(args: seq<string>): seq<Action> { ParseTokens(Tokens(WordsOf(args))) }

  // ----- actions that can be written down

  predicate Printable(a: Action) {
    match a
    case ImportEnv(file, _) => file.None? || PlainWord(file.value)
    case ListenOn(None, None) => false
    case ListenOn(None, Some(port)) => NumberWord(port)
    case ListenOn(Some(host), None) => PlainWord(host) && ':' !in host
    case ListenOn(Some(host), Some(port)) => Solid(host) && if ':' in host then NumberWord(port) else Solid(port)
    case ShowHelp => true
  }

  function Canonical(a: Action): Phrase
    requires Printable(a)
  {
    match a
    case ImportEnv(file, overrideExisting) => ImportPhrase(file, if overrideExisting then AndOverride else Keep)
    case ListenOn(None, Some(port)) => OnlyPort(port)
    case ListenOn(Some(host), None) => Address(host, false)
    case ListenOn(Some(host), Some(port)) =>
      if ':' !in host then Address(host + ":" + port, false) else HostPort(host, port)
    case ShowHelp => HelpWord
  }

  function Word(t: Token): string {
    match t
    case Import => "import" case Env => "env" case From => "from" case Listen => "listen"
    case On => "on" case Port => "port" case Help => "help" case Question => "?"
    case Override => "override" case Overriding => "overriding" case And => "and" case Existing => "existing"
    case String(text) => text
    case Number(text) => text
  }

  function WordsFor(tokens: seq<Token>): (words: seq<string>)
    ensures |words| == |tokens| && forall i :: 0 <= i < |words| ==> words[i] == Word(tokens[i])
  {
    if tokens == [] then [] else [Word(tokens[0])] + WordsFor(tokens[1..])
  }

  function Phrasing(actions: seq<Action>): seq<Phrase>
    requires forall a :: a in actions ==> Printable(a)
  {
    if actions == [] then [] else [Canonical(actions[0])] + Phrasing(actions[1..])
  }

  /** The words of the command line for a list of actions. */
  function Render(actions: seq<Action>): seq<string>
    requires forall a :: a in actions ==> Printable(a)
  {
    WordsFor(SpellAll(Phrasing(actions)))
  }

  /** A token that words can produce. */
  predicate Genuine(t: Token) {
    match t
    case String(text) => PlainWord(text)
    case Number(text) => NumberWord(text)
    case _ => true
  }

  lemma GenuineToken(t: Token)
    requires Genuine(t)
    ensures Tokenize(Word(t)) == t
  {}

  lemma KeywordIsWord(t: Token)
    requires !t.String? && !t.Number?
    ensures IsWord(Word(t))
  {}

  lemma TokenizeGenuine(w: string)
    requires IsWord(w)
    ensures Genuine(Tokenize(w))
  {}

  lemma ColonPlain(w: string)
    requires ':' in w && Solid(w)
    ensures PlainWord(w)
  {
    assert ':' !in "import" && ':' !in "env" && ':' !in "from" && ':' !in "listen" && ':' !in "on" && ':' !in "port";
    assert ':' !in "help" && ':' !in "?" && ':' !in "override" && ':' !in "overriding" && ':' !in "and" && ':' !in "existing";
    ColonNotNumber(w);
  }

  lemma ColonNotNumber(w: string)
    requires ':' in w
    ensures Version.ParseU16(w).None?
  {
    var i :| 0 <= i < |w| && w[i] == ':';
    if w[0] == '+' { assert w[1..][i - 1] == ':'; }
  }

  ghost predicate AllGenuine(t: seq<Token>) { forall i :: 0 <= i < |t| ==> Genuine(t[i]) }

  lemma CanonicalMeans(a: Action)
    requires Printable(a)
    ensures Meaning(Canonical(a)) == a
  {
    match a
    case ListenOn(Some(host), None) => Version.SplitOnceAbsent(host, ':');
    case ListenOn(Some(host), Some(port)) => if ':' !in host { Version.SplitOnceAt(host, ':', port); }
    case _ =>
  }

  /** The words filled in for host, port and file are not keywords, and ports are numbers. */
  predicate Fillable(p: Phrase) {
    match p
    case ImportPhrase(file, _) => file.None? || PlainWord(file.value)
    case HostPort(host, port) => PlainWord(host) && NumberWord(port)
    case OnlyPort(port) => NumberWord(port)
    case Address(addr, numeric) => if numeric then NumberWord(addr) else PlainWord(addr)
    case _ => true
  }

  lemma VocabularyPlain(w: string)
    requires w in {"me", "what", "can", "you", "do"}
    ensures PlainWord(w)
  {
    assert !Version.IsDigit(w[0]) && w[0] != '+' && IsWord(w);
  }

  lemma HelpGenuine(p: Phrase)
    requires p.HelpMe? || p.WhatCanYouDo?
    ensures AllGenuine(Spell(p))
  {
    forall i | 0 <= i < |Spell(p)| ensures Genuine(Spell(p)[i]) {
      if Spell(p)[i].String? { VocabularyPlain(Spell(p)[i].text); }
    }
  }

  lemma FilledGenuine(t: seq<Token>, j: nat, k: nat)
    requires j < |t| && k < |t| && forall i :: 0 <= i < |t| && i != j && i != k ==> !t[i].String? && !t[i].Number?
    ensures AllGenuine(t) <==> Genuine(t[j]) && Genuine(t[k])
  {}

  /** Exactly the phrases filled in that way survive being written as words. */
  lemma FillableGenuine(p: Phrase)
    ensures AllGenuine(Spell(p)) <==> Fillable(p)
  {
    var t := Spell(p);
    match p
    case ImportPhrase(file, _) => if file.Some? { FilledGenuine(t, 3, 3); }
    case HostPort(_, _) => FilledGenuine(t, 2, 4);
    case OnlyPort(_) => FilledGenuine(t, 3, 3);
    case Address(_, _) => FilledGenuine(t, 2, 2);
    case HelpMe => HelpGenuine(p);
    case WhatCanYouDo => HelpGenuine(p);
    case _ =>
  }

  lemma CanonicalFillable(a: Action)
    requires Printable(a)
    ensures Fillable(Canonical(a))
  {
    if a.ListenOn? && a.host.Some? && a.port.Some? {
      if ':' in a.host.value {
        ColonPlain(a.host.value);
      } else {
        var addr := a.host.value + ":" + a.port.value;
        assert addr[|a.host.value|] == ':' && Solid(addr);
        ColonPlain(addr);
      }
    }
  }

  lemma {:induction false} PhrasingMeans(actions: seq<Action>)
    requires forall a :: a in actions ==> Printable(a)
    ensures MeaningAll(Phrasing(actions)) == actions
    ensures AllGenuine(SpellAll(Phrasing(actions)))
  {
    if actions == [] {
    } else {
      CanonicalMeans(actions[0]);
      CanonicalFillable(actions[0]);
      FillableGenuine(Canonical(actions[0]));
      PhrasingMeans(actions[1..]);
      var ps := Phrasing(actions);
      assert ps[1..] == Phrasing(actions[1..]);
      assert SpellAll(ps) == Spell(ps[0]) + SpellAll(ps[1..]);
      assert actions == [actions[0]] + actions[1..];
    }
  }

  lemma WordsTokens(t: seq<Token>)
    requires AllGenuine(t)
    ensures Tokens(WordsFor(t)) == t
  {
    forall i | 0 <= i < |t| ensures Tokens(WordsFor(t))[i] == t[i] { GenuineToken(t[i]); }
  }

  lemma WordsGenuine(t: seq<Token>)
    requires AllGenuine(t)
    ensures AllWords(WordsFor(t))
  {
    forall i | 0 <= i < |t| ensures IsWord(WordsFor(t)[i]) {
      if !t[i].String? && !t[i].Number? { KeywordIsWord(t[i]); }
    }
  }

  /** Any list of printable actions, written as a command line, is read back, whether
      the words are given one by one or as one argument. */
  lemma PrintThenRead(actions: seq<Action>)
    requires forall a :: a in actions ==> Printable(a)
    ensures Read([Join(Render(actions))]) == actions
    ensures Read(Render(actions)) == actions
  {
    var t := SpellAll(Phrasing(actions));
    PhrasingMeans(actions);
    WordsGenuine(t);
    InOneArgument(WordsFor(t));
    OneByOne(WordsFor(t));
    WordsTokens(t);
    PhrasesAreRead(Phrasing(actions));
  }

  lemma MeaningPrintable(p: Phrase)
    requires Fillable(p)
    ensures Printable(Meaning(p))
  {}

  lemma FirstPrintable(t: seq<Token>, p: Phrase)
    requires AllGenuine(t) && First(t) == Some(p)
    ensures Width(p) <= |t| && Printable(Meaning(p))
  {
    FirstFits(t);
    FirstMatches(t);
    GenuinePrefix(Spell(p), t);
    FillableGenuine(p);
    MeaningPrintable(p);
  }

  lemma GenuinePrefix(s: seq<Token>, t: seq<Token>)
    requires s <= t && AllGenuine(t)
    ensures AllGenuine(s)
  {
    forall i | 0 <= i < |s| ensures Genuine(s[i]) { assert s[i] == t[i]; }
  }

  lemma GenuineRest(t: seq<Token>, n: nat)
    requires n <= |t| && AllGenuine(t)
    ensures AllGenuine(t[n..])
  {}

  lemma {:induction false} ParsedPrintable(t: seq<Token>)
    requires AllGenuine(t)
    ensures forall a :: a in ParseTokens(t) ==> Printable(a)
    decreases |t|
  {
    if t == [] {
    } else {
      match First(t)
      case None =>
        GenuineRest(t, 1);
        ParsedPrintable(t[1..]);
      case Some(p) =>
        FirstPrintable(t, p);
        GenuineRest(t, Width(p));
        ParsedPrintable(t[Width(p)..]);
    }
  }

  /** Every command line can be rewritten as the canonical one of its actions without
      changing what it means. */
  lemma ReadIsPrintable(args: seq<string>)
    ensures forall a :: a in Read(args) ==> Printable(a)
    ensures Read([Join(Render(Read(args)))]) == Read(args)
  {
    var words := WordsOf(args);
    var t := Tokens(words);
    WordsAreWords(args);
    forall i | 0 <= i < |t| ensures Genuine(t[i]) { TokenizeGenuine(words[i]); }
    ParsedPrintable(t);
    PrintThenRead(Read(args));
  }

  /** The printable actions are exactly those some command line produces. */
  lemma PrintableExactly(a: Action)
    ensures Printable(a) <==> exists args :: a in Read(args)
  {
    if Printable(a) {
      PrintThenRead([a]);
      assert a in Read(Render([a]));
    }
    forall args | a in Read(args) ensures Printable(a) { ReadIsPrintable(args); }
  }
}

/** The command lines of the help text, word for word, and what each of them does. */
module DocumentedCommands {
  import opened Wrappers
  import opened Words
  import opened Phrases
  import opened CommandLine
  import opened VersionErrors
  import Version

  const KEYWORDS: set<string> :=
    {"import", "env", "from", "listen", "on", "port", "help", "?", "override", "overriding", "and", "existing"}

  /** A word free to name a file or a host: no keyword and no number. */
  ghost predicate Free(w: string) { IsWord(w) && w !in KEYWORDS && !IsNumeral(w) }

  /** Keywords aside, the numerals of 16 bits are the numbers and all else is text. */
  lemma TokenizeExactly(w: string)
    ensures Tokenize(w) == Number(w) <==> w !in KEYWORDS && IsNumeral(w)
    ensures Tokenize(w) == String(w) <==> w !in KEYWORDS && !IsNumeral(w)
  {
    NumeralExactly(w);
  }

  lemma KeywordNoNumeral(w: string)
    requires w in KEYWORDS
    ensures !IsNumeral(w)
  {
    assert w != "" && !Version.IsDigit(w[0]) && w[0] != '+';
  }

  lemma FreeIsPlain(w: string)
    ensures PlainWord(w) <==> Free(w)
    ensures NumberWord(w) <==> IsWord(w) && IsNumeral(w)
  {
    TokenizeExactly(w);
    if w in KEYWORDS { KeywordNoNumeral(w); }
  }

  // ----- the lines of the help text

  /** Import from the default file. */
  predicate DefaultLine(words: seq<string>, action: Action) {
    action.ImportEnv? && action.file.None? &&
    if action.overrideExisting then
      || words == ["import", "env", "and", "override", "existing"]
      || words == ["import", "env", "overriding", "existing"]
    else words == ["import", "env"]
  }

  /** Import from a file. */
  ghost predicate FileLine(words: seq<string>, action: Action) {
    action.ImportEnv? && action.file.Some? && Free(action.file.value) &&
    var file := action.file.value;
    if action.overrideExisting then
      || words == ["import", "env", "from", file, "and", "override", "existing"]
      || words == ["import", "env", "from", file, "overriding", "existing"]
    else words == ["import", "env", "from", file]
  }

  /** Listen on a host, on a port or on both. */
  ghost predicate ListenLine(words: seq<string>, action: Action) {
    action.ListenOn? &&
    match (action.host, action.port)
    case (Some(host), Some(port)) =>
      || (words == ["listen", "on", host, "port", port] && Free(host) && IsWord(port) && IsNumeral(port))
      || (words == ["listen", "on", host + ":" + port] && Solid(host) && ':' !in host && Solid(port))
    case (None, Some(port)) =>
      (words == ["listen", "on", "port", port] || words == ["listen", "on", port]) && IsWord(port) && IsNumeral(port)
    case (Some(host), None) => words == ["listen", "on", host] && Free(host) && ':' !in host
    case (None, None) => false
  }

  predicate HelpLine(words: seq<string>, action: Action) {
    action == ShowHelp &&
    (words == ["help"] || words == ["help", "me"] || words == ["?"] || words == ["what", "can", "you", "do"])
  }

  /** A line of the help text with its placeholders filled in, and what it announces. */
  ghost predicate Documented(words: seq<string>, action: Action) {
    DefaultLine(words, action) || FileLine(words, action) || ListenLine(words, action) || HelpLine(words, action)
  }

  predicate Spelled(t: seq<Token>, words: seq<string>) {
    |words| == |t| && forall i :: 0 <= i < |t| ==> words[i] == Word(t[i])
  }

  predicate Says(p: Phrase, words: seq<string>, action: Action) {
    Fillable(p) && Spelled(Spell(p), words) && action == Meaning(p)
  }

  lemma DefaultSpelled(style: Style)
    ensures Spelled(Spell(ImportPhrase(None, style)),
                    match style
                    case Keep => ["import", "env"]
                    case AndOverride => ["import", "env", "and", "override", "existing"]
                    case SayOverriding => ["import", "env", "overriding", "existing"])
  {
    match style
    case Keep =>
    case AndOverride =>
    case SayOverriding =>
  }

  lemma DefaultSays(words: seq<string>, action: Action) returns (p: Phrase)
    requires DefaultLine(words, action)
    ensures Says(p, words, action)
  {
    var style := if |words| == 2 then Keep else if |words| == 5 then AndOverride else SayOverriding;
    DefaultSpelled(style);
    p := ImportPhrase(None, style);
  }

  lemma FileSpelled(file: string, style: Style)
    ensures Spelled(Spell(ImportPhrase(Some(file), style)),
                    match style
                    case Keep => ["import", "env", "from", file]
                    case AndOverride => ["import", "env", "from", file, "and", "override", "existing"]
                    case SayOverriding => ["import", "env", "from", file, "overriding", "existing"])
  {
    match style
    case Keep =>
    case AndOverride =>
    case SayOverriding =>
  }

  lemma FileSays(words: seq<string>, action: Action) returns (p: Phrase)
    requires FileLine(words, action)
    ensures Says(p, words, action)
  {
    FreeIsPlain(action.file.value);
    var style := if |words| == 4 then Keep else if |words| == 7 then AndOverride else SayOverriding;
    FileSpelled(action.file.value, style);
    p := ImportPhrase(action.file, style);
  }

  lemma NumeralNoColon(port: string)
    requires IsNumeral(port)
    ensures ':' !in port
  {
    NumeralExactly(port);
    if ':' in port { ColonNotNumber(port); }
  }

  lemma AddressIsPlain(host: string, port: string)
    requires Solid(host) && Solid(port)
    ensures PlainWord(host + ":" + port)
  {
    var addr := host + ":" + port;
    assert addr[|host|] == ':' && Solid(addr);
    ColonPlain(addr);
  }

  lemma AddressSays(host: string, port: string) returns (p: Phrase)
    requires Solid(host) && ':' !in host && Solid(port)
    ensures Says(p, ["listen", "on", host + ":" + port], ListenOn(Some(host), Some(port)))
  {
    AddressIsPlain(host, port);
    Version.SplitOnceAt(host, ':', port);
    p := Address(host + ":" + port, false);
  }

  lemma HostPortSays(host: string, port: string) returns (p: Phrase)
    requires Free(host) && IsWord(port) && IsNumeral(port)
    ensures Says(p, ["listen", "on", host, "port", port], ListenOn(Some(host), Some(port)))
  {
    FreeIsPlain(host);
    FreeIsPlain(port);
    p := HostPort(host, port);
  }

  lemma PortSays(port: string) returns (p: Phrase)
    requires IsWord(port) && IsNumeral(port)
    ensures Says(p, ["listen", "on", "port", port], ListenOn(None, Some(port)))
  {
    FreeIsPlain(port);
    p := OnlyPort(port);
  }

  lemma BarePortSays(port: string) returns (p: Phrase)
    requires IsWord(port) && IsNumeral(port)
    ensures Says(p, ["listen", "on", port], ListenOn(None, Some(port)))
  {
    FreeIsPlain(port);
    NumeralNoColon(port);
    Version.SplitOnceAbsent(port, ':');
    p := Address(port, true);
  }

  lemma HostSays(host: string) returns (p: Phrase)
    requires Free(host) && ':' !in host
    ensures Says(p, ["listen", "on", host], ListenOn(Some(host), None))
  {
    FreeIsPlain(host);
    Version.SplitOnceAbsent(host, ':');
    p := Address(host, false);
  }

  lemma ListenSays(words: seq<string>, action: Action) returns (p: Phrase)
    requires ListenLine(words, action)
    ensures Says(p, words, action)
  {
    if action.host.None? && |words| == 3 {
      p := BarePortSays(action.port.value);
    } else if action.host.None? {
      p := PortSays(action.port.value);
    } else if action.port.None? {
      p := HostSays(action.host.value);
    } else if |words| == 3 {
      p := AddressSays(action.host.value, action.port.value);
    } else {
      p := HostPortSays(action.host.value, action.port.value);
    }
  }

  lemma HelpSays(words: seq<string>, action: Action) returns (p: Phrase)
    requires HelpLine(words, action)
    ensures Says(p, words, action)
  {
    if words == ["help"] {
      p := HelpWord;
    } else if |words| == 1 {
      p := QuestionMark;
    } else if |words| == 2 {
      p := HelpMe;
    } else {
      p := WhatCanYouDo;
    }
  }

  lemma OnePhrase(p: Phrase)
    ensures SpellAll([p]) == Spell(p) && MeaningAll([p]) == [Meaning(p)]
  {
    assert [p][1..] == [];
    assert SpellAll([]) == [] && MeaningAll([]) == [];
  }

  lemma ReadsAs(p: Phrase, words: seq<string>, action: Action)
    requires Says(p, words, action)
    ensures Read(words) == [action]
  {
    assert words == WordsFor(Spell(p));
    OnePhrase(p);
    FillableGenuine(p);
    WordsGenuine(Spell(p));
    OneByOne(words);
    WordsTokens(Spell(p));
    PhrasesAreRead([p]);
  }

  /** Every line of the help text does what it announces, whatever file, host and port
      are filled in. */
  lemma HelpTextIsTrue(words: seq<string>, action: Action)
    requires Documented(words, action)
    ensures Read(words) == [action]
  {
    var p;
    if DefaultLine(words, action) {
      p := DefaultSays(words, action);
    } else if FileLine(words, action) {
      p := FileSays(words, action);
    } else if ListenLine(words, action) {
      p := ListenSays(words, action);
    } else {
      p := HelpSays(words, action);
    }
    ReadsAs(p, words, action);
  }

  // ----- white space

  const WHITE: set<char> := {
    '\U{0009}', '\U{000A}', '\U{000B}', '\U{000C}', '\U{000D}', ' ', '\U{0085}', '\U{00A0}', '\U{1680}',
    '\U{2000}', '\U{2001}', '\U{2002}', '\U{2003}', '\U{2004}', '\U{2005}', '\U{2006}', '\U{2007}', '\U{2008}',
    '\U{2009}', '\U{200A}', '\U{2028}', '\U{2029}', '\U{202F}', '\U{205F}', '\U{3000}'}

  /** Words are separated at exactly the White_Space characters of Unicode. */
  lemma WhiteExactly(c: char)
    ensures IsWhite(c) <==> c in WHITE
  {
    if IsWhite(c) {
      assert c == c as int as char;
    }
  }
}

/** Splitting text at white space, and joining words with single spaces. */
module Words {
  import opened Sequences

  /** `char::is_whitespace`: the characters with the Unicode property White_Space. */
  predicate IsWhite(c: char) {
    var n := c as int;
    || 0x09 <= n <= 0x0D || n == 0x20 || n == 0x85 || n == 0xA0 || n == 0x1680 || 0x2000 <= n <= 0x200A
    || n == 0x2028 || n == 0x2029 || n == 0x202F || n == 0x205F || n == 0x3000
  }

  predicate Solid(s: string) { forall i :: 0 <= i < |s| ==> !IsWhite(s[i]) }

  predicate IsWord(w: string) { w != "" && Solid(w) }

  predicate AllWords(words: seq<string>) { forall i :: 0 <= i < |words| ==> IsWord(words[i]) }

  /** The length of the stretch without white space at the start. */
  function SolidLength(s: string): (n: nat)
    ensures n <= |s| && Solid(s[..n]) && (n < |s| ==> IsWhite(s[n]))
  {
    if s == "" || IsWhite(s[0]) then 0
    else
      var n := 1 + SolidLength(s[1..]);
      assert s[..n] == [s[0]] + s[1..][..n - 1];
      n
  }

  /** `split_whitespace`. */
  function SplitWords(s: string): seq<string>
    decreases |s|
  {
    if s == "" then []
    else if IsWhite(s[0]) then SplitWords(s[1..])
    else
      var n := SolidLength(s);
      [s[..n]] + SplitWords(s[n..])
  }

  /** Only words come out. */
  lemma {:induction false} SplitIntoWords(s: string)
    ensures AllWords(SplitWords(s))
    decreases |s|
  {
    if s == "" {
    } else if IsWhite(s[0]) {
      SplitIntoWords(s[1..]);
    } else {
      SplitIntoWords(s[SolidLength(s)..]);
    }
  }

  /** The text without its white space. */
  function Squeezed(s: string): string {
    if s == "" then "" else if IsWhite(s[0]) then Squeezed(s[1..]) else [s[0]] + Squeezed(s[1..])
  }

  lemma {:induction false} SqueezedSolid(w: string, t: string)
    requires Solid(w)
    ensures Squeezed(w + t) == w + Squeezed(t)
    decreases |w|
  {
    if w == "" {
      assert w + t == t;
    } else {
      assert (w + t)[1..] == w[1..] + t;
      SqueezedSolid(w[1..], t);
      Assoc([w[0]], w[1..], Squeezed(t));
    }
  }

  /** Nothing but white space is dropped, and nothing changes places. */
  lemma {:induction false} SplitKeepsText(s: string)
    ensures Concat(SplitWords(s)) == Squeezed(s)
    decreases |s|
  {
    if s == "" {
    } else if IsWhite(s[0]) {
      SplitKeepsText(s[1..]);
    } else {
      var n := SolidLength(s);
      SplitKeepsText(s[n..]);
      assert s == s[..n] + s[n..];
      SqueezedSolid(s[..n], s[n..]);
    }
  }

  // ----- joining

  function Join(words: seq<string>): string {
    if words == [] then "" else if |words| == 1 then words[0] else words[0] + " " + Join(words[1..])
  }

  lemma {:induction false} SolidLengthIs(w: string, t: string)
    requires Solid(w) && (t == "" || IsWhite(t[0]))
    ensures SolidLength(w + t) == |w|
    decreases |w|
  {
    if w == "" {
      assert w + t == t;
    } else {
      assert (w + t)[1..] == w[1..] + t;
      SolidLengthIs(w[1..], t);
    }
  }

  lemma SplitOff(w: string, t: string)
    requires IsWord(w) && (t == "" || IsWhite(t[0]))
    ensures SplitWords(w + t) == [w] + SplitWords(t)
  {
    SolidLengthIs(w, t);
    assert (w + t)[..|w|] == w && (w + t)[|w|..] == t;
    assert (w + t)[0] == w[0];
  }

  lemma SplitWord(w: string)
    requires IsWord(w)
    ensures SplitWords(w) == [w]
  {
    SplitOff(w, "");
    assert w + "" == w;
  }

  /** Words joined with spaces are split into themselves. */
  lemma {:induction false} SplitJoined(words: seq<string>)
    requires AllWords(words)
    ensures SplitWords(Join(words)) == words
    decreases |words|
  {
    if words == [] {
    } else if |words| == 1 {
      SplitWord(words[0]);
    } else {
      var w, rest := words[0], " " + Join(words[1..]);
      SplitJoined(words[1..]);
      assert Join(words) == w + rest;
      SplitOff(w, rest);
      assert rest[1..] == Join(words[1..]);
    }
  }

  // ----- several arguments

  function SplitAll(args: seq<string>): (r: seq<seq<string>>)
    ensures |r| == |args|
  {
    if args == [] then [] else [SplitWords(args[0])] + SplitAll(args[1..])
  }

  /** Every word of every argument, in order. */
  function WordsOf(args: seq<string>): seq<string> { Concat(SplitAll(args)) }

  lemma {:induction false} WordsAreWords(args: seq<string>)
    ensures AllWords(WordsOf(args))
    decreases |args|
  {
    if args == [] {
    } else {
      SplitIntoWords(args[0]);
      WordsAreWords(args[1..]);
    }
  }

  /** Words given one by one, or joined into one argument, are the same words. */
  lemma {:induction false} OneByOne(words: seq<string>)
    requires AllWords(words)
    ensures WordsOf(words) == words
    decreases |words|
  {
    if words == [] {
    } else {
      SplitWord(words[0]);
      OneByOne(words[1..]);
      assert words == [words[0]] + words[1..];
    }
  }

  lemma InOneArgument(words: seq<string>)
    requires AllWords(words)
    ensures WordsOf([Join(words)]) == words
  {
    SplitJoined(words);
    assert SplitAll([Join(words)]) == [words];
    assert Concat([words]) == words + Concat([]);
  }

  lemma {:induction false} WordsSnoc(args: seq<string>, i: nat)
    requires i < |args|
    ensures WordsOf(args[..i + 1]) == WordsOf(args[..i]) + SplitWords(args[i])
    decreases i
  {
    if i == 0 {
      assert args[..1] == [args[0]] && args[..0] == [];
      assert SplitAll([args[0]]) == [SplitWords(args[0])];
    } else {
      WordsSnoc(args[1..], i - 1);
      assert args[..i + 1][1..] == args[1..][..i] && args[..i][1..] == args[1..][..i - 1];
      Assoc(SplitWords(args[0]), WordsOf(args[1..][..i - 1]), SplitWords(args[i]));
    }
  }
}

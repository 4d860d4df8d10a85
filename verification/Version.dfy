/** Version numbers such as 0.4.0-pre.6+build.8: printing, parsing and the grammar
    that connects the two. */
module Version {
  import opened Wrappers

  type u16 = x: int | 0 <= x < 0x1_0000

  datatype ReleaseStage = Release | Preview(version: u16, build: Option<u16>)

  datatype Version = Version(major: u16, minor: u16, patch: u16, stage: ReleaseStage)

  datatype ParseError = InvalidFormat | InvalidNumber | InvalidPreRelease | InvalidBuild

  // ----- decimal numbers

  predicate IsDigit(c: char) { '0' <= c <= '9' }

  function DigitValue(c: char): nat
    requires IsDigit(c)
  {
    c as int - '0' as int
  }

  function DigitChar(d: nat): (c: char)
    requires d < 10
    ensures IsDigit(c) && DigitValue(c) == d
  {
    '0' + d as char
  }

  predicate AllDigits(s: string) { forall i :: 0 <= i < |s| ==> IsDigit(s[i]) }

  function ValueOf(s: string): nat
    requires AllDigits(s)
  {
    if s == "" then 0 else 10 * ValueOf(s[..|s| - 1]) + DigitValue(s[|s| - 1])
  }

  /** `Display` of an unsigned integer. */
  function Print(n: nat): (s: string)
    ensures s != "" && AllDigits(s) && ValueOf(s) == n
    ensures |s| > 1 ==> s[0] != '0'
  {
    if n < 10 then [DigitChar(n)]
    else
      var init := Print(n / 10);
      var s := init + [DigitChar(n % 10)];
      assert s[..|s| - 1] == init;
      s
  }

  /** The printed form is the only one without a leading zero. */
  lemma {:induction false} PrintUnique(t: string)
    requires t != "" && AllDigits(t) && (|t| > 1 ==> t[0] != '0')
    ensures Print(ValueOf(t)) == t
    decreases |t|
  {
    var init, d := t[..|t| - 1], DigitValue(t[|t| - 1]);
    if init == "" {
      assert t == [t[0]];
    } else {
      PrintUnique(init);
      assert Print(ValueOf(init)) == init && init[0] != '0';
      assert ValueOf(t) / 10 == ValueOf(init) && ValueOf(t) % 10 == d;
      assert ValueOf(init) != 0;
      assert t == init + [t[|t| - 1]];
    }
  }

  /** `str::parse::<u16>`: an optional plus sign, then at least one digit, and no
      overflow. */
  function ParseU16(s: string): Option<u16> {
    var digits := if s != "" && s[0] == '+' then s[1..] else s;
    if digits == "" || !AllDigits(digits) || ValueOf(digits) >= 0x1_0000 then None else Some(ValueOf(digits))
  }

  // ----- splitting

  function IndexOf(s: string, c: char): (i: nat)
    ensures i <= |s| && c !in s[..i] && (i < |s| ==> s[i] == c)
  {
    if s == "" || s[0] == c then 0 else
      var i := 1 + IndexOf(s[1..], c);
      assert s[..i] == [s[0]] + s[1..][..i - 1];
      i
  }

  /** `split_once`. */
  function SplitOnce(s: string, c: char): (r: Option<(string, string)>)
    ensures r.None? ==> c !in s
    ensures r.Some? ==> c !in r.value.0 && s == r.value.0 + [c] + r.value.1
  {
    var i := IndexOf(s, c);
    assert i == |s| ==> s[..i] == s;
    if i == |s| then None else Some((s[..i], s[i + 1..]))
  }

  /** `split`. */
  function Split(s: string, c: char): (pieces: seq<string>)
    ensures pieces != []
    decreases |s|
  {
    match SplitOnce(s, c)
    case None => [s]
    case Some((a, b)) => [a] + Split(b, c)
  }

  /** `strip_prefix`. */
  function StripPrefix(s: string, prefix: string): (r: Option<string>)
    ensures r.Some? ==> s == prefix + r.value
    ensures r.None? ==> forall x :: s != prefix + x
  {
    if prefix <= s then Some(s[|prefix|..]) else None
  }

  const PRE: string := "pre."
  const BUILD: string := "build."

  // ----- printing

  function PrintStage(stage: ReleaseStage): string {
    match stage
    case Release => ""
    case Preview(v, None) => "-pre." + Print(v)
    case Preview(v, Some(b)) => "-pre." + Print(v) + "+build." + Print(b)
  }

  function PrintVersion(v: Version): string {
    Print(v.major) + "." + Print(v.minor) + "." + Print(v.patch) + PrintStage(v.stage)
  }

  // ----- parsing

  /** The build number, after the plus sign. */
  function ParseBuild(part: string): Result<u16, ParseError> {
    match StripPrefix(part, BUILD)
    case None => Err(InvalidBuild)
    case Some(num) =>
      match ParseU16(num)
      case None => Err(InvalidBuild)
      case Some(build) => Ok(build)
  }

  /** What follows "pre.". */
  function ParsePreview(afterPre: string): Result<ReleaseStage, ParseError> {
    var (versionStr, buildStr) :=
      match SplitOnce(afterPre, '+') case Some((v, b)) => (v, Some(b)) case None => (afterPre, None);
    match ParseU16(versionStr)
    case None => Err(InvalidPreRelease)
    case Some(version) =>
      match buildStr
      case None => Ok(Preview(version, None))
      case Some(part) =>
        match ParseBuild(part)
        case Err(e) => Err(e)
        case Ok(build) => Ok(Preview(version, Some(build)))
  }

  /** `parse_extension`. */
  function ParseExtension(s: string): Result<ReleaseStage, ParseError> {
    match StripPrefix(s, PRE)
    case None => Err(InvalidPreRelease)
    case Some(afterPre) => ParsePreview(afterPre)
  }

  /** The numbers before the extension: a bad number among the first three pieces is
      reported before a wrong number of pieces. */
  function ParseBase(pieces: seq<string>): Result<(u16, u16, u16), ParseError> {
    if exists i :: 0 <= i < |pieces| && i < 3 && ParseU16(pieces[i]).None? then Err(InvalidNumber)
    else if |pieces| != 3 then Err(InvalidFormat)
    else Ok((ParseU16(pieces[0]).value, ParseU16(pieces[1]).value, ParseU16(pieces[2]).value))
  }

  function Parse(s: string): Result<Version, ParseError> {
    var (base, extension) := match SplitOnce(s, '-') case Some((b, e)) => (b, Some(e)) case None => (s, None);
    match ParseBase(Split(base, '.'))
    case Err(e) => Err(e)
    case Ok((major, minor, patch)) =>
      match extension
      case None => Ok(Version(major, minor, patch, Release))
      case Some(ext) =>
        match ParseExtension(ext)
        case Err(e) => Err(e)
        case Ok(stage) => Ok(Version(major, minor, patch, stage))
  }

  /** The loop of `from_str` that fills the array of parts. */
  method ParseParts(pieces: seq<string>) returns (r: Result<(u16, u16, u16), ParseError>)
    ensures r == ParseBase(pieces)
  {
    var parts := new u16[3](_ => 0);
    var parsedCount := 0;
    for i := 0 to |pieces|
      invariant parsedCount == i <= 3
      invariant forall k :: 0 <= k < i ==> ParseU16(pieces[k]) == Some(parts[k])
    {
      if i >= parts.Length {
        return Err(InvalidFormat);
      }
      var n := ParseU16(pieces[i]);
      if n.None? {
        return Err(InvalidNumber);
      }
      parts[i] := n.value;
      parsedCount := parsedCount + 1;
    }
    if parsedCount != 3 {
      return Err(InvalidFormat);
    }
    return Ok((parts[0], parts[1], parts[2]));
  }

  /** `FromStr for Version`. */
  method FromStr(s: string) returns (r: Result<Version, ParseError>)
    ensures r == Parse(s)
  {
    var split := SplitOnce(s, '-');
    var parts := ParseParts(Split(if split.Some? then split.value.0 else s, '.'));
    if parts.Err? {
      return Err(parts.error);
    }
    var (major, minor, patch) := parts.value;
    if split.None? {
      return Ok(Version(major, minor, patch, Release));
    }
    var stage := ParseExtension(split.value.1);
    if stage.Err? {
      return Err(stage.error);
    }
    return Ok(Version(major, minor, patch, stage.value));
  }

  // ----- the grammar, stated without reference to the parser

  predicate Digits(t: string, n: u16) { t != "" && AllDigits(t) && ValueOf(t) == n }

  predicate Numeral(t: string, n: u16) { Digits(t, n) || (t != "" && t[0] == '+' && Digits(t[1..], n)) }

  /** The pre-release number takes no plus sign, because a plus sign starts the build. */
  ghost predicate StageDenotes(e: string, stage: ReleaseStage) {
    match stage
    case Release => e == ""
    case Preview(v, None) => exists x :: e == "-" + ("pre." + x) && Digits(x, v)
    case Preview(v, Some(b)) =>
      exists x, y :: e == "-" + ("pre." + (x + "+" + ("build." + y))) && Digits(x, v) && Numeral(y, b)
  }

  ghost predicate BaseDenotes(base: string, major: u16, minor: u16, patch: u16) {
    exists a, b, c ::
      base == a + "." + (b + "." + c) && Numeral(a, major) && Numeral(b, minor) && Numeral(c, patch)
  }

  ghost predicate Denotes(s: string, v: Version) {
    exists base, e :: s == base + e && BaseDenotes(base, v.major, v.minor, v.patch) && StageDenotes(e, v.stage)
  }

  lemma NumeralParses(t: string, n: u16)
    ensures ParseU16(t) == Some(n) <==> Numeral(t, n)
  {
    if t != "" && t[0] == '+' { assert !IsDigit(t[0]); }
  }

  lemma NumeralChars(t: string, n: u16)
    requires Numeral(t, n)
    ensures '.' !in t && '-' !in t
    ensures Digits(t, n) ==> '+' !in t
  {
    assert forall i :: 0 < i < |t| ==> t[1..][i - 1] == t[i];
  }

  lemma SplitOnceAt(a: string, c: char, b: string)
    requires c !in a
    ensures SplitOnce(a + [c] + b, c) == Some((a, b))
  {
    var s := a + [c] + b;
    var (x, y) := SplitOnce(s, c).value;
    assert s[|a|] == c && s[|x|] == c;
    assert forall i :: 0 <= i < |a| ==> s[i] == a[i];
    assert forall i :: 0 <= i < |x| ==> s[i] == x[i];
    assert |a| == |x|;
    assert x == s[..|a|] == a && y == s[|a| + 1..] == b;
  }

  lemma SplitOnceAbsent(s: string, c: char)
    requires c !in s
    ensures SplitOnce(s, c) == None
  {
    assert forall i :: 0 <= i < |s| ==> s[i] != c;
  }

  // ----- the extension

  lemma PlusFree(t: string, n: u16)
    requires Numeral(t, n) && '+' !in t
    ensures Digits(t, n)
  {}

  lemma BuildParses(part: string, n: u16)
    ensures ParseBuild(part) == Ok(n) <==> exists y :: part == BUILD + y && Numeral(y, n)
  {
    var r := StripPrefix(part, BUILD);
    if r.Some? { NumeralParses(r.value, n); }
    forall y | part == BUILD + y ensures r == Some(y) {
      assert r.Some?;
      assert y == part[|BUILD|..] == r.value;
    }
  }

  lemma PreviewSound(after: string, stage: ReleaseStage)
    requires ParsePreview(after) == Ok(stage)
    ensures stage.Preview?
    ensures stage.build.None? ==> Digits(after, stage.version)
    ensures stage.build.Some? ==>
              exists x, y :: after == x + "+" + (BUILD + y) && Digits(x, stage.version) && Numeral(y, stage.build.value)
  {
    match SplitOnce(after, '+')
    case None =>
      NumeralParses(after, stage.version);
      PlusFree(after, stage.version);
    case Some((x, part)) =>
      NumeralParses(x, stage.version);
      PlusFree(x, stage.version);
      BuildParses(part, stage.build.value);
      var y :| part == BUILD + y && Numeral(y, stage.build.value);
      assert after == x + "+" + (BUILD + y);
  }

  lemma PreviewRelease(after: string, v: u16)
    requires Digits(after, v)
    ensures ParsePreview(after) == Ok(Preview(v, None))
  {
    NumeralChars(after, v);
    SplitOnceAbsent(after, '+');
    NumeralParses(after, v);
  }

  lemma PreviewBuild(x: string, y: string, v: u16, b: u16)
    requires Digits(x, v) && Numeral(y, b)
    ensures ParsePreview(x + "+" + (BUILD + y)) == Ok(Preview(v, Some(b)))
  {
    NumeralChars(x, v);
    SplitOnceAt(x, '+', BUILD + y);
    NumeralParses(x, v);
    BuildParses(BUILD + y, b);
  }

  lemma Strips(s: string, prefix: string, x: string)
    requires s == prefix + x
    ensures StripPrefix(s, prefix) == Some(x)
  {
    assert s[|prefix|..] == x;
  }

  lemma Uncons(a: string, b: string)
    requires "-" + a == "-" + b
    ensures a == b
  {
    assert ("-" + a)[1..] == a && ("-" + b)[1..] == b;
  }

  /** Exactly the texts of the grammar parse as an extension. */
  lemma ExtensionParses(ext: string, stage: ReleaseStage)
    ensures ParseExtension(ext) == Ok(stage) <==> stage.Preview? && StageDenotes("-" + ext, stage)
  {
    if ParseExtension(ext) == Ok(stage) {
      PreviewSound(StripPrefix(ext, PRE).value, stage);
    }
    if stage.Preview? && StageDenotes("-" + ext, stage) {
      if stage.build.None? {
        var x :| "-" + ext == "-" + (PRE + x) && Digits(x, stage.version);
        Uncons(ext, PRE + x);
        Strips(ext, PRE, x);
        PreviewRelease(x, stage.version);
      } else {
        var x, y :| "-" + ext == "-" + (PRE + (x + "+" + (BUILD + y))) &&
                    Digits(x, stage.version) && Numeral(y, stage.build.value);
        Uncons(ext, PRE + (x + "+" + (BUILD + y)));
        Strips(ext, PRE, x + "+" + (BUILD + y));
        PreviewBuild(x, y, stage.version, stage.build.value);
      }
    }
  }

  // ----- the numbers before the extension

  lemma SplitAfter(a: string, c: char, rest: string)
    requires c !in a
    ensures Split(a + [c] + rest, c) == [a] + Split(rest, c)
  {
    SplitOnceAt(a, c, rest);
  }

  lemma SplitThree(a: string, b: string, c: string)
    requires '.' !in a && '.' !in b && '.' !in c
    ensures Split(a + "." + (b + "." + c), '.') == [a, b, c]
  {
    SplitAfter(a, '.', b + "." + c);
    SplitAfter(b, '.', c);
    SplitOnceAbsent(c, '.');
  }

  lemma DashFree(a: string, b: string, c: string)
    requires '-' !in a && '-' !in b && '-' !in c
    ensures '-' !in a + "." + (b + "." + c)
  {}

  lemma JoinThree(base: string)
    requires |Split(base, '.')| == 3
    ensures var p := Split(base, '.'); base == p[0] + "." + (p[1] + "." + p[2])
  {
    var (a, rest) := SplitOnce(base, '.').value;
    var (b, last) := SplitOnce(rest, '.').value;
    assert Split(last, '.') == [last];
  }

  lemma BaseSound(base: string, major: u16, minor: u16, patch: u16)
    requires ParseBase(Split(base, '.')) == Ok((major, minor, patch))
    ensures BaseDenotes(base, major, minor, patch)
  {
    var p := Split(base, '.');
    PiecesParse(p, major, minor, patch);
    JoinThree(base);
    assert base == p[0] + "." + (p[1] + "." + p[2]);
  }

  lemma PiecesParse(p: seq<string>, major: u16, minor: u16, patch: u16)
    ensures ParseBase(p) == Ok((major, minor, patch)) <==>
            |p| == 3 && Numeral(p[0], major) && Numeral(p[1], minor) && Numeral(p[2], patch)
  {
    if |p| == 3 {
      NumeralParses(p[0], major);
      NumeralParses(p[1], minor);
      NumeralParses(p[2], patch);
    }
  }

  lemma BaseComplete(base: string, major: u16, minor: u16, patch: u16)
    requires BaseDenotes(base, major, minor, patch)
    ensures ParseBase(Split(base, '.')) == Ok((major, minor, patch))
    ensures '-' !in base
  {
    var a, b, c :| base == a + "." + (b + "." + c) && Numeral(a, major) && Numeral(b, minor) && Numeral(c, patch);
    NumeralChars(a, major);
    NumeralChars(b, minor);
    NumeralChars(c, patch);
    SplitThree(a, b, c);
    PiecesParse([a, b, c], major, minor, patch);
    DashFree(a, b, c);
  }

  // ----- whole versions

  lemma StageStarts(e: string, stage: ReleaseStage) returns (ext: string)
    requires StageDenotes(e, stage) && stage.Preview?
    ensures e == "-" + ext
  {
    if stage.build.None? {
      var x :| e == "-" + (PRE + x) && Digits(x, stage.version);
      ext := PRE + x;
    } else {
      var x, y :| e == "-" + (PRE + (x + "+" + (BUILD + y))) && Digits(x, stage.version) && Numeral(y, stage.build.value);
      ext := PRE + (x + "+" + (BUILD + y));
    }
  }

  lemma Compose(base: string, e: string, s: string, v: Version)
    requires s == base + e && BaseDenotes(base, v.major, v.minor, v.patch) && StageDenotes(e, v.stage)
    ensures Denotes(s, v)
  {}

  lemma ParseSound(s: string, v: Version)
    requires Parse(s) == Ok(v)
    ensures Denotes(s, v)
  {
    match SplitOnce(s, '-')
    case None =>
      BaseSound(s, v.major, v.minor, v.patch);
      Compose(s, "", s, v);
    case Some((base, ext)) =>
      BaseSound(base, v.major, v.minor, v.patch);
      ExtensionParses(ext, v.stage);
      Join(base, "-", ext);
      Compose(base, "-" + ext, s, v);
  }

  lemma Join(a: string, b: string, c: string)
    ensures a + b + c == a + (b + c)
  {}

  lemma ParseRelease(s: string, v: Version)
    requires BaseDenotes(s, v.major, v.minor, v.patch) && v.stage.Release?
    ensures Parse(s) == Ok(v)
  {
    BaseComplete(s, v.major, v.minor, v.patch);
    SplitOnceAbsent(s, '-');
  }

  lemma ParseStaged(base: string, ext: string, v: Version)
    requires BaseDenotes(base, v.major, v.minor, v.patch) && ParseExtension(ext) == Ok(v.stage)
    ensures Parse(base + "-" + ext) == Ok(v)
  {
    BaseComplete(base, v.major, v.minor, v.patch);
    SplitOnceAt(base, '-', ext);
  }

  lemma ParseComplete(s: string, v: Version)
    requires Denotes(s, v)
    ensures Parse(s) == Ok(v)
  {
    var base, e :| s == base + e && BaseDenotes(base, v.major, v.minor, v.patch) && StageDenotes(e, v.stage);
    if v.stage.Release? {
      assert s == base;
      ParseRelease(s, v);
    } else {
      var ext := StageStarts(e, v.stage);
      ExtensionParses(ext, v.stage);
      Join(base, "-", ext);
      ParseStaged(base, ext, v);
    }
  }

  /** The parser accepts exactly the grammar, with the grammar's meaning. */
  lemma ParseIsGrammar(s: string, v: Version)
    ensures Parse(s) == Ok(v) <==> Denotes(s, v)
  {
    if Parse(s) == Ok(v) { ParseSound(s, v); }
    if Denotes(s, v) { ParseComplete(s, v); }
  }

  /** The grammar gives a text one meaning at most. */
  lemma GrammarUnambiguous(s: string, v: Version, w: Version)
    requires Denotes(s, v) && Denotes(s, w)
    ensures v == w
  {
    ParseComplete(s, v);
    ParseComplete(s, w);
  }

  lemma PrintedStage(stage: ReleaseStage)
    ensures StageDenotes(PrintStage(stage), stage)
  {
    match stage
    case Release =>
    case Preview(v, None) =>
      assert "-pre." + Print(v) == "-" + (PRE + Print(v));
    case Preview(v, Some(b)) =>
      assert "-pre." == "-" + PRE && "+build." == "+" + BUILD;
      Regroup("-", PRE, Print(v), "+", BUILD, Print(b));
      assert PrintStage(stage) == "-" + (PRE + (Print(v) + "+" + (BUILD + Print(b))));
  }

  lemma Regroup(a: string, b: string, c: string, d: string, e: string, f: string)
    ensures a + b + c + (d + e) + f == a + (b + (c + d + (e + f)))
  {}

  lemma Regroup3(a: string, b: string, c: string, d: string, e: string)
    ensures a + b + c + d + e == a + b + (c + d + e)
  {}

  /** Every version printed parses back to itself. */
  lemma RoundTrip(v: Version)
    ensures Parse(PrintVersion(v)) == Ok(v)
  {
    var a, b, c := Print(v.major), Print(v.minor), Print(v.patch);
    Regroup3(a, ".", b, ".", c);
    var base := a + "." + (b + "." + c);
    assert Numeral(a, v.major) && Numeral(b, v.minor) && Numeral(c, v.patch);
    PrintedStage(v.stage);
    Compose(base, PrintStage(v.stage), PrintVersion(v), v);
    ParseComplete(PrintVersion(v), v);
  }

  /** Different versions never print the same text. */
  lemma PrintInjective(v: Version, w: Version)
    ensures PrintVersion(v) == PrintVersion(w) <==> v == w
  {
    RoundTrip(v);
    RoundTrip(w);
  }

  /** A parsed text is normalised by printing: leading zeros and plus signs are the
      only things lost. */
  lemma Normalises(s: string, v: Version)
    requires Parse(s) == Ok(v)
    ensures Parse(PrintVersion(v)) == Parse(s)
    ensures forall w :: Denotes(s, w) <==> w == v
  {
    RoundTrip(v);
    forall w ensures Denotes(s, w) <==> w == v { ParseIsGrammar(s, w); }
  }
}

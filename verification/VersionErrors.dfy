/** Which error the version parser reports, for every text it refuses. */
module VersionErrors {
  import opened Wrappers
  import opened Version

  ghost predicate IsNumeral(t: string) { exists n: u16 :: Numeral(t, n) }

  ghost predicate IsDigits(t: string) { exists n: u16 :: Digits(t, n) }

  lemma NumeralExactly(t: string)
    ensures ParseU16(t).Some? <==> IsNumeral(t)
  {
    if ParseU16(t).Some? { NumeralParses(t, ParseU16(t).value); }
    if IsNumeral(t) {
      var n: u16 :| Numeral(t, n);
      NumeralParses(t, n);
    }
  }

  lemma PlusFreeExactly(t: string)
    ensures '+' !in t && IsNumeral(t) <==> IsDigits(t)
  {
    if '+' !in t && IsNumeral(t) {
      var n: u16 :| Numeral(t, n);
      PlusFree(t, n);
    }
    if IsDigits(t) {
      var n: u16 :| Digits(t, n);
      NumeralChars(t, n);
      assert Numeral(t, n);
    }
  }

  // ----- any text as dotted pieces and an optional extension

  function Dotted(pieces: seq<string>): string
    requires pieces != []
  {
    if |pieces| == 1 then pieces[0] else pieces[0] + "." + Dotted(pieces[1..])
  }

  predicate Pieces(p: seq<string>) {
    p != [] && forall i :: 0 <= i < |p| ==> '.' !in p[i] && '-' !in p[i]
  }

  predicate Extension(e: string) { e == "" || e[0] == '-' }

  lemma {:induction false} SplitDotted(p: seq<string>)
    requires Pieces(p)
    ensures Split(Dotted(p), '.') == p && '-' !in Dotted(p)
    decreases |p|
  {
    if |p| == 1 {
      SplitOnceAbsent(p[0], '.');
    } else {
      SplitDotted(p[1..]);
      SplitAfter(p[0], '.', Dotted(p[1..]));
      assert p == [p[0]] + p[1..];
    }
  }

  lemma {:induction false} DottedSplit(s: string)
    requires '-' !in s
    ensures Pieces(Split(s, '.')) && Dotted(Split(s, '.')) == s
    decreases |s|
  {
    match SplitOnce(s, '.')
    case None =>
    case Some((a, b)) =>
      assert forall i :: 0 <= i < |a| ==> s[i] == a[i];
      assert forall i :: 0 <= i < |b| ==> s[|a| + 1 + i] == b[i];
      DottedSplit(b);
      assert Split(s, '.')[1..] == Split(b, '.');
  }

  /** The conditions below cover every text. */
  lemma EveryText(s: string) returns (p: seq<string>, e: string)
    ensures Pieces(p) && Extension(e) && s == Dotted(p) + e
  {
    match SplitOnce(s, '-')
    case None =>
      DottedSplit(s);
      p, e := Split(s, '.'), "";
    case Some((base, ext)) =>
      DottedSplit(base);
      p, e := Split(base, '.'), "-" + ext;
      Join(base, "-", ext);
  }

  // ----- the numbers

  ghost predicate BadPiece(p: seq<string>) { exists i :: 0 <= i < |p| && i < 3 && !IsNumeral(p[i]) }

  lemma BaseErrors(p: seq<string>)
    ensures ParseBase(p) == Err(InvalidNumber) <==> BadPiece(p)
    ensures ParseBase(p) == Err(InvalidFormat) <==> !BadPiece(p) && |p| != 3
    ensures ParseBase(p).Ok? <==> !BadPiece(p) && |p| == 3
  {
    forall i | 0 <= i < |p| ensures ParseU16(p[i]).None? <==> !IsNumeral(p[i]) { NumeralExactly(p[i]); }
  }

  lemma BaseFirst(p: seq<string>, e: string)
    requires Pieces(p) && Extension(e)
    ensures ParseBase(p).Err? ==> Parse(Dotted(p) + e) == Err(ParseBase(p).error)
    ensures ParseBase(p).Ok? && e == "" ==> Parse(Dotted(p) + e).Ok?
    ensures ParseBase(p).Ok? && e != "" && ParseExtension(e[1..]).Ok? ==> Parse(Dotted(p) + e).Ok?
    ensures ParseBase(p).Ok? && e != "" && ParseExtension(e[1..]).Err? ==>
              Parse(Dotted(p) + e) == Err(ParseExtension(e[1..]).error)
  {
    SplitDotted(p);
    var s := Dotted(p) + e;
    if e == "" {
      assert s == Dotted(p);
      SplitOnceAbsent(s, '-');
    } else {
      assert s == Dotted(p) + "-" + e[1..];
      SplitOnceAt(Dotted(p), '-', e[1..]);
    }
  }

  lemma ExtensionErrorKinds(ext: string)
    ensures ParseExtension(ext).Err? ==> ParseExtension(ext).error in {InvalidPreRelease, InvalidBuild}
  {}

  /** A number is reported as invalid exactly if one of the first three pieces is no
      numeral of 16 bits, whatever follows. */
  lemma InvalidNumberExactly(p: seq<string>, e: string)
    requires Pieces(p) && Extension(e)
    ensures Parse(Dotted(p) + e) == Err(InvalidNumber) <==> BadPiece(p)
  {
    BaseErrors(p);
    BaseFirst(p, e);
    if e != "" { ExtensionErrorKinds(e[1..]); }
  }

  /** The format is reported as invalid exactly if the first pieces are numerals and
      there are not three of them. */
  lemma InvalidFormatExactly(p: seq<string>, e: string)
    requires Pieces(p) && Extension(e)
    ensures Parse(Dotted(p) + e) == Err(InvalidFormat) <==> !BadPiece(p) && |p| != 3
  {
    BaseErrors(p);
    BaseFirst(p, e);
    if e != "" { ExtensionErrorKinds(e[1..]); }
  }

  // ----- the extension

  ghost predicate HasPreRelease(ext: string) {
    exists x, rest :: ext == "pre." + (x + rest) && IsDigits(x) && (rest == "" || rest[0] == '+')
  }

  ghost predicate HasBuild(part: string) { exists y :: part == "build." + y && IsNumeral(y) }

  ghost predicate BadBuild(ext: string) {
    exists x, part :: ext == "pre." + (x + "+" + part) && IsDigits(x) && !HasBuild(part)
  }

  lemma BuildExactly(part: string)
    ensures ParseBuild(part).Ok? <==> HasBuild(part)
    ensures ParseBuild(part).Err? ==> ParseBuild(part).error == InvalidBuild
  {
    if ParseBuild(part).Ok? {
      var n := ParseBuild(part).value;
      BuildParses(part, n);
      var y :| part == BUILD + y && Numeral(y, n);
      assert part == "build." + y && IsNumeral(y);
    }
    if HasBuild(part) {
      var y :| part == "build." + y && IsNumeral(y);
      var n: u16 :| Numeral(y, n);
      assert part == BUILD + y;
      BuildParses(part, n);
    }
  }

  lemma DigitsPlusFree(x: string)
    requires IsDigits(x)
    ensures '+' !in x && ParseU16(x).Some?
  {
    PlusFreeExactly(x);
    NumeralExactly(x);
  }

  /** The pre-release number is the text up to the plus sign, if there is one. */
  function Number(after: string): string {
    match SplitOnce(after, '+') case None => after case Some((v, _)) => v
  }

  function Rest(after: string): (r: string)
    ensures after == Number(after) + r && (r == "" || r[0] == '+')
  {
    match SplitOnce(after, '+')
    case None => ""
    case Some((v, b)) =>
      Join(v, "+", b);
      "+" + b
  }

  lemma NumberIs(x: string, rest: string)
    requires '+' !in x && (rest == "" || rest[0] == '+')
    ensures Number(x + rest) == x && Rest(x + rest) == rest
  {
    if rest == "" {
      assert x + rest == x;
      SplitOnceAbsent(x, '+');
    } else {
      assert x + rest == x + "+" + rest[1..];
      SplitOnceAt(x, '+', rest[1..]);
    }
  }

  lemma NumberExactly(after: string)
    ensures ParseU16(Number(after)).Some? <==> IsDigits(Number(after))
  {
    NumeralExactly(Number(after));
    PlusFreeExactly(Number(after));
    if SplitOnce(after, '+').None? { assert Number(after) == after; }
  }

  lemma PreviewErrors(after: string)
    ensures ParsePreview(after) == Err(InvalidPreRelease) <==> !IsDigits(Number(after))
    ensures ParsePreview(after) == Err(InvalidBuild) <==>
            IsDigits(Number(after)) && Rest(after) != "" && !HasBuild(Rest(after)[1..])
  {
    NumberExactly(after);
    if Rest(after) != "" { BuildExactly(Rest(after)[1..]); }
  }

  lemma PreReleaseOf(after: string)
    ensures HasPreRelease("pre." + after) <==> IsDigits(Number(after))
  {
    var ext := "pre." + after;
    if IsDigits(Number(after)) {
      assert ext == "pre." + (Number(after) + Rest(after));
    }
    if HasPreRelease(ext) {
      var x, rest :| ext == "pre." + (x + rest) && IsDigits(x) && (rest == "" || rest[0] == '+');
      assert after == ext[4..] == x + rest;
      DigitsPlusFree(x);
      NumberIs(x, rest);
    }
  }

  lemma BuildOf(after: string)
    ensures BadBuild("pre." + after) <==>
            IsDigits(Number(after)) && Rest(after) != "" && !HasBuild(Rest(after)[1..])
  {
    var ext := "pre." + after;
    if IsDigits(Number(after)) && Rest(after) != "" && !HasBuild(Rest(after)[1..]) {
      var part := Rest(after)[1..];
      assert Rest(after) == "+" + part;
      Join(Number(after), "+", part);
      assert ext == "pre." + (Number(after) + "+" + part);
    }
    if BadBuild(ext) {
      var x, part :| ext == "pre." + (x + "+" + part) && IsDigits(x) && !HasBuild(part);
      assert after == ext[4..] == x + "+" + part;
      Join(x, "+", part);
      DigitsPlusFree(x);
      NumberIs(x, "+" + part);
      assert Rest(after)[1..] == part;
    }
  }

  lemma ExtensionErrors(ext: string)
    ensures ParseExtension(ext) == Err(InvalidPreRelease) <==> !HasPreRelease(ext)
    ensures ParseExtension(ext) == Err(InvalidBuild) <==> BadBuild(ext)
  {
    match StripPrefix(ext, PRE)
    case None =>
      forall x: string ensures ext != "pre." + x {}
    case Some(after) =>
      assert ext == "pre." + after;
      PreviewErrors(after);
      PreReleaseOf(after);
      BuildOf(after);
  }

  /** The pre-release is reported exactly if the three numbers are fine and the
      extension does not start with "pre." and digits up to its end or a plus sign. */
  lemma InvalidPreReleaseExactly(p: seq<string>, e: string)
    requires Pieces(p) && Extension(e)
    ensures Parse(Dotted(p) + e) == Err(InvalidPreRelease) <==>
            !BadPiece(p) && |p| == 3 && e != "" && !HasPreRelease(e[1..])
  {
    BaseErrors(p);
    BaseFirst(p, e);
    if e != "" { ExtensionErrors(e[1..]); }
  }

  /** The build is reported exactly if everything before the plus sign is fine and what
      follows it is not "build." and a numeral. */
  lemma InvalidBuildExactly(p: seq<string>, e: string)
    requires Pieces(p) && Extension(e)
    ensures Parse(Dotted(p) + e) == Err(InvalidBuild) <==>
            !BadPiece(p) && |p| == 3 && e != "" && BadBuild(e[1..])
  {
    BaseErrors(p);
    BaseFirst(p, e);
    if e != "" { ExtensionErrors(e[1..]); }
  }
}

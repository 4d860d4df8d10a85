/** Web references shown as text. */
module WebReferences {
  import opened Wrappers
  import opened Sequences
  import opened StreamMessages
  import Version

  /** The numbered lines, counting from `n`. */
  function Lines(refs: seq<WebRef>, n: nat): string
    decreases |refs|
  {
    if refs == [] then ""
    else Version.Print(n) + ". [" + refs[0].title + "](" + refs[0].url + ")\n" + Lines(refs[1..], n + 1)
  }

  /** `convert_web_ref_to_content`, when it is asked for. */
  function Shown(web: bool, m: Message): Message {
    if !web || !m.WebReference? then m
    else if m.refs == [] then Content("")
    else Content("WebReferences:\n" + Lines(m.refs, 1) + "\n")
  }

  // ----- line by line

  /** The line of a reference, counted from one. */
  function Line(r: WebRef, n: nat): string { Version.Print(n) + ". [" + r.title + "](" + r.url + ")" }

  predicate OneLine(r: WebRef) { '\n' !in r.title && '\n' !in r.url }

  lemma LineHasNoBreak(r: WebRef, n: nat)
    requires OneLine(r)
    ensures '\n' !in Line(r, n)
  {
    var s := Version.Print(n);
    assert forall i :: 0 <= i < |s| ==> Version.IsDigit(s[i]);
    assert '\n' !in s;
  }

  lemma LinesCons(refs: seq<WebRef>, n: nat)
    requires refs != []
    ensures Lines(refs, n) == Line(refs[0], n) + "\n" + Lines(refs[1..], n + 1)
  {
    assert ")\n" == ")" + "\n";
    Regroup(Version.Print(n) + ". [" + refs[0].title + "](" + refs[0].url, ")", "\n");
  }

  lemma Regroup(a: string, b: string, c: string)
    ensures a + (b + c) == a + b + c
  {}

  function LineList(refs: seq<WebRef>, n: nat): seq<string> {
    if refs == [] then [] else [Line(refs[0], n)] + LineList(refs[1..], n + 1)
  }

  lemma {:induction false} LineAt(refs: seq<WebRef>, n: nat, i: nat)
    requires i < |refs|
    ensures |LineList(refs, n)| == |refs| && LineList(refs, n)[i] == Line(refs[i], n + i)
    decreases |refs|
  {
    if |refs| == 1 {
      assert LineList(refs[1..], n + 1) == [];
    } else {
      LineAt(refs[1..], n + 1, if i == 0 then 0 else i - 1);
    }
  }

  predicate OneLineEach(refs: seq<WebRef>) { forall i :: 0 <= i < |refs| ==> OneLine(refs[i]) }

  lemma SplitLine(line: string, rest: string)
    requires '\n' !in line
    ensures Version.Split(line + "\n" + rest + "\n", '\n') == [line] + Version.Split(rest + "\n", '\n')
  {
    assert line + "\n" + rest + "\n" == line + "\n" + (rest + "\n");
    Version.SplitAfter(line, '\n', rest + "\n");
  }

  /** The lines, followed by a last break, split into themselves and two empty pieces. */
  lemma {:induction false} LinesSplit(refs: seq<WebRef>, n: nat)
    requires OneLineEach(refs)
    ensures Version.Split(Lines(refs, n) + "\n", '\n') == LineList(refs, n) + ["", ""]
    decreases |refs|
  {
    if refs == [] {
      assert Lines(refs, n) + "\n" == "" + "\n" + "";
      Version.SplitAfter("", '\n', "");
      Version.SplitOnceAbsent("", '\n');
    } else {
      LinesCons(refs, n);
      LineHasNoBreak(refs[0], n);
      SplitLine(Line(refs[0], n), Lines(refs[1..], n + 1));
      LinesSplit(refs[1..], n + 1);
      Assoc([Line(refs[0], n)], LineList(refs[1..], n + 1), ["", ""]);
    }
  }

  lemma ShownSplit(refs: seq<WebRef>)
    requires refs != [] && OneLineEach(refs)
    ensures Version.Split(Shown(true, WebReference(refs)).text, '\n') == ["WebReferences:"] + (LineList(refs, 1) + ["", ""])
  {
    var head := "WebReferences:";
    assert "WebReferences:\n" == head + "\n" && '\n' !in head;
    SplitLine(head, Lines(refs, 1));
    LinesSplit(refs, 1);
  }

  /** A reference per line, in order and numbered from one, after a heading. */
  lemma ShownLineByLine(refs: seq<WebRef>, i: nat)
    requires i < |refs| && OneLineEach(refs)
    ensures Shown(true, WebReference(refs)).Content?
    ensures var pieces := Version.Split(Shown(true, WebReference(refs)).text, '\n');
            && |pieces| == |refs| + 3 && pieces[0] == "WebReferences:"
            && pieces[i + 1] == Version.Print(i + 1) + ". [" + refs[i].title + "](" + refs[i].url + ")"
            && pieces[|refs| + 1] == "" && pieces[|refs| + 2] == ""
  {
    ShownSplit(refs);
    LineAt(refs, 1, i);
  }

  /** Nothing else is touched. */
  lemma ShownOtherwise(web: bool, m: Message)
    ensures !web || !m.WebReference? ==> Shown(web, m) == m
    ensures web && m.WebReference? ==> Shown(web, m).Content? && (Shown(web, m).text == "" <==> m.refs == [])
  {}
}

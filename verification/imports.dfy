/**
 Import extraction, `parse` in CodeExtract.py (lines 31-50): every stripped
 line is either an explicit `import flare...` statement, whose path is taken
 by slicing, or is scanned for the bare names of the sibling modules as raw
 substrings. The module's own name is never reported.
 */
module Imports {
  import opened Text

  const ImportToken := "import flare"

  /** Line 38: `line.startswith('import flare')`, whatever follows. */
  function IsExplicitImport(line: string): (r: bool)
    ensures r <==> exists rest :: ImportToken + rest == line
  {
    if StartsWith(line, ImportToken) then
      assert ImportToken + line[|ImportToken|..] == line;
      true
    else
      NotStartsWith(line, ImportToken);
      false
  }

  /** Line 39: `line[7:len(line)-1]`, the text after `import ` with the last
      character (normally the `;`) cut off. */
  function ExplicitTarget(line: string): (t: string)
    requires IsExplicitImport(line)
    ensures |line| > 12 ==> StartsWith(t, "flare")
    ensures "import " + t + [line[|line| - 1]] == line
  {
    assert line[..12] == ImportToken;
    assert line[..7] == "import ";
    assert |line| > 12 ==> line[7..|line| - 1][..5] == line[7..12] == "flare";
    line[7..|line| - 1]
  }

  /** Line 44: the qualified name synthesised for a sibling `sib`. */
  function SiblingName(prefix: string, sib: string): string {
    prefix + "." + sib
  }

  /** The names a non-import line yields for the sibling keys `sibs`
      (lines 43-46). */
  function SiblingMatches(prefix: string, name: string, line: string, sibs: set<string>): set<string> {
    set sib | sib in sibs && Find(line, sib) >= 0 && SiblingName(prefix, sib) != name
      :: SiblingName(prefix, sib)
  }

  /** What one stripped line adds to the import set (lines 38-46): never the
      module's own name, in either branch. */
  function LineImports(prefix: string, name: string, line: string, sibs: set<string>): (r: set<string>)
    ensures name !in r
  {
    if IsExplicitImport(line) then
      (if ExplicitTarget(line) != name then {ExplicitTarget(line)} else {})
    else SiblingMatches(prefix, name, line, sibs)
  }

  /** Line 37 applied to every line of the file. */
  function StripAll(lines: seq<string>): (r: seq<string>)
    ensures |r| == |lines|
    ensures forall i :: 0 <= i < |lines| ==> r[i] == Strip(lines[i])
  {
    seq(|lines|, i requires 0 <= i < |lines| => Strip(lines[i]))
  }

  /** The union of the contributions of the stripped lines `ls`, read first
      to last. */
  function LinesImports(prefix: string, name: string, ls: seq<string>, sibs: set<string>): (r: set<string>)
    ensures name !in r
  {
    if |ls| == 0 then {}
    else LinesImports(prefix, name, ls[..|ls| - 1], sibs) + LineImports(prefix, name, ls[|ls| - 1], sibs)
  }

  /** The import set after the lines `lines` have been read (lines 35-46).
      Self-exclusion: a module never imports itself, whether an explicit
      import or a substring match would name it. */
  function ImportsOf(prefix: string, name: string, lines: seq<string>, sibs: set<string>): (r: set<string>)
    ensures name !in r
  {
    LinesImports(prefix, name, StripAll(lines), sibs)
  }

  lemma {:induction false} LinesImportsMembers(prefix: string, name: string, ls: seq<string>, sibs: set<string>, x: string)
    ensures x in LinesImports(prefix, name, ls, sibs)
            <==> exists i :: 0 <= i < |ls| && x in LineImports(prefix, name, ls[i], sibs)
    decreases |ls|
  {
    if |ls| > 0 {
      var init := ls[..|ls| - 1];
      LinesImportsMembers(prefix, name, init, sibs, x);
      assert forall i :: 0 <= i < |init| ==> ls[i] == init[i];
    }
  }

  lemma {:induction false} LinesImportsAppend(prefix: string, name: string, a: seq<string>, b: seq<string>, sibs: set<string>)
    ensures LinesImports(prefix, name, a + b, sibs)
            == LinesImports(prefix, name, a, sibs) + LinesImports(prefix, name, b, sibs)
    decreases |b|
  {
    if |b| == 0 {
      assert a + b == a;
    } else {
      assert (a + b)[..|a + b| - 1] == a + b[..|b| - 1];
      LinesImportsAppend(prefix, name, a, b[..|b| - 1], sibs);
    }
  }

  /** The name `x` is one that the stripped line `line` names, independently
      of the module: the text after `import ` without its last character for
      an import line, otherwise `prefix.sib` for any sibling key that occurs
      in the line. */
  ghost predicate Contributes(prefix: string, line: string, sibs: set<string>, x: string) {
    if IsExplicitImport(line) then x == line[7..|line| - 1]
    else exists sib :: sib in sibs && IsSubstring(line, sib) && x == prefix + "." + sib
  }

  lemma LineContribution(prefix: string, name: string, line: string, sibs: set<string>, x: string)
    ensures x in LineImports(prefix, name, line, sibs) <==> x != name && Contributes(prefix, line, sibs, x)
  {
    if !IsExplicitImport(line) {
      ImplicitLineContribution(prefix, name, line, sibs, x);
    }
  }

  /** Any other line contributes `prefix.sib` exactly for the siblings `sib`
      that occur somewhere in it, inside longer words included. */
  lemma ImplicitLineContribution(prefix: string, name: string, line: string, sibs: set<string>, x: string)
    requires !IsExplicitImport(line)
    ensures x in LineImports(prefix, name, line, sibs)
            <==> x != name && exists sib :: sib in sibs && IsSubstring(line, sib) && x == prefix + "." + sib
  {
  }

  /** A sibling's bare name yields that sibling wherever it occurs in a
      non-import line, also as part of a longer identifier, a comment or a
      string literal. */
  lemma SiblingInsideLongerWord(prefix: string, name: string, before: string, sib: string, after: string, sibs: set<string>)
    requires sib in sibs
    requires !IsExplicitImport(before + sib + after)
    requires prefix + "." + sib != name
    ensures prefix + "." + sib in LineImports(prefix, name, before + sib + after, sibs)
  {
    var line := before + sib + after;
    assert OccursAt(line, sib, |before|) by { assert line[|before|..|before| + |sib|] == sib; }
  }

  /** The false positive the substring test admits: `B` is found inside the
      identifier `Bx`, so module `pkg.A` is reported to import `pkg.B`. */
  lemma SubstringFalsePositive(line: string)
    requires line == "let Bx = 1;"
    ensures "pkg.B" in LineImports("pkg", "pkg.A", line, {"A", "B"})
  {
    assert line == "let " + "B" + "x = 1;";
    assert !IsExplicitImport(line) by { assert line[0] != ImportToken[0]; }
    assert "pkg" + "." + "B" != "pkg.A" by { assert ("pkg" + "." + "B")[4] == 'B'; }
    SiblingInsideLongerWord("pkg", "pkg.A", "let ", "B", "x = 1;", {"A", "B"});
    assert "pkg" + "." + "B" == "pkg.B";
  }

  /** Membership in the import set, independently of how the set was
      accumulated: some line, once stripped, contributes the name. */
  lemma ImportsOfMembers(prefix: string, name: string, lines: seq<string>, sibs: set<string>, x: string)
    ensures x in ImportsOf(prefix, name, lines, sibs)
            <==> exists i :: 0 <= i < |lines| && x in LineImports(prefix, name, Strip(lines[i]), sibs)
  {
    LinesImportsMembers(prefix, name, StripAll(lines), sibs, x);
  }

  /** The whole import set of a file: `x` is imported exactly when it is not
      the module's own name and some stripped line names it, either as the
      sliced path of an import line or as a sibling found in another line. */
  lemma ImportsOfExactly(prefix: string, name: string, lines: seq<string>, sibs: set<string>, x: string)
    ensures x in ImportsOf(prefix, name, lines, sibs)
            <==> x != name && exists i :: 0 <= i < |lines| && Contributes(prefix, Strip(lines[i]), sibs, x)
  {
    ImportsOfMembers(prefix, name, lines, sibs, x);
    forall i | 0 <= i < |lines|
      ensures x in LineImports(prefix, name, Strip(lines[i]), sibs)
              <==> x != name && Contributes(prefix, Strip(lines[i]), sibs, x)
    {
      LineContribution(prefix, name, Strip(lines[i]), sibs, x);
    }
  }

  /** The import set depends only on which lines occur, not on their order
      or how often each occurs. */
  lemma ImportsIgnoreLineOrder(prefix: string, name: string, lines: seq<string>, lines': seq<string>, sibs: set<string>)
    requires forall l :: l in lines <==> l in lines'
    ensures ImportsOf(prefix, name, lines, sibs) == ImportsOf(prefix, name, lines', sibs)
  {
    var ls, ls' := StripAll(lines), StripAll(lines');
    forall x
      ensures x in LinesImports(prefix, name, ls, sibs) <==> x in LinesImports(prefix, name, ls', sibs)
    {
      LinesImportsMembers(prefix, name, ls, sibs, x);
      LinesImportsMembers(prefix, name, ls', sibs, x);
      if x in LinesImports(prefix, name, ls, sibs) {
        var i :| 0 <= i < |ls| && x in LineImports(prefix, name, ls[i], sibs);
        assert lines[i] in lines';
        var j :| 0 <= j < |lines'| && lines'[j] == lines[i];
        assert ls'[j] == ls[i];
      }
      if x in LinesImports(prefix, name, ls', sibs) {
        var j :| 0 <= j < |ls'| && x in LineImports(prefix, name, ls'[j], sibs);
        assert lines'[j] in lines;
        var i :| 0 <= i < |lines| && lines[i] == lines'[j];
        assert ls[i] == ls'[j];
      }
    }
  }

  /** Reading more lines only adds names: the set of a file is the union of
      the sets of its parts. */
  lemma ImportsOfAppend(prefix: string, name: string, a: seq<string>, b: seq<string>, sibs: set<string>)
    ensures ImportsOf(prefix, name, a + b, sibs)
            == ImportsOf(prefix, name, a, sibs) + ImportsOf(prefix, name, b, sibs)
  {
    assert StripAll(a + b) == StripAll(a) + StripAll(b);
    LinesImportsAppend(prefix, name, StripAll(a), StripAll(b), sibs);
  }

  /** Lines 43-46: the scan of one line over `map.iterkeys()`, which visits
      the sibling keys in an unspecified order. */
  method ScanSiblings(prefix: string, name: string, line: string, sibs: set<string>)
    returns (found: set<string>)
    ensures found == SiblingMatches(prefix, name, line, sibs)
  {
    found := {};
    var todo := sibs;
    while todo != {}
      invariant todo <= sibs
      invariant found == SiblingMatches(prefix, name, line, sibs - todo)
      decreases todo
    {
      var sib :| sib in todo;
      var fsib := prefix + "." + sib;
      if Find(line, sib) >= 0 && name != fsib {
        found := found + {fsib};
      }
      assert sibs - (todo - {sib}) == (sibs - todo) + {sib};
      todo := todo - {sib};
    }
    assert sibs - todo == sibs;
  }

  /** Lines 35-46: the import set of a file read line by line. */
  method CollectImports(prefix: string, name: string, lines: seq<string>, sibs: set<string>)
    returns (imports: set<string>)
    ensures imports == ImportsOf(prefix, name, lines, sibs)
  {
    ghost var ls := StripAll(lines);
    imports := {};
    var n := 0;
    while n < |lines|
      invariant 0 <= n <= |lines|
      invariant imports == LinesImports(prefix, name, ls[..n], sibs)
    {
      var line := Strip(lines[n]);
      assert line == ls[n];
      ghost var before := imports;
      if StartsWith(line, ImportToken) {
        var fimp := line[7..|line| - 1];
        if name != fimp {
          imports := imports + {fimp};
        }
      } else {
        var found := ScanSiblings(prefix, name, line, sibs);
        imports := imports + found;
      }
      assert imports == before + LineImports(prefix, name, line, sibs);
      assert ls[..n + 1][..n] == ls[..n];
      n := n + 1;
    }
    assert ls[..n] == ls;
  }

  /** `imports` lists the elements of `s`, each exactly once. */
  ghost predicate Enumerates(order: seq<string>, s: set<string>) {
    && (forall x :: x in order <==> x in s)
    && (forall i, j :: 0 <= i < j < |order| ==> order[i] != order[j])
  }

  function Quote(x: string): string {
    "\"" + x + "\""
  }

  /** Line 49 run over `order`: each name quoted and followed by a comma,
      which is the comma join of the quoted names with one more comma. */
  function QuotedWithCommas(order: seq<string>): (r: string)
    ensures |order| >= 1 ==> r == Join(QuoteAll(order), ",") + ","
    decreases |order|
  {
    if |order| == 0 then ""
    else
      var init, last := order[..|order| - 1], order[|order| - 1];
      var r := QuotedWithCommas(init) + Quote(last) + ",";
      assert QuoteAll(order) == QuoteAll(init) + [Quote(last)];
      if |init| == 0 then r
      else
        JoinSnoc(QuoteAll(init), Quote(last), ",");
        r
  }

  /** Line 50: the accumulated string without its last character, which is
      the trailing comma. Python's `s[0:-1]` of an empty string is empty. */
  function SerializeImports(order: seq<string>): (r: string)
    ensures r == Join(QuoteAll(order), ",")
  {
    var s := QuotedWithCommas(order);
    if |s| == 0 then "" else
      assert s[..|s| - 1] == Join(QuoteAll(order), ",");
      s[..|s| - 1]
  }

  function QuoteAll(order: seq<string>): (q: seq<string>)
    ensures |q| == |order|
    ensures forall i :: 0 <= i < |order| ==> q[i] == Quote(order[i])
  {
    seq(|order|, i requires 0 <= i < |order| => Quote(order[i]))
  }

  /** With `n >= 1` names that contain no comma, the serialised list holds
      exactly `n - 1` commas. */
  lemma SerializeCommaCount(order: seq<string>)
    requires |order| >= 1
    requires forall i :: 0 <= i < |order| ==> ',' !in order[i]
    ensures Count(SerializeImports(order), ',') == |order| - 1
  {
    var q := QuoteAll(order);
    forall i | 0 <= i < |q| ensures ',' !in q[i] {
      assert q[i] == ['"'] + order[i] + ['"'];
    }
    JoinSeparatorCount(q, ',');
  }

  /** Reads a serialised import list back into names. */
  function DecodeImports(text: string): seq<string> {
    if |text| == 0 then []
    else
      var parts := Split(text, ',');
      seq(|parts|, i requires 0 <= i < |parts| =>
        if |parts[i]| >= 2 then parts[i][1..|parts[i]| - 1] else parts[i])
  }

  /** Decoding inverts lines 48-50 whenever no name contains a comma. */
  lemma DecodeSerializeRoundTrip(order: seq<string>)
    requires forall i :: 0 <= i < |order| ==> ',' !in order[i]
    ensures DecodeImports(SerializeImports(order)) == order
  {
    if |order| > 0 {
      var q := QuoteAll(order);
      forall i | 0 <= i < |q| ensures ',' !in q[i] {
        assert q[i] == ['"'] + order[i] + ['"'];
      }
      SplitJoin(q, ',');
      assert |Join(q, ",")| > 0 by { JoinStartsWithFirst(q, ","); }
      var d := DecodeImports(Join(q, ","));
      assert forall i :: 0 <= i < |order| ==> d[i] == q[i][1..|q[i]| - 1] == order[i];
    }
  }

  /** `parse` as a whole: collect the import set, then serialise it in
      whatever order the set iterates in. */
  method Parse(prefix: string, name: string, lines: seq<string>, sibs: set<string>)
    returns (order: seq<string>, s: string)
    ensures Enumerates(order, ImportsOf(prefix, name, lines, sibs))
    ensures s == Join(QuoteAll(order), ",")
  {
    var imports := CollectImports(prefix, name, lines, sibs);
    order := [];
    var left := imports;
    while left != {}
      invariant left <= imports
      invariant forall x :: x in order <==> x in imports - left
      invariant forall i, j :: 0 <= i < j < |order| ==> order[i] != order[j]
      decreases left
    {
      var imp :| imp in left;
      assert imp !in order;
      order := order + [imp];
      left := left - {imp};
    }
    s := SerializeImports(order);
  }
}

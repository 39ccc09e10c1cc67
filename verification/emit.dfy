/**
 The printed output: each module's record on its own line (CodeExtract.py
 line 29) between a line `[` and a line `]` (lines 53-55). As written, every
 record ends in `},`, so the last one leaves a comma before the closing
 bracket and the array is not valid JSON; `Output` is the corrected form that
 separates the objects by commas instead.
 */
module Emit {
  import opened Text
  import opened Imports
  import opened Records
  import opened Walk
  import opened Tree

  /** The line printed for `m` (lines 26-29, without the newline). */
  function RecordOf(m: Module, order: seq<string>): string {
    Record(m.name, m.size, SerializeImports(order))
  }

  /** A module whose record can be read back unambiguously: neither the name
      nor any import is escaped when printed, so the name must hold no double
      quote and the imports no comma. */
  predicate Printable(m: Module) {
    '"' !in m.name && forall x :: x in m.imports ==> ',' !in x
  }

  /** The record text `r` reads back as the module `m`: its name, its size,
      and an import list naming every import exactly once. */
  ghost predicate Describes(r: string, m: Module) {
    var f := ParseRecord(r);
    f.Some? && f.value.name == m.name && f.value.size == m.size
    && Enumerates(DecodeImports(f.value.imports), m.imports)
  }

  /** A printed record carries the module's name and size, and its import
      list names every import exactly once, in the order the set iterated. */
  lemma RecordOfDescribesModule(m: Module, order: seq<string>)
    requires Printable(m)
    requires Enumerates(order, m.imports)
    ensures Describes(RecordOf(m, order), m)
  {
    RecordRoundTrip(m.name, m.size, SerializeImports(order));
    assert forall i :: 0 <= i < |order| ==> order[i] in m.imports;
    DecodeSerializeRoundTrip(order);
  }

  /** Line 29 for every record in turn, each followed by the newline `print`
      adds. With at least one module this is the objects joined by a comma
      and a newline, followed by one more comma and newline: the last record
      keeps its comma. */
  function PrintedRecords(mods: seq<Module>, orders: seq<seq<string>>): (p: string)
    requires |orders| == |mods|
    ensures |mods| >= 1 ==> EndsWith(p, "},\n")
    ensures |mods| >= 1 ==> p == Join(Objects(mods, orders), ",\n") + ",\n"
    decreases |mods|
  {
    if |mods| == 0 then ""
    else
      var n := |mods|;
      var init := PrintedRecords(mods[..n - 1], orders[..n - 1]);
      var r := RecordOf(mods[n - 1], orders[n - 1]);
      RecordLineEnd(init, r);
      if n == 1 then
        FirstPrintedLine(mods, orders, init);
        init + r + "\n"
      else
        NextPrintedLine(mods, orders, init);
        init + r + "\n"
  }

  /** The first printed record line is the first object, a comma and a
      newline. */
  lemma FirstPrintedLine(mods: seq<Module>, orders: seq<seq<string>>, init: string)
    requires |orders| == |mods| == 1 && init == ""
    ensures init + RecordOf(mods[0], orders[0]) + "\n" == Join(Objects(mods, orders), ",\n") + ",\n"
  {
    var os := Objects(mods, orders);
    assert Join(os, ",\n") == os[0];
    FirstLine(init, RecordOf(mods[0], orders[0]), os[0]);
  }

  /** A further printed record line extends the join of the objects before
      it by the next object. */
  lemma NextPrintedLine(mods: seq<Module>, orders: seq<seq<string>>, init: string)
    requires |orders| == |mods| >= 2
    requires init == Join(Objects(mods[..|mods| - 1], orders[..|mods| - 1]), ",\n") + ",\n"
    ensures init + RecordOf(mods[|mods| - 1], orders[|mods| - 1]) + "\n" == Join(Objects(mods, orders), ",\n") + ",\n"
  {
    var os := Objects(mods, orders);
    var ios := Objects(mods[..|mods| - 1], orders[..|mods| - 1]);
    var r := RecordOf(mods[|mods| - 1], orders[|mods| - 1]);
    ObjectsPrefix(mods, orders);
    JoinStep(os, ios, init, r);
  }

  lemma JoinStep(os: seq<string>, ios: seq<string>, p: string, r: string)
    requires |os| >= 2 && ios == os[..|os| - 1]
    requires p == Join(ios, ",\n") + ",\n" && r == os[|os| - 1] + ","
    ensures p + r + "\n" == Join(os, ",\n") + ",\n"
  {
    Snoc(os);
    JoinSnocLine(ios, os[|os| - 1], p, r);
  }

  /** Lines 53-55 as written: a line `[`, the records, a line `]`. With at
      least one module the text ends `},` on the last record's line, so the
      last record is followed by a comma before the closing bracket. */
  function OutputAsWritten(mods: seq<Module>, orders: seq<seq<string>>): (out: string)
    requires |orders| == |mods|
    ensures StartsWith(out, "[\n") && EndsWith(out, "]\n")
    ensures |mods| >= 1 ==> EndsWith(out, "},\n]\n") && CommaBeforeClose(out)
  {
    var p := PrintedRecords(mods, orders);
    Bracketed(p);
    if |mods| == 0 then "[\n" + p + "]\n"
    else
      TrailingRecordEnd(p);
      "[\n" + p + "]\n"
  }

  lemma Bracketed(p: string)
    ensures StartsWith("[\n" + p + "]\n", "[\n") && EndsWith("[\n" + p + "]\n", "]\n")
  {
    var o := "[\n" + p + "]\n";
    assert o[..2] == "[\n";
    assert o[|o| - 2..] == "]\n";
  }

  lemma TrailingRecordEnd(p: string)
    requires EndsWith(p, "},\n")
    ensures EndsWith("[\n" + p + "]\n", "},\n]\n") && CommaBeforeClose("[\n" + p + "]\n")
  {
    var o := "[\n" + p + "]\n";
    assert o[|o| - 5..] == p[|p| - 3..] + "]\n";
    CommaCloseEnd(o);
  }

  /** Once trailing whitespace is ignored, `s` ends in `]` and the last
      character before that bracket, whitespace ignored again, is a comma:
      the trailing comma JSON forbids. */
  predicate CommaBeforeClose(s: string) {
    var t := RStrip(s);
    |t| > 0 && t[|t| - 1] == ']'
    && var u := RStrip(t[..|t| - 1]);
       |u| > 0 && u[|u| - 1] == ','
  }

  lemma RStripNonSpaceEnd(s: string)
    requires |s| > 0 && !IsSpace(s[|s| - 1])
    ensures RStrip(s) == s
  {
  }

  lemma RStripNewline(s: string)
    ensures RStrip(s + "\n") == RStrip(s)
  {
    assert (s + "\n")[..|s|] == s;
    var n := TrailingSpace(s);
    assert (s + "\n")[..|s + "\n"| - (1 + n)] == s[..|s| - n];
  }

  /** Whether a text `body` printed before a closing `]` line leaves a
      trailing comma depends only on its last non-blank character. */
  lemma CommaBeforeCloseOf(body: string)
    ensures CommaBeforeClose(body + "\n]\n")
            <==> |RStrip(body)| > 0 && RStrip(body)[|RStrip(body)| - 1] == ','
  {
    var c := body + "\n" + "]";
    assert body + "\n]\n" == c + "\n";
    RStripNewline(c);
    RStripNonSpaceEnd(c);
    assert c[..|c| - 1] == body + "\n";
    RStripNewline(body);
  }

  lemma RecordLineEnd(p: string, r: string)
    requires EndsWith(r, "},")
    ensures EndsWith(p + r + "\n", "},\n")
  {
    assert (p + r + "\n")[|p + r + "\n"| - 3..] == r[|r| - 2..] + "\n";
  }

  lemma CommaCloseEnd(out: string)
    requires EndsWith(out, "},\n]\n")
    ensures CommaBeforeClose(out)
  {
    var body := out[..|out| - 3];
    assert out == body + "\n]\n";
    assert body[|body| - 1] == out[|out| - 4] == ',';
    RStripNonSpaceEnd(body);
    CommaBeforeCloseOf(body);
  }

  /** The single-module tree of the finding: one directory `flare` holding
      one empty file `A.as`. */
  lemma AsWrittenSingleModule(root: seq<Entry>)
    requires root == [Dir("flare", [File("A.as", 0, [])])]
    ensures |CheckDir(root, "")| == 1
    ensures CommaBeforeClose(OutputAsWritten(CheckDir(root, ""), [[]]))
  {
    assert IsSourceName("A.as") by { assert "A.as"[1..] == Extension; }
    assert SourceFileCount(root) == 1 by {
      var children := [File("A.as", 0, [])];
      assert SourceFileCount(children) == 1 by { assert children[1..] == []; }
      assert root[1..] == [];
    }
  }

  /** A record without the comma line 28 appends: one JSON object. */
  function ObjectOf(m: Module, order: seq<string>): (o: string)
    ensures o + "," == RecordOf(m, order)
    ensures |o| > 0 && o[0] == '{' && o[|o| - 1] == '}'
  {
    var r := RecordOf(m, order);
    DropFinalComma(r);
    r[..|r| - 1]
  }

  lemma DropFinalComma(r: string)
    requires StartsWith(r, NameOpen) && EndsWith(r, "},")
    ensures r[..|r| - 1] + "," == r
    ensures |r| >= 2 && r[0] == '{' && r[|r| - 2] == '}'
  {
    assert r[0] == r[..|NameOpen|][0] == '{';
    assert r[|r| - 2] == r[|r| - 2..][0] == '}';
  }

  /** The objects of the corrected output, one `{...}` per module in order.
      Each, with the comma line 28 appends, is the record the code prints. */
  function Objects(mods: seq<Module>, orders: seq<seq<string>>): (os: seq<string>)
    requires |orders| == |mods|
    ensures |os| == |mods|
    ensures forall i :: 0 <= i < |mods| ==> |os[i]| > 0 && os[i][0] == '{' && os[i][|os[i]| - 1] == '}'
    ensures forall i :: 0 <= i < |mods| ==> os[i] + "," == RecordOf(mods[i], orders[i])
  {
    seq(|mods|, i requires 0 <= i < |mods| => ObjectOf(mods[i], orders[i]))
  }

  /** Every printed record of a printable module whose order lists its
      imports reads back as that module. */
  lemma RecordsDescribe(mods: seq<Module>, orders: seq<seq<string>>)
    requires |orders| == |mods|
    ensures forall i :: 0 <= i < |mods| && Printable(mods[i]) && Enumerates(orders[i], mods[i].imports)
              ==> Describes(RecordOf(mods[i], orders[i]), mods[i])
  {
    forall i | 0 <= i < |mods| && Printable(mods[i]) && Enumerates(orders[i], mods[i].imports)
      ensures Describes(RecordOf(mods[i], orders[i]), mods[i])
    {
      RecordOfDescribesModule(mods[i], orders[i]);
    }
  }

  /** The objects of all modules but the last are the first objects of all
      modules. */
  lemma ObjectsPrefix(mods: seq<Module>, orders: seq<seq<string>>)
    requires |orders| == |mods| >= 1
    ensures Objects(mods[..|mods| - 1], orders[..|mods| - 1]) == Objects(mods, orders)[..|mods| - 1]
  {
    var n := |mods|;
    var os, ios := Objects(mods, orders), Objects(mods[..n - 1], orders[..n - 1]);
    forall k | 0 <= k < n - 1 ensures ios[k] == os[k] {
      CommaCancel(ios[k], os[k]);
    }
  }

  lemma CommaCancel(a: string, b: string)
    requires a + "," == b + ","
    ensures a == b
  {
    assert a == (a + ",")[..|a|];
    assert b == (b + ",")[..|b|];
  }

  /** One more printed line after `k >= 1` joined objects extends the join
      by that object. */
  lemma JoinSnocLine(ios: seq<string>, last: string, p: string, r: string)
    requires |ios| >= 1 && p == Join(ios, ",\n") + ",\n" && r == last + ","
    ensures p + r + "\n" == Join(ios + [last], ",\n") + ",\n"
  {
    JoinSnoc(ios, last, ",\n");
    AppendObjectLine(p, last);
  }

  lemma Snoc(s: seq<string>)
    requires |s| >= 1
    ensures s == s[..|s| - 1] + [s[|s| - 1]]
  {
  }

  /** Printing `o + ","` as a line appends `o`, a comma and a newline. */
  lemma AppendObjectLine(a: string, o: string)
    ensures a + (o + ",") + "\n" == a + o + ",\n"
  {
    assert (o + ",") + "\n" == o + ",\n";
  }

  lemma FirstLine(p: string, r: string, last: string)
    requires p == "" && r == last + ","
    ensures p + r + "\n" == last + ",\n"
  {
  }

  /** The corrected output: the same objects in the same order, separated by
      a comma and a newline. It is exactly what the code prints with the one
      comma before the closing line removed, and so never has a comma before
      its closing bracket. With no modules it is what the code prints. */
  function Output(mods: seq<Module>, orders: seq<seq<string>>): (out: string)
    requires |orders| == |mods|
    ensures StartsWith(out, "[\n") && EndsWith(out, "\n]\n")
    ensures !CommaBeforeClose(out)
    ensures |mods| == 0 ==> out == OutputAsWritten(mods, orders)
    ensures |mods| >= 1 ==> |out| >= 3 && out[..|out| - 3] + ",\n]\n" == OutputAsWritten(mods, orders)
  {
    if |mods| == 0 then
      EmptyArrayNoTrailingComma();
      "[\n]\n"
    else
      var os := Objects(mods, orders);
      JoinedObjectsNoTrailingComma(os);
      InsertFinalComma(Join(os, ",\n"));
      Framed(Join(os, ",\n"));
      "[\n" + Join(os, ",\n") + "\n]\n"
  }

  lemma Framed(j: string)
    ensures StartsWith("[\n" + j + "\n]\n", "[\n") && EndsWith("[\n" + j + "\n]\n", "\n]\n")
  {
    var o := "[\n" + j + "\n]\n";
    assert o[..2] == "[\n";
    assert o[|o| - 3..] == "\n]\n";
  }

  lemma InsertFinalComma(j: string)
    ensures ("[\n" + j + "\n]\n")[..|"[\n" + j + "\n]\n"| - 3] + ",\n]\n" == "[\n" + (j + ",\n") + "]\n"
  {
    var o := "[\n" + j + "\n]\n";
    assert o[..|o| - 3] == "[\n" + j;
  }

  lemma {:induction false} JoinEndsWithLast(xs: seq<string>, sep: string)
    requires |xs| >= 1
    ensures EndsWith(Join(xs, sep), xs[|xs| - 1])
    decreases |xs|
  {
    if |xs| > 1 {
      JoinEndsWithLast(xs[1..], sep);
      var j := Join(xs[1..], sep);
      var l := xs[|xs| - 1];
      assert (xs[0] + sep + j)[|xs[0] + sep + j| - |l|..] == j[|j| - |l|..];
    }
  }

  lemma JoinedObjectsNoTrailingComma(os: seq<string>)
    requires |os| >= 1
    requires forall i :: 0 <= i < |os| ==> |os[i]| > 0 && os[i][|os[i]| - 1] == '}'
    ensures !CommaBeforeClose("[\n" + Join(os, ",\n") + "\n]\n")
  {
    var j := Join(os, ",\n");
    JoinEndsWithLast(os, ",\n");
    assert j[|j| - 1] == '}';
    LastObjectNoTrailingComma(j);
  }

  lemma EmptyArrayNoTrailingComma()
    ensures !CommaBeforeClose("[\n]\n")
  {
    var body := "[";
    assert "[\n]\n" == body + "\n]\n";
    CommaBeforeCloseOf(body);
    RStripNonSpaceEnd(body);
  }

  lemma LastObjectNoTrailingComma(j: string)
    requires |j| > 0 && j[|j| - 1] == '}'
    ensures !CommaBeforeClose("[\n" + j + "\n]\n")
  {
    var body := "[\n" + j;
    assert "[\n" + j + "\n]\n" == body + "\n]\n";
    assert body[|body| - 1] == '}';
    RStripNonSpaceEnd(body);
    CommaBeforeCloseOf(body);
  }

  /** The whole run on a source tree (lines 52-55): walk it from the root
      with the empty prefix and print the corrected array, one object per
      source file, each module's imports in the order its set iterates. It
      differs from what the code prints only by the comma before the closing
      line, and every printable module's record reads back as that module. */
  function Extract(root: seq<Entry>, orders: seq<seq<string>>): (out: string)
    requires |orders| == SourceFileCount(root)
    requires forall i :: 0 <= i < |orders| ==> Enumerates(orders[i], CheckDir(root, "")[i].imports)
    ensures StartsWith(out, "[\n") && EndsWith(out, "\n]\n")
    ensures !CommaBeforeClose(out)
    ensures SourceFileCount(root) == 0 ==> out == OutputAsWritten(CheckDir(root, ""), orders)
    ensures SourceFileCount(root) >= 1
            ==> |out| >= 3 && out[..|out| - 3] + ",\n]\n" == OutputAsWritten(CheckDir(root, ""), orders)
    ensures forall i :: 0 <= i < |orders| && Printable(CheckDir(root, "")[i])
              ==> Describes(RecordOf(CheckDir(root, "")[i], orders[i]), CheckDir(root, "")[i])
  {
    var mods := CheckDir(root, "");
    RecordsDescribe(mods, orders);
    Output(mods, orders)
  }
}

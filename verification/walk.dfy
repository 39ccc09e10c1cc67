/**
 `checkdir` (CodeExtract.py lines 8-29) as a pure function from a directory
 listing to the modules it reports, in listing order, depth first. The
 printing of each record is in the Emit module.
 */
module Walk {
  import opened Text
  import opened Tree
  import opened Imports

  /** One reported module before it is turned into text: `imports` is the set
      `parse` accumulated, whose iteration order is not fixed. */
  datatype Module = Module(name: string, size: nat, imports: set<string>)

  /** Lines 24-28 for the source file `f` in a directory with prefix
      `prefix` and sibling keys `sibs`. */
  function ModuleOf(prefix: string, f: string, size: nat, lines: seq<string>, sibs: set<string>): (m: Module)
    requires IsSourceName(f)
    ensures m.name !in m.imports
  {
    var name := ModuleName(prefix, f);
    Module(name, size, ImportsOf(prefix, name, lines, sibs))
  }

  /** Number of non-directory entries matching `*.as` anywhere below. */
  function SourceFileCount(es: seq<Entry>): nat
    decreases es
  {
    if |es| == 0 then 0
    else
      (match es[0]
       case Dir(_, children) => SourceFileCount(children)
       case File(f, _, _) => if IsSourceName(f) then 1 else 0)
      + SourceFileCount(es[1..])
  }

  /** `checkdir(d, prefix)` where `es` is the listing of `d`: the sibling keys
      are computed once for the directory (lines 9-12), then every entry is
      visited in listing order (lines 14-28). Exactly one module is reported
      per source file below, directories named `*.as` included only as
      directories, and no module lists itself among its imports. */
  function CheckDir(es: seq<Entry>, prefix: string): (ms: seq<Module>)
    ensures |ms| == SourceFileCount(es)
    ensures forall m :: m in ms ==> m.name !in m.imports
    decreases es, 1
  {
    VisitEntries(es, prefix, SiblingKeys(es))
  }

  function VisitEntries(es: seq<Entry>, prefix: string, sibs: set<string>): (ms: seq<Module>)
    ensures |ms| == SourceFileCount(es)
    ensures forall m :: m in ms ==> m.name !in m.imports
    decreases es, 0
  {
    if |es| == 0 then [] else VisitEntry(es[0], prefix, sibs) + VisitEntries(es[1..], prefix, sibs)
  }

  /** Lines 15-28 for one entry: a directory is descended into whatever its
      name, a file matching `*.as` becomes a module, anything else is
      skipped. */
  function VisitEntry(e: Entry, prefix: string, sibs: set<string>): (ms: seq<Module>)
    ensures |ms| == SourceFileCount([e])
    ensures forall m :: m in ms ==> m.name !in m.imports
    decreases e
  {
    assert [e][1..] == [];
    match e
    case Dir(f, children) => CheckDir(children, SubPrefix(prefix, f))
    case File(f, size, lines) =>
      if IsSourceName(f) then [ModuleOf(prefix, f, size, lines, sibs)] else []
  }

  // An independent account of the walk: first list every source file with
  // the path of directory names leading to it, then name each one from its
  // whole path.

  /** A source file found under the root, with the directory names leading
      to it and the sibling keys of its directory. */
  datatype Located = Located(dirs: seq<string>, file: string, size: nat, lines: seq<string>, sibs: set<string>)

  function ListDir(es: seq<Entry>, dirs: seq<string>): seq<Located>
    decreases es, 1
  {
    ListEntries(es, dirs, SiblingKeys(es))
  }

  function ListEntries(es: seq<Entry>, dirs: seq<string>, sibs: set<string>): seq<Located>
    decreases es, 0
  {
    if |es| == 0 then [] else ListEntry(es[0], dirs, sibs) + ListEntries(es[1..], dirs, sibs)
  }

  function ListEntry(e: Entry, dirs: seq<string>, sibs: set<string>): seq<Located>
    decreases e
  {
    match e
    case Dir(f, children) => ListDir(children, dirs + [f])
    case File(f, size, lines) =>
      if IsSourceName(f) then [Located(dirs, f, size, lines, sibs)] else []
  }

  /** The dotted name of the file `f` reached through `dirs`: the path with
      the base name last, and a leading dot for a file directly in the
      root. */
  function QualifiedName(dirs: seq<string>, f: string): string
    requires IsSourceName(f)
  {
    if |dirs| == 0 then "." + BaseName(f) else Join(dirs + [BaseName(f)], ".")
  }

  function ModuleAt(l: Located): Module
    requires IsSourceName(l.file)
  {
    var name := QualifiedName(l.dirs, l.file);
    Module(name, l.size, ImportsOf(PathPrefix(l.dirs), name, l.lines, l.sibs))
  }

  predicate AllSource(ls: seq<Located>) {
    forall i :: 0 <= i < |ls| ==> IsSourceName(ls[i].file)
  }

  function ModulesAt(ls: seq<Located>): (ms: seq<Module>)
    requires AllSource(ls)
    ensures |ms| == |ls|
    ensures forall i :: 0 <= i < |ls| ==> ms[i] == ModuleAt(ls[i])
  {
    seq(|ls|, i requires 0 <= i < |ls| => ModuleAt(ls[i]))
  }

  lemma ModulesAtAppend(a: seq<Located>, b: seq<Located>)
    requires AllSource(a) && AllSource(b)
    ensures AllSource(a + b)
    ensures ModulesAt(a + b) == ModulesAt(a) + ModulesAt(b)
  {
  }

  /** Directory entries have non-empty names. */
  predicate WellNamed(es: seq<Entry>)
    decreases es
  {
    forall i :: 0 <= i < |es| ==> |es[i].name| > 0 && (es[i].Dir? ==> WellNamed(es[i].children))
  }

  predicate NonEmptyNames(dirs: seq<string>) {
    forall i :: 0 <= i < |dirs| ==> |dirs[i]| > 0
  }

  lemma {:induction false} ListDirSource(es: seq<Entry>, dirs: seq<string>)
    ensures AllSource(ListDir(es, dirs))
    decreases es, 1
  {
    ListEntriesSource(es, dirs, SiblingKeys(es));
  }

  lemma {:induction false} ListEntriesSource(es: seq<Entry>, dirs: seq<string>, sibs: set<string>)
    ensures AllSource(ListEntries(es, dirs, sibs))
    decreases es, 0
  {
    if |es| > 0 {
      ListEntrySource(es[0], dirs, sibs);
      ListEntriesSource(es[1..], dirs, sibs);
    }
  }

  lemma {:induction false} ListEntrySource(e: Entry, dirs: seq<string>, sibs: set<string>)
    ensures AllSource(ListEntry(e, dirs, sibs))
    decreases e
  {
    if e.Dir? {
      ListDirSource(e.children, dirs + [e.name]);
    }
  }

  /** `checkdir` run from the directory reached through `dirs` reports the
      listed source files in listing order, each named after its full path
      (lines 18-24). */
  lemma {:induction false} CheckDirIsListing(es: seq<Entry>, dirs: seq<string>)
    requires WellNamed(es) && NonEmptyNames(dirs)
    ensures AllSource(ListDir(es, dirs))
    ensures CheckDir(es, PathPrefix(dirs)) == ModulesAt(ListDir(es, dirs))
    decreases es, 1
  {
    ListDirSource(es, dirs);
    VisitEntriesIsListing(es, dirs, SiblingKeys(es));
  }

  lemma {:induction false} VisitEntriesIsListing(es: seq<Entry>, dirs: seq<string>, sibs: set<string>)
    requires WellNamed(es) && NonEmptyNames(dirs)
    ensures AllSource(ListEntries(es, dirs, sibs))
    ensures VisitEntries(es, PathPrefix(dirs), sibs) == ModulesAt(ListEntries(es, dirs, sibs))
    decreases es, 0
  {
    ListEntriesSource(es, dirs, sibs);
    if |es| > 0 {
      assert WellNamed(es[1..]) by {
        forall i | 0 <= i < |es| - 1 ensures es[1..][i] == es[i + 1] { }
      }
      VisitEntryIsListing(es[0], dirs, sibs);
      VisitEntriesIsListing(es[1..], dirs, sibs);
      ListEntrySource(es[0], dirs, sibs);
      ModulesAtAppend(ListEntry(es[0], dirs, sibs), ListEntries(es[1..], dirs, sibs));
    }
  }

  lemma {:induction false} VisitEntryIsListing(e: Entry, dirs: seq<string>, sibs: set<string>)
    requires |e.name| > 0 && (e.Dir? ==> WellNamed(e.children)) && NonEmptyNames(dirs)
    ensures AllSource(ListEntry(e, dirs, sibs))
    ensures VisitEntry(e, PathPrefix(dirs), sibs) == ModulesAt(ListEntry(e, dirs, sibs))
    decreases e
  {
    ListEntrySource(e, dirs, sibs);
    match e
    case Dir(f, children) =>
      SubPrefixExtendsPath(dirs, f);
      CheckDirIsListing(children, dirs + [f]);
    case File(f, size, lines) =>
      if IsSourceName(f) {
        ModuleNameQualified(dirs, f);
      }
  }

  /** Name reconstruction for the whole tree: walking the root reports, in
      listing order, one module per source file, named by its directory path
      and base name. */
  lemma WalkNamesModulesByPath(root: seq<Entry>)
    requires WellNamed(root)
    ensures AllSource(ListDir(root, []))
    ensures CheckDir(root, "") == ModulesAt(ListDir(root, []))
  {
    CheckDirIsListing(root, []);
  }
}

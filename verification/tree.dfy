/**
 The directory tree that `checkdir` walks, given as data instead of read from
 disk, together with the per-directory sibling index (CodeExtract.py lines
 9-12) and the dotted-name construction (lines 18-24).
 */
module Tree {
  import opened Text

  /** One entry of a directory listing. `size` is what `os.stat` reports and
      `lines` what iterating over the opened file yields. Anything that is not
      a directory is a `File`. */
  datatype Entry =
    | Dir(name: string, children: seq<Entry>)
    | File(name: string, size: nat, lines: seq<string>)

  const Extension := ".as"

  /** `re.match(fnmatch.translate('*.as'), f)`: the name ends with `.as`.
      The match is case-sensitive and does not look at the entry's type.
      The pattern's `*` stands for any string, the empty one included. */
  function IsSourceName(f: string): (r: bool)
    ensures r <==> exists b :: b + Extension == f
  {
    if EndsWith(f, Extension) then
      assert f[..|f| - |Extension|] + Extension == f;
      true
    else
      NotEndsWith(f, Extension);
      false
  }

  /** `f[0:len(f)-3]` for a name that ends with `.as`. */
  function BaseName(f: string): (b: string)
    requires IsSourceName(f)
    ensures b + Extension == f
  {
    f[..|f| - 3]
  }

  /** Stripping the extension and putting it back are inverse. */
  lemma BaseNameOfSourceName(b: string)
    ensures IsSourceName(b + Extension)
    ensures BaseName(b + Extension) == b
  {
    assert (b + Extension)[|b|..] == Extension;
  }

  /** The keys of the sibling map of a directory with listing `es`. */
  function SiblingKeys(es: seq<Entry>): set<string> {
    set i | 0 <= i < |es| && IsSourceName(es[i].name) :: BaseName(es[i].name)
  }

  /** The sibling keys are exactly the names `k` for which `k.as` is listed,
      whether that entry is a file or a directory. */
  lemma SiblingKeysExactly(es: seq<Entry>, k: string)
    ensures k in SiblingKeys(es) <==> exists i :: 0 <= i < |es| && es[i].name == k + Extension
  {
    BaseNameOfSourceName(k);
    if exists i :: 0 <= i < |es| && es[i].name == k + Extension {
      var i :| 0 <= i < |es| && es[i].name == k + Extension;
      assert BaseName(es[i].name) == k;
    }
  }

  /** Lines 9-12: every listed name that matches `*.as` is entered into the
      map under its base name, with the value 1. */
  method BuildSiblingMap(es: seq<Entry>) returns (m: map<string, int>)
    ensures m.Keys == SiblingKeys(es)
    ensures forall k :: k in m ==> m[k] == 1
  {
    m := map[];
    var i := 0;
    while i < |es|
      invariant 0 <= i <= |es|
      invariant m.Keys == SiblingKeys(es[..i])
      invariant forall k :: k in m ==> m[k] == 1
    {
      var f := es[i].name;
      if IsSourceName(f) {
        m := m[f[..|f| - 3] := 1];
      }
      assert es[..i + 1] == es[..i] + [es[i]];
      i := i + 1;
    }
    assert es[..i] == es;
  }

  /** Lines 18-21: the prefix handed to a subdirectory `f`. Below the root
      it is the parent's prefix and the directory name separated by a dot;
      the first level gets no dot. */
  function SubPrefix(prefix: string, f: string): (p: string)
    ensures EndsWith(p, f)
    ensures |prefix| == 0 ==> |p| == |f|
    ensures |prefix| > 0 ==> StartsWith(p, prefix + ".") && |p| == |prefix| + 1 + |f|
  {
    if |prefix| == 0 then f else prefix + "." + f
  }

  /** Line 24: a module's name is the prefix, a dot and the file name with
      its extension removed, even when the prefix is empty. */
  function ModuleName(prefix: string, f: string): (n: string)
    requires IsSourceName(f)
    ensures n + Extension == prefix + "." + f
  {
    prefix + "." + BaseName(f)
  }

  /** The prefix of a directory reached through the directory names `dirs`
      from the root. */
  function PathPrefix(dirs: seq<string>): string {
    Join(dirs, ".")
  }

  /** Extending the prefix one directory at a time (lines 18-22) builds the
      dot-joined path of directory names. */
  lemma SubPrefixExtendsPath(dirs: seq<string>, f: string)
    requires forall i :: 0 <= i < |dirs| ==> |dirs[i]| > 0
    ensures SubPrefix(PathPrefix(dirs), f) == PathPrefix(dirs + [f])
  {
    if |dirs| == 0 {
      assert [] + [f] == [f];
    } else {
      JoinSnoc(dirs, f, ".");
      assert |Join(dirs, ".")| >= |dirs[0]| by { JoinStartsWithFirst(dirs, "."); }
    }
  }

  /** A directory prefix starts with a dot only when the first directory on
      the path does (a hidden directory such as `.svn` at the top level). */
  lemma PathPrefixLeadingDot(dirs: seq<string>)
    requires forall i :: 0 <= i < |dirs| ==> |dirs[i]| > 0
    ensures StartsWith(PathPrefix(dirs), ".") <==> |dirs| > 0 && dirs[0][0] == '.'
  {
    if |dirs| > 0 {
      JoinStartsWithFirst(dirs, ".");
    }
  }

  /** The name of a module at `dirs/f` is the dot-joined path with the base
      name last; a module directly in the root gets a leading dot. */
  lemma ModuleNameQualified(dirs: seq<string>, f: string)
    requires IsSourceName(f)
    ensures |dirs| > 0 ==> ModuleName(PathPrefix(dirs), f) == PathPrefix(dirs + [BaseName(f)])
    ensures |dirs| == 0 ==> ModuleName(PathPrefix(dirs), f) == "." + BaseName(f)
  {
    if |dirs| > 0 {
      JoinSnoc(dirs, BaseName(f), ".");
    }
  }
}

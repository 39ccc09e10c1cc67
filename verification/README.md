# CodeExtract: a module dependency graph for an ActionScript tree

`flare.apps/etc/CodeExtract.py` walks the Flare ActionScript source tree. It
prints one JSON-like record per `.as` file: the module's dotted name, its
size in bytes, and the names it imports. It finds imports in two ways:

- **Explicit imports.** A stripped line that starts with `import flare`
  yields `line[7:len(line)-1]`.
- **Implicit references.** Any other line yields `prefix.sib` for every
  sibling key `sib` that occurs anywhere in the line as a raw substring.
  The sibling keys are the base names of all `*.as` entries, file or
  directory, in the same directory, the file's own included; only the name
  check on line 45 keeps a module from matching itself.

The module's own name is never reported. The import set is printed as quoted
names separated by commas.

This project models that pipeline in Dafny, apart from its I/O:

- The directory tree is given as data: `Tree.Entry`, either
  `Dir(name, children)` or `File(name, size, lines)`.
- `checkdir` becomes the pure recursive function `Walk.CheckDir`, with
  `Walk.VisitEntries` and `Walk.VisitEntry` for its loop.
- `parse` becomes `Imports.ImportsOf`, which defines the import set from
  what each line contributes (`Imports.LineImports`), and
  `Imports.SerializeImports`, which prints it. The methods
  `Imports.CollectImports` and `Imports.Parse` follow the source's loops.
- The printed text is modelled in `Records` (one record) and `Emit` (the
  whole array).

Modules:

- `Text`: the Python 2 string operations the extractor uses, each with the
  contract that characterises it: `str.find`, `str.strip()`,
  `str.startswith` and `str(n)`. Beside them are helpers for stating the
  shape of the output and reading it back: `str.endswith`, `str.rstrip`,
  `sep.join`, splitting on one character, and counting a character.
- `Tree`: the entry datatype, the `*.as` test, the sibling map (lines
  9-12), and the prefix and name construction (lines 18-24).
- `Imports`: explicit and implicit import extraction (lines 35-46) and the
  comma-joined serialisation (lines 48-50).
- `Records`: the record text of lines 26-28, and a reader that takes it
  apart again.
- `Walk`: `checkdir`, compared with an independent listing of every source
  file together with its directory path.
- `Emit`: the printed array, both as written and corrected (see Findings).

Behaviour of the code that is easy to miss:

- **Leading dot at the root.** A file directly in the scanned root is named
  `.Base`. Line 24 always writes `prefix + '.' + base`, even when the
  prefix is empty. Only subdirectory prefixes get the empty-prefix case
  (lines 18-21).
- **No trailing comma inside `imports`.** Line 50 drops the last character
  of the accumulated string, so there is no comma after the last import.
  Only the outer array has a trailing comma.
- **Explicit import target.** The target is the text after `import `, minus
  the last character, so it starts with `flare` when the line is longer than
  `import flare`. A malformed line is not skipped. For example, the bare
  line `import flare` yields `flar`.
- **Directories in the sibling map.** Line 11 does not check the entry type.
  So a directory named `x.as` puts `x` into the sibling map, although it is
  never reported as a module.
- **Empty sibling key.** An entry named exactly `.as` gives the empty key.
  The empty string is found in every line, so every non-import line then
  yields `prefix.`.

## Model

| member | source | states |
|---|---|---|
| Tree.IsSourceName | flare.apps/etc/CodeExtract.py:6-11 | a name matches `*.as` iff it is some string, the empty one included, followed by `.as` (the same test picks the files reported on line 23) |
| Tree.BaseName | flare.apps/etc/CodeExtract.py:12 | the base name with `.as` appended again is the original entry name |
| Tree.BaseNameOfSourceName | flare.apps/etc/CodeExtract.py:11-12 | every `b + ".as"` matches `*.as` and has base name `b` |
| Tree.BuildSiblingMap | flare.apps/etc/CodeExtract.py:9-12 | the map built by the loop has exactly the base names of the `*.as` entries as keys, each mapped to 1 |
| Tree.SiblingKeysExactly | flare.apps/etc/CodeExtract.py:10-12 | `k` is a sibling key iff an entry named `k.as` is listed, file or directory |
| Tree.SubPrefix | flare.apps/etc/CodeExtract.py:18-21 | the prefix handed to a subdirectory ends with the directory's name; under the root it is just that name, deeper it is the parent prefix, a dot and the name |
| Tree.SubPrefixExtendsPath | flare.apps/etc/CodeExtract.py:18-22 | extending the prefix one directory at a time yields the dot-joined path of directory names, with no dot before the first |
| Tree.PathPrefixLeadingDot | flare.apps/etc/CodeExtract.py:18-21 | a directory prefix starts with `.` iff the first directory name on the path does |
| Tree.ModuleName | flare.apps/etc/CodeExtract.py:24 | a module's name with `.as` appended is the prefix, a dot and the file name, also for the empty prefix |
| Tree.ModuleNameQualified | flare.apps/etc/CodeExtract.py:24 | a module in `a/b` is named `a.b.Base`; a module in the root is named `.Base` |
| Text.FindFrom | flare.apps/etc/CodeExtract.py:45 | the result is -1 when the string occurs at no index from the start position on, else the first index where it occurs |
| Text.Find | flare.apps/etc/CodeExtract.py:45 | `line.find(sib) >= 0` iff `sib` is a substring of `line`, and a found index is the first occurrence |
| Text.LeadingSpace | flare.apps/etc/CodeExtract.py:37 | counts exactly the maximal run of whitespace at the start |
| Text.TrailingSpace | flare.apps/etc/CodeExtract.py:37 | counts exactly the maximal run of whitespace at the end |
| Text.Strip | flare.apps/etc/CodeExtract.py:37 | the stripped line neither starts nor ends with whitespace |
| Text.StripCutsOnlySpace | flare.apps/etc/CodeExtract.py:37 | the stripped line is a slice of the line, and everything cut off on either side is whitespace |
| Text.Decimal | flare.apps/etc/CodeExtract.py:26 | `str(size)` is a non-empty digit string; it is exactly `0` for size 0, a single digit iff the size is below 10, and otherwise starts with a non-zero digit |
| Text.DecimalRoundTrip | flare.apps/etc/CodeExtract.py:26 | reading the printed size back gives the size |
| Imports.IsExplicitImport | flare.apps/etc/CodeExtract.py:38 | a stripped line takes the explicit branch iff it is `import flare` followed by anything, nothing included |
| Imports.ExplicitTarget | flare.apps/etc/CodeExtract.py:39 | `import ` + target + the line's last character rebuilds the line; a line longer than `import flare` gives a target starting with `flare` |
| Imports.ImplicitLineContribution | flare.apps/etc/CodeExtract.py:43-46 | any other line adds `x` iff `x` is not the module's name and `x == prefix.sib` for a sibling key `sib` that is a substring of the line |
| Imports.LineImports | flare.apps/etc/CodeExtract.py:38-46 | what one stripped line adds to the set; in neither branch the module's own name |
| Imports.SiblingInsideLongerWord | flare.apps/etc/CodeExtract.py:45 | a sibling key occurring inside a longer identifier, comment or string still yields that sibling |
| Imports.SubstringFalsePositive | flare.apps/etc/CodeExtract.py:45 | `let Bx = 1;` in module `pkg.A` yields `pkg.B` |
| Imports.ScanSiblings | flare.apps/etc/CodeExtract.py:43-46 | the scan over the sibling keys, in whatever order they come, collects exactly the matching sibling names other than the module's own |
| Imports.CollectImports | flare.apps/etc/CodeExtract.py:35-46 | the line-by-line loop computes exactly the import set `ImportsOf` |
| Imports.ImportsOf | flare.apps/etc/CodeExtract.py:35-46 | the import set of a file, folded over its stripped lines; it never contains the module's own name |
| Imports.ImportsOfExactly | flare.apps/etc/CodeExtract.py:35-46 | `x` is imported iff it is not the module's name and some stripped line names it: as `line[7:len-1]` for a line starting with `import flare`, else as `prefix.sib` for a sibling key that is a substring of the line |
| Imports.ImportsOfMembers | flare.apps/etc/CodeExtract.py:35-46 | a name is in the import set iff some stripped line contributes it |
| Imports.ImportsIgnoreLineOrder | flare.apps/etc/CodeExtract.py:36-46 | two files with the same lines, in any order and with any repetition, have the same import set |
| Imports.ImportsOfAppend | flare.apps/etc/CodeExtract.py:36-46 | the import set of concatenated line sequences is the union of their import sets |
| Imports.QuotedWithCommas | flare.apps/etc/CodeExtract.py:48-49 | the loop's accumulated text for at least one name is the quoted names joined by commas, plus one more comma |
| Imports.SerializeImports | flare.apps/etc/CodeExtract.py:48-50 | quoting each name and appending a comma, then dropping the last character, is the comma join of the quoted names: empty for no imports, no trailing comma otherwise |
| Imports.SerializeCommaCount | flare.apps/etc/CodeExtract.py:48-50 | `n >= 1` comma-free names serialise with exactly `n - 1` commas |
| Imports.DecodeSerializeRoundTrip | flare.apps/etc/CodeExtract.py:48-50 | splitting the serialised list at commas and unquoting gives back the names in iteration order |
| Imports.Parse | flare.apps/etc/CodeExtract.py:31-50 | the order returned enumerates the import set, each name once, and the string is those names quoted and comma-joined |
| Records.Record | flare.apps/etc/CodeExtract.py:26-28 | a record starts with `{"name":"` and always ends with `},` |
| Records.RecordRoundTrip | flare.apps/etc/CodeExtract.py:26-28 | reading a record back yields its name, size and import text, provided the name contains no double quote |
| Walk.ModuleOf | flare.apps/etc/CodeExtract.py:24-28 | the module reported for one source file never lists itself among its imports |
| Walk.VisitEntry | flare.apps/etc/CodeExtract.py:15-28 | one entry of the loop yields as many modules as there are source files in it: one for a non-directory `*.as` entry, everything below for a directory, none otherwise; no module lists itself among its imports |
| Walk.CheckDir | flare.apps/etc/CodeExtract.py:8-28 | `checkdir` reports exactly one module per non-directory `*.as` entry below, descending into every directory (`*.as` ones included, which are never reported), and no module lists itself among its imports |
| Walk.CheckDirIsListing | flare.apps/etc/CodeExtract.py:8-28 | `checkdir` from the directory at path `dirs` reports, in listing order, one module per source file below, named from its full path, with the import set of its lines and its directory's siblings |
| Walk.WalkNamesModulesByPath | flare.apps/etc/CodeExtract.py:14-24 | the same, for a walk from the root with the empty prefix |
| Emit.RecordOfDescribesModule | flare.apps/etc/CodeExtract.py:26-28 | a printed record reads back as the module's name, its size, and a list naming each import exactly once |
| Emit.ObjectOf | flare.apps/etc/CodeExtract.py:28 | the corrected record is a `{...}` object, and appending a comma gives the record line 28 prints |
| Emit.Objects | flare.apps/etc/CodeExtract.py:26-28 | one `{...}` object per module, in order; each with a comma appended is the record line 28 prints |
| Emit.RecordsDescribe | flare.apps/etc/CodeExtract.py:26-28 | every printed record of a printable module, whose order lists each import once, reads back as that module's name, size and imports |
| Emit.PrintedRecords | flare.apps/etc/CodeExtract.py:29 | with at least one module, the printed record lines are the objects joined by a comma and a newline, followed by one more comma and newline, so the text ends `},` and a newline |
| Emit.OutputAsWritten | flare.apps/etc/CodeExtract.py:53-55 | the printed text opens with a `[` line and closes with a `]` line; with at least one module it ends `},` newline `]`, so there is a comma right before the closing `]` |
| Emit.AsWrittenSingleModule | flare.apps/etc/CodeExtract.py:53-55 | walking the tree `flare/A.as` reports one module, and printing it as written already leaves the trailing comma |
| Emit.Output | flare.apps/etc/CodeExtract.py:53-55 | the corrected array opens with a `[` line and closes with a `]` line and never has a comma before the `]`; with no modules it is exactly what the code prints, otherwise it is what the code prints with the one comma before the closing line removed |
| Emit.Extract | flare.apps/etc/CodeExtract.py:52-55 | walking a tree from the root and printing the corrected array gives the code's output with the comma before the closing line removed (unchanged when no file is found), and each printable module's record, in walk order, reads back as that module's name, size and imports, each once |

## Left out

- `os.listdir`, `os.stat` and `open`: the tree is given as an `Entry` value. The two `os.listdir` calls on a directory are assumed to return the same listing. File size is an opaque `nat`, and file contents are a sequence of lines.
- Filesystem errors (a path that cannot be listed, stat'ed or opened): the model has no failing entries, so the abort of the whole run is not modelled.
- Directory-listing order: entries are a given sequence. Nothing is claimed about how the operating system orders them.
- Set iteration order (line 48): the serialisers take a duplicate-free sequence that enumerates the set. `Imports.Parse` picks one nondeterministically, and nothing is claimed about which.
- `fnmatch.translate`/`re.match`: replaced by "the name ends with `.as`", which is what the translated pattern `.*\.as\Z(?ms)` matches.
- The hard-coded `srcdir` (line 52): `Emit.Extract` takes the root listing as a parameter.
- `print`: the printed text is modelled as a string, with the newline each `print` adds.
- Byte-level encoding: file names and lines are Dafny strings. Whitespace is the 8-bit `isspace` set: space, tab, newline, vertical tab, form feed and carriage return.
- Emit.RecordOfDescribesModule: proved only for printable modules, whose name has no double quote and whose imports have no comma, for the reasons below. `Emit.RecordsDescribe` and `Emit.Extract` state their read-back only for such modules.
- Records.RecordRoundTrip: proved only for names without a double quote. The source does not escape names, so a name containing `"` cannot be read back unambiguously.
- Imports.DecodeSerializeRoundTrip: proved only for names without a comma, for the same reason. `Imports.SerializeCommaCount` has the same restriction.
- Tree.SubPrefixExtendsPath: requires non-empty directory names, which a filesystem guarantees. An empty name would make the empty-prefix test on line 18 fire one level too deep. `Tree.PathPrefixLeadingDot`, `Walk.CheckDirIsListing` and `Walk.WalkNamesModulesByPath` have the same restriction.

## Findings

| source | as written | input that shows it | evidently intended | confidence | as-written member | corrected member |
|---|---|---|---|---|---|---|
| flare.apps/etc/CodeExtract.py:28 | every record is printed ending in `},`, and line 55 prints the closing `]` right after the last one, so the array has a trailing comma and is not valid JSON | a tree with one directory `flare` holding one empty `A.as` (module `flare.A`, size 0, no imports) | the records separated by commas, with no comma after the last | medium; not executed | Emit.AsWrittenSingleModule | Emit.Output |

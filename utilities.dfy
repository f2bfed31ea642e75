/**
 * The path- and name-level rules of the pollution-data utilities: recognising
 * original gas files, merging a parent name into a basename, counting a
 * directory listing, and deriving (and creating) the per-gas directory.
 */
module Utilities {
  import opened Wrappers
  import opened Strings
  import opened PurePath

  /** An argument typed `str | Path`: a string, a Path, or any other Python object (an int, a bool, None). */
  datatype PathArg = Str(s: string) | PathObject(p: ValidPath) | OtherObject

  /** Path(arg): a TypeError for anything that is neither a str nor a Path. */
  function ToPath(arg: PathArg): (r: Result<ValidPath>)
    ensures r.Err? <==> arg.OtherObject?
    ensures r.Err? ==> r.error == TypeError
    ensures arg.PathObject? ==> r == Ok(arg.p)
  {
    match arg
    case Str(s) => Ok(Parse(s))
    case PathObject(p) => Ok(p)
    case OtherObject => Err(TypeError)
  }

  /** The gas formulas an original gas file is named after. */
  const Gasses: seq<string> := ["CO2", "CH4", "N2O", "SF6", "H2"]

  /** Two strings that differ at one position are different. */
  lemma DifferAt(a: string, b: string, i: nat)
    requires i < |a| && i < |b| && a[i] != b[i]
    ensures a != b
  {
  }

  /** Two three-character strings with the same characters are equal. */
  lemma SameThreeCharacters(a: string, b: string)
    requires |a| == 3 && |b| == 3 && a[0] == b[0] && a[1] == b[1] && a[2] == b[2]
    ensures a == b
  {
    assert forall k :: 0 <= k < 3 ==> a[k] == b[k];
  }

  /** Upper-casing keeps a string free of '/'. */
  lemma UpperKeepsNoSlash(s: string)
    requires '/' !in s
    ensures '/' !in Upper(s)
  {
    forall k | 0 <= k < |s|
      ensures Upper(s)[k] != '/'
    {
      assert s[k] != '/';
    }
  }

  /** is_gas_csv: ValueError unless the suffix is ".csv"; otherwise whether the upper-cased stem is a gas. */
  function IsGasCsv(path: PathArg): (r: Result<bool>)
    ensures path.OtherObject? ==> r == Err(TypeError)
    ensures !path.OtherObject? ==> (r == Err(ValueError) <==> Suffix(ToPath(path).value) != ".csv")
    ensures !path.OtherObject? && Suffix(ToPath(path).value) == ".csv" ==> r.Ok?
    ensures r.Ok? ==> (r.value <==> Upper(Stem(ToPath(path).value)) in Gasses)
  {
    match ToPath(path)
    case Err(e) => Err(e)
    case Ok(p) =>
      if Suffix(p) != ".csv" then Err(ValueError)
      else Ok(Upper(Stem(p)) in Gasses)
  }

  /** A file named after a gas, in any letter case, with the ".csv" suffix is accepted, wherever it lies. */
  lemma GasFileAccepted(dir: ValidPath, stem: string)
    requires Upper(stem) in Gasses
    ensures ValidPart(stem + ".csv")
    ensures IsGasCsv(PathObject(JoinName(dir, stem + ".csv"))) == Ok(true)
  {
    assert stem != "" && '/' !in stem by {
      forall k | 0 <= k < |stem|
        ensures stem[k] != '/'
      {
        assert Upper(stem)[k] in Upper(stem);
      }
    }
    var name := stem + ".csv";
    assert '/' !in name by { assert name[|stem|..] == ".csv"; }
    var p := JoinName(dir, name);
    assert name == stem + "." + "csv";
    StemOfDottedName(p, stem, "csv");
  }

  /** Conversely, an accepted path is named "<stem>.csv" with the upper-cased stem a gas. */
  lemma AcceptedFileIsGasFile(path: PathArg)
    requires IsGasCsv(path) == Ok(true)
    ensures var p := ToPath(path).value;
      Name(p) == Stem(p) + ".csv" && Upper(Stem(p)) in Gasses
  {
    StemSuffixSplitName(ToPath(path).value);
  }

  // The recorded cases of is_gas_csv.

  /** Upper-casing "co2" gives the first gas, "CO2". */
  lemma LowerCaseStemIsAGas()
    ensures Upper("co2") == Gasses[0]
  {
    var upper, gas := Upper("co2"), Gasses[0];
    assert upper[0] == 'C' && upper[1] == 'O' && upper[2] == '2';
    SameThreeCharacters(upper, gas);
  }

  /** Upper-casing "123_CO2" gives no gas: it starts with a digit. */
  lemma PrefixedStemIsNoGas()
    ensures Upper("123_CO2") !in Gasses
  {
    var upper := Upper("123_CO2");
    assert upper[0] == '1';
    DifferAt(upper, "CO2", 0);
    DifferAt(upper, "CH4", 0);
    DifferAt(upper, "N2O", 0);
    DifferAt(upper, "SF6", 0);
    DifferAt(upper, "H2", 0);
  }

  /** Recorded case: a path named "co2.csv" is a gas file. */
  lemma LowerCaseGasFileAccepted(p: ValidPath)
    requires Name(p) == "co2.csv"
    ensures IsGasCsv(PathObject(p)) == Ok(true)
  {
    assert Name(p) == "co2" + ".csv";
    CsvFileByStem(p, "co2");
    LowerCaseStemIsAGas();
  }

  /** Recorded case: a path named "123_CO2.csv" is not a gas file. */
  lemma PrefixedGasFileRejected(p: ValidPath)
    requires Name(p) == "123_CO2.csv"
    ensures IsGasCsv(PathObject(p)) == Ok(false)
  {
    assert Name(p) == "123_CO2" + ".csv";
    CsvFileByStem(p, "123_CO2");
    PrefixedStemIsNoGas();
  }

  /** Recorded case: a path named "CO2.txt" raises ValueError. */
  lemma TextFileRaises(p: ValidPath)
    requires Name(p) == "CO2.txt"
    ensures IsGasCsv(PathObject(p)) == Err(ValueError)
  {
    StemOfDottedName(p, "CO2", "txt");
  }

  /** Recorded cases: a directory name without a suffix, the empty string and a non-path raise. */
  lemma NonFileArgumentsRaise()
    ensures IsGasCsv(PathObject(Path(true, ["home", "tests"]))) == Err(ValueError)
    ensures IsGasCsv(Str("")) == Err(ValueError)
    ensures IsGasCsv(OtherObject) == Err(TypeError)
  {
    assert RFind("tests", '.') == -1;
  }

  /** merge_parent_and_basename: "<parent name>_<name>", ValueError when the parent has no name. */
  function MergeParentAndBasename(path: PathArg): (r: Result<string>)
    ensures path.OtherObject? ==> r == Err(TypeError)
  {
    match ToPath(path)
    case Err(e) => Err(e)
    case Ok(p) =>
      var parentName := Name(Parent(p));
      if parentName == "" then Err(ValueError)
      else Ok(Replace(parentName + "_" + Name(p), '/', '_'))
  }

  /** Two names free of '/' joined by "_" are free of '/'. */
  lemma UnderscoreJoinKeepsNoSlash(a: string, b: string)
    requires '/' !in a && '/' !in b
    ensures '/' !in a + "_" + b
  {
    var m := a + "_" + b;
    forall k | 0 <= k < |m|
      ensures m[k] != '/'
    {
      if k < |a| {
        assert m[k] == a[k];
      } else if k > |a| {
        assert m[k] == b[k - |a| - 1];
      }
    }
  }

  /**
   * For a path, the merged name is its last two components joined by "_",
   * and a path of fewer than two components raises ValueError; the
   * separator replacement never changes anything.
   */
  lemma MergeJoinsLastTwoComponents(path: PathArg)
    requires !path.OtherObject?
    ensures var parts := ToPath(path).value.parts;
      MergeParentAndBasename(path) ==
        if |parts| < 2 then Err(ValueError)
        else Ok(parts[|parts| - 2] + "_" + parts[|parts| - 1])
  {
    var p := ToPath(path).value;
    if |p.parts| >= 2 {
      var q := Parent(p);
      assert q.parts == p.parts[..|p.parts| - 1];
      UnderscoreJoinKeepsNoSlash(Name(q), Name(p));
    }
  }

  /** The same holds for the string form of a path. */
  lemma MergeOfRenderedPath(p: ValidPath)
    requires |p.parts| >= 2
    ensures MergeParentAndBasename(Str(Render(p))) == Ok(p.parts[|p.parts| - 2] + "_" + p.parts[|p.parts| - 1])
  {
    ParseRender(p);
    MergeJoinsLastTwoComponents(Str(Render(p)));
  }

  /** Recorded case: "/User/documents/myfile.txt" (or its relative form) merges to "documents_myfile.txt". */
  lemma NestedFileMerged(p: ValidPath)
    requires p.parts == ["User", "documents", "myfile.txt"]
    ensures MergeParentAndBasename(Str(Render(p))) == Ok("documents" + "_" + "myfile.txt")
  {
    MergeOfRenderedPath(p);
  }

  /** Recorded case: "some_dir/some_sub_dir" merges to "some_dir_some_sub_dir". */
  lemma NestedDirectoryMerged(p: ValidPath)
    requires p.parts == ["some_dir", "some_sub_dir"]
    ensures MergeParentAndBasename(Str(Render(p))) == Ok("some_dir" + "_" + "some_sub_dir")
  {
    MergeOfRenderedPath(p);
  }

  /** Recorded cases: "no_parent.txt" raises ValueError, a non-path TypeError. */
  lemma ParentlessPathRaises(p: ValidPath)
    requires p.parts == ["no_parent.txt"]
    ensures MergeParentAndBasename(Str(Render(p))) == Err(ValueError)
    ensures MergeParentAndBasename(OtherObject) == Err(TypeError)
  {
    ParseRender(p);
    MergeJoinsLastTwoComponents(Str(Render(p)));
  }

  /** The rendered string of a recorded parentless path. */
  lemma ParentlessPathRendered()
    ensures Render(Path(false, ["no_parent.txt"])) == "no_parent.txt"
  {
  }

  /** An absolute path of three components renders as "/a/b/c". */
  lemma RenderThreeComponents(a: string, b: string, c: string)
    requires ValidPart(a) && ValidPart(b) && ValidPart(c)
    ensures Render(Path(true, [a, b, c])) == "/" + a + "/" + b + "/" + c
  {
    var parts := [a, b, c];
    assert Join(parts[1..], '/') == b + "/" + c by {
      assert parts[1..][1..] == [c];
    }
  }

  /** The rendered string of the recorded absolute path "/User/documents/myfile.txt". */
  lemma NestedFileRendered()
    ensures Render(Path(true, ["User", "documents", "myfile.txt"])) == "/" + "User" + "/" + "documents" + "/" + "myfile.txt"
  {
    RenderThreeComponents("User", "documents", "myfile.txt");
  }

  /** The rendered string of a recorded two-component path. */
  lemma NestedDirectoryRendered()
    ensures Render(Path(false, ["some_dir", "some_sub_dir"])) == "some_dir/some_sub_dir"
  {
    var parts := ["some_dir", "some_sub_dir"];
    assert Join(parts[1..], '/') == "some_sub_dir";
    assert Join(parts, '/') == parts[0] + "/" + parts[1];
  }

  /** What an entry of dir.rglob('*') is: a directory, a regular file, or neither (a broken link, a socket). */
  datatype EntryKind = Directory | RegularFile | OtherEntry

  /** One entry of the recursive listing. */
  datatype Entry = Entry(path: ValidPath, kind: EntryKind)

  /**
   * The counters of get_diagnostics, under the keys "files",
   * "subdirectories", ".csv files", ".txt files", ".npy files", ".md files"
   * and "other files".
   */
  datatype Diagnostics = Diagnostics(
    files: nat, subdirectories: nat,
    csvFiles: nat, txtFiles: nat, npyFiles: nat, mdFiles: nat, otherFiles: nat)

  /** The counters before the listing is read. */
  const NoFindings := Diagnostics(0, 0, 0, 0, 0, 0, 0)

  /** The suffixes get_diagnostics counts on their own. */
  const CountedSuffixes: seq<string> := [".csv", ".txt", ".npy", ".md"]

  /** The counters after one more entry of the listing. */
  function Tally(d: Diagnostics, e: Entry): Diagnostics {
    match e.kind
    case Directory => d.(subdirectories := d.subdirectories + 1)
    case RegularFile =>
      var f := d.(files := d.files + 1);
      var suffix := Suffix(e.path);
      if suffix == ".csv" then f.(csvFiles := f.csvFiles + 1)
      else if suffix == ".txt" then f.(txtFiles := f.txtFiles + 1)
      else if suffix == ".npy" then f.(npyFiles := f.npyFiles + 1)
      else if suffix == ".md" then f.(mdFiles := f.mdFiles + 1)
      else f.(otherFiles := f.otherFiles + 1)
    case OtherEntry => d
  }

  /** The counters after the whole listing, entry by entry from the first. */
  function Diagnose(entries: seq<Entry>): Diagnostics {
    if entries == [] then NoFindings
    else Tally(Diagnose(entries[..|entries| - 1]), entries[|entries| - 1])
  }

  /**
   * get_diagnostics, with the file system given as the status of the root
   * (None when it does not exist) and the rglob listing beneath it.
   */
  method GetDiagnostics(dir: PathArg, root: Option<EntryKind>, contents: seq<Entry>) returns (r: Result<Diagnostics>)
    ensures dir.OtherObject? ==> r == Err(TypeError)
    ensures !dir.OtherObject? && root != Some(Directory) ==> r == Err(NotADirectoryError)
    ensures !dir.OtherObject? && root == Some(Directory) ==> r == Ok(Diagnose(contents))
  {
    var res := NoFindings;
    var path := ToPath(dir);
    if path.Err? {
      return Err(path.error);
    }
    if root.None? {
      return Err(NotADirectoryError);
    }
    if root.value != Directory {
      return Err(NotADirectoryError);
    }
    var i := 0;
    while i < |contents|
      invariant 0 <= i <= |contents|
      invariant res == Diagnose(contents[..i])
    {
      var entry := contents[i];
      if entry.kind == Directory {
        res := res.(subdirectories := res.subdirectories + 1);
      } else if entry.kind == RegularFile {
        res := res.(files := res.files + 1);
        var suffix := Suffix(entry.path);
        if suffix == ".csv" {
          res := res.(csvFiles := res.csvFiles + 1);
        } else if suffix == ".txt" {
          res := res.(txtFiles := res.txtFiles + 1);
        } else if suffix == ".npy" {
          res := res.(npyFiles := res.npyFiles + 1);
        } else if suffix == ".md" {
          res := res.(mdFiles := res.mdFiles + 1);
        } else {
          res := res.(otherFiles := res.otherFiles + 1);
        }
      }
      DiagnosePrefix(contents, i);
      i := i + 1;
    }
    assert contents[..i] == contents;
    return Ok(res);
  }

  /** The counters after one more entry of a listing. */
  lemma DiagnosePrefix(entries: seq<Entry>, i: nat)
    requires i < |entries|
    ensures Diagnose(entries[..i + 1]) == Tally(Diagnose(entries[..i]), entries[i])
  {
    assert entries[..i + 1][..i] == entries[..i];
  }

  /** Every counted file is counted under exactly one suffix heading. */
  lemma {:induction false} FilesArePartitioned(entries: seq<Entry>)
    ensures var d := Diagnose(entries);
      d.files == d.csvFiles + d.txtFiles + d.npyFiles + d.mdFiles + d.otherFiles
  {
    if entries != [] {
      FilesArePartitioned(entries[..|entries| - 1]);
    }
  }

  /** How many entries satisfy keep, counted from the front. */
  function CountWhere(entries: seq<Entry>, keep: Entry -> bool): nat {
    if entries == [] then 0
    else (if keep(entries[0]) then 1 else 0) + CountWhere(entries[1..], keep)
  }

  /** Counting over one more entry at the back. */
  lemma {:induction false} CountWhereSnoc(entries: seq<Entry>, e: Entry, keep: Entry -> bool)
    ensures CountWhere(entries + [e], keep) == CountWhere(entries, keep) + (if keep(e) then 1 else 0)
  {
    if entries != [] {
      assert (entries + [e])[1..] == entries[1..] + [e];
      CountWhereSnoc(entries[1..], e, keep);
    }
  }

  predicate IsFile(e: Entry) {
    e.kind == RegularFile
  }

  predicate IsDirectory(e: Entry) {
    e.kind == Directory
  }

  predicate IsFileWithSuffix(e: Entry, suffix: string) {
    e.kind == RegularFile && Suffix(e.path) == suffix
  }

  predicate IsCsvFile(e: Entry) { IsFileWithSuffix(e, ".csv") }
  predicate IsTxtFile(e: Entry) { IsFileWithSuffix(e, ".txt") }
  predicate IsNpyFile(e: Entry) { IsFileWithSuffix(e, ".npy") }
  predicate IsMdFile(e: Entry) { IsFileWithSuffix(e, ".md") }

  predicate IsOtherFile(e: Entry) {
    e.kind == RegularFile && Suffix(e.path) !in CountedSuffixes
  }

  /** One entry adds one to the counter of each kind it is of. */
  lemma TallyByKind(d: Diagnostics, e: Entry)
    ensures Tally(d, e) == Diagnostics(
      d.files + (if IsFile(e) then 1 else 0),
      d.subdirectories + (if IsDirectory(e) then 1 else 0),
      d.csvFiles + (if IsCsvFile(e) then 1 else 0),
      d.txtFiles + (if IsTxtFile(e) then 1 else 0),
      d.npyFiles + (if IsNpyFile(e) then 1 else 0),
      d.mdFiles + (if IsMdFile(e) then 1 else 0),
      d.otherFiles + (if IsOtherFile(e) then 1 else 0))
  {
  }

  /** Each counter is the number of entries of its kind in the listing. */
  lemma {:induction false} DiagnoseCountsEntries(entries: seq<Entry>)
    ensures Diagnose(entries) == Diagnostics(
      CountWhere(entries, IsFile),
      CountWhere(entries, IsDirectory),
      CountWhere(entries, IsCsvFile),
      CountWhere(entries, IsTxtFile),
      CountWhere(entries, IsNpyFile),
      CountWhere(entries, IsMdFile),
      CountWhere(entries, IsOtherFile))
  {
    if entries != [] {
      var front, e := entries[..|entries| - 1], entries[|entries| - 1];
      assert entries == front + [e];
      DiagnoseCountsEntries(front);
      TallyByKind(Diagnose(front), e);
      CountWhereSnoc(front, e, IsFile);
      CountWhereSnoc(front, e, IsDirectory);
      CountWhereSnoc(front, e, IsCsvFile);
      CountWhereSnoc(front, e, IsTxtFile);
      CountWhereSnoc(front, e, IsNpyFile);
      CountWhereSnoc(front, e, IsMdFile);
      CountWhereSnoc(front, e, IsOtherFile);
    }
  }

  /** No entry satisfies keep, so none is counted. */
  lemma {:induction false} CountWhereNone(entries: seq<Entry>, keep: Entry -> bool)
    requires forall k :: 0 <= k < |entries| ==> !keep(entries[k])
    ensures CountWhere(entries, keep) == 0
  {
    if entries != [] {
      CountWhereNone(entries[1..], keep);
    }
  }

  /**
   * The recorded tree: four directories and ten files, eight of them ".csv"
   * and two ".npy", give the recorded counts.
   */
  lemma RecordedTree(entries: seq<Entry>)
    requires CountWhere(entries, IsDirectory) == 4
    requires CountWhere(entries, IsCsvFile) == 8
    requires CountWhere(entries, IsNpyFile) == 2
    requires forall k :: 0 <= k < |entries| && IsFile(entries[k]) ==>
      IsCsvFile(entries[k]) || IsNpyFile(entries[k])
    ensures Diagnose(entries) == Diagnostics(10, 4, 8, 0, 2, 0, 0)
  {
    DiagnoseCountsEntries(entries);
    FilesArePartitioned(entries);
    forall k | 0 <= k < |entries|
      ensures !IsTxtFile(entries[k]) && !IsMdFile(entries[k]) && !IsOtherFile(entries[k])
    {
      if IsFile(entries[k]) {
        assert IsCsvFile(entries[k]) || IsNpyFile(entries[k]);
      }
    }
    CountWhereNone(entries, IsTxtFile);
    CountWhereNone(entries, IsMdFile);
    CountWhereNone(entries, IsOtherFile);
  }

  /** The gas list get_dest_dir_from_csv_file checks against, as written: "NO2" where "N2O" is meant. */
  const DestGassesAsWritten: seq<string> := ["CO2", "CH4", "NO2", "SF6", "H2"]

  /** The name of the directory a gas file is sorted into: "gas_" and the upper-cased stem. */
  function DestName(file: ValidPath): (name: string)
    ensures ValidPart(name)
    ensures |name| >= 4 && name[..4] == "gas_"
  {
    var stem := Stem(file);
    assert '/' !in stem by {
      assert stem == Name(file)[..|stem|];
    }
    UpperKeepsNoSlash(stem);
    "gas_" + Upper(stem)
  }

  /**
   * The checks and the result path of get_dest_dir_from_csv_file against a
   * gas list, given the paths that exist as directories and as files.
   */
  function DestDirWith(gasses: seq<string>, dirs: set<ValidPath>, files: set<ValidPath>,
                       destParent: PathArg, filePath: PathArg): Result<ValidPath>
  {
    if destParent.OtherObject? || filePath.OtherObject? then Err(TypeError)
    else
      var parent, file := ToPath(destParent).value, ToPath(filePath).value;
      if parent !in dirs && parent !in files then Err(NotADirectoryError)
      else if file !in dirs && file !in files then Err(ValueError)
      else if parent !in dirs then Err(NotADirectoryError)
      else if file !in files || Suffix(file) != ".csv" then Err(ValueError)
      else if Upper(Stem(file)) !in gasses then Err(ValueError)
      else Ok(JoinName(parent, DestName(file)))
  }

  /** get_dest_dir_from_csv_file as written, with "NO2" in its gas list. */
  function DestDirAsWritten(dirs: set<ValidPath>, files: set<ValidPath>, destParent: PathArg, filePath: PathArg): Result<ValidPath> {
    DestDirWith(DestGassesAsWritten, dirs, files, destParent, filePath)
  }

  /** get_dest_dir_from_csv_file with the gas list its documentation and is_gas_csv name. */
  function DestDir(dirs: set<ValidPath>, files: set<ValidPath>, destParent: PathArg, filePath: PathArg): Result<ValidPath> {
    DestDirWith(Gasses, dirs, files, destParent, filePath)
  }

  /** A file named "<stem>.csv" is a gas file by is_gas_csv exactly when its upper-cased stem is a gas. */
  lemma CsvFileByStem(file: ValidPath, stem: string)
    requires stem != "" && Name(file) == stem + ".csv"
    ensures IsGasCsv(PathObject(file)) == Ok(Upper(stem) in Gasses)
  {
    assert stem + ".csv" == stem + "." + "csv";
    StemOfDottedName(file, stem, "csv");
  }

  /**
   * For an existing parent directory and an existing file named "<stem>.csv",
   * the directory derivation succeeds exactly when the upper-cased stem is on
   * its gas list.
   */
  lemma CsvFileDestDirByStem(gasses: seq<string>, dirs: set<ValidPath>, files: set<ValidPath>,
                             parent: ValidPath, file: ValidPath, stem: string)
    requires parent in dirs && file in files
    requires stem != "" && Name(file) == stem + ".csv"
    ensures DestDirWith(gasses, dirs, files, PathObject(parent), PathObject(file)).Ok? <==> Upper(stem) in gasses
  {
    assert stem + ".csv" == stem + "." + "csv";
    StemOfDottedName(file, stem, "csv");
  }

  /** The two gas lists differ in one entry: is_gas_csv's has "N2O", the directory derivation's "NO2". */
  lemma GasListsDiffer()
    ensures "N2O" in Gasses && "N2O" !in DestGassesAsWritten
    ensures "NO2" !in Gasses && "NO2" in DestGassesAsWritten
  {
    assert Gasses[2] == "N2O" && DestGassesAsWritten[2] == "NO2";
    var n2o, no2 := "N2O", "NO2";
    DifferAt(n2o, "CO2", 0);
    DifferAt(n2o, "CH4", 0);
    DifferAt(n2o, "NO2", 1);
    DifferAt(n2o, "SF6", 0);
    DifferAt(n2o, "H2", 0);
    DifferAt(no2, "CO2", 0);
    DifferAt(no2, "CH4", 0);
    DifferAt(no2, "N2O", 1);
    DifferAt(no2, "SF6", 0);
    DifferAt(no2, "H2", 0);
  }

  /** As written, an existing "N2O.csv" is a gas file by is_gas_csv but is refused. */
  lemma AsWrittenRefusesN2O(dirs: set<ValidPath>, files: set<ValidPath>, parent: ValidPath, file: ValidPath)
    requires parent in dirs && file in files
    requires Name(file) == "N2O.csv"
    ensures IsGasCsv(PathObject(file)) == Ok(true)
    ensures DestDirAsWritten(dirs, files, PathObject(parent), PathObject(file)) == Err(ValueError)
  {
    var stem := "N2O";
    assert Name(file) == stem + ".csv";
    UpperWithoutLowerCase(stem);
    GasListsDiffer();
    CsvFileByStem(file, stem);
    CsvFileDestDirByStem(DestGassesAsWritten, dirs, files, parent, file, stem);
  }

  /** As written, an existing "NO2.csv" is no gas file by is_gas_csv but gets a directory. */
  lemma AsWrittenAcceptsNO2(dirs: set<ValidPath>, files: set<ValidPath>, parent: ValidPath, file: ValidPath)
    requires parent in dirs && file in files
    requires Name(file) == "NO2.csv"
    ensures IsGasCsv(PathObject(file)) == Ok(false)
    ensures DestDirAsWritten(dirs, files, PathObject(parent), PathObject(file)).Ok?
  {
    var stem := "NO2";
    assert Name(file) == stem + ".csv";
    UpperWithoutLowerCase(stem);
    GasListsDiffer();
    CsvFileByStem(file, stem);
    CsvFileDestDirByStem(DestGassesAsWritten, dirs, files, parent, file, stem);
  }

  /**
   * With the corrected list, the call succeeds exactly for an existing parent
   * directory and an existing file that is_gas_csv accepts, and the result is
   * "gas_<STEM>" under the parent.
   */
  lemma DestDirAcceptsExactlyGasFiles(dirs: set<ValidPath>, files: set<ValidPath>,
                                      destParent: PathArg, filePath: PathArg)
    requires dirs !! files
    requires !destParent.OtherObject? && !filePath.OtherObject?
    ensures var parent, file := ToPath(destParent).value, ToPath(filePath).value;
      DestDir(dirs, files, destParent, filePath).Ok? <==>
        parent in dirs && file in files && IsGasCsv(filePath) == Ok(true)
    ensures var r, parent, file := DestDir(dirs, files, destParent, filePath), ToPath(destParent).value, ToPath(filePath).value;
      r.Ok? ==> Parent(r.value) == parent && Name(r.value) == "gas_" + Upper(Stem(file))
  {
  }

  /**
   * Which error a failed call raises, for either gas list: TypeError for a
   * non-path argument; NotADirectoryError for a missing parent, or a parent
   * that is a file when the file exists; ValueError for a missing file, and
   * under a parent directory for anything but an existing ".csv" file whose
   * upper-cased stem is on the list. With the corrected list that is any file
   * is_gas_csv does not accept.
   */
  lemma DestDirErrors(gasses: seq<string>, dirs: set<ValidPath>, files: set<ValidPath>,
                      destParent: PathArg, filePath: PathArg)
    requires dirs !! files
    ensures destParent.OtherObject? || filePath.OtherObject? ==>
      DestDirWith(gasses, dirs, files, destParent, filePath) == Err(TypeError)
    ensures !destParent.OtherObject? && !filePath.OtherObject? ==>
      var parent, file := ToPath(destParent).value, ToPath(filePath).value;
      var r := DestDirWith(gasses, dirs, files, destParent, filePath);
      (parent !in dirs && parent !in files ==> r == Err(NotADirectoryError))
      && (parent in files && (file in dirs || file in files) ==> r == Err(NotADirectoryError))
      && (parent in dirs + files && file !in dirs && file !in files ==> r == Err(ValueError))
      && (parent in dirs && (file !in files || Suffix(file) != ".csv" || Upper(Stem(file)) !in gasses) ==>
            r == Err(ValueError))
    ensures !destParent.OtherObject? && !filePath.OtherObject? && gasses == Gasses ==>
      var parent := ToPath(destParent).value;
      parent in dirs && IsGasCsv(filePath) != Ok(true) ==>
        DestDir(dirs, files, destParent, filePath) == Err(ValueError)
  {
  }

  /**
   * Asking again after the directory was created gives the same path, which
   * then exists, so nothing more is created; for either gas list.
   */
  lemma DestDirIdempotent(gasses: seq<string>, dirs: set<ValidPath>, files: set<ValidPath>,
                          destParent: PathArg, filePath: PathArg)
    requires dirs !! files
    requires DestDirWith(gasses, dirs, files, destParent, filePath).Ok?
    ensures var d := DestDirWith(gasses, dirs, files, destParent, filePath).value;
      var dirs' := if d in dirs || d in files then dirs else dirs + {d};
      DestDirWith(gasses, dirs', files, destParent, filePath) == Ok(d) && (d in dirs' || d in files)
  {
  }

  /** The directories and files that exist. */
  class FileSystem {
    var dirs: set<ValidPath>
    var files: set<ValidPath>

    /** No path is both a directory and a file. */
    predicate Valid()
      reads this
    {
      dirs !! files
    }

    constructor (dirs0: set<ValidPath>, files0: set<ValidPath>)
      requires dirs0 !! files0
      ensures Valid() && dirs == dirs0 && files == files0
    {
      dirs, files := dirs0, files0;
    }

    /**
     * The checks and the derived path of get_dest_dir_from_csv_file against a
     * gas list, before anything is created: the outcome DestDirWith gives for
     * the current paths.
     */
    method CheckedDestDir(gasses: seq<string>, destParent: PathArg, filePath: PathArg) returns (r: Result<ValidPath>)
      ensures r == DestDirWith(gasses, dirs, files, destParent, filePath)
    {
      if destParent.OtherObject? || filePath.OtherObject? {
        return Err(TypeError);
      }
      var parent := ToPath(destParent).value;
      var file := ToPath(filePath).value;
      if parent !in dirs && parent !in files {
        return Err(NotADirectoryError);
      }
      if file !in dirs && file !in files {
        return Err(ValueError);
      }
      if parent !in dirs {
        return Err(NotADirectoryError);
      }
      if file !in files || Suffix(file) != ".csv" {
        return Err(ValueError);
      }
      var stem := Upper(Stem(file));
      if stem !in gasses {
        return Err(ValueError);
      }
      return Ok(JoinName(parent, DestName(file)));
    }

    /**
     * get_dest_dir_from_csv_file against a gas list: DestGassesAsWritten as
     * the code has it, Gasses as corrected. The checks of DestDirWith, then
     * the directory is created under the parent unless the path already exists.
     */
    method GetDestDirFromCsvFile(gasses: seq<string>, destParent: PathArg, filePath: PathArg)
      returns (r: Result<ValidPath>)
      requires Valid()
      modifies this
      ensures Valid()
      ensures r == DestDirWith(gasses, old(dirs), old(files), destParent, filePath)
      ensures files == old(files)
      ensures dirs == if r.Ok? && r.value !in old(dirs) && r.value !in old(files)
                      then old(dirs) + {r.value} else old(dirs)
    {
      r := CheckedDestDir(gasses, destParent, filePath);
      if r.Ok? && r.value !in dirs && r.value !in files {
        dirs := dirs + {r.value};
      }
    }
  }
}

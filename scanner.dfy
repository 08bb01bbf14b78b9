/** The directory scanner: which names of a working directory are CSV link
    files and which are subdirectories. The file system is an input: what
    `os.listdir` returns for a path, whether a path is a directory, and what
    reading a CSV file yields. */
module Scanner {
  import opened PyStr

  /** A CSV file as the tabular reader delivers it: the number of columns of
      its header, and the first two cells of every data row. */
  datatype Row = Row(name: string, href: string)
  datatype CsvRead = Table(columns: nat, rows: seq<Row>) | Unreadable

  datatype FileSystem = FileSystem(
    listDir: string -> seq<string>,  // os.listdir(path): entry names in enumeration order
    isDir: string -> bool,           // whether a path names a directory
    readCsv: string -> CsvRead)      // pd.read_csv(path)

  /** The names of `s` that satisfy `keep`, in their order in `s`. */
  function Filter(s: seq<string>, keep: string -> bool): seq<string>
  {
    if s == [] then [] else (if keep(s[0]) then [s[0]] else []) + Filter(s[1..], keep)
  }

  /** Filtering a concatenation filters each part: listing order is kept. */
  lemma {:induction false} FilterAppend(a: seq<string>, b: seq<string>, keep: string -> bool)
    ensures Filter(a + b, keep) == Filter(a, keep) + Filter(b, keep)
  {
    if a != [] {
      var head := if keep(a[0]) then [a[0]] else [];
      assert (a + b)[0] == a[0] && (a + b)[1..] == a[1..] + b;
      assert Filter(a + b, keep) == head + Filter(a[1..] + b, keep);
      FilterAppend(a[1..], b, keep);
      assert Filter(a, keep) == head + Filter(a[1..], keep);
    } else {
      assert a + b == b;
    }
  }

  /** A name is kept exactly when it is listed and satisfies `keep`. */
  lemma {:induction false} FilterMembers(s: seq<string>, keep: string -> bool, x: string)
    ensures x in Filter(s, keep) <==> x in s && keep(x)
  {
    if s != [] {
      assert s == [s[0]] + s[1..];
      FilterMembers(s[1..], keep, x);
    }
  }

  /** Filtering keeps every occurrence of a kept name and none of the others. */
  lemma {:induction false} FilterCount(s: seq<string>, keep: string -> bool, x: string)
    ensures multiset(Filter(s, keep))[x] == if keep(x) then multiset(s)[x] else 0
  {
    if s != [] {
      assert s == [s[0]] + s[1..];
      FilterCount(s[1..], keep, x);
    }
  }

  /** Filtering only drops names: what is left was listed, as often at most,
      and passes the test. */
  lemma {:induction false} FilterSubset(s: seq<string>, keep: string -> bool)
    ensures multiset(Filter(s, keep)) <= multiset(s)
    ensures forall x :: x in Filter(s, keep) ==> keep(x)
  {
    if s != [] {
      assert s == [s[0]] + s[1..];
      FilterSubset(s[1..], keep);
    }
  }

  predicate IsCsv(name: string) { EndsWith(name, ".csv") }

  /** The suffix test is exact and case-sensitive. */
  lemma CsvSuffixExamples()
    ensures IsCsv("links.csv") && IsCsv(".csv")
    ensures !IsCsv("links.CSV") && !IsCsv("links.csv.bak") && !IsCsv("csv")
  {
    assert "links.csv"[5..] == ".csv";
    assert "links.CSV"[5..][1] != ".csv"[1];
    assert "links.csv.bak"[9..][1] != ".csv"[1];
  }

  /** `list_csv_files(working_dir)`. */
  function ListCsvFiles(fs: FileSystem, workingDir: string): (r: seq<string>)
    ensures forall x :: x in r ==> EndsWith(x, ".csv")
  {
    FilterSubset(fs.listDir(workingDir), IsCsv);
    Filter(fs.listDir(workingDir), IsCsv)
  }

  /** The CSV files are exactly the listed entries whose name ends with
      ".csv", each as often as it is listed. */
  lemma ListCsvFilesContents(fs: FileSystem, workingDir: string)
    ensures var r := ListCsvFiles(fs, workingDir);
      && (forall x :: x in r <==> x in fs.listDir(workingDir) && EndsWith(x, ".csv"))
      && (forall x :: multiset(r)[x] ==
                       (if EndsWith(x, ".csv") then multiset(fs.listDir(workingDir))[x] else 0))
  {
    forall x ensures x in ListCsvFiles(fs, workingDir) <==> x in fs.listDir(workingDir) && EndsWith(x, ".csv") {
      FilterMembers(fs.listDir(workingDir), IsCsv, x);
    }
    forall x ensures multiset(ListCsvFiles(fs, workingDir))[x] ==
                     (if EndsWith(x, ".csv") then multiset(fs.listDir(workingDir))[x] else 0) {
      FilterCount(fs.listDir(workingDir), IsCsv, x);
    }
  }

  /** The CSV files of a listing keep their listing order: the result for a
      listing split in two is the result for each part, one after the other. */
  lemma CsvFilesInListingOrder(a: seq<string>, b: seq<string>)
    ensures Filter(a + b, IsCsv) == Filter(a, IsCsv) + Filter(b, IsCsv)
    ensures Filter([], IsCsv) == []
    ensures forall x :: Filter([x], IsCsv) == if EndsWith(x, ".csv") then [x] else []
  {
    FilterAppend(a, b, IsCsv);
    forall x ensures Filter([x], IsCsv) == if EndsWith(x, ".csv") then [x] else [] {
      assert [x][1..] == [];
    }
  }

  /** `list_subdirectories(working_dir)`: the second component of the first
      triple `os.walk` yields, one level only. */
  function ListSubdirectories(fs: FileSystem, workingDir: string): (r: seq<string>)
    ensures forall x :: x in r ==> fs.isDir(workingDir + x)
  {
    var isSubdir := name => fs.isDir(workingDir + name);
    FilterSubset(fs.listDir(workingDir), isSubdir);
    Filter(fs.listDir(workingDir), isSubdir)
  }

  /** The subdirectories are exactly the listed entries that are directories,
      each as often as it is listed. */
  lemma ListSubdirectoriesContents(fs: FileSystem, workingDir: string)
    ensures var r := ListSubdirectories(fs, workingDir);
      && (forall x :: x in r <==> x in fs.listDir(workingDir) && fs.isDir(workingDir + x))
      && (forall x :: multiset(r)[x] ==
                       (if fs.isDir(workingDir + x) then multiset(fs.listDir(workingDir))[x] else 0))
  {
    var isSubdir := name => fs.isDir(workingDir + name);
    forall x ensures x in ListSubdirectories(fs, workingDir) <==> x in fs.listDir(workingDir) && fs.isDir(workingDir + x) {
      FilterMembers(fs.listDir(workingDir), isSubdir, x);
    }
    forall x ensures multiset(ListSubdirectories(fs, workingDir))[x] ==
                     (if fs.isDir(workingDir + x) then multiset(fs.listDir(workingDir))[x] else 0) {
      FilterCount(fs.listDir(workingDir), isSubdir, x);
    }
  }
}

/** The link flattener: every CSV file's rows become `link` entries of the
    menu, each file closed by one `spacer`, the counter running on. */
module Links {
  import opened PyDict
  import opened Scanner
  import opened Menu

  /** Why a run aborts while reading the link files. */
  datatype Error =
    | UnreadableCsv(path: string)                 // pd.read_csv raised
    | ColumnMismatch(path: string, columns: nat)  // `columns = ['name', 'href']` raised

  datatype Result<T> = Ok(value: T) | Err(error: Error)

  /** One file read and its columns relabelled `name`, `href` by position;
      the header row is dropped whatever it says. */
  function Relabel(path: string, read: CsvRead): (r: Result<seq<Row>>)
    ensures r.Ok? <==> read.Table? && read.columns == 2
    ensures r.Ok? ==> r.value == read.rows
    ensures read.Unreadable? ==> r == Err(UnreadableCsv(path))
    ensures read.Table? && read.columns != 2 ==> r == Err(ColumnMismatch(path, read.columns))
  {
    match read
    case Unreadable => Err(UnreadableCsv(path))
    case Table(columns, rows) => if columns != 2 then Err(ColumnMismatch(path, columns)) else Ok(rows)
  }

  /** The rows of every file of `linkList`, in order, or the error of the
      first file that cannot be read as two columns. */
  function ReadTables(fs: FileSystem, workingDir: string, linkList: seq<string>): (r: Result<seq<seq<Row>>>)
    ensures r.Ok? ==> |r.value| == |linkList|
    decreases |linkList|
  {
    if linkList == [] then Ok([])
    else
      var last := |linkList| - 1;
      var path := workingDir + linkList[last];
      match ReadTables(fs, workingDir, linkList[..last])
      case Err(e) => Err(e)
      case Ok(tables) =>
        match Relabel(path, fs.readCsv(path))
        case Err(e) => Err(e)
        case Ok(rows) => Ok(tables + [rows])
  }

  /** Every table read came from a file the reader took as two columns. */
  lemma {:induction false} ReadTablesRows(fs: FileSystem, workingDir: string, linkList: seq<string>, t: nat)
    requires ReadTables(fs, workingDir, linkList).Ok? && t < |linkList|
    ensures fs.readCsv(workingDir + linkList[t]) == Table(2, ReadTables(fs, workingDir, linkList).value[t])
    decreases |linkList|
  {
    var last := |linkList| - 1;
    var prefix := ReadTables(fs, workingDir, linkList[..last]);
    if t < last {
      ReadTablesRows(fs, workingDir, linkList[..last], t);
      assert linkList[..last][t] == linkList[t];
      assert ReadTables(fs, workingDir, linkList).value == prefix.value + [ReadTables(fs, workingDir, linkList).value[last]];
    }
  }

  /** Once a file fails, the whole list fails with that file's error. */
  lemma {:induction false} ReadTablesFailsFrom(fs: FileSystem, workingDir: string, linkList: seq<string>, i: nat)
    requires i <= |linkList|
    requires ReadTables(fs, workingDir, linkList[..i]).Err?
    ensures ReadTables(fs, workingDir, linkList) == ReadTables(fs, workingDir, linkList[..i])
    decreases |linkList| - i
  {
    if i < |linkList| {
      var prefix := linkList[..i + 1];
      assert prefix[..i] == linkList[..i];
      assert ReadTables(fs, workingDir, prefix) == ReadTables(fs, workingDir, linkList[..i]);
      ReadTablesFailsFrom(fs, workingDir, linkList, i + 1);
    } else {
      assert linkList[..i] == linkList;
    }
  }

  /** Reading one more file: its rows are appended, or its error ends the list. */
  lemma ReadTablesNext(fs: FileSystem, workingDir: string, linkList: seq<string>, i: nat)
    requires i < |linkList| && ReadTables(fs, workingDir, linkList[..i]).Ok?
    ensures var path := workingDir + linkList[i];
      var relabelled := Relabel(path, fs.readCsv(path));
      ReadTables(fs, workingDir, linkList[..i + 1]) ==
        if relabelled.Ok? then Ok(ReadTables(fs, workingDir, linkList[..i]).value + [relabelled.value])
        else Err(relabelled.error)
  {
    assert linkList[..i + 1][..i] == linkList[..i] && linkList[..i + 1][i] == linkList[i];
  }

  /** A bad file after good ones: its error is the error of the whole list. */
  lemma ReadTablesStops(fs: FileSystem, workingDir: string, linkList: seq<string>, i: nat)
    requires i < |linkList| && ReadTables(fs, workingDir, linkList[..i]).Ok?
    requires Relabel(workingDir + linkList[i], fs.readCsv(workingDir + linkList[i])).Err?
    ensures ReadTables(fs, workingDir, linkList) ==
      Err(Relabel(workingDir + linkList[i], fs.readCsv(workingDir + linkList[i])).error)
  {
    ReadTablesNext(fs, workingDir, linkList, i);
    ReadTablesFailsFrom(fs, workingDir, linkList, i + 1);
  }

  /** Σ (r_j + 1): one entry per data row and one spacer per file. */
  function EntryCount(tables: seq<seq<Row>>): nat
  {
    if tables == [] then 0
    else EntryCount(tables[..|tables| - 1]) + |tables[|tables| - 1]| + 1
  }

  /** The `link` entries of one file's rows, in row order. */
  function LinkItems(rows: seq<Row>): (es: seq<MenuItem>)
  {
    seq(|rows|, i requires 0 <= i < |rows| => Link(rows[i].name, rows[i].href))
  }

  lemma LinkItemsNext(rows: seq<Row>, j: nat)
    requires j < |rows|
    ensures LinkItems(rows[..j + 1]) == LinkItems(rows[..j]) + [Link(rows[j].name, rows[j].href)]
  {
  }

  /** The entries the flattener adds for `tables`, in order: each file's
      links, then a spacer. There are exactly Σ (r_j + 1) of them. */
  function Entries(tables: seq<seq<Row>>): (es: seq<MenuItem>)
    ensures |es| == EntryCount(tables)
  {
    if tables == [] then []
    else
      var last := |tables| - 1;
      Entries(tables[..last]) + LinkItems(tables[last]) + [Spacer]
  }

  /** One more file adds its links and a spacer at the end. */
  lemma EntriesNext(tables: seq<seq<Row>>, rows: seq<Row>)
    ensures Entries(tables + [rows]) == Entries(tables) + LinkItems(rows) + [Spacer]
  {
    assert (tables + [rows])[..|tables|] == tables;
  }

  /** `process_csv_files(link_list, working_dir, item_number, dict_json)`:
      on success the new counter is the old one plus Σ (r_j + 1), and the
      dict is the old one with the entries assigned from `item_<item_number>`
      on; on failure the error of the first bad file. */
  method ProcessCsvFiles(fs: FileSystem, linkList: seq<string>, workingDir: string,
                         itemNumber: nat, dictJson: Dict<MenuItem>)
    returns (r: Result<(nat, Dict<MenuItem>)>)
    ensures ReadTables(fs, workingDir, linkList).Err? ==>
      r == Err(ReadTables(fs, workingDir, linkList).error)
    ensures ReadTables(fs, workingDir, linkList).Ok? ==>
      var tables := ReadTables(fs, workingDir, linkList).value;
      r == Ok((itemNumber + EntryCount(tables), PutFrom(dictJson, itemNumber, Entries(tables))))
  {
    var n := itemNumber;
    var d := dictJson;
    ghost var done: seq<seq<Row>> := [];  // the rows of the files read so far
    ghost var es: seq<MenuItem> := [];     // the entries assigned so far
    var i := 0;
    assert linkList[..0] == [];
    while i < |linkList|
      invariant 0 <= i <= |linkList|
      invariant ReadTables(fs, workingDir, linkList[..i]) == Ok(done)
      invariant es == Entries(done)
      invariant n == itemNumber + |es| && d == PutFrom(dictJson, itemNumber, es)
    {
      var path := workingDir + linkList[i];
      var localList := fs.readCsv(path);
      if localList.Unreadable? {
        ReadTablesStops(fs, workingDir, linkList, i);
        return Err(UnreadableCsv(path));
      }
      if localList.columns != 2 {
        ReadTablesStops(fs, workingDir, linkList, i);
        return Err(ColumnMismatch(path, localList.columns));
      }
      var rows := localList.rows;
      ghost var before := es;
      var row := 0;
      while row < |rows|
        invariant 0 <= row <= |rows|
        invariant es == before + LinkItems(rows[..row])
        invariant n == itemNumber + |es| && d == PutFrom(dictJson, itemNumber, es)
      {
        var item := Link(rows[row].name, rows[row].href);
        LinkItemsNext(rows, row);
        PutFromSnoc(dictJson, itemNumber, es, item);
        assert itemNumber + |es| == n;
        d := Put(d, ItemKey(n), item);
        n := n + 1;
        es := es + [item];
        row := row + 1;
      }
      assert rows[..row] == rows;
      PutFromSnoc(dictJson, itemNumber, es, Spacer);
      assert itemNumber + |es| == n;
      d := Put(d, ItemKey(n), Spacer);
      n := n + 1;
      es := es + [Spacer];
      EntriesNext(done, rows);
      ReadTablesNext(fs, workingDir, linkList, i);
      done := done + [rows];
      i := i + 1;
    }
    assert linkList[..i] == linkList;
    assert ReadTables(fs, workingDir, linkList) == Ok(done);
    assert n == itemNumber + EntryCount(done);
    r := Ok((n, d));
  }

  /** In the entries of `tables`, the rows of file t sit at consecutive
      positions from EntryCount(tables[..t]) on, and its spacer right after
      them, also when the file has no data rows. */
  lemma {:induction false} EntriesAt(tables: seq<seq<Row>>, t: nat, r: nat)
    requires t < |tables| && r <= |tables[t]|
    ensures EntryCount(tables[..t]) + r < EntryCount(tables)
    ensures Entries(tables)[EntryCount(tables[..t]) + r] ==
      if r < |tables[t]| then Link(tables[t][r].name, tables[t][r].href) else Spacer
    decreases |tables|
  {
    var last := |tables| - 1;
    var prefix := tables[..last];
    if t == last {
      assert tables[..t] == prefix;
    } else {
      assert prefix[..t] == tables[..t] && prefix[t] == tables[t];
      EntriesAt(prefix, t, r);
    }
  }

  /** After `process_csv_files` from counter c, `item_{c + EntryCount(tables[..t]) + r}`
      holds the r-th row of file t as a link, and the key after the last row
      of each file holds a spacer. */
  lemma CsvLayout(d: Dict<MenuItem>, c: nat, tables: seq<seq<Row>>, t: nat, r: nat)
    requires t < |tables| && r <= |tables[t]|
    ensures Get(PutFrom(d, c, Entries(tables)), ItemKey(c + EntryCount(tables[..t]) + r)) ==
      Some(if r < |tables[t]| then Link(tables[t][r].name, tables[t][r].href) else Spacer)
  {
    EntriesAt(tables, t, r);
    var j := EntryCount(tables[..t]) + r;
    PutFromAt(d, c, Entries(tables), j);
    assert c + j == c + EntryCount(tables[..t]) + r;
  }

  /** A two-column file with the rows "Site A" and "Site B", flattened from
      counter 5 into an empty dict, gives two links, a spacer, and counter 8. */
  lemma FlattenExample(fs: FileSystem, workingDir: string, file: string)
    requires fs.readCsv(workingDir + file) ==
      Table(2, [Row("Site A", "http://a"), Row("Site B", "http://b")])
    ensures ReadTables(fs, workingDir, [file]).Ok?
    ensures var tables := ReadTables(fs, workingDir, [file]).value;
      && 5 + EntryCount(tables) == 8
      && PutFrom([], 5, Entries(tables)) ==
           [("item_5", Link("Site A", "http://a")),
            ("item_6", Link("Site B", "http://b")),
            ("item_7", Spacer)]
  {
    var rows := [Row("Site A", "http://a"), Row("Site B", "http://b")];
    assert ReadTables(fs, workingDir, [file]) == Ok([rows]) by {
      assert [file][..0] == [] && [file][0] == file;
      assert Relabel(workingDir + file, fs.readCsv(workingDir + file)) == Ok(rows);
      assert ReadTables(fs, workingDir, [file]) == Ok([] + [rows]);
    }
    var es := Entries([rows]);
    assert es == [Link("Site A", "http://a"), Link("Site B", "http://b"), Spacer] by {
      assert [rows][..0] == [];
    }
    PutFromFresh([], 5, es);
    assert Numbered(5, es) == [(ItemKey(5), es[0]), (ItemKey(6), es[1]), (ItemKey(7), es[2])];
    ExampleKeys();
  }

  lemma ExampleKeys()
    ensures ItemKey(5) == "item_5" && ItemKey(6) == "item_6" && ItemKey(7) == "item_7"
  {
  }
}

/** The menu assembler, `main`: one `modal` entry and one article index per
    subdirectory, a spacer, the flattened links, then the dict sorted by key
    and wrapped as a JavaScript module. File writes are returned in order
    instead of performed; `json.dumps` is a parameter. */
module Generator {
  import opened PyStr
  import opened PyDict
  import opened Scanner
  import opened Articles
  import opened Menu
  import opened Links

  const RawDir: string := "./data/md/"    // CSV files and Markdown folders
  const JsonDir: string := "./data/json/" // generated files

  /** A file the run writes: an article index (`save_json`) or the script
      text (`save_js`). */
  datatype Write =
    | JsonFile(path: string, articles: Dict<string>)
    | TextFile(path: string, text: string)

  datatype Outcome = Completed | Aborted(error: Error)

  /** What a run leaves behind: the files written, in order, and how it ended. */
  datatype Run = Run(writes: seq<Write>, outcome: Outcome)

  /** The modal entry of a subdirectory. */
  function ModalItem(subdir: string): (m: MenuItem)
    ensures m.Modal? && |m.name| == |subdir| && EndsWith(m.file, ".json")
    ensures |m.file| == |subdir| + 5 && m.file[..|subdir|] == subdir
  {
    Modal(Capitalize(subdir), subdir + ".json")
  }

  function Modals(subdirs: seq<string>): seq<MenuItem>
  {
    seq(|subdirs|, i requires 0 <= i < |subdirs| => ModalItem(subdirs[i]))
  }

  lemma ModalsNext(subdirs: seq<string>, k: nat)
    requires k < |subdirs|
    ensures Modals(subdirs[..k + 1]) == Modals(subdirs[..k]) + [ModalItem(subdirs[k])]
  {
  }

  /** Every entry of the menu in insertion order: the modals, one spacer,
      then the entries of the link files. */
  function MenuEntries(subdirs: seq<string>, tables: seq<seq<Row>>): (es: seq<MenuItem>)
    ensures |es| == |subdirs| + 1 + EntryCount(tables)
  {
    Modals(subdirs) + [Spacer] + Entries(tables)
  }

  /** The menu as written out: `sorted(dict_json.items())`. */
  function SortedMenu(subdirs: seq<string>, tables: seq<seq<Row>>): (r: Dict<MenuItem>)
    ensures |r| == |subdirs| + 1 + EntryCount(tables)
    ensures SortedByKey(r)
  {
    var d := Numbered(0, MenuEntries(subdirs, tables));
    assert |multiset(SortItems(d))| == |multiset(d)|;
    SortItems(d)
  }

  const JsHead: string := "menu_items = "
  const JsTail: string := ";\nexport let menu_items;"

  /** The script text around the serialised menu. */
  function JsModule(json: string): (text: string)
    ensures |text| == |JsHead| + |json| + |JsTail|
  {
    JsHead + json + JsTail
  }

  /** The JSON text a script of that shape embeds, if it has the shape. */
  function EmbeddedJson(text: string): (r: Option<string>)
    ensures r.Some? ==> |r.value| == |text| - |JsHead| - |JsTail|
  {
    if |JsHead| + |JsTail| <= |text|
       && text[..|JsHead|] == JsHead
       && text[|text| - |JsTail|..] == JsTail
    then Some(text[|JsHead|..|text| - |JsTail|])
    else None
  }

  /** The script embeds exactly the serialised menu. */
  lemma EmbeddedJsonRoundTrip(json: string)
    ensures EmbeddedJson(JsModule(json)) == Some(json)
  {
    var text := JsModule(json);
    assert text[..|JsHead|] == JsHead;
    assert text[|text| - |JsTail|..] == JsTail;
    assert text[|JsHead|..|text| - |JsTail|] == json;
  }

  /** The article index write for one subdirectory. */
  function ArticleWrite(fs: FileSystem, subdir: string): Write
  {
    JsonFile(JsonDir + subdir + ".json", Indexed(Filter(fs.listDir(RawDir + subdir), IsMarkdown)))
  }

  /** The article index writes for `subdirs`, in order. */
  function ArticleWrites(fs: FileSystem, subdirs: seq<string>): seq<Write>
  {
    seq(|subdirs|, i requires 0 <= i < |subdirs| => ArticleWrite(fs, subdirs[i]))
  }

  lemma ArticleWritesNext(fs: FileSystem, subdirs: seq<string>, k: nat)
    requires k < |subdirs|
    ensures ArticleWrites(fs, subdirs[..k + 1]) ==
            ArticleWrites(fs, subdirs[..k]) + [ArticleWrite(fs, subdirs[k])]
  {
  }

  /** `main()`: the writes are one article index per subdirectory, in
      listing order, then the script; a bad link file aborts the run after
      the article indexes and before the script. */
  method Generate(fs: FileSystem, dumps: Dict<MenuItem> -> string) returns (run: Run)
    ensures var subdirs := ListSubdirectories(fs, RawDir);
      |run.writes| >= |subdirs| && run.writes[..|subdirs|] == ArticleWrites(fs, subdirs)
    ensures var subdirs := ListSubdirectories(fs, RawDir);
      var tables := ReadTables(fs, RawDir, ListCsvFiles(fs, RawDir));
      if tables.Err? then
        |run.writes| == |subdirs| && run.outcome == Aborted(tables.error)
      else
        && |run.writes| == |subdirs| + 1
        && run.outcome == Completed
        && run.writes[|subdirs|] ==
             TextFile(JsonDir + "menu_items.js", JsModule(dumps(SortedMenu(subdirs, tables.value))))
  {
    var itemNumber := 0;
    var dictJson: Dict<MenuItem> := [];
    var writes: seq<Write> := [];

    var linkList := ListCsvFiles(fs, RawDir);
    var subdirectories := ListSubdirectories(fs, RawDir);

    var k := 0;
    while k < |subdirectories|
      invariant 0 <= k <= |subdirectories|
      invariant itemNumber == k
      invariant dictJson == Numbered(0, Modals(subdirectories[..k]))
      invariant writes == ArticleWrites(fs, subdirectories[..k])
    {
      var subdir := subdirectories[k];
      ModalsNext(subdirectories, k);
      NumberedNext(Modals(subdirectories[..k]), ModalItem(subdir));
      dictJson := Put(dictJson, ItemKey(itemNumber), ModalItem(subdir));
      var articleDict := ProcessMarkdownFiles(fs, subdir, RawDir);
      writes := writes + [JsonFile(JsonDir + subdir + ".json", articleDict)];
      ArticleWritesNext(fs, subdirectories, k);
      itemNumber := itemNumber + 1;
      k := k + 1;
    }
    assert subdirectories[..k] == subdirectories;

    NumberedNext(Modals(subdirectories), Spacer);
    dictJson := Put(dictJson, ItemKey(itemNumber), Spacer);
    itemNumber := itemNumber + 1;

    var result := ProcessCsvFiles(fs, linkList, RawDir, itemNumber, dictJson);
    if result.Err? {
      assert writes[..|subdirectories|] == writes;
      return Run(writes, Aborted(result.error));
    }
    dictJson := result.value.1;
    ghost var tables := ReadTables(fs, RawDir, linkList).value;
    NumberedExtend(Modals(subdirectories) + [Spacer], Entries(tables));

    assert dictJson == Numbered(0, MenuEntries(subdirectories, tables));

    var inverseDict := SortItems(dictJson);
    assert inverseDict == SortedMenu(subdirectories, tables);
    var jsonDict := dumps(inverseDict);
    var jsObject := JsModule(jsonDict);
    writes := writes + [TextFile(JsonDir + "menu_items.js", jsObject)];
    assert writes[|subdirectories|] == TextFile(JsonDir + "menu_items.js", JsModule(dumps(SortedMenu(subdirectories, tables))));
    assert writes[..|subdirectories|] == ArticleWrites(fs, subdirectories);
    run := Run(writes, Completed);
  }

  // ---------------------------------------------------------------------
  // The menu as written out
  // ---------------------------------------------------------------------

  /** The sorted menu holds N = |subdirs| + 1 + Σ (r_j + 1) items, in strictly
      ascending order of key, so no key twice. */
  lemma SortedMenuSize(subdirs: seq<string>, tables: seq<seq<Row>>)
    ensures |SortedMenu(subdirs, tables)| == |subdirs| + 1 + EntryCount(tables)
    ensures SortedByKey(SortedMenu(subdirs, tables))
    ensures DistinctKeys(SortedMenu(subdirs, tables))
  {
    var d := Numbered(0, MenuEntries(subdirs, tables));
    var menu := SortItems(d);
    assert SortedMenu(subdirs, tables) == menu;
    assert |multiset(menu)| == |multiset(d)|;
    SortedDistinct(menu);
  }

  /** Its keys are exactly `item_0` ... `item_{N-1}`. */
  lemma SortedMenuKeys(subdirs: seq<string>, tables: seq<seq<Row>>, k: string)
    ensures HasKey(SortedMenu(subdirs, tables), k) <==>
      exists m :: 0 <= m < |subdirs| + 1 + EntryCount(tables) && k == ItemKey(m)
  {
    SortedNumberedKeys(MenuEntries(subdirs, tables), k);
  }

  /** `item_j` holds the j-th entry in the order `main` assigned them. */
  lemma SortedMenuAt(subdirs: seq<string>, tables: seq<seq<Row>>, j: nat)
    requires j < |subdirs| + 1 + EntryCount(tables)
    ensures Get(SortedMenu(subdirs, tables), ItemKey(j)) == Some(MenuEntries(subdirs, tables)[j])
  {
    SortedNumberedAt(MenuEntries(subdirs, tables), j);
  }

  /** `item_i`, for i below the number of subdirectories, is the modal of
      the i-th subdirectory: its capitalised name and its index file. */
  lemma MenuModal(subdirs: seq<string>, tables: seq<seq<Row>>, i: nat)
    requires i < |subdirs|
    ensures Get(SortedMenu(subdirs, tables), ItemKey(i)) ==
      Some(Modal(Capitalize(subdirs[i]), subdirs[i] + ".json"))
  {
    SortedMenuAt(subdirs, tables, i);
  }

  /** The one spacer between the modals and the links sits at `item_{|subdirs|}`. */
  lemma MenuSpacer(subdirs: seq<string>, tables: seq<seq<Row>>)
    ensures Get(SortedMenu(subdirs, tables), ItemKey(|subdirs|)) == Some(Spacer)
  {
    SortedMenuAt(subdirs, tables, |subdirs|);
  }

  /** The rows of link file t sit at consecutive keys from
      `item_{|subdirs| + 1 + EntryCount(tables[..t])}` on, followed by one spacer. */
  lemma MenuLinks(subdirs: seq<string>, tables: seq<seq<Row>>, t: nat, r: nat)
    requires t < |tables| && r <= |tables[t]|
    ensures Get(SortedMenu(subdirs, tables), ItemKey(|subdirs| + 1 + EntryCount(tables[..t]) + r)) ==
      Some(if r < |tables[t]| then Link(tables[t][r].name, tables[t][r].href) else Spacer)
  {
    EntriesAt(tables, t, r);
    var j := |subdirs| + 1 + EntryCount(tables[..t]) + r;
    SortedMenuAt(subdirs, tables, j);
    assert MenuEntries(subdirs, tables)[j] == Entries(tables)[EntryCount(tables[..t]) + r];
  }

  /** With no subdirectory and no link file the menu is `{item_0: spacer}`. */
  lemma EmptyMenu()
    ensures SortedMenu([], []) == [("item_0", Spacer)]
  {
    assert MenuEntries([], []) == [Spacer];
    assert ItemKey(0) == "item_0";
  }

  /** The keys are compared as strings: "item_10" sorts before "item_2". */
  lemma ItemTenBeforeTwo(subdirs: seq<string>, tables: seq<seq<Row>>)
    requires 11 <= |subdirs| + 1 + EntryCount(tables)
    ensures var menu := SortedMenu(subdirs, tables);
      exists p, q :: 0 <= p < q < |menu| && menu[p].0 == "item_10" && menu[q].0 == "item_2"
  {
    var menu := SortedMenu(subdirs, tables);
    SortedMenuSize(subdirs, tables);
    TenBeforeTwo();
    SortedMenuKeys(subdirs, tables, "item_10");
    SortedMenuKeys(subdirs, tables, "item_2");
    var p :| 0 <= p < |menu| && menu[p].0 == "item_10";
    var q :| 0 <= q < |menu| && menu[q].0 == "item_2";
    assert p != q && !StrLess(menu[q].0, menu[p].0);
  }

  /** The two keys spelled out, and their order as strings. */
  lemma TenBeforeTwo()
    ensures ItemKey(10) == "item_10" && ItemKey(2) == "item_2"
    ensures StrLess("item_10", "item_2") && !StrLess("item_2", "item_10")
  {
    assert Decimal(10) == "10";
    assert StrLess("item_10", "item_2");
    StrLessAsymmetric("item_10", "item_2");
  }
}

# Menu manifest generator, modelled in Dafny

`generator/create_items.py` builds the navigation data of a static portfolio
site from one content directory (`./data/md/`):

- every subdirectory is a section of Markdown articles; for each one the
  generator writes an article index `{"article_0": "<first .md>", ...}` to
  `./data/json/<subdir>.json` and adds a `modal` entry to the menu;
- one `spacer` entry separates the sections from the links;
- every CSV file in the directory is a list of links; each data row becomes
  a `link` entry `{group, name, href}` and each file is closed by a
  `spacer`;
- the menu entries are stored under the keys `item_0`, `item_1`, ... from a
  running counter. The dict is sorted by key, serialised, and written as the
  JavaScript module `./data/json/menu_items.js`:
  `menu_items = <json>;\nexport let menu_items;`.

The Dafny project models that pipeline module by module:

| module | file | what it models |
|---|---|---|
| `PyStr` | `pystr.dfy` | `str.endswith`, `str.capitalize`, `str(n)` for a counter, and the `<` order on `str` that `sorted` uses |
| `PyDict` | `pydict.dfy` | an insertion-ordered `dict` as a sequence of items; `d[k] = v`, lookup, and `sorted(d.items())` |
| `Scanner` | `scanner.dfy` | `list_csv_files` and `list_subdirectories` as filters over a directory listing |
| `Articles` | `articles.dfy` | `process_markdown_files` |
| `Menu` | `menu.dfy` | menu entries, `item_<n>` keys, and a run of counter-numbered assignments |
| `Links` | `links.dfy` | `process_csv_files` |
| `Generator` | `generator.dfy` | `main`: modal entries, article index writes, the spacer, the link entries, the sort and the JS text |

The file system is an input value, `Scanner.FileSystem`. It has three parts:

- `listDir` is what `os.listdir` returns for a path;
- `isDir` says whether a path is a directory; this is the directory part of
  the first `os.walk` triple;
- `readCsv` is what `pd.read_csv` yields for a path: the column count and
  the (name, href) cells of each data row, or `Unreadable`.

`json.dumps` is a function parameter of `Generate`.

Instead of writing files, `Generate` returns the writes in order, plus the
outcome of the run. The outcome is `Completed`, or `Aborted` with the error
of the first link file that could not be read as two columns.

The loops that fill `article_dict` and `dict_json` are methods with `while`
loops. Each is proved against a specification function:

- `Indexed` for the article index;
- `PutFrom` and `Entries` for the link entries;
- `Numbered` and `MenuEntries` for the whole menu.

The lemmas state the layout properties about those functions.

Three behaviours of the code are worth stating explicitly:

- The menu is sorted by the key **strings** (`sorted(dict_json.items())`).
  This is not the numeric order of the counter: `item_10` sorts before
  `item_2`, as `Generator.ItemTenBeforeTwo` proves.
- `str.capitalize` lower-cases everything after the first character, so
  `myBlog` becomes `Myblog` (`PyStr.CapitalizeExamples`).
- The serialised menu `json_dict` is written only inside `menu_items.js`;
  no separate JSON file of the menu is written.

## Model

| member | source | states |
|---|---|---|
| PyStr.EndsWith | generator/create_items.py:23 | `s.endswith(suffix)`: the last characters of s are exactly the suffix, compared case-sensitively; a suffix longer than s never matches |
| PyStr.Capitalize | generator/create_items.py:112 | `subdir.capitalize()` has the length of the name and does not start with a lower-case letter |
| PyStr.CapitalizeShape | generator/create_items.py:112 | the capitalised name has the same letters up to case, does not start with a lower-case letter, and has no upper-case letter after the first character |
| PyStr.CapitalizeUnique | generator/create_items.py:112 | any string with those three properties equals the capitalised name, so they define `capitalize` |
| PyStr.CapitalizeIdempotent | generator/create_items.py:112 | capitalising a capitalised name changes nothing |
| PyStr.CapitalizeExamples | generator/create_items.py:112 | "blog" becomes "Blog", "Blog" stays, and "myBlog" becomes "Myblog" |
| PyStr.Decimal | generator/create_items.py:49 | `str(n)` is a non-empty string of decimal digits, one digit exactly when n < 10 |
| PyStr.DecimalRoundTrip | generator/create_items.py:49 | reading back the digits of `str(n)` gives n |
| PyStr.PrefixedDecimalInjective | generator/create_items.py:68 | two counters give the same prefixed key only if they are equal |
| PyStr.StrLess | generator/create_items.py:127 | `a < b` on `str`: the first differing character decides, and a proper prefix comes first |
| PyStr.StrLessIrreflexive | generator/create_items.py:127 | no key sorts before itself |
| PyStr.StrLessTotal | generator/create_items.py:127 | of two different keys, one sorts before the other |
| PyStr.StrLessAsymmetric | generator/create_items.py:127 | two keys never sort before each other |
| PyStr.StrLessTransitive | generator/create_items.py:127 | the string order on keys is transitive |
| PyDict.Get | generator/create_items.py:68-72 | lookup finds a value exactly when the key is present, and the found pair is an item of the dict |
| PyDict.GetIffItem | generator/create_items.py:68-72 | in a dict without repeated keys, lookup gives v exactly when (k, v) is an item |
| PyDict.Put | generator/create_items.py:68-74 | `d[k] = v` adds one item exactly when k is new, and otherwise keeps the length |
| PyDict.PutReplaces | generator/create_items.py:68-72 | assigning a present key keeps the length and every key in its place |
| PyDict.PutGet | generator/create_items.py:68-72 | after `d[k] = v`, k looks up v and every other key looks up what it did before |
| PyDict.SortItems | generator/create_items.py:127 | `sorted(d.items())` is a permutation of the items in strictly ascending key order |
| PyDict.SortedDistinct | generator/create_items.py:127 | a key-sorted item list repeats no key |
| PyDict.SortItemsGet | generator/create_items.py:127 | sorting keeps what every key looks up |
| Scanner.Filter | generator/create_items.py:23 | the list comprehension `[f for f in listing if test(f)]`: the names that pass the test, in listing order |
| Scanner.FilterAppend | generator/create_items.py:23 | filtering a concatenated listing filters each part in turn, so listing order is kept |
| Scanner.FilterMembers | generator/create_items.py:23 | a name is kept exactly when it is listed and passes the test |
| Scanner.FilterCount | generator/create_items.py:23 | a kept name occurs as often as in the listing, and a dropped name not at all |
| Scanner.FilterSubset | generator/create_items.py:23 | filtering keeps only listed names, none more often than listed, and only names that pass the test |
| Scanner.ListCsvFiles | generator/create_items.py:23 | every name `list_csv_files` returns ends in ".csv" |
| Scanner.ListCsvFilesContents | generator/create_items.py:23 | the CSV files are exactly the listed names ending in ".csv", each as often as listed |
| Scanner.CsvFilesInListingOrder | generator/create_items.py:23 | the CSV list of a split listing is the CSV lists of the parts in order; a single name is kept exactly when it ends in ".csv" |
| Scanner.CsvSuffixExamples | generator/create_items.py:23 | the suffix match is exact and case-sensitive: "links.CSV", "links.csv.bak" and "csv" are not CSV files |
| Scanner.ListSubdirectories | generator/create_items.py:34 | every name `list_subdirectories` returns is a directory of the working directory |
| Scanner.ListSubdirectoriesContents | generator/create_items.py:34 | the subdirectories are exactly the listed names that are directories, each as often as listed |
| Articles.ArticleKey | generator/create_items.py:49 | `f"article_{i}"` is "article_" followed by at least one character (the digits of i) |
| Articles.Indexed | generator/create_items.py:47-49 | the index keys `article_0`, `article_1`, ... repeat no key |
| Articles.ProcessMarkdownFiles | generator/create_items.py:46-50 | the loop builds exactly the index that numbers the ".md" entries of the subdirectory from 0 in listing order |
| Articles.ArticleIndexLookup | generator/create_items.py:48-49 | `article_i` maps to the i-th ".md" entry in listing order |
| Articles.ArticleIndexKeys | generator/create_items.py:48-49 | the keys are exactly `article_0` ... `article_{n-1}`, n the number of ".md" entries |
| Articles.ArticleIndexValues | generator/create_items.py:46 | every value is a listed name ending in ".md" |
| Menu.ItemKey | generator/create_items.py:68 | `f'item_{item_number}'` is "item_" followed by at least one character (the digits of the counter) |
| Menu.ItemKeyInjective | generator/create_items.py:68 | different counters give different `item_` keys |
| Menu.Numbered | generator/create_items.py:104-125 | the items `item_c: es[0]`, `item_{c+1}: es[1]`, ... repeat no key |
| Menu.PutFrom | generator/create_items.py:67-75 | the run `dict_json[f'item_{item_number}'] = e; item_number += 1` over entries es from counter c: entry j is assigned under `item_{c+j}`, in order |
| Menu.PutFromAppend | generator/create_items.py:125 | two runs of assignments, the second starting where the first left the counter, are one run |
| Menu.PutFromElsewhere | generator/create_items.py:64-75 | a key the run does not assign keeps its value |
| Menu.PutFromAt | generator/create_items.py:67-75 | after a run from counter c, `item_{c+j}` holds the j-th entry |
| Menu.PutFromBelow | generator/create_items.py:64-75 | entries at `item_m` with m below the starting counter are untouched |
| Menu.PutFromFresh | generator/create_items.py:104-125 | when no key from `item_c` on is present, the run appends exactly the numbered entries |
| Menu.NumberedSnoc | generator/create_items.py:110-123 | a numbering extended by one entry ends with that entry at the next counter |
| Menu.NumberedJoin | generator/create_items.py:122-125 | a numbering from 0 followed by a numbering from where it stopped is one numbering |
| Menu.NumberedExtend | generator/create_items.py:122-125 | continuing a numbering at the counter where it stopped gives the numbering of all entries |
| Menu.NumberedNext | generator/create_items.py:110-123 | one assignment at the next counter extends the numbering by that entry |
| Menu.NumberedAt | generator/create_items.py:104-125 | in a numbering from c, `item_{c+j}` looks up the j-th entry |
| Menu.NumberedKeys | generator/create_items.py:104-125 | a numbering from c has exactly the keys `item_c` ... `item_{c+n-1}` |
| Menu.SortedNumberedAt | generator/create_items.py:127 | after sorting a numbering from 0, `item_j` still looks up the j-th entry |
| Menu.SortedNumberedKeys | generator/create_items.py:127 | after sorting a numbering from 0, the keys are still exactly `item_0` ... `item_{n-1}` |
| Links.Relabel | generator/create_items.py:65-66 | the header is dropped; the file's rows come through exactly when it is readable with two columns; otherwise it is an error naming the file, and the column count when that is wrong. The error value belongs to the model; pandas' `ValueError` ("Length mismatch") does not name the file |
| Links.ReadTables | generator/create_items.py:64-66 | reading the link files in order succeeds with one row list per file |
| Links.ReadTablesRows | generator/create_items.py:64-66 | when reading succeeds, the t-th row list is the data of the t-th file, which the reader took as two columns |
| Links.ReadTablesFailsFrom | generator/create_items.py:64-66 | once a link file fails, the whole list fails with that file's error |
| Links.ReadTablesNext | generator/create_items.py:64-66 | reading one more file appends its rows or ends the list with its error |
| Links.ReadTablesStops | generator/create_items.py:64-66 | a bad file after readable ones makes its own error the error of the whole list |
| Links.LinkItems | generator/create_items.py:68-72 | one `{"group": "link", "name", "href"}` entry per data row of a file, in row order |
| Links.Entries | generator/create_items.py:64-75 | the entries added for the link files number exactly Σ (r_j + 1) |
| Links.EntriesAt | generator/create_items.py:67-75 | file t's rows are links at consecutive positions from Σ over earlier files on, and its spacer follows them, also for a file without rows |
| Links.ProcessCsvFiles | generator/create_items.py:64-76 | the loop returns counter c + Σ (r_j + 1) and the dict with the entries assigned from `item_c` on, or the error of the first bad file |
| Links.CsvLayout | generator/create_items.py:67-75 | after the flattening from counter c, row r of file t sits at `item_{c + Σ_{j<t}(r_j+1) + r}` and the file's spacer directly after its last row |
| Links.FlattenExample | generator/create_items.py:64-76 | rows "Site A" and "Site B" from counter 5 give `item_5` and `item_6` links, an `item_7` spacer and counter 8 |
| Generator.ModalItem | generator/create_items.py:111-115 | the modal entry of a subdirectory has a name as long as the subdirectory's and the file `<subdir>.json` |
| Generator.ArticleWrite | generator/create_items.py:117-118 | `save_json(article_dict, f'{JSON_DIR}{subdir}.json')`: a JSON write to `<JSON_DIR><subdir>.json` of the index of the subdirectory's ".md" entries (its contents are stated by the `Articles.ArticleIndex*` lemmas) |
| Generator.MenuEntries | generator/create_items.py:104-125 | with S subdirectories, the menu has S + 1 + Σ (r_j + 1) entries |
| Generator.Generate | generator/create_items.py:104-131 | the run writes one article index per subdirectory to `<subdir>.json` in listing order; then it aborts with the first bad link file's error, or writes `menu_items.js` with the wrapped serialisation of the sorted menu |
| Generator.SortedMenu | generator/create_items.py:127 | `sorted(dict_json.items())` has S + 1 + Σ (r_j + 1) items in strictly ascending key order |
| Generator.SortedMenuSize | generator/create_items.py:104-127 | with S subdirectories, the sorted menu has N = S + 1 + Σ (r_j + 1) items, in strictly ascending key order, with no key twice |
| Generator.SortedMenuKeys | generator/create_items.py:104-127 | the keys of the sorted menu are exactly `item_0` ... `item_{N-1}` |
| Generator.SortedMenuAt | generator/create_items.py:104-127 | `item_j` holds the j-th entry in the order `main` assigned the entries |
| Generator.MenuModal | generator/create_items.py:110-115 | `item_i`, for i below the number of subdirectories, is the modal with the capitalised name and the file `s_i + ".json"` |
| Generator.MenuSpacer | generator/create_items.py:122-123 | with S subdirectories, `item_S` is a spacer |
| Generator.MenuLinks | generator/create_items.py:122-125 | with S subdirectories, the rows of link file t are links at consecutive keys from `item_{S + 1 + Σ_{j<t}(r_j+1)}` on, followed by one spacer |
| Generator.EmptyMenu | generator/create_items.py:104-127 | with no subdirectory and no link file, the menu is exactly `{item_0: spacer}` |
| Generator.ItemTenBeforeTwo | generator/create_items.py:127 | once the menu reaches `item_10`, `item_10` comes before `item_2` in the output |
| Generator.TenBeforeTwo | generator/create_items.py:127 | "item_10" sorts before "item_2" as strings, and not the other way round |
| Generator.JsModule | generator/create_items.py:130 | the script is the serialisation plus the fixed head and tail in length |
| Generator.EmbeddedJson | generator/create_items.py:130 | the JSON text cut out of a script is the script minus the head and the tail |
| Generator.EmbeddedJsonRoundTrip | generator/create_items.py:130 | the script `menu_items = J;\nexport let menu_items;` embeds exactly J |

## Left out

- `main.go` is a static file server. It is not part of this model.
- Real file-system access (`os.listdir`, `os.walk`, `open`) is an input.
  `save_json` and `save_js` become values in the returned list of writes.
  Errors from missing directories or failed writes are not modelled.
- `pd.read_csv` internals are left out: quoting, type inference, NaN for
  empty cells, numeric coercion. Any failure of the reader, an empty file
  included, is the single `Unreadable` case.
- `json.dumps` and `json.dump` formatting (`indent=3`, escaping) is not
  modelled. The serialiser is a function parameter, and the article indexes
  are written as dict values.
- PyStr.CapitalizeShape: covers ASCII letters only. Python's `capitalize`
  also maps non-ASCII letters and title-cases the first character; those are
  not modelled.
- Links.ProcessCsvFiles: on an error the model returns only the error.
  Python mutates `dict_json` in place, so the entries of the files before
  the bad one are already assigned. The exception ends `main` before
  anything reads the dict, so this is unobservable in the output.
- Links.ProcessCsvFiles: the dict is passed and returned as a value, so
  aliasing of the caller's `dict_json` is not modelled; `main` rebinds it to
  the returned dict anyway.
- The counter and the row counts are unbounded integers, as Python's are.

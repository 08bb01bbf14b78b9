/** The article indexer: one index per subdirectory, from `article_<i>` to
    the i-th Markdown file name of the subdirectory's listing. */
module Articles {
  import opened PyStr
  import opened PyDict
  import opened Scanner

  /** `f"article_{i}"`. */
  function ArticleKey(i: nat): (k: string)
    ensures |k| > 8 && k[..8] == "article_"
  {
    "article_" + Decimal(i)
  }

  predicate IsMarkdown(name: string) { EndsWith(name, ".md") }

  /** The index that numbers `names` from 0 in their order. */
  function Indexed(names: seq<string>): (d: Dict<string>)
    ensures DistinctKeys(d)
  {
    var d := seq(|names|, i requires 0 <= i < |names| => (ArticleKey(i), names[i]));
    forall i, j | 0 <= i < j < |d| ensures d[i].0 != d[j].0 {
      if d[i].0 == d[j].0 {
        PrefixedDecimalInjective("article_", i, j);
      }
    }
    d
  }

  /** `process_markdown_files(subdirectory, working_dir)`: the ".md" entries
      of the subdirectory's listing, entered one by one under `article_<i>`. */
  method ProcessMarkdownFiles(fs: FileSystem, subdirectory: string, workingDir: string)
    returns (articleDict: Dict<string>)
    ensures articleDict == Indexed(Filter(fs.listDir(workingDir + subdirectory), IsMarkdown))
  {
    var articles := Filter(fs.listDir(workingDir + subdirectory), IsMarkdown);
    articleDict := [];
    var i := 0;
    while i < |articles|
      invariant 0 <= i <= |articles|
      invariant articleDict == Indexed(articles[..i])
    {
      forall j | 0 <= j < |articleDict| ensures articleDict[j].0 != ArticleKey(i) {
        if articleDict[j].0 == ArticleKey(i) {
          PrefixedDecimalInjective("article_", j, i);
        }
      }
      PutAppends(articleDict, ArticleKey(i), articles[i]);
      articleDict := Put(articleDict, ArticleKey(i), articles[i]);
      i := i + 1;
      assert articleDict == Indexed(articles[..i]);
    }
    assert articles[..i] == articles;
  }

  /** `article_i` names the i-th ".md" entry of the listing. */
  lemma ArticleIndexLookup(listing: seq<string>, i: nat)
    requires i < |Filter(listing, IsMarkdown)|
    ensures Get(Indexed(Filter(listing, IsMarkdown)), ArticleKey(i)) == Some(Filter(listing, IsMarkdown)[i])
  {
    var md := Filter(listing, IsMarkdown);
    var d := Indexed(md);
    assert d[i] == (ArticleKey(i), md[i]);
    GetIffItem(d, ArticleKey(i), md[i]);
  }

  /** The keys of the index are exactly `article_0` ... `article_{n-1}`,
      n the number of ".md" entries of the listing. */
  lemma ArticleIndexKeys(listing: seq<string>, k: string)
    ensures var md := Filter(listing, IsMarkdown);
      HasKey(Indexed(md), k) <==> exists i :: 0 <= i < |md| && k == ArticleKey(i)
  {
    var md := Filter(listing, IsMarkdown);
    var d := Indexed(md);
    if HasKey(d, k) {
      var i :| 0 <= i < |d| && d[i].0 == k;
      assert k == ArticleKey(i);
    }
    if exists i :: 0 <= i < |md| && k == ArticleKey(i) {
      var i :| 0 <= i < |md| && k == ArticleKey(i);
      assert d[i].0 == k;
    }
  }

  /** Every value of the index is a listed name ending in ".md": no other
      entry of the subdirectory appears. */
  lemma ArticleIndexValues(listing: seq<string>, p: (string, string))
    requires p in Indexed(Filter(listing, IsMarkdown))
    ensures p.1 in listing && EndsWith(p.1, ".md")
  {
    var md := Filter(listing, IsMarkdown);
    var d := Indexed(md);
    var i :| 0 <= i < |d| && d[i] == p;
    assert p.1 == md[i] && md[i] in md;
    FilterMembers(listing, IsMarkdown, md[i]);
  }
}

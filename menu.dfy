/** The menu dictionary: entries of three kinds stored under `item_<n>`,
    n taken from a running counter. */
module Menu {
  import opened PyStr
  import opened PyDict

  /** A menu entry, by its "group" field. */
  datatype MenuItem =
    | Modal(name: string, file: string)  // {"name", "file", "group": "modal"}
    | Link(name: string, href: string)   // {"group": "link", "name", "href"}
    | Spacer                             // {"group": "spacer"}

  /** `f"item_{n}"`. */
  function ItemKey(n: nat): (k: string)
    ensures |k| > 5 && k[..5] == "item_"
  {
    "item_" + Decimal(n)
  }

  /** Different counters give different keys. */
  lemma ItemKeyInjective(m: nat, n: nat)
    requires m != n
    ensures ItemKey(m) != ItemKey(n)
  {
    if ItemKey(m) == ItemKey(n) {
      PrefixedDecimalInjective("item_", m, n);
    }
  }

  /** Assigns `es` in order under `item_c`, `item_{c+1}`, ...: the effect of
      `d[f"item_{n}"] = e; n += 1` repeated from n = c. */
  function PutFrom(d: Dict<MenuItem>, c: nat, es: seq<MenuItem>): Dict<MenuItem>
  {
    if es == [] then d
    else
      var last := |es| - 1;
      Put(PutFrom(d, c, es[..last]), ItemKey(c + last), es[last])
  }

  /** The items `item_c: es[0]`, `item_{c+1}`: es[1], ... in order. */
  function Numbered(c: nat, es: seq<MenuItem>): (d: Dict<MenuItem>)
    ensures DistinctKeys(d)
  {
    var d := seq(|es|, j requires 0 <= j < |es| => (ItemKey(c + j), es[j]));
    forall i, j | 0 <= i < j < |d| ensures d[i].0 != d[j].0 {
      ItemKeyInjective(c + i, c + j);
    }
    d
  }

  /** One more assignment at the end continues the numbering. */
  lemma PutFromSnoc(d: Dict<MenuItem>, c: nat, es: seq<MenuItem>, e: MenuItem)
    ensures PutFrom(d, c, es + [e]) == Put(PutFrom(d, c, es), ItemKey(c + |es|), e)
  {
    assert (es + [e])[..|es|] == es;
  }

  /** Two runs of assignments, the second starting where the first left the
      counter, are one run. */
  lemma {:induction false} PutFromAppend(d: Dict<MenuItem>, c: nat, es: seq<MenuItem>, fs: seq<MenuItem>)
    ensures PutFrom(d, c, es + fs) == PutFrom(PutFrom(d, c, es), c + |es|, fs)
    decreases |fs|
  {
    if fs == [] {
      assert es + fs == es;
    } else {
      var last := |fs| - 1;
      var front := fs[..last];
      assert es + fs == (es + front) + [fs[last]];
      PutFromSnoc(d, c, es + front, fs[last]);
      PutFromAppend(d, c, es, front);
      assert c + |es + front| == (c + |es|) + last;
    }
  }

  /** A key the run does not assign keeps its value. */
  lemma {:induction false} PutFromElsewhere(d: Dict<MenuItem>, c: nat, es: seq<MenuItem>, k: string)
    requires forall m :: c <= m < c + |es| ==> k != ItemKey(m)
    ensures Get(PutFrom(d, c, es), k) == Get(d, k)
    decreases |es|
  {
    if es != [] {
      var last := |es| - 1;
      var prev := PutFrom(d, c, es[..last]);
      var key := ItemKey(c + last);
      assert PutFrom(d, c, es) == Put(prev, key, es[last]);
      assert k != key;
      PutGet(prev, key, es[last], k);
      PutFromElsewhere(d, c, es[..last], k);
    }
  }

  /** After the run, `item_{c+j}` holds the j-th entry. */
  lemma {:induction false} PutFromAt(d: Dict<MenuItem>, c: nat, es: seq<MenuItem>, j: nat)
    requires j < |es|
    ensures Get(PutFrom(d, c, es), ItemKey(c + j)) == Some(es[j])
    decreases |es|
  {
    var last := |es| - 1;
    var prev := PutFrom(d, c, es[..last]);
    var key := ItemKey(c + last);
    assert PutFrom(d, c, es) == Put(prev, key, es[last]);
    if j == last {
      PutGet(prev, key, es[last], key);
    } else {
      ItemKeyInjective(c + j, c + last);
      PutGet(prev, key, es[last], ItemKey(c + j));
      PutFromAt(d, c, es[..last], j);
    }
  }

  /** Entries below the starting counter are untouched. */
  lemma PutFromBelow(d: Dict<MenuItem>, c: nat, es: seq<MenuItem>, m: nat)
    requires m < c
    ensures Get(PutFrom(d, c, es), ItemKey(m)) == Get(d, ItemKey(m))
  {
    forall m' | c <= m' < c + |es| ensures ItemKey(m) != ItemKey(m') {
      ItemKeyInjective(m, m');
    }
    PutFromElsewhere(d, c, es, ItemKey(m));
  }

  /** When no key from `item_c` on is present yet, every assignment adds a
      new item at the end: the dict grows by exactly the numbered entries. */
  lemma {:induction false} PutFromFresh(d: Dict<MenuItem>, c: nat, es: seq<MenuItem>)
    requires forall i, m :: 0 <= i < |d| && c <= m ==> d[i].0 != ItemKey(m)
    ensures PutFrom(d, c, es) == d + Numbered(c, es)
    decreases |es|
  {
    if es == [] {
      assert Numbered(c, es) == [];
    } else {
      var last := |es| - 1;
      var front := es[..last];
      var key := ItemKey(c + last);
      calc {
        PutFrom(d, c, es);
        Put(PutFrom(d, c, front), key, es[last]);
        { PutFromFresh(d, c, front); }
        Put(d + Numbered(c, front), key, es[last]);
        { KeyAfterNumbered(d, c, front);
          PutAppends(d + Numbered(c, front), key, es[last]); }
        d + (Numbered(c, front) + [(key, es[last])]);
        { NumberedSnoc(c, front, es[last]);
          assert front + [es[last]] == es; }
        d + Numbered(c, es);
      }
    }
  }

  /** The key that continues a numbering is not yet in the dict. */
  lemma KeyAfterNumbered(d: Dict<MenuItem>, c: nat, es: seq<MenuItem>)
    requires forall i, m :: 0 <= i < |d| && c <= m ==> d[i].0 != ItemKey(m)
    ensures !HasKey(d + Numbered(c, es), ItemKey(c + |es|))
  {
    var grown := d + Numbered(c, es);
    forall i | 0 <= i < |grown| ensures grown[i].0 != ItemKey(c + |es|) {
      if i >= |d| {
        ItemKeyInjective(c + (i - |d|), c + |es|);
      }
    }
  }

  /** A numbering extended by one entry at the next counter. */
  lemma NumberedSnoc(c: nat, es: seq<MenuItem>, e: MenuItem)
    ensures Numbered(c, es + [e]) == Numbered(c, es) + [(ItemKey(c + |es|), e)]
  {
  }

  /** Continuing a numbering from where it stopped gives one numbering. */
  lemma NumberedExtend(es: seq<MenuItem>, fs: seq<MenuItem>)
    ensures PutFrom(Numbered(0, es), |es|, fs) == Numbered(0, es + fs)
  {
    var d := Numbered(0, es);
    forall i, m | 0 <= i < |d| && |es| <= m ensures d[i].0 != ItemKey(m) {
      ItemKeyInjective(i, m);
    }
    PutFromFresh(d, |es|, fs);
    NumberedJoin(es, fs);
  }

  /** A numbering from 0 followed by a numbering from where it stopped. */
  lemma NumberedJoin(es: seq<MenuItem>, fs: seq<MenuItem>)
    ensures Numbered(0, es) + Numbered(|es|, fs) == Numbered(0, es + fs)
  {
    var joined := Numbered(0, es) + Numbered(|es|, fs);
    var whole := Numbered(0, es + fs);
    forall i | 0 <= i < |whole| ensures joined[i] == whole[i] {
      if i < |es| {
        assert joined[i] == Numbered(0, es)[i];
      } else {
        var m := i - |es|;
        assert joined[i] == Numbered(|es|, fs)[m] == (ItemKey(|es| + m), fs[m]);
        assert |es| + m == i;
      }
    }
  }

  /** One more assignment at the next counter extends a numbering. */
  lemma NumberedNext(es: seq<MenuItem>, e: MenuItem)
    ensures Put(Numbered(0, es), ItemKey(|es|), e) == Numbered(0, es + [e])
  {
    NumberedExtend(es, [e]);
    assert [e][..0] == [];
  }

  /** In a numbering, `item_{c+j}` holds the j-th entry. */
  lemma NumberedAt(c: nat, es: seq<MenuItem>, j: nat)
    requires j < |es|
    ensures Get(Numbered(c, es), ItemKey(c + j)) == Some(es[j])
  {
    var d := Numbered(c, es);
    assert d[j] == (ItemKey(c + j), es[j]);
    GetIffItem(d, ItemKey(c + j), es[j]);
  }

  /** A numbering has exactly the keys `item_c` ... `item_{c+|es|-1}`. */
  lemma NumberedKeys(c: nat, es: seq<MenuItem>, k: string)
    ensures HasKey(Numbered(c, es), k) <==> exists m :: c <= m < c + |es| && k == ItemKey(m)
  {
    var d := Numbered(c, es);
    if HasKey(d, k) {
      var i :| 0 <= i < |d| && d[i].0 == k;
      assert k == ItemKey(c + i);
    }
    if exists m :: c <= m < c + |es| && k == ItemKey(m) {
      var m :| c <= m < c + |es| && k == ItemKey(m);
      assert d[m - c].0 == k;
    }
  }

  /** Sorting a numbering from 0 keeps `item_j` at the j-th entry. */
  lemma SortedNumberedAt(es: seq<MenuItem>, j: nat)
    requires j < |es|
    ensures Get(SortItems(Numbered(0, es)), ItemKey(j)) == Some(es[j])
  {
    var d := Numbered(0, es);
    var k := ItemKey(j);
    assert Get(d, k) == Some(es[j]) by {
      assert d[j] == (k, es[j]);
      GetIffItem(d, k, es[j]);
    }
    SortItemsGet(d, k);
  }

  /** Sorting a numbering from 0 keeps its keys `item_0` ... `item_{|es|-1}`. */
  lemma SortedNumberedKeys(es: seq<MenuItem>, k: string)
    ensures HasKey(SortItems(Numbered(0, es)), k) <==> exists m :: 0 <= m < |es| && k == ItemKey(m)
  {
    SortItemsGet(Numbered(0, es), k);
    NumberedKeys(0, es, k);
  }
}

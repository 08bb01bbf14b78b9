/** A Python `dict` with string keys, as the generator uses it: its items in
    insertion order, assignment `d[k] = v`, lookup, and `sorted(d.items())`. */
module PyDict {
  import opened PyStr

  datatype Option<T> = None | Some(value: T)

  /** The items of a dict, in insertion order. */
  type Dict<V> = seq<(string, V)>

  /** No key occurs twice: every dict Python builds has this shape. */
  predicate DistinctKeys<V>(d: Dict<V>)
  {
    forall i, j :: 0 <= i < j < |d| ==> d[i].0 != d[j].0
  }

  predicate HasKey<V>(d: Dict<V>, k: string)
  {
    exists i :: 0 <= i < |d| && d[i].0 == k
  }

  /** `d.get(k)`. */
  function Get<V>(d: Dict<V>, k: string): (r: Option<V>)
    ensures r.Some? <==> HasKey(d, k)
    ensures r.Some? ==> (k, r.value) in d
  {
    if d == [] then None
    else if d[0].0 == k then Some(d[0].1)
    else
      assert forall i :: 1 <= i < |d| ==> d[i] == d[1..][i - 1];
      Get(d[1..], k)
  }

  /** In a dict, an item is present exactly when lookup finds it. */
  lemma {:induction false} GetIffItem<V>(d: Dict<V>, k: string, v: V)
    requires DistinctKeys(d)
    ensures Get(d, k) == Some(v) <==> (k, v) in d
  {
    if d != [] && d[0].0 != k {
      GetIffItem(d[1..], k, v);
    } else if d != [] {
      forall i | 0 <= i < |d| && d[i].0 == k ensures i == 0 {}
    }
  }

  /** `d[k] = v`: the value of an existing key is replaced where it stands;
      a new key is appended at the end. */
  function Put<V>(d: Dict<V>, k: string, v: V): (r: Dict<V>)
    ensures |r| == if HasKey(d, k) then |d| else |d| + 1
  {
    if HasKey(d, k) then
      ReplaceKeys(d, k, v);
      Replace(d, k, v)
    else
      d + [(k, v)]
  }

  /** Every item with key k gets the value v. */
  function Replace<V>(d: Dict<V>, k: string, v: V): Dict<V>
  {
    if d == [] then [] else [if d[0].0 == k then (k, v) else d[0]] + Replace(d[1..], k, v)
  }

  /** Assigning a new key appends one item. */
  lemma PutAppends<V>(d: Dict<V>, k: string, v: V)
    requires !HasKey(d, k)
    ensures Put(d, k, v) == d + [(k, v)]
  {
  }

  /** Assigning an existing key keeps every key where it was. */
  lemma PutReplaces<V>(d: Dict<V>, k: string, v: V)
    requires HasKey(d, k)
    ensures |Put(d, k, v)| == |d|
    ensures forall i :: 0 <= i < |d| ==> Put(d, k, v)[i].0 == d[i].0
  {
    ReplaceKeys(d, k, v);
  }

  lemma {:induction false} ReplaceKeys<V>(d: Dict<V>, k: string, v: V)
    ensures |Replace(d, k, v)| == |d|
    ensures forall i :: 0 <= i < |d| ==> Replace(d, k, v)[i].0 == d[i].0
  {
    if d != [] {
      ReplaceKeys(d[1..], k, v);
      forall i | 0 <= i < |d| ensures Replace(d, k, v)[i].0 == d[i].0 {
        if i > 0 {
          assert Replace(d, k, v)[i] == Replace(d[1..], k, v)[i - 1];
        }
      }
    }
  }

  lemma {:induction false} GetAppend<V>(d: Dict<V>, k: string, v: V, k': string)
    ensures Get(d + [(k, v)], k') == if HasKey(d, k') then Get(d, k') else if k' == k then Some(v) else None
  {
    if d != [] {
      assert (d + [(k, v)])[1..] == d[1..] + [(k, v)];
      GetAppend(d[1..], k, v, k');
    }
  }

  lemma {:induction false} GetReplace<V>(d: Dict<V>, k: string, v: V, k': string)
    ensures Get(Replace(d, k, v), k') == if k' != k then Get(d, k') else if HasKey(d, k) then Some(v) else None
  {
    if d != [] {
      GetReplace(d[1..], k, v, k');
    }
  }

  /** After `d[k] = v`, looking up k gives v and every other key gives what
      it gave before. */
  lemma PutGet<V>(d: Dict<V>, k: string, v: V, k': string)
    ensures Get(Put(d, k, v), k') == if k' == k then Some(v) else Get(d, k')
  {
    if HasKey(d, k) {
      GetReplace(d, k, v, k');
    } else {
      GetAppend(d, k, v, k');
    }
  }

  // ---------------------------------------------------------------------
  // sorted(d.items())
  // ---------------------------------------------------------------------

  /** Items in strictly ascending order of their key strings. */
  predicate SortedByKey<V>(s: Dict<V>)
  {
    forall i, j :: 0 <= i < j < |s| ==> StrLess(s[i].0, s[j].0)
  }

  predicate KeyAbsent<V>(s: Dict<V>, k: string)
  {
    forall i :: 0 <= i < |s| ==> s[i].0 != k
  }

  function Insert<V>(x: (string, V), s: Dict<V>): (r: Dict<V>)
    requires SortedByKey(s) && KeyAbsent(s, x.0)
    ensures multiset(r) == multiset(s) + multiset{x}
    ensures SortedByKey(r)
  {
    if s == [] then [x]
    else if StrLess(x.0, s[0].0) then
      forall j | 0 <= j < |s| ensures StrLess(x.0, s[j].0) {
        if j > 0 { StrLessTransitive(x.0, s[0].0, s[j].0); }
      }
      [x] + s
    else
      StrLessTotal(x.0, s[0].0);
      var rest := Insert(x, s[1..]);
      assert s == [s[0]] + s[1..];
      forall j | 0 <= j < |rest| ensures StrLess(s[0].0, rest[j].0) {
        assert rest[j] in multiset(rest);
        if rest[j] != x {
          assert rest[j] in s[1..];
        }
      }
      [s[0]] + rest
  }

  /** `sorted(d.items())`: the items in ascending order of key. Keys are
      distinct, so the values are never compared. */
  function SortItems<V>(d: Dict<V>): (r: Dict<V>)
    requires DistinctKeys(d)
    ensures multiset(r) == multiset(d)
    ensures SortedByKey(r)
  {
    if d == [] then []
    else
      var rest := SortItems(d[1..]);
      forall i | 0 <= i < |rest| ensures rest[i].0 != d[0].0 {
        assert rest[i] in multiset(d[1..]);
      }
      assert d == [d[0]] + d[1..];
      Insert(d[0], rest)
  }

  /** A key-sorted list has distinct keys. */
  lemma SortedDistinct<V>(s: Dict<V>)
    requires SortedByKey(s)
    ensures DistinctKeys(s)
  {
    forall i, j | 0 <= i < j < |s| ensures s[i].0 != s[j].0 {
      if s[i].0 == s[j].0 {
        StrLessIrreflexive(s[i].0);
      }
    }
  }

  /** Sorting keeps what lookup finds: the sorted items describe the same dict. */
  lemma SortItemsGet<V>(d: Dict<V>, k: string)
    requires DistinctKeys(d)
    ensures Get(SortItems(d), k) == Get(d, k)
  {
    var r := SortItems(d);
    SortedDistinct(r);
    if Get(d, k).Some? {
      var v := Get(d, k).value;
      GetIffItem(d, k, v);
      assert (k, v) in multiset(r);
      GetIffItem(r, k, v);
    }
    if Get(r, k).Some? {
      var v := Get(r, k).value;
      assert (k, v) in multiset(r);
      GetIffItem(d, k, v);
    }
  }
}

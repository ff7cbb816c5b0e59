/** Python's stable `sorted()`, as a stable insertion sort over a comparator,
    with its two promises: the result is a permutation and it is in order. */
module Sorting {
  import opened Strings
  import opened PySeq

  /** A strict weak order: irreflexive, transitive, and its incomparability is transitive. */
  ghost predicate StrictWeakOrder<T(!new)>(less: (T, T) -> bool)
  {
    && (forall a :: !less(a, a))
    && (forall a, b, c :: less(a, b) && less(b, c) ==> less(a, c))
    && (forall a, b, c :: !less(a, b) && !less(b, c) ==> !less(a, c))
  }

  /** No later element comes strictly before an earlier one. */
  ghost predicate Sorted<T>(s: seq<T>, less: (T, T) -> bool)
  {
    forall i, j :: 0 <= i < j < |s| ==> !less(s[j], s[i])
  }

  /** Place `x` before the first element that does not come strictly before it. */
  function Insert<T>(x: T, s: seq<T>, less: (T, T) -> bool): (r: seq<T>)
    ensures |r| == |s| + 1
  {
    if |s| == 0 then [x]
    else if less(s[0], x) then [s[0]] + Insert(x, s[1..], less)
    else [x] + s
  }

  /** Inserting adds exactly one copy of `x`. */
  lemma {:induction false} InsertPermutes<T>(x: T, s: seq<T>, less: (T, T) -> bool)
    ensures multiset(Insert(x, s, less)) == multiset(s) + multiset{x}
  {
    if |s| > 0 {
      assert s == [s[0]] + s[1..];
      if less(s[0], x) {
        InsertPermutes(x, s[1..], less);
      }
    }
  }

  /** Stable sort: equal elements keep their input order. */
  function SortBy<T>(s: seq<T>, less: (T, T) -> bool): (r: seq<T>)
    ensures |r| == |s|
  {
    if |s| == 0 then []
    else Insert(s[0], SortBy(s[1..], less), less)
  }

  /** Sorting neither loses nor duplicates an element. */
  lemma {:induction false} SortByPermutes<T>(s: seq<T>, less: (T, T) -> bool)
    ensures multiset(SortBy(s, less)) == multiset(s)
  {
    if |s| > 0 {
      assert s == [s[0]] + s[1..];
      SortByPermutes(s[1..], less);
      InsertPermutes(s[0], SortBy(s[1..], less), less);
    }
  }

  lemma {:induction false} InsertSorted<T(!new)>(x: T, s: seq<T>, less: (T, T) -> bool)
    requires StrictWeakOrder(less) && Sorted(s, less)
    ensures Sorted(Insert(x, s, less), less)
  {
    var r := Insert(x, s, less);
    if |s| == 0 {
    } else if less(s[0], x) {
      var tail := Insert(x, s[1..], less);
      assert Sorted(s[1..], less) by {
        forall i, j | 0 <= i < j < |s[1..]| ensures !less(s[1..][j], s[1..][i]) {
          assert s[1..][j] == s[j + 1] && s[1..][i] == s[i + 1];
        }
      }
      InsertSorted(x, s[1..], less);
      InsertPermutes(x, s[1..], less);
      assert r == [s[0]] + tail;
      forall j | 0 < j < |r| ensures !less(r[j], r[0]) {
        var y := r[j];
        assert y == tail[j - 1];
        assert y in multiset(tail);
        if y != x {
          assert y in multiset(s[1..]);
          var k :| 0 <= k < |s[1..]| && s[1..][k] == y;
          assert s[k + 1] == y;
        }
      }
    } else {
      assert r == [x] + s;
      forall j | 0 < j < |r| ensures !less(r[j], r[0]) {
        assert r[j] == s[j - 1];
        if j - 1 > 0 {
          assert !less(s[j - 1], s[0]);
        }
      }
    }
  }

  lemma {:induction false} SortBySorted<T(!new)>(s: seq<T>, less: (T, T) -> bool)
    requires StrictWeakOrder(less)
    ensures Sorted(SortBy(s, less), less)
  {
    if |s| > 0 {
      SortBySorted(s[1..], less);
      InsertSorted(s[0], SortBy(s[1..], less), less);
    }
  }

  lemma LexLessIsStrictWeakOrder()
    ensures StrictWeakOrder(LexLess)
  {
    forall a ensures !LexLess(a, a) {
      LexLessIrreflexive(a);
    }
    forall a, b, c | LexLess(a, b) && LexLess(b, c) ensures LexLess(a, c) {
      LexLessTransitive(a, b, c);
    }
    forall a, b, c | !LexLess(a, b) && !LexLess(b, c) ensures !LexLess(a, c) {
      if a != b { LexLessTotal(a, b); }
      if b != c { LexLessTotal(b, c); }
      if a != b && b != c {
        LexLessTransitive(c, b, a);
        LexLessAsymmetric(c, a);
      }
    }
  }

  /** Python's `sorted()` on a list of str. */
  function SortStrings(s: seq<string>): (r: seq<string>)
    ensures |r| == |s|
  {
    SortBy(s, LexLess)
  }

  /** Each string comes strictly before the next: sorted and without repeats. */
  predicate StrictlySorted(s: seq<string>)
  {
    forall i, j {:trigger LexLess(s[i], s[j])} :: 0 <= i < j < |s| ==> LexLess(s[i], s[j])
  }

  lemma StrictlySortedDistinct(s: seq<string>)
    requires StrictlySorted(s)
    ensures Distinct(s)
  {
    forall i, j | 0 <= i < j < |s| ensures s[i] != s[j] {
      if s[i] == s[j] { LexLessIrreflexive(s[i]); }
    }
  }

  /** Sorting a list of distinct names yields them strictly ordered. */
  lemma SortStringsStrict(s: seq<string>)
    requires Distinct(s)
    ensures StrictlySorted(SortStrings(s))
  {
    var r := SortStrings(s);
    LexLessIsStrictWeakOrder();
    SortBySorted(s, LexLess);
    SortByPermutes(s, LexLess);
    DistinctPermutation(s, r);
    forall i, j | 0 <= i < j < |r| ensures LexLess(r[i], r[j]) {
      LexLessTotal(r[i], r[j]);
    }
  }

  /** A strictly sorted list is determined by its elements. */
  lemma {:induction false} StrictlySortedUnique(a: seq<string>, b: seq<string>)
    requires StrictlySorted(a) && StrictlySorted(b)
    requires forall x :: x in a <==> x in b
    ensures a == b
  {
    if |a| > 0 { assert a[0] in b; }
    if |b| > 0 { assert b[0] in a; }
    if |a| > 0 && |b| > 0 {
      if a[0] != b[0] {
        var i :| 0 <= i < |b| && b[i] == a[0];
        var j :| 0 <= j < |a| && a[j] == b[0];
        LexLessTransitive(a[0], a[j], b[i]);
        LexLessIrreflexive(a[0]);
      }
      forall x ensures x in a[1..] <==> x in b[1..] {
        TailMembers(a, x);
        TailMembers(b, x);
      }
      StrictlySortedUnique(a[1..], b[1..]);
    }
  }

  lemma TailMembers(s: seq<string>, x: string)
    requires StrictlySorted(s) && |s| > 0
    ensures x in s[1..] <==> x in s && x != s[0]
  {
    if x in s[1..] {
      var i :| 1 <= i < |s| && s[i] == x;
      if x == s[0] { LexLessIrreflexive(x); }
    }
    if x in s && x != s[0] {
      var i :| 0 <= i < |s| && s[i] == x;
      assert s[1..][i - 1] == x;
    }
  }

  /** Sorting keeps exactly the elements it was given. */
  lemma SortStringsMembers(s: seq<string>, x: string)
    ensures x in SortStrings(s) <==> x in s
  {
    SortByPermutes(s, LexLess);
    assert x in multiset(SortStrings(s)) <==> x in multiset(s);
  }

  /** `sorted(keys + [name])` for a name not yet present: strictly sorted, holding exactly one more name. */
  lemma SortedInsert(keys: seq<string>, name: string)
    requires StrictlySorted(keys) && name !in keys
    ensures StrictlySorted(SortStrings(keys + [name]))
    ensures forall x :: x in SortStrings(keys + [name]) <==> x in keys || x == name
  {
    var s := keys + [name];
    StrictlySortedDistinct(keys);
    SortStringsStrict(s);
    forall x ensures x in SortStrings(s) <==> x in s {
      SortStringsMembers(s, x);
    }
  }

  lemma RemoveFirstStrict(keys: seq<string>, name: string)
    requires StrictlySorted(keys) && name in keys
    ensures StrictlySorted(RemoveFirst(keys, name))
  {
    var s := RemoveFirst(keys, name);
    var i := IndexOf(keys, name);
    forall p, q | 0 <= p < q < |s| ensures LexLess(s[p], s[q]) {
      var p' := if p < i then p else p + 1;
      var q' := if q < i then q else q + 1;
      assert s[p] == keys[p'] && s[q] == keys[q'];
    }
  }

  lemma RemoveFirstMembers(keys: seq<string>, name: string, x: string)
    requires StrictlySorted(keys) && name in keys
    ensures x in RemoveFirst(keys, name) <==> x in keys && x != name
  {
    var s := RemoveFirst(keys, name);
    var i := IndexOf(keys, name);
    StrictlySortedDistinct(keys);
    if x in keys && x != name {
      var k :| 0 <= k < |keys| && keys[k] == x;
      assert k != i;
      assert x == s[if k < i then k else k - 1];
    }
    if x in s {
      var k :| 0 <= k < |s| && s[k] == x;
      var k' := if k < i then k else k + 1;
      assert x == keys[k'] && k' != i;
    }
  }

  /** `keys.remove(name)` then `sorted()` on a strictly sorted list: the list
      without that name, which was already in order. */
  lemma SortedRemove(keys: seq<string>, name: string)
    requires StrictlySorted(keys) && name in keys
    ensures SortStrings(RemoveFirst(keys, name)) == RemoveFirst(keys, name)
    ensures StrictlySorted(RemoveFirst(keys, name))
    ensures forall x :: x in RemoveFirst(keys, name) <==> x in keys && x != name
  {
    var s := RemoveFirst(keys, name);
    RemoveFirstStrict(keys, name);
    StrictlySortedDistinct(s);
    SortStringsStrict(s);
    forall x ensures x in SortStrings(s) <==> x in s {
      SortStringsMembers(s, x);
    }
    StrictlySortedUnique(SortStrings(s), s);
    forall x ensures x in s <==> x in keys && x != name {
      RemoveFirstMembers(keys, name, x);
    }
  }

  /** `remove` then `sorted` keeps a strictly sorted list strictly sorted. */
  lemma RemoveKeepsSorted(keys: seq<string>, name: string)
    requires name in keys
    ensures StrictlySorted(keys) ==> StrictlySorted(SortStrings(RemoveFirst(keys, name)))
    ensures StrictlySorted(keys) ==>
      forall x :: x in SortStrings(RemoveFirst(keys, name)) <==> x in keys && x != name
  {
    if StrictlySorted(keys) {
      SortedRemove(keys, name);
    }
  }

  /** One row of `np.lexsort((keys, sizes))`: primary key size, secondary key name. */
  datatype Entry = Entry(size: nat, key: string, index: nat)

  /** Ascending by size, then by name. */
  predicate AscLess(a: Entry, b: Entry)
  {
    a.size < b.size || (a.size == b.size && LexLess(a.key, b.key))
  }

  lemma AscLessIsStrictWeakOrder()
    ensures StrictWeakOrder(AscLess)
  {
    forall a ensures !AscLess(a, a) {
      LexLessIrreflexive(a.key);
    }
    forall a, b, c | AscLess(a, b) && AscLess(b, c) ensures AscLess(a, c) {
      if a.size == b.size == c.size { LexLessTransitive(a.key, b.key, c.key); }
    }
    forall a, b, c | !AscLess(a, b) && !AscLess(b, c) ensures !AscLess(a, c) {
      if a.size == c.size {
        assert b.size == a.size;
        if a.key != b.key { LexLessTotal(a.key, b.key); }
        if b.key != c.key { LexLessTotal(b.key, c.key); }
        if a.key != b.key && b.key != c.key {
          LexLessTransitive(c.key, b.key, a.key);
          LexLessAsymmetric(c.key, a.key);
        }
      }
    }
  }

  function Entries(keys: seq<string>, sizes: seq<nat>): (r: seq<Entry>)
    requires |sizes| == |keys|
    ensures |r| == |keys|
    ensures forall i :: 0 <= i < |r| ==> r[i] == Entry(sizes[i], keys[i], i)
  {
    seq(|keys|, i requires 0 <= i < |keys| => Entry(sizes[i], keys[i], i))
  }

  function Reverse<T>(s: seq<T>): (r: seq<T>)
    ensures |r| == |s|
    ensures forall i :: 0 <= i < |s| ==> r[i] == s[|s| - 1 - i]
  {
    seq(|s|, i requires 0 <= i < |s| => s[|s| - 1 - i])
  }

  /** `np.lexsort((keys, sizes)).tolist()[::-1]`: the positions of `keys`,
      largest bundle first, ties broken by the greater name. */
  function Order(keys: seq<string>, sizes: seq<nat>): (r: seq<nat>)
    requires |sizes| == |keys|
    ensures |r| == |keys|
  {
    var sorted := SortBy(Entries(keys, sizes), AscLess);
    Reverse(seq(|sorted|, i requires 0 <= i < |sorted| => sorted[i].index))
  }

  /** Position `i` comes before position `j`: a bigger bundle, or as big with a greater name. */
  predicate Before(keys: seq<string>, sizes: seq<nat>, i: nat, j: nat)
    requires i < |keys| && j < |keys| && |sizes| == |keys|
  {
    AscLess(Entry(sizes[j], keys[j], j), Entry(sizes[i], keys[i], i))
  }

  /** The order lists every position exactly once, strictly descending by (size, name). */
  lemma OrderIsPermutation(keys: seq<string>, sizes: seq<nat>)
    requires |sizes| == |keys| && Distinct(keys)
    ensures forall p :: 0 <= p < |keys| ==> Order(keys, sizes)[p] < |keys|
    ensures Distinct(Order(keys, sizes))
    ensures forall i :: 0 <= i < |keys| ==> i in Order(keys, sizes)
    ensures forall p, q :: 0 <= p < q < |keys| ==> Before(keys, sizes, Order(keys, sizes)[p], Order(keys, sizes)[q])
  {
    var n := |keys|;
    var es := Entries(keys, sizes);
    var sorted := SortBy(es, AscLess);
    var order := Order(keys, sizes);
    assert Distinct(es);
    SortByPermutes(es, AscLess);
    DistinctPermutation(es, sorted);
    forall p | 0 <= p < n ensures sorted[p].index < n && sorted[p] == es[sorted[p].index] {
      assert sorted[p] in multiset(es);
      var j :| 0 <= j < n && es[j] == sorted[p];
    }
    forall p | 0 <= p < n ensures order[p] == sorted[n - 1 - p].index {
    }
    forall p, q | 0 <= p < q < n ensures order[p] != order[q] {
      assert sorted[n - 1 - p] != sorted[n - 1 - q];
    }
    forall i | 0 <= i < n ensures i in order {
      assert es[i] in multiset(sorted);
      var p :| 0 <= p < n && sorted[p] == es[i];
      assert order[n - 1 - p] == i;
    }
    AscLessIsStrictWeakOrder();
    SortBySorted(es, AscLess);
    forall p, q | 0 <= p < q < n ensures Before(keys, sizes, order[p], order[q]) {
      var a, b := sorted[n - 1 - q], sorted[n - 1 - p];
      assert !AscLess(b, a);
      assert a.key != b.key;
      LexLessTotal(a.key, b.key);
    }
  }

  /** Every entry of the order is a position of `keys`, and every position appears. */
  lemma OrderIndices(keys: seq<string>, sizes: seq<nat>)
    requires |sizes| == |keys| && Distinct(keys)
    ensures forall p :: 0 <= p < |keys| ==> Order(keys, sizes)[p] < |keys|
    ensures forall i :: 0 <= i < |keys| ==> i in Order(keys, sizes)
  {
    OrderIsPermutation(keys, sizes);
  }

  /** With no selection, the first pick is a largest bundle. */
  lemma OrderStartsWithLargest(keys: seq<string>, sizes: seq<nat>)
    requires |sizes| == |keys| > 0 && Distinct(keys)
    ensures Order(keys, sizes)[0] < |keys|
    ensures forall i :: 0 <= i < |keys| ==> sizes[Order(keys, sizes)[0]] >= sizes[i]
  {
    OrderIsPermutation(keys, sizes);
    var order := Order(keys, sizes);
    forall i | 0 <= i < |keys| ensures sizes[order[0]] >= sizes[i] {
      assert i in order;
      var p :| 0 <= p < |keys| && order[p] == i;
      if p > 0 {
        assert Before(keys, sizes, order[0], order[p]);
      }
    }
  }
}

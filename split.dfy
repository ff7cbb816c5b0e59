/** The apply button's split: the children's names `parent + str(i) + "/"`
    are fresh and pairwise apart, so registering them and dropping the parent
    keeps the registry invariant. */
module Split {
  import opened Wrappers
  import opened Strings
  import opened PySeq
  import opened Sorting
  import opened Bundles
  import opened Curation
  import opened CurationLemmas

  // ---------------------------------------------------------------- names

  /** A prefix of two strings that is no longer than the other is its prefix. */
  lemma PrefixOfBoth(q: string, p: string, c: string)
    requires q <= c && p <= c
    ensures |q| <= |p| ==> q <= p
    ensures |p| <= |q| ==> p <= q
  {
  }

  /** A child's name is not in use yet and is not a prefix of, nor prefixed
      by, any name in use other than its parent's. */
  lemma ChildFresh(names: set<string>, p: string, i: nat)
    requires PrefixFree(names) && p in names
    ensures ChildName(p, i) !in names
    ensures forall q :: q in names && q != p ==> !(q <= ChildName(p, i)) && !(ChildName(p, i) <= q)
  {
    var c := ChildName(p, i);
    forall q | q in names && q != p
      ensures !(q <= c) && !(c <= q)
    {
      if q <= c {
        PrefixOfBoth(q, p, c);
      }
    }
  }

  /** Two different children have names neither of which is a prefix of the other. */
  lemma ChildrenApart(p: string, i: nat, j: nat)
    requires i != j
    ensures !(ChildName(p, i) <= ChildName(p, j))
  {
    var a, b := DecimalString(i), DecimalString(j);
    var x, y := ChildName(p, i), ChildName(p, j);
    if x <= y {
      assert |a| <= |b|;
      forall k | 0 <= k < |a| ensures a[k] == b[k] {
        assert x[|p| + k] == a[k] && y[|p| + k] == b[k];
      }
      assert x[|p| + |a|] == '/';
      if |a| == |b| {
        assert a == b;
        DecimalStringInjective(i, j);
      }
    }
  }

  // ---------------------------------------------------------------- registering the children

  /** The set of names of the first `m` children. */
  ghost predicate IsChildOf(p: string, m: nat, x: string)
  {
    exists i :: 0 <= i < m && x == ChildName(p, i)
  }

  /** Registering the first `m` children adds exactly their names, each bound
      to its own child, and keeps `keys` strictly sorted. */
  lemma {:induction false} AddChildrenState(r: Registry, p: string, children: seq<Bundle>, m: nat)
    requires m <= |children|
    requires StrictlySorted(r.keys) && (forall k :: k in r.keys <==> k in r.bundles)
    requires forall i :: 0 <= i < |children| ==> ChildName(p, i) !in r.keys
    ensures var r' := AddChildren(r, p, children, m);
      && r' == r.(keys := r'.keys, bundles := r'.bundles)
      && StrictlySorted(r'.keys)
      && (forall x :: x in r'.keys <==> x in r'.bundles)
      && (forall x :: x in r'.keys <==> x in r.keys || IsChildOf(p, m, x))
      && (forall i :: 0 <= i < m ==> r'.bundles[ChildName(p, i)] == children[i])
      && (forall x :: x in r.bundles ==> r'.bundles[x] == r.bundles[x])
    decreases m
  {
    if m > 0 {
      AddChildrenState(r, p, children, m - 1);
      var r1 := AddChildren(r, p, children, m - 1);
      var c := ChildName(p, m - 1);
      assert c !in r1.keys by {
        if IsChildOf(p, m - 1, c) {
          var i :| 0 <= i < m - 1 && c == ChildName(p, i);
          ChildrenApart(p, i, m - 1);
        }
      }
      AddBundleSpec(r1, c, children[m - 1]);
      var r' := AddChildren(r, p, children, m);
      forall i | 0 <= i < m - 1 ensures r'.bundles[ChildName(p, i)] == children[i] {
        ChildrenApart(p, i, m - 1);
      }
      forall x ensures x in r'.keys <==> x in r.keys || IsChildOf(p, m, x) {
        if IsChildOf(p, m, x) && x != c {
          var i :| 0 <= i < m && x == ChildName(p, i);
          assert IsChildOf(p, m - 1, x);
        }
      }
    }
  }

  /** Apply is registering the children, then removing the parent, then
      clearing the selection. */
  lemma ApplySteps(r: Registry, children: seq<Bundle>, mid: Registry, r': Registry)
    requires r.selected.Some? && r.selected.value in r.bundles
    requires mid == AddChildren(r, r.selected.value, children, |children|)
    requires r.selected.value in mid.keys
    requires r' == RemoveBundle(mid, r.selected.value).value.(selected := None)
    ensures Apply(r, children) == Ok(r')
  {
  }

  /** Apply fails with KeyError exactly when the selection names no bundle.
      Otherwise the parent is gone, each cluster is registered under
      `parent + str(i) + "/"`, every other bundle stays, the selection is
      cleared, and nothing else changes. */
  lemma ApplySpec(r: Registry, children: seq<Bundle>)
    requires Inv(r)
    ensures Apply(r, children).Err? <==> r.selected.None? || r.selected.value !in r.bundles
    ensures Apply(r, children).Err? ==> Apply(r, children).error == KeyError
    ensures Apply(r, children).Ok? ==>
      var p := r.selected.value;
      var r' := Apply(r, children).value;
      && r'.selected.None?
      && r' == r.(keys := r'.keys, bundles := r'.bundles, selected := None)
      && StrictlySorted(r'.keys)
      && (forall x :: x in r'.keys <==> (x in r.keys && x != p) || IsChildOf(p, |children|, x))
      && (forall x :: x in r'.keys <==> x in r'.bundles)
      && (forall i :: 0 <= i < |children| ==> r'.bundles[ChildName(p, i)] == children[i])
      && (forall x :: x in r.bundles && x != p ==> r'.bundles[x] == r.bundles[x])
  {
    if r.selected.Some? && r.selected.value in r.bundles {
      var p := r.selected.value;
      ApplyFresh(r, p, children);
      AddChildrenState(r, p, children, |children|);
      var r1 := AddChildren(r, p, children, |children|);
      RemoveBundleSpec(r1, p);
      forall i | 0 <= i < |children| ensures ChildName(p, i) != p {
        assert |ChildName(p, i)| > |p|;
      }
    }
  }

  lemma ApplyFresh(r: Registry, p: string, children: seq<Bundle>)
    requires Inv(r) && p in r.bundles
    ensures forall i :: 0 <= i < |children| ==> ChildName(p, i) !in NameSet(r)
  {
    forall i | 0 <= i < |children| ensures ChildName(p, i) !in NameSet(r) {
      ChildFresh(NameSet(r), p, i);
    }
  }

  /** Apply keeps the invariant: the children's names are fresh and apart
      from every other name in use. */
  lemma ApplyKeepsInv(r: Registry, children: seq<Bundle>)
    requires Inv(r) && r.selected.Some? && r.selected.value in r.bundles
    ensures Apply(r, children).Ok? && Inv(Apply(r, children).value)
  {
    ApplySpec(r, children);
    AppliedInv(r, r.selected.value, |children|, Apply(r, children).value);
  }

  lemma AppliedInv(r: Registry, p: string, k: nat, r': Registry)
    requires Inv(r) && p in r.bundles
    requires r' == r.(keys := r'.keys, bundles := r'.bundles, selected := None)
    requires StrictlySorted(r'.keys)
    requires forall x :: x in r'.keys <==> (x in r.keys && x != p) || IsChildOf(p, k, x)
    requires forall x :: x in r'.keys <==> x in r'.bundles
    ensures Inv(r')
  {
    var names := NameSet(r);
    forall x | x in NameSet(r') ensures (x in names && x != p) || IsChildOf(p, k, x) {
      if x in RecordNames(r.undo) {
        var i :| 0 <= i < |r.undo| && RecordNames(r.undo)[i] == x;
        assert r.undo[i].name !in r.bundles;
      }
    }
    forall i | 0 <= i < |r'.undo| ensures r'.undo[i].name !in r'.bundles {
      var x := r'.undo[i].name;
      assert x in RecordNames(r.undo) && x in names;
      assert x != p;
    }
    forall a, b | a in NameSet(r') && b in NameSet(r') && a != b ensures !(a <= b) {
      NoPrefix(names, p, k, a, b);
    }
  }

  lemma NoPrefix(names: set<string>, p: string, k: nat, a: string, b: string)
    requires PrefixFree(names) && p in names && a != b
    requires (a in names && a != p) || IsChildOf(p, k, a)
    requires (b in names && b != p) || IsChildOf(p, k, b)
    ensures !(a <= b)
  {
    if IsChildOf(p, k, a) {
      var i :| 0 <= i < k && a == ChildName(p, i);
      ChildFresh(names, p, i);
      if IsChildOf(p, k, b) {
        var j :| 0 <= j < k && b == ChildName(p, j);
        ChildrenApart(p, i, j);
      }
    } else if IsChildOf(p, k, b) {
      var j :| 0 <= j < k && b == ChildName(p, j);
      ChildFresh(names, p, j);
    }
  }
}

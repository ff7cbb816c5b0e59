/** The reset (home) button, the save button, the dim/hide state and the
    selection steps: what each does to the registry and that each keeps
    the registry invariant. */
module Housekeeping {
  import opened Wrappers
  import opened Strings
  import opened PySeq
  import opened Sorting
  import opened Bundles
  import opened Curation

  // ---------------------------------------------------------------- merged streamlines

  /** A streamline is merged exactly when some listed bundle holds it. */
  lemma {:induction false} MergedMembers(keys: seq<string>, bundles: map<string, Bundle>, s: Streamline)
    ensures s in Merged(keys, bundles) <==>
      exists i :: 0 <= i < |keys| && keys[i] in bundles && s in bundles[keys[i]].streamlines
    decreases |keys|
  {
    if |keys| > 0 {
      MergedMembers(keys[1..], bundles, s);
      if s in Merged(keys, bundles) && !(keys[0] in bundles && s in bundles[keys[0]].streamlines) {
        var i :| 0 <= i < |keys| - 1 && keys[1..][i] in bundles && s in bundles[keys[1..][i]].streamlines;
        assert keys[i + 1] == keys[1..][i];
      }
      if exists i :: 0 <= i < |keys| && keys[i] in bundles && s in bundles[keys[i]].streamlines {
        var i :| 0 <= i < |keys| && keys[i] in bundles && s in bundles[keys[i]].streamlines;
        if i > 0 {
          assert keys[1..][i - 1] == keys[i];
        }
      }
    }
  }

  /** Nothing is left to merge exactly when every listed bundle is empty. */
  lemma {:induction false} MergedEmpty(keys: seq<string>, bundles: map<string, Bundle>)
    ensures |Merged(keys, bundles)| == 0 <==>
      forall i :: 0 <= i < |keys| && keys[i] in bundles ==> |bundles[keys[i]].streamlines| == 0
    decreases |keys|
  {
    if |keys| > 0 {
      MergedEmpty(keys[1..], bundles);
      if |Merged(keys, bundles)| == 0 {
        forall i | 0 <= i < |keys| && keys[i] in bundles ensures |bundles[keys[i]].streamlines| == 0 {
          if i > 0 {
            assert keys[1..][i - 1] == keys[i];
          }
        }
      }
    }
  }

  /** Merging one more bundle appends its streamlines. */
  lemma {:induction false} MergedSnoc(keys: seq<string>, bundles: map<string, Bundle>, k: string)
    ensures Merged(keys + [k], bundles) == Merged(keys, bundles) + (if k in bundles then bundles[k].streamlines else [])
    decreases |keys|
  {
    if |keys| > 0 {
      assert (keys + [k])[1..] == keys[1..] + [k];
      MergedSnoc(keys[1..], bundles, k);
    } else {
      assert [k][1..] == [];
    }
  }

  /** Removing the smallest key of a strictly sorted key list leaves its tail. */
  lemma DropFirstKey(keys: seq<string>, rest: seq<string>)
    requires StrictlySorted(keys) && |keys| > 0 && StrictlySorted(rest)
    requires forall x :: x in rest <==> x in keys && x != keys[0]
    ensures rest == keys[1..]
  {
    StrictlySortedDistinct(keys);
    forall x ensures x in rest <==> x in keys[1..] {
      if x in keys[1..] {
        var j :| 0 <= j < |keys| - 1 && keys[1..][j] == x;
        assert keys[j + 1] == x;
      }
    }
    StrictlySortedUnique(rest, keys[1..]);
  }

  /** The reset button empties the undo memory and either leaves no bundle at
      all (nothing to merge; the selection is kept) or exactly the root
      bundle "/" with nothing selected; liked and disliked streamlines and
      the dim/hide state stay. The invariant holds afterwards. */
  lemma ResetSpec(r: Registry, root: Bundle)
    requires Inv(r)
    ensures var r' := Reset(r, root);
      && Inv(r')
      && r'.undo == []
      && r'.inliers == r.inliers && r'.outliers == r.outliers
      && r'.visibility == r.visibility && r'.capacity == r.capacity
      && ((forall i :: 0 <= i < |r.keys| ==> |r.bundles[r.keys[i]].streamlines| == 0) ==>
            r'.keys == [] && r'.bundles == map[] && r'.selected == r.selected)
      && ((exists i :: 0 <= i < |r.keys| && |r.bundles[r.keys[i]].streamlines| > 0) ==>
            r'.keys == [Root] && r'.bundles == map[Root := root] && r'.selected.None?)
  {
    MergedEmpty(r.keys, r.bundles);
    var r' := Reset(r, root);
    assert NameSet(r') <= {Root};
  }

  // ---------------------------------------------------------------- save

  /** `sorted(self.bundles.keys())` is the key list: any repetition-free
      listing of the bundle names sorts to it. */
  lemma SortedNamesAreKeys(r: Registry, names: seq<string>)
    requires Inv(r)
    requires Distinct(names) && forall x :: x in names <==> x in r.bundles
    ensures SortStrings(names) == r.keys
  {
    SortStringsStrict(names);
    forall x ensures x in SortStrings(names) <==> x in names {
      SortStringsMembers(names, x);
    }
    StrictlySortedUnique(SortStrings(names), r.keys);
  }

  lemma {:induction false} BundleFilesSpec(prefix: string, keys: seq<string>, bundles: map<string, Bundle>, from: nat)
    ensures |BundleFiles(prefix, keys, bundles, from)| == |keys|
    ensures forall i :: 0 <= i < |keys| && keys[i] in bundles ==>
      BundleFiles(prefix, keys, bundles, from)[i]
        == SavedFile(prefix + "_bundle_" + DecimalString(from + i) + ".tck", bundles[keys[i]].streamlines)
    decreases |keys|
  {
    if |keys| > 0 {
      BundleFilesSpec(prefix, keys[1..], bundles, from + 1);
      forall i | 0 < i < |keys| && keys[i] in bundles
        ensures BundleFiles(prefix, keys, bundles, from)[i]
          == SavedFile(prefix + "_bundle_" + DecimalString(from + i) + ".tck", bundles[keys[i]].streamlines)
      {
        assert keys[1..][i - 1] == keys[i];
        assert from + 1 + (i - 1) == from + i;
      }
    }
  }

  /** Two numbered files have the same name only when they have the same number. */
  lemma BundleFileNamesDiffer(prefix: string, i: nat, j: nat)
    requires i != j
    ensures prefix + "_bundle_" + DecimalString(i) + ".tck" != prefix + "_bundle_" + DecimalString(j) + ".tck"
  {
    var a, b := DecimalString(i), DecimalString(j);
    var n := |prefix + "_bundle_"|;
    if prefix + "_bundle_" + a + ".tck" == prefix + "_bundle_" + b + ".tck" {
      assert |a| == |b|;
      forall k | 0 <= k < |a| ensures a[k] == b[k] {
        assert (prefix + "_bundle_" + a + ".tck")[n + k] == a[k];
        assert (prefix + "_bundle_" + b + ".tck")[n + k] == b[k];
      }
      assert a == b;
      DecimalStringInjective(i, j);
    }
  }

  /** The save button writes one file per bundle, `prefix_bundle_<i>.tck`
      for the i-th name in sorted order, then the liked and the disliked
      streamlines when there are any; it empties the undo memory and
      nothing else. */
  lemma SaveSpec(r: Registry, prefix: string)
    requires Inv(r)
    ensures var (r', files) := Save(r, prefix);
      var extra := (if |r.inliers| > 0 then 1 else 0) + (if |r.outliers| > 0 then 1 else 0);
      && r' == r.(undo := []) && Inv(r')
      && |files| == |r.keys| + extra
      && (forall i :: 0 <= i < |r.keys| ==>
            files[i] == SavedFile(prefix + "_bundle_" + DecimalString(i) + ".tck", r.bundles[r.keys[i]].streamlines))
      && (|r.inliers| > 0 ==> files[|r.keys|] == SavedFile(prefix + "_inliers.tck", r.inliers))
      && (|r.outliers| > 0 ==> files[|files| - 1] == SavedFile(prefix + "_outliers.tck", r.outliers))
  {
    BundleFilesSpec(prefix, r.keys, r.bundles, 0);
    var r' := Save(r, prefix).0;
    assert NameSet(r') <= NameSet(r);
  }

  // ---------------------------------------------------------------- visibility

  /** `_set_bundles_visibility` raises ValueError on an unknown state,
      remembers "dimmed" and "hidden" but not "visible", and keeps the invariant. */
  lemma SetVisibilitySpec(r: Registry, state: string)
    requires Inv(r)
    ensures SetVisibility(r, state).Err? <==> state != "visible" && state != "dimmed" && state != "hidden"
    ensures SetVisibility(r, state).Err? ==> SetVisibility(r, state).error == ValueError
    ensures state == "visible" ==> SetVisibility(r, state) == Ok(r)
    ensures state == "dimmed" || state == "hidden" ==>
      SetVisibility(r, state) == Ok(r.(visibility := state)) && Inv(r.(visibility := state))
  {
    assert NameSet(r.(visibility := state)) == NameSet(r);
  }

  /** The toggle flips between dimmed and hidden, so two toggles change nothing. */
  lemma ToggleSpec(r: Registry)
    requires Inv(r)
    ensures Inv(Toggle(r))
    ensures Toggle(r).visibility != r.visibility
    ensures Toggle(r) == r.(visibility := Toggle(r).visibility)
    ensures Toggle(Toggle(r)) == r
  {
    assert NameSet(Toggle(r)) == NameSet(r);
  }

  /** select_next / select_previous keep the invariant. */
  lemma StepKeepsInv(r: Registry, step: int)
    requires Inv(r)
    ensures Step(r, step).Ok? ==> Inv(Step(r, step).value)
  {
    if Step(r, step).Ok? {
      assert NameSet(Step(r, step).value) == NameSet(r);
    }
  }
}

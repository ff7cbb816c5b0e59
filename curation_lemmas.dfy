/** What the curation actions promise, proved about the registry functions of
    module Curation: the invariant each action keeps, the undo round trips,
    the selection order's cycle, and the fresh names of a split. */
module CurationLemmas {
  import opened Wrappers
  import opened Strings
  import opened PySeq
  import opened Sorting
  import opened Bundles
  import opened Curation

  // ---------------------------------------------------------------- helpers on names

  lemma PrefixFreeSubset(s: set<string>, t: set<string>)
    requires PrefixFree(s) && t <= s
    ensures PrefixFree(t)
  {
  }

  /** Record names after a push: the old ones and the new one, still without repeats. */
  lemma PushNames(u: seq<UndoRecord>, cap: Option<nat>, rec: UndoRecord)
    requires Distinct(RecordNames(u)) && rec.name !in RecordNames(u)
    ensures forall x :: x in RecordNames(DequeAppend(u, cap, rec)) ==> x in RecordNames(u) || x == rec.name
    ensures Distinct(RecordNames(DequeAppend(u, cap, rec)))
  {
    var e := u + [rec];
    var v := DequeAppend(u, cap, rec);
    var s := |e| - |v|;
    assert v == e[s..];
    forall x | x in RecordNames(v) ensures x in RecordNames(u) || x == rec.name {
      var i :| 0 <= i < |v| && RecordNames(v)[i] == x;
      assert v[i] == e[s + i];
      if s + i < |u| {
        assert RecordNames(u)[s + i] == x;
      }
    }
    forall i, j | 0 <= i < j < |v| ensures RecordNames(v)[i] != RecordNames(v)[j] {
      assert v[i] == e[s + i] && v[j] == e[s + j];
      if s + j < |u| {
        assert RecordNames(u)[s + i] != RecordNames(u)[s + j];
      } else {
        assert RecordNames(u)[s + i] == v[i].name;
      }
    }
  }

  /** Record names after a pop: the ones before the newest. */
  lemma PopNames(u: seq<UndoRecord>)
    requires |u| > 0 && Distinct(RecordNames(u))
    ensures Distinct(RecordNames(u[..|u| - 1]))
    ensures forall x :: x in RecordNames(u[..|u| - 1]) <==> x in RecordNames(u) && x != u[|u| - 1].name
  {
    var m := |u| - 1;
    assert RecordNames(u[..m]) == RecordNames(u)[..m];
    forall x | x in RecordNames(u) && x != u[m].name ensures x in RecordNames(u[..m]) {
      var i :| 0 <= i < |u| && RecordNames(u)[i] == x;
      assert i < m;
    }
    forall x | x in RecordNames(u[..m]) ensures x != u[m].name {
      var i :| 0 <= i < m && RecordNames(u)[i] == x;
      assert RecordNames(u)[i] != RecordNames(u)[m];
    }
  }

  // ---------------------------------------------------------------- like / dislike

  /** What the memorizing half of a judgement keeps of the invariant. */
  lemma MemorizeNames(r: Registry, action: Action)
    requires Inv(r) && r.selected.Some? && r.selected.value in r.bundles
    ensures var m := Memorize(r, action);
      && m.keys == r.keys && m.bundles == r.bundles && m.selected == r.selected
      && Distinct(RecordNames(m.undo))
      && (forall x :: x in RecordNames(m.undo) ==> x in RecordNames(r.undo) || x == r.selected.value)
      && (m.capacity.Some? ==> |m.undo| <= m.capacity.value)
  {
    var rec := RecordOf(r, action);
    assert rec.name !in RecordNames(r.undo);
    PushNames(r.undo, r.capacity, rec);
  }

  /** like/dislike fail with KeyError exactly when the selection names no bundle.
      Otherwise they push one record, extend exactly one collection by the
      bundle's streamlines, remove exactly that bundle and select another key. */
  lemma JudgeSpec(r: Registry, action: Action)
    requires Inv(r)
    ensures Judge(r, action).Err? <==> r.selected.None? || r.selected.value !in r.bundles
    ensures Judge(r, action).Err? ==> Judge(r, action).error == KeyError
    ensures Judge(r, action).Ok? ==>
      var name := r.selected.value;
      var b := r.bundles[name];
      var r' := Judge(r, action).value;
      && r'.undo == DequeAppend(r.undo, r.capacity, RecordOf(r, action))
      && r'.inliers == (if action == Like then r.inliers + b.streamlines else r.inliers)
      && r'.outliers == (if action == Dislike then r.outliers + b.streamlines else r.outliers)
      && r'.bundles == r.bundles - {name}
      && StrictlySorted(r'.keys)
      && (forall x :: x in r'.keys <==> x in r.keys && x != name)
      && r'.selected.Some? && r'.selected.value in r.keys
      && r'.visibility == r.visibility && r'.capacity == r.capacity
  {
    if r.selected.Some? && r.selected.value in r.bundles {
      var m := Memorize(r, action);
      StepSelects(m, 1);
      var r2 := m.(selected := Some(StepTarget(m, 1).value));
      RemoveBundleSpec(r2, r.selected.value);
    }
  }

  /** A registry whose names all come from an invariant-keeping one keeps the
      invariant, provided its own keys, bundles and records agree. */
  lemma InvOfFewerNames(r: Registry, r': Registry)
    requires Inv(r)
    requires StrictlySorted(r'.keys) && (forall k :: k in r'.keys <==> k in r'.bundles)
    requires Distinct(RecordNames(r'.undo))
    requires forall i :: 0 <= i < |r'.undo| ==> r'.undo[i].name !in r'.bundles
    requires NameSet(r') <= NameSet(r)
    requires r'.visibility == r.visibility
    requires r'.capacity.Some? ==> |r'.undo| <= r'.capacity.value
    ensures Inv(r')
  {
    PrefixFreeSubset(NameSet(r), NameSet(r'));
  }

  /** like/dislike keep the invariant. */
  lemma JudgeKeepsInv(r: Registry, action: Action)
    requires Inv(r) && r.selected.Some? && r.selected.value in r.bundles
    ensures Judge(r, action).Ok? && Inv(Judge(r, action).value)
  {
    JudgeSpec(r, action);
    MemorizeNames(r, action);
    JudgedInv(r, action, Judge(r, action).value);
  }

  lemma JudgedInv(r: Registry, action: Action, r': Registry)
    requires Inv(r) && r.selected.Some? && r.selected.value in r.bundles
    requires r'.undo == Memorize(r, action).undo
    requires Distinct(RecordNames(r'.undo))
    requires forall x :: x in RecordNames(r'.undo) ==> x in RecordNames(r.undo) || x == r.selected.value
    requires r'.capacity == r.capacity && r'.visibility == r.visibility
    requires r'.capacity.Some? ==> |r'.undo| <= r'.capacity.value
    requires r'.bundles == r.bundles - {r.selected.value}
    requires StrictlySorted(r'.keys)
    requires forall x :: x in r'.keys <==> x in r.keys && x != r.selected.value
    ensures Inv(r')
  {
    forall i | 0 <= i < |r'.undo| ensures r'.undo[i].name !in r'.bundles {
      assert RecordNames(r'.undo)[i] == r'.undo[i].name;
    }
    InvOfFewerNames(r, r');
  }

  // ---------------------------------------------------------------- undo

  /** undo with an empty memory changes nothing; otherwise it pops the newest
      record, truncates the collection that record extended by the bundle's
      size, re-registers the bundle under its name and selects it. */
  lemma UndoSpec(r: Registry)
    requires Inv(r)
    ensures |r.undo| == 0 ==> Undo(r) == r
    ensures |r.undo| > 0 ==>
      var rec := r.undo[|r.undo| - 1];
      var r' := Undo(r);
      && r'.undo == r.undo[..|r.undo| - 1]
      && r'.inliers == (if rec.action == Like then DropLast(r.inliers, |rec.bundle.streamlines|) else r.inliers)
      && r'.outliers == (if rec.action == Dislike then DropLast(r.outliers, |rec.bundle.streamlines|) else r.outliers)
      && r'.bundles == r.bundles[rec.name := rec.bundle]
      && StrictlySorted(r'.keys)
      && (forall x :: x in r'.keys <==> x in r.keys || x == rec.name)
      && r'.selected == Some(rec.name)
      && r'.visibility == r.visibility && r'.capacity == r.capacity
  {
    if |r.undo| > 0 {
      var m := |r.undo| - 1;
      var rec := r.undo[m];
      var n := |rec.bundle.streamlines|;
      var r1 := r.(undo := r.undo[..m],
                   inliers := if rec.action == Like then DropLast(r.inliers, n) else r.inliers,
                   outliers := if rec.action == Dislike then DropLast(r.outliers, n) else r.outliers);
      assert RecordNames(r.undo)[m] == rec.name;
      AddBundleSpec(r1, rec.name, rec.bundle);
    }
  }

  /** undo keeps the invariant: the popped name moves from the memory back to the keys. */
  lemma UndoKeepsInv(r: Registry)
    requires Inv(r)
    ensures Inv(Undo(r))
  {
    UndoSpec(r);
    if |r.undo| > 0 {
      PopNames(r.undo);
      UndoneInv(r, Undo(r));
    }
  }

  lemma UndoneInv(r: Registry, r': Registry)
    requires Inv(r) && |r.undo| > 0
    requires var rec := r.undo[|r.undo| - 1];
      && r'.undo == r.undo[..|r.undo| - 1]
      && r'.bundles == r.bundles[rec.name := rec.bundle]
      && StrictlySorted(r'.keys)
      && (forall x :: x in r'.keys <==> x in r.keys || x == rec.name)
      && r'.visibility == r.visibility && r'.capacity == r.capacity
    requires Distinct(RecordNames(r'.undo))
    requires forall x :: x in RecordNames(r'.undo) <==> x in RecordNames(r.undo) && x != r.undo[|r.undo| - 1].name
    ensures Inv(r')
  {
    var m := |r.undo| - 1;
    assert RecordNames(r.undo)[m] == r.undo[m].name;
    assert NameSet(r') == NameSet(r);
    forall i | 0 <= i < |r'.undo| ensures r'.undo[i].name !in r'.bundles {
      assert r'.undo[i] == r.undo[i];
      assert RecordNames(r.undo)[i] != RecordNames(r.undo)[m];
    }
  }

  /** The records left after pushing one and popping it again: all of them, or
      all but the oldest when the push evicted one. */
  function PushPop(u: seq<UndoRecord>, cap: Option<nat>): seq<UndoRecord>
  {
    if cap.None? || |u| < cap.value || |u| == 0 then u else u[1..]
  }

  /** like (or dislike) followed by undo gives back the registry: same keys,
      same bundles, same selection, same inliers and outliers. Only the undo
      memory may have lost its oldest record to the push. */
  lemma JudgeThenUndo(r: Registry, action: Action)
    requires Inv(r) && r.selected.Some? && r.selected.value in r.bundles
    requires r.capacity != Some(0)
    requires |r.bundles[r.selected.value].streamlines| > 0
    ensures Judge(r, action).Ok?
    ensures Undo(Judge(r, action).value) == r.(undo := PushPop(r.undo, r.capacity))
  {
    JudgeSpec(r, action);
    JudgeKeepsInv(r, action);
    UndoAfterJudge(r, action, Judge(r, action).value);
  }

  lemma UndoAfterJudge(r: Registry, action: Action, r1: Registry)
    requires Inv(r) && r.selected.Some? && r.selected.value in r.bundles
    requires r.capacity != Some(0)
    requires |r.bundles[r.selected.value].streamlines| > 0
    requires Inv(r1)
    requires var name := r.selected.value;
      var b := r.bundles[name];
      && r1.undo == DequeAppend(r.undo, r.capacity, RecordOf(r, action))
      && r1.inliers == (if action == Like then r.inliers + b.streamlines else r.inliers)
      && r1.outliers == (if action == Dislike then r.outliers + b.streamlines else r.outliers)
      && r1.bundles == r.bundles - {name}
      && (forall x :: x in r1.keys <==> x in r.keys && x != name)
      && r1.visibility == r.visibility && r1.capacity == r.capacity
    ensures Undo(r1) == r.(undo := PushPop(r.undo, r.capacity))
  {
    assert r1.undo[|r1.undo| - 1] == RecordOf(r, action);
    UndoSpec(r1);
    Restored(r, action, r1, Undo(r1));
  }

  /** The fields undo gives back, one by one, without the invariant in sight. */
  lemma Restored(r: Registry, action: Action, r1: Registry, r2: Registry)
    requires StrictlySorted(r.keys) && (forall k :: k in r.keys <==> k in r.bundles)
    requires r.selected.Some? && r.selected.value in r.bundles
    requires r.capacity != Some(0) && (r.capacity.Some? ==> |r.undo| <= r.capacity.value)
    requires |r.bundles[r.selected.value].streamlines| > 0
    requires var name := r.selected.value;
      var b := r.bundles[name];
      && r1.undo == DequeAppend(r.undo, r.capacity, RecordOf(r, action))
      && r1.inliers == (if action == Like then r.inliers + b.streamlines else r.inliers)
      && r1.outliers == (if action == Dislike then r.outliers + b.streamlines else r.outliers)
      && r1.bundles == r.bundles - {name}
      && (forall x :: x in r1.keys <==> x in r.keys && x != name)
      && r1.visibility == r.visibility && r1.capacity == r.capacity
    requires |r1.undo| > 0 && r1.undo[|r1.undo| - 1] == RecordOf(r, action)
    requires var rec := r1.undo[|r1.undo| - 1];
      && r2.undo == r1.undo[..|r1.undo| - 1]
      && r2.inliers == (if rec.action == Like then DropLast(r1.inliers, |rec.bundle.streamlines|) else r1.inliers)
      && r2.outliers == (if rec.action == Dislike then DropLast(r1.outliers, |rec.bundle.streamlines|) else r1.outliers)
      && r2.bundles == r1.bundles[rec.name := rec.bundle]
      && StrictlySorted(r2.keys)
      && (forall x :: x in r2.keys <==> x in r1.keys || x == rec.name)
      && r2.selected == Some(rec.name)
      && r2.visibility == r1.visibility && r2.capacity == r1.capacity
    ensures r2 == r.(undo := PushPop(r.undo, r.capacity))
  {
    var b := r.bundles[r.selected.value];
    DropLastAppended(r.inliers, b.streamlines);
    DropLastAppended(r.outliers, b.streamlines);
    assert r2.bundles == r.bundles;
    StrictlySortedUnique(r2.keys, r.keys);
  }

  /** The `[:-0]` quirk: undoing the like of a bundle without streamlines
      empties the whole inliers collection instead of leaving it as it was. */
  lemma UndoLikeOfEmptyBundleLosesInliers(r: Registry)
    requires Inv(r) && r.selected.Some? && r.selected.value in r.bundles
    requires r.capacity != Some(0)
    requires |r.bundles[r.selected.value].streamlines| == 0
    ensures Judge(r, Like).Ok?
    ensures Undo(Judge(r, Like).value).inliers == []
  {
    JudgeSpec(r, Like);
    var r1 := Judge(r, Like).value;
    var rec := RecordOf(r, Like);
    assert r1.undo == DequeAppend(r.undo, r.capacity, rec);
    assert |r1.undo| > 0 && r1.undo[|r1.undo| - 1] == rec;
    assert |rec.bundle.streamlines| == 0;
    assert Undo(r1).inliers == DropLast(r1.inliers, 0);
  }
}

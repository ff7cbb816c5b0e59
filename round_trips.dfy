/** Sequences of curation actions: two judgements undone in reverse order,
    and the dangling selection left by judging the last bundle. */
module RoundTrips {
  import opened Wrappers
  import opened Sorting
  import opened Bundles
  import opened Curation
  import opened CurationLemmas
  import opened Selection

  /** With at least two bundles, a judgement leaves another bundle selected. */
  lemma JudgeMovesOn(r: Registry, action: Action)
    requires Inv(r) && r.selected.Some? && r.selected.value in r.bundles
    requires |r.keys| >= 2
    ensures Judge(r, action).Ok?
    ensures var r' := Judge(r, action).value;
      r'.selected.Some? && r'.selected.value in r'.bundles
  {
    JudgeSpec(r, action);
    var m := Memorize(r, action);
    StepMoves(m, 1);
    StepSelects(m, 1);
  }

  /** With room for both records in the undo memory, judging two bundles
      (the selected one, then the one select_next moved to) and undoing
      twice restores the registry exactly, the second bundle coming back
      first. */
  lemma TwoJudgementsTwoUndos(r: Registry, first: Action, second: Action)
    requires Inv(r) && r.selected.Some? && r.selected.value in r.bundles
    requires |r.keys| >= 2
    requires r.capacity.None? || |r.undo| + 2 <= r.capacity.value
    requires forall k :: k in r.bundles ==> |r.bundles[k].streamlines| > 0
    ensures Judge(r, first).Ok?
    ensures var r1 := Judge(r, first).value;
      && r1.selected.Some? && r1.selected.value in r1.bundles
      && Judge(r1, second).Ok?
      && Undo(Judge(r1, second).value) == r1
      && Undo(Undo(Judge(r1, second).value)) == r
  {
    JudgeMovesOn(r, first);
    JudgeKeepsInv(r, first);
    var r1 := Judge(r, first).value;
    JudgeThenUndo(r, first);
    JudgeSpec(r, first);
    assert |r1.undo| == |r.undo| + 1;
    assert forall k :: k in r1.bundles ==> |r1.bundles[k].streamlines| > 0;
    SecondJudgementUndone(r, r1, second);
  }

  lemma SecondJudgementUndone(r: Registry, r1: Registry, second: Action)
    requires Inv(r1) && r1.selected.Some? && r1.selected.value in r1.bundles
    requires r1.capacity == r.capacity && |r1.undo| == |r.undo| + 1
    requires r.capacity.None? || |r.undo| + 2 <= r.capacity.value
    requires forall k :: k in r1.bundles ==> |r1.bundles[k].streamlines| > 0
    requires Undo(r1) == r.(undo := PushPop(r.undo, r.capacity))
    ensures Judge(r1, second).Ok?
    ensures Undo(Judge(r1, second).value) == r1
    ensures Undo(Undo(Judge(r1, second).value)) == r
  {
    JudgeThenUndo(r1, second);
    assert PushPop(r1.undo, r1.capacity) == r1.undo;
    assert PushPop(r.undo, r.capacity) == r.undo;
  }

  /** Judging the only bundle: select_next reselects it, then it is removed,
      so the selection is left naming a bundle that no longer exists; a
      further like/dislike raises KeyError and select_next raises ValueError. */
  lemma JudgeOnlyBundleDangles(r: Registry, action: Action)
    requires Inv(r) && r.selected.Some? && r.keys == [r.selected.value]
    ensures Judge(r, action).Ok?
    ensures var r' := Judge(r, action).value;
      && r'.selected == r.selected
      && r'.keys == [] && r'.bundles == map[]
      && Judge(r', action) == Err(KeyError)
      && Step(r', 1) == Err(ValueError)
  {
    JudgeSpec(r, action);
    var m := Memorize(r, action);
    StepWithOneKeyStays(m, 1);
  }
}

/** The stepping order of `select_next` / `select_previous`: its error cases,
    the first pick, the next/previous round trip and the cycle through every key. */
module Selection {
  import opened Wrappers
  import opened PySeq
  import opened Sorting
  import opened Bundles
  import opened Curation
  import opened Modulo

  /** Position and At are inverse: the order lists every key exactly once. */
  lemma PositionAt(keys: seq<string>, bundles: map<string, Bundle>, p: nat)
    requires StrictlySorted(keys) && p < |keys|
    ensures Position(keys, bundles, At(keys, bundles, p)) == p
  {
    StrictlySortedDistinct(keys);
    OrderIsPermutation(keys, Sizes(keys, bundles));
    var order := Order(keys, Sizes(keys, bundles));
    IndexOfDistinct(keys, order[p]);
    IndexOfDistinct(order, p);
  }

  lemma AtPosition(keys: seq<string>, bundles: map<string, Bundle>, name: string)
    requires StrictlySorted(keys) && name in keys
    ensures At(keys, bundles, Position(keys, bundles, name)) == name
  {
    StrictlySortedDistinct(keys);
    OrderIndices(keys, Sizes(keys, bundles));
  }

  /** Stepping fails with IndexError when nothing is selected and there are no
      keys, with ValueError when the selection is not a key, and otherwise
      selects a key and changes nothing else. */
  lemma StepSpec(r: Registry, step: int)
    requires StrictlySorted(r.keys)
    ensures Step(r, step).Err? <==>
      (r.selected.None? && |r.keys| == 0) || (r.selected.Some? && r.selected.value !in r.keys)
    ensures Step(r, step).Err? ==>
      Step(r, step).error == (if r.selected.None? then IndexError else ValueError)
    ensures Step(r, step).Ok? ==>
      var r' := Step(r, step).value;
      r'.selected.Some? && r'.selected.value in r.keys && r' == r.(selected := r'.selected)
  {
  }

  /** With no selection both directions pick a largest bundle. */
  lemma StepFromNoneIsLargest(r: Registry, step: int)
    requires StrictlySorted(r.keys) && r.selected.None? && |r.keys| > 0
    ensures Step(r, step).Ok?
    ensures var t := Step(r, step).value.selected.value;
      t in r.keys && forall i :: 0 <= i < |r.keys| ==> Sizes(r.keys, r.bundles)[IndexOf(r.keys, t)] >= Sizes(r.keys, r.bundles)[i]
  {
    StrictlySortedDistinct(r.keys);
    OrderStartsWithLargest(r.keys, Sizes(r.keys, r.bundles));
    var p := Order(r.keys, Sizes(r.keys, r.bundles))[0];
    assert Step(r, step).value.selected.value == r.keys[p];
    IndexOfDistinct(r.keys, p);
  }

  /** One step moves the selection `step` places along the order, modulo the number of keys. */
  lemma StepPosition(r: Registry, step: int)
    requires StrictlySorted(r.keys) && r.selected.Some? && r.selected.value in r.keys
    ensures Step(r, step).Ok?
    ensures var t := Step(r, step).value.selected;
      && Step(r, step).value == r.(selected := t)
      && t.Some? && t.value in r.keys
      && Position(r.keys, r.bundles, t.value) == (Position(r.keys, r.bundles, r.selected.value) + step) % |r.keys|
  {
    StepSelects(r, step);
    PositionAt(r.keys, r.bundles, (Position(r.keys, r.bundles, r.selected.value) + step) % |r.keys|);
  }

  /** select_next then select_previous, with the bundles unchanged, restores the selection. */
  lemma NextThenPrevious(r: Registry)
    requires StrictlySorted(r.keys) && r.selected.Some? && r.selected.value in r.keys
    ensures Step(r, 1).Ok? && Step(Step(r, 1).value, -1) == Ok(r)
  {
    StepPosition(r, 1);
    var r1 := Step(r, 1).value;
    StepPosition(r1, -1);
    var r2 := Step(r1, -1).value;
    ModBack(Position(r.keys, r.bundles, r.selected.value), |r.keys|);
    AtPosition(r.keys, r.bundles, r2.selected.value);
    AtPosition(r.keys, r.bundles, r.selected.value);
  }

  /** select_previous then select_next restores the selection too. */
  lemma PreviousThenNext(r: Registry)
    requires StrictlySorted(r.keys) && r.selected.Some? && r.selected.value in r.keys
    ensures Step(r, -1).Ok? && Step(Step(r, -1).value, 1) == Ok(r)
  {
    StepPosition(r, -1);
    var r1 := Step(r, -1).value;
    StepPosition(r1, 1);
    var r2 := Step(r1, 1).value;
    ModBack(Position(r.keys, r.bundles, r.selected.value), |r.keys|);
    AtPosition(r.keys, r.bundles, r2.selected.value);
    AtPosition(r.keys, r.bundles, r.selected.value);
  }

  /** `m` presses of select_next. */
  function Advance(r: Registry, m: nat): (r': Registry)
    requires StrictlySorted(r.keys) && r.selected.Some? && r.selected.value in r.keys
    ensures r' == r.(selected := r'.selected) && r'.selected.Some? && r'.selected.value in r.keys
    decreases m
  {
    if m == 0 then r
    else
      StepSelects(r, 1);
      Advance(Step(r, 1).value, m - 1)
  }

  /** select_next moves one place along the order, from the last place back to the first. */
  lemma StepNext(r: Registry)
    requires StrictlySorted(r.keys) && r.selected.Some? && r.selected.value in r.keys
    ensures Step(r, 1).Ok?
    ensures var t := Step(r, 1).value.selected;
      var x := Position(r.keys, r.bundles, r.selected.value);
      && Step(r, 1).value == r.(selected := t)
      && t.Some? && t.value in r.keys
      && Position(r.keys, r.bundles, t.value) == if x + 1 == |r.keys| then 0 else x + 1
  {
    StepPosition(r, 1);
    ModNear(Position(r.keys, r.bundles, r.selected.value) + 1, |r.keys|);
  }

  /** `x` moved `m` places round a cycle of `n`, for `m` no more than `n`. */
  function Around(x: nat, m: nat, n: nat): nat
  {
    if x + m < n then x + m else x + m - n
  }

  /** One place then `m - 1` more is `m` places. */
  lemma AroundOnce(x: nat, m: nat, n: nat)
    requires x < n && 0 < m <= n
    ensures Around(Around(x, 1, n), m - 1, n) == Around(x, m, n)
  {
  }

  /** `m` presses of select_next, no more than there are keys, select the
      key `m` places round the order (`keys` and `bundles` are the registry's,
      which pressing leaves alone). */
  lemma {:induction false} AdvanceAt(keys: seq<string>, bundles: map<string, Bundle>, r: Registry, m: nat)
    requires r.keys == keys && r.bundles == bundles
    requires StrictlySorted(keys) && r.selected.Some? && r.selected.value in keys
    requires m <= |keys|
    ensures Around(Position(keys, bundles, r.selected.value), m, |keys|) < |keys|
    ensures Advance(r, m).selected == Some(At(keys, bundles, Around(Position(keys, bundles, r.selected.value), m, |keys|)))
    decreases m
  {
    var x := Position(keys, bundles, r.selected.value);
    if m == 0 {
      AtPosition(keys, bundles, r.selected.value);
    } else {
      var r1 := AdvanceFirst(keys, bundles, r, m);
      AdvanceAt(keys, bundles, r1, m - 1);
      AroundOnce(x, m, |keys|);
    }
  }

  /** The first of `m` presses: where it leaves the selection, and the presses still to come. */
  lemma AdvanceFirst(keys: seq<string>, bundles: map<string, Bundle>, r: Registry, m: nat) returns (r1: Registry)
    requires r.keys == keys && r.bundles == bundles
    requires StrictlySorted(keys) && r.selected.Some? && r.selected.value in keys && m > 0
    ensures r1.keys == keys && r1.bundles == bundles
    ensures r1.selected.Some? && r1.selected.value in keys
    ensures Position(keys, bundles, r1.selected.value) == Around(Position(keys, bundles, r.selected.value), 1, |keys|)
    ensures Advance(r, m) == Advance(r1, m - 1)
  {
    StepNext(r);
    r1 := Step(r, 1).value;
  }

  /** Pressing select_next once per key comes back to the starting selection. */
  lemma NextCycles(r: Registry)
    requires StrictlySorted(r.keys) && r.selected.Some? && r.selected.value in r.keys
    ensures Advance(r, |r.keys|) == r
  {
    AdvanceAt(r.keys, r.bundles, r, |r.keys|);
    AtPosition(r.keys, r.bundles, r.selected.value);
  }

  /** With at least two keys a step really moves: next never reselects the current bundle. */
  lemma StepMoves(r: Registry, step: int)
    requires StrictlySorted(r.keys) && r.selected.Some? && r.selected.value in r.keys
    requires |r.keys| >= 2 && (step == 1 || step == -1)
    ensures Step(r, step).Ok? && Step(r, step).value.selected != r.selected
  {
    StepPosition(r, step);
    ModMoves(Position(r.keys, r.bundles, r.selected.value), step, |r.keys|);
  }

  /** With a single key, next reselects it. */
  lemma StepWithOneKeyStays(r: Registry, step: int)
    requires StrictlySorted(r.keys) && r.selected.Some? && r.keys == [r.selected.value]
    ensures Step(r, step) == Ok(r)
  {
    StepSelects(r, step);
  }
}

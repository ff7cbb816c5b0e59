/** The curation registry of the streamlines viewer, as values: the named
    bundles, the sorted key list, the selection, the liked (inliers) and
    disliked (outliers) streamlines, the bounded undo memory and the last
    dimmed/hidden state. Each function gives the registry after one user
    action; the viewer class in module Vizu is proved to follow them. */
module Curation {
  import opened Wrappers
  import opened Strings
  import opened PySeq
  import opened Sorting
  import opened Bundles

  datatype Action = Like | Dislike

  /** What `like_bundle` / `dislike_bundle` memorize for `undo`. */
  datatype UndoRecord = UndoRecord(action: Action, name: string, bundle: Bundle)

  /** The name of the bundle holding every streamline at start and after a reset. */
  const Root: string := "/"

  datatype Registry = Registry(
    bundles: map<string, Bundle>,
    keys: seq<string>,
    selected: Option<string>,
    inliers: seq<Streamline>,
    outliers: seq<Streamline>,
    /** Oldest record first. */
    undo: seq<UndoRecord>,
    /** `last_bundles_visibility_state`. */
    visibility: string,
    /** `maxlen` of the undo deque; None is unbounded. */
    capacity: Option<nat>)

  /** The registry right after start-up. */
  function Initial(root: Bundle, capacity: Option<nat>): (r: Registry)
    ensures Inv(r)
  {
    var r := Registry(map[Root := root], [Root], None, [], [], [], "dimmed", capacity);
    assert NameSet(r) == {Root};
    r
  }

  // ---------------------------------------------------------------- names

  /** Bundle names always end with a slash: "/", "/0/", "/0/12/", ... */
  predicate WellFormedName(s: string)
  {
    |s| > 0 && s[|s| - 1] == '/'
  }

  /** `str(i)` appended to the parent's name, then a slash. */
  function ChildName(parent: string, i: nat): (c: string)
    ensures parent <= c && WellFormedName(c)
    ensures |c| == |parent| + |DecimalString(i)| + 1
  {
    parent + DecimalString(i) + "/"
  }

  /** No name in the set is a prefix of another. */
  ghost predicate PrefixFree(names: set<string>)
  {
    forall a, b :: a in names && b in names && a != b ==> !(a <= b)
  }

  function RecordNames(u: seq<UndoRecord>): (r: seq<string>)
    ensures |r| == |u| && forall i :: 0 <= i < |u| ==> r[i] == u[i].name
  {
    seq(|u|, i requires 0 <= i < |u| => u[i].name)
  }

  /** Every name in use: the registered keys and the names waiting in the undo memory. */
  function NameSet(r: Registry): (s: set<string>)
    ensures forall x :: x in s <==> x in r.keys || x in RecordNames(r.undo)
  {
    (set k | k in r.keys) + (set k | k in RecordNames(r.undo))
  }

  /** What every action below preserves. */
  ghost predicate Inv(r: Registry)
  {
    && StrictlySorted(r.keys)
    && (forall k :: k in r.keys <==> k in r.bundles)
    && Distinct(RecordNames(r.undo))
    && (forall i :: 0 <= i < |r.undo| ==> r.undo[i].name !in r.bundles)
    && PrefixFree(NameSet(r))
    && (forall x :: x in NameSet(r) ==> WellFormedName(x))
    && (r.visibility == "dimmed" || r.visibility == "hidden")
    && (r.capacity.Some? ==> |r.undo| <= r.capacity.value)
  }

  // ---------------------------------------------------------------- add / remove

  /** `add_bundle`: append the name, re-sort, register the bundle. */
  function AddBundle(r: Registry, name: string, b: Bundle): Registry
  {
    r.(keys := SortStrings(r.keys + [name]), bundles := r.bundles[name := b])
  }

  /** `remove_bundle`: `keys.remove(name)` (ValueError when absent), re-sort, unregister. */
  function RemoveBundle(r: Registry, name: string): (res: Result<Registry>)
    ensures res.Ok? <==> name in r.keys
    ensures res.Ok? && StrictlySorted(r.keys) ==>
      && StrictlySorted(res.value.keys)
      && (forall x :: x in res.value.keys <==> x in r.keys && x != name)
  {
    if name !in r.keys then Err(ValueError)
    else
      RemoveKeepsSorted(r.keys, name);
      Ok(r.(keys := SortStrings(RemoveFirst(r.keys, name)), bundles := r.bundles - {name}))
  }

  lemma AddBundleSpec(r: Registry, name: string, b: Bundle)
    requires StrictlySorted(r.keys) && (forall k :: k in r.keys <==> k in r.bundles) && name !in r.keys
    ensures var r' := AddBundle(r, name, b);
      && StrictlySorted(r'.keys)
      && (forall x :: x in r'.keys <==> x in r.keys || x == name)
      && (forall x :: x in r'.keys <==> x in r'.bundles)
      && r'.bundles == r.bundles[name := b]
  {
    SortedInsert(r.keys, name);
  }

  lemma RemoveBundleSpec(r: Registry, name: string)
    requires StrictlySorted(r.keys) && (forall k :: k in r.keys <==> k in r.bundles)
    ensures RemoveBundle(r, name).Ok? <==> name in r.bundles
    ensures name in r.bundles ==>
      var r' := RemoveBundle(r, name).value;
      && StrictlySorted(r'.keys)
      && (forall x :: x in r'.keys <==> x in r.keys && x != name)
      && (forall x :: x in r'.keys <==> x in r'.bundles)
      && (forall x :: x in r'.bundles ==> r'.bundles[x] == r.bundles[x])
      && r' == r.(keys := r'.keys, bundles := r'.bundles)
  {
    if name in r.keys {
      SortedRemove(r.keys, name);
    }
  }

  // ---------------------------------------------------------------- selection order

  /** Streamline counts, position by position along `keys`. */
  function Sizes(keys: seq<string>, bundles: map<string, Bundle>): (s: seq<nat>)
    ensures |s| == |keys|
  {
    seq(|keys|, i requires 0 <= i < |keys| =>
      if keys[i] in bundles then |bundles[keys[i]].streamlines| else 0)
  }

  /** Where the key `name` sits in the stepping order:
      `indices.index(keys.index(name))`. */
  function Position(keys: seq<string>, bundles: map<string, Bundle>, name: string): (p: nat)
    requires StrictlySorted(keys) && name in keys
    ensures p < |keys|
  {
    StrictlySortedDistinct(keys);
    OrderIndices(keys, Sizes(keys, bundles));
    var i := IndexOf(keys, name);
    assert i in Order(keys, Sizes(keys, bundles));
    IndexOf(Order(keys, Sizes(keys, bundles)), i)
  }

  /** The key at position `p` of the stepping order: `keys[indices[p]]`. */
  function At(keys: seq<string>, bundles: map<string, Bundle>, p: nat): (k: string)
    requires StrictlySorted(keys) && p < |keys|
    ensures k in keys
  {
    StrictlySortedDistinct(keys);
    OrderIndices(keys, Sizes(keys, bundles));
    keys[Order(keys, Sizes(keys, bundles))[p]]
  }

  /** The name `select_next` (step 1) or `select_previous` (step -1) selects.
      With no selection it is the first in the order (IndexError when there
      are no bundles); a selection missing from `keys` raises ValueError. */
  function StepTarget(r: Registry, step: int): (t: Result<string>)
    requires StrictlySorted(r.keys)
    ensures t.Ok? ==> t.value in r.keys
  {
    if r.selected.None? then
      if |r.keys| == 0 then Err(IndexError) else Ok(At(r.keys, r.bundles, 0))
    else if r.selected.value !in r.keys then Err(ValueError)
    else Ok(At(r.keys, r.bundles, (Position(r.keys, r.bundles, r.selected.value) + step) % |r.keys|))
  }

  /** `select_next` / `select_previous`: select the target, nothing else in the registry changes. */
  function Step(r: Registry, step: int): Result<Registry>
    requires StrictlySorted(r.keys)
  {
    var t := StepTarget(r, step);
    if t.Err? then Err(t.error) else Ok(r.(selected := Some(t.value)))
  }

  /** With a selection that is a key, stepping succeeds and changes only the selection. */
  lemma StepSelects(r: Registry, step: int)
    requires StrictlySorted(r.keys)
    requires r.selected.Some? && r.selected.value in r.keys
    ensures StepTarget(r, step).Ok?
    ensures Step(r, step) == Ok(r.(selected := Some(StepTarget(r, step).value)))
  {
  }

  // ---------------------------------------------------------------- undo memory

  /** `deque.append` on a deque with `maxlen = cap`: the oldest records fall off the front. */
  function DequeAppend<T>(d: seq<T>, cap: Option<nat>, x: T): (r: seq<T>)
    ensures cap.Some? ==> |r| <= cap.value
    ensures cap.None? || |d| < cap.value ==> r == d + [x]
    ensures cap.Some? && cap.value > 0 && |d| <= cap.value ==>
      |r| > 0 && r[|r| - 1] == x && r[..|r| - 1] == (if |d| < cap.value then d else d[1..])
    ensures forall y :: y in r ==> y in d || y == x
  {
    var e := d + [x];
    if cap.Some? && |e| > cap.value then
      var k := |e| - cap.value;
      var r := e[k..];
      assert forall y :: y in r ==> y in e by {
        forall y | y in r ensures y in e {
          var i :| 0 <= i < |r| && r[i] == y;
          assert e[k + i] == y;
        }
      }
      assert cap.value > 0 && |d| <= cap.value ==> k == 1 && r[|r| - 1] == x && r[..|r| - 1] == d[1..];
      r
    else e
  }

  /** Appending several records one at a time. */
  function DequeAppendAll<T>(d: seq<T>, cap: Option<nat>, xs: seq<T>): seq<T>
    decreases |xs|
  {
    if |xs| == 0 then d else DequeAppendAll(DequeAppend(d, cap, xs[0]), cap, xs[1..])
  }

  /** The last `cap` items of `h` (all of them when there are fewer). */
  function Newest<T>(h: seq<T>, cap: nat): seq<T>
  {
    if |h| <= cap then h else h[|h| - cap..]
  }

  lemma NewestOfNewest<T>(h: seq<T>, ys: seq<T>, cap: nat)
    ensures Newest(Newest(h, cap) + ys, cap) == Newest(h + ys, cap)
  {
    if |h| > cap {
      var t := h[|h| - cap..];
      assert |t + ys| >= cap && |h + ys| > cap;
      assert (t + ys)[|t + ys| - cap..] == (h + ys)[|h + ys| - cap..];
    }
  }

  /** A bounded deque keeps the most recent `cap` records: whatever was pushed,
      it holds exactly the newest `cap` of the whole history. */
  lemma {:induction false} DequeKeepsNewest<T>(d: seq<T>, cap: nat, xs: seq<T>)
    requires |d| <= cap
    ensures DequeAppendAll(d, Some(cap), xs) == Newest(d + xs, cap)
    decreases |xs|
  {
    if |xs| > 0 {
      var d' := DequeAppend(d, Some(cap), xs[0]);
      assert d' == Newest(d + [xs[0]], cap);
      DequeKeepsNewest(d', cap, xs[1..]);
      NewestOfNewest(d + [xs[0]], xs[1..], cap);
      assert d + [xs[0]] + xs[1..] == d + xs;
    } else {
      assert d + xs == d;
    }
  }

  // ---------------------------------------------------------------- like / dislike / undo

  /** The record a judgement of the current selection pushes. */
  function RecordOf(r: Registry, action: Action): UndoRecord
    requires r.selected.Some? && r.selected.value in r.bundles
  {
    UndoRecord(action, r.selected.value, r.bundles[r.selected.value])
  }

  /** The first half of `like_bundle` / `dislike_bundle`: push the record and
      move the selected bundle's streamlines to inliers (like) or outliers (dislike). */
  function Memorize(r: Registry, action: Action): Registry
    requires r.selected.Some? && r.selected.value in r.bundles
  {
    var b := r.bundles[r.selected.value];
    r.(undo := DequeAppend(r.undo, r.capacity, RecordOf(r, action)),
       inliers := if action == Like then r.inliers + b.streamlines else r.inliers,
       outliers := if action == Dislike then r.outliers + b.streamlines else r.outliers)
  }

  /** `like_bundle` / `dislike_bundle`: memorize, select the next bundle, then
      remove the judged one. KeyError when the selection names no bundle. */
  function Judge(r: Registry, action: Action): (res: Result<Registry>)
    requires StrictlySorted(r.keys)
    ensures res.Ok? ==> StrictlySorted(res.value.keys)
  {
    if r.selected.None? || r.selected.value !in r.bundles then Err(KeyError)
    else
      var r2 := Step(Memorize(r, action), 1);
      if r2.Err? then r2 else RemoveBundle(r2.value, r.selected.value)
  }

  /** `undo`: pop the newest record (nothing changes when the memory is empty),
      truncate the collection it extended by `[:-len(bundle.streamlines)]`,
      re-add the bundle under its name and select it. */
  function Undo(r: Registry): Registry
  {
    if |r.undo| == 0 then r
    else
      var rec := r.undo[|r.undo| - 1];
      var n := |rec.bundle.streamlines|;
      var r1 := r.(undo := r.undo[..|r.undo| - 1],
                   inliers := if rec.action == Like then DropLast(r.inliers, n) else r.inliers,
                   outliers := if rec.action == Dislike then DropLast(r.outliers, n) else r.outliers);
      AddBundle(r1, rec.name, rec.bundle).(selected := Some(rec.name))
  }

  // ---------------------------------------------------------------- apply / reset / save

  /** Register the first `m` children of `parent` as `parent + str(i) + "/"`. */
  function AddChildren(r: Registry, parent: string, children: seq<Bundle>, m: nat): Registry
    requires m <= |children|
  {
    if m == 0 then r
    else AddBundle(AddChildren(r, parent, children, m - 1), ChildName(parent, m - 1), children[m - 1])
  }

  /** The apply button: register the selected bundle's clusters as children,
      remove the parent, clear the selection. */
  function Apply(r: Registry, children: seq<Bundle>): Result<Registry>
  {
    if r.selected.None? || r.selected.value !in r.bundles then Err(KeyError)
    else
      var p := r.selected.value;
      var r1 := RemoveBundle(AddChildren(r, p, children, |children|), p);
      if r1.Err? then r1 else Ok(r1.value.(selected := None))
  }

  /** Every remaining streamline, bundle after bundle along `keys`. */
  function Merged(keys: seq<string>, bundles: map<string, Bundle>): seq<Streamline>
  {
    if |keys| == 0 then []
    else (if keys[0] in bundles then bundles[keys[0]].streamlines else []) + Merged(keys[1..], bundles)
  }

  /** The reset (home) button: clear the undo memory, remove every bundle, and
      unless nothing is left register `root` (holding Merged) as "/" and clear
      the selection. With nothing left the selection is kept. */
  function Reset(r: Registry, root: Bundle): Registry
  {
    if |Merged(r.keys, r.bundles)| == 0 then r.(keys := [], bundles := map[], undo := [])
    else r.(keys := [Root], bundles := map[Root := root], undo := [], selected := None)
  }

  /** A file written by the save button: its name and its streamlines. */
  datatype SavedFile = SavedFile(filename: string, streamlines: seq<Streamline>)

  function BundleFiles(prefix: string, keys: seq<string>, bundles: map<string, Bundle>, from: nat): seq<SavedFile>
    decreases |keys|
  {
    if |keys| == 0 then []
    else
      [SavedFile(prefix + "_bundle_" + DecimalString(from) + ".tck",
                 if keys[0] in bundles then bundles[keys[0]].streamlines else [])]
      + BundleFiles(prefix, keys[1..], bundles, from + 1)
  }

  /** The save button: one file per bundle in key order, then inliers and
      outliers when not empty; the undo memory is cleared. */
  function Save(r: Registry, prefix: string): (Registry, seq<SavedFile>)
  {
    var files := BundleFiles(prefix, r.keys, r.bundles, 0)
      + (if |r.inliers| > 0 then [SavedFile(prefix + "_inliers.tck", r.inliers)] else [])
      + (if |r.outliers| > 0 then [SavedFile(prefix + "_outliers.tck", r.outliers)] else []);
    (r.(undo := []), files)
  }

  // ---------------------------------------------------------------- visibility

  /** `_set_bundles_visibility`'s effect on the registry: "dimmed" and "hidden"
      are remembered, "visible" is not, anything else raises ValueError. */
  function SetVisibility(r: Registry, state: string): Result<Registry>
  {
    if state == "visible" then Ok(r)
    else if state == "dimmed" || state == "hidden" then Ok(r.(visibility := state))
    else Err(ValueError)
  }

  /** The dim/hide toggle: dimmed becomes hidden and hidden becomes dimmed. */
  function Toggle(r: Registry): Registry
  {
    if r.visibility == "dimmed" then r.(visibility := "hidden")
    else if r.visibility == "hidden" then r.(visibility := "dimmed")
    else r
  }
}

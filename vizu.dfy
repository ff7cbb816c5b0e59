/** The streamlines viewer itself: the registry fields updated in place by
    the buttons and keys, each action proved to follow the registry function
    of module Curation, and its effect on the bundles' clusters and actors. */
module Vizu {
  import opened Wrappers
  import opened Strings
  import opened PySeq
  import opened Sorting
  import opened Bundles
  import opened Curation
  import opened CurationLemmas
  import opened Split
  import opened Housekeeping

  /** The loop of `_set_bundles_visibility`: every bundle of `all` that is
      not excluded gets the actor visibility `visibility`. */
  method ShowOrHide(all: set<Bundle>, exclude: set<Bundle>, visibility: bool, ghost objects: set<Bundle>)
    requires forall b :: b in objects ==> b.Valid()
    modifies all`actorVisible
    ensures forall b :: b in objects ==> b.Valid()
    ensures forall b :: b in all ==>
      b.actorVisible == if b in exclude then old(b.actorVisible) else visibility
  {
    var todo := all;
    while todo != {}
      invariant todo <= all
      invariant forall b :: b in all - todo ==>
        b.actorVisible == if b in exclude then old(b.actorVisible) else visibility
      invariant forall b :: b in todo ==> b.actorVisible == old(b.actorVisible)
      invariant forall b :: b in objects ==> b.Valid()
      decreases todo
    {
      var b :| b in todo;
      if b !in exclude {
        b.actorVisible := visibility;
      }
      todo := todo - {b};
    }
  }

  /** Every bundle of the set is in a consistent state. */
  ghost predicate AllValid(s: set<Bundle>)
    reads s`lastThreshold, s`clusters, s`clustersColors, s`streamlinesColors,
          s`pointColors, s`hasChanged, s`centroidActors, s`centroidsVisible
  {
    forall b {:trigger b.Valid()} :: b in s ==> b.Valid()
  }

  /** A set of bundles none of whose fields changed stays valid. */
  twostate lemma StillValid(s: set<Bundle>)
    requires old(AllValid(s)) && unchanged(s)
    ensures AllValid(s)
  {
  }

  /** Unregistering a name holds no bundle that was not held. */
  lemma ValuesWithout(m: map<string, Bundle>, k: string, held: set<Bundle>)
    requires m.Values <= held
    ensures (m - {k}).Values <= held
  {
    forall b | b in (m - {k}).Values ensures b in held {
      var x :| x in m - {k} && (m - {k})[x] == b;
      assert m[x] in m.Values;
    }
  }

  /** Registering a held bundle holds no bundle that was not held. */
  lemma ValuesWith(m: map<string, Bundle>, k: string, b: Bundle, held: set<Bundle>)
    requires m.Values <= held && b in held
    ensures m[k := b].Values <= held
  {
    forall o | o in m[k := b].Values ensures o in held {
      var x :| x in m[k := b] && m[k := b][x] == o;
      if x != k {
        assert m[x] in m.Values;
      }
    }
  }

  /** What the like/dislike/undo key handler does to the registry. */
  function KeyEffect(r: Registry, key: string): (res: Result<Registry>)
    requires Inv(r)
  {
    if key == "u" then Ok(Undo(r))
    else if r.selected.None? then Ok(r)
    else if key == "r" then Judge(r, Dislike)
    else if key == "a" then Judge(r, Like)
    else Ok(r)
  }

  /** The key handler raises only KeyError, only for "r" or "a" with a
      selection naming no bundle, and keeps the registry invariant. */
  lemma KeyEffectSpec(r: Registry, key: string)
    requires Inv(r)
    ensures KeyEffect(r, key).Err? <==>
      (key == "r" || key == "a") && r.selected.Some? && r.selected.value !in r.bundles
    ensures KeyEffect(r, key).Err? ==> KeyEffect(r, key).error == KeyError
    ensures KeyEffect(r, key).Ok? ==> Inv(KeyEffect(r, key).value)
  {
    if key == "u" {
      UndoKeepsInv(r);
    } else if r.selected.Some? && r.selected.value in r.bundles && (key == "r" || key == "a") {
      JudgeKeepsInv(r, if key == "r" then Dislike else Like);
    }
  }

  class StreamlinesVizu {
    const env: Env
    /** `maxlen` of the undo deque. */
    const capacity: Option<nat>

    var bundles: map<string, Bundle>
    var keys: seq<string>
    var selected: Option<string>
    var inliers: seq<Streamline>
    var outliers: seq<Streamline>
    /** Oldest record first. */
    var undoMemory: seq<UndoRecord>
    var lastVisibility: string
    /** The threshold of the last slider preview (`last_threshold`). */
    var lastThreshold: Option<real>
    /** Every bundle the viewer has held, registered or in the undo memory. */
    ghost var held: set<Bundle>

    /** The registry the fields hold. */
    function State(): Registry
      reads this`bundles, this`keys, this`selected, this`inliers, this`outliers,
            this`undoMemory, this`lastVisibility
    {
      Registry(bundles, keys, selected, inliers, outliers, undoMemory, lastVisibility, capacity)
    }

    /** What `select` and the visibility setter rely on. */
    ghost predicate Sound()
      reads this`keys, this`bundles, this`lastVisibility, this`undoMemory, this`held
      reads held`lastThreshold, held`clusters, held`clustersColors, held`streamlinesColors,
            held`pointColors, held`hasChanged, held`centroidActors, held`centroidsVisible
    {
      && env.Valid()
      && StrictlySorted(keys)
      && (forall k :: k in keys <==> k in bundles)
      && (lastVisibility == "dimmed" || lastVisibility == "hidden")
      && bundles.Values <= held
      && (forall i :: 0 <= i < |undoMemory| ==> undoMemory[i].bundle in held)
      && AllValid(held)
    }

    /** Sound, and the registry invariant of module Curation holds. */
    ghost predicate Valid()
      reads this, held
    {
      Sound() && Inv(State())
    }

    /** `__init__`: the whole tractogram as the root bundle "/", nothing
        selected, nothing judged, an empty undo memory, "dimmed". */
    constructor (env: Env, streamlines: seq<Streamline>, capacity: Option<nat>)
      requires env.Valid()
      ensures Valid()
      ensures Root in bundles && fresh(bundles[Root]) && bundles[Root].streamlines == streamlines
      ensures State() == Initial(bundles[Root], capacity)
      ensures lastThreshold.None?
    {
      var root := new Bundle(env, streamlines, None, Infinite, None);
      this.env := env;
      this.capacity := capacity;
      bundles := map[Root := root];
      keys := [Root];
      selected := None;
      inliers := [];
      outliers := [];
      undoMemory := [];
      lastVisibility := "dimmed";
      lastThreshold := None;
      held := {root};
      new;
      assert bundles.Keys == {Root} && bundles[Root] == root;
      assert bundles.Values == {root};
    }

    // ---------------------------------------------------------------- add / remove

    /** `add_bundle`. */
    method AddBundle(name: string, b: Bundle)
      modifies this`keys, this`bundles
      ensures State() == Curation.AddBundle(old(State()), name, b)
      ensures old(Sound()) && name !in old(keys) && b in held ==> Sound()
    {
      if Sound() && name !in keys && b in held {
        SortedInsert(keys, name);
        ValuesWith(bundles, name, b, held);
      }
      keys := keys + [name];
      keys := SortStrings(keys);
      bundles := bundles[name := b];
    }

    /** `remove_bundle`: ValueError, and no change, when the name is not a key. */
    method RemoveBundle(name: string) returns (out: Outcome)
      requires Sound()
      modifies this`keys, this`bundles
      ensures Sound()
      ensures out == OutcomeOf(Curation.RemoveBundle(old(State()), name))
      ensures State() == if out.Success? then Curation.RemoveBundle(old(State()), name).value else old(State())
    {
      if name !in keys {
        return Failure(ValueError);
      }
      var next := Curation.RemoveBundle(State(), name).value;
      ValuesWithout(bundles, name, held);
      keys, bundles := next.keys, next.bundles;
      out := Success;
      StillValid(held);
    }

    // ---------------------------------------------------------------- visibility

    /** The bundles a visibility call walks over: the given ones, or every registered one. */
    function Chosen(targets: Option<set<Bundle>>): set<Bundle>
      reads this
    {
      if targets.Some? then targets.value else bundles.Values
    }

    /** `_set_bundles_visibility`: ValueError on an unknown state; otherwise
        remember "dimmed"/"hidden" and show ("visible", "dimmed") or hide
        ("hidden") every chosen bundle that is not excluded. */
    method SetBundlesVisibility(state: string, targets: Option<set<Bundle>>, exclude: set<Bundle>)
      returns (out: Outcome)
      requires Sound()
      modifies this`lastVisibility, Chosen(targets)`actorVisible
      ensures Sound()
      ensures out == OutcomeOf(SetVisibility(old(State()), state))
      ensures State() == if out.Success? then SetVisibility(old(State()), state).value else old(State())
      ensures out.Success? ==> forall b :: b in old(Chosen(targets)) ==>
        b.actorVisible == if b in exclude then old(b.actorVisible) else state != "hidden"
    {
      var visibility: bool;
      if state == "visible" {
        visibility := true;
      } else if state == "dimmed" {
        lastVisibility := "dimmed";
        visibility := true;
      } else if state == "hidden" {
        lastVisibility := "hidden";
        visibility := false;
      } else {
        return Failure(ValueError);
      }
      ShowOrHide(Chosen(targets), exclude, visibility, held);
      out := Success;
    }

    // ---------------------------------------------------------------- selection

    /** `select(name)`: reset the previously selected bundle when it is
        still registered, then select the name (KeyError, after the selection
        is set, when it names no bundle), show it, dim or hide the others as
        last chosen, and preview it at the slider's value. */
    method Select(name: string, sliderValue: real) returns (out: Outcome)
      requires Sound()
      modifies this`selected, this`lastVisibility, bundles.Values
      ensures Sound()
      ensures State() == old(State()).(selected := Some(name))
      ensures out == if name in bundles then Success else Failure(KeyError)
      ensures name in bundles ==>
        var b := bundles[name];
        && b.actorVisible && !b.hasChanged
        && b.lastThreshold == Finite(sliderValue)
        && b.clusters == b.env.quickBundles(b.streamlines, Finite(sliderValue))
        && forall o :: o in bundles.Values && o != b ==> o.actorVisible == (lastVisibility == "dimmed")
      ensures old(selected).Some? && old(selected).value in bundles ==>
        var p := bundles[old(selected).value];
        (name !in bundles || bundles[name] != p) ==> p.lastThreshold == Infinite && !p.hasChanged
    {
      Unselect();
      selected := Some(name);
      if name !in bundles {
        return Failure(KeyError);
      }
      Focus(bundles[name], sliderValue);
      out := Success;
    }

    /** `select(None)`: reset the previously selected bundle when it is still
        registered, clear the selection and show every bundle. */
    method SelectNone()
      requires Sound()
      modifies this`selected, this`lastVisibility, Previous(), bundles.Values`actorVisible
      ensures Sound()
      ensures State() == old(State()).(selected := None)
      ensures forall b :: b in bundles.Values ==> b.actorVisible
      ensures old(selected).Some? && old(selected).value in bundles ==>
        var p := bundles[old(selected).value];
        p.lastThreshold == Infinite && !p.hasChanged
    {
      Unselect();
      selected := None;
      ShowAll();
    }

    /** The bundle `select` resets first: the selected one, when still registered. */
    function Previous(): set<Bundle>
      reads this`selected, this`bundles
    {
      if selected.Some? && selected.value in bundles then {bundles[selected.value]} else {}
    }

    /** The first step of `select`: put the selected bundle back to one cluster. */
    method Unselect()
      requires Sound()
      modifies Previous()
      ensures Sound()
      ensures old(selected).Some? && old(selected).value in bundles ==>
        var p := bundles[old(selected).value];
        p.lastThreshold == Infinite && !p.hasChanged
    {
      if selected.Some? && selected.value in bundles {
        var p := bundles[selected.value];
        p.Reset();
      }
    }

    /** `_set_bundles_visibility("visible")` on every bundle. */
    method ShowAll()
      requires Sound()
      modifies this`lastVisibility, bundles.Values`actorVisible
      ensures Sound() && lastVisibility == old(lastVisibility)
      ensures forall b :: b in bundles.Values ==> b.actorVisible
    {
      var out := SetBundlesVisibility("visible", None, {});
    }

    /** The rest of `select` for a registered bundle: show it, dim or hide the
        others as last chosen, preview it at the slider's value. */
    method Focus(b: Bundle, sliderValue: real)
      requires Sound() && b in bundles.Values
      modifies this`lastVisibility, bundles.Values`actorVisible, b
      ensures Sound() && lastVisibility == old(lastVisibility)
      ensures b.actorVisible && !b.hasChanged
      ensures b.lastThreshold == Finite(sliderValue)
      ensures b.clusters == b.env.quickBundles(b.streamlines, Finite(sliderValue))
      ensures forall o :: o in bundles.Values && o != b ==> o.actorVisible == (lastVisibility == "dimmed")
    {
      var out := SetBundlesVisibility("visible", Some({b}), {});
      out := SetBundlesVisibility(lastVisibility, None, {b});
      PreviewBundle(b, Finite(sliderValue));
    }

    /** `bundle.preview(threshold)` on a bundle the viewer holds. */
    method PreviewBundle(b: Bundle, threshold: Threshold)
      requires Sound() && b in held
      modifies b`lastThreshold, b`clusters, b`clustersColors, b`streamlinesColors,
               b`pointColors, b`hasChanged, b`centroidActors
      ensures Sound()
      ensures !b.hasChanged && b.lastThreshold == threshold
      ensures b.clusters == b.env.quickBundles(b.streamlines, threshold)
    {
      var count := b.Preview(threshold);
    }

    /** `select_next` (step 1) and `select_previous` (step -1): rank the keys
        by descending (size, name), move one place from the selection (or
        take the first), and select that key. */
    method SelectAlong(step: int, sliderValue: real) returns (out: Outcome)
      requires Sound()
      modifies this`selected, this`lastVisibility, bundles.Values
      ensures Sound()
      ensures out == OutcomeOf(Step(old(State()), step))
      ensures State() == if out.Success? then Step(old(State()), step).value else old(State())
      ensures out.Success? ==> bundles[selected.value].lastThreshold == Finite(sliderValue)
    {
      var target := StepTarget(State(), step);
      if target.Err? {
        return Failure(target.error);
      }
      out := Select(target.value, sliderValue);
    }

    method SelectNext(sliderValue: real) returns (out: Outcome)
      requires Sound()
      modifies this`selected, this`lastVisibility, bundles.Values
      ensures Sound()
      ensures out == OutcomeOf(Step(old(State()), 1))
      ensures State() == if out.Success? then Step(old(State()), 1).value else old(State())
      ensures out.Success? ==> bundles[selected.value].lastThreshold == Finite(sliderValue)
    {
      out := SelectAlong(1, sliderValue);
    }

    method SelectPrevious(sliderValue: real) returns (out: Outcome)
      requires Sound()
      modifies this`selected, this`lastVisibility, bundles.Values
      ensures Sound()
      ensures out == OutcomeOf(Step(old(State()), -1))
      ensures State() == if out.Success? then Step(old(State()), -1).value else old(State())
      ensures out.Success? ==> bundles[selected.value].lastThreshold == Finite(sliderValue)
    {
      out := SelectAlong(-1, sliderValue);
    }

    // ---------------------------------------------------------------- like / dislike / undo

    /** `like_bundle` / `dislike_bundle`: KeyError when the selection names
        no bundle; otherwise memorize the judgement, move the bundle's
        streamlines to inliers or outliers, select the next bundle and
        remove the judged one. */
    method Judge(action: Action, sliderValue: real) returns (out: Outcome)
      requires Valid()
      modifies this, held
      ensures Valid()
      ensures out == OutcomeOf(Curation.Judge(old(State()), action))
      ensures State() == if out.Success? then Curation.Judge(old(State()), action).value else old(State())
    {
      ghost var r := State();
      if selected.None? || selected.value !in bundles {
        return Failure(KeyError);
      }
      var name := selected.value;
      Memorize(action);
      out := SelectNext(sliderValue);
      StepSelects(Curation.Memorize(r, action), 1);
      out := RemoveBundle(name);
      JudgeKeepsInv(r, action);
    }

    /** The first half of a judgement: push the undo record and extend
        inliers (like) or outliers (dislike) by the selected bundle's streamlines. */
    method Memorize(action: Action)
      requires Sound() && selected.Some? && selected.value in bundles
      modifies this`undoMemory, this`inliers, this`outliers
      ensures Sound()
      ensures State() == Curation.Memorize(old(State()), action)
    {
      var name := selected.value;
      var b := bundles[name];
      undoMemory := DequeAppend(undoMemory, capacity, UndoRecord(action, name, b));
      if action == Like {
        inliers := inliers + b.streamlines;
      } else {
        outliers := outliers + b.streamlines;
      }
    }

    method LikeBundle(sliderValue: real) returns (out: Outcome)
      requires Valid()
      modifies this, held
      ensures Valid()
      ensures out == OutcomeOf(Curation.Judge(old(State()), Like))
      ensures State() == if out.Success? then Curation.Judge(old(State()), Like).value else old(State())
    {
      out := Judge(Like, sliderValue);
    }

    method DislikeBundle(sliderValue: real) returns (out: Outcome)
      requires Valid()
      modifies this, held
      ensures Valid()
      ensures out == OutcomeOf(Curation.Judge(old(State()), Dislike))
      ensures State() == if out.Success? then Curation.Judge(old(State()), Dislike).value else old(State())
    {
      out := Judge(Dislike, sliderValue);
    }
  
    /** `undo`: nothing when the memory is empty; otherwise pop the newest
        record, truncate inliers (like) or outliers (dislike) by
        `[:-len(bundle.streamlines)]`, re-register the bundle under its name
        and select it. */
    method Undo(sliderValue: real)
      requires Valid()
      modifies this, held
      ensures Valid()
      ensures State() == Curation.Undo(old(State()))
    {
      ghost var r := State();
      if |undoMemory| == 0 {
        return;
      }
      var rec := PopRecord();
      AddBundle(rec.name, rec.bundle);
      var out := Select(rec.name, sliderValue);
      UndoKeepsInv(r);
    }

    /** The first half of `undo`: pop the newest record and truncate the
        collection it extended. */
    method PopRecord() returns (rec: UndoRecord)
      requires Valid() && |undoMemory| > 0
      modifies this`undoMemory, this`inliers, this`outliers
      ensures Sound() && rec.bundle in held && rec.name !in keys
      ensures rec == old(undoMemory[|undoMemory| - 1])
      ensures Curation.Undo(old(State())) ==
        Curation.AddBundle(State(), rec.name, rec.bundle).(selected := Some(rec.name))
    {
      assert RecordNames(undoMemory)[|undoMemory| - 1] == undoMemory[|undoMemory| - 1].name;
      rec := undoMemory[|undoMemory| - 1];
      undoMemory := undoMemory[..|undoMemory| - 1];
      var n := |rec.bundle.streamlines|;
      if rec.action == Like {
        inliers := DropLast(inliers, n);
      } else {
        outliers := DropLast(outliers, n);
      }
    }

    // ---------------------------------------------------------------- apply

    /** The apply button: split the selected bundle into one new bundle per
        cluster (KeyError when the selection names no bundle), register
        cluster `i` as `parent + str(i) + "/"`, remove the parent and clear
        the selection. */
    method Apply() returns (out: Outcome, children: seq<Bundle>)
      requires Valid()
      modifies this, held
      ensures Valid()
      ensures out.Success? <==> old(selected).Some? && old(selected).value in old(bundles)
      ensures out == OutcomeOf(Curation.Apply(old(State()), children))
      ensures State() == if out.Success? then Curation.Apply(old(State()), children).value else old(State())
      ensures out.Success? ==>
        var p := old(bundles[selected.value]);
        && p.clusters == old(p.clusters) && p.clustersColors == old(p.clustersColors)
        && p.lastThreshold == old(p.lastThreshold)
        && |children| == |p.clusters|
        && forall k :: 0 <= k < |children| ==> fresh(children[k]) && p.IsChild(children[k], k)
    {
      if selected.None? || selected.value !in bundles {
        return Failure(KeyError), [];
      }
      children := SplitSelected();
      out := Success;
    }

    /** The apply button once the selection is known to name a bundle. */
    method SplitSelected() returns (children: seq<Bundle>)
      requires Valid() && selected.Some? && selected.value in bundles
      modifies this, held
      ensures Valid()
      ensures Curation.Apply(old(State()), children) == Ok(State())
      ensures var p := old(bundles[selected.value]);
        && p.clusters == old(p.clusters) && p.clustersColors == old(p.clustersColors)
        && p.lastThreshold == old(p.lastThreshold)
        && |children| == |p.clusters|
        && forall k :: 0 <= k < |children| ==> fresh(children[k]) && p.IsChild(children[k], k)
    {
      ghost var r := State();
      var parent := bundles[selected.value];
      children := parent.GetClusterAsBundles();
      ApplyFresh(r, selected.value, children);
      ApplyKeepsInv(r, children);
      ReplaceByChildren(children);
      assert Inv(State());
    }

    /** The rest of the apply button, once the clusters are bundles: register
        them, remove the parent, select nothing. */
    method ReplaceByChildren(children: seq<Bundle>)
      requires Sound() && selected.Some? && selected.value in bundles
      requires forall k :: 0 <= k < |children| ==> children[k].Valid()
      requires forall k :: 0 <= k < |children| ==> ChildName(selected.value, k) !in keys
      modifies this`keys, this`bundles, this`held, this`selected, this`lastVisibility
      modifies held`actorVisible, children`actorVisible
      ensures Sound()
      ensures Curation.Apply(old(State()), children) == Ok(State())
    {
      var p := selected.value;
      ghost var r := State();
      Hold(children);
      RegisterChildren(p, children);
      ghost var mid := State();
      assert p in mid.keys;
      DropParent(p);
      ApplySteps(r, children, mid, State());
    }

    /** The end of the apply button: `remove_bundle(parent)`, then `select(None)`. */
    method DropParent(p: string)
      requires Sound() && selected == Some(p) && p in keys
      modifies this`keys, this`bundles, this`selected, this`lastVisibility, held`actorVisible
      ensures Sound()
      ensures State() == Curation.RemoveBundle(old(State()), p).value.(selected := None)
    {
      var out := RemoveBundle(p);
      assert p !in keys;
      SelectNone();
    }

    /** The loop of the apply button: `add_bundle(parent + str(i) + "/", bundle)`
        for each new bundle in turn. */
    method RegisterChildren(p: string, children: seq<Bundle>)
      requires Sound()
      requires forall k :: 0 <= k < |children| ==> children[k] in held && ChildName(p, k) !in keys
      modifies this`keys, this`bundles
      ensures Sound()
      ensures State() == AddChildren(old(State()), p, children, |children|)
      ensures forall x :: x in keys <==> x in old(keys) || IsChildOf(p, |children|, x)
    {
      ghost var r := State();
      var i := 0;
      while i < |children|
        invariant 0 <= i <= |children|
        invariant State() == AddChildren(r, p, children, i)
        invariant bundles.Values <= held
      {
        ValuesWith(bundles, ChildName(p, i), children[i], held);
        AddBundle(ChildName(p, i), children[i]);
        i := i + 1;
      }
      AddChildrenState(r, p, children, |children|);
    }

    /** The viewer now holds the given bundles as well. */
    ghost method Hold(bs: seq<Bundle>)
      requires Sound() && forall k :: 0 <= k < |bs| ==> bs[k].Valid()
      modifies this`held
      ensures Sound() && held == old(held) + (set k | 0 <= k < |bs| :: bs[k])
    {
      held := held + (set k | 0 <= k < |bs| :: bs[k]);
    }

    // ---------------------------------------------------------------- reset / save

    /** The reset (home) button: empty the undo memory, then for each key in
        turn take its streamlines and remove the bundle; with nothing taken
        stop there, otherwise register one new bundle of everything taken as
        "/" and select nothing. */
    method Reset() returns (root: Option<Bundle>)
      requires Valid()
      modifies this`undoMemory, this`keys, this`bundles, this`held, this`selected, this`lastVisibility
      modifies held`actorVisible, held`lastThreshold, held`clusters, held`clustersColors,
               held`streamlinesColors, held`pointColors, held`hasChanged, held`centroidActors
      ensures Valid()
      ensures root.Some? <==> |Merged(old(keys), old(bundles))| > 0
      ensures root.Some? ==>
        && fresh(root.value) && root.value.streamlines == Merged(old(keys), old(bundles))
        && State() == Curation.Reset(old(State()), root.value)
      ensures root.None? ==> State() == old(State()).(keys := [], bundles := map[], undo := [])
    {
      ghost var r := State();
      undoMemory := [];
      var merged := TakeAll();
      if |merged| == 0 {
        return None;
      }
      var b := RegisterRoot(merged);
      root := Some(b);
      ResetSpec(r, b);
    }

    /** The end of the reset button once every bundle is gone: register one
        new bundle of `merged` as "/" and select nothing. */
    method RegisterRoot(merged: seq<Streamline>) returns (b: Bundle)
      requires Sound() && keys == [] && bundles == map[] && undoMemory == []
      modifies this`keys, this`bundles, this`held, this`selected, this`lastVisibility, held`actorVisible
      ensures Sound() && fresh(b) && b.streamlines == merged
      ensures State() == old(State()).(keys := [Root], bundles := map[Root := b], selected := None)
    {
      b := new Bundle(env, merged, None, Infinite, None);
      Hold([b]);
      assert [b][0] == b;
      AddBundle(Root, b);
      SelectNone();
    }

    /** The loop of the reset button, over the keys as they stand when it starts. */
    method TakeAll() returns (merged: seq<Streamline>)
      requires Sound() && undoMemory == []
      modifies this`keys, this`bundles
      ensures Sound()
      ensures keys == [] && bundles == map[]
      ensures merged == Merged(old(keys), old(bundles))
    {
      var ks := keys;
      ghost var all := bundles;
      merged := [];
      var i := 0;
      while i < |ks|
        invariant 0 <= i <= |ks|
        invariant Sound() && keys == ks[i..]
        invariant forall k :: k in bundles ==> k in all && bundles[k] == all[k]
        invariant merged == Merged(ks[..i], all)
      {
        var k := ks[i];
        merged := merged + bundles[k].streamlines;
        var out := RemoveBundle(k);
        DropFirstKey(ks[i..], keys);
        assert ks[i..][1..] == ks[i + 1..];
        MergedSnoc(ks[..i], all, k);
        assert ks[..i] + [k] == ks[..i + 1];
        i := i + 1;
      }
      assert ks[..i] == ks;
      assert bundles.Keys == {};
    }

    /** The save button: empty the undo memory and write one file per bundle,
        `prefix_bundle_<i>.tck` for the i-th name of `sorted(bundles.keys())`,
        then the liked and the disliked streamlines when there are any. */
    method Save(prefix: string) returns (files: seq<SavedFile>)
      requires Valid()
      modifies this`undoMemory
      ensures Valid()
      ensures (State(), files) == Curation.Save(old(State()), prefix)
    {
      ClearUndo();
      files := BundleFilesOf(prefix);
      var inlierFiles, outlierFiles := [], [];
      if |inliers| > 0 {
        inlierFiles := [SavedFile(prefix + "_inliers.tck", inliers)];
      }
      if |outliers| > 0 {
        outlierFiles := [SavedFile(prefix + "_outliers.tck", outliers)];
      }
      files := files + inlierFiles + outlierFiles;
    }

    /** `undo_memory.clear()`. */
    method ClearUndo()
      requires Valid()
      modifies this`undoMemory
      ensures Valid() && State() == old(State()).(undo := [])
    {
      ghost var r := State();
      undoMemory := [];
      SaveSpec(r, "");
    }

    /** The loop of the save button that writes the bundles. */
    method BundleFilesOf(prefix: string) returns (files: seq<SavedFile>)
      requires forall k :: k in keys ==> k in bundles
      ensures files == BundleFiles(prefix, keys, bundles, 0)
    {
      files := [];
      var i := 0;
      while i < |keys|
        invariant 0 <= i <= |keys|
        invariant |files| == i
        invariant forall j :: 0 <= j < i ==>
          files[j] == SavedFile(prefix + "_bundle_" + DecimalString(j) + ".tck", bundles[keys[j]].streamlines)
      {
        files := files + [SavedFile(prefix + "_bundle_" + DecimalString(i) + ".tck", bundles[keys[i]].streamlines)];
        i := i + 1;
      }
      BundleFilesSpec(prefix, keys, bundles, 0);
    }

    // ---------------------------------------------------------------- keys and buttons

    /** The dim/hide button (and the space key): flip the remembered state
        between dimmed and hidden, then apply it to every bundle but the
        selected one; KeyError, after the flip, when the selection names no bundle. */
    method ToggleOthers() returns (out: Outcome)
      requires Valid()
      modifies this`lastVisibility, held`actorVisible
      ensures Valid()
      ensures State() == Curation.Toggle(old(State()))
      ensures out == if selected.Some? && selected.value in bundles then Success else Failure(KeyError)
      ensures out.Success? ==> forall b :: b in bundles.Values ==>
        b.actorVisible == if b == bundles[selected.value] then old(b.actorVisible) else lastVisibility == "dimmed"
    {
      var state := if lastVisibility == "dimmed" then "hidden" else "dimmed";
      lastVisibility := state;
      ToggleSpec(old(State()));
      if selected.None? || selected.value !in bundles {
        return Failure(KeyError);
      }
      out := SetBundlesVisibility(state, None, {bundles[selected.value]});
    }

    /** The space-key handler: nothing without a selection; otherwise "space"
        (in any case) toggles as the dim/hide button does. */
    method OnSpaceKey(key: string) returns (out: Outcome)
      requires Valid()
      modifies this`lastVisibility, held`actorVisible
      ensures Valid()
      ensures State() == if selected.Some? && Lower(key) == "space" then Curation.Toggle(old(State())) else old(State())
      ensures out.Failure? <==> selected.Some? && Lower(key) == "space" && selected.value !in bundles
    {
      if selected.None? || Lower(key) != "space" {
        return Success;
      }
      out := ToggleOthers();
    }

    /** The selection keys of the shortcut handler: "escape" (in any case)
        selects nothing; otherwise a key whose lower case contains "tab"
        selects the previous bundle with shift held and the next one without. */
    method OnSelectionKey(key: string, shift: bool, sliderValue: real) returns (out: Outcome)
      requires Valid()
      modifies this`selected, this`lastVisibility, held
      ensures Valid()
      ensures Lower(key) == "escape" ==> out == Success && State() == old(State()).(selected := None)
      ensures Lower(key) != "escape" && HasInfix(Lower(key), "tab") ==>
        var step := if shift then -1 else 1;
        && out == OutcomeOf(Step(old(State()), step))
        && State() == if out.Success? then Step(old(State()), step).value else old(State())
      ensures Lower(key) != "escape" && !HasInfix(Lower(key), "tab") ==> out == Success && State() == old(State())
    {
      var k := Lower(key);
      if k == "escape" {
        SelectNone();
        return Success;
      }
      if HasInfix(k, "tab") {
        ghost var r := State();
        var step := if shift then -1 else 1;
        out := SelectAlong(step, sliderValue);
        StepKeepsInv(r, step);
        return;
      }
      out := Success;
    }

    /** The like/dislike/undo key handler: "u" undoes; then, with a selection,
        "r" dislikes and "a" likes the selected bundle. */
    method OnLikeKey(key: string, sliderValue: real) returns (out: Outcome)
      requires Valid()
      modifies this, held
      ensures Valid()
      ensures out == OutcomeOf(KeyEffect(old(State()), key))
      ensures State() == if out.Success? then KeyEffect(old(State()), key).value else old(State())
    {
      if key == "u" {
        Undo(sliderValue);
      }
      if selected.None? {
        return Success;
      }
      if key == "r" {
        out := Judge(Dislike, sliderValue);
      } else if key == "a" {
        out := Judge(Like, sliderValue);
      } else {
        out := Success;
      }
    }

    /** Moving the threshold slider's disk: when the slider's value differs
        from the last previewed threshold, preview the selected bundle at it
        (KeyError when the selection names no bundle) and remember it. */
    method OnSliderMove(threshold: real) returns (out: Outcome, count: Option<nat>)
      requires Valid()
      modifies this`lastThreshold, held`lastThreshold, held`clusters, held`clustersColors,
               held`streamlinesColors, held`pointColors, held`hasChanged, held`centroidActors
      ensures Valid() && State() == old(State())
      ensures old(lastThreshold) == Some(threshold) ==> out == Success && count.None? && lastThreshold == old(lastThreshold)
      ensures old(lastThreshold) != Some(threshold) ==>
        && out == (if selected.Some? && selected.value in bundles then Success else Failure(KeyError))
        && (out.Success? <==> lastThreshold == Some(threshold))
        && (out.Failure? ==> lastThreshold == old(lastThreshold) && count.None?)
      ensures out.Success? && count.Some? ==>
        var b := bundles[selected.value];
        && b.lastThreshold == Finite(threshold)
        && b.clusters == b.env.quickBundles(b.streamlines, Finite(threshold))
        && count.value == |b.clusters|
    {
      if lastThreshold == Some(threshold) {
        return Success, None;
      }
      if selected.None? || selected.value !in bundles {
        return Failure(KeyError), None;
      }
      var b := bundles[selected.value];
      var n := b.Preview(Finite(threshold));
      lastThreshold := Some(threshold);
      out, count := Success, Some(n);
    }

  }
}

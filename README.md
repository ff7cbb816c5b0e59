# Streamline curation viewer and its 2D widgets, modelled in Dafny

This project models the bookkeeping core of `dipy_streamlines_viz`. That is
dipy's interactive tool for curating a tractogram: the user splits bundles of
streamlines into clusters, likes (keeps) or dislikes (rejects) them, undoes
judgements, merges everything back, and saves the result. The project also
models the small state machines of the 2D widgets the tool is built from, in
`dipy/viz/ui.py` and in their older twins in `dipy/viz/gui.py`.

The model has three layers.

- **The registry as a value** (modules `Curation`, `CurationLemmas`,
  `Selection`, `Split`, `Housekeeping`, `RoundTrips`). It holds:
  - the bundles by name, with the sorted key list `keys`;
  - the selection;
  - the liked (`inliers`) and disliked (`outliers`) streamlines;
  - the undo memory, a deque with an optional `maxlen`;
  - the remembered dim/hide state.

  Each button or key is a function on the registry. The lemmas state the
  promised properties:
  - `add_bundle` and `remove_bundle` keep the keys sorted and equal to the
    registered names;
  - the (size, name) stepping order of `select_next` and `select_previous`;
  - like/dislike followed by undo is a round trip;
  - the bounded deque keeps the newest records;
  - the apply button gives its children fresh names `parent + str(i) + "/"`;
  - reset, save and the visibility toggle behave as documented;
  - an invariant is kept throughout. Names are pairwise prefix-free, which is
    why the children's names are fresh.
- **The viewer as a class** (module `Vizu`, class `StreamlinesVizu`; module
  `Bundles`, class `Bundle`). The fields are updated in place, as in the
  program. Each method is proved to leave the fields equal to the registry
  function applied to the old fields. The method also states its effect on
  the bundles' clusters, colours, centroid actors and visibility.
  - QuickBundles, the colour map and the per-point colours are parameters of
    an `Env` value. The model assumes three things of it: the clusters
    partition the streamline indices; a non-empty bundle gives exactly one
    cluster at an infinite threshold; and `line_colors` gives one colour per
    streamline.
- **The widgets**:
  - the mouse button state machine of `UI`: the `React` function plus the
    class `UI`;
  - icon cycling (module `Icons`; classes `Button2D` and `Button`);
  - panel element placement and re-alignment (`Panel2D`);
  - the editable text box. Module `TextEditing` holds the editing functions
    on a `Box` value, and module `LineBreaks` holds `width_set_text`. Classes
    `TextBox2D` and `TextBox` are proved against these functions;
  - the line slider, which clamps positions and keeps its ratio in [0, 1]
    (`LineSlider2D`, over reals);
  - the disk slider, which clamps positions (`SliderDisk`, over ints);
  - the percentage label, using Python 2 floor division (`SliderText`);
  - the threshold text box's key filter in the viewer (module
    `ThresholdBox`).

Python behaviours that are written out explicitly:

- Python slicing with negative and out-of-range bounds is `PySeq.Slice`.
- `s[:-0]` being empty is `PySeq.DropLast`.
- `list.index` and `list.remove` are `IndexOf` and `RemoveFirst`.
- `str.lower()` on ASCII is `Strings.Lower`.
- `str(i)` is `Strings.DecimalString`.
- `rstrip("\n")` is `PySeq.RStripNewlines`.
- `np.lexsort(...)[::-1]` is `Sorting.Order`.

Behaviours of the program that the model states as they are, not as fixes:

- Undoing the judgement of a bundle with no streamlines empties the whole
  liked or disliked collection, because `s[:-0]` is `[]`
  (`CurationLemmas.UndoLikeOfEmptyBundleLosesInliers`).
- Judging the only bundle leaves the selection naming a removed bundle.
  After that, like/dislike raise KeyError and `select_next` raises
  ValueError (`RoundTrips.JudgeOnlyBundleDangles`).
- In the threshold box, keypad enter on a non-empty box passes the filter,
  but `handle_character` does not treat it as "return". It neither edits the
  text nor finishes the entry (`ThresholdBox.KeypadEnterOnText`).
- `width_set_text` with width 0 raises ZeroDivisionError on non-empty text
  (`LineBreaks.WidthSetText`).

Functions that compute one operation each. The lemma in brackets states
what the function does:

- `Curation.AddBundle`: `add_bundle`, bin/dipy_streamlines_viz.py:299-303 (`Curation.AddBundleSpec`).
- `Curation.Step`: `select_next` / `select_previous`, bin/dipy_streamlines_viz.py:311-335 (`Selection.StepSpec`).
- `Curation.Memorize`: the undo-memory push of like/dislike, bin/dipy_streamlines_viz.py:403-409 and 433-438 (`CurationLemmas.JudgeSpec`).
- `Curation.Undo`: `undo`, bin/dipy_streamlines_viz.py:456-481 (`CurationLemmas.UndoSpec`).
- `Curation.Apply`: the apply button, bin/dipy_streamlines_viz.py:516-532 (`Split.ApplySpec`).
- `Curation.Reset`: the reset button, bin/dipy_streamlines_viz.py:845-868 (`Housekeeping.ResetSpec`).
- `Curation.Save`: the save button, bin/dipy_streamlines_viz.py:786-829 (`Housekeeping.SaveSpec`).
- `Curation.SetVisibility`: `_set_bundles_visibility`, bin/dipy_streamlines_viz.py:266-290 (`Housekeeping.SetVisibilitySpec`).
- `Curation.Toggle`: the dim/hide toggle, bin/dipy_streamlines_viz.py:547-558 (`Housekeeping.ToggleSpec`).
- `TextEditing.AddCharacter`: dipy/viz/ui.py:1403-1418 (`TextEditing.AddCharacterSpec`).
- `TextEditing.RemoveCharacter`: dipy/viz/ui.py:1424-1431 (`TextEditing.RemoveCharacterSpec`).
- `TextEditing.MoveLeft` and `TextEditing.MoveRight`: dipy/viz/ui.py:1440-1460 (`TextEditing.CaretMoves`).
- `TextEditing.HandleCharacter`: dipy/viz/ui.py:1349-1361 (`TextEditing.HandleCharacterSpec`).
- `TextEditing.ShowableText`: dipy/viz/ui.py:1462-1478 (`TextEditing.ShowableWindow`).
- `TextEditing.Render`: dipy/viz/ui.py:1480-1492 (`TextEditing.RenderSpec`).
- `LineBreaks.Broken`: the loop of `width_set_text`, dipy/viz/ui.py:1327-1335 (`LineBreaks.BrokenLines`, `LineBreaks.BrokenFullLines`).
- `Sorting.Order`: the lexsort of bin/dipy_streamlines_viz.py:313 and 326 (`Sorting.OrderIsPermutation`).
- `UiWidgets.React`: the mouse callbacks of `UI`, dipy/viz/ui.py:183-217 (`UiWidgets.ReleaseSpec`, `UiWidgets.MoveSpec`).

## Model

| member | source | states |
|---|---|---|
| Curation.Initial | bin/dipy_streamlines_viz.py:252-262 | the start-up registry (root bundle "/" only, nothing selected, empty undo memory, "dimmed") satisfies the registry invariant |
| Curation.ChildName | bin/dipy_streamlines_viz.py:526 | a child's name extends its parent's name, ends in "/", and is one character longer than parent plus `str(i)` |
| Curation.RemoveBundle | bin/dipy_streamlines_viz.py:305-309 | removal succeeds exactly when the name is a key (ValueError otherwise); on sorted keys the result is sorted and holds exactly the other keys |
| Curation.AddBundleSpec | bin/dipy_streamlines_viz.py:299-303 | adding a new name keeps `keys` strictly sorted, adds exactly that name, keeps keys equal to the registered names, and binds the name to the bundle |
| Curation.RemoveBundleSpec | bin/dipy_streamlines_viz.py:305-309 | removing succeeds iff the name is registered; then exactly that entry is gone, keys stay sorted and equal to the registered names, other bundles and all other fields are unchanged |
| Curation.StepSelects | bin/dipy_streamlines_viz.py:311-335 | with a selection that is a key, stepping succeeds and changes only the selection |
| Curation.DequeAppend | bin/dipy_streamlines_viz.py:253 | appending to a deque with `maxlen` never exceeds it; below the bound it appends; at the bound the oldest record falls off and the new one is last; nothing new appears but the pushed record |
| Curation.DequeKeepsNewest | bin/dipy_streamlines_viz.py:253 | after any sequence of appends a bounded deque holds exactly the newest `maxlen` records of the whole history |
| Curation.NewestOfNewest | bin/dipy_streamlines_viz.py:253 | keeping the newest `cap` items and then appending more is the same as keeping the newest `cap` of everything |
| Curation.Judge | bin/dipy_streamlines_viz.py:399-442 | like/dislike keep the key list strictly sorted |
| CurationLemmas.JudgeSpec | bin/dipy_streamlines_viz.py:399-442 | like/dislike fail with KeyError iff the selection names no bundle; otherwise they push exactly one record (action, name, bundle), extend exactly the judged collection by the bundle's streamlines, leave the other collection unchanged, remove exactly the judged name, and select a remaining key |
| CurationLemmas.JudgeKeepsInv | bin/dipy_streamlines_viz.py:399-442 | a judgement of a registered selection succeeds and keeps the registry invariant |
| CurationLemmas.UndoSpec | bin/dipy_streamlines_viz.py:456-481 | undo with an empty memory changes nothing; otherwise it pops the newest record, truncates the judged collection by `[:-len(bundle.streamlines)]`, re-registers the bundle under its name (keys sorted) and selects it |
| CurationLemmas.UndoKeepsInv | bin/dipy_streamlines_viz.py:456-481 | undo keeps the registry invariant |
| CurationLemmas.PushNames | bin/dipy_streamlines_viz.py:406 | pushing a record with a new name keeps the record names distinct and adds no other name |
| CurationLemmas.PopNames | bin/dipy_streamlines_viz.py:459 | popping the newest record removes exactly its name from the record names |
| CurationLemmas.JudgeThenUndo | bin/dipy_streamlines_viz.py:399-481 | like or dislike of a non-empty bundle followed by undo restores the registry exactly (keys, bundles, selection, inliers, outliers), except for the records the bounded deque dropped |
| CurationLemmas.UndoLikeOfEmptyBundleLosesInliers | bin/dipy_streamlines_viz.py:469 | liking a bundle with no streamlines and undoing it leaves `inliers` empty, because `[:-0]` is `[]` |
| RoundTrips.JudgeMovesOn | bin/dipy_streamlines_viz.py:399-413 | with two or more bundles, a judgement leaves a registered bundle selected |
| RoundTrips.TwoJudgementsTwoUndos | bin/dipy_streamlines_viz.py:399-481 | two judgements followed by two undos restore both bundles in reverse order: the first undo gives the registry after the first judgement, the second the original |
| RoundTrips.SecondJudgementUndone | bin/dipy_streamlines_viz.py:399-481 | a second judgement is undone to the state between the two, and a second undo then restores the original |
| RoundTrips.JudgeOnlyBundleDangles | bin/dipy_streamlines_viz.py:399-413 | judging the only bundle empties the registry but keeps the removed name selected, after which like/dislike raise KeyError and stepping raises ValueError |
| Selection.PositionAt | bin/dipy_streamlines_viz.py:313-317 | the position of the key at position p is p |
| Selection.AtPosition | bin/dipy_streamlines_viz.py:313-317 | the key at a key's position is that key |
| Selection.StepSpec | bin/dipy_streamlines_viz.py:311-335 | stepping fails iff there is no selection and no key (IndexError) or the selection is not a key (ValueError); otherwise only the selection changes, to a key |
| Selection.StepFromNoneIsLargest | bin/dipy_streamlines_viz.py:311-317 | from no selection, both directions select a key of largest size |
| Selection.StepPosition | bin/dipy_streamlines_viz.py:311-335 | from a selected key, stepping moves its position in the (size, name) order by the step modulo the number of keys |
| Selection.StepNext | bin/dipy_streamlines_viz.py:311-322 | `select_next` moves one position on, wrapping from the last to the first |
| Selection.NextThenPrevious | bin/dipy_streamlines_viz.py:311-335 | `select_next` then `select_previous` restores the registry |
| Selection.PreviousThenNext | bin/dipy_streamlines_viz.py:311-335 | `select_previous` then `select_next` restores the registry |
| Selection.NextCycles | bin/dipy_streamlines_viz.py:311-322 | `len(keys)` calls of `select_next` return to the starting registry |
| Selection.StepMoves | bin/dipy_streamlines_viz.py:311-335 | with two or more keys a step always changes the selection |
| Selection.StepWithOneKeyStays | bin/dipy_streamlines_viz.py:311-335 | with a single key a step re-selects it and changes nothing |
| Sorting.OrderIsPermutation | bin/dipy_streamlines_viz.py:313 | the reversed lexsort is a permutation of the key indices, ordered by descending (size, name) |
| Sorting.OrderStartsWithLargest | bin/dipy_streamlines_viz.py:313 | the first index of the order is a bundle of largest size |
| Sorting.SortedInsert | bin/dipy_streamlines_viz.py:300-301 | appending a new name and sorting gives a strictly sorted list of the old keys plus that name |
| Sorting.SortedRemove | bin/dipy_streamlines_viz.py:306-307 | removing a key from a sorted list keeps it sorted (re-sorting changes nothing) and removes exactly that key |
| Sorting.SortStringsStrict | bin/dipy_streamlines_viz.py:301 | sorting distinct names gives a strictly sorted list |
| Sorting.StrictlySortedUnique | bin/dipy_streamlines_viz.py:301 | two strictly sorted lists with the same elements are equal |
| Sorting.SortByPermutes | bin/dipy_streamlines_viz.py:301 | sorting permutes its input |
| Sorting.SortBySorted | bin/dipy_streamlines_viz.py:301 | sorting by a strict weak order gives a sorted list |
| PySeq.Slice | dipy/viz/ui.py:1477 | Python slicing: bounds are clipped (negative ones counted from the end), and an empty range gives `[]` |
| PySeq.DropLast | bin/dipy_streamlines_viz.py:469 | `s[:-n]` is everything but the last n items for 0 < n <= len, and `[]` for n = 0 or n > len |
| PySeq.DropLastAppended | bin/dipy_streamlines_viz.py:409-469 | truncating by the length of a non-empty extension gives back the original |
| PySeq.DropLastOfNothingEmpties | bin/dipy_streamlines_viz.py:469 | truncating by the length of an empty extension empties the collection |
| PySeq.IndexOf | bin/dipy_streamlines_viz.py:316 | `list.index` returns a position holding the element, and no earlier position holds it (IndexOfIsFirst) |
| PySeq.RemoveFirst | bin/dipy_streamlines_viz.py:306 | `list.remove` deletes exactly the first occurrence |
| PySeq.RStripNewlines | dipy/viz/ui.py:1337 | `rstrip("\n")` returns a prefix with no trailing newline, and only newlines were removed |
| Strings.DecimalString | bin/dipy_streamlines_viz.py:526 | `str(n)` is a non-empty string of decimal digits, one digit exactly for n < 10 |
| Strings.DecimalStringInjective | bin/dipy_streamlines_viz.py:526 | different child indices print differently |
| PySeq.IndexOfIsFirst | bin/dipy_streamlines_viz.py:316 | no position before `list.index`'s answer holds the element |
| PySeq.RemoveFirstPermutes | bin/dipy_streamlines_viz.py:306 | `list.remove` takes away exactly one copy of the element |
| ThresholdBox.LowerKeys | bin/dipy_streamlines_viz.py:612-616 | the key names the filter compares against are unchanged by `lower()`, and digit keys are single digit characters |
| Strings.Lower | bin/dipy_streamlines_viz.py:612 | `lower()` keeps the length and lower-cases each ASCII capital |
| Strings.DecimalRoundTrip | bin/dipy_streamlines_viz.py:526 | `str(i)` reads back as i, so different children get different names (DecimalStringInjective) |
| Bundles.OriginalColors | bin/dipy_streamlines_viz.py:122-128 | one colour per point, all equal to the bundle's colour when it has one |
| Bundles.ClusterColors | bin/dipy_streamlines_viz.py:193-206 | one colour per cluster: the bundle's colour (blue without one) for a single cluster, the colour map otherwise |
| Bundles.CentroidActors | bin/dipy_streamlines_viz.py:150-161 | one centroid actor per cluster, with the cluster's centroid and colour and the current centroid visibility |
| Bundles.Gather | bin/dipy_streamlines_viz.py:228-233 | `streamlines[indices]` picks exactly the indexed streamlines, in order |
| Bundles.PartitionSizes | bin/dipy_streamlines_viz.py:223-237 | clusters that partition the indices have sizes summing to the bundle size |
| Bundles.TotalSizeMatches | bin/dipy_streamlines_viz.py:223-237 | children with one streamline per cluster index hold as many streamlines as the clusters |
| Bundles.Bundle.constructor | bin/dipy_streamlines_viz.py:105-131 | a new bundle is clustered at infinity (one cluster when non-empty, original colours), changed, without centroid actors, centroids hidden, streamlines shown |
| Bundles.Bundle.ClusterAt | bin/dipy_streamlines_viz.py:191-221 | `_cluster` records the threshold, sets the changed flag, takes QuickBundles' clusters, keeps colours for a single cluster and paints each streamline its cluster's colour otherwise |
| Bundles.Bundle.Update | bin/dipy_streamlines_viz.py:143-161 | when changed, rebuilds one centroid actor per cluster and clears the flag; when unchanged, leaves the actors alone |
| Bundles.Bundle.ShowCentroids | bin/dipy_streamlines_viz.py:163-167 | centroids become visible and every centroid actor is rebuilt and shown |
| Bundles.Bundle.HideCentroids | bin/dipy_streamlines_viz.py:169-172 | centroids become hidden and every actor is kept but hidden |
| Bundles.Bundle.ShowStreamlines | bin/dipy_streamlines_viz.py:174-176 | streamlines and the actor become visible |
| Bundles.Bundle.HideStreamlines | bin/dipy_streamlines_viz.py:178-180 | streamlines and the actor become hidden |
| Bundles.Bundle.Preview | bin/dipy_streamlines_viz.py:182-185 | re-clusters at the threshold, updates the actors, and returns the number of clusters |
| Bundles.Bundle.Reset | bin/dipy_streamlines_viz.py:187-189 | re-clusters at infinity (one cluster, original colours when non-empty) and updates |
| Bundles.Bundle.ChildColor | bin/dipy_streamlines_viz.py:227-235 | the child of a single cluster keeps the bundle's own colour, otherwise it takes its cluster's colour |
| Bundles.Bundle.GetClusterAsBundles | bin/dipy_streamlines_viz.py:223-237 | one fresh, distinct bundle per cluster, holding that cluster's streamlines, centroid, the last threshold and ChildColor; together as many streamlines as the parent |
| Split.ChildFresh | bin/dipy_streamlines_viz.py:526 | a child's name is not in use, and is neither a prefix of nor prefixed by any name in use other than its parent |
| Split.ChildrenApart | bin/dipy_streamlines_viz.py:526 | the names of two different children are never prefixes of each other |
| Split.AddChildrenState | bin/dipy_streamlines_viz.py:525-527 | registering the children adds exactly their names, each bound to its own child, keeps keys sorted and every other bundle |
| Split.ApplySpec | bin/dipy_streamlines_viz.py:516-532 | apply fails with KeyError iff the selection names no bundle; otherwise the parent is gone, cluster i is registered as `parent + str(i) + "/"`, other bundles stay, the selection is cleared and nothing else changes |
| Split.ApplyFresh | bin/dipy_streamlines_viz.py:526 | no child name is in use before apply |
| Split.ApplyKeepsInv | bin/dipy_streamlines_viz.py:516-532 | apply of a registered selection succeeds and keeps the registry invariant |
| Housekeeping.MergedMembers | bin/dipy_streamlines_viz.py:854-857 | a streamline is merged exactly when some bundle holds it |
| Housekeeping.MergedEmpty | bin/dipy_streamlines_viz.py:854-859 | nothing is merged exactly when every bundle is empty |
| Housekeeping.ResetSpec | bin/dipy_streamlines_viz.py:845-868 | reset clears the undo memory, keeps inliers, outliers and visibility, and keeps the invariant; with only empty bundles it leaves no bundle and the selection as it was, otherwise exactly the root "/" with nothing selected |
| Housekeeping.SortedNamesAreKeys | bin/dipy_streamlines_viz.py:809 | `sorted(bundles.keys())` is the key list |
| Housekeeping.BundleFilesSpec | bin/dipy_streamlines_viz.py:809-816 | the i-th file is `prefix_bundle_<i>.tck` holding the i-th key's streamlines |
| Housekeeping.BundleFileNamesDiffer | bin/dipy_streamlines_viz.py:811 | different bundles are saved under different file names |
| Housekeeping.SaveSpec | bin/dipy_streamlines_viz.py:786-829 | save empties the undo memory and changes nothing else; it writes one file per key in key order, then inliers and outliers only when non-empty |
| Housekeeping.SetVisibilitySpec | bin/dipy_streamlines_viz.py:266-290 | ValueError iff the state is not visible/dimmed/hidden; "visible" is not remembered; "dimmed"/"hidden" are |
| Housekeeping.ToggleSpec | bin/dipy_streamlines_viz.py:547-558 | the toggle swaps dimmed and hidden, changes nothing else, keeps the invariant, and twice is the identity |
| Housekeeping.StepKeepsInv | bin/dipy_streamlines_viz.py:311-335 | stepping the selection keeps the invariant |
| Vizu.ShowOrHide | bin/dipy_streamlines_viz.py:292-297 | every bundle not excluded gets the visibility, excluded ones keep theirs |
| Vizu.KeyEffectSpec | bin/dipy_streamlines_viz.py:484-499 | the like/dislike/undo key handler fails (KeyError) only for "r"/"a" with a selection naming no bundle, and keeps the invariant |
| Vizu.StreamlinesVizu.constructor | bin/dipy_streamlines_viz.py:242-264 | the viewer starts with the whole tractogram as the fresh root bundle, in the Initial registry |
| Vizu.StreamlinesVizu.AddBundle | bin/dipy_streamlines_viz.py:299-303 | the fields become AddBundle of the old registry |
| Vizu.StreamlinesVizu.RemoveBundle | bin/dipy_streamlines_viz.py:305-309 | the fields become RemoveBundle of the old registry; ValueError and no change for an unknown name |
| Vizu.StreamlinesVizu.SetBundlesVisibility | bin/dipy_streamlines_viz.py:266-297 | follows SetVisibility (ValueError on an unknown state); the chosen, non-excluded bundles are shown unless the state is "hidden", excluded ones are untouched |
| Vizu.StreamlinesVizu.Select | bin/dipy_streamlines_viz.py:337-374 | resets the previously selected bundle, selects the name (KeyError when it names no bundle), shows it and previews it at the slider value, and dims or hides all others as remembered |
| Vizu.StreamlinesVizu.SelectNone | bin/dipy_streamlines_viz.py:337-351 | resets the previously selected bundle, clears the selection and shows every bundle |
| Vizu.StreamlinesVizu.Unselect | bin/dipy_streamlines_viz.py:338-341 | a selected, registered bundle is re-clustered at infinity and updated |
| Vizu.StreamlinesVizu.ShowAll | bin/dipy_streamlines_viz.py:347 | every registered bundle becomes visible; the remembered state is untouched |
| Vizu.StreamlinesVizu.Focus | bin/dipy_streamlines_viz.py:369-372 | the selected bundle is shown and previewed at the slider value; every other one is visible iff the remembered state is "dimmed" |
| Vizu.StreamlinesVizu.PreviewBundle | bin/dipy_streamlines_viz.py:372 | the bundle is re-clustered at the threshold and updated |
| Vizu.StreamlinesVizu.SelectAlong | bin/dipy_streamlines_viz.py:311-335 | the fields follow Step; failures leave them unchanged; the newly selected bundle is previewed at the slider value |
| Vizu.StreamlinesVizu.SelectNext | bin/dipy_streamlines_viz.py:311-322 | Step by +1 |
| Vizu.StreamlinesVizu.SelectPrevious | bin/dipy_streamlines_viz.py:324-335 | Step by -1 |
| Vizu.StreamlinesVizu.Judge | bin/dipy_streamlines_viz.py:399-442 | the fields follow Curation.Judge and keep the invariant; KeyError leaves them unchanged |
| Vizu.StreamlinesVizu.Memorize | bin/dipy_streamlines_viz.py:405-409 | pushes the record and extends inliers or outliers |
| Vizu.StreamlinesVizu.LikeBundle | bin/dipy_streamlines_viz.py:399-413 | Judge with Like |
| Vizu.StreamlinesVizu.DislikeBundle | bin/dipy_streamlines_viz.py:428-442 | Judge with Dislike |
| Vizu.StreamlinesVizu.Undo | bin/dipy_streamlines_viz.py:456-481 | the fields follow Curation.Undo and keep the invariant |
| Vizu.StreamlinesVizu.PopRecord | bin/dipy_streamlines_viz.py:458-472 | pops the newest record and truncates; re-adding it and selecting it gives Undo |
| Vizu.StreamlinesVizu.Apply | bin/dipy_streamlines_viz.py:516-532 | the fields follow Curation.Apply with the parent's clusters as fresh child bundles (KeyError and no change without a registered selection); the parent's clusters are untouched |
| Vizu.StreamlinesVizu.SplitSelected | bin/dipy_streamlines_viz.py:520-532 | the same, for a registered selection |
| Vizu.StreamlinesVizu.ReplaceByChildren | bin/dipy_streamlines_viz.py:525-532 | registering the children, removing the parent and selecting nothing is Curation.Apply |
| Vizu.StreamlinesVizu.DropParent | bin/dipy_streamlines_viz.py:531-532 | removes the parent and clears the selection |
| Vizu.StreamlinesVizu.RegisterChildren | bin/dipy_streamlines_viz.py:525-527 | the loop registers exactly the children's names (AddChildren) |
| Vizu.StreamlinesVizu.Reset | bin/dipy_streamlines_viz.py:845-868 | the fields follow Curation.Reset, with a fresh root bundle holding every remaining streamline in key order, or no bundle when nothing remains |
| Vizu.StreamlinesVizu.RegisterRoot | bin/dipy_streamlines_viz.py:866-868 | registers a fresh bundle of the merged streamlines as "/" and selects nothing |
| Vizu.StreamlinesVizu.TakeAll | bin/dipy_streamlines_viz.py:854-857 | the loop removes every bundle and collects Merged of the old keys |
| Vizu.StreamlinesVizu.Save | bin/dipy_streamlines_viz.py:786-829 | fields and files follow Curation.Save |
| Vizu.StreamlinesVizu.ClearUndo | bin/dipy_streamlines_viz.py:795 | only the undo memory is emptied |
| Vizu.StreamlinesVizu.BundleFilesOf | bin/dipy_streamlines_viz.py:809-816 | the loop writes BundleFiles in key order |
| Vizu.StreamlinesVizu.ToggleOthers | bin/dipy_streamlines_viz.py:547-561 | flips dimmed/hidden, then every bundle but the selected one is visible iff dimmed; KeyError without a registered selection |
| Vizu.StreamlinesVizu.OnSpaceKey | bin/dipy_streamlines_viz.py:668-673 | "space" in any case toggles when something is selected; anything else changes nothing |
| Vizu.StreamlinesVizu.OnSelectionKey | bin/dipy_streamlines_viz.py:918-925 | "escape" selects nothing; a key containing "tab" steps back with shift and forward without; others change nothing |
| Vizu.StreamlinesVizu.OnLikeKey | bin/dipy_streamlines_viz.py:484-499 | the fields follow KeyEffect: "u" undoes, then with a selection "r" dislikes and "a" likes |
| Vizu.StreamlinesVizu.OnSliderMove | bin/dipy_streamlines_viz.py:587-591 | a threshold equal to the last one does nothing; otherwise the selected bundle is previewed at it (KeyError without a registered selection) and it is remembered |
| ThresholdBox.RouteKey | bin/dipy_streamlines_viz.py:616-630 | only digit keys, "period" (typed as "."), backspace, return and keypad enter reach the text box |
| ThresholdBox.TypedKeepsShort | bin/dipy_streamlines_viz.py:616-630 | a key the filter lets through never makes the text longer than four characters, nor longer than it was |
| ThresholdBox.TypedKeepsNumeric | bin/dipy_streamlines_viz.py:616-630 | a box holding only digits and "." keeps doing so |
| ThresholdBox.KeypadEnterOnText | bin/dipy_streamlines_viz.py:616-633 | keypad enter on a non-empty box passes the filter but neither edits nor finishes the entry |
| ThresholdBox.OnThresholdKey | bin/dipy_streamlines_viz.py:612-633 | rejected keys and a full box change nothing; enter on an empty box resets the message and releases focus; other keys go to `handle_character`, and focus is released iff the key is "return" |
| UiWidgets.ReleaseSpec | dipy/viz/ui.py:189-206 | a release sets the button released, fires clicked iff it was pressing (not after a drag), and always fires released last |
| UiWidgets.React | dipy/viz/ui.py:183-217 | an event changes at most one button's state; every press and release fires a hook, and a move fires at most one |
| Sorting.Order | bin/dipy_streamlines_viz.py:313 | the lexsort order holds one position per key; OrderIsPermutation says which |
| UiWidgets.MoveSpec | dipy/viz/ui.py:209-217 | a move drags left when left is not released, else drags right when right is not released, else does nothing |
| UiWidgets.DragRun | dipy/viz/ui.py:209-212 | k moves while left is down fire k left-drag handlers and leave left dragging |
| UiWidgets.ClickOrDrag | dipy/viz/ui.py:183-212 | press then release fires pressed, clicked, released; any move in between suppresses the click |
| UiWidgets.RunAppend | dipy/viz/ui.py:183-217 | running two event sequences in turn is running their concatenation |
| UiWidgets.UI.constructor | dipy/viz/ui.py:68-69 | both buttons start released and nothing has fired |
| UiWidgets.UI.LeftButtonClickCallback | dipy/viz/ui.py:183-187 | the buttons and the fired handlers follow React on a left press |
| UiWidgets.UI.LeftButtonReleaseCallback | dipy/viz/ui.py:189-194 | the same on a left release |
| UiWidgets.UI.RightButtonClickCallback | dipy/viz/ui.py:196-200 | the same on a right press |
| UiWidgets.UI.RightButtonReleaseCallback | dipy/viz/ui.py:202-207 | the same on a right release |
| UiWidgets.UI.MouseMoveCallback | dipy/viz/ui.py:209-217 | the same on a move |
| UiWidgets.Button2D.constructor | dipy/viz/ui.py:247-251 | the first icon is current |
| UiWidgets.Button2D.NextIconName | dipy/viz/ui.py:424-431 | the icon id advances by one modulo the number of icons |
| Icons.NextIconModular | dipy/viz/ui.py:424-431 | one `next_icon_name` step is `+1` modulo the number of icons |
| Icons.PressedModular | dipy/viz/gui.py:114-118 | k steps are `+k` modulo the number of icons |
| Icons.FullCycle | dipy/viz/gui.py:114-118 | as many steps as icons return to the starting icon |
| UiWidgets.Panel2D.constructor | dipy/viz/ui.py:601-633 | a panel starts with its background at offset (0, 0) |
| UiWidgets.Panel2D.AddElement | dipy/viz/ui.py:655-682 | normalized coordinates outside [0, 1] raise ValueError and add nothing; otherwise the offset (scaled by the panel size when normalized) is recorded and the element is placed at position + offset |
| UiWidgets.Panel2D.SetPosition | dipy/viz/ui.py:684-696 | every element is placed at the new position plus its offset |
| UiWidgets.Panel2D.ReAlign | dipy/viz/ui.py:711-727 | left alignment keeps the position, right alignment moves it by the window change, anything else raises ValueError |
| UiWidgets.TextBox2D.constructor | dipy/viz/ui.py:1199-1244 | the box starts with the given text, caret and window at 0, and the placeholder flag set |
| UiWidgets.TextBox2D.SetMessage | dipy/viz/ui.py:1294-1308 | the text becomes the message, caret at its end, window [0, len] |
| UiWidgets.TextBox2D.WidthSetText | dipy/viz/ui.py:1316-1337 | the loop computes LineBreaks.WidthSetText |
| UiWidgets.TextBox2D.HandleCharacter | dipy/viz/ui.py:1339-1361 | returns True iff the key is "return"; the box follows TextEditing.HandleCharacter; the message is rendered with the caret unless done |
| UiWidgets.TextBox2D.MoveCaretRight | dipy/viz/ui.py:1363-1367 | follows CaretRight |
| UiWidgets.TextBox2D.MoveCaretLeft | dipy/viz/ui.py:1369-1373 | follows CaretLeft |
| UiWidgets.TextBox2D.RightMoveRight | dipy/viz/ui.py:1375-1380 | follows RightMoveRight |
| UiWidgets.TextBox2D.RightMoveLeft | dipy/viz/ui.py:1382-1387 | follows RightMoveLeft |
| UiWidgets.TextBox2D.LeftMoveRight | dipy/viz/ui.py:1389-1394 | follows LeftMoveRight |
| UiWidgets.TextBox2D.LeftMoveLeft | dipy/viz/ui.py:1396-1401 | follows LeftMoveLeft |
| UiWidgets.TextBox2D.AddCharacter | dipy/viz/ui.py:1403-1422 | follows TextEditing.AddCharacter and keeps the box valid |
| UiWidgets.TextBox2D.RemoveCharacter | dipy/viz/ui.py:1424-1438 | follows TextEditing.RemoveCharacter and keeps the box valid |
| UiWidgets.TextBox2D.MoveLeft | dipy/viz/ui.py:1440-1449 | follows TextEditing.MoveLeft |
| UiWidgets.TextBox2D.MoveRight | dipy/viz/ui.py:1451-1460 | follows TextEditing.MoveRight |
| UiWidgets.TextBox2D.ShowableText | dipy/viz/ui.py:1462-1478 | returns TextEditing.ShowableText, never longer than the window |
| UiWidgets.TextBox2D.RenderText | dipy/viz/ui.py:1480-1492 | the message becomes Render of the box |
| UiWidgets.TextBox2D.EditMode | dipy/viz/ui.py:1494-1502 | follows TextEditing.EditMode and renders with the caret |
| TextEditing.SetMessage | dipy/viz/ui.py:1294-1308 | caret at the end of the message, window [0, len], placeholder cleared |
| TextEditing.EditMode | dipy/viz/ui.py:1494-1502 | the first call clears the placeholder text and puts the caret at 0; later calls change nothing |
| TextEditing.StepsKeepValid | dipy/viz/ui.py:1363-1401 | the caret steps clamp the caret into [0, len(text)] and the window steps never take a bound below 0 |
| TextEditing.CaretMoves | dipy/viz/ui.py:1440-1460 | move_left/move_right keep the text and move the caret by one within [0, len(text)] |
| TextEditing.AddKeepsValid | dipy/viz/ui.py:1403-1422 | inserting keeps the caret within the text and the window bounds non-negative |
| TextEditing.RemoveKeepsValid | dipy/viz/ui.py:1424-1438 | deleting keeps the box valid |
| TextEditing.HandleKeepsValid | dipy/viz/ui.py:1339-1361 | every key keeps the box valid |
| TextEditing.AddCharacterSpec | dipy/viz/ui.py:1403-1418 | multi-character keys other than "space" are ignored; otherwise exactly one character (" " for space) is inserted at the caret and the caret moves right by one |
| TextEditing.RemoveCharacterSpec | dipy/viz/ui.py:1424-1431 | at caret 0 nothing changes; otherwise exactly the character before the caret is removed and the caret moves left by one |
| TextEditing.RemoveUndoesAdd | dipy/viz/ui.py:1403-1431 | backspace after typing a character restores the text and the caret |
| TextEditing.AddUndoesRemove | dipy/viz/ui.py:1403-1431 | retyping the deleted character restores the text and the caret |
| TextEditing.HandleCharacterSpec | dipy/viz/ui.py:1349-1361 | "return" changes nothing, "left"/"right" keep the text, "backspace" removes, any other key is added |
| TextEditing.SetMessageShowsAll | dipy/viz/ui.py:1303-1308 | after set_message the showable text is the whole message (plus "_" at the end with the caret) |
| TextEditing.ShowableWindow | dipy/viz/ui.py:1462-1478 | the showable text is never longer than the window |
| TextEditing.ShowableNoBreaks | dipy/viz/ui.py:1462-1478 | a message without line breaks shows none, with or without the caret |
| TextEditing.RenderSpec | dipy/viz/ui.py:1480-1492 | the rendered message holds the showable text ("Enter Text" when empty) with line breaks added; no line is longer than the width, and every line ending in a break holds exactly width characters |
| LineBreaks.WidthSetText | dipy/viz/ui.py:1316-1337 | ZeroDivisionError exactly for width 0 and non-empty text; otherwise the result never ends in a newline |
| LineBreaks.WidthSetTextKeepsCharacters | dipy/viz/ui.py:1316-1337 | removing the newlines from the result gives back the text without its newlines |
| LineBreaks.WidthSetTextShortLines | dipy/viz/ui.py:1316-1337 | for text without newlines, no line of the result is longer than the width |
| LineBreaks.WidthSetTextFullLines | dipy/viz/ui.py:1316-1337 | for text without newlines, every line of the result that ends in a newline holds exactly `width` characters: a break follows every width-th character |
| LineBreaks.BrokenFullLines | dipy/viz/ui.py:1327-1335 | before stripping, every inserted newline closes a line of exactly `width` characters |
| LineBreaks.BrokenLines | dipy/viz/ui.py:1327-1335 | before stripping, the last line holds `len % width` characters and no line is longer than the width |
| LineBreaks.BrokenUnbroken | dipy/viz/ui.py:1327-1335 | inserting line breaks adds only newlines |
| LineBreaks.StripUnbroken | dipy/viz/ui.py:1337 | stripping trailing newlines removes only newlines |
| UiWidgets.LineSlider2D.constructor | dipy/viz/ui.py:1579-1637 | the slider is consistent and shows the initial value when it is within the limits |
| UiWidgets.LineSlider2D.SetPosition | dipy/viz/ui.py:1689-1707 | the disk is clamped into [center - length/2, center + length/2]; the ratio is in [0, 1] and the value between the limits |
| UiWidgets.LineSlider2D.RatioBounds | dipy/viz/ui.py:1734-1744 | a consistent slider has ratio in [0, 1] and value between the limits |
| UiWidgets.LineSlider2D.Update | dipy/viz/ui.py:1734-1744 | ratio and value are recomputed from the disk position |
| UiWidgets.LineSlider2D.SetRatio | dipy/viz/ui.py:1722-1725 | a ratio in [0, 1] is what the slider holds afterwards |
| UiWidgets.LineSlider2D.SetValue | dipy/viz/ui.py:1713-1716 | a value within the limits is what the slider holds afterwards |
| UiWidgets.LineSlider2D.SetCenter | dipy/viz/ui.py:1757-1774 | moving the slider keeps its ratio and value |
| UiWidgets.UnitQuotient | dipy/viz/ui.py:1740 | a position between the ends gives a ratio in [0, 1] |
| GuiWidgets.Button.constructor | dipy/viz/gui.py:33-38 | the first icon is current |
| GuiWidgets.Button.NextIconName | dipy/viz/gui.py:114-118 | the icon id advances by one modulo the number of icons |
| GuiWidgets.TextBox.constructor | dipy/viz/gui.py:179-198 | the box starts with the given text, caret and window at 0, placeholder flag set |
| GuiWidgets.TextBox.WidthSetText | dipy/viz/gui.py:244-261 | the loop computes LineBreaks.WidthSetText |
| GuiWidgets.TextBox.HandleCharacter | dipy/viz/gui.py:263-281 | the box follows TextEditing.HandleCharacter; "return" re-renders without the caret, every other key with it |
| GuiWidgets.TextBox.MoveCaretRight | dipy/viz/gui.py:283-289 | follows CaretRight |
| GuiWidgets.TextBox.MoveCaretLeft | dipy/viz/gui.py:291-297 | follows CaretLeft |
| GuiWidgets.TextBox.RightMoveRight | dipy/viz/gui.py:299-304 | follows RightMoveRight |
| GuiWidgets.TextBox.RightMoveLeft | dipy/viz/gui.py:306-311 | follows RightMoveLeft |
| GuiWidgets.TextBox.LeftMoveRight | dipy/viz/gui.py:313-318 | follows LeftMoveRight |
| GuiWidgets.TextBox.LeftMoveLeft | dipy/viz/gui.py:320-325 | follows LeftMoveLeft |
| GuiWidgets.TextBox.AddCharacter | dipy/viz/gui.py:327-346 | follows TextEditing.AddCharacter and keeps the box valid |
| GuiWidgets.TextBox.RemoveCharacter | dipy/viz/gui.py:348-364 | follows TextEditing.RemoveCharacter and keeps the box valid |
| GuiWidgets.TextBox.MoveLeft | dipy/viz/gui.py:366-374 | follows TextEditing.MoveLeft |
| GuiWidgets.TextBox.MoveRight | dipy/viz/gui.py:376-384 | follows TextEditing.MoveRight |
| GuiWidgets.TextBox.ShowableText | dipy/viz/gui.py:386-402 | returns TextEditing.ShowableText; with the whole text in the window it is the text, with "_" at the caret when asked |
| GuiWidgets.TextBox.RenderText | dipy/viz/gui.py:404-414 | the message becomes Render of the box |
| GuiWidgets.TextBox.EditMode | dipy/viz/gui.py:416-424 | follows TextEditing.EditMode and renders with the caret |
| GuiWidgets.SliderDisk.constructor | dipy/viz/gui.py:526-542 | the disk starts at the given position, its height fixed |
| GuiWidgets.SliderDisk.SetPosition | dipy/viz/gui.py:578-590 | x is clamped into [start, end] (end when the ends are reversed) and y stays at the disk's height |
| GuiWidgets.FloorDiv | dipy/viz/gui.py:617 | Python 2 integer `/` rounds toward minus infinity |
| GuiWidgets.Percentage | dipy/viz/gui.py:615-621 | the percentage is clamped into [0, 100] |
| GuiWidgets.PercentageSpec | dipy/viz/gui.py:615-621 | 0 at or before the start, 100 at or past the end, and the floor of the proportion in between |
| GuiWidgets.CalculatePercentage | dipy/viz/gui.py:615-621 | ZeroDivisionError exactly when the two ends coincide |
| GuiWidgets.CalculatePercentageReadsBack | dipy/viz/gui.py:615-621 | the label is the decimal percentage followed by "%" |
| GuiWidgets.SliderText.constructor | dipy/viz/gui.py:605-613 | the label starts as calculate_percentage of the current value |
| GuiWidgets.SliderText.SetPercentage | dipy/viz/gui.py:645-647 | the label becomes calculate_percentage of the new value |

## Left out

- VTK plumbing is not modelled: actors, mappers, renderers, callback registration, `force_render` and `event.abort`, colour setters on buttons, and text actor properties. Visibility is kept as a boolean per bundle and per centroid actor.
- QuickBundles, `distinguishable_colormap` and `line_colors` are parameters of an `Env` value. Their code is not part of this model. Three assumptions are made: the clusters partition the streamline indices; a non-empty bundle gives exactly one cluster at an infinite threshold; and `line_colors` returns one colour per streamline.
- Opacity values (`log10`), centroid tube widths (`log`) and the slider's text formatting are floating-point rendering details and are left out.
- `float(textbox.text)`, the threshold box's comparison with the slider maximum, and the preview that follows an entry are left out. `ThresholdBox.OnThresholdKey` stops where the finished entry is parsed, because float parsing is not modelled.
- The save button's file I/O is not modelled: `os.listdir`, `os.remove`, `os.makedirs` and `nib.streamlines.save`. The written files are returned as (name, streamlines) values.
- Argument parsing, `main`, the camera key, `draw_line` and the anatomy panel are process start-up or rendering code and are left out.
- The "c"/"C" keys and the centroids/streamlines toggle button call `show_centroids`/`hide_streamlines` on every bundle. This is modelled per bundle (`Bundle.ShowCentroids` and the others), but the loop over all bundles is not.
- The right-click and ctrl-click handlers only call `select`, which is modelled. Registering them is VTK plumbing.
- Panel dragging (`left_button_pressed`/`left_button_dragged`), `DiskSlider2D` (angles and trigonometry) and `format_text` are left out.
- `dipy.viz.gui_2d`, which the viewer imports its widgets from, is not part of this model. The threshold box is modelled with `TextBox2D` from `dipy/viz/ui.py`.
- `key_press_callback` of `UI` only forwards to a user handler and is left out.
- Vizu.StreamlinesVizu.Reset: the reset loop walks `bundles.items()` while removing entries. The model walks a snapshot of the keys in sorted order. The dictionary order of the original is unspecified, and Python 2 `.items()` returns a list, so the order of merged streamlines may differ from the program's.
- Vizu.StreamlinesVizu.constructor: takes the undo-memory size as `Option<nat>`. `--undo-memory-size` is parsed as any integer, and `collections.deque(maxlen=...)` raises ValueError for a negative size before the viewer exists. That error path is not modelled.
- Console messages (`print`) are not modelled.
- Vizu.StreamlinesVizu.Undo: the `print` of an unrecognised action is left out, because records only ever hold "like" or "dislike".
- Vizu.StreamlinesVizu.Select: the slider maximum set from the actor length (`GetLength() / 2`) and the default-threshold choice are not modelled. The slider value is a parameter.
- Bundles.Bundle.GetClusterAsBundles: the `NameError` branch for `clusters is None` cannot occur, because a bundle is always clustered. It is left out.
- UiWidgets.Button2D.constructor: requires at least one icon. The original raises IndexError on an empty icon dict before any state exists.
- GuiWidgets.Button.constructor: requires at least one icon, for the same reason.
- UiWidgets.TextBox2D.constructor: requires a positive width. The docstring defines the width as the number of characters in a single line of text. Under Python's `%` a negative width would break every |width| characters, and width 0 raises ZeroDivisionError on every later render; neither is modelled for the constructed box.
- GuiWidgets.TextBox.constructor: requires a positive width, for the same reason.
- UiWidgets.LineSlider2D.constructor: requires distinct limits and a positive length. Equal limits make the original divide by zero. The docstring defines the length as the length of the slider, so it is taken to be positive. A negative length raises no error in the original: `set_position` then clamps every position to `center + length/2`, so the ratio is always 1 and the value always `max_value`. That case is not modelled.
- GuiWidgets.SliderText.constructor: requires distinct ends, because the original divides by their difference.
- GuiWidgets.SliderText.SetPercentage: requires distinct ends, for the same reason.
- Strings.Lower: lower-cases ASCII letters only. Key names are ASCII.
- Python 3 behaviour is not modelled; the program is modelled as run by Python 2. Under Python 3, the true division in `calculate_percentage` would give a float label such as "33.333333333333336%", and removing entries while iterating `bundles.items()` in reset (bin/dipy_streamlines_viz.py:855-857) would raise RuntimeError.
- Real numbers stand for the slider's floats. Rounding is not modelled.

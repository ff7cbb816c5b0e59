/** Icon cycling of `Button2D` (dipy/viz/ui.py) and `Button`
    (dipy/viz/gui.py): each press moves to the next icon, back to the first
    after the last. */
module Icons {
  import opened Modulo

  /** `next_icon_name` on the index: one up, and 0 once it reaches the
      number `n` of icons. */
  function NextIcon(id: int, n: int): int
  {
    if id + 1 == n then 0 else id + 1
  }

  /** The icon index after `k` presses, starting from `id`. */
  function Pressed(id: int, n: int, k: nat): int
    decreases k
  {
    if k == 0 then id else NextIcon(Pressed(id, n, k - 1), n)
  }

  /** One press advances the index modulo the number of icons. */
  lemma NextIconModular(id: int, n: int)
    requires 0 <= id < n
    ensures NextIcon(id, n) == (id + 1) % n
  {
    ModNear(id + 1, n);
  }

  /** `k` presses advance the index by `k` modulo the number of icons. */
  lemma {:induction false} PressedModular(id: int, n: int, k: nat)
    requires 0 <= id < n
    ensures Pressed(id, n, k) == (id + k) % n
    decreases k
  {
    if k == 0 {
      ModNear(id, n);
    } else {
      PressedModular(id, n, k - 1);
      NextIconModular((id + k - 1) % n, n);
      ModAddLeft(id + k - 1, 1, n);
    }
  }

  /** As many presses as there are icons come back to the same icon. */
  lemma FullCycle(id: int, n: int)
    requires 0 <= id < n
    ensures Pressed(id, n, n) == id
  {
    PressedModular(id, n, n);
    ModUnique(id + n, 1, id, n);
  }
}

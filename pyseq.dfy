/** Python list and str operations on sequences: slicing with its index
    normalisation, `list.remove`, `list.index` and `str.rstrip`. */
module PySeq {

  /** How a slice bound `i` is normalised for a sequence of length `n`:
      negative bounds count from the end, and both are clamped into [0, n]. */
  function Clip(i: int, n: nat): (r: nat)
    ensures r <= n
    ensures 0 <= i <= n ==> r == i
    ensures i > n ==> r == n
    ensures i < 0 ==> r == (if i + n < 0 then 0 else i + n)
  {
    if i < 0 then (if i + n < 0 then 0 else i + n) else if i > n then n else i
  }

  /** Python's `s[lo:hi]`. */
  function Slice<T>(s: seq<T>, lo: int, hi: int): (r: seq<T>)
    ensures |r| <= |s|
    ensures Clip(lo, |s|) < Clip(hi, |s|) ==> r == s[Clip(lo, |s|)..Clip(hi, |s|)]
    ensures Clip(lo, |s|) >= Clip(hi, |s|) ==> r == []
  {
    var a, b := Clip(lo, |s|), Clip(hi, |s|);
    if a < b then s[a..b] else []
  }

  /** Python's `s[:-n]`: everything but the last `n` items, except that `s[:-0]` is `s[:0]`. */
  function DropLast<T>(s: seq<T>, n: nat): (r: seq<T>)
    ensures n == 0 ==> r == []
    ensures 0 < n <= |s| ==> r == s[..|s| - n]
    ensures n > |s| ==> r == []
  {
    Slice(s, 0, 0 - n as int)
  }

  /** Truncating by the length of what was appended gives back the original, provided something was appended. */
  lemma DropLastAppended<T>(s: seq<T>, t: seq<T>)
    requires |t| > 0
    ensures DropLast(s + t, |t|) == s
  {
    assert (s + t)[..|s|] == s;
  }

  /** `s[:-0]` loses everything, whatever was there before. */
  lemma DropLastOfNothingEmpties<T>(s: seq<T>)
    ensures DropLast(s + [], 0) == []
  {
  }

  /** Python's `list.index(x)`: the first position holding `x`. */
  function IndexOf<T(==)>(s: seq<T>, x: T): (r: nat)
    requires x in s
    ensures r < |s| && s[r] == x
  {
    if s[0] == x then 0 else 1 + IndexOf(s[1..], x)
  }

  /** `index` finds the first occurrence: no earlier position holds `x`. */
  lemma {:induction false} IndexOfIsFirst<T>(s: seq<T>, x: T, j: nat)
    requires x in s && j < IndexOf(s, x)
    ensures s[j] != x
  {
    if s[0] != x && j > 0 {
      IndexOfIsFirst(s[1..], x, j - 1);
    }
  }

  /** Python's `list.remove(x)`: drop the first occurrence of `x`. */
  function RemoveFirst<T(==)>(s: seq<T>, x: T): (r: seq<T>)
    requires x in s
    ensures |r| == |s| - 1
    ensures r == s[..IndexOf(s, x)] + s[IndexOf(s, x) + 1..]
  {
    var i := IndexOf(s, x);
    s[..i] + s[i + 1..]
  }

  /** `remove` takes away exactly one copy of `x` and keeps everything else. */
  lemma RemoveFirstPermutes<T>(s: seq<T>, x: T)
    requires x in s
    ensures multiset(RemoveFirst(s, x)) == multiset(s) - multiset{x}
  {
    var i := IndexOf(s, x);
    assert s == s[..i] + [x] + s[i + 1..];
  }

  predicate Distinct<T(==)>(s: seq<T>)
  {
    forall i, j :: 0 <= i < j < |s| ==> s[i] != s[j]
  }

  /** In a sequence without repetitions, `index` undoes indexing. */
  lemma IndexOfDistinct<T>(s: seq<T>, k: nat)
    requires Distinct(s) && k < |s|
    ensures IndexOf(s, s[k]) == k
  {
  }

  lemma {:induction false} DistinctCounts<T>(s: seq<T>)
    requires Distinct(s)
    ensures forall x :: multiset(s)[x] <= 1
  {
    if |s| > 0 {
      DistinctCounts(s[1..]);
      assert s == [s[0]] + s[1..];
      assert s[0] !in s[1..];
    }
  }

  lemma TwoOccurrences<T>(s: seq<T>, i: nat, j: nat)
    requires i < j < |s|
    ensures s[i] == s[j] ==> multiset(s)[s[i]] >= 2
  {
    assert s == s[..j] + s[j..];
    assert s[i] in s[..j];
    assert s[j] in s[j..];
    assert multiset(s) == multiset(s[..j]) + multiset(s[j..]);
  }

  lemma CountsDistinct<T>(s: seq<T>)
    requires forall x :: multiset(s)[x] <= 1
    ensures Distinct(s)
  {
    forall i, j | 0 <= i < j < |s|
      ensures s[i] != s[j]
    {
      TwoOccurrences(s, i, j);
    }
  }

  /** Distinctness depends only on the multiset of elements. */
  lemma DistinctPermutation<T>(s: seq<T>, t: seq<T>)
    requires multiset(s) == multiset(t) && Distinct(s)
    ensures Distinct(t)
  {
    DistinctCounts(s);
    CountsDistinct(t);
  }

  /** Python's `s.rstrip("\n")`. */
  function RStripNewlines(s: string): (r: string)
    ensures r <= s
    ensures |r| == 0 || r[|r| - 1] != '\n'
    ensures forall i :: |r| <= i < |s| ==> s[i] == '\n'
  {
    if |s| == 0 || s[|s| - 1] != '\n' then s else RStripNewlines(s[..|s| - 1])
  }
}

/** The bookkeeping half of a bundle of streamlines: its clusters at the last
    threshold, the colours that follow from them, its centroid actors and its
    visibility flags. Clustering, the colour palette and the per-line colour
    map are collaborators passed in as an `Env`. */
module Bundles {
  import opened Wrappers

  datatype Point = Point(x: real, y: real, z: real)

  /** A streamline is a polyline: a sequence of 3D points. */
  type Streamline = seq<Point>

  datatype Color = Color(r: real, g: real, b: real)

  const White := Color(1.0, 1.0, 1.0)
  const Blue := Color(0.0, 0.0, 1.0)

  /** A QuickBundles distance threshold in mm; the viewer also clusters at +infinity. */
  datatype Threshold = Finite(mm: real) | Infinite

  /** A cluster: its centroid and the positions of its members in the bundle. */
  datatype Cluster = Cluster(centroid: Streamline, indices: seq<nat>)

  /** A centroid drawn as a tube: the centroid, its colour and whether it shows. */
  datatype CentroidActor = CentroidActor(centroid: Streamline, color: Color, visible: bool)

  /** Every member position is a position of the bundle. */
  ghost predicate InRange(cs: seq<Cluster>, n: nat)
  {
    forall k, j :: 0 <= k < |cs| && 0 <= j < |cs[k].indices| ==> cs[k].indices[j] < n
  }

  /** No position is listed twice, in one cluster or across two. */
  ghost predicate Disjoint(cs: seq<Cluster>)
  {
    forall k1, j1, k2, j2 ::
      0 <= k1 < |cs| && 0 <= j1 < |cs[k1].indices| &&
      0 <= k2 < |cs| && 0 <= j2 < |cs[k2].indices| &&
      cs[k1].indices[j1] == cs[k2].indices[j2]
      ==> k1 == k2 && j1 == j2
  }

  /** Every position of the bundle belongs to some cluster. */
  ghost predicate Covers(cs: seq<Cluster>, n: nat)
  {
    forall i :: 0 <= i < n ==> Member(cs, i)
  }

  /** Position `i` is listed by some cluster. */
  ghost predicate Member(cs: seq<Cluster>, i: nat)
  {
    exists k, j :: 0 <= k < |cs| && 0 <= j < |cs[k].indices| && cs[k].indices[j] == i
  }

  /** The clusters' index lists partition [0, n) into non-empty parts. */
  ghost predicate Partition(cs: seq<Cluster>, n: nat)
  {
    && InRange(cs, n) && Disjoint(cs) && Covers(cs, n)
    && (forall k :: 0 <= k < |cs| ==> |cs[k].indices| > 0)
  }

  /** The collaborators a bundle calls: QuickBundles, the distinguishable
      colour map (as an infinite list of colours) and `line_colors`. */
  datatype Env = Env(
    quickBundles: (seq<Streamline>, Threshold) -> seq<Cluster>,
    palette: nat -> Color,
    lineColors: seq<Streamline> -> seq<Color>)
  {
    /** What the model relies on: clusters partition the streamlines, an
        infinite threshold puts all of them in one cluster, and there is one
        line colour per streamline. */
    ghost predicate Valid()
    {
      && (forall s, t :: Partition(quickBundles(s, t), |s|))
      && (forall s :: |s| > 0 ==> |quickBundles(s, Infinite)| == 1)
      && (forall s :: |lineColors(s)| == |s|)
    }
  }

  /** Number of points over all streamlines. */
  function PointCount(lines: seq<Streamline>): nat
  {
    if |lines| == 0 then 0 else PointCount(lines[..|lines| - 1]) + |lines[|lines| - 1]|
  }

  /** One colour per point, repeating each line's colour along that line. */
  function Spread(perLine: seq<Color>, lines: seq<Streamline>): (r: seq<Color>)
    requires |perLine| == |lines|
    ensures |r| == PointCount(lines)
  {
    if |lines| == 0 then []
    else
      var m := |lines| - 1;
      Spread(perLine[..m], lines[..m]) + seq(|lines[m]|, _ => perLine[m])
  }

  /** The point colours a bundle shows when it is one cluster: its own colour
      on every point, or else the per-line colour map. */
  function OriginalColors(env: Env, lines: seq<Streamline>, color: Option<Color>): (r: seq<Color>)
    requires env.Valid()
    ensures |r| == PointCount(lines)
    ensures color.Some? ==> forall p :: 0 <= p < |r| ==> r[p] == color.value
  {
    if color.Some? then seq(PointCount(lines), _ => color.value)
    else Spread(env.lineColors(lines), lines)
  }

  /** The colours given to the clusters: the bundle's own colour (blue when it
      has none) for a single cluster, otherwise the palette in order. */
  function ClusterColors(env: Env, cs: seq<Cluster>, color: Option<Color>): (r: seq<Color>)
    ensures |r| == |cs|
    ensures |cs| == 1 ==> r[0] == (if color.Some? then color.value else Blue)
    ensures |cs| != 1 ==> forall k :: 0 <= k < |cs| ==> r[k] == env.palette(k)
  {
    if |cs| == 1 then [if color.Some? then color.value else Blue]
    else seq(|cs|, k requires 0 <= k => env.palette(k))
  }

  /** Every member of cluster k has cluster k's colour. */
  ghost predicate Painted(lineColors: seq<Color>, cs: seq<Cluster>, colors: seq<Color>)
  {
    forall k, j :: 0 <= k < |cs| && 0 <= j < |cs[k].indices| ==>
      cs[k].indices[j] < |lineColors| && k < |colors| && lineColors[cs[k].indices[j]] == colors[k]
  }

  /** One actor per cluster, drawn in that cluster's colour. */
  function CentroidActors(cs: seq<Cluster>, colors: seq<Color>, visible: bool): (r: seq<CentroidActor>)
    requires |colors| == |cs|
    ensures |r| == |cs|
    ensures forall k :: 0 <= k < |cs| ==> r[k].centroid == cs[k].centroid && r[k].color == colors[k]
    ensures forall a :: a in r ==> a.visible == visible
  {
    seq(|cs|, k requires 0 <= k < |cs| => CentroidActor(cs[k].centroid, colors[k], visible))
  }

  /** The streamlines at the given positions, in that order. */
  function Gather(s: seq<Streamline>, idx: seq<nat>): (r: seq<Streamline>)
    requires forall j :: 0 <= j < |idx| ==> idx[j] < |s|
    ensures |r| == |idx|
    ensures forall j :: 0 <= j < |idx| ==> r[j] == s[idx[j]]
  {
    seq(|idx|, j requires 0 <= j < |idx| => s[idx[j]])
  }

  /** Total number of member positions over all clusters. */
  function ClusterSizes(cs: seq<Cluster>): nat
  {
    if |cs| == 0 then 0 else ClusterSizes(cs[..|cs| - 1]) + |cs[|cs| - 1].indices|
  }

  /** All member positions, cluster after cluster. */
  function Flatten(cs: seq<Cluster>): (r: seq<nat>)
    ensures |r| == ClusterSizes(cs)
  {
    if |cs| == 0 then [] else Flatten(cs[..|cs| - 1]) + cs[|cs| - 1].indices
  }

  predicate DistinctNats(s: seq<nat>)
  {
    forall i, j :: 0 <= i < j < |s| ==> s[i] != s[j]
  }

  lemma {:induction false} FlattenMembers(cs: seq<Cluster>, x: nat)
    ensures x in Flatten(cs) <==> Member(cs, x)
  {
    if |cs| > 0 {
      var m := |cs| - 1;
      var p := cs[..m];
      FlattenMembers(p, x);
      if x in Flatten(cs) {
        if x in Flatten(p) {
          var k, j :| 0 <= k < |p| && 0 <= j < |p[k].indices| && p[k].indices[j] == x;
          assert cs[k].indices[j] == x;
        } else {
          assert x in cs[m].indices;
          var j :| 0 <= j < |cs[m].indices| && cs[m].indices[j] == x;
        }
      }
      if Member(cs, x) {
        var k, j :| 0 <= k < |cs| && 0 <= j < |cs[k].indices| && cs[k].indices[j] == x;
        if k < m {
          assert p[k].indices[j] == x;
        } else {
          assert x in cs[m].indices;
        }
      }
    }
  }

  lemma DistinctConcat(a: seq<nat>, b: seq<nat>)
    requires DistinctNats(a) && DistinctNats(b)
    requires forall x :: x in a ==> x !in b
    ensures DistinctNats(a + b)
  {
    forall i, j | 0 <= i < j < |a + b| ensures (a + b)[i] != (a + b)[j] {
      if j >= |a| && i < |a| {
        assert (a + b)[i] in a;
        assert (a + b)[j] == b[j - |a|];
      }
    }
  }

  lemma {:induction false} FlattenDistinct(cs: seq<Cluster>)
    requires Disjoint(cs)
    ensures DistinctNats(Flatten(cs))
  {
    if |cs| > 0 {
      var m := |cs| - 1;
      var p := cs[..m];
      assert Disjoint(p) by {
        forall k1, j1, k2, j2 |
          0 <= k1 < |p| && 0 <= j1 < |p[k1].indices| &&
          0 <= k2 < |p| && 0 <= j2 < |p[k2].indices| &&
          p[k1].indices[j1] == p[k2].indices[j2]
          ensures k1 == k2 && j1 == j2
        {
          assert cs[k1].indices[j1] == cs[k2].indices[j2];
        }
      }
      FlattenDistinct(p);
      var last := cs[m].indices;
      assert DistinctNats(last) by {
        forall i, j | 0 <= i < j < |last| ensures last[i] != last[j] {
          assert cs[m].indices[i] != cs[m].indices[j];
        }
      }
      forall x | x in Flatten(p) ensures x !in last {
        FlattenMembers(p, x);
        var k, j :| 0 <= k < |p| && 0 <= j < |p[k].indices| && p[k].indices[j] == x;
        forall j' | 0 <= j' < |last| ensures last[j'] != x {
          assert cs[k].indices[j] == x;
        }
      }
      DistinctConcat(Flatten(p), last);
    }
  }

  function Elements(s: seq<nat>): (r: set<nat>)
    ensures forall x :: x in r <==> x in s
  {
    set x | x in s
  }

  /** The positions 0 .. n-1. */
  function Range(n: nat): (r: set<nat>)
    ensures forall x :: x in r <==> 0 <= x < n
    ensures |r| == n
  {
    if n == 0 then {}
    else
      var r := Range(n - 1);
      assert forall x :: x in r + {n - 1} <==> x in r || x == n - 1;
      r + {n - 1}
  }

  lemma {:induction false} DistinctCard(s: seq<nat>)
    requires DistinctNats(s)
    ensures |Elements(s)| == |s|
  {
    if |s| > 0 {
      var m := |s| - 1;
      var p := s[..m];
      assert DistinctNats(p);
      DistinctCard(p);
      assert s == p + [s[m]];
      assert Elements(s) == Elements(p) + {s[m]};
      assert s[m] !in Elements(p);
    }
  }

  /** Splitting along a partition neither loses nor duplicates a streamline:
      the cluster sizes add up to the size of the bundle. */
  lemma PartitionSizes(cs: seq<Cluster>, n: nat)
    requires Partition(cs, n)
    ensures ClusterSizes(cs) == n
  {
    var f := Flatten(cs);
    FlattenDistinct(cs);
    DistinctCard(f);
    forall x | x in f ensures x < n {
      FlattenMembers(cs, x);
    }
    forall i | 0 <= i < n ensures i in f {
      FlattenMembers(cs, i);
    }
    assert Elements(f) == Range(n);
  }

  /** Total number of streamlines held by a list of bundles. */
  function TotalSize(bs: seq<Bundle>): nat
  {
    if |bs| == 0 then 0 else TotalSize(bs[..|bs| - 1]) + |bs[|bs| - 1].streamlines|
  }

  lemma {:induction false} TotalSizeMatches(bs: seq<Bundle>, cs: seq<Cluster>)
    requires |bs| == |cs|
    requires forall k :: 0 <= k < |bs| ==> |bs[k].streamlines| == |cs[k].indices|
    ensures TotalSize(bs) == ClusterSizes(cs)
  {
    if |bs| > 0 {
      var m := |bs| - 1;
      TotalSizeMatches(bs[..m], cs[..m]);
    }
  }

  class Bundle {
    const env: Env
    const streamlines: seq<Streamline>
    const color: Option<Color>
    const centroid: Option<Streamline>
    const thresholdUsed: Threshold
    const originalColors: seq<Color>

    var lastThreshold: Threshold
    var clusters: seq<Cluster>
    var clustersColors: seq<Color>
    /** One colour per streamline, written cluster by cluster. */
    var streamlinesColors: seq<Color>
    /** The per-point colours the streamlines actor shows. */
    var pointColors: seq<Color>
    var hasChanged: bool
    var centroidActors: seq<CentroidActor>
    var centroidsVisible: bool
    var streamlinesVisible: bool
    /** Visibility of the streamlines actor itself. */
    var actorVisible: bool

    /** The clusters are those of the last threshold, coloured as `_cluster` colours them. */
    ghost predicate ClusterState()
      reads this`lastThreshold, this`clusters, this`clustersColors, this`streamlinesColors, this`pointColors
    {
      && env.Valid()
      && |streamlinesColors| == |streamlines|
      && originalColors == OriginalColors(env, streamlines, color)
      && clusters == env.quickBundles(streamlines, lastThreshold)
      && clustersColors == ClusterColors(env, clusters, color)
      && (|clusters| == 1 ==> pointColors == originalColors)
      && (|clusters| != 1 ==>
            Painted(streamlinesColors, clusters, clustersColors) && pointColors == Spread(streamlinesColors, streamlines))
    }

    /** Every centroid actor shows exactly when centroids are visible, and
        when nothing changed since the last update the actors match the clusters. */
    ghost predicate ActorState()
      reads this`clusters, this`clustersColors, this`hasChanged, this`centroidActors, this`centroidsVisible
    {
      && (forall a :: a in centroidActors ==> a.visible == centroidsVisible)
      && (!hasChanged && |clustersColors| == |clusters| ==>
            centroidActors == CentroidActors(clusters, clustersColors, centroidsVisible))
    }

    ghost predicate Valid()
      reads this`lastThreshold, this`clusters, this`clustersColors, this`streamlinesColors,
            this`pointColors, this`hasChanged, this`centroidActors, this`centroidsVisible
    {
      ClusterState() && ActorState()
    }

    constructor (env: Env, streamlines: seq<Streamline>, centroid: Option<Streamline>,
                 thresholdUsed: Threshold, color: Option<Color>)
      requires env.Valid()
      ensures Valid()
      ensures this.env == env && this.streamlines == streamlines && this.centroid == centroid
      ensures this.thresholdUsed == thresholdUsed && this.color == color
      ensures lastThreshold == Infinite && hasChanged && centroidActors == []
      ensures !centroidsVisible && streamlinesVisible && actorVisible
      ensures |streamlines| > 0 ==> |clusters| == 1 && pointColors == originalColors
    {
      this.env := env;
      this.streamlines := streamlines;
      this.color := color;
      this.centroid := centroid;
      this.thresholdUsed := thresholdUsed;
      originalColors := OriginalColors(env, streamlines, color);
      lastThreshold := Infinite;
      clusters := [];
      clustersColors := [];
      streamlinesColors := seq(|streamlines|, _ => White);
      pointColors := [];
      hasChanged := true;
      centroidActors := [];
      centroidsVisible := false;
      streamlinesVisible := true;
      actorVisible := true;
      new;
      ClusterAt(Infinite);
    }

    /** `_cluster`: recluster at `threshold` and recolour. A single cluster shows
        the original colours; otherwise each streamline takes its cluster's colour. */
    method ClusterAt(threshold: Threshold)
      requires env.Valid() && |streamlinesColors| == |streamlines|
      requires originalColors == OriginalColors(env, streamlines, color)
      requires forall a :: a in centroidActors ==> a.visible == centroidsVisible
      modifies this`lastThreshold, this`clusters, this`clustersColors, this`streamlinesColors,
               this`pointColors, this`hasChanged
      ensures Valid()
      ensures lastThreshold == threshold && hasChanged
      ensures clusters == env.quickBundles(streamlines, threshold)
      ensures |clusters| == 1 ==> streamlinesColors == old(streamlinesColors)
    {
      var cs := env.quickBundles(streamlines, threshold);
      var colors := seq(|cs|, k requires 0 <= k => env.palette(k));
      lastThreshold := threshold;
      clusters := cs;
      clustersColors := colors;
      hasChanged := true;
      if |cs| == 1 {
        clustersColors := [if color.Some? then color.value else Blue];
        pointColors := originalColors;
        return;
      }
      assert Partition(cs, |streamlines|);
      var lineColors := streamlinesColors;
      var k := 0;
      while k < |cs|
        invariant 0 <= k <= |cs|
        invariant |lineColors| == |streamlines|
        invariant forall k', j :: 0 <= k' < k && 0 <= j < |cs[k'].indices| ==> lineColors[cs[k'].indices[j]] == colors[k']
      {
        var idx := cs[k].indices;
        var j := 0;
        while j < |idx|
          invariant 0 <= j <= |idx|
          invariant |lineColors| == |streamlines|
          invariant forall k', j' :: 0 <= k' < k && 0 <= j' < |cs[k'].indices| ==> lineColors[cs[k'].indices[j']] == colors[k']
          invariant forall j' :: 0 <= j' < j ==> lineColors[idx[j']] == colors[k]
        {
          lineColors := lineColors[idx[j] := colors[k]];
          j := j + 1;
        }
        k := k + 1;
      }
      var pointCols: seq<Color> := [];
      var i := 0;
      while i < |streamlines|
        invariant 0 <= i <= |streamlines|
        invariant pointCols == Spread(lineColors[..i], streamlines[..i])
      {
        assert lineColors[..i + 1][..i] == lineColors[..i];
        assert streamlines[..i + 1][..i] == streamlines[..i];
        var c := lineColors[i];
        pointCols := pointCols + seq(|streamlines[i]|, _ => c);
        i := i + 1;
      }
      assert lineColors[..i] == lineColors && streamlines[..i] == streamlines;
      streamlinesColors := lineColors;
      pointColors := pointCols;
    }

    /** Rebuild the centroid actors if the clusters changed since the last update. */
    method Update()
      requires Valid()
      modifies this`hasChanged, this`centroidActors
      ensures Valid() && !hasChanged
      ensures centroidActors == CentroidActors(clusters, clustersColors, centroidsVisible)
      ensures !old(hasChanged) ==> centroidActors == old(centroidActors)
    {
      if !hasChanged {
        return;
      }
      hasChanged := false;
      var actors: seq<CentroidActor> := [];
      var k := 0;
      while k < |clusters|
        invariant 0 <= k <= |clusters|
        invariant actors == CentroidActors(clusters[..k], clustersColors[..k], centroidsVisible)
      {
        actors := actors + [CentroidActor(clusters[k].centroid, clustersColors[k], centroidsVisible)];
        k := k + 1;
      }
      assert clusters[..k] == clusters && clustersColors[..k] == clustersColors;
      centroidActors := actors;
    }

    method ShowCentroids()
      requires Valid()
      modifies this`hasChanged, this`centroidActors, this`centroidsVisible
      ensures Valid() && !hasChanged && centroidsVisible
      ensures centroidActors == CentroidActors(clusters, clustersColors, true)
    {
      Update();
      centroidsVisible := true;
      var acts := centroidActors;
      var i := 0;
      while i < |acts|
        invariant 0 <= i <= |acts| == |clusters|
        invariant forall k :: 0 <= k < |clusters| ==> acts[k].centroid == clusters[k].centroid && acts[k].color == clustersColors[k]
        invariant forall k :: 0 <= k < i ==> acts[k].visible
      {
        acts := acts[i := acts[i].(visible := true)];
        i := i + 1;
      }
      centroidActors := acts;
    }

    method HideCentroids()
      requires Valid()
      modifies this`centroidActors, this`centroidsVisible
      ensures Valid() && !centroidsVisible
      ensures |centroidActors| == |old(centroidActors)|
      ensures forall k :: 0 <= k < |centroidActors| ==> centroidActors[k] == old(centroidActors[k]).(visible := false)
    {
      centroidsVisible := false;
      var acts := centroidActors;
      var i := 0;
      while i < |acts|
        invariant 0 <= i <= |acts| == |old(centroidActors)|
        invariant forall k :: 0 <= k < i ==> acts[k] == old(centroidActors[k]).(visible := false)
        invariant forall k :: i <= k < |acts| ==> acts[k] == old(centroidActors[k])
      {
        acts := acts[i := acts[i].(visible := false)];
        i := i + 1;
      }
      centroidActors := acts;
    }

    method ShowStreamlines()
      modifies this`streamlinesVisible, this`actorVisible
      ensures streamlinesVisible && actorVisible
    {
      streamlinesVisible := true;
      actorVisible := true;
    }

    method HideStreamlines()
      modifies this`streamlinesVisible, this`actorVisible
      ensures !streamlinesVisible && !actorVisible
    {
      streamlinesVisible := false;
      actorVisible := false;
    }

    /** Recluster at `threshold`, update the actors, and report the number of clusters. */
    method Preview(threshold: Threshold) returns (count: nat)
      requires Valid()
      modifies this`lastThreshold, this`clusters, this`clustersColors, this`streamlinesColors,
               this`pointColors, this`hasChanged, this`centroidActors
      ensures Valid() && !hasChanged
      ensures lastThreshold == threshold && clusters == env.quickBundles(streamlines, threshold)
      ensures count == |clusters|
      ensures centroidActors == CentroidActors(clusters, clustersColors, centroidsVisible)
    {
      ClusterAt(threshold);
      Update();
      count := |clusters|;
    }

    /** Back to a single cluster shown in the bundle's original colours. */
    method Reset()
      requires Valid()
      modifies this`lastThreshold, this`clusters, this`clustersColors, this`streamlinesColors,
               this`pointColors, this`hasChanged, this`centroidActors
      ensures Valid() && !hasChanged && lastThreshold == Infinite
      ensures |streamlines| > 0 ==> |clusters| == 1 && pointColors == originalColors
      ensures centroidActors == CentroidActors(clusters, clustersColors, centroidsVisible)
    {
      ClusterAt(Infinite);
      Update();
    }

    /** The colour a child bundle gets: the parent's own when there is a single
        cluster, otherwise its cluster's colour. */
    function ChildColor(k: nat): (c: Option<Color>)
      reads this`clusters, this`clustersColors
      requires k < |clusters| == |clustersColors|
      ensures |clusters| == 1 ==> c == color
      ensures |clusters| != 1 ==> c == Some(clustersColors[k])
    {
      if |clusters| == 1 then color else Some(clustersColors[k])
    }

    /** `b` is the bundle made from cluster `k`: that cluster's streamlines,
        its centroid, the last threshold, and the colour ChildColor gives. */
    ghost predicate IsChild(b: Bundle, k: nat)
      reads this`clusters, this`clustersColors, this`lastThreshold
      reads b`lastThreshold, b`clusters, b`clustersColors, b`streamlinesColors,
            b`pointColors, b`hasChanged, b`centroidActors, b`centroidsVisible
    {
      && k < |clusters| == |clustersColors|
      && InRange(clusters, |streamlines|)
      && b.Valid() && b.env == env
      && b.streamlines == Gather(streamlines, clusters[k].indices)
      && b.centroid == Some(clusters[k].centroid)
      && b.thresholdUsed == lastThreshold
      && b.color == ChildColor(k)
    }

    /** One new bundle per cluster, holding that cluster's streamlines; together
        they hold exactly as many streamlines as this bundle. */
    method GetClusterAsBundles() returns (children: seq<Bundle>)
      requires Valid()
      ensures |children| == |clusters|
      ensures forall k :: 0 <= k < |children| ==> fresh(children[k]) && IsChild(children[k], k)
      ensures forall i, j :: 0 <= i < j < |children| ==> children[i] != children[j]
      ensures TotalSize(children) == |streamlines|
    {
      assert Partition(clusters, |streamlines|);
      children := [];
      var k := 0;
      while k < |clusters|
        invariant 0 <= k <= |clusters|
        invariant |children| == k
        invariant forall i :: 0 <= i < k ==> fresh(children[i]) && IsChild(children[i], i)
        invariant forall i, j :: 0 <= i < j < k ==> children[i] != children[j]
      {
        var b := new Bundle(env, Gather(streamlines, clusters[k].indices), Some(clusters[k].centroid),
                            lastThreshold, ChildColor(k));
        assert IsChild(b, k);
        children := children + [b];
        k := k + 1;
      }
      TotalSizeMatches(children, clusters);
      PartitionSizes(clusters, |streamlines|);
    }
  }
}

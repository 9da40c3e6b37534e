/** Online greedy clustering of session summaries: each summary is embedded,
    then joins the existing cluster whose centroid it is most similar to
    (when that similarity reaches the threshold) or starts a new cluster. */
module Clustering {
  import opened Wrappers
  import opened Strings

  const DefaultSimilarityThreshold: real := 0.8
  /** The text embedded for a blank or missing summary. */
  const PlaceholderText: string := "Short chat"
  /** The label source when the first member has no summary. */
  const DefaultGroupName: string := "Conversation group"
  const NameSnippetLength: nat := 40
  /** The mood key of a member without a mood. */
  const UnknownMood: string := "unknown"

  type Vector = seq<real>
  /** Cosine similarity, left abstract. */
  type Similarity = (Vector, Vector) -> real
  /** The embedding service; `None` is a failed call. */
  type Embedder = string -> Option<Vector>

  /** An analysed session as the clusterer reads it. An empty `summary` or
      `mood` stands for a missing or empty field. */
  datatype Segment = Segment(id: int, summary: string, mood: string)
  /** `{ ...seg, embedding }`. */
  datatype Item = Item(segment: Segment, embedding: Vector)
  datatype Cluster = Cluster(items: seq<Item>, centroid: Vector)
  /** One output record. */
  datatype Theme = Theme(name: string, segmentIds: seq<int>, moodCounts: map<string, nat>)
  datatype Outcome = Themes(themes: seq<Theme>) | EmbeddingFailed

  // ---------------------------------------------------------------------
  // averageVectors

  /** Component `i` of `v`; vectors of the source all share one length, so
      the 0.0 for a missing component is never read. */
  function Component(v: Vector, i: nat): real {
    if i < |v| then v[i] else 0.0
  }

  /** The sum of component `i` over all vectors. */
  function ColumnSum(vs: seq<Vector>, i: nat): real {
    if vs == [] then 0.0 else ColumnSum(vs[..|vs| - 1], i) + Component(vs[|vs| - 1], i)
  }

  /** The element-wise mean: `[]` for no vectors, else a vector of the first
      vector's length whose component `i` is the mean of the components `i`. */
  function Mean(vs: seq<Vector>): (r: Vector)
    ensures vs == [] ==> r == []
    ensures vs != [] ==> |r| == |vs[0]|
    ensures forall i :: 0 <= i < |r| ==> r[i] == ColumnSum(vs, i) / (|vs| as real)
  {
    if vs == [] then []
    else seq(|vs[0]|, i requires 0 <= i < |vs[0]| => ColumnSum(vs, i) / (|vs| as real))
  }

  /** The mean of a single vector is that vector: a singleton cluster's
      centroid is its member's embedding. */
  lemma MeanOfOne(v: Vector)
    ensures Mean([v]) == v
  {
    MeanOfCopies([v], v);
  }

  /** The mean of one or more copies of a vector is that vector: a cluster
      whose members share one embedding has it as its centroid. */
  lemma MeanOfCopies(vs: seq<Vector>, v: Vector)
    requires vs != [] && forall k :: 0 <= k < |vs| ==> vs[k] == v
    ensures Mean(vs) == v
  {
    assert vs[0] == v;
    forall i | 0 <= i < |v| ensures Mean(vs)[i] == v[i] {
      ColumnSumOfCopies(vs, v, i);
    }
  }

  /** Summing component `i` over copies of one vector gives their number
      times that component. */
  lemma {:induction false} ColumnSumOfCopies(vs: seq<Vector>, v: Vector, i: nat)
    requires forall k :: 0 <= k < |vs| ==> vs[k] == v
    ensures ColumnSum(vs, i) == (|vs| as real) * Component(v, i)
  {
    if vs != [] {
      ColumnSumOfCopies(vs[..|vs| - 1], v, i);
    }
  }

  /** All vectors have `dim` components. */
  predicate SameLength(vs: seq<Vector>, dim: nat) {
    forall k :: 0 <= k < |vs| ==> |vs[k]| == dim
  }

  /** `averageVectors(vectors)`, with its accumulator loops. */
  method AverageVectors(vectors: seq<Vector>) returns (out: Vector)
    requires vectors != [] ==> SameLength(vectors, |vectors[0]|)
    ensures out == Mean(vectors)
  {
    if |vectors| == 0 {
      return [];
    }
    var dim := |vectors[0]|;
    var acc := new real[dim](_ => 0.0);
    for j := 0 to |vectors|
      invariant forall i :: 0 <= i < dim ==> acc[i] == ColumnSum(vectors[..j], i)
    {
      assert vectors[..j + 1][..j] == vectors[..j];
      for i := 0 to dim
        invariant forall i' :: 0 <= i' < i ==> acc[i'] == ColumnSum(vectors[..j + 1], i')
        invariant forall i' :: i <= i' < dim ==> acc[i'] == ColumnSum(vectors[..j], i')
      {
        acc[i] := acc[i] + vectors[j][i];
      }
    }
    assert vectors[..|vectors|] == vectors;
    for i := 0 to dim
      invariant forall i' :: 0 <= i' < i ==> acc[i'] == ColumnSum(vectors, i') / (|vectors| as real)
      invariant forall i' :: i <= i' < dim ==> acc[i'] == ColumnSum(vectors, i')
    {
      acc[i] := acc[i] / (|vectors| as real);
    }
    out := acc[..];
  }

  // ---------------------------------------------------------------------
  // Assignment

  function Embeddings(items: seq<Item>): (r: seq<Vector>)
    ensures |r| == |items|
    ensures forall k :: 0 <= k < |items| ==> r[k] == items[k].embedding
  {
    if items == [] then [] else [items[0].embedding] + Embeddings(items[1..])
  }

  /** The scan over the first `n` clusters: the first cluster reaching the
      strictly greatest similarity, which must exceed 0 (the initial best
      score), with that score. */
  function BestOf(e: Vector, cs: seq<Cluster>, n: nat, sim: Similarity): (r: (Option<nat>, real))
    requires n <= |cs|
    ensures r.0.None? ==> r.1 == 0.0 && forall k :: 0 <= k < n ==> sim(e, cs[k].centroid) <= 0.0
    ensures r.0.Some? ==> && r.0.value < n && r.1 == sim(e, cs[r.0.value].centroid) && r.1 > 0.0
                          && (forall k :: 0 <= k < n ==> sim(e, cs[k].centroid) <= r.1)
                          && (forall k :: 0 <= k < r.0.value ==> sim(e, cs[k].centroid) < r.1)
  {
    if n == 0 then (None, 0.0)
    else
      var p := BestOf(e, cs, n - 1, sim);
      var s := sim(e, cs[n - 1].centroid);
      if s > p.1 then (Some(n - 1), s) else p
  }

  /** The item joins the best cluster iff there is one and its score reaches the threshold. */
  predicate Joins(cs: seq<Cluster>, it: Item, sim: Similarity, threshold: real) {
    var b := BestOf(it.embedding, cs, |cs|, sim);
    b.0.Some? && b.1 >= threshold
  }

  /** The index of the cluster the item ends up in. */
  function Target(cs: seq<Cluster>, it: Item, sim: Similarity, threshold: real): (k: nat)
    ensures k <= |cs|
    ensures k == |cs| <==> !Joins(cs, it, sim, threshold)
  {
    if Joins(cs, it, sim, threshold) then BestOf(it.embedding, cs, |cs|, sim).0.value else |cs|
  }

  /** One step of the assignment loop. */
  function Assign(cs: seq<Cluster>, it: Item, sim: Similarity, threshold: real): (r: seq<Cluster>)
    ensures |r| == if Joins(cs, it, sim, threshold) then |cs| else |cs| + 1
  {
    if Joins(cs, it, sim, threshold) then
      var b := Target(cs, it, sim, threshold);
      var members := cs[b].items + [it];
      cs[b := Cluster(members, Mean(Embeddings(members)))]
    else cs + [Cluster([it], it.embedding)]
  }

  /** The clusters after the first `n` items. */
  function ClustersOf(items: seq<Item>, n: nat, sim: Similarity, threshold: real): seq<Cluster>
    requires n <= |items|
  {
    if n == 0 then [] else Assign(ClustersOf(items, n - 1, sim, threshold), items[n - 1], sim, threshold)
  }

  /** The cluster index each of the first `n` items was placed in. */
  function Labels(items: seq<Item>, n: nat, sim: Similarity, threshold: real): (r: seq<nat>)
    requires n <= |items|
    ensures |r| == n
  {
    if n == 0 then []
    else Labels(items, n - 1, sim, threshold) + [Target(ClustersOf(items, n - 1, sim, threshold), items[n - 1], sim, threshold)]
  }

  /** The items labelled `k`, in processing order. */
  function Members(items: seq<Item>, labels: seq<nat>, k: nat): seq<Item>
    requires |labels| == |items|
  {
    if items == [] then []
    else (Members(items[..|items| - 1], labels[..|labels| - 1], k)
          + if labels[|labels| - 1] == k then [items[|items| - 1]] else [])
  }

  lemma MembersNone(items: seq<Item>, labels: seq<nat>, k: nat)
    requires |labels| == |items|
    requires forall j :: 0 <= j < |labels| ==> labels[j] < k
    ensures Members(items, labels, k) == []
  {
    if items != [] {
      MembersNone(items[..|items| - 1], labels[..|labels| - 1], k);
    }
  }

  /** Every cluster is non-empty and its centroid is the mean of its
      members' embeddings. */
  predicate CentroidsCurrent(cs: seq<Cluster>) {
    forall k :: 0 <= k < |cs| ==> cs[k].items != [] && cs[k].centroid == Mean(Embeddings(cs[k].items))
  }

  /** After every insertion each centroid equals the mean of its members. */
  lemma {:induction false} CentroidInvariant(items: seq<Item>, n: nat, sim: Similarity, threshold: real)
    requires n <= |items|
    ensures CentroidsCurrent(ClustersOf(items, n, sim, threshold))
  {
    if n > 0 {
      var cs := ClustersOf(items, n - 1, sim, threshold);
      CentroidInvariant(items, n - 1, sim, threshold);
      var it := items[n - 1];
      if !Joins(cs, it, sim, threshold) {
        MeanOfOne(it.embedding);
        assert Embeddings([it]) == [it.embedding];
      }
    }
  }

  /** Placement: item `j` lies in exactly the cluster `Labels[j]`, every
      cluster holds exactly the items labelled with its index in processing
      order, and there are never more clusters than items. */
  lemma {:induction false} Placement(items: seq<Item>, n: nat, sim: Similarity, threshold: real)
    requires n <= |items|
    ensures |ClustersOf(items, n, sim, threshold)| <= n
    ensures forall j :: 0 <= j < n ==> Labels(items, n, sim, threshold)[j] < |ClustersOf(items, n, sim, threshold)|
    ensures forall k :: 0 <= k < |ClustersOf(items, n, sim, threshold)| ==>
      ClustersOf(items, n, sim, threshold)[k].items == Members(items[..n], Labels(items, n, sim, threshold), k)
  {
    if n > 0 {
      Placement(items, n - 1, sim, threshold);
      var it := items[n - 1];
      assert items[..n] == items[..n - 1] + [it];
      AssignPlaces(ClustersOf(items, n - 1, sim, threshold), Labels(items, n - 1, sim, threshold),
                   items[..n - 1], it, sim, threshold);
    }
  }

  /** One assignment step keeps the placement. */
  lemma AssignPlaces(cs: seq<Cluster>, ls: seq<nat>, xs: seq<Item>, it: Item, sim: Similarity, threshold: real)
    requires |ls| == |xs|
    requires forall j :: 0 <= j < |ls| ==> ls[j] < |cs|
    requires forall k :: 0 <= k < |cs| ==> cs[k].items == Members(xs, ls, k)
    ensures var ls' := ls + [Target(cs, it, sim, threshold)];
      && (forall j :: 0 <= j < |ls'| ==> ls'[j] < |Assign(cs, it, sim, threshold)|)
      && forall k :: 0 <= k < |Assign(cs, it, sim, threshold)| ==>
           Assign(cs, it, sim, threshold)[k].items == Members(xs + [it], ls', k)
  {
    var t := Target(cs, it, sim, threshold);
    var cs' := Assign(cs, it, sim, threshold);
    var ls' := ls + [t];
    assert (xs + [it])[..|xs|] == xs;
    assert ls'[..|ls|] == ls;
    forall k | 0 <= k < |cs'|
      ensures cs'[k].items == Members(xs + [it], ls', k)
    {
      assert Members(xs + [it], ls', k) == Members(xs, ls, k) + (if t == k then [it] else []);
      if k == |cs| {
        MembersNone(xs, ls, k);
      }
    }
  }

  // ---------------------------------------------------------------------
  // Output records

  /** `it.mood || "unknown"`. */
  function MoodKey(it: Item): string {
    if it.segment.mood == "" then UnknownMood else it.segment.mood
  }

  /** The number of members counted under `key`. */
  function CountMood(items: seq<Item>, key: string): (r: nat)
    ensures r == 0 <==> forall j :: 0 <= j < |items| ==> MoodKey(items[j]) != key
  {
    if items == [] then 0
    else
      var init := items[..|items| - 1];
      assert forall j :: 0 <= j < |init| ==> items[j] == init[j];
      CountMood(init, key) + if MoodKey(items[|items| - 1]) == key then 1 else 0
  }

  /** The `reduce` that tallies the members' moods. */
  function Tally(items: seq<Item>): map<string, nat> {
    if items == [] then map[]
    else Bump(Tally(items[..|items| - 1]), MoodKey(items[|items| - 1]))
  }

  /** `acc[key] = (acc[key] || 0) + 1`. */
  function Bump(acc: map<string, nat>, key: string): map<string, nat> {
    acc[key := (if key in acc then acc[key] else 0) + 1]
  }

  /** The tally holds exactly the moods that occur, each with its number of
      occurrences. */
  lemma {:induction false} TallyCounts(items: seq<Item>, key: string)
    ensures key in Tally(items) <==> CountMood(items, key) > 0
    ensures key in Tally(items) ==> Tally(items)[key] == CountMood(items, key)
  {
    if items != [] {
      TallyCounts(items[..|items| - 1], key);
    }
  }

  /** The sum of a tally's counts. */
  ghost function MapSum(m: map<string, nat>): nat
    decreases |m|
  {
    if m == map[] then 0
    else
      var key :| key in m;
      m[key] + MapSum(m - {key})
  }

  lemma {:induction false} MapSumRemove(m: map<string, nat>, key: string)
    requires key in m
    ensures MapSum(m) == m[key] + MapSum(m - {key})
    decreases |m|
  {
    var chosen :| chosen in m && MapSum(m) == m[chosen] + MapSum(m - {chosen});
    if chosen != key {
      MapSumRemove(m - {chosen}, key);
      MapSumRemove(m - {key}, chosen);
      assert m - {chosen} - {key} == m - {key} - {chosen};
    }
  }

  lemma MapSumBump(m: map<string, nat>, key: string)
    ensures MapSum(Bump(m, key)) == MapSum(m) + 1
  {
    var m' := Bump(m, key);
    MapSumRemove(m', key);
    if key in m {
      MapSumRemove(m, key);
      assert m' - {key} == m - {key};
    } else {
      assert m' - {key} == m;
    }
  }

  /** The mood counts add up to the number of members. */
  lemma {:induction false} TallyTotal(items: seq<Item>)
    ensures MapSum(Tally(items)) == |items|
  {
    if items != [] {
      TallyTotal(items[..|items| - 1]);
      MapSumBump(Tally(items[..|items| - 1]), MoodKey(items[|items| - 1]));
    }
  }

  function SegmentIds(items: seq<Item>): (r: seq<int>)
    ensures |r| == |items|
    ensures forall k :: 0 <= k < |items| ==> r[k] == items[k].segment.id
  {
    if items == [] then [] else [items[0].segment.id] + SegmentIds(items[1..])
  }

  /** `Theme ${idx + 1} — ${nameSource.slice(0, 40)}...`. */
  function ThemeName(idx: nat, c: Cluster): string
    requires c.items != []
  {
    var source := if c.items[0].segment.summary != "" then c.items[0].segment.summary else DefaultGroupName;
    "Theme " + NatToString(idx + 1) + " \U{2014} " + Take(source, NameSnippetLength) + "..."
  }

  function ThemeOf(idx: nat, c: Cluster): Theme
    requires c.items != []
  {
    Theme(ThemeName(idx, c), SegmentIds(c.items), Tally(c.items))
  }

  /** `clusters.map((cluster, idx) => ...)`. */
  function ThemesOf(cs: seq<Cluster>): (r: seq<Theme>)
    requires forall k :: 0 <= k < |cs| ==> cs[k].items != []
    ensures |r| == |cs|
    ensures forall k :: 0 <= k < |cs| ==> r[k] == ThemeOf(k, cs[k])
  {
    seq(|cs|, k requires 0 <= k < |cs| => ThemeOf(k, cs[k]))
  }

  // ---------------------------------------------------------------------
  // clusterSegments

  /** The text embedded for a segment: its summary unless blank. */
  function EmbedText(s: Segment): string {
    if !IsBlank(s.summary) then s.summary else PlaceholderText
  }

  /** The embedding loop: the items in order, or `None` at the first failed call. */
  function EmbedAll(segs: seq<Segment>, embed: Embedder): (r: Option<seq<Item>>)
    ensures r.Some? ==> |r.value| == |segs|
    ensures r.Some? ==> forall j :: 0 <= j < |segs| ==>
                          r.value[j].segment == segs[j] && Some(r.value[j].embedding) == embed(EmbedText(segs[j]))
  {
    if segs == [] then Some([])
    else
      match EmbedAll(segs[..|segs| - 1], embed)
      case None => None
      case Some(items) =>
        match embed(EmbedText(segs[|segs| - 1]))
        case None => None
        case Some(v) => Some(items + [Item(segs[|segs| - 1], v)])
  }

  lemma {:induction false} EmbedAllFailsLater(segs: seq<Segment>, embed: Embedder, j: nat)
    requires j <= |segs| && EmbedAll(segs[..j], embed).None?
    ensures EmbedAll(segs, embed).None?
    decreases |segs| - j
  {
    if j < |segs| {
      assert segs[..j + 1][..j] == segs[..j];
      EmbedAllFailsLater(segs, embed, j + 1);
    } else {
      assert segs[..j] == segs;
    }
  }

  /** What `clusterSegments` returns. */
  function ClusterResult(segs: seq<Segment>, embed: Embedder, sim: Similarity, threshold: real): Outcome {
    match EmbedAll(segs, embed)
    case None => EmbeddingFailed
    case Some(items) =>
      CentroidInvariant(items, |items|, sim, threshold);
      Themes(ThemesOf(ClustersOf(items, |items|, sim, threshold)))
  }

  /** The embedding loop of `clusterSegments`. */
  method EmbedSegments(segs: seq<Segment>, embed: Embedder) returns (items: Option<seq<Item>>)
    ensures items == EmbedAll(segs, embed)
  {
    var embedded: seq<Item> := [];
    for i := 0 to |segs|
      invariant EmbedAll(segs[..i], embed) == Some(embedded)
    {
      var summaryText := if !IsBlank(segs[i].summary) then segs[i].summary else PlaceholderText;
      var embedding := embed(summaryText);
      assert segs[..i + 1][..i] == segs[..i];
      if embedding.None? {
        EmbedAllFailsLater(segs, embed, i + 1);
        return None;
      }
      embedded := embedded + [Item(segs[i], embedding.value)];
    }
    assert segs[..|segs|] == segs;
    items := Some(embedded);
  }

  /** The inner scan for the most similar centroid. */
  method FindBest(e: Vector, clusters: seq<Cluster>, sim: Similarity)
    returns (bestCluster: Option<nat>, bestScore: real)
    ensures (bestCluster, bestScore) == BestOf(e, clusters, |clusters|, sim)
  {
    bestCluster := None;
    bestScore := 0.0;
    for k := 0 to |clusters|
      invariant (bestCluster, bestScore) == BestOf(e, clusters, k, sim)
    {
      var s := sim(e, clusters[k].centroid);
      if s > bestScore {
        bestScore := s;
        bestCluster := Some(k);
      }
    }
  }

  /** Every member of every cluster has `dim` components. */
  predicate MembersHaveLength(cs: seq<Cluster>, dim: nat) {
    forall k, m :: 0 <= k < |cs| && m in cs[k].items ==> |m.embedding| == dim
  }

  /** One pass of the assignment loop: join the best cluster and recompute
      its centroid, or open a new cluster. */
  method AssignItem(clusters: seq<Cluster>, item: Item, sim: Similarity, threshold: real, ghost dim: nat)
    returns (next: seq<Cluster>)
    requires MembersHaveLength(clusters, dim) && |item.embedding| == dim
    ensures next == Assign(clusters, item, sim, threshold)
    ensures MembersHaveLength(next, dim)
  {
    var bestCluster, bestScore := FindBest(item.embedding, clusters, sim);
    if bestCluster.Some? && bestScore >= threshold {
      var b := bestCluster.value;
      var members := clusters[b].items + [item];
      assert forall m :: m in members ==> |m.embedding| == dim;
      var centroid := AverageVectors(Embeddings(members));
      next := clusters[b := Cluster(members, centroid)];
    } else {
      next := clusters + [Cluster([item], item.embedding)];
    }
  }

  /** `clusterSegments(segments, { similarityThreshold })`; `None` input is a
      value that is not an array. Every embedding has `dim` components. */
  method ClusterSegments(segments: Option<seq<Segment>>, embed: Embedder, sim: Similarity, ghost dim: nat,
                         similarityThreshold: real := DefaultSimilarityThreshold)
    returns (outcome: Outcome)
    requires forall t :: embed(t).Some? ==> |embed(t).value| == dim
    ensures segments.None? || segments == Some([]) ==> outcome == Themes([])
    ensures segments.Some? ==> outcome == ClusterResult(segments.value, embed, sim, similarityThreshold)
    ensures outcome.Themes? && segments.Some? ==> |outcome.themes| <= |segments.value|
  {
    if segments.None? || |segments.value| == 0 {
      return Themes([]);
    }
    var embedded := EmbedSegments(segments.value, embed);
    if embedded.None? {
      return EmbeddingFailed;
    }
    var items := embedded.value;
    var clusters: seq<Cluster> := [];
    for i := 0 to |items|
      invariant clusters == ClustersOf(items, i, sim, similarityThreshold)
      invariant MembersHaveLength(clusters, dim)
    {
      clusters := AssignItem(clusters, items[i], sim, similarityThreshold, dim);
    }
    CentroidInvariant(items, |items|, sim, similarityThreshold);
    Placement(items, |items|, sim, similarityThreshold);
    outcome := Themes(ThemesOf(clusters));
  }
}

/** The older overlap-graph builder (src/ngsep/assembly/GraphBuilderFMIndex.java):
    for every read, in id order, the hits of its k-mers on earlier reads are
    filtered, grouped by target read and clustered; the best clusters are
    classified into embeddings and overlap edges that are written into the
    assembly graph. The reverse complement of a read is searched only when
    its forward strand found no host.

    The FM index, the k-mer extractor and the cluster constructor are
    foreign: k-mer search results arrive as `KmerSearch` records and the
    cluster constructor is a function parameter, keyed by the query read
    and strand (`ReadClusterBuilder`). */
module GraphBuilder {
  import opened Common

  /** Clusters examined per read and strand. */
  const MAX_CLUSTERS: int := 10

  /** Lower bound on the hits a target needs before it is clustered. */
  const MIN_TARGET_HITS: int := 10

  /** One FM-index occurrence of a query k-mer: the read it lies in, its start
      there, the total number of occurrences of the k-mer, and the k-mer's
      start in the query. */
  datatype FMHit = FMHit(sequenceIdx: int, start: int, totalHitsQuery: int, queryIdx: int)

  /** A k-mer of the query, by its start, with the occurrences the index reports. */
  datatype KmerSearch = KmerSearch(start: int, hits: seq<FMHit>)

  /** What the cluster constructor reports: the predicted first and last
      target positions (one-based), the number of distinct k-mers, the
      fraction of the query covered, and the hits it claims, at most one per
      query position. */
  datatype ClusterShape = ClusterShape(first: int, last: int, numDifferentKmers: int,
                                       queryCoverage: real, hitsByQueryIdx: seq<FMHit>)

  /** The cluster constructor as the builder uses it: it sees the query
      read (its id and the strand searched) as well as the hits, so it is
      chosen per read and strand, `build(queryIdx, queryRC)`. */
  type ReadClusterBuilder = (int, bool) -> seq<FMHit> -> ClusterShape

  /** A cluster of the hits on one target read. */
  datatype KmerCluster = KmerCluster(sequenceIdx: int, shape: ClusterShape)

  /** One end of a read: its start or its end. */
  datatype GraphVertex = GraphVertex(seqIdx: int, start: bool)

  /** A directed overlap edge with its cost and overlap length. */
  datatype GraphEdge = GraphEdge(v1: GraphVertex, v2: GraphVertex, cost: int, overlap: int)

  /** Read `seqIdx` lies inside read `hostIdx`, starting at `hostStart`. */
  datatype Embedding = Embedding(hostIdx: int, seqIdx: int, hostStart: int, reverse: bool)

  /** What one cluster does to the graph. */
  datatype Action = AddEmbedding(embedding: Embedding) | AddEdge(edge: GraphEdge) | NoChange

  /** A graph edge is sound for the read lengths: it joins two different
      reads and its cost plus its overlap is the sum of their lengths. */
  predicate EdgeSound(e: GraphEdge, lengths: seq<int>)
  {
    && 0 <= e.v1.seqIdx < |lengths| && 0 <= e.v2.seqIdx < |lengths|
    && e.v1.seqIdx != e.v2.seqIdx
    && e.cost + e.overlap == lengths[e.v1.seqIdx] + lengths[e.v2.seqIdx]
  }

  /** An embedding is sound when it places one read inside another. */
  predicate EmbeddingSound(m: Embedding, lengths: seq<int>)
  {
    0 <= m.hostIdx < |lengths| && 0 <= m.seqIdx < |lengths| && m.hostIdx != m.seqIdx
  }

  /** The assembly graph as far as the builder writes it: read lengths, and
      the edges and embeddings added so far, in order. */
  class AssemblyGraph {
    const lengths: seq<int>
    var edges: seq<GraphEdge>
    var embeddings: seq<Embedding>

    ghost predicate Valid()
      reads this
    {
      && (forall k :: 0 <= k < |edges| ==> EdgeSound(edges[k], lengths))
      && (forall k :: 0 <= k < |embeddings| ==> EmbeddingSound(embeddings[k], lengths))
    }

    /** A graph over the given reads, without edges or embeddings. */
    constructor(lengths: seq<int>)
      ensures this.lengths == lengths
      ensures edges == [] && embeddings == []
      ensures Valid()
    {
      this.lengths := lengths;
      edges := [];
      embeddings := [];
    }

    method AddEdge(e: GraphEdge)
      requires Valid() && EdgeSound(e, lengths)
      modifies this
      ensures Valid()
      ensures edges == old(edges) + [e] && embeddings == old(embeddings)
    {
      edges := edges + [e];
    }

    method AddEmbedded(m: Embedding)
      requires Valid() && EmbeddingSound(m, lengths)
      modifies this
      ensures Valid()
      ensures embeddings == old(embeddings) + [m] && edges == old(edges)
    {
      embeddings := embeddings + [m];
    }
  }

  // ---------------------------------------------------------------------------
  // Hits of the query on earlier reads

  /** The occurrences of one k-mer in earlier reads, tagged with the k-mer's
      start in the query. */
  function EarlierHits(queryIdx: int, start: int, hs: seq<FMHit>): seq<FMHit>
  {
    if hs == [] then []
    else
      var h := hs[|hs| - 1];
      EarlierHits(queryIdx, start, hs[..|hs| - 1])
        + (if h.sequenceIdx < queryIdx then [h.(queryIdx := start)] else [])
  }

  /** All occurrences of the query's k-mers in earlier reads, k-mer by k-mer. */
  function CollectedHits(queryIdx: int, kmers: seq<KmerSearch>): seq<FMHit>
  {
    if kmers == [] then []
    else
      var k := kmers[|kmers| - 1];
      CollectedHits(queryIdx, kmers[..|kmers| - 1]) + EarlierHits(queryIdx, k.start, k.hits)
  }

  /** Total number of occurrences over all k-mers, earlier reads or not. */
  function TotalHits(kmers: seq<KmerSearch>): (r: int)
    ensures r >= 0
  {
    if kmers == [] then 0 else TotalHits(kmers[..|kmers| - 1]) + |kmers[|kmers| - 1].hits|
  }

  /** A k-mer keeps at most its occurrences, and all of them when every
      occurrence lies in an earlier read. */
  lemma {:induction false} EarlierHitsCount(queryIdx: int, start: int, hs: seq<FMHit>)
    ensures |EarlierHits(queryIdx, start, hs)| <= |hs|
    ensures (forall g :: g in hs ==> g.sequenceIdx < queryIdx) ==> |EarlierHits(queryIdx, start, hs)| == |hs|
  {
    if hs != [] {
      EarlierHitsCount(queryIdx, start, hs[..|hs| - 1]);
      assert forall g :: g in hs[..|hs| - 1] ==> g in hs;
      assert hs[|hs| - 1] in hs;
    }
  }

  /** The hits collected for a strand are at most the total number of
      occurrences that the average is taken over, and exactly that many when
      every occurrence lies in an earlier read. */
  lemma {:induction false} CollectedAtMostTotal(queryIdx: int, kmers: seq<KmerSearch>)
    ensures |CollectedHits(queryIdx, kmers)| <= TotalHits(kmers)
    ensures (forall i, g :: 0 <= i < |kmers| && g in kmers[i].hits ==> g.sequenceIdx < queryIdx) ==>
      |CollectedHits(queryIdx, kmers)| == TotalHits(kmers)
  {
    if kmers != [] {
      var init := kmers[..|kmers| - 1];
      var last := kmers[|kmers| - 1];
      CollectedAtMostTotal(queryIdx, init);
      EarlierHitsCount(queryIdx, last.start, last.hits);
      if forall i, g :: 0 <= i < |kmers| && g in kmers[i].hits ==> g.sequenceIdx < queryIdx {
        forall i, g | 0 <= i < |init| && g in init[i].hits ensures g.sequenceIdx < queryIdx {
          assert init[i] == kmers[i];
        }
        forall g | g in last.hits ensures g.sequenceIdx < queryIdx {
          assert kmers[|kmers| - 1] == last;
        }
      }
    }
  }

  /** The kept occurrences of one k-mer are exactly its occurrences in
      earlier reads, retagged with the k-mer's start. */
  lemma {:induction false} EarlierHitsExact(queryIdx: int, start: int, hs: seq<FMHit>)
    ensures forall h :: h in EarlierHits(queryIdx, start, hs) ==>
      h.sequenceIdx < queryIdx && h.queryIdx == start && exists g :: g in hs && h == g.(queryIdx := start)
    ensures forall g :: g in hs && g.sequenceIdx < queryIdx ==> g.(queryIdx := start) in EarlierHits(queryIdx, start, hs)
  {
    if hs != [] {
      var init := hs[..|hs| - 1];
      EarlierHitsExact(queryIdx, start, init);
      assert hs == init + [hs[|hs| - 1]];
      forall h | h in EarlierHits(queryIdx, start, hs)
        ensures exists g :: g in hs && h == g.(queryIdx := start)
      {
        if h in EarlierHits(queryIdx, start, init) {
          var g :| g in init && h == g.(queryIdx := start);
          assert g in hs;
        } else {
          assert hs[|hs| - 1] in hs;
        }
      }
    }
  }

  /** Every collected hit is an occurrence of one of the query's k-mers in an
      earlier read, retagged with that k-mer's start, and every such
      occurrence is collected. */
  lemma {:induction false} CollectedHitsExact(queryIdx: int, kmers: seq<KmerSearch>)
    ensures forall h :: h in CollectedHits(queryIdx, kmers) ==>
      h.sequenceIdx < queryIdx
      && exists i, g :: 0 <= i < |kmers| && g in kmers[i].hits && h == g.(queryIdx := kmers[i].start)
    ensures forall i, g :: 0 <= i < |kmers| && g in kmers[i].hits && g.sequenceIdx < queryIdx ==>
      g.(queryIdx := kmers[i].start) in CollectedHits(queryIdx, kmers)
  {
    if kmers != [] {
      var init := kmers[..|kmers| - 1];
      var last := kmers[|kmers| - 1];
      var before := CollectedHits(queryIdx, init);
      var added := EarlierHits(queryIdx, last.start, last.hits);
      assert CollectedHits(queryIdx, kmers) == before + added;
      CollectedHitsExact(queryIdx, init);
      EarlierHitsExact(queryIdx, last.start, last.hits);
      forall h: FMHit | h in before + added
        ensures exists i, g :: 0 <= i < |kmers| && g in kmers[i].hits && h == g.(queryIdx := kmers[i].start)
      {
        if h in before {
          var i, g :| 0 <= i < |init| && g in init[i].hits && h == g.(queryIdx := init[i].start);
          assert kmers[i] == init[i];
        } else {
          assert h in added;
          var g :| g in last.hits && h == g.(queryIdx := last.start);
          assert kmers[|kmers| - 1] == last;
        }
      }
      forall i, g | 0 <= i < |kmers| && g in kmers[i].hits && g.sequenceIdx < queryIdx
        ensures g.(queryIdx := kmers[i].start) in before + added
      {
        if i < |init| {
          assert kmers[i] == init[i];
          assert g.(queryIdx := init[i].start) in before;
        } else {
          assert kmers[i] == last;
          assert g.(queryIdx := last.start) in added;
        }
      }
    }
  }

  /** Walks the k-mers and their occurrences, counting k-mers and occurrences
      and keeping the occurrences in earlier reads. */
  method CollectKmerHits(queryIdx: int, kmers: seq<KmerSearch>)
    returns (initialKmerHits: seq<FMHit>, kmersCount: int, totalHits: int)
    ensures initialKmerHits == CollectedHits(queryIdx, kmers)
    ensures kmersCount == |kmers| && totalHits == TotalHits(kmers)
  {
    initialKmerHits, kmersCount, totalHits := [], 0, 0;
    while kmersCount < |kmers|
      invariant 0 <= kmersCount <= |kmers|
      invariant initialKmerHits == CollectedHits(queryIdx, kmers[..kmersCount])
      invariant totalHits == TotalHits(kmers[..kmersCount])
    {
      var kmer := kmers[kmersCount];
      assert kmers[..kmersCount + 1][..kmersCount] == kmers[..kmersCount];
      ghost var before := initialKmerHits;
      totalHits := totalHits + |kmer.hits|;
      var j := 0;
      while j < |kmer.hits|
        invariant 0 <= j <= |kmer.hits|
        invariant initialKmerHits == before + EarlierHits(queryIdx, kmer.start, kmer.hits[..j])
      {
        var hit := kmer.hits[j];
        assert kmer.hits[..j + 1][..j] == kmer.hits[..j];
        if hit.sequenceIdx < queryIdx {
          initialKmerHits := initialKmerHits + [hit.(queryIdx := kmer.start)];
        }
        j := j + 1;
      }
      assert kmer.hits[..j] == kmer.hits;
      kmersCount := kmersCount + 1;
    }
    assert kmers[..kmersCount] == kmers;
  }

  // ---------------------------------------------------------------------------
  // Repetitive k-mers and the weighted count

  /** A hit is kept unless its k-mer occurs more than five times as often as
      an average k-mer of the query. */
  function NotRepetitive(averageHits: real): FMHit -> bool
  {
    (h: FMHit) => h.totalHitsQuery as real <= 5.0 * averageHits
  }

  /** Distinct query positions among the hits. */
  function DistinctStarts(hs: seq<FMHit>): set<int>
  {
    set h | h in hs :: h.queryIdx
  }

  /** Drops the hits of repetitive k-mers and counts the distinct query
      positions of the rest. */
  method FilterRepetitiveHits(hits: seq<FMHit>, averageHits: real)
    returns (filteredHits: seq<FMHit>, kmersCount: int)
    ensures filteredHits == Filter(hits, NotRepetitive(averageHits))
    ensures kmersCount == |DistinctStarts(filteredHits)|
  {
    filteredHits := [];
    var kmerStarts: set<int> := {};
    var i := 0;
    while i < |hits|
      invariant 0 <= i <= |hits|
      invariant filteredHits == Filter(hits[..i], NotRepetitive(averageHits))
      invariant kmerStarts == DistinctStarts(filteredHits)
    {
      var hit := hits[i];
      assert hits[..i + 1][..i] == hits[..i];
      if hit.totalHitsQuery as real > 5.0 * averageHits {
        i := i + 1;
        continue;
      }
      filteredHits := filteredHits + [hit];
      kmerStarts := kmerStarts + {hit.queryIdx};
      i := i + 1;
    }
    assert hits[..i] == hits;
    kmersCount := |kmerStarts|;
  }

  /** No kept hit is repetitive, and every non-repetitive hit is kept. */
  lemma FilteredHitsExact(hits: seq<FMHit>, averageHits: real)
    ensures forall h :: h in Filter(hits, NotRepetitive(averageHits)) ==>
      h in hits && h.totalHitsQuery as real <= 5.0 * averageHits
    ensures forall h :: h in hits && h.totalHitsQuery as real <= 5.0 * averageHits ==>
      h in Filter(hits, NotRepetitive(averageHits))
  {
    FilterMembers(hits, NotRepetitive(averageHits));
  }

  /** A hit weighs 1 when its k-mer is no more frequent than average,
      otherwise the average divided by its frequency. */
  function HitWeight(h: FMHit, averageHits: real): (w: real)
    requires averageHits >= 0.0
    ensures 0.0 <= w <= 1.0
  {
    var n := h.totalHitsQuery as real;
    if n <= averageHits then 1.0 else averageHits / n
  }

  /** The sum of the hit weights. */
  function WeightedCount(hs: seq<FMHit>, averageHits: real): real
    requires averageHits >= 0.0
  {
    if hs == [] then 0.0
    else WeightedCount(hs[..|hs| - 1], averageHits) + HitWeight(hs[|hs| - 1], averageHits)
  }

  /** The weighted count lies between zero and the number of hits, and equals
      the number of hits when no k-mer is more frequent than average. */
  lemma {:induction false} WeightedCountBounds(hs: seq<FMHit>, averageHits: real)
    requires averageHits >= 0.0
    ensures 0.0 <= WeightedCount(hs, averageHits) <= |hs| as real
    ensures (forall k :: 0 <= k < |hs| ==> hs[k].totalHitsQuery as real <= averageHits) ==>
      WeightedCount(hs, averageHits) == |hs| as real
  {
    if hs != [] {
      WeightedCountBounds(hs[..|hs| - 1], averageHits);
    }
  }

  /** Sums the weights of the hits a cluster claims. */
  method GetWeightedCount(cluster: KmerCluster, averageHits: real) returns (count: real)
    requires averageHits >= 0.0
    ensures count == WeightedCount(cluster.shape.hitsByQueryIdx, averageHits)
  {
    var hits := cluster.shape.hitsByQueryIdx;
    count := 0.0;
    var i := 0;
    while i < |hits|
      invariant 0 <= i <= |hits|
      invariant count == WeightedCount(hits[..i], averageHits)
    {
      assert hits[..i + 1][..i] == hits[..i];
      var n := hits[i].totalHitsQuery as real;
      if n <= averageHits {
        count := count + 1.0;
      } else {
        count := count + averageHits / n;
      }
      i := i + 1;
    }
    assert hits[..i] == hits;
  }

  // ---------------------------------------------------------------------------
  // Grouping by target read and clustering

  /** The hits found on one target read, in the order they were found. */
  datatype TargetHits = TargetHits(target: int, hits: seq<FMHit>)

  /** Whether a hit lies on the given target read. */
  function OnTarget(target: int): FMHit -> bool
  {
    (h: FMHit) => h.sequenceIdx == target
  }

  /** Files one hit under its target, opening a group at the end for a target
      seen for the first time. */
  function AddHit(groups: seq<TargetHits>, h: FMHit): seq<TargetHits>
  {
    if groups == [] then [TargetHits(h.sequenceIdx, [h])]
    else if groups[0].target == h.sequenceIdx then [groups[0].(hits := groups[0].hits + [h])] + groups[1..]
    else [groups[0]] + AddHit(groups[1..], h)
  }

  /** The hits grouped by target read, targets in order of first appearance. */
  function GroupByTarget(hits: seq<FMHit>): seq<TargetHits>
  {
    if hits == [] then [] else AddHit(GroupByTarget(hits[..|hits| - 1]), hits[|hits| - 1])
  }

  function Targets(groups: seq<TargetHits>): set<int>
  {
    set g | g in groups :: g.target
  }

  /** `groups` holds one group per target read of `hits`, each with exactly
      the hits on that target, in order. */
  ghost predicate GroupsOf(groups: seq<TargetHits>, hits: seq<FMHit>)
  {
    && DistinctTargets(groups)
    && (forall k :: 0 <= k < |groups| ==> groups[k].hits == Filter(hits, OnTarget(groups[k].target)))
    && Targets(groups) == set h | h in hits :: h.sequenceIdx
  }

  ghost predicate DistinctTargets(groups: seq<TargetHits>)
  {
    forall i, j :: 0 <= i < j < |groups| ==> groups[i].target != groups[j].target
  }

  /** Adding a hit extends its own group, or opens one at the end, and leaves
      every other group alone. */
  lemma {:induction false} AddHitShape(groups: seq<TargetHits>, h: FMHit)
    requires DistinctTargets(groups)
    ensures var r := AddHit(groups, h);
      && (h.sequenceIdx in Targets(groups) ==> |r| == |groups|)
      && (h.sequenceIdx !in Targets(groups) ==> |r| == |groups| + 1 && r[|groups|] == TargetHits(h.sequenceIdx, [h]))
      && forall k :: 0 <= k < |groups| ==>
           r[k].target == groups[k].target
           && r[k].hits == groups[k].hits + (if groups[k].target == h.sequenceIdx then [h] else [])
  {
    if groups != [] {
      var tail := groups[1..];
      assert Targets(groups) == {groups[0].target} + Targets(tail) by {
        assert groups == [groups[0]] + tail;
      }
      AddHitShape(tail, h);
      var r := AddHit(groups, h);
      if groups[0].target == h.sequenceIdx {
        forall k | 1 <= k < |groups| ensures groups[k].target != h.sequenceIdx {
          assert groups[0].target != groups[k].target;
        }
      }
    }
  }

  /** A target none of the hits lies on has no hits. */
  lemma NoHitsOnNewTarget(hits: seq<FMHit>, t: int)
    requires t !in set h | h in hits :: h.sequenceIdx
    ensures Filter(hits, OnTarget(t)) == []
  {
    FilterMembers(hits, OnTarget(t));
  }

  /** The filter of an extended sequence extends the filter. */
  lemma FilterSnoc<T>(s: seq<T>, x: T, p: T -> bool)
    ensures Filter(s + [x], p) == Filter(s, p) + (if p(x) then [x] else [])
  {
    assert (s + [x])[..|s|] == s;
  }

  /** After adding a hit the targets are the old ones and the hit's. */
  lemma AddHitTargets(groups: seq<TargetHits>, h: FMHit)
    requires DistinctTargets(groups)
    ensures Targets(AddHit(groups, h)) == Targets(groups) + {h.sequenceIdx}
    ensures DistinctTargets(AddHit(groups, h))
  {
    AddHitShape(groups, h);
    var r := AddHit(groups, h);
    forall t | t in Targets(r) ensures t in Targets(groups) + {h.sequenceIdx} {
      var k :| 0 <= k < |r| && r[k].target == t;
      if k < |groups| { assert groups[k] in groups; }
    }
    forall t | t in Targets(groups) ensures t in Targets(r) {
      var k :| 0 <= k < |groups| && groups[k].target == t;
      assert r[k] in r;
    }
    if h.sequenceIdx !in Targets(groups) {
      assert r[|groups|] in r;
      forall i | 0 <= i < |groups| ensures r[i].target != r[|groups|].target {
        assert groups[i] in groups;
      }
    }
  }

  /** Adding a hit to the groups of some hits gives the groups of the hits
      extended by it. */
  lemma AddHitGroups(groups: seq<TargetHits>, hits: seq<FMHit>, h: FMHit)
    requires GroupsOf(groups, hits)
    ensures GroupsOf(AddHit(groups, h), hits + [h])
  {
    AddHitShape(groups, h);
    AddHitTargets(groups, h);
    var r := AddHit(groups, h);
    var hs := hits + [h];
    forall k | 0 <= k < |r| ensures r[k].hits == Filter(hs, OnTarget(r[k].target)) {
      FilterSnoc(hits, h, OnTarget(r[k].target));
      if k == |groups| {
        NoHitsOnNewTarget(hits, h.sequenceIdx);
      }
    }
    assert (set x | x in hs :: x.sequenceIdx) == (set x | x in hits :: x.sequenceIdx) + {h.sequenceIdx};
  }

  /** Grouping keeps one group per target with exactly that target's hits. */
  lemma {:induction false} GroupByTargetExact(hits: seq<FMHit>)
    ensures GroupsOf(GroupByTarget(hits), hits)
  {
    if hits != [] {
      var init := hits[..|hits| - 1];
      GroupByTargetExact(init);
      AddHitGroups(GroupByTarget(init), init, hits[|hits| - 1]);
      assert init + [hits[|hits| - 1]] == hits;
    }
  }

  /** The hit a cluster claims at a query position, if any. */
  function ClaimedAt(claimed: seq<FMHit>, queryIdx: int): Option<FMHit>
  {
    if claimed == [] then None
    else if claimed[0].queryIdx == queryIdx then Some(claimed[0])
    else ClaimedAt(claimed[1..], queryIdx)
  }

  /** A hit is left over when the cluster claims a different hit, or none,
      at its query position. */
  function Unclaimed(shape: ClusterShape): FMHit -> bool
  {
    (h: FMHit) => ClaimedAt(shape.hitsByQueryIdx, h.queryIdx) != Some(h)
  }

  /** The clusters of the hits on one target: one cluster of all the hits,
      and, unless it claims more than 80% of them, a second cluster of the
      hits it left over. */
  function ClusterSequence(target: int, hits: seq<FMHit>, build: seq<FMHit> -> ClusterShape): seq<KmerCluster>
  {
    var unique := KmerCluster(target, build(hits));
    if |unique.shape.hitsByQueryIdx| as real > 0.8 * |hits| as real then [unique]
    else [unique, KmerCluster(target, build(Filter(hits, Unclaimed(unique.shape))))]
  }

  /** One cluster when the first claims more than 80% of the hits, two
      otherwise; the second is built from exactly the hits the first did not
      claim, and together with the claimed ones they make up all the hits. */
  lemma ClusterSequenceSpec(target: int, hits: seq<FMHit>, build: seq<FMHit> -> ClusterShape)
    ensures var r := ClusterSequence(target, hits, build);
      var claimed := build(hits).hitsByQueryIdx;
      var rest := Filter(hits, Unclaimed(build(hits)));
      && 1 <= |r| <= 2
      && (forall k :: 0 <= k < |r| ==> r[k].sequenceIdx == target)
      && r[0].shape == build(hits)
      && (|r| == 1 <==> |claimed| as real > 0.8 * |hits| as real)
      && (|r| == 2 ==> r[1].shape == build(rest))
      && (forall h :: h in rest <==> h in hits && ClaimedAt(claimed, h.queryIdx) != Some(h))
      && multiset(rest) + multiset(Filter(hits, Not(Unclaimed(build(hits))))) == multiset(hits)
  {
    var p := Unclaimed(build(hits));
    var claimed := build(hits).hitsByQueryIdx;
    var rest := Filter(hits, p);
    FilterMembers(hits, p);
    FilterSplit(hits, p);
    forall h | h in rest ensures h in hits && ClaimedAt(claimed, h.queryIdx) != Some(h) {
      var k :| 0 <= k < |rest| && rest[k] == h;
      assert p(rest[k]);
    }
    forall h | h in hits && ClaimedAt(claimed, h.queryIdx) != Some(h) ensures h in rest {
      var k :| 0 <= k < |hits| && hits[k] == h;
      assert p(hits[k]);
    }
    var r := ClusterSequence(target, hits, build);
    if |claimed| as real > 0.8 * |hits| as real {
      assert r == [KmerCluster(target, build(hits))];
    } else {
      assert r == [KmerCluster(target, build(hits)), KmerCluster(target, build(rest))];
    }
  }

  /** Clusters the hits on one target, collecting the left-over hits in a loop. */
  method ClusterSequenceKmerAlns(target: int, sequenceKmerHits: seq<FMHit>, build: seq<FMHit> -> ClusterShape)
    returns (answer: seq<KmerCluster>)
    ensures answer == ClusterSequence(target, sequenceKmerHits, build)
  {
    var uniqueCluster := KmerCluster(target, build(sequenceKmerHits));
    answer := [uniqueCluster];
    var clusteredHits := uniqueCluster.shape.hitsByQueryIdx;
    if |clusteredHits| as real > 0.8 * |sequenceKmerHits| as real {
      return;
    }
    var remainingHits := [];
    var i := 0;
    while i < |sequenceKmerHits|
      invariant 0 <= i <= |sequenceKmerHits|
      invariant remainingHits == Filter(sequenceKmerHits[..i], Unclaimed(uniqueCluster.shape))
    {
      var hit := sequenceKmerHits[i];
      assert sequenceKmerHits[..i + 1][..i] == sequenceKmerHits[..i];
      if ClaimedAt(clusteredHits, hit.queryIdx) != Some(hit) {
        remainingHits := remainingHits + [hit];
      }
      i := i + 1;
    }
    assert sequenceKmerHits[..i] == sequenceKmerHits;
    answer := answer + [KmerCluster(target, build(remainingHits))];
  }

  /** The clusters of every group with at least `minKmers` hits, group by group. */
  function ClustersOfGroups(groups: seq<TargetHits>, minKmers: int, build: seq<FMHit> -> ClusterShape): seq<KmerCluster>
  {
    if groups == [] then []
    else
      var g := groups[|groups| - 1];
      ClustersOfGroups(groups[..|groups| - 1], minKmers, build)
        + (if |g.hits| >= minKmers then ClusterSequence(g.target, g.hits, build) else [])
  }

  /** The targets of the groups with at least `minKmers` hits. */
  function LargeTargets(groups: seq<TargetHits>, minKmers: int): set<int>
  {
    set g | g in groups && |g.hits| >= minKmers :: g.target
  }

  /** Every cluster comes from a group with at least `minKmers` hits and lies
      on that group's target. */
  lemma {:induction false} ClustersOfGroupsFrom(groups: seq<TargetHits>, minKmers: int, build: seq<FMHit> -> ClusterShape)
    ensures forall k :: 0 <= k < |ClustersOfGroups(groups, minKmers, build)| ==>
      ClustersOfGroups(groups, minKmers, build)[k].sequenceIdx in LargeTargets(groups, minKmers)
  {
    if groups != [] {
      var init := groups[..|groups| - 1];
      var g := groups[|groups| - 1];
      ClustersOfGroupsFrom(init, minKmers, build);
      ClusterSequenceSpec(g.target, g.hits, build);
      var a := ClustersOfGroups(init, minKmers, build);
      var r := ClustersOfGroups(groups, minKmers, build);
      assert LargeTargets(init, minKmers) <= LargeTargets(groups, minKmers) by {
        forall t | t in LargeTargets(init, minKmers) ensures t in LargeTargets(groups, minKmers) {
          var g' :| g' in init && |g'.hits| >= minKmers && g'.target == t;
          assert g' in groups;
        }
      }
      if |g.hits| >= minKmers {
        assert g in groups;
        assert g.target in LargeTargets(groups, minKmers);
        var cs := ClusterSequence(g.target, g.hits, build);
        assert r == a + cs;
        forall k | 0 <= k < |r| ensures r[k].sequenceIdx in LargeTargets(groups, minKmers) {
          if k >= |a| {
            assert r[k] == cs[k - |a|];
          }
        }
      } else {
        assert r == a;
      }
    }
  }

  /** Groups the hits by target and clusters every target with at least
      `minKmers` hits. */
  method ClusterKmerHits(kmerHits: seq<FMHit>, minKmers: int, build: seq<FMHit> -> ClusterShape)
    returns (clusters: seq<KmerCluster>)
    ensures clusters == ClustersOfGroups(GroupByTarget(kmerHits), minKmers, build)
  {
    var hitsByTargetSequence: seq<TargetHits> := [];
    var i := 0;
    while i < |kmerHits|
      invariant 0 <= i <= |kmerHits|
      invariant hitsByTargetSequence == GroupByTarget(kmerHits[..i])
    {
      assert kmerHits[..i + 1][..i] == kmerHits[..i];
      hitsByTargetSequence := AddHit(hitsByTargetSequence, kmerHits[i]);
      i := i + 1;
    }
    assert kmerHits[..i] == kmerHits;
    clusters := [];
    var j := 0;
    while j < |hitsByTargetSequence|
      invariant 0 <= j <= |hitsByTargetSequence|
      invariant clusters == ClustersOfGroups(hitsByTargetSequence[..j], minKmers, build)
    {
      var targetHits := hitsByTargetSequence[j];
      assert hitsByTargetSequence[..j + 1][..j] == hitsByTargetSequence[..j];
      if |targetHits.hits| >= minKmers {
        var more := ClusterSequenceKmerAlns(targetHits.target, targetHits.hits, build);
        clusters := clusters + more;
      }
      j := j + 1;
    }
    assert hitsByTargetSequence[..j] == hitsByTargetSequence;
  }

  // ---------------------------------------------------------------------------
  // Targets stay below the query

  /** Every hit lies in a read with an id in [0, bound). */
  ghost predicate HitsBelow(hs: seq<FMHit>, bound: int)
  {
    forall k :: 0 <= k < |hs| ==> 0 <= hs[k].sequenceIdx < bound
  }

  /** The index reports only reads that exist: no negative read ids. */
  ghost predicate HitsInRange(kmers: seq<KmerSearch>)
  {
    forall i, k :: 0 <= i < |kmers| && 0 <= k < |kmers[i].hits| ==> kmers[i].hits[k].sequenceIdx >= 0
  }

  lemma {:induction false} EarlierHitsBelow(queryIdx: int, start: int, hs: seq<FMHit>)
    requires forall k :: 0 <= k < |hs| ==> hs[k].sequenceIdx >= 0
    ensures HitsBelow(EarlierHits(queryIdx, start, hs), queryIdx)
  {
    if hs != [] {
      var init := hs[..|hs| - 1];
      EarlierHitsBelow(queryIdx, start, init);
      var a := EarlierHits(queryIdx, start, init);
      var h := hs[|hs| - 1];
      var b: seq<FMHit> := if h.sequenceIdx < queryIdx then [h.(queryIdx := start)] else [];
      assert EarlierHits(queryIdx, start, hs) == a + b;
    }
  }

  /** Hits of the query are collected only on reads with smaller ids. */
  lemma {:induction false} CollectedHitsBelow(queryIdx: int, kmers: seq<KmerSearch>)
    requires HitsInRange(kmers)
    ensures HitsBelow(CollectedHits(queryIdx, kmers), queryIdx)
  {
    if kmers != [] {
      var init := kmers[..|kmers| - 1];
      var k := kmers[|kmers| - 1];
      assert HitsInRange(init) by {
        forall i, j | 0 <= i < |init| && 0 <= j < |init[i].hits| ensures init[i].hits[j].sequenceIdx >= 0 {
          assert init[i] == kmers[i];
        }
      }
      CollectedHitsBelow(queryIdx, init);
      EarlierHitsBelow(queryIdx, k.start, k.hits);
      var a: seq<FMHit> := CollectedHits(queryIdx, init);
      var b: seq<FMHit> := EarlierHits(queryIdx, k.start, k.hits);
      assert CollectedHits(queryIdx, kmers) == a + b;
      forall j | 0 <= j < |a + b| ensures 0 <= (a + b)[j].sequenceIdx < queryIdx {
        if j >= |a| { assert (a + b)[j] == b[j - |a|]; }
      }
    }
  }

  /** Every cluster lies on a read with an id in [0, bound). */
  ghost predicate ClustersBelow(clusters: seq<KmerCluster>, bound: int)
  {
    forall k :: 0 <= k < |clusters| ==> 0 <= clusters[k].sequenceIdx < bound
  }

  /** The distinct-k-mer count, the sort key of the clusters. */
  function DifferentKmers(c: KmerCluster): int
  {
    c.shape.numDifferentKmers
  }

  /** The clusters of the filtered hits, by non-increasing distinct-k-mer count. */
  function SortedClusters(filteredHits: seq<FMHit>, minKmers: int, build: seq<FMHit> -> ClusterShape): (r: seq<KmerCluster>)
    ensures SortedDesc(r, DifferentKmers)
  {
    SortDesc(ClustersOfGroups(GroupByTarget(filteredHits), minKmers, build), DifferentKmers)
  }

  /** Clusters are formed only on the reads the hits lie on. */
  lemma SortedClustersBelow(filteredHits: seq<FMHit>, minKmers: int, build: seq<FMHit> -> ClusterShape, bound: int)
    requires HitsBelow(filteredHits, bound)
    ensures ClustersBelow(SortedClusters(filteredHits, minKmers, build), bound)
  {
    var groups := GroupByTarget(filteredHits);
    GroupByTargetExact(filteredHits);
    var cs := ClustersOfGroups(groups, minKmers, build);
    ClustersOfGroupsFrom(groups, minKmers, build);
    var r := SortedClusters(filteredHits, minKmers, build);
    forall k | 0 <= k < |r| ensures 0 <= r[k].sequenceIdx < bound {
      assert r[k] in multiset(cs);
      var j :| 0 <= j < |cs| && cs[j] == r[k];
      var t := cs[j].sequenceIdx;
      assert t in LargeTargets(groups, minKmers);
      var g :| g in groups && |g.hits| >= minKmers && g.target == t;
      assert t in Targets(groups);
      var h :| h in filteredHits && h.sequenceIdx == t;
      var i :| 0 <= i < |filteredHits| && filteredHits[i] == h;
    }
  }

  /** Dropping hits keeps the survivors below the bound. */
  lemma FilterHitsBelow(hs: seq<FMHit>, p: FMHit -> bool, bound: int)
    requires HitsBelow(hs, bound)
    ensures HitsBelow(Filter(hs, p), bound)
  {
    FilterMembers(hs, p);
    var r := Filter(hs, p);
    forall k | 0 <= k < |r| ensures 0 <= r[k].sequenceIdx < bound {
      var i :| 0 <= i < |hs| && hs[i] == r[k];
    }
  }

  // ---------------------------------------------------------------------------
  // Classifying a cluster

  /** Classifies a cluster of the query on a target read, from the target
      coordinates the cluster predicts for the query (made zero-based):
      inside the target, an embedding when the evidence is strong enough;
      past its end, an edge from the target's end to the query; before its
      start, an edge from the query to the target's start; past both ends,
      nothing. */
  function Classify(lengths: seq<int>, queryIdx: int, queryRC: bool, c: KmerCluster,
                    weightedProportion: real, minKmerPercentage: int): Action
    requires 0 <= queryIdx < |lengths| && 0 <= c.sequenceIdx < |lengths|
  {
    var queryLength := lengths[queryIdx];
    var target := c.sequenceIdx;
    var targetLength := lengths[target];
    var firstTarget := c.shape.first - 1;
    var lastTarget := c.shape.last - 1;
    var strong := 100.0 * weightedProportion >= (2 * minKmerPercentage) as real && c.shape.queryCoverage >= 0.5;
    if firstTarget >= 0 && lastTarget < targetLength then
      if strong then AddEmbedding(Embedding(target, queryIdx, firstTarget, queryRC)) else NoChange
    else if firstTarget >= 0 then
      var overlap := targetLength - firstTarget;
      if c.shape.queryCoverage * queryLength as real > 0.5 * overlap as real then
        AddEdge(GraphEdge(GraphVertex(target, false), GraphVertex(queryIdx, !queryRC),
                          targetLength + queryLength - overlap, overlap))
      else NoChange
    else if lastTarget < targetLength then
      var overlap := lastTarget + 1;
      if c.shape.queryCoverage * queryLength as real > 0.5 * overlap as real then
        AddEdge(GraphEdge(GraphVertex(queryIdx, queryRC), GraphVertex(target, true),
                          targetLength + queryLength - overlap, overlap))
      else NoChange
    else NoChange
  }

  /** An action of the query `q`: an embedding of `q` in an earlier read, or
      an edge between `q` and an earlier read whose cost and overlap add up
      to the two read lengths. */
  ghost predicate ActionOfQuery(a: Action, q: int, lengths: seq<int>)
  {
    match a
    case AddEmbedding(m) => m.seqIdx == q && 0 <= m.hostIdx < q && EmbeddingSound(m, lengths)
    case AddEdge(e) =>
      EdgeSound(e, lengths)
      && ((e.v1.seqIdx == q && 0 <= e.v2.seqIdx < q) || (e.v2.seqIdx == q && 0 <= e.v1.seqIdx < q))
    case NoChange => true
  }

  /** The classification of a cluster, as the geometry dictates: an embedding
      exactly when the cluster lies inside the target and the evidence is
      strong; an edge only with query coverage above half the overlap, the
      overlap never longer than the target, cost plus overlap equal to the
      two lengths, and the target's end joined to the query when the query
      runs past the target's end, the query joined to the target's start
      when it starts before it, and an edge whenever exactly one end is
      exceeded and the coverage test passes; nothing when the cluster
      exceeds both ends. */
  lemma ClassifySpec(lengths: seq<int>, queryIdx: int, queryRC: bool, c: KmerCluster,
                     weightedProportion: real, minKmerPercentage: int)
    requires 0 <= queryIdx < |lengths| && 0 <= c.sequenceIdx < queryIdx
    ensures var a := Classify(lengths, queryIdx, queryRC, c, weightedProportion, minKmerPercentage);
      var ql := lengths[queryIdx];
      var t := c.sequenceIdx;
      var tl := lengths[t];
      var first := c.shape.first - 1;
      var last := c.shape.last - 1;
      && ActionOfQuery(a, queryIdx, lengths)
      && (a.AddEmbedding? <==> first >= 0 && last < tl && c.shape.queryCoverage >= 0.5
                               && 100.0 * weightedProportion >= (2 * minKmerPercentage) as real)
      && (a.AddEmbedding? ==> a.embedding == Embedding(t, queryIdx, first, queryRC))
      && (a.AddEdge? ==>
            && a.edge.cost + a.edge.overlap == tl + ql
            && a.edge.overlap <= tl
            && c.shape.queryCoverage * ql as real > 0.5 * a.edge.overlap as real
            && (first >= 0 ==>
                  last >= tl && a.edge.overlap == tl - first
                  && a.edge.v1 == GraphVertex(t, false) && a.edge.v2 == GraphVertex(queryIdx, !queryRC))
            && (first < 0 ==>
                  last < tl && a.edge.overlap == last + 1
                  && a.edge.v1 == GraphVertex(queryIdx, queryRC) && a.edge.v2 == GraphVertex(t, true)))
      && (first >= 0 && last >= tl && c.shape.queryCoverage * ql as real > 0.5 * (tl - first) as real ==> a.AddEdge?)
      && (first < 0 && last < tl && c.shape.queryCoverage * ql as real > 0.5 * (last + 1) as real ==> a.AddEdge?)
      && (first < 0 && last >= tl ==> a == NoChange)
  {
  }

  /** Every classification joins the query to an earlier read. */
  lemma ClassifyOfQuery(lengths: seq<int>, queryIdx: int, queryRC: bool, c: KmerCluster,
                        weightedProportion: real, minKmerPercentage: int)
    requires 0 <= queryIdx < |lengths| && 0 <= c.sequenceIdx < queryIdx
    ensures ActionOfQuery(Classify(lengths, queryIdx, queryRC, c, weightedProportion, minKmerPercentage), queryIdx, lengths)
  {
    ClassifySpec(lengths, queryIdx, queryRC, c, weightedProportion, minKmerPercentage);
  }

  /** Classifies a cluster and writes the outcome into the graph; answers
      whether the query was found embedded. */
  method ProcessAlignment(graph: AssemblyGraph, querySequenceId: int, queryRC: bool, cluster: KmerCluster,
                          weightedProportion: real, minKmerPercentage: int)
    returns (isEmbedded: bool)
    requires graph.Valid()
    requires 0 <= querySequenceId < |graph.lengths| && 0 <= cluster.sequenceIdx < querySequenceId
    modifies graph
    ensures graph.Valid()
    ensures var a := Classify(graph.lengths, querySequenceId, queryRC, cluster, weightedProportion, minKmerPercentage);
      && graph.edges == old(graph.edges) + EdgesOf([a])
      && graph.embeddings == old(graph.embeddings) + EmbeddingsOf([a])
      && isEmbedded == a.AddEmbedding?
  {
    isEmbedded := false;
    var queryLength := graph.lengths[querySequenceId];
    var targetSeqIdx := cluster.sequenceIdx;
    var targetLength := graph.lengths[targetSeqIdx];
    var firstTarget := cluster.shape.first - 1;
    var lastTarget := cluster.shape.last - 1;
    if firstTarget >= 0 && lastTarget < targetLength {
      if 100.0 * weightedProportion >= (2 * minKmerPercentage) as real && cluster.shape.queryCoverage >= 0.5 {
        graph.AddEmbedded(Embedding(targetSeqIdx, querySequenceId, firstTarget, queryRC));
        isEmbedded := true;
      }
    } else if firstTarget >= 0 {
      var vertexTarget := GraphVertex(targetSeqIdx, false);
      var vertexQuery := if queryRC then GraphVertex(querySequenceId, false) else GraphVertex(querySequenceId, true);
      var overlap := targetLength - firstTarget;
      if cluster.shape.queryCoverage * queryLength as real > 0.5 * overlap as real {
        var cost := targetLength + queryLength - overlap;
        graph.AddEdge(GraphEdge(vertexTarget, vertexQuery, cost, overlap));
      }
    } else if lastTarget < targetLength {
      var vertexTarget := GraphVertex(targetSeqIdx, true);
      var vertexQuery := if queryRC then GraphVertex(querySequenceId, true) else GraphVertex(querySequenceId, false);
      var overlap := lastTarget + 1;
      if cluster.shape.queryCoverage * queryLength as real > 0.5 * overlap as real {
        var cost := targetLength + queryLength - overlap;
        graph.AddEdge(GraphEdge(vertexQuery, vertexTarget, cost, overlap));
      }
    }
  }

  /** The edges among the actions, in order. */
  function EdgesOf(actions: seq<Action>): (r: seq<GraphEdge>)
    ensures |r| <= |actions|
  {
    if actions == [] then []
    else
      var a := actions[|actions| - 1];
      EdgesOf(actions[..|actions| - 1]) + (if a.AddEdge? then [a.edge] else [])
  }

  /** The embeddings among the actions, in order. */
  function EmbeddingsOf(actions: seq<Action>): (r: seq<Embedding>)
    ensures |r| <= |actions|
  {
    if actions == [] then []
    else
      var a := actions[|actions| - 1];
      EmbeddingsOf(actions[..|actions| - 1]) + (if a.AddEmbedding? then [a.embedding] else [])
  }

  lemma ActionsAppend(a: seq<Action>, b: seq<Action>)
    ensures EdgesOf(a + b) == EdgesOf(a) + EdgesOf(b)
    ensures EmbeddingsOf(a + b) == EmbeddingsOf(a) + EmbeddingsOf(b)
    decreases |b|
  {
    if b != [] {
      var b' := b[..|b| - 1];
      assert (a + b)[..|a + b| - 1] == a + b';
      ActionsAppend(a, b');
    } else {
      assert a + b == a;
    }
  }

  // ---------------------------------------------------------------------------
  // The clusters of one strand of one read

  /** What a strand's search fixes before the clusters are visited. */
  datatype Pass = Pass(queryIdx: int, queryRC: bool, averageHits: real, kmersCount: int, minKmerPercentage: int)

  ghost predicate PassReady(lengths: seq<int>, pass: Pass, clusters: seq<KmerCluster>)
  {
    && 0 <= pass.queryIdx < |lengths| && pass.averageHits >= 0.0 && pass.kmersCount > 0
    && ClustersBelow(clusters, pass.queryIdx)
  }

  /** The actions of the clusters from the `i`-th on, best first: at most ten
      clusters; the scan ends at a cluster whose weighted count is below the
      minimum percentage of the query's k-mers, at a later cluster weighing
      less than a third of the first, or after an embedding. */
  function Scan(lengths: seq<int>, pass: Pass, clusters: seq<KmerCluster>, i: nat, maxScore: real): seq<Action>
    requires PassReady(lengths, pass, clusters)
    decreases |clusters| - i
  {
    if i >= |clusters| || i >= MAX_CLUSTERS then []
    else
      var c := clusters[i];
      var w := WeightedCount(c.shape.hitsByQueryIdx, pass.averageHits);
      var pct := 100.0 * w / pass.kmersCount as real;
      if pct < pass.minKmerPercentage as real then []
      else if i > 0 && 3.0 * w < maxScore then []
      else
        var a := Classify(lengths, pass.queryIdx, pass.queryRC, c, w / pass.kmersCount as real, pass.minKmerPercentage);
        [a] + (if a.AddEmbedding? then [] else Scan(lengths, pass, clusters, i + 1, if i == 0 then w else maxScore))
  }

  /** The last action embeds the query. */
  predicate EndsEmbedded(actions: seq<Action>)
  {
    |actions| > 0 && actions[|actions| - 1].AddEmbedding?
  }

  /** Only the last action may be an embedding. */
  ghost predicate EmbeddingLast(actions: seq<Action>)
  {
    forall k :: 0 <= k < |actions| - 1 ==> !actions[k].AddEmbedding?
  }

  /** The shape of a scan: empty, or one action followed by the rest of the
      scan unless that action is an embedding. */
  lemma ScanShape(lengths: seq<int>, pass: Pass, clusters: seq<KmerCluster>, i: nat, maxScore: real)
    returns (a: Action, m: real)
    requires PassReady(lengths, pass, clusters)
    ensures var r := Scan(lengths, pass, clusters, i, maxScore);
      r != [] ==>
        && i < |clusters| && i < MAX_CLUSTERS
        && r == [a] + (if a.AddEmbedding? then [] else Scan(lengths, pass, clusters, i + 1, m))
        && ActionOfQuery(a, pass.queryIdx, lengths)
  {
    if i < |clusters| && i < MAX_CLUSTERS {
      var c := clusters[i];
      var w := WeightedCount(c.shape.hitsByQueryIdx, pass.averageHits);
      a := Classify(lengths, pass.queryIdx, pass.queryRC, c, w / pass.kmersCount as real, pass.minKmerPercentage);
      m := if i == 0 then w else maxScore;
      ClassifyOfQuery(lengths, pass.queryIdx, pass.queryRC, c, w / pass.kmersCount as real, pass.minKmerPercentage);
    } else {
      a, m := NoChange, maxScore;
    }
  }

  /** A scan visits at most ten clusters, none past the last, and stops at
      the first embedding. */
  lemma {:induction false} ScanBounds(lengths: seq<int>, pass: Pass, clusters: seq<KmerCluster>, i: nat, maxScore: real)
    requires PassReady(lengths, pass, clusters)
    ensures var r := Scan(lengths, pass, clusters, i, maxScore);
      && |r| <= Max(0, MAX_CLUSTERS - i)
      && |r| <= Max(0, |clusters| - i)
      && EmbeddingLast(r)
    decreases |clusters| - i
  {
    var r := Scan(lengths, pass, clusters, i, maxScore);
    var a, m := ScanShape(lengths, pass, clusters, i, maxScore);
    if r != [] {
      if !a.AddEmbedding? {
        var rest := Scan(lengths, pass, clusters, i + 1, m);
        ScanBounds(lengths, pass, clusters, i + 1, m);
        assert r == [a] + rest;
      } else {
        assert r == [a];
      }
    }
  }

  /** Every action of a scan joins the query to an earlier read. */
  lemma {:induction false} ScanOfQuery(lengths: seq<int>, pass: Pass, clusters: seq<KmerCluster>, i: nat, maxScore: real)
    requires PassReady(lengths, pass, clusters)
    ensures var r := Scan(lengths, pass, clusters, i, maxScore);
      forall k :: 0 <= k < |r| ==> ActionOfQuery(r[k], pass.queryIdx, lengths)
    decreases |clusters| - i
  {
    var r := Scan(lengths, pass, clusters, i, maxScore);
    var a, m := ScanShape(lengths, pass, clusters, i, maxScore);
    if r != [] {
      var rest := if a.AddEmbedding? then [] else Scan(lengths, pass, clusters, i + 1, m);
      if !a.AddEmbedding? {
        ScanOfQuery(lengths, pass, clusters, i + 1, m);
      }
      assert r == [a] + rest;
      forall k | 0 <= k < |r| ensures ActionOfQuery(r[k], pass.queryIdx, lengths) {
        if k > 0 { assert r[k] == rest[k - 1]; }
      }
    }
  }

  /** One step of the scan, unfolded. */
  lemma ScanStep(lengths: seq<int>, pass: Pass, clusters: seq<KmerCluster>, i: nat, maxScore: real)
    requires PassReady(lengths, pass, clusters)
    requires i < |clusters| && i < MAX_CLUSTERS
    ensures var w := WeightedCount(clusters[i].shape.hitsByQueryIdx, pass.averageHits);
      var a := Classify(lengths, pass.queryIdx, pass.queryRC, clusters[i], w / pass.kmersCount as real, pass.minKmerPercentage);
      Scan(lengths, pass, clusters, i, maxScore)
        == if 100.0 * w / pass.kmersCount as real < pass.minKmerPercentage as real then []
           else if i > 0 && 3.0 * w < maxScore then []
           else [a] + (if a.AddEmbedding? then [] else Scan(lengths, pass, clusters, i + 1, if i == 0 then w else maxScore))
  {
  }

  /** The weighted count of a cluster in this strand's search. */
  function ClusterWeight(pass: Pass, c: KmerCluster): real
    requires pass.averageHits >= 0.0
  {
    WeightedCount(c.shape.hitsByQueryIdx, pass.averageHits)
  }

  /** The cluster's weighted count reaches the minimum percentage of the
      query's k-mers. */
  predicate ReachesPercentage(pass: Pass, c: KmerCluster)
    requires pass.averageHits >= 0.0 && pass.kmersCount > 0
  {
    100.0 * ClusterWeight(pass, c) / pass.kmersCount as real >= pass.minKmerPercentage as real
  }

  /** `act` is what the scan does at cluster `idx`: the cluster is one of the
      first ten, reaches the minimum percentage and, unless it is the first
      cluster, weighs at least a third of the first; `act` classifies it. */
  ghost predicate VisitedCluster(lengths: seq<int>, pass: Pass, clusters: seq<KmerCluster>, idx: int, act: Action)
    requires PassReady(lengths, pass, clusters)
  {
    && 0 <= idx < |clusters| && idx < MAX_CLUSTERS
    && ReachesPercentage(pass, clusters[idx])
    && (idx > 0 ==> 3.0 * ClusterWeight(pass, clusters[idx]) >= ClusterWeight(pass, clusters[0]))
    && act == Classify(lengths, pass.queryIdx, pass.queryRC, clusters[idx],
                       ClusterWeight(pass, clusters[idx]) / pass.kmersCount as real, pass.minKmerPercentage)
  }

  /** The first action of a non-empty scan is what the scan does at cluster
      `i`; the rest is the scan from `i + 1`, still measured against the
      first cluster's weight. */
  lemma ScanHead(lengths: seq<int>, pass: Pass, clusters: seq<KmerCluster>, i: nat, maxScore: real)
    returns (m: real, rest: seq<Action>)
    requires PassReady(lengths, pass, clusters)
    requires 0 < i && 0 < |clusters| ==> maxScore == ClusterWeight(pass, clusters[0])
    ensures var r := Scan(lengths, pass, clusters, i, maxScore);
      r != [] ==>
        && i < |clusters|
        && VisitedCluster(lengths, pass, clusters, i, r[0])
        && r == [r[0]] + rest
        && rest == (if r[0].AddEmbedding? then [] else Scan(lengths, pass, clusters, i + 1, m))
        && (0 < |clusters| ==> m == ClusterWeight(pass, clusters[0]))
  {
    m, rest := maxScore, [];
    if i >= |clusters| || i >= MAX_CLUSTERS {
      ScanPastEnd(lengths, pass, clusters, i, maxScore);
    } else {
      var w := ClusterWeight(pass, clusters[i]);
      if 100.0 * w / pass.kmersCount as real < pass.minKmerPercentage as real || (i > 0 && 3.0 * w < maxScore) {
        ScanStops(lengths, pass, clusters, i, maxScore);
      } else {
        ScanContinues(lengths, pass, clusters, i, maxScore);
        var a := Classify(lengths, pass.queryIdx, pass.queryRC, clusters[i], w / pass.kmersCount as real, pass.minKmerPercentage);
        m := if i == 0 then w else maxScore;
        rest := if a.AddEmbedding? then [] else Scan(lengths, pass, clusters, i + 1, m);
        assert VisitedCluster(lengths, pass, clusters, i, a);
      }
    }
  }

  /** The `k`-th action of a scan started at cluster `i` is what the scan
      does at cluster `i + k`. */
  lemma {:induction false} ScanVisitsPassingClusters(lengths: seq<int>, pass: Pass, clusters: seq<KmerCluster>,
                                                     i: nat, maxScore: real)
    requires PassReady(lengths, pass, clusters)
    requires 0 < i && 0 < |clusters| ==> maxScore == ClusterWeight(pass, clusters[0])
    ensures forall k {:trigger Scan(lengths, pass, clusters, i, maxScore)[k]} ::
      0 <= k < |Scan(lengths, pass, clusters, i, maxScore)| ==>
        VisitedCluster(lengths, pass, clusters, i + k, Scan(lengths, pass, clusters, i, maxScore)[k])
    decreases |clusters| - i
  {
    var r := Scan(lengths, pass, clusters, i, maxScore);
    var m, rest := ScanHead(lengths, pass, clusters, i, maxScore);
    if r != [] {
      if r[0].AddEmbedding? {
        assert rest == [];
      } else {
        ScanVisitsPassingClusters(lengths, pass, clusters, i + 1, m);
      }
      VisitedCons(lengths, pass, clusters, i, r, rest);
    }
  }

  /** Actions visiting clusters `i + 1`, `i + 2`, ... preceded by the action
      at cluster `i` visit clusters `i`, `i + 1`, ... */
  lemma VisitedCons(lengths: seq<int>, pass: Pass, clusters: seq<KmerCluster>, i: int, r: seq<Action>, rest: seq<Action>)
    requires PassReady(lengths, pass, clusters)
    requires r != [] && r == [r[0]] + rest
    requires VisitedCluster(lengths, pass, clusters, i, r[0])
    requires forall k :: 0 <= k < |rest| ==> VisitedCluster(lengths, pass, clusters, i + 1 + k, rest[k])
    ensures forall k :: 0 <= k < |r| ==> VisitedCluster(lengths, pass, clusters, i + k, r[k])
  {
    forall k | 0 < k < |r| ensures VisitedCluster(lengths, pass, clusters, i + k, r[k]) {
      assert r[k] == rest[k - 1];
      assert i + 1 + (k - 1) == i + k;
    }
  }

  /** Once a cluster falls below the minimum percentage, neither it nor any
      later cluster gives an action: the strand's scan is shorter than its
      index. */
  lemma ScanStopsBelowPercentage(lengths: seq<int>, pass: Pass, clusters: seq<KmerCluster>, j: nat)
    requires PassReady(lengths, pass, clusters)
    requires j < |clusters| && !ReachesPercentage(pass, clusters[j])
    ensures |Scan(lengths, pass, clusters, 0, 0.0)| <= j
  {
    var r := Scan(lengths, pass, clusters, 0, 0.0);
    ScanVisitsPassingClusters(lengths, pass, clusters, 0, 0.0);
    assert |r| > j ==> !VisitedCluster(lengths, pass, clusters, j, r[j]);
  }

  /** Visits the `i`-th cluster: stops the scan, or classifies the cluster
      and writes its outcome into the graph. */
  method VisitCluster(graph: AssemblyGraph, pass: Pass, clusteredKmerAlns: seq<KmerCluster>, i: nat, maxScoreCluster: real)
    returns (stop: bool, isEmbedded: bool, newMaxScore: real, ghost step: seq<Action>)
    requires graph.Valid() && PassReady(graph.lengths, pass, clusteredKmerAlns)
    requires i < |clusteredKmerAlns| && i < MAX_CLUSTERS
    modifies graph
    ensures graph.Valid()
    ensures graph.edges == old(graph.edges) + EdgesOf(step)
    ensures graph.embeddings == old(graph.embeddings) + EmbeddingsOf(step)
    ensures Scan(graph.lengths, pass, clusteredKmerAlns, i, maxScoreCluster)
      == step + (if stop then [] else Scan(graph.lengths, pass, clusteredKmerAlns, i + 1, newMaxScore))
    ensures isEmbedded == EndsEmbedded(step) && (isEmbedded ==> stop)
    ensures !stop ==> |step| == 1 && !isEmbedded
  {
    ghost var lengths := graph.lengths;
    var cluster := clusteredKmerAlns[i];
    var weightedCountCluster := GetWeightedCount(cluster, pass.averageHits);
    newMaxScore := maxScoreCluster;
    var pct := 100.0 * weightedCountCluster / pass.kmersCount as real;
    if pct < pass.minKmerPercentage as real {
      ScanStops(lengths, pass, clusteredKmerAlns, i, maxScoreCluster);
      return true, false, newMaxScore, [];
    }
    if i == 0 {
      newMaxScore := weightedCountCluster;
    } else if 3.0 * weightedCountCluster < maxScoreCluster {
      ScanStops(lengths, pass, clusteredKmerAlns, i, maxScoreCluster);
      return true, false, newMaxScore, [];
    }
    var weightedProportion := weightedCountCluster / pass.kmersCount as real;
    ghost var a := Classify(lengths, pass.queryIdx, pass.queryRC, cluster, weightedProportion, pass.minKmerPercentage);
    ScanContinues(lengths, pass, clusteredKmerAlns, i, maxScoreCluster);
    isEmbedded := ProcessAlignment(graph, pass.queryIdx, pass.queryRC, cluster, weightedProportion, pass.minKmerPercentage);
    step := [a];
    stop := isEmbedded;
  }

  /** The scan stops at a cluster below the minimum percentage, or at a later
      cluster weighing less than a third of the first. */
  lemma ScanStops(lengths: seq<int>, pass: Pass, clusters: seq<KmerCluster>, i: nat, maxScore: real)
    requires PassReady(lengths, pass, clusters)
    requires i < |clusters| && i < MAX_CLUSTERS
    requires var w := ClusterWeight(pass, clusters[i]);
      100.0 * w / pass.kmersCount as real < pass.minKmerPercentage as real || (i > 0 && 3.0 * w < maxScore)
    ensures Scan(lengths, pass, clusters, i, maxScore) == []
  {
    ScanStep(lengths, pass, clusters, i, maxScore);
  }

  /** At a cluster that passes both thresholds, the scan classifies it and
      goes on unless that gave an embedding. */
  lemma ScanContinues(lengths: seq<int>, pass: Pass, clusters: seq<KmerCluster>, i: nat, maxScore: real)
    requires PassReady(lengths, pass, clusters)
    requires i < |clusters| && i < MAX_CLUSTERS
    requires var w := ClusterWeight(pass, clusters[i]);
      !(100.0 * w / pass.kmersCount as real < pass.minKmerPercentage as real || (i > 0 && 3.0 * w < maxScore))
    ensures var w := ClusterWeight(pass, clusters[i]);
      var a := Classify(lengths, pass.queryIdx, pass.queryRC, clusters[i], w / pass.kmersCount as real, pass.minKmerPercentage);
      Scan(lengths, pass, clusters, i, maxScore)
        == [a] + (if a.AddEmbedding? then [] else Scan(lengths, pass, clusters, i + 1, if i == 0 then w else maxScore))
  {
    ScanStep(lengths, pass, clusters, i, maxScore);
  }

  /** A scan past the last cluster or the tenth takes no action. */
  lemma ScanPastEnd(lengths: seq<int>, pass: Pass, clusters: seq<KmerCluster>, i: nat, maxScore: real)
    requires PassReady(lengths, pass, clusters)
    requires i >= |clusters| || i >= MAX_CLUSTERS
    ensures Scan(lengths, pass, clusters, i, maxScore) == []
  {
  }

  /** Appending the actions of one visited cluster to those taken so far. */
  lemma StepTaken(edges0: seq<GraphEdge>, embeddings0: seq<Embedding>, before: seq<Action>, step: seq<Action>,
                  rest: seq<Action>, total: seq<Action>)
    requires before + (step + rest) == total
    ensures (before + step) + rest == total
    ensures rest == [] ==> before + step == total
    ensures edges0 + EdgesOf(before) + EdgesOf(step) == edges0 + EdgesOf(before + step)
    ensures embeddings0 + EmbeddingsOf(before) + EmbeddingsOf(step) == embeddings0 + EmbeddingsOf(before + step)
    ensures step == [] ==> before + step == before
    ensures step != [] ==> EndsEmbedded(before + step) == EndsEmbedded(step)
  {
    SeqAssoc(before, step, rest);
    ActionsAppend(before, step);
    SeqAssoc(edges0, EdgesOf(before), EdgesOf(step));
    SeqAssoc(embeddings0, EmbeddingsOf(before), EmbeddingsOf(step));
    if rest == [] {
      assert step + rest == step;
      assert (before + step) + rest == before + step;
    }
    if step == [] {
      assert before + step == before;
    }
  }

  /** Visits the sorted clusters of one strand and writes their outcome into
      the graph; answers whether the query was found embedded. */
  method ProcessClusters(graph: AssemblyGraph, pass: Pass, clusteredKmerAlns: seq<KmerCluster>)
    returns (isEmbedded: bool)
    requires graph.Valid() && PassReady(graph.lengths, pass, clusteredKmerAlns)
    modifies graph
    ensures graph.Valid()
    ensures var acts := Scan(graph.lengths, pass, clusteredKmerAlns, 0, 0.0);
      && graph.edges == old(graph.edges) + EdgesOf(acts)
      && graph.embeddings == old(graph.embeddings) + EmbeddingsOf(acts)
      && isEmbedded == EndsEmbedded(acts)
  {
    ghost var lengths := graph.lengths;
    ghost var edges0, embeddings0 := graph.edges, graph.embeddings;
    ghost var total := Scan(lengths, pass, clusteredKmerAlns, 0, 0.0);
    ghost var done: seq<Action> := [];
    isEmbedded := false;
    var maxScoreCluster := 0.0;
    var i := 0;
    assert edges0 + EdgesOf(done) == edges0;
    assert embeddings0 + EmbeddingsOf(done) == embeddings0;
    while i < |clusteredKmerAlns| && i < MAX_CLUSTERS
      invariant 0 <= i <= |clusteredKmerAlns|
      invariant graph.Valid() && graph.lengths == lengths
      invariant done + Scan(lengths, pass, clusteredKmerAlns, i, maxScoreCluster) == total
      invariant graph.edges == edges0 + EdgesOf(done)
      invariant graph.embeddings == embeddings0 + EmbeddingsOf(done)
      invariant !isEmbedded && !EndsEmbedded(done)
    {
      ghost var step;
      ghost var before := done;
      var stop;
      stop, isEmbedded, maxScoreCluster, step := VisitCluster(graph, pass, clusteredKmerAlns, i, maxScoreCluster);
      ghost var rest := if stop then [] else Scan(lengths, pass, clusteredKmerAlns, i + 1, maxScoreCluster);
      StepTaken(edges0, embeddings0, before, step, rest, total);
      done := before + step;
      if stop {
        return;
      }
      i := i + 1;
    }
    ScanPastEnd(lengths, pass, clusteredKmerAlns, i, maxScoreCluster);
    assert done + [] == done;
  }

  // ---------------------------------------------------------------------------
  // One strand of one read

  /** The average number of occurrences of the strand's k-mers. */
  function AverageHits(kmers: seq<KmerSearch>): (r: real)
    requires |kmers| > 0
    ensures r >= 0.0
  {
    TotalHits(kmers) as real / |kmers| as real
  }

  /** The strand's hits on earlier reads, without those of repetitive k-mers. */
  function StrandHits(queryIdx: int, kmers: seq<KmerSearch>): (r: seq<FMHit>)
    requires |kmers| > 0 && HitsInRange(kmers)
    ensures HitsBelow(r, queryIdx)
  {
    CollectedHitsBelow(queryIdx, kmers);
    FilterHitsBelow(CollectedHits(queryIdx, kmers), NotRepetitive(AverageHits(kmers)), queryIdx);
    Filter(CollectedHits(queryIdx, kmers), NotRepetitive(AverageHits(kmers)))
  }

  /** The fewest hits a target needs to be clustered: ten, or half the
      minimum percentage of the query's distinct k-mer positions. */
  function MinTargetHits(minKmerPercentage: int, kmersCount: int): (r: int)
    ensures r >= MIN_TARGET_HITS
  {
    Max(MIN_TARGET_HITS, Trunc(0.5 * minKmerPercentage as real * kmersCount as real / 100.0))
  }

  /** The actions one strand of read `queryIdx` takes: nothing without
      k-mers or without non-repetitive hits; otherwise the scan of the
      clusters of its non-repetitive hits on earlier reads, best first. */
  function StrandActions(lengths: seq<int>, queryIdx: int, queryRC: bool, kmers: seq<KmerSearch>,
                         minKmerPercentage: int, build: seq<FMHit> -> ClusterShape): seq<Action>
    requires 0 <= queryIdx < |lengths| && HitsInRange(kmers)
  {
    if |kmers| == 0 then []
    else
      var filteredHits := StrandHits(queryIdx, kmers);
      var kmersCount := |DistinctStarts(filteredHits)|;
      if kmersCount == 0 then []
      else
        var clusters := SortedClusters(filteredHits, MinTargetHits(minKmerPercentage, kmersCount), build);
        SortedClustersBelow(filteredHits, MinTargetHits(minKmerPercentage, kmersCount), build, queryIdx);
        Scan(lengths, Pass(queryIdx, queryRC, AverageHits(kmers), kmersCount, minKmerPercentage), clusters, 0, 0.0)
  }

  /** A strand takes at most ten actions, all joining the read to earlier
      reads, and only its last action may embed the read. */
  lemma StrandFacts(lengths: seq<int>, queryIdx: int, queryRC: bool, kmers: seq<KmerSearch>,
                    minKmerPercentage: int, build: seq<FMHit> -> ClusterShape)
    requires 0 <= queryIdx < |lengths| && HitsInRange(kmers)
    ensures var r := StrandActions(lengths, queryIdx, queryRC, kmers, minKmerPercentage, build);
      && |r| <= MAX_CLUSTERS
      && EmbeddingLast(r)
      && forall k :: 0 <= k < |r| ==> ActionOfQuery(r[k], queryIdx, lengths)
  {
    if |kmers| > 0 {
      var filteredHits := StrandHits(queryIdx, kmers);
      var kmersCount := |DistinctStarts(filteredHits)|;
      if kmersCount > 0 {
        var minKmers := MinTargetHits(minKmerPercentage, kmersCount);
        var clusters := SortedClusters(filteredHits, minKmers, build);
        SortedClustersBelow(filteredHits, minKmers, build, queryIdx);
        var pass := Pass(queryIdx, queryRC, AverageHits(kmers), kmersCount, minKmerPercentage);
        ScanBounds(lengths, pass, clusters, 0, 0.0);
        ScanOfQuery(lengths, pass, clusters, 0, 0.0);
      }
    }
  }

  /** Searches one strand of a read and writes what its clusters show into
      the graph; answers whether the read was found embedded. */
  method UpdateGraph(graph: AssemblyGraph, querySequenceId: int, queryRC: bool, kmersMap: seq<KmerSearch>,
                     minKmerPercentage: int, build: seq<FMHit> -> ClusterShape)
    returns (isEmbedded: bool)
    requires graph.Valid() && 0 <= querySequenceId < |graph.lengths| && HitsInRange(kmersMap)
    modifies graph
    ensures graph.Valid()
    ensures var acts := StrandActions(graph.lengths, querySequenceId, queryRC, kmersMap, minKmerPercentage, build);
      && graph.edges == old(graph.edges) + EdgesOf(acts)
      && graph.embeddings == old(graph.embeddings) + EmbeddingsOf(acts)
      && isEmbedded == EndsEmbedded(acts)
  {
    isEmbedded := false;
    if |kmersMap| == 0 {
      return;
    }
    var initialKmerHits, kmersCount, totalHits := CollectKmerHits(querySequenceId, kmersMap);
    var averageHits := totalHits as real / kmersCount as real;
    var filteredHits;
    filteredHits, kmersCount := FilterRepetitiveHits(initialKmerHits, averageHits);
    if kmersCount == 0 {
      return;
    }
    var minKmers := MinTargetHits(minKmerPercentage, kmersCount);
    var clusteredKmerAlns := ClusterKmerHits(filteredHits, minKmers, build);
    clusteredKmerAlns := SortDesc(clusteredKmerAlns, DifferentKmers);
    assert filteredHits == StrandHits(querySequenceId, kmersMap);
    assert clusteredKmerAlns == SortedClusters(filteredHits, minKmers, build);
    SortedClustersBelow(filteredHits, minKmers, build, querySequenceId);
    isEmbedded := ProcessClusters(graph, Pass(querySequenceId, queryRC, averageHits, kmersCount, minKmerPercentage),
                                  clusteredKmerAlns);
  }

  // ---------------------------------------------------------------------------
  // The whole graph

  /** The k-mer searches of both strands of one read. */
  datatype ReadSearch = ReadSearch(forward: seq<KmerSearch>, reverse: seq<KmerSearch>)

  ghost predicate SearchesInRange(searches: seq<ReadSearch>)
  {
    forall q :: 0 <= q < |searches| ==> HitsInRange(searches[q].forward) && HitsInRange(searches[q].reverse)
  }

  /** The actions of read `q`: its forward strand, then its reverse
      complement unless the forward strand found it embedded. */
  function ReadActions(lengths: seq<int>, searches: seq<ReadSearch>, q: int,
                       minKmerPercentage: int, build: ReadClusterBuilder): seq<Action>
    requires |searches| == |lengths| && SearchesInRange(searches) && 0 <= q < |searches|
  {
    var forward := StrandActions(lengths, q, false, searches[q].forward, minKmerPercentage, build(q, false));
    if EndsEmbedded(forward) then forward
    else forward + StrandActions(lengths, q, true, searches[q].reverse, minKmerPercentage, build(q, true))
  }

  /** The actions of every read, by read id. */
  function AllReadActions(lengths: seq<int>, searches: seq<ReadSearch>,
                          minKmerPercentage: int, build: ReadClusterBuilder): (r: seq<seq<Action>>)
    requires |searches| == |lengths| && SearchesInRange(searches)
    ensures |r| == |searches|
    ensures forall q :: 0 <= q < |r| ==> r[q] == ReadActions(lengths, searches, q, minKmerPercentage, build)
  {
    seq(|searches|, q requires 0 <= q < |searches| => ReadActions(lengths, searches, q, minKmerPercentage, build))
  }

  /** The actions of several reads, one read after the other. */
  function Concat(rs: seq<seq<Action>>): seq<Action>
  {
    if rs == [] then [] else Concat(rs[..|rs| - 1]) + rs[|rs| - 1]
  }

  /** The edges and embeddings of one more read follow those of the earlier reads. */
  lemma ConcatStep(rs: seq<seq<Action>>, n: nat)
    requires n < |rs|
    ensures EdgesOf(Concat(rs[..n + 1])) == EdgesOf(Concat(rs[..n])) + EdgesOf(rs[n])
    ensures EmbeddingsOf(Concat(rs[..n + 1])) == EmbeddingsOf(Concat(rs[..n])) + EmbeddingsOf(rs[n])
  {
    assert rs[..n + 1][..n] == rs[..n];
    ActionsAppend(Concat(rs[..n]), rs[n]);
  }

  /** Searches both strands of one read as the builder does and writes
      the outcome into the graph. */
  method AddRead(graph: AssemblyGraph, searches: seq<ReadSearch>, seqId: int,
                 minKmerPercentage: int, build: ReadClusterBuilder)
    requires graph.Valid() && |searches| == |graph.lengths| && SearchesInRange(searches)
    requires 0 <= seqId < |searches|
    modifies graph
    ensures graph.Valid()
    ensures var acts := ReadActions(graph.lengths, searches, seqId, minKmerPercentage, build);
      graph.edges == old(graph.edges) + EdgesOf(acts) && graph.embeddings == old(graph.embeddings) + EmbeddingsOf(acts)
  {
    ghost var forward := StrandActions(graph.lengths, seqId, false, searches[seqId].forward, minKmerPercentage, build(seqId, false));
    var isEmbedded := UpdateGraph(graph, seqId, false, searches[seqId].forward, minKmerPercentage, build(seqId, false));
    if !isEmbedded {
      ghost var reverse := StrandActions(graph.lengths, seqId, true, searches[seqId].reverse, minKmerPercentage, build(seqId, true));
      isEmbedded := UpdateGraph(graph, seqId, true, searches[seqId].reverse, minKmerPercentage, build(seqId, true));
      ActionsAppend(forward, reverse);
      SeqAssoc(old(graph.edges), EdgesOf(forward), EdgesOf(reverse));
      SeqAssoc(old(graph.embeddings), EmbeddingsOf(forward), EmbeddingsOf(reverse));
    }
  }

  /** Builds the graph read by read in id order, searching a read's reverse
      complement only when its forward strand is not embedded. */
  method BuildAssemblyGraph(lengths: seq<int>, searches: seq<ReadSearch>,
                            minKmerPercentage: int, build: ReadClusterBuilder)
    returns (graph: AssemblyGraph)
    requires |searches| == |lengths| && SearchesInRange(searches)
    ensures fresh(graph) && graph.Valid() && graph.lengths == lengths
    ensures var acts := Concat(AllReadActions(lengths, searches, minKmerPercentage, build));
      graph.edges == EdgesOf(acts) && graph.embeddings == EmbeddingsOf(acts)
  {
    ghost var all := AllReadActions(lengths, searches, minKmerPercentage, build);
    graph := new AssemblyGraph(lengths);
    var seqId := 0;
    while seqId < |searches|
      invariant 0 <= seqId <= |searches|
      invariant graph.Valid() && graph.lengths == lengths
      invariant graph.edges == EdgesOf(Concat(all[..seqId]))
      invariant graph.embeddings == EmbeddingsOf(Concat(all[..seqId]))
    {
      AddRead(graph, searches, seqId, minKmerPercentage, build);
      ConcatStep(all, seqId);
      seqId := seqId + 1;
    }
    assert all[..seqId] == all;
  }

  // ---------------------------------------------------------------------------
  // Embeddings across the build

  lemma {:induction false} NoEmbeddingsOf(acts: seq<Action>)
    requires forall k :: 0 <= k < |acts| ==> !acts[k].AddEmbedding?
    ensures EmbeddingsOf(acts) == []
  {
    if acts != [] {
      NoEmbeddingsOf(acts[..|acts| - 1]);
    }
  }

  /** Every recorded embedding is the embedding of one of the actions. */
  lemma {:induction false} EmbeddingsFrom(acts: seq<Action>)
    ensures forall k :: 0 <= k < |EmbeddingsOf(acts)| ==> AddEmbedding(EmbeddingsOf(acts)[k]) in acts
  {
    if acts != [] {
      var init := acts[..|acts| - 1];
      EmbeddingsFrom(init);
      var e := EmbeddingsOf(init);
      var a := acts[|acts| - 1];
      var r := EmbeddingsOf(acts);
      assert r == e + (if a.AddEmbedding? then [a.embedding] else []);
      forall k | 0 <= k < |r| ensures AddEmbedding(r[k]) in acts {
        if k < |e| {
          assert r[k] == e[k];
          assert AddEmbedding(e[k]) in init;
        } else {
          assert acts[|acts| - 1] == AddEmbedding(r[k]);
        }
      }
    }
  }

  /** Actions about the query whose only embedding can be the last record at
      most one embedding, exactly when they end with one, and it places the
      query inside an earlier read. */
  lemma EmbeddingsOfQueryActions(r: seq<Action>, queryIdx: int, lengths: seq<int>)
    requires EmbeddingLast(r)
    requires forall k :: 0 <= k < |r| ==> ActionOfQuery(r[k], queryIdx, lengths)
    ensures |EmbeddingsOf(r)| == (if EndsEmbedded(r) then 1 else 0)
    ensures forall k :: 0 <= k < |EmbeddingsOf(r)| ==>
      EmbeddingsOf(r)[k].seqIdx == queryIdx && 0 <= EmbeddingsOf(r)[k].hostIdx < queryIdx
  {
    EmbeddingsFrom(r);
    if EndsEmbedded(r) {
      var init := r[..|r| - 1];
      NoEmbeddingsOf(init);
      assert EmbeddingsOf(r) == [r[|r| - 1].embedding];
    } else {
      NoEmbeddingsOf(r);
    }
    forall k | 0 <= k < |EmbeddingsOf(r)|
      ensures EmbeddingsOf(r)[k].seqIdx == queryIdx && 0 <= EmbeddingsOf(r)[k].hostIdx < queryIdx
    {
      var j :| 0 <= j < |r| && r[j] == AddEmbedding(EmbeddingsOf(r)[k]);
      assert ActionOfQuery(r[j], queryIdx, lengths);
    }
  }

  /** One strand records at most one embedding, exactly when it ends with
      one, and it places the read inside an earlier read. */
  lemma StrandEmbeddings(lengths: seq<int>, queryIdx: int, queryRC: bool, kmers: seq<KmerSearch>,
                         minKmerPercentage: int, build: seq<FMHit> -> ClusterShape)
    requires 0 <= queryIdx < |lengths| && HitsInRange(kmers)
    ensures var r := StrandActions(lengths, queryIdx, queryRC, kmers, minKmerPercentage, build);
      && |EmbeddingsOf(r)| == (if EndsEmbedded(r) then 1 else 0)
      && forall k :: 0 <= k < |EmbeddingsOf(r)| ==>
           EmbeddingsOf(r)[k].seqIdx == queryIdx && 0 <= EmbeddingsOf(r)[k].hostIdx < queryIdx
  {
    var r := StrandActions(lengths, queryIdx, queryRC, kmers, minKmerPercentage, build);
    StrandFacts(lengths, queryIdx, queryRC, kmers, minKmerPercentage, build);
    EmbeddingsOfQueryActions(r, queryIdx, lengths);
  }

  /** A read is recorded as embedded at most once, inside an earlier read:
      the reverse strand is searched only when the forward one found no host. */
  lemma ReadEmbeddings(lengths: seq<int>, searches: seq<ReadSearch>, q: int,
                       minKmerPercentage: int, build: ReadClusterBuilder)
    requires |searches| == |lengths| && SearchesInRange(searches) && 0 <= q < |searches|
    ensures var e := EmbeddingsOf(ReadActions(lengths, searches, q, minKmerPercentage, build));
      && |e| <= 1
      && forall k :: 0 <= k < |e| ==> e[k].seqIdx == q && 0 <= e[k].hostIdx < q
  {
    var forward := StrandActions(lengths, q, false, searches[q].forward, minKmerPercentage, build(q, false));
    StrandEmbeddings(lengths, q, false, searches[q].forward, minKmerPercentage, build(q, false));
    if !EndsEmbedded(forward) {
      var reverse := StrandActions(lengths, q, true, searches[q].reverse, minKmerPercentage, build(q, true));
      StrandEmbeddings(lengths, q, true, searches[q].reverse, minKmerPercentage, build(q, true));
      ActionsAppend(forward, reverse);
      assert EmbeddingsOf(forward) == [];
      assert EmbeddingsOf(forward + reverse) == EmbeddingsOf(reverse);
    }
  }

  /** Embeddings recorded in increasing order of the embedded read, each
      inside an earlier read, all reads below `n`. */
  ghost predicate EmbeddedInOrder(e: seq<Embedding>, n: int)
  {
    && (forall i, j :: 0 <= i < j < |e| ==> e[i].seqIdx < e[j].seqIdx)
    && forall k :: 0 <= k < |e| ==> 0 <= e[k].hostIdx < e[k].seqIdx < n
  }

  lemma EmbeddedInOrderAppend(a: seq<Embedding>, b: seq<Embedding>, q: int)
    requires EmbeddedInOrder(a, q) && |b| <= 1
    requires forall k :: 0 <= k < |b| ==> b[k].seqIdx == q && 0 <= b[k].hostIdx < q
    ensures EmbeddedInOrder(a + b, q + 1)
  {
    var e := a + b;
    forall k | 0 <= k < |e| ensures 0 <= e[k].hostIdx < e[k].seqIdx < q + 1 {
      if k >= |a| { assert e[k] == b[k - |a|]; }
    }
    forall i, j | 0 <= i < j < |e| ensures e[i].seqIdx < e[j].seqIdx {
      if j >= |a| {
        assert e[j] == b[j - |a|];
      }
    }
  }

  /** Per-read actions where read `q` records at most one embedding, of
      itself inside an earlier read. */
  ghost predicate OneEmbeddingPerRead(rs: seq<seq<Action>>)
  {
    forall q :: 0 <= q < |rs| ==>
      |EmbeddingsOf(rs[q])| <= 1
      && forall k :: 0 <= k < |EmbeddingsOf(rs[q])| ==>
           EmbeddingsOf(rs[q])[k].seqIdx == q && 0 <= EmbeddingsOf(rs[q])[k].hostIdx < q
  }

  lemma {:induction false} ConcatEmbeddingsInOrder(rs: seq<seq<Action>>, n: nat)
    requires OneEmbeddingPerRead(rs) && n <= |rs|
    ensures EmbeddedInOrder(EmbeddingsOf(Concat(rs[..n])), n)
  {
    if n > 0 {
      ConcatEmbeddingsInOrder(rs, n - 1);
      ConcatStep(rs, n - 1);
      EmbeddedInOrderAppend(EmbeddingsOf(Concat(rs[..n - 1])), EmbeddingsOf(rs[n - 1]), n - 1);
    } else {
      assert rs[..n] == [];
    }
  }

  /** Over the whole build the embeddings are recorded in increasing order of
      the embedded read, so no read is embedded twice, and every host is an
      earlier read. */
  lemma GraphEmbeddingsInOrder(lengths: seq<int>, searches: seq<ReadSearch>,
                               minKmerPercentage: int, build: ReadClusterBuilder)
    requires |searches| == |lengths| && SearchesInRange(searches)
    ensures EmbeddedInOrder(EmbeddingsOf(Concat(AllReadActions(lengths, searches, minKmerPercentage, build))), |searches|)
  {
    var all := AllReadActions(lengths, searches, minKmerPercentage, build);
    forall q | 0 <= q < |all|
      ensures |EmbeddingsOf(all[q])| <= 1
      ensures forall k :: 0 <= k < |EmbeddingsOf(all[q])| ==>
        EmbeddingsOf(all[q])[k].seqIdx == q && 0 <= EmbeddingsOf(all[q])[k].hostIdx < q
    {
      ReadEmbeddings(lengths, searches, q, minKmerPercentage, build);
    }
    ConcatEmbeddingsInOrder(all, |all|);
    assert all[..|all|] == all;
  }
}

/** The relationship classifier of the newer overlap-graph builder
    (src/ngsep/assembly/KmerHitsAssemblyEdgesFinder.java): for one query read
    it calibrates a minimum number of shared k-mers, ranks the candidate
    subject reads, keeps at most two hit clusters per subject and turns each
    surviving cluster into an embedding or an overlap edge.

    Clustering of raw hits and the simulated alignment are foreign: their
    results arrive as `Cluster` records. `compressionFactor` is fixed at 1. */
module EdgesFinder {
  import opened Common

  /** Absolute floor for the minimum number of hits. */
  const DEF_MIN_HITS: int := 50

  /** Interleaved candidate pairs visited before a non-extensive search gives up. */
  const MAX_INTERLEAVED_PAIRS: int := 10

  /** One exact k-mer hit of the query on a subject read. */
  datatype Hit = Hit(queryIdx: int, sequenceIdx: int, start: int, totalHitsQuery: int)

  /** Search parameters of the finder. */
  datatype Config = Config(minProportionOverlap: real, minProportionEvidence: real, extensiveSearch: bool)

  /** Half-open coordinate interval [start, end). */
  datatype Interval = Interval(start: int, end: int) {
    function Length(): int { end - start }
  }

  /** What the foreign simulated alignment and the resulting embedding record
      report about a cluster: shared-k-mer coverage, weighted coverage, number
      of indels, and the embedding's evidence proportion and indels per kbp. */
  datatype AlignmentSummary = AlignmentSummary(
    coverageSharedKmers: int,
    weightedCoverageSharedKmers: int,
    numIndels: int,
    evidenceProportion: real,
    indelsPerKbp: real)

  /** One coordinate-consistent cluster of hits between the query and a subject. */
  datatype Cluster = Cluster(
    subjectIdx: int,
    subjectPredictedStart: int,
    subjectPredictedEnd: int,
    queryEvidence: Interval,
    subjectEvidence: Interval,
    numDifferentKmers: int,
    predictedOverlap: int,
    summary: AlignmentSummary)

  /** A vertex is one end of a read: `start` picks its start, otherwise its end. */
  datatype Vertex = Vertex(seqId: int, start: bool)

  /** The two relationship kinds the classifier emits. */
  datatype Relationship =
    | Embedded(seqId: int, reverse: bool, hostId: int, hostStart: int, hostEnd: int,
               hostEvidence: Interval, seqEvidence: Interval, numSharedKmers: int,
               coverageSharedKmers: int, weightedCoverageSharedKmers: int, numIndels: int)
    | Edge(v1: Vertex, v2: Vertex, overlap: int, v1Evidence: Interval, v2Evidence: Interval,
           numSharedKmers: int, coverageSharedKmers: int, weightedCoverageSharedKmers: int,
           numIndels: int)

  /** The relationship joins read `q` with read `s`. */
  predicate Joins(r: Relationship, q: int, s: int)
  {
    match r
    case Embedded(seqId, _, hostId, _, _, _, _, _, _, _, _) => seqId == q && hostId == s
    case Edge(v1, v2, _, _, _, _, _, _, _) =>
      (v1.seqId == s && v2.seqId == q) || (v1.seqId == q && v2.seqId == s)
  }

  // ---------------------------------------------------------------------------
  // Minimum-hits calibration

  /** The hit floor before the self cluster is consulted: the self hit count
      scaled by the overlap proportion, but at least DEF_MIN_HITS. */
  function InitialMinHits(selfHitsCount: int, minProportionOverlap: real): (r: int)
    ensures r >= DEF_MIN_HITS
  {
    var scaled := selfHitsCount as real * minProportionOverlap;
    Trunc(if scaled >= DEF_MIN_HITS as real then scaled else DEF_MIN_HITS as real)
  }

  /** The minimum number of distinct shared k-mers a subject needs, before
      the search mode is taken into account: the initial floor, lowered to the
      scaled size of the read's own best self cluster when there is one, but
      never below DEF_MIN_HITS. The self cluster can only lower the floor. */
  function CalibratedMinHits(selfHitsCount: int, selfClusterKmers: Option<int>, minProportionOverlap: real): (r: int)
    ensures r >= DEF_MIN_HITS
    ensures r <= InitialMinHits(selfHitsCount, minProportionOverlap)
    ensures selfClusterKmers.None? ==> r == InitialMinHits(selfHitsCount, minProportionOverlap)
    ensures selfClusterKmers.Some? ==>
      r == DEF_MIN_HITS || r as real <= minProportionOverlap * selfClusterKmers.value as real
  {
    var initial := InitialMinHits(selfHitsCount, minProportionOverlap);
    match selfClusterKmers
    case None => initial
    case Some(k) =>
      var bySelf := minProportionOverlap * k as real;
      var lowered := if initial as real <= bySelf then initial as real else bySelf;
      assert Trunc(lowered) <= initial by {
        if lowered >= 0.0 { TruncMonotone(lowered, initial as real); }
      }
      Max(Trunc(lowered), DEF_MIN_HITS)
  }

  /** The cast toward zero keeps the order of non-negative reals. */
  lemma TruncMonotone(x: real, y: real)
    requires 0.0 <= x <= y
    ensures Trunc(x) <= Trunc(y)
  {
  }

  /** The floor actually used: doubled when the search is not extensive. */
  function MinHits(selfHitsCount: int, selfClusterKmers: Option<int>, cfg: Config): (r: int)
    ensures r >= DEF_MIN_HITS
    ensures !cfg.extensiveSearch ==> r == 2 * CalibratedMinHits(selfHitsCount, selfClusterKmers, cfg.minProportionOverlap)
    ensures cfg.extensiveSearch ==> r == CalibratedMinHits(selfHitsCount, selfClusterKmers, cfg.minProportionOverlap)
  {
    var calibrated := CalibratedMinHits(selfHitsCount, selfClusterKmers, cfg.minProportionOverlap);
    if cfg.extensiveSearch then calibrated else 2 * calibrated
  }

  // ---------------------------------------------------------------------------
  // Subject selection

  /** Distinct query positions among a subject's hits. */
  function DistinctQueryKmers(hs: seq<Hit>): set<int>
  {
    set h | h in hs :: h.queryIdx
  }

  /** Counts the distinct query positions of a subject's hits, one hit at a time. */
  method CountDistinctQueryKmers(hs: seq<Hit>) returns (n: int)
    ensures n == |DistinctQueryKmers(hs)|
  {
    var distinct: set<int> := {};
    var k := 0;
    while k < |hs|
      invariant 0 <= k <= |hs|
      invariant distinct == DistinctQueryKmers(hs[..k])
    {
      assert hs[..k + 1] == hs[..k] + [hs[k]];
      distinct := distinct + {hs[k].queryIdx};
      k := k + 1;
    }
    assert hs[..k] == hs;
    n := |distinct|;
  }

  /** One entry of a hit map: a subject id and the query's hits on it. The
      hit map of one orientation is a sequence of entries in the map's
      iteration order, with distinct subject ids. */
  datatype SubjectHits = SubjectHits(subjectIdx: int, hits: seq<Hit>)

  ghost predicate DistinctSubjects(entries: seq<SubjectHits>)
  {
    forall i, j :: 0 <= i < j < |entries| ==> entries[i].subjectIdx != entries[j].subjectIdx
  }

  /** An entry passes when its subject id is below the query id and its hits
      cover at least `minHits` distinct query positions. */
  predicate Passes(e: SubjectHits, queryIdx: int, minHits: int)
  {
    e.subjectIdx < queryIdx && |DistinctQueryKmers(e.hits)| >= minHits
  }

  /** The ids of the passing entries, in iteration order. */
  function PassingSubjects(entries: seq<SubjectHits>, queryIdx: int, minHits: int): seq<int>
  {
    if entries == [] then []
    else
      var last := entries[|entries| - 1];
      PassingSubjects(entries[..|entries| - 1], queryIdx, minHits)
        + (if Passes(last, queryIdx, minHits) then [last.subjectIdx] else [])
  }

  /** The passing ids are exactly the ids of passing entries, each once. */
  lemma {:induction false} PassingSubjectsExact(entries: seq<SubjectHits>, queryIdx: int, minHits: int)
    requires DistinctSubjects(entries)
    ensures forall k :: 0 <= k < |entries| && Passes(entries[k], queryIdx, minHits) ==>
      entries[k].subjectIdx in PassingSubjects(entries, queryIdx, minHits)
    ensures forall s :: s in PassingSubjects(entries, queryIdx, minHits) ==>
      exists k :: 0 <= k < |entries| && entries[k].subjectIdx == s && Passes(entries[k], queryIdx, minHits)
    ensures NoRepeats(PassingSubjects(entries, queryIdx, minHits))
  {
    if entries != [] {
      var init := entries[..|entries| - 1];
      var last := entries[|entries| - 1];
      PassingSubjectsExact(init, queryIdx, minHits);
      var p0 := PassingSubjects(init, queryIdx, minHits);
      forall s | s in p0 ensures s != last.subjectIdx {
        var k :| 0 <= k < |init| && init[k].subjectIdx == s && Passes(init[k], queryIdx, minHits);
        assert entries[k] == init[k];
      }
      forall k | 0 <= k < |entries| && Passes(entries[k], queryIdx, minHits)
        ensures entries[k].subjectIdx in PassingSubjects(entries, queryIdx, minHits)
      {
        if k < |init| { assert init[k] == entries[k]; }
      }
      forall s | s in PassingSubjects(entries, queryIdx, minHits)
        ensures exists k :: 0 <= k < |entries| && entries[k].subjectIdx == s && Passes(entries[k], queryIdx, minHits)
      {
        if s in p0 {
          var k :| 0 <= k < |init| && init[k].subjectIdx == s && Passes(init[k], queryIdx, minHits);
          assert entries[k] == init[k];
        } else {
          assert entries[|entries| - 1].subjectIdx == s;
        }
      }
      var p := PassingSubjects(entries, queryIdx, minHits);
      assert p == p0 + (if Passes(last, queryIdx, minHits) then [last.subjectIdx] else []);
      forall i, j | 0 <= i < j < |p| ensures p[i] != p[j] {
        if j < |p0| {
          assert p[i] == p0[i] && p[j] == p0[j];
        } else {
          assert Passes(last, queryIdx, minHits) && j == |p0|;
          assert p[i] == p0[i] && p[j] == last.subjectIdx;
          assert p0[i] in p0;
        }
      }
    }
  }

  /** With distinct subject ids, an entry whose id was selected is itself a passing entry. */
  lemma PassingEntriesOnly(entries: seq<SubjectHits>, queryIdx: int, minHits: int, ids: seq<int>)
    requires DistinctSubjects(entries)
    requires forall s :: s in ids ==>
      exists k :: 0 <= k < |entries| && entries[k].subjectIdx == s && Passes(entries[k], queryIdx, minHits)
    ensures forall k :: 0 <= k < |entries| && entries[k].subjectIdx in ids ==> Passes(entries[k], queryIdx, minHits)
  {
    forall k | 0 <= k < |entries| && entries[k].subjectIdx in ids
      ensures Passes(entries[k], queryIdx, minHits)
    {
      var k' :| 0 <= k' < |entries| && entries[k'].subjectIdx == entries[k].subjectIdx
        && Passes(entries[k'], queryIdx, minHits);
      assert k' == k;
    }
  }

  /** The candidate subjects of one orientation before ranking, in iteration
      order, each with its number of distinct query positions. */
  method SelectSubjectIds(queryIdx: int, entries: seq<SubjectHits>, minHits: int)
    returns (selected: seq<int>, counts: map<int, int>)
    requires DistinctSubjects(entries)
    ensures selected == PassingSubjects(entries, queryIdx, minHits)
    ensures forall k :: 0 <= k < |entries| && entries[k].subjectIdx in selected ==>
      entries[k].subjectIdx in counts && counts[entries[k].subjectIdx] == |DistinctQueryKmers(entries[k].hits)|
  {
    selected, counts := [], map[];
    var i := 0;
    while i < |entries|
      invariant 0 <= i <= |entries|
      invariant selected == PassingSubjects(entries[..i], queryIdx, minHits)
      invariant forall k :: 0 <= k < i && entries[k].subjectIdx in selected ==>
        entries[k].subjectIdx in counts && counts[entries[k].subjectIdx] == |DistinctQueryKmers(entries[k].hits)|
      invariant forall s :: s in selected ==> exists k :: 0 <= k < i && entries[k].subjectIdx == s
    {
      assert entries[..i + 1][..i] == entries[..i];
      var subjectIdx := entries[i].subjectIdx;
      if subjectIdx < queryIdx {
        var numQueryKmers := CountDistinctQueryKmers(entries[i].hits);
        if numQueryKmers >= minHits {
          counts := counts[subjectIdx := numQueryKmers];
          selected := selected + [subjectIdx];
        }
      }
      i := i + 1;
    }
    assert entries[..i] == entries;
  }

  /** The distinct query positions of the first entry for subject `s`; 0 when absent. */
  function SubjectCount(entries: seq<SubjectHits>, s: int): int
  {
    if entries == [] then 0
    else if entries[0].subjectIdx == s then |DistinctQueryKmers(entries[0].hits)|
    else SubjectCount(entries[1..], s)
  }

  /** The ranking key of the comparator: distinct query positions per subject. */
  function CountKey(entries: seq<SubjectHits>): int -> int
  {
    s => SubjectCount(entries, s)
  }

  /** The passing ids in iteration order, stably sorted by non-increasing
      number of distinct query positions. */
  function RankedSubjects(queryIdx: int, entries: seq<SubjectHits>, minHits: int): seq<int>
  {
    SortDesc(PassingSubjects(entries, queryIdx, minHits), CountKey(entries))
  }

  /** With distinct subject ids, the count of a subject is its own entry's count. */
  lemma {:induction false} SubjectCountOfEntry(entries: seq<SubjectHits>, k: int)
    requires DistinctSubjects(entries)
    requires 0 <= k < |entries|
    ensures SubjectCount(entries, entries[k].subjectIdx) == |DistinctQueryKmers(entries[k].hits)|
  {
    if k > 0 {
      var tail := entries[1..];
      assert DistinctSubjects(tail) by {
        forall i, j | 0 <= i < j < |tail| ensures tail[i].subjectIdx != tail[j].subjectIdx {
          assert tail[i] == entries[i + 1] && tail[j] == entries[j + 1];
        }
      }
      assert tail[k - 1] == entries[k];
      SubjectCountOfEntry(tail, k - 1);
    }
  }

  /** Every passing id is below the query id. */
  lemma {:induction false} PassingSubjectsBelow(entries: seq<SubjectHits>, queryIdx: int, minHits: int)
    ensures forall s :: s in PassingSubjects(entries, queryIdx, minHits) ==> s < queryIdx
  {
    if entries != [] {
      PassingSubjectsBelow(entries[..|entries| - 1], queryIdx, minHits);
    }
  }

  /** The ranked candidates: exactly the subjects of passing entries, each
      once, all below the query id, by non-increasing distinct k-mer count. */
  lemma RankedSubjectsSpec(queryIdx: int, entries: seq<SubjectHits>, minHits: int)
    requires DistinctSubjects(entries)
    ensures var ids := RankedSubjects(queryIdx, entries, minHits);
      && (forall k :: 0 <= k < |entries| ==>
            (entries[k].subjectIdx in ids <==> Passes(entries[k], queryIdx, minHits)))
      && (forall s :: s in ids ==> s < queryIdx && exists k :: 0 <= k < |entries| && entries[k].subjectIdx == s)
      && NoRepeats(ids)
      && (forall i, j, a, b ::
            0 <= i < j < |ids| && 0 <= a < |entries| && 0 <= b < |entries| &&
            entries[a].subjectIdx == ids[i] && entries[b].subjectIdx == ids[j] ==>
            |DistinctQueryKmers(entries[a].hits)| >= |DistinctQueryKmers(entries[b].hits)|)
  {
    var selected := PassingSubjects(entries, queryIdx, minHits);
    var ids := RankedSubjects(queryIdx, entries, minHits);
    var key := CountKey(entries);
    PassingSubjectsExact(entries, queryIdx, minHits);
    PassingSubjectsBelow(entries, queryIdx, minHits);
    SameMultisetSameMembers(selected, ids);
    NoRepeatsPreserved(selected, ids);
    PassingEntriesOnly(entries, queryIdx, minHits, ids);
    forall i, j, a, b |
      0 <= i < j < |ids| && 0 <= a < |entries| && 0 <= b < |entries| &&
      entries[a].subjectIdx == ids[i] && entries[b].subjectIdx == ids[j]
      ensures |DistinctQueryKmers(entries[a].hits)| >= |DistinctQueryKmers(entries[b].hits)|
    {
      assert key(ids[i]) >= key(ids[j]);
      SubjectCountOfEntry(entries, a);
      SubjectCountOfEntry(entries, b);
    }
  }

  /** Selects the candidate subjects of one orientation, then sorts them by
      the counts recorded on the way. */
  method FilterAndSortSubjectIds(queryIdx: int, entries: seq<SubjectHits>, minHits: int)
    returns (ids: seq<int>)
    requires DistinctSubjects(entries)
    ensures ids == RankedSubjects(queryIdx, entries, minHits)
  {
    var selected, counts := SelectSubjectIds(queryIdx, entries, minHits);
    PassingSubjectsExact(entries, queryIdx, minHits);
    var key := (s: int) => if s in counts then counts[s] else 0;
    ids := SortDesc(selected, key);
    forall s | s in selected ensures key(s) == CountKey(entries)(s) {
      var k :| 0 <= k < |entries| && entries[k].subjectIdx == s && Passes(entries[k], queryIdx, minHits);
      SubjectCountOfEntry(entries, k);
    }
    SortDescAgree(selected, key, CountKey(entries));
  }

  /** Two orderings of one multiset have the same members. */
  lemma SameMultisetSameMembers<T>(a: seq<T>, b: seq<T>)
    requires multiset(a) == multiset(b)
    ensures forall x :: x in a <==> x in b
  {
    forall x ensures x in a <==> x in b {
      assert x in a <==> x in multiset(a);
      assert x in b <==> x in multiset(b);
    }
  }

  /** Reordering a sequence without repetitions leaves it without repetitions. */
  lemma NoRepeatsPreserved<T>(a: seq<T>, b: seq<T>)
    requires multiset(a) == multiset(b)
    requires NoRepeats(a)
    ensures NoRepeats(b)
  {
    forall i, j | 0 <= i < j < |b| ensures b[i] != b[j] {
      if b[i] == b[j] {
        var x := b[i];
        assert multiset(b)[x] >= 2 by {
          assert b == b[..i] + [b[i]] + b[i + 1..j] + [b[j]] + b[j + 1..];
        }
        NoRepeatsOccurOnce(a, x);
        assert false;
      }
    }
  }

  /** In a sequence without repetitions every element occurs at most once. */
  lemma {:induction false} NoRepeatsOccurOnce<T>(s: seq<T>, x: T)
    requires NoRepeats(s)
    ensures multiset(s)[x] <= 1
  {
    if s != [] {
      assert s == [s[0]] + s[1..];
      NoRepeatsOccurOnce(s[1..], x);
      if s[0] == x {
        assert x !in s[1..];
      }
    }
  }

  // ---------------------------------------------------------------------------
  // Cluster choice per subject

  function NumKmers(c: Cluster): int { c.numDifferentKmers }

  /** The leader of a descending sort has the most distinct k-mers. */
  lemma {:induction false} LeaderHasMostKmers(built: seq<Cluster>)
    requires |built| >= 1
    ensures var sorted := SortDesc(built, NumKmers);
      sorted[0] in built && forall c :: c in built ==> sorted[0].numDifferentKmers >= c.numDifferentKmers
  {
    var sorted := SortDesc(built, NumKmers);
    assert sorted[0] in multiset(built);
    forall c | c in built ensures sorted[0].numDifferentKmers >= c.numDifferentKmers {
      assert c in multiset(sorted);
      SortedHeadIsMax(sorted, NumKmers, c);
    }
  }

  /** The runner-up of a descending sort has the most distinct k-mers once
      the leader is set aside. */
  lemma {:induction false} RunnerUpHasMostOfRest(built: seq<Cluster>)
    requires |built| >= 2
    ensures var sorted := SortDesc(built, NumKmers);
      var rest := multiset(built) - multiset{sorted[0]};
      sorted[1] in rest && forall c :: c in rest ==> sorted[1].numDifferentKmers >= c.numDifferentKmers
  {
    var sorted := SortDesc(built, NumKmers);
    var tail := sorted[1..];
    assert sorted == [sorted[0]] + tail;
    assert multiset(tail) == multiset(built) - multiset{sorted[0]};
    assert sorted[1] == tail[0];
    forall c | c in multiset(built) - multiset{sorted[0]}
      ensures sorted[1].numDifferentKmers >= c.numDifferentKmers
    {
      assert c in tail;
      SortedHeadIsMax(tail, NumKmers, c);
    }
  }

  /** At most two clusters for one subject: the one with most distinct k-mers,
      and the runner-up only if it has more than 80% of the leader's k-mers and
      predicts the opposite end relationship (the sign of its predicted start). */
  function SelectClusters(built: seq<Cluster>): (r: seq<Cluster>)
    ensures |r| <= 2
    ensures |r| >= 1 <==> |built| >= 1
    ensures forall k :: 0 <= k < |r| ==> r[k] in built
    ensures |r| >= 1 ==>
      forall c :: c in built ==> r[0].numDifferentKmers >= c.numDifferentKmers
    ensures |r| == 2 ==>
      && r[1] in multiset(built) - multiset{r[0]}
      && (forall c :: c in multiset(built) - multiset{r[0]} ==> r[1].numDifferentKmers >= c.numDifferentKmers)
      && r[1].numDifferentKmers as real > 0.8 * r[0].numDifferentKmers as real
      && (r[1].subjectPredictedStart < 0) != (r[0].subjectPredictedStart < 0)
    ensures var sorted := SortDesc(built, NumKmers);
      && (|r| >= 1 ==> r[0] == sorted[0])
      && (|r| == 2 ==> r[1] == sorted[1])
      && (|r| == 2 <==>
            && |built| >= 2
            && sorted[1].numDifferentKmers as real > 0.8 * sorted[0].numDifferentKmers as real
            && (sorted[1].subjectPredictedStart < 0) != (sorted[0].subjectPredictedStart < 0))
  {
    if |built| == 0 then []
    else
      var sorted := SortDesc(built, NumKmers);
      LeaderHasMostKmers(built);
      var best := sorted[0];
      if |sorted| == 1 then [best]
      else
        var second := sorted[1];
        if second.numDifferentKmers as real > 0.8 * best.numDifferentKmers as real
           && (best.subjectPredictedStart < 0) != (second.subjectPredictedStart < 0)
        then
          RunnerUpHasMostOfRest(built);
          [best, second]
        else [best]
  }

  /** Every cluster the foreign builder reports for a subject names that subject. */
  ghost predicate BuilderConsistent(builder: map<int, seq<Cluster>>)
  {
    forall s :: s in builder ==> forall k :: 0 <= k < |builder[s]| ==> builder[s][k].subjectIdx == s
  }

  /** The clusters kept for one subject; a subject the builder reports
      nothing for contributes none. */
  function ClustersOf(builder: map<int, seq<Cluster>>, subjectIdx: int): (r: seq<Cluster>)
    requires BuilderConsistent(builder)
    ensures |r| <= 2
    ensures forall k :: 0 <= k < |r| ==> r[k].subjectIdx == subjectIdx
  {
    if subjectIdx in builder then SelectClusters(builder[subjectIdx]) else []
  }

  /** A per-subject cluster choice that keeps at most two clusters, all on
      the subject asked for. */
  ghost predicate KeepsSubject(clustersOf: int -> seq<Cluster>)
  {
    && (forall s :: |clustersOf(s)| <= 2)
    && (forall s, k :: 0 <= k < |clustersOf(s)| ==> clustersOf(s)[k].subjectIdx == s)
  }

  /** A subject gets at most two clusters from such a choice. */
  lemma AtMostTwoKept(clustersOf: int -> seq<Cluster>, s: int)
    requires KeepsSubject(clustersOf)
    ensures |clustersOf(s)| <= 2
  {
  }

  /** `createClusters` for one subject, as a function of the subject id. */
  function SubjectClusters(builder: map<int, seq<Cluster>>): (f: int -> seq<Cluster>)
    requires BuilderConsistent(builder)
    ensures KeepsSubject(f)
  {
    s => ClustersOf(builder, s)
  }

  /** The clusters of a list of subjects, subject by subject. */
  function CreateClusters(ids: seq<int>, builder: map<int, seq<Cluster>>): (r: seq<Cluster>)
    requires BuilderConsistent(builder)
    ensures forall k :: 0 <= k < |r| ==> r[k].subjectIdx in ids
    ensures |r| <= 2 * |ids|
  {
    if ids == [] then []
    else ClustersOf(builder, ids[0]) + CreateClusters(ids[1..], builder)
  }

  /** The largest distinct k-mer count of a list of clusters (0 when empty). */
  function MaxKmers(cs: seq<Cluster>): (r: int)
    ensures r >= 0
  {
    if cs == [] then 0
    else Max(MaxKmers(cs[..|cs| - 1]), cs[|cs| - 1].numDifferentKmers)
  }

  /** The largest count bounds every cluster's count and is 0 or one of them. */
  lemma {:induction false} MaxKmersSpec(cs: seq<Cluster>)
    ensures forall c :: c in cs ==> MaxKmers(cs) >= c.numDifferentKmers
    ensures MaxKmers(cs) == 0 || exists k :: 0 <= k < |cs| && MaxKmers(cs) == cs[k].numDifferentKmers
  {
    if cs != [] {
      var init := cs[..|cs| - 1];
      var m := MaxKmers(init);
      MaxKmersSpec(init);
      assert forall c :: c in cs ==> c in init || c == cs[|cs| - 1];
      if m != 0 && m >= cs[|cs| - 1].numDifferentKmers {
        var k :| 0 <= k < |init| && m == init[k].numDifferentKmers;
        assert cs[k] == init[k];
      }
    }
  }

  /** The maximum over one more cluster. */
  lemma MaxKmersPrefix(cs: seq<Cluster>, i: int)
    requires 0 <= i < |cs|
    ensures MaxKmers(cs[..i + 1]) == Max(MaxKmers(cs[..i]), cs[i].numDifferentKmers)
  {
    assert cs[..i + 1][..i] == cs[..i];
  }

  /** The minimum cluster size of the extensive search: the hit floor or a
      fifth of the largest cluster, whichever is larger. */
  function MinimumClusterSize(clustersForward: seq<Cluster>, clustersReverse: seq<Cluster>, minHits: int): int
  {
    Max(minHits, MaxKmers(clustersForward + clustersReverse) / 5)
  }

  /** The extensive-search threshold is at least the floor and at least a
      fifth of every cluster, and is one of those values. */
  lemma MinimumClusterSizeSpec(clustersForward: seq<Cluster>, clustersReverse: seq<Cluster>, minHits: int)
    requires minHits >= 0
    ensures var m := MinimumClusterSize(clustersForward, clustersReverse, minHits);
      && m >= minHits
      && (forall c :: c in clustersForward + clustersReverse ==> m >= c.numDifferentKmers / 5)
      && (m == minHits || exists c :: c in clustersForward + clustersReverse && m == c.numDifferentKmers / 5)
  {
    var allClusters := clustersForward + clustersReverse;
    var maxCount := MaxKmers(allClusters);
    MaxKmersSpec(allClusters);
    var m := MinimumClusterSize(clustersForward, clustersReverse, minHits);
    if m != minHits {
      assert maxCount != 0;
      var k :| 0 <= k < |allClusters| && maxCount == allClusters[k].numDifferentKmers;
      assert allClusters[k] in allClusters;
    }
    forall c | c in allClusters ensures m >= c.numDifferentKmers / 5 {
      DivMonotone(c.numDifferentKmers, maxCount);
    }
  }

  /** Scans all clusters of both orientations for the largest count. */
  method CalculateMinimumClusterSize(clustersForward: seq<Cluster>, clustersReverse: seq<Cluster>, minHits: int)
    returns (m: int)
    ensures m == MinimumClusterSize(clustersForward, clustersReverse, minHits)
  {
    var allClusters := clustersForward + clustersReverse;
    var maxCount := 0;
    var i := 0;
    while i < |allClusters|
      invariant 0 <= i <= |allClusters|
      invariant maxCount == MaxKmers(allClusters[..i])
    {
      MaxKmersPrefix(allClusters, i);
      maxCount := Max(maxCount, allClusters[i].numDifferentKmers);
      i := i + 1;
    }
    assert allClusters[..i] == allClusters;
    m := Max(minHits, maxCount / 5);
  }

  /** Integer division by five keeps the order of its operands. */
  lemma DivMonotone(a: int, b: int)
    requires a <= b
    ensures a / 5 <= b / 5
  {
  }

  // ---------------------------------------------------------------------------
  // Filters and the four-way decision

  /** A cluster survives when it is large enough, its predicted overlap covers
      the required proportion of both reads, and its evidence spans cover the
      required proportion of the overlap on both reads. */
  predicate PassFilters(cfg: Config, queryLength: int, subjectLength: int, minClusterSize: int, c: Cluster)
  {
    var overlap := c.predictedOverlap as real;
    && c.numDifferentKmers >= minClusterSize
    && overlap >= cfg.minProportionOverlap * queryLength as real
    && overlap >= cfg.minProportionOverlap * subjectLength as real
    && c.queryEvidence.Length() as real >= cfg.minProportionEvidence * overlap
    && c.subjectEvidence.Length() as real >= cfg.minProportionEvidence * overlap
  }

  /** Query evidence coordinates stored with a relationship are always
      forward-strand: a reverse-complement query has them mirrored. */
  function Mirror(iv: Interval, length: int): (r: Interval)
    ensures r.Length() == iv.Length()
    ensures 0 <= iv.start <= iv.end <= length ==> 0 <= r.start <= r.end <= length
    ensures Interval(length - r.end, length - r.start) == iv
  {
    Interval(length - iv.end, length - iv.start)
  }

  /** The query's evidence as a relationship stores it: mirrored onto the
      forward strand when the query was searched reverse-complemented. */
  function QuerySideEvidence(c: Cluster, queryLength: int, queryRC: bool): Interval
  {
    if queryRC then Mirror(c.queryEvidence, queryLength) else c.queryEvidence
  }

  function MakeEmbedded(queryIdx: int, queryLength: int, queryRC: bool, c: Cluster): Relationship
  {
    Embedded(queryIdx, queryRC, c.subjectIdx, c.subjectPredictedStart, c.subjectPredictedEnd,
             c.subjectEvidence, QuerySideEvidence(c, queryLength, queryRC), c.numDifferentKmers,
             c.summary.coverageSharedKmers, c.summary.weightedCoverageSharedKmers, c.summary.numIndels)
  }

  /** The query continues past the subject's end: subject END -> query. */
  function QueryAfterSubjectEdge(queryIdx: int, queryLength: int, queryRC: bool, c: Cluster): Relationship
  {
    Edge(Vertex(c.subjectIdx, false), Vertex(queryIdx, !queryRC), c.predictedOverlap,
         c.subjectEvidence, QuerySideEvidence(c, queryLength, queryRC), c.numDifferentKmers,
         c.summary.coverageSharedKmers, c.summary.weightedCoverageSharedKmers, c.summary.numIndels)
  }

  /** The query starts before the subject's start: query -> subject START. */
  function QueryBeforeSubjectEdge(queryIdx: int, queryLength: int, queryRC: bool, c: Cluster): Relationship
  {
    Edge(Vertex(queryIdx, queryRC), Vertex(c.subjectIdx, true), c.predictedOverlap,
         QuerySideEvidence(c, queryLength, queryRC), c.subjectEvidence, c.numDifferentKmers,
         c.summary.coverageSharedKmers, c.summary.weightedCoverageSharedKmers, c.summary.numIndels)
  }

  /** A new embedding places the query conclusively: nearly all of it is
      evidence, it has few indels and its weighted coverage exceeds half the read. */
  predicate ConclusiveEmbedding(c: Cluster, queryLength: int)
  {
    && c.summary.evidenceProportion > 0.99
    && c.summary.indelsPerKbp < 10.0
    && c.summary.weightedCoverageSharedKmers as real > 0.5 * queryLength as real
  }

  /** Relationships one cluster adds, and whether the search may stop. */
  datatype ClusterOutcome = ClusterOutcome(added: seq<Relationship>, stop: bool)

  /** Filters, then classifies a cluster by its predicted subject window
      [start, end): inside the subject gives an embedding; sticking out only at
      the end gives a query-after-subject edge; only at the start a
      query-before-subject edge; at both ends an embedding is still recorded
      but never stops the search. */
  function ProcessCluster(cfg: Config, queryIdx: int, queryLength: int, queryRC: bool,
                          c: Cluster, subjectLength: int, minClusterSize: int): (r: ClusterOutcome)
    ensures |r.added| <= 1
    ensures |r.added| == 1 <==> PassFilters(cfg, queryLength, subjectLength, minClusterSize, c)
    ensures forall rel :: rel in r.added ==> Joins(rel, queryIdx, c.subjectIdx)
    ensures forall rel :: rel in r.added ==>
      rel.numSharedKmers == c.numDifferentKmers
      && rel.weightedCoverageSharedKmers == c.summary.weightedCoverageSharedKmers
    ensures r.stop ==>
      && |r.added| == 1 && r.added[0].Embedded?
      && 0 <= r.added[0].hostStart && r.added[0].hostEnd <= subjectLength
      && ConclusiveEmbedding(c, queryLength)
    ensures r.stop <==>
      && PassFilters(cfg, queryLength, subjectLength, minClusterSize, c)
      && c.subjectPredictedStart >= 0 && c.subjectPredictedEnd <= subjectLength
      && ConclusiveEmbedding(c, queryLength)
    ensures |r.added| == 1 && r.added[0].Edge? ==>
      if c.subjectPredictedStart >= 0
      then r.added[0].v1 == Vertex(c.subjectIdx, false) && r.added[0].v2 == Vertex(queryIdx, !queryRC)
           && c.subjectPredictedEnd > subjectLength
      else r.added[0].v1 == Vertex(queryIdx, queryRC) && r.added[0].v2 == Vertex(c.subjectIdx, true)
           && c.subjectPredictedEnd <= subjectLength
    ensures |r.added| == 1 && r.added[0].Embedded? ==>
      (c.subjectPredictedStart >= 0) == (c.subjectPredictedEnd <= subjectLength)
    ensures |r.added| == 1 ==>
      && r.added[0].coverageSharedKmers == c.summary.coverageSharedKmers
      && r.added[0].numIndels == c.summary.numIndels
    ensures |r.added| == 1 && r.added[0].Edge? ==>
      && r.added[0].overlap == c.predictedOverlap
      && if c.subjectPredictedStart >= 0
         then r.added[0].v1Evidence == c.subjectEvidence
              && r.added[0].v2Evidence == QuerySideEvidence(c, queryLength, queryRC)
         else r.added[0].v1Evidence == QuerySideEvidence(c, queryLength, queryRC)
              && r.added[0].v2Evidence == c.subjectEvidence
    ensures |r.added| == 1 && r.added[0].Embedded? ==>
      && r.added[0].reverse == queryRC
      && r.added[0].hostStart == c.subjectPredictedStart
      && r.added[0].hostEnd == c.subjectPredictedEnd
      && r.added[0].hostEvidence == c.subjectEvidence
      && r.added[0].seqEvidence == QuerySideEvidence(c, queryLength, queryRC)
  {
    if !PassFilters(cfg, queryLength, subjectLength, minClusterSize, c) then ClusterOutcome([], false)
    else
      var start := c.subjectPredictedStart;
      var end := c.subjectPredictedEnd;
      if start >= 0 && end <= subjectLength then
        ClusterOutcome([MakeEmbedded(queryIdx, queryLength, queryRC, c)], ConclusiveEmbedding(c, queryLength))
      else if start >= 0 then
        ClusterOutcome([QueryAfterSubjectEdge(queryIdx, queryLength, queryRC, c)], false)
      else if end <= subjectLength then
        ClusterOutcome([QueryBeforeSubjectEdge(queryIdx, queryLength, queryRC, c)], false)
      else
        ClusterOutcome([MakeEmbedded(queryIdx, queryLength, queryRC, c)], false)
  }

  /** The query-side evidence stored with any relationship lies inside the
      query and has the length the cluster observed, in either orientation. */
  lemma QueryEvidenceStaysInRead(cfg: Config, queryIdx: int, queryLength: int, queryRC: bool,
                                 c: Cluster, subjectLength: int, minClusterSize: int)
    requires 0 <= c.queryEvidence.start <= c.queryEvidence.end <= queryLength
    requires c.subjectIdx != queryIdx
    ensures forall rel :: rel in ProcessCluster(cfg, queryIdx, queryLength, queryRC, c, subjectLength, minClusterSize).added ==>
      var ev := if rel.Embedded? then rel.seqEvidence
                else if rel.v1.seqId == queryIdx then rel.v1Evidence else rel.v2Evidence;
      0 <= ev.start <= ev.end <= queryLength && ev.Length() == c.queryEvidence.Length()
  {
  }

  // ---------------------------------------------------------------------------
  // The search over candidate subjects

  /** One visit of the search: a cluster, the orientation of the query, and
      whether the visit may raise the minimum cluster size. */
  datatype Step = Step(c: Cluster, rc: bool, raise: bool)

  /** Relationships found so far, the current minimum cluster size, and
      whether a conclusive embedding has ended the search. */
  datatype ScanState = ScanState(rels: seq<Relationship>, minClusterSize: int, stopped: bool)

  /** Processes one cluster unless the search has ended; a visit that may
      raise the threshold lifts it to a fifth of the cluster's k-mers. */
  function Visit(cfg: Config, queryIdx: int, queryLength: int, lengthOf: int -> int,
                 st: ScanState, step: Step): ScanState
  {
    if st.stopped then st
    else
      var o := ProcessCluster(cfg, queryIdx, queryLength, step.rc, step.c,
                              lengthOf(step.c.subjectIdx), st.minClusterSize);
      if o.stop then ScanState(st.rels + o.added, st.minClusterSize, true)
      else ScanState(st.rels + o.added,
                     if step.raise then Max(st.minClusterSize, step.c.numDifferentKmers / 5)
                     else st.minClusterSize,
                     false)
  }

  /** The visits in order, from a given state. */
  function Run(cfg: Config, queryIdx: int, queryLength: int, lengthOf: int -> int,
               st: ScanState, steps: seq<Step>): ScanState
    decreases |steps|
  {
    if steps == [] then st
    else Run(cfg, queryIdx, queryLength, lengthOf, Visit(cfg, queryIdx, queryLength, lengthOf, st, steps[0]), steps[1..])
  }

  /** The visits of a list of clusters. */
  function Tag(cs: seq<Cluster>, rc: bool, raise: bool): (r: seq<Step>)
    ensures |r| == |cs|
    ensures forall k :: 0 <= k < |r| ==> r[k] == Step(cs[k], rc, raise)
  {
    if cs == [] then [] else [Step(cs[0], rc, raise)] + Tag(cs[1..], rc, raise)
  }

  /** Pairs `lo` up to (excluding) `hi`: the forward candidate's clusters, then the
      reverse candidate's, each visit raising the threshold. */
  function Interleaved(idsF: seq<int>, idsR: seq<int>, clustersF: int -> seq<Cluster>,
                       clustersR: int -> seq<Cluster>, lo: int, hi: int): seq<Step>
    requires 0 <= lo && hi <= |idsF| && hi <= |idsR|
    decreases hi - lo
  {
    if lo >= hi then []
    else Tag(clustersF(idsF[lo]), false, true) + Tag(clustersR(idsR[lo]), true, true)
         + Interleaved(idsF, idsR, clustersF, clustersR, lo + 1, hi)
  }

  /** The candidates of one orientation from position `lo` on, visited
      without touching the threshold. */
  function Trailing(ids: seq<int>, clustersOf: int -> seq<Cluster>, lo: int, rc: bool): seq<Step>
    requires 0 <= lo
    decreases |ids| - lo
  {
    if lo >= |ids| then []
    else Tag(clustersOf(ids[lo]), rc, false) + Trailing(ids, clustersOf, lo + 1, rc)
  }

  /** Number of interleaved candidate pairs. */
  function InterleavedPairs(idsF: seq<int>, idsR: seq<int>): int
  {
    Min(Min(|idsF|, |idsR|), MAX_INTERLEAVED_PAIRS)
  }

  /** The visit order of the non-extensive search: up to ten interleaved
      pairs; if ten pairs were visited the search ends, otherwise the remaining
      forward candidates and then the remaining reverse candidates follow. */
  function ScanSteps(idsF: seq<int>, idsR: seq<int>, clustersF: int -> seq<Cluster>,
                     clustersR: int -> seq<Cluster>): seq<Step>
  {
    var n := InterleavedPairs(idsF, idsR);
    Interleaved(idsF, idsR, clustersF, clustersR, 0, n)
      + (if n == MAX_INTERLEAVED_PAIRS then []
         else Trailing(idsF, clustersF, n, false) + Trailing(idsR, clustersR, n, true))
  }

  /** Relationships of every cluster, ignoring the stop signal (extensive search). */
  function ProcessAll(cfg: Config, queryIdx: int, queryLength: int, lengthOf: int -> int,
                      rc: bool, cs: seq<Cluster>, minClusterSize: int): seq<Relationship>
    decreases |cs|
  {
    if cs == [] then []
    else ProcessCluster(cfg, queryIdx, queryLength, rc, cs[0], lengthOf(cs[0].subjectIdx), minClusterSize).added
         + ProcessAll(cfg, queryIdx, queryLength, lengthOf, rc, cs[1..], minClusterSize)
  }

  /** The hits of subject `s` in a hit map, if it has an entry. */
  function Lookup(entries: seq<SubjectHits>, s: int): Option<seq<Hit>>
  {
    if entries == [] then None
    else if entries[0].subjectIdx == s then Some(entries[0].hits)
    else Lookup(entries[1..], s)
  }

  /** Number of hits of the query on itself. */
  function SelfHitsCount(hitsForward: seq<SubjectHits>, queryIdx: int): int
  {
    match Lookup(hitsForward, queryIdx)
    case None => 0
    case Some(hs) => |hs|
  }

  /** Distinct k-mers of the query's largest self cluster, when the query has
      self hits and the builder finds a cluster among them. */
  function SelfClusterKmers(hitsForward: seq<SubjectHits>, builderF: map<int, seq<Cluster>>, queryIdx: int): Option<int>
  {
    if Lookup(hitsForward, queryIdx).None? then None
    else
      var own := if queryIdx in builderF then builderF[queryIdx] else [];
      if own == [] then None else Some(SortDesc(own, NumKmers)[0].numDifferentKmers)
  }

  /** The minimum number of distinct shared k-mers a subject needs. */
  function QueryMinHits(cfg: Config, queryIdx: int, hitsForward: seq<SubjectHits>, builderF: map<int, seq<Cluster>>): int
  {
    MinHits(SelfHitsCount(hitsForward, queryIdx), SelfClusterKmers(hitsForward, builderF, queryIdx), cfg)
  }

  /** Final state of the non-extensive search over the ranked candidates. */
  function ScanOutcome(cfg: Config, queryIdx: int, queryLength: int, idsF: seq<int>, idsR: seq<int>,
                       clustersF: int -> seq<Cluster>, clustersR: int -> seq<Cluster>,
                       lengthOf: int -> int): ScanState
  {
    Run(cfg, queryIdx, queryLength, lengthOf, ScanState([], DEF_MIN_HITS, false),
        ScanSteps(idsF, idsR, clustersF, clustersR))
  }

  /** The extensive search: every kept cluster of every candidate, in both
      orientations, against one threshold computed up front. */
  function ExtensiveRelationships(cfg: Config, queryIdx: int, queryLength: int, idsF: seq<int>, idsR: seq<int>,
                                  builderF: map<int, seq<Cluster>>, builderR: map<int, seq<Cluster>>,
                                  minHits: int, lengthOf: int -> int): seq<Relationship>
    requires BuilderConsistent(builderF) && BuilderConsistent(builderR)
  {
    var clustersF := CreateClusters(idsF, builderF);
    var clustersR := CreateClusters(idsR, builderR);
    var m := MinimumClusterSize(clustersF, clustersR, minHits);
    ProcessAll(cfg, queryIdx, queryLength, lengthOf, false, clustersF, m)
      + ProcessAll(cfg, queryIdx, queryLength, lengthOf, true, clustersR, m)
  }

  /** All relationships the finder reports for one query read. */
  function Relationships(cfg: Config, queryIdx: int, queryLength: int,
                         hitsForward: seq<SubjectHits>, hitsReverse: seq<SubjectHits>,
                         builderF: map<int, seq<Cluster>>, builderR: map<int, seq<Cluster>>,
                         lengthOf: int -> int): seq<Relationship>
    requires BuilderConsistent(builderF) && BuilderConsistent(builderR)
  {
    var minHits := QueryMinHits(cfg, queryIdx, hitsForward, builderF);
    var idsF := RankedSubjects(queryIdx, hitsForward, minHits);
    var idsR := RankedSubjects(queryIdx, hitsReverse, minHits);
    if idsF == [] && idsR == [] then []
    else if cfg.extensiveSearch then ExtensiveRelationships(cfg, queryIdx, queryLength, idsF, idsR, builderF, builderR,
                                                            minHits, lengthOf)
    else ScanOutcome(cfg, queryIdx, queryLength, idsF, idsR, SubjectClusters(builderF), SubjectClusters(builderR),
                     lengthOf).rels
  }

  /** Running from a state splits at the first visit. */
  lemma RunCons(cfg: Config, queryIdx: int, queryLength: int, lengthOf: int -> int,
                st: ScanState, x: Step, rest: seq<Step>)
    ensures Run(cfg, queryIdx, queryLength, lengthOf, st, [x] + rest)
         == Run(cfg, queryIdx, queryLength, lengthOf, Visit(cfg, queryIdx, queryLength, lengthOf, st, x), rest)
  {
    assert ([x] + rest)[0] == x && ([x] + rest)[1..] == rest;
  }

  /** Once a conclusive embedding ended the search, further visits change nothing. */
  lemma {:induction false} RunStopped(cfg: Config, queryIdx: int, queryLength: int, lengthOf: int -> int,
                                      st: ScanState, steps: seq<Step>)
    requires st.stopped
    ensures Run(cfg, queryIdx, queryLength, lengthOf, st, steps) == st
  {
    if steps != [] {
      RunStopped(cfg, queryIdx, queryLength, lengthOf, st, steps[1..]);
    }
  }

  /** The run of the interleaved pairs from `lo` on: the pair at `lo`, then the later pairs. */
  lemma InterleavedFirst(cfg: Config, queryIdx: int, queryLength: int, lengthOf: int -> int, st: ScanState,
                         idsF: seq<int>, idsR: seq<int>, clustersF: int -> seq<Cluster>,
                         clustersR: int -> seq<Cluster>, lo: int, hi: int)
    requires 0 <= lo < hi && hi <= |idsF| && hi <= |idsR|
    ensures Run(cfg, queryIdx, queryLength, lengthOf, st, Interleaved(idsF, idsR, clustersF, clustersR, lo, hi))
         == Run(cfg, queryIdx, queryLength, lengthOf,
                Run(cfg, queryIdx, queryLength, lengthOf, st,
                    Tag(clustersF(idsF[lo]), false, true) + Tag(clustersR(idsR[lo]), true, true)),
                Interleaved(idsF, idsR, clustersF, clustersR, lo + 1, hi))
  {
    var pair := Tag(clustersF(idsF[lo]), false, true) + Tag(clustersR(idsR[lo]), true, true);
    var later := Interleaved(idsF, idsR, clustersF, clustersR, lo + 1, hi);
    assert Interleaved(idsF, idsR, clustersF, clustersR, lo, hi) == pair + later;
    RunAppend(cfg, queryIdx, queryLength, lengthOf, st, pair, later);
  }

  /** The first visit of a cluster list, and the rest. */
  lemma TagSplit(cs: seq<Cluster>, j: int, rc: bool, raise: bool)
    requires 0 <= j < |cs|
    ensures Tag(cs[j..], rc, raise) == [Step(cs[j], rc, raise)] + Tag(cs[j + 1..], rc, raise)
  {
    assert cs[j..][1..] == cs[j + 1..];
  }

  /** Running over two lists in a row is running over the first, then the second. */
  lemma {:induction false} RunAppend(cfg: Config, queryIdx: int, queryLength: int, lengthOf: int -> int,
                                     st: ScanState, a: seq<Step>, b: seq<Step>)
    ensures Run(cfg, queryIdx, queryLength, lengthOf, st, a + b)
         == Run(cfg, queryIdx, queryLength, lengthOf, Run(cfg, queryIdx, queryLength, lengthOf, st, a), b)
    decreases |a|
  {
    if a == [] {
      assert a + b == b;
    } else {
      assert (a + b)[0] == a[0] && (a + b)[1..] == a[1..] + b;
      RunAppend(cfg, queryIdx, queryLength, lengthOf,
                Visit(cfg, queryIdx, queryLength, lengthOf, st, a[0]), a[1..], b);
    }
  }

  /** Processes every cluster of a list against a fixed threshold (the
      extensive search ignores the stop signal). */
  method ProcessClusters(cfg: Config, queryIdx: int, queryLength: int, lengthOf: int -> int,
                         rc: bool, clusters: seq<Cluster>, minClusterSize: int)
    returns (added: seq<Relationship>)
    ensures added == ProcessAll(cfg, queryIdx, queryLength, lengthOf, rc, clusters, minClusterSize)
  {
    added := [];
    var j := 0;
    while j < |clusters|
      invariant 0 <= j <= |clusters|
      invariant added + ProcessAll(cfg, queryIdx, queryLength, lengthOf, rc, clusters[j..], minClusterSize)
             == ProcessAll(cfg, queryIdx, queryLength, lengthOf, rc, clusters, minClusterSize)
    {
      var c := clusters[j];
      ProcessAllStep(cfg, queryIdx, queryLength, lengthOf, rc, clusters, j, minClusterSize);
      var outcome := ProcessCluster(cfg, queryIdx, queryLength, rc, c, lengthOf(c.subjectIdx), minClusterSize);
      added := added + outcome.added;
      j := j + 1;
    }
  }

  /** The clusters from position `j` on: the one at `j`, then the rest. */
  lemma ProcessAllStep(cfg: Config, queryIdx: int, queryLength: int, lengthOf: int -> int,
                       rc: bool, cs: seq<Cluster>, j: int, minClusterSize: int)
    requires 0 <= j < |cs|
    ensures ProcessAll(cfg, queryIdx, queryLength, lengthOf, rc, cs[j..], minClusterSize)
         == ProcessCluster(cfg, queryIdx, queryLength, rc, cs[j], lengthOf(cs[j].subjectIdx), minClusterSize).added
            + ProcessAll(cfg, queryIdx, queryLength, lengthOf, rc, cs[j + 1..], minClusterSize)
  {
    assert cs[j..][1..] == cs[j + 1..];
  }

  /** Visits the clusters of one candidate subject in order: stops at the
      first conclusive embedding and, when `raise` holds, lifts the threshold
      after every other cluster. */
  method VisitSubject(cfg: Config, queryIdx: int, queryLength: int, lengthOf: int -> int,
                      relationships: seq<Relationship>, minClusterSize: int,
                      clusters: seq<Cluster>, rc: bool, raise: bool)
    returns (rels: seq<Relationship>, newMinClusterSize: int, stop: bool)
    ensures ScanState(rels, newMinClusterSize, stop)
         == Run(cfg, queryIdx, queryLength, lengthOf, ScanState(relationships, minClusterSize, false),
                Tag(clusters, rc, raise))
  {
    ghost var target := Run(cfg, queryIdx, queryLength, lengthOf, ScanState(relationships, minClusterSize, false),
                            Tag(clusters, rc, raise));
    rels, newMinClusterSize, stop := relationships, minClusterSize, false;
    assert clusters[0..] == clusters;
    var j := 0;
    while j < |clusters|
      invariant 0 <= j <= |clusters|
      invariant Run(cfg, queryIdx, queryLength, lengthOf, ScanState(rels, newMinClusterSize, false),
                    Tag(clusters[j..], rc, raise)) == target
    {
      var c := clusters[j];
      TagSplit(clusters, j, rc, raise);
      RunCons(cfg, queryIdx, queryLength, lengthOf, ScanState(rels, newMinClusterSize, false),
              Step(c, rc, raise), Tag(clusters[j + 1..], rc, raise));
      var outcome := ProcessCluster(cfg, queryIdx, queryLength, rc, c, lengthOf(c.subjectIdx), newMinClusterSize);
      rels := rels + outcome.added;
      if outcome.stop {
        RunStopped(cfg, queryIdx, queryLength, lengthOf, ScanState(rels, newMinClusterSize, true),
                   Tag(clusters[j + 1..], rc, raise));
        stop := true;
        return;
      }
      if raise {
        newMinClusterSize := Max(newMinClusterSize, c.numDifferentKmers / 5);
      }
      j := j + 1;
    }
    assert clusters[j..] == [];
  }

  /** Runs the search over the candidates of one query read: subject selection
      in both orientations, then either all clusters against a threshold fixed
      up front (extensive search) or candidate by candidate, stopping at the
      first conclusive embedding. */
  method InferRelationshipsFromKmerHits(cfg: Config, queryIdx: int, queryLength: int,
                                        hitsForward: seq<SubjectHits>, hitsReverse: seq<SubjectHits>,
                                        builderF: map<int, seq<Cluster>>, builderR: map<int, seq<Cluster>>,
                                        lengthOf: int -> int)
    returns (relationships: seq<Relationship>)
    requires DistinctSubjects(hitsForward) && DistinctSubjects(hitsReverse)
    requires BuilderConsistent(builderF) && BuilderConsistent(builderR)
    ensures relationships == Relationships(cfg, queryIdx, queryLength, hitsForward, hitsReverse,
                                           builderF, builderR, lengthOf)
  {
    relationships := [];
    var minHits := QueryMinHits(cfg, queryIdx, hitsForward, builderF);
    var subjectIdxsF := FilterAndSortSubjectIds(queryIdx, hitsForward, minHits);
    var subjectIdxsR := FilterAndSortSubjectIds(queryIdx, hitsReverse, minHits);
    if |subjectIdxsF| == 0 && |subjectIdxsR| == 0 {
      return;
    }
    if cfg.extensiveSearch {
      relationships := ExtensiveSearch(cfg, queryIdx, queryLength, subjectIdxsF, subjectIdxsR,
                                       builderF, builderR, minHits, lengthOf);
    } else {
      relationships := NonExtensiveSearch(cfg, queryIdx, queryLength, subjectIdxsF, subjectIdxsR,
                                          SubjectClusters(builderF), SubjectClusters(builderR), lengthOf);
    }
  }

  /** The extensive search: clusters of all candidates, a threshold fixed
      from all of them, then every cluster in order. */
  method ExtensiveSearch(cfg: Config, queryIdx: int, queryLength: int, subjectIdxsF: seq<int>, subjectIdxsR: seq<int>,
                         builderF: map<int, seq<Cluster>>, builderR: map<int, seq<Cluster>>,
                         minHits: int, lengthOf: int -> int)
    returns (relationships: seq<Relationship>)
    requires BuilderConsistent(builderF) && BuilderConsistent(builderR)
    ensures relationships == ExtensiveRelationships(cfg, queryIdx, queryLength, subjectIdxsF, subjectIdxsR,
                                                    builderF, builderR, minHits, lengthOf)
  {
    var clustersForward := CreateClusters(subjectIdxsF, builderF);
    var clustersReverse := CreateClusters(subjectIdxsR, builderR);
    var minClusterSize := CalculateMinimumClusterSize(clustersForward, clustersReverse, minHits);
    var addedF := ProcessClusters(cfg, queryIdx, queryLength, lengthOf, false, clustersForward, minClusterSize);
    var addedR := ProcessClusters(cfg, queryIdx, queryLength, lengthOf, true, clustersReverse, minClusterSize);
    relationships := addedF + addedR;
  }

  /** One interleaved pair: the forward candidate's clusters, then (unless
      the search ended) the reverse candidate's. */
  method VisitPair(cfg: Config, queryIdx: int, queryLength: int, lengthOf: int -> int,
                   relationships: seq<Relationship>, minClusterSize: int,
                   clustersF: seq<Cluster>, clustersR: seq<Cluster>)
    returns (rels: seq<Relationship>, newMinClusterSize: int, stop: bool)
    ensures ScanState(rels, newMinClusterSize, stop)
         == Run(cfg, queryIdx, queryLength, lengthOf, ScanState(relationships, minClusterSize, false),
                Tag(clustersF, false, true) + Tag(clustersR, true, true))
  {
    RunAppend(cfg, queryIdx, queryLength, lengthOf, ScanState(relationships, minClusterSize, false),
              Tag(clustersF, false, true), Tag(clustersR, true, true));
    rels, newMinClusterSize, stop :=
      VisitSubject(cfg, queryIdx, queryLength, lengthOf, relationships, minClusterSize, clustersF, false, true);
    if stop {
      RunStopped(cfg, queryIdx, queryLength, lengthOf, ScanState(rels, newMinClusterSize, true), Tag(clustersR, true, true));
      return;
    }
    rels, newMinClusterSize, stop :=
      VisitSubject(cfg, queryIdx, queryLength, lengthOf, rels, newMinClusterSize, clustersR, true, true);
  }

  /** The interleaved phase: up to ten pairs, raising the threshold as it goes. */
  method InterleavedPhase(cfg: Config, queryIdx: int, queryLength: int, subjectIdxsF: seq<int>, subjectIdxsR: seq<int>,
                          clustersF: int -> seq<Cluster>, clustersR: int -> seq<Cluster>,
                          lengthOf: int -> int)
    returns (relationships: seq<Relationship>, minClusterSize: int, stop: bool, i: int)
    ensures ScanState(relationships, minClusterSize, stop)
         == Run(cfg, queryIdx, queryLength, lengthOf, ScanState([], DEF_MIN_HITS, false),
                Interleaved(subjectIdxsF, subjectIdxsR, clustersF, clustersR, 0, InterleavedPairs(subjectIdxsF, subjectIdxsR)))
    ensures !stop ==> i == InterleavedPairs(subjectIdxsF, subjectIdxsR)
  {
    ghost var n := InterleavedPairs(subjectIdxsF, subjectIdxsR);
    ghost var target := Run(cfg, queryIdx, queryLength, lengthOf, ScanState([], DEF_MIN_HITS, false),
                            Interleaved(subjectIdxsF, subjectIdxsR, clustersF, clustersR, 0, n));
    relationships, minClusterSize, stop := [], DEF_MIN_HITS, false;
    i := 0;
    while !stop && i < |subjectIdxsF| && i < |subjectIdxsR| && i < MAX_INTERLEAVED_PAIRS
      invariant 0 <= i <= n
      invariant stop ==> ScanState(relationships, minClusterSize, true) == target
      invariant !stop ==> Run(cfg, queryIdx, queryLength, lengthOf, ScanState(relationships, minClusterSize, false),
                              Interleaved(subjectIdxsF, subjectIdxsR, clustersF, clustersR, i, n)) == target
    {
      relationships, minClusterSize, stop :=
        VisitPairAt(cfg, queryIdx, queryLength, lengthOf, subjectIdxsF, subjectIdxsR, clustersF, clustersR,
                    i, n, target, relationships, minClusterSize);
      if !stop {
        i := i + 1;
      }
    }
    if !stop {
      InterleavedDone(cfg, queryIdx, queryLength, lengthOf, ScanState(relationships, minClusterSize, false),
                      subjectIdxsF, subjectIdxsR, clustersF, clustersR, i);
    }
  }

  /** Once every pair is visited, nothing is left to run. */
  lemma InterleavedDone(cfg: Config, queryIdx: int, queryLength: int, lengthOf: int -> int, st: ScanState,
                        idsF: seq<int>, idsR: seq<int>, clustersF: int -> seq<Cluster>,
                        clustersR: int -> seq<Cluster>, i: int)
    requires 0 <= i <= InterleavedPairs(idsF, idsR)
    requires !(i < |idsF| && i < |idsR| && i < MAX_INTERLEAVED_PAIRS)
    ensures i == InterleavedPairs(idsF, idsR)
    ensures Run(cfg, queryIdx, queryLength, lengthOf, st, Interleaved(idsF, idsR, clustersF, clustersR, i, i)) == st
  {
    assert Interleaved(idsF, idsR, clustersF, clustersR, i, i) == [];
  }

  /** The pair at position `i` of the interleaved phase. */
  method VisitPairAt(cfg: Config, queryIdx: int, queryLength: int, lengthOf: int -> int,
                     idsF: seq<int>, idsR: seq<int>, clustersF: int -> seq<Cluster>,
                     clustersR: int -> seq<Cluster>, i: int, ghost n: int, ghost target: ScanState,
                     relationships: seq<Relationship>, minClusterSize: int)
    returns (rels: seq<Relationship>, newMinClusterSize: int, stop: bool)
    requires 0 <= i < n && n <= |idsF| && n <= |idsR|
    requires Run(cfg, queryIdx, queryLength, lengthOf, ScanState(relationships, minClusterSize, false),
                 Interleaved(idsF, idsR, clustersF, clustersR, i, n)) == target
    ensures stop ==> ScanState(rels, newMinClusterSize, true) == target
    ensures !stop ==> Run(cfg, queryIdx, queryLength, lengthOf, ScanState(rels, newMinClusterSize, false),
                          Interleaved(idsF, idsR, clustersF, clustersR, i + 1, n)) == target
  {
    var csF := clustersF(idsF[i]);
    var csR := clustersR(idsR[i]);
    rels, newMinClusterSize, stop :=
      VisitPair(cfg, queryIdx, queryLength, lengthOf, relationships, minClusterSize, csF, csR);
    InterleavedAdvance(cfg, queryIdx, queryLength, lengthOf, ScanState(relationships, minClusterSize, false),
                       ScanState(rels, newMinClusterSize, stop), idsF, idsR, clustersF, clustersR, i, n, target);
  }

  /** One interleaved pair moves the scan from pair `i` to pair `i + 1`, or
      ends it in its final state. */
  lemma InterleavedAdvance(cfg: Config, queryIdx: int, queryLength: int, lengthOf: int -> int,
                           st: ScanState, st': ScanState, idsF: seq<int>, idsR: seq<int>,
                           clustersF: int -> seq<Cluster>, clustersR: int -> seq<Cluster>,
                           i: int, n: int, target: ScanState)
    requires 0 <= i < n && n <= |idsF| && n <= |idsR|
    requires Run(cfg, queryIdx, queryLength, lengthOf, st, Interleaved(idsF, idsR, clustersF, clustersR, i, n)) == target
    requires st' == Run(cfg, queryIdx, queryLength, lengthOf, st,
                        Tag(clustersF(idsF[i]), false, true) + Tag(clustersR(idsR[i]), true, true))
    ensures st'.stopped ==> st' == target
    ensures !st'.stopped ==> Run(cfg, queryIdx, queryLength, lengthOf, st', Interleaved(idsF, idsR, clustersF, clustersR, i + 1, n)) == target
  {
    InterleavedFirst(cfg, queryIdx, queryLength, lengthOf, st, idsF, idsR, clustersF, clustersR, i, n);
    if st'.stopped {
      RunStopped(cfg, queryIdx, queryLength, lengthOf, st', Interleaved(idsF, idsR, clustersF, clustersR, i + 1, n));
    }
  }

  /** A trailing phase: the candidates of one orientation from position `i`
      on, with the threshold left as it is. */
  method TrailingPhase(cfg: Config, queryIdx: int, queryLength: int, ids: seq<int>,
                       clustersOf: int -> seq<Cluster>, rc: bool, lengthOf: int -> int,
                       relationships: seq<Relationship>, minClusterSize: int, i0: int)
    returns (rels: seq<Relationship>, stop: bool, i: int)
    requires 0 <= i0
    ensures ScanState(rels, minClusterSize, stop)
         == Run(cfg, queryIdx, queryLength, lengthOf, ScanState(relationships, minClusterSize, false),
                Trailing(ids, clustersOf, i0, rc))
    ensures !stop ==> i == Max(i0, |ids|)
  {
    ghost var target := Run(cfg, queryIdx, queryLength, lengthOf, ScanState(relationships, minClusterSize, false),
                            Trailing(ids, clustersOf, i0, rc));
    rels, stop, i := relationships, false, i0;
    while i < |ids|
      invariant i0 <= i <= Max(i0, |ids|)
      invariant Run(cfg, queryIdx, queryLength, lengthOf, ScanState(rels, minClusterSize, false),
                    Trailing(ids, clustersOf, i, rc)) == target
    {
      var clusters := clustersOf(ids[i]);
      ghost var before := ScanState(rels, minClusterSize, false);
      var sameMin;
      rels, sameMin, stop :=
        VisitSubject(cfg, queryIdx, queryLength, lengthOf, rels, minClusterSize, clusters, rc, false);
      TrailingAdvance(cfg, queryIdx, queryLength, lengthOf, before, ScanState(rels, sameMin, stop),
                      ids, clustersOf, i, rc, target);
      if stop {
        return;
      }
      i := i + 1;
    }
  }

  /** One trailing candidate moves the scan from position `i` to `i + 1`, or
      ends it in its final state. */
  lemma TrailingAdvance(cfg: Config, queryIdx: int, queryLength: int, lengthOf: int -> int,
                        st: ScanState, st': ScanState, ids: seq<int>, clustersOf: int -> seq<Cluster>,
                        i: int, rc: bool, target: ScanState)
    requires 0 <= i < |ids|
    requires Run(cfg, queryIdx, queryLength, lengthOf, st, Trailing(ids, clustersOf, i, rc)) == target
    requires st' == Run(cfg, queryIdx, queryLength, lengthOf, st, Tag(clustersOf(ids[i]), rc, false))
    ensures st'.minClusterSize == st.minClusterSize
    ensures st'.stopped ==> st' == target
    ensures !st'.stopped ==> Run(cfg, queryIdx, queryLength, lengthOf, st', Trailing(ids, clustersOf, i + 1, rc)) == target
  {
    RunKeepsThreshold(cfg, queryIdx, queryLength, lengthOf, st, Tag(clustersOf(ids[i]), rc, false));
    assert Trailing(ids, clustersOf, i, rc)
        == Tag(clustersOf(ids[i]), rc, false) + Trailing(ids, clustersOf, i + 1, rc);
    RunAppend(cfg, queryIdx, queryLength, lengthOf, st, Tag(clustersOf(ids[i]), rc, false),
              Trailing(ids, clustersOf, i + 1, rc));
    if st'.stopped {
      RunStopped(cfg, queryIdx, queryLength, lengthOf, st', Trailing(ids, clustersOf, i + 1, rc));
    }
  }

  /** The non-extensive search: interleaved pairs with a rising threshold,
      then, unless ten pairs were visited, the remaining forward candidates
      and the remaining reverse candidates. */
  method NonExtensiveSearch(cfg: Config, queryIdx: int, queryLength: int, subjectIdxsF: seq<int>, subjectIdxsR: seq<int>,
                            clustersF: int -> seq<Cluster>, clustersR: int -> seq<Cluster>,
                            lengthOf: int -> int)
    returns (relationships: seq<Relationship>)
    ensures relationships == ScanOutcome(cfg, queryIdx, queryLength, subjectIdxsF, subjectIdxsR,
                                         clustersF, clustersR, lengthOf).rels
  {
    ghost var n := InterleavedPairs(subjectIdxsF, subjectIdxsR);
    ghost var tail := if n == MAX_INTERLEAVED_PAIRS then []
                      else Trailing(subjectIdxsF, clustersF, n, false) + Trailing(subjectIdxsR, clustersR, n, true);
    RunAppend(cfg, queryIdx, queryLength, lengthOf, ScanState([], DEF_MIN_HITS, false),
              Interleaved(subjectIdxsF, subjectIdxsR, clustersF, clustersR, 0, n), tail);
    var minClusterSize, stop, i;
    relationships, minClusterSize, stop, i :=
      InterleavedPhase(cfg, queryIdx, queryLength, subjectIdxsF, subjectIdxsR, clustersF, clustersR, lengthOf);
    if stop {
      RunStopped(cfg, queryIdx, queryLength, lengthOf, ScanState(relationships, minClusterSize, true), tail);
      return;
    }
    if i == MAX_INTERLEAVED_PAIRS {
      return;
    }
    RunAppend(cfg, queryIdx, queryLength, lengthOf, ScanState(relationships, minClusterSize, false),
              Trailing(subjectIdxsF, clustersF, n, false), Trailing(subjectIdxsR, clustersR, n, true));
    relationships, stop, i :=
      TrailingPhase(cfg, queryIdx, queryLength, subjectIdxsF, clustersF, false, lengthOf, relationships, minClusterSize, i);
    if stop {
      RunStopped(cfg, queryIdx, queryLength, lengthOf, ScanState(relationships, minClusterSize, true),
                 Trailing(subjectIdxsR, clustersR, n, true));
      return;
    }
    assert Trailing(subjectIdxsR, clustersR, i, true) == Trailing(subjectIdxsR, clustersR, n, true) by {
      if i != n {
        assert i >= |subjectIdxsR| && n >= |subjectIdxsR|;
      }
    }
    relationships, stop, i :=
      TrailingPhase(cfg, queryIdx, queryLength, subjectIdxsR, clustersR, true, lengthOf, relationships, minClusterSize, i);
  }

  /** Visits that may not raise the threshold leave it unchanged. */
  lemma {:induction false} RunKeepsThreshold(cfg: Config, queryIdx: int, queryLength: int, lengthOf: int -> int,
                                             st: ScanState, steps: seq<Step>)
    requires forall k :: 0 <= k < |steps| ==> !steps[k].raise
    ensures Run(cfg, queryIdx, queryLength, lengthOf, st, steps).minClusterSize == st.minClusterSize
    decreases |steps|
  {
    if steps != [] {
      RunKeepsThreshold(cfg, queryIdx, queryLength, lengthOf,
                        Visit(cfg, queryIdx, queryLength, lengthOf, st, steps[0]), steps[1..]);
    }
  }

  // ---------------------------------------------------------------------------
  // Properties of the search

  /** The relationship joins the query with a read of lower id. */
  predicate JoinsEarlierRead(r: Relationship, queryIdx: int)
  {
    match r
    case Embedded(seqId, _, hostId, _, _, _, _, _, _, _, _) => seqId == queryIdx && hostId < queryIdx
    case Edge(v1, v2, _, _, _, _, _, _, _) =>
      (v1.seqId < queryIdx && v2.seqId == queryIdx) || (v1.seqId == queryIdx && v2.seqId < queryIdx)
  }

  /** Every visit is about a subject of lower id than the query. */
  ghost predicate StepsBelow(steps: seq<Step>, queryIdx: int)
  {
    forall k :: 0 <= k < |steps| ==> steps[k].c.subjectIdx < queryIdx
  }

  /** The search only appends: earlier relationships stay in place, each
      visit adds at most one, and the threshold never goes down. */
  lemma {:induction false} RunGrows(cfg: Config, queryIdx: int, queryLength: int, lengthOf: int -> int,
                                    st: ScanState, steps: seq<Step>)
    ensures var r := Run(cfg, queryIdx, queryLength, lengthOf, st, steps);
      && |st.rels| <= |r.rels| <= |st.rels| + |steps|
      && r.rels[..|st.rels|] == st.rels
      && r.minClusterSize >= st.minClusterSize
    decreases |steps|
  {
    if steps != [] {
      var st1 := Visit(cfg, queryIdx, queryLength, lengthOf, st, steps[0]);
      RunGrows(cfg, queryIdx, queryLength, lengthOf, st1, steps[1..]);
      var r := Run(cfg, queryIdx, queryLength, lengthOf, st1, steps[1..]);
      assert st1.rels[..|st.rels|] == st.rels;
      assert r.rels[..|st.rels|] == r.rels[..|st1.rels|][..|st.rels|];
    }
  }

  /** A search that stops ends with an embedding of the query lying inside
      its host, whose weighted k-mer coverage exceeds half the query. */
  lemma {:induction false} RunStopsAtConclusiveEmbedding(cfg: Config, queryIdx: int, queryLength: int,
                                                         lengthOf: int -> int, st: ScanState, steps: seq<Step>)
    requires !st.stopped
    ensures var r := Run(cfg, queryIdx, queryLength, lengthOf, st, steps);
      r.stopped ==>
        && |r.rels| > |st.rels|
        && var last := r.rels[|r.rels| - 1];
           && last.Embedded? && last.seqId == queryIdx
           && 0 <= last.hostStart && last.hostEnd <= lengthOf(last.hostId)
           && last.weightedCoverageSharedKmers as real > 0.5 * queryLength as real
    decreases |steps|
  {
    if steps != [] {
      var step := steps[0];
      var st1 := Visit(cfg, queryIdx, queryLength, lengthOf, st, step);
      if st1.stopped {
        RunStopped(cfg, queryIdx, queryLength, lengthOf, st1, steps[1..]);
        var o := ProcessCluster(cfg, queryIdx, queryLength, step.rc, step.c,
                                lengthOf(step.c.subjectIdx), st.minClusterSize);
        assert o.added[0] in o.added;
        assert st1.rels[|st1.rels| - 1] == o.added[0];
      } else {
        RunStopsAtConclusiveEmbedding(cfg, queryIdx, queryLength, lengthOf, st1, steps[1..]);
      }
    }
  }

  /** Visits about lower-id subjects only add relationships with lower-id reads. */
  lemma {:induction false} RunJoinsEarlierReads(cfg: Config, queryIdx: int, queryLength: int,
                                                lengthOf: int -> int, st: ScanState, steps: seq<Step>)
    requires forall r :: r in st.rels ==> JoinsEarlierRead(r, queryIdx)
    requires StepsBelow(steps, queryIdx)
    ensures forall r :: r in Run(cfg, queryIdx, queryLength, lengthOf, st, steps).rels ==> JoinsEarlierRead(r, queryIdx)
    decreases |steps|
  {
    if steps != [] {
      var st1 := Visit(cfg, queryIdx, queryLength, lengthOf, st, steps[0]);
      assert StepsBelow(steps[1..], queryIdx) by {
        forall k | 0 <= k < |steps[1..]| ensures steps[1..][k].c.subjectIdx < queryIdx {
          assert steps[1..][k] == steps[k + 1];
        }
      }
      assert steps[0].c.subjectIdx < queryIdx;
      RunJoinsEarlierReads(cfg, queryIdx, queryLength, lengthOf, st1, steps[1..]);
    }
  }

  /** Joining two lists of visits about lower-id subjects. */
  lemma StepsBelowConcat(a: seq<Step>, b: seq<Step>, queryIdx: int)
    requires StepsBelow(a, queryIdx) && StepsBelow(b, queryIdx)
    ensures StepsBelow(a + b, queryIdx)
  {
    forall k | 0 <= k < |a + b| ensures (a + b)[k].c.subjectIdx < queryIdx {
      if k < |a| { assert (a + b)[k] == a[k]; } else { assert (a + b)[k] == b[k - |a|]; }
    }
  }

  /** The visits of one subject's clusters are about that subject. */
  lemma SubjectStepsBelow(clustersOf: int -> seq<Cluster>, s: int, rc: bool, raise: bool, queryIdx: int)
    requires KeepsSubject(clustersOf) && s < queryIdx
    ensures StepsBelow(Tag(clustersOf(s), rc, raise), queryIdx)
  {
  }

  /** The interleaved phase visits at most four clusters per pair. */
  lemma {:induction false} InterleavedLength(idsF: seq<int>, idsR: seq<int>, clustersF: int -> seq<Cluster>,
                                             clustersR: int -> seq<Cluster>, lo: int, hi: int)
    requires KeepsSubject(clustersF) && KeepsSubject(clustersR)
    requires 0 <= lo <= hi && hi <= |idsF| && hi <= |idsR|
    ensures |Interleaved(idsF, idsR, clustersF, clustersR, lo, hi)| <= 4 * (hi - lo)
    decreases hi - lo
  {
    if lo < hi {
      InterleavedLength(idsF, idsR, clustersF, clustersR, lo + 1, hi);
      var cf := clustersF(idsF[lo]);
      var cr := clustersR(idsR[lo]);
      var rest := Interleaved(idsF, idsR, clustersF, clustersR, lo + 1, hi);
      assert Interleaved(idsF, idsR, clustersF, clustersR, lo, hi) == Tag(cf, false, true) + Tag(cr, true, true) + rest;
      AtMostTwoKept(clustersF, idsF[lo]);
      AtMostTwoKept(clustersR, idsR[lo]);
      assert |Tag(cf, false, true)| <= 2 && |Tag(cr, true, true)| <= 2;
    }
  }

  /** The interleaved visits are about listed subjects. */
  lemma {:induction false} InterleavedBelow(idsF: seq<int>, idsR: seq<int>, clustersF: int -> seq<Cluster>,
                                            clustersR: int -> seq<Cluster>, lo: int, hi: int, queryIdx: int)
    requires KeepsSubject(clustersF) && KeepsSubject(clustersR)
    requires 0 <= lo && hi <= |idsF| && hi <= |idsR|
    requires forall s :: s in idsF || s in idsR ==> s < queryIdx
    ensures StepsBelow(Interleaved(idsF, idsR, clustersF, clustersR, lo, hi), queryIdx)
    decreases hi - lo
  {
    if lo < hi {
      InterleavedBelow(idsF, idsR, clustersF, clustersR, lo + 1, hi, queryIdx);
      assert idsF[lo] in idsF && idsR[lo] in idsR;
      var tf := Tag(clustersF(idsF[lo]), false, true);
      var tr := Tag(clustersR(idsR[lo]), true, true);
      SubjectStepsBelow(clustersF, idsF[lo], false, true, queryIdx);
      SubjectStepsBelow(clustersR, idsR[lo], true, true, queryIdx);
      StepsBelowConcat(tf, tr, queryIdx);
      StepsBelowConcat(tf + tr, Interleaved(idsF, idsR, clustersF, clustersR, lo + 1, hi), queryIdx);
    }
  }

  /** The trailing visits are about listed subjects. */
  lemma {:induction false} TrailingBelow(ids: seq<int>, clustersOf: int -> seq<Cluster>, lo: int, rc: bool, queryIdx: int)
    requires KeepsSubject(clustersOf) && 0 <= lo
    requires forall s :: s in ids ==> s < queryIdx
    ensures StepsBelow(Trailing(ids, clustersOf, lo, rc), queryIdx)
    decreases |ids| - lo
  {
    if lo < |ids| {
      TrailingBelow(ids, clustersOf, lo + 1, rc, queryIdx);
      assert ids[lo] in ids;
      SubjectStepsBelow(clustersOf, ids[lo], rc, false, queryIdx);
      StepsBelowConcat(Tag(clustersOf(ids[lo]), rc, false), Trailing(ids, clustersOf, lo + 1, rc), queryIdx);
    }
  }

  /** The non-extensive search over lower-id candidates only relates the
      query with lower-id reads. */
  lemma ScanJoinsEarlierReads(cfg: Config, queryIdx: int, queryLength: int, idsF: seq<int>, idsR: seq<int>,
                              clustersF: int -> seq<Cluster>, clustersR: int -> seq<Cluster>,
                              lengthOf: int -> int)
    requires KeepsSubject(clustersF) && KeepsSubject(clustersR)
    requires forall s :: s in idsF || s in idsR ==> s < queryIdx
    ensures forall r :: r in ScanOutcome(cfg, queryIdx, queryLength, idsF, idsR, clustersF, clustersR, lengthOf).rels ==>
      JoinsEarlierRead(r, queryIdx)
  {
    var n := InterleavedPairs(idsF, idsR);
    InterleavedBelow(idsF, idsR, clustersF, clustersR, 0, n, queryIdx);
    TrailingBelow(idsF, clustersF, n, false, queryIdx);
    TrailingBelow(idsR, clustersR, n, true, queryIdx);
    StepsBelowConcat(Trailing(idsF, clustersF, n, false), Trailing(idsR, clustersR, n, true), queryIdx);
    StepsBelowConcat(Interleaved(idsF, idsR, clustersF, clustersR, 0, n),
                     if n == MAX_INTERLEAVED_PAIRS then []
                     else Trailing(idsF, clustersF, n, false) + Trailing(idsR, clustersR, n, true), queryIdx);
    RunJoinsEarlierReads(cfg, queryIdx, queryLength, lengthOf, ScanState([], DEF_MIN_HITS, false),
                         ScanSteps(idsF, idsR, clustersF, clustersR));
  }

  /** Relationships of the extensive search: at most one per cluster, each
      with the subject of its cluster. */
  lemma {:induction false} ProcessAllFacts(cfg: Config, queryIdx: int, queryLength: int, lengthOf: int -> int,
                                           rc: bool, cs: seq<Cluster>, minClusterSize: int)
    ensures |ProcessAll(cfg, queryIdx, queryLength, lengthOf, rc, cs, minClusterSize)| <= |cs|
    ensures (forall k :: 0 <= k < |cs| ==> cs[k].subjectIdx < queryIdx) ==>
      forall r :: r in ProcessAll(cfg, queryIdx, queryLength, lengthOf, rc, cs, minClusterSize) ==> JoinsEarlierRead(r, queryIdx)
    decreases |cs|
  {
    if cs != [] {
      ProcessAllFacts(cfg, queryIdx, queryLength, lengthOf, rc, cs[1..], minClusterSize);
      if forall k :: 0 <= k < |cs| ==> cs[k].subjectIdx < queryIdx {
        assert forall k :: 0 <= k < |cs[1..]| ==> cs[1..][k] == cs[k + 1];
      }
    }
  }

  /** The extensive search over lower-id candidates only relates the query
      with lower-id reads, and reports at most two relationships per candidate. */
  lemma ExtensiveJoinsEarlierReads(cfg: Config, queryIdx: int, queryLength: int, idsF: seq<int>, idsR: seq<int>,
                                   builderF: map<int, seq<Cluster>>, builderR: map<int, seq<Cluster>>,
                                   minHits: int, lengthOf: int -> int)
    requires BuilderConsistent(builderF) && BuilderConsistent(builderR)
    requires forall s :: s in idsF || s in idsR ==> s < queryIdx
    ensures var rels := ExtensiveRelationships(cfg, queryIdx, queryLength, idsF, idsR, builderF, builderR, minHits, lengthOf);
      && |rels| <= 2 * (|idsF| + |idsR|)
      && forall r :: r in rels ==> JoinsEarlierRead(r, queryIdx)
  {
    var clustersF := CreateClusters(idsF, builderF);
    var clustersR := CreateClusters(idsR, builderR);
    var m := MinimumClusterSize(clustersF, clustersR, minHits);
    ProcessAllFacts(cfg, queryIdx, queryLength, lengthOf, false, clustersF, m);
    ProcessAllFacts(cfg, queryIdx, queryLength, lengthOf, true, clustersR, m);
  }

  /** Ranked candidates are below the query id. */
  lemma RankedSubjectsBelow(queryIdx: int, entries: seq<SubjectHits>, minHits: int)
    ensures forall s :: s in RankedSubjects(queryIdx, entries, minHits) ==> s < queryIdx
  {
    PassingSubjectsBelow(entries, queryIdx, minHits);
    SameMultisetSameMembers(PassingSubjects(entries, queryIdx, minHits), RankedSubjects(queryIdx, entries, minHits));
  }

  /** Every relationship of a query joins it with a read of lower id: each
      pair of reads is considered once, from its later read. */
  lemma RelationshipsJoinEarlierReads(cfg: Config, queryIdx: int, queryLength: int,
                                      hitsForward: seq<SubjectHits>, hitsReverse: seq<SubjectHits>,
                                      builderF: map<int, seq<Cluster>>, builderR: map<int, seq<Cluster>>,
                                      lengthOf: int -> int)
    requires BuilderConsistent(builderF) && BuilderConsistent(builderR)
    ensures var rels := Relationships(cfg, queryIdx, queryLength, hitsForward, hitsReverse, builderF, builderR, lengthOf);
      forall r :: r in rels ==> JoinsEarlierRead(r, queryIdx)
  {
    var minHits := QueryMinHits(cfg, queryIdx, hitsForward, builderF);
    var idsF := RankedSubjects(queryIdx, hitsForward, minHits);
    var idsR := RankedSubjects(queryIdx, hitsReverse, minHits);
    RankedSubjectsBelow(queryIdx, hitsForward, minHits);
    RankedSubjectsBelow(queryIdx, hitsReverse, minHits);
    if idsF == [] && idsR == [] {
    } else if cfg.extensiveSearch {
      ExtensiveJoinsEarlierReads(cfg, queryIdx, queryLength, idsF, idsR, builderF, builderR, minHits, lengthOf);
    } else {
      ScanJoinsEarlierReads(cfg, queryIdx, queryLength, idsF, idsR, SubjectClusters(builderF), SubjectClusters(builderR),
                            lengthOf);
    }
  }

  /** No entry passes: no subject is selected. */
  lemma {:induction false} NoPassingNoSubjects(entries: seq<SubjectHits>, queryIdx: int, minHits: int)
    requires forall k :: 0 <= k < |entries| ==> !Passes(entries[k], queryIdx, minHits)
    ensures RankedSubjects(queryIdx, entries, minHits) == []
  {
    var p := PassingSubjects(entries, queryIdx, minHits);
    assert p == [] by {
      if p != [] {
        PassingSubjectsMembers(entries, queryIdx, minHits, p[0]);
        assert false;
      }
    }
  }

  /** A passing id belongs to a passing entry. */
  lemma {:induction false} PassingSubjectsMembers(entries: seq<SubjectHits>, queryIdx: int, minHits: int, s: int)
    requires s in PassingSubjects(entries, queryIdx, minHits)
    ensures exists k :: 0 <= k < |entries| && entries[k].subjectIdx == s && Passes(entries[k], queryIdx, minHits)
  {
    var init := entries[..|entries| - 1];
    if s in PassingSubjects(init, queryIdx, minHits) {
      PassingSubjectsMembers(init, queryIdx, minHits, s);
      var k :| 0 <= k < |init| && init[k].subjectIdx == s && Passes(init[k], queryIdx, minHits);
      assert entries[k] == init[k];
    } else {
      assert entries[|entries| - 1].subjectIdx == s;
    }
  }

  /** A query with no candidate in either orientation gets no relationships. */
  lemma NoCandidatesNoRelationships(cfg: Config, queryIdx: int, queryLength: int,
                                    hitsForward: seq<SubjectHits>, hitsReverse: seq<SubjectHits>,
                                    builderF: map<int, seq<Cluster>>, builderR: map<int, seq<Cluster>>,
                                    lengthOf: int -> int)
    requires BuilderConsistent(builderF) && BuilderConsistent(builderR)
    requires var minHits := QueryMinHits(cfg, queryIdx, hitsForward, builderF);
      && (forall k :: 0 <= k < |hitsForward| ==> !Passes(hitsForward[k], queryIdx, minHits))
      && (forall k :: 0 <= k < |hitsReverse| ==> !Passes(hitsReverse[k], queryIdx, minHits))
    ensures Relationships(cfg, queryIdx, queryLength, hitsForward, hitsReverse, builderF, builderR, lengthOf) == []
  {
    var minHits := QueryMinHits(cfg, queryIdx, hitsForward, builderF);
    NoPassingNoSubjects(hitsForward, queryIdx, minHits);
    NoPassingNoSubjects(hitsReverse, queryIdx, minHits);
  }

  /** The non-extensive search ends with a threshold of at least DEF_MIN_HITS,
      reports at most one relationship per visited cluster, and when it stops
      early its last relationship is a conclusive embedding of the query
      inside its host. */
  lemma ScanOutcomeFacts(cfg: Config, queryIdx: int, queryLength: int, idsF: seq<int>, idsR: seq<int>,
                         clustersF: int -> seq<Cluster>, clustersR: int -> seq<Cluster>,
                         lengthOf: int -> int)
    ensures var r := ScanOutcome(cfg, queryIdx, queryLength, idsF, idsR, clustersF, clustersR, lengthOf);
      && r.minClusterSize >= DEF_MIN_HITS
      && |r.rels| <= |ScanSteps(idsF, idsR, clustersF, clustersR)|
      && (r.stopped ==>
            && |r.rels| > 0
            && var last := r.rels[|r.rels| - 1];
               && last.Embedded? && last.seqId == queryIdx
               && 0 <= last.hostStart && last.hostEnd <= lengthOf(last.hostId)
               && last.weightedCoverageSharedKmers as real > 0.5 * queryLength as real)
  {
    var init := ScanState([], DEF_MIN_HITS, false);
    var steps := ScanSteps(idsF, idsR, clustersF, clustersR);
    assert ScanOutcome(cfg, queryIdx, queryLength, idsF, idsR, clustersF, clustersR, lengthOf)
        == Run(cfg, queryIdx, queryLength, lengthOf, init, steps);
    RunGrows(cfg, queryIdx, queryLength, lengthOf, init, steps);
    RunStopsAtConclusiveEmbedding(cfg, queryIdx, queryLength, lengthOf, init, steps);
  }

  /** When both orientations have at least ten candidates, the non-extensive
      search visits only the ten interleaved pairs, so it reports at most 40
      relationships (two clusters per subject, two subjects per pair). */
  lemma TenPairsBoundTheSearch(cfg: Config, queryIdx: int, queryLength: int, idsF: seq<int>, idsR: seq<int>,
                               clustersF: int -> seq<Cluster>, clustersR: int -> seq<Cluster>,
                               lengthOf: int -> int)
    requires KeepsSubject(clustersF) && KeepsSubject(clustersR)
    requires |idsF| >= MAX_INTERLEAVED_PAIRS && |idsR| >= MAX_INTERLEAVED_PAIRS
    ensures ScanSteps(idsF, idsR, clustersF, clustersR)
         == Interleaved(idsF, idsR, clustersF, clustersR, 0, MAX_INTERLEAVED_PAIRS)
    ensures |ScanOutcome(cfg, queryIdx, queryLength, idsF, idsR, clustersF, clustersR, lengthOf).rels|
         <= 4 * MAX_INTERLEAVED_PAIRS
  {
    InterleavedLength(idsF, idsR, clustersF, clustersR, 0, MAX_INTERLEAVED_PAIRS);
    ScanOutcomeFacts(cfg, queryIdx, queryLength, idsF, idsR, clustersF, clustersR, lengthOf);
  }

  /** The extensive search reports at most one relationship per kept
      cluster, so at most two per candidate subject. */
  lemma ExtensiveSearchBound(cfg: Config, queryIdx: int, queryLength: int,
                             hitsForward: seq<SubjectHits>, hitsReverse: seq<SubjectHits>,
                             builderF: map<int, seq<Cluster>>, builderR: map<int, seq<Cluster>>,
                             lengthOf: int -> int)
    requires BuilderConsistent(builderF) && BuilderConsistent(builderR)
    requires cfg.extensiveSearch
    ensures var minHits := QueryMinHits(cfg, queryIdx, hitsForward, builderF);
      |Relationships(cfg, queryIdx, queryLength, hitsForward, hitsReverse, builderF, builderR, lengthOf)|
        <= 2 * (|RankedSubjects(queryIdx, hitsForward, minHits)| + |RankedSubjects(queryIdx, hitsReverse, minHits)|)
  {
    var minHits := QueryMinHits(cfg, queryIdx, hitsForward, builderF);
    var idsF := RankedSubjects(queryIdx, hitsForward, minHits);
    var idsR := RankedSubjects(queryIdx, hitsReverse, minHits);
    RankedSubjectsBelow(queryIdx, hitsForward, minHits);
    RankedSubjectsBelow(queryIdx, hitsReverse, minHits);
    ExtensiveJoinsEarlierReads(cfg, queryIdx, queryLength, idsF, idsR, builderF, builderR, minHits, lengthOf);
  }
}

# Overlap-graph relationships and indel correction for long-read assembly

This Dafny project models three parts of the NGSEP long-read assembler and
proves properties about them.

- **`EdgesFinder`** (`edges_finder.dfy`) models
  `KmerHitsAssemblyEdgesFinder`, the newer classifier. For one query read it
  does the following:
  - calibrates the minimum number of distinct shared k-mers (`minHits`) from
    the read's hits on itself;
  - ranks the earlier reads (subjects) by distinct shared query k-mers;
  - keeps at most two hit clusters per subject;
  - filters clusters on size, overlap and evidence;
  - turns each surviving cluster into an embedding or an overlap edge, with
    the query evidence mirrored for the reverse-complement strand.

  The search is either extensive or an interleaved forward/reverse scan. The
  scan visits at most ten subject pairs and stops at the first conclusive
  embedding.
- **`GraphBuilder`** (`graph_builder.dfy`) models `GraphBuilderFMIndex`, the
  older builder. Its steps are:
  - collect the FM-index hits of every k-mer of a read on earlier reads;
  - drop repetitive hits;
  - group the hits by target read and cluster each large enough group into
    one or two clusters;
  - walk the ten best clusters, writing overlap edges
    (`cost = targetLength + queryLength - overlap`) and embeddings into an
    `AssemblyGraph` object;
  - run the reverse-complement pass only when the forward pass found no
    embedding.
- **`IndelCorrector`** (`indel_corrector.dfy`) models
  `AlignmentBasedIndelErrorsCorrector`. For every layout path it rewrites
  the reads aligned to the path consensus:
  - it undoes indels of at most three bases that no active called variant
    explains;
  - it applies short homozygous variants that the read lacks;
  - it marks every rewritten read with the path id in a `sequencePaths`
    array, so that no read is rewritten twice.

`Common` (`common.dfy`) holds shared definitions:
- an option type;
- Java's truncating `(int)` cast;
- the stable sort that `Collections.sort` performs with a key comparator;
- a sequence filter.

Foreign computations arrive as data:
- The FM index search is a sequence of `KmerSearch` records.
- The hit-cluster constructor of the older builder (`new KmerHitsCluster(query, hits)`) is a function parameter keyed by the query read and the strand searched (`ReadClusterBuilder`). Each strand of each read gets its own constructor `build(queryIdx, queryRC)`, so two reads, or two strands of one read, with the same hits may get different clusters.
- In the edges finder, the builder's clusters per subject are a map. The
  scan receives the per-subject `createClusters` call as a function of the
  subject id (`SubjectClusters`).
- Cluster records carry the simulated-alignment numbers.
- The path aligner and variant caller produce `PathAlignment` records. Each
  alignment carries its consensus-to-read position map as a function.
- The reverse complement is the function parameter `revComp`.

Some Java behaviour becomes explicit in the model:
- Java `double` arithmetic is modelled with `real`.
- Java hash-map iteration becomes a sequence of entries.
- `String.substring` returns `None` where Java throws. An array index out of
  range also gives `None`. A failure ends the run in the state reached
  before it, as the exception does.

## Model

| member | source | states |
|---|---|---|
| Common.Trunc | src/ngsep/assembly/KmerHitsAssemblyEdgesFinder.java:77 | the `(int)` cast truncates toward zero: the result is within one of the value, on the side of zero |
| Common.SortDesc | src/ngsep/assembly/GraphBuilderFMIndex.java:138 | sorting by a descending key comparator yields a non-increasing permutation of its input |
| Common.SortDescStable | src/ngsep/assembly/GraphBuilderFMIndex.java:138 | the sort is stable, as `Collections.sort` is: for every key value, the elements with that key appear in the result in their input order |
| EdgesFinder.InitialMinHits | src/ngsep/assembly/KmerHitsAssemblyEdgesFinder.java:77 | the initial hit floor is never below DEF_MIN_HITS (50) |
| EdgesFinder.CalibratedMinHits | src/ngsep/assembly/KmerHitsAssemblyEdgesFinder.java:74-105 | the calibrated floor is at least 50, never above the initial floor, and unchanged without a self cluster; with a self cluster it is 50 or at most `minProportionOverlap` times the self cluster's k-mers |
| EdgesFinder.MinHits | src/ngsep/assembly/KmerHitsAssemblyEdgesFinder.java:77-106 | `minHits` is at least 50, and is exactly twice the calibrated floor when the search is not extensive |
| EdgesFinder.CountDistinctQueryKmers | src/ngsep/assembly/KmerHitsAssemblyEdgesFinder.java:169-171 | the loop counts the distinct query k-mer positions among a subject's hits |
| EdgesFinder.PassingSubjectsExact | src/ngsep/assembly/KmerHitsAssemblyEdgesFinder.java:165-176 | a subject is selected if and only if its id is below the query id and it has at least `minHits` distinct query k-mers; no subject is selected twice |
| EdgesFinder.SelectSubjectIds | src/ngsep/assembly/KmerHitsAssemblyEdgesFinder.java:163-176 | the selection loop returns exactly the passing subjects, and records the distinct count of each selected subject |
| EdgesFinder.RankedSubjectsSpec | src/ngsep/assembly/KmerHitsAssemblyEdgesFinder.java:162-179 | the ranked ids are the passing subjects only, each below the query id and without repeats, in non-increasing order of distinct query k-mers |
| EdgesFinder.FilterAndSortSubjectIds | src/ngsep/assembly/KmerHitsAssemblyEdgesFinder.java:162-179 | the method returns the ranked subject list |
| EdgesFinder.PassingSubjectsBelow | src/ngsep/assembly/KmerHitsAssemblyEdgesFinder.java:166 | every selected subject id is below the query id |
| EdgesFinder.NoPassingNoSubjects | src/ngsep/assembly/KmerHitsAssemblyEdgesFinder.java:173 | when no subject reaches the floor, the ranked list is empty |
| EdgesFinder.LeaderHasMostKmers | src/ngsep/assembly/KmerHitsAssemblyEdgesFinder.java:196-198 | after the descending sort, the first cluster has the most distinct k-mers |
| EdgesFinder.RunnerUpHasMostOfRest | src/ngsep/assembly/KmerHitsAssemblyEdgesFinder.java:203 | the second cluster of the sort has the most k-mers among the rest |
| EdgesFinder.SelectClusters | src/ngsep/assembly/KmerHitsAssemblyEdgesFinder.java:190-209 | At most two clusters are kept, and at least one whenever any exists: the first has the most distinct k-mers; a second is kept only when it has the most k-mers of the rest and more than 0.8 times the first's; the second's predicted start must lie on the other side of 0 from the first's. Conversely, the kept clusters are the first and second of the descending sort, and the second is kept exactly when it has more than 0.8 times the first's k-mers and its predicted start lies on the other side of 0. |
| EdgesFinder.ClustersOf | src/ngsep/assembly/KmerHitsAssemblyEdgesFinder.java:190-193 | a subject yields at most two clusters, all on that subject |
| EdgesFinder.CreateClusters | src/ngsep/assembly/KmerHitsAssemblyEdgesFinder.java:181-189 | the clusters of a subject list are on listed subjects, at most two per subject |
| EdgesFinder.MaxKmersSpec | src/ngsep/assembly/KmerHitsAssemblyEdgesFinder.java:214-220 | `maxCount` is non-negative, bounds every cluster's count, and is 0 or one of the counts |
| EdgesFinder.MinimumClusterSizeSpec | src/ngsep/assembly/KmerHitsAssemblyEdgesFinder.java:210-223 | The minimum cluster size is `max(minHits, maxCount/5)`. It is never below `minHits`, and it is at least every cluster's count divided by 5. |
| EdgesFinder.CalculateMinimumClusterSize | src/ngsep/assembly/KmerHitsAssemblyEdgesFinder.java:210-223 | the loop computes that minimum cluster size |
| EdgesFinder.Mirror | src/ngsep/assembly/KmerHitsAssemblyEdgesFinder.java:342-347 | mirroring [s,e) to [L-e,L-s) keeps the interval's length, stays inside [0,L], and undoes itself (mirroring the result gives back the interval) |
| EdgesFinder.ProcessCluster | src/ngsep/assembly/KmerHitsAssemblyEdgesFinder.java:231-257 | At most one relationship is added, and only when the filters pass. It joins the query with the subject and carries the cluster's k-mer count. A start at or after 0 with the end beyond the subject gives an edge from the subject's end to `Vertex(q, !queryRC)`. Otherwise an edge runs from `Vertex(q, queryRC)` to the subject's start. An embedding comes from the contained branch or from the both-ends fallback. The search stops if and only if the cluster passes the filters, lies inside the subject and is a conclusive embedding. Every relationship carries the cluster's coverage and indel count. An edge's overlap is the cluster's predicted overlap; the subject-side evidence is the cluster's subject evidence and the query side is the query evidence, mirrored for a reverse-complement query, each on its own vertex. As `addEmbedded` and the two edge builders write them, an embedding records the query's orientation, the predicted subject start and end as host limits, the subject evidence as host evidence and the (mirrored) query evidence as its own. |
| EdgesFinder.QueryEvidenceStaysInRead | src/ngsep/assembly/KmerHitsAssemblyEdgesFinder.java:422-427 | the query-side evidence of every relationship, mirrored or not, lies inside the query and keeps the cluster's evidence length |
| EdgesFinder.ProcessClusters | src/ngsep/assembly/KmerHitsAssemblyEdgesFinder.java:127-128 | the extensive-search loop adds exactly the relationships of its clusters, in order |
| EdgesFinder.ExtensiveSearch | src/ngsep/assembly/KmerHitsAssemblyEdgesFinder.java:119-128 | the extensive branch builds the clusters of every candidate, fixes one minimum cluster size from all of them, and returns the relationships of every cluster, forward ones first |
| EdgesFinder.ExtensiveJoinsEarlierReads | src/ngsep/assembly/KmerHitsAssemblyEdgesFinder.java:119-128 | with candidates below the query id, the extensive branch returns at most two relationships per candidate, each joining the query with an earlier read |
| EdgesFinder.ProcessAllFacts | src/ngsep/assembly/KmerHitsAssemblyEdgesFinder.java:127-128 | the extensive loop adds at most one relationship per cluster, and every relationship joins the query with an earlier read |
| EdgesFinder.VisitSubject | src/ngsep/assembly/KmerHitsAssemblyEdgesFinder.java:133-138 | the loop over one subject's clusters equals the scan specification for those clusters |
| EdgesFinder.VisitPair | src/ngsep/assembly/KmerHitsAssemblyEdgesFinder.java:132-146 | one interleaved step handles the forward subject, then the reverse subject |
| EdgesFinder.InterleavedPhase | src/ngsep/assembly/KmerHitsAssemblyEdgesFinder.java:130-147 | the interleaved loop follows the scan specification over at most ten pairs; when it does not stop, the index ends at the number of pairs |
| EdgesFinder.TrailingPhase | src/ngsep/assembly/KmerHitsAssemblyEdgesFinder.java:148-157 | the trailing loops follow the scan specification over the remaining subjects of one strand |
| EdgesFinder.NonExtensiveSearch | src/ngsep/assembly/KmerHitsAssemblyEdgesFinder.java:129-158 | the non-extensive search returns the relationships of the scan specification |
| EdgesFinder.InferRelationshipsFromKmerHits | src/ngsep/assembly/KmerHitsAssemblyEdgesFinder.java:71-160 | the whole method returns the relationships of its specification |
| EdgesFinder.RunKeepsThreshold | src/ngsep/assembly/KmerHitsAssemblyEdgesFinder.java:148-157 | the trailing loops never change `minClusterSize` |
| EdgesFinder.RunGrows | src/ngsep/assembly/KmerHitsAssemblyEdgesFinder.java:136-143 | the scan only appends relationships (at most one per cluster visited), and `minClusterSize` never decreases |
| EdgesFinder.RunStopsAtConclusiveEmbedding | src/ngsep/assembly/KmerHitsAssemblyEdgesFinder.java:355 | The scan stops only on a conclusive embedding. That embedding is last: it is of the query, lies inside its host, and has weighted coverage above half the read. |
| EdgesFinder.RunJoinsEarlierReads | src/ngsep/assembly/KmerHitsAssemblyEdgesFinder.java:166 | clusters on earlier reads only produce relationships between the query and earlier reads |
| EdgesFinder.InterleavedLength | src/ngsep/assembly/KmerHitsAssemblyEdgesFinder.java:132-144 | the interleaved phase visits at most four clusters per pair |
| EdgesFinder.ScanJoinsEarlierReads | src/ngsep/assembly/KmerHitsAssemblyEdgesFinder.java:130-157 | with subjects below the query id, the whole scan relates the query only to earlier reads |
| EdgesFinder.RelationshipsJoinEarlierReads | src/ngsep/assembly/KmerHitsAssemblyEdgesFinder.java:71-160 | every relationship the finder returns joins the query with a read of smaller id |
| EdgesFinder.NoCandidatesNoRelationships | src/ngsep/assembly/KmerHitsAssemblyEdgesFinder.java:114-117 | when neither strand has a passing subject, no relationship is returned |
| EdgesFinder.ScanOutcomeFacts | src/ngsep/assembly/KmerHitsAssemblyEdgesFinder.java:130-157 | The non-extensive scan keeps `minClusterSize` at least 50, adds at most one relationship per cluster visited, and ends with a conclusive embedding whenever it stops early. |
| EdgesFinder.TenPairsBoundTheSearch | src/ngsep/assembly/KmerHitsAssemblyEdgesFinder.java:132-147 | with ten or more subjects on both strands, only the first ten pairs are visited; at most 40 relationships come back |
| EdgesFinder.ExtensiveSearchBound | src/ngsep/assembly/KmerHitsAssemblyEdgesFinder.java:119-128 | the extensive search returns at most two relationships per ranked subject |
| GraphBuilder.AssemblyGraph.constructor | src/ngsep/assembly/GraphBuilderFMIndex.java:76 | a new graph has the reads' lengths and no edges or embeddings |
| GraphBuilder.AssemblyGraph.AddEdge | src/ngsep/assembly/GraphBuilderFMIndex.java:235 | adding a sound edge appends it and keeps the graph valid |
| GraphBuilder.AssemblyGraph.AddEmbedded | src/ngsep/assembly/GraphBuilderFMIndex.java:216 | adding a sound embedding appends it and keeps the graph valid |
| GraphBuilder.CollectedAtMostTotal | src/ngsep/assembly/GraphBuilderFMIndex.java:108-121 | the hits kept on earlier reads are at most the total number of hits the average is taken over, and exactly that many when every hit lies on an earlier read |
| GraphBuilder.EarlierHitsExact | src/ngsep/assembly/GraphBuilderFMIndex.java:116-121 | a k-mer's kept hits are exactly its hits on reads with a smaller id, each tagged with the k-mer's start |
| GraphBuilder.CollectedHitsExact | src/ngsep/assembly/GraphBuilderFMIndex.java:109-122 | Every collected hit is one of some k-mer's occurrences in an earlier read, retagged with that k-mer's start, and every such occurrence is collected. |
| GraphBuilder.CollectKmerHits | src/ngsep/assembly/GraphBuilderFMIndex.java:106-122 | the nested loops collect those hits, count the k-mers and sum the hit counts |
| GraphBuilder.CollectedHitsBelow | src/ngsep/assembly/GraphBuilderFMIndex.java:118 | no collected hit lies on the query read or a later read |
| GraphBuilder.FilterRepetitiveHits | src/ngsep/assembly/GraphBuilderFMIndex.java:126-133 | The loop keeps the hits whose multiplicity is at most five times the average. `kmersCount` becomes the number of distinct k-mer starts among the kept hits. |
| GraphBuilder.FilteredHitsExact | src/ngsep/assembly/GraphBuilderFMIndex.java:128-130 | a hit is kept if and only if its multiplicity is at most five times the average |
| GraphBuilder.HitWeight | src/ngsep/assembly/GraphBuilderFMIndex.java:190-192 | a hit weighs between 0 and 1 |
| GraphBuilder.WeightedCountBounds | src/ngsep/assembly/GraphBuilderFMIndex.java:186-195 | The weighted count lies between 0 and the number of hits. It equals the number of hits when no hit is more repetitive than the average. |
| GraphBuilder.GetWeightedCount | src/ngsep/assembly/GraphBuilderFMIndex.java:186-195 | the loop computes the weighted count of the cluster's hits |
| GraphBuilder.AddHitShape | src/ngsep/assembly/GraphBuilderFMIndex.java:160-162 | adding a hit appends it to its target's group, or opens a new group at the end; the other groups are unchanged |
| GraphBuilder.AddHitTargets | src/ngsep/assembly/GraphBuilderFMIndex.java:160-162 | adding a hit adds its target to the grouped targets and keeps the targets distinct |
| GraphBuilder.GroupByTargetExact | src/ngsep/assembly/GraphBuilderFMIndex.java:158-163 | the grouping has one group per distinct target, holding exactly that target's hits in their original order |
| GraphBuilder.ClusterSequenceSpec | src/ngsep/assembly/GraphBuilderFMIndex.java:171-185 | A target yields one cluster exactly when the first cluster claims more than 80% of its hits. Otherwise it yields two. The second is built from exactly the hits the first did not claim, and the two parts together are the hits, as a multiset. |
| GraphBuilder.ClusterSequenceKmerAlns | src/ngsep/assembly/GraphBuilderFMIndex.java:171-185 | the method returns that split |
| GraphBuilder.ClustersOfGroupsFrom | src/ngsep/assembly/GraphBuilderFMIndex.java:165-168 | clusters come only from targets with at least `minKmers` hits |
| GraphBuilder.ClusterKmerHits | src/ngsep/assembly/GraphBuilderFMIndex.java:156-170 | the method clusters every large enough target group, in group order |
| GraphBuilder.SortedClusters | src/ngsep/assembly/GraphBuilderFMIndex.java:136-138 | the clusters are in non-increasing order of distinct k-mers |
| GraphBuilder.SortedClustersBelow | src/ngsep/assembly/GraphBuilderFMIndex.java:136-138 | every cluster lies on a read with a smaller id |
| GraphBuilder.ClassifySpec | src/ngsep/assembly/GraphBuilderFMIndex.java:203-258 | An embedding is recorded if and only if: the cluster lies inside the target; `100 x weightedProportion >= 2 x minKmerPercentage`; the query coverage is at least 0.5. For every edge: `cost + overlap = targetLength + queryLength` and `overlap <= targetLength`; `queryCoverage x queryLength > 0.5 x overlap`; the overlap and the vertices are those of the query-after-target or the query-before-target branch. Conversely, an edge is added whenever exactly one end of the target is exceeded and `queryCoverage x queryLength > 0.5 x overlap` for that branch's overlap. When both ends are exceeded, nothing is added. |
| GraphBuilder.ProcessAlignment | src/ngsep/assembly/GraphBuilderFMIndex.java:203-258 | the graph gains exactly the classified edge or embedding, and the method reports whether it was an embedding |
| GraphBuilder.ScanBounds | src/ngsep/assembly/GraphBuilderFMIndex.java:140-152 | The cluster walk takes at most 10 clusters and at most as many as there are, and only its last action can be an embedding. |
| GraphBuilder.ScanOfQuery | src/ngsep/assembly/GraphBuilderFMIndex.java:140-152 | Every action of the cluster walk joins the query to an earlier read. |
| GraphBuilder.ScanVisitsPassingClusters | src/ngsep/assembly/GraphBuilderFMIndex.java:140-151 | The `k`-th action of the cluster walk classifies the `k`-th cluster. That cluster is one of the first ten, its `pct` is at least `minKmerPercentage`, and, after the first cluster, its weighted count is at least a third of the first cluster's. |
| GraphBuilder.ScanStopsBelowPercentage | src/ngsep/assembly/GraphBuilderFMIndex.java:140-146 | no action is taken for a cluster whose `pct` is below `minKmerPercentage`, nor for any cluster after it |
| GraphBuilder.VisitCluster | src/ngsep/assembly/GraphBuilderFMIndex.java:142-151 | one iteration writes exactly the scan's next action and says whether the scan goes on |
| GraphBuilder.ProcessClusters | src/ngsep/assembly/GraphBuilderFMIndex.java:140-153 | the cluster loop writes exactly the scan's actions, and reports whether the last one is an embedding |
| GraphBuilder.StrandHits | src/ngsep/assembly/GraphBuilderFMIndex.java:108-130 | the filtered hits lie on reads with a smaller id |
| GraphBuilder.MinTargetHits | src/ngsep/assembly/GraphBuilderFMIndex.java:135-136 | a target needs at least 10 hits to be clustered |
| GraphBuilder.StrandFacts | src/ngsep/assembly/GraphBuilderFMIndex.java:100-154 | One strand pass yields at most 10 actions, all about the query, and only the last can be an embedding. |
| GraphBuilder.UpdateGraph | src/ngsep/assembly/GraphBuilderFMIndex.java:100-154 | one pass over a strand writes exactly that strand's actions into the graph |
| GraphBuilder.AddRead | src/ngsep/assembly/GraphBuilderFMIndex.java:84-89 | A read's forward pass is written into the graph. The reverse-complement pass is written only when the forward pass did not end embedded. |
| GraphBuilder.BuildAssemblyGraph | src/ngsep/assembly/GraphBuilderFMIndex.java:74-97 | the built graph is valid and holds exactly the edges and embeddings of all reads' actions, in read order |
| GraphBuilder.StrandEmbeddings | src/ngsep/assembly/GraphBuilderFMIndex.java:149-151 | a strand pass records an embedding exactly when it ends embedded: one embedding, of the query in an earlier read |
| GraphBuilder.ReadEmbeddings | src/ngsep/assembly/GraphBuilderFMIndex.java:85-89 | both passes of a read together record at most one embedding, of that read in an earlier read |
| GraphBuilder.GraphEmbeddingsInOrder | src/ngsep/assembly/GraphBuilderFMIndex.java:83-91 | The embeddings of the built graph are in strictly increasing order of the embedded read. So each read is embedded at most once, and always in a read of smaller id. |
| IndelCorrector.ActiveVariantsExact | src/ngsep/assembly/AlignmentBasedIndelErrorsCorrector.java:114-117 | a called variant is active if and only if it is neither undecided nor homozygous reference |
| IndelCorrector.FilterVariants | src/ngsep/assembly/AlignmentBasedIndelErrorsCorrector.java:114-117 | the loop keeps exactly the active variants, in order |
| IndelCorrector.AdvanceFromSpec | src/ngsep/assembly/AlignmentBasedIndelErrorsCorrector.java:127-133 | The variant pointer never moves back and never passes the end. Every variant it skips ends before the alignment's first position, and it stops at the first variant that does not. |
| IndelCorrector.AdvanceActive | src/ngsep/assembly/AlignmentBasedIndelErrorsCorrector.java:127-133 | the while loop computes that pointer |
| IndelCorrector.CorrectIndelSpec | src/ngsep/assembly/AlignmentBasedIndelErrorsCorrector.java:174-181 | An indel is corrected if and only if the first active variant from the pointer on that ends at or after the indel's start begins after the indel's end. An indel with no such variant is also corrected. |
| IndelCorrector.CheckIndel | src/ngsep/assembly/AlignmentBasedIndelErrorsCorrector.java:174-181 | the loop computes that decision |
| IndelCorrector.ApplyVariantsExtends | src/ngsep/assembly/AlignmentBasedIndelErrorsCorrector.java:145-172 | Applying variants between two indels has these effects: the read written so far only grows; the copy position only moves forward, and not past the indel; the indel count and `lastRef` are untouched. |
| IndelCorrector.ApplyVariantsCorrectsHomozygous | src/ngsep/assembly/AlignmentBasedIndelErrorsCorrector.java:150-164 | A short homozygous variant between the last indel and this one, lying inside the uncopied stretch before the indel, is applied. The output then starts with the read written so far, the read from `nextPos` to the variant's start, and the called allele; copying resumes after the variant's end in the read. |
| IndelCorrector.ProcessCallSpec | src/ngsep/assembly/AlignmentBasedIndelErrorsCorrector.java:141-191 | For one indel call: a call longer than 3 changes nothing; a short call moves the copy position just past the indel, or also past the inserted bases when an insertion is corrected; a corrected deletion ends the output with `rawConsensus[first, last-1)`; `lastRef` becomes the indel's end; the count grows by one exactly for a correctable indel. What a short call writes is the output of the variant pass, then the read from where that pass stopped through the indel's position (`alignedRead.substring(nextPos, posRead+1)`), then the restored deletion bases. |
| IndelCorrector.ApplyVariantsNoneBetween | src/ngsep/assembly/AlignmentBasedIndelErrorsCorrector.java:147-168 | when no active variant lies between the last indel and the current one, the variant loop changes neither the output nor the copy position |
| IndelCorrector.ProcessCallCopiesRead | src/ngsep/assembly/AlignmentBasedIndelErrorsCorrector.java:141-191 | with no active variant between the last indel and this one, a short call appends the read's own bases from the copy position through the indel's position, unchanged, followed only by a corrected deletion's consensus bases |
| IndelCorrector.SweepCountsCorrectable | src/ngsep/assembly/AlignmentBasedIndelErrorsCorrector.java:140-191 | `correctedErrors` grows by exactly the number of correctable calls (at most 3 long, not explained by a variant), and the output only grows |
| IndelCorrector.CorrectReadKeepsTail | src/ngsep/assembly/AlignmentBasedIndelErrorsCorrector.java:138-194 | When the sweep succeeds with its copy position inside the read, the rewritten read is the sweep's output followed by every remaining base of the read. The indels undone are exactly the correctable calls. |
| IndelCorrector.NoCallsKeepRead | src/ngsep/assembly/AlignmentBasedIndelErrorsCorrector.java:138-194 | a read with an empty call list comes back unchanged |
| IndelCorrector.TailGuardDropsBases | src/ngsep/assembly/AlignmentBasedIndelErrorsCorrector.java:194 | With no variants, the five-base read "ACGTA" and one short insertion at read position 2, aligned to a three-base consensus, the code as written gives "ACG". The corrected tail guard gives "ACGA". |
| IndelCorrector.AsWrittenDropsTail | src/ngsep/assembly/AlignmentBasedIndelErrorsCorrector.java:194 | As written, whenever the copy position lies between the consensus length and the read length, the whole rest of the read is lost. The corrected version keeps it. |
| IndelCorrector.ApplyActiveVariants | src/ngsep/assembly/AlignmentBasedIndelErrorsCorrector.java:147-170 | the inner loop over active variants computes the variant application |
| IndelCorrector.RewriteRead | src/ngsep/assembly/AlignmentBasedIndelErrorsCorrector.java:138-194 | the loop over the calls, then the tail copy, computes the rewritten read (with the corrected tail guard) |
| IndelCorrector.PathStepFrame | src/ngsep/assembly/AlignmentBasedIndelErrorsCorrector.java:121-206 | One alignment touches only its own read: a read already marked by a path is neither rewritten nor re-marked; a read without indel calls is neither rewritten nor marked; a rewritten read is marked with the path id; the pointer never moves back. |
| IndelCorrector.RunAlignmentsFrame | src/ngsep/assembly/AlignmentBasedIndelErrorsCorrector.java:121-207 | Over a whole path: a read marked before the path starts is untouched; any read whose characters or mark change was unmarked and now carries the path id; the pointer never moves back. |
| IndelCorrector.CorrectAlignment | src/ngsep/assembly/AlignmentBasedIndelErrorsCorrector.java:122-208 | One alignment's turn of the path loop changes the reads array, the marks and the counters exactly as one step of the path run does. On failure it changes nothing. |
| IndelCorrector.CorrectPath | src/ngsep/assembly/AlignmentBasedIndelErrorsCorrector.java:104-211 | The path loop rewrites the reads array and marks the `sequencePaths` array exactly as the path run specifies. It also returns the path's corrected-error and corrected-read counts. A failure leaves what the earlier reads wrote. |
| IndelCorrector.RunPathsSpec | src/ngsep/assembly/AlignmentBasedIndelErrorsCorrector.java:95-99 | Paths get ids 1..n in list order. A read whose characters or mark change over all paths was unmarked and ends with an id in 1..n. A read marked at the start is never touched. So no read is rewritten by two paths. |
| IndelCorrector.CorrectErrors | src/ngsep/assembly/AlignmentBasedIndelErrorsCorrector.java:81-101 | The top-level loop starts from all-zero marks and gives path `i` the id `i+1`. The reads end as the run over all paths specifies. |

## Left out

- FM-index construction and search, k-mer extraction, `UngappedSearchHitsClusterBuilder` and `KmerHitsCluster` internals, `simulateAlignment`, and the reverse complement. These are foreign; their results are inputs or function parameters. The cluster constructor's parameter is chosen per read and strand, because `KmerHitsCluster` is given the query sequence as well as the hits.
- `KmerHitsCluster.getKmerHit` identity: the code compares hit objects by reference. The model compares hit values, so two equal hits on the same k-mer count as one.
- Hash-map iteration order: hits and subject ids are visited in the order of the input sequence. Groups of hits by target appear in first-occurrence order. The model states its properties for any such order.
- `compressionFactor` is fixed at 1 in the edges finder. Double arithmetic is exact `real` arithmetic, so IEEE rounding is not modelled.
- The `completeAlignment` branches of `addEmbedded` and the two edge builders depend on an aligner outside this model, so they are not modelled.
- The evidence records, standard deviations and overlap estimators of the relationships carry only the fields the decisions use.
- `addLocalHits`, which returns its input unchanged, is not modelled.
- The self-edge statistics written in `inferRelationshipsFromKmerHits` through `graph.getSameSequenceEdge` are logging-like side data and are not modelled.
- `pruneEmbeddedSequences` at the end of `buildAssemblyGraph` is not part of this model.
- The early return on an empty k-mer map, and the second `kmersCount == 0` check, are modelled as part of the strand pass. The first check cannot fail once the map is non-empty.
- Logging, debug output, `printSubjectHits` and `printTargetHits` are not modelled.
- The corrector's graph copy, chimeric-read removal, edge filtering, path finding, read alignment to the consensus, alignment sorting and variant calling are foreign. Each path arrives as a `PathAlignment` whose alignments are already in consensus order.
- `StringBuilder` and `QualifiedSequence` are not modelled: a read is a `string`, and the graph's sequences are an array of strings.
- The per-path counters of the corrector are only logged in the code. `CorrectPath` returns them.
- `processCluster` (lines 251-254): a cluster whose predicted span exceeds both ends of the subject still records an embedding.
- A subject can contribute two relationships for the same pair of reads when two of its clusters pass.
- ConclusiveEmbedding: the embedding's evidence proportion and indels per kbp are taken as given fields of the cluster's summary. They are not derived from the evidence interval and the indel count, because `AssemblyEmbedded` is not part of this model.
- PathStep, CorrectAlignment, CorrectPath, CorrectErrors: these run the corrected tail guard (`nextPos < alignedRead.length()`) rather than line 194's `nextPos < rawConsensus.length()`. So where the copy position lies between the consensus length and the read length, they keep the read's tail where the code drops it ("ACGA" rather than "ACG" in the finding below). Where the copy position is past the read but inside the consensus, the code would throw and they copy nothing. The code as written is `CorrectReadAsWritten`.
- Java's fixed-width `int` arithmetic is modelled with unbounded integers; overflow is not modelled.

## Findings

| source | as written | input that shows it | evidently intended | confidence | as-written member | corrected member |
|---|---|---|---|---|---|---|
| src/ngsep/assembly/AlignmentBasedIndelErrorsCorrector.java:194 | the rest of the read is copied only when `nextPos < rawConsensus.length()`, comparing a read position with the consensus length | read "ACGTA", consensus "ACG", no variants, one insertion call at read position 2 over consensus [2,3) of length 1: the result is "ACG" and the read's last base is lost | copy the rest of the read whenever `nextPos` is inside the read (`nextPos < alignedRead.length()`), giving "ACGA" | not executed | IndelCorrector.CorrectReadAsWritten, IndelCorrector.TailGuardDropsBases | IndelCorrector.CorrectRead, IndelCorrector.CorrectReadKeepsTail |

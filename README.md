# Multi-factor binding-site clustering, and paired reads

This project is a Dafny model of two parts of a genomics toolkit.

**The spatial analysis of transcription-factor binding sites** (`TFBS_SpaitialAnalysis`)
- **Loading and refinement.** It loads each factor's binding events. When a motif is known and the round allows it, an event's coordinate moves to the middle of the nearest motif hit.
- **Clustering.** It pools the sites of all factors, groups them by chromosome in the order of a `TreeMap`, sorts each chromosome's list by coordinate, and cuts each list into single-linkage chains. A site joins the running cluster when its gap to the previous site is below `distance`.
- **The cluster file.** It writes one tab-separated line per non-empty cluster under a fixed header. It reads such a file back: comment lines are skipped, and the id, signal and motif columns are split on commas and parsed.
- **Aggregation.** For every target point near a loaded cluster, it collects the distinct factor ids (only those with a motif in direct-binding mode). It skips the target when two or fewer remain. Otherwise it builds two vectors in one factor order: each factor's summed signal in the cluster, and its read count at the target.

**The paired-read record** (`PairedHit`)
- **State:** two ends, each a chromosome, a position, a strand and a read length, plus a weight.
- **Operations:**
  - `flipSides` swaps the two ends in place.
  - `compareTo` orders hits by the left end.
  - `equals` and `hashCode` use the chromosomes, positions and strands of both ends.
  - The region builders turn an end into a stranded region.

## Modules

- **File layout:**
  - `results.dfy`: `Option` and `Result`.
  - `text.dfy` (`Text`): decimal printing, `Integer.parseInt`, `String.split` on one character (trailing empty strings dropped), and joining.
  - `sites.dfy` (`Sites`): the `Site` record.
  - `event_loading.dfy` (`EventLoading`): the loading loop and the refinement arithmetic.
  - `clustering.dfy` (`Clustering`): `findTfbsClusters` up to the list of clusters.
  - `cluster_file.dfy` (`ClusterFile`): the writer, the reader and their round trip.
  - `correlation.dfy` (`Correlation`): the aggregation loops of `computeCorrelations`.
  - `paired_hit.dfy` (`ReadDb`): the `PairedHit` class.
- **How the Java becomes Dafny:**
  - Java loops that fill lists, builders and sets are methods with loops. Each is proved equal to a specification function, and the properties are lemmas about those functions.
  - `PairedHit` is a class with mutable fields. `FlipSides` modifies them; the pure methods are functions that read them.
- **Java integer and collection semantics:**
  - Java `int` arithmetic is written out in `PairedHit` (`Wrap32` for two's-complement wrap-around) and in the anchor sum (`Clamp32` for the saturating narrowing of `int += double`). Site coordinates are unbounded; see "## Left out".
  - `Math.round` is the floor of `x + 0.5`, clamped to the `long` range.
  - `Collections.sort` is a stable insertion sort by coordinate.
  - The order in which a `HashSet` yields its elements is arbitrary (`Correlation.ToArray`).
- **Parameters for what the code calls but the model does not contain:**
  - the motif scan's hit and window start are fields of each event;
  - the names of the factors;
  - the targets near each cluster;
  - the read stores, one per experiment, each giving its read count near a target;
  - `Genome.getChromName`.

Two behaviours of the code worth noting:
- The reader does not check that a line's id, signal and motif columns have the same length. `Correlation.Indexable` states what the aggregation's indexing needs instead.
- A missing PFM file only switches refinement off for that factor. A missing event file stops the whole load (`System.exit`), and the model returns the index of that factor as an error.

## Model

| member | source | states |
|---|---|---|
| EventLoading.LoadEventsAndMotifs | src/edu/mit/csail/cgs/deepseq/analysis/TFBS_SpaitialAnalysis.java:122-197 | loading succeeds iff every factor's event file was read; otherwise the error names the first factor without events and all earlier factors had theirs; on success there is one site list per factor, in order, each event turned into a site with that factor's id and refined location |
| EventLoading.ShiftsMeetInMiddle | src/edu/mit/csail/cgs/deepseq/analysis/TFBS_SpaitialAnalysis.java:158-162 | the forward and reverse shifts add up to the motif length minus one, both lie inside the motif, and they are equal for odd lengths |
| EventLoading.ForwardHitInsideMotif | src/edu/mit/csail/cgs/deepseq/analysis/TFBS_SpaitialAnalysis.java:172-178 | a hit at offset `h >= 0` moves the site to `windowStart + h + len/2`, a base inside the motif occurrence |
| EventLoading.ReverseHitInsideMotif | src/edu/mit/csail/cgs/deepseq/analysis/TFBS_SpaitialAnalysis.java:176-180 | a reverse-strand hit `h < 0` (not the -999 sentinel) moves the site to `windowStart - h + (len - 1 - len/2)`, inside the motif occurrence |
| EventLoading.OriginalKept | src/edu/mit/csail/cgs/deepseq/analysis/TFBS_SpaitialAnalysis.java:172-186 | with rounds 1, 2 or 9, no PFM, or the sentinel hit, the site keeps the event's own location |
| EventLoading.RefinementKeepsAttributes | src/edu/mit/csail/cgs/deepseq/analysis/TFBS_SpaitialAnalysis.java:166-170 | refinement changes only the location: factor, chromosome and signal come from the event, and the motif flag holds iff the k-mer contains no `------` |
| EventLoading.LengthElevenExample | src/edu/mit/csail/cgs/deepseq/analysis/TFBS_SpaitialAnalysis.java:158-180 | for a motif of length 11, the forward hit 4 gives `start + 9` and the reverse hit -6 gives `start + 11` |
| Clustering.StrLessIrreflexive | src/edu/mit/csail/cgs/deepseq/analysis/TFBS_SpaitialAnalysis.java:220 | the `TreeMap` key order on chromosome names is irreflexive |
| Clustering.StrLessTransitive | src/edu/mit/csail/cgs/deepseq/analysis/TFBS_SpaitialAnalysis.java:220 | the key order is transitive |
| Clustering.StrLessTotal | src/edu/mit/csail/cgs/deepseq/analysis/TFBS_SpaitialAnalysis.java:220 | any two distinct names are ordered one way or the other |
| Clustering.PutAscending | src/edu/mit/csail/cgs/deepseq/analysis/TFBS_SpaitialAnalysis.java:223-226 | adding a site to the map keeps its keys strictly ascending |
| Clustering.PutLookup | src/edu/mit/csail/cgs/deepseq/analysis/TFBS_SpaitialAnalysis.java:223-226 | after adding a site, its chromosome's list has gained the site at the end and every other list is unchanged |
| Clustering.PutMultiset | src/edu/mit/csail/cgs/deepseq/analysis/TFBS_SpaitialAnalysis.java:223-226 | adding a site adds exactly that site to the map's contents |
| Clustering.GroupByChromCorrect | src/edu/mit/csail/cgs/deepseq/analysis/TFBS_SpaitialAnalysis.java:219-228 | the grouped map has ascending keys and no empty list; each chromosome's list holds exactly that chromosome's sites in input order; no site is lost or duplicated |
| Clustering.GroupSites | src/edu/mit/csail/cgs/deepseq/analysis/TFBS_SpaitialAnalysis.java:220-228 | the nested loop over the factors' lists builds the grouping function's map |
| Clustering.InsertCorrect | src/edu/mit/csail/cgs/deepseq/analysis/TFBS_SpaitialAnalysis.java:235 | inserting into a sorted list keeps it sorted and adds exactly the inserted site |
| Clustering.SortByLocCorrect | src/edu/mit/csail/cgs/deepseq/analysis/TFBS_SpaitialAnalysis.java:235 | sorting yields a list sorted by coordinate that is a permutation of the input |
| Clustering.Chain | src/edu/mit/csail/cgs/deepseq/analysis/TFBS_SpaitialAnalysis.java:237-253 | a non-empty list gives a non-empty list of runs whose last run ends with the list's last site |
| Clustering.ChainSites | src/edu/mit/csail/cgs/deepseq/analysis/TFBS_SpaitialAnalysis.java:237-253 | the scan with its running cluster produces the chain partition of one chromosome's list |
| Clustering.ChainIsPartition | src/edu/mit/csail/cgs/deepseq/analysis/TFBS_SpaitialAnalysis.java:238-248 | the runs concatenate to the list, none is empty, consecutive sites within a run are less than `distance` apart, and the first site of each later run is at least `distance` from the site before it |
| Clustering.ChainUnique | src/edu/mit/csail/cgs/deepseq/analysis/TFBS_SpaitialAnalysis.java:238-248 | any division of the list into runs with those properties is the one the scan computes |
| Clustering.ChainSorted | src/edu/mit/csail/cgs/deepseq/analysis/TFBS_SpaitialAnalysis.java:235-248 | the runs of a sorted list are sorted |
| Clustering.ClusterShape | src/edu/mit/csail/cgs/deepseq/analysis/TFBS_SpaitialAnalysis.java:233-253 | every emitted cluster is non-empty, sorted by coordinate and on a single chromosome |
| Clustering.ClustersCorrect | src/edu/mit/csail/cgs/deepseq/analysis/TFBS_SpaitialAnalysis.java:220-257 | chromosomes come in key order, each with exactly its sites; each chromosome's runs are the chain partition of its sorted list; the clusters concatenate to the sorted lists in key order; no site is lost or duplicated; every cluster is non-empty, sorted and on one chromosome |
| Clustering.FindTfbsClusters | src/edu/mit/csail/cgs/deepseq/analysis/TFBS_SpaitialAnalysis.java:218-257 | the whole pass returns the clusters characterised above, followed by the one empty cluster the code appends at the end |
| Clustering.ThreeFactorExample | src/edu/mit/csail/cgs/deepseq/analysis/TFBS_SpaitialAnalysis.java:238-248 | sites at 1000, 1040 and 1200 with `distance` 50 give the clusters {1000, 1040} and {1200} |
| ClusterFile.Round | src/edu/mit/csail/cgs/deepseq/analysis/TFBS_SpaitialAnalysis.java:275 | `Math.round` gives the integer `n` with `n <= x + 0.5 < n + 1`, saturating at the `long` bounds |
| ClusterFile.RoundInteger | src/edu/mit/csail/cgs/deepseq/analysis/TFBS_SpaitialAnalysis.java:275 | rounding an integral signal gives it back |
| ClusterFile.RegionOrdered | src/edu/mit/csail/cgs/deepseq/analysis/TFBS_SpaitialAnalysis.java:266 | for a sorted cluster, the region's start is at most its end and its width is at least 1 |
| ClusterFile.AppendMembers | src/edu/mit/csail/cgs/deepseq/analysis/TFBS_SpaitialAnalysis.java:267-278 | after the member loop, each builder holds its tokens each followed by a comma, and the motif total counts the members with a motif |
| ClusterFile.TrimTerminated | src/edu/mit/csail/cgs/deepseq/analysis/TFBS_SpaitialAnalysis.java:279-284 | deleting a builder's last character leaves the comma-joined tokens |
| ClusterFile.FormatCluster | src/edu/mit/csail/cgs/deepseq/analysis/TFBS_SpaitialAnalysis.java:263-289 | the line built for a non-empty cluster is that cluster's line in the file format |
| ClusterFile.LineIsJoin | src/edu/mit/csail/cgs/deepseq/analysis/TFBS_SpaitialAnalysis.java:285-289 | the line is region, width, member count, names, ids, rounded signals, motif flags and motif count, separated by tabs |
| ClusterFile.WriteStep | src/edu/mit/csail/cgs/deepseq/analysis/TFBS_SpaitialAnalysis.java:262-289 | an empty cluster adds nothing to the text; a non-empty one adds its line and a line break |
| ClusterFile.WriteClusters | src/edu/mit/csail/cgs/deepseq/analysis/TFBS_SpaitialAnalysis.java:260-289 | the written text is the header followed by one line per non-empty cluster, in order, each ended by a line break |
| ClusterFile.TextLines | src/edu/mit/csail/cgs/deepseq/analysis/TFBS_SpaitialAnalysis.java:260-289 | splitting the written text at line breaks gives back the header and the cluster lines |
| ClusterFile.ParseTokens | src/edu/mit/csail/cgs/deepseq/analysis/TFBS_SpaitialAnalysis.java:315-323 | a column parses iff every token does, giving the tokens' values in order; otherwise the error is a token that does not parse |
| ClusterFile.ParseColumn | src/edu/mit/csail/cgs/deepseq/analysis/TFBS_SpaitialAnalysis.java:316-317 | the loop over a column's tokens computes the column-parsing function |
| ClusterFile.ErrorPersists | src/edu/mit/csail/cgs/deepseq/analysis/TFBS_SpaitialAnalysis.java:316-323 | once a token fails, the tokens after it do not change the outcome |
| ClusterFile.ReadLine | src/edu/mit/csail/cgs/deepseq/analysis/TFBS_SpaitialAnalysis.java:311-323 | reading one data line computes the line-parsing function: a missing column or a malformed number stops with an error |
| ClusterFile.LoadClusters | src/edu/mit/csail/cgs/deepseq/analysis/TFBS_SpaitialAnalysis.java:305-324 | the loop over the file's lines skips comment lines and loads one cluster per other line, stopping at the first line that fails |
| ClusterFile.FileErrorPersists | src/edu/mit/csail/cgs/deepseq/analysis/TFBS_SpaitialAnalysis.java:308-324 | once a line fails, the lines after it do not change the outcome |
| ClusterFile.IdColumn | src/edu/mit/csail/cgs/deepseq/analysis/TFBS_SpaitialAnalysis.java:274-317 | splitting and `parseInt`-ing the written id column gives back the members' factor ids |
| ClusterFile.SignalColumn | src/edu/mit/csail/cgs/deepseq/analysis/TFBS_SpaitialAnalysis.java:275-320 | the written signal column reads back as the members' rounded signals |
| ClusterFile.MotifColumn | src/edu/mit/csail/cgs/deepseq/analysis/TFBS_SpaitialAnalysis.java:276-323 | the written motif column reads back, through `== 1`, as the members' motif flags |
| ClusterFile.LineColumns | src/edu/mit/csail/cgs/deepseq/analysis/TFBS_SpaitialAnalysis.java:263-288 | splitting a written line at tabs gives eight columns: region text, width, member count, names, and the id, signal and motif columns |
| ClusterFile.LineRoundTrip | src/edu/mit/csail/cgs/deepseq/analysis/TFBS_SpaitialAnalysis.java:271-323 | reading a written line gives back the cluster's region text, ids, rounded signals and motif flags |
| ClusterFile.LineNotComment | src/edu/mit/csail/cgs/deepseq/analysis/TFBS_SpaitialAnalysis.java:308-309 | a cluster line is never mistaken for a comment when its chromosome name does not start with `#` |
| ClusterFile.HeaderIsComment | src/edu/mit/csail/cgs/deepseq/analysis/TFBS_SpaitialAnalysis.java:261 | the header is a single line that the reader skips as a comment |
| ClusterFile.FileRoundTrip | src/edu/mit/csail/cgs/deepseq/analysis/TFBS_SpaitialAnalysis.java:260-324 | reading the lines of a written file gives back one loaded cluster per non-empty cluster, in order, each equal to what was written |
| ClusterFile.OneSiteExample | src/edu/mit/csail/cgs/deepseq/analysis/TFBS_SpaitialAnalysis.java:266-289 | one site of the third factor at chr1:1000 with signal 7.6 and a motif gives the line `chr1:1000-1000\t1\t1\tC\t2\t8\t1\t1` (tab-separated) |
| Text.ParseIntToString | src/edu/mit/csail/cgs/deepseq/analysis/TFBS_SpaitialAnalysis.java:274-317 | a printed integer parses back to itself, and within the `int` range so does `parseInt` |
| Text.SplitJoin | src/edu/mit/csail/cgs/deepseq/analysis/TFBS_SpaitialAnalysis.java:311-321 | splitting a separator-joined list of separator-free parts gives the parts back when the last part is non-empty |
| Correlation.RetainedSet | src/edu/mit/csail/cgs/deepseq/analysis/TFBS_SpaitialAnalysis.java:350-355 | an id is retained iff some member with that id takes part (always, or only with a motif in direct-binding mode) |
| Correlation.CollectIds | src/edu/mit/csail/cgs/deepseq/analysis/TFBS_SpaitialAnalysis.java:350-355 | the loop over the motif flags collects exactly the retained ids |
| Correlation.DirectKeepsFewer | src/edu/mit/csail/cgs/deepseq/analysis/TFBS_SpaitialAnalysis.java:352 | direct-binding mode retains a subset of the ids, and the same set when every member has a motif |
| Correlation.ToArray | src/edu/mit/csail/cgs/deepseq/analysis/TFBS_SpaitialAnalysis.java:356-357 | the array holds each element of the set exactly once, in some order |
| Correlation.Clamp32 | src/edu/mit/csail/cgs/deepseq/analysis/TFBS_SpaitialAnalysis.java:367 | narrowing to `int` gives the value in the `int` range nearest to the exact sum, so in-range values are kept and others saturate at the nearer bound |
| Correlation.RunningTotal | src/edu/mit/csail/cgs/deepseq/analysis/TFBS_SpaitialAnalysis.java:364-367 | the running total of a factor's signals always fits an `int` |
| Correlation.AnchorSignal | src/edu/mit/csail/cgs/deepseq/analysis/TFBS_SpaitialAnalysis.java:364-368 | the inner loop computes the clamped running total of the factor's signals in member order |
| Correlation.TotalIsSum | src/edu/mit/csail/cgs/deepseq/analysis/TFBS_SpaitialAnalysis.java:364-367 | when no partial sum leaves the `int` range, the running total is the factor's plain signal sum |
| Correlation.TotalMonotone | src/edu/mit/csail/cgs/deepseq/analysis/TFBS_SpaitialAnalysis.java:364-367 | with non-negative signals, the total is non-negative and is the signal sum clamped to `INT_MAX` |
| Correlation.CorrelateTarget | src/edu/mit/csail/cgs/deepseq/analysis/TFBS_SpaitialAnalysis.java:350-375 | a target is skipped iff at most two ids are retained, and then no store is looked up; otherwise the ids are the retained set once each, and at each position the anchor entry is that factor's total and the target entry the read count of that factor's store at the target |
| Correlation.TargetRows | src/edu/mit/csail/cgs/deepseq/analysis/TFBS_SpaitialAnalysis.java:348-375 | a cluster contributes one row per target, in order, unless it retains at most two ids, and each row holds its target's vectors; a skipped cluster needs no read store |
| Correlation.ComputeCorrelations | src/edu/mit/csail/cgs/deepseq/analysis/TFBS_SpaitialAnalysis.java:344-375 | the rows are the cluster-target pairs that are not skipped, clusters in load order and targets in window order, each holding its vectors; only clusters that are not skipped need a store for each retained id |
| Correlation.SkipExample | src/edu/mit/csail/cgs/deepseq/analysis/TFBS_SpaitialAnalysis.java:350-359 | two distinct factors are skipped; three are kept in plain mode and drop to two in direct-binding mode when one factor lacks a motif |
| Correlation.SkippedNeedsNoStore | src/edu/mit/csail/cgs/deepseq/analysis/TFBS_SpaitialAnalysis.java:356-374 | a cluster retaining ids 5 and 7 with only three read stores is accepted, since its targets are skipped before `chipseqs.get` |
| Correlation.LoadedIndexable | src/edu/mit/csail/cgs/deepseq/analysis/TFBS_SpaitialAnalysis.java:315-323 | a cluster read back from a written file has id, signal and motif columns of equal length, one entry per member |
| ReadDb.Wrap32 | src/edu/mit/csail/cgs/projects/readdb/PairedHit.java:48-59 | Java `int` arithmetic always lands in the `int` range and leaves in-range values alone |
| ReadDb.WrapDiff | src/edu/mit/csail/cgs/projects/readdb/PairedHit.java:48-59 | a wrapped value differs from the exact one by a multiple of 2^32 |
| ReadDb.HashStepExact | src/edu/mit/csail/cgs/projects/readdb/PairedHit.java:48-53 | wrapping after each hash step gives the same result as wrapping once at the end |
| ReadDb.PairedHit.constructor | src/edu/mit/csail/cgs/projects/readdb/PairedHit.java:15-27 | every field takes the value of its argument, and arguments of Java's parameter types (`int`, `short`) give an object whose fields have those types |
| ReadDb.PairedHit.HashCode | src/edu/mit/csail/cgs/projects/readdb/PairedHit.java:45-55 | the hash is an `int`; its value is the wrapped polynomial of ReadDb.HashIsPolynomial |
| ReadDb.HashIsPolynomial | src/edu/mit/csail/cgs/projects/readdb/PairedHit.java:45-55 | the step-by-step hash equals the base-31 polynomial in the six fields, wrapped to 32 bits |
| ReadDb.PairedHit.CompareTo | src/edu/mit/csail/cgs/projects/readdb/PairedHit.java:57-63 | the comparison is an `int`; its sign is given by ReadDb.CompareSign and its wrap-around by ReadDb.CompareWraps |
| ReadDb.PairedHit.FlipSides | src/edu/mit/csail/cgs/projects/readdb/PairedHit.java:81-97 | the new left chromosome, position, strand and length are the old right ones and vice versa; the weight is unchanged; the Java field types that the constructor establishes are kept |
| ReadDb.FlipTwice | src/edu/mit/csail/cgs/projects/readdb/PairedHit.java:81-97 | flipping twice restores every field |
| ReadDb.FlippedRegions | src/edu/mit/csail/cgs/projects/readdb/PairedHit.java:65-97 | after a flip, the left region builders give the old right regions and vice versa |
| ReadDb.FlippedEquals | src/edu/mit/csail/cgs/projects/readdb/PairedHit.java:29-97 | flipping both hits does not change whether they are equal |
| ReadDb.EqualsSymmetric | src/edu/mit/csail/cgs/projects/readdb/PairedHit.java:29-42 | `equals` is reflexive and symmetric |
| ReadDb.EqualHashes | src/edu/mit/csail/cgs/projects/readdb/PairedHit.java:29-55 | equal hits have equal hash codes |
| ReadDb.LengthsIgnored | src/edu/mit/csail/cgs/projects/readdb/PairedHit.java:29-63 | hits that differ only in read lengths are equal, hash alike and compare alike |
| ReadDb.CompareLeftOnly | src/edu/mit/csail/cgs/projects/readdb/PairedHit.java:56-63 | the comparison depends only on the left chromosome and position |
| ReadDb.CompareSign | src/edu/mit/csail/cgs/projects/readdb/PairedHit.java:57-63 | for non-negative left ends, the sign of the comparison is the lexicographic order of (left chromosome, left position), and it is 0 iff both are equal |
| ReadDb.CompareAntisymmetric | src/edu/mit/csail/cgs/projects/readdb/PairedHit.java:57-63 | for non-negative left ends, the comparison is antisymmetric |
| ReadDb.CompareTransitive | src/edu/mit/csail/cgs/projects/readdb/PairedHit.java:57-63 | for non-negative left ends, "before" is transitive |
| ReadDb.CompareWraps | src/edu/mit/csail/cgs/projects/readdb/PairedHit.java:59 | with the subtraction wrapping, a hit at position `INT_MIN` compares as greater than one at position 1 on the same chromosome, although it lies before it |
| ReadDb.RegionSpans | src/edu/mit/csail/cgs/projects/readdb/PairedHit.java:65-71 | the left region starts at the left position and ends `leftLength` further along the strand (before on `-`); the point region ends one base after its start |
| ReadDb.RightRegionSpans | src/edu/mit/csail/cgs/projects/readdb/PairedHit.java:73-79 | the right region starts at the right position and ends `rightLength` further along the strand (before on `-`); the right point region ends one base after its start |

## Left out

- **Event loading and motif scanning:**
  - **Directory listing, PFM loading, event-file parsing:** these are file I/O. The model takes as inputs each factor's motif length (absent when no PFM file matched) and its events (absent when the file could not be read).
  - **Sequence fetch and `scanPWMoutwards`:** these call library code that is not part of this model. Each event carries the scan's hit offset and the window start as fields.
  - **`System.exit` for an unreadable event file:** this becomes an error result naming the factor, and printing is left out.
- **Clustering:**
  - **`Point.compareTo`:** the model orders by coordinate only, because sites of one chromosome are sorted.
  - **`TreeMap` of `String` keys:** the key order is string order on characters, and the model does not treat UTF-16 surrogates specially.
  - **`trimToSize`:** it has no observable effect.
  - **`CommonUtils.writeFile`:** the model returns the text instead of writing it.
- **The cluster file and its reader:**
  - **`Region.toString` and `getWidth`:** these are modelled as `chrom:start-end` and `end - start + 1`.
  - **`Region.fromString`:** the loaded region stays as its text.
  - **`Double.parseDouble` of a signal:** this is read as an integer decimal, because the writer only prints rounded integers. Other spellings of a number are not accepted.
  - **Exceptions in the reader:** `parseInt` failures and a missing column become an error result that stops the load, the first failing line winning.
  - **`readTextFile`:** this is I/O. The model reads a list of lines.
- **Correlation and `PairedHit` inputs:**
  - **The TSS file and `getPointsWithinWindow`:** these are I/O and library code. The targets near each cluster are an input, in window order.
  - **`DeepSeqExpt`, `ChipSeqLocator` parsing, `closeLoaders`:** these are the read stores. The stores are a sequence of functions indexed by experiment id, as `chipseqs.get` indexes its list, and the 250 bp expansion of the target happens inside each function.
  - **`CorrelationSimilarity.computeSimilarity2` and the report printing:** these are floating point and output. The model stops at the two vectors.
  - **`Genome.getChromName`:** this is a function parameter of the region builders.
- **Concessions to Java semantics:**
  - **Boxed `Integer` `==` on factor ids:** this compares references in Java. It is modelled as value equality, which agrees for the small ids Java caches.
  - **Float weights and signals:** these are modelled as reals. The `float` rounding of `weight - other.weight` in `equals` is not modelled.
  - **`int += double` in the anchor sum:** the model adds exactly and then narrows. The rounding of sums beyond 2^53 is not modelled.
  - **`equals(Object)` for an argument that is not a `PairedHit`:** this returns false in Java. The model's `Equals` takes only `PairedHit`s.
  - **`toString`:** this is formatting only.
- **Coordinates and Java `int` arithmetic on them:**
  - Sites.Site: coordinates are unbounded integers. The model assumes every coordinate fits an `int` and no sum or difference of coordinates below overflows; Java's arithmetic would wrap for coordinates near 2^31, far beyond any chromosome length.
  - EventLoading.BindingLocation: the refinement sums `windowStart + hit + shift` and `windowStart - hit + shift` are exact, not wrapped.
  - Clustering.Chain: the gap `loc - prevLoc` is exact. With a previous site at -1000 and a next one at 2147483000, Java's wrapped gap is negative and joins the cluster, while the model opens a new one.
  - ClusterFile.RegionWidth: `end - start + 1` is exact, not wrapped.
- **Text and floating-point details:**
  - Text.ParseInt32: accepts ASCII digits only. Java's `Integer.parseInt` also accepts other Unicode decimal digits through `Character.digit`; the writer only ever prints ASCII digits.
  - ReadDb.EqualsSymmetric: weights are reals, so reflexivity holds. In Java a NaN or infinite weight makes `Math.abs(weight - other.weight) < .001` false, so such a hit does not equal itself.
- **Weaker contracts:**
  - Correlation.CorrelateTarget: requires a read store for every retained id when more than two ids are retained (`StoresCover`). Java's `chipseqs.get` throws an index exception in that case, and the model does not model the exception. A target with at most two retained ids is skipped before any lookup, so it needs no store.
  - Correlation.TargetRows: requires `StoresCover` of its cluster, for the same reason as CorrelateTarget.
  - Correlation.ComputeCorrelations: requires `StoresCover` of every cluster, for the same reason as CorrelateTarget.
  - ReadDb.CompareSign: the lexicographic-order property is proved only for non-negative left chromosomes and positions. Java's subtraction can overflow in general, as ReadDb.CompareWraps shows.
  - ReadDb.CompareAntisymmetric: proved under the same non-negativity condition as CompareSign.
  - ReadDb.CompareTransitive: proved under the same non-negativity condition as CompareSign.

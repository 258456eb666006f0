# Phylogenetic binary tree: a Dafny model of the genetic algorithm's core

The repository searches for the binary tree (a phylogeny) over leaves
`0..n-1` that best reproduces a reference table of proximities between
leaves. Each tree is encoded as a chromosome of `n-1` merge genes
`(head, back)`. A gene merges the cluster called `back` into the cluster
called `head`. After that merge, `back` is "consumed" and never used again.

The model covers these parts of the code:

- **Building chromosomes** (`tools/population_creator.py`). The builder draws
  genes from the candidate sets and masks each consumed node. It can also
  complete a partial template, filling only its empty slots.
- **Fitness** (`fitness.py`):
  - `get_seq` expands each gene into the leaf lists of the two clusters it
    merges.
  - `table_for_individual` rebuilds a proximity table from the reference by
    writing block means.
  - `fitness_count` sums the squared differences between that table and the
    reference.
- **Crossover** (`tools/crossover.py`). Non-conflicting gene pairs of two
  parents are copied into a child template, which is then completed.
- **Mutation** (`tools/mutation.py`). A random set of distinct positions is
  kept, and the chromosome is rebuilt from them.
- **Tournament selection and cloning** (`tools/selection.py`, and the same
  rule in `selection.py`).
- **The generational loop** (`tools/main_algorithm.py`).

There is one Dafny module per source file:

| module | models |
|---|---|
| `Chromosome` | the shared data: genes, template slots, individuals, the `Result` error type, validity predicates |
| `PopulationCreator` | `tools/population_creator.py` |
| `Fitness` | `fitness.py` |
| `Crossover` | `tools/crossover.py` |
| `Mutation` | `tools/mutation.py` |
| `Selection` | `tools/selection.py` and `selection.py` |
| `MainAlgorithm` | `tools/main_algorithm.py` |

How source constructs become Dafny:

- **Random draws**: `numpy.random.choice` and `random.randint` become
  nondeterministic choices (`:|`). Every stated property therefore holds for
  every outcome of the draws.
- **Retry loops**: a loop that re-draws until it gets something new becomes
  a single draw of such a value. The model proves that such a value exists
  whenever the source's loop can end.
- **Exceptions and endless loops become `Failure` values.** The cases are:
  - `ValueError` from `choice` over an empty array;
  - `ValueError` from `randint(a, b)` with `a > b`;
  - `ValueError` from `min` of an empty list;
  - reading `best_index` when it was never assigned;
  - `IndexError` from `population[i]` in `select_tournament`, when an index
    drawn from `0..p_len-1` lies past the end of the population;
  - a re-draw that can never end.
- **In-place updates stay imperative**:
  - the chromosome array and the template are `array`s;
  - the proximity table is an `array2<real>`;
  - `sequence` and the `leaves` dictionary of `get_seq` are reassigned
    `seq` and `map` values.

  Each such method is proved against a specification function, and the
  lemmas are about that function.
- **Proximities are `real`.**

## Model

| member | source | states |
|---|---|---|
| PopulationCreator.GetExclude | tools/population_creator.py:53-61 | the result is its two arguments, possibly swapped, with the larger first (the node to exclude) |
| PopulationCreator.GetOrderOfNodes | tools/population_creator.py:64-86 | the result is its arguments, possibly swapped. Once the smaller node is in `complex_nodes` (as `individual_create` ensures), the gene comes out as (smaller, larger) |
| PopulationCreator.ExtractTemplate | tools/population_creator.py:17-50 | both candidate sets equal `0..n-1` minus the larger node of every fixed gene; `complex_nodes` is the smaller nodes of the fixed genes in order; `available_places` is exactly the increasing list of empty slots |
| PopulationCreator.PickGene | tools/population_creator.py:153-159 | one draw of a gene: it succeeds exactly when at least two candidates remain. An empty array fails as `choice` does; a single candidate fails as the endless re-draw. On success it returns two distinct candidates, smaller first, and appends the smaller to `complex_nodes` |
| PopulationCreator.FillAvailable | tools/population_creator.py:152-162 | the loop over the free slots succeeds exactly when there are more candidates than free slots. It writes only the free slots, in order, with ordered genes over the candidates that never reuse a consumed node. Over all of `0..n-1` the last gene starts with 0, and every other node is consumed |
| PopulationCreator.IndividualCreate | tools/population_creator.py:89-163 | without a template: n-1 ordered genes, no consumed node reappears, each of 1..n-1 is consumed, 0 never is, and the last gene is (0, k). With a template: it succeeds iff the template is completable; fixed genes are kept; the template array itself is overwritten with the chromosome |
| PopulationCreator.CreatePopulation | tools/population_creator.py:166-175 | exactly `population_size` individuals, each fresh, with fitness 0 |
| PopulationCreator.FillDone | tools/population_creator.py:76-79 | when all n leaves were candidates and n-1 genes were placed, the last gene's head is 0 and the consumed nodes are exactly 1..n-1 |
| PopulationCreator.FreshBack | tools/population_creator.py:157-161 | a gene over unconsumed nodes keeps a valid chromosome valid |
| PopulationCreator.FixedExcludesCard | tools/population_creator.py:42-47 | for ordered fixed genes with distinct backs, the masked nodes are leaves, and there are as many of them as fixed genes |
| PopulationCreator.TemplateCompletable | tools/population_creator.py:148-152 | a well-formed template over n leaves always leaves one more candidate than free slots, so completing it cannot fail |
| PopulationCreator.AnyTemplateCompletable | tools/population_creator.py:148-152 | any template of length n-1, well formed or not, leaves more candidates than free slots, because each fixed gene masks at most one node; so `individual_create` on a template never fails |
| PopulationCreator.CompletesWellFormed | tools/population_creator.py:152-162 | a completion of a well-formed template is well formed: n-1 ordered genes with pairwise distinct backs |
| Fitness.Symmetrify | fitness.py:13-21 | the result is symmetric and keeps the diagonal; each off-diagonal cell is the sum of the cell and its mirror |
| Fitness.SymmetrifyUpper | fitness.py:6-24 | an upper-triangular table is copied onto its lower half |
| Fitness.Standard | fitness.py:6-24 | STANDARD is a symmetric 5 x 5 table |
| Fitness.StandardUnit | fitness.py:6-10 | every cell of STANDARD lies in [0, 1], and its diagonal is 1 |
| Fitness.CheckIfSimple | fitness.py:27-35 | a simple gene (neither side a list) stands for exactly two leaves |
| Fitness.SimpleIffFresh | fitness.py:35 | entry i is simple exactly when neither node of gene i was mentioned by an earlier gene (for genes with two distinct nodes) |
| Fitness.GetGen | fitness.py:38-60 | the length is kept, every int side becomes a one-element list, and every list side is kept |
| Fitness.GetFlat | fitness.py:95-128 | in both branches (numpy reshape when the shapes agree; unpacking otherwise) the result is the leaves of the first side followed by those of the second |
| Fitness.Rebind | fitness.py:168 | every key bound to the entry's list sees its current contents, and all other keys are unchanged |
| Fitness.ExpandInPlace | fitness.py:164-168 | one gene's pass of `get_seq`, including the aliasing of `leaves[node]` to `sequence[i]`, computes the step function `ExpandGene` |
| Fitness.ExpandSide | fitness.py:164-168 | one side of the inner loop: a bound node becomes the flat leaves of its entry, the node joins the keys bound to the entry, and every such key sees the entry's new contents |
| Fitness.GetSeq | fitness.py:131-169 | the nested loops compute the left-to-right fold `Expand` of `ExpandGene` over the genes |
| Fitness.EntryClusters | fitness.py:139-156 | for genes with two distinct nodes, the sides of entry i hold exactly the leaves of the clusters of gene i's head and back after the genes before it |
| Fitness.ExpandTracks | fitness.py:159-169 | the dictionary binds exactly the mentioned nodes, each to an entry whose leaves are that node's cluster |
| Fitness.GetSeqExample | fitness.py:104-116 | `[(0,3),(1,4),(0,1),(0,2)]` expands to `[[0,3],[1,4],[[0,3],[1,4]],[[0,3,1,4],2]]` |
| Fitness.ExpandInTable | fitness.py:159-169 | when every gene's nodes index the table, every entry has two non-empty sides whose leaves index the table |
| Fitness.Divider | fitness.py:239-241 | the divider is the product of the lengths of the two sides of the entry, an int side counting 1 |
| Fitness.CalculateDividend | fitness.py:63-77 | the nested loops sum the reference cells over the block A x B |
| Fitness.BlockSumBounds | fitness.py:73-77 | a block sum of cells in [lo, hi] lies between the number of cells times lo and times hi (as repeated sums: \|a\| rows of \|b\| cells) |
| Fitness.ChangeTable | fitness.py:80-92 | cells (i, j) and (j, i) for i in A and j in B become the placeholder; every other cell keeps its value |
| Fitness.WriteEntry | fitness.py:237-243 | for a composite entry, the cells of its block and of the block's mirror become the mean of the block's reference cells; every other cell keeps its value |
| Fitness.TableForIndividual | fitness.py:172-244 | the table is a copy of the reference in which each entry, in order, overwrites its block and the block's mirror. Simple entries write nothing. A composite entry writes the mean of the reference cells of its block, read from the reference and not from the running table |
| Fitness.TableOf | fitness.py:232-244 | the rows of the individual's table: a square table whose cells are those `table_for_individual` computes |
| Fitness.TableSymmetric | fitness.py:88-92 | over a symmetric reference the individual's table is symmetric |
| Fitness.TableAllSimple | fitness.py:234-236 | when every entry is simple the table is the reference table |
| Fitness.TableOutsideBlocks | fitness.py:234-243 | a cell no composite entry's block covers keeps its reference value |
| Fitness.BlockMeanBounds | fitness.py:238-242 | the value written for a composite entry lies within the range of the reference cells |
| Fitness.TableBounds | fitness.py:232-244 | every cell of the individual's table lies within the range of the reference cells |
| Fitness.StandardTableUnit | fitness.py:232-244 | over STANDARD every cell of an individual's table is in [0, 1] |
| Fitness.SquaredError | fitness.py:263-264 | the sum of squared differences is never negative, and it is zero for equal tables |
| Fitness.FitnessCount | fitness.py:247-264 | the fitness is the squared error of the individual's table against the reference. It is never negative, and it is zero when every gene is simple |
| Fitness.FitnessTwoLeaves | fitness.py:247-264 | with two leaves, the chromosome `[(0,1)]` has fitness 0 over STANDARD |
| Crossover.GenerateChildTemplate | tools/crossover.py:35-81 | the template built with the CORRECTED check (the Findings row's corrected member; the algorithm itself runs the check as written). It equals the greedy scan `ChildTemplate(p1, p2, center, true)`: every pair that passes the check when the scan reaches it is taken. The child has the parent's length. Each accepted pair (i, j), with i < center <= j, is fixed to parent1[i] and parent2[j], and the pairs come in increasing order of i. Every fixed slot comes from an accepted pair. With no pair the result is parent1 itself. Otherwise the template is valid: no consumed node reappears in a later fixed gene. Well-formed parents give a well-formed template |
| Crossover.GenerateChildTemplateAsWritten | tools/crossover.py:35-81 | the template of the code, with `check_genes` as written: it equals the greedy scan `ChildTemplate(p1, p2, center, false)`, which takes every pair that passes the check when the scan reaches it, in the order i ascending, j descending. Each accepted pair (i, j), with i < center <= j, is fixed to parent1[i] and parent2[j], in increasing order of i. The two genes of a pair do not conflict, and no later pair consumes a node of an earlier pair. Every fixed slot comes from an accepted pair, and with no pair the result is parent1 itself. The fixed slots consume pairwise distinct nodes, and well-formed parents give a well-formed template. Validity is not promised, since heads are never checked |
| Crossover.ScanRowCorrected | tools/crossover.py:68-79 | the inner loop for parent1's gene i, with the corrected check, ends in the state `ScanRow` computes and keeps the loop invariant (pairs compatible, template valid) |
| Crossover.ScanRowAsWritten | tools/crossover.py:68-79 | the inner loop for parent1's gene i, with `check_genes` as written, ends in the state `ScanRow` computes and keeps its invariant (pairs compatible in the as-written sense, consumed nodes distinct) |
| Crossover.ScanStepCorrected | tools/crossover.py:71-79 | one pass of the inner loop with the corrected check: when the check finds no conflict, the two genes are placed at i and j, their first and second nodes are appended to `heads` and `backs`, and (i, j) becomes an accepted pair; otherwise nothing changes. The remaining scan from j - 1 still reaches the state `ScanRow` computes for the whole row |
| Crossover.ScanStepAsWritten | tools/crossover.py:71-79 | the same pass with `check_genes` as written |
| Crossover.PlacePairs | tools/crossover.py:67-79 | a pair that the (corrected) check lets through keeps the accepted pairs increasing and mutually compatible |
| Crossover.PlaceValid | tools/crossover.py:73-79 | writing a pair that passes the (corrected) check keeps the template valid |
| Crossover.PlacePairsAsWritten | tools/crossover.py:67-79 | a pair that the check as written lets through keeps the accepted pairs increasing, and consumes none of the nodes of the earlier pairs |
| Crossover.PlaceDistinct | tools/crossover.py:73-79 | writing a pair that passes the check as written keeps the consumed nodes of the fixed slots pairwise distinct |
| Crossover.TemplateShape | tools/crossover.py:81 | the corrected result inherits from its parents: every fixed slot holds parent1's gene at that index or, from the center on, parent2's. A valid parent1 gives a valid template, and two well-formed parents give a well-formed one |
| Crossover.TemplateShapeAsWritten | tools/crossover.py:81 | the result as written inherits from its parents in the same sense, and two well-formed parents give a well-formed template |
| Crossover.Crossover | tools/crossover.py:84-103 | the two templates are `ChildTemplate(parent1, parent2, center, false)` and `ChildTemplate(parent2, parent1, center, false)`, the greedy scans with `check_genes` as written, and they inherit from their parents as above. Both children always succeed, since every template is completable, and each completes its template with fitness 0 (`ChildOf`). Two well-formed parents always give two well-formed children |
| Crossover.Build | tools/crossover.py:100-101 | `individual_create` on a template of length n-1 always succeeds and completes the template. A well-formed template gives a well-formed chromosome |
| Crossover.CheckGenesAsWrittenAcceptsConsumedHead | tools/crossover.py:22-32 | for two valid parents, the check as written accepts a pair whose second gene's head was consumed earlier, which makes the template invalid; the corrected check rejects the pair |
| Crossover.ChildTemplateOnFindingsInput | tools/crossover.py:22-81 | on the Findings input, the scan as written gives `[(1,2),(3,4),None,(0,6),(2,5),None]`, which is not a valid template, while the scan with the corrected check gives the valid `[(1,2),None,None,(0,6),None,None]` |
| Mutation.DrawIndices | tools/mutation.py:27-33 | `amount` pairwise-distinct indices of `0..length-1` |
| Mutation.SortIncreasing | tools/mutation.py:34 | sorting distinct indices gives a strictly increasing list |
| Mutation.SortSeq | tools/mutation.py:34 | the sorted list is a permutation of its input |
| Mutation.KeptTemplate | tools/mutation.py:25-36 | the template holds the individual's gene at every kept index and None elsewhere |
| Mutation.Mutation | tools/mutation.py:7-41 | it fails exactly for an empty individual (`randint(0, -1)`). Between int(0.6·len) and len-1 distinct indices are kept, in increasing order. The kept template is always completable (so the fallback is never taken). When the template is completable the result completes it with fitness 0; otherwise it is the individual itself. So every success is a `MutantOf` the individual. A well-formed individual always gives a well-formed mutant |
| Mutation.Rebuild | tools/mutation.py:37-41 | the kept template is always completable, and the rebuilt chromosome completes it; the fallback to the individual never happens, and the call never fails |
| Mutation.AmountBounds | tools/mutation.py:26 | the range of the kept amount is empty exactly when the individual is empty |
| Selection.Clone | tools/selection.py:6-17 | the clone has the same genes and the same fitness |
| Selection.MinOfThree | tools/selection.py:55-59 | the winner is one of the three contestants, and no contestant is fitter. Ties go to the earliest contestant, as Python's `min` does |
| Selection.SelectTournament | tools/selection.py:47-60 | for 3 <= p_len it returns p_len winners. Each winner comes from three pairwise-distinct indices of `0..p_len-1` and is the first fittest of them. For p_len of 1 or 2 the re-draw never ends, which is a failure (the same rule as selection.py:27-38). p_len is not tied to the population: when p_len is larger, the run fails with IndexError exactly at the first round that draws an index past the population. It always succeeds when p_len is at most the population's size |
| Selection.DrawContestants | tools/selection.py:49-54 | the re-draw loop ends with three pairwise-distinct indices of `0..p_len-1` |
| Selection.WinnersFittest | tools/selection.py:55-59 | every winner belongs to the population, and no contestant of its round is fitter |
| MainAlgorithm.InsertSorted | tools/main_algorithm.py:53-56 | inserting by fitness keeps a list sorted by fitness |
| MainAlgorithm.SortSorted | tools/main_algorithm.py:53-56 | `sorted(..., key=fitness)` gives a list sorted by fitness |
| MainAlgorithm.SortByFitness | tools/main_algorithm.py:53-56 | the sorted list is a permutation of the candidates |
| MainAlgorithm.TakeBest | tools/main_algorithm.py:53-57 | the first `population_size` of the sorted candidates and the rest split the candidates, and no left-out candidate is fitter than a kept one |
| MainAlgorithm.MinReal | tools/main_algorithm.py:60 | `min` returns a member no greater than any value |
| MainAlgorithm.MeanAtLeastMin | tools/main_algorithm.py:59-61 | the mean fitness is never below the minimum |
| MainAlgorithm.FirstIndex | tools/main_algorithm.py:64 | `list.index` returns the first position holding the value |
| MainAlgorithm.AssignFitness | tools/main_algorithm.py:49-52 | every individual gets the fitness of its chromosome, and the chromosomes are unchanged |
| MainAlgorithm.AddChildren | tools/main_algorithm.py:42-46 | it always succeeds. The clones come first, and for every k < len(clones)/2 entries len(clones)+2k and len(clones)+2k+1 are the two children of clones 2k and 2k+1 (`ChildrenAt`): each has fitness 0 and completes `ChildTemplate` of that pair in that order and in the swapped order (`Crossover.ChildOf`). Every chromosome has the clones' length, and well-formed clones always give well-formed children |
| MainAlgorithm.CrossPair | tools/main_algorithm.py:44-46 | one pass of the crossover loop: the two children of clones 2k and 2k+1 are appended, which extends `ChildrenState` from k pairs to k+1 |
| MainAlgorithm.AddMutants | tools/main_algorithm.py:47-48 | the candidates come first, and for every i entry len(candidates)+i is a mutant of candidate i with fitness 0 (`MutantsAt`, `Mutation.MutantOf`): it keeps the candidate's genes at between int(0.6·len) and len-1 increasing indices and completes the rest over len+1 leaves. With chromosomes of length 0 the mutation fails |
| MainAlgorithm.Breed | tools/main_algorithm.py:41-52 | the candidates are the P rescored clones, then 2·(P/2) children, then as many mutants as the two together, all scored. `Bred` states the composition: entries P+2k and P+2k+1 are the children of population members 2k and 2k+1 (in both orders), and with C = P+2·(P/2), entry C+i is a mutant of entry i |
| MainAlgorithm.BredFrom | tools/main_algorithm.py:41-50 | the clones followed by their children, then a mutant of each of those, then rescored (which keeps every chromosome), are the candidates `Bred` describes |
| MainAlgorithm.SelectBest | tools/main_algorithm.py:53-57 | the new population holds P candidates sorted by fitness, none beaten by a candidate left out, and its first member is the fittest candidate |
| MainAlgorithm.Generation | tools/main_algorithm.py:41-57 | one generation keeps the population size. The candidates are made as `Bred` states and include the rescored population, and the new population is the P fittest candidates in sorted order. Well-formed chromosomes stay well formed |
| MainAlgorithm.Step | tools/main_algorithm.py:39-64 | one loop iteration: the new minimum is no greater than any fitness of the previous population, the mean is no smaller than the minimum, and the index points at the first fittest member |
| MainAlgorithm.Statistics | tools/main_algorithm.py:59-64 | for a non-empty population: the minimum is the fitness at the returned index, that index is the first of least fitness, and the mean is at least the minimum |
| MainAlgorithm.GeneticAlgorithm | tools/main_algorithm.py:8-65 | the failure cases: no generation (best_index unassigned), an empty population (`min([])`), fewer than two leaves (`randint` in mutation). With at least one generation, a population and at least two leaves, it succeeds. Then both series have one entry per generation and the population size is kept. The result is the first fittest member of the final population, and the minimum never increases from one generation to the next. The first minimum is at most every initial fitness, and every minimum is at most the mean |

## Left out

- The visualisation (`tools/draw.py`) and the driver script (`tree.py`) are not part of this model; neither belongs to the algorithm.
- numpy masked arrays become sets of candidate nodes. `random.choice` and `randint` become nondeterministic choices. Probabilities and distributions are not modelled.
- Floating point is not modelled. Proximities and fitness values are `real`, so numpy rounding, `np.power` and the float mean are exact here. `int(length * 0.6)` is `length * 6 / 10`.
- The `np.int32` test in `get_gen` is platform-dependent. Node ids are plain `int`s, so every node of a gene counts as an int side.
- `tools/mutation.py` imports `create_individual` and `ImpossibleToCompleteError`, which `tools/population_creator.py` does not define. The model uses `individual_create` from that file, and its failure would lead to the fallback to the original individual; `PopulationCreator.AnyTemplateCompletable` shows that this failure cannot happen.
- `tools/main_algorithm.py` imports `tools.fitness`, which is not part of this model. The loop is given the fitness as an abstract deterministic function `fit`. The `Fitness` module models `fitness.py`'s `fitness_count` on its own.
- Fitness.TableForIndividual: requires every node of every gene to index the reference table. In the source only composite entries reach calculate_dividend and change_table (fitness.py:235-243): a composite entry with a larger leaf raises IndexError, a negative one wraps around, and a simple entry with an out-of-range node raises nothing. Those inputs are not modelled.
- Fitness.GetFlat: models only sides that are an int or a list of ints. numpy's reshaping of nested or ragged lists is not modelled, because `get_seq` never produces them.
- Fitness.CheckIfSimple: its contract states only that a simple entry stands for two leaves. SimpleIffFresh, TableAllSimple and TableForIndividual carry the rest.
- Crossover.GenerateChildTemplateAsWritten and Crossover.GenerateChildTemplate: require a non-negative center and parent2 no longer than parent1. A negative slice bound and a longer parent2 (an IndexError on `child[j]`) are not modelled; the loop only pairs chromosomes of equal length.
- Crossover.Crossover: requires parents of equal length, as they are within one population.
- PopulationCreator.IndividualCreate: a completed template is not claimed free of consumed nodes. The fixed genes that come after a freshly filled slot are never checked against it.
- MainAlgorithm.SortByFitness: stability of `sorted` is not claimed; only order and permutation are stated.
- MainAlgorithm.GeneticAlgorithm: requires a non-negative number of leaves. The source's `arange` would give an empty set for fewer.
- Aliasing between the template list and the returned chromosome is visible only through the array write in IndividualCreate. Crossover and Mutation copy their templates into fresh arrays.

## Findings

| source | as written | input that shows it | evidently intended | confidence | as-written member | corrected member |
|---|---|---|---|---|---|---|
| tools/crossover.py:22-32 | `check_genes` tests the second nodes against `heads` and `backs`, but never tests the first nodes against `backs`. A gene whose head was consumed by an accepted earlier gene can still be accepted | parent1 `[(1,2),(3,4),(5,6),(1,3),(1,5),(0,1)]`, parent2 `[(0,1),(3,4),(0,3),(0,6),(2,5),(0,2)]`, center 3: the template becomes `[(1,2),(3,4),None,(0,6),(2,5),None]`, where node 2 is consumed by gene 0 and then heads gene 4 | the docstring says `backs` holds the nodes that may not stand first in a gene; the check should also reject `gen1[0] in backs` or `gen2[0] in backs` | not executed; high | Crossover.ChildTemplateOnFindingsInput | Crossover.GenerateChildTemplate |
The generational loop keeps the code's behaviour. `Crossover.Crossover`
builds its templates with `Crossover.GenerateChildTemplateAsWritten`, which
is proved equal to the greedy scan as written. On the input above that scan
gives exactly the invalid template shown
(`Crossover.ChildTemplateOnFindingsInput`). The corrected
`Crossover.GenerateChildTemplate` states what the check evidently intends,
and it is proved to give valid templates.

## Behaviour of the code worth knowing

- **No retry budget in the builder.** `individual_create` has no retry cap
  and no validity re-scan. A single remaining candidate makes the re-draw
  endless.
- **Construction never fails on a template.** The builder has no fallback
  inside crossover, but a template of length n-1 can always be completed, so
  crossover and the rebuild in mutation always succeed; mutation's fallback
  to the original individual never runs.
- **Fixed loop.** The loop applies crossover and mutation to everyone, with
  no probabilities and no precision threshold.
- **Survivors are chosen by sorting.** The fittest survive. Tournament
  selection exists, but the loop does not call it.

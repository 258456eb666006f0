/** The generational loop (tools/main_algorithm.py): clone the population,
    add two crossover children per pair of clones, add a mutant of every
    candidate, score all candidates and keep the population_size fittest
    (least fitness).  Fitness is a deterministic function of the chromosome,
    passed in as `fit`. */
module MainAlgorithm {
  import opened Chromosome
  import opened PopulationCreator
  import Crossover
  import Mutation
  import opened Selection

  /** Fitness never decreases along the list. */
  predicate SortedByFitness(s: seq<Individual>)
  {
    forall p, q :: 0 <= p < q < |s| ==> s[p].fitness <= s[q].fitness
  }

  /** x inserted after every individual of no greater fitness. */
  function InsertByFitness(x: Individual, s: seq<Individual>): (r: seq<Individual>)
    ensures multiset(r) == multiset(s) + multiset{x}
  {
    if s == [] || x.fitness < s[0].fitness then [x] + s
    else
      assert s == [s[0]] + s[1..];
      [s[0]] + InsertByFitness(x, s[1..])
  }

  lemma {:induction false} InsertSorted(x: Individual, s: seq<Individual>)
    requires SortedByFitness(s)
    ensures SortedByFitness(InsertByFitness(x, s))
  {
    if s != [] && x.fitness >= s[0].fitness {
      assert s == [s[0]] + s[1..];
      InsertSorted(x, s[1..]);
      var r' := InsertByFitness(x, s[1..]);
      assert r'[0] == x || r'[0] == s[1];
      assert forall k :: 0 <= k < |r'| ==> s[0].fitness <= r'[0].fitness <= r'[k].fitness;
    }
  }

  /** sorted(..., key=fitness), as a stable insertion sort: a permutation of
      its input. */
  function SortByFitness(s: seq<Individual>): (r: seq<Individual>)
    ensures multiset(r) == multiset(s)
  {
    if s == [] then []
    else
      assert s == s[..|s| - 1] + [s[|s| - 1]];
      InsertByFitness(s[|s| - 1], SortByFitness(s[..|s| - 1]))
  }

  lemma {:induction false} SortSorted(s: seq<Individual>)
    ensures SortedByFitness(SortByFitness(s))
  {
    if s != [] {
      SortSorted(s[..|s| - 1]);
      InsertSorted(s[|s| - 1], SortByFitness(s[..|s| - 1]));
    }
  }

  /** The first count individuals of a sorted list and the rest split it, and
      no individual of the rest is fitter than one of the first count. */
  lemma TakeBest(s: seq<Individual>, count: int)
    requires SortedByFitness(s) && 0 <= count <= |s|
    ensures multiset(s[..count]) + multiset(s[count..]) == multiset(s)
    ensures forall x, y :: x in s[..count] && y in s[count..] ==> x.fitness <= y.fitness
    ensures SortedByFitness(s[..count])
  {
    assert s == s[..count] + s[count..];
    forall x, y | x in s[..count] && y in s[count..]
      ensures x.fitness <= y.fitness
    {
      var p :| 0 <= p < count && s[p] == x;
      var q :| 0 <= q < |s[count..]| && s[count..][q] == y;
      assert s[count..][q] == s[count + q];
    }
  }

  /** min() of a non-empty list of fitness values. */
  function MinReal(xs: seq<real>): (r: real)
    requires |xs| > 0
    ensures r in xs
    ensures forall k :: 0 <= k < |xs| ==> r <= xs[k]
  {
    if |xs| == 1 then xs[0]
    else
      var m := MinReal(xs[1..]);
      assert forall k :: 1 <= k < |xs| ==> xs[k] == xs[1..][k - 1];
      if xs[0] <= m then xs[0] else m
  }

  /** sum() of a list of fitness values. */
  function Sum(xs: seq<real>): real
  {
    if xs == [] then 0.0 else xs[0] + Sum(xs[1..])
  }

  /** A sum of values none below m is at least their number times m. */
  lemma {:induction false} SumAtLeast(xs: seq<real>, m: real)
    requires forall k :: 0 <= k < |xs| ==> m <= xs[k]
    ensures Sum(xs) >= |xs| as real * m
  {
    if xs != [] {
      SumAtLeast(xs[1..], m);
    }
  }

  /** The mean of values none below m is not below m either. */
  lemma MeanAtLeastMin(xs: seq<real>, m: real)
    requires |xs| > 0
    requires forall k :: 0 <= k < |xs| ==> m <= xs[k]
    ensures Sum(xs) / (|xs| as real) >= m
  {
    SumAtLeast(xs, m);
    var n := |xs| as real;
    assert Sum(xs) / n * n == Sum(xs);
  }

  /** list.index: the first position holding v. */
  function FirstIndex(xs: seq<real>, v: real): (r: nat)
    requires v in xs
    ensures r < |xs| && xs[r] == v
    ensures forall k :: 0 <= k < r ==> xs[k] != v
  {
    if xs[0] == v then 0
    else
      assert v in xs[1..];
      1 + FirstIndex(xs[1..], v)
  }

  /** The fitness values of a list of individuals, in order. */
  function FitnessValues(s: seq<Individual>): (r: seq<real>)
    ensures |r| == |s| && forall k :: 0 <= k < |s| ==> r[k] == s[k].fitness
  {
    seq(|s|, k requires 0 <= k < |s| => s[k].fitness)
  }

  /** b is the first position of an individual of least fitness. */
  predicate BestAt(s: seq<Individual>, b: int)
  {
    && 0 <= b < |s|
    && (forall k :: 0 <= k < |s| ==> s[b].fitness <= s[k].fitness)
    && (forall k :: 0 <= k < b ==> s[k].fitness > s[b].fitness)
  }

  /** The loop that assigns every individual the fitness of its chromosome;
      the chromosomes are unchanged. */
  method AssignFitness(s: seq<Individual>, fit: seq<Gene> -> real) returns (r: seq<Individual>)
    ensures |r| == |s|
    ensures forall k :: 0 <= k < |s| ==> r[k].genes == s[k].genes && r[k].fitness == fit(s[k].genes)
  {
    r := [];
    for k := 0 to |s|
      invariant |r| == k
      invariant forall m :: 0 <= m < k ==> r[m].genes == s[m].genes && r[m].fitness == fit(s[m].genes)
    {
      r := r + [Individual(s[k].genes, fit(s[k].genes))];
    }
  }

  /** Every individual is scored and has a chromosome of length l. */
  predicate Scored(s: seq<Individual>, fit: seq<Gene> -> real, l: int)
  {
    forall k :: 0 <= k < |s| ==> s[k].fitness == fit(s[k].genes) && |s[k].genes| == l
  }

  /** Every chromosome is well formed over n leaves. */
  predicate AllWellFormed(s: seq<Individual>, n: int)
  {
    forall k :: 0 <= k < |s| ==> WellFormed(n, s[k].genes)
  }

  /** For the first k pairs of clones, entries |clones| + 2m and
      |clones| + 2m + 1 of s are the two crossover children of clones 2m and
      2m + 1, with fitness 0. */
  ghost predicate ChildrenAt(clones: seq<Individual>, center: int, s: seq<Individual>, k: int)
  {
    && 0 <= k && |clones| + 2 * k <= |s| && 2 * k <= |clones|
    && forall m :: 0 <= m < k ==>
         && s[|clones| + 2 * m].fitness == 0.0
         && Crossover.ChildOf(clones[2 * m].genes, clones[2 * m + 1].genes, center, s[|clones| + 2 * m].genes)
         && s[|clones| + 2 * m + 1].fitness == 0.0
         && Crossover.ChildOf(clones[2 * m + 1].genes, clones[2 * m].genes, center, s[|clones| + 2 * m + 1].genes)
  }

  /** Appending the children of the next pair of clones extends ChildrenAt. */
  lemma ChildrenAppend(clones: seq<Individual>, center: int, s: seq<Individual>, k: int, c1: Individual, c2: Individual)
    requires ChildrenAt(clones, center, s, k) && |s| == |clones| + 2 * k && 2 * k + 1 < |clones|
    requires c1.fitness == 0.0 && Crossover.ChildOf(clones[2 * k].genes, clones[2 * k + 1].genes, center, c1.genes)
    requires c2.fitness == 0.0 && Crossover.ChildOf(clones[2 * k + 1].genes, clones[2 * k].genes, center, c2.genes)
    ensures ChildrenAt(clones, center, s + [c1, c2], k + 1)
  {
    var s' := s + [c1, c2];
    assert forall m :: 0 <= m < |s| ==> s'[m] == s[m];
  }

  /** For the first i candidates, entry |candidates| + m of s is a mutant of
      candidate m, with fitness 0 (j stands for |candidates| + m). */
  ghost predicate MutantsAt(candidates: seq<Individual>, s: seq<Individual>, i: int)
  {
    && 0 <= i <= |candidates| && |candidates| + i <= |s|
    && forall j :: |candidates| <= j < |candidates| + i ==>
         s[j].fitness == 0.0 && Mutation.MutantOf(candidates[j - |candidates|].genes, s[j].genes)
  }

  /** Appending the mutant of the next candidate extends MutantsAt. */
  lemma MutantsAppend(candidates: seq<Individual>, s: seq<Individual>, i: int, x: Individual)
    requires MutantsAt(candidates, s, i) && |s| == |candidates| + i && i < |candidates|
    requires x.fitness == 0.0 && Mutation.MutantOf(candidates[i].genes, x.genes)
    ensures MutantsAt(candidates, s + [x], i + 1)
  {
    var s' := s + [x];
    forall j | |candidates| <= j < |candidates| + i + 1
      ensures s'[j].fitness == 0.0 && Mutation.MutantOf(candidates[j - |candidates|].genes, s'[j].genes)
    {
      if j < |s| {
        assert s'[j] == s[j];
      } else {
        assert s'[j] == x;
      }
    }
  }

  /** The crossover part of a generation: the clones followed by two
      children for each pair (clone 2k, clone 2k+1). */
  method AddChildren(clones: seq<Individual>, center: int, ghost l: nat) returns (r: Result<seq<Individual>>)
    requires 0 <= center
    requires forall k :: 0 <= k < |clones| ==> |clones[k].genes| == l
    ensures r.Success? ==> |r.value| == |clones| + 2 * (|clones| / 2)
    ensures r.Success? ==> r.value[..|clones|] == clones
    ensures r.Success? ==> forall k :: 0 <= k < |r.value| ==> |r.value[k].genes| == l
    ensures r.Success?
    ensures r.Success? ==> ChildrenAt(clones, center, r.value, |clones| / 2)
    ensures |clones| == 0 ==> r == Success([])
    ensures 0 < l && AllWellFormed(clones, l + 1) ==> r.Success? && AllWellFormed(r.value, l + 1)
  {
    var offspring := clones;
    for k := 0 to |clones| / 2
      invariant ChildrenState(clones, center, l, offspring, k)
    {
      offspring := CrossPair(clones, center, offspring, k, l);
    }
    return Success(offspring);
  }

  /** What the crossover loop keeps after k pairs: the clones followed by
      the 2k children of the first k pairs, all of length l and, when the
      clones are well formed, well formed. */
  ghost predicate ChildrenState(clones: seq<Individual>, center: int, l: int, s: seq<Individual>, k: int)
  {
    && 0 <= k && |s| == |clones| + 2 * k
    && s[..|clones|] == clones
    && (forall m :: 0 <= m < |s| ==> |s[m].genes| == l)
    && (0 < l && AllWellFormed(clones, l + 1) ==> AllWellFormed(s, l + 1))
    && ChildrenAt(clones, center, s, k)
  }

  /** One pass of the crossover loop: the two children of clones 2k and
      2k + 1 are appended. */
  method CrossPair(clones: seq<Individual>, center: int, s: seq<Individual>, k: int, ghost l: nat)
    returns (next: seq<Individual>)
    requires 0 <= center
    requires forall m :: 0 <= m < |clones| ==> |clones[m].genes| == l
    requires 0 <= k && 2 * k + 1 < |clones| && ChildrenState(clones, center, l, s, k)
    ensures ChildrenState(clones, center, l, next, k + 1)
  {
    assert s[2 * k] == s[..|clones|][2 * k] && s[2 * k + 1] == s[..|clones|][2 * k + 1];
    var c1, c2, t1, t2 := Crossover.Crossover(s[2 * k], s[2 * k + 1], center);
    if 0 < l && AllWellFormed(clones, l + 1) {
      assert WellFormed(l + 1, clones[2 * k].genes) && WellFormed(l + 1, clones[2 * k + 1].genes);
    }
    ChildrenStateAppend(clones, center, l, s, k, c1.value, c2.value);
    next := s + [c1.value, c2.value];
  }

  /** Appending two children of the right shape extends ChildrenState. */
  lemma ChildrenStateAppend(clones: seq<Individual>, center: int, l: int, s: seq<Individual>, k: int,
                            c1: Individual, c2: Individual)
    requires 0 <= k && 2 * k + 1 < |clones| && ChildrenState(clones, center, l, s, k)
    requires c1.fitness == 0.0 && Crossover.ChildOf(clones[2 * k].genes, clones[2 * k + 1].genes, center, c1.genes)
    requires c2.fitness == 0.0 && Crossover.ChildOf(clones[2 * k + 1].genes, clones[2 * k].genes, center, c2.genes)
    requires |c1.genes| == l && |c2.genes| == l
    requires 0 < l && AllWellFormed(clones, l + 1) ==> WellFormed(l + 1, c1.genes) && WellFormed(l + 1, c2.genes)
    ensures ChildrenState(clones, center, l, s + [c1, c2], k + 1)
  {
    ChildrenAppend(clones, center, s, k, c1, c2);
    var s' := s + [c1, c2];
    assert s'[..|clones|] == s[..|clones|];
    assert forall m :: 0 <= m < |s| ==> s'[m] == s[m];
  }

  /** The mutation part of a generation: the candidates followed by a mutant
      of each of them. */
  method AddMutants(candidates: seq<Individual>, ghost l: nat) returns (r: Result<seq<Individual>>)
    requires forall k :: 0 <= k < |candidates| ==> |candidates[k].genes| == l
    ensures r.Success? ==> |r.value| == 2 * |candidates|
    ensures r.Success? ==> r.value[..|candidates|] == candidates
    ensures r.Success? ==> forall k :: 0 <= k < |r.value| ==> |r.value[k].genes| == l
    ensures r.Success? ==> MutantsAt(candidates, r.value, |candidates|)
    ensures l == 0 && 0 < |candidates| ==> r == Failure(EmptyRange)
    ensures |candidates| == 0 ==> r == Success([])
    ensures 0 < l && AllWellFormed(candidates, l + 1) ==> r.Success? && AllWellFormed(r.value, l + 1)
  {
    var offspring := candidates;
    for i := 0 to |candidates|
      invariant |offspring| == |candidates| + i
      invariant 0 < i ==> 0 < l
      invariant offspring[..|candidates|] == candidates
      invariant forall m :: 0 <= m < |offspring| ==> |offspring[m].genes| == l
      invariant 0 < l && AllWellFormed(candidates, l + 1) ==> AllWellFormed(offspring, l + 1)
      invariant MutantsAt(candidates, offspring, i)
    {
      assert offspring[i] == candidates[i];
      var mutant, kept := Mutation.Mutation(offspring[i]);
      if mutant.Failure? {
        return Failure(mutant.error);
      }
      MutantsAppend(candidates, offspring, i, mutant.value);
      offspring := offspring + [mutant.value];
    }
    return Success(offspring);
  }

  /** How the candidates s of a generation are made from the population:
      after the P clones, entries P + 2k and P + 2k + 1 are the two children
      of clones 2k and 2k + 1, and after those C = P + 2 * (P / 2) entries,
      entry C + i is a mutant of entry i. */
  ghost predicate Bred(population: seq<Individual>, center: int, s: seq<Individual>)
  {
    var P := |population|;
    var C := P + 2 * (P / 2);
    && |s| == 2 * C
    && (forall k :: 0 <= k < P / 2 ==>
          && Crossover.ChildOf(population[2 * k].genes, population[2 * k + 1].genes, center, s[P + 2 * k].genes)
          && Crossover.ChildOf(population[2 * k + 1].genes, population[2 * k].genes, center, s[P + 2 * k + 1].genes))
    && (forall i :: 0 <= i < C ==> Mutation.MutantOf(s[i].genes, s[C + i].genes))
  }

  /** The candidates of one generation: the P clones, two children per pair
      of clones and a mutant of each of those, all scored.  A failure of
      individual_create or of the mutation draw ends the run. */
  method Breed(population: seq<Individual>, center: int, fit: seq<Gene> -> real, ghost l: nat)
    returns (r: Result<seq<Individual>>)
    requires 0 <= center
    requires forall k :: 0 <= k < |population| ==> |population[k].genes| == l
    ensures |population| == 0 ==> r == Success([])
    ensures l == 0 && 0 < |population| ==> r == Failure(EmptyRange)
    ensures 0 < l && AllWellFormed(population, l + 1) ==> r.Success? && AllWellFormed(r.value, l + 1)
    ensures r.Success? ==>
      && |r.value| == 2 * (|population| + 2 * (|population| / 2))
      && (forall k :: 0 <= k < |population| ==>
            r.value[k] == Individual(population[k].genes, fit(population[k].genes)))
      && Scored(r.value, fit, l)
      && Bred(population, center, r.value)
  {
    var P := |population|;
    var clones := seq(P, k requires 0 <= k < P => Clone(population[k]));
    assert clones == population;
    var withChildren := AddChildren(clones, center, l);
    var withMutants := AddMutants(withChildren.value, l);
    if withMutants.Failure? {
      return Failure(withMutants.error);
    }
    var scored := AssignFitness(withMutants.value, fit);
    assert forall k :: 0 <= k < P ==> withMutants.value[k] == population[k] by {
      assert forall k :: 0 <= k < P ==> withMutants.value[k] == withMutants.value[..|withChildren.value|][k];
      assert forall k :: 0 <= k < P ==> withChildren.value[k] == withChildren.value[..P][k];
    }
    BredFrom(population, center, withChildren.value, withMutants.value, scored);
    r := Success(scored);
  }

  /** The clones with their children, then a mutant of each, then scored
      (which keeps every chromosome), are the candidates Bred describes. */
  lemma BredFrom(population: seq<Individual>, center: int, children: seq<Individual>,
                 mutants: seq<Individual>, scored: seq<Individual>)
    requires |children| == |population| + 2 * (|population| / 2)
    requires ChildrenAt(population, center, children, |population| / 2)
    requires |mutants| == 2 * |children| && mutants[..|children|] == children
    requires MutantsAt(children, mutants, |children|)
    requires |scored| == |mutants| && forall k :: 0 <= k < |mutants| ==> scored[k].genes == mutants[k].genes
    ensures Bred(population, center, scored)
  {
    var P, C := |population|, |children|;
    forall k | 0 <= k < P / 2
      ensures Crossover.ChildOf(population[2 * k].genes, population[2 * k + 1].genes, center, scored[P + 2 * k].genes)
      ensures Crossover.ChildOf(population[2 * k + 1].genes, population[2 * k].genes, center, scored[P + 2 * k + 1].genes)
    {
      assert mutants[P + 2 * k] == mutants[..C][P + 2 * k];
      assert mutants[P + 2 * k + 1] == mutants[..C][P + 2 * k + 1];
    }
    forall i | 0 <= i < C
      ensures Mutation.MutantOf(scored[i].genes, scored[C + i].genes)
    {
      assert mutants[i] == mutants[..C][i];
      assert mutants[C + i].fitness == 0.0 && Mutation.MutantOf(children[C + i - C].genes, mutants[C + i].genes);
    }
  }

  /** The selection step of a generation: the candidates sorted by fitness
      and the first P of them kept. */
  method SelectBest(candidates: seq<Individual>, P: int, fit: seq<Gene> -> real, ghost l: nat)
    returns (best: seq<Individual>)
    requires 0 <= P <= |candidates|
    requires Scored(candidates, fit, l)
    ensures |best| == P
    ensures multiset(best) <= multiset(candidates)
    ensures SortedByFitness(best)
    ensures forall x, y :: x in best && y in multiset(candidates) - multiset(best) ==> x.fitness <= y.fitness
    ensures Scored(best, fit, l)
    ensures 0 < P ==> forall k :: 0 <= k < |candidates| ==> best[0].fitness <= candidates[k].fitness
    ensures 0 < l && AllWellFormed(candidates, l + 1) ==> AllWellFormed(best, l + 1)
  {
    var sorted := SortByFitness(candidates);
    SortSorted(candidates);
    assert |sorted| == |multiset(sorted)| == |multiset(candidates)| == |candidates|;
    best := sorted[..P];
    TakeBest(sorted, P);
    BestBelowRest(candidates, sorted, P);
    BestScored(candidates, sorted, P, fit, l);
    if 0 < P {
      BestFirst(candidates, sorted, P);
    }
    if 0 < l && AllWellFormed(candidates, l + 1) {
      SelectedWellFormed(candidates, sorted, P, l + 1);
    }
  }

  /** One generation: breed the candidates, then keep the P fittest. */
  method Generation(population: seq<Individual>, center: int, fit: seq<Gene> -> real, ghost l: nat)
    returns (r: Result<seq<Individual>>, ghost candidates: seq<Individual>)
    requires 0 <= center
    requires forall k :: 0 <= k < |population| ==> |population[k].genes| == l
    ensures |population| == 0 ==> r == Success([])
    ensures l == 0 && 0 < |population| ==> r == Failure(EmptyRange)
    ensures 0 < l && AllWellFormed(population, l + 1) ==> r.Success? && AllWellFormed(r.value, l + 1)
    ensures r.Success? ==>
      && |candidates| == 2 * (|population| + 2 * (|population| / 2))
      && (forall k :: 0 <= k < |population| ==>
            candidates[k] == Individual(population[k].genes, fit(population[k].genes)))
      && Scored(candidates, fit, l)
      && Bred(population, center, candidates)
      && |r.value| == |population|
      && multiset(r.value) <= multiset(candidates)
      && SortedByFitness(r.value)
      && (forall x, y :: x in r.value && y in multiset(candidates) - multiset(r.value) ==> x.fitness <= y.fitness)
      && Scored(r.value, fit, l)
      && (0 < |population| ==> forall k :: 0 <= k < |candidates| ==> r.value[0].fitness <= candidates[k].fitness)
  {
    candidates := [];
    var bred := Breed(population, center, fit, l);
    if bred.Failure? {
      return Failure(bred.error), candidates;
    }
    candidates := bred.value;
    var best := SelectBest(bred.value, |population|, fit, l);
    r := Success(best);
  }

  /** Individuals taken from well-formed candidates are well formed. */
  lemma SelectedWellFormed(candidates: seq<Individual>, sorted: seq<Individual>, P: int, n: int)
    requires 0 <= P <= |sorted| && multiset(sorted) == multiset(candidates)
    requires AllWellFormed(candidates, n)
    ensures AllWellFormed(sorted[..P], n)
  {
    forall k | 0 <= k < P
      ensures WellFormed(n, sorted[k].genes)
    {
      assert sorted[k] in multiset(candidates);
    }
  }

  /** The first P of the sorted candidates are no worse than every candidate
      left out. */
  lemma BestBelowRest(candidates: seq<Individual>, sorted: seq<Individual>, P: int)
    requires 0 <= P <= |sorted| && multiset(sorted) == multiset(candidates)
    requires multiset(sorted[..P]) + multiset(sorted[P..]) == multiset(sorted)
    requires forall x, y :: x in sorted[..P] && y in sorted[P..] ==> x.fitness <= y.fitness
    ensures multiset(sorted[..P]) <= multiset(candidates)
    ensures forall x, y :: x in sorted[..P] && y in multiset(candidates) - multiset(sorted[..P]) ==> x.fitness <= y.fitness
  {
    var best := sorted[..P];
    assert multiset(candidates) - multiset(best) == multiset(sorted[P..]);
    forall x, y | x in best && y in multiset(candidates) - multiset(best)
      ensures x.fitness <= y.fitness
    {
      assert y in sorted[P..];
    }
  }

  /** The individuals kept are scored candidates. */
  lemma BestScored(candidates: seq<Individual>, sorted: seq<Individual>, P: int, fit: seq<Gene> -> real, l: nat)
    requires 0 <= P <= |sorted| && multiset(sorted) == multiset(candidates)
    requires Scored(candidates, fit, l)
    ensures Scored(sorted[..P], fit, l)
  {
    var best := sorted[..P];
    forall k | 0 <= k < P
      ensures best[k].fitness == fit(best[k].genes) && |best[k].genes| == l
    {
      assert best[k] == sorted[k];
      assert sorted[k] in multiset(candidates);
      var m :| 0 <= m < |candidates| && candidates[m] == best[k];
    }
  }

  /** The first of the sorted candidates is the fittest candidate. */
  lemma BestFirst(candidates: seq<Individual>, sorted: seq<Individual>, P: int)
    requires 0 < P <= |sorted| && multiset(sorted) == multiset(candidates) && SortedByFitness(sorted)
    ensures forall k :: 0 <= k < |candidates| ==> sorted[..P][0].fitness <= candidates[k].fitness
  {
    forall k | 0 <= k < |candidates|
      ensures sorted[0].fitness <= candidates[k].fitness
    {
      assert candidates[k] in multiset(sorted);
      var m :| 0 <= m < |sorted| && sorted[m] == candidates[k];
    }
  }

  /** A chromosome built from scratch over n >= 2 leaves is well formed. */
  lemma FreshWellFormed(n: int, c: seq<Gene>)
    requires n >= 2 && FreshChromosome(n, c)
    ensures WellFormed(n, c)
  {
  }

  /** The body of the generational loop: one generation, then the least and
      the mean fitness of the new population and the first index of an
      individual of least fitness.  min() of an empty population raises. */
  method Step(population: seq<Individual>, center: int, fit: seq<Gene> -> real, ghost l: nat)
    returns (next: Result<seq<Individual>>, minFitness: real, meanFitness: real, best: nat)
    requires 0 <= center
    requires Scored(population, fit, l)
    ensures |population| == 0 ==> next == Failure(EmptyMin)
    ensures l == 0 && 0 < |population| ==> next == Failure(EmptyRange)
    ensures 0 < l && AllWellFormed(population, l + 1) && 0 < |population| ==> next.Success?
    ensures next.Success? ==>
      && 0 < |population| && 0 < l
      && |next.value| == |population|
      && Scored(next.value, fit, l)
      && (AllWellFormed(population, l + 1) ==> AllWellFormed(next.value, l + 1))
      && BestAt(next.value, best)
      && minFitness == next.value[best].fitness
      && minFitness <= meanFitness
      && (forall k :: 0 <= k < |population| ==> minFitness <= population[k].fitness)
  {
    var generated, candidates := Generation(population, center, fit, l);
    if generated.Failure? {
      return Failure(generated.error), 0.0, 0.0, 0;
    }
    if |generated.value| == 0 {
      return Failure(EmptyMin), 0.0, 0.0, 0;
    }
    minFitness, meanFitness, best := Statistics(generated.value);
    assert forall k :: 0 <= k < |population| ==> minFitness <= population[k].fitness by {
      assert forall k :: 0 <= k < |population| ==> candidates[k].fitness == population[k].fitness;
    }
    next := generated;
  }

  /** The statistics of one generation: the least fitness, the mean fitness
      (the sum divided by population_size, which is the population's length)
      and the first index of the least fitness. */
  method Statistics(population: seq<Individual>) returns (minFitness: real, meanFitness: real, best: nat)
    requires 0 < |population|
    ensures BestAt(population, best) && minFitness == population[best].fitness
    ensures minFitness <= meanFitness
  {
    var fitnessValues := FitnessValues(population);
    minFitness := MinReal(fitnessValues);
    meanFitness := Sum(fitnessValues) / (|population| as real);
    MeanAtLeastMin(fitnessValues, minFitness);
    best := FirstIndex(fitnessValues, minFitness);
  }

  /** genetic_algorithm: create and score population_size individuals over
      specimenSize leaves, run max_generations generations with center
      specimenSize // 2, and record the least and the mean fitness of each
      generation.  The result is the first individual of least fitness of
      the last population; with no generation at all that index was never
      assigned.  The ghost results are the scored initial population and the
      final one. */
  method GeneticAlgorithm(specimenSize: int, populationSize: int, maxGenerations: int, fit: seq<Gene> -> real)
    returns (r: Result<Individual>, minFitnessValues: seq<real>, meanFitnessValues: seq<real>,
             ghost initial: seq<Individual>, ghost final: seq<Individual>)
    requires 0 <= specimenSize
    ensures |initial| == (if populationSize > 0 then populationSize else 0)
    ensures forall k :: 0 <= k < |initial| ==>
      initial[k].fitness == fit(initial[k].genes) && FreshChromosome(specimenSize, initial[k].genes)
    ensures maxGenerations <= 0 ==> r == Failure(Unassigned) && minFitnessValues == [] && meanFitnessValues == []
    ensures 0 < maxGenerations && populationSize <= 0 ==> r == Failure(EmptyMin)
    ensures 0 < maxGenerations && 0 < populationSize && specimenSize < 2 ==> r == Failure(EmptyRange)
    ensures 0 < maxGenerations && 0 < populationSize && 2 <= specimenSize ==> r.Success?
    ensures r.Success? ==>
      && |minFitnessValues| == maxGenerations && |meanFitnessValues| == maxGenerations
      && |final| == populationSize
      && AllWellFormed(final, specimenSize) && Scored(final, fit, specimenSize - 1)
      && (exists b :: BestAt(final, b) && r.value == final[b])
      && minFitnessValues[maxGenerations - 1] == r.value.fitness
      && (forall g :: 0 < g < maxGenerations ==> minFitnessValues[g] <= minFitnessValues[g - 1])
      && (forall k :: 0 <= k < |initial| ==> minFitnessValues[0] <= initial[k].fitness)
      && (forall g :: 0 <= g < maxGenerations ==> minFitnessValues[g] <= meanFitnessValues[g])
  {
    var count := if populationSize > 0 then populationSize else 0;
    ghost var l: nat := if specimenSize >= 1 then specimenSize - 1 else 0;
    var population := CreatePopulation(specimenSize, count);
    population := AssignFitness(population, fit);
    initial := population;
    if specimenSize >= 2 {
      forall k | 0 <= k < count
        ensures WellFormed(specimenSize, population[k].genes)
      {
        FreshWellFormed(specimenSize, population[k].genes);
      }
    }
    var center := specimenSize / 2;
    minFitnessValues, meanFitnessValues := [], [];
    var generationCounter := 0;
    var bestIndex: Option<nat> := None;
    while generationCounter < maxGenerations
      invariant 0 <= generationCounter && (generationCounter <= maxGenerations || generationCounter == 0)
      invariant |minFitnessValues| == generationCounter && |meanFitnessValues| == generationCounter
      invariant |population| == count
      invariant Scored(population, fit, l)
      invariant 2 <= specimenSize ==> AllWellFormed(population, specimenSize)
      invariant 0 < generationCounter ==> 0 < count && 2 <= specimenSize
      invariant generationCounter == 0 ==> population == initial && bestIndex.None?
      invariant 0 < generationCounter ==>
        && bestIndex.Some? && BestAt(population, bestIndex.value)
        && minFitnessValues[generationCounter - 1] == population[bestIndex.value].fitness
      invariant forall g :: 0 < g < generationCounter ==> minFitnessValues[g] <= minFitnessValues[g - 1]
      invariant 0 < generationCounter ==> forall k :: 0 <= k < |initial| ==> minFitnessValues[0] <= initial[k].fitness
      invariant forall g :: 0 <= g < generationCounter ==> minFitnessValues[g] <= meanFitnessValues[g]
    {
      generationCounter := generationCounter + 1;
      ghost var previous := population;
      var next, minFitness, meanFitness, best := Step(population, center, fit, l);
      if next.Failure? {
        return Failure(next.error), minFitnessValues, meanFitnessValues, initial, population;
      }
      population := next.value;
      minFitnessValues := minFitnessValues + [minFitness];
      meanFitnessValues := meanFitnessValues + [meanFitness];
      bestIndex := Some(best);
    }
    final := population;
    if bestIndex.None? {
      return Failure(Unassigned), minFitnessValues, meanFitnessValues, initial, final;
    }
    r := Success(population[bestIndex.value]);
  }
}

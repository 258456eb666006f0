/** Tournament selection and cloning (tools/selection.py; selection.py holds
    the same select_tournament). */
module Selection {
  import opened Chromosome

  /** clone: a new individual with a copy of the genes and the same fitness
      value.  Individuals are values here, so the copy equals its original. */
  function Clone(toClone: Individual): (r: Individual)
    ensures r.genes == toClone.genes && r.fitness == toClone.fitness
  {
    Individual(toClone.genes[..], toClone.fitness)
  }

  /** min over [a, b, c] keyed by fitness: a contestant of least fitness, the
      first such one in the order a, b, c (min keeps the current minimum
      unless a later key is strictly smaller). */
  function MinOfThree(a: Individual, b: Individual, c: Individual): (r: Individual)
    ensures r == a || r == b || r == c
    ensures r.fitness <= a.fitness && r.fitness <= b.fitness && r.fitness <= c.fitness
    ensures a.fitness == r.fitness ==> r == a
    ensures a.fitness > r.fitness && b.fitness == r.fitness ==> r == b
  {
    var m := if b.fitness < a.fitness then b else a;
    if c.fitness < m.fitness then c else m
  }

  /** One round's three indices are pairwise distinct indices of 0..pLen-1. */
  predicate Contest(d: (int, int, int), pLen: int)
  {
    && 0 <= d.0 < pLen && 0 <= d.1 < pLen && 0 <= d.2 < pLen
    && d.0 != d.1 && d.0 != d.2 && d.1 != d.2
  }

  /** Every round drew three pairwise distinct indices of 0..pLen-1. */
  predicate Contests(draws: seq<(int, int, int)>, pLen: int)
  {
    forall k :: 0 <= k < |draws| ==> Contest(draws[k], pLen)
  }

  /** Round k kept the winner of its three contestants. */
  predicate Winners(population: seq<Individual>, selected: seq<Individual>, draws: seq<(int, int, int)>)
    requires Contests(draws, |population|) && |selected| == |draws|
  {
    forall k :: 0 <= k < |draws| ==>
      selected[k] == MinOfThree(population[draws[k].0], population[draws[k].1], population[draws[k].2])
  }

  /** The three indices of one round all address an individual of a
      population of the given size. */
  predicate Within(d: (int, int, int), size: int)
  {
    d.0 < size && d.1 < size && d.2 < size
  }

  /** select_tournament: pLen rounds, each drawing three distinct indices of
      0..pLen-1 and keeping the fittest (least fitness) of the three.  With
      one or two individuals the re-draw of distinct indices never ends; with
      pLen <= 0 no round runs.  Nothing ties pLen to the population: when it
      is larger, a drawn index past the end of the population raises
      IndexError, and the rounds before it were all in range.  The ghost
      result lists the indices drawn, round by round. */
  method SelectTournament(population: seq<Individual>, pLen: int)
    returns (r: Result<seq<Individual>>, ghost draws: seq<(int, int, int)>)
    ensures r.Success? ==> pLen <= 0 || 3 <= pLen
    ensures 0 < pLen < 3 ==> r == Failure(NoDistinctContestants)
    ensures pLen <= |population| ==> (r.Success? <==> pLen <= 0 || 3 <= pLen)
    ensures r.Failure? && 3 <= pLen ==>
      && r.error == IndexOutOfRange
      && 0 < |draws| <= pLen && Contests(draws, pLen)
      && Contests(draws[..|draws| - 1], |population|)
      && !Within(draws[|draws| - 1], |population|)
    ensures r.Success? ==> |r.value| == |draws| == (if pLen > 0 then pLen else 0)
    ensures r.Success? ==> Contests(draws, pLen) && Contests(draws, |population|)
    ensures r.Success? ==> Winners(population, r.value, draws)
    ensures r.Success? ==> forall k :: 0 <= k < |r.value| ==>
      && r.value[k] in population
      && r.value[k].fitness <= population[draws[k].0].fitness
      && r.value[k].fitness <= population[draws[k].1].fitness
      && r.value[k].fitness <= population[draws[k].2].fitness
  {
    var offspring: seq<Individual> := [];
    draws := [];
    var rounds := if pLen > 0 then pLen else 0;
    for i := 0 to rounds
      invariant |offspring| == |draws| == i
      invariant 0 < i ==> 3 <= pLen
      invariant Contests(draws, pLen) && Contests(draws, |population|)
      invariant Winners(population, offspring, draws)
    {
      if pLen < 3 {
        return Failure(NoDistinctContestants), draws;
      }
      var d := DrawContestants(pLen);
      if !Within(d, |population|) {
        assert (draws + [d])[..i] == draws;
        return Failure(IndexOutOfRange), draws + [d];
      }
      offspring := offspring + [MinOfThree(population[d.0], population[d.1], population[d.2])];
      draws := draws + [d];
    }
    WinnersFittest(population, offspring, draws);
    return Success(offspring), draws;
  }

  /** The re-draw loop of one round: three pairwise distinct indices of
      0..pLen-1, which exist once pLen is at least 3. */
  method DrawContestants(pLen: int) returns (d: (int, int, int))
    requires 3 <= pLen
    ensures Contest(d, pLen)
  {
    var i1 :| 0 <= i1 < pLen;
    var i2 :| 0 <= i2 < pLen && i2 != i1;
    RangeMembers(pLen);
    ghost var w := if 0 != i1 && 0 != i2 then 0 else if 1 != i1 && 1 != i2 then 1 else 2;
    assert w in Range(pLen) - {i1, i2};
    var i3 :| i3 in Range(pLen) - {i1, i2};
    d := (i1, i2, i3);
  }

  /** Every winner is an individual of the population and no contestant of
      its round is fitter. */
  lemma WinnersFittest(population: seq<Individual>, selected: seq<Individual>, draws: seq<(int, int, int)>)
    requires Contests(draws, |population|) && |selected| == |draws|
    requires Winners(population, selected, draws)
    ensures forall k :: 0 <= k < |selected| ==>
      && selected[k] in population
      && selected[k].fitness <= population[draws[k].0].fitness
      && selected[k].fitness <= population[draws[k].1].fitness
      && selected[k].fitness <= population[draws[k].2].fitness
  {
    forall k | 0 <= k < |selected|
      ensures selected[k] in population
    {
      var d := draws[k];
      assert population[d.0] in population && population[d.1] in population && population[d.2] in population;
    }
  }
}

/** Mutation (tools/mutation.py): keep a random set of distinct gene
    positions, clear the others, and rebuild the chromosome from that
    template; when the template cannot be completed the individual is kept. */
module Mutation {
  import opened Chromosome
  import opened PopulationCreator

  /** No value occurs twice. */
  predicate Distinct(s: seq<int>)
  {
    forall p, q :: 0 <= p < q < |s| ==> s[p] != s[q]
  }

  /** Each value is smaller than the next. */
  predicate Increasing(s: seq<int>)
  {
    forall p, q :: 0 <= p < q < |s| ==> s[p] < s[q]
  }

  /** The values of s, as a set. */
  function Elements(s: seq<int>): set<int>
  {
    if s == [] then {} else Elements(s[..|s| - 1]) + {s[|s| - 1]}
  }

  lemma {:induction false} ElementsMembers(s: seq<int>)
    ensures forall x :: x in Elements(s) <==> x in s
  {
    if s != [] {
      var s' := s[..|s| - 1];
      ElementsMembers(s');
      assert s == s' + [s[|s| - 1]];
    }
  }

  /** A list without repetitions has as many values as elements. */
  lemma {:induction false} DistinctCard(s: seq<int>)
    requires Distinct(s)
    ensures |Elements(s)| == |s|
  {
    if s != [] {
      var s' := s[..|s| - 1];
      DistinctCard(s');
      ElementsMembers(s');
    }
  }

  /** While fewer than `length` distinct indices of 0..length-1 are drawn, an
      undrawn index remains, so the re-draw for a new index can succeed. */
  lemma FreeIndex(s: seq<int>, length: int) returns (w: int)
    requires Distinct(s) && |s| < length
    requires forall m :: 0 <= m < |s| ==> 0 <= s[m] < length
    ensures 0 <= w < length && w !in s
  {
    DistinctCard(s);
    ElementsMembers(s);
    RangeMembers(length);
    RangeCard(length);
    var free := Range(length) - Elements(s);
    if free == {} {
      SubsetCard(Range(length), Elements(s));
      assert false;
    }
    w := MemberOf(free, length);
  }

  /** x inserted into a list before the first value not smaller than x. */
  function Insert(x: int, s: seq<int>): (r: seq<int>)
    ensures multiset(r) == multiset(s) + multiset{x}
  {
    if s == [] || x <= s[0] then [x] + s
    else
      assert s == [s[0]] + s[1..];
      [s[0]] + Insert(x, s[1..])
  }

  /** Inserting a new value keeps an increasing list increasing. */
  lemma {:induction false} InsertIncreasing(x: int, s: seq<int>)
    requires Increasing(s) && x !in s
    ensures Increasing(Insert(x, s))
  {
    if s != [] && x > s[0] {
      assert s == [s[0]] + s[1..];
      InsertIncreasing(x, s[1..]);
      InsertAbove(x, s[1..], s[0]);
      ConsIncreasing(s[0], Insert(x, s[1..]));
    } else if s != [] {
      assert s[0] in s;
      ConsIncreasing(x, s);
    }
  }

  /** A bound below x and below every element of s is below every element
      of Insert(x, s). */
  lemma {:induction false} InsertAbove(x: int, s: seq<int>, b: int)
    requires b < x && forall k :: 0 <= k < |s| ==> b < s[k]
    ensures forall k :: 0 <= k < |Insert(x, s)| ==> b < Insert(x, s)[k]
  {
    if s != [] && x > s[0] {
      InsertAbove(x, s[1..], b);
    }
  }

  /** A value below every element of an increasing list can go in front. */
  lemma ConsIncreasing(x: int, s: seq<int>)
    requires Increasing(s) && forall k :: 0 <= k < |s| ==> x < s[k]
    ensures Increasing([x] + s)
  {
    var r := [x] + s;
    forall p, q | 0 <= p < q < |r|
      ensures r[p] < r[q]
    {
      assert r[q] == s[q - 1];
      if p > 0 {
        assert r[p] == s[p - 1];
      }
    }
  }

  /** list.sort on a list of ints, by insertion: a permutation of the input. */
  function SortSeq(s: seq<int>): (r: seq<int>)
    ensures multiset(r) == multiset(s)
  {
    if s == [] then []
    else
      assert s == [s[0]] + s[1..];
      Insert(s[0], SortSeq(s[1..]))
  }

  /** Sorting a list without repetitions gives an increasing list. */
  lemma {:induction false} SortIncreasing(s: seq<int>)
    requires Distinct(s)
    ensures Increasing(SortSeq(s))
  {
    if s != [] {
      assert s == [s[0]] + s[1..];
      SortIncreasing(s[1..]);
      assert s[0] !in s[1..];
      assert s[0] !in multiset(SortSeq(s[1..]));
      InsertIncreasing(s[0], SortSeq(s[1..]));
    }
  }

  /** A permutation has the same members as the list it permutes. */
  lemma SameMembers(s: seq<int>, r: seq<int>)
    requires multiset(r) == multiset(s)
    ensures forall x :: x in r <==> x in s
  {
    assert forall x :: x in r <==> x in multiset(r);
    assert forall x :: x in s <==> x in multiset(s);
  }

  /** y is a mutant of x: for some increasing list of between int(0.6 * len)
      and len - 1 indices of x, y completes, over len + 1 leaves, the template
      that keeps the genes of x at those indices. */
  ghost predicate MutantOf(x: seq<Gene>, y: seq<Gene>)
  {
    exists kept: seq<int> ::
      && |x| * 6 / 10 <= |kept| <= |x| - 1
      && Increasing(kept)
      && (forall m :: 0 <= m < |kept| ==> 0 <= kept[m] < |x|)
      && Completes(|x| + 1, KeepTemplate(x, kept), y)
  }

  /** The template of mutation: the individual's gene at every kept index and
      None everywhere else. */
  function KeepTemplate(genes: seq<Gene>, kept: seq<int>): seq<Slot>
  {
    seq(|genes|, k requires 0 <= k < |genes| => if k in kept then Some(genes[k]) else None)
  }

  /** Keeping some genes of a well-formed chromosome gives a well-formed
      template. */
  lemma KeepWellFormed(genes: seq<Gene>, kept: seq<int>)
    requires WellFormed(|genes| + 1, genes)
    ensures TemplateWellFormed(|genes| + 1, KeepTemplate(genes, kept))
  {
  }

  /** The loop of mutation that draws `amount` distinct indices of
      0..length-1, each by re-drawing until the index is new. */
  method DrawIndices(length: int, amount: int) returns (s: seq<int>)
    requires 0 <= amount < length
    ensures |s| == amount && Distinct(s)
    ensures forall m :: 0 <= m < |s| ==> 0 <= s[m] < length
  {
    s := [];
    for m := 0 to amount
      invariant |s| == m
      invariant Distinct(s)
      invariant forall p :: 0 <= p < m ==> 0 <= s[p] < length
    {
      ghost var w := FreeIndex(s, length);
      var randomIndex :| 0 <= randomIndex < length && randomIndex !in s;
      s := s + [randomIndex];
    }
  }

  /** mutation: between int(0.6 * len) and len - 1 distinct indices are kept
      (so at least one gene is cleared), sorted, copied into an all-None
      template, and individual_create rebuilds a chromosome over len + 1
      leaves.  An empty individual makes the draw of the amount raise.  When
      the template cannot be completed the original individual is returned. */
  method Mutation(individual: Individual) returns (r: Result<Individual>, ghost kept: seq<int>)
    ensures r.Failure? <==> |individual.genes| == 0
    ensures r.Failure? ==> r.error == EmptyRange
    ensures |individual.genes| > 0 ==>
      && |individual.genes| * 6 / 10 <= |kept| <= |individual.genes| - 1
      && Increasing(kept)
      && (forall m :: 0 <= m < |kept| ==> 0 <= kept[m] < |individual.genes|)
    ensures r.Success? ==> Completable(|individual.genes| + 1, KeepTemplate(individual.genes, kept))
    ensures r.Success? ==> r.value.fitness == 0.0 && MutantOf(individual.genes, r.value.genes)
    ensures r.Success? ==>
      var n, t := |individual.genes| + 1, KeepTemplate(individual.genes, kept);
      if Completable(n, t) then r.value.fitness == 0.0 && Completes(n, t, r.value.genes)
      else r.value == individual
    ensures r.Success? && WellFormed(|individual.genes| + 1, individual.genes) ==>
      r.value.fitness == 0.0 && WellFormed(|individual.genes| + 1, r.value.genes)
  {
    var length := |individual.genes|;
    AmountBounds(length);
    if length - 1 < length * 6 / 10 {
      return Failure(EmptyRange), [];
    }
    var amount :| length * 6 / 10 <= amount <= length - 1;
    var noChangeIndex := DrawIndices(length, amount);
    ghost var drawn := noChangeIndex;
    noChangeIndex := SortSeq(noChangeIndex);
    SortIncreasing(drawn);
    SameMembers(drawn, noChangeIndex);
    assert forall m :: 0 <= m < |noChangeIndex| ==> noChangeIndex[m] in noChangeIndex;
    kept := noChangeIndex;
    assert |kept| == |multiset(kept)| == |drawn|;
    r := Rebuild(individual, noChangeIndex);
    assert Completes(length + 1, KeepTemplate(individual.genes, kept), r.value.genes);
  }

  /** The end of mutation: copy the kept genes into an all-None template and
      rebuild it with individual_create over len + 1 leaves, falling back to
      the individual itself when the template cannot be completed. */
  method Rebuild(individual: Individual, kept: seq<int>) returns (r: Result<Individual>)
    requires 0 < |individual.genes|
    requires forall m :: 0 <= m < |kept| ==> 0 <= kept[m] < |individual.genes|
    ensures r.Success?
    ensures Completable(|individual.genes| + 1, KeepTemplate(individual.genes, kept))
    ensures var n, t := |individual.genes| + 1, KeepTemplate(individual.genes, kept);
      if Completable(n, t) then r.value.fitness == 0.0 && Completes(n, t, r.value.genes)
      else r.value == individual
    ensures WellFormed(|individual.genes| + 1, individual.genes) ==>
      r.value.fitness == 0.0 && WellFormed(|individual.genes| + 1, r.value.genes)
  {
    var length := |individual.genes|;
    var template := KeptTemplate(individual.genes, kept);
    ghost var t := template[..];
    var mutant := IndividualCreate(length + 1, template);
    AnyTemplateCompletable(length + 1, t);
    if mutant.Success? {
      r := mutant;
    } else {
      r := Success(individual);
    }
    if WellFormed(length + 1, individual.genes) {
      KeepWellFormed(individual.genes, kept);
      TemplateCompletable(length + 1, t);
      if mutant.Success? {
        CompletesWellFormed(length + 1, t, mutant.value.genes);
      }
    }
  }

  /** The number of genes kept is drawn from int(0.6 * len) .. len - 1, a
      range that is empty exactly when the individual is. */
  lemma AmountBounds(length: nat)
    ensures length - 1 < length * 6 / 10 <==> length == 0
  {
    if length > 0 {
      assert length * 6 < length * 10;
    }
  }

  /** The template of mutation, written slot by slot into an all-None list
      in the order of the sorted kept indices. */
  method KeptTemplate(genes: seq<Gene>, kept: seq<int>) returns (template: array<Slot>)
    requires forall m :: 0 <= m < |kept| ==> 0 <= kept[m] < |genes|
    ensures fresh(template)
    ensures template[..] == KeepTemplate(genes, kept)
  {
    template := new Slot[|genes|](_ => None);
    for m := 0 to |kept|
      invariant forall k :: 0 <= k < |genes| ==>
        template[k] == if k in kept[..m] then Some(genes[k]) else None
    {
      assert kept[..m + 1] == kept[..m] + [kept[m]];
      var i := kept[m];
      template[i] := Some(genes[i]);
    }
    assert kept[..|kept|] == kept;
  }
}

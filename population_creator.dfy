/** Chromosome construction (tools/population_creator.py): a chromosome is
    built gene by gene from two shrinking candidate sets, optionally
    completing a template whose fixed genes are kept. */
module PopulationCreator {
  import opened Chromosome

  /** get_exclude: the node to drop (the larger) and the name of the merged
      cluster (the smaller), as a permutation of the two arguments. */
  function GetExclude(node1: int, node2: int): (r: (int, int))
    ensures r == (node1, node2) || r == (node2, node1)
    ensures r.0 >= r.1
  {
    if node1 > node2 then (node1, node2) else (node2, node1)
  }

  /** get_order_of_nodes: the two arguments, possibly swapped.  Once the
      smaller of two distinct nodes is among the complex nodes (individual_create
      appends it just before the call) the smaller one comes first. */
  function GetOrderOfNodes(node1: int, node2: int, complexNodes: seq<int>): (r: (int, int))
    ensures r == (node1, node2) || r == (node2, node1)
    ensures node1 != node2 && GetExclude(node1, node2).1 in complexNodes ==>
      r == (GetExclude(node1, node2).1, GetExclude(node1, node2).0) && r.0 < r.1
  {
    if node2 in complexNodes && node1 !in complexNodes then (node2, node1)
    else if node1 in complexNodes && node2 in complexNodes && node2 < node1 then (node2, node1)
    else (node1, node2)
  }

  /** The node a fixed slot masks (the larger node of its gene). */
  function SlotExclude(s: Slot): set<int>
  {
    match s
    case None => {}
    case Some(g) => {GetExclude(g.head, g.back).0}
  }

  /** The complex node a fixed slot names (the smaller node of its gene). */
  function SlotMin(s: Slot): seq<int>
  {
    match s
    case None => []
    case Some(g) => [GetExclude(g.head, g.back).1]
  }

  /** The nodes extract_template masks: the larger node of every fixed gene. */
  function FixedExcludes(t: seq<Slot>): set<int>
  {
    if t == [] then {} else FixedExcludes(t[..|t| - 1]) + SlotExclude(t[|t| - 1])
  }

  /** The complex nodes extract_template collects: the smaller node of every
      fixed gene, in slot order. */
  function FixedMins(t: seq<Slot>): seq<int>
  {
    if t == [] then [] else FixedMins(t[..|t| - 1]) + SlotMin(t[|t| - 1])
  }

  /** The number of empty slots. */
  function FreeCount(t: seq<Slot>): nat
  {
    if t == [] then 0 else FreeCount(t[..|t| - 1]) + if t[|t| - 1].None? then 1 else 0
  }

  /** The three summaries of a template prefix grow slot by slot. */
  lemma PrefixStep(t: seq<Slot>, i: int)
    requires 0 <= i < |t|
    ensures FixedExcludes(t[..i + 1]) == FixedExcludes(t[..i]) + SlotExclude(t[i])
    ensures FixedMins(t[..i + 1]) == FixedMins(t[..i]) + SlotMin(t[i])
    ensures FreeCount(t[..i + 1]) == FreeCount(t[..i]) + if t[i].None? then 1 else 0
  {
    assert t[..i + 1][..i] == t[..i];
  }

  /** ap lists, in increasing order, exactly the empty slots of t below bound. */
  predicate IsFreeListBelow(t: seq<Slot>, ap: seq<int>, bound: int)
  {
    && (forall k :: 0 <= k < |ap| ==> 0 <= ap[k] < bound && ap[k] < |t| && t[ap[k]].None?)
    && (forall k, k' :: 0 <= k < k' < |ap| ==> ap[k] < ap[k'])
    && (forall i :: 0 <= i < bound && i < |t| && t[i].None? ==> i in ap)
  }

  lemma FreeListStep(t: seq<Slot>, ap: seq<int>, i: int)
    requires 0 <= i < |t| && IsFreeListBelow(t, ap, i)
    ensures t[i].None? ==> IsFreeListBelow(t, ap + [i], i + 1)
    ensures t[i].Some? ==> IsFreeListBelow(t, ap, i + 1)
  {
  }

  /** ap is the increasing list of exactly the indices of the empty slots of t. */
  predicate IsFreeList(t: seq<Slot>, ap: seq<int>)
  {
    IsFreeListBelow(t, ap, |t|)
  }

  /** The candidates for every free slot of a template over n leaves. */
  function Candidates(n: int, t: seq<Slot>): set<int>
  {
    Range(n) - FixedExcludes(t)
  }

  /** The condition under which individual_create completes the template: no
      slot is free, or more candidates remain than there are free slots (each
      slot consumes one candidate and needs two). */
  predicate Completable(n: int, t: seq<Slot>)
  {
    FreeCount(t) == 0 || FreeCount(t) < |Candidates(n, t)|
  }

  /** c completes the template t: the fixed genes are kept, every free slot
      holds an ordered gene over the candidates, and no free gene uses a node
      consumed by an earlier free gene. */
  predicate Completes(n: int, t: seq<Slot>, c: seq<Gene>)
  {
    && |c| == |t|
    && (forall k :: 0 <= k < |t| && t[k].Some? ==> c[k] == t[k].value)
    && (forall k :: 0 <= k < |t| && t[k].None? ==>
          Ordered(c[k], n) && c[k].head !in FixedExcludes(t) && c[k].back !in FixedExcludes(t))
    && (forall p, q :: 0 <= p < q < |t| && t[p].None? && t[q].None? ==>
          c[p].back != c[q].head && c[p].back != c[q].back)
  }

  /** What a construction without template promises: n-1 ordered genes over
      0..n-1 (none when n < 2), no consumed node comes back, each of 1..n-1 is
      consumed (exactly once, by validity) and 0 never is, and the last gene
      is (0, k). */
  predicate FreshChromosome(n: int, c: seq<Gene>)
  {
    && |c| == (if n >= 1 then n - 1 else 0)
    && (forall k :: 0 <= k < |c| ==> Ordered(c[k], n))
    && ValidChromosome(c)
    && Consumed(c) == Range(n) - {0}
    && (n >= 2 ==> c[|c| - 1].head == 0)
  }

  /** extract_template: the candidate sets with every fixed gene's larger node
      masked, the smaller nodes of the fixed genes in order, and the increasing
      list of free slots. */
  method ExtractTemplate(template: array<Slot>, n: int)
    returns (firstPlace: set<int>, secondPlace: set<int>, complexNodes: seq<int>, availablePlaces: seq<int>)
    ensures firstPlace == Candidates(n, template[..])
    ensures secondPlace == firstPlace
    ensures complexNodes == FixedMins(template[..])
    ensures IsFreeList(template[..], availablePlaces)
    ensures |availablePlaces| == FreeCount(template[..])
  {
    availablePlaces := [];
    complexNodes := [];
    firstPlace := Range(n);
    secondPlace := Range(n);
    ghost var t := template[..];
    for i := 0 to template.Length
      invariant firstPlace == Range(n) - FixedExcludes(t[..i])
      invariant secondPlace == firstPlace
      invariant complexNodes == FixedMins(t[..i])
      invariant IsFreeListBelow(t, availablePlaces, i)
      invariant |availablePlaces| == FreeCount(t[..i])
    {
      PrefixStep(t, i);
      FreeListStep(t, availablePlaces, i);
      var gen := template[i];
      if gen.Some? {
        var (exclude, complexNode) := GetExclude(gen.value.head, gen.value.back);
        complexNodes := complexNodes + [complexNode];
        firstPlace := firstPlace - {exclude};
        secondPlace := secondPlace - {exclude};
      } else {
        availablePlaces := availablePlaces + [i];
      }
    }
    assert t[..template.Length] == t;
  }

  /** One turn of the loop of individual_create up to the write: draw the
      first node from the first-place candidates, draw the second from the
      second-place candidates until it differs, name the merged cluster by the
      smaller node and order the pair.  The gene holds two candidates, the
      smaller first; its second node is the one to mask.  With no candidate
      the draw raises; with a single one the re-draw never ends. */
  method PickGene(n: int, firstPlace: set<int>, secondPlace: set<int>, complexNodes: seq<int>)
    returns (r: Result<Gene>, complexNodes': seq<int>)
    requires firstPlace <= Range(n) && secondPlace == firstPlace
    ensures r.Success? <==> |firstPlace| >= 2
    ensures r == Failure(EmptyChoice) <==> firstPlace == {}
    ensures r.Failure? ==> r == Failure(EmptyChoice) || r == Failure(NoDistinctPartner)
    ensures r.Success? ==>
      && r.value.head in firstPlace && r.value.back in firstPlace && r.value.head < r.value.back
      && complexNodes' == complexNodes + [r.value.head]
  {
    complexNodes' := complexNodes;
    if firstPlace == {} {
      return Failure(EmptyChoice), complexNodes';
    }
    ghost var w1 := MemberOf(firstPlace, n);
    var node1 :| node1 in firstPlace;
    if secondPlace - {node1} == {} {
      SubsetCard(firstPlace, {node1});
      return Failure(NoDistinctPartner), complexNodes';
    }
    ghost var w2 := MemberOf(secondPlace - {node1}, n);
    var node2 :| node2 in secondPlace && node2 != node1;
    SubsetCard({node1, node2}, firstPlace);
    var (exclude, complexNode) := GetExclude(node1, node2);
    complexNodes' := complexNodes' + [complexNode];
    var (head, back) := GetOrderOfNodes(node1, node2, complexNodes');
    return Success(Gene(head, back)), complexNodes';
  }

  /** The loop of individual_create (lines 152-162): fill every slot listed in
      availableGenes, drawing the first node from firstPlace and a different
      second node from secondPlace, then masking the larger one in both sets.
      Each draw may pick any candidate, so the contract holds for every
      outcome.  It fails exactly when a slot is reached with fewer than two
      candidates.  The ghost result lists the genes written, slot by slot. */
  method FillAvailable(n: int, chromosome: array<Slot>, availableGenes: seq<int>,
                       firstPlace0: set<int>, secondPlace0: set<int>, complexNodes0: seq<int>)
    returns (ok: Result<()>, ghost filled: seq<Gene>)
    requires IsFreeList(chromosome[..], availableGenes)
    requires firstPlace0 <= Range(n) && secondPlace0 == firstPlace0
    modifies chromosome
    ensures ok.Success? <==> |availableGenes| == 0 || |availableGenes| < |firstPlace0|
    ensures ok.Success? ==> |filled| == |availableGenes| && Placed(old(chromosome[..]), chromosome[..], availableGenes, filled)
    ensures ok.Success? ==> GenesOver(firstPlace0, filled) && ValidChromosome(filled)
    ensures ok.Success? && 0 < |availableGenes| && 0 in firstPlace0 && |firstPlace0| == |availableGenes| + 1 ==>
      filled[|filled| - 1].head == 0 && Consumed(filled) == firstPlace0 - {0}
  {
    var firstPlace, secondPlace, complexNodes := firstPlace0, secondPlace0, complexNodes0;
    filled := [];
    ghost var ap := availableGenes;
    ghost var t0 := chromosome[..];
    var k := 0;
    while k < |availableGenes|
      invariant 0 <= k <= |availableGenes|
      invariant secondPlace == firstPlace
      invariant FillState(firstPlace0, firstPlace, filled, k)
      invariant Placed(t0, chromosome[..], ap, filled)
    {
      var i := availableGenes[k];
      var picked;
      picked, complexNodes := PickGene(n, firstPlace, secondPlace, complexNodes);
      if picked.Failure? {
        return Failure(picked.error), filled;
      }
      var g := picked.value;
      FillStep(n, firstPlace0, firstPlace, filled, k, g);
      firstPlace := firstPlace - {g.back};
      secondPlace := secondPlace - {g.back};
      PlacedStep(t0, chromosome[..], ap, filled, g);
      chromosome[i] := Some(g);
      filled := filled + [g];
      k := k + 1;
    }
    if 0 < |availableGenes| && 0 in firstPlace0 && |firstPlace0| == |availableGenes| + 1 {
      FillDone(firstPlace0, firstPlace, filled, k);
    }
    return Success(()), filled;
  }

  /** What the fill loop keeps after k genes: the candidates are the initial
      ones minus the consumed nodes, one fewer per gene; every gene is ordered
      over the initial candidates and the genes form a valid chromosome; node
      0, when a candidate, is never consumed; the last gene's head is still a
      candidate. */
  ghost predicate FillState(fp0: set<int>, fp: set<int>, filled: seq<Gene>, k: int)
  {
    && |filled| == k
    && Consumed(filled) <= fp0
    && fp == fp0 - Consumed(filled)
    && |fp| + k == |fp0|
    && (0 < k ==> k < |fp0|)
    && (0 in fp0 ==> 0 in fp)
    && GenesOver(fp0, filled)
    && ValidChromosome(filled)
    && (0 < k ==> filled[k - 1].head in fp)
  }

  /** Every gene joins two nodes of s, the smaller first. */
  predicate GenesOver(s: set<int>, filled: seq<Gene>)
  {
    forall m :: 0 <= m < |filled| ==> filled[m].head in s && filled[m].back in s && filled[m].head < filled[m].back
  }

  /** t1 is t0 with the first |filled| free slots of ap set to the genes of
      filled and every other slot unchanged. */
  ghost predicate Placed(t0: seq<Slot>, t1: seq<Slot>, ap: seq<int>, filled: seq<Gene>)
  {
    && |t1| == |t0| && |filled| <= |ap|
    && (forall i :: 0 <= i < |t0| && t0[i].Some? ==> t1[i] == t0[i])
    && (forall m :: 0 <= m < |filled| ==> 0 <= ap[m] < |t1| && t1[ap[m]] == Some(filled[m]))
  }

  lemma PlacedStep(t0: seq<Slot>, t1: seq<Slot>, ap: seq<int>, filled: seq<Gene>, g: Gene)
    requires IsFreeList(t0, ap) && Placed(t0, t1, ap, filled) && |filled| < |ap|
    ensures Placed(t0, t1[ap[|filled|] := Some(g)], ap, filled + [g])
  {
  }

  /** One turn of the fill loop keeps FillState. */
  lemma FillStep(n: int, fp0: set<int>, fp: set<int>, filled: seq<Gene>, k: int, g: Gene)
    requires FillState(fp0, fp, filled, k) && fp0 <= Range(n)
    requires g.head in fp && g.back in fp && g.head < g.back && |fp| >= 2
    ensures FillState(fp0, fp - {g.back}, filled + [g], k + 1)
  {
    RangeMembers(n);
    var fp', filled' := fp - {g.back}, filled + [g];
    ConsumedAppend(filled, g);
    assert fp' == fp0 - Consumed(filled');
    assert |fp'| == |fp| - 1;
    FreshBack(filled, g);
    assert filled'[k] == g;
  }

  /** When the candidates were exactly the free slots plus one, node 0 among
      them, the last gene starts at 0 and every other candidate is consumed. */
  lemma FillDone(fp0: set<int>, fp: set<int>, filled: seq<Gene>, k: int)
    requires FillState(fp0, fp, filled, k)
    requires 0 < k && 0 in fp0 && |fp0| == k + 1
    ensures filled[k - 1].head == 0 && Consumed(filled) == fp0 - {0}
  {
    SingletonMember(fp, 0, filled[k - 1].head);
    forall x | x in fp
      ensures x == 0
    {
      SingletonMember(fp, 0, x);
    }
    assert fp == {0};
    assert fp0 - {0} <= Consumed(filled);
  }

  /** A gene whose back has not been consumed yet keeps the chromosome valid
      and grows the consumed set by one. */
  lemma FreshBack(c: seq<Gene>, g: Gene)
    requires ValidChromosome(c)
    requires g.head !in Consumed(c) && g.back !in Consumed(c)
    ensures ValidChromosome(c + [g])
  {
    ConsumedMembers(c);
    var d := c + [g];
    forall p, q | 0 <= p < q < |d|
      ensures d[p].back != d[q].head && d[p].back != d[q].back
    {
      if q == |c| {
        assert d[p].back in Consumed(c);
      }
    }
  }

  /** individual_create(n, template).  Without a template (None or an empty
      list) it builds n-1 genes from scratch and always succeeds.  With one,
      the template array itself is filled in place (the chromosome aliases it)
      and only its empty slots are written. */
  method IndividualCreate(n: int, template: array?<Slot>) returns (r: Result<Individual>)
    modifies template
    ensures template == null || template.Length == 0 ==>
      r.Success? && r.value.fitness == 0.0 && FreshChromosome(n, r.value.genes)
    ensures template != null && template.Length > 0 ==>
      (r.Success? <==> Completable(n, old(template[..])))
    ensures template != null && template.Length > 0 && r.Success? ==>
      && r.value.fitness == 0.0
      && Completes(n, old(template[..]), r.value.genes)
      && template[..] == Lift(r.value.genes)
  {
    var genes := n - 1;
    var chromosome: array<Slot>;
    var firstPlace, secondPlace: set<int>;
    var complexNodes: seq<int>;
    var availableGenes: seq<int>;
    if template == null || template.Length == 0 {
      var size := if genes > 0 then genes else 0;
      firstPlace := Range(n);
      secondPlace := Range(n);
      availableGenes := seq(size, i => i);
      chromosome := new Slot[size](_ => None);
      complexNodes := [];
      AllFreeList(chromosome[..]);
    } else {
      firstPlace, secondPlace, complexNodes, availableGenes := ExtractTemplate(template, n);
      chromosome := template;
    }
    ghost var t0 := chromosome[..];
    RangeCard(n);
    var ok, filled := FillAvailable(n, chromosome, availableGenes, firstPlace, secondPlace, complexNodes);
    if ok.Failure? {
      return Failure(ok.error);
    }
    AllFilled(t0, chromosome[..], availableGenes, filled);
    var c := Unlift(chromosome[..]);
    r := Success(Individual(c, 0.0));
    if template == null || template.Length == 0 {
      FreshFromFill(n, t0, chromosome[..], availableGenes, filled);
    } else {
      CompletesFromFill(n, t0, chromosome[..], availableGenes, filled);
    }
  }

  /** In a template of empty slots every index is free. */
  lemma AllFreeList(t: seq<Slot>)
    requires forall i :: 0 <= i < |t| ==> t[i].None?
    ensures IsFreeList(t, seq(|t|, i => i))
  {
    var ap := seq(|t|, i => i);
    forall i | 0 <= i < |t|
      ensures i in ap
    {
      assert ap[i] == i;
    }
  }

  /** After the fill every slot is set: the fixed ones were, and every free
      one is listed. */
  lemma AllFilled(t0: seq<Slot>, t1: seq<Slot>, ap: seq<int>, filled: seq<Gene>)
    requires IsFreeList(t0, ap) && |filled| == |ap| && Placed(t0, t1, ap, filled)
    ensures forall i :: 0 <= i < |t1| ==> t1[i].Some?
  {
    forall i | 0 <= i < |t1|
      ensures t1[i].Some?
    {
      if t0[i].None? {
        var m :| 0 <= m < |ap| && ap[m] == i;
      }
    }
  }

  /** Building from scratch: the filled genes are exactly the chromosome. */
  lemma FreshFromFill(n: int, t0: seq<Slot>, t1: seq<Slot>, ap: seq<int>, filled: seq<Gene>)
    requires |t0| == (if n - 1 > 0 then n - 1 else 0) && ap == seq(|t0|, i => i)
    requires |filled| == |ap| && Placed(t0, t1, ap, filled)
    requires forall i :: 0 <= i < |t1| ==> t1[i].Some?
    requires GenesOver(Range(n), filled) && ValidChromosome(filled)
    requires 0 < |ap| && 0 in Range(n) && |Range(n)| == |ap| + 1 ==>
      filled[|filled| - 1].head == 0 && Consumed(filled) == Range(n) - {0}
    ensures FreshChromosome(n, Unlift(t1))
  {
    UnliftFilled(t0, t1, ap, filled);
    FreshGenes(n, filled);
  }

  /** With every slot free, in order, the chromosome is the filled genes. */
  lemma UnliftFilled(t0: seq<Slot>, t1: seq<Slot>, ap: seq<int>, filled: seq<Gene>)
    requires ap == seq(|t0|, i => i)
    requires |filled| == |ap| && Placed(t0, t1, ap, filled)
    requires forall i :: 0 <= i < |t1| ==> t1[i].Some?
    ensures Unlift(t1) == filled
  {
    var c := Unlift(t1);
    assert Lift(c) == t1;
    forall m | 0 <= m < |c|
      ensures c[m] == filled[m]
    {
      assert ap[m] == m;
      assert t1[m] == Some(filled[m]);
    }
  }

  /** n-1 ordered genes over the leaves that never reuse a consumed node, end
      with (0, k) and consume every other leaf form a fresh chromosome. */
  lemma FreshGenes(n: int, filled: seq<Gene>)
    requires |filled| == (if n - 1 > 0 then n - 1 else 0)
    requires GenesOver(Range(n), filled) && ValidChromosome(filled)
    requires 0 < |filled| && 0 in Range(n) && |Range(n)| == |filled| + 1 ==>
      filled[|filled| - 1].head == 0 && Consumed(filled) == Range(n) - {0}
    ensures FreshChromosome(n, filled)
  {
    RangeMembers(n);
    RangeCard(n);
    if n < 2 {
      assert filled == [];
      assert Range(n) - {0} == {};
    }
  }

  lemma {:induction false} NoFixedExcludes(t: seq<Slot>)
    requires forall k :: 0 <= k < |t| ==> t[k].None?
    ensures FixedExcludes(t) == {}
  {
    if t != [] {
      NoFixedExcludes(t[..|t| - 1]);
    }
  }

  /** Completing a template: the filled genes go to the free slots. */
  lemma CompletesFromFill(n: int, t0: seq<Slot>, t1: seq<Slot>, ap: seq<int>, filled: seq<Gene>)
    requires IsFreeList(t0, ap) && |filled| == |ap| && Placed(t0, t1, ap, filled)
    requires forall i :: 0 <= i < |t1| ==> t1[i].Some?
    requires GenesOver(Candidates(n, t0), filled) && ValidChromosome(filled)
    ensures Completes(n, t0, Unlift(t1))
  {
    RangeMembers(n);
    var c := Unlift(t1);
    assert Lift(c) == t1;
    forall p, q | 0 <= p < q < |t0| && t0[p].None? && t0[q].None?
      ensures c[p].back != c[q].head && c[p].back != c[q].back
    {
      var m1 :| 0 <= m1 < |ap| && ap[m1] == p;
      var m2 :| 0 <= m2 < |ap| && ap[m2] == q;
      assert m1 < m2;
      assert c[p] == filled[m1] && c[q] == filled[m2];
    }
    forall k | 0 <= k < |t0| && t0[k].None?
      ensures Ordered(c[k], n) && c[k].head !in FixedExcludes(t0) && c[k].back !in FixedExcludes(t0)
    {
      var m :| 0 <= m < |ap| && ap[m] == k;
      assert c[k] == filled[m];
    }
  }

  /** create_population: population_size individuals built without template. */
  method CreatePopulation(individualSize: int, populationSize: nat) returns (population: seq<Individual>)
    ensures |population| == populationSize
    ensures forall k :: 0 <= k < |population| ==>
      population[k].fitness == 0.0 && FreshChromosome(individualSize, population[k].genes)
  {
    population := [];
    for k := 0 to populationSize
      invariant |population| == k
      invariant forall m :: 0 <= m < k ==>
        population[m].fitness == 0.0 && FreshChromosome(individualSize, population[m].genes)
    {
      var ind := IndividualCreate(individualSize, null);
      population := population + [ind.value];
    }
  }
  /** A node that no fixed gene masks is not among the fixed excludes. */
  lemma {:induction false} FixedExcludesOutside(t: seq<Slot>, x: int)
    requires forall k :: 0 <= k < |t| && t[k].Some? ==> GetExclude(t[k].value.head, t[k].value.back).0 != x
    ensures x !in FixedExcludes(t)
  {
    if t != [] {
      FixedExcludesOutside(t[..|t| - 1], x);
    }
  }

  /** Every fixed gene's larger node is among the fixed excludes. */
  lemma {:induction false} FixedExcludesHas(t: seq<Slot>, k: int)
    requires 0 <= k < |t| && t[k].Some?
    ensures GetExclude(t[k].value.head, t[k].value.back).0 in FixedExcludes(t)
  {
    if k < |t| - 1 {
      FixedExcludesHas(t[..|t| - 1], k);
    }
  }

  /** Over ordered fixed genes with distinct backs, each fixed slot masks its
      own node of 0..n-1. */
  lemma {:induction false} FixedExcludesCard(n: int, t: seq<Slot>)
    requires forall k :: 0 <= k < |t| && t[k].Some? ==> Ordered(t[k].value, n)
    requires forall p, q :: 0 <= p < q < |t| && t[p].Some? && t[q].Some? ==> t[p].value.back != t[q].value.back
    ensures FixedExcludes(t) <= Range(n)
    ensures |FixedExcludes(t)| + FreeCount(t) == |t|
  {
    if t != [] {
      var t' := t[..|t| - 1];
      FixedExcludesCard(n, t');
      var s := t[|t| - 1];
      if s.Some? {
        RangeMembers(n);
        FixedExcludesOutside(t', s.value.back);
      }
    }
  }

  /** A well-formed template can always be completed: it leaves one more
      candidate than it has free slots. */
  lemma TemplateCompletable(n: int, t: seq<Slot>)
    requires TemplateWellFormed(n, t)
    ensures Completable(n, t)
    ensures |Candidates(n, t)| == FreeCount(t) + 1
  {
    FixedExcludesCard(n, t);
    RangeCard(n);
    var fe := FixedExcludes(t);
    assert Range(n) == Candidates(n, t) + fe;
    assert Candidates(n, t) * fe == {};
  }

  /** Each fixed slot masks at most one node, so the masked nodes and the
      free slots together number at most the slots. */
  lemma {:induction false} FixedExcludesBound(t: seq<Slot>)
    ensures |FixedExcludes(t)| + FreeCount(t) <= |t|
  {
    if t != [] {
      var t' := t[..|t| - 1];
      FixedExcludesBound(t');
      SubsetCard(FixedExcludes(t), FixedExcludes(t') + SlotExclude(t[|t| - 1]));
    }
  }

  /** Any template over n leaves can be completed, well formed or not: at
      least one more candidate remains than there are free slots. */
  lemma AnyTemplateCompletable(n: int, t: seq<Slot>)
    requires |t| == n - 1
    ensures Completable(n, t)
    ensures FreeCount(t) < |Candidates(n, t)|
  {
    FixedExcludesBound(t);
    RangeCard(n);
    var fe := FixedExcludes(t);
    assert Range(n) <= Candidates(n, t) + (Range(n) * fe);
    SubsetCard(Range(n), Candidates(n, t) + (Range(n) * fe));
    SubsetCard(Range(n) * fe, fe);
  }

  /** Completing a well-formed template yields a well-formed chromosome. */
  lemma CompletesWellFormed(n: int, t: seq<Slot>, c: seq<Gene>)
    requires TemplateWellFormed(n, t) && Completes(n, t, c)
    ensures WellFormed(n, c)
  {
    forall p, q | 0 <= p < q < |c|
      ensures c[p].back != c[q].back
    {
      if t[p].Some? && t[q].None? {
        FixedExcludesHas(t, p);
      } else if t[p].None? && t[q].Some? {
        FixedExcludesHas(t, q);
      }
    }
  }
}

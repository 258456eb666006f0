/** Crossover (tools/crossover.py): a child template takes non-conflicting
    gene pairs, one gene from the first half of one parent and one from the
    second half of the other, each at its own index; the template is then
    completed by individual_create. */
module Crossover {
  import opened Chromosome
  import opened PopulationCreator

  /** check_genes exactly as written: true means the pair conflicts and is
      skipped.  It never tests a first element against the consumed nodes;
      see CheckGenes. */
  predicate CheckGenesAsWritten(gen1: Gene, gen2: Gene, child: seq<Slot>, heads: seq<int>, backs: seq<int>)
  {
    || gen1.back == gen2.head
    || gen1 == gen2
    || gen1.back == gen2.back
    || gen1.back in heads
    || gen2.back in heads
    || gen1.back in backs
    || gen2.back in backs
    || Some(gen2) in child
    || Some(gen1) in child
  }

  /** The conflict test the model uses: the test as written, plus the rule the
      `backs` list exists for, that a consumed node cannot stand first in a
      gene. */
  predicate CheckGenes(gen1: Gene, gen2: Gene, child: seq<Slot>, heads: seq<int>, backs: seq<int>)
  {
    || CheckGenesAsWritten(gen1, gen2, child, heads, backs)
    || gen1.head in backs
    || gen2.head in backs
  }

  /** The variables of generate_child_template's loops: the child template
      and the heads and backs of the genes placed so far. */
  datatype ScanState = ScanState(child: seq<Slot>, heads: seq<int>, backs: seq<int>)

  /** The state before the first pair: all slots empty, no node recorded. */
  function StartState(length: nat): ScanState
  {
    ScanState(seq(length, _ => None), [], [])
  }

  /** The conflict test of one scan: the corrected test, or the test as
      written. */
  predicate Conflict(corrected: bool, gen1: Gene, gen2: Gene, s: ScanState)
  {
    if corrected then CheckGenes(gen1, gen2, s.child, s.heads, s.backs)
    else CheckGenesAsWritten(gen1, gen2, s.child, s.heads, s.backs)
  }

  /** The state after taking the pair (g1 at i, g2 at j). */
  function Accept(s: ScanState, i: int, j: int, g1: Gene, g2: Gene): ScanState
    requires 0 <= i < |s.child| && 0 <= j < |s.child|
  {
    ScanState(s.child[i := Some(g1)][j := Some(g2)], s.heads + [g1.head, g2.head], s.backs + [g1.back, g2.back])
  }

  /** The inner loop for parent1's gene i: parent2's genes j, j-1, .., center,
      each taken with gene i when the test finds no conflict in the state
      the earlier pairs left. */
  function ScanRow(p1: seq<Gene>, p2: seq<Gene>, center: int, i: int, j: int, s: ScanState, corrected: bool): (r: ScanState)
    requires 0 <= center && 0 <= i < |p1| && |p2| <= |p1| == |s.child| && j < |p2|
    ensures |r.child| == |s.child|
    decreases j - center + 1
  {
    if j < center then s
    else if Conflict(corrected, p1[i], p2[j], s) then ScanRow(p1, p2, center, i, j - 1, s, corrected)
    else ScanRow(p1, p2, center, i, j - 1, Accept(s, i, j, p1[i], p2[j]), corrected)
  }

  /** The rest of the inner scan, from parent2's gene j down, leads from s to
      target. */
  ghost predicate ScanTracks(p1: seq<Gene>, p2: seq<Gene>, center: int, i: int, j: int,
                             s: ScanState, target: ScanState, corrected: bool)
  {
    && 0 <= center && 0 <= i < |p1| && |p2| <= |p1| == |s.child| && j < |p2|
    && ScanRow(p1, p2, center, i, j, s, corrected) == target
  }

  /** One step of the inner scan: the rest of the scan from j leads to
      target, so the rest from j - 1 does too, from the state after (i, j). */
  lemma ScanTracksStep(p1: seq<Gene>, p2: seq<Gene>, center: int, i: int, j: int,
                       s: ScanState, target: ScanState, corrected: bool)
    requires 0 <= center <= j && ScanTracks(p1, p2, center, i, j, s, target, corrected)
    ensures ScanTracks(p1, p2, center, i, j - 1,
                       if Conflict(corrected, p1[i], p2[j], s) then s else Accept(s, i, j, p1[i], p2[j]),
                       target, corrected)
  {
  }

  /** The outer loop from parent1's gene i on, over the genes before
      center. */
  function ScanRows(p1: seq<Gene>, p2: seq<Gene>, center: int, i: int, s: ScanState, corrected: bool): (r: ScanState)
    requires 0 <= center && 0 <= i && |p2| <= |p1| == |s.child|
    ensures |r.child| == |s.child|
    decreases |p1| - i
  {
    if i >= center || i >= |p1| then s
    else ScanRows(p1, p2, center, i + 1, ScanRow(p1, p2, center, i, |p2| - 1, s, corrected), corrected)
  }

  /** The template generate_child_template returns: the child of the greedy
      scan when it took some pair, parent1 itself otherwise. */
  function ChildTemplate(p1: seq<Gene>, p2: seq<Gene>, center: int, corrected: bool): seq<Slot>
    requires 0 <= center && |p2| <= |p1|
  {
    var s := ScanRows(p1, p2, center, 0, StartState(|p1|), corrected);
    if s.heads != [] then s.child else Lift(p1)
  }

  /** Once the outer loop has run to its end, the scan's state gives the
      template. */
  lemma ScanFinished(p1: seq<Gene>, p2: seq<Gene>, center: int, top: int, s: ScanState, corrected: bool)
    requires 0 <= center && |p2| <= |p1| == |s.child|
    requires top == if center < |p1| then center else |p1|
    requires ScanRows(p1, p2, center, top, s, corrected) == ScanRows(p1, p2, center, 0, StartState(|p1|), corrected)
    ensures ChildTemplate(p1, p2, center, corrected) == if s.heads != [] then s.child else Lift(p1)
  {
  }

  /** Every accepted pair (i, j) takes slot i < center of parent1 and slot
      j >= center of parent2. */
  predicate PairsIn(p1: seq<Gene>, p2: seq<Gene>, center: int, pairs: seq<(int, int)>)
  {
    forall m :: 0 <= m < |pairs| ==>
      0 <= pairs[m].0 < center && pairs[m].0 < |p1| && center <= pairs[m].1 < |p2|
  }

  /** The parent1 indices of the accepted pairs strictly increase, so no gene
      of parent1 is accepted twice. */
  predicate Increasing(pairs: seq<(int, int)>)
  {
    forall m, m' :: 0 <= m < m' < |pairs| ==> pairs[m].0 < pairs[m'].0
  }

  /** The two genes of one pair do not conflict with each other. */
  predicate PairFits(g1: Gene, g2: Gene)
  {
    g1 != g2 && g1.back != g2.head && g1.back != g2.back
  }

  /** A pair accepted after the pair (a1, a2): its consumed nodes are none of
      the earlier pair's nodes, and its first nodes are not the earlier
      pair's consumed nodes. */
  predicate LaterFits(a1: Gene, a2: Gene, b1: Gene, b2: Gene)
  {
    var nodes := {a1.head, a2.head, a1.back, a2.back};
    var consumed := {a1.back, a2.back};
    b1.back !in nodes && b2.back !in nodes && b1.head !in consumed && b2.head !in consumed
  }

  /** What the conflict test guarantees about the accepted pairs, in the order
      of acceptance. */
  predicate Compatible(p1: seq<Gene>, p2: seq<Gene>, center: int, pairs: seq<(int, int)>)
    requires PairsIn(p1, p2, center, pairs)
  {
    && (forall m :: 0 <= m < |pairs| ==> PairFits(p1[pairs[m].0], p2[pairs[m].1]))
    && (forall m, m' :: 0 <= m < m' < |pairs| ==>
          LaterFits(p1[pairs[m].0], p2[pairs[m].1], p1[pairs[m'].0], p2[pairs[m'].1]))
  }

  /** c is a child of p1 and p2: it completes, over len(p1) + 1 leaves, the
      template generate_child_template builds from them. */
  ghost predicate ChildOf(p1: seq<Gene>, p2: seq<Gene>, center: int, c: seq<Gene>)
  {
    0 <= center && |p2| <= |p1| && Completes(|p1| + 1, ChildTemplate(p1, p2, center, false), c)
  }

  /** Every fixed slot of t holds the gene of p1 at that index, or, from
      center on, the gene of p2 at that index. */
  predicate Inherits(p1: seq<Gene>, p2: seq<Gene>, center: int, t: seq<Slot>)
  {
    && |t| == |p1|
    && forall k :: 0 <= k < |t| && t[k].Some? ==>
         t[k] == Some(p1[k]) || (center <= k < |p2| && t[k] == Some(p2[k]))
  }

  /** The genes of every accepted pair sit at their two indices. */
  predicate PairSlots(p1: seq<Gene>, p2: seq<Gene>, child: seq<Slot>, pairs: seq<(int, int)>)
  {
    forall m :: 0 <= m < |pairs| ==>
      && 0 <= pairs[m].0 < |child| && 0 <= pairs[m].0 < |p1|
      && 0 <= pairs[m].1 < |child| && 0 <= pairs[m].1 < |p2|
      && child[pairs[m].0] == Some(p1[pairs[m].0]) && child[pairs[m].1] == Some(p2[pairs[m].1])
  }

  /** Every fixed slot before center holds parent1's gene and every fixed
      slot from center on holds parent2's. */
  predicate Halves(p1: seq<Gene>, p2: seq<Gene>, center: int, child: seq<Slot>)
  {
    forall k :: 0 <= k < |child| && child[k].Some? ==>
      (k < center && k < |p1| && child[k] == Some(p1[k])) || (center <= k < |p2| && child[k] == Some(p2[k]))
  }

  /** The invariant of the nested loops of generate_child_template, with the
      outer loop at index upto.  heads and backs hold the nodes of the fixed
      slots; every fixed slot belongs to an accepted pair. */
  ghost predicate TemplateState(p1: seq<Gene>, p2: seq<Gene>, center: int, upto: int,
                                child: seq<Slot>, heads: seq<int>, backs: seq<int>, pairs: seq<(int, int)>)
  {
    && |child| == |p1| && |p2| <= |p1|
    && PairsIn(p1, p2, center, pairs)
    && (forall m :: 0 <= m < |pairs| ==> pairs[m].0 < upto)
    && Increasing(pairs)
    && Compatible(p1, p2, center, pairs)
    && |heads| == 2 * |pairs|
    && (forall m :: 0 <= m < |pairs| ==>
          child[pairs[m].0] == Some(p1[pairs[m].0]) && child[pairs[m].1] == Some(p2[pairs[m].1]))
    && (forall k :: 0 <= k < |child| && child[k].Some? ==>
          exists m :: 0 <= m < |pairs| && (pairs[m].0 == k || pairs[m].1 == k))
    && (forall k :: 0 <= k < |child| && child[k].Some? ==>
          child[k].value.head in heads && child[k].value.back in backs)
    && (forall k :: 0 <= k < |child| && child[k].Some? ==>
          (k < center && child[k] == Some(p1[k])) || (center <= k < |p2| && child[k] == Some(p2[k])))
    && ValidTemplate(child)
  }

  /** Placing a pair the conflict test accepts keeps the loop invariant. */
  lemma PlaceKeeps(p1: seq<Gene>, p2: seq<Gene>, center: int, i: int, j: int,
                   child: seq<Slot>, heads: seq<int>, backs: seq<int>, pairs: seq<(int, int)>)
    requires TemplateState(p1, p2, center, i + 1, child, heads, backs, pairs)
    requires 0 <= i < center && i < |p1| && center <= j < |p2|
    requires !CheckGenes(p1[i], p2[j], child, heads, backs)
    ensures TemplateState(p1, p2, center, i + 1,
                          child[i := Some(p1[i])][j := Some(p2[j])],
                          heads + [p1[i].head, p2[j].head], backs + [p1[i].back, p2[j].back],
                          pairs + [(i, j)])
  {
    var g1, g2 := p1[i], p2[j];
    var child' := child[i := Some(g1)][j := Some(g2)];
    var heads', backs' := heads + [g1.head, g2.head], backs + [g1.back, g2.back];
    var pairs' := pairs + [(i, j)];
    PlaceFree(p1, p2, center, i, child, pairs);
    PlacePairs(p1, p2, center, i, j, child, heads, backs, pairs);
    PlaceCovers(g1, g2, i, j, child, pairs);
    PlaceValid(g1, g2, i, j, child, heads, backs);
    PlaceSlots(p1, p2, center, i, j, child, pairs);
  }

  /** The genes of every accepted pair, the new one included, sit at their
      indices, and every fixed slot holds the gene of the parent its half
      comes from. */
  lemma PlaceSlots(p1: seq<Gene>, p2: seq<Gene>, center: int, i: int, j: int,
                   child: seq<Slot>, pairs: seq<(int, int)>)
    requires |child| == |p1| && |p2| <= |p1| && PairsIn(p1, p2, center, pairs)
    requires PairSlots(p1, p2, child, pairs) && Halves(p1, p2, center, child)
    requires 0 <= i < center && i < |p1| && center <= j < |p2|
    requires forall m :: 0 <= m < |pairs| ==> pairs[m].0 < i
    requires Some(p2[j]) !in child
    ensures var child', pairs' := child[i := Some(p1[i])][j := Some(p2[j])], pairs + [(i, j)];
      forall m :: 0 <= m < |pairs'| ==>
        child'[pairs'[m].0] == Some(p1[pairs'[m].0]) && child'[pairs'[m].1] == Some(p2[pairs'[m].1])
    ensures var child' := child[i := Some(p1[i])][j := Some(p2[j])];
      forall k :: 0 <= k < |child'| && child'[k].Some? ==>
        (k < center && child'[k] == Some(p1[k])) || (center <= k < |p2| && child'[k] == Some(p2[k]))
  {
    var child', pairs' := child[i := Some(p1[i])][j := Some(p2[j])], pairs + [(i, j)];
    forall m | 0 <= m < |pairs'|
      ensures child'[pairs'[m].0] == Some(p1[pairs'[m].0]) && child'[pairs'[m].1] == Some(p2[pairs'[m].1])
    {
      if m < |pairs| {
        assert pairs'[m] == pairs[m];
      }
    }
  }

  /** The slot of parent1's gene is still free and every earlier pair took
      an earlier gene of parent1. */
  lemma PlaceFree(p1: seq<Gene>, p2: seq<Gene>, center: int, i: int,
                  child: seq<Slot>, pairs: seq<(int, int)>)
    requires |child| == |p1| && |p2| <= |p1| && PairsIn(p1, p2, center, pairs)
    requires forall m :: 0 <= m < |pairs| ==> pairs[m].0 < i + 1
    requires PairSlots(p1, p2, child, pairs) && Halves(p1, p2, center, child)
    requires 0 <= i < center && i < |p1|
    requires Some(p1[i]) !in child
    ensures child[i].None?
    ensures forall m :: 0 <= m < |pairs| ==> pairs[m].0 < i
  {
  }

  /** The accepted pairs stay increasing and compatible. */
  lemma PlacePairs(p1: seq<Gene>, p2: seq<Gene>, center: int, i: int, j: int,
                   child: seq<Slot>, heads: seq<int>, backs: seq<int>, pairs: seq<(int, int)>)
    requires PairsIn(p1, p2, center, pairs) && Increasing(pairs) && Compatible(p1, p2, center, pairs)
    requires |child| == |p1| && |p2| <= |p1|
    requires forall m :: 0 <= m < |pairs| ==>
      child[pairs[m].0] == Some(p1[pairs[m].0]) && child[pairs[m].1] == Some(p2[pairs[m].1])
    requires forall k :: 0 <= k < |child| && child[k].Some? ==>
      child[k].value.head in heads && child[k].value.back in backs
    requires 0 <= i < center && i < |p1| && center <= j < |p2|
    requires forall m :: 0 <= m < |pairs| ==> pairs[m].0 < i
    requires !CheckGenes(p1[i], p2[j], child, heads, backs)
    ensures PairsIn(p1, p2, center, pairs + [(i, j)]) && Increasing(pairs + [(i, j)])
    ensures Compatible(p1, p2, center, pairs + [(i, j)])
  {
    var pairs' := pairs + [(i, j)];
    assert forall m :: 0 <= m < |pairs| ==> pairs'[m] == pairs[m];
    forall m | 0 <= m < |pairs|
      ensures LaterFits(p1[pairs'[m].0], p2[pairs'[m].1], p1[i], p2[j])
    {
      var a, b := pairs[m].0, pairs[m].1;
      assert child[a].value.head in heads && child[a].value.back in backs;
      assert child[b].value.head in heads && child[b].value.back in backs;
    }
  }

  /** Every fixed slot still belongs to an accepted pair. */
  lemma PlaceCovers(g1: Gene, g2: Gene, i: int, j: int, child: seq<Slot>, pairs: seq<(int, int)>)
    requires 0 <= i < |child| && 0 <= j < |child|
    requires forall k :: 0 <= k < |child| && child[k].Some? ==>
      exists m :: 0 <= m < |pairs| && (pairs[m].0 == k || pairs[m].1 == k)
    ensures var child', pairs' := child[i := Some(g1)][j := Some(g2)], pairs + [(i, j)];
      forall k :: 0 <= k < |child'| && child'[k].Some? ==>
        exists m :: 0 <= m < |pairs'| && (pairs'[m].0 == k || pairs'[m].1 == k)
  {
    var child', pairs' := child[i := Some(g1)][j := Some(g2)], pairs + [(i, j)];
    forall k | 0 <= k < |child'| && child'[k].Some?
      ensures exists m :: 0 <= m < |pairs'| && (pairs'[m].0 == k || pairs'[m].1 == k)
    {
      if k == i || k == j {
        assert pairs'[|pairs|] == (i, j);
      } else {
        var m :| 0 <= m < |pairs| && (pairs[m].0 == k || pairs[m].1 == k);
        assert pairs'[m] == pairs[m];
      }
    }
  }

  /** Two genes whose consumed nodes avoid every node of the fixed slots, and
      whose first nodes avoid every consumed one, keep the template valid. */
  lemma PlaceValid(g1: Gene, g2: Gene, i: int, j: int, child: seq<Slot>, heads: seq<int>, backs: seq<int>)
    requires 0 <= i < j < |child| && child[i].None?
    requires ValidTemplate(child)
    requires forall k :: 0 <= k < |child| && child[k].Some? ==>
      child[k].value.head in heads && child[k].value.back in backs
    requires PairFits(g1, g2)
    requires g1.back !in heads && g2.back !in heads && g1.back !in backs && g2.back !in backs
    requires g1.head !in backs && g2.head !in backs
    ensures ValidTemplate(child[i := Some(g1)][j := Some(g2)])
    ensures var child' := child[i := Some(g1)][j := Some(g2)];
      forall k :: 0 <= k < |child'| && child'[k].Some? ==>
        child'[k].value.head in heads + [g1.head, g2.head] && child'[k].value.back in backs + [g1.back, g2.back]
  {
    var child' := child[i := Some(g1)][j := Some(g2)];
    forall p, q | 0 <= p < q < |child'| && child'[p].Some? && child'[q].Some?
      ensures child'[p].value.back != child'[q].value.head && child'[p].value.back != child'[q].value.back
    {
      if p != i && p != j && q != i && q != j {
      } else if p != i && p != j {
        assert child[p].value.back in backs;
      } else if q != i && q != j {
        assert child[q].value.head in heads && child[q].value.back in backs;
      }
    }
  }

  /** generate_child_template: for each gene of parent1 before center, scan
      the genes of parent2 from the last one down to center and take every
      pair the conflict test accepts.  Without any accepted pair the result
      is parent1 itself, all slots fixed.  The ghost result lists the
      accepted pairs of indices in the order of acceptance. */
  method GenerateChildTemplate(p1: seq<Gene>, p2: seq<Gene>, center: int)
    returns (r: seq<Slot>, ghost pairs: seq<(int, int)>)
    requires 0 <= center && |p2| <= |p1|
    ensures |r| == |p1|
    ensures PairsIn(p1, p2, center, pairs) && Increasing(pairs) && Compatible(p1, p2, center, pairs)
    ensures pairs == [] ==> r == Lift(p1)
    ensures pairs != [] ==> forall m :: 0 <= m < |pairs| ==>
      r[pairs[m].0] == Some(p1[pairs[m].0]) && r[pairs[m].1] == Some(p2[pairs[m].1])
    ensures pairs != [] ==> forall k :: 0 <= k < |r| && r[k].Some? ==>
      exists m :: 0 <= m < |pairs| && (pairs[m].0 == k || pairs[m].1 == k)
    ensures pairs != [] ==> forall k :: 0 <= k < |r| && r[k].Some? ==>
      (k < center && r[k] == Some(p1[k])) || (center <= k && r[k] == Some(p2[k]))
    ensures pairs != [] ==> ValidTemplate(r)
    ensures Inherits(p1, p2, center, r)
    ensures ValidChromosome(p1) ==> ValidTemplate(r)
    ensures WellFormed(|p1| + 1, p1) && WellFormed(|p1| + 1, p2) ==> TemplateWellFormed(|p1| + 1, r)
    ensures r == ChildTemplate(p1, p2, center, true)
  {
    var st := StartState(|p1|);
    pairs := [];
    ghost var final := ScanRows(p1, p2, center, 0, st, true);
    var top := if center < |p1| then center else |p1|;
    for i := 0 to top
      invariant TemplateState(p1, p2, center, i, st.child, st.heads, st.backs, pairs)
      invariant ScanRows(p1, p2, center, i, st, true) == final
    {
      st, pairs := ScanRowCorrected(p1, p2, center, i, st, pairs);
    }
    ScanFinished(p1, p2, center, top, st, true);
    if st.heads != [] {
      r := st.child;
    } else {
      r := Lift(p1);
    }
    TemplateFinish(p1, p2, center, top, st, pairs, r);
  }

  /** What the invariant of generate_child_template says of the template it
      returns once the outer loop is done. */
  lemma TemplateFinish(p1: seq<Gene>, p2: seq<Gene>, center: int, upto: int, st: ScanState,
                       pairs: seq<(int, int)>, r: seq<Slot>)
    requires TemplateState(p1, p2, center, upto, st.child, st.heads, st.backs, pairs)
    requires r == if st.heads != [] then st.child else Lift(p1)
    ensures |r| == |p1|
    ensures PairsIn(p1, p2, center, pairs) && Increasing(pairs) && Compatible(p1, p2, center, pairs)
    ensures pairs == [] ==> r == Lift(p1)
    ensures pairs != [] ==> forall m :: 0 <= m < |pairs| ==>
      r[pairs[m].0] == Some(p1[pairs[m].0]) && r[pairs[m].1] == Some(p2[pairs[m].1])
    ensures pairs != [] ==> forall k :: 0 <= k < |r| && r[k].Some? ==>
      exists m :: 0 <= m < |pairs| && (pairs[m].0 == k || pairs[m].1 == k)
    ensures pairs != [] ==> forall k :: 0 <= k < |r| && r[k].Some? ==>
      (k < center && r[k] == Some(p1[k])) || (center <= k && r[k] == Some(p2[k]))
    ensures pairs != [] ==> ValidTemplate(r)
    ensures Inherits(p1, p2, center, r)
    ensures ValidChromosome(p1) ==> ValidTemplate(r)
    ensures WellFormed(|p1| + 1, p1) && WellFormed(|p1| + 1, p2) ==> TemplateWellFormed(|p1| + 1, r)
  {
    TemplateShape(p1, p2, center, r, pairs);
  }

  /** The inner loop of generate_child_template with the corrected test, for
      parent1's gene i: parent2's genes from the last one down to center,
      each pair taken when the test finds no conflict.  st holds the loop
      variables child, heads and backs. */
  method ScanRowCorrected(p1: seq<Gene>, p2: seq<Gene>, center: int, i: int, st0: ScanState, ghost pairs0: seq<(int, int)>)
    returns (st: ScanState, ghost pairs: seq<(int, int)>)
    requires 0 <= i < center && i < |p1|
    requires TemplateState(p1, p2, center, i, st0.child, st0.heads, st0.backs, pairs0)
    ensures TemplateState(p1, p2, center, i + 1, st.child, st.heads, st.backs, pairs)
    ensures st == ScanRow(p1, p2, center, i, |p2| - 1, st0, true)
  {
    st, pairs := st0, pairs0;
    var j := |p2| - 1;
    ghost var target := ScanRow(p1, p2, center, i, j, st, true);
    while j >= center
      invariant TemplateState(p1, p2, center, i + 1, st.child, st.heads, st.backs, pairs)
      invariant ScanTracks(p1, p2, center, i, j, st, target, true)
      decreases j - center + 1
    {
      AcceptCorrected(p1, p2, center, i, j, st, pairs);
      st, pairs, j := ScanStepCorrected(p1, p2, center, i, j, st, pairs, target);
    }
  }

  /** PlaceKeeps on the scan state: one pass of the inner loop keeps the invariant. */
  lemma AcceptCorrected(p1: seq<Gene>, p2: seq<Gene>, center: int, i: int, j: int, st: ScanState, pairs: seq<(int, int)>)
    requires 0 <= i < center && i < |p1| && center <= j < |p2|
    requires TemplateState(p1, p2, center, i + 1, st.child, st.heads, st.backs, pairs)
    ensures var s := if Conflict(true, p1[i], p2[j], st) then st else Accept(st, i, j, p1[i], p2[j]);
            TemplateState(p1, p2, center, i + 1, s.child, s.heads, s.backs,
                    if Conflict(true, p1[i], p2[j], st) then pairs else pairs + [(i, j)])
  {
    if !Conflict(true, p1[i], p2[j], st) {
      PlaceKeeps(p1, p2, center, i, j, st.child, st.heads, st.backs, pairs);
    }
  }

  /** One pass of that inner loop: the pair (i, j) is taken when the test
      finds no conflict. */
  method ScanStepCorrected(p1: seq<Gene>, p2: seq<Gene>, center: int, i: int, j: int, st0: ScanState,
                           ghost pairs0: seq<(int, int)>, ghost target: ScanState)
    returns (st: ScanState, ghost pairs: seq<(int, int)>, next: int)
    requires center <= j && ScanTracks(p1, p2, center, i, j, st0, target, true)
    ensures st == if Conflict(true, p1[i], p2[j], st0) then st0 else Accept(st0, i, j, p1[i], p2[j])
    ensures pairs == if Conflict(true, p1[i], p2[j], st0) then pairs0 else pairs0 + [(i, j)]
    ensures next == j - 1 && ScanTracks(p1, p2, center, i, next, st, target, true)
  {
    ScanTracksStep(p1, p2, center, i, j, st0, target, true);
    next := j - 1;
    if !Conflict(true, p1[i], p2[j], st0) {
      st := Accept(st0, i, j, p1[i], p2[j]);
      pairs := pairs0 + [(i, j)];
    } else {
      st, pairs := st0, pairs0;
    }
  }

  /** The shape of the result once the loops are done. */
  lemma TemplateShape(p1: seq<Gene>, p2: seq<Gene>, center: int, r: seq<Slot>, pairs: seq<(int, int)>)
    requires |r| == |p1| && |p2| <= |p1|
    requires pairs == [] ==> r == Lift(p1)
    requires pairs != [] ==> ValidTemplate(r)
    requires pairs != [] ==> forall k :: 0 <= k < |r| && r[k].Some? ==>
      (k < center && r[k] == Some(p1[k])) || (center <= k < |p2| && r[k] == Some(p2[k]))
    ensures Inherits(p1, p2, center, r)
    ensures ValidChromosome(p1) ==> ValidTemplate(r)
    ensures WellFormed(|p1| + 1, p1) && WellFormed(|p1| + 1, p2) ==> TemplateWellFormed(|p1| + 1, r)
  {
    if pairs == [] && WellFormed(|p1| + 1, p1) {
      WellFormedLift(|p1| + 1, p1);
    }
  }

  /** A pair accepted after the pair (a1, a2) by the test as written: its
      consumed nodes are none of the earlier pair's nodes (nothing is said of
      its first nodes). */
  predicate LaterBacksFresh(a1: Gene, a2: Gene, b1: Gene, b2: Gene)
  {
    var nodes := {a1.head, a2.head, a1.back, a2.back};
    b1.back !in nodes && b2.back !in nodes
  }

  /** What check_genes as written guarantees about the accepted pairs, in the
      order of acceptance. */
  predicate CompatibleAsWritten(p1: seq<Gene>, p2: seq<Gene>, center: int, pairs: seq<(int, int)>)
    requires PairsIn(p1, p2, center, pairs)
  {
    && (forall m :: 0 <= m < |pairs| ==> PairFits(p1[pairs[m].0], p2[pairs[m].1]))
    && (forall m, m' :: 0 <= m < m' < |pairs| ==>
          LaterBacksFresh(p1[pairs[m].0], p2[pairs[m].1], p1[pairs[m'].0], p2[pairs[m'].1]))
  }

  /** No two fixed slots consume the same node. */
  predicate DistinctBacks(t: seq<Slot>)
  {
    forall p, q :: 0 <= p < q < |t| && t[p].Some? && t[q].Some? ==> t[p].value.back != t[q].value.back
  }

  /** The invariant of the nested loops of generate_child_template as
      written, with the outer loop at index upto.  It is TemplateState with
      the weaker guarantees of the test as written: compatible pairs in its
      sense, and distinct consumed nodes instead of a valid template. */
  ghost predicate TemplateStateAsWritten(p1: seq<Gene>, p2: seq<Gene>, center: int, upto: int,
                                         child: seq<Slot>, heads: seq<int>, backs: seq<int>, pairs: seq<(int, int)>)
  {
    && |child| == |p1| && |p2| <= |p1|
    && PairsIn(p1, p2, center, pairs)
    && (forall m :: 0 <= m < |pairs| ==> pairs[m].0 < upto)
    && Increasing(pairs)
    && CompatibleAsWritten(p1, p2, center, pairs)
    && |heads| == 2 * |pairs|
    && PairSlots(p1, p2, child, pairs)
    && (forall k :: 0 <= k < |child| && child[k].Some? ==>
          exists m :: 0 <= m < |pairs| && (pairs[m].0 == k || pairs[m].1 == k))
    && (forall k :: 0 <= k < |child| && child[k].Some? ==>
          child[k].value.head in heads && child[k].value.back in backs)
    && Halves(p1, p2, center, child)
    && DistinctBacks(child)
  }

  /** Placing a pair the test as written accepts keeps its loop invariant. */
  lemma PlaceKeepsAsWritten(p1: seq<Gene>, p2: seq<Gene>, center: int, i: int, j: int,
                            child: seq<Slot>, heads: seq<int>, backs: seq<int>, pairs: seq<(int, int)>)
    requires TemplateStateAsWritten(p1, p2, center, i + 1, child, heads, backs, pairs)
    requires 0 <= i < center && i < |p1| && center <= j < |p2|
    requires !CheckGenesAsWritten(p1[i], p2[j], child, heads, backs)
    ensures TemplateStateAsWritten(p1, p2, center, i + 1,
                                   child[i := Some(p1[i])][j := Some(p2[j])],
                                   heads + [p1[i].head, p2[j].head], backs + [p1[i].back, p2[j].back],
                                   pairs + [(i, j)])
  {
    var g1, g2 := p1[i], p2[j];
    PlaceFree(p1, p2, center, i, child, pairs);
    PlacePairsAsWritten(p1, p2, center, i, j, child, heads, backs, pairs);
    PlaceCovers(g1, g2, i, j, child, pairs);
    PlaceDistinct(g1, g2, i, j, child, heads, backs);
    PlaceSlots(p1, p2, center, i, j, child, pairs);
  }

  /** The accepted pairs stay increasing and compatible in the sense of the
      test as written. */
  lemma PlacePairsAsWritten(p1: seq<Gene>, p2: seq<Gene>, center: int, i: int, j: int,
                            child: seq<Slot>, heads: seq<int>, backs: seq<int>, pairs: seq<(int, int)>)
    requires PairsIn(p1, p2, center, pairs) && Increasing(pairs) && CompatibleAsWritten(p1, p2, center, pairs)
    requires |child| == |p1| && |p2| <= |p1|
    requires PairSlots(p1, p2, child, pairs)
    requires forall k :: 0 <= k < |child| && child[k].Some? ==>
      child[k].value.head in heads && child[k].value.back in backs
    requires 0 <= i < center && i < |p1| && center <= j < |p2|
    requires forall m :: 0 <= m < |pairs| ==> pairs[m].0 < i
    requires !CheckGenesAsWritten(p1[i], p2[j], child, heads, backs)
    ensures PairsIn(p1, p2, center, pairs + [(i, j)]) && Increasing(pairs + [(i, j)])
    ensures CompatibleAsWritten(p1, p2, center, pairs + [(i, j)])
  {
    var pairs' := pairs + [(i, j)];
    assert forall m :: 0 <= m < |pairs| ==> pairs'[m] == pairs[m];
    forall m | 0 <= m < |pairs|
      ensures LaterBacksFresh(p1[pairs'[m].0], p2[pairs'[m].1], p1[i], p2[j])
    {
      var a, b := pairs[m].0, pairs[m].1;
      assert child[a].value.head in heads && child[a].value.back in backs;
      assert child[b].value.head in heads && child[b].value.back in backs;
    }
  }

  /** Two genes whose consumed nodes differ from each other and from every
      consumed node of the fixed slots keep the consumed nodes distinct. */
  lemma PlaceDistinct(g1: Gene, g2: Gene, i: int, j: int, child: seq<Slot>, heads: seq<int>, backs: seq<int>)
    requires 0 <= i < j < |child| && child[i].None?
    requires DistinctBacks(child)
    requires forall k :: 0 <= k < |child| && child[k].Some? ==>
      child[k].value.head in heads && child[k].value.back in backs
    requires g1.back != g2.back && g1.back !in backs && g2.back !in backs
    ensures DistinctBacks(child[i := Some(g1)][j := Some(g2)])
    ensures var child' := child[i := Some(g1)][j := Some(g2)];
      forall k :: 0 <= k < |child'| && child'[k].Some? ==>
        child'[k].value.head in heads + [g1.head, g2.head] && child'[k].value.back in backs + [g1.back, g2.back]
  {
    var child' := child[i := Some(g1)][j := Some(g2)];
    forall p, q | 0 <= p < q < |child'| && child'[p].Some? && child'[q].Some?
      ensures child'[p].value.back != child'[q].value.back
    {
      if p != i && p != j && q != i && q != j {
      } else if p != i && p != j {
        assert child[p].value.back in backs;
      } else if q != i && q != j {
        assert child[q].value.back in backs;
      }
    }
  }

  /** generate_child_template exactly as written, with check_genes as
      written: for each gene of parent1 before center, scan the genes of
      parent2 from the last one down to center and take every pair the test
      accepts; without any accepted pair the result is parent1 itself.  The
      template keeps each parent's genes at their indices and consumes
      distinct nodes, but it need not be valid (see
      CheckGenesAsWrittenAcceptsConsumedHead). */
  method GenerateChildTemplateAsWritten(p1: seq<Gene>, p2: seq<Gene>, center: int)
    returns (r: seq<Slot>, ghost pairs: seq<(int, int)>)
    requires 0 <= center && |p2| <= |p1|
    ensures |r| == |p1|
    ensures PairsIn(p1, p2, center, pairs) && Increasing(pairs) && CompatibleAsWritten(p1, p2, center, pairs)
    ensures pairs == [] ==> r == Lift(p1)
    ensures pairs != [] ==> PairSlots(p1, p2, r, pairs) && Halves(p1, p2, center, r)
    ensures pairs != [] ==> forall k :: 0 <= k < |r| && r[k].Some? ==>
      exists m :: 0 <= m < |pairs| && (pairs[m].0 == k || pairs[m].1 == k)
    ensures pairs != [] ==> DistinctBacks(r)
    ensures Inherits(p1, p2, center, r)
    ensures WellFormed(|p1| + 1, p1) && WellFormed(|p1| + 1, p2) ==> TemplateWellFormed(|p1| + 1, r)
    ensures r == ChildTemplate(p1, p2, center, false)
  {
    var st := StartState(|p1|);
    pairs := [];
    ghost var final := ScanRows(p1, p2, center, 0, st, false);
    var top := if center < |p1| then center else |p1|;
    for i := 0 to top
      invariant TemplateStateAsWritten(p1, p2, center, i, st.child, st.heads, st.backs, pairs)
      invariant ScanRows(p1, p2, center, i, st, false) == final
    {
      st, pairs := ScanRowAsWritten(p1, p2, center, i, st, pairs);
    }
    ScanFinished(p1, p2, center, top, st, false);
    if st.heads != [] {
      r := st.child;
    } else {
      r := Lift(p1);
    }
    TemplateShapeAsWritten(p1, p2, center, r, pairs);
  }

  /** The inner loop of generate_child_template with the test as written, for
      parent1's gene i: parent2's genes from the last one down to center,
      each pair taken when the test finds no conflict.  st holds the loop
      variables child, heads and backs. */
  method ScanRowAsWritten(p1: seq<Gene>, p2: seq<Gene>, center: int, i: int, st0: ScanState, ghost pairs0: seq<(int, int)>)
    returns (st: ScanState, ghost pairs: seq<(int, int)>)
    requires 0 <= i < center && i < |p1|
    requires TemplateStateAsWritten(p1, p2, center, i, st0.child, st0.heads, st0.backs, pairs0)
    ensures TemplateStateAsWritten(p1, p2, center, i + 1, st.child, st.heads, st.backs, pairs)
    ensures st == ScanRow(p1, p2, center, i, |p2| - 1, st0, false)
  {
    st, pairs := st0, pairs0;
    var j := |p2| - 1;
    ghost var target := ScanRow(p1, p2, center, i, j, st, false);
    while j >= center
      invariant TemplateStateAsWritten(p1, p2, center, i + 1, st.child, st.heads, st.backs, pairs)
      invariant ScanTracks(p1, p2, center, i, j, st, target, false)
      decreases j - center + 1
    {
      AcceptAsWritten(p1, p2, center, i, j, st, pairs);
      st, pairs, j := ScanStepAsWritten(p1, p2, center, i, j, st, pairs, target);
    }
  }

  /** PlaceKeepsAsWritten on the scan state: one pass of the inner loop keeps the invariant. */
  lemma AcceptAsWritten(p1: seq<Gene>, p2: seq<Gene>, center: int, i: int, j: int, st: ScanState, pairs: seq<(int, int)>)
    requires 0 <= i < center && i < |p1| && center <= j < |p2|
    requires TemplateStateAsWritten(p1, p2, center, i + 1, st.child, st.heads, st.backs, pairs)
    ensures var s := if Conflict(false, p1[i], p2[j], st) then st else Accept(st, i, j, p1[i], p2[j]);
            TemplateStateAsWritten(p1, p2, center, i + 1, s.child, s.heads, s.backs,
                    if Conflict(false, p1[i], p2[j], st) then pairs else pairs + [(i, j)])
  {
    if !Conflict(false, p1[i], p2[j], st) {
      PlaceKeepsAsWritten(p1, p2, center, i, j, st.child, st.heads, st.backs, pairs);
    }
  }

  /** One pass of that inner loop: the pair (i, j) is taken when the test
      finds no conflict. */
  method ScanStepAsWritten(p1: seq<Gene>, p2: seq<Gene>, center: int, i: int, j: int, st0: ScanState,
                           ghost pairs0: seq<(int, int)>, ghost target: ScanState)
    returns (st: ScanState, ghost pairs: seq<(int, int)>, next: int)
    requires center <= j && ScanTracks(p1, p2, center, i, j, st0, target, false)
    ensures st == if Conflict(false, p1[i], p2[j], st0) then st0 else Accept(st0, i, j, p1[i], p2[j])
    ensures pairs == if Conflict(false, p1[i], p2[j], st0) then pairs0 else pairs0 + [(i, j)]
    ensures next == j - 1 && ScanTracks(p1, p2, center, i, next, st, target, false)
  {
    ScanTracksStep(p1, p2, center, i, j, st0, target, false);
    next := j - 1;
    if !Conflict(false, p1[i], p2[j], st0) {
      st := Accept(st0, i, j, p1[i], p2[j]);
      pairs := pairs0 + [(i, j)];
    } else {
      st, pairs := st0, pairs0;
    }
  }

  /** The shape of the as-written result once the loops are done: it
      inherits from the parents, and it is a well-formed template when both
      parents are well formed. */
  lemma TemplateShapeAsWritten(p1: seq<Gene>, p2: seq<Gene>, center: int, r: seq<Slot>, pairs: seq<(int, int)>)
    requires |r| == |p1| && |p2| <= |p1|
    requires pairs == [] ==> r == Lift(p1)
    requires pairs != [] ==> DistinctBacks(r) && Halves(p1, p2, center, r)
    ensures Inherits(p1, p2, center, r)
    ensures WellFormed(|p1| + 1, p1) && WellFormed(|p1| + 1, p2) ==> TemplateWellFormed(|p1| + 1, r)
  {
    if pairs == [] && WellFormed(|p1| + 1, p1) {
      WellFormedLift(|p1| + 1, p1);
    }
  }

  /** crossover: two children over n = len(parent1) + 1 leaves, from the two
      templates with the parents' roles swapped, each completed by
      individual_create.  Each template is copied into its own array (the
      source hands individual_create a fresh list, or parent1's list with no
      free slot, so the in-place fill is not visible to the caller).  Two
      well-formed parents always give two well-formed children. */
  method Crossover(parent1: Individual, parent2: Individual, center: int)
    returns (child1: Result<Individual>, child2: Result<Individual>, ghost t1: seq<Slot>, ghost t2: seq<Slot>)
    requires 0 <= center && |parent1.genes| == |parent2.genes|
    ensures Inherits(parent1.genes, parent2.genes, center, t1)
    ensures Inherits(parent2.genes, parent1.genes, center, t2)
    ensures t1 == ChildTemplate(parent1.genes, parent2.genes, center, false)
    ensures t2 == ChildTemplate(parent2.genes, parent1.genes, center, false)
    ensures child1.Success? && child2.Success?
    ensures child1.value.fitness == 0.0 && ChildOf(parent1.genes, parent2.genes, center, child1.value.genes)
    ensures child2.value.fitness == 0.0 && ChildOf(parent2.genes, parent1.genes, center, child2.value.genes)
    ensures child1.Success? <==> Completable(|parent1.genes| + 1, t1)
    ensures child2.Success? <==> Completable(|parent1.genes| + 1, t2)
    ensures child1.Success? ==>
      child1.value.fitness == 0.0 && Completes(|parent1.genes| + 1, t1, child1.value.genes)
    ensures child2.Success? ==>
      child2.value.fitness == 0.0 && Completes(|parent1.genes| + 1, t2, child2.value.genes)
    ensures WellFormed(|parent1.genes| + 1, parent1.genes) && WellFormed(|parent1.genes| + 1, parent2.genes) ==>
      && child1.Success? && WellFormed(|parent1.genes| + 1, child1.value.genes)
      && child2.Success? && WellFormed(|parent1.genes| + 1, child2.value.genes)
  {
    var n := |parent1.genes| + 1;
    var template1, template2;
    ghost var pairs1, pairs2;
    template1, pairs1 := GenerateChildTemplateAsWritten(parent1.genes, parent2.genes, center);
    template2, pairs2 := GenerateChildTemplateAsWritten(parent2.genes, parent1.genes, center);
    t1, t2 := template1, template2;
    child1 := Build(n, template1);
    child2 := Build(n, template2);
  }

  /** individual_create on a copy of the template t over n leaves. */
  method Build(n: int, t: seq<Slot>) returns (r: Result<Individual>)
    requires |t| == n - 1
    ensures r.Success? && Completable(n, t)
    ensures r.Success? <==> Completable(n, t)
    ensures r.Success? ==> r.value.fitness == 0.0 && Completes(n, t, r.value.genes)
    ensures TemplateWellFormed(n, t) ==> r.Success? && WellFormed(n, r.value.genes)
  {
    var a := new Slot[|t|](k requires 0 <= k < |t| => t[k]);
    assert a[..] == t;
    r := IndividualCreate(n, a);
    AnyTemplateCompletable(n, t);
    if TemplateWellFormed(n, t) {
      TemplateCompletable(n, t);
      if r.Success? {
        CompletesWellFormed(n, t, r.value.genes);
      }
    }
  }

  /** The defect of check_genes as written.  For two valid parents over seven
      leaves and center 3, the scan for parent1's gene 0, (1, 2), rejects
      parent2's genes 5 and 4 and accepts gene 3, (0, 6).  From that state
      the test as written accepts parent1's gene 1, (3, 4), with parent2's
      gene 4, (2, 5), although node 2 was consumed in slot 0: the template
      stops being valid.  The corrected test rejects the pair. */
  lemma CheckGenesAsWrittenAcceptsConsumedHead()
    ensures
      var p1 := [Gene(1, 2), Gene(3, 4), Gene(5, 6), Gene(1, 3), Gene(1, 5), Gene(0, 1)];
      var p2 := [Gene(0, 1), Gene(3, 4), Gene(0, 3), Gene(0, 6), Gene(2, 5), Gene(0, 2)];
      var empty: seq<Slot> := seq(6, _ => None);
      var child := empty[0 := Some(p1[0])][3 := Some(p2[3])];
      var heads, backs := [1, 0], [2, 6];
      && ValidChromosome(p1) && ValidChromosome(p2)
      && CheckGenesAsWritten(p1[0], p2[5], empty, [], [])
      && CheckGenesAsWritten(p1[0], p2[4], empty, [], [])
      && !CheckGenesAsWritten(p1[0], p2[3], empty, [], [])
      && ValidTemplate(child)
      && CheckGenesAsWritten(p1[1], p2[5], child, heads, backs)
      && !CheckGenesAsWritten(p1[1], p2[4], child, heads, backs)
      && !ValidTemplate(child[1 := Some(p1[1])][4 := Some(p2[4])])
      && CheckGenes(p1[1], p2[4], child, heads, backs)
  {
    var p1 := [Gene(1, 2), Gene(3, 4), Gene(5, 6), Gene(1, 3), Gene(1, 5), Gene(0, 1)];
    var p2 := [Gene(0, 1), Gene(3, 4), Gene(0, 3), Gene(0, 6), Gene(2, 5), Gene(0, 2)];
    var empty: seq<Slot> := seq(6, _ => None);
    var child := empty[0 := Some(p1[0])][3 := Some(p2[3])];
    var bad := child[1 := Some(p1[1])][4 := Some(p2[4])];
    assert bad[0].value.back == bad[4].value.head;
    assert Some(p1[1]) !in child && Some(p2[4]) !in child by {
      assert forall k :: 0 <= k < |child| ==> child[k] == empty[k] || k == 0 || k == 3;
    }
  }

  /** The parents of the input of CheckGenesAsWrittenAcceptsConsumedHead,
      and the states the scan passes through on them with center 3: after
      parent1's gene 0, and after gene 1 as written. */
  const FindingsP1: seq<Gene> := [Gene(1, 2), Gene(3, 4), Gene(5, 6), Gene(1, 3), Gene(1, 5), Gene(0, 1)]
  const FindingsP2: seq<Gene> := [Gene(0, 1), Gene(3, 4), Gene(0, 3), Gene(0, 6), Gene(2, 5), Gene(0, 2)]
  const FindingsRow0: ScanState := ScanState([Some(Gene(1, 2)), None, None, Some(Gene(0, 6)), None, None], [1, 0], [2, 6])
  const FindingsRow1: ScanState :=
    ScanState([Some(Gene(1, 2)), Some(Gene(3, 4)), None, Some(Gene(0, 6)), Some(Gene(2, 5)), None], [1, 0, 3, 2], [2, 6, 4, 5])

  /** Parent1's gene 0 rejects parent2's genes 5 and 4 and takes gene 3,
      under either test. */
  lemma FindingsRowZero(corrected: bool)
    ensures ScanRow(FindingsP1, FindingsP2, 3, 0, 5, StartState(6), corrected) == FindingsRow0
  {
    var p1, p2, e := FindingsP1, FindingsP2, StartState(6);
    assert e.child == [None, None, None, None, None, None];
    assert Conflict(corrected, p1[0], p2[5], e) && Conflict(corrected, p1[0], p2[4], e);
    assert !Conflict(corrected, p1[0], p2[3], e);
    assert Accept(e, 0, 3, p1[0], p2[3]) == FindingsRow0;
  }

  /** As written, parent1's gene 1 takes parent2's gene 4, (2, 5). */
  lemma FindingsRowOneAsWritten()
    ensures ScanRow(FindingsP1, FindingsP2, 3, 1, 5, FindingsRow0, false) == FindingsRow1
  {
    var p1, p2, s := FindingsP1, FindingsP2, FindingsRow0;
    assert Conflict(false, p1[1], p2[5], s);
    assert !Conflict(false, p1[1], p2[4], s);
    assert Accept(s, 1, 4, p1[1], p2[4]) == FindingsRow1;
    assert Some(p2[3]) in FindingsRow1.child;
    assert Conflict(false, p1[1], p2[3], FindingsRow1);
  }

  /** With the corrected test parent1's gene 1 finds no partner: the head 2
      of (2, 5) was consumed by gene 0. */
  lemma FindingsRowOneCorrected()
    ensures ScanRow(FindingsP1, FindingsP2, 3, 1, 5, FindingsRow0, true) == FindingsRow0
  {
    var p1, p2, s := FindingsP1, FindingsP2, FindingsRow0;
    assert Conflict(true, p1[1], p2[5], s) && Conflict(true, p1[1], p2[4], s);
    assert Some(p2[3]) in s.child;
    assert Conflict(true, p1[1], p2[3], s);
  }

  /** Parent1's gene 2, (5, 6), consumes node 6, which is consumed already. */
  lemma FindingsRowTwo(s: ScanState, corrected: bool)
    requires |s.child| == 6 && 6 in s.backs
    ensures ScanRow(FindingsP1, FindingsP2, 3, 2, 5, s, corrected) == s
  {
    var p1, p2 := FindingsP1, FindingsP2;
    assert Conflict(corrected, p1[2], p2[5], s) && Conflict(corrected, p1[2], p2[4], s) && Conflict(corrected, p1[2], p2[3], s);
  }

  /** The templates of the greedy scan on that input.  As written the
      template is invalid, since node 2 is consumed in slot 0 and heads
      slot 4; with the corrected test it is valid. */
  lemma ChildTemplateOnFindingsInput()
    ensures ChildTemplate(FindingsP1, FindingsP2, 3, false)
      == [Some(Gene(1, 2)), Some(Gene(3, 4)), None, Some(Gene(0, 6)), Some(Gene(2, 5)), None]
    ensures !ValidTemplate(ChildTemplate(FindingsP1, FindingsP2, 3, false))
    ensures ChildTemplate(FindingsP1, FindingsP2, 3, true) == [Some(Gene(1, 2)), None, None, Some(Gene(0, 6)), None, None]
    ensures ValidTemplate(ChildTemplate(FindingsP1, FindingsP2, 3, true))
  {
    var p1, p2, e := FindingsP1, FindingsP2, StartState(6);
    FindingsRowZero(false);
    FindingsRowOneAsWritten();
    FindingsRowTwo(FindingsRow1, false);
    assert ScanRows(p1, p2, 3, 0, e, false) == FindingsRow1 by {
      assert ScanRows(p1, p2, 3, 3, FindingsRow1, false) == FindingsRow1;
    }
    var bad := ChildTemplate(p1, p2, 3, false);
    assert bad[0].value.back == bad[4].value.head;
    FindingsRowZero(true);
    FindingsRowOneCorrected();
    FindingsRowTwo(FindingsRow0, true);
    assert ScanRows(p1, p2, 3, 0, e, true) == FindingsRow0 by {
      assert ScanRows(p1, p2, 3, 3, FindingsRow0, true) == FindingsRow0;
    }
  }
}

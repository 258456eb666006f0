/** The chromosome representation of a binary tree over the leaves 0..n-1
    (tools/population_creator.py): a chromosome is a sequence of n-1 merge
    genes, and a gene (head, back) merges cluster `back` into cluster `head`.
    The second node of a gene is "consumed" by the merge.  This module holds
    the shared types, the validity predicates and small facts about sets. */
module Chromosome {

  datatype Option<+T> = None | Some(value: T)

  /** The ways an operation of the algorithm can fail instead of returning. */
  datatype Error =
    | EmptyChoice        // random.choice over an empty candidate array raises ValueError
    | NoDistinctPartner  // one candidate left: the re-draw of the second node never ends
    | NoDistinctContestants  // fewer than three indices: the re-draw of three distinct ones never ends
    | EmptyRange         // randint(a, b) with a > b raises ValueError
    | EmptyMin           // min() of an empty list raises ValueError
    | Unassigned         // a variable is read before it was ever assigned
    | IndexOutOfRange    // a list is indexed past its end, which raises IndexError

  datatype Result<+T> = Success(value: T) | Failure(error: Error)

  /** A merge step: the cluster named `back` joins the cluster named `head`. */
  datatype Gene = Gene(head: int, back: int)

  /** A template slot: a fixed gene, or None for a gene still to be built. */
  type Slot = Option<Gene>

  /** An individual is its chromosome plus its fitness value (0 until scored). */
  datatype Individual = Individual(genes: seq<Gene>, fitness: real)

  /** The leaves 0..n-1 (numpy's arange(n), empty when n <= 0). */
  function Range(n: int): set<int>
  {
    if n <= 0 then {} else Range(n - 1) + {n - 1}
  }

  lemma {:induction false} RangeMembers(n: int)
    ensures forall x :: x in Range(n) <==> 0 <= x < n
  {
    if n > 0 {
      RangeMembers(n - 1);
    }
  }

  /** Some member of a non-empty set of leaves (the witness behind a random
      draw from it). */
  lemma {:induction false} MemberOf(s: set<int>, n: int) returns (w: int)
    requires s != {} && s <= Range(n)
    ensures w in s
  {
    if n <= 0 {
      assert false;
    } else if n - 1 in s {
      w := n - 1;
    } else {
      w := MemberOf(s, n - 1);
    }
  }

  /** Every slot of the template holds the corresponding gene. */
  function Lift(c: seq<Gene>): (t: seq<Slot>)
    ensures |t| == |c|
    ensures forall k :: 0 <= k < |c| ==> t[k] == Some(c[k])
  {
    seq(|c|, k requires 0 <= k < |c| => Some(c[k]))
  }

  /** The chromosome held by a template whose slots are all filled. */
  function Unlift(t: seq<Slot>): (c: seq<Gene>)
    requires forall k :: 0 <= k < |t| ==> t[k].Some?
    ensures Lift(c) == t
  {
    seq(|t|, k requires 0 <= k < |t| => t[k].value)
  }

  /** A node consumed by a gene appears in no later gene. */
  predicate ValidChromosome(c: seq<Gene>)
  {
    forall p, q :: 0 <= p < q < |c| ==> c[p].back != c[q].head && c[p].back != c[q].back
  }

  /** The same rule over the fixed genes of a template; empty slots impose nothing. */
  predicate ValidTemplate(t: seq<Slot>)
  {
    forall p, q :: 0 <= p < q < |t| && t[p].Some? && t[q].Some? ==>
      t[p].value.back != t[q].value.head && t[p].value.back != t[q].value.back
  }

  /** Both nodes are leaves of 0..n-1 and the smaller one comes first. */
  predicate Ordered(g: Gene, n: int)
  {
    0 <= g.head < g.back < n
  }

  /** Every gene mentions two distinct nodes. */
  predicate DistinctNodes(c: seq<Gene>)
  {
    forall k :: 0 <= k < |c| ==> c[k].head != c[k].back
  }

  /** The nodes consumed by the genes of c. */
  function Consumed(c: seq<Gene>): set<int>
  {
    if c == [] then {} else Consumed(c[..|c| - 1]) + {c[|c| - 1].back}
  }

  lemma ConsumedAppend(c: seq<Gene>, g: Gene)
    ensures Consumed(c + [g]) == Consumed(c) + {g.back}
  {
    assert (c + [g])[..|c|] == c;
  }

  /** Consumed holds the back of every gene and nothing else. */
  lemma {:induction false} ConsumedMembers(c: seq<Gene>)
    ensures forall p :: 0 <= p < |c| ==> c[p].back in Consumed(c)
    ensures forall x :: x in Consumed(c) ==> exists p :: 0 <= p < |c| && c[p].back == x
  {
    if c != [] {
      var c' := c[..|c| - 1];
      ConsumedMembers(c');
      assert forall p :: 0 <= p < |c'| ==> c'[p] == c[p];
    }
  }

  /** The shape every chromosome of the algorithm keeps: n-1 ordered genes over
      0..n-1 which consume pairwise distinct nodes.  (Template completion does
      not guarantee ValidChromosome, only this.) */
  predicate WellFormed(n: int, c: seq<Gene>)
  {
    && |c| == n - 1
    && (forall k :: 0 <= k < |c| ==> Ordered(c[k], n))
    && (forall p, q :: 0 <= p < q < |c| ==> c[p].back != c[q].back)
  }

  /** The shape of a template for n leaves: n-1 slots whose fixed genes are
      ordered and consume pairwise distinct nodes. */
  predicate TemplateWellFormed(n: int, t: seq<Slot>)
  {
    && |t| == n - 1
    && (forall k :: 0 <= k < |t| && t[k].Some? ==> Ordered(t[k].value, n))
    && (forall p, q :: 0 <= p < q < |t| && t[p].Some? && t[q].Some? ==> t[p].value.back != t[q].value.back)
  }

  lemma WellFormedLift(n: int, c: seq<Gene>)
    requires WellFormed(n, c)
    ensures TemplateWellFormed(n, Lift(c))
  {
  }

  lemma {:induction false} RangeCard(n: int)
    ensures |Range(n)| == if n > 0 then n else 0
  {
    if n > 0 {
      RangeCard(n - 1);
      RangeMembers(n - 1);
    }
  }

  lemma SubsetCard<T>(a: set<T>, b: set<T>)
    requires a <= b
    ensures |a| <= |b|
  {
    assert |b - a| == |b| - |a|;
  }

  /** A set of one element holds only that element. */
  lemma SingletonMember<T>(s: set<T>, x: T, y: T)
    requires |s| == 1 && x in s && y in s
    ensures x == y
  {
    if x != y {
      SubsetCard({x, y}, s);
    }
  }
}

/** The fitness of an individual (fitness.py).  The chromosome is expanded
    into a sequence of entries, one per gene, whose two sides name the leaves
    of the two clusters merged by that gene; from the reference table of
    proximities between leaves a table for the individual is built by
    overwriting, for every gene that merges a composite cluster, the block
    A x B (and B x A) with the mean of the reference cells of that block; the
    fitness is the sum of the squared differences to the reference table.
    Proximities are reals; the reference table is a parameter (the source
    reads the global STANDARD, defined here as Standard()). */
module Fitness {
  import opened Chromosome

  /** A side of an entry: a single leaf (an int in the source) or the flat
      list of leaves of a composite cluster. */
  datatype Side = Leaf(node: int) | Flat(nodes: seq<int>)

  /** An entry of the sequence: the list its gene became (two sides). */
  type Entry = seq<Side>

  /** An n x n table of proximities. */
  predicate IsSquare(m: seq<seq<real>>)
  {
    forall i :: 0 <= i < |m| ==> |m[i]| == |m|
  }

  predicate Symmetric(m: seq<seq<real>>)
    requires IsSquare(m)
  {
    forall i, j :: 0 <= i < |m| && 0 <= j < |m| ==> m[i][j] == m[j][i]
  }

  /** symmetrify: m + m.T - diag(m); the result mirrors the table about the
      main diagonal, which it keeps. */
  function Symmetrify(m: seq<seq<real>>): (r: seq<seq<real>>)
    requires IsSquare(m)
    ensures |r| == |m| && IsSquare(r) && Symmetric(r)
    ensures forall i :: 0 <= i < |m| ==> r[i][i] == m[i][i]
    ensures forall i, j :: 0 <= i < |m| && 0 <= j < |m| && i != j ==> r[i][j] == m[i][j] + m[j][i]
  {
    seq(|m|, i requires 0 <= i < |m| =>
      seq(|m|, j requires 0 <= j < |m| => m[i][j] + m[j][i] - (if i == j then m[i][i] else 0.0)))
  }

  /** The upper triangle of the reference table of the source. */
  const Upper: seq<seq<real>> :=
    [[1.0, 0.905, 0.887, 0.817, 0.788],
     [0.0, 1.0, 0.882, 0.799, 0.775],
     [0.0, 0.0, 1.0, 0.805, 0.775],
     [0.0, 0.0, 0.0, 1.0, 0.778],
     [0.0, 0.0, 0.0, 0.0, 1.0]]

  /** STANDARD: the symmetric 5 x 5 reference table. */
  function Standard(): (r: seq<seq<real>>)
    ensures |r| == 5 && IsSquare(r) && Symmetric(r)
  {
    Symmetrify(Upper)
  }

  /** Symmetrify copies an upper-triangular table onto its lower half. */
  lemma SymmetrifyUpper(m: seq<seq<real>>)
    requires IsSquare(m)
    requires forall i, j :: 0 <= j < i < |m| ==> m[i][j] == 0.0
    ensures forall i, j :: 0 <= i <= j < |m| ==> Symmetrify(m)[i][j] == m[i][j] && Symmetrify(m)[j][i] == m[i][j]
  {
  }

  /** Every proximity of STANDARD lies in [0, 1] and its diagonal is 1. */
  lemma StandardUnit()
    ensures forall i, j :: 0 <= i < 5 && 0 <= j < 5 ==> 0.0 <= Standard()[i][j] <= 1.0
    ensures forall i :: 0 <= i < 5 ==> Standard()[i][i] == 1.0
  {
    SymmetrifyUpper(Upper);
  }

  /** The leaves a side stands for. */
  function Nodes(s: Side): seq<int>
  {
    match s
    case Leaf(x) => [x]
    case Flat(xs) => xs
  }

  /** The leaves of all sides of an entry, in order. */
  function Flatten(e: Entry): seq<int>
  {
    if e == [] then [] else Nodes(e[0]) + Flatten(e[1..])
  }

  /** check_if_simple: neither side is a list. */
  function CheckIfSimple(gen: Entry): (r: bool)
    requires |gen| == 2
    ensures r ==> |Flatten(gen)| == 2
  {
    assert gen == [gen[0], gen[1]];
    FlattenPair(gen[0], gen[1]);
    gen[0].Leaf? && gen[1].Leaf?
  }

  /** get_gen: every int side becomes a one-element list and every list side
      is kept, so that both sides can be iterated. */
  method GetGen(gen: Entry) returns (r: seq<seq<int>>)
    ensures |r| == |gen|
    ensures forall k :: 0 <= k < |gen| && gen[k].Leaf? ==> r[k] == [gen[k].node]
    ensures forall k :: 0 <= k < |gen| && gen[k].Flat? ==> r[k] == gen[k].nodes
  {
    r := [];
    for k := 0 to |gen|
      invariant |r| == k
      invariant forall m :: 0 <= m < k ==> r[m] == Nodes(gen[m])
    {
      var piece := gen[k];
      if piece.Leaf? {
        r := r + [[piece.node]];
      } else {
        r := r + [piece.nodes];
      }
    }
  }

  /** np.shape of a side: () for an int, (len,) for a list. */
  function Shape(s: Side): seq<int>
  {
    match s
    case Leaf(_) => []
    case Flat(xs) => [|xs|]
  }

  /** get_flat: the leaves of an entry without brackets.  With sides of
      equal shape numpy reshapes the entry row by row; otherwise lists are
      unpacked and ints appended one side after the other. */
  method GetFlat(gen: Entry) returns (r: seq<int>)
    requires |gen| == 2
    ensures r == Nodes(gen[0]) + Nodes(gen[1])
  {
    if Shape(gen[0]) == Shape(gen[1]) {
      return Nodes(gen[0]) + Nodes(gen[1]);
    }
    var result: seq<int> := [];
    for k := 0 to |gen|
      invariant result == Flatten(gen[..k])
    {
      assert gen[..k + 1] == gen[..k] + [gen[k]];
      FlattenAppend(gen[..k], gen[k]);
      var piece := gen[k];
      if piece.Flat? {
        for m := 0 to |piece.nodes|
          invariant result == Flatten(gen[..k]) + piece.nodes[..m]
        {
          assert piece.nodes[..m + 1] == piece.nodes[..m] + [piece.nodes[m]];
          result := result + [piece.nodes[m]];
        }
      } else {
        result := result + [piece.node];
      }
    }
    assert gen[..2] == gen;
    assert Flatten(gen[1..][1..]) == [];
    if result == [] {
      assert false;
    }
    r := result;
  }

  lemma {:induction false} FlattenAppend(e: Entry, s: Side)
    ensures Flatten(e + [s]) == Flatten(e) + Nodes(s)
  {
    if e != [] {
      assert (e + [s])[1..] == e[1..] + [s];
      FlattenAppend(e[1..], s);
    }
  }

  /** The side a node is replaced with: the flat leaves of the entry it is
      bound to, or the node itself. */
  function Lookup(leaves: map<int, Entry>, node: int): (s: Side)
    ensures node !in leaves ==> s == Leaf(node)
    ensures s.Leaf? <==> node !in leaves
  {
    if node in leaves then Flat(Flatten(leaves[node])) else Leaf(node)
  }

  /** The keys xs bound to the same list e: each sees its current contents. */
  function Rebind(leaves: map<int, Entry>, xs: seq<int>, e: Entry): (r: map<int, Entry>)
    ensures forall x :: x in xs ==> x in r && r[x] == e
    ensures forall x :: x !in xs ==> (x in r <==> x in leaves) && (x in leaves ==> r[x] == leaves[x])
  {
    if xs == [] then leaves else Rebind(leaves, xs[..|xs| - 1], e)[xs[|xs| - 1] := e]
  }

  /** One iteration of get_seq over gene g: the head is replaced by what it
      is bound to and bound to the entry; then the back is looked up (seeing
      the entry itself when it equals the head, since the dictionary holds
      the list and not a copy) and bound likewise. */
  function ExpandGene(leaves: map<int, Entry>, g: Gene): (Entry, map<int, Entry>)
  {
    var s0 := Lookup(leaves, g.head);
    var s1 := Lookup(leaves[g.head := [s0, Leaf(g.back)]], g.back);
    ([s0, s1], leaves[g.head := [s0, s1]][g.back := [s0, s1]])
  }

  /** get_seq over the genes of c, in order: the entries and the dictionary. */
  function Expand(c: seq<Gene>): (r: (seq<Entry>, map<int, Entry>))
    ensures |r.0| == |c|
    ensures forall x :: x in r.1 ==> |r.1[x]| == 2
  {
    if c == [] then ([], map[])
    else
      var prev := Expand(c[..|c| - 1]);
      var step := ExpandGene(prev.1, c[|c| - 1]);
      (prev.0 + [step.0], step.1)
  }

  /** get_seq: each gene becomes a list of its two nodes; then, gene by gene
      and side by side, a node already bound in `leaves` is replaced by the
      flat leaves of its entry, and the node is bound to the gene's list. */
  method GetSeq(individual: seq<Gene>) returns (sequence: seq<Entry>)
    ensures sequence == Expand(individual).0
  {
    var leaves: map<int, Entry> := map[];
    sequence := seq(|individual|, m requires 0 <= m < |individual| =>
      [Leaf(individual[m].head), Leaf(individual[m].back)]);
    for i := 0 to |individual|
      invariant |sequence| == |individual|
      invariant sequence[..i] == Expand(individual[..i]).0 && leaves == Expand(individual[..i]).1
      invariant forall m :: i <= m < |individual| ==>
        sequence[m] == [Leaf(individual[m].head), Leaf(individual[m].back)]
    {
      var entry, bound := ExpandInPlace(sequence[i], leaves);
      sequence := sequence[i := entry];
      leaves := bound;
      assert individual[..i + 1][..i] == individual[..i];
      assert sequence[..i + 1] == sequence[..i] + [sequence[i]];
    }
    assert individual[..|individual|] == individual;
    assert sequence[..|individual|] == sequence;
  }

  /** The pass of get_seq over one entry, still the list [head, back] of
      its gene: side by side, a node bound in `leaves` is replaced by the flat
      leaves of its entry, and the node is bound to this entry; a key bound
      earlier in the pass refers to the same list and sees its later
      changes. */
  method ExpandInPlace(gen: Entry, leaves: map<int, Entry>) returns (entry: Entry, bound: map<int, Entry>)
    requires |gen| == 2 && gen[0].Leaf? && gen[1].Leaf?
    requires forall x :: x in leaves ==> |leaves[x]| == 2
    ensures (entry, bound) == ExpandGene(leaves, Gene(gen[0].node, gen[1].node))
  {
    ghost var g := Gene(gen[0].node, gen[1].node);
    entry, bound := gen, leaves;
    var aliases: seq<int> := [];
    for k := 0 to 2
      invariant k == 0 ==> entry == gen && bound == leaves && aliases == []
      invariant k == 1 ==>
        && entry == [Lookup(leaves, g.head), Leaf(g.back)]
        && bound == leaves[g.head := entry] && aliases == [g.head]
      invariant k == 2 ==> (entry, bound) == ExpandGene(leaves, g)
    {
      ghost var before := bound;
      entry, bound, aliases := ExpandSide(entry, bound, aliases, k);
      if k == 0 {
        RebindPrefix(before, aliases, entry);
      } else {
        RebindPrefix(before, aliases, entry);
        ExpandGeneSteps(leaves, g, entry);
      }
    }
  }

  /** ExpandGene as the two side steps of the inner loop: the entry after the
      back's lookup, and the dictionary with both keys bound to it. */
  lemma ExpandGeneSteps(leaves: map<int, Entry>, g: Gene, entry: Entry)
    requires |entry| == 2 && entry[0] == Lookup(leaves, g.head)
    requires entry[1] == Lookup(leaves[g.head := [Lookup(leaves, g.head), Leaf(g.back)]], g.back)
    ensures (entry, leaves[g.head := [Lookup(leaves, g.head), Leaf(g.back)]][g.head := entry][g.back := entry])
      == ExpandGene(leaves, g)
  {
    assert entry == [entry[0], entry[1]];
    var e1 := [Lookup(leaves, g.head), Leaf(g.back)];
    assert leaves[g.head := e1][g.head := entry] == leaves[g.head := entry];
  }

  /** The body of get_seq's inner loop for side k of an entry: a bound node is
      replaced by the flat leaves of its entry, the node joins the keys bound
      to this entry, and all of them are rebound to its new contents. */
  method ExpandSide(entry: Entry, bound: map<int, Entry>, aliases: seq<int>, k: int)
      returns (entry': Entry, bound': map<int, Entry>, aliases': seq<int>)
    requires 0 <= k < |entry| && entry[k].Leaf?
    requires forall x :: x in bound ==> |bound[x]| == 2
    ensures entry' == entry[k := Lookup(bound, entry[k].node)]
    ensures aliases' == aliases + [entry[k].node]
    ensures bound' == Rebind(bound, aliases', entry')
  {
    entry' := entry;
    var node := entry[k].node;
    if node in bound {
      var temp := bound[node];
      var flat := GetFlat(temp);
      LookupPair(bound, node);
      entry' := entry[k := Flat(flat)];
    }
    aliases' := aliases + [node];
    bound' := Rebind(bound, aliases', entry');
  }

  /** get_flat on the pair a bound node refers to gives the side Lookup
      replaces the node with. */
  lemma LookupPair(leaves: map<int, Entry>, node: int)
    requires node in leaves && |leaves[node]| == 2
    ensures Lookup(leaves, node) == Flat(Nodes(leaves[node][0]) + Nodes(leaves[node][1]))
  {
    var e := leaves[node];
    assert e == [e[0], e[1]];
    FlattenPair(e[0], e[1]);
  }

  /** Binding one or two keys to the same list, written out. */
  lemma RebindPrefix(leaves: map<int, Entry>, xs: seq<int>, e: Entry)
    requires 1 <= |xs| <= 2
    ensures |xs| == 1 ==> Rebind(leaves, xs, e) == leaves[xs[0] := e]
    ensures |xs| == 2 ==> Rebind(leaves, xs, e) == leaves[xs[0] := e][xs[1] := e]
  {
    assert xs[..|xs| - 1][..0] == [];
    if |xs| == 2 {
      assert xs[..1] == [xs[0]];
    }
  }

  /** The nodes mentioned by the genes of c. */
  function Mentioned(c: seq<Gene>): set<int>
  {
    if c == [] then {} else Mentioned(c[..|c| - 1]) + {c[|c| - 1].head, c[|c| - 1].back}
  }

  /** The leaves of the cluster called x once the genes of c are merged: a
      gene joins the clusters of its head and its back, and both names then
      denote the union. */
  function Cluster(c: seq<Gene>, x: int): set<int>
  {
    if c == [] then {x}
    else
      var g := c[|c| - 1];
      var c' := c[..|c| - 1];
      if x == g.head || x == g.back then Cluster(c', g.head) + Cluster(c', g.back) else Cluster(c', x)
  }

  /** The values of a list of leaves, as a set. */
  function Elements(s: seq<int>): set<int>
  {
    if s == [] then {} else {s[0]} + Elements(s[1..])
  }

  lemma {:induction false} ElementsAppend(a: seq<int>, b: seq<int>)
    ensures Elements(a + b) == Elements(a) + Elements(b)
  {
    if a != [] {
      assert (a + b)[1..] == a[1..] + b;
      ElementsAppend(a[1..], b);
    } else {
      assert a + b == b;
    }
  }

  /** A dictionary that binds exactly the mentioned nodes, each to an entry
      whose leaves are its cluster. */
  ghost predicate Tracks(c: seq<Gene>, leaves: map<int, Entry>)
  {
    && (forall x :: x in leaves <==> x in Mentioned(c))
    && (forall x :: x in leaves ==> Elements(Flatten(leaves[x])) == Cluster(c, x))
  }

  /** A node stands for its cluster: under a tracking dictionary, the side
      it is replaced with holds the leaves of its cluster. */
  lemma LookupCluster(c: seq<Gene>, leaves: map<int, Entry>, x: int)
    requires Tracks(c, leaves)
    ensures Elements(Nodes(Lookup(leaves, x))) == Cluster(c, x)
  {
    if x !in leaves {
      MentionedCluster(c, x);
      assert Elements([x]) == {x} by {
        assert [x][1..] == [];
      }
    }
  }

  /** A node no gene mentions is a leaf on its own. */
  lemma {:induction false} MentionedCluster(c: seq<Gene>, x: int)
    requires x !in Mentioned(c)
    ensures Cluster(c, x) == {x}
  {
    if c != [] {
      MentionedCluster(c[..|c| - 1], x);
    }
  }

  lemma FlattenPair(s0: Side, s1: Side)
    ensures Flatten([s0, s1]) == Nodes(s0) + Nodes(s1)
  {
    assert [s0, s1][1..] == [s1];
    assert [s1][1..] == [];
    assert Flatten([s1]) == Nodes(s1) + Flatten([]);
  }

  /** When a gene mentions two distinct nodes, one iteration of get_seq keeps
      the dictionary tracking the clusters, and its entry's sides stand for
      the clusters of the head and the back being merged. */
  lemma ExpandGeneTracks(c: seq<Gene>, leaves: map<int, Entry>, g: Gene)
    requires Tracks(c, leaves) && g.head != g.back
    ensures Tracks(c + [g], ExpandGene(leaves, g).1)
    ensures Elements(Nodes(ExpandGene(leaves, g).0[0])) == Cluster(c, g.head)
    ensures Elements(Nodes(ExpandGene(leaves, g).0[1])) == Cluster(c, g.back)
  {
    var c2 := c + [g];
    assert c2[..|c2| - 1] == c;
    var s0 := Lookup(leaves, g.head);
    var s1 := Lookup(leaves[g.head := [s0, Leaf(g.back)]], g.back);
    assert s1 == Lookup(leaves, g.back);
    LookupCluster(c, leaves, g.head);
    LookupCluster(c, leaves, g.back);
    FlattenPair(s0, s1);
    ElementsAppend(Nodes(s0), Nodes(s1));
    var r := ExpandGene(leaves, g).1;
    forall x | x in r
      ensures Elements(Flatten(r[x])) == Cluster(c2, x)
    {
    }
  }

  /** get_seq's dictionary tracks the clusters of every prefix. */
  lemma {:induction false} ExpandTracks(c: seq<Gene>)
    requires DistinctNodes(c)
    ensures Tracks(c, Expand(c).1)
  {
    if c != [] {
      var c' := c[..|c| - 1];
      assert c == c' + [c[|c| - 1]];
      ExpandTracks(c');
      ExpandGeneTracks(c', Expand(c').1, c[|c| - 1]);
    }
  }

  /** Entry i of get_seq is computed from the dictionary after i genes. */
  lemma {:induction false} ExpandEntry(c: seq<Gene>, i: int)
    requires 0 <= i < |c|
    ensures Expand(c).0[i] == ExpandGene(Expand(c[..i]).1, c[i]).0
  {
    var c' := c[..|c| - 1];
    if i < |c| - 1 {
      ExpandEntry(c', i);
      assert c'[..i] == c[..i];
    } else {
      assert c' == c[..i];
    }
  }

  /** The sides of entry i are the leaves of the two clusters that gene i
      merges: the cluster of its head and that of its back after the genes
      before it. */
  lemma EntryClusters(c: seq<Gene>, i: int)
    requires DistinctNodes(c) && 0 <= i < |c|
    ensures |Expand(c).0[i]| == 2
    ensures Elements(Nodes(Expand(c).0[i][0])) == Cluster(c[..i], c[i].head)
    ensures Elements(Nodes(Expand(c).0[i][1])) == Cluster(c[..i], c[i].back)
  {
    ExpandEntry(c, i);
    assert DistinctNodes(c[..i]) by {
      assert forall k :: 0 <= k < i ==> c[..i][k] == c[k];
    }
    ExpandTracks(c[..i]);
    ExpandGeneTracks(c[..i], Expand(c[..i]).1, c[i]);
  }

  /** Entry i is simple exactly when neither node of gene i was mentioned by
      an earlier gene. */
  lemma SimpleIffFresh(c: seq<Gene>, i: int)
    requires DistinctNodes(c) && 0 <= i < |c|
    ensures |Expand(c).0[i]| == 2
    ensures CheckIfSimple(Expand(c).0[i]) <==> c[i].head !in Mentioned(c[..i]) && c[i].back !in Mentioned(c[..i])
  {
    ExpandEntry(c, i);
    assert DistinctNodes(c[..i]) by {
      assert forall k :: 0 <= k < i ==> c[..i][k] == c[k];
    }
    ExpandTracks(c[..i]);
    var l := Expand(c[..i]).1;
    var g := c[i];
    var s0 := Lookup(l, g.head);
    var s1 := Lookup(l[g.head := [s0, Leaf(g.back)]], g.back);
    assert Expand(c).0[i] == [s0, s1];
    assert g.head != g.back;
    assert s0.Leaf? <==> g.head !in Mentioned(c[..i]);
    assert s1.Leaf? <==> g.back !in Mentioned(c[..i]);
  }

  /** get_seq over one more gene extends the entries by that gene's. */
  lemma ExpandSnoc(c: seq<Gene>, g: Gene)
    ensures Expand(c + [g]) == (Expand(c).0 + [ExpandGene(Expand(c).1, g).0], ExpandGene(Expand(c).1, g).1)
  {
    assert (c + [g])[..|c|] == c;
  }

  /** The example of get_flat's documentation: after its first two genes,
      both simple, every node is bound to its own gene's list. */
  lemma GetSeqExampleStart()
    ensures Expand([Gene(0, 3), Gene(1, 4)]) ==
      ([[Leaf(0), Leaf(3)], [Leaf(1), Leaf(4)]],
       map[0 := [Leaf(0), Leaf(3)], 3 := [Leaf(0), Leaf(3)], 1 := [Leaf(1), Leaf(4)], 4 := [Leaf(1), Leaf(4)]])
  {
    var e1, e2 := [Leaf(0), Leaf(3)], [Leaf(1), Leaf(4)];
    ExpandSnoc([], Gene(0, 3));
    assert [] + [Gene(0, 3)] == [Gene(0, 3)];
    var l1 := map[0 := e1, 3 := e1];
    assert ExpandGene(map[], Gene(0, 3)) == (e1, l1);
    assert [] + [e1] == [e1];
    assert Expand([Gene(0, 3)]) == ([e1], l1);
    ExpandSnoc([Gene(0, 3)], Gene(1, 4));
    assert [e1] + [e2] == [e1, e2];
    assert [Gene(0, 3)] + [Gene(1, 4)] == [Gene(0, 3), Gene(1, 4)];
    assert ExpandGene(l1, Gene(1, 4)) == (e2, l1[1 := e2][4 := e2]);
    assert l1[1 := e2][4 := e2] == map[0 := e1, 3 := e1, 1 := e2, 4 := e2];
  }

  /** The example of get_flat's documentation. */
  lemma GetSeqExample()
    ensures Expand([Gene(0, 3), Gene(1, 4), Gene(0, 1), Gene(0, 2)]).0 ==
      [[Leaf(0), Leaf(3)], [Leaf(1), Leaf(4)], [Flat([0, 3]), Flat([1, 4])], [Flat([0, 3, 1, 4]), Leaf(2)]]
  {
    var e1, e2 := [Leaf(0), Leaf(3)], [Leaf(1), Leaf(4)];
    var e3 := [Flat([0, 3]), Flat([1, 4])];
    var e4 := [Flat([0, 3, 1, 4]), Leaf(2)];
    FlattenPair(Leaf(0), Leaf(3));
    FlattenPair(Leaf(1), Leaf(4));
    FlattenPair(Flat([0, 3]), Flat([1, 4]));
    GetSeqExampleStart();
    var l2 := map[0 := e1, 3 := e1, 1 := e2, 4 := e2];
    ExpandSnoc([Gene(0, 3), Gene(1, 4)], Gene(0, 1));
    assert [Gene(0, 3), Gene(1, 4)] + [Gene(0, 1)] == [Gene(0, 3), Gene(1, 4), Gene(0, 1)];
    var l3 := l2[0 := e3][1 := e3];
    assert Lookup(l2, 0) == Flat([0, 3]);
    assert Lookup(l2[0 := [Flat([0, 3]), Leaf(1)]], 1) == Flat([1, 4]);
    assert ExpandGene(l2, Gene(0, 1)) == (e3, l3);
    ExpandSnoc([Gene(0, 3), Gene(1, 4), Gene(0, 1)], Gene(0, 2));
    assert [Gene(0, 3), Gene(1, 4), Gene(0, 1)] + [Gene(0, 2)] == [Gene(0, 3), Gene(1, 4), Gene(0, 1), Gene(0, 2)];
    assert Lookup(l3, 0) == Flat([0, 3, 1, 4]);
    assert ExpandGene(l3, Gene(0, 2)).0 == e4;
  }

  /** Every side stands for at least one leaf, and every leaf indexes an
      n x n table. */
  predicate InTable(e: Entry, n: int)
  {
    && |e| == 2
    && (forall k :: 0 <= k < 2 ==> |Nodes(e[k])| > 0)
    && (forall k, m :: 0 <= k < 2 && 0 <= m < |Nodes(e[k])| ==> 0 <= Nodes(e[k])[m] < n)
  }

  /** Every gene's nodes index an n x n table. */
  predicate GenesInTable(c: seq<Gene>, n: int)
  {
    forall k :: 0 <= k < |c| ==> 0 <= c[k].head < n && 0 <= c[k].back < n
  }

  lemma {:induction false} FlattenInTable(e: Entry, n: int)
    requires InTable(e, n)
    ensures |Flatten(e)| > 0 && forall m :: 0 <= m < |Flatten(e)| ==> 0 <= Flatten(e)[m] < n
  {
    FlattenPair(e[0], e[1]);
    assert e == [e[0], e[1]];
  }

  /** One iteration of get_seq over a gene inside the table keeps every
      entry inside it. */
  lemma ExpandGeneInTable(leaves: map<int, Entry>, g: Gene, n: int)
    requires forall x :: x in leaves ==> InTable(leaves[x], n)
    requires 0 <= g.head < n && 0 <= g.back < n
    ensures InTable(ExpandGene(leaves, g).0, n)
    ensures forall x :: x in ExpandGene(leaves, g).1 ==> InTable(ExpandGene(leaves, g).1[x], n)
  {
    var s0 := Lookup(leaves, g.head);
    if g.head in leaves {
      FlattenInTable(leaves[g.head], n);
    }
    var l1 := leaves[g.head := [s0, Leaf(g.back)]];
    assert InTable([s0, Leaf(g.back)], n);
    if g.back in l1 {
      FlattenInTable(l1[g.back], n);
    }
  }

  /** get_seq over genes inside the table gives entries inside it. */
  lemma {:induction false} ExpandInTable(c: seq<Gene>, n: int)
    requires GenesInTable(c, n)
    ensures forall k :: 0 <= k < |Expand(c).0| ==> InTable(Expand(c).0[k], n)
    ensures forall x :: x in Expand(c).1 ==> InTable(Expand(c).1[x], n)
  {
    if c != [] {
      var c' := c[..|c| - 1];
      ExpandInTable(c', n);
      ExpandGeneInTable(Expand(c').1, c[|c| - 1], n);
    }
  }

  /** The product of the lengths of the list sides (ints count 1). */
  function Divider(gen: Entry): (r: int)
    ensures |gen| == 1 ==> r == |Nodes(gen[0])|
    ensures |gen| == 2 ==> r == |Nodes(gen[0])| * |Nodes(gen[1])|
  {
    if gen == [] then 1
    else (if gen[0].Flat? then |gen[0].nodes| else 1) * Divider(gen[1..])
  }

  /** The sum of the reference cells t[i][j] for i in a, j in b. */
  function BlockSum(t: seq<seq<real>>, a: seq<int>, b: seq<int>): real
    requires IsSquare(t)
    requires forall m :: 0 <= m < |a| ==> 0 <= a[m] < |t|
    requires forall m :: 0 <= m < |b| ==> 0 <= b[m] < |t|
  {
    if a == [] then 0.0 else RowSum(t[a[0]], b) + BlockSum(t, a[1..], b)
  }

  /** The sum of row[j] for j in b. */
  function RowSum(row: seq<real>, b: seq<int>): real
    requires forall m :: 0 <= m < |b| ==> 0 <= b[m] < |row|
  {
    if b == [] then 0.0 else row[b[0]] + RowSum(row, b[1..])
  }

  /** n copies of x added up (multiplication kept linear for the solver). */
  function Times(n: nat, x: real): real
  {
    if n == 0 then 0.0 else Times(n - 1, x) + x
  }

  lemma {:induction false} TimesIs(n: nat, x: real)
    ensures Times(n, x) == n as real * x
  {
    if n > 0 {
      TimesIs(n - 1, x);
      assert n as real * x == (n - 1) as real * x + x;
    }
  }

  lemma {:induction false} TimesAdd(p: nat, q: nat, x: real)
    ensures Times(p + q, x) == Times(p, x) + Times(q, x)
  {
    if q > 0 {
      TimesAdd(p, q - 1, x);
    }
  }

  /** m rows of k copies are m * k copies. */
  lemma {:induction false} TimesNested(m: nat, k: nat, x: real)
    ensures Times(m, Times(k, x)) == Times(m * k, x)
  {
    if m > 0 {
      TimesNested(m - 1, k, x);
      TimesAdd((m - 1) * k, k, x);
      assert (m - 1) * k + k == m * k;
    }
  }

  /** A sum between n times lo and n times hi, divided by n, lies in
      [lo, hi]. */
  lemma TimesDivision(s: real, n: nat, lo: real, hi: real)
    requires 0 < n && Times(n, lo) <= s <= Times(n, hi)
    ensures lo <= s / n as real <= hi
  {
    TimesIs(n, lo);
    TimesIs(n, hi);
    DivisionBounds(s, n as real, lo, hi);
  }

  /** A row sum over the columns b of cells in [lo, hi] lies between |b|
      times lo and |b| times hi. */
  lemma {:induction false} RowSumBounds(row: seq<real>, b: seq<int>, lo: real, hi: real)
    requires forall m :: 0 <= m < |b| ==> 0 <= b[m] < |row|
    requires forall j :: 0 <= j < |row| ==> lo <= row[j] <= hi
    ensures Times(|b|, lo) <= RowSum(row, b) <= Times(|b|, hi)
  {
    if b != [] {
      RowSumBounds(row, b[1..], lo, hi);
    }
  }

  /** The block sum of a table whose cells lie in [lo, hi] lies between the
      number of cells times lo and times hi (|a| rows of |b| cells). */
  lemma {:induction false} BlockSumBounds(t: seq<seq<real>>, a: seq<int>, b: seq<int>, lo: real, hi: real)
    requires IsSquare(t)
    requires forall m :: 0 <= m < |a| ==> 0 <= a[m] < |t|
    requires forall m :: 0 <= m < |b| ==> 0 <= b[m] < |t|
    requires forall i, j :: 0 <= i < |t| && 0 <= j < |t| ==> lo <= t[i][j] <= hi
    ensures Times(|a|, Times(|b|, lo)) <= BlockSum(t, a, b) <= Times(|a|, Times(|b|, hi))
  {
    if a != [] {
      BlockSumBounds(t, a[1..], b, lo, hi);
      RowSumBounds(t[a[0]], b, lo, hi);
    }
  }

  /** A sum of m rows of k cells in [lo, hi], divided by the number of
      cells, lies in [lo, hi]. */
  lemma MeanBounds(s: real, m: nat, k: nat, lo: real, hi: real)
    requires 0 < m && 0 < k
    requires Times(m, Times(k, lo)) <= s <= Times(m, Times(k, hi))
    ensures lo <= s / (m * k) as real <= hi
  {
    TimesNested(m, k, lo);
    TimesNested(m, k, hi);
    MulPositive(m, k);
    TimesDivision(s, m * k, lo, hi);
  }

  /** calculate_dividend: the sum of the reference cells over the block of
      the two sides. */
  method CalculateDividend(t: seq<seq<real>>, gen: seq<seq<int>>) returns (result: real)
    requires IsSquare(t) && |gen| == 2
    requires forall k, m :: 0 <= k < 2 && 0 <= m < |gen[k]| ==> 0 <= gen[k][m] < |t|
    ensures result == BlockSum(t, gen[0], gen[1])
  {
    result := 0.0;
    var a, b := gen[0], gen[1];
    for p := 0 to |a|
      invariant result + BlockSum(t, a[p..], b) == BlockSum(t, a, b)
    {
      assert a[p..][1..] == a[p + 1..];
      ghost var before := result;
      for q := 0 to |b|
        invariant result + RowSum(t[a[p]], b[q..]) == before + RowSum(t[a[p]], b)
      {
        assert b[q..][1..] == b[q + 1..];
        result := result + t[a[p]][b[q]];
      }
    }
  }

  /** Cell (x, y) lies in the block a x b or in its mirror b x a. */
  predicate Written(a: seq<int>, b: seq<int>, x: int, y: int)
  {
    (x in a && y in b) || (y in a && x in b)
  }

  /** change_table: the placeholder is written into cell (i, j) and cell
      (j, i) for every i of the first side and j of the second; every other
      cell keeps its value. */
  method ChangeTable(gen: seq<seq<int>>, placeholder: real, matrix: array2<real>)
    requires |gen| == 2 && matrix.Length0 == matrix.Length1
    requires forall k, m :: 0 <= k < 2 && 0 <= m < |gen[k]| ==> 0 <= gen[k][m] < matrix.Length0
    modifies matrix
    ensures forall x, y :: 0 <= x < matrix.Length0 && 0 <= y < matrix.Length1 ==>
      matrix[x, y] == if Written(gen[0], gen[1], x, y) then placeholder else old(matrix[x, y])
  {
    var a, b := gen[0], gen[1];
    for p := 0 to |a|
      invariant forall x, y :: 0 <= x < matrix.Length0 && 0 <= y < matrix.Length1 ==>
        matrix[x, y] == if Written(a[..p], b, x, y) then placeholder else old(matrix[x, y])
    {
      for q := 0 to |b|
        invariant forall x, y :: 0 <= x < matrix.Length0 && 0 <= y < matrix.Length1 ==>
          matrix[x, y] == if Written(a[..p], b, x, y) || Written([a[p]], b[..q], x, y) then placeholder else old(matrix[x, y])
      {
        assert b[..q + 1] == b[..q] + [b[q]];
        matrix[a[p], b[q]] := placeholder;
        matrix[b[q], a[p]] := placeholder;
      }
      assert a[..p + 1] == a[..p] + [a[p]];
      assert b[..|b|] == b;
    }
    assert a[..|a|] == a;
  }

  /** The value table_for_individual writes for a composite entry: the mean
      of the reference cells of its block. */
  function BlockMean(t: seq<seq<real>>, e: Entry): real
    requires IsSquare(t) && InTable(e, |t|)
  {
    BlockSum(t, Nodes(e[0]), Nodes(e[1])) / (Divider(e) as real)
  }

  /** Cell (x, y) of the table built from the reference t and the entries:
      the mean written by the last composite entry whose block covers the
      cell, or the reference cell when none does. */
  function TableAt(t: seq<seq<real>>, entries: seq<Entry>, x: int, y: int): real
    requires IsSquare(t) && 0 <= x < |t| && 0 <= y < |t|
    requires forall k :: 0 <= k < |entries| ==> InTable(entries[k], |t|)
  {
    if entries == [] then t[x][y]
    else
      assert InTable(entries[|entries| - 1], |t|);
      var e := entries[|entries| - 1];
      if !CheckIfSimple(e) && Written(Nodes(e[0]), Nodes(e[1]), x, y) then BlockMean(t, e)
      else TableAt(t, entries[..|entries| - 1], x, y)
  }

  /** table_for_individual: a copy of the reference table in which every
      composite entry of get_seq overwrites its block with the block's mean
      over the reference. */
  method TableForIndividual(t: seq<seq<real>>, individual: seq<Gene>) returns (table: array2<real>)
    requires IsSquare(t) && GenesInTable(individual, |t|)
    ensures fresh(table) && table.Length0 == |t| && table.Length1 == |t|
    ensures ExpandInTableFacts(t, individual)
    ensures forall x, y :: 0 <= x < |t| && 0 <= y < |t| ==> table[x, y] == TableAt(t, Expand(individual).0, x, y)
  {
    var n := |t|;
    table := new real[n, n]((x, y) => if 0 <= x < n && 0 <= y < n then t[x][y] else 0.0);
    var entries := GetSeq(individual);
    ExpandInTable(individual, n);
    for k := 0 to |entries|
      invariant forall x, y :: 0 <= x < n && 0 <= y < n ==> table[x, y] == TableAt(t, entries[..k], x, y)
    {
      var gen := entries[k];
      if !CheckIfSimple(gen) {
        WriteEntry(t, gen, table);
      }
      forall x, y | 0 <= x < n && 0 <= y < n
        ensures table[x, y] == TableAt(t, entries[..k + 1], x, y)
      {
        TableAtLast(t, entries, k, x, y);
      }
    }
    assert entries[..|entries|] == entries;
  }

  /** The body of table_for_individual's loop for a composite entry: the
      mean of its block over the reference is written into the block and its
      mirror. */
  method WriteEntry(t: seq<seq<real>>, gen: Entry, table: array2<real>)
    requires IsSquare(t) && InTable(gen, |t|) && !CheckIfSimple(gen)
    requires table.Length0 == |t| && table.Length1 == |t|
    modifies table
    ensures forall x, y :: 0 <= x < |t| && 0 <= y < |t| ==>
      table[x, y] == if Written(Nodes(gen[0]), Nodes(gen[1]), x, y) then BlockMean(t, gen) else old(table[x, y])
  {
    var modified := GetGen(gen);
    assert modified == [Nodes(gen[0]), Nodes(gen[1])];
    var dividend := CalculateDividend(t, modified);
    var divider := Divider(gen);
    var result := dividend / (divider as real);
    ChangeTable(modified, result, table);
  }

  /** TableAt over the first k + 1 entries, by its last entry. */
  lemma TableAtLast(t: seq<seq<real>>, entries: seq<Entry>, k: int, x: int, y: int)
    requires IsSquare(t) && 0 <= x < |t| && 0 <= y < |t| && 0 <= k < |entries|
    requires forall m :: 0 <= m < |entries| ==> InTable(entries[m], |t|)
    ensures TableAt(t, entries[..k + 1], x, y) ==
      if !CheckIfSimple(entries[k]) && Written(Nodes(entries[k][0]), Nodes(entries[k][1]), x, y)
      then BlockMean(t, entries[k]) else TableAt(t, entries[..k], x, y)
  {
    assert entries[..k + 1][..k] == entries[..k];
  }

  /** The entries of get_seq lie inside the table (what TableAt needs). */
  ghost predicate ExpandInTableFacts(t: seq<seq<real>>, individual: seq<Gene>)
  {
    forall k :: 0 <= k < |Expand(individual).0| ==> InTable(Expand(individual).0[k], |t|)
  }

  /** The table built for the entries, as rows. */
  function TableOf(t: seq<seq<real>>, entries: seq<Entry>): (r: seq<seq<real>>)
    requires IsSquare(t)
    requires forall k :: 0 <= k < |entries| ==> InTable(entries[k], |t|)
    ensures |r| == |t| && IsSquare(r)
    ensures forall x, y :: 0 <= x < |t| && 0 <= y < |t| ==> r[x][y] == TableAt(t, entries, x, y)
  {
    seq(|t|, x requires 0 <= x < |t| => seq(|t|, y requires 0 <= y < |t| => TableAt(t, entries, x, y)))
  }

  /** Writing blocks and their mirrors keeps a symmetric table symmetric. */
  lemma {:induction false} TableSymmetric(t: seq<seq<real>>, entries: seq<Entry>, x: int, y: int)
    requires IsSquare(t) && Symmetric(t) && 0 <= x < |t| && 0 <= y < |t|
    requires forall k :: 0 <= k < |entries| ==> InTable(entries[k], |t|)
    ensures TableAt(t, entries, x, y) == TableAt(t, entries, y, x)
  {
    if entries != [] {
      TableSymmetric(t, entries[..|entries| - 1], x, y);
    }
  }

  /** Simple entries change nothing: when every entry is simple the table is
      the reference table. */
  lemma {:induction false} TableAllSimple(t: seq<seq<real>>, entries: seq<Entry>, x: int, y: int)
    requires IsSquare(t) && 0 <= x < |t| && 0 <= y < |t|
    requires forall k :: 0 <= k < |entries| ==> InTable(entries[k], |t|) && CheckIfSimple(entries[k])
    ensures TableAt(t, entries, x, y) == t[x][y]
  {
    if entries != [] {
      TableAllSimple(t, entries[..|entries| - 1], x, y);
    }
  }

  /** A cell no block of a composite entry covers keeps its reference value. */
  lemma {:induction false} TableOutsideBlocks(t: seq<seq<real>>, entries: seq<Entry>, x: int, y: int)
    requires IsSquare(t) && 0 <= x < |t| && 0 <= y < |t|
    requires forall k :: 0 <= k < |entries| ==>
      (InTable(entries[k], |t|) && (!CheckIfSimple(entries[k]) ==> !Written(Nodes(entries[k][0]), Nodes(entries[k][1]), x, y)))
    ensures TableAt(t, entries, x, y) == t[x][y]
  {
    if entries != [] {
      TableOutsideBlocks(t, entries[..|entries| - 1], x, y);
    }
  }

  /** The mean of a block of reference cells within [lo, hi] is within
      [lo, hi]. */
  lemma BlockMeanBounds(t: seq<seq<real>>, e: Entry, lo: real, hi: real)
    requires IsSquare(t) && InTable(e, |t|)
    requires forall i, j :: 0 <= i < |t| && 0 <= j < |t| ==> lo <= t[i][j] <= hi
    ensures lo <= BlockMean(t, e) <= hi
  {
    var a, b := Nodes(e[0]), Nodes(e[1]);
    BlockSumBounds(t, a, b, lo, hi);
    MeanBounds(BlockSum(t, a, b), |a|, |b|, lo, hi);
  }

  lemma MulPositive(x: int, y: int)
    requires 0 < x && 0 < y
    ensures 0 < x * y
  {
  }

  lemma DivisionBounds(sum: real, d: real, lo: real, hi: real)
    requires d > 0.0 && d * lo <= sum <= d * hi
    ensures lo <= sum / d <= hi
  {
    var q := sum / d;
    assert q * d == sum;
  }

  /** Every cell of the individual's table lies in the range of the
      reference cells. */
  lemma {:induction false} TableBounds(t: seq<seq<real>>, entries: seq<Entry>, x: int, y: int, lo: real, hi: real)
    requires IsSquare(t) && 0 <= x < |t| && 0 <= y < |t|
    requires forall k :: 0 <= k < |entries| ==> InTable(entries[k], |t|)
    requires forall i, j :: 0 <= i < |t| && 0 <= j < |t| ==> lo <= t[i][j] <= hi
    ensures lo <= TableAt(t, entries, x, y) <= hi
  {
    if entries != [] {
      var e := entries[|entries| - 1];
      if !CheckIfSimple(e) && Written(Nodes(e[0]), Nodes(e[1]), x, y) {
        BlockMeanBounds(t, e, lo, hi);
      } else {
        TableBounds(t, entries[..|entries| - 1], x, y, lo, hi);
      }
    }
  }

  /** Over STANDARD every cell of an individual's table is a proximity in
      [0, 1]. */
  lemma StandardTableUnit(c: seq<Gene>, x: int, y: int)
    requires GenesInTable(c, 5) && 0 <= x < 5 && 0 <= y < 5
    ensures ExpandInTableFacts(Standard(), c)
    ensures 0.0 <= TableAt(Standard(), Expand(c).0, x, y) <= 1.0
  {
    ExpandInTable(c, 5);
    StandardUnit();
    TableBounds(Standard(), Expand(c).0, x, y, 0.0, 1.0);
  }

  /** Two tables of the same shape. */
  predicate SameShape(a: seq<seq<real>>, b: seq<seq<real>>)
  {
    |a| == |b| && forall i :: 0 <= i < |a| ==> |a[i]| == |b[i]|
  }

  /** The sum of the squared differences of two rows. */
  function RowError(a: seq<real>, b: seq<real>): (r: real)
    requires |a| == |b|
    ensures r >= 0.0
    ensures a == b ==> r == 0.0
  {
    if a == [] then 0.0 else (a[0] - b[0]) * (a[0] - b[0]) + RowError(a[1..], b[1..])
  }

  /** sum(sum((a - b) ** 2)): the sum of the squared cell differences. */
  function SquaredError(a: seq<seq<real>>, b: seq<seq<real>>): (r: real)
    requires SameShape(a, b)
    ensures r >= 0.0
    ensures a == b ==> r == 0.0
  {
    if a == [] then 0.0 else RowError(a[0], b[0]) + SquaredError(a[1..], b[1..])
  }

  /** fitness_count: the squared error between the individual's table and
      the reference table.  It is never negative, and it is zero when every
      entry of get_seq is simple. */
  method FitnessCount(t: seq<seq<real>>, individual: seq<Gene>) returns (r: real)
    requires IsSquare(t) && GenesInTable(individual, |t|)
    ensures ExpandInTableFacts(t, individual)
    ensures r == SquaredError(TableOf(t, Expand(individual).0), t)
    ensures r >= 0.0
    ensures (forall k :: 0 <= k < |individual| ==> CheckIfSimple(Expand(individual).0[k])) ==> r == 0.0
  {
    var table := TableForIndividual(t, individual);
    var n := |t|;
    var cells := seq(n, x requires 0 <= x < n reads table => seq(n, y requires 0 <= y < n reads table => table[x, y]));
    ghost var tab := TableOf(t, Expand(individual).0);
    forall x | 0 <= x < n
      ensures cells[x] == tab[x]
    {
      assert forall y :: 0 <= y < n ==> cells[x][y] == tab[x][y];
    }
    assert cells == tab;
    r := SquaredError(cells, t);
    if forall k :: 0 <= k < |individual| ==> CheckIfSimple(Expand(individual).0[k]) {
      forall x | 0 <= x < n
        ensures cells[x] == t[x]
      {
        forall y | 0 <= y < n
          ensures cells[x][y] == t[x][y]
        {
          TableAllSimple(t, Expand(individual).0, x, y);
        }
      }
      assert cells == t;
    }
  }

  /** With two leaves the only gene is simple, so the fitness is zero. */
  lemma FitnessTwoLeaves()
    ensures ExpandInTableFacts(Standard(), [Gene(0, 1)])
    ensures SquaredError(TableOf(Standard(), Expand([Gene(0, 1)]).0), Standard()) == 0.0
  {
    var c := [Gene(0, 1)];
    ExpandSnoc([], Gene(0, 1));
    assert [] + c == c;
    ExpandInTable(c, 5);
    var tab := TableOf(Standard(), Expand(c).0);
    forall x | 0 <= x < 5
      ensures tab[x] == Standard()[x]
    {
      forall y | 0 <= y < 5
        ensures tab[x][y] == Standard()[x][y]
      {
        TableAllSimple(Standard(), Expand(c).0, x, y);
      }
    }
    assert tab == Standard();
  }
}

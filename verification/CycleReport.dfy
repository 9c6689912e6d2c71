/** Feeding the CycleError of topsort to find_cycles. */
module CycleReport {
  import opened Graphs
  import opened PairMaps
  import opened Rotations
  import opened Topsort
  import opened FindCycles

  /** No cycle is yielded twice, even in a rotated form. */
  lemma OneRepresentative(g: Graph, cycles: seq<Path>, c: Path, j: nat, k: nat)
    requires ListsCycles(g, cycles) && j < |cycles| && k < |cycles|
    requires IsRotation(cycles[j], c) && IsRotation(cycles[k], c)
    ensures j == k
  {
    RotationSymmetric(cycles[j], c);
    RotationSymmetric(cycles[k], c);
    RotationTransitive(cycles[j], c, cycles[k]);
    RotationTransitive(cycles[k], c, cycles[j]);
  }

  /** find_cycles on the children left in an error of topsort names every cycle of the pairs,
      no other, and, since there was an error, at least one. */
  lemma ErrorNamesEveryCycle(pairs: Pairs, children: Children, cycles: seq<Path>)
    requires SameCycles(Edges(pairs), MapEdges(children)) && ListsCycles(MapEdges(children), cycles)
    ensures ListsCycles(Edges(pairs), cycles) && (Cyclic(Edges(pairs)) <==> cycles != [])
  {
    if c :| SimpleCycle(Edges(pairs), c) {
      assert Found(cycles, c);
    }
    if cycles != [] {
      assert SimpleCycle(Edges(pairs), cycles[0]);
    }
  }

  lemma SortedHasNoCycles(g: Graph)
    requires !Cyclic(g)
    ensures ListsCycles(g, [])
  {
  }

  /** Sort the pairs and, if that fails, name the cycles: one of each, and none if it does not fail. */
  method SortOrNameCycles(pairs: Pairs) returns (r: Outcome, cycles: seq<Path>)
    ensures ListsCycles(Edges(pairs), cycles)
    ensures r.CycleError? <==> cycles != []
    ensures r.Sorted? ==> ListsAcyclicPart(Edges(pairs), Elems(pairs), r.answer) && ParentsFirst(Edges(pairs), r.answer)
  {
    r := Topsort.Topsort(pairs);
    if r.CycleError? {
      cycles := FindCycles.FindCycles(r.children);
      ErrorNamesEveryCycle(pairs, r.children, cycles);
    } else {
      cycles := [];
      SortedHasNoCycles(Edges(pairs));
    }
  }
}

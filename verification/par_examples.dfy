/**
 * The chain split on the smallest board with a conflict: two guests, one averse to the other's type. The chain
 * built for them, and so the par, is fixed by the splitting recursion, not merely by the chain properties.
 */
module ParExamples {
  import opened Wrappers
  import opened Seqs
  import opened Types
  import opened Par

  /** Guest `a` is averse to the type of `b`, a different type, and `b` has no aversion of its own. */
  predicate AverseTo(a: Person, b: Person) {
    a.phobia == Some(b.name) && a.name != b.name && b.phobia.None?
  }

  /** Among guests that are `a` or `b`, only `b` can be of a type somebody fears. */
  lemma OnlyBTriggers(a: Person, b: Person, placed: seq<Person>)
    requires AverseTo(a, b) && forall p :: p in placed ==> p == a || p == b
    ensures forall y :: y in Triggering(placed) ==> y == b
  {
  }

  /** Among guests that are `a` or `b`, only `a` can have an aversion to a type on the board. */
  lemma OnlyARelevant(a: Person, b: Person, placed: seq<Person>)
    requires AverseTo(a, b) && forall p :: p in placed ==> p == a || p == b
    ensures forall y :: y in RelevantBigFear(placed) ==> y == a
  {
  }

  /** When `a` is there, `b` is of a type somebody fears. */
  lemma BTriggers(a: Person, b: Person, placed: seq<Person>)
    requires AverseTo(a, b) && a in placed && b in placed
    ensures b in Triggering(placed)
  {
  }

  /** When `b` is there, `a` has an aversion to a type on the board. */
  lemma ARelevant(a: Person, b: Person, placed: seq<Person>)
    requires AverseTo(a, b) && a in placed && b in placed
    ensures a in RelevantBigFear(placed)
  {
  }

  /** A list holding `a` and `b`, once each, and nobody else. */
  predicate JustPair(a: Person, b: Person, placed: seq<Person>) {
    a in placed && b in placed && multiset(placed)[a] == 1 && multiset(placed)[b] == 1
    && forall p :: p in placed ==> p == a || p == b
  }

  /** Of such a list only `b` is of a type somebody fears. */
  lemma SoleTrigger(a: Person, b: Person, placed: seq<Person>)
    requires AverseTo(a, b) && JustPair(a, b, placed)
    ensures Triggering(placed) == [b]
  {
    BTriggers(a, b, placed);
    OnlyBTriggers(a, b, placed);
    OnlyElement(Triggering(placed), placed, b);
  }

  /** Of such a list only `a` has an aversion to a type on the board. */
  lemma SoleRelevant(a: Person, b: Person, placed: seq<Person>)
    requires AverseTo(a, b) && JustPair(a, b, placed)
    ensures RelevantBigFear(placed) == [a]
  {
    ARelevant(a, b, placed);
    OnlyARelevant(a, b, placed);
    OnlyElement(RelevantBigFear(placed), placed, a);
  }

  /** On a board of just the two guests, in either order, both are involved: `a` (relevant aversion), then `b` (trigger). */
  lemma PairInvolved(a: Person, b: Person, placed: seq<Person>)
    requires AverseTo(a, b) && JustPair(a, b, placed)
    ensures InvolvedPersons(placed) == [a, b]
  {
    SoleTrigger(a, b, placed);
    SoleRelevant(a, b, placed);
  }

  /** `a` cannot join `b` at virtual table 0, so it goes to table 1 and pulls in nobody. */
  lemma PairSecondStep(a: Person, b: Person)
    requires AverseTo(a, b)
    ensures GrowFrom(TableSplit([b], []), [a], []) == (TableSplit([b], [a]), [])
  {
    assert b in [b] && Conflicts(b, a);
    assert Place(TableSplit([b], []), a) == TableSplit([b], [a]);
    assert [a][..0] + Matches([], a) == [];
    assert GrowFrom(TableSplit([b], []), [a], []) == GrowFrom(TableSplit([b], [a]), [], Remaining([], []));
  }

  /** The seed `b` goes to virtual table 0 and pulls in `a`, the one involved guest in conflict with it. */
  lemma PairFirstStep(a: Person, b: Person)
    requires AverseTo(a, b)
    ensures GrowFrom(TableSplit([], []), [b], [a]) == GrowFrom(TableSplit([b], []), [a], [])
  {
    assert Conflicts(a, b);
    assert [b][..0] + Matches([a], b) == [a];
    assert IsSameCell([a][0].Pos(), a.Pos());
    assert Remaining([a], [a]) == [];
    assert Place(TableSplit([], []), b) == TableSplit([b], []);
  }

  /** The one chain of the pair seeds `b` (listed last) at virtual table 0 and puts `a`, who conflicts with it, at table 1. */
  lemma PairSplit(a: Person, b: Person)
    requires AverseTo(a, b)
    ensures SplitChains([a, b]) == [TableSplit([b], [a])]
  {
    var chain := TableSplit([b], [a]);
    PairFirstStep(a, b);
    PairSecondStep(a, b);
    assert [a, b][|[a, b]| - 1] == b && [a, b][..|[a, b]| - 1] == [a];
    assert GrowFrom(TableSplit([], []), [b], [a]) == (chain, []);
    assert SplitFrom([], [a, b]) == SplitFrom([] + [chain], []);
  }

  /** The summed cost of two chains. */
  lemma TwoChainsCost(x: TableSplit, y: TableSplit)
    ensures ChainsCost([x]) == ChainCost(x)
    ensures ChainsCost([x, y]) == ChainCost(x) + ChainCost(y)
  {
    assert [x][..0] == [] && [x, y][..1] == [x];
  }

  /** The pair's chain costs one move when both sit at the same real table 0 or 1; alone, each would cost nothing. */
  lemma PairChainCost(a: Person, b: Person)
    requires a.tableIndex == b.tableIndex && (a.tableIndex == Some(0) || a.tableIndex == Some(1))
    ensures ChainCost(TableSplit([b], [a])) == 1
    ensures ChainCost(TableSplit([b], [])) == 0 && ChainCost(TableSplit([a], [])) == 0
  {
    assert GetMismatchCount(TableSplit([b], [a]), 0, 1) == 1;
    assert GetMismatchCount(TableSplit([b], [a]), 1, 0) == 1;
  }

  /**
   * A board of two guests at the same real table, one averse to the other's type, costs one move: their single
   * chain maps onto the real tables either way round with one guest at the wrong table. One chain per guest would
   * cost nothing, but that is not the split `getChainsAndSplitToTables` builds.
   */
  lemma PairCostsOne(a: Person, b: Person, placed: seq<Person>)
    requires AverseTo(a, b) && JustPair(a, b, placed)
    requires a.tableIndex == b.tableIndex && (a.tableIndex == Some(0) || a.tableIndex == Some(1))
    ensures ChainsCost(SplitChains(InvolvedPersons(placed))) == 1
    ensures ChainsCost([TableSplit([b], []), TableSplit([a], [])]) == 0
  {
    PairInvolved(a, b, placed);
    PairSplit(a, b);
    PairChainCost(a, b);
    TwoChainsCost(TableSplit([b], [a]), TableSplit([a], []));
    TwoChainsCost(TableSplit([b], []), TableSplit([a], []));
  }
}

/**
 * Building the board from a grid of cell types: one cell per grid entry, then the flood fill that
 * groups orthogonally connected chairs and table cells into tables and numbers them in discovery order.
 *
 * The cell objects the game shares between `field`, `allCells` and the working lists are the slots of
 * an array; a working list of cells is a list of slot numbers, and writing `cell.tableIndex` is an
 * update of that slot.
 */
module BaseField {
  import opened Wrappers
  import opened Seqs
  import opened Types
  import opened Checks

  /** The board of every regular game: two tables of six chairs above, two below, and an empty middle row. */
  const BASE_FIELD: seq<seq<CellType>> := [
    [Chair, Table, Chair, Empty, Chair, Table, Chair],
    [Chair, Table, Chair, Empty, Chair, Table, Chair],
    [Chair, Table, Chair, Empty, Chair, Table, Chair],
    [Empty, Empty, Empty, Empty, Empty, Empty, Empty],
    [Chair, Table, Chair, Empty, Chair, Table, Chair],
    [Chair, Table, Chair, Empty, Chair, Table, Chair],
    [Chair, Table, Chair, Empty, Chair, Table, Chair]]

  /** A chair or a table cell: the cells the flood fill looks at. */
  predicate Seatable(c: Cell) {
    IsChair(c.cellType) || IsTable(c.cellType)
  }

  /** Slots `a` and `b` hold orthogonally adjacent cells. */
  predicate Adjacent(cs: seq<Cell>, a: nat, b: nat) {
    a < |cs| && b < |cs| && IsCellNeighbor(cs[a].Pos(), cs[b].Pos())
  }

  predicate NoDup(s: seq<nat>) {
    forall i, j :: 0 <= i < j < |s| ==> s[i] != s[j]
  }

  /** No two cells of the list stand on the same position. */
  predicate UniquePositions(cs: seq<Cell>) {
    forall i, j :: 0 <= i < j < |cs| ==> !IsSameCell(cs[i].Pos(), cs[j].Pos())
  }

  /** The candidate slots: valid, without repeats, on pairwise different positions. */
  predicate ValidCands(cs: seq<Cell>, cands: seq<nat>) {
    (forall s :: s in cands ==> s < |cs|) && NoDup(cands) && UniquePositions(cs)
  }

  /** Every candidate adjacent to slot `x` belongs to the group. */
  predicate ClosedAt(cs: seq<Cell>, cands: seq<nat>, group: seq<nat>, x: nat) {
    forall y :: y in cands && Adjacent(cs, y, x) ==> y in group
  }

  /** The group holds every candidate adjacent to one of its members. */
  predicate Closed(cs: seq<Cell>, cands: seq<nat>, group: seq<nat>) {
    forall x :: x in group ==> ClosedAt(cs, cands, group, x)
  }

  /**
   * From position `from` on, each member is adjacent to the earlier member `parent` points at: the
   * group is connected. (`parent` is a proof device; the game keeps no such list.)
   */
  predicate LinkedFrom(cs: seq<Cell>, group: seq<nat>, parent: seq<nat>, from: nat) {
    |parent| == |group|
    && forall i :: from <= i < |group| ==> parent[i] < i && Adjacent(cs, group[i], group[parent[i]])
  }

  /** The candidates not yet in the list; the flood fill's measure. */
  function Unvisited(cands: seq<nat>, list: seq<nat>): set<nat> {
    set s | s in cands && s !in list
  }

  /** Some cell of the list stands on the position of slot `s` (`neighbors.some(n => isSameCell(n, c))`). */
  predicate Visited(cs: seq<Cell>, list: seq<nat>, s: nat) {
    exists n :: n in list && n < |cs| && s < |cs| && IsSameCell(cs[n].Pos(), cs[s].Pos())
  }

  lemma {:induction false} FilterNoDup(s: seq<nat>, f: nat -> bool)
    requires NoDup(s)
    ensures NoDup(Filter(s, f))
  {
    if s != [] {
      FilterNoDup(s[1..], f);
      assert s[0] !in s[1..];
    }
  }

  /** Every member from position `from` on is closed, except those at positions `lo .. hi-1` still pending. */
  predicate ClosedOutside(cs: seq<Cell>, cands: seq<nat>, list: seq<nat>, from: nat, lo: nat, hi: nat) {
    forall i :: from <= i < |list| && !(lo <= i < hi) ==> ClosedAt(cs, cands, list, list[i])
  }

  /** `list` extends `start` by candidates only, without repeats, each new slot linked to an earlier one. */
  predicate Grown(cs: seq<Cell>, cands: seq<nat>, start: seq<nat>, list: seq<nat>, startParent: seq<nat>, parent: seq<nat>) {
    |start| <= |list| && list[..|start|] == start
    && |startParent| <= |parent| && parent[..|startParent|] == startParent
    && (forall n :: n in list ==> n in cands)
    && NoDup(list)
    && LinkedFrom(cs, list, parent, |start|)
  }

  /** A longer list with the same beginning keeps every member and every closure. */
  lemma ExtendKeeps(cs: seq<Cell>, cands: seq<nat>, short: seq<nat>, long: seq<nat>)
    requires |short| <= |long| && long[..|short|] == short
    ensures forall n :: n in short ==> n in long
    ensures forall x :: ClosedAt(cs, cands, short, x) ==> ClosedAt(cs, cands, long, x)
  {
    assert forall i :: 0 <= i < |short| ==> long[i] == short[i];
  }

  /** Growing twice is growing. */
  lemma GrownTrans(cs: seq<Cell>, cands: seq<nat>, a: seq<nat>, b: seq<nat>, c: seq<nat>,
                   pa: seq<nat>, pb: seq<nat>, pc: seq<nat>)
    requires Grown(cs, cands, a, b, pa, pb) && Grown(cs, cands, b, c, pb, pc)
    requires LinkedFrom(cs, b, pb, |a|)
    ensures Grown(cs, cands, a, c, pa, pc)
  {
    assert forall i :: 0 <= i < |b| ==> c[i] == b[i] && pc[i] == pb[i];
    assert c[..|a|] == a;
    assert pc[..|pa|] == pa;
  }

  /**
   * `getNeighborsRecursively(cells, cell, neighbors)`: appends to `neighbors` the candidates adjacent
   * to `cell` that are not yet there, then recurses on each of them. The list only grows, keeps no
   * repeats, is closed at `cell` and at everything it added, and each added slot is adjacent to an
   * earlier one.
   */
  method GetNeighborsRecursively(cs: seq<Cell>, cands: seq<nat>, cell: nat, neighbors: seq<nat>, ghost parent: seq<nat>)
    returns (result: seq<nat>, ghost resultParent: seq<nat>)
    requires ValidCands(cs, cands)
    requires cell in neighbors
    requires forall n :: n in neighbors ==> n in cands
    requires NoDup(neighbors)
    requires |parent| == |neighbors|
    ensures Grown(cs, cands, neighbors, result, parent, resultParent)
    ensures ClosedAt(cs, cands, result, cell)
    ensures ClosedOutside(cs, cands, result, |neighbors|, 0, 0)
    decreases |Unvisited(cands, neighbors)|
  {
    var adjacent := Filter(cands, (s: nat) => Adjacent(cs, s, cell));
    var newNeighbors := Filter(adjacent, (s: nat) => !Visited(cs, neighbors, s));
    result := neighbors + newNeighbors;
    var c :| 0 <= c < |neighbors| && neighbors[c] == cell;
    resultParent := parent + seq(|newNeighbors|, _ => c);
    var base, baseParent := result, resultParent;
    FirstStep(cs, cands, cell, neighbors, adjacent, newNeighbors, parent, c);
    for k := 0 to |newNeighbors|
      invariant Grown(cs, cands, neighbors, result, parent, resultParent)
      invariant Grown(cs, cands, base, result, baseParent, resultParent)
      invariant ClosedAt(cs, cands, result, cell)
      invariant ClosedOutside(cs, cands, result, |neighbors|, |neighbors| + k, |base|)
      invariant Unvisited(cands, result) <= Unvisited(cands, base)
    {
      var next := newNeighbors[k];
      var before, beforeParent := result, resultParent;
      NextReady(cs, cands, neighbors, base, result, parent, baseParent, resultParent, k);
      result, resultParent := GetNeighborsRecursively(cs, cands, next, result, resultParent);
      LoopStep(cs, cands, cell, neighbors, base, k, before, result, parent, baseParent, beforeParent, resultParent);
    }
  }

  /**
   * Before the recursive call on the new neighbour at position `|neighbors| + k`: it is in the list, the
   * list is valid, and fewer candidates are unvisited than when the call began.
   */
  lemma NextReady(cs: seq<Cell>, cands: seq<nat>, neighbors: seq<nat>, base: seq<nat>, result: seq<nat>,
                  parent: seq<nat>, baseParent: seq<nat>, resultParent: seq<nat>, k: nat)
    requires Grown(cs, cands, neighbors, base, parent, baseParent)
    requires Grown(cs, cands, base, result, baseParent, resultParent)
    requires |neighbors| + k < |base|
    ensures base[|neighbors| + k] == result[|neighbors| + k] && base[|neighbors| + k] in result
    ensures forall n :: n in result ==> n in cands
    ensures NoDup(result) && |resultParent| == |result|
    ensures |Unvisited(cands, result)| < |Unvisited(cands, neighbors)|
  {
    var i := |neighbors| + k;
    var next := base[i];
    assert result[..|base|][i] == result[i];
    assert result[..|neighbors|] == neighbors by {
      assert result[..|neighbors|] == result[..|base|][..|neighbors|];
    }
    forall j | 0 <= j < |neighbors|
      ensures neighbors[j] != next
    {
      assert base[..|neighbors|][j] == base[j];
    }
    assert next in cands by {
      assert base[i] in base;
    }
    ExtendKeeps(cs, cands, neighbors, result);
    assert next in Unvisited(cands, neighbors) && next !in Unvisited(cands, result);
    SubsetSmaller(Unvisited(cands, result), Unvisited(cands, neighbors));
  }

  lemma {:induction false} SubsetNotLarger(a: set<nat>, b: set<nat>)
    requires a <= b
    ensures |a| <= |b|
    decreases |a|
  {
    if a != {} {
      var y :| y in a;
      SubsetNotLarger(a - {y}, b - {y});
    }
  }

  lemma SubsetSmaller(a: set<nat>, b: set<nat>)
    requires a < b
    ensures |a| < |b|
  {
    var x :| x in b && x !in a;
    SubsetNotLarger(a, b - {x});
  }

  /** One turn of the loop over the new neighbours keeps the loop's invariants. */
  lemma LoopStep(cs: seq<Cell>, cands: seq<nat>, cell: nat, neighbors: seq<nat>, base: seq<nat>, k: nat,
                 before: seq<nat>, after: seq<nat>,
                 parent: seq<nat>, baseParent: seq<nat>, beforeParent: seq<nat>, afterParent: seq<nat>)
    requires Grown(cs, cands, neighbors, before, parent, beforeParent)
    requires Grown(cs, cands, base, before, baseParent, beforeParent)
    requires |neighbors| + k < |base|
    requires ClosedAt(cs, cands, before, cell)
    requires ClosedOutside(cs, cands, before, |neighbors|, |neighbors| + k, |base|)
    requires Grown(cs, cands, before, after, beforeParent, afterParent)
    requires ClosedAt(cs, cands, after, before[|neighbors| + k])
    requires ClosedOutside(cs, cands, after, |before|, 0, 0)
    ensures Grown(cs, cands, neighbors, after, parent, afterParent)
    ensures Grown(cs, cands, base, after, baseParent, afterParent)
    ensures ClosedAt(cs, cands, after, cell)
    ensures ClosedOutside(cs, cands, after, |neighbors|, |neighbors| + k + 1, |base|)
  {
    GrownTrans(cs, cands, neighbors, before, after, parent, beforeParent, afterParent);
    GrownTrans(cs, cands, base, before, after, baseParent, beforeParent, afterParent);
    ExtendKeeps(cs, cands, before, after);
    forall i | |neighbors| <= i < |after| && !(|neighbors| + k + 1 <= i < |base|)
      ensures ClosedAt(cs, cands, after, after[i])
    {
      if i < |before| {
        assert after[i] == before[i];
        if i != |neighbors| + k {
          assert ClosedAt(cs, cands, before, before[i]);
        }
      }
    }
  }

  /** What appending the unvisited adjacent candidates gives, before any recursion. */
  lemma FirstStep(cs: seq<Cell>, cands: seq<nat>, cell: nat, neighbors: seq<nat>, adjacent: seq<nat>, newNeighbors: seq<nat>,
                  parent: seq<nat>, c: nat)
    requires ValidCands(cs, cands)
    requires c < |neighbors| && neighbors[c] == cell
    requires forall n :: n in neighbors ==> n in cands
    requires NoDup(neighbors)
    requires |parent| == |neighbors|
    requires adjacent == Filter(cands, (s: nat) => Adjacent(cs, s, cell))
    requires newNeighbors == Filter(adjacent, (s: nat) => !Visited(cs, neighbors, s))
    ensures Grown(cs, cands, neighbors, neighbors + newNeighbors, parent, parent + seq(|newNeighbors|, _ => c))
    ensures ClosedAt(cs, cands, neighbors + newNeighbors, cell)
    ensures |newNeighbors| > 0 ==> Unvisited(cands, neighbors + newNeighbors) < Unvisited(cands, neighbors)
  {
    var base := neighbors + newNeighbors;
    var baseParent := parent + seq(|newNeighbors|, _ => c);
    NewNeighborsFresh(cs, cands, cell, neighbors, adjacent, newNeighbors);
    FirstStepClosed(cs, cands, cell, neighbors, adjacent, newNeighbors);
    forall i | |neighbors| <= i < |base|
      ensures baseParent[i] < i && Adjacent(cs, base[i], base[baseParent[i]])
    {
      assert base[i] in newNeighbors;
      assert baseParent[i] == c && base[c] == cell;
    }
    assert base[..|neighbors|] == neighbors;
    assert baseParent[..|parent|] == parent;
    if |newNeighbors| > 0 {
      assert newNeighbors[0] in Unvisited(cands, neighbors) && newNeighbors[0] !in Unvisited(cands, base);
    }
  }

  /** The appended slots are candidates adjacent to `cell`, none already listed, none repeated. */
  lemma NewNeighborsFresh(cs: seq<Cell>, cands: seq<nat>, cell: nat, neighbors: seq<nat>, adjacent: seq<nat>, newNeighbors: seq<nat>)
    requires ValidCands(cs, cands)
    requires forall n :: n in neighbors ==> n in cands
    requires NoDup(neighbors)
    requires adjacent == Filter(cands, (s: nat) => Adjacent(cs, s, cell))
    requires newNeighbors == Filter(adjacent, (s: nat) => !Visited(cs, neighbors, s))
    ensures forall s :: s in newNeighbors ==> s !in neighbors && s in cands && Adjacent(cs, s, cell)
    ensures forall n :: n in neighbors + newNeighbors ==> n in cands
    ensures NoDup(neighbors + newNeighbors)
  {
    FilterNoDup(cands, (s: nat) => Adjacent(cs, s, cell));
    FilterNoDup(adjacent, (s: nat) => !Visited(cs, neighbors, s));
    forall s | s in newNeighbors
      ensures s !in neighbors
    {
      if s in neighbors {
        assert IsSameCell(cs[s].Pos(), cs[s].Pos());
        assert Visited(cs, neighbors, s);
      }
    }
  }

  /** After the append, every candidate adjacent to `cell` is listed: the visited test compares positions, which are unique. */
  lemma FirstStepClosed(cs: seq<Cell>, cands: seq<nat>, cell: nat, neighbors: seq<nat>, adjacent: seq<nat>, newNeighbors: seq<nat>)
    requires ValidCands(cs, cands)
    requires forall n :: n in neighbors ==> n in cands
    requires adjacent == Filter(cands, (s: nat) => Adjacent(cs, s, cell))
    requires newNeighbors == Filter(adjacent, (s: nat) => !Visited(cs, neighbors, s))
    ensures ClosedAt(cs, cands, neighbors + newNeighbors, cell)
  {
    forall y | y in cands && Adjacent(cs, y, cell)
      ensures y in neighbors + newNeighbors
    {
      if Visited(cs, neighbors, y) {
        var n :| n in neighbors && n < |cs| && y < |cs| && IsSameCell(cs[n].Pos(), cs[y].Pos());
        assert n == y;
      } else {
        assert y in adjacent;
      }
    }
  }

  /**
   * A connected list starting outside a closed group never enters it: walking back along the links
   * would bring the group's closure to its first slot.
   */
  lemma {:induction false} LinkedAvoidsClosed(cs: seq<Cell>, cands: seq<nat>, group: seq<nat>, parent: seq<nat>, other: seq<nat>)
    requires Closed(cs, cands, other)
    requires |group| >= 1 && group[0] !in other
    requires LinkedFrom(cs, group, parent, 1)
    requires forall n :: n in group ==> n in cands
    ensures forall n :: n in group ==> n !in other
  {
    forall i | 0 <= i < |group|
      ensures group[i] !in other
    {
      LinkedAvoidsClosedAt(cs, cands, group, parent, other, i);
    }
  }

  lemma {:induction false} LinkedAvoidsClosedAt(cs: seq<Cell>, cands: seq<nat>, group: seq<nat>, parent: seq<nat>, other: seq<nat>, i: nat)
    requires Closed(cs, cands, other)
    requires |group| >= 1 && group[0] !in other
    requires LinkedFrom(cs, group, parent, 1)
    requires forall n :: n in group ==> n in cands
    requires i < |group|
    ensures group[i] !in other
    decreases i
  {
    if i > 0 {
      var j := parent[i];
      LinkedAvoidsClosedAt(cs, cands, group, parent, other, j);
      if group[i] in other {
        assert ClosedAt(cs, cands, other, group[i]);
        assert Adjacent(cs, group[j], group[i]);
      }
    }
  }

  /** `cells.filter(c => isChair(c) || isTable(c))`, as slot numbers in board order. */
  function Cands(cs: seq<Cell>): (r: seq<nat>)
    ensures forall s: nat :: s in r <==> s < |cs| && Seatable(cs[s])
    ensures NoDup(r)
    ensures Increasing(r)
  {
    RangeNoDup(|cs|);
    FilterNoDup(Range(|cs|), (s: nat) => s < |cs| && Seatable(cs[s]));
    FilterIncreasing(Range(|cs|), (s: nat) => s < |cs| && Seatable(cs[s]));
    Filter(Range(|cs|), (s: nat) => s < |cs| && Seatable(cs[s]))
  }

  /** The slots are listed in board order. */
  predicate Increasing(s: seq<nat>) {
    forall i, j :: 0 <= i < j < |s| ==> s[i] < s[j]
  }

  /** Filtering a list in board order keeps it in board order. */
  lemma {:induction false} FilterIncreasing(s: seq<nat>, f: nat -> bool)
    requires Increasing(s)
    ensures Increasing(Filter(s, f))
  {
    if s != [] {
      FilterIncreasing(s[1..], f);
      var rest := Filter(s[1..], f);
      forall x | x in rest
        ensures s[0] < x
      {
        var k :| 0 <= k < |s[1..]| && s[1..][k] == x;
        assert s[k + 1] == x;
      }
      if f(s[0]) {
        ConsIncreasing(s[0], rest);
      }
    }
  }

  /** A slot before every slot of a list in board order can be put in front of it. */
  lemma ConsIncreasing(a: nat, rest: seq<nat>)
    requires Increasing(rest) && forall x :: x in rest ==> a < x
    ensures Increasing([a] + rest)
  {
    var r := [a] + rest;
    forall i, j | 0 <= i < j < |r|
      ensures r[i] < r[j]
    {
      assert r[j] == rest[j - 1] && rest[j - 1] in rest;
      if i > 0 {
        assert r[i] == rest[i - 1];
      }
    }
  }

  /**
   * The groups are numbered in discovery order: each group's first slot is its smallest, and a group with a
   * smaller number starts at a smaller slot.
   */
  predicate DiscoveryOrder(tables: seq<seq<nat>>) {
    (forall g :: 0 <= g < |tables| ==> |tables[g]| > 0)
    && (forall g, s {:trigger s in tables[g]} :: 0 <= g < |tables| && s in tables[g] ==> tables[g][0] <= s)
    && (forall g, h :: 0 <= g < h < |tables| ==> tables[g][0] < tables[h][0])
  }

  /** Every group so far was started from one of the first `i` candidates. */
  predicate SeededBefore(tables: seq<seq<nat>>, cands: seq<nat>, i: nat) {
    i <= |cands| && forall g :: 0 <= g < |tables| ==> |tables[g]| > 0 && tables[g][0] in cands[..i]
  }

  /**
   * A group started from the `i`-th candidate, holding only cells not numbered yet, comes after the earlier
   * groups in discovery order: its seed follows every earlier seed and precedes its other members.
   */
  lemma OrderAfterNewGroup(cands: seq<nat>, tables: seq<seq<nat>>, group: seq<nat>, i: nat, now: seq<Cell>)
    requires Increasing(cands) && i < |cands|
    requires DiscoveryOrder(tables) && SeededBefore(tables, cands, i)
    requires |group| > 0 && group[0] == cands[i]
    requires forall s :: s in group ==> s in cands && s < |now| && now[s].tableIndex.None?
    requires forall j :: 0 <= j < i ==> cands[j] < |now| && now[cands[j]].tableIndex.Some?
    ensures DiscoveryOrder(tables + [group]) && SeededBefore(tables + [group], cands, i + 1)
  {
    var ts := tables + [group];
    forall s | s in group
      ensures group[0] <= s
    {
      var j :| 0 <= j < |cands| && cands[j] == s;
      assert j >= i;
      if j > i {
        assert cands[i] < cands[j];
      }
    }
    forall g | 0 <= g < |tables|
      ensures tables[g][0] < group[0] && tables[g][0] in cands[..i + 1]
    {
      var j :| 0 <= j < i && cands[..i][j] == tables[g][0];
      assert cands[j] == tables[g][0] && cands[..i + 1][j] == cands[j];
    }
    assert cands[..i + 1][i] == group[0];
    forall g, s | 0 <= g < |ts| && s in ts[g]
      ensures ts[g][0] <= s
    {
      if g < |tables| {
        assert ts[g] == tables[g];
      }
    }
  }

  /** Groups seeded among the first `i` candidates are also seeded among the first `i + 1`. */
  lemma SeededLater(tables: seq<seq<nat>>, cands: seq<nat>, i: nat)
    requires i < |cands| && SeededBefore(tables, cands, i)
    ensures SeededBefore(tables, cands, i + 1)
  {
    forall g | 0 <= g < |tables|
      ensures tables[g][0] in cands[..i + 1]
    {
      var j :| 0 <= j < i && cands[..i][j] == tables[g][0];
      assert cands[..i + 1][j] == cands[j];
    }
  }

  lemma RangeNoDup(n: nat)
    ensures NoDup(Range(n))
  {
  }

  /** A table group as `splitIntoTables` leaves it: non-empty, candidates only, no repeats, closed and connected. */
  predicate GroupOk(cs: seq<Cell>, cands: seq<nat>, group: seq<nat>, parent: seq<nat>) {
    |group| >= 1 && (forall n :: n in group ==> n in cands) && NoDup(group)
    && Closed(cs, cands, group) && LinkedFrom(cs, group, parent, 1)
  }

  /** Slot by slot, `cs` and `now` differ at most in the table index. */
  predicate OnlyTableIndexChanged(cs: seq<Cell>, now: seq<Cell>) {
    |cs| == |now| && forall s :: 0 <= s < |cs| ==> now[s] == cs[s].(tableIndex := now[s].tableIndex)
  }

  /** The table indices written so far agree with the groups found so far. */
  predicate IndexedByGroups(now: seq<Cell>, tables: seq<seq<nat>>) {
    (forall s :: 0 <= s < |now| && now[s].tableIndex.Some? ==>
       0 <= now[s].tableIndex.value < |tables| && s in tables[now[s].tableIndex.value])
    && (forall g, s {:trigger s in tables[g]} :: 0 <= g < |tables| && s in tables[g] ==> s < |now| && now[s].tableIndex == Some(g))
  }

  /** The bookkeeping `splitIntoTables` keeps between cells: valid groups, and indices that match them. */
  predicate SplitState(cs: seq<Cell>, cands: seq<nat>, now: seq<Cell>, tables: seq<seq<nat>>, parents: seq<seq<nat>>) {
    OnlyTableIndexChanged(cs, now)
    && IndexedByGroups(now, tables)
    && |parents| == |tables|
    && (forall g :: 0 <= g < |tables| ==> GroupOk(cs, cands, tables[g], parents[g]))
  }

  /**
   * `splitIntoTables`: walks the chairs and table cells in board order; a cell already in a group gets
   * that group's index, any other starts a new group found by the flood fill, and the whole group gets
   * the next index. In the end every chair and table cell carries the index of the one group holding
   * it, and each group is a connected component of orthogonally adjacent chairs and table cells.
   */
  method SplitIntoTables(cells: array<Cell>) returns (tables: seq<seq<nat>>, ghost parents: seq<seq<nat>>)
    requires UniquePositions(cells[..])
    requires forall s :: 0 <= s < cells.Length ==> cells[s].tableIndex.None?
    modifies cells
    ensures SplitState(old(cells[..]), Cands(old(cells[..])), cells[..], tables, parents)
    ensures forall s :: 0 <= s < cells.Length ==> (cells[s].tableIndex.Some? <==> Seatable(cells[s]))
    ensures DiscoveryOrder(tables)
  {
    var cs := cells[..];
    var cands := Cands(cs);
    tables, parents := [], [];
    for i := 0 to |cands|
      invariant Walked(cs, cands, cells[..], tables, parents, i)
    {
      tables, parents := WalkCell(cells, cs, cands, tables, parents, i);
    }
    SplitDone(cs, cands, cells[..], tables, parents);
  }

  /** The walk's bookkeeping after `i` cells: valid groups in discovery order, and the first `i` cells numbered. */
  predicate Walked(cs: seq<Cell>, cands: seq<nat>, now: seq<Cell>, tables: seq<seq<nat>>, parents: seq<seq<nat>>, i: nat) {
    SplitState(cs, cands, now, tables, parents)
    && (forall j :: 0 <= j < i && j < |cands| ==> cands[j] < |now| && now[cands[j]].tableIndex.Some?)
    && DiscoveryOrder(tables) && SeededBefore(tables, cands, i)
  }

  /** One step of the walk: the `i`-th chair or table cell joins the group holding it or starts a new one. */
  method WalkCell(cells: array<Cell>, cs: seq<Cell>, cands: seq<nat>, tables: seq<seq<nat>>, ghost parents: seq<seq<nat>>, i: nat)
    returns (tables': seq<seq<nat>>, ghost parents': seq<seq<nat>>)
    requires cands == Cands(cs) && UniquePositions(cs) && i < |cands|
    requires Walked(cs, cands, cells[..], tables, parents, i)
    modifies cells
    ensures Walked(cs, cands, cells[..], tables', parents', i + 1)
  {
    tables', parents' := tables, parents;
    var slot := cands[i];
    var cell := cells[slot];
    var found := FindIndex(tables, (t: seq<nat>) => HoldsCellAt(cs, t, cell.Pos()));
    if found.Some? {
      var tableIndex := found.value;
      HeldSlot(cs, tables[tableIndex], slot, cell.Pos());
      JoinGroup(cells, cs, cands, tables, parents, tableIndex, i);
    } else {
      UnheldSlot(cs, tables, slot);
      tables', parents' := StartGroup(cells, cs, cands, tables, parents, slot, i);
    }
  }

  /** The test the walk uses to find the group of a cell: some slot of the group holds a cell at `pos`. */
  predicate HoldsCellAt(cs: seq<Cell>, group: seq<nat>, pos: CellPosition) {
    exists c :: c in group && c < |cs| && IsSameCell(cs[c].Pos(), pos)
  }

  /** A slot whose cell no group holds is in no group. */
  lemma UnheldSlot(cs: seq<Cell>, tables: seq<seq<nat>>, slot: nat)
    requires slot < |cs| && forall t :: t in tables ==> !HoldsCellAt(cs, t, cs[slot].Pos())
    ensures forall g :: 0 <= g < |tables| ==> slot !in tables[g]
  {
    forall g | 0 <= g < |tables|
      ensures slot !in tables[g]
    {
      assert tables[g] in tables;
    }
  }

  /** Positions are unique, so the group holding a cell at the position of slot `slot` holds `slot`. */
  lemma HeldSlot(cs: seq<Cell>, group: seq<nat>, slot: nat, pos: CellPosition)
    requires UniquePositions(cs) && slot < |cs| && cs[slot].Pos() == pos
    requires HoldsCellAt(cs, group, pos)
    ensures slot in group
  {
    var c :| c in group && c < |cs| && IsSameCell(cs[c].Pos(), pos);
    assert c == slot;
  }

  /** After the walk, a slot carries an index exactly when it holds a chair or a table cell. */
  lemma SplitDone(cs: seq<Cell>, cands: seq<nat>, now: seq<Cell>, tables: seq<seq<nat>>, parents: seq<seq<nat>>)
    requires cands == Cands(cs)
    requires SplitState(cs, cands, now, tables, parents)
    requires forall j :: 0 <= j < |cands| ==> cands[j] < |now| && now[cands[j]].tableIndex.Some?
    ensures forall s :: 0 <= s < |now| ==> (now[s].tableIndex.Some? <==> Seatable(now[s]))
  {
    forall s | 0 <= s < |now|
      ensures now[s].tableIndex.Some? <==> Seatable(now[s])
    {
      assert now[s] == cs[s].(tableIndex := now[s].tableIndex);
      if Seatable(now[s]) {
        assert s in cands;
        var j :| 0 <= j < |cands| && cands[j] == s;
      }
    }
  }

  /** The `if` branch of the walk: the cell already belongs to group `tableIndex`, whose index it already carries. */
  method JoinGroup(cells: array<Cell>, cs: seq<Cell>, cands: seq<nat>, tables: seq<seq<nat>>, ghost parents: seq<seq<nat>>,
                   tableIndex: nat, i: nat)
    requires i < |cands| && Walked(cs, cands, cells[..], tables, parents, i)
    requires tableIndex < |tables| && cands[i] in tables[tableIndex]
    modifies cells
    ensures cells[..] == old(cells[..])
    ensures Walked(cs, cands, cells[..], tables, parents, i + 1)
  {
    ghost var before := cells[..];
    var slot := cands[i];
    cells[slot] := cells[slot].(tableIndex := Some(tableIndex));
    assert cells[..] == before;
    SeededLater(tables, cands, i);
    NumberedKept(cands, before, cells[..], i);
  }

  /** Cells already numbered keep their index, so after numbering the `i`-th cell the first `i + 1` are numbered. */
  lemma NumberedKept(cands: seq<nat>, before: seq<Cell>, now: seq<Cell>, i: nat)
    requires i < |cands| && |before| == |now|
    requires forall j :: 0 <= j < i ==> cands[j] < |before| && before[cands[j]].tableIndex.Some?
    requires forall s :: 0 <= s < |now| && before[s].tableIndex.Some? ==> now[s] == before[s]
    requires cands[i] < |now| && now[cands[i]].tableIndex.Some?
    ensures forall j :: 0 <= j <= i ==> cands[j] < |now| && now[cands[j]].tableIndex.Some?
  {
  }

  /** The `else` branch of the walk: flood-fill a new group from `slot` and number it. */
  method StartGroup(cells: array<Cell>, cs: seq<Cell>, cands: seq<nat>, tables: seq<seq<nat>>, ghost parents: seq<seq<nat>>,
                    slot: nat, ghost i: nat)
    returns (tables': seq<seq<nat>>, ghost parents': seq<seq<nat>>)
    requires ValidCands(cs, cands) && Increasing(cands) && i < |cands| && slot == cands[i]
    requires Walked(cs, cands, cells[..], tables, parents, i)
    requires forall g :: 0 <= g < |tables| ==> slot !in tables[g]
    modifies cells
    ensures Walked(cs, cands, cells[..], tables', parents', i + 1)
  {
    var group, groupParent := GetNeighborsRecursively(cs, cands, slot, [slot], [0]);
    NewGroup(cs, cands, cells[..], tables, parents, slot, group, groupParent);
    OrderAfterNewGroup(cands, tables, group, i, cells[..]);
    ghost var before := cells[..];
    WriteTableIndex(cells, group, |tables|);
    GroupAdded(cs, cands, before, cells[..], tables, parents, group, groupParent);
    tables', parents' := tables + [group], parents + [groupParent];
    assert slot in group;
    NumberedKept(cands, before, cells[..], i);
  }

  /** `tableGroup.forEach(c => c.tableIndex = index)` */
  method WriteTableIndex(cells: array<Cell>, group: seq<nat>, index: int)
    requires forall n :: n in group ==> n < cells.Length
    modifies cells
    ensures forall s :: 0 <= s < cells.Length ==>
      cells[s] == if s in group then old(cells[s]).(tableIndex := Some(index)) else old(cells[s])
  {
    for k := 0 to |group|
      invariant forall s :: 0 <= s < cells.Length ==>
        cells[s] == if s in group[..k] then old(cells[s]).(tableIndex := Some(index)) else old(cells[s])
    {
      assert group[k] in group;
      cells[group[k]] := cells[group[k]].(tableIndex := Some(index));
      assert group[..k + 1] == group[..k] + [group[k]];
    }
    assert group[..|group|] == group;
  }

  /** Writing a new group's index into its slots and appending it keeps the bookkeeping. */
  lemma GroupAdded(cs: seq<Cell>, cands: seq<nat>, before: seq<Cell>, after: seq<Cell>,
                   tables: seq<seq<nat>>, parents: seq<seq<nat>>, group: seq<nat>, groupParent: seq<nat>)
    requires |before| == |cs| == |after|
    requires OnlyTableIndexChanged(cs, before)
    requires IndexedByGroups(before, tables)
    requires forall n :: n in group ==> n < |before| && before[n].tableIndex.None?
    requires forall s :: 0 <= s < |after| ==>
      after[s] == if s in group then before[s].(tableIndex := Some(|tables|)) else before[s]
    ensures OnlyTableIndexChanged(cs, after)
    ensures IndexedByGroups(after, tables + [group])
  {
    var ts := tables + [group];
    forall g, s | 0 <= g < |ts| && s in ts[g]
      ensures s < |after| && after[s].tableIndex == Some(g)
    {
      if g < |tables| {
        assert s in tables[g];
      }
    }
  }

  /** A group the flood fill found from a slot in no group is a valid group disjoint from all others. */
  lemma NewGroup(cs: seq<Cell>, cands: seq<nat>, now: seq<Cell>, tables: seq<seq<nat>>, parents: seq<seq<nat>>,
                 slot: nat, group: seq<nat>, groupParent: seq<nat>)
    requires ValidCands(cs, cands) && slot in cands
    requires |now| == |cs|
    requires IndexedByGroups(now, tables)
    requires |parents| == |tables|
    requires forall g :: 0 <= g < |tables| ==> GroupOk(cs, cands, tables[g], parents[g])
    requires forall g :: 0 <= g < |tables| ==> slot !in tables[g]
    requires Grown(cs, cands, [slot], group, [0], groupParent)
    requires ClosedAt(cs, cands, group, slot)
    requires ClosedOutside(cs, cands, group, 1, 0, 0)
    ensures GroupOk(cs, cands, group, groupParent)
    ensures group[0] == slot
    ensures forall n :: n in group ==> n < |now| && now[n].tableIndex.None?
  {
    assert group[0] == slot by { assert group[..1] == [slot]; }
    forall x | x in group
      ensures ClosedAt(cs, cands, group, x)
    {
      var i :| 0 <= i < |group| && group[i] == x;
    }
    forall g | 0 <= g < |tables|
      ensures forall n :: n in group ==> n !in tables[g]
    {
      LinkedAvoidsClosed(cs, cands, group, groupParent, tables[g]);
    }
    assert forall n :: n in group ==> n < |now| && now[n].tableIndex.None?;
  }

  /** Cell (r, c) of the grid stands at row r, column c and has the type at (r, c) of the type grid. */
  predicate IsGridOf(field: seq<seq<Cell>>, baseField: seq<seq<CellType>>) {
    |field| == |baseField|
    && (forall r :: 0 <= r < |field| ==> |field[r]| == |baseField[r]|)
    && (forall r, c :: 0 <= r < |field| && 0 <= c < |field[r]| ==>
          field[r][c].row == r && field[r][c].column == c && field[r][c].cellType == baseField[r][c])
  }

  /** Row `i` of `rows` holds the cells of board row `first + i`, at columns 0, 1, 2, … */
  predicate RowsFrom(rows: seq<seq<Cell>>, first: int) {
    forall r, c :: 0 <= r < |rows| && 0 <= c < |rows[r]| ==> rows[r][c].row == first + r && rows[r][c].column == c
  }

  /** Row-major order: strictly increasing row, then column. */
  predicate Before(a: CellPosition, b: CellPosition) {
    a.row < b.row || (a.row == b.row && a.column < b.column)
  }

  /** Flattening rows laid out like the board gives positions in strictly increasing row-major order. */
  lemma {:induction false} FlattenOrdered(rows: seq<seq<Cell>>, first: int)
    requires RowsFrom(rows, first)
    ensures forall i :: 0 <= i < |Flatten(rows)| ==> Flatten(rows)[i].row >= first
    ensures forall i, j :: 0 <= i < j < |Flatten(rows)| ==> Before(Flatten(rows)[i].Pos(), Flatten(rows)[j].Pos())
  {
    if rows != [] {
      var rest := Flatten(rows[1..]);
      assert RowsFrom(rows[1..], first + 1) by {
        forall r, c | 0 <= r < |rows[1..]| && 0 <= c < |rows[1..][r]|
          ensures rows[1..][r][c].row == first + 1 + r && rows[1..][r][c].column == c
        {
          assert rows[1..][r] == rows[r + 1];
        }
      }
      FlattenOrdered(rows[1..], first + 1);
      var all := Flatten(rows);
      assert all == rows[0] + rest;
      forall i, j | 0 <= i < j < |all|
        ensures Before(all[i].Pos(), all[j].Pos())
      {
        if j < |rows[0]| {
          assert all[i] == rows[0][i] && all[j] == rows[0][j];
        } else if i < |rows[0]| {
          assert all[i] == rows[0][i] && all[j] == rest[j - |rows[0]|];
        } else {
          assert all[i] == rest[i - |rows[0]|] && all[j] == rest[j - |rows[0]|];
        }
      }
    }
  }

  /** The smallest column among the cells. */
  function MinColumn(cells: seq<Cell>): (m: int)
    requires |cells| > 0
    ensures exists c :: c in cells && c.column == m
    ensures forall c :: c in cells ==> m <= c.column
  {
    if |cells| == 1 then cells[0].column
    else
      var rest := MinColumn(cells[1..]);
      assert forall c :: c in cells ==> c == cells[0] || c in cells[1..];
      if cells[0].column <= rest then cells[0].column else rest
  }

  /**
   * `tableCells.find(c => c.column === Math.min(...columns))`: the first table cell in the leftmost
   * column; nothing when the group has no table cell.
   */
  function FirstTableCell(tableCells: seq<Cell>): (r: Option<Cell>)
    ensures r.None? <==> tableCells == []
    ensures r.Some? ==> r.value in tableCells && forall c :: c in tableCells ==> r.value.column <= c.column
  {
    if tableCells == [] then None
    else Find(tableCells, (c: Cell) => c.column == MinColumn(tableCells))
  }

  /** The cells of a group of slots, in group order. */
  function GroupCells(all: seq<Cell>, group: seq<nat>): (r: seq<Cell>)
    requires forall k :: 0 <= k < |group| ==> group[k] < |all|
    ensures |r| == |group|
    ensures forall k :: 0 <= k < |group| ==> r[k] == all[group[k]]
  {
    seq(|group|, k requires 0 <= k < |group| => all[group[k]])
  }

  /** The cell is a table cell. */
  predicate TableTest(c: Cell) {
    IsTable(c.cellType)
  }

  /** The cell is a chair. */
  predicate ChairTest(c: Cell) {
    IsChair(c.cellType)
  }

  /** A group without empty cells splits into its table cells and its chairs without loss. */
  lemma SplitWithoutLoss(cells: seq<Cell>)
    ensures (forall c :: c in cells ==> !IsEmpty(c.cellType)) ==>
      |Filter(cells, TableTest)| + |Filter(cells, ChairTest)| == |cells|
  {
    if forall c :: c in cells ==> !IsEmpty(c.cellType) {
      FilterComplement(cells, TableTest, ChairTest);
    }
  }

  /**
   * The `tables.map` callback on one group's cells: its table cells and chairs, split by type, and its
   * leftmost table cell. A group of chairs and table cells is split without loss.
   */
  function MakeAssignment(cells: seq<Cell>, index: int): (r: TableAssignment)
    ensures r.tableIndex == index
    ensures forall c :: c in r.tableCells <==> c in cells && IsTable(c.cellType)
    ensures forall c :: c in r.chairCells <==> c in cells && IsChair(c.cellType)
    ensures (forall c :: c in cells ==> !IsEmpty(c.cellType)) ==> |r.tableCells| + |r.chairCells| == |cells|
    ensures r.firstTableCell.None? <==> r.tableCells == []
    ensures r.firstTableCell.Some? ==>
      r.firstTableCell.value in r.tableCells && forall c :: c in r.tableCells ==> r.firstTableCell.value.column <= c.column
  {
    var tableCells := Filter(cells, TableTest);
    var chairCells := Filter(cells, ChairTest);
    SplitWithoutLoss(cells);
    TableAssignment(index, FirstTableCell(tableCells), tableCells, chairCells)
  }

  /** The table assignments, one per group, numbered in discovery order (`tables.map`). */
  function Assignments(all: seq<Cell>, tables: seq<seq<nat>>): (r: seq<TableAssignment>)
    requires forall g, k :: 0 <= g < |tables| && 0 <= k < |tables[g]| ==> tables[g][k] < |all|
    ensures |r| == |tables|
    ensures forall t :: 0 <= t < |r| ==> r[t] == MakeAssignment(GroupCells(all, tables[t]), t)
  {
    seq(|tables|, t requires 0 <= t < |tables| => MakeAssignment(GroupCells(all, tables[t]), t))
  }

  /** The row loops of `getGameFieldDataFromBaseField`: one cell per grid entry, at its row and column, not yet numbered. */
  method BuildField(baseField: seq<seq<CellType>>) returns (field: seq<seq<Cell>>)
    ensures |field| == |baseField|
    ensures forall r :: 0 <= r < |field| ==> |field[r]| == |baseField[r]|
    ensures forall r, c :: 0 <= r < |field| && 0 <= c < |field[r]| ==> field[r][c] == Cell(r, c, baseField[r][c], None)
  {
    field := [];
    for row := 0 to |baseField|
      invariant |field| == row
      invariant forall r :: 0 <= r < row ==> |field[r]| == |baseField[r]|
      invariant forall r, c :: 0 <= r < row && 0 <= c < |field[r]| ==> field[r][c] == Cell(r, c, baseField[r][c], None)
    {
      var rowArray: seq<Cell> := [];
      for column := 0 to |baseField[row]|
        invariant |rowArray| == column
        invariant forall c :: 0 <= c < column ==> rowArray[c] == Cell(row, c, baseField[row][c], None)
      {
        rowArray := rowArray + [Cell(row, column, baseField[row][column], None)];
      }
      field := field + [rowArray];
    }
  }

  /**
   * `getGameFieldDataFromBaseField`: builds one cell per grid entry, flattens the rows, splits the chairs and
   * table cells into tables and describes each table. The result's grid matches the type grid and flattens
   * to `allCells`; a cell carries a table index exactly when it is a chair or a table cell; orthogonally
   * adjacent chairs and table cells share their index; table `t`'s table cells and chairs are exactly the
   * cells of that type with index `t`; its first table cell is one in its leftmost column; and each table
   * is connected (`tables`/`parents` are the proof's witnesses, the game keeps only `tableAssignments`).
   */
  method GetGameFieldDataFromBaseField(baseField: seq<seq<CellType>>)
    returns (data: GameFieldData, ghost tables: seq<seq<nat>>, ghost parents: seq<seq<nat>>)
    ensures IsGridOf(data.field, baseField)
    ensures Flatten(data.field) == data.allCells
    ensures forall i :: 0 <= i < |data.allCells| ==> (data.allCells[i].tableIndex.Some? <==> Seatable(data.allCells[i]))
    ensures forall i :: 0 <= i < |data.allCells| && data.allCells[i].tableIndex.Some? ==>
      0 <= data.allCells[i].tableIndex.value < |data.tableAssignments|
    ensures forall i, j ::
      (0 <= i < |data.allCells| && 0 <= j < |data.allCells| && Seatable(data.allCells[i]) && Seatable(data.allCells[j])
       && IsCellNeighbor(data.allCells[i].Pos(), data.allCells[j].Pos()))
      ==> data.allCells[i].tableIndex == data.allCells[j].tableIndex
    ensures forall t :: 0 <= t < |data.tableAssignments| ==> data.tableAssignments[t].tableIndex == t
    ensures forall t, c :: 0 <= t < |data.tableAssignments| ==>
      (c in data.tableAssignments[t].tableCells <==> c in data.allCells && IsTable(c.cellType) && c.tableIndex == Some(t))
    ensures forall t, c :: 0 <= t < |data.tableAssignments| ==>
      (c in data.tableAssignments[t].chairCells <==> c in data.allCells && IsChair(c.cellType) && c.tableIndex == Some(t))
    ensures forall t :: 0 <= t < |data.tableAssignments| ==>
      var ta := data.tableAssignments[t];
      (ta.firstTableCell.None? <==> ta.tableCells == [])
      && (ta.firstTableCell.Some? ==>
            ta.firstTableCell.value in ta.tableCells && forall c :: c in ta.tableCells ==> ta.firstTableCell.value.column <= c.column)
    ensures |tables| == |data.tableAssignments| == |parents|
    ensures forall t, s :: 0 <= t < |tables| && 0 <= s < |data.allCells| ==> (data.allCells[s].tableIndex == Some(t) <==> s in tables[t])
    ensures forall t :: 0 <= t < |tables| ==> |tables[t]| >= 1 && LinkedFrom(data.allCells, tables[t], parents[t], 1)
    ensures DiscoveryOrder(tables)
    ensures forall j, h :: 0 <= j < |data.allCells| && data.allCells[j].tableIndex == Some(h) && h > 0 ==>
      exists i :: 0 <= i < j && data.allCells[i].tableIndex == Some(h - 1)
  {
    var field := BuildField(baseField);
    var allCells := Flatten(field);
    FreshGrid(field, baseField);
    var cells := new Cell[|allCells|](i requires 0 <= i < |allCells| => allCells[i]);
    assert cells[..] == allCells;
    var groups;
    groups, parents := SplitIntoTables(cells);
    tables := groups;
    var all := cells[..];
    var newField := Regroup(all, field);
    BoardDescribed(baseField, field, all, newField, tables, parents);
    NumberedInBoardOrder(all, tables);
    data := GameFieldData(all, newField, Assignments(all, groups));
  }

  /**
   * Groups are numbered in the order the walk meets them: every cell of group `h > 0` comes after
   * some cell of group `h - 1` in board order.
   */
  lemma NumberedInBoardOrder(all: seq<Cell>, tables: seq<seq<nat>>)
    requires IndexedByGroups(all, tables) && DiscoveryOrder(tables)
    ensures forall j, h :: 0 <= j < |all| && all[j].tableIndex == Some(h) && h > 0 ==>
      exists i :: 0 <= i < j && all[i].tableIndex == Some(h - 1)
  {
    forall j, h | 0 <= j < |all| && all[j].tableIndex == Some(h) && h > 0
      ensures exists i :: 0 <= i < j && all[i].tableIndex == Some(h - 1)
    {
      assert j in tables[h];
      var first := tables[h - 1][0];
      assert first in tables[h - 1];
      assert first < tables[h][0] <= j;
      assert all[first].tableIndex == Some(h - 1);
    }
  }

  /** The facts `getGameFieldDataFromBaseField` states, for the numbered cells cut back into rows. */
  lemma BoardDescribed(baseField: seq<seq<CellType>>, field: seq<seq<Cell>>, all: seq<Cell>, newField: seq<seq<Cell>>,
                       tables: seq<seq<nat>>, parents: seq<seq<nat>>)
    requires IsGridOf(field, baseField)
    requires SplitState(Flatten(field), Cands(Flatten(field)), all, tables, parents)
    requires forall s :: 0 <= s < |all| ==> (all[s].tableIndex.Some? <==> Seatable(all[s]))
    requires |newField| == |field| && (forall r :: 0 <= r < |field| ==> |newField[r]| == |field[r]|)
    requires Flatten(newField) == all
    ensures IsGridOf(newField, baseField)
    ensures forall g, k :: 0 <= g < |tables| && 0 <= k < |tables[g]| ==> tables[g][k] < |all|
    ensures var data := GameFieldData(all, newField, Assignments(all, tables));
      (forall i :: 0 <= i < |data.allCells| && data.allCells[i].tableIndex.Some? ==>
         0 <= data.allCells[i].tableIndex.value < |data.tableAssignments|)
      && (forall i, j ::
            (0 <= i < |data.allCells| && 0 <= j < |data.allCells| && Seatable(data.allCells[i]) && Seatable(data.allCells[j])
             && IsCellNeighbor(data.allCells[i].Pos(), data.allCells[j].Pos()))
            ==> data.allCells[i].tableIndex == data.allCells[j].tableIndex)
      && (forall t :: 0 <= t < |data.tableAssignments| ==> data.tableAssignments[t].tableIndex == t)
      && (forall t, c :: 0 <= t < |data.tableAssignments| ==>
            (c in data.tableAssignments[t].tableCells <==> c in data.allCells && IsTable(c.cellType) && c.tableIndex == Some(t)))
      && (forall t, c :: 0 <= t < |data.tableAssignments| ==>
            (c in data.tableAssignments[t].chairCells <==> c in data.allCells && IsChair(c.cellType) && c.tableIndex == Some(t)))
      && (forall t :: 0 <= t < |data.tableAssignments| ==>
            var ta := data.tableAssignments[t];
            (ta.firstTableCell.None? <==> ta.tableCells == [])
            && (ta.firstTableCell.Some? ==>
                  ta.firstTableCell.value in ta.tableCells && forall c :: c in ta.tableCells ==> ta.firstTableCell.value.column <= c.column))
      && |tables| == |data.tableAssignments| == |parents|
      && (forall t, s :: 0 <= t < |tables| && 0 <= s < |data.allCells| ==> (data.allCells[s].tableIndex == Some(t) <==> s in tables[t]))
      && (forall t :: 0 <= t < |tables| ==> |tables[t]| >= 1 && LinkedFrom(data.allCells, tables[t], parents[t], 1))
  {
    var allCells := Flatten(field);
    RegroupGrid(allCells, all, field, newField, baseField);
    ClosedTables(allCells, Cands(allCells), all, tables, parents);
    AssignmentsMatch(allCells, Cands(allCells), all, tables, parents);
  }

  /** The freshly built grid flattens to cells on pairwise different positions, none of them numbered yet. */
  lemma FreshGrid(field: seq<seq<Cell>>, baseField: seq<seq<CellType>>)
    requires |field| == |baseField|
    requires forall r :: 0 <= r < |field| ==> |field[r]| == |baseField[r]|
    requires forall r, c :: 0 <= r < |field| && 0 <= c < |field[r]| ==> field[r][c] == Cell(r, c, baseField[r][c], None)
    ensures UniquePositions(Flatten(field))
    ensures forall i :: 0 <= i < |Flatten(field)| ==> Flatten(field)[i].tableIndex.None?
  {
    assert RowsFrom(field, 0);
    FlattenOrdered(field, 0);
    forall i | 0 <= i < |Flatten(field)|
      ensures Flatten(field)[i].tableIndex.None?
    {
      FlattenMember(field, Flatten(field)[i]);
    }
  }

  /** Cutting the numbered cells back into rows gives a grid that still matches the type grid. */
  lemma RegroupGrid(allCells: seq<Cell>, all: seq<Cell>, field: seq<seq<Cell>>, newField: seq<seq<Cell>>, baseField: seq<seq<CellType>>)
    requires IsGridOf(field, baseField)
    requires allCells == Flatten(field)
    requires OnlyTableIndexChanged(allCells, all)
    requires |newField| == |field| && (forall r :: 0 <= r < |field| ==> |newField[r]| == |field[r]|)
    requires Flatten(newField) == all
    ensures IsGridOf(newField, baseField)
  {
    forall r, c | 0 <= r < |newField| && 0 <= c < |newField[r]|
      ensures newField[r][c].row == r && newField[r][c].column == c && newField[r][c].cellType == baseField[r][c]
    {
      FlattenAt(newField, r, c);
      FlattenAt(field, r, c);
      OffsetByLengths(newField, field, r);
      var i := Offset(field, r) + c;
      assert all[i] == allCells[i].(tableIndex := all[i].tableIndex);
    }
  }

  /** Adjacent chairs and table cells end up with the same table index. */
  lemma ClosedTables(cs: seq<Cell>, cands: seq<nat>, now: seq<Cell>, tables: seq<seq<nat>>, parents: seq<seq<nat>>)
    requires cands == Cands(cs)
    requires SplitState(cs, cands, now, tables, parents)
    requires forall s :: 0 <= s < |now| ==> (now[s].tableIndex.Some? <==> Seatable(now[s]))
    ensures forall i, j ::
      (0 <= i < |now| && 0 <= j < |now| && Seatable(now[i]) && Seatable(now[j]) && IsCellNeighbor(now[i].Pos(), now[j].Pos()))
      ==> now[i].tableIndex == now[j].tableIndex
  {
    forall i, j | 0 <= i < |now| && 0 <= j < |now| && Seatable(now[i]) && Seatable(now[j])
      && IsCellNeighbor(now[i].Pos(), now[j].Pos())
      ensures now[i].tableIndex == now[j].tableIndex
    {
      var g := now[i].tableIndex.value;
      assert i in tables[g];
      assert ClosedAt(cs, cands, tables[g], i);
      assert now[i] == cs[i].(tableIndex := now[i].tableIndex);
      assert now[j] == cs[j].(tableIndex := now[j].tableIndex);
      AdjacencySymmetric(now[i].Pos(), now[j].Pos());
      assert j in cands && Adjacent(cs, j, i);
    }
  }

  /**
   * Each assignment lists exactly the cells numbered with its index, split by type, and the groups stay
   * connected when read in the numbered cells (only table indices changed).
   */
  lemma AssignmentsMatch(cs: seq<Cell>, cands: seq<nat>, now: seq<Cell>, tables: seq<seq<nat>>, parents: seq<seq<nat>>)
    requires SplitState(cs, cands, now, tables, parents)
    ensures forall g, k :: 0 <= g < |tables| && 0 <= k < |tables[g]| ==> tables[g][k] < |now|
    ensures forall t, c :: 0 <= t < |tables| ==>
      (c in Assignments(now, tables)[t].tableCells <==> c in now && IsTable(c.cellType) && c.tableIndex == Some(t))
    ensures forall t, c :: 0 <= t < |tables| ==>
      (c in Assignments(now, tables)[t].chairCells <==> c in now && IsChair(c.cellType) && c.tableIndex == Some(t))
    ensures forall t, s :: 0 <= t < |tables| && 0 <= s < |now| ==> (now[s].tableIndex == Some(t) <==> s in tables[t])
    ensures forall t :: 0 <= t < |tables| ==> |tables[t]| >= 1 && LinkedFrom(now, tables[t], parents[t], 1)
  {
    GroupsInRange(now, tables);
    forall t, c | 0 <= t < |tables|
      ensures c in GroupCells(now, tables[t]) <==> c in now && c.tableIndex == Some(t)
    {
      GroupCellsIndexed(cs, cands, now, tables, parents, t, c);
    }
    forall t | 0 <= t < |tables|
      ensures LinkedFrom(now, tables[t], parents[t], 1)
    {
      assert GroupOk(cs, cands, tables[t], parents[t]);
      forall i | 1 <= i < |tables[t]|
        ensures Adjacent(now, tables[t][i], tables[t][parents[t][i]])
      {
        var a, b := tables[t][i], tables[t][parents[t][i]];
        assert Adjacent(cs, a, b);
        assert now[a] == cs[a].(tableIndex := now[a].tableIndex);
        assert now[b] == cs[b].(tableIndex := now[b].tableIndex);
      }
    }
  }

  lemma GroupsInRange(now: seq<Cell>, tables: seq<seq<nat>>)
    requires IndexedByGroups(now, tables)
    ensures forall g, k :: 0 <= g < |tables| && 0 <= k < |tables[g]| ==> tables[g][k] < |now|
  {
    forall g, k | 0 <= g < |tables| && 0 <= k < |tables[g]|
      ensures tables[g][k] < |now|
    {
      assert tables[g][k] in tables[g];
    }
  }

  /** The cells of group `t` are exactly the cells numbered `t`. */
  lemma GroupCellsIndexed(cs: seq<Cell>, cands: seq<nat>, now: seq<Cell>, tables: seq<seq<nat>>, parents: seq<seq<nat>>, t: nat, c: Cell)
    requires SplitState(cs, cands, now, tables, parents)
    requires t < |tables|
    requires forall k :: 0 <= k < |tables[t]| ==> tables[t][k] < |now|
    ensures c in GroupCells(now, tables[t]) <==> c in now && c.tableIndex == Some(t)
  {
    var cells := GroupCells(now, tables[t]);
    if c in cells {
      var k :| 0 <= k < |cells| && cells[k] == c;
      assert tables[t][k] in tables[t];
    }
    if c in now && c.tableIndex == Some(t) {
      var s :| 0 <= s < |now| && now[s] == c;
      var k :| 0 <= k < |tables[t]| && tables[t][k] == s;
      assert cells[k] == c;
    }
  }
}

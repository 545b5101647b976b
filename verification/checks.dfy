/**
 * The distress evaluator and the board queries around it: which chairs each guest covers,
 * who is afraid of whom, which tables hold thirteen guests, and who is happy.
 */
module Checks {
  import opened Wrappers
  import opened Seqs
  import opened Phobias
  import opened Types

  /** `getCellNeighbors`' adjacency: directly above, below, left or right. */
  predicate IsCellNeighbor(c: CellPosition, of: CellPosition) {
    (c.column == of.column && (c.row == of.row - 1 || c.row == of.row + 1))
    || (c.row == of.row && (c.column == of.column - 1 || c.column == of.column + 1))
  }

  /** `getChairNeighbors`' adjacency: the seat above, the seat below, or any seat across in the same row. */
  predicate IsChairNeighbor(chair: CellPosition, cell: CellPosition) {
    (chair.column == cell.column && (chair.row == cell.row - 1 || chair.row == cell.row + 1))
    || (chair.row == cell.row && chair.column != cell.column)
  }

  /** Both adjacencies are symmetric and never relate a cell to itself. */
  lemma AdjacencySymmetric(a: CellPosition, b: CellPosition)
    ensures IsCellNeighbor(a, b) == IsCellNeighbor(b, a) && !IsCellNeighbor(a, a)
    ensures IsChairNeighbor(a, b) == IsChairNeighbor(b, a) && !IsChairNeighbor(a, a)
  {
  }

  /** `getCellNeighbors`: the cells of the list orthogonally adjacent to `cell`. */
  function GetCellNeighbors(cells: seq<Cell>, cell: CellPosition): (r: seq<Cell>)
    ensures forall c :: c in r <==> c in cells && IsCellNeighbor(c.Pos(), cell)
    ensures forall c :: c in r ==> !IsSameCell(c.Pos(), cell)
  {
    Filter(cells, (c: Cell) => IsCellNeighbor(c.Pos(), cell))
  }

  /** `getChairNeighbors`: the table's chairs above, below or across from `cell`; never `cell` itself. */
  function GetChairNeighbors(ta: TableAssignment, cell: CellPosition): (r: seq<Cell>)
    ensures forall c :: c in r <==> c in ta.chairCells && IsChairNeighbor(c.Pos(), cell)
    ensures forall c :: c in r ==> !IsSameCell(c.Pos(), cell)
  {
    Filter(ta.chairCells, (c: Cell) => IsChairNeighbor(c.Pos(), cell))
  }

  /** `getNeighbors`: the guests at the same table index above, below or across from `self`. */
  function GetNeighbors(placed: seq<Person>, self: CellPosition, tableIndex: Option<int>): (r: seq<Person>)
    ensures forall p :: p in r <==> p in placed && p.tableIndex == tableIndex && IsChairNeighbor(p.Pos(), self)
    ensures forall p :: p in r ==> !IsSameCell(p.Pos(), self)
  {
    Filter(placed, (p: Person) => p.tableIndex == tableIndex && IsChairNeighbor(p.Pos(), self))
  }

  /** `getGuestsOnTable`: the guests whose table index is `tableIndex`. */
  function GetGuestsOnTable(placed: seq<Person>, tableIndex: Option<int>): (r: seq<Person>)
    ensures forall p :: p in r <==> p in placed && p.tableIndex == tableIndex
  {
    Filter(placed, (p: Person) => p.tableIndex == tableIndex)
  }

  /** `getTableCells`: the table (decoration) cells carrying `tableIndex`. */
  function GetTableCells(f: GameFieldData, tableIndex: Option<int>): (r: seq<Cell>)
    ensures forall c :: c in r <==> c in f.allCells && IsTable(c.cellType) && c.tableIndex == tableIndex
  {
    Filter(f.allCells, (c: Cell) => IsTable(c.cellType) && c.tableIndex == tableIndex)
  }

  /** `getNearestTableCell`: the first table cell of the chair's table that lies in the chair's row. */
  function GetNearestTableCell(f: GameFieldData, cell: CellPosition, tableIndex: Option<int>): (r: Option<Cell>)
    ensures r.Some? ==> r.value in f.allCells && IsTable(r.value.cellType)
                        && r.value.tableIndex == tableIndex && r.value.row == cell.row
    ensures r.None? <==> forall c :: c in f.allCells && IsTable(c.cellType) && c.tableIndex == tableIndex ==> c.row != cell.row
  {
    Find(GetTableCells(f, tableIndex), (c: Cell) => c.row == cell.row)
  }

  /** `isHappy`: seated at a table, not panicking, and not at a table of thirteen. */
  predicate IsHappy(p: Person) {
    IsAtTable(p.tableIndex) && !p.hasPanic && !p.triskaidekaphobia
  }

  /** `getHappyGuests` */
  function GetHappyGuests(persons: seq<Person>): (r: seq<Person>)
    ensures forall p :: p in r <==> p in persons && IsHappy(p)
  {
    Filter(persons, IsHappy)
  }

  /** `isEmptyChair` with the placed guests fixed, as the filter test of `getEmptyChairs`. */
  function EmptyChairTest(placed: seq<Person>): Cell -> bool {
    (c: Cell) => IsEmptyChair(placed, c)
  }

  /** `getEmptyChairs`: every chair of the board with nobody on it. */
  function GetEmptyChairs(f: GameFieldData, placed: seq<Person>): (r: seq<Cell>)
    ensures forall c :: c in r <==> c in f.allCells && IsChair(c.cellType) && !HasPerson(placed, c.Pos())
  {
    Filter(f.allCells, EmptyChairTest(placed))
  }

  datatype HappyStats = HappyStats(happyGuests: nat, totalGuests: nat, hasWon: bool)

  /**
   * `getHappyStats(persons, waitingPersons)`: the game is won exactly when nobody waits and every
   * guest on the board is happy.
   */
  function GetHappyStats(persons: seq<Person>, waiting: seq<WaitingPerson>): (r: HappyStats)
    ensures r.totalGuests == |persons| + |waiting|
    ensures r.happyGuests <= |persons|
    ensures r.hasWon <==> |waiting| == 0 && forall p :: p in persons ==> IsHappy(p)
  {
    var happy := |GetHappyGuests(persons)|;
    var total := |persons| + |waiting|;
    AllHappyCount(persons);
    HappyStats(happy, total, happy == total)
  }

  /** Every guest is happy exactly when the happy guests are as many as the guests. */
  lemma AllHappyCount(persons: seq<Person>)
    ensures |GetHappyGuests(persons)| == |persons| <==> forall p :: p in persons ==> IsHappy(p)
  {
    if |GetHappyGuests(persons)| == |persons| {
      FilterFull(persons, IsHappy);
    }
    if forall p :: p in persons ==> IsHappy(p) {
      FilterAll(persons, IsHappy);
    }
  }

  // ----- checkTableStates -----

  /**
   * The chairs a guest of type `name` sitting on `pos` covers at its table (`affects`): every other
   * chair of the table for a table-scoped type, the chair neighbours otherwise.
   */
  function Coverage(ta: TableAssignment, name: Phobia, pos: CellPosition, tablePhobias: set<Phobia>): (r: seq<Cell>)
    ensures forall c :: c in r ==> c in ta.chairCells && !IsSameCell(c.Pos(), pos)
    ensures name in tablePhobias ==>
      forall c :: c in ta.chairCells && !IsSameCell(c.Pos(), pos) ==> c in r
    ensures name !in tablePhobias ==>
      forall c :: c in r <==> c in ta.chairCells && IsChairNeighbor(c.Pos(), pos)
  {
    if name in tablePhobias then Filter(ta.chairCells, (c: Cell) => !IsSameCell(c.Pos(), pos))
    else GetChairNeighbors(ta, pos)
  }

  /** The guest's table index names one of the board's tables. */
  predicate SeatedAtKnownTable(f: GameFieldData, g: Person) {
    g.tableIndex.Some? && 0 <= g.tableIndex.value < |f.tableAssignments|
  }

  /** The fields `checkTableStates` never writes are equal. */
  predicate SameGuest(a: Person, b: Person) {
    a.id == b.id && a.name == b.name && a.phobia == b.phobia && a.fear == b.fear && a.smallFear == b.smallFear
    && a.row == b.row && a.column == b.column && a.tableIndex == b.tableIndex
  }

  /** First pass for one guest: coverage and the thirteen-guests flag are recomputed at a known table. */
  function Covered(f: GameFieldData, placed: seq<Person>, g: Person, tablePhobias: set<Phobia>): Person {
    if SeatedAtKnownTable(f, g) then
      g.(affects := Coverage(f.tableAssignments[g.tableIndex.value], g.name, g.Pos(), tablePhobias),
         triskaidekaphobia := |GetGuestsOnTable(placed, g.tableIndex)| == 13)
    else g
  }

  function CoveredAll(f: GameFieldData, placed: seq<Person>, tablePhobias: set<Phobia>): (r: seq<Person>)
    ensures |r| == |placed|
  {
    seq(|placed|, k requires 0 <= k < |placed| => Covered(f, placed, placed[k], tablePhobias))
  }

  /** Some chair covered by `other` is the cell `pos`. */
  predicate Covers(other: Person, pos: CellPosition) {
    exists c :: c in other.affects && IsSameCell(c.Pos(), pos)
  }

  /** The positions, in list order, of the guests covering `pos`. */
  function AffectedBy(ps: seq<Person>, pos: CellPosition): (r: seq<nat>)
    ensures forall j: nat :: j in r <==> j < |ps| && Covers(ps[j], pos)
  {
    Filter(Range(|ps|), (j: nat) => j < |ps| && Covers(ps[j], pos))
  }

  /** One of the guests listed in `affecting` is of the type `g` is afraid of. */
  predicate Triggered(ps: seq<Person>, affecting: seq<nat>, g: Person) {
    exists j: nat :: j in affecting && j < |ps| && Some(ps[j].name) == g.phobia
  }

  /** Second pass for one guest: who covers its cell, and whether one of them is what it fears. */
  function Judged(ps: seq<Person>, k: nat): Person
    requires k < |ps|
  {
    var affecting := AffectedBy(ps, ps[k].Pos());
    ps[k].(affectedBy := affecting, hasPanic := Triggered(ps, affecting, ps[k]))
  }

  function JudgedAll(ps: seq<Person>): (r: seq<Person>)
    ensures |r| == |ps|
  {
    seq(|ps|, k requires 0 <= k < |ps| => Judged(ps, k))
  }

  /** Third pass for one guest: a guest in the room (no table) is calm and affected by nobody. */
  function Cleared(g: Person): Person {
    if g.tableIndex.None? then g.(hasPanic := false, triskaidekaphobia := false, affectedBy := []) else g
  }

  function ClearedAll(ps: seq<Person>): (r: seq<Person>)
    ensures |r| == |ps|
  {
    seq(|ps|, k requires 0 <= k < |ps| => Cleared(ps[k]))
  }

  /**
   * The guest list after `checkTableStates`: the three passes one after the other. What each guest
   * ends up with is stated by the lemmas below.
   */
  function Evaluate(f: GameFieldData, placed: seq<Person>, tablePhobias: set<Phobia>): (r: seq<Person>)
    ensures |r| == |placed|
    ensures forall k :: 0 <= k < |r| ==> SameGuest(r[k], placed[k])
  {
    ClearedAll(JudgedAll(CoveredAll(f, placed, tablePhobias)))
  }

  /** The chairs a guest covers after evaluation are those of the first pass. */
  lemma EvaluateKeepsCoverage(f: GameFieldData, placed: seq<Person>, tablePhobias: set<Phobia>)
    ensures forall j :: 0 <= j < |placed| ==>
      Evaluate(f, placed, tablePhobias)[j].affects == CoveredAll(f, placed, tablePhobias)[j].affects
      && Evaluate(f, placed, tablePhobias)[j].name == placed[j].name
  {
  }

  /** A guest at a known table covers the chairs its type reaches and carries its table's thirteen-guests flag. */
  lemma EvaluateAtKnownTable(f: GameFieldData, placed: seq<Person>, tablePhobias: set<Phobia>, k: nat)
    requires k < |placed| && SeatedAtKnownTable(f, placed[k])
    ensures Evaluate(f, placed, tablePhobias)[k].affects
      == Coverage(f.tableAssignments[placed[k].tableIndex.value], placed[k].name, placed[k].Pos(), tablePhobias)
    ensures Evaluate(f, placed, tablePhobias)[k].triskaidekaphobia <==>
      |GetGuestsOnTable(placed, placed[k].tableIndex)| == 13
  {
  }

  /** A guest whose table index names no table keeps its coverage, and at a table also its thirteen-guests flag. */
  lemma EvaluateOffTable(f: GameFieldData, placed: seq<Person>, tablePhobias: set<Phobia>, k: nat)
    requires k < |placed| && !SeatedAtKnownTable(f, placed[k])
    ensures Evaluate(f, placed, tablePhobias)[k].affects == placed[k].affects
    ensures placed[k].tableIndex.Some? ==>
      Evaluate(f, placed, tablePhobias)[k].triskaidekaphobia == placed[k].triskaidekaphobia
  {
  }

  /** A guest in the room, away from every table, ends calm and affected by nobody. */
  lemma EvaluateRoomGuest(f: GameFieldData, placed: seq<Person>, tablePhobias: set<Phobia>, k: nat)
    requires k < |placed| && placed[k].tableIndex.None?
    ensures !Evaluate(f, placed, tablePhobias)[k].hasPanic
    ensures !Evaluate(f, placed, tablePhobias)[k].triskaidekaphobia
    ensures Evaluate(f, placed, tablePhobias)[k].affectedBy == []
  {
  }

  /**
   * A guest at a table is affected by exactly the guests whose (new) coverage includes its cell,
   * and panics exactly when one of them is of the type it is afraid of.
   */
  lemma {:induction false} EvaluatePanic(f: GameFieldData, placed: seq<Person>, tablePhobias: set<Phobia>, k: nat)
    requires k < |placed| && placed[k].tableIndex.Some?
    ensures var r := Evaluate(f, placed, tablePhobias);
      forall j: nat :: j in r[k].affectedBy <==> j < |r| && Covers(r[j], r[k].Pos())
    ensures var r := Evaluate(f, placed, tablePhobias);
      r[k].hasPanic <==> exists j :: 0 <= j < |r| && Covers(r[j], r[k].Pos()) && Some(r[j].name) == r[k].phobia
  {
    var r := Evaluate(f, placed, tablePhobias);
    var covered := CoveredAll(f, placed, tablePhobias);
    var pos := r[k].Pos();
    EvaluateKeepsCoverage(f, placed, tablePhobias);
    assert r[k] == Judged(covered, k);
    assert covered[k].Pos() == pos && covered[k].phobia == r[k].phobia;
    var affecting := AffectedBy(covered, pos);
    assert r[k].affectedBy == affecting;
    forall j | 0 <= j < |r|
      ensures Covers(r[j], pos) == Covers(covered[j], pos) && r[j].name == covered[j].name
    {
      assert r[j].affects == covered[j].affects;
    }
    assert r[k].hasPanic == Triggered(covered, affecting, covered[k]);
  }

  /** The table cells `checkTableStates` reports for the first `n` tables: those of tables holding thirteen guests. */
  function PanickedTableCells(f: GameFieldData, placed: seq<Person>, n: nat): (r: seq<Cell>)
    requires n <= |f.tableAssignments|
    ensures forall c :: c in r <==> c in f.allCells && IsTable(c.cellType) && c.tableIndex.Some?
                                    && 0 <= c.tableIndex.value < n && |GetGuestsOnTable(placed, c.tableIndex)| == 13
  {
    if n == 0 then []
    else
      var before := PanickedTableCells(f, placed, n - 1);
      if |GetGuestsOnTable(placed, Some(n - 1))| == 13 then before + GetTableCells(f, Some(n - 1)) else before
  }

  /** The guest's table index names one of the first `t` tables. */
  predicate SeatedBelow(g: Person, t: int) {
    g.tableIndex.Some? && 0 <= g.tableIndex.value < t
  }

  /**
   * `checkTableStates`: the updated guest list and the table cells of every table holding exactly
   * thirteen guests. The three passes run in the order the game runs them.
   */
  method CheckTableStates(f: GameFieldData, placed: seq<Person>, tablePhobias: set<Phobia>)
    returns (updated: seq<Person>, panicked: seq<Cell>)
    ensures updated == Evaluate(f, placed, tablePhobias)
    ensures panicked == PanickedTableCells(f, placed, |f.tableAssignments|)
  {
    var covered;
    covered, panicked := CoverTables(f, placed, tablePhobias);
    var judged := JudgeGuests(covered);
    updated := ClearRoomGuests(judged);
  }

  /** First pass, table by table: head count, reported cells, and each guest's coverage and flag. */
  method CoverTables(f: GameFieldData, placed: seq<Person>, tablePhobias: set<Phobia>)
    returns (ps: seq<Person>, panicked: seq<Cell>)
    ensures ps == CoveredAll(f, placed, tablePhobias)
    ensures panicked == PanickedTableCells(f, placed, |f.tableAssignments|)
  {
    ps := placed;
    panicked := [];
    for t := 0 to |f.tableAssignments|
      invariant |ps| == |placed|
      invariant forall k :: 0 <= k < |ps| ==>
        ps[k] == if SeatedBelow(placed[k], t) then Covered(f, placed, placed[k], tablePhobias) else placed[k]
      invariant panicked == PanickedTableCells(f, placed, t)
    {
      var ta := f.tableAssignments[t];
      var guests := GetGuestsOnTable(ps, Some(t));
      TableCountsAgree(ps, placed, Some(t));
      var isPanic := |guests| == 13;
      if isPanic {
        panicked := panicked + GetTableCells(f, Some(t));
      }
      var before := ps;
      ps := CoverTable(ta, t, isPanic, ps, tablePhobias);
      forall k | 0 <= k < |ps|
        ensures ps[k] == if SeatedBelow(placed[k], t + 1) then Covered(f, placed, placed[k], tablePhobias) else placed[k]
      {
        assert ps[k] == CoverGuest(ta, t, isPanic, before[k], tablePhobias);
      }
    }
  }

  /** A guest of table `t` gets its coverage at that table and the table's flag; anyone else is untouched. */
  function CoverGuest(ta: TableAssignment, t: int, isPanic: bool, g: Person, tablePhobias: set<Phobia>): Person {
    if g.tableIndex == Some(t) then g.(affects := Coverage(ta, g.name, g.Pos(), tablePhobias), triskaidekaphobia := isPanic)
    else g
  }

  /** The `guests.forEach` of one table. */
  method CoverTable(ta: TableAssignment, t: int, isPanic: bool, ps: seq<Person>, tablePhobias: set<Phobia>)
    returns (qs: seq<Person>)
    ensures |qs| == |ps|
    ensures forall i :: 0 <= i < |ps| ==> qs[i] == CoverGuest(ta, t, isPanic, ps[i], tablePhobias)
  {
    qs := ps;
    for k := 0 to |qs|
      invariant |qs| == |ps|
      invariant forall i :: 0 <= i < k ==> qs[i] == CoverGuest(ta, t, isPanic, ps[i], tablePhobias)
      invariant forall i :: k <= i < |qs| ==> qs[i] == ps[i]
    {
      if qs[k].tableIndex == Some(t) {
        var guest := qs[k];
        qs := qs[k := guest.(affects := Coverage(ta, guest.name, guest.Pos(), tablePhobias), triskaidekaphobia := isPanic)];
      }
    }
  }

  /** Second pass, guest by guest: who affects it and whether it panics. */
  method JudgeGuests(covered: seq<Person>) returns (ps: seq<Person>)
    ensures ps == JudgedAll(covered)
  {
    ps := covered;
    for k := 0 to |ps|
      invariant |ps| == |covered|
      invariant forall i :: 0 <= i < k ==> ps[i] == Judged(covered, i)
      invariant forall i :: k <= i < |ps| ==> ps[i] == covered[i]
    {
      var guest := ps[k];
      var affectedBy := AffectedBy(covered, guest.Pos());
      ps := ps[k := guest.(affectedBy := affectedBy, hasPanic := Triggered(covered, affectedBy, guest))];
    }
  }

  /** Third pass: the guests standing in the room are reset. */
  method ClearRoomGuests(judged: seq<Person>) returns (ps: seq<Person>)
    ensures ps == ClearedAll(judged)
  {
    ps := judged;
    for k := 0 to |ps|
      invariant |ps| == |judged|
      invariant forall i :: 0 <= i < k ==> ps[i] == Cleared(judged[i])
      invariant forall i :: k <= i < |ps| ==> ps[i] == judged[i]
    {
      if ps[k].tableIndex.None? {
        ps := ps[k := ps[k].(hasPanic := false, triskaidekaphobia := false, affectedBy := [])];
      }
    }
  }

  /** Guests whose table indices agree position by position give every table the same head count. */
  lemma TableCountsAgree(a: seq<Person>, b: seq<Person>, tableIndex: Option<int>)
    requires |a| == |b|
    requires forall k :: 0 <= k < |a| ==> a[k].tableIndex == b[k].tableIndex
    ensures |GetGuestsOnTable(a, tableIndex)| == |GetGuestsOnTable(b, tableIndex)|
  {
    FilterLengthPointwise(a, (p: Person) => p.tableIndex == tableIndex, b, (p: Person) => p.tableIndex == tableIndex);
  }

  /** Lists whose guests cover the same chairs agree on who covers any cell. */
  lemma AffectedByAgree(a: seq<Person>, b: seq<Person>, pos: CellPosition)
    requires |a| == |b|
    requires forall k :: 0 <= k < |a| ==> a[k].affects == b[k].affects
    ensures AffectedBy(a, pos) == AffectedBy(b, pos)
  {
    FilterExt(Range(|a|), (j: nat) => j < |a| && Covers(a[j], pos), (j: nat) => j < |b| && Covers(b[j], pos));
  }

  /** The first pass leaves each guest of an evaluated list as it is. */
  lemma CoveredStableAt(f: GameFieldData, placed: seq<Person>, tablePhobias: set<Phobia>, k: nat)
    requires k < |placed|
    ensures var e := Evaluate(f, placed, tablePhobias);
      Covered(f, e, e[k], tablePhobias) == e[k]
  {
    var e := Evaluate(f, placed, tablePhobias);
    if SeatedAtKnownTable(f, e[k]) {
      assert SameGuest(e[k], placed[k]);
      EvaluateAtKnownTable(f, placed, tablePhobias, k);
      TableCountsAgree(e, placed, e[k].tableIndex);
    }
  }

  /** Re-running the first pass on an evaluated list changes nothing. */
  lemma {:induction false} CoveredStable(f: GameFieldData, placed: seq<Person>, tablePhobias: set<Phobia>)
    ensures CoveredAll(f, Evaluate(f, placed, tablePhobias), tablePhobias) == Evaluate(f, placed, tablePhobias)
  {
    var e := Evaluate(f, placed, tablePhobias);
    var c1 := CoveredAll(f, e, tablePhobias);
    forall k | 0 <= k < |e|
      ensures c1[k] == e[k]
    {
      CoveredStableAt(f, placed, tablePhobias, k);
    }
  }

  /** The second and third passes leave each guest of an evaluated list as it is. */
  lemma JudgedStableAt(f: GameFieldData, placed: seq<Person>, tablePhobias: set<Phobia>, k: nat)
    requires k < |placed|
    ensures var e := Evaluate(f, placed, tablePhobias);
      Cleared(Judged(e, k)) == e[k]
  {
    var e := Evaluate(f, placed, tablePhobias);
    var c0 := CoveredAll(f, placed, tablePhobias);
    EvaluateKeepsCoverage(f, placed, tablePhobias);
    AffectedByAgree(e, c0, e[k].Pos());
    assert e[k] == Cleared(Judged(c0, k));
  }

  /** Re-running the second and third passes on an evaluated list changes nothing. */
  lemma {:induction false} JudgedStable(f: GameFieldData, placed: seq<Person>, tablePhobias: set<Phobia>)
    ensures ClearedAll(JudgedAll(Evaluate(f, placed, tablePhobias))) == Evaluate(f, placed, tablePhobias)
  {
    var e := Evaluate(f, placed, tablePhobias);
    var e2 := ClearedAll(JudgedAll(e));
    forall k | 0 <= k < |e|
      ensures e2[k] == e[k]
    {
      JudgedStableAt(f, placed, tablePhobias, k);
    }
  }

  /** Evaluating the board a second time changes nothing: the state `checkTableStates` leaves is stable. */
  lemma {:induction false} EvaluateIdempotent(f: GameFieldData, placed: seq<Person>, tablePhobias: set<Phobia>)
    ensures Evaluate(f, Evaluate(f, placed, tablePhobias), tablePhobias) == Evaluate(f, placed, tablePhobias)
  {
    CoveredStable(f, placed, tablePhobias);
    JudgedStable(f, placed, tablePhobias);
  }
}

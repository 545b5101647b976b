/** The game's records (cells, guests, table groups, settings) and the small queries on them. */
module Types {
  import opened Wrappers
  import opened Phobias

  datatype GameMetaData = GameMetaData(minMoves: int, maxMoves: int)

  /** The three kinds of board cell: nothing, table decoration, chair. */
  datatype CellType = Empty | Table | Chair

  /**
   * Per-tier generation settings. `chanceForTablePhobia` is kept as data only; the probabilities it
   * controls are replaced by caller-supplied choices.
   */
  datatype Settings = Settings(minAmount: int, maxAmount: int, chanceForTablePhobia: real, minInitialPanic: int)

  datatype CellPosition = CellPosition(row: int, column: int)

  /** A board cell; chairs and table cells receive a `tableIndex` when the field is built. */
  datatype Cell = Cell(row: int, column: int, cellType: CellType, tableIndex: Option<int>) {
    function Pos(): CellPosition { CellPosition(row, column) }
  }

  /**
   * A guest on the board (a placed person). `affectedBy` holds the positions in the placed list
   * of the guests whose coverage includes this guest's cell.
   */
  datatype Person = Person(
    id: Option<int>,
    name: Phobia,
    phobia: Option<Phobia>,
    fear: Option<Phobia>,
    smallFear: Option<Phobia>,
    row: int,
    column: int,
    tableIndex: Option<int>,
    hasPanic: bool,
    triskaidekaphobia: bool,
    affects: seq<Cell>,
    affectedBy: seq<nat>)
  {
    function Pos(): CellPosition { CellPosition(row, column) }
  }

  /** A guest in the waiting area: identity only, no position. */
  datatype WaitingPerson = WaitingPerson(id: Option<int>, name: Phobia, phobia: Option<Phobia>, fear: Option<Phobia>, smallFear: Option<Phobia>)

  /** One connected cluster of chair and table cells. */
  datatype TableAssignment = TableAssignment(tableIndex: int, firstTableCell: Option<Cell>, tableCells: seq<Cell>, chairCells: seq<Cell>)

  /** The built board: the flat cell list, the grid of rows, and the table groups. */
  datatype GameFieldData = GameFieldData(allCells: seq<Cell>, field: seq<seq<Cell>>, tableAssignments: seq<TableAssignment>)

  predicate IsTable(t: CellType) { t == Table }
  predicate IsChair(t: CellType) { t == Chair }
  predicate IsEmpty(t: CellType) { t == Empty }

  /** Every cell type is exactly one of table, chair and empty. */
  lemma CellTypesExclusive(t: CellType)
    ensures IsTable(t) || IsChair(t) || IsEmpty(t)
    ensures !(IsTable(t) && IsChair(t)) && !(IsTable(t) && IsEmpty(t)) && !(IsChair(t) && IsEmpty(t))
  {
  }

  /** `isSameCell`: only the row and the column are compared. */
  predicate IsSameCell(a: CellPosition, b: CellPosition) {
    a.row == b.row && a.column == b.column
  }

  lemma SameCellIsEquivalence(a: CellPosition, b: CellPosition, c: CellPosition)
    ensures IsSameCell(a, a)
    ensures IsSameCell(a, b) == IsSameCell(b, a)
    ensures IsSameCell(a, b) && IsSameCell(b, c) ==> IsSameCell(a, c)
  {
  }

  /** `isAtTable` */
  predicate IsAtTable(tableIndex: Option<int>) {
    tableIndex.Some?
  }

  /** `hasPerson`: some placed guest stands on the position. */
  predicate HasPerson(placed: seq<Person>, pos: CellPosition) {
    exists i :: 0 <= i < |placed| && IsSameCell(placed[i].Pos(), pos)
  }

  /** Index of the first placed guest on the position, as `find` scans. */
  function FindPersonIndex(placed: seq<Person>, pos: CellPosition): (r: Option<nat>)
    ensures r.Some? ==> r.value < |placed| && IsSameCell(placed[r.value].Pos(), pos)
    ensures r.Some? ==> forall j :: 0 <= j < r.value ==> !IsSameCell(placed[j].Pos(), pos)
    ensures r.None? <==> !HasPerson(placed, pos)
  {
    if placed == [] then None
    else if IsSameCell(placed[0].Pos(), pos) then Some(0)
    else
      match FindPersonIndex(placed[1..], pos)
      case None => None
      case Some(k) => Some(k + 1)
  }

  /** `findPerson`: the first placed guest on the position, if any. */
  function FindPerson(placed: seq<Person>, pos: CellPosition): (r: Option<Person>)
    ensures r.Some? <==> HasPerson(placed, pos)
    ensures r.Some? ==> r.value in placed && IsSameCell(r.value.Pos(), pos)
  {
    match FindPersonIndex(placed, pos)
    case None => None
    case Some(k) => Some(placed[k])
  }

  /** `isEmptyChair`: a chair with nobody on it. */
  predicate IsEmptyChair(placed: seq<Person>, cell: Cell) {
    IsChair(cell.cellType) && !HasPerson(placed, cell.Pos())
  }

  /** No two entries of the list stand on the same position. */
  predicate DistinctPositions(list: seq<Person>) {
    forall i, j :: 0 <= i < j < |list| ==> !IsSameCell(list[i].Pos(), list[j].Pos())
  }

  /**
   * `pushCellIfNotInList`: appends the guest unless an entry on the same position is already there.
   * The list grows by at most one, afterwards holds an entry on the position, and gains no duplicate position.
   */
  function PushCellIfNotInList(p: Person, list: seq<Person>): (r: seq<Person>)
    ensures r == list || r == list + [p]
    ensures r == list <==> HasPerson(list, p.Pos())
    ensures HasPerson(r, p.Pos())
    ensures DistinctPositions(list) ==> DistinctPositions(r)
  {
    if FindPersonIndex(list, p.Pos()).Some? then list
    else
      assert IsSameCell((list + [p])[|list|].Pos(), p.Pos());
      list + [p]
  }
}

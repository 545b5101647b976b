/**
 * The selection and move controller of the board: the click handler's state machine over the selected
 * guest, the last clicked cell and the move counter, and the evaluation after each move.
 */
module GameField {
  import opened Wrappers
  import opened Phobias
  import opened Types
  import opened Checks
  import opened Globals
  import opened GameLogic

  /** Evaluation rewrites flags only, so guests on distinct cells stay on distinct cells. */
  lemma EvaluateKeepsDistinct(f: GameFieldData, placed: seq<Person>, tablePhobias: set<Phobia>)
    requires DistinctPositions(placed)
    ensures DistinctPositions(Evaluate(f, placed, tablePhobias))
  {
    var r := Evaluate(f, placed, tablePhobias);
    forall i, j | 0 <= i < j < |r|
      ensures !IsSameCell(r[i].Pos(), r[j].Pos())
    {
      assert SameGuest(r[i], placed[i]) && SameGuest(r[j], placed[j]);
    }
  }

  /**
   * A won board after evaluation: nobody waits, every guest sits at a table without panic, and no guest
   * at one of the board's tables shares it with twelve others.
   */
  lemma {:induction false} WonBoardIsCalm(f: GameFieldData, placed: seq<Person>, waiting: seq<WaitingPerson>,
                                          tablePhobias: set<Phobia>)
    requires GetHappyStats(Evaluate(f, placed, tablePhobias), waiting).hasWon
    ensures waiting == []
    ensures forall k :: 0 <= k < |placed| ==> placed[k].tableIndex.Some? && !Evaluate(f, placed, tablePhobias)[k].hasPanic
    ensures forall k :: 0 <= k < |placed| && SeatedAtKnownTable(f, placed[k]) ==>
      |GetGuestsOnTable(placed, placed[k].tableIndex)| != 13
  {
    var r := Evaluate(f, placed, tablePhobias);
    forall k | 0 <= k < |placed|
      ensures placed[k].tableIndex.Some? && !r[k].hasPanic
      ensures SeatedAtKnownTable(f, placed[k]) ==> |GetGuestsOnTable(placed, placed[k].tableIndex)| != 13
    {
      assert r[k] in r;
      assert IsHappy(r[k]);
      assert SameGuest(r[k], placed[k]);
      if SeatedAtKnownTable(f, placed[k]) {
        EvaluateAtKnownTable(f, placed, tablePhobias, k);
      }
    }
  }

  /** The module-level state of the board component. `clickedCell` is the selected guest's position in the placed list. */
  class GameFieldState {
    var clickedCell: Option<nat>
    var lastClickedCell: Option<Cell>
    var hasMadeFirstMove: bool
    var moves: int

    /** Nothing selected, nothing clicked, no move made. */
    predicate Idle()
      reads this
    {
      clickedCell.None? && lastClickedCell.None? && !hasMadeFirstMove && moves == 0
    }

    /** The selection names a guest of the placed list. */
    predicate SelectionValid(g: GameGlobals)
      reads this, g
    {
      clickedCell.Some? ==> clickedCell.value < |g.placedPersons|
    }

    /** The state when the component module loads. */
    constructor()
      ensures Idle()
    {
      clickedCell := None;
      lastClickedCell := None;
      hasMadeFirstMove := false;
      moves := 0;
    }

    /** The resets at the start of `startNewGame`: no first move, no selection, no clicked cell, no moves. */
    method StartNewGame()
      modifies this
      ensures Idle()
    {
      hasMadeFirstMove := false;
      clickedCell := None;
      lastClickedCell := None;
      moves := 0;
    }

    /**
     * `cellClickHandler(rowIndex, columnIndex)`. A click on a cell without a guest does nothing when no guest
     * is selected or the cell is part of a table. Otherwise, with a guest selected, a click on its own cell
     * clears the selection, a click on another guest selects that guest, and a click on a free cell moves the
     * selected guest there, counts the move, evaluates the board and clears the selection. With nothing
     * selected, a click on a guest selects it. `hasWon` is the outcome of the evaluation after a move.
     */
    method CellClickHandler(g: GameGlobals, row: nat, column: nat, tablePhobias: set<Phobia>) returns (hasWon: bool)
      requires row < |g.gameFieldData.field| && column < |g.gameFieldData.field[row]|
      requires SelectionValid(g)
      modifies this, g
      ensures SelectionValid(g)
      ensures hasMadeFirstMove
      ensures var cell := old(g.gameFieldData.field[row][column]);
        lastClickedCell == if !HasPerson(old(g.placedPersons), cell.Pos()) && old(lastClickedCell).Some?
                                && IsSameCell(cell.Pos(), old(lastClickedCell).value.Pos())
                             then None else Some(cell)
      ensures g.waitingPersons == old(g.waitingPersons) && g.gameFieldData == old(g.gameFieldData)
      ensures g.onboardingStep == old(g.onboardingStep) && g.settings == old(g.settings) && g.metaData == old(g.metaData)
      // No guest under the cursor, and nothing selected or a table cell clicked: nothing happens.
      ensures var cell := old(g.gameFieldData.field[row][column]);
        !HasPerson(old(g.placedPersons), cell.Pos()) && (old(clickedCell).None? || IsTable(cell.cellType)) ==>
          clickedCell == old(clickedCell) && moves == old(moves) && g.placedPersons == old(g.placedPersons) && !hasWon
      // The selected guest's own cell: the selection is cleared.
      ensures var cell := old(g.gameFieldData.field[row][column]);
        old(clickedCell).Some? && IsSameCell(old(g.placedPersons)[old(clickedCell).value].Pos(), cell.Pos()) ==>
          clickedCell.None? && moves == old(moves) && g.placedPersons == old(g.placedPersons) && !hasWon
      // Another guest's cell: that guest becomes the selection.
      ensures var cell := old(g.gameFieldData.field[row][column]);
        HasPerson(old(g.placedPersons), cell.Pos())
        && !(old(clickedCell).Some? && IsSameCell(old(g.placedPersons)[old(clickedCell).value].Pos(), cell.Pos())) ==>
          clickedCell == FindPersonIndex(old(g.placedPersons), cell.Pos())
          && moves == old(moves) && g.placedPersons == old(g.placedPersons) && !hasWon
      // A free cell outside the tables with a guest selected: one move.
      ensures var cell := old(g.gameFieldData.field[row][column]);
        old(clickedCell).Some? && !HasPerson(old(g.placedPersons), cell.Pos()) && !IsTable(cell.cellType) ==>
          var i := old(clickedCell).value;
          moves == old(moves) + 1 && clickedCell.None?
          && g.placedPersons == Evaluate(g.gameFieldData, old(g.placedPersons)[i := Moved(old(g.placedPersons)[i], cell)], tablePhobias)
          && hasWon == GetHappyStats(g.placedPersons, g.waitingPersons).hasWon
      ensures DistinctPositions(old(g.placedPersons)) ==> DistinctPositions(g.placedPersons)
    {
      hasWon := false;
      hasMadeFirstMove := true;
      var cell := g.gameFieldData.field[row][column];

      if !HasPerson(g.placedPersons, cell.Pos()) && lastClickedCell.Some? && IsSameCell(cell.Pos(), lastClickedCell.value.Pos()) {
        lastClickedCell := None;
      } else {
        lastClickedCell := Some(cell);
      }

      if !HasPerson(g.placedPersons, cell.Pos()) {
        if clickedCell.None? || IsTable(cell.cellType) {
          return;
        }
      }

      var person := FindPersonIndex(g.placedPersons, cell.Pos());

      if clickedCell.Some? {
        var selected := clickedCell.value;
        if IsSameCell(g.placedPersons[selected].Pos(), cell.Pos()) {
          clickedCell := None;
          return;
        }

        if person.Some? {
          clickedCell := person;
          return;
        }

        hasWon := MoveSelectedGuest(g, selected, cell, tablePhobias);
        moves := moves + 1;
        clickedCell := None;
      } else {
        clickedCell := person;
      }
    }
  }

  /**
   * The move branch of `cellClickHandler`: the selected guest moves to the free cell, and the board is
   * evaluated. Guests on distinct cells stay on distinct cells.
   */
  method MoveSelectedGuest(g: GameGlobals, selected: nat, cell: Cell, tablePhobias: set<Phobia>) returns (hasWon: bool)
    requires selected < |g.placedPersons| && !HasPerson(g.placedPersons, cell.Pos())
    modifies g
    ensures g.placedPersons == Evaluate(g.gameFieldData, old(g.placedPersons)[selected := Moved(old(g.placedPersons)[selected], cell)], tablePhobias)
    ensures hasWon == GetHappyStats(g.placedPersons, g.waitingPersons).hasWon
    ensures g.waitingPersons == old(g.waitingPersons) && g.gameFieldData == old(g.gameFieldData)
    ensures g.onboardingStep == old(g.onboardingStep) && g.settings == old(g.settings) && g.metaData == old(g.metaData)
    ensures DistinctPositions(old(g.placedPersons)) ==> DistinctPositions(g.placedPersons)
  {
    if DistinctPositions(g.placedPersons) {
      MoveKeepsDistinct(g.placedPersons, selected, cell);
      EvaluateKeepsDistinct(g.gameFieldData, g.placedPersons[selected := Moved(g.placedPersons[selected], cell)], tablePhobias);
    }
    MovePerson(g, selected, cell);
    hasWon := UpdateState(g, tablePhobias);
  }

  /**
   * `updateState`: the board is evaluated (flags and coverage of every guest rewritten in place) and the
   * game is won when nobody waits and every guest is happy.
   */
  method UpdateState(g: GameGlobals, tablePhobias: set<Phobia>) returns (hasWon: bool)
    modifies g
    ensures g.placedPersons == Evaluate(g.gameFieldData, old(g.placedPersons), tablePhobias)
    ensures hasWon == GetHappyStats(g.placedPersons, g.waitingPersons).hasWon
    ensures hasWon ==> g.waitingPersons == []
    ensures g.waitingPersons == old(g.waitingPersons) && g.gameFieldData == old(g.gameFieldData)
    ensures g.onboardingStep == old(g.onboardingStep) && g.settings == old(g.settings) && g.metaData == old(g.metaData)
  {
    var updated, panickedTableCells := CheckTableStates(g.gameFieldData, g.placedPersons, tablePhobias);
    g.placedPersons := updated;
    var stats := GetHappyStats(g.placedPersons, g.waitingPersons);
    hasWon := stats.hasWon;
  }
}

/**
 * Moving a seated guest, seating a waiting guest, and turning a seated guest back into a waiting one.
 * The guest lists are the `waitingPersons` and `placedPersons` fields of the shared game state.
 */
module GameLogic {
  import opened Wrappers
  import opened Seqs
  import opened Phobias
  import opened Types
  import opened Globals
  import opened Initialize

  /** The guest with row, column and table index taken from `to`. */
  function Moved(p: Person, to: Cell): (r: Person)
    ensures r.Pos() == to.Pos() && r.tableIndex == to.tableIndex
    ensures Identity(r) == Identity(p)
    ensures r.hasPanic == p.hasPanic && r.triskaidekaphobia == p.triskaidekaphobia
    ensures r.affects == p.affects && r.affectedBy == p.affectedBy
  {
    p.(row := to.row, column := to.column, tableIndex := to.tableIndex)
  }

  /** Moving a guest back to the cell it came from restores it. */
  lemma MoveBack(p: Person, to: Cell)
    ensures Moved(Moved(p, to), Cell(p.row, p.column, Chair, p.tableIndex)) == p
  {
  }

  /**
   * `movePerson`: the guest at position `i` of the placed list takes the target's row, column and
   * table index; nothing else about it, and nobody else, changes.
   */
  method MovePerson(g: GameGlobals, i: nat, to: Cell)
    requires i < |g.placedPersons|
    modifies g
    ensures g.placedPersons == old(g.placedPersons)[i := Moved(old(g.placedPersons)[i], to)]
    ensures g.waitingPersons == old(g.waitingPersons) && g.gameFieldData == old(g.gameFieldData)
    ensures g.onboardingStep == old(g.onboardingStep) && g.previousOnboardingStep == old(g.previousOnboardingStep)
    ensures g.settings == old(g.settings) && g.difficulty == old(g.difficulty) && g.metaData == old(g.metaData)
    ensures g.isWon == old(g.isWon) && g.language == old(g.language)
  {
    g.placedPersons := g.placedPersons[i := Moved(g.placedPersons[i], to)];
  }

  /** A move to a cell nobody stands on keeps the guests on distinct cells. */
  lemma MoveKeepsDistinct(placed: seq<Person>, i: nat, to: Cell)
    requires i < |placed| && DistinctPositions(placed)
    requires !HasPerson(placed, to.Pos())
    ensures DistinctPositions(placed[i := Moved(placed[i], to)])
  {
    var after := placed[i := Moved(placed[i], to)];
    forall a, b | 0 <= a < b < |after|
      ensures !IsSameCell(after[a].Pos(), after[b].Pos())
    {
      if a != i && b != i {
        assert after[a] == placed[a] && after[b] == placed[b];
      } else if a == i {
        assert after[b] == placed[b];
        assert !IsSameCell(placed[b].Pos(), to.Pos());
      } else {
        assert after[a] == placed[a];
        assert !IsSameCell(placed[a].Pos(), to.Pos());
      }
    }
  }

  /** The test `placePersonOnField` filters the waiting list with: a different `id`. */
  function OtherId(id: Option<int>): WaitingPerson -> bool {
    (p: WaitingPerson) => p.id != id
  }

  /**
   * `placePersonOnField`: the guest, seated on `target` with no panic and no relations, is appended to the
   * placed list, and every waiting guest with the same `id` leaves the waiting list.
   */
  method PlacePersonOnField(g: GameGlobals, person: WaitingPerson, target: Cell) returns (placedPerson: Person)
    modifies g
    ensures placedPerson == SeatAt(person, target)
    ensures g.placedPersons == old(g.placedPersons) + [placedPerson]
    ensures g.waitingPersons == Filter(old(g.waitingPersons), OtherId(person.id))
    ensures g.gameFieldData == old(g.gameFieldData) && g.onboardingStep == old(g.onboardingStep)
    ensures g.settings == old(g.settings) && g.difficulty == old(g.difficulty) && g.metaData == old(g.metaData)
  {
    placedPerson := SeatAt(person, target);
    g.waitingPersons := Filter(g.waitingPersons, OtherId(person.id));
    g.placedPersons := g.placedPersons + [placedPerson];
  }

  /** After placing, no waiting guest carries the placed guest's `id`, and every other waiting guest stays, in order. */
  lemma PlacedIdLeavesWaiting(waiting: seq<WaitingPerson>, person: WaitingPerson)
    ensures forall w :: w in Filter(waiting, OtherId(person.id)) ==> w.id != person.id
    ensures forall w :: w in waiting && w.id != person.id ==> w in Filter(waiting, OtherId(person.id))
    ensures |Filter(waiting, OtherId(person.id))| < |waiting| <==> exists w :: w in waiting && w.id == person.id
  {
    var kept := Filter(waiting, OtherId(person.id));
    if exists w :: w in waiting && w.id == person.id {
      if |kept| == |waiting| {
        FilterFull(waiting, OtherId(person.id));
      }
    } else {
      FilterAll(waiting, OtherId(person.id));
    }
  }

  /**
   * Placing a guest without an `id` empties the waiting list of every guest without one: all generated
   * guests leave the waiting area at once.
   */
  lemma IdlessPlacementDropsAll(waiting: seq<WaitingPerson>, person: WaitingPerson)
    requires person.id.None?
    requires forall w :: w in waiting ==> w.id.None?
    ensures Filter(waiting, OtherId(person.id)) == []
  {
    FilterNone(waiting, OtherId(person.id));
  }

  /** With two generated guests waiting, placing the first leaves nobody waiting. */
  lemma IdlessPlacementExample(a: Phobia, b: Phobia)
    ensures var first := WaitingPerson(None, a, None, None, None);
      Filter([first, WaitingPerson(None, b, None, None, None)], OtherId(first.id)) == []
  {
    var first := WaitingPerson(None, a, None, None, None);
    IdlessPlacementDropsAll([first, WaitingPerson(None, b, None, None, None)], first);
  }

  /**
   * The waiting guest at position `i` seated on `target`: exactly that entry leaves the waiting list,
   * whatever the `id`s are.
   */
  method PlaceWaitingPersonOnField(g: GameGlobals, i: nat, target: Cell) returns (placedPerson: Person)
    requires i < |g.waitingPersons|
    modifies g
    ensures placedPerson == SeatAt(old(g.waitingPersons)[i], target)
    ensures g.placedPersons == old(g.placedPersons) + [placedPerson]
    ensures g.waitingPersons == old(g.waitingPersons)[..i] + old(g.waitingPersons)[i + 1..]
    ensures g.gameFieldData == old(g.gameFieldData) && g.onboardingStep == old(g.onboardingStep)
    ensures g.settings == old(g.settings) && g.difficulty == old(g.difficulty) && g.metaData == old(g.metaData)
  {
    placedPerson := SeatAt(g.waitingPersons[i], target);
    g.waitingPersons := g.waitingPersons[..i] + g.waitingPersons[i + 1..];
    g.placedPersons := g.placedPersons + [placedPerson];
  }

  /** Removing one entry keeps every other guest: the guests waiting and seated together are the same as before. */
  lemma PlaceWaitingKeepsGuests(waiting: seq<WaitingPerson>, i: nat, target: Cell)
    requires i < |waiting|
    ensures multiset(waiting[..i] + waiting[i + 1..]) + multiset{Identity(SeatAt(waiting[i], target))} == multiset(waiting)
    ensures |waiting[..i] + waiting[i + 1..]| == |waiting| - 1
  {
    assert waiting == waiting[..i] + [waiting[i]] + waiting[i + 1..];
  }

  /** `transformPlacedPersonToWaitingPerson`: the guest's `id`, `name` and `phobia`; its fears are not carried over. */
  function TransformPlacedPersonToWaitingPerson(p: Person): (r: WaitingPerson)
    ensures r.id == p.id && r.name == p.name && r.phobia == p.phobia
    ensures r.fear.None? && r.smallFear.None?
  {
    WaitingPerson(p.id, p.name, p.phobia, None, None)
  }

  /** Seating a guest without fears and turning it back into a waiting guest gives the original guest. */
  lemma PlaceThenTransform(w: WaitingPerson, target: Cell)
    requires w.fear.None? && w.smallFear.None?
    ensures TransformPlacedPersonToWaitingPerson(SeatAt(w, target)) == w
  {
  }

  /** A guest with a fear loses it on the way back to the waiting area. */
  lemma TransformDropsFear(w: WaitingPerson, target: Cell)
    requires w.fear.Some? || w.smallFear.Some?
    ensures TransformPlacedPersonToWaitingPerson(SeatAt(w, target)) != w
  {
  }
}

/**
 * Setting up a game: the board with its fixed table numbering, the seat search that keeps new guests
 * away from guests they fear, the generation of a guest list, and the split into waiting and seated guests.
 */
module Initialize {
  import opened Wrappers
  import opened Seqs
  import opened Phobias
  import opened Types
  import opened Checks
  import opened Par
  import opened BaseField
  import opened Globals
  import opened Onboarding

  // ----- the board -----

  /**
   * `getGameFieldObject`: a cell of the given type at (row, column). Chairs and table cells get a table
   * index: the level's rule during onboarding, otherwise 1 right of column 3 and 0 elsewhere.
   */
  function GetGameFieldObject(t: CellType, row: int, column: int, rule: Option<TableIndexRule>): (r: Cell)
    ensures r.row == row && r.column == column && r.cellType == t
    ensures r.tableIndex.Some? <==> !IsEmpty(t)
    ensures r.tableIndex.Some? ==> 0 <= r.tableIndex.value <= 1
    ensures rule.None? && !IsEmpty(t) ==> r.tableIndex == Some(if column > 3 then 1 else 0)
    ensures rule.Some? && !IsEmpty(t) ==> r.tableIndex == Some(TableIndexOf(rule.value, row, column))
  {
    var index := match rule
      case None => if column > 3 then 1 else 0
      case Some(levelRule) => TableIndexOf(levelRule, row, column);
    Cell(row, column, t, if IsChair(t) || IsTable(t) then Some(index) else None)
  }

  /** The type grid a game is built from: the level's during onboarding, the regular board otherwise. */
  function FieldOf(data: Option<OnboardingData>): seq<seq<CellType>> {
    if data.Some? then data.value.field else BASE_FIELD
  }

  function RuleOf(data: Option<OnboardingData>): Option<TableIndexRule> {
    if data.Some? then Some(data.value.rule) else None
  }

  /**
   * `getGameFieldData`: the cell grid of the type grid, cell by cell. Every chair and table cell of the
   * result has table index 0 or 1.
   */
  method GetGameFieldData(data: Option<OnboardingData>) returns (gameField: seq<seq<Cell>>)
    ensures IsGridOf(gameField, FieldOf(data))
    ensures forall r, c :: 0 <= r < |gameField| && 0 <= c < |gameField[r]| ==>
      gameField[r][c] == GetGameFieldObject(FieldOf(data)[r][c], r, c, RuleOf(data))
  {
    var field := FieldOf(data);
    gameField := [];
    for row := 0 to |field|
      invariant |gameField| == row
      invariant forall r :: 0 <= r < row ==> |gameField[r]| == |field[r]|
      invariant forall r, c :: 0 <= r < row && 0 <= c < |gameField[r]| ==>
        gameField[r][c] == GetGameFieldObject(field[r][c], r, c, RuleOf(data))
    {
      var rowArray: seq<Cell> := [];
      for column := 0 to |field[row]|
        invariant |rowArray| == column
        invariant forall c :: 0 <= c < column ==> rowArray[c] == GetGameFieldObject(field[row][c], row, c, RuleOf(data))
      {
        rowArray := rowArray + [GetGameFieldObject(field[row][column], row, column, RuleOf(data))];
      }
      gameField := gameField + [rowArray];
    }
  }

  // ----- the seat search -----

  /** `fear` is set and is the colour `name`. */
  predicate Fears(fear: Option<Phobia>, name: Phobia) {
    fear == Some(name)
  }

  /**
   * `isTriggeringPhobia`: seating `person` on `cell` would put it at a table with a guest it fears or who
   * fears it, or next to a guest it or who has it as small fear.
   */
  predicate IsTriggeringPhobia(placed: seq<Person>, cell: Cell, person: WaitingPerson) {
    (exists g :: g in GetGuestsOnTable(placed, cell.tableIndex) && (Fears(person.fear, g.name) || Fears(g.fear, person.name)))
    || (exists g :: g in GetNeighbors(placed, cell.Pos(), cell.tableIndex)
          && (Fears(person.smallFear, g.name) || Fears(g.smallFear, person.name)))
  }

  /** At a table where nobody sits yet, a guest triggers nobody. */
  lemma EmptyTableNeverTriggers(placed: seq<Person>, cell: Cell, person: WaitingPerson)
    requires forall p :: p in placed ==> p.tableIndex != cell.tableIndex
    ensures !IsTriggeringPhobia(placed, cell, person)
  {
  }

  /** A chair `findValidChair` accepts: free, and without a fear either way. */
  predicate IsValidChair(placed: seq<Person>, person: WaitingPerson, c: Cell) {
    IsEmptyChair(placed, c) && !IsTriggeringPhobia(placed, c, person)
  }

  /**
   * `findValidChair`: the first chair of the board, in `allCells` order, that is free and where the person
   * triggers nobody; none only when every free chair triggers.
   */
  function FindValidChair(f: GameFieldData, placed: seq<Person>, person: WaitingPerson): (r: Option<Cell>)
    ensures r.Some? ==> r.value in f.allCells && IsValidChair(placed, person, r.value)
    ensures r.None? <==> forall c :: c in f.allCells ==> !IsValidChair(placed, person, c)
    ensures r.Some? ==> exists k :: (0 <= k < |f.allCells| && f.allCells[k] == r.value
      && forall j :: 0 <= j < k ==> !IsValidChair(placed, person, f.allCells[j]))
  {
    var calm := (c: Cell) => !IsTriggeringPhobia(placed, c, person);
    FindFiltered(f.allCells, EmptyChairTest(placed), calm);
    Find(GetEmptyChairs(f, placed), calm)
  }

  // ----- generating guests -----

  /**
   * `generatePerson` with its random inputs supplied: the colour `namePick`, the roll `roll` in [0, 1),
   * and the colours drawn for the fear and the small fear from the pools the source draws them from.
   * A fear is drawn when the roll is above `1 - chanceForBigFear`, a small fear when it is below
   * `chanceForSmallFear`. A chance is `None` when the settings do not define it: JavaScript then compares
   * with NaN, and the comparison is false.
   */
  function GeneratePerson(namePick: Phobia, roll: real, chanceForBigFear: Option<real>, chanceForSmallFear: Option<real>,
                          fearPick: Phobia, smallFearPick: Phobia): (r: WaitingPerson)
    requires fearPick in RemainingPool([Some(namePick)], PHOBIAS)
    requires smallFearPick in RemainingPool([Some(namePick), if BigFearRoll(roll, chanceForBigFear) then Some(fearPick) else None], PHOBIAS)
    ensures r.name == namePick && r.id.None? && r.phobia.None?
    ensures r.fear.Some? <==> chanceForBigFear.Some? && roll > 1.0 - chanceForBigFear.value
    ensures r.smallFear.Some? <==> chanceForSmallFear.Some? && roll < chanceForSmallFear.value
    ensures !Fears(r.fear, r.name) && !Fears(r.smallFear, r.name)
    ensures r.smallFear.Some? ==> r.smallFear != r.fear
  {
    var fear := if BigFearRoll(roll, chanceForBigFear) then Some(fearPick) else None;
    var smallFear := if chanceForSmallFear.Some? && roll < chanceForSmallFear.value then Some(smallFearPick) else None;
    WaitingPerson(None, namePick, None, fear, smallFear)
  }

  /** `fearTypeRandomValue > 1 - chanceForBigFear`, false when the chance is undefined. */
  predicate BigFearRoll(roll: real, chance: Option<real>) {
    chance.Some? && roll > 1.0 - chance.value
  }

  /**
   * The difficulty tiers define neither chance, so `generateCharactersForGame` passes undefined for both:
   * every guest it generates is without fear and small fear.
   */
  lemma GeneratedGuestsFearless(namePick: Phobia, roll: real, fearPick: Phobia, smallFearPick: Phobia)
    requires fearPick in RemainingPool([Some(namePick)], PHOBIAS)
    requires smallFearPick in RemainingPool([Some(namePick), None], PHOBIAS)
    ensures GeneratePerson(namePick, roll, None, None, fearPick, smallFearPick).fear.None?
    ensures GeneratePerson(namePick, roll, None, None, fearPick, smallFearPick).smallFear.None?
  {
  }

  /**
   * Among guests without fears nobody triggers anybody, so `findValidChair` takes the first free chair
   * of the board, and finds none only when no chair is free.
   */
  lemma FearlessTakesFirstFreeChair(f: GameFieldData, placed: seq<Person>, person: WaitingPerson)
    requires person.fear.None? && person.smallFear.None?
    requires forall p :: p in placed ==> p.fear.None? && p.smallFear.None?
    ensures forall c :: !IsTriggeringPhobia(placed, c, person)
    ensures FindValidChair(f, placed, person).None? <==> GetEmptyChairs(f, placed) == []
    ensures GetEmptyChairs(f, placed) != [] ==> FindValidChair(f, placed, person) == Some(GetEmptyChairs(f, placed)[0])
  {
    var calm := (c: Cell) => !IsTriggeringPhobia(placed, c, person);
    var chairs := GetEmptyChairs(f, placed);
    if chairs != [] {
      assert calm(chairs[0]);
      assert FindIndex(chairs, calm) == Some(0);
    }
  }

  /** `{ ...person, row, column, tableIndex }`: the person seated on `chair`. */
  function SeatAt(w: WaitingPerson, chair: Cell): (r: Person)
    ensures r.Pos() == chair.Pos() && r.tableIndex == chair.tableIndex
    ensures Identity(r) == w
    ensures !r.hasPanic && !r.triskaidekaphobia && r.affects == [] && r.affectedBy == []
  {
    Person(w.id, w.name, w.phobia, w.fear, w.smallFear, chair.row, chair.column, chair.tableIndex, false, false, [], [])
  }

  /** The identity part of a seated guest. */
  function Identity(p: Person): WaitingPerson {
    WaitingPerson(p.id, p.name, p.phobia, p.fear, p.smallFear)
  }

  /** Neither of two seated guests fears the other at their table, nor the other's colour as small fear next to each other. */
  predicate NoFearBetween(a: Person, b: Person) {
    (a.tableIndex == b.tableIndex ==> !Fears(a.fear, b.name))
    && (a.tableIndex == b.tableIndex && IsChairNeighbor(a.Pos(), b.Pos()) ==> !Fears(a.smallFear, b.name))
  }

  /** No guest fears another it shares a table with (or, for small fears, sits next to). */
  predicate FearFree(placed: seq<Person>) {
    forall i, j :: 0 <= i < |placed| && 0 <= j < |placed| && i != j ==> NoFearBetween(placed[i], placed[j])
  }

  /** The guest sits on a chair of the board, with that chair's table index. */
  predicate SeatedOnBoard(f: GameFieldData, p: Person) {
    exists c :: c in f.allCells && IsChair(c.cellType) && c.Pos() == p.Pos() && c.tableIndex == p.tableIndex
  }

  /** Seating a guest on a free chair where it triggers nobody keeps the seating free of fears and of shared chairs. */
  lemma SeatKeepsFearFree(placed: seq<Person>, w: WaitingPerson, chair: Cell)
    requires FearFree(placed) && DistinctPositions(placed)
    requires IsValidChair(placed, w, chair)
    ensures FearFree(placed + [SeatAt(w, chair)])
    ensures DistinctPositions(placed + [SeatAt(w, chair)])
  {
    var np := SeatAt(w, chair);
    var all := placed + [np];
    forall i | 0 <= i < |placed|
      ensures NoFearBetween(all[i], np) && NoFearBetween(np, all[i])
      ensures !IsSameCell(all[i].Pos(), np.Pos())
    {
      var g := placed[i];
      assert all[i] == g;
      AdjacencySymmetric(g.Pos(), chair.Pos());
      if g.tableIndex == chair.tableIndex {
        assert g in GetGuestsOnTable(placed, chair.tableIndex);
        if IsChairNeighbor(g.Pos(), chair.Pos()) {
          assert g in GetNeighbors(placed, chair.Pos(), chair.tableIndex);
        }
      }
    }
  }

  /**
   * What the generation loop keeps: every kept guest sits, in order, on a chair of the board, nobody shares
   * a chair, and nobody fears a tablemate or a neighbour.
   */
  predicate Seating(f: GameFieldData, characters: seq<WaitingPerson>, placed: seq<Person>) {
    |placed| == |characters|
    && (forall k :: 0 <= k < |placed| ==> Identity(placed[k]) == characters[k] && SeatedOnBoard(f, placed[k]))
    && (forall k :: 0 <= k < |placed| ==> !placed[k].hasPanic && !placed[k].triskaidekaphobia)
    && FearFree(placed) && DistinctPositions(placed)
  }

  /** Seating a guest on the chair `FindValidChair` picks keeps the seating invariant. */
  lemma SeatStep(f: GameFieldData, characters: seq<WaitingPerson>, placed: seq<Person>, w: WaitingPerson, chair: Cell)
    requires Seating(f, characters, placed)
    requires chair in f.allCells && IsValidChair(placed, w, chair)
    ensures Seating(f, characters + [w], placed + [SeatAt(w, chair)])
  {
    SeatKeepsFearFree(placed, w, chair);
    var np := SeatAt(w, chair);
    assert SeatedOnBoard(f, np);
    var ps := placed + [np];
    forall k | 0 <= k < |ps|
      ensures SeatedOnBoard(f, ps[k])
    {
      if k < |placed| {
        assert ps[k] == placed[k];
      }
    }
  }

  /** One attempt of `generateCharactersForGame`: how many guests to seat, and the guests generated one after the other. */
  datatype Round = Round(amount: int, candidates: seq<WaitingPerson>)

  /**
   * The `while` loop of `generateCharactersForGame`: generated guests are kept when a valid chair exists and
   * seated there. The loop runs on the supplied candidates; `complete` says it reached `amount` before they
   * ran out.
   */
  method GenerateRound(f: GameFieldData, amount: int, candidates: seq<WaitingPerson>)
    returns (characters: seq<WaitingPerson>, placed: seq<Person>, complete: bool)
    ensures complete <==> |characters| == amount
    ensures amount >= 0 ==> |characters| <= amount
    ensures forall c :: c in characters ==> c in candidates
    ensures Seating(f, characters, placed)
  {
    characters, placed := [], [];
    var i := 0;
    while |characters| < amount && i < |candidates|
      invariant 0 <= i <= |candidates|
      invariant amount >= 0 ==> |characters| <= amount
      invariant forall c :: c in characters ==> c in candidates
      invariant Seating(f, characters, placed)
    {
      var newPerson := candidates[i];
      var chair := FindValidChair(f, placed, newPerson);
      if chair.Some? {
        SeatStep(f, characters, placed, newPerson, chair.value);
        characters := characters + [newPerson];
        placed := placed + [SeatAt(newPerson, chair.value)];
      }
      i := i + 1;
    }
    complete := |characters| == amount;
  }

  /** A table of the fixed numbering holds thirteen of the seated guests. */
  predicate ThirteenAtFirstTwoTables(placed: seq<Person>) {
    |GetGuestsOnTable(placed, Some(0))| == 13 || |GetGuestsOnTable(placed, Some(1))| == 13
  }

  /**
   * `generateCharactersForGame(gameField, iteration)` with one supplied `Round` per attempt. A complete
   * attempt is returned unless table 0 or 1 holds thirteen guests, in which case the next attempt is made,
   * at most up to iteration 10; after that the attempt is returned as it is. `None` stands for an attempt
   * whose candidates ran out (the source would keep generating) or for running out of rounds.
   */
  method GenerateCharactersForGame(f: GameFieldData, settings: Settings, rounds: seq<Round>, iteration: nat)
    returns (characters: Option<seq<WaitingPerson>>, placed: seq<Person>, last: nat)
    requires iteration <= 10
    requires 0 <= settings.minAmount
    requires forall k :: 0 <= k < |rounds| ==> settings.minAmount <= rounds[k].amount <= settings.maxAmount
    decreases 10 - iteration
    ensures iteration <= last <= 10
    ensures characters.Some? ==> settings.minAmount <= |characters.value| <= settings.maxAmount
    ensures characters.Some? ==> iteration <= last < iteration + |rounds|
    ensures characters.Some? ==> |characters.value| == rounds[last - iteration].amount
    ensures characters.Some? ==> forall c :: c in characters.value ==> c in rounds[last - iteration].candidates
    ensures characters.Some? ==> Seating(f, characters.value, placed)
    ensures characters.Some? && last < 10 ==> !ThirteenAtFirstTwoTables(placed)
  {
    if rounds == [] {
      return None, [], iteration;
    }
    var chars, seated, complete := GenerateRound(f, rounds[0].amount, rounds[0].candidates);
    if !complete {
      return None, [], iteration;
    }
    if ThirteenAtFirstTwoTables(seated) && iteration < 10 {
      characters, placed, last := GenerateCharactersForGame(f, settings, rounds[1..], iteration + 1);
      return;
    }
    characters, placed, last := Some(chars), seated, iteration;
  }

  /**
   * `randomlyApplyCharactersOnBoard` with the shuffled chair list supplied: the first chairs of the shuffled
   * list receive the characters taken from the end of the list, one per chair.
   */
  method RandomlyApplyCharactersOnBoard(f: GameFieldData, characters: seq<WaitingPerson>, shuffledChairs: seq<Cell>)
    returns (placed: seq<Person>)
    requires multiset(shuffledChairs) == multiset(BoardChairs(f))
    ensures |placed| == if |characters| <= |shuffledChairs| then |characters| else |shuffledChairs|
    ensures forall k :: 0 <= k < |placed| ==> placed[k] == SeatAt(characters[|characters| - 1 - k], shuffledChairs[k])
    ensures forall k :: 0 <= k < |placed| ==> placed[k].Pos() in ChairPositions(f)
  {
    var copyOfCharacters := characters;
    var n := if |characters| <= |shuffledChairs| then |characters| else |shuffledChairs|;
    var requiredChairs := shuffledChairs[..n];
    placed := [];
    for k := 0 to |requiredChairs|
      invariant |placed| == k
      invariant copyOfCharacters == characters[..|characters| - k]
      invariant forall j :: 0 <= j < k ==> placed[j] == SeatAt(characters[|characters| - 1 - j], shuffledChairs[j])
    {
      if copyOfCharacters == [] {
        assert false;
      }
      var person := copyOfCharacters[|copyOfCharacters| - 1];
      copyOfCharacters := copyOfCharacters[..|copyOfCharacters| - 1];
      placed := placed + [SeatAt(person, requiredChairs[k])];
    }
    forall k | 0 <= k < |placed|
      ensures placed[k].Pos() in ChairPositions(f)
    {
      assert shuffledChairs[k] in multiset(shuffledChairs);
      assert shuffledChairs[k] in BoardChairs(f);
    }
  }

  predicate IsChairCell(c: Cell) {
    IsChair(c.cellType)
  }

  /** The chairs of the board's grid, row by row: `gameFieldData.field.flat().filter(isChair)`. */
  function BoardChairs(f: GameFieldData): seq<Cell> {
    Filter(Flatten(f.field), IsChairCell)
  }

  /** The positions of the chairs of the board's grid. */
  function ChairPositions(f: GameFieldData): (r: set<CellPosition>)
    ensures forall c :: c in Flatten(f.field) && IsChair(c.cellType) ==> c.Pos() in r
  {
    set c | c in Flatten(f.field) && IsChair(c.cellType) :: c.Pos()
  }

  /** `applySeatedCharacters`: a level's seated guests, at their level table if they sit on a chair. */
  function ApplySeatedCharacters(data: OnboardingData): (r: seq<Person>)
    ensures |r| == |data.sittingPersons|
    ensures forall k :: 0 <= k < |r| ==>
      Identity(r[k]) == data.sittingPersons[k].person
      && r[k].row == data.sittingPersons[k].row && r[k].column == data.sittingPersons[k].column
      && !r[k].hasPanic && !r[k].triskaidekaphobia
    ensures forall k :: 0 <= k < |r| ==> (r[k].tableIndex.Some? <==> OnChair(data.field, r[k].row, r[k].column))
  {
    seq(|data.sittingPersons|, k requires 0 <= k < |data.sittingPersons| =>
      var s := data.sittingPersons[k];
      var chair := Cell(s.row, s.column, Chair,
        if OnChair(data.field, s.row, s.column) then Some(TableIndexOf(data.rule, s.row, s.column)) else None);
      SeatAt(s.person, chair))
  }

  /** `isChair(field[row][column])`; a position off the grid is no chair. */
  predicate OnChair(field: seq<seq<CellType>>, row: int, column: int) {
    0 <= row < |field| && 0 <= column < |field[row]| && IsChair(field[row][column])
  }

  /** `Array.prototype.slice`'s treatment of an end index: negative counts from the end, and both ends clamp. */
  function SliceIndex(i: int, len: nat): (r: nat)
    ensures r <= len
    ensures 0 <= i <= len ==> r == i
    ensures i > len ==> r == len
    ensures i < 0 ==> r == (if len + i < 0 then 0 else len + i)
  {
    if i < 0 then (if len + i < 0 then 0 else len + i) else if i > len then len else i
  }

  /**
   * A generated guest list of a size the settings allow, whose first `minInitialPanic` guests wait and whose
   * other guests are seated from the last one backwards, as many as there are chairs.
   */
  predicate GeneratedSplit(settings: Settings, characters: seq<WaitingPerson>, waiting: seq<WaitingPerson>,
                           placed: seq<Person>, chairs: nat) {
    var split := SliceIndex(settings.minInitialPanic, |characters|);
    settings.minAmount <= |characters| <= settings.maxAmount
    && waiting == characters[..split]
    && |placed| == (if |characters| - split <= chairs then |characters| - split else chairs)
    && (forall k :: 0 <= k < |placed| ==> Identity(placed[k]) == characters[|characters| - 1 - k])
  }

  /**
   * The move estimate of a generated game: the summed cost of the chains split from the involved guests, plus
   * one move per guest whose neighbour triggers its phobia, plus one per waiting guest. Hence at least the
   * last two, at most one more per guest in a conflict, and exactly the waiting guests when no seated guest
   * has a phobia.
   */
  predicate ParEstimate(m: GameMetaData, characters: seq<WaitingPerson>, waiting: seq<WaitingPerson>,
                        placed: seq<Person>, tablePhobias: set<Phobia>) {
    var triggered := |GetPersonsWithRegularPhobiaTriggered(placed, tablePhobias)|;
    m.maxMoves == |characters|
    && m.minMoves == ChainsCost(SplitChains(InvolvedPersons(placed))) + triggered + |waiting|
    && triggered <= m.minMoves - |waiting| <= triggered + |InvolvedPersons(placed)|
    && (NoPhobias(placed) ==> m.minMoves == |waiting|)
  }

  /** The chain par plus the waiting guests is a move estimate: the bounds follow from the chains' properties. */
  lemma EstimateFromChains(m: GameMetaData, characters: seq<WaitingPerson>, waiting: seq<WaitingPerson>,
                           placed: seq<Person>, tablePhobias: set<Phobia>)
    requires m.maxMoves == |characters|
    requires m.minMoves == ChainsCost(SplitChains(InvolvedPersons(placed)))
                           + |GetPersonsWithRegularPhobiaTriggered(placed, tablePhobias)| + |waiting|
    ensures ParEstimate(m, characters, waiting, placed, tablePhobias)
  {
    SplitChainsOk(InvolvedPersons(placed));
    ChainsParBound(placed, SplitChains(InvolvedPersons(placed)));
    if NoPhobias(placed) {
      assert forall p :: p in placed ==> p.phobia.None?;
    }
  }

  /** The metadata of a generated game: the chain par plus one move per waiting guest, and one move per guest at most. */
  method MoveEstimate(characters: seq<WaitingPerson>, waiting: seq<WaitingPerson>, placed: seq<Person>, tablePhobias: set<Phobia>)
    returns (m: GameMetaData)
    ensures ParEstimate(m, characters, waiting, placed, tablePhobias)
  {
    var par := SimplifiedCalculateParViaChains(placed, tablePhobias);
    m := GameMetaData(par + |waiting|, |characters|);
    EstimateFromChains(m, characters, waiting, placed, tablePhobias);
  }

  /** No seated guest has a phobia of its own (the case of every generated guest). */
  predicate NoPhobias(placed: seq<Person>) {
    forall k :: 0 <= k < |placed| ==> placed[k].phobia.None?
  }

  /** The outcome of a generated game: the whole guest list, who waits, who sits, and the move estimate. */
  datatype GeneratedGame = GeneratedGame(characters: seq<WaitingPerson>, waiting: seq<WaitingPerson>,
                                         placed: seq<Person>, metaData: GameMetaData)

  /**
   * The regular-game branch of `placePersonsInitially`: generate the guests, keep the first `minInitialPanic`
   * waiting, seat the rest on the shuffled chairs, and estimate the least number of moves as the chain par
   * plus one move per waiting guest. `None` when the generation did not finish.
   */
  method GenerateGame(settings: Settings, f: GameFieldData, tablePhobias: set<Phobia>, rounds: seq<Round>,
                      shuffledChairs: seq<Cell>) returns (r: Option<GeneratedGame>)
    requires 0 <= settings.minAmount
    requires forall k :: 0 <= k < |rounds| ==> settings.minAmount <= rounds[k].amount <= settings.maxAmount
    requires multiset(shuffledChairs) == multiset(BoardChairs(f))
    ensures r.Some? ==> GeneratedSplit(settings, r.value.characters, r.value.waiting, r.value.placed, |shuffledChairs|)
    ensures r.Some? ==> ParEstimate(r.value.metaData, r.value.characters, r.value.waiting, r.value.placed, tablePhobias)
  {
    var generated, _, _ := GenerateCharactersForGame(f, settings, rounds, 0);
    if generated.None? {
      return None;
    }
    var characters := generated.value;
    assert settings.minAmount <= |characters| <= settings.maxAmount;
    var splitIndex := SliceIndex(settings.minInitialPanic, |characters|);
    var waiting := characters[..splitIndex];
    var sitting := characters[splitIndex..];
    var placed := RandomlyApplyCharactersOnBoard(f, sitting, shuffledChairs);
    forall k | 0 <= k < |placed|
      ensures Identity(placed[k]) == characters[|characters| - 1 - k]
    {
      assert Identity(placed[k]) == sitting[|sitting| - 1 - k];
      assert sitting[|sitting| - 1 - k] == characters[|characters| - 1 - k];
    }
    assert |sitting| == |characters| - splitIndex;
    assert GeneratedSplit(settings, characters, waiting, placed, |shuffledChairs|);
    var metaData := MoveEstimate(characters, waiting, placed, tablePhobias);
    r := Some(GeneratedGame(characters, waiting, placed, metaData));
  }

  /** The level's waiting guests wait and its seated guests sit; nothing else changes. */
  method ApplyLevel(g: GameGlobals, data: OnboardingData)
    modifies g
    ensures g.waitingPersons == data.waitingPersons && g.placedPersons == ApplySeatedCharacters(data)
    ensures g.onboardingStep == old(g.onboardingStep) && g.settings == old(g.settings) && g.metaData == old(g.metaData)
    ensures g.gameFieldData == old(g.gameFieldData) && g.difficulty == old(g.difficulty)
  {
    g.waitingPersons := data.waitingPersons;
    g.placedPersons := ApplySeatedCharacters(data);
  }

  /** The generated game's guests and move estimate are recorded; nothing else changes. */
  method ApplyGame(g: GameGlobals, game: GeneratedGame)
    modifies g
    ensures g.waitingPersons == game.waiting && g.placedPersons == game.placed && g.metaData == Some(game.metaData)
    ensures g.onboardingStep == old(g.onboardingStep) && g.settings == old(g.settings)
    ensures g.gameFieldData == old(g.gameFieldData) && g.difficulty == old(g.difficulty)
  {
    g.metaData := Some(game.metaData);
    g.waitingPersons := game.waiting;
    g.placedPersons := game.placed;
  }

  /**
   * `placePersonsInitially`. During onboarding the level's guests are used; otherwise a game is generated
   * and its metadata recorded. `ok` is false when the game has no settings (the source fails reading them)
   * or the generation did not finish; nothing changes then.
   */
  method PlacePersonsInitially(g: GameGlobals, f: GameFieldData, tablePhobias: set<Phobia>, cesarChoice: nat,
                               rounds: seq<Round>, shuffledChairs: seq<Cell>)
    returns (ok: bool, characters: seq<WaitingPerson>)
    requires cesarChoice < |PHOBIAS|
    requires g.settings.Some? ==> 0 <= g.settings.value.minAmount
    requires g.settings.Some? ==> forall k :: 0 <= k < |rounds| ==>
      g.settings.value.minAmount <= rounds[k].amount <= g.settings.value.maxAmount
    requires multiset(shuffledChairs) == multiset(BoardChairs(f))
    modifies g
    ensures g.onboardingStep == old(g.onboardingStep) && g.settings == old(g.settings)
    ensures g.gameFieldData == old(g.gameFieldData) && g.difficulty == old(g.difficulty)
    ensures !ok ==> g.waitingPersons == old(g.waitingPersons) && g.placedPersons == old(g.placedPersons) && g.metaData == old(g.metaData)
    ensures GetOnboardingData(old(g.onboardingStep), cesarChoice).Some? ==>
      ok && g.waitingPersons == GetOnboardingData(old(g.onboardingStep), cesarChoice).value.waitingPersons
      && g.placedPersons == ApplySeatedCharacters(GetOnboardingData(old(g.onboardingStep), cesarChoice).value)
      && g.metaData == old(g.metaData)
    ensures GetOnboardingData(old(g.onboardingStep), cesarChoice).None? && ok ==>
      g.settings.Some? && GeneratedSplit(g.settings.value, characters, g.waitingPersons, g.placedPersons, |shuffledChairs|)
    ensures GetOnboardingData(old(g.onboardingStep), cesarChoice).None? && ok ==>
      g.metaData.Some? && ParEstimate(g.metaData.value, characters, g.waitingPersons, g.placedPersons, tablePhobias)
  {
    characters := [];
    var onboardingData := GetOnboardingData(g.onboardingStep, cesarChoice);
    if onboardingData.Some? {
      ApplyLevel(g, onboardingData.value);
      return true, characters;
    }
    if g.settings.None? {
      return false, characters;
    }
    var game := GenerateGame(g.settings.value, f, tablePhobias, rounds, shuffledChairs);
    if game.None? {
      return false, characters;
    }
    characters := game.value.characters;
    ApplyGame(g, game.value);
    ok := true;
  }
}

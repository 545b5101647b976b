/**
 * The tutorial levels: the step counter that walks through them, and the hand-made levels whose
 * colours are rotated by an even shift so that every level keeps its conflict structure.
 */
module Onboarding {
  import opened Wrappers
  import opened Phobias
  import opened Types
  import opened JsValues
  import opened Storage
  import opened Globals

  const INTRO := 0
  const BIG_FEAR := 1
  const RESORT := 2

  /** `isOnboarding`: any step other than -1, NaN included, is a tutorial step. */
  predicate IsOnboarding(g: GameGlobals)
    reads g
  {
    g.onboardingStep != Int(-1)
  }

  /** `wasOnboarding`: still in the tutorial, or the last game was one of its levels. */
  predicate WasOnboarding(g: GameGlobals)
    reads g
  {
    IsOnboarding(g) || g.previousOnboardingStep.Some?
  }

  /** The step after `step`: one more, or -1 once past the last tutorial level. */
  function NextOnboardingStep(step: JsNumber): (r: JsNumber)
    ensures step.Int? && step.value < RESORT ==> r == Int(step.value + 1)
    ensures step.Int? && step.value >= RESORT ==> r == Int(-1)
    ensures step.NaN? ==> r.NaN?
  {
    match step
    case NaN => NaN
    case Int(s) => if s + 1 > RESORT then Int(-1) else Int(s + 1)
  }

  /** The step after `n` increments. */
  function StepAfter(step: JsNumber, n: nat): JsNumber {
    if n == 0 then step else NextOnboardingStep(StepAfter(step, n - 1))
  }

  /**
   * From a tutorial step the counter reaches -1 (the end of the tutorial) after exactly
   * `RESORT + 1 - step` increments, and stays on a tutorial level before that.
   */
  lemma {:induction false} TutorialEnds(step: int, n: nat)
    requires 0 <= step <= RESORT
    ensures n < RESORT + 1 - step ==> StepAfter(Int(step), n) == Int(step + n)
    ensures n == RESORT + 1 - step ==> StepAfter(Int(step), n) == Int(-1)
  {
    if n > 0 {
      TutorialEnds(step, n - 1);
    }
  }

  /**
   * `increaseOnboardingStepIfApplicable`: outside the tutorial it only forgets the previous step;
   * inside, it records the old step, advances, and stores the new step.
   */
  method IncreaseOnboardingStepIfApplicable(g: GameGlobals, storage: LocalStorage)
    modifies g, storage
    ensures !old(IsOnboarding(g)) ==>
      g.previousOnboardingStep == None && g.onboardingStep == old(g.onboardingStep) && storage.items == old(storage.items)
    ensures old(IsOnboarding(g)) ==>
      g.previousOnboardingStep == Some(old(g.onboardingStep))
      && g.onboardingStep == NextOnboardingStep(old(g.onboardingStep))
      && storage.items == old(storage.items)[OnboardingStepKey := NumberToString(g.onboardingStep)]
    ensures g.gameFieldData == old(g.gameFieldData) && g.waitingPersons == old(g.waitingPersons)
    ensures g.placedPersons == old(g.placedPersons) && g.difficulty == old(g.difficulty) && g.settings == old(g.settings)
    ensures g.metaData == old(g.metaData) && g.isWon == old(g.isWon) && g.language == old(g.language)
  {
    if !IsOnboarding(g) {
      g.previousOnboardingStep := None;
      return;
    }
    g.previousOnboardingStep := Some(g.onboardingStep);
    var step := NextOnboardingStep(g.onboardingStep);
    g.onboardingStep := step;
    storage.Set(OnboardingStepKey, NumberToString(step));
  }

  /** After the last tutorial level the game is no longer onboarding, but it was. */
  lemma LastLevelLeavesTutorial(step: JsNumber)
    requires step == Int(RESORT)
    ensures NextOnboardingStep(step) == Int(-1)
  {
  }

  // ----- tutorial levels -----

  /** The position of a colour in `PHOBIAS`. */
  function PhobiaIndex(p: Phobia): (i: nat)
    ensures i < |PHOBIAS| && PHOBIAS[i] == p
  {
    match p
    case Red => 0
    case Green => 1
    case Blue => 2
    case Yellow => 3
    case Purple => 4
    case Orange => 5
    case Hotpink => 6
    case Cyan => 7
  }

  /** `getCesarEmoji`: the colour `cesar` places further along `PHOBIAS`, wrapping around. */
  function GetCesarEmoji(cesar: nat, index: nat): (r: Phobia)
    ensures PhobiaIndex(r) == (cesar + index) % |PHOBIAS|
  {
    PhobiaIndexInjective(PHOBIAS[(cesar + index) % |PHOBIAS|], (cesar + index) % |PHOBIAS|);
    PHOBIAS[(cesar + index) % |PHOBIAS|]
  }

  lemma PhobiaIndexInjective(p: Phobia, i: nat)
    requires i < |PHOBIAS| && PHOBIAS[i] == p
    ensures PhobiaIndex(p) == i
  {
  }

  /** An even shift keeps the parity of a colour's position: the colour pairs stay together. */
  lemma CesarKeepsParity(cesar: nat, index: nat)
    requires cesar % 2 == 0
    ensures PhobiaIndex(GetCesarEmoji(cesar, index)) % 2 == index % 2
  {
  }

  /** For one shift, two positions of `PHOBIAS` get the same colour only if they are the same position. */
  lemma CesarInjective(cesar: nat, a: nat, b: nat)
    requires a < |PHOBIAS| && b < |PHOBIAS|
    ensures GetCesarEmoji(cesar, a) == GetCesarEmoji(cesar, b) <==> a == b
  {
    if GetCesarEmoji(cesar, a) == GetCesarEmoji(cesar, b) {
      var qa, qb := (cesar + a) / 8, (cesar + b) / 8;
      assert cesar + a == 8 * qa + (cesar + a) % 8;
      assert cesar + b == 8 * qb + (cesar + b) % 8;
      assert a - b == 8 * (qa - qb);
    }
  }

  /** A guest of a level, by positions in `PHOBIAS`: its colour and, optionally, the colour it fears. */
  datatype IndexedPersonDefinition = IndexedPersonDefinition(nameI: nat, phobiaI: Option<nat>)

  /** A seated guest of a level, with its chair. */
  datatype IndexedSittingPersonDefinition = IndexedSittingPersonDefinition(row: nat, column: nat, definition: IndexedPersonDefinition)

  predicate ValidDefinition(d: IndexedPersonDefinition) {
    d.nameI < |PHOBIAS| && (d.phobiaI.Some? ==> d.phobiaI.value < |PHOBIAS|)
  }

  /** A guest of a level together with its chair (`PersonWithPosition`). */
  datatype PersonWithPosition = PersonWithPosition(person: WaitingPerson, row: int, column: int)

  /**
   * `mapping`: the guest's colours shifted by `cesar`, and `id` as its id. The result carries identity
   * only; it has no fear or small fear.
   */
  function Mapping(cesar: nat, d: IndexedPersonDefinition, id: nat): (r: WaitingPerson)
    ensures r.id == Some(id as int)
    ensures r.name == GetCesarEmoji(cesar, d.nameI)
    ensures r.phobia.None? <==> d.phobiaI.None?
    ensures r.phobia.Some? ==> r.phobia.value == GetCesarEmoji(cesar, d.phobiaI.value)
    ensures r.fear.None? && r.smallFear.None?
  {
    var phobia := if d.phobiaI.Some? then Some(GetCesarEmoji(cesar, d.phobiaI.value)) else None;
    WaitingPerson(Some(id as int), GetCesarEmoji(cesar, d.nameI), phobia, None, None)
  }

  /** Who fears whom is the same before and after the shift: the colours are renamed, not mixed. */
  lemma MappingKeepsConflicts(cesar: nat, a: IndexedPersonDefinition, ida: nat, b: IndexedPersonDefinition, idb: nat)
    requires ValidDefinition(a) && ValidDefinition(b)
    ensures Some(Mapping(cesar, a, ida).name) == Mapping(cesar, b, idb).phobia <==> Some(a.nameI) == b.phobiaI
  {
    if b.phobiaI.Some? {
      CesarInjective(cesar, a.nameI, b.phobiaI.value);
    }
  }

  /** The waiting and the seated guests of a level. */
  datatype LevelPersons = LevelPersons(waitingPersons: seq<WaitingPerson>, sittingPersons: seq<PersonWithPosition>)

  /**
   * `getPersonsFromIndexedDefinitions` with the random pick for the shift supplied as `cesarChoice`:
   * the shift is twice the pick, and each list is numbered from 0 on its own.
   */
  function GetPersonsFromIndexedDefinitions(waiting: seq<IndexedPersonDefinition>, sitting: seq<IndexedSittingPersonDefinition>, cesarChoice: nat): (r: LevelPersons)
    requires cesarChoice < |PHOBIAS|
    ensures |r.waitingPersons| == |waiting| && |r.sittingPersons| == |sitting|
    ensures forall i :: 0 <= i < |waiting| ==> r.waitingPersons[i] == Mapping(2 * cesarChoice, waiting[i], i)
    ensures forall i :: 0 <= i < |sitting| ==>
      r.sittingPersons[i] == PersonWithPosition(Mapping(2 * cesarChoice, sitting[i].definition, i), sitting[i].row, sitting[i].column)
  {
    var cesar := 2 * cesarChoice;
    LevelPersons(
      seq(|waiting|, i requires 0 <= i < |waiting| => Mapping(cesar, waiting[i], i)),
      seq(|sitting|, i requires 0 <= i < |sitting| =>
        PersonWithPosition(Mapping(cesar, sitting[i].definition, i), sitting[i].row, sitting[i].column)))
  }

  /** Which table a seat of a level belongs to: all at table 0, or split after column 2. */
  datatype TableIndexRule = AllAtTableZero | SplitAfterColumnTwo

  /** A level's `getTableIndex`. */
  function TableIndexOf(rule: TableIndexRule, row: int, column: int): (r: int)
    ensures 0 <= r <= 1
    ensures rule == AllAtTableZero ==> r == 0
  {
    match rule
    case AllAtTableZero => 0
    case SplitAfterColumnTwo => if column < 3 then 0 else 1
  }

  datatype OnboardingData = OnboardingData(
    field: seq<seq<CellType>>,
    waitingPersons: seq<WaitingPerson>,
    sittingPersons: seq<PersonWithPosition>,
    rule: TableIndexRule,
    par: Option<int>)

  /** The 4 by 4 board of the first level. */
  const ONBOARDING_FIELD: seq<seq<CellType>> := [
    [Empty, Empty, Empty, Empty],
    [Empty, Chair, Table, Chair],
    [Empty, Chair, Table, Chair],
    [Empty, Empty, Empty, Empty]]

  /** The 7 by 7 board of the second and third level. */
  const MEDIUM_FIELD: seq<seq<CellType>> := [
    [Empty, Empty, Empty, Empty, Empty, Empty, Empty],
    [Empty, Empty, Empty, Empty, Empty, Empty, Empty],
    [Chair, Table, Chair, Empty, Chair, Table, Chair],
    [Chair, Table, Chair, Empty, Chair, Table, Chair],
    [Chair, Table, Chair, Empty, Chair, Table, Chair],
    [Empty, Empty, Empty, Empty, Empty, Empty, Empty],
    [Empty, Empty, Empty, Empty, Empty, Empty, Empty]]

  function Def(nameI: nat, phobiaI: Option<nat>): IndexedPersonDefinition {
    IndexedPersonDefinition(nameI, phobiaI)
  }

  function Seat(row: nat, column: nat, nameI: nat, phobiaI: Option<nat>): IndexedSittingPersonDefinition {
    IndexedSittingPersonDefinition(row, column, IndexedPersonDefinition(nameI, phobiaI))
  }

  const INTRO_WAITING := [Def(0, Some(1))]
  const INTRO_SITTING := [Seat(1, 3, 1, None)]
  const BOTH_PHOBIAS_WAITING := [Def(1, Some(0))]
  const BOTH_PHOBIAS_SITTING := [Seat(2, 0, 0, None), Seat(2, 4, 2, Some(1)), Seat(4, 6, 3, None), Seat(3, 2, 4, None)]
  const RESORT_WAITING := [Def(1, Some(0))]
  const RESORT_SITTING := [
    Seat(2, 2, 0, None), Seat(2, 6, 2, Some(1)), Seat(3, 6, 2, Some(1)),
    Seat(4, 4, 3, None), Seat(3, 0, 4, None), Seat(4, 2, 4, None)]

  /** The level's seated guests stand on distinct chairs of its board. */
  predicate SeatsOnChairs(field: seq<seq<CellType>>, sitting: seq<IndexedSittingPersonDefinition>) {
    (forall i :: 0 <= i < |sitting| ==>
      sitting[i].row < |field| && sitting[i].column < |field[sitting[i].row]|
      && field[sitting[i].row][sitting[i].column] == Chair)
    && (forall i, j :: 0 <= i < j < |sitting| ==> (sitting[i].row, sitting[i].column) != (sitting[j].row, sitting[j].column))
  }

  /** In every level, every guest's colours are positions of `PHOBIAS`. */
  lemma LevelDefinitionsValid()
    ensures forall i :: 0 <= i < |INTRO_WAITING| ==> ValidDefinition(INTRO_WAITING[i])
    ensures forall i :: 0 <= i < |INTRO_SITTING| ==> ValidDefinition(INTRO_SITTING[i].definition)
    ensures forall i :: 0 <= i < |BOTH_PHOBIAS_WAITING| ==> ValidDefinition(BOTH_PHOBIAS_WAITING[i])
    ensures forall i :: 0 <= i < |BOTH_PHOBIAS_SITTING| ==> ValidDefinition(BOTH_PHOBIAS_SITTING[i].definition)
    ensures forall i :: 0 <= i < |RESORT_WAITING| ==> ValidDefinition(RESORT_WAITING[i])
    ensures forall i :: 0 <= i < |RESORT_SITTING| ==> ValidDefinition(RESORT_SITTING[i].definition)
  {
  }

  /** The first level's seated guest sits on a chair. */
  lemma IntroSeatsOnChairs()
    ensures SeatsOnChairs(ONBOARDING_FIELD, INTRO_SITTING)
  {
  }

  /** The second level's seated guests sit on distinct chairs. */
  lemma BothPhobiasSeatsOnChairs()
    ensures SeatsOnChairs(MEDIUM_FIELD, BOTH_PHOBIAS_SITTING)
  {
  }

  /** The third level's seated guests sit on distinct chairs. */
  lemma ResortSeatsOnChairs()
    ensures SeatsOnChairs(MEDIUM_FIELD, RESORT_SITTING)
  {
  }

  /**
   * `getOnboardingData` for the current step, with the random shift pick supplied: levels exist for
   * steps 0, 1 and 2 only.
   */
  function GetOnboardingData(step: JsNumber, cesarChoice: nat): (r: Option<OnboardingData>)
    requires cesarChoice < |PHOBIAS|
    ensures r.Some? <==> step == Int(INTRO) || step == Int(BIG_FEAR) || step == Int(RESORT)
    ensures r.Some? ==> |r.value.waitingPersons| == 1
    ensures r.Some? && step == Int(INTRO) ==> r.value.rule == AllAtTableZero && r.value.par.None?
    ensures r.Some? && step == Int(RESORT) ==> r.value.par == Some(2)
  {
    if step == Int(INTRO) then
      var persons := GetPersonsFromIndexedDefinitions(INTRO_WAITING, INTRO_SITTING, cesarChoice);
      Some(OnboardingData(ONBOARDING_FIELD, persons.waitingPersons, persons.sittingPersons, AllAtTableZero, None))
    else if step == Int(BIG_FEAR) then
      var persons := GetPersonsFromIndexedDefinitions(BOTH_PHOBIAS_WAITING, BOTH_PHOBIAS_SITTING, cesarChoice);
      Some(OnboardingData(MEDIUM_FIELD, persons.waitingPersons, persons.sittingPersons, SplitAfterColumnTwo, None))
    else if step == Int(RESORT) then
      var persons := GetPersonsFromIndexedDefinitions(RESORT_WAITING, RESORT_SITTING, cesarChoice);
      Some(OnboardingData(MEDIUM_FIELD, persons.waitingPersons, persons.sittingPersons, SplitAfterColumnTwo, Some(2)))
    else None
  }

  /**
   * In every level the waiting guest is afraid of the colour of a seated guest, whatever the shift:
   * the level always starts with a conflict to solve.
   */
  lemma {:induction false} WaitingGuestFearsSomeone(step: JsNumber, cesarChoice: nat)
    requires cesarChoice < |PHOBIAS|
    requires GetOnboardingData(step, cesarChoice).Some?
    ensures var data := GetOnboardingData(step, cesarChoice).value;
      exists i :: 0 <= i < |data.sittingPersons| && data.waitingPersons[0].phobia == Some(data.sittingPersons[i].person.name)
  {
    var data := GetOnboardingData(step, cesarChoice).value;
    var cesar := 2 * cesarChoice;
    if step == Int(INTRO) {
      assert data.waitingPersons[0] == Mapping(cesar, INTRO_WAITING[0], 0);
      assert data.sittingPersons[0].person == Mapping(cesar, INTRO_SITTING[0].definition, 0);
    } else if step == Int(BIG_FEAR) {
      assert data.waitingPersons[0] == Mapping(cesar, BOTH_PHOBIAS_WAITING[0], 0);
      assert data.sittingPersons[0].person == Mapping(cesar, BOTH_PHOBIAS_SITTING[0].definition, 0);
    } else {
      assert data.waitingPersons[0] == Mapping(cesar, RESORT_WAITING[0], 0);
      assert data.sittingPersons[0].person == Mapping(cesar, RESORT_SITTING[0].definition, 0);
    }
  }
}

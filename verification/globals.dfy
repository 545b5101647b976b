/**
 * The shared game state (`globals`): the board, the guests, the onboarding step and the difficulty,
 * with the defaults it is built from and reset to.
 */
module Globals {
  import opened Wrappers
  import opened Types
  import opened JsValues
  import opened Storage
  import opened Difficulties

  /** `difficultySettings[difficulty]` for any number: a tier's settings, or `undefined` for a number that names no tier. */
  function SettingsFor(difficulty: JsNumber): (r: Option<Settings>)
    ensures r.Some? <==> FromNumber(difficulty).Some?
    ensures r.Some? ==> r.value == DifficultySettings(FromNumber(difficulty).value)
  {
    match FromNumber(difficulty)
    case None => None
    case Some(d) => Some(DifficultySettings(d))
  }

  /** `entry ? Number(entry) : fallback` for an entry read from the store. */
  function StoredNumber(entry: Option<string>, fallback: int): (r: JsNumber)
    ensures !IsSet(entry) ==> r == Int(fallback)
  {
    if IsSet(entry) then ParseNumber(entry.value) else Int(fallback)
  }

  /** A number written to the store is read back as the same number. */
  lemma StoredNumberRoundTrip(x: JsNumber, fallback: int)
    ensures StoredNumber(Some(NumberToString(x)), fallback) == x
  {
    NumberRoundTrip(x);
  }

  /** The stored values `defaultGlobals` is computed from when the page loads. */
  datatype Defaults = Defaults(onboardingStep: JsNumber, difficulty: JsNumber)

  /** The defaults for a given store: the stored step (else 0) and the stored difficulty (else EASY). */
  function DefaultsFrom(items: map<StorageKey, string>): (r: Defaults)
    ensures OnboardingStepKey !in items ==> r.onboardingStep == Int(0)
    ensures DifficultyKey !in items ==> r.difficulty == Int(Ord(Easy))
  {
    Defaults(StoredNumber(Lookup(items, OnboardingStepKey), 0), StoredNumber(Lookup(items, DifficultyKey), Ord(Easy)))
  }

  /** With nothing stored, the game starts in the first onboarding step on the easy tier's settings. */
  lemma FreshStoreDefaults()
    ensures DefaultsFrom(map[]) == Defaults(Int(0), Int(0))
    ensures SettingsFor(DefaultsFrom(map[]).difficulty) == Some(DifficultySettings(Easy))
  {
  }

  /** A tier chosen with `setDifficulty` is the initial tier, with its settings, at the next load. */
  lemma StoredDifficultyReloads(items: map<StorageKey, string>, d: Difficulty)
    ensures DefaultsFrom(items[DifficultyKey := NatToString(Ord(d))]).difficulty == Int(Ord(d))
    ensures SettingsFor(DefaultsFrom(items[DifficultyKey := NatToString(Ord(d))]).difficulty) == Some(DifficultySettings(d))
  {
    StoredNumberRoundTrip(Int(Ord(d)), Ord(Easy));
    OrdRoundTrip(d);
  }

  /** An onboarding step written to the store is the initial step at the next load. */
  lemma StoredStepReloads(items: map<StorageKey, string>, step: JsNumber)
    ensures DefaultsFrom(items[OnboardingStepKey := NumberToString(step)]).onboardingStep == step
  {
    StoredNumberRoundTrip(step, 0);
  }

  /** `gameFieldData: []` */
  const NoField := GameFieldData([], [], [])

  /**
   * `getNumFromParam(param, fallback)` with the query string given as a map: a present, non-empty
   * parameter is read with `Number`, and the fallback stands in when it is absent, empty or NaN.
   */
  function GetNumFromParam(params: map<string, string>, param: string, fallback: JsNumber): (r: JsNumber)
    ensures param !in params || params[param] == "" ==> r == fallback
    ensures param in params && params[param] != "" && ParseNumber(params[param]).Int? ==> r == ParseNumber(params[param])
    ensures param in params && params[param] != "" && ParseNumber(params[param]).NaN? ==> r == fallback
    ensures r == fallback || (param in params && r.Int? && r == ParseNumber(params[param]))
    ensures fallback.Int? ==> r.Int?
  {
    var num := if param in params && params[param] != "" then ParseNumber(params[param]) else fallback;
    if num.NaN? then fallback else num
  }

  /** A parameter that spells an integer gives that integer, whatever the fallback. */
  lemma ParamRoundTrip(params: map<string, string>, param: string, n: int, fallback: JsNumber)
    ensures GetNumFromParam(params[param := IntToString(n)], param, fallback) == Int(n)
  {
    NumberRoundTrip(Int(n));
  }

  class GameGlobals {
    var previousOnboardingStep: Option<JsNumber>
    var onboardingStep: JsNumber
    var gameFieldData: GameFieldData
    var waitingPersons: seq<WaitingPerson>
    var placedPersons: seq<Person>
    var language: string
    var difficulty: JsNumber
    var settings: Option<Settings>
    var isWon: bool
    var metaData: Option<GameMetaData>

    /** Every field `defaultGlobals` lists holds its default value. */
    predicate HasDefaults(d: Defaults)
      reads this
    {
      previousOnboardingStep == None && onboardingStep == d.onboardingStep && gameFieldData == NoField
      && waitingPersons == [] && placedPersons == [] && language == "en"
      && difficulty == d.difficulty && settings == SettingsFor(d.difficulty) && !isWon
    }

    /** The settings are those of the current difficulty. */
    predicate SettingsMatchDifficulty()
      reads this
    {
      settings == SettingsFor(difficulty)
    }

    /** `{ ...defaultGlobals }`: the defaults, and no metadata. */
    constructor(d: Defaults)
      ensures HasDefaults(d) && SettingsMatchDifficulty()
      ensures metaData == None
    {
      previousOnboardingStep := None;
      onboardingStep := d.onboardingStep;
      gameFieldData := NoField;
      waitingPersons := [];
      placedPersons := [];
      language := "en";
      difficulty := d.difficulty;
      settings := SettingsFor(d.difficulty);
      isWon := false;
      metaData := None;
    }

    /**
     * `resetGlobals`: `Object.assign` copies the defaults' fields back. `metaData` is not among them,
     * so it keeps its value.
     */
    method ResetGlobals(d: Defaults)
      modifies this
      ensures HasDefaults(d) && SettingsMatchDifficulty()
      ensures metaData == old(metaData)
    {
      previousOnboardingStep := None;
      onboardingStep := d.onboardingStep;
      gameFieldData := NoField;
      waitingPersons := [];
      placedPersons := [];
      language := "en";
      difficulty := d.difficulty;
      settings := SettingsFor(d.difficulty);
      isWon := false;
    }

    /** `setDifficulty`: the tier and its settings change together, and the tier number is stored. */
    method SetDifficulty(d: Difficulty, storage: LocalStorage)
      modifies this, storage
      ensures difficulty == Int(Ord(d)) && settings == Some(DifficultySettings(d))
      ensures SettingsMatchDifficulty()
      ensures storage.items == old(storage.items)[DifficultyKey := NatToString(Ord(d))]
      ensures previousOnboardingStep == old(previousOnboardingStep) && onboardingStep == old(onboardingStep)
      ensures gameFieldData == old(gameFieldData) && waitingPersons == old(waitingPersons) && placedPersons == old(placedPersons)
      ensures language == old(language) && isWon == old(isWon) && metaData == old(metaData)
    {
      settings := Some(DifficultySettings(d));
      difficulty := Int(Ord(d));
      OrdRoundTrip(d);
      storage.Set(DifficultyKey, NatToString(Ord(d)));
    }
  }
}

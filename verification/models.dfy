/** Records stored by the backend and the validators that build them
    (coding/app/models.py). All three operations are pure: they either raise
    `ValueError`, modelled as `Err`, or return a new record. */
module Models {
  import opened Common

  /** Daily macro targets in grams. */
  datatype Macros = Macros(protein: real, carbs: real, fat: real)

  /** A stored goals document; `updatedAt` is the ISO time of the last write. */
  datatype UserGoals = UserGoals(userId: string, dailyCalories: int, macros: Macros, updatedAt: string)

  /** A stored intake document. */
  datatype IntakeItem = IntakeItem(
    userId: string,
    timestamp: string,
    foodName: string,
    calories: int,
    protein: real,
    carbs: real,
    fat: real)

  /** A JSON object holding macro values, keyed "protein_g", "carbs_g", "fat_g". */
  type MacroDict = map<string, real>

  const PROTEIN_KEY: string := "protein_g"
  const CARBS_KEY: string := "carbs_g"
  const FAT_KEY: string := "fat_g"

  /** `d.get(key, 0)`: a missing key reads as zero. */
  function GetOrZero(d: MacroDict, key: string): real {
    if key in d then d[key] else 0.0
  }

  predicate NonNegative(m: Macros) {
    m.protein >= 0.0 && m.carbs >= 0.0 && m.fat >= 0.0
  }

  /** The JSON object a `Macros` record is stored as. */
  function ToDict(m: Macros): (d: MacroDict)
    ensures d.Keys == {PROTEIN_KEY, CARBS_KEY, FAT_KEY}
  {
    map[PROTEIN_KEY := m.protein, CARBS_KEY := m.carbs, FAT_KEY := m.fat]
  }

  /** Reads the three macros (missing ones as zero) and rejects a negative one. */
  function ValidateMacros(d: MacroDict): (r: Result<Macros>)
    ensures r.Ok? <==>
      GetOrZero(d, PROTEIN_KEY) >= 0.0 && GetOrZero(d, CARBS_KEY) >= 0.0 && GetOrZero(d, FAT_KEY) >= 0.0
    ensures r.Ok? ==> NonNegative(r.value)
    ensures r.Ok? ==>
      r.value == Macros(GetOrZero(d, PROTEIN_KEY), GetOrZero(d, CARBS_KEY), GetOrZero(d, FAT_KEY))
    ensures r.Err? ==> r.error == ValueError("Macro values must be non-negative")
  {
    var protein := GetOrZero(d, PROTEIN_KEY);
    var carbs := GetOrZero(d, CARBS_KEY);
    var fat := GetOrZero(d, FAT_KEY);
    if protein < 0.0 || carbs < 0.0 || fat < 0.0 then
      Err(ValueError("Macro values must be non-negative"))
    else
      Ok(Macros(protein, carbs, fat))
  }

  /** A stored `Macros` record passes validation again, unchanged, exactly
      when it is non-negative: the round trip taken when stored goals are
      re-validated before a recommendation. */
  lemma ValidateStoredMacros(m: Macros)
    ensures ValidateMacros(ToDict(m)).Ok? <==> NonNegative(m)
    ensures NonNegative(m) ==> ValidateMacros(ToDict(m)) == Ok(m)
  {
  }

  /** Builds a goals record; `now` is the clock reading `utc_now_iso()`. */
  function NewGoals(userId: string, dailyCalories: int, macros: Macros, now: string): (r: Result<UserGoals>)
    ensures r.Ok? <==> dailyCalories > 0
    ensures r.Ok? ==> r.value == UserGoals(userId, dailyCalories, macros, now)
    ensures r.Err? ==> r.error == ValueError("daily_calories must be > 0")
  {
    if dailyCalories <= 0 then Err(ValueError("daily_calories must be > 0"))
    else Ok(UserGoals(userId, dailyCalories, macros, now))
  }

  /** Builds an intake record. `timestamp` is the ISO form of the caller's
      time, if any; `now` is the ISO form of the current time used otherwise.
      Macro signs are not checked. */
  function NewIntake(
    userId: string, foodName: string, calories: int,
    protein: real, carbs: real, fat: real,
    timestamp: Option<string>, now: string): (r: Result<IntakeItem>)
    ensures r.Ok? <==> calories >= 0
    ensures r.Ok? ==> r.value.userId == userId && r.value.foodName == foodName
    ensures r.Ok? ==> r.value.calories == calories
    ensures r.Ok? ==> r.value.protein == protein && r.value.carbs == carbs && r.value.fat == fat
    ensures r.Ok? ==> r.value.timestamp == if timestamp.Some? then timestamp.value else now
    ensures r.Err? ==> r.error == ValueError("calories must be >= 0")
  {
    if calories < 0 then Err(ValueError("calories must be >= 0"))
    else
      var ts := match timestamp case Some(t) => t case None => now;
      Ok(IntakeItem(userId, ts, foodName, calories, protein, carbs, fat))
  }
}

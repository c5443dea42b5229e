/** The decision logic of the request handlers in coding/app/routes.py: the
    goals upsert of `set_goals`, the target resolution and guards of
    `get_recommendations`, and the monthly aggregation of `monthly_summary`.
    Request parsing, the document store and the date parser stay outside:
    handlers receive already-decoded bodies, table contents and parsed dates. */
module Routes {
  import opened Common
  import opened Models
  import Recommender

  /** A JSON request body as far as the handlers read it. `None` means the
      key is absent or holds `null`; `otherKeys` records whether the object
      has any other key, or one of these two keys with a `null` value (it
      only matters for the `not body` test). */
  datatype Body = Body(dailyCalories: Option<int>, macros: Option<MacroDict>, otherKeys: bool)

  /** `not body`: the decoded object has no keys at all. */
  predicate IsEmpty(body: Body) {
    body.dailyCalories.None? && body.macros.None? && !body.otherKeys
  }

  datatype Payload =
    | ErrorBody(error: string)
    | ServerError(exception: Error)
    | GoalsBody(goals: UserGoals)
    | Recommendations(plan: seq<Recommender.Food>)
    | SummaryBody(summary: MonthSummary)

  /** An HTTP status with its payload. An exception a handler does not catch
      becomes status 500; the `ServerError` payload records which exception
      it was, which the actual error page does not show. */
  datatype Response = Response(status: int, payload: Payload)

  // ---------------------------------------------------------------------
  // The goals table

  /** Some record of `records` belongs to `userId` (`table.contains`). */
  predicate HasUser(records: seq<UserGoals>, userId: string) {
    exists i :: 0 <= i < |records| && records[i].userId == userId
  }

  /** `i` is the position of the first record of `userId`. */
  predicate IsFirstOf(records: seq<UserGoals>, userId: string, i: int) {
    && 0 <= i < |records|
    && records[i].userId == userId
    && forall j :: 0 <= j < i ==> records[j].userId != userId
  }

  /** `table.get`: the first record of `userId`, if any. */
  function Lookup(records: seq<UserGoals>, userId: string): (g: Option<UserGoals>)
    ensures g.None? <==> !HasUser(records, userId)
    ensures g.Some? ==> g.value in records && g.value.userId == userId
    ensures g.Some? ==> exists i :: IsFirstOf(records, userId, i) && records[i] == g.value
  {
    if records == [] then None
    else if records[0].userId == userId then
      assert IsFirstOf(records, userId, 0);
      Some(records[0])
    else
      var g := Lookup(records[1..], userId);
      assert HasUser(records, userId) ==> HasUser(records[1..], userId) by {
        if HasUser(records, userId) {
          var i :| 0 <= i < |records| && records[i].userId == userId;
          assert records[1..][i - 1].userId == userId;
        }
      }
      assert g.Some? ==> exists i :: IsFirstOf(records, userId, i) && records[i] == g.value by {
        if g.Some? {
          var i :| IsFirstOf(records[1..], userId, i) && records[1..][i] == g.value;
          assert IsFirstOf(records, userId, i + 1);
        }
      }
      g
  }

  /** `table.update(goals, User.user_id == userId)`: every record of the user
      is overwritten by `goals`; the stored documents carry exactly the keys
      of `goals`, so the merged document equals `goals`. */
  function ReplaceUser(records: seq<UserGoals>, goals: UserGoals): (r: seq<UserGoals>)
    ensures |r| == |records|
    ensures forall i :: 0 <= i < |records| ==>
      r[i] == if records[i].userId == goals.userId then goals else records[i]
  {
    if records == [] then []
    else [if records[0].userId == goals.userId then goals else records[0]] + ReplaceUser(records[1..], goals)
  }

  /** The table after `set_goals` stores `goals`: overwrite the user's
      records when there are any, otherwise insert one. */
  function Upserted(records: seq<UserGoals>, goals: UserGoals): seq<UserGoals> {
    if HasUser(records, goals.userId) then ReplaceUser(records, goals) else records + [goals]
  }

  /** Overwriting another user's records does not change what `userId` reads. */
  lemma {:induction false} LookupReplaced(records: seq<UserGoals>, goals: UserGoals, userId: string)
    requires userId != goals.userId
    ensures Lookup(ReplaceUser(records, goals), userId) == Lookup(records, userId)
  {
    if records != [] {
      var r := ReplaceUser(records, goals);
      assert r[1..] == ReplaceUser(records[1..], goals);
      LookupReplaced(records[1..], goals, userId);
    }
  }

  /** Appending a record of a new user: earlier users read what they read
      before, and the new user reads that record. */
  lemma {:induction false} LookupAppended(records: seq<UserGoals>, goals: UserGoals, userId: string)
    requires !HasUser(records, goals.userId)
    ensures Lookup(records + [goals], userId) == if HasUser(records, userId) then Lookup(records, userId) else
      if userId == goals.userId then Some(goals) else None
  {
    if records != [] {
      assert (records + [goals])[1..] == records[1..] + [goals];
      LookupAppended(records[1..], goals, userId);
    } else {
      assert records + [goals] == [goals];
    }
  }

  /** After the upsert, reading the user's goals yields the new goals and
      every other user reads what it read before. */
  lemma UpsertedLookup(records: seq<UserGoals>, goals: UserGoals, userId: string)
    ensures Lookup(Upserted(records, goals), userId) ==
      if userId == goals.userId then Some(goals) else Lookup(records, userId)
  {
    if HasUser(records, goals.userId) {
      if userId == goals.userId {
        var r := ReplaceUser(records, goals);
        var i :| 0 <= i < |records| && records[i].userId == goals.userId;
        assert r[i] == goals;
        var g := Lookup(r, userId);
        assert g.Some?;
        var k :| 0 <= k < |r| && r[k] == g.value;
      } else {
        LookupReplaced(records, goals, userId);
      }
    } else {
      LookupAppended(records, goals, userId);
      if userId == goals.userId {
        assert !HasUser(records, userId);
      }
    }
  }

  /** The upsert keeps other users' records in place and either overwrites
      the user's records in place or appends exactly one. */
  lemma UpsertedShape(records: seq<UserGoals>, goals: UserGoals)
    ensures |Upserted(records, goals)| == if HasUser(records, goals.userId) then |records| else |records| + 1
    ensures forall i :: 0 <= i < |records| && records[i].userId != goals.userId ==>
      Upserted(records, goals)[i] == records[i]
    ensures forall i :: 0 <= i < |records| && records[i].userId == goals.userId ==>
      Upserted(records, goals)[i] == goals
    ensures !HasUser(records, goals.userId) ==> Upserted(records, goals)[|records|] == goals
  {
  }

  /** Storing the same goals twice leaves the table as storing them once. */
  lemma UpsertedIdempotent(records: seq<UserGoals>, goals: UserGoals)
    ensures Upserted(Upserted(records, goals), goals) == Upserted(records, goals)
  {
    var once := Upserted(records, goals);
    assert HasUser(once, goals.userId) by {
      if HasUser(records, goals.userId) {
        var i :| 0 <= i < |records| && records[i].userId == goals.userId;
        assert once[i].userId == goals.userId;
      } else {
        assert once[|records|] == goals;
      }
    }
    assert ReplaceUser(once, goals) == once;
  }

  /** The `goals` table of the document store. */
  class GoalsTable {
    var records: seq<UserGoals>

    constructor (initial: seq<UserGoals>)
      ensures records == initial
    {
      records := initial;
    }

    /** The upsert in `set_goals`. */
    method Upsert(goals: UserGoals)
      modifies this
      ensures records == Upserted(old(records), goals)
    {
      if exists i :: 0 <= i < |records| && records[i].userId == goals.userId {
        records := ReplaceUser(records, goals);
      } else {
        records := records + [goals];
      }
    }
  }

  // ---------------------------------------------------------------------
  // set_goals

  /** `int(body.get("daily_calories", 0))`. */
  function DailyCaloriesOrZero(body: Body): int {
    match body.dailyCalories
    case Some(c) => c
    case None => 0
  }

  /** `body.get("macros", {})`. */
  function MacrosOrEmpty(body: Body): MacroDict {
    match body.macros
    case Some(d) => d
    case None => map[]
  }

  /** The goals `set_goals` builds from a request body, or the exception it
      raises: the macros are validated first, then the calories. */
  function GoalsFromBody(userId: string, body: Body, now: string): (r: Result<UserGoals>)
    ensures r.Ok? <==> ValidateMacros(MacrosOrEmpty(body)).Ok? && DailyCaloriesOrZero(body) > 0
    ensures ValidateMacros(MacrosOrEmpty(body)).Err? ==> r == Err(ValidateMacros(MacrosOrEmpty(body)).error)
    ensures r.Ok? ==> r.value.userId == userId && r.value.dailyCalories == DailyCaloriesOrZero(body)
    ensures r.Ok? ==> r.value.macros == ValidateMacros(MacrosOrEmpty(body)).value && r.value.updatedAt == now
    ensures r.Ok? ==> r.value.dailyCalories > 0 && NonNegative(r.value.macros)
  {
    match ValidateMacros(MacrosOrEmpty(body))
    case Err(e) => Err(e)
    case Ok(macros) => NewGoals(userId, DailyCaloriesOrZero(body), macros, now)
  }

  /** `set_goals`: `now` is the clock reading stored in `updated_at`. */
  method SetGoals(table: GoalsTable, userId: string, body: Body, now: string) returns (resp: Response)
    modifies table
    ensures GoalsFromBody(userId, body, now).Err? ==>
      resp == Response(500, ServerError(GoalsFromBody(userId, body, now).error))
      && table.records == old(table.records)
    ensures GoalsFromBody(userId, body, now).Ok? ==>
      resp == Response(200, GoalsBody(GoalsFromBody(userId, body, now).value))
      && table.records == Upserted(old(table.records), GoalsFromBody(userId, body, now).value)
  {
    var dailyCalories := DailyCaloriesOrZero(body);
    var macros := ValidateMacros(MacrosOrEmpty(body));
    if macros.Err? {
      return Response(500, ServerError(macros.error));
    }
    var goals := NewGoals(userId, dailyCalories, macros.value, now);
    if goals.Err? {
      return Response(500, ServerError(goals.error));
    }
    table.Upsert(goals.value);
    resp := Response(200, GoalsBody(goals.value));
  }

  // ---------------------------------------------------------------------
  // get_recommendations

  /** `int(body.get("daily_calories") or (goals or {}).get("daily_calories", 0))`:
      a missing or zero body value falls back to the stored goals. */
  function ResolvedCalories(stored: Option<UserGoals>, body: Body): int {
    if body.dailyCalories.Some? && body.dailyCalories.value != 0 then body.dailyCalories.value
    else if stored.Some? then stored.value.dailyCalories
    else 0
  }

  /** `body.get("macros") or (goals or {}).get("macros", {})`: a missing or
      empty body object falls back to the stored goals. */
  function ResolvedMacros(stored: Option<UserGoals>, body: Body): MacroDict {
    if body.macros.Some? && body.macros.value != map[] then body.macros.value
    else if stored.Some? then ToDict(stored.value.macros)
    else map[]
  }

  /** How `get_recommendations` ends before or at the call to the recommender. */
  datatype Resolution =
    | GoalsNotFound
    | MacrosRejected(exception: Error)
    | InvalidDailyCalories
    | Resolved(dailyCalories: int, macros: Macros)

  /** The guards of `get_recommendations`, in source order: no stored goals
      and an empty body; then macro validation (which raises); then the
      calorie check. */
  function ResolveTargets(stored: Option<UserGoals>, body: Body): (r: Resolution)
    ensures r.GoalsNotFound? <==> stored.None? && IsEmpty(body)
    ensures r.MacrosRejected? <==> !(stored.None? && IsEmpty(body)) && ValidateMacros(ResolvedMacros(stored, body)).Err?
    ensures r.InvalidDailyCalories? <==>
      !(stored.None? && IsEmpty(body)) && ValidateMacros(ResolvedMacros(stored, body)).Ok? && ResolvedCalories(stored, body) <= 0
    ensures r.Resolved? ==> r.dailyCalories > 0 && r.dailyCalories == ResolvedCalories(stored, body)
    ensures r.Resolved? ==> NonNegative(r.macros) && Ok(r.macros) == ValidateMacros(ResolvedMacros(stored, body))
  {
    if stored.None? && IsEmpty(body) then GoalsNotFound
    else
      var dailyCalories := ResolvedCalories(stored, body);
      match ValidateMacros(ResolvedMacros(stored, body))
      case Err(e) => MacrosRejected(e)
      case Ok(macros) => if dailyCalories <= 0 then InvalidDailyCalories else Resolved(dailyCalories, macros)
  }

  /** With both targets in the body, positive calories and valid macros,
      the body decides the outcome whatever goals are stored. */
  lemma BodyOverridesStored(stored: Option<UserGoals>, body: Body, macros: Macros)
    requires body.dailyCalories.Some? && body.dailyCalories.value > 0
    requires body.macros.Some? && body.macros.value != map[]
    requires ValidateMacros(body.macros.value) == Ok(macros)
    ensures ResolveTargets(stored, body) == Resolved(body.dailyCalories.value, macros)
  {
  }

  /** Each key of the body overrides the stored goals on its own: a present,
      non-zero `daily_calories` (negative ones included) and a present,
      non-empty `macros` object are used whatever is stored; an absent or
      falsy one falls back to the stored value, or to the default. */
  lemma BodyKeysOverride(stored: Option<UserGoals>, body: Body)
    ensures body.dailyCalories.Some? && body.dailyCalories.value != 0 ==>
      ResolvedCalories(stored, body) == body.dailyCalories.value
    ensures body.macros.Some? && body.macros.value != map[] ==>
      ResolvedMacros(stored, body) == body.macros.value
    ensures (body.dailyCalories.None? || body.dailyCalories.value == 0) ==>
      ResolvedCalories(stored, body) == if stored.Some? then stored.value.dailyCalories else 0
    ensures (body.macros.None? || body.macros.value == map[]) ==>
      ResolvedMacros(stored, body) == if stored.Some? then ToDict(stored.value.macros) else map[]
  {
  }

  /** A body with only `daily_calories` takes the calories from the body and
      the macros from valid stored goals; a negative value overrides the
      stored calories and is rejected. */
  lemma BodyCaloriesStoredMacros(goals: UserGoals, calories: int)
    requires calories != 0 && NonNegative(goals.macros)
    ensures ResolveTargets(Some(goals), Body(Some(calories), None, false))
      == if calories > 0 then Resolved(calories, goals.macros) else InvalidDailyCalories
  {
  }

  /** With no targets in the body, valid stored goals are used unchanged:
      their macros survive re-validation. */
  lemma StoredGoalsUsed(goals: UserGoals, body: Body)
    requires body.dailyCalories.None? && body.macros.None?
    requires goals.dailyCalories > 0 && NonNegative(goals.macros)
    ensures ResolveTargets(Some(goals), body) == Resolved(goals.dailyCalories, goals.macros)
  {
  }

  /** `get_recommendations` for the user's goals in `records`. */
  method GetRecommendations(records: seq<UserGoals>, userId: string, body: Body) returns (resp: Response)
    ensures resp.status == 404 <==> Lookup(records, userId).None? && IsEmpty(body)
    ensures resp.status == 200 <==> ResolveTargets(Lookup(records, userId), body).Resolved?
    ensures match ResolveTargets(Lookup(records, userId), body)
      case GoalsNotFound => resp == Response(404, ErrorBody("goals_not_found"))
      case MacrosRejected(e) => resp == Response(500, ServerError(e))
      case InvalidDailyCalories => resp == Response(400, ErrorBody("invalid_daily_calories"))
      case Resolved(c, m) => resp == Response(200, Recommendations(
        Recommender.Plan(Recommender.FOODS, Recommender.Targets(c, m.protein, m.carbs, m.fat), Recommender.MAX_PASSES)))
  {
    var goals := Lookup(records, userId);
    if goals.None? && IsEmpty(body) {
      return Response(404, ErrorBody("goals_not_found"));
    }
    var dailyCalories := ResolvedCalories(goals, body);
    var macros := ValidateMacros(ResolvedMacros(goals, body));
    if macros.Err? {
      return Response(500, ServerError(macros.error));
    }
    if dailyCalories <= 0 {
      return Response(400, ErrorBody("invalid_daily_calories"));
    }
    var plan := Recommender.RecommendMeals(dailyCalories, macros.value.protein, macros.value.carbs, macros.value.fat);
    resp := Response(200, Recommendations(plan));
  }

  // ---------------------------------------------------------------------
  // monthly_summary

  /** A calendar date; as a `by_day` key it stands for its ISO form
      `YYYY-MM-DD`, which is one-to-one with the date. */
  datatype Date = Date(year: int, month: int, day: int)

  /** An intake row as the aggregation reads it: `date` is the parsed
      timestamp, `None` when the parser raises. */
  datatype Row = Row(date: Option<Date>, calories: int, protein: real, carbs: real, fat: real)

  /** Month totals: calories stay an exact integer. */
  datatype Totals = Totals(calories: int, protein: real, carbs: real, fat: real)

  /** A per-day bucket; every field is a float in the source. */
  datatype Bucket = Bucket(calories: real, protein: real, carbs: real, fat: real)

  /** The loop state of `monthly_summary`: the running totals, the `days`
      dictionary and its key insertion order. */
  datatype Tally = Tally(totals: Totals, days: map<Date, Bucket>, order: seq<Date>)

  /** The returned summary: the month, the rounded totals and `by_day`. */
  datatype MonthSummary = MonthSummary(year: int, month: int, totals: Totals, byDay: map<Date, Bucket>, dayOrder: seq<Date>)

  const ZERO_BUCKET: Bucket := Bucket(0.0, 0.0, 0.0, 0.0)
  const EMPTY_TALLY: Tally := Tally(Totals(0, 0.0, 0.0, 0.0), map[], [])

  /** The row parsed and falls in the target month. */
  predicate InMonth(r: Row, year: int, month: int) {
    r.date.Some? && r.date.value.year == year && r.date.value.month == month
  }

  function RowBucket(r: Row): Bucket {
    Bucket(r.calories as real, r.protein, r.carbs, r.fat)
  }

  function Plus(a: Bucket, b: Bucket): Bucket {
    Bucket(a.calories + b.calories, a.protein + b.protein, a.carbs + b.carbs, a.fat + b.fat)
  }

  /** One iteration of the loop over rows. */
  function AddRow(t: Tally, r: Row, year: int, month: int): Tally {
    if !InMonth(r, year, month) then t
    else
      var d := r.date.value;
      var bucket := if d in t.days then t.days[d] else ZERO_BUCKET;
      Tally(
        Totals(t.totals.calories + r.calories, t.totals.protein + r.protein,
               t.totals.carbs + r.carbs, t.totals.fat + r.fat),
        t.days[d := Plus(bucket, RowBucket(r))],
        if d in t.days then t.order else t.order + [d])
  }

  /** The loop state after processing `rows` in order. */
  function TallyOf(rows: seq<Row>, year: int, month: int): Tally {
    if rows == [] then EMPTY_TALLY
    else AddRow(TallyOf(rows[..|rows| - 1], year, month), rows[|rows| - 1], year, month)
  }

  /** Processing a row that does not parse, or lies outside the month,
      changes nothing; a row of the month adds its four values to its own
      day's bucket (a new bucket starting at zero, its day appended to the key
      order) and to the totals, and leaves every other bucket as it was. */
  lemma AddRowEffect(t: Tally, r: Row, year: int, month: int)
    ensures !InMonth(r, year, month) ==> AddRow(t, r, year, month) == t
    ensures InMonth(r, year, month) ==>
      var u := AddRow(t, r, year, month);
      var d := r.date.value;
      && u.totals.calories == t.totals.calories + r.calories
      && u.totals.protein == t.totals.protein + r.protein
      && u.totals.carbs == t.totals.carbs + r.carbs
      && u.totals.fat == t.totals.fat + r.fat
      && u.days.Keys == t.days.Keys + {d}
      && u.days[d] == Plus(if d in t.days then t.days[d] else ZERO_BUCKET, RowBucket(r))
      && (forall e :: e in t.days && e != d ==> u.days[e] == t.days[e])
      && u.order == (if d in t.days then t.order else t.order + [d])
  {
  }

  /** The `for row in rows` loop of `monthly_summary`. */
  method Accumulate(rows: seq<Row>, year: int, month: int) returns (tally: Tally)
    ensures tally == TallyOf(rows, year, month)
  {
    var totalCal := 0;
    var totalP := 0.0;
    var totalC := 0.0;
    var totalF := 0.0;
    var days: map<Date, Bucket> := map[];
    var order: seq<Date> := [];
    for i := 0 to |rows|
      invariant Tally(Totals(totalCal, totalP, totalC, totalF), days, order) == TallyOf(rows[..i], year, month)
    {
      var row := rows[i];
      assert rows[..i + 1][..i] == rows[..i];
      if row.date.None? {
        continue;
      }
      var ts := row.date.value;
      if ts.year == year && ts.month == month {
        var dayKey := ts;
        totalCal := totalCal + row.calories;
        totalP := totalP + row.protein;
        totalC := totalC + row.carbs;
        totalF := totalF + row.fat;
        if dayKey !in days {
          days := days[dayKey := ZERO_BUCKET];
          order := order + [dayKey];
        }
        var bucket := days[dayKey];
        days := days[dayKey := Bucket(bucket.calories + row.calories as real, bucket.protein + row.protein,
                                      bucket.carbs + row.carbs, bucket.fat + row.fat)];
      }
    }
    assert rows[..|rows|] == rows;
    tally := Tally(Totals(totalCal, totalP, totalC, totalF), days, order);
  }

  // Properties of the aggregation

  /** The rows of the target month, in their original order. */
  function Matching(rows: seq<Row>, year: int, month: int): (m: seq<Row>)
    ensures forall i :: 0 <= i < |m| ==> InMonth(m[i], year, month)
  {
    if rows == [] then []
    else
      var prev := Matching(rows[..|rows| - 1], year, month);
      if InMonth(rows[|rows| - 1], year, month) then prev + [rows[|rows| - 1]] else prev
  }

  /** The plain sum of all rows' values. */
  function SumRows(rows: seq<Row>): Totals {
    if rows == [] then Totals(0, 0.0, 0.0, 0.0)
    else
      var prev := SumRows(rows[..|rows| - 1]);
      var r := rows[|rows| - 1];
      Totals(prev.calories + r.calories, prev.protein + r.protein, prev.carbs + r.carbs, prev.fat + r.fat)
  }

  /** Rows outside the month, or with an unparseable timestamp, anywhere in
      the input, have no effect: the result is that of the matching rows. */
  lemma {:induction false} TallyOfMatching(rows: seq<Row>, year: int, month: int)
    ensures TallyOf(rows, year, month) == TallyOf(Matching(rows, year, month), year, month)
  {
    if rows != [] {
      var init := rows[..|rows| - 1];
      var last := rows[|rows| - 1];
      TallyOfMatching(init, year, month);
      if InMonth(last, year, month) {
        var m := Matching(init, year, month) + [last];
        assert m[..|m| - 1] == Matching(init, year, month);
      }
    }
  }

  /** The totals are the exact sums, over the rows of the month, of their
      calories (an integer) and macros. */
  lemma {:induction false} TallyTotals(rows: seq<Row>, year: int, month: int)
    ensures TallyOf(rows, year, month).totals == SumRows(Matching(rows, year, month))
  {
    if rows != [] {
      var init := rows[..|rows| - 1];
      var last := rows[|rows| - 1];
      TallyTotals(init, year, month);
      if InMonth(last, year, month) {
        var m := Matching(init, year, month) + [last];
        assert m[..|m| - 1] == Matching(init, year, month);
      }
    }
  }

  predicate NoDuplicates(s: seq<Date>) {
    forall a, b :: 0 <= a < b < |s| ==> s[a] != s[b]
  }

  /** The dates of the month's rows. */
  function MonthDates(rows: seq<Row>, year: int, month: int): set<Date> {
    set i | 0 <= i < |rows| && InMonth(rows[i], year, month) :: rows[i].date.value
  }

  lemma MonthDatesSnoc(rows: seq<Row>, year: int, month: int)
    requires rows != []
    ensures MonthDates(rows, year, month) ==
      MonthDates(rows[..|rows| - 1], year, month)
        + (if InMonth(rows[|rows| - 1], year, month) then {rows[|rows| - 1].date.value} else {})
  {
  }

  /** `by_day` has exactly one key per distinct day of the month's rows and
      no other (no empty or zero-filled days), and the key order lists each
      key once. */
  lemma {:induction false} TallyDays(rows: seq<Row>, year: int, month: int)
    ensures TallyOf(rows, year, month).days.Keys == MonthDates(rows, year, month)
    ensures NoDuplicates(TallyOf(rows, year, month).order)
    ensures forall d :: d in TallyOf(rows, year, month).order <==> d in TallyOf(rows, year, month).days
  {
    if rows != [] {
      TallyDays(rows[..|rows| - 1], year, month);
      MonthDatesSnoc(rows, year, month);
    }
  }

  /** A month without rows gives zero totals and no buckets. */
  lemma {:induction false} EmptyMonth(rows: seq<Row>, year: int, month: int)
    requires forall i :: 0 <= i < |rows| ==> !InMonth(rows[i], year, month)
    ensures TallyOf(rows, year, month) == EMPTY_TALLY
  {
    if rows != [] {
      EmptyMonth(rows[..|rows| - 1], year, month);
    }
  }

  /** Keys are kept in first-seen order: the order after any prefix of the
      rows is a prefix of the final order. */
  lemma {:induction false} TallyOrderGrows(rows: seq<Row>, i: nat, year: int, month: int)
    requires i <= |rows|
    ensures TallyOf(rows[..i], year, month).order <= TallyOf(rows, year, month).order
  {
    if i < |rows| {
      var init := rows[..|rows| - 1];
      assert init[..i] == rows[..i];
      TallyOrderGrows(init, i, year, month);
    } else {
      assert rows[..i] == rows;
    }
  }

  /** The bucket sum over the keys in `order`. */
  function SumDays(days: map<Date, Bucket>, order: seq<Date>): Bucket
    requires forall d :: d in order ==> d in days
  {
    if order == [] then ZERO_BUCKET
    else Plus(SumDays(days, order[..|order| - 1]), days[order[|order| - 1]])
  }

  lemma {:induction false} SumDaysFrame(days1: map<Date, Bucket>, days2: map<Date, Bucket>, order: seq<Date>)
    requires forall d :: d in order ==> d in days1 && d in days2 && days1[d] == days2[d]
    ensures SumDays(days1, order) == SumDays(days2, order)
  {
    if order != [] {
      SumDaysFrame(days1, days2, order[..|order| - 1]);
    }
  }

  /** Adding `b` to one bucket adds `b` to the sum over the keys. */
  lemma {:induction false} SumDaysAdd(days: map<Date, Bucket>, order: seq<Date>, d: Date, b: Bucket)
    requires forall e :: e in order ==> e in days
    requires NoDuplicates(order) && d in order
    ensures SumDays(days[d := Plus(days[d], b)], order) == Plus(SumDays(days, order), b)
  {
    var days' := days[d := Plus(days[d], b)];
    var init := order[..|order| - 1];
    var last := order[|order| - 1];
    if last == d {
      SumDaysFrame(days, days', init);
    } else {
      assert d in init;
      SumDaysAdd(days, init, d, b);
    }
  }

  /** The totals as a bucket, calories converted to a real. */
  function TotalsBucket(t: Totals): Bucket {
    Bucket(t.calories as real, t.protein, t.carbs, t.fat)
  }

  /** The loop state lists each key once, and the buckets add up to the totals. */
  ghost predicate Balanced(t: Tally) {
    && NoDuplicates(t.order)
    && (forall d :: d in t.order <==> d in t.days)
    && SumDays(t.days, t.order) == TotalsBucket(t.totals)
  }

  /** A row of a day already present keeps the state balanced. */
  lemma AddRowBalancedKnownDay(t: Tally, r: Row, year: int, month: int)
    requires Balanced(t) && InMonth(r, year, month) && r.date.value in t.days
    ensures Balanced(AddRow(t, r, year, month))
  {
    var d := r.date.value;
    var u := AddRow(t, r, year, month);
    assert u.order == t.order;
    assert u.days == t.days[d := Plus(t.days[d], RowBucket(r))];
    SumDaysAdd(t.days, t.order, d, RowBucket(r));
    assert SumDays(u.days, u.order) == Plus(TotalsBucket(t.totals), RowBucket(r));
  }

  /** Appending a key absent from a duplicate-free order keeps it duplicate-free. */
  lemma NoDuplicatesSnoc(s: seq<Date>, d: Date)
    requires NoDuplicates(s) && d !in s
    ensures NoDuplicates(s + [d])
  {
  }

  /** A row of a new day keeps the state balanced. */
  lemma AddRowBalancedNewDay(t: Tally, r: Row, year: int, month: int)
    requires Balanced(t) && InMonth(r, year, month) && r.date.value !in t.days
    ensures Balanced(AddRow(t, r, year, month))
  {
    var d := r.date.value;
    var u := AddRow(t, r, year, month);
    assert u.order == t.order + [d];
    assert u.days == t.days[d := Plus(ZERO_BUCKET, RowBucket(r))];
    assert d !in t.order;
    NoDuplicatesSnoc(t.order, d);
    assert u.order[..|u.order| - 1] == t.order;
    SumDaysFrame(t.days, u.days, t.order);
    assert SumDays(u.days, u.order) == Plus(SumDays(t.days, t.order), u.days[d]);
  }

  /** One loop iteration keeps the state balanced. */
  lemma AddRowBalanced(t: Tally, r: Row, year: int, month: int)
    requires Balanced(t)
    ensures Balanced(AddRow(t, r, year, month))
  {
    if InMonth(r, year, month) {
      if r.date.value in t.days {
        AddRowBalancedKnownDay(t, r, year, month);
      } else {
        AddRowBalancedNewDay(t, r, year, month);
      }
    }
  }

  /** The cross-check of the summary: summed over all days, the buckets give
      the (unrounded) totals. */
  lemma {:induction false} BucketsSumToTotals(rows: seq<Row>, year: int, month: int)
    ensures forall d :: d in TallyOf(rows, year, month).order ==> d in TallyOf(rows, year, month).days
    ensures SumDays(TallyOf(rows, year, month).days, TallyOf(rows, year, month).order)
      == TotalsBucket(TallyOf(rows, year, month).totals)
  {
    if rows != [] {
      BucketsSumToTotals(rows[..|rows| - 1], year, month);
      TallyDays(rows[..|rows| - 1], year, month);
      AddRowBalanced(TallyOf(rows[..|rows| - 1], year, month), rows[|rows| - 1], year, month);
    }
  }

  /** The month's rows dated `d`. */
  function RowsOn(rows: seq<Row>, year: int, month: int, d: Date): seq<Row> {
    if rows == [] then []
    else
      var prev := RowsOn(rows[..|rows| - 1], year, month, d);
      var r := rows[|rows| - 1];
      if InMonth(r, year, month) && r.date.value == d then prev + [r] else prev
  }

  /** The sum of the rows' values, every field as a real. */
  function BucketOf(rows: seq<Row>): Bucket {
    if rows == [] then ZERO_BUCKET
    else Plus(BucketOf(rows[..|rows| - 1]), RowBucket(rows[|rows| - 1]))
  }

  /** Each day's bucket is the sum of that day's rows of the month. */
  lemma {:induction false} TallyDayBucket(rows: seq<Row>, year: int, month: int, d: Date)
    requires d in TallyOf(rows, year, month).days
    ensures TallyOf(rows, year, month).days[d] == BucketOf(RowsOn(rows, year, month, d))
  {
    var init := rows[..|rows| - 1];
    var last := rows[|rows| - 1];
    var t := TallyOf(init, year, month);
    var on := RowsOn(init, year, month, d);
    if InMonth(last, year, month) && last.date.value == d {
      assert (on + [last])[..|on|] == on;
      if d in t.days {
        TallyDayBucket(init, year, month, d);
      } else {
        NoRowsOnMissingDay(init, year, month, d);
      }
    } else {
      TallyDayBucket(init, year, month, d);
    }
  }

  /** A day without a bucket has no rows. */
  lemma {:induction false} NoRowsOnMissingDay(rows: seq<Row>, year: int, month: int, d: Date)
    requires d !in TallyOf(rows, year, month).days
    ensures RowsOn(rows, year, month, d) == []
  {
    if rows != [] {
      NoRowsOnMissingDay(rows[..|rows| - 1], year, month, d);
    }
  }

  /** `round(x, 2)` on an exact real: round half to even at two decimals. */
  function Round2(x: real): (r: real)
    ensures -0.005 <= r - x <= 0.005
    ensures (r * 100.0).Floor as real == r * 100.0
  {
    var scaled := x * 100.0;
    var lower := scaled.Floor;
    var frac := scaled - lower as real;
    var n := if frac > 0.5 then lower + 1
             else if frac < 0.5 then lower
             else if lower % 2 == 0 then lower else lower + 1;
    n as real / 100.0
  }

  /** The summary built from the loop state: macro totals rounded to two
      decimals, calories and the buckets left as they are. */
  function SummaryOf(t: Tally, year: int, month: int): MonthSummary {
    MonthSummary(year, month,
      Totals(t.totals.calories, Round2(t.totals.protein), Round2(t.totals.carbs), Round2(t.totals.fat)),
      t.days, t.order)
  }

  /** `monthly_summary`. `monthArg` is the `month` query parameter and
      `monthStart` the parse of `monthArg + "-01"` (`None` when it raises);
      `rows` are the user's intake rows. */
  method MonthlySummary(monthArg: Option<string>, monthStart: Option<Date>, rows: seq<Row>) returns (resp: Response)
    ensures (monthArg.None? || monthArg.value == "") ==> resp == Response(400, ErrorBody("missing_month"))
    ensures monthArg.Some? && monthArg.value != "" && monthStart.None? ==>
      resp == Response(400, ErrorBody("invalid_month"))
    ensures monthArg.Some? && monthArg.value != "" && monthStart.Some? ==>
      var y, m := monthStart.value.year, monthStart.value.month;
      resp == Response(200, SummaryBody(SummaryOf(TallyOf(rows, y, m), y, m)))
  {
    if monthArg.None? || monthArg.value == "" {
      return Response(400, ErrorBody("missing_month"));
    }
    if monthStart.None? {
      return Response(400, ErrorBody("invalid_month"));
    }
    var year, month := monthStart.value.year, monthStart.value.month;
    var t := Accumulate(rows, year, month);
    var summary := SummaryOf(t, year, month);
    resp := Response(200, SummaryBody(summary));
  }

  /** The worked example: two rows on 2024-03-05 (100 and 200 kcal) and one
      on 2024-03-06 (50 kcal) give 350 kcal in two buckets. */
  lemma SummaryExample()
    ensures var rows := [Row(Some(Date(2024, 3, 5)), 100, 0.0, 0.0, 0.0),
                         Row(Some(Date(2024, 3, 5)), 200, 0.0, 0.0, 0.0),
                         Row(Some(Date(2024, 3, 6)), 50, 0.0, 0.0, 0.0)];
      var t := TallyOf(rows, 2024, 3);
      t.totals.calories == 350 && t.order == [Date(2024, 3, 5), Date(2024, 3, 6)]
      && t.days[Date(2024, 3, 5)].calories == 300.0 && t.days[Date(2024, 3, 6)].calories == 50.0
  {
    var rows := [Row(Some(Date(2024, 3, 5)), 100, 0.0, 0.0, 0.0),
                 Row(Some(Date(2024, 3, 5)), 200, 0.0, 0.0, 0.0),
                 Row(Some(Date(2024, 3, 6)), 50, 0.0, 0.0, 0.0)];
    assert rows[..1][..0] == [];
    assert rows[..2][..1] == rows[..1];
    assert rows[..3][..2] == rows[..2];
    assert rows[..3] == rows;
    var t1 := TallyOf(rows[..1], 2024, 3);
    assert TallyOf(rows[..1][..0], 2024, 3) == EMPTY_TALLY;
    assert t1 == AddRow(EMPTY_TALLY, rows[0], 2024, 3);
    var t2 := TallyOf(rows[..2], 2024, 3);
    assert t2 == AddRow(t1, rows[1], 2024, 3);
    assert t2.totals.calories == 300 && t2.order == [Date(2024, 3, 5)];
    assert t2.days[Date(2024, 3, 5)].calories == 300.0;
  }
}

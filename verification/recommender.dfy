/** The greedy meal recommender (coding/app/recommender.py): a fixed food
    catalog and a bounded loop that, pass by pass, picks the catalog entry
    whose weighted macro and calorie gaps are smallest and subtracts it from
    the running remainders. Quantities are exact reals. */
module Recommender {
  import opened Common

  /** A catalog entry: calories are whole kcal, macros are grams. */
  datatype Food = Food(name: string, calories: int, protein: real, carbs: real, fat: real)

  /** The running remainders `remaining_cal`, `remaining_p`, `remaining_c`,
      `remaining_f`, which may go negative. */
  datatype Remaining = Remaining(calories: real, protein: real, carbs: real, fat: real)

  /** The fixed catalog, in the order the scoring loop visits it. */
  const FOODS: seq<Food> := [
    Food("Chicken breast (100g)", 165, 31.0, 0.0, 3.6),
    Food("Greek yogurt (170g)", 100, 17.0, 6.0, 0.7),
    Food("Brown rice (1 cup)", 216, 5.0, 45.0, 1.8),
    Food("Oats (1/2 cup)", 150, 5.0, 27.0, 3.0),
    Food("Almonds (28g)", 164, 6.0, 6.0, 14.0),
    Food("Eggs (2 large)", 156, 12.0, 2.0, 10.0),
    Food("Salmon (100g)", 208, 20.0, 0.0, 13.0),
    Food("Apple (1 medium)", 95, 0.5, 25.0, 0.3),
    Food("Banana (1 medium)", 105, 1.3, 27.0, 0.4),
    Food("Olive oil (1 tbsp)", 119, 0.0, 0.0, 14.0)
  ]

  /** The most passes the greedy loop makes, hence the longest plan. */
  const MAX_PASSES: nat := 5

  /** A food is skipped on a pass when it overshoots the remaining calories
      by more than 20% while more than 200 kcal remain. */
  predicate Excluded(food: Food, rem: Remaining) {
    food.calories as real > rem.calories * 1.2 && rem.calories > 200.0
  }

  /** `max(0.0, remaining - provided)`: the shortfall a food leaves. */
  function Gap(remaining: real, provided: real): (g: real)
    ensures g >= 0.0 && g >= remaining - provided
  {
    if 0.0 < remaining - provided then remaining - provided else 0.0
  }

  /** Weighted sum of the four gaps; lower is better. */
  function Score(food: Food, rem: Remaining): (s: real)
    ensures s >= 0.0
  {
    Gap(rem.protein, food.protein) * 1.5
      + Gap(rem.carbs, food.carbs) * 1.0
      + Gap(rem.fat, food.fat) * 1.2
      + Gap(rem.calories, food.calories as real) * 0.3
  }

  /** The remainders after eating `food`; no clamping. */
  function Eat(rem: Remaining, food: Food): Remaining {
    Remaining(rem.calories - food.calories as real, rem.protein - food.protein,
              rem.carbs - food.carbs, rem.fat - food.fat)
  }

  /** The index the scoring loop holds after visiting `foods[..n]`: the
      earliest non-excluded food with the strictly lowest score, if any. */
  function BestAmong(foods: seq<Food>, rem: Remaining, n: nat): (b: Option<nat>)
    requires n <= |foods|
    ensures b.Some? ==> b.value < n
  {
    if n == 0 then None
    else
      var prev := BestAmong(foods, rem, n - 1);
      var food := foods[n - 1];
      if Excluded(food, rem) then prev
      else if prev.None? || Score(food, rem) < Score(foods[prev.value], rem) then Some(n - 1)
      else prev
  }

  /** The food one greedy pass picks from the whole of `foods`. */
  function Best(foods: seq<Food>, rem: Remaining): (b: Option<nat>)
    ensures b.Some? ==> b.value < |foods|
  {
    BestAmong(foods, rem, |foods|)
  }

  /** `k` is the first index among `foods[..n]` that is not excluded and whose
      score is minimal among the non-excluded ones. */
  ghost predicate IsFirstArgMin(foods: seq<Food>, rem: Remaining, n: nat, k: nat) {
    && k < n <= |foods|
    && !Excluded(foods[k], rem)
    && (forall j :: 0 <= j < n && !Excluded(foods[j], rem) ==> Score(foods[k], rem) <= Score(foods[j], rem))
    && (forall j :: 0 <= j < k && !Excluded(foods[j], rem) ==> Score(foods[k], rem) < Score(foods[j], rem))
  }

  /** The scoring loop finds nothing exactly when every food is excluded, and
      otherwise finds the minimum score, the earliest food winning a tie. */
  lemma {:induction false} BestAmongIsFirstArgMin(foods: seq<Food>, rem: Remaining, n: nat)
    requires n <= |foods|
    ensures BestAmong(foods, rem, n).None? <==> forall j :: 0 <= j < n ==> Excluded(foods[j], rem)
    ensures BestAmong(foods, rem, n).Some? ==> IsFirstArgMin(foods, rem, n, BestAmong(foods, rem, n).value)
  {
    if n > 0 {
      BestAmongIsFirstArgMin(foods, rem, n - 1);
    }
  }

  /** The first-wins minimum is unique, so the characterisation above fixes
      the pick. */
  lemma FirstArgMinUnique(foods: seq<Food>, rem: Remaining, n: nat, k1: nat, k2: nat)
    requires IsFirstArgMin(foods, rem, n, k1) && IsFirstArgMin(foods, rem, n, k2)
    ensures k1 == k2
  {
  }

  /** The food a greedy pass picks from `foods`, if any. */
  function BestFood(foods: seq<Food>, rem: Remaining): (b: Option<Food>)
    ensures b.Some? ==> b.value in foods
  {
    match Best(foods, rem)
    case None => None
    case Some(i) => Some(foods[i])
  }

  /** One pass of the scoring loop (the inner `for food in FOODS`). `None`
      plays the part of `best = None` with `best_score = inf`. */
  method PickBest(foods: seq<Food>, rem: Remaining) returns (best: Option<Food>)
    ensures best == BestFood(foods, rem)
  {
    best := None;
    var bestScore: real := 0.0;
    ghost var bestIndex: Option<nat> := None;
    for i := 0 to |foods|
      invariant bestIndex == BestAmong(foods, rem, i)
      invariant best == (if bestIndex.None? then None else Some(foods[bestIndex.value]))
      invariant best.Some? ==> bestScore == Score(best.value, rem)
    {
      var food := foods[i];
      if food.calories as real > rem.calories * 1.2 && rem.calories > 200.0 {
        continue;
      }
      var pGap := Gap(rem.protein, food.protein);
      var cGap := Gap(rem.carbs, food.carbs);
      var fGap := Gap(rem.fat, food.fat);
      var calGap := Gap(rem.calories, food.calories as real);
      var score := pGap * 1.5 + cGap * 1.0 + fGap * 1.2 + calGap * 0.3;
      if best.None? || score < bestScore {
        bestScore := score;
        best := Some(food);
        bestIndex := Some(i);
      }
    }
  }

  /** The plan the greedy loop builds over catalog `foods` from remainders
      `rem` with `passes` passes left: stop when calories are used up or
      nothing survives the exclusion, otherwise take the best food and
      continue from what remains. */
  function Plan(foods: seq<Food>, rem: Remaining, passes: nat): seq<Food>
    decreases passes
  {
    if passes == 0 || rem.calories <= 0.0 then []
    else match BestFood(foods, rem)
      case None => []
      case Some(food) => [food] + Plan(foods, Eat(rem, food), passes - 1)
  }

  function Targets(calories: int, protein: real, carbs: real, fat: real): Remaining {
    Remaining(calories as real, protein, carbs, fat)
  }

  /** One unfolding of `Plan` at a pass that picks `food`. */
  lemma PlanStep(foods: seq<Food>, rem: Remaining, passes: nat, food: Food)
    requires passes > 0 && rem.calories > 0.0 && BestFood(foods, rem) == Some(food)
    ensures Plan(foods, rem, passes) == [food] + Plan(foods, Eat(rem, food), passes - 1)
  {
  }

  /** `Plan` is empty once no pass is left, calories are used up or every
      food is excluded. */
  lemma PlanDone(foods: seq<Food>, rem: Remaining, passes: nat)
    requires passes == 0 || rem.calories <= 0.0 || BestFood(foods, rem).None?
    ensures Plan(foods, rem, passes) == []
  {
  }

  /** `recommend_meals`: at most five greedy passes over the catalog. The
      four running remainders are held in one `Remaining` record. */
  method RecommendMeals(targetCalories: int, targetProtein: real, targetCarbs: real, targetFat: real)
    returns (plan: seq<Food>)
    ensures plan == Plan(FOODS, Targets(targetCalories, targetProtein, targetCarbs, targetFat), MAX_PASSES)
    ensures |plan| <= MAX_PASSES
    ensures targetCalories <= 0 ==> |plan| == 0
    ensures targetCalories > 0 ==> |plan| > 0
  {
    var remaining := Targets(targetCalories, targetProtein, targetCarbs, targetFat);
    PlanFacts(remaining);
    plan := [];
    for pass := 0 to MAX_PASSES
      invariant plan + Plan(FOODS, remaining, MAX_PASSES - pass)
                == Plan(FOODS, Targets(targetCalories, targetProtein, targetCarbs, targetFat), MAX_PASSES)
    {
      if remaining.calories <= 0.0 {
        PlanDone(FOODS, remaining, MAX_PASSES - pass);
        break;
      }
      var best := PickBest(FOODS, remaining);
      if best.None? {
        PlanDone(FOODS, remaining, MAX_PASSES - pass);
        break;
      }
      var food := best.value;
      PlanStep(FOODS, remaining, MAX_PASSES - pass, food);
      plan := plan + [food];
      remaining := Eat(remaining, food);
    }
  }

  /** The facts about the shipped catalog's plan that `RecommendMeals` states. */
  lemma PlanFacts(rem: Remaining)
    ensures |Plan(FOODS, rem, MAX_PASSES)| <= MAX_PASSES
    ensures rem.calories <= 0.0 ==> Plan(FOODS, rem, MAX_PASSES) == []
    ensures rem.calories > 0.0 ==> Plan(FOODS, rem, MAX_PASSES) != []
  {
  }

  // ---------------------------------------------------------------------
  // Properties of the plan

  /** Total calories and macros of a sequence of foods. */
  function Consumed(foods: seq<Food>): Remaining
  {
    if foods == [] then Remaining(0.0, 0.0, 0.0, 0.0)
    else
      var rest := Consumed(foods[1..]);
      Remaining(foods[0].calories as real + rest.calories, foods[0].protein + rest.protein,
                foods[0].carbs + rest.carbs, foods[0].fat + rest.fat)
  }

  /** Targets minus everything in `foods`. */
  function After(rem: Remaining, foods: seq<Food>): Remaining {
    var c := Consumed(foods);
    Remaining(rem.calories - c.calories, rem.protein - c.protein, rem.carbs - c.carbs, rem.fat - c.fat)
  }

  lemma AfterCons(rem: Remaining, food: Food, rest: seq<Food>)
    ensures After(rem, [food] + rest) == After(Eat(rem, food), rest)
  {
  }

  /** The plan never has more entries than passes. */
  lemma {:induction false} PlanLength(foods: seq<Food>, rem: Remaining, passes: nat)
    ensures |Plan(foods, rem, passes)| <= passes
    decreases passes
  {
    if passes > 0 && rem.calories > 0.0 && BestFood(foods, rem).Some? {
      PlanLength(foods, Eat(rem, BestFood(foods, rem).value), passes - 1);
    }
  }

  /** Every entry of the plan is a catalog food (repeats allowed). */
  lemma {:induction false} PlanFromCatalog(foods: seq<Food>, rem: Remaining, passes: nat)
    ensures forall i :: 0 <= i < |Plan(foods, rem, passes)| ==> Plan(foods, rem, passes)[i] in foods
    decreases passes
  {
    if passes > 0 && rem.calories > 0.0 && BestFood(foods, rem).Some? {
      PlanFromCatalog(foods, Eat(rem, BestFood(foods, rem).value), passes - 1);
    }
  }

  /** Pick `k` was made from the remainders "targets minus the first `k`
      picks": those calories were still positive (so every proper prefix of
      the plan stays under the calorie target), and the pick is the greedy
      choice there. */
  lemma {:induction false} PlanPicks(foods: seq<Food>, rem: Remaining, passes: nat, k: nat)
    requires k < |Plan(foods, rem, passes)|
    ensures After(rem, Plan(foods, rem, passes)[..k]).calories > 0.0
    ensures Consumed(Plan(foods, rem, passes)[..k]).calories < rem.calories
    ensures BestFood(foods, After(rem, Plan(foods, rem, passes)[..k])) == Some(Plan(foods, rem, passes)[k])
    decreases passes
  {
    var plan := Plan(foods, rem, passes);
    var food := BestFood(foods, rem).value;
    var rest := Plan(foods, Eat(rem, food), passes - 1);
    assert plan == [food] + rest;
    if k == 0 {
      assert plan[..0] == [];
    } else {
      PlanPicks(foods, Eat(rem, food), passes - 1, k - 1);
      assert plan[..k] == [food] + rest[..k - 1];
      AfterCons(rem, food, rest[..k - 1]);
    }
  }

  /** A plan shorter than the pass bound stopped because calories ran out or
      every food was excluded. */
  lemma {:induction false} PlanStops(foods: seq<Food>, rem: Remaining, passes: nat)
    requires |Plan(foods, rem, passes)| < passes
    ensures After(rem, Plan(foods, rem, passes)).calories <= 0.0
         || BestFood(foods, After(rem, Plan(foods, rem, passes))).None?
    decreases passes
  {
    if rem.calories > 0.0 && BestFood(foods, rem).Some? {
      var food := BestFood(foods, rem).value;
      PlanStops(foods, Eat(rem, food), passes - 1);
      AfterCons(rem, food, Plan(foods, Eat(rem, food), passes - 1));
    } else {
      assert Plan(foods, rem, passes) == [];
    }
  }

  /** A pass picks the earliest food of minimal score among those not
      excluded, and picks nothing only when all are excluded. */
  lemma BestFoodIsFirstArgMin(foods: seq<Food>, rem: Remaining)
    ensures BestFood(foods, rem).None? <==> forall j :: 0 <= j < |foods| ==> Excluded(foods[j], rem)
    ensures BestFood(foods, rem).Some? ==>
      IsFirstArgMin(foods, rem, |foods|, Best(foods, rem).value)
      && BestFood(foods, rem).value == foods[Best(foods, rem).value]
  {
    BestAmongIsFirstArgMin(foods, rem, |foods|);
  }

  /** Each entry of the plan was not excluded on its pass, and no food left
      in play on that pass scored lower. */
  lemma PlanSkipsExcluded(foods: seq<Food>, rem: Remaining, passes: nat, k: nat)
    requires k < |Plan(foods, rem, passes)|
    ensures !Excluded(Plan(foods, rem, passes)[k], After(rem, Plan(foods, rem, passes)[..k]))
    ensures forall j :: 0 <= j < |foods| && !Excluded(foods[j], After(rem, Plan(foods, rem, passes)[..k])) ==>
      Score(Plan(foods, rem, passes)[k], After(rem, Plan(foods, rem, passes)[..k]))
        <= Score(foods[j], After(rem, Plan(foods, rem, passes)[..k]))
  {
    var here := After(rem, Plan(foods, rem, passes)[..k]);
    PlanPicks(foods, rem, passes, k);
    BestFoodIsFirstArgMin(foods, here);
  }

  /** No catalog food exceeds 216 kcal, so the exclusion never fires: over
      200 kcal remaining, 1.2 times the remainder is above 240. */
  lemma CatalogNeverExcluded(rem: Remaining, j: nat)
    requires j < |FOODS|
    ensures !Excluded(FOODS[j], rem)
  {
  }

  /** With positive calories left and a pass to spare, the plan over the
      shipped catalog is not empty. */
  lemma PositiveTargetNonEmpty(rem: Remaining, passes: nat)
    requires rem.calories > 0.0 && passes > 0
    ensures Plan(FOODS, rem, passes) != []
  {
  }

  /** The first pick for targets (500 kcal, 40 g protein, 50 g carbs, 15 g
      fat) is brown rice, score 158.54. */
  lemma FirstPickExample()
    ensures BestFood(FOODS, Remaining(500.0, 40.0, 50.0, 15.0)) == Some(FOODS[2])
  {
    var rem := Remaining(500.0, 40.0, 50.0, 15.0);
    assert Score(FOODS[0], rem) == 177.68;
    assert Score(FOODS[1], rem) == 215.66;
    assert Score(FOODS[2], rem) == 158.54;
    assert Score(FOODS[3], rem) == 194.9;
    assert Score(FOODS[4], rem) == 197.0;
    assert Score(FOODS[5], rem) == 199.2;
    assert Score(FOODS[6], rem) == 170.0;
    assert Score(FOODS[7], rem) == 223.39;
    assert Score(FOODS[8], rem) == 217.07;
    assert Score(FOODS[9], rem) == 225.5;
    assert BestAmong(FOODS, rem, 1) == Some(0);
    assert BestAmong(FOODS, rem, 2) == Some(0);
    assert BestAmong(FOODS, rem, 3) == Some(2);
    assert BestAmong(FOODS, rem, 4) == Some(2);
    assert BestAmong(FOODS, rem, 5) == Some(2);
    assert BestAmong(FOODS, rem, 6) == Some(2);
    assert BestAmong(FOODS, rem, 7) == Some(2);
    assert BestAmong(FOODS, rem, 8) == Some(2);
    assert BestAmong(FOODS, rem, 9) == Some(2);
    assert BestAmong(FOODS, rem, 10) == Some(2);
  }
}

/**
 * The recipe screen: the debounced search against the meal database, and
 * the ingredient list the recipe modal builds from a meal's twenty
 * numbered ingredient and measure fields.
 */
module RecipeSearch {
  import opened Wrappers
  import opened JsText
  import opened Json

  /** A meal carries `strIngredient1` … `strIngredient20` and the matching `strMeasure` fields. */
  const SlotCount: nat := 20

  function IngredientKey(i: nat): string {
    "strIngredient" + NatToString(i)
  }

  function MeasureKey(i: nat): string {
    "strMeasure" + NatToString(i)
  }

  /** What slot number `n` of a meal holds: `recipe[strIngredient<n>]` and `recipe[strMeasure<n>]`. */
  datatype Slot = Slot(ingredient: Option<Json>, measure: Option<Json>)

  function SlotOf(recipe: Json, n: nat): Slot {
    Slot(Member(Some(recipe), IngredientKey(n)), Member(Some(recipe), MeasureKey(n)))
  }

  /** A slot is listed when its ingredient is truthy. */
  predicate Filled(s: Slot) {
    Truthy(s.ingredient)
  }

  /** `${measure} ${ingredient}`; a missing measure shows as "undefined", a null one as "null". */
  function Shown(s: Slot): (r: string)
    ensures r != ""
  {
    Display(s.measure) + " " + Display(s.ingredient)
  }

  /** `Array.from({ length: 20 }, …)`: slot n's entry, or `null` when its ingredient is falsy. */
  function Mapped(recipe: Json): (r: seq<Option<string>>)
    ensures |r| == SlotCount
    ensures forall j :: 0 <= j < SlotCount ==>
      r[j] == if Filled(SlotOf(recipe, j + 1)) then Some(Shown(SlotOf(recipe, j + 1))) else None
  {
    seq(SlotCount, j requires 0 <= j < SlotCount =>
      var slot := SlotOf(recipe, j + 1);
      if Filled(slot) then Some(Shown(slot)) else None)
  }

  /** `filter(Boolean)` keeps a non-empty string and drops `null` and "". */
  predicate Kept(x: Option<string>) {
    x.Some? && x.value != ""
  }

  /** `filter(Boolean)` from position `i` on. */
  function Filter(xs: seq<Option<string>>, i: nat): (r: seq<string>)
    requires i <= |xs|
    ensures |r| <= |xs| - i
    ensures forall j :: 0 <= j < |r| ==> r[j] != ""
    decreases |xs| - i
  {
    if i == |xs| then []
    else (if Kept(xs[i]) then [xs[i].value] else []) + Filter(xs, i + 1)
  }

  /** Reference definition: the positions from `i` on that `filter(Boolean)` keeps, ascending. */
  function KeptPositions(xs: seq<Option<string>>, i: nat): (ks: seq<nat>)
    requires i <= |xs|
    ensures forall j :: 0 <= j < |ks| ==> i <= ks[j] < |xs| && Kept(xs[ks[j]])
    ensures forall j, j' :: 0 <= j < j' < |ks| ==> ks[j] < ks[j']
    decreases |xs| - i
  {
    if i == |xs| then []
    else (if Kept(xs[i]) then [i] else []) + KeptPositions(xs, i + 1)
  }

  /** No kept position is missed. */
  lemma {:induction false} KeptPositionsComplete(xs: seq<Option<string>>, i: nat)
    requires i <= |xs|
    ensures forall k :: i <= k < |xs| && Kept(xs[k]) ==> k in KeptPositions(xs, i)
    decreases |xs| - i
  {
    if i < |xs| {
      KeptPositionsComplete(xs, i + 1);
      var ks := KeptPositions(xs, i + 1);
      assert KeptPositions(xs, i) == (if Kept(xs[i]) then [i] else []) + ks;
    }
  }

  /** The j-th value the filter keeps is the one at the j-th kept position. */
  lemma {:induction false} FilterFollowsKeptPositions(xs: seq<Option<string>>, i: nat)
    requires i <= |xs|
    ensures |Filter(xs, i)| == |KeptPositions(xs, i)|
    ensures forall j :: 0 <= j < |Filter(xs, i)| ==> Some(Filter(xs, i)[j]) == xs[KeptPositions(xs, i)[j]]
    decreases |xs| - i
  {
    if i < |xs| {
      FilterFollowsKeptPositions(xs, i + 1);
      var rest := Filter(xs, i + 1);
      var ks := KeptPositions(xs, i + 1);
      if Kept(xs[i]) {
        var r := Filter(xs, i);
        var ks' := KeptPositions(xs, i);
        assert r == [xs[i].value] + rest;
        assert ks' == [i] + ks;
        forall j | 0 <= j < |r|
          ensures Some(r[j]) == xs[ks'[j]]
        {
          if j > 0 {
            assert r[j] == rest[j - 1] && ks'[j] == ks[j - 1];
          }
        }
      }
    }
  }

  /** Nothing is kept exactly when no position from `i` on holds a non-empty string. */
  lemma {:induction false} FilterEmptyIffNoneKept(xs: seq<Option<string>>, i: nat)
    requires i <= |xs|
    ensures |Filter(xs, i)| == 0 <==> forall j :: i <= j < |xs| ==> !Kept(xs[j])
    decreases |xs| - i
  {
    if i < |xs| {
      FilterEmptyIffNoneKept(xs, i + 1);
    }
  }

  /** The modal's `ingredients`: at most twenty entries, none exactly when no slot is filled. */
  function Ingredients(recipe: Json): (r: seq<string>)
    ensures |r| <= SlotCount
    ensures |r| == 0 <==> forall n :: 1 <= n <= SlotCount ==> !Filled(SlotOf(recipe, n))
  {
    var xs := Mapped(recipe);
    assert forall n :: 1 <= n <= SlotCount ==> (Kept(xs[n - 1]) <==> Filled(SlotOf(recipe, n)));
    FilterEmptyIffNoneKept(xs, 0);
    Filter(xs, 0)
  }

  /**
   * Every slot with a truthy ingredient is listed, as "measure ingredient",
   * in slot order, and nothing else is: the j-th entry belongs to the j-th
   * filled slot.
   */
  lemma IngredientsAreTheFilledSlots(recipe: Json)
    ensures var ks := KeptPositions(Mapped(recipe), 0);
      && |Ingredients(recipe)| == |ks|
      && (forall j :: 0 <= j < |ks| ==>
            Filled(SlotOf(recipe, ks[j] + 1)) && Ingredients(recipe)[j] == Shown(SlotOf(recipe, ks[j] + 1)))
      && (forall n :: 1 <= n <= SlotCount && Filled(SlotOf(recipe, n)) ==> n - 1 in ks)
  {
    ListedAreFilled(recipe);
    FilledAreListed(recipe);
  }

  /** The j-th entry is the shown text of the j-th kept slot, which is filled. */
  lemma ListedAreFilled(recipe: Json)
    ensures var ks := KeptPositions(Mapped(recipe), 0);
      && |Ingredients(recipe)| == |ks|
      && forall j :: 0 <= j < |ks| ==>
           Filled(SlotOf(recipe, ks[j] + 1)) && Ingredients(recipe)[j] == Shown(SlotOf(recipe, ks[j] + 1))
  {
    var xs := Mapped(recipe);
    FilterFollowsKeptPositions(xs, 0);
    var ks := KeptPositions(xs, 0);
    forall j | 0 <= j < |ks|
      ensures Filled(SlotOf(recipe, ks[j] + 1)) && Ingredients(recipe)[j] == Shown(SlotOf(recipe, ks[j] + 1))
    {
      MappedAt(recipe, ks[j]);
    }
  }

  /** Every filled slot is among the kept positions. */
  lemma FilledAreListed(recipe: Json)
    ensures forall n :: 1 <= n <= SlotCount && Filled(SlotOf(recipe, n)) ==> n - 1 in KeptPositions(Mapped(recipe), 0)
  {
    forall n | 1 <= n <= SlotCount && Filled(SlotOf(recipe, n))
      ensures n - 1 in KeptPositions(Mapped(recipe), 0)
    {
      FilledIsListed(recipe, n);
    }
  }

  lemma FilledIsListed(recipe: Json, n: nat)
    requires 1 <= n <= SlotCount && Filled(SlotOf(recipe, n))
    ensures n - 1 in KeptPositions(Mapped(recipe), 0)
  {
    var xs := Mapped(recipe);
    MappedAt(recipe, n - 1);
    assert Kept(xs[n - 1]);
    KeptPositionsComplete(xs, 0);
  }

  /** One position of `Mapped`, by itself. */
  lemma MappedAt(recipe: Json, j: nat)
    requires j < SlotCount
    ensures Kept(Mapped(recipe)[j]) <==> Filled(SlotOf(recipe, j + 1))
    ensures Kept(Mapped(recipe)[j]) ==> Mapped(recipe)[j].value == Shown(SlotOf(recipe, j + 1))
  {
  }

  const SearchEndpoint: string := "https://www.themealdb.com/api/json/v1/1/search.php?s="
  const FetchFailed: string := "Failed to fetch recipes. Please try again."

  /**
   * What a settled search installs as the list: `None` when the fetch or
   * `response.json()` failed (`data == None`) or `data` is `null`, whose
   * `.meals` throws; otherwise `data.meals || []`.
   */
  function MealsOf(data: Option<Json>): (r: Option<Json>)
    ensures r.None? <==> data.None? || data.value.JNull?
    ensures r.Some? ==> Truthy(Some(r.value))
    ensures r.Some? ==> (r.value == JArr([]) || Some(r.value) == Member(data, "meals"))
    ensures r.Some? && Truthy(Member(data, "meals")) ==> Some(r.value) == Member(data, "meals")
  {
    if data.None? || data.value.JNull? then None
    else
      var meals := Member(data, "meals");
      if Truthy(meals) then meals else Some(JArr([]))
  }

  class RecipeSearchScreen {
    var recipes: Json
    var loading: bool
    var error: Option<string>

    /** The list is never a falsy value, so `recipes.length` is always defined. */
    ghost predicate Valid()
      reads this
    {
      Truthy(Some(recipes))
    }

    constructor ()
      ensures Valid() && recipes == JArr([]) && !loading && error == None
    {
      recipes := JArr([]);
      loading := false;
      error := None;
    }

    /**
     * The debounced callback up to the fetch: a blank query empties the list
     * and sends nothing, leaving `loading` and `error` as they were;
     * otherwise loading starts, the error is cleared and the untrimmed query
     * is appended to the endpoint.
     */
    method StartSearch(query: string) returns (url: Option<string>)
      requires Valid()
      modifies this
      ensures Valid()
      ensures Trim(query) == "" ==>
        url == None && recipes == JArr([]) && loading == old(loading) && error == old(error)
      ensures Trim(query) != "" ==>
        url == Some(SearchEndpoint + query) && loading && error == None && recipes == old(recipes)
    {
      if Trim(query) == "" {
        recipes := JArr([]);
        return None;
      }
      loading := true;
      error := None;
      url := Some(SearchEndpoint + query);
    }

    /** The rest of the callback, once the fetch settles with `data` (or fails, `None`). */
    method FinishSearch(data: Option<Json>)
      requires Valid()
      modifies this
      ensures Valid() && !loading
      ensures MealsOf(data).None? ==> recipes == JArr([]) && error == Some(FetchFailed)
      ensures MealsOf(data).Some? ==> recipes == MealsOf(data).value && error == old(error)
    {
      var installed := MealsOf(data);
      if installed.None? {
        error := Some(FetchFailed);
        recipes := JArr([]);
      } else {
        recipes := installed.value;
      }
      loading := false;
    }
  }

  /** A meal with one measured ingredient and an empty second slot. */
  const ChickenMeal: Json :=
    JObj(map["strIngredient1" := JStr("Chicken"), "strMeasure1" := JStr("1 lb"), "strIngredient2" := JStr("")])

  /** Such a meal lists exactly its one ingredient. */
  lemma OneIngredientMeal()
    ensures Ingredients(ChickenMeal) == ["1 lb Chicken"]
  {
    var xs := Mapped(ChickenMeal);
    ChickenMealFirstSlot();
    forall j | 1 <= j < SlotCount
      ensures !Kept(xs[j])
    {
      ChickenMealLaterSlot(j);
    }
    FilterEmptyIffNoneKept(xs, 1);
    assert Filter(xs, 0) == ["1 lb Chicken"] + Filter(xs, 1);
  }

  lemma ChickenMealFirstSlot()
    ensures Mapped(ChickenMeal)[0] == Some("1 lb Chicken")
  {
    assert IngredientKey(1) == "strIngredient1" && MeasureKey(1) == "strMeasure1";
    var first := SlotOf(ChickenMeal, 1);
    assert first == Slot(Some(JStr("Chicken")), Some(JStr("1 lb")));
    assert Filled(first) && Shown(first) == "1 lb Chicken";
    MappedAt(ChickenMeal, 0);
  }

  lemma ChickenMealLaterSlot(j: nat)
    requires 1 <= j < SlotCount
    ensures !Kept(Mapped(ChickenMeal)[j])
  {
    NumberedKeysDiffer(j + 1);
    MappedAt(ChickenMeal, j);
  }

  /** The keys of slots 2 and beyond are neither slot 1's ingredient key nor its measure key. */
  lemma NumberedKeysDiffer(n: nat)
    requires 2 <= n
    ensures IngredientKey(n) != "strIngredient1" && IngredientKey(n) != "strMeasure1"
  {
    var a := IngredientKey(n);
    if |a| == |"strIngredient1"| {
      assert |NatToString(n)| == 1 && a[13] == NatToString(n)[0];
    }
    assert a[3] == 'I';
  }
}

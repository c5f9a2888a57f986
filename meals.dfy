/**
 * The meal suggestions screen: a fixed list of three backup meals, narrowed
 * by category or by a name search, and looked up by id for the detail
 * screen. Every narrowing starts again from the backup list.
 */
module Meals {
  import opened Common

  /** One meal suggestion; `time` is the preparation time in minutes. */
  datatype Meal = Meal(
    id: string,
    name: string,
    imageUrl: string,
    category: string,
    time: int,
    ingredientsUsed: int,
    totalIngredients: int,
    tags: seq<string>,
    calories: int,
    ingredients: seq<string>,
    instructions: string)

  /** The category value that disables the category filter. */
  const ALL := "All"

  const Pizza := Meal(
    "1", "Pizza",
    "https://www.cicis.com/content/images/cicis/Jalapeno%20pizza.png",
    "High protein", 30, 9, 10, ["Vegan", "Halal"], 900, ["Tomato", "Cheese", "Flour"],
    "1. Preheat oven to 475°F (245°C).\n" +
    "2. Roll out the pizza dough on a floured surface.\n" +
    "3. Spread tomato sauce over the dough.\n" +
    "4. Sprinkle cheese and add desired toppings.\n" +
    "5. Bake for 12-15 minutes until crust is golden brown.\n" +
    "6. Slice and serve hot.")

  const Pasta := Meal(
    "2", "Pasta",
    "https://jow.fr/_next/image?url=https%3A%2F%2Fstatic.jow.fr%2F880x880%2Frecipes%2Fjkk2G8R1Rt.png&w=2560&q=100",
    "Vegan", 60, 5, 10, ["Vegan"], 700, ["Pasta", "Tomato Sauce", "Olives"],
    "1. Boil pasta in salted water for 8-10 minutes.\n" +
    "2. In a pan, heat tomato sauce and add seasonings.\n" +
    "3. Drain pasta and add it to the sauce.\n" +
    "4. Stir in olives and mix well.\n" +
    "5. Serve hot with a sprinkle of fresh herbs.")

  const ChickenBiryani := Meal(
    "3", "Chicken Biryani",
    "https://static.toiimg.com/thumb/84786366.cms?imgsize=152314&width=800&height=800",
    "Halal", 90, 8, 12, ["Halal", "High protein"], 1200, ["Rice", "Chicken", "Spices", "Yogurt"],
    "1. Marinate chicken with yogurt and spices for 30 minutes.\n" +
    "2. Cook basmati rice halfway and set aside.\n" +
    "3. In a large pot, layer marinated chicken and half-cooked rice.\n" +
    "4. Add saffron milk and ghee over the layers.\n" +
    "5. Cover and cook on low heat for 40 minutes.\n" +
    "6. Serve hot garnished with fresh coriander and fried onions.")

  /** The original list every filter starts from. */
  const BackupMeals: seq<Meal> := [Pizza, Pasta, ChickenBiryani]

  /** The backup meals have pairwise different ids. */
  lemma BackupIdsDistinct()
    ensures forall i, j :: 0 <= i < j < |BackupMeals| ==> BackupMeals[i].id != BackupMeals[j].id
  {
  }

  /** filterMealsByCategory: "All" restores the backup list, anything else keeps that exact category. */
  function CategoryMeals(category: string): (r: seq<Meal>)
    ensures category == ALL ==> r == BackupMeals
    ensures IsSubsequence(r, BackupMeals)
    ensures forall m :: m in r <==> m in BackupMeals && (category == ALL || m.category == category)
  {
    if category == ALL then
      SubsequenceReflexive(BackupMeals);
      BackupMeals
    else
      var r := Filter(BackupMeals, (m: Meal) => m.category == category);
      forall m ensures m in r <==> m in BackupMeals && m.category == category {
        FilterMembership(BackupMeals, (m: Meal) => m.category == category, m);
      }
      r
  }

  /** searchMeals: a blank query restores the backup list, anything else keeps names containing it, ignoring case. */
  function SearchedMeals(query: string): (r: seq<Meal>)
    ensures IsBlank(query) ==> r == BackupMeals
    ensures IsSubsequence(r, BackupMeals)
    ensures forall m :: m in r <==> m in BackupMeals && (IsBlank(query) || ContainsIgnoreCase(m.name, query))
  {
    if IsBlank(query) then
      SubsequenceReflexive(BackupMeals);
      BackupMeals
    else
      var r := Filter(BackupMeals, (m: Meal) => ContainsIgnoreCase(m.name, query));
      forall m ensures m in r <==> m in BackupMeals && ContainsIgnoreCase(m.name, query) {
        FilterMembership(BackupMeals, (m: Meal) => ContainsIgnoreCase(m.name, query), m);
      }
      r
  }

  /** `meals.find { it.id == mealId }`: a null id matches nothing. */
  function MealById(meals: seq<Meal>, mealId: Option<string>): (r: Option<Meal>)
    ensures r.Some? ==> r.value in meals && mealId == Some(r.value.id)
    ensures r.None? <==> forall m :: m in meals ==> mealId != Some(m.id)
    ensures r.Some? ==> exists i :: 0 <= i < |meals| && meals[i] == r.value &&
                                      forall j :: 0 <= j < i ==> mealId != Some(meals[j].id)
  {
    FindFirst(meals, (m: Meal) => mealId == Some(m.id))
  }

  /** The vegan category picks Pasta alone. */
  lemma VeganCategory()
    ensures CategoryMeals("Vegan") == [Pasta]
  {
    var vegan := (m: Meal) => m.category == "Vegan";
    assert CategoryMeals("Vegan") == Filter(BackupMeals, vegan);
    assert BackupMeals[1..] == [Pasta, ChickenBiryani] && [Pasta, ChickenBiryani][1..] == [ChickenBiryani];
    assert [ChickenBiryani][1..] == [];
    assert Filter([ChickenBiryani], vegan) == [] by {
      assert "Vegan"[0] != "Halal"[0];
    }
    assert Filter([Pasta, ChickenBiryani], vegan) == [Pasta];
  }

  /** The halal category picks Chicken Biryani alone. */
  lemma HalalCategory()
    ensures CategoryMeals("Halal") == [ChickenBiryani]
  {
    var halal := (m: Meal) => m.category == "Halal";
    assert CategoryMeals("Halal") == Filter(BackupMeals, halal);
    assert BackupMeals[1..] == [Pasta, ChickenBiryani] && [Pasta, ChickenBiryani][1..] == [ChickenBiryani];
    assert [ChickenBiryani][1..] == [];
    assert Filter([ChickenBiryani], halal) == [ChickenBiryani];
    assert Filter([Pasta, ChickenBiryani], halal) == [ChickenBiryani] by {
      assert "Vegan"[0] != "Halal"[0];
    }
  }

  /** A category no backup meal has picks nothing. */
  lemma UnknownCategory(category: string)
    requires category != ALL
    requires category != Pizza.category && category != Pasta.category && category != ChickenBiryani.category
    ensures CategoryMeals(category) == []
  {
  }

  /** A search matches a name regardless of case. */
  lemma SearchIgnoresCase()
    ensures Pizza in SearchedMeals("PIZ")
  {
    assert FoldString(Pizza.name[0..3]) == "piz";
    assert FoldString("PIZ") == "piz";
    assert MatchesAt(Pizza.name, "PIZ", 0);
  }

  /** Among the backup meals the first match for an id is the one meal with that id. */
  lemma {:induction false} FindInBackup(m: Meal)
    requires m in BackupMeals
    ensures MealById(BackupMeals, Some(m.id)) == Some(m)
  {
    BackupIdsDistinct();
    var r := MealById(BackupMeals, Some(m.id));
    var i :| 0 <= i < |BackupMeals| && BackupMeals[i] == r.value;
    var j :| 0 <= j < |BackupMeals| && BackupMeals[j] == m;
    assert BackupMeals[i].id == BackupMeals[j].id;
  }

  /** A meal the category filter dropped cannot be looked up by its id. */
  lemma FilteredOutNotFound(category: string, m: Meal)
    requires m in BackupMeals && category != ALL && m.category != category
    ensures MealById(CategoryMeals(category), Some(m.id)) == None
  {
    BackupIdsDistinct();
    forall x | x in CategoryMeals(category) ensures Some(m.id) != Some(x.id) {
      var i :| 0 <= i < |BackupMeals| && BackupMeals[i] == x;
      var j :| 0 <= j < |BackupMeals| && BackupMeals[j] == m;
      assert i != j;
    }
  }

  class MealsViewModel {
    /** The displayed meals. */
    var meals: seq<Meal>
    var searchQuery: string

    constructor ()
      ensures meals == BackupMeals && searchQuery == ""
    {
      meals := BackupMeals;
      searchQuery := "";
    }

    /** getMealById: the first displayed meal with this id, or null. */
    function GetMealById(mealId: Option<string>): (r: Option<Meal>)
      reads this
      ensures r.Some? ==> r.value in meals && mealId == Some(r.value.id)
      ensures r.None? <==> forall m :: m in meals ==> mealId != Some(m.id)
      ensures r.Some? ==> exists i :: 0 <= i < |meals| && meals[i] == r.value &&
                                        forall j :: 0 <= j < i ==> mealId != Some(meals[j].id)
    {
      MealById(meals, mealId)
    }

    /** filterMealsByCategory: the result does not depend on earlier filters or searches. */
    method FilterMealsByCategory(category: string)
      modifies this`meals
      ensures meals == CategoryMeals(category)
    {
      if category == ALL {
        meals := BackupMeals;
      } else {
        meals := Filter(BackupMeals, (m: Meal) => m.category == category);
      }
    }

    /** searchMeals: records the query; the result does not depend on earlier filters or searches. */
    method SearchMeals(query: string)
      modifies this
      ensures searchQuery == query && meals == SearchedMeals(query)
    {
      searchQuery := query;
      if IsBlank(query) {
        meals := BackupMeals;
      } else {
        meals := Filter(BackupMeals, (m: Meal) => ContainsIgnoreCase(m.name, query));
      }
    }
  }
}

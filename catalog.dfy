/**
 * The static ingredient and recipe catalog and its lookups. A JavaScript object
 * table is kept as its (key, entry) pairs in declaration order, which is the order
 * `Object.keys` and `Object.values` report.
 */
module Catalog {
  import opened Wrappers

  datatype Ingredient = Ingredient(id: string, nameKR: string, nameEN: string, emoji: string, category: string)

  datatype Recipe = Recipe(
    id: string, nameKR: string, nameEN: string, difficulty: string,
    ingredients: seq<string>, baseTime: nat, points: nat, description: string)

  /** The `ingredients` object. */
  const IngredientTable: seq<(string, Ingredient)> := [
    ("rice", Ingredient("rice", "밥", "Rice", "🍚", "staple")),
    ("gochujang", Ingredient("gochujang", "고추장", "Gochujang", "🌶️", "sauce")),
    ("gochugaru", Ingredient("gochugaru", "고춧가루", "Red Pepper Flakes", "🌶️", "seasoning")),
    ("doenjang", Ingredient("doenjang", "된장", "Soybean Paste", "🫘", "sauce")),
    ("sesameOil", Ingredient("sesameOil", "참기름", "Sesame Oil", "🫗", "oil")),
    ("soySauce", Ingredient("soySauce", "간장", "Soy Sauce", "🥫", "sauce")),
    ("garlic", Ingredient("garlic", "마늘", "Garlic", "🧄", "seasoning")),
    ("ginger", Ingredient("ginger", "생강", "Ginger", "🫚", "seasoning")),
    ("napaCabbage", Ingredient("napaCabbage", "배추", "Napa Cabbage", "🥬", "vegetable")),
    ("kimchi", Ingredient("kimchi", "김치", "Kimchi", "🥬", "banchan")),
    ("spinach", Ingredient("spinach", "시금치", "Spinach", "🥬", "vegetable")),
    ("beanSprouts", Ingredient("beanSprouts", "콩나물", "Bean Sprouts", "🌱", "vegetable")),
    ("carrot", Ingredient("carrot", "당근", "Carrot", "🥕", "vegetable")),
    ("zucchini", Ingredient("zucchini", "호박", "Zucchini", "🥒", "vegetable")),
    ("mushroom", Ingredient("mushroom", "버섯", "Mushroom", "🍄", "vegetable")),
    ("onion", Ingredient("onion", "양파", "Onion", "🧅", "vegetable")),
    ("greenOnion", Ingredient("greenOnion", "파", "Green Onion", "🧅", "vegetable")),
    ("radish", Ingredient("radish", "무", "Radish", "🥕", "vegetable")),
    ("beef", Ingredient("beef", "소고기", "Beef", "🥩", "protein")),
    ("porkBelly", Ingredient("porkBelly", "삼겹살", "Pork Belly", "🥓", "protein")),
    ("chicken", Ingredient("chicken", "닭고기", "Chicken", "🍗", "protein")),
    ("tofu", Ingredient("tofu", "두부", "Tofu", "🧊", "protein")),
    ("egg", Ingredient("egg", "계란", "Egg", "🥚", "protein")),
    ("dangmyeon", Ingredient("dangmyeon", "당면", "Glass Noodles", "🍜", "noodle")),
    ("tteok", Ingredient("tteok", "떡", "Rice Cake", "🍡", "rice_cake")),
    ("seaweed", Ingredient("seaweed", "김", "Seaweed", "🌿", "other")),
    ("anchovyBroth", Ingredient("anchovyBroth", "멸치육수", "Anchovy Broth", "🥣", "broth")),
    ("fishCake", Ingredient("fishCake", "어묵", "Fish Cake", "🍥", "processed"))
  ]

  /** The entries of the `recipes` object. */
  const Bibimbap: Recipe := Recipe("bibimbap", "비빔밥", "Bibimbap", "easy", ["rice", "beef", "egg", "gochujang"], 40, 100, "Mixed rice with beef and egg")
  const Kimbap: Recipe := Recipe("kimbap", "김밥", "Kimbap", "easy", ["rice", "seaweed", "egg", "carrot"], 40, 100, "Seaweed rice rolls")
  const KimchiJjigae: Recipe := Recipe("kimchiJjigae", "김치찌개", "Kimchi Jjigae", "medium", ["kimchi", "porkBelly", "tofu", "gochugaru"], 35, 120, "Kimchi stew")
  const Tteokbokki: Recipe := Recipe("tteokbokki", "떡볶이", "Tteokbokki", "medium", ["tteok", "fishCake", "gochujang", "onion"], 35, 120, "Spicy rice cakes")
  const Japchae: Recipe := Recipe("japchae", "잡채", "Japchae", "medium", ["dangmyeon", "beef", "spinach", "sesameOil"], 35, 130, "Glass noodles")
  const Bulgogi: Recipe := Recipe("bulgogi", "불고기", "Bulgogi", "medium", ["beef", "soySauce", "garlic", "onion"], 35, 120, "Marinated beef")

  /** The `recipes` object. */
  const RecipeTable: seq<(string, Recipe)> := [
    ("bibimbap", Bibimbap),
    ("kimbap", Kimbap),
    ("kimchiJjigae", KimchiJjigae),
    ("tteokbokki", Tteokbokki),
    ("japchae", Japchae),
    ("bulgogi", Bulgogi)
  ]

  function Keys<V>(table: seq<(string, V)>): seq<string>
  {
    seq(|table|, i requires 0 <= i < |table| => table[i].0)
  }

  function Values<V>(table: seq<(string, V)>): seq<V>
  {
    seq(|table|, i requires 0 <= i < |table| => table[i].1)
  }

  /** `table[key]`: the entry stored under the first pair with that key, or none. */
  function Lookup<V>(table: seq<(string, V)>, key: string): (r: Option<V>)
    ensures r.None? <==> forall i :: 0 <= i < |table| ==> table[i].0 != key
    ensures r.Some? ==> exists i :: 0 <= i < |table| && table[i] == (key, r.value)
  {
    if |table| == 0 then None
    else if table[0].0 == key then Some(table[0].1)
    else
      var r := Lookup(table[1..], key);
      assert r.Some? ==> exists i :: 0 <= i < |table| && table[i] == (key, r.value) by {
        if r.Some? {
          var i :| 0 <= i < |table[1..]| && table[1..][i] == (key, r.value);
          assert table[i + 1] == (key, r.value);
        }
      }
      r
  }

  /** `getAllIngredientIds`: the keys of the ingredient table. */
  function AllIngredientIds(): seq<string>
  {
    Keys(IngredientTable)
  }

  /** `getAllRecipes`: the entries of the recipe table. */
  function AllRecipes(): seq<Recipe>
  {
    Values(RecipeTable)
  }

  /** The recipes of `rs` whose difficulty is `d`, in their order (`Array.prototype.filter`). */
  function FilterByDifficulty(rs: seq<Recipe>, d: string): seq<Recipe>
  {
    if |rs| == 0 then []
    else
      var rest := FilterByDifficulty(rs[1..], d);
      if rs[0].difficulty == d then [rs[0]] + rest else rest
  }

  /** The filter keeps exactly the recipes of difficulty `d`, and never more than it is given. */
  lemma {:induction false} FilterKeepsExactly(rs: seq<Recipe>, d: string)
    ensures |FilterByDifficulty(rs, d)| <= |rs|
    ensures forall r :: r in FilterByDifficulty(rs, d) <==> r in rs && r.difficulty == d
  {
    if |rs| > 0 {
      FilterKeepsExactly(rs[1..], d);
      assert forall r :: r in rs <==> r == rs[0] || r in rs[1..];
    }
  }

  /** `getRecipesByDifficulty(d)`: the catalog recipes of difficulty `d`, in table order. */
  function RecipesByDifficulty(d: string): seq<Recipe>
  {
    FilterByDifficulty(AllRecipes(), d)
  }

  /** `getRecipeById(id)`: the recipe filed under `id`, if any. */
  function RecipeById(id: string): Option<Recipe>
  {
    Lookup(RecipeTable, id)
  }

  /** `getIngredientById(id)`: the ingredient filed under `id`, if any. */
  function IngredientById(id: string): Option<Ingredient>
  {
    Lookup(IngredientTable, id)
  }

  /** `getRecipesByDifficulty(d)` holds exactly the catalog recipes of difficulty `d`. */
  lemma RecipesByDifficultyExact(d: string)
    ensures forall r :: r in RecipesByDifficulty(d) <==> r in AllRecipes() && r.difficulty == d
  {
    FilterKeepsExactly(AllRecipes(), d);
  }

  /** The ingredient table has 28 entries. */
  lemma IngredientCatalogSize()
    ensures |AllIngredientIds()| == 28
  {
  }

  /** Every entry's own `id` is the key it is stored under. */
  lemma EntryIdsMatchKeys(key: string)
    ensures RecipeById(key).Some? ==> RecipeById(key).value.id == key
    ensures IngredientById(key).Some? ==> IngredientById(key).value.id == key
  {
    assert forall i :: 0 <= i < |RecipeTable| ==> RecipeTable[i].1.id == RecipeTable[i].0;
    assert forall i :: 0 <= i < |IngredientTable| ==> IngredientTable[i].1.id == IngredientTable[i].0;
  }

  /** `Object.values(recipes)`, in declaration order. */
  lemma AllRecipesListed()
    ensures AllRecipes() == [Bibimbap, Kimbap, KimchiJjigae, Tteokbokki, Japchae, Bulgogi]
  {
  }

  /** Every recipe lists exactly four ingredients and has a positive time budget and reward. */
  lemma RecipesAreWellFormed()
    ensures forall r :: r in AllRecipes() ==> |r.ingredients| == 4
    ensures forall r :: r in AllRecipes() ==> r.baseTime > 0 && r.points > 0
  {
    AllRecipesListed();
  }

  /** Every ingredient a recipe names is a key of the ingredient table. */
  lemma RecipeIngredientsInCatalog()
    ensures forall r, x :: r in AllRecipes() && x in r.ingredients ==> x in AllIngredientIds()
  {
    AllRecipesListed();
    var k := AllIngredientIds();
    assert Bibimbap.ingredients == [k[0], k[18], k[22], k[1]];
    assert Kimbap.ingredients == [k[0], k[25], k[22], k[12]];
    assert KimchiJjigae.ingredients == [k[9], k[19], k[21], k[2]];
    assert Tteokbokki.ingredients == [k[24], k[27], k[1], k[15]];
    assert Japchae.ingredients == [k[23], k[18], k[10], k[4]];
    assert Bulgogi.ingredients == [k[18], k[5], k[6], k[15]];
  }

  /** Filtering a list with a known head. */
  lemma FilterCons(r: Recipe, rest: seq<Recipe>, d: string)
    ensures FilterByDifficulty([r] + rest, d) ==
      if r.difficulty == d then [r] + FilterByDifficulty(rest, d) else FilterByDifficulty(rest, d)
  {
    assert ([r] + rest)[1..] == rest;
  }

  /** Both difficulties that orders ask for have recipes: two easy, four medium. */
  lemma EveryDifficultyHasRecipes()
    ensures RecipesByDifficulty("easy") == [Bibimbap, Kimbap]
    ensures RecipesByDifficulty("medium") == [KimchiJjigae, Tteokbokki, Japchae, Bulgogi]
  {
    AllRecipesListed();
    EasyRecipes();
    MediumRecipes();
  }

  lemma EasyRecipes()
    ensures FilterByDifficulty([Bibimbap, Kimbap, KimchiJjigae, Tteokbokki, Japchae, Bulgogi], "easy") == [Bibimbap, Kimbap]
  {
    var d := "easy";
    FilterCons(Bulgogi, [], d);
    FilterCons(Japchae, [Bulgogi], d);
    FilterCons(Tteokbokki, [Japchae, Bulgogi], d);
    FilterCons(KimchiJjigae, [Tteokbokki, Japchae, Bulgogi], d);
    FilterCons(Kimbap, [KimchiJjigae, Tteokbokki, Japchae, Bulgogi], d);
    FilterCons(Bibimbap, [Kimbap, KimchiJjigae, Tteokbokki, Japchae, Bulgogi], d);
  }

  lemma MediumRecipes()
    ensures FilterByDifficulty([Bibimbap, Kimbap, KimchiJjigae, Tteokbokki, Japchae, Bulgogi], "medium")
         == [KimchiJjigae, Tteokbokki, Japchae, Bulgogi]
  {
    var d := "medium";
    FilterCons(Bulgogi, [], d);
    FilterCons(Japchae, [Bulgogi], d);
    FilterCons(Tteokbokki, [Japchae, Bulgogi], d);
    FilterCons(KimchiJjigae, [Tteokbokki, Japchae, Bulgogi], d);
    FilterCons(Kimbap, [KimchiJjigae, Tteokbokki, Japchae, Bulgogi], d);
    FilterCons(Bibimbap, [Kimbap, KimchiJjigae, Tteokbokki, Japchae, Bulgogi], d);
  }
}

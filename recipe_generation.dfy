/**
 * The recipe-generation screen: it fetches the user's record, asks the
 * generative model for recipes named after the stored items, and keeps the
 * `recipes` field of whatever `cleanJSON` makes of the answer. The model is
 * a function parameter `ai` (`None` when the call failed and the service
 * returned `undefined`); the fetched record is the body `POST /user`
 * answered with, or `None` when the fetch failed.
 */
module RecipeGeneration {
  import opened Wrappers
  import opened JsText
  import opened Json
  import opened UserModel
  import Handlers
  import AiText

  /** `userResponse.userData?.items`, the empty list when any link is missing. */
  function StoredItems(userResponse: Option<Handlers.Body>): seq<Item> {
    if userResponse.Some? && userResponse.value.userData.Some? then userResponse.value.userData.value.items else []
  }

  /** `${items.map(item => item.item_name)}`: the names in item order, joined by ",", null as "". */
  function NamesText(items: seq<Item>): (r: string)
    ensures |items| == 1 ==> r == items[0].item_name.GetOr("")
  {
    Join(seq(|items|, k requires 0 <= k < |items| => items[k].item_name.GetOr("")), ",")
  }

  /** Listing one more item appends its name after a comma: the list follows item order. */
  lemma {:induction false} NamesTextSnoc(items: seq<Item>, x: Item)
    requires items != []
    ensures NamesText(items + [x]) == NamesText(items) + "," + x.item_name.GetOr("")
    decreases |items|
  {
    var names := seq(|items|, k requires 0 <= k < |items| => items[k].item_name.GetOr(""));
    var names' := seq(|items| + 1, k requires 0 <= k < |items| + 1 => (items + [x])[k].item_name.GetOr(""));
    assert names' == names + [x.item_name.GetOr("")];
    JoinSnoc(names, x.item_name.GetOr(""), ",");
  }

  lemma {:induction false} JoinSnoc(parts: seq<string>, last: string, sep: string)
    requires parts != []
    ensures Join(parts + [last], sep) == Join(parts, sep) + sep + last
    decreases |parts|
  {
    if |parts| == 1 {
      assert parts + [last] == [parts[0], last];
    } else {
      assert (parts + [last])[1..] == parts[1..] + [last];
      JoinSnoc(parts[1..], last, sep);
    }
  }

  const PromptHead: string :=
    "\n  You are an AI that generates recipes based on available ingredients. The fridge contains the following items: "
  const PromptTail: string :=
    ". \n  Please generate a valid JSON response that includes a list of recipes. Each recipe should have the following structure:\n"
    + "  {\n    \"name\": \"Recipe Name\",\n    \"ingredients\": [\"Ingredient 1\", \"Ingredient 2\", ...],\n"
    + "    \"category\": \"Recipe Category\",\n"
    + "    \"instructions\": \"Step-by-step in detail instructions to prepare the recipe.\"\n  }\n"
    + "  Make sure the JSON response is valid and properly formatted. Do not include any extra characters or information outside of the JSON structure.\n"

  /** The prompt: the fixed instructions around the list of item names. */
  function Prompt(items: seq<Item>): (p: string)
    ensures PromptHead <= p && |p| == |PromptHead| + |NamesText(items)| + |PromptTail|
    ensures p[|PromptHead|..|PromptHead| + |NamesText(items)|] == NamesText(items)
  {
    PromptHead + NamesText(items) + PromptTail
  }

  /** `parsedData?.recipes` when it is truthy, the value `setRecipes` receives. */
  function RecipesField(parsed: Option<Json>): Option<Json> {
    var r := Member(parsed, "recipes");
    if Truthy(r) then r else None
  }

  class RecipeCards {
    var recipes: Json
    var loading: bool

    constructor ()
      ensures recipes == JArr([]) && !loading
    {
      recipes := JArr([]);
      loading := false;
    }

    /**
     * `fetchData`: with no stored items the recipes become `[]` and the model
     * is not asked (`prompt` is `None`); otherwise it is asked with the
     * prompt, and the recipes change only when the cleaned answer has a
     * truthy `recipes` field. Loading is off at the end either way.
     */
    method FetchData(userResponse: Option<Handlers.Body>, ai: string -> Option<string>, parse: string -> Option<Json>)
      returns (prompt: Option<string>)
      modifies this
      ensures !loading
      ensures |StoredItems(userResponse)| == 0 ==> prompt == None && recipes == JArr([])
      ensures |StoredItems(userResponse)| > 0 ==>
        && prompt == Some(Prompt(StoredItems(userResponse)))
        && var found := RecipesField(AiText.CleanJson(ai(prompt.value), parse));
           recipes == if found.Some? then found.value else old(recipes)
    {
      loading := true;
      prompt := None;
      var items := StoredItems(userResponse);
      if |items| > 0 {
        prompt := Some(Prompt(items));
        var aiResponse := ai(prompt.value);
        var parsedData := AiText.CleanJson(aiResponse, parse);
        var found := RecipesField(parsedData);
        if found.Some? {
          recipes := found.value;
        }
        // otherwise "Invalid response format." is thrown, logged, and the recipes stay
      } else {
        recipes := JArr([]);
      }
      loading := false;
    }
  }

  /** A reply that cleans to an object with a truthy `recipes` field supplies exactly that field. */
  lemma RecipesReplaceOnlyWithField(parsed: Option<Json>)
    ensures RecipesField(parsed).Some? <==>
      parsed.Some? && parsed.value.JObj? && "recipes" in parsed.value.fields
      && Truthy(Some(parsed.value.fields["recipes"]))
    ensures RecipesField(parsed).Some? ==> RecipesField(parsed).value == parsed.value.fields["recipes"]
  {
  }

  /** A user record the ensure-user endpoint just created carries `data`, not `userData`: no recipes are asked for. */
  lemma CreatedRecordHasNoStoredItems(st: Handlers.State, req: Handlers.CreateUserRequest)
    requires Handlers.EnsureUser(st, req).response.status == 201
    ensures StoredItems(Some(Handlers.EnsureUser(st, req).response.body)) == []
  {
  }
}

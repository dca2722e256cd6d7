# Smart Fridge AI — a Dafny model of its inventory core

Smart Fridge AI is a mobile app that keeps a per-user inventory of fridge
items. Its Express/Mongoose backend stores one `User` document per email,
holding an ordered list of embedded items, and offers four endpoints:

- `POST /user`: ensure the user exists;
- `POST /updateuser`: append items;
- `POST /updateItem`: rename or requantify one item;
- `POST /deleteItem`: delete one item.

On the client side the project models:

- the multi-row add-items form and the edit-item form, with their submission guards;
- the recipe-generation screen, which builds a prompt from the stored item names and cleans the generative model's reply (`cleanJSON`);
- the image-analysis service, which strips Markdown code fences from the reply before parsing it;
- the recipe search screen and the ingredient list of its recipe modal.

The model is organised as follows.

- `Handlers` holds each endpoint as a function from the collection state and the request body to the response and the new state. `InventoryStore.Store` is a class whose fields are that state and whose methods run the same decisions imperatively. Each method's `ensures` ties its result and new state to the function. Each method also keeps the store invariant `UserModel.WellFormed`:
  - users are keyed by their email and have a non-empty name;
  - item ids are positive, distinct within a list, and below a counter that supplies fresh ids. This counter stands for MongoDB's fresh `ObjectId`s; request items never carry an `_id` of their own in this model.
- `HandlerProperties` proves what the endpoints promise:
  - the store invariant is preserved;
  - ensure-user is idempotent;
  - appends keep order and never merge;
  - an update is idempotent and touches only the first matching item;
  - a delete removes exactly that item, and, for requests whose items carry no `_id` of their own, its id never comes back;
  - validation happens before any lookup, in the order the source checks its fields.
- `AiText` models `/,\s*$/`, `/{[\s\S]*}/` and `/^```json\s*|\s*```$/g` by the match each finds. Lemmas show that this is the leftmost, greedy match the regex engine takes, and what each cleaner does to typical replies.
- The client forms (`AddItemForm`, `EditItemForm`, `RecipeGeneration.RecipeCards`, `RecipeSearch.RecipeSearchScreen`) are classes whose fields are the component's React state:
  - each state setter is a method specified by a pure function on the old state;
  - each asynchronous handler is split into a `Begin…` step (guard, validation, request) and a `Finish…` step (the `finally` block);
  - cross-module lemmas connect what a form sends to what the endpoint does with it.

JavaScript semantics are written out where the code depends on them:

- truthiness of strings, numbers and JSON values;
- `undefined <= 0` is false while `null <= 0` is true;
- the white-space set of `\s` and `trim`;
- template-literal conversion of values, including arrays joined by `,` and `undefined`/`null`;
- Mongoose's `required` String validator, which also rejects `""`;
- `$set` dropping `undefined` fields, as Mongoose 7 and later do.

All network calls are parameters of the model:

- the generative model's reply is `ai` or `GeminiReply`;
- `JSON.parse` is `parse`;
- the fetched user record is `userResponse`;
- the meal database reply is `data`.

Two behaviours of the source are modelled as written:

- `POST /user` answers 422 "Name and email are required" only for a missing email. A missing name gets through to the save, and its validation failure is answered with the 500 branch.
- A search with a blank query empties the list but leaves an earlier error message in place.

## Model

| member | source | states |
|---|---|---|
| UserModel.Validate | backend/model/UserModel.js:3-29 | a draft validates exactly when its name is present and non-empty and its email is non-empty; a valid draft becomes the user with the same fields |
| UserModel.WithIds | backend/api/User/UpdateUser.js:33 | supplied items keep their order and fields and receive consecutive fresh ids starting at the counter |
| UserModel.AtMostOnePerEmail | backend/model/UserModel.js:8-12 | in a well-formed store, two stored users with the same email are the same user (the `unique` email) |
| UserModel.StoredUsersAreNamed | backend/model/UserModel.js:4-11 | every stored user has a non-empty name and email |
| UserModel.AppendKeepsIdsFresh | backend/api/User/UpdateUser.js:33 | appending freshly numbered items keeps ids positive, distinct and below the advanced counter |
| UserModel.RemoveAt | backend/api/User/DeleteItem.js:27 | `splice(i, 1)`: one entry fewer, every other entry kept in order |
| UserModel.RemoveAtKeepsIdsFresh | backend/api/User/DeleteItem.js:27 | removing an entry keeps the remaining ids fresh and distinct |
| UserModel.StoreKeepsWellFormed | backend/model/UserModel.js:3-28 | filing a named user under its non-empty email, with its ids below the raised counter, keeps the store well-formed |
| UserModel.IdsFreshMonotone | backend/api/User/UserApi.js:28-33 | raising the counter keeps every list's ids below it |
| Handlers.IndexOfId | backend/api/User/DeleteItem.js:20 | `findIndex` by id: the first item with the id, or -1 exactly when no item has it |
| Handlers.EnsureUser | backend/api/User/UserApi.js:6-50 | a falsy email gives 422 with the store unchanged; a known email gives 200, success false and the existing record; otherwise a user without a name gives 500 with the store unchanged, and a named one is created (image kept only if truthy, items numbered from the counter) and answered with 201; only a 201 changes the store |
| Handlers.AppendItems | backend/api/User/UpdateUser.js:6-40 | a falsy email gives 400 "Email is required" before the items are checked; missing, non-array or empty items give 400; an unknown email gives 404 "User not found"; status 200 exactly when both pass and the user exists; any other status leaves the store unchanged |
| Handlers.UpdateItem | backend/api/User/UpdateItem.js:6-36 | a falsy email, id or name, or a quantity `<= 0` (`null` included, absent excluded) gives 400; otherwise status 200, with an `error` body exactly when no item of that user has the id; success exactly when there is no error, then with the message "Item is updated"; users and counter are never added or removed |
| Handlers.DeleteItem | backend/api/User/DeleteItem.js:6-32 | 400 for invalid input, then 404 "User not found.", then 404 "Item not found."; status 200 "Item deleted successfully." exactly when all three checks pass; only a 200 changes the store; the counter and the set of users never change |
| HandlerProperties.EnsureUserKeepsWellFormed | backend/api/User/UserApi.js:28-41 | ensure-user preserves the store invariant |
| HandlerProperties.AppendItemsKeepsWellFormed | backend/api/User/UpdateUser.js:24-34 | appending preserves the store invariant |
| HandlerProperties.UpdateItemKeepsWellFormed | backend/api/User/UpdateItem.js:13-25 | an update preserves the store invariant |
| HandlerProperties.DeleteItemKeepsWellFormed | backend/api/User/DeleteItem.js:13-30 | a delete preserves the store invariant |
| HandlerProperties.EnsureUserIdempotent | backend/api/User/UserApi.js:17-25 | after a 200 or 201, a second call with the same email (any other fields) answers "Email already exists" with the stored record and changes nothing |
| HandlerProperties.EnsureUserLeavesOneRecord | backend/api/User/UserApi.js:17-41 | after a 200 or 201 the store holds exactly one record with that email |
| HandlerProperties.AppendItemsSuccess | backend/api/User/UpdateUser.js:33-40 | a successful append keeps the old items as a prefix, puts the supplied items' names and quantities after them in order, leaves the user's name, email and profile image as they were, touches no other user, and answers with the updated user |
| HandlerProperties.AppendSameItemTwice | backend/api/User/UpdateUser.js:33 | appending the same item twice gives two entries with equal fields and distinct consecutive ids: no merging by name |
| HandlerProperties.UpdateItemSuccess | backend/api/User/UpdateItem.js:13-25 | a successful update changes only the first item with the id: it gets the new name, the new quantity when one is supplied and the old one otherwise; the id and every other item and user are unchanged |
| HandlerProperties.UpdateItemIdempotent | backend/api/User/UpdateItem.js:13-36 | applying the same update request twice gives the same answer and state as applying it once |
| HandlerProperties.DeleteItemSuccess | backend/api/User/DeleteItem.js:20-32 | a successful delete removes the first item with the id and nothing else: one fewer entry, the rest in order, the multiset of items minus that one, the user's name, email and profile image kept, other users unchanged |
| HandlerProperties.DeletedIdIsGone | backend/api/User/DeleteItem.js:20-27 | in a well-formed store, after a delete no item of that user has the deleted id |
| HandlerProperties.DeletedIdNotReused | backend/api/User/UpdateUser.js:33 | items appended after a delete never receive the deleted id |
| HandlerProperties.ValidationPrecedesLookup | backend/api/User/UpdateItem.js:8-10 | each endpoint's input rejection gives the same answer whatever the store holds and leaves the store unchanged |
| HandlerProperties.AppendChecksEmailBeforeItems | backend/api/User/UpdateUser.js:9-21 | a missing or empty email is reported as "Email is required" whatever the items are |
| InventoryStore.FindItemIndex | backend/api/User/DeleteItem.js:20 | the loop returns the first index whose item has the id, or -1 exactly when none has it |
| InventoryStore.Store.constructor | backend/model/UserModel.js:32 | the collection starts empty and well-formed |
| InventoryStore.Store.EnsureUser | backend/api/User/UserApi.js:6-50 | the store's new fields and the response are those of `Handlers.EnsureUser` on the old fields; the invariant is kept |
| InventoryStore.Store.AppendItems | backend/api/User/UpdateUser.js:6-40 | the new fields and the response are those of `Handlers.AppendItems`; the invariant is kept |
| InventoryStore.Store.UpdateItem | backend/api/User/UpdateItem.js:6-36 | the new fields and the response are those of `Handlers.UpdateItem`; the invariant is kept |
| InventoryStore.Store.DeleteItem | backend/api/User/DeleteItem.js:6-32 | the new fields and the response are those of `Handlers.DeleteItem`; the invariant is kept |
| JsText.SkipWhitespace | app/services/ImageAnalysis.js:64 | the first position at or after the start that is not white space, everything before it being white space |
| JsText.BackOverWhitespace | app/services/ImageAnalysis.js:64 | the position after the last character before the end that is not white space, everything after it being white space |
| JsText.Trim | app/services/ImageAnalysis.js:65 | `trim()` never lengthens the text and leaves no white space at either end |
| JsText.TrimIsCore | app/services/ImageAnalysis.js:65 | a text made of white space, an unpadded core and white space trims to exactly that core |
| JsText.NatToString | app/Screen/recipe.jsx:59 | the decimal form of `i + 1`: non-empty, made of digits, a leading zero only in "0" itself, and its digits denote the number |
| JsText.NatToStringInjective | app/Screen/recipe.jsx:59-60 | different slot numbers give different decimal forms, so the twenty slots read twenty different keys |
| JsText.Join | app/Screen/DoMagic.jsx:66 | the join of one part is that part, and a join of non-empty parts is non-empty |
| Json.Member | app/Screen/DoMagic.jsx:80 | `v?.key` is defined exactly when `v` is an object with that key, and is then that key's value |
| AiText.TrailingComma | app/Screen/DoMagic.jsx:43 | a position it reports is a comma followed only by white space |
| AiText.TrailingCommaIsTheMatch | app/Screen/DoMagic.jsx:43 | every position where `/,\s*$/` can match is the one reported |
| AiText.AtMostOneTrailingComma | app/Screen/DoMagic.jsx:43 | the regex has at most one match, so `replace` removes at most one comma |
| AiText.StripTrailingComma | app/Screen/DoMagic.jsx:43 | the result is a prefix of the text |
| AiText.StripTrailingCommaOf | app/Screen/DoMagic.jsx:43 | text, comma and trailing white space reduce to the text; an earlier comma stays |
| AiText.StripWithoutTrailingComma | app/Screen/DoMagic.jsx:43 | a text without a trailing comma is unchanged |
| AiText.FirstIndexOf | app/Screen/DoMagic.jsx:45 | the first position holding the character, or none when no position holds it |
| AiText.LastIndexOf | app/Screen/DoMagic.jsx:45 | the last position holding the character, or none when no position holds it |
| AiText.BraceCandidate | app/Screen/DoMagic.jsx:45 | `/{[\s\S]*}/` matches exactly when some `{` precedes some `}`; the match starts with `{` and ends with `}` |
| AiText.BraceCandidateIsGreedy | app/Screen/DoMagic.jsx:45 | the match runs from the first `{` to the last `}` |
| AiText.CleanJson | app/Screen/DoMagic.jsx:40-51 | a non-string reply gives null; whenever the comma-stripped text has a brace match, the result is exactly the parse of that match, and otherwise null |
| AiText.NoBraceYieldsNull | app/Screen/DoMagic.jsx:46 | a text without `{` gives null whatever the parser |
| AiText.CleanJsonOfBareObject | app/Screen/DoMagic.jsx:40-51 | prose or a fence without braces around one object, with no trailing comma, hands exactly the object's text to the parser |
| AiText.CleanJsonOfWrappedObject | app/Screen/DoMagic.jsx:40-51 | prose without braces around one object, followed by a trailing comma, hands exactly the object's text to the parser |
| AiText.OpeningEnd | app/services/ImageAnalysis.js:64 | `^```json\s*` matches exactly when the text starts with "```json", and the match ends after the white space that follows |
| AiText.ClosingStart | app/services/ImageAnalysis.js:64 | a reported position starts white space followed by a closing "```" that ends the text |
| AiText.ClosingStartIsLeftmost | app/services/ImageAnalysis.js:64 | the reported position is at or before every position where `\s*```$` can match |
| AiText.CleanAnalysisText | app/services/ImageAnalysis.js:63-65 | the cleaned text has no white space at either end |
| AiText.UnfencedTextIsOnlyTrimmed | app/services/ImageAnalysis.js:63-65 | a text with neither fence is only trimmed |
| AiText.FenceMatches | app/services/ImageAnalysis.js:64 | in a text with both fences, the global replace removes "```json" with the white space after it and the white space before the closing "```", leaving the unpadded slice between |
| AiText.StripFencedBlock | app/services/ImageAnalysis.js:64 | stripping the fences of a fenced block leaves a slice of its body with only white space around it |
| AiText.FencedBlockIsUnwrapped | app/services/ImageAnalysis.js:63-65 | "```json" + body + "```" cleans to the trimmed body |
| AiText.BareOpeningFenceSurvives | app/services/ImageAnalysis.js:64 | an opening "```" without the "json" tag is not removed, so the parser still sees it |
| AiText.AnalyzeImage | app/services/ImageAnalysis.js:9-86 | a missing key is thrown as "Gemini API key is not configured"; a failed request is rethrown; a missing or empty reply text gives "No valid response from Gemini API"; a failed parse gives the parse-error string; otherwise the result is exactly the parse of the cleaned text |
| AiText.FencedReplyIsParsed | app/services/ImageAnalysis.js:57-69 | a reply that is one "```json" block whose trimmed body parses yields that parsed object |
| AiText.SentinelsCarryNoItems | components/AddItemModal.jsx:109 | the two sentinel strings never pass the form's `Array.isArray(result.items)` check |
| RecipeGeneration.NamesText | app/Screen/DoMagic.jsx:62-66 | the text for one item is its name (an absent name shows as empty) |
| RecipeGeneration.NamesTextSnoc | app/Screen/DoMagic.jsx:62-66 | one more item adds a comma and its name at the end: the names appear in item order |
| RecipeGeneration.JoinSnoc | app/Screen/DoMagic.jsx:66 | joining one more part adds the separator and that part at the end |
| RecipeGeneration.Prompt | app/Screen/DoMagic.jsx:65-75 | the prompt is the fixed instructions with the joined item names at exactly the place after the opening text |
| RecipeGeneration.RecipeCards.constructor | app/Screen/DoMagic.jsx:33-34 | no recipes and not loading |
| RecipeGeneration.RecipeCards.FetchData | app/Screen/DoMagic.jsx:54-93 | with no stored items the recipes become `[]` and no prompt is sent; otherwise the prompt for the stored items is sent, and the recipes become the answer's truthy `recipes` field or stay as they were; loading ends false |
| RecipeGeneration.RecipesReplaceOnlyWithField | app/Screen/DoMagic.jsx:80-84 | recipes are replaced exactly when the parsed reply is an object with a truthy `recipes` field, and by that field |
| RecipeGeneration.CreatedRecordHasNoStoredItems | app/Screen/DoMagic.jsx:61 | a 201 answer from ensure-user carries `data`, not `userData`, so it yields no stored items |
| AddItemForm.Increased | components/AddItemModal.jsx:72-78 | the chosen row's quantity goes up by one; name and every other row unchanged |
| AddItemForm.Decreased | components/AddItemModal.jsx:80-86 | the chosen row's quantity goes down by one but not below 1; everything else unchanged |
| AddItemForm.Edited | components/AddItemModal.jsx:88-94 | only the chosen field of the chosen row changes |
| AddItemForm.WithBlankRow | components/AddItemModal.jsx:96-98 | a blank row (empty name, quantity 1) is added after the existing rows |
| AddItemForm.Removed | components/AddItemModal.jsx:100-104 | with more than one row, the indexed row is removed and the others keep their order; a single row is never removed |
| AddItemForm.Formatted | components/AddItemModal.jsx:41-44 | one request item per row, in order, with the row's name and quantity |
| AddItemForm.RowOfAnalysisItem | components/AddItemModal.jsx:110-113 | an analysed item becomes a row whose name is its `Item_name` when that is a non-empty string and "Unknown" when it is falsy, and whose quantity is its `quantity` when that is a non-zero number and 1 when it is falsy |
| AddItemForm.AnalysisRows | components/AddItemModal.jsx:106-118 | rows are installed exactly when `items` is an array without `null` entries, one per entry in order |
| AddItemForm.AddItemModal.constructor | components/AddItemModal.jsx:24-26 | the form starts with one blank row and is not loading |
| AddItemForm.AddItemModal.IncreaseQuantity | components/AddItemModal.jsx:72-78 | the rows become `Increased` of the old rows |
| AddItemForm.AddItemModal.DecreaseQuantity | components/AddItemModal.jsx:80-86 | the rows become `Decreased` of the old rows |
| AddItemForm.AddItemModal.HandleItemChange | components/AddItemModal.jsx:88-94 | the rows become `Edited` of the old rows |
| AddItemForm.AddItemModal.AddMoreFields | components/AddItemModal.jsx:96-98 | the rows become `WithBlankRow` of the old rows |
| AddItemForm.AddItemModal.RemoveItem | components/AddItemModal.jsx:100-104 | the rows become `Removed` of the old rows |
| AddItemForm.AddItemModal.HandleAnalysisResult | components/AddItemModal.jsx:106-118 | the rows become the analysed rows when there are any, and otherwise stay |
| AddItemForm.AddItemModal.BeginSubmit | components/AddItemModal.jsx:29-58 | nothing happens while loading; a row with an empty name or a quantity `<= 0` refuses the submission and ends loading; otherwise the append request with the formatted rows is sent and loading stays on; the rows are unchanged |
| AddItemForm.AddItemModal.FinishSubmit | components/AddItemModal.jsx:61-70 | after the request, whatever its result, the form holds one blank row and is not loading |
| AddItemForm.ValidFormAppendsItsRows | components/AddItemModal.jsx:33-52 | the request a valid, non-empty form sends succeeds exactly when the user exists, and appends one item per row with its name and positive quantity |
| AddItemForm.EmptyAnalysisSendsAnEmptyList | components/AddItemModal.jsx:33-52 | an analysis with an empty `items` array leaves no rows; the form's check passes and the endpoint answers 400 |
| EditItemForm.Synced | components/EditItemModal.jsx:27-35 | the form takes the picked item's id, name and quantity |
| EditItemForm.Increased | components/EditItemModal.jsx:82-87 | quantity up by one, id and name unchanged |
| EditItemForm.Decreased | components/EditItemModal.jsx:89-94 | quantity down by one but not below 1, id and name unchanged |
| EditItemForm.Edited | components/EditItemModal.jsx:96-101 | only the chosen field changes |
| EditItemForm.UpdateRequest | components/EditItemModal.jsx:47-62 | the request carries the user's email, the form's item id (absent exactly when the form has none), name and quantity |
| EditItemForm.EditItemModal.constructor | components/EditItemModal.jsx:22-24 | the form starts blank, with quantity 1 and no id, and not loading |
| EditItemForm.EditItemModal.Sync | components/EditItemModal.jsx:27-35 | with a picked item the form becomes `Synced` of it; without one it stays |
| EditItemForm.EditItemModal.IncreaseQuantity | components/EditItemModal.jsx:82-87 | the form becomes `Increased` of the old form |
| EditItemForm.EditItemModal.DecreaseQuantity | components/EditItemModal.jsx:89-94 | the form becomes `Decreased` of the old form |
| EditItemForm.EditItemModal.HandleItemChange | components/EditItemModal.jsx:96-101 | the form becomes `Edited` of the old form |
| EditItemForm.EditItemModal.BeginSubmit | components/EditItemModal.jsx:37-62 | nothing happens while loading; an empty name or a quantity `<= 0` refuses and ends loading; otherwise the update request for the form is sent |
| EditItemForm.EditItemModal.FinishSubmit | components/EditItemModal.jsx:71-80 | after the request the form is reset (id dropped, empty name, quantity 1) and not loading |
| EditItemForm.SentRequestPassesValidation | components/EditItemModal.jsx:41-62 | a request the form lets through passes the endpoint's input check exactly when the form holds a non-zero item id |
| EditItemForm.ResetFormIsRejected | components/EditItemModal.jsx:77-80 | a reset form, however edited, sends a request the endpoint answers with 400, without changing the store (until the next sync refills the form) |
| EditItemForm.SyncedAndSentUnchangedIsNoOp | components/EditItemModal.jsx:27-62 | submitting a picked item with its own name and quantity succeeds and leaves the store as it was |
| RecipeSearch.Shown | app/Screen/recipe.jsx:61 | an entry `${measure} ${ingredient}` is never the empty string |
| RecipeSearch.Mapped | app/Screen/recipe.jsx:58-61 | twenty positions; position j holds slot j+1's entry when its ingredient is truthy and `null` otherwise |
| RecipeSearch.Filter | app/Screen/recipe.jsx:62 | `filter(Boolean)` keeps at most the positions left, and only non-empty strings |
| RecipeSearch.KeptPositions | app/Screen/recipe.jsx:62 | the positions `filter(Boolean)` keeps, strictly ascending, each holding a non-empty string |
| RecipeSearch.KeptPositionsComplete | app/Screen/recipe.jsx:62 | every position holding a non-empty string is among the kept positions |
| RecipeSearch.FilterFollowsKeptPositions | app/Screen/recipe.jsx:62 | the j-th value kept is the string at the j-th kept position: the filter keeps order |
| RecipeSearch.FilterEmptyIffNoneKept | app/Screen/recipe.jsx:62 | nothing is kept exactly when no position holds a non-empty string |
| RecipeSearch.Ingredients | app/Screen/recipe.jsx:58-62 | at most twenty entries, none exactly when no slot has an ingredient |
| RecipeSearch.IngredientsAreTheFilledSlots | app/Screen/recipe.jsx:58-62 | the j-th entry is the "measure ingredient" of the j-th slot with a truthy ingredient, and every such slot is listed: in slot order, nothing else |
| RecipeSearch.OneIngredientMeal | app/Screen/recipe.jsx:58-62 | a meal with one measured ingredient and an empty second slot lists exactly "1 lb Chicken" |
| RecipeSearch.MealsOf | app/Screen/recipe.jsx:190-194 | a failed fetch or a `null` body is a failure; otherwise the list is `meals` when truthy and `[]` otherwise, never a falsy value |
| RecipeSearch.RecipeSearchScreen.constructor | app/Screen/recipe.jsx:168-170 | no recipes, not loading, no error |
| RecipeSearch.RecipeSearchScreen.StartSearch | app/Screen/recipe.jsx:177-189 | a blank query empties the list and leaves loading and the error alone; any other query starts loading, clears the error and requests the endpoint with the untrimmed query; the list is never falsy |
| RecipeSearch.RecipeSearchScreen.FinishSearch | app/Screen/recipe.jsx:190-197 | a failure shows "Failed to fetch recipes. Please try again." with an empty list; a success installs the list and keeps the error; loading ends false |

## Left out

- Network, database and device I/O (axios, fetch, Mongoose queries, the file system, the Gemini SDK) are parameters or pure functions of the state. Concurrent requests, races between overlapping searches and the 500 branches for database failures (other than the failed save of ensure-user) are not modelled.
- The 500-millisecond debounce timer of the search is not modelled: `StartSearch` is the call the debounce finally lets through.
- Rendering, navigation, alerts, console logging, the parent callbacks (`onAddItems`, `onClose`, `onUpdateItem`), the Clerk session, and the `FetchUserData` service are not modelled. For the last, the model receives the body it returns, or `None` for its `null`.
- The home screen, the profile screen, the delete dialog and the other context components are not part of this model.
- Numbers are integers. Floating point, `NaN` and string-typed quantities (which can only come from the analysis JSON, since both forms change the quantity through the +/- buttons alone) are not modelled.
- `ObjectId`s are natural numbers drawn from a counter. Mongoose's casting of malformed ids and of non-array or ill-typed `items` payloads is not modelled: the request types admit only well-typed fields, and a non-array `items` is its own case.
- Request items carrying their own `_id` are not modelled: Mongoose keeps such an id, so fresh and distinct ids (`UserModel.WellFormed`, `UserModel.AppendKeepsIdsFresh`, `HandlerProperties.DeletedIdNotReused`) hold only for requests without `_id`.
- Mongoose versions before 7 do not strip `undefined` keys from an update by default, so an update without a quantity would write `null` into `items.$.quantity`; the model follows Mongoose 7 and later, which keep the old quantity.
- AddItemForm.AddItemModal.IncreaseQuantity, AddItemForm.AddItemModal.DecreaseQuantity, AddItemForm.AddItemModal.HandleItemChange: the source mutates the row object shared with the previous state in place. The model replaces the row, so aliasing between renders is not captured.
- AddItemForm.RowOfAnalysisItem: a truthy `Item_name` that is not a string, or a truthy `quantity` that is not a number, is kept as-is by the source. The model uses "Unknown" and 1 instead.
- EditItemForm.Synced: a picked item without a name or without a quantity holds `undefined` in the source. The model uses `""` and 0, which the form's check refuses in the same way for the name. For the quantity, the source's `undefined` would pass the check and send an update without a quantity.
- AiText.AnalyzeImage: the request payload, the endpoint and the image encoding are not modelled. A failure to read the image and a failed request are both `RequestFailed`.
- JSON parsing is the parameter `parse`, so no lemma depends on the grammar of JSON.

# RecipeForge modifier core in Dafny

RecipeForge is a single-page React application. A user pastes a recipe, picks
dietary restrictions and asks a hosted text-generation model for a modified
version. Alternatively the user searches a hosted recipe database and pulls a
result into the editor. This project models the pure logic of the
`RecipeModifier` component and the prompt built by `getModifiedRecipe`, and
proves properties of that model:

- `Restrictions`: the six-entry restriction table, `toggleRestriction` over a
  selection kept as a list of ids, and the `", "`-joined label string.
- `Recipes`: the recipe shape and the editor text `handleSelectRecipe`
  derives from a search result.
- `Prompt`: the exact prompt string, with a positional reader that takes a
  prompt back apart.
- `Workflow`: the component state as one record. Each handler
  (`handleModifyRecipe`, `handleSearchRecipes`, `handleSelectRecipe`, tab
  clicks with `clearErrors`) is a transition from start state to end state.
  The external call's reply is a parameter (`Ok(value)` or `Err`). The
  transition records the call's argument, or `None` when no call was made.
- `SearchClient`: what the search client as written hands to the search
  handler (the whole response body) against what it declares (the recipe
  list), and what the search view then shows.
- `Text`: JavaScript's `trim` over the exact ECMAScript whitespace set, and
  `Array.prototype.join`.
- `Outcomes`: `Option` and the abstract `Outcome` of an external call.

The text-generation service, the recipe-search service, logging and rendering
are outside the model. A reply is just a parameter, so the model never says
what a service returns, only what the component does with it.

## Model

| member | source | states |
|---|---|---|
| `Text.Trim` | src/api/gemeniAPI.ts:48 | `recipe.trim()` is a slice of the input left after cutting a blank prefix and a blank suffix, with no whitespace at its own ends; it is empty exactly when the input is all whitespace |
| `Text.TrimUnique` | src/api/gemeniAPI.ts:48 | any string obtained by cutting blank ends and leaving no whitespace at its ends is the trim: the declarative reading determines `trim` |
| `Text.TrimIdempotent` | src/api/gemeniAPI.ts:48 | trimming twice equals trimming once |
| `Text.JoinAppend` | src/components/RecipeModifier.tsx:66-69 | joining two non-empty lists equals joining each and placing one separator between them |
| `Text.JoinLength` | src/components/RecipeModifier.tsx:120 | a joined string is as long as its parts plus one separator per adjacent pair, for every list; the empty list joins to a string of length 0 |
| `Restrictions.Find` | src/components/RecipeModifier.tsx:67 | the table lookup finds a label exactly when some entry has that id, and the label returned belongs to an entry with that id |
| `Restrictions.TableLabels` | src/components/RecipeModifier.tsx:38-45 | the six ids map to the labels Vegetarian, Vegan, Gluten-Free, Dairy-Free, Nut-Free, Low-Carb |
| `Restrictions.LabelOf` | src/components/RecipeModifier.tsx:67-68 | a label found in the table is never empty, so `.filter(Boolean)` drops exactly the ids without a label |
| `Restrictions.UnknownHasNoLabel` | src/components/RecipeModifier.tsx:67 | an id that no table entry has gets no label, as `find(...)?.label` gives `undefined` |
| `Restrictions.Remove` | src/components/RecipeModifier.tsx:50 | filtering leaves no occurrence of the id and keeps the count of every other id |
| `Restrictions.RemoveIsSubsequence` | src/components/RecipeModifier.tsx:50 | filtering keeps the remaining ids in their original relative order |
| `Restrictions.RemoveAbsent` | src/components/RecipeModifier.tsx:50 | filtering an id that does not occur returns the list unchanged |
| `Restrictions.RemoveAppend` | src/components/RecipeModifier.tsx:50 | filtering distributes over concatenation |
| `Restrictions.Toggle` | src/components/RecipeModifier.tsx:47-53 | a present id is removed everywhere and the other ids keep their order and counts; an absent id is appended at the end with the earlier entries unchanged |
| `Restrictions.ToggleKeepsNoDuplicates` | src/components/RecipeModifier.tsx:47-53 | toggling keeps a duplicate-free selection duplicate-free |
| `Restrictions.ToggleKeepsKnown` | src/components/RecipeModifier.tsx:205-213 | toggling one of the offered table ids keeps every selected id inside the table |
| `Restrictions.ToggleTwiceAbsent` | src/components/RecipeModifier.tsx:49-51 | toggling an absent id twice gives back the same list |
| `Restrictions.ToggleTwicePresent` | src/components/RecipeModifier.tsx:49-51 | toggling a present id twice moves it to the end, with every other occurrence gone |
| `Restrictions.MoveToEndIsIdentity` | src/components/RecipeModifier.tsx:49-51 | moving an id to the end gives back the list exactly when the id is last and occurs nowhere else |
| `Restrictions.ToggleTwiceSameMembers` | src/components/RecipeModifier.tsx:47-53 | toggling the same id twice restores the set of selected ids |
| `Restrictions.ToggleTwiceRestoresOrder` | src/components/RecipeModifier.tsx:47-53 | toggling twice restores the exact list if and only if the id was absent, or was last and occurred only there |
| `Restrictions.ToggleTwiceRestoresOrderNoDuplicates` | src/components/RecipeModifier.tsx:47-53 | on a duplicate-free selection, toggling twice restores the exact list if and only if the id was absent or last |
| `Restrictions.Labels` | src/components/RecipeModifier.tsx:66-68 | the projected labels are no more than the selected ids and none is empty |
| `Restrictions.LabelsSingleton` | src/components/RecipeModifier.tsx:66-68 | a one-id selection yields `LabelList(id)`: the id's label if the id is in the table, and nothing otherwise |
| `Restrictions.LabelsAppend` | src/components/RecipeModifier.tsx:66-68 | the label projection distributes over concatenation, so selection order is kept |
| `Restrictions.LabelsOfKnownSelection` | src/components/RecipeModifier.tsx:66-68 | for a selection of table ids there is exactly one label per id, at the same position |
| `Restrictions.FormatKnownSelection` | src/components/RecipeModifier.tsx:66-69 | for table ids, the restriction string is their labels in selection order joined by `", "`; an empty selection gives `""` |
| `Restrictions.FormatEmptyIffNoneKnown` | src/components/RecipeModifier.tsx:66-69 | the restriction string is empty exactly when no selected id is in the table |
| `Restrictions.FormatSkipsUnknown` | src/components/RecipeModifier.tsx:66-69 | an id outside the table between two table ids adds nothing: the string is the two labels, in selection order, around one `", "` |
| `Restrictions.FormatExamples` | src/components/RecipeModifier.tsx:66-69 | `["vegan"]` formats to `Vegan`; `["gluten-free", "unknown", "vegan"]` formats to `Gluten-Free, Vegan` |
| `Prompt.BuildPrompt` | src/api/gemeniAPI.ts:48 | the prompt starts with `Recipe: `, ends with the modifications text, and is as long as the three headings plus the trimmed recipe and the two other arguments |
| `Prompt.ReadBuildPrompt` | src/api/gemeniAPI.ts:48 | reading a prompt back by heading and length gives the trimmed recipe, the restriction string and the modifications, the last two verbatim even when empty |
| `Prompt.ReadPromptSound` | src/api/gemeniAPI.ts:48 | whatever a prompt reads back into rebuilds that prompt exactly under the three headings |
| `Prompt.PromptOfTrimmedRecipe` | src/api/gemeniAPI.ts:48 | the prompt for a recipe equals the prompt for its trim |
| `Prompt.PromptExample` | src/api/gemeniAPI.ts:48 | the request (`Boil pasta. Add sauce.`, `Vegan`, `no mushrooms`) yields a prompt with those three texts under their headings |
| `Recipes.IngredientLines` | src/components/RecipeModifier.tsx:115-119 | one `name, amount unit` line per ingredient, in list order |
| `Recipes.StepsOf` | src/components/RecipeModifier.tsx:126 | the step texts of one instruction set, position by position; this is the definition of `.map(step => step.step)`, and the properties of the flattening are stated by `StepTextsSingleton` and `StepTextsAppend` |
| `Recipes.StepTexts` | src/components/RecipeModifier.tsx:124-126 | the flattened list has one entry per step over all sets and holds the text of every step of every set |
| `Recipes.StepTextsSingleton` | src/components/RecipeModifier.tsx:124-126 | one instruction set flattens to its own step texts; with `StepTextsAppend` this fixes the flattened list, order and repeats included |
| `Recipes.StepTextsAppend` | src/components/RecipeModifier.tsx:124-126 | flattening distributes over concatenation, so the steps keep their set-by-set order |
| `Recipes.RecipeText` | src/components/RecipeModifier.tsx:113-130 | the editor text is the ingredients block, then exactly `"\n\n"`, then the instructions block, and nothing else |
| `Recipes.EmptyRecipeText` | src/components/RecipeModifier.tsx:113-130 | there is no guard for a recipe without ingredients or instructions; such a recipe yields `"\n\n"` |
| `Recipes.IngredientLineShape` | src/components/RecipeModifier.tsx:118 | an ingredient line is never empty, and it is a single line when its fields are |
| `Recipes.JoinLinesHasNoBlankLine` | src/components/RecipeModifier.tsx:120 | joining non-empty single lines with `"\n"` never produces two line breaks in a row |
| `Recipes.IngredientsBlockShape` | src/components/RecipeModifier.tsx:115-120 | with single-line fields, the ingredients block holds no blank line and does not end in a line break |
| `Recipes.RecipeTextSplits` | src/components/RecipeModifier.tsx:113-130 | with single-line ingredient fields, the first `"\n\n"` of the editor text is the one right after the ingredients block |
| `Workflow.HandleModifyRecipe` | src/components/RecipeModifier.tsx:55-84 | all-whitespace recipe: only the validation message is set, and no call is made. Otherwise: one call with the prompt of the recipe, the formatted labels and the modifications, and `loading` ends false. A reply's text is stored verbatim with the error `""`. A failure sets the generic message and keeps the old result. No other field changes |
| `Workflow.HandleSearchRecipes` | src/components/RecipeModifier.tsx:86-111 | all-whitespace query: only the validation message is set, and no call is made. Otherwise: one call with the query, and `searchLoading` ends false. Returned results are stored, with the not-found message exactly when the list is empty. A failure leaves no results and the generic message. No other field changes |
| `Workflow.HandleSelectRecipe` | src/components/RecipeModifier.tsx:113-132 | the recipe field becomes exactly the recipe's editor text, the modify tab opens, and nothing else changes |
| `SearchClient.LengthOf` | src/components/RecipeModifier.tsx:103 | `.length` is the item count of an array and undefined for a plain object; this is the definition the search lemmas below rest on |
| `SearchClient.SearchAsWrittenShowsNothing` | src/api/spoonacularAPI.ts:37 | with the body itself returned, a successful search shows neither the not-found message nor any recipe, whatever the body holds |
| `SearchClient.SearchAsWrittenExamples` | src/components/RecipeModifier.tsx:101-105 | a reply with no recipe gets no not-found message, and a reply with one recipe lists nothing |
| `SearchClient.SearchCorrectedShowsResults` | src/api/spoonacularAPI.ts:3 | with the `results` array returned, the view lists exactly the recipes found and shows the not-found message exactly when there are none |
| `SearchClient.HandlerUsesCorrectedClient` | src/components/RecipeModifier.tsx:100-105 | the search handler of this model stores what the corrected client returns and shows the same message as the corrected view |
| `Workflow.ClearErrors` | src/components/RecipeModifier.tsx:135-138 | both error messages become `""` and nothing else changes |
| `Workflow.SwitchTab` | src/components/RecipeModifier.tsx:150-167 | either tab click opens that tab, clears both error messages, and changes nothing else |
| `Workflow.SwitchTabLastWins` | src/components/RecipeModifier.tsx:150-167 | two tab clicks in a row leave the state the second click alone would |
| `Workflow.FlowsCommute` | src/components/RecipeModifier.tsx:55-111 | the modify and search flows touch disjoint fields: running them in either order gives the same state and the same calls |
| `Workflow.ApplyKeepsSettled` | src/components/RecipeModifier.tsx:24-36 | every event the page offers keeps the selection duplicate-free and inside the table; "no request in flight" holds because each handler is modelled as one atomic transition |
| `Workflow.RunKeepsSettled` | src/components/RecipeModifier.tsx:24-36 | any sequence of offered events keeps the state settled |
| `Workflow.InitialSettled` | src/components/RecipeModifier.tsx:24-36 | the first-render state is settled |
| `Workflow.SearchNothingFound` | src/components/RecipeModifier.tsx:88-105 | searching `chicken pasta` with an empty reply makes one call with that query and ends with no results and the not-found message (with the client returning the declared list; see "## Findings") |
| `Workflow.VeganRequest` | src/components/RecipeModifier.tsx:55-77 | from first render, selecting `vegan`, typing a non-blank recipe and a modification, then submitting sends the prompt with restriction string `Vegan` |

## Left out

- Rendering, Bootstrap components and the React hook machinery are not modelled. This covers `RecipeGrid.tsx`, `RecipeCard.tsx` and the JSX of `RecipeModifier.tsx`. State updates are modelled as immediate record updates.
- Concurrency is not modelled. Each async handler is one atomic transition, so no event can interleave with a request in flight. The source prevents a second submission only by disabling the submit button.
- The recipe-search client (`src/api/spoonacularAPI.ts`): its URL building, fetch, HTTP status check and JSON parsing are left out. Only its return value is modelled, in `SearchClient`. The search reply is abstracted as `Ok(recipes)` or `Err`, the type the client declares; what the client as written returns instead is under "## Findings". The `results.map(...)` at lines 21-35 has its result discarded and is not modelled.
- The generation client's SDK setup, model name and system instruction (`src/api/gemeniAPI.ts:1-41`) are not modelled. Its call and logging (lines 49-53) are not modelled either. The reply text reaches the model through the reply parameter of `Workflow.HandleModifyRecipe`, which stores it verbatim. That is the identity behaviour of lines 51-53.
- Logging, API keys and `vite.config.ts` are not modelled.
- `Recipes.Ingredient`: `amount` is modelled as text already rendered. JavaScript's number-to-string conversion of the float is left out.
- Strings are sequences of Unicode scalar values, while JavaScript strings are sequences of UTF-16 code units. So a length here differs from JavaScript's `.length` for text outside the Basic Multilingual Plane, and lone surrogates cannot be represented. `trim` strips only Basic Multilingual Plane characters, so `Text.Trim` is unaffected.
- `Text.IsWhitespace`: the `Zs` category is fixed at its current Unicode membership. A future Unicode version could change the set `trim` strips.
- No guard rejects a selected recipe without instructions, and the model follows the code. `Recipes.EmptyRecipeText` shows the resulting `"\n\n"`.
- Toggling an id outside the table is accepted by `toggleRestriction`, and `Restrictions.Toggle` models it as written. The settled-state invariant assumes only the six offered ids are toggled.

## Findings

| source | as written | input that shows it | evidently intended | confidence | as-written member | corrected member |
|---|---|---|---|---|---|---|
| src/api/spoonacularAPI.ts:37 | `fetchRecipesByQuery` is declared to return `Recipe[]` but returns the whole parsed body, a plain object. `handleSearchRecipes` stores it and tests `recipes.length === 0` (RecipeModifier.tsx:103), and the view tests `searchResults.length > 0` (line 314). Both lengths are undefined, so neither test passes | any successful reply: a body with an empty `results` gets no not-found message, and a body with one recipe lists nothing | return `data.results`: the grid lists the recipes found, and an empty list shows the not-found message | high; not executed | `SearchClient.SearchAsWrittenShowsNothing` | `SearchClient.SearchCorrectedShowsResults` |

/**
  What `fetchRecipesByQuery` hands to `handleSearchRecipes`, and what the
  search view then shows. The client is declared to return the recipe list,
  but it returns the whole response body, whose list sits in `results`. The
  handler and the view read `.length` on the value, which an object does not
  have.
 */
module SearchClient {
  import opened Outcomes
  import opened Recipes
  import opened Text
  import opened Workflow

  /** The parsed body of a search reply; the recipes are its `results`. */
  datatype SearchBody = SearchBody(results: seq<Recipe>)

  /** A value reaching the handler: an array of recipes, or a plain object. */
  datatype JsValue = ArrayValue(items: seq<Recipe>) | ObjectValue(body: SearchBody)

  /** The client as written: it returns the body itself. */
  function ClientAsWritten(body: SearchBody): JsValue {
    ObjectValue(body)
  }

  /** The client as declared: it returns the body's `results` array. */
  function ClientCorrected(body: SearchBody): JsValue {
    ArrayValue(body.results)
  }

  /** JavaScript's `v.length`: the number of items of an array, and
      `undefined` (here `None`) for a plain object. */
  function LengthOf(v: JsValue): (n: Option<nat>)
    ensures n.Some? <==> v.ArrayValue?
    ensures v.ArrayValue? ==> n == Some(|v.items|)
  {
    match v
    case ArrayValue(items) => Some(|items|)
    case ObjectValue(_) => None
  }

  /** What the search view shows after a successful search: the message and
      the recipes listed. */
  datatype SearchView = SearchView(error: string, listed: seq<Recipe>)

  /** The view after the handler stored `v`: the not-found message when
      `v.length === 0`, and the grid only when `v.length > 0` (an undefined
      length passes neither test). */
  function ViewOf(v: JsValue): SearchView {
    var n := LengthOf(v);
    SearchView(if n == Some(0) then NoResultsMessage else "",
               if n.Some? && n.value > 0 then v.items else [])
  }

  /** As written, no successful search ever shows anything: whatever the
      body holds, there is neither a not-found message nor a listed recipe. */
  lemma SearchAsWrittenShowsNothing(body: SearchBody)
    ensures ViewOf(ClientAsWritten(body)) == SearchView("", [])
  {
  }

  /** The two inputs that show it: a reply with no recipe gets no not-found
      message, and a reply with one recipe lists nothing. */
  lemma SearchAsWrittenExamples(found: Recipe)
    ensures ViewOf(ClientAsWritten(SearchBody([]))).error != NoResultsMessage
    ensures ViewOf(ClientAsWritten(SearchBody([found]))).listed == []
  {
    SearchAsWrittenShowsNothing(SearchBody([]));
    SearchAsWrittenShowsNothing(SearchBody([found]));
  }

  /** With the client returning `results`, the view lists exactly the recipes
      found and shows the not-found message exactly when there are none. */
  lemma SearchCorrectedShowsResults(body: SearchBody)
    ensures ViewOf(ClientCorrected(body)).listed == body.results
    ensures ViewOf(ClientCorrected(body)).error == NoResultsMessage <==> |body.results| == 0
  {
  }

  /** The model's search handler takes the corrected client's list: after a
      successful search of a non-blank query it stores what the corrected view
      lists and shows the same message. */
  lemma HandlerUsesCorrectedClient(s: UIState, body: SearchBody)
    requires !IsBlank(s.searchQuery)
    ensures var t := HandleSearchRecipes(s, Ok(body.results));
      && t.state.searchResults == ViewOf(ClientCorrected(body)).listed
      && t.state.searchError == ViewOf(ClientCorrected(body)).error
  {
  }
}

/**
  The state of the `RecipeModifier` component and its event handlers. Each
  handler is one atomic transition from the state when it starts to the state
  when it ends; the reply of the external service it calls is a parameter, and
  the transition records the call it issued, if any.
 */
module Workflow {
  import opened Outcomes
  import opened Text
  import opened Recipes
  import opened Restrictions
  import opened Prompt

  /** The two views of the component. */
  datatype Tab = ModifyTab | SearchTab

  /** Every piece of component state, one field per state hook. */
  datatype UIState = UIState(
    activeTab: Tab,
    recipe: string,
    restrictions: seq<string>,
    additionalModifications: string,
    modifiedRecipe: string,
    loading: bool,
    modifyError: string,
    searchQuery: string,
    searchResults: seq<Recipe>,
    searchLoading: bool,
    searchError: string)

  /** The state on first render. */
  const Initial: UIState := UIState(ModifyTab, "", [], "", "", false, "", "", [], false, "")

  const EmptyRecipeMessage: string := "Please enter a recipe to modify"
  const ModifyFailedMessage: string := "Failed to modify recipe. Please try again."
  const EmptyQueryMessage: string := "Please enter a search query"
  const NoResultsMessage: string := "No recipes found. Try different keywords."
  const SearchFailedMessage: string := "Failed to fetch recipes. Please try again."

  /** The effect of a handler: the state it leaves behind and the argument of
      the external call it made (`None` when it made none). */
  datatype Transition<Call> = Transition(state: UIState, call: Option<Call>)

  /** The modify flow up to the external call: validation, then `loading` on
      and the error cleared, and the prompt for the generation service. */
  function BeginModify(s: UIState): Transition<string> {
    if Trim(s.recipe) == "" then
      Transition(s.(modifyError := EmptyRecipeMessage), None)
    else
      var restrictions := FormatRestrictions(s.restrictions);
      Transition(s.(loading := true, modifyError := ""),
                 Some(BuildPrompt(s.recipe, restrictions, s.additionalModifications)))
  }

  /** The modify flow after the external call: the reply text is stored
      verbatim, a failure shows the generic message, and `loading` goes off. */
  function FinishModify(s: UIState, reply: Outcome<string>): UIState {
    match reply
    case Ok(text) => s.(modifiedRecipe := text, loading := false)
    case Err => s.(modifyError := ModifyFailedMessage, loading := false)
  }

  /** `handleModifyRecipe`, start to end. */
  function HandleModifyRecipe(s: UIState, reply: Outcome<string>): (t: Transition<string>)
    ensures IsBlank(s.recipe) ==> t == Transition(s.(modifyError := EmptyRecipeMessage), None)
    ensures !IsBlank(s.recipe) ==>
      && t.call == Some(BuildPrompt(s.recipe, FormatRestrictions(s.restrictions), s.additionalModifications))
      && !t.state.loading
    ensures !IsBlank(s.recipe) && reply.Ok? ==>
      t.state.modifiedRecipe == reply.value && t.state.modifyError == ""
    ensures !IsBlank(s.recipe) && reply.Err? ==>
      t.state.modifiedRecipe == s.modifiedRecipe && t.state.modifyError == ModifyFailedMessage
    ensures t.state.(modifiedRecipe := s.modifiedRecipe, loading := s.loading, modifyError := s.modifyError) == s
  {
    var begun := BeginModify(s);
    if begun.call.None? then begun
    else Transition(FinishModify(begun.state, reply), begun.call)
  }

  /** The search flow up to the external call: validation, then
      `searchLoading` on, the error and the previous results cleared, and the
      query (untrimmed) for the search service. */
  function BeginSearch(s: UIState): Transition<string> {
    if Trim(s.searchQuery) == "" then
      Transition(s.(searchError := EmptyQueryMessage), None)
    else
      Transition(s.(searchLoading := true, searchError := "", searchResults := []), Some(s.searchQuery))
  }

  /** The search flow after the external call: the results are stored, an
      empty list shows the not-found message, a failure shows the generic
      message, and `searchLoading` goes off. */
  function FinishSearch(s: UIState, reply: Outcome<seq<Recipe>>): UIState {
    match reply
    case Ok(recipes) =>
      var shown := s.(searchResults := recipes);
      var flagged := if |recipes| == 0 then shown.(searchError := NoResultsMessage) else shown;
      flagged.(searchLoading := false)
    case Err => s.(searchError := SearchFailedMessage, searchLoading := false)
  }

  /** `handleSearchRecipes`, start to end. */
  function HandleSearchRecipes(s: UIState, reply: Outcome<seq<Recipe>>): (t: Transition<string>)
    ensures IsBlank(s.searchQuery) ==> t == Transition(s.(searchError := EmptyQueryMessage), None)
    ensures !IsBlank(s.searchQuery) ==> t.call == Some(s.searchQuery) && !t.state.searchLoading
    ensures !IsBlank(s.searchQuery) && reply.Ok? ==>
      && t.state.searchResults == reply.value
      && t.state.searchError == (if |reply.value| == 0 then NoResultsMessage else "")
    ensures !IsBlank(s.searchQuery) && reply.Err? ==>
      t.state.searchResults == [] && t.state.searchError == SearchFailedMessage
    ensures t.state.(searchResults := s.searchResults, searchLoading := s.searchLoading, searchError := s.searchError) == s
  {
    var begun := BeginSearch(s);
    if begun.call.None? then begun
    else Transition(FinishSearch(begun.state, reply), begun.call)
  }

  /** `handleSelectRecipe`: the recipe's text goes into the recipe field and
      the modify view opens. */
  function HandleSelectRecipe(s: UIState, picked: Recipe): (r: UIState)
    ensures r.activeTab == ModifyTab
    ensures r.recipe == RecipeText(picked)
    ensures r.(recipe := s.recipe, activeTab := s.activeTab) == s
  {
    s.(recipe := RecipeText(picked), activeTab := ModifyTab)
  }

  /** `clearErrors`: both flows' messages emptied. */
  function ClearErrors(s: UIState): (r: UIState)
    ensures r.searchError == "" && r.modifyError == ""
    ensures r.(searchError := s.searchError, modifyError := s.modifyError) == s
  {
    s.(searchError := "", modifyError := "")
  }

  /** A click on either tab link: the tab opens and both messages clear. */
  function SwitchTab(s: UIState, tab: Tab): (r: UIState)
    ensures r.activeTab == tab && r.searchError == "" && r.modifyError == ""
    ensures r.(activeTab := s.activeTab, searchError := s.searchError, modifyError := s.modifyError) == s
  {
    ClearErrors(s.(activeTab := tab))
  }

  /** Only the last of several tab clicks matters. */
  lemma SwitchTabLastWins(s: UIState, first: Tab, second: Tab)
    ensures SwitchTab(SwitchTab(s, first), second) == SwitchTab(s, second)
  {
  }

  /** The two flows touch disjoint fields: running one before the other gives
      the same state and the same calls either way. */
  lemma FlowsCommute(s: UIState, modifyReply: Outcome<string>, searchReply: Outcome<seq<Recipe>>)
    ensures var m := HandleModifyRecipe(s, modifyReply);
            var q := HandleSearchRecipes(s, searchReply);
            && HandleSearchRecipes(m.state, searchReply).state == HandleModifyRecipe(q.state, modifyReply).state
            && HandleSearchRecipes(m.state, searchReply).call == q.call
            && HandleModifyRecipe(q.state, modifyReply).call == m.call
  {
  }

  /** Everything a user can do on the page. */
  datatype Event =
    | ToggleRestriction(id: string)
    | EditRecipe(text: string)
    | EditModifications(text: string)
    | EditQuery(text: string)
    | SubmitModify(modifyReply: Outcome<string>)
    | SubmitSearch(searchReply: Outcome<seq<Recipe>>)
    | SelectRecipe(picked: Recipe)
    | ClickTab(tab: Tab)

  /** The page offers only the six table ids to toggle. */
  predicate Offered(e: Event) {
    e.ToggleRestriction? ==> IsKnown(e.id)
  }

  /** The state after one event. */
  function Apply(s: UIState, e: Event): UIState {
    match e
    case ToggleRestriction(id) => s.(restrictions := Toggle(s.restrictions, id))
    case EditRecipe(text) => s.(recipe := text)
    case EditModifications(text) => s.(additionalModifications := text)
    case EditQuery(text) => s.(searchQuery := text)
    case SubmitModify(reply) => HandleModifyRecipe(s, reply).state
    case SubmitSearch(reply) => HandleSearchRecipes(s, reply).state
    case SelectRecipe(picked) => HandleSelectRecipe(s, picked)
    case ClickTab(tab) => SwitchTab(s, tab)
  }

  /** The state after a sequence of events, in order. */
  function Run(s: UIState, events: seq<Event>): UIState
    decreases |events|
  {
    if |events| == 0 then s else Run(Apply(s, events[0]), events[1..])
  }

  /** Between events no request is in flight, and the selection holds table
      ids without duplicates. The first half holds because every handler is
      one atomic transition that ends with its loading flag off; the second
      is where the proof work lies. */
  predicate Settled(s: UIState) {
    && !s.loading
    && !s.searchLoading
    && NoDuplicates(s.restrictions)
    && AllKnown(s.restrictions)
  }

  /** Every offered event keeps the state settled. */
  lemma ApplyKeepsSettled(s: UIState, e: Event)
    requires Settled(s) && Offered(e)
    ensures Settled(Apply(s, e))
  {
    if e.ToggleRestriction? {
      ToggleKeepsNoDuplicates(s.restrictions, e.id);
      ToggleKeepsKnown(s.restrictions, e.id);
    }
  }

  /** Any sequence of offered events keeps the state settled. */
  lemma {:induction false} RunKeepsSettled(s: UIState, events: seq<Event>)
    requires Settled(s)
    requires forall k :: 0 <= k < |events| ==> Offered(events[k])
    ensures Settled(Run(s, events))
    decreases |events|
  {
    if |events| > 0 {
      ApplyKeepsSettled(s, events[0]);
      RunKeepsSettled(Apply(s, events[0]), events[1..]);
    }
  }

  /** The first render is settled, so every reachable state is. */
  lemma InitialSettled()
    ensures Settled(Initial)
  {
  }

  /** A search for "chicken pasta" that finds nothing issues one call with
      that query and ends with no results and the not-found message. */
  lemma SearchNothingFound(s: UIState)
    requires s.searchQuery == "chicken pasta"
    ensures var t := HandleSearchRecipes(s, Ok([]));
      && t.call == Some("chicken pasta")
      && t.state.searchResults == []
      && t.state.searchError == NoResultsMessage
      && !t.state.searchLoading
  {
    assert !IsWhitespace(s.searchQuery[0]);
  }

  /** From the first render, selecting "vegan", typing a recipe and a
      modification and submitting sends the prompt carrying the label "Vegan". */
  lemma VeganRequest(recipe: string, additional: string)
    requires !IsBlank(recipe)
    ensures var s := Run(Initial, [ToggleRestriction("vegan"), EditRecipe(recipe), EditModifications(additional)]);
      HandleModifyRecipe(s, Err).call == Some(BuildPrompt(recipe, "Vegan", additional))
  {
    var events := [ToggleRestriction("vegan"), EditRecipe(recipe), EditModifications(additional)];
    var s1 := Apply(Initial, events[0]);
    assert s1.restrictions == ["vegan"];
    var s2 := Apply(s1, events[1..][0]);
    var s3 := Apply(s2, events[1..][1..][0]);
    assert events[1..][1..][1..] == [];
    assert Run(Initial, events) == Run(s1, events[1..]) == Run(s2, events[1..][1..]) == Run(s3, []) == s3;
    FormatExamples();
  }
}

/**
  The prompt `getModifiedRecipe` sends to the text-generation service: the
  trimmed recipe, the restriction labels and the free-text modifications, each
  under a fixed heading.
 */
module Prompt {
  import opened Outcomes
  import opened Text

  const RecipeHeading: string := "Recipe: "
  const RestrictionsHeading: string := "\n\nDietary Restrictions: "
  const ModificationsHeading: string := "\n\nAdditional Modifications: "

  /** The prompt for one modification request. Only the recipe is trimmed;
      the restriction string and the modifications appear as given. */
  function BuildPrompt(recipe: string, restrictions: string, additional: string): (prompt: string)
    ensures RecipeHeading <= prompt
    ensures EndsWith(prompt, additional)
    ensures |prompt| == |RecipeHeading| + |Trim(recipe)| + |RestrictionsHeading| + |restrictions|
                        + |ModificationsHeading| + |additional|
  {
    RecipeHeading + Trim(recipe) + RestrictionsHeading + restrictions + ModificationsHeading + additional
  }

  /** The three fields of a prompt. */
  datatype Fields = Fields(recipe: string, restrictions: string, additional: string)

  /** Reads the fields of `prompt` back, heading by heading, or fails when a
      heading is missing or a field is shorter than its length says. */
  function ReadPrompt(prompt: string, recipeLength: nat, restrictionsLength: nat): (r: Option<Fields>)
  {
    if !(RecipeHeading <= prompt) then None
    else
      var afterRecipeHeading := prompt[|RecipeHeading|..];
      if |afterRecipeHeading| < recipeLength then None
      else
        var recipe := afterRecipeHeading[..recipeLength];
        var afterRecipe := afterRecipeHeading[recipeLength..];
        if !(RestrictionsHeading <= afterRecipe) then None
        else
          var afterRestrictionsHeading := afterRecipe[|RestrictionsHeading|..];
          if |afterRestrictionsHeading| < restrictionsLength then None
          else
            var restrictions := afterRestrictionsHeading[..restrictionsLength];
            var afterRestrictions := afterRestrictionsHeading[restrictionsLength..];
            if !(ModificationsHeading <= afterRestrictions) then None
            else Some(Fields(recipe, restrictions, afterRestrictions[|ModificationsHeading|..]))
  }

  /** Splitting a concatenation at the length of its first part gives the
      parts back. */
  lemma SplitConcat(x: string, y: string)
    ensures x <= x + y
    ensures (x + y)[..|x|] == x && (x + y)[|x|..] == y
  {
  }

  /** Concatenation of six parts, grouped to the right. */
  lemma Regroup(a: string, b: string, c: string, d: string, e: string, f: string)
    ensures a + b + c + d + e + f == a + (b + (c + (d + (e + f))))
  {
  }

  /** Every prompt reads back into the trimmed recipe and the other two
      arguments verbatim. */
  lemma ReadBuildPrompt(recipe: string, restrictions: string, additional: string)
    ensures ReadPrompt(BuildPrompt(recipe, restrictions, additional), |Trim(recipe)|, |restrictions|)
         == Some(Fields(Trim(recipe), restrictions, additional))
  {
    var t := Trim(recipe);
    var tail3 := ModificationsHeading + additional;
    var tail2 := restrictions + tail3;
    var tail1 := RestrictionsHeading + tail2;
    var tail0 := t + tail1;
    Regroup(RecipeHeading, t, RestrictionsHeading, restrictions, ModificationsHeading, additional);
    SplitConcat(RecipeHeading, tail0);
    SplitConcat(t, tail1);
    SplitConcat(RestrictionsHeading, tail2);
    SplitConcat(restrictions, tail3);
    SplitConcat(ModificationsHeading, additional);
  }

  /** A prompt reads back only into fields that build it again. */
  lemma ReadPromptSound(prompt: string, recipeLength: nat, restrictionsLength: nat)
    requires ReadPrompt(prompt, recipeLength, restrictionsLength).Some?
    ensures var f := ReadPrompt(prompt, recipeLength, restrictionsLength).value;
      prompt == RecipeHeading + (f.recipe + (RestrictionsHeading + (f.restrictions + (ModificationsHeading + f.additional))))
  {
    var f := ReadPrompt(prompt, recipeLength, restrictionsLength).value;
    var s1 := prompt[|RecipeHeading|..];
    var s2 := s1[recipeLength..];
    var s3 := s2[|RestrictionsHeading|..];
    var s4 := s3[restrictionsLength..];
    assert s4 == ModificationsHeading + f.additional;
    assert s3 == f.restrictions + s4;
    assert s2 == RestrictionsHeading + s3;
    assert s1 == f.recipe + s2;
    assert prompt == RecipeHeading + s1;
  }

  /** Trimming the recipe first changes nothing, since the prompt trims it. */
  lemma PromptOfTrimmedRecipe(recipe: string, restrictions: string, additional: string)
    ensures BuildPrompt(Trim(recipe), restrictions, additional) == BuildPrompt(recipe, restrictions, additional)
  {
    TrimIdempotent(recipe);
  }

  /** A concrete request: its prompt carries the recipe, the label string and
      the modifications under their headings. */
  lemma PromptExample()
    ensures ReadPrompt(BuildPrompt("Boil pasta. Add sauce.", "Vegan", "no mushrooms"), 22, 5)
         == Some(Fields("Boil pasta. Add sauce.", "Vegan", "no mushrooms"))
  {
    var recipe := "Boil pasta. Add sauce.";
    assert IsTrimOf(recipe, recipe) by {
      assert recipe[0..|recipe|] == recipe;
    }
    TrimUnique(recipe, recipe);
    ReadBuildPrompt(recipe, "Vegan", "no mushrooms");
  }
}

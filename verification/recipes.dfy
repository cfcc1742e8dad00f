/**
  The recipe shape returned by the recipe-search service, and the text the
  editor receives when the user picks a search result (`handleSelectRecipe`).
 */
module Recipes {
  import opened Outcomes
  import opened Text

  /** One ingredient. `amount` is the quantity already rendered as text, the
      way a JavaScript template literal prints the number. */
  datatype Ingredient = Ingredient(name: string, amount: string, unit: string)

  /** One numbered instruction step; only its text is used. */
  datatype Step = Step(step: string)

  /** A named group of steps. */
  datatype InstructionSet = InstructionSet(steps: seq<Step>)

  datatype Recipe = Recipe(
    title: string,
    image: string,
    extendedIngredients: seq<Ingredient>,
    analyzedInstructions: seq<InstructionSet>)

  /** Separator between ingredient lines. */
  const LineBreak: string := "\n"

  /** Separator between steps, and between the two blocks of the text. */
  const BlankLine: string := "\n\n"

  /** The line `name, amount unit` of one ingredient. */
  function IngredientLine(i: Ingredient): (line: string)
  {
    i.name + ", " + i.amount + " " + i.unit
  }

  /** One line per ingredient, in list order. */
  function IngredientLines(ingredients: seq<Ingredient>): (lines: seq<string>)
    ensures |lines| == |ingredients|
    ensures forall k :: 0 <= k < |lines| ==> lines[k] == IngredientLine(ingredients[k])
    decreases |ingredients|
  {
    if |ingredients| == 0 then []
    else [IngredientLine(ingredients[0])] + IngredientLines(ingredients[1..])
  }

  /** The text of every step of one instruction set, in order. */
  function StepsOf(group: InstructionSet): (texts: seq<string>)
    ensures |texts| == |group.steps|
    ensures forall j :: 0 <= j < |texts| ==> texts[j] == group.steps[j].step
  {
    seq(|group.steps|, j requires 0 <= j < |group.steps| => group.steps[j].step)
  }

  /** Number of steps over all instruction sets. */
  function StepCount(sets: seq<InstructionSet>): nat
    decreases |sets|
  {
    if |sets| == 0 then 0 else |sets[0].steps| + StepCount(sets[1..])
  }

  /** The instruction sets flattened to their step texts, set by set. */
  function StepTexts(sets: seq<InstructionSet>): (texts: seq<string>)
    ensures |texts| == StepCount(sets)
    ensures forall k, j :: 0 <= k < |sets| && 0 <= j < |sets[k].steps| ==> sets[k].steps[j].step in texts
    decreases |sets|
  {
    if |sets| == 0 then []
    else StepsOf(sets[0]) + StepTexts(sets[1..])
  }

  /** The ingredients block: the ingredient lines joined by line breaks. */
  function IngredientsBlock(r: Recipe): string {
    Join(LineBreak, IngredientLines(r.extendedIngredients))
  }

  /** The instructions block: the step texts joined by blank lines. */
  function InstructionsBlock(r: Recipe): string {
    Join(BlankLine, StepTexts(r.analyzedInstructions))
  }

  /** The text `handleSelectRecipe` writes into the recipe field. */
  function RecipeText(r: Recipe): (text: string)
    ensures |text| == |IngredientsBlock(r)| + |BlankLine| + |InstructionsBlock(r)|
    ensures text[..|IngredientsBlock(r)|] == IngredientsBlock(r)
    ensures text[|IngredientsBlock(r)|..|IngredientsBlock(r)| + |BlankLine|] == BlankLine
    ensures text[|IngredientsBlock(r)| + |BlankLine|..] == InstructionsBlock(r)
  {
    IngredientsBlock(r) + BlankLine + InstructionsBlock(r)
  }

  /** Flattening respects concatenation of the instruction-set lists, so the
      steps keep their set-by-set order. */
  lemma {:induction false} StepTextsAppend(a: seq<InstructionSet>, b: seq<InstructionSet>)
    ensures StepTexts(a + b) == StepTexts(a) + StepTexts(b)
    decreases |a|
  {
    if |a| == 0 {
      assert a + b == b;
    } else {
      assert (a + b)[0] == a[0];
      assert (a + b)[1..] == a[1..] + b;
      StepTextsAppend(a[1..], b);
    }
  }

  /** One instruction set flattens to its own step texts; with
      `StepTextsAppend` this fixes the flattened list completely. */
  lemma StepTextsSingleton(group: InstructionSet)
    ensures StepTexts([group]) == StepsOf(group)
  {
    assert [group][1..] == [];
  }

  /** There is no guard for a recipe without ingredients or instructions: the
      editor then receives just the blank line between the two empty blocks. */
  lemma EmptyRecipeText(title: string, image: string)
    ensures RecipeText(Recipe(title, image, [], [])) == "\n\n"
  {
  }

  /** `s` holds no line break. */
  predicate SingleLine(s: string) {
    forall k :: 0 <= k < |s| ==> s[k] != '\n'
  }

  /** Two line breaks in a row start at index `k` of `s`. */
  predicate BlankLineAt(s: string, k: int) {
    0 <= k && k + 1 < |s| && s[k] == '\n' && s[k + 1] == '\n'
  }

  /** No ingredient field holds a line break. */
  predicate SingleLineIngredients(r: Recipe) {
    forall i :: 0 <= i < |r.extendedIngredients| ==>
      var g := r.extendedIngredients[i];
      SingleLine(g.name) && SingleLine(g.amount) && SingleLine(g.unit)
  }

  /** An ingredient line is never empty, and it is a single line when its
      fields are. */
  lemma IngredientLineShape(i: Ingredient)
    ensures |IngredientLine(i)| > 0
    ensures SingleLine(i.name) && SingleLine(i.amount) && SingleLine(i.unit) ==> SingleLine(IngredientLine(i))
  {
    var line := IngredientLine(i);
    if SingleLine(i.name) && SingleLine(i.amount) && SingleLine(i.unit) {
      forall k | 0 <= k < |line|
        ensures line[k] != '\n'
      {
        if k < |i.name| {
          assert line[k] == i.name[k];
        } else if k < |i.name| + 2 {
        } else if k < |i.name| + 2 + |i.amount| {
          assert line[k] == i.amount[k - |i.name| - 2];
        } else if k < |i.name| + 3 + |i.amount| {
        } else {
          assert line[k] == i.unit[k - |i.name| - 3 - |i.amount|];
        }
      }
    }
  }

  /** Joining non-empty single lines with line breaks never puts two line
      breaks in a row. */
  lemma {:induction false} JoinLinesHasNoBlankLine(lines: seq<string>)
    requires forall k :: 0 <= k < |lines| ==> |lines[k]| > 0 && SingleLine(lines[k])
    ensures forall k :: !BlankLineAt(Join(LineBreak, lines), k)
    decreases |lines|
  {
    if |lines| > 1 {
      var rest := lines[1..];
      JoinLinesHasNoBlankLine(rest);
      var j := Join(LineBreak, lines);
      var head := lines[0];
      var tail := Join(LineBreak, rest);
      assert j == head + LineBreak + tail;
      assert rest[0] <= tail;
      forall k | 0 <= k
        ensures !BlankLineAt(j, k)
      {
        if k > |head| {
          assert BlankLineAt(j, k) ==> BlankLineAt(tail, k - |head| - 1);
        }
      }
    }
  }

  /** The ingredients block of a recipe with single-line fields has no blank
      line and does not end in a line break. */
  lemma IngredientsBlockShape(r: Recipe)
    requires SingleLineIngredients(r)
    ensures forall k :: !BlankLineAt(IngredientsBlock(r), k)
    ensures |IngredientsBlock(r)| > 0 ==> IngredientsBlock(r)[|IngredientsBlock(r)| - 1] != '\n'
  {
    var lines := IngredientLines(r.extendedIngredients);
    forall k | 0 <= k < |lines|
      ensures |lines[k]| > 0 && SingleLine(lines[k])
    {
      IngredientLineShape(r.extendedIngredients[k]);
    }
    JoinLinesHasNoBlankLine(lines);
    var b := IngredientsBlock(r);
    if |lines| > 0 {
      var last := lines[|lines| - 1];
      assert EndsWith(b, last);
      assert b[|b| - 1] == last[|last| - 1];
    }
  }

  /** A block with no blank line and no trailing line break, followed by a
      blank line: the first blank line of the whole starts right after the
      block. */
  lemma FirstBlankLineAfter(b: string, rest: string)
    requires forall k :: !BlankLineAt(b, k)
    requires |b| > 0 ==> b[|b| - 1] != '\n'
    ensures FindFrom(BlankLine, b + BlankLine + rest, 0) == Some(|b|)
  {
    var t := b + BlankLine + rest;
    assert t[|b|..|b| + 2] == BlankLine;
    forall k | 0 <= k < |b|
      ensures !OccursAt(BlankLine, t, k)
    {
      assert t[k] == b[k];
      if k + 1 < |b| {
        assert t[k + 1] == b[k + 1];
        assert !BlankLineAt(b, k);
      }
      assert t[k..k + 2][0] == t[k] && t[k..k + 2][1] == t[k + 1];
    }
    FindFromFirst(BlankLine, t, 0, |b|);
  }

  /** As long as no ingredient field holds a line break, the first `"\n\n"`
      of the editor text is the one between the two blocks, so splitting there
      gives the ingredients block back. */
  lemma RecipeTextSplits(r: Recipe)
    requires SingleLineIngredients(r)
    ensures FindFrom(BlankLine, RecipeText(r), 0) == Some(|IngredientsBlock(r)|)
  {
    var b := IngredientsBlock(r);
    IngredientsBlockShape(r);
    FirstBlankLineAfter(b, InstructionsBlock(r));
  }
}

/**
 * The screen controller `RecipeAppLayout` (main.py:85-220). Its state is the
 * text of four widgets: the ingredient field, the status label, the row of
 * dish buttons and the recipe label. The language model and the PDF builder
 * are outside the model: their answers arrive as parameters (the reply text
 * or the error message of the exception they raised). A background thread is
 * modelled by the caller running the thread's method next, with the value
 * the starting method hands it.
 */
module Controller {
  import opened Wrappers
  import opened Text
  import opened RecipeFilter
  import opened Dishes
  import opened Export

  const StatusPlaceholder := "Possible foods will appear here."
  /** What `download_recipe_pdf` looks for to refuse an export. */
  const RecipePlaceholderPrefix := "Selected recipe will appear here"
  const RecipePlaceholder := RecipePlaceholderPrefix + "."
  const EmptyInputStatus := "[color=ff0000]Please enter ingredients !!![/color]"
  const FindingStatus := "[color=00aa00]⏳ Finding possible foods...[/color]"
  const SelectDishStatus := "Select a dish to see the recipe:"
  const LoadingRecipe := "[color=00aa00]" + "[b]" + "Loading recipe..." + "[/b]" + "[/color]"
  const RecipeDoneStatus := "[color=00aa00]Recipe generated.[/color]"
  const NoRecipeStatus := "[color=ff0000]No recipe to download![/color]"
  const PdfFileName := "recipe.pdf"

  /** The message shown for an exception, in red, after `prefix`. */
  function ErrorMarkup(prefix: string, message: string): string {
    "[color=ff0000]" + prefix + message + "[/color]"
  }

  function GeneratingStatus(dish: string): string {
    "⏳ Generating recipe for " + dish + "..."
  }

  function SavedStatus(fileName: string): string {
    "[color=00aa00]PDF saved as " + fileName + "[/color]"
  }

  /** A dish button: its caption and its width in pixels (the height is always 50). */
  datatype DishButton = DishButton(text: string, width: nat)

  /** `max(150, len(dish) * 8)` */
  function ButtonWidth(dish: string): (w: nat)
    ensures w >= 150 && w >= 8 * |dish|
    ensures w == 150 || w == 8 * |dish|
  {
    if 8 * |dish| > 150 then 8 * |dish| else 150
  }

  /** The button row for `dishes`, one button per dish, in order. */
  function ButtonsFor(dishes: seq<string>): (bs: seq<DishButton>)
    ensures |bs| == |dishes|
    ensures forall i :: 0 <= i < |dishes| ==> bs[i] == DishButton(dishes[i], ButtonWidth(dishes[i]))
  {
    if dishes == [] then []
    else ButtonsFor(dishes[..|dishes| - 1]) + [DishButton(dishes[|dishes| - 1], ButtonWidth(dishes[|dishes| - 1]))]
  }

  /** `combined_text` after the chunks `deltas`. */
  function Concat(deltas: seq<string>): string {
    if deltas == [] then ""
    else Concat(deltas[..|deltas| - 1]) + deltas[|deltas| - 1]
  }

  /** The texts `f` makes of the growing prefixes of `deltas`: entry `k` is `f` of chunks 0 to `k`. */
  function PrefixImages(f: string -> string, deltas: seq<string>): (ls: seq<string>)
    ensures |ls| == |deltas|
  {
    seq(|deltas|, k requires 0 <= k < |deltas| => f(Concat(deltas[..k + 1])))
  }

  /** One more chunk adds one more entry and leaves the others. */
  lemma PrefixImagesSnoc(f: string -> string, deltas: seq<string>, i: nat)
    requires i < |deltas|
    ensures PrefixImages(f, deltas[..i + 1]) == PrefixImages(f, deltas[..i]) + [f(Concat(deltas[..i + 1]))]
  {
    var longer := PrefixImages(f, deltas[..i + 1]);
    var shorter := PrefixImages(f, deltas[..i]);
    forall k | 0 <= k < i ensures longer[k] == shorter[k] {
      assert deltas[..i + 1][..k + 1] == deltas[..k + 1] == deltas[..i][..k + 1];
    }
    assert deltas[..i + 1][..i + 1] == deltas[..i + 1];
  }

  /** The label texts the stream shows: after chunk `k`, the cleaned text of chunks 0 to `k`. */
  function StreamLabels(deltas: seq<string>): (ls: seq<string>)
    ensures |ls| == |deltas|
  {
    PrefixImages(CleanText, deltas)
  }

  /** Whether `download_recipe_pdf` refuses to export the label text `recipe`. */
  predicate ExportRefused(recipe: string) {
    RecipePlaceholderPrefix <= Strip(recipe)
  }

  class RecipeAppLayout {
    /** The ingredient field's text, as the user typed it. */
    var ingredientInput: string
    var status: string
    var buttons: seq<DishButton>
    var recipe: string
    /** Every text the recipe label has shown, in order; the last is `recipe`. */
    ghost var labelHistory: seq<string>

    /** The widgets as the layout declares them. */
    constructor ()
      ensures ingredientInput == "" && status == StatusPlaceholder
      ensures buttons == [] && recipe == RecipePlaceholder
      ensures labelHistory == [RecipePlaceholder]
    {
      ingredientInput := "";
      status := StatusPlaceholder;
      buttons := [];
      recipe := RecipePlaceholder;
      labelHistory := [RecipePlaceholder];
    }

    /** `find_possible_foods`: a blank field only sets a warning; otherwise the
        screen is reset and the trimmed ingredients are returned for the
        background request. */
    method FindPossibleFoods() returns (request: Option<string>)
      modifies this
      ensures ingredientInput == old(ingredientInput)
      ensures Strip(ingredientInput) == [] ==>
        request == None && status == EmptyInputStatus &&
        buttons == old(buttons) && recipe == old(recipe) && labelHistory == old(labelHistory)
      ensures Strip(ingredientInput) != [] ==>
        request == Some(Strip(ingredientInput)) && status == FindingStatus &&
        buttons == [] && recipe == RecipePlaceholder &&
        labelHistory == old(labelHistory) + [RecipePlaceholder]
    {
      var ingredients := Strip(ingredientInput);
      if ingredients == [] {
        UpdateStatus(EmptyInputStatus);
        return None;
      }
      UpdateStatus(FindingStatus);
      buttons := [];
      recipe := RecipePlaceholder;
      labelHistory := labelHistory + [RecipePlaceholder];
      request := Some(ingredients);
    }

    /** `_ollama_generate_foods`, given the model's reply: the parsed dishes
        become buttons, or the error is shown. */
    method OllamaGenerateFoods(reply: Result<string>)
      modifies this
      ensures ingredientInput == old(ingredientInput) && recipe == old(recipe)
      ensures labelHistory == old(labelHistory)
      ensures reply.Ok? ==>
        status == SelectDishStatus && buttons == ButtonsFor(ParseDishes(reply.value))
      ensures reply.Err? ==>
        status == ErrorMarkup("Error: ", reply.message) && buttons == old(buttons)
    {
      match reply {
        case Ok(text) =>
          var dishes := ParseDishes(text);
          UpdateFoodsGrid(dishes);
        case Err(e) =>
          UpdateStatus(ErrorMarkup("Error: ", e));
      }
    }

    /** `update_status` */
    method UpdateStatus(text: string)
      modifies this
      ensures status == text
      ensures ingredientInput == old(ingredientInput) && buttons == old(buttons) && recipe == old(recipe)
      ensures labelHistory == old(labelHistory)
    {
      status := text;
    }

    /** `update_foods_grid`: the row is cleared and one button added per dish. */
    method UpdateFoodsGrid(dishes: seq<string>)
      modifies this
      ensures status == SelectDishStatus && buttons == ButtonsFor(dishes)
      ensures ingredientInput == old(ingredientInput) && recipe == old(recipe)
      ensures labelHistory == old(labelHistory)
    {
      UpdateStatus(SelectDishStatus);
      buttons := [];
      for i := 0 to |dishes|
        invariant buttons == ButtonsFor(dishes[..i])
        invariant status == SelectDishStatus
        invariant ingredientInput == old(ingredientInput) && recipe == old(recipe)
        invariant labelHistory == old(labelHistory)
      {
        assert dishes[..i + 1][..i] == dishes[..i];
        buttons := buttons + [DishButton(dishes[i], ButtonWidth(dishes[i]))];
      }
      assert dishes[..|dishes|] == dishes;
    }

    /** A press on button `i` asks for that dish's recipe. */
    method PressDishButton(i: nat) returns (request: string)
      requires i < |buttons|
      modifies this
      ensures request == old(buttons[i].text)
      ensures status == GeneratingStatus(request) && recipe == LoadingRecipe
      ensures labelHistory == old(labelHistory) + [LoadingRecipe]
      ensures ingredientInput == old(ingredientInput) && buttons == old(buttons)
    {
      request := buttons[i].text;
      GetRecipe(request);
    }

    /** `get_recipe`: shows that the recipe is being generated. */
    method GetRecipe(dishName: string)
      modifies this
      ensures status == GeneratingStatus(dishName) && recipe == LoadingRecipe
      ensures labelHistory == old(labelHistory) + [LoadingRecipe]
      ensures ingredientInput == old(ingredientInput) && buttons == old(buttons)
    {
      UpdateStatus(GeneratingStatus(dishName));
      recipe := LoadingRecipe;
      labelHistory := labelHistory + [LoadingRecipe];
    }

    /** `_ollama_generate_recipe_stream`, given the chunks the model sent and,
        when the stream broke off, the error: after every chunk the label shows
        the cleaned text received so far; `shown` lists those label texts. */
    method OllamaGenerateRecipeStream(deltas: seq<string>, failure: Option<string>) returns (shown: seq<string>)
      modifies this
      ensures shown == StreamLabels(deltas)
      ensures failure.None? ==> labelHistory == old(labelHistory) + StreamLabels(deltas)
      ensures failure.Some? ==>
        labelHistory == old(labelHistory) + StreamLabels(deltas) + [ErrorMarkup("Error: ", failure.value)]
      ensures ingredientInput == old(ingredientInput) && buttons == old(buttons)
      ensures failure.None? ==>
        (status == RecipeDoneStatus && recipe == (if deltas == [] then old(recipe) else CleanText(Concat(deltas))))
      ensures failure.Some? ==> status == old(status) && recipe == ErrorMarkup("Error: ", failure.value)
    {
      var combined := "";
      shown := [];
      for i := 0 to |deltas|
        invariant combined == Concat(deltas[..i])
        invariant shown == StreamLabels(deltas[..i])
        invariant labelHistory == old(labelHistory) + shown
        invariant recipe == (if i == 0 then old(recipe) else CleanText(Concat(deltas[..i])))
        invariant status == old(status)
        invariant ingredientInput == old(ingredientInput) && buttons == old(buttons)
      {
        assert deltas[..i + 1][..i] == deltas[..i];
        PrefixImagesSnoc(CleanText, deltas, i);
        combined := combined + deltas[i];
        var cleaned := CleanRecipeText(combined);
        UpdateRecipePartial(cleaned);
        shown := shown + [cleaned];
      }
      assert deltas[..|deltas|] == deltas;
      match failure {
        case None =>
          UpdateStatus(RecipeDoneStatus);
        case Some(e) =>
          UpdateRecipePartial(ErrorMarkup("Error: ", e));
      }
    }

    /** `update_recipe_partial` */
    method UpdateRecipePartial(text: string)
      modifies this
      ensures recipe == text && labelHistory == old(labelHistory) + [text]
      ensures ingredientInput == old(ingredientInput) && status == old(status) && buttons == old(buttons)
    {
      recipe := text;
      labelHistory := labelHistory + [text];
    }

    /** `download_recipe_pdf`, given the builder's error if it raised one:
        refused while the label still shows the placeholder; otherwise the
        paragraph text handed to the builder is returned. */
    method DownloadRecipePdf(buildError: Option<string>) returns (paragraph: Option<string>)
      modifies this
      ensures ingredientInput == old(ingredientInput) && buttons == old(buttons) && recipe == old(recipe)
      ensures labelHistory == old(labelHistory)
      ensures ExportRefused(recipe) ==> paragraph == None && status == NoRecipeStatus
      ensures !ExportRefused(recipe) ==> paragraph == Some(PrepareExport(recipe))
      ensures !ExportRefused(recipe) && buildError.None? ==> status == SavedStatus(PdfFileName)
      ensures !ExportRefused(recipe) && buildError.Some? ==>
        status == ErrorMarkup("PDF Error: ", buildError.value)
    {
      var content := Strip(recipe);
      if RecipePlaceholderPrefix <= content {
        UpdateStatus(NoRecipeStatus);
        return None;
      }
      var cleanText := StripMarkup(content);
      paragraph := Some(ReplaceNewlines(cleanText));
      match buildError {
        case None =>
          UpdateStatus(SavedStatus(PdfFileName));
        case Some(e) =>
          UpdateStatus(ErrorMarkup("PDF Error: ", e));
      }
    }
  }

  /** The label as first shown cannot be exported. */
  lemma PlaceholderRefused()
    ensures ExportRefused(RecipePlaceholder)
  {
    assert Trimmed(RecipePlaceholder);
    StripTrimmed(RecipePlaceholder);
  }

  /** The loading message can be exported: it does not start with the placeholder. */
  lemma LoadingNotRefused()
    ensures !ExportRefused(LoadingRecipe)
  {
    var open := "[color=00aa00]";
    var rest := "[b]" + "Loading recipe..." + "[/b]" + "[/color]";
    assert LoadingRecipe == open + rest;
    assert open[0] == '[';
    assert rest[|rest| - 1] == ']';
    BracketedNotRefused(open + rest);
  }

  /** The placeholder starts with a letter. */
  lemma PlaceholderStart()
    ensures RecipePlaceholderPrefix != [] && RecipePlaceholderPrefix[0] == 'S'
  {
  }

  /** A label that starts with "[" and ends with "]" is not the placeholder. */
  lemma BracketedNotRefused(s: string)
    requires s != [] && s[0] == '[' && s[|s| - 1] == ']'
    ensures !ExportRefused(s)
  {
    assert Trimmed(s);
    StripTrimmed(s);
    PlaceholderStart();
  }

  /** Each dish button is captioned with a well-formed dish name. */
  lemma ButtonsAreNames(reply: string)
    ensures forall b :: b in ButtonsFor(ParseDishes(reply)) ==> IsDishName(b.text) && b.width >= 150
  {
    ParsedAreNames(reply);
    var ds := ParseDishes(reply);
    forall b | b in ButtonsFor(ds) ensures IsDishName(b.text) && b.width >= 150 {
      var i :| 0 <= i < |ds| && ButtonsFor(ds)[i] == b;
      assert ds[i] in ds;
    }
  }

  /** Every label the stream shows is already clean: cleaning it again changes nothing. */
  lemma StreamLabelsClean(deltas: seq<string>)
    ensures forall k :: 0 <= k < |deltas| ==> CleanText(StreamLabels(deltas)[k]) == StreamLabels(deltas)[k]
  {
    forall k | 0 <= k < |deltas| ensures CleanText(StreamLabels(deltas)[k]) == StreamLabels(deltas)[k] {
      CleanIdempotent(Concat(deltas[..k + 1]));
    }
  }
}

# AI Recipe Generator: the screen controller and its text processing

The application is a one-screen Kivy app (`main.py`). The user types some ingredients. A language model suggests dish names, and each name becomes a button. Pressing a button streams a recipe from the model into a label. The recipe can then be exported as a PDF.

This project models the sequential logic behind that screen. It covers:

- **`clean_recipe_text`** (modules `LineScan` and `RecipeFilter`). This is the line filter applied to the streamed recipe.
  - `LineScan` holds the scan with one flag. It works over any three line tests: header, unwanted keyword, and blank.
  - `RecipeFilter` supplies the application's tests and the loop as written (`CleanRecipeText`).
  - `RecipeFilterExample` works one example through end to end.
- **Dish-name parsing** (module `Dishes`). Newlines become commas, the text is split on commas, each piece is trimmed, and empty pieces are dropped.
- **Export text** (module `Export`). The label text is trimmed. Every tag matched by the non-greedy pattern `\[.*?\]` is removed, and that pattern's `.` never crosses a newline. Then each newline becomes `<br/>`.
- **The controller `RecipeAppLayout`** (module `Controller`). It is a class whose fields are the texts of the four widgets the methods read or change:
  - the ingredient field;
  - the status label;
  - the row of dish buttons, each with its caption and width;
  - the recipe label.

  Each method of the source is a method here. It states the widget texts it leaves behind and says that nothing else changes. A ghost field records every text the recipe label has shown, so the label's succession of texts during a stream is part of the state.
- **`Text`** holds the Python string operations the source uses: `strip`, `lower`, `split`, `join`, `replace`, substring tests and subsequences.
- **`Wrappers`** holds the `Option` and `Result` types.

The language model and the PDF builder are parameters:

- the reply text, or the message of the exception raised;
- the list of streamed chunks, plus the error if the stream broke off;
- the builder's error, if any.

A background thread is modelled by the caller running the thread's method right after the method that started it.

The proofs show two behaviours of the source, as written:

- The loading message is not the placeholder, so it can be exported (`LoadingNotRefused`).
- A stream that ends without any chunk leaves the loading message in place.

## Model

| member | source | states |
|---|---|---|
| Text.Strip | main.py:87 | `str.strip` with ASCII whitespace: the result has no whitespace at either end |
| Text.StripEmpty | main.py:183 | a line is blank after stripping exactly when every character is whitespace |
| Text.Lower | main.py:176 | `str.lower` on ASCII: each capital letter is replaced by its small letter, every other character kept; the length is kept |
| Text.Contains | main.py:177 | `w in s`: `w` occurs in `s` at some position |
| Text.SplitOn | main.py:171 | `s.split(sep)`: the pieces between the occurrences of `sep`, at least one, with an empty piece at either end when `s` starts or ends with `sep` |
| Text.JoinWith | main.py:185 | `sep.join(ls)`: the pieces with `sep` between neighbours, and "" for no pieces |
| Text.ReplaceChar | main.py:112 | `s.replace(a, b)` for one character: the same length, each `a` turned into `b` |
| Text.JoinSplit | main.py:171 | joining the pieces of `split(sep)` with `sep` gives back the text |
| Text.SplitJoin | main.py:185 | splitting a join of separator-free pieces gives back the pieces |
| LineScan.FlagAfter | main.py:173-182 | the value of `keep` after the loop has consumed the given lines: false at first, set by a header, cleared by an unwanted line, otherwise unchanged |
| LineScan.FilterLines | main.py:172-184 | the list `filtered` after the loop has consumed the given lines: each line is appended when it is a header, or when the flag after its unwanted test is set and it is non-blank |
| LineScan.FlagAfterIsLastMarker | main.py:173-182 | the flag is set exactly when the nearest earlier header-or-unwanted line is a header |
| LineScan.FilterIsKeptLines | main.py:171-184 | the output is exactly the lines that are headers, or that are non-blank, not unwanted and under a nearest marker that is a header, in input order |
| LineScan.KeptLinePlace | main.py:176-184 | a kept line follows the output of the lines before it; a line not kept adds nothing |
| LineScan.HeaderKept | main.py:177-180 | a header line is always kept, even one that also carries an unwanted keyword |
| LineScan.NothingBeforeFirstHeader | main.py:173-184 | no line before the first header is kept |
| LineScan.FilterPrefix | main.py:172-184 | the output for a prefix of the lines is a prefix of the output for all of them |
| LineScan.FilterIsCleaned | main.py:176-184 | the output is empty or opens with a header, and each kept non-header line is non-blank and free of unwanted keywords |
| LineScan.CleanedIsFixed | main.py:171-184 | lines of that shape pass through the filter unchanged |
| LineScan.FilterIdempotent | main.py:171-184 | filtering filtered lines changes nothing |
| LineScan.FilterSubseq | main.py:171-184 | the kept lines are a subsequence of the input lines, unaltered and in order |
| RecipeFilter.Normalized | main.py:176 | `line.lower().strip()` |
| RecipeFilter.IsHeader | main.py:177 | the normalized line contains "title:", "ingredients:" or "instructions:" |
| RecipeFilter.IsUnwanted | main.py:181 | the normalized line contains one of the six unwanted keywords |
| RecipeFilter.IsBlank | main.py:183 | the line strips to the empty string |
| RecipeFilter.CleanText | main.py:170-185 | the text split on newlines, filtered by the scan with these three tests, joined with newlines |
| RecipeFilter.CleanRecipeText | main.py:170-185 | the loop with its `keep` flag and `filtered` list returns `CleanText(text)` |
| RecipeFilter.CleanTextLines | main.py:171-185 | the result is the kept lines joined with newlines; its own lines are those kept lines, a subsequence of the input's lines |
| RecipeFilter.CleanEmpty | main.py:171-185 | the empty text cleans to the empty text |
| RecipeFilter.CleanIdempotent | main.py:170-185 | `clean_recipe_text(clean_recipe_text(x)) == clean_recipe_text(x)` |
| RecipeFilter.HeaderWordsCases | main.py:177 | a header contains one of "title:", "ingredients:", "instructions:" |
| RecipeFilter.UnwantedCases | main.py:174-181 | an unwanted line contains one of the six keywords, as substrings |
| RecipeFilter.HeaderHasColon | main.py:177 | a header line contains a colon |
| RecipeFilter.HeaderByLower | main.py:176-177 | a line whose lowered form is trimmed and carries a header word is a header |
| RecipeFilter.UnwantedByLower | main.py:176-181 | likewise for an unwanted keyword |
| RecipeFilter.PlainLine | main.py:174-183 | a visible line without a colon and without the letters g, t, n, s, e, c is neither a header, nor unwanted, nor blank |
| RecipeFilter.ScanShape | main.py:171-184 | seven lines: a preamble, two headers, an ordinary line, an unwanted line, a third header and an ordinary line; the preamble and the unwanted line are dropped, and both ordinary lines are kept |
| RecipeFilterExample.ExampleSplit | main.py:171 | the example text splits into its seven lines |
| RecipeFilterExample.ExampleFilter | main.py:172-184 | the example's seven lines filter to its five kept lines |
| RecipeFilterExample.CleanExample | main.py:170-185 | "Intro text\nTitle: X\nIngredients:\n- a\nTip: use fresh a\nInstructions:\n1. do" cleans to "Title: X\nIngredients:\n- a\nInstructions:\n1. do" |
| Dishes.TrimPieces | main.py:112 | `[p.strip() for p in pieces if p.strip()]`: the trimmed pieces, in order, without the empty ones |
| Dishes.ParseDishes | main.py:112 | newlines replaced by commas, the text split on commas, then the pieces trimmed and the empty ones dropped |
| Dishes.TrimPiecesShape | main.py:112 | every piece kept is non-empty and trimmed, and lacks any character that no input piece has |
| Dishes.ParsedAreNames | main.py:112 | every parsed dish is non-empty and trimmed, with no comma and no newline |
| Dishes.SingleDish | main.py:112 | a text without commas or newlines gives its trimmed self, or nothing when it is blank |
| Dishes.ParseJoined | main.py:112 | parsing well-formed names joined with ", " gives the names back in order, duplicates included and with no cap |
| Dishes.NoNewlineInJoin | main.py:112 | names without newlines joined with ", " contain no newline |
| Dishes.ThreeNames | main.py:112 | `a, b\nc` parses to `[a, b, c]` for any three well-formed names |
| Dishes.DishesExample | main.py:112 | "Pasta, Salad\nSoup" parses to ["Pasta", "Salad", "Soup"] |
| Export.CloseIn | main.py:215 | where a match from a "[" closes: the offset of the first "]" after it, or none when a newline or the end comes first; the offset lies inside the text |
| Export.StripMarkup | main.py:215 | `re.sub(r"\[.*?\]", "", s)` as a left-to-right scan: a "[" that closes drops everything up to and including its "]"; any other character is kept |
| Export.CloseInSome | main.py:215 | a match from "[" ends at the first "]" with no newline before it |
| Export.CloseInNone | main.py:215 | a match from "[" fails exactly when a newline comes before every "]" |
| Export.StripMarkupSubseq | main.py:215 | tag removal only deletes characters: the result is a subsequence of the text |
| Export.StripMarkupLine | main.py:215 | tags never span lines: a text is stripped line by line around each newline |
| Export.StripMarkupNoNewline | main.py:215 | tag removal adds no newline |
| Export.StripMarkupJoin | main.py:215 | stripping newline-joined lines is joining the stripped lines |
| Export.StripMarkupPerLine | main.py:215 | the stripped text has as many lines as the input, each the input line without its tags |
| Export.StripMarkupUnbracketed | main.py:215 | no "[" left in the result has a "]" after it on the same line |
| Export.StripMarkupFixed | main.py:215 | a text with no such "[" is unchanged |
| Export.StripMarkupIdempotent | main.py:215 | removing tags twice is removing them once |
| Export.TagDropped | main.py:215 | a leading tag is removed whole |
| Export.PlainKept | main.py:215 | text without "[" passes through unchanged |
| Export.Wrapped | main.py:215 | the text between an opening and a closing tag is what remains |
| Export.ExportExample | main.py:215 | "[color=00aa00]Title: X[/color]" becomes "Title: X" |
| Export.ReplaceNewlines | main.py:216 | `replace("\n", "<br/>")`: each newline turned into "<br/>", every other character kept |
| Export.ReplaceNewlinesJoin | main.py:216 | `replace("\n", "<br/>")` joins the lines with "<br/>" and leaves no newline |
| Export.PrepareExport | main.py:195-216 | the label text trimmed, its tags removed, its newlines turned into "<br/>" |
| Export.PrepareExportLines | main.py:195-216 | the paragraph text is the trimmed label's tag-free lines joined with "<br/>": it has no newline, and before the replacement no "[" closes on its own line (one whose "]" lies on a later line survives, see `SpanAcrossLines`) |
| Export.SpanAcrossLines | main.py:215 | a "[" whose "]" lies only on a later line is no tag: the whole span survives tag removal |
| Controller.ExportRefused | main.py:195-196 | the trimmed label text starts with "Selected recipe will appear here" |
| Controller.Concat | main.py:153-163 | `combined_text` after the given chunks: the chunks concatenated in order |
| Controller.StreamLabels | main.py:153-164 | the label texts shown during the stream: one per chunk, the cleaned concatenation of the chunks up to it |
| Controller.ButtonWidth | main.py:130 | the width is `max(150, 8 * len(dish))` |
| Controller.ButtonsFor | main.py:124-133 | one button per dish, in order, captioned with the dish and sized by `ButtonWidth` |
| Controller.PrefixImagesSnoc | main.py:153-164 | one more chunk adds one more label text and leaves the earlier ones |
| Controller.RecipeAppLayout.constructor | main.py:38-68 | the status and recipe labels start with their placeholder texts, with no buttons and an empty field |
| Controller.RecipeAppLayout.FindPossibleFoods | main.py:86-96 | blank input changes only the status, to the red warning; other input sets the "finding" status, clears the buttons, resets the recipe label and hands the trimmed input to the request |
| Controller.RecipeAppLayout.OllamaGenerateFoods | main.py:98-115 | a reply becomes the buttons for its parsed dishes, with the "select a dish" status; an exception puts "Error: " and its message in red on the status |
| Controller.RecipeAppLayout.UpdateStatus | main.py:117-119 | the status becomes the text; nothing else changes |
| Controller.RecipeAppLayout.UpdateFoodsGrid | main.py:121-133 | the status reads "Select a dish to see the recipe:" and the button row is replaced wholesale by one button per dish |
| Controller.RecipeAppLayout.PressDishButton | main.py:131 | pressing a button requests the recipe of its own caption |
| Controller.RecipeAppLayout.GetRecipe | main.py:135-140 | the status names the dish and the recipe label shows the loading message |
| Controller.RecipeAppLayout.OllamaGenerateRecipeStream | main.py:143-167 | the recipe label is written once per chunk, and the texts it shows (the ghost history) are, in order, the cleaned concatenations of chunks 1..k, followed by the error text on failure; on completion the status reads "Recipe generated."; on failure the recipe label, not the status, gets the error |
| Controller.RecipeAppLayout.UpdateRecipePartial | main.py:187-191 | the recipe label becomes the text and is appended to its history; nothing else changes |
| Controller.RecipeAppLayout.DownloadRecipePdf | main.py:194-220 | refused, with the red status and nothing built, exactly when the trimmed label starts with the placeholder; otherwise the paragraph is the prepared export text and the status reports success or the builder's error |
| Controller.PlaceholderRefused | main.py:194-198 | the placeholder label cannot be exported |
| Controller.LoadingNotRefused | main.py:194-198 | the loading message is not refused, so it can be exported |
| Controller.BracketedNotRefused | main.py:196 | a label that starts with "[" and ends with "]" is never refused |
| Controller.ButtonsAreNames | main.py:111-133 | every button from a reply is captioned with a well-formed dish name and is at least 150 wide |
| Controller.StreamLabelsClean | main.py:164-185 | every label the stream shows is already clean: cleaning it again changes nothing |

## Left out

- The KV layout (main.py:14-82) is not modelled beyond the two initial label texts. This covers the widget geometry, colours, the button colour (main.py:128) and the label's texture and height update (main.py:190-191). None of these affects a text.
- `threading.Thread` and `@mainthread` scheduling (main.py:94-96, 117, 121, 138-140, 187). Callbacks are delivered synchronously and in order. The race between overlapping background tasks, where the last write wins, is not modelled.
- `ollama.chat` (main.py:104-110, 154-162) is an external service. Its reply, chunks and exceptions are parameters. The prompt strings (main.py:99-102, 144-151) are constants without logic.
- The reportlab document, style and `doc.build` calls, and writing `recipe.pdf` (main.py:200-217). This is a foreign library plus file output. Only the paragraph text and the builder's error, if any, are kept.
- `str(e)` of an exception is taken as the given message.
- Unicode semantics of `strip` and `lower`. Only ASCII whitespace (space, `\t` to `\r`, `\x1c` to `\x1f`) and ASCII case are modelled.
- The general regular-expression engine. Only the one pattern `\[.*?\]` is modelled, as an explicit scan.
- Text.Lower: its contract states only that the length is kept. The case mapping itself is the comprehension, and the lemma `InLower` relates the two.

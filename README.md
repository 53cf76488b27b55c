# chefkoch-dl recipe model

A Dafny model of the recipe core of `chefkoch-dl`. The tool downloads a
recipe page from chefkoch.de, extracts the recipe and writes it to
`recipes/<name>.html`. The model covers three parts.

- The recipe data model (`recipe/recipe.py`), in `recipe.dfy`, module
  `Recipes`. A `Recipe` holds a title, a `RecipeIngredients` list of
  `RecipeIngredientSection`s and a list of instruction strings. Each of
  these grows by appending. The Python classes become Dafny classes whose
  methods reassign `seq` fields. Their ghost `Contents` and `Sections()`
  give the recipe's sections as plain values.
- The deterministic part of `ChefkochHTMLToRecipe` (`recipe/converters.py`),
  in `converters.dfy`, module `Converters`. This covers:
  - grouping ingredient-table rows into sections (`addIngredients`);
  - turning the preparation text into instruction steps (`getInstructions`);
  - the order of steps in `parseHTML`.

  The HTML lookups are abstracted. The converter receives the page title,
  the text of the preparation element and the rows. Each row is a pair of
  already stripped cell texts (amount, substance).
- The output file name (`DominateDocumentToHTMLFile.getFilename`), also in
  `converters.dfy`.

`pystr.dfy`, module `PyStr`, defines the Python string operations the code
uses (`strip`, `split`, `lower`) on ASCII text. `str.translate` is
modelled in `converters.dfy`. `Join` is not used by the code: it exists
only to state that `Split` loses nothing.

The grouping has two definitions:
- `Fold` processes rows one at a time, as the loop does. The loop method
  `AddIngredients` is proved against it.
- `Reference` is an independent grammar: `ingredient* (header ingredient*)*`,
  parsed from the right by `Parse`.

`GroupIsReference` proves that the two agree. The counting, title,
flattening and first-section properties are proved from the grammar.

### The section-header rule

A row is a section header when its stripped amount cell is empty
(`recipe/converters.py:67`). The substance has no influence. Some
descriptions of the tool require the substance to end in `:` as well. The
code does not check this, so this model does not either. For example, a
row with an empty amount and the substance `Salz` opens a section titled
`Salz`.

## Model

| member | source | states |
|---|---|---|
| Recipes.Ingredient | recipe/recipe.py:3-12 | an ingredient is a pair of an amount and a substance; its constructor takes the substance first, as the Python constructor does |
| Recipes.RecipeIngredientSection.constructor | recipe/recipe.py:15-17 | a new section has the given title (default empty) and no ingredient |
| Recipes.RecipeIngredientSection.AddIngredient | recipe/recipe.py:19-20 | appends `Ingredient(substance, amount)` at the end; the title is unchanged |
| Recipes.RecipeIngredients.constructor | recipe/recipe.py:29-30 | a new ingredient list has no section |
| Recipes.RecipeIngredients.AddSection | recipe/recipe.py:32-34 | appends one new, empty section with the given title; returns the receiver; earlier section objects are kept and the new one is a new object |
| Recipes.AppendToLast | recipe/recipe.py:36-37 | adding to the last section changes only that section: same length, same earlier sections, same last title, ingredients extended by one |
| Recipes.RecipeIngredients.AddIngredient | recipe/recipe.py:36-37 | appends the ingredient to the last section and to no other; needs a section, since `sections[-1]` fails on an empty list |
| Recipes.Recipe.constructor | recipe/recipe.py:43-46 | a new recipe has an empty title, no section and no instruction |
| Recipes.Recipe.SetTitle | recipe/recipe.py:48-49 | sets the title; sections and instructions are unchanged; the same ingredient-list object is kept |
| Recipes.Recipe.AddIngredientSection | recipe/recipe.py:51-52 | appends an empty section with the given title; title and instructions are unchanged; the same ingredient-list object is kept |
| Recipes.Recipe.AddIngredient | recipe/recipe.py:54-55 | takes (amount, substance) and stores an ingredient whose amount is `amount` and whose substance is `substance`, at the end of the last section; nothing else changes; the same ingredient-list object is kept |
| Recipes.Recipe.AddInstruction | recipe/recipe.py:57-58 | appends one instruction; title and sections are unchanged; the same ingredient-list object is kept |
| Recipes.Recipe.AddInstructions | recipe/recipe.py:60-61 | appends the given instructions in order; title and sections are unchanged; the same ingredient-list object is kept |
| PyStr.LeadingSpace | recipe/converters.py:47 | counts exactly the whitespace before the first non-whitespace character |
| PyStr.TrailingSpace | recipe/converters.py:47 | counts exactly the whitespace after the last non-whitespace character |
| PyStr.Strip | recipe/converters.py:47 | the result is no longer than the input and neither starts nor ends with whitespace |
| PyStr.StripSlice | recipe/converters.py:47 | the stripped text is a contiguous part of the input, and everything before and after it is whitespace |
| PyStr.StripEmpty | recipe/converters.py:47 | stripping gives the empty string exactly when the line is all whitespace |
| PyStr.StripIdempotent | recipe/converters.py:47 | stripping twice is stripping once |
| PyStr.Split | recipe/converters.py:46 | one piece more than there are separators, and no piece contains the separator |
| PyStr.JoinSplit | recipe/converters.py:46 | joining the pieces with the separator gives back the text |
| PyStr.Lower | recipe/converters.py:128 | the result is never an upper-case ASCII letter; an upper-case letter becomes its lower-case form, every other character is kept |
| PyStr.LowerStr | recipe/converters.py:128 | the same length, each character lower-cased |
| Converters.IsHeader | recipe/converters.py:67 | a row opens a section exactly when its stripped amount is empty; the substance plays no part |
| Converters.ToIngredient | recipe/converters.py:69-73 | the ingredient built from a row stores the row's amount as its amount and the row's substance as its substance |
| Converters.AddRow | recipe/converters.py:64-73 | one loop step: a header adds exactly one section, titled with its substance; any other row keeps the number of sections |
| Converters.Opening | recipe/converters.py:56-61 | before the loop, one untitled empty section is opened exactly when the first amount is not empty |
| Converters.Group | recipe/converters.py:50-73 | what `addIngredients` appends for the rows; never empty |
| Converters.Fold | recipe/converters.py:63-73 | never removes a section, and after at least one row there is a section |
| Converters.FoldStep | recipe/converters.py:63-73 | one loop iteration consumes one row |
| Converters.Parse | recipe/converters.py:56-73 | the leading ingredient list is empty exactly when there are no rows or the first row is a header |
| Converters.FoldIsParse | recipe/converters.py:63-73 | from any section list, the loop extends the last section with the leading ingredients and appends one section per header |
| Converters.ExtendOpened | recipe/converters.py:67-68 | filling a just-opened section gives that section the ingredients that follow |
| Converters.ExtendAppended | recipe/converters.py:69-73 | adding one ingredient and then the rest is adding all of them |
| Converters.ExtendByNothing | recipe/converters.py:63-73 | with no leading ingredients the sections are unchanged |
| Converters.GroupIsReference | recipe/converters.py:56-73 | the loop's result equals the grammar's description: an untitled section holding the leading ingredients (only when the first row is not a header), then one section per header holding the ingredient rows up to the next header |
| Converters.FoldKeepsPrefix | recipe/converters.py:63-73 | sections the recipe already had stay in front, unchanged |
| Converters.Titles | recipe/converters.py:68 | one title per section, in section order |
| Converters.ParseAccounts | recipe/converters.py:63-73 | one headed section per header row, titled with that row's substance, and every ingredient row exactly once, in order |
| Converters.GroupCount | recipe/converters.py:60-73 | the number of sections is the number of header rows, plus one when the first row is not a header |
| Converters.GroupTitles | recipe/converters.py:60-68 | the titles are `''` for the untitled first section (if any), then each header's substance, verbatim and in order |
| Converters.GroupFlatten | recipe/converters.py:63-73 | reading all sections in order gives exactly the non-header rows as ingredients, in order, so there are \|rows\| minus the header count of them |
| Converters.IngredientRowsLength | recipe/converters.py:67-73 | every non-header row yields one ingredient |
| Converters.GroupFirst | recipe/converters.py:56-68 | the first section is the untitled one holding the leading ingredients, or the section the first row opens when that row is a header |
| Converters.GroupWithoutHeaders | recipe/converters.py:56-73 | without any empty-amount row the result is one untitled section holding every row, in order |
| Converters.NoHeadersCounted | recipe/converters.py:67 | rows with no empty amount contain no header |
| Converters.GetInstructions | recipe/converters.py:44-48 | the steps of a preparation text: its lines split at line feeds, stripped, blank ones dropped; never more steps than lines |
| Converters.NonBlank | recipe/converters.py:47 | no more steps than lines |
| Converters.NonBlankAppend | recipe/converters.py:47 | filtering a concatenation filters each part, so steps keep the order of the lines |
| Converters.NonBlankMembers | recipe/converters.py:47 | every step is the stripped form of a line, and every line that is not blank yields its stripped form as a step |
| Converters.NonBlankIdempotent | recipe/converters.py:47 | filtering the steps again changes nothing |
| Converters.SourceLine | recipe/converters.py:47 | each step is the stripped form of a line that strips to something non-empty |
| Converters.NonBlankElements | recipe/converters.py:47 | every step is non-empty, with no whitespace at either end |
| Converters.NonBlankNoBreak | recipe/converters.py:46-47 | steps taken from lines without a line break have none |
| Converters.InstructionsShape | recipe/converters.py:44-48 | no more steps than lines of text; each step is non-empty, has no whitespace at either end and contains no line break |
| Converters.Translate | recipe/converters.py:128 | commas are deleted and spaces become hyphens: the length drops by the number of commas, and no space or comma is left |
| Converters.GetFilename | recipe/converters.py:126-128 | the name ends in `.html` |
| Converters.LowerKeepsCommas | recipe/converters.py:128 | lower-casing keeps every comma |
| Converters.FilenameShape | recipe/converters.py:126-128 | the stem is as long as the title without its commas and has no space, no comma and no upper-case ASCII letter |
| Converters.TranslateLower | recipe/converters.py:128 | translation introduces no upper-case letter |
| Converters.FilenameCharAt | recipe/converters.py:126-128 | each non-comma title character reappears in the name at its position minus the commas before it: a hyphen for a space, the lower-case form otherwise |
| Converters.StemCharAt | recipe/converters.py:128 | the same position property for the lower-cased, translated title |
| Converters.TranslateCharAt | recipe/converters.py:128 | each non-comma character reappears in the translation at its position minus the commas before it, a space as a hyphen |
| Converters.CountPrefix | recipe/converters.py:128 | the commas before a position are no more than the position, so the shifted position is inside the stem |
| Converters.CountAppend | recipe/converters.py:128 | commas in a concatenation add up |
| Converters.StemIsStable | recipe/converters.py:126-128 | a stem is its own stem: naming a title that is already a stem only appends `.html` |
| Converters.StableIfNormal | recipe/converters.py:128 | text without space, comma or upper-case letter is unchanged by lower-casing and translation |
| Converters.TranslateAppend | recipe/converters.py:128 | translation works piece by piece over a concatenation |
| Converters.ChefkochHTMLToRecipe.constructor | recipe/converters.py:35-38 | a new converter holds a new recipe whose title is the page title, whose instructions are the steps of the preparation text and whose sections are the grouping of the rows |
| Converters.ChefkochHTMLToRecipe.ParseHTML | recipe/converters.py:75-80 | sets the title, then appends the instruction steps, then the grouped sections |
| Converters.ChefkochHTMLToRecipe.AddIngredients | recipe/converters.py:50-73 | appends exactly `Group(rows)` to the recipe's sections, opening an untitled section first unless the first row is a header; title and instructions are unchanged |
| Converters.ChefkochHTMLToRecipe.AddRowToRecipe | recipe/converters.py:64-73 | one row: an empty amount opens a section titled with the substance, any other row is appended to the last section |

## Left out

- Networking: `UrlToHTML` (recipe/converters.py:26-32) performs the HTTP request. It is I/O.
- HTML parsing: the BeautifulSoup lookups are not modelled. This covers:
  - `getTitle` (recipe/converters.py:40-42);
  - the element search in `getInstructions` and `addIngredients`;
  - the cell `.text`.

  Their results are parameters: the title string, the preparation text and the rows of stripped cell texts.
- `Converter`: the base class (recipe/converters.py:12-24) stores its argument when it has the expected type, and otherwise stores the result of calling the argument's `get()`. The model has no such type dispatch and no `get`. The extractor receives the page content directly.
- Rendering: `RecipeToDominateDocument` builds an HTML document with the `dominate` library, and its `get_title` is library code.
- File output: `createFolder` and `writeFile` are filesystem I/O. The command-line script `chefkoch-dl.py` is not part of this model.
- Getters (`getTitle`, `getIngredients`, `getSections`, `getAmount` and others): these only return fields. The model reads the fields directly.
- Recipes.RecipeIngredients.AddIngredient: an empty section list is excluded by `requires`. The source raises `IndexError` there. `AddIngredients` never reaches this case, because it opens a section first.
- Recipes.Recipe.AddIngredient: a recipe without a section is excluded by `requires`, for the same `IndexError` on `sections[-1]`.
- Converters.ChefkochHTMLToRecipe.AddIngredients: an empty table is excluded by `requires |rows| > 0`. The source raises `IndexError` on `ingredients_in[0]`.
- Converters.ChefkochHTMLToRecipe.constructor: an empty ingredient table is excluded by `requires |rows| > 0`, the same `IndexError` in `addIngredients`.
- Converters.ChefkochHTMLToRecipe.ParseHTML: an empty ingredient table is excluded by `requires |rows| > 0`, the same `IndexError` in `addIngredients`.
- PyStr.Strip: whitespace is the ASCII whitespace of `str.isspace()`: tab through carriage return (U+0009–U+000D), U+001C–U+001F and space. Python also strips non-ASCII whitespace such as U+0085, U+00A0 and U+2028; the model does not.
- PyStr.LowerStr: only ASCII `A`–`Z` are lower-cased. Python's `lower()` also maps non-ASCII letters such as `Ä`.
- Converters.IsHeader: the optional trailing-colon condition is not applied, because the code tests only the empty amount.
- Section ownership: each section has a ghost `Position` that records its index. This is proof bookkeeping and not in the source.
- Concrete examples with literal titles and texts are stated only as general properties. No literal instances are proved.

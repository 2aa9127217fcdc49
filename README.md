# satisfy: the Gherkin model builder and the scenario-outline expander

This project models the core of `satisfy`, which turns a Gherkin feature file into an object model for a
test runner. The Gherkin parser reads the file and calls the **builder** once per structural element
(feature, scenario, background, scenario outline, step, examples). The builder keeps an ordered list
`specs` of features plus two pointers: the *current feature* and the *current context*, which is the
scenario, background or outline whose steps are being collected. An examples block makes the current
outline **expand**: every data row gives one new scenario whose steps are the template steps with their
`<placeholder>` tokens substituted.

Modules:

- `Wrappers`: `Option`, standing for Ruby's `nil` or a present value.
- `Gherkin`: the parser's representation objects as plain records (name, line, tags, keyword,
  optional doc-string value, optional rows).
- `Steps`: the immutable `Step` record and its arguments. An argument is a doc-string text or a table,
  and a table is a list of rows of cells.
- `Tags`: `tags` (one line-start `@` stripped per tag), `tags_hash`.
- `Substitution`: `swap`, i.e. `gsub(/<([^>]*)>/) { Hash[headers.zip(row)][$1] }`. The recursive
  function `Gsub` scans left to right. A match is a `<` that some later `>` closes, and it runs to the
  first `>`. The replacement is the value of the last pair whose header equals the token; a miss or a
  `nil` renders as the empty string, and the replacement is not rescanned. `GsubFillsTemplate` and
  `Decompose` together determine `Gsub` on every string. Every string is a template of literal text
  and `<token>` holes followed by a tail without a match, and `Gsub` replaces each hole by its
  token's value.
- `Outline`: `rows_to_scenarios` as the pure function `Expand`.
- `Satisfy`: the classes. `Builder` has the fields `specs`, `currentFeature` and `currentContext` and
  one method per callback. `Feature` holds `scenarios` and `backgrounds`. `StepContainer` stands for
  `Scenario`, `Background` and `ScenarioOutline`, which share their shape: a constant `kind`, the
  header it was built from and a `steps` list. Each callback's `modifies` clause names the single
  fields it may write, such as `currentFeature`scenarios`. So the frame itself says that no other
  list or pointer changes.

Behaviour of the code that the model keeps:

- A step's doc-string argument is substituted with `swap(arg, headers, rows)`, which passes all data
  rows, not the current row (lib/satisfy/builder.rb:169). So header *i* takes data row *i* as a whole,
  and Ruby renders that array with `Array#to_s`. The model keeps this. The parameter
  `render: seq<string> -> string` stands for `Array#to_s`. `Outline.DocStringTakesDataRow` proves
  two things: a placeholder takes the current row's cell in a step name or table cell, and takes
  `render(dataRows[i])` in a doc-string, whatever the current row is.
- `sub(/^@/, '')` removes the first `@` at the start of a *line*, because Ruby's `^` also matches
  after a newline. For a one-line tag this is exactly "strip a leading `@`" (`Tags.StripTagOneLine`).
- A feature event does not reset the current context. A step that follows a new feature without a
  new scenario still goes to the previous context.
- With no examples row at all, `rows.shift` gives `nil` and the expansion is empty. With *k* rows it
  has *k* − 1 scenarios.
- A step whose `rows` is present but empty still gets a table argument. This is because an empty
  Ruby array is truthy.

## Model

| member | source | states |
|---|---|---|
| `Steps.Step.ToString` | lib/satisfy/builder.rb:129-133 | the step's text is its keyword immediately followed by its name |
| `Tags.StripTagRemovesFirstMarker` | lib/satisfy/builder.rb:84 | stripping removes exactly the first `@` that starts a line, and nothing else |
| `Tags.StripTagWithoutMarker` | lib/satisfy/builder.rb:84 | a tag name with no line-start `@` is unchanged |
| `Tags.StripTagOneLine` | lib/satisfy/builder.rb:84 | a one-line tag loses its leading `@` if it has one, and is otherwise unchanged |
| `Tags.Tags` | lib/satisfy/builder.rb:83-85 | one stripped name per tag, in the same order |
| `Tags.TagsHash` | lib/satisfy/builder.rb:87-89 | the keys are exactly the stripped tags, each mapped to `true` |
| `Satisfy.Feature.MetadataHash` | lib/satisfy/builder.rb:111-113 | `type` maps to the spec type and `satisfy` to `true`; every tag appears; every other key is a tag mapped to `true` |
| `Satisfy.StepArgs` | lib/satisfy/builder.rb:43-50 | the doc-string value comes first when present, then the table of rows when present; with neither the list is empty |
| `Satisfy.Feature.constructor` | lib/satisfy/builder.rb:105-109 | a new feature keeps its header and has no scenarios and no backgrounds |
| `Satisfy.StepContainer.constructor` | lib/satisfy/builder.rb:123-126 | a new scenario, background or outline keeps its header and has no steps |
| `Satisfy.Builder.constructor` | lib/satisfy/builder.rb:20-22 | `specs` starts empty and neither pointer is set |
| `Satisfy.Builder.OnFeature` | lib/satisfy/builder.rb:32-35 | exactly one new, empty feature is appended to `specs` and becomes current; earlier entries and the current context are untouched |
| `Satisfy.Builder.OnScenario` | lib/satisfy/builder.rb:37-40 | given a current feature: a new scenario becomes the context and is appended to that feature's `scenarios` only |
| `Satisfy.Builder.OnBackground` | lib/satisfy/builder.rb:55-58 | given a current feature: a new background becomes the context and is appended to that feature's `backgrounds` only |
| `Satisfy.Builder.OnScenarioOutline` | lib/satisfy/builder.rb:60-62 | a new outline becomes the context; no list changes |
| `Satisfy.Builder.OnStep` | lib/satisfy/builder.rb:42-53 | given a context: exactly one step, with its keyword, name, line and arguments, is appended to the context's steps; nothing else changes |
| `Satisfy.Builder.OnExamples` | lib/satisfy/builder.rb:64-66 | given a feature and an outline context: the expansion's scenarios are appended to the feature's `scenarios` in row order; the existing scenarios are kept and nothing else is written |
| `Satisfy.StepContainer.RowsToScenarios` | lib/satisfy/builder.rb:158-180 | one fresh, distinct scenario per expanded row, in order; each shares the outline's header and holds that row's steps |
| `Satisfy.Builder.Build` | lib/satisfy/builder.rb:7-14 | for a stream in which no callback fails, `specs` holds one feature per feature event, with that event's header, in event order |
| `Substitution.LookupLastWins` | lib/satisfy/builder.rb:189 | `Hash[pairs][key]` is the value of the last pair with that key |
| `Substitution.LookupMiss` | lib/satisfy/builder.rb:189 | a key that no pair has looks up `nil` |
| `Substitution.HeaderLookup` | lib/satisfy/builder.rb:189 | under the last header with a given name, the value is the row's cell at that index, or `nil` when the row is too short |
| `Substitution.HeaderMiss` | lib/satisfy/builder.rb:189 | a token that is no header looks up `nil` |
| `Substitution.GsubNoMatch` | lib/satisfy/builder.rb:187-191 | a string with no `<` that a later `>` closes is returned unchanged |
| `Substitution.GsubHole` | lib/satisfy/builder.rb:188-189 | a leading `<token>` (token without `>`) is one match, replaced by the token's value; the rest is scanned after it |
| `Substitution.GsubFillsTemplate` | lib/satisfy/builder.rb:187-191 | every placeholder of a template is replaced by its token's value, left to right, and a trailing part without a match is kept |
| `Substitution.Decompose` | lib/satisfy/builder.rb:188 | every string splits into such a template and tail, so `GsubFillsTemplate` covers all inputs |
| `Substitution.SwapOnePlaceholder` | lib/satisfy/builder.rb:187-191 | text around a single placeholder is kept and the placeholder takes the current row's value for its header |
| `Substitution.SwapToken` | lib/satisfy/builder.rb:187-191 | a placeholder naming header *i* takes row cell *i*, or becomes empty when the row is short |
| `Substitution.SwapMissingToken` | lib/satisfy/builder.rb:187-191 | a placeholder that names no header becomes the empty string |
| `Substitution.SwapTokenRunsToFirstClose` | lib/satisfy/builder.rb:188 | `<a<b>` is the single token `a<b` |
| `Substitution.SwapLeavesOpenBracket` | lib/satisfy/builder.rb:188 | a `<` with no closing `>` is left in place |
| `Substitution.SwapDoesNotRescan` | lib/satisfy/builder.rb:188-190 | a value that itself looks like a placeholder is inserted literally |
| `Outline.SwapTable` | lib/satisfy/builder.rb:171 | the new table has the template's rows and row lengths, and each cell is substituted against the current row |
| `Outline.ExpandArg` | lib/satisfy/builder.rb:166-175 | a doc-string stays a doc-string and a table stays a table |
| `Outline.ExpandStep` | lib/satisfy/builder.rb:164-177 | keyword and line are kept and the name is substituted against the row; the step has the same number of arguments, each keeping its kind; a doc-string is substituted against all data rows and a table cell by cell |
| `Outline.Expand` | lib/satisfy/builder.rb:158-180 | with *k* > 0 examples rows, *k* − 1 scenarios in data-row order (none for no rows); each has one step per template step, step *j* being template step *j* expanded for that row |
| `Outline.ExpandPlaceholderFreeStep` | lib/satisfy/builder.rb:164-177 | a step with no placeholder in its name, doc-strings or cells expands to itself |
| `Outline.DocStringTakesDataRow` | lib/satisfy/builder.rb:165-171 | for header *i*, a step-name placeholder takes row cell *i*, but the same placeholder in a doc-string takes the rendering of data row *i*, whatever the current row |
| `Outline.WidgetsExample` | lib/satisfy/builder.rb:158-179 | `I have <n> widgets` with rows `n`, `a`, `b` expands to `I have a widgets` then `I have b widgets`, keeping keyword and line |

## Left out

- `Builder.build` reads a file and runs the external Gherkin parser. File reading and parsing are not
  modelled. `Satisfy.Builder.Build` takes the resulting callback sequence as an event-stream
  parameter. Its precondition `WellNested` says that no callback dereferences an unset pointer or
  calls an outline-only method on another kind. The Ruby code raises an exception in those cases,
  and the model does not represent the exception.
- `uri` and `eof` do nothing, so they are not modelled.
- `Satisfy.type` is defined outside this file. It is the parameter `specType` of
  `Feature.MetadataHash`.
- `Satisfy::Table` (lib/satisfy/table.rb) is not part of this model. A table is its list of rows.
- The unused `feature_tag` accessor is not modelled.
- `Array#to_s`, used when line 169 renders a data row into a doc-string, is the parameter `render`.
  Nothing is assumed about it.
- The `name` and `line` accessors only forward the header's fields, so the model reads `repr.name`
  and `repr.line` directly. The code gives `ScenarioOutline` no `line` and `Background` no `tags`;
  the model does not represent those missing accessors.
- `Tags#metadata_hash` for a scenario or outline is `tags_hash` itself, which is `Tags.TagsHash`.
- Ruby symbols used as hash keys are modelled as the strings they are made from.
- `scenario` and `background` assign the context before they dereference the feature. The partial
  update that comes before that failure is not modelled, because the methods require a current
  feature.
- The `case` in `rows_to_scenarios` has no branch for an argument that is neither a String nor a
  Table. The builder never creates such an argument, so the model has no such branch.

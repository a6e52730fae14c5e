# Synthetic data generator: a Dafny model

This project models the core of a browser tool that generates synthetic
tabular data. A user describes a schema as an ordered list of columns, each
with a name, a type tag and optional options. The generator fills a given
number of records, one sampled value per column, and the records can be
exported as CSV. Around that core sit the pieces of page logic that the
model also covers:

- the schema editor's list updates;
- the three-step wizard that drives the page;
- the step indicator;
- the preview table.

Modules, one per file:

| module | file | what it holds |
|---|---|---|
| `Basics` | basics.dfy | the optional value standing for `undefined`, with `??`; integer min and max |
| `Text` | text.dfy | `join`, `split`, decimal rendering of naturals and parsing them back |
| `JsObject` | js_object.dfy | plain objects: creation-ordered properties, assignment, `Object.keys` order (array-index keys first, in ascending order) |
| `Schema` | schema.dfy | the `Column` and `GenerationConfig` shapes and the type tags |
| `Samplers` | samplers.dfy | the string, number, boolean and date samplers |
| `Generation` | generation.dfy | `generateSyntheticData` |
| `CsvExport` | csv_export.dfy | the CSV text built by `exportAsCSV` and its empty guard |
| `Pipeline` | pipeline.dfy | what the CSV encoder makes of generated data; a worked two-column scenario |
| `SchemaBuilder` | schema_builder.dfy | add, remove, rename, retype, merge options; the remove guard |
| `Wizard` | wizard.dfy | step navigation, the fallback schema, the generate, regenerate and export handlers |
| `Stepper` | stepper.dfy | per-step status, connector, badge, click and disabled state |
| `DataPreview` | data_preview.dfy | empty guard, columns from the first record, the first-100 window, caption and cells |

How the world outside the code enters the model:

- **Randomness.** `Math.random` is a stream of draws `rng: nat -> Draw`, where a draw is a real in [0, 1). Each call takes the next position, so generation is a pure function of the stream.
- **Rounding.** `Number(x.toFixed(d))` is a parameter `round`. `toFixed` raises `RangeError` for a digit count outside 0 to 100, and the model keeps that check.
- **Number text.** Rendering a number as text is a parameter `show`.
- **Dates.** The two clock readings are parameters. So is the mapping from an instant to its UTC calendar day.

## Model

| member | source | states |
|---|---|---|
| `Text.SplitJoin` | src/services/dataGenerationService.ts:112-115 | splitting text that was joined with a separator gives back the pieces, provided there is at least one piece and no piece holds the separator (joining no pieces gives `""`, which splits into one empty piece) |
| `Text.SplitJoinNeedsFreedom` | src/services/dataGenerationService.ts:110-112 | without those provisos the round trip fails: a single piece holding a comma comes back as two pieces, and no pieces at all come back as one empty piece |
| `Text.JoinFree` | src/services/dataGenerationService.ts:112-115 | joining pieces that avoid a character, with another separator, gives text that avoids that character |
| `Text.ParseNatToString` | src/components/data-generator/SchemaBuilder.tsx:31 | the decimal text written for an id parses back to the same number |
| `Text.NatToStringInjective` | src/components/data-generator/SchemaBuilder.tsx:31 | different numbers get different decimal texts |
| `JsObject.Lookup` | src/services/dataGenerationService.ts:108 | reading an own property finds a value exactly when that key was assigned; any other name reads as `undefined`, which is exact for every name `Object.prototype` does not carry |
| `JsObject.Put` | src/services/dataGenerationService.ts:68-83 | `record[k] = v` keeps the key order when `k` is already a property, and otherwise appends `k` as the last key |
| `JsObject.PutLookup` | src/services/dataGenerationService.ts:68-83 | after `record[k] = v`, reading `k` gives `v` and every other key reads as before |
| `JsObject.PutWellFormed` | src/services/dataGenerationService.ts:63-85 | assignment never creates a second property with the same key |
| `JsObject.SortIndexKeys` | src/services/dataGenerationService.ts:99 | array-index keys come out in ascending numeric order, as a permutation of the input keys |
| `JsObject.Keys` | src/services/dataGenerationService.ts:99 | `Object.keys` lists exactly the object's own keys, each once: the same multiset as creation order, one key per property |
| `JsObject.KeysShape` | src/services/dataGenerationService.ts:99 | `Object.keys` lists each property once: first the array-index keys in ascending order, then the other keys in creation order |
| `JsObject.KeysWithoutIndices` | src/components/data-generator/DataPreview.tsx:19 | when no key looks like an array index, `Object.keys` is exactly creation order |
| `Schema.TagOf` | src/services/dataGenerationService.ts:66-81 | each recognised kind has a tag spelling that the type switch maps back to it |
| `Schema.KindOfRecognises` | src/services/dataGenerationService.ts:66-84 | a tag is recognised exactly when it spells one of the four kinds; every other tag falls to the default branch |
| `Samplers.LettersAreTheLatinAlphabet` | src/services/dataGenerationService.ts:22 | the alphabet has 52 characters: `A` to `Z`, then `a` to `z` |
| `Samplers.PickLetter` | src/services/dataGenerationService.ts:25 | each draw selects a letter of the alphabet |
| `Samplers.PickLetterCovers` | src/services/dataGenerationService.ts:25 | every one of the 52 letters is selected by some draw |
| `Samplers.RandomString` | src/services/dataGenerationService.ts:21-28 | a string of length n has n characters, each a letter, the i-th chosen by the i-th draw |
| `Samplers.GenerateString` | src/services/dataGenerationService.ts:21-28 | the loop builds exactly that string (empty for a length of zero or less) and uses one draw per character |
| `Samplers.RawNumberRange` | src/services/dataGenerationService.ts:32 | the value before rounding lies in [min, max) when min < max, is min when they are equal, and lies in (max, min] when min > max |
| `Samplers.GenerateNumber` | src/services/dataGenerationService.ts:31-34 | a number is produced exactly when the digit count is in 0 to 100 (otherwise `RangeError`), and it is the rounding of a value in that sample range |
| `Samplers.GenerateBoolean` | src/services/dataGenerationService.ts:37-39 | the boolean is true exactly for draws in (0.5, 1) and false exactly for draws in [0, 0.5] |
| `Samplers.InstantInRange` | src/services/dataGenerationService.ts:43-45 | the sampled instant lies between the start date and now |
| `Samplers.FormatIsoDate` | src/services/dataGenerationService.ts:46 | the date text has the `YYYY-MM-DD` shape |
| `Samplers.ParseFormatIsoDate` | src/services/dataGenerationService.ts:46 | reading the date text back gives the calendar day it was written from |
| `Samplers.GenerateDate` | src/services/dataGenerationService.ts:42-47 | the sampled date is `YYYY-MM-DD` text naming the UTC day of an instant in the range |
| `Generation.NumberSettingsDefaults` | src/services/dataGenerationService.ts:71-73 | missing options default to min 0, max 100 and 0 decimals; present options are used as given |
| `Generation.SampleColumn` | src/services/dataGenerationService.ts:66-84 | a value is produced exactly when the column does not make `toFixed` throw; it matches the column's kind (8 letters, a rounded number in range, a boolean, a date, or `null` for an unknown tag) and uses that kind's number of draws |
| `Generation.BuildRecord` | src/services/dataGenerationService.ts:65-85 | filling a record completes exactly when no column throws |
| `Generation.SamplerIsSampleColumn` | src/services/dataGenerationService.ts:66-84 | for a column that does not throw, the sampled value is the one the type switch produces from the same draws, and it conforms to the column |
| `Generation.ScanAt` | src/services/dataGenerationService.ts:65-85 | when columns are sampled in schema order from one draw stream, column j reads the draws that come after all the draws of the columns before it |
| `Generation.ColumnSampleAt` | src/services/dataGenerationService.ts:65-85 | so column j's sample in a record is its sampler's value at the record's start plus the draws of columns 0 to j - 1 |
| `Generation.BuildRecordSamples` | src/services/dataGenerationService.ts:65-85 | in a filled record, each name holds exactly the value sampled for the last column with that name |
| `Generation.BuildRecordSpec` | src/services/dataGenerationService.ts:63-85 | a filled record adds the column names after the existing keys, in first-occurrence order; it uses exactly one record's draws; keys outside the schema keep their values; each name holds exactly the value sampled for the last column with that name, which conforms to that column |
| `Generation.FreshRecordConforms` | src/services/dataGenerationService.ts:63-85 | a record built from an empty object has exactly the schema's names as keys; each value is exactly the sample of the last column of that name, and it conforms to that column |
| `Generation.BuildRecords` | src/services/dataGenerationService.ts:62-88 | n records are produced (none when n is 0) exactly when no column throws |
| `Generation.RecordStartIsProduct` | src/services/dataGenerationService.ts:62-85 | record i starts reading the draws after i records' worth of draws |
| `Generation.RecordIsFilledAt` | src/services/dataGenerationService.ts:62-88 | record i of the loop is the record filled from an empty object at that starting position |
| `Generation.RecordConformsAt` | src/services/dataGenerationService.ts:62-88 | record i conforms to the schema and holds exactly the samples taken from its own starting position |
| `Generation.BuildRecordsConform` | src/services/dataGenerationService.ts:62-88 | every record of the loop conforms to the schema |
| `Generation.GenerateSyntheticData` | src/services/dataGenerationService.ts:50-93 | the promise resolves exactly when the count is at most 0 or no column throws; it then holds `max(count, 0)` records, each conforming to the schema |
| `Generation.GeneratedRecordsHoldSamples` | src/services/dataGenerationService.ts:50-93 | record i of a settled batch holds, under each name, exactly the value the last column of that name samples from draw position i times the draws of one record, plus the draws of the columns before it |
| `Generation.OnlyRecordCountIsRead` | src/services/dataGenerationService.ts:62 | configurations that agree on `recordCount` give the same result |
| `Generation.KeysAgreeAcrossRecords` | src/services/dataGenerationService.ts:63-85 | every record reports the same `Object.keys`: the schema's distinct names in key order, which are exactly its names |
| `Generation.UnknownColumnsAreNull` | src/services/dataGenerationService.ts:82-83 | a column with an unknown tag holds `null` in every record, and the batch is still complete |
| `Generation.AppendNew` | src/services/dataGenerationService.ts:65 | the key list after assignments holds exactly the old keys and the assigned names |
| `Generation.DistinctOfUnique` | src/services/dataGenerationService.ts:65 | a schema without repeated names gives keys in schema order |
| `CsvExport.FieldText` | src/services/dataGenerationService.ts:107-111 | a string value becomes the value between two double quotes; a boolean becomes `true` or `false`; a number becomes its number text; `null` and `undefined` become the empty field |
| `CsvExport.RowFields` | src/services/dataGenerationService.ts:107-111 | a row has one field per header, each the text of the row's value under that header |
| `CsvExport.RowLine` | src/services/dataGenerationService.ts:112 | a row line holds no newline when no field does, and splitting it at commas gives the fields back when there is at least one header and no field holds a comma |
| `CsvExport.CsvRows` | src/services/dataGenerationService.ts:99-113 | the lines are the header line (the first record's keys joined by commas), then one line per record, in order, each read through the first record's keys |
| `CsvExport.ExportAsCsv` | src/services/dataGenerationService.ts:96-126 | an empty array gives no download at all; otherwise a `text/csv;charset=utf-8;` file named `synthetic_data_<now>.csv` whose content is the lines joined by newlines |
| `CsvExport.CsvLineCount` | src/services/dataGenerationService.ts:99-115 | when no line holds a newline, the content has `1 + data.length` lines, and the first is the header |
| `CsvExport.UnescapedCommaSplitsField` | src/services/dataGenerationService.ts:109-112 | a string holding a comma turns into two fields when the line is split at commas, so the row no longer lines up with the header |
| `Pipeline.GeneratedFieldIsPlain` | src/services/dataGenerationService.ts:66-81 | generated strings and dates hold no comma or newline, so their fields hold none either when number text holds none |
| `Pipeline.CsvIsRectangular` | src/services/dataGenerationService.ts:99-115 | when the first record has at least one key and the headers and fields hold no comma or newline, the CSV reads back as a header row plus one row per record, each row with one field per header |
| `Pipeline.GeneratedCsvIsRectangular` | src/services/dataGenerationService.ts:62-115 | for a non-empty schema whose column names hold no comma or newline, with number text that holds none either, the CSV of a non-empty generated batch reads back as `1 + count` rows; the header row is the schema's distinct names in key order, and every row has as many fields as the header |
| `Pipeline.IdActiveGenerates` | src/services/dataGenerationService.ts:62-85 | an `id` number column with range 1 to 5 and 0 decimals, plus an `active` boolean column, with 3 records: the batch settles with 3 records; each `id` is a rounding to 0 decimals of a value in [1, 5), and each `active` is a boolean |
| `Pipeline.IdActiveExport` | src/services/dataGenerationService.ts:96-115 | the export of that batch reads back as 4 rows of 2 fields, with header `id`, `active` |
| `SchemaBuilder.InitialColumnsHealthy` | src/components/data-generator/SchemaBuilder.tsx:24-28 | the editor starts with ids 1, 2, 3 in order: distinct, and none missing |
| `SchemaBuilder.AddColumn` | src/components/data-generator/SchemaBuilder.tsx:30-33 | one column is appended and the existing ones are unchanged; the new column is a string column with no options, its id is exactly the decimal text of length + 1 (so it parses back to that number), and its name is `column_` + id |
| `SchemaBuilder.AddColumnFresh` | src/components/data-generator/SchemaBuilder.tsx:30-33 | the corrected append: as above, but the new id differs from every id already in use |
| `SchemaBuilder.FreshAgreesWhileNumbered` | src/components/data-generator/SchemaBuilder.tsx:30-33 | while the ids are still 1 to n in order, the corrected append does exactly what the original does, and the ids stay numbered in order |
| `SchemaBuilder.AddColumnFreshKeepsIdsDistinct` | src/components/data-generator/SchemaBuilder.tsx:30-33 | the corrected append keeps all ids distinct |
| `SchemaBuilder.RemoveColumn` | src/components/data-generator/SchemaBuilder.tsx:35-37 | the survivors are exactly the columns with another id, and the list shrinks by the number of columns carrying the id |
| `SchemaBuilder.RemoveColumnConcat` | src/components/data-generator/SchemaBuilder.tsx:35-37 | removal works piecewise over concatenation, so survivors keep their relative order |
| `SchemaBuilder.RemoveColumnIdempotent` | src/components/data-generator/SchemaBuilder.tsx:35-37 | removing an id twice is the same as removing it once |
| `SchemaBuilder.RemoveKeepsIdsDistinct` | src/components/data-generator/SchemaBuilder.tsx:35-37 | removal keeps ids distinct |
| `SchemaBuilder.GuardedRemovalKeepsAColumn` | src/components/data-generator/SchemaBuilder.tsx:172 | with distinct ids, a removal the button allows (more than one column) leaves at least one column |
| `SchemaBuilder.UpdateColumnName` | src/components/data-generator/SchemaBuilder.tsx:39-41 | only the names of columns with the id change, to the new name; length, order, ids, types and options stay |
| `SchemaBuilder.UpdateColumnNameLastWins` | src/components/data-generator/SchemaBuilder.tsx:39-41 | renaming twice keeps only the last name |
| `SchemaBuilder.UpdateColumnType` | src/components/data-generator/SchemaBuilder.tsx:43-64 | columns with the id take the new type, and their options become exactly `{min: 0, max: 100}` for `number` and exactly `{}` otherwise; names, ids and all other columns stay |
| `SchemaBuilder.MergeOptions` | src/components/data-generator/SchemaBuilder.tsx:67 | a key present in the patch wins; every other key keeps its old value; missing options spread as `{}` |
| `SchemaBuilder.UpdateColumnOptions` | src/components/data-generator/SchemaBuilder.tsx:66-68 | only columns with the id change, and their options become the merge of old options and patch |
| `SchemaBuilder.MergeOptionsTwice` | src/components/data-generator/SchemaBuilder.tsx:67 | two merges in a row equal one merge of the combined patch, in which later keys win |
| `SchemaBuilder.UpdateColumnOptionsIdempotent` | src/components/data-generator/SchemaBuilder.tsx:66-68 | merging the same patch twice is the same as merging it once |
| `SchemaBuilder.TypeChangeDiscardsOptionEdits` | src/components/data-generator/SchemaBuilder.tsx:43-68 | a type change discards option edits made before it |
| `SchemaBuilder.ApplyFreshKeepsHealthy` | src/components/data-generator/SchemaBuilder.tsx:172 | with the corrected append, every edit keeps at least one column and distinct ids |
| `SchemaBuilder.RunFreshKeepsHealthy` | src/components/data-generator/SchemaBuilder.tsx:172 | with the corrected append, no sequence of edits empties the list or repeats an id |
| `SchemaBuilder.AddColumnAsWrittenEmptiesTheList` | src/components/data-generator/SchemaBuilder.tsx:30-37 | with the original append, four enabled clicks from the initial list leave no columns at all |
| `Wizard.HandleNext` | src/pages/DataGenerator.tsx:41-49 | the step becomes `min(step + 1, 2)`; leaving step 0 stores the fallback schema; spinner and data stay |
| `Wizard.HandlePrevious` | src/pages/DataGenerator.tsx:51-53 | the step becomes `max(step - 1, 0)`, and nothing else changes |
| `Wizard.HandleStepClick` | src/pages/DataGenerator.tsx:55-60 | a click on a step at or before the current one moves there; a click ahead leaves the page unchanged |
| `Wizard.StepClickNeverAdvances` | src/pages/DataGenerator.tsx:55-60 | a step click never moves forward |
| `Wizard.PreviousThenNext` | src/pages/DataGenerator.tsx:41-53 | Back then Next returns to any step after the first |
| `Wizard.GenerationColumns` | src/pages/DataGenerator.tsx:65 | generation uses the stored columns when there are any, and the fallback otherwise; either way the schema is non-empty |
| `Wizard.AfterGeneration` | src/pages/DataGenerator.tsx:66-74 | a settled batch replaces the data and clears the spinner; a promise that never settles leaves the spinner on and the old data |
| `Wizard.HandleGenerateData` | src/pages/DataGenerator.tsx:62-75 | the same for a batch from the generation schema; the step and the stored schema never change |
| `Wizard.HandleRegenerate` | src/pages/DataGenerator.tsx:91-111 | nothing happens without stored columns; otherwise it does what generate does with 1000 records |
| `Wizard.HandleExportCsv` | src/pages/DataGenerator.tsx:77-82 | without data nothing happens; with data the success message appears, and a file is produced exactly when the data is non-empty |
| `Wizard.HandleExportJson` | src/pages/DataGenerator.tsx:84-89 | the JSON exporter is called exactly when there is data |
| `Wizard.ActKeepsReachable` | src/pages/DataGenerator.tsx:41-111 | every handler keeps the step in 0 to 2 and the stored schema either empty or the fallback |
| `Wizard.RunKeepsReachable` | src/pages/DataGenerator.tsx:20-60 | from the first render, any sequence of actions with step indices of 0 or more keeps the step in 0 to 2 |
| `Wizard.ReachableGeneratesFallback` | src/pages/DataGenerator.tsx:28-65 | on every reachable page, generation uses the six-column fallback schema |
| `Wizard.FallbackGenerates` | src/pages/DataGenerator.tsx:28-39 | the fallback schema always settles, with the requested number of records, each keyed by its six names in schema order |
| `Wizard.ReachableGenerationSettles` | src/pages/DataGenerator.tsx:62-75 | on a reachable page, generate always clears the spinner and stores a full batch |
| `Wizard.IndicatorClicks` | src/pages/DataGenerator.tsx:55-60 | a click on indicator step i reports i, and the page moves there exactly when that step is not upcoming |
| `Stepper.ViewStep` | src/components/ui/stepper.tsx:17-48 | step i has the completed style iff i < current and the current style iff i == current; the first step has no connector; the button is enabled and reports i exactly when there is a click handler |
| `Stepper.ViewSteps` | src/components/ui/stepper.tsx:17 | there is one view per step, in order |
| `Stepper.ExactlyOneStyle` | src/components/ui/stepper.tsx:35-37 | each step gets exactly one of the three styles: completed before the current step, current at it, upcoming after it |
| `Stepper.BadgeAndTitle` | src/components/ui/stepper.tsx:44-57 | the badge shows a check mark exactly for completed steps and the number i + 1 otherwise; the title is highlighted unless the step is upcoming |
| `Stepper.ConnectorFollowsPreviousStep` | src/components/ui/stepper.tsx:23-28 | the connector into step i is highlighted exactly when step i - 1 is completed |
| `Stepper.StatusCounts` | src/components/ui/stepper.tsx:18-19 | with the current step in range, `current` steps are completed, one is current and the rest are upcoming |
| `DataPreview.CellText` | src/components/data-generator/DataPreview.tsx:47 | a string cell shows the string itself, a boolean shows `true` or `false`, a missing property shows `undefined` and `null` shows `null`; an empty cell comes only from an empty string or an empty number text |
| `DataPreview.Cells` | src/components/data-generator/DataPreview.tsx:46-47 | one cell per column, each the `String` of the row's value under that column |
| `DataPreview.Preview` | src/components/data-generator/DataPreview.tsx:14-47 | missing or empty data renders nothing; otherwise the columns are the first record's keys, the caption says `min(len, 100)` of `len`, and row i holds the cells of record i |
| `DataPreview.OnlyTheWindowIsShown` | src/components/data-generator/DataPreview.tsx:44 | records past the first hundred never reach the table |
| `DataPreview.SmallBatchShownWhole` | src/components/data-generator/DataPreview.tsx:31 | a batch of at most 100 records is shown whole |
| `DataPreview.PreviewColumnsAreCsvHeader` | src/components/data-generator/DataPreview.tsx:19 | the table's columns are the fields of the CSV export's header line, when the keys hold no comma or newline |
| `DataPreview.CellVersusCsvField` | src/components/data-generator/DataPreview.tsx:47 | a cell is the CSV field without the quotes for strings and the same text for numbers and booleans; for `null` or a missing property the cell shows a word where the CSV field is empty |

## Left out

- `Math.random` is only an abstract stream of draws in [0, 1). Nothing is claimed about its distribution.
- Samplers.GenerateNumber: the result is only tied to the parameter `round`, which stands for `Number(value.toFixed(decimals))`; floating-point rounding is not modelled.
- Pipeline.IdActiveGenerates: for the same reason, it does not show that `id` is a whole number in [1, 5].
- Samplers.GenerateDate: the calendar day comes from the parameter `utcDay`, which stands for `toISOString`'s UTC conversion. The output shape and the read-back are proved; the calendar arithmetic is not. The parameter's type assumes years 0 to 9999. `toISOString` would write other years with a sign and six digits.
- The model reads `Date.now()` once per call. It does not model the clock moving between date samples.
- Text for numbers (`String(x)` and a number joined into a CSV line) is the parameter `show`.
- Numbers are reals, not IEEE doubles. NaN, infinities, `-0` and overflow are not modelled.
- A non-integer `recordCount` or `decimals` is not modelled. Both are integers here.
- The `setTimeout` delay is not modelled. The model keeps what the promise resolves with, or that it never settles.
- Blob, `URL.createObjectURL` and the anchor click become a `Download` value holding file name, media type and content.
- `exportAsJSON` is not modelled, because it wraps `JSON.stringify`. Only whether the page calls it is modelled.
- React state, rendering, class-name merging and toasts are not modelled. Only the success message of the CSV export handler is.
- The `catch` branches of the generate and regenerate handlers are not modelled. `generateSyntheticData` never rejects, because a throw inside the timer callback does not reach the promise.
- The `GeneratorConfig.tsx` form is not modelled: the generator reads none of its fields except `recordCount`.
- `handleFileUpload` is not modelled, nor `Index.tsx`, `NotFound.tsx` and `Header.tsx`. They are a console log, a fixed mock list and static markup.
- The schema editor's state is never read by the page (the page uses its fixed fallback schema). So the editor and the generator are modelled separately.
- The `values` option is never read by any sampler, so it is carried but unused.
- An options patch with a key explicitly set to `undefined` is not modelled. In the source such a key would overwrite; here an absent key keeps the old value.
- A column named `__proto__` is not modelled. Its assignment would set the prototype rather than create a property.
- JsObject.Lookup: reads only own properties. In JavaScript, a name that is not an own property goes on to the prototype chain, so `row['toString']` or `row['constructor']` reads an `Object.prototype` function, which `String` and `join` render as function text. A generated batch never hits this: every record has the same own keys, and only those keys are read.
- A digit count outside 0 to 100 makes `toFixed` throw, so the promise never settles; the samplers do not quietly produce a value.
- `Object.keys` lists array-index names first, so records keep schema order only when no name is such an index; repeated names collapse into one key.

## Findings

| source | as written | input that shows it | evidently intended | confidence | as-written member | corrected member |
|---|---|---|---|---|---|---|
| src/components/data-generator/SchemaBuilder.tsx:30-33 | the new column's id is the list length plus one, so after a removal it can repeat an id still in use; removing that id then removes two columns, and the guard at line 172 no longer keeps the list non-empty | from the initial ids 1, 2, 3: remove 1, add (the new id is 3 again), remove 2, remove 3; the list is empty although every click was enabled | ids are unique, so each row's buttons act on that row alone and the guard leaves at least one column | not executed | `SchemaBuilder.AddColumnAsWrittenEmptiesTheList` | `SchemaBuilder.RunFreshKeepsHealthy` |

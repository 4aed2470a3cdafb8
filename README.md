# Octane Excel import converter: a verified model of its decision logic

This Dafny project models the core of the Octane Excel import converter. The converter turns a qTest manual-test spreadsheet into the spreadsheet layout ALM Octane imports. The model covers:

- **Field conversion** (`field_conversion.dfy`, `mappings.dfy`). An input value becomes an output value through the field's mapping. An unmapped field passes through. A mapped field is rewritten by its literal table, then by its `"default"` entry, then by the first regex rule matching the whole value; otherwise it is kept. With a separator the value is split and trimmed, each piece is mapped, empty results are dropped and the rest is joined with `","`.
- **Output layout** (`output_layout.dfy`). This covers:
  - the input-column to output-column pairs, taken from the entries that have a target, in mapping order;
  - the output header row: the mandatory headers, then the targets, each name once at its first position;
  - the workbook format chosen by the output file's extension.
- **The output sheet** (`output_sheet.dfy`). A `Sheet` object holds a header row and data rows that are appended and written in place. A new row's unique id is its row number.
- **Test-row assembly** (`test_converter.dfy`). The `TestConverter` object appends one MANUAL_TEST row per test and fills it field by field. A field whose reading raises ConversionException is skipped, and any other failure ends the call. It also appends STEP rows whose description has every `-` turned into a bullet (U+2022).
- **Integrity checks and the gate** (`integrity_checking.dfy`, `integrity_handling.dfy`). Every property check and every mapping check reports errors and warnings to an `IntegrityHandler` that counts them. The handler then:
  - stops on any error;
  - with warnings only, asks the operator until the first YES or NO;
  - with neither, continues.
- **Configuration and dispatch** (`configuration.dfy`, `format_types.dfy`, `converter_factory.dfy`). This covers:
  - the immutable run properties, whose format defaults to QTEST;
  - the three formats, of which only QTEST is valid;
  - the factory, which has a converter for QTEST only.

Outside effects become parameters:
- Regex matching is a `RegexEngine` value holding the whole-value match and the replace-all functions.
- The file system is a `FileSystem` value: the set of existing paths and the set of locked paths.
- The operator's console input is a sequence of answer lines. `System.exit` is the `Stop` decision. Running out of lines before a YES or NO is `NeedsMoreInput`.
- The input sheet is its set of header names plus rows that map column names to cells.

`wrappers.dfy` holds `Option`, `Result` and `Outcome`. `text.dfy` models the Java string operations the code uses: `trim`, `toUpperCase` on ASCII, `endsWith`, `replace(char, char)`, `split` with a literal separator, and joining.

The Java file `convertor/AbstractTestConverter.java:88` writes the bullet as U+2022. In `converter/AbstractTestConverter.java:138` the same character appears garbled, so the model uses U+2022.

## Model

Source paths are relative to the repository root.

| member | source | states |
|---|---|---|
| FormatTypes.NameInjective | src/main/java/com/microfocus/adm/almoctane/importer/tool/excel/utils/ExcelFormatType.java:26 | the three format constants have three different names |
| FormatTypes.ValidTypes | src/main/java/com/microfocus/adm/almoctane/importer/tool/excel/utils/ExcelFormatType.java:28-32 | validTypes holds exactly one name, and a format's name is in it exactly when the format is QTEST (so OCTANE and UNKNOWN are not) |
| Mappings.Lookup | src/main/java/com/microfocus/adm/almoctane/importer/tool/excel/converter/AbstractConverter.java:106 | the mapping lookup finds nothing exactly when no entry has that field name, and what it finds is an entry of the table |
| Mappings.LookupAt | src/main/java/com/microfocus/adm/almoctane/importer/tool/excel/configuration/ConversionMappings.java:31-32 | in the field-name map, whose keys are distinct, the lookup of an entry's name yields that entry's mapping |
| Configuration.TextProperty | src/main/java/com/microfocus/adm/almoctane/importer/tool/excel/configuration/PropertiesUtils.java:67-79 | a text property is null exactly when its key is absent or its value empty, and otherwise it is the file's value |
| Configuration.ParseFormatType | src/main/java/com/microfocus/adm/almoctane/importer/tool/excel/configuration/PropertiesUtils.java:56-57 | a format value whose ASCII upper-casing is a constant's name reads as that constant; any other value reads as null |
| Configuration.GetProperties | src/main/java/com/microfocus/adm/almoctane/importer/tool/excel/configuration/ConversionProperties.java:29-44 | the paths are the text properties; without the format key, or with a value that reads as null, the format is QTEST; a value that reads as a format selects that format, and a format other than QTEST comes only from such a value |
| Configuration.UnreadableFormatKeepsDefault | src/main/java/com/microfocus/adm/almoctane/importer/tool/excel/configuration/ConversionProperties.java:32-34 | a format value that reads as null is skipped, so the format stays QTEST |
| Configuration.FormatValueSelectsFormat | src/main/java/com/microfocus/adm/almoctane/importer/tool/excel/configuration/PropertiesUtils.java:56-57 | a format value that names a format, in any letter case, selects exactly that format |
| Configuration.PathsHaveNoDefault | src/main/java/com/microfocus/adm/almoctane/importer/tool/excel/configuration/ConversionProperties.java:29-37 | an absent path key and an empty path value both leave the path null |
| Configuration.FormatNameIgnoresCase | src/main/java/com/microfocus/adm/almoctane/importer/tool/excel/configuration/PropertiesUtils.java:57 | the value "octane" selects OCTANE |
| Text.Trim | src/main/java/com/microfocus/adm/almoctane/importer/tool/excel/converter/AbstractConverter.java:199 | trimming never lengthens a string, and a trimmed string starts and ends with a character above U+0020 |
| Text.TrimPeel | src/main/java/com/microfocus/adm/almoctane/importer/tool/excel/converter/AbstractConverter.java:199 | white space before and after a text that neither starts nor ends with white space is removed, and the text is kept whole |
| Text.TrimInfix | src/main/java/com/microfocus/adm/almoctane/importer/tool/excel/converter/AbstractConverter.java:199 | the trim of a string is one contiguous part of it, and everything before and after that part is white space |
| Text.Split | src/main/java/com/microfocus/adm/almoctane/importer/tool/excel/converter/AbstractConverter.java:110 | the empty string splits into a non-empty result (one empty piece), and a trailing empty piece is kept only when it is the sole piece |
| Text.SplitWithoutSeparator | src/main/java/com/microfocus/adm/almoctane/importer/tool/excel/converter/AbstractConverter.java:110 | a string without the separator splits into itself alone |
| Text.SplitJoin | src/main/java/com/microfocus/adm/almoctane/importer/tool/excel/converter/AbstractConverter.java:110-114 | splitting the ","-join of non-empty, comma-free pieces gives the pieces back |
| FieldConversion.MappedValue | src/main/java/com/microfocus/adm/almoctane/importer/tool/excel/converter/AbstractConverter.java:133-163 | an exact literal key gives its value; otherwise a "default" entry gives its value; with neither and no matching rule the value is unchanged (the rule order is stated by GetMappedValue and FirstMatchIgnoresLaterRules) |
| FieldConversion.GetMappedValue | src/main/java/com/microfocus/adm/almoctane/importer/tool/excel/converter/AbstractConverter.java:133-163 | the loop over the rules returns the literal value first, then the "default" value, then the replacement by the first rule matching the whole value (all earlier rules not matching), and otherwise the value unchanged; its result is MappedValue |
| FieldConversion.ExactKeyWins | src/main/java/com/microfocus/adm/almoctane/importer/tool/excel/converter/AbstractConverter.java:135-139 | an exact literal key gives its value whatever the regex rules and the engine |
| FieldConversion.DefaultShadowsRegex | src/main/java/com/microfocus/adm/almoctane/importer/tool/excel/converter/AbstractConverter.java:140-146 | without an exact key the "default" value is returned and no regex rule is consulted |
| FieldConversion.FirstMatchIgnoresLaterRules | src/main/java/com/microfocus/adm/almoctane/importer/tool/excel/converter/AbstractConverter.java:149-158 | the first rule that matches the whole value is chosen, whatever rules follow it |
| FieldConversion.NothingAppliesKeepsValue | src/main/java/com/microfocus/adm/almoctane/importer/tool/excel/converter/AbstractConverter.java:160-162 | with no key, no default and no matching rule the value is returned unchanged |
| FieldConversion.KeptValues | src/main/java/com/microfocus/adm/almoctane/importer/tool/excel/converter/AbstractConverter.java:112-113 | no kept piece is empty, and there are no more kept pieces than input pieces |
| FieldConversion.KeptValuesAppend | src/main/java/com/microfocus/adm/almoctane/importer/tool/excel/converter/AbstractConverter.java:110-114 | pieces are mapped and filtered one by one, so input order is output order |
| FieldConversion.KeptValuesOfOne | src/main/java/com/microfocus/adm/almoctane/importer/tool/excel/converter/AbstractConverter.java:112-113 | a piece is dropped exactly when its mapped value is empty; emptiness is tested after mapping |
| FieldConversion.NothingDroppedWithDefault | src/main/java/com/microfocus/adm/almoctane/importer/tool/excel/converter/AbstractConverter.java:113 | with a "default" entry and no empty literal value, every piece (an empty one included) survives as its mapped value |
| FieldConversion.ConvertField | src/main/java/com/microfocus/adm/almoctane/importer/tool/excel/converter/AbstractConverter.java:118-121 | a field without a mapping is returned unchanged |
| FieldConversion.ConvertWithoutSeparator | src/main/java/com/microfocus/adm/almoctane/importer/tool/excel/converter/AbstractConverter.java:115-117 | a mapped field without a separator is converted as one value |
| FieldConversion.SeparatedRoundTrip | src/main/java/com/microfocus/adm/almoctane/importer/tool/excel/converter/AbstractConverter.java:108-114 | with a separator, the output splits back on "," into the mapped, non-empty trimmed pieces in input order (when none contains a comma) |
| FieldConversion.SeparatedExample | src/main/java/com/microfocus/adm/almoctane/importer/tool/excel/converter/AbstractConverter.java:108-114 | with separator "," and no literal table, "a, b , " converts to "a,b" for any clean items a and b |
| FieldConversion.MappedCellValue | src/main/java/com/microfocus/adm/almoctane/importer/tool/excel/converter/AbstractConverter.java:197-200 | a cell value is trimmed before conversion, so an unmapped column yields the trimmed text |
| FieldConversion.MappedCellValueIgnoresBlanks | src/main/java/com/microfocus/adm/almoctane/importer/tool/excel/converter/AbstractConverter.java:199 | a cell converts exactly as its trimmed text does, so blanks around it never reach the mapping |
| OutputLayout.InputToOutput | src/main/java/com/microfocus/adm/almoctane/importer/tool/excel/converter/AbstractConverter.java:282-286 | never more pairs than entries, and one pair per entry when every entry has a target |
| OutputLayout.InputToOutputMembers | src/main/java/com/microfocus/adm/almoctane/importer/tool/excel/converter/AbstractConverter.java:282-286 | a pair (input, target) is listed exactly when that input field's mapping has that non-null target |
| OutputLayout.InputToOutputAppend | src/main/java/com/microfocus/adm/almoctane/importer/tool/excel/converter/AbstractConverter.java:283-285 | the pairs keep mapping order: the pairs of a concatenation are the concatenation of the pairs |
| OutputLayout.InputToOutputKeysDistinct | src/main/java/com/microfocus/adm/almoctane/importer/tool/excel/converter/AbstractConverter.java:285 | the input names of the pairs are distinct, as the keys of a map are |
| OutputLayout.Dedupe | src/main/java/com/microfocus/adm/almoctane/importer/tool/excel/converter/AbstractConverter.java:326-329 | the LinkedHashSet holds each element of its input exactly once and nothing else |
| OutputLayout.DedupePrefix | src/main/java/com/microfocus/adm/almoctane/importer/tool/excel/converter/AbstractConverter.java:327-328 | adding more names never moves the names already in the set |
| OutputLayout.DedupeOfDistinct | src/main/java/com/microfocus/adm/almoctane/importer/tool/excel/converter/AbstractConverter.java:327 | a list without repeats goes into the set unchanged |
| OutputLayout.DedupeOrder | src/main/java/com/microfocus/adm/almoctane/importer/tool/excel/converter/AbstractConverter.java:326-329 | the set lists its elements in the order of their first occurrence |
| OutputLayout.BaseMandatoryHeaders | src/main/java/com/microfocus/adm/almoctane/importer/tool/excel/converter/AbstractConverter.java:93-95 | the mandatory headers of every converter are unique_id, then type |
| OutputLayout.OutputHeaders | src/main/java/com/microfocus/adm/almoctane/importer/tool/excel/converter/AbstractConverter.java:325-330 | the headers are distinct and are exactly the mandatory headers and the targets |
| OutputLayout.TargetsInHeaders | src/main/java/com/microfocus/adm/almoctane/importer/tool/excel/converter/AbstractConverter.java:328 | every target has its column |
| OutputLayout.MandatoryHeadersFirst | src/main/java/com/microfocus/adm/almoctane/importer/tool/excel/converter/AbstractConverter.java:325-330 | distinct mandatory headers open the header row, in their own order |
| OutputLayout.HeadersInFirstOccurrenceOrder | src/main/java/com/microfocus/adm/almoctane/importer/tool/excel/converter/AbstractConverter.java:325-330 | headers are ordered by the first place their name occurs among mandatory headers then targets |
| OutputLayout.OutputWorkbookKind | src/main/java/com/microfocus/adm/almoctane/importer/tool/excel/converter/AbstractConverter.java:309-317 | ".xlsx" gives XSSF, ".xls" gives HSSF, and any other path fails, each as an if-and-only-if |
| OutputLayout.XlsxIsNotXls | src/main/java/com/microfocus/adm/almoctane/importer/tool/excel/converter/AbstractConverter.java:310-313 | no path ends with both extensions, so the order of the two tests does not matter |
| OutputSheet.NewRow | src/main/java/com/microfocus/adm/almoctane/importer/tool/excel/converter/AbstractConverter.java:185-186 | a new row holds exactly the unique id and the type |
| OutputSheet.Sheet.constructor | src/main/java/com/microfocus/adm/almoctane/importer/tool/excel/converter/AbstractConverter.java:339-347 | the new sheet has the given name, header i is headers[i], and there are no data rows |
| OutputSheet.Sheet.CreateRowWithId | src/main/java/com/microfocus/adm/almoctane/importer/tool/excel/converter/AbstractConverter.java:181-189 | one row holding the id and the type is appended after the last row; the headers are unchanged |
| OutputSheet.Sheet.CreateRow | src/main/java/com/microfocus/adm/almoctane/importer/tool/excel/converter/AbstractConverter.java:170-173 | the new row's unique id is the last row number plus one, so ids stay equal to row numbers |
| OutputSheet.Sheet.SetCellValue | src/main/java/com/microfocus/adm/almoctane/importer/tool/excel/converter/AbstractConverter.java:218-229 | only the one cell changes; the sheet stays valid |
| TestConverter.ReadCell | src/main/java/com/microfocus/adm/almoctane/importer/tool/excel/converter/AbstractConverter.java:208-211 | a column missing from the input header fails (a null index); an empty cell reads as ""; a cell's text is returned as it is |
| TestConverter.TestMandatoryHeaders | src/main/java/com/microfocus/adm/almoctane/importer/tool/excel/converter/AbstractTestConverter.java:45-51 | the headers are exactly unique_id, type, step_type, step_description, in that order |
| TestConverter.ManualTest | src/main/java/com/microfocus/adm/almoctane/importer/tool/excel/converter/AbstractTestConverter.java:58-59 | the new test row keeps its unique id and MANUAL_TEST type unless a target overwrites them |
| TestConverter.FillFields | src/main/java/com/microfocus/adm/almoctane/importer/tool/excel/converter/AbstractTestConverter.java:61-67 | the loop ends early only on a column the input header lacks; cells already in the row are never removed |
| TestConverter.FillFieldsKeepsOthers | src/main/java/com/microfocus/adm/almoctane/importer/tool/excel/converter/AbstractTestConverter.java:61-67 | only target columns are written; every other cell keeps its value |
| TestConverter.FillFieldsOutcome | src/main/java/com/microfocus/adm/almoctane/importer/tool/excel/converter/AbstractTestConverter.java:61-67 | the call completes exactly when every input column is in the input header; otherwise it fails on the first missing one |
| TestConverter.FillFieldsWrites | src/main/java/com/microfocus/adm/almoctane/importer/tool/excel/converter/AbstractTestConverter.java:61-66 | every field that reads is written, trimmed and converted, under its target; a ConversionException leaves its target as it was and the other fields are still written |
| TestConverter.CleanStepDescription | src/main/java/com/microfocus/adm/almoctane/importer/tool/excel/converter/AbstractTestConverter.java:137-139 | same length; every "-" becomes the bullet and every other character stays; no "-" is left |
| TestConverter.CleanStepDescriptionIdempotent | src/main/java/com/microfocus/adm/almoctane/importer/tool/excel/converter/AbstractTestConverter.java:137-139 | cleaning twice is cleaning once |
| TestConverter.CleanStepDescriptionReversible | src/main/java/com/microfocus/adm/almoctane/importer/tool/excel/converter/AbstractTestConverter.java:137-139 | a description without bullets is recovered by turning bullets back into "-" |
| TestConverter.StepRow | src/main/java/com/microfocus/adm/almoctane/importer/tool/excel/converter/AbstractTestConverter.java:119-128 | a step row holds exactly the unique id, STEP, the step type and the cleaned description |
| TestConverter.StepRowColumns | src/main/java/com/microfocus/adm/almoctane/importer/tool/excel/converter/AbstractTestConverter.java:119 | a step row uses exactly the four mandatory columns |
| TestConverter.MandatoryColumnsPresent | src/main/java/com/microfocus/adm/almoctane/importer/tool/excel/converter/AbstractTestConverter.java:45-51 | the output header row always has the four mandatory columns |
| TestConverter.WriteFields | src/main/java/com/microfocus/adm/almoctane/importer/tool/excel/converter/AbstractTestConverter.java:61-67 | the loop over the pairs writes what the field-by-field specification computes and ends as it ends |
| TestConverter.AppendStep | src/main/java/com/microfocus/adm/almoctane/importer/tool/excel/converter/AbstractTestConverter.java:120-128 | exactly one step row is appended |
| TestConverter.OpenFailure | src/main/java/com/microfocus/adm/almoctane/importer/tool/excel/converter/AbstractConverter.java:295-317 | the workbooks cannot be opened exactly when an input path is null or missing, or the output path is null or names no Excel file; a null input or output path is NullPath, a missing input file is FileNotFound, and an output path naming no Excel file is OutputNotExcel |
| TestConverter.TestConverter.constructor | src/main/java/com/microfocus/adm/almoctane/importer/tool/excel/converter/AbstractConverter.java:72-88 | the pairs come from the mappings, and the "manual tests" sheet has the output headers and no data rows |
| TestConverter.TestConverter.Create | src/main/java/com/microfocus/adm/almoctane/importer/tool/excel/converter/AbstractConverter.java:79-80 | construction fails exactly when the workbooks cannot be opened, with OpenFailure's reason; on success the converter is new and valid and its sheet is empty |
| TestConverter.TestConverter.AddManualTest | src/main/java/com/microfocus/adm/almoctane/importer/tool/excel/converter/AbstractTestConverter.java:58-68 | exactly one row is appended, whose id is its row number, filled as the field-by-field specification says |
| TestConverter.TestConverter.FillRow | src/main/java/com/microfocus/adm/almoctane/importer/tool/excel/converter/AbstractTestConverter.java:61-67 | only the row at the index changes, to what the specification computes |
| TestConverter.TestConverter.AddStep | src/main/java/com/microfocus/adm/almoctane/importer/tool/excel/converter/AbstractTestConverter.java:120-128 | one step row is appended, with the given step type and the cleaned description |
| TestConverter.TestConverter.AddStepFromRow | src/main/java/com/microfocus/adm/almoctane/importer/tool/excel/converter/AbstractTestConverter.java:108-111 | the raw cell text, neither trimmed nor mapped, becomes the description; a failed read adds no row |
| TestConverter.TestConverter.AddSimpleStep | src/main/java/com/microfocus/adm/almoctane/importer/tool/excel/converter/AbstractTestConverter.java:76-78 | addStep with SIMPLE |
| TestConverter.TestConverter.AddValidationStep | src/main/java/com/microfocus/adm/almoctane/importer/tool/excel/converter/AbstractTestConverter.java:86-88 | addStep with VALIDATION |
| TestConverter.TestConverter.AddCallStep | src/main/java/com/microfocus/adm/almoctane/importer/tool/excel/converter/AbstractTestConverter.java:96-99 | always fails with NotImplemented and touches no sheet |
| IntegrityHandling.Decide | src/main/java/com/microfocus/adm/almoctane/importer/tool/excel/utils/IntegrityHandler.java:63-76 | Continue only if some line is YES, Stop only if some line is NO, and running out only if no line is either |
| IntegrityHandling.AnswerDecision | src/main/java/com/microfocus/adm/almoctane/importer/tool/excel/utils/IntegrityHandler.java:63-76 | Continue (Stop) only if some raw answer trims and upper-cases to YES (NO) |
| IntegrityHandling.DecideNeedsMoreInputIff | src/main/java/com/microfocus/adm/almoctane/importer/tool/excel/utils/IntegrityHandler.java:63-76 | the prompt runs out of answers exactly when no answer is YES or NO |
| IntegrityHandling.DecideFirstValid | src/main/java/com/microfocus/adm/almoctane/importer/tool/excel/utils/IntegrityHandler.java:63-76 | the verdict is Continue (Stop) exactly when some answer is YES (NO) and every earlier answer is neither |
| IntegrityHandling.DecideIgnoresLaterInput | src/main/java/com/microfocus/adm/almoctane/importer/tool/excel/utils/IntegrityHandler.java:65-72 | once a YES or NO is read, later lines change nothing |
| IntegrityHandling.AnswerDecisionIgnoresLaterInput | src/main/java/com/microfocus/adm/almoctane/importer/tool/excel/utils/IntegrityHandler.java:62-76 | the same for raw answer lines: input after the deciding answer is never read |
| IntegrityHandling.IntegrityDecision | src/main/java/com/microfocus/adm/almoctane/importer/tool/excel/utils/IntegrityHandler.java:56-78 | errors stop without asking; with warnings only the answers decide; with neither the run continues at once |
| IntegrityHandling.ContinueIff | src/main/java/com/microfocus/adm/almoctane/importer/tool/excel/utils/IntegrityHandler.java:56-78 | the run continues exactly when there is no error and either there is no warning or the answers say YES first |
| IntegrityHandling.PromptTrimsAndIgnoresCase | src/main/java/com/microfocus/adm/almoctane/importer/tool/excel/utils/IntegrityHandler.java:64-68 | answers are trimmed and upper-cased: an invalid answer is asked again, and a following "yes " continues |
| IntegrityHandling.PromptExample | src/main/java/com/microfocus/adm/almoctane/importer/tool/excel/utils/IntegrityHandler.java:64-75 | with one warning, the answers " maybe" then "yes " continue |
| IntegrityHandling.IntegrityHandler.constructor | src/main/java/com/microfocus/adm/almoctane/importer/tool/excel/utils/IntegrityHandler.java:29-32 | a new handler has counted no error and no warning |
| IntegrityHandling.IntegrityHandler.LogError | src/main/java/com/microfocus/adm/almoctane/importer/tool/excel/utils/IntegrityHandler.java:34-42 | either overload adds exactly one error and leaves the warnings unchanged; counters never decrease |
| IntegrityHandling.IntegrityHandler.LogWarning | src/main/java/com/microfocus/adm/almoctane/importer/tool/excel/utils/IntegrityHandler.java:44-47 | adds exactly one warning and leaves the errors unchanged |
| IntegrityHandling.IntegrityHandler.StopOnCriticalError | src/main/java/com/microfocus/adm/almoctane/importer/tool/excel/utils/IntegrityHandler.java:49-54 | stops exactly when an error was counted |
| IntegrityHandling.IntegrityHandler.PromptUserIntegrityStatus | src/main/java/com/microfocus/adm/almoctane/importer/tool/excel/utils/IntegrityHandler.java:56-78 | the prompt loop's verdict is the gate's decision on the handler's counts and the answers |
| IntegrityChecking.CountsAppend | src/main/java/com/microfocus/adm/almoctane/importer/tool/excel/utils/IntegrityChecker.java:52-82 | error and warning counts of checks run one after another add up |
| IntegrityChecking.InputFileIssues | src/main/java/com/microfocus/adm/almoctane/importer/tool/excel/utils/IntegrityChecker.java:53-63 | a null input path is exactly one error and nothing else is probed; a missing or locked input file is one error; an existing free one is fine |
| IntegrityChecking.OutputFileIssues | src/main/java/com/microfocus/adm/almoctane/importer/tool/excel/utils/IntegrityChecker.java:65-76 | a null output path is one error; an existing output file is one warning, plus one error if locked; a new file is fine |
| IntegrityChecking.FormatIssues | src/main/java/com/microfocus/adm/almoctane/importer/tool/excel/utils/IntegrityChecker.java:78-81 | UNKNOWN is exactly one error; QTEST and OCTANE pass |
| IntegrityChecking.PropertyIssues | src/main/java/com/microfocus/adm/almoctane/importer/tool/excel/utils/IntegrityChecker.java:52-82 | the property checks all run, and their counts add up |
| IntegrityChecking.NullTargetFields | src/main/java/com/microfocus/adm/almoctane/importer/tool/excel/utils/IntegrityChecker.java:86-90 | the warned fields are exactly those whose target is null |
| IntegrityChecking.NullTargetFieldsDistinct | src/main/java/com/microfocus/adm/almoctane/importer/tool/excel/utils/IntegrityChecker.java:86-90 | each null-target field gets exactly one warning |
| IntegrityChecking.TargetGroups | src/main/java/com/microfocus/adm/almoctane/importer/tool/excel/utils/IntegrityChecker.java:92-95 | the grouping has a key per non-null target, with the non-empty set of the fields mapped to it |
| IntegrityChecking.SharedTargets | src/main/java/com/microfocus/adm/almoctane/importer/tool/excel/utils/IntegrityChecker.java:92-99 | the reported targets are exactly the non-null targets that more than one input field maps to |
| IntegrityChecking.SharedTargetIff | src/main/java/com/microfocus/adm/almoctane/importer/tool/excel/utils/IntegrityChecker.java:92-99 | a target is reported exactly when two entries name it; null targets never are |
| IntegrityChecking.IntegrityVerdict | src/main/java/com/microfocus/adm/almoctane/importer/tool/excel/utils/IntegrityChecker.java:44-50 | the run continues exactly when the checks count no error and either no warning or the answers say YES first |
| IntegrityChecking.NoInputPathStops | src/main/java/com/microfocus/adm/almoctane/importer/tool/excel/utils/IntegrityChecker.java:61-63 | a missing input path stops the run whatever the operator answers |
| IntegrityChecking.LockedOutputStops | src/main/java/com/microfocus/adm/almoctane/importer/tool/excel/utils/IntegrityChecker.java:68-72 | a locked output file stops the run, though an existing one alone is only a warning |
| IntegrityChecking.SharedTargetStops | src/main/java/com/microfocus/adm/almoctane/importer/tool/excel/utils/IntegrityChecker.java:92-99 | two fields with one target stop the run |
| IntegrityChecking.CleanConfigurationContinues | src/main/java/com/microfocus/adm/almoctane/importer/tool/excel/utils/IntegrityChecker.java:44-50 | a clean configuration passes without a question |
| IntegrityChecking.WarningsAskTheOperator | src/main/java/com/microfocus/adm/almoctane/importer/tool/excel/utils/IntegrityChecker.java:44-50 | with warnings and no error the operator's answers decide |
| IntegrityChecking.IntegrityChecker.constructor | src/main/java/com/microfocus/adm/almoctane/importer/tool/excel/utils/IntegrityChecker.java:38-42 | the checker has a fresh handler with zero counts and the container's configuration |
| IntegrityChecking.IntegrityChecker.CheckConversionProperties | src/main/java/com/microfocus/adm/almoctane/importer/tool/excel/utils/IntegrityChecker.java:52-82 | the handler gains exactly the errors and warnings of the property checks |
| IntegrityChecking.IntegrityChecker.CheckConversionMappings | src/main/java/com/microfocus/adm/almoctane/importer/tool/excel/utils/IntegrityChecker.java:84-100 | one warning per null-target field and one error per shared target |
| IntegrityChecking.IntegrityChecker.WarnNullTargets | src/main/java/com/microfocus/adm/almoctane/importer/tool/excel/utils/IntegrityChecker.java:86-90 | the forEach adds one warning per null-target field and no error |
| IntegrityChecking.IntegrityChecker.ReportSharedTargets | src/main/java/com/microfocus/adm/almoctane/importer/tool/excel/utils/IntegrityChecker.java:92-99 | one error per shared target and no warning |
| IntegrityChecking.IntegrityChecker.ReportSharedGroups | src/main/java/com/microfocus/adm/almoctane/importer/tool/excel/utils/IntegrityChecker.java:97-99 | one error per group with more than one field |
| IntegrityChecking.IntegrityChecker.CheckIntegrity | src/main/java/com/microfocus/adm/almoctane/importer/tool/excel/utils/IntegrityChecker.java:44-50 | all checks run, none short-circuits another, and the gate decides on the total counts |
| IntegrityChecking.NewConversionInfoContainer | src/main/java/com/microfocus/adm/almoctane/importer/tool/excel/configuration/ConversionInfoContainer.java:27-32 | the container holds its two parts, and building it yields the integrity verdict |
| ConverterFactory.ConverterFor | src/main/java/com/microfocus/adm/almoctane/importer/tool/excel/converter/ConverterFactory.java:41-46 | a format has a converter exactly when its name is in validTypes |
| ConverterFactory.OctanePassesChecksButHasNoConverter | src/main/java/com/microfocus/adm/almoctane/importer/tool/excel/converter/ConverterFactory.java:44-46 | OCTANE passes the format check yet reaches the default branch and is refused |
| ConverterFactory.RefusedFormatHasNoConverter | src/main/java/com/microfocus/adm/almoctane/importer/tool/excel/converter/ConverterFactory.java:44-46 | a format the integrity check refuses has no converter either |
| ConverterFactory.GetConverter | src/main/java/com/microfocus/adm/almoctane/importer/tool/excel/converter/ConverterFactory.java:39-47 | the format is read from the container's properties alone; a format without a converter fails with that format; QTEST succeeds exactly when the workbooks can be opened, and otherwise fails with the constructor's reason; success means QTEST and a new valid converter |

## Left out

- Apache POI workbook I/O is not modelled. This covers opening, writing, styling and column widths of workbooks (`converter/AbstractConverter.java:237-275`, `:295-302`) and header-index extraction (`:354-363`). Rows are keyed by column name, and the input sheet is its header names plus rows of cells.
- Reading an existing input file can still fail inside POI with an IOException, and a non-text cell makes the text read throw. Neither is modelled.
- File-system probing and locking (`utils/IntegrityChecker.java:102-113`) become the `FileSystem` parameter.
- The console prompt and `System.exit` become the `Decision` value. A `Scanner` that runs out of lines is `NeedsMoreInput`.
- java.util.regex semantics become the `RegexEngine` parameter. Nothing is claimed about how many substitutions `replaceAll` makes.
- Text.Split: the separator is read as literal text, not as a regular expression.
- Configuration.ParseFormatType: case-insensitive enum names are compared after ASCII upper-casing only. Text.ToUpper likewise covers ASCII letters only; Unicode case mapping is not modelled.
- Configuration.ParseFormatType: Jackson's enum reader may also trim the value and accept a constant's ordinal written as digits (so "octane " or "1" could select OCTANE). The model does neither: such a value reads as null and the format stays QTEST.
- The Jackson plumbing of `configuration/PropertiesUtils.java` and `configuration/MappingsUtils.java` is reduced to its effects. In the properties reader only, empty strings read as null, and unknown enum values read as null and are skipped. The mappings reader keeps `""` as it is, and so does the model for targets and separators. Parse errors and missing resources are not modelled.
- FieldConversion.MappedValue: a literal or `"default"` entry whose JSON value is `null` is not modelled. The source tests the looked-up value against null (`converter/AbstractConverter.java:136-145`), so such an entry counts as absent there and the lookup falls through. A `map<string, string>` cannot hold it.
- FieldConversion.MappedValue: a field mapping without its `mapping` or `regex_mappings` key is read as an empty table or an empty rule list. The class that declares these fields is not part of this model.
- Logging and the messages of errors and warnings are not modelled. `Issue` keeps only the kind of each message.
- IntegrityHandling.IntegrityHandler.LogError: the counters are unbounded naturals, with no 32-bit overflow.
- TestConverter.ReadCell: nothing shown raises ConversionException while a cell is read. A `Faulty` input cell stands for one that does.
- TestConverter.TestConverter.AddStep: the try/catch around the description write in `converter/AbstractTestConverter.java:123-127` is not modelled. Cleaning a description cannot raise ConversionException.
- Setting a cell under a column that has no header would fail with a null index in the source. `SetCellValue` requires the column to be a header, and every caller is proved to meet that.
- QTestConverter (its input sheet index and its `convert` loop over the input rows) is not part of this model. The factory returns a `TestConverter`.
- The legacy `convertor/` package is not part of this model. It is an older copy that no longer matches the configuration classes.
- `Main.java` and the command line are not part of this model.

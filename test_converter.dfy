/**
 * AbstractTestConverter: how the rows of a manual test and of its steps
 * are appended to the "manual tests" output sheet.
 */
module TestConverter {
  import opened Wrappers
  import opened Text
  import opened Mappings
  import opened Configuration
  import opened FieldConversion
  import opened OutputLayout
  import opened OutputSheet

  /** The name of the output sheet. */
  const MANUAL_TESTS: string := "manual tests"

  /** The character that replaces "-" in step descriptions (U+2022, BULLET). */
  const BULLET: char := '\U{2022}'

  /**
   * A cell of the input sheet. A Faulty cell is one whose reading raises
   * ConversionException with the given message.
   */
  datatype InputCell = Value(text: string) | Faulty(message: string)

  /** An input row: its cells by the name of their column; a missing key is an empty cell. */
  datatype InputRow = InputRow(cells: map<string, InputCell>)

  /** The exceptions that can end or interrupt the building of a row. */
  datatype ConversionFailure =
    | MissingInputColumn(column: string)  // the column is not in the input header: a NullPointerException
    | ConversionRaised(message: string)   // a ConversionException
    | NotImplemented                      // a NotImplementedException

  /**
   * getCellValue: the text of the cell under `column`, "" for an empty cell.
   * A column the input header lacks has no index, and looking it up fails.
   */
  function ReadCell(inputHeaders: set<string>, row: InputRow, column: string): (r: Result<string, ConversionFailure>)
    ensures column !in inputHeaders ==> r == Failure(MissingInputColumn(column))
    ensures column in inputHeaders && column !in row.cells ==> r == Success("")
    ensures column in inputHeaders && column in row.cells ==>
      match row.cells[column]
      case Value(text) => r == Success(text)
      case Faulty(message) => r == Failure(ConversionRaised(message))
  {
    if column !in inputHeaders then Failure(MissingInputColumn(column))
    else if column !in row.cells then Success("")
    else match row.cells[column]
      case Value(text) => Success(text)
      case Faulty(message) => Failure(ConversionRaised(message))
  }

  /** getMandatoryOutputHeaders of a test converter: the base headers, then step_type and step_description. */
  function TestMandatoryHeaders(): (r: seq<string>)
    ensures Distinct(r) && |r| == 4
    ensures r[..2] == BaseMandatoryHeaders()
    ensures r[2] == STEP_TYPE && r[3] == STEP_DESCRIPTION
  {
    BaseMandatoryHeaders() + [STEP_TYPE, STEP_DESCRIPTION]
  }

  /**
   * The forEach of addManualTest from the pair pairs[0] on, with `acc` the
   * row so far: each field is read, trimmed, converted and written under
   * its target; a ConversionException skips only its own field; any other
   * failure ends the loop with the row as it stands.
   */
  function FillFields(table: MappingTable, re: RegexEngine, inputHeaders: set<string>,
                      pairs: seq<(string, string)>, row: InputRow, acc: Row): (r: (Row, Outcome<ConversionFailure>))
    ensures r.1.Fail? ==> r.1.error.MissingInputColumn? && r.1.error.column !in inputHeaders
    ensures acc.Keys <= r.0.Keys
    decreases |pairs|
  {
    if pairs == [] then (acc, Pass)
    else
      var input := pairs[0].0;
      var output := pairs[0].1;
      var cell := ReadCell(inputHeaders, row, input);
      if cell.Success? then
        FillFields(table, re, inputHeaders, pairs[1..], row, acc[output := Text(MappedCellValue(table, re, cell.value, input))])
      else if cell.error.ConversionRaised? then FillFields(table, re, inputHeaders, pairs[1..], row, acc)
      else (acc, Fail(cell.error))
  }

  /** One step of the forEach, seen from position i of the pairs. */
  lemma FillFieldsStep(table: MappingTable, re: RegexEngine, inputHeaders: set<string>,
                       pairs: seq<(string, string)>, i: nat, row: InputRow, acc: Row)
    requires i < |pairs|
    ensures var cell := ReadCell(inputHeaders, row, pairs[i].0);
      FillFields(table, re, inputHeaders, pairs[i..], row, acc) ==
        if cell.Success? then
          FillFields(table, re, inputHeaders, pairs[i + 1..], row, acc[pairs[i].1 := Text(MappedCellValue(table, re, cell.value, pairs[i].0))])
        else if cell.error.ConversionRaised? then FillFields(table, re, inputHeaders, pairs[i + 1..], row, acc)
        else (acc, Fail(cell.error))
  {
    assert pairs[i..][0] == pairs[i] && pairs[i..][1..] == pairs[i + 1..];
  }

  /** The row addManualTest appends, and how the call ends. */
  function ManualTest(table: MappingTable, re: RegexEngine, inputHeaders: set<string>,
                      pairs: seq<(string, string)>, row: InputRow, uniqueId: int): (r: (Row, Outcome<ConversionFailure>))
    ensures UNIQUE_ID !in Targets(pairs) ==> UNIQUE_ID in r.0 && r.0[UNIQUE_ID] == Number(uniqueId)
    ensures TYPE !in Targets(pairs) ==> TYPE in r.0 && r.0[TYPE] == Entity(MANUAL_TEST)
  {
    var acc := NewRow(uniqueId, MANUAL_TEST);
    FillFieldsKeepsOthers(table, re, inputHeaders, pairs, row, acc);
    FillFields(table, re, inputHeaders, pairs, row, acc)
  }

  /** Columns that are no target keep what the row already held. */
  lemma {:induction false} FillFieldsKeepsOthers(table: MappingTable, re: RegexEngine, inputHeaders: set<string>,
                                                 pairs: seq<(string, string)>, row: InputRow, acc: Row)
    ensures forall c :: c !in Targets(pairs) ==>
      (c in FillFields(table, re, inputHeaders, pairs, row, acc).0 <==> c in acc)
      && (c in acc ==> FillFields(table, re, inputHeaders, pairs, row, acc).0[c] == acc[c])
    ensures forall c :: c in FillFields(table, re, inputHeaders, pairs, row, acc).0 ==> c in acc || c in Targets(pairs)
    decreases |pairs|
  {
    if pairs != [] {
      var input := pairs[0].0;
      var output := pairs[0].1;
      assert forall c :: c in Targets(pairs[1..]) ==> c in Targets(pairs) by {
        forall c | c in Targets(pairs[1..]) ensures c in Targets(pairs) {
          var k :| 0 <= k < |pairs[1..]| && Targets(pairs[1..])[k] == c;
          assert Targets(pairs)[k + 1] == c;
        }
      }
      assert Targets(pairs)[0] == output;
      var cell := ReadCell(inputHeaders, row, input);
      if cell.Success? {
        FillFieldsKeepsOthers(table, re, inputHeaders, pairs[1..], row, acc[output := Text(MappedCellValue(table, re, cell.value, input))]);
      } else if cell.error.ConversionRaised? {
        FillFieldsKeepsOthers(table, re, inputHeaders, pairs[1..], row, acc);
      }
    }
  }

  /**
   * The call completes exactly when every input column of the pairs is in
   * the input header; otherwise it reports the first one missing.
   */
  lemma {:induction false} FillFieldsOutcome(table: MappingTable, re: RegexEngine, inputHeaders: set<string>,
                                             pairs: seq<(string, string)>, row: InputRow, acc: Row)
    ensures FillFields(table, re, inputHeaders, pairs, row, acc).1 == Pass <==>
      forall k :: 0 <= k < |pairs| ==> pairs[k].0 in inputHeaders
    ensures FillFields(table, re, inputHeaders, pairs, row, acc).1 != Pass ==>
      exists k :: 0 <= k < |pairs| && pairs[k].0 !in inputHeaders
        && (forall j :: 0 <= j < k ==> pairs[j].0 in inputHeaders)
        && FillFields(table, re, inputHeaders, pairs, row, acc).1 == Fail(MissingInputColumn(pairs[k].0))
    decreases |pairs|
  {
    if pairs != [] {
      var input := pairs[0].0;
      var output := pairs[0].1;
      var cell := ReadCell(inputHeaders, row, input);
      if cell.Success? {
        var next := acc[output := Text(MappedCellValue(table, re, cell.value, input))];
        FillFieldsOutcome(table, re, inputHeaders, pairs[1..], row, next);
        ShiftedPairs(inputHeaders, pairs);
      } else if cell.error.ConversionRaised? {
        FillFieldsOutcome(table, re, inputHeaders, pairs[1..], row, acc);
        ShiftedPairs(inputHeaders, pairs);
      } else {
        assert input !in inputHeaders;
      }
    }
  }

  /** Index bookkeeping for FillFieldsOutcome: a fact about pairs[1..] at k is a fact about pairs at k + 1. */
  lemma ShiftedPairs(inputHeaders: set<string>, pairs: seq<(string, string)>)
    requires pairs != [] && pairs[0].0 in inputHeaders
    ensures (forall k :: 0 <= k < |pairs[1..]| ==> pairs[1..][k].0 in inputHeaders) <==>
      (forall k :: 0 <= k < |pairs| ==> pairs[k].0 in inputHeaders)
    ensures forall k ::
      (0 <= k < |pairs[1..]| && pairs[1..][k].0 !in inputHeaders
        && (forall j :: 0 <= j < k ==> pairs[1..][j].0 in inputHeaders)) ==>
      (0 <= k + 1 < |pairs| && pairs[k + 1].0 !in inputHeaders
        && (forall j :: 0 <= j < k + 1 ==> pairs[j].0 in inputHeaders))
  {
    assert forall k :: 0 <= k < |pairs[1..]| ==> pairs[1..][k] == pairs[k + 1];
    forall k | 0 <= k < |pairs[1..]| && pairs[1..][k].0 !in inputHeaders
        && (forall j :: 0 <= j < k ==> pairs[1..][j].0 in inputHeaders)
      ensures forall j :: 0 <= j < k + 1 ==> pairs[j].0 in inputHeaders
    {
      forall j | 0 <= j < k + 1 ensures pairs[j].0 in inputHeaders {
        if j > 0 {
          assert pairs[j] == pairs[1..][j - 1];
        }
      }
    }
  }

  /**
   * With distinct targets, every field that reads without an exception is
   * written, converted, under its target, and a field whose reading
   * raised ConversionException leaves its target as it was: one failing
   * field never costs the others.
   */
  lemma {:induction false} FillFieldsWrites(table: MappingTable, re: RegexEngine, inputHeaders: set<string>,
                                            pairs: seq<(string, string)>, row: InputRow, acc: Row)
    requires Distinct(Targets(pairs))
    requires forall k :: 0 <= k < |pairs| ==> pairs[k].0 in inputHeaders
    ensures var r := FillFields(table, re, inputHeaders, pairs, row, acc).0;
      forall k :: 0 <= k < |pairs| && ReadCell(inputHeaders, row, pairs[k].0).Success? ==>
        pairs[k].1 in r && r[pairs[k].1] == Text(MappedCellValue(table, re, ReadCell(inputHeaders, row, pairs[k].0).value, pairs[k].0))
    ensures var r := FillFields(table, re, inputHeaders, pairs, row, acc).0;
      forall k :: 0 <= k < |pairs| && ReadCell(inputHeaders, row, pairs[k].0).Failure? ==>
        (pairs[k].1 in r <==> pairs[k].1 in acc) && (pairs[k].1 in acc ==> r[pairs[k].1] == acc[pairs[k].1])
    decreases |pairs|
  {
    if pairs != [] {
      var input := pairs[0].0;
      var output := pairs[0].1;
      var rest := pairs[1..];
      assert Targets(rest) == Targets(pairs)[1..];
      assert Distinct(Targets(rest));
      assert output !in Targets(rest) by {
        assert forall k :: 0 <= k < |Targets(rest)| ==> Targets(rest)[k] == Targets(pairs)[k + 1] != Targets(pairs)[0];
      }
      var cell := ReadCell(inputHeaders, row, input);
      var next := if cell.Success? then acc[output := Text(MappedCellValue(table, re, cell.value, input))] else acc;
      assert cell.Failure? ==> cell.error.ConversionRaised?;
      assert FillFields(table, re, inputHeaders, pairs, row, acc) == FillFields(table, re, inputHeaders, rest, row, next);
      FillFieldsWrites(table, re, inputHeaders, rest, row, next);
      FillFieldsKeepsOthers(table, re, inputHeaders, rest, row, next);
      forall k | 1 <= k < |pairs|
        ensures pairs[k] == rest[k - 1]
      {
      }
    }
  }

  /** cleanStepDescription: every "-" becomes a bullet; every other character stays where it was. */
  function CleanStepDescription(description: string): (r: string)
    ensures |r| == |description|
    ensures forall k :: 0 <= k < |r| ==> r[k] == (if description[k] == '-' then BULLET else description[k])
    ensures '-' !in r
  {
    ReplaceChar(description, '-', BULLET)
  }

  /** Cleaning a clean description changes nothing. */
  lemma CleanStepDescriptionIdempotent(description: string)
    ensures CleanStepDescription(CleanStepDescription(description)) == CleanStepDescription(description)
  {
    var once := CleanStepDescription(description);
    assert forall k :: 0 <= k < |once| ==> once[k] != '-';
  }

  /** A description without bullets is recovered by turning the bullets back into "-". */
  lemma CleanStepDescriptionReversible(description: string)
    requires BULLET !in description
    ensures ReplaceChar(CleanStepDescription(description), BULLET, '-') == description
  {
    var back := ReplaceChar(CleanStepDescription(description), BULLET, '-');
    assert forall k :: 0 <= k < |back| ==> back[k] == description[k];
  }

  /** The row addStep appends: unique id, STEP type, step type and cleaned description. */
  function StepRow(uniqueId: int, stepType: StepType, description: string): (r: Row)
    ensures r.Keys == {UNIQUE_ID, TYPE, STEP_TYPE, STEP_DESCRIPTION}
    ensures r[UNIQUE_ID] == Number(uniqueId) && r[TYPE] == Entity(STEP)
    ensures r[STEP_TYPE] == Step(stepType)
    ensures r[STEP_DESCRIPTION] == Text(CleanStepDescription(description))
  {
    NewRow(uniqueId, STEP)[STEP_TYPE := Step(stepType)][STEP_DESCRIPTION := Text(CleanStepDescription(description))]
  }

  /** A step row uses exactly the test converter's mandatory columns. */
  lemma StepRowColumns(uniqueId: int, stepType: StepType, description: string)
    ensures forall c :: c in StepRow(uniqueId, stepType, description) <==> c in TestMandatoryHeaders()
  {
    var hs := TestMandatoryHeaders();
    assert hs[0] == UNIQUE_ID && hs[1] == TYPE;
  }

  /** The test converter's output sheet always has the four mandatory columns. */
  lemma MandatoryColumnsPresent(pairs: seq<(string, string)>)
    ensures var headers := OutputHeaders(TestMandatoryHeaders(), pairs);
      UNIQUE_ID in headers && TYPE in headers && STEP_TYPE in headers && STEP_DESCRIPTION in headers
  {
    var hs := TestMandatoryHeaders();
    assert UNIQUE_ID == hs[0] && TYPE == hs[1] && STEP_TYPE == hs[2] && STEP_DESCRIPTION == hs[3];
  }

  /**
   * The loop of addManualTest over the pairs, on the row at `index` of
   * `sheet`: it writes what FillFields computes and ends as FillFields
   * ends.
   */
  method WriteFields(sheet: Sheet, index: nat, table: MappingTable, re: RegexEngine, inputHeaders: set<string>,
                     pairs: seq<(string, string)>, row: InputRow) returns (outcome: Outcome<ConversionFailure>)
    requires sheet.Valid() && index < |sheet.rows|
    requires forall k :: 0 <= k < |pairs| ==> pairs[k].1 in sheet.headerRow
    modifies sheet
    ensures sheet.Valid() && sheet.headerRow == old(sheet.headerRow)
    ensures sheet.rows == old(sheet.rows)[index := FillFields(table, re, inputHeaders, pairs, row, old(sheet.rows[index])).0]
    ensures outcome == FillFields(table, re, inputHeaders, pairs, row, old(sheet.rows[index])).1
  {
    ghost var goal := FillFields(table, re, inputHeaders, pairs, row, sheet.rows[index]);
    var i := 0;
    while i < |pairs|
      invariant 0 <= i <= |pairs|
      invariant sheet.Valid() && sheet.headerRow == old(sheet.headerRow)
      invariant |sheet.rows| == |old(sheet.rows)|
      invariant sheet.rows == old(sheet.rows)[index := sheet.rows[index]]
      invariant FillFields(table, re, inputHeaders, pairs[i..], row, sheet.rows[index]) == goal
      decreases |pairs| - i
    {
      var input := pairs[i].0;
      var output := pairs[i].1;
      FillFieldsStep(table, re, inputHeaders, pairs, i, row, sheet.rows[index]);
      var cell := ReadCell(inputHeaders, row, input);
      if cell.Success? {
        sheet.SetCellValue(index, output, Text(MappedCellValue(table, re, cell.value, input)));
      } else if !cell.error.ConversionRaised? {
        return Fail(cell.error);
      }
      i := i + 1;
    }
    assert pairs[i..] == [];
    return Pass;
  }

  /** The body of addStep on a sheet that has the four mandatory columns. */
  method AppendStep(sheet: Sheet, stepType: StepType, description: string)
    requires sheet.Valid()
    requires UNIQUE_ID in sheet.headerRow && TYPE in sheet.headerRow
    requires STEP_TYPE in sheet.headerRow && STEP_DESCRIPTION in sheet.headerRow
    modifies sheet
    ensures sheet.Valid() && sheet.headerRow == old(sheet.headerRow)
    ensures sheet.rows == old(sheet.rows) + [StepRow(old(|sheet.rows|) + 1, stepType, description)]
  {
    var index := sheet.CreateRow(STEP);
    sheet.SetCellValue(index, STEP_TYPE, Step(stepType));
    sheet.SetCellValue(index, STEP_DESCRIPTION, Text(CleanStepDescription(description)));
  }

  /** Why the converter could not be built. */
  datatype ConstructionFailure =
    | NullPath              // a null input or output path: a NullPointerException
    | InputFileNotFound     // FileNotFoundException
    | OutputNotExcel        // IllegalArgumentException from getOutputWorkbook

  /**
   * Why the workbooks of a run cannot be opened, if they cannot: a null
   * input path, a missing input file, a null output path, or an output path
   * that names no Excel file, in the order the constructor meets them.
   */
  function OpenFailure(props: ConversionProperties, existing: set<string>): (r: Option<ConstructionFailure>)
    ensures r.Some? <==>
      props.inputFilePath.None? || props.inputFilePath.value !in existing
      || props.outputFilePath.None? || OutputWorkbookKind(props.outputFilePath.value).Failure?
    ensures props.inputFilePath.None? ==> r == Some(NullPath)
    ensures props.inputFilePath.Some? && props.inputFilePath.value !in existing ==> r == Some(InputFileNotFound)
    ensures props.inputFilePath.Some? && props.inputFilePath.value in existing && props.outputFilePath.None? ==>
      r == Some(NullPath)
    ensures props.inputFilePath.Some? && props.inputFilePath.value in existing && props.outputFilePath.Some?
            && OutputWorkbookKind(props.outputFilePath.value).Failure? ==>
      r == Some(OutputNotExcel)
  {
    if props.inputFilePath.None? then Some(NullPath)
    else if props.inputFilePath.value !in existing then Some(InputFileNotFound)
    else if props.outputFilePath.None? then Some(NullPath)
    else if OutputWorkbookKind(props.outputFilePath.value).Failure? then Some(OutputNotExcel)
    else None
  }

  class TestConverter {
    const conversionMappings: MappingTable
    const regex: RegexEngine
    /** getInputFieldNameToOutputFieldName of the mappings. */
    const inputFieldNameToOutputFieldName: seq<(string, string)>
    /** The header names of the input sheet. */
    const inputHeaders: set<string>
    /** The workbook format chosen by the output file's extension. */
    const workbookKind: WorkbookKind
    const outputSheet: Sheet

    ghost predicate Valid()
      reads this, outputSheet
    {
      outputSheet.Valid()
      && inputFieldNameToOutputFieldName == InputToOutput(conversionMappings)
      && outputSheet.headerRow == OutputHeaders(TestMandatoryHeaders(), inputFieldNameToOutputFieldName)
    }

    /**
     * The AbstractConverter constructor for the "manual tests" sheet, once
     * the workbooks are open: the pairs are derived from the mappings and
     * the output sheet gets the header row.
     */
    constructor (container: ConversionInfoContainer, re: RegexEngine, inputHeaders: set<string>, kind: WorkbookKind)
      ensures Valid() && fresh(outputSheet)
      ensures conversionMappings == container.conversionMappings && regex == re
      ensures this.inputHeaders == inputHeaders && workbookKind == kind
      ensures outputSheet.name == MANUAL_TESTS && outputSheet.rows == []
    {
      conversionMappings := container.conversionMappings;
      regex := re;
      var pairs := InputToOutput(container.conversionMappings);
      inputFieldNameToOutputFieldName := pairs;
      this.inputHeaders := inputHeaders;
      workbookKind := kind;
      outputSheet := new Sheet(MANUAL_TESTS, OutputHeaders(TestMandatoryHeaders(), pairs));
    }

    /**
     * Opening the workbooks: the input file must exist, and the output
     * path must name an Excel file.
     */
    static method Create(container: ConversionInfoContainer, re: RegexEngine, existing: set<string>, inputHeaders: set<string>)
      returns (r: Result<TestConverter, ConstructionFailure>)
      ensures r.Failure? <==> OpenFailure(container.conversionProperties, existing).Some?
      ensures r.Failure? ==> r.error == OpenFailure(container.conversionProperties, existing).value
      ensures r.Success? ==>
        fresh(r.value) && fresh(r.value.outputSheet) && r.value.Valid()
        && r.value.conversionMappings == container.conversionMappings
        && r.value.workbookKind == OutputWorkbookKind(container.conversionProperties.outputFilePath.value).value
        && r.value.outputSheet.rows == []
    {
      var props := container.conversionProperties;
      if props.inputFilePath.None? {
        return Failure(NullPath);
      }
      if props.inputFilePath.value !in existing {
        return Failure(InputFileNotFound);
      }
      if props.outputFilePath.None? {
        return Failure(NullPath);
      }
      match OutputWorkbookKind(props.outputFilePath.value)
      case Failure(_) =>
        return Failure(OutputNotExcel);
      case Success(kind) =>
        var converter := new TestConverter(container, re, inputHeaders, kind);
        return Success(converter);
    }

    /**
     * addManualTest: appends one MANUAL_TEST row and writes into it, pair by
     * pair, the converted value of each input field under its target.
     */
    method AddManualTest(row: InputRow) returns (outcome: Outcome<ConversionFailure>)
      requires Valid()
      modifies outputSheet
      ensures Valid()
      ensures outputSheet.rows == old(outputSheet.rows) +
        [ManualTest(conversionMappings, regex, inputHeaders, inputFieldNameToOutputFieldName, row, old(|outputSheet.rows|) + 1).0]
      ensures outcome == ManualTest(conversionMappings, regex, inputHeaders, inputFieldNameToOutputFieldName, row, old(|outputSheet.rows|) + 1).1
    {
      MandatoryColumnsPresent(inputFieldNameToOutputFieldName);
      var index := outputSheet.CreateRow(MANUAL_TEST);
      outcome := FillRow(index, row);
    }

    /** The forEach of addManualTest, writing into the row at `index`. */
    method FillRow(index: nat, row: InputRow) returns (outcome: Outcome<ConversionFailure>)
      requires Valid() && index < |outputSheet.rows|
      modifies outputSheet
      ensures Valid()
      ensures outputSheet.rows == old(outputSheet.rows)[index :=
        FillFields(conversionMappings, regex, inputHeaders, inputFieldNameToOutputFieldName, row, old(outputSheet.rows[index])).0]
      ensures outcome == FillFields(conversionMappings, regex, inputHeaders, inputFieldNameToOutputFieldName, row, old(outputSheet.rows[index])).1
    {
      TargetsInHeaders(TestMandatoryHeaders(), inputFieldNameToOutputFieldName);
      outcome := WriteFields(outputSheet, index, conversionMappings, regex, inputHeaders, inputFieldNameToOutputFieldName, row);
    }

    /** addStep(stepType, description): appends one STEP row; the description is cleaned, not mapped. */
    method AddStep(stepType: StepType, description: string)
      requires Valid()
      modifies outputSheet
      ensures Valid()
      ensures outputSheet.rows == old(outputSheet.rows) + [StepRow(old(|outputSheet.rows|) + 1, stepType, description)]
    {
      MandatoryColumnsPresent(inputFieldNameToOutputFieldName);
      AppendStep(outputSheet, stepType, description);
    }

    /**
     * addStep(stepType, row, descriptionColumnName): the raw text of the
     * description cell, neither trimmed nor mapped, becomes the step; a
     * failed read adds no row.
     */
    method AddStepFromRow(stepType: StepType, row: InputRow, descriptionColumnName: string) returns (outcome: Outcome<ConversionFailure>)
      requires Valid()
      modifies outputSheet
      ensures Valid()
      ensures ReadCell(inputHeaders, row, descriptionColumnName).Failure? ==>
        outcome == Fail(ReadCell(inputHeaders, row, descriptionColumnName).error) && outputSheet.rows == old(outputSheet.rows)
      ensures ReadCell(inputHeaders, row, descriptionColumnName).Success? ==>
        outcome == Pass && outputSheet.rows == old(outputSheet.rows) +
          [StepRow(old(|outputSheet.rows|) + 1, stepType, ReadCell(inputHeaders, row, descriptionColumnName).value)]
    {
      match ReadCell(inputHeaders, row, descriptionColumnName)
      case Failure(f) =>
        return Fail(f);
      case Success(description) =>
        AddStep(stepType, description);
        return Pass;
    }

    /** addSimpleStep: addStep with SIMPLE. */
    method AddSimpleStep(row: InputRow, descriptionColumnName: string) returns (outcome: Outcome<ConversionFailure>)
      requires Valid()
      modifies outputSheet
      ensures Valid()
      ensures ReadCell(inputHeaders, row, descriptionColumnName).Failure? ==>
        outcome == Fail(ReadCell(inputHeaders, row, descriptionColumnName).error) && outputSheet.rows == old(outputSheet.rows)
      ensures ReadCell(inputHeaders, row, descriptionColumnName).Success? ==>
        outcome == Pass && outputSheet.rows == old(outputSheet.rows) +
          [StepRow(old(|outputSheet.rows|) + 1, SIMPLE, ReadCell(inputHeaders, row, descriptionColumnName).value)]
    {
      outcome := AddStepFromRow(SIMPLE, row, descriptionColumnName);
    }

    /** addValidationStep: addStep with VALIDATION. */
    method AddValidationStep(row: InputRow, descriptionColumnName: string) returns (outcome: Outcome<ConversionFailure>)
      requires Valid()
      modifies outputSheet
      ensures Valid()
      ensures ReadCell(inputHeaders, row, descriptionColumnName).Failure? ==>
        outcome == Fail(ReadCell(inputHeaders, row, descriptionColumnName).error) && outputSheet.rows == old(outputSheet.rows)
      ensures ReadCell(inputHeaders, row, descriptionColumnName).Success? ==>
        outcome == Pass && outputSheet.rows == old(outputSheet.rows) +
          [StepRow(old(|outputSheet.rows|) + 1, VALIDATION, ReadCell(inputHeaders, row, descriptionColumnName).value)]
    {
      outcome := AddStepFromRow(VALIDATION, row, descriptionColumnName);
    }

    /** addCallStep: always NotImplementedException; the sheet is not touched. */
    method AddCallStep(row: InputRow, descriptionColumnName: string) returns (outcome: Outcome<ConversionFailure>)
      ensures outcome == Fail(NotImplemented)
    {
      outcome := Fail(NotImplemented);
    }
  }
}

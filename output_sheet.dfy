/**
 * The output sheet a converter fills: a header row written once, then data
 * rows appended one after the other (createOutputSheetWithHeaders,
 * createRow and setCellValue of AbstractConverter). A row is a map from
 * column name to cell value; the header names are distinct, so a column
 * name stands for the column index the Java code looks up.
 */
module OutputSheet {
  import opened Text
  import opened OutputLayout

  /** The values of the type column (EntityType). */
  datatype EntityType = MANUAL_TEST | STEP

  /** The values of the step_type column (StepType). */
  datatype StepType = SIMPLE | VALIDATION

  /** What a cell holds: a text, an integer, or an enum constant written by its name. */
  datatype CellValue = Text(text: string) | Number(number: int) | Entity(entityType: EntityType) | Step(stepType: StepType)

  /** One data row: the cells written so far, by column name. */
  type Row = map<string, CellValue>

  /** The cells createRow writes into a new row. */
  function NewRow(uniqueId: int, entityType: EntityType): (r: Row)
    ensures r.Keys == {UNIQUE_ID, TYPE}
    ensures r[UNIQUE_ID] == Number(uniqueId) && r[TYPE] == Entity(entityType)
  {
    map[UNIQUE_ID := Number(uniqueId), TYPE := Entity(entityType)]
  }

  class Sheet {
    /** The sheet's name in its workbook. */
    const name: string
    /** Row 0: the header cells, left to right. */
    var headerRow: seq<string>
    /** Rows 1, 2, ...: data row k of the sheet is rows[k - 1]. */
    var rows: seq<Row>

    /** Header names are distinct and every cell sits under a header. */
    ghost predicate Valid()
      reads this
    {
      Distinct(headerRow)
      && forall k :: 0 <= k < |rows| ==> forall c :: c in rows[k] ==> c in headerRow
    }

    /** Every row created by CreateRow carries its own sheet row number as unique id. */
    ghost predicate IdsAreRowNumbers()
      reads this
    {
      forall k :: 0 <= k < |rows| ==> UNIQUE_ID in rows[k] && rows[k][UNIQUE_ID] == Number(k + 1)
    }

    /** createOutputSheetWithHeaders: a sheet called `name` whose header cell i holds headers[i]; no data row yet. */
    constructor (name: string, headers: seq<string>)
      requires Distinct(headers)
      ensures this.name == name && headerRow == headers && rows == []
      ensures Valid() && IdsAreRowNumbers()
    {
      var cells: seq<string> := [];
      var i := 0;
      while i < |headers|
        invariant 0 <= i <= |headers|
        invariant cells == headers[..i]
      {
        cells := cells + [headers[i]];
        i := i + 1;
      }
      this.name := name;
      headerRow := cells;
      rows := [];
    }

    /** getLastRowNum: the index of the last row; the header is row 0. */
    function LastRowNum(): (r: nat)
      reads this
      ensures r == |rows|
    {
      |rows|
    }

    /** createRow(uniqueId, entityType): a new last row holding the unique id and the type. */
    method CreateRowWithId(uniqueId: int, entityType: EntityType) returns (index: nat)
      requires Valid() && UNIQUE_ID in headerRow && TYPE in headerRow
      modifies this
      ensures Valid()
      ensures headerRow == old(headerRow)
      ensures index == old(|rows|) && index + 1 == LastRowNum()
      ensures rows == old(rows) + [NewRow(uniqueId, entityType)]
    {
      index := |rows|;
      rows := rows + [NewRow(uniqueId, entityType)];
    }

    /** createRow(entityType): the unique id is the number of the new row. */
    method CreateRow(entityType: EntityType) returns (index: nat)
      requires Valid() && UNIQUE_ID in headerRow && TYPE in headerRow
      modifies this
      ensures Valid()
      ensures headerRow == old(headerRow)
      ensures index == old(|rows|)
      ensures rows == old(rows) + [NewRow(old(LastRowNum()) + 1, entityType)]
      ensures old(IdsAreRowNumbers()) ==> IdsAreRowNumbers()
    {
      var uniqueId := LastRowNum() + 1;
      index := CreateRowWithId(uniqueId, entityType);
    }

    /** setCellValue: the cell of row `index` under `column` now holds `value`; nothing else changes. */
    method SetCellValue(index: nat, column: string, value: CellValue)
      requires Valid() && index < |rows| && column in headerRow
      modifies this
      ensures Valid()
      ensures headerRow == old(headerRow)
      ensures rows == old(rows)[index := old(rows)[index][column := value]]
      ensures old(IdsAreRowNumbers()) && column != UNIQUE_ID ==> IdsAreRowNumbers()
    {
      rows := rows[index := rows[index][column := value]];
    }
  }
}

/**
 * The shape of the output workbook that AbstractConverter derives from the
 * configuration: which input columns are copied to which output columns,
 * the output header row, and the workbook format chosen by the output
 * file's extension.
 */
module OutputLayout {
  import opened Wrappers
  import opened Text
  import opened Mappings

  /** Octane column names (BaseOctaneField). */
  const UNIQUE_ID: string := "unique_id"
  const TYPE: string := "type"
  const STEP_TYPE: string := "step_type"
  const STEP_DESCRIPTION: string := "step_description"

  /**
   * getInputFieldNameToOutputFieldName: the (input column, output column)
   * pairs of the mapping entries that have a target, in mapping order.
   */
  function InputToOutput(table: MappingTable): (r: seq<(string, string)>)
    ensures |r| <= |table|
    ensures (forall k :: 0 <= k < |table| ==> table[k].1.target.Some?) ==> |r| == |table|
  {
    if table == [] then [] else EntryPair(table[0]) + InputToOutput(table[1..])
  }

  /** The pair one mapping entry contributes: none when its target is null. */
  function EntryPair(entry: (string, FieldMapping)): (r: seq<(string, string)>)
    ensures |r| <= 1
  {
    match entry.1.target
    case Some(target) => [(entry.0, target)]
    case None => []
  }

  /** A pair is listed exactly when its input column is mapped to that target. */
  lemma {:induction false} InputToOutputMembers(table: MappingTable)
    ensures forall p :: p in InputToOutput(table) ==>
      exists i :: 0 <= i < |table| && table[i].0 == p.0 && table[i].1.target == Some(p.1)
    ensures forall i :: 0 <= i < |table| && table[i].1.target.Some? ==>
      (table[i].0, table[i].1.target.value) in InputToOutput(table)
  {
    if table != [] {
      InputToOutputMembers(table[1..]);
      var rest := InputToOutput(table[1..]);
      forall p | p in rest
        ensures exists i :: 0 <= i < |table| && table[i].0 == p.0 && table[i].1.target == Some(p.1)
      {
        var i :| 0 <= i < |table[1..]| && table[1..][i].0 == p.0 && table[1..][i].1.target == Some(p.1);
        assert table[i + 1] == table[1..][i];
      }
      forall i | 0 <= i < |table| && table[i].1.target.Some?
        ensures (table[i].0, table[i].1.target.value) in InputToOutput(table)
      {
        if i > 0 {
          assert table[i] == table[1..][i - 1];
        }
      }
    }
  }

  /** The pairs keep the order of the mapping table: the map of a concatenation is the concatenation of the maps. */
  lemma {:induction false} InputToOutputAppend(a: MappingTable, b: MappingTable)
    ensures InputToOutput(a + b) == InputToOutput(a) + InputToOutput(b)
  {
    if a == [] {
      assert a + b == b;
    } else {
      var ab := a + b;
      assert ab[0] == a[0] && ab[1..] == a[1..] + b;
      InputToOutputAppend(a[1..], b);
    }
  }

  /** Input column names are the mapping keys, so they stay distinct. */
  lemma {:induction false} InputToOutputKeysDistinct(table: MappingTable)
    requires DistinctKeys(table)
    ensures forall i, j :: 0 <= i < j < |InputToOutput(table)| ==> InputToOutput(table)[i].0 != InputToOutput(table)[j].0
  {
    if table != [] {
      InputToOutputKeysDistinct(table[1..]);
      InputToOutputMembers(table[1..]);
      var rest := InputToOutput(table[1..]);
      forall p | p in rest
        ensures p.0 != table[0].0
      {
        var i :| 0 <= i < |table[1..]| && table[1..][i].0 == p.0 && table[1..][i].1.target == Some(p.1);
        assert table[i + 1].0 == p.0;
      }
    }
  }

  /** The output column names of the pairs, in order. */
  function Targets(pairs: seq<(string, string)>): (r: seq<string>)
    ensures |r| == |pairs|
    ensures forall k :: 0 <= k < |r| ==> r[k] == pairs[k].1
  {
    seq(|pairs|, k requires 0 <= k < |pairs| => pairs[k].1)
  }

  /** The position of the first occurrence of `x` in `s`. */
  function FirstIndex<T(==)>(s: seq<T>, x: T): (r: nat)
    requires x in s
    ensures r < |s| && s[r] == x
    ensures forall k :: 0 <= k < r ==> s[k] != x
  {
    if s[0] == x then 0 else 1 + FirstIndex(s[1..], x)
  }

  /** A first occurrence inside a prefix is the first occurrence in the whole sequence. */
  lemma FirstIndexPrefix<T>(s: seq<T>, n: nat, x: T)
    requires n <= |s| && x in s[..n]
    ensures FirstIndex(s, x) == FirstIndex(s[..n], x)
  {
    var a := FirstIndex(s, x);
    var b := FirstIndex(s[..n], x);
    assert s[b] == x;
    if a < n {
      assert s[..n][a] == x;
    }
  }

  /**
   * A LinkedHashSet filled from `s`: every element once, at the place of
   * its first occurrence.
   */
  function Dedupe(s: seq<string>): (r: seq<string>)
    ensures Distinct(r)
    ensures forall x :: x in r <==> x in s
    ensures |r| <= |s|
  {
    if s == [] then []
    else
      var d := Dedupe(s[..|s| - 1]);
      if s[|s| - 1] in d then d else d + [s[|s| - 1]]
  }

  /** Adding more elements to a LinkedHashSet never moves the ones already there. */
  lemma {:induction false} DedupePrefix(a: seq<string>, b: seq<string>)
    ensures Dedupe(a) <= Dedupe(a + b)
    decreases |b|
  {
    if b == [] {
      assert a + b == a;
    } else {
      var c := a + b[..|b| - 1];
      DedupePrefix(a, b[..|b| - 1]);
      assert a + b == c + [b[|b| - 1]];
      assert (a + b)[..|a + b| - 1] == c;
    }
  }

  /** A sequence without repeats is its own LinkedHashSet. */
  lemma {:induction false} DedupeOfDistinct(s: seq<string>)
    requires Distinct(s)
    ensures Dedupe(s) == s
  {
    if s != [] {
      var init := s[..|s| - 1];
      assert Distinct(init);
      DedupeOfDistinct(init);
      assert s[|s| - 1] !in init;
      assert init + [s[|s| - 1]] == s;
    }
  }

  /** The elements are listed in the order of their first occurrence in `s`. */
  lemma {:induction false} DedupeOrder(s: seq<string>)
    ensures forall i, j :: 0 <= i < j < |Dedupe(s)| ==> FirstIndex(s, Dedupe(s)[i]) < FirstIndex(s, Dedupe(s)[j])
  {
    if s != [] {
      var init := s[..|s| - 1];
      var d := Dedupe(init);
      var x := s[|s| - 1];
      DedupeOrder(init);
      assert s[..|s| - 1] == init;
      forall y | y in d
        ensures FirstIndex(s, y) == FirstIndex(init, y) < |init|
      {
        FirstIndexPrefix(s, |s| - 1, y);
      }
      if x !in d {
        assert x !in init;
        assert FirstIndex(s, x) == |init|;
      }
    }
  }

  /** getMandatoryOutputHeaders of every converter: unique_id, then type. */
  function BaseMandatoryHeaders(): (r: seq<string>)
    ensures Distinct(r) && |r| == 2
    ensures r[0] == UNIQUE_ID && r[1] == TYPE
  {
    [UNIQUE_ID, TYPE]
  }

  /**
   * getOutputHeaders: the mandatory headers, then the targets, each name
   * once at its first position.
   */
  function OutputHeaders(mandatory: seq<string>, pairs: seq<(string, string)>): (r: seq<string>)
    ensures Distinct(r)
    ensures forall h :: h in r <==> h in mandatory || exists k :: 0 <= k < |pairs| && pairs[k].1 == h
  {
    var all := mandatory + Targets(pairs);
    assert forall h :: h in all <==> h in mandatory || h in Targets(pairs);
    Dedupe(all)
  }

  /** Every target has its column. */
  lemma TargetsInHeaders(mandatory: seq<string>, pairs: seq<(string, string)>)
    ensures forall k :: 0 <= k < |pairs| ==> pairs[k].1 in OutputHeaders(mandatory, pairs)
  {
    forall k | 0 <= k < |pairs|
      ensures pairs[k].1 in OutputHeaders(mandatory, pairs)
    {
      assert Targets(pairs)[k] == pairs[k].1;
    }
  }

  /** Distinct mandatory headers come first, unchanged and in their own order. */
  lemma MandatoryHeadersFirst(mandatory: seq<string>, pairs: seq<(string, string)>)
    requires Distinct(mandatory)
    ensures mandatory <= OutputHeaders(mandatory, pairs)
  {
    DedupePrefix(mandatory, Targets(pairs));
    DedupeOfDistinct(mandatory);
  }

  /** Every header is placed by the first place its name occurs among mandatory headers and targets. */
  lemma HeadersInFirstOccurrenceOrder(mandatory: seq<string>, pairs: seq<(string, string)>)
    ensures var all := mandatory + Targets(pairs);
      forall i, j :: 0 <= i < j < |OutputHeaders(mandatory, pairs)| ==>
        FirstIndex(all, OutputHeaders(mandatory, pairs)[i]) < FirstIndex(all, OutputHeaders(mandatory, pairs)[j])
  {
    DedupeOrder(mandatory + Targets(pairs));
  }

  /** The two Excel workbook formats of Apache POI. */
  datatype WorkbookKind = XSSF | HSSF

  /** getOutputWorkbook refuses a path that is not an Excel file (IllegalArgumentException). */
  datatype WorkbookError = NotAnExcelFile

  /** getOutputWorkbook: ".xlsx" gives an XSSF workbook, ".xls" an HSSF one, anything else fails. */
  function OutputWorkbookKind(outputFilePath: string): (r: Result<WorkbookKind, WorkbookError>)
    ensures r.Success? <==> EndsWith(outputFilePath, ".xlsx") || EndsWith(outputFilePath, ".xls")
    ensures r == Success(XSSF) <==> EndsWith(outputFilePath, ".xlsx")
    ensures r == Success(HSSF) <==> EndsWith(outputFilePath, ".xls")
  {
    XlsxIsNotXls(outputFilePath);
    if EndsWith(outputFilePath, ".xlsx") then Success(XSSF)
    else if EndsWith(outputFilePath, ".xls") then Success(HSSF)
    else Failure(NotAnExcelFile)
  }

  /** The two extensions never both fit, so the order of the tests does not matter. */
  lemma XlsxIsNotXls(path: string)
    ensures EndsWith(path, ".xlsx") ==> !EndsWith(path, ".xls")
  {
    if EndsWith(path, ".xlsx") {
      assert path[|path| - 1] == ".xlsx"[4] == 'x';
    }
  }
}

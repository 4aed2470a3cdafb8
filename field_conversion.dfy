/**
 * How one input value becomes an output value (AbstractConverter.convertField,
 * getMappedValue and getMappedCellValue): an unmapped field passes through;
 * a mapped one is rewritten by its literal table, then its "default" entry,
 * then its first whole-value regex rule, and is otherwise kept; with a
 * separator every piece is rewritten on its own.
 */
module FieldConversion {
  import opened Wrappers
  import opened Text
  import opened Mappings

  /** The position of the first rule whose pattern matches the whole value. */
  function FirstMatchingRule(rules: seq<RegexMapping>, value: string, re: RegexEngine): (r: Option<nat>)
    ensures r.Some? ==> r.value < |rules| && re.fullMatch(rules[r.value].pattern, value)
    ensures r.Some? ==> forall j :: 0 <= j < r.value ==> !re.fullMatch(rules[j].pattern, value)
    ensures r.None? ==> forall j :: 0 <= j < |rules| ==> !re.fullMatch(rules[j].pattern, value)
  {
    if rules == [] then None
    else if re.fullMatch(rules[0].pattern, value) then Some(0)
    else match FirstMatchingRule(rules[1..], value, re)
      case None => None
      case Some(i) => Some(i + 1)
  }

  /**
   * The value getMappedValue returns for one (already trimmed) value: the
   * literal table first, then its "default" entry, then the first regex
   * rule that matches the whole value; a value nothing applies to comes
   * back unchanged. GetMappedValue below states the rule order in full.
   */
  function MappedValue(fm: FieldMapping, value: string, re: RegexEngine): (r: string)
    ensures value in fm.mappings ==> r == fm.mappings[value]
    ensures value !in fm.mappings && DEFAULT in fm.mappings ==> r == fm.mappings[DEFAULT]
    ensures value !in fm.mappings && DEFAULT !in fm.mappings && FirstMatchingRule(fm.regexMappings, value, re).None? ==>
      r == value
  {
    if value in fm.mappings then fm.mappings[value]
    else if DEFAULT in fm.mappings then fm.mappings[DEFAULT]
    else match FirstMatchingRule(fm.regexMappings, value, re)
      case Some(i) => re.replaceAll(fm.regexMappings[i].pattern, value, fm.regexMappings[i].replacement)
      case None => value
  }

  /**
   * getMappedValue as the source writes it, with its loop over the regex
   * rules: the literal table first, then its "default" entry, then the
   * rules in order; the first rule that matches the whole value decides,
   * and a value nothing applies to comes back unchanged. It computes
   * MappedValue, which the conversion functions use.
   */
  method GetMappedValue(fm: FieldMapping, value: string, re: RegexEngine) returns (r: string)
    ensures value in fm.mappings ==> r == fm.mappings[value]
    ensures value !in fm.mappings && DEFAULT in fm.mappings ==> r == fm.mappings[DEFAULT]
    ensures value !in fm.mappings && DEFAULT !in fm.mappings ==>
      (exists i :: 0 <= i < |fm.regexMappings|
         && re.fullMatch(fm.regexMappings[i].pattern, value)
         && (forall j :: 0 <= j < i ==> !re.fullMatch(fm.regexMappings[j].pattern, value))
         && r == re.replaceAll(fm.regexMappings[i].pattern, value, fm.regexMappings[i].replacement))
      || ((forall j :: 0 <= j < |fm.regexMappings| ==> !re.fullMatch(fm.regexMappings[j].pattern, value))
         && r == value)
    ensures r == MappedValue(fm, value, re)
  {
    if value in fm.mappings {
      return fm.mappings[value];
    }
    if DEFAULT in fm.mappings {
      return fm.mappings[DEFAULT];
    }
    var rules := fm.regexMappings;
    var i := 0;
    while i < |rules|
      invariant 0 <= i <= |rules|
      invariant forall j :: 0 <= j < i ==> !re.fullMatch(rules[j].pattern, value)
    {
      if re.fullMatch(rules[i].pattern, value) {
        return re.replaceAll(rules[i].pattern, value, rules[i].replacement);
      }
      i := i + 1;
    }
    return value;
  }

  /** An exact literal key decides alone: neither the rules nor the engine matter. */
  lemma ExactKeyWins(fm: FieldMapping, value: string, re: RegexEngine, rules: seq<RegexMapping>, re': RegexEngine)
    requires value in fm.mappings
    ensures MappedValue(fm, value, re) == fm.mappings[value]
    ensures MappedValue(fm.(regexMappings := rules), value, re') == MappedValue(fm, value, re)
  {
  }

  /** Without an exact key the "default" entry decides and no regex rule is consulted. */
  lemma DefaultShadowsRegex(fm: FieldMapping, value: string, re: RegexEngine, rules: seq<RegexMapping>, re': RegexEngine)
    requires value !in fm.mappings && DEFAULT in fm.mappings
    ensures MappedValue(fm, value, re) == fm.mappings[DEFAULT]
    ensures MappedValue(fm.(regexMappings := rules), value, re') == MappedValue(fm, value, re)
  {
  }

  /** The rules after the first matching one are never looked at. */
  lemma {:induction false} FirstMatchIgnoresLaterRules(rules: seq<RegexMapping>, i: nat, later: seq<RegexMapping>, value: string, re: RegexEngine)
    requires i < |rules| && re.fullMatch(rules[i].pattern, value)
    requires forall j :: 0 <= j < i ==> !re.fullMatch(rules[j].pattern, value)
    ensures FirstMatchingRule(rules[..i + 1] + later, value, re) == Some(i)
    ensures FirstMatchingRule(rules, value, re) == Some(i)
  {
    if i > 0 {
      FirstMatchIgnoresLaterRules(rules[1..], i - 1, later, value, re);
      assert (rules[..i + 1] + later)[1..] == rules[1..][..i] + later;
    }
  }

  /** With no key, no default and no rule matching the whole value, the value is kept. */
  lemma NothingAppliesKeepsValue(fm: FieldMapping, value: string, re: RegexEngine)
    requires value !in fm.mappings && DEFAULT !in fm.mappings
    requires forall j :: 0 <= j < |fm.regexMappings| ==> !re.fullMatch(fm.regexMappings[j].pattern, value)
    ensures MappedValue(fm, value, re) == value
  {
  }

  /** The pieces of a separated value, each trimmed. */
  function TrimAll(pieces: seq<string>): (r: seq<string>)
    ensures |r| == |pieces|
    ensures forall k :: 0 <= k < |r| ==> r[k] == Trim(pieces[k])
  {
    seq(|pieces|, k requires 0 <= k < |pieces| => Trim(pieces[k]))
  }

  /** The separated branch: each (trimmed) piece mapped; empty results dropped; order kept. */
  function KeptValues(fm: FieldMapping, pieces: seq<string>, re: RegexEngine): (r: seq<string>)
    ensures |r| <= |pieces|
    ensures forall k :: 0 <= k < |r| ==> r[k] != ""
  {
    if pieces == [] then []
    else
      var mapped := MappedValue(fm, pieces[0], re);
      var rest := KeptValues(fm, pieces[1..], re);
      if mapped == "" then rest else [mapped] + rest
  }

  /** KeptValues works piece by piece: it distributes over concatenation, so input order is output order. */
  lemma {:induction false} KeptValuesAppend(fm: FieldMapping, a: seq<string>, b: seq<string>, re: RegexEngine)
    ensures KeptValues(fm, a + b, re) == KeptValues(fm, a, re) + KeptValues(fm, b, re)
  {
    if a != [] {
      var first := KeptValues(fm, [a[0]], re);
      calc {
        KeptValues(fm, a + b, re);
        { KeptValuesFirst(fm, a + b, re);
          assert (a + b)[0] == a[0] && (a + b)[1..] == a[1..] + b; }
        first + KeptValues(fm, a[1..] + b, re);
        { KeptValuesAppend(fm, a[1..], b, re); }
        first + (KeptValues(fm, a[1..], re) + KeptValues(fm, b, re));
        (first + KeptValues(fm, a[1..], re)) + KeptValues(fm, b, re);
        { KeptValuesFirst(fm, a, re); }
        KeptValues(fm, a, re) + KeptValues(fm, b, re);
      }
    } else {
      assert a + b == b;
    }
  }

  /** The first piece contributes what it alone would, ahead of the rest. */
  lemma KeptValuesFirst(fm: FieldMapping, pieces: seq<string>, re: RegexEngine)
    requires pieces != []
    ensures KeptValues(fm, pieces, re) == KeptValues(fm, [pieces[0]], re) + KeptValues(fm, pieces[1..], re)
  {
    assert [pieces[0]][1..] == [];
  }

  /** A piece is dropped exactly when its MAPPED value is empty. */
  lemma KeptValuesOfOne(fm: FieldMapping, piece: string, re: RegexEngine)
    ensures KeptValues(fm, [piece], re) ==
      if MappedValue(fm, piece, re) == "" then [] else [MappedValue(fm, piece, re)]
  {
    assert [piece][1..] == [];
    assert KeptValues(fm, [], re) == [];
  }

  /**
   * Emptiness is tested after mapping: when the "default" entry and every
   * literal value are non-empty no piece is dropped, not even an empty one.
   */
  lemma {:induction false} NothingDroppedWithDefault(fm: FieldMapping, pieces: seq<string>, re: RegexEngine)
    requires DEFAULT in fm.mappings
    requires forall key :: key in fm.mappings ==> fm.mappings[key] != ""
    ensures |KeptValues(fm, pieces, re)| == |pieces|
    ensures forall k :: 0 <= k < |pieces| ==> KeptValues(fm, pieces, re)[k] == MappedValue(fm, pieces[k], re)
  {
    if pieces != [] {
      NothingDroppedWithDefault(fm, pieces[1..], re);
    }
  }

  /** convertField for one field value. */
  function ConvertField(table: MappingTable, re: RegexEngine, fieldValue: string, fieldName: string): (r: string)
    ensures Lookup(table, fieldName).None? ==> r == fieldValue
  {
    match Lookup(table, fieldName)
    case None => fieldValue
    case Some(fm) =>
      match fm.mappingsSeparator
      case Some(separator) => Join(KeptValues(fm, TrimAll(Split(fieldValue, separator)), re), ",")
      case None => MappedValue(fm, fieldValue, re)
  }

  /** Without a separator a mapped field is converted as one value. */
  lemma ConvertWithoutSeparator(table: MappingTable, re: RegexEngine, fieldValue: string, fieldName: string, fm: FieldMapping)
    requires Lookup(table, fieldName) == Some(fm) && fm.mappingsSeparator.None?
    ensures ConvertField(table, re, fieldValue, fieldName) == MappedValue(fm, fieldValue, re)
  {
  }

  /**
   * With a separator the output splits back, on ",", into the kept mapped
   * pieces in input order, as long as none of them contains a comma.
   */
  lemma SeparatedRoundTrip(table: MappingTable, re: RegexEngine, fieldValue: string, fieldName: string, fm: FieldMapping)
    requires Lookup(table, fieldName) == Some(fm) && fm.mappingsSeparator.Some?
    requires KeptValues(fm, TrimAll(Split(fieldValue, fm.mappingsSeparator.value)), re) != []
    requires forall k :: 0 <= k < |KeptValues(fm, TrimAll(Split(fieldValue, fm.mappingsSeparator.value)), re)| ==>
      ',' !in KeptValues(fm, TrimAll(Split(fieldValue, fm.mappingsSeparator.value)), re)[k]
    ensures Split(ConvertField(table, re, fieldValue, fieldName), ",") ==
      KeptValues(fm, TrimAll(Split(fieldValue, fm.mappingsSeparator.value)), re)
  {
    SplitJoin(KeptValues(fm, TrimAll(Split(fieldValue, fm.mappingsSeparator.value)), re), ',');
  }

  /** getMappedCellValue: the cell's text is trimmed before it is converted. */
  function MappedCellValue(table: MappingTable, re: RegexEngine, cellValue: string, columnName: string): (r: string)
    ensures Lookup(table, columnName).None? ==> r == Trim(cellValue)
    ensures Lookup(table, columnName).None? ==> r == [] || (!IsTrimmable(r[0]) && !IsTrimmable(r[|r| - 1]))
  {
    ConvertField(table, re, Trim(cellValue), columnName)
  }

  /** Blanks around the cell's text never reach the mapping: a cell converts as its trimmed text does. */
  lemma MappedCellValueIgnoresBlanks(table: MappingTable, re: RegexEngine, cellValue: string, columnName: string)
    ensures MappedCellValue(table, re, cellValue, columnName) == MappedCellValue(table, re, Trim(cellValue), columnName)
  {
    TrimIdempotent(cellValue);
  }

  /** A value that trim leaves as it is and that holds no comma: one clean item of a list. */
  predicate CleanItem(s: string)
  {
    s != [] && !IsTrimmable(s[0]) && !IsTrimmable(s[|s| - 1]) && ',' !in s
  }

  /** The blanks around " b " stay through the split; the trailing " " piece is not empty, so it is kept. */
  lemma SplitPaddedList(a: string, b: string)
    requires CleanItem(a) && CleanItem(b)
    ensures Split(a + ", " + b + " , ", ",") == [a, [' '] + b + [' '], " "]
  {
    PaddedListPieces(a, b);
  }

  /** The separator scan of the padded list: three pieces, none dropped yet. */
  lemma PaddedListPieces(a: string, b: string)
    requires CleanItem(a) && CleanItem(b)
    ensures Pieces(a + ", " + b + " , ", [','], "") == [a, [' '] + b + [' '], " "]
  {
    var mid := [' '] + b + [' '];
    var tail := mid + [','] + " ";
    assert a + ", " + b + " , " == a + [','] + tail;
    PiecesOfPlainThenSep(a, ',', tail, "");
    PiecesOfPlainThenSep(mid, ',', " ", "");
    PiecesOfPlain(" ", ',', "");
    assert "" + a == a && "" + mid == mid && "" + " " == " ";
  }

  /** Trimming the pieces leaves the last one empty. */
  lemma TrimPaddedList(a: string, b: string)
    requires CleanItem(a) && CleanItem(b)
    ensures TrimAll([a, [' '] + b + [' '], " "]) == [a, b, ""]
  {
    TrimFixesTrimmed(a);
    TrimPadded(b);
    assert " " == [' '] + "";
    TrimLeadingBlank("");
    var r := TrimAll([a, [' '] + b + [' '], " "]);
    assert r == [r[0], r[1], r[2]];
  }

  /** With no literal, no default and no rule every piece maps to itself, so only the empty one is dropped. */
  lemma KeptPlainList(fm: FieldMapping, a: string, b: string, re: RegexEngine)
    requires fm.mappings == map[] && fm.regexMappings == []
    requires a != "" && b != ""
    ensures KeptValues(fm, [a, b, ""], re) == [a, b]
  {
    assert MappedValue(fm, "", re) == "";
    assert MappedValue(fm, a, re) == a;
    assert MappedValue(fm, b, re) == b;
    assert [a, b, ""][1..] == [b, ""];
    assert [b, ""][1..] == [""];
    KeptValuesOfOne(fm, "", re);
  }

  /**
   * A field with separator "," and an empty literal table: "a, b , "
   * becomes "a,b", whatever the regex engine, because the pieces are
   * trimmed and the blank last piece maps to the empty string and is
   * dropped.
   */
  lemma SeparatedExample(table: MappingTable, a: string, b: string, re: RegexEngine)
    requires table == [("Tags", FieldMapping(Some("user_tags"), map[], [], Some(",")))]
    requires CleanItem(a) && CleanItem(b)
    ensures ConvertField(table, re, a + ", " + b + " , ", "Tags") == a + "," + b
  {
    var fm := table[0].1;
    var value := a + ", " + b + " , ";
    assert Lookup(table, "Tags") == Some(fm);
    assert ConvertField(table, re, value, "Tags") == Join(KeptValues(fm, TrimAll(Split(value, ",")), re), ",");
    SplitPaddedList(a, b);
    TrimPaddedList(a, b);
    KeptPlainList(fm, a, b, re);
    assert [a, b][1..] == [b];
  }
}

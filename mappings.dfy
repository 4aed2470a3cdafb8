/**
 * The mapping configuration: one FieldMapping per input field name, kept in
 * the order of the configuration document (a LinkedHashMap).
 */
module Mappings {
  import opened Wrappers

  /** The reserved literal key whose value is the fallback of a literal table. */
  const DEFAULT: string := "default"

  /**
   * java.util.regex seen through the two calls the converter makes:
   * whether a pattern matches the WHOLE value (Matcher.matches), and the
   * result of Matcher.replaceAll(replacement) on that value.
   */
  datatype RegexEngine = RegexEngine(
    fullMatch: (string, string) -> bool,
    replaceAll: (string, string, string) -> string)

  /** One pattern -> replacement rule; the replacement may use capture groups. */
  datatype RegexMapping = RegexMapping(pattern: string, replacement: string)

  /** The rules for one input field. */
  datatype FieldMapping = FieldMapping(
    target: Option<string>,
    mappings: map<string, string>,
    regexMappings: seq<RegexMapping>,
    mappingsSeparator: Option<string>)

  /** field name -> FieldMapping, in configuration order. */
  type MappingTable = seq<(string, FieldMapping)>

  /** A map has each key once. */
  predicate DistinctKeys(table: MappingTable)
  {
    forall i, j :: 0 <= i < j < |table| ==> table[i].0 != table[j].0
  }

  /** Map.get: the FieldMapping of `name`, or None when the field is not mapped. */
  function Lookup(table: MappingTable, name: string): (r: Option<FieldMapping>)
    ensures r.None? <==> forall i :: 0 <= i < |table| ==> table[i].0 != name
    ensures r.Some? ==> exists i :: 0 <= i < |table| && table[i] == (name, r.value)
  {
    if table == [] then None
    else if table[0].0 == name then Some(table[0].1)
    else
      var r := Lookup(table[1..], name);
      assert r.Some? ==> exists i :: 0 <= i < |table| && table[i] == (name, r.value) by {
        if r.Some? {
          var i :| 0 <= i < |table[1..]| && table[1..][i] == (name, r.value);
          assert table[i + 1] == (name, r.value);
        }
      }
      r
  }

  /** In a table with distinct keys, Lookup finds the one entry of the name. */
  lemma LookupAt(table: MappingTable, i: nat)
    requires DistinctKeys(table) && i < |table|
    ensures Lookup(table, table[i].0) == Some(table[i].1)
  {
    var r := Lookup(table, table[i].0);
    var j :| 0 <= j < |table| && table[j] == (table[i].0, r.value);
    assert i == j;
  }
}

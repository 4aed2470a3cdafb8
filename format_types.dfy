/** The input formats the converter knows by name (ExcelFormatType). */
module FormatTypes {

  datatype ExcelFormatType = QTEST | OCTANE | UNKNOWN

  /** The enum constant's name, as toString gives it. */
  function Name(t: ExcelFormatType): string
  {
    match t
    case QTEST => "QTEST"
    case OCTANE => "OCTANE"
    case UNKNOWN => "UNKNOWN"
  }

  /** Different constants have different names. */
  lemma NameInjective(a: ExcelFormatType, b: ExcelFormatType)
    ensures Name(a) == Name(b) <==> a == b
  {
  }

  /**
   * validTypes: the names of the formats a converter exists for. It is a
   * constant, so every call yields the same set.
   */
  function ValidTypes(): (r: set<string>)
    ensures |r| == 1
    ensures forall t :: Name(t) in r <==> t == QTEST
  {
    {Name(QTEST)}
  }
}

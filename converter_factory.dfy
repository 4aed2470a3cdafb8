/**
 * ConverterFactory: picks the converter for the configured input format.
 * Only QTEST has one; OCTANE and UNKNOWN are refused with a
 * ConversionException naming the format.
 */
module ConverterFactory {
  import opened Wrappers
  import opened FormatTypes
  import opened Mappings
  import opened Configuration
  import opened IntegrityChecking
  import opened TestConverter

  /** The converters there are. */
  datatype ConverterKind = QTestConverter

  /** Why no converter came back. */
  datatype FactoryFailure =
    | UnsupportedFormatType(formatType: ExcelFormatType) // the ConversionException of the default branch
    | ConstructionFailed(failure: ConstructionFailure)   // the converter's own constructor failed

  /** The switch of getConverter: which converter a format gets, if any. */
  function ConverterFor(formatType: ExcelFormatType): (r: Option<ConverterKind>)
    ensures r.Some? <==> Name(formatType) in ValidTypes()
  {
    match formatType
    case QTEST => Some(QTestConverter)
    case _ => None
  }

  /**
   * OCTANE is a format the integrity checks let through, yet the factory
   * has no converter for it: a run configured for OCTANE passes the checks
   * and then fails here.
   */
  lemma OctanePassesChecksButHasNoConverter()
    ensures ErrorCount(FormatIssues(OCTANE)) == 0
    ensures ConverterFor(OCTANE).None?
  {
    assert Name(OCTANE) !in ValidTypes();
  }

  /** Every format refused by the integrity checks is refused here too. */
  lemma RefusedFormatHasNoConverter(formatType: ExcelFormatType)
    requires ErrorCount(FormatIssues(formatType)) > 0
    ensures ConverterFor(formatType).None?
  {
    assert formatType == UNKNOWN;
    assert Name(UNKNOWN) !in ValidTypes();
  }

  /**
   * getConverter: a QTEST configuration gets a new converter exactly when
   * its workbooks can be opened, and otherwise fails as the converter's
   * constructor fails; every other format fails with that format and
   * nothing is built.
   */
  method GetConverter(container: ConversionInfoContainer, re: RegexEngine, existing: set<string>, inputHeaders: set<string>)
    returns (r: Result<TestConverter, FactoryFailure>)
    ensures ConverterFor(container.conversionProperties.inputFileFormatType).None? <==>
      r == Failure(UnsupportedFormatType(container.conversionProperties.inputFileFormatType))
    ensures container.conversionProperties.inputFileFormatType == QTEST ==>
      (r.Success? <==> OpenFailure(container.conversionProperties, existing).None?)
    ensures container.conversionProperties.inputFileFormatType == QTEST && r.Failure? ==>
      r.error == ConstructionFailed(OpenFailure(container.conversionProperties, existing).value)
    ensures r.Success? ==>
      container.conversionProperties.inputFileFormatType == QTEST
      && fresh(r.value) && r.value.Valid()
      && r.value.conversionMappings == container.conversionMappings
      && r.value.outputSheet.rows == []
  {
    var inputFileFormat := container.conversionProperties.inputFileFormatType;
    if inputFileFormat == QTEST {
      var built := TestConverter.Create(container, re, existing, inputHeaders);
      if built.Success? {
        return Success(built.value);
      }
      return Failure(ConstructionFailed(built.error));
    }
    return Failure(UnsupportedFormatType(inputFileFormat));
  }
}

/**
 * ConversionProperties and ConversionInfoContainer: the immutable run
 * parameters, and the effect of loading them from a properties file.
 */
module Configuration {
  import opened Wrappers
  import opened Text
  import opened FormatTypes
  import opened Mappings

  const INPUT_FILE_PATH: string := "input.file.path"
  const INPUT_FILE_FORMAT_TYPE: string := "input.file.format.type"
  const OUTPUT_FILE_PATH: string := "output.file.path"

  /**
   * The run parameters. A datatype value cannot change once built, as the
   * Java class has a private constructor and getters only.
   */
  datatype ConversionProperties = ConversionProperties(
    inputFilePath: Option<string>,
    inputFileFormatType: ExcelFormatType,
    outputFilePath: Option<string>)

  /** The two configuration objects a run works from. */
  datatype ConversionInfoContainer = ConversionInfoContainer(
    conversionProperties: ConversionProperties,
    conversionMappings: MappingTable)

  /** A text property: absent and empty values both read as null. */
  function TextProperty(entries: map<string, string>, key: string): (r: Option<string>)
    ensures r.Some? <==> key in entries && entries[key] != ""
    ensures r.Some? ==> r.value == entries[key]
  {
    if key in entries && entries[key] != "" then Some(entries[key]) else None
  }

  /**
   * An enum property, read with case-insensitive names; a value that names
   * no constant reads as null.
   */
  function ParseFormatType(text: string): (r: Option<ExcelFormatType>)
    ensures r.Some? ==> ToUpper(text) == Name(r.value)
    ensures r.None? ==> forall t :: ToUpper(text) != Name(t)
  {
    var upper := ToUpper(text);
    if upper == Name(QTEST) then Some(QTEST)
    else if upper == Name(OCTANE) then Some(OCTANE)
    else if upper == Name(UNKNOWN) then Some(UNKNOWN)
    else None
  }

  /**
   * getProperties: the record a properties file yields. The format field
   * starts as QTEST and a null read for it is skipped, so it changes only
   * when the file names a format.
   */
  function GetProperties(entries: map<string, string>): (p: ConversionProperties)
    ensures p.inputFilePath == TextProperty(entries, INPUT_FILE_PATH)
    ensures p.outputFilePath == TextProperty(entries, OUTPUT_FILE_PATH)
    ensures INPUT_FILE_FORMAT_TYPE !in entries ==> p.inputFileFormatType == QTEST
    ensures p.inputFileFormatType != QTEST ==>
      INPUT_FILE_FORMAT_TYPE in entries && ToUpper(entries[INPUT_FILE_FORMAT_TYPE]) == Name(p.inputFileFormatType)
    ensures INPUT_FILE_FORMAT_TYPE in entries && ParseFormatType(entries[INPUT_FILE_FORMAT_TYPE]).Some? ==>
      p.inputFileFormatType == ParseFormatType(entries[INPUT_FILE_FORMAT_TYPE]).value
    ensures INPUT_FILE_FORMAT_TYPE in entries && ParseFormatType(entries[INPUT_FILE_FORMAT_TYPE]).None? ==>
      p.inputFileFormatType == QTEST
  {
    var format :=
      if INPUT_FILE_FORMAT_TYPE in entries then ParseFormatType(entries[INPUT_FILE_FORMAT_TYPE]) else None;
    ConversionProperties(
      TextProperty(entries, INPUT_FILE_PATH),
      match format case Some(t) => t case None => QTEST,
      TextProperty(entries, OUTPUT_FILE_PATH))
  }

  /** A format value that names no format (an unknown or empty one) leaves the QTEST default. */
  lemma UnreadableFormatKeepsDefault(entries: map<string, string>)
    requires INPUT_FILE_FORMAT_TYPE in entries
    requires forall t :: ToUpper(entries[INPUT_FILE_FORMAT_TYPE]) != Name(t)
    ensures GetProperties(entries).inputFileFormatType == QTEST
  {
  }

  /** Paths have no default: without the key, or with an empty value, they are null. */
  lemma PathsHaveNoDefault(entries: map<string, string>)
    requires INPUT_FILE_PATH !in entries
    requires OUTPUT_FILE_PATH in entries && entries[OUTPUT_FILE_PATH] == ""
    ensures GetProperties(entries).inputFilePath == None
    ensures GetProperties(entries).outputFilePath == None
  {
  }

  /** A format value that names a format, in any case, selects that format. */
  lemma FormatValueSelectsFormat(entries: map<string, string>, t: ExcelFormatType)
    requires INPUT_FILE_FORMAT_TYPE in entries
    requires ToUpper(entries[INPUT_FILE_FORMAT_TYPE]) == Name(t)
    ensures GetProperties(entries).inputFileFormatType == t
  {
    var r := ParseFormatType(entries[INPUT_FILE_FORMAT_TYPE]);
    assert r.Some?;
    NameInjective(r.value, t);
  }

  /** The format name is read without regard to case. */
  lemma FormatNameIgnoresCase()
    ensures GetProperties(map[INPUT_FILE_FORMAT_TYPE := "octane"]).inputFileFormatType == OCTANE
  {
    assert ToUpper("octane") == "OCTANE";
  }
}

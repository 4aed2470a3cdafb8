/**
 * IntegrityChecker: the checks run whenever a ConversionInfoContainer is
 * built. Every property check and every mapping check reports to the
 * handler; none stops the others; then the handler's gate decides. The
 * file system is a parameter: the paths that exist and those another
 * process holds locked.
 */
module IntegrityChecking {
  import opened Wrappers
  import opened Text
  import opened FormatTypes
  import opened Mappings
  import opened Configuration
  import opened IntegrityHandling

  /** What the checks can see of the file system. */
  datatype FileSystem = FileSystem(existing: set<string>, locked: set<string>)

  /** isLocked: a missing file is not locked; an existing one is when it cannot be locked for writing. */
  predicate IsLocked(fs: FileSystem, path: string)
  {
    path in fs.existing && path in fs.locked
  }

  /** One message the checks log, with the handler counter it increments. */
  datatype Issue =
    | NoInputFile                    // error
    | InputFileMissing(path: string) // error
    | InputFileInUse(path: string)   // error
    | NoOutputFile                   // error
    | OutputFileExists(path: string) // warning: the file will be overwritten
    | OutputFileInUse(path: string)  // error
    | UnsupportedFormat(supported: set<string>) // error
    | NoTarget(field: string)        // warning: the mapping is ignored
    | SharedTarget(target: string)   // error

  predicate IsWarning(issue: Issue)
  {
    issue.OutputFileExists? || issue.NoTarget?
  }

  function ErrorCount(issues: seq<Issue>): (r: nat)
    ensures r <= |issues|
  {
    if issues == [] then 0 else (if IsWarning(issues[0]) then 0 else 1) + ErrorCount(issues[1..])
  }

  function WarningCount(issues: seq<Issue>): (r: nat)
    ensures r + ErrorCount(issues) == |issues|
  {
    if issues == [] then 0 else (if IsWarning(issues[0]) then 1 else 0) + WarningCount(issues[1..])
  }

  /** Counting distributes over the order in which checks run. */
  lemma {:induction false} CountsAppend(a: seq<Issue>, b: seq<Issue>)
    ensures ErrorCount(a + b) == ErrorCount(a) + ErrorCount(b)
    ensures WarningCount(a + b) == WarningCount(a) + WarningCount(b)
  {
    if a == [] {
      assert a + b == b;
    } else {
      CountsAppend(a[1..], b);
      assert (a + b)[0] == a[0];
      assert (a + b)[1..] == a[1..] + b;
    }
  }

  /**
   * The input-path check: a null path is one error and nothing else is
   * probed; a missing file is one error; an existing, locked file is one
   * error; an existing, unlocked file is fine.
   */
  function InputFileIssues(path: Option<string>, fs: FileSystem): (r: seq<Issue>)
    ensures |r| <= 1 && WarningCount(r) == 0
    ensures ErrorCount(r) == (if path.Some? && path.value in fs.existing && !IsLocked(fs, path.value) then 0 else 1)
    ensures path.None? ==> r == [NoInputFile]
  {
    match path
    case None => [NoInputFile]
    case Some(p) =>
      if p !in fs.existing then [InputFileMissing(p)]
      else if IsLocked(fs, p) then [InputFileInUse(p)]
      else []
  }

  /**
   * The output-path check: a null path is one error; an existing file is a
   * warning, and one error more when it is locked; a new file is fine.
   */
  function OutputFileIssues(path: Option<string>, fs: FileSystem): (r: seq<Issue>)
    ensures WarningCount(r) == (if path.Some? && path.value in fs.existing then 1 else 0)
    ensures ErrorCount(r) == (if path.None? || IsLocked(fs, path.value) then 1 else 0)
  {
    match path
    case None => [NoOutputFile]
    case Some(p) =>
      if p in fs.existing then [OutputFileExists(p)] + (if IsLocked(fs, p) then [OutputFileInUse(p)] else [])
      else []
  }

  /** The format check: only UNKNOWN is refused here; OCTANE passes. */
  function FormatIssues(formatType: ExcelFormatType): (r: seq<Issue>)
    ensures WarningCount(r) == 0
    ensures ErrorCount(r) == (if formatType == UNKNOWN then 1 else 0)
  {
    if formatType == UNKNOWN then [UnsupportedFormat(ValidTypes())] else []
  }

  /** checkConversionProperties: the three checks, all of them, in order. */
  function PropertyIssues(props: ConversionProperties, fs: FileSystem): (r: seq<Issue>)
    ensures ErrorCount(r) == ErrorCount(InputFileIssues(props.inputFilePath, fs))
      + ErrorCount(OutputFileIssues(props.outputFilePath, fs)) + ErrorCount(FormatIssues(props.inputFileFormatType))
    ensures WarningCount(r) == WarningCount(OutputFileIssues(props.outputFilePath, fs))
  {
    var input := InputFileIssues(props.inputFilePath, fs);
    var output := OutputFileIssues(props.outputFilePath, fs);
    var format := FormatIssues(props.inputFileFormatType);
    CountsAppend(input, output);
    CountsAppend(input + output, format);
    input + output + format
  }

  /** The input fields whose mapping has no target, in mapping order: one warning each. */
  function NullTargetFields(table: MappingTable): (r: seq<string>)
    ensures |r| <= |table|
    ensures forall f :: f in r <==> exists i :: 0 <= i < |table| && table[i].0 == f && table[i].1.target.None?
    ensures (forall i :: 0 <= i < |table| ==> table[i].1.target.Some?) ==> r == []
  {
    if table == [] then []
    else
      var init := table[..|table| - 1];
      var last := table[|table| - 1];
      var r := NullTargetFields(init) + (if last.1.target.None? then [last.0] else []);
      assert forall i :: 0 <= i < |init| ==> init[i] == table[i];
      r
  }

  /** With distinct field names every null-target field is listed exactly once. */
  lemma {:induction false} NullTargetFieldsDistinct(table: MappingTable)
    requires DistinctKeys(table)
    ensures Distinct(NullTargetFields(table))
  {
    if table != [] {
      var init := table[..|table| - 1];
      assert DistinctKeys(init);
      NullTargetFieldsDistinct(init);
      var last := table[|table| - 1];
      assert forall i :: 0 <= i < |init| ==> init[i].0 != last.0;
      assert last.0 !in NullTargetFields(init);
    }
  }

  /** The non-null targets. */
  function TargetSet(table: MappingTable): set<string>
  {
    set i | 0 <= i < |table| && table[i].1.target.Some? :: table[i].1.target.value
  }

  /** The input fields mapped to `target`. */
  function InputsOf(table: MappingTable, target: string): set<string>
  {
    set i | 0 <= i < |table| && table[i].1.target == Some(target) :: table[i].0
  }

  /** The groupingBy of checkConversionMappings: each non-null target with the set of its input fields. */
  function TargetGroups(table: MappingTable): (r: map<string, set<string>>)
    ensures r.Keys == TargetSet(table)
    ensures forall t :: t in r ==> r[t] == InputsOf(table, t) && r[t] != {}
  {
    forall t | t in TargetSet(table) ensures InputsOf(table, t) != {} {
      var i :| 0 <= i < |table| && table[i].1.target.Some? && table[i].1.target.value == t;
      assert table[i].0 in InputsOf(table, t);
    }
    map t | t in TargetSet(table) :: InputsOf(table, t)
  }

  /** The keys among `keys` whose group has more than one input field. */
  function SharedAmong(groups: map<string, set<string>>, keys: set<string>): set<string>
  {
    set t | t in keys && t in groups && |groups[t]| > 1
  }

  /** The targets that get a "used by multiple input field mappings" error. */
  function SharedTargets(table: MappingTable): (r: set<string>)
    ensures r <= TargetSet(table)
    ensures forall t :: t in TargetSet(table) ==> (t in r <==> |InputsOf(table, t)| > 1)
  {
    SharedAmong(TargetGroups(table), TargetGroups(table).Keys)
  }

  /** A set with more than one element holds two different ones, and back. */
  lemma MoreThanOne(s: set<string>)
    ensures |s| > 1 <==> exists a, b :: a in s && b in s && a != b
  {
    if |s| > 1 {
      var a :| a in s;
      assert |s - {a}| == |s| - 1;
      var b :| b in s - {a};
    }
    if exists a, b :: a in s && b in s && a != b {
      var a, b :| a in s && b in s && a != b;
      assert |s - {a}| == |s| - 1;
      assert b in s - {a};
    }
  }

  /**
   * With distinct field names, a target is reported exactly when two
   * entries name it; a null target never is.
   */
  lemma SharedTargetIff(table: MappingTable, t: string)
    requires DistinctKeys(table)
    ensures t in SharedTargets(table) <==>
      exists i, j :: 0 <= i < j < |table| && table[i].1.target == Some(t) && table[j].1.target == Some(t)
  {
    var groups := TargetGroups(table);
    if t in SharedTargets(table) {
      MoreThanOne(groups[t]);
      var a, b :| a in groups[t] && b in groups[t] && a != b;
      var i :| 0 <= i < |table| && table[i].1.target == Some(t) && table[i].0 == a;
      var j :| 0 <= j < |table| && table[j].1.target == Some(t) && table[j].0 == b;
      if j < i {
        assert 0 <= j < i < |table| && table[j].1.target == Some(t) && table[i].1.target == Some(t);
      } else {
        assert 0 <= i < j < |table| && table[i].1.target == Some(t) && table[j].1.target == Some(t);
      }
    }
    if exists i, j :: 0 <= i < j < |table| && table[i].1.target == Some(t) && table[j].1.target == Some(t) {
      var i, j :| 0 <= i < j < |table| && table[i].1.target == Some(t) && table[j].1.target == Some(t);
      assert t in TargetSet(table);
      assert table[i].0 in groups[t] && table[j].0 in groups[t];
      MoreThanOne(groups[t]);
    }
  }

  /** Taking one more key into account adds that key's error, if its group is shared. */
  lemma SharedAmongAdd(groups: map<string, set<string>>, keys: set<string>, t: string)
    requires t !in keys && t in groups
    ensures |SharedAmong(groups, keys + {t})| == |SharedAmong(groups, keys)| + (if |groups[t]| > 1 then 1 else 0)
  {
    if |groups[t]| > 1 {
      assert SharedAmong(groups, keys + {t}) == SharedAmong(groups, keys) + {t};
    } else {
      assert SharedAmong(groups, keys + {t}) == SharedAmong(groups, keys);
    }
  }

  /** Errors the checks count before the gate. */
  function TotalErrors(props: ConversionProperties, table: MappingTable, fs: FileSystem): nat
  {
    ErrorCount(PropertyIssues(props, fs)) + |SharedTargets(table)|
  }

  /** Warnings the checks count before the gate. */
  function TotalWarnings(props: ConversionProperties, table: MappingTable, fs: FileSystem): nat
  {
    WarningCount(PropertyIssues(props, fs)) + |NullTargetFields(table)|
  }

  /** checkIntegrity from a fresh handler: all the checks, then the gate. */
  function IntegrityVerdict(props: ConversionProperties, table: MappingTable, fs: FileSystem, answers: seq<string>): (r: Decision)
    ensures r == Continue <==>
      TotalErrors(props, table, fs) == 0 && (TotalWarnings(props, table, fs) == 0 || AnswerDecision(answers) == Continue)
  {
    IntegrityDecision(TotalErrors(props, table, fs), TotalWarnings(props, table, fs), answers)
  }

  /** A missing input path stops the run, whatever else holds and whatever the operator answers. */
  lemma NoInputPathStops(props: ConversionProperties, table: MappingTable, fs: FileSystem, answers: seq<string>)
    requires props.inputFilePath.None?
    ensures IntegrityVerdict(props, table, fs, answers) == Stop
  {
  }

  /** A locked output file stops the run, although an existing output file alone is only a warning. */
  lemma LockedOutputStops(props: ConversionProperties, table: MappingTable, fs: FileSystem, answers: seq<string>)
    requires props.outputFilePath.Some? && IsLocked(fs, props.outputFilePath.value)
    ensures IntegrityVerdict(props, table, fs, answers) == Stop
  {
  }

  /** Two input fields with the same target stop the run. */
  lemma SharedTargetStops(props: ConversionProperties, table: MappingTable, fs: FileSystem, answers: seq<string>, i: nat, j: nat)
    requires DistinctKeys(table)
    requires i < j < |table| && table[i].1.target.Some? && table[j].1.target == table[i].1.target
    ensures IntegrityVerdict(props, table, fs, answers) == Stop
  {
    SharedTargetIff(table, table[i].1.target.value);
  }

  /**
   * A clean configuration passes without a question: the input file exists
   * and is free, the output file is new, the format is known, and every
   * field has its own target.
   */
  lemma CleanConfigurationContinues(props: ConversionProperties, table: MappingTable, fs: FileSystem, answers: seq<string>)
    requires DistinctKeys(table)
    requires props.inputFilePath.Some? && props.inputFilePath.value in fs.existing && !IsLocked(fs, props.inputFilePath.value)
    requires props.outputFilePath.Some? && props.outputFilePath.value !in fs.existing
    requires props.inputFileFormatType != UNKNOWN
    requires forall i :: 0 <= i < |table| ==> table[i].1.target.Some?
    requires forall i, j :: 0 <= i < j < |table| ==> table[i].1.target != table[j].1.target
    ensures IntegrityVerdict(props, table, fs, answers) == Continue
  {
    forall t | t in SharedTargets(table) ensures false {
      SharedTargetIff(table, t);
    }
    assert SharedTargets(table) == {};
  }

  /** With warnings and no error the operator decides. */
  lemma WarningsAskTheOperator(props: ConversionProperties, table: MappingTable, fs: FileSystem, answers: seq<string>)
    requires TotalErrors(props, table, fs) == 0 && TotalWarnings(props, table, fs) > 0
    ensures IntegrityVerdict(props, table, fs, answers) == AnswerDecision(answers)
  {
  }

  class IntegrityChecker {
    const integrityHandler: IntegrityHandler
    const conversionProperties: ConversionProperties
    const conversionMappings: MappingTable

    /** A checker with a handler of its own, which has counted nothing yet. */
    constructor (infoContainer: ConversionInfoContainer)
      ensures fresh(integrityHandler)
      ensures integrityHandler.errorsFound == 0 && integrityHandler.warningsFound == 0
      ensures conversionProperties == infoContainer.conversionProperties
      ensures conversionMappings == infoContainer.conversionMappings
    {
      integrityHandler := new IntegrityHandler();
      conversionProperties := infoContainer.conversionProperties;
      conversionMappings := infoContainer.conversionMappings;
    }

    /** checkConversionProperties: one count per issue the property checks find. */
    method CheckConversionProperties(fs: FileSystem)
      modifies integrityHandler
      ensures integrityHandler.errorsFound == old(integrityHandler.errorsFound) + ErrorCount(PropertyIssues(conversionProperties, fs))
      ensures integrityHandler.warningsFound == old(integrityHandler.warningsFound) + WarningCount(PropertyIssues(conversionProperties, fs))
    {
      var inputFilePath := conversionProperties.inputFilePath;
      if inputFilePath.Some? {
        if inputFilePath.value !in fs.existing {
          integrityHandler.LogError();
        } else if IsLocked(fs, inputFilePath.value) {
          integrityHandler.LogError();
        }
      } else {
        integrityHandler.LogError();
      }

      var outputFilePath := conversionProperties.outputFilePath;
      if outputFilePath.Some? {
        if outputFilePath.value in fs.existing {
          integrityHandler.LogWarning();
          if IsLocked(fs, outputFilePath.value) {
            integrityHandler.LogError();
          }
        }
      } else {
        integrityHandler.LogError();
      }

      if conversionProperties.inputFileFormatType == UNKNOWN {
        integrityHandler.LogError();
      }
    }

    /**
     * checkConversionMappings: a warning for each field without a target,
     * then an error for each target shared by several fields.
     */
    method CheckConversionMappings()
      modifies integrityHandler
      ensures integrityHandler.errorsFound == old(integrityHandler.errorsFound) + |SharedTargets(conversionMappings)|
      ensures integrityHandler.warningsFound == old(integrityHandler.warningsFound) + |NullTargetFields(conversionMappings)|
    {
      WarnNullTargets();
      ReportSharedTargets();
    }

    /** The first pass of checkConversionMappings: a warning per field without a target. */
    method WarnNullTargets()
      modifies integrityHandler
      ensures integrityHandler.errorsFound == old(integrityHandler.errorsFound)
      ensures integrityHandler.warningsFound == old(integrityHandler.warningsFound) + |NullTargetFields(conversionMappings)|
    {
      var table := conversionMappings;
      var i := 0;
      while i < |table|
        invariant 0 <= i <= |table|
        invariant integrityHandler.errorsFound == old(integrityHandler.errorsFound)
        invariant integrityHandler.warningsFound == old(integrityHandler.warningsFound) + |NullTargetFields(table[..i])|
      {
        assert table[..i + 1][..i] == table[..i];
        if table[i].1.target.None? {
          integrityHandler.LogWarning();
        }
        i := i + 1;
      }
      assert table[..|table|] == table;
    }

    /** The second pass: an error per target that groups more than one field. */
    method ReportSharedTargets()
      modifies integrityHandler
      ensures integrityHandler.errorsFound == old(integrityHandler.errorsFound) + |SharedTargets(conversionMappings)|
      ensures integrityHandler.warningsFound == old(integrityHandler.warningsFound)
    {
      ReportSharedGroups(TargetGroups(conversionMappings));
    }

    /** The forEach over the grouping: one error per group with more than one member. */
    method ReportSharedGroups(groups: map<string, set<string>>)
      modifies integrityHandler
      ensures integrityHandler.errorsFound == old(integrityHandler.errorsFound) + |SharedAmong(groups, groups.Keys)|
      ensures integrityHandler.warningsFound == old(integrityHandler.warningsFound)
    {
      var remaining := groups.Keys;
      ghost var done: set<string> := {};
      while remaining != {}
        invariant remaining <= groups.Keys && done == groups.Keys - remaining
        invariant integrityHandler.errorsFound == old(integrityHandler.errorsFound) + |SharedAmong(groups, done)|
        invariant integrityHandler.warningsFound == old(integrityHandler.warningsFound)
        decreases |remaining|
      {
        var t :| t in remaining;
        if |groups[t]| > 1 {
          integrityHandler.LogError();
        }
        SharedAmongAdd(groups, done, t);
        remaining := remaining - {t};
        done := done + {t};
      }
      assert done == groups.Keys;
    }

    /** checkIntegrity: the property checks, the mapping checks, then the gate. */
    method CheckIntegrity(fs: FileSystem, answers: seq<string>) returns (d: Decision)
      modifies integrityHandler
      ensures integrityHandler.errorsFound == old(integrityHandler.errorsFound) + TotalErrors(conversionProperties, conversionMappings, fs)
      ensures integrityHandler.warningsFound == old(integrityHandler.warningsFound) + TotalWarnings(conversionProperties, conversionMappings, fs)
      ensures d == IntegrityDecision(integrityHandler.errorsFound, integrityHandler.warningsFound, answers)
    {
      CheckConversionProperties(fs);
      CheckConversionMappings();
      d := integrityHandler.PromptUserIntegrityStatus(answers);
    }
  }

  /**
   * The ConversionInfoContainer constructor: the container holds the two
   * configuration objects, and a new checker's verdict decides whether the
   * run goes on.
   */
  method NewConversionInfoContainer(props: ConversionProperties, table: MappingTable, fs: FileSystem, answers: seq<string>)
    returns (container: ConversionInfoContainer, d: Decision)
    ensures container.conversionProperties == props && container.conversionMappings == table
    ensures d == IntegrityVerdict(props, table, fs, answers)
  {
    container := ConversionInfoContainer(props, table);
    var checker := new IntegrityChecker(container);
    d := checker.CheckIntegrity(fs, answers);
  }
}

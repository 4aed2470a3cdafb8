/**
 * IntegrityHandler: counts the errors and warnings the integrity checks
 * report and decides whether the conversion may start. The console
 * prompt is a sequence of answer lines; a run that ends the process
 * (System.exit) is the Stop decision.
 */
module IntegrityHandling {
  import opened Text

  /** The gate's verdict; NeedsMoreInput when the answers ran out before a YES or NO. */
  datatype Decision = Continue | Stop | NeedsMoreInput

  /** An answer line as the prompt compares it: trimmed, then upper-cased. */
  function Normalize(line: string): (r: string)
    ensures |r| <= |line|
  {
    ToUpper(Trim(line))
  }

  /** The answer lines as the prompt compares them. */
  function NormalizeAll(answers: seq<string>): (r: seq<string>)
    ensures |r| == |answers|
    ensures forall k :: 0 <= k < |r| ==> r[k] == Normalize(answers[k])
  {
    seq(|answers|, k requires 0 <= k < |answers| => Normalize(answers[k]))
  }

  /** The prompt's switch over normalized lines: the first YES or NO decides; any other line is asked again. */
  function Decide(lines: seq<string>): (r: Decision)
    ensures r == Continue ==> "YES" in lines
    ensures r == Stop ==> "NO" in lines
    ensures r == NeedsMoreInput ==> "YES" !in lines && "NO" !in lines
  {
    if lines == [] then NeedsMoreInput
    else if lines[0] == "YES" then Continue
    else if lines[0] == "NO" then Stop
    else Decide(lines[1..])
  }

  /** The prompt loop over raw answer lines. */
  function AnswerDecision(answers: seq<string>): (r: Decision)
    ensures r == Continue ==> exists k :: 0 <= k < |answers| && Normalize(answers[k]) == "YES"
    ensures r == Stop ==> exists k :: 0 <= k < |answers| && Normalize(answers[k]) == "NO"
  {
    Decide(NormalizeAll(answers))
  }

  /** A line that is neither YES nor NO. */
  predicate Invalid(line: string)
  {
    line != "YES" && line != "NO"
  }

  /** The answers run out exactly when no line is YES or NO. */
  lemma {:induction false} DecideNeedsMoreInputIff(lines: seq<string>)
    ensures Decide(lines) == NeedsMoreInput <==> forall j :: 0 <= j < |lines| ==> Invalid(lines[j])
  {
    if lines != [] {
      DecideNeedsMoreInputIff(lines[1..]);
      assert forall j :: 1 <= j < |lines| ==> lines[j] == lines[1..][j - 1];
    }
  }

  /** The first line that is YES or NO decides: the verdict is `Continue` or `Stop` as that line is YES or NO. */
  lemma DecideFirstValid(lines: seq<string>, answer: string, d: Decision)
    requires (answer == "YES" && d == Continue) || (answer == "NO" && d == Stop)
    ensures Decide(lines) == d <==>
      exists i :: 0 <= i < |lines| && lines[i] == answer && forall j :: 0 <= j < i ==> Invalid(lines[j])
  {
    if Decide(lines) == d {
      DecideFirstValidOnlyIf(lines, answer, d);
    }
    if exists i :: 0 <= i < |lines| && lines[i] == answer && forall j :: 0 <= j < i ==> Invalid(lines[j]) {
      var i :| 0 <= i < |lines| && lines[i] == answer && forall j :: 0 <= j < i ==> Invalid(lines[j]);
      DecideFirstValidIf(lines, answer, d, i);
    }
  }

  /** A verdict of `Continue` (`Stop`) comes from a YES (NO) with only invalid lines before it. */
  lemma {:induction false} DecideFirstValidOnlyIf(lines: seq<string>, answer: string, d: Decision)
    requires (answer == "YES" && d == Continue) || (answer == "NO" && d == Stop)
    requires Decide(lines) == d
    ensures exists i :: 0 <= i < |lines| && lines[i] == answer && forall j :: 0 <= j < i ==> Invalid(lines[j])
  {
    if Invalid(lines[0]) {
      var rest := lines[1..];
      DecideFirstValidOnlyIf(rest, answer, d);
      var i :| 0 <= i < |rest| && rest[i] == answer && forall j :: 0 <= j < i ==> Invalid(rest[j]);
      assert lines[i + 1] == answer;
      assert forall j :: 1 <= j < i + 1 ==> lines[j] == rest[j - 1];
    } else {
      assert lines[0] == answer;
    }
  }

  /** A YES (NO) at position i with only invalid lines before it gives `Continue` (`Stop`). */
  lemma {:induction false} DecideFirstValidIf(lines: seq<string>, answer: string, d: Decision, i: nat)
    requires (answer == "YES" && d == Continue) || (answer == "NO" && d == Stop)
    requires i < |lines| && lines[i] == answer
    requires forall j :: 0 <= j < i ==> Invalid(lines[j])
    ensures Decide(lines) == d
    decreases i
  {
    if i > 0 {
      var rest := lines[1..];
      assert rest[i - 1] == answer;
      assert forall j :: 0 <= j < i - 1 ==> rest[j] == lines[j + 1];
      DecideFirstValidIf(rest, answer, d, i - 1);
    }
  }

  /** Once a YES or NO has been read, later lines change nothing. */
  lemma {:induction false} DecideIgnoresLaterInput(lines: seq<string>, more: seq<string>)
    requires Decide(lines) != NeedsMoreInput
    ensures Decide(lines + more) == Decide(lines)
  {
    assert (lines + more)[0] == lines[0];
    if Invalid(lines[0]) {
      DecideIgnoresLaterInput(lines[1..], more);
      assert (lines + more)[1..] == lines[1..] + more;
    }
  }

  /** Normalizing works line by line. */
  lemma NormalizeAllAppend(answers: seq<string>, more: seq<string>)
    ensures NormalizeAll(answers + more) == NormalizeAll(answers) + NormalizeAll(more)
  {
    var all := answers + more;
    var l := NormalizeAll(all);
    var a := NormalizeAll(answers);
    var m := NormalizeAll(more);
    forall k | 0 <= k < |answers|
      ensures l[k] == a[k]
    {
      assert all[k] == answers[k];
    }
    forall k | |answers| <= k < |l|
      ensures l[k] == m[k - |answers|]
    {
      assert all[k] == more[k - |answers|];
    }
    assert l == a + m;
  }

  /** The same for raw answers: after the deciding answer the operator's further input is never read. */
  lemma AnswerDecisionIgnoresLaterInput(answers: seq<string>, more: seq<string>)
    requires AnswerDecision(answers) != NeedsMoreInput
    ensures AnswerDecision(answers + more) == AnswerDecision(answers)
  {
    NormalizeAllAppend(answers, more);
    DecideIgnoresLaterInput(NormalizeAll(answers), NormalizeAll(more));
  }

  /**
   * promptUserIntegrityStatus: errors stop the run without asking; with no
   * error and some warnings the operator is asked; with neither the run
   * continues at once.
   */
  function IntegrityDecision(errorsFound: nat, warningsFound: nat, answers: seq<string>): (r: Decision)
    ensures errorsFound > 0 ==> r == Stop
    ensures errorsFound == 0 && warningsFound == 0 ==> r == Continue
    ensures errorsFound == 0 && warningsFound > 0 ==> r == AnswerDecision(answers)
  {
    if errorsFound > 0 then Stop
    else if warningsFound > 0 then AnswerDecision(answers)
    else Continue
  }

  /** The run goes on exactly when there is no error and, if there are warnings, the first valid answer is YES. */
  lemma ContinueIff(errorsFound: nat, warningsFound: nat, answers: seq<string>)
    ensures IntegrityDecision(errorsFound, warningsFound, answers) == Continue <==>
      errorsFound == 0 && (warningsFound == 0 || AnswerDecision(answers) == Continue)
  {
  }

  /**
   * Answers are trimmed and case does not matter: with warnings only, a
   * blank-led answer that is neither YES nor NO is asked again, and a
   * following answer that upper-cases to YES, blank after it, continues.
   */
  lemma PromptTrimsAndIgnoresCase(warningsFound: nat, other: string, yes: string)
    requires warningsFound > 0
    requires other == [] || (!IsTrimmable(other[0]) && !IsTrimmable(other[|other| - 1]))
    requires yes == [] || (!IsTrimmable(yes[0]) && !IsTrimmable(yes[|yes| - 1]))
    requires Invalid(ToUpper(other)) && ToUpper(yes) == "YES"
    ensures IntegrityDecision(0, warningsFound, [[' '] + other, yes + [' ']]) == Continue
  {
    var answers := [[' '] + other, yes + [' ']];
    TrimLeadingBlank(other);
    TrimTrailingBlank(yes);
    var lines := NormalizeAll(answers);
    assert lines[0] == Normalize(answers[0]) == ToUpper(other);
    assert lines[1] == Normalize(answers[1]) == "YES";
    assert lines[1..] == ["YES"];
    assert Decide(lines) == Decide(["YES"]) == Continue;
  }

  /** "yes" upper-cases to YES, so " maybe" then "yes " continues. */
  lemma PromptExample()
    ensures IntegrityDecision(0, 1, [" maybe", "yes "]) == Continue
  {
    assert ToUpper("maybe") == "MAYBE";
    assert ToUpper("yes") == "YES";
    assert [' '] + "maybe" == " maybe" && "yes" + [' '] == "yes ";
    PromptTrimsAndIgnoresCase(1, "maybe", "yes");
  }

  class IntegrityHandler {
    var errorsFound: nat
    var warningsFound: nat

    /** A new handler has seen nothing. */
    constructor ()
      ensures errorsFound == 0 && warningsFound == 0
    {
      errorsFound := 0;
      warningsFound := 0;
    }

    /** Either logError overload: one more error; the message goes to the log. */
    method LogError()
      modifies this
      ensures errorsFound == old(errorsFound) + 1 && warningsFound == old(warningsFound)
    {
      errorsFound := errorsFound + 1;
    }

    /** logWarning: one more warning; the message goes to the log. */
    method LogWarning()
      modifies this
      ensures warningsFound == old(warningsFound) + 1 && errorsFound == old(errorsFound)
    {
      warningsFound := warningsFound + 1;
    }

    /** stopOnCriticalError: the run ends exactly when an error was counted. */
    method StopOnCriticalError() returns (stop: bool)
      ensures stop <==> errorsFound > 0
    {
      stop := errorsFound > 0;
    }

    /** promptUserIntegrityStatus, reading its answers from `answers`. */
    method PromptUserIntegrityStatus(answers: seq<string>) returns (d: Decision)
      ensures d == IntegrityDecision(errorsFound, warningsFound, answers)
    {
      if errorsFound > 0 {
        return Stop;
      } else if warningsFound > 0 {
        var i := 0;
        ghost var lines := NormalizeAll(answers);
        while i < |answers|
          invariant 0 <= i <= |answers|
          invariant Decide(lines[i..]) == Decide(lines)
        {
          assert lines[i..][0] == lines[i] && lines[i..][1..] == lines[i + 1..];
          var line := Normalize(answers[i]);
          if line == "YES" {
            return Continue;
          } else if line == "NO" {
            return Stop;
          }
          i := i + 1;
        }
        return NeedsMoreInput;
      }
      return Continue;
    }
  }
}

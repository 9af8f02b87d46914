/**
 The rules of the script rewriter written out: when a command is found, how physical lines
 make logical ones, what an accepted script has been checked for, and which error comes first.
 */
module ScriptRules {
  import opened Wrappers
  import opened Text
  import opened Tokenizer
  import opened ScriptRewriter
  import opened ScriptSafety

  // ---- finding a command ----

  predicate EndsWord(before: string) {
    before == "" || before[|before| - 1] == ' '
  }

  predicate StartsWord(after: string) {
    after == "" || after[0] == ' '
  }

  /** In a trimmed text the first occurrence of a command is found when spaces or the ends surround it. */
  lemma FindCommandMeans(before: string, command: string, after: string)
    requires var text := before + command + after;
      && TrimSpace(text) == text
      && forall j :: 0 <= j < |before| ==> !OccursAt(text, command, j)
    ensures FindCommand(before + command + after, command) ==
            if EndsWord(before) && StartsWord(after) then |before| else -1
  {
    var text, n, m := before + command + after, |before|, |command|;
    assert text[n..n + m] == command;
    assert OccursAt(text, command, n);
    assert Index(text, command) == n;
    assert n > 0 ==> text[n - 1] == before[n - 1];
    assert after != "" ==> text[n + m] == after[0];
  }

  /** Nothing is found where a command does not occur. */
  lemma NothingFound(text: string, command: string)
    requires forall j :: !OccursAt(TrimSpace(text), command, j)
    ensures FindCommand(text, command) == -1
  {
  }

  // ---- logical lines ----

  /** A physical line that is continued: its trimmed text ends in a space and a backslash. */
  predicate IsContinued(line: string, text: string) {
    && text != "" && !IsSpace(text[0]) && text[|text| - 1] != ' '
    && TrimSpace(line) == text + " \\"
  }

  /** A physical line that is not: it does not end so, and is no lone backslash. */
  predicate IsFinal(line: string, text: string) {
    && TrimSpace(line) == text && text != "\\"
    && !(|text| >= 2 && text[|text| - 2] == ' ' && text[|text| - 1] == '\\')
  }

  lemma UncontinuedText(piece: string, text: string)
    requires text != "" && text[|text| - 1] != ' ' && piece == text + " \\"
    ensures EndsInContinuation(piece) && Stem(piece) == [text]
  {
    assert piece[..|piece| - 2] == text;
  }

  lemma ContinuedPiece(open: seq<string>, piece: string, text: string)
    requires text != "" && text[|text| - 1] != ' ' && piece == text + " \\"
    ensures FoldPiece(Folded([], open), piece) == Folded([], open + [text])
  {
    UncontinuedText(piece, text);
  }

  lemma {:induction false} ContinuedFold(lines: seq<string>, texts: seq<string>)
    requires |lines| == |texts| && forall k :: 0 <= k < |lines| ==> IsContinued(lines[k], texts[k])
    ensures FoldLines(lines) == Folded([], texts)
  {
    if lines != [] {
      var n := |lines| - 1;
      assert IsContinued(lines[n], texts[n]);
      ContinuedFold(lines[..n], texts[..n]);
      ContinuedPiece(texts[..n], TrimSpace(lines[n]), texts[n]);
      LastOf(texts);
    }
  }

  lemma LastOf(texts: seq<string>)
    requires texts != []
    ensures texts[..|texts| - 1] + [texts[|texts| - 1]] == texts
  {
  }

  /** Continued lines and the final one after them make one logical line, with single spaces in between. */
  lemma ContinuedBlock(lines: seq<string>, texts: seq<string>, last: string, text: string)
    requires |lines| == |texts| && forall k :: 0 <= k < |lines| ==> IsContinued(lines[k], texts[k])
    requires IsFinal(last, text)
    ensures FoldLines(lines + [last]) == Folded([Join(texts + [text], ' ')], [])
  {
    ContinuedFold(lines, texts);
    FoldSnoc(lines, last);
    assert [] + [Join(texts + [text], ' ')] == [Join(texts + [text], ' ')];
  }

  // ---- acceptance ----

  /** The tokens after the first one from position `i` on. */
  function ArgumentsFrom(line: string, i: int): seq<string>
    requires 0 <= i <= |line|
  {
    var tokens := Tokens(line[i..]);
    if tokens == [] then [] else tokens[1..]
  }

  predicate CallsNone(text: string) {
    && FindCommand(text, "sbatch") == -1
    && FindCommand(text, "salloc") == -1
    && FindCommand(text, "wait") == -1
    && FindCommand(text, "sinfo") == -1
    && FindCommand(text, "scontrol") == -1
    && FindCommand(text, "squeue") == -1
    && FindCommand(text, "scancel") == -1
  }

  /** What is checked of a logical line on which `srun` is found at `i`. */
  ghost predicate StepRight(line: string, i: int, parse: FlagParser)
    requires 0 <= i <= |line|
  {
    var left := parse(ArgumentsFrom(line, i));
    && left.Some? && left.value != []
    && (i > 0 ==> EnvVars.Accepted(Tokens(line[..i])))
    && CallsNone(line[..i] + Join(left.value, ' '))
  }

  ghost predicate LineRight(line: string, parse: FlagParser) {
    var i := FindCommand(line, "srun");
    if i == -1 then CallsNone(line) else StepRight(line, i, parse)
  }

  ghost predicate ScriptRight(lines: seq<string>, nTasks: int, parse: FlagParser) {
    forall k :: 0 <= k < |lines| && lines[k] != "" ==>
      && LineRight(lines[k], parse)
      && (nTasks > 1 ==> forall j :: 0 <= j < k ==> FindCommand(lines[j], "srun") == -1)
  }

  lemma {:induction false} NoneCalled(line: string, commands: seq<string>)
    requires forall command :: command in commands ==> FindCommand(line, command) == -1
    ensures FirstCalled(line, commands) == None
  {
    if commands != [] {
      assert commands[0] in commands;
      NoneCalled(line, commands[1..]);
    }
  }

  lemma CallsNoneMeans(text: string)
    ensures FirstCalled(text, UNSUPPORTED) == None <==> CallsNone(text)
  {
    if FirstCalled(text, UNSUPPORTED) == None {
      forall k | 0 <= k < |UNSUPPORTED| ensures FindCommand(text, UNSUPPORTED[k]) == -1 {
        NotCalled(text, UNSUPPORTED, UNSUPPORTED[k]);
      }
      assert UNSUPPORTED[0] == "sbatch" && UNSUPPORTED[1] == "salloc" && UNSUPPORTED[2] == "wait";
      assert UNSUPPORTED[3] == "sinfo" && UNSUPPORTED[4] == "scontrol" && UNSUPPORTED[5] == "squeue";
      assert UNSUPPORTED[6] == "scancel";
    }
    if CallsNone(text) {
      NoneCalled(text, UNSUPPORTED);
    }
  }

  lemma StepMeans(line: string, parse: FlagParser)
    requires IsStep(line)
    ensures LineProblem(line, parse) == None <==> StepRight(line, FindCommand(line, "srun"), parse)
  {
    StepProblemMeans(line, parse);
    NamedProblem(line, parse);
    CallsNoneMeans(Rewritten(line, parse));
  }

  lemma LineMeans(line: string, parse: FlagParser)
    ensures LineProblem(line, parse) == None <==> LineRight(line, parse)
  {
    if IsStep(line) {
      StepMeans(line, parse);
    } else {
      CallsNoneMeans(line);
    }
  }

  /**
   A script is accepted if and only if there is a task and every logical line that is not
   blank passes the checks: on a line with `srun` its flags can be read, an argument is left,
   the text before it is nothing or an accepted prefix; no line of the output calls one of
   the seven commands; and with several tasks no `srun` line comes before it.
   */
  lemma AcceptedExactly(script: string, nTasks: int, parse: FlagParser)
    ensures Accepts(script, nTasks, parse) <==> nTasks >= 1 && ScriptRight(LogicalLines(script), nTasks, parse)
  {
    ClearIsRight(LogicalLines(script), nTasks, parse);
  }

  lemma ClearIsRight(lines: seq<string>, nTasks: int, parse: FlagParser)
    ensures Clear(lines, nTasks, parse) <==> ScriptRight(lines, nTasks, parse)
  {
    ClearMeans(lines, nTasks, parse);
    forall k | 0 <= k < |lines| && lines[k] != ""
      ensures Problem(lines, k, nTasks, parse) == None <==>
              && LineRight(lines[k], parse)
              && (nTasks > 1 ==> forall j :: 0 <= j < k ==> FindCommand(lines[j], "srun") == -1)
    {
      ProblemMeans(lines, k, nTasks, parse);
    }
  }

  lemma ProblemMeans(lines: seq<string>, k: int, nTasks: int, parse: FlagParser)
    requires 0 <= k < |lines| && lines[k] != ""
    ensures Problem(lines, k, nTasks, parse) == None <==>
            && LineRight(lines[k], parse)
            && (nTasks > 1 ==> forall j :: 0 <= j < k ==> FindCommand(lines[j], "srun") == -1)
  {
    LineMeans(lines[k], parse);
    StepBefore(lines, k);
  }

  lemma StepBefore(lines: seq<string>, k: int)
    requires 0 <= k <= |lines|
    ensures HasStep(lines[..k]) <==> exists j :: 0 <= j < k && FindCommand(lines[j], "srun") != -1
  {
    HasStepMeans(lines[..k]);
    if HasStep(lines[..k]) {
      var j :| 0 <= j < k && IsStep(lines[..k][j]);
      assert lines[..k][j] == lines[j];
    }
    if j :| 0 <= j < k && FindCommand(lines[j], "srun") != -1 {
      assert lines[..k][j] == lines[j];
    }
  }

  // ---- errors ----

  /** The first of the seven commands that is found, in this order. */
  function FirstOfSeven(text: string): Option<string> {
    if FindCommand(text, "sbatch") != -1 then Some("sbatch")
    else if FindCommand(text, "salloc") != -1 then Some("salloc")
    else if FindCommand(text, "wait") != -1 then Some("wait")
    else if FindCommand(text, "sinfo") != -1 then Some("sinfo")
    else if FindCommand(text, "scontrol") != -1 then Some("scontrol")
    else if FindCommand(text, "squeue") != -1 then Some("squeue")
    else if FindCommand(text, "scancel") != -1 then Some("scancel")
    else None
  }

  /** `e` is the error of a line, in the order of the checks. */
  ghost predicate Reports(line: string, stepBefore: bool, nTasks: int, parse: FlagParser, e: ScriptError) {
    var i := FindCommand(line, "srun");
    if nTasks > 1 && stepBefore then e == MultipleSteps
    else if i == -1 then FirstOfSeven(line).Some? && e == UnsupportedCommand(FirstOfSeven(line).value)
    else
      var left := parse(ArgumentsFrom(line, i));
      if left.None? then e == InvalidFlags(line)
      else if left.value == [] then e == MissingArgument(line)
      else if i > 0 && !EnvVars.Accepted(Tokens(line[..i])) then e == InvalidEnvVars(line)
      else
        var text := line[..i] + Join(left.value, ' ');
        FirstOfSeven(text).Some? && e == UnsupportedCommand(FirstOfSeven(text).value)
  }

  lemma FirstOfSevenCalled(text: string)
    ensures FirstCalled(text, UNSUPPORTED) == FirstOfSeven(text)
  {
    var all := UNSUPPORTED;
    CalledNext(text, all, 0);
    CalledNext(text, all, 1);
    CalledNext(text, all, 2);
    CalledNext(text, all, 3);
    CalledNext(text, all, 4);
    CalledNext(text, all, 5);
    CalledNext(text, all, 6);
    assert all[0..] == all && all[7..] == [];
  }

  lemma CalledNext(text: string, commands: seq<string>, k: int)
    requires 0 <= k < |commands|
    ensures FirstCalled(text, commands[k..]) ==
            if FindCommand(text, commands[k]) != -1 then Some(commands[k]) else FirstCalled(text, commands[k + 1..])
  {
    assert commands[k..][1..] == commands[k + 1..];
  }

  lemma ErrorMeans(lines: seq<string>, k: int, nTasks: int, parse: FlagParser, e: ScriptError)
    requires 0 <= k < |lines| && lines[k] != ""
    ensures Problem(lines, k, nTasks, parse) == Some(e) <==>
            Reports(lines[k], exists j :: 0 <= j < k && FindCommand(lines[j], "srun") != -1, nTasks, parse, e)
  {
    StepBefore(lines, k);
    LineErrorMeans(lines[k], parse, e);
  }

  lemma LineErrorMeans(line: string, parse: FlagParser, e: ScriptError)
    ensures LineProblem(line, parse) == Some(e) <==> Reports(line, false, 1, parse, e)
  {
    FirstOfSevenCalled(Rewritten(line, parse));
    if IsStep(line) {
      StepErrorMeans(line, parse, e);
    }
  }

  /** The problem of an `srun` line, in terms of its prefix and its tokens. */
  lemma StepProblemMeans(line: string, parse: FlagParser)
    requires IsStep(line)
    ensures var i := FindCommand(line, "srun"); var left := parse(ArgumentsFrom(line, i));
      && (left.None? ==> StepProblem(line, parse) == Some(InvalidFlags(line)))
      && (left.Some? && left.value == [] ==> StepProblem(line, parse) == Some(MissingArgument(line)))
      && (left.Some? && left.value != [] ==>
            && Rewritten(line, parse) == line[..i] + Join(left.value, ' ')
            && StepProblem(line, parse) ==
               if i > 0 && !EnvVars.Accepted(Tokens(line[..i])) then Some(InvalidEnvVars(line)) else None)
  {
    TokensNonEmpty(line[FindCommand(line, "srun")..]);
    assert StepArguments(line) == ArgumentsFrom(line, FindCommand(line, "srun"));
  }

  lemma StepErrorMeans(line: string, parse: FlagParser, e: ScriptError)
    requires IsStep(line) && FirstCalled(Rewritten(line, parse), UNSUPPORTED) == FirstOfSeven(Rewritten(line, parse))
    ensures LineProblem(line, parse) == Some(e) <==> Reports(line, false, 1, parse, e)
  {
    StepProblemMeans(line, parse);
    NamedProblem(line, parse);
  }

  lemma NamedProblem(line: string, parse: FlagParser)
    requires IsStep(line)
    ensures LineProblem(line, parse) ==
            if StepProblem(line, parse).Some? then StepProblem(line, parse)
            else
              var called := FirstCalled(Rewritten(line, parse), UNSUPPORTED);
              if called.Some? then Some(UnsupportedCommand(called.value)) else None
  {
  }

  /** An error is that of the first line that fails, all lines before it being right. */
  lemma FirstErrorFirst(script: string, nTasks: int, parse: FlagParser, e: ScriptError)
    ensures FailsWith(LogicalLines(script), nTasks, parse, e) <==>
            exists k :: FirstFailure(LogicalLines(script), k, nTasks, parse, e)
  {
    var lines := LogicalLines(script);
    forall k ensures FirstProblem(lines, k, nTasks, parse, e) <==> FirstFailure(lines, k, nTasks, parse, e) {
      if 0 <= k < |lines| {
        FailureMeans(lines, k, nTasks, parse, e);
      }
    }
  }

  ghost predicate FirstFailure(lines: seq<string>, k: int, nTasks: int, parse: FlagParser, e: ScriptError) {
    && 0 <= k < |lines| && lines[k] != ""
    && Reports(lines[k], exists j :: 0 <= j < k && FindCommand(lines[j], "srun") != -1, nTasks, parse, e)
    && ScriptRight(lines[..k], nTasks, parse)
  }

  lemma FailureMeans(lines: seq<string>, k: int, nTasks: int, parse: FlagParser, e: ScriptError)
    requires 0 <= k < |lines|
    ensures FirstProblem(lines, k, nTasks, parse, e) <==> FirstFailure(lines, k, nTasks, parse, e)
  {
    if lines[k] != "" {
      ErrorMeans(lines, k, nTasks, parse, e);
    }
    ClearIsRight(lines[..k], nTasks, parse);
  }
}

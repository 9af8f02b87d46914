/** Inputs on which the code does not do what its users may expect. */
module Deviations {
  import opened Wrappers
  import opened Text
  import opened Decimal
  import opened Arithmetic
  import opened ScriptRewriter
  import opened ScriptSafety
  import opened ScriptRules
  import opened Ranges
  import opened ArrayIndexes
  import opened ArrayLaws
  import opened Resources
  import Filename
  import opened Tokenizer

  // ---- scripts ----

  const SHADOWED := "xsbatch sbatch"

  /** `sbatch` is not refused when a longer word contains it first. */
  lemma ShadowedCommandAccepted(parse: FlagParser)
    ensures Accepts(SHADOWED, 1, parse)
    ensures Render(LogicalLines(SHADOWED), parse) == SHADOWED && HasWord(SHADOWED, "sbatch")
  {
    ShadowedIsTidy();
    ShadowedCommands();
    TidyAccepted(SHADOWED, parse);
    ShadowedWord();
  }

  lemma ShadowedIsTidy()
    ensures '\n' !in SHADOWED && TidyLine(SHADOWED)
  {
    AlreadyTrimmed(SHADOWED);
    ForeignLetter(SHADOWED, SRUN, 'r');
  }

  lemma ShadowedWord()
    ensures HasWord(SHADOWED, "sbatch")
  {
    AlreadyTrimmed(SHADOWED);
    assert SHADOWED[8..8 + 6] == "sbatch";
    assert IsWordAt(SHADOWED, "sbatch", 8);
  }

  lemma ShadowedNotFound()
    ensures FindCommand(SHADOWED, "sbatch") == -1
  {
    AlreadyTrimmed(SHADOWED);
    assert OccursAt(SHADOWED, "sbatch", 1);
    assert SHADOWED[0..0 + 6][0] == 'x';
    assert !OccursAt(SHADOWED, "sbatch", 0);
    assert Index(SHADOWED, "sbatch") == 1;
  }

  lemma ShadowedCommands()
    ensures FirstCalled(SHADOWED, UNSUPPORTED) == None
  {
    ShadowedLetters();
    forall command | command in UNSUPPORTED ensures FindCommand(SHADOWED, command) == -1 {
      if command == "sbatch" {
        ShadowedNotFound();
      } else {
        var c := OwnLetter(command);
        ForeignLetter(SHADOWED, command, c);
      }
    }
    NoneCalled(SHADOWED, UNSUPPORTED);
  }

  lemma ShadowedLetters()
    ensures forall c :: c in "lwioq" ==> c !in SHADOWED
  {
  }

  /** A tidy line that calls nothing unsupported is accepted and stays as it is. */
  lemma TidyAccepted(line: string, parse: FlagParser)
    requires line != "" && '\n' !in line && TidyLine(line)
    requires FirstCalled(line, UNSUPPORTED) == None
    ensures Accepts(line, 1, parse) && Render(LogicalLines(line), parse) == line
  {
    OneLine(line);
    TidyFold([line]);
    ClearNext([], line, 1, parse);
    assert [] + [line] == [line];
    TidyUnchanged(line, parse);
    assert [line][0] != "";
  }

  lemma AlreadyTrimmed(s: string)
    requires s != "" && !IsSpace(s[0]) && !IsSpace(s[|s| - 1])
    ensures TrimSpace(s) == s
  {
  }

  lemma OneLine(line: string)
    requires '\n' !in line
    ensures Split(line, '\n') == [line]
  {
    SplitWord(line, '\n');
  }

  lemma ForeignLetter(line: string, command: string, c: char)
    requires c in command && c !in line
    ensures FindCommand(line, command) == -1
  {
    assert c !in TrimSpace(line);
  }

  /** A letter of a command that no script below has, but for the b of `sbatch`. */
  lemma OwnLetter(command: string) returns (c: char)
    requires command in UNSUPPORTED
    ensures c in command && c in "blwioq" && (command != "sbatch" ==> c in "lwioq")
  {
    match command {
      case "sbatch" => c := 'b';
      case "wait" => c := 'w';
      case "sinfo" => c := 'i';
      case "scontrol" => c := 'o';
      case "squeue" => c := 'q';
      case _ => c := 'l';
    }
  }

  lemma NothingCalled(line: string)
    requires forall c :: c in "blwioq" ==> c !in line
    ensures FirstCalled(line, UNSUPPORTED) == None
  {
    forall command | command in UNSUPPORTED ensures FindCommand(line, command) == -1 {
      var c := OwnLetter(command);
      ForeignLetter(line, command, c);
    }
    NoneCalled(line, UNSUPPORTED);
  }

  const HIDDEN := "xsrun srun"
  const AFTER_STEP := "z"

  /** With two tasks, a script goes on after a line that hides `srun` behind a longer word. */
  lemma HiddenStepAccepted(parse: FlagParser)
    ensures var script := HIDDEN + "\n" + AFTER_STEP;
      && LogicalLines(script) == [HIDDEN, AFTER_STEP]
      && Accepts(script, 2, parse) && HasWord(HIDDEN, SRUN) && GoesOn(LogicalLines(script), 0)
  {
    var lines := [HIDDEN, AFTER_STEP];
    HiddenLines();
    HiddenIsTidy();
    HiddenIsPlain(lines);
    PlainScript(HIDDEN + "\n" + AFTER_STEP, lines, parse);
  }

  lemma HiddenIsPlain(lines: seq<string>)
    requires lines == [HIDDEN, AFTER_STEP]
    ensures GoesOn(lines, 0)
    ensures forall line :: line in lines ==> PlainLine(line) && CallsNothing(line)
  {
    assert lines[1] != "";
    HiddenIsTidy();
    forall line | line in lines ensures PlainLine(line) && CallsNothing(line) {
      TidyCallsNothing(line);
    }
  }

  lemma TidyCallsNothing(line: string)
    requires TidyLine(line) && forall c :: c in "blwioq" ==> c !in line
    ensures PlainLine(line) && CallsNothing(line)
  {
    NothingCalled(line);
  }

  lemma PlainScript(script: string, lines: seq<string>, parse: FlagParser)
    requires Split(script, '\n') == lines
    requires forall line :: line in lines ==> PlainLine(line) && CallsNothing(line)
    ensures LogicalLines(script) == lines && Accepts(script, 2, parse)
  {
    TidyFold(lines);
    PlainLinesClear(lines, parse);
  }

  lemma HiddenLines()
    ensures Split(HIDDEN + "\n" + AFTER_STEP, '\n') == [HIDDEN, AFTER_STEP]
  {
    HiddenLetters();
    TwoLines(HIDDEN, AFTER_STEP);
  }

  lemma TwoLines(first: string, second: string)
    requires '\n' !in first && '\n' !in second
    ensures Split(first + "\n" + second, '\n') == [first, second]
  {
    SplitConcat(first, second, '\n');
    OneLine(first);
    OneLine(second);
  }

  lemma HiddenIsTidy()
    ensures TidyLine(HIDDEN) && TidyLine(AFTER_STEP) && HasWord(HIDDEN, SRUN)
    ensures forall c :: c in "blwioq" ==> c !in HIDDEN && c !in AFTER_STEP
  {
    HiddenLetters();
    HiddenNotFound();
    HiddenWord();
    AlreadyTrimmed(HIDDEN);
    AlreadyTrimmed(AFTER_STEP);
    ForeignLetter(AFTER_STEP, SRUN, 'r');
  }

  lemma HiddenLetters()
    ensures '\n' !in HIDDEN && '\n' !in AFTER_STEP
    ensures forall c :: c in "blwioq" ==> c !in HIDDEN && c !in AFTER_STEP
  {
  }

  lemma HiddenNotFound()
    ensures FindCommand(HIDDEN, SRUN) == -1
  {
    AlreadyTrimmed(HIDDEN);
    assert OccursAt(HIDDEN, SRUN, 1);
    assert HIDDEN[0..0 + 4][0] == 'x';
    assert !OccursAt(HIDDEN, SRUN, 0);
    assert Index(HIDDEN, SRUN) == 1;
  }

  lemma HiddenWord()
    ensures HasWord(HIDDEN, SRUN)
  {
    AlreadyTrimmed(HIDDEN);
    assert HIDDEN[6..6 + 4] == SRUN;
    assert IsWordAt(HIDDEN, SRUN, 6);
  }

  predicate CallsNothing(line: string) {
    !IsStep(line) && FirstCalled(line, UNSUPPORTED) == None
  }

  lemma PlainLineClear(line: string, parse: FlagParser)
    requires CallsNothing(line)
    ensures LineProblem(line, parse) == None
  {
  }

  lemma {:induction false} PlainLinesClear(lines: seq<string>, parse: FlagParser)
    requires forall line :: line in lines ==> CallsNothing(line)
    ensures Clear(lines, 2, parse) && !HasStep(lines)
  {
    if lines != [] {
      var front, last := lines[..|lines| - 1], lines[|lines| - 1];
      PlainLinesClear(front, parse);
      PlainLineClear(last, parse);
      ClearNext(front, last, 2, parse);
      assert front + [last] == lines;
    }
  }

  const TWO_STEPS := "srun a && srun a"

  /** A flag parser that finds no flags. */
  const ALL_LEFT: FlagParser := args => Some(args)

  /** Of two steps on one line the second stays, and with two tasks they pass as one. */
  lemma SecondStepStays()
    ensures Accepts(TWO_STEPS, 2, ALL_LEFT)
    ensures Render(LogicalLines(TWO_STEPS), ALL_LEFT) == SECOND_STEP
  {
    TwoStepsFound();
    OneLine(TWO_STEPS);
    TwoStepsRewritten();
    OneStepScript(TWO_STEPS, ALL_LEFT);
  }

  const SECOND_STEP := "a && srun a"

  lemma OneStepScript(line: string, parse: FlagParser)
    requires Split(line, '\n') == [line] && PlainLine(line)
    requires line != "" && LineProblem(line, parse) == None
    ensures Accepts(line, 2, parse) && Render(LogicalLines(line), parse) == Rewritten(line, parse)
  {
    TidyFold([line]);
    ClearNext([], line, 2, parse);
    RenderNext([], line, parse);
    assert [] + [line] == [line];
    assert Newlines(0) + Rewritten(line, parse) == Rewritten(line, parse);
  }

  lemma TwoStepsRewritten()
    ensures IsStep(TWO_STEPS) && Rewritten(TWO_STEPS, ALL_LEFT) == SECOND_STEP
    ensures LineProblem(TWO_STEPS, ALL_LEFT) == None
  {
    TwoStepsFound();
    TwoStepsTokens();
    LeftOverJoined();
    SecondStepLetters();
    NothingCalled(SECOND_STEP);
    StepFirst(TWO_STEPS, ["srun", "a", "&&", "srun", "a"], ["a", "&&", "srun", "a"]);
  }

  /** A line that starts with `srun` and has no flags. */
  lemma StepFirst(line: string, tokens: seq<string>, args: seq<string>)
    requires FindCommand(line, SRUN) == 0 && Tokens(line) == tokens && tokens != [] && tokens[1..] == args != []
    requires FirstCalled(Join(args, ' '), UNSUPPORTED) == None
    ensures Rewritten(line, ALL_LEFT) == Join(args, ' ') && LineProblem(line, ALL_LEFT) == None
  {
    assert line[0..] == line;
    assert StepArguments(line) == args;
    assert line[..0] + Join(args, ' ') == Join(args, ' ');
  }

  lemma SecondStepLetters()
    ensures forall c :: c in "blwioq" ==> c !in SECOND_STEP
  {
  }

  lemma LeftOverJoined()
    ensures Join(["a", "&&", "srun", "a"], ' ') == SECOND_STEP
    ensures Join(["srun", "a", "&&", "srun", "a"], ' ') == TWO_STEPS
  {
    var parts := ["srun", "a", "&&", "srun", "a"];
    assert parts[4..] == ["a"];
    JoinFront(parts[3..], "a");
    JoinFront(parts[2..], "srun a");
    JoinFront(parts[1..], "&& srun a");
    JoinFront(parts, SECOND_STEP);
    assert parts[1..] == ["a", "&&", "srun", "a"];
  }

  lemma JoinFront(parts: seq<string>, rest: string)
    requires |parts| > 1 && Join(parts[1..], ' ') == rest
    ensures Join(parts, ' ') == parts[0] + [' '] + rest
  {
  }

  lemma TwoStepsFound()
    ensures FindCommand(TWO_STEPS, SRUN) == 0 && PlainLine(TWO_STEPS)
  {
    AlreadyTrimmed(TWO_STEPS);
    assert OccursAt(TWO_STEPS, SRUN, 0);
    assert Index(TWO_STEPS, SRUN) == 0;
  }

  lemma TwoStepsTokens()
    ensures Tokens(TWO_STEPS) == ["srun", "a", "&&", "srun", "a"]
  {
    var parts := ["srun", "a", "&&", "srun", "a"];
    PlainTokens();
    LeftOverJoined();
    TokensUnique(parts, false);
    assert Join(parts, ' ') + "" == TWO_STEPS;
  }

  lemma PlainTokens()
    ensures Solid("srun") && Closed("srun") && Solid("a") && Closed("a") && Solid("&&") && Closed("&&")
  {
    StepToken("");
    assert SRUN + "" == "srun";
    assert "a"[..0] == "" && "&&"[..1] == "&" && "&"[..0] == "";
  }

  const BLANK := ""

  /** An empty script gains a line break. */
  lemma BlankScriptGrows(parse: FlagParser)
    ensures Accepts(BLANK, 1, parse) && Render(LogicalLines(BLANK), parse) == "\n"
  {
    OneLine(BLANK);
    TidyFold([BLANK]);
    BlankIsNoStep();
    ClearNext([], BLANK, 1, parse);
    assert [] + [BLANK] == [BLANK];
    TidyUnchanged(BLANK, parse);
  }

  const OPEN := "a \\"

  /** A script that ends in a continuation: nothing of it is in the output. */
  lemma OpenContinuationLost(parse: FlagParser)
    ensures Accepts(OPEN, 1, parse) && Render(LogicalLines(OPEN), parse) == ""
    ensures LogicalLines(OPEN + "\n") == ["a "]
  {
    OneLine(OPEN);
    OpenFolds();
    StemLost(OPEN, "a", parse);
    assert "a" + " " == "a ";
  }

  lemma StemLost(line: string, stem: string, parse: FlagParser)
    requires Split(line, '\n') == [line] && FoldLines([line]) == Folded([], [stem])
    ensures Accepts(line, 1, parse) && Render(LogicalLines(line), parse) == ""
    ensures LogicalLines(line + "\n") == [stem + " "]
  {
    OpenMeans([line]);
    OpenContinuation(line);
    NothingRendered(parse);
  }

  lemma NothingRendered(parse: FlagParser)
    ensures Clear([], 1, parse) && Render([], parse) == ""
  {
    assert Newlines(0) == "";
  }

  lemma OpenFolds()
    ensures FoldLines([OPEN]) == Folded([], ["a"])
  {
    AlreadyTrimmed(OPEN);
    FoldSnoc([], OPEN);
    assert [] + [OPEN] == [OPEN];
    assert OPEN[..1] == "a" && TrimRightSpaces("a") == "a";
    assert Stem(OPEN) == ["a"];
  }

  // ---- ranges ----

  /** The range 0-2147483647:1 is in the grammar, and its loop never ends. */
  lemma EndlessRange()
    ensures var flag := RangeFlag(0, MAX_INT32, 1); Meaning(flag).Some? && !RangeEnds(flag)
  {
    RangeFlagRead(0, MAX_INT32, 1);
    GreatestNeverEnds(0, MAX_INT32, 1);
  }

  /** The range 2-2147483646:2147483647 holds one index, but the loop lists three. */
  lemma OverrunRange()
    ensures var flag := RangeFlag(2, MAX_INT32 - 1, MAX_INT32);
      && RangeEnds(flag) && !RangeFits(flag)
      && Meaning(flag).Some? && Meaning(flag).value.indexes == [2]
    ensures LoopEnds(2, MAX_INT32 - 1, MAX_INT32)
    ensures LoopIndexes(2, MAX_INT32 - 1, MAX_INT32) == [2, -MAX_INT32, 0]
  {
    var to, step := MAX_INT32 - 1, MAX_INT32;
    RangeFlagRead(2, to, step);
    OverrunLoop(to, step);
    LoopIndexesAre(2, to, step, 3);
    ProgressionStep(2, to, step);
  }

  lemma OverrunLoop(to: int, step: int)
    requires to == MAX_INT32 - 1 && step == MAX_INT32
    ensures RangeLoop(2, to, step, 3) == Some([2, -step, 0])
  {
    WrapMultiple(2 + step, 1);
    assert [0] + [] == [0] && [-step] + [0] == [-step, 0];
    assert RangeLoop(step, to, step, 0) == Some([]);
    assert RangeLoop(0, to, step, 1) == Some([0]);
    assert RangeLoop(-step, to, step, 2) == Some([-step, 0]);
    assert [2] + [-step, 0] == [2, -step, 0];
  }

  const ZEROS := "00,1"

  /** The list 00,1 is not printed as it was written. */
  lemma LeadingZeroLost()
    ensures CommaFormat(ZEROS) && Meaning(ZEROS).Some?
    ensures BuildArrayIndexes(Meaning(ZEROS).value.indexes) != ZEROS
  {
    var parts := Split(ZEROS, ',');
    ZerosSplit();
    ZerosParse(parts);
    assert parts[0] != "0" && ZEROS[0] == '0';
    PrintParsedList(ZEROS);
  }

  lemma ZerosSplit()
    ensures Split(ZEROS, ',') == ["00", "1"]
  {
    SplitWordSep("00", "1", ',');
    SplitWord("1", ',');
    assert "00" + [','] + "1" == ZEROS;
  }

  lemma ZerosParse(parts: seq<string>)
    requires parts == ["00", "1"]
    ensures CommaParts(parts) && AllFit(parts) && StrictlyIncreasing(Values(parts))
  {
    assert "00"[..1] == "0" && "0"[..0] == "" && "1"[..0] == "";
    assert ParseInt32("00") == Some(0) && ParseInt32("1") == Some(1);
  }

  function Everything(): seq<int> {
    seq(MAX_INT32 + 1, k => k)
  }

  /** The list of all int32 from 0 on is accepted, and its number of completions is negative. */
  lemma EverythingOverflows()
    ensures var flag := BuildArrayIndexes(Everything());
      && Meaning(flag) == Some(ArrayIndexes(Everything(), None, None)) && RangeFits(flag)
    ensures Wrap32(|Everything()|) == MIN_INT32
  {
    ParsePrinted(Everything());
    WrapMultiple(MAX_INT32 + 1, 1);
  }

  // ---- file names ----

  /** After a double backslash the mask for the job's id stays a mask. */
  lemma MaskStays()
    ensures Filename.UnmaskFilename("%j") == "${SLURM_JOB_ID}"
    ensures Filename.UnmaskFilename("a\\\\%j") == "a%j"
    ensures Filename.UnmaskFilename(Filename.Quote("a\\\\b")) != "a\\\\b"
  {
    var name := "a\\\\%j";
    assert name[1] == '\\' && name[2] == '\\';
    assert Filename.HasDoubleBackslash(name);
    assert name[1..] == "\\\\%j" && name[1..][2..] == "%j";
    var quoted := "a\\\\b";
    assert quoted[1] == '\\' && quoted[2] == '\\';
    assert Filename.HasDoubleBackslash(quoted);
    Filename.UnmaskQuoted(quoted);
  }

  // ---- resources ----

  const NO_FLAGS := Flags(None, None, None, None, None, None, None, [])

  function Plain(name: string): Container {
    Container(name, [], map[], map[], [])
  }

  /** One CPU per task for container b only: the replica of a is counted, but requests nothing. */
  lemma CpuOfUnselected()
    ensures var p := PlanOf(NO_FLAGS.(cpusPerTask := Some(1000), workerContainers := ["b"]), [Plain("a"), Plain("b")], 1);
      TotalCpus(p) == 2000 && Total(p, RequestAmount(CPU)) == 1000
  {
    var p := PlanOf(NO_FLAGS.(cpusPerTask := Some(1000), workerContainers := ["b"]), [Plain("a"), Plain("b")], 1);
    OneOfTwo(p);
    RequestEntries(p.flags);
    RequestUniform(p, CPU);
    TotalOf(p, RequestAmount(CPU), 1000);
  }

  /** Exactly the second of two containers is selected. */
  lemma OneOfTwo(p: Plan)
    requires |p.template| == 2 && !Selected(p.flags, p.template[0].name) && Selected(p.flags, p.template[1].name)
    ensures CountSelected(p.flags, p.template) == 1
  {
    assert SelectedUpTo(p.flags, p.template, 1) == 0;
  }

  lemma OneOfOne(p: Plan)
    requires |p.template| == 1 && Selected(p.flags, p.template[0].name)
    ensures CountSelected(p.flags, p.template) == 1
  {
    assert SelectedUpTo(p.flags, p.template, 0) == 0;
  }

  /** One GPU per task and two tasks per node: one GPU is reported, two are requested. */
  lemma GpuOfReplica()
    ensures var p := PlanOf(NO_FLAGS.(gpusPerTask := Some(map["gpu" := 1000])), [Plain("a")], 1);
      TotalGpus(p) == 1000 && Total(p, GpuAmount(p.flags)) == 2000
  {
    var p := PlanOf(NO_FLAGS.(gpusPerTask := Some(map["gpu" := 1000])), [Plain("a")], 1);
    OneOfOne(p);
    SumOfTake(map["gpu" := 1000], "gpu");
    assert map["gpu" := 1000] - {"gpu"} == map[];
    GpusUniform(p);
    TotalOf(p, GpuAmount(p.flags), 1000);
    UniformAt(p, GpuAmount(p.flags), 1000, 0);
  }

  /** The same for memory per task. */
  lemma TaskMemoryOfReplica()
    ensures var p := PlanOf(NO_FLAGS.(memPerTask := Some(1000)), [Plain("a")], 1);
      TotalMemory(p) == 1000 && Total(p, RequestAmount(MEMORY)) == 2000
  {
    var p := PlanOf(NO_FLAGS.(memPerTask := Some(1000)), [Plain("a")], 1);
    OneOfOne(p);
    TaskMemoryUniform(p);
    TotalOf(p, RequestAmount(MEMORY), 1000);
    UniformAt(p, RequestAmount(MEMORY), 1000, 0);
  }

  /** A node's memory, shared by one container and then given to its replica once more. */
  lemma MemoryExceeded()
    ensures var p := PlanOf(NO_FLAGS.(memPerNode := Some(2000)), [Plain("a")], 1);
      Divides(p, 2000) && Total(p, LimitAmount(MEMORY)) == 4000
  {
    var p := PlanOf(NO_FLAGS.(memPerNode := Some(2000)), [Plain("a")], 1);
    OneOfOne(p);
    assert MEMORY in LimitsOf(p.flags, 2000);
    LimitTotal(p);
  }

  /** A template container that is called like the first replica. */
  lemma NameClash()
    ensures var p := PlanOf(NO_FLAGS, [Plain("a"), Plain("a-1")], 1);
      DistinctNames(p.template) && !DistinctNames(BuiltAll(p))
  {
    var p := PlanOf(NO_FLAGS, [Plain("a"), Plain("a-1")], 1);
    assert |p.template[0].name| != |p.template[1].name|;
    assert FormatInt(1) == "1";
    assert p.template[1].name == ReplicaName(p.template[0].name, 1);
    NamesDistinct(p);
  }
}

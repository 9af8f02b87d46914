/**
 Validation and rewriting of the batch script: `\` continuations are merged into logical
 lines, the first `srun` of a line and its flags are dropped, and unsupported Slurm commands
 are refused.
 */
module ScriptRewriter {
  import opened Wrappers
  import opened Text
  import opened Tokenizer
  import EnvVars

  const SRUN := "srun"
  const UNSUPPORTED := ["sbatch", "salloc", "wait", "sinfo", "scontrol", "squeue", "scancel"]

  datatype ScriptError =
    | InvalidTaskCount(nTasks: int)
    | MultipleSteps
    | InvalidFlags(line: string)
    | MissingArgument(line: string)
    | InvalidEnvVars(line: string)
    | UnsupportedCommand(command: string)

  /** The flag library: the arguments left over after the flags, or None for its error. */
  type FlagParser = seq<string> -> Option<seq<string>>

  /** The one thing assumed of the flag library: it invents no line break. */
  ghost predicate KeepsLines(parse: FlagParser) {
    forall args :: parse(args).Some? && NoBreaks(args) ==> NoBreaks(parse(args).value)
  }

  predicate NoBreaks(parts: seq<string>) {
    forall p :: p in parts ==> '\n' !in p
  }

  // ---- finding a command on a line ----

  /** `command` stands at `i` as a word: a space or an end of the text on either side. */
  predicate IsWordAt(s: string, command: string, i: int) {
    && OccursAt(s, command, i)
    && (i > 0 ==> s[i - 1] == ' ')
    && (i + |command| < |s| ==> s[i + |command|] == ' ')
  }

  /** The position, in the trimmed input, of the first occurrence of `command` if it is a word. */
  function FindCommand(input: string, command: string): (index: int)
    ensures index == -1 || (0 <= index && index + |command| <= |input|)
    ensures index >= 0 <==> IsWordAt(TrimSpace(input), command, Index(TrimSpace(input), command))
    ensures index >= 0 ==> index == Index(TrimSpace(input), command)
  {
    var s := TrimSpace(input);
    var index := Index(s, command);
    if index == -1 then -1
    else if index > 0 && s[index - 1] != ' ' then -1
    else
      var withoutPrefix := s[index..];
      assert withoutPrefix[..|command|] == command;
      if withoutPrefix != command && !(command + " " <= withoutPrefix) then -1
      else index
  }

  /** On a line without leading white space the index is valid in the line itself. */
  lemma FindCommandUntrimmed(line: string, command: string)
    requires line == "" || !IsSpace(line[0])
    requires FindCommand(line, command) >= 0
    ensures var i := FindCommand(line, command);
      OccursAt(line, command, i) && (i > 0 ==> line[i - 1] == ' ')
  {
    assert TrimSpace(line) <= line;
  }

  // ---- logical lines ----

  /** The logical lines completed so far and the pieces of the one still open. */
  datatype Folded = Folded(done: seq<string>, open: seq<string>)

  /** `strings.HasSuffix(s, " \\")`. */
  predicate EndsInContinuation(s: string) {
    |s| >= 2 && s[|s| - 2] == ' ' && s[|s| - 1] == '\\'
  }

  /** A trimmed physical line that ends in a continuation backslash. */
  predicate Continues(open: bool, piece: string) {
    EndsInContinuation(piece) || (open && piece == ['\\'])
  }

  /** The text before the continuation: `strings.TrimRight(line[:len(line)-2], " ")`. */
  function Uncontinued(s: string): string {
    if |s| < 2 then "" else TrimRightSpaces(s[..|s| - 2])
  }

  /** What such a line contributes: its text before the backslash, nothing for a lone backslash. */
  function Stem(piece: string): seq<string> {
    if |piece| < 2 then [] else [Uncontinued(piece)]
  }

  function FoldPiece(f: Folded, piece: string): Folded {
    if Continues(f.open != [], piece) then Folded(f.done, f.open + Stem(piece))
    else Folded(f.done + [Join(f.open + [piece], ' ')], [])
  }

  function FoldLines(lines: seq<string>): Folded {
    if lines == [] then Folded([], [])
    else FoldPiece(FoldLines(lines[..|lines| - 1]), TrimSpace(lines[|lines| - 1]))
  }

  /** The completed logical lines of a script; an open continuation at its end is not one. */
  function LogicalLines(script: string): seq<string> {
    FoldLines(Split(script, '\n')).done
  }

  ghost predicate Stems(open: seq<string>) {
    forall p :: p in open ==> p != "" && !IsSpace(p[0]) && p[|p| - 1] != ' '
  }

  lemma StemKept(piece: string)
    requires EndsInContinuation(piece) && !IsSpace(piece[0])
    ensures Stems(Stem(piece))
  {
    var text := piece[..|piece| - 2];
    assert |piece| >= 3 && text[0] == piece[0];
    assert TrimRightSpaces(text) != "" && TrimRightSpaces(text)[0] == text[0];
  }

  lemma {:induction false} OpenStems(lines: seq<string>)
    ensures Stems(FoldLines(lines).open)
  {
    if lines != [] {
      OpenStems(lines[..|lines| - 1]);
      var piece := TrimSpace(lines[|lines| - 1]);
      if EndsInContinuation(piece) {
        StemKept(piece);
      }
    }
  }

  lemma {:induction false} JoinStems(open: seq<string>)
    requires Stems(open) && open != []
    ensures var line := Join(open, ' ');
      line != "" && !IsSpace(line[0]) && line[|line| - 1] != ' '
  {
    if |open| > 1 {
      JoinStems(open[1..]);
    }
  }

  /** No logical line starts with white space. */
  lemma {:induction false} LogicalLineStart(lines: seq<string>, line: string)
    requires line in FoldLines(lines).done
    ensures line == "" || !IsSpace(line[0])
  {
    var front := lines[..|lines| - 1];
    var f := FoldLines(front);
    if line in f.done {
      LogicalLineStart(front, line);
    } else {
      OpenStems(front);
      JoinSnoc(f.open, TrimSpace(lines[|lines| - 1]), ' ');
      if f.open != [] {
        JoinStems(f.open);
      }
    }
  }

  /** Logical lines hold no line break. */
  lemma {:induction false} FoldNoBreaks(lines: seq<string>)
    requires NoBreaks(lines)
    ensures NoBreaks(FoldLines(lines).done) && NoBreaks(FoldLines(lines).open)
  {
    if lines != [] {
      var front, raw := lines[..|lines| - 1], lines[|lines| - 1];
      FoldNoBreaks(front);
      var f, piece := FoldLines(front), TrimSpace(raw);
      assert raw in lines;
      if !Continues(f.open != [], piece) && '\n' in Join(f.open + [piece], ' ') {
        JoinChars(f.open + [piece], ' ', '\n');
        assert false;
      }
    }
  }

  lemma FoldSnoc(lines: seq<string>, last: string)
    ensures FoldLines(lines + [last]) == FoldPiece(FoldLines(lines), TrimSpace(last))
  {
    assert (lines + [last])[..|lines|] == lines;
  }

  lemma FoldPieceAfter(done: seq<string>, f: Folded, piece: string)
    ensures FoldPiece(Folded(done + f.done, f.open), piece) ==
            Folded(done + FoldPiece(f, piece).done, FoldPiece(f, piece).open)
  {
    assert done + f.done + [Join(f.open + [piece], ' ')] == done + (f.done + [Join(f.open + [piece], ' ')]);
  }

  lemma LastApart(a: seq<string>, b: seq<string>)
    requires b != []
    ensures var front, last := b[..|b| - 1], b[|b| - 1];
      a + b == a + front + [last] && b == front + [last]
  {
  }

  /** Merging works block by block: lines after a completed logical line start afresh. */
  lemma {:induction false} FoldConcat(a: seq<string>, b: seq<string>)
    requires FoldLines(a).open == []
    ensures FoldLines(a + b) == Folded(FoldLines(a).done + FoldLines(b).done, FoldLines(b).open)
  {
    if b == [] {
      assert a + b == a;
    } else {
      var front, last := b[..|b| - 1], b[|b| - 1];
      FoldConcat(a, front);
      LastApart(a, b);
      FoldSnoc(a + front, last);
      FoldSnoc(front, last);
      FoldPieceAfter(FoldLines(a).done, FoldLines(front), TrimSpace(last));
    }
  }

  /** Completed logical lines never change when more physical lines follow. */
  lemma {:induction false} FoldPrefix(lines: seq<string>, i: int)
    requires 0 <= i <= |lines|
    ensures FoldLines(lines[..i]).done <= FoldLines(lines).done
    decreases |lines|
  {
    if i < |lines| {
      FoldPrefix(lines[..|lines| - 1], i);
      assert lines[..|lines| - 1][..i] == lines[..i];
    } else {
      assert lines[..i] == lines;
    }
  }

  // ---- one logical line ----

  predicate IsStep(line: string) {
    FindCommand(line, SRUN) >= 0
  }

  lemma TokensNonEmpty(s: string)
    requires s != ""
    ensures Tokens(s) != []
  {
    TokensLossless(s);
  }

  function StepArguments(line: string): seq<string>
    requires IsStep(line)
  {
    var rest := line[FindCommand(line, SRUN)..];
    TokensNonEmpty(rest);
    Tokens(rest)[1..]
  }

  /** A line with its `srun` and the flags of `srun` taken out. */
  function Rewritten(line: string, parse: FlagParser): string {
    if !IsStep(line) || parse(StepArguments(line)).None? then line
    else line[..FindCommand(line, SRUN)] + Join(parse(StepArguments(line)).value, ' ')
  }

  /** The first of the `commands` that the line calls. */
  function FirstCalled(line: string, commands: seq<string>): Option<string> {
    if commands == [] then None
    else if FindCommand(line, commands[0]) >= 0 then Some(commands[0])
    else FirstCalled(line, commands[1..])
  }

  ghost function StepProblem(line: string, parse: FlagParser): Option<ScriptError>
    requires IsStep(line)
  {
    var index, rest := FindCommand(line, SRUN), parse(StepArguments(line));
    if rest.None? then Some(InvalidFlags(line))
    else if rest.value == [] then Some(MissingArgument(line))
    else if index > 0 && !EnvVars.Accepted(Tokens(line[..index])) then Some(InvalidEnvVars(line))
    else None
  }

  ghost function LineProblem(line: string, parse: FlagParser): Option<ScriptError> {
    if IsStep(line) && StepProblem(line, parse).Some? then StepProblem(line, parse)
    else
      var unsupported := FirstCalled(Rewritten(line, parse), UNSUPPORTED);
      if unsupported.Some? then Some(UnsupportedCommand(unsupported.value)) else None
  }

  // ---- the whole script ----

  predicate HasStep(lines: seq<string>) {
    lines != [] && (HasStep(lines[..|lines| - 1]) || IsStep(lines[|lines| - 1]))
  }

  /** What is wrong with the `k`th logical line. */
  ghost function Problem(lines: seq<string>, k: int, nTasks: int, parse: FlagParser): Option<ScriptError>
    requires 0 <= k < |lines|
  {
    if lines[k] == "" then None
    else if nTasks > 1 && HasStep(lines[..k]) then Some(MultipleSteps)
    else LineProblem(lines[k], parse)
  }

  ghost predicate Clear(lines: seq<string>, nTasks: int, parse: FlagParser) {
    lines != [] ==>
      Clear(lines[..|lines| - 1], nTasks, parse) && Problem(lines, |lines| - 1, nTasks, parse) == None
  }

  ghost predicate FirstProblem(lines: seq<string>, k: int, nTasks: int, parse: FlagParser, e: ScriptError) {
    0 <= k < |lines| && Problem(lines, k, nTasks, parse) == Some(e) && Clear(lines[..k], nTasks, parse)
  }

  /** `e` reports the first problem of the script. */
  ghost predicate FailsWith(lines: seq<string>, nTasks: int, parse: FlagParser, e: ScriptError) {
    exists k :: FirstProblem(lines, k, nTasks, parse, e)
  }

  predicate AllBlank(lines: seq<string>) {
    forall k :: 0 <= k < |lines| ==> lines[k] == ""
  }

  function RewriteAll(lines: seq<string>, parse: FlagParser): (r: seq<string>)
    ensures |r| == |lines|
    ensures forall k :: 0 <= k < |r| ==> r[k] == if lines[k] == "" then "" else Rewritten(lines[k], parse)
  {
    seq(|lines|, k requires 0 <= k < |lines| => if lines[k] == "" then "" else Rewritten(lines[k], parse))
  }

  function Newlines(n: nat): string {
    seq(n, _ => '\n')
  }

  /** The text written for `lines`: one per line, and one line break too many if all are blank. */
  function Render(lines: seq<string>, parse: FlagParser): string {
    if AllBlank(lines) then Newlines(|lines|) else Join(RewriteAll(lines, parse), '\n')
  }

  lemma {:induction false} JoinBlanks(parts: seq<string>, last: string)
    requires AllBlank(parts)
    ensures Join(parts + [last], '\n') == Newlines(|parts|) + last
  {
    if parts != [] {
      JoinBlanks(parts[1..], last);
      assert (parts + [last])[1..] == parts[1..] + [last];
      assert parts[0] == "";
      assert [] + ['\n'] + (Newlines(|parts| - 1) + last) == Newlines(|parts|) + last;
    } else {
      assert [] + [last] == [last];
    }
  }

  /** How the output grows by one logical line: the line break comes before every line but the first non-blank. */
  lemma RenderNext(lines: seq<string>, line: string, parse: FlagParser)
    ensures Render(lines + [line], parse) ==
            if line == "" then Render(lines, parse) + "\n"
            else (if AllBlank(lines) then Render(lines, parse) else Render(lines, parse) + "\n") + Rewritten(line, parse)
  {
    var all := lines + [line];
    var before := RewriteAll(lines, parse);
    assert AllBlank(all) <==> AllBlank(lines) && line == "" by {
      assert all[|lines|] == line && forall k :: 0 <= k < |lines| ==> all[k] == lines[k];
    }
    if AllBlank(all) {
      assert Newlines(|all|) == Newlines(|lines|) + "\n";
    } else {
      var text := if line == "" then "" else Rewritten(line, parse);
      assert RewriteAll(all, parse) == before + [text];
      JoinSnoc(before, text, '\n');
      if AllBlank(lines) {
        JoinBlanks(before, text);
        assert Render(lines, parse) + "" == Render(lines, parse);
      } else {
        assert lines != [];
        assert Join(before, '\n') + ['\n'] + text == Join(before, '\n') + "\n" + text;
        assert line == "" ==> Render(lines, parse) + "\n" + "" == Render(lines, parse) + "\n";
      }
    }
  }

  /** The accumulated text after one more physical line. */
  function Extend(open: seq<string>, piece: string): string {
    if open == [] then piece else Join(open, ' ') + " " + piece
  }

  /** The code's suffix test on the accumulated line sees only the newest piece. */
  lemma ExtendLine(open: seq<string>, piece: string)
    requires Stems(open)
    requires piece == "" || !IsSpace(piece[0])
    ensures Extend(open, piece) == Join(open + [piece], ' ')
    ensures EndsInContinuation(Extend(open, piece)) <==> Continues(open != [], piece)
    ensures EndsInContinuation(Extend(open, piece)) ==>
              Uncontinued(Extend(open, piece)) == Join(open + Stem(piece), ' ')
  {
    ExtendIsJoin(open, piece);
    if open == [] {
      assert open + Stem(piece) == Stem(piece);
    } else {
      JoinStems(open);
      ExtendOpenLine(Join(open, ' '), piece);
      JoinStem(open, piece);
    }
  }

  lemma ExtendIsJoin(open: seq<string>, piece: string)
    ensures Extend(open, piece) == Join(open + [piece], ' ')
  {
    JoinSnoc(open, piece, ' ');
    if open == [] {
      assert open + [piece] == [piece];
    }
  }

  /** What a piece adds to an open line when it is continued. */
  function StemText(piece: string): string {
    if |piece| < 2 then "" else " " + Uncontinued(piece)
  }

  lemma JoinStem(open: seq<string>, piece: string)
    requires open != []
    ensures Join(open + Stem(piece), ' ') == Join(open, ' ') + StemText(piece)
  {
    if |piece| < 2 {
      assert open + Stem(piece) == open;
    } else {
      JoinSnoc(open, Uncontinued(piece), ' ');
      Assoc(Join(open, ' '), " ", Uncontinued(piece));
    }
  }

  lemma CutTwo(a: string, b: string)
    requires |b| >= 2
    ensures (a + b)[..|a + b| - 2] == a + b[..|b| - 2]
  {
  }

  lemma ExtendOpenLine(before: string, piece: string)
    requires before != "" && before[|before| - 1] != ' '
    requires piece == "" || !IsSpace(piece[0])
    ensures var line := before + " " + piece;
      && (EndsInContinuation(line) <==> Continues(true, piece))
      && (EndsInContinuation(line) ==> Uncontinued(line) == before + StemText(piece))
  {
    var line := before + " " + piece;
    if EndsInContinuation(piece) {
      CutTwo(before + " ", piece);
      TrimAfter(before + " ", piece[..|piece| - 2]);
      Assoc(before, " ", Uncontinued(piece));
    } else if |piece| == 1 {
      assert line[..|line| - 2] == before;
    }
  }

  lemma {:induction false} TrimAfter(a: string, b: string)
    requires TrimRightSpaces(b) != ""
    ensures TrimRightSpaces(a + b) == a + TrimRightSpaces(b)
  {
    if b[|b| - 1] == ' ' {
      assert (a + b)[..|a + b| - 1] == a + b[..|b| - 1];
      TrimAfter(a, b[..|b| - 1]);
    }
  }

  // ---- the code ----

  /** The `srun` branch: drop the word and its flags, keep the checked environment prefix. */
  method ReplaceStep(line: string, index: int, parse: FlagParser) returns (r: Result<string, ScriptError>)
    requires IsStep(line) && index == FindCommand(line, SRUN)
    ensures r.Success? <==> StepProblem(line, parse) == None
    ensures r.Success? ==> r.value == Rewritten(line, parse)
    ensures r.Failure? ==> StepProblem(line, parse) == Some(r.error)
  {
    var parts := SplitBySpaceWithIgnoreInQuotes(line[index..]);
    TokensNonEmpty(line[index..]);
    var rest := parse(parts[1..]);
    if rest.None? {
      return Failure(InvalidFlags(line));
    }
    if rest.value == [] {
      return Failure(MissingArgument(line));
    }
    var envVars := "";
    if index > 0 {
      envVars := line[..index];
      var valid := EnvVars.ValidateEnvVars(envVars);
      if valid.Failure? {
        return Failure(InvalidEnvVars(line));
      }
    }
    assert envVars == line[..index];
    return Success(envVars + Join(rest.value, ' '));
  }

  method FindCalled(line: string, commands: seq<string>) returns (r: Option<string>)
    ensures r == FirstCalled(line, commands)
  {
    for c := 0 to |commands|
      invariant FirstCalled(line, commands) == FirstCalled(line, commands[c..])
    {
      if FindCommand(line, commands[c]) != -1 {
        return Some(commands[c]);
      }
    }
    return None;
  }

  /** The body of the loop for one non-blank logical line. */
  method RewriteLine(line: string, parse: FlagParser) returns (step: bool, r: Result<string, ScriptError>)
    ensures step == IsStep(line)
    ensures r.Success? <==> LineProblem(line, parse) == None
    ensures r.Success? ==> r.value == Rewritten(line, parse)
    ensures r.Failure? ==> LineProblem(line, parse) == Some(r.error)
  {
    var text := line;
    var index := FindCommand(line, SRUN);
    step := index != -1;
    if step {
      r := ReplaceStep(line, index, parse);
      if r.Failure? {
        return;
      }
      text := r.value;
    }
    var unsupported := FindCalled(text, UNSUPPORTED);
    if unsupported.Some? {
      return step, Failure(UnsupportedCommand(unsupported.value));
    }
    r := Success(text);
  }

  method SlurmValidateAndReplaceScript(script: string, nTasks: int, parse: FlagParser)
    returns (r: Result<string, ScriptError>)
    ensures r.Success? <==> nTasks >= 1 && Clear(LogicalLines(script), nTasks, parse)
    ensures r.Success? ==> r.value == Render(LogicalLines(script), parse)
    ensures r.Failure? ==>
              if nTasks < 1 then r.error == InvalidTaskCount(nTasks)
              else FailsWith(LogicalLines(script), nTasks, parse, r.error)
  {
    if nTasks < 1 {
      return Failure(InvalidTaskCount(nTasks));
    }
    var sb, srunCount, line, needNewLine := "", 0, "", false;
    var lines := Split(script, '\n');
    ghost var folds := FoldHistory(lines);
    ghost var all := LogicalLines(script);
    for i := 0 to |lines|
      invariant line == Join(folds[i].open, ' ')
      invariant srunCount >= 0 && Written(folds[i].done, srunCount > 0, needNewLine, sb, nTasks, parse)
    {
      ghost var before, open := folds[i], line;
      if |line| > 0 {
        line := line + " ";
      }
      line := line + TrimSpace(lines[i]);
      PieceRead(all, before, TrimSpace(lines[i]), folds[i + 1], open, line);

      if EndsInContinuation(line) {
        line := Uncontinued(line);
        continue;
      }

      if line == "" {
        WriteLine(before.done, line, srunCount > 0, needNewLine, sb, nTasks, parse);
        sb := sb + "\n";
        continue;
      }
      if nTasks > 1 && srunCount > 0 {
        SecondStep(all, before.done, line, needNewLine, sb, nTasks, parse);
        return Failure(MultipleSteps);
      }
      var step, text := RewriteLine(line, parse);
      if text.Failure? {
        LineFails(all, before.done, line, srunCount > 0, needNewLine, sb, nTasks, parse, text.error);
        return Failure(text.error);
      }
      WriteLine(before.done, line, srunCount > 0, needNewLine, sb, nTasks, parse);
      if step {
        srunCount := srunCount + 1;
      }
      if needNewLine {
        sb := sb + "\n";
      }
      sb := sb + text.value;
      needNewLine := true;
      line := "";
    }
    return Success(sb);
  }

  /** What has been written of an accepted script once its logical lines `done` are read. */
  ghost predicate Written(
    done: seq<string>, stepSeen: bool, needNewLine: bool, sb: string, nTasks: int, parse: FlagParser)
  {
    && stepSeen == HasStep(done)
    && needNewLine == !AllBlank(done)
    && sb == Render(done, parse)
    && Clear(done, nTasks, parse)
  }

  /** `line` is the logical line of `all` that follows `done`. */
  ghost predicate Completes(all: seq<string>, done: seq<string>, line: string) {
    done + [line] <= all
  }

  /** One more physical line takes the merging from `f` to `g`, on the way to `all`. */
  ghost predicate FoldsTo(all: seq<string>, f: Folded, piece: string, g: Folded) {
    g == FoldPiece(f, piece) && Stems(f.open) && g.done <= all
  }

  /** Every intermediate state of the merging. */
  lemma FoldHistory(lines: seq<string>) returns (folds: seq<Folded>)
    ensures |folds| == |lines| + 1 && folds[0] == Folded([], []) && folds[|lines|] == FoldLines(lines)
    ensures forall i :: 0 <= i < |lines| ==>
              FoldsTo(FoldLines(lines).done, folds[i], TrimSpace(lines[i]), folds[i + 1])
  {
    folds := seq(|lines| + 1, i requires 0 <= i <= |lines| => FoldLines(lines[..i]));
    assert lines[..|lines|] == lines;
    forall i | 0 <= i < |lines|
      ensures FoldsTo(FoldLines(lines).done, folds[i], TrimSpace(lines[i]), folds[i + 1])
    {
      FoldStep(lines, i);
    }
  }

  lemma FoldStep(lines: seq<string>, i: int)
    requires 0 <= i < |lines|
    ensures FoldsTo(FoldLines(lines).done, FoldLines(lines[..i]), TrimSpace(lines[i]), FoldLines(lines[..i + 1]))
  {
    FoldPrefix(lines, i + 1);
    OpenStems(lines[..i]);
    PrefixNext(lines, i);
    FoldSnoc(lines[..i], lines[i]);
  }

  /** The accumulated line after one more physical line. */
  lemma PieceRead(all: seq<string>, f: Folded, piece: string, g: Folded, open: string, line: string)
    requires FoldsTo(all, f, piece, g)
    requires open == Join(f.open, ' ')
    requires piece == "" || !IsSpace(piece[0])
    requires line == (if |open| > 0 then open + " " else open) + piece
    ensures
      if EndsInContinuation(line) then g.done == f.done && Join(g.open, ' ') == Uncontinued(line)
      else g == Folded(f.done + [line], []) && Completes(all, f.done, line)
  {
    ExtendIs(f.open, piece);
    assert line == Extend(f.open, piece);
    PieceFolded(f, piece, g, line);
  }

  lemma PieceFolded(f: Folded, piece: string, g: Folded, line: string)
    requires g == FoldPiece(f, piece) && Stems(f.open) && line == Extend(f.open, piece)
    requires piece == "" || !IsSpace(piece[0])
    ensures if EndsInContinuation(line) then g.done == f.done && Join(g.open, ' ') == Uncontinued(line)
            else g == Folded(f.done + [line], [])
  {
    ExtendLine(f.open, piece);
  }

  lemma ExtendIs(open: seq<string>, piece: string)
    requires Stems(open)
    ensures var before := Join(open, ' ');
      Extend(open, piece) == (if |before| > 0 then before + " " else before) + piece
  {
    if open != [] {
      JoinStems(open);
    } else {
      assert "" + piece == piece;
    }
  }

  /** A logical line without a problem is written. */
  lemma WriteLine(
    done: seq<string>, line: string, stepSeen: bool, needNewLine: bool, sb: string, nTasks: int, parse: FlagParser)
    requires Written(done, stepSeen, needNewLine, sb, nTasks, parse)
    requires line == "" || ((nTasks > 1 ==> !stepSeen) && LineProblem(line, parse) == None)
    ensures line == "" ==> Written(done + [line], stepSeen, needNewLine, sb + "\n", nTasks, parse)
    ensures line != "" ==>
              Written(done + [line], stepSeen || IsStep(line), true,
                      (if needNewLine then sb + "\n" else sb) + Rewritten(line, parse), nTasks, parse)
  {
    RenderNext(done, line, parse);
    HasStepNext(done, line);
    AllBlankNext(done, line);
    BlankIsNoStep();
    ClearNext(done, line, nTasks, parse);
  }

  lemma HasStepNext(lines: seq<string>, line: string)
    ensures HasStep(lines + [line]) <==> HasStep(lines) || IsStep(line)
  {
    assert (lines + [line])[..|lines|] == lines;
  }

  lemma AllBlankNext(lines: seq<string>, line: string)
    ensures AllBlank(lines + [line]) <==> AllBlank(lines) && line == ""
  {
    var all := lines + [line];
    assert all[|lines|] == line && forall j :: 0 <= j < |lines| ==> all[j] == lines[j];
  }

  lemma BlankIsNoStep()
    ensures !IsStep("")
  {
  }

  /** A script is clear when no logical line has a problem. */
  lemma {:induction false} ClearMeans(lines: seq<string>, nTasks: int, parse: FlagParser)
    ensures Clear(lines, nTasks, parse) <==>
            forall k :: 0 <= k < |lines| ==> Problem(lines, k, nTasks, parse) == None
  {
    if lines != [] {
      var front, last := lines[..|lines| - 1], lines[|lines| - 1];
      ClearMeans(front, nTasks, parse);
      assert lines == front + [last];
      forall k | 0 <= k < |front| ensures Problem(front, k, nTasks, parse) == Problem(lines, k, nTasks, parse) {
        ProblemKept(front, last, k, nTasks, parse);
      }
    }
  }

  lemma ProblemKept(front: seq<string>, last: string, k: int, nTasks: int, parse: FlagParser)
    requires 0 <= k < |front|
    ensures Problem(front + [last], k, nTasks, parse) == Problem(front, k, nTasks, parse)
  {
    assert (front + [last])[..k] == front[..k];
  }

  /** Some logical line before `k` is an `srun` line. */
  lemma {:induction false} HasStepMeans(lines: seq<string>)
    ensures HasStep(lines) <==> exists j :: 0 <= j < |lines| && IsStep(lines[j])
  {
    if lines != [] {
      HasStepMeans(lines[..|lines| - 1]);
    }
  }

  lemma ClearNext(lines: seq<string>, line: string, nTasks: int, parse: FlagParser)
    requires Clear(lines, nTasks, parse)
    requires line == "" || ((nTasks > 1 ==> !HasStep(lines)) && LineProblem(line, parse) == None)
    ensures Clear(lines + [line], nTasks, parse)
  {
    assert (lines + [line])[..|lines|] == lines;
  }

  /** The first problem among the lines read so far is the first problem of the script. */
  lemma SecondStep(
    all: seq<string>, done: seq<string>, line: string, needNewLine: bool, sb: string, nTasks: int, parse: FlagParser)
    requires Completes(all, done, line) && line != "" && nTasks > 1
    requires Written(done, true, needNewLine, sb, nTasks, parse)
    ensures FailsWith(all, nTasks, parse, MultipleSteps) && !Clear(all, nTasks, parse)
  {
    assert all[..|done|] == (done + [line])[..|done|] == done;
    assert all[|done|] == line;
    assert FirstProblem(all, |done|, nTasks, parse, MultipleSteps);
    ClearMeans(all, nTasks, parse);
  }

  lemma LineFails(
    all: seq<string>, done: seq<string>, line: string, stepSeen: bool, needNewLine: bool, sb: string,
    nTasks: int, parse: FlagParser, e: ScriptError)
    requires Completes(all, done, line) && line != ""
    requires Written(done, stepSeen, needNewLine, sb, nTasks, parse)
    requires (nTasks > 1 ==> !stepSeen) && LineProblem(line, parse) == Some(e)
    ensures FailsWith(all, nTasks, parse, e) && !Clear(all, nTasks, parse)
  {
    assert all[..|done|] == (done + [line])[..|done|] == done;
    assert all[|done|] == line;
    assert FirstProblem(all, |done|, nTasks, parse, e);
    ClearMeans(all, nTasks, parse);
  }
}

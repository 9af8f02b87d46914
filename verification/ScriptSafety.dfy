/** What the rewriter guarantees about the scripts it accepts. */
module ScriptSafety {
  import opened Wrappers
  import opened Text
  import opened Tokenizer
  import opened ScriptRewriter

  /** The script passes validation; its output is `Render(LogicalLines(script), parse)`. */
  ghost predicate Accepts(script: string, nTasks: int, parse: FlagParser) {
    nTasks >= 1 && Clear(LogicalLines(script), nTasks, parse)
  }

  lemma LogicalLineFacts(script: string, k: int)
    requires 0 <= k < |LogicalLines(script)|
    ensures var line := LogicalLines(script)[k];
      '\n' !in line && (line == "" || !IsSpace(line[0]))
  {
    FoldNoBreaks(Split(script, '\n'));
    LogicalLineStart(Split(script, '\n'), LogicalLines(script)[k]);
  }

  /** Where the first space of `s` is. */
  function UntilSpace(s: string): (n: nat)
    ensures n <= |s| && ' ' !in s[..n]
    ensures n < |s| ==> s[n] == ' '
  {
    if s == "" || s[0] == ' ' then 0
    else
      var n := UntilSpace(s[1..]);
      assert s[..n + 1] == [s[0]] + s[1..][..n];
      n + 1
  }

  /** The tokens after the first space, if there is one. */
  function TokensAfterSpace(s: string): seq<string> {
    if UntilSpace(s) < |s| then Tokens(s[UntilSpace(s) + 1..]) else []
  }

  predicate AllSpace(s: string) {
    forall c :: c in s ==> IsSpace(c)
  }

  /** The text of a line after its `srun`. */
  function AfterStep(line: string): string
    requires IsStep(line) && OccursAt(line, SRUN, FindCommand(line, SRUN))
  {
    line[FindCommand(line, SRUN) + |SRUN|..]
  }

  /**
   `srun` is found in the trimmed line but cut out of the untrimmed one: the index is valid
   there, and the arguments are the tokens after the next space. What may stand between the
   word and that space is white space at the end of the line.
   */
  lemma StepIsCutOut(script: string, k: int)
    requires 0 <= k < |LogicalLines(script)| && IsStep(LogicalLines(script)[k])
    ensures var line := LogicalLines(script)[k]; var i := FindCommand(line, SRUN);
      && OccursAt(line, SRUN, i)
      && (i > 0 ==> line[i - 1] == ' ')
      && StepArguments(line) == TokensAfterSpace(AfterStep(line))
      && (UntilSpace(AfterStep(line)) > 0 ==> AllSpace(AfterStep(line)))
  {
    LogicalLineFacts(script, k);
    FindCommandUntrimmed(LogicalLines(script)[k], SRUN);
    SpaceAfterStep(LogicalLines(script)[k]);
    ArgumentsAfterStep(LogicalLines(script)[k]);
  }

  /** A character other than a space can follow `srun` only as trailing white space. */
  lemma SpaceAfterStep(line: string)
    requires line == "" || !IsSpace(line[0])
    requires IsStep(line) && OccursAt(line, SRUN, FindCommand(line, SRUN))
    ensures UntilSpace(AfterStep(line)) > 0 ==> AllSpace(AfterStep(line))
  {
    var end, trimmed := FindCommand(line, SRUN) + |SRUN|, TrimSpace(line);
    assert trimmed == TrimRight(line);
    if end == |trimmed| {
      forall c | c in AfterStep(line) ensures IsSpace(c) {
        var j :| 0 <= j < |AfterStep(line)| && AfterStep(line)[j] == c;
        TrimmedIsSpace(line, end + j);
      }
    } else {
      assert AfterStep(line)[0] == ' ';
    }
  }

  lemma ArgumentsAfterStep(line: string)
    requires IsStep(line) && OccursAt(line, SRUN, FindCommand(line, SRUN))
    requires UntilSpace(AfterStep(line)) > 0 ==> AllSpace(AfterStep(line))
    ensures StepArguments(line) == TokensAfterSpace(AfterStep(line))
  {
    ArgumentsAt(line, FindCommand(line, SRUN));
    assert StepArguments(line) == Tokens(line[FindCommand(line, SRUN)..])[1..];
  }

  lemma ArgumentsAt(line: string, i: nat)
    requires OccursAt(line, SRUN, i)
    requires var tail := line[i + |SRUN|..]; UntilSpace(tail) > 0 ==> AllSpace(tail)
    ensures var tokens := Tokens(line[i..]);
      tokens != [] && tokens[1..] == TokensAfterSpace(line[i + |SRUN|..])
  {
    var tail := line[i + |SRUN|..];
    assert line[i..] == SRUN + tail;
    StepWord(tail);
    TokensAfterFirst(SRUN, tail);
  }

  lemma TokensAfterFirst(first: string, tail: string)
    requires var word := first + tail[..UntilSpace(tail)];
      word != "" && Closed(word) && Scan(word) == Progress([], word)
    ensures var tokens := Tokens(first + tail);
      tokens != [] && tokens[1..] == TokensAfterSpace(tail)
  {
    var n := UntilSpace(tail);
    if n < |tail| {
      CutAt(tail, n);
      FirstSplit(first, tail[..n], tail[n + 1..]);
    } else {
      assert tail == tail[..n];
      TokensAfterWord(first + tail, "");
    }
  }

  lemma FirstSplit(first: string, head: string, rest: string)
    requires var word := first + head;
      word != "" && Closed(word) && Scan(word) == Progress([], word)
    ensures Tokens(first + (head + " " + rest)) == [first + head] + Tokens(rest)
  {
    TokensAfterWord(first + head, rest);
    Assoc(first, head + " ", rest);
    Assoc(first, head, " ");
  }

  lemma StepWord(tail: string)
    requires UntilSpace(tail) > 0 ==> AllSpace(tail)
    ensures var word := SRUN + tail[..UntilSpace(tail)];
      Closed(word) && Scan(word) == Progress([], word)
  {
    assert AllSpace(tail[..UntilSpace(tail)]);
    StepToken(tail[..UntilSpace(tail)]);
  }

  lemma TokensAfterWord(word: string, rest: string)
    requires word != "" && Closed(word) && Scan(word) == Progress([], word)
    ensures Tokens(word) == [word]
    ensures Tokens(word + " " + rest) == [word] + Tokens(rest)
  {
    ScanAfterSeparator(word, rest);
    EmittedAfter(Scan(word + " " + rest), word, Scan(rest));
  }

  lemma EmittedAfter(q: Progress, word: string, p: Progress)
    requires q == Progress([] + [word] + p.parts, p.current)
    ensures Emitted(q) == [word] + Emitted(p)
  {
    assert [] + [word] == [word];
    assert [word] + p.parts + [p.current] == [word] + (p.parts + [p.current]);
  }

  /** The word `srun` with white space other than spaces is one token. */
  lemma {:induction false} StepToken(white: string)
    requires AllSpace(white) && ' ' !in white
    ensures Run(SRUN + white) == START && Solid(SRUN + white)
    ensures Scan(SRUN + white) == Progress([], SRUN + white)
  {
    if white == "" {
      assert SRUN[..3] == "sru" && SRUN[..2] == "sr" && SRUN[..1] == "s" && SRUN[..0] == "";
      assert "sru"[..2] == "sr" && "sr"[..1] == "s" && "s"[..0] == "";
      assert Run("s") == START && Run("sr") == START && Run("sru") == START && Run(SRUN) == START;
      assert SRUN + white == SRUN;
    } else {
      var front, c := white[..|white| - 1], white[|white| - 1];
      StepToken(front);
      assert c in white;
      assert SRUN + white == SRUN + front + [c];
      SolidSnoc(SRUN + front, c);
    }
    ScanSolid(SRUN + white);
  }

  /** Rewriting a line invents no line break. */
  lemma RewrittenNoBreaks(line: string, parse: FlagParser)
    requires KeepsLines(parse) && '\n' !in line
    ensures '\n' !in Rewritten(line, parse)
  {
    if IsStep(line) && parse(StepArguments(line)).Some? {
      var i, args, rest := FindCommand(line, SRUN), StepArguments(line), parse(StepArguments(line)).value;
      forall p | p in args ensures '\n' !in p {
        if '\n' in p {
          TokensNonEmpty(line[i..]);
          TokenChars(line[i..], p, '\n');
          assert false;
        }
      }
      assert NoBreaks(rest);
      if '\n' in Join(rest, ' ') {
        JoinChars(rest, ' ', '\n');
        assert false;
      }
    }
  }

  /** The lines of the output are the rewritten logical lines, one for one. */
  lemma OutputLines(script: string, parse: FlagParser)
    requires KeepsLines(parse)
    requires !AllBlank(LogicalLines(script))
    ensures Split(Render(LogicalLines(script), parse), '\n') == RewriteAll(LogicalLines(script), parse)
  {
    var lines := LogicalLines(script);
    var texts := RewriteAll(lines, parse);
    forall p | p in texts ensures '\n' !in p {
      var k :| 0 <= k < |texts| && texts[k] == p;
      LogicalLineFacts(script, k);
      RewrittenNoBreaks(lines[k], parse);
    }
    SplitJoin(texts, '\n');
  }

  /** Of blank lines only, the output has one more than the script. */
  lemma BlankOutputLines(n: nat)
    ensures AllBlank(Split(Newlines(n), '\n')) && |Split(Newlines(n), '\n')| == n + 1
    ensures "" in Split(Newlines(n), '\n')
  {
    var parts := seq(n + 1, _ => "");
    JoinBlanks(parts[..n], "");
    assert parts[..n] + [""] == parts;
    assert Newlines(n) + "" == Newlines(n);
    SplitJoin(parts, '\n');
    assert parts[0] == "";
  }

  /** On no line of an accepted script's output does `FindCommand` find an unsupported command. */
  lemma NoUnsupportedCommand(script: string, nTasks: int, parse: FlagParser, text: string, command: string)
    requires KeepsLines(parse) && Accepts(script, nTasks, parse)
    requires text in Split(Render(LogicalLines(script), parse), '\n')
    requires command in UNSUPPORTED
    ensures FindCommand(text, command) == -1
  {
    var lines := LogicalLines(script);
    if AllBlank(lines) {
      BlankOutputLines(|lines|);
      BlankCallsNothing(command);
    } else {
      OutputLines(script, parse);
      var k :| 0 <= k < |lines| && RewriteAll(lines, parse)[k] == text;
      ClearMeans(lines, nTasks, parse);
      ClearLineCallsNothing(lines, k, nTasks, parse, command);
    }
  }

  lemma ClearLineCallsNothing(lines: seq<string>, k: int, nTasks: int, parse: FlagParser, command: string)
    requires 0 <= k < |lines| && Problem(lines, k, nTasks, parse) == None && command in UNSUPPORTED
    ensures FindCommand(RewriteAll(lines, parse)[k], command) == -1
  {
    if lines[k] == "" {
      BlankCallsNothing(command);
    } else {
      RewrittenCallsNothing(lines[k], parse, command);
    }
  }

  lemma RewrittenCallsNothing(line: string, parse: FlagParser, command: string)
    requires LineProblem(line, parse) == None && command in UNSUPPORTED
    ensures FindCommand(Rewritten(line, parse), command) == -1
  {
    NotCalled(Rewritten(line, parse), UNSUPPORTED, command);
  }

  /** Without a first command called, none is called. */
  lemma {:induction false} NotCalled(line: string, commands: seq<string>, command: string)
    requires FirstCalled(line, commands) == None && command in commands
    ensures FindCommand(line, command) == -1
  {
    if command != commands[0] {
      NotCalled(line, commands[1..], command);
    }
  }

  lemma BlankCallsNothing(command: string)
    requires command in UNSUPPORTED
    ensures FindCommand("", command) == -1
  {
  }

  // ---- whole words ----

  /** `command` stands somewhere on the trimmed line as a word. */
  ghost predicate HasWord(line: string, command: string) {
    exists i :: IsWordAt(TrimSpace(line), command, i)
  }

  /**
   `command` occurs in a longer word before it stands as a word: `FindCommand` looks at the
   first occurrence only.
   */
  ghost predicate Shadowed(line: string, command: string) {
    var s := TrimSpace(line);
    !IsWordAt(s, command, Index(s, command)) && exists i :: Index(s, command) < i && IsWordAt(s, command, i)
  }

  lemma WordsFound(line: string, command: string)
    ensures HasWord(line, command) <==> FindCommand(line, command) >= 0 || Shadowed(line, command)
    ensures FindCommand(line, command) >= 0 ==> !Shadowed(line, command)
  {
    var s := TrimSpace(line);
    if i :| IsWordAt(s, command, i) {
      assert OccursAt(s, command, i) && Index(s, command) <= i;
    }
  }

  /** No line of the output holds an unsupported command as a word. */
  ghost predicate NoUnsupportedWord(script: string, parse: FlagParser) {
    forall text, command :: text in Split(Render(LogicalLines(script), parse), '\n') && command in UNSUPPORTED ==>
      !HasWord(text, command)
  }

  /** The text before the `srun` of a line, and the arguments left over after it. */
  function StepPrefix(line: string): string
    requires IsStep(line) && OccursAt(line, SRUN, FindCommand(line, SRUN))
  {
    line[..FindCommand(line, SRUN)]
  }

  function LeftOver(line: string, parse: FlagParser): string
    requires IsStep(line) && parse(StepArguments(line)).Some?
  {
    Join(parse(StepArguments(line)).value, ' ')
  }

  ghost predicate HoldsWord(s: string, command: string) {
    exists i :: IsWordAt(s, command, i)
  }

  /** The prefix of an `srun` line or its left-over arguments hold the word. */
  ghost predicate StepHoldsWord(prefix: string, left: string, command: string) {
    if prefix == "" then HasWord(left, command)
    else if TrimRight(left) == "" then HasWord(prefix, command)
    else HoldsWord(prefix, command) || HoldsWord(TrimRight(left), command)
  }

  /** A line of the script from which an unsupported command gets into the output as a word. */
  ghost predicate LetsThrough(line: string, parse: FlagParser, command: string) {
    if IsStep(line) && parse(StepArguments(line)).Some? && OccursAt(line, SRUN, FindCommand(line, SRUN))
    then StepHoldsWord(StepPrefix(line), LeftOver(line, parse), command)
    else Shadowed(line, command)
  }

  /** No line hides an unsupported command, in its text or around its `srun`. */
  ghost predicate NoneLetThrough(script: string, parse: FlagParser) {
    forall k, command :: 0 <= k < |LogicalLines(script)| && command in UNSUPPORTED ==>
      !LetsThrough(LogicalLines(script)[k], parse, command)
  }

  /** Words of a text that is cut after a space. */
  lemma WordsOfConcat(prefix: string, left: string, command: string)
    requires prefix != "" && prefix[|prefix| - 1] == ' '
    requires command != "" && ' ' !in command
    ensures HoldsWord(prefix + left, command) <==> HoldsWord(prefix, command) || HoldsWord(left, command)
  {
    if i :| IsWordAt(prefix + left, command, i) {
      WordOfConcat(prefix, left, command, i);
    }
    if i :| IsWordAt(prefix, command, i) {
      WordOfConcat(prefix, left, command, i);
    }
    if i :| IsWordAt(left, command, i) {
      WordOfConcat(prefix, left, command, |prefix| + i);
    }
  }

  lemma WordOfConcat(prefix: string, left: string, command: string, i: int)
    requires prefix != "" && prefix[|prefix| - 1] == ' '
    requires command != "" && ' ' !in command
    ensures IsWordAt(prefix + left, command, i) <==>
            IsWordAt(prefix, command, i) || IsWordAt(left, command, i - |prefix|)
  {
    var s, n := prefix + left, |prefix|;
    OccursInConcat(prefix, left, command, i);
    if OccursAt(s, command, i) {
      NoSpaceWithin(s, command, i, n - 1);
    }
    if OccursAt(prefix, command, i) {
      NoSpaceWithin(prefix, command, i, n - 1);
    }
  }

  lemma OccursInConcat(prefix: string, left: string, command: string, i: int)
    ensures OccursAt(prefix, command, i) ==> OccursAt(prefix + left, command, i)
    ensures OccursAt(prefix + left, command, i) && i + |command| <= |prefix| ==> OccursAt(prefix, command, i)
    ensures i >= |prefix| ==> (OccursAt(prefix + left, command, i) <==> OccursAt(left, command, i - |prefix|))
  {
    var s, n, m := prefix + left, |prefix|, |command|;
    if 0 <= i && i + m <= n {
      assert s[i..i + m] == prefix[i..i + m];
    }
    if n <= i && i + m <= |s| {
      assert s[i..i + m] == left[i - n..i - n + m];
    }
  }

  /** A text without spaces does not occur across a space. */
  lemma NoSpaceWithin(s: string, command: string, i: int, space: int)
    requires OccursAt(s, command, i) && 0 <= space < |s| && s[space] == ' ' && ' ' !in command
    ensures space < i || i + |command| <= space
  {
    forall k | i <= k < i + |command| ensures s[k] != ' ' {
      assert s[k] == command[k - i];
    }
  }

  lemma StepWords(prefix: string, left: string, command: string)
    requires prefix != "" ==> !IsSpace(prefix[0]) && prefix[|prefix| - 1] == ' '
    requires command != "" && ' ' !in command
    ensures HasWord(prefix + left, command) <==> StepHoldsWord(prefix, left, command)
  {
    if prefix == "" {
      assert prefix + left == left;
    } else {
      assert TrimSpace(prefix + left) == TrimRight(prefix + left) && TrimSpace(prefix) == TrimRight(prefix);
      TrimRightConcat(prefix, left);
      WordsOfConcat(prefix, TrimRight(left), command);
    }
  }

  lemma CommandIsWord(command: string)
    requires command in UNSUPPORTED
    ensures command != "" && ' ' !in command
  {
  }

  /** On a line without a problem the words that get into the output are those it lets through. */
  lemma RewrittenWords(line: string, parse: FlagParser, command: string)
    requires line == "" || !IsSpace(line[0])
    requires LineProblem(line, parse) == None && command in UNSUPPORTED
    ensures HasWord(Rewritten(line, parse), command) <==> LetsThrough(line, parse, command)
  {
    if IsStep(line) && parse(StepArguments(line)).Some? {
      FindCommandUntrimmed(line, SRUN);
      CommandIsWord(command);
      StepWords(StepPrefix(line), LeftOver(line, parse), command);
    } else {
      RewrittenCallsNothing(line, parse, command);
      WordsFound(line, command);
    }
  }

  /**
   The output of an accepted script is free of unsupported commands as words if and only if
   no line lets one through: on a line without `srun`, hidden behind a longer word that
   contains it; on a line with `srun`, in the prefix or in the arguments left over.
   */
  lemma WordsAreRefused(script: string, nTasks: int, parse: FlagParser)
    requires KeepsLines(parse) && Accepts(script, nTasks, parse)
    ensures NoUnsupportedWord(script, parse) <==> NoneLetThrough(script, parse)
  {
    var lines := LogicalLines(script);
    BlankHidesNothing(parse);
    OutputTexts(script, parse);
    ClearMeans(lines, nTasks, parse);
    forall k, command | 0 <= k < |lines| && command in UNSUPPORTED
      ensures HasWord(Rewritten(lines[k], parse), command) <==> LetsThrough(lines[k], parse, command)
    {
      LogicalLineFacts(script, k);
      ClearLineWords(lines, k, nTasks, parse, command);
    }
  }

  lemma ClearLineWords(lines: seq<string>, k: int, nTasks: int, parse: FlagParser, command: string)
    requires 0 <= k < |lines| && Problem(lines, k, nTasks, parse) == None && command in UNSUPPORTED
    requires lines[k] == "" || !IsSpace(lines[k][0])
    ensures HasWord(Rewritten(lines[k], parse), command) <==> LetsThrough(lines[k], parse, command)
  {
    if lines[k] == "" {
      BlankHidesNothing(parse);
    } else {
      RewrittenWords(lines[k], parse, command);
    }
  }

  /** The output lines are the rewritten logical lines, and perhaps one more blank line. */
  lemma OutputTexts(script: string, parse: FlagParser)
    requires KeepsLines(parse)
    ensures var lines, output := LogicalLines(script), Split(Render(LogicalLines(script), parse), '\n');
      && (forall k :: 0 <= k < |lines| ==> Rewritten(lines[k], parse) in output)
      && (forall text :: text in output ==> text == "" || exists k :: 0 <= k < |lines| && text == Rewritten(lines[k], parse))
  {
    var lines := LogicalLines(script);
    RewrittenTexts(lines, parse);
    if AllBlank(lines) {
      BlankOutputLines(|lines|);
    } else {
      OutputLines(script, parse);
    }
  }

  lemma RewrittenTexts(lines: seq<string>, parse: FlagParser)
    ensures forall k :: 0 <= k < |lines| ==> RewriteAll(lines, parse)[k] == Rewritten(lines[k], parse)
    ensures forall k :: 0 <= k < |lines| && lines[k] == "" ==> Rewritten(lines[k], parse) == ""
    ensures forall k :: 0 <= k < |lines| ==> Rewritten(lines[k], parse) in RewriteAll(lines, parse)
  {
    BlankIsNoStep();
    forall k | 0 <= k < |lines| ensures RewriteAll(lines, parse)[k] == Rewritten(lines[k], parse) {
    }
  }

  lemma BlankHidesNothing(parse: FlagParser)
    ensures Rewritten("", parse) == ""
    ensures forall command :: command in UNSUPPORTED ==> !LetsThrough("", parse, command) && !HasWord("", command)
  {
    BlankIsNoStep();
    forall command | command in UNSUPPORTED ensures !HasWord("", command) && !Shadowed("", command) {
      assert |command| > 0;
    }
  }

  /**
   Of the occurrences of `srun` on a line exactly the first goes: after rewriting it occurs
   where it occurs in the arguments left over.
   */
  lemma LaterSteps(line: string, parse: FlagParser, p: int)
    requires line == "" || !IsSpace(line[0])
    requires IsStep(line) && parse(StepArguments(line)).Some?
    ensures OccursAt(line, SRUN, FindCommand(line, SRUN))
    ensures OccursAt(Rewritten(line, parse), SRUN, p) <==>
            p >= FindCommand(line, SRUN) && OccursAt(LeftOver(line, parse), SRUN, p - FindCommand(line, SRUN))
  {
    FindCommandUntrimmed(line, SRUN);
    NoneBefore(line);
    OccursAfter(StepPrefix(line), LeftOver(line, parse), SRUN, p);
  }

  lemma NoneBefore(line: string)
    requires line == "" || !IsSpace(line[0])
    requires IsStep(line) && OccursAt(line, SRUN, FindCommand(line, SRUN))
    ensures forall j :: !OccursAt(StepPrefix(line), SRUN, j)
  {
    var s, i := TrimSpace(line), FindCommand(line, SRUN);
    assert s <= line;
    forall j ensures !OccursAt(StepPrefix(line), SRUN, j) {
      if OccursAt(StepPrefix(line), SRUN, j) {
        assert s[j..j + |SRUN|] == StepPrefix(line)[j..j + |SRUN|];
        assert OccursAt(s, SRUN, j);
      }
    }
  }

  lemma OccursAfter(prefix: string, left: string, command: string, p: int)
    requires prefix != "" ==> prefix[|prefix| - 1] == ' '
    requires ' ' !in command && forall j :: !OccursAt(prefix, command, j)
    ensures OccursAt(prefix + left, command, p) <==> p >= |prefix| && OccursAt(left, command, p - |prefix|)
  {
    var s, n := prefix + left, |prefix|;
    if OccursAt(s, command, p) && p < n {
      NoSpaceWithin(s, command, p, n - 1);
      assert prefix[p..p + |command|] == s[p..p + |command|];
      assert OccursAt(prefix, command, p);
    }
    if p >= n && (OccursAt(s, command, p) || OccursAt(left, command, p - n)) {
      assert left[p - n..p - n + |command|] == s[p..p + |command|];
    }
  }

  // ---- one step ----

  /** With several tasks only blank lines follow a line on which `FindCommand` finds `srun`. */
  lemma SingleStep(script: string, nTasks: int, parse: FlagParser, j: int, k: int)
    requires Accepts(script, nTasks, parse) && nTasks > 1
    requires 0 <= j < k < |LogicalLines(script)| && IsStep(LogicalLines(script)[j])
    ensures LogicalLines(script)[k] == ""
  {
    var lines := LogicalLines(script);
    ClearMeans(lines, nTasks, parse);
    HasStepMeans(lines[..k]);
    assert lines[..k][j] == lines[j];
    assert Problem(lines, k, nTasks, parse) == None;
  }

  /** Some line after line `j` is not blank. */
  ghost predicate GoesOn(lines: seq<string>, j: int) {
    exists k :: 0 <= j < k < |lines| && lines[k] != ""
  }

  /** No script with the word `srun` on a line goes on after it, exactly when none hides the word and goes on. */
  lemma SingleStepWord(script: string, nTasks: int, parse: FlagParser)
    requires Accepts(script, nTasks, parse) && nTasks > 1
    ensures var lines := LogicalLines(script);
      (forall j :: 0 <= j < |lines| && HasWord(lines[j], SRUN) ==> !GoesOn(lines, j))
      <==> (forall j :: 0 <= j < |lines| && Shadowed(lines[j], SRUN) ==> !GoesOn(lines, j))
  {
    var lines := LogicalLines(script);
    forall j | 0 <= j < |lines| ensures HasWord(lines[j], SRUN) && GoesOn(lines, j) ==> Shadowed(lines[j], SRUN) {
      WordsFound(lines[j], SRUN);
      if GoesOn(lines, j) && IsStep(lines[j]) {
        var k :| 0 <= j < k < |lines| && lines[k] != "";
        SingleStep(script, nTasks, parse, j, k);
      }
    }
    forall j | 0 <= j < |lines| && Shadowed(lines[j], SRUN) ensures HasWord(lines[j], SRUN) {
      WordsFound(lines[j], SRUN);
    }
  }

  // ---- continuations ----

  /** Scripts can be rewritten piece by piece, cut wherever no continuation is open. */
  lemma LogicalLinesConcat(first: string, second: string)
    requires FoldLines(Split(first, '\n')).open == []
    ensures LogicalLines(first + "\n" + second) == LogicalLines(first) + LogicalLines(second)
  {
    SplitConcat(first, second, '\n');
    FoldConcat(Split(first, '\n'), Split(second, '\n'));
  }

  /** The output of two lists of logical lines, one after the other. */
  lemma RenderConcat(a: seq<string>, b: seq<string>, parse: FlagParser)
    ensures Render(a + b, parse) ==
            if AllBlank(a) || AllBlank(b) then Render(a, parse) + Render(b, parse)
            else Render(a, parse) + "\n" + Render(b, parse)
  {
    AllBlankConcat(a, b);
    RewriteConcat(a, b, parse);
    var x, y := RewriteAll(a, parse), RewriteAll(b, parse);
    if AllBlank(a) && AllBlank(b) {
      assert Newlines(|a| + |b|) == Newlines(|a|) + Newlines(|b|);
    } else if AllBlank(a) {
      BlanksStay(a, parse);
      BlanksBefore(x, y);
    } else if AllBlank(b) {
      BlanksStay(b, parse);
      BlanksAfter(x, y);
    } else {
      JoinConcat(x, y, '\n');
    }
  }

  lemma RewriteConcat(a: seq<string>, b: seq<string>, parse: FlagParser)
    ensures RewriteAll(a + b, parse) == RewriteAll(a, parse) + RewriteAll(b, parse)
  {
  }

  lemma BlanksStay(lines: seq<string>, parse: FlagParser)
    requires AllBlank(lines)
    ensures AllBlank(RewriteAll(lines, parse))
  {
  }

  lemma AllBlankConcat(a: seq<string>, b: seq<string>)
    ensures AllBlank(a + b) <==> AllBlank(a) && AllBlank(b)
  {
    assert forall k :: 0 <= k < |a| ==> (a + b)[k] == a[k];
    assert forall k :: 0 <= k < |b| ==> (a + b)[|a| + k] == b[k];
  }

  lemma {:induction false} BlanksBefore(blanks: seq<string>, parts: seq<string>)
    requires AllBlank(blanks) && parts != []
    ensures Join(blanks + parts, '\n') == Newlines(|blanks|) + Join(parts, '\n')
  {
    if blanks == [] {
      assert blanks + parts == parts && Newlines(0) + Join(parts, '\n') == Join(parts, '\n');
    } else {
      BlanksBefore(blanks[1..], parts);
      assert (blanks + parts)[1..] == blanks[1..] + parts;
      NewlineBefore(|blanks|, Join(parts, '\n'));
    }
  }

  lemma NewlineBefore(n: nat, text: string)
    requires n > 0
    ensures "" + ['\n'] + (Newlines(n - 1) + text) == Newlines(n) + text
  {
  }

  lemma {:induction false} BlanksAfter(parts: seq<string>, blanks: seq<string>)
    requires AllBlank(blanks) && parts != []
    ensures Join(parts + blanks, '\n') == Join(parts, '\n') + Newlines(|blanks|)
  {
    if blanks == [] {
      assert parts + blanks == parts && Join(parts, '\n') + Newlines(0) == Join(parts, '\n');
    } else {
      var front, n := blanks[..|blanks| - 1], |blanks|;
      BlanksAfter(parts, front);
      assert parts + blanks == parts + front + [""];
      JoinSnoc(parts + front, "", '\n');
      assert Join(parts, '\n') + Newlines(n - 1) + ['\n'] + "" == Join(parts, '\n') + Newlines(n);
    }
  }

  /** Whether an `srun` line of `a` and a line of `b` make too many steps for several tasks. */
  ghost predicate StepsOverlap(a: seq<string>, b: seq<string>, nTasks: int) {
    nTasks > 1 && HasStep(a) && !AllBlank(b)
  }

  lemma ClearConcat(a: seq<string>, b: seq<string>, nTasks: int, parse: FlagParser)
    ensures Clear(a + b, nTasks, parse) <==>
            Clear(a, nTasks, parse) && Clear(b, nTasks, parse) && !StepsOverlap(a, b, nTasks)
  {
    ClearMeans(a, nTasks, parse);
    ClearMeans(b, nTasks, parse);
    ClearMeans(a + b, nTasks, parse);
    forall k | 0 <= k < |a| ensures Problem(a + b, k, nTasks, parse) == Problem(a, k, nTasks, parse) {
      assert (a + b)[..k] == a[..k];
    }
    forall k | 0 <= k < |b|
      ensures Problem(a + b, |a| + k, nTasks, parse) == None <==>
              Problem(b, k, nTasks, parse) == None && (b[k] != "" ==> !(nTasks > 1 && HasStep(a)))
    {
      LaterProblem(a, b, k, nTasks, parse);
    }
    forall k | |a| <= k < |a + b| ensures Problem(a + b, k, nTasks, parse) == Problem(a + b, |a| + (k - |a|), nTasks, parse) {
    }
  }

  lemma LaterProblem(a: seq<string>, b: seq<string>, k: nat, nTasks: int, parse: FlagParser)
    requires k < |b|
    ensures Problem(a + b, |a| + k, nTasks, parse) ==
            if b[k] != "" && nTasks > 1 && HasStep(a) then Some(MultipleSteps) else Problem(b, k, nTasks, parse)
  {
    assert (a + b)[..|a| + k] == a + b[..k];
    HasStepConcat(a, b[..k]);
  }

  lemma HasStepConcat(a: seq<string>, b: seq<string>)
    ensures HasStep(a + b) <==> HasStep(a) || HasStep(b)
  {
    HasStepMeans(a);
    HasStepMeans(b);
    HasStepMeans(a + b);
    assert forall k :: 0 <= k < |a| ==> (a + b)[k] == a[k];
    assert forall k :: 0 <= k < |b| ==> (a + b)[|a| + k] == b[k];
  }

  /**
   Cut where no continuation is open, a script is accepted if and only if both pieces are and
   do not have too many steps together; its output is the outputs of the pieces.
   */
  lemma ScriptConcat(first: string, second: string, nTasks: int, parse: FlagParser)
    requires !LeavesOpen(Split(first, '\n'))
    ensures var a, b := LogicalLines(first), LogicalLines(second);
      && (Accepts(first + "\n" + second, nTasks, parse) <==>
            Accepts(first, nTasks, parse) && Accepts(second, nTasks, parse) && !StepsOverlap(a, b, nTasks))
      && Render(LogicalLines(first + "\n" + second), parse) ==
         if AllBlank(a) || AllBlank(b) then Render(a, parse) + Render(b, parse)
         else Render(a, parse) + "\n" + Render(b, parse)
  {
    OpenMeans(Split(first, '\n'));
    LogicalLinesConcat(first, second);
    ClearConcat(LogicalLines(first), LogicalLines(second), nTasks, parse);
    RenderConcat(LogicalLines(first), LogicalLines(second), parse);
  }

  /** The last trimmed lines are one that ends in a continuation, and lone backslashes after it. */
  ghost predicate LeavesOpen(lines: seq<string>) {
    exists k :: 0 <= k < |lines| && OpenFrom(lines, k)
  }

  predicate OpenFrom(lines: seq<string>, k: int)
    requires 0 <= k < |lines|
  {
    EndsInContinuation(TrimSpace(lines[k])) && forall j | k < j < |lines| :: TrimSpace(lines[j]) == ['\\']
  }

  lemma {:induction false} OpenMeans(lines: seq<string>)
    ensures FoldLines(lines).open != [] <==> LeavesOpen(lines)
  {
    if lines != [] {
      var front, last := lines[..|lines| - 1], lines[|lines| - 1];
      OpenMeans(front);
      assert lines == front + [last];
      LeavesOpenNext(front, last, TrimSpace(last));
    }
  }

  lemma LeavesOpenNext(front: seq<string>, last: string, piece: string)
    requires piece == TrimSpace(last)
    ensures LeavesOpen(front + [last]) <==> EndsInContinuation(piece) || (LeavesOpen(front) && piece == ['\\'])
  {
    var lines, n := front + [last], |front|;
    if EndsInContinuation(piece) {
      assert OpenFrom(lines, n);
    }
    forall k | 0 <= k < n ensures OpenFrom(lines, k) <==> OpenFrom(front, k) && piece == ['\\'] {
      assert lines[n] == last && forall j :: k <= j < n ==> lines[j] == front[j];
    }
  }

  /**
   A final line break adds an empty logical line exactly when no continuation is open at the
   end; otherwise it adds the text of the continuation, which is not in the output without it.
   */
  lemma OpenContinuation(script: string)
    ensures LogicalLines(script + "\n") == LogicalLines(script) + [""] <==> !LeavesOpen(Split(script, '\n'))
    ensures LeavesOpen(Split(script, '\n')) ==>
              LogicalLines(script + "\n") ==
              LogicalLines(script) + [Join(FoldLines(Split(script, '\n')).open, ' ') + " "]
  {
    var lines := Split(script, '\n');
    var f := FoldLines(lines);
    OpenMeans(lines);
    assert script + "\n" + "" == script + "\n";
    SplitConcat(script, "", '\n');
    FoldSnoc(lines, "");
    JoinSnoc(f.open, "", ' ');
    assert f.open != [] ==> Join(f.open, ' ') + [' '] + "" == Join(f.open, ' ') + " ";
    assert (f.done + [Join(f.open + [""], ' ')])[|f.done|] == Join(f.open + [""], ' ');
  }

  // ---- scripts that need no rewriting ----

  /** Trimmed lines, no continuation, no `srun`. */
  ghost predicate Tidy(script: string) {
    forall k :: 0 <= k < |Split(script, '\n')| ==>
      TidyLine(Split(script, '\n')[k])
  }

  predicate PlainLine(line: string) {
    TrimSpace(line) == line && !EndsInContinuation(line)
  }

  predicate TidyLine(line: string) {
    PlainLine(line) && !IsStep(line)
  }

  lemma {:induction false} TidyFold(lines: seq<string>)
    requires forall k :: 0 <= k < |lines| ==> PlainLine(lines[k])
    ensures FoldLines(lines) == Folded(lines, [])
  {
    if lines != [] {
      var front, last := lines[..|lines| - 1], lines[|lines| - 1];
      TidyFold(front);
      TidyPiece(front, last);
      assert front + [last] == lines;
    }
  }

  lemma TidyPiece(done: seq<string>, line: string)
    requires !EndsInContinuation(line)
    ensures FoldPiece(Folded(done, []), line) == Folded(done + [line], [])
  {
    assert [] + [line] == [line];
  }

  /** A tidy script is returned unchanged, except that a blank one gains a line break. */
  lemma TidyUnchanged(script: string, parse: FlagParser)
    requires Tidy(script)
    ensures Render(LogicalLines(script), parse) ==
            if AllBlank(Split(script, '\n')) then script + "\n" else script
  {
    var lines := Split(script, '\n');
    forall k | 0 <= k < |lines| ensures PlainLine(lines[k]) {
      assert TidyLine(lines[k]);
    }
    TidyFold(lines);
    if AllBlank(lines) {
      BlankScript(lines);
    } else {
      TidyTexts(lines, parse);
    }
  }

  lemma BlankScript(lines: seq<string>)
    requires lines != [] && AllBlank(lines)
    ensures Newlines(|lines|) == Join(lines, '\n') + "\n"
  {
    var front := lines[..|lines| - 1];
    assert lines == front + [""];
    JoinBlanks(front, "");
    assert Newlines(|lines|) == Newlines(|front|) + "" + "\n";
  }

  lemma TidyTexts(lines: seq<string>, parse: FlagParser)
    requires forall k :: 0 <= k < |lines| ==> TidyLine(lines[k])
    ensures RewriteAll(lines, parse) == lines
  {
    forall k | 0 <= k < |lines| ensures RewriteAll(lines, parse)[k] == lines[k] {
      assert TidyLine(lines[k]);
    }
  }
}

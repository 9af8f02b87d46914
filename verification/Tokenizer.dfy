/**
 The shell tokenizer of the script rewriter: spaces split a command line, except
 inside single or double quotes. A quote preceded by an odd number of backslashes
 does not count as a quote.
 */
module Tokenizer {
  import opened Text

  // ---- the escape test ----

  /** Length of the longest run of backslashes that `s` ends in. */
  function BackslashRun(s: string): (n: nat)
    ensures n <= |s|
    ensures forall i :: |s| - n <= i < |s| ==> s[i] == '\\'
    ensures n < |s| ==> s[|s| - n - 1] != '\\'
  {
    if s != "" && s[|s| - 1] == '\\' then BackslashRun(s[..|s| - 1]) + 1 else 0
  }

  /** Whether the character that follows the prefix `s[..i]` is escaped. */
  predicate Escaped(s: string, i: int)
    requires 0 <= i <= |s|
  {
    BackslashRun(s[..i]) % 2 == 1
  }

  method IsEscaped(str: string, index: int) returns (escaped: bool)
    requires 0 <= index <= |str|
    ensures escaped == Escaped(str, index)
  {
    var count, i := 0, index;
    while i > 0 && str[i - 1] == '\\'
      invariant 0 <= i <= index
      invariant count + BackslashRun(str[..i]) == BackslashRun(str[..index])
    {
      assert str[..i][..i - 1] == str[..i - 1];
      count, i := count + 1, i - 1;
    }
    escaped := count % 2 != 0;
  }

  // ---- a one-pass automaton: one escape bit and a three-valued quote state ----

  datatype Quote = Outside | InSingle | InDouble

  datatype Lexer = Lexer(quote: Quote, escape: bool)

  const START := Lexer(Outside, false)

  function Next(st: Lexer, c: char): Lexer {
    var quote :=
      if c == '"' && !st.escape && st.quote != InSingle then
        if st.quote == InDouble then Outside else InDouble
      else if c == '\'' && !st.escape && st.quote != InDouble then
        if st.quote == InSingle then Outside else InSingle
      else st.quote;
    Lexer(quote, c == '\\' && !st.escape)
  }

  function Run(s: string): Lexer {
    if s == "" then START else Next(Run(s[..|s| - 1]), s[|s| - 1])
  }

  /** `c` is a space that separates two parts when it is read in state `st`. */
  predicate Splits(st: Lexer, c: char) {
    c == ' ' && st.quote == Outside
  }

  /** The parts completed so far and the one being read. */
  datatype Progress = Progress(parts: seq<string>, current: string)

  function Scan(s: string): Progress {
    if s == "" then Progress([], "")
    else
      var front, c := s[..|s| - 1], s[|s| - 1];
      var p := Scan(front);
      if Splits(Run(front), c) then Progress(p.parts + [p.current], "")
      else Progress(p.parts, p.current + [c])
  }

  /** The parts the automaton reads; nothing is emitted for the text after a final separator. */
  function Tokens(s: string): seq<string> {
    Emitted(Scan(s))
  }

  function Emitted(p: Progress): seq<string> {
    if p.current == "" then p.parts else p.parts + [p.current]
  }

  predicate EndsInSeparator(s: string) {
    s != "" && Splits(Run(s[..|s| - 1]), s[|s| - 1])
  }

  /** The backward backslash scan computes the automaton's escape bit. */
  lemma {:induction false} EscapeBit(s: string)
    ensures Run(s).escape <==> BackslashRun(s) % 2 == 1
  {
    if s != "" {
      EscapeBit(s[..|s| - 1]);
    }
  }

  /** The rescanning splitter with its two quote bits refines the one-pass automaton. */
  method SplitBySpaceWithIgnoreInQuotes(str: string) returns (parts: seq<string>)
    ensures parts == Tokens(str)
  {
    parts := [];
    var current := "";
    var inSingleQuotes, inDoubleQuotes := false, false;
    for i := 0 to |str|
      invariant !(inSingleQuotes && inDoubleQuotes)
      invariant Run(str[..i]).quote ==
                if inSingleQuotes then InSingle else if inDoubleQuotes then InDouble else Outside
      invariant i < |str| || str == "" ==> Progress(parts, current) == Scan(str[..i])
      invariant i == |str| ==> parts == Tokens(str)
    {
      var c := str[i];
      assert str[..i + 1][..i] == str[..i];
      EscapeBit(str[..i]);
      if !inSingleQuotes && c == '"' {
        var escaped := IsEscaped(str, i);
        if !escaped {
          inDoubleQuotes := !inDoubleQuotes;
        }
      }
      if !inDoubleQuotes && c == '\'' {
        var escaped := IsEscaped(str, i);
        if !escaped {
          inSingleQuotes := !inSingleQuotes;
        }
      }
      assert i + 1 == |str| ==> str[..i + 1] == str;
      if c != ' ' || inSingleQuotes || inDoubleQuotes {
        current := current + [c];
        if i < |str| - 1 {
          continue;
        }
      }
      parts := parts + [current];
      current := "";
    }
  }

  // ---- the splitter is lossless, and its result is the only possible one ----

  /** No separator inside: every space of `p` is quoted. */
  predicate Solid(p: string) {
    p != "" ==> Solid(p[..|p| - 1]) && !Splits(Run(p[..|p| - 1]), p[|p| - 1])
  }

  lemma SolidMeans(p: string)
    ensures Solid(p) <==> forall i :: 0 <= i < |p| ==> !Splits(Run(p[..i]), p[i])
  {
    if Solid(p) {
      forall i | 0 <= i < |p| ensures !Splits(Run(p[..i]), p[i]) {
        SolidAt(p, i);
      }
    } else {
      var i := FirstSplit(p);
    }
  }

  lemma {:induction false} SolidAt(p: string, i: int)
    requires Solid(p) && 0 <= i < |p|
    ensures !Splits(Run(p[..i]), p[i])
    decreases |p|
  {
    if i < |p| - 1 {
      SolidAt(p[..|p| - 1], i);
      assert p[..|p| - 1][..i] == p[..i];
    }
  }

  lemma {:induction false} FirstSplit(p: string) returns (i: int)
    requires !Solid(p)
    ensures 0 <= i < |p| && Splits(Run(p[..i]), p[i])
    decreases |p|
  {
    i := |p| - 1;
    if !Solid(p[..i]) {
      i := FirstSplit(p[..|p| - 1]);
      assert p[..|p| - 1][..i] == p[..i];
    }
  }

  /** Every quote that `p` opens is closed again. */
  ghost predicate Closed(p: string) {
    Run(p).quote == Outside
  }

  /** The text made of `parts`, one space between them and, if `trailing`, one after the last. */
  function Untokenize(parts: seq<string>, trailing: bool): string {
    Join(parts, ' ') + if trailing then " " else ""
  }

  /** `parts` is a way to cut a text at its separators. */
  ghost predicate WellCut(parts: seq<string>, trailing: bool) {
    && (forall i :: 0 <= i < |parts| ==> Solid(parts[i]))
    && (forall i :: 0 <= i < |parts| - (if trailing then 0 else 1) ==> Closed(parts[i]))
    && (if trailing then parts != [] else parts != [] ==> parts[|parts| - 1] != "")
  }

  lemma {:induction false} RunAfterSeparator(a: string, b: string)
    requires Closed(a)
    ensures Run(a + " " + b) == Run(b)
  {
    var s := a + " " + b;
    if b == "" {
      assert s[..|s| - 1] == a;
    } else {
      var front := b[..|b| - 1];
      RunAfterSeparator(a, front);
      assert s[..|s| - 1] == a + " " + front;
    }
  }

  lemma {:induction false} ScanAfterSeparator(a: string, b: string)
    requires Closed(a)
    ensures Scan(a + " " + b) ==
            Progress(Scan(a).parts + [Scan(a).current] + Scan(b).parts, Scan(b).current)
  {
    var s := a + " " + b;
    if b == "" {
      assert s[..|s| - 1] == a;
      assert Scan(s).parts == Scan(a).parts + [Scan(a).current] + [];
    } else {
      var front := b[..|b| - 1];
      ScanAfterSeparator(a, front);
      RunAfterSeparator(a, front);
      assert s[..|s| - 1] == a + " " + front;
      assert s[|s| - 1] == b[|b| - 1];
      if Splits(Run(front), b[|b| - 1]) {
        assert Scan(a).parts + [Scan(a).current] + Scan(front).parts + [Scan(front).current]
            == Scan(a).parts + [Scan(a).current] + (Scan(front).parts + [Scan(front).current]);
      }
    }
  }

  lemma {:induction false} ScanSolid(p: string)
    requires Solid(p)
    ensures Scan(p) == Progress([], p)
  {
    if p != "" {
      var front := p[..|p| - 1];
      ScanSolid(front);
      assert front + [p[|p| - 1]] == p;
    }
  }

  /** What `Scan` has read is the text itself. */
  lemma {:induction false} ScanJoins(s: string)
    ensures s == Join(Scan(s).parts + [Scan(s).current], ' ')
  {
    var p := Scan(s);
    if s == "" {
      assert p.parts + [p.current] == [""];
    } else {
      var front, c := s[..|s| - 1], s[|s| - 1];
      assert s == front + [c];
      ScanJoins(front);
      var q := Scan(front);
      JoinSnoc(p.parts, p.current, ' ');
      if !Splits(Run(front), c) {
        JoinSnoc(q.parts, q.current, ' ');
      }
    }
  }

  ghost predicate SolidAndClosed(parts: seq<string>) {
    forall p :: p in parts ==> Solid(p) && Closed(p)
  }

  /** What `Scan` has read is cut at the separators. */
  lemma {:induction false} ScanCuts(s: string)
    ensures SolidAndClosed(Scan(s).parts)
    ensures Solid(Scan(s).current) && Run(Scan(s).current) == Run(s)
  {
    if s != "" {
      var front, c := s[..|s| - 1], s[|s| - 1];
      ScanCuts(front);
      var q := Scan(front);
      if !Splits(Run(front), c) {
        SolidSnoc(q.current, c);
      }
    }
  }

  lemma SolidSnoc(p: string, c: char)
    requires Solid(p) && !Splits(Run(p), c)
    ensures Solid(p + [c]) && Run(p + [c]) == Next(Run(p), c)
  {
    var s := p + [c];
    assert s[..|p|] == p;
  }

  lemma CurrentEmpty(s: string)
    ensures EndsInSeparator(s) <==> s != "" && Scan(s).current == ""
  {
  }

  /** Lossless: the parts, glued with single spaces, are the text. */
  lemma TokensLossless(s: string)
    ensures Untokenize(Tokens(s), EndsInSeparator(s)) == s
    ensures WellCut(Tokens(s), EndsInSeparator(s))
  {
    ScanJoins(s);
    ScanCuts(s);
    CurrentEmpty(s);
    var p := Scan(s);
    JoinSnoc(p.parts, p.current, ' ');
    ProgressWellCut(p, EndsInSeparator(s));
    assert p.current == "" && p.parts != [] ==> Join(p.parts, ' ') + [' '] + "" == Join(p.parts, ' ') + " ";
    assert Tokens(s) == if p.current == "" then p.parts else p.parts + [p.current];
  }

  lemma ProgressWellCut(p: Progress, trailing: bool)
    requires SolidAndClosed(p.parts) && Solid(p.current)
    requires trailing ==> p.current == "" && p.parts != []
    requires !trailing && p.current == "" ==> p.parts == []
    ensures WellCut(if p.current == "" then p.parts else p.parts + [p.current], trailing)
  {
  }

  /** Unique: no other cut gives the same text. */
  lemma TokensUnique(parts: seq<string>, trailing: bool)
    requires WellCut(parts, trailing)
    ensures Tokens(Untokenize(parts, trailing)) == parts
    ensures EndsInSeparator(Untokenize(parts, trailing)) == trailing
  {
    var s := Untokenize(parts, trailing);
    CutIsScan(parts, trailing);
    EmittedCut(parts, trailing);
    CurrentEmpty(s);
  }

  /** What `Scan` reads of a well-cut text. */
  function CutProgress(parts: seq<string>, trailing: bool): Progress {
    if trailing || parts == [] then Progress(parts, "")
    else Progress(parts[..|parts| - 1], parts[|parts| - 1])
  }

  lemma EmittedCut(parts: seq<string>, trailing: bool)
    requires WellCut(parts, trailing)
    ensures Emitted(CutProgress(parts, trailing)) == parts
    ensures trailing || parts == [] <==> CutProgress(parts, trailing).current == ""
    ensures parts == [] && !trailing ==> Untokenize(parts, trailing) == ""
  {
    if parts != [] {
      assert parts[..|parts| - 1] + [parts[|parts| - 1]] == parts;
    }
  }

  lemma {:induction false} CutIsScan(parts: seq<string>, trailing: bool)
    requires WellCut(parts, trailing)
    ensures Scan(Untokenize(parts, trailing)) == CutProgress(parts, trailing)
    decreases |parts|
  {
    if parts != [] {
      var first, rest := parts[0], parts[1..];
      assert Solid(parts[0]);
      ScanSolid(first);
      if rest == [] {
        CutOne(first, trailing);
        assert parts == [first];
      } else {
        WellCutTail(parts, trailing);
        CutIsScan(rest, trailing);
        ScanAfterSeparator(first, Untokenize(rest, trailing));
        CutStep(parts, trailing);
      }
    }
  }

  lemma WellCutTail(parts: seq<string>, trailing: bool)
    requires WellCut(parts, trailing) && |parts| > 1
    ensures Closed(parts[0]) && WellCut(parts[1..], trailing)
  {
    var rest := parts[1..];
    assert forall i :: 0 <= i < |rest| ==> rest[i] == parts[i + 1];
    assert Closed(parts[0]);
  }

  lemma CutOne(part: string, trailing: bool)
    requires Solid(part) && (trailing ==> Closed(part))
    ensures Scan(Untokenize([part], trailing)) == CutProgress([part], trailing)
  {
    ScanSolid(part);
    if trailing {
      ScanAfterSeparator(part, "");
      assert part + " " + "" == Untokenize([part], trailing);
      assert [] + [part] + [] == [part];
    } else {
      assert Untokenize([part], trailing) == part;
    }
  }

  lemma CutStep(parts: seq<string>, trailing: bool)
    requires |parts| > 1
    ensures Untokenize(parts, trailing) == parts[0] + " " + Untokenize(parts[1..], trailing)
    ensures var tail := CutProgress(parts[1..], trailing);
      CutProgress(parts, trailing) == Progress([] + [parts[0]] + tail.parts, tail.current)
  {
    assert [parts[0]] + parts[1..] == parts;
    assert [parts[0]] + parts[1..][..|parts| - 2] == parts[..|parts| - 1];
  }

  /** Splitting a part again returns just that part. */
  lemma TokensIdempotent(s: string, i: int)
    requires 0 <= i < |Tokens(s)| && Tokens(s)[i] != ""
    ensures Tokens(Tokens(s)[i]) == [Tokens(s)[i]]
  {
    var part := Tokens(s)[i];
    TokensLossless(s);
    TokensUnique([part], false);
    assert Untokenize([part], false) == part;
  }

  /** Parts are made of characters of the text. */
  lemma TokenChars(s: string, part: string, c: char)
    requires part in Tokens(s) && c in part
    ensures c in s
  {
    var t := Tokens(s);
    TokensLossless(s);
    CharsInJoin(t, part, c);
    assert Join(t, ' ') <= s;
  }

  lemma {:induction false} CharsInJoin(parts: seq<string>, part: string, c: char)
    requires part in parts && c in part
    ensures c in Join(parts, ' ')
  {
    if |parts| > 1 && part != parts[0] {
      CharsInJoin(parts[1..], part, c);
    }
  }
}

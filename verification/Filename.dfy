/** File name patterns of Slurm: `%` masks become shell variables. */
module Filename {
  import opened Wrappers
  import Text

  /** The shell text of the mask `%c`. */
  function MaskText(c: char): Option<string> {
    match c
    case '%' => Some("%")
    case 'A' => Some("${SLURM_ARRAY_JOB_ID}")
    case 'a' => Some("${SLURM_ARRAY_TASK_ID}")
    case 'j' => Some("${SLURM_JOB_ID}")
    case 'N' => Some("${HOSTNAME}")
    case 'n' => Some("${JOB_COMPLETION_INDEX}")
    case 't' => Some("${SLURM_ARRAY_TASK_ID}")
    case 'u' => Some("${USER_ID}")
    case 'x' => Some("${SBATCH_JOB_NAME}")
    case _ => None
  }

  predicate HasDoubleBackslash(s: string) {
    exists i | 0 <= i < |s| - 1 :: s[i] == '\\' && s[i + 1] == '\\'
  }

  /** `strings.ReplaceAll(s, "\\\\", "")`: pairs of backslashes vanish, from left to right. */
  function RemovePairs(s: string): string {
    if |s| < 2 then s
    else if s[0] == '\\' && s[1] == '\\' then RemovePairs(s[2..])
    else [s[0]] + RemovePairs(s[1..])
  }

  predicate StartsWithMask(s: string) {
    |s| >= 2 && s[0] == '%' && MaskText(s[1]).Some?
  }

  /** The text written for the mask or the single character that `s` starts with. */
  function FirstPiece(s: string): string
    requires s != ""
  {
    if StartsWithMask(s) then MaskText(s[1]).value else [s[0]]
  }

  /** What follows it. */
  function AfterFirst(s: string): (rest: string)
    requires s != ""
    ensures |rest| < |s|
  {
    if StartsWithMask(s) then s[2..] else s[1..]
  }

  /** `unmaskReplacer.Replace`: one pass, replacements are not read again. */
  function ReplaceMasks(s: string): string {
    if s == "" then "" else FirstPiece(s) + ReplaceMasks(AfterFirst(s))
  }

  function UnmaskFilename(filename: string): string {
    if HasDoubleBackslash(filename) then RemovePairs(filename) else ReplaceMasks(filename)
  }

  // ---- masks ----

  /** Writing every `%` twice. */
  function Quote(s: string): string {
    if s == "" then "" else (if s[0] == '%' then "%%" else [s[0]]) + Quote(s[1..])
  }

  lemma {:induction false} ReplaceQuoted(s: string)
    ensures ReplaceMasks(Quote(s)) == s
  {
    if s != "" {
      ReplaceQuoted(s[1..]);
      var q := Quote(s);
      if s[0] == '%' {
        assert q[2..] == Quote(s[1..]);
        assert FirstPiece(q) == "%";
      } else {
        assert q[1..] == Quote(s[1..]);
        assert FirstPiece(q) == [s[0]];
      }
    }
  }

  /** Some `%` at the end of the text has found no partner. */
  predicate EndsOpen(s: string) {
    s != "" && (s == "%" || EndsOpen(AfterFirst(s)))
  }

  lemma FirstPieceKept(a: string, b: string)
    requires a != "" && (a == "%" ==> b == "" || MaskText(b[0]).None?)
    ensures FirstPiece(a + b) == FirstPiece(a) && AfterFirst(a + b) == AfterFirst(a) + b
  {
    assert (a + b)[1..] == a[1..] + b;
    if |a| >= 2 {
      assert (a + b)[1] == a[1] && (a + b)[2..] == a[2..] + b;
    } else if b != "" {
      assert (a + b)[1] == b[0];
    }
  }

  /** Masks are replaced piece by piece: a text can be cut wherever no `%` is left open. */
  lemma {:induction false} ReplaceConcat(a: string, b: string)
    requires !EndsOpen(a) || b == "" || MaskText(b[0]).None?
    ensures ReplaceMasks(a + b) == ReplaceMasks(a) + ReplaceMasks(b)
    decreases |a|
  {
    if a == "" {
      assert a + b == b && "" + ReplaceMasks(b) == ReplaceMasks(b);
    } else {
      FirstPieceKept(a, b);
      ReplaceConcat(AfterFirst(a), b);
      Text.Assoc(FirstPiece(a), ReplaceMasks(AfterFirst(a)), ReplaceMasks(b));
    }
  }

  /** The same for whole file names without a double backslash. */
  lemma UnmaskConcat(a: string, b: string)
    requires !HasDoubleBackslash(a + b) && !EndsOpen(a)
    ensures UnmaskFilename(a + b) == UnmaskFilename(a) + UnmaskFilename(b)
  {
    assert !HasDoubleBackslash(a) by {
      assert forall i :: 0 <= i < |a| ==> a[i] == (a + b)[i];
    }
    assert !HasDoubleBackslash(b) by {
      assert forall i :: 0 <= i < |b| ==> b[i] == (a + b)[|a| + i];
    }
    ReplaceConcat(a, b);
  }

  // ---- backslashes ----

  function Backslashes(n: nat): string {
    seq(n, _ => '\\')
  }

  function CountBackslashes(s: string): nat {
    if s == "" then 0 else (if s[0] == '\\' then 1 else 0) + CountBackslashes(s[1..])
  }

  /** A maximal run of backslashes keeps only its parity, and everything after it is kept apart. */
  lemma {:induction false} RunKeepsParity(n: nat, rest: string)
    requires rest == "" || rest[0] != '\\'
    ensures RemovePairs(Backslashes(n) + rest) == Backslashes(n % 2) + RemovePairs(rest)
  {
    if n >= 2 {
      PairApart(n, rest);
      PairRemoved(Backslashes(n - 2) + rest);
      RunKeepsParity(n - 2, rest);
    } else if n == 1 {
      SingleKept(rest);
      assert Backslashes(1) == ['\\'];
    } else {
      assert Backslashes(0) + rest == rest && Backslashes(0) + RemovePairs(rest) == RemovePairs(rest);
    }
  }

  lemma PairApart(n: nat, rest: string)
    requires n >= 2
    ensures Backslashes(n) + rest == ['\\', '\\'] + (Backslashes(n - 2) + rest)
  {
  }

  lemma PairRemoved(s: string)
    ensures RemovePairs(['\\', '\\'] + s) == RemovePairs(s)
  {
    assert (['\\', '\\'] + s)[2..] == s;
  }

  lemma SingleKept(rest: string)
    requires rest == "" || rest[0] != '\\'
    ensures RemovePairs(['\\'] + rest) == ['\\'] + RemovePairs(rest)
  {
    assert (['\\'] + rest)[1..] == rest;
    assert rest == "" ==> ['\\'] + rest == ['\\'] + RemovePairs(rest);
  }

  /** Other characters, `%` among them, stay as they are. */
  lemma OtherKept(c: char, rest: string)
    requires c != '\\'
    ensures RemovePairs([c] + rest) == [c] + RemovePairs(rest)
  {
    assert ([c] + rest)[1..] == rest;
    assert rest == "" ==> [c] + rest == [c] + RemovePairs(rest);
  }

  /** A text cut at its backslashes: the other characters, and how many backslashes stand before, between and after. */
  datatype Runs = Runs(counts: seq<nat>, others: string)

  ghost predicate IsCut(r: Runs) {
    |r.counts| == |r.others| + 1 && '\\' !in r.others
  }

  function RunsText(r: Runs): string
    requires |r.counts| == |r.others| + 1
    decreases |r.others|
  {
    if r.others == "" then Backslashes(r.counts[0])
    else Backslashes(r.counts[0]) + ([r.others[0]] + RunsText(Runs(r.counts[1..], r.others[1..])))
  }

  function Parities(counts: seq<nat>): seq<nat> {
    seq(|counts|, k requires 0 <= k < |counts| => counts[k] % 2)
  }

  function CutRuns(s: string): (r: Runs)
    ensures |r.counts| == |r.others| + 1
  {
    if s == "" then Runs([0], "")
    else
      var r := CutRuns(s[1..]);
      if s[0] == '\\' then Runs([r.counts[0] + 1] + r.counts[1..], r.others)
      else Runs([0] + r.counts, [s[0]] + r.others)
  }

  /** Every text is cut in this way. */
  lemma {:induction false} TextOfRuns(s: string)
    ensures IsCut(CutRuns(s)) && RunsText(CutRuns(s)) == s
  {
    if s != "" {
      var r, q := CutRuns(s), CutRuns(s[1..]);
      TextOfRuns(s[1..]);
      if s[0] == '\\' {
        assert Backslashes(q.counts[0] + 1) == [s[0]] + Backslashes(q.counts[0]);
        assert r.counts[1..] == q.counts[1..];
        if q.others != "" {
          var tail := [q.others[0]] + RunsText(Runs(q.counts[1..], q.others[1..]));
          Text.Assoc([s[0]], Backslashes(q.counts[0]), tail);
        }
      } else {
        assert r.counts[1..] == q.counts && r.others[1..] == q.others;
        assert Backslashes(0) + ([s[0]] + s[1..]) == s;
      }
    }
  }

  lemma {:induction false} ParitiesLeft(r: Runs)
    requires IsCut(r)
    ensures RemovePairs(RunsText(r)) == RunsText(Runs(Parities(r.counts), r.others))
    decreases |r.others|
  {
    if r.others == "" {
      RunKeepsParity(r.counts[0], "");
      assert Backslashes(r.counts[0]) + "" == Backslashes(r.counts[0]);
      assert Backslashes(r.counts[0] % 2) + "" == Backslashes(r.counts[0] % 2);
    } else {
      var tail := Runs(r.counts[1..], r.others[1..]);
      ParitiesLeft(tail);
      RunKeepsParity(r.counts[0], [r.others[0]] + RunsText(tail));
      OtherKept(r.others[0], RunsText(tail));
      assert Parities(r.counts)[1..] == Parities(tail.counts);
    }
  }

  /** In the branch for double backslashes every text keeps its other characters, and of each run its parity. */
  lemma PairsKeepParity(s: string)
    requires HasDoubleBackslash(s)
    ensures UnmaskFilename(s) == RunsText(Runs(Parities(CutRuns(s).counts), CutRuns(s).others))
  {
    TextOfRuns(s);
    ParitiesLeft(CutRuns(s));
  }

  lemma {:induction false} QuoteKeepsBackslashes(s: string)
    ensures HasDoubleBackslash(Quote(s)) <==> HasDoubleBackslash(s)
    ensures CountBackslashes(Quote(s)) == CountBackslashes(s)
    ensures Quote(s) != "" && s != "" ==> Quote(s)[0] == s[0]
  {
    if s != "" {
      var tail, q := s[1..], Quote(s);
      QuoteKeepsBackslashes(tail);
      DoubleTail(s);
      if s[0] == '%' {
        assert q[1..] == "%" + Quote(tail) && q[1..][1..] == Quote(tail);
        DoubleTail(q);
        DoubleTail(q[1..]);
      } else {
        assert q[1..] == Quote(tail);
        DoubleTail(q);
      }
    }
  }

  lemma DoubleTail(s: string)
    requires s != ""
    ensures HasDoubleBackslash(s) <==>
            (|s| >= 2 && s[0] == '\\' && s[1] == '\\') || HasDoubleBackslash(s[1..])
  {
    if i :| 0 <= i < |s| - 1 && s[i] == '\\' && s[i + 1] == '\\' {
      if i > 0 {
        assert s[1..][i - 1] == '\\' && s[1..][i] == '\\';
      }
    }
    if i :| 0 <= i < |s[1..]| - 1 && s[1..][i] == '\\' && s[1..][i + 1] == '\\' {
      assert s[i + 1] == '\\' && s[i + 2] == '\\';
    }
  }

  lemma {:induction false} PairsAreLost(s: string)
    ensures CountBackslashes(RemovePairs(s)) <= CountBackslashes(s)
    ensures HasDoubleBackslash(s) ==> CountBackslashes(RemovePairs(s)) < CountBackslashes(s)
    decreases |s|
  {
    if |s| >= 2 {
      DoubleTail(s);
      if s[0] == '\\' && s[1] == '\\' {
        PairsAreLost(s[2..]);
        assert s[1..][1..] == s[2..];
      } else {
        PairsAreLost(s[1..]);
        assert ([s[0]] + RemovePairs(s[1..]))[1..] == RemovePairs(s[1..]);
      }
    }
  }

  /** Quoting protects a file name exactly when it holds no double backslash. */
  lemma UnmaskQuoted(s: string)
    ensures UnmaskFilename(Quote(s)) == s <==> !HasDoubleBackslash(s)
  {
    QuoteKeepsBackslashes(s);
    if HasDoubleBackslash(s) {
      PairsAreLost(Quote(s));
    } else {
      ReplaceQuoted(s);
    }
  }

  // ---- the table of masks ----

  lemma MaskAlone(c: char)
    requires c != '\\'
    ensures UnmaskFilename(['%', c]) == match MaskText(c) case Some(text) => text case None => ['%', c]
  {
    var s := ['%', c];
    assert s[1..] == [c] && s[2..] == "" && [c][1..] == "";
    assert ReplaceMasks("") == "";
    if MaskText(c).None? {
      assert ReplaceMasks([c]) == [c];
    }
  }

  lemma MaskIs(c: char, text: string)
    requires MaskText(c) == Some(text)
    ensures UnmaskFilename(['%', c]) == text
  {
    assert !HasDoubleBackslash(['%', c]);
    MaskAlone(c);
  }

  /** The nine masks and what they stand for. */
  lemma Masks()
    ensures UnmaskFilename("%%") == "%"
    ensures UnmaskFilename("%A") == "${SLURM_ARRAY_JOB_ID}"
    ensures UnmaskFilename("%a") == "${SLURM_ARRAY_TASK_ID}"
    ensures UnmaskFilename("%j") == "${SLURM_JOB_ID}"
    ensures UnmaskFilename("%N") == "${HOSTNAME}"
    ensures UnmaskFilename("%n") == "${JOB_COMPLETION_INDEX}"
    ensures UnmaskFilename("%t") == "${SLURM_ARRAY_TASK_ID}"
    ensures UnmaskFilename("%u") == "${USER_ID}"
    ensures UnmaskFilename("%x") == "${SBATCH_JOB_NAME}"
  {
    MaskIs('%', "%");
    MaskIs('A', "${SLURM_ARRAY_JOB_ID}");
    MaskIs('a', "${SLURM_ARRAY_TASK_ID}");
    MaskIs('j', "${SLURM_JOB_ID}");
    MaskIs('N', "${HOSTNAME}");
    MaskIs('n', "${JOB_COMPLETION_INDEX}");
    MaskIs('t', "${SLURM_ARRAY_TASK_ID}");
    MaskIs('u', "${USER_ID}");
    MaskIs('x', "${SBATCH_JOB_NAME}");
  }

  /** After any other character the percent sign stays. */
  lemma NoMask(c: char)
    requires c != '%' && c != 'A' && c != 'a' && c != 'j' && c != 'N' && c != 'n' && c != 't' && c != 'u' && c != 'x'
    requires c != '\\'
    ensures UnmaskFilename(['%', c]) == ['%', c]
  {
    MaskAlone(c);
  }
}

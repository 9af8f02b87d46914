/** What may stand before `srun` on a command line: assignments, `export`, and separators. */
module EnvVars {
  import opened Wrappers
  import opened Tokenizer

  datatype EnvError =
    | ExportBeforeExport
    | DoubleSemicolon
    | InvalidVariable(part: string)
    | ExportNotClosed

  // ---- the assignment format ^([A-Z0-9_]+)=(?:"([^"]*)"|([^"\s]+))$ ----

  predicate IsName(s: string) {
    s != "" && forall c :: c in s ==> 'A' <= c <= 'Z' || '0' <= c <= '9' || c == '_'
  }

  predicate IsQuotedValue(s: string) {
    |s| >= 2 && s[0] == '"' && s[|s| - 1] == '"' && '"' !in s[1..|s| - 1]
  }

  predicate IsPlainValue(s: string) {
    s != "" && forall c :: c in s ==> c !in {'"', ' ', '\t', '\n', '\r', '\U{C}'}
  }

  predicate IsAssignment(s: string) {
    exists k | 0 <= k < |s| ::
      s[k] == '=' && IsName(s[..k]) && (IsQuotedValue(s[k + 1..]) || IsPlainValue(s[k + 1..]))
  }

  // ---- the language of accepted prefixes ----

  predicate EndsInSemicolon(part: string) {
    part != "" && part[|part| - 1] == ';' && !Escaped(part, |part| - 1)
  }

  predicate EndsInDoubleSemicolon(part: string) {
    EndsInSemicolon(part) && |part| > 1 && part[|part| - 2] == ';'
  }

  /** A part that ends the reach of an `export`. */
  predicate IsSeparator(part: string) {
    part == "&&" || (EndsInSemicolon(part) && !EndsInDoubleSemicolon(part))
  }

  predicate IsAllowed(part: string) {
    part == "" || part == "export" || IsSeparator(part) || (!EndsInSemicolon(part) && IsAssignment(part))
  }

  /** The last `export` before position `k` has no separator between it and `k`. */
  function ExportOpen(parts: seq<string>, k: nat): bool
    requires k <= |parts|
  {
    k > 0 && (parts[k - 1] == "export" || (!IsSeparator(parts[k - 1]) && ExportOpen(parts, k - 1)))
  }

  /** What is wrong at position `k`; position `|parts|` stands for the end. */
  function Problem(parts: seq<string>, k: nat): Option<EnvError>
    requires k <= |parts|
  {
    if k == |parts| then if ExportOpen(parts, k) then Some(ExportNotClosed) else None
    else if parts[k] == "export" then if ExportOpen(parts, k) then Some(ExportBeforeExport) else None
    else if EndsInDoubleSemicolon(parts[k]) then Some(DoubleSemicolon)
    else if !IsAllowed(parts[k]) then Some(InvalidVariable(parts[k]))
    else None
  }

  ghost predicate NoProblemBefore(parts: seq<string>, k: int)
    requires 0 <= k <= |parts| + 1
  {
    forall j :: 0 <= j < k ==> Problem(parts, j) == None
  }

  /** `e` is the problem met first, at position `k`. */
  ghost predicate FirstProblem(parts: seq<string>, k: int, e: EnvError) {
    0 <= k <= |parts| && Problem(parts, k) == Some(e) && NoProblemBefore(parts, k)
  }

  /** The separator that closes the `export` at `i` comes before the next `export` and the end. */
  ghost predicate ExportClosed(parts: seq<string>, i: int)
    requires 0 <= i < |parts|
  {
    exists j :: i < j < |parts| && IsSeparator(parts[j]) && forall k :: i < k < j ==> parts[k] != "export"
  }

  /** The accepted language, stated without the scan. */
  ghost predicate Accepted(parts: seq<string>) {
    && (forall i :: 0 <= i < |parts| ==> IsAllowed(parts[i]))
    && (forall i :: 0 <= i < |parts| && parts[i] == "export" ==> ExportClosed(parts, i))
  }

  method ValidateEnvVars(input: string) returns (r: Result<(), EnvError>)
    ensures r.Success? <==> Accepted(Tokens(input))
    ensures r.Failure? ==> exists k :: FirstProblem(Tokens(input), k, r.error)
  {
    var parts := SplitBySpaceWithIgnoreInQuotes(input);
    ProblemsDecide(parts);
    var exportOpen := false;
    for i := 0 to |parts|
      invariant exportOpen <==> ExportOpen(parts, i)
      invariant NoProblemBefore(parts, i)
    {
      var part := parts[i];
      var length := |part|;
      var escaped := true;
      var suffix := part != "" && part[length - 1] == ';';
      if suffix {
        escaped := IsEscaped(part, length - 1);
      }
      assert EndsInSemicolon(part) <==> suffix && !escaped;
      if part == "" {
      } else if part == "export" {
        if exportOpen {
          assert FirstProblem(parts, i, ExportBeforeExport);
          return Failure(ExportBeforeExport);
        }
        exportOpen := true;
      } else if part == "&&" {
        exportOpen := false;
      } else if suffix && !escaped {
        if length > 1 && part[length - 2] == ';' {
          assert FirstProblem(parts, i, DoubleSemicolon);
          return Failure(DoubleSemicolon);
        }
        exportOpen := false;
      } else if !IsAssignment(part) {
        assert FirstProblem(parts, i, InvalidVariable(part));
        return Failure(InvalidVariable(part));
      }
      assert Problem(parts, i) == None;
    }
    if exportOpen {
      assert FirstProblem(parts, |parts|, ExportNotClosed);
      return Failure(ExportNotClosed);
    }
    return Success(());
  }

  /** The scan's flag is what the declarative reading of `export` says. */
  lemma {:induction false} ExportOpenMeans(parts: seq<string>, k: nat)
    requires k <= |parts|
    ensures ExportOpen(parts, k) <==>
            exists i :: 0 <= i < k && parts[i] == "export" && forall j :: i < j < k ==> !IsSeparator(parts[j])
  {
    if k > 0 {
      ExportOpenMeans(parts, k - 1);
      if ExportOpen(parts, k) && parts[k - 1] != "export" {
        var i :| 0 <= i < k - 1 && parts[i] == "export" && forall j :: i < j < k - 1 ==> !IsSeparator(parts[j]);
        assert forall j :: i < j < k ==> !IsSeparator(parts[j]);
      }
    }
  }

  /** The scan finds a problem exactly outside the accepted language. */
  lemma ProblemsDecide(parts: seq<string>)
    ensures Accepted(parts) <==> NoProblemBefore(parts, |parts| + 1)
  {
    if Accepted(parts) {
      forall k: nat | k <= |parts| ensures Problem(parts, k) == None {
        ExportOpenMeans(parts, k);
      }
    }
    if NoProblemBefore(parts, |parts| + 1) {
      forall i | 0 <= i < |parts| ensures IsAllowed(parts[i]) {
        assert Problem(parts, i) == None;
      }
      forall i | 0 <= i < |parts| && parts[i] == "export" ensures ExportClosed(parts, i) {
        CloseFrom(parts, i, i + 1);
      }
    }
  }

  /** From an open `export` at `i`, a scan without problems must meet the closing separator. */
  lemma {:induction false} CloseFrom(parts: seq<string>, i: int, k: int)
    requires 0 <= i < k <= |parts| && parts[i] == "export"
    requires forall j :: i < j < k ==> !IsSeparator(parts[j]) && parts[j] != "export"
    requires NoProblemBefore(parts, |parts| + 1)
    ensures ExportClosed(parts, i)
    decreases |parts| - k
  {
    ExportOpenMeans(parts, k);
    assert Problem(parts, k) == None;
    if k < |parts| && !IsSeparator(parts[k]) {
      CloseFrom(parts, i, k + 1);
    }
  }

  /** Accepted prefixes can be put one after the other. */
  lemma AcceptedConcat(a: seq<string>, b: seq<string>)
    requires Accepted(a) && Accepted(b)
    ensures Accepted(a + b)
  {
    var s := a + b;
    forall i | 0 <= i < |s| && s[i] == "export" ensures ExportClosed(s, i) {
      if i < |a| {
        assert ExportClosed(a, i);
        var j :| i < j < |a| && IsSeparator(a[j]) && forall k :: i < k < j ==> a[k] != "export";
        assert IsSeparator(s[j]) && forall k :: i < k < j ==> s[k] != "export";
      } else {
        assert ExportClosed(b, i - |a|);
        var j :| i - |a| < j < |b| && IsSeparator(b[j]) && forall k :: i - |a| < k < j ==> b[k] != "export";
        assert s[j + |a|] == b[j];
        assert forall k :: i < k < j + |a| ==> s[k] == b[k - |a|];
      }
    }
  }

  // ---- the format and the errors, written out ----

  /** A name, an equals sign and a value, quoted or without quotes and white space. */
  lemma AssignmentMeans(name: string, value: string)
    requires '=' !in name
    ensures IsAssignment(name + "=" + value) <==>
            && name != ""
            && (forall i :: 0 <= i < |name| ==>
                  'A' <= name[i] <= 'Z' || '0' <= name[i] <= '9' || name[i] == '_')
            && (|| (|value| >= 2 && value[0] == '"' && value[|value| - 1] == '"'
                    && forall i :: 0 < i < |value| - 1 ==> value[i] != '"')
                || (value != "" && forall i :: 0 <= i < |value| ==>
                      && value[i] != '"' && value[i] != ' ' && value[i] != '\t'
                      && value[i] != '\n' && value[i] != '\r' && value[i] != '\U{C}'))
  {
    var s, n := name + "=" + value, |name|;
    assert s[n] == '=' && s[..n] == name && s[n + 1..] == value;
    FirstEquals(s, n);
    NameMeans(name);
    QuotedMeans(value);
    PlainMeans(value);
  }

  lemma NameMeans(s: string)
    ensures IsName(s) <==>
            && s != ""
            && forall i :: 0 <= i < |s| ==> 'A' <= s[i] <= 'Z' || '0' <= s[i] <= '9' || s[i] == '_'
  {
    AllIn(s);
  }

  lemma PlainMeans(s: string)
    ensures IsPlainValue(s) <==>
            && s != ""
            && forall i :: 0 <= i < |s| ==>
                 && s[i] != '"' && s[i] != ' ' && s[i] != '\t' && s[i] != '\n' && s[i] != '\r' && s[i] != '\U{C}'
  {
    AllIn(s);
  }

  lemma AllIn(s: string)
    ensures forall i :: 0 <= i < |s| ==> s[i] in s
  {
  }

  /** Only the first equals sign can end the name. */
  lemma FirstEquals(s: string, n: nat)
    requires n < |s| && s[n] == '=' && '=' !in s[..n]
    ensures IsAssignment(s) <==>
            IsName(s[..n]) && (IsQuotedValue(s[n + 1..]) || IsPlainValue(s[n + 1..]))
  {
    if k :| 0 <= k < |s| && s[k] == '=' && IsName(s[..k]) && (IsQuotedValue(s[k + 1..]) || IsPlainValue(s[k + 1..])) {
      NameEnds(s, n, k);
    }
  }

  lemma NameEnds(s: string, n: nat, k: nat)
    requires n < |s| && s[n] == '=' && '=' !in s[..n]
    requires k < |s| && s[k] == '=' && IsName(s[..k])
    ensures k == n
  {
    NameMeans(s[..k]);
    AllIn(s[..n]);
  }

  lemma QuotedMeans(value: string)
    ensures IsQuotedValue(value) <==>
            && |value| >= 2 && value[0] == '"' && value[|value| - 1] == '"'
            && forall i :: 0 < i < |value| - 1 ==> value[i] != '"'
  {
    if |value| >= 2 {
      var inner := value[1..|value| - 1];
      assert forall i :: 0 < i < |value| - 1 ==> value[i] == inner[i - 1];
      assert forall i :: 0 <= i < |inner| ==> inner[i] == value[i + 1];
    }
  }

  lemma NoAssignment(part: string)
    requires '=' !in part
    ensures !IsAssignment(part)
  {
  }

  /** Some `export` before `k` has no separator after it. */
  ghost predicate ExportBefore(parts: seq<string>, k: int)
    requires 0 <= k <= |parts|
  {
    exists i :: 0 <= i < k && parts[i] == "export" && forall j :: i < j < k ==> !IsSeparator(parts[j])
  }

  /** What each error says about the part it is reported for. */
  lemma ErrorsMean(parts: seq<string>, k: int, e: EnvError)
    requires FirstProblem(parts, k, e)
    ensures e == ExportNotClosed <==> k == |parts|
    ensures k < |parts| && parts[k] == "export" <==> e == ExportBeforeExport
    ensures e == ExportNotClosed || e == ExportBeforeExport ==> ExportBefore(parts, k)
    ensures k < |parts| && parts[k] != "export" ==>
              e == if parts[k] != "" && parts[k][|parts[k]| - 1] == ';' && !Escaped(parts[k], |parts[k]| - 1)
                   then DoubleSemicolon else InvalidVariable(parts[k])
  {
    ExportOpenMeans(parts, k);
  }

  /** `&&`, or a part with one unescaped semicolon at its end. */
  predicate Separates(part: string) {
    || part == "&&"
    || (part != "" && part[|part| - 1] == ';' && BackslashRun(part[..|part| - 1]) % 2 == 0
        && !(|part| > 1 && part[|part| - 2] == ';'))
  }

  /** The accepted prefixes: which parts they are made of, and where an `export` must be closed. */
  lemma AcceptedMeans(parts: seq<string>)
    ensures Accepted(parts) <==>
            && (forall i :: 0 <= i < |parts| ==>
                  || parts[i] == "" || parts[i] == "export" || Separates(parts[i])
                  || (IsAssignment(parts[i])
                      && !(parts[i][|parts[i]| - 1] == ';' && BackslashRun(parts[i][..|parts[i]| - 1]) % 2 == 0)))
            && (forall i :: 0 <= i < |parts| && parts[i] == "export" ==>
                  exists j :: i < j < |parts| && Separates(parts[j]) && forall k :: i < k < j ==> parts[k] != "export")
  {
    assert forall part :: Separates(part) <==> IsSeparator(part);
    forall i | 0 <= i < |parts| && parts[i] == "export"
      ensures ExportClosed(parts, i) <==>
              exists j :: i < j < |parts| && Separates(parts[j]) && forall k :: i < k < j ==> parts[k] != "export"
    {
      if ExportClosed(parts, i) {
        var j :| i < j < |parts| && IsSeparator(parts[j]) && forall k :: i < k < j ==> parts[k] != "export";
        assert Separates(parts[j]);
      }
    }
  }
}

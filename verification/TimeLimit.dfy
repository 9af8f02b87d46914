/** The `--time` flag: a validator that counts, and the seconds a time limit stands for. */
module TimeLimit {
  import opened Text
  import opened Decimal

  // ---- the grammar: D, D:D, D:D:D, D-D, D-D:D, D-D:D:D ----

  predicate IsSeparator(c: char) {
    c == '-' || c == ':'
  }

  /** The separators of the six forms. */
  predicate IsShape(separators: string) {
    && |separators| <= 3
    && (separators != "" ==> IsSeparator(separators[0]))
    && (|separators| == 3 ==> separators[0] == '-')
    && forall k | 1 <= k < |separators| :: separators[k] == ':'
  }

  lemma ShapesListed(s: string)
    ensures IsShape(s) <==> s in {"", ":", "::", "-", "-:", "-::"}
  {
    if |s| == 0 {
    } else if |s| == 1 {
      assert s == [s[0]];
    } else if |s| == 2 {
      assert s == [s[0], s[1]];
    } else if |s| == 3 {
      assert s == [s[0], s[1], s[2]];
    }
  }

  /** Digit groups with one separator between neighbours. */
  datatype Spec = Spec(groups: seq<string>, separators: string)

  predicate AllGroups(groups: seq<string>) {
    forall k | 0 <= k < |groups| :: IsDigits(groups[k])
  }

  predicate WellFormed(spec: Spec) {
    |spec.groups| == |spec.separators| + 1 && IsShape(spec.separators) && AllGroups(spec.groups)
  }

  /** A text without its last group and the separator before it. */
  function Front(spec: Spec): (front: Spec)
    requires |spec.groups| == |spec.separators| + 1 && spec.separators != ""
  {
    Spec(spec.groups[..|spec.separators|], spec.separators[..|spec.separators| - 1])
  }

  function SpecText(spec: Spec): string
    requires |spec.groups| == |spec.separators| + 1
    decreases |spec.separators|
  {
    if spec.separators == "" then spec.groups[0]
    else
      var n := |spec.separators|;
      SpecText(Front(spec)) + [spec.separators[n - 1]] + spec.groups[n]
  }

  ghost predicate InGrammar(val: string) {
    exists spec :: WellFormed(spec) && SpecText(spec) == val
  }

  // ---- cutting a text at its separators ----

  function Cut(val: string): (spec: Spec)
    ensures |spec.groups| == |spec.separators| + 1
  {
    if val == "" then Spec([""], "")
    else
      var front, c := Cut(val[..|val| - 1]), val[|val| - 1];
      var n := |front.separators|;
      if IsSeparator(c) then Spec(front.groups + [""], front.separators + [c])
      else Spec(front.groups[..n] + [front.groups[n] + [c]], front.separators)
  }

  lemma {:induction false} TextOfCut(val: string)
    ensures SpecText(Cut(val)) == val
  {
    if val != "" {
      var front, c := val[..|val| - 1], val[|val| - 1];
      TextOfCut(front);
      if IsSeparator(c) {
        TextWithSeparator(Cut(front), c);
      } else {
        TextWithCharacter(Cut(front), c);
      }
    }
  }

  lemma TextWithSeparator(spec: Spec, c: char)
    requires |spec.groups| == |spec.separators| + 1
    ensures SpecText(Spec(spec.groups + [""], spec.separators + [c])) == SpecText(spec) + [c]
  {
    var next, n := Spec(spec.groups + [""], spec.separators + [c]), |spec.separators|;
    assert Front(next) == spec by {
      assert next.groups[..n + 1] == spec.groups && next.separators[..n] == spec.separators;
    }
    assert SpecText(spec) + [c] + "" == SpecText(spec) + [c];
  }

  lemma TextWithCharacter(spec: Spec, c: char)
    requires |spec.groups| == |spec.separators| + 1
    ensures var n := |spec.separators|;
      SpecText(Spec(spec.groups[..n] + [spec.groups[n] + [c]], spec.separators)) == SpecText(spec) + [c]
  {
    var n := |spec.separators|;
    var next := Spec(spec.groups[..n] + [spec.groups[n] + [c]], spec.separators);
    if n > 0 {
      assert next.groups[..n] == spec.groups[..n];
      assert Front(next) == Front(spec);
      var s := SpecText(Front(spec)) + [spec.separators[n - 1]];
      assert s + (spec.groups[n] + [c]) == s + spec.groups[n] + [c];
    }
  }

  /** Only digits and separators: groups hold digits, separators hold separators. */
  ghost predicate Clean(spec: Spec) {
    && |spec.groups| == |spec.separators| + 1
    && (forall k :: 0 <= k < |spec.groups| ==> AllDigits(spec.groups[k]))
    && (forall k :: 0 <= k < |spec.separators| ==> IsSeparator(spec.separators[k]))
  }

  /** `front` with more text in its last group. */
  function Longer(front: Spec, text: string): Spec
    requires |front.groups| == |front.separators| + 1
  {
    var n := |front.separators|;
    Spec(front.groups[..n] + [front.groups[n] + text], front.separators)
  }

  lemma LongerTwice(front: Spec, text: string, c: char)
    requires |front.groups| == |front.separators| + 1
    ensures Longer(Longer(front, text), [c]) == Longer(front, text + [c])
  {
    assert front.groups[|front.separators|] + text + [c] == front.groups[|front.separators|] + (text + [c]);
  }

  lemma {:induction false} CutDigits(s: string, digits: string)
    requires AllDigits(digits)
    ensures Cut(s + digits) == Longer(Cut(s), digits)
  {
    if digits == "" {
      assert s + digits == s;
      LongerByNothing(Cut(s));
    } else {
      var init, last := digits[..|digits| - 1], digits[|digits| - 1];
      CutDigits(s, init);
      CutDigit(s + init, last);
      LongerTwice(Cut(s), init, last);
      LastApart(s, digits);
    }
  }

  lemma LongerByNothing(front: Spec)
    requires |front.groups| == |front.separators| + 1
    ensures Longer(front, "") == front
  {
    var n := |front.separators|;
    assert front.groups[n] + "" == front.groups[n];
  }

  lemma CutDigit(s: string, c: char)
    requires IsDigit(c)
    ensures Cut(s + [c]) == Longer(Cut(s), [c])
  {
    assert (s + [c])[..|s|] == s;
  }

  /** Cutting finds the groups a text was made of. */
  lemma {:induction false} CutOfText(spec: Spec)
    requires Clean(spec)
    ensures Cut(SpecText(spec)) == spec
    decreases |spec.separators|
  {
    var n := |spec.separators|;
    if n == 0 {
      CutDigits("", spec.groups[0]);
      assert "" + spec.groups[0] == spec.groups[0];
      assert spec.groups == [spec.groups[0]];
    } else {
      var front, c := Front(spec), spec.separators[n - 1];
      assert Clean(front);
      CutOfText(front);
      CutSeparator(SpecText(front), c);
      CutDigits(SpecText(front) + [c], spec.groups[n]);
      FrontExtended(spec);
    }
  }

  lemma FrontExtended(spec: Spec)
    requires |spec.groups| == |spec.separators| + 1 && spec.separators != ""
    ensures var n, front := |spec.separators|, Front(spec);
      Spec((front.groups + [""])[..n] + ["" + spec.groups[n]], front.separators + [spec.separators[n - 1]]) == spec
  {
    var n, front := |spec.separators|, Front(spec);
    assert "" + spec.groups[n] == spec.groups[n];
    assert (front.groups + [""])[..n] + [spec.groups[n]] == spec.groups;
  }

  lemma CutSeparator(s: string, c: char)
    requires IsSeparator(c)
    ensures Cut(s + [c]) == Spec(Cut(s).groups + [""], Cut(s).separators + [c])
  {
    assert (s + [c])[..|s|] == s;
  }

  lemma ShapesAreClean(spec: Spec)
    requires WellFormed(spec)
    ensures Clean(spec)
  {
  }

  lemma GrammarIsCut(val: string)
    ensures InGrammar(val) <==> WellFormed(Cut(val))
  {
    if spec :| WellFormed(spec) && SpecText(spec) == val {
      ShapesAreClean(spec);
      CutOfText(spec);
    }
    TextOfCut(val);
  }

  // ---- the counting validator ----

  /** Number of non-empty groups. */
  function Filled(groups: seq<string>): (n: nat)
    ensures n <= |groups|
  {
    if groups == [] then 0
    else Filled(groups[..|groups| - 1]) + if groups[|groups| - 1] == "" then 0 else 1
  }

  lemma {:induction false} AllFilled(groups: seq<string>)
    ensures Filled(groups) == |groups| <==> forall k :: 0 <= k < |groups| ==> groups[k] != ""
  {
    if groups != [] {
      AllFilled(groups[..|groups| - 1]);
    }
  }

  function Repeat(c: char, n: nat): string {
    seq(n, _ => c)
  }

  /** The counters say everything about a clean text whose dashes come before its colons. */
  lemma CountsDecide(spec: Spec, dash: nat, colon: nat)
    requires Clean(spec) && spec.separators == Repeat('-', dash) + Repeat(':', colon)
    ensures WellFormed(spec) <==> dash <= 1 && colon <= 2 && Filled(spec.groups) == |spec.groups|
  {
    AllFilled(spec.groups);
    ShapeOfCounts(dash, colon);
  }

  lemma ShapeOfCounts(dash: nat, colon: nat)
    ensures IsShape(Repeat('-', dash) + Repeat(':', colon)) <==> dash <= 1 && colon <= 2
  {
    var s := Repeat('-', dash) + Repeat(':', colon);
    assert forall k :: 0 <= k < |s| ==> s[k] == if k < dash then '-' else ':';
    if dash >= 2 {
      assert s[1] == '-';
    }
  }

  lemma {:induction false} SeparatorsPrefix(val: string, i: int)
    requires 0 <= i <= |val|
    ensures Cut(val[..i]).separators <= Cut(val).separators
    decreases |val|
  {
    if i < |val| {
      SeparatorsPrefix(val[..|val| - 1], i);
      assert val[..|val| - 1][..i] == val[..i];
    } else {
      assert val[..i] == val;
    }
  }

  /** A dash after a colon fits no shape. */
  lemma LateDash(val: string, i: int, dash: nat, colon: nat)
    requires 0 <= i < |val| && val[i] == '-' && colon > 0
    requires Cut(val[..i]).separators == Repeat('-', dash) + Repeat(':', colon)
    ensures !InGrammar(val)
  {
    GrammarIsCut(val);
    SeparatorsPrefix(val, i + 1);
    assert val[..i + 1][..i] == val[..i];
    var separators := Cut(val).separators;
    var j := dash + colon;
    assert separators[j] == '-' && j >= 1;
  }

  /** A foreign character ends up in a group. */
  lemma {:induction false} ForeignCharacter(val: string, i: int)
    requires 0 <= i < |val| && !IsDigit(val[i]) && !IsSeparator(val[i])
    ensures exists k :: 0 <= k < |Cut(val).groups| && !AllDigits(Cut(val).groups[k])
    decreases |val|
  {
    var front, c := Cut(val[..|val| - 1]), val[|val| - 1];
    var n := |front.separators|;
    if i == |val| - 1 {
      assert Cut(val).groups[n][|front.groups[n]|] == c;
    } else {
      ForeignCharacter(val[..|val| - 1], i);
      var k :| 0 <= k < |front.groups| && !AllDigits(front.groups[k]);
      var j :| 0 <= j < |front.groups[k]| && !IsDigit(front.groups[k][j]);
      assert Cut(val).groups[k][j] == front.groups[k][j];
    }
  }

  method IsValidTimeSpec(val: string) returns (valid: bool)
    ensures valid <==> InGrammar(val)
  {
    var digit, dash, colon, alreadyDigit := 0, 0, 0, false;
    for i := 0 to |val|
      invariant digit >= 0 && dash >= 0 && colon >= 0
      invariant Counted(Cut(val[..i]), digit, dash, colon, alreadyDigit)
    {
      var ch := val[i];
      PrefixNext(val, i);
      if '0' <= ch <= '9' {
        CountDigit(val[..i], ch, digit, dash, colon, alreadyDigit);
        if !alreadyDigit {
          digit := digit + 1;
          alreadyDigit := true;
        }
      } else if ch == '-' {
        alreadyDigit := false;
        dash := dash + 1;
        if colon > 0 {
          LateDash(val, i, dash - 1, colon);
          return false;
        }
        CountSeparator(val[..i], ch, digit, dash - 1, colon);
      } else if ch == ':' {
        CountSeparator(val[..i], ch, digit, dash, colon);
        alreadyDigit := false;
        colon := colon + 1;
      } else {
        ForeignCharacter(val, i);
        GrammarIsCut(val);
        return false;
      }
    }
    assert val[..|val|] == val;
    GrammarIsCut(val);
    CountsDecide(Cut(val), dash, colon);
    assert |Cut(val).groups| == dash + colon + 1;

    valid := CountsAccepted(digit, dash, colon);
  }

  /** The checks on the counters after the loop: every group must be filled. */
  method CountsAccepted(digit: nat, dash: nat, colon: nat) returns (valid: bool)
    requires digit <= dash + colon + 1
    ensures valid <==> dash <= 1 && colon <= 2 && digit == dash + colon + 1
  {
    if digit == 0 {
      return false;
    }
    if dash > 1 || colon > 2 {
      return false;
    }
    if dash > 0 {
      if colon == 0 && digit != 2 {
        return false;
      }
      if colon == 1 && digit < 3 {
        return false;
      }
      if colon == 2 && digit < 4 {
        return false;
      }
    } else {
      if colon == 1 && digit < 2 {
        return false;
      }
      if colon == 2 && digit < 3 {
        return false;
      }
    }
    return true;
  }

  /** What the counters of the validator know about the text read so far. */
  ghost predicate Counted(spec: Spec, digit: nat, dash: nat, colon: nat, alreadyDigit: bool) {
    && Clean(spec)
    && spec.separators == Repeat('-', dash) + Repeat(':', colon)
    && digit == Filled(spec.groups)
    && (alreadyDigit <==> spec.groups[|spec.groups| - 1] != "")
  }

  lemma CountDigit(s: string, c: char, digit: nat, dash: nat, colon: nat, alreadyDigit: bool)
    requires IsDigit(c) && Counted(Cut(s), digit, dash, colon, alreadyDigit)
    ensures Counted(Cut(s + [c]), if alreadyDigit then digit else digit + 1, dash, colon, true)
  {
    CutDigit(s, c);
    LongerFilled(Cut(s), c);
  }

  lemma LongerFilled(spec: Spec, c: char)
    requires Clean(spec) && IsDigit(c)
    ensures var n, next := |spec.separators|, Longer(spec, [c]);
      && Clean(next) && next.groups[n] != ""
      && Filled(next.groups) == Filled(spec.groups) + if spec.groups[n] == "" then 1 else 0
  {
    var n := |spec.separators|;
    var groups := spec.groups[..n] + [spec.groups[n] + [c]];
    assert groups[..n] == spec.groups[..n];
    assert forall k :: 0 <= k < n ==> groups[k] == spec.groups[k];
  }

  lemma CountSeparator(s: string, c: char, digit: nat, dash: nat, colon: nat)
    requires IsSeparator(c) && (c == '-' ==> colon == 0)
    requires Clean(Cut(s)) && Cut(s).separators == Repeat('-', dash) + Repeat(':', colon)
    requires digit == Filled(Cut(s).groups)
    ensures Counted(Cut(s + [c]), digit, if c == '-' then dash + 1 else dash, if c == ':' then colon + 1 else colon, false)
  {
    var spec := Cut(s);
    CutSeparator(s, c);
    FilledNext(spec.groups);
    CleanNext(spec, c);
    CountsNext(dash, colon);
  }

  lemma CleanNext(spec: Spec, c: char)
    requires Clean(spec) && IsSeparator(c)
    ensures Clean(Spec(spec.groups + [""], spec.separators + [c]))
  {
  }

  lemma FilledNext(groups: seq<string>)
    ensures Filled(groups + [""]) == Filled(groups)
  {
    assert (groups + [""])[..|groups|] == groups;
  }

  lemma CountsNext(dash: nat, colon: nat)
    ensures Repeat('-', dash) + Repeat(':', colon) + [':'] == Repeat('-', dash) + Repeat(':', colon + 1)
    ensures Repeat('-', dash) + Repeat(':', 0) + ['-'] == Repeat('-', dash + 1) + Repeat(':', 0)
  {
  }
}

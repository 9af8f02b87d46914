/** From a time limit to seconds: a truncating scan, then int32 arithmetic. */
module TimeValue {
  import opened Wrappers
  import opened Arithmetic
  import opened Text
  import opened Decimal
  import opened TimeLimit

  datatype TimeError = InvalidTimeFormat

  function Lower(c: char): char {
    if 'A' <= c <= 'Z' then (c as int + 32) as char else c
  }

  /** `strings.EqualFold` against the three ASCII words below. */
  predicate EqualFold(s: string, t: string) {
    |s| == |t| && forall k | 0 <= k < |s| :: Lower(s[k]) == Lower(t[k])
  }

  predicate IsUnlimited(val: string) {
    val == "" || EqualFold(val, "-1") || EqualFold(val, "INFINITE") || EqualFold(val, "UNLIMITED")
  }

  // ---- what a time limit means ----

  function GroupValue(spec: Spec, k: nat): nat
    requires AllGroups(spec.groups) && k < |spec.groups|
  {
    Value(spec.groups[k])
  }

  /** The seconds of the six forms, over unbounded numbers. */
  function Seconds(spec: Spec): nat
    requires WellFormed(spec)
  {
    ShapesListed(spec.separators);
    match spec.separators
    case "" => GroupValue(spec, 0) * 60
    case ":" => GroupValue(spec, 0) * 60 + GroupValue(spec, 1)
    case "::" => GroupValue(spec, 0) * 3600 + GroupValue(spec, 1) * 60 + GroupValue(spec, 2)
    case "-" => GroupValue(spec, 0) * 86400 + GroupValue(spec, 1) * 3600
    case "-:" => GroupValue(spec, 0) * 86400 + GroupValue(spec, 1) * 3600 + GroupValue(spec, 2) * 60
    case "-::" =>
      GroupValue(spec, 0) * 86400 + GroupValue(spec, 1) * 3600 + GroupValue(spec, 2) * 60 + GroupValue(spec, 3)
  }

  /** The right answer: nothing for zero seconds. */
  function Exact(spec: Spec): Option<int>
    requires WellFormed(spec)
  {
    if Seconds(spec) == 0 then None else Some(Seconds(spec))
  }

  // ---- what the code computes ----

  /** `fmt.Sscanf` with %d verbs and `format` between them, on text that holds no sign or space. */
  function Sscanf(input: string, format: string): (fields: seq<int>)
    ensures |fields| <= |format| + 1
    ensures forall k :: 0 <= k < |fields| ==> 0 <= fields[k] <= MAX_INT32
    decreases |format|
  {
    var n := DigitRun(input);
    if n == 0 || Value(input[..n]) > MAX_INT32 then []
    else if format == "" || n == |input| || input[n] != format[0] then [Value(input[..n])]
    else [Value(input[..n])] + Sscanf(input[n + 1..], format[1..])
  }

  /** The group values up to the first that does not fit an int32. */
  function Kept(groups: seq<string>): (fields: seq<int>)
    requires AllGroups(groups)
    ensures |fields| <= |groups|
    ensures forall k :: 0 <= k < |fields| ==> fields[k] == Value(groups[k]) <= MAX_INT32
    ensures |fields| < |groups| ==> Value(groups[|fields|]) > MAX_INT32
  {
    if groups == [] || Value(groups[0]) > MAX_INT32 then [] else [Value(groups[0])] + Kept(groups[1..])
  }

  function Field(fields: seq<int>, k: nat): int {
    if k < |fields| then fields[k] else 0
  }

  /** The seconds of the kept fields; without a dash, fewer than three fields count minutes first. */
  function KeptSeconds(dashed: bool, fields: seq<int>): int {
    if dashed then Field(fields, 0) * 86400 + Field(fields, 1) * 3600 + Field(fields, 2) * 60 + Field(fields, 3)
    else if |fields| == 3 then fields[0] * 3600 + fields[1] * 60 + fields[2]
    else Field(fields, 0) * 60 + Field(fields, 1)
  }

  /** The reported time limit for every text of the grammar: too large fields are dropped, the sum wraps. */
  function Reported(spec: Spec): Option<int>
    requires WellFormed(spec)
  {
    Report(KeptSeconds('-' in spec.separators, Kept(spec.groups)))
  }

  function Report(seconds: int): Option<int> {
    var total := Wrap32(seconds);
    if total == 0 then None else Some(total)
  }

  function Format(dashed: bool): string {
    if dashed then "-::" else "::"
  }

  method TimeLimitToSeconds(val: string) returns (r: Result<Option<int>, TimeError>)
    ensures var t := TrimSpace(val);
      && (IsUnlimited(t) ==> r == Success(None))
      && (!IsUnlimited(t) && !InGrammar(t) ==> r == Failure(InvalidTimeFormat))
      && (!IsUnlimited(t) && InGrammar(t) ==> WellFormed(Cut(t)) && r == Success(Reported(Cut(t))))
  {
    var t := TrimSpace(val);
    if t == "" || EqualFold(t, "-1") || EqualFold(t, "INFINITE") || EqualFold(t, "UNLIMITED") {
      return Success(None);
    }
    var valid := IsValidTimeSpec(t);
    if !valid {
      return Failure(InvalidTimeFormat);
    }
    GrammarIsCut(t);
    TextOfCut(t);
    ScanKeeps(Cut(t));
    var seconds := ScanSeconds(t);
    return Success(seconds);
  }

  /** The scan and the int32 arithmetic on a validated text. */
  method ScanSeconds(t: string) returns (r: Option<int>)
    ensures r == Report(KeptSeconds('-' in t, Sscanf(t, Format('-' in t))))
  {
    var d, h, m, s := 0, 0, 0, 0;
    if '-' in t {
      var fields := Sscanf(t, Format(true));
      d, h, m, s := Field(fields, 0), Field(fields, 1), Field(fields, 2), Field(fields, 3);
      DashedSum(fields);
      d := Wrap32(d * 86400);
      h := Wrap32(h * 3600);
      m := Wrap32(m * 60);
    } else {
      var fields := Sscanf(t, Format(false));
      h, m, s := Field(fields, 0), Field(fields, 1), Field(fields, 2);
      if |fields| == 3 {
        PlainSum(fields);
        h := Wrap32(h * 3600);
        m := Wrap32(m * 60);
      } else {
        PlainSum(fields);
        s := m;
        m := Wrap32(h * 60);
        h := 0;
      }
    }
    var res := Sum32(d, h, m, s);
    return if res == 0 then None else Some(res);
  }

  /** The int32 sum `d + h + m + s`. */
  function Sum32(d: int, h: int, m: int, s: int): int {
    Wrap32(Wrap32(Wrap32(d + h) + m) + s)
  }

  /** Wrapping at every step is wrapping once. */
  lemma WrapSum(a: int, b: int, c: int, s: int)
    ensures Sum32(Wrap32(a), Wrap32(b), Wrap32(c), s) == Wrap32(a + b + c + s)
    ensures Wrap32(0) == 0
  {
    WrapBoth(a, b);
    WrapBoth(a + b, c);
    WrapAdd(a + b + c, s);
  }

  lemma DashedSum(fields: seq<int>)
    ensures Sum32(Wrap32(Field(fields, 0) * 86400), Wrap32(Field(fields, 1) * 3600), Wrap32(Field(fields, 2) * 60),
                  Field(fields, 3)) == Wrap32(KeptSeconds(true, fields))
  {
    WrapSum(Field(fields, 0) * 86400, Field(fields, 1) * 3600, Field(fields, 2) * 60, Field(fields, 3));
  }

  lemma PlainSum(fields: seq<int>)
    ensures |fields| == 3 ==>
              Sum32(0, Wrap32(Field(fields, 0) * 3600), Wrap32(Field(fields, 1) * 60), Field(fields, 2))
              == Wrap32(KeptSeconds(false, fields))
    ensures |fields| != 3 ==>
              Sum32(0, 0, Wrap32(Field(fields, 0) * 60), Field(fields, 1)) == Wrap32(KeptSeconds(false, fields))
  {
    WrapSum(0, Field(fields, 0) * 3600, Field(fields, 1) * 60, Field(fields, 2));
    WrapSum(0, 0, Field(fields, 0) * 60, Field(fields, 1));
  }

  function Tail(spec: Spec): Spec
    requires |spec.groups| == |spec.separators| + 1 && spec.separators != ""
  {
    Spec(spec.groups[1..], spec.separators[1..])
  }

  /** The text from its first group on. */
  lemma {:induction false} TextHead(spec: Spec)
    requires |spec.groups| == |spec.separators| + 1 && spec.separators != ""
    ensures SpecText(spec) == spec.groups[0] + ([spec.separators[0]] + SpecText(Tail(spec)))
    decreases |spec.separators|
  {
    var n := |spec.separators|;
    if n == 1 {
      assert SpecText(Front(spec)) == spec.groups[0];
      assert SpecText(Tail(spec)) == spec.groups[1];
    } else {
      TextHead(Front(spec));
      assert Tail(Front(spec)) == Front(Tail(spec));
      var last := [spec.separators[n - 1]] + spec.groups[n];
      assert SpecText(Tail(spec)) == SpecText(Front(Tail(spec))) + [spec.separators[n - 1]] + spec.groups[n];
      assert SpecText(spec) == SpecText(Front(spec)) + last;
      assert SpecText(Tail(spec)) == SpecText(Front(Tail(spec))) + last;
    }
  }

  lemma {:induction false} DashInText(spec: Spec)
    requires Clean(spec)
    ensures '-' in SpecText(spec) <==> '-' in spec.separators
    decreases |spec.separators|
  {
    if spec.separators == "" {
      assert AllDigits(spec.groups[0]);
    } else {
      TextHead(spec);
      var tail := Tail(spec);
      assert Clean(tail);
      DashInText(tail);
      assert AllDigits(spec.groups[0]);
      assert spec.separators == [spec.separators[0]] + tail.separators;
    }
  }

  lemma ScanGroup(first: string, c: char, rest: string, format: string)
    requires IsDigits(first) && IsSeparator(c) && format != "" && format[0] == c
    ensures Sscanf(first + ([c] + rest), format) ==
            if Value(first) > MAX_INT32 then [] else [Value(first)] + Sscanf(rest, format[1..])
  {
    var text := first + ([c] + rest);
    DigitRunOf(first, [c] + rest);
    assert text[..|first|] == first && text[|first| + 1..] == rest && text[|first|] == c;
  }

  /** The scan reads the groups in order, as far as they fit, whatever the rest of the format. */
  lemma {:induction false} ScanReads(spec: Spec, format: string)
    requires Clean(spec) && AllGroups(spec.groups) && spec.separators <= format
    ensures Sscanf(SpecText(spec), format) == Kept(spec.groups)
    decreases |spec.separators|
  {
    var first := spec.groups[0];
    if spec.separators == "" {
      assert first + "" == first;
      DigitRunOf(first, "");
      assert first[..|first|] == first;
      assert Kept(spec.groups[1..]) == [];
    } else {
      var tail := Tail(spec);
      TextHead(spec);
      ScanGroup(first, spec.separators[0], SpecText(tail), format);
      CleanTail(spec, format);
      ScanReads(tail, format[1..]);
    }
  }

  lemma CleanTail(spec: Spec, format: string)
    requires Clean(spec) && AllGroups(spec.groups) && spec.separators != "" && spec.separators <= format
    ensures Clean(Tail(spec)) && AllGroups(Tail(spec).groups) && Tail(spec).separators <= format[1..]
  {
  }

  lemma ScanKeeps(spec: Spec)
    requires WellFormed(spec)
    ensures '-' in SpecText(spec) <==> '-' in spec.separators
    ensures Sscanf(SpecText(spec), Format('-' in spec.separators)) == Kept(spec.groups)
  {
    ShapesAreClean(spec);
    DashInText(spec);
    ShapesListed(spec.separators);
    ScanReads(spec, Format('-' in spec.separators));
  }

  // ---- when it is right ----

  /** The reported limit is the exact one if and only if the seconds fit an int32. */
  lemma ExactWithinBounds(spec: Spec)
    requires WellFormed(spec)
    ensures Reported(spec) == Exact(spec) <==> Seconds(spec) <= MAX_INT32
  {
    if Seconds(spec) <= MAX_INT32 {
      AllKept(spec);
    }
  }

  lemma AllKept(spec: Spec)
    requires WellFormed(spec) && Seconds(spec) <= MAX_INT32
    ensures KeptSeconds('-' in spec.separators, Kept(spec.groups)) == Seconds(spec)
  {
    GroupsBelow(spec);
    GroupsFit(spec);
  }

  /** When every group is an int32, none is dropped. */
  lemma GroupsFit(spec: Spec)
    requires WellFormed(spec) && forall k :: 0 <= k < |spec.groups| ==> Value(spec.groups[k]) <= MAX_INT32
    ensures KeptSeconds('-' in spec.separators, Kept(spec.groups)) == Seconds(spec)
  {
    ShapesListed(spec.separators);
    assert |Kept(spec.groups)| == |spec.groups|;
  }

  lemma GroupsBelow(spec: Spec)
    requires WellFormed(spec)
    ensures forall k :: 0 <= k < |spec.groups| ==> Value(spec.groups[k]) <= Seconds(spec)
  {
    ShapesListed(spec.separators);
    assert forall k :: 0 <= k < |spec.groups| ==> GroupValue(spec, k) <= Seconds(spec);
  }

  /** Where the minutes stand: M, M:S, H:M:S, D-H:M and D-H:M:S. */
  function MinutePosition(spec: Spec): nat {
    if '-' in spec.separators then 2 else if |spec.groups| == 3 then 1 else 0
  }

  /** There is a group for the minutes, and every other group is zero. */
  ghost predicate OnlyMinutes(spec: Spec) {
    && WellFormed(spec) && MinutePosition(spec) < |spec.groups|
    && forall k :: 0 <= k < |spec.groups| && k != MinutePosition(spec) ==> Value(spec.groups[k]) == 0
  }

  function Minutes(spec: Spec): nat
    requires AllGroups(spec.groups) && MinutePosition(spec) < |spec.groups|
  {
    GroupValue(spec, MinutePosition(spec))
  }

  /**
   M, M:0, 0:M:0, 0-0:M and 0-0:M:0 are reported the same: the report depends on the minutes
   alone, however many they are, and not on the form.
   */
  lemma MinuteForms(spec: Spec)
    requires OnlyMinutes(spec)
    ensures Seconds(spec) == Minutes(spec) * 60
    ensures Reported(spec) == Report(if Minutes(spec) <= MAX_INT32 then Minutes(spec) * 60 else 0)
  {
    ShapesListed(spec.separators);
    var fields := Kept(spec.groups);
    assert |fields| == if Minutes(spec) <= MAX_INT32 then |spec.groups| else MinutePosition(spec);
  }

  const TOO_LONG := "24856-0"

  /** 24856 days and 0 hours are reported as a negative number of seconds. */
  lemma DaysWrapAround()
    ensures InGrammar(TOO_LONG) && WellFormed(Cut(TOO_LONG))
    ensures Seconds(Cut(TOO_LONG)) == 2147558400 && Reported(Cut(TOO_LONG)) == Some(-2147408896)
  {
    TooLongCut(Cut(TOO_LONG));
    GrammarIsCut(TOO_LONG);
    TooLongReported(Cut(TOO_LONG));
  }

  lemma TooLongReported(spec: Spec)
    requires WellFormed(spec) && spec.separators == "-"
    requires Value(spec.groups[0]) == 24856 && Value(spec.groups[1]) == 0
    ensures Seconds(spec) == 2147558400 && Reported(spec) == Some(-2147408896)
  {
    GroupsFit(spec);
  }

  lemma TooLongCut(spec: Spec)
    requires spec == Cut(TOO_LONG)
    ensures WellFormed(spec) && spec.separators == "-"
    ensures Value(spec.groups[0]) == 24856 && Value(spec.groups[1]) == 0
  {
    TooLongText(Spec(["24856", "0"], "-"));
    CutOfText(Spec(["24856", "0"], "-"));
  }

  lemma TooLongText(spec: Spec)
    requires spec == Spec(["24856", "0"], "-")
    ensures WellFormed(spec) && SpecText(spec) == TOO_LONG
    ensures Value(spec.groups[0]) == 24856 && Value(spec.groups[1]) == 0
  {
    assert Front(spec).separators == "" && Front(spec).groups == ["24856"];
    assert "24856" + ['-'] + "0" == TOO_LONG;
    TooLongDays();
  }

  lemma TooLongDays()
    ensures Value("24856") == 24856 && Value("0") == 0
  {
    ValueNext("2", '4');
    ValueNext("24", '8');
    ValueNext("248", '5');
    ValueNext("2485", '6');
    assert "2" + ['4'] == "24" && "24" + ['8'] == "248" && "248" + ['5'] == "2485" && "2485" + ['6'] == "24856";
  }

  lemma ValueNext(digits: string, c: char)
    requires IsDigits(digits) && IsDigit(c)
    ensures Value(digits + [c]) == Value(digits) * 10 + DigitValue(c)
  {
    assert (digits + [c])[..|digits|] == digits;
  }

  // ---- the forms and the words, written out ----

  /** `t` is one of two spellings, letter by letter. */
  predicate Spelled(t: string, upper: string, lower: string)
    requires |upper| == |lower|
  {
    |t| == |upper| && forall k | 0 <= k < |t| :: t[k] == upper[k] || t[k] == lower[k]
  }

  /** No limit: nothing, -1, or the words for it in letters of either case. */
  lemma UnlimitedMeans(t: string)
    ensures IsUnlimited(t) <==>
            t == "" || t == "-1" || Spelled(t, "INFINITE", "infinite") || Spelled(t, "UNLIMITED", "unlimited")
  {
    WordMeans(t, "INFINITE", "infinite");
    WordMeans(t, "UNLIMITED", "unlimited");
    MinusOneMeans(t);
  }

  lemma MinusOneMeans(t: string)
    ensures EqualFold(t, "-1") <==> t == "-1"
  {
    if EqualFold(t, "-1") {
      assert Lower(t[0]) == Lower("-1"[0]) == '-' && Lower(t[1]) == Lower("-1"[1]) == '1';
      assert t == [t[0], t[1]];
    }
  }

  lemma WordMeans(t: string, upper: string, lower: string)
    requires |upper| == |lower|
    requires forall k :: 0 <= k < |upper| ==> 'A' <= upper[k] <= 'Z' && lower[k] == Lower(upper[k])
    ensures EqualFold(t, upper) <==> Spelled(t, upper, lower)
  {
    if |t| == |upper| {
      forall k | 0 <= k < |t|
        ensures Lower(t[k]) == Lower(upper[k]) <==> t[k] == upper[k] || t[k] == lower[k]
      {
        SameLetter(t[k], upper[k]);
      }
    }
  }

  lemma SameLetter(c: char, upper: char)
    requires 'A' <= upper <= 'Z'
    ensures Lower(c) == Lower(upper) <==> c == upper || c == Lower(upper)
  {
    if Lower(c) == Lower(upper) && 'A' <= c <= 'Z' {
      assert c as int == upper as int;
    }
  }

  /** The seconds of the six forms: a day has 24 hours, an hour 60 minutes, a minute 60 seconds. */
  lemma SecondsMean(a: string, b: string, c: string, d: string)
    requires IsDigits(a) && IsDigits(b) && IsDigits(c) && IsDigits(d)
    ensures var A, B, C, D := Value(a), Value(b), Value(c), Value(d);
      && Reads(a, [a], "", A * 60)
      && Reads(a + [':'] + b, [a, b], ":", A * 60 + B)
      && Reads(a + [':'] + b + [':'] + c, [a, b, c], "::", (A * 60 + B) * 60 + C)
      && Reads(a + ['-'] + b, [a, b], "-", (A * 24 + B) * 3600)
      && Reads(a + ['-'] + b + [':'] + c, [a, b, c], "-:", ((A * 24 + B) * 60 + C) * 60)
      && Reads(a + ['-'] + b + [':'] + c + [':'] + d, [a, b, c, d], "-::", ((A * 24 + B) * 60 + C) * 60 + D)
  {
    OneGroup(a);
    TwoGroups(a, ':', b);
    ThreeGroups(a, ':', b, c);
    TwoGroups(a, '-', b);
    ThreeGroups(a, '-', b, c);
    FourGroups(a, b, c, d);
  }

  /** The text is in the grammar, made of these groups, and stands for so many seconds. */
  ghost predicate Reads(text: string, groups: seq<string>, separators: string, seconds: int) {
    && Cut(text) == Spec(groups, separators) && WellFormed(Cut(text))
    && Seconds(Cut(text)) == seconds
  }

  lemma OneGroup(a: string)
    requires IsDigits(a)
    ensures Reads(a, [a], "", Value(a) * 60)
  {
    CutOfText(Spec([a], ""));
  }

  lemma TwoGroups(a: string, c: char, b: string)
    requires IsDigits(a) && IsDigits(b) && IsSeparator(c)
    ensures Cut(a + [c] + b) == Spec([a, b], [c])
    ensures c == ':' ==> Reads(a + [':'] + b, [a, b], ":", Value(a) * 60 + Value(b))
    ensures c == '-' ==> Reads(a + ['-'] + b, [a, b], "-", (Value(a) * 24 + Value(b)) * 3600)
  {
    OneGroup(a);
    CutLonger(a, c, b);
  }

  lemma ThreeGroups(a: string, c: char, b: string, d: string)
    requires IsDigits(a) && IsDigits(b) && IsDigits(d) && IsSeparator(c)
    ensures Cut(a + [c] + b + [':'] + d) == Spec([a, b, d], [c, ':'])
    ensures c == ':' ==> Reads(a + [':'] + b + [':'] + d, [a, b, d], "::", (Value(a) * 60 + Value(b)) * 60 + Value(d))
    ensures c == '-' ==>
              Reads(a + ['-'] + b + [':'] + d, [a, b, d], "-:", ((Value(a) * 24 + Value(b)) * 60 + Value(d)) * 60)
  {
    TwoGroups(a, c, b);
    CutLonger(a + [c] + b, ':', d);
  }

  lemma FourGroups(a: string, b: string, c: string, d: string)
    requires IsDigits(a) && IsDigits(b) && IsDigits(c) && IsDigits(d)
    ensures Reads(a + ['-'] + b + [':'] + c + [':'] + d, [a, b, c, d], "-::",
                  ((Value(a) * 24 + Value(b)) * 60 + Value(c)) * 60 + Value(d))
  {
    ThreeGroups(a, '-', b, c);
    CutLonger(a + ['-'] + b + [':'] + c, ':', d);
  }

  lemma CutLonger(text: string, c: char, digits: string)
    requires IsDigits(digits) && IsSeparator(c)
    ensures Cut(text + [c] + digits) == Spec(Cut(text).groups + [digits], Cut(text).separators + [c])
  {
    CutSeparator(text, c);
    CutDigits(text + [c], digits);
    assert "" + digits == digits;
    assert (Cut(text).groups + [""])[..|Cut(text).groups|] == Cut(text).groups;
  }

  // ---- numbers that are no int32 ----

  /** The first number that is no int32 is dropped with all after it; what is left of h:m:s counts minutes and seconds. */
  lemma DroppedMean(spec: Spec)
    requires WellFormed(spec)
    ensures var g := seq(|spec.groups|, k requires 0 <= k < |spec.groups| => Value(spec.groups[k]));
      && (g[0] > MAX_INT32 ==> Reported(spec) == None)
      && (spec.separators == "::" && g[0] <= MAX_INT32 < g[1] ==> Reported(spec) == Report(g[0] * 60))
      && (spec.separators == "::" && g[0] <= MAX_INT32 && g[1] <= MAX_INT32 < g[2] ==>
            Reported(spec) == Report(g[0] * 60 + g[1]))
      && ('-' in spec.separators && g[0] <= MAX_INT32 < g[1] ==> Reported(spec) == Report(g[0] * 86400))
      && (spec.separators == "-::" && g[0] <= MAX_INT32 && g[1] <= MAX_INT32 && g[2] <= MAX_INT32 < g[3] ==>
            Reported(spec) == Report(g[0] * 86400 + g[1] * 3600 + g[2] * 60))
  {
    ShapesListed(spec.separators);
  }
}

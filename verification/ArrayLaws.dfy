/** Laws of the array flag: printing and parsing, and how many indexes there can be. */
module ArrayLaws {
  import opened Wrappers
  import opened Text
  import opened Decimal
  import opened Arithmetic
  import opened Ranges
  import opened ArrayIndexes

  /** Number of indexes, least and greatest one. */
  function Count(ai: ArrayIndexes): nat {
    |ai.indexes|
  }

  function Min(s: seq<int>): (m: int)
    requires s != []
    ensures m in s && forall x :: x in s ==> m <= x
  {
    if |s| == 1 then s[0]
    else
      assert s == [s[0]] + s[1..];
      var m := Min(s[1..]);
      if s[0] < m then s[0] else m
  }

  function Max(s: seq<int>): (m: int)
    requires s != []
    ensures m in s && forall x :: x in s ==> x <= m
  {
    if |s| == 1 then s[0]
    else
      assert s == [s[0]] + s[1..];
      var m := Max(s[1..]);
      if s[0] > m then s[0] else m
  }

  /** `buildArrayIndexes`: the list handed to the pods. */
  function BuildArrayIndexes(indexes: seq<int>): string {
    Join(FormatAll(indexes), ',')
  }

  function FormatAll(indexes: seq<int>): seq<string> {
    seq(|indexes|, k requires 0 <= k < |indexes| => FormatInt(indexes[k]))
  }

  /** Every index list a flag can denote. */
  ghost predicate IsIndexList(s: seq<int>) {
    s != [] && StrictlyIncreasing(s) && forall k :: 0 <= k < |s| ==> 0 <= s[k] <= MAX_INT32
  }

  lemma MeaningIsIndexList(str: string)
    requires Meaning(str).Some? && RangeFits(str)
    ensures IsIndexList(Meaning(str).value.indexes)
    ensures Meaning(str).value.step.GetOr(1) >= 1 && Meaning(str).value.parallelism.GetOr(1) >= 1
  {
    if CommaFormat(str) {
      var parts := Split(str, ',');
      forall k | 0 <= k < |parts| ensures 0 <= Values(parts)[k] <= MAX_INT32 {
        ParseDigits(parts[k]);
      }
    } else {
      var r := RangeOf(str).value;
      ProgressionIncreasing(r.from, r.to, r.step);
      ProgressionBounds(r.from, r.to, r.step);
    }
  }

  /** Count, least and greatest index of a range, in closed form. */
  lemma ProgressionBounds(from: int, to: int, step: int)
    requires from <= to && step >= 1
    ensures var s := Progression(from, to, step);
      && |s| == (to - from) / step + 1
      && s[0] == from && Min(s) == from
      && s[|s| - 1] == LastIndex(from, to, step) && Max(s) == LastIndex(from, to, step)
      && forall k :: 0 <= k < |s| ==> from <= s[k] <= to
  {
    var s := Progression(from, to, step);
    Divide(to - from, step, 0);
    ProgressionIncreasing(from, to, step);
    IncreasingEnds(s);
    assert s[0] in s && s[|s| - 1] in s;
  }

  lemma IncreasingEnds(s: seq<int>)
    requires s != [] && StrictlyIncreasing(s)
    ensures Min(s) == s[0] && Max(s) == s[|s| - 1]
  {
    assert s[0] in s && s[|s| - 1] in s;
  }

  /** Sorting gives increasing numbers back, in whatever order the set listed them. */
  lemma AnyOrderSorts(list: seq<int>, numbers: seq<int>)
    requires StrictlyIncreasing(numbers) && multiset(list) == multiset(numbers)
    ensures Sort(list) == numbers
  {
    IncreasingIsSorted(numbers);
    SortedUnique(Sort(list), numbers);
  }

  // ---- printing and parsing ----

  lemma FormatAllParts(s: seq<int>)
    requires IsIndexList(s)
    ensures CommaParts(FormatAll(s)) && AllFit(FormatAll(s)) && Values(FormatAll(s)) == s
  {
    var parts := FormatAll(s);
    forall k | 0 <= k < |s|
      ensures IsDigits(parts[k]) && (k >= 1 ==> IsPositiveNumeral(parts[k])) && ParseInt32(parts[k]) == Some(s[k])
    {
      ParseFormat(s[k]);
      FormatLeadingDigit(s[k]);
      assert k >= 1 ==> s[k] > s[0];
    }
  }

  /** Printing an index list and parsing it again gives the same list. */
  lemma ParsePrinted(s: seq<int>)
    requires IsIndexList(s)
    ensures RangeFits(BuildArrayIndexes(s))
    ensures Meaning(BuildArrayIndexes(s)) == Some(ArrayIndexes(s, None, None))
  {
    FormatAllParts(s);
    CommaPartsSplit(FormatAll(s));
  }

  /** The round trip for whatever the parser accepts. */
  lemma RoundTrip(str: string)
    requires RangeFits(str) && Meaning(str).Some?
    ensures var printed := BuildArrayIndexes(Meaning(str).value.indexes);
      RangeFits(printed) && Meaning(printed) == Some(ArrayIndexes(Meaning(str).value.indexes, None, None))
  {
    MeaningIsIndexList(str);
    ParsePrinted(Meaning(str).value.indexes);
  }

  /** A list of numbers comes back as written exactly when its first number has no extra leading zero. */
  lemma PrintParsedList(str: string)
    requires CommaFormat(str) && Meaning(str).Some?
    ensures BuildArrayIndexes(Meaning(str).value.indexes) == str <==>
            Split(str, ',')[0] == "0" || str[0] != '0'
  {
    var parts := Split(str, ',');
    var printed := FormatAll(Values(parts));
    assert parts[0][0] == str[0];
    forall k | 0 <= k < |parts| ensures printed[k] == parts[k] <==> parts[k] == "0" || parts[k][0] != '0' {
      ParseDigits(parts[k]);
      FormatValue(parts[k]);
    }
    MeaningIsIndexList(str);
    FormatAllParts(Values(parts));
    CommaPartsSplit(printed);
    assert printed == parts <==> forall k :: 0 <= k < |parts| ==> printed[k] == parts[k];
  }

  /** A range with a step, written out. */
  function RangeFlag(from: nat, to: nat, step: nat): string {
    FormatNat(from) + ['-'] + FormatNat(to) + [':'] + FormatNat(step)
  }

  /** Every range can be written, and is read as what it says. */
  lemma RangeFlagRead(from: nat, to: nat, step: nat)
    requires IsRange(from, to, step) && to >= 1
    ensures !CommaFormat(RangeFlag(from, to, step))
    ensures RangeOf(RangeFlag(from, to, step)) == Some(Range(from, to, step, Some((':', step))))
  {
    WrittenRead(from, to, Some((':', step)));
    WrittenTexts(from, to, step);
  }

  function WrittenMatch(from: nat, to: nat, suffix: Option<(char, nat)>): RangeMatch {
    RangeMatch(FormatNat(from), FormatNat(to),
               if suffix.Some? then Some((suffix.value.0, FormatNat(suffix.value.1))) else None)
  }

  lemma WrittenRead(from: nat, to: nat, suffix: Option<(char, nat)>)
    requires to >= 1
    requires suffix.Some? ==> suffix.value.0 in {':', '%'} && suffix.value.1 >= 1
    ensures var flag := RangeText(WrittenMatch(from, to, suffix));
      && !CommaFormat(flag)
      && RangeOf(flag) ==
         if from <= to <= MAX_INT32 && (suffix.Some? ==> suffix.value.1 <= MAX_INT32)
         then Some(Range(from, to, if suffix.Some? && suffix.value.0 == ':' then suffix.value.1 else 1, suffix))
         else None
  {
    var m := WrittenMatch(from, to, suffix);
    WrittenNumber(from);
    WrittenNumber(to);
    if suffix.Some? {
      WrittenNumber(suffix.value.1);
    }
    MatchRangeExact(RangeText(m), m);
    assert RangeText(m)[|m.first|] == '-';
    NoDashInList(RangeText(m));
  }

  lemma WrittenNumber(n: nat)
    ensures IsDigits(FormatNat(n)) && (n >= 1 ==> IsPositiveNumeral(FormatNat(n)))
    ensures ParseInt32(FormatNat(n)) == if n <= MAX_INT32 then Some(n) else None
  {
    ValueOfFormat(n);
    FormatLeadingDigit(n);
    ParseDigits(FormatNat(n));
  }

  /** Every `step`th number from `from` up to `to`. */
  predicate Lists(s: seq<int>, from: int, to: int, step: int) {
    && s != [] && s[0] == from
    && (forall k :: 0 < k < |s| ==> s[k] == s[k - 1] + step)
    && s[|s| - 1] <= to < s[|s| - 1] + step
  }

  lemma ProgressionLists(from: int, to: int, step: int)
    requires from <= to && step >= 1
    ensures Lists(Progression(from, to, step), from, to, step)
  {
    var s := Progression(from, to, step);
    forall k | 0 < k < |s| ensures s[k] == s[k - 1] + step {
      OneMore(k - 1, step);
    }
    LastListed(from, to, step);
  }

  lemma LastListed(from: int, to: int, step: int)
    requires from <= to && step >= 1
    ensures var s := Progression(from, to, step); s[0] == from && s[|s| - 1] == LastIndex(from, to, step)
  {
    Divide(to - from, step, 0);
  }

  /**
   The three forms of a range, as written: `from-to` lists every number, `from-to:n` every
   nth one and reports the step, `from-to%n` every number and runs n at a time.
   */
  lemma WrittenRanges(from: nat, to: nat, n: nat)
    requires from <= to <= MAX_INT32 && to >= 1 && 1 <= n <= MAX_INT32
    ensures var r := Meaning(FormatNat(from) + ['-'] + FormatNat(to));
      r.Some? && Lists(r.value.indexes, from, to, 1) && r.value.step == None && r.value.parallelism == None
    ensures var r := Meaning(FormatNat(from) + ['-'] + FormatNat(to) + [':'] + FormatNat(n));
      r.Some? && Lists(r.value.indexes, from, to, n) && r.value.step == Some(n) && r.value.parallelism == None
    ensures var r := Meaning(FormatNat(from) + ['-'] + FormatNat(to) + ['%'] + FormatNat(n));
      r.Some? && Lists(r.value.indexes, from, to, 1) && r.value.step == None && r.value.parallelism == Some(n)
  {
    WrittenTexts(from, to, n);
    WrittenRead(from, to, None);
    WrittenRead(from, to, Some((':', n)));
    WrittenRead(from, to, Some(('%', n)));
    ProgressionLists(from, to, 1);
    ProgressionLists(from, to, n);
  }

  lemma WrittenTexts(from: nat, to: nat, n: nat)
    ensures RangeText(WrittenMatch(from, to, None)) == FormatNat(from) + ['-'] + FormatNat(to)
    ensures RangeText(WrittenMatch(from, to, Some((':', n)))) ==
            FormatNat(from) + ['-'] + FormatNat(to) + [':'] + FormatNat(n)
    ensures RangeText(WrittenMatch(from, to, Some(('%', n)))) ==
            FormatNat(from) + ['-'] + FormatNat(to) + ['%'] + FormatNat(n)
  {
    var ends := FormatNat(from) + ['-'] + FormatNat(to);
    assert ends + "" == ends;
    Assoc(ends, [':'], FormatNat(n));
    Assoc(ends, ['%'], FormatNat(n));
  }

  /** A range with its bounds exchanged, or with a number that is no int32, has no meaning. */
  lemma WrongRanges(from: nat, to: nat, n: nat)
    requires to >= 1 && n >= 1
    ensures from > to || to > MAX_INT32 ==> Meaning(FormatNat(from) + ['-'] + FormatNat(to)) == None
    ensures from > to || to > MAX_INT32 || n > MAX_INT32 ==>
              && Meaning(FormatNat(from) + ['-'] + FormatNat(to) + [':'] + FormatNat(n)) == None
              && Meaning(FormatNat(from) + ['-'] + FormatNat(to) + ['%'] + FormatNat(n)) == None
  {
    WrittenTexts(from, to, n);
    WrittenRead(from, to, None);
    WrittenRead(from, to, Some((':', n)));
    WrittenRead(from, to, Some(('%', n)));
  }

  lemma NoDashInList(str: string)
    requires '-' in str
    ensures !CommaFormat(str)
  {
    assert Join(Split(str, ','), ',') == str;
    JoinChars(Split(str, ','), ',', '-');
    var part :| part in Split(str, ',') && '-' in part;
    assert !IsDigits(part);
  }

  /**
   The pod with completion index `k` reads the `k`th field of the printed list: the pods of
   the job take every requested index exactly once.
   */
  lemma TaskIds(s: seq<int>)
    requires IsIndexList(s)
    ensures var fields := Split(BuildArrayIndexes(s), ',');
      && |fields| == |s|
      && (forall k :: 0 <= k < |s| ==> ParseInt32(fields[k]) == Some(s[k]))
      && (forall j, k :: 0 <= j < k < |s| ==> fields[j] != fields[k])
  {
    FormatAllParts(s);
    CommaPartsSplit(FormatAll(s));
  }

  // ---- how many indexes there can be ----

  /** Every int32 from 0 on. */
  ghost predicate IsEverything(s: seq<int>) {
    |s| == MAX_INT32 + 1 && forall k :: 0 <= k < |s| ==> s[k] == k
  }

  lemma {:induction false} IndexAtLeast(s: seq<int>, k: nat)
    requires IsIndexList(s) && k < |s|
    ensures s[k] >= k
  {
    if k > 0 {
      IndexAtLeast(s, k - 1);
    }
  }

  lemma {:induction false} IndexAtMost(s: seq<int>, k: nat)
    requires IsIndexList(s) && k < |s|
    ensures s[k] <= MAX_INT32 - (|s| - 1 - k)
    decreases |s| - k
  {
    if k < |s| - 1 {
      IndexAtMost(s, k + 1);
    }
  }

  lemma ListCount(s: seq<int>)
    requires IsIndexList(s)
    ensures |s| <= MAX_INT32 <==> !IsEverything(s)
  {
    IndexAtLeast(s, |s| - 1);
    if |s| == MAX_INT32 + 1 {
      forall k | 0 <= k < |s| ensures s[k] == k {
        IndexAtLeast(s, k);
        IndexAtMost(s, k);
      }
    }
  }

  lemma RangeCount(from: int, to: int, step: int)
    requires IsRange(from, to, step) && LastIndex(from, to, step) + step <= MAX_INT32
    ensures |Progression(from, to, step)| <= MAX_INT32
  {
    Divide(to - from, step, 0);
    Scaled(0, (to - from) / step, step - 1);
    Distribute(step, 1, (to - from) / step);
  }

  /** The number of indexes is an int32 for every flag but the list of all int32 from 0 on. */
  lemma CountIsInt32(str: string)
    requires RangeFits(str) && Meaning(str).Some?
    ensures var s := Meaning(str).value.indexes;
      && (|s| <= MAX_INT32 <==> !IsEverything(s))
      && (!CommaFormat(str) ==> |s| <= MAX_INT32)
  {
    MeaningIsIndexList(str);
    ListCount(Meaning(str).value.indexes);
    if !CommaFormat(str) {
      var r := RangeOf(str).value;
      RangeCount(r.from, r.to, r.step);
    }
  }
}

/** The `--array` flag: two grammars, the indexes they denote, and the printer of index lists. */
module ArrayIndexes {
  import opened Wrappers
  import opened Text
  import opened Decimal
  import opened Ranges

  datatype ArrayIndexes = ArrayIndexes(indexes: seq<int>, step: Option<int>, parallelism: Option<int>)

  // ---- the comma grammar ^[0-9]\d*(,[1-9]\d*)*$ ----

  predicate CommaParts(parts: seq<string>) {
    parts != [] && IsDigits(parts[0]) && forall k | 1 <= k < |parts| :: IsPositiveNumeral(parts[k])
  }

  predicate CommaFormat(str: string) {
    CommaParts(Split(str, ','))
  }

  /** A numeral list is matched when it can be written with commas in between, and only then. */
  lemma CommaFormatIsGrammar(str: string)
    ensures CommaFormat(str) <==> exists parts :: CommaParts(parts) && Join(parts, ',') == str
  {
    if parts :| CommaParts(parts) && Join(parts, ',') == str {
      CommaPartsSplit(parts);
    }
    assert Join(Split(str, ','), ',') == str;
  }

  /** Digits only: a run of digits. */
  predicate DigitsOnly(s: string) {
    s != "" && forall i | 0 <= i < |s| :: '0' <= s[i] <= '9'
  }

  /** The list grammar: runs of digits between commas, all but the first without a leading zero. */
  lemma ListsMean(parts: seq<string>)
    requires forall k :: 0 <= k < |parts| ==> ',' !in parts[k]
    requires parts != []
    ensures CommaFormat(Join(parts, ',')) <==>
            (forall k :: 0 <= k < |parts| ==> DigitsOnly(parts[k])) && forall k :: 1 <= k < |parts| ==> parts[k][0] != '0'
  {
    forall p | p in parts ensures ',' !in p {
      var k :| 0 <= k < |parts| && parts[k] == p;
    }
    SplitJoin(parts, ',');
    forall k | 0 <= k < |parts|
      ensures IsDigits(parts[k]) <==> DigitsOnly(parts[k])
      ensures IsPositiveNumeral(parts[k]) <==> DigitsOnly(parts[k]) && parts[k][0] != '0'
    {
      NumeralsMean(parts[k]);
    }
  }

  /** The range grammar: two runs of digits, and perhaps a separator with a third, only the first may start with zero. */
  lemma RangesMean(m: RangeMatch)
    ensures MatchRange(RangeText(m)) == Some(m) <==>
            && DigitsOnly(m.first) && DigitsOnly(m.last) && m.last[0] != '0'
            && (m.suffix.Some? ==>
                  && (m.suffix.value.0 == ':' || m.suffix.value.0 == '%')
                  && DigitsOnly(m.suffix.value.1) && m.suffix.value.1[0] != '0')
  {
    MatchRangeExact(RangeText(m), m);
    NumeralsMean(m.first);
    NumeralsMean(m.last);
    if m.suffix.Some? {
      NumeralsMean(m.suffix.value.1);
    }
  }

  lemma CommaPartsSplit(parts: seq<string>)
    requires CommaParts(parts)
    ensures Split(Join(parts, ','), ',') == parts
  {
    forall p | p in parts ensures ',' !in p {
      var k :| 0 <= k < |parts| && parts[k] == p;
      assert IsDigits(parts[k]);
    }
    SplitJoin(parts, ',');
  }

  // ---- the range grammar (^[0-9]\d*-[1-9]\d*)(([:%])([1-9]\d*))?$ ----

  /** The submatches: both ends, and the separator with its number if there is one. */
  datatype RangeMatch = RangeMatch(first: string, last: string, suffix: Option<(char, string)>)

  function RangeText(m: RangeMatch): string {
    m.first + ['-'] + m.last + SuffixText(m)
  }

  predicate IsRangeMatch(m: RangeMatch) {
    && IsDigits(m.first)
    && IsPositiveNumeral(m.last)
    && (m.suffix.Some? ==> m.suffix.value.0 in {':', '%'} && IsPositiveNumeral(m.suffix.value.1))
  }

  function MatchRange(str: string): Option<RangeMatch> {
    var n := DigitRun(str);
    if n == 0 || n == |str| || str[n] != '-' then None else MatchLast(str[..n], str[n + 1..])
  }

  /** The match after the dash. */
  function MatchLast(first: string, rest: string): Option<RangeMatch> {
    var k := DigitRun(rest);
    if !IsPositiveNumeral(rest[..k]) then None
    else if k == |rest| then Some(RangeMatch(first, rest, None))
    else if rest[k] in {':', '%'} && IsPositiveNumeral(rest[k + 1..]) then
      Some(RangeMatch(first, rest[..k], Some((rest[k], rest[k + 1..]))))
    else None
  }

  function SuffixText(m: RangeMatch): string {
    match m.suffix case None => "" case Some((sep, num)) => [sep] + num
  }

  /** The matcher finds the one way to read a text as a range, if there is one. */
  lemma MatchRangeExact(str: string, m: RangeMatch)
    ensures MatchRange(str) == Some(m) <==> IsRangeMatch(m) && RangeText(m) == str
  {
    if MatchRange(str) == Some(m) {
      MatchRangeSound(str, m);
    }
    if IsRangeMatch(m) && RangeText(m) == str {
      MatchRangeComplete(m);
    }
  }

  lemma MatchRangeSound(str: string, m: RangeMatch)
    requires MatchRange(str) == Some(m)
    ensures IsRangeMatch(m) && RangeText(m) == str
  {
    var n := DigitRun(str);
    var rest := str[n + 1..];
    CutAt(str, n);
    SuffixSound(rest, m);
    Assoc(m.first + ['-'], m.last, SuffixText(m));
  }

  lemma SuffixSound(rest: string, m: RangeMatch)
    requires var k := DigitRun(rest);
      || (k == |rest| && m.last == rest && m.suffix == None)
      || (k < |rest| && m.last == rest[..k] && m.suffix == Some((rest[k], rest[k + 1..])))
    ensures m.last + SuffixText(m) == rest
  {
    var k := DigitRun(rest);
    if k < |rest| {
      CutAt(rest, k);
      Assoc(rest[..k], [rest[k]], rest[k + 1..]);
    }
  }

  lemma MatchRangeComplete(m: RangeMatch)
    requires IsRangeMatch(m)
    ensures MatchRange(RangeText(m)) == Some(m)
  {
    var rest := m.last + SuffixText(m);
    RangeTextParts(m);
    DigitRunOf(m.first, ['-'] + rest);
    MatchLastComplete(m);
  }

  lemma MatchLastComplete(m: RangeMatch)
    requires IsRangeMatch(m)
    ensures MatchLast(m.first, m.last + SuffixText(m)) == Some(m)
  {
    RangeTextParts(m);
    DigitRunOf(m.last, SuffixText(m));
  }

  lemma RangeTextParts(m: RangeMatch)
    ensures var str, rest, n, k := RangeText(m), m.last + SuffixText(m), |m.first|, |m.last|;
      && str == m.first + (['-'] + rest) && str[..n] == m.first && str[n] == '-' && str[n + 1..] == rest
      && rest[..k] == m.last
      && (m.suffix.None? ==> rest == m.last)
      && (m.suffix.Some? ==> rest[k] == m.suffix.value.0 && rest[k + 1..] == m.suffix.value.1)
  {
    Assoc(m.first + ['-'], m.last, SuffixText(m));
    Assoc(m.first, ['-'], m.last + SuffixText(m));
  }

  // ---- what a flag denotes ----

  ghost predicate StrictlyIncreasing(s: seq<int>) {
    forall i, j :: 0 <= i < j < |s| ==> s[i] < s[j]
  }

  predicate AllFit(parts: seq<string>) {
    forall k | 0 <= k < |parts| :: ParseInt32(parts[k]).Some?
  }

  function Values(parts: seq<string>): seq<int>
    requires AllFit(parts)
  {
    seq(|parts|, k requires 0 <= k < |parts| => ParseInt32(parts[k]).value)
  }

  /** The indexes of both ends and the step, when all three fit an int32. */
  datatype Range = Range(from: int, to: int, step: int, suffix: Option<(char, int)>)

  function RangeOf(str: string): (r: Option<Range>)
    ensures r.Some? ==> IsRange(r.value.from, r.value.to, r.value.step)
    ensures r.Some? && r.value.suffix.Some? ==> r.value.suffix.value.1 >= 1
  {
    var m := MatchRange(str);
    if m.None? then None
    else
      MatchRangeExact(str, m.value);
      ParseDigits(m.value.first);
      var from, to := ParseInt32(m.value.first), ParseInt32(m.value.last);
      if from.None? || to.None? || from.value > to.value then None
      else if m.value.suffix.None? then Some(Range(from.value, to.value, 1, None))
      else
        var (sep, digits) := m.value.suffix.value;
        ParseDigits(digits);
        ValuePositive(digits);
        var num := ParseInt32(digits);
        if num.None? then None
        else Some(Range(from.value, to.value, if sep == ':' then num.value else 1, Some((sep, num.value))))
  }

  /** The int32 loop over the range does not wrap around. */
  predicate RangeFits(str: string) {
    !CommaFormat(str) && RangeOf(str).Some? ==>
      var r := RangeOf(str).value; LastIndex(r.from, r.to, r.step) + r.step <= MAX_INT32
  }

  /** The int32 loop over the range ends. */
  ghost predicate RangeEnds(str: string) {
    !CommaFormat(str) && RangeOf(str).Some? ==>
      var r := RangeOf(str).value; LoopEnds(r.from, r.to, r.step)
  }

  lemma FittingRangeEnds(str: string)
    ensures RangeFits(str) ==> RangeEnds(str)
  {
    if !CommaFormat(str) && RangeOf(str).Some? {
      var r := RangeOf(str).value;
      RangeLoopExact(r.from, r.to, r.step);
    }
  }

  /** What the flag denotes; None stands for the one error, an invalid array flag format. */
  ghost function Meaning(str: string): Option<ArrayIndexes> {
    if CommaFormat(str) then
      var parts := Split(str, ',');
      if AllFit(parts) && StrictlyIncreasing(Values(parts)) then Some(ArrayIndexes(Values(parts), None, None))
      else None
    else
      match RangeOf(str)
      case None => None
      case Some(r) =>
        Some(ArrayIndexes(
               Progression(r.from, r.to, r.step),
               if r.suffix.Some? && r.suffix.value.0 == ':' then Some(r.suffix.value.1) else None,
               if r.suffix.Some? && r.suffix.value.0 == '%' then Some(r.suffix.value.1) else None))
  }

  // ---- sorting ----

  ghost predicate Sorted(s: seq<int>) {
    forall i, j :: 0 <= i < j < |s| ==> s[i] <= s[j]
  }

  function InsertPosition(x: int, s: seq<int>): (k: nat)
    ensures k <= |s|
    ensures forall i :: 0 <= i < k ==> s[i] < x
    ensures k < |s| ==> x <= s[k]
  {
    if s == [] || x <= s[0] then 0 else InsertPosition(x, s[1..]) + 1
  }

  function Insert(x: int, s: seq<int>): (r: seq<int>)
    ensures multiset(r) == multiset{x} + multiset(s)
    ensures Sorted(s) ==> Sorted(r)
  {
    var k := InsertPosition(x, s);
    InsertMultiset(x, s, k);
    InsertSorted(x, s, k);
    s[..k] + [x] + s[k..]
  }

  lemma InsertMultiset(x: int, s: seq<int>, k: nat)
    requires k <= |s|
    ensures multiset(s[..k] + [x] + s[k..]) == multiset{x} + multiset(s)
  {
    assert s == s[..k] + s[k..];
  }

  lemma InsertSorted(x: int, s: seq<int>, k: nat)
    requires k <= |s|
    requires forall i :: 0 <= i < k ==> s[i] < x
    requires k < |s| ==> x <= s[k]
    ensures Sorted(s) ==> Sorted(s[..k] + [x] + s[k..])
  {
    var r := s[..k] + [x] + s[k..];
    assert forall i :: 0 <= i < |r| ==> r[i] == if i < k then s[i] else if i == k then x else s[i - 1];
  }

  /** `slices.Sort`. */
  function Sort(s: seq<int>): (r: seq<int>)
    ensures Sorted(r) && multiset(r) == multiset(s)
  {
    if s == [] then []
    else
      assert s == [s[0]] + s[1..];
      Insert(s[0], Sort(s[1..]))
  }

  lemma HeadIsLeast(a: seq<int>, b: seq<int>)
    requires Sorted(a) && multiset(a) == multiset(b) && b != []
    ensures a != [] && a[0] <= b[0]
  {
    assert b[0] in multiset(a);
    assert b[0] in a;
  }

  lemma HeadRemoved(s: seq<int>)
    requires s != []
    ensures multiset(s[1..]) == multiset(s) - multiset{s[0]}
  {
    assert s == [s[0]] + s[1..];
  }

  /** A multiset has one sorted order. */
  lemma {:induction false} SortedUnique(a: seq<int>, b: seq<int>)
    requires Sorted(a) && Sorted(b) && multiset(a) == multiset(b)
    ensures a == b
  {
    if a == [] {
      assert |multiset(b)| == 0;
    } else {
      assert a[0] in multiset(b);
      HeadIsLeast(a, b);
      HeadIsLeast(b, a);
      HeadRemoved(a);
      HeadRemoved(b);
      SortedUnique(a[1..], b[1..]);
      assert a == [a[0]] + a[1..] && b == [b[0]] + b[1..];
    }
  }

  ghost predicate Distinct<T>(s: seq<T>) {
    forall i, j :: 0 <= i < j < |s| ==> s[i] != s[j]
  }

  /** A list without repetition has each member of its set once. */
  lemma {:induction false} DistinctMultiset<T>(s: seq<T>, elements: set<T>)
    requires Distinct(s)
    requires forall x :: x in elements <==> x in s
    ensures multiset(s) == multiset(elements)
  {
    if s == [] {
      assert elements == {};
    } else {
      var front, last := s[..|s| - 1], s[|s| - 1];
      assert s == front + [last];
      assert last in s && last !in front;
      DistinctMultiset(front, elements - {last});
      assert elements == (elements - {last}) + {last};
    }
  }

  /** `Set.UnsortedList`: the elements in an order nobody promises. */
  method UnsortedList<T(==)>(s: set<T>) returns (list: seq<T>)
    ensures multiset(list) == multiset(s)
  {
    list := [];
    var rest := s;
    while rest != {}
      invariant rest <= s
      invariant multiset(list) + multiset(rest) == multiset(s)
      decreases rest
    {
      var x :| x in rest;
      list := list + [x];
      rest := rest - {x};
    }
  }

  // ---- the code ----

  /** Both ends of a range, when they are two int32 numbers in order. */
  function RangeBounds(str: string): (r: Option<(int, int)>)
    ensures r.Some? ==> MIN_INT32 <= r.value.0 <= r.value.1 <= MAX_INT32
  {
    var parts := Split(str, '-');
    if |parts| == 2 && ParseInt32(parts[0]).Some? && ParseInt32(parts[1]).Some?
       && ParseInt32(parts[0]).value <= ParseInt32(parts[1]).value
    then Some((ParseInt32(parts[0]).value, ParseInt32(parts[1]).value))
    else None
  }

  method ParseRangeIndexes(str: string, step: Option<int>) returns (r: Option<seq<int>>)
    requires RangeBounds(str).Some? && step.GetOr(1) >= 1 ==>
               LoopEnds(RangeBounds(str).value.0, RangeBounds(str).value.1, step.GetOr(1))
    ensures r == if step.GetOr(1) >= 1 && RangeBounds(str).Some?
                 then Some(LoopIndexes(RangeBounds(str).value.0, RangeBounds(str).value.1, step.GetOr(1)))
                 else None
  {
    var stride := step.GetOr(1);
    if stride <= 0 {
      return None;
    }
    var parts := Split(str, '-');
    if |parts| != 2 {
      return None;
    }
    var first := ParseInt32(parts[0]);
    if first.None? {
      return None;
    }
    var last := ParseInt32(parts[1]);
    if last.None? {
      return None;
    }
    var from, to := first.value, last.value;
    if from > to {
      return None;
    }
    var indexes: seq<int> := [];
    var i := from;
    ghost var fuel: nat :| RangeLoop(from, to, stride, fuel).Some?;
    LoopIndexesAre(from, to, stride, fuel);
    while i <= to
      invariant RangeLoop(i, to, stride, fuel).Some?
      invariant indexes + RangeLoop(i, to, stride, fuel).value == LoopIndexes(from, to, stride)
      decreases fuel
    {
      RoundListed(indexes, i, to, stride, fuel);
      indexes := indexes + [i];
      i := Wrap32(i + stride);
      fuel := fuel - 1;
    }
    assert indexes + [] == indexes;
    return Some(indexes);
  }

  /** One round of the loop moves one index to the list. */
  lemma RoundListed(indexes: seq<int>, i: int, to: int, step: int, fuel: nat)
    requires i <= to && RangeLoop(i, to, step, fuel).Some?
    ensures fuel > 0 && RangeLoop(Wrap32(i + step), to, step, fuel - 1).Some?
    ensures indexes + RangeLoop(i, to, step, fuel).value ==
            indexes + [i] + RangeLoop(Wrap32(i + step), to, step, fuel - 1).value
  {
  }

  /** The numbers of the parts read so far, found to be increasing. */
  ghost predicate Reads(parts: seq<string>, read: seq<nat>) {
    && |read| <= |parts|
    && (forall j :: 0 <= j < |read| ==> ParseInt32(parts[j]) == Some(read[j]))
    && StrictlyIncreasing(read)
  }

  method ParseCommaSeparatedIndexes(str: string) returns (r: Option<seq<int>>)
    requires CommaFormat(str)
    ensures var parts := Split(str, ',');
      r.Some? <==> AllFit(parts) && StrictlyIncreasing(Values(parts))
    ensures r.Some? ==> multiset(r.value) == multiset(Values(Split(str, ',')))
  {
    var strIndexes := Split(str, ',');
    var maxValue := -1;
    var elements: set<nat> := {};
    ghost var read: seq<nat> := [];
    for k := 0 to |strIndexes|
      invariant |read| == k && Reads(strIndexes, read)
      invariant maxValue == if read == [] then -1 else read[|read| - 1]
      invariant forall x :: x in elements <==> x in read
    {
      ParseDigits(strIndexes[k]);
      var num := ParseInt32(strIndexes[k]);
      if num.None? {
        return None;
      }
      var index := num.value;
      InSetIsMax(read, elements, index);
      if index < maxValue {
        NotIncreasing(strIndexes, read, index);
        return None;
      }
      if index in elements {
        NotIncreasing(strIndexes, read, index);
        return None;
      }
      ReadNext(strIndexes, read, index);
      elements := elements + {index};
      maxValue := index;
      read := read + [index];
    }
    AllRead(strIndexes, read, elements);
    var list := UnsortedList(elements);
    return Some(list);
  }

  /** Past the check against the greatest index, "already in the set" is "equal to the greatest". */
  lemma InSetIsMax(read: seq<nat>, elements: set<nat>, index: nat)
    requires StrictlyIncreasing(read)
    requires forall x :: x in elements <==> x in read
    ensures read == [] ==> index !in elements
    ensures read != [] && read[|read| - 1] <= index ==> (index in elements <==> index == read[|read| - 1])
  {
    if read != [] {
      assert read[|read| - 1] in read;
      assert index in read ==> index <= read[|read| - 1];
    }
  }

  lemma ReadNext(parts: seq<string>, read: seq<nat>, index: nat)
    requires Reads(parts, read) && |read| < |parts| && ParseInt32(parts[|read|]) == Some(index)
    requires read == [] || read[|read| - 1] < index
    ensures Reads(parts, read + [index])
  {
    assert forall j :: 0 <= j < |read| ==> read[j] <= read[|read| - 1];
  }

  lemma AllRead(parts: seq<string>, read: seq<nat>, elements: set<nat>)
    requires Reads(parts, read) && |read| == |parts|
    requires forall x :: x in elements <==> x in read
    ensures AllFit(parts) && StrictlyIncreasing(Values(parts))
    ensures multiset(elements) == multiset(Values(parts))
  {
    assert Values(parts) == read;
    DistinctMultiset(read, elements);
  }

  lemma NotIncreasing(parts: seq<string>, read: seq<nat>, index: nat)
    requires Reads(parts, read) && read != [] && |read| < |parts|
    requires ParseInt32(parts[|read|]) == Some(index) && index <= read[|read| - 1]
    ensures !(AllFit(parts) && StrictlyIncreasing(Values(parts)))
  {
    if AllFit(parts) {
      var k := |read|;
      assert Values(parts)[k - 1] >= Values(parts)[k];
    }
  }

  /** The loop has wrapped around: the sorted indexes are those it listed, a negative one first. */
  ghost predicate Overran(str: string, parsed: ArrayIndexes) {
    && !CommaFormat(str) && RangeOf(str).Some? && RangeEnds(str)
    && var r := RangeOf(str).value;
       && parsed == Meaning(str).value.(indexes := Sort(LoopIndexes(r.from, r.to, r.step)))
       && parsed.indexes != [] && parsed.indexes[0] < 0
  }

  method ParseArrayIndexes(str: string) returns (r: Option<ArrayIndexes>)
    requires RangeEnds(str)
    ensures r == Meaning(str) <==> RangeFits(str)
    ensures !RangeFits(str) ==> r.Some? && Overran(str, r.value)
  {
    var indexes: Option<seq<int>>;
    var step, parallelism := None, None;
    if CommaFormat(str) {
      indexes := ParseCommaSeparatedIndexes(str);
      if indexes.Some? {
        IncreasingIsSorted(Values(Split(str, ',')));
        SortedUnique(Sort(indexes.value), Values(Split(str, ',')));
      }
    } else {
      var m := MatchRange(str);
      if m.None? {
        return None;
      }
      RangeRead(str, m.value);
      if m.value.suffix.Some? {
        var (sep, digits) := m.value.suffix.value;
        var num := ParseInt32(digits);
        if num.None? {
          return None;
        }
        if sep == ':' {
          step := Some(num.value);
        } else {
          parallelism := Some(num.value);
        }
      }
      assert step == SuffixNumber(m.value, ':') && parallelism == SuffixNumber(m.value, '%');
      indexes := ParseRangeIndexes(m.value.first + ['-'] + m.value.last, step);
      if indexes.Some? {
        SortedLoop(RangeOf(str).value);
      }
    }
    if indexes.None? {
      return None;
    }
    return Some(ArrayIndexes(Sort(indexes.value), step, parallelism));
  }

  /** Sorting leaves the indexes of a range alone, and brings an overrun's negative index to the front. */
  lemma SortedLoop(r: Range)
    requires IsRange(r.from, r.to, r.step) && LoopEnds(r.from, r.to, r.step)
    ensures var sorted := Sort(LoopIndexes(r.from, r.to, r.step));
      if LastIndex(r.from, r.to, r.step) + r.step <= MAX_INT32 then sorted == Progression(r.from, r.to, r.step)
      else sorted != [] && sorted[0] < 0 && sorted != Progression(r.from, r.to, r.step)
  {
    var s, p := LoopIndexes(r.from, r.to, r.step), Progression(r.from, r.to, r.step);
    RangeLoopExact(r.from, r.to, r.step);
    ProgressionIncreasing(r.from, r.to, r.step);
    IncreasingIsSorted(p);
    if s == p {
      SortedUnique(Sort(s), p);
    } else {
      LeastFirst(s, |p|);
    }
  }

  lemma LeastFirst(s: seq<int>, k: nat)
    requires k < |s|
    ensures Sort(s) != [] && Sort(s)[0] <= s[k]
  {
    SameMembers(Sort(s), s, s[k]);
    HeadOfSorted(Sort(s), s[k]);
  }

  lemma HeadOfSorted(s: seq<int>, x: int)
    requires Sorted(s) && x in s
    ensures s[0] <= x
  {
  }

  lemma SameMembers(a: seq<int>, b: seq<int>, x: int)
    requires multiset(a) == multiset(b) && x in b
    ensures x in a
  {
    assert x in multiset(b);
  }

  lemma IncreasingIsSorted(s: seq<int>)
    requires StrictlyIncreasing(s)
    ensures Sorted(s)
  {
  }

  lemma ProgressionIncreasing(from: int, to: int, step: int)
    requires from <= to && step >= 1
    ensures StrictlyIncreasing(Progression(from, to, step))
  {
    var s := Progression(from, to, step);
    forall i, j | 0 <= i < j < |s| ensures s[i] < s[j] {
      assert i * step < j * step by {
        assert j * step - i * step == (j - i) * step;
      }
    }
  }

  /** The number after the separator `sep`. */
  function SuffixNumber(m: RangeMatch, sep: char): Option<int> {
    if m.suffix.Some? && m.suffix.value.0 == sep then ParseInt32(m.suffix.value.1) else None
  }

  /** What the submatches say about the range. */
  lemma RangeRead(str: string, m: RangeMatch)
    requires MatchRange(str) == Some(m)
    ensures m.suffix.Some? ==> m.suffix.value.0 in {':', '%'}
    ensures m.suffix.Some? && ParseInt32(m.suffix.value.1).None? ==> RangeOf(str).None?
    ensures m.suffix.Some? ==> ParseInt32(m.suffix.value.1).GetOr(1) >= 1
    ensures m.suffix.None? || ParseInt32(m.suffix.value.1).Some? ==>
              match RangeBounds(m.first + ['-'] + m.last)
              case None => RangeOf(str).None?
              case Some((from, to)) =>
                RangeOf(str) == Some(Range(from, to, SuffixNumber(m, ':').GetOr(1),
                  if m.suffix.Some? then Some((m.suffix.value.0, ParseInt32(m.suffix.value.1).value)) else None))
  {
    RangeEndpoints(str, m);
  }

  /** The first submatch of the range expression splits at its dash into both ends. */
  lemma RangeEndpoints(str: string, m: RangeMatch)
    requires MatchRange(str) == Some(m)
    ensures IsRangeMatch(m)
    ensures Split(m.first + ['-'] + m.last, '-') == [m.first, m.last]
    ensures m.suffix.Some? && ParseInt32(m.suffix.value.1).Some? ==> ParseInt32(m.suffix.value.1).value >= 1
    ensures ParseInt32(m.first).Some? ==> ParseInt32(m.first).value >= 0
    ensures ParseInt32(m.last).Some? ==> ParseInt32(m.last).value >= 0
  {
    MatchRangeExact(str, m);
    ParseDigits(m.first);
    ParseDigits(m.last);
    var parts := [m.first, m.last];
    assert parts[1..] == [m.last];
    assert Join(parts, '-') == m.first + ['-'] + m.last;
    SplitJoin(parts, '-');
    if m.suffix.Some? {
      ParseDigits(m.suffix.value.1);
      ValuePositive(m.suffix.value.1);
    }
  }
}

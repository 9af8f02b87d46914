/**
 The parts of Go's `strings` package that the parsers rest on, over text that is a
 sequence of Unicode characters.
 */
module Text {

  /** `unicode.IsSpace`. */
  predicate IsSpace(c: char) {
    || '\t' <= c <= '\r'
    || c == ' ' || c == '\U{85}' || c == '\U{A0}' || c == '\U{1680}'
    || c == '\U{2028}' || c == '\U{2029}' || c == '\U{202F}' || c == '\U{205F}' || c == '\U{3000}'
    || '\U{2000}' <= c <= '\U{200A}'
  }

  /** Of the ASCII characters the space and the five from tab to carriage return. */
  lemma AsciiSpaces(c: char)
    requires c as int < 128
    ensures IsSpace(c) <==> c == ' ' || c == '\t' || c == '\n' || c == '\U{B}' || c == '\U{C}' || c == '\r'
  {
  }

  lemma Assoc(a: string, b: string, c: string)
    ensures a + (b + c) == a + b + c
  {
  }

  lemma CutAt(s: string, n: nat)
    requires n < |s|
    ensures s == s[..n] + [s[n]] + s[n + 1..]
  {
  }

  lemma LastApart(s: string, t: string)
    requires t != ""
    ensures s + t == s + t[..|t| - 1] + [t[|t| - 1]] && t == t[..|t| - 1] + [t[|t| - 1]]
  {
  }

  lemma PrefixNext<T>(s: seq<T>, i: int)
    requires 0 <= i < |s|
    ensures s[..i + 1] == s[..i] + [s[i]]
  {
  }

  function TrimLeft(s: string): (r: string)
    ensures |r| <= |s|
    ensures r == "" || !IsSpace(r[0])
    ensures forall c :: c in r ==> c in s
  {
    if s != "" && IsSpace(s[0]) then TrimLeft(s[1..]) else s
  }

  function TrimRight(s: string): (r: string)
    ensures r <= s
    ensures r == "" || !IsSpace(r[|r| - 1])
  {
    if s != "" && IsSpace(s[|s| - 1]) then TrimRight(s[..|s| - 1]) else s
  }

  /** Only white space is cut off at the end. */
  lemma {:induction false} TrimmedIsSpace(s: string, k: nat)
    requires |TrimRight(s)| <= k < |s|
    ensures IsSpace(s[k])
    decreases |s|
  {
    if k < |s| - 1 {
      TrimmedIsSpace(s[..|s| - 1], k);
    }
  }

  lemma {:induction false} TrimRightConcat(a: string, b: string)
    ensures TrimRight(a + b) == if TrimRight(b) == "" then TrimRight(a) else a + TrimRight(b)
    decreases |b|
  {
    if b == "" {
      assert a + b == a;
    } else if IsSpace(b[|b| - 1]) {
      assert (a + b)[..|a + b| - 1] == a + b[..|b| - 1];
      TrimRightConcat(a, b[..|b| - 1]);
    }
  }

  /** `strings.TrimSpace`. */
  function TrimSpace(s: string): (r: string)
    ensures |r| <= |s|
    ensures r == "" || (!IsSpace(r[0]) && !IsSpace(r[|r| - 1]))
    ensures forall c :: c in r ==> c in s
  {
    TrimRight(TrimLeft(s))
  }

  lemma {:induction false} TrimLeftRest(s: string)
    ensures TrimLeft(s) == s[|s| - |TrimLeft(s)|..]
    ensures forall i :: 0 <= i < |s| - |TrimLeft(s)| ==> IsSpace(s[i])
  {
    if s != "" && IsSpace(s[0]) {
      TrimLeftRest(s[1..]);
    }
  }

  /** Trimming cuts off the white space on both sides and nothing else. */
  lemma TrimSpaceMeans(before: string, text: string, after: string)
    requires forall i :: 0 <= i < |before| ==> IsSpace(before[i])
    requires forall i :: 0 <= i < |after| ==> IsSpace(after[i])
    requires text == "" || (!IsSpace(text[0]) && !IsSpace(text[|text| - 1]))
    ensures TrimSpace(before + text + after) == text
  {
    var s := before + text + after;
    TrimLeftRest(s);
    TrimLeftTo(before, text + after);
    assert s == before + (text + after);
    TrimRightTo(text, after);
    if text == "" {
      TrimLeftTo(after, "");
      assert after + "" == after && "" + after == after;
    }
  }

  lemma {:induction false} TrimLeftTo(before: string, rest: string)
    requires forall i :: 0 <= i < |before| ==> IsSpace(before[i])
    ensures TrimLeft(before + rest) == TrimLeft(rest)
  {
    if before == "" {
      assert before + rest == rest;
    } else {
      assert (before + rest)[1..] == before[1..] + rest;
      TrimLeftTo(before[1..], rest);
    }
  }

  lemma {:induction false} TrimRightTo(text: string, after: string)
    requires forall i :: 0 <= i < |after| ==> IsSpace(after[i])
    requires text == "" || !IsSpace(text[|text| - 1])
    ensures TrimRight(text + after) == text
  {
    if after == "" {
      assert text + after == text;
    } else {
      assert (text + after)[..|text + after| - 1] == text + after[..|after| - 1];
      TrimRightTo(text, after[..|after| - 1]);
    }
  }

  /** `strings.TrimRight(s, " ")`. */
  function TrimRightSpaces(s: string): (r: string)
    ensures r <= s
    ensures r == "" || r[|r| - 1] != ' '
    ensures s != "" && s[0] != ' ' ==> r != ""
  {
    if s != "" && s[|s| - 1] == ' ' then TrimRightSpaces(s[..|s| - 1]) else s
  }

  predicate OccursAt(s: string, sub: string, i: int) {
    0 <= i && i + |sub| <= |s| && s[i..i + |sub|] == sub
  }

  /** `strings.Index`: the first occurrence of `sub` in `s`, or -1. */
  function Index(s: string, sub: string): (i: int)
    ensures i >= 0 ==> OccursAt(s, sub, i) && forall j :: 0 <= j < i ==> !OccursAt(s, sub, j)
    ensures i < 0 ==> i == -1 && forall j :: !OccursAt(s, sub, j)
  {
    IndexFrom(s, sub, 0)
  }

  function IndexFrom(s: string, sub: string, from: nat): (i: int)
    requires forall j :: 0 <= j < from ==> !OccursAt(s, sub, j)
    ensures i >= 0 ==> OccursAt(s, sub, i) && forall j :: 0 <= j < i ==> !OccursAt(s, sub, j)
    ensures i < 0 ==> i == -1 && forall j :: !OccursAt(s, sub, j)
    decreases |s| - from
  {
    if |s| < from then -1
    else if OccursAt(s, sub, from) then from
    else IndexFrom(s, sub, from + 1)
  }

  /** `strings.Split` with a one-character separator. */
  function Split(s: string, sep: char): (parts: seq<string>)
    ensures |parts| >= 1
    ensures forall p :: p in parts ==> sep !in p
    ensures Join(parts, sep) == s
  {
    if s == "" then [""]
    else
      var rest := Split(s[1..], sep);
      if s[0] == sep then
        assert Join([""] + rest, sep) == [sep] + Join(rest, sep);
        [""] + rest
      else
        var parts := [[s[0]] + rest[0]] + rest[1..];
        assert Join(parts, sep) == [s[0]] + Join(rest, sep);
        parts
  }

  /** `strings.Join` with a one-character separator. */
  function Join(parts: seq<string>, sep: char): string {
    if parts == [] then ""
    else if |parts| == 1 then parts[0]
    else parts[0] + [sep] + Join(parts[1..], sep)
  }

  /** Splitting undoes joining when no part holds the separator. */
  lemma {:induction false} SplitJoin(parts: seq<string>, sep: char)
    requires parts != []
    requires forall p :: p in parts ==> sep !in p
    ensures Split(Join(parts, sep), sep) == parts
  {
    if |parts| == 1 {
      SplitWord(parts[0], sep);
    } else {
      SplitJoin(parts[1..], sep);
      SplitWordSep(parts[0], Join(parts[1..], sep), sep);
      assert parts[0] + [sep] + Join(parts[1..], sep) == parts[0] + ([sep] + Join(parts[1..], sep));
    }
  }

  lemma {:induction false} SplitWord(w: string, sep: char)
    requires sep !in w
    ensures Split(w, sep) == [w]
  {
    if w != "" {
      SplitWord(w[1..], sep);
      assert [w[0]] + w[1..] == w;
    }
  }

  lemma {:induction false} SplitWordSep(w: string, rest: string, sep: char)
    requires sep !in w
    ensures Split(w + ([sep] + rest), sep) == [w] + Split(rest, sep)
  {
    var s := w + ([sep] + rest);
    if w == "" {
      assert s == [sep] + rest;
      assert s[1..] == rest;
    } else {
      assert s[1..] == w[1..] + ([sep] + rest);
      SplitWordSep(w[1..], rest, sep);
      assert [w[0]] + w[1..] == w;
    }
  }

  /** A joined text followed by one more part. */
  lemma {:induction false} JoinSnoc(parts: seq<string>, last: string, sep: char)
    ensures Join(parts + [last], sep) == if parts == [] then last else Join(parts, sep) + [sep] + last
  {
    if |parts| >= 1 {
      var all := parts + [last];
      assert all[1..] == parts[1..] + [last];
      JoinSnoc(parts[1..], last, sep);
      if |parts| >= 2 {
        assert parts[0] + [sep] + (Join(parts[1..], sep) + [sep] + last)
            == parts[0] + [sep] + Join(parts[1..], sep) + [sep] + last;
      }
    }
  }

  lemma {:induction false} JoinConcat(a: seq<string>, b: seq<string>, sep: char)
    requires a != [] && b != []
    ensures Join(a + b, sep) == Join(a, sep) + [sep] + Join(b, sep)
  {
    assert (a + b)[1..] == a[1..] + b;
    if |a| > 1 {
      JoinConcat(a[1..], b, sep);
      assert a[0] + [sep] + (Join(a[1..], sep) + [sep] + Join(b, sep))
          == a[0] + [sep] + Join(a[1..], sep) + [sep] + Join(b, sep);
    } else {
      assert a[1..] + b == b;
    }
  }

  lemma SplitConcat(s: string, t: string, sep: char)
    ensures Split(s + [sep] + t, sep) == Split(s, sep) + Split(t, sep)
  {
    JoinConcat(Split(s, sep), Split(t, sep), sep);
    SplitJoin(Split(s, sep) + Split(t, sep), sep);
  }

  lemma {:induction false} JoinChars(parts: seq<string>, sep: char, c: char)
    requires c in Join(parts, sep)
    ensures c == sep || exists p :: p in parts && c in p
  {
    if |parts| == 1 {
      assert parts[0] in parts;
    } else if |parts| > 1 {
      if c !in parts[0] && c != sep {
        JoinChars(parts[1..], sep, c);
        var p :| p in parts[1..] && c in p;
        assert p in parts;
      } else {
        assert parts[0] in parts;
      }
    }
  }
}

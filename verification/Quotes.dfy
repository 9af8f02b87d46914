/**
 What quotes mean for the tokenizer, without its automaton: quotations are found by looking
 for the closing quote of each opening one, and a space separates two parts exactly when it
 stands in no quotation.
 */
module Quotes {
  import opened Text
  import opened Tokenizer

  /** An unescaped quote of either kind. */
  predicate IsQuote(s: string, i: int)
    requires 0 <= i < |s|
  {
    (s[i] == '"' || s[i] == '\'') && !Escaped(s, i)
  }

  /** From the opening quote to the closing one, or to the end of the text. */
  datatype Quotation = Quotation(open: nat, close: nat)

  /** `close` is the first unescaped quote after `open` of the same kind, if there is one. */
  ghost predicate IsQuotation(s: string, q: Quotation) {
    && q.open < q.close <= |s|
    && IsQuote(s, q.open)
    && (q.close < |s| ==> s[q.close] == s[q.open] && !Escaped(s, q.close))
    && forall j :: q.open < j < q.close ==> s[j] != s[q.open] || Escaped(s, j)
  }

  /** `qs` are the quotations of `s`: one after the other, and every unescaped quote belongs to one. */
  ghost predicate Quotations(s: string, qs: seq<Quotation>) {
    && (forall k :: 0 <= k < |qs| ==> IsQuotation(s, qs[k]))
    && Ordered(qs)
    && (forall j :: 0 <= j < |s| && IsQuote(s, j) ==> exists k :: Holds(qs, k, j))
  }

  /** Each quotation ends before the next one starts. */
  ghost predicate Ordered(qs: seq<Quotation>) {
    forall k, l :: 0 <= k < l < |qs| ==> qs[k].close < qs[l].open
  }

  ghost predicate InText(s: string, qs: seq<Quotation>) {
    forall k :: 0 <= k < |qs| ==> qs[k].open < |s|
  }

  predicate Holds(qs: seq<Quotation>, k: int, j: int) {
    0 <= k < |qs| && qs[k].open <= j <= qs[k].close
  }

  /** Position `i` stands between the quotes of a quotation. */
  ghost predicate InQuotation(qs: seq<Quotation>, i: int) {
    exists k :: Within(qs, k, i)
  }

  predicate Within(qs: seq<Quotation>, k: int, i: int) {
    0 <= k < |qs| && qs[k].open < i <= qs[k].close
  }

  /** The parts of `s` are cut apart at position `i`. */
  ghost predicate CutHere(s: string, i: int) {
    0 <= i < |s| && HasEnd(Tokens(s), i)
  }

  ghost predicate HasEnd(parts: seq<string>, i: int) {
    exists k :: EndsAt(parts, k, i)
  }

  /** The first `k` parts, with single spaces between them, have length `i`. */
  predicate EndsAt(parts: seq<string>, k: int, i: int) {
    1 <= k <= |parts| && |Join(parts[..k], ' ')| == i
  }

  // ---- cuts are the separators of the automaton ----

  lemma {:induction false} ScanEnds(s: string, i: int)
    requires 0 <= i < |s|
    ensures Splits(Run(s[..i]), s[i]) <==> HasEnd(Scan(s).parts, i)
    decreases |s|
  {
    var front, c, n := s[..|s| - 1], s[|s| - 1], |s| - 1;
    var p, q := Scan(s).parts, Scan(front).parts;
    ScanJoins(front);
    PartsShort(front);
    assert s[..n] == front;
    if i < n {
      ScanEnds(front, i);
      assert front[..i] == s[..i];
      assert (q + [Scan(front).current])[..|q|] == q;
      EndsSame(q, p, i);
    } else if Splits(Run(front), c) {
      assert p == q + [Scan(front).current];
      assert p[..|p|] == p;
      assert |Join(p, ' ')| == n;
      assert EndsAt(p, |p|, i);
      assert Splits(Run(s[..i]), s[i]);
    } else {
      assert p == q;
      forall k ensures !EndsAt(p, k, i) {
        assert 1 <= k <= |q| ==> |Join(q[..k], ' ')| < |front|;
      }
      assert !Splits(Run(s[..i]), s[i]);
    }
  }

  /** Every completed part ends before the end of the text. */
  lemma {:induction false} PartsShort(s: string)
    ensures forall k :: 1 <= k <= |Scan(s).parts| ==> |Join(Scan(s).parts[..k], ' ')| < |s|
  {
    if s != "" {
      var front := s[..|s| - 1];
      var p, q := Scan(s).parts, Scan(front).parts;
      PartsShort(front);
      ScanJoins(front);
      forall k | 1 <= k <= |p| ensures |Join(p[..k], ' ')| < |s| {
        if k <= |q| {
          assert p[..k] == q[..k];
        } else {
          assert p[..k] == p;
        }
      }
    }
  }

  /** One more part ends later than `i`. */
  lemma EndsSame(q: seq<string>, p: seq<string>, i: int)
    requires p == q || (p != [] && q == p[..|p| - 1] && |Join(p, ' ')| != i)
    ensures HasEnd(p, i) <==> HasEnd(q, i)
  {
    forall k ensures EndsAt(p, k, i) <==> EndsAt(q, k, i) {
      if 1 <= k <= |q| {
        assert p[..k] == q[..k];
      } else {
        assert 1 <= k <= |p| ==> p[..k] == p;
      }
    }
  }

  lemma CutIsSplit(s: string, i: int)
    requires 0 <= i < |s|
    ensures CutHere(s, i) <==> Splits(Run(s[..i]), s[i])
  {
    var p := Scan(s);
    ScanEnds(s, i);
    ScanJoins(s);
    assert (p.parts + [p.current])[..|p.parts|] == p.parts;
    EndsSame(p.parts, Tokens(s), i);
  }

  // ---- the automaton finds the quotations ----

  /** The quote state the quotations prescribe before position `i`. */
  ghost predicate Prescribed(s: string, qs: seq<Quotation>, i: int, quote: Quote)
    requires InText(s, qs)
  {
    && (quote == Outside <==> !InQuotation(qs, i))
    && (quote == InDouble ==> forall k :: Within(qs, k, i) ==> s[qs[k].open] == '"')
    && (quote == InSingle ==> forall k :: Within(qs, k, i) ==> s[qs[k].open] == '\'')
  }

  lemma AllInText(s: string, qs: seq<Quotation>)
    requires Quotations(s, qs)
    ensures InText(s, qs)
  {
    forall k | 0 <= k < |qs| ensures qs[k].open < |s| {
      assert IsQuotation(s, qs[k]);
    }
  }

  lemma {:induction false} QuoteState(s: string, qs: seq<Quotation>, i: nat)
    requires Quotations(s, qs) && i <= |s|
    ensures InText(s, qs) && Prescribed(s, qs, i, Run(s[..i]).quote)
  {
    AllInText(s, qs);
    if i > 0 {
      var p := i - 1;
      QuoteState(s, qs, p);
      EscapeBit(s[..p]);
      assert s[..i][..p] == s[..p];
      QuoteStep(s, qs, p);
    }
  }

  lemma QuoteStep(s: string, qs: seq<Quotation>, p: nat)
    requires Quotations(s, qs) && InText(s, qs) && p < |s|
    requires Prescribed(s, qs, p, Run(s[..p]).quote) && (Run(s[..p]).escape <==> Escaped(s, p))
    ensures Prescribed(s, qs, p + 1, Next(Run(s[..p]), s[p]).quote)
  {
    if k :| Within(qs, k, p) {
      InsideStep(s, qs, k, p);
    } else {
      OutsideStep(s, qs, p);
    }
  }

  lemma OneQuotation(qs: seq<Quotation>, k: int, l: int, i: int)
    requires Ordered(qs)
    requires Within(qs, k, i) && Within(qs, l, i)
    ensures k == l
  {
  }

  function QuoteOf(c: char): Quote {
    if c == '"' then InDouble else InSingle
  }

  lemma PrescribedWithin(s: string, qs: seq<Quotation>, k: int, i: nat, quote: Quote)
    requires InText(s, qs) && Ordered(qs) && Within(qs, k, i)
    requires s[qs[k].open] == '"' || s[qs[k].open] == '\''
    ensures Prescribed(s, qs, i, quote) <==> quote == QuoteOf(s[qs[k].open])
  {
    assert InQuotation(qs, i);
    forall l | Within(qs, l, i) ensures l == k {
      OneQuotation(qs, k, l, i);
    }
  }

  /** The automaton stays in a quotation up to its closing quote. */
  lemma NextInside(s: string, q: Quotation, p: nat, st: Lexer)
    requires IsQuotation(s, q) && q.open < p <= q.close && p < |s|
    requires st.quote == QuoteOf(s[q.open]) && (st.escape <==> Escaped(s, p))
    ensures Next(st, s[p]).quote == if p < q.close then QuoteOf(s[q.open]) else Outside
  {
    assert p < q.close ==> s[p] != s[q.open] || Escaped(s, p);
  }

  /** Outside of quotations it enters one exactly at an unescaped quote. */
  lemma NextOutside(s: string, p: nat, st: Lexer)
    requires p < |s| && st.quote == Outside && (st.escape <==> Escaped(s, p))
    ensures Next(st, s[p]).quote == if IsQuote(s, p) then QuoteOf(s[p]) else Outside
  {
  }

  lemma InsideStep(s: string, qs: seq<Quotation>, k: int, p: nat)
    requires InText(s, qs) && Ordered(qs) && p < |s| && Within(qs, k, p) && IsQuotation(s, qs[k])
    requires Prescribed(s, qs, p, Run(s[..p]).quote) && (Run(s[..p]).escape <==> Escaped(s, p))
    ensures Prescribed(s, qs, p + 1, Next(Run(s[..p]), s[p]).quote)
  {
    PrescribedWithin(s, qs, k, p, Run(s[..p]).quote);
    NextInside(s, qs[k], p, Run(s[..p]));
    if p < qs[k].close {
      PrescribedWithin(s, qs, k, p + 1, Next(Run(s[..p]), s[p]).quote);
    } else {
      AfterQuotation(qs, k);
    }
  }

  lemma AfterQuotation(qs: seq<Quotation>, k: int)
    requires Ordered(qs)
    requires 0 <= k < |qs| && qs[k].open < qs[k].close
    ensures !InQuotation(qs, qs[k].close + 1)
  {
    var i := qs[k].close + 1;
    forall l | 0 <= l < |qs| ensures !Within(qs, l, i) {
      if l < k {
        assert qs[l].close < qs[k].open < i;
      } else if k < l {
        assert qs[k].close < qs[l].open;
      }
    }
  }

  lemma OutsideStep(s: string, qs: seq<Quotation>, p: nat)
    requires Quotations(s, qs) && InText(s, qs) && p < |s| && !InQuotation(qs, p)
    requires Prescribed(s, qs, p, Run(s[..p]).quote) && (Run(s[..p]).escape <==> Escaped(s, p))
    ensures Prescribed(s, qs, p + 1, Next(Run(s[..p]), s[p]).quote)
  {
    NextOutside(s, p, Run(s[..p]));
    if IsQuote(s, p) {
      var k :| Holds(qs, k, p);
      assert !Within(qs, k, p);
      PrescribedWithin(s, qs, k, p + 1, Next(Run(s[..p]), s[p]).quote);
    } else {
      var i := p + 1;
      forall l | 0 <= l < |qs| ensures !Within(qs, l, i) {
        assert !Within(qs, l, p);
        assert IsQuotation(s, qs[l]);
      }
    }
  }

  /** A space is a cut exactly when it stands in no quotation, and nothing else is one. */
  lemma CutsOutsideQuotations(s: string, qs: seq<Quotation>, i: int)
    requires Quotations(s, qs) && 0 <= i < |s|
    ensures CutHere(s, i) <==> s[i] == ' ' && !InQuotation(qs, i)
  {
    CutIsSplit(s, i);
    QuoteState(s, qs, i);
  }

  // ---- every text has quotations ----

  /** The first unescaped quote `c` in `s` from `i` on, or the end. */
  function FindQuote(s: string, c: char, i: nat): (j: nat)
    requires i <= |s|
    ensures i <= j <= |s|
    ensures j < |s| ==> s[j] == c && !Escaped(s, j)
    ensures forall k :: i <= k < j ==> s[k] != c || Escaped(s, k)
    decreases |s| - i
  {
    if i == |s| || (s[i] == c && !Escaped(s, i)) then i else FindQuote(s, c, i + 1)
  }

  /** Quotations of the text from `i` on. */
  ghost predicate QuotationsFrom(s: string, i: nat, qs: seq<Quotation>) {
    && (forall q :: q in qs ==> IsQuotation(s, q) && i <= q.open)
    && Ordered(qs)
    && (forall j :: i <= j < |s| && IsQuote(s, j) ==> exists k :: Holds(qs, k, j))
  }

  lemma {:induction false} QuotationsExist(s: string, i: nat) returns (qs: seq<Quotation>)
    requires i <= |s|
    ensures QuotationsFrom(s, i, qs)
    decreases |s| - i
  {
    if i == |s| {
      qs := [];
    } else if !IsQuote(s, i) {
      qs := QuotationsExist(s, i + 1);
    } else {
      var q := Quotation(i, FindQuote(s, s[i], i + 1));
      var rest := QuotationsExist(s, if q.close < |s| then q.close + 1 else q.close);
      qs := [q] + rest;
      QuotationFirst(s, i, q, rest);
    }
  }

  lemma QuotationFirst(s: string, i: nat, q: Quotation, rest: seq<Quotation>)
    requires q.open == i && IsQuotation(s, q)
    requires QuotationsFrom(s, if q.close < |s| then q.close + 1 else q.close, rest)
    ensures QuotationsFrom(s, i, [q] + rest)
  {
    var qs := [q] + rest;
    AllAfter(s, q.close, rest);
    forall j | i <= j < |s| && IsQuote(s, j) ensures exists k :: Holds(qs, k, j) {
      if j <= q.close {
        assert Holds(qs, 0, j);
      } else {
        HeldLater(q, rest, j);
      }
    }
    ConsOrdered(q, rest);
    AllFrom(s, i, q, rest);
  }

  lemma AllAfter(s: string, close: nat, rest: seq<Quotation>)
    requires close <= |s| && QuotationsFrom(s, if close < |s| then close + 1 else close, rest)
    ensures forall q :: q in rest ==> close < q.open
  {
    forall q | q in rest ensures close < q.open {
      assert IsQuotation(s, q);
    }
  }

  lemma AllFrom(s: string, i: nat, q: Quotation, rest: seq<Quotation>)
    requires IsQuotation(s, q) && i <= q.open < q.close
    requires forall r :: r in rest ==> IsQuotation(s, r) && q.close < r.open
    ensures forall r :: r in [q] + rest ==> IsQuotation(s, r) && i <= r.open
  {
    forall r | r in [q] + rest ensures IsQuotation(s, r) && i <= r.open {
      assert r == q || r in rest;
    }
  }

  lemma ConsOrdered(q: Quotation, rest: seq<Quotation>)
    requires forall r :: r in rest ==> q.close < r.open
    requires Ordered(rest)
    ensures Ordered([q] + rest)
  {
    var qs := [q] + rest;
    forall k, l | 0 <= k < l < |qs| ensures qs[k].close < qs[l].open {
      assert qs[l] == rest[l - 1] && qs[k] == if k == 0 then q else rest[k - 1];
    }
  }

  lemma HeldLater(q: Quotation, rest: seq<Quotation>, j: int)
    requires exists k :: Holds(rest, k, j)
    ensures exists k :: Holds([q] + rest, k, j)
  {
    var k :| Holds(rest, k, j);
    assert Holds([q] + rest, k + 1, j);
  }

  lemma CutsOfEveryText(s: string)
    ensures exists qs :: Quotations(s, qs)
  {
    var qs := QuotationsExist(s, 0);
    assert forall k :: 0 <= k < |qs| ==> qs[k] in qs;
    assert Quotations(s, qs);
  }

  // ---- what follows ----

  /** Without an unescaped quote every space is a cut; an escaped quote opens nothing. */
  lemma PlainTextCut(s: string, i: int)
    requires forall j :: 0 <= j < |s| ==> !IsQuote(s, j)
    requires 0 <= i < |s|
    ensures CutHere(s, i) <==> s[i] == ' '
  {
    assert Quotations(s, []);
    CutsOutsideQuotations(s, [], i);
  }

  /**
   Nothing is cut between a quote that is opened where no quotation is open and the next
   unescaped quote of its kind, whatever quotes of the other kind and escaped quotes stand
   between them; after it the text is cut again.
   */
  lemma QuotedTextUncut(s: string, qs: seq<Quotation>, open: nat, close: nat, i: int)
    requires Quotations(s, qs)
    requires open < |s| && IsQuote(s, open) && !InQuotation(qs, open)
    requires open < close <= |s| && (close < |s| ==> s[close] == s[open] && !Escaped(s, close))
    requires forall j :: open < j < close ==> s[j] != s[open] || Escaped(s, j)
    requires open <= i <= close && i < |s|
    ensures !CutHere(s, i)
    ensures close + 1 < |s| && s[close + 1] == ' ' ==> CutHere(s, close + 1)
  {
    var k := QuotationAt(s, qs, open);
    FirstClosing(s, qs[k], close);
    CutsOutsideQuotations(s, qs, i);
    assert open < i <= close ==> Within(qs, k, i);
    CutAfterQuotation(s, qs, k);
  }

  lemma CutAfterQuotation(s: string, qs: seq<Quotation>, k: int)
    requires Quotations(s, qs) && 0 <= k < |qs| && qs[k].open < qs[k].close
    ensures qs[k].close + 1 < |s| && s[qs[k].close + 1] == ' ' ==> CutHere(s, qs[k].close + 1)
  {
    if qs[k].close + 1 < |s| {
      AfterQuotation(qs, k);
      CutsOutsideQuotations(s, qs, qs[k].close + 1);
    }
  }

  lemma QuotationAt(s: string, qs: seq<Quotation>, open: nat) returns (k: int)
    requires Quotations(s, qs) && open < |s| && IsQuote(s, open) && !InQuotation(qs, open)
    ensures 0 <= k < |qs| && qs[k].open == open && IsQuotation(s, qs[k])
  {
    k :| Holds(qs, k, open);
    assert !Within(qs, k, open);
  }

  lemma FirstClosing(s: string, q: Quotation, close: nat)
    requires IsQuotation(s, q)
    requires q.open < close <= |s| && (close < |s| ==> s[close] == s[q.open] && !Escaped(s, close))
    requires forall j :: q.open < j < close ==> s[j] != s[q.open] || Escaped(s, j)
    ensures q.close == close
  {
  }

  // ---- texts ----

  /** `"a b"` and `'a b'` are one part each; with its quote escaped the text has two. */
  lemma QuotedParts()
    ensures Tokens("\"a b\"") == ["\"a b\""]
    ensures Tokens("'a b' c") == ["'a b'", "c"]
    ensures Tokens("\\\"a b") == ["\\\"a", "b"]
    ensures Tokens("\"it's a\" b") == ["\"it's a\"", "b"]
  {
    Together('"', "a b");
    Together('\'', "a b");
    Together('"', "it's a");
    assert ['"'] + "a b" + ['"'] == "\"a b\"";
    assert ['\''] + "a b" + ['\''] == "'a b'";
    assert ['"'] + "it's a" + ['"'] == "\"it's a\"";
    EscapedPart();
    Word("b");
    Word("c");
    OnePart("\"a b\"");
    TwoParts("'a b'", "c", "'a b' c");
    TwoParts("\"it's a\"", "b", "\"it's a\" b");
    TwoParts("\\\"a", "b", "\\\"a b");
  }

  lemma OnePart(p: string)
    requires p != "" && Solid(p)
    ensures Tokens(p) == [p]
  {
    TokensUnique([p], false);
    assert Untokenize([p], false) == p;
  }

  lemma TwoParts(p: string, q: string, text: string)
    requires Solid(p) && Closed(p) && q != "" && Solid(q) && text == p + [' '] + q
    ensures Tokens(text) == [p, q]
  {
    TokensUnique([p, q], false);
    assert [p, q][1..] == [q] && Join([q], ' ') == q;
    assert Join([p, q], ' ') == text && text + "" == text;
  }

  /** Inside its quotes a text without that quote and without backslashes is one part. */
  lemma Together(c: char, body: string)
    requires c == '"' || c == '\''
    requires c !in body && '\\' !in body
    ensures Solid([c] + body + [c]) && Closed([c] + body + [c])
  {
    Opened(c, body);
    SolidSnoc([c] + body, c);
  }

  lemma {:induction false} Opened(c: char, body: string)
    requires c == '"' || c == '\''
    requires c !in body && '\\' !in body
    ensures Solid([c] + body) && Run([c] + body) == Lexer(QuoteOf(c), false)
  {
    if body == "" {
      assert [c] + body == "" + [c];
      SolidSnoc("", c);
    } else {
      var front, last := body[..|body| - 1], body[|body| - 1];
      Opened(c, front);
      assert last in body && [c] + body == [c] + front + [last];
      SolidSnoc([c] + front, last);
    }
  }

  lemma Word(p: string)
    requires |p| == 1 && p[0] !in {' ', '"', '\'', '\\'}
    ensures Solid(p) && Closed(p)
  {
    assert p == "" + [p[0]];
    SolidSnoc("", p[0]);
  }

  lemma EscapedPart()
    ensures Solid("\\\"a") && Closed("\\\"a")
  {
    SolidSnoc("", '\\');
    SolidSnoc("\\", '"');
    SolidSnoc("\\\"", 'a');
    assert "" + ['\\'] == "\\" && "\\" + ['"'] == "\\\"" && "\\\"" + ['a'] == "\\\"a";
  }
}

/** Shortening rendered text between top-level items.
    A string is a list of runes. */
module Truncate {

  const ELLIPSIS := '\U{2026}'

  // ------------------------------------------------------------------- scanning

  /** Where the scanner is: how deep below the outer bracket, and in which part of a string. */
  datatype Scan = Scan(depth: int, inString: bool, escape: bool)

  predicate Opens(c: char) { c == '{' || c == '[' }

  predicate Closes(c: char) { c == '}' || c == ']' }

  function Advance(st: Scan, c: char): Scan {
    if st.escape then st.(escape := false)
    else if st.inString then
      if c == '\\' then st.(escape := true) else if c == '"' then st.(inString := false) else st
    else if c == '"' then st.(inString := true)
    else if Opens(c) then st.(depth := st.depth + 1)
    else if Closes(c) then st.(depth := st.depth - 1)
    else st
  }

  predicate Outside(st: Scan) { !st.inString && !st.escape }

  /** The state after reading `text`. */
  function Read(st: Scan, text: string): Scan {
    if text == "" then st else Advance(Read(st, text[..|text| - 1]), text[|text| - 1])
  }

  const FRESH := Scan(0, false, false)

  /** The state after the outer bracket and the text up to `i`. */
  function Inside(s: string, i: nat): Scan
    requires 1 <= i <= |s|
  {
    Read(FRESH, s[1..i])
  }

  /** A place between top-level items: before a comma, or after a bracket that closes one. */
  predicate IsCut(s: string, c: nat) {
    && 1 <= c <= |s| && Outside(Inside(s, c)) && Inside(s, c).depth == 0
    && ((c < |s| && s[c] == ',') || (c > 1 && Closes(s[c - 1]) && Outside(Inside(s, c - 1))))
  }

  /** A cut seen before the budget runs out: its comma or its bracket is among the runes read. */
  predicate IsCutWithin(s: string, c: nat, budget: nat) {
    IsCut(s, c) && (c <= budget || (c == budget + 1 && c > 1 && Closes(s[c - 1]) && Outside(Inside(s, c - 1))))
  }

  lemma ReadMore(st: Scan, text: string, c: char)
    ensures Read(st, text + [c]) == Advance(Read(st, text), c)
  {
    assert (text + [c])[..|text|] == text;
  }

  lemma {:induction false} ReadConcat(st: Scan, a: string, b: string)
    ensures Read(st, a + b) == Read(Read(st, a), b)
  {
    hide Advance;
    if b == "" {
      assert a + b == a;
    } else {
      var n := |b| - 1;
      assert (a + b)[..|a| + n] == a + b[..n];
      ReadConcat(st, a, b[..n]);
    }
  }

  // ------------------------------------------------------------------ truncating

  /** `truncatePlain`. */
  method TruncatePlain(s: string, maxWidth: int) returns (r: string)
    ensures r == Plain(s, maxWidth)
  {
    if |s| <= maxWidth { return s; }
    var keep := maxWidth - 1;
    if keep <= 0 { return [ELLIPSIS]; }
    var b := "";
    for k := 0 to |s|
      invariant b == s[..k] && k <= keep
    {
      if k == keep { break; }
      b := b + [s[k]];
    }
    r := b + [ELLIPSIS];
  }

  function Plain(s: string, maxWidth: int): string {
    if |s| <= maxWidth then s
    else if maxWidth <= 1 then [ELLIPSIS]
    else s[..maxWidth - 1] + [ELLIPSIS]
  }

  function CloseOf(open: char): char { if open == '[' then ']' else '}' }

  function Suffix(open: char): string { [',', ELLIPSIS, CloseOf(open)] }

  function BudgetOf(maxWidth: int): int { maxWidth - 4 }

  function Bracketed(s: string, c: nat): string
    requires 1 <= c <= |s|
  {
    [s[0]] + s[1..c] + Suffix(s[0])
  }

  /** What the scan has found after reading `n` runes past the outer bracket. */
  ghost predicate Found(s: string, n: nat, lastSafeEnd: int, st: Scan) {
    && n < |s| && st == Inside(s, n + 1)
    && (lastSafeEnd == -1 || (0 < lastSafeEnd <= n + 1 && IsCutWithin(s, lastSafeEnd, n)))
    && forall c: nat :: IsCutWithin(s, c, n) ==> c <= lastSafeEnd
  }

  lemma FoundStart(s: string)
    requires s != ""
    ensures Found(s, 0, -1, FRESH)
  {
    assert s[1..1] == "";
  }

  lemma InsideStep(s: string, i: nat)
    requires 1 <= i < |s|
    ensures Inside(s, i + 1) == Advance(Inside(s, i), s[i])
  {
    assert s[1..i + 1] == s[1..i] + [s[i]];
    ReadMore(FRESH, s[1..i], s[i]);
  }

  /** One rune further, the only new cuts are at that rune. */
  lemma NewCut(s: string, n: nat, c: nat)
    requires n + 1 < |s|
    ensures IsCutWithin(s, c, n) ==> IsCutWithin(s, c, n + 1)
    ensures IsCutWithin(s, c, n + 1) && !IsCutWithin(s, c, n) ==>
              var st, r := Inside(s, n + 1), s[n + 1];
              Outside(st) && ((c == n + 1 && r == ',' && st.depth == 0)
                              || (c == n + 2 && Closes(r) && Advance(st, r).depth == 0))
  {
    InsideStep(s, n + 1);
    hide Read, Inside;
  }

  lemma CutHere(s: string, n: nat)
    requires n + 1 < |s| && Outside(Inside(s, n + 1))
    ensures s[n + 1] == ',' && Inside(s, n + 1).depth == 0 ==> IsCutWithin(s, n + 1, n + 1)
    ensures Closes(s[n + 1]) && Advance(Inside(s, n + 1), s[n + 1]).depth == 0 ==> IsCutWithin(s, n + 2, n + 1)
  {
    InsideStep(s, n + 1);
    hide Read, Inside;
  }

  lemma FoundStep(s: string, n: nat, lastSafeEnd: int, st: Scan)
    requires n + 1 < |s| && Found(s, n, lastSafeEnd, st)
    ensures var r := s[n + 1];
            var next := Advance(st, r);
            Found(s, n + 1,
                  if Outside(st) && Closes(r) && next.depth == 0 then n + 2
                  else if Outside(st) && r == ',' && st.depth == 0 then n + 1
                  else lastSafeEnd, next)
  {
    InsideStep(s, n + 1);
    if Outside(st) { CutHere(s, n); }
    hide Read, Inside, IsCutWithin;
    var last := if Outside(st) && Closes(s[n + 1]) && Advance(st, s[n + 1]).depth == 0 then n + 2
                else if Outside(st) && s[n + 1] == ',' && st.depth == 0 then n + 1
                else lastSafeEnd;
    var m := n + 1;
    forall c: nat | IsCutWithin(s, c, m) ensures c <= last { NewCut(s, n, c); }
    if lastSafeEnd > 0 { NewCut(s, n, lastSafeEnd); }
  }

  /** The scanning loop of `TruncateBalanced`: the last cut within the budget, or -1. */
  method LastCut(s: string, budget: nat) returns (lastSafeEnd: int)
    requires s != "" && Opens(s[0]) && budget > 0 && budget + 4 < |s|
    ensures lastSafeEnd == -1 || (lastSafeEnd > 0 && IsCutWithin(s, lastSafeEnd, budget))
    ensures forall c: nat :: IsCutWithin(s, c, budget) ==> c <= lastSafeEnd
  {
    hide IsCutWithin, Read;
    var depth, inString, escape, runeCount, i := 0, false, false, 0, 1;
    lastSafeEnd := -1;
    FoundStart(s);
    while i < |s|
      invariant i == runeCount + 1 && runeCount <= budget
      invariant Found(s, runeCount, lastSafeEnd, Scan(depth, inString, escape))
    {
      var r := s[i];
      if runeCount + 1 > budget { break; }
      FoundStep(s, runeCount, lastSafeEnd, Scan(depth, inString, escape));
      hide Found;
      if escape {
        escape := false;
      } else if inString {
        if r == '\\' { escape := true; } else if r == '"' { inString := false; }
      } else if r == '"' {
        inString := true;
      } else if r == '{' || r == '[' {
        depth := depth + 1;
      } else if r == '}' || r == ']' {
        depth := depth - 1;
        if depth == 0 { lastSafeEnd := i + 1; }
      } else if r == ',' {
        if depth == 0 { lastSafeEnd := i; }
      }
      runeCount := runeCount + 1;
      i := i + 1;
    }
    assert i == budget + 1;
  }

  /** How one call may answer. */
  ghost predicate IsTruncation(s: string, maxWidth: int, r: string) {
    if maxWidth <= 0 || |s| <= maxWidth then r == s
    else if s == "" || !Opens(s[0]) || BudgetOf(maxWidth) <= 0
            || (forall c: nat :: !IsCutWithin(s, c, BudgetOf(maxWidth))) then r == Plain(s, maxWidth)
    else exists c: nat :: IsLastCut(s, c, BudgetOf(maxWidth)) && r == Bracketed(s, c)
  }

  /** The last place between top-level items within the budget. */
  ghost predicate IsLastCut(s: string, c: nat, budget: nat) {
    IsCutWithin(s, c, budget) && forall d: nat :: IsCutWithin(s, d, budget) ==> d <= c
  }

  /** `TruncateBalanced`. */
  method TruncateBalanced(s: string, maxWidth: int) returns (r: string)
    ensures IsTruncation(s, maxWidth, r)
  {
    hide IsCut, Plain, Inside;
    if maxWidth <= 0 || |s| <= maxWidth { return s; }
    var first := s[0];
    if first != '{' && first != '[' {
      r := TruncatePlain(s, maxWidth);
      return;
    }
    var budget := maxWidth - |Suffix(first)| - 1;
    if budget <= 0 {
      r := TruncatePlain(s, maxWidth);
      return;
    }
    var lastSafeEnd := LastCut(s, budget);
    if lastSafeEnd > 0 {
      CutInRange(s, lastSafeEnd, budget);
      assert IsLastCut(s, lastSafeEnd, budget);
      r := [first] + s[1..lastSafeEnd] + Suffix(first);
      return;
    }
    r := TruncatePlain(s, maxWidth);
  }

  lemma CutInRange(s: string, c: nat, budget: nat)
    requires IsCutWithin(s, c, budget)
    ensures 1 <= c <= |s| && c <= budget + 1 && IsCut(s, c)
  {}

  // ---------------------------------------------------------------- the theorems

  /** At most `maxWidth` runes, for every positive width and every input. */
  lemma WithinWidth(s: string, maxWidth: int, r: string)
    requires maxWidth > 0 && IsTruncation(s, maxWidth, r)
    ensures |r| <= maxWidth
  {
    hide Inside;
    if r != s && r != Plain(s, maxWidth) {
      var c: nat :| IsLastCut(s, c, BudgetOf(maxWidth)) && r == Bracketed(s, c);
      CutInRange(s, c, BudgetOf(maxWidth));
    }
  }

  /** A bracket outside strings closes an item right before `c`. */
  predicate ClosesBefore(s: string, c: nat) {
    2 <= c <= |s| && Closes(s[c - 1]) && Outside(Inside(s, c - 1))
  }

  /** The prefix fits with the suffix; one that ends with a closed item may fill the width, any
      other must stay one short of it. */
  predicate Fits(s: string, c: nat, maxWidth: int) { c + 3 < maxWidth || (c + 3 == maxWidth && ClosesBefore(s, c)) }

  /** Whole items end here: at depth zero and outside strings, a comma follows, or a bracket has
      just closed. */
  predicate BetweenItems(s: string, c: nat) {
    && 1 <= c <= |s| && Outside(Inside(s, c)) && Inside(s, c).depth == 0
    && (ClosesBefore(s, c) || (c < |s| && s[c] == ','))
  }

  /** A bracketed text that is too long becomes its longest prefix of whole items that fits,
      marked and closed, or is truncated plainly if none does. */
  lemma LongestThatFits(s: string, maxWidth: int, r: string)
    requires maxWidth > 0 && |s| > maxWidth && Opens(s[0]) && IsTruncation(s, maxWidth, r)
    ensures if maxWidth > 4 && exists c: nat :: BetweenItems(s, c) && Fits(s, c, maxWidth) then
              exists c: nat :: BetweenItems(s, c) && Fits(s, c, maxWidth)
                               && (forall d: nat :: BetweenItems(s, d) && Fits(s, d, maxWidth) ==> d <= c)
                               && r == s[..c] + [',', ELLIPSIS, if s[0] == '[' then ']' else '}']
            else r == Plain(s, maxWidth)
  {
    hide Inside, Plain;
    if maxWidth > 4 {
      forall c: nat ensures IsCutWithin(s, c, BudgetOf(maxWidth)) <==> BetweenItems(s, c) && Fits(s, c, maxWidth) {}
    }
    if maxWidth > 4 && exists c: nat :: BetweenItems(s, c) && Fits(s, c, maxWidth) {
      var b: nat :| BetweenItems(s, b) && Fits(s, b, maxWidth);
      assert IsCutWithin(s, b, BudgetOf(maxWidth));
      var c: nat :| IsLastCut(s, c, BudgetOf(maxWidth)) && r == Bracketed(s, c);
      CutInRange(s, c, BudgetOf(maxWidth));
      assert [s[0]] + s[1..c] == s[..c];
      assert BetweenItems(s, c) && Fits(s, c, maxWidth);
    }
  }

  /** Plain truncation keeps what fits, and shows with its last rune that something is missing. */
  lemma PlainMeans(s: string, maxWidth: int)
    requires maxWidth > 0
    ensures var r := Plain(s, maxWidth);
            if |s| <= maxWidth then r == s
            else |r| == maxWidth && r[maxWidth - 1] == ELLIPSIS && forall i :: 0 <= i < maxWidth - 1 ==> r[i] == s[i]
  {}

  lemma {:induction false} ReadDeeper(st: Scan, text: string)
    ensures Read(st.(depth := st.depth + 1), text) == Read(st, text).(depth := Read(st, text).depth + 1)
  {
    if text != "" { ReadDeeper(st, text[..|text| - 1]); }
  }

  /** Read from its start, a bracketed result ends at depth zero outside any string. */
  lemma EndsBalanced(s: string, c: nat)
    requires s != "" && Opens(s[0]) && IsCut(s, c)
    ensures Read(FRESH, Bracketed(s, c)) == FRESH
  {
    hide Read;
    var open := s[0];
    assert Bracketed(s, c) == ([open] + s[1..c]) + Suffix(open);
    ReadConcat(FRESH, [open], s[1..c]);
    ReadConcat(FRESH, [open] + s[1..c], Suffix(open));
    ReadOne(FRESH, open);
    ReadDeeper(FRESH, s[1..c]);
    ReadSuffix(Scan(1, false, false), open);
  }

  lemma ReadOne(st: Scan, c: char)
    ensures Read(st, [c]) == Advance(st, c)
  {
    assert [c][..0] == "";
  }

  lemma ReadSuffix(st: Scan, open: char)
    requires Outside(st) && Opens(open)
    ensures Read(st, Suffix(open)) == st.(depth := st.depth - 1)
  {
    var t := Suffix(open);
    assert t[..2] == [','] + [ELLIPSIS] && t == t[..2] + [t[2]];
    ReadOne(st, ',');
    ReadMore(st, [','], ELLIPSIS);
    ReadMore(st, t[..2], t[2]);
    hide Read;
    assert t[2] == CloseOf(open) && Closes(t[2]);
  }

  /** The brackets open at a place, innermost last; `Mismatch` once they do not nest. */
  datatype Nest = Mismatch | Nest(open: string, inString: bool, escape: bool)

  function Push(n: Nest, c: char): Nest {
    if n.Mismatch? then n
    else if n.escape then n.(escape := false)
    else if n.inString then
      if c == '\\' then n.(escape := true) else if c == '"' then n.(inString := false) else n
    else if c == '"' then n.(inString := true)
    else if Opens(c) then n.(open := n.open + [c])
    else if Closes(c) then
      if n.open != "" && CloseOf(n.open[|n.open| - 1]) == c then n.(open := n.open[..|n.open| - 1]) else Mismatch
    else n
  }

  function Nesting(n: Nest, text: string): Nest {
    if text == "" then n else Push(Nesting(n, text[..|text| - 1]), text[|text| - 1])
  }

  const EMPTY := Nest("", false, false)

  /** Brackets outside strings match and all are closed at the end. */
  predicate WellNested(text: string) { Nesting(EMPTY, text) == EMPTY }

  lemma {:induction false} NestingConcat(n: Nest, a: string, b: string)
    ensures Nesting(n, a + b) == Nesting(Nesting(n, a), b)
  {
    hide Push;
    if b == "" {
      assert a + b == a;
    } else {
      var k := |b| - 1;
      assert (a + b)[..|a| + k] == a + b[..k];
      NestingConcat(n, a, b[..k]);
    }
  }

  lemma {:induction false} MismatchStays(text: string)
    ensures Nesting(Mismatch, text) == Mismatch
  {
    if text != "" { MismatchStays(text[..|text| - 1]); }
  }

  /** As long as brackets match, the depth counter is the number of open brackets. */
  lemma {:induction false} DepthCountsOpen(n: Nest, st: Scan, text: string)
    requires n.Nest? && st == Scan(|n.open|, n.inString, n.escape) && Nesting(n, text).Nest?
    ensures var m := Nesting(n, text); Read(st, text) == Scan(|m.open|, m.inString, m.escape)
  {
    if text != "" {
      var k := |text| - 1;
      if Nesting(n, text[..k]).Mismatch? { assert false; }
      DepthCountsOpen(n, st, text[..k]);
    }
  }

  /** The brackets open at a place of the input, its outer bracket first. */
  function OpenAt(s: string, c: nat): Nest
    requires c <= |s|
  {
    Nesting(EMPTY, s[..c])
  }

  lemma PrefixNests(s: string, c: nat)
    requires c <= |s| && WellNested(s)
    ensures OpenAt(s, c).Nest?
  {
    assert s == s[..c] + s[c..];
    NestingConcat(EMPTY, s[..c], s[c..]);
    if OpenAt(s, c).Mismatch? { MismatchStays(s[c..]); }
  }

  /** At a cut of well-nested text exactly one bracket is open. */
  lemma OneOpen(s: string, c: nat)
    requires s != "" && Opens(s[0]) && WellNested(s) && IsCut(s, c)
    ensures OpenAt(s, c) == Nest([OpenBracket(s, c)], false, false)
  {
    hide Read, Nesting;
    PrefixNests(s, c);
    DepthCountsOpen(EMPTY, FRESH, s[..c]);
    assert s[..c] == [s[0]] + s[1..c];
    ReadConcat(FRESH, [s[0]], s[1..c]);
    ReadOne(FRESH, s[0]);
    ReadDeeper(FRESH, s[1..c]);
  }

  /** The bracket still open there, if any. */
  function OpenBracket(s: string, c: nat): char
    requires c <= |s|
  {
    var n := OpenAt(s, c);
    if n.Nest? && n.open != "" then n.open[0] else '?'
  }

  lemma NestingOfResult(s: string, c: nat)
    requires s != "" && 1 <= c <= |s|
    ensures Nesting(EMPTY, Bracketed(s, c)) == Push(Push(Push(OpenAt(s, c), ','), ELLIPSIS), CloseOf(s[0]))
  {
    hide Push;
    var suffix := Suffix(s[0]);
    assert Bracketed(s, c) == s[..c] + suffix;
    NestingConcat(EMPTY, s[..c], suffix);
    assert suffix[..2][..1][..0] == "" && suffix[..2][..1][0] == ',' && suffix[..2][1] == ELLIPSIS;
    assert Nesting(OpenAt(s, c), suffix[..2][..1]) == Push(OpenAt(s, c), ',');
  }

  /** The result of cutting well-nested text is well nested exactly when the bracket open at
      the cut is of the outer bracket's kind. */
  lemma NestedIff(s: string, c: nat)
    requires s != "" && Opens(s[0]) && WellNested(s) && IsCut(s, c)
    ensures WellNested(Bracketed(s, c)) <==> OpenBracket(s, c) == s[0]
  {
    OneOpen(s, c);
    NestingOfResult(s, c);
    OpenIsBracket(s[..c]);
    hide Nesting, IsCut;
    assert CloseOf(OpenBracket(s, c)) == CloseOf(s[0]) <==> OpenBracket(s, c) == s[0];
  }

  lemma {:induction false} OpenIsBracket(text: string)
    ensures var n := Nesting(EMPTY, text); n.Nest? ==> forall i :: 0 <= i < |n.open| ==> Opens(n.open[i])
  {
    if text != "" { OpenIsBracket(text[..|text| - 1]); }
  }

  /** Text that is one bracketed value, as a rendered object or array is: its outer bracket
      stays open up to the last rune. */
  predicate OneValue(s: string) {
    && s != "" && Opens(s[0]) && WellNested(s)
    && forall i :: 0 < i < |s| ==> OpenAt(s, i) != EMPTY
  }

  lemma {:induction false} OuterStays(s: string, i: nat)
    requires s != "" && Opens(s[0]) && 0 < i <= |s| && OpenAt(s, i).Nest? && OpenAt(s, i).open != ""
    requires forall k :: 0 < k < i ==> OpenAt(s, k).Nest? && OpenAt(s, k).open != ""
    ensures OpenAt(s, i).open[0] == s[0]
  {
    assert s[..i][..i - 1] == s[..i - 1];
    if i > 1 {
      OuterStays(s, i - 1);
    } else {
      FirstBracket(s);
    }
  }

  lemma FirstBracket(s: string)
    requires s != "" && Opens(s[0])
    ensures OpenAt(s, 1) == Nest([s[0]], false, false)
  {
    var t := s[..1];
    assert t[..|t| - 1] == "" && t[|t| - 1] == s[0];
    assert Nesting(EMPTY, t[..|t| - 1]) == EMPTY;
    assert Push(EMPTY, s[0]) == Nest([s[0]], false, false);
  }

  /** No bracket open means no string open either, so long as the value has not ended. */
  lemma {:induction false} NoOpenMeansEmpty(s: string, i: nat)
    requires OneValue(s) && 0 < i < |s|
    ensures OpenAt(s, i).Nest? && OpenAt(s, i).open != ""
  {
    PrefixNests(s, i);
    assert s[..i][..i - 1] == s[..i - 1];
    if i > 1 { NoOpenMeansEmpty(s, i - 1); } else { FirstBracket(s); }
    assert OpenAt(s, i) != EMPTY;
  }

  /** A shortened object or array is well nested again, whatever its width. */
  lemma ValueStaysNested(s: string, maxWidth: int, r: string)
    requires OneValue(s) && IsTruncation(s, maxWidth, r)
    ensures r == s || r == Plain(s, maxWidth) || WellNested(r)
  {
    hide WellNested, Plain, Nesting, Inside;
    if r != s && r != Plain(s, maxWidth) {
      var budget := BudgetOf(maxWidth);
      var c: nat :| IsLastCut(s, c, budget) && r == Bracketed(s, c);
      CutInRange(s, c, budget);
      forall k | 0 < k <= c ensures OpenAt(s, k).Nest? && OpenAt(s, k).open != "" { NoOpenMeansEmpty(s, k); }
      OuterStays(s, c);
      NestedIff(s, c);
    }
  }

  function NestingFrom(n: Nest, text: string, i: nat): Nest
    requires i <= |text|
    decreases |text| - i
  {
    if i == |text| then n else NestingFrom(Push(n, text[i]), text, i + 1)
  }

  lemma {:induction false} NestingForward(n: Nest, text: string, i: nat)
    requires i <= |text|
    ensures NestingFrom(Nesting(n, text[..i]), text, i) == Nesting(n, text)
    decreases |text| - i
  {
    hide Push;
    if i == |text| {
      assert text[..i] == text;
    } else {
      assert text[..i + 1][..i] == text[..i];
      NestingForward(n, text, i + 1);
    }
  }

  lemma EarlyCloseNests()
    ensures Nesting(EMPTY, "[],{") == Nest("{", false, false) && WellNested("[],{,aaa}")
  {
    var t := "[],{";
    var two := Push(Push(EMPTY, t[0]), t[1]);
    assert two == EMPTY;
    var four := Push(Push(two, t[2]), t[3]);
    assert four == Nest("{", false, false);
    assert t[..0] == "";
    NestingForward(EMPTY, t, 0);
    assert NestingFrom(EMPTY, t, 0) == NestingFrom(two, t, 2);
    assert NestingFrom(two, t, 2) == four;
    var u := ",aaa}";
    var eight := Push(Push(Push(Push(four, u[0]), u[1]), u[2]), u[3]);
    assert eight == four && Push(eight, u[4]) == EMPTY;
    assert u[..0] == "";
    NestingForward(four, u, 0);
    assert NestingFrom(four, u, 0) == NestingFrom(eight, u, 4) == EMPTY;
    assert "[],{,aaa}" == t + u;
    NestingConcat(EMPTY, t, u);
  }

  lemma EarlyCut(s: string)
    requires s == "[],{,aaa}"
    ensures IsLastCut(s, 4, BudgetOf(8))
  {
    assert s[1..4] == "],{" && "]" + [','] == "]," && "]," + ['{'] == "],{";
    ReadOne(FRESH, ']');
    ReadMore(FRESH, "]", ',');
    ReadMore(FRESH, "],", '{');
    hide Read;
    assert Inside(s, 4) == FRESH;
    hide Inside;
    assert s[4] == ',';
  }

  /** Balanced text whose outer bracket closes early can come out with brackets that do not
      match: here a brace closed by a bracket. */
  lemma EarlyCloseMismatches() returns (s: string, c: nat)
    ensures s != "" && Opens(s[0]) && WellNested(s) && IsLastCut(s, c, BudgetOf(8)) && |s| > 8
    ensures !WellNested(Bracketed(s, c))
  {
    hide WellNested, Nesting, IsCutWithin, Read, Inside;
    s, c := "[],{,aaa}", 4;
    EarlyCloseNests();
    EarlyCut(s);
    assert IsCut(s, 4) by { CutInRange(s, 4, 4); }
    assert s[..4] == "[],{";
    NestedIff(s, 4);
  }
}

/** The comparator sets a plugin requires of the CLI version.

    Which texts are versions and constraints is told by writing them, and what they accept by
    the precedence of versions. */
module Constraints {
  import opened Options
  import opened Text
  import opened Decimal
  import opened SemVer

  // -------------------------------------------------------------------- parsing

  /** `parseSemanticVersion`. */
  function ParseVersion(value: string): Option<Version> {
    var core := CutAt(CutAt(TrimPrefix(TrimSpace(value), 'v'), '+').before, '-');
    var parts := Split(core.before, '.');
    if |parts| != 3 then None else
      var a, b, c := Atoi(parts[0]), Atoi(parts[1]), Atoi(parts[2]);
      if a.None? || b.None? || c.None? || a.value < 0 || b.value < 0 || c.value < 0 then None
      else Some(Version(a.value, b.value, c.value, if core.found then Split(core.after, '.') else []))
  }

  function WordLength(s: string): (n: nat)
    ensures n <= |s|
    ensures s != "" && !IsSpace(s[0]) ==> n > 0
  {
    if s == "" || IsSpace(s[0]) then 0 else 1 + WordLength(s[1..])
  }

  /** `strings.Fields` on ASCII text. */
  function Fields(s: string): seq<string>
    decreases |s|
  {
    if s == "" then []
    else if IsSpace(s[0]) then Fields(s[1..])
    else [s[..WordLength(s)]] + Fields(s[WordLength(s)..])
  }

  const OPERATORS: seq<string> := [">=", "<=", "==", ">", "<", "="]

  /** `isComparator`. */
  predicate IsComparator(value: string) { value in OPERATORS }

  /** The parts of a constraint: a lone comparator takes the field after it. */
  function Parts(fields: seq<string>): Option<seq<string>> {
    if fields == [] then Some([])
    else if !IsComparator(fields[0]) then Ahead([fields[0]], Parts(fields[1..]))
    else if |fields| == 1 || IsComparator(fields[1]) then None
    else Ahead([fields[0] + fields[1]], Parts(fields[2..]))
  }

  function Ahead(first: seq<string>, rest: Option<seq<string>>): Option<seq<string>> {
    if rest.None? then None else Some(first + rest.value)
  }

  lemma AheadTwice(a: seq<string>, b: seq<string>, rest: Option<seq<string>>)
    ensures Ahead(a, Ahead(b, rest)) == Ahead(a + b, rest) && Ahead([], rest) == rest
  {
    if rest.Some? { assert a + (b + rest.value) == a + b + rest.value && [] + rest.value == rest.value; }
  }

  function FieldsOf(constraint: string): seq<string> { Fields(ReplaceAll(constraint, ',', ' ')) }

  /** `splitConstraintParts`. */
  method SplitConstraintParts(constraint: string) returns (r: Option<seq<string>>)
    ensures r == Parts(FieldsOf(constraint))
  {
    hide IsComparator;
    var fields := FieldsOf(constraint);
    var parts: seq<string> := [];
    var index := 0;
    AheadTwice([], [], Parts(fields));
    while index < |fields|
      invariant index <= |fields| && Parts(fields) == Ahead(parts, Parts(fields[index..]))
    {
      var field := fields[index];
      if !IsComparator(field) {
        assert fields[index..][1..] == fields[index + 1..];
        AheadTwice(parts, [field], Parts(fields[index + 1..]));
        parts := parts + [field];
        index := index + 1;
        continue;
      }
      if index + 1 >= |fields| || IsComparator(fields[index + 1]) { return None; }
      assert fields[index..][2..] == fields[index + 2..];
      AheadTwice(parts, [field + fields[index + 1]], Parts(fields[index + 2..]));
      parts := parts + [field + fields[index + 1]];
      index := index + 2;
    }
    assert fields[index..] == [] && parts + [] == parts;
    r := Some(parts);
  }

  datatype Comparator = Comparator(operator: string, version: string)

  predicate StartsWith(s: string, prefix: string) { prefix <= s }

  /** The first of the operators that starts the part; `=` without one. */
  function Comparison(part: string, operators: seq<string>): Comparator {
    if operators == [] then Comparator("=", part)
    else if StartsWith(part, operators[0]) then Comparator(operators[0], TrimSpace(part[|operators[0]|..]))
    else Comparison(part, operators[1..])
  }

  /** `splitComparator`. */
  method SplitComparator(part: string) returns (c: Comparator)
    ensures c == Comparison(part, OPERATORS)
  {
    for k := 0 to |OPERATORS|
      invariant Comparison(part, OPERATORS) == Comparison(part, OPERATORS[k..])
    {
      assert OPERATORS[k..][0] == OPERATORS[k] && OPERATORS[k..][1..] == OPERATORS[k + 1..];
      if StartsWith(part, OPERATORS[k]) { return Comparator(OPERATORS[k], TrimSpace(part[|OPERATORS[k]|..])); }
    }
    c := Comparator("=", part);
  }

  predicate Holds(operator: string, comparison: Sign) {
    match operator
    case "=" => comparison == 0
    case "==" => comparison == 0
    case ">" => comparison > 0
    case ">=" => comparison >= 0
    case "<" => comparison < 0
    case "<=" => comparison <= 0
    case _ => false
  }

  // ---------------------------------------------------------------- the check

  /** One part is a comparator with a version, and the version compares so. */
  predicate PartHolds(part: string, actual: Version) {
    var c := Comparison(part, OPERATORS);
    var expected := ParseVersion(c.version);
    expected.Some? && Holds(c.operator, Compare(actual, expected.value))
  }

  predicate AllHold(parts: seq<string>, actual: Version) {
    forall i :: 0 <= i < |parts| ==> PartHolds(parts[i], actual)
  }

  /** What a constraint, blanks around it removed, says of a version. */
  predicate Describes(constraint: string, actual: Version) {
    var parts := Parts(FieldsOf(constraint));
    parts.Some? && parts.value != [] && AllHold(parts.value, actual)
  }

  predicate Accepts(constraint: string, current: string) {
    TrimSpace(constraint) == "" ||
    (ParseVersion(current).Some? && Describes(TrimSpace(constraint), ParseVersion(current).value))
  }

  datatype Refusal = UnknownVersion | ComparatorAlone | EmptyConstraint | BadVersion | BadOperator | Unsatisfied

  /** The first part that does not hold decides: its version cannot be read, or the version at
      hand does not compare as it asks. */
  ghost predicate PartRefuses(parts: seq<string>, actual: Version, k: nat, refusal: Refusal) {
    && k < |parts| && !PartHolds(parts[k], actual) && (forall i :: 0 <= i < k ==> PartHolds(parts[i], actual))
    && refusal == if ParseVersion(Comparison(parts[k], OPERATORS).version).None? then BadVersion else Unsatisfied
  }

  /** Why a constraint, blanks around it removed, refuses a version. */
  ghost predicate Refuses(constraint: string, current: string, refusal: Refusal) {
    var actual, parts := ParseVersion(current), Parts(FieldsOf(constraint));
    if actual.None? then refusal == UnknownVersion
    else if parts.None? then refusal == ComparatorAlone
    else if parts.value == [] then refusal == EmptyConstraint
    else exists k: nat :: PartRefuses(parts.value, actual.value, k, refusal)
  }

  /** `checkCLIVersion`. */
  method CheckCLIVersion(constraint: string, current: string) returns (r: Option<Refusal>)
    ensures r.None? <==> Accepts(constraint, current)
    ensures r.Some? ==> Refuses(TrimSpace(constraint), current, r.value) && r != Some(BadOperator)
  {
    hide Compare, ParseVersion, TrimSpace, Parts, FieldsOf, Comparison, Holds;
    var trimmed := TrimSpace(constraint);
    if trimmed == "" { return None; }
    var actual := ParseVersion(current);
    if actual.None? { return Some(UnknownVersion); }
    var parts := SplitConstraintParts(trimmed);
    if parts.None? { return Some(ComparatorAlone); }
    if |parts.value| == 0 { return Some(EmptyConstraint); }
    for k := 0 to |parts.value|
      invariant forall i :: 0 <= i < k ==> PartHolds(parts.value[i], actual.value)
    {
      r := CheckPart(parts.value[k], actual.value);
      if r.Some? {
        assert PartRefuses(parts.value, actual.value, k, r.value);
        return;
      }
    }
    return None;
  }

  /** One turn of the loop of `checkCLIVersion`. */
  method CheckPart(part: string, actual: Version) returns (r: Option<Refusal>)
    ensures r.None? <==> PartHolds(part, actual)
    ensures r.Some? ==>
              r.value == if ParseVersion(Comparison(part, OPERATORS).version).None? then BadVersion else Unsatisfied
  {
    hide ParseVersion, TrimSpace;
    var c := SplitComparator(part);
    KnownOperator(part, OPERATORS);
    hide Comparison;
    var expected := ParseVersion(c.version);
    if expected.None? { return Some(BadVersion); }
    var comparison := CompareSemanticVersion(actual, expected.value);
    hide Compare;
    var matches := false;
    match c.operator {
      case "=" => matches := comparison == 0;
      case "==" => matches := comparison == 0;
      case ">" => matches := comparison > 0;
      case ">=" => matches := comparison >= 0;
      case "<" => matches := comparison < 0;
      case "<=" => matches := comparison <= 0;
      case _ => return Some(BadOperator);
    }
    return if matches then None else Some(Unsatisfied);
  }

  lemma {:induction false} KnownOperator(part: string, operators: seq<string>)
    ensures var c := Comparison(part, operators); c.operator in operators || c.operator == "="
  {
    hide TrimSpace;
    if operators != [] && !StartsWith(part, operators[0]) { KnownOperator(part, operators[1..]); }
  }

  // ---------------------------------------------------------------- the theorems

  lemma PartConvex(part: string, v1: Version, v2: Version, v3: Version)
    requires PartHolds(part, v1) && PartHolds(part, v3) && Compare(v1, v2) <= 0 && Compare(v2, v3) <= 0
    ensures PartHolds(part, v2)
  {
    hide Compare, ParseVersion, Comparison;
    var e := ParseVersion(Comparison(part, OPERATORS).version).value;
    TotalPreorder(v1, v2, e);
    TotalPreorder(v2, v3, e);
    TotalPreorder(e, v1, v2);
    TotalPreorder(v1, e, e);
    TotalPreorder(v2, e, e);
    TotalPreorder(v3, e, e);
  }

  /** What lies between two accepted versions is accepted. */
  lemma AcceptedIsConvex(constraint: string, v1: string, v2: string, v3: string)
    requires Accepts(constraint, v1) && Accepts(constraint, v3)
    requires ParseVersion(v1).Some? && ParseVersion(v2).Some? && ParseVersion(v3).Some?
    requires Compare(ParseVersion(v1).value, ParseVersion(v2).value) <= 0
    requires Compare(ParseVersion(v2).value, ParseVersion(v3).value) <= 0
    ensures Accepts(constraint, v2)
  {
    hide Compare, ParseVersion, PartHolds, Parts, FieldsOf, TrimSpace;
    var parts := Parts(FieldsOf(TrimSpace(constraint)));
    if TrimSpace(constraint) != "" {
      forall i | 0 <= i < |parts.value| ensures PartHolds(parts.value[i], ParseVersion(v2).value) {
        PartConvex(parts.value[i], ParseVersion(v1).value, ParseVersion(v2).value, ParseVersion(v3).value);
      }
    }
  }

  /** Splitting fails exactly when some comparator has no version after it. */
  lemma {:induction false} PartsFailIff(fields: seq<string>)
    ensures Parts(fields).None? <==>
            exists i :: 0 <= i < |fields| && IsComparator(fields[i])
                        && (i + 1 == |fields| || IsComparator(fields[i + 1]))
  {
    hide IsComparator;
    if fields != [] {
      var skip := if !IsComparator(fields[0]) then 1 else 2;
      if skip <= |fields| && (skip == 1 || !IsComparator(fields[1])) {
        var rest := fields[skip..];
        PartsFailIff(rest);
        assert forall i :: 0 <= i < |rest| ==> rest[i] == fields[i + skip];
        if i :| 0 <= i < |fields| && IsComparator(fields[i]) && (i + 1 == |fields| || IsComparator(fields[i + 1])) {
          assert i >= skip && rest[i - skip] == fields[i];
        }
        if j :| 0 <= j < |rest| && IsComparator(rest[j]) && (j + 1 == |rest| || IsComparator(rest[j + 1])) {
          assert fields[j + skip] == rest[j];
        }
      }
    }
  }

  // ------------------------------------------------------------------- spacing

  predicate IsGap(c: char) { c == ',' || IsSpace(c) }

  predicate Gaps(s: string) { forall i :: 0 <= i < |s| ==> IsGap(s[i]) }

  predicate Word(s: string) { s != "" && forall i :: 0 <= i < |s| ==> !IsGap(s[i]) }

  /** A comparator and a version as they are written: what stands before and between them. */
  datatype Item = Item(before: string, op: string, gap: string, version: string)

  /** The comparator may be missing; items after the first stand apart from the one before. */
  predicate WellWritten(items: seq<Item>) {
    forall i :: 0 <= i < |items| ==> Proper(items[i]) && (i > 0 ==> items[i].before != "")
  }

  predicate Proper(it: Item) {
    && Gaps(it.before) && Gaps(it.gap) && (if it.op == "" then it.gap == "" else IsComparator(it.op))
    && Word(it.version) && !IsComparator(it.version) && !IsComparator(it.op + it.version)
  }

  function TextOf(items: seq<Item>, end: string): string {
    if items == [] then end
    else items[0].before + (items[0].op + (items[0].gap + (items[0].version + TextOf(items[1..], end))))
  }

  function PartsWritten(items: seq<Item>): seq<string> {
    seq(|items|, i requires 0 <= i < |items| => items[i].op + items[i].version)
  }

  lemma {:induction false} WordEnds(w: string, rest: string)
    requires (forall i :: 0 <= i < |w| ==> !IsSpace(w[i])) && (rest == "" || IsSpace(rest[0]))
    ensures WordLength(w + rest) == |w|
  {
    if w == "" {
      assert w + rest == rest;
    } else {
      assert (w + rest)[1..] == w[1..] + rest;
      WordEnds(w[1..], rest);
    }
  }

  lemma ReplaceBoth(a: string, b: string)
    ensures ReplaceAll(a + b, ',', ' ') == ReplaceAll(a, ',', ' ') + ReplaceAll(b, ',', ' ')
  {}

  lemma FieldsOfWord(w: string, rest: string)
    requires Word(w) && (rest == "" || IsGap(rest[0]))
    ensures FieldsOf(w + rest) == [w] + FieldsOf(rest)
  {
    ReplaceBoth(w, rest);
    assert ReplaceAll(w, ',', ' ') == w;
    var after := ReplaceAll(rest, ',', ' ');
    WordEnds(w, after);
    assert (w + after)[..|w|] == w && (w + after)[|w|..] == after;
  }

  lemma {:induction false} FieldsOfGaps(g: string, rest: string)
    requires Gaps(g)
    ensures FieldsOf(g + rest) == FieldsOf(rest)
  {
    if g == "" {
      assert g + rest == rest;
    } else {
      ReplaceBoth([g[0]], g[1..] + rest);
      assert g + rest == [g[0]] + (g[1..] + rest);
      var after := ReplaceAll(g + rest, ',', ' ');
      assert IsSpace(after[0]) && after[1..] == ReplaceAll(g[1..] + rest, ',', ' ');
      FieldsOfGaps(g[1..], rest);
    }
  }

  lemma {:induction false} FieldsBeforeSpace(s: string, c: char)
    requires IsSpace(c)
    ensures Fields(s + [c]) == Fields(s)
    decreases |s|
  {
    if s == "" {
      assert s + [c] == [c] && [c][1..] == "";
    } else if IsSpace(s[0]) {
      assert (s + [c])[1..] == s[1..] + [c];
      FieldsBeforeSpace(s[1..], c);
    } else {
      var n := WordLength(s);
      SameWord(s, c);
      assert (s + [c])[..n] == s[..n] && (s + [c])[n..] == s[n..] + [c];
      FieldsBeforeSpace(s[n..], c);
    }
  }

  lemma {:induction false} SameWord(s: string, c: char)
    requires IsSpace(c)
    ensures WordLength(s + [c]) == WordLength(s)
  {
    if s != "" && !IsSpace(s[0]) {
      assert (s + [c])[1..] == s[1..] + [c];
      SameWord(s[1..], c);
    }
  }

  lemma {:induction false} FieldsOfTrimmed(s: string)
    ensures FieldsOf(TrimSpace(s)) == FieldsOf(s)
    decreases |s|
  {
    if s == "" {
    } else if IsSpace(s[0]) {
      FieldsOfGaps([s[0]], s[1..]);
      assert [s[0]] + s[1..] == s;
      FieldsOfTrimmed(s[1..]);
    } else if IsSpace(s[|s| - 1]) {
      var n := |s| - 1;
      ReplaceBoth(s[..n], [s[n]]);
      assert s[..n] + [s[n]] == s && ReplaceAll([s[n]], ',', ' ') == [s[n]];
      FieldsBeforeSpace(ReplaceAll(s[..n], ',', ' '), s[n]);
      FieldsOfTrimmed(s[..n]);
    }
  }

  lemma ComparatorIsWord(op: string)
    requires IsComparator(op)
    ensures Word(op)
  {}

  lemma TailStarts(items: seq<Item>, end: string)
    requires WellWritten(items) && Gaps(end) && (items != [] ==> items[0].before != "")
    ensures TextOf(items, end) == "" || IsGap(TextOf(items, end)[0])
  {}

  /** The parts of a constraint are its comparators, each with its version, however they are
      spaced. */
  lemma {:induction false} PartsOfText(items: seq<Item>, end: string)
    requires WellWritten(items) && Gaps(end)
    ensures Parts(FieldsOf(TextOf(items, end))) == Some(PartsWritten(items))
    decreases |items|
  {
    hide IsComparator, FieldsOf, IsGap, Gaps;
    if items == [] {
      FieldsOfGaps(end, "");
      assert end + "" == end && FieldsOf("") == [] by { NoFields(); }
    } else {
      var it, rest := items[0], TextOf(items[1..], end);
      assert forall i :: 0 <= i < |items| - 1 ==> items[1..][i] == items[i + 1];
      TailStarts(items[1..], end);
      PartsOfText(items[1..], end);
      FieldsOfItem(it, rest);
      assert PartsWritten(items) == [it.op + it.version] + PartsWritten(items[1..]);
    }
  }

  lemma NoFields()
    ensures FieldsOf("") == []
  {}

  lemma FieldsOfItem(it: Item, rest: string)
    requires Proper(it) && (rest == "" || IsGap(rest[0]))
    ensures Parts(FieldsOf(it.before + (it.op + (it.gap + (it.version + rest))))) ==
            Ahead([it.op + it.version], Parts(FieldsOf(rest)))
  {
    hide IsComparator, FieldsOf;
    FieldsOfGaps(it.before, it.op + (it.gap + (it.version + rest)));
    if it.gap == "" {
      if it.op != "" { ComparatorIsWord(it.op); }
      assert it.op + (it.gap + (it.version + rest)) == (it.op + it.version) + rest;
      FieldsOfWord(it.op + it.version, rest);
      assert ([it.op + it.version] + FieldsOf(rest))[1..] == FieldsOf(rest);
    } else {
      ComparatorIsWord(it.op);
      FieldsOfWord(it.op, it.gap + (it.version + rest));
      FieldsOfGaps(it.gap, it.version + rest);
      FieldsOfWord(it.version, rest);
      var fields := [it.op] + ([it.version] + FieldsOf(rest));
      assert fields[0] == it.op && fields[1] == it.version && fields[2..] == FieldsOf(rest);
    }
  }

  /** Neither blanks and commas between the parts, nor any between a comparator and its
      version, change what a constraint accepts: the versions on which every part holds. */
  lemma SpacingIrrelevant(items: seq<Item>, end: string, current: string)
    requires items != [] && WellWritten(items) && Gaps(end)
    ensures Accepts(TextOf(items, end), current) <==>
            && ParseVersion(current).Some?
            && forall i :: 0 <= i < |items| ==> PartHolds(items[i].op + items[i].version, ParseVersion(current).value)
  {
    hide *;
    PartsOfText(items, end);
    JoinedHold(items, current);
    AcceptsParts(TextOf(items, end), PartsWritten(items), current);
  }

  lemma AcceptsParts(text: string, parts: seq<string>, current: string)
    requires Parts(FieldsOf(text)) == Some(parts) && parts != []
    ensures Accepts(text, current) <==> ParseVersion(current).Some? && AllHold(parts, ParseVersion(current).value)
  {
    hide ParseVersion, AllHold, FieldsOf, TrimSpace;
    FieldsOfTrimmed(text);
    NoFields();
  }

  lemma JoinedHold(items: seq<Item>, current: string)
    ensures |PartsWritten(items)| == |items|
    ensures ParseVersion(current).Some? ==>
              (AllHold(PartsWritten(items), ParseVersion(current).value) <==>
               forall i :: 0 <= i < |items| ==> PartHolds(items[i].op + items[i].version, ParseVersion(current).value))
  {
    hide ParseVersion, PartHolds;
    if ParseVersion(current).None? { return; }
    var parts, v := PartsWritten(items), ParseVersion(current).value;
    if AllHold(parts, v) {
      forall i | 0 <= i < |items| ensures PartHolds(items[i].op + items[i].version, v) {
        assert PartHolds(parts[i], v);
      }
    }
  }

  // ------------------------------------------------ what versions and operators mean

  /** The text of a version: three numerals, and what stands after a hyphen. */
  function VersionText(a: string, b: string, c: string, prerelease: seq<string>): string {
    CoreText(a, b, c) + Tail(prerelease)
  }

  function CoreText(a: string, b: string, c: string): string { Joined([a, b, c], '.') }

  /** A numeral whose number is an `int`. */
  predicate Numeral(s: string) { Digits(s) && s != "" && NatOf(s) <= MAX_INT64 }

  predicate Solid(s: string) { forall i :: 0 <= i < |s| ==> !IsSpace(s[i]) }

  /** Build metadata: nothing, or what a plus begins. */
  predicate Metadata(s: string) { s == "" || (s[0] == '+' && Solid(s)) }

  lemma SolidBoth(a: string, b: string)
    requires Solid(a) && Solid(b)
    ensures Solid(a + b)
  {
    hide IsSpace;
  }

  lemma NumeralChars(s: string, c: char)
    requires Numeral(s) && !IsDigit(c)
    ensures c !in s && Atoi(s) == Some(NatOf(s))
  {
    assert IsDigit(s[0]);
  }

  lemma CoreIs(a: string, b: string, c: string)
    requires Numeral(a) && Numeral(b) && Numeral(c)
    ensures var s := CoreText(a, b, c);
            && Split(s, '.') == [a, b, c] && '-' !in s && '+' !in s && s != "" && IsDigit(s[0])
            && Solid(s)
  {
    var parts := [a, b, c];
    forall d | !IsDigit(d) && d != '.' ensures d !in CoreText(a, b, c) {
      forall i | 0 <= i < 3 ensures d !in parts[i] { NumeralChars(parts[i], d); }
      NotInJoined(parts, '.', d);
    }
    forall i | 0 <= i < 3 ensures '.' !in parts[i] { NumeralChars(parts[i], '.'); }
    SplitOfJoined(parts, '.');
    var s := CoreText(a, b, c);
    forall i | 0 <= i < |s| ensures !IsSpace(s[i]) { assert s[i] in s; }
    assert IsDigit(a[0]) && s[0] == a[0];
  }

  lemma IdentifierChars(prerelease: seq<string>, c: char)
    requires forall i :: 0 <= i < |prerelease| ==> ValidIdentifier(prerelease[i])
    requires !IsAlnumHyphen(c)
    ensures forall i :: 0 <= i < |prerelease| ==> c !in prerelease[i]
  {}

  lemma PrereleaseText(prerelease: seq<string>)
    requires prerelease != [] && forall i :: 0 <= i < |prerelease| ==> ValidIdentifier(prerelease[i])
    ensures var s := Joined(prerelease, '.');
            Split(s, '.') == prerelease && '+' !in s && Solid(s)
  {
    hide ValidIdentifier, Joined, Split;
    IdentifierChars(prerelease, '.');
    SplitOfJoined(prerelease, '.');
    IdentifierChars(prerelease, '+');
    NotInJoined(prerelease, '.', '+');
    var s := Joined(prerelease, '.');
    forall i | 0 <= i < |s| ensures !IsSpace(s[i]) {
      if IsSpace(s[i]) {
        IdentifierChars(prerelease, s[i]);
        NotInJoined(prerelease, '.', s[i]);
      }
    }
  }

  function Tail(prerelease: seq<string>): string {
    if prerelease == [] then "" else "-" + Joined(prerelease, '.')
  }

  lemma TailIs(prerelease: seq<string>)
    requires forall i :: 0 <= i < |prerelease| ==> ValidIdentifier(prerelease[i])
    ensures '+' !in Tail(prerelease) && Solid(Tail(prerelease))
  {
    hide ValidIdentifier, Joined, Split;
    if prerelease != [] {
      PrereleaseText(prerelease);
      SolidBoth("-", Joined(prerelease, '.'));
    }
  }

  /** Something that a plus begins, or nothing. */
  predicate PlusTail(s: string) { s == "" || s[0] == '+' }

  /** An identifier as far as splitting is concerned. */
  predicate Uncut(identifier: string) { '.' !in identifier && '+' !in identifier }

  /** The text is that of the version, with or without a `v` before and a plus behind: three
      numerals, and after a hyphen any identifiers. */
  ghost predicate Writes(text: string, a: string, b: string, c: string, build: string, v: Version) {
    && Numeral(a) && Numeral(b) && Numeral(c) && PlusTail(build)
    && v.major == NatOf(a) && v.minor == NatOf(b) && v.patch == NatOf(c)
    && (forall i :: 0 <= i < |v.prerelease| ==> Uncut(v.prerelease[i]))
    && (text == VersionText(a, b, c, v.prerelease) + build || text == "v" + VersionText(a, b, c, v.prerelease) + build)
  }

  lemma UncutTail(prerelease: seq<string>)
    requires forall i :: 0 <= i < |prerelease| ==> Uncut(prerelease[i])
    ensures '+' !in Tail(prerelease)
    ensures prerelease != [] ==> Split(Joined(prerelease, '.'), '.') == prerelease
  {
    hide Joined, Split;
    if prerelease != [] {
      SplitOfJoined(prerelease, '.');
      NotInJoined(prerelease, '.', '+');
    }
  }

  lemma WrittenParses(text: string, a: string, b: string, c: string, build: string, v: Version)
    requires Writes(TrimSpace(text), a, b, c, build, v)
    ensures ParseVersion(text) == Some(v)
  {
    hide Digits, NatOf, Split, Joined, Atoi, CutAt, TrimSpace, CoreText, Tail, Numeral, Uncut;
    var core := CoreText(a, b, c);
    CoreIs(a, b, c);
    UncutTail(v.prerelease);
    CutBuild(core + Tail(v.prerelease), build);
    CutTail(core, v.prerelease);
    NumeralChars(a, '.');
    NumeralChars(b, '.');
    NumeralChars(c, '.');
    var whole := VersionText(a, b, c, v.prerelease) + build;
    assert whole[0] == core[0];
    assert ("v" + VersionText(a, b, c, v.prerelease) + build)[1..] == whole;
    assert TrimPrefix(TrimSpace(text), 'v') == whole;
  }

  lemma NumeralRead(core: string, parts: seq<string>, i: nat)
    requires parts == Split(core, '.') && i < |parts| && '-' !in core && '+' !in core
    requires Atoi(parts[i]).Some?
    ensures Numeral(parts[i]) && Atoi(parts[i]) == Some(NatOf(parts[i]))
  {
    hide Split, Joined;
    JoinedOfSplit(core, '.');
    forall c | c in parts[i] ensures c in core { InJoined(parts, '.', i, c); }
    assert parts[i] != "" ==> parts[i][0] in parts[i];
  }

  lemma CoreRead(core: string)
    requires |Split(core, '.')| == 3 && '-' !in core && '+' !in core
    requires forall i :: 0 <= i < 3 ==> Atoi(Split(core, '.')[i]).Some?
    ensures var parts := Split(core, '.');
            && core == CoreText(parts[0], parts[1], parts[2])
            && forall i :: 0 <= i < 3 ==> Numeral(parts[i]) && Atoi(parts[i]) == Some(NatOf(parts[i]))
  {
    hide Split, Joined, Atoi, Digits, NatOf;
    var parts := Split(core, '.');
    JoinedOfSplit(core, '.');
    forall i | 0 <= i < 3 ensures Numeral(parts[i]) && Atoi(parts[i]) == Some(NatOf(parts[i])) {
      NumeralRead(core, parts, i);
    }
    assert parts == [parts[0], parts[1], parts[2]];
  }

  lemma ParsedIsWritten(text: string) returns (a: string, b: string, c: string, build: string)
    requires ParseVersion(text).Some?
    ensures Writes(TrimSpace(text), a, b, c, build, ParseVersion(text).value)
  {
    hide Split, Joined, Atoi, TrimSpace, TrimPrefix, NatOf, Digits, CutAt, CoreText, Uncut;
    var v := ParseVersion(text).value;
    var plus := CutAt(TrimPrefix(TrimSpace(text), 'v'), '+');
    var hyphen := CutAt(plus.before, '-');
    var parts := Split(hyphen.before, '.');
    assert '+' !in hyphen.before && '-' !in hyphen.before;
    CoreRead(hyphen.before);
    a, b, c := parts[0], parts[1], parts[2];
    build := if plus.found then "+" + plus.after else "";
    if hyphen.found { IdentifiersUncut(hyphen.after, v.prerelease); }
    assert plus.before == CoreText(a, b, c) + Tail(v.prerelease);
    Reassembled(TrimSpace(text), VersionText(a, b, c, v.prerelease), build);
  }

  lemma Reassembled(s: string, version: string, build: string)
    requires TrimPrefix(s, 'v') == version + build
    ensures s == version + build || s == "v" + version + build
  {
    if HasPrefix(s, 'v') { assert s == "v" + (version + build) == "v" + version + build; }
  }

  lemma IdentifiersUncut(rest: string, prerelease: seq<string>)
    requires '+' !in rest && prerelease == Split(rest, '.')
    ensures (forall i :: 0 <= i < |prerelease| ==> Uncut(prerelease[i])) && Joined(prerelease, '.') == rest
  {
    hide Joined;
    JoinedOfSplit(rest, '.');
    forall i | 0 <= i < |prerelease| ensures Uncut(prerelease[i]) {
      if '+' in prerelease[i] { InJoined(prerelease, '.', i, '+'); }
    }
  }

  /** A text is read as a version exactly if, blanks around it removed, it writes that one. */
  lemma ParsesExactly(text: string, v: Version)
    ensures ParseVersion(text) == Some(v) <==> exists a, b, c, build :: Writes(TrimSpace(text), a, b, c, build, v)
  {
    hide ParseVersion, Writes, TrimSpace;
    if ParseVersion(text) == Some(v) {
      var a, b, c, build := ParsedIsWritten(text);
    }
    if a, b, c, build :| Writes(TrimSpace(text), a, b, c, build, v) { WrittenParses(text, a, b, c, build, v); }
  }

  /** Reading a version undoes writing it, with or without a `v` before and metadata behind. */
  lemma ParseOfText(a: string, b: string, c: string, prerelease: seq<string>, build: string)
    requires Numeral(a) && Numeral(b) && Numeral(c) && Metadata(build)
    requires forall i :: 0 <= i < |prerelease| ==> ValidIdentifier(prerelease[i])
    ensures var text, v := VersionText(a, b, c, prerelease) + build, Version(NatOf(a), NatOf(b), NatOf(c), prerelease);
            ParseVersion(text) == Some(v) && ParseVersion("v" + text) == Some(v)
  {
    hide Digits, NatOf, ValidIdentifier, Atoi, TrimSpace, Solid, CoreText, Tail, ParseVersion;
    var text, v := VersionText(a, b, c, prerelease) + build, Version(NatOf(a), NatOf(b), NatOf(c), prerelease);
    CoreIs(a, b, c);
    TailIs(prerelease);
    WrittenTrimmed(CoreText(a, b, c), Tail(prerelease), build);
    IdentifierChars(prerelease, '.');
    IdentifierChars(prerelease, '+');
    assert "v" + text == "v" + VersionText(a, b, c, prerelease) + build;
    WrittenParses(text, a, b, c, build, v);
    WrittenParses("v" + text, a, b, c, build, v);
  }

  lemma WrittenTrimmed(core: string, tail: string, build: string)
    requires core != "" && IsDigit(core[0]) && Solid(core) && Solid(tail) && Metadata(build)
    ensures var text := core + tail + build;
            && TrimSpace(text) == text && TrimPrefix(text, 'v') == text
            && TrimSpace("v" + text) == "v" + text && TrimPrefix("v" + text, 'v') == text
  {
    hide TrimSpace;
    var text := core + tail + build;
    SolidBoth(core, tail);
    SolidBoth(core + tail, build);
    SolidBoth("v", text);
    Unblank(text);
    Unblank("v" + text);
    assert text[0] == core[0];
    assert ("v" + text)[1..] == text;
  }

  lemma CutBuild(text: string, build: string)
    requires '+' !in text && PlusTail(build)
    ensures CutAt(text + build, '+').before == text
  {
    hide CutAt;
    if build == "" {
      assert text + build == text;
      var cut := CutAt(text, '+');
      assert cut.found ==> '+' in cut.before + ['+'] + cut.after;
    } else {
      assert text + build == text + ['+'] + build[1..];
      CutAtFirst(text, '+', build[1..]);
    }
  }

  lemma CutTail(core: string, prerelease: seq<string>)
    requires '-' !in core && forall i :: 0 <= i < |prerelease| ==> Uncut(prerelease[i])
    ensures var cut := CutAt(core + Tail(prerelease), '-');
            && cut.before == core && (cut.found <==> prerelease != [])
            && (prerelease != [] ==> Split(cut.after, '.') == prerelease)
  {
    hide Uncut, CutAt, Split, Joined;
    if prerelease == [] {
      assert core + "" == core;
      var cut := CutAt(core, '-');
      assert cut.found ==> '-' in cut.before + ['-'] + cut.after;
    } else {
      UncutTail(prerelease);
      var rest := Joined(prerelease, '.');
      assert core + ("-" + rest) == core + ['-'] + rest;
      CutAtFirst(core, '-', rest);
    }
  }

  /** What an operator asks, in terms of the precedence of the standard; none asks equality. */
  ghost predicate Meets(op: string, actual: Version, expected: Version) {
    if op == ">" then Precedes(expected, actual)
    else if op == ">=" then Precedes(expected, actual) || actual == expected
    else if op == "<" then Precedes(actual, expected)
    else if op == "<=" then Precedes(actual, expected) || actual == expected
    else actual == expected
  }

  ghost predicate Sound(v: Version) { ValidVersion(v) && WellClassified(v) }

  lemma NoComparatorFirst(text: string)
    requires Word(text) && ParseVersion(text).Some?
    ensures text[0] !in "<>="
  {
    hide Split, CutAt, NatOf, TrimSpace;
    if text[0] in "<>=" {
      Unblank(text);
      assert TrimPrefix(text, 'v') == text;
      var cut := CutAt(text, '+');
      assert cut.before != "" && cut.before[0] == text[0];
      var core := CutAt(cut.before, '-');
      assert core.before != "" && core.before[0] == text[0];
      FirstPart(core.before);
    }
  }

  lemma FirstPart(s: string)
    requires s != "" && s[0] != '.'
    ensures Split(s, '.')[0] != "" && Split(s, '.')[0][0] == s[0]
  {}

  predicate Signs(s: string) { forall i :: 0 <= i < |s| ==> s[i] in "<>=" }

  /** Only the comparator in front decides which operator is found. */
  lemma {:induction false} ComparisonOf(op: string, text: string, operators: seq<string>)
    requires Word(text) && text[0] !in "<>=" && forall i :: 0 <= i < |operators| ==> Signs(operators[i])
    requires operators != [] && Comparison(op, operators) == Comparator(op, "") && op in operators
    ensures Comparison(op + text, operators) == Comparator(op, text)
  {
    hide TrimSpace, IsGap;
    SignsInFront(operators[0], op, text);
    if operators[0] <= op {
      assert (op + text)[|op|..] == text;
      SolidWord(text);
    } else {
      ComparisonOf(op, text, operators[1..]);
    }
  }

  lemma SignsInFront(first: string, op: string, text: string)
    requires Signs(first) && text != "" && text[0] !in "<>="
    ensures first <= op + text <==> first <= op
  {
    var part := op + text;
    assert part[|op|] == text[0] && part[..|op|] == op;
    if first <= part { assert |first| <= |op| && first == part[..|first|] == op[..|first|]; }
  }

  lemma SolidWord(text: string)
    requires Word(text)
    ensures TrimSpace(text) == text
  {
    Unblank(text);
  }

  lemma {:induction false} NoComparison(text: string, operators: seq<string>)
    requires Word(text) && text[0] !in "<>="
    requires forall i :: 0 <= i < |operators| ==> Signs(operators[i]) && operators[i] != ""
    ensures Comparison(text, operators) == Comparator("=", text)
  {
    hide TrimSpace, IsGap;
    if operators != [] {
      assert operators[0][0] in "<>=";
      NoComparison(text, operators[1..]);
    }
  }

  /** Read with the operators of the code, a comparator is itself: the longer ones come first. */
  lemma ItselfFirst(op: string)
    requires IsComparator(op)
    ensures Comparison(op, OPERATORS) == Comparator(op, "")
    ensures forall i :: 0 <= i < |OPERATORS| ==> Signs(OPERATORS[i]) && OPERATORS[i] != ""
  {
    hide TrimSpace;
    LongerFirst();
    var j :| 0 <= j < |OPERATORS| && OPERATORS[j] == op;
    FirstFound(OPERATORS, 0, j);
    assert OPERATORS[0..] == OPERATORS;
  }

  lemma LongerFirst()
    ensures forall i, j :: 0 <= i < j < |OPERATORS| ==> !StartsWith(OPERATORS[j], OPERATORS[i])
    ensures forall i :: 0 <= i < |OPERATORS| ==> Signs(OPERATORS[i]) && OPERATORS[i] != ""
  {
    forall i, j | 0 <= i < j < |OPERATORS| ensures !StartsWith(OPERATORS[j], OPERATORS[i]) {
      assert |OPERATORS[i]| > |OPERATORS[j]| || OPERATORS[i][0] != OPERATORS[j][0];
    }
  }

  lemma {:induction false} FirstFound(ops: seq<string>, k: nat, j: nat)
    requires k <= j < |ops| && forall i :: k <= i < j ==> !StartsWith(ops[j], ops[i])
    ensures Comparison(ops[j], ops[k..]) == Comparator(ops[j], "")
    decreases j - k
  {
    Skip(ops[j], ops, k);
    if k < j { FirstFound(ops, k + 1, j); }
    hide StartsWith, Comparison;
    assert k == j ==> ops[j][|ops[j]|..] == "" && StartsWith(ops[j], ops[k]);
  }

  lemma Skip(part: string, ops: seq<string>, k: nat)
    requires k < |ops|
    ensures Comparison(part, ops[k..]) ==
            if StartsWith(part, ops[k]) then Comparator(ops[k], TrimSpace(part[|ops[k]|..]))
            else Comparison(part, ops[k + 1..])
  {
    hide TrimSpace;
    assert ops[k..][1..] == ops[k + 1..] && ops[k..][0] == ops[k];
  }

  lemma PartIs(op: string, text: string)
    requires (op == "" || IsComparator(op)) && Word(text) && ParseVersion(text).Some?
    ensures Comparison(op + text, OPERATORS) == Comparator(if op == "" then "=" else op, text)
  {
    hide ParseVersion, Comparison;
    NoComparatorFirst(text);
    ItselfFirst(if op == "" then "=" else op);
    if op == "" {
      NoComparison(text, OPERATORS);
      assert "" + text == text;
    } else {
      ComparisonOf(op, text, OPERATORS);
    }
  }

  lemma OperatorMeans(op: string, actual: Version, expected: Version)
    requires (op == "" || IsComparator(op)) && Sound(actual) && Sound(expected)
    ensures Holds(if op == "" then "=" else op, Compare(actual, expected)) <==> Meets(op, actual, expected)
  {
    hide Compare, Precedes, ValidVersion, WellClassified;
    OrderedAsSpelled(actual, expected);
  }

  /** A part holds of a version exactly if the version stands to the one in the part as the
      operator asks. */
  lemma PartMeaning(op: string, text: string, expected: Version, actual: Version)
    requires (op == "" || IsComparator(op)) && Word(text) && ParseVersion(text) == Some(expected)
    requires Sound(actual) && Sound(expected)
    ensures PartHolds(op + text, actual) <==> Meets(op, actual, expected)
  {
    hide Holds, Compare, Meets, ParseVersion, Comparison, Sound, Word, IsComparator;
    PartIs(op, text);
    OperatorMeans(op, actual, expected);
  }

  /** What a constraint accepts: the versions that stand to each of its versions as the
      operator before it asks. */
  lemma AcceptsAsSpelled(items: seq<Item>, expected: seq<Version>, end: string, current: string, actual: Version)
    requires items != [] && WellWritten(items) && Gaps(end) && |expected| == |items|
    requires ParseVersion(current) == Some(actual) && Sound(actual)
    requires forall i :: 0 <= i < |items| ==> ParseVersion(items[i].version) == Some(expected[i]) && Sound(expected[i])
    ensures Accepts(TextOf(items, end), current) <==>
            forall i :: 0 <= i < |items| ==> Meets(items[i].op, actual, expected[i])
  {
    hide ParseVersion, PartHolds, Meets, Sound, Accepts, TextOf, Gaps, Word, IsComparator;
    SpacingIrrelevant(items, end, current);
    forall i | 0 <= i < |items|
      ensures PartHolds(items[i].op + items[i].version, actual) <==> Meets(items[i].op, actual, expected[i]) {
      assert Proper(items[i]);
      PartMeaning(items[i].op, items[i].version, expected[i], actual);
    }
  }
}

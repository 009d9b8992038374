/** Semantic versions and comparator sets: the order the code uses, how it meets
    Semantic Versioning 2.0.0, and what a constraint accepts. */
module SemVer {
  import opened Options
  import opened Text
  import opened Decimal

  datatype Version = Version(major: nat, minor: nat, patch: nat, prerelease: seq<string>)

  type Sign = int

  function CompareInts(a: int, b: int): Sign { if a < b then -1 else if a > b then 1 else 0 }

  function CompareText(a: string, b: string): Sign { if Less(a, b) then -1 else if Less(b, a) then 1 else 0 }

  /** `comparePrereleaseIdentifier`. */
  function CompareIdentifier(a: string, b: string): Sign {
    var x, y := Atoi(a), Atoi(b);
    if x.Some? && y.Some? then CompareInts(x.value, y.value)
    else if x.Some? then -1
    else if y.Some? then 1
    else CompareText(a, b)
  }

  /** The loop over two identifier lists, and what the lengths decide after it. */
  function CompareLists(a: seq<string>, b: seq<string>): Sign {
    if a == [] || b == [] then CompareInts(|a|, |b|)
    else if CompareIdentifier(a[0], b[0]) != 0 then CompareIdentifier(a[0], b[0])
    else CompareLists(a[1..], b[1..])
  }

  function ComparePrerelease(a: seq<string>, b: seq<string>): Sign {
    if a == [] && b == [] then 0 else if a == [] then 1 else if b == [] then -1 else CompareLists(a, b)
  }

  function CompareNumbers(a: Version, b: Version): Sign {
    if a.major != b.major then CompareInts(a.major, b.major)
    else if a.minor != b.minor then CompareInts(a.minor, b.minor)
    else CompareInts(a.patch, b.patch)
  }

  function Compare(a: Version, b: Version): Sign {
    if CompareNumbers(a, b) != 0 then CompareNumbers(a, b) else ComparePrerelease(a.prerelease, b.prerelease)
  }

  lemma {:induction false} CompareListsFrom(a: seq<string>, b: seq<string>, i: nat)
    requires i <= |a| && i <= |b| && forall j :: 0 <= j < i ==> CompareIdentifier(a[j], b[j]) == 0
    ensures CompareLists(a, b) == CompareLists(a[i..], b[i..])
  {
    hide CompareIdentifier;
    if i > 0 { CompareListsFrom(a[1..], b[1..], i - 1); }
  }

  /** `compareSemanticVersion`. */
  method CompareSemanticVersion(left: Version, right: Version) returns (r: Sign)
    ensures r == Compare(left, right)
  {
    hide CompareIdentifier;
    var pairs := [(left.major, right.major), (left.minor, right.minor), (left.patch, right.patch)];
    for k := 0 to |pairs|
      invariant forall j :: 0 <= j < k ==> pairs[j].0 == pairs[j].1
    {
      assert k > 0 ==> left.major == right.major by { if k > 0 { assert pairs[0].0 == pairs[0].1; } }
      assert k > 1 ==> left.minor == right.minor by { if k > 1 { assert pairs[1].0 == pairs[1].1; } }
      if pairs[k].0 < pairs[k].1 { return -1; }
      if pairs[k].0 > pairs[k].1 { return 1; }
    }
    assert pairs[0].0 == pairs[0].1 && pairs[1].0 == pairs[1].1 && pairs[2].0 == pairs[2].1;
    var a, b := left.prerelease, right.prerelease;
    if |a| == 0 && |b| == 0 { return 0; }
    if |a| == 0 { return 1; }
    if |b| == 0 { return -1; }
    var i := 0;
    while i < |a| && i < |b|
      invariant i <= |a| && i <= |b| && forall j :: 0 <= j < i ==> CompareIdentifier(a[j], b[j]) == 0
    {
      var comparison := CompareIdentifier(a[i], b[i]);
      if comparison != 0 {
        CompareListsFrom(a, b, i);
        assert a[i..][0] == a[i] && b[i..][0] == b[i];
        return comparison;
      }
      i := i + 1;
    }
    CompareListsFrom(a, b, i);
    if |a| < |b| { return -1; }
    if |a| > |b| { return 1; }
    return 0;
  }

  // ------------------------------------------------------------ a total preorder

  lemma IdentifierOrder(a: string, b: string, c: string)
    ensures CompareIdentifier(a, a) == 0
    ensures CompareIdentifier(b, a) == 0 - CompareIdentifier(a, b)
    ensures CompareIdentifier(a, b) == 0 ==> CompareIdentifier(a, c) == CompareIdentifier(b, c)
    ensures CompareIdentifier(a, b) < 0 && CompareIdentifier(b, c) < 0 ==> CompareIdentifier(a, c) < 0
  {
    hide Less, Atoi;
    LessTrichotomy(a, a);
    LessTrichotomy(a, b);
    LessTrichotomy(b, c);
    LessTrichotomy(a, c);
    if Less(a, b) && Less(b, c) { LessTransitive(a, b, c); }
  }

  lemma {:induction false} ListsOrder(a: seq<string>, b: seq<string>, c: seq<string>)
    ensures CompareLists(a, a) == 0
    ensures CompareLists(b, a) == 0 - CompareLists(a, b)
    ensures CompareLists(a, b) == 0 ==> CompareLists(a, c) == CompareLists(b, c)
    ensures CompareLists(a, b) < 0 && CompareLists(b, c) < 0 ==> CompareLists(a, c) < 0
  {
    hide CompareIdentifier;
    if a != [] { IdentifierOrder(a[0], a[0], a[0]); }
    if a != [] && b != [] { IdentifierOrder(a[0], b[0], b[0]); }
    if b != [] && c != [] { IdentifierOrder(b[0], c[0], c[0]); }
    if a != [] && b != [] && c != [] {
      IdentifierOrder(a[0], b[0], c[0]);
      IdentifierOrder(b[0], c[0], a[0]);
      IdentifierOrder(c[0], a[0], b[0]);
    }
    if a != [] || b != [] { ListsOrder(Rest(a), Rest(b), Rest(c)); }
  }

  function Rest(s: seq<string>): seq<string> { if s == [] then [] else s[1..] }

  lemma PrereleaseOrder(a: seq<string>, b: seq<string>, c: seq<string>)
    ensures ComparePrerelease(a, a) == 0
    ensures ComparePrerelease(b, a) == 0 - ComparePrerelease(a, b)
    ensures ComparePrerelease(a, b) == 0 ==> ComparePrerelease(a, c) == ComparePrerelease(b, c)
    ensures ComparePrerelease(a, b) < 0 && ComparePrerelease(b, c) < 0 ==> ComparePrerelease(a, c) < 0
  {
    hide CompareLists;
    ListsOrder(a, b, c);
  }

  /** The order is a total preorder: reflexive, antisymmetric in sign, and transitive. */
  lemma TotalPreorder(a: Version, b: Version, c: Version)
    ensures Compare(a, a) == 0
    ensures -1 <= Compare(a, b) <= 1 && Compare(b, a) == 0 - Compare(a, b)
    ensures Compare(a, b) == 0 ==> Compare(a, c) == Compare(b, c)
    ensures Compare(a, b) <= 0 && Compare(b, c) <= 0 ==>
              Compare(a, c) <= 0 && (Compare(a, c) == 0 ==> Compare(a, b) == 0 && Compare(b, c) == 0)
  {
    hide ComparePrerelease;
    PrereleaseOrder(a.prerelease, b.prerelease, c.prerelease);
    PrereleaseOrder(b.prerelease, c.prerelease, a.prerelease);
    PrereleaseOrder(c.prerelease, a.prerelease, b.prerelease);
    SignsOnly(a.prerelease, b.prerelease);
  }

  lemma {:induction false} ListSigns(a: seq<string>, b: seq<string>)
    ensures -1 <= CompareLists(a, b) <= 1
  {
    hide Atoi, Less;
    if a != [] && b != [] { ListSigns(a[1..], b[1..]); }
  }

  lemma SignsOnly(a: seq<string>, b: seq<string>)
    ensures -1 <= ComparePrerelease(a, b) <= 1
  {
    hide CompareLists;
    ListSigns(a, b);
  }

  // --------------------------------------- item 11 of Semantic Versioning 2.0.0

  predicate IsAlnumHyphen(c: char) { IsDigit(c) || 'a' <= c <= 'z' || 'A' <= c <= 'Z' || c == '-' }

  predicate IsNumeric(identifier: string) { identifier != "" && Digits(identifier) }

  /** Item 9: characters of an identifier, and no leading zero in a numeric one. */
  predicate ValidIdentifier(identifier: string) {
    && identifier != "" && (forall i :: 0 <= i < |identifier| ==> IsAlnumHyphen(identifier[i]))
    && (IsNumeric(identifier) && |identifier| > 1 ==> identifier[0] != '0')
  }

  /** Item 11.4: numerically if both are digits only, in ASCII order if neither is, and
      digits below everything else. */
  function SpecIdentifier(a: string, b: string): Sign {
    if IsNumeric(a) && IsNumeric(b) then CompareInts(NatOf(a), NatOf(b))
    else if IsNumeric(a) then -1
    else if IsNumeric(b) then 1
    else CompareText(a, b)
  }

  function SpecLists(a: seq<string>, b: seq<string>): Sign {
    if a == [] || b == [] then CompareInts(|a|, |b|)
    else if SpecIdentifier(a[0], b[0]) != 0 then SpecIdentifier(a[0], b[0])
    else SpecLists(a[1..], b[1..])
  }

  /** Items 11.2 to 11.4. */
  function SpecCompare(a: Version, b: Version): Sign {
    if CompareNumbers(a, b) != 0 then CompareNumbers(a, b)
    else if a.prerelease == [] && b.prerelease == [] then 0
    else if a.prerelease == [] then 1
    else if b.prerelease == [] then -1
    else SpecLists(a.prerelease, b.prerelease)
  }

  /** Item 11.4 for two identifiers, spelled out: digits by their number, others by their text,
      digits below others. */
  ghost predicate IdentifierBelow(x: string, y: string) {
    if IsNumeric(x) then !IsNumeric(y) || NatOf(x) < NatOf(y) else !IsNumeric(y) && TextBelow(x, y)
  }

  ghost predicate ListBelowAt(a: seq<string>, b: seq<string>, i: nat) {
    i <= |a| && i < |b| && a[..i] == b[..i] && (i == |a| || IdentifierBelow(a[i], b[i]))
  }

  /** Items 11.3 and 11.4 for what stands after the hyphen: nothing ranks highest, otherwise the
      first difference decides, where a shorter list ranks below a longer. */
  ghost predicate PrereleaseBelow(a: seq<string>, b: seq<string>) {
    a != [] && (b == [] || exists i :: ListBelowAt(a, b, i))
  }

  /** Item 11 of the standard, spelled out: major, then minor, then patch, then pre-release. */
  ghost predicate Precedes(a: Version, b: Version) {
    || a.major < b.major
    || (a.major == b.major && a.minor < b.minor)
    || (a.major == b.major && a.minor == b.minor && a.patch < b.patch)
    || (a.major == b.major && a.minor == b.minor && a.patch == b.patch && PrereleaseBelow(a.prerelease, b.prerelease))
  }

  lemma IdentifierSpelled(x: string, y: string)
    requires ValidIdentifier(x) && ValidIdentifier(y)
    ensures SpecIdentifier(x, y) < 0 <==> IdentifierBelow(x, y)
    ensures SpecIdentifier(x, y) == 0 <==> x == y
  {
    hide TextBelow, Less;
    if IsNumeric(x) && IsNumeric(y) {
      if NatOf(x) == NatOf(y) { SameNumeral(x, y); }
    } else {
      LessIsBelow(x, y);
      LessTrichotomy(x, y);
    }
  }

  lemma SameNumeral(x: string, y: string)
    requires ValidIdentifier(x) && ValidIdentifier(y) && IsNumeric(x) && IsNumeric(y) && NatOf(x) == NatOf(y)
    ensures x == y
  {
    if x[0] == '0' { ZeroNumeral(x, y); }
    if y[0] == '0' { ZeroNumeral(y, x); }
    if x[0] != '0' && y[0] != '0' { NatOfCanonical(x, y); }
  }

  lemma ZeroNumeral(x: string, y: string)
    requires ValidIdentifier(x) && ValidIdentifier(y) && IsNumeric(x) && IsNumeric(y) && NatOf(x) == NatOf(y)
    requires x[0] == '0'
    ensures x == y
  {
    assert x == "0" && x[..0] == "" && NatOf(x) == 0;
    if y[0] != '0' { NatOfAtLeast(y); }
  }

  lemma {:induction false} ListsSpelled(a: seq<string>, b: seq<string>)
    requires forall i :: 0 <= i < |a| ==> ValidIdentifier(a[i])
    requires forall i :: 0 <= i < |b| ==> ValidIdentifier(b[i])
    ensures SpecLists(a, b) < 0 <==> exists i :: ListBelowAt(a, b, i)
    ensures SpecLists(a, b) == 0 <==> a == b
  {
    hide ValidIdentifier, SpecIdentifier, IdentifierBelow;
    if a == [] || b == [] {
      assert a == [] && b != [] ==> ListBelowAt(a, b, 0);
    } else {
      IdentifierSpelled(a[0], b[0]);
      if SpecIdentifier(a[0], b[0]) == 0 {
        ListsSpelled(a[1..], b[1..]);
        assert a == [a[0]] + a[1..] && b == [b[0]] + b[1..];
        if i: nat :| ListBelowAt(a[1..], b[1..], i) {
          assert a[..i + 1] == [a[0]] + a[1..][..i] && b[..i + 1] == [b[0]] + b[1..][..i];
          assert ListBelowAt(a, b, i + 1);
        }
        if i: nat :| ListBelowAt(a, b, i) {
          BelowDiffers(a[0]);
          assert i > 0 && a[1..][..i - 1] == a[..i][1..] && b[1..][..i - 1] == b[..i][1..];
          assert ListBelowAt(a[1..], b[1..], i - 1);
        }
      } else {
        if SpecIdentifier(a[0], b[0]) < 0 { assert ListBelowAt(a, b, 0); }
        if i: nat :| ListBelowAt(a, b, i) { assert i == 0; }
      }
    }
  }

  lemma BelowDiffers(x: string)
    ensures !IdentifierBelow(x, x)
  {
    LessIsBelow(x, x);
    LessTrichotomy(x, x);
  }

  lemma {:induction false} SpecListsSigns(a: seq<string>, b: seq<string>)
    ensures SpecLists(b, a) == 0 - SpecLists(a, b)
  {
    hide Less, NatOf, IsNumeric;
    if a != [] && b != [] {
      LessTrichotomy(a[0], b[0]);
      SpecListsSigns(a[1..], b[1..]);
    }
  }

  /** The comparison by signs is the order as the standard spells it. */
  lemma SpecIsPrecedence(a: Version, b: Version)
    requires ValidVersion(a) && ValidVersion(b)
    ensures SpecCompare(a, b) < 0 <==> Precedes(a, b)
    ensures SpecCompare(a, b) > 0 <==> Precedes(b, a)
    ensures SpecCompare(a, b) == 0 <==> a == b
  {
    hide ValidIdentifier, SpecLists, ListBelowAt;
    ListsSpelled(a.prerelease, b.prerelease);
    ListsSpelled(b.prerelease, a.prerelease);
    SpecListsSigns(a.prerelease, b.prerelease);
  }

  /** The code takes it for a number exactly when the standard does. What fails: a hyphen
      before digits, and digits beyond a 64-bit `int`. */
  predicate Classified(identifier: string) { Atoi(identifier).Some? <==> IsNumeric(identifier) }

  predicate ValidVersion(v: Version) {
    forall i :: 0 <= i < |v.prerelease| ==> ValidIdentifier(v.prerelease[i])
  }

  predicate WellClassified(v: Version) {
    forall i :: 0 <= i < |v.prerelease| ==> Classified(v.prerelease[i])
  }

  lemma ClassifiedAgree(a: string, b: string)
    requires ValidIdentifier(a) && ValidIdentifier(b) && Classified(a) && Classified(b)
    ensures CompareIdentifier(a, b) == SpecIdentifier(a, b)
  {
    hide Less;
    if IsNumeric(a) { NumericIsNat(a); }
    if IsNumeric(b) { NumericIsNat(b); }
  }

  lemma NumericIsNat(a: string)
    requires ValidIdentifier(a) && IsNumeric(a) && Atoi(a).Some?
    ensures Atoi(a).value == NatOf(a)
  {
    assert IsDigit(a[0]);
  }

  lemma {:induction false} ListsAgree(a: seq<string>, b: seq<string>)
    requires forall i :: 0 <= i < |a| ==> ValidIdentifier(a[i]) && Classified(a[i])
    requires forall i :: 0 <= i < |b| ==> ValidIdentifier(b[i]) && Classified(b[i])
    ensures CompareLists(a, b) == SpecLists(a, b)
  {
    hide ValidIdentifier, Classified, CompareIdentifier, SpecIdentifier;
    if a != [] && b != [] {
      ClassifiedAgree(a[0], b[0]);
      ListsAgree(a[1..], b[1..]);
    }
  }

  /** How an identifier is taken for the wrong kind. */
  lemma Misclassified(x: string) returns (y: string)
    requires ValidIdentifier(x) && !Classified(x)
    ensures ValidIdentifier(y) && Classified(y)
    ensures CompareIdentifier(x, y) != 0 && SpecIdentifier(x, y) == 0 - CompareIdentifier(x, y)
  {
    if IsNumeric(x) {
      y := "-";
      assert IsDigit(x[0]);
      assert Atoi(y).None? && !IsNumeric(y);
      assert Less("-", x) && !Less(x, "-");
    } else {
      y := "1";
      assert ValidIdentifier("1") && Digits("1");
      assert "1"[..0] == "" && NatOf("1") == 1;
      assert Atoi("1") == Some(1);
      HyphenNumber(x);
    }
  }

  lemma HyphenNumber(x: string)
    requires ValidIdentifier(x) && !IsNumeric(x) && Atoi(x).Some?
    ensures x[0] == '-' && Atoi(x).value <= 0
  {
    hide NatOf;
    assert IsAlnumHyphen(x[0]);
  }

  lemma {:induction false} ListsDiffer(prefix: seq<string>, x: string, rest: seq<string>, y: string)
    requires forall i :: 0 <= i < |prefix| ==> ValidIdentifier(prefix[i]) && Classified(prefix[i])
    requires CompareIdentifier(x, y) != 0 && SpecIdentifier(x, y) == 0 - CompareIdentifier(x, y)
    ensures CompareLists(prefix + [x] + rest, prefix + [y]) == CompareIdentifier(x, y)
    ensures SpecLists(prefix + [x] + rest, prefix + [y]) == 0 - CompareIdentifier(x, y)
  {
    hide ValidIdentifier, Classified, CompareIdentifier, SpecIdentifier;
    var a, b := prefix + [x] + rest, prefix + [y];
    if prefix == [] {
      assert a[0] == x && b[0] == y;
    } else {
      var p := prefix[1..];
      assert a[1..] == p + [x] + rest && b[1..] == p + [y] && a[0] == b[0] == prefix[0];
      ListsDiffer(p, x, rest, y);
      ClassifiedAgree(prefix[0], prefix[0]);
      IdentifierOrder(prefix[0], prefix[0], prefix[0]);
    }
  }

  lemma FirstMisclassified(v: Version) returns (i: nat)
    requires !WellClassified(v)
    ensures i < |v.prerelease| && !Classified(v.prerelease[i]) && forall j :: 0 <= j < i ==> Classified(v.prerelease[j])
  {
    hide Classified;
    var k :| 0 <= k < |v.prerelease| && !Classified(v.prerelease[k]);
    i := 0;
    while Classified(v.prerelease[i])
      invariant i <= k && forall j :: 0 <= j < i ==> Classified(v.prerelease[j])
      decreases k - i
    {
      i := i + 1;
    }
  }

  lemma Agree(v: Version, w: Version)
    requires ValidVersion(v) && ValidVersion(w) && WellClassified(v) && WellClassified(w)
    ensures Compare(v, w) == SpecCompare(v, w)
  {
    hide ValidIdentifier, Classified, CompareLists, SpecLists;
    ListsAgree(v.prerelease, w.prerelease);
  }

  /** Versions of well-classified identifiers are ordered as the standard spells it. */
  lemma OrderedAsSpelled(a: Version, b: Version)
    requires ValidVersion(a) && ValidVersion(b) && WellClassified(a) && WellClassified(b)
    ensures Compare(a, b) < 0 <==> Precedes(a, b)
    ensures Compare(a, b) > 0 <==> Precedes(b, a)
    ensures Compare(a, b) == 0 <==> a == b
  {
    hide Compare, SpecCompare;
    Agree(a, b);
    SpecIsPrecedence(a, b);
  }

  lemma Disagree(v: Version) returns (w: Version)
    requires ValidVersion(v) && !WellClassified(v)
    ensures ValidVersion(w) && WellClassified(w) && Compare(v, w) != SpecCompare(v, w)
  {
    var i := FirstMisclassified(v);
    hide CompareLists, SpecLists, ValidIdentifier, Classified, CompareIdentifier, SpecIdentifier;
    var a := v.prerelease;
    var y := Misclassified(a[i]);
    w := v.(prerelease := a[..i] + [y]);
    assert a == a[..i] + [a[i]] + a[i + 1..];
    ListsDiffer(a[..i], a[i], a[i + 1..], y);
  }

  /** A valid version is ordered as the standard says against every well-classified valid
      version iff it is well classified itself. */
  lemma AgreesIff(v: Version)
    requires ValidVersion(v)
    ensures WellClassified(v) <==>
            forall w :: ValidVersion(w) && WellClassified(w) ==> Compare(v, w) == SpecCompare(v, w)
  {
    hide ValidVersion, WellClassified, Compare, SpecCompare;
    if WellClassified(v) {
      forall w | ValidVersion(w) && WellClassified(w) ensures Compare(v, w) == SpecCompare(v, w) { Agree(v, w); }
    } else {
      var w := Disagree(v);
    }
  }

  /** A hyphen before a small number is enough: `-5` should rank above `1`. */
  lemma HyphenMatters()
    ensures ValidIdentifier("-5") && ValidIdentifier("1")
    ensures CompareIdentifier("-5", "1") == -1 && SpecIdentifier("-5", "1") == 1
  {
    assert Digits("5") && Digits("1") && "-5"[1..] == "5" && "5"[..0] == "" && "1"[..0] == "";
    assert NatOf("5") == 5 && NatOf("1") == 1;
    assert !IsDigit("-5"[0]);
  }
}

/** The few operations of Go's `strings` package that the modelled code uses.

    They are those operations on ASCII text, with the contracts the proofs
    need. */
module Text {

  datatype Cut = Cut(before: string, after: string, found: bool)

  /** `strings.Cut` with a one-character separator. */
  function CutAt(s: string, sep: char): (r: Cut)
    ensures r.found ==> s == r.before + [sep] + r.after && sep !in r.before
    ensures !r.found ==> r.before == s && r.after == "" && sep !in s
  {
    if s == "" then Cut("", "", false)
    else if s[0] == sep then Cut("", s[1..], true)
    else
      var r := CutAt(s[1..], sep);
      Cut([s[0]] + r.before, r.after, r.found)
  }

  /** The first separator decides the cut. */
  lemma {:induction false} CutAtFirst(a: string, sep: char, b: string)
    requires sep !in a
    ensures CutAt(a + [sep] + b, sep) == Cut(a, b, true)
  {
    var s := a + [sep] + b;
    if a == "" {
      assert s[0] == sep && s[1..] == b;
    } else {
      assert s[0] == a[0] && s[1..] == a[1..] + [sep] + b;
      CutAtFirst(a[1..], sep, b);
      assert [a[0]] + a[1..] == a;
    }
  }

  /** `strings.TrimPrefix` with a one-character prefix. */
  function TrimPrefix(s: string, c: char): string {
    if HasPrefix(s, c) then s[1..] else s
  }

  predicate HasPrefix(s: string, c: char) {
    s != "" && s[0] == c
  }

  /** `strings.TrimLeft` with a one-character cutset. */
  function TrimLeft(s: string, c: char): (t: string)
    ensures |t| <= |s| && t == s[|s| - |t|..]
    ensures forall i :: 0 <= i < |s| - |t| ==> s[i] == c
    ensures t == "" || t[0] != c
  {
    if HasPrefix(s, c) then
      var t := TrimLeft(s[1..], c);
      assert s[1..][|s| - 1 - |t|..] == s[|s| - |t|..];
      t
    else s
  }

  /** `strings.TrimRight` with a one-character cutset. */
  function TrimRight(s: string, c: char): (t: string)
    ensures |t| <= |s| && t == s[..|t|]
    ensures forall i :: |t| <= i < |s| ==> s[i] == c
    ensures t == "" || t[|t| - 1] != c
  {
    if s != "" && s[|s| - 1] == c then TrimRight(s[..|s| - 1], c) else s
  }

  /** Go's `<` on strings of one-byte characters. */
  predicate Less(a: string, b: string) {
    b != "" && (a == "" || a[0] < b[0] || (a[0] == b[0] && Less(a[1..], b[1..])))
  }

  lemma {:induction false} LessTrichotomy(a: string, b: string)
    ensures !(Less(a, b) && Less(b, a))
    ensures !Less(a, b) && !Less(b, a) <==> a == b
  {
    if a != "" && b != "" && a[0] == b[0] {
      LessTrichotomy(a[1..], b[1..]);
      assert a == [a[0]] + a[1..] && b == [b[0]] + b[1..];
    }
  }

  /** At the first place where they differ, `a` ends or has the smaller character. */
  ghost predicate TextBelow(a: string, b: string) { exists i :: TextBelowAt(a, b, i) }

  ghost predicate TextBelowAt(a: string, b: string, i: nat) {
    i <= |a| && i < |b| && a[..i] == b[..i] && (i == |a| || a[i] < b[i])
  }

  lemma {:induction false} LessIsBelow(a: string, b: string)
    ensures Less(a, b) <==> TextBelow(a, b)
  {
    if a != "" && b != "" && a[0] == b[0] {
      LessIsBelow(a[1..], b[1..]);
      if i: nat :| TextBelowAt(a[1..], b[1..], i) {
        assert a[..i + 1] == [a[0]] + a[1..][..i] && b[..i + 1] == [b[0]] + b[1..][..i];
        assert TextBelowAt(a, b, i + 1);
      }
      if i: nat :| TextBelowAt(a, b, i) {
        assert i > 0 && a[1..][..i - 1] == a[..i][1..] && b[1..][..i - 1] == b[..i][1..];
        assert TextBelowAt(a[1..], b[1..], i - 1);
      }
    } else {
      assert b != "" && (a == "" || a[0] < b[0]) ==> TextBelowAt(a, b, 0);
      if i: nat :| TextBelowAt(a, b, i) { assert i == 0; }
    }
  }

  lemma {:induction false} LessTransitive(a: string, b: string, c: string)
    requires Less(a, b) && Less(b, c)
    ensures Less(a, c)
  {
    if a != "" && a[0] == b[0] == c[0] { LessTransitive(a[1..], b[1..], c[1..]); }
  }

  /** `strings.ReplaceAll` of one character by another. */
  function ReplaceAll(s: string, from: char, to: char): (t: string)
    ensures |t| == |s|
    ensures forall i :: 0 <= i < |s| ==> t[i] == if s[i] == from then to else s[i]
  {
    seq(|s|, i requires 0 <= i < |s| => if s[i] == from then to else s[i])
  }

  predicate IsSpace(c: char) { c in " \t\n\r\U{0B}\U{0C}" }

  /** `strings.TrimSpace` on ASCII text. */
  function TrimSpace(s: string): (t: string)
    ensures t == "" || (!IsSpace(t[0]) && !IsSpace(t[|t| - 1]))
    ensures t == "" <==> forall i :: 0 <= i < |s| ==> IsSpace(s[i])
    decreases |s|
  {
    if s == "" then s
    else if IsSpace(s[0]) then TrimSpace(s[1..])
    else if IsSpace(s[|s| - 1]) then TrimSpace(s[..|s| - 1])
    else s
  }

  lemma Unblank(s: string)
    requires s == "" || (!IsSpace(s[0]) && !IsSpace(s[|s| - 1]))
    ensures TrimSpace(s) == s
  {}

  /** `strings.ToLower` on ASCII text. */
  function ToLower(s: string): (t: string)
    ensures |t| == |s|
    ensures forall i :: 0 <= i < |s| ==> t[i] == LowerChar(s[i])
  {
    seq(|s|, i requires 0 <= i < |s| => LowerChar(s[i]))
  }

  function LowerChar(c: char): char {
    if 'A' <= c <= 'Z' then (c as int + 32) as char else c
  }

  /** `strings.Split` with a one-character separator. */
  function Split(s: string, sep: char): (parts: seq<string>)
    ensures parts != [] && forall i :: 0 <= i < |parts| ==> sep !in parts[i]
    decreases |s|
  {
    var cut := CutAt(s, sep);
    if cut.found then [cut.before] + Split(cut.after, sep) else [s]
  }

  /** The parts with the separator between them. */
  function Joined(parts: seq<string>, sep: char): string
    requires parts != []
  {
    if |parts| == 1 then parts[0] else parts[0] + [sep] + Joined(parts[1..], sep)
  }

  lemma {:induction false} SplitOfJoined(parts: seq<string>, sep: char)
    requires parts != [] && forall i :: 0 <= i < |parts| ==> sep !in parts[i]
    ensures Split(Joined(parts, sep), sep) == parts
    decreases |parts|
  {
    if |parts| == 1 {
      assert !CutAt(parts[0], sep).found;
    } else {
      CutAtFirst(parts[0], sep, Joined(parts[1..], sep));
      SplitOfJoined(parts[1..], sep);
      assert parts == [parts[0]] + parts[1..];
    }
  }

  lemma {:induction false} NotInJoined(parts: seq<string>, sep: char, c: char)
    requires parts != [] && c != sep && forall i :: 0 <= i < |parts| ==> c !in parts[i]
    ensures c !in Joined(parts, sep)
    decreases |parts|
  {
    if |parts| > 1 { NotInJoined(parts[1..], sep, c); }
  }

  lemma {:induction false} JoinedOfSplit(s: string, sep: char)
    ensures Joined(Split(s, sep), sep) == s
    decreases |s|
  {
    var cut := CutAt(s, sep);
    if cut.found {
      JoinedOfSplit(cut.after, sep);
      assert Split(s, sep)[1..] == Split(cut.after, sep);
    }
  }

  lemma {:induction false} InJoined(parts: seq<string>, sep: char, i: nat, c: char)
    requires i < |parts| && c in parts[i]
    ensures c in Joined(parts, sep)
    decreases |parts|
  {
    if i > 0 { InJoined(parts[1..], sep, i - 1, c); }
  }

  const CAPITALS := "ABCDEFGHIJKLMNOPQRSTUVWXYZ"
  const SMALL := "abcdefghijklmnopqrstuvwxyz"

  /** Each capital letter has its small one, and nothing else changes. */
  lemma LettersFold(c: char)
    ensures forall i :: 0 <= i < 26 && c == CAPITALS[i] ==> LowerChar(c) == SMALL[i]
    ensures c !in CAPITALS ==> LowerChar(c) == c
  {
    assert forall i :: 0 <= i < 26 ==> CAPITALS[i] as int == 'A' as int + i && SMALL[i] as int == 'a' as int + i;
    if 'A' <= c <= 'Z' { assert CAPITALS[c as int - 'A' as int] == c; }
  }
}

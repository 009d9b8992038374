/** Splitting a command string into arguments, against a printer. A string is a list of bytes. */
module CommandString {

  function Flush(current: string): seq<string> { if current == "" then [] else [current] }

  predicate IsEscapable(c: char) { c == '"' || c == '\\' || c == ' ' }

  /** The arguments read from the rest of the text, the current one begun. */
  function ParseFrom(text: string, current: string, inQuotes: bool): seq<string>
    decreases |text|
  {
    if text == "" then Flush(current)
    else if text[0] == '\\' then
      if |text| > 1 && text[1] == 'n' then ParseFrom(text[2..], current + "\n", inQuotes)
      else if |text| > 1 && IsEscapable(text[1]) then ParseFrom(text[2..], current + [text[1]], inQuotes)
      else ParseFrom(text[1..], current + "\\", inQuotes)
    else if text[0] == '"' then ParseFrom(text[1..], current, !inQuotes)
    else if text[0] == ' ' && !inQuotes then Flush(current) + ParseFrom(text[1..], "", inQuotes)
    else ParseFrom(text[1..], current + [text[0]], inQuotes)
  }

  function Parse(text: string): seq<string> { ParseFrom(text, "", false) }

  /** `ParseCommandStringArgs`. */
  method ParseCommandStringArgs(cmdStr: string) returns (args: seq<string>)
    ensures args == Parse(cmdStr)
  {
    args := [];
    var current, inQuotes, index := "", false, 0;
    while index < |cmdStr|
      invariant index <= |cmdStr|
      invariant args + ParseFrom(cmdStr[index..], current, inQuotes) == Parse(cmdStr)
    {
      ghost var rest := cmdStr[index..];
      assert rest[0] == cmdStr[index] && rest[1..] == cmdStr[index + 1..];
      var c := cmdStr[index];
      index := index + 1;
      if c == '\\' {
        if index >= |cmdStr| {
          current := current + [c];
          continue;
        }
        var next := cmdStr[index];
        assert rest[1] == next && rest[2..] == cmdStr[index + 1..];
        if next == 'n' {
          current := current + "\n";
          index := index + 1;
        } else if next == '"' || next == '\\' || next == ' ' {
          current := current + [next];
          index := index + 1;
        } else {
          current := current + [c];
        }
        continue;
      }
      if c == '"' {
        inQuotes := !inQuotes;
        continue;
      }
      if c == ' ' && !inQuotes {
        if |current| > 0 {
          assert args + ([current] + ParseFrom(rest[1..], "", false))
              == args + [current] + ParseFrom(rest[1..], "", false);
          args := args + [current];
          current := "";
        }
        continue;
      }
      current := current + [c];
    }
    if |current| > 0 { args := args + [current]; }
  }

  // ------------------------------------------------------------------ a printer

  /** A stretch of a word is written between double quotes or not. An eager writer escapes
      every blank and newline, a sparing one only the blanks outside quotes. */
  datatype Style = Style(quoted: bool, eager: bool)

  function EscapeChar(c: char, style: Style): string {
    if c == '\\' || c == '"' then ['\\', c]
    else if c == ' ' && (style.eager || !style.quoted) then "\\ "
    else if c == '\n' && style.eager then "\\n"
    else [c]
  }

  function Escape(text: string, style: Style): string {
    if text == "" then "" else EscapeChar(text[0], style) + Escape(text[1..], style)
  }

  datatype Segment = Segment(text: string, style: Style)

  function PrintSegment(segment: Segment): string {
    var body := Escape(segment.text, segment.style);
    if segment.style.quoted then "\"" + body + "\"" else body
  }

  /** A word is one stretch after the other: quotes may open and close anywhere in it. */
  type Word = seq<Segment>

  function PrintWord(word: Word): string {
    if word == [] then "" else PrintSegment(word[0]) + PrintWord(word[1..])
  }

  function TextOf(word: Word): string {
    if word == [] then "" else word[0].text + TextOf(word[1..])
  }

  /** Words joined by single blanks; a word without stretches makes two blanks meet. */
  function Print(words: seq<Word>): string {
    if words == [] then ""
    else if |words| == 1 then PrintWord(words[0])
    else PrintWord(words[0]) + " " + Print(words[1..])
  }

  lemma ParseChar(c: char, style: Style, rest: string, current: string)
    ensures ParseFrom(EscapeChar(c, style) + rest, current, style.quoted) ==
            ParseFrom(rest, current + [c], style.quoted)
  {
    var text := EscapeChar(c, style) + rest;
    if |EscapeChar(c, style)| == 2 {
      assert text[2..] == rest;
    } else {
      assert text[1..] == rest;
    }
  }

  lemma {:induction false} ParseEscaped(text: string, style: Style, rest: string, current: string)
    ensures ParseFrom(Escape(text, style) + rest, current, style.quoted) ==
            ParseFrom(rest, current + text, style.quoted)
  {
    hide EscapeChar, ParseFrom;
    if text == "" {
      assert Escape(text, style) + rest == rest && current + text == current;
    } else {
      var later := Escape(text[1..], style) + rest;
      assert Escape(text, style) + rest == EscapeChar(text[0], style) + later;
      ParseChar(text[0], style, later, current);
      ParseEscaped(text[1..], style, rest, current + [text[0]]);
      assert current + [text[0]] + text[1..] == current + text;
    }
  }

  lemma ParseSegment(segment: Segment, rest: string, current: string)
    ensures ParseFrom(PrintSegment(segment) + rest, current, false) == ParseFrom(rest, current + segment.text, false)
  {
    hide Escape;
    if segment.style.quoted {
      var text := PrintSegment(segment) + rest;
      assert text[1..] == Escape(segment.text, segment.style) + ("\"" + rest);
      ParseEscaped(segment.text, segment.style, "\"" + rest, current);
      assert ("\"" + rest)[1..] == rest;
    } else {
      ParseEscaped(segment.text, segment.style, rest, current);
    }
  }

  lemma {:induction false} ParseWord(word: Word, rest: string, current: string)
    ensures ParseFrom(PrintWord(word) + rest, current, false) == ParseFrom(rest, current + TextOf(word), false)
  {
    hide ParseFrom, PrintSegment;
    if word == [] {
      assert PrintWord(word) + rest == rest && current + TextOf(word) == current;
    } else {
      var later := PrintWord(word[1..]) + rest;
      assert PrintWord(word) + rest == PrintSegment(word[0]) + later;
      ParseSegment(word[0], later, current);
      ParseWord(word[1..], rest, current + word[0].text);
      assert current + word[0].text + TextOf(word[1..]) == current + TextOf(word);
    }
  }

  function NonEmpty(words: seq<Word>): seq<string> {
    if words == [] then [] else Flush(TextOf(words[0])) + NonEmpty(words[1..])
  }

  /** Printing is undone by parsing, except that empty words vanish, even quoted ones. */
  lemma {:induction false} RoundTrip(words: seq<Word>)
    ensures Parse(Print(words)) == NonEmpty(words)
  {
    hide Flush, PrintWord, TextOf;
    if words == [] {
      assert Parse("") == [] by { NothingLeft(); }
    } else {
      var text := TextOf(words[0]);
      assert "" + text == text;
      if |words| == 1 {
        ParseWord(words[0], "", "");
        assert PrintWord(words[0]) + "" == PrintWord(words[0]);
        assert NonEmpty(words[1..]) == [];
      } else {
        var rest := " " + Print(words[1..]);
        ParseWord(words[0], rest, "");
        assert Print(words) == PrintWord(words[0]) + rest && rest[1..] == Print(words[1..]);
        RoundTrip(words[1..]);
      }
    }
  }

  lemma NothingLeft()
    ensures Parse("") == []
  {}

  function Texts(words: seq<Word>): (texts: seq<string>)
    ensures |texts| == |words| && forall i :: 0 <= i < |words| ==> texts[i] == TextOf(words[i])
  {
    seq(|words|, i requires 0 <= i < |words| => TextOf(words[i]))
  }

  lemma {:induction false} NonEmptyLength(words: seq<Word>)
    ensures |NonEmpty(words)| <= |words|
    ensures |NonEmpty(words)| == |words| <==> forall i :: 0 <= i < |words| ==> TextOf(words[i]) != ""
    ensures |NonEmpty(words)| == |words| ==> NonEmpty(words) == Texts(words)
  {
    hide TextOf;
    if words != [] {
      NonEmptyLength(words[1..]);
      assert forall i :: 1 <= i < |words| ==> words[i] == words[1..][i - 1];
      if |NonEmpty(words)| == |words| { assert Texts(words) == [TextOf(words[0])] + Texts(words[1..]); }
    }
  }

  /** The words come back exactly iff none of them is empty. */
  lemma RoundTripIff(words: seq<Word>)
    ensures Parse(Print(words)) == Texts(words) <==> forall i :: 0 <= i < |words| ==> TextOf(words[i]) != ""
  {
    RoundTrip(words);
    NonEmptyLength(words);
  }

  /** No quote, no blank outside quotes, and no backslash before something it would escape. */
  predicate Literal(text: string, inQuotes: bool) {
    && '"' !in text && (inQuotes || ' ' !in text)
    && forall i :: 0 <= i < |text| - 1 && text[i] == '\\' ==> text[i + 1] != 'n' && !IsEscapable(text[i + 1])
  }

  /** Text without those is one argument as it stands, even after a quote that never
      closes: a path with backslashes survives. */
  lemma {:induction false} LiteralKept(text: string, current: string, inQuotes: bool)
    requires Literal(text, inQuotes)
    ensures ParseFrom(text, current, inQuotes) == Flush(current + text)
  {
    if text == "" {
      assert current + text == current;
    } else {
      var rest := text[1..];
      assert forall i :: 0 <= i < |rest| ==> rest[i] == text[i + 1];
      LiteralKept(rest, current + [text[0]], inQuotes);
      assert text[0] in text;
      assert current + [text[0]] + rest == current + text;
    }
  }
}

/** `BaseTemplate`: a text buffer that only grows, one indented line at a time. */
module Template {
  import opened Seqs

  /** The indentation unit. The source names it `Space`; it is a tab character. */
  const Space: char := '\t'

  /** `Environment.NewLine` on Windows, the platform the generator targets. */
  const NewLine: string := "\r\n"

  /** The indentation `AddInstruction` uses when the caller gives none. */
  const DefaultIndent: nat := 2

  /** `new string(Space, n)`. */
  function Tabs(n: nat): (r: string)
    ensures |r| == n && forall k :: 0 <= k < n ==> r[k] == Space
  {
    seq(n, _ => Space)
  }

  /** A line written at indentation zero is written as it is. */
  lemma Unindented(x: string)
    ensures Tabs(0) + x == x
  {
    assert Tabs(0) == [];
  }

  /** The text of a buffer holding `lines`: each line followed by a line terminator. */
  function Text(lines: seq<string>): string
  {
    if |lines| == 0 then "" else Text(lines[..|lines| - 1]) + lines[|lines| - 1] + NewLine
  }

  /** The text of two batches of lines is the text of the first, then of the second. */
  lemma {:induction false} TextAppend(a: seq<string>, b: seq<string>)
    ensures Text(a + b) == Text(a) + Text(b)
    decreases |b|
  {
    if |b| == 0 {
      assert a + b == a;
    } else {
      var front := b[..|b| - 1];
      assert (a + b)[..|a + b| - 1] == a + front;
      TextAppend(a, front);
    }
  }

  /** The first position at or after `from` holding `c`. */
  function IndexOfChar(s: string, c: char, from: nat): (r: Option<nat>)
    requires from <= |s|
    ensures r.Some? ==> from <= r.value < |s| && s[r.value] == c
    ensures r.Some? ==> forall k :: from <= k < r.value ==> s[k] != c
    ensures r.None? ==> forall k :: from <= k < |s| ==> s[k] != c
    decreases |s| - from
  {
    if from == |s| then None
    else if s[from] == c then Some(from)
    else IndexOfChar(s, c, from + 1)
  }

  /** Reading a buffer's text back into lines: `None` unless every line ends with
      the two-character terminator. */
  function ParseLines(text: string): Option<seq<string>>
    decreases |text|
  {
    if |text| == 0 then Some([])
    else
      match IndexOfChar(text, '\n', 0)
      case None => None
      case Some(i) =>
        if i == 0 || text[i - 1] != '\r' then None
        else
          match ParseLines(text[i + 1..])
          case None => None
          case Some(rest) => Some([text[..i - 1]] + rest)
  }

  /** The buffer's text determines its lines, as long as no line holds a line
      feed of its own. */
  lemma {:induction false} ParseText(lines: seq<string>)
    requires forall k :: 0 <= k < |lines| ==> '\n' !in lines[k]
    ensures ParseLines(Text(lines)) == Some(lines)
    decreases |lines|
  {
    if |lines| > 0 {
      var line := lines[0];
      var rest := lines[1..];
      assert lines == [line] + rest;
      TextAppend([line], rest);
      assert [line][..0] == [];
      var text := Text(lines);
      assert text == line + NewLine + Text(rest);
      var i := |line| + 1;
      assert text[i] == '\n' && text[i - 1] == '\r';
      assert forall k :: 0 <= k < i ==> text[k] != '\n' by {
        forall k | 0 <= k < i ensures text[k] != '\n' {
          if k < |line| {
            assert text[k] == line[k];
          }
        }
      }
      assert IndexOfChar(text, '\n', 0) == Some(i);
      assert text[..i - 1] == line;
      assert text[i + 1..] == Text(rest);
      ParseText(rest);
    }
  }

  /** The line `AddHeader` writes for the game version. */
  function VersionLine(gameVersion: Option<string>): string
  {
    if gameVersion.None? || gameVersion.value == "" then "Unknown game version"
    else "Game version " + gameVersion.value
  }

  /** The comment block `AddHeader` writes; `timestamp` is the text of the clock
      reading taken when the header is written. */
  function HeaderLines(gameVersion: Option<string>, timestamp: string): seq<string>
  {
    [ Tabs(0) + "/*",
      Tabs(1) + "Generated using Beavis' Gen",
      Tabs(1) + ("At " + timestamp),
      Tabs(1) + VersionLine(gameVersion),
      Tabs(0) + "*/" ]
  }

  /** The header is five lines: the comment opener and closer unindented, the tool
      name, time and version one tab in. */
  lemma HeaderShape(gameVersion: Option<string>, timestamp: string)
    ensures var h := HeaderLines(gameVersion, timestamp);
      |h| == 5 && h[0] == "/*" && h[4] == "*/" &&
      h[1] == Tabs(1) + "Generated using Beavis' Gen" &&
      h[2] == Tabs(1) + ("At " + timestamp) &&
      h[3] == Tabs(1) + VersionLine(gameVersion)
  {
    assert Tabs(0) == [];
  }

  /** An absent or empty version, and only such a version, reads as unknown;
      any other version is written after "Game version ". */
  lemma VersionLineCases(gameVersion: Option<string>)
    ensures VersionLine(gameVersion) == "Unknown game version" <==>
      gameVersion.None? || gameVersion.value == ""
    ensures gameVersion.Some? && gameVersion.value != "" ==>
      VersionLine(gameVersion) == "Game version " + gameVersion.value
  {
    if gameVersion.Some? && gameVersion.value != "" {
      assert VersionLine(gameVersion)[0] == 'G';
    }
  }

  class BaseTemplate {
    /** The accumulated text (`Sb`). */
    var sb: string
    /** The lines appended so far, in call order. */
    ghost var lines: seq<string>

    ghost predicate Valid()
      reads this
    {
      sb == Text(lines)
    }

    constructor ()
      ensures Valid() && lines == [] && sb == ""
    {
      sb := "";
      lines := [];
    }

    /** Appends `intend` tabs, the instruction and a line terminator. */
    method AddInstruction(instruction: string, intend: nat := DefaultIndent)
      requires Valid()
      modifies this
      ensures Valid()
      ensures lines == old(lines) + [Tabs(intend) + instruction]
      ensures sb == old(sb) + Tabs(intend) + instruction + NewLine
    {
      sb := sb + Tabs(intend) + instruction + NewLine;
      lines := lines + [Tabs(intend) + instruction];
      assert lines[..|lines| - 1] == old(lines);
    }

    /** Appends the five-line comment block. */
    method AddHeader(gameVersion: Option<string>, timestamp: string)
      requires Valid()
      modifies this
      ensures Valid()
      ensures lines == old(lines) + HeaderLines(gameVersion, timestamp)
    {
      ghost var before := lines;
      AddInstruction("/*", 0);
      AddInstruction("Generated using Beavis' Gen", 1);
      AddInstruction("At " + timestamp, 1);
      AddInstruction(VersionLine(gameVersion), 1);
      AddInstruction("*/", 0);
      assert lines == before + HeaderLines(gameVersion, timestamp);
    }

    /** Appends an empty line. */
    method SkipLine()
      requires Valid()
      modifies this
      ensures Valid()
      ensures lines == old(lines) + [""]
      ensures sb == old(sb) + NewLine
    {
      sb := sb + NewLine;
      lines := lines + [""];
      assert lines[..|lines| - 1] == old(lines);
    }

    /** The accumulated text; the buffer is left as it is, so asking twice gives
        the same text. */
    method Build() returns (text: string)
      requires Valid()
      ensures text == Text(lines)
    {
      text := sb;
    }
  }
}

/**
 The text of a configuration file and the lines of it that set something. The text is put together
 from pieces, each of which may itself run over several lines.
 */
module ConfText {
  import opened Text
  import opened Lines
  import opened CommentText

  // -- Active lines -----------------------------------------------------------------------------

  /** A line that sets something: not blank, no comment (indented or not), not the section header. */
  predicate Active(line: string) {
    var t := Trim(line);
    t != "" && t[0] != '#' && t[0] != ';' && t != "[global]"
  }

  function ActiveLines(lines: seq<string>): seq<string> {
    if lines == [] then []
    else
      var last := lines[|lines| - 1];
      ActiveLines(lines[..|lines| - 1]) + (if Active(last) then [Trim(last)] else [])
  }

  lemma CommentIsNotActive(line: string)
    requires line == "" || line[0] == '#'
    ensures !Active(line)
  {
  }

  lemma {:induction false} ActiveAppend(a: seq<string>, b: seq<string>)
    ensures ActiveLines(a + b) == ActiveLines(a) + ActiveLines(b)
  {
    if b == [] {
      assert a + b == a;
    } else {
      assert (a + b)[..|a + b| - 1] == a + b[..|b| - 1];
      ActiveAppend(a, b[..|b| - 1]);
    }
  }

  /** Nothing but comments and empty lines. */
  predicate Quiet(lines: seq<string>) {
    forall i | 0 <= i < |lines| :: IsComment(lines[i]) || lines[i] == ""
  }

  lemma {:induction false} CommentsAreNotActive(lines: seq<string>)
    requires Quiet(lines)
    ensures ActiveLines(lines) == []
  {
    if lines != [] {
      CommentsAreNotActive(lines[..|lines| - 1]);
      CommentIsNotActive(lines[|lines| - 1]);
    }
  }

  // -- The text ----------------------------------------------------------------------------------------

  function Join(lines: seq<string>): string {
    if lines == [] then ""
    else if |lines| == 1 then lines[0]
    else Join(lines[..|lines| - 1]) + "\n" + lines[|lines| - 1]
  }

  /** A text split at its line feeds. */
  function Split(text: string): (lines: seq<string>)
    ensures lines != []
  {
    if '\n' !in text then [text]
    else
      var k := LastBreak(text);
      Split(text[..k]) + [text[k + 1..]]
  }

  function LastBreak(text: string): (k: nat)
    requires '\n' in text
    ensures k < |text| && text[k] == '\n' && '\n' !in text[k + 1..]
  {
    if text[|text| - 1] == '\n' then |text| - 1
    else
      assert text == text[..|text| - 1] + [text[|text| - 1]];
      var k := LastBreak(text[..|text| - 1]);
      assert text[k + 1..] == text[..|text| - 1][k + 1..] + [text[|text| - 1]];
      k
  }

  lemma LastBreakIs(a: string, b: string)
    requires OneLine(b)
    ensures LastBreak(a + "\n" + b) == |a|
    decreases |b|
  {
    var text := a + "\n" + b;
    if b != "" {
      assert text[..|text| - 1] == a + "\n" + b[..|b| - 1];
      LastBreakIs(a, b[..|b| - 1]);
    }
  }

  lemma {:induction false} SplitJoin(lines: seq<string>)
    requires lines != [] && AreLines(lines)
    ensures Split(Join(lines)) == lines
  {
    if |lines| > 1 {
      var a, b := Join(lines[..|lines| - 1]), lines[|lines| - 1];
      SplitJoin(lines[..|lines| - 1]);
      LastBreakIs(a, b);
      assert (a + "\n" + b)[..|a|] == a && (a + "\n" + b)[|a| + 1..] == b;
    } else {
      assert lines == [lines[0]];
    }
  }

  /** The lines left when white space is taken off the end of the whole text. */
  function DropEnd(lines: seq<string>): seq<string> {
    if lines == [] then []
    else
      var last := TrimEnd(lines[|lines| - 1]);
      if last == "" then DropEnd(lines[..|lines| - 1]) else lines[..|lines| - 1] + [last]
  }

  lemma {:induction false} TrimEndAppend(a: string, b: string)
    ensures TrimEnd(a + b) == if TrimEnd(b) == "" then TrimEnd(a) else a + TrimEnd(b)
  {
    if b == "" {
      assert a + b == a;
    } else if IsSpace(b[|b| - 1]) {
      assert (a + b)[..|a + b| - 1] == a + b[..|b| - 1];
      TrimEndAppend(a, b[..|b| - 1]);
    }
  }

  lemma {:induction false} TrimAfterTrimEnd(s: string)
    ensures Trim(TrimEnd(s)) == Trim(s)
  {
    if s != "" && IsSpace(s[0]) {
      TrimAfterTrimEnd(s[1..]);
      assert s == [s[0]] + s[1..];
      TrimEndAppend([s[0]], s[1..]);
    } else {
      TrimEndIdempotent(s);
    }
  }

  lemma {:induction false} TrimEndJoin(lines: seq<string>)
    ensures TrimEnd(Join(lines)) == Join(DropEnd(lines))
  {
    if |lines| == 1 {
      assert lines[..0] == [];
    } else if |lines| > 1 {
      var front, last := lines[..|lines| - 1], lines[|lines| - 1];
      TrimEndLastLine(Join(front), last);
      TrimEndJoin(front);
      assert (front + [TrimEnd(last)])[..|front|] == front;
    }
  }

  lemma TrimEndLastLine(text: string, last: string)
    ensures TrimEnd(text + "\n" + last) == if TrimEnd(last) == "" then TrimEnd(text) else text + "\n" + TrimEnd(last)
  {
    TrimEndAppend(text + "\n", last);
    TrimEndAppend(text, "\n");
    assert TrimEnd("\n") == "" by { assert "\n"[..0] == ""; }
  }

  lemma {:induction false} DropEndKeepsActive(lines: seq<string>)
    ensures ActiveLines(DropEnd(lines)) == ActiveLines(lines)
    ensures AreLines(lines) ==> AreLines(DropEnd(lines))
  {
    if lines != [] {
      var front, last := lines[..|lines| - 1], lines[|lines| - 1];
      TrimAfterTrimEnd(last);
      if TrimEnd(last) == "" {
        DropEndKeepsActive(front);
      } else {
        assert (front + [TrimEnd(last)])[..|front|] == front;
      }
    }
  }

  lemma EmptyLineAdded(lines: seq<string>)
    ensures ActiveLines(lines + [""]) == ActiveLines(lines)
  {
    ActiveAppend(lines, [""]);
    CommentsAreNotActive([""]);
  }

  lemma TextShowsLines(lines: seq<string>)
    requires AreLines(lines)
    ensures ActiveLines(Split(TrimEnd(Join(lines)) + "\n")) == ActiveLines(lines)
  {
    var kept := DropEnd(lines);
    TrimEndJoin(lines);
    DropEndKeepsActive(lines);
    SplitWithBreak(kept);
    if kept == [] {
      CommentsAreNotActive(["", ""]);
    } else {
      EmptyLineAdded(kept);
    }
  }

  lemma SplitWithBreak(lines: seq<string>)
    requires AreLines(lines)
    ensures Split(Join(lines) + "\n") == if lines == [] then ["", ""] else lines + [""]
  {
    BreakAddsALine(Join(lines));
    if lines != [] { SplitJoin(lines); }
  }

  lemma BreakAddsALine(text: string)
    ensures Split(text + "\n") == Split(text) + [""]
  {
    assert text + "\n" == text + "\n" + "";
    SplitLast(text, "");
  }

  lemma SplitLast(a: string, b: string)
    requires OneLine(b)
    ensures Split(a + "\n" + b) == Split(a) + [b]
  {
    LastBreakIs(a, b);
    var text := a + "\n" + b;
    assert text[|a|] == '\n';
    assert text[..|a|] == a && text[|a| + 1..] == b;
  }

  lemma {:induction false} SplitAround(a: string, b: string)
    ensures Split(a + "\n" + b) == Split(a) + Split(b)
    decreases |b|
  {
    if OneLine(b) {
      SplitLast(a, b);
    } else {
      var k := LastBreak(b);
      var front, last := b[..k], b[k + 1..];
      assert b == front + "\n" + last;
      assert a + "\n" + b == a + "\n" + front + "\n" + last;
      SplitAround(a, front);
      SplitLast(a + "\n" + front, last);
      SplitLast(front, last);
    }
  }

  lemma {:induction false} SplitAreLines(text: string)
    ensures AreLines(Split(text)) && Join(Split(text)) == text
  {
    if '\n' in text {
      var k := LastBreak(text);
      SplitAreLines(text[..k]);
      var front, last := Split(text[..k]), text[k + 1..];
      assert (front + [last])[..|front|] == front;
      assert text == text[..k] + "\n" + last;
    }
  }

  /** Taking white space off the end and closing with a line break changes no active line. */
  lemma TrimmedTextSetsTheSame(text: string)
    ensures ActiveLines(Split(TrimEnd(text) + "\n")) == ActiveLines(Split(text))
  {
    SplitAreLines(text);
    TextShowsLines(Split(text));
  }

  // -- Pieces ------------------------------------------------------------------------------------------

  /** The active lines of the text made of these pieces. */
  function Sets(pieces: seq<string>): seq<string> {
    if pieces == [] then [] else Sets(pieces[..|pieces| - 1]) + ActiveLines(Split(pieces[|pieces| - 1]))
  }

  lemma {:induction false} SetsAppend(a: seq<string>, b: seq<string>)
    ensures Sets(a + b) == Sets(a) + Sets(b)
  {
    if b == [] {
      assert a + b == a;
    } else {
      assert (a + b)[..|a + b| - 1] == a + b[..|b| - 1];
      SetsAppend(a, b[..|b| - 1]);
      Regroup(Sets(a), Sets(b[..|b| - 1]), ActiveLines(Split(b[|b| - 1])));
    }
  }

  lemma Regroup(a: seq<string>, b: seq<string>, c: seq<string>)
    ensures a + b + c == a + (b + c)
  {
  }

  lemma {:induction false} QuietSetsNothing(pieces: seq<string>)
    requires Quiet(pieces)
    ensures Sets(pieces) == []
  {
    if pieces != [] {
      QuietSetsNothing(pieces[..|pieces| - 1]);
      OneLineSets(pieces[|pieces| - 1]);
      CommentIsNotActive(pieces[|pieces| - 1]);
    }
  }

  lemma OneLineSets(line: string)
    requires OneLine(line)
    ensures ActiveLines(Split(line)) == if Active(line) then [Trim(line)] else []
  {
    assert Split(line) == [line];
    assert [line][..0] == [];
  }

  lemma {:induction false} JoinShowsPieces(pieces: seq<string>)
    ensures ActiveLines(Split(Join(pieces))) == Sets(pieces)
  {
    if pieces == [] {
      OneLineSets("");
    } else if |pieces| == 1 {
      assert pieces[..0] == [];
    } else {
      var front, last := pieces[..|pieces| - 1], pieces[|pieces| - 1];
      JoinShowsPieces(front);
      SplitAround(Join(front), last);
      ActiveAppend(Split(Join(front)), Split(last));
    }
  }

  /** The active lines of a text behind its first line. */
  function Escapes(text: string): seq<string> {
    ActiveLines(Split(text)[1..])
  }

  lemma {:induction false} FirstBreak(text: string) returns (first: string, rest: string)
    requires '\n' in text
    ensures OneLine(first) && text == first + "\n" + rest
  {
    if text[0] == '\n' {
      first, rest := "", text[1..];
    } else {
      first, rest := FirstBreak(text[1..]);
      first := [text[0]] + first;
    }
  }

  /** A comment mark covers the first line only: what the further lines set stays set. */
  lemma CommentCoversTheFirstLine(text: string)
    ensures ActiveLines(Split("# " + text)) == Escapes(text)
  {
    if OneLine(text) {
      OneLineEscapesNothing(text);
      OneLineSets("# " + text);
      CommentIsNotActive("# " + text);
    } else {
      var first, rest := FirstBreak(text);
      assert "# " + text == "# " + first + "\n" + rest;
      FirstLineSplit(first, rest);
      FirstLineSplit("# " + first, rest);
      ActiveAppend(["# " + first], Split(rest));
      OneActive("# " + first);
      CommentIsNotActive("# " + first);
    }
  }

  lemma FirstLineSplit(first: string, rest: string)
    requires OneLine(first)
    ensures Split(first + "\n" + rest) == [first] + Split(rest)
    ensures Escapes(first + "\n" + rest) == ActiveLines(Split(rest))
  {
    SplitAround(first, rest);
    assert Split(first) == [first];
    assert ([first] + Split(rest))[1..] == Split(rest);
  }

  lemma OneActive(line: string)
    ensures ActiveLines([line]) == if Active(line) then [Trim(line)] else []
  {
    assert [line][..0] == [];
  }

  lemma OneLineEscapesNothing(text: string)
    requires OneLine(text)
    ensures Escapes(text) == []
  {
    assert Split(text) == [text];
  }
}

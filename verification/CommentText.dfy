/**
 Descriptions as comments: a text is gathered into paragraphs and bullets, filled, and put behind
 comment marks, without losing or changing any of its characters but white space.
 */
module CommentText {
  import opened Text
  import opened Lines

  /** Library functions used on descriptions: splitting into lines, filling, and cleaning. */
  datatype Library = Library(
    splitLines: string -> seq<string>,
    wrap: (string, nat) -> seq<string>,
    clean: string -> string,
    squeeze: string -> string,
    lower: string -> string)

  /** Splitting and filling only touch white space, and filled lines have no line breaks inside. */
  ghost predicate Fills(lib: Library) {
    && (forall text :: InkOf("", lib.splitLines(text)) == Ink("", text))
    && (forall text, width :: FilledAs(lib.wrap(text, width), text))
  }

  predicate FilledAs(filled: seq<string>, text: string) {
    AreLines(filled) && InkOf("", filled) == Ink("", text)
  }

  // -- Ink -----------------------------------------------------------------------------------

  function Put(ink: string, c: char): string {
    if IsSpace(c) then ink else ink + [c]
  }

  /** The characters of a text that are not white space, added to `ink`. */
  function Ink(ink: string, s: string): string {
    if s == "" then ink else Put(Ink(ink, s[..|s| - 1]), s[|s| - 1])
  }

  function InkOf(ink: string, lines: seq<string>): string {
    if lines == [] then ink else Ink(InkOf(ink, lines[..|lines| - 1]), lines[|lines| - 1])
  }

  lemma {:induction false} InkAppend(ink: string, a: string, b: string)
    ensures Ink(ink, a + b) == Ink(Ink(ink, a), b)
  {
    if b == "" {
      assert a + b == a;
    } else {
      assert (a + b)[..|a + b| - 1] == a + b[..|b| - 1];
      InkAppend(ink, a, b[..|b| - 1]);
    }
  }

  lemma {:induction false} InkIsAdded(ink: string, s: string)
    ensures Ink(ink, s) == ink + Ink("", s)
  {
    if s != "" { InkIsAdded(ink, s[..|s| - 1]); }
  }

  lemma {:induction false} InkOfIsAdded(ink: string, lines: seq<string>)
    ensures InkOf(ink, lines) == ink + InkOf("", lines)
  {
    if lines != [] {
      var front, last := lines[..|lines| - 1], lines[|lines| - 1];
      InkOfIsAdded(ink, front);
      InkIsAdded(ink + InkOf("", front), last);
      InkIsAdded(InkOf("", front), last);
    }
  }

  lemma SameInk(ink: string, lines: seq<string>, text: string)
    requires InkOf("", lines) == Ink("", text)
    ensures InkOf(ink, lines) == Ink(ink, text)
  {
    InkOfIsAdded(ink, lines);
    InkIsAdded(ink, text);
  }

  lemma InkOfAdd(ink: string, lines: seq<string>, line: string)
    ensures InkOf(ink, lines + [line]) == Ink(InkOf(ink, lines), line)
  {
    assert (lines + [line])[..|lines|] == lines;
  }

  lemma {:induction false} BlankHasNoInk(ink: string, s: string)
    requires Blank(s)
    ensures Ink(ink, s) == ink
  {
    if s != "" { BlankHasNoInk(ink, s[..|s| - 1]); }
  }

  lemma {:induction false} InkTrimEnd(ink: string, s: string)
    ensures Ink(ink, TrimEnd(s)) == Ink(ink, s)
  {
    if s != "" && IsSpace(s[|s| - 1]) { InkTrimEnd(ink, s[..|s| - 1]); }
  }

  lemma {:induction false} InkTrimStart(ink: string, s: string)
    ensures Ink(ink, TrimStart(s)) == Ink(ink, s)
  {
    if s != "" && IsSpace(s[0]) {
      InkTrimStart(ink, s[1..]);
      assert s == [s[0]] + s[1..];
      InkAppend(ink, [s[0]], s[1..]);
      BlankHasNoInk(ink, [s[0]]);
    }
  }

  lemma InkTrim(ink: string, s: string)
    ensures Ink(ink, Trim(s)) == Ink(ink, s)
  {
    InkTrimStart(ink, s);
    InkTrimEnd(ink, TrimStart(s));
  }

  // -- Paragraphs and bullets --------------------------------------------------------------------

  function JoinWords(words: seq<string>): string {
    if words == [] then ""
    else if |words| == 1 then words[0]
    else JoinWords(words[..|words| - 1]) + " " + words[|words| - 1]
  }

  lemma {:induction false} InkJoinWords(ink: string, words: seq<string>)
    ensures Ink(ink, JoinWords(words)) == InkOf(ink, words)
  {
    if |words| == 1 {
      assert words[..0] == [];
    } else if |words| > 1 {
      var front, last := words[..|words| - 1], words[|words| - 1];
      InkJoinWords(ink, front);
      InkAppend(ink, JoinWords(front) + " ", last);
      InkAppend(ink, JoinWords(front), " ");
      BlankHasNoInk(InkOf(ink, front), " ");
    }
  }

  /** Ends the paragraph at hand. */
  method Flush(normalized: seq<string>, paragraph: seq<string>) returns (r: seq<string>)
    ensures InkOf("", r) == InkOf(InkOf("", normalized), paragraph)
  {
    if paragraph == [] { return normalized; }
    r := normalized + [JoinWords(paragraph)];
    InkOfAdd("", normalized, JoinWords(paragraph));
    InkJoinWords(InkOf("", normalized), paragraph);
  }

  /** Lines gathered into paragraphs and bullets, with single blank lines between them. */
  method Normalize(rawLines: seq<string>) returns (normalized: seq<string>)
    ensures InkOf("", normalized) == InkOf("", rawLines)
  {
    normalized := [];
    var paragraph: seq<string> := [];
    for i := 0 to |rawLines|
      invariant InkOf(InkOf("", normalized), paragraph) == InkOf("", rawLines[..i])
    {
      var stripped := Trim(rawLines[i]);
      assert rawLines[..i + 1][..i] == rawLines[..i];
      InkTrim(InkOf("", rawLines[..i]), rawLines[i]);
      if stripped == "" {
        normalized := Flush(normalized, paragraph);
        paragraph := [];
        InkOfAdd("", normalized, "");
        if normalized != [] && normalized[|normalized| - 1] != "" { normalized := normalized + [""]; }
      } else if StartsWith(stripped, "- ") {
        normalized := Flush(normalized, paragraph);
        paragraph := [];
        InkOfAdd("", normalized, stripped);
        normalized := normalized + [stripped];
      } else {
        InkOfAdd(InkOf("", normalized), paragraph, stripped);
        paragraph := paragraph + [stripped];
      }
    }
    assert rawLines[..|rawLines|] == rawLines;
    normalized := Flush(normalized, paragraph);
  }

  // -- Comment lines -------------------------------------------------------------------------------

  predicate IsComment(line: string) {
    line != "" && line[0] == '#' && OneLine(line)
  }

  predicate AreComments(lines: seq<string>) {
    forall i | 0 <= i < |lines| :: IsComment(lines[i])
  }

  function BehindMark(line: string): string {
    if line == "" then "" else line[1..]
  }

  /** What comment lines show behind their marks, added to `ink`. */
  function Shown(ink: string, lines: seq<string>): string {
    if lines == [] then ink else Ink(Shown(ink, lines[..|lines| - 1]), BehindMark(lines[|lines| - 1]))
  }

  lemma {:induction false} ShownAppend(ink: string, a: seq<string>, b: seq<string>)
    ensures Shown(ink, a + b) == Shown(Shown(ink, a), b)
  {
    if b == [] {
      assert a + b == a;
    } else {
      assert (a + b)[..|a + b| - 1] == a + b[..|b| - 1];
      ShownAppend(ink, a, b[..|b| - 1]);
    }
  }

  lemma ShownAdd(ink: string, lines: seq<string>, mark: string, chunk: string)
    requires IsComment(mark)
    ensures Shown(ink, lines + [mark + chunk]) == Ink(Ink(Shown(ink, lines), BehindMark(mark)), chunk)
  {
    assert (lines + [mark + chunk])[..|lines|] == lines;
    assert (mark + chunk)[1..] == mark[1..] + chunk;
    InkAppend(Shown(ink, lines), mark[1..], chunk);
  }

  /** Filled lines behind comment marks; `first` goes before the first line, `others` before the rest. */
  method Commented(first: string, others: string, chunks: seq<string>, ghost ink: string) returns (lines: seq<string>)
    requires IsComment(first) && IsComment(others) && Blank(BehindMark(others)) && AreLines(chunks)
    ensures AreComments(lines) && |lines| == |chunks|
    ensures Shown(ink, lines) == if chunks == [] then ink else InkOf(Ink(ink, BehindMark(first)), chunks)
  {
    if chunks == [] { return []; }
    ghost var ink' := Ink(ink, BehindMark(first));
    lines := [first + chunks[0]];
    FirstLine(ink, first, chunks);
    for i := 1 to |chunks|
      invariant AreComments(lines) && |lines| == i
      invariant Shown(ink, lines) == InkOf(ink', chunks[..i])
    {
      OtherLine(ink, ink', lines, others, chunks, i);
      lines := lines + [others + chunks[i]];
    }
    assert chunks[..|chunks|] == chunks;
  }

  lemma FirstLine(ink: string, mark: string, chunks: seq<string>)
    requires chunks != [] && IsComment(mark)
    ensures Shown(ink, [mark + chunks[0]]) == InkOf(Ink(ink, BehindMark(mark)), chunks[..1])
  {
    ShownAdd(ink, [], mark, chunks[0]);
    assert [] + [mark + chunks[0]] == [mark + chunks[0]];
    InkOfAdd(Ink(ink, BehindMark(mark)), [], chunks[0]);
    assert chunks[..1] == [] + [chunks[0]];
  }

  lemma OtherLine(ink: string, ink': string, lines: seq<string>, mark: string, chunks: seq<string>, i: nat)
    requires i < |chunks| && IsComment(mark) && Blank(BehindMark(mark))
    requires Shown(ink, lines) == InkOf(ink', chunks[..i])
    ensures Shown(ink, lines + [mark + chunks[i]]) == InkOf(ink', chunks[..i + 1])
  {
    ShownAdd(ink, lines, mark, chunks[i]);
    BlankHasNoInk(Shown(ink, lines), BehindMark(mark));
    assert chunks[..i + 1][..i] == chunks[..i];
  }

  /** A bullet that ends in ink has text behind its dash. */
  lemma BulletInk(ink: string, stripped: string)
    requires StartsWith(stripped, "- ") && !IsSpace(stripped[|stripped| - 1])
    ensures Ink(ink, stripped) == Ink(Ink(ink, " - "), Trim(stripped[2..])) && Ink("", Trim(stripped[2..])) != ""
  {
    var rest := stripped[2..];
    assert stripped == "- " + rest;
    assert stripped[|stripped| - 1] == rest[|rest| - 1];
    InkAppend(ink, "- ", rest);
    assert " - " == " " + "- ";
    InkAppend(ink, " ", "- ");
    BlankHasNoInk(ink, " ");
    InkTrim(Ink(ink, "- "), rest);
    InkTrim("", rest);
  }

  function AtLeastTwenty(width: int): nat {
    if width >= 20 then width else 20
  }

  /**
   Whatever the text, it comes out as comment lines that show all of its characters in order,
   white space aside, and not with an empty comment at the end.
   */
  method WrapCommentText(lib: Library, text: string, width: int) returns (lines: seq<string>)
    requires Fills(lib)
    ensures AreComments(lines) && Shown("", lines) == Ink("", text)
    ensures lines != [] ==> lines[|lines| - 1] != "#"
  {
    lines := [];
    if text == "" { return; }
    var normalized := Normalize(lib.splitLines(text));
    for i := 0 to |normalized|
      invariant AreComments(lines) && Shown("", lines) == InkOf("", normalized[..i])
    {
      assert normalized[..i + 1][..i] == normalized[..i];
      var afterBlank := lines == [] || lines[|lines| - 1] == "#";
      var more := CommentOn(lib, normalized[i], width, afterBlank, Shown("", lines));
      ShownAppend("", lines, more);
      lines := lines + more;
    }
    assert normalized[..|normalized|] == normalized;
    while lines != [] && lines[|lines| - 1] == "#"
      invariant AreComments(lines) && Shown("", lines) == Ink("", text)
      decreases |lines|
    {
      lines := lines[..|lines| - 1];
    }
  }

  /** The comment lines for one paragraph, bullet or blank line. */
  method CommentOn(lib: Library, entry: string, width: int, afterBlank: bool, ghost ink: string)
    returns (lines: seq<string>)
    requires Fills(lib)
    ensures AreComments(lines) && Shown(ink, lines) == Ink(ink, entry)
  {
    var stripped := Trim(entry);
    InkTrim(ink, entry);
    if stripped == "" {
      lines := if afterBlank then [] else ["#"];
    } else if StartsWith(stripped, "- ") {
      lines := BulletComment(lib, stripped, width, ink);
    } else {
      var wrapped := lib.wrap(stripped, AtLeastTwenty(width - 2));
      assert FilledAs(wrapped, stripped);
      SameInk(ink, wrapped, stripped);
      BlankHasNoInk(ink, " ");
      lines := Commented("# ", "# ", wrapped, ink);
      if wrapped == [] { lines := ["#"]; }
    }
  }

  method BulletComment(lib: Library, stripped: string, width: int, ghost ink: string) returns (lines: seq<string>)
    requires Fills(lib) && StartsWith(stripped, "- ") && !IsSpace(stripped[|stripped| - 1])
    ensures AreComments(lines) && Shown(ink, lines) == Ink(ink, stripped)
  {
    var rest := Trim(stripped[2..]);
    BulletInk(ink, stripped);
    var wrapped := lib.wrap(rest, AtLeastTwenty(width - 4));
    assert FilledAs(wrapped, rest);
    SameInk(Ink(ink, " - "), wrapped, rest);
    lines := Commented("# - ", "#   ", wrapped, ink);
  }
}

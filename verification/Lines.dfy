/**
 Text as lines and words, the way Rust's `lines`, `split_whitespace` and `split` see it.
 */
module Lines {
  import opened Text

  // -- Lines --------------------------------------------------------------------------

  /** Index of the first line feed, the length when there is none. */
  function LineEnd(text: string): (k: nat)
    ensures k <= |text|
    ensures forall i | 0 <= i < k :: text[i] != '\n'
    ensures k < |text| ==> text[k] == '\n'
  {
    if text == "" || text[0] == '\n' then 0 else 1 + LineEnd(text[1..])
  }

  /** A carriage return just before the line feed belongs to the line ending. */
  function StripCr(line: string): (s: string)
    ensures s <= line
  {
    if line != "" && line[|line| - 1] == '\r' then line[..|line| - 1] else line
  }

  /** The lines of a text; an unterminated last line is taken as it is. */
  function LinesOf(text: string): seq<string> {
    if text == "" then []
    else
      var k := LineEnd(text);
      if k == |text| then [text] else [StripCr(text[..k])] + LinesOf(text[k + 1..])
  }

  /** The lines written back, each with a line feed. */
  function Unlines(lines: seq<string>): string {
    if lines == [] then "" else lines[0] + "\n" + Unlines(lines[1..])
  }

  predicate OneLine(line: string) {
    '\n' !in line
  }

  predicate AreLines(lines: seq<string>) {
    forall i | 0 <= i < |lines| :: OneLine(lines[i])
  }

  function StripAll(lines: seq<string>): (r: seq<string>)
    ensures |r| == |lines|
    ensures forall i | 0 <= i < |lines| :: r[i] == StripCr(lines[i])
  {
    if lines == [] then [] else [StripCr(lines[0])] + StripAll(lines[1..])
  }

  lemma {:induction false} LinesOfAreLines(text: string)
    ensures AreLines(LinesOf(text))
    decreases |text|
  {
    var k := LineEnd(text);
    if text != "" && k < |text| { LinesOfAreLines(text[k + 1..]); }
  }

  lemma {:induction false} LineEndOf(line: string, rest: string)
    requires OneLine(line)
    ensures LineEnd(line + "\n" + rest) == |line|
  {
    if line != "" {
      LineEndOf(line[1..], rest);
      assert (line + "\n" + rest)[1..] == line[1..] + "\n" + rest;
    }
  }

  /** Reading back what was written gives the lines again, less a carriage return at their ends. */
  lemma {:induction false} LinesOfUnlines(lines: seq<string>)
    requires AreLines(lines)
    ensures LinesOf(Unlines(lines)) == StripAll(lines)
  {
    if lines != [] {
      var rest := Unlines(lines[1..]);
      LineEndOf(lines[0], rest);
      var text := lines[0] + "\n" + rest;
      assert text[..|lines[0]|] == lines[0] && text[|lines[0]| + 1..] == rest;
      LinesOfUnlines(lines[1..]);
    }
  }

  // -- Searching ------------------------------------------------------------------------

  /** Where a pattern occurs first. */
  function Find(s: string, pat: string): (r: Option<nat>)
    ensures r.Some? ==> At(s, pat, r.value) && forall j: nat | j < r.value :: !At(s, pat, j)
    ensures r.None? ==> forall j: nat :: !At(s, pat, j)
  {
    FindFrom(s, pat, 0)
  }

  function FindFrom(s: string, pat: string, i: nat): (r: Option<nat>)
    requires i <= |s| + 1
    requires forall j: nat | j < i :: !At(s, pat, j)
    ensures r.Some? ==> At(s, pat, r.value) && forall j: nat | j < r.value :: !At(s, pat, j)
    ensures r.None? ==> forall j: nat :: !At(s, pat, j)
    decreases |s| + 1 - i
  {
    if i > |s| then None
    else if At(s, pat, i) then Some(i)
    else FindFrom(s, pat, i + 1)
  }

  /** What follows the first occurrence of a pattern. */
  function Rest(s: string, pat: string): Option<string> {
    match Find(s, pat)
    case None => None
    case Some(i) => Some(s[i + |pat|..])
  }

  /** The second piece of `s` split at `pat`, empty when `pat` does not occur. */
  function SecondPiece(s: string, pat: string): string {
    match Rest(s, pat)
    case None => ""
    case Some(rest) => Piece(rest, pat)
  }

  lemma AtPrefix(s: string, pat: string, c: char)
    requires c !in pat && pat != ""
    ensures forall i: nat :: At(s + [c], pat, i) <==> At(s, pat, i)
  {
    forall i: nat ensures At(s + [c], pat, i) <==> At(s, pat, i) {
      if i + |pat| <= |s| {
        assert (s + [c])[i..i + |pat|] == s[i..i + |pat|];
      } else if i + |pat| == |s| + 1 {
        assert (s + [c])[i..i + |pat|][|pat| - 1] == c;
      }
    }
  }

  lemma FindPrefix(s: string, pat: string, c: char)
    requires c !in pat && pat != ""
    ensures Find(s + [c], pat) == Find(s, pat)
  {
    AtPrefix(s, pat, c);
    match Find(s, pat)
    case None =>
    case Some(i) => assert At(s + [c], pat, i);
  }

  lemma ContainsPrefix(s: string, pat: string, c: char)
    requires c !in pat && pat != ""
    ensures Contains(s + [c], pat) <==> Contains(s, pat)
  {
    AtPrefix(s, pat, c);
    if Contains(s, pat) {
      var i :| 0 <= i <= |s| && At(s, pat, i);
      assert At(s + [c], pat, i);
    }
  }

  // -- Words ----------------------------------------------------------------------------

  /** The run of characters up to the first white space. */
  function Word(s: string): (w: string)
    ensures w <= s
    ensures forall i | 0 <= i < |w| :: !IsSpace(w[i])
    ensures |w| < |s| ==> IsSpace(s[|w|])
  {
    if s == "" || IsSpace(s[0]) then "" else [s[0]] + Word(s[1..])
  }

  function FirstWord(s: string): string {
    Word(TrimStart(s))
  }

  function Words(s: string): set<string>
    decreases |s|
  {
    var t := TrimStart(s);
    if t == "" then {} else {Word(t)} + Words(t[|Word(t)|..])
  }

  lemma {:induction false} WordPrefix(s: string, c: char)
    requires IsSpace(c)
    ensures Word(s + [c]) == Word(s)
  {
    if s != "" && !IsSpace(s[0]) {
      WordPrefix(s[1..], c);
      assert (s + [c])[1..] == s[1..] + [c];
    }
  }

  lemma {:induction false} TrimStartPrefix(s: string, c: char)
    requires IsSpace(c)
    ensures TrimStart(s + [c]) == if TrimStart(s) == "" then "" else TrimStart(s) + [c]
  {
    if s == "" {
      assert s + [c] == [c] && [c][1..] == "";
    } else if IsSpace(s[0]) {
      assert (s + [c])[1..] == s[1..] + [c];
      TrimStartPrefix(s[1..], c);
    }
  }

  /** White space at the end does not change the words. */
  lemma {:induction false} WordsPrefix(s: string, c: char)
    requires IsSpace(c)
    ensures Words(s + [c]) == Words(s)
    decreases |s|
  {
    var t := TrimStart(s);
    TrimStartPrefix(s, c);
    if t != "" {
      WordPrefix(t, c);
      var w := Word(t);
      assert (t + [c])[|w|..] == t[|w|..] + [c];
      WordsPrefix(t[|w|..], c);
    }
  }

  /** The piece of `rest` before the next occurrence of `pat`. */
  function Piece(rest: string, pat: string): string {
    match Find(rest, pat)
    case None => rest
    case Some(j) => rest[..j]
  }

  lemma PiecePrefix(rest: string, pat: string, c: char)
    requires c !in pat && pat != ""
    ensures Piece(rest + [c], pat) == Piece(rest, pat) || Piece(rest + [c], pat) == Piece(rest, pat) + [c]
  {
    FindPrefix(rest, pat, c);
    if Find(rest, pat).Some? {
      assert (rest + [c])[..Find(rest, pat).value] == rest[..Find(rest, pat).value];
    }
  }

  lemma RestPrefix(s: string, pat: string, c: char)
    requires c !in pat && pat != ""
    ensures Rest(s + [c], pat) == if Rest(s, pat).None? then None else Some(Rest(s, pat).value + [c])
  {
    FindPrefix(s, pat, c);
    var i := Find(s, pat);
    if i.Some? { DropAppend(s, i.value + |pat|, c); }
  }

  lemma DropAppend(s: string, k: nat, c: char)
    requires k <= |s|
    ensures (s + [c])[k..] == s[k..] + [c]
  {
  }

  lemma SecondPiecePrefix(s: string, pat: string, c: char)
    requires c !in pat && pat != ""
    ensures SecondPiece(s + [c], pat) == SecondPiece(s, pat) || SecondPiece(s + [c], pat) == SecondPiece(s, pat) + [c]
  {
    RestPrefix(s, pat, c);
    if Rest(s, pat).Some? { PiecePrefix(Rest(s, pat).value, pat, c); }
  }

  lemma SecondPieceWordsPrefix(s: string, pat: string, c: char)
    requires c !in pat && pat != "" && IsSpace(c)
    ensures Words(SecondPiece(s + [c], pat)) == Words(SecondPiece(s, pat))
  {
    SecondPiecePrefix(s, pat, c);
    WordsPrefix(SecondPiece(s, pat), c);
  }

  /** A word at the start of the trimmed text is found there with or without white space at the end. */
  lemma StartsWithPrefix(s: string, w: string, c: char)
    requires IsSpace(c) && c !in w
    ensures StartsWith(TrimStart(s + [c]), w) <==> StartsWith(TrimStart(s), w)
  {
    TrimStartPrefix(s, c);
    var t := TrimStart(s);
    if |w| == |t| + 1 { assert (t + [c])[|t|] == c; }
  }
}

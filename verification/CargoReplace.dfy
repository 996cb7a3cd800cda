/**
 Merging entries into the [replace] section of the root Cargo.toml. Two tools do it: one drops
 duplicate entries, the other keeps them. The file is taken line by line.
 */
module CargoReplace {
  import opened Text
  import opened Sorting

  // -- Lines of the section -----------------------------------------------------------------

  predicate IsHeader(line: string) {
    Trim(line) == "[replace]"
  }

  /** The first header line, the number of lines when there is none. */
  function FindHeader(lines: seq<string>): (h: nat)
    ensures h <= |lines|
    ensures forall i | 0 <= i < h :: !IsHeader(lines[i])
    ensures h < |lines| ==> IsHeader(lines[h])
  {
    if lines == [] || IsHeader(lines[0]) then 0 else 1 + FindHeader(lines[1..])
  }

  /** What a trimmed line holds: an entry, a comment, nothing, or the start of another section. */
  predicate IsEntry(t: string) {
    t != "" && t[0] != '#' && t[0] != '['
  }

  /** Line `i` behind the header ends the section: another section, or a blank line other than the first. */
  predicate Stops(body: seq<string>, i: nat)
    requires i < |body|
  {
    var t := Trim(body[i]);
    (t != "" && t[0] == '[') || (t == "" && i > 0)
  }

  function StopAt(body: seq<string>, i: nat): (k: nat)
    requires i <= |body|
    ensures i <= k <= |body|
    ensures forall j | i <= j < k :: !Stops(body, j)
    ensures k < |body| ==> Stops(body, k)
    decreases |body| - i
  {
    if i == |body| || Stops(body, i) then i else StopAt(body, i + 1)
  }

  function Entries(lines: seq<string>): seq<string> {
    if lines == [] then []
    else
      var t := Trim(lines[|lines| - 1]);
      Entries(lines[..|lines| - 1]) + (if IsEntry(t) then [t] else [])
  }

  /** The position behind the last entry. */
  function EntriesEnd(lines: seq<string>): (k: nat)
    ensures k <= |lines|
  {
    if lines == [] then 0
    else if IsEntry(Trim(lines[|lines| - 1])) then |lines|
    else EntriesEnd(lines[..|lines| - 1])
  }

  /** The entries of the section and how many lines behind the header are rewritten. */
  function SectionEntries(body: seq<string>): seq<string> {
    Entries(body[..StopAt(body, 0)])
  }

  function SectionLength(body: seq<string>): (k: nat)
    ensures k <= |body|
  {
    var stop := StopAt(body, 0);
    if stop < |body| then stop else EntriesEnd(body)
  }

  // -- The two merges -------------------------------------------------------------------------

  datatype Variant = Deduplicating | Keeping

  function Arrange(variant: Variant, entries: seq<string>): seq<string> {
    if variant == Deduplicating then SortUnique(entries) else Sort(entries)
  }

  datatype MergeError = NoSection | NotLocated

  /** The file around the section: up to the header, the entries, and what is left behind them. */
  datatype Parts = Parts(before: seq<string>, entries: seq<string>, after: seq<string>)

  predicate Mentions(lines: seq<string>) {
    lines != [] && (Contains(lines[0], "[replace]") || Mentions(lines[1..]))
  }

  lemma {:induction false} MentionedIn(lines: seq<string>, i: nat)
    requires i < |lines| && Contains(lines[i], "[replace]")
    ensures Mentions(lines)
  {
    if i > 0 { MentionedIn(lines[1..], i - 1); }
  }

  /** A header that is not a line of its own is no header. */
  function Locate(lines: seq<string>): Result<Parts, MergeError> {
    var h := FindHeader(lines);
    if !Mentions(lines) then Err(NoSection)
    else if h == |lines| then Err(NotLocated)
    else Ok(PartsAt(lines, h))
  }

  function PartsAt(lines: seq<string>, h: nat): Parts
    requires h < |lines|
  {
    var body := lines[h + 1..];
    Parts(lines[..h + 1], SectionEntries(body), body[SectionLength(body)..])
  }

  /** The file after the merge. */
  function Merge(variant: Variant, lines: seq<string>, added: seq<string>): Result<seq<string>, MergeError> {
    match Locate(lines)
    case Err(e) => Err(e)
    case Ok(parts) => Ok(parts.before + Arrange(variant, parts.entries + added) + parts.after)
  }

  /** The scan of the section, line by line, over the lines behind the header. */
  method ScanSection(body: seq<string>) returns (entries: seq<string>, length: nat)
    ensures entries == SectionEntries(body) && length == SectionLength(body)
  {
    entries := [];
    length := 0;
    var i := 0;
    while i < |body|
      invariant 0 <= i <= |body|
      invariant entries == Entries(body[..i]) && length == EntriesEnd(body[..i])
      invariant StopAt(body, 0) == StopAt(body, i)
    {
      var line := Trim(body[i]);
      if (line != "" && line[0] == '[') || (line == "" && i > 0) {
        return entries, i;
      }
      ScanStep(body, i);
      if line != "" && line[0] != '#' {
        entries := entries + [line];
        length := i + 1;
      }
      i := i + 1;
    }
    assert body[..i] == body;
  }

  /** What one more line of the section adds. */
  lemma ScanStep(body: seq<string>, k: nat)
    requires k < |body|
    ensures Entries(body[..k + 1]) == Entries(body[..k]) + (if IsEntry(Trim(body[k])) then [Trim(body[k])] else [])
    ensures EntriesEnd(body[..k + 1]) == if IsEntry(Trim(body[k])) then k + 1 else EntriesEnd(body[..k])
  {
    assert body[..k + 1][..k] == body[..k];
  }

  method UpdateRootCargoToml(variant: Variant, lines: seq<string>, added: seq<string>)
    returns (r: Result<seq<string>, MergeError>)
    ensures r == Merge(variant, lines, added)
  {
    if !Mentions(lines) { return Err(NoSection); }
    var h := FindHeader(lines);
    if h == |lines| { return Err(NotLocated); }
    var parts := TakeApart(lines, h);
    r := Ok(parts.before + Arrange(variant, parts.entries + added) + parts.after);
  }

  /** The lines up to the header, the entries, and the lines behind the scanned section. */
  method TakeApart(lines: seq<string>, h: nat) returns (parts: Parts)
    requires h < |lines|
    ensures parts == PartsAt(lines, h)
  {
    var entries, length := ScanSection(lines[h + 1..]);
    var insertIdx := h + 1 + length;
    DropDrop(lines, h + 1, length);
    parts := Parts(lines[..h + 1], entries, lines[insertIdx..]);
  }

  // -- What a merge keeps ------------------------------------------------------------------------

  lemma ArrangeMembers(variant: Variant, s: seq<string>, y: string)
    ensures y in Arrange(variant, s) <==> y in s
  {
    SortUniqueSorts(s);
    SortSorts(s);
    assert y in multiset(Sort(s)) <==> y in multiset(s);
  }

  lemma ArrangeSorts(variant: Variant, s: seq<string>)
    ensures Sorted(Arrange(variant, s)) && forall y :: y in Arrange(variant, s) <==> y in s
    ensures variant == Keeping ==> multiset(Arrange(variant, s)) == multiset(s)
    ensures variant == Deduplicating ==> Distinct(Arrange(variant, s))
  {
    SortUniqueSorts(s);
    SortSorts(s);
    forall y ensures y in Arrange(variant, s) <==> y in s { ArrangeMembers(variant, s, y); }
  }

  /**
   A merge leaves everything up to the header and behind the section untouched, and puts in
   between the old and the added entries, sorted: each once, or as often as they occur.
   */
  lemma MergeKeepsTheRest(variant: Variant, lines: seq<string>, added: seq<string>) returns (section: seq<string>)
    requires Locate(lines).Ok?
    ensures var parts := Locate(lines).value;
            && Merge(variant, lines, added) == Ok(parts.before + section + parts.after)
            && parts.before <= lines && |parts.after| <= |lines| && parts.after == lines[|lines| - |parts.after|..]
            && Sorted(section)
            && (forall y :: y in section <==> y in parts.entries || y in added)
            && (variant == Keeping ==> multiset(section) == multiset(parts.entries) + multiset(added))
            && (variant == Deduplicating ==> Distinct(section))
  {
    var parts := Locate(lines).value;
    section := Arrange(variant, parts.entries + added);
    ArrangeSorts(variant, parts.entries + added);
    PartsSurround(lines, FindHeader(lines));
  }

  lemma PartsSurround(lines: seq<string>, h: nat)
    requires h < |lines|
    ensures var parts := PartsAt(lines, h);
            && parts.before <= lines
            && |parts.after| <= |lines| && parts.after == lines[|lines| - |parts.after|..]
  {
    DropDrop(lines, h + 1, SectionLength(lines[h + 1..]));
  }

  lemma DropDrop(lines: seq<string>, i: nat, j: nat)
    requires i + j <= |lines|
    ensures lines[i..][j..] == lines[i + j..]
  {
  }

  /** Only comments, and a blank line right under the header, are lost from the section. */
  lemma LostLinesAreComments(body: seq<string>, i: nat)
    requires i < SectionLength(body)
    ensures var t := Trim(body[i]);
            || t in SectionEntries(body)
            || (t != "" && t[0] == '#')
            || (t == "" && i == 0)
  {
    var stop := StopAt(body, 0);
    assert i < stop && !Stops(body, i);
    EntriesExactly(body[..stop], i);
  }

  lemma {:induction false} EntriesExactly(lines: seq<string>, i: nat)
    requires i < |lines|
    ensures IsEntry(Trim(lines[i])) ==> Trim(lines[i]) in Entries(lines)
  {
    if i < |lines| - 1 {
      assert lines[..|lines| - 1][i] == lines[i];
      EntriesExactly(lines[..|lines| - 1], i);
    }
  }

  // -- Which lines are taken for the section ----------------------------------------------------------

  /**
   Line `i` behind the header belongs to the section: up to it no line opens another section, and
   none is blank but perhaps the very first.
   */
  predicate InSection(body: seq<string>, i: nat)
    requires i < |body|
  {
    forall k | 0 <= k <= i :: !StartsWith(Trim(body[k]), "[") && (k > 0 ==> Trim(body[k]) != "")
  }

  lemma InSectionExactly(body: seq<string>, i: nat)
    requires i < |body|
    ensures InSection(body, i) <==> i < StopAt(body, 0)
  {
    var stop := StopAt(body, 0);
    forall k | 0 <= k < |body|
      ensures Stops(body, k) <==> StartsWith(Trim(body[k]), "[") || (k > 0 && Trim(body[k]) == "")
    {
      assert StartsWith(Trim(body[k]), "[") <==> Trim(body[k]) != "" && Trim(body[k])[0] == '[';
    }
    if stop <= i { assert Stops(body, stop); }
  }

  lemma {:induction false} EntriesAreLines(lines: seq<string>, t: string)
    ensures t in Entries(lines) <==> IsEntry(t) && exists line | line in lines :: Trim(line) == t
  {
    if lines != [] {
      var front, last := lines[..|lines| - 1], lines[|lines| - 1];
      EntriesAreLines(front, t);
      assert lines == front + [last];
    }
  }

  /** The entries are exactly the lines of the section that are neither blank nor comments, trimmed. */
  lemma SectionEntriesExactly(body: seq<string>, t: string)
    ensures t in SectionEntries(body) <==>
            exists i | 0 <= i < |body| ::
              InSection(body, i) && Trim(body[i]) == t && t != "" && !StartsWith(t, "#")
  {
    var stop := StopAt(body, 0);
    EntriesAreLines(body[..stop], t);
    forall i | 0 <= i < |body|
      ensures InSection(body, i) <==> i < stop
      ensures i < stop ==> body[i] in body[..stop] && !StartsWith(Trim(body[i]), "[")
    {
      InSectionExactly(body, i);
      if i < stop { assert body[..stop][i] == body[i]; }
    }
    assert IsEntry(t) <==> t != "" && !StartsWith(t, "#") && !StartsWith(t, "[");
  }

  lemma {:induction false} MentionsExactly(lines: seq<string>)
    ensures Mentions(lines) <==> exists i | 0 <= i < |lines| :: Contains(lines[i], "[replace]")
  {
    if lines != [] {
      MentionsExactly(lines[1..]);
      assert forall i | 1 <= i < |lines| :: lines[i] == lines[1..][i - 1];
    }
  }

  /**
   A merge fails for want of a section if and only if no line mentions it, and for not locating it
   if and only if some line mentions it and none is the header; otherwise the first header counts.
   */
  lemma LocateExactly(lines: seq<string>)
    ensures Locate(lines) == Err(NoSection) <==> forall i | 0 <= i < |lines| :: !Contains(lines[i], "[replace]")
    ensures Locate(lines) == Err(NotLocated) <==>
            && (exists i | 0 <= i < |lines| :: Contains(lines[i], "[replace]"))
            && forall i | 0 <= i < |lines| :: Trim(lines[i]) != "[replace]"
    ensures Locate(lines).Ok? ==>
            var h := |Locate(lines).value.before| - 1;
            && 0 <= h < |lines| && Locate(lines).value.before == lines[..h + 1] && Trim(lines[h]) == "[replace]"
            && forall i | 0 <= i < h :: Trim(lines[i]) != "[replace]"
  {
    MentionsExactly(lines);
  }

  // -- Merging again --------------------------------------------------------------------------------

  /** Lines that are entries and nothing else: trimmed, not blank, no comment, no section. */
  predicate PureEntries(s: seq<string>) {
    forall i | 0 <= i < |s| :: PureEntry(s[i])
  }

  predicate PureEntry(t: string) {
    Trim(t) == t && IsEntry(t)
  }

  lemma TrimIdempotent(s: string)
    ensures Trim(Trim(s)) == Trim(s)
  {
    var t := TrimStart(s);
    TrimEndIdempotent(t);
    if Trim(s) != "" { assert Trim(s)[0] == t[0]; }
  }

  lemma {:induction false} EntriesArePure(lines: seq<string>)
    ensures PureEntries(Entries(lines))
  {
    if lines != [] {
      EntriesArePure(lines[..|lines| - 1]);
      TrimIdempotent(lines[|lines| - 1]);
    }
  }

  lemma {:induction false} EntriesOfPure(s: seq<string>)
    requires PureEntries(s)
    ensures Entries(s) == s && EntriesEnd(s) == |s|
  {
    if s != [] {
      EntriesOfPure(s[..|s| - 1]);
      assert s == s[..|s| - 1] + [s[|s| - 1]];
      assert PureEntry(s[|s| - 1]);
    }
  }

  lemma ArrangePure(variant: Variant, s: seq<string>)
    requires PureEntries(s)
    ensures PureEntries(Arrange(variant, s))
    ensures s != [] ==> Arrange(variant, s) != []
  {
    forall i | 0 <= i < |Arrange(variant, s)| ensures PureEntry(Arrange(variant, s)[i]) {
      ArrangeMembers(variant, s, Arrange(variant, s)[i]);
    }
    if s != [] { ArrangeMembers(variant, s, s[0]); }
  }

  /** What follows the section: it begins with a line that ends a section, or holds no entry and no such line. */
  predicate EndsSection(tail: seq<string>) {
    StartsWithStop(tail) || OnlyComments(tail)
  }

  predicate StartsWithStop(tail: seq<string>) {
    tail != [] && (Trim(tail[0]) == "" || Trim(tail[0])[0] == '[')
  }

  predicate OnlyComments(tail: seq<string>) {
    forall i | 0 <= i < |tail| :: IsComment(Trim(tail[i]))
  }

  predicate IsComment(t: string) {
    t != "" && t[0] == '#'
  }

  lemma TailEndsSection(body: seq<string>)
    ensures EndsSection(body[SectionLength(body)..])
  {
    var stop := StopAt(body, 0);
    var k := SectionLength(body);
    var tail := body[k..];
    if stop == |body| {
      NoEntriesBehindEnd(body);
      if k < |body| && Trim(body[k]) == "" {
      } else {
        forall i | 0 <= i < |tail| ensures IsComment(Trim(tail[i])) {
          assert tail[i] == body[k + i] && !Stops(body, k + i);
        }
      }
    } else {
      assert Stops(body, stop) && tail[0] == body[stop];
    }
  }

  lemma {:induction false} NoEntriesBehindEnd(lines: seq<string>)
    ensures forall i | EntriesEnd(lines) <= i < |lines| :: !IsEntry(Trim(lines[i]))
  {
    if lines != [] && !IsEntry(Trim(lines[|lines| - 1])) {
      NoEntriesBehindEnd(lines[..|lines| - 1]);
      forall i | EntriesEnd(lines) <= i < |lines| ensures !IsEntry(Trim(lines[i])) {
        if i < |lines| - 1 { assert lines[..|lines| - 1][i] == lines[i]; }
      }
    }
  }

  /** A written section is read back as it was written. */
  lemma SectionReadBack(section: seq<string>, tail: seq<string>)
    requires section != [] && PureEntries(section) && EndsSection(tail)
    ensures SectionEntries(section + tail) == section && SectionLength(section + tail) == |section|
  {
    if StartsWithStop(tail) {
      ReadBackBeforeStop(section, tail);
    } else {
      ReadBackBeforeComments(section, tail);
    }
  }

  lemma ReadBackBeforeStop(section: seq<string>, tail: seq<string>)
    requires section != [] && PureEntries(section) && StartsWithStop(tail)
    ensures SectionEntries(section + tail) == section && SectionLength(section + tail) == |section|
  {
    StopBehindSection(section, tail);
    EntriesOfPure(section);
    TakeFirst(section, tail);
  }

  lemma TakeFirst(a: seq<string>, b: seq<string>)
    ensures (a + b)[..|a|] == a && (a + b)[|a|..] == b
  {
  }

  lemma ReadBackBeforeComments(section: seq<string>, tail: seq<string>)
    requires PureEntries(section) && OnlyComments(tail)
    ensures SectionEntries(section + tail) == section && SectionLength(section + tail) == |section|
  {
    NoStopBehindSection(section, tail);
    EntriesOfPure(section);
    CommentsAddNothing(section, tail);
    TakeFirst(section + tail, []);
    assert section + tail + [] == section + tail;
  }

  lemma PureDoesNotStop(section: seq<string>, tail: seq<string>)
    requires PureEntries(section)
    ensures forall i | 0 <= i < |section| :: !Stops(section + tail, i)
  {
    forall i | 0 <= i < |section| ensures !Stops(section + tail, i) {
      assert (section + tail)[i] == section[i] && PureEntry(section[i]);
    }
  }

  lemma StopBehindSection(section: seq<string>, tail: seq<string>)
    requires section != [] && PureEntries(section) && StartsWithStop(tail)
    ensures StopAt(section + tail, 0) == |section|
  {
    PureDoesNotStop(section, tail);
    assert (section + tail)[|section|] == tail[0];
    StopIs(section + tail, |section|);
  }

  lemma NoStopBehindSection(section: seq<string>, tail: seq<string>)
    requires PureEntries(section) && OnlyComments(tail)
    ensures StopAt(section + tail, 0) == |section + tail|
  {
    var body := section + tail;
    PureDoesNotStop(section, tail);
    forall i | |section| <= i < |body| ensures !Stops(body, i) {
      assert body[i] == tail[i - |section|];
    }
    StopIs(body, |body|);
  }

  lemma StopIs(body: seq<string>, k: nat)
    requires k <= |body| && (forall j | 0 <= j < k :: !Stops(body, j)) && (k < |body| ==> Stops(body, k))
    ensures StopAt(body, 0) == k
  {
  }

  lemma {:induction false} CommentsAddNothing(section: seq<string>, tail: seq<string>)
    requires OnlyComments(tail)
    ensures Entries(section + tail) == Entries(section) && EntriesEnd(section + tail) == EntriesEnd(section)
    decreases |tail|
  {
    if tail == [] {
      assert section + tail == section;
    } else {
      var last := |tail| - 1;
      CommentsAddNothing(section, tail[..last]);
      assert (section + tail)[..|section + tail| - 1] == section + tail[..last];
      assert IsComment(Trim(tail[last]));
    }
  }

  /** A file written with a section is taken apart again as it was put together. */
  lemma LocatedAgain(before: seq<string>, section: seq<string>, after: seq<string>)
    requires before != [] && FindHeader(before) == |before| - 1
    requires section != [] && PureEntries(section) && EndsSection(after)
    ensures Locate(before + section + after) == Ok(Parts(before, section, after))
  {
    var rest := section + after;
    Regroup(before, section, after);
    HeaderStays(before, rest);
    PartsAgain(before, section, after);
    LocatedAt(before + rest, |before| - 1);
  }

  lemma Regroup(a: seq<string>, b: seq<string>, c: seq<string>)
    ensures a + b + c == a + (b + c)
  {
  }

  lemma LocatedAt(lines: seq<string>, h: nat)
    requires Mentions(lines) && h < |lines| && FindHeader(lines) == h
    ensures Locate(lines) == Ok(PartsAt(lines, h))
  {
  }

  lemma PartsAgain(before: seq<string>, section: seq<string>, after: seq<string>)
    requires before != [] && section != [] && PureEntries(section) && EndsSection(after)
    ensures PartsAt(before + (section + after), |before| - 1) == Parts(before, section, after)
  {
    TakeFirst(before, section + after);
    SectionReadBack(section, after);
    TakeFirst(section, after);
  }

  lemma HeaderStays(before: seq<string>, rest: seq<string>)
    requires before != [] && FindHeader(before) == |before| - 1
    ensures FindHeader(before + rest) == |before| - 1 && Mentions(before + rest)
  {
    var lines := before + rest;
    var h := |before| - 1;
    assert lines[h] == before[h];
    HeaderContains(lines[h]);
    MentionedIn(lines, h);
    HeaderIs(lines, h);
  }

  lemma HeaderIs(lines: seq<string>, h: nat)
    requires h < |lines| && IsHeader(lines[h]) && forall i | 0 <= i < h :: !IsHeader(lines[i])
    ensures FindHeader(lines) == h
  {
  }

  lemma LocatedParts(lines: seq<string>)
    requires Locate(lines).Ok?
    ensures var parts := Locate(lines).value;
            && parts.before != [] && FindHeader(parts.before) == |parts.before| - 1
            && PureEntries(parts.entries) && EndsSection(parts.after)
  {
    var h := FindHeader(lines);
    var body := lines[h + 1..];
    HeaderIs(lines[..h + 1], h);
    EntriesArePure(body[..StopAt(body, 0)]);
    TailEndsSection(body);
  }

  /** Merging after a merge meets the merged entries as the section's entries, and rewrites just those. */
  lemma MergeAfterMerge(first: Variant, second: Variant, lines: seq<string>, added: seq<string>, more: seq<string>)
    requires Locate(lines).Ok? && added != [] && PureEntries(added)
    ensures var parts := Locate(lines).value;
            Merge(second, Merge(first, lines, added).value, more) ==
            Ok(parts.before + Arrange(second, Arrange(first, parts.entries + added) + more) + parts.after)
  {
    var parts := Locate(lines).value;
    LocatedParts(lines);
    ArrangePure(first, parts.entries + added);
    LocatedAgain(parts.before, Arrange(first, parts.entries + added), parts.after);
  }

  lemma HeaderContains(line: string)
    requires IsHeader(line)
    ensures Contains(line, "[replace]")
  {
    var t := TrimStart(line);
    TrimStartIsSuffix(line);
    StartedSuffix(line, t, "[replace]");
  }

  lemma StartedSuffix(line: string, t: string, word: string)
    requires |t| <= |line| && t == line[|line| - |t|..] && StartsWith(t, word)
    ensures Contains(line, word)
  {
    var a, b := line[..|line| - |t|], t[|word|..];
    assert t == word + b;
    assert line == a + t;
    assert a + (word + b) == a + word + b;
    ContainsMiddle(a, word, b);
  }

  lemma {:induction false} TrimStartIsSuffix(s: string)
    ensures TrimStart(s) == s[|s| - |TrimStart(s)|..]
  {
    if s != "" && IsSpace(s[0]) { TrimStartIsSuffix(s[1..]); }
  }

  /** The deduplicating merge of at least one entry is idempotent: repeating it leaves the file as it is. */
  lemma DeduplicatingMergeIsIdempotent(lines: seq<string>, added: seq<string>)
    requires Locate(lines).Ok? && added != [] && PureEntries(added)
    ensures Merge(Deduplicating, Merge(Deduplicating, lines, added).value, added) == Merge(Deduplicating, lines, added)
  {
    var entries := Locate(lines).value.entries;
    MergeAfterMerge(Deduplicating, Deduplicating, lines, added, added);
    SortUniqueSorts(entries + added);
    SortUniqueAgain(SortUnique(entries + added), added);
  }

  /** The keeping merge adds its entries once more each time it is repeated. */
  lemma KeepingMergeAddsAgain(lines: seq<string>, added: seq<string>)
    requires Locate(lines).Ok? && added != [] && PureEntries(added)
    ensures var once := Merge(Keeping, lines, added).value;
            && Merge(Keeping, once, added) == Merge(Keeping, lines, added + added)
            && |Merge(Keeping, once, added).value| == |once| + |added|
  {
    var entries := Locate(lines).value.entries;
    MergeAfterMerge(Keeping, Keeping, lines, added, added);
    SortTwice(entries, added);
  }

  lemma SortTwice(entries: seq<string>, added: seq<string>)
    ensures Sort(Sort(entries + added) + added) == Sort(entries + (added + added))
    ensures |Sort(Sort(entries + added) + added)| == |Sort(entries + added)| + |added|
  {
    SortSorts(entries + added);
    SortSorts(Sort(entries + added) + added);
    SortSorts(entries + (added + added));
    SortedIsUnique(Sort(Sort(entries + added) + added), Sort(entries + (added + added)));
    MultisetLength(Sort(entries + added) + added, Sort(Sort(entries + added) + added));
  }

  lemma MultisetLength(a: seq<string>, b: seq<string>)
    requires multiset(a) == multiset(b)
    ensures |a| == |b|
  {
    assert |multiset(a)| == |a| && |multiset(b)| == |b|;
  }

  /** Both tools write the same file if and only if no entry occurs twice; and they fail alike. */
  lemma VariantsAgreeExactly(lines: seq<string>, added: seq<string>)
    ensures Locate(lines).Ok? ==>
              (Merge(Deduplicating, lines, added) == Merge(Keeping, lines, added) <==>
               Distinct(Locate(lines).value.entries + added))
    ensures Locate(lines).Err? ==> Merge(Deduplicating, lines, added) == Merge(Keeping, lines, added)
  {
    if Locate(lines).Ok? {
      var parts := Locate(lines).value;
      var all := parts.entries + added;
      SortedAlikeExactly(all);
      if Merge(Deduplicating, lines, added) == Merge(Keeping, lines, added) {
        SameMiddle(parts.before, SortUnique(all), Sort(all), parts.after);
      }
    }
  }

  lemma SameMiddle(before: seq<string>, a: seq<string>, b: seq<string>, after: seq<string>)
    requires before + a + after == before + b + after
    ensures a == b
  {
    assert |before + a + after| == |before + b + after|;
    assert a == (before + a + after)[|before|..|before| + |a|];
    assert b == (before + b + after)[|before|..|before| + |b|];
  }

  /** The entry written for one version of a crate. */
  function EntryFor(crateName: string, version: string): string {
    "\"" + crateName + ":" + version + "\" = { path = \"src/overrides/" + crateName + "/" + version + "\" }"
  }

  /** Entries the tools write are pure, so the results above apply to every run of theirs. */
  lemma WrittenEntriesArePure(crateName: string, version: string)
    ensures PureEntry(EntryFor(crateName, version))
  {
    var t := EntryFor(crateName, version);
    assert t[0] == '\"' && t[|t| - 1] == '}';
    assert TrimStart(t) == t && TrimEnd(t) == t;
  }
}

/**
 The dependencies already masked, as the clean-up reads them from the root Cargo.toml, and what a
 merge into the [replace] section makes of them.
 */
module MaskedDeps {
  import opened Text
  import opened CargoReplace

  /** The part of a text in front of its first quotation mark. */
  function UpToQuote(s: string): (r: string)
    ensures '\"' !in r
  {
    if s == "" || s[0] == '\"' then "" else [s[0]] + UpToQuote(s[1..])
  }

  /** The key of an entry: what stands between the quotation marks it begins with. */
  function KeyOf(t: string): set<string> {
    if t != "" && t[0] == '\"' && '\"' in t[1..] then {UpToQuote(t[1..])} else {}
  }

  predicate OpensSection(line: string) {
    Trim(line) != "" && Trim(line)[0] == '['
  }

  /** The keys read inside the section; another header of the same section does not end it. */
  function ReadSection(lines: seq<string>): set<string> {
    if lines == [] then {}
    else if IsHeader(lines[0]) then ReadSection(lines[1..])
    else if OpensSection(lines[0]) then {}
    else KeyOf(Trim(lines[0])) + ReadSection(lines[1..])
  }

  function AlreadyMasked(lines: seq<string>): set<string> {
    if lines == [] then {}
    else if IsHeader(lines[0]) then ReadSection(lines[1..])
    else AlreadyMasked(lines[1..])
  }

  method GetAlreadyMasked(lines: seq<string>) returns (masked: set<string>)
    ensures masked == AlreadyMasked(lines)
  {
    masked := {};
    var inSection := false;
    for i := 0 to |lines|
      invariant !inSection ==> masked == {} && AlreadyMasked(lines) == AlreadyMasked(lines[i..])
      invariant inSection ==> AlreadyMasked(lines) == masked + ReadSection(lines[i..])
    {
      assert lines[i..][1..] == lines[i + 1..];
      var line := Trim(lines[i]);
      if line == "[replace]" {
        inSection := true;
      } else if inSection && line != "" && line[0] == '[' {
        return;
      } else if inSection {
        masked := masked + KeyOf(line);
      }
    }
  }

  // -- Masks and merges -------------------------------------------------------------------------

  /** The keys of all these lines. */
  function Keys(lines: seq<string>): set<string> {
    if lines == [] then {} else Keys(lines[..|lines| - 1]) + KeyOf(Trim(lines[|lines| - 1]))
  }

  lemma {:induction false} KeysExactly(lines: seq<string>, key: string)
    ensures key in Keys(lines) <==> exists line | line in lines :: key in KeyOf(Trim(line))
  {
    if lines != [] {
      var front, last := lines[..|lines| - 1], lines[|lines| - 1];
      KeysExactly(front, key);
      assert lines == front + [last];
    }
  }

  lemma {:induction false} KeysAppend(a: seq<string>, b: seq<string>)
    ensures Keys(a + b) == Keys(a) + Keys(b)
  {
    if b == [] {
      assert a + b == a;
    } else {
      assert (a + b)[..|a + b| - 1] == a + b[..|b| - 1];
      KeysAppend(a, b[..|b| - 1]);
    }
  }

  /** Sorting the entries, with or without duplicates, keeps their keys. */
  lemma ArrangeKeepsKeys(variant: Variant, s: seq<string>)
    ensures Keys(Arrange(variant, s)) == Keys(s)
  {
    forall key ensures key in Keys(Arrange(variant, s)) <==> key in Keys(s) {
      KeysExactly(s, key);
      KeysExactly(Arrange(variant, s), key);
      ArrangeSorts(variant, s);
    }
  }

  lemma {:induction false} KeysOfEntries(lines: seq<string>)
    ensures Keys(Entries(lines)) == Keys(lines)
  {
    if lines != [] {
      var front, t := lines[..|lines| - 1], Trim(lines[|lines| - 1]);
      KeysOfEntries(front);
      TrimIdempotent(lines[|lines| - 1]);
      if IsEntry(t) {
        OneMoreKey(Entries(front), t);
      } else {
        assert Entries(lines) == Entries(front) && KeyOf(t) == {};
      }
    }
  }

  lemma OneMoreKey(lines: seq<string>, line: string)
    ensures Keys(lines + [line]) == Keys(lines) + KeyOf(Trim(line))
  {
    assert (lines + [line])[..|lines|] == lines;
  }

  lemma {:induction false} EntriesUpToEnd(lines: seq<string>)
    ensures Entries(lines[..EntriesEnd(lines)]) == Entries(lines)
  {
    if lines != [] {
      if IsEntry(Trim(lines[|lines| - 1])) {
        assert lines[..|lines|] == lines;
      } else {
        EntriesUpToEnd(lines[..|lines| - 1]);
        assert lines[..|lines| - 1][..EntriesEnd(lines)] == lines[..EntriesEnd(lines)];
      }
    }
  }

  predicate OpensNone(lines: seq<string>) {
    forall i | 0 <= i < |lines| :: !OpensSection(lines[i])
  }

  /** Lines that open no section are read, and the reading goes on behind them. */
  lemma {:induction false} ReadThrough(lines: seq<string>, rest: seq<string>)
    requires OpensNone(lines)
    ensures ReadSection(lines + rest) == Keys(lines) + ReadSection(rest)
  {
    if lines == [] {
      assert lines + rest == rest;
    } else {
      var front, last := lines[..|lines| - 1], lines[|lines| - 1];
      assert lines + rest == front + ([last] + rest);
      ReadThrough(front, [last] + rest);
      ReadOne(last, rest);
    }
  }

  lemma ReadOne(line: string, rest: seq<string>)
    requires !OpensSection(line)
    ensures ReadSection([line] + rest) == KeyOf(Trim(line)) + ReadSection(rest)
  {
    assert ([line] + rest)[1..] == rest;
  }

  /** The section as it is scanned has the keys of its entries. */
  lemma ScannedKeys(body: seq<string>)
    ensures OpensNone(body[..SectionLength(body)])
    ensures Keys(body[..SectionLength(body)]) == Keys(SectionEntries(body))
  {
    var stop, k := StopAt(body, 0), SectionLength(body);
    forall i | 0 <= i < k ensures !OpensSection(body[i]) { assert !Stops(body, i); }
    KeysOfEntries(body[..k]);
    if stop == |body| {
      assert body[..stop] == body;
      EntriesUpToEnd(body);
    }
  }

  lemma {:induction false} MaskedBehindHeader(before: seq<string>, rest: seq<string>)
    requires before != [] && FindHeader(before) == |before| - 1
    ensures AlreadyMasked(before + rest) == ReadSection(rest)
  {
    assert (before + rest)[1..] == before[1..] + rest;
    if |before| > 1 {
      MaskedBehindHeader(before[1..], rest);
    } else {
      assert before[1..] + rest == rest;
    }
  }

  lemma BodyRead(body: seq<string>)
    ensures ReadSection(body) == Keys(SectionEntries(body)) + ReadSection(body[SectionLength(body)..])
  {
    var k := SectionLength(body);
    ScannedKeys(body);
    assert body == body[..k] + body[k..];
    ReadThrough(body[..k], body[k..]);
  }

  lemma {:induction false} MaskedAt(lines: seq<string>)
    requires FindHeader(lines) < |lines|
    ensures AlreadyMasked(lines) == ReadSection(lines[FindHeader(lines) + 1..])
  {
    if !IsHeader(lines[0]) {
      MaskedAt(lines[1..]);
      assert lines[1..][FindHeader(lines)..] == lines[FindHeader(lines) + 1..];
    }
  }

  lemma PartsOfBody(lines: seq<string>, h: nat, body: seq<string>)
    requires h < |lines| && body == lines[h + 1..]
    ensures PartsAt(lines, h).entries == SectionEntries(body)
    ensures PartsAt(lines, h).after == body[SectionLength(body)..]
  {
  }

  lemma MaskedParts(lines: seq<string>, h: nat)
    requires h < |lines| && FindHeader(lines) == h
    ensures var parts := PartsAt(lines, h);
            AlreadyMasked(lines) == Keys(parts.entries) + ReadSection(parts.after)
  {
    var body := lines[h + 1..];
    MaskedAt(lines);
    BodyRead(body);
    PartsOfBody(lines, h, body);
  }

  lemma LocatedIs(lines: seq<string>)
    requires Locate(lines).Ok?
    ensures FindHeader(lines) < |lines| && Locate(lines).value == PartsAt(lines, FindHeader(lines))
  {
  }

  lemma PureOpensNone(s: seq<string>)
    requires PureEntries(s)
    ensures OpensNone(s)
  {
    forall i | 0 <= i < |s| ensures !OpensSection(s[i]) { assert PureEntry(s[i]); }
  }

  /**
   After a merge, with or without duplicates, the dependencies read as masked are exactly those
   read before and those of the added entries, wherever the file goes on after the section.
   */
  lemma MergeAddsMasks(variant: Variant, lines: seq<string>, added: seq<string>)
    requires Locate(lines).Ok? && PureEntries(added)
    ensures AlreadyMasked(Merge(variant, lines, added).value) == AlreadyMasked(lines) + Keys(added)
  {
    var parts := Locate(lines).value;
    var section := Arrange(variant, parts.entries + added);
    LocatedIs(lines);
    MaskedParts(lines, FindHeader(lines));
    LocatedParts(lines);
    ArrangePure(variant, parts.entries + added);
    PureOpensNone(section);
    Regroup(parts.before, section, parts.after);
    MaskedBehindHeader(parts.before, section + parts.after);
    ReadThrough(section, parts.after);
    ArrangeKeepsKeys(variant, parts.entries + added);
    KeysAppend(parts.entries, added);
  }

  lemma {:induction false} UpToQuoteIs(key: string, tail: string)
    requires '\"' !in key && tail != "" && tail[0] == '\"'
    ensures UpToQuote(key + tail) == key
  {
    if key != "" {
      assert (key + tail)[1..] == key[1..] + tail;
      UpToQuoteIs(key[1..], tail);
    }
  }

  /** An entry that begins with a quoted key has just that key, if and only if no quotation mark is in it. */
  lemma QuotedKeyExactly(t: string, key: string, tail: string)
    requires t == "\"" + (key + tail) && tail != "" && tail[0] == '\"' && Trim(t) == t
    ensures Keys([t]) == {key} <==> '\"' !in key
  {
    if '\"' !in key { UpToQuoteIs(key, tail); }
    assert t[1..] == key + tail && (key + tail)[|key|] == '\"';
    OneMoreKey([], t);
    assert [] + [t] == [t];
    assert Keys([t]) == {UpToQuote(t[1..])};
    assert Keys([t]) == {key} ==> UpToQuote(t[1..]) in {key};
  }

  lemma SixPieces(q: string, a: string, b: string, c: string, d: string, e: string)
    ensures q + a + b + c + d + e == q + (a + b + c + (d + e))
  {
  }

  /**
   The entry written for a version of a crate is read back as that version of that crate, if and
   only if neither has a quotation mark.
   */
  lemma WrittenEntryIsReadExactly(crateName: string, version: string)
    ensures Keys([EntryFor(crateName, version)]) == {crateName + ":" + version} <==>
            '\"' !in crateName && '\"' !in version
  {
    var middle, end := "\" = { path = \"src/overrides/", crateName + "/" + version + "\" }";
    SixPieces("\"", crateName, ":", version, middle, end);
    EntryEnds("\"" + crateName + ":" + version + middle, crateName, version, "\" }");
    WrittenEntriesArePure(crateName, version);
    assert middle[0] == '\"';
    QuotedKeyExactly(EntryFor(crateName, version), crateName + ":" + version, middle + end);
  }

  lemma EntryEnds(start: string, crateName: string, version: string, end: string)
    ensures start + crateName + "/" + version + end == start + (crateName + "/" + version + end)
  {
  }
}

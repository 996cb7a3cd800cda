/**
 The sample configuration written from the parameter definitions: documentation as comments, and
 as active settings only the defaults Debian needs.
 */
module ConfExample {
  import opened Text
  import opened Lines
  import opened CommentText
  import opened ConfText

  datatype Kind = BoolKind | ListKind | RangeKind | TtlKind | EnumKind | OtherKind

  datatype Parameter = Parameter(
    name: string,
    section: string,
    documented: bool,
    domainSpecific: bool,
    order: int,
    default_: string,
    exampleValue: string,
    kind: Kind,
    enumValues: seq<string>,
    confDescription: string,
    description: string)

  const DEBIAN_REQUIRED_DEFAULTS: map<string, string> := map[
    "local_groups" := "users",
    "home_attr" := "CN",
    "home_alias" := "CN",
    "use_etc_skel" := "true"]

  const DESCRIPTIVE_DEFAULT_MARKERS := ["extracted from", "all users permitted", "not set", "none"]

  predicate SingleLine(p: Parameter) {
    && OneLine(p.name) && OneLine(p.default_) && OneLine(p.exampleValue)
    && forall i | 0 <= i < |p.enumValues| :: OneLine(p.enumValues[i])
  }

  // -- Values -------------------------------------------------------------------------------

  predicate IsDescriptiveDefault(lib: Library, default_: string) {
    default_ == "" ||
    exists i | 0 <= i < |DESCRIPTIVE_DEFAULT_MARKERS| :: Contains(lib.lower(default_), DESCRIPTIVE_DEFAULT_MARKERS[i])
  }

  /** The settings that have to be active: Debian's table in Debian mode, otherwise none. */
  type Table = map<string, string>

  function TableFor(debian: bool): Table {
    if debian then DEBIAN_REQUIRED_DEFAULTS else map[]
  }

  function SampleValue(lib: Library, p: Parameter, table: Table): string {
    if p.name in table then table[p.name]
    else if p.default_ != "" && !IsDescriptiveDefault(lib, p.default_) then p.default_
    else p.exampleValue
  }

  function JoinChoices(values: seq<string>): string {
    if values == [] then ""
    else if |values| == 1 then values[0]
    else values[0] + "|" + JoinChoices(values[1..])
  }

  function ValueHint(p: Parameter): string {
    match p.kind
    case EnumKind => if p.enumValues == [] then "" else "<" + JoinChoices(p.enumValues) + ">"
    case BoolKind => "<true|false>"
    case ListKind => "<item1,item2,...>"
    case RangeKind => "<min-max>"
    case TtlKind => "<seconds|Nm|Nh|Nd>"
    case OtherKind => ""
  }

  function Assignment(name: string, value: string): string {
    if value != "" then name + " = " + value else name + " ="
  }

  function BlockAssignment(lib: Library, p: Parameter, table: Table): string {
    var sample := SampleValue(lib, p, table);
    Assignment(p.name, if sample == "" then ValueHint(p) else sample)
  }

  // -- Order ----------------------------------------------------------------------------------

  predicate SortedByOrder(ps: seq<Parameter>) {
    forall i, j | 0 <= i < j < |ps| :: ps[i].order <= ps[j].order
  }

  function InsertByOrder(p: Parameter, ps: seq<Parameter>): seq<Parameter> {
    if ps == [] || p.order <= ps[0].order then [p] + ps else [ps[0]] + InsertByOrder(p, ps[1..])
  }

  /** The stable sort by the `order` field. */
  function SortByOrder(ps: seq<Parameter>): seq<Parameter> {
    if ps == [] then [] else InsertByOrder(ps[0], SortByOrder(ps[1..]))
  }

  function WithOrder(ps: seq<Parameter>, order: int): seq<Parameter> {
    if ps == [] then []
    else (if ps[0].order == order then [ps[0]] else []) + WithOrder(ps[1..], order)
  }

  lemma {:induction false} InsertByOrderSorts(p: Parameter, ps: seq<Parameter>)
    requires SortedByOrder(ps)
    ensures SortedByOrder(InsertByOrder(p, ps))
    ensures forall q :: q in InsertByOrder(p, ps) <==> q == p || q in ps
  {
    if ps != [] && p.order > ps[0].order {
      var rest := InsertByOrder(p, ps[1..]);
      InsertByOrderSorts(p, ps[1..]);
      assert ps == [ps[0]] + ps[1..];
      forall i | 0 <= i < |rest| ensures ps[0].order <= rest[i].order {
        assert rest[i] in rest;
      }
    }
  }

  lemma {:induction false} InsertByOrderIsStable(p: Parameter, ps: seq<Parameter>, order: int)
    requires SortedByOrder(ps)
    ensures WithOrder(InsertByOrder(p, ps), order) ==
            if p.order == order then [p] + WithOrder(ps, order) else WithOrder(ps, order)
  {
    if ps == [] || p.order <= ps[0].order {
      WithOrderCons(p, ps, order);
    } else {
      var rest := ps[1..];
      InsertByOrderIsStable(p, rest, order);
      WithOrderCons(ps[0], InsertByOrder(p, rest), order);
      assert ps == [ps[0]] + rest;
      WithOrderCons(ps[0], rest, order);
    }
  }

  lemma WithOrderCons(p: Parameter, ps: seq<Parameter>, order: int)
    ensures WithOrder([p] + ps, order) == if p.order == order then [p] + WithOrder(ps, order) else WithOrder(ps, order)
  {
    assert ([p] + ps)[1..] == ps;
  }

  /** Sorting orders the parameters and keeps those of equal order as they came. */
  lemma {:induction false} SortByOrderIsStable(ps: seq<Parameter>, order: int)
    ensures SortedByOrder(SortByOrder(ps))
    ensures WithOrder(SortByOrder(ps), order) == WithOrder(ps, order)
    ensures forall q :: q in SortByOrder(ps) <==> q in ps
  {
    if ps != [] {
      SortByOrderIsStable(ps[1..], order);
      InsertByOrderSorts(ps[0], SortByOrder(ps[1..]));
      InsertByOrderIsStable(ps[0], SortByOrder(ps[1..]), order);
      assert ps == [ps[0]] + ps[1..];
      WithOrderCons(ps[0], ps[1..], order);
    }
  }

  /** The documented parameters of a section, in the order they came. */
  function Documented(ps: seq<Parameter>, section: string): (r: seq<Parameter>)
    ensures forall q :: q in r <==> q in ps && q.section == section && q.documented
  {
    if ps == [] then []
    else (if ps[0].section == section && ps[0].documented then [ps[0]] else []) + Documented(ps[1..], section)
  }

  function DomainSpecific(ps: seq<Parameter>): (r: seq<Parameter>)
    ensures forall q :: q in r <==> q in ps && q.domainSpecific
  {
    if ps == [] then [] else (if ps[0].domainSpecific then [ps[0]] else []) + DomainSpecific(ps[1..])
  }

  lemma {:induction false} DocumentedInOrder(a: seq<Parameter>, b: seq<Parameter>, section: string)
    ensures Documented(a + b, section) == Documented(a, section) + Documented(b, section)
  {
    if a == [] {
      assert a + b == b;
    } else {
      assert (a + b)[1..] == a[1..] + b;
      DocumentedInOrder(a[1..], b, section);
    }
  }

  lemma {:induction false} DomainSpecificInOrder(a: seq<Parameter>, b: seq<Parameter>)
    ensures DomainSpecific(a + b) == DomainSpecific(a) + DomainSpecific(b)
  {
    if a == [] {
      assert a + b == b;
    } else {
      assert (a + b)[1..] == a[1..] + b;
      DomainSpecificInOrder(a[1..], b);
    }
  }

  /** The settings of the table, with the table's values, in the order of the parameters. */
  function Required(ps: seq<Parameter>, table: Table): seq<string> {
    if ps == [] then []
    else
      var last := ps[|ps| - 1];
      Required(ps[..|ps| - 1], table) + (if last.name in table then [last.name + " = " + table[last.name]] else [])
  }

  /** Names and values a setting can be written with on a line of its own. */
  predicate Writable(table: Table) {
    forall name | name in table :: WritableSetting(name, table[name])
  }

  predicate WritableSetting(name: string, value: string) {
    && OneLine(value) && value != "" && !IsSpace(value[|value| - 1])
    && OneLine(name) && name != ""
    && !IsSpace(name[0]) && name[0] != '#' && name[0] != ';' && name[0] != '['
  }

  lemma TableIsWritable(debian: bool)
    ensures Writable(TableFor(debian))
  {
    forall name | name in DEBIAN_REQUIRED_DEFAULTS ensures WritableSetting(name, DEBIAN_REQUIRED_DEFAULTS[name]) {
      assert name in {"local_groups", "home_attr", "home_alias", "use_etc_skel"};
    }
  }

  // -- Blocks ------------------------------------------------------------------------------------

  lemma {:induction false} JoinChoicesIsOneLine(values: seq<string>)
    requires forall i | 0 <= i < |values| :: OneLine(values[i])
    ensures OneLine(JoinChoices(values))
  {
    if |values| > 1 {
      JoinChoicesIsOneLine(values[1..]);
      assert OneLine(values[0]);
    } else if |values| == 1 {
      assert OneLine(values[0]);
    }
  }

  /** The choice stands in the hint between its marks. */
  predicate Offers(hint: string, choice: string, before: string, after: string) {
    && hint == before + choice + after
    && before != "" && (before[|before| - 1] == '<' || before[|before| - 1] == '|')
    && after != "" && (after[0] == '|' || after[0] == '>')
  }

  lemma {:induction false} ChoiceIsJoined(values: seq<string>, i: nat) returns (before: string, after: string)
    requires i < |values|
    ensures Offers("<" + JoinChoices(values) + ">", values[i], before, after)
  {
    if |values| == 1 {
      before, after := "<", ">";
    } else if i == 0 {
      before, after := "<", "|" + JoinChoices(values[1..]) + ">";
    } else {
      before, after := ChoiceIsJoined(values[1..], i - 1);
      ChoiceBehind(values[0], JoinChoices(values[1..]), values[i], before, after);
      before := "<" + values[0] + "|" + before[1..];
    }
  }

  lemma ChoiceBehind(first: string, joined: string, choice: string, before: string, after: string)
    requires Offers("<" + joined + ">", choice, before, after)
    ensures Offers("<" + (first + "|" + joined) + ">", choice, "<" + first + "|" + before[1..], after)
  {
    var b, rest := "<" + first + "|" + before[1..], before[1..] + choice + after;
    assert joined + ">" == ("<" + joined + ">")[1..] == (before + choice + after)[1..] == rest;
    assert "<" + (first + "|" + joined) + ">" == "<" + first + "|" + (joined + ">");
    assert b + choice + after == "<" + first + "|" + rest;
    assert b[|b| - 1] == if |before| == 1 then '|' else before[|before| - 1];
  }

  /** The hint for a choice offers every one of the values. */
  lemma HintOffersEveryChoice(p: Parameter, i: nat) returns (before: string, after: string)
    requires p.kind == EnumKind && i < |p.enumValues|
    ensures Offers(ValueHint(p), p.enumValues[i], before, after)
  {
    before, after := ChoiceIsJoined(p.enumValues, i);
  }

  lemma ValueHintIsOneLine(p: Parameter)
    requires SingleLine(p)
    ensures OneLine(ValueHint(p))
  {
    JoinChoicesIsOneLine(p.enumValues);
  }

  lemma SampleValueIsOneLine(lib: Library, p: Parameter, table: Table)
    requires SingleLine(p) && Writable(table)
    ensures OneLine(SampleValue(lib, p, table))
  {
  }

  /** A required setting is written just as the table has it, and is an active line. */
  lemma RequiredSettingIsActive(lib: Library, p: Parameter, table: Table)
    requires p.name in table && Writable(table)
    ensures var line := BlockAssignment(lib, p, table);
            line == p.name + " = " + table[p.name] && Trim(line) == line && Active(line)
  {
    var value := table[p.name];
    var line := p.name + " = " + value;
    assert WritableSetting(p.name, value);
    assert line[|line| - 1] == value[|value| - 1];
    assert line[0] == p.name[0];
    assert "[global]"[0] == '[';
  }

  // What the parameters set. Only the first line of a commented-out assignment is a comment.

  /** How parameters are assigned in their blocks. */
  function InBlocks(lib: Library, table: Table): Parameter -> string {
    p => BlockAssignment(lib, p, table)
  }

  /** How parameters are assigned in the per-domain example. */
  function InDomains(lib: Library, table: Table): Parameter -> string {
    (p: Parameter) => Assignment(p.name, SampleValue(lib, p, table))
  }

  /** What escapes the comment marks when all assignments are commented out. */
  function EscapeAll(assign: Parameter -> string, ps: seq<Parameter>): seq<string> {
    if ps == [] then [] else EscapeAll(assign, ps[..|ps| - 1]) + Escapes(assign(ps[|ps| - 1]))
  }

  function BlockSets(assign: Parameter -> string, p: Parameter, table: Table): seq<string> {
    if p.name in table then [p.name + " = " + table[p.name]] else Escapes(assign(p))
  }

  function GlobalSets(assign: Parameter -> string, ps: seq<Parameter>, table: Table): seq<string> {
    if ps == [] then [] else GlobalSets(assign, ps[..|ps| - 1], table) + BlockSets(assign, ps[|ps| - 1], table)
  }

  function DescriptionOf(lib: Library, p: Parameter): string {
    if p.confDescription != "" then lib.squeeze(p.confDescription) else lib.clean(p.description)
  }

  /** Comments that show the whole description, and the assignment as the last line, active or as a comment. */
  method RenderParameterExampleBlock(lib: Library, p: Parameter, table: Table, uncomment: bool)
    returns (lines: seq<string>)
    requires Fills(lib)
    ensures lines != [] && AreComments(lines[..|lines| - 1])
    ensures Shown("", lines[..|lines| - 1]) == Ink("", DescriptionOf(lib, p))
    ensures lines[|lines| - 1] ==
            if uncomment then BlockAssignment(lib, p, table) else "# " + BlockAssignment(lib, p, table)
  {
    var comments := WrapCommentText(lib, DescriptionOf(lib, p), 79);
    var value := SampleValue(lib, p, table);
    if value == "" { value := ValueHint(p); }
    var assignment := Assignment(p.name, value);
    var last := if uncomment then assignment else "# " + assignment;
    lines := comments + [last];
    assert lines[..|lines| - 1] == comments;
  }

  const DOMAIN_NOTE := [
    "### Domain-specific values",
    "# The following options" + " may be overridden" + " per domain section.",
    "#",
    "# [example.com]"]

  lemma DomainNoteIsQuiet()
    ensures Quiet(DOMAIN_NOTE)
  {
    assert OneLine("### Domain-specific values") && OneLine("#") && OneLine("# [example.com]");
    ThreePieces("# The following options", " may be overridden", " per domain section.");
  }

  /** A comment put together from pieces without line breaks. */
  lemma ThreePieces(a: string, b: string, c: string)
    requires a != "" && a[0] == '#' && OneLine(a) && OneLine(b) && OneLine(c)
    ensures IsComment(a + b + c)
  {
  }

  /** Comments in front of the last piece of a block set nothing. */
  lemma BlockSetsAsItsEnd(block: seq<string>)
    requires block != [] && AreComments(block[..|block| - 1])
    ensures Sets(block) == ActiveLines(Split(block[|block| - 1]))
  {
    QuietSetsNothing(block[..|block| - 1]);
  }

  /** The block of a global parameter: active with the table's value, or commented out. */
  method GlobalBlock(lib: Library, p: Parameter, table: Table) returns (lines: seq<string>)
    requires Fills(lib) && Writable(table)
    ensures Sets(lines) == BlockSets(InBlocks(lib, table), p, table)
  {
    lines := RenderParameterExampleBlock(lib, p, table, p.name in table);
    BlockSetsAsItsEnd(lines);
    if p.name in table {
      RequiredSettingIsActive(lib, p, table);
      OneLineSets(BlockAssignment(lib, p, table));
    } else {
      CommentCoversTheFirstLine(BlockAssignment(lib, p, table));
    }
  }

  method CommentedBlock(lib: Library, p: Parameter, table: Table) returns (lines: seq<string>)
    requires Fills(lib)
    ensures Sets(lines) == Escapes(InBlocks(lib, table)(p))
  {
    lines := RenderParameterExampleBlock(lib, p, table, false);
    BlockSetsAsItsEnd(lines);
    CommentCoversTheFirstLine(BlockAssignment(lib, p, table));
  }

  /** The per-domain example, which is commented out. */
  method DomainOverrideExample(lib: Library, params: seq<Parameter>, table: Table) returns (lines: seq<string>)
    ensures Sets(lines) == EscapeAll(InDomains(lib, table), SortByOrder(DomainSpecific(Documented(params, "global"))))
  {
    var chosen := SortByOrder(DomainSpecific(Documented(params, "global")));
    if chosen == [] { return []; }
    DomainNoteIsQuiet();
    QuietSetsNothing(DOMAIN_NOTE);
    lines := DomainLines(lib, chosen, table, DOMAIN_NOTE);
  }

  method DomainLines(lib: Library, chosen: seq<Parameter>, table: Table, note: seq<string>) returns (lines: seq<string>)
    requires Sets(note) == []
    ensures Sets(lines) == EscapeAll(InDomains(lib, table), chosen)
  {
    lines := note;
    for i := 0 to |chosen|
      invariant Sets(lines) == EscapeAll(InDomains(lib, table), chosen[..i])
    {
      var line := ["# " + Assignment(chosen[i].name, SampleValue(lib, chosen[i], table))];
      CommentedPiece(InDomains(lib, table)(chosen[i]));
      EscapeAdded(InDomains(lib, table), chosen, i, lines, line, []);
      assert lines + line + [] == lines + line;
      lines := lines + line;
    }
    assert chosen[..|chosen|] == chosen;
    QuietAdded(lines, [""]);
    lines := lines + [""];
  }

  /** Another commented-out assignment lets escape what it lets escape, whatever is around it. */
  lemma EscapeAdded(
    assign: Parameter -> string, chosen: seq<Parameter>, i: nat,
    lines: seq<string>, block: seq<string>, gap: seq<string>)
    requires i < |chosen| && Sets(lines) == EscapeAll(assign, chosen[..i])
    requires Sets(block) == Escapes(assign(chosen[i])) && Quiet(gap)
    ensures Sets(lines + block + gap) == EscapeAll(assign, chosen[..i + 1])
  {
    assert chosen[..i + 1][..i] == chosen[..i];
    SetsAppend(lines, block);
    QuietAdded(lines + block, gap);
  }

  lemma CommentedPiece(text: string)
    ensures Sets(["# " + text]) == Escapes(text)
  {
    CommentCoversTheFirstLine(text);
    PieceAdded([], "# " + text);
    assert [] + ["# " + text] == ["# " + text];
  }

  lemma PieceAdded(pieces: seq<string>, piece: string)
    ensures Sets(pieces + [piece]) == Sets(pieces) + ActiveLines(Split(piece))
  {
    assert (pieces + [piece])[..|pieces|] == pieces;
  }

  lemma QuietAdded(pieces: seq<string>, quiet: seq<string>)
    requires Quiet(quiet)
    ensures Sets(pieces + quiet) == Sets(pieces)
  {
    SetsAppend(pieces, quiet);
    QuietSetsNothing(quiet);
  }

  const BREAKGLASS_TITLE := "### Offline breakglass section"

  const BREAKGLASS_HEADER := "# [offline_breakglass]"

  lemma BreakglassTitleIsQuiet()
    ensures IsComment(BREAKGLASS_TITLE) && IsComment(BREAKGLASS_HEADER)
  {
  }

  /** The offline breakglass example, which is commented out. */
  method OfflineBreakglassExample(lib: Library, params: seq<Parameter>, intro: string, table: Table)
    returns (lines: seq<string>)
    requires Fills(lib)
    ensures Sets(lines) == EscapeAll(InBlocks(lib, table), SortByOrder(Documented(params, "offline_breakglass")))
  {
    var chosen := SortByOrder(Documented(params, "offline_breakglass"));
    if chosen == [] { return []; }
    var opening := OfflineOpening(lib, intro);
    lines := OfflineBlocks(lib, chosen, table, opening);
  }

  /** The blocks of the breakglass parameters behind the opening, with a bare comment mark between them. */
  method OfflineBlocks(lib: Library, chosen: seq<Parameter>, table: Table, opening: seq<string>)
    returns (lines: seq<string>)
    requires Fills(lib) && Sets(opening) == []
    ensures Sets(lines) == EscapeAll(InBlocks(lib, table), chosen)
  {
    lines := opening;
    for i := 0 to |chosen|
      invariant Sets(lines) == EscapeAll(InBlocks(lib, table), chosen[..i])
    {
      lines := OfflineBlock(lib, chosen, table, i, lines);
    }
    assert chosen[..|chosen|] == chosen;
  }

  method OfflineBlock(lib: Library, chosen: seq<Parameter>, table: Table, i: nat, lines: seq<string>)
    returns (more: seq<string>)
    requires Fills(lib) && i < |chosen| && Sets(lines) == EscapeAll(InBlocks(lib, table), chosen[..i])
    ensures Sets(more) == EscapeAll(InBlocks(lib, table), chosen[..i + 1])
  {
    var block := CommentedBlock(lib, chosen[i], table);
    var gap := if i != |chosen| - 1 then ["#"] else [];
    EscapeAdded(InBlocks(lib, table), chosen, i, lines, block, gap);
    more := lines + block + gap;
  }

  /** The title, the introduction as comments, and the commented section header. */
  method OfflineOpening(lib: Library, intro: string) returns (lines: seq<string>)
    requires Fills(lib)
    ensures Sets(lines) == []
  {
    lines := [];
    if intro != "" {
      lines := WrapCommentText(lib, lib.clean(intro), 79);
    }
    BreakglassTitleIsQuiet();
    lines := [BREAKGLASS_TITLE] + lines + [BREAKGLASS_HEADER];
    QuietSetsNothing(lines);
  }

  // -- The whole sample --------------------------------------------------------------------------------

  const TITLE := ["# See `man" + " himmelblau.conf` for" + " complete documentation."]

  const DEBIAN_NOTE := [
    "#",
    "# Debian/Ubuntu note: the" + " active defaults below" + " are required on",
    "# Debian-family hosts." + " In particular, home_attr" + " and home_alias",
    "# are intentionally" + " set to" + " matching values."]

  lemma TitleIsQuiet()
    ensures Quiet(TITLE)
  {
    ThreePieces("# See `man", " himmelblau.conf` for", " complete documentation.");
  }

  lemma DebianNoteIsQuiet()
    ensures Quiet(DEBIAN_NOTE)
  {
    assert IsComment("#");
    DebianNote1();
    DebianNote2();
    ThreePieces("# are intentionally", " set to", " matching values.");
  }

  lemma DebianNote1()
    ensures IsComment("# Debian/Ubuntu note: the" + " active defaults below" + " are required on")
  {
    ThreePieces("# Debian/Ubuntu note: the", " active defaults below", " are required on");
  }

  lemma DebianNote2()
    ensures IsComment("# Debian-family hosts." + " In particular, home_attr" + " and home_alias")
  {
    ThreePieces("# Debian-family hosts.", " In particular, home_attr", " and home_alias");
  }

  /** The opening comments and the section header. */
  method Opening(debian: bool) returns (lines: seq<string>)
    ensures Sets(lines) == []
  {
    lines := if debian then TITLE + DEBIAN_NOTE else TITLE;
    TitleIsQuiet();
    DebianNoteIsQuiet();
    QuietSetsNothing(lines);
    HeaderAdded(lines);
    lines := lines + [""] + ["[global]"];
  }

  lemma HeaderAdded(lines: seq<string>)
    ensures Sets(lines + [""] + ["[global]"]) == Sets(lines)
  {
    QuietAdded(lines, [""]);
    PieceAdded(lines + [""], "[global]");
    HeaderIsNotActive();
  }

  lemma HeaderIsNotActive()
    ensures ActiveLines(Split("[global]")) == []
  {
    assert Trim("[global]") == "[global]";
    OneLineSets("[global]");
  }

  /** The blocks of the given parameters, each after an empty line. */
  method GlobalBlocks(lib: Library, chosen: seq<Parameter>, table: Table) returns (lines: seq<string>)
    requires Fills(lib) && Writable(table)
    ensures Sets(lines) == GlobalSets(InBlocks(lib, table), chosen, table)
  {
    lines := [];
    for i := 0 to |chosen|
      invariant Sets(lines) == GlobalSets(InBlocks(lib, table), chosen[..i], table)
    {
      var block := GlobalBlock(lib, chosen[i], table);
      QuietAdded(lines, [""]);
      SetsAppend(lines + [""], block);
      assert chosen[..i + 1][..i] == chosen[..i];
      lines := lines + [""] + block;
    }
    assert chosen[..|chosen|] == chosen;
  }

  /** All the sample sets: the global settings, and what escapes the comments of the two examples. */
  function Settings(lib: Library, params: seq<Parameter>, table: Table): seq<string> {
    GlobalSets(InBlocks(lib, table), SortByOrder(Documented(params, "global")), table)
    + (EscapeAll(InDomains(lib, table), SortByOrder(DomainSpecific(Documented(params, "global"))))
       + EscapeAll(InBlocks(lib, table), SortByOrder(Documented(params, "offline_breakglass"))))
  }

  /** The pieces of the sample. */
  method ExampleLines(lib: Library, params: seq<Parameter>, intro: string, debian: bool, table: Table)
    returns (lines: seq<string>)
    requires Fills(lib) && Writable(table)
    ensures Sets(lines) == Settings(lib, params, table)
  {
    var opening := Opening(debian);
    var blocks := GlobalBlocks(lib, SortByOrder(Documented(params, "global")), table);
    var domain := DomainOverrideExample(lib, params, table);
    var offline := OfflineBreakglassExample(lib, params, intro, table);
    PutTogether(opening, blocks, domain, offline);
    lines := opening + blocks + [""] + (domain + offline);
  }

  lemma PutTogether(opening: seq<string>, blocks: seq<string>, domain: seq<string>, offline: seq<string>)
    requires Sets(opening) == []
    ensures Sets(opening + blocks + [""] + (domain + offline)) == Sets(blocks) + (Sets(domain) + Sets(offline))
  {
    UpToBlocks(opening, blocks);
    SetsAppend(domain, offline);
    SetsAppend(opening + blocks + [""], domain + offline);
  }

  lemma UpToBlocks(opening: seq<string>, blocks: seq<string>)
    requires Sets(opening) == []
    ensures Sets(opening + blocks + [""]) == Sets(blocks)
  {
    SetsAppend(opening, blocks);
    QuietAdded(opening + blocks, [""]);
  }

  /** The sample file: for all parameters, the active lines of its text are exactly these settings. */
  method GenerateConfExample(lib: Library, params: seq<Parameter>, intro: string, debian: bool) returns (text: string)
    requires Fills(lib)
    ensures ActiveLines(Split(text)) == Settings(lib, params, TableFor(debian))
  {
    TableIsWritable(debian);
    var lines := ExampleLines(lib, params, intro, debian, TableFor(debian));
    text := TrimEnd(Join(lines)) + "\n";
    TrimmedTextSetsTheSame(Join(lines));
    JoinShowsPieces(lines);
  }

  // -- Only the required settings ------------------------------------------------------------------------

  /** No commented-out assignment runs on in a line that sets something. */
  predicate NothingEscapes(lib: Library, params: seq<Parameter>, table: Table) {
    && QuietButFor(table, InBlocks(lib, table), SortByOrder(Documented(params, "global")))
    && QuietButFor(map[], InDomains(lib, table), SortByOrder(DomainSpecific(Documented(params, "global"))))
    && QuietButFor(map[], InBlocks(lib, table), SortByOrder(Documented(params, "offline_breakglass")))
  }

  /** Only assignments of the table's parameters may run on. */
  predicate QuietButFor(table: Table, assign: Parameter -> string, ps: seq<Parameter>) {
    forall p | p in ps && p.name !in table :: Escapes(assign(p)) == []
  }

  lemma {:induction false} GlobalSetsExactly(assign: Parameter -> string, ps: seq<Parameter>, table: Table)
    ensures |GlobalSets(assign, ps, table)| >= |Required(ps, table)|
    ensures |GlobalSets(assign, ps, table)| == |Required(ps, table)| <==> QuietButFor(table, assign, ps)
    ensures QuietButFor(table, assign, ps) ==> GlobalSets(assign, ps, table) == Required(ps, table)
  {
    if ps != [] {
      var front, last := ps[..|ps| - 1], ps[|ps| - 1];
      GlobalSetsExactly(assign, front, table);
      assert ps == front + [last];
      assert QuietButFor(table, assign, ps) <==>
             QuietButFor(table, assign, front) && (last.name in table || Escapes(assign(last)) == []);
    }
  }

  lemma {:induction false} EscapeAllExactly(assign: Parameter -> string, ps: seq<Parameter>)
    ensures EscapeAll(assign, ps) == [] <==> QuietButFor(map[], assign, ps)
  {
    if ps != [] {
      var front, last := ps[..|ps| - 1], ps[|ps| - 1];
      EscapeAllExactly(assign, front);
      assert ps == front + [last];
      QuietMore(assign, front, last);
    }
  }

  lemma QuietMore(assign: Parameter -> string, front: seq<Parameter>, last: Parameter)
    ensures QuietButFor(map[], assign, front + [last]) <==>
            QuietButFor(map[], assign, front) && Escapes(assign(last)) == []
  {
    assert last in front + [last];
  }

  /**
   The sample sets exactly the documented global parameters of the table, with the table's values
   and in parameter order, if and only if no commented-out assignment runs on in an active line.
   */
  lemma OnlyRequiredSettingsExactly(lib: Library, params: seq<Parameter>, table: Table)
    ensures Settings(lib, params, table) == Required(SortByOrder(Documented(params, "global")), table) <==>
            NothingEscapes(lib, params, table)
  {
    var chosen := SortByOrder(Documented(params, "global"));
    var domain := SortByOrder(DomainSpecific(Documented(params, "global")));
    var offline := SortByOrder(Documented(params, "offline_breakglass"));
    var blocks, domains := InBlocks(lib, table), InDomains(lib, table);
    GlobalSetsExactly(blocks, chosen, table);
    EscapeAllExactly(domains, domain);
    EscapeAllExactly(blocks, offline);
    OnlyTheFirst(GlobalSets(blocks, chosen, table), EscapeAll(domains, domain), EscapeAll(blocks, offline),
                 Required(chosen, table), QuietButFor(table, blocks, chosen));
  }

  lemma OnlyTheFirst(a: seq<string>, b: seq<string>, c: seq<string>, required: seq<string>, quiet: bool)
    requires |a| >= |required| && (|a| == |required| <==> quiet) && (quiet ==> a == required)
    ensures a + (b + c) == required <==> quiet && b == [] && c == []
  {
    assert |a + (b + c)| == |a| + |b| + |c|;
    if quiet && b == [] && c == [] { assert a + (b + c) == a; }
  }

  /** What is required are the parameters of the table with the table's values. */
  lemma {:induction false} RequiredExactly(ps: seq<Parameter>, table: Table, line: string)
    ensures line in Required(ps, table) <==>
            exists p | p in ps :: p.name in table && line == p.name + " = " + table[p.name]
  {
    if ps != [] {
      var front, last := ps[..|ps| - 1], ps[|ps| - 1];
      RequiredExactly(front, table, line);
      assert ps == front + [last] && last in ps;
    }
  }

  /** On Debian a documented global parameter is set if and only if it is one of these four, to this value. */
  lemma DebianSets(params: seq<Parameter>, line: string)
    ensures line in Required(SortByOrder(Documented(params, "global")), TableFor(true)) <==>
            exists p | p in params :: p.section == "global" && p.documented && DebianLine(p.name, line)
  {
    var chosen := SortByOrder(Documented(params, "global"));
    SortByOrderIsStable(Documented(params, "global"), 0);
    RequiredExactly(chosen, TableFor(true), line);
    forall p | p in params
      ensures p.name in TableFor(true) && line == p.name + " = " + TableFor(true)[p.name] <==> DebianLine(p.name, line)
    {
      DebianLineIs(p.name, line);
    }
  }

  predicate DebianLine(name: string, line: string) {
    || (name == "local_groups" && line == name + " = " + "users")
    || (name == "home_attr" && line == name + " = " + "CN")
    || (name == "home_alias" && line == name + " = " + "CN")
    || (name == "use_etc_skel" && line == name + " = " + "true")
  }

  lemma DebianLineIs(name: string, line: string)
    ensures name in DEBIAN_REQUIRED_DEFAULTS && line == name + " = " + DEBIAN_REQUIRED_DEFAULTS[name] <==>
            DebianLine(name, line)
  {
    assert |"local_groups"| == 12 && |"home_attr"| == 9 && |"home_alias"| == 10;
    assert "use_etc_skel"[0] == 'u' && "local_groups"[0] == 'l';
  }

  /** Outside Debian mode no setting is required. */
  lemma {:induction false} NothingRequired(ps: seq<Parameter>)
    ensures Required(ps, map[]) == []
  {
    if ps != [] { NothingRequired(ps[..|ps| - 1]); }
  }

  /** Parameters written in single lines, as all of them are meant to be, let nothing escape. */
  lemma SingleLinesEscapeNothing(lib: Library, params: seq<Parameter>, table: Table)
    requires Writable(table) && forall p | p in params :: SingleLine(p)
    ensures NothingEscapes(lib, params, table)
  {
    forall p | p in params
      ensures Escapes(InBlocks(lib, table)(p)) == [] && Escapes(InDomains(lib, table)(p)) == []
    {
      SingleLineEscapesNothing(lib, p, table);
    }
    QuietFrom(InBlocks(lib, table), params, Documented(params, "global"), table);
    QuietFrom(InDomains(lib, table), params, DomainSpecific(Documented(params, "global")), map[]);
    QuietFrom(InBlocks(lib, table), params, Documented(params, "offline_breakglass"), map[]);
  }

  lemma SingleLineEscapesNothing(lib: Library, p: Parameter, table: Table)
    requires Writable(table) && SingleLine(p)
    ensures Escapes(InBlocks(lib, table)(p)) == [] && Escapes(InDomains(lib, table)(p)) == []
  {
    SampleValueIsOneLine(lib, p, table);
    ValueHintIsOneLine(p);
    OneLineEscapesNothing(InBlocks(lib, table)(p));
    OneLineEscapesNothing(InDomains(lib, table)(p));
  }

  lemma QuietFrom(assign: Parameter -> string, params: seq<Parameter>, ps: seq<Parameter>, table: Table)
    requires forall p | p in params :: Escapes(assign(p)) == []
    requires forall p | p in ps :: p in params
    ensures QuietButFor(table, assign, SortByOrder(ps))
  {
    SortByOrderIsStable(ps, 0);
  }

  /**
   The sample of parameters written in single lines sets exactly the settings Debian requires, with
   the required values and in parameter order; outside Debian mode it sets nothing.
   */
  method GenerateFromSingleLines(lib: Library, params: seq<Parameter>, intro: string, debian: bool)
    returns (text: string)
    requires Fills(lib) && forall p | p in params :: SingleLine(p)
    ensures ActiveLines(Split(text)) == Required(SortByOrder(Documented(params, "global")), TableFor(debian))
    ensures !debian ==> ActiveLines(Split(text)) == []
  {
    text := GenerateConfExample(lib, params, intro, debian);
    TableIsWritable(debian);
    SingleLinesEscapeNothing(lib, params, TableFor(debian));
    OnlyRequiredSettingsExactly(lib, params, TableFor(debian));
    if !debian { NothingRequired(SortByOrder(Documented(params, "global"))); }
  }

  // Defaults that run over several lines.

  /** What the further lines of a default set is set, although the parameter is commented out. */
  lemma FurtherLinesAreSet(lib: Library, p: Parameter, table: Table, first: string, rest: string)
    requires p.name !in table && OneLine(p.name) && OneLine(first)
    requires p.default_ == first + "\n" + rest && !IsDescriptiveDefault(lib, p.default_)
    ensures Escapes(InBlocks(lib, table)(p)) == ActiveLines(Split(rest))
  {
    assert BlockAssignment(lib, p, table) == p.name + " = " + first + "\n" + rest;
    OneLineAssignment(p.name, first);
    FirstLineSplit(p.name + " = " + first, rest);
  }

  lemma OneLineAssignment(name: string, value: string)
    requires OneLine(name) && OneLine(value)
    ensures OneLine(name + " = " + value)
  {
  }

  lemma SecondLineIsActive()
    ensures ActiveLines(Split("b = c")) == ["b = c"]
  {
    assert Trim("b = c") == "b = c";
    OneLineSets("b = c");
  }

  function RunOn(): Parameter {
    Parameter("p", "global", true, false, 0, "a" + "\n" + "b = c", "", OtherKind, [], "", "")
  }

  /** A default over two lines: the sample sets more than is required. */
  lemma RunOnDefaultIsSet(lib: Library, p: Parameter)
    requires p == RunOn() && !IsDescriptiveDefault(lib, p.default_)
    ensures !NothingEscapes(lib, [p], map[])
    ensures Settings(lib, [p], map[]) != Required(SortByOrder(Documented([p], "global")), map[])
  {
    assert OneLine("p") && OneLine("a");
    FurtherLinesAreSet(lib, p, map[], "a", "b = c");
    SecondLineIsActive();
    SortedAlone(p);
    OnlyRequiredSettingsExactly(lib, [p], map[]);
  }

  lemma SortedAlone(p: Parameter)
    requires p.section == "global" && p.documented
    ensures SortByOrder(Documented([p], "global")) == [p] && p in [p]
  {
    assert [p][1..] == [];
  }
}

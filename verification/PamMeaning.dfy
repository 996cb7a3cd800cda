/**
 The module lines spelled out: what they are, when a line of a file counts as one of them, where a
 missing one is put, and in which order a run goes through the stacks.
 */
module PamMeaning {
  import opened Text
  import opened Lines
  import opened PamLines
  import opened PamEdits
  import opened PamRuns
  import opened PamConfig

  /** The stack of a role and how much its answer counts. */
  function HeadOf(role: Role): string {
    match role
    case Auth => "auth" + "\t" + "sufficient\t"
    case Unseal => "auth" + "\t" + "optional\t"
    case Account => "account" + "\t" + "sufficient\t"
    case Session => "session" + "\t" + "optional\t"
    case Password => "password" + "\t" + "sufficient\t"
  }

  /** The options of the line of a role. */
  function OptionList(role: Role): seq<string> {
    match role
    case Auth => ["ignore_unknown_user", "set_authtok"]
    case Unseal => ["try_unseal"]
    case Account => ["ignore_unknown_user"]
    case Session => []
    case Password => ["ignore_unknown_user", "set_authtok"]
  }

  function Spaced(words: seq<string>): string {
    if words == [] then "" else " " + words[0] + Spaced(words[1..])
  }

  // -- Words -----------------------------------------------------------------------------------

  predicate NoSpace(s: string) {
    forall i | 0 <= i < |s| :: !IsSpace(s[i])
  }

  /** A word of a text: no white space in it, and white space or nothing on either side. */
  predicate IsWordAt(s: string, i: nat, j: nat) {
    && i < j <= |s| && NoSpace(s[i..j])
    && (i == 0 || IsSpace(s[i - 1])) && (j == |s| || IsSpace(s[j]))
  }

  ghost predicate IsWordOf(s: string, w: string) {
    exists i: nat, j: nat :: IsWordAt(s, i, j) && s[i..j] == w
  }

  lemma {:induction false} TrimStartLeads(s: string)
    ensures s[|s| - |TrimStart(s)|..] == TrimStart(s)
    ensures forall i | 0 <= i < |s| - |TrimStart(s)| :: IsSpace(s[i])
  {
    if s != "" && IsSpace(s[0]) {
      TrimStartLeads(s[1..]);
      assert forall i | 1 <= i < |s| :: s[i] == s[1..][i - 1];
    }
  }

  /** Behind a word a text has the words of its rest. */
  lemma WordsOfRest(s: string, d: nat, i: nat, j: nat)
    requires d <= |s| && (d == |s| || IsSpace(s[d])) && i < j <= |s| - d
    ensures IsWordAt(s[d..], i, j) <==> IsWordAt(s, d + i, d + j)
  {
    var rest := s[d..];
    assert rest[i..j] == s[d + i..d + j];
    assert rest[0] == s[d];
    if i == 0 { assert rest[i..j][0] == rest[0]; }
  }

  lemma SpaceInside(s: string, i: nat, j: nat, k: nat)
    requires i <= k < j <= |s| && IsSpace(s[k])
    ensures !NoSpace(s[i..j])
  {
    assert s[i..j][k - i] == s[k];
  }

  lemma FirstEnds(s: string, a: nat, d: nat, i: nat, j: nat)
    requires a <= i < d <= |s| && (forall k | a <= k < d :: !IsSpace(s[k]))
    requires (d == |s| || IsSpace(s[d])) && IsWordAt(s, i, j)
    ensures j == d
  {
    if d < j { SpaceInside(s, i, j, d); }
  }

  /** The first word of a text is the only one that begins before its end. */
  lemma FirstIsAlone(s: string, a: nat, d: nat, i: nat, j: nat)
    requires a < d <= |s| && (forall k | 0 <= k < a :: IsSpace(s[k])) && (forall k | a <= k < d :: !IsSpace(s[k]))
    requires (d == |s| || IsSpace(s[d])) && i < d && IsWordAt(s, i, j)
    ensures i == a && j == d
  {
    assert s[i..j][0] == s[i];
    FirstEnds(s, a, d, i, j);
  }

  /** Splitting at white space finds exactly the words. */
  lemma {:induction false} WordsExactly(s: string, w: string)
    ensures w in Words(s) <==> IsWordOf(s, w)
    decreases |s|
  {
    var t := TrimStart(s);
    TrimStartLeads(s);
    if t == "" {
      BlankHasNoWords(s, w);
    } else {
      var a, d := |s| - |t|, |s| - |t| + |Word(t)|;
      FirstWordAt(s, t, a);
      WordsExactly(s[d..], w);
      WordsStep(s, a, d, w);
      WordsUnfold(s, t, s[d..], w);
    }
  }

  lemma WordsUnfold(s: string, t: string, rest: string, w: string)
    requires t == TrimStart(s) && t != "" && rest == t[|Word(t)|..]
    ensures w in Words(s) <==> w == Word(t) || w in Words(rest)
  {
  }

  lemma BlankHasNoWords(s: string, w: string)
    requires Blank(s)
    ensures !IsWordOf(s, w)
  {
    forall i: nat, j: nat | i < j <= |s| ensures !NoSpace(s[i..j]) { SpaceInside(s, i, j, i); }
  }

  lemma FirstWordAt(s: string, t: string, a: nat)
    requires a <= |s| && t == s[a..] && t != "" && !IsSpace(t[0]) && forall k | 0 <= k < a :: IsSpace(s[k])
    ensures var d := a + |Word(t)|;
            && a < d <= |s| && s[a..d] == Word(t) && s[d..] == t[|Word(t)|..] && IsWordAt(s, a, d)
            && (forall k | a <= k < d :: !IsSpace(s[k])) && (d == |s| || IsSpace(s[d]))
  {
    var d := a + |Word(t)|;
    assert s[a..d] == t[..|Word(t)|] == Word(t);
    forall k | a <= k < d ensures !IsSpace(s[k]) { assert s[k] == Word(t)[k - a]; }
    if d < |s| { assert s[d] == t[|Word(t)|]; }
  }

  lemma WordsStep(s: string, a: nat, d: nat, w: string)
    requires a < d <= |s| && (forall k | 0 <= k < a :: IsSpace(s[k])) && (forall k | a <= k < d :: !IsSpace(s[k]))
    requires (d == |s| || IsSpace(s[d])) && IsWordAt(s, a, d)
    ensures IsWordOf(s, w) <==> w == s[a..d] || IsWordOf(s[d..], w)
  {
    if i: nat, j: nat :| IsWordAt(s, i, j) && s[i..j] == w {
      if i < d {
        FirstIsAlone(s, a, d, i, j);
      } else {
        WordsOfRest(s, d, i - d, j - d);
        assert s[d..][i - d..j - d] == w;
      }
    }
    if i: nat, j: nat :| IsWordAt(s[d..], i, j) && s[d..][i..j] == w {
      WordsOfRest(s, d, i, j);
      assert s[d + i..d + j] == w;
    }
  }

  // -- Which lines count as present --------------------------------------------------------------

  lemma NoSpaceAppend(a: string, b: string)
    requires NoSpace(a) && NoSpace(b)
    ensures NoSpace(a + b)
  {
  }

  lemma OptionsHaveNoSpace()
    ensures NoSpace("ignore_unknown_user") && NoSpace("set_authtok") && NoSpace("try_unseal")
  {
    IgnoreHasNoSpace();
    assert NoSpace("set_authtok");
    assert NoSpace("try_unseal");
  }

  lemma IgnoreHasNoSpace()
    ensures NoSpace("ignore_unknown_user")
  {
    assert NoSpace("ignore_") && NoSpace("unknown_user");
    NoSpaceAppend("ignore_", "unknown_user");
    assert "ignore_" + "unknown_user" == "ignore_unknown_user";
  }

  /** Words with a space in front of each are split into just those words. */
  lemma {:induction false} WordsOfSpaced(words: seq<string>)
    requires forall i | 0 <= i < |words| :: words[i] != "" && NoSpace(words[i])
    ensures forall w :: w in Words(Spaced(words)) <==> w in words
  {
    if words != [] {
      var a, rest := words[0], Spaced(words[1..]);
      WordsOfSpaced(words[1..]);
      assert rest == "" || rest[0] == ' ';
      WordInFront(a, rest);
      assert words == [a] + words[1..];
    }
  }

  lemma WordInFront(a: string, rest: string)
    requires a != "" && NoSpace(a) && (rest == "" || rest[0] == ' ')
    ensures Words(" " + a + rest) == {a} + Words(rest)
  {
    var s, t := " " + a + rest, a + rest;
    assert s[1..] == t && t[0] == a[0];
    assert TrimStart(s) == t;
    assert Word(t) == a by {
      if rest == "" {
        assert t == a;
        WholeWord(a);
      } else {
        assert t == a + [' '] + rest[1..];
        WordEnds(a, ' ', rest[1..]);
      }
    }
    assert t[|a|..] == rest;
  }

  lemma {:induction false} WholeWord(a: string)
    requires NoSpace(a)
    ensures Word(a) == a
  {
    if a != "" {
      assert !IsSpace(a[0]);
      WholeWord(a[1..]);
    }
  }

  /** The module's name has its letters at their places. */
  lemma NotAt(s: string, j: nat, k: nat)
    requires j + |MODULE| <= |s| && k < |MODULE| && s[j + k] != MODULE[k]
    ensures !At(s, MODULE, j)
  {
    assert s[j..j + |MODULE|][k] == s[j + k];
  }

  lemma NoModuleIn(s: string)
    requires '.' !in s
    ensures forall i: nat :: !At(s, MODULE, i)
  {
    forall i: nat | i + |MODULE| <= |s| ensures !At(s, MODULE, i) {
      assert MODULE[14] == '.' && s[i + 14] in s;
      NotAt(s, i, 14);
    }
  }

  lemma ModuleIsFirst(a: string, b: string)
    requires '_' !in a
    ensures Find(a + MODULE + b, MODULE) == Some(|a|)
  {
    var s := a + MODULE + b;
    assert s[|a|..|a| + |MODULE|] == MODULE;
    assert At(s, MODULE, |a|);
    forall j: nat | j < |a| ensures !At(s, MODULE, j) {
      assert s[j + 3] == if j + 3 < |a| then a[j + 3] else MODULE[j + 3 - |a|];
      assert MODULE[0] != '_' && MODULE[1] != '_' && MODULE[2] != '_' && MODULE[3] == '_';
      NotAt(s, j, 3);
    }
  }

  /** What stands behind the first module name of a line, up to the next one. */
  lemma OptionsBehind(a: string, b: string)
    requires Find(a + MODULE + b, MODULE) == Some(|a|) && forall i: nat :: !At(b, MODULE, i)
    ensures SecondPiece(a + MODULE + b, MODULE) == b
  {
    assert (a + MODULE + b)[|a| + |MODULE|..] == b;
  }

  lemma PlainHead(role: Role)
    ensures '_' !in StackType(role) + "\t" + Control(role) && '.' !in Options(role)
  {
    PlainStack(role);
    PlainControl(role);
    PlainOptions(role);
  }

  lemma PlainStack(role: Role)
    ensures '_' !in StackType(role)
  {
  }

  lemma PlainControl(role: Role)
    ensures '_' !in Control(role)
  {
  }

  lemma PlainOptions(role: Role)
    ensures '.' !in Options(role)
  {
    assert '.' !in " ignore_unknown_user" && '.' !in " set_authtok" && '.' !in " try_unseal";
  }

  lemma OptionsOfModuleLine(role: Role)
    ensures SecondPiece(ModuleLine(role), MODULE) == Options(role)
  {
    PlainHead(role);
    ModuleIsFirst(StackType(role) + "\t" + Control(role), Options(role));
    NoModuleIn(Options(role));
    OptionsBehind(StackType(role) + "\t" + Control(role), Options(role));
  }

  lemma OptionsAreSpaced(role: Role)
    ensures Options(role) == Spaced(OptionList(role))
  {
    var list := OptionList(role);
    if |list| > 0 { assert Spaced(list) == " " + list[0] + Spaced(list[1..]); }
    if |list| > 1 { assert list[1..] == [list[1]] && Spaced([list[1]]) == " " + list[1] + Spaced([]); }
    if |list| == 1 { assert list[1..] == []; }
    assert " ignore_unknown_user" == " " + "ignore_unknown_user" && " set_authtok" == " " + "set_authtok";
    assert " try_unseal" == " " + "try_unseal";
  }

  lemma HeadIs(role: Role)
    ensures StackType(role) + "\t" + Control(role) == HeadOf(role)
  {
  }

  /** The five module lines. */
  lemma ModuleLineIs(role: Role)
    ensures ModuleLine(role) == HeadOf(role) + "pam_himmelblau.so" + Spaced(OptionList(role))
  {
    HeadIs(role);
    OptionsAreSpaced(role);
  }

  lemma OptionsAre(role: Role)
    ensures forall w :: w in Words(Options(role)) <==> w in OptionList(role)
  {
    OptionsHaveNoSpace();
    OptionsAreSpaced(role);
    WordsOfSpaced(OptionList(role));
  }

  /**
   A line that names the module counts as present for a role if and only if it begins with the name
   of the stack and has exactly the options of that role, in any order.
   */
  lemma PresentExactly(before: string, options: string, role: Role)
    requires Find(before + MODULE + options, MODULE) == Some(|before|)
    requires forall i: nat :: !At(options, MODULE, i)
    ensures Loads(before + MODULE + options, ModuleLine(role)) <==>
            && StackType(role) <= TrimStart(before + MODULE + options)
            && forall w :: w in OptionList(role) <==> IsWordOf(options, w)
  {
    var line := before + MODULE + options;
    ContainsMiddle(before, MODULE, options);
    OptionsBehind(before, options);
    OptionsOfModuleLine(role);
    OptionsAre(role);
    FirstWordOfModuleLine(role);
    forall w ensures w in Words(options) <==> IsWordOf(options, w) { WordsExactly(options, w); }
    assert Words(options) == Words(Options(role)) <==> forall w :: w in OptionList(role) <==> IsWordOf(options, w);
  }

  /** A line that does not name the module never counts. */
  lemma NamelessIsAbsent(line: string, role: Role)
    requires !Contains(line, "pam_himmelblau.so")
    ensures !Loads(line, ModuleLine(role))
  {
  }

  // -- Where a missing line is put ------------------------------------------------------------------

  /** The line speaks of the stack and of one of the modules. */
  predicate Anchors(line: string, stack: string, modules: set<string>) {
    Contains(line, stack) && exists m | m in modules :: Contains(line, m)
  }

  /** In front of the first anchor, at the end if there is none. */
  predicate BeforeAnchor(lines: seq<string>, k: nat, stack: string, modules: set<string>) {
    && k <= |lines| && (forall i | 0 <= i < k :: !Anchors(lines[i], stack, modules))
    && (k < |lines| ==> Anchors(lines[k], stack, modules))
  }

  lemma AnchorsAre(line: string)
    ensures Before(Account, line) <==> Anchors(line, "account", {"pam_unix.so", "pam_faillock.so"})
    ensures Before(Password, line) <==>
            Anchors(line, "password", {"pam_unix.so", "pam_cracklib.so", "pam_pwquality.so"})
  {
    var a, p := {"pam_unix.so", "pam_faillock.so"}, {"pam_unix.so", "pam_cracklib.so", "pam_pwquality.so"};
    assert "pam_unix.so" in a && "pam_faillock.so" in a;
    assert "pam_unix.so" in p && "pam_cracklib.so" in p && "pam_pwquality.so" in p;
  }

  /**
   A file that lacks the line of a role gets it: in front of everything for auth, at the end for
   session and unseal, and for account and password in front of the first line that loads one of
   the modules named for that stack. All other lines stay around it.
   */
  lemma PlaceExactly(text: string, role: Role) returns (k: nat)
    requires !HasModule(LinesOf(text), role)
    ensures var lines := LinesOf(text);
            && k <= |lines|
            && Inserted(text, role) == Unlines(lines[..k] + [ModuleLine(role)] + lines[k..])
            && match role
               case Auth => k == 0
               case Unseal => k == |lines|
               case Session => k == |lines|
               case Account => BeforeAnchor(lines, k, "account", {"pam_unix.so", "pam_faillock.so"})
               case Password =>
                 BeforeAnchor(lines, k, "password", {"pam_unix.so", "pam_cracklib.so", "pam_pwquality.so"})
  {
    var lines := LinesOf(text);
    k := InsertIndex(lines, role);
    PlaceOf(lines, role, k);
  }

  lemma PlaceOf(lines: seq<string>, role: Role, k: nat)
    requires k == InsertIndex(lines, role)
    ensures match role
            case Auth => k == 0
            case Unseal => k == |lines|
            case Session => k == |lines|
            case Account => BeforeAnchor(lines, k, "account", {"pam_unix.so", "pam_faillock.so"})
            case Password =>
              BeforeAnchor(lines, k, "password", {"pam_unix.so", "pam_cracklib.so", "pam_pwquality.so"})
  {
    forall i | 0 <= i < |lines|
      ensures Before(Account, lines[i]) <==> Anchors(lines[i], "account", {"pam_unix.so", "pam_faillock.so"})
      ensures Before(Password, lines[i]) <==>
              Anchors(lines[i], "password", {"pam_unix.so", "pam_cracklib.so", "pam_pwquality.so"})
    {
      AnchorsAre(lines[i]);
    }
  }

  // -- In which order ---------------------------------------------------------------------------------

  function Rank(role: Role): nat {
    match role
    case Auth => 0
    case Unseal => 0
    case Account => 1
    case Session => 2
    case Password => 3
  }

  /** A run goes through auth, account, session and password files, one stack after the other. */
  lemma PlanInOrder(stacks: Stacks, tryUnseal: bool)
    ensures var plan := Plan(stacks, tryUnseal);
            forall i, j | 0 <= i < j < |plan| :: Rank(plan[i].role) <= Rank(plan[j].role)
  {
  }
}

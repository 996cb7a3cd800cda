/**
 What inserting a module line makes of one file: the line is there afterwards and stays there, all
 other lines are kept, and the line stands where its stack needs it.
 */
module PamEdits {
  import opened Text
  import opened Lines
  import opened PamLines

  // -- The module lines themselves ---------------------------------------------------------

  /** Free of line breaks and of anything that could spell another PAM module's name. */
  predicate Clean(s: string) {
    && '\n' !in s && '\r' !in s && 'x' !in s && 'q' !in s
    && forall i | 0 <= i < |s| && s[i] == 'k' :: 0 < i && s[i - 1] != 'c'
  }

  lemma CleanAppend(s: string, t: string)
    requires Clean(s) && Clean(t)
    ensures Clean(s + t)
  {
    forall i | 0 <= i < |s + t| && (s + t)[i] == 'k' ensures 0 < i && (s + t)[i - 1] != 'c' {
      if i >= |s| { assert t[i - |s|] == 'k'; }
    }
  }

  lemma CleanStackType(role: Role)
    ensures Clean(StackType(role))
  {
  }

  lemma CleanControl(role: Role)
    ensures Clean(Control(role)) && Clean("\t")
  {
  }

  lemma CleanModule()
    ensures Clean(MODULE)
  {
  }

  lemma CleanIgnore()
    ensures Clean(" ignore_unknown_user")
  {
  }

  lemma CleanOptions(role: Role)
    ensures Clean(Options(role))
  {
    CleanIgnore();
    assert Clean(" set_authtok") && Clean(" try_unseal") && Clean("");
    CleanAppend(" ignore_unknown_user", " set_authtok");
  }

  lemma ModuleLineIsClean(role: Role)
    ensures Clean(ModuleLine(role)) && OneLine(ModuleLine(role)) && StripCr(ModuleLine(role)) == ModuleLine(role)
  {
    CleanStackType(role);
    CleanControl(role);
    CleanModule();
    CleanOptions(role);
    CleanAppend(StackType(role), "\t");
    CleanAppend(StackType(role) + "\t", Control(role));
    CleanAppend(StackType(role) + "\t" + Control(role), MODULE);
    CleanAppend(StackType(role) + "\t" + Control(role) + MODULE, Options(role));
  }

  lemma ModuleLineNamesModule(role: Role)
    ensures Contains(ModuleLine(role), MODULE)
  {
    var before := StackType(role) + "\t" + Control(role);
    assert ModuleLine(role) == before + MODULE + Options(role);
    ContainsMiddle(before, MODULE, Options(role));
  }

  /** A character of a pattern found, with the one before it. */
  lemma CharOfPattern(s: string, pat: string, k: nat) returns (i: nat)
    requires 0 < k < |pat| && Contains(s, pat)
    ensures 0 < i < |s| && s[i] == pat[k] && s[i - 1] == pat[k - 1]
  {
    var j :| 0 <= j <= |s| && At(s, pat, j);
    i := j + k;
    assert s[i] == s[j..j + |pat|][k] && s[i - 1] == s[j..j + |pat|][k - 1];
  }

  lemma CleanNamesNoOther(s: string)
    requires Clean(s)
    ensures !Contains(s, "pam_unix.so") && !Contains(s, "pam_faillock.so")
    ensures !Contains(s, "pam_cracklib.so") && !Contains(s, "pam_pwquality.so")
  {
    if Contains(s, "pam_unix.so") { var i := CharOfPattern(s, "pam_unix.so", 7); }
    if Contains(s, "pam_faillock.so") { var i := CharOfPattern(s, "pam_faillock.so", 11); }
    if Contains(s, "pam_cracklib.so") { var i := CharOfPattern(s, "pam_cracklib.so", 8); }
    if Contains(s, "pam_pwquality.so") { var i := CharOfPattern(s, "pam_pwquality.so", 6); }
  }

  /** Account and password lines need not precede any module line. */
  lemma ModuleLineNotBefore(role: Role, other: Role)
    requires role == Account || role == Password
    ensures !Before(role, ModuleLine(other))
  {
    ModuleLineIsClean(other);
    CleanNamesNoOther(ModuleLine(other));
  }

  lemma {:induction false} WordEnds(w: string, c: char, rest: string)
    requires (forall i | 0 <= i < |w| :: !IsSpace(w[i])) && IsSpace(c)
    ensures Word(w + [c] + rest) == w
  {
    if w != "" {
      assert (w + [c] + rest)[1..] == w[1..] + [c] + rest;
      WordEnds(w[1..], c, rest);
    }
  }

  lemma StackTypeIsAWord(role: Role)
    ensures StackType(role) != "" && forall i | 0 <= i < |StackType(role)| :: !IsSpace(StackType(role)[i])
  {
  }

  lemma FirstWordIs(w: string, rest: string)
    requires w != "" && forall i | 0 <= i < |w| :: !IsSpace(w[i])
    ensures FirstWord(w + "\t" + rest) == w
    ensures TrimStart(w + "\t" + rest) == w + "\t" + rest
  {
    WordEnds(w, '\t', rest);
    assert (w + "\t" + rest)[0] == w[0];
  }

  lemma FirstWordOfModuleLine(role: Role)
    ensures FirstWord(ModuleLine(role)) == StackType(role)
    ensures TrimStart(ModuleLine(role)) == ModuleLine(role)
    ensures StackType(role) <= ModuleLine(role)
  {
    StackTypeIsAWord(role);
    ModuleLineParts(StackType(role), Control(role), MODULE, Options(role));
    FirstWordIs(StackType(role), Control(role) + MODULE + Options(role));
  }

  lemma ModuleLineParts(a: string, b: string, c: string, d: string)
    ensures a + "\t" + b + c + d == a + "\t" + (b + c + d)
  {
  }

  lemma ModuleLineLoadsItself(role: Role)
    ensures Loads(ModuleLine(role), ModuleLine(role))
  {
    ModuleLineNamesModule(role);
    FirstWordOfModuleLine(role);
  }

  /** A module line of one stack never counts as present for another stack. */
  lemma OtherStackDoesNotLoad(role: Role, other: Role)
    requires StackType(role) != StackType(other)
    ensures !Loads(ModuleLine(other), ModuleLine(role))
  {
    FirstWordOfModuleLine(role);
    FirstWordOfModuleLine(other);
    StacksStartApart(role, other);
    OtherStartDoesNotLoad(ModuleLine(other), ModuleLine(role), StackType(other));
  }

  lemma StacksStartApart(role: Role, other: Role)
    requires StackType(role) != StackType(other)
    ensures |StackType(role)| >= 2 && |StackType(other)| >= 2
    ensures StackType(role)[0] != StackType(other)[0] || StackType(role)[1] != StackType(other)[1]
  {
  }

  lemma OtherStartDoesNotLoad(line: string, m: string, start: string)
    requires start <= line && TrimStart(line) == line && |start| >= 2 && |FirstWord(m)| >= 2
    requires start[0] != FirstWord(m)[0] || start[1] != FirstWord(m)[1]
    ensures !Loads(line, m)
  {
    assert line[0] == start[0] && line[1] == start[1];
  }

  // -- Rewriting a file keeps what it holds --------------------------------------------------

  lemma LoadsStrip(line: string, m: string)
    ensures Loads(StripCr(line), m) <==> Loads(line, m)
  {
    if StripCr(line) != line {
      var s := StripCr(line);
      assert line == s + ['\r'];
      assert '\r' !in MODULE && '\r' !in FirstWord(m);
      ContainsPrefix(s, MODULE, '\r');
      StartsWithPrefix(s, FirstWord(m), '\r');
      SecondPieceWordsPrefix(s, MODULE, '\r');
    }
  }

  lemma BeforeStrip(role: Role, line: string)
    ensures Before(role, StripCr(line)) <==> Before(role, line)
  {
    if StripCr(line) != line {
      var s := StripCr(line);
      assert line == s + ['\r'];
      ContainsPrefix(s, "pam_unix.so", '\r');
      ContainsPrefix(s, "pam_faillock.so", '\r');
      ContainsPrefix(s, "pam_cracklib.so", '\r');
      ContainsPrefix(s, "pam_pwquality.so", '\r');
      ContainsPrefix(s, "account", '\r');
      ContainsPrefix(s, "password", '\r');
    }
  }

  lemma {:induction false} HasLineStrip(lines: seq<string>, m: string)
    ensures HasLine(StripAll(lines), m) <==> HasLine(lines, m)
  {
    if lines != [] {
      LoadsStrip(lines[0], m);
      HasLineStrip(lines[1..], m);
    }
  }

  /** The lines of a rewritten file: the old ones and the new one, less trailing carriage returns. */
  lemma LinesOfInserted(text: string, role: Role, m: string)
    requires OneLine(m) && !HasLine(LinesOf(text), m)
    ensures LinesOf(InsertedLine(text, role, m)) ==
            StripAll(InsertAt(LinesOf(text), InsertIndex(LinesOf(text), role), m))
  {
    LinesOfAreLines(text);
    LinesOfUnlines(InsertAt(LinesOf(text), InsertIndex(LinesOf(text), role), m));
  }

  /** The old lines keep their order around the new one. */
  lemma InsertAtIndex(lines: seq<string>, k: nat, m: string)
    requires k <= |lines|
    ensures var new_ := InsertAt(lines, k, m);
            && |new_| == |lines| + 1 && new_[k] == m
            && (forall i | 0 <= i < k :: new_[i] == lines[i])
            && (forall i | k < i < |new_| :: new_[i] == lines[i - 1])
  {
  }

  lemma HasLineInsert(lines: seq<string>, k: nat, m: string, m': string)
    requires k <= |lines|
    ensures HasLine(InsertAt(lines, k, m), m') <==> HasLine(lines, m') || Loads(m, m')
  {
    AnyInsert(lines, k, m, line => Loads(line, m'));
    AnyLoads(lines, m');
    AnyLoads(InsertAt(lines, k, m), m');
  }

  ghost predicate Any(lines: seq<string>, p: string -> bool) {
    exists i | 0 <= i < |lines| :: p(lines[i])
  }

  lemma AnyLoads(lines: seq<string>, m: string)
    ensures HasLine(lines, m) <==> Any(lines, line => Loads(line, m))
  {
    HasLineExactly(lines, m);
  }

  lemma AnyInsert(lines: seq<string>, k: nat, m: string, p: string -> bool)
    requires k <= |lines|
    ensures Any(InsertAt(lines, k, m), p) <==> Any(lines, p) || p(m)
  {
    var new_ := InsertAt(lines, k, m);
    InsertAtIndex(lines, k, m);
    if i :| 0 <= i < |lines| && p(lines[i]) {
      var j := if i < k then i else i + 1;
      assert new_[j] == lines[i];
    } else if p(m) {
      assert p(new_[k]);
    } else {
      forall j | 0 <= j < |new_| ensures !p(new_[j]) {
        assert new_[j] == if j < k then lines[j] else if j == k then m else lines[j - 1];
      }
    }
  }

  /** After an insertion a file loads what it loaded before and what the new line loads. */
  lemma InsertionLoads(text: string, role: Role, m: string, m': string)
    requires OneLine(m)
    ensures HasLine(LinesOf(InsertedLine(text, role, m)), m') <==>
            HasLine(LinesOf(text), m') || (!HasLine(LinesOf(text), m) && Loads(m, m'))
  {
    if !HasLine(LinesOf(text), m) {
      LinesOfInserted(text, role, m);
      var k := InsertIndex(LinesOf(text), role);
      HasLineStrip(InsertAt(LinesOf(text), k, m), m');
      HasLineInsert(LinesOf(text), k, m, m');
    }
  }

  lemma InsertedHasModule(text: string, role: Role)
    ensures HasModule(LinesOf(Inserted(text, role)), role)
  {
    ModuleLineIsClean(role);
    ModuleLineLoadsItself(role);
    InsertionLoads(text, role, ModuleLine(role), ModuleLine(role));
  }

  lemma InsertedStillHas(text: string, role: Role, other: Role)
    requires HasModule(LinesOf(text), role)
    ensures HasModule(LinesOf(Inserted(text, other)), role)
  {
    ModuleLineIsClean(other);
    InsertionLoads(text, other, ModuleLine(other), ModuleLine(role));
  }

  lemma InsertedCount(text: string, role: Role)
    ensures |LinesOf(Inserted(text, role))| == |LinesOf(text)| + (if HasModule(LinesOf(text), role) then 0 else 1)
  {
    if !HasModule(LinesOf(text), role) {
      ModuleLineIsClean(role);
      LinesOfInserted(text, role, ModuleLine(role));
    }
  }

  // -- Only lines are added --------------------------------------------------------------------

  /** A line kept, up to carriage returns at its end. */
  predicate Kept(line: string, line': string) {
    line' <= line && forall i | |line'| <= i < |line| :: line[i] == '\r'
  }

  predicate IsModuleLine(line: string) {
    line in {ModuleLine(Auth), ModuleLine(Unseal), ModuleLine(Account), ModuleLine(Session), ModuleLine(Password)}
  }

  /** `new_` holds all lines of `lines` in order, and besides them only module lines. */
  predicate Embeds(lines: seq<string>, new_: seq<string>) {
    if new_ == [] then lines == []
    else
      || (lines != [] && Kept(lines[0], new_[0]) && Embeds(lines[1..], new_[1..]))
      || (IsModuleLine(new_[0]) && Embeds(lines, new_[1..]))
  }

  lemma {:induction false} EmbedsStrip(lines: seq<string>)
    ensures Embeds(lines, StripAll(lines))
  {
    if lines != [] { EmbedsStrip(lines[1..]); }
  }

  lemma {:induction false} EmbedsItself(lines: seq<string>)
    ensures Embeds(lines, lines)
  {
    if lines != [] { EmbedsItself(lines[1..]); }
  }

  lemma {:induction false} EmbedsInsert(lines: seq<string>, k: nat, m: string)
    requires k <= |lines| && IsModuleLine(m) && StripCr(m) == m
    ensures Embeds(lines, StripAll(InsertAt(lines, k, m)))
  {
    if k == 0 {
      assert StripAll(InsertAt(lines, k, m)) == [m] + StripAll(lines);
      EmbedsStrip(lines);
      EmbedsModuleLine(m, lines, StripAll(lines));
    } else {
      EmbedsInsert(lines[1..], k - 1, m);
      var rest := StripAll(InsertAt(lines[1..], k - 1, m));
      assert InsertAt(lines, k, m)[1..] == InsertAt(lines[1..], k - 1, m);
      assert StripAll(InsertAt(lines, k, m)) == [StripCr(lines[0])] + rest;
      EmbedsKept(lines, StripCr(lines[0]), rest);
    }
  }

  lemma EmbedsModuleLine(m: string, lines: seq<string>, new_: seq<string>)
    requires IsModuleLine(m) && Embeds(lines, new_)
    ensures Embeds(lines, [m] + new_)
  {
    assert ([m] + new_)[1..] == new_;
  }

  lemma EmbedsKept(lines: seq<string>, line: string, rest: seq<string>)
    requires lines != [] && Kept(lines[0], line) && Embeds(lines[1..], rest)
    ensures Embeds(lines, [line] + rest)
  {
    assert ([line] + rest)[1..] == rest;
  }

  lemma {:induction false} EmbedsTransitive(a: seq<string>, b: seq<string>, c: seq<string>)
    requires Embeds(a, b) && Embeds(b, c)
    ensures Embeds(a, c)
    decreases |c|
  {
    if c != [] {
      if b != [] && Kept(b[0], c[0]) && Embeds(b[1..], c[1..]) {
        if a != [] && Kept(a[0], b[0]) && Embeds(a[1..], b[1..]) {
          EmbedsTransitive(a[1..], b[1..], c[1..]);
        } else {
          ModuleLineIsKeptWhole(b[0], c[0]);
          EmbedsTransitive(a, b[1..], c[1..]);
        }
      } else {
        EmbedsTransitive(a, b, c[1..]);
      }
    }
  }

  lemma ModuleLineIsKeptWhole(m: string, line: string)
    requires IsModuleLine(m) && Kept(m, line)
    ensures line == m
  {
    ModuleLineIsClean(Auth);
    ModuleLineIsClean(Unseal);
    ModuleLineIsClean(Account);
    ModuleLineIsClean(Session);
    ModuleLineIsClean(Password);
  }

  lemma ModuleLineIsOne(role: Role)
    ensures IsModuleLine(ModuleLine(role))
  {
  }

  /** An insertion keeps all lines in order and adds nothing but its module line. */
  lemma InsertedEmbeds(text: string, role: Role)
    ensures Embeds(LinesOf(text), LinesOf(Inserted(text, role)))
  {
    EmbedsItself(LinesOf(text));
    if !HasModule(LinesOf(text), role) {
      ModuleLineIsClean(role);
      ModuleLineIsOne(role);
      LinesOfInserted(text, role, ModuleLine(role));
      EmbedsInsert(LinesOf(text), InsertIndex(LinesOf(text), role), ModuleLine(role));
    }
  }

  // -- Where the lines stand -------------------------------------------------------------------

  /** The module line stands before every line it has to precede. */
  predicate InPlace(lines: seq<string>, role: Role) {
    exists i | 0 <= i < |lines| :: StandsAt(lines, role, ModuleLine(role), i)
  }

  predicate StandsAt(lines: seq<string>, role: Role, m: string, i: nat) {
    i < |lines| && lines[i] == m && (forall j | 0 <= j < i :: !Before(role, lines[j]))
  }

  lemma StandsAtStrip(lines: seq<string>, role: Role, m: string, i: nat)
    requires StandsAt(lines, role, m, i) && StripCr(m) == m
    ensures StandsAt(StripAll(lines), role, m, i)
  {
    forall j | 0 <= j < i ensures !Before(role, StripAll(lines)[j]) {
      BeforeStrip(role, lines[j]);
    }
  }

  /** A line in place stays in place when another line, not one it has to precede, is inserted. */
  lemma StandsAtInsert(lines: seq<string>, role: Role, m: string, i: nat, k: nat, other: string)
    requires StandsAt(lines, role, m, i) && k <= |lines|
    requires k > i || !Before(role, other)
    ensures StandsAt(InsertAt(lines, k, other), role, m, if k <= i then i + 1 else i)
  {
    InsertAtIndex(lines, k, other);
  }

  lemma InsertedStands(text: string, role: Role)
    requires !HasModule(LinesOf(text), role)
    ensures InPlace(LinesOf(Inserted(text, role)), role)
  {
    var lines, m := LinesOf(text), ModuleLine(role);
    var k := InsertIndex(lines, role);
    ModuleLineIsClean(role);
    LinesOfInserted(text, role, m);
    InsertAtIndex(lines, k, m);
    StandsAtStrip(InsertAt(lines, k, m), role, m, k);
  }

  lemma InsertedKeepsInPlace(text: string, role: Role, other: Role)
    requires InPlace(LinesOf(text), role) && (role == Account || role == Password)
    ensures InPlace(LinesOf(Inserted(text, other)), role)
  {
    var lines, m := LinesOf(text), ModuleLine(other);
    if !HasModule(lines, other) {
      var k := InsertIndex(lines, other);
      var i :| 0 <= i < |lines| && StandsAt(lines, role, ModuleLine(role), i);
      ModuleLineIsClean(role);
      ModuleLineIsClean(other);
      ModuleLineNotBefore(role, other);
      LinesOfInserted(text, other, m);
      StandsAtInsert(lines, role, ModuleLine(role), i, k, m);
      StandsAtStrip(InsertAt(lines, k, m), role, ModuleLine(role), if k <= i then i + 1 else i);
    }
  }

  /** The auth line is the first line of the file. */
  predicate AuthIsFirst(text: string) {
    LinesOf(text) != [] && LinesOf(text)[0] == ModuleLine(Auth)
  }

  lemma AuthStandsFirst(lines: seq<string>, m: string, i: nat)
    requires StandsAt(lines, Auth, m, i)
    ensures i == 0
  {
    var first := Before(Auth, lines[0]);
  }

  /** The auth line has to precede every line, so it is in place only in front. */
  lemma AuthInPlaceIsFirst(text: string)
    ensures InPlace(LinesOf(text), Auth) <==> AuthIsFirst(text)
  {
    if AuthIsFirst(text) { assert StandsAt(LinesOf(text), Auth, ModuleLine(Auth), 0); }
    if InPlace(LinesOf(text), Auth) {
      var i :| 0 <= i < |LinesOf(text)| && StandsAt(LinesOf(text), Auth, ModuleLine(Auth), i);
      AuthStandsFirst(LinesOf(text), ModuleLine(Auth), i);
    }
  }

  lemma AuthStaysFirst(text: string, other: Role)
    requires AuthIsFirst(text)
    ensures AuthIsFirst(Inserted(text, other))
  {
    var lines := LinesOf(text);
    ModuleLineIsClean(Auth);
    ModuleLineIsClean(other);
    ModuleLineLoadsItself(Auth);
    if !HasModule(lines, other) {
      assert other != Auth;
      if other == Account || other == Password { ModuleLineNotBefore(other, Auth); }
      LinesOfInserted(text, other, ModuleLine(other));
      InsertAtIndex(lines, InsertIndex(lines, other), ModuleLine(other));
    }
  }

  lemma InsertedStillLacks(text: string, role: Role, other: Role)
    requires StackType(role) != StackType(other) && !HasModule(LinesOf(text), role)
    ensures !HasModule(LinesOf(Inserted(text, other)), role)
  {
    ModuleLineIsClean(other);
    OtherStackDoesNotLoad(role, other);
    InsertionLoads(text, other, ModuleLine(other), ModuleLine(role));
  }

  /** The role's line is absent or in place. */
  predicate RightlyPlaced(text: string, role: Role) {
    HasModule(LinesOf(text), role) ==> InPlace(LinesOf(text), role)
  }

  /** The role that adds a second kind of line to the same stack, if there is one. */
  function Rival(role: Role): Option<Role> {
    if role == Auth then Some(Unseal) else None
  }

  lemma StaysRightlyPlaced(text: string, role: Role, other: Role)
    requires role in {Auth, Account, Password} && Some(other) != Rival(role) && RightlyPlaced(text, role)
    ensures RightlyPlaced(Inserted(text, other), role)
  {
    if !HasModule(LinesOf(text), role) {
      if other == role { InsertedStands(text, role); } else { InsertedStillLacks(text, role, other); }
    } else if role == Auth {
      AuthInPlaceIsFirst(text);
      AuthStaysFirst(text, other);
      AuthInPlaceIsFirst(Inserted(text, other));
    } else {
      InsertedKeepsInPlace(text, role, other);
    }
  }
}

/**
 One PAM file: the module lines of pam_himmelblau, whether a text has one of them already, and where
 a missing one goes.
 */
module PamLines {
  import opened Text
  import opened Lines

  const MODULE := "pam_himmelblau.so"

  datatype Role = Auth | Unseal | Account | Session | Password

  function StackType(role: Role): string {
    match role
    case Auth => "auth"
    case Unseal => "auth"
    case Account => "account"
    case Session => "session"
    case Password => "password"
  }

  function Control(role: Role): string {
    match role
    case Unseal => "optional\t"
    case Session => "optional\t"
    case _ => "sufficient\t"
  }

  function Options(role: Role): string {
    match role
    case Auth => " ignore_unknown_user" + " set_authtok"
    case Unseal => " try_unseal"
    case Account => " ignore_unknown_user"
    case Session => ""
    case Password => " ignore_unknown_user" + " set_authtok"
  }

  function ModuleLine(role: Role): string {
    StackType(role) + "\t" + Control(role) + MODULE + Options(role)
  }

  /** The line the module line of a role has to come before. */
  predicate Before(role: Role, line: string) {
    match role
    case Auth => true
    case Unseal => false
    case Session => false
    case Account =>
      || (Contains(line, "pam_unix.so") && Contains(line, "account"))
      || (Contains(line, "pam_faillock.so") && Contains(line, "account"))
    case Password =>
      || (Contains(line, "pam_unix.so") && Contains(line, "password"))
      || (Contains(line, "pam_cracklib.so") && Contains(line, "password"))
      || (Contains(line, "pam_pwquality.so") && Contains(line, "password"))
  }

  /** A line that already loads the module for this stack with the same options. */
  predicate Loads(line: string, moduleLine: string) {
    && Contains(line, MODULE)
    && StartsWith(TrimStart(line), FirstWord(moduleLine))
    && Words(SecondPiece(line, MODULE)) == Words(SecondPiece(moduleLine, MODULE))
  }

  predicate HasLine(lines: seq<string>, moduleLine: string) {
    lines != [] && (Loads(lines[0], moduleLine) || HasLine(lines[1..], moduleLine))
  }

  lemma {:induction false} HasLineExactly(lines: seq<string>, moduleLine: string)
    ensures HasLine(lines, moduleLine) <==> exists i | 0 <= i < |lines| :: Loads(lines[i], moduleLine)
  {
    if lines != [] {
      HasLineExactly(lines[1..], moduleLine);
      assert forall i | 1 <= i < |lines| :: lines[i] == lines[1..][i - 1];
    }
  }

  predicate HasModule(lines: seq<string>, role: Role) {
    HasLine(lines, ModuleLine(role))
  }

  /** Just before the first line it has to precede, otherwise at the end. */
  function InsertIndex(lines: seq<string>, role: Role): (k: nat)
    ensures k <= |lines|
    ensures forall i | 0 <= i < k :: !Before(role, lines[i])
    ensures k < |lines| ==> Before(role, lines[k])
  {
    if lines == [] || Before(role, lines[0]) then 0 else 1 + InsertIndex(lines[1..], role)
  }

  function InsertAt(lines: seq<string>, k: nat, line: string): seq<string>
    requires k <= |lines|
  {
    lines[..k] + [line] + lines[k..]
  }

  /** The text of a file after the insertion of a line for some role. */
  function InsertedLine(text: string, role: Role, moduleLine: string): string {
    var lines := LinesOf(text);
    if HasLine(lines, moduleLine) then text
    else Unlines(InsertAt(lines, InsertIndex(lines, role), moduleLine))
  }

  function Inserted(text: string, role: Role): string {
    InsertedLine(text, role, ModuleLine(role))
  }

  /** The text an insertion makes of a file; none if the line is present already. */
  function Edited(text: string, role: Role): Option<string> {
    if HasModule(LinesOf(text), role) then None else Some(Inserted(text, role))
  }

  // -- The program ---------------------------------------------------------------------

  ghost predicate IsFirst(lines: seq<string>, p: string -> bool, k: int) {
    0 <= k < |lines| && p(lines[k]) && forall i | 0 <= i < k :: !p(lines[i])
  }

  ghost predicate IsLast(lines: seq<string>, p: string -> bool, k: int) {
    0 <= k < |lines| && p(lines[k]) && forall i | k < i < |lines| :: !p(lines[i])
  }

  ghost predicate NoneMatches(lines: seq<string>, p: Option<string -> bool>) {
    p.Some? ==> forall i | 0 <= i < |lines| :: !p.value(lines[i])
  }

  /** Before the first match of `before`; failing that after the last match of `after`; failing that at the end. */
  ghost predicate IsPlace(lines: seq<string>, after: Option<string -> bool>, before: Option<string -> bool>, k: nat) {
    || (before.Some? && IsFirst(lines, before.value, k))
    || (NoneMatches(lines, before) && after.Some? && IsLast(lines, after.value, k - 1))
    || (NoneMatches(lines, before) && NoneMatches(lines, after) && k == |lines|)
  }

  method FindPlace(lines: seq<string>, after: Option<string -> bool>, before: Option<string -> bool>) returns (k: nat)
    ensures k <= |lines| && IsPlace(lines, after, before, k)
  {
    if before.Some? {
      var i := 0;
      while i < |lines|
        invariant 0 <= i <= |lines|
        invariant forall j | 0 <= j < i :: !before.value(lines[j])
      {
        if before.value(lines[i]) { return i; }
        i := i + 1;
      }
    }
    if after.Some? {
      var i := |lines|;
      while i > 0
        invariant 0 <= i <= |lines|
        invariant forall j | i <= j < |lines| :: !after.value(lines[j])
      {
        i := i - 1;
        if after.value(lines[i]) { return i + 1; }
      }
    }
    k := |lines|;
  }

  /** The place each role asks for; session and unseal lines name no neighbour. */
  method PlaceFor(lines: seq<string>, role: Role) returns (k: nat)
    ensures k == InsertIndex(lines, role)
  {
    var before := if role == Unseal || role == Session then None else Some(line => Before(role, line));
    k := FindPlace(lines, None, before);
  }

  method IsPresent(lines: seq<string>, moduleLine: string) returns (present: bool)
    ensures present == HasLine(lines, moduleLine)
  {
    var i := 0;
    while i < |lines|
      invariant 0 <= i <= |lines|
      invariant HasLine(lines, moduleLine) == HasLine(lines[i..], moduleLine)
    {
      if Loads(lines[i], moduleLine) { return true; }
      assert lines[i..][1..] == lines[i + 1..];
      i := i + 1;
    }
    present := false;
  }

  method EditText(text: string, role: Role) returns (r: Option<string>)
    ensures r == Edited(text, role)
  {
    var lines, moduleLine := LinesOf(text), ModuleLine(role);
    var present := IsPresent(lines, moduleLine);
    if present { return None; }
    var k := PlaceFor(lines, role);
    r := Some(Unlines(lines[..k] + [moduleLine] + lines[k..]));
  }
}

/**
 Which files belong to which stack, and which lines each of them gets: `aad-tool configure-pam` from
 the paths it knows to the texts it leaves.
 */
module PamFiles {
  import opened Text
  import opened Lines
  import opened Sorting
  import opened PamLines
  import opened PamEdits
  import opened PamRuns
  import opened PamConfig
  import opened PamTheorems

  const AUTH_FILES := [
    "/etc/pam.d/common-auth", "/etc/pam.d/system-auth", "/etc/pam.d/password-auth", "/etc/pam.d/system-login"]

  const ACCOUNT_FILES := [
    "/etc/pam.d/common-account", "/etc/pam.d/system-auth", "/etc/pam.d/password-auth", "/etc/pam.d/system-login"]

  const SESSION_FILES := [
    "/etc/pam.d/common-session", "/etc/pam.d/system-auth", "/etc/pam.d/password-auth", "/etc/pam.d/system-login"]

  const PASSWORD_FILES := [
    "/etc/pam.d/common-password", "/etc/pam.d/system-auth", "/etc/pam.d/password-auth", "/etc/pam.d/system-login"]

  // -- Which files are found ----------------------------------------------------------------------

  lemma CandidatesAre()
    ensures Candidates("auth") == AUTH_FILES && Candidates("account") == ACCOUNT_FILES
    ensures Candidates("session") == SESSION_FILES && Candidates("password") == PASSWORD_FILES
  {
    assert "/etc/pam.d/common-" + "auth" == "/etc/pam.d/common-auth";
    assert "/etc/pam.d/common-" + "account" == "/etc/pam.d/common-account";
    assert "/etc/pam.d/common-" + "session" == "/etc/pam.d/common-session";
    assert "/etc/pam.d/common-" + "password" == "/etc/pam.d/common-password";
  }

  predicate NoneThere(explicit: Option<string>, known: seq<string>, paths: set<string>) {
    explicit == None && forall path | path in known :: path !in paths
  }

  /** The file named on the command line, or those known for the stack that exist, sorted, each once. */
  ghost predicate FoundFor(found: seq<string>, explicit: Option<string>, known: seq<string>, paths: set<string>) {
    if explicit.Some? then found == [explicit.value]
    else
      && found != [] && Sorted(found) && Distinct(found)
      && forall path :: path in found <==> path in known && path in paths
  }

  lemma DetectFinds(paths: set<string>, explicit: Option<string>, known: seq<string>)
    ensures Detect(paths, explicit, known).None? <==> NoneThere(explicit, known, paths)
    ensures Detect(paths, explicit, known).Some? ==>
              FoundFor(Detect(paths, explicit, known).value, explicit, known, paths)
  {
    DetectedExactly(paths, known);
    if explicit == None && Detect(paths, explicit, known).Some? {
      var found := Detect(paths, explicit, known).value;
      assert found[0] in found;
    }
  }

  /** The files of the four stacks, or the name of the first stack that has none. */
  lemma StacksFoundExactly(paths: set<string>, choice: Choice)
    ensures match DetectAll(paths, choice)
            case Ok(stacks) =>
              && FoundFor(stacks.auth, choice.auth, AUTH_FILES, paths)
              && FoundFor(stacks.account, choice.account, ACCOUNT_FILES, paths)
              && FoundFor(stacks.session, choice.session, SESSION_FILES, paths)
              && FoundFor(stacks.password, choice.password, PASSWORD_FILES, paths)
            case Err(stack) =>
              if NoneThere(choice.auth, AUTH_FILES, paths) then stack == "auth"
              else if NoneThere(choice.account, ACCOUNT_FILES, paths) then stack == "account"
              else if NoneThere(choice.session, SESSION_FILES, paths) then stack == "session"
              else stack == "password" && NoneThere(choice.password, PASSWORD_FILES, paths)
  {
    CandidatesAre();
    DetectFinds(paths, choice.auth, AUTH_FILES);
    DetectFinds(paths, choice.account, ACCOUNT_FILES);
    DetectFinds(paths, choice.session, SESSION_FILES);
    DetectFinds(paths, choice.password, PASSWORD_FILES);
  }

  // -- Which lines they get -----------------------------------------------------------------------

  function FilesOf(stacks: Stacks, role: Role): seq<string> {
    match role
    case Auth => stacks.auth
    case Unseal => stacks.auth
    case Account => stacks.account
    case Session => stacks.session
    case Password => stacks.password
  }

  predicate InRun(role: Role, tryUnseal: bool) {
    tryUnseal <==> role == Unseal
  }

  lemma ForRoleExactly(paths: seq<string>, role: Role, op: Op)
    ensures op in ForRole(paths, role) <==> op.role == role && op.path in paths
  {
    if op in ForRole(paths, role) {
      var i :| 0 <= i < |paths| && ForRole(paths, role)[i] == op;
    }
    if op.role == role && op.path in paths {
      var i :| 0 <= i < |paths| && paths[i] == op.path;
      assert ForRole(paths, role)[i] == op;
    }
  }

  /** The plan has every file of every stack for the role of that stack, and nothing else. */
  lemma PlanExactly(stacks: Stacks, tryUnseal: bool, op: Op)
    ensures op in Plan(stacks, tryUnseal) <==> InRun(op.role, tryUnseal) && op.path in FilesOf(stacks, op.role)
  {
    ForRoleExactly(stacks.auth, Unseal, op);
    ForRoleExactly(stacks.auth, Auth, op);
    ForRoleExactly(stacks.account, Account, op);
    ForRoleExactly(stacks.session, Session, op);
    ForRoleExactly(stacks.password, Password, op);
  }

  lemma {:induction false} NamesExactly(ops: seq<Op>, path: string)
    ensures Names(ops, path) <==> exists op | op in ops :: op.path == path
  {
    if ops != [] {
      NamesExactly(ops[1..], path);
      assert ops == [ops[0]] + ops[1..];
    }
  }

  lemma PlanNames(stacks: Stacks, tryUnseal: bool, path: string, role: Role)
    requires InRun(role, tryUnseal) && path in FilesOf(stacks, role)
    ensures Names(Plan(stacks, tryUnseal), path)
  {
    PlanExactly(stacks, tryUnseal, Op(path, role));
    NamesExactly(Plan(stacks, tryUnseal), path);
  }

  /** The file is one of this stack and of no other that the run works on. */
  predicate OnlyIn(stacks: Stacks, tryUnseal: bool, path: string, role: Role) {
    forall other | InRun(other, tryUnseal) && path in FilesOf(stacks, other) :: other == role
  }

  lemma PlanIsForOneRole(stacks: Stacks, tryUnseal: bool, path: string, role: Role)
    requires OnlyIn(stacks, tryUnseal, path, role)
    ensures var plan := Plan(stacks, tryUnseal);
            forall i | 0 <= i < |plan| && plan[i].path == path :: plan[i].role == role
  {
    var plan := Plan(stacks, tryUnseal);
    forall i | 0 <= i < |plan| && plan[i].path == path ensures plan[i].role == role {
      PlanExactly(stacks, tryUnseal, plan[i]);
    }
  }

  /** After a run that went through, a file of one stack only has just gained the line of that stack. */
  lemma FileOfOneStack(files: Files, stacks: Stacks, tryUnseal: bool, path: string, role: Role)
    requires path in files && InRun(role, tryUnseal) && path in FilesOf(stacks, role)
    requires OnlyIn(stacks, tryUnseal, path, role)
    requires Perform(Editing(), files, Plan(stacks, tryUnseal)).result.Ok?
    ensures var done := Perform(Editing(), files, Plan(stacks, tryUnseal)).files;
            path in done && done[path].text == Inserted(files[path].text, role)
  {
    EditingSettles();
    PlanIsForOneRole(stacks, tryUnseal, path, role);
    PlanNames(stacks, tryUnseal, path, role);
    EditedForOneRole(Editing(), files, Plan(stacks, tryUnseal), path, role);
    EditingIs(files[path].text, role);
  }

  /** A file of no stack is left alone, in every run. */
  lemma FileOfNoStack(files: Files, stacks: Stacks, tryUnseal: bool, path: string)
    requires path in files
    requires forall role | InRun(role, tryUnseal) :: path !in FilesOf(stacks, role)
    ensures var done := Perform(Editing(), files, Plan(stacks, tryUnseal)).files;
            path in done && done[path] == files[path]
  {
    var plan := Plan(stacks, tryUnseal);
    EditingSettles();
    PlanIsForOneRole(stacks, tryUnseal, path, Auth);
    forall op | op in plan ensures op.path != path { PlanExactly(stacks, tryUnseal, op); }
    NamesExactly(plan, path);
    EditedForOneRole(Editing(), files, plan, path, Auth);
  }

  /** After a run that went through, every file of a stack has the line of that stack. */
  lemma FilesOfAStackHaveItsLine(files: Files, stacks: Stacks, tryUnseal: bool, path: string, role: Role)
    requires InRun(role, tryUnseal) && path in FilesOf(stacks, role)
    requires Perform(Editing(), files, Plan(stacks, tryUnseal)).result.Ok?
    ensures var done := Perform(Editing(), files, Plan(stacks, tryUnseal)).files;
            path in done && HasModule(LinesOf(done[path].text), role)
  {
    var plan := Plan(stacks, tryUnseal);
    PlanExactly(stacks, tryUnseal, Op(path, role));
    var i :| 0 <= i < |plan| && plan[i] == Op(path, role);
    SuccessLeavesLines(files, plan, i);
  }

  // -- The whole command ---------------------------------------------------------------------------

  const NO_CHOICE := Choice(None, None, None, None)

  /** The four files of Debian's are of one stack each. */
  lemma CommonFilesAreApart()
    ensures "/etc/pam.d/common-auth" !in ACCOUNT_FILES + SESSION_FILES + PASSWORD_FILES
    ensures "/etc/pam.d/common-account" !in AUTH_FILES + SESSION_FILES + PASSWORD_FILES
    ensures "/etc/pam.d/common-session" !in AUTH_FILES + ACCOUNT_FILES + PASSWORD_FILES
    ensures "/etc/pam.d/common-password" !in AUTH_FILES + ACCOUNT_FILES + SESSION_FILES
  {
    assert |"/etc/pam.d/common-auth"| == 22 && |"/etc/pam.d/common-account"| == 25;
    assert |"/etc/pam.d/common-session"| == 25 && |"/etc/pam.d/common-password"| == 26;
    assert "/etc/pam.d/common-account"[18] == 'a' && "/etc/pam.d/common-session"[18] == 's';
    assert |"/etc/pam.d/system-auth"| == 22 && "/etc/pam.d/system-auth"[11] == 's';
    assert "/etc/pam.d/common-auth"[11] == 'c';
    assert |"/etc/pam.d/password-auth"| == 24 && |"/etc/pam.d/system-login"| == 23;
  }

  const KNOWN := Stacks(AUTH_FILES, ACCOUNT_FILES, SESSION_FILES, PASSWORD_FILES)

  /** Of the known files of each stack those that exist. */
  ghost predicate Detected(known: Stacks, paths: set<string>, stacks: Stacks) {
    forall role, path :: path in FilesOf(stacks, role) <==> path in FilesOf(known, role) && path in paths
  }

  lemma FoundIsDetected(known: Stacks, paths: set<string>, stacks: Stacks)
    requires FoundFor(stacks.auth, None, known.auth, paths) && FoundFor(stacks.account, None, known.account, paths)
    requires FoundFor(stacks.session, None, known.session, paths)
    requires FoundFor(stacks.password, None, known.password, paths)
    ensures Detected(known, paths, stacks)
  {
  }

  lemma DefaultStacks(paths: set<string>)
    requires DetectAll(paths, NO_CHOICE).Ok?
    ensures Detected(KNOWN, paths, DetectAll(paths, NO_CHOICE).value)
  {
    StacksFoundExactly(paths, NO_CHOICE);
    FoundIsDetected(KNOWN, paths, DetectAll(paths, NO_CHOICE).value);
  }

  lemma ConfigureIs(files: Files, choice: Choice, tryUnseal: bool, done: Outcome)
    requires DetectAll(files.Keys, choice).Ok?
    requires done == Perform(Editing(), files, Plan(DetectAll(files.Keys, choice).value, tryUnseal))
    ensures Configure(files, choice, tryUnseal) == Configured(done.files, Told(done.result))
  {
  }

  /** A run with no file named: the known files that exist are the ones it works on. */
  lemma DefaultRun(files: Files, tryUnseal: bool) returns (stacks: Stacks)
    requires Configure(files, NO_CHOICE, tryUnseal).result.Ok?
    ensures Detected(KNOWN, files.Keys, stacks) && Perform(Editing(), files, Plan(stacks, tryUnseal)).result.Ok?
    ensures Configure(files, NO_CHOICE, tryUnseal).files == Perform(Editing(), files, Plan(stacks, tryUnseal)).files
  {
    DefaultStacks(files.Keys);
    stacks := DetectAll(files.Keys, NO_CHOICE).value;
    ConfigureIs(files, NO_CHOICE, tryUnseal, Perform(Editing(), files, Plan(stacks, tryUnseal)));
  }

  /** With no file named and no error, every file known for a stack that exists has the line of that stack. */
  lemma KnownFilesHaveTheirLine(files: Files, tryUnseal: bool, path: string, role: Role)
    requires Configure(files, NO_CHOICE, tryUnseal).result.Ok? && InRun(role, tryUnseal)
    requires path in files && path in FilesOf(KNOWN, role)
    ensures var done := Configure(files, NO_CHOICE, tryUnseal).files;
            path in done && HasModule(LinesOf(done[path].text), role)
  {
    var stacks := DefaultRun(files, tryUnseal);
    FilesOfAStackHaveItsLine(files, stacks, tryUnseal, path, role);
  }

  /** One that is known for this stack only has gained just that line, unless it had it already. */
  lemma FilesOfOneStackGainOneLine(files: Files, tryUnseal: bool, path: string, role: Role)
    requires Configure(files, NO_CHOICE, tryUnseal).result.Ok? && InRun(role, tryUnseal)
    requires path in files && path in FilesOf(KNOWN, role) && OnlyIn(KNOWN, tryUnseal, path, role)
    ensures var done := Configure(files, NO_CHOICE, tryUnseal).files;
            path in done && done[path].text == Inserted(files[path].text, role)
  {
    var stacks := DefaultRun(files, tryUnseal);
    FileOfOneStack(files, stacks, tryUnseal, path, role);
  }

  /** Every file that is not known is as it was. */
  lemma OtherFilesAreLeftAlone(files: Files, tryUnseal: bool, path: string)
    requires Configure(files, NO_CHOICE, tryUnseal).result.Ok? && path in files
    requires forall role | InRun(role, tryUnseal) :: path !in FilesOf(KNOWN, role)
    ensures var done := Configure(files, NO_CHOICE, tryUnseal).files; path in done && done[path] == files[path]
  {
    var stacks := DefaultRun(files, tryUnseal);
    FileOfNoStack(files, stacks, tryUnseal, path);
  }

  /** The file that Debian has for the stack of a role. */
  function CommonFile(role: Role): string {
    match role
    case Auth => "/etc/pam.d/common-auth"
    case Unseal => "/etc/pam.d/common-auth"
    case Account => "/etc/pam.d/common-account"
    case Session => "/etc/pam.d/common-session"
    case Password => "/etc/pam.d/common-password"
  }

  lemma CommonFileIsOnlyIn(role: Role)
    requires role != Unseal
    ensures CommonFile(role) in FilesOf(KNOWN, role) && OnlyIn(KNOWN, false, CommonFile(role), role)
  {
    CommonFilesAreApart();
  }

  /** On Debian each of the four files gains the line of its own stack and nothing else. */
  lemma CommonFilesGainTheirLine(files: Files, role: Role)
    requires Configure(files, NO_CHOICE, false).result.Ok? && role != Unseal && CommonFile(role) in files
    ensures var done := Configure(files, NO_CHOICE, false).files;
            && CommonFile(role) in done
            && done[CommonFile(role)].text == Inserted(files[CommonFile(role)].text, role)
  {
    CommonFileIsOnlyIn(role);
    FilesOfOneStackGainOneLine(files, false, CommonFile(role), role);
  }

  /** Asked to unseal, with no error, it adds the unseal line to the files of the auth stack and does nothing else. */
  lemma UnsealReachesTheAuthStack(files: Files, path: string)
    requires Configure(files, NO_CHOICE, true).result.Ok? && path in files
    ensures var done := Configure(files, NO_CHOICE, true).files;
            && path in done
            && done[path].text == if path in AUTH_FILES then Inserted(files[path].text, Unseal) else files[path].text
  {
    if path in AUTH_FILES {
      FilesOfOneStackGainOneLine(files, true, path, Unseal);
    } else {
      OtherFilesAreLeftAlone(files, true, path);
    }
  }
}

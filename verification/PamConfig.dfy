/**
 Adding pam_himmelblau to the PAM stacks: one module line per role, inserted into the files that
 hold the stack of that role. One file may serve several roles.
 */
module PamConfig {
  import opened Text
  import opened Sorting
  import opened PamLines
  import opened PamRuns

  /** The edit that inserts module lines. */
  function Editing(): Edit {
    (text, role) => Edited(text, role)
  }

  function ForRole(paths: seq<string>, role: Role): (ops: seq<Op>)
    ensures |ops| == |paths|
    ensures forall i | 0 <= i < |paths| :: ops[i] == Op(paths[i], role)
  {
    if paths == [] then [] else [Op(paths[0], role)] + ForRole(paths[1..], role)
  }

  /** All insertions of one configuration run, in order. */
  function PlanFor(
    auth: seq<string>, account: seq<string>, session: seq<string>, password: seq<string>, tryUnseal: bool): seq<Op>
  {
    if tryUnseal then ForRole(auth, Unseal)
    else ForRole(auth, Auth) + (ForRole(account, Account) + (ForRole(session, Session) + ForRole(password, Password)))
  }

  // -- Choosing the files ------------------------------------------------------------------

  /** The files named on the command line. */
  datatype Choice = Choice(
    auth: Option<string>, account: Option<string>, session: Option<string>, password: Option<string>)

  datatype Stacks = Stacks(auth: seq<string>, account: seq<string>, session: seq<string>, password: seq<string>)

  const SHARED: seq<string> := ["/etc/pam.d/system-auth", "/etc/pam.d/password-auth", "/etc/pam.d/system-login"]

  function Existing(paths: set<string>, candidates: seq<string>): seq<string> {
    if candidates == [] then []
    else (if candidates[0] in paths then [candidates[0]] else []) + Existing(paths, candidates[1..])
  }

  /** The file named, or all candidates that exist, each once and in order; none is an error. */
  function Detect(paths: set<string>, explicit: Option<string>, candidates: seq<string>): Option<seq<string>> {
    if explicit.Some? then Some([explicit.value])
    else
      var found := SortUnique(Existing(paths, candidates));
      if found == [] then None else Some(found)
  }

  function Candidates(stack: string): seq<string> {
    ["/etc/pam.d/common-" + stack] + SHARED
  }

  /** The files of all four stacks, or the first stack that has none. */
  function DetectAll(paths: set<string>, choice: Choice): Result<Stacks, string> {
    var auth := Detect(paths, choice.auth, Candidates("auth"));
    var account := Detect(paths, choice.account, Candidates("account"));
    var session := Detect(paths, choice.session, Candidates("session"));
    var password := Detect(paths, choice.password, Candidates("password"));
    if auth.None? then Err("auth")
    else if account.None? then Err("account")
    else if session.None? then Err("session")
    else if password.None? then Err("password")
    else Ok(Stacks(auth.value, account.value, session.value, password.value))
  }

  datatype ConfigureError = NoPamFile(stack: string) | FileError(path: string)

  function Plan(stacks: Stacks, tryUnseal: bool): seq<Op> {
    PlanFor(stacks.auth, stacks.account, stacks.session, stacks.password, tryUnseal)
  }

  function Told(result: Result<(), string>): Result<(), ConfigureError> {
    match result
    case Ok(_) => Ok(())
    case Err(path) => Err(FileError(path))
  }

  datatype Configured = Configured(files: Files, result: Result<(), ConfigureError>)

  /** A whole configuration run. */
  function Configure(files: Files, choice: Choice, tryUnseal: bool): Configured {
    match DetectAll(files.Keys, choice)
    case Err(stack) => Configured(files, Err(NoPamFile(stack)))
    case Ok(stacks) =>
      var done := Perform(Editing(), files, Plan(stacks, tryUnseal));
      Configured(done.files, Told(done.result))
  }

  datatype Rehearsal = Rehearsal(result: Result<(), ConfigureError>, printed: seq<Option<string>>)

  /** A whole dry run: it reads, so it finds missing files, but it does not write. */
  function Rehearse(sofar: seq<Option<string>>, files: Files, choice: Choice, tryUnseal: bool): Rehearsal {
    match DetectAll(files.Keys, choice)
    case Err(stack) => Rehearsal(Err(NoPamFile(stack)), sofar)
    case Ok(stacks) =>
      var plan := Plan(stacks, tryUnseal);
      Rehearsal(Told(FirstMissing(files.Keys, plan)), Printed(Editing(), sofar, files, plan))
  }

  /** The files, and what dry runs printed: a text for each insertion, none where the line was present. */
  class PamStacks {
    var files: Files
    var printed: seq<Option<string>>

    constructor (files: Files)
      ensures this.files == files && printed == []
    {
      this.files := files;
      printed := [];
    }

    method InsertModuleLine(path: string, role: Role, dryRun: bool) returns (r: Result<(), string>)
      modifies this
      ensures Progress(files, printed, r) == Insertion(Editing(), dryRun, old(files), old(printed), Op(path, role))
    {
      if path !in files { return Err(path); }
      var text := EditText(files[path].text, role);
      if dryRun {
        printed := printed + [text];
        return Ok(());
      }
      if text.None? { return Ok(()); }
      if !files[path].writable { return Err(path); }
      files := files[path := files[path].(text := text.value)];
      r := Ok(());
    }

    method InsertInAll(paths: seq<string>, role: Role, dryRun: bool) returns (r: Result<(), string>)
      modifies this
      ensures Progress(files, printed, r) ==
              Insertions(Editing(), dryRun, old(files), old(printed), ForRole(paths, role))
    {
      ghost var ops := ForRole(paths, role);
      ghost var all := Insertions(Editing(), dryRun, files, printed, ops);
      var i := 0;
      while i < |paths|
        invariant 0 <= i <= |paths|
        invariant all == Insertions(Editing(), dryRun, files, printed, ops[i..])
      {
        assert ops[i..][0] == Op(paths[i], role) && ops[i..][1..] == ops[i + 1..];
        r := InsertModuleLine(paths[i], role, dryRun);
        if r.Err? { return; }
        i := i + 1;
      }
      r := Ok(());
    }

    method InsertPlanned(stacks: Stacks, tryUnseal: bool, dryRun: bool) returns (r: Result<(), string>)
      modifies this
      ensures Progress(files, printed, r) ==
              Insertions(Editing(), dryRun, old(files), old(printed), Plan(stacks, tryUnseal))
    {
      if tryUnseal {
        r := InsertInAll(stacks.auth, Unseal, dryRun);
        return;
      }
      ghost var auth, account := ForRole(stacks.auth, Auth), ForRole(stacks.account, Account);
      ghost var session, password := ForRole(stacks.session, Session), ForRole(stacks.password, Password);
      InsertionsThen(Editing(), dryRun, files, printed, auth, account + (session + password));
      r := InsertInAll(stacks.auth, Auth, dryRun);
      if r.Err? { return; }
      InsertionsThen(Editing(), dryRun, files, printed, account, session + password);
      r := InsertInAll(stacks.account, Account, dryRun);
      if r.Err? { return; }
      InsertionsThen(Editing(), dryRun, files, printed, session, password);
      r := InsertInAll(stacks.session, Session, dryRun);
      if r.Err? { return; }
      r := InsertInAll(stacks.password, Password, dryRun);
    }

    method ConfigurePam(choice: Choice, tryUnseal: bool, dryRun: bool) returns (r: Result<(), ConfigureError>)
      modifies this
      ensures dryRun ==> Rehearsal(r, printed) == Rehearse(old(printed), files, choice, tryUnseal)
      ensures dryRun ==> files == old(files)
      ensures !dryRun ==> Configured(files, r) == Configure(old(files), choice, tryUnseal)
      ensures !dryRun ==> printed == old(printed)
    {
      var auth := Detect(files.Keys, choice.auth, Candidates("auth"));
      if auth.None? { return Err(NoPamFile("auth")); }
      var account := Detect(files.Keys, choice.account, Candidates("account"));
      if account.None? { return Err(NoPamFile("account")); }
      var session := Detect(files.Keys, choice.session, Candidates("session"));
      if session.None? { return Err(NoPamFile("session")); }
      var password := Detect(files.Keys, choice.password, Candidates("password"));
      if password.None? { return Err(NoPamFile("password")); }
      var stacks := Stacks(auth.value, account.value, session.value, password.value);
      RealInsertions(Editing(), files, printed, Plan(stacks, tryUnseal));
      DryInsertions(Editing(), files, printed, Plan(stacks, tryUnseal));
      var result := InsertPlanned(stacks, tryUnseal, dryRun);
      r := Told(result);
    }
  }
}

/**
 What configuring the PAM stacks guarantees: repeating it changes nothing, it only adds lines, the
 added lines stand where the stacks need them, and what a dry run tells of it.
 */
module PamTheorems {
  import opened Text
  import opened Lines
  import opened PamLines
  import opened PamEdits
  import opened PamRuns
  import opened PamConfig
  import opened Sorting

  lemma EditingIs(text: string, role: Role)
    ensures Editing()(text, role) == Edited(text, role)
    ensures After(Editing(), text, role) == Inserted(text, role)
  {
  }

  // -- Idempotence --------------------------------------------------------------------------

  lemma EditingSettles()
    ensures Settles(Editing())
  {
    forall role ensures Stable(Editing(), Done(Editing(), role), None) {
      forall text, other | Done(Editing(), role)(text) ensures Done(Editing(), role)(After(Editing(), text, other)) {
        EditingIs(text, other);
        InsertedStillHas(text, role, other);
      }
    }
    forall role, text ensures Done(Editing(), role)(After(Editing(), text, role)) {
      EditingIs(text, role);
      InsertedHasModule(text, role);
    }
  }

  /** Configuring a second time changes no byte of any file and has the same result, an error included. */
  lemma ConfigureIsIdempotent(files: Files, choice: Choice, tryUnseal: bool)
    ensures var done := Configure(files, choice, tryUnseal);
            Configure(done.files, choice, tryUnseal) == done
  {
    if DetectAll(files.Keys, choice).Ok? {
      var plan := Plan(DetectAll(files.Keys, choice).value, tryUnseal);
      EditingSettles();
      PerformKeepsPaths(Editing(), files, plan);
      PerformIsIdempotent(Editing(), files, plan);
    }
  }

  /** A run that goes through leaves every line of its plan present. */
  lemma SuccessLeavesLines(files: Files, ops: seq<Op>, i: nat)
    requires i < |ops| && Perform(Editing(), files, ops).result.Ok?
    ensures var done := Perform(Editing(), files, ops).files;
            ops[i].path in done && HasModule(LinesOf(done[ops[i].path].text), ops[i].role)
  {
    EditingSettles();
    SuccessLeavesAllDone(Editing(), files, ops, i);
  }

  // -- What is found --------------------------------------------------------------------------------

  lemma {:induction false} ExistingExactly(paths: set<string>, candidates: seq<string>, path: string)
    ensures path in Existing(paths, candidates) <==> path in candidates && path in paths
  {
    if candidates != [] { ExistingExactly(paths, candidates[1..], path); }
  }

  /** The files detected for a stack are its candidates that exist, sorted, each once. */
  lemma DetectedExactly(paths: set<string>, candidates: seq<string>)
    ensures match Detect(paths, None, candidates)
            case None => forall path | path in candidates :: path !in paths
            case Some(found) =>
              && found != [] && Sorted(found) && Distinct(found)
              && forall path :: path in found <==> path in candidates && path in paths
  {
    var existing := Existing(paths, candidates);
    SortUniqueSorts(existing);
    forall path ensures path in existing <==> path in candidates && path in paths {
      ExistingExactly(paths, candidates, path);
    }
    if SortUnique(existing) == [] {
      forall path | path in candidates ensures path !in paths { assert path !in SortUnique(existing); }
    }
  }

  lemma {:induction false} NothingMissing(paths: set<string>, files: seq<string>, role: Role)
    requires forall path | path in files :: path in paths
    ensures FirstMissing(paths, ForRole(files, role)) == Ok(())
  {
    if files != [] {
      assert ForRole(files, role)[1..] == ForRole(files[1..], role);
      NothingMissing(paths, files[1..], role);
    }
  }

  /** With no file named on the command line no file of the plan is ever missing. */
  lemma DetectedAreThere(paths: set<string>, tryUnseal: bool)
    ensures var stacks := DetectAll(paths, Choice(None, None, None, None));
            stacks.Ok? ==> FirstMissing(paths, Plan(stacks.value, tryUnseal)) == Ok(())
  {
    var detected := DetectAll(paths, Choice(None, None, None, None));
    if detected.Ok? {
      DetectedExactly(paths, Candidates("auth"));
      DetectedExactly(paths, Candidates("account"));
      DetectedExactly(paths, Candidates("session"));
      DetectedExactly(paths, Candidates("password"));
      AllThere(paths, detected.value, tryUnseal);
    }
  }

  lemma AllThere(paths: set<string>, stacks: Stacks, tryUnseal: bool)
    requires forall path | path in stacks.auth + stacks.account + stacks.session + stacks.password :: path in paths
    ensures FirstMissing(paths, Plan(stacks, tryUnseal)) == Ok(())
  {
    var auth, account := ForRole(stacks.auth, Auth), ForRole(stacks.account, Account);
    var session, password := ForRole(stacks.session, Session), ForRole(stacks.password, Password);
    NothingMissing(paths, stacks.auth, Unseal);
    NothingMissing(paths, stacks.auth, Auth);
    NothingMissing(paths, stacks.account, Account);
    NothingMissing(paths, stacks.session, Session);
    NothingMissing(paths, stacks.password, Password);
    MissingThen(paths, auth, account + (session + password));
    MissingThen(paths, account, session + password);
    MissingThen(paths, session, password);
  }

  // -- Only lines are added --------------------------------------------------------------------

  /**
   Configuring only adds lines: every file keeps all its lines in order (trailing carriage returns
   aside), nothing but module lines is added, and no file appears or disappears.
   */
  lemma ConfigureOnlyAddsLines(files: Files, ops: seq<Op>, path: string)
    ensures path in Perform(Editing(), files, ops).files <==> path in files
    ensures path in files ==>
              Embeds(LinesOf(files[path].text), LinesOf(Perform(Editing(), files, ops).files[path].text))
  {
    PerformKeepsPaths(Editing(), files, ops);
    if path in files {
      var lines := LinesOf(files[path].text);
      EmbedsItself(lines);
      EmbeddingIsStable(lines);
      PerformKeeps(Editing(), files, ops, path, Embedding(lines), None);
    }
  }

  function Embedding(lines: seq<string>): string -> bool {
    text => Embeds(lines, LinesOf(text))
  }

  lemma EmbeddingIsStable(lines: seq<string>)
    ensures Stable(Editing(), Embedding(lines), None)
  {
    forall text, role | Embedding(lines)(text) ensures Embedding(lines)(After(Editing(), text, role)) {
      EditingIs(text, role);
      InsertedEmbeds(text, role);
      EmbedsTransitive(lines, LinesOf(text), LinesOf(Inserted(text, role)));
    }
  }

  // -- Where the lines stand -------------------------------------------------------------------

  function Placing(role: Role): string -> bool {
    text => RightlyPlaced(text, role)
  }

  lemma PlacingIsStable(role: Role)
    requires role in {Auth, Account, Password}
    ensures Stable(Editing(), Placing(role), Rival(role))
  {
    forall text, other | Some(other) != Rival(role) && Placing(role)(text)
      ensures Placing(role)(After(Editing(), text, other))
    {
      EditingIs(text, other);
      StaysRightlyPlaced(text, role, other);
    }
  }

  /**
   A line that was absent or in place before is absent or in place afterwards: for any plan over
   any files, whatever roles share a file, and also when the run stopped with an error.
   */
  lemma AddedLinesAreInPlace(files: Files, ops: seq<Op>, path: string, role: Role)
    requires role in {Auth, Account, Password} && Avoids(ops, Rival(role))
    requires path in files && RightlyPlaced(files[path].text, role)
    ensures path in Perform(Editing(), files, ops).files
    ensures RightlyPlaced(Perform(Editing(), files, ops).files[path].text, role)
  {
    PlacingIsStable(role);
    PerformKeeps(Editing(), files, ops, path, Placing(role), Rival(role));
  }

  /** Unless asked to unseal, a run has no rival of the auth line. */
  lemma PlanAvoidsUnseal(stacks: Stacks)
    ensures Avoids(Plan(stacks, false), Some(Unseal))
  {
  }

  /** An added auth line is the first line of its file at the end of every configuration run. */
  lemma AuthLineEndsFirst(files: Files, stacks: Stacks, path: string)
    requires path in files && !HasModule(LinesOf(files[path].text), Auth)
    ensures var done := Perform(Editing(), files, Plan(stacks, false)).files;
            path in done && (HasModule(LinesOf(done[path].text), Auth) ==> AuthIsFirst(done[path].text))
  {
    PlanAvoidsUnseal(stacks);
    AddedLinesAreInPlace(files, Plan(stacks, false), path, Auth);
    AuthInPlaceIsFirst(Perform(Editing(), files, Plan(stacks, false)).files[path].text);
  }

  // -- What a dry run tells ----------------------------------------------------------------------------

  /** A dry run answers as the real run would, if and only if the plan does not come to an unwritable file first. */
  lemma DryRunAnswersExactly(files: Files, choice: Choice, tryUnseal: bool)
    ensures Rehearse([], files, choice, tryUnseal).result == Configure(files, choice, tryUnseal).result <==>
            DetectAll(files.Keys, choice).Err? ||
            !MeetsUnwritable(Editing(), files, Plan(DetectAll(files.Keys, choice).value, tryUnseal))
  {
    if DetectAll(files.Keys, choice).Ok? {
      var plan := Plan(DetectAll(files.Keys, choice).value, tryUnseal);
      PerformFailsExactly(Editing(), files, plan);
      FailingIsMissingExactly(Editing(), files, plan);
    }
  }

  /** The choice of one file for all stacks. */
  function OneFile(path: string): Choice {
    Choice(Some(path), Some(path), Some(path), Some(path))
  }

  function OneFilePlan(path: string): seq<Op> {
    Plan(Stacks([path], [path], [path], [path]), false)
  }

  lemma OneFileIsPlanned(files: Files, path: string)
    requires path in files
    ensures DetectAll(files.Keys, OneFile(path)) == Ok(Stacks([path], [path], [path], [path]))
    ensures OneFilePlan(path) == [Op(path, Auth), Op(path, Account), Op(path, Session), Op(path, Password)]
    ensures FirstMissing(files.Keys, OneFilePlan(path)) == Ok(())
  {
    AllThere(files.Keys, Stacks([path], [path], [path], [path]), false);
  }

  lemma EmptyLacks(role: Role)
    ensures Editing()("", role).Some?
  {
    assert LinesOf("") == [];
  }

  /** With a single unwritable file for all stacks the dry run is fine and the real run fails. */
  lemma UnwritableIsNotForeseen(path: string)
    ensures var files: Files := map[path := File("", false)];
            && Rehearse([], files, OneFile(path), false).result == Ok(())
            && Configure(files, OneFile(path), false).result == Err(FileError(path))
  {
    var files: Files := map[path := File("", false)];
    OneFileIsPlanned(files, path);
    EmptyLacks(Auth);
    PerformFailsExactly(Editing(), files, OneFilePlan(path));
  }

  function LineCount(): string -> int {
    text => |LinesOf(text)|
  }

  lemma EditingGrows()
    ensures Grows(Editing(), LineCount())
  {
    forall text, role
      ensures LineCount()(After(Editing(), text, role)) ==
              LineCount()(text) + (if Editing()(text, role).None? then 0 else 1)
    {
      EditingIs(text, role);
      InsertedCount(text, role);
    }
  }

  /**
   For an insertion that the real run reaches, the dry run prints the very text the real run writes
   (or nothing, as the real run writes nothing), if and only if the file has the line already or no
   earlier insertion of the plan adds a line to that file.
   */
  lemma DryRunPrintsExactly(files: Files, ops: seq<Op>, i: nat)
    requires i < |ops| && ops[i].path in files && Perform(Editing(), files, ops[..i]).result.Ok?
    ensures var Op(path, role) := ops[i];
            var now := Perform(Editing(), files, ops[..i]).files;
            && i < |Printed(Editing(), [], files, ops)| && path in now
            && (Printed(Editing(), [], files, ops)[i] == Edited(now[path].text, role) <==>
                HasModule(LinesOf(files[path].text), role) || !Changes(Editing(), path, files[path].text, ops[..i]))
  {
    EditingSettles();
    EditingGrows();
    PreviewIsWrittenExactly(Editing(), LineCount(), files, ops, i);
  }

  lemma SharedPreviewDiffers(files: Files, path: string)
    requires files == map[path := File("", true)]
    ensures var plan := OneFilePlan(path);
            var now := Perform(Editing(), files, plan[..1]).files;
            && |Printed(Editing(), [], files, plan)| > 1 && path in now
            && Printed(Editing(), [], files, plan)[1] != Edited(now[path].text, Account)
  {
    var plan := OneFilePlan(path);
    OneFileIsPlanned(files, path);
    EmptyLacks(Auth);
    EmptyLacks(Account);
    NothingFails(Editing(), files, plan[..1]);
    PerformFailsExactly(Editing(), files, plan[..1]);
    DryRunPrintsExactly(files, plan, 1);
  }

  /** With a single empty file for all stacks the account text that is printed is not the one written. */
  lemma SharedFileIsPrintedOtherwise(path: string)
    ensures var files: Files := map[path := File("", true)];
            var printed := Rehearse([], files, OneFile(path), false).printed;
            var now := Perform(Editing(), files, OneFilePlan(path)[..1]).files;
            && Configure(files, OneFile(path), false).result == Ok(())
            && |printed| > 1 && path in now && printed[1] != Edited(now[path].text, Account)
  {
    var files: Files := map[path := File("", true)];
    OneFileIsPlanned(files, path);
    NothingFails(Editing(), files, OneFilePlan(path));
    PerformFailsExactly(Editing(), files, OneFilePlan(path));
    SharedPreviewDiffers(files, path);
  }
}

/**
 A plan of edits to files, performed one after the other up to the first error, or rehearsed without
 writing. All results hold for any way of editing a text for a role.
 */
module PamRuns {
  import opened Text
  import opened PamLines

  /** What an edit makes of a text for a role; none if there is nothing to do. */
  type Edit = (string, Role) -> Option<string>

  /** A file on disk; a write to one that is not writable fails and leaves it as it was. */
  datatype File = File(text: string, writable: bool)

  type Files = map<string, File>

  datatype Op = Op(path: string, role: Role)

  datatype Outcome = Outcome(files: Files, result: Result<(), string>)

  function Apply(edit: Edit, files: Files, op: Op): Outcome {
    if op.path !in files then Outcome(files, Err(op.path))
    else
      var file := files[op.path];
      match edit(file.text, op.role)
      case None => Outcome(files, Ok(()))
      case Some(text) =>
        if file.writable then Outcome(files[op.path := file.(text := text)], Ok(()))
        else Outcome(files, Err(op.path))
  }

  /** One edit after the other; the first error ends the work, what was done stays done. */
  function Perform(edit: Edit, files: Files, ops: seq<Op>): Outcome
    decreases |ops|
  {
    if ops == [] then Outcome(files, Ok(()))
    else
      var first := Apply(edit, files, ops[0]);
      if first.result.Err? then first else Perform(edit, first.files, ops[1..])
  }

  /** What a dry run has printed, edit by edit, always of the files as they are. */
  function Printed(edit: Edit, sofar: seq<Option<string>>, files: Files, ops: seq<Op>): seq<Option<string>>
    decreases |ops|
  {
    if ops == [] || ops[0].path !in files then sofar
    else Printed(edit, sofar + [edit(files[ops[0].path].text, ops[0].role)], files, ops[1..])
  }

  /** The first path of the plan that is not there, if any. */
  function FirstMissing(paths: set<string>, ops: seq<Op>): Result<(), string> {
    if ops == [] then Ok(())
    else if ops[0].path !in paths then Err(ops[0].path)
    else FirstMissing(paths, ops[1..])
  }

  /** A file that has to be edited and cannot be written. */
  predicate Unwritable(edit: Edit, file: File, role: Role) {
    !file.writable && edit(file.text, role).Some?
  }

  /** The first path of the plan that is not there, or has to be edited and cannot be written. */
  function FirstFailing(edit: Edit, files: Files, ops: seq<Op>): Result<(), string> {
    if ops == [] then Ok(())
    else if ops[0].path !in files then Err(ops[0].path)
    else if Unwritable(edit, files[ops[0].path], ops[0].role) then Err(ops[0].path)
    else FirstFailing(edit, files, ops[1..])
  }

  // -- Real and dry runs ------------------------------------------------------------------------

  /** Where a run stands: the files, what was printed, and the result so far. */
  datatype Progress = Progress(files: Files, printed: seq<Option<string>>, result: Result<(), string>)

  function Insertion(edit: Edit, dryRun: bool, files: Files, printed: seq<Option<string>>, op: Op): Progress {
    if !dryRun then Progress(Apply(edit, files, op).files, printed, Apply(edit, files, op).result)
    else if op.path !in files then Progress(files, printed, Err(op.path))
    else Progress(files, printed + [edit(files[op.path].text, op.role)], Ok(()))
  }

  function Insertions(edit: Edit, dryRun: bool, files: Files, printed: seq<Option<string>>, ops: seq<Op>): Progress
    decreases |ops|
  {
    if ops == [] then Progress(files, printed, Ok(()))
    else
      var first := Insertion(edit, dryRun, files, printed, ops[0]);
      if first.result.Err? then first else Insertions(edit, dryRun, first.files, first.printed, ops[1..])
  }

  lemma {:induction false} InsertionsThen(
    edit: Edit, dryRun: bool, files: Files, printed: seq<Option<string>>, first: seq<Op>, then_: seq<Op>)
    ensures Insertions(edit, dryRun, files, printed, first + then_) ==
            var mid := Insertions(edit, dryRun, files, printed, first);
            if mid.result.Err? then mid else Insertions(edit, dryRun, mid.files, mid.printed, then_)
    decreases |first|
  {
    if first == [] {
      assert first + then_ == then_;
    } else {
      assert (first + then_)[1..] == first[1..] + then_;
      var one := Insertion(edit, dryRun, files, printed, first[0]);
      InsertionsThen(edit, dryRun, one.files, one.printed, first[1..], then_);
    }
  }

  /** A real run performs the plan and prints nothing. */
  lemma {:induction false} RealInsertions(edit: Edit, files: Files, printed: seq<Option<string>>, ops: seq<Op>)
    ensures Insertions(edit, false, files, printed, ops) ==
            Progress(Perform(edit, files, ops).files, printed, Perform(edit, files, ops).result)
    decreases |ops|
  {
    if ops != [] { RealInsertions(edit, Apply(edit, files, ops[0]).files, printed, ops[1..]); }
  }

  /** A dry run changes nothing, prints every text, and ends at the first missing file. */
  lemma {:induction false} DryInsertions(edit: Edit, files: Files, printed: seq<Option<string>>, ops: seq<Op>)
    ensures Insertions(edit, true, files, printed, ops) ==
            Progress(files, Printed(edit, printed, files, ops), FirstMissing(files.Keys, ops))
    decreases |ops|
  {
    if ops != [] && ops[0].path in files {
      DryInsertions(edit, files, printed + [edit(files[ops[0].path].text, ops[0].role)], ops[1..]);
    }
  }

  lemma {:induction false} MissingThen(paths: set<string>, first: seq<Op>, then_: seq<Op>)
    ensures FirstMissing(paths, first + then_) ==
            if FirstMissing(paths, first).Err? then FirstMissing(paths, first) else FirstMissing(paths, then_)
    decreases |first|
  {
    if first == [] {
      assert first + then_ == then_;
    } else {
      assert (first + then_)[1..] == first[1..] + then_;
      MissingThen(paths, first[1..], then_);
    }
  }

  // -- What a plan keeps --------------------------------------------------------------------------

  /** The text after an edit. */
  function After(edit: Edit, text: string, role: Role): string {
    match edit(text, role)
    case None => text
    case Some(edited) => edited
  }

  /** An edit that succeeds changes one file, one that fails none; either way the files stay the same ones. */
  lemma ApplyEdits(edit: Edit, files: Files, op: Op)
    ensures var done := Apply(edit, files, op);
            && done.files.Keys == files.Keys
            && (forall path | path in files && path != op.path :: done.files[path] == files[path])
            && (op.path in files ==> done.files[op.path].writable == files[op.path].writable)
            && (done.result.Ok? ==>
                  op.path in files && done.files[op.path].text == After(edit, files[op.path].text, op.role))
            && (done.result.Err? ==> done.files == files)
  {
  }

  /** No edit of the plan is for the barred role, if there is one. */
  predicate Avoids(ops: seq<Op>, barred: Option<Role>) {
    forall i | 0 <= i < |ops| :: Some(ops[i].role) != barred
  }

  /** Edits, but for the barred role, keep a property of a text. */
  ghost predicate Stable(edit: Edit, p: string -> bool, barred: Option<Role>) {
    forall text, role | Some(role) != barred :: p(text) ==> p(After(edit, text, role))
  }

  /** What the single edits keep, a whole plan keeps, whether it goes through or stops with an error. */
  lemma {:induction false} PerformKeeps(
    edit: Edit, files: Files, ops: seq<Op>, path: string, p: string -> bool, barred: Option<Role>)
    requires path in files && p(files[path].text) && Avoids(ops, barred) && Stable(edit, p, barred)
    ensures path in Perform(edit, files, ops).files && p(Perform(edit, files, ops).files[path].text)
    decreases |ops|
  {
    if ops != [] {
      ApplyEdits(edit, files, ops[0]);
      PerformKeeps(edit, Apply(edit, files, ops[0]).files, ops[1..], path, p, barred);
    }
  }

  lemma {:induction false} PerformKeepsPaths(edit: Edit, files: Files, ops: seq<Op>)
    ensures Perform(edit, files, ops).files.Keys == files.Keys
    decreases |ops|
  {
    if ops != [] {
      ApplyEdits(edit, files, ops[0]);
      PerformKeepsPaths(edit, Apply(edit, files, ops[0]).files, ops[1..]);
    }
  }

  // -- Idempotence ----------------------------------------------------------------------------------

  /** The role has nothing more to do in the text. */
  function Done(edit: Edit, role: Role): string -> bool {
    text => edit(text, role).None?
  }

  /** An edit is done once made, and stays done. */
  ghost predicate Settles(edit: Edit) {
    forall role :: Stable(edit, Done(edit, role), None) && forall text :: Done(edit, role)(After(edit, text, role))
  }

  /**
   Performing a plan a second time changes nothing, byte for byte, and has the same result: for any
   files, any roles sharing a file, and also when the first time stopped with an error.
   */
  lemma {:induction false} PerformIsIdempotent(edit: Edit, files: Files, ops: seq<Op>)
    requires Settles(edit)
    ensures var done := Perform(edit, files, ops);
            Perform(edit, done.files, ops) == done
    decreases |ops|
  {
    if ops != [] && Apply(edit, files, ops[0]).result.Ok? {
      var Op(path, role) := ops[0];
      var files1 := Apply(edit, files, ops[0]).files;
      ApplyEdits(edit, files, ops[0]);
      assert Done(edit, role)(files1[path].text);
      PerformKeeps(edit, files1, ops[1..], path, Done(edit, role), None);
      PerformIsIdempotent(edit, files1, ops[1..]);
    }
  }

  /** A plan that goes through leaves nothing of it to do. */
  lemma {:induction false} SuccessLeavesAllDone(edit: Edit, files: Files, ops: seq<Op>, i: nat)
    requires Settles(edit) && i < |ops| && Perform(edit, files, ops).result.Ok?
    ensures var done := Perform(edit, files, ops).files;
            ops[i].path in done && Done(edit, ops[i].role)(done[ops[i].path].text)
    decreases |ops|
  {
    var files1 := Apply(edit, files, ops[0]).files;
    ApplyEdits(edit, files, ops[0]);
    if i == 0 {
      PerformKeeps(edit, files1, ops[1..], ops[0].path, Done(edit, ops[0].role), None);
    } else {
      SuccessLeavesAllDone(edit, files1, ops[1..], i - 1);
    }
  }

  /** Some edit of the plan is for this path. */
  predicate Names(ops: seq<Op>, path: string) {
    ops != [] && (ops[0].path == path || Names(ops[1..], path))
  }

  /**
   A file that the plan has for one role only is edited once for that role, however often it comes
   up; a file the plan does not have stays as it is. Where the plan stops early the edit may be missing.
   */
  lemma {:induction false} EditedForOneRole(edit: Edit, files: Files, ops: seq<Op>, path: string, role: Role)
    requires Settles(edit) && path in files
    requires forall i | 0 <= i < |ops| && ops[i].path == path :: ops[i].role == role
    ensures var done := Perform(edit, files, ops);
            && path in done.files && done.files[path].writable == files[path].writable
            && (done.files[path].text == files[path].text ||
                done.files[path].text == After(edit, files[path].text, role))
            && (!Names(ops, path) ==> done.files[path] == files[path])
            && (Names(ops, path) && done.result.Ok? ==>
                  done.files[path].text == After(edit, files[path].text, role))
    decreases |ops|
  {
    if ops != [] {
      var files1 := Apply(edit, files, ops[0]).files;
      ApplyEdits(edit, files, ops[0]);
      AfterTwice(edit, files[path].text, role);
      EditedForOneRole(edit, files1, ops[1..], path, role);
    }
  }

  lemma AfterTwice(edit: Edit, text: string, role: Role)
    requires Settles(edit)
    ensures After(edit, After(edit, text, role), role) == After(edit, text, role)
  {
    assert Done(edit, role)(After(edit, text, role));
  }

  // -- What fails ----------------------------------------------------------------------------------

  /** The same files with the same permissions; those that cannot be written have the same text. */
  predicate FailAlike(files: Files, files': Files) {
    && files.Keys == files'.Keys
    && forall path | path in files ::
         files[path].writable == files'[path].writable && (!files[path].writable ==> files[path] == files'[path])
  }

  lemma {:induction false} FailingStays(edit: Edit, files: Files, files': Files, ops: seq<Op>)
    requires FailAlike(files, files')
    ensures FirstFailing(edit, files, ops) == FirstFailing(edit, files', ops)
    decreases |ops|
  {
    if ops != [] { FailingStays(edit, files, files', ops[1..]); }
  }

  /**
   A plan fails exactly at the first file that is missing, or that has to be edited and cannot be
   written, as the files were before the run.
   */
  lemma {:induction false} PerformFailsExactly(edit: Edit, files: Files, ops: seq<Op>)
    ensures Perform(edit, files, ops).result == FirstFailing(edit, files, ops)
    decreases |ops|
  {
    if ops != [] && Apply(edit, files, ops[0]).result.Ok? {
      var files1 := Apply(edit, files, ops[0]).files;
      PerformFailsExactly(edit, files1, ops[1..]);
      FailingStays(edit, files, files1, ops[1..]);
    }
  }

  lemma {:induction false} NothingFails(edit: Edit, files: Files, ops: seq<Op>)
    requires FirstMissing(files.Keys, ops).Ok? && forall path | path in files :: files[path].writable
    ensures FirstFailing(edit, files, ops) == Ok(())
    decreases |ops|
  {
    if ops != [] { NothingFails(edit, files, ops[1..]); }
  }

  /** A plan that fails has performed exactly the edits in front of the failing one, and no other. */
  lemma {:induction false} FailureStopsThePlan(edit: Edit, files: Files, ops: seq<Op>) returns (k: nat)
    requires Perform(edit, files, ops).result.Err?
    ensures k < |ops| && Perform(edit, files, ops).result == Err(ops[k].path)
    ensures Perform(edit, files, ops[..k]) == Outcome(Perform(edit, files, ops).files, Ok(()))
    decreases |ops|
  {
    if Apply(edit, files, ops[0]).result.Err? {
      k := 0;
      ApplyEdits(edit, files, ops[0]);
    } else {
      k := FailureStopsThePlan(edit, Apply(edit, files, ops[0]).files, ops[1..]);
      k := k + 1;
      assert ops[..k][1..] == ops[1..][..k - 1];
    }
  }

  /** The plan comes to a file that has to be edited and cannot be written before it comes to a missing one. */
  predicate MeetsUnwritable(edit: Edit, files: Files, ops: seq<Op>) {
    && ops != [] && ops[0].path in files
    && (Unwritable(edit, files[ops[0].path], ops[0].role) || MeetsUnwritable(edit, files, ops[1..]))
  }

  /** A dry run's answer is the real run's, if and only if the plan does not come to an unwritable file first. */
  lemma {:induction false} FailingIsMissingExactly(edit: Edit, files: Files, ops: seq<Op>)
    ensures FirstFailing(edit, files, ops) == FirstMissing(files.Keys, ops) <==> !MeetsUnwritable(edit, files, ops)
    ensures MeetsUnwritable(edit, files, ops) ==>
              FirstFailing(edit, files, ops).Err? && FirstFailing(edit, files, ops).error in files
    ensures FirstMissing(files.Keys, ops).Err? ==> FirstMissing(files.Keys, ops).error !in files
    decreases |ops|
  {
    if ops != [] { FailingIsMissingExactly(edit, files, ops[1..]); }
  }

  // -- What a dry run prints -------------------------------------------------------------------------

  lemma {:induction false} PrintedGrows(edit: Edit, sofar: seq<Option<string>>, files: Files, ops: seq<Op>)
    ensures sofar <= Printed(edit, sofar, files, ops)
    decreases |ops|
  {
    if ops != [] && ops[0].path in files {
      PrintedGrows(edit, sofar + [edit(files[ops[0].path].text, ops[0].role)], files, ops[1..]);
    }
  }

  lemma {:induction false} PrintedAt(edit: Edit, sofar: seq<Option<string>>, files: Files, ops: seq<Op>, i: nat)
    requires i < |ops| && forall j | 0 <= j <= i :: ops[j].path in files
    ensures var printed := Printed(edit, sofar, files, ops);
            |sofar| + i < |printed| && printed[|sofar| + i] == edit(files[ops[i].path].text, ops[i].role)
    decreases |ops|
  {
    var more := sofar + [edit(files[ops[0].path].text, ops[0].role)];
    if i > 0 {
      PrintedAt(edit, more, files, ops[1..], i - 1);
    } else {
      PrintedGrows(edit, more, files, ops[1..]);
    }
  }

  /** Some edit of the plan changes a file at this path with this text. */
  predicate Changes(edit: Edit, path: string, text: string, ops: seq<Op>) {
    && ops != []
    && ((ops[0].path == path && edit(text, ops[0].role).Some?) || Changes(edit, path, text, ops[1..]))
  }

  lemma {:induction false} Unchanged(edit: Edit, files: Files, ops: seq<Op>, path: string)
    requires path in files && !Changes(edit, path, files[path].text, ops)
    ensures path in Perform(edit, files, ops).files && Perform(edit, files, ops).files[path] == files[path]
    decreases |ops|
  {
    if ops != [] {
      ApplyEdits(edit, files, ops[0]);
      Unchanged(edit, Apply(edit, files, ops[0]).files, ops[1..], path);
    }
  }

  /** Every edit that changes a text adds one to its size. */
  ghost predicate Grows(edit: Edit, size: string -> int) {
    forall text, role :: size(After(edit, text, role)) == size(text) + (if edit(text, role).None? then 0 else 1)
  }

  lemma {:induction false} Grown(edit: Edit, size: string -> int, files: Files, ops: seq<Op>, path: string)
    requires Grows(edit, size) && path in files && Perform(edit, files, ops).result.Ok?
    ensures path in Perform(edit, files, ops).files
    ensures size(Perform(edit, files, ops).files[path].text) >= size(files[path].text)
    ensures Changes(edit, path, files[path].text, ops) ==>
              size(Perform(edit, files, ops).files[path].text) > size(files[path].text)
    decreases |ops|
  {
    if ops != [] {
      ApplyEdits(edit, files, ops[0]);
      Grown(edit, size, Apply(edit, files, ops[0]).files, ops[1..], path);
    }
  }

  lemma {:induction false} ReachedIsThere(edit: Edit, files: Files, ops: seq<Op>, i: nat)
    requires i <= |ops| && Perform(edit, files, ops[..i]).result.Ok?
    ensures forall j | 0 <= j < i :: ops[j].path in files
    decreases i
  {
    if i > 0 {
      var files1 := Apply(edit, files, ops[0]).files;
      ApplyEdits(edit, files, ops[0]);
      assert ops[..i][1..] == ops[1..][..i - 1];
      ReachedIsThere(edit, files1, ops[1..], i - 1);
      assert forall j | 1 <= j < i :: ops[j] == ops[1..][j - 1];
    }
  }

  /**
   For an edit that the real run reaches, the dry run prints the very text the real run writes (or
   nothing, as the real run writes nothing), if and only if there is nothing to do for it in the
   file as it is, or no earlier edit of the plan changes that file.
   */
  lemma PreviewIsWrittenExactly(edit: Edit, size: string -> int, files: Files, ops: seq<Op>, i: nat)
    requires Settles(edit) && Grows(edit, size)
    requires i < |ops| && ops[i].path in files && Perform(edit, files, ops[..i]).result.Ok?
    ensures var Op(path, role) := ops[i];
            var now := Perform(edit, files, ops[..i]).files;
            && i < |Printed(edit, [], files, ops)| && path in now
            && (Printed(edit, [], files, ops)[i] == edit(now[path].text, role) <==>
                edit(files[path].text, role).None? || !Changes(edit, path, files[path].text, ops[..i]))
  {
    var Op(path, role) := ops[i];
    var text := files[path].text;
    ReachedIsThere(edit, files, ops, i);
    PrintedAt(edit, [], files, ops, i);
    Grown(edit, size, files, ops[..i], path);
    if Done(edit, role)(text) {
      PerformKeeps(edit, files, ops[..i], path, Done(edit, role), None);
    } else if Changes(edit, path, text, ops[..i]) {
      EditsDiffer(edit, size, text, Perform(edit, files, ops[..i]).files[path].text, role);
    } else {
      Unchanged(edit, files, ops[..i], path);
    }
  }

  lemma EditsDiffer(edit: Edit, size: string -> int, text: string, later: string, role: Role)
    requires Grows(edit, size) && edit(text, role).Some? && size(later) > size(text)
    ensures edit(text, role) != edit(later, role)
  {
    assert size(After(edit, text, role)) == size(text) + 1;
    assert size(After(edit, later, role)) >= size(later);
  }
}

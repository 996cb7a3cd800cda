/**
 The cache of backport analyses: one file per commit, holding analyses by scope, one without a
 scope, and the targets a backport was declined for.
 */
module AnalysisCache {
  import opened Text
  import opened Sorting

  datatype Analysis = Analysis(verdict: string, details: string)

  /** A value read from JSON: missing, of the wrong type, or usable. */
  datatype Field<T> = Absent | Malformed | Good(value: T)

  datatype Record = Record(
    analysis: Field<Analysis>,
    byScope: Field<map<string, Field<Analysis>>>,
    declined: Field<seq<string>>)

  /** A cache file as it may be found on disk. */
  datatype File = Unreadable | Readable(record: Record)

  type Files = map<string, File>

  const EMPTY := Record(Absent, Absent, Absent)

  function Load(files: Files, sha: string): Record {
    if sha in files && files[sha].Readable? then files[sha].record else EMPTY
  }

  function ToOption<T>(field: Field<T>): Option<T> {
    if field.Good? then Some(field.value) else None
  }

  /** An empty scope is no scope. */
  function Scope(scope: Option<string>): Option<string> {
    if scope == Some("") then None else scope
  }

  function Upper(s: string): string {
    if s == "" then ""
    else [if 'a' <= s[0] <= 'z' then (s[0] as int - 32) as char else s[0]] + Upper(s[1..])
  }

  predicate IsSafe(analysis: Analysis) {
    Upper(analysis.verdict) == "BACKPORT"
  }

  // -- Reading ------------------------------------------------------------------------------

  function Scoped(record: Record, scope: string): Option<Analysis> {
    if record.byScope.Good? && scope in record.byScope.value then ToOption(record.byScope.value[scope]) else None
  }

  function Unscoped(record: Record): Option<Analysis> {
    ToOption(record.analysis)
  }

  predicate NotBlank(target: string) {
    Trim(target) != ""
  }

  function DeclinedTargets(record: Record): set<string> {
    if record.declined.Good? then set t | t in record.declined.value && NotBlank(t) else {}
  }

  // -- Writing ------------------------------------------------------------------------------

  function WithAnalysis(record: Record, analysis: Analysis, scope: Option<string>): Record {
    match Scope(scope)
    case None => record.(analysis := Good(analysis))
    case Some(s) =>
      var scoped := if record.byScope.Good? then record.byScope.value else map[];
      record.(byScope := Good(scoped[s := Good(analysis)]))
  }

  function KeepNotBlank(targets: seq<string>): (kept: seq<string>)
    ensures forall t :: t in kept <==> t in targets && NotBlank(t)
  {
    if targets == [] then []
    else (if NotBlank(targets[0]) then [targets[0]] else []) + KeepNotBlank(targets[1..])
  }

  function KeepNotEmpty(targets: seq<string>): (kept: seq<string>)
    ensures forall t :: t in kept <==> t in targets && t != ""
  {
    if targets == [] then []
    else (if targets[0] != "" then [targets[0]] else []) + KeepNotEmpty(targets[1..])
  }

  /** The list written when targets are marked: what was there and not blank, and the new ones. */
  function MarkedList(record: Record, targets: seq<string>): seq<string> {
    SortUnique((if record.declined.Good? then KeepNotBlank(record.declined.value) else []) + KeepNotEmpty(targets))
  }

  datatype Op =
    | SetOp(sha: string, analysis: Analysis, scope: Option<string>)
    | MarkOp(sha: string, targets: seq<string>)

  function Apply(files: Files, op: Op): Files {
    match op
    case SetOp(sha, analysis, scope) => files[sha := Readable(WithAnalysis(Load(files, sha), analysis, scope))]
    case MarkOp(sha, targets) =>
      var list := MarkedList(Load(files, sha), targets);
      if list == [] then files else files[sha := Readable(Load(files, sha).(declined := Good(list)))]
  }

  function Replay(files: Files, log: seq<Op>): Files {
    if log == [] then files else Apply(Replay(files, log[..|log| - 1]), log[|log| - 1])
  }

  // -- The cache ------------------------------------------------------------------------------

  class Cache {
    var files: Files
    const enabled: bool

    constructor (files: Files, enabled: bool)
      ensures this.files == files && this.enabled == enabled
    {
      this.files := files;
      this.enabled := enabled;
    }

    /** The analysis of the scope, else a scopeless one if that is safe to reuse. */
    method Get(sha: string, scope: Option<string>) returns (r: Option<Analysis>)
      ensures !enabled ==> r == None
      ensures enabled && Scope(scope).None? ==> r == Unscoped(Load(files, sha))
      ensures enabled && Scope(scope).Some? ==> r == ScopedAnswer(Load(files, sha), Scope(scope).value)
    {
      if !enabled { return None; }
      var data := Load(files, sha);
      if scope.Some? && scope.value != "" {
        if data.byScope.Good? && scope.value in data.byScope.value {
          var analysis := data.byScope.value[scope.value];
          if analysis.Good? { return Some(analysis.value); }
        }
        if data.analysis.Good? && IsSafe(data.analysis.value) { return Some(data.analysis.value); }
        return None;
      }
      r := if data.analysis.Good? then Some(data.analysis.value) else None;
    }

    method Set(sha: string, analysis: Analysis, scope: Option<string>)
      modifies this
      ensures files == Apply(old(files), SetOp(sha, analysis, scope))
    {
      var data := Load(files, sha);
      if scope.Some? && scope.value != "" {
        var scoped: map<string, Field<Analysis>> := map[];
        if data.byScope.Good? { scoped := data.byScope.value; }
        scoped := scoped[scope.value := Good(analysis)];
        data := data.(byScope := Good(scoped));
      } else {
        data := data.(analysis := Good(analysis));
      }
      files := files[sha := Readable(data)];
    }

    method MarkDeclined(sha: string, targets: seq<string>)
      modifies this
      ensures files == Apply(old(files), MarkOp(sha, targets))
    {
      var data := Load(files, sha);
      var declined: seq<string> := [];
      if data.declined.Good? { declined := KeepNotBlank(data.declined.value); }
      var i := 0;
      while i < |targets|
        invariant 0 <= i <= |targets|
        invariant declined + KeepNotEmpty(targets[i..]) ==
                  (if data.declined.Good? then KeepNotBlank(data.declined.value) else []) + KeepNotEmpty(targets)
      {
        if targets[i] != "" { declined := declined + [targets[i]]; }
        assert targets[i..][1..] == targets[i + 1..];
        i := i + 1;
      }
      assert declined + KeepNotEmpty(targets[i..]) == declined;
      var list := SortUnique(declined);
      if list == [] { return; }
      files := files[sha := Readable(data.(declined := Good(list)))];
    }

    method IsDeclined(sha: string, branch: string, version: Option<string>) returns (r: bool)
      ensures r == (enabled && AnswersTo(branch, version) * DeclinedTargets(Load(files, sha)) != {})
    {
      var declined := if enabled then DeclinedTargets(Load(files, sha)) else {};
      if declined == {} { return false; }
      var candidates := {branch};
      if version.Some? && version.value != "" {
        candidates := candidates + {version.value};
        if !StartsWith(version.value, "stable-") {
          candidates := candidates + {"stable-" + version.value};
        }
      }
      assert candidates == AnswersTo(branch, version);
      r := exists c | c in candidates :: c in declined;
      assert r <==> candidates * declined != {} by {
        if r { var c :| c in candidates && c in declined; assert c in candidates * declined; }
      }
    }
  }

  function ScopedAnswer(record: Record, scope: string): Option<Analysis> {
    match Scoped(record, scope)
    case Some(analysis) => Some(analysis)
    case None =>
      match Unscoped(record)
      case Some(analysis) => if IsSafe(analysis) then Some(analysis) else None
      case None => None
  }

  /** The names a target goes by: its branch, its version, and the version as a stable branch. */
  function AnswersTo(branch: string, version: Option<string>): set<string> {
    {branch} +
    (if version.Some? && version.value != ""
     then {version.value} + (if StartsWith(version.value, "stable-") then {} else {"stable-" + version.value})
     else {})
  }

  // -- Agreement with the log ----------------------------------------------------------------------

  /** The last analysis set for a commit and scope, or what was found there at first. */
  function LastSet(log: seq<Op>, sha: string, scope: Option<string>, first: Option<Analysis>): Option<Analysis> {
    if log == [] then first
    else
      match log[|log| - 1]
      case SetOp(sha', analysis, scope') =>
        if sha' == sha && Scope(scope') == scope then Some(analysis)
        else LastSet(log[..|log| - 1], sha, scope, first)
      case MarkOp(_, _) => LastSet(log[..|log| - 1], sha, scope, first)
  }

  lemma {:induction false} ScopedAgreesWithLog(files: Files, log: seq<Op>, sha: string, scope: string)
    requires scope != ""
    ensures Scoped(Load(Replay(files, log), sha), scope) ==
            LastSet(log, sha, Some(scope), Scoped(Load(files, sha), scope))
  {
    if log != [] { ScopedAgreesWithLog(files, log[..|log| - 1], sha, scope); }
  }

  lemma {:induction false} UnscopedAgreesWithLog(files: Files, log: seq<Op>, sha: string)
    ensures Unscoped(Load(Replay(files, log), sha)) == LastSet(log, sha, None, Unscoped(Load(files, sha)))
  {
    if log != [] { UnscopedAgreesWithLog(files, log[..|log| - 1], sha); }
  }

  /** The word BACKPORT, each letter in either case. */
  predicate SpellsBackport(verdict: string) {
    |verdict| == 8 && forall i | 0 <= i < 8 :: verdict[i] == "BACKPORT"[i] || verdict[i] == "backport"[i]
  }

  lemma {:induction false} UpperAt(s: string, i: nat)
    requires i < |s|
    ensures |Upper(s)| == |s|
    ensures Upper(s)[i] == if 'a' <= s[i] <= 'z' then (s[i] as int - 32) as char else s[i]
  {
    if i > 0 {
      UpperAt(s[1..], i - 1);
    } else if |s| > 1 {
      UpperAt(s[1..], 0);
    }
  }

  /** Only the verdict BACKPORT is reused: not SKIP, and nothing that merely contains the word. */
  lemma SafeExactly(analysis: Analysis)
    ensures IsSafe(analysis) <==> SpellsBackport(analysis.verdict)
  {
    var s := analysis.verdict;
    forall i | 0 <= i < |s|
      ensures |Upper(s)| == |s|
      ensures Upper(s)[i] == if 'a' <= s[i] <= 'z' then (s[i] as int - 32) as char else s[i]
    {
      UpperAt(s, i);
    }
    var big, small := "BACKPORT", "backport";
    assert forall i | 0 <= i < 8 :: 'A' <= big[i] <= 'Z' && small[i] as int == big[i] as int + 32;
    if IsSafe(analysis) {
      assert |s| == 8 by { if s != "" { UpperAt(s, 0); } }
    }
    if SpellsBackport(s) { assert Upper(s) == big; }
  }

  /**
   After any operations, on any files found at first, a scoped answer is the last analysis set for
   that commit and scope, else the last one set without a scope if its verdict is BACKPORT.
   */
  lemma CacheAgreesWithLog(files: Files, log: seq<Op>, sha: string, scope: string)
    requires scope != ""
    ensures ScopedAnswer(Load(Replay(files, log), sha), scope) ==
            var scoped := LastSet(log, sha, Some(scope), Scoped(Load(files, sha), scope));
            var unscoped := LastSet(log, sha, None, Unscoped(Load(files, sha)));
            if scoped.Some? then scoped
            else if unscoped.Some? && SpellsBackport(unscoped.value.verdict) then unscoped
            else None
  {
    var unscoped := LastSet(log, sha, None, Unscoped(Load(files, sha)));
    if unscoped.Some? { SafeExactly(unscoped.value); }
    ScopedAgreesWithLog(files, log, sha, scope);
    UnscopedAgreesWithLog(files, log, sha);
  }

  /** Operations on other commits or other scopes do not change a scope's analysis. */
  lemma ScopesDoNotInterfere(files: Files, log: seq<Op>, sha: string, scope: string)
    requires scope != ""
    requires forall i | 0 <= i < |log| && log[i].SetOp? :: log[i].sha != sha || Scope(log[i].scope) != Some(scope)
    ensures Scoped(Load(Replay(files, log), sha), scope) == Scoped(Load(files, sha), scope)
  {
    ScopedAgreesWithLog(files, log, sha, scope);
    NothingSet(log, sha, Some(scope), Scoped(Load(files, sha), scope));
  }

  lemma {:induction false} NothingSet(log: seq<Op>, sha: string, scope: Option<string>, first: Option<Analysis>)
    requires forall i | 0 <= i < |log| && log[i].SetOp? :: log[i].sha != sha || Scope(log[i].scope) != scope
    ensures LastSet(log, sha, scope, first) == first
  {
    if log != [] { NothingSet(log[..|log| - 1], sha, scope, first); }
  }

  predicate Marked(log: seq<Op>, sha: string, target: string) {
    exists i | 0 <= i < |log| :: log[i].MarkOp? && log[i].sha == sha && target in log[i].targets
  }

  /** The declined targets are those found at first and all marked since, blank ones aside. */
  lemma {:induction false} DeclinedAgreesWithLog(files: Files, log: seq<Op>, sha: string, target: string)
    ensures target in DeclinedTargets(Load(Replay(files, log), sha)) <==>
            target in DeclinedTargets(Load(files, sha)) || (Marked(log, sha, target) && NotBlank(target))
  {
    if log != [] {
      var n := |log| - 1;
      var before := Replay(files, log[..n]);
      DeclinedAgreesWithLog(files, log[..n], sha, target);
      MarkedAppend(log, sha, target);
      if log[n].MarkOp? && log[n].sha == sha { MarkedListExactly(Load(before, sha), log[n].targets, target); }
    }
  }

  lemma MarkedAppend(log: seq<Op>, sha: string, target: string)
    requires log != []
    ensures Marked(log, sha, target) <==>
            || Marked(log[..|log| - 1], sha, target)
            || (log[|log| - 1].MarkOp? && log[|log| - 1].sha == sha && target in log[|log| - 1].targets)
  {
    if Marked(log[..|log| - 1], sha, target) {
      var i :| 0 <= i < |log| - 1 && log[..|log| - 1][i].MarkOp? && log[..|log| - 1][i].sha == sha
               && target in log[..|log| - 1][i].targets;
      assert log[i].MarkOp?;
    }
    if Marked(log, sha, target) {
      var i :| 0 <= i < |log| && log[i].MarkOp? && log[i].sha == sha && target in log[i].targets;
      if i < |log| - 1 { assert log[..|log| - 1][i] == log[i]; }
    }
  }

  lemma MarkedListExactly(record: Record, targets: seq<string>, target: string)
    ensures target in MarkedList(record, targets) && NotBlank(target) <==>
            target in DeclinedTargets(record) || (target in targets && NotBlank(target))
  {
    var old_ := if record.declined.Good? then KeepNotBlank(record.declined.value) else [];
    SortUniqueSorts(old_ + KeepNotEmpty(targets));
    assert NotBlank(target) ==> target != "";
  }

  /** A target once marked stays declined, whatever is set or marked afterwards. */
  lemma DeclinedForGood(
    files: Files, log: seq<Op>, sha: string, branch: string, version: Option<string>, target: string)
    requires Marked(log, sha, target) && NotBlank(target) && target in AnswersTo(branch, version)
    ensures AnswersTo(branch, version) * DeclinedTargets(Load(Replay(files, log), sha)) != {}
  {
    DeclinedAgreesWithLog(files, log, sha, target);
    assert target in AnswersTo(branch, version) * DeclinedTargets(Load(Replay(files, log), sha));
  }
}

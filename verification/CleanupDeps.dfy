/**
 The dependency cleanup: mask a crate, build, then commit the mask or revert it. The tool is a
 machine that takes one step at a time and may crash between any two of them; what is in the
 repository and in its state file survives, and a later run goes on from there.
 */
module CleanupDeps {
  import opened Text

  /** A crate and its version, as in the [replace] section. */
  type Dep = string

  /** The tracked files the tool touches: masks in Cargo.toml, Cargo.lock, and the vet policy. */
  datatype Tree = Tree(replace: set<Dep>, lock: int, policy: set<Dep>)

  /**
   The last commit and the files on disk. `dirs` are the override directories on disk, tracked or
   not; `otherChanged` stands for changes to any other tracked file.
   */
  datatype Repo = Repo(head: Tree, headDirs: set<Dep>, work: Tree, dirs: set<Dep>, otherChanged: bool)

  /** No tracked file differs from the last commit; untracked ones are not looked at. */
  predicate IsClean(repo: Repo) {
    repo.work == repo.head && repo.headDirs <= repo.dirs && !repo.otherChanged
  }

  datatype Verdict = Removed | Kept | Failed

  /** Where the tool is: not running, at the head of its loop, or somewhere in a dependency. */
  datatype Phase =
    | Idle
    | Head(queue: seq<Dep>)
    | Masked(dep: Dep, rest: seq<Dep>)
    | Built(dep: Dep, rest: seq<Dep>)
    | PolicyAdded(dep: Dep, rest: seq<Dep>)
    | Reverting(dep: Dep, rest: seq<Dep>)
    | DirRemoved(dep: Dep, rest: seq<Dep>)
    | Marking(dep: Dep, verdict: Verdict, rest: seq<Dep>)

  datatype Commit = Commit(dep: Dep, masks: set<Dep>)

  /** The whole system, with the history of commits made and of mask sets built successfully. */
  datatype System = System(
    repo: Repo, phase: Phase, processed: seq<(Dep, Verdict)>, commits: seq<Commit>, builds: set<set<Dep>>)

  /** What happens next. The outcomes of cargo, git and the masking script are arbitrary. */
  datatype Event =
    | Start(all: seq<Dep>, resume: bool, limit: nat)
    | Finish
    | MaskOk
    | MaskFails(leavesDir: bool, leavesEntry: bool)
    | BuildOk(lock: int)
    | BuildFails(lock: int)
    | Declined
    | AddPolicy(vetTouchesMore: bool)
    | GitCommit
    | RemoveDir
    | GitRestore
    | Mark
    | Crash
    | UserCleans

  predicate IsProcessed(processed: seq<(Dep, Verdict)>, dep: Dep) {
    exists i | 0 <= i < |processed| :: processed[i].0 == dep
  }

  /** The dependencies still to be tested; a limit of zero is no limit. */
  function Remaining(s: System, all: seq<Dep>, resume: bool): (queue: seq<Dep>)
    ensures forall d :: d in queue <==>
              d in all && d !in s.repo.work.replace && !(resume && IsProcessed(s.processed, d))
  {
    if all == [] then []
    else
      (if all[0] in s.repo.work.replace || (resume && IsProcessed(s.processed, all[0])) then [] else [all[0]])
      + Remaining(s, all[1..], resume)
  }

  function Limited(queue: seq<Dep>, limit: nat): seq<Dep> {
    if limit == 0 || limit >= |queue| then queue else queue[..limit]
  }

  /** One step; an event that cannot happen now changes nothing. */
  function Step(s: System, e: Event): System {
    match (s.phase, e)
    case (Idle, Start(all, resume, limit)) =>
      if IsClean(s.repo) then s.(phase := Head(Limited(Remaining(s, all, resume), limit))) else s
    case (Idle, UserCleans) =>
      s.(repo := s.repo.(work := s.repo.head, dirs := s.repo.dirs + s.repo.headDirs, otherChanged := false))
    case (Idle, _) => s
    case (_, Crash) => s.(phase := Idle)
    case (Head(queue), Finish) => if queue == [] then s.(phase := Idle) else s
    case (Head(queue), MaskOk) =>
      if queue == [] || queue[0] in s.repo.dirs then s
      else
        var d := queue[0];
        s.(repo := s.repo.(work := s.repo.work.(replace := s.repo.work.replace + {d}), dirs := s.repo.dirs + {d}),
           phase := Masked(d, queue[1..]))
    case (Head(queue), MaskFails(leavesDir, leavesEntry)) =>
      if queue == [] then s
      else
        var d := queue[0];
        var left := leavesDir && d !in s.repo.dirs;
        var replace := if left && leavesEntry then s.repo.work.replace + {d} else s.repo.work.replace;
        var dirs := if left then s.repo.dirs + {d} else s.repo.dirs;
        s.(repo := s.repo.(work := s.repo.work.(replace := replace), dirs := dirs),
           phase := Marking(d, Failed, queue[1..]))
    case (Masked(d, rest), BuildOk(lock)) =>
      s.(repo := s.repo.(work := s.repo.work.(lock := lock)), phase := Built(d, rest),
         builds := s.builds + {s.repo.work.replace})
    case (Masked(d, rest), BuildFails(lock)) =>
      s.(repo := s.repo.(work := s.repo.work.(lock := lock)), phase := Reverting(d, rest))
    case (Built(d, rest), Declined) => s.(phase := Reverting(d, rest))
    case (Built(d, rest), AddPolicy(vetTouchesMore)) =>
      s.(repo := s.repo.(work := s.repo.work.(policy := s.repo.work.policy + {d}),
                         otherChanged := s.repo.otherChanged || vetTouchesMore),
         phase := PolicyAdded(d, rest))
    case (PolicyAdded(d, rest), GitCommit) =>
      s.(repo := s.repo.(head := s.repo.work, headDirs := s.repo.headDirs + {d}),
         phase := Marking(d, Removed, rest), commits := s.commits + [Commit(d, s.repo.work.replace)])
    case (Reverting(d, rest), RemoveDir) =>
      s.(repo := s.repo.(dirs := s.repo.dirs - {d}), phase := DirRemoved(d, rest))
    case (DirRemoved(d, rest), GitRestore) =>
      s.(repo := s.repo.(work := s.repo.work.(replace := s.repo.head.replace, lock := s.repo.head.lock)),
         phase := Marking(d, Kept, rest))
    case (Marking(d, verdict, rest), Mark) =>
      s.(processed := s.processed + [(d, verdict)], phase := Head(rest))
    case _ => s
  }

  function Run(s: System, events: seq<Event>): System {
    if events == [] then s else Step(Run(s, events[..|events| - 1]), events[|events| - 1])
  }

  /** A repository before the first run: nothing done yet, and every mask has its directory. */
  predicate Fresh(s: System) {
    && s.phase == Idle && s.commits == [] && s.builds == {} && s.processed == []
    && s.repo.headDirs <= s.repo.dirs && s.repo.head.replace <= s.repo.headDirs
  }

  // -- Every committed set of masks was built -------------------------------------------------------

  /** The dependency being worked on, from its masking until it is committed or restored. */
  function Current(phase: Phase): Option<Dep> {
    match phase
    case Masked(d, _) => Some(d)
    case Built(d, _) => Some(d)
    case PolicyAdded(d, _) => Some(d)
    case Reverting(d, _) => Some(d)
    case DirRemoved(d, _) => Some(d)
    case _ => None
  }

  /** The last commit still has the mask, the directory and the policy of an earlier one, with all its masks. */
  predicate InHead(repo: Repo, c: Commit) {
    && c.dep in c.masks && c.masks <= repo.head.replace
    && c.dep in repo.headDirs && c.dep in repo.head.policy
  }

  predicate Invariant(s: System) {
    && s.repo.headDirs <= s.repo.dirs
    && (forall i | 0 <= i < |s.commits| :: s.commits[i].masks in s.builds && InHead(s.repo, s.commits[i]))
    && (forall i, j | 0 <= i < j < |s.commits| :: s.commits[i].dep != s.commits[j].dep)
    && (Current(s.phase).Some? ==>
          Current(s.phase).value in s.repo.work.replace && Current(s.phase).value !in s.repo.headDirs)
    && (Current(s.phase).Some? ==> (Current(s.phase).value in s.repo.dirs <==> !s.phase.DirRemoved?))
    && (s.phase.Built? || s.phase.PolicyAdded? ==> s.repo.work.replace in s.builds)
    && (s.phase.PolicyAdded? ==> s.phase.dep in s.repo.work.policy)
    && (s.phase != Idle ==> s.repo.head.replace <= s.repo.work.replace && s.repo.head.policy <= s.repo.work.policy)
  }

  lemma StepKeepsInvariant(s: System, e: Event)
    requires Invariant(s)
    ensures Invariant(Step(s, e))
  {
  }

  lemma {:induction false} RunKeepsInvariant(s: System, events: seq<Event>)
    requires Fresh(s)
    ensures Invariant(Run(s, events))
  {
    if events != [] {
      RunKeepsInvariant(s, events[..|events| - 1]);
      StepKeepsInvariant(Run(s, events[..|events| - 1]), events[|events| - 1]);
    }
  }

  /**
   In every history of runs, crashes and restarts: each set of masks that was committed had been
   built successfully as it stands, and no dependency was ever committed twice. What was committed
   for a dependency stays in the repository: its mask with its directory and its policy.
   */
  lemma CommittedMasksWereBuiltOnce(s: System, events: seq<Event>)
    requires Fresh(s)
    ensures var done := Run(s, events);
            && (forall i | 0 <= i < |done.commits| ::
                  done.commits[i].masks in done.builds && InHead(done.repo, done.commits[i]))
            && (forall i, j | 0 <= i < j < |done.commits| :: done.commits[i].dep != done.commits[j].dep)
  {
    RunKeepsInvariant(s, events);
  }

  // -- What is left behind, told from the history ---------------------------------------------------

  /**
   What a history has left behind. `left` are entries of failed masks that are still pending in
   Cargo.toml, `lost` those that went into a commit of another mask, and `touched` says whether vet
   changed another file since the user last cleaned up.
   */
  datatype Leftovers = Leftovers(left: set<Dep>, lost: set<Dep>, touched: bool)

  /** What one event adds to or takes from it; events that cannot happen now do neither. */
  function Noting(t: Leftovers, s: System, e: Event): Leftovers {
    match (s.phase, e)
    case (Idle, UserCleans) => t.(left := {}, touched := false)
    case (Head(queue), MaskFails(leavesDir, leavesEntry)) =>
      if queue != [] && leavesDir && leavesEntry && queue[0] !in s.repo.dirs then t.(left := t.left + {queue[0]}) else t
    case (Built(_, _), AddPolicy(vetTouchesMore)) => t.(touched := t.touched || vetTouchesMore)
    case (PolicyAdded(_, _), GitCommit) => t.(left := {}, lost := t.lost + t.left)
    case (DirRemoved(_, _), GitRestore) => t.(left := {})
    case _ => t
  }

  function Noted(s: System, events: seq<Event>): Leftovers {
    if events == [] then Leftovers({}, {}, s.repo.otherChanged)
    else
      var earlier := events[..|events| - 1];
      Noting(Noted(s, earlier), Run(s, earlier), events[|events| - 1])
  }

  /** What the leftovers say about the repository. */
  predicate Agrees(s: System, t: Leftovers) {
    var repo := s.repo;
    && t.touched == repo.otherChanged
    && repo.head.replace - repo.headDirs == t.lost
    && t.lost <= repo.dirs && t.left <= repo.dirs * repo.work.replace
    && t.left !! repo.headDirs && t.left !! t.lost
    && (s.phase.Head? || s.phase.Marking? ==> repo.work == repo.head.(replace := repo.head.replace + t.left))
    && (Current(s.phase).Some? ==>
          var d := Current(s.phase).value;
          && d !in t.left && d !in t.lost && repo.work.replace == repo.head.replace + t.left + {d}
          && (!s.phase.PolicyAdded? ==> repo.work.policy == repo.head.policy))
  }

  lemma StepAgrees(s: System, t: Leftovers, e: Event)
    requires Invariant(s) && Agrees(s, t)
    ensures Agrees(Step(s, e), Noting(t, s, e))
  {
  }

  lemma {:induction false} RunAgrees(s: System, events: seq<Event>)
    requires Fresh(s)
    ensures Invariant(Run(s, events)) && Agrees(Run(s, events), Noted(s, events))
  {
    RunKeepsInvariant(s, events);
    if events != [] {
      var earlier := events[..|events| - 1];
      RunAgrees(s, earlier);
      StepAgrees(Run(s, earlier), Noted(s, earlier), events[|events| - 1]);
    }
  }

  /**
   In every history the masks committed without their directories are exactly the leftover entries
   that were pending at the commit of another mask. So every committed mask comes with its
   directory if and only if no commit was made over a leftover entry.
   */
  lemma MasksHaveDirectoriesExactly(s: System, events: seq<Event>)
    requires Fresh(s)
    ensures var repo := Run(s, events).repo;
            && repo.head.replace - repo.headDirs == Noted(s, events).lost
            && (repo.head.replace <= repo.headDirs <==> Noted(s, events).lost == {})
  {
    RunAgrees(s, events);
    NothingMissing(Run(s, events).repo.head.replace, Run(s, events).repo.headDirs);
  }

  lemma NothingMissing(masks: set<Dep>, dirs: set<Dep>)
    ensures masks <= dirs <==> masks - dirs == {}
  {
    assert masks - dirs == {} ==> forall d | d in masks :: d in dirs by {
      if d :| d in masks && d !in dirs { assert d in masks - dirs; }
    }
  }

  /**
   In every history the working tree equals the last commit at the head of the loop if and only if
   no leftover entry is pending and vet has touched no other file.
   */
  lemma CleanAtLoopHead(s: System, events: seq<Event>)
    requires Fresh(s)
    ensures var t := Noted(s, events);
            Run(s, events).phase.Head? ==> (IsClean(Run(s, events).repo) <==> t.left == {} && !t.touched)
  {
    RunAgrees(s, events);
  }

  /** A failed mask leaves Cargo.toml alone, and vet changes only its own file. */
  predicate Tidy(e: Event) {
    (e.MaskFails? ==> !e.leavesEntry) && (e.AddPolicy? ==> !e.vetTouchesMore)
  }

  lemma {:induction false} TidyLeavesNothing(s: System, events: seq<Event>)
    requires Fresh(s) && forall i | 0 <= i < |events| :: Tidy(events[i])
    ensures Noted(s, events).left == {} && Noted(s, events).lost == {}
    ensures Run(s, events).phase != Idle ==> !Noted(s, events).touched
  {
    if events != [] {
      TidyLeavesNothing(s, events[..|events| - 1]);
      RunAgrees(s, events[..|events| - 1]);
    }
  }

  /** So in tidy histories the tree is clean at every loop head and every committed mask has its directory. */
  lemma TidyHistoriesStayClean(s: System, events: seq<Event>)
    requires Fresh(s) && forall i | 0 <= i < |events| :: Tidy(events[i])
    ensures var done := Run(s, events);
            && (done.phase.Head? ==> IsClean(done.repo))
            && done.repo.head.replace <= done.repo.headDirs
  {
    TidyLeavesNothing(s, events);
    CleanAtLoopHead(s, events);
    MasksHaveDirectoriesExactly(s, events);
  }

  const EMPTY_TREE := Tree({}, 0, {})

  const EMPTY_REPO := System(Repo(EMPTY_TREE, {}, EMPTY_TREE, {}, false), Idle, [], [], {})

  /** A mask that fails after Cargo.toml was written is committed with the next one, without its directory. */
  lemma LeftoverEntryIsCommitted(a: Dep, b: Dep)
    requires a != b
    ensures var done := Run(EMPTY_REPO, [Start([a, b], false, 0), MaskFails(true, true), Mark]
                                        + [MaskOk, BuildOk(1), AddPolicy(false), GitCommit]);
            Fresh(EMPTY_REPO) && a in done.repo.head.replace && a !in done.repo.headDirs
  {
    var first := [Start([a, b], false, 0), MaskFails(true, true), Mark];
    var second := [MaskOk, BuildOk(1), AddPolicy(false), GitCommit];
    RunAppend(EMPTY_REPO, first, second);
    FailedMaskRun(a, b);
    NextMaskRun(Run(EMPTY_REPO, first), a, b);
  }

  lemma {:induction false} RunAppend(s: System, first: seq<Event>, second: seq<Event>)
    ensures Run(s, first + second) == Run(Run(s, first), second)
    decreases |second|
  {
    if second == [] {
      assert first + second == first;
    } else {
      assert (first + second)[..|first + second| - 1] == first + second[..|second| - 1];
      RunAppend(s, first, second[..|second| - 1]);
    }
  }

  lemma QueueOfTwo(s: System, a: Dep, b: Dep)
    requires a !in s.repo.work.replace && b !in s.repo.work.replace
    ensures Limited(Remaining(s, [a, b], false), 0) == [a, b]
  {
    assert [a, b][1..] == [b] && [b][1..] == [];
    assert Remaining(s, [b], false) == [b] + Remaining(s, [], false) == [b];
    assert Remaining(s, [a, b], false) == [a] + Remaining(s, [b], false);
  }

  lemma FailedMaskRun(a: Dep, b: Dep)
    ensures var s := Run(EMPTY_REPO, [Start([a, b], false, 0), MaskFails(true, true), Mark]);
            s.phase == Head([b]) && s.repo == Repo(EMPTY_TREE, {}, Tree({a}, 0, {}), {a}, false)
  {
    var events := [Start([a, b], false, 0), MaskFails(true, true), Mark];
    QueueOfTwo(EMPTY_REPO, a, b);
    assert [a, b][1..] == [b];
    var s1 := Step(EMPTY_REPO, events[0]);
    var s2 := Step(s1, events[1]);
    RunOf(EMPTY_REPO, events, [EMPTY_REPO, s1, s2, Step(s2, events[2])], 3);
    assert events[..3] == events;
  }

  lemma NextMaskRun(s: System, a: Dep, b: Dep)
    requires a != b && s.phase == Head([b]) && s.repo == Repo(EMPTY_TREE, {}, Tree({a}, 0, {}), {a}, false)
    ensures var done := Run(s, [MaskOk, BuildOk(1), AddPolicy(false), GitCommit]);
            a in done.repo.head.replace && a !in done.repo.headDirs
  {
    var events := [MaskOk, BuildOk(1), AddPolicy(false), GitCommit];
    var s1 := Step(s, events[0]);
    var s2 := Step(s1, events[1]);
    var s3 := Step(s2, events[2]);
    RunOf(s, events, [s, s1, s2, s3, Step(s3, events[3])], 4);
    assert events[..4] == events;
  }

  /** A run followed state by state. */
  lemma {:induction false} RunOf(s: System, events: seq<Event>, states: seq<System>, n: nat)
    requires |states| == |events| + 1 && states[0] == s && n <= |events|
    requires forall i | 0 <= i < |events| :: states[i + 1] == Step(states[i], events[i])
    ensures Run(s, events[..n]) == states[n]
  {
    if n > 0 {
      RunOf(s, events, states, n - 1);
      assert events[..n][..n - 1] == events[..n - 1];
    }
  }

  // -- Crashes ----------------------------------------------------------------------------------------

  /**
   A crash between the masking of a dependency and its commit or restoration is noticed, in every
   history: the next run refuses to start.
   */
  lemma CrashInsideIsRefused(s: System, events: seq<Event>, all: seq<Dep>, resume: bool, limit: nat)
    requires Fresh(s)
    ensures var crashed := Step(Run(s, events), Crash);
            Current(Run(s, events).phase).Some? ==>
              !IsClean(crashed.repo) && Step(crashed, Start(all, resume, limit)) == crashed
  {
    RunAgrees(s, events);
  }

  /**
   After a crash elsewhere the next run starts, from a tree equal to the last commit, if and only
   if no leftover entry is pending and vet has touched no other file.
   */
  lemma CrashBetweenIsHarmlessExactly(s: System, events: seq<Event>, all: seq<Dep>, resume: bool, limit: nat)
    requires Fresh(s)
    ensures var crashed := Step(Run(s, events), Crash);
            var t := Noted(s, events);
            Run(s, events).phase.Head? || Run(s, events).phase.Marking? ==>
              && (IsClean(crashed.repo) <==> t.left == {} && !t.touched)
              && (Step(crashed, Start(all, resume, limit)).phase.Head? <==> t.left == {} && !t.touched)
  {
    RunAgrees(s, events);
  }

  /** A directory left behind keeps its dependency from ever being masked by the tool: every attempt fails. */
  lemma {:induction false} LeftoverDirBlocksMask(s: System, d: Dep, later: seq<Event>)
    requires Current(s.phase) != Some(d) && d in s.repo.dirs && d !in s.repo.headDirs
    ensures Blocked(Run(s, later), d)
  {
    if later != [] { LeftoverDirBlocksMask(s, d, later[..|later| - 1]); }
  }

  /** The directory is there, uncommitted, the dependency is not worked on, and masking it does nothing. */
  predicate Blocked(s: System, d: Dep) {
    && d in s.repo.dirs && d !in s.repo.headDirs && Current(s.phase) != Some(d)
    && (s.phase.Head? && s.phase.queue != [] && s.phase.queue[0] == d ==> Step(s, MaskOk) == s)
  }

  /**
   After a crash inside a dependency its directory is on disk, exactly unless it had just been
   removed; and then, whatever happens later, restoring the tracked files included, the
   dependency is never masked again.
   */
  lemma CrashBlocksMask(s: System, events: seq<Event>, d: Dep, later: seq<Event>)
    requires Fresh(s)
    ensures var before := Run(s, events);
            Current(before.phase) == Some(d) ==>
              && (d in Step(before, Crash).repo.dirs <==> !before.phase.DirRemoved?)
              && (!before.phase.DirRemoved? ==> Blocked(Run(s, events + [Crash] + later), d))
  {
    RunKeepsInvariant(s, events);
    var before := Run(s, events);
    if Current(before.phase) == Some(d) && !before.phase.DirRemoved? {
      RunAppend(s, events + [Crash], later);
      RunAppend(s, events, [Crash]);
      RunOne(before, Crash);
      LeftoverDirBlocksMask(Step(before, Crash), d, later);
    }
  }

  /**
   A crash while the masking script runs, when it has made the directory but not yet written
   Cargo.toml, is not noticed: the tree is as clean as before, so the next run starts, and the
   dependency, which has no verdict, is never masked again.
   */
  lemma CrashInMaskScriptIsNotNoticed(
    s: System, events: seq<Event>, later: seq<Event>, all: seq<Dep>, resume: bool, limit: nat)
    requires Fresh(s)
    ensures var before := Run(s, events);
            var crashed := Run(s, events + [MaskFails(true, false), Crash]);
            before.phase.Head? && before.phase.queue != [] && before.phase.queue[0] !in before.repo.dirs ==>
              && (IsClean(crashed.repo) <==> IsClean(before.repo))
              && (IsClean(before.repo) ==> Step(crashed, Start(all, resume, limit)).phase.Head?)
              && crashed.processed == before.processed
              && Blocked(Run(s, events + [MaskFails(true, false), Crash] + later), before.phase.queue[0])
  {
    RunKeepsInvariant(s, events);
    var before := Run(s, events);
    RunAppend(s, events, [MaskFails(true, false), Crash]);
    RunTwo(before, MaskFails(true, false), Crash);
    RunAppend(s, events + [MaskFails(true, false), Crash], later);
    if before.phase.Head? && before.phase.queue != [] && before.phase.queue[0] !in before.repo.dirs {
      LeftoverDirBlocksMask(Run(s, events + [MaskFails(true, false), Crash]), before.phase.queue[0], later);
    }
  }

  /** Nothing that was recorded or committed is ever forgotten, not by a crash either. */
  lemma {:induction false} RecordsOnlyGrow(s: System, events: seq<Event>)
    ensures s.processed <= Run(s, events).processed && s.commits <= Run(s, events).commits
    ensures s.builds <= Run(s, events).builds
  {
    if events != [] { RecordsOnlyGrow(s, events[..|events| - 1]); }
  }

  /** Once the user restores the tracked files the next run starts; directories that are not tracked stay. */
  lemma CleaningUpHelps(s: System, all: seq<Dep>, resume: bool, limit: nat)
    requires s.phase == Idle
    ensures var cleaned := Step(s, UserCleans);
            && cleaned.repo.head == s.repo.head && cleaned.repo.dirs == s.repo.dirs + s.repo.headDirs
            && Step(cleaned, Start(all, resume, limit)).phase.Head?
  {
  }

  lemma {:induction false} RemainingAppend(s: System, all: seq<Dep>, more: seq<Dep>, resume: bool)
    ensures Remaining(s, all + more, resume) == Remaining(s, all, resume) + Remaining(s, more, resume)
  {
    if all == [] {
      assert all + more == more;
    } else {
      assert (all + more)[1..] == all[1..] + more;
      RemainingAppend(s, all[1..], more, resume);
    }
  }

  /**
   What a run offers: the dependencies left, in the order of the list and as often as they are in
   it, but no more than the limit, where there is one.
   */
  lemma StartOffers(s: System, all: seq<Dep>, resume: bool, limit: nat, i: nat)
    requires s.phase == Idle && IsClean(s.repo) && i < |all|
    ensures var queue := Step(s, Start(all, resume, limit)).phase.queue;
            var left, before := Remaining(s, all, resume), Remaining(s, all[..i], resume);
            && queue <= left && |queue| == (if 0 < limit < |left| then limit else |left|)
            && before <= left
            && (all[i] in s.repo.head.replace || (resume && IsProcessed(s.processed, all[i])) ||
                (|before| < |left| && left[|before|] == all[i]))
  {
    var queue := Step(s, Start(all, resume, limit)).phase.queue;
    assert all == all[..i] + all[i..] && all[i..][0] == all[i];
    RemainingAppend(s, all[..i], all[i..], resume);
  }

  /** A resumed run offers no dependency that was processed or is masked already. */
  lemma ResumeSkipsProcessed(s: System, all: seq<Dep>, limit: nat)
    requires s.phase == Idle && IsClean(s.repo)
    ensures var started := Step(s, Start(all, true, limit));
            started.phase.Head? &&
            forall d | d in started.phase.queue :: !IsProcessed(s.processed, d) && d !in s.repo.head.replace
  {
  }

  // -- The loop -------------------------------------------------------------------------------------

  /** How masking, building, asking and committing turn out for one dependency. */
  datatype Fate = Fate(
    masks: bool, leavesDir: bool, leavesEntry: bool, builds: bool, lock: int, declined: bool, vetTouchesMore: bool)

  /** The steps of one turn of the loop, from its head back to its head. */
  function Turn(s: System, fate: Fate): seq<Event>
    requires s.phase.Head? && s.phase.queue != []
  {
    if !fate.masks || s.phase.queue[0] in s.repo.dirs then [MaskFails(fate.leavesDir, fate.leavesEntry), Mark]
    else if !fate.builds then [MaskOk, BuildFails(fate.lock)] + [RemoveDir, GitRestore, Mark]
    else if fate.declined then [MaskOk, BuildOk(fate.lock)] + ([Declined] + [RemoveDir, GitRestore, Mark])
    else [MaskOk, BuildOk(fate.lock)] + [AddPolicy(fate.vetTouchesMore), GitCommit, Mark]
  }

  function VerdictOf(s: System, fate: Fate): Verdict
    requires s.phase.Head? && s.phase.queue != []
  {
    if !fate.masks || s.phase.queue[0] in s.repo.dirs then Failed
    else if !fate.builds || fate.declined then Kept
    else Removed
  }

  /** Takes the mask out again: the directory first, then the tracked files. */
  method RevertMask(s: System) returns (t: System)
    requires s.phase.Reverting?
    ensures t == Run(s, [RemoveDir, GitRestore, Mark])
    ensures t.phase == Head(s.phase.rest) && t.processed == s.processed + [(s.phase.dep, Kept)]
    ensures t.repo.dirs == s.repo.dirs - {s.phase.dep} && t.repo.headDirs == s.repo.headDirs
    ensures t.repo.head == s.repo.head
    ensures t.repo.work == s.repo.work.(replace := s.repo.head.replace, lock := s.repo.head.lock)
  {
    RunThree(s, RemoveDir, GitRestore, Mark);
    t := Step(s, RemoveDir);
    t := Step(t, GitRestore);
    t := Step(t, Mark);
  }

  method CommitMask(s: System, vetTouchesMore: bool) returns (t: System)
    requires s.phase.Built?
    ensures t == Run(s, [AddPolicy(vetTouchesMore), GitCommit, Mark])
    ensures t.phase == Head(s.phase.rest) && t.processed == s.processed + [(s.phase.dep, Removed)]
    ensures t.repo.head == t.repo.work == s.repo.work.(policy := s.repo.work.policy + {s.phase.dep})
    ensures t.repo.dirs == s.repo.dirs && t.repo.headDirs == s.repo.headDirs + {s.phase.dep}
    ensures t.commits == s.commits + [Commit(s.phase.dep, s.repo.work.replace)]
  {
    RunThree(s, AddPolicy(vetTouchesMore), GitCommit, Mark);
    t := Step(s, AddPolicy(vetTouchesMore));
    t := Step(t, GitCommit);
    t := Step(t, Mark);
  }

  /**
   What a turn leaves of the repository. A removed dependency is committed: its mask, its directory
   and its policy. One that is kept leaves no trace, and one whose mask failed no commit.
   */
  predicate Leaves(before: Repo, d: Dep, verdict: Verdict, lock: int, after: Repo) {
    match verdict
    case Removed =>
      && after.head == after.work == Tree(before.work.replace + {d}, lock, before.work.policy + {d})
      && after.headDirs == before.headDirs + {d} && after.dirs == before.dirs + {d}
    case Kept =>
      && after.head == before.head && after.headDirs == before.headDirs && after.dirs == before.dirs
      && after.work == before.work.(replace := before.head.replace, lock := before.head.lock)
    case Failed =>
      && after.head == before.head && after.headDirs == before.headDirs
      && before.dirs <= after.dirs <= before.dirs + {d}
      && before.work.replace <= after.work.replace <= before.work.replace + {d}
      && after.work == before.work.(replace := after.work.replace)
  }

  /** One turn of the loop over the dependencies. */
  method ProcessNext(s: System, fate: Fate) returns (t: System)
    requires s.phase.Head? && s.phase.queue != []
    ensures t == Run(s, Turn(s, fate))
    ensures t.phase == Head(s.phase.queue[1..])
    ensures t.processed == s.processed + [(s.phase.queue[0], VerdictOf(s, fate))]
    ensures Leaves(s.repo, s.phase.queue[0], VerdictOf(s, fate), fate.lock, t.repo)
  {
    if !fate.masks || s.phase.queue[0] in s.repo.dirs {
      RunTwo(s, MaskFails(fate.leavesDir, fate.leavesEntry), Mark);
      t := Step(s, MaskFails(fate.leavesDir, fate.leavesEntry));
      t := Step(t, Mark);
      return;
    }
    ghost var build := if fate.builds then BuildOk(fate.lock) else BuildFails(fate.lock);
    RunTwo(s, MaskOk, build);
    RunAppend(s, [MaskOk, build],
              if fate.builds && !fate.declined then [AddPolicy(fate.vetTouchesMore), GitCommit, Mark]
              else if fate.builds then [Declined] + [RemoveDir, GitRestore, Mark]
              else [RemoveDir, GitRestore, Mark]);
    t := Step(s, MaskOk);
    if fate.builds {
      t := Step(t, BuildOk(fate.lock));
      if !fate.declined {
        t := CommitMask(t, fate.vetTouchesMore);
        return;
      }
      RunOne(t, Declined);
      RunAppend(t, [Declined], [RemoveDir, GitRestore, Mark]);
      t := Step(t, Declined);
    } else {
      t := Step(t, BuildFails(fate.lock));
    }
    t := RevertMask(t);
  }

  lemma RunThree(s: System, e: Event, e': Event, e'': Event)
    ensures Run(s, [e, e', e'']) == Step(Step(Step(s, e), e'), e'')
  {
    RunTwo(s, e, e');
    assert [e, e', e''][..2] == [e, e'];
  }

  lemma RunOne(s: System, e: Event)
    ensures Run(s, [e]) == Step(s, e)
  {
    assert [e][..0] == [];
  }

  lemma RunTwo(s: System, e: Event, e': Event)
    ensures Run(s, [e, e']) == Step(Step(s, e), e')
  {
    RunOne(s, e);
    assert [e, e'][..1] == [e];
  }

  predicate SameDeps(processed: seq<(Dep, Verdict)>, deps: seq<Dep>) {
    |processed| == |deps| && forall i | 0 <= i < |deps| :: processed[i].0 == deps[i]
  }

  lemma OneMoreProcessed(before: seq<(Dep, Verdict)>, next: (Dep, Verdict), n: nat, deps: seq<Dep>, i: nat)
    requires n <= |before| && i < |deps| && SameDeps(before[n..], deps[..i]) && next.0 == deps[i]
    ensures SameDeps((before + [next])[n..], deps[..i + 1])
  {
    assert (before + [next])[n..] == before[n..] + [next];
  }

  /** The whole loop gives every dependency of the queue exactly one verdict, in order. */
  method ProcessAll(s: System, fates: seq<Fate>) returns (t: System, ghost events: seq<Event>)
    requires s.phase.Head? && |fates| == |s.phase.queue|
    ensures t == Run(s, events) && t.phase == Head([])
    ensures |t.processed| == |s.processed| + |s.phase.queue| && s.processed <= t.processed
    ensures SameDeps(t.processed[|s.processed|..], s.phase.queue)
  {
    t := s;
    events := [];
    var n := |s.processed|;
    for i := 0 to |fates|
      invariant t == Run(s, events) && t.phase == Head(s.phase.queue[i..])
      invariant |t.processed| == n + i && s.processed <= t.processed
      invariant SameDeps(t.processed[n..], s.phase.queue[..i])
    {
      RunAppend(s, events, Turn(t, fates[i]));
      events := events + Turn(t, fates[i]);
      OneMoreProcessed(t.processed, (s.phase.queue[i], VerdictOf(t, fates[i])), n, s.phase.queue, i);
      t := ProcessNext(t, fates[i]);
    }
    assert s.phase.queue[..|fates|] == s.phase.queue;
  }

  // -- The state file -----------------------------------------------------------------------------------

  function ResultName(verdict: Verdict): string {
    match verdict
    case Removed => "removed"
    case Kept => "kept"
    case Failed => "error"
  }

  function CountOf(processed: seq<(Dep, Verdict)>, verdict: Verdict): nat {
    if processed == [] then 0
    else CountOf(processed[..|processed| - 1], verdict) + (if processed[|processed| - 1].1 == verdict then 1 else 0)
  }

  function Get(stats: map<string, nat>, key: string): nat {
    if key in stats then stats[key] else 0
  }

  const NEW_STATS: map<string, nat> := map["removed" := 0, "kept" := 0, "errors" := 0]

  /** The counters after the dependencies processed so far. */
  predicate Counts(stats: map<string, nat>, processed: seq<(Dep, Verdict)>) {
    && Get(stats, "removed") == CountOf(processed, Removed)
    && Get(stats, "kept") == CountOf(processed, Kept)
    && Get(stats, "error") == CountOf(processed, Failed)
    && Get(stats, "errors") == 0
  }

  lemma ResultNamesDiffer()
    ensures "removed" != "kept" && "removed" != "error" && "kept" != "error"
    ensures "errors" != "removed" && "errors" != "kept" && "errors" != "error"
  {
    assert |"removed"| == 7 && |"kept"| == 4 && |"error"| == 5 && |"errors"| == 6;
  }

  lemma CountsStep(stats: map<string, nat>, processed: seq<(Dep, Verdict)>, dep: Dep, verdict: Verdict)
    requires Counts(stats, processed)
    ensures var result := ResultName(verdict);
            Counts(stats[result := Get(stats, result) + 1], processed + [(dep, verdict)])
  {
    ResultNamesDiffer();
    assert (processed + [(dep, verdict)])[..|processed|] == processed;
  }

  class StateManager {
    var processed: seq<(Dep, Verdict)>
    var stats: map<string, nat>

    ghost predicate Valid()
      reads this
    {
      Counts(stats, processed)
    }

    constructor ()
      ensures Valid() && processed == []
    {
      processed := [];
      stats := NEW_STATS;
    }

    method MarkCompleted(dep: Dep, verdict: Verdict)
      requires Valid()
      modifies this
      ensures Valid() && processed == old(processed) + [(dep, verdict)]
    {
      processed := processed + [(dep, verdict)];
      var result := ResultName(verdict);
      stats := stats[result := Get(stats, result) + 1];
      CountsStep(old(stats), old(processed), dep, verdict);
    }

    /**
     The summary counts what was removed and kept; failures are counted under another name than
     the one printed, so their line always shows zero.
     */
    method Summary() returns (removed: nat, kept: nat, errors: nat)
      requires Valid()
      ensures removed == CountOf(processed, Removed) && kept == CountOf(processed, Kept) && errors == 0
      ensures removed + kept + CountOf(processed, Failed) == |processed|
    {
      CountsAddUp(processed);
      removed := Get(stats, "removed");
      kept := Get(stats, "kept");
      errors := Get(stats, "errors");
    }
  }

  lemma {:induction false} CountsAddUp(processed: seq<(Dep, Verdict)>)
    ensures CountOf(processed, Removed) + CountOf(processed, Kept) + CountOf(processed, Failed) == |processed|
  {
    if processed != [] { CountsAddUp(processed[..|processed| - 1]); }
  }
}

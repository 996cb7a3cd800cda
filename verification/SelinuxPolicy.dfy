/**
 Applying audit denials to an SELinux policy, on the policy's tokens: merging into an existing
 rule, adding to an existing optional block, or writing new blocks and rules.
 */
module SelinuxPolicy {
  import opened Text
  import opened Sorting
  import opened Braces

  const HIMMELBLAU_DOMAINS: set<string> := {"himmelblaud_t", "himmelblaud_tasks_t"}

  const HIMMELBLAU_TYPES: set<string> := {
    "himmelblaud_t", "himmelblaud_tasks_t", "himmelblaud_exec_t", "himmelblaud_tasks_exec_t", "himmelblau_etc_t",
    "himmelblau_var_run_t", "himmelblau_var_cache_t", "himmelblau_nss_cache_t", "himmelblau_var_lib_t"}

  datatype Key = Key(source: string, target: string, class_: string)

  /**
   A policy is a sequence of tokens. `Rule` is any text of the form `allow ... }`; it `grants`
   unless it stands in a comment or belongs to another kind of rule, such as `neverallow`, and it
   is `closed` if its semicolon follows the brace directly: only then is it merged into.
   `Open(true, types)` is `optional {` with the types its `require` block lists. `placed` marks the
   rules written by this program.
   */
  datatype Token =
    | Rule(grants: bool, key: Key, perms: set<string>, placed: bool, closed: bool)
    | Open(optional: bool, required: seq<string>)
    | Close
    | Other

  datatype Denial = Denial(key: Key, perms: set<string>)

  type Policy = seq<Token>

  function Weight(t: Token): int {
    if t.Open? then 1 else if t.Close? then -1 else 0
  }

  function Weights(policy: Policy): (w: seq<int>)
    ensures |w| == |policy| && Steps(w)
  {
    seq(|policy|, i requires 0 <= i < |policy| => Weight(policy[i]))
  }

  predicate WellNested(policy: Policy) {
    Balanced(Weights(policy))
  }

  // -- Searching ---------------------------------------------------------------------------

  predicate IsRuleFor(t: Token, key: Key) {
    t.Rule? && t.key == key
  }

  /** A rule the search for merging finds. */
  predicate IsFound(t: Token, key: Key) {
    IsRuleFor(t, key) && t.closed
  }

  /** The first rule found for a key, the length when there is none. */
  function FindRule(policy: Policy, key: Key): (i: nat)
    ensures i <= |policy|
    ensures forall j | 0 <= j < i :: !IsFound(policy[j], key)
    ensures i < |policy| ==> IsFound(policy[i], key)
  {
    if policy == [] || IsFound(policy[0], key) then 0 else 1 + FindRule(policy[1..], key)
  }

  /** A block that requires the type before any other. */
  predicate IsBlockFor(t: Token, name: string) {
    t.Open? && t.optional && t.required != [] && t.required[0] == name
  }

  function FindBlock(policy: Policy, name: string): (i: nat)
    ensures i <= |policy|
    ensures i < |policy| ==> IsBlockFor(policy[i], name)
    ensures forall j | 0 <= j < i :: !IsBlockFor(policy[j], name)
  {
    if policy == [] || IsBlockFor(policy[0], name) then 0 else 1 + FindBlock(policy[1..], name)
  }

  /** The position behind the close that brings the count of open blocks to zero. */
  function ScanEnd(w: seq<int>, start: nat, i: nat, count: int): (end: Option<nat>)
    requires start <= i <= |w| && count == Sum(w[start..i])
    requires forall n | start < n <= i :: !ClosesAt(w, start, n)
    ensures end.Some? ==> IsBlockEnd(w, start, end.value)
    ensures end.None? ==> forall n | start < n <= |w| :: !ClosesAt(w, start, n)
    decreases |w| - i
  {
    if i == |w| then None
    else
      SliceStep(w, start, i);
      if w[i] == -1 && count - 1 == 0 then Some(i + 1)
      else ScanEnd(w, start, i + 1, count + w[i])
  }

  function BlockEnd(policy: Policy, start: nat): (end: Option<nat>)
    requires start <= |policy|
    ensures end.Some? ==> IsBlockEnd(Weights(policy), start, end.value)
    ensures end.None? ==> forall n | start < n <= |policy| :: !ClosesAt(Weights(policy), start, n)
  {
    ScanEnd(Weights(policy), start, start, 0)
  }

  /** Where a rule goes in a block: before its closing brace, or before the block if it is never closed. */
  function PlaceInBlock(policy: Policy, start: nat): (p: nat)
    requires start <= |policy|
    ensures p <= |policy|
  {
    match BlockEnd(policy, start)
    case None => start
    case Some(end) => end - 1
  }

  predicate OpensOptional(t: Token) {
    t.Open? && t.optional
  }

  /** The furthest end of any optional block among the first `n` tokens, zero when there is none. */
  function LastOptionalEnd(policy: Policy, n: nat): (end: nat)
    requires n <= |policy|
    ensures end <= |policy|
    ensures end > 0 ==> exists j | 0 <= j < n :: OpensOptional(policy[j]) && BlockEnd(policy, j) == Some(end)
    ensures forall j | 0 <= j < n && OpensOptional(policy[j]) && BlockEnd(policy, j).Some? ::
              BlockEnd(policy, j).value <= end
  {
    if n == 0 then 0
    else
      var earlier := LastOptionalEnd(policy, n - 1);
      if OpensOptional(policy[n - 1]) then
        match BlockEnd(policy, n - 1)
        case None => earlier
        case Some(end) => if end > earlier then end else earlier
      else earlier
  }

  // -- Applying -----------------------------------------------------------------------------

  /** The policy so far, the rules waiting for a new block of a type, and the rules to append. */
  datatype Work = Work(policy: Policy, blockRules: seq<(string, Token)>, appended: seq<Token>)

  function NewRule(d: Denial): Token {
    Rule(true, d.key, d.perms, true, true)
  }

  function InsertTokens(policy: Policy, p: nat, r: seq<Token>): Policy
    requires p <= |policy|
  {
    policy[..p] + r + policy[p..]
  }

  function Merged(policy: Policy, i: nat, perms: set<string>): Policy
    requires i < |policy| && policy[i].Rule?
  {
    policy[i := policy[i].(perms := policy[i].perms + perms)]
  }

  function ApplyDenial(work: Work, d: Denial): Work {
    var i := FindRule(work.policy, d.key);
    if i < |work.policy| then
      work.(policy := Merged(work.policy, i, d.perms))
    else if d.key.source in HIMMELBLAU_DOMAINS then
      if d.key.target !in HIMMELBLAU_TYPES
      then work.(blockRules := work.blockRules + [(d.key.target, NewRule(d))])
      else work.(appended := work.appended + [NewRule(d)])
    else
      var start := FindBlock(work.policy, d.key.source);
      if start < |work.policy|
      then work.(policy := InsertTokens(work.policy, PlaceInBlock(work.policy, start), [NewRule(d)]))
      else work.(blockRules := work.blockRules + [(d.key.source, NewRule(d))])
  }

  function ApplyDenials(work: Work, denials: seq<Denial>): Work {
    if denials == [] then work
    else ApplyDenial(ApplyDenials(work, denials[..|denials| - 1]), denials[|denials| - 1])
  }

  /** The types that need a new block, each once. */
  function BlockTypes(blockRules: seq<(string, Token)>): seq<string> {
    if blockRules == [] then []
    else
      var types := BlockTypes(blockRules[..|blockRules| - 1]);
      var name := blockRules[|blockRules| - 1].0;
      if name in types then types else types + [name]
  }

  function RulesOf(blockRules: seq<(string, Token)>, name: string): seq<Token> {
    if blockRules == [] then []
    else
      RulesOf(blockRules[..|blockRules| - 1], name) +
      (if blockRules[|blockRules| - 1].0 == name then [blockRules[|blockRules| - 1].1] else [])
  }

  function NewBlock(name: string, rules: seq<Token>): seq<Token> {
    [Open(true, [name])] + rules + [Close]
  }

  function NewBlocks(types: seq<string>, blockRules: seq<(string, Token)>): seq<Token> {
    if types == [] then []
    else NewBlock(types[0], RulesOf(blockRules, types[0])) + NewBlocks(types[1..], blockRules)
  }

  function Min(a: nat, b: nat): nat {
    if a <= b then a else b
  }

  /** New blocks go behind the last optional block; `place` is where they go when there is none. */
  function PlaceForBlocks(policy: Policy, place: nat): (p: nat)
    ensures p <= |policy|
  {
    var last := LastOptionalEnd(policy, |policy|);
    if last > 0 then last else Min(place, |policy|)
  }

  function AddedBlocks(work: Work): seq<Token> {
    NewBlocks(Sort(BlockTypes(work.blockRules)), work.blockRules)
  }

  function WithBlocks(work: Work, place: nat): Policy {
    if work.blockRules == [] then work.policy
    else InsertTokens(work.policy, PlaceForBlocks(work.policy, place), AddedBlocks(work))
  }

  function Finished(work: Work, place: nat, place': nat): Policy {
    var policy := WithBlocks(work, place);
    if work.appended == [] then policy
    else InsertTokens(policy, Min(place', |policy|), work.appended)
  }

  /** The policy written back. The two places are those of the general insertion point. */
  function ApplyRules(policy: Policy, denials: seq<Denial>, place: nat, place': nat): Policy {
    Finished(ApplyDenials(Work(policy, [], []), denials), place, place')
  }

  /** The loop over the denials. */
  method ApplyRulesToPolicy(policy: Policy, denials: seq<Denial>, place: nat, place': nat) returns (updated: Policy)
    ensures updated == ApplyRules(policy, denials, place, place')
  {
    updated := policy;
    var blockRules: seq<(string, Token)> := [];
    var appended: seq<Token> := [];
    var n := 0;
    while n < |denials|
      invariant 0 <= n <= |denials|
      invariant Work(updated, blockRules, appended) == ApplyDenials(Work(policy, [], []), denials[..n])
    {
      var d := denials[n];
      assert denials[..n + 1][..n] == denials[..n];
      n := n + 1;
      var i := FindRule(updated, d.key);
      if i < |updated| {
        updated := Merged(updated, i, d.perms);
        continue;
      }
      if d.key.source in HIMMELBLAU_DOMAINS {
        if d.key.target !in HIMMELBLAU_TYPES {
          blockRules := blockRules + [(d.key.target, NewRule(d))];
        } else {
          appended := appended + [NewRule(d)];
        }
        continue;
      }
      var start := FindBlock(updated, d.key.source);
      if start < |updated| {
        var p := PlaceInBlock(updated, start);
        updated := updated[..p] + [NewRule(d)] + updated[p..];
        continue;
      }
      blockRules := blockRules + [(d.key.source, NewRule(d))];
    }
    assert denials[..n] == denials;
    updated := Finished(Work(updated, blockRules, appended), place, place');
  }

  // -- Processing an audit log --------------------------------------------------------------

  /** Permissions some rule for the key already lists, closed or not. */
  function Existing(policy: Policy, key: Key): set<string> {
    if policy == [] then {}
    else (if IsRuleFor(policy[0], key) then policy[0].perms else {}) + Existing(policy[1..], key)
  }

  datatype Category = Outbound | Inbound | Internal | Unrelated

  function CategoryOf(d: Denial): Category {
    if d.key.source in HIMMELBLAU_DOMAINS && d.key.target in HIMMELBLAU_TYPES then Internal
    else if d.key.source in HIMMELBLAU_DOMAINS then Outbound
    else if d.key.target in HIMMELBLAU_TYPES then Inbound
    else Unrelated
  }

  function Select(denials: seq<Denial>, category: Category): seq<Denial> {
    if denials == [] then []
    else
      Select(denials[..|denials| - 1], category) +
      (if CategoryOf(denials[|denials| - 1]) == category then [denials[|denials| - 1]] else [])
  }

  /** What is left of a denial after the permissions already listed. */
  function Needed(policy: Policy, d: Denial): seq<Denial> {
    var existing := Existing(policy, d.key);
    if existing == {} then [d]
    else if d.perms - existing != {} then [Denial(d.key, d.perms - existing)]
    else []
  }

  function AllNeeded(policy: Policy, denials: seq<Denial>): seq<Denial> {
    if denials == [] then []
    else AllNeeded(policy, denials[..|denials| - 1]) + Needed(policy, denials[|denials| - 1])
  }

  /** The denials by category; the unrelated ones are set aside. */
  function Relevant(denials: seq<Denial>): seq<Denial> {
    Select(denials, Outbound) + Select(denials, Inbound) + Select(denials, Internal)
  }

  function Process(policy: Policy, denials: seq<Denial>, place: nat, place': nat): Policy {
    var rules := AllNeeded(policy, Relevant(denials));
    if rules == [] then policy else ApplyRules(policy, rules, place, place')
  }

  method ProcessAuditLog(policy: Policy, denials: seq<Denial>, place: nat, place': nat) returns (updated: Policy)
    ensures updated == Process(policy, denials, place, place')
  {
    var relevant := Relevant(denials);
    var rules: seq<Denial> := [];
    var i := 0;
    while i < |relevant|
      invariant 0 <= i <= |relevant|
      invariant rules == AllNeeded(policy, relevant[..i])
    {
      var d := relevant[i];
      assert relevant[..i + 1][..i] == relevant[..i];
      var existing := Existing(policy, d.key);
      var missing := d.perms - existing;
      if existing != {} {
        if missing != {} {
          rules := rules + [Denial(d.key, missing)];
        }
      } else {
        rules := rules + [d];
      }
      i := i + 1;
    }
    assert relevant[..i] == relevant;
    updated := policy;
    if rules != [] {
      updated := ApplyRulesToPolicy(policy, rules, place, place');
    }
  }
}

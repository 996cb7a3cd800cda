/**
 What applying denials does to a policy: exactly the denied permissions are granted, braces stay
 nested, and rules about foreign types stand in blocks that require those types.
 */
module SelinuxTheorems {
  import opened Text
  import opened Sorting
  import opened Braces
  import opened SelinuxPolicy

  // -- The permissions a policy grants -------------------------------------------------------

  /** A rule for the key lists the permission; unless `any`, the rule has to be one that grants. */
  predicate TokenLists(t: Token, key: Key, perm: string, any: bool) {
    IsRuleFor(t, key) && (t.grants || any) && perm in t.perms
  }

  ghost predicate Lists(tokens: seq<Token>, key: Key, perm: string, any: bool) {
    exists t :: t in tokens && TokenLists(t, key, perm, any)
  }

  /** The policy grants the permission. */
  ghost predicate Grants(policy: Policy, key: Key, perm: string) {
    Lists(policy, key, perm, false)
  }

  /** The policy names the permission in some rule, whether that rule grants or not. */
  ghost predicate Names(policy: Policy, key: Key, perm: string) {
    Lists(policy, key, perm, true)
  }

  ghost predicate Pending(work: Work, key: Key, perm: string, any: bool) {
    || Lists(work.appended, key, perm, any)
    || exists r :: r in work.blockRules && TokenLists(r.1, key, perm, any)
  }

  ghost predicate WorkLists(work: Work, key: Key, perm: string, any: bool) {
    Lists(work.policy, key, perm, any) || Pending(work, key, perm, any)
  }

  predicate Denied(denials: seq<Denial>, key: Key, perm: string) {
    exists i | 0 <= i < |denials| :: denials[i].key == key && perm in denials[i].perms
  }

  /** The first rule found for the key, if there is one, really grants. */
  predicate Effective(policy: Policy, key: Key) {
    var i := FindRule(policy, key);
    i < |policy| ==> policy[i].grants
  }

  predicate HasRule(policy: Policy, key: Key) {
    FindRule(policy, key) < |policy|
  }

  lemma ListsAppend(a: seq<Token>, b: seq<Token>, key: Key, perm: string, any: bool)
    ensures Lists(a + b, key, perm, any) <==> Lists(a, key, perm, any) || Lists(b, key, perm, any)
  {
  }

  lemma ListsOne(t: Token, key: Key, perm: string, any: bool)
    ensures Lists([t], key, perm, any) <==> TokenLists(t, key, perm, any)
  {
    assert t in [t];
  }

  lemma ListsInsert(policy: Policy, p: nat, r: seq<Token>, key: Key, perm: string, any: bool)
    requires p <= |policy|
    ensures Lists(InsertTokens(policy, p, r), key, perm, any) <==>
            Lists(policy, key, perm, any) || Lists(r, key, perm, any)
  {
    assert policy == policy[..p] + policy[p..];
    ListsAppend(policy[..p], policy[p..], key, perm, any);
    ListsAppend(policy[..p], r, key, perm, any);
    ListsAppend(policy[..p] + r, policy[p..], key, perm, any);
  }

  lemma ListsMerged(policy: Policy, i: nat, perms: set<string>, key: Key, perm: string, any: bool)
    requires i < |policy| && policy[i].Rule?
    ensures Lists(Merged(policy, i, perms), key, perm, any) <==>
            Lists(policy, key, perm, any) || (policy[i].key == key && (policy[i].grants || any) && perm in perms)
  {
    var t := policy[i];
    var t' := t.(perms := t.perms + perms);
    assert policy == policy[..i] + [t] + policy[i + 1..];
    assert Merged(policy, i, perms) == policy[..i] + [t'] + policy[i + 1..];
    ListsAround(policy[..i], t, policy[i + 1..], key, perm, any);
    ListsAround(policy[..i], t', policy[i + 1..], key, perm, any);
  }

  lemma ListsAround(a: seq<Token>, t: Token, b: seq<Token>, key: Key, perm: string, any: bool)
    ensures Lists(a + [t] + b, key, perm, any) <==>
            Lists(a, key, perm, any) || TokenLists(t, key, perm, any) || Lists(b, key, perm, any)
  {
    ListsOne(t, key, perm, any);
    ListsAppend(a, [t], key, perm, any);
    ListsAppend(a + [t], b, key, perm, any);
  }

  // The kind of the first rule for a key does not change while denials are applied.

  /** Same first rule, up to merged permissions; rules may only be new for keys that had none. */
  predicate SameFirst(policy: Policy, policy': Policy, key: Key) {
    if HasRule(policy, key)
    then HasRule(policy', key) && policy'[FindRule(policy', key)].grants == policy[FindRule(policy, key)].grants
    else HasRule(policy', key) ==> policy'[FindRule(policy', key)].grants
  }

  lemma FirstIs(policy: Policy, key: Key, i: nat)
    requires i < |policy| && IsFound(policy[i], key) && forall j | 0 <= j < i :: !IsFound(policy[j], key)
    ensures FindRule(policy, key) == i
  {
  }

  lemma MergedFirst(policy: Policy, i: nat, perms: set<string>, key: Key)
    requires i < |policy| && policy[i].Rule?
    ensures SameFirst(policy, Merged(policy, i, perms), key)
    ensures HasRule(Merged(policy, i, perms), key) ==> HasRule(policy, key)
  {
    var policy' := Merged(policy, i, perms);
    var k := FindRule(policy, key);
    assert forall j | 0 <= j < |policy| :: IsFound(policy'[j], key) <==> IsFound(policy[j], key);
    if k < |policy| { FirstIs(policy', key, k); }
  }

  lemma InsertedFirst(policy: Policy, p: nat, t: Token, key: Key)
    requires p <= |policy| && t.Rule? && t.grants && t.closed && !HasRule(policy, t.key)
    ensures SameFirst(policy, InsertTokens(policy, p, [t]), key)
  {
    var policy' := InsertTokens(policy, p, [t]);
    var k := FindRule(policy, key);
    if t.key == key {
      assert IsFound(policy'[p], key);
      forall j | 0 <= j < |policy'| && j != p ensures !IsFound(policy'[j], key) {
        assert policy'[j] == policy[if j < p then j else j - 1];
      }
      FirstIs(policy', key, p);
    } else if k < |policy| {
      var k' := if p <= k then k + 1 else k;
      assert policy'[k'] == policy[k];
      forall j | 0 <= j < k' ensures !IsFound(policy'[j], key) {
        assert policy'[j] == if j < p then policy[j] else if j == p then t else policy[j - 1];
      }
      FirstIs(policy', key, k');
    } else {
      forall j | 0 <= j < |policy'| ensures !IsFound(policy'[j], key) {
        assert policy'[j] == if j < p then policy[j] else if j == p then t else policy[j - 1];
      }
    }
  }

  /** One denial grants its permissions, unless the first rule found for it does not grant. */
  lemma ApplyDenialLists(work: Work, d: Denial, key: Key, perm: string, any: bool)
    ensures WorkLists(ApplyDenial(work, d), key, perm, any) <==>
            WorkLists(work, key, perm, any) || (d.key == key && perm in d.perms && (any || Effective(work.policy, key)))
  {
    var i := FindRule(work.policy, d.key);
    if i < |work.policy| {
      ListsMerged(work.policy, i, d.perms, key, perm, any);
    } else {
      ListsOne(NewRule(d), key, perm, any);
      ListsAppend(work.appended, [NewRule(d)], key, perm, any);
      BlockRulesGrow(work.blockRules, d, d.key.target, key, perm, any);
      BlockRulesGrow(work.blockRules, d, d.key.source, key, perm, any);
      var start := FindBlock(work.policy, d.key.source);
      if start < |work.policy| {
        ListsInsert(work.policy, PlaceInBlock(work.policy, start), [NewRule(d)], key, perm, any);
      }
    }
  }

  lemma BlockRulesGrow(rules: seq<(string, Token)>, d: Denial, name: string, key: Key, perm: string, any: bool)
    ensures (exists r :: r in rules + [(name, NewRule(d))] && TokenLists(r.1, key, perm, any)) <==>
            (exists r :: r in rules && TokenLists(r.1, key, perm, any)) || (d.key == key && perm in d.perms)
  {
    assert (name, NewRule(d)) in rules + [(name, NewRule(d))];
    assert TokenLists(NewRule(d), key, perm, any) <==> d.key == key && perm in d.perms;
  }

  lemma ApplyDenialFirst(work: Work, d: Denial, key: Key)
    ensures SameFirst(work.policy, ApplyDenial(work, d).policy, key)
  {
    var i := FindRule(work.policy, d.key);
    if i < |work.policy| {
      MergedFirst(work.policy, i, d.perms, key);
    } else {
      var start := FindBlock(work.policy, d.key.source);
      if d.key.source !in HIMMELBLAU_DOMAINS && start < |work.policy| {
        InsertedFirst(work.policy, PlaceInBlock(work.policy, start), NewRule(d), key);
      }
    }
  }

  lemma {:induction false} ApplyDenialsList(policy: Policy, denials: seq<Denial>, key: Key, perm: string, any: bool)
    ensures var work := ApplyDenials(Work(policy, [], []), denials);
            && SameFirst(policy, work.policy, key)
            && (WorkLists(work, key, perm, any) <==>
                Lists(policy, key, perm, any) || (Denied(denials, key, perm) && (any || Effective(policy, key))))
  {
    if denials != [] {
      var n := |denials| - 1;
      var work := ApplyDenials(Work(policy, [], []), denials[..n]);
      ApplyDenialsList(policy, denials[..n], key, perm, any);
      ApplyDenialLists(work, denials[n], key, perm, any);
      ApplyDenialFirst(work, denials[n], key);
      assert denials == denials[..n] + [denials[n]];
      DeniedAppend(denials[..n], [denials[n]], key, perm);
      DeniedOne(denials[n], key, perm);
    }
  }

  lemma DeniedOne(d: Denial, key: Key, perm: string)
    ensures Denied([d], key, perm) <==> d.key == key && perm in d.perms
  {
    assert [d][0] == d;
  }

  // New blocks hold all the rules that wait for one.

  lemma {:induction false} RulesOfExactly(rules: seq<(string, Token)>, name: string, t: Token)
    ensures t in RulesOf(rules, name) <==> (name, t) in rules
  {
    if rules != [] {
      RulesOfExactly(rules[..|rules| - 1], name, t);
      assert rules == rules[..|rules| - 1] + [rules[|rules| - 1]];
    }
  }

  lemma {:induction false} BlockTypesExactly(rules: seq<(string, Token)>, name: string)
    ensures name in BlockTypes(rules) <==> exists t :: (name, t) in rules
  {
    if rules != [] {
      var last := rules[|rules| - 1];
      BlockTypesExactly(rules[..|rules| - 1], name);
      assert rules == rules[..|rules| - 1] + [last];
      assert (last.0, last.1) in rules;
    }
  }

  lemma SortKeepsMembers(names: seq<string>, name: string)
    ensures name in Sort(names) <==> name in names
  {
    SortSorts(names);
    assert name in multiset(Sort(names)) <==> name in multiset(names);
  }

  lemma {:induction false} NewBlocksList(
    types: seq<string>, rules: seq<(string, Token)>, key: Key, perm: string, any: bool)
    ensures Lists(NewBlocks(types, rules), key, perm, any) <==>
            exists r :: r in rules && r.0 in types && TokenLists(r.1, key, perm, any)
  {
    if types != [] {
      var block := NewBlock(types[0], RulesOf(rules, types[0]));
      NewBlocksList(types[1..], rules, key, perm, any);
      NewBlockLists(types[0], rules, key, perm, any);
      ListsAppend(block, NewBlocks(types[1..], rules), key, perm, any);
    }
  }

  lemma NewBlockLists(name: string, rules: seq<(string, Token)>, key: Key, perm: string, any: bool)
    ensures Lists(NewBlock(name, RulesOf(rules, name)), key, perm, any) <==>
            exists r :: r in rules && r.0 == name && TokenLists(r.1, key, perm, any)
  {
    var inner := RulesOf(rules, name);
    ListsAppend([Open(true, [name])], inner, key, perm, any);
    ListsAppend([Open(true, [name])] + inner, [Close], key, perm, any);
    if Lists(inner, key, perm, any) {
      var t :| t in inner && TokenLists(t, key, perm, any);
      RulesOfExactly(rules, name, t);
    }
    forall r | r in rules && r.0 == name && TokenLists(r.1, key, perm, any) ensures Lists(inner, key, perm, any) {
      RulesOfExactly(rules, name, r.1);
    }
  }

  lemma AllBlockRulesListed(rules: seq<(string, Token)>, key: Key, perm: string, any: bool)
    ensures Lists(NewBlocks(Sort(BlockTypes(rules)), rules), key, perm, any) <==>
            exists r :: r in rules && TokenLists(r.1, key, perm, any)
  {
    NewBlocksList(Sort(BlockTypes(rules)), rules, key, perm, any);
    forall r | r in rules ensures r.0 in Sort(BlockTypes(rules)) {
      assert (r.0, r.1) in rules;
      BlockTypesExactly(rules, r.0);
      SortKeepsMembers(BlockTypes(rules), r.0);
    }
  }

  lemma FinishedLists(work: Work, place: nat, place': nat, key: Key, perm: string, any: bool)
    ensures Lists(Finished(work, place, place'), key, perm, any) <==> WorkLists(work, key, perm, any)
  {
    var policy := WithBlocks(work, place);
    if work.blockRules != [] {
      var p := PlaceForBlocks(work.policy, place);
      ListsInsert(work.policy, p, NewBlocks(Sort(BlockTypes(work.blockRules)), work.blockRules), key, perm, any);
      AllBlockRulesListed(work.blockRules, key, perm, any);
    }
    if work.appended != [] {
      ListsInsert(policy, Min(place', |policy|), work.appended, key, perm, any);
    }
  }

  /**
   Exactly what is granted afterwards: what was granted before, and every denied permission whose
   key has no rule yet or a first rule that grants. Merging loses nothing and adds nothing else.
   */
  lemma GrantedAfterwards(policy: Policy, denials: seq<Denial>, place: nat, place': nat, key: Key, perm: string)
    ensures Grants(ApplyRules(policy, denials, place, place'), key, perm) <==>
            Grants(policy, key, perm) || (Denied(denials, key, perm) && Effective(policy, key))
  {
    ListedAfterwards(policy, denials, place, place', key, perm, false);
  }

  lemma ListedAfterwards(
    policy: Policy, denials: seq<Denial>, place: nat, place': nat, key: Key, perm: string, any: bool)
    ensures Lists(ApplyRules(policy, denials, place, place'), key, perm, any) <==>
            Lists(policy, key, perm, any) || (Denied(denials, key, perm) && (any || Effective(policy, key)))
  {
    ApplyDenialsList(policy, denials, key, perm, any);
    FinishedLists(ApplyDenials(Work(policy, [], []), denials), place, place', key, perm, any);
  }

  /** Applying the denials grants all of them. */
  ghost predicate GrantsAllDenied(policy: Policy, denials: seq<Denial>, place: nat, place': nat) {
    forall key, perm | Denied(denials, key, perm) :: Grants(ApplyRules(policy, denials, place, place'), key, perm)
  }

  /**
   All denied permissions are granted exactly when, for each of them not granted already, the
   first rule the search finds for its key is not one in a comment or of another kind.
   */
  lemma AllDeniedGrantedExactly(policy: Policy, denials: seq<Denial>, place: nat, place': nat)
    ensures GrantsAllDenied(policy, denials, place, place') <==>
            forall key, perm | Denied(denials, key, perm) :: Effective(policy, key) || Grants(policy, key, perm)
  {
    forall key, perm
      ensures Grants(ApplyRules(policy, denials, place, place'), key, perm) <==>
              Grants(policy, key, perm) || (Denied(denials, key, perm) && Effective(policy, key))
    {
      GrantedAfterwards(policy, denials, place, place', key, perm);
    }
  }

  /** A rule in a comment swallows the denial: the permission goes into the comment. */
  lemma CommentedRuleSwallowsDenial(key: Key, place: nat, place': nat)
    ensures var policy := [Rule(false, key, {"read"}, false, true)];
            var denials := [Denial(key, {"write"})];
            && Denied(denials, key, "write")
            && ApplyRules(policy, denials, place, place') == [Rule(false, key, {"read", "write"}, false, true)]
            && !GrantsAllDenied(policy, denials, place, place')
  {
    var policy := [Rule(false, key, {"read"}, false, true)];
    var denials := [Denial(key, {"write"})];
    assert FindRule(policy, key) == 0;
    assert {"read"} + {"write"} == {"read", "write"};
    assert denials[0].key == key && "write" in denials[0].perms;
    assert ApplyDenials(Work(policy, [], []), denials) ==
           ApplyDenial(Work(policy, [], []), denials[0]) by { assert denials[..0] == []; }
    assert !Effective(policy, key) && !Grants(policy, key, "write");
    GrantedAfterwards(policy, denials, place, place', key, "write");
  }

  // -- Nesting ---------------------------------------------------------------------------------

  lemma WeightsInsert(policy: Policy, p: nat, r: seq<Token>)
    requires p <= |policy|
    ensures Weights(InsertTokens(policy, p, r)) == Insert(Weights(policy), p, Weights(r))
  {
  }

  predicate AllRules(tokens: seq<Token>) {
    forall i | 0 <= i < |tokens| :: tokens[i].Rule?
  }

  lemma RulesAreBalanced(tokens: seq<Token>)
    requires AllRules(tokens)
    ensures Balanced(Weights(tokens))
  {
    SumFlat(Weights(tokens));
    forall n | 0 <= n <= |tokens| ensures Sum(Weights(tokens)[..n]) >= 0 {
      SumFlat(Weights(tokens)[..n]);
    }
  }

  predicate OnlyRulesPending(work: Work) {
    AllRules(work.appended) && forall i | 0 <= i < |work.blockRules| :: work.blockRules[i].1.Rule?
  }

  lemma {:induction false} RulesOfAreRules(rules: seq<(string, Token)>, name: string)
    requires forall i | 0 <= i < |rules| :: rules[i].1.Rule?
    ensures AllRules(RulesOf(rules, name))
  {
    if rules != [] { RulesOfAreRules(rules[..|rules| - 1], name); }
  }

  lemma NewBlockIsBalanced(name: string, rules: seq<Token>)
    requires AllRules(rules)
    ensures Balanced(Weights(NewBlock(name, rules)))
  {
    var frame: seq<Token> := [Open(true, [name]), Close];
    RulesAreBalanced(rules);
    assert NewBlock(name, rules) == InsertTokens(frame, 1, rules);
    WeightsInsert(frame, 1, rules);
    OpenCloseIsBalanced();
    assert Weights(frame) == [1, -1];
    InsertKeepsBalance([1, -1], 1, Weights(rules));
  }

  lemma OpenCloseIsBalanced()
    ensures Balanced([1, -1])
  {
    assert [1, -1][..0] == [] && [1, -1][..1] == [1] && [1][..0] == [] && [1, -1][..2] == [1, -1];
  }

  lemma {:induction false} NewBlocksAreBalanced(types: seq<string>, rules: seq<(string, Token)>)
    requires forall i | 0 <= i < |rules| :: rules[i].1.Rule?
    ensures Balanced(Weights(NewBlocks(types, rules)))
  {
    if types == [] {
      assert Weights(NewBlocks(types, rules)) == [];
    } else {
      var block := NewBlock(types[0], RulesOf(rules, types[0]));
      var more := NewBlocks(types[1..], rules);
      RulesOfAreRules(rules, types[0]);
      NewBlockIsBalanced(types[0], RulesOf(rules, types[0]));
      NewBlocksAreBalanced(types[1..], rules);
      assert block + more == InsertTokens(block, |block|, more);
      WeightsInsert(block, |block|, more);
      InsertKeepsBalance(Weights(block), |block|, Weights(more));
    }
  }

  lemma InsertNested(policy: Policy, p: nat, r: seq<Token>)
    requires p <= |policy| && WellNested(policy) && Balanced(Weights(r))
    ensures WellNested(InsertTokens(policy, p, r))
  {
    WeightsInsert(policy, p, r);
    InsertKeepsBalance(Weights(policy), p, Weights(r));
  }

  lemma MergedWeights(policy: Policy, i: nat, perms: set<string>)
    requires i < |policy| && policy[i].Rule?
    ensures Weights(Merged(policy, i, perms)) == Weights(policy)
  {
  }

  lemma ApplyDenialNested(work: Work, d: Denial)
    requires WellNested(work.policy) && OnlyRulesPending(work)
    ensures WellNested(ApplyDenial(work, d).policy) && OnlyRulesPending(ApplyDenial(work, d))
  {
    var i := FindRule(work.policy, d.key);
    if i < |work.policy| {
      MergedWeights(work.policy, i, d.perms);
    } else {
      var start := FindBlock(work.policy, d.key.source);
      RulesAreBalanced([NewRule(d)]);
      if start < |work.policy| {
        InsertNested(work.policy, PlaceInBlock(work.policy, start), [NewRule(d)]);
      }
    }
  }

  lemma {:induction false} ApplyDenialsNested(policy: Policy, denials: seq<Denial>)
    requires WellNested(policy)
    ensures var work := ApplyDenials(Work(policy, [], []), denials); WellNested(work.policy) && OnlyRulesPending(work)
  {
    if denials != [] {
      ApplyDenialsNested(policy, denials[..|denials| - 1]);
      ApplyDenialNested(ApplyDenials(Work(policy, [], []), denials[..|denials| - 1]), denials[|denials| - 1]);
    }
  }

  lemma WithBlocksNested(work: Work, place: nat)
    requires WellNested(work.policy) && OnlyRulesPending(work)
    ensures WellNested(WithBlocks(work, place))
  {
    if work.blockRules != [] {
      var p := PlaceForBlocks(work.policy, place);
      NewBlocksAreBalanced(Sort(BlockTypes(work.blockRules)), work.blockRules);
      InsertNested(work.policy, p, NewBlocks(Sort(BlockTypes(work.blockRules)), work.blockRules));
    }
  }

  /** A well-nested policy is well nested after any denials have been applied. */
  lemma ApplyingKeepsNesting(policy: Policy, denials: seq<Denial>, place: nat, place': nat)
    requires WellNested(policy)
    ensures WellNested(ApplyRules(policy, denials, place, place'))
  {
    var work := ApplyDenials(Work(policy, [], []), denials);
    ApplyDenialsNested(policy, denials);
    WithBlocksNested(work, place);
    if work.appended != [] {
      RulesAreBalanced(work.appended);
      var updated := WithBlocks(work, place);
      InsertNested(updated, Min(place', |updated|), work.appended);
    }
  }

  // -- Where placed rules stand ------------------------------------------------------------------

  /** Token `i` stands inside an optional block that requires the type. */
  ghost predicate InBlock(policy: Policy, i: nat, name: string) {
    i < |policy| && exists j | 0 <= j < i :: Encloses(policy, j, i, name)
  }

  predicate Encloses(policy: Policy, j: nat, i: nat, name: string)
    requires j < i < |policy|
  {
    && policy[j].Open? && policy[j].optional && name in policy[j].required
    && forall n | j < n <= i :: Sum(Weights(policy)[j..n]) >= 1
  }

  predicate Foreign(key: Key, name: string) {
    (name == key.source || name == key.target) && name !in HIMMELBLAU_TYPES
  }

  /** Every rule this program placed stands in blocks that require the foreign types it names. */
  ghost predicate PlacedWell(policy: Policy) {
    forall i, name | 0 <= i < |policy| && policy[i].Rule? && policy[i].placed && Foreign(policy[i].key, name) ::
      InBlock(policy, i, name)
  }

  lemma EnclosesInsert(policy: Policy, p: nat, r: seq<Token>, j: nat, i: nat, name: string)
    requires p <= |policy| && j < i < |policy| && Encloses(policy, j, i, name) && Balanced(Weights(r))
    ensures var j', i' := if p <= j then j + |r| else j, if p <= i then i + |r| else i;
            Encloses(InsertTokens(policy, p, r), j', i', name)
  {
    var j', i' := if p <= j then j + |r| else j, if p <= i then i + |r| else i;
    var w, new_ := Weights(policy), InsertTokens(policy, p, r);
    WeightsInsert(policy, p, r);
    assert new_[j'] == policy[j];
    forall n | j' < n <= i' ensures Sum(Weights(new_)[j'..n]) >= 1 {
      SliceOfInsert(w, p, Weights(r), j, i, n);
    }
  }

  /** The depth counted from an enclosing block, in the policy with a balanced piece put in. */
  lemma SliceOfInsert(w: seq<int>, p: nat, r: seq<int>, j: nat, i: nat, n: nat)
    requires p <= |w| && j < i < |w| && Balanced(r)
    requires forall k | j < k <= i :: Sum(w[j..k]) >= 1
    requires (if p <= j then j + |r| else j) < n <= (if p <= i then i + |r| else i)
    ensures Sum(Insert(w, p, r)[(if p <= j then j + |r| else j)..n]) >= 1
  {
    if p <= j {
      SliceAfterInsert(w, p, r, j, n);
    } else if n <= p {
      SliceBeforeInsert(w, p, r, j, n);
    } else if n <= p + |r| {
      SliceIntoInsert(w, p, r, j, n);
      SumAppend(w[j..p], r[..n - p]);
    } else {
      SliceOverInsert(w, p, r, j, n);
      SumInsert(w[j..n - |r|], p - j, r);
    }
  }

  lemma SliceAfterInsert(w: seq<int>, p: nat, r: seq<int>, j: nat, n: nat)
    requires p <= j <= |w| && j + |r| <= n <= |w| + |r|
    ensures Insert(w, p, r)[j + |r|..n] == w[j..n - |r|]
  {
  }

  lemma SliceBeforeInsert(w: seq<int>, p: nat, r: seq<int>, j: nat, n: nat)
    requires j <= n <= p <= |w|
    ensures Insert(w, p, r)[j..n] == w[j..n]
  {
  }

  lemma SliceIntoInsert(w: seq<int>, p: nat, r: seq<int>, j: nat, n: nat)
    requires j <= p <= |w| && p <= n <= p + |r|
    ensures Insert(w, p, r)[j..n] == w[j..p] + r[..n - p]
  {
  }

  lemma SliceOverInsert(w: seq<int>, p: nat, r: seq<int>, j: nat, n: nat)
    requires j <= p <= |w| && p + |r| <= n <= |w| + |r|
    ensures Insert(w, p, r)[j..n] == Insert(w[j..n - |r|], p - j, r)
  {
  }

  lemma PlacedWellInsert(policy: Policy, p: nat, r: seq<Token>)
    requires p <= |policy| && PlacedWell(policy) && Balanced(Weights(r))
    requires forall i, name | 0 <= i < |r| && r[i].Rule? && r[i].placed && Foreign(r[i].key, name) ::
               InBlock(InsertTokens(policy, p, r), p + i, name)
    ensures PlacedWell(InsertTokens(policy, p, r))
  {
    var new_ := InsertTokens(policy, p, r);
    forall i, name | 0 <= i < |new_| && new_[i].Rule? && new_[i].placed && Foreign(new_[i].key, name)
      ensures InBlock(new_, i, name)
    {
      if p <= i < p + |r| {
        assert new_[i] == r[i - p];
        assert InBlock(new_, p + (i - p), name);
      } else {
        var k := if i < p then i else i - |r|;
        assert policy[k] == new_[i];
        assert InBlock(policy, k, name);
        var j :| 0 <= j < k && Encloses(policy, j, k, name);
        EnclosesInsert(policy, p, r, j, k, name);
      }
    }
  }

  lemma PlacedWellMerged(policy: Policy, i: nat, perms: set<string>)
    requires i < |policy| && policy[i].Rule? && PlacedWell(policy)
    ensures PlacedWell(Merged(policy, i, perms))
  {
    var new_ := Merged(policy, i, perms);
    MergedWeights(policy, i, perms);
    forall k, name | 0 <= k < |new_| && new_[k].Rule? && new_[k].placed && Foreign(new_[k].key, name)
      ensures InBlock(new_, k, name)
    {
      assert InBlock(policy, k, name);
      var j :| 0 <= j < k && Encloses(policy, j, k, name);
      assert Encloses(new_, j, k, name);
    }
  }

  /** In a well-nested policy a rule put at a block's place is inside that block. */
  lemma PlaceIsInBlock(policy: Policy, start: nat, t: Token, name: string)
    requires WellNested(policy) && start < |policy| && IsBlockFor(policy[start], name) && t.Rule?
    ensures InBlock(InsertTokens(policy, PlaceInBlock(policy, start), [t]), PlaceInBlock(policy, start), name)
  {
    var w := Weights(policy);
    SliceStep(w, start, start);
    var closed := BlockIsClosed(w, start, start + 1);
    var end := BlockEnd(policy, start).value;
    var p := end - 1;
    assert end > start + 1 by { SliceStep(w, start, start); }
    var new_ := InsertTokens(policy, p, [t]);
    WeightsInsert(policy, p, [t]);
    forall n | start < n <= p ensures Sum(Weights(new_)[start..n]) >= 1 {
      OpenBeforeEnd(w, start, start + 1, end, n);
      assert Weights(new_)[start..n] == w[start..n];
    }
    assert Encloses(new_, start, p, name);
  }

  /** Source or target is Himmelblau's own, as for every denial that is not set aside as unrelated. */
  predicate Related(d: Denial) {
    d.key.source in HIMMELBLAU_DOMAINS || d.key.target in HIMMELBLAU_TYPES
  }

  lemma DomainsAreTypes(name: string)
    requires name in HIMMELBLAU_DOMAINS
    ensures name in HIMMELBLAU_TYPES
  {
  }

  /** Rules waiting for a block name no foreign type but the block's; rules to append name none. */
  ghost predicate PendingWell(work: Work) {
    && OnlyRulesPending(work)
    && (forall i, name | 0 <= i < |work.blockRules| && Foreign(work.blockRules[i].1.key, name) ::
          name == work.blockRules[i].0)
    && (forall i, name | 0 <= i < |work.appended| :: !Foreign(work.appended[i].key, name))
  }

  lemma ApplyDenialPlaces(work: Work, d: Denial)
    requires WellNested(work.policy) && PlacedWell(work.policy) && PendingWell(work) && Related(d)
    ensures PlacedWell(ApplyDenial(work, d).policy) && PendingWell(ApplyDenial(work, d))
  {
    var i := FindRule(work.policy, d.key);
    if i < |work.policy| {
      PlacedWellMerged(work.policy, i, d.perms);
    } else if d.key.source in HIMMELBLAU_DOMAINS {
      DomainsAreTypes(d.key.source);
    } else {
      var start := FindBlock(work.policy, d.key.source);
      if start < |work.policy| {
        RulesAreBalanced([NewRule(d)]);
        PlaceIsInBlock(work.policy, start, NewRule(d), d.key.source);
        PlacedWellInsert(work.policy, PlaceInBlock(work.policy, start), [NewRule(d)]);
      }
    }
  }

  lemma {:induction false} ApplyDenialsPlace(policy: Policy, denials: seq<Denial>)
    requires WellNested(policy) && PlacedWell(policy)
    requires forall i | 0 <= i < |denials| :: Related(denials[i])
    ensures var work := ApplyDenials(Work(policy, [], []), denials);
            WellNested(work.policy) && PlacedWell(work.policy) && PendingWell(work)
  {
    ApplyDenialsNested(policy, denials);
    if denials != [] {
      ApplyDenialsPlace(policy, denials[..|denials| - 1]);
      ApplyDenialPlaces(ApplyDenials(Work(policy, [], []), denials[..|denials| - 1]), denials[|denials| - 1]);
    }
  }

  // Inside new blocks.

  lemma InBlockShift(before: Policy, piece: Policy, after: Policy, i: nat, name: string)
    requires InBlock(piece, i, name)
    ensures InBlock(before + piece + after, |before| + i, name)
  {
    var whole := before + piece + after;
    var j :| 0 <= j < i && Encloses(piece, j, i, name);
    var k := |before| + j;
    assert Weights(whole) == Weights(before) + Weights(piece) + Weights(after);
    forall n | k < n <= |before| + i ensures Sum(Weights(whole)[k..n]) >= 1 {
      MiddleSlice(Weights(before), Weights(piece), Weights(after), j, n - |before|);
    }
    assert Encloses(whole, k, |before| + i, name);
  }

  lemma InNewBlock(name: string, rules: seq<Token>, i: nat)
    requires AllRules(rules) && 1 <= i <= |rules|
    ensures InBlock(NewBlock(name, rules), i, name)
  {
    var block := NewBlock(name, rules);
    forall n | 0 < n <= i ensures Sum(Weights(block)[0..n]) >= 1 {
      assert Weights(block)[0..n] == [1] + Weights(rules)[..n - 1];
      SumAppend([1], Weights(rules)[..n - 1]);
      SumFlat(Weights(rules)[..n - 1]);
      assert [1][..0] == [];
    }
    assert Encloses(block, 0, i, name);
  }

  lemma {:induction false} NewBlocksPlaceWell(types: seq<string>, rules: seq<(string, Token)>)
    requires forall i | 0 <= i < |rules| :: rules[i].1.Rule?
    requires forall i, name | 0 <= i < |rules| && Foreign(rules[i].1.key, name) :: name == rules[i].0
    ensures PlacedWell(NewBlocks(types, rules))
  {
    if types != [] {
      var inner := RulesOf(rules, types[0]);
      var block := NewBlock(types[0], inner);
      var more := NewBlocks(types[1..], rules);
      RulesOfAreRules(rules, types[0]);
      NewBlockIsBalanced(types[0], inner);
      NewBlocksPlaceWell(types[1..], rules);
      forall i, name | 0 <= i < |block| && block[i].Rule? && block[i].placed && Foreign(block[i].key, name)
        ensures InBlock(InsertTokens(more, 0, block), 0 + i, name)
      {
        assert block[i] == inner[i - 1];
        RulesOfExactly(rules, types[0], block[i]);
        InNewBlock(types[0], inner, i);
        InBlockShift([], block, more, i, name);
        assert [] + block + more == InsertTokens(more, 0, block);
      }
      PlacedWellInsert(more, 0, block);
      assert InsertTokens(more, 0, block) == block + more;
    }
  }

  /** A balanced piece whose rules are placed well may go anywhere. */
  lemma PlacedWellPiece(policy: Policy, p: nat, piece: seq<Token>)
    requires p <= |policy| && PlacedWell(policy) && PlacedWell(piece) && Balanced(Weights(piece))
    ensures PlacedWell(InsertTokens(policy, p, piece))
  {
    forall i, name | 0 <= i < |piece| && piece[i].Rule? && piece[i].placed && Foreign(piece[i].key, name)
      ensures InBlock(InsertTokens(policy, p, piece), p + i, name)
    {
      assert InBlock(piece, i, name);
      InBlockShift(policy[..p], piece, policy[p..], i, name);
    }
    PlacedWellInsert(policy, p, piece);
  }

  lemma WithBlocksPlacesWell(work: Work, place: nat)
    requires PlacedWell(work.policy) && PendingWell(work)
    ensures PlacedWell(WithBlocks(work, place))
  {
    if work.blockRules != [] {
      NewBlocksAreBalanced(Sort(BlockTypes(work.blockRules)), work.blockRules);
      NewBlocksPlaceWell(Sort(BlockTypes(work.blockRules)), work.blockRules);
      PlacedWellPiece(work.policy, PlaceForBlocks(work.policy, place), AddedBlocks(work));
    }
  }

  /**
   After any related denials have been applied to a well-nested policy, every rule placed for them
   that names a type foreign to Himmelblau stands in an optional block requiring that type.
   */
  lemma PlacedRulesAreInTheirBlocks(policy: Policy, denials: seq<Denial>, place: nat, place': nat)
    requires WellNested(policy) && forall i | 0 <= i < |policy| :: policy[i].Rule? ==> !policy[i].placed
    requires forall i | 0 <= i < |denials| :: Related(denials[i])
    ensures PlacedWell(ApplyRules(policy, denials, place, place'))
  {
    var work := ApplyDenials(Work(policy, [], []), denials);
    ApplyDenialsPlace(policy, denials);
    WithBlocksPlacesWell(work, place);
    if work.appended != [] {
      var updated := WithBlocks(work, place);
      RulesAreBalanced(work.appended);
      PlacedWellInsert(updated, Min(place', |updated|), work.appended);
    }
  }

  // -- Processing an audit log -------------------------------------------------------------------

  lemma {:induction false} ExistingIsNamed(policy: Policy, key: Key, perm: string)
    ensures perm in Existing(policy, key) <==> Names(policy, key, perm)
  {
    if policy != [] {
      ExistingIsNamed(policy[1..], key, perm);
      assert policy == [policy[0]] + policy[1..];
      ListsOne(policy[0], key, perm, true);
      ListsAppend([policy[0]], policy[1..], key, perm, true);
    }
  }

  lemma {:induction false} SelectExactly(denials: seq<Denial>, category: Category, d: Denial)
    ensures d in Select(denials, category) <==> d in denials && CategoryOf(d) == category
  {
    if denials != [] {
      SelectExactly(denials[..|denials| - 1], category, d);
      assert denials == denials[..|denials| - 1] + [denials[|denials| - 1]];
    }
  }

  lemma RelevantExactly(denials: seq<Denial>, d: Denial)
    ensures d in Relevant(denials) <==> d in denials && Related(d)
  {
    SelectExactly(denials, Outbound, d);
    SelectExactly(denials, Inbound, d);
    SelectExactly(denials, Internal, d);
  }

  /** A related denial in the log asks for the permission. */
  predicate RelatedDenied(denials: seq<Denial>, key: Key, perm: string) {
    exists d | d in denials :: Related(d) && d.key == key && perm in d.perms
  }

  lemma {:induction false} NeededExactly(policy: Policy, denials: seq<Denial>, key: Key, perm: string)
    ensures Denied(AllNeeded(policy, denials), key, perm) <==>
            (exists d | d in denials :: d.key == key && perm in d.perms) && !Names(policy, key, perm)
  {
    if denials != [] {
      var n := |denials| - 1;
      var d, earlier := denials[n], AllNeeded(policy, denials[..n]);
      NeededExactly(policy, denials[..n], key, perm);
      ExistingIsNamed(policy, key, perm);
      assert denials == denials[..n] + [d];
      DeniedAppend(earlier, Needed(policy, d), key, perm);
      NeededOne(policy, d, key, perm);
    }
  }

  lemma DeniedAppend(a: seq<Denial>, b: seq<Denial>, key: Key, perm: string)
    ensures Denied(a + b, key, perm) <==> Denied(a, key, perm) || Denied(b, key, perm)
  {
    if Denied(a, key, perm) {
      var i :| 0 <= i < |a| && a[i].key == key && perm in a[i].perms;
      assert (a + b)[i] == a[i];
    }
    if Denied(b, key, perm) {
      var i :| 0 <= i < |b| && b[i].key == key && perm in b[i].perms;
      assert (a + b)[|a| + i] == b[i];
    }
  }

  lemma NeededOne(policy: Policy, d: Denial, key: Key, perm: string)
    ensures Denied(Needed(policy, d), key, perm) <==> d.key == key && perm in d.perms && perm !in Existing(policy, key)
  {
    var needed := Needed(policy, d);
    if d.key == key && perm in d.perms && perm !in Existing(policy, key) {
      assert perm in d.perms - Existing(policy, key);
      assert needed[0].key == key && perm in needed[0].perms;
    }
  }

  /**
   What processing a log grants: what was granted before, and every related denied permission that
   no rule, granting or not, lists yet and whose key has no rule or a first rule that grants.
   */
  lemma ProcessGrantsExactly(policy: Policy, denials: seq<Denial>, place: nat, place': nat, key: Key, perm: string)
    ensures Grants(Process(policy, denials, place, place'), key, perm) <==>
            || Grants(policy, key, perm)
            || (RelatedDenied(denials, key, perm) && !Names(policy, key, perm) && Effective(policy, key))
  {
    ProcessListsExactly(policy, denials, place, place', key, perm, false);
  }

  lemma ProcessListsExactly(
    policy: Policy, denials: seq<Denial>, place: nat, place': nat, key: Key, perm: string, any: bool)
    ensures Lists(Process(policy, denials, place, place'), key, perm, any) <==>
            || Lists(policy, key, perm, any)
            || (RelatedDenied(denials, key, perm) && !Names(policy, key, perm) && (any || Effective(policy, key)))
  {
    var relevant := Relevant(denials);
    NeededExactly(policy, relevant, key, perm);
    RelevantDenials(denials, key, perm);
    ListedAfterwards(policy, AllNeeded(policy, relevant), place, place', key, perm, any);
  }

  lemma RelevantDenials(denials: seq<Denial>, key: Key, perm: string)
    ensures (exists d | d in Relevant(denials) :: d.key == key && perm in d.perms) <==>
            RelatedDenied(denials, key, perm)
  {
    forall d ensures d in Relevant(denials) <==> d in denials && Related(d) { RelevantExactly(denials, d); }
  }

  /** A second pass over the same log finds nothing to do: it leaves the policy as the first left it. */
  lemma ProcessIsIdempotent(policy: Policy, denials: seq<Denial>, place: nat, place': nat, again: nat, again': nat)
    requires forall d | d in denials :: d.perms != {}
    ensures var updated := Process(policy, denials, place, place');
            Process(updated, denials, again, again') == updated
  {
    var updated := Process(policy, denials, place, place');
    forall d | d in Relevant(denials) ensures Needed(updated, d) == [] {
      RelevantExactly(denials, d);
      forall perm | perm in d.perms ensures perm in Existing(updated, d.key) {
        ProcessListsExactly(policy, denials, place, place', d.key, perm, true);
        ExistingIsNamed(updated, d.key, perm);
      }
      var perm :| perm in d.perms;
      assert d.perms - Existing(updated, d.key) == {};
    }
    NothingNeeded(updated, Relevant(denials));
  }

  lemma {:induction false} NothingNeeded(policy: Policy, denials: seq<Denial>)
    requires forall d | d in denials :: Needed(policy, d) == []
    ensures AllNeeded(policy, denials) == []
  {
    if denials != [] {
      NothingNeeded(policy, denials[..|denials| - 1]);
      assert denials[|denials| - 1] in denials;
    }
  }

  lemma {:induction false} NeededAreRelated(policy: Policy, denials: seq<Denial>)
    requires forall d | d in denials :: Related(d)
    ensures forall i | 0 <= i < |AllNeeded(policy, denials)| :: Related(AllNeeded(policy, denials)[i])
  {
    if denials != [] {
      var d := denials[|denials| - 1];
      NeededAreRelated(policy, denials[..|denials| - 1]);
      assert Related(d);
      assert forall e | e in Needed(policy, d) :: e.key == d.key;
    }
  }

  lemma RelevantAreRelated(denials: seq<Denial>)
    ensures forall d | d in Relevant(denials) :: Related(d)
  {
    forall d | d in Relevant(denials) ensures Related(d) { RelevantExactly(denials, d); }
  }

  /** Processing any log keeps a well-nested policy well nested. */
  lemma ProcessingKeepsNesting(policy: Policy, denials: seq<Denial>, place: nat, place': nat)
    requires WellNested(policy)
    ensures WellNested(Process(policy, denials, place, place'))
  {
    ApplyingKeepsNesting(policy, AllNeeded(policy, Relevant(denials)), place, place');
  }

  /** Whatever the log, every rule processing it adds on a foreign type stands in a block requiring that type. */
  lemma ProcessingPlacesRules(policy: Policy, denials: seq<Denial>, place: nat, place': nat)
    requires WellNested(policy) && forall i | 0 <= i < |policy| :: policy[i].Rule? ==> !policy[i].placed
    ensures PlacedWell(Process(policy, denials, place, place'))
  {
    RelevantAreRelated(denials);
    NeededAreRelated(policy, Relevant(denials));
    PlacedRulesAreInTheirBlocks(policy, AllNeeded(policy, Relevant(denials)), place, place');
  }
}

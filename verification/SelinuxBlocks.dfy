/**
 Where new optional blocks stand, which types get one, and what is kept of the policy.
 */
module SelinuxBlocks {
  import opened Text
  import opened Sorting
  import opened Braces
  import opened SelinuxPolicy
  import opened SelinuxTheorems

  // -- Blocks stand apart ------------------------------------------------------------------------

  /** Token `i` lies inside the block that token `j` opens. */
  predicate Covers(w: seq<int>, j: nat, i: nat)
    requires i < |w|
  {
    forall n | j < n <= i :: Sum(w[j..n]) >= 1
  }

  /** No optional block lies inside another. */
  predicate BlocksApart(policy: Policy) {
    forall j, i | 0 <= j < i < |policy| && OpensOptional(policy[j]) && OpensOptional(policy[i]) ::
      !Covers(Weights(policy), j, i)
  }

  /** What starts at `j` is closed again by position `p`. */
  predicate ClosedBy(w: seq<int>, j: nat, p: nat)
    requires p <= |w|
  {
    exists n | j < n <= p :: Sum(w[j..n]) <= 0
  }

  predicate AllClosedBy(policy: Policy, p: nat)
    requires p <= |policy|
  {
    forall j | 0 <= j < p && OpensOptional(policy[j]) :: ClosedBy(Weights(policy), j, p)
  }

  /** Where position `i` is after a piece of length `m` was put in at `p`. */
  function Moved(p: nat, m: nat, i: nat): nat {
    if p <= i then i + m else i
  }

  /** A balanced piece put in does not draw one token into the block of another. */
  lemma CoversInsertBack(w: seq<int>, p: nat, r: seq<int>, j: nat, i: nat)
    requires p <= |w| && j < i < |w| && Balanced(r)
    requires Covers(Insert(w, p, r), Moved(p, |r|, j), Moved(p, |r|, i))
    ensures Covers(w, j, i)
  {
    var new_, j', i' := Insert(w, p, r), Moved(p, |r|, j), Moved(p, |r|, i);
    forall n | j < n <= i ensures Sum(w[j..n]) >= 1 {
      var n' := if j < p && n <= p then n else n + |r|;
      DepthStays(w, p, r, j, n);
      assert j' < n' <= i' && Sum(new_[j'..n']) >= 1;
    }
  }

  /** The depth counted from a token on is the same with a balanced piece put in. */
  lemma DepthStays(w: seq<int>, p: nat, r: seq<int>, j: nat, n: nat)
    requires p <= |w| && j < n <= |w| && Balanced(r)
    ensures Sum(Insert(w, p, r)[Moved(p, |r|, j)..if j < p && n <= p then n else n + |r|]) == Sum(w[j..n])
  {
    if p <= j {
      SliceAfterInsert(w, p, r, j, n + |r|);
    } else if n <= p {
      SliceBeforeInsert(w, p, r, j, n);
    } else {
      SliceOverInsert(w, p, r, j, n + |r|);
      SumInsert(w[j..n], p - j, r);
    }
  }

  /** A block in front that is closed by `p` covers nothing from there on. */
  lemma ClosedCoversNothing(w: seq<int>, p: nat, r: seq<int>, j: nat, i: nat)
    requires p <= |w| && j < p <= i < |w| + |r| && ClosedBy(w, j, p)
    ensures !Covers(Insert(w, p, r), j, i)
  {
    var n :| j < n <= p && Sum(w[j..n]) <= 0;
    SliceBeforeInsert(w, p, r, j, n);
    assert Sum(Insert(w, p, r)[j..n]) < 1;
  }

  /** A block of the piece covers nothing behind the piece. */
  lemma PieceCoversNothing(w: seq<int>, p: nat, r: seq<int>, j: nat, i: nat)
    requires p <= |w| && j < |r| && p + |r| <= i < |w| + |r| && Balanced(r)
    ensures !Covers(Insert(w, p, r), p + j, i)
  {
    var new_ := Insert(w, p, r);
    assert new_[p + j..p + |r|] == r[j..];
    assert r == r[..j] + r[j..];
    SumAppend(r[..j], r[j..]);
    assert Sum(r[..j]) >= 0;
    assert Sum(new_[p + j..p + |r|]) < 1;
  }

  lemma CoversInPiece(w: seq<int>, p: nat, r: seq<int>, j: nat, i: nat)
    requires p <= |w| && j < i < |r| && Covers(Insert(w, p, r), p + j, p + i)
    ensures Covers(r, j, i)
  {
    forall n | j < n <= i ensures Sum(r[j..n]) >= 1 {
      assert Insert(w, p, r)[p + j..p + n] == r[j..n];
    }
  }

  /** A piece without optional blocks may go anywhere, one with them where all blocks are closed. */
  lemma ApartInsert(policy: Policy, p: nat, r: seq<Token>)
    requires p <= |policy| && BlocksApart(policy) && BlocksApart(r) && Balanced(Weights(r))
    requires AllClosedBy(policy, p) || forall i | 0 <= i < |r| :: !OpensOptional(r[i])
    ensures BlocksApart(InsertTokens(policy, p, r))
  {
    var new_ := InsertTokens(policy, p, r);
    forall j, i | 0 <= j < i < |new_| && OpensOptional(new_[j]) && OpensOptional(new_[i])
      ensures !Covers(Weights(new_), j, i)
    {
      PairApart(policy, p, r, j, i);
    }
  }

  lemma PairApart(policy: Policy, p: nat, r: seq<Token>, j: nat, i: nat)
    requires p <= |policy| && BlocksApart(policy) && BlocksApart(r) && Balanced(Weights(r))
    requires AllClosedBy(policy, p) || forall k | 0 <= k < |r| :: !OpensOptional(r[k])
    requires var new_ := InsertTokens(policy, p, r);
             j < i < |new_| && OpensOptional(new_[j]) && OpensOptional(new_[i])
    ensures !Covers(Weights(InsertTokens(policy, p, r)), j, i)
  {
    if p <= i < p + |r| {
      assert InsertTokens(policy, p, r)[i] == r[i - p];
      PieceStandsAlone(policy, p, r, j, i);
    } else if p <= j < p + |r| {
      PieceHoldsNoOther(policy, p, r, j - p, i);
    } else {
      OldPairApart(policy, p, r, if j < p then j else j - |r|, if i < p then i else i - |r|);
    }
  }

  /** A block of the piece has nothing of the policy in it. */
  lemma PieceHoldsNoOther(policy: Policy, p: nat, r: seq<Token>, j: nat, i: nat)
    requires p <= |policy| && j < |r| && p + |r| <= i < |policy| + |r| && Balanced(Weights(r))
    ensures !Covers(Weights(InsertTokens(policy, p, r)), p + j, i)
  {
    WeightsInsert(policy, p, r);
    PieceCoversNothing(Weights(policy), p, Weights(r), j, i);
  }

  /** A block of the piece lies in no other block. */
  lemma PieceStandsAlone(policy: Policy, p: nat, r: seq<Token>, j: nat, i: nat)
    requires p <= |policy| && BlocksApart(r) && AllClosedBy(policy, p) && j < i && p <= i < p + |r|
    requires var new_ := InsertTokens(policy, p, r); OpensOptional(new_[j]) && OpensOptional(new_[i])
    ensures !Covers(Weights(InsertTokens(policy, p, r)), j, i)
  {
    var w, v, new_ := Weights(policy), Weights(r), InsertTokens(policy, p, r);
    assert Weights(new_) == Insert(w, p, v) by { WeightsInsert(policy, p, r); }
    if j < p {
      assert new_[j] == policy[j];
      ClosedCoversNothing(w, p, v, j, i);
    } else if Covers(Insert(w, p, v), j, i) {
      assert new_[j] == r[j - p] && new_[i] == r[i - p];
      CoversInPiece(w, p, v, j - p, i - p);
    }
  }

  lemma StayApart(w: seq<int>, p: nat, r: seq<int>, j: nat, i: nat)
    requires p <= |w| && j < i < |w| && Balanced(r) && !Covers(w, j, i)
    ensures !Covers(Insert(w, p, r), Moved(p, |r|, j), Moved(p, |r|, i))
  {
    if Covers(Insert(w, p, r), Moved(p, |r|, j), Moved(p, |r|, i)) { CoversInsertBack(w, p, r, j, i); }
  }

  /** Two blocks of the policy stay apart, whatever balanced piece is put in. */
  lemma OldPairApart(policy: Policy, p: nat, r: seq<Token>, j: nat, i: nat)
    requires p <= |policy| && BlocksApart(policy) && Balanced(Weights(r))
    requires j < i < |policy| && OpensOptional(policy[j]) && OpensOptional(policy[i])
    ensures !Covers(Weights(InsertTokens(policy, p, r)), Moved(p, |r|, j), Moved(p, |r|, i))
  {
    var w, v := Weights(policy), Weights(r);
    assert Weights(InsertTokens(policy, p, r)) == Insert(w, p, v) by { WeightsInsert(policy, p, r); }
    StayApart(w, p, v, j, i);
  }

  lemma RulesApart(rules: seq<Token>)
    requires AllRules(rules)
    ensures BlocksApart(rules) && forall i | 0 <= i < |rules| :: !OpensOptional(rules[i])
  {
  }

  lemma NewBlockApart(name: string, rules: seq<Token>)
    requires AllRules(rules)
    ensures BlocksApart(NewBlock(name, rules))
  {
    var block := NewBlock(name, rules);
    assert forall i | 1 <= i < |block| :: !OpensOptional(block[i]);
  }

  /** A balanced piece has closed all its blocks at its end. */
  lemma ClosedAtEnd(policy: Policy)
    requires WellNested(policy)
    ensures AllClosedBy(policy, |policy|)
  {
    var w := Weights(policy);
    forall j | 0 <= j < |policy| && OpensOptional(policy[j]) ensures ClosedBy(w, j, |policy|) {
      assert w == w[..j] + w[j..|w|];
      SumAppend(w[..j], w[j..|w|]);
      assert Sum(w[j..|w|]) <= 0;
    }
  }

  lemma {:induction false} NewBlocksApart(types: seq<string>, rules: seq<(string, Token)>)
    requires forall i | 0 <= i < |rules| :: rules[i].1.Rule?
    ensures BlocksApart(NewBlocks(types, rules))
  {
    if types != [] {
      var inner := RulesOf(rules, types[0]);
      var block, more := NewBlock(types[0], inner), NewBlocks(types[1..], rules);
      RulesOfAreRules(rules, types[0]);
      NewBlockIsBalanced(types[0], inner);
      NewBlockApart(types[0], inner);
      NewBlocksApart(types[1..], rules);
      NewBlocksAreBalanced(types[1..], rules);
      ClosedAtEnd(block);
      ApartInsert(block, |block|, more);
      assert InsertTokens(block, |block|, more) == block + more;
    }
  }

  lemma MergedApart(policy: Policy, i: nat, perms: set<string>)
    requires i < |policy| && policy[i].Rule? && BlocksApart(policy)
    ensures BlocksApart(Merged(policy, i, perms))
  {
    MergedWeights(policy, i, perms);
  }

  lemma ApplyDenialApart(work: Work, d: Denial)
    requires BlocksApart(work.policy)
    ensures BlocksApart(ApplyDenial(work, d).policy)
  {
    var i := FindRule(work.policy, d.key);
    if i < |work.policy| {
      MergedApart(work.policy, i, d.perms);
    } else {
      var start := FindBlock(work.policy, d.key.source);
      RulesAreBalanced([NewRule(d)]);
      RulesApart([NewRule(d)]);
      if start < |work.policy| { ApartInsert(work.policy, PlaceInBlock(work.policy, start), [NewRule(d)]); }
    }
  }

  lemma {:induction false} ApplyDenialsApart(policy: Policy, denials: seq<Denial>)
    requires BlocksApart(policy)
    ensures BlocksApart(ApplyDenials(Work(policy, [], []), denials).policy)
  {
    if denials != [] {
      ApplyDenialsApart(policy, denials[..|denials| - 1]);
      ApplyDenialApart(ApplyDenials(Work(policy, [], []), denials[..|denials| - 1]), denials[|denials| - 1]);
    }
  }

  /** In a well-nested policy every block that starts at an opening is closed somewhere. */
  lemma OptionalIsClosed(policy: Policy, j: nat)
    requires WellNested(policy) && j < |policy| && policy[j].Open?
    ensures BlockEnd(policy, j).Some?
  {
    var w := Weights(policy);
    SliceStep(w, j, j);
    var closed := BlockIsClosed(w, j, j + 1);
  }

  /** Where new blocks go, every optional block in front is closed, and none begins behind it. */
  lemma PlaceIsBehindAllBlocks(policy: Policy, place: nat)
    requires WellNested(policy)
    ensures var p := PlaceForBlocks(policy, place);
            && AllClosedBy(policy, p)
            && (forall j | p <= j < |policy| :: !OpensOptional(policy[j]))
            && ((exists j | 0 <= j < |policy| :: OpensOptional(policy[j])) ==>
                  exists j | 0 <= j < |policy| :: OpensOptional(policy[j]) && BlockEnd(policy, j) == Some(p))
  {
    var last, p := LastOptionalEnd(policy, |policy|), PlaceForBlocks(policy, place);
    forall j | 0 <= j < |policy| && OpensOptional(policy[j])
      ensures last == p && j < p && ClosedBy(Weights(policy), j, p)
    {
      OptionalIsClosed(policy, j);
      var end := BlockEnd(policy, j).value;
      assert ClosesAt(Weights(policy), j, end);
      assert Sum(Weights(policy)[j..end]) <= 0;
    }
  }

  /**
   New blocks stand in no optional block of the policy, and none of them in another new one; this
   holds of any well-nested policy, whether or not its own blocks are nested.
   */
  lemma NewBlocksStandAlone(work: Work, place: nat, j: nat, i: nat)
    requires WellNested(work.policy) && OnlyRulesPending(work) && work.blockRules != []
    requires var p := PlaceForBlocks(work.policy, place);
             && j < i < |WithBlocks(work, place)| && p <= i < p + |AddedBlocks(work)|
             && OpensOptional(WithBlocks(work, place)[j]) && OpensOptional(WithBlocks(work, place)[i])
    ensures !Covers(Weights(WithBlocks(work, place)), j, i)
  {
    var types, p := Sort(BlockTypes(work.blockRules)), PlaceForBlocks(work.policy, place);
    PlaceIsBehindAllBlocks(work.policy, place);
    NewBlocksApart(types, work.blockRules);
    PieceStandsAlone(work.policy, p, NewBlocks(types, work.blockRules), j, i);
  }

  lemma WithBlocksApart(work: Work, place: nat)
    requires WellNested(work.policy) && BlocksApart(work.policy) && OnlyRulesPending(work)
    ensures BlocksApart(WithBlocks(work, place))
  {
    if work.blockRules != [] {
      var types := Sort(BlockTypes(work.blockRules));
        PlaceIsBehindAllBlocks(work.policy, place);
      NewBlocksApart(types, work.blockRules);
      NewBlocksAreBalanced(types, work.blockRules);
      ApartInsert(work.policy, PlaceForBlocks(work.policy, place), NewBlocks(types, work.blockRules));
    }
  }

  /** If no optional block of a well-nested policy lies in another, none does after any denials. */
  lemma ApplyingKeepsBlocksApart(policy: Policy, denials: seq<Denial>, place: nat, place': nat)
    requires WellNested(policy) && BlocksApart(policy)
    ensures BlocksApart(ApplyRules(policy, denials, place, place'))
  {
    var work := ApplyDenials(Work(policy, [], []), denials);
    ApplyDenialsNested(policy, denials);
    ApplyDenialsApart(policy, denials);
    WithBlocksApart(work, place);
    if work.appended != [] {
      var updated := WithBlocks(work, place);
      RulesAreBalanced(work.appended);
      RulesApart(work.appended);
      ApartInsert(updated, Min(place', |updated|), work.appended);
    }
  }

  // -- Which types get a block ----------------------------------------------------------------------

  predicate HasBlock(policy: Policy, name: string) {
    exists i | 0 <= i < |policy| :: IsBlockFor(policy[i], name)
  }

  lemma FindBlockExactly(policy: Policy, name: string)
    ensures HasBlock(policy, name) <==> FindBlock(policy, name) < |policy|
  {
  }

  /** A new block is for the foreign target of a domain, or for a source that has no block yet. */
  predicate NeedsBlock(policy: Policy, key: Key, name: string) {
    if key.source in HIMMELBLAU_DOMAINS then name == key.target && name !in HIMMELBLAU_TYPES
    else name == key.source && !HasBlock(policy, name)
  }

  /** The rule is just what one of the denials asks for. */
  predicate IsRuleOf(denials: seq<Denial>, t: Token) {
    t.Rule? && t.grants && t.placed && t.closed && Denial(t.key, t.perms) in denials
  }

  predicate PendingIsNeeded(policy: Policy, denials: seq<Denial>, work: Work) {
    && (forall k | 0 <= k < |work.blockRules| ::
          IsRuleOf(denials, work.blockRules[k].1) && NeedsBlock(policy, work.blockRules[k].1.key, work.blockRules[k].0))
    && (forall k | 0 <= k < |work.appended| ::
          && IsRuleOf(denials, work.appended[k])
          && work.appended[k].key.source in HIMMELBLAU_DOMAINS && work.appended[k].key.target in HIMMELBLAU_TYPES)
  }

  lemma InsertedRuleIsNoBlock(policy: Policy, p: nat, t: Token, name: string)
    requires p <= |policy| && t.Rule?
    ensures HasBlock(InsertTokens(policy, p, [t]), name) <==> HasBlock(policy, name)
  {
    var new_ := InsertTokens(policy, p, [t]);
    if i :| 0 <= i < |policy| && IsBlockFor(policy[i], name) {
      assert new_[if i < p then i else i + 1] == policy[i];
    }
    if i :| 0 <= i < |new_| && IsBlockFor(new_[i], name) {
      assert new_[i] == if i < p then policy[i] else if i == p then t else policy[i - 1];
    }
  }

  lemma ApplyDenialKeepsBlocks(work: Work, d: Denial, name: string)
    ensures HasBlock(ApplyDenial(work, d).policy, name) <==> HasBlock(work.policy, name)
  {
    var i := FindRule(work.policy, d.key);
    if i < |work.policy| {
      var merged := Merged(work.policy, i, d.perms);
      assert forall k | 0 <= k < |merged| :: IsBlockFor(merged[k], name) <==> IsBlockFor(work.policy[k], name);
    } else {
      var start := FindBlock(work.policy, d.key.source);
      if start < |work.policy| {
        InsertedRuleIsNoBlock(work.policy, PlaceInBlock(work.policy, start), NewRule(d), name);
      }
    }
  }

  lemma {:induction false} ApplyDenialsKeepBlocks(policy: Policy, denials: seq<Denial>, name: string)
    ensures HasBlock(ApplyDenials(Work(policy, [], []), denials).policy, name) <==> HasBlock(policy, name)
  {
    if denials != [] {
      var front := denials[..|denials| - 1];
      ApplyDenialsKeepBlocks(policy, front, name);
      ApplyDenialKeepsBlocks(ApplyDenials(Work(policy, [], []), front), denials[|denials| - 1], name);
    }
  }

  lemma NeededStays(policy: Policy, denials: seq<Denial>, more: seq<Denial>, work: Work)
    requires PendingIsNeeded(policy, denials, work) && forall d | d in denials :: d in more
    ensures PendingIsNeeded(policy, more, work)
  {
  }

  lemma ApplyDenialNeeds(policy: Policy, denials: seq<Denial>, work: Work, d: Denial)
    requires PendingIsNeeded(policy, denials, work) && d in denials
    requires HasBlock(work.policy, d.key.source) <==> HasBlock(policy, d.key.source)
    ensures PendingIsNeeded(policy, denials, ApplyDenial(work, d))
  {
    FindBlockExactly(work.policy, d.key.source);
  }

  /**
   New blocks are made only for foreign targets of Himmelblau's domains and for sources that no
   block of the policy is for; rules outside blocks are added only between Himmelblau's own types.
   */
  lemma {:induction false} BlocksOnlyWhereMissing(policy: Policy, denials: seq<Denial>)
    ensures PendingIsNeeded(policy, denials, ApplyDenials(Work(policy, [], []), denials))
  {
    if denials != [] {
      var front, d := denials[..|denials| - 1], denials[|denials| - 1];
      var work := ApplyDenials(Work(policy, [], []), front);
      BlocksOnlyWhereMissing(policy, front);
      NeededStays(policy, front, denials, work);
      ApplyDenialsKeepBlocks(policy, front, d.key.source);
      ApplyDenialNeeds(policy, denials, work, d);
    }
  }

  // -- What is kept of the policy -------------------------------------------------------------------

  /** The same token, but for permissions added to a rule. */
  predicate Grown(t: Token, t': Token) {
    t == t' || (t.Rule? && t'.Rule? && t.perms <= t'.perms && t' == t.(perms := t'.perms))
  }

  /** A token this program writes: a rule of its own, or the frame of a block for one type. */
  predicate IsAdded(t: Token) {
    match t
    case Rule(grants, _, _, placed, closed) => grants && placed && closed
    case Open(optional, required) => optional && |required| == 1
    case Close => true
    case Other => false
  }

  /** `new_` holds all tokens of the policy in order, and besides them only added ones. */
  predicate Keeps(policy: Policy, new_: Policy) {
    if new_ == [] then policy == []
    else
      || (policy != [] && Grown(policy[0], new_[0]) && Keeps(policy[1..], new_[1..]))
      || (IsAdded(new_[0]) && Keeps(policy, new_[1..]))
  }

  lemma {:induction false} KeepsItself(policy: Policy)
    ensures Keeps(policy, policy)
  {
    if policy != [] { KeepsItself(policy[1..]); }
  }

  lemma {:induction false} KeepsTransitive(a: Policy, b: Policy, c: Policy)
    requires Keeps(a, b) && Keeps(b, c)
    ensures Keeps(a, c)
    decreases |c|
  {
    if c != [] {
      if b != [] && Grown(b[0], c[0]) && Keeps(b[1..], c[1..]) {
        if a != [] && Grown(a[0], b[0]) && Keeps(a[1..], b[1..]) {
          KeepsTransitive(a[1..], b[1..], c[1..]);
        } else {
          KeepsTransitive(a, b[1..], c[1..]);
        }
      } else {
        KeepsTransitive(a, b, c[1..]);
      }
    }
  }

  lemma {:induction false} KeepsInFront(r: seq<Token>, policy: Policy)
    requires forall i | 0 <= i < |r| :: IsAdded(r[i])
    ensures Keeps(policy, r + policy)
  {
    if r == [] {
      assert r + policy == policy;
      KeepsItself(policy);
    } else {
      KeepsInFront(r[1..], policy);
      assert (r + policy)[1..] == r[1..] + policy;
    }
  }

  lemma {:induction false} KeepsInsert(policy: Policy, p: nat, r: seq<Token>)
    requires p <= |policy| && forall i | 0 <= i < |r| :: IsAdded(r[i])
    ensures Keeps(policy, InsertTokens(policy, p, r))
  {
    if p == 0 {
      KeepsInFront(r, policy);
      assert InsertTokens(policy, p, r) == r + policy;
    } else {
      KeepsInsert(policy[1..], p - 1, r);
      assert InsertTokens(policy, p, r)[1..] == InsertTokens(policy[1..], p - 1, r);
    }
  }

  lemma {:induction false} KeepsMerged(policy: Policy, i: nat, perms: set<string>)
    requires i < |policy| && policy[i].Rule?
    ensures Keeps(policy, Merged(policy, i, perms))
  {
    if i == 0 {
      KeepsItself(policy[1..]);
      assert Merged(policy, i, perms)[1..] == policy[1..];
    } else {
      KeepsMerged(policy[1..], i - 1, perms);
      assert Merged(policy, i, perms)[1..] == Merged(policy[1..], i - 1, perms);
    }
  }

  lemma ApplyDenialKeeps(work: Work, d: Denial)
    ensures Keeps(work.policy, ApplyDenial(work, d).policy)
  {
    KeepsItself(work.policy);
    var i := FindRule(work.policy, d.key);
    if i < |work.policy| {
      KeepsMerged(work.policy, i, d.perms);
    } else {
      var start := FindBlock(work.policy, d.key.source);
      if start < |work.policy| { KeepsInsert(work.policy, PlaceInBlock(work.policy, start), [NewRule(d)]); }
    }
  }

  lemma {:induction false} ApplyDenialsKeep(policy: Policy, denials: seq<Denial>)
    ensures Keeps(policy, ApplyDenials(Work(policy, [], []), denials).policy)
  {
    if denials == [] {
      KeepsItself(policy);
    } else {
      var work := ApplyDenials(Work(policy, [], []), denials[..|denials| - 1]);
      ApplyDenialsKeep(policy, denials[..|denials| - 1]);
      ApplyDenialKeeps(work, denials[|denials| - 1]);
      KeepsTransitive(policy, work.policy, ApplyDenial(work, denials[|denials| - 1]).policy);
    }
  }

  predicate PendingIsAdded(work: Work) {
    && (forall i | 0 <= i < |work.blockRules| :: IsAdded(work.blockRules[i].1))
    && (forall i | 0 <= i < |work.appended| :: IsAdded(work.appended[i]))
  }

  lemma PendingAreAdded(policy: Policy, denials: seq<Denial>)
    ensures PendingIsAdded(ApplyDenials(Work(policy, [], []), denials))
  {
    BlocksOnlyWhereMissing(policy, denials);
  }

  lemma {:induction false} RulesOfAreAdded(rules: seq<(string, Token)>, name: string)
    requires forall i | 0 <= i < |rules| :: IsAdded(rules[i].1)
    ensures forall i | 0 <= i < |RulesOf(rules, name)| :: IsAdded(RulesOf(rules, name)[i])
  {
    if rules != [] { RulesOfAreAdded(rules[..|rules| - 1], name); }
  }

  lemma {:induction false} NewBlocksAreAdded(types: seq<string>, rules: seq<(string, Token)>)
    requires forall i | 0 <= i < |rules| :: IsAdded(rules[i].1)
    ensures forall i | 0 <= i < |NewBlocks(types, rules)| :: IsAdded(NewBlocks(types, rules)[i])
  {
    if types != [] {
      RulesOfAreAdded(rules, types[0]);
      NewBlocksAreAdded(types[1..], rules);
    }
  }

  lemma FinishedKeeps(work: Work, place: nat, place': nat)
    requires PendingIsAdded(work)
    ensures Keeps(work.policy, Finished(work, place, place'))
  {
    var policy := WithBlocks(work, place);
    KeepsItself(work.policy);
    if work.blockRules != [] {
      NewBlocksAreAdded(Sort(BlockTypes(work.blockRules)), work.blockRules);
      KeepsInsert(work.policy, PlaceForBlocks(work.policy, place), AddedBlocks(work));
    }
    if work.appended != [] {
      KeepsInsert(policy, Min(place', |policy|), work.appended);
      KeepsTransitive(work.policy, policy, Finished(work, place, place'));
    }
  }

  /**
   Any denials, applied to any policy, leave all its tokens in place and in order; rules may gain
   permissions, and nothing is added but granting rules and blocks for one type each.
   */
  lemma ApplyingOnlyAdds(policy: Policy, denials: seq<Denial>, place: nat, place': nat)
    ensures Keeps(policy, ApplyRules(policy, denials, place, place'))
  {
    var work := ApplyDenials(Work(policy, [], []), denials);
    ApplyDenialsKeep(policy, denials);
    PendingAreAdded(policy, denials);
    FinishedKeeps(work, place, place');
    KeepsTransitive(policy, work.policy, ApplyRules(policy, denials, place, place'));
  }

  // -- Processing an audit log ------------------------------------------------------------------------

  /** Processing any log keeps optional blocks apart, and only adds to the policy. */
  lemma ProcessingOnlyAdds(policy: Policy, denials: seq<Denial>, place: nat, place': nat)
    ensures Keeps(policy, Process(policy, denials, place, place'))
    ensures WellNested(policy) && BlocksApart(policy) ==> BlocksApart(Process(policy, denials, place, place'))
  {
    KeepsItself(policy);
    var rules := AllNeeded(policy, Relevant(denials));
    if rules != [] {
      ApplyingOnlyAdds(policy, rules, place, place');
      if WellNested(policy) && BlocksApart(policy) { ApplyingKeepsBlocksApart(policy, rules, place, place'); }
    }
  }
}

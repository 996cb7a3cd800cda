/**
 Nesting, seen as a sequence of weights: +1 opens a block, -1 closes one, 0 does neither.
 */
module Braces {

  function Sum(w: seq<int>): int {
    if w == [] then 0 else Sum(w[..|w| - 1]) + w[|w| - 1]
  }

  /** No prefix closes more than it opened. */
  predicate NeverBelow(w: seq<int>) {
    forall n | 0 <= n <= |w| :: Sum(w[..n]) >= 0
  }

  predicate Balanced(w: seq<int>) {
    NeverBelow(w) && Sum(w) == 0
  }

  predicate Flat(w: seq<int>) {
    forall i | 0 <= i < |w| :: w[i] == 0
  }

  lemma {:induction false} SumAppend(a: seq<int>, b: seq<int>)
    ensures Sum(a + b) == Sum(a) + Sum(b)
  {
    if b == [] {
      assert a + b == a;
    } else {
      assert (a + b)[..|a + b| - 1] == a + b[..|b| - 1];
      SumAppend(a, b[..|b| - 1]);
    }
  }

  lemma {:induction false} SumFlat(w: seq<int>)
    requires Flat(w)
    ensures Sum(w) == 0
  {
    if w != [] { SumFlat(w[..|w| - 1]); }
  }

  lemma SumSlices(w: seq<int>, i: nat, j: nat, k: nat)
    requires i <= j <= k <= |w|
    ensures Sum(w[i..k]) == Sum(w[i..j]) + Sum(w[j..k])
  {
    assert w[i..k] == w[i..j] + w[j..k];
    SumAppend(w[i..j], w[j..k]);
  }

  /** `r` put in at position `p`. */
  function Insert(w: seq<int>, p: nat, r: seq<int>): seq<int>
    requires p <= |w|
  {
    w[..p] + r + w[p..]
  }

  lemma SumInsert(w: seq<int>, p: nat, r: seq<int>)
    requires p <= |w|
    ensures Sum(Insert(w, p, r)) == Sum(w) + Sum(r)
  {
    assert w == w[..p] + w[p..];
    SumAppend(w[..p], w[p..]);
    SumAppend(w[..p], r);
    SumAppend(w[..p] + r, w[p..]);
  }

  lemma TakeInsert(w: seq<int>, p: nat, r: seq<int>, n: nat)
    requires p + |r| <= n <= |w| + |r|
    ensures Insert(w, p, r)[..n] == Insert(w[..n - |r|], p, r)
  {
  }

  lemma TakeInsertInside(w: seq<int>, p: nat, r: seq<int>, n: nat)
    requires p <= |w| && p <= n <= p + |r|
    ensures Insert(w, p, r)[..n] == w[..p] + r[..n - p]
  {
  }

  lemma TakeInsertBefore(w: seq<int>, p: nat, r: seq<int>, n: nat)
    requires n <= p <= |w|
    ensures Insert(w, p, r)[..n] == w[..n]
  {
  }

  /** Every prefix of the new text, traced back to the old one. */
  lemma PrefixOfInsert(w: seq<int>, p: nat, r: seq<int>, n: nat)
    requires p <= |w| && n <= |w| + |r|
    ensures Sum(Insert(w, p, r)[..n]) ==
            if n <= p then Sum(w[..n])
            else if n <= p + |r| then Sum(w[..p]) + Sum(r[..n - p])
            else Sum(w[..n - |r|]) + Sum(r)
  {
    if n <= p {
      TakeInsertBefore(w, p, r, n);
    } else if n <= p + |r| {
      TakeInsertInside(w, p, r, n);
      SumAppend(w[..p], r[..n - p]);
    } else {
      TakeInsert(w, p, r, n);
      SumInsert(w[..n - |r|], p, r);
    }
  }

  /** A balanced piece may go anywhere. */
  lemma InsertKeepsBalance(w: seq<int>, p: nat, r: seq<int>)
    requires p <= |w| && Balanced(w) && Balanced(r)
    ensures Balanced(Insert(w, p, r))
  {
    var new_ := Insert(w, p, r);
    SumInsert(w, p, r);
    forall n | 0 <= n <= |new_| ensures Sum(new_[..n]) >= 0 {
      PrefixOfInsert(w, p, r, n);
    }
  }

  /** The block opened from `start` on ends at `end`: the first close that brings the count to zero. */
  ghost predicate IsBlockEnd(w: seq<int>, start: nat, end: nat) {
    && start < end <= |w| && ClosesAt(w, start, end)
    && forall n | start < n < end :: !ClosesAt(w, start, n)
  }

  predicate ClosesAt(w: seq<int>, start: nat, n: nat)
    requires start < n <= |w|
  {
    w[n - 1] == -1 && Sum(w[start..n]) == 0
  }

  predicate Steps(w: seq<int>) {
    forall i | 0 <= i < |w| :: -1 <= w[i] <= 1
  }

  /** Before its end a block that has been opened stays open. */
  lemma {:induction false} OpenBeforeEnd(w: seq<int>, start: nat, open: nat, end: nat, n: nat)
    requires Steps(w) && IsBlockEnd(w, start, end)
    requires start <= open <= n < end && Sum(w[start..open]) > 0
    ensures Sum(w[start..n]) > 0
  {
    if n > open {
      OpenBeforeEnd(w, start, open, end, n - 1);
      SliceStep(w, start, n - 1);
      assert !ClosesAt(w, start, n);
    }
  }

  lemma SliceStep(w: seq<int>, start: nat, n: nat)
    requires start <= n < |w|
    ensures Sum(w[start..n + 1]) == Sum(w[start..n]) + w[n]
  {
    assert w[start..n + 1][..n - start] == w[start..n];
  }

  lemma OpenIsNotAll(w: seq<int>, start: nat)
    requires Balanced(w) && start <= |w|
    ensures Sum(w[start..|w|]) <= 0
  {
    SumOfSlice(w, start, |w|);
    assert w[..|w|] == w;
  }

  /** In a balanced text a block that is opened is closed. */
  lemma {:induction false} BlockIsClosed(w: seq<int>, start: nat, n: nat) returns (end: nat)
    requires Steps(w) && Balanced(w) && start <= n <= |w| && Sum(w[start..n]) > 0
    requires forall k | start < k <= n :: !ClosesAt(w, start, k)
    ensures IsBlockEnd(w, start, end) && end > n
    decreases |w| - n
  {
    OpenIsNotAll(w, start);
    assert n < |w|;
    SliceStep(w, start, n);
    if ClosesAt(w, start, n + 1) {
      end := n + 1;
    } else {
      end := BlockIsClosed(w, start, n + 1);
    }
  }

  /**
   A balanced piece put in front of a block's closing brace lies at depth one of the block, and
   the block's end moves by exactly its length.
   */
  lemma InsertMovesBlockEnd(w: seq<int>, start: nat, open: nat, end: nat, p: nat, r: seq<int>)
    requires Steps(w) && IsBlockEnd(w, start, end)
    requires start <= open <= p < end && Sum(w[start..open]) > 0
    requires Flat(w[p..end - 1]) && Balanced(r)
    ensures Sum(w[start..p]) == 1
    ensures IsBlockEnd(Insert(w, p, r), start, end + |r|)
  {
    SumSlices(w, start, p, end - 1);
    SumFlat(w[p..end - 1]);
    assert w[start..end][..end - 1 - start] == w[start..end - 1];
    var new_ := Insert(w, p, r);
    forall n | start < n <= end + |r|
      ensures ClosesAt(new_, start, n) <==> n == end + |r|
    {
      ClosesInNew(w, start, open, end, p, r, n);
    }
  }

  lemma ClosesInNew(w: seq<int>, start: nat, open: nat, end: nat, p: nat, r: seq<int>, n: nat)
    requires Steps(w) && IsBlockEnd(w, start, end)
    requires start <= open <= p < end && Sum(w[start..open]) > 0
    requires Sum(w[start..p]) == 1 && Balanced(r) && start < n <= end + |r|
    ensures ClosesAt(Insert(w, p, r), start, n) <==> n == end + |r|
  {
    var new_ := Insert(w, p, r);
    PrefixOfInsert(w, p, r, n);
    PrefixOfInsert(w, p, r, start);
    SliceFromPrefix(w, start, p, r, n, new_);
    if n <= p {
      assert !ClosesAt(w, start, n);
    } else if n > p + |r| {
      assert ClosesAt(w, start, n - |r|) <==> n - |r| == end;
    }
  }

  /** The count from `start` on, traced back to the old text. */
  lemma SliceFromPrefix(w: seq<int>, start: nat, p: nat, r: seq<int>, n: nat, new_: seq<int>)
    requires start <= p <= |w| && start <= n <= |w| + |r| == |new_|
    requires Sum(new_[..start]) == Sum(w[..start])
    requires Sum(new_[..n]) ==
             if n <= p then Sum(w[..n])
             else if n <= p + |r| then Sum(w[..p]) + Sum(r[..n - p])
             else Sum(w[..n - |r|]) + Sum(r)
    ensures Sum(new_[start..n]) ==
            if n <= p then Sum(w[start..n])
            else if n <= p + |r| then Sum(w[start..p]) + Sum(r[..n - p])
            else Sum(w[start..n - |r|]) + Sum(r)
  {
    SumOfSlice(new_, start, n);
    SumOfSlice(w, start, if n <= p then n else if n <= p + |r| then p else n - |r|);
  }

  lemma SumOfSlice(w: seq<int>, i: nat, j: nat)
    requires i <= j <= |w|
    ensures Sum(w[i..j]) == Sum(w[..j]) - Sum(w[..i])
  {
    assert w[..j] == w[..i] + w[i..j];
    SumAppend(w[..i], w[i..j]);
  }

  /** Braces stay balanced and the block keeps its end when a balanced text is put at its depth. */
  lemma InsertKeepsNesting(w: seq<int>, start: nat, open: nat, end: nat, p: nat, r: seq<int>, new_: seq<int>)
    requires Steps(w) && Balanced(w) && IsBlockEnd(w, start, end)
    requires start <= open <= p < end && Sum(w[start..open]) > 0
    requires Flat(w[p..end - 1]) && Balanced(r)
    requires new_ == Insert(w, p, r)
    ensures Balanced(new_) && IsBlockEnd(new_, start, end + |r|)
  {
    InsertKeepsBalance(w, p, r);
    InsertMovesBlockEnd(w, start, open, end, p, r);
  }
}

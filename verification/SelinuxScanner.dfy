/**
 Adding a rule to an optional block of an SELinux policy text, character by character: finding
 the block that requires a type, its closing brace, and the place for the rule.
 */
module SelinuxScanner {
  import opened Text
  import opened Braces

  function Weight(c: char): int {
    if c == '{' then 1 else if c == '}' then -1 else 0
  }

  function Weights(text: string): (w: seq<int>)
    ensures |w| == |text| && Steps(w)
  {
    seq(|text|, i requires 0 <= i < |text| => Weight(text[i]))
  }

  lemma WeightsAppend(a: string, b: string)
    ensures Weights(a + b) == Weights(a) + Weights(b)
  {
  }

  lemma WeightsSlice(text: string, i: nat, j: nat)
    requires i <= j <= |text|
    ensures Weights(text[i..j]) == Weights(text)[i..j]
  {
  }

  // -- Block headers --------------------------------------------------------------------------

  /** A type name is a word: letters, digits and underscores. */
  predicate IsName(name: string) {
    name != "" && forall i | 0 <= i < |name| :: IsNameChar(name[i])
  }

  predicate IsNameChar(c: char) {
    'a' <= c <= 'z' || 'A' <= c <= 'Z' || '0' <= c <= '9' || c == '_'
  }

  /** The texts matched as the beginning of an optional block that requires the type. */
  ghost predicate IsHeader(h: string, name: string) {
    exists a, b, c, d, e, f :: HeaderWith(h, name, a, b, c, d, e, f)
  }

  predicate HeaderWith(h: string, name: string, a: string, b: string, c: string, d: string, e: string, f: string) {
    && Blank(a) && Blank(b) && Blank(c) && Blank(d) && Blank(e) && e != "" && Blank(f)
    && h == "optional" + a + "{" + (b + "require" + c + "{") + (d + "type" + e + name + f) + ";"
  }

  /** A header starts at `i` and ends at `m`. */
  ghost predicate HeaderAt(text: string, name: string, i: nat, m: nat) {
    i <= m <= |text| && IsHeader(text[i..m], name)
  }

  /** What a search for the header brings back: its leftmost occurrence. */
  ghost predicate SearchFinds(text: string, name: string, found: Option<nat>) {
    match found
    case None => forall i: nat, m: nat :: !HeaderAt(text, name, i, m)
    case Some(s) =>
      && (exists m: nat :: HeaderAt(text, name, s, m))
      && (forall i: nat, m: nat | i < s :: !HeaderAt(text, name, i, m))
  }

  /** A stretch without a closing brace that ends in the given number of open ones. */
  predicate Opens(s: string, n: int) {
    '}' !in s && ';' !in s && Sum(Weights(s)) == n
  }

  lemma OpensAppend(a: string, m: int, b: string, n: int)
    requires Opens(a, m) && Opens(b, n)
    ensures Opens(a + b, m + n)
  {
    WeightsAppend(a, b);
    SumAppend(Weights(a), Weights(b));
  }

  predicate Plain(s: string) {
    '{' !in s && '}' !in s && ';' !in s
  }

  lemma PlainOpensNothing(s: string)
    requires Plain(s)
    ensures Opens(s, 0)
  {
    SumFlat(Weights(s));
  }

  lemma BlankIsPlain(s: string)
    requires Blank(s)
    ensures Plain(s)
  {
  }

  lemma NameIsPlain(s: string)
    requires IsName(s)
    ensures Plain(s)
  {
  }

  lemma BraceOpensOne()
    ensures Opens("{", 1)
  {
    assert Weights("{") == [1];
    assert Sum([1]) == Sum([]) + 1 by { assert [1][..0] == []; }
  }

  /** A header opens two blocks and closes none; its only semicolon is its last character. */
  lemma HeaderShape(h: string, name: string)
    requires IsHeader(h, name) && IsName(name)
    ensures |h| >= 2 && h[|h| - 1] == ';' && Opens(h[..|h| - 1], 2)
  {
    var a, b, c, d, e, f :| HeaderWith(h, name, a, b, c, d, e, f);
    BraceOpensOne();
    HeaderPart1(a);
    HeaderPart2(b, c);
    HeaderPart3(d, e, name, f);
    var one := "optional" + a + "{";
    var two := b + "require" + c + "{";
    var three := d + "type" + e + name + f;
    OpensAppend(one, 1, two, 1);
    OpensAppend(one + two, 2, three, 0);
    assert h == one + two + three + ";";
    assert h[..|h| - 1] == one + two + three;
  }

  lemma HeaderPart1(a: string)
    requires Blank(a)
    ensures Opens("optional" + a + "{", 1)
  {
    BlankIsPlain(a);
    PlainOpensNothing("optional" + a);
    BraceOpensOne();
    OpensAppend("optional" + a, 0, "{", 1);
  }

  lemma HeaderPart2(b: string, c: string)
    requires Blank(b) && Blank(c)
    ensures Opens(b + "require" + c + "{", 1)
  {
    BlankIsPlain(b);
    BlankIsPlain(c);
    PlainOpensNothing(b + "require" + c);
    BraceOpensOne();
    OpensAppend(b + "require" + c, 0, "{", 1);
  }

  lemma HeaderPart3(d: string, e: string, name: string, f: string)
    requires Blank(d) && Blank(e) && Blank(f) && IsName(name)
    ensures Opens(d + "type" + e + name + f, 0)
  {
    BlankIsPlain(d);
    BlankIsPlain(e);
    BlankIsPlain(f);
    NameIsPlain(name);
    PlainOpensNothing(d + "type" + e + name + f);
  }

  // -- The scanners ---------------------------------------------------------------------------

  /** The block from `start` on is closed somewhere. */
  ghost predicate Closed(text: string, start: nat) {
    exists end :: IsBlockEnd(Weights(text), start, end)
  }

  /** The end of the block from `start` on; a block that is never closed ends where it starts. */
  ghost predicate IsScanned(text: string, start: nat, end: nat) {
    if Closed(text, start) then IsBlockEnd(Weights(text), start, end) else end == start
  }

  method FindOptionalBlock(text: string, name: string, found: Option<nat>) returns (block: Option<(nat, nat)>)
    requires SearchFinds(text, name, found) && (found.Some? ==> found.value <= |text|)
    ensures block.Some? <==> found.Some?
    ensures block.Some? ==> block.value.0 == found.value && IsScanned(text, found.value, block.value.1)
  {
    if found.None? { return None; }
    var end := ScanBlock(text, found.value);
    block := Some((found.value, end));
  }

  /** Counts braces until the count is back at zero. */
  method ScanBlock(text: string, start: nat) returns (end: nat)
    requires start <= |text|
    ensures IsScanned(text, start, end)
  {
    ghost var w := Weights(text);
    var braceCount := 0;
    var i := start;
    while i < |text|
      invariant start <= i <= |text|
      invariant braceCount == Sum(w[start..i])
      invariant forall n | start < n <= i :: !ClosesAt(w, start, n)
    {
      SliceStep(w, start, i);
      if text[i] == '{' {
        braceCount := braceCount + 1;
      } else if text[i] == '}' {
        braceCount := braceCount - 1;
        if braceCount == 0 {
          assert IsBlockEnd(w, start, i + 1);
          return i + 1;
        }
      }
      i := i + 1;
    }
    end := start;
  }

  predicate IsIndent(c: char) {
    c == ' ' || c == '\t'
  }

  /** Just before the last closing brace of the block and the indentation in front of it. */
  method FindInsertionPoint(text: string, start: nat, end: nat) returns (p: nat)
    requires start <= end <= |text|
    ensures start <= p <= end
    ensures (forall k | start <= k < end :: text[k] != '}') ==> p == end
    ensures (exists k | start <= k < end :: text[k] == '}') ==>
            (p == start || !IsIndent(text[p - 1])) && exists b :: IsPlace(text, start, end, p, b)
  {
    var b := end;
    while b > start
      invariant start <= b <= end
      invariant forall k | b <= k < end :: text[k] != '}'
    {
      b := b - 1;
      if text[b] == '}' {
        p := b;
        while p > start && IsIndent(text[p - 1])
          invariant start <= p <= b
          invariant forall i | p <= i < b :: IsIndent(text[i])
        {
          p := p - 1;
        }
        assert IsPlace(text, start, end, p, b);
        return;
      }
    }
    p := end;
  }

  // -- What an insertion keeps -----------------------------------------------------------------

  /** A balanced policy closes every optional block. */
  lemma BalancedPolicyClosesBlocks(text: string, name: string, start: nat, m: nat)
    requires Balanced(Weights(text)) && IsName(name) && HeaderAt(text, name, start, m)
    ensures Closed(text, start)
  {
    HeaderOpensTwo(text, name, start, m);
    forall k | start < k <= m ensures !ClosesAt(Weights(text), start, k) {
      HeaderClosesNothing(text, name, start, m, k - 1);
    }
    var end := BlockIsClosed(Weights(text), start, m);
  }

  /** The header's only semicolon is its last character. */
  lemma HeaderEndsAtSemicolon(text: string, name: string, start: nat, m: nat)
    requires IsName(name) && HeaderAt(text, name, start, m)
    ensures start + 2 <= m && text[m - 1] == ';' && Opens(text[start..m - 1], 2)
    ensures forall k | start <= k < m - 1 :: text[k] != ';'
  {
    var h := text[start..m];
    HeaderShape(h, name);
    assert h[..|h| - 1] == text[start..m - 1];
    forall k | start <= k < m - 1 ensures text[k] != ';' {
      InSlice(text, start, m - 1, k);
    }
  }

  lemma HeaderOpensTwo(text: string, name: string, start: nat, m: nat)
    requires IsName(name) && HeaderAt(text, name, start, m)
    ensures start + 2 <= m && Sum(Weights(text)[start..m]) == 2
  {
    HeaderEndsAtSemicolon(text, name, start, m);
    WeightsSlice(text, start, m - 1);
    SliceStep(Weights(text), start, m - 1);
  }

  lemma HeaderClosesNothing(text: string, name: string, start: nat, m: nat, k: nat)
    requires IsName(name) && HeaderAt(text, name, start, m) && start <= k < m
    ensures Weights(text)[k] != -1
  {
    HeaderEndsAtSemicolon(text, name, start, m);
    if k < m - 1 { assert text[k] == text[start..m - 1][k - start]; }
  }

  /** The block ends behind its header. */
  lemma BlockEndsBehindHeader(text: string, name: string, start: nat, m: nat, end: nat)
    requires IsName(name) && HeaderAt(text, name, start, m) && IsBlockEnd(Weights(text), start, end)
    ensures m < end
  {
    if end <= m { HeaderClosesNothing(text, name, start, m, end - 1); }
  }

  /** The closing brace and nothing but indentation in front of it, back to `p`. */
  predicate IsPlace(text: string, start: nat, end: nat, p: nat, b: nat) {
    && start <= p <= b < end <= |text| && text[b] == '}' && (forall k | b < k < end :: text[k] != '}')
    && (forall i | p <= i < b :: IsIndent(text[i]))
  }

  lemma LastBraceCloses(text: string, start: nat, end: nat, p: nat, b: nat)
    requires IsBlockEnd(Weights(text), start, end) && IsPlace(text, start, end, p, b)
    ensures b == end - 1 && Flat(Weights(text)[p..end - 1]) && Sum(Weights(text)[start..p]) == 1
  {
    var w := Weights(text);
    assert text[end - 1] == '}';
    SliceStep(w, start, end - 1);
    SumSlices(w, start, p, end - 1);
    SumFlat(w[p..end - 1]);
  }

  /** The place found lies at depth one, behind the whole header and in front of the closing brace. */
  lemma PlaceIsInsideBlock(text: string, name: string, start: nat, m: nat, end: nat, p: nat, b: nat)
    requires IsName(name) && HeaderAt(text, name, start, m) && IsBlockEnd(Weights(text), start, end)
    requires IsPlace(text, start, end, p, b)
    ensures m <= p < end && Flat(Weights(text)[p..end - 1]) && Sum(Weights(text)[start..p]) == 1
  {
    LastBraceCloses(text, start, end, p, b);
    HeaderOpensTwo(text, name, start, m);
    BlockEndsBehindHeader(text, name, start, m, end);
    if p < m {
      SumSlices(Weights(text), start, p, m);
      SumFlatTail(Weights(text), p, m, end);
    }
  }

  /** Two open blocks do not become one without a closing brace in between. */
  lemma SumFlatTail(w: seq<int>, p: nat, m: nat, end: nat)
    requires p < m < end <= |w| && Flat(w[p..end - 1])
    ensures Sum(w[p..m]) == 0
  {
    assert forall i | 0 <= i < m - p :: w[p..m][i] == w[p..end - 1][i];
    SumFlat(w[p..m]);
  }

  /** A header that starts earlier in the changed text would have started there before. */
  lemma NoEarlierHeader(text: string, new_: string, name: string, m: nat, i: nat, k: nat)
    requires IsName(name) && i < m <= |text| && m <= |new_| && text[..m] == new_[..m] && text[m - 1] == ';'
    requires HeaderAt(new_, name, i, k)
    ensures HeaderAt(text, name, i, k)
  {
    HeaderEndsAtSemicolon(new_, name, i, k);
    assert new_[m - 1] == new_[..m][m - 1] == text[..m][m - 1];
    assert k <= m;
    TakeSlice(new_, m, i, k);
    TakeSlice(text, m, i, k);
  }

  /** The header is found again at the same place: nothing behind its semicolon matters to the search. */
  lemma SearchFindsAgain(text: string, new_: string, name: string, start: nat, m: nat)
    requires IsName(name) && SearchFinds(text, name, Some(start)) && HeaderAt(text, name, start, m)
    requires m <= |new_| && text[..m] == new_[..m]
    ensures SearchFinds(new_, name, Some(start))
  {
    TakeSlice(new_, m, start, m);
    TakeSlice(text, m, start, m);
    assert HeaderAt(new_, name, start, m);
    HeaderEndsAtSemicolon(text, name, start, m);
    forall i: nat, k: nat | i < start ensures !HeaderAt(new_, name, i, k) {
      if HeaderAt(new_, name, i, k) { NoEarlierHeader(text, new_, name, m, i, k); }
    }
  }

  lemma WeightsInsert(text: string, p: nat, line: string)
    requires p <= |text|
    ensures Weights(text[..p] + line + text[p..]) == Insert(Weights(text), p, Weights(line))
  {
  }

  /**
   Adding a rule to the optional block of a type. In a balanced policy the braces stay balanced,
   the rule lies at depth one of the block and behind the block's requirement, and searching again
   finds the same block, its end moved by exactly the length of the added line.
   */
  method AddToBlock(text: string, name: string, start: nat, line: string) returns (new_: string, p: nat)
    requires IsName(name) && SearchFinds(text, name, Some(start)) && start <= |text|
    requires Balanced(Weights(text)) && Balanced(Weights(line))
    ensures p <= |text| && new_ == text[..p] + line + text[p..]
    ensures Balanced(Weights(new_))
    ensures start < p && Sum(Weights(text)[start..p]) == 1
    ensures SearchFinds(new_, name, Some(start))
    ensures exists end :: p < end && IsBlockEnd(Weights(text), start, end)
                          && IsBlockEnd(Weights(new_), start, end + |line|)
  {
    ghost var m :| HeaderAt(text, name, start, m);
    BalancedPolicyClosesBlocks(text, name, start, m);
    var end;
    end, p := FindPlaceInBlock(text, name, start);
    ghost var b :| IsPlace(text, start, end, p, b);
    new_ := text[..p] + line + text[p..];
    AddedLineFits(text, name, start, m, end, p, b, line);
  }

  method FindPlaceInBlock(text: string, name: string, start: nat) returns (end: nat, p: nat)
    requires SearchFinds(text, name, Some(start)) && start <= |text| && Closed(text, start)
    ensures IsBlockEnd(Weights(text), start, end) && exists b :: IsPlace(text, start, end, p, b)
  {
    var block := FindOptionalBlock(text, name, Some(start));
    end := block.value.1;
    p := FindInsertionPoint(text, start, end);
    assert text[end - 1] == '}';
  }

  lemma AddedLineFits(text: string, name: string, start: nat, m: nat, end: nat, p: nat, b: nat, line: string)
    requires IsName(name) && SearchFinds(text, name, Some(start)) && HeaderAt(text, name, start, m)
    requires Balanced(Weights(text)) && Balanced(Weights(line))
    requires IsBlockEnd(Weights(text), start, end) && IsPlace(text, start, end, p, b)
    ensures var new_ := text[..p] + line + text[p..];
            && Balanced(Weights(new_)) && SearchFinds(new_, name, Some(start))
            && start < p < end && Sum(Weights(text)[start..p]) == 1
            && IsBlockEnd(Weights(new_), start, end + |line|)
  {
    PlaceIsInsideBlock(text, name, start, m, end, p, b);
    HeaderOpensTwo(text, name, start, m);
    LineKeepsNesting(text, start, m, end, p, line);
    TakeBeforeInsert(text, p, line, m);
    SearchFindsAgain(text, text[..p] + line + text[p..], name, start, m);
  }

  lemma TakeBeforeInsert(text: string, p: nat, line: string, m: nat)
    requires m <= p <= |text|
    ensures (text[..p] + line + text[p..])[..m] == text[..m]
  {
  }

  lemma LineKeepsNesting(text: string, start: nat, open: nat, end: nat, p: nat, line: string)
    requires Balanced(Weights(text)) && Balanced(Weights(line)) && IsBlockEnd(Weights(text), start, end)
    requires start <= open <= p < end && Sum(Weights(text)[start..open]) > 0 && Flat(Weights(text)[p..end - 1])
    ensures Balanced(Weights(text[..p] + line + text[p..]))
    ensures IsBlockEnd(Weights(text[..p] + line + text[p..]), start, end + |line|)
  {
    var w, r, new_ := Weights(text), Weights(line), Weights(text[..p] + line + text[p..]);
    assert new_ == Insert(w, p, r) by { WeightsInsert(text, p, line); }
    InsertKeepsNesting(w, start, open, end, p, r, new_);
  }

  // -- The line that is added ------------------------------------------------------------------

  /** `allow source target:class { perms };` */
  function RuleText(source: string, target: string, class_: string, perms: string): string {
    "allow " + source + " " + target + ":" + class_ + " " + ("{ " + perms + " }") + ";"
  }

  predicate BraceFree(s: string) {
    '{' !in s && '}' !in s
  }

  lemma BraceFreeIsBalanced(s: string)
    requires BraceFree(s)
    ensures Balanced(Weights(s))
  {
    SumFlat(Weights(s));
    forall n | 0 <= n <= |s| ensures Sum(Weights(s)[..n]) >= 0 {
      SumFlat(Weights(s)[..n]);
    }
  }

  lemma BalancedAppend(a: seq<int>, b: seq<int>)
    requires Balanced(a) && Balanced(b)
    ensures Balanced(a + b)
  {
    assert a + b == Insert(a, |a|, b);
    InsertKeepsBalance(a, |a|, b);
  }

  lemma BracedIsBalanced(s: string)
    requires BraceFree(s)
    ensures Balanced(Weights("{" + s + "}"))
  {
    BraceFreeIsBalanced(s);
    assert Weights("{" + s + "}") == Insert([1, -1], 1, Weights(s));
    assert Balanced([1, -1]) by {
      assert [1, -1][..0] == [] && [1, -1][..1] == [1] && [1][..0] == [] && [1, -1][..2] == [1, -1];
    }
    InsertKeepsBalance([1, -1], 1, Weights(s));
  }

  /** The added line is balanced whatever words the denial is made of. */
  lemma RuleLineIsBalanced(indent: string, source: string, target: string, class_: string, perms: string)
    requires BraceFree(indent) && BraceFree(source) && BraceFree(target) && BraceFree(class_) && BraceFree(perms)
    ensures Balanced(Weights("\n" + indent + RuleText(source, target, class_, perms)))
  {
    var before := "\n" + indent + ("allow " + source + " " + target + ":" + class_ + " ");
    var inside := " " + perms + " ";
    BraceFreeIsBalanced(before);
    BracedIsBalanced(inside);
    BraceFreeIsBalanced(";");
    BalancedThree(before, "{" + inside + "}", ";");
    assert "\n" + indent + RuleText(source, target, class_, perms) == before + ("{" + inside + "}") + ";";
  }

  lemma BalancedThree(a: string, b: string, c: string)
    requires Balanced(Weights(a)) && Balanced(Weights(b)) && Balanced(Weights(c))
    ensures Balanced(Weights(a + b + c))
  {
    WeightsAppend(a, b);
    BalancedAppend(Weights(a), Weights(b));
    WeightsAppend(a + b, c);
    BalancedAppend(Weights(a + b), Weights(c));
  }
}

/**
 Strings as the sources see them: Rust and Python text is a sequence of Unicode
 characters, measured in UTF-8 bytes where Rust's `len` is meant.
 */
module Text {

  datatype Option<+T> = None | Some(value: T)

  datatype Result<+T, +E> = Ok(value: T) | Err(error: E)

  /** Bytes taken by one character in UTF-8. */
  function Utf8Width(c: char): (w: nat)
    ensures 1 <= w <= 4
  {
    if c as int < 0x80 then 1
    else if c as int < 0x800 then 2
    else if c as int < 0x10000 then 3
    else 4
  }

  /** Rust's `str::len`: the length in bytes. */
  function ByteLen(s: string): (n: nat)
    ensures n >= |s|
  {
    if s == "" then 0 else Utf8Width(s[0]) + ByteLen(s[1..])
  }

  /** The characters Unicode calls white space. */
  predicate IsSpace(c: char) {
    var n := c as int;
    9 <= n <= 13 || n == 0x20 || n == 0x85 || n == 0xA0 || n == 0x1680 || 0x2000 <= n <= 0x200A ||
    n == 0x2028 || n == 0x2029 || n == 0x202F || n == 0x205F || n == 0x3000
  }

  predicate Blank(s: string) {
    forall i | 0 <= i < |s| :: IsSpace(s[i])
  }

  /** `pat` starts at position `i` of `s`. */
  predicate At(s: string, pat: string, i: nat) {
    i + |pat| <= |s| && s[i..i + |pat|] == pat
  }

  predicate Contains(s: string, pat: string) {
    exists i | 0 <= i <= |s| :: At(s, pat, i)
  }

  predicate StartsWith(s: string, pat: string) {
    pat <= s
  }

  function TrimStart(s: string): (r: string)
    ensures r == "" || !IsSpace(r[0])
    ensures |r| <= |s|
  {
    if s != "" && IsSpace(s[0]) then TrimStart(s[1..]) else s
  }

  function TrimEnd(s: string): (r: string)
    ensures r <= s
    ensures r == "" || !IsSpace(r[|r| - 1])
    ensures Blank(s[|r|..])
  {
    if s != "" && IsSpace(s[|s| - 1]) then TrimEnd(s[..|s| - 1]) else s
  }

  /** Python's `strip` and Rust's `trim`. */
  function Trim(s: string): string {
    TrimEnd(TrimStart(s))
  }

  lemma {:induction false} TrimEndIdempotent(s: string)
    ensures TrimEnd(TrimEnd(s)) == TrimEnd(s)
  {
    if s != "" && IsSpace(s[|s| - 1]) { TrimEndIdempotent(s[..|s| - 1]); }
  }

  lemma InSlice<T>(s: seq<T>, i: nat, j: nat, k: nat)
    requires i <= k < j <= |s|
    ensures s[k] in s[i..j]
  {
    assert s[k] == s[i..j][k - i];
  }

  lemma TakeSlice<T>(s: seq<T>, m: nat, i: nat, k: nat)
    requires i <= k <= m <= |s|
    ensures s[..m][i..k] == s[i..k]
  {
  }

  lemma MiddleSlice<T>(a: seq<T>, b: seq<T>, c: seq<T>, j: nat, n: nat)
    requires j <= n <= |b|
    ensures (a + b + c)[|a| + j..|a| + n] == b[j..n]
  {
  }

  lemma ContainsMiddle(a: string, pat: string, b: string)
    ensures Contains(a + pat + b, pat)
  {
    assert At(a + pat + b, pat, |a|);
  }
}

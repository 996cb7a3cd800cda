/**
 The Hello PIN rules: which PINs count as simple, and the administrator's policy.
 */
module HelloPin {
  import opened Text

  /** Eight-bit arithmetic: any step that would wrap is an error here. */
  newtype U8 = x: int | 0 <= x < 256

  type Digit = d: U8 | d < 10

  const DEFAULT_HELLO_PIN_MIN_LEN: nat := 6

  // -- Simple PINs ----------------------------------------------------------

  predicate IsDigit(c: char) {
    '0' <= c <= '9'
  }

  function ToDigit(c: char): (r: Option<Digit>)
    ensures r.Some? <==> IsDigit(c)
    ensures r.Some? ==> DigitChar(r.value as int) == c
  {
    if IsDigit(c) then Some((c as int - '0' as int) as U8) else None
  }

  function DigitChar(d: int): (c: char)
    requires 0 <= d < 10
    ensures IsDigit(c)
  {
    (d + '0' as int) as char
  }

  /** All digits of the PIN, or nothing when some character is not a digit. */
  function Digits(pin: string): (r: Option<seq<Digit>>)
    ensures r.Some? <==> AllDigits(pin)
    ensures r.Some? ==> |r.value| == |pin| &&
                        forall i | 0 <= i < |pin| :: Some(r.value[i]) == ToDigit(pin[i])
  {
    if pin == "" then Some([])
    else
      match (ToDigit(pin[0]), Digits(pin[1..]))
      case (Some(d), Some(ds)) => Some([d] + ds)
      case _ => None
  }

  predicate AllDigits(pin: string) {
    forall i | 0 <= i < |pin| :: IsDigit(pin[i])
  }

  function Deltas(digits: seq<Digit>): seq<U8> {
    if |digits| < 2 then []
    else seq(|digits| - 1, i requires 0 <= i < |digits| - 1 => Delta(digits[i], digits[i + 1]))
  }

  function Delta(a: U8, b: U8): (d: U8)
    requires a < 10 && b < 10
    ensures d < 10
  {
    (10 + b - a) % 10
  }

  /** Adding the delta to a digit gives the next digit, and only the delta does. */
  lemma DeltaLeadsTo(a: Digit, b: Digit, d: int)
    requires 0 <= d < 10
    ensures Delta(a, b) as int == d <==> b as int == (a as int + d) % 10
  {
  }

  predicate IsSimplePin(pin: string) {
    if ByteLen(pin) < DEFAULT_HELLO_PIN_MIN_LEN then true
    else
      match Digits(pin)
      case None => false
      case Some(digits) =>
        var deltas := Deltas(digits);
        forall i | 0 <= i < |deltas| - 1 :: deltas[i] == deltas[i + 1]
  }

  /** Digit `i` of the arithmetic progression modulo ten. */
  function Progression(start: int, delta: int, i: int): (d: int)
    ensures 0 <= d < 10
  {
    (start + i * delta) % 10
  }

  /** The independent reading of "constant delta": a progression modulo ten. */
  predicate IsProgression(pin: string, start: int, delta: int) {
    forall i | 0 <= i < |pin| :: pin[i] == DigitChar(Progression(start, delta, i))
  }

  lemma ProgressionStep(start: int, delta: int, i: nat)
    ensures Progression(start, delta, i + 1) == (Progression(start, delta, i) + delta) % 10
  {
    assert start + (i + 1) * delta == (start + i * delta) + delta;
  }

  lemma EqualDeltasGiveProgression(digits: seq<Digit>, i: nat)
    requires |digits| >= 2 && i < |digits|
    requires var deltas := Deltas(digits); forall k | 0 <= k < |deltas| - 1 :: deltas[k] == deltas[k + 1]
    ensures digits[i] as int == Progression(digits[0] as int, Deltas(digits)[0] as int, i)
  {
    forall k | 0 <= k < |digits| - 1 ensures Delta(digits[k], digits[k + 1]) == Deltas(digits)[0] {
      EqualDeltasAreFirst(digits, k);
    }
    SameDeltaGivesProgression(digits, Deltas(digits)[0], i);
  }

  lemma {:induction false} SameDeltaGivesProgression(digits: seq<Digit>, delta: U8, i: nat)
    requires i < |digits| && delta < 10
    requires forall k | 0 <= k < |digits| - 1 :: Delta(digits[k], digits[k + 1]) == delta
    ensures digits[i] as int == Progression(digits[0] as int, delta as int, i)
  {
    if i > 0 {
      SameDeltaGivesProgression(digits, delta, i - 1);
      NextInProgression(digits[0] as int, delta as int, i - 1, digits[i - 1], digits[i]);
    }
  }

  lemma NextInProgression(start: int, delta: int, i: nat, a: Digit, b: Digit)
    requires 0 <= delta < 10 && a as int == Progression(start, delta, i) && Delta(a, b) as int == delta
    ensures b as int == Progression(start, delta, i + 1)
  {
    ProgressionStep(start, delta, i);
    DeltaLeadsTo(a, b, delta);
  }

  lemma {:induction false} EqualDeltasAreFirst(digits: seq<Digit>, i: nat)
    requires |digits| >= 2 && i < |digits| - 1
    requires var deltas := Deltas(digits); forall k | 0 <= k < |deltas| - 1 :: deltas[k] == deltas[k + 1]
    ensures Deltas(digits)[i] == Deltas(digits)[0]
  {
    if i > 0 { EqualDeltasAreFirst(digits, i - 1); }
  }

  /** From six bytes on, a PIN is simple exactly when it is a progression modulo ten. */
  lemma SimplePinClosedForm(pin: string)
    requires ByteLen(pin) >= DEFAULT_HELLO_PIN_MIN_LEN
    ensures IsSimplePin(pin) <==>
            exists start, delta | 0 <= start < 10 && 0 <= delta < 10 :: IsProgression(pin, start, delta)
  {
    if IsSimplePin(pin) {
      var digits := Digits(pin).value;
      DigitsOnlyByteLen(pin);
      var start, delta := digits[0] as int, Deltas(digits)[0] as int;
      forall i | 0 <= i < |pin| ensures pin[i] == DigitChar(Progression(start, delta, i)) {
        EqualDeltasGiveProgression(digits, i);
      }
      assert IsProgression(pin, start, delta);
    }
    forall start, delta | 0 <= start < 10 && 0 <= delta < 10 && IsProgression(pin, start, delta)
      ensures IsSimplePin(pin)
    {
      ProgressionIsSimple(pin, start, delta);
    }
  }

  lemma {:induction false} DigitsOnlyByteLen(pin: string)
    requires AllDigits(pin)
    ensures ByteLen(pin) == |pin|
  {
    if pin != "" { DigitsOnlyByteLen(pin[1..]); }
  }

  lemma ProgressionIsSimple(pin: string, start: int, delta: int)
    requires 0 <= delta < 10 && IsProgression(pin, start, delta)
    ensures IsSimplePin(pin)
  {
    if ByteLen(pin) >= DEFAULT_HELLO_PIN_MIN_LEN {
      var digits := Digits(pin).value;
      var deltas := Deltas(digits);
      forall i | 0 <= i < |deltas| ensures deltas[i] as int == delta {
        ProgressionDelta(start, delta, i, digits[i], digits[i + 1]);
      }
    }
  }

  /** Neighbouring digits of a progression differ by its delta. */
  lemma ProgressionDelta(start: int, delta: int, i: nat, a: Digit, b: Digit)
    requires 0 <= delta < 10
    requires DigitChar(a as int) == DigitChar(Progression(start, delta, i))
    requires DigitChar(b as int) == DigitChar(Progression(start, delta, i + 1))
    ensures Delta(a, b) as int == delta
  {
    ProgressionStep(start, delta, i);
    DigitCharInjective(a as int, Progression(start, delta, i));
    DigitCharInjective(b as int, Progression(start, delta, i + 1));
    DeltaLeadsTo(a, b, delta);
  }

  lemma DigitCharInjective(a: int, b: int)
    requires 0 <= a < 10 && 0 <= b < 10 && DigitChar(a) == DigitChar(b)
    ensures a == b
  {
    assert DigitChar(a) as int == a + '0' as int;
  }

  /** The simple PIN of length `n` that starts with digit `k / 10` and steps by `k % 10`. */
  function SimplePin(n: nat, k: nat): (pin: string)
    requires k < 100
    ensures |pin| == n
  {
    seq(n, i requires 0 <= i < n => DigitChar(Progression(k / 10, k % 10, i)))
  }

  /** The first `m` of them. */
  function SimplePins(n: nat, m: nat): (pins: set<string>)
    requires m <= 100
    ensures forall pin :: pin in pins <==> exists k | 0 <= k < m :: pin == SimplePin(n, k)
  {
    if m == 0 then {} else SimplePins(n, m - 1) + {SimplePin(n, m - 1)}
  }

  lemma {:induction false} SimplePinsDistinct(n: nat, m: nat)
    requires n >= 2 && m <= 100
    ensures |SimplePins(n, m)| == m
  {
    if m > 0 {
      SimplePinsDistinct(n, m - 1);
      if SimplePin(n, m - 1) in SimplePins(n, m - 1) {
        var k :| 0 <= k < m - 1 && SimplePin(n, m - 1) == SimplePin(n, k);
        SimplePinInjective(n, k, m - 1);
      }
    }
  }

  lemma SimplePinInjective(n: nat, j: nat, k: nat)
    requires n >= 2 && j < 100 && k < 100
    requires SimplePin(n, j) == SimplePin(n, k)
    ensures j == k
  {
    assert SimplePin(n, j)[0] == SimplePin(n, k)[0] && SimplePin(n, j)[1] == SimplePin(n, k)[1];
    DigitCharInjective(Progression(j / 10, j % 10, 0), Progression(k / 10, k % 10, 0));
    DigitCharInjective(Progression(j / 10, j % 10, 1), Progression(k / 10, k % 10, 1));
    FirstTwoDigits(j / 10, j % 10, k / 10, k % 10);
  }

  lemma FirstTwoDigits(start: nat, delta: nat, start': nat, delta': nat)
    requires start < 10 && start' < 10 && delta < 10 && delta' < 10
    requires Progression(start, delta, 0) == Progression(start', delta', 0)
    requires Progression(start, delta, 1) == Progression(start', delta', 1)
    ensures start == start' && delta == delta'
  {
    SumModTen(start, delta);
    SumModTen(start', delta');
  }

  lemma SumModTen(start: nat, delta: nat)
    requires start < 10 && delta < 10
    ensures Progression(start, delta, 0) == start
    ensures Progression(start, delta, 1) == if start + delta < 10 then start + delta else start + delta - 10
  {
  }

  /** Of each length from six on there are exactly one hundred simple PINs. */
  lemma HundredSimplePins(n: nat)
    requires n >= DEFAULT_HELLO_PIN_MIN_LEN
    ensures |SimplePins(n, 100)| == 100
    ensures forall pin :: pin in SimplePins(n, 100) <==> |pin| == n && IsSimplePin(pin)
  {
    SimplePinsDistinct(n, 100);
    forall pin ensures pin in SimplePins(n, 100) <==> |pin| == n && IsSimplePin(pin) {
      if pin in SimplePins(n, 100) {
        var k :| 0 <= k < 100 && pin == SimplePin(n, k);
        assert IsProgression(pin, k / 10, k % 10);
        ProgressionIsSimple(pin, k / 10, k % 10);
      }
      if |pin| == n && IsSimplePin(pin) {
        var k := NumberOfSimplePin(pin);
        assert pin in SimplePins(n, 100);
      }
    }
  }

  lemma NumberOfSimplePin(pin: string) returns (k: nat)
    requires |pin| >= DEFAULT_HELLO_PIN_MIN_LEN && IsSimplePin(pin)
    ensures k < 100 && pin == SimplePin(|pin|, k)
  {
    SimplePinClosedForm(pin);
    var start, delta :| 0 <= start < 10 && 0 <= delta < 10 && IsProgression(pin, start, delta);
    k := 10 * start + delta;
    assert k / 10 == start && k % 10 == delta;
  }

  // -- The administrator's policy -------------------------------------------

  type U32 = n: nat | n < 0x1_0000_0000

  datatype PolicyValue = Int(min: U32) | PolicyText(text: string)

  /** The opened policy cache: `None` when it cannot be loaded. */
  type Policy = Option<map<string, PolicyValue>>

  datatype CharClass = Lower | Upper | Number | Symbol

  function ClassOf(c: char): CharClass {
    if IsDigit(c) then Number
    else if 'a' <= c <= 'z' then Lower
    else if 'A' <= c <= 'Z' then Upper
    else Symbol
  }

  function Count(pin: string, class_: CharClass): nat {
    if pin == "" then 0
    else (if ClassOf(pin[0]) == class_ then 1 else 0) + Count(pin[1..], class_)
  }

  /** A count cast to an unsigned 32-bit number. */
  function AsU32(n: nat): U32 {
    n % 0x1_0000_0000
  }

  datatype PolicyVerdict = Compliant | NoCache | Below(min: nat, what: string)

  function CheckPolicy(cache: map<string, PolicyValue>, key: string, actual: nat, what: string): PolicyVerdict {
    if key in cache && cache[key].Int? && AsU32(actual) < cache[key].min
    then Below(cache[key].min, what) else Compliant
  }

  /** The five checks in order; the first failing one is reported. */
  function MeetsIntunePinPolicy(policy: Policy, pin: string): PolicyVerdict {
    match policy
    case None => NoCache
    case Some(cache) =>
      var total := CheckPolicy(cache, "linux_passwordpolicy_minimumlength", |pin|, "total");
      if total != Compliant then total else
      var digits := CheckPolicy(cache, "linux_passwordpolicy_minimumdigits", Count(pin, Number), "digit");
      if digits != Compliant then digits else
      var lower := CheckPolicy(cache, "linux_passwordpolicy_minimumlowercase", Count(pin, Lower), "lowercase");
      if lower != Compliant then lower else
      var upper := CheckPolicy(cache, "linux_passwordpolicy_minimumuppercase", Count(pin, Upper), "uppercase");
      if upper != Compliant then upper else
      CheckPolicy(cache, "linux_passwordpolicy_minimumsymbols", Count(pin, Symbol), "symbol")
  }

  /** Every character is counted in exactly one of the four classes. */
  lemma {:induction false} ClassesPartitionPin(pin: string)
    ensures Count(pin, Number) + Count(pin, Lower) + Count(pin, Upper) + Count(pin, Symbol) == |pin|
  {
    if pin != "" { ClassesPartitionPin(pin[1..]); }
  }

  /** The minimum a loaded policy sets under a key, zero when it sets none. */
  function Minimum(cache: map<string, PolicyValue>, key: string): nat {
    if key in cache && cache[key].Int? then cache[key].min else 0
  }

  /** How many characters lie in a range. */
  function Between(pin: string, low: char, high: char): nat {
    if pin == "" then 0 else (if low <= pin[0] <= high then 1 else 0) + Between(pin[1..], low, high)
  }

  /** The PIN has all the administrator asks for; what is no ASCII letter or digit is a symbol. */
  predicate Reaches(cache: map<string, PolicyValue>, pin: string) {
    var digits, lower, upper := Between(pin, '0', '9'), Between(pin, 'a', 'z'), Between(pin, 'A', 'Z');
    && |pin| >= Minimum(cache, "linux_passwordpolicy_minimumlength")
    && digits >= Minimum(cache, "linux_passwordpolicy_minimumdigits")
    && lower >= Minimum(cache, "linux_passwordpolicy_minimumlowercase")
    && upper >= Minimum(cache, "linux_passwordpolicy_minimumuppercase")
    && |pin| - digits - lower - upper >= Minimum(cache, "linux_passwordpolicy_minimumsymbols")
  }

  /** The classes counted are the three ranges and the rest. */
  lemma {:induction false} ClassesAreRanges(pin: string)
    ensures Count(pin, Number) == Between(pin, '0', '9')
    ensures Count(pin, Lower) == Between(pin, 'a', 'z')
    ensures Count(pin, Upper) == Between(pin, 'A', 'Z')
  {
    if pin != "" { ClassesAreRanges(pin[1..]); }
  }

  /**
   An accepted PIN reaches all five minimums, so it is no shorter than the four class minimums
   taken together; and a PIN of fewer than 2^32 characters that reaches them is accepted.
   */
  lemma AcceptedReaches(policy: Policy, pin: string)
    ensures MeetsIntunePinPolicy(policy, pin) == Compliant ==> policy.Some? && Reaches(policy.value, pin)
    ensures MeetsIntunePinPolicy(policy, pin) == Compliant ==>
            |pin| >= Minimum(policy.value, "linux_passwordpolicy_minimumdigits")
                     + Minimum(policy.value, "linux_passwordpolicy_minimumlowercase")
                     + Minimum(policy.value, "linux_passwordpolicy_minimumuppercase")
                     + Minimum(policy.value, "linux_passwordpolicy_minimumsymbols")
    ensures |pin| < 0x1_0000_0000 && policy.Some? && Reaches(policy.value, pin) ==>
            MeetsIntunePinPolicy(policy, pin) == Compliant
  {
    ClassesPartitionPin(pin);
    ClassesAreRanges(pin);
    if policy.Some? {
      CheckPolicyExact(policy.value, "linux_passwordpolicy_minimumlength", |pin|, "total");
      CheckPolicyExact(policy.value, "linux_passwordpolicy_minimumdigits", Count(pin, Number), "digit");
      CheckPolicyExact(policy.value, "linux_passwordpolicy_minimumlowercase", Count(pin, Lower), "lowercase");
      CheckPolicyExact(policy.value, "linux_passwordpolicy_minimumuppercase", Count(pin, Upper), "uppercase");
      CheckPolicyExact(policy.value, "linux_passwordpolicy_minimumsymbols", Count(pin, Symbol), "symbol");
    }
  }

  lemma CheckPolicyExact(cache: map<string, PolicyValue>, key: string, actual: nat, what: string)
    ensures CheckPolicy(cache, key, actual, what) == Compliant ==> actual >= Minimum(cache, key)
    ensures actual < 0x1_0000_0000 && actual >= Minimum(cache, key) ==>
              CheckPolicy(cache, key, actual, what) == Compliant
  {
  }

  ghost predicate ExactAtLength(n: nat) {
    forall policy, pin | |pin| == n ::
      MeetsIntunePinPolicy(policy, pin) == Compliant <==> policy.Some? && Reaches(policy.value, pin)
  }

  /**
   The PINs of a length are accepted exactly when they reach the minimums, under every policy, if
   and only if the length is below 2^32: from there on the casts to 32 bits let counts fall back to zero.
   */
  lemma PolicyIsExactBelowTheCast(n: nat)
    ensures ExactAtLength(n) <==> n < 0x1_0000_0000
  {
    if n < 0x1_0000_0000 {
      forall policy, pin | |pin| == n
        ensures MeetsIntunePinPolicy(policy, pin) == Compliant <==> policy.Some? && Reaches(policy.value, pin)
      {
        AcceptedReaches(policy, pin);
      }
    } else {
      var pin := CastAwayPin(n);
      var cache := map["linux_passwordpolicy_minimumdigits" := Int(1)];
      ClassesPartitionPin(pin);
      ClassesAreRanges(pin);
      assert CheckPolicy(cache, "linux_passwordpolicy_minimumdigits", Count(pin, Number), "digit") != Compliant;
      assert MeetsIntunePinPolicy(Some(cache), pin) != Compliant && Reaches(cache, pin);
    }
  }

  /** A PIN with exactly 2^32 digits. */
  lemma CastAwayPin(n: nat) returns (pin: string)
    requires n >= 0x1_0000_0000
    ensures |pin| == n && Count(pin, Number) == 0x1_0000_0000
  {
    pin := seq(n, i => if i < 0x1_0000_0000 then '0' else '-');
    CountLeadingDigits(pin, 0x1_0000_0000);
  }

  lemma {:induction false} CountLeadingDigits(pin: string, k: nat)
    requires k <= |pin| && forall i | 0 <= i < |pin| :: pin[i] == if i < k then '0' else '-'
    ensures Count(pin, Number) == k
  {
    if pin != "" { CountLeadingDigits(pin[1..], if k == 0 then 0 else k - 1); }
  }
}

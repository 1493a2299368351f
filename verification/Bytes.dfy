/** Bytes, byte strings and decimal texts: the alphabet every other module is written in.

A Rust `String` is its UTF-8 encoding, so texts are sequences of bytes throughout.
 */
module Bytes {

  datatype Option<+T> = None | Some(value: T)

  datatype Result<+T, +E> = Ok(value: T) | Err(error: E)

  type Byte = b: nat | b < 256

  type Bytes = seq<Byte>

  const USIZE_MAX: nat := 0xFFFF_FFFF_FFFF_FFFF

  /** The bytes of an ASCII literal. */
  function Ascii(s: string): (bytes: Bytes)
    requires forall i | 0 <= i < |s| :: s[i] as int < 128
    ensures |bytes| == |s|
    ensures forall i | 0 <= i < |s| :: bytes[i] == s[i] as int
  {
    seq(|s|, i requires 0 <= i < |s| => s[i] as int)
  }

  const ZERO: Byte := 48
  const NINE: Byte := 57
  const MINUS: Byte := 45
  const PLUS: Byte := 43

  predicate IsDigit(b: Byte) {
    ZERO <= b <= NINE
  }

  predicate AllDigits(text: Bytes) {
    forall i | 0 <= i < |text| :: IsDigit(text[i])
  }

  predicate AllZeros(text: Bytes) {
    forall i | 0 <= i < |text| :: text[i] == ZERO
  }

  /** `count` copies of the digit zero. */
  function Zeros(count: nat): (zeros: Bytes)
    ensures |zeros| == count && AllZeros(zeros)
  {
    seq(count, _ => ZERO)
  }

  /** Position of the first byte satisfying `wanted`, or the length of the text. */
  function IndexWhere(text: Bytes, wanted: Byte -> bool): (index: nat)
    ensures index <= |text|
    ensures index < |text| ==> wanted(text[index])
    ensures forall i | 0 <= i < index :: !wanted(text[i])
  {
    if text == [] || wanted(text[0]) then 0 else 1 + IndexWhere(text[1..], wanted)
  }

  /** Lexicographic order on bytes: the order of Rust strings. */
  predicate Below(left: Bytes, right: Bytes) {
    if right == [] then false
    else if left == [] then true
    else if left[0] != right[0] then left[0] < right[0]
    else Below(left[1..], right[1..])
  }

  lemma {:induction false} BelowIsTotal(left: Bytes, right: Bytes)
    ensures left == right || Below(left, right) || Below(right, left)
    ensures !(Below(left, right) && Below(right, left))
    ensures !Below(left, left)
  {
    if left != [] {
      BelowIsTotal(left[1..], left[1..]);
    }
    if left != [] && right != [] {
      BelowIsTotal(left[1..], right[1..]);
      assert left == [left[0]] + left[1..] && right == [right[0]] + right[1..];
    }
  }

  lemma {:induction false} BelowIsTransitive(a: Bytes, b: Bytes, c: Bytes)
    requires Below(a, b) && Below(b, c)
    ensures Below(a, c)
  {
    if a != [] && a[0] == b[0] == c[0] {
      BelowIsTransitive(a[1..], b[1..], c[1..]);
    }
  }
}

/** Decimal digit strings and the naturals they write. */
module Decimal {
  import opened Bytes

  function Pow10(n: nat): (p: nat)
    ensures p >= 1
    ensures n > 0 ==> p >= 10
  {
    if n == 0 then 1 else 10 * Pow10(n - 1)
  }

  lemma {:induction false} Pow10Grows(m: nat, n: nat)
    requires m <= n
    ensures Pow10(m) <= Pow10(n)
    decreases n
  {
    if m < n {
      Pow10Grows(m, n - 1);
    }
  }

  lemma Pow10OfWordSizes()
    ensures Pow10(19) == 10_000_000_000_000_000_000
    ensures Pow10(20) == 100_000_000_000_000_000_000
  {
    assert Pow10(5) == 100_000;
    assert Pow10(10) == 10_000_000_000;
    assert Pow10(15) == 1_000_000_000_000_000;
  }

  /** The natural number a digit string writes, most significant digit first. */
  function Val(digits: Bytes): (v: nat)
    requires AllDigits(digits)
  {
    if digits == [] then 0
    else 10 * Val(digits[..|digits| - 1]) + (digits[|digits| - 1] - ZERO)
  }

  lemma {:induction false} ValIsZero(digits: Bytes)
    requires AllDigits(digits)
    ensures Val(digits) == 0 <==> AllZeros(digits)
  {
    if digits != [] {
      ValIsZero(digits[..|digits| - 1]);
    }
  }

  lemma {:induction false} LeadingZerosAddNothing(zeros: Bytes, digits: Bytes)
    requires AllZeros(zeros) && AllDigits(digits)
    ensures Val(zeros + digits) == Val(digits)
  {
    if digits == [] {
      assert zeros + digits == zeros;
      ValIsZero(zeros);
    } else {
      LeadingZerosAddNothing(zeros, digits[..|digits| - 1]);
      assert (zeros + digits)[..|zeros + digits| - 1] == zeros + digits[..|digits| - 1];
    }
  }

  lemma {:induction false} ValBound(digits: Bytes)
    requires AllDigits(digits)
    ensures Val(digits) < Pow10(|digits|)
    ensures digits != [] && digits[0] != ZERO ==> Pow10(|digits| - 1) <= Val(digits)
  {
    if |digits| > 0 {
      var front := digits[..|digits| - 1];
      ValBound(front);
      if |front| > 0 {
        assert Pow10(|digits| - 1) == 10 * Pow10(|front| - 1);
      }
    }
  }

  /** No leading zero: the only spelling of a positive number. */
  predicate Canonical(digits: Bytes) {
    AllDigits(digits) && digits != [] && (digits[0] == ZERO ==> |digits| == 1)
  }

  /** The number of digits of a number is fixed by its size, and so are the digits. */
  lemma {:induction false} CanonicalDigitsAreUnique(a: Bytes, b: Bytes)
    requires Canonical(a) && Canonical(b) && Val(a) == Val(b)
    ensures a == b
  {
    ValBound(a);
    ValBound(b);
    if |a| == 1 && |b| == 1 {
      assert a[..0] == [] && b[..0] == [];
    } else if |a| > 1 && |b| > 1 {
      var x, y := a[..|a| - 1], b[..|b| - 1];
      assert Val(a) / 10 == Val(x) && Val(b) / 10 == Val(y);
      assert Val(a) % 10 == a[|a| - 1] - ZERO && Val(b) % 10 == b[|b| - 1] - ZERO;
      CanonicalDigitsAreUnique(x, y);
      assert a == x + [a[|a| - 1]] && b == y + [b[|b| - 1]];
    }
  }

  /** The decimal text of a natural number. */
  function NatText(n: nat): (text: Bytes)
    ensures Canonical(text) && Val(text) == n
    ensures n > 0 ==> text[0] != ZERO
  {
    if n < 10 then
      var text := [ZERO + n];
      assert text[..0] == [];
      text
    else
      var front := NatText(n / 10);
      var text := front + [ZERO + n % 10];
      assert text[..|text| - 1] == front;
      text
  }

  function IntText(i: int): (text: Bytes)
    ensures text != []
  {
    if i < 0 then [MINUS] + NatText(-i) else NatText(i)
  }

  lemma IntTextIsInjective(i: int, j: int)
    requires IntText(i) == IntText(j)
    ensures i == j
  {
    assert IntText(i)[0] == IntText(j)[0];
    if i < 0 {
      assert IntText(i)[1..] == NatText(-i) && IntText(j)[1..] == NatText(-j);
    }
  }

  lemma LastDigitOf(tens: nat, digit: nat)
    requires digit < 10
    ensures (10 * tens + digit) % 10 == digit
  {
  }

  /** The last digit tells divisibility by ten. */
  lemma LastDigitIsRemainder(digits: Bytes)
    requires AllDigits(digits) && digits != []
    ensures Val(digits) % 10 == digits[|digits| - 1] - ZERO
  {
    LastDigitOf(Val(digits[..|digits| - 1]), digits[|digits| - 1] - ZERO);
  }
}

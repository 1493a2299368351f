/** Exact arithmetic on JSON number literals of any length and exponent. */
module Numbers {
  import opened Bytes
  import opened Decimal

  const DOT: Byte := 46
  const UPPER_E: Byte := 69
  const LOWER_E: Byte := 101

  function SignedInt(negative: bool, magnitude: int): int {
    if negative then -magnitude else magnitude
  }

  // ---------------------------------------------------------------- literals

  /** A number literal as section 6 of RFC 8259 writes it. An absent fraction or exponent is empty. */
  datatype Literal = Literal(negative: bool, whole: Bytes, fraction: Bytes, marker: Byte, exponent: Bytes) {
    predicate Valid() {
      && Canonical(whole)
      && AllDigits(fraction)
      && IsExponentMarker(marker)
      && ParseBigInt(Exponent()).Some?
    }

    /** The text of the exponent, which is zero when the literal has none. */
    function Exponent(): Bytes {
      if exponent == [] then [ZERO] else exponent
    }

    function Digits(): Bytes {
      whole + fraction
    }

    function Significand(): Bytes {
      if fraction == [] then whole else whole + ([DOT] + fraction)
    }

    function Unsigned(): Bytes {
      if exponent == [] then Significand() else Significand() + ([marker] + exponent)
    }

    function Text(): Bytes {
      if negative then [MINUS] + Unsigned() else Unsigned()
    }

    function Split(): Parts {
      Parts(negative, whole, fraction, Exponent())
    }

    function Scale(): int
      requires Valid()
    {
      ParseBigInt(Exponent()).value - |fraction|
    }

    /** The rational number the literal denotes. */
    ghost function Value(): real
      requires Valid()
    {
      Denoted(negative, Digits(), Scale())
    }
  }

  ghost predicate IsLiteral(text: Bytes) {
    exists l: Literal :: l.Valid() && l.Text() == text
  }

  // ---------------------------------------------- moving the decimal point

  /** A number with its decimal point moved so many places to the right: x times ten to that power. */
  ghost function Shift(x: real, places: int): real
    decreases if places < 0 then -places else places
  {
    if places == 0 then x else if places > 0 then Shift(10.0 * x, places - 1) else Shift(x / 10.0, places + 1)
  }

  /** The rational number written by a sign, a digit string and a power of ten. */
  ghost function Denoted(negative: bool, digits: Bytes, scale: int): real
    requires AllDigits(digits)
  {
    Shift(SignedInt(negative, Val(digits)) as real, scale)
  }

  lemma {:induction false} ShiftStep(x: real, places: int)
    ensures Shift(10.0 * x, places) == Shift(x, places + 1)
    decreases if places < 0 then -places else places
  {
    if places < 0 {
      assert 10.0 * x / 10.0 == x;
    }
  }

  lemma {:induction false} ShiftIsInjective(x: real, y: real, places: int)
    requires Shift(x, places) == Shift(y, places)
    ensures x == y
    decreases if places < 0 then -places else places
  {
    if places > 0 {
      ShiftIsInjective(10.0 * x, 10.0 * y, places - 1);
    } else if places < 0 {
      ShiftIsInjective(x / 10.0, y / 10.0, places + 1);
    }
  }

  lemma {:induction false} ShiftKeepsSign(x: real, places: int)
    ensures Shift(x, places) > 0.0 <==> x > 0.0
    ensures Shift(x, places) == 0.0 <==> x == 0.0
    decreases if places < 0 then -places else places
  {
    if places > 0 {
      ShiftKeepsSign(10.0 * x, places - 1);
    } else if places < 0 {
      ShiftKeepsSign(x / 10.0, places + 1);
    }
  }

  lemma {:induction false} ShiftAdds(x: real, a: int, b: int)
    ensures Shift(Shift(x, a), b) == Shift(x, a + b)
    decreases if a < 0 then -a else a
  {
    if a > 0 {
      ShiftAdds(10.0 * x, a - 1, b);
      ShiftStep(x, a + b - 1);
    } else if a < 0 {
      ShiftAdds(x / 10.0, a + 1, b);
      ShiftStep(x / 10.0, a + b);
    }
  }

  /** Zeros written after the digits move the point one place each. */
  lemma {:induction false} TrailingZerosShift(negative: bool, digits: Bytes, count: nat, places: int)
    requires AllDigits(digits)
    ensures AllDigits(digits + Zeros(count))
    ensures Denoted(negative, digits + Zeros(count), places) == Denoted(negative, digits, places + count)
    decreases count
  {
    if count == 0 {
      assert digits + Zeros(0) == digits;
    } else {
      var all, front := digits + Zeros(count), digits + Zeros(count - 1);
      assert all[..|all| - 1] == front;
      TrailingZerosShift(negative, digits, count - 1, places + 1);
      assert SignedInt(negative, Val(all)) as real == 10.0 * SignedInt(negative, Val(front)) as real;
      ShiftStep(SignedInt(negative, Val(front)) as real, places);
    }
  }

  ghost predicate IsWhole(x: real) {
    x == x.Floor as real
  }

  // -------------------------------------------------------- taking text apart

  /** The four parts both readers of a number text work on. */
  datatype Parts = Parts(negative: bool, whole: Bytes, fraction: Bytes, exponent: Bytes)

  predicate IsDot(b: Byte) {
    b == DOT
  }

  predicate IsNonZero(b: Byte) {
    b != ZERO
  }

  predicate IsExponentMarker(b: Byte) {
    b == LOWER_E || b == UPPER_E
  }

  /** Cuts a text at the first byte satisfying `wanted`, which belongs to neither half. */
  function CutAt(text: Bytes, wanted: Byte -> bool, missing: Bytes): (halves: (Bytes, Bytes)) {
    var i := IndexWhere(text, wanted);
    (text[..i], if i < |text| then text[i + 1..] else missing)
  }

  function SplitNumber(text: Bytes): Parts {
    var negative := text != [] && text[0] == MINUS;
    var (significand, exponent) := CutAt(if negative then text[1..] else text, IsExponentMarker, [ZERO]);
    var (whole, fraction) := CutAt(significand, IsDot, []);
    Parts(negative, whole, fraction, exponent)
  }

  lemma {:induction false} CutFindsSeparator(front: Bytes, separator: Byte, back: Bytes, wanted: Byte -> bool, missing: Bytes)
    requires forall i | 0 <= i < |front| :: !wanted(front[i])
    requires wanted(separator)
    ensures CutAt(front + ([separator] + back), wanted, missing) == (front, back)
    ensures CutAt(front, wanted, missing) == (front, missing)
  {
    var text := front + ([separator] + back);
    var i := IndexWhere(text, wanted);
    assert text[|front|] == separator;
    assert forall j | 0 <= j < |front| :: text[j] == front[j];
    assert text[i + 1..] == back;
    assert IndexWhere(front, wanted) == |front| && front[..|front|] == front;
  }

  lemma SignificandIsCut(l: Literal)
    requires l.Valid()
    ensures CutAt(l.Significand(), IsDot, []) == (l.whole, l.fraction)
    ensures forall i | 0 <= i < |l.Significand()| :: !IsExponentMarker(l.Significand()[i])
  {
    CutFindsSeparator(l.whole, DOT, l.fraction, IsDot, []);
  }

  lemma UnsignedIsCut(l: Literal)
    requires l.Valid()
    ensures CutAt(l.Unsigned(), IsExponentMarker, [ZERO]) == (l.Significand(), l.Exponent())
    ensures l.Unsigned() != [] && l.Unsigned()[0] == l.whole[0]
  {
    SignificandIsCut(l);
    CutFindsSeparator(l.Significand(), l.marker, l.exponent, IsExponentMarker, [ZERO]);
  }

  lemma SplitOfLiteral(l: Literal)
    requires l.Valid()
    ensures SplitNumber(l.Text()) == l.Split()
  {
    SignificandIsCut(l);
    UnsignedIsCut(l);
    assert l.negative ==> l.Text()[1..] == l.Unsigned();
  }

  /** Reads an optionally signed, unbounded integer. */
  function ParseBigInt(text: Bytes): (parsed: Option<int>) {
    var signed := text != [] && (text[0] == MINUS || text[0] == PLUS);
    var digits := if signed then text[1..] else text;
    if digits == [] || !AllDigits(digits) then None
    else Some(SignedInt(text[0] == MINUS, Val(digits)))
  }

  // -------------------------------------------------------------- normal form

  datatype NormalForm = NormalForm(negative: bool, digits: Bytes, scale: int) {
    /** No redundant zero at either end, and a single spelling of zero. */
    predicate Reduced() {
      && AllDigits(digits) && digits != []
      && (digits == [ZERO] ==> !negative && scale == 0)
      && (digits != [ZERO] ==> digits[0] != ZERO && digits[|digits| - 1] != ZERO)
    }

    ghost function Value(): real
      requires AllDigits(digits)
    {
      Denoted(negative, digits, scale)
    }
  }

  function TrimLeadingZeros(digits: Bytes): Bytes {
    digits[IndexWhere(digits, IsNonZero)..]
  }

  function CountTrailingZeros(digits: Bytes): (count: nat)
    ensures count <= |digits|
    ensures AllZeros(digits[|digits| - count..])
    ensures count < |digits| ==> digits[|digits| - 1 - count] != ZERO
  {
    if digits == [] || digits[|digits| - 1] != ZERO then 0
    else
      var front := digits[..|digits| - 1];
      var count := CountTrailingZeros(front);
      assert digits[|digits| - 1 - count..] == front[|front| - count..] + [ZERO];
      assert count < |front| ==> digits[|front| - 1 - count] == front[|front| - 1 - count];
      1 + count
  }

  function NormalFormOfParts(negative: bool, all: Bytes, scale: int): NormalForm {
    if AllZeros(all) then NormalForm(false, [ZERO], 0)
    else
      var digits := TrimLeadingZeros(all);
      var trailing := CountTrailingZeros(digits);
      NormalForm(negative, digits[..|digits| - trailing], scale + trailing)
  }

  function NormalFormOfSplit(parts: Parts): Option<NormalForm> {
    var exponent := ParseBigInt(parts.exponent);
    if exponent.None? then None
    else Some(NormalFormOfParts(parts.negative, parts.whole + parts.fraction, exponent.value - |parts.fraction|))
  }

  function NumberNormalForm(text: Bytes): Option<NormalForm> {
    NormalFormOfSplit(SplitNumber(text))
  }

  lemma TrimKeepsValue(digits: Bytes)
    requires AllDigits(digits)
    ensures AllDigits(TrimLeadingZeros(digits)) && Val(TrimLeadingZeros(digits)) == Val(digits)
    ensures TrimLeadingZeros(digits) != [] ==> TrimLeadingZeros(digits)[0] != ZERO
    ensures TrimLeadingZeros(digits) == [] <==> AllZeros(digits)
  {
    var i := IndexWhere(digits, IsNonZero);
    assert digits[..i] + digits[i..] == digits;
    LeadingZerosAddNothing(digits[..i], digits[i..]);
  }

  lemma DigitsOfLiteral(l: Literal)
    requires l.Valid()
    ensures AllDigits(l.Digits()) && ParseBigInt(l.Exponent()).Some?
  {
  }

  lemma FormOfSplit(l: Literal)
    requires l.Valid()
    ensures NormalFormOfSplit(l.Split()) == Some(NormalFormOfParts(l.negative, l.Digits(), l.Scale()))
  {
    hide NormalFormOfParts, ParseBigInt;
  }

  /** Reading the text of a literal yields the normal form of its parts. */
  lemma FormOfText(l: Literal)
    requires l.Valid()
    ensures NumberNormalForm(l.Text()) == Some(NormalFormOfParts(l.negative, l.Digits(), l.Scale()))
  {
    hide *;
    FormOfSplit(l);
    SplitOfLiteral(l);
    TextIsSplitFirst(l.Text());
  }

  lemma TextIsSplitFirst(text: Bytes)
    ensures NumberNormalForm(text) == NormalFormOfSplit(SplitNumber(text))
  {
  }

  lemma NormalFormOfLiteral(l: Literal) returns (normal: NormalForm)
    requires l.Valid()
    ensures NumberNormalForm(l.Text()) == Some(normal)
    ensures normal.Reduced() && normal.Value() == l.Value()
  {
    hide Literal.Valid, Literal.Text, Literal.Digits, NormalForm.Reduced, NormalFormOfParts, AllDigits, Denoted, NumberNormalForm;
    DigitsOfLiteral(l);
    FormOfText(l);
    NormalFormOfPartsIsExact(l.negative, l.Digits(), l.Scale());
    ReducedHasDigits(NormalFormOfParts(l.negative, l.Digits(), l.Scale()));
    normal := NormalFormOfParts(l.negative, l.Digits(), l.Scale());
  }

  lemma ReducedHasDigits(normal: NormalForm)
    requires normal.Reduced()
    ensures AllDigits(normal.digits)
  {
  }

  lemma TrailingZerosAreDropped(negative: bool, digits: Bytes, scale: int) returns (normal: NormalForm)
    requires AllDigits(digits) && digits != [] && digits[0] != ZERO
    ensures normal == var trailing := CountTrailingZeros(digits);
                      NormalForm(negative, digits[..|digits| - trailing], scale + trailing)
    ensures normal.Reduced()
    ensures normal.Value() == Denoted(negative, digits, scale)
  {
    var trailing := CountTrailingZeros(digits);
    var kept := digits[..|digits| - trailing];
    normal := NormalForm(negative, kept, scale + trailing);
    DroppedZeros(digits);
    assert normal.Reduced();
    hide Denoted, CountTrailingZeros, NormalForm.Reduced;
    TrailingZerosShift(negative, kept, trailing, scale);
  }

  lemma OnlyZeros(text: Bytes)
    requires AllZeros(text)
    ensures text == Zeros(|text|)
  {
  }

  lemma FrontDigits(digits: Bytes, count: nat)
    requires AllDigits(digits) && count <= |digits|
    ensures AllDigits(digits[..count]) && digits == digits[..count] + digits[count..]
  {
  }

  lemma FirstIsNotZero(digits: Bytes, count: nat)
    requires digits != [] && digits[0] != ZERO && count <= |digits| && AllZeros(digits[count..])
    ensures count > 0
  {
    assert count < |digits| ==> digits[count..][0] == digits[count];
  }

  lemma DroppedZeros(digits: Bytes)
    requires AllDigits(digits) && digits != [] && digits[0] != ZERO
    ensures var trailing := CountTrailingZeros(digits);
            && trailing < |digits| && AllDigits(digits[..|digits| - trailing])
            && digits == digits[..|digits| - trailing] + Zeros(trailing)
  {
    hide AllDigits, AllZeros, Zeros, CountTrailingZeros;
    var kept := |digits| - CountTrailingZeros(digits);
    FirstIsNotZero(digits, kept);
    OnlyZeros(digits[kept..]);
    FrontDigits(digits, kept);
  }

  lemma ZeroPartsAreExact(negative: bool, all: Bytes, scale: int)
    requires AllDigits(all) && AllZeros(all)
    ensures NormalFormOfParts(negative, all, scale).Reduced()
    ensures NormalFormOfParts(negative, all, scale).Value() == Denoted(negative, all, scale)
  {
    ValIsZero(all);
    ValIsZero([ZERO]);
    ShiftKeepsSign(0.0, scale);
  }

  lemma NonzeroPartsAreExact(negative: bool, all: Bytes, scale: int)
    requires AllDigits(all) && !AllZeros(all)
    ensures NormalFormOfParts(negative, all, scale).Reduced()
    ensures NormalFormOfParts(negative, all, scale).Value() == Denoted(negative, all, scale)
  {
    hide *;
    TrimKeepsValue(all);
    var normal := TrailingZerosAreDropped(negative, TrimLeadingZeros(all), scale);
    SameDigitsDenoteTheSame(negative, TrimLeadingZeros(all), all, scale);
    NonzeroForm(negative, all, scale);
  }

  lemma NonzeroForm(negative: bool, all: Bytes, scale: int)
    requires !AllZeros(all)
    ensures var digits := TrimLeadingZeros(all);
            var trailing := CountTrailingZeros(digits);
            NormalFormOfParts(negative, all, scale) == NormalForm(negative, digits[..|digits| - trailing], scale + trailing)
  {
  }

  lemma SameDigitsDenoteTheSame(negative: bool, a: Bytes, b: Bytes, scale: int)
    requires AllDigits(a) && AllDigits(b) && Val(a) == Val(b)
    ensures Denoted(negative, a, scale) == Denoted(negative, b, scale)
  {
  }

  lemma NormalFormOfPartsIsExact(negative: bool, all: Bytes, scale: int)
    requires AllDigits(all)
    ensures NormalFormOfParts(negative, all, scale).Reduced()
    ensures NormalFormOfParts(negative, all, scale).Value() == Denoted(negative, all, scale)
  {
    hide AllZeros, NormalForm.Reduced, NormalForm.Value, NormalFormOfParts, Denoted;
    if AllZeros(all) {
      ZeroPartsAreExact(negative, all, scale);
    } else {
      NonzeroPartsAreExact(negative, all, scale);
    }
    ReducedHasDigits(NormalFormOfParts(negative, all, scale));
  }

  lemma ReducedIsZero(n: NormalForm)
    requires n.Reduced()
    ensures Val(n.digits) == 0 <==> n.digits == [ZERO]
    ensures Canonical(n.digits)
  {
    ValIsZero(n.digits);
    if AllZeros(n.digits) {
      assert n.digits[0] == ZERO;
    }
  }

  /** The core of uniqueness: a digit string that does not end in zero fixes its scale. */
  lemma SameMagnitude(a: NormalForm, b: NormalForm)
    requires a.Reduced() && b.Reduced() && a.digits != [ZERO] && b.digits != [ZERO]
    requires a.scale <= b.scale && a.Value() == b.Value()
    ensures a == b
  {
    var padded := b.digits + Zeros(b.scale - a.scale);
    TrailingZerosShift(b.negative, b.digits, b.scale - a.scale, a.scale);
    ShiftIsInjective(SignedInt(a.negative, Val(a.digits)) as real, SignedInt(b.negative, Val(padded)) as real, a.scale);
    ReducedIsZero(a);
    LastDigitIsRemainder(a.digits);
    LastDigitIsRemainder(padded);
    assert padded[|padded| - 1] == a.digits[|a.digits| - 1] != ZERO;
    assert padded == b.digits;
    ReducedIsZero(b);
    CanonicalDigitsAreUnique(a.digits, b.digits);
  }

  lemma ReducedFormsAreUnique(a: NormalForm, b: NormalForm)
    requires a.Reduced() && b.Reduced() && a.Value() == b.Value()
    ensures a == b
  {
    ReducedIsZero(a);
    ReducedIsZero(b);
    ShiftKeepsSign(SignedInt(a.negative, Val(a.digits)) as real, a.scale);
    ShiftKeepsSign(SignedInt(b.negative, Val(b.digits)) as real, b.scale);
    if a.digits != [ZERO] && b.digits != [ZERO] {
      if a.scale <= b.scale {
        SameMagnitude(a, b);
      } else {
        SameMagnitude(b, a);
      }
    }
  }

  /** Two literals have equal normal forms exactly when they denote the same rational. */
  lemma NormalFormIsCanonical(a: Literal, b: Literal)
    requires a.Valid() && b.Valid()
    ensures NumberNormalForm(a.Text()).Some?
    ensures NumberNormalForm(a.Text()) == NumberNormalForm(b.Text()) <==> a.Value() == b.Value()
  {
    var x := NormalFormOfLiteral(a);
    var y := NormalFormOfLiteral(b);
    if a.Value() == b.Value() {
      ReducedFormsAreUnique(x, y);
    }
  }

  // ------------------------------------------------------- integers among them

  /** An integer's digits written at a negative scale end in that many zeros. */
  lemma WholeNumbersEndInZeros(negative: bool, digits: Bytes, scale: int)
    requires AllDigits(digits) && digits != [] && digits[0] != ZERO && scale < 0
    requires IsWhole(Denoted(negative, digits, scale))
    ensures -scale < |digits| && AllZeros(digits[|digits| + scale..])
    ensures digits[|digits| - 1] == ZERO
  {
    var x := SignedInt(negative, Val(digits)) as real;
    var k := Shift(x, scale).Floor;
    ShiftAdds(x, scale, -scale);
    ShiftKeepsSign(k as real, -scale);
    ValIsZero(digits);
    var magnitude := if k < 0 then -k else k;
    var padded := NatText(magnitude) + Zeros(-scale);
    TrailingZerosShift(k < 0, NatText(magnitude), -scale, 0);
    assert SignedInt(k < 0, Val(padded)) as real == x;
    CanonicalDigitsAreUnique(digits, padded);
  }

  lemma ScalesUpToWhole(negative: bool, digits: Bytes, scale: nat)
    requires AllDigits(digits)
    ensures AllDigits(digits + Zeros(scale))
    ensures Denoted(negative, digits, scale) == SignedInt(negative, Val(digits + Zeros(scale))) as real
    ensures IsWhole(Denoted(negative, digits, scale))
  {
    TrailingZerosShift(negative, digits, scale, 0);
  }

  predicate NumberIsInteger(text: Bytes) {
    var normal := NumberNormalForm(text);
    normal.Some? && normal.value.scale >= 0
  }

  /** The sign of the normal form's scale decides whether the number is an integer. */
  lemma IntegersHaveNonnegativeScale(l: Literal)
    requires l.Valid()
    ensures NumberIsInteger(l.Text()) <==> IsWhole(l.Value())
  {
    var normal := NormalFormOfLiteral(l);
    if normal.scale >= 0 {
      ScalesUpToWhole(normal.negative, normal.digits, normal.scale);
    } else if IsWhole(l.Value()) {
      WholeNumbersEndInZeros(normal.negative, normal.digits, normal.scale);
    }
  }

  /** Equality of number texts, as `numbers_equal` decides it. */
  predicate NumbersEqual(left: Bytes, right: Bytes) {
    || left == right
    || (NumberNormalForm(left).Some? && NumberNormalForm(left) == NumberNormalForm(right))
  }

  lemma NumbersEqualIsExact(a: Literal, b: Literal)
    requires a.Valid() && b.Valid()
    ensures NumbersEqual(a.Text(), b.Text()) <==> a.Value() == b.Value()
  {
    NormalFormIsCanonical(a, b);
  }

  // ------------------------------------------------- saturating to a machine size

  /** The length of the decimal text of the largest size. */
  const USIZE_DIGITS: nat := 20

  /** `nonnegative_integer_as_usize` on the text of a JSON number. */
  function NonnegativeIntegerAsUsize(text: Bytes): (size: Option<nat>) {
    var normal := NumberNormalForm(text);
    if normal.None? then None else SizeOfNormalForm(normal.value)
  }

  function SizeOfNormalForm(normal: NormalForm): (size: Option<nat>) {
    if normal.negative || normal.scale < 0 then None
    else if normal.digits == [ZERO] then Some(0)
    else
      if |normal.digits| > USIZE_DIGITS then Some(USIZE_MAX)
      else if normal.scale > USIZE_DIGITS - |normal.digits| then Some(USIZE_MAX)
      else
        var digits := normal.digits + Zeros(normal.scale);
        if !AllDigits(digits) || Val(digits) > USIZE_MAX then Some(USIZE_MAX) else Some(Val(digits))
  }

  /** More digits than the largest size has means a larger number. */
  lemma LongNumbersExceedSizes(digits: Bytes)
    requires Canonical(digits) && |digits| > USIZE_DIGITS
    ensures Val(digits) > USIZE_MAX
  {
    ValBound(digits);
    Pow10OfWordSizes();
    Pow10Grows(USIZE_DIGITS, |digits| - 1);
  }

  /** The size of a number, if it is a non-negative integer. */
  ghost function SaturatedSize(x: real): Option<nat> {
    if !IsWhole(x) || x < 0.0 then None
    else if x.Floor > USIZE_MAX then Some(USIZE_MAX)
    else Some(x.Floor)
  }

  lemma SizeOfWholeForm(normal: NormalForm)
    requires normal.Reduced() && normal.scale >= 0 && !normal.negative
    ensures SizeOfNormalForm(normal) == SaturatedSize(normal.Value())
  {
    ScalesUpToWhole(false, normal.digits, normal.scale);
    ReducedIsZero(normal);
    var digits := normal.digits + Zeros(normal.scale);
    if normal.digits == [ZERO] {
      assert digits == [ZERO];
    } else if |digits| > USIZE_DIGITS {
      LongNumbersExceedSizes(digits);
    }
    hide Denoted, Zeros;
  }

  lemma NegativeFormsAreNegative(normal: NormalForm)
    requires normal.Reduced() && normal.negative
    ensures normal.Value() < 0.0
  {
    ReducedIsZero(normal);
    ShiftKeepsSign(SignedInt(true, Val(normal.digits)) as real, normal.scale);
  }

  /** Exactly the smaller of the number and the largest size; nothing for any other number. */
  lemma AsUsizeSaturates(l: Literal)
    requires l.Valid()
    ensures NonnegativeIntegerAsUsize(l.Text())
         == if !IsWhole(l.Value()) || l.Value() < 0.0 then None
            else if l.Value().Floor > USIZE_MAX then Some(USIZE_MAX)
            else Some(l.Value().Floor)
  {
    IntegersHaveNonnegativeScale(l);
    var normal := NormalFormOfLiteral(l);
    if normal.negative {
      NegativeFormsAreNegative(normal);
    } else if normal.scale >= 0 {
      SizeOfWholeForm(normal);
    }
    hide NormalFormOfSplit, SplitNumber, NormalForm.Reduced, Denoted, Literal.Text;
  }

  // --------------------------------------------------------- canonical integers

  datatype ParseBlocker = InvalidNumber | InvalidInteger | ResourceLimitExceeded

  const I64_MAX: int := 0x7FFF_FFFF_FFFF_FFFF
  const I64_MIN: int := -0x8000_0000_0000_0000

  function ParseI64(text: Bytes): Option<int> {
    var parsed := ParseBigInt(text);
    if parsed.Some? && I64_MIN <= parsed.value <= I64_MAX then parsed else None
  }

  function Magnitude(i: int): nat {
    if i < 0 then -i else i
  }

  /** What canonicalisation is for: reject non-integers, reject oversized ones, spell the rest one way. */
  ghost function CanonicalOutcome(l: Literal, maximumDigits: nat): Result<Bytes, ParseBlocker>
    requires l.Valid()
  {
    var k := l.Value().Floor;
    if !IsWhole(l.Value()) then Err(InvalidInteger)
    else if |NatText(Magnitude(k))| > maximumDigits then Err(ResourceLimitExceeded)
    else Ok(IntText(k))
  }

  /** The guard of the one branch that answers before looking at the size of the number. */
  predicate ExponentOverflows(l: Literal)
    requires l.Valid()
  {
    ParseBigInt(l.Exponent()).value > I64_MAX && !AllZeros(l.Digits())
  }

  function Spelled(negative: bool, digits: Bytes): Bytes {
    if negative then [MINUS] + digits else digits
  }

  lemma OutcomeOfWhole(l: Literal, digits: Bytes, maximumDigits: nat)
    requires l.Valid() && AllDigits(digits) && digits != [] && digits[0] != ZERO
    requires l.Value() == Denoted(l.negative, digits, 0)
    ensures CanonicalOutcome(l, maximumDigits)
         == if |digits| > maximumDigits then Err(ResourceLimitExceeded) else Ok(Spelled(l.negative, digits))
  {
    var k := l.Value().Floor;
    assert k == SignedInt(l.negative, Val(digits));
    CanonicalDigitsAreUnique(NatText(Magnitude(k)), digits);
    ValIsZero(digits);
  }

  lemma OutcomeOfZero(l: Literal, maximumDigits: nat)
    requires l.Valid() && AllZeros(l.Digits())
    ensures CanonicalOutcome(l, maximumDigits) == if maximumDigits == 0 then Err(ResourceLimitExceeded) else Ok([ZERO])
  {
    ValIsZero(l.Digits());
    ShiftKeepsSign(0.0, l.Scale());
    assert NatText(0) == [ZERO];
  }

  /** The outcome once the sign, the significant digits and the scale are known. */
  function PlacedOutcome(negative: bool, digits: Bytes, scale: int, maximumDigits: nat): Result<Bytes, ParseBlocker> {
    var total := |digits| + scale;
    if scale < 0 && (total <= 0 || !AllZeros(digits[total..])) then Err(InvalidInteger)
    else if total > maximumDigits then Err(ResourceLimitExceeded)
    else Ok(Spelled(negative, if scale < 0 then digits[..total] else digits + Zeros(scale)))
  }

  lemma PlacedOutcomeIsCanonical(l: Literal, digits: Bytes, scale: int, maximumDigits: nat)
    requires l.Valid() && AllDigits(digits) && digits != [] && digits[0] != ZERO
    requires l.Value() == Denoted(l.negative, digits, scale)
    ensures CanonicalOutcome(l, maximumDigits) == PlacedOutcome(l.negative, digits, scale, maximumDigits)
  {
    var total := |digits| + scale;
    if scale >= 0 {
      TrailingZerosShift(l.negative, digits, scale, 0);
      OutcomeOfWhole(l, digits + Zeros(scale), maximumDigits);
    } else if total > 0 && AllZeros(digits[total..]) {
      ShortenedOutcome(l, digits, scale, maximumDigits);
    } else if IsWhole(l.Value()) {
      WholeNumbersEndInZeros(l.negative, digits, scale);
    }
  }

  lemma ShortenedOutcome(l: Literal, digits: Bytes, scale: int, maximumDigits: nat)
    requires l.Valid() && AllDigits(digits) && digits != [] && digits[0] != ZERO && scale < 0
    requires l.Value() == Denoted(l.negative, digits, scale)
    requires 0 < |digits| + scale && AllZeros(digits[|digits| + scale..])
    ensures CanonicalOutcome(l, maximumDigits) == PlacedOutcome(l.negative, digits, scale, maximumDigits)
  {
    var total := |digits| + scale;
    FrontDigits(digits, total);
    OnlyZeros(digits[total..]);
    TrailingZerosShift(l.negative, digits[..total], -scale, scale);
    hide Denoted, CanonicalOutcome, Zeros;
    OutcomeOfWhole(l, digits[..total], maximumDigits);
  }

  /** The second half of canonicalisation: moves the decimal point through the digits. */
  method PlaceDigits(negative: bool, significant: Bytes, shift: int, maximumDigits: nat)
    returns (r: Result<Bytes, ParseBlocker>)
    requires significant != [] && significant[0] != ZERO
    ensures r == PlacedOutcome(negative, significant, shift, maximumDigits)
  {
    var digits := significant;
    if shift >= 0 {
      if |digits| + shift > maximumDigits {
        return Err(ResourceLimitExceeded);
      }
      digits := digits + Zeros(shift);
    } else {
      if -shift >= |digits| {
        return Err(InvalidInteger);
      }
      var split := |digits| + shift;
      if !AllZeros(digits[split..]) {
        return Err(InvalidInteger);
      }
      digits := digits[..split];
    }
    if |digits| > maximumDigits {
      return Err(ResourceLimitExceeded);
    }
    // The digits start with a significant one, so the final trim removes nothing.
    var canonicalDigits := TrimLeadingZeros(digits);
    assert canonicalDigits == digits;
    return Ok(Spelled(negative, canonicalDigits));
  }

  /** The outcome in terms of the parts of a text, as an exact arithmetic would compute it, save for one branch:
  an exponent beyond the machine's largest is refused unread. */
  function OutcomeOfParts(parts: Parts, maximumDigits: nat): Result<Bytes, ParseBlocker>
    requires ParseBigInt(parts.exponent).Some?
  {
    var digits := parts.whole + parts.fraction;
    var exponent := ParseBigInt(parts.exponent).value;
    if AllZeros(digits) then if maximumDigits == 0 then Err(ResourceLimitExceeded) else Ok([ZERO])
    else if exponent > I64_MAX then Err(ResourceLimitExceeded)
    else PlacedOutcome(parts.negative, TrimLeadingZeros(digits), exponent - |parts.fraction|, maximumDigits)
  }

  /** `canonical_integer_with_limit` once the text is taken apart. The length bound is one every Rust string meets. */
  method CanonicalIntegerWithLimit(parts: Parts, maximumDigits: nat) returns (r: Result<Bytes, ParseBlocker>)
    requires ParseBigInt(parts.exponent).Some? && |parts.whole| + |parts.fraction| <= I64_MAX
    ensures r == OutcomeOfParts(parts, maximumDigits)
  {
    var digits := parts.whole + parts.fraction;
    if AllZeros(digits) {
      return if maximumDigits == 0 then Err(ResourceLimitExceeded) else Ok([ZERO]);
    }
    digits := TrimLeadingZeros(digits);
    var exponent := ParseI64(parts.exponent);
    if exponent.None? {
      return Err(if parts.exponent[0] == MINUS then InvalidInteger else ResourceLimitExceeded);
    }
    var shift := exponent.value - |parts.fraction|;
    if shift < I64_MIN {
      return Err(if exponent.value < 0 then InvalidInteger else ResourceLimitExceeded);
    }
    r := PlaceDigits(parts.negative, digits, shift, maximumDigits);
  }

  lemma NonzeroOutcomeIsExact(l: Literal, maximumDigits: nat)
    requires l.Valid() && !AllZeros(l.Digits())
    ensures PlacedOutcome(l.negative, TrimLeadingZeros(l.Digits()), l.Scale(), maximumDigits)
         == CanonicalOutcome(l, maximumDigits)
  {
    TrimKeepsValue(l.Digits());
    PlacedOutcomeIsCanonical(l, TrimLeadingZeros(l.Digits()), l.Scale(), maximumDigits);
  }

  /** On every literal the decision is exact unless the exponent overflows. */
  lemma CanonicalIntegerIsExact(l: Literal, maximumDigits: nat)
    requires l.Valid()
    ensures OutcomeOfParts(l.Split(), maximumDigits)
         == if ExponentOverflows(l) then Err(ResourceLimitExceeded) else CanonicalOutcome(l, maximumDigits)
  {
    if AllZeros(l.Digits()) {
      OutcomeOfZero(l, maximumDigits);
    } else {
      NonzeroOutcomeIsExact(l, maximumDigits);
    }
  }

  /** An accepted text is a literal of the same value, and canonicalising it again changes nothing. */
  lemma CanonicalTextIsAFixedPoint(l: Literal, maximumDigits: nat) returns (again: Literal)
    requires l.Valid() && CanonicalOutcome(l, maximumDigits).Ok?
    ensures again.Valid() && again.Text() == CanonicalOutcome(l, maximumDigits).value
    ensures again.Value() == l.Value() && !ExponentOverflows(again)
    ensures CanonicalOutcome(again, maximumDigits) == CanonicalOutcome(l, maximumDigits)
  {
    var k := l.Value().Floor;
    again := Literal(k < 0, NatText(Magnitude(k)), [], LOWER_E, []);
    assert again.Digits() == NatText(Magnitude(k));
    assert ParseBigInt([ZERO]) == Some(0) by {
      assert Val([ZERO]) == 0;
    }
  }

  /** Exactly when the unread exponent makes the answer wrong: the integer would have fitted. */
  lemma WhenTheExponentOverflows(l: Literal, maximumDigits: nat)
    requires l.Valid() && |l.fraction| <= I64_MAX && ExponentOverflows(l)
    ensures IsWhole(l.Value())
    ensures CanonicalOutcome(l, maximumDigits) == Err(ResourceLimitExceeded)
       <==> |TrimLeadingZeros(l.Digits())| + l.Scale() > maximumDigits
    ensures |l.fraction| + maximumDigits <= I64_MAX ==> CanonicalOutcome(l, maximumDigits) == Err(ResourceLimitExceeded)
  {
    TrimKeepsValue(l.Digits());
    var digits := TrimLeadingZeros(l.Digits());
    PlacedOutcomeIsCanonical(l, digits, l.Scale(), maximumDigits);
    ScalesUpToWhole(l.negative, digits, l.Scale());
  }

  lemma LeadingZerosTrimAway(zeros: nat, digits: Bytes)
    requires digits != [] && digits[0] != ZERO
    ensures TrimLeadingZeros(Zeros(zeros) + digits) == digits
  {
    var all := Zeros(zeros) + digits;
    var i := IndexWhere(all, IsNonZero);
    assert all[zeros] == digits[0];
    assert i == zeros;
  }

  lemma NumberTextIsShort(n: nat, digits: nat) returns (text: Bytes)
    requires n < Pow10(digits) && digits > 0
    ensures ParseBigInt(text) == Some(n) && text != [] && |text| <= digits
  {
    text := NatText(n);
    ValBound(text);
    if |text| > digits {
      Pow10Grows(digits, |text| - 1);
    }
  }

  lemma OverflowingLiteral() returns (l: Literal)
    ensures l.Valid() && |l.Text()| <= I64_MAX && |l.fraction| <= I64_MAX
    ensures ExponentOverflows(l) && l.Scale() == 23
    ensures l.Digits() == Zeros(I64_MAX + 1 - 23) + [ZERO + 1]
  {
    Pow10OfWordSizes();
    var exponent := NumberTextIsShort(I64_MAX + 1, 19);
    l := LiteralWithExponent(I64_MAX + 1 - 23, exponent, I64_MAX + 1);
  }

  /** A one behind so many zeros of the fraction, times a power of ten. */
  lemma LiteralWithExponent(places: nat, exponent: Bytes, power: nat) returns (l: Literal)
    requires places > 0 && exponent != [] && ParseBigInt(exponent) == Some(power)
    ensures l.Valid() && |l.Text()| == places + |exponent| + 3 && |l.fraction| == places
    ensures l.Exponent() == exponent && l.Scale() == power - places
    ensures l.Digits() == Zeros(places) + [ZERO + 1] && !AllZeros(l.Digits())
  {
    var fraction := Zeros(places - 1) + [ZERO + 1];
    l := Literal(false, [ZERO], fraction, LOWER_E, exponent);
    assert l.Digits()[places] == ZERO + 1;
    hide ParseBigInt, AllZeros;
    assert l.Digits() == Zeros(places) + [ZERO + 1];
  }

  /** A text of fewer than 2^63 bytes that writes 10^23 and is refused as too long. */
  lemma AnOverflowingExponentCanFit() returns (l: Literal)
    ensures l.Valid() && |l.Text()| <= I64_MAX
    ensures OutcomeOfParts(l.Split(), 4096) == Err(ResourceLimitExceeded)
    ensures CanonicalOutcome(l, 4096).Ok?
  {
    l := OverflowingLiteral();
    LeadingZerosTrimAway(I64_MAX + 1 - 23, [ZERO + 1]);
    CanonicalIntegerIsExact(l, 4096);
    WhenTheExponentOverflows(l, 4096);
    hide OutcomeOfParts, TrimLeadingZeros, Zeros;
  }
}

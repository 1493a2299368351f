/** Reading what is typed into a control. */
module TextInput {
  import opened Bytes
  import opened Numbers
  import opened Json
  import opened FormModel

  /** `DEFAULT_MAX_CANONICAL_INTEGER_DIGITS`. */
  const DEFAULT_INTEGER_DIGITS: nat := 4096

  /** The literal a text could only be: its parts put together again. */
  function CandidateLiteral(text: Bytes): Literal {
    var parts := SplitNumber(text);
    var unsigned := if parts.negative then text[1..] else text;
    var i := IndexWhere(unsigned, IsExponentMarker);
    if i < |unsigned| then Literal(parts.negative, parts.whole, parts.fraction, unsigned[i], parts.exponent)
    else Literal(parts.negative, parts.whole, parts.fraction, LOWER_E, [])
  }

  /** Whether a text is a number of the JSON grammar. */
  predicate ReadsAsLiteral(text: Bytes) {
    var l := CandidateLiteral(text);
    l.Valid() && l.Text() == text
  }

  lemma CandidateOfLiteral(l: Literal)
    requires l.Valid()
    ensures CandidateLiteral(l.Text()).Valid() && CandidateLiteral(l.Text()).Text() == l.Text()
  {
    SplitOfLiteral(l);
    SignificandIsCut(l);
    assert l.negative ==> l.Text()[1..] == l.Unsigned();
    var i := IndexWhere(l.Unsigned(), IsExponentMarker);
    if l.exponent == [] {
      assert i == |l.Unsigned()|;
    } else {
      assert l.Unsigned()[|l.Significand()|] == l.marker;
      assert i == |l.Significand()|;
    }
  }

  /** The reader accepts exactly the number grammar. */
  lemma ReaderIsExact(text: Bytes)
    ensures ReadsAsLiteral(text) <==> IsLiteral(text)
  {
    if IsLiteral(text) {
      var l: Literal :| l.Valid() && l.Text() == text;
      CandidateOfLiteral(l);
    }
  }

  /** `parse_number` and `parse_integer_with_limit`; a string is taken as it is. */
  function ParseText(kind: ControlKind, input: Bytes, maximumDigits: nat): Result<Json, ParseBlocker>
    requires kind.StringControl? || kind.NumberControl? || kind.IntegerControl?
  {
    if kind.StringControl? then Ok(String(input))
    else if !ReadsAsLiteral(Trim(input)) then Err(if kind.NumberControl? then InvalidNumber else InvalidInteger)
    else if kind.NumberControl? then Ok(Number(Trim(input)))
    else
      var canonical := OutcomeOfParts(CandidateLiteral(Trim(input)).Split(), maximumDigits);
      if canonical.Err? then Err(canonical.error) else Ok(Number(canonical.value))
  }

  /** The canonical text of a typed integer has the value that was typed. */
  lemma ReadIntegerDenotes(text: Bytes, maximumDigits: nat)
    requires ReadsAsLiteral(text) && OutcomeOfParts(CandidateLiteral(text).Split(), maximumDigits).Ok?
    ensures NumbersEqual(OutcomeOfParts(CandidateLiteral(text).Split(), maximumDigits).value, text)
  {
    var l := CandidateLiteral(text);
    CandidateIsTheText(text);
    hide CandidateLiteral, ReadsAsLiteral, Literal.Text, Literal.Valid, SplitNumber, OutcomeOfParts, CanonicalOutcome,
         ExponentOverflows, NumbersEqual;
    CanonicalIntegerIsExact(l, maximumDigits);
    var again := CanonicalTextIsAFixedPoint(l, maximumDigits);
    NumbersEqualIsExact(again, l);
  }

  /** What is read stands for what was typed, whatever the spelling. */
  lemma ReadTextDenotes(kind: ControlKind, input: Bytes, maximumDigits: nat)
    requires kind.StringControl? || kind.NumberControl? || kind.IntegerControl?
    requires ParseText(kind, input, maximumDigits).Ok?
    ensures Meant(kind, input).Some?
    ensures JsonEqual(ParseText(kind, input, maximumDigits).value, Meant(kind, input).value)
  {
    hide SplitNumber, OutcomeOfParts, NumbersEqual, IsLiteral, Trim, ReadsAsLiteral, CandidateLiteral;
    EqualToItself(ParseText(kind, input, maximumDigits).value);
    if !kind.StringControl? {
      ReaderIsExact(Trim(input));
      if kind.IntegerControl? {
        ReadIntegerDenotes(Trim(input), maximumDigits);
      }
    }
  }

  lemma CandidateIsTheText(text: Bytes)
    ensures ReadsAsLiteral(text) ==> CandidateLiteral(text).Valid() && CandidateLiteral(text).Text() == text
  {
  }

  /** An accepted integer fits the limit; one that is not whole is refused for that reason. */
  lemma ReadIntegersAreExact(input: Bytes, maximumDigits: nat)
    requires ReadsAsLiteral(Trim(input))
    ensures var l := CandidateLiteral(Trim(input));
            ParseText(IntegerControl, input, maximumDigits)
            == if ExponentOverflows(l) then Err(ResourceLimitExceeded)
               else match CanonicalOutcome(l, maximumDigits)
                    case Ok(text) => Ok(Number(text))
                    case Err(blocker) => Err(blocker)
  {
    hide SplitNumber, OutcomeOfParts, CanonicalOutcome, ExponentOverflows, Trim;
    CanonicalIntegerIsExact(CandidateLiteral(Trim(input)), maximumDigits);
    hide CandidateLiteral, Literal.Text, Literal.Valid;
  }

  /** `parse_number`, `parse_integer_with_limit`. */
  method ReadText(kind: ControlKind, input: Bytes, maximumDigits: nat) returns (r: Result<Json, ParseBlocker>)
    requires kind.StringControl? || kind.NumberControl? || kind.IntegerControl?
    requires |input| <= I64_MAX
    ensures r == ParseText(kind, input, maximumDigits)
  {
    if kind.StringControl? {
      return Ok(String(input));
    }
    var text := Trim(input);
    if !ReadsAsLiteral(text) {
      return Err(if kind.NumberControl? then InvalidNumber else InvalidInteger);
    }
    if kind.NumberControl? {
      return Ok(Number(text));
    }
    TrimIsNoLonger(input);
    ReaderIsExact(text);
    SplitOfLiteral(CandidateLiteral(text));
    SplitIsNoLonger(CandidateLiteral(text));
    var canonical := CanonicalIntegerWithLimit(SplitNumber(text), maximumDigits);
    return if canonical.Err? then Err(canonical.error) else Ok(Number(canonical.value));
  }

  lemma {:induction false} TrimIsNoLonger(text: Bytes)
    ensures |Trim(text)| <= |text|
  {
    TrimStartIsNoLonger(text);
    TrimEndIsNoLonger(TrimStart(text));
  }

  lemma TrimStartIsNoLonger(text: Bytes)
    ensures |TrimStart(text)| <= |text|
  {
  }

  lemma TrimEndIsNoLonger(text: Bytes)
    ensures |TrimEnd(text)| <= |text|
  {
  }

  lemma SplitIsNoLonger(l: Literal)
    requires l.Valid()
    ensures |l.whole| + |l.fraction| <= |l.Text()|
  {
  }
}

/** The input limits: the check before parsing, the check after it, and their agreement. */
module InputLimits {
  import opened Bytes
  import opened Json
  import opened JsonText
  import opened Scanner
  import opened SourceScan
  import opened TreeMetrics

  datatype Limits = Limits(
    bytes: nat, tokens: nat, depth: nat, nodes: nat, members: nat, collectionLength: nat, scalarBytes: nat)
  {
    function Of(dimension: Dimension): nat {
      match dimension
      case SourceBytes => bytes
      case Measured(q) => OfQuantity(q)
    }

    function OfQuantity(q: Quantity): nat {
      match q
      case Tokens => tokens
      case Depth => depth
      case Nodes => nodes
      case Members => members
      case CollectionLength => collectionLength
      case ScalarBytes => scalarBytes
    }
  }

  datatype Dimension = SourceBytes | Measured(quantity: Quantity)

  datatype InputLimitError = InputLimitError(dimension: Dimension, maximum: nat, observed: nat, pointer: Bytes)

  predicate Exceeds(error: InputLimitError, limits: Limits) {
    error.maximum == limits.Of(error.dimension) && error.observed > error.maximum
  }

  /** A tree is acceptable when all its quantities but the tokens, which only a text has, are within the limits. */
  ghost predicate Fits(value: Json, limits: Limits) {
    forall q: Quantity | q != Tokens :: ValueMeasure(q, value) <= limits.OfQuantity(q)
  }

  /** What `check_input_source` accepts, in terms of what the scanners report. */
  predicate SourceFits(bytes: Bytes, limits: Limits) {
    |bytes| <= limits.bytes && forall q: Quantity :: ScannedMeasure(q, bytes) <= limits.OfQuantity(q)
  }

  /** The order in which the quantities of a text are compared with their limits, after its bytes. */
  function SourceRank(q: Quantity): nat {
    match q
    case Tokens => 0
    case Depth => 1
    case Nodes => 2
    case Members => 3
    case CollectionLength => 4
    case ScalarBytes => 5
  }

  /** Everything that is compared before this dimension is within its limit. */
  ghost predicate FitsBefore(bytes: Bytes, limits: Limits, dimension: Dimension) {
    match dimension
    case SourceBytes => true
    case Measured(q) =>
      && |bytes| <= limits.bytes
      && forall lower | SourceRank(lower) < SourceRank(q) :: ScannedMeasure(lower, bytes) <= limits.OfQuantity(lower)
  }

  /** `check_input_source`. */
  method CheckInputSource(bytes: Bytes, limits: Limits) returns (r: Result<(), InputLimitError>)
    requires |bytes| <= USIZE_MAX
    ensures r.Ok? <==> SourceFits(bytes, limits)
    ensures r.Err? ==> Exceeds(r.error, limits) && r.error.pointer == [] && FitsBefore(bytes, limits, r.error.dimension)
    ensures r.Err? ==> r.error.observed == match r.error.dimension
                                           case SourceBytes => |bytes|
                                           case Measured(q) => ScannedMeasure(q, bytes)
  {
    hide ScanDepth, ScanValue, TokensOf;
    if |bytes| > limits.bytes {
      return Err(InputLimitError(SourceBytes, limits.bytes, |bytes|, []));
    }
    var tokens, depth := SourceMetrics(bytes);
    var nesting := [(Measured(Tokens), tokens), (Measured(Depth), depth)];
    r := CheckAll(nesting, limits);
    assert nesting[0].1 == tokens && nesting[1].1 == depth;
    if r.Err? {
      return;
    }
    var metrics := SourceValueMetrics(bytes);
    var observations := [(Measured(Nodes), metrics.nodes), (Measured(Members), metrics.members),
                         (Measured(CollectionLength), metrics.collectionLength),
                         (Measured(ScalarBytes), metrics.scalarBytes)];
    r := CheckAll(observations, limits);
    assert observations[0].1 == metrics.nodes && observations[1].1 == metrics.members
        && observations[2].1 == metrics.collectionLength && observations[3].1 == metrics.scalarBytes;
  }

  /** Reports the first observation that exceeds its limit. */
  method CheckAll(observations: seq<(Dimension, nat)>, limits: Limits) returns (r: Result<(), InputLimitError>)
    ensures r.Ok? <==> forall i | 0 <= i < |observations| :: observations[i].1 <= limits.Of(observations[i].0)
    ensures r.Err? ==> Exceeds(r.error, limits) && r.error.pointer == []
    ensures r.Err? ==>
              exists i :: 0 <= i < |observations| && observations[i] == (r.error.dimension, r.error.observed)
                       && forall j | 0 <= j < i :: observations[j].1 <= limits.Of(observations[j].0)
  {
    for i := 0 to |observations|
      invariant forall j | 0 <= j < i :: observations[j].1 <= limits.Of(observations[j].0)
    {
      var (dimension, observed) := observations[i];
      if observed > limits.Of(dimension) {
        return Err(InputLimitError(dimension, limits.Of(dimension), observed, []));
      }
    }
    return Ok(());
  }

  /** A text that the first check accepts is never refused by the second, whatever names it repeats. */
  lemma AcceptedTextsStayAccepted(document: Padded, limits: Limits)
    requires ValidPadded(document) && SourceFits(PrintPadded(document, []), limits)
    ensures Fits(ValueOf(document.text), limits)
  {
    forall q: Quantity | q != Tokens
      ensures ValueMeasure(q, ValueOf(document.text)) <= limits.OfQuantity(q)
    {
      ScannersMeasureTheText(q, document);
      TextMeasuresAtLeastItsTree(q, document.text);
      hide ScannedMeasure, ValueMeasure, TextMeasure, PrintPadded;
    }
  }

  /** Once the bytes and tokens of a text fit, the check of the text and the check of its tree agree. */
  lemma ChecksAgree(document: Padded, limits: Limits)
    requires ValidPadded(document) && DistinctNames(document.text)
    ensures SourceFits(PrintPadded(document, []), limits) <==>
            && |PrintPadded(document, [])| <= limits.bytes
            && ValueMeasure(Tokens, ValueOf(document.text)) <= limits.tokens
            && Fits(ValueOf(document.text), limits)
  {
    forall q: Quantity
      ensures ScannedMeasure(q, PrintPadded(document, [])) == ValueMeasure(q, ValueOf(document.text))
    {
      ScannersMeasureTheText(q, document);
      TextMeasuresItsTree(q, document.text);
    }
  }

  /** A repeated name makes the scanner count more members than the parsed tree has. */
  lemma RepeatedNamesAreOvercounted(document: Padded)
    requires ValidPadded(document) && !DistinctNames(document.text)
    ensures ScannedMeasure(Members, PrintPadded(document, [])) > ValueMeasure(Members, ValueOf(document.text))
  {
    ScannersMeasureTheText(Members, document);
    RepeatedNamesCountTwice(document.text);
  }
}

/** The two scanner loops over the bytes of a text, as imperative code. */
module SourceScan {
  import opened Bytes
  import opened JsonText
  import opened Scanner

  /** Runs to the closing quote of a string, or to the end of the text. */
  method FindBodyEnd(bytes: Bytes, start: nat) returns (index: nat)
    requires start <= |bytes| <= USIZE_MAX
    ensures index == start + BodyLength(bytes[start..])
    ensures start <= index <= |bytes| && (index < |bytes| ==> bytes[index] == QUOTE)
    ensures AfterBody(bytes[start..]) == if index < |bytes| then bytes[index + 1..] else []
    ensures bytes[start..][..BodyLength(bytes[start..])] == bytes[start..index]
  {
    index := start;
    while index < |bytes| && bytes[index] != QUOTE
      invariant start <= index <= |bytes|
      invariant index + BodyLength(bytes[index..]) == start + BodyLength(bytes[start..])
    {
      if bytes[index] == BACKSLASH {
        assert index + 2 <= |bytes| ==> bytes[index..][2..] == bytes[index + 2..];
        index := if index + 2 > |bytes| then |bytes| else index + 2;
      } else {
        assert bytes[index..][1..] == bytes[index + 1..];
        index := index + 1;
      }
    }
  }

  /** Runs to the first byte that satisfies `stop`. */
  method SkipUntil(bytes: Bytes, start: nat, stop: Byte -> bool) returns (index: nat)
    requires start <= |bytes|
    ensures start <= index <= |bytes| && bytes[index..] == DropUntil(bytes[start..], stop)
  {
    index := start;
    while index < |bytes| && !stop(bytes[index])
      invariant start <= index <= |bytes|
      invariant DropUntil(bytes[index..], stop) == DropUntil(bytes[start..], stop)
    {
      assert bytes[index..][1..] == bytes[index + 1..];
      index := index + 1;
    }
  }

  /** Scanning a text is scanning its first token, if any, and then the rest. */
  lemma ScanStep(bytes: Bytes, index: nat, depthScan: DepthScan, valueScan: ValueScan)
    requires index < |bytes|
    ensures bytes[index..][0] == bytes[index] && bytes[index..][1..] == bytes[index + 1..]
    ensures var (token, after) := Lex(bytes[index..]);
            && ScanDepth(TokensOf(bytes[index..]), depthScan)
            == ScanDepth(TokensOf(after), if token.None? then depthScan else ScanDepthToken(token.value, depthScan))
            && ScanValue(TokensOf(bytes[index..]), valueScan)
            == ScanValue(TokensOf(after), if token.None? then valueScan else ScanValueToken(token.value, valueScan))
  {
    var (token, after) := Lex(bytes[index..]);
    if token.Some? {
      ScanDepthSkips(token.value, TokensOf(after), depthScan);
      ScanValueSkips(token.value, TokensOf(after), valueScan);
    }
  }

  /** `source_metrics`: no counter saturates, because each stays within the length of the text. */
  method SourceMetrics(bytes: Bytes) returns (tokens: nat, depth: nat)
    requires |bytes| <= USIZE_MAX
    ensures tokens == ScanDepth(TokensOf(bytes), START_DEPTH).tokens
    ensures depth == ScanDepth(TokensOf(bytes), START_DEPTH).depth
  {
    var scan, index := START_DEPTH, 0;
    assert bytes[0..] == bytes;
    while index < |bytes|
      invariant index <= |bytes| && scan.tokens <= index && scan.nesting <= index
      invariant ScanDepth(TokensOf(bytes[index..]), scan) == ScanDepth(TokensOf(bytes), START_DEPTH)
      decreases |bytes| - index
    {
      ScanStep(bytes, index, scan, START_VALUE);
      scan, index := CountNext(bytes, index, scan);
    }
    assert bytes[index..] == [];
    tokens, depth := scan.tokens, scan.depth;
  }

  function CountTokenSaturating(scan: DepthScan): DepthScan {
    scan.(tokens := SaturatingAdd(scan.tokens, 1), depth := Max(scan.depth, scan.nesting))
  }

  /** One iteration of the first scanner. */
  method CountNext(bytes: Bytes, at: nat, before: DepthScan) returns (scan: DepthScan, index: nat)
    requires at < |bytes| <= USIZE_MAX && before.tokens <= at && before.nesting <= at
    ensures at < index <= |bytes| && scan.tokens <= index && scan.nesting <= index
    ensures Lex(bytes[at..]).1 == bytes[index..]
    ensures scan == if Lex(bytes[at..]).0.None? then before else ScanDepthToken(Lex(bytes[at..]).0.value, before)
  {
    scan, index := before, at + 1;
    assert bytes[at..][1..] == bytes[at + 1..];
    var b := bytes[at];
    if b == OPEN_BRACE || b == OPEN_BRACKET {
      scan := CountTokenSaturating(scan);
      scan := scan.(nesting := SaturatingAdd(scan.nesting, 1));
    } else if b == CLOSE_BRACE || b == CLOSE_BRACKET {
      scan := scan.(nesting := if scan.nesting == 0 then 0 else scan.nesting - 1);
    } else if b == QUOTE {
      scan := CountTokenSaturating(scan);
      index := FindBodyEnd(bytes, index);
      index := if index < |bytes| then index + 1 else index;
    } else if StartsNumber(b) {
      scan := CountTokenSaturating(scan);
      index := SkipUntil(bytes, index, EndsNumber);
    } else if StartsWord(b) {
      scan := CountTokenSaturating(scan);
      index := SkipUntil(bytes, index, IsNotLetter);
    }
  }

  /** The running state of the second scanner; its four counters stay within the bytes read. */
  ghost predicate WithinBytes(scan: ValueScan, index: nat) {
    && scan.nodes <= index && scan.members <= index && scan.collectionLength <= index && scan.scalarBytes <= index
    && forall i | 0 <= i < |scan.collections| :: scan.collections[i].length <= index
  }

  /** `*length = length.saturating_add(1)` on the innermost collection, if it is of the given kind. */
  function GrowSaturating(collections: seq<Collection>, bracket: bool): seq<Collection> {
    if collections == [] then []
    else
      var last := |collections| - 1;
      if collections[last].bracket != bracket then collections
      else collections[last := Collection(bracket, SaturatingAdd(collections[last].length, 1))]
  }

  function CountNodeSaturating(scan: ValueScan): ValueScan {
    scan.(nodes := SaturatingAdd(scan.nodes, 1), collections := GrowSaturating(scan.collections, true))
  }

  lemma NothingSaturates(scan: ValueScan, index: nat)
    requires WithinBytes(scan, index) && index < USIZE_MAX
    ensures CountNodeSaturating(scan) == CountNode(scan) && WithinBytes(CountNode(scan), index + 1)
    ensures GrowSaturating(scan.collections, false) == Grow(scan.collections, false)
  {
  }

  /** `source_value_metrics`. */
  method SourceValueMetrics(bytes: Bytes) returns (metrics: ValueScan)
    requires |bytes| <= USIZE_MAX
    ensures metrics == ScanValue(TokensOf(bytes), START_VALUE)
  {
    metrics := START_VALUE;
    var index := 0;
    assert bytes[0..] == bytes;
    while index < |bytes|
      invariant index <= |bytes| && WithinBytes(metrics, index)
      invariant ScanValue(TokensOf(bytes[index..]), metrics) == ScanValue(TokensOf(bytes), START_VALUE)
      decreases |bytes| - index
    {
      ScanStep(bytes, index, START_DEPTH, metrics);
      metrics, index := MeasureNext(bytes, index, metrics);
    }
    assert bytes[index..] == [];
    var longest := Longest(metrics.collections);
    metrics := metrics.(collectionLength := Max(metrics.collectionLength, longest));
  }

  /** One iteration of the second scanner. */
  method MeasureNext(bytes: Bytes, at: nat, before: ValueScan) returns (metrics: ValueScan, index: nat)
    requires at < |bytes| <= USIZE_MAX && WithinBytes(before, at)
    ensures at < index <= |bytes| && WithinBytes(metrics, index)
    ensures Lex(bytes[at..]).1 == bytes[index..]
    ensures metrics == if Lex(bytes[at..]).0.None? then before else ScanValueToken(Lex(bytes[at..]).0.value, before)
  {
    metrics, index := before, at + 1;
    NothingSaturates(before, at);
    assert bytes[at..][1..] == bytes[at + 1..];
    var b := bytes[at];
    if b == OPEN_BRACE || b == OPEN_BRACKET {
      metrics := CountNodeSaturating(metrics);
      metrics := metrics.(collections := metrics.collections + [Collection(b == OPEN_BRACKET, 0)]);
    } else if b == CLOSE_BRACE || b == CLOSE_BRACKET {
      if metrics.collections != [] {
        var last := |metrics.collections| - 1;
        metrics := metrics.(collectionLength := Max(metrics.collectionLength, metrics.collections[last].length),
                            collections := metrics.collections[..last]);
      }
    } else if b == QUOTE {
      metrics, index := MeasureString(bytes, at, metrics);
    } else if StartsNumber(b) {
      index := SkipUntil(bytes, index, EndsNumber);
      metrics := CountNodeSaturating(metrics).(scalarBytes := Max(metrics.scalarBytes, index - at));
    } else if StartsWord(b) {
      index := SkipUntil(bytes, index, IsNotLetter);
      metrics := CountNodeSaturating(metrics).(scalarBytes := Max(metrics.scalarBytes, index - at));
    }
  }

  /** The string branch of the second scanner: a name of a member if a colon comes next, else a value. */
  method MeasureString(bytes: Bytes, at: nat, before: ValueScan) returns (metrics: ValueScan, index: nat)
    requires at < |bytes| <= USIZE_MAX && bytes[at] == QUOTE && WithinBytes(before, at)
    ensures at < index <= |bytes| && WithinBytes(metrics, index)
    ensures Lex(bytes[at..]).0.Some? && Lex(bytes[at..]).1 == bytes[index..]
    ensures metrics == ScanValueToken(Lex(bytes[at..]).0.value, before)
  {
    metrics := before;
    NothingSaturates(before, at);
    assert bytes[at..][1..] == bytes[at + 1..];
    index := FindBodyEnd(bytes, at + 1);
    hide BodyLength, DropUntil;
    var scalarBytes := JsonStringDecodedLen(bytes[at + 1..index]);
    var next := if index < |bytes| then index + 1 else |bytes|;
    assert AfterBody(bytes[at + 1..]) == bytes[next..];
    next := SkipUntil(bytes, next, IsNotAsciiSpace);
    if next < |bytes| && bytes[next] == COLON {
      metrics := metrics.(members := SaturatingAdd(metrics.members, 1),
                          collections := GrowSaturating(metrics.collections, false));
    } else {
      metrics := CountNodeSaturating(metrics);
    }
    metrics := metrics.(scalarBytes := Max(metrics.scalarBytes, scalarBytes));
    index := if index < |bytes| then index + 1 else index;
  }

  method Longest(collections: seq<Collection>) returns (longest: nat)
    ensures longest == LongestOf(collections)
  {
    longest := 0;
    assert collections[..0] == [];
    for i := 0 to |collections|
      invariant longest == LongestOf(collections[..i])
    {
      assert collections[..i + 1][..i] == collections[..i];
      longest := Max(longest, collections[i].length);
    }
    assert collections[..|collections|] == collections;
  }
}

/** The byte scanners that measure a JSON text before it is parsed, against the grammar of the text. */
module Scanner {
  import opened Bytes
  import opened Numbers
  import opened JsonText

  // ------------------------------------------------------------- decoded lengths

  /** `char::from_u32(code).map(len_utf8).unwrap_or(3)` for a sixteen-bit code. */
  function Utf8LengthOfUnit(code: nat): nat {
    if code < 0x80 then 1 else if code < 0x800 then 2 else 3
  }

  predicate StartsEscape(rest: Bytes) {
    |rest| >= 2 && rest[0] == BACKSLASH && rest[1] == LETTER_U
  }

  /** The sixteen-bit code of the `\u` escape a text starts with, if it starts with one. */
  function EscapedCode(rest: Bytes): Option<nat> {
    if StartsEscape(rest) && |rest| >= 6 then ParseHexQuad(rest[2..6]) else None
  }

  /** How many bytes the next unit of a string body takes, and how many it decodes to. */
  function NextUnit(rest: Bytes): (step: (nat, nat))
    requires rest != []
    ensures 0 < step.0 <= |rest| && step.1 <= step.0
  {
    if rest[0] != BACKSLASH then (1, 1)
    else if |rest| < 2 then (|rest|, 0)
    else if rest[1] != LETTER_U then (2, 1)
    else
      var high := EscapedCode(rest);
      if high.None? then (2, 0)
      else
        var low := EscapedCode(rest[6..]);
        if IsHighSurrogate(high.value) && low.Some? && IsLowSurrogate(low.value) then (12, 4)
        else (6, Utf8LengthOfUnit(high.value))
  }

  function DecodedLength(rest: Bytes): (length: nat)
    ensures length <= |rest|
  {
    if rest == [] then 0 else NextUnit(rest).1 + DecodedLength(rest[NextUnit(rest).0..])
  }

  lemma Utf8Bytes(s: nat)
    requires IsScalar(s)
    ensures 1 <= |Utf8(s)| <= 4
    ensures s < 0x10000 ==> |Utf8(s)| == Utf8LengthOfUnit(s)
    ensures s >= 0x10000 ==> |Utf8(s)| == 4
    ensures s < 0x80 ==> Utf8(s) == [s]
    ensures s >= 0x80 ==> forall i | 0 <= i < |Utf8(s)| :: Utf8(s)[i] >= 0x80
  {
  }

  lemma {:induction false} PlainBytesCountOnce(bytes: Bytes, tail: Bytes)
    requires forall i | 0 <= i < |bytes| :: bytes[i] != BACKSLASH
    ensures DecodedLength(bytes + tail) == |bytes| + DecodedLength(tail)
  {
    if bytes == [] {
      assert bytes + tail == tail;
    } else {
      assert (bytes + tail)[1..] == bytes[1..] + tail;
      PlainBytesCountOnce(bytes[1..], tail);
    }
  }

  /** What stands between a two-byte mark and a tail. */
  lemma MarkedSlice(mark: Bytes, quad: Bytes, tail: Bytes)
    requires |mark| == 2 && |quad| == 4
    ensures (mark + quad + tail)[..2] == mark && (mark + quad + tail)[2..6] == quad && (mark + quad + tail)[6..] == tail
  {
  }

  lemma EscapeIsRead(quad: Bytes, tail: Bytes)
    requires ParseHexQuad(quad).Some?
    ensures |[BACKSLASH, LETTER_U] + quad + tail| >= 6
    ensures EscapedCode([BACKSLASH, LETTER_U] + quad + tail) == ParseHexQuad(quad)
    ensures ([BACKSLASH, LETTER_U] + quad + tail)[6..] == tail
  {
    MarkedSlice([BACKSLASH, LETTER_U], quad, tail);
  }

  lemma EscapeCountsOnce(quad: Bytes, tail: Bytes)
    requires Escape(quad).Valid()
    ensures DecodedLength(Escape(quad).Text() + tail) == Utf8LengthOfUnit(Escape(quad).Scalar()) + DecodedLength(tail)
  {
    EscapeIsRead(quad, tail);
    hide ParseHexQuad;
  }

  lemma PairCountsFour(high: Bytes, low: Bytes, tail: Bytes)
    requires Pair(high, low).Valid()
    ensures DecodedLength(Pair(high, low).Text() + tail) == 4 + DecodedLength(tail)
  {
    var second := [BACKSLASH, LETTER_U] + low + tail;
    var text := [BACKSLASH, LETTER_U] + high + second;
    EscapeIsRead(low, tail);
    EscapeIsRead(high, second);
    hide ParseHexQuad, EscapedCode;
    assert text[12..] == second[6..];
    assert NextUnit(text) == (12, 4);
    assert Pair(high, low).Text() + tail == text;
  }

  /** Every spelling of a character counts as the bytes of its UTF-8 encoding. */
  lemma UnitCountsItsEncoding(unit: Unit, tail: Bytes)
    requires unit.Valid()
    ensures DecodedLength(unit.Text() + tail) == |Utf8(unit.Scalar())| + DecodedLength(tail)
  {
    Utf8Bytes(unit.Scalar());
    var text := unit.Text() + tail;
    match unit
    case Plain(scalar) => PlainBytesCountOnce(Utf8(scalar), tail);
    case Short(letter) =>
      assert text[2..] == tail;
    case Escape(quad) => EscapeCountsOnce(quad, tail);
    case Pair(high, low) => PairCountsFour(high, low, tail);
  }

  /** The predicted length of a string body is the length of the string it denotes. */
  lemma {:induction false} DecodedLengthIsExact(units: seq<Unit>)
    requires ValidUnits(units)
    ensures DecodedLength(PrintUnits(units, [])) == |Decoded(units)|
  {
    if units != [] {
      UnitCountsItsEncoding(units[0], PrintUnits(units[1..], []));
      DecodedLengthIsExact(units[1..]);
    }
  }

  /** The surrogate pair test of the scanner, at a position of the whole text. */
  predicate LowSurrogateAt(bytes: Bytes, index: nat) {
    && index + 6 <= |bytes| && bytes[index] == BACKSLASH && bytes[index + 1] == LETTER_U
    && ParseHexQuad(bytes[index + 2..index + 6]).Some?
    && IsLowSurrogate(ParseHexQuad(bytes[index + 2..index + 6]).value)
  }

  lemma StepOfSuffix(bytes: Bytes, index: nat)
    requires index < |bytes|
    ensures var step := NextUnit(bytes[index..]);
            DecodedLength(bytes[index..]) == step.1 + DecodedLength(bytes[index + step.0..])
    ensures index + 6 <= |bytes| ==> bytes[index..][2..6] == bytes[index + 2..index + 6]
    ensures index + 6 <= |bytes| ==>
              (LowSurrogateAt(bytes, index + 6)
               <==> (var low := EscapedCode(bytes[index..][6..]); low.Some? && IsLowSurrogate(low.value)))
  {
    var rest := bytes[index..];
    assert rest[NextUnit(rest).0..] == bytes[index + NextUnit(rest).0..];
    if index + 12 <= |bytes| {
      assert rest[6..][2..6] == bytes[index + 8..index + 12];
    }
  }

  /** `json_string_decoded_len`: total on arbitrary bytes, every index in range. */
  method JsonStringDecodedLen(bytes: Bytes) returns (decoded: nat)
    requires |bytes| <= USIZE_MAX
    ensures decoded == DecodedLength(bytes)
  {
    decoded := 0;
    var index := 0;
    assert bytes[0..] == bytes;
    while index < |bytes|
      invariant index <= |bytes| && decoded <= index
      invariant decoded + DecodedLength(bytes[index..]) == DecodedLength(bytes)
    {
      StepOfSuffix(bytes, index);
      if bytes[index] != BACKSLASH {
        decoded := SaturatingAdd(decoded, 1);
        index := index + 1;
        continue;
      }
      if index + 1 >= |bytes| {
        assert bytes[|bytes|..] == [];
        break;
      }
      if bytes[index + 1] != LETTER_U {
        decoded := SaturatingAdd(decoded, 1);
        index := index + 2;
        continue;
      }
      var high := if index + 6 <= |bytes| then ParseHexQuad(bytes[index + 2..index + 6]) else None;
      assert high == EscapedCode(bytes[index..]);
      if high.None? {
        index := index + 2;
        continue;
      }
      if IsHighSurrogate(high.value) && LowSurrogateAt(bytes, index + 6) {
        decoded := SaturatingAdd(decoded, 4);
        index := index + 12;
        continue;
      }
      decoded := SaturatingAdd(decoded, Utf8LengthOfUnit(high.value));
      index := index + 6;
    }
  }

  // --------------------------------------------------------------------- tokens

  function SaturatingAdd(a: nat, b: nat): nat {
    if a + b > USIZE_MAX then USIZE_MAX else a + b
  }

  /** What the scanners notice in a text; everything else is skipped. */
  datatype Token =
    | Open(bracket: bool)
    | Close
    | Quoted(size: nat, isName: bool)
    | Word(size: nat)

  predicate EndsNumber(b: Byte) {
    IsSpace(b) || b == COMMA || b == CLOSE_BRACKET || b == CLOSE_BRACE
  }

  predicate IsNotLetter(b: Byte) {
    !(65 <= b <= 90 || 97 <= b <= 122)
  }

  predicate IsNotAsciiSpace(b: Byte) {
    b != 32 && b != 9 && b != 10 && b != 12 && b != 13
  }

  /** What is left once bytes are skipped up to the first that satisfies `stop`. */
  function DropUntil(rest: Bytes, stop: Byte -> bool): (after: Bytes)
    ensures |after| <= |rest|
  {
    if rest == [] || stop(rest[0]) then rest else DropUntil(rest[1..], stop)
  }

  /** The length of a string body, up to the closing quote or the end of the text. */
  function BodyLength(rest: Bytes): (length: nat)
    ensures length <= |rest|
  {
    if rest == [] || rest[0] == QUOTE then 0
    else if rest[0] == BACKSLASH then if |rest| < 2 then 1 else 2 + BodyLength(rest[2..])
    else 1 + BodyLength(rest[1..])
  }

  function AfterBody(rest: Bytes): (after: Bytes)
    ensures |after| <= |rest|
  {
    var length := BodyLength(rest);
    if length < |rest| then rest[length + 1..] else []
  }

  predicate NamesMember(after: Bytes) {
    var next := DropUntil(after, IsNotAsciiSpace);
    next != [] && next[0] == COLON
  }

  predicate StartsNumber(b: Byte) {
    b == MINUS || IsDigit(b)
  }

  predicate StartsWord(b: Byte) {
    b == 116 || b == 102 || b == 110
  }

  /** The next token, if the next byte starts one, and the text after it. */
  function Lex(rest: Bytes): (lexed: (Option<Token>, Bytes))
    requires rest != []
    ensures |lexed.1| < |rest|
  {
    var b, tail := rest[0], rest[1..];
    if b == OPEN_BRACE || b == OPEN_BRACKET then (Some(Open(b == OPEN_BRACKET)), tail)
    else if b == CLOSE_BRACE || b == CLOSE_BRACKET then (Some(Close), tail)
    else if b == QUOTE then
      (Some(Quoted(DecodedLength(tail[..BodyLength(tail)]), NamesMember(AfterBody(tail)))), AfterBody(tail))
    else if StartsNumber(b) then
      var after := DropUntil(tail, EndsNumber);
      (Some(Word(|rest| - |after|)), after)
    else if StartsWord(b) then
      var after := DropUntil(tail, IsNotLetter);
      (Some(Word(|rest| - |after|)), after)
    else (None, tail)
  }

  function TokensOf(rest: Bytes): seq<Token>
    decreases |rest|
  {
    if rest == [] then []
    else
      var (token, after) := Lex(rest);
      if token.None? then TokensOf(after) else [token.value] + TokensOf(after)
  }

  // ----------------------------------------------------- tokens of a legal text

  /** The tokens of a text's syntax tree, followed by more tokens. */
  ghost function TextTokens(t: Text, tail: seq<Token>): seq<Token>
    requires ValidText(t)
    decreases t, 0
  {
    match t
    case NullText => [Word(4)] + tail
    case TrueText => [Word(4)] + tail
    case FalseText => [Word(5)] + tail
    case NumberText(literal) => [Word(|literal.Text()|)] + tail
    case StringText(units) => [Quoted(|Decoded(units)|, false)] + tail
    case ArrayText(_, elements) => [Open(true)] + ElementTokens(elements, [Close] + tail)
    case ObjectText(_, entries) => [Open(false)] + EntryTokens(entries, [Close] + tail)
  }

  ghost function ElementTokens(elements: seq<Padded>, tail: seq<Token>): seq<Token>
    requires ValidElements(elements)
    decreases elements, 0
  {
    if elements == [] then tail else TextTokens(elements[0].text, ElementTokens(elements[1..], tail))
  }

  ghost function EntryTokens(entries: seq<Entry>, tail: seq<Token>): seq<Token>
    requires ValidEntries(entries)
    decreases entries, 0
  {
    if entries == [] then tail
    else [Quoted(|Decoded(entries[0].name)|, true)]
         + TextTokens(entries[0].value.text, EntryTokens(entries[1..], tail))
  }

  /** What may stand after a value: white space, then the end or a comma or a closing bracket. */
  ghost predicate Follows(post: Bytes) {
    exists spaces: Bytes, next: Bytes ::
      && post == spaces + next && AllSpaces(spaces)
      && (next == [] || next[0] == COMMA || next[0] == CLOSE_BRACKET || next[0] == CLOSE_BRACE)
  }

  lemma FollowsAfterSpaces(spaces: Bytes, next: Bytes)
    requires AllSpaces(spaces)
    requires next == [] || next[0] == COMMA || next[0] == CLOSE_BRACKET || next[0] == CLOSE_BRACE
    ensures Follows(spaces + next)
  {
  }

  lemma {:induction false} DropReaches(front: Bytes, back: Bytes, stop: Byte -> bool)
    requires forall i | 0 <= i < |front| :: !stop(front[i])
    requires back != [] ==> stop(back[0])
    ensures DropUntil(front + back, stop) == back
  {
    if front == [] {
      assert front + back == back;
    } else {
      assert (front + back)[1..] == front[1..] + back;
      DropReaches(front[1..], back, stop);
    }
  }

  lemma {:induction false} SpacesHoldNoTokens(spaces: Bytes, post: Bytes)
    requires AllSpaces(spaces)
    ensures TokensOf(spaces + post) == TokensOf(post)
  {
    if spaces == [] {
      assert spaces + post == post;
    } else {
      assert (spaces + post)[1..] == spaces[1..] + post;
      SpacesHoldNoTokens(spaces[1..], post);
    }
  }

  lemma PunctuationHoldsNoTokens(b: Byte, post: Bytes)
    requires b == COMMA || b == COLON
    ensures TokensOf([b] + post) == TokensOf(post)
  {
    assert ([b] + post)[1..] == post;
  }

  lemma {:induction false} PlainBytesStayInBody(bytes: Bytes, tail: Bytes)
    requires forall i | 0 <= i < |bytes| :: bytes[i] != BACKSLASH && bytes[i] != QUOTE
    ensures BodyLength(bytes + tail) == |bytes| + BodyLength(tail)
  {
    if bytes == [] {
      assert bytes + tail == tail;
    } else {
      assert (bytes + tail)[1..] == bytes[1..] + tail;
      PlainBytesStayInBody(bytes[1..], tail);
    }
  }

  lemma HexQuadIsPlain(quad: Bytes)
    requires ParseHexQuad(quad).Some?
    ensures forall i | 0 <= i < |quad| :: quad[i] != BACKSLASH && quad[i] != QUOTE
  {
  }

  lemma EscapeStaysInBody(quad: Bytes, tail: Bytes)
    requires ParseHexQuad(quad).Some?
    ensures BodyLength([BACKSLASH, LETTER_U] + (quad + tail)) == 6 + BodyLength(tail)
  {
    HexQuadIsPlain(quad);
    PlainBytesStayInBody(quad, tail);
    assert ([BACKSLASH, LETTER_U] + (quad + tail))[2..] == quad + tail;
  }

  lemma UnitStaysInBody(unit: Unit, tail: Bytes)
    requires unit.Valid()
    ensures BodyLength(unit.Text() + tail) == |unit.Text()| + BodyLength(tail)
  {
    match unit
    case Plain(scalar) =>
      Utf8Bytes(scalar);
      PlainBytesStayInBody(Utf8(scalar), tail);
    case Short(letter) =>
      assert (unit.Text() + tail)[2..] == tail;
    case Escape(quad) =>
      assert unit.Text() + tail == [BACKSLASH, LETTER_U] + (quad + tail);
      EscapeStaysInBody(quad, tail);
    case Pair(high, low) =>
      var second := [BACKSLASH, LETTER_U] + (low + tail);
      assert unit.Text() + tail == [BACKSLASH, LETTER_U] + (high + second);
      EscapeStaysInBody(high, second);
      EscapeStaysInBody(low, tail);
  }

  /** The scanner finds the closing quote of a string however its characters are spelled. */
  lemma {:induction false} BodyEndsAtQuote(units: seq<Unit>, post: Bytes)
    requires ValidUnits(units)
    ensures var rest := PrintUnits(units, [QUOTE] + post);
            && BodyLength(rest) == |PrintUnits(units, [])|
            && rest == PrintUnits(units, []) + ([QUOTE] + post)
  {
    if units == [] {
      assert PrintUnits(units, [QUOTE] + post) == [] + ([QUOTE] + post);
    } else {
      var tail, body := PrintUnits(units[1..], [QUOTE] + post), PrintUnits(units[1..], []);
      UnitStaysInBody(units[0], tail);
      BodyEndsAtQuote(units[1..], post);
      hide BodyLength, Unit.Text, Unit.Valid;
      assert units[0].Text() + (body + ([QUOTE] + post)) == (units[0].Text() + body) + ([QUOTE] + post);
    }
  }

  lemma StringIsOneToken(units: seq<Unit>, post: Bytes)
    requires ValidUnits(units)
    ensures TokensOf(PrintString(units, post))
         == [Quoted(|Decoded(units)|, NamesMember(post))] + TokensOf(post)
  {
    var tail := PrintUnits(units, [QUOTE] + post);
    var body := PrintUnits(units, []);
    assert PrintString(units, post) == [QUOTE] + tail;
    hide PrintString, PrintUnits, BodyLength, Decoded, DecodedLength, TokensOf, NamesMember, DropUntil, ValidUnits;
    BodyEndsAtQuote(units, post);
    DecodedLengthIsExact(units);
    assert tail[..|body|] == body && tail[|body| + 1..] == post;
    QuoteStartsToken(tail);
  }

  lemma QuoteStartsToken(tail: Bytes)
    ensures TokensOf([QUOTE] + tail)
         == [Quoted(DecodedLength(tail[..BodyLength(tail)]), NamesMember(AfterBody(tail)))] + TokensOf(AfterBody(tail))
  {
    assert ([QUOTE] + tail)[1..] == tail;
    hide DecodedLength, BodyLength, NamesMember, AfterBody;
  }

  lemma SpacesThenNoColon(post: Bytes)
    requires Follows(post)
    ensures !NamesMember(post)
    ensures post != [] ==> EndsNumber(post[0]) && IsNotLetter(post[0])
  {
    var spaces: Bytes, next: Bytes :|
      && post == spaces + next && AllSpaces(spaces)
      && (next == [] || next[0] == COMMA || next[0] == CLOSE_BRACKET || next[0] == CLOSE_BRACE);
    DropReaches(spaces, next, IsNotAsciiSpace);
  }

  lemma SpacesThenColon(spaces: Bytes, post: Bytes)
    requires AllSpaces(spaces)
    ensures NamesMember(spaces + ([COLON] + post))
  {
    DropReaches(spaces, [COLON] + post, IsNotAsciiSpace);
  }

  lemma WordIsOneToken(word: Bytes, post: Bytes)
    requires word != [] && (post != [] ==> IsNotLetter(post[0]))
    requires StartsWord(word[0]) && forall i | 0 <= i < |word| :: !IsNotLetter(word[i])
    ensures TokensOf(word + post) == [Word(|word|)] + TokensOf(post)
  {
    var text := word + post;
    assert text[0] == word[0] && text[1..] == word[1..] + post;
    DropReaches(word[1..], post, IsNotLetter);
    assert DropUntil(text[1..], IsNotLetter) == post && |text| - |post| == |word|;
    assert Lex(text) == (Some(Word(|word|)), post);
  }

  lemma NumberIsOneToken(number: Bytes, post: Bytes)
    requires number != [] && (post != [] ==> EndsNumber(post[0]))
    requires StartsNumber(number[0]) && forall i | 0 <= i < |number| :: !EndsNumber(number[i])
    ensures TokensOf(number + post) == [Word(|number|)] + TokensOf(post)
  {
    var text := number + post;
    assert text[0] == number[0] && text[1..] == number[1..] + post;
    DropReaches(number[1..], post, EndsNumber);
    assert DropUntil(text[1..], EndsNumber) == post && |text| - |post| == |number|;
    assert Lex(text) == (Some(Word(|number|)), post);
  }

  lemma LiteralBytes(l: Literal)
    requires l.Valid()
    ensures l.Text() != [] && StartsNumber(l.Text()[0])
    ensures forall i | 0 <= i < |l.Text()| :: !EndsNumber(l.Text()[i])
  {
    assert forall i | 0 <= i < |l.exponent| :: !EndsNumber(l.exponent[i]) by {
      if l.exponent != [] && (l.exponent[0] == MINUS || l.exponent[0] == PLUS) {
        assert forall i | 1 <= i < |l.exponent| :: l.exponent[i] == l.exponent[1..][i - 1];
      }
    }
    assert forall i | 0 <= i < |l.Significand()| :: !EndsNumber(l.Significand()[i]);
    assert forall i | 0 <= i < |l.Unsigned()| :: !EndsNumber(l.Unsigned()[i]);
    assert l.Unsigned()[0] == l.whole[0];
  }

  lemma BracketToken(b: Byte, post: Bytes)
    requires b == OPEN_BRACKET || b == OPEN_BRACE || b == CLOSE_BRACKET || b == CLOSE_BRACE
    ensures TokensOf([b] + post)
         == [if b == OPEN_BRACKET || b == OPEN_BRACE then Open(b == OPEN_BRACKET) else Close] + TokensOf(post)
  {
    assert ([b] + post)[1..] == post;
  }

  /** The scanners see exactly the tokens of the syntax tree, in whatever spelling it comes. */
  lemma {:induction false} TextLexes(t: Text, post: Bytes)
    requires ValidText(t) && Follows(post)
    ensures TokensOf(Print(t, post)) == TextTokens(t, TokensOf(post))
    decreases t, 0
  {
    SpacesThenNoColon(post);
    match t
    case NullText => WordIsOneToken(NULL_WORD, post);
    case TrueText => WordIsOneToken(TRUE_WORD, post);
    case FalseText => WordIsOneToken(FALSE_WORD, post);
    case NumberText(literal) =>
      LiteralBytes(literal);
      NumberIsOneToken(literal.Text(), post);
    case StringText(units) => StringIsOneToken(units, post);
    case ArrayText(gap, elements) =>
      var close := [CLOSE_BRACKET] + post;
      BracketToken(CLOSE_BRACKET, post);
      if elements == [] {
        SpacesHoldNoTokens(gap, close);
        BracketToken(OPEN_BRACKET, gap + close);
      } else {
        ElementsLex(elements, close);
        BracketToken(OPEN_BRACKET, PrintElements(elements, close));
      }
    case ObjectText(gap, entries) =>
      var close := [CLOSE_BRACE] + post;
      BracketToken(CLOSE_BRACE, post);
      if entries == [] {
        SpacesHoldNoTokens(gap, close);
        BracketToken(OPEN_BRACE, gap + close);
      } else {
        EntriesLex(entries, close);
        BracketToken(OPEN_BRACE, PrintEntries(entries, close));
      }
  }

  ghost predicate EndsItem(post: Bytes) {
    post == [] || post[0] == COMMA || post[0] == CLOSE_BRACKET || post[0] == CLOSE_BRACE
  }

  lemma {:induction false} PaddedLexes(p: Padded, post: Bytes)
    requires ValidPadded(p) && EndsItem(post)
    ensures TokensOf(PrintPadded(p, post)) == TextTokens(p.text, TokensOf(post))
    decreases p, 0
  {
    FollowsAfterSpaces(p.after, post);
    SpacesHoldNoTokens(p.before, Print(p.text, p.after + post));
    TextLexes(p.text, p.after + post);
    SpacesHoldNoTokens(p.after, post);
  }

  lemma {:induction false} ElementsLex(elements: seq<Padded>, post: Bytes)
    requires elements != [] && ValidElements(elements) && EndsItem(post)
    ensures TokensOf(PrintElements(elements, post)) == ElementTokens(elements, TokensOf(post))
    decreases elements, 0
  {
    if |elements| == 1 {
      PaddedLexes(elements[0], post);
    } else {
      var rest := PrintElements(elements[1..], post);
      ElementsLex(elements[1..], post);
      PunctuationHoldsNoTokens(COMMA, rest);
      PaddedLexes(elements[0], [COMMA] + rest);
    }
  }

  lemma {:induction false} EntryLexes(e: Entry, post: Bytes)
    requires ValidEntry(e) && EndsItem(post)
    ensures TokensOf(PrintEntry(e, post))
         == [Quoted(|Decoded(e.name)|, true)] + TextTokens(e.value.text, TokensOf(post))
    decreases e, 0
  {
    var value := PrintPadded(e.value, post);
    var colon := [COLON] + value;
    SpacesHoldNoTokens(e.before, PrintString(e.name, e.after + colon));
    StringIsOneToken(e.name, e.after + colon);
    SpacesThenColon(e.after, value);
    SpacesHoldNoTokens(e.after, colon);
    PunctuationHoldsNoTokens(COLON, value);
    PaddedLexes(e.value, post);
  }

  lemma {:induction false} EntriesLex(entries: seq<Entry>, post: Bytes)
    requires entries != [] && ValidEntries(entries) && EndsItem(post)
    ensures TokensOf(PrintEntries(entries, post)) == EntryTokens(entries, TokensOf(post))
    decreases entries, 0
  {
    if |entries| == 1 {
      EntryLexes(entries[0], post);
    } else {
      var rest := PrintEntries(entries[1..], post);
      EntriesLex(entries[1..], post);
      PunctuationHoldsNoTokens(COMMA, rest);
      EntryLexes(entries[0], [COMMA] + rest);
    }
  }

  // --------------------------------------------------------- the first scanner

  datatype DepthScan = DepthScan(tokens: nat, depth: nat, nesting: nat)

  function CountToken(scan: DepthScan): DepthScan {
    scan.(tokens := scan.tokens + 1, depth := Max(scan.depth, scan.nesting))
  }

  function ScanDepthToken(token: Token, scan: DepthScan): DepthScan {
    match token
    case Open(_) => CountToken(scan).(nesting := scan.nesting + 1)
    case Close => scan.(nesting := if scan.nesting == 0 then 0 else scan.nesting - 1)
    case _ => CountToken(scan)
  }

  /** `source_metrics` on the tokens: their number and the deepest nesting at which one stands. */
  function ScanDepth(tokens: seq<Token>, scan: DepthScan): DepthScan {
    if tokens == [] then scan else ScanDepth(tokens[1..], ScanDepthToken(tokens[0], scan))
  }

  /** The effect of a text with so many tokens, nested so deep. */
  function DepthAfter(scan: DepthScan, tokens: nat, depth: nat): DepthScan {
    DepthScan(scan.tokens + tokens, Max(scan.depth, scan.nesting + depth), scan.nesting)
  }

  /** The same for the children of a collection, whose own token already stands at the level above. */
  function DepthInside(scan: DepthScan, tokens: nat, depth: nat): DepthScan
    requires scan.nesting > 0
  {
    DepthScan(scan.tokens + tokens, Max(scan.depth, scan.nesting - 1 + depth), scan.nesting)
  }

  lemma ScanDepthSkips(token: Token, tail: seq<Token>, scan: DepthScan)
    ensures ScanDepth([token] + tail, scan) == ScanDepth(tail, ScanDepthToken(token, scan))
  {
    assert ([token] + tail)[1..] == tail;
  }

  /** Reading one part after another inside a collection. */
  lemma DepthsJoin(scan: DepthScan, tokens: nat, depth: nat, moreTokens: nat, moreDepth: nat)
    requires scan.nesting > 0
    ensures DepthInside(DepthAfter(scan, tokens, depth), moreTokens, moreDepth)
         == DepthInside(scan, tokens + moreTokens, Max(depth + 1, moreDepth))
    ensures DepthAfter(scan, tokens, depth).depth >= scan.nesting
    ensures DepthAfter(scan, tokens, depth).nesting == scan.nesting
  {
  }

  lemma NamedDepthsJoin(scan: DepthScan, tokens: nat, depth: nat, moreTokens: nat, moreDepth: nat)
    requires scan.nesting > 0
    ensures DepthInside(DepthAfter(CountToken(scan), tokens, depth), moreTokens, moreDepth)
         == DepthInside(scan, 1 + tokens + moreTokens, Max(Max(0, depth + 1), moreDepth))
    ensures DepthAfter(CountToken(scan), tokens, depth).depth >= scan.nesting
    ensures DepthAfter(CountToken(scan), tokens, depth).nesting == scan.nesting
  {
  }

  lemma CloseAfter(scan: DepthScan, bracket: bool, tail: seq<Token>, tokens: nat, depth: nat)
    ensures ScanDepth([Close] + tail, DepthInside(ScanDepthToken(Open(bracket), scan), tokens, depth))
         == ScanDepth(tail, DepthAfter(scan, tokens + 1, depth))
  {
    ScanDepthSkips(Close, tail, DepthInside(ScanDepthToken(Open(bracket), scan), tokens, depth));
  }

  lemma TextUnfolds(q: Quantity, t: Text)
    requires ValidText(t)
    ensures t.ArrayText? ==> TextMeasure(q, t) == Combine(q, OfArray(q, |t.elements|), ElementMeasure(q, t.elements))
    ensures t.ObjectText? ==> TextMeasure(q, t) == Combine(q, OfObject(q, |t.entries|), EntryMeasure(q, t.entries))
  {
  }

  lemma ElementsUnfold(q: Quantity, elements: seq<Padded>)
    requires ValidElements(elements) && elements != []
    ensures ElementMeasure(q, elements)
         == Combine(q, Nested(q, TextMeasure(q, elements[0].text)), ElementMeasure(q, elements[1..]))
  {
  }

  lemma EntriesUnfold(q: Quantity, entries: seq<Entry>)
    requires ValidEntries(entries) && entries != []
    ensures EntryMeasure(q, entries)
         == Combine(q, Combine(q, OfName(q, |Decoded(entries[0].name)|), Nested(q, TextMeasure(q, entries[0].value.text))),
                    EntryMeasure(q, entries[1..]))
  {
  }

  lemma EntryDepthsUnfold(entries: seq<Entry>)
    requires ValidEntries(entries) && entries != []
    ensures var value, rest := entries[0].value.text, entries[1..];
            && ValidText(value) && ValidEntries(rest)
            && EntryMeasure(Tokens, entries) == 1 + TextMeasure(Tokens, value) + EntryMeasure(Tokens, rest)
            && EntryMeasure(Depth, entries)
            == Max(Max(0, TextMeasure(Depth, value) + 1), EntryMeasure(Depth, rest))
  {
    hide TextMeasure, EntryMeasure;
    EntriesUnfold(Tokens, entries);
    EntriesUnfold(Depth, entries);
  }

  lemma ScanDepthOfScalar(t: Text, tail: seq<Token>, scan: DepthScan)
    requires ValidText(t) && !t.ArrayText? && !t.ObjectText?
    ensures ScanDepth(TextTokens(t, tail), scan)
         == ScanDepth(tail, DepthAfter(scan, TextMeasure(Tokens, t), TextMeasure(Depth, t)))
  {
    ScanDepthSkips(TextTokens(t, tail)[0], tail, scan);
  }

  lemma {:induction false} ScanDepthOfText(t: Text, tail: seq<Token>, scan: DepthScan)
    requires ValidText(t)
    ensures ScanDepth(TextTokens(t, tail), scan)
         == ScanDepth(tail, DepthAfter(scan, TextMeasure(Tokens, t), TextMeasure(Depth, t)))
    decreases t, 0
  {
    hide TextMeasure, ElementMeasure, EntryMeasure, ScanDepth, DepthAfter, DepthInside;
    TextUnfolds(Tokens, t);
    TextUnfolds(Depth, t);
    match t
    case ArrayText(_, elements) =>
      ScanDepthSkips(Open(true), ElementTokens(elements, [Close] + tail), scan);
      ScanDepthOfElements(elements, [Close] + tail, ScanDepthToken(Open(true), scan));
      CloseAfter(scan, true, tail, ElementMeasure(Tokens, elements), ElementMeasure(Depth, elements));
    case ObjectText(_, entries) =>
      ScanDepthSkips(Open(false), EntryTokens(entries, [Close] + tail), scan);
      ScanDepthOfEntries(entries, [Close] + tail, ScanDepthToken(Open(false), scan));
      CloseAfter(scan, false, tail, EntryMeasure(Tokens, entries), EntryMeasure(Depth, entries));
    case _ => ScanDepthOfScalar(t, tail, scan);
  }

  lemma NothingInside(elements: seq<Padded>, entries: seq<Entry>, tail: seq<Token>, scan: DepthScan)
    requires elements == [] && entries == [] && scan.nesting > 0 && scan.depth + 1 >= scan.nesting
    ensures ScanDepth(ElementTokens(elements, tail), scan)
         == ScanDepth(tail, DepthInside(scan, ElementMeasure(Tokens, elements), ElementMeasure(Depth, elements)))
    ensures ScanDepth(EntryTokens(entries, tail), scan)
         == ScanDepth(tail, DepthInside(scan, EntryMeasure(Tokens, entries), EntryMeasure(Depth, entries)))
  {
  }

  lemma {:induction false} ScanDepthOfElements(elements: seq<Padded>, tail: seq<Token>, scan: DepthScan)
    requires ValidElements(elements) && scan.nesting > 0 && scan.depth + 1 >= scan.nesting
    ensures ScanDepth(ElementTokens(elements, tail), scan)
         == ScanDepth(tail, DepthInside(scan, ElementMeasure(Tokens, elements), ElementMeasure(Depth, elements)))
    decreases elements, 0
  {
    hide TextMeasure, ElementMeasure, ScanDepth, DepthInside, DepthAfter, Max, TextTokens, ElementTokens,
         ValidText, ValidElements;
    if elements == [] {
      NothingInside(elements, [], tail, scan);
    } else {
      ElementDepthsUnfold(elements);
      ElementTokensUnfold(elements, tail);
      var first, rest := elements[0].text, ElementTokens(elements[1..], tail);
      var tokens, depth := TextMeasure(Tokens, first), TextMeasure(Depth, first);
      DepthsJoin(scan, tokens, depth, ElementMeasure(Tokens, elements[1..]), ElementMeasure(Depth, elements[1..]));
      ScanDepthOfText(first, rest, scan);
      ScanDepthOfElements(elements[1..], tail, DepthAfter(scan, tokens, depth));
    }
  }

  lemma ElementTokensUnfold(elements: seq<Padded>, tail: seq<Token>)
    requires ValidElements(elements) && elements != []
    ensures ValidText(elements[0].text) && ValidElements(elements[1..])
    ensures ElementTokens(elements, tail) == TextTokens(elements[0].text, ElementTokens(elements[1..], tail))
  {
  }

  lemma ElementDepthsUnfold(elements: seq<Padded>)
    requires ValidElements(elements) && elements != []
    ensures ValidText(elements[0].text) && ValidElements(elements[1..])
    ensures ElementMeasure(Tokens, elements) == TextMeasure(Tokens, elements[0].text) + ElementMeasure(Tokens, elements[1..])
    ensures ElementMeasure(Depth, elements) == Max(TextMeasure(Depth, elements[0].text) + 1, ElementMeasure(Depth, elements[1..]))
  {
    hide TextMeasure, ElementMeasure, EntryMeasure;
    ElementsUnfold(Tokens, elements);
    ElementsUnfold(Depth, elements);
  }

  lemma EntryTokensUnfold(entries: seq<Entry>, tail: seq<Token>)
    requires ValidEntries(entries) && entries != []
    ensures ValidUnits(entries[0].name) && ValidText(entries[0].value.text) && ValidEntries(entries[1..])
    ensures EntryTokens(entries, tail)
         == [Quoted(|Decoded(entries[0].name)|, true)] + TextTokens(entries[0].value.text, EntryTokens(entries[1..], tail))
  {
  }

  lemma {:induction false} ScanDepthOfEntries(entries: seq<Entry>, tail: seq<Token>, scan: DepthScan)
    requires ValidEntries(entries) && scan.nesting > 0 && scan.depth + 1 >= scan.nesting
    ensures ScanDepth(EntryTokens(entries, tail), scan)
         == ScanDepth(tail, DepthInside(scan, EntryMeasure(Tokens, entries), EntryMeasure(Depth, entries)))
    decreases entries, 0
  {
    hide TextMeasure, EntryMeasure, ScanDepth, DepthInside, DepthAfter, Max, TextTokens, EntryTokens,
         ValidText, ValidEntries, CountToken;
    if entries == [] {
      NothingInside([], entries, tail, scan);
    } else {
      EntryDepthsUnfold(entries);
      EntryTokensUnfold(entries, tail);
      var name, value := Quoted(|Decoded(entries[0].name)|, true), entries[0].value.text;
      var rest, named := EntryTokens(entries[1..], tail), CountToken(scan);
      var tokens, depth := TextMeasure(Tokens, value), TextMeasure(Depth, value);
      NamedDepthsJoin(scan, tokens, depth, EntryMeasure(Tokens, entries[1..]), EntryMeasure(Depth, entries[1..]));
      ScanDepthSkips(name, TextTokens(value, rest), scan);
      ScanDepthOfText(value, rest, named);
      ScanDepthOfEntries(entries[1..], tail, DepthAfter(named, tokens, depth));
    }
  }

  // -------------------------------------------------------- the second scanner

  datatype Collection = Collection(bracket: bool, length: nat)

  datatype ValueScan = ValueScan(
    nodes: nat, members: nat, collectionLength: nat, scalarBytes: nat, collections: seq<Collection>)

  /** Counts one more child of the innermost collection, if that is of the given kind. */
  function Grow(collections: seq<Collection>, bracket: bool): (grown: seq<Collection>)
    ensures |grown| == |collections|
  {
    if collections == [] then []
    else
      var last := |collections| - 1;
      if collections[last].bracket != bracket then collections
      else collections[last := Collection(bracket, collections[last].length + 1)]
  }

  function CountNode(scan: ValueScan): ValueScan {
    scan.(nodes := scan.nodes + 1, collections := Grow(scan.collections, true))
  }

  function LongestOf(collections: seq<Collection>): nat {
    if collections == [] then 0
    else Max(LongestOf(collections[..|collections| - 1]), collections[|collections| - 1].length)
  }

  /** `source_value_metrics` on the tokens, with collections left open at the end counted as they stand. */
  function ScanValue(tokens: seq<Token>, scan: ValueScan): ValueScan {
    if tokens == [] then scan.(collectionLength := Max(scan.collectionLength, LongestOf(scan.collections)))
    else ScanValue(tokens[1..], ScanValueToken(tokens[0], scan))
  }

  function ScanValueToken(token: Token, scan: ValueScan): ValueScan {
    match token
    case Open(bracket) =>
      var counted := CountNode(scan);
      counted.(collections := counted.collections + [Collection(bracket, 0)])
    case Close =>
      if scan.collections == [] then scan
      else
        var last := |scan.collections| - 1;
        scan.(collectionLength := Max(scan.collectionLength, scan.collections[last].length),
              collections := scan.collections[..last])
    case Quoted(size, isName) =>
      var counted := if isName then scan.(members := scan.members + 1, collections := Grow(scan.collections, false))
                     else CountNode(scan);
      counted.(scalarBytes := Max(scan.scalarBytes, size))
    case Word(size) => CountNode(scan).(scalarBytes := Max(scan.scalarBytes, size))
  }

  /** What a text adds to the counters of the second scanner. */
  datatype Share = Share(nodes: nat, members: nat, collectionLength: nat, scalarBytes: nat)
  {
    function Plus(other: Share): Share {
      Share(nodes + other.nodes, members + other.members, Max(collectionLength, other.collectionLength),
            Max(scalarBytes, other.scalarBytes))
    }
  }

  ghost function TextShare(t: Text): Share
    requires ValidText(t)
  {
    Share(TextMeasure(Nodes, t), TextMeasure(Members, t), TextMeasure(CollectionLength, t), TextMeasure(ScalarBytes, t))
  }

  ghost function ElementShare(elements: seq<Padded>): Share
    requires ValidElements(elements)
  {
    Share(ElementMeasure(Nodes, elements), ElementMeasure(Members, elements),
          ElementMeasure(CollectionLength, elements), ElementMeasure(ScalarBytes, elements))
  }

  /** The scanner counts a member at its name, before the object is closed. */
  ghost function EntryShare(entries: seq<Entry>): Share
    requires ValidEntries(entries)
  {
    Share(EntryMeasure(Nodes, entries), EntryMeasure(Members, entries) + |entries|,
          EntryMeasure(CollectionLength, entries), EntryMeasure(ScalarBytes, entries))
  }

  /** The effect of a value, apart from the child it adds to the innermost array. */
  function Absorb(scan: ValueScan, share: Share): ValueScan {
    ValueScan(scan.nodes + share.nodes, scan.members + share.members,
              Max(scan.collectionLength, share.collectionLength), Max(scan.scalarBytes, share.scalarBytes),
              scan.collections)
  }

  function ValueAfter(scan: ValueScan, share: Share): ValueScan {
    Absorb(scan, share).(collections := Grow(scan.collections, true))
  }

  /** Inside a collection: the effect of its children so far, with the innermost length adjusted. */
  function ValueInside(scan: ValueScan, share: Share, length: nat): ValueScan
    requires scan.collections != []
  {
    var last := |scan.collections| - 1;
    Absorb(scan, share).(collections := scan.collections[last := scan.collections[last].(length := length)])
  }

  lemma ScanValueSkips(token: Token, tail: seq<Token>, scan: ValueScan)
    ensures ScanValue([token] + tail, scan) == ScanValue(tail, ScanValueToken(token, scan))
  {
    assert ([token] + tail)[1..] == tail;
  }

  lemma CollectionSharesUnfold(t: Text)
    requires ValidText(t)
    ensures t.ArrayText? ==> TextShare(t) == Share(1, 0, |t.elements|, 0).Plus(ElementShare(t.elements))
    ensures t.ObjectText? ==> TextShare(t) == Share(1, 0, |t.entries|, 0).Plus(EntryShare(t.entries))
  {
    hide TextMeasure, ElementMeasure, EntryMeasure;
    TextUnfolds(Nodes, t);
    TextUnfolds(Members, t);
    TextUnfolds(CollectionLength, t);
    TextUnfolds(ScalarBytes, t);
  }

  lemma ElementSharesUnfold(elements: seq<Padded>)
    requires ValidElements(elements) && elements != []
    ensures ElementShare(elements) == TextShare(elements[0].text).Plus(ElementShare(elements[1..]))
  {
    hide TextMeasure, ElementMeasure, EntryMeasure;
    ElementsUnfold(Nodes, elements);
    ElementsUnfold(Members, elements);
    ElementsUnfold(CollectionLength, elements);
    ElementsUnfold(ScalarBytes, elements);
  }

  lemma EntrySharesUnfold(entries: seq<Entry>)
    requires ValidEntries(entries) && entries != []
    ensures EntryShare(entries)
         == Share(0, 1, 0, |Decoded(entries[0].name)|).Plus(TextShare(entries[0].value.text)).Plus(EntryShare(entries[1..]))
  {
    hide TextMeasure, ElementMeasure, EntryMeasure;
    EntriesUnfold(Nodes, entries);
    EntriesUnfold(Members, entries);
    EntriesUnfold(CollectionLength, entries);
    EntriesUnfold(ScalarBytes, entries);
  }

  lemma ScanValueOfScalar(t: Text, tail: seq<Token>, scan: ValueScan)
    requires ValidText(t) && !t.ArrayText? && !t.ObjectText?
    ensures ScanValue(TextTokens(t, tail), scan) == ScanValue(tail, ValueAfter(scan, TextShare(t)))
  {
    var token := TextTokens(t, tail)[0];
    assert TextTokens(t, tail) == [token] + tail;
    assert ScanValueToken(token, scan) == ValueAfter(scan, TextShare(t));
    hide *;
    ScanValueSkips(token, tail, scan);
  }

  lemma {:induction false} ScanValueOfText(t: Text, tail: seq<Token>, scan: ValueScan)
    requires ValidText(t)
    ensures ScanValue(TextTokens(t, tail), scan) == ScanValue(tail, ValueAfter(scan, TextShare(t)))
    decreases t, 0
  {
    hide TextShare, ElementShare, EntryShare, ScanValue, ValueAfter;
    CollectionSharesUnfold(t);
    match t
    case ArrayText(_, elements) =>
      var inside, close := ScanValueToken(Open(true), scan), [Close] + tail;
      ScanValueSkips(Open(true), ElementTokens(elements, close), scan);
      ScanValueOfElements(elements, close, inside, |elements|);
      ScanValueSkips(Close, tail, ValueInside(inside, ElementShare(elements), |elements|));
      ClosingAbsorbs(scan, true, ElementShare(elements), |elements|);
    case ObjectText(_, entries) =>
      var inside, close := ScanValueToken(Open(false), scan), [Close] + tail;
      ScanValueSkips(Open(false), EntryTokens(entries, close), scan);
      ScanValueOfEntries(entries, close, inside, |entries|);
      ScanValueSkips(Close, tail, ValueInside(inside, EntryShare(entries), |entries|));
      ClosingAbsorbs(scan, false, EntryShare(entries), |entries|);
    case _ => ScanValueOfScalar(t, tail, scan);
  }

  /** Opening a collection, reading its children and closing it is reading one value. */
  lemma ClosingAbsorbs(scan: ValueScan, bracket: bool, share: Share, length: nat)
    ensures ScanValueToken(Close, ValueInside(ScanValueToken(Open(bracket), scan), share, length))
         == ValueAfter(scan, Share(1, 0, length, 0).Plus(share))
  {
    var inside := ScanValueToken(Open(bracket), scan);
    var last := |inside.collections| - 1;
    assert ValueInside(inside, share, length).collections[..last] == Grow(scan.collections, true);
  }

  ghost predicate InnermostIs(scan: ValueScan, bracket: bool) {
    scan.collections != [] && scan.collections[|scan.collections| - 1].bracket == bracket
  }

  lemma ValueOfElement(scan: ValueScan, element: Share, rest: Share, length: nat)
    requires InnermostIs(scan, true)
    ensures ValueInside(ValueAfter(scan, element), rest, length) == ValueInside(scan, element.Plus(rest), length)
  {
  }

  lemma ValueOfEntry(scan: ValueScan, size: nat, value: Share, rest: Share, length: nat)
    requires InnermostIs(scan, false)
    ensures ValueInside(ValueAfter(ScanValueToken(Quoted(size, true), scan), value), rest, length)
         == ValueInside(scan, Share(0, 1, 0, size).Plus(value).Plus(rest), length)
  {
  }

  lemma {:induction false} ScanValueOfElements(elements: seq<Padded>, tail: seq<Token>, scan: ValueScan, length: nat)
    requires ValidElements(elements) && InnermostIs(scan, true)
    requires length == scan.collections[|scan.collections| - 1].length + |elements|
    ensures ScanValue(ElementTokens(elements, tail), scan)
         == ScanValue(tail, ValueInside(scan, ElementShare(elements), length))
    decreases elements, 0
  {
    if elements == [] {
      assert ValueInside(scan, ElementShare(elements), length) == scan;
    } else {
      hide TextShare, ElementShare, EntryShare, ScanValue;
      ElementSharesUnfold(elements);
      var first := TextShare(elements[0].text);
      ScanValueOfText(elements[0].text, ElementTokens(elements[1..], tail), scan);
      ScanValueOfElements(elements[1..], tail, ValueAfter(scan, first), length);
      ValueOfElement(scan, first, ElementShare(elements[1..]), length);
    }
  }

  lemma {:induction false} ScanValueOfEntries(entries: seq<Entry>, tail: seq<Token>, scan: ValueScan, length: nat)
    requires ValidEntries(entries) && InnermostIs(scan, false)
    requires length == scan.collections[|scan.collections| - 1].length + |entries|
    ensures ScanValue(EntryTokens(entries, tail), scan)
         == ScanValue(tail, ValueInside(scan, EntryShare(entries), length))
    decreases entries, 0
  {
    if entries == [] {
      assert ValueInside(scan, EntryShare(entries), length) == scan;
    } else {
      hide TextShare, ElementShare, EntryShare, ScanValue;
      EntrySharesUnfold(entries);
      var name, value := Quoted(|Decoded(entries[0].name)|, true), TextShare(entries[0].value.text);
      var named, rest := ScanValueToken(name, scan), EntryTokens(entries[1..], tail);
      ScanValueSkips(name, TextTokens(entries[0].value.text, rest), scan);
      ScanValueOfText(entries[0].value.text, rest, named);
      ScanValueOfEntries(entries[1..], tail, ValueAfter(named, value), length);
      ValueOfEntry(scan, name.size, value, EntryShare(entries[1..]), length);
    }
  }

  const START_DEPTH: DepthScan := DepthScan(0, 0, 0)
  const START_VALUE: ValueScan := ValueScan(0, 0, 0, 0, [])

  /** What the two scanners together report of a quantity. */
  function ScannedMeasure(q: Quantity, bytes: Bytes): nat {
    match q
    case Tokens => ScanDepth(TokensOf(bytes), START_DEPTH).tokens
    case Depth => ScanDepth(TokensOf(bytes), START_DEPTH).depth
    case Nodes => ScanValue(TokensOf(bytes), START_VALUE).nodes
    case Members => ScanValue(TokensOf(bytes), START_VALUE).members
    case CollectionLength => ScanValue(TokensOf(bytes), START_VALUE).collectionLength
    case ScalarBytes => ScanValue(TokensOf(bytes), START_VALUE).scalarBytes
  }

  lemma NothingIsLeftToScan(depthScan: DepthScan, valueScan: ValueScan)
    requires valueScan.collections == []
    ensures TokensOf([]) == [] && ScanDepth([], depthScan) == depthScan && ScanValue([], valueScan) == valueScan
  {
  }

  /** On every legal text the scanners measure the syntax tree. */
  lemma ScannersMeasureTheText(q: Quantity, document: Padded)
    requires ValidPadded(document)
    ensures ScannedMeasure(q, PrintPadded(document, [])) == TextMeasure(q, document.text)
  {
    var tokens, depth := TextMeasure(Tokens, document.text), TextMeasure(Depth, document.text);
    NothingIsLeftToScan(DepthAfter(START_DEPTH, tokens, depth), ValueAfter(START_VALUE, TextShare(document.text)));
    hide TextMeasure, TextTokens, TokensOf, PrintPadded, ValidText, ScanDepth, ScanValue, LongestOf;
    PaddedLexes(document, []);
    ScanDepthOfText(document.text, [], START_DEPTH);
    ScanValueOfText(document.text, [], START_VALUE);
  }
}

/** The concrete syntax of JSON: every legal text of a value, and the value it writes (RFC 8259). */
module JsonText {
  import opened Bytes
  import opened Numbers
  import opened Json

  const QUOTE: Byte := 34
  const COMMA: Byte := 44
  const COLON: Byte := 58
  const OPEN_BRACKET: Byte := 91
  const BACKSLASH: Byte := 92
  const CLOSE_BRACKET: Byte := 93
  const LETTER_U: Byte := 117
  const OPEN_BRACE: Byte := 123
  const CLOSE_BRACE: Byte := 125

  predicate IsSpace(b: Byte) {
    b == 32 || b == 10 || b == 13 || b == 9
  }

  predicate AllSpaces(text: Bytes) {
    forall i | 0 <= i < |text| :: IsSpace(text[i])
  }

  // --------------------------------------------------------------- characters

  predicate IsScalar(s: nat) {
    s < 0xD800 || 0xE000 <= s < 0x110000
  }

  /** The UTF-8 encoding of a Unicode scalar value. */
  function Utf8(s: nat): Bytes
    requires IsScalar(s)
  {
    if s < 0x80 then [s]
    else if s < 0x800 then [0xC0 + s / 64, 0x80 + s % 64]
    else if s < 0x10000 then [0xE0 + s / 4096, 0x80 + s / 64 % 64, 0x80 + s % 64]
    else [0xF0 + s / 262144, 0x80 + s / 4096 % 64, 0x80 + s / 64 % 64, 0x80 + s % 64]
  }

  function HexDigit(b: Byte): (digit: Option<nat>)
    ensures digit.Some? ==> digit.value < 16
  {
    if IsDigit(b) then Some(b - 48)
    else if 97 <= b <= 102 then Some(b - 97 + 10)
    else if 65 <= b <= 70 then Some(b - 65 + 10)
    else None
  }

  /** `parse_hex_quad`: four hexadecimal digits, or nothing. */
  function ParseHexQuad(bytes: Bytes): (value: Option<nat>)
    ensures value.Some? ==> |bytes| == 4 && value.value < 0x10000
  {
    if |bytes| != 4 then None
    else
      var a, b, c, d := HexDigit(bytes[0]), HexDigit(bytes[1]), HexDigit(bytes[2]), HexDigit(bytes[3]);
      if a.None? || b.None? || c.None? || d.None? then None
      else Some(((a.value * 16 + b.value) * 16 + c.value) * 16 + d.value)
  }

  predicate IsHighSurrogate(code: nat) {
    0xD800 <= code <= 0xDBFF
  }

  predicate IsLowSurrogate(code: nat) {
    0xDC00 <= code <= 0xDFFF
  }

  /** One spelling of one character inside a string. */
  datatype Unit =
    | Plain(scalar: nat)
    | Short(letter: Byte)
    | Escape(quad: Bytes)
    | Pair(high: Bytes, low: Bytes)
  {
    predicate Valid() {
      match this
      case Plain(scalar) => IsScalar(scalar) && scalar >= 0x20 && scalar != QUOTE && scalar != BACKSLASH
      case Short(letter) => letter in {34, 92, 47, 98, 102, 110, 114, 116}
      case Escape(quad) => ParseHexQuad(quad).Some? && IsScalar(ParseHexQuad(quad).value)
      case Pair(high, low) =>
        && ParseHexQuad(high).Some? && IsHighSurrogate(ParseHexQuad(high).value)
        && ParseHexQuad(low).Some? && IsLowSurrogate(ParseHexQuad(low).value)
    }

    function Text(): (text: Bytes)
      requires Valid()
      ensures text != []
    {
      match this
      case Plain(scalar) => Utf8(scalar)
      case Short(letter) => [BACKSLASH, letter]
      case Escape(quad) => [BACKSLASH, LETTER_U] + quad
      case Pair(high, low) => ([BACKSLASH, LETTER_U] + high) + ([BACKSLASH, LETTER_U] + low)
    }

    /** The character the spelling stands for. */
    function Scalar(): (scalar: nat)
      requires Valid()
      ensures IsScalar(scalar)
    {
      match this
      case Plain(scalar) => scalar
      case Short(letter) =>
        (match letter
         case 98 => 8
         case 102 => 12
         case 110 => 10
         case 114 => 13
         case 116 => 9
         case _ => letter)
      case Escape(quad) => ParseHexQuad(quad).value
      case Pair(high, low) =>
        0x10000 + (ParseHexQuad(high).value - 0xD800) * 0x400 + (ParseHexQuad(low).value - 0xDC00)
    }
  }

  ghost predicate ValidUnits(units: seq<Unit>) {
    forall i | 0 <= i < |units| :: units[i].Valid()
  }

  /** The UTF-8 string that a spelled string denotes. */
  ghost function Decoded(units: seq<Unit>): Bytes
    requires ValidUnits(units)
  {
    if units == [] then [] else Utf8(units[0].Scalar()) + Decoded(units[1..])
  }

  /** The spelled string followed by more text. */
  ghost function PrintUnits(units: seq<Unit>, post: Bytes): Bytes
    requires ValidUnits(units)
  {
    if units == [] then post else units[0].Text() + PrintUnits(units[1..], post)
  }

  ghost function PrintString(units: seq<Unit>, post: Bytes): Bytes
    requires ValidUnits(units)
  {
    [QUOTE] + PrintUnits(units, [QUOTE] + post)
  }

  // -------------------------------------------------------------------- values

  /** One spelling of a JSON value. The gap is the white space inside an empty array or object. */
  datatype Text =
    | NullText
    | TrueText
    | FalseText
    | NumberText(literal: Literal)
    | StringText(units: seq<Unit>)
    | ArrayText(gap: Bytes, elements: seq<Padded>)
    | ObjectText(gap: Bytes, entries: seq<Entry>)

  /** A value with the white space around it. */
  datatype Padded = Padded(before: Bytes, text: Text, after: Bytes)

  datatype Entry = Entry(before: Bytes, name: seq<Unit>, after: Bytes, value: Padded)

  ghost predicate ValidText(t: Text) {
    match t
    case NumberText(literal) => literal.Valid()
    case StringText(units) => ValidUnits(units)
    case ArrayText(gap, elements) =>
      && AllSpaces(gap)
      && forall i | 0 <= i < |elements| ::
           AllSpaces(elements[i].before) && ValidText(elements[i].text) && AllSpaces(elements[i].after)
    case ObjectText(gap, entries) =>
      && AllSpaces(gap)
      && forall i | 0 <= i < |entries| ::
           && AllSpaces(entries[i].before) && ValidUnits(entries[i].name) && AllSpaces(entries[i].after)
           && AllSpaces(entries[i].value.before) && ValidText(entries[i].value.text) && AllSpaces(entries[i].value.after)
    case _ => true
  }

  ghost predicate ValidPadded(p: Padded) {
    AllSpaces(p.before) && ValidText(p.text) && AllSpaces(p.after)
  }

  ghost predicate ValidEntry(e: Entry) {
    AllSpaces(e.before) && ValidUnits(e.name) && AllSpaces(e.after) && ValidPadded(e.value)
  }

  ghost predicate ValidElements(elements: seq<Padded>) {
    forall i {:trigger elements[i]} | 0 <= i < |elements| :: ValidPadded(elements[i])
  }

  ghost predicate ValidEntries(entries: seq<Entry>) {
    forall i {:trigger entries[i]} | 0 <= i < |entries| :: ValidEntry(entries[i])
  }

  const NULL_WORD: Bytes := [110, 117, 108, 108]
  const TRUE_WORD: Bytes := [116, 114, 117, 101]
  const FALSE_WORD: Bytes := [102, 97, 108, 115, 101]

  /** The text of a value followed by more text. */
  ghost function Print(t: Text, post: Bytes): Bytes
    requires ValidText(t)
    decreases t, 0
  {
    match t
    case NullText => NULL_WORD + post
    case TrueText => TRUE_WORD + post
    case FalseText => FALSE_WORD + post
    case NumberText(literal) => literal.Text() + post
    case StringText(units) => PrintString(units, post)
    case ArrayText(gap, elements) =>
      [OPEN_BRACKET] + (if elements == [] then gap + ([CLOSE_BRACKET] + post)
                        else PrintElements(elements, [CLOSE_BRACKET] + post))
    case ObjectText(gap, entries) =>
      [OPEN_BRACE] + (if entries == [] then gap + ([CLOSE_BRACE] + post)
                      else PrintEntries(entries, [CLOSE_BRACE] + post))
  }

  ghost function PrintPadded(p: Padded, post: Bytes): Bytes
    requires ValidPadded(p)
    decreases p, 0
  {
    p.before + Print(p.text, p.after + post)
  }

  ghost function PrintElements(elements: seq<Padded>, post: Bytes): Bytes
    requires elements != [] && ValidElements(elements)
    decreases elements, 0
  {
    PrintPadded(elements[0], if |elements| == 1 then post else [COMMA] + PrintElements(elements[1..], post))
  }

  ghost function PrintEntry(e: Entry, post: Bytes): Bytes
    requires ValidEntry(e)
    decreases e, 0
  {
    e.before + PrintString(e.name, e.after + ([COLON] + PrintPadded(e.value, post)))
  }

  ghost function PrintEntries(entries: seq<Entry>, post: Bytes): Bytes
    requires entries != [] && ValidEntries(entries)
    decreases entries, 0
  {
    PrintEntry(entries[0], if |entries| == 1 then post else [COMMA] + PrintEntries(entries[1..], post))
  }

  /** The value a text writes; the last of several members with one name wins. A number keeps its text as it stands,
  `-0` and the spelling of its exponent included: the parser is taken to do so. */
  ghost function ValueOf(t: Text): Json
    requires ValidText(t)
    decreases t, 0
  {
    match t
    case NullText => Null
    case TrueText => Bool(true)
    case FalseText => Bool(false)
    case NumberText(literal) => Number(literal.Text())
    case StringText(units) => String(Decoded(units))
    case ArrayText(_, elements) => Array(ElementValues(elements))
    case ObjectText(_, entries) => Object(EntryValues(entries))
  }

  ghost function ElementValues(elements: seq<Padded>): (values: seq<Json>)
    requires ValidElements(elements)
    ensures |values| == |elements|
    decreases elements, 0
  {
    if elements == [] then [] else [ValueOf(elements[0].text)] + ElementValues(elements[1..])
  }

  ghost function EntryValues(entries: seq<Entry>): map<Bytes, Json>
    requires ValidEntries(entries)
    decreases entries, 0
  {
    if entries == [] then map[]
    else
      var name, later := Decoded(entries[0].name), EntryValues(entries[1..]);
      if name in later then later else later[name := ValueOf(entries[0].value.text)]
  }

  // ------------------------------------------------------- the measured quantities

  /** The quantities the input limits bound. */
  datatype Quantity = Tokens | Nodes | Members | Depth | CollectionLength | ScalarBytes

  function Max(a: nat, b: nat): nat {
    if a < b then b else a
  }

  /** Counts add up over the parts of a value; depths, lengths and sizes take the larger. */
  function Combine(q: Quantity, a: nat, b: nat): nat {
    if q.Tokens? || q.Nodes? || q.Members? then a + b else Max(a, b)
  }

  /** The same part, one level further down. */
  function Nested(q: Quantity, n: nat): nat {
    if q.Depth? then n + 1 else n
  }

  function OfScalar(q: Quantity, size: nat): nat {
    if q.Tokens? || q.Nodes? then 1 else if q.ScalarBytes? then size else 0
  }

  function OfName(q: Quantity, size: nat): nat {
    if q.Tokens? then 1 else if q.ScalarBytes? then size else 0
  }

  function OfArray(q: Quantity, length: nat): nat {
    if q.Tokens? || q.Nodes? then 1 else if q.CollectionLength? then length else 0
  }

  function OfObject(q: Quantity, length: nat): nat {
    if q.Tokens? || q.Nodes? then 1 else if q.Members? || q.CollectionLength? then length else 0
  }

  /** A quantity of a text, measured on its syntax tree. */
  ghost function TextMeasure(q: Quantity, t: Text): nat
    requires ValidText(t)
    decreases t, 0
  {
    match t
    case NullText => OfScalar(q, 4)
    case TrueText => OfScalar(q, 4)
    case FalseText => OfScalar(q, 5)
    case NumberText(literal) => OfScalar(q, |literal.Text()|)
    case StringText(units) => OfScalar(q, |Decoded(units)|)
    case ArrayText(_, elements) => Combine(q, OfArray(q, |elements|), ElementMeasure(q, elements))
    case ObjectText(_, entries) => Combine(q, OfObject(q, |entries|), EntryMeasure(q, entries))
  }

  ghost function ElementMeasure(q: Quantity, elements: seq<Padded>): nat
    requires ValidElements(elements)
    decreases elements, 0
  {
    if elements == [] then 0
    else Combine(q, Nested(q, TextMeasure(q, elements[0].text)), ElementMeasure(q, elements[1..]))
  }

  ghost function EntryMeasure(q: Quantity, entries: seq<Entry>): nat
    requires ValidEntries(entries)
    decreases entries, 0
  {
    if entries == [] then 0
    else
      var own := Combine(q, OfName(q, |Decoded(entries[0].name)|), Nested(q, TextMeasure(q, entries[0].value.text)));
      Combine(q, own, EntryMeasure(q, entries[1..]))
  }
}

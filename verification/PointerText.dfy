/** JSON Pointers as text: escaping a token, appending it, and reading the pointer back (RFC 6901). */
module PointerText {
  import opened Bytes
  import opened Decimal
  import opened Json

  const SLASH: Byte := 47
  const TILDE: Byte := 126

  /** `text.replace(from, to)` for a one-byte pattern. */
  function ReplaceByte(text: Bytes, from: Byte, to: Bytes): Bytes {
    if text == [] then [] else (if text[0] == from then to else [text[0]]) + ReplaceByte(text[1..], from, to)
  }

  function EscapeToken(token: Bytes): Bytes {
    ReplaceByte(ReplaceByte(token, TILDE, [TILDE, ZERO]), SLASH, [TILDE, ZERO + 1])
  }

  /** `append_token`. */
  function AppendToken(pointer: Bytes, token: Bytes): Bytes {
    pointer + ([SLASH] + EscapeToken(token))
  }

  /** Undoes the escapes of one token: `~1` is a slash and `~0` a tilde (section 4 of RFC 6901). */
  function UnescapeToken(text: Bytes): Option<Bytes> {
    if text == [] then Some([])
    else if text[0] != TILDE then
      var rest := UnescapeToken(text[1..]);
      if rest.Some? then Some([text[0]] + rest.value) else None
    else if |text| >= 2 && (text[1] == ZERO || text[1] == ZERO + 1) then
      var rest := UnescapeToken(text[2..]);
      if rest.Some? then Some([if text[1] == ZERO then TILDE else SLASH] + rest.value) else None
    else None
  }

  predicate IsSlash(b: Byte) {
    b == SLASH
  }

  /** The tokens of a pointer text: empty, or each token behind a slash (section 3 of RFC 6901). */
  function ParsePointer(text: Bytes): Option<Pointer>
    decreases |text|
  {
    if text == [] then Some([])
    else if text[0] != SLASH then None
    else
      var end := IndexWhere(text[1..], IsSlash);
      var token, rest := UnescapeToken(text[1..][..end]), ParsePointer(text[1..][end..]);
      if token.Some? && rest.Some? then Some([token.value] + rest.value) else None
  }

  lemma {:induction false} ReplaceDistributes(a: Bytes, b: Bytes, from: Byte, to: Bytes)
    ensures ReplaceByte(a + b, from, to) == ReplaceByte(a, from, to) + ReplaceByte(b, from, to)
  {
    if a == [] {
      assert a + b == b;
    } else {
      assert (a + b)[1..] == a[1..] + b;
      ReplaceDistributes(a[1..], b, from, to);
    }
  }

  lemma ReplaceOne(b: Byte, from: Byte, to: Bytes)
    ensures ReplaceByte([b], from, to) == if b == from then to else [b]
  {
    assert [b][1..] == [] && to + [] == to && [b] + [] == [b];
  }

  lemma EscapeOfByte(b: Byte)
    ensures EscapeToken([b]) == if b == TILDE then [TILDE, ZERO] else if b == SLASH then [TILDE, ZERO + 1] else [b]
  {
    ReplaceOne(b, TILDE, [TILDE, ZERO]);
    ReplaceOne(b, SLASH, [TILDE, ZERO + 1]);
    if b == TILDE {
      ReplaceOne(ZERO, SLASH, [TILDE, ZERO + 1]);
      ReplaceDistributes([TILDE], [ZERO], SLASH, [TILDE, ZERO + 1]);
      assert [TILDE] + [ZERO] == [TILDE, ZERO];
    }
  }

  lemma EscapeOfFirst(token: Bytes)
    requires token != []
    ensures EscapeToken(token) == EscapeToken([token[0]]) + EscapeToken(token[1..])
  {
    assert token == [token[0]] + token[1..];
    ReplaceDistributes([token[0]], token[1..], TILDE, [TILDE, ZERO]);
    ReplaceDistributes(ReplaceByte([token[0]], TILDE, [TILDE, ZERO]),
                       ReplaceByte(token[1..], TILDE, [TILDE, ZERO]), SLASH, [TILDE, ZERO + 1]);
  }

  /** The two replacements, in the order they are made, escape a token so that it reads back. */
  lemma {:induction false} EscapeReadsBack(token: Bytes)
    ensures UnescapeToken(EscapeToken(token)) == Some(token)
    ensures forall i | 0 <= i < |EscapeToken(token)| :: EscapeToken(token)[i] != SLASH
  {
    if token != [] {
      var escaped, rest := EscapeToken(token), EscapeToken(token[1..]);
      EscapeOfFirst(token);
      EscapeOfByte(token[0]);
      EscapeReadsBack(token[1..]);
      assert token == [token[0]] + token[1..];
      if token[0] == TILDE || token[0] == SLASH {
        assert escaped[0] == TILDE && escaped[2..] == rest;
      } else {
        assert escaped[0] == token[0] && escaped[1..] == rest;
      }
    }
  }

  lemma IndexOfSlash(front: Bytes, back: Bytes)
    requires forall i | 0 <= i < |front| :: front[i] != SLASH
    requires back != [] ==> back[0] == SLASH
    ensures IndexWhere(front + back, IsSlash) == |front|
    ensures (front + back)[..|front|] == front && (front + back)[|front|..] == back
  {
    var text := front + back;
    assert forall i | 0 <= i < |front| :: text[i] == front[i];
    assert back != [] ==> text[|front|] == back[0];
  }

  /** A pointer is its first token's text and the rest of the pointer. */
  lemma ParseFirst(raw: Bytes, rest: Bytes)
    requires forall i | 0 <= i < |raw| :: raw[i] != SLASH
    requires rest != [] ==> rest[0] == SLASH
    ensures ParsePointer([SLASH] + (raw + rest))
         == if UnescapeToken(raw).Some? && ParsePointer(rest).Some?
            then Some([UnescapeToken(raw).value] + ParsePointer(rest).value) else None
  {
    var text := [SLASH] + (raw + rest);
    assert text[1..] == raw + rest;
    IndexOfSlash(raw, rest);
  }

  lemma SplitPointer(pointer: Bytes) returns (first: Bytes, rest: Bytes)
    requires pointer != [] && ParsePointer(pointer).Some?
    ensures pointer == [SLASH] + (first + rest) && |rest| < |pointer|
    ensures forall i | 0 <= i < |first| :: first[i] != SLASH
    ensures rest != [] ==> rest[0] == SLASH
    ensures UnescapeToken(first).Some? && ParsePointer(rest).Some?
    ensures ParsePointer(pointer).value == [UnescapeToken(first).value] + ParsePointer(rest).value
  {
    var end := IndexWhere(pointer[1..], IsSlash);
    first, rest := pointer[1..][..end], pointer[1..][end..];
  }

  lemma EmptyPointerParses()
    ensures ParsePointer([]) == Some([])
  {
  }

  lemma OneTokenParses(raw: Bytes)
    requires UnescapeToken(raw).Some? && forall i | 0 <= i < |raw| :: raw[i] != SLASH
    ensures ParsePointer([SLASH] + raw) == Some([UnescapeToken(raw).value])
  {
    var none: Pointer := [];
    assert raw + [] == raw && [UnescapeToken(raw).value] + none == [UnescapeToken(raw).value];
    ParseFirst(raw, []);
  }

  /** Appending text behind a slash appends one token. */
  lemma {:induction false} AppendedTextParses(pointer: Bytes, raw: Bytes, token: Bytes)
    requires ParsePointer(pointer).Some? && UnescapeToken(raw) == Some(token)
    requires forall i | 0 <= i < |raw| :: raw[i] != SLASH
    ensures ParsePointer(pointer + ([SLASH] + raw)) == Some(ParsePointer(pointer).value + [token])
    decreases |pointer|
  {
    hide ParsePointer, UnescapeToken;
    var tail := [SLASH] + raw;
    if pointer == [] {
      OneTokenParses(raw);
      EmptyPointerParses();
      var none: Pointer := [];
      assert pointer + tail == tail && none + [token] == [token];
    } else {
      var first, rest := SplitPointer(pointer);
      AppendedTextParses(rest, raw, token);
      SplicedTextParses(first, rest, raw, token);
      assert pointer + tail == [SLASH] + (first + (rest + tail));
    }
  }

  lemma SplicedTextParses(first: Bytes, rest: Bytes, raw: Bytes, token: Bytes)
    requires UnescapeToken(first).Some? && ParsePointer(rest).Some?
    requires forall i | 0 <= i < |first| :: first[i] != SLASH
    requires rest != [] ==> rest[0] == SLASH
    requires ParsePointer(rest + ([SLASH] + raw)) == Some(ParsePointer(rest).value + [token])
    ensures ParsePointer([SLASH] + (first + (rest + ([SLASH] + raw))))
         == Some(([UnescapeToken(first).value] + ParsePointer(rest).value) + [token])
  {
    hide ParsePointer, UnescapeToken;
    ParseFirst(first, rest + ([SLASH] + raw));
    var head, tokens := UnescapeToken(first).value, ParsePointer(rest).value;
    assert [head] + (tokens + [token]) == ([head] + tokens) + [token];
  }

  lemma AppendTokenParses(pointer: Bytes, token: Bytes)
    requires ParsePointer(pointer).Some?
    ensures ParsePointer(AppendToken(pointer, token)) == Some(ParsePointer(pointer).value + [token])
  {
    EscapeReadsBack(token);
    AppendedTextParses(pointer, EscapeToken(token), token);
  }

  lemma {:induction false} DigitsNeedNoEscape(digits: Bytes)
    requires AllDigits(digits)
    ensures UnescapeToken(digits) == Some(digits)
  {
    if digits != [] {
      DigitsNeedNoEscape(digits[1..]);
      assert digits == [digits[0]] + digits[1..];
    }
  }

  /** Appending an array index as decimal text appends the token that names that position. */
  lemma AppendIndexParses(pointer: Bytes, index: nat)
    requires ParsePointer(pointer).Some?
    ensures ParsePointer(pointer + ([SLASH] + NatText(index))) == Some(ParsePointer(pointer).value + [NatText(index)])
    ensures IndexOfToken(NatText(index)) == Some(index)
  {
    DigitsNeedNoEscape(NatText(index));
    AppendedTextParses(pointer, NatText(index), NatText(index));
  }
}

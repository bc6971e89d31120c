/**
  The streaming ASCII lexer (src/compiler/lexer.rs).  `NextToken` is specified
  on the whole remaining input: a numeral is the maximal run of its digits and
  underscores, and its token is decided by the number it spells.
 */
module Lexer {
  import opened Words

  datatype LexError = UnexpectedCharacter | HexOverflow | MalformedHex | DecimalOverflow

  datatype Token =
    | KwFn
    | KwLet
    | Identifier(name: seq<Byte>)
    | Operator(op: Byte)
    | Literal(value: Word)
    | LParen
    | RParen
    | LBrace
    | RBrace
    | Semicolon
    | Comma
    | Error(kind: LexError)
    | Eof

  const SPACE: Byte := 0x20
  const NEWLINE: Byte := 0x0A
  const UNDERSCORE: Byte := 0x5F
  const ZERO: Byte := 0x30

  predicate IsSpace(b: Byte) {
    b == SPACE || b == 0x09 || b == 0x0D || b == NEWLINE
  }

  predicate IsDigit(b: Byte) {
    0x30 <= b <= 0x39
  }

  predicate IsLetter(b: Byte) {
    0x61 <= b <= 0x7A || 0x41 <= b <= 0x5A
  }

  predicate IsHexDigit(b: Byte) {
    IsDigit(b) || 0x61 <= b <= 0x66 || 0x41 <= b <= 0x46
  }

  /** Bytes that may continue an identifier. */
  predicate IsWordByte(b: Byte) {
    IsLetter(b) || IsDigit(b) || b == UNDERSCORE
  }

  predicate IsX(b: Byte) {
    b == 0x78 || b == 0x58
  }

  /** One of + - * / % = < > ! & | ^ ~ : ? */
  predicate IsOperator(b: Byte) {
    || b == 0x2B || b == 0x2D || b == 0x2A || b == 0x2F || b == 0x25 || b == 0x3D || b == 0x3C || b == 0x3E
    || b == 0x21 || b == 0x26 || b == 0x7C || b == 0x5E || b == 0x7E || b == 0x3A || b == 0x3F
  }

  const FN: seq<Byte> := [0x66, 0x6E]
  const LET: seq<Byte> := [0x6C, 0x65, 0x74]

  // ---------------------------------------------------------------------
  // Numerals
  // ---------------------------------------------------------------------

  datatype Base = Dec | Hex {
    /** `v` with one more digit `d` at its end. */
    function Append(v: nat, d: nat): nat {
      if Dec? then 10 * v + d else 16 * v + d
    }

    predicate IsNumeralByte(b: Byte) {
      b == UNDERSCORE || if Dec? then IsDigit(b) else IsHexDigit(b)
    }
  }

  function DigitValue(b: Byte): (d: nat)
    requires IsHexDigit(b)
    ensures d < 16 && (IsDigit(b) ==> d < 10)
  {
    if IsDigit(b) then b - 0x30 else if b >= 0x61 then b - 0x61 + 10 else b - 0x41 + 10
  }

  predicate IsNumeral(s: seq<Byte>, base: Base) {
    forall i :: 0 <= i < |s| ==> base.IsNumeralByte(s[i])
  }

  /** The number a run of digits spells; underscores do not count. */
  function Value(s: seq<Byte>, base: Base): nat
    requires IsNumeral(s, base)
  {
    if s == [] then 0
    else
      var v := Value(s[..|s| - 1], base);
      var b := s[|s| - 1];
      if b == UNDERSCORE then v else base.Append(v, DigitValue(b))
  }

  lemma {:induction false} ValueGrows(s: seq<Byte>, k: nat, base: Base)
    requires IsNumeral(s, base) && k <= |s|
    ensures IsNumeral(s[..k], base) && Value(s[..k], base) <= Value(s, base)
    decreases |s|
  {
    if k < |s| {
      var t := s[..|s| - 1];
      ValueGrows(t, k, base);
      assert t[..k] == s[..k];
    } else {
      assert s[..k] == s;
    }
  }

  // ---------------------------------------------------------------------
  // Tokens at a position
  // ---------------------------------------------------------------------

  function SkipSpace(s: seq<Byte>, i: nat): (j: nat)
    requires i <= |s|
    ensures i <= j <= |s|
    decreases |s| - i
  {
    if i < |s| && IsSpace(s[i]) then SkipSpace(s, i + 1) else i
  }

  function WordEnd(s: seq<Byte>, i: nat): (j: nat)
    requires i <= |s|
    ensures i <= j <= |s|
    decreases |s| - i
  {
    if i < |s| && IsWordByte(s[i]) then WordEnd(s, i + 1) else i
  }

  /** End of the maximal run of numeral bytes from `i`. */
  function NumeralEnd(s: seq<Byte>, i: nat, base: Base): (j: nat)
    requires i <= |s|
    ensures i <= j <= |s| && IsNumeral(s[i..j], base)
    ensures j == |s| || !base.IsNumeralByte(s[j])
    decreases |s| - i
  {
    if i < |s| && base.IsNumeralByte(s[i]) then
      var j := NumeralEnd(s, i + 1, base);
      assert s[i..j] == [s[i]] + s[i + 1..j];
      j
    else i
  }

  function WordToken(w: seq<Byte>): Token {
    if w == FN then KwFn else if w == LET then KwLet else Identifier(w)
  }

  /** The token for a numeral: its value if that fits a word. */
  function NumeralToken(digits: seq<Byte>, base: Base): Token
    requires IsNumeral(digits, base)
  {
    var v := Value(digits, base);
    if v < WORD_SPAN then Literal(v) else Error(if base.Dec? then DecimalOverflow else HexOverflow)
  }

  predicate HexPrefix(s: seq<Byte>, i: nat) {
    i + 1 < |s| && s[i] == ZERO && IsX(s[i + 1])
  }

  function LiteralAt(s: seq<Byte>, i: nat): (r: (Token, nat))
    requires i < |s| && IsDigit(s[i])
    ensures i < r.1 <= |s|
  {
    if HexPrefix(s, i) then
      var e := NumeralEnd(s, i + 2, Hex);
      (if e == i + 2 then Error(MalformedHex) else NumeralToken(s[i + 2..e], Hex), e)
    else
      var e := NumeralEnd(s, i, Dec);
      (NumeralToken(s[i..e], Dec), e)
  }

  function Punctuation(b: Byte): Token {
    if b == 0x28 then LParen
    else if b == 0x29 then RParen
    else if b == 0x7B then LBrace
    else if b == 0x7D then RBrace
    else if b == 0x3B then Semicolon
    else if b == 0x2C then Comma
    else if IsOperator(b) then Operator(b)
    else Error(UnexpectedCharacter)
  }

  /** The token that starts at `i`, which is not white space, and its end. */
  function TokenAt(s: seq<Byte>, i: nat): (r: (Token, nat))
    requires i < |s|
    ensures i < r.1 <= |s| && r.0 != Eof
  {
    var b := s[i];
    if IsLetter(b) || b == UNDERSCORE then
      var e := WordEnd(s, i + 1);
      (WordToken(s[i..e]), e)
    else if IsDigit(b) then LiteralAt(s, i)
    else (Punctuation(b), i + 1)
  }

  /** All tokens from `i` on; the end of input is not a token. */
  function Tokens(s: seq<Byte>, i: nat): seq<Token>
    requires i <= |s|
    decreases |s| - i
  {
    var j := SkipSpace(s, i);
    if j == |s| then []
    else
      var (t, e) := TokenAt(s, j);
      [t] + Tokens(s, e)
  }

  /** Line feeds in s[i..j]. */
  function Newlines(s: seq<Byte>, i: nat, j: nat): nat
    requires i <= j <= |s|
    decreases j - i
  {
    if i == j then 0 else (if s[i] == '\n' as int then 1 else 0) + Newlines(s, i + 1, j)
  }

  lemma NumeralSnoc(s: seq<Byte>, i: nat, k: nat, base: Base)
    requires i <= k < |s| && IsNumeral(s[i..k], base) && base.IsNumeralByte(s[k])
    ensures IsNumeral(s[i..k + 1], base)
    ensures Value(s[i..k + 1], base) ==
            if s[k] == UNDERSCORE then Value(s[i..k], base)
            else base.Append(Value(s[i..k], base), DigitValue(s[k]))
  {
    assert s[i..k + 1] == s[i..k] + [s[k]];
    assert s[i..k + 1][..k - i] == s[i..k];
  }

  /** A prefix that overflows decides the whole numeral. */
  lemma OverflowDecides(s: seq<Byte>, i: nat, k: nat, e: nat, base: Base)
    requires i <= k <= e <= |s| && IsNumeral(s[i..e], base)
    requires IsNumeral(s[i..k], base) && Value(s[i..k], base) >= WORD_SPAN
    ensures Value(s[i..e], base) >= WORD_SPAN
  {
    ValueGrows(s[i..e], k - i, base);
    assert s[i..e][..k - i] == s[i..k];
  }

  /** The numeral that starts at `i` has been read up to `k` and spells `v` so far. */
  ghost predicate Scanned(s: seq<Byte>, i: nat, k: nat, base: Base, v: nat) {
    && i <= k <= |s| && IsNumeral(s[i..k], base) && v == Value(s[i..k], base)
    && NumeralEnd(s, k, base) == NumeralEnd(s, i, base)
  }

  function NextValue(v: nat, b: Byte, base: Base): nat
    requires base.IsNumeralByte(b)
  {
    if b == UNDERSCORE then v else base.Append(v, DigitValue(b))
  }

  lemma ScanStep(s: seq<Byte>, i: nat, k: nat, base: Base, v: nat)
    requires Scanned(s, i, k, base, v) && k < |s| && base.IsNumeralByte(s[k])
    ensures Scanned(s, i, k + 1, base, NextValue(v, s[k], base))
  {
    NumeralSnoc(s, i, k, base);
  }

  class Lexer {
    const stream: seq<Byte>
    var cursor: nat
    var line: nat

    ghost predicate Valid()
      reads this
    {
      cursor <= |stream|
    }

    /** What the lexer has yet to deliver. */
    ghost function Rest(): seq<Token>
      requires Valid()
      reads this
    {
      Tokens(stream, cursor)
    }

    constructor (s: seq<Byte>)
      ensures Valid() && stream == s && cursor == 0 && line == 1
    {
      stream := s;
      cursor, line := 0, 1;
    }

    method SkipBlanks()
      requires Valid()
      modifies this
      ensures Valid() && cursor == SkipSpace(stream, old(cursor))
      ensures line == old(line) + Newlines(stream, old(cursor), cursor)
    {
      ghost var end := SkipSpace(stream, cursor);
      while cursor < |stream| && IsSpace(stream[cursor])
        invariant Valid() && old(cursor) <= cursor <= end && SkipSpace(stream, cursor) == end
        invariant line + Newlines(stream, cursor, end) == old(line) + Newlines(stream, old(cursor), end)
      {
        if stream[cursor] == NEWLINE {
          line := line + 1;
        }
        cursor := cursor + 1;
      }
    }

    /** Single pass: skip blanks, then one token. */
    method NextToken() returns (t: Token)
      requires Valid()
      modifies this
      ensures Valid() && old(cursor) <= cursor
      ensures t == if old(Rest()) == [] then Eof else old(Rest())[0]
      ensures Rest() == if old(Rest()) == [] then [] else old(Rest())[1..]
      ensures t == Eof <==> old(Rest()) == []
      ensures t != Eof ==> old(cursor) < cursor
      ensures line == old(line) + Newlines(stream, old(cursor), SkipSpace(stream, old(cursor)))
    {
      SkipBlanks();
      if cursor == |stream| {
        return Eof;
      }
      var b := stream[cursor];
      ghost var start := cursor;
      assert old(Rest()) == [TokenAt(stream, start).0] + Tokens(stream, TokenAt(stream, start).1);
      if IsLetter(b) || b == UNDERSCORE {
        t := ParseIdentifier();
      } else if IsDigit(b) {
        t := ParseLiteral();
      } else {
        cursor := cursor + 1;
        t := Punctuation(b);
      }
    }

    method ParseIdentifier() returns (t: Token)
      requires Valid() && cursor < |stream| && (IsLetter(stream[cursor]) || stream[cursor] == UNDERSCORE)
      modifies this`cursor
      ensures (t, cursor) == TokenAt(stream, old(cursor))
    {
      var start := cursor;
      ghost var end := WordEnd(stream, cursor + 1);
      while cursor < |stream| && IsWordByte(stream[cursor])
        invariant start <= cursor <= end && WordEnd(stream, cursor) == end
      {
        cursor := cursor + 1;
      }
      t := WordToken(stream[start..cursor]);
    }

    method ParseLiteral() returns (t: Token)
      requires Valid() && cursor < |stream| && IsDigit(stream[cursor])
      modifies this`cursor
      ensures (t, cursor) == LiteralAt(stream, old(cursor))
    {
      if HexPrefix(stream, cursor) {
        cursor := cursor + 2;
        var start := cursor;
        t := ParseDigits(Hex);
        if cursor == start {
          t := Error(MalformedHex);
        }
      } else {
        t := ParseDigits(Dec);
      }
    }

    /** The digit loop, with the checked multiply-add of the source. */
    method ParseDigits(base: Base) returns (t: Token)
      requires Valid()
      modifies this`cursor
      ensures cursor == NumeralEnd(stream, old(cursor), base)
      ensures t == NumeralToken(stream[old(cursor)..cursor], base)
    {
      var start := cursor;
      var value: nat := 0;
      while cursor < |stream| && base.IsNumeralByte(stream[cursor])
        invariant Scanned(stream, start, cursor, base, value) && value < WORD_SPAN
      {
        ScanStep(stream, start, cursor, base, value);
        var next := NextValue(value, stream[cursor], base);
        if next >= WORD_SPAN {
          t := FailNumeral(start, base, next);
          return;
        }
        value := next;
        cursor := cursor + 1;
      }
      t := Literal(value);
    }

    /** The digit at the cursor takes the value past 32 bits. */
    method FailNumeral(start: nat, base: Base, ghost v: nat) returns (t: Token)
      requires cursor < |stream| && base.IsNumeralByte(stream[cursor])
      requires Scanned(stream, start, cursor + 1, base, v) && v >= WORD_SPAN
      modifies this`cursor
      ensures cursor == NumeralEnd(stream, start, base)
      ensures t == NumeralToken(stream[start..cursor], base)
    {
      OverflowDecides(stream, start, cursor + 1, NumeralEnd(stream, start, base), base);
      SkipNumeral(base);
      t := Error(if base.Dec? then DecimalOverflow else HexOverflow);
    }

    /** Consume the rest of an overflowing numeral so that errors do not cascade. */
    method SkipNumeral(base: Base)
      requires Valid()
      modifies this`cursor
      ensures cursor == NumeralEnd(stream, old(cursor), base)
    {
      ghost var end := NumeralEnd(stream, cursor, base);
      while cursor < |stream| && base.IsNumeralByte(stream[cursor])
        invariant cursor <= end && NumeralEnd(stream, cursor, base) == end
      {
        cursor := cursor + 1;
      }
    }
  }
}

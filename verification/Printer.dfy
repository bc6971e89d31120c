/**
  The console's number printers (src/drivers/uart.rs:126-151), and the fact
  that the lexer reads back what they, and a plain rendering of tokens, write.
 */
module Printer {
  import opened Words
  import opened Lexer

  /** The bytes of a text. */
  function Ascii(s: string): (b: seq<Byte>)
    ensures |b| == |s|
  {
    seq(|s|, i requires 0 <= i < |s| => s[i] as int % 0x100)
  }

  /** Digits '0'-'9', 'A'-'F'. */
  function DigitByte(d: nat): (b: Byte)
    requires d < 16
    ensures IsHexDigit(b) && DigitValue(b) == d && (d < 10 ==> IsDigit(b)) && b != UNDERSCORE
  {
    if d < 10 then ZERO + d else 0x41 + d - 10
  }

  // ---------------------------------------------------------------------
  // Decimal
  // ---------------------------------------------------------------------

  function DecDigits(n: nat): (s: seq<Byte>)
    ensures s != []
  {
    if n < 10 then [DigitByte(n)] else DecDigits(n / 10) + [DigitByte(n % 10)]
  }

  /** What `DecDigits` writes is a numeral, starts with a digit, and spells n. */
  lemma {:induction false} DecDigitsValue(n: nat)
    ensures IsNumeral(DecDigits(n), Dec) && IsDigit(DecDigits(n)[0])
    ensures Value(DecDigits(n), Dec) == n
  {
    if n >= 10 {
      DecDigitsValue(n / 10);
      var s := DecDigits(n);
      assert s[..|s| - 1] == DecDigits(n / 10);
    } else {
      assert DecDigits(n)[..0] == [];
    }
  }

  /** There is no leading zero. */
  lemma {:induction false} DecDigitsCanonical(n: nat)
    ensures DecDigits(n)[0] == '0' as int <==> n == 0
    ensures n == 0 ==> |DecDigits(n)| == 1
  {
    if n >= 10 {
      DecDigitsCanonical(n / 10);
    }
  }

  function Pow10(k: nat): nat {
    if k == 0 then 1 else 10 * Pow10(k - 1)
  }

  function Reverse(s: seq<Byte>): seq<Byte> {
    if s == [] then [] else [s[|s| - 1]] + Reverse(s[..|s| - 1])
  }

  lemma ReverseSnoc(s: seq<Byte>, b: Byte)
    ensures Reverse(s + [b]) == [b] + Reverse(s)
  {
    assert (s + [b])[..|s|] == s;
  }

  lemma TenDigits(v: Word)
    ensures v < Pow10(10)
  {
    assert Pow10(3) == 1000;
    assert Pow10(6) == 1_000_000;
    assert Pow10(8) == 100_000_000;
  }

  lemma LastDigit(v: nat)
    ensures DecDigits(v) == (if v < 10 then [] else DecDigits(v / 10)) + [DigitByte(v % 10)]
  {
    if v < 10 {
      assert v % 10 == v;
    }
  }

  lemma Regroup(x: seq<Byte>, b: Byte, y: seq<Byte>)
    ensures x + [b] + y == x + ([b] + y)
  {
  }

  /** Moving the last digit of `v` from the numeral still to do to the scratch bytes. */
  lemma DigitMoved(v: nat, scratch: seq<Byte>)
    ensures DecDigits(v) + Reverse(scratch) ==
            (if v < 10 then [] else DecDigits(v / 10)) + Reverse(scratch + [DigitByte(v % 10)])
  {
    LastDigit(v);
    ReverseSnoc(scratch, DigitByte(v % 10));
    Regroup(if v < 10 then [] else DecDigits(v / 10), DigitByte(v % 10), Reverse(scratch));
  }

  lemma NextQuotient(v: nat, k: nat)
    requires k >= 1 && v < Pow10(k)
    ensures v / 10 < Pow10(k - 1) && (v / 10 != 0 ==> k >= 2)
  {
  }

  /** Digits in scratch, reversed, complete the numeral still to do. */
  ghost predicate Filled(value: nat, v: nat, more: bool, scratch: seq<Byte>) {
    (if more then DecDigits(v) else []) + Reverse(scratch) == DecDigits(value)
  }

  lemma FillStep(value: nat, v: nat, scratch: seq<Byte>)
    requires Filled(value, v, true, scratch)
    ensures Filled(value, v / 10, v / 10 != 0, scratch + [DigitByte(v % 10)])
  {
    DigitMoved(v, scratch);
    assert v < 10 <==> v / 10 == 0;
  }

  method PutDigit(v: nat, scratch: array<Byte>, len: nat)
    requires len < scratch.Length
    modifies scratch
    ensures scratch[..len + 1] == old(scratch[..len]) + [DigitByte(v % 10)]
  {
    scratch[len] := ZERO + v % 10;
  }

  /** What is left to write fits what is left of the buffer. */
  ghost predicate Fits(v: nat, len: nat) {
    len < 10 && v < Pow10(10 - len)
  }

  lemma FitsNext(v: nat, len: nat)
    requires Fits(v, len) && v / 10 != 0
    ensures Fits(v / 10, len + 1)
  {
    NextQuotient(v, 10 - len);
  }

  /** Digits into the ten-byte scratch buffer, least significant first. */
  method FillScratch(value: Word, scratch: array<Byte>) returns (len: nat)
    requires scratch.Length == 10
    modifies scratch
    ensures len <= 10 && Reverse(scratch[..len]) == DecDigits(value)
  {
    var v: nat, more := value, true;
    len := 0;
    TenDigits(value);
    assert Filled(value, v, true, scratch[..0]);
    while more
      invariant len <= 10 && (more ==> Fits(v, len))
      invariant Filled(value, v, more, scratch[..len])
      decreases more, v
    {
      FillStep(value, v, scratch[..len]);
      if v / 10 != 0 {
        FitsNext(v, len);
      }
      PutDigit(v, scratch, len);
      len, v := len + 1, v / 10;
      more := v != 0;
    }
    assert [] + Reverse(scratch[..len]) == Reverse(scratch[..len]);
  }

  /** The scratch digits are written out backwards. */
  method WriteDec(value: Word) returns (out: seq<Byte>)
    ensures out == DecDigits(value)
  {
    var scratch := new Byte[10](_ => 0);
    var len := FillScratch(value, scratch);
    out := [];
    while len > 0
      invariant 0 <= len <= 10 && out + Reverse(scratch[..len]) == DecDigits(value)
    {
      assert scratch[..len][..len - 1] == scratch[..len - 1];
      len := len - 1;
      out := out + [scratch[len]];
    }
  }

  // ---------------------------------------------------------------------
  // Hexadecimal
  // ---------------------------------------------------------------------

  /** `v >> 4n`. */
  function ShiftNibbles(v: nat, n: nat): nat {
    if n == 0 then v else ShiftNibbles(v, n - 1) / 16
  }

  /** The low n nibbles of `v`, most significant first. */
  function HexDigits(v: nat, n: nat): (s: seq<Byte>)
    ensures |s| == n
  {
    if n == 0 then [] else HexDigits(v / 16, n - 1) + [DigitByte(v % 16)]
  }

  function Pow16(k: nat): nat {
    if k == 0 then 1 else 16 * Pow16(k - 1)
  }

  lemma {:induction false} HexDigitsValue(v: nat, n: nat)
    requires v < Pow16(n)
    ensures IsNumeral(HexDigits(v, n), Hex) && Value(HexDigits(v, n), Hex) == v
  {
    if n > 0 {
      HexDigitsValue(v / 16, n - 1);
      var s := HexDigits(v, n);
      assert s[..|s| - 1] == HexDigits(v / 16, n - 1);
    }
  }

  lemma EightNibbles()
    ensures Pow16(8) == WORD_SPAN
  {
    assert Pow16(2) == 0x100;
    assert Pow16(4) == 0x1_0000;
    assert Pow16(6) == 0x100_0000;
  }

  /** "0x" and eight upper-case digits, from the top nibble down. */
  method WriteHex(value: Word) returns (out: seq<Byte>)
    ensures out == [ZERO, 0x78] + HexDigits(value, 8)
  {
    out := [ZERO, 0x78];
    var shift := 8;
    assert HexDigits(ShiftNibbles(value, 8), 0) == [];
    while shift > 0
      invariant 0 <= shift <= 8
      invariant out == [ZERO, 0x78] + HexDigits(ShiftNibbles(value, shift), 8 - shift)
    {
      shift := shift - 1;
      out := out + [DigitByte(ShiftNibbles(value, shift) % 16)];
    }
  }

  // ---------------------------------------------------------------------
  // Reading back
  // ---------------------------------------------------------------------

  /** `text` stands in `s` at `i`, and no letter, digit or underscore follows. */
  ghost predicate Stands(s: seq<Byte>, i: nat, text: seq<Byte>) {
    Sits(s, i, text) && (i + |text| < |s| ==> !IsWordByte(s[i + |text|]))
  }

  lemma {:induction false} NumeralEndIs(s: seq<Byte>, i: nat, e: nat, base: Base)
    requires i <= e <= |s| && IsNumeral(s[i..e], base) && (e < |s| ==> !IsWordByte(s[e]))
    ensures NumeralEnd(s, i, base) == e
    decreases e - i
  {
    if i < e {
      assert s[i] == s[i..e][0];
      assert s[i + 1..e] == s[i..e][1..];
      NumeralEndIs(s, i + 1, e, base);
    }
  }

  lemma {:induction false} WordEndIs(s: seq<Byte>, i: nat, e: nat)
    requires i <= e <= |s| && (forall k :: i <= k < e ==> IsWordByte(s[k])) && (e < |s| ==> !IsWordByte(s[e]))
    ensures WordEnd(s, i) == e
    decreases e - i
  {
    if i < e {
      WordEndIs(s, i + 1, e);
    }
  }

  /** s[i..e] is a decimal numeral that starts with a digit, and no letter, digit or underscore follows. */
  ghost predicate NumeralAt(s: seq<Byte>, i: nat, e: nat) {
    && i < e <= |s| && IsDigit(s[i]) && IsNumeral(s[i..e], Dec)
    && (e < |s| ==> !IsWordByte(s[e]))
  }

  lemma NotHex(s: seq<Byte>, i: nat, e: nat)
    requires NumeralAt(s, i, e)
    ensures !HexPrefix(s, i)
  {
    if i + 1 < e {
      assert s[i + 1] == s[i..e][1];
    }
  }

  lemma LexNumeral(s: seq<Byte>, i: nat, e: nat)
    requires NumeralAt(s, i, e)
    ensures TokenAt(s, i) == (NumeralToken(s[i..e], Dec), e)
  {
    NotHex(s, i, e);
    NumeralEndIs(s, i, e, Dec);
    LiteralIs(s, i, e);
  }

  lemma LiteralIs(s: seq<Byte>, i: nat, e: nat)
    requires i < |s| && IsDigit(s[i]) && !HexPrefix(s, i) && NumeralEnd(s, i, Dec) == e
    ensures i <= e <= |s| && IsNumeral(s[i..e], Dec) && TokenAt(s, i) == (NumeralToken(s[i..e], Dec), e)
  {
  }

  lemma LexDigits(s: seq<Byte>, i: nat, e: nat, n: Word)
    requires NumeralAt(s, i, e) && Value(s[i..e], Dec) == n
    ensures TokenAt(s, i) == (Literal(n), e)
  {
    LexNumeral(s, i, e);
  }

  lemma DigitsAt(s: seq<Byte>, i: nat, d: seq<Byte>)
    requires Stands(s, i, d) && d != [] && IsNumeral(d, Dec) && IsDigit(d[0])
    ensures NumeralAt(s, i, i + |d|) && s[i..i + |d|] == d
  {
    SitsAt(s, i, d, 0);
  }

  /** Lexing printed decimal returns the printed number. */
  lemma LexDec(s: seq<Byte>, i: nat, n: Word)
    requires Stands(s, i, DecDigits(n))
    ensures i < |s| && TokenAt(s, i) == (Literal(n), i + |DecDigits(n)|)
  {
    DecDigitsValue(n);
    DigitsAt(s, i, DecDigits(n));
    LexDigits(s, i, i + |DecDigits(n)|, n);
  }

  /** Lexing printed hexadecimal returns the printed number. */
  lemma LexHex(s: seq<Byte>, i: nat, n: Word)
    requires Stands(s, i, [ZERO, 0x78] + HexDigits(n, 8))
    ensures i < |s| && TokenAt(s, i) == (Literal(n), i + 10)
  {
    var text := [ZERO, 0x78] + HexDigits(n, 8);
    SitsAt(s, i, text, 0);
    SitsAt(s, i, text, 1);
    SitsSplit(s, i, [ZERO, 0x78], HexDigits(n, 8));
    EightNibbles();
    HexDigitsValue(n, 8);
    NumeralEndIs(s, i + 2, i + 10, Hex);
  }

  predicate IsName(w: seq<Byte>) {
    && w != [] && (IsLetter(w[0]) || w[0] == UNDERSCORE)
    && (forall k :: 0 <= k < |w| ==> IsWordByte(w[k]))
    && w != FN && w != LET
  }

  /** Tokens with a spelling of their own. */
  predicate Printable(t: Token) {
    match t
    case Identifier(w) => IsName(w)
    case Operator(b) => IsOperator(b)
    case Error(_) => false
    case Eof => false
    case _ => true
  }

  function Text(t: Token): (w: seq<Byte>)
    requires Printable(t)
    ensures w != [] && !IsSpace(w[0])
  {
    match t
    case KwFn => FN
    case KwLet => LET
    case Identifier(w) => w
    case Operator(b) => [b]
    case Literal(v) => DecDigitsValue(v); DecDigits(v)
    case LParen => [0x28]
    case RParen => [0x29]
    case LBrace => [0x7B]
    case RBrace => [0x7D]
    case Semicolon => [0x3B]
    case Comma => [0x2C]
  }

  lemma LexWord(s: seq<Byte>, i: nat, w: seq<Byte>)
    requires Stands(s, i, w) && w != [] && (IsLetter(w[0]) || w[0] == UNDERSCORE)
    requires forall k :: 0 <= k < |w| ==> IsWordByte(w[k])
    ensures i < |s| && TokenAt(s, i) == (WordToken(w), i + |w|)
  {
    var e := i + |w|;
    forall k | i <= k < e ensures s[k] == w[k - i] {
      SitsAt(s, i, w, k - i);
    }
    WordEndIs(s, i + 1, e);
  }

  lemma LexText(s: seq<Byte>, i: nat, t: Token)
    requires Printable(t) && Stands(s, i, Text(t))
    ensures i < |s| && TokenAt(s, i) == (t, i + |Text(t)|)
  {
    SitsAt(s, i, Text(t), 0);
    match t
    case Literal(v) => LexDec(s, i, v);
    case KwFn => LexWord(s, i, FN);
    case KwLet => LexWord(s, i, LET);
    case Identifier(w) => LexWord(s, i, w);
    case _ =>
  }

  /** Tokens spelled out, each followed by a space. */
  function Render(ts: seq<Token>): seq<Byte>
    requires forall t :: t in ts ==> Printable(t)
  {
    if ts == [] then [] else Text(ts[0]) + [SPACE] + Render(ts[1..])
  }

  lemma AfterSpace(s: seq<Byte>, i: nat)
    requires i < |s| && IsSpace(s[i])
    ensures Tokens(s, i) == Tokens(s, i + 1)
  {
    assert SkipSpace(s, i) == SkipSpace(s, i + 1);
  }

  /** A spelled token followed by a space is read as that token. */
  lemma LexOne(s: seq<Byte>, i: nat, t: Token, e: nat)
    requires Printable(t) && Sits(s, i, Text(t)) && e == i + |Text(t)| && e < |s| && s[e] == SPACE
    ensures Tokens(s, i) == [t] + Tokens(s, e + 1)
  {
    LexText(s, i, t);
    SitsAt(s, i, Text(t), 0);
    assert SkipSpace(s, i) == i;
    AfterSpace(s, e);
  }

  lemma Spaced(pre: seq<Byte>, w: seq<Byte>, more: seq<Byte>)
    ensures var s := pre + (w + [SPACE] + more);
            Sits(s, |pre|, w) && s[|pre| + |w|] == SPACE && s == (pre + w + [SPACE]) + more
  {
  }

  lemma LexFirst(pre: seq<Byte>, t: Token, more: seq<Byte>)
    requires Printable(t)
    ensures var next := pre + Text(t) + [SPACE];
            Tokens(pre + (Text(t) + [SPACE] + more), |pre|) == [t] + Tokens(next + more, |next|)
  {
    var w := Text(t);
    Spaced(pre, w, more);
    LexOne(pre + (w + [SPACE] + more), |pre|, t, |pre| + |w|);
    assert |pre + w + [SPACE]| == |pre| + |w| + 1;
  }

  /** Lexing a rendering gives the tokens back. */
  lemma {:induction false} LexRender(pre: seq<Byte>, ts: seq<Token>)
    requires forall t :: t in ts ==> Printable(t)
    ensures Tokens(pre + Render(ts), |pre|) == ts
    decreases |ts|
  {
    if ts != [] {
      LexFirst(pre, ts[0], Render(ts[1..]));
      LexRender(pre + Text(ts[0]) + [SPACE], ts[1..]);
    }
  }
}

/**
  Every way to write a line down (src/compiler/lexer.rs): numbers in decimal or
  hexadecimal, capital or small digits, underscores and leading zeros, and any
  white space between tokens, or none where nothing runs together.
 */
module Layout {
  import opened Words
  import opened Lexer
  import opened Printer
  import opened Symbols
  import opened Lines
  import opened Sessions
  import opened SourceText

  // ---------------------------------------------------------------------
  // Numbers
  // ---------------------------------------------------------------------

  /** The digits worth 0 to 15, in capital and in small letters. */
  const CAPITAL := "0123456789ABCDEF"
  const SMALL := "0123456789abcdef"

  predicate IsDigitOf(b: Byte, d: nat)
    requires d < 16
  {
    b == CAPITAL[d] as int || b == SMALL[d] as int
  }

  function Radix(base: Base): (r: nat)
    ensures 10 <= r <= 16
  {
    if base.Dec? then 10 else 16
  }

  /** `s` writes `n` in positional notation; underscores stand for nothing. */
  ghost predicate Spells(s: seq<Byte>, n: nat, base: Base) {
    if s == [] then n == 0
    else
      var front, b := s[..|s| - 1], s[|s| - 1];
      if b == '_' as int then Spells(front, n, base)
      else IsDigitOf(b, n % Radix(base)) && Spells(front, n / Radix(base), base)
  }

  /** What the lexer takes for the digit `d`. */
  lemma DigitMeans(b: Byte, d: nat)
    requires d < 16
    ensures IsDigitOf(b, d) <==> IsHexDigit(b) && DigitValue(b) == d
    ensures d < 10 && IsDigitOf(b, d) ==> IsDigit(b)
    ensures IsDigitOf(b, d) ==> b != '_' as int
  {
    assert CAPITAL[d] as int == if d < 10 then 0x30 + d else 0x37 + d;
    assert SMALL[d] as int == if d < 10 then 0x30 + d else 0x57 + d;
  }

  /** The console prints capital digits. */
  lemma PrintedDigit(d: nat)
    requires d < 16
    ensures DigitByte(d) == CAPITAL[d] as int
  {
    assert CAPITAL[d] as int == if d < 10 then 0x30 + d else 0x37 + d;
  }

  lemma {:induction false} PrintedHex(n: nat, k: nat, i: nat)
    requires i < k
    ensures exists d :: 0 <= d < 16 && HexDigits(n, k)[i] == CAPITAL[d] as int
    decreases k
  {
    PrintedDigit(n % 16);
    if i < k - 1 {
      PrintedHex(n / 16, k - 1, i);
    }
  }

  lemma AppendSplits(base: Base, v: nat, d: nat)
    requires d < Radix(base)
    ensures base.Append(v, d) / Radix(base) == v && base.Append(v, d) % Radix(base) == d
  {
  }

  /** The lexer's value of a numeral is the number it writes. */
  lemma {:induction false} SpellsValue(s: seq<Byte>, n: nat, base: Base)
    ensures Spells(s, n, base) <==> IsNumeral(s, base) && Value(s, base) == n
    decreases |s|
  {
    if s != [] {
      var front, b := s[..|s| - 1], s[|s| - 1];
      var r := Radix(base);
      if b == UNDERSCORE {
        SpellsValue(front, n, base);
        assert IsNumeral(s, base) <==> IsNumeral(front, base);
      } else {
        SpellsValue(front, n / r, base);
        DigitMeans(b, n % r);
        assert IsNumeral(s, base) <==> IsNumeral(front, base) && base.IsNumeralByte(b);
        if IsNumeral(s, base) {
          AppendSplits(base, Value(front, base), DigitValue(b));
        }
      }
    }
  }

  /** `w` writes `n` in hexadecimal: 0x or 0X, then digits and underscores. */
  ghost predicate WritesHex(w: seq<Byte>, n: nat) {
    |w| > 2 && w[0] == '0' as int && (w[1] == 'x' as int || w[1] == 'X' as int) && Spells(w[2..], n, Hex)
  }

  /** `w` writes `n` in decimal: digits and underscores, a digit first. */
  ghost predicate WritesDec(w: seq<Byte>, n: nat) {
    w != [] && w[0] != '_' as int && Spells(w, n, Dec)
  }

  /** A hexadecimal number reads as its value, or as an overflow from 2^32 on. */
  lemma HexReads(s: seq<Byte>, i: nat, w: seq<Byte>, n: nat)
    requires WritesHex(w, n) && Stands(s, i, w)
    ensures i < |s| &&
            TokenAt(s, i) == (if n < 0x1_0000_0000 then Literal(n) else Error(HexOverflow), i + |w|)
  {
    SitsAt(s, i, w, 0);
    SitsAt(s, i, w, 1);
    assert w == w[..2] + w[2..];
    SitsSplit(s, i, w[..2], w[2..]);
    SpellsValue(w[2..], n, Hex);
    NumeralEndIs(s, i + 2, i + |w|, Hex);
  }

  /** A decimal number, likewise. */
  lemma DecReads(s: seq<Byte>, i: nat, w: seq<Byte>, n: nat)
    requires WritesDec(w, n) && Stands(s, i, w)
    ensures i < |s| &&
            TokenAt(s, i) == (if n < 0x1_0000_0000 then Literal(n) else Error(DecimalOverflow), i + |w|)
  {
    SpellsValue(w, n, Dec);
    assert Dec.IsNumeralByte(w[0]);
    DigitsAt(s, i, w);
    LexNumeral(s, i, i + |w|);
  }

  /** Conversely, whatever reads as a number writes it. */
  lemma NumberRead(s: seq<Byte>, i: nat)
    requires i < |s| && IsDigit(s[i])
    ensures var (t, e) := TokenAt(s, i);
            t.Literal? ==> i < e <= |s| && (WritesDec(s[i..e], t.value) || WritesHex(s[i..e], t.value))
  {
    var (t, e) := TokenAt(s, i);
    if t.Literal? {
      if HexPrefix(s, i) {
        SpellsValue(s[i + 2..e], t.value, Hex);
        assert s[i..e][2..] == s[i + 2..e];
      } else {
        SpellsValue(s[i..e], t.value, Dec);
      }
    }
  }

  /** The prefix alone is malformed. */
  lemma BarePrefix(s: seq<Byte>, i: nat)
    requires i + 2 <= |s| && s[i] == '0' as int && (s[i + 1] == 'x' as int || s[i + 1] == 'X' as int)
    requires i + 2 < |s| ==> !IsWordByte(s[i + 2])
    ensures TokenAt(s, i) == (Error(MalformedHex), i + 2)
  {
    NumeralEndIs(s, i + 2, i + 2, Hex);
  }

  // ---------------------------------------------------------------------
  // Single bytes
  // ---------------------------------------------------------------------

  predicate Between(b: Byte, lo: char, hi: char) {
    lo as int <= b <= hi as int
  }

  /** The tokens of a line that is one byte long. */
  function OfByte(b: Byte): seq<Token> {
    if b == ' ' as int || b == '\t' as int || b == '\r' as int || b == '\n' as int then []
    else if Between(b, 'a', 'z') || Between(b, 'A', 'Z') || b == '_' as int then [Identifier([b])]
    else if Between(b, '0', '9') then [Literal(b - '0' as int)]
    else if b == '(' as int then [LParen]
    else if b == ')' as int then [RParen]
    else if b == '{' as int then [LBrace]
    else if b == '}' as int then [RBrace]
    else if b == ';' as int then [Semicolon]
    else if b == ',' as int then [Comma]
    else if exists k :: 0 <= k < 15 && "+-*/%=<>!&|^~:?"[k] as int == b then [Operator(b)]
    else [Error(UnexpectedCharacter)]
  }

  /** A line of one byte, for each of the 256. */
  lemma OneByte(b: Byte)
    ensures Tokens([b], 0) == OfByte(b)
  {
    var s := [b];
    assert SkipSpace(s, 1) == 1 && Tokens(s, 1) == [];
    if IsSpace(b) {
      AfterSpace(s, 0);
    } else {
      assert SkipSpace(s, 0) == 0;
      OneToken(b);
      assert Tokens(s, 0) == [TokenAt(s, 0).0] + Tokens(s, 1);
    }
  }

  lemma OneToken(b: Byte)
    requires !IsSpace(b)
    ensures TokenAt([b], 0).1 == 1 && [TokenAt([b], 0).0] == OfByte(b)
  {
    if IsLetter(b) || b == UNDERSCORE {
      LexWord([b], 0, [b]);
    } else if IsDigit(b) {
      OneDigit(b);
    } else {
      OperatorBytes(b);
    }
  }

  lemma OneDigit(b: Byte)
    requires IsDigit(b)
    ensures TokenAt([b], 0) == (Literal(b - 0x30), 1)
  {
    DigitMeans(b, b - 0x30);
    assert [b][..0] == [] && Spells([], 0, Dec);
    DecReads([b], 0, [b], b - 0x30);
  }

  /** A name goes on with letters, digits and underscores, and with nothing else. */
  lemma NameGoesOn(b: Byte)
    ensures IsWordByte(b) <==> Between(b, 'a', 'z') || Between(b, 'A', 'Z') || Between(b, '0', '9') || b == '_' as int
  {
  }

  lemma OperatorBytes(b: Byte)
    ensures IsOperator(b) <==> exists k :: 0 <= k < 15 && "+-*/%=<>!&|^~:?"[k] as int == b
  {
    var ops := "+-*/%=<>!&|^~:?";
    if IsOperator(b) {
      assert ops[0] as int == 0x2B && ops[1] as int == 0x2D && ops[2] as int == 0x2A && ops[3] as int == 0x2F;
      assert ops[4] as int == 0x25 && ops[5] as int == 0x3D && ops[6] as int == 0x3C && ops[7] as int == 0x3E;
      assert ops[8] as int == 0x21 && ops[9] as int == 0x26 && ops[10] as int == 0x7C && ops[11] as int == 0x5E;
      assert ops[12] as int == 0x7E && ops[13] as int == 0x3A && ops[14] as int == 0x3F;
    }
  }

  // ---------------------------------------------------------------------
  // Whole lines
  // ---------------------------------------------------------------------

  /** A token as it is written, and the white space after it. */
  datatype Piece = Piece(t: Token, w: seq<Byte>, gap: seq<Byte>)

  /** A number in any of its forms, or the token's own spelling. */
  ghost predicate IsPiece(p: Piece) {
    && Printable(p.t)
    && (if p.t.Literal? then WritesDec(p.w, p.t.value) || WritesHex(p.w, p.t.value) else p.w == Text(p.t))
    && forall k :: 0 <= k < |p.gap| ==> IsSpace(p.gap[k])
  }

  /** Tokens made of letters and digits, which run together when nothing separates them. */
  predicate Wordlike(t: Token) {
    t.KwFn? || t.KwLet? || t.Identifier? || t.Literal?
  }

  /** Two wordlike tokens in a row have white space between them. */
  ghost predicate Separated(ps: seq<Piece>) {
    && (forall p :: p in ps ==> IsPiece(p))
    && (forall i, j :: 0 <= i && j == i + 1 < |ps| && Wordlike(ps[i].t) && Wordlike(ps[j].t) ==> ps[i].gap != [])
  }

  function Written(ps: seq<Piece>): seq<Byte> {
    if ps == [] then [] else ps[0].w + (ps[0].gap + Written(ps[1..]))
  }

  function TokensOf(ps: seq<Piece>): seq<Token> {
    if ps == [] then [] else [ps[0].t] + TokensOf(ps[1..])
  }

  /** The spelling of a token starts with a word byte exactly when the token is wordlike, and is never blank. */
  lemma PieceStarts(p: Piece)
    requires IsPiece(p)
    ensures p.w != [] && !IsSpace(p.w[0]) && (IsWordByte(p.w[0]) <==> Wordlike(p.t))
  {
    if p.t.Literal? {
      if WritesDec(p.w, p.t.value) {
        SpellsValue(p.w, p.t.value, Dec);
        assert Dec.IsNumeralByte(p.w[0]);
      }
    }
  }

  /** A piece is read as its token when it does not run into what follows. */
  lemma LexPiece(s: seq<Byte>, i: nat, p: Piece)
    requires IsPiece(p) && Sits(s, i, p.w)
    requires Wordlike(p.t) && i + |p.w| < |s| ==> !IsWordByte(s[i + |p.w|])
    ensures i < |s| && TokenAt(s, i) == (p.t, i + |p.w|)
  {
    PieceStarts(p);
    SitsAt(s, i, p.w, 0);
    if p.t.Literal? {
      if WritesDec(p.w, p.t.value) {
        DecReads(s, i, p.w, p.t.value);
      } else {
        HexReads(s, i, p.w, p.t.value);
      }
    } else if Wordlike(p.t) {
      LexText(s, i, p.t);
    }
  }

  lemma {:induction false} SkipBlank(s: seq<Byte>, i: nat, j: nat)
    requires i <= j <= |s| && forall k :: i <= k < j ==> IsSpace(s[k])
    ensures Tokens(s, i) == Tokens(s, j)
    decreases j - i
  {
    if i < j {
      AfterSpace(s, i);
      SkipBlank(s, i + 1, j);
    }
  }

  lemma SkipGap(s: seq<Byte>, i: nat, gap: seq<Byte>)
    requires Sits(s, i, gap) && forall k :: 0 <= k < |gap| ==> IsSpace(gap[k])
    ensures Tokens(s, i) == Tokens(s, i + |gap|)
  {
    forall k | i <= k < i + |gap| ensures IsSpace(s[k]) {
      SitsAt(s, i, gap, k - i);
    }
    SkipBlank(s, i, i + |gap|);
  }

  lemma OneTokenAt(s: seq<Byte>, i: nat, t: Token, e: nat)
    requires i < |s| && !IsSpace(s[i]) && TokenAt(s, i) == (t, e)
    ensures Tokens(s, i) == [t] + Tokens(s, e)
  {
    assert SkipSpace(s, i) == i;
  }

  /** The tokens from `i` on are `ts`. */
  ghost predicate ReadFrom(s: seq<Byte>, i: nat, ts: seq<Token>) {
    i <= |s| && Tokens(s, i) == ts
  }

  /** A piece in its place is read as its token and no more. */
  lemma PieceReads(s: seq<Byte>, i: nat, p: Piece, e: nat, ts: seq<Token>)
    requires IsPiece(p) && Sits(s, i, p.w) && e == i + |p.w| && ReadFrom(s, e, ts)
    requires Wordlike(p.t) && e < |s| ==> !IsWordByte(s[e])
    ensures ReadFrom(s, i, [p.t] + ts)
  {
    PieceStarts(p);
    SitsAt(s, i, p.w, 0);
    LexPiece(s, i, p);
    OneTokenAt(s, i, p.t, e);
  }

  lemma GapReads(s: seq<Byte>, i: nat, gap: seq<Byte>, ts: seq<Token>)
    requires Sits(s, i, gap) && (forall k :: 0 <= k < |gap| ==> IsSpace(gap[k])) && ReadFrom(s, i + |gap|, ts)
    ensures ReadFrom(s, i, ts)
  {
    SkipGap(s, i, gap);
  }

  /** The pieces fill `s` from `i` to its end. */
  ghost predicate LieAt(s: seq<Byte>, i: nat, ps: seq<Piece>)
    decreases |ps|
  {
    if ps == [] then i == |s|
    else
      var e := i + |ps[0].w|;
      Sits(s, i, ps[0].w) && Sits(s, e, ps[0].gap) && LieAt(s, e + |ps[0].gap|, ps[1..])
  }

  /** What stands after a wordlike piece does not run into it. */
  lemma NoRunOn(s: seq<Byte>, i: nat, ps: seq<Piece>)
    requires Separated(ps) && ps != [] && Wordlike(ps[0].t) && LieAt(s, i, ps)
    ensures var e := i + |ps[0].w|; e < |s| ==> !IsWordByte(s[e])
  {
    var p, e := ps[0], i + |ps[0].w|;
    assert p in ps;
    if p.gap != [] {
      SitsAt(s, e, p.gap, 0);
    } else if |ps| > 1 {
      var q := ps[1];
      assert q in ps && ps[1..][0] == q;
      PieceStarts(q);
      SitsAt(s, e, q.w, 0);
    }
  }

  lemma TailSeparated(ps: seq<Piece>)
    requires Separated(ps) && ps != []
    ensures Separated(ps[1..])
  {
    var qs := ps[1..];
    forall i, j | 0 <= i && j == i + 1 < |qs| && Wordlike(qs[i].t) && Wordlike(qs[j].t) ensures qs[i].gap != [] {
      assert qs[i] == ps[i + 1] && qs[j] == ps[j + 1];
    }
  }

  lemma PieceStep(s: seq<Byte>, i: nat, p: Piece, e: nat, ts: seq<Token>)
    requires IsPiece(p) && Sits(s, i, p.w) && e == i + |p.w| && Sits(s, e, p.gap)
    requires Wordlike(p.t) && e < |s| ==> !IsWordByte(s[e])
    requires ReadFrom(s, e + |p.gap|, ts)
    ensures ReadFrom(s, i, [p.t] + ts)
  {
    GapReads(s, e, p.gap, ts);
    PieceReads(s, i, p, e, ts);
  }

  lemma {:induction false} PiecesRead(s: seq<Byte>, i: nat, ps: seq<Piece>)
    requires Separated(ps) && LieAt(s, i, ps)
    ensures ReadFrom(s, i, TokensOf(ps))
    decreases |ps|, 1
  {
    if ps == [] {
      assert Tokens(s, |s|) == [];
    } else {
      var p, e := ps[0], i + |ps[0].w|;
      assert p in ps;
      PiecesReadTail(s, e + |p.gap|, ps);
      if Wordlike(p.t) {
        NoRunOn(s, i, ps);
      }
      PieceStep(s, i, p, e, TokensOf(ps[1..]));
    }
  }

  lemma {:induction false} PiecesReadTail(s: seq<Byte>, i: nat, ps: seq<Piece>)
    requires ps != [] && Separated(ps) && LieAt(s, i, ps[1..])
    ensures ReadFrom(s, i, TokensOf(ps[1..]))
    decreases |ps|, 0
  {
    TailSeparated(ps);
    PiecesRead(s, i, ps[1..]);
  }

  lemma LaidOut(pre: seq<Byte>, w: seq<Byte>, gap: seq<Byte>, more: seq<Byte>)
    ensures var s := pre + (w + (gap + more));
            Sits(s, |pre|, w) && Sits(s, |pre| + |w|, gap) && s == (pre + w + gap) + more
  {
  }

  lemma {:induction false} WrittenLies(pre: seq<Byte>, ps: seq<Piece>)
    ensures LieAt(pre + Written(ps), |pre|, ps)
    decreases |ps|
  {
    if ps != [] {
      var p := ps[0];
      LaidOut(pre, p.w, p.gap, Written(ps[1..]));
      WrittenLies(pre + p.w + p.gap, ps[1..]);
    }
  }

  /** However a line is written down, the lexer reads its tokens. */
  lemma LayoutReads(lead: seq<Byte>, ps: seq<Piece>)
    requires Separated(ps) && forall k :: 0 <= k < |lead| ==> IsSpace(lead[k])
    ensures Tokens(lead + Written(ps), 0) == TokensOf(ps)
  {
    var s := lead + Written(ps);
    WrittenLies(lead, ps);
    PiecesRead(s, |lead|, ps);
    assert Sits(s, 0, lead);
    SkipGap(s, 0, lead);
  }

  /** So a line is answered alike however it is written down. */
  lemma LayoutAnswers(hash: Hash, t: Tables, lead: seq<Byte>, ps: seq<Piece>, mc: Machine)
    requires |t.symbols| == SLOTS && Separated(ps) && forall k :: 0 <= k < |lead| ==> IsSpace(lead[k])
    ensures AllPrintable(TokensOf(ps))
    ensures Answer(hash, t, Entry(lead + Written(ps), mc.peek, mc.bits)) ==
            Answer(hash, t, Entry(Render(TokensOf(ps)), mc.peek, mc.bits))
  {
    PiecesPrintable(ps);
    LayoutReads(lead, ps);
    TextTokens(TokensOf(ps));
  }

  lemma {:induction false} PiecesPrintable(ps: seq<Piece>)
    requires forall p :: p in ps ==> IsPiece(p)
    ensures AllPrintable(TokensOf(ps))
    decreases |ps|
  {
    if ps != [] {
      assert ps[0] in ps;
      PiecesPrintable(ps[1..]);
    }
  }
}

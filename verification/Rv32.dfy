/**
  The RV32I back end (src/compiler/emitter.rs:106-177, 356-446): how it loads
  an immediate, decoded per section 2.2 of the RISC-V Unprivileged ISA, and how
  much code it generates.
 */
module Rv32 {
  import opened Words
  import opened ThreadedVm
  import opened Thumb2
  import opened Native

  function EncodeLui(rd: nat, imm20: nat): Word
    requires rd < 0x20
  {
    // The field is shifted by 20, so only its low 12 bits survive.
    0x37 + 0x80 * rd + 0x10_0000 * (imm20 % 0x1000)
  }

  function EncodeAddi(rd: nat, rs1: nat, imm: Word): Word
    requires rd < 0x20 && rs1 < 0x20
  {
    0x13 + 0x80 * rd + 0x8000 * rs1 + 0x10_0000 * (imm % 0x1000)
  }

  predicate FitsSigned12(imm: Word) {
    imm <= 0x7FF || imm >= 0xFFFF_F800
  }

  function Hi20(imm: Word): nat {
    (imm + 0x800) % WORD_SPAN / 0x1000
  }

  function Lo12(imm: Word): Word {
    (imm - 0x1000 * Hi20(imm)) % WORD_SPAN
  }

  /** `emit_mov_imm`. */
  function MovImmWords(rd: nat, imm: Word): seq<Word>
    requires rd < 0x20
  {
    if FitsSigned12(imm) then [EncodeAddi(rd, 0, imm)]
    else if Lo12(imm) == 0 then [EncodeLui(rd, Hi20(imm))]
    else [EncodeLui(rd, Hi20(imm)), EncodeAddi(rd, rd, Lo12(imm))]
  }

  /** A 12-bit field sign-extended to a word. */
  function SignExtend12(f: nat): Word
    requires f < 0x1000
  {
    if f < 0x800 then f else WORD_SPAN - 0x1000 + f
  }

  /** The integer registers; x0 reads as 0 and ignores writes. */
  datatype Hart = Hart(regs: map<nat, Word>) {
    function Reg(r: nat): Word {
      if r != 0 && r in regs then regs[r] else 0
    }

    function Set(r: nat, v: Word): Hart {
      if r == 0 then this else Hart(regs[r := v])
    }
  }

  function RdField(w: Word): nat {
    w / 0x80 % 0x20
  }

  function Rs1Field(w: Word): nat {
    w / 0x8000 % 0x20
  }

  /** Execute one LUI or ADDI; any other word is outside this model. */
  function Step1(w: Word, h: Hart): Option<Hart> {
    if w % 0x80 == 0x37 then Some(h.Set(RdField(w), w - w % 0x1000))
    else if w % 0x80 == 0x13 && w / 0x1000 % 8 == 0 then
      Some(h.Set(RdField(w), (h.Reg(Rs1Field(w)) + SignExtend12(w / 0x10_0000)) % WORD_SPAN))
    else None
  }

  function RunWords(ws: seq<Word>, h: Hart): Option<Hart>
    decreases |ws|
  {
    if ws == [] then Some(h)
    else
      match Step1(ws[0], h)
      case None => None
      case Some(h1) => RunWords(ws[1..], h1)
  }

  lemma RunOne(w: Word, h: Hart)
    ensures RunWords([w], h) == Step1(w, h)
  {
  }

  lemma RunTwo(v: Word, w: Word, h: Hart, h1: Hart)
    requires Step1(v, h) == Some(h1)
    ensures RunWords([v, w], h) == Step1(w, h1)
  {
    assert [v, w][1..] == [w];
    RunOne(w, h1);
  }

  /** The split is right: hi20 shifted by 12 plus the sign-extended lo12 is the value. */
  lemma SplitRecombines(imm: Word)
    ensures Hi20(imm) < 0x10_0000
    ensures SignExtend12(Lo12(imm) % 0x1000) == Lo12(imm)
    ensures (0x1000 * Hi20(imm) + SignExtend12(Lo12(imm) % 0x1000)) % WORD_SPAN == imm
    ensures Hi20(imm) == 0 <==> FitsSigned12(imm)
  {
    var h := Hi20(imm);
    if imm + 0x800 >= WORD_SPAN {
      assert (imm + 0x800) % WORD_SPAN == imm + 0x800 - WORD_SPAN;
    } else {
      assert (imm + 0x800) % WORD_SPAN == imm + 0x800;
    }
    assert imm - 0x1000 * h >= 0 ==> Lo12(imm) == imm - 0x1000 * h;
    assert imm - 0x1000 * h < 0 ==> Lo12(imm) == imm - 0x1000 * h + WORD_SPAN;
  }

  lemma RegisterField(rd: nat, low: nat, high: nat, w: nat)
    requires rd < 0x20 && low < 0x80 && w == low + 0x80 * rd + 0x1000 * high
    ensures w % 0x80 == low && w / 0x80 % 0x20 == rd && w % 0x1000 == low + 0x80 * rd && w / 0x1000 == high
  {
    var q := rd + 0x20 * high;
    assert w == 0x80 * q + low;
    SplitAt(0x80, q, low);
    SplitAt(0x20, high, rd);
    SplitAt(0x1000, high, low + 0x80 * rd);
  }

  lemma AddiFields(rd: nat, rs1: nat, f: nat, w: Word)
    requires rd < 0x20 && rs1 < 0x20 && f < 0x1000 && w == 0x13 + 0x80 * rd + 0x8000 * rs1 + 0x10_0000 * f
    ensures w % 0x80 == 0x13 && w / 0x1000 % 8 == 0 && w / 0x10_0000 == f
    ensures RdField(w) == rd && Rs1Field(w) == rs1
  {
    var high := 8 * (rs1 + 0x20 * f);
    RegisterField(rd, 0x13, high, w);
    SplitAt(8, rs1 + 0x20 * f, 0);
    SplitAt(0x8000, rs1 + 0x20 * f, 0x13 + 0x80 * rd);
    SplitAt(0x20, f, rs1);
    SplitAt(0x10_0000, f, 0x13 + 0x80 * rd + 0x8000 * rs1);
  }

  lemma AddiAdds(rd: nat, rs1: nat, imm: Word, h: Hart)
    requires rd < 0x20 && rs1 < 0x20
    ensures Step1(EncodeAddi(rd, rs1, imm), h) ==
            Some(h.Set(rd, (h.Reg(rs1) + SignExtend12(imm % 0x1000)) % WORD_SPAN))
  {
    AddiFields(rd, rs1, imm % 0x1000, EncodeAddi(rd, rs1, imm));
  }

  lemma AddiGives(rd: nat, rs1: nat, imm: Word, h: Hart, a: Word, d: Word, v: Word)
    requires rd < 0x20 && rs1 < 0x20 && h.Reg(rs1) == a && SignExtend12(imm % 0x1000) == d && v == (a + d) % WORD_SPAN
    ensures Step1(EncodeAddi(rd, rs1, imm), h) == Some(h.Set(rd, v))
  {
    AddiAdds(rd, rs1, imm, h);
  }

  lemma LuiFields(rd: nat, f: nat, w: Word)
    requires rd < 0x20 && f < 0x1000 && w == 0x37 + 0x80 * rd + 0x10_0000 * f
    ensures w % 0x80 == 0x37 && w - w % 0x1000 == 0x10_0000 * f && RdField(w) == rd
  {
    RegisterField(rd, 0x37, 0x100 * f, w);
  }

  /** What `encode_lui` makes of an upper part: shifted by 20, cut to 32 bits. */
  function Misplaced(hi: nat): Word {
    0x10_0000 * (hi % 0x1000)
  }

  lemma LuiLoads(rd: nat, imm20: nat, h: Hart)
    requires rd < 0x20
    ensures Step1(EncodeLui(rd, imm20), h) == Some(h.Set(rd, Misplaced(imm20)))
  {
    LuiFields(rd, imm20 % 0x1000, EncodeLui(rd, imm20));
  }

  /** Placing the field 8 bits too high preserves no upper part but 0. */
  lemma MisplacedField(h: nat)
    requires h < 0x10_0000
    ensures Misplaced(h) == 0x1000 * h <==> h == 0
  {
    var q, r := h / 0x1000, h % 0x1000;
    assert h == 0x1000 * q + r;
    if 0x10_0000 * r == 0x1000 * h {
      assert 0xFF * r == 0x1000 * q;
    }
  }

  /** Adding the same amount modulo 2^32 is injective. */
  lemma SameSum(x: Word, y: Word, d: Word)
    ensures (x + d) % WORD_SPAN == (y + d) % WORD_SPAN <==> x == y
  {
  }

  lemma SignExtendFits(imm: Word)
    requires FitsSigned12(imm)
    ensures SignExtend12(imm % 0x1000) == imm
  {
    if imm > 0x7FF {
      assert imm % 0x1000 == imm - (WORD_SPAN - 0x1000);
    }
  }

  lemma NarrowLoads(rd: nat, imm: Word, h: Hart)
    requires rd < 0x20 && FitsSigned12(imm)
    ensures RunWords(MovImmWords(rd, imm), h) == Some(h.Set(rd, imm))
  {
    SignExtendFits(imm);
    assert (0 + imm) % WORD_SPAN == imm;
    AddiGives(rd, 0, imm, h, 0, imm, imm);
    RunOne(EncodeAddi(rd, 0, imm), h);
  }

  lemma SetTwice(h: Hart, r: nat, v: Word, w: Word)
    ensures h.Set(r, v).Set(r, w) == h.Set(r, w) && (r != 0 ==> h.Set(r, v).Reg(r) == v)
  {
    if r != 0 {
      assert h.regs[r := v][r := w] == h.regs[r := w];
    }
  }

  /** What the two-word sequence leaves: the misplaced upper part plus the lower part. */
  lemma WideLoads(rd: nat, imm: Word, h: Hart)
    requires 1 <= rd < 0x20 && !FitsSigned12(imm)
    ensures RunWords(MovImmWords(rd, imm), h) ==
            Some(h.Set(rd, (Misplaced(Hi20(imm)) + Lo12(imm)) % WORD_SPAN))
  {
    SplitRecombines(imm);
    var hi, lo := Hi20(imm), Lo12(imm);
    LuiLoads(rd, hi, h);
    if lo == 0 {
      RunOne(EncodeLui(rd, hi), h);
    } else {
      WideRuns(rd, lo, Misplaced(hi), EncodeLui(rd, hi), h);
    }
  }

  lemma WideRuns(rd: nat, lo: Word, got: Word, lui: Word, h: Hart)
    requires 1 <= rd < 0x20 && SignExtend12(lo % 0x1000) == lo && Step1(lui, h) == Some(h.Set(rd, got))
    ensures RunWords([lui, EncodeAddi(rd, rd, lo)], h) == Some(h.Set(rd, (got + lo) % WORD_SPAN))
  {
    AddiSecond(rd, lo, got, h);
    RunBoth(lui, EncodeAddi(rd, rd, lo), rd, got, (got + lo) % WORD_SPAN, h);
  }

  lemma AddiSecond(rd: nat, lo: Word, got: Word, h: Hart)
    requires 1 <= rd < 0x20 && SignExtend12(lo % 0x1000) == lo
    ensures var h1 := h.Set(rd, got);
            Step1(EncodeAddi(rd, rd, lo), h1) == Some(h1.Set(rd, (got + lo) % WORD_SPAN))
  {
    SetTwice(h, rd, got, 0);
    AddiGives(rd, rd, lo, h.Set(rd, got), got, lo, (got + lo) % WORD_SPAN);
  }

  lemma RunBoth(v: Word, w: Word, rd: nat, a: Word, b: Word, h: Hart)
    requires Step1(v, h) == Some(h.Set(rd, a)) && Step1(w, h.Set(rd, a)) == Some(h.Set(rd, a).Set(rd, b))
    ensures RunWords([v, w], h) == Some(h.Set(rd, b))
  {
    SetTwice(h, rd, a, b);
    RunTwo(v, w, h, h.Set(rd, a));
  }

  lemma SameSet(h: Hart, r: nat, v: Word, w: Word)
    requires r != 0
    ensures h.Set(r, v) == h.Set(r, w) <==> v == w
  {
    assert h.Set(r, v).regs[r] == v && h.Set(r, w).regs[r] == w;
  }

  /**
    Immediate loading on RV32 leaves the requested value in the register, and
    changes nothing else, exactly when the value fits a signed 12-bit field:
    `encode_lui` puts the upper part at bit 20 instead of bit 12.
   */
  lemma MovImmLoads(rd: nat, imm: Word, h: Hart)
    requires 1 <= rd < 0x20
    ensures RunWords(MovImmWords(rd, imm), h) == Some(h.Set(rd, imm)) <==> FitsSigned12(imm)
  {
    if FitsSigned12(imm) {
      NarrowLoads(rd, imm, h);
    } else {
      var hi := Hi20(imm);
      assert hi != 0 && (0x1000 * hi + Lo12(imm)) % WORD_SPAN == imm by {
        SplitRecombines(imm);
      }
      WideLoads(rd, imm, h);
      MisplacedField(hi);
      SameSum(Misplaced(hi), 0x1000 * hi, Lo12(imm));
      SameSet(h, rd, (Misplaced(hi) + Lo12(imm)) % WORD_SPAN, imm);
    }
  }

  /** With x0 as its destination the code changes nothing. */
  lemma MovImmToZero(imm: Word, h: Hart)
    ensures RunWords(MovImmWords(0, imm), h) == Some(h)
  {
    AddiAdds(0, 0, imm, h);
    LuiLoads(0, Hi20(imm), h);
    AddiAdds(0, 0, Lo12(imm), h);
    if FitsSigned12(imm) {
      RunOne(EncodeAddi(0, 0, imm), h);
    } else if Lo12(imm) == 0 {
      RunOne(EncodeLui(0, Hi20(imm)), h);
    } else {
      RunTwo(EncodeLui(0, Hi20(imm)), EncodeAddi(0, 0, Lo12(imm)), h, h);
    }
  }

  /** For instance 0x1000: the code loads 0x10_0000. */
  lemma MovImmOf4096(rd: nat, h: Hart)
    requires 1 <= rd < 0x20
    ensures RunWords(MovImmWords(rd, 0x1000), h) == Some(h.Set(rd, 0x10_0000))
  {
    assert Hi20(0x1000) == 1 && Lo12(0x1000) == 0;
    LuiLoads(rd, 1, h);
    RunOne(EncodeLui(rd, 1), h);
  }

  // ---------------------------------------------------------------------
  // Code size
  // ---------------------------------------------------------------------

  const EXEC_BUFFER_SIZE := 768

  /** Words a call takes: `a0`/`a1` stand for the accumulator and scratch register. */
  function WordCount(c: Call): nat {
    match c
    case MovImm(reg, imm) => |MovImmWords(10 + reg % 2, imm)|
    case _ => 1
  }

  function WordCounts(cs: seq<Call>): nat {
    if cs == [] then 0 else WordCount(cs[0]) + WordCounts(cs[1..])
  }

  lemma {:induction false} PlanWords(words: seq<Word>, ip: nat, loaded: bool)
    requires Plan(words, ip, loaded).Some?
    ensures WordCounts(Plan(words, ip, loaded).value) <= if ip < |words| then |words| - ip else 0
    ensures |Plan(words, ip, loaded).value| <= WordCounts(Plan(words, ip, loaded).value)
    decreases |words| - ip
  {
    if ip < |words| && words[ip] != 0 && words[ip] != HALT {
      var w := words[ip];
      var ip1 := if w == LIT then ip + 2 else ip + 1;
      var loaded1 := if w == LIT then loaded || !AddressContext(WordAt(words, ip + 2))
                     else if w == WRITE then loaded else true;
      PlanWords(words, ip1, loaded1);
      var rest := Plan(words, ip1, loaded1).value;
      var c := Plan(words, ip, loaded).value[0];
      assert Plan(words, ip, loaded) == Some([c] + rest) && ([c] + rest)[1..] == rest;
    }
  }

  /** Any planned stream of at most 128 words takes at most 129 words with its return. */
  lemma CodeFits(words: seq<Word>)
    requires |words| <= 128 && Plan(words, 0, false).Some?
    ensures |Plan(words, 0, false).value| < WordCounts(Plan(words, 0, false).value) + 1 <= 129 <= EXEC_BUFFER_SIZE / 4
    ensures EXEC_BUFFER_SIZE == 768
  {
    PlanWords(words, 0, false);
  }
}

/**
  The Thumb-2 back end: instruction encoders and emitter
  (src/compiler/emitter.rs:65-104, 163-308), and a step machine that decodes
  the halfwords again as section A7.7 of the ARMv7-M Architecture Reference
  Manual lays them out.

  Condition flags are not modelled: nothing emitted here reads them.
 */
module Thumb2 {
  import opened Words
  import opened ThreadedVm

  // ---------------------------------------------------------------------
  // Encoders
  // ---------------------------------------------------------------------

  // Shifts and masks are written as `/` and `%` by powers of two, and the `|`
  // of disjoint bit fields as `+`.

  /** The immediate of a wide move, cut into the encoding's four fields. */
  datatype Imm16 = Imm16(imm4: nat, i: nat, imm3: nat, imm8: nat) {
    predicate Valid() {
      imm4 < 0x10 && i < 2 && imm3 < 8 && imm8 < 0x100
    }

    function Value(): nat {
      0x1000 * imm4 + 0x800 * i + 0x100 * imm3 + imm8
    }
  }

  /** imm4, i, imm3 and imm8 of the low halfword of `imm`. */
  function Fields(imm: Word): (f: Imm16)
    ensures f.Valid() && f.Value() == imm % 0x1_0000
  {
    var above8 := imm / 0x100;
    var above11 := above8 / 8;
    var above12 := above11 / 2;
    var f := Imm16(above12 % 0x10, above11 % 2, above8 % 8, imm % 0x100);
    assert imm == f.Value() + 0x1_0000 * (above12 / 0x10);
    f
  }

  /** One instruction as it is laid down: a halfword, or two in order. */
  datatype Unit = Narrow(h: Half) | Wide(h1: Half, h2: Half)

  /** The scatter shared by MOVW and MOVT. */
  function MoveWide(opcode: Half, rd: nat, f: Imm16): Unit
    requires (opcode == 0xF240 || opcode == 0xF2C0) && rd < 0x10 && f.Valid()
  {
    Wide(opcode + 0x400 * f.i + f.imm4, 0x1000 * f.imm3 + 0x100 * rd + f.imm8)
  }

  function EncodeMovw(rd: Byte, imm: Word): Unit
    requires rd <= 15
  {
    MoveWide(0xF240, rd, Fields(imm))
  }

  function EncodeMovt(rd: Byte, imm: Word): Unit
    requires rd <= 15
  {
    MoveWide(0xF2C0, rd, Fields(imm / 0x1_0000))
  }

  function EncodeStrImm(rt: Byte, rn: Byte, offset: Word): Option<Half> {
    if rt > 7 || rn > 7 || offset > 124 || offset % 4 != 0 then None
    else Some(0x6000 + 0x40 * (offset / 4) + 8 * rn + rt)
  }

  function EncodeLdrImm(rt: Byte, rn: Byte, offset: Word): Option<Half> {
    if rt > 7 || rn > 7 || offset > 124 || offset % 4 != 0 then None
    else Some(0x6800 + 0x40 * (offset / 4) + 8 * rn + rt)
  }

  function EncodeSdiv(rd: Byte, rn: Byte, rm: Byte): Unit
    requires rd <= 15 && rn <= 15 && rm <= 15
  {
    Wide(0xFB90 + rn, 0xF010 + 0x100 * rd + rm)
  }

  const BX_LR: Half := 0x4770

  /** One call of the emitter interface. */
  datatype Call =
    | MovImm(reg: Byte, imm: Word)
    | StoreU32(src: Byte, addr: Byte)
    | LoadU32(dst: Byte, addr: Byte)
    | Arith(op: BinOp, dst: Byte, a: Byte, b: Byte)
    | Ret

  function MovImmUnits(reg: Byte, imm: Word): seq<Unit>
    requires reg <= 15
  {
    // MOVS covers 0..=255 in r0-r7; otherwise MOVW, and MOVT only when needed.
    if imm <= 0xFF && reg < 8 then [Narrow(0x2000 + 0x100 * reg + imm)]
    else if imm / 0x1_0000 == 0 then [EncodeMovw(reg, imm)]
    else [EncodeMovw(reg, imm), EncodeMovt(reg, imm)]
  }

  function ArithUnits(op: BinOp, dst: Byte, a: Byte, b: Byte): Option<seq<Unit>> {
    if op.Over? then
      if dst > 15 || a > 15 || b > 15 then None else Some([EncodeSdiv(dst, a, b)])
    else if dst > 7 || a > 7 || b > 7 then None
    else if op.Plus? then Some([Narrow(0x1800 + 0x40 * b + 8 * a + dst)])
    else if op.Minus? then Some([Narrow(0x1A00 + 0x40 * b + 8 * a + dst)])
    else
      // MULS multiplies in place, so `a` is first moved into `dst`.
      var muls := Narrow(0x4340 + 8 * b + dst);
      Some(if a != dst then [Narrow(8 * a + dst), muls] else [muls])
  }

  /** What a call lays down; None when a register is out of range. */
  function Units(c: Call): Option<seq<Unit>> {
    match c
    case MovImm(reg, imm) => if reg > 15 then None else Some(MovImmUnits(reg, imm))
    case StoreU32(src, addr) =>
      (match EncodeStrImm(src, addr, 0) case None => None case Some(h) => Some([Narrow(h)]))
    case LoadU32(dst, addr) =>
      (match EncodeLdrImm(dst, addr, 0) case None => None case Some(h) => Some([Narrow(h)]))
    case Arith(op, dst, a, b) => ArithUnits(op, dst, a, b)
    case Ret => Some([Narrow(BX_LR)])
  }

  function UnitHalves(u: Unit): seq<Half> {
    match u
    case Narrow(h) => [h]
    case Wide(h1, h2) => [h1, h2]
  }

  /** The halfwords in memory order. */
  function Halves(us: seq<Unit>): seq<Half> {
    if us == [] then [] else UnitHalves(us[0]) + Halves(us[1..])
  }

  // ---------------------------------------------------------------------
  // Decoder and step machine
  // ---------------------------------------------------------------------

  datatype Instr =
    | IMovImm(rd: Half, imm: Word)
    | IMovTop(rd: Half, imm: Word)
    | IMovReg(rd: Half, rm: Half)
    | IStr(rt: Half, rn: Half, offset: Word)
    | ILdr(rt: Half, rn: Half, offset: Word)
    | IAdd(rd: Half, rn: Half, rm: Half)
    | ISub(rd: Half, rn: Half, rm: Half)
    | IMul(rdm: Half, rn: Half)
    | IDiv(rd: Half, rn: Half, rm: Half)
    | IBx(rm: Half)
    | IUndefined  // UNDEFINED: the core takes a usage fault
    | IOther      // outside this model; the emitter must not produce it

  // A bit pattern with its low bits free is an interval, so opcodes are
  // recognised by comparison.

  /** Top five bits 0b11101, 0b11110 or 0b11111. */
  predicate IsWide(h: Half) {
    h >= 0xE800
  }

  function DecodeNarrow(h: Half): Instr {
    if 0x2000 <= h < 0x2800 then IMovImm((h - 0x2000) / 0x100, (h - 0x2000) % 0x100)
    else if 0x1800 <= h < 0x1A00 then var (x, y, z) := Octals(h - 0x1800); IAdd(x, y, z)
    else if 0x1A00 <= h < 0x1C00 then var (x, y, z) := Octals(h - 0x1A00); ISub(x, y, z)
    else if 0x0000 <= h < 0x0040 then IMovReg(h % 8, h / 8)
    else if 0x4340 <= h < 0x4380 then IMul((h - 0x4340) % 8, (h - 0x4340) / 8)
    else if 0x6000 <= h < 0x6800 then var (x, y, z) := Octals(h - 0x6000); IStr(x, y, 4 * z)
    else if 0x6800 <= h < 0x7000 then var (x, y, z) := Octals(h - 0x6800); ILdr(x, y, 4 * z)
    else if 0x4700 <= h < 0x4780 && h % 8 == 0 then IBx((h - 0x4700) / 8)
    else IOther
  }

  /** Two three-bit fields and what is above them. */
  function Octals(x: nat): (nat, nat, nat) {
    (x % 8, x / 8 % 8, x / 0x40)
  }

  /** imm16 = imm4:i:imm3:imm8, with `low` = i:imm4 spread as in the first halfword. */
  function WideImm(low: nat, h2: Half): nat {
    0x1000 * (low % 0x400) + 0x800 * (low / 0x400) + 0x100 * (h2 / 0x1000) + h2 % 0x100
  }

  function DecodeWide(h1: Half, h2: Half): Instr {
    if (0xF240 <= h1 < 0xF250 || 0xF640 <= h1 < 0xF650) && h2 < 0x8000 then
      IMovImm(h2 / 0x100 % 0x10, WideImm(h1 - 0xF240, h2))
    else if (0xF2C0 <= h1 < 0xF2D0 || 0xF6C0 <= h1 < 0xF6D0) && h2 < 0x8000 then
      IMovTop(h2 / 0x100 % 0x10, WideImm(h1 - 0xF2C0, h2))
    else if 0xFB80 <= h1 < 0xFC00 then DecodeLong((h1 - 0xFB80) / 0x10, h1 % 0x10, h2)
    else IOther
  }

  /**
    The group "Long multiply, long multiply accumulate, and divide":
    op1 is bits 6:4 of the first halfword, op2 bits 7:4 of the second.
   */
  function DecodeLong(op1: nat, rn: Half, h2: Half): Instr {
    var op2 := h2 / 0x10 % 0x10;
    if op1 == 1 && op2 == 0xF then
      if 0xF000 <= h2 then IDiv(h2 / 0x100 % 0x10, rn, h2 % 0x10) else IOther
    else if LongAllocated(op1, op2) then IOther
    else IUndefined
  }

  /** The encodings of that group that are allocated, SDIV apart. */
  predicate LongAllocated(op1: nat, op2: nat) {
    || (op1 == 0 && op2 == 0)                              // SMULL
    || (op1 == 2 && op2 == 0)                              // UMULL
    || (op1 == 3 && op2 == 0xF)                            // UDIV
    || (op1 == 4 && (op2 == 0 || 8 <= op2 <= 0xD))         // SMLAL, SMLALxy, SMLALD
    || (op1 == 5 && (op2 == 0xC || op2 == 0xD))            // SMLSLD
    || (op1 == 6 && (op2 == 0 || op2 == 6))                // UMLAL, UMAAL
  }

  /** Register file and the bus; a register never written reads as 0. */
  datatype Cpu = Cpu(regs: map<nat, Word>, bus: Bus) {
    function Reg(r: Half): Word {
      if r in regs then regs[r] else 0
    }

    function Set(r: Half, v: Word): Cpu {
      this.(regs := regs[r := v])
    }
  }

  /** Two's-complement division rounding toward zero; x / 0 is 0. */
  function SignedDiv(a: Word, b: Word): Word {
    var ua: nat := if a >= 0x8000_0000 then WORD_SPAN - a else a;
    var ub: nat := if b >= 0x8000_0000 then WORD_SPAN - b else b;
    var q: int := if ub == 0 then 0 else ua / ub;
    (if (a >= 0x8000_0000) == (b >= 0x8000_0000) then q else -q) % WORD_SPAN
  }

  datatype Effect = Going(cpu: Cpu) | Returned | Trap

  function Execute(i: Instr, c: Cpu): Effect {
    match i
    case IMovImm(rd, imm) => Going(c.Set(rd, imm))
    case IMovTop(rd, imm) => Going(c.Set(rd, c.Reg(rd) % 0x1_0000 + 0x1_0000 * (imm % 0x1_0000)))
    case IMovReg(rd, rm) => Going(c.Set(rd, c.Reg(rm)))
    case IStr(rt, rn, off) => Going(c.(bus := c.bus.AfterWrite((c.Reg(rn) + off) % WORD_SPAN, c.Reg(rt))))
    case ILdr(rt, rn, off) =>
      var a := (c.Reg(rn) + off) % WORD_SPAN;
      Going(c.(bus := c.bus.AfterRead(a)).Set(rt, c.bus.Peek(a)))
    case IAdd(rd, rn, rm) => Going(c.Set(rd, Apply(Plus, c.Reg(rn), c.Reg(rm))))
    case ISub(rd, rn, rm) => Going(c.Set(rd, Apply(Minus, c.Reg(rn), c.Reg(rm))))
    case IMul(rdm, rn) => Going(c.Set(rdm, Apply(Times, c.Reg(rdm), c.Reg(rn))))
    case IDiv(rd, rn, rm) => Going(c.Set(rd, SignedDiv(c.Reg(rn), c.Reg(rm))))
    case IBx(rm) => if rm == 14 then Returned else Trap
    case IUndefined => Trap
    case IOther => Trap
  }

  /**
    Decode a whole buffer.  Nothing the emitter produces branches before its
    final return, so fetching is a single left-to-right pass.
   */
  function Disassemble(code: seq<Half>): seq<Instr> {
    if code == [] then []
    else if !IsWide(code[0]) then [DecodeNarrow(code[0])] + Disassemble(code[1..])
    else if |code| == 1 then [IOther]
    else [DecodeWide(code[0], code[1])] + Disassemble(code[2..])
  }

  /** Run to the return; None after a trap or off the end of the code. */
  function RunInstrs(ins: seq<Instr>, c: Cpu): Option<Cpu>
    decreases |ins|
  {
    if ins == [] then None
    else
      match Execute(ins[0], c)
      case Going(c1) => RunInstrs(ins[1..], c1)
      case Returned => Some(c)
      case Trap => None
  }

  function RunCode(code: seq<Half>, c: Cpu): Option<Cpu> {
    RunInstrs(Disassemble(code), c)
  }

  // ---------------------------------------------------------------------
  // Every emitter call does what the emitter interface says it does
  // ---------------------------------------------------------------------

  /** The interface's promise for each call, on the register file and bus. */
  function Meaning(c: Call, s: Cpu): Cpu {
    match c
    case MovImm(reg, imm) => s.Set(reg, imm)
    case StoreU32(src, addr) =>
      s.(bus := s.bus.AfterWrite(s.Reg(addr), s.Reg(src)))
    case LoadU32(dst, addr) =>
      s.(bus := s.bus.AfterRead(s.Reg(addr))).Set(dst, s.bus.Peek(s.Reg(addr)))
    case Arith(op, dst, a, b) =>
      s.Set(dst, Apply(op, s.Reg(a), s.Reg(b)))
    case Ret => s
  }

  /** `u` is recognised as the instruction `i`. */
  predicate Decodes(u: Unit, i: Instr) {
    match u
    case Narrow(h) => !IsWide(h) && DecodeNarrow(h) == i
    case Wide(h1, h2) => IsWide(h1) && DecodeWide(h1, h2) == i
  }

  predicate AllDecode(us: seq<Unit>, ins: seq<Instr>) {
    |us| == |ins| && forall k :: 0 <= k < |us| ==> Decodes(us[k], ins[k])
  }

  /** The instructions each call should come back as. */
  function Instrs(c: Call): seq<Instr> {
    match c
    case MovImm(reg, imm) =>
      if imm < 0x1_0000 then [IMovImm(reg, imm)]
      else [IMovImm(reg, imm % 0x1_0000), IMovTop(reg, imm / 0x1_0000)]
    case StoreU32(src, addr) => [IStr(src, addr, 0)]
    case LoadU32(dst, addr) => [ILdr(dst, addr, 0)]
    case Arith(op, dst, a, b) =>
      (match op
       case Plus => [IAdd(dst, a, b)]
       case Minus => [ISub(dst, a, b)]
       case Times =>
         (if a != dst then [IMovReg(dst, a)] else []) + [IMul(dst, b)]
       case Over => [IUndefined])
    case Ret => [IBx(14)]
  }

  lemma UnpackSecond(imm3: nat, rd: nat, imm8: nat)
    requires imm3 < 8 && rd < 0x10 && imm8 < 0x100
    ensures var h: Half := 0x1000 * imm3 + 0x100 * rd + imm8;
            h < 0x8000 && h / 0x1000 == imm3 && h / 0x100 % 0x10 == rd && h % 0x100 == imm8
  {
    SplitAt(0x1000, imm3, 0x100 * rd + imm8);
    SplitAt(0x100, 0x10 * imm3 + rd, imm8);
    SplitAt(0x10, imm3, rd);
  }

  lemma DecodeMoveWide(opcode: Half, rd: nat, f: Imm16)
    requires (opcode == 0xF240 || opcode == 0xF2C0) && rd < 0x10 && f.Valid()
    ensures Decodes(MoveWide(opcode, rd, f),
                    if opcode == 0xF240 then IMovImm(rd, f.Value()) else IMovTop(rd, f.Value()))
  {
    UnpackSecond(f.imm3, rd, f.imm8);
    SplitAt(0x400, f.i, f.imm4);
    var low, h1, h2 := 0x400 * f.i + f.imm4, MoveWide(opcode, rd, f).h1, MoveWide(opcode, rd, f).h2;
    assert h1 - opcode == low;
    assert WideImm(low, h2) == f.Value();
  }

  lemma DecodeMovs(rd: Byte, imm: Word)
    requires rd < 8 && imm <= 0xFF
    ensures Decodes(Narrow(0x2000 + 0x100 * rd + imm), IMovImm(rd, imm))
  {
  }

  lemma OctalsOf(x: nat, y: nat, z: nat)
    requires x < 8 && y < 8
    ensures Octals(x + 8 * y + 0x40 * z) == (x, y, z)
  {
    assert (x + 8 * y + 0x40 * z) / 8 == y + 8 * z;
  }

  /** Loads and stores with an offset: accepted for low registers and word offsets below 128, and then right. */
  lemma DecodeStrLdr(rt: Byte, rn: Byte, offset: Word)
    ensures EncodeStrImm(rt, rn, offset).Some? <==> rt < 8 && rn < 8 && offset < 128 && offset % 4 == 0
    ensures EncodeLdrImm(rt, rn, offset).Some? <==> EncodeStrImm(rt, rn, offset).Some?
    ensures EncodeStrImm(rt, rn, offset).Some? ==>
              && Decodes(Narrow(EncodeStrImm(rt, rn, offset).value), IStr(rt, rn, offset))
              && Decodes(Narrow(EncodeLdrImm(rt, rn, offset).value), ILdr(rt, rn, offset))
  {
    if EncodeStrImm(rt, rn, offset).Some? {
      OctalsOf(rt, rn, offset / 4);
    }
  }

  lemma DecodeAddSub(dst: Byte, a: Byte, b: Byte)
    requires dst <= 7 && a <= 7 && b <= 7
    ensures Decodes(Narrow(0x1800 + 0x40 * b + 8 * a + dst), IAdd(dst, a, b))
    ensures Decodes(Narrow(0x1A00 + 0x40 * b + 8 * a + dst), ISub(dst, a, b))
  {
    OctalsOf(dst, a, b);
  }

  lemma DecodeMul(dst: Byte, a: Byte, b: Byte)
    requires dst <= 7 && a <= 7 && b <= 7
    ensures Decodes(Narrow(8 * a + dst), IMovReg(dst, a))
    ensures Decodes(Narrow(0x4340 + 8 * b + dst), IMul(dst, b))
  {
  }

  /** Halfword fields of the divide encoding: op1 is 1 and op2 is 1. */
  lemma SdivFields(rd: Byte, rn: Byte, rm: Byte)
    requires rd <= 15 && rn <= 15 && rm <= 15
    ensures (0x10 + rn) / 0x10 == 1
    ensures (0xF010 + 0x100 * rd + rm) / 0x10 % 0x10 == 1
  {
    var q := 0xF01 + 0x10 * rd;
    SplitAt(0x10, q, rm);
    SplitAt(0x10, 0xF0 + rd, 1);
    assert 0xF010 + 0x100 * rd + rm == 0x10 * q + rm;
  }

  /** The divide encoding is not SDIV: it falls among the UNDEFINED encodings of its group. */
  lemma DecodeDiv(rd: Byte, rn: Byte, rm: Byte)
    requires rd <= 15 && rn <= 15 && rm <= 15
    ensures Decodes(EncodeSdiv(rd, rn, rm), IUndefined)
  {
    SdivFields(rd, rn, rm);
    var h1: Half, h2: Half := 0xFB90 + rn, 0xF010 + 0x100 * rd + rm;
    assert h1 - 0xFB80 == 0x10 + rn;
    assert DecodeWide(h1, h2) == DecodeLong(1, h1 % 0x10, h2) == IUndefined;
  }

  lemma DecodeMovw(rd: Byte, imm: Word)
    requires rd <= 15
    ensures Decodes(EncodeMovw(rd, imm), IMovImm(rd, imm % 0x1_0000))
  {
    DecodeMoveWide(0xF240, rd, Fields(imm));
  }

  lemma DecodeMovt(rd: Byte, imm: Word)
    requires rd <= 15
    ensures Decodes(EncodeMovt(rd, imm), IMovTop(rd, imm / 0x1_0000))
  {
    var high := imm / 0x1_0000;
    assert high % 0x1_0000 == high;
    DecodeMoveWide(0xF2C0, rd, Fields(high));
  }

  lemma AllDecodeOne(u: Unit, i: Instr)
    requires Decodes(u, i)
    ensures AllDecode([u], [i])
  {
  }

  lemma AllDecodeTwo(u: Unit, i: Instr, v: Unit, j: Instr)
    requires Decodes(u, i) && Decodes(v, j)
    ensures AllDecode([u, v], [i, j])
  {
  }

  lemma DecodeMovImm(reg: Byte, imm: Word)
    requires reg <= 15
    ensures AllDecode(MovImmUnits(reg, imm), Instrs(MovImm(reg, imm)))
  {
    if imm <= 0xFF && reg < 8 {
      DecodeMovs(reg, imm);
      AllDecodeOne(Narrow(0x2000 + 0x100 * reg + imm), IMovImm(reg, imm));
    } else if imm < 0x1_0000 {
      assert imm % 0x1_0000 == imm;
      DecodeMovw(reg, imm);
      AllDecodeOne(EncodeMovw(reg, imm), IMovImm(reg, imm));
    } else {
      DecodeMovw(reg, imm);
      DecodeMovt(reg, imm);
      AllDecodeTwo(EncodeMovw(reg, imm), IMovImm(reg, imm % 0x1_0000),
                   EncodeMovt(reg, imm), IMovTop(reg, imm / 0x1_0000));
    }
  }

  lemma DecodeArith(c: Call)
    requires c.Arith? && Units(c).Some?
    ensures AllDecode(Units(c).value, Instrs(c))
  {
    var Arith(op, dst, a, b) := c;
    match op
    case Plus => DecodeAddSub(dst, a, b);
    case Minus => DecodeAddSub(dst, a, b);
    case Times => DecodeMul(dst, a, b);
    case Over => DecodeDiv(dst, a, b);
  }

  /** Every accepted call decodes to the instructions meant for it. */
  lemma DecodeCall(c: Call)
    requires Units(c).Some?
    ensures AllDecode(Units(c).value, Instrs(c))
  {
    match c
    case MovImm(reg, imm) => DecodeMovImm(reg, imm);
    case StoreU32(src, addr) => DecodeStrLdr(src, addr, 0);
    case LoadU32(dst, addr) => DecodeStrLdr(dst, addr, 0);
    case Arith(_, _, _, _) => DecodeArith(c);
    case Ret =>
  }

  /** Which calls are accepted: any register for moves and divides, low registers otherwise. */
  lemma AcceptedCalls(c: Call)
    ensures Units(c).Some? <==>
            match c
            case MovImm(reg, _) => reg < 16
            case StoreU32(src, addr) => src < 8 && addr < 8
            case LoadU32(dst, addr) => dst < 8 && addr < 8
            case Arith(op, dst, a, b) =>
              if op.Over? then dst < 16 && a < 16 && b < 16 else dst < 8 && a < 8 && b < 8
            case Ret => true
  {
  }

  lemma {:induction false} HalvesConcat(us: seq<Unit>, vs: seq<Unit>)
    ensures Halves(us + vs) == Halves(us) + Halves(vs)
  {
    if us == [] {
      assert us + vs == vs;
    } else {
      assert (us + vs)[1..] == us[1..] + vs;
      HalvesConcat(us[1..], vs);
    }
  }

  /** Decoding the halfwords in memory finds the instruction boundaries again. */
  lemma {:induction false} DisassembleHalves(us: seq<Unit>, ins: seq<Instr>)
    requires AllDecode(us, ins)
    ensures Disassemble(Halves(us)) == ins
    decreases |us|
  {
    if us != [] {
      DisassembleHalves(us[1..], ins[1..]);
      var code, tail := Halves(us), Halves(us[1..]);
      assert Decodes(us[0], ins[0]);
      assert ins == [ins[0]] + ins[1..];
      match us[0]
      case Narrow(h) => assert code[0] == h && code[1..] == tail;
      case Wide(h1, h2) => assert code[0] == h1 && code[1] == h2 && code[2..] == tail;
    }
  }

  lemma One(i: Instr, rest: seq<Instr>, s: Cpu, t: Cpu)
    requires Execute(i, s) == Going(t)
    ensures RunInstrs([i] + rest, s) == RunInstrs(rest, t)
  {
    assert ([i] + rest)[1..] == rest;
  }

  lemma Two(i1: Instr, i2: Instr, rest: seq<Instr>, s: Cpu, t: Cpu, u: Cpu)
    requires Execute(i1, s) == Going(t) && Execute(i2, t) == Going(u)
    ensures RunInstrs([i1, i2] + rest, s) == RunInstrs(rest, u)
  {
    assert [i1, i2] + rest == [i1] + ([i2] + rest);
    One(i1, [i2] + rest, s, t);
    One(i2, rest, t, u);
  }

  /** A call the interface's promise can be kept for. */
  predicate Sound(c: Call) {
    match c
    case MovImm(reg, _) => reg <= 12
    case Arith(op, dst, a, b) => !op.Over? && !(op.Times? && a != dst && b == dst)
    case Ret => false
    case _ => true
  }

  lemma MulViaMove(dst: Byte, a: Byte, b: Byte, rest: seq<Instr>, s: Cpu)
    requires a != dst && b != dst
    ensures var c := Arith(Times, dst, a, b); RunInstrs(Instrs(c) + rest, s) == RunInstrs(rest, Meaning(c, s))
  {
    var c := Arith(Times, dst, a, b);
    var d := dst;
    var t := s.Set(d, s.Reg(a));
    assert Instrs(c) == [IMovReg(d, a), IMul(d, b)];
    assert t.Reg(d) == s.Reg(a) && t.Reg(b) == s.Reg(b);
    assert t.Set(d, Apply(Times, t.Reg(d), t.Reg(b))) == Meaning(c, s);
    Two(IMovReg(d, a), IMul(d, b), rest, s, t, Meaning(c, s));
  }

  lemma ArithRuns(c: Call, rest: seq<Instr>, s: Cpu)
    requires c.Arith? && Sound(c)
    ensures RunInstrs(Instrs(c) + rest, s) == RunInstrs(rest, Meaning(c, s))
  {
    if c.op.Times? && c.a != c.dst {
      MulViaMove(c.dst, c.a, c.b, rest, s);
    } else if c.op.Times? {
      assert Instrs(c) == [IMul(c.dst, c.b)];
      One(IMul(c.dst, c.b), rest, s, Meaning(c, s));
    } else {
      One(Instrs(c)[0], rest, s, Meaning(c, s));
    }
  }

  lemma MovBothRuns(reg: Byte, low: nat, top: nat, rest: seq<Instr>, s: Cpu)
    requires low < 0x1_0000 && top < 0x1_0000
    ensures RunInstrs([IMovImm(reg, low), IMovTop(reg, top)] + rest, s) ==
            RunInstrs(rest, s.Set(reg, low + 0x1_0000 * top))
  {
    var t := s.Set(reg, low);
    var u := s.Set(reg, low + 0x1_0000 * top);
    assert t.Set(reg, low + 0x1_0000 * top) == u;
    Two(IMovImm(reg, low), IMovTop(reg, top), rest, s, t, u);
  }

  lemma MovImmRuns(reg: Byte, imm: Word, ins: seq<Instr>, rest: seq<Instr>, s: Cpu)
    requires ins == if imm < 0x1_0000 then [IMovImm(reg, imm)]
                    else [IMovImm(reg, imm % 0x1_0000), IMovTop(reg, imm / 0x1_0000)]
    ensures RunInstrs(ins + rest, s) == RunInstrs(rest, s.Set(reg, imm))
  {
    if imm < 0x1_0000 {
      One(IMovImm(reg, imm), rest, s, s.Set(reg, imm));
    } else {
      MovBothRuns(reg, imm % 0x1_0000, imm / 0x1_0000, rest, s);
    }
  }

  lemma MemoryRuns(c: Call, rest: seq<Instr>, s: Cpu)
    requires c.StoreU32? || c.LoadU32?
    ensures RunInstrs(Instrs(c) + rest, s) == RunInstrs(rest, Meaning(c, s))
  {
    match c
    case StoreU32(src, addr) => One(IStr(src, addr, 0), rest, s, Meaning(c, s));
    case LoadU32(dst, addr) => One(ILdr(dst, addr, 0), rest, s, Meaning(c, s));
  }

  /** Executing a sound call is its meaning, for every machine state. */
  lemma CallRuns(c: Call, rest: seq<Instr>, s: Cpu)
    requires Sound(c)
    ensures RunInstrs(Instrs(c) + rest, s) == RunInstrs(rest, Meaning(c, s))
  {
    match c
    case MovImm(reg, imm) =>
      MovImmRuns(reg, imm, Instrs(c), rest, s);
    case Arith(_, _, _, _) => ArithRuns(c, rest, s);
    case StoreU32(_, _) => MemoryRuns(c, rest, s);
    case LoadU32(_, _) => MemoryRuns(c, rest, s);
  }

  // ---------------------------------------------------------------------
  // Whole emissions
  // ---------------------------------------------------------------------

  function AllUnits(cs: seq<Call>): Option<seq<Unit>> {
    if cs == [] then Some([])
    else
      match (Units(cs[0]), AllUnits(cs[1..]))
      case (Some(us), Some(vs)) => Some(us + vs)
      case _ => None
  }

  function AllInstrs(cs: seq<Call>): seq<Instr> {
    if cs == [] then [] else Instrs(cs[0]) + AllInstrs(cs[1..])
  }

  function AllMeaning(cs: seq<Call>, s: Cpu): Cpu
    decreases |cs|
  {
    if cs == [] then s else AllMeaning(cs[1..], Meaning(cs[0], s))
  }

  lemma AllDecodeConcat(us: seq<Unit>, ins: seq<Instr>, vs: seq<Unit>, jns: seq<Instr>)
    requires AllDecode(us, ins) && AllDecode(vs, jns)
    ensures AllDecode(us + vs, ins + jns)
  {
  }

  lemma {:induction false} AllCallsDecode(cs: seq<Call>)
    requires AllUnits(cs).Some?
    ensures AllDecode(AllUnits(cs).value, AllInstrs(cs))
  {
    if cs != [] {
      DecodeCall(cs[0]);
      AllCallsDecode(cs[1..]);
      AllDecodeConcat(Units(cs[0]).value, Instrs(cs[0]), AllUnits(cs[1..]).value, AllInstrs(cs[1..]));
    }
  }

  lemma {:induction false} AllCallsRun(cs: seq<Call>, rest: seq<Instr>, s: Cpu)
    requires forall c :: c in cs ==> Sound(c)
    ensures RunInstrs(AllInstrs(cs) + rest, s) == RunInstrs(rest, AllMeaning(cs, s))
    decreases |cs|
  {
    if cs == [] {
      assert AllInstrs(cs) + rest == rest;
    } else {
      assert AllInstrs(cs) + rest == Instrs(cs[0]) + (AllInstrs(cs[1..]) + rest);
      CallRuns(cs[0], AllInstrs(cs[1..]) + rest, s);
      AllCallsRun(cs[1..], rest, Meaning(cs[0], s));
    }
  }

  /** The halfwords of a whole emission, closed by the return. */
  function Assembly(us: seq<Unit>): seq<Half> {
    Halves(us + [Narrow(BX_LR)])
  }

  lemma Returns(s: Cpu)
    ensures RunInstrs([IBx(14)], s) == Some(s)
  {
  }

  lemma AssemblyDecodes(cs: seq<Call>)
    requires AllUnits(cs).Some?
    ensures Disassemble(Assembly(AllUnits(cs).value)) == AllInstrs(cs) + [IBx(14)]
  {
    AllCallsDecode(cs);
    AllDecodeConcat(AllUnits(cs).value, AllInstrs(cs), [Narrow(BX_LR)], [IBx(14)]);
    DisassembleHalves(AllUnits(cs).value + [Narrow(BX_LR)], AllInstrs(cs) + [IBx(14)]);
  }

  /** Running assembled sound calls on any machine state is their meaning. */
  lemma AssemblyRuns(cs: seq<Call>, s: Cpu)
    requires AllUnits(cs).Some? && forall c :: c in cs ==> Sound(c)
    ensures RunCode(Assembly(AllUnits(cs).value), s) == Some(AllMeaning(cs, s))
  {
    AssemblyDecodes(cs);
    AllCallsRun(cs, [IBx(14)], s);
    Returns(AllMeaning(cs, s));
  }

  /** Loading an immediate: the halfwords leave exactly that value in the register, and change nothing else. */
  lemma MovImmLoads(reg: Byte, imm: Word, s: Cpu)
    requires reg <= 12
    ensures RunCode(Assembly(MovImmUnits(reg, imm)), s) == Some(s.Set(reg, imm))
  {
    var c := MovImm(reg, imm);
    var cs := [c];
    assert cs[1..] == [];
    assert AllUnits(cs) == Some(MovImmUnits(reg, imm)) by {
      assert MovImmUnits(reg, imm) + [] == MovImmUnits(reg, imm);
    }
    AssemblyRuns(cs, s);
    assert AllMeaning(cs, s) == Meaning(c, s);
  }

  /** An emission that gets as far as a divide traps there. */
  lemma AssemblyTraps(cs: seq<Call>, d: Call, more: seq<Call>, s: Cpu)
    requires AllUnits(cs + ([d] + more)).Some? && d.Arith? && d.op.Over?
    requires forall c :: c in cs ==> Sound(c)
    ensures RunCode(Assembly(AllUnits(cs + ([d] + more)).value), s) == None
  {
    AssemblyDecodes(cs + ([d] + more));
    AllInstrsConcat(cs, [d] + more);
    assert AllInstrs([d] + more) == [IUndefined] + AllInstrs(more) by {
      assert ([d] + more)[1..] == more;
    }
    var rest := [IUndefined] + AllInstrs(more) + [IBx(14)];
    assert AllInstrs(cs + ([d] + more)) + [IBx(14)] == AllInstrs(cs) + rest;
    AllCallsRun(cs, rest, s);
    assert rest[0] == IUndefined;
  }

  lemma {:induction false} AllInstrsConcat(cs: seq<Call>, ds: seq<Call>)
    ensures AllInstrs(cs + ds) == AllInstrs(cs) + AllInstrs(ds)
  {
    if cs == [] {
      assert cs + ds == ds;
    } else {
      assert (cs + ds)[1..] == cs[1..] + ds;
      AllInstrsConcat(cs[1..], ds);
    }
  }

  /**
    The interface promises `dst = a * b`.  The emitted code keeps that promise
    in every machine state exactly when it does not have to overwrite `b`
    before multiplying by it.
   */
  lemma MulPromise(dst: Byte, a: Byte, b: Byte)
    requires dst <= 7 && a <= 7 && b <= 7
    ensures (forall s :: RunInstrs(Instrs(Arith(Times, dst, a, b)) + [IBx(14)], s) ==
                         Some(Meaning(Arith(Times, dst, a, b), s)))
            <==> (a == dst || b != dst)
  {
    var c := Arith(Times, dst, a, b);
    if a == dst || b != dst {
      forall s ensures RunInstrs(Instrs(c) + [IBx(14)], s) == Some(Meaning(c, s)) {
        CallRuns(c, [IBx(14)], s);
        Returns(Meaning(c, s));
      }
    } else {
      // b is dst and a is not: the code computes a * a.
      var s := Cpu(map[a := 2, b := 3], Bus((_, _) => 0, []));
      var t := s.Set(dst, 2);
      var u := t.Set(dst, 4);
      Two(IMovReg(dst, a), IMul(dst, b), [IBx(14)], s, t, u);
      Returns(u);
      assert u.Reg(dst) == 4 && Meaning(c, s).Reg(dst) == 6;
      assert RunInstrs(Instrs(c) + [IBx(14)], s) != Some(Meaning(c, s));
    }
  }
}

/**
  `Thumb2Emitter` writing halfwords into the executable buffer
  (src/compiler/emitter.rs:185-308).  Every method is proved against the units
  of the call it implements (`Thumb2.Units`).
 */
module Emitter {
  import opened Words
  import opened ThreadedVm
  import opened Thumb2

  datatype EmitError = Overflow | BadRegister

  const EXEC_BUFFER_SIZE := 4096

  /**
    `hs` was appended to a buffer of `cap` halfwords if it fits; otherwise the
    call reports Overflow, with whatever did fit already written.
   */
  ghost predicate Appended(hs: seq<Half>, cap: nat, before: seq<Half>, after: seq<Half>, err: Option<EmitError>) {
    && |before| <= cap && (err.None? <==> |before| + |hs| <= cap)
    && (err.None? ==> after == before + hs)
    && (err.Some? ==> err == Some(Overflow) && after == before + hs[..cap - |before|])
  }

  /** Two pushes in a row, the second only if the first fitted. */
  lemma AppendedTwice(xs: seq<Half>, ys: seq<Half>, cap: nat, before: seq<Half>, mid: seq<Half>, after: seq<Half>,
                      first: Option<EmitError>, second: Option<EmitError>)
    requires Appended(xs, cap, before, mid, first)
    requires if first.None? then Appended(ys, cap, mid, after, second) else after == mid && second == first
    ensures Appended(xs + ys, cap, before, after, second)
  {
    if first.None? {
      Assoc(before, xs, ys);
      if second.Some? {
        var n := cap - |mid|;
        assert (xs + ys)[..cap - |before|] == xs + ys[..n];
        Assoc(before, xs, ys[..n]);
      }
    } else {
      assert (xs + ys)[..cap - |before|] == xs[..cap - |before|];
    }
  }

  /** The outcome the interface prescribes for call `c`. */
  ghost predicate Emitted(c: Call, cap: nat, before: seq<Half>, after: seq<Half>, err: Option<EmitError>) {
    match Units(c)
    case None => err == Some(BadRegister) && after == before
    case Some(us) => Appended(Halves(us), cap, before, after, err)
  }

  class Thumb2Emitter {
    const buffer: array<Half>
    var len: nat

    ghost predicate Valid()
      reads this
    {
      len <= buffer.Length
    }

    ghost function Contents(): seq<Half>
      requires Valid()
      reads this, buffer
    {
      buffer[..len]
    }

    /** Capacity in halfwords is half the buffer size in bytes. */
    constructor IntoExecBuffer()
      ensures Valid() && fresh(buffer) && buffer.Length == 2048
      ensures Contents() == []
    {
      buffer := new Half[EXEC_BUFFER_SIZE / 2](_ => 0);
      len := 0;
    }

    method Push16(h: Half) returns (err: Option<EmitError>)
      requires Valid()
      modifies this, buffer
      ensures Valid() && Appended([h], buffer.Length, old(Contents()), Contents(), err)
    {
      if len >= buffer.Length {
        return Some(Overflow);
      }
      buffer[len] := h;
      len := len + 1;
      assert buffer[..len] == old(buffer[..len]) + [h];
      return None;
    }

    method PushWide(u: Unit) returns (err: Option<EmitError>)
      requires Valid() && u.Wide?
      modifies this, buffer
      ensures Valid() && Appended([u.h1, u.h2], buffer.Length, old(Contents()), Contents(), err)
    {
      err := PushTwo(u.h1, u.h2);
    }

    method PushTwo(x: Half, y: Half) returns (err: Option<EmitError>)
      requires Valid()
      modifies this, buffer
      ensures Valid() && Appended([x, y], buffer.Length, old(Contents()), Contents(), err)
    {
      var first := Push16(x);
      ghost var mid := Contents();
      err := first;
      if first.None? {
        err := Push16(y);
      }
      AppendedTwice([x], [y], buffer.Length, old(Contents()), mid, Contents(), first, err);
      assert [x] + [y] == [x, y];
    }

    method EmitMovImm(reg: Byte, imm: Word) returns (err: Option<EmitError>)
      requires Valid()
      modifies this, buffer
      ensures Valid() && Emitted(MovImm(reg, imm), buffer.Length, old(Contents()), Contents(), err)
    {
      if reg > 15 {
        return Some(BadRegister);
      }
      if imm <= 0xFF && reg < 8 {
        OneUnit(Narrow(0x2000 + 0x100 * reg + imm));
        err := Push16(0x2000 + 0x100 * reg + imm);
        return;
      }
      var w := EncodeMovw(reg, imm);
      if imm / 0x1_0000 == 0 {
        OneUnit(w);
        err := PushWide(w);
      } else {
        err := PushBoth(w, EncodeMovt(reg, imm));
      }
    }

    /** A wide unit, and another if there is room for it. */
    method PushBoth(u: Unit, v: Unit) returns (err: Option<EmitError>)
      requires Valid() && u.Wide? && v.Wide?
      modifies this, buffer
      ensures Valid() && Appended(Halves([u, v]), buffer.Length, old(Contents()), Contents(), err)
    {
      var first := PushWide(u);
      ghost var mid := Contents();
      err := first;
      if first.None? {
        err := PushWide(v);
      }
      TwoUnits(u, v);
      AppendedTwice([u.h1, u.h2], [v.h1, v.h2], buffer.Length, old(Contents()), mid, Contents(), first, err);
    }

    method EmitStoreU32(src: Byte, addr: Byte) returns (err: Option<EmitError>)
      requires Valid()
      modifies this, buffer
      ensures Valid() && Emitted(StoreU32(src, addr), buffer.Length, old(Contents()), Contents(), err)
    {
      match EncodeStrImm(src, addr, 0)
      case None => err := Some(BadRegister);
      case Some(h) =>
        OneUnit(Narrow(h));
        err := Push16(h);
    }

    method EmitLoadU32(dst: Byte, addr: Byte) returns (err: Option<EmitError>)
      requires Valid()
      modifies this, buffer
      ensures Valid() && Emitted(LoadU32(dst, addr), buffer.Length, old(Contents()), Contents(), err)
    {
      match EncodeLdrImm(dst, addr, 0)
      case None => err := Some(BadRegister);
      case Some(h) =>
        OneUnit(Narrow(h));
        err := Push16(h);
    }

    method EmitAdd(dst: Byte, a: Byte, b: Byte) returns (err: Option<EmitError>)
      requires Valid()
      modifies this, buffer
      ensures Valid() && Emitted(Arith(Plus, dst, a, b), buffer.Length, old(Contents()), Contents(), err)
    {
      if dst > 7 || a > 7 || b > 7 {
        return Some(BadRegister);
      }
      OneUnit(Narrow(0x1800 + 0x40 * b + 8 * a + dst));
      err := Push16(0x1800 + 0x40 * b + 8 * a + dst);
    }

    method EmitSub(dst: Byte, a: Byte, b: Byte) returns (err: Option<EmitError>)
      requires Valid()
      modifies this, buffer
      ensures Valid() && Emitted(Arith(Minus, dst, a, b), buffer.Length, old(Contents()), Contents(), err)
    {
      if dst > 7 || a > 7 || b > 7 {
        return Some(BadRegister);
      }
      OneUnit(Narrow(0x1A00 + 0x40 * b + 8 * a + dst));
      err := Push16(0x1A00 + 0x40 * b + 8 * a + dst);
    }

    method EmitMul(dst: Byte, a: Byte, b: Byte) returns (err: Option<EmitError>)
      requires Valid()
      modifies this, buffer
      ensures Valid() && Emitted(Arith(Times, dst, a, b), buffer.Length, old(Contents()), Contents(), err)
    {
      if dst > 7 || a > 7 || b > 7 {
        return Some(BadRegister);
      }
      var muls: Half := 0x4340 + 8 * b + dst;
      if a == dst {
        OneUnit(Narrow(muls));
        err := Push16(muls);
        return;
      }
      TwoUnits(Narrow(8 * a + dst), Narrow(muls));
      err := PushTwo(8 * a + dst, muls);
    }

    method EmitDiv(dst: Byte, a: Byte, b: Byte) returns (err: Option<EmitError>)
      requires Valid()
      modifies this, buffer
      ensures Valid() && Emitted(Arith(Over, dst, a, b), buffer.Length, old(Contents()), Contents(), err)
    {
      if dst > 15 || a > 15 || b > 15 {
        return Some(BadRegister);
      }
      OneUnit(EncodeSdiv(dst, a, b));
      err := PushWide(EncodeSdiv(dst, a, b));
    }

    method EmitArith(op: BinOp, dst: Byte, a: Byte, b: Byte) returns (err: Option<EmitError>)
      requires Valid()
      modifies this, buffer
      ensures Valid() && Emitted(Arith(op, dst, a, b), buffer.Length, old(Contents()), Contents(), err)
    {
      match op
      case Plus => err := EmitAdd(dst, a, b);
      case Minus => err := EmitSub(dst, a, b);
      case Times => err := EmitMul(dst, a, b);
      case Over => err := EmitDiv(dst, a, b);
    }

    method EmitRet() returns (err: Option<EmitError>)
      requires Valid()
      modifies this, buffer
      ensures Valid() && Emitted(Ret, buffer.Length, old(Contents()), Contents(), err)
    {
      OneUnit(Narrow(BX_LR));
      err := Push16(BX_LR);
    }
  }

  lemma OneUnit(u: Unit)
    ensures Halves([u]) == UnitHalves(u)
  {
    assert [u][1..] == [];
  }

  lemma TwoUnits(u: Unit, v: Unit)
    ensures Halves([u, v]) == UnitHalves(u) + UnitHalves(v)
  {
    assert [u, v][1..] == [v];
    OneUnit(v);
  }
}

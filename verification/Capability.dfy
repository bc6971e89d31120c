/**
  The capability bit engine (crates/hros-cap/src/lib.rs) and the registry and
  token protocol built on it (src/capabilities/registry.rs,
  src/capabilities/tokens.rs).

  A registry word is the set of positions of its one bits: `|` is union, `&`
  intersection, `1 << b` the singleton of b.
 */
module Capability {
  import opened Words

  type Bits = set<nat>

  predicate Wide(w: Bits, n: nat) {
    forall b :: b in w ==> b < n
  }

  // ---------------------------------------------------------------------
  // Windowed range check
  // ---------------------------------------------------------------------

  const BLOCK := 4096
  const WINDOW := 256

  /** The capability vector as 32-bit words; one bit per 4 KiB block. */
  ghost predicate IsVector(reg: seq<Bits>) {
    forall i :: 0 <= i < |reg| ==> Wide(reg[i], 32)
  }

  /** The plain check: bit `k`, of a block or of a resource, is set. */
  predicate IsSet(reg: seq<Bits>, k: nat) {
    k / 32 < |reg| && k % 32 in reg[k / 32]
  }

  /** Two adjacent 32-bit words read as one little-endian 64-bit word. */
  function View64(lo: Bits, hi: Bits): Bits {
    lo + set b | b in hi :: b + 32
  }

  /** The four 64-bit words of the window that starts at block `base`. */
  function WindowOf(reg: seq<Bits>, base: nat): seq<Bits>
    requires base / 32 + 8 <= |reg|
  {
    var w := base / 32;
    [View64(reg[w], reg[w + 1]), View64(reg[w + 2], reg[w + 3]),
     View64(reg[w + 4], reg[w + 5]), View64(reg[w + 6], reg[w + 7])]
  }

  /** Bit `off` of a 256-bit value held in four 64-bit words. */
  predicate Bit256(m: seq<Bits>, off: nat)
    requires |m| == 4 && off < WINDOW
  {
    off % 64 in m[off / 64]
  }

  /** The 64-bit view of a window agrees with the registry's own bits. */
  lemma WindowBits(reg: seq<Bits>, base: nat, off: nat)
    requires IsVector(reg) && base % WINDOW == 0 && base / 32 + 8 <= |reg| && off < WINDOW
    ensures Bit256(WindowOf(reg, base), off) <==> IsSet(reg, base + off)
  {
    var w, i := base / 32, off / 64;
    Place(base, off, w + 2 * i);
    ViewOf(reg, base, i);
    ViewBit(reg[w + 2 * i], reg[w + 2 * i + 1], off % 64);
  }

  /** Bit `off` of the window at `base` is in word j or j + 1 of the registry. */
  lemma Place(base: nat, off: nat, j: nat)
    requires base % WINDOW == 0 && j == base / 32 + 2 * (off / 64)
    ensures if off % 64 < 32 then (base + off) / 32 == j && (base + off) % 32 == off % 64
            else (base + off) / 32 == j + 1 && (base + off) % 32 == off % 64 - 32
  {
    var w := base / 32;
    var k := base / WINDOW;
    SplitAt(32, 8 * k, 0);
    assert base == 32 * w;
    BlockOf(w, off);
    HalfOf(off);
  }

  /** Which registry word holds a block's bit. */
  lemma BlockOf(w: nat, off: nat)
    ensures (32 * w + off) / 32 == w + off / 32 && (32 * w + off) % 32 == off % 32
  {
    SplitAt(32, w + off / 32, off % 32);
    assert 32 * w + off == 32 * (w + off / 32) + off % 32;
  }

  /** Which half of which 64-bit view holds it. */
  lemma HalfOf(off: nat)
    ensures if off % 64 < 32 then off / 32 == 2 * (off / 64) && off % 32 == off % 64
            else off / 32 == 2 * (off / 64) + 1 && off % 32 == off % 64 - 32
  {
    var i, r := off / 64, off % 64;
    if r < 32 {
      SplitAt(32, 2 * i, r);
      assert off == 32 * (2 * i) + r;
    } else {
      SplitAt(32, 2 * i + 1, r - 32);
      assert off == 32 * (2 * i + 1) + (r - 32);
    }
  }

  lemma ViewOf(reg: seq<Bits>, base: nat, i: nat)
    requires base / 32 + 8 <= |reg| && i < 4
    ensures WindowOf(reg, base)[i] == View64(reg[base / 32 + 2 * i], reg[base / 32 + 2 * i + 1])
  {
    assert i == 0 || i == 1 || i == 2 || i == 3;
  }

  lemma ViewBit(lo: Bits, hi: Bits, b: nat)
    requires Wide(lo, 32) && Wide(hi, 32) && b < 64
    ensures b in View64(lo, hi) <==> if b < 32 then b in lo else b - 32 in hi
  {
    if b >= 32 && b - 32 in hi {
      assert (b - 32) + 32 in View64(lo, hi);
    }
  }

  // ---------------------------------------------------------------------
  // Why that is the right view: the registry as bytes
  // ---------------------------------------------------------------------

  /** Bit `b` of a number. */
  predicate Bit(v: nat, b: nat) {
    if b == 0 then v % 2 == 1 else Bit(v / 2, b - 1)
  }

  function Pow2(n: nat): (p: nat)
    ensures p > 0
  {
    if n == 0 then 1 else 2 * Pow2(n - 1)
  }

  function BitsOf(v: nat, n: nat): Bits {
    set b | 0 <= b < n && Bit(v, b)
  }

  /** A number put on top of n bits keeps both sets of bits. */
  lemma {:induction false} BitJoin(lo: nat, hi: nat, n: nat, b: nat)
    requires lo < Pow2(n)
    ensures Bit(lo + Pow2(n) * hi, b) <==> if b < n then Bit(lo, b) else Bit(hi, b - n)
    decreases n
  {
    if n > 0 {
      var half := Pow2(n - 1) * hi;
      var x := lo + 2 * half;
      assert Pow2(n) * hi == 2 * half;
      assert x % 2 == lo % 2 && x / 2 == lo / 2 + half;
      if b > 0 {
        BitJoin(lo / 2, hi, n - 1, b - 1);
      }
    }
  }

  lemma {:induction false} Pow2Sum(a: nat, b: nat)
    ensures Pow2(a + b) == Pow2(a) * Pow2(b)
  {
    if a > 0 {
      Pow2Sum(a - 1, b);
    }
  }

  lemma Pow2Word()
    ensures Pow2(32) == WORD_SPAN
  {
    assert Pow2(4) == 0x10;
    Pow2Sum(4, 4);
    Pow2Sum(8, 8);
    Pow2Sum(16, 16);
  }

  lemma {:induction false} FromBytesConcat(xs: seq<Byte>, ys: seq<Byte>)
    ensures FromBytes(xs + ys) == FromBytes(xs) + BytesSpan(|xs|) * FromBytes(ys)
  {
    if xs == [] {
      assert xs + ys == ys;
    } else {
      assert (xs + ys)[1..] == xs[1..] + ys && (xs + ys)[0] == xs[0];
      FromBytesConcat(xs[1..], ys);
      TimesAssoc(0x100, BytesSpan(|xs| - 1), FromBytes(ys));
    }
  }

  lemma TimesAssoc(a: nat, b: nat, c: nat)
    ensures (a * b) * c == a * (b * c)
  {
  }

  /** The bytes of the registry words in memory, little-endian. */
  function Image(reg: seq<Word>): (img: seq<Byte>)
    ensures |img| == 4 * |reg|
  {
    if reg == [] then [] else ToBytes(reg[0], 4) + Image(reg[1..])
  }

  /** A 64-bit little-endian load. */
  function Load64(img: seq<Byte>, a: nat): nat
    requires a + 8 <= |img|
  {
    FromBytes(img[a..a + 8])
  }

  lemma {:induction false} ImageAt(reg: seq<Word>, j: nat)
    requires j + 2 <= |reg|
    ensures Image(reg)[4 * j..4 * j + 8] == ToBytes(reg[j], 4) + ToBytes(reg[j + 1], 4)
  {
    var rest := reg[1..];
    if j == 0 {
      assert Image(rest) == ToBytes(rest[0], 4) + Image(rest[1..]);
    } else {
      ImageAt(rest, j - 1);
      assert Image(reg)[4 * j..4 * j + 8] == Image(rest)[4 * (j - 1)..4 * (j - 1) + 8];
    }
  }

  /** Two adjacent 32-bit words read as one 64-bit word. */
  lemma Load64Is(reg: seq<Word>, j: nat)
    requires j + 2 <= |reg|
    ensures Load64(Image(reg), 4 * j) == reg[j] + WORD_SPAN * reg[j + 1]
  {
    ImageAt(reg, j);
    FromBytesConcat(ToBytes(reg[j], 4), ToBytes(reg[j + 1], 4));
    WordSpan();
    FromToBytes(reg[j], 4);
    FromToBytes(reg[j + 1], 4);
  }

  lemma Load64Bit(reg: seq<Word>, j: nat, b: nat)
    requires j + 2 <= |reg|
    ensures Bit(Load64(Image(reg), 4 * j), b) <==> if b < 32 then Bit(reg[j], b) else Bit(reg[j + 1], b - 32)
  {
    Load64Is(reg, j);
    Pow2Word();
    BitJoin(reg[j], reg[j + 1], 32, b);
  }

  /**
    The four 64-bit loads of a window, taken from the bytes of the registry,
    show exactly the bits of its 32-bit words.
   */
  lemma WindowLoads(reg: seq<Word>, base: nat, off: nat)
    requires base % WINDOW == 0 && base / 32 + 8 <= |reg| && off < WINDOW
    ensures 4 * (base / 32) + 8 * (off / 64) + 8 <= |Image(reg)| && (base + off) / 32 < |reg|
    ensures Bit(Load64(Image(reg), 4 * (base / 32) + 8 * (off / 64)), off % 64) <==>
            Bit(reg[(base + off) / 32], (base + off) % 32)
  {
    var j := base / 32 + 2 * (off / 64);
    Place(base, off, j);
    Load64Bit(reg, j, off % 64);
  }

  /** The set view of two words is the set of bits of their 64-bit load. */
  lemma ViewIsLoad(reg: seq<Word>, j: nat)
    requires j + 2 <= |reg|
    ensures View64(BitsOf(reg[j], 32), BitsOf(reg[j + 1], 32)) == BitsOf(Load64(Image(reg), 4 * j), 64)
  {
    var v := Load64(Image(reg), 4 * j);
    forall b: nat ensures Bit(v, b) <==> if b < 32 then Bit(reg[j], b) else Bit(reg[j + 1], b - 32) {
      Load64Bit(reg, j, b);
    }
    ViewJoin(reg[j], reg[j + 1], v);
  }

  lemma ViewJoin(x: nat, y: nat, v: nat)
    requires forall b: nat :: Bit(v, b) <==> if b < 32 then Bit(x, b) else Bit(y, b - 32)
    ensures View64(BitsOf(x, 32), BitsOf(y, 32)) == BitsOf(v, 64)
  {
    var lo, hi := BitsOf(x, 32), BitsOf(y, 32);
    forall b: nat ensures b in View64(lo, hi) <==> b in BitsOf(v, 64) {
      assert Bit(v, b) <==> if b < 32 then Bit(x, b) else Bit(y, b - 32);
      if b < 64 {
        ViewBit(lo, hi, b);
      }
    }
  }

  /** Mask of the blocks of [kStart, kEnd] that lie in the window at `base`. */
  method BuildMaskWindow(addr: Word, len: nat, base: nat) returns (r: Option<seq<Bits>>)
    ensures r.Some? ==> |r.value| == 4 && forall i :: 0 <= i < 4 ==> Wide(r.value[i], 64)
    ensures r.Some? <==> exists k: nat :: InRange(addr, len, k) && base <= k < base + WINDOW
    ensures r.Some? ==> forall off :: 0 <= off < WINDOW ==> (Bit256(r.value, off) <==> InRange(addr, len, base + off))
  {
    if len == 0 {
      return None;
    }
    var kStart := addr / BLOCK;
    var kEnd := kStart + len - 1;
    var winStart := if kStart >= base then kStart else base;
    var winEnd := if kEnd <= base + 255 then kEnd else base + 255;
    if winStart > winEnd {
      return None;
    }
    assert InRange(addr, len, winStart);
    var mask: seq<Bits> := [{}, {}, {}, {}];
    var k := winStart;
    while k <= winEnd
      invariant winStart <= k <= winEnd + 1 && |mask| == 4
      invariant forall i :: 0 <= i < 4 ==> Wide(mask[i], 64)
      invariant forall off :: 0 <= off < WINDOW ==> (Bit256(mask, off) <==> winStart <= base + off < k)
    {
      ghost var before := mask;
      var off := k - base;
      mask := mask[off / 64 := mask[off / 64] + {off % 64}];
      forall o | 0 <= o < WINDOW ensures Bit256(mask, o) <==> Bit256(before, o) || o == off {
        if o != off && o / 64 == off / 64 {
          assert o % 64 != off % 64;
        }
      }
      k := k + 1;
    }
    return Some(mask);
  }

  /** Block `k` belongs to the `len` blocks starting at `addr`. */
  predicate InRange(addr: Word, len: nat, k: nat) {
    addr / 4096 <= k < addr / 4096 + len
  }

  /** `(v & m) == m` on each of the four words. */
  predicate VerifyVector(v: seq<Bits>, m: seq<Bits>)
    requires |v| == 4 && |m| == 4
  {
    v[0] * m[0] == m[0] && v[1] * m[1] == m[1] && v[2] * m[2] == m[2] && v[3] * m[3] == m[3]
  }

  lemma VerifyVectorMeans(v: seq<Bits>, m: seq<Bits>)
    requires |v| == 4 && |m| == 4 && forall i :: 0 <= i < 4 ==> Wide(m[i], 64)
    ensures VerifyVector(v, m) <==> forall off :: 0 <= off < WINDOW && Bit256(m, off) ==> Bit256(v, off)
  {
    if forall off :: 0 <= off < WINDOW && Bit256(m, off) ==> Bit256(v, off) {
      forall i, b | 0 <= i < 4 && b in m[i] ensures b in v[i] {
        var off := 64 * i + b;
        assert off / 64 == i && off % 64 == b;
        assert Bit256(m, off);
      }
    }
    if VerifyVector(v, m) {
      forall off | 0 <= off < WINDOW && Bit256(m, off) ensures Bit256(v, off) {
        var i := off / 64;
        assert v[i] * m[i] == m[i];
      }
    }
  }

  /**
    The window-decomposed check.  The vector must cover every window the range
    touches, and its blocks must be countable in 32 bits.  The answer is the
    plain per-block check.
   */
  method VerifyRangeContiguous(reg: seq<Bits>, addr: Word, len: nat) returns (ok: bool)
    requires IsVector(reg) && 32 * |reg| <= WORD_SPAN
    requires len > 0 ==> ((addr / BLOCK + len - 1) / WINDOW + 1) * 8 <= |reg|
    ensures ok <==> forall k: nat :: InRange(addr, len, k) ==> IsSet(reg, k)
  {
    if len == 0 {
      return true;
    }
    var kStart := addr / BLOCK;
    var kEnd := kStart + len - 1;
    var win := kStart - kStart % WINDOW;
    while win <= kEnd
      invariant win % WINDOW == 0
      invariant forall k: nat :: InRange(addr, len, k) && k < win ==> IsSet(reg, k)
      decreases kEnd + WINDOW - win
    {
      assert win / WINDOW <= kEnd / WINDOW;
      var r := BuildMaskWindow(addr, len, win);
      if r.Some? {
        var v := WindowOf(reg, win);
        VerifyVectorMeans(v, r.value);
        forall off | 0 <= off < WINDOW ensures Bit256(v, off) <==> IsSet(reg, win + off) {
          WindowBits(reg, win, off);
        }
        if !VerifyVector(v, r.value) {
          ghost var off :| 0 <= off < WINDOW && Bit256(r.value, off) && !Bit256(v, off);
          assert InRange(addr, len, win + off) && !IsSet(reg, win + off);
          return false;
        }
        forall k: nat | InRange(addr, len, k) && k < win + WINDOW ensures IsSet(reg, k) {
          if k >= win {
            assert Bit256(r.value, k - win);
          }
        }
      }
      win := win + WINDOW;
    }
    return true;
  }

  /** The scalar predicate on the window that holds the block. */
  predicate VerifyScalar(addr: Word, window: seq<Bits>)
    requires |window| == 4
  {
    Bit256(window, addr / BLOCK % WINDOW)
  }

  /** Scalar and vector paths answer alike for a single block. */
  lemma ScalarIsPlain(reg: seq<Bits>, addr: Word)
    requires IsVector(reg) && (addr / 4096 / WINDOW + 1) * 8 <= |reg|
    ensures var k := addr / 4096;
            var base := k - k % WINDOW;
            base / 32 + 8 <= |reg| && (VerifyScalar(addr, WindowOf(reg, base)) <==> IsSet(reg, k))
  {
    var k := addr / BLOCK;
    var base := k - k % WINDOW;
    assert base == WINDOW * (k / WINDOW);
    WindowBits(reg, base, k % WINDOW);
  }

  // ---------------------------------------------------------------------
  // The registry
  // ---------------------------------------------------------------------

  const MAX_RESOURCES := 256
  const WORDS := MAX_RESOURCES / 32

  /** `fetch_or` of one bit: the new words, and whether the bit was clear. */
  function Acquire(bits: seq<Bits>, id: nat): (r: (seq<Bits>, bool))
    ensures |r.0| == |bits|
    ensures r.1 <==> id / 32 < |bits| && !IsSet(bits, id)
    ensures forall j: nat :: IsSet(r.0, j) <==> IsSet(bits, j) || (j == id && id / 32 < |bits|)
  {
    if id / 32 < |bits| then
      (bits[id / 32 := bits[id / 32] + {id % 32}], id % 32 !in bits[id / 32])
    else (bits, false)
  }

  /** `fetch_and` of the complement of one bit. */
  function Release(bits: seq<Bits>, id: nat): (r: seq<Bits>)
    ensures |r| == |bits|
    ensures forall j: nat :: IsSet(r, j) <==> IsSet(bits, j) && j != id
  {
    if id / 32 < |bits| then bits[id / 32 := bits[id / 32] - {id % 32}] else bits
  }

  class Registry {
    var bits: seq<Bits>

    constructor ()
      ensures |bits| == 8 && forall j: nat :: !IsSet(bits, j)
    {
      bits := seq(WORDS, _ => {});
    }

    method TryAcquire(id: nat) returns (won: bool)
      modifies this
      ensures (bits, won) == Acquire(old(bits), id)
    {
      var word, bit := id / 32, id % 32;
      if word >= |bits| {
        return false;
      }
      var prev := bits[word];
      bits := bits[word := prev + {bit}];
      won := prev * {bit} == {};
      assert bit in prev ==> bit in prev * {bit};
      assert bit !in prev ==> prev * {bit} == {};
    }

    method Free(id: nat)
      modifies this
      ensures bits == Release(old(bits), id)
    {
      if id / 32 < |bits| {
        bits := bits[id / 32 := bits[id / 32] - {id % 32}];
      }
    }

    /** False also for ids the registry does not track. */
    method Available(id: nat) returns (free: bool)
      ensures free <==> id / 32 < |bits| && !IsSet(bits, id)
    {
      free := id / 32 < |bits| && id % 32 !in bits[id / 32];
    }
  }

  // ---------------------------------------------------------------------
  // Linear tokens
  // ---------------------------------------------------------------------

  /** Registry words, and the live tokens held by all agents together. */
  datatype World = World(bits: seq<Bits>, live: multiset<nat>)

  datatype Op = Claim(id: nat) | DropCap(id: nat)

  /** `claim` mints a token when the bit was won; `drop_cap` consumes one. */
  ghost function Perform(w: World, op: Op): World {
    match op
    case Claim(id) =>
      var (bits, won) := Acquire(w.bits, id);
      World(bits, if won then w.live + multiset{id} else w.live)
    case DropCap(id) =>
      // Without a token in hand the call cannot be written.
      if id in w.live then World(Release(w.bits, id), w.live - multiset{id}) else w
  }

  ghost function PerformAll(w: World, ops: seq<Op>): World
    decreases |ops|
  {
    if ops == [] then w else PerformAll(Perform(w, ops[0]), ops[1..])
  }

  /** A bit is set exactly when one token for it is live; never more than one. */
  ghost predicate Linear(w: World) {
    forall id: nat :: w.live[id] == if IsSet(w.bits, id) then 1 else 0
  }

  lemma StepKeepsLinear(w: World, op: Op)
    requires Linear(w)
    ensures Linear(Perform(w, op))
  {
    var w1 := Perform(w, op);
    forall id: nat ensures w1.live[id] == if IsSet(w1.bits, id) then 1 else 0 {
      assert w.live[id] == if IsSet(w.bits, id) then 1 else 0;
    }
  }

  /** No step on one resource touches the bit of another. */
  lemma StepIsLocal(w: World, op: Op, other: nat)
    requires other != op.id
    ensures IsSet(Perform(w, op).bits, other) <==> IsSet(w.bits, other)
  {
  }

  /** Over every interleaving of claims and drops from a fresh registry. */
  lemma {:induction false} TokensStayLinear(w: World, ops: seq<Op>)
    requires Linear(w)
    ensures Linear(PerformAll(w, ops))
    decreases |ops|
  {
    if ops != [] {
      StepKeepsLinear(w, ops[0]);
      TokensStayLinear(Perform(w, ops[0]), ops[1..]);
    }
  }

  /** A claim mints a token exactly when the resource is tracked and nobody holds it. */
  lemma ClaimWins(w: World, id: nat)
    requires Linear(w) && |w.bits| == 8
    ensures Perform(w, Claim(id)).live ==
            if id < 256 && id !in w.live then w.live + multiset{id} else w.live
  {
    assert w.live[id] == if IsSet(w.bits, id) then 1 else 0;
  }

  /** Dropping a live token clears its bit and consumes it; no other token is affected. */
  lemma DropFrees(w: World, id: nat)
    requires Linear(w) && id in w.live
    ensures var w1 := Perform(w, DropCap(id));
            !IsSet(w1.bits, id) && id !in w1.live && w1.live + multiset{id} == w.live
  {
    assert w.live[id] == if IsSet(w.bits, id) then 1 else 0;
  }

  /** Claim, drop, claim: the resource is won both times, and in between it is as if never claimed. */
  lemma ClaimDropClaim(w: World, id: nat)
    requires Linear(w) && |w.bits| == 8 && id < 256 && id !in w.live
    ensures var w1 := Perform(w, Claim(id));
            var w2 := Perform(w1, DropCap(id));
            && w1.live == w.live + multiset{id} && IsSet(w1.bits, id)
            && w2.live == w.live && (forall k: nat :: IsSet(w2.bits, k) <==> IsSet(w.bits, k))
            && Perform(w2, Claim(id)).live == w.live + multiset{id}
  {
    assert w.live[id] == if IsSet(w.bits, id) then 1 else 0;
    StepKeepsLinear(w, Claim(id));
    DropFrees(Perform(w, Claim(id)), id);
  }

  // ---------------------------------------------------------------------
  // Access check (ARM memory map)
  // ---------------------------------------------------------------------

  const SUPERUSER := 31

  function AddrToCapId(addr: Word): Option<nat> {
    if 0x4002_0000 <= addr <= 0x4002_03FF then Some(0)
    else if 0x4002_0400 <= addr <= 0x4002_07FF then Some(1)
    else if 0x4001_1000 <= addr <= 0x4001_13FF then Some(2)
    else if 0x4001_3000 <= addr <= 0x4001_33FF then Some(3)
    else if 0x4001_5400 <= addr <= 0x4001_57FF then Some(4)
    else if 0x4000_0000 <= addr <= 0x4000_03FF then Some(5)
    else if 0x4000_2000 <= addr <= 0x4000_23FF then Some(6)
    else None
  }

  predicate RamOrFlash(addr: Word) {
    0x0800_0000 <= addr <= 0x080F_FFFF || 0x2000_0000 <= addr <= 0x2001_C000
  }

  /** The definition-time gate. */
  predicate CheckAccess(bits: seq<Bits>, addr: Word) {
    || IsSet(bits, SUPERUSER)
    || (match AddrToCapId(addr)
        case Some(id) => IsSet(bits, id)
        case None => RamOrFlash(addr))
  }

  /** The resource `id` is the peripheral at this address. */
  predicate Owns(id: nat, addr: Word) {
    || (id == 0 && 0x4002_0000 <= addr <= 0x4002_03FF)  // GPIO A
    || (id == 1 && 0x4002_0400 <= addr <= 0x4002_07FF)  // GPIO B
    || (id == 2 && 0x4001_1000 <= addr <= 0x4001_13FF)  // UART 0
    || (id == 3 && 0x4001_3000 <= addr <= 0x4001_33FF)  // SPI 0
    || (id == 4 && 0x4001_5400 <= addr <= 0x4001_57FF)  // I2C 0
    || (id == 5 && 0x4000_0000 <= addr <= 0x4000_03FF)  // timer 0
    || (id == 6 && 0x4000_2000 <= addr <= 0x4000_23FF)  // DMA 0
  }

  /** Flash and SRAM, which nobody has to claim. */
  predicate Unguarded(addr: Word) {
    0x0800_0000 <= addr <= 0x080F_FFFF || 0x2000_0000 <= addr <= 0x2001_C000
  }

  /**
    What the gate lets through: everything while the super-user bit 31 is set;
    a peripheral exactly while its own bit is set; otherwise flash and SRAM, and
    nothing else.
   */
  lemma GateMeans(bits: seq<Bits>, addr: Word)
    ensures IsSet(bits, 31) ==> CheckAccess(bits, addr)
    ensures !IsSet(bits, 31) ==> forall id: nat :: Owns(id, addr) ==> (CheckAccess(bits, addr) <==> IsSet(bits, id))
    ensures !IsSet(bits, 31) && (forall id: nat :: !Owns(id, addr)) ==> (CheckAccess(bits, addr) <==> Unguarded(addr))
  {
    var r := AddrToCapId(addr);
    assert r.Some? ==> Owns(r.value, addr);
  }

  /** Some claimed resource allows the access, or none is needed. */
  ghost predicate Permitted(bits: seq<Bits>, addr: Word) {
    IsSet(bits, 31) || Unguarded(addr) || exists id: nat :: Owns(id, addr) && IsSet(bits, id)
  }

  lemma GateExact(bits: seq<Bits>, addr: Word)
    ensures CheckAccess(bits, addr) <==> Permitted(bits, addr)
  {
    GateMeans(bits, addr);
  }

  /** Somebody may access this address: by its token, by the super-user's, or because it is flash or SRAM. */
  ghost predicate Entitled(live: multiset<nat>, addr: Word) {
    31 in live || Unguarded(addr) || exists id: nat :: Owns(id, addr) && id in live
  }

  /** Over every interleaving of claims and drops, an address passes exactly while somebody is entitled to it. */
  lemma GateFollowsTokens(w: World, ops: seq<Op>, addr: Word)
    requires Linear(w)
    ensures var w1 := PerformAll(w, ops); CheckAccess(w1.bits, addr) <==> Entitled(w1.live, addr)
  {
    TokensStayLinear(w, ops);
    var w1 := PerformAll(w, ops);
    GateExact(w1.bits, addr);
    forall id: nat ensures IsSet(w1.bits, id) <==> id in w1.live {
      assert w1.live[id] == if IsSet(w1.bits, id) then 1 else 0;
    }
  }

  /** Claiming a peripheral opens its addresses and dropping it closes them; no other address is affected. */
  lemma ClaimOpens(bits: seq<Bits>, id: nat, addr: Word)
    requires id < 31 && id / 32 < |bits| && !IsSet(bits, 31)
    ensures Owns(id, addr) ==> CheckAccess(Acquire(bits, id).0, addr) && !CheckAccess(Release(bits, id), addr)
    ensures !Owns(id, addr) ==> (CheckAccess(Acquire(bits, id).0, addr) <==> CheckAccess(bits, addr))
    ensures !Owns(id, addr) ==> (CheckAccess(Release(bits, id), addr) <==> CheckAccess(bits, addr))
  {
    GateMeans(Acquire(bits, id).0, addr);
    GateMeans(Release(bits, id), addr);
  }
}

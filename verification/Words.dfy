/**
  Machine words and byte-addressed memory shared by every component.

  On both real targets `usize` is 32 bits, so a stream word, a register and a
  bus value are all `Word`.  Wrap-around is written out as `% WORD_SPAN`.
 */
module Words {

  const WORD_SPAN := 0x1_0000_0000

  type Byte = x: int | 0 <= x < 0x100
  type Half = x: int | 0 <= x < 0x1_0000
  type Word = x: int | 0 <= x < 0x1_0000_0000

  datatype Option<+T> = None | Some(value: T)

  datatype Result<+T, +E> = Ok(value: T) | Err(error: E)

  /** Sparse little-endian memory; a byte that was never written reads as 0. */
  type Memory = map<nat, Byte>

  function ByteAt(m: Memory, a: nat): Byte {
    if a in m then m[a] else 0
  }

  /** Number of values `n` bytes can hold. */
  function BytesSpan(n: nat): nat {
    if n == 0 then 1 else 0x100 * BytesSpan(n - 1)
  }

  /** Little-endian value of some bytes. */
  function FromBytes(bs: seq<Byte>): (v: nat)
    ensures v < BytesSpan(|bs|)
  {
    if bs == [] then 0 else bs[0] + 0x100 * FromBytes(bs[1..])
  }

  /** The `n` little-endian bytes of `v`. */
  function ToBytes(v: nat, n: nat): (bs: seq<Byte>)
    ensures |bs| == n
  {
    if n == 0 then [] else [v % 0x100] + ToBytes(v / 0x100, n - 1)
  }

  lemma {:induction false} FromToBytes(v: nat, n: nat)
    requires v < BytesSpan(n)
    ensures FromBytes(ToBytes(v, n)) == v
  {
    if n > 0 {
      FromToBytes(v / 0x100, n - 1);
      assert ToBytes(v, n)[1..] == ToBytes(v / 0x100, n - 1);
    }
  }

  lemma WordSpan()
    ensures BytesSpan(4) == WORD_SPAN
  {
    assert BytesSpan(2) == 0x1_0000;
  }

  lemma FourValue(b0: Byte, b1: Byte, b2: Byte, b3: Byte)
    ensures FromBytes([b0, b1, b2, b3]) == b0 + 0x100 * b1 + 0x1_0000 * b2 + 0x100_0000 * b3
  {
    var s3: seq<Byte>, s2: seq<Byte>, s1: seq<Byte> := [b3], [b2, b3], [b1, b2, b3];
    var s0: seq<Byte> := [b0, b1, b2, b3];
    assert s3[1..] == [] && s2[1..] == s3 && s1[1..] == s2 && s0[1..] == s1;
    assert FromBytes(s3) == b3;
    assert FromBytes(s2) == b2 + 0x100 * FromBytes(s3);
    assert FromBytes(s1) == b1 + 0x100 * FromBytes(s2);
    assert FromBytes(s0) == b0 + 0x100 * FromBytes(s1);
  }

  function FourBytes(m: Memory, a: nat): seq<Byte> {
    [ByteAt(m, a), ByteAt(m, a + 1), ByteAt(m, a + 2), ByteAt(m, a + 3)]
  }

  function Load32(m: Memory, a: nat): Word {
    WordSpan();
    FromBytes(FourBytes(m, a))
  }

  function Store32(m: Memory, a: nat, v: Word): Memory {
    var bs := ToBytes(v, 4);
    m[a := bs[0]][a + 1 := bs[1]][a + 2 := bs[2]][a + 3 := bs[3]]
  }

  /** A word read back from where it was stored is the word stored. */
  lemma LoadAfterStore(m: Memory, a: nat, v: Word)
    ensures Load32(Store32(m, a, v), a) == v
  {
    WordSpan();
    FromToBytes(v, 4);
    assert FourBytes(Store32(m, a, v), a) == ToBytes(v, 4);
  }

  lemma TimesGrows(k: nat, a: nat, b: nat)
    requires a < b
    ensures k * a + k <= k * b
  {
    var d := b - a - 1;
    assert k * b == k * (a + 1 + d) == k * a + k + k * d;
  }

  /** Taking a number apart at a known place. */
  lemma SplitAt(k: nat, q: nat, r: nat)
    requires r < k
    ensures (k * q + r) / k == q && (k * q + r) % k == r
  {
    var x := k * q + r;
    var z := x / k;
    assert x == k * z + x % k;
    if z < q {
      TimesGrows(k, z, q);
    } else if q < z {
      TimesGrows(k, q, z);
    }
  }

  lemma Assoc<T>(a: seq<T>, b: seq<T>, c: seq<T>)
    ensures (a + b) + c == a + (b + c)
  {
  }

  /** `code` sits in `words` at `ip`. */
  ghost predicate Sits<T>(words: seq<T>, ip: nat, code: seq<T>) {
    ip + |code| <= |words| && words[ip..ip + |code|] == code
  }

  lemma SitsSplit<T>(words: seq<T>, ip: nat, a: seq<T>, b: seq<T>)
    requires Sits(words, ip, a + b)
    ensures Sits(words, ip, a) && Sits(words, ip + |a|, b)
  {
    assert words[ip..ip + |a|] == words[ip..ip + |a + b|][..|a|] == a;
    assert words[ip + |a|..ip + |a| + |b|] == words[ip..ip + |a + b|][|a|..] == b;
  }

  lemma SitsAt<T>(words: seq<T>, ip: nat, code: seq<T>, k: nat)
    requires Sits(words, ip, code) && k < |code|
    ensures words[ip + k] == code[k]
  {
    assert words[ip + k] == words[ip..ip + |code|][k];
  }

  // ---------------------------------------------------------------------
  // The bus: what is attached to the address space, and the accesses so far
  // ---------------------------------------------------------------------

  datatype Access = Read(addr: Word) | Write(addr: Word, value: Word)

  /**
    Whatever answers reads: plain RAM, or peripherals whose registers react to
    being read and written.  The answer may depend on every earlier access.
   */
  type Device = (seq<Access>, Word) -> Word

  datatype Bus = Bus(dev: Device, trace: seq<Access>) {
    function Peek(a: Word): Word {
      dev(trace, a)
    }

    function AfterRead(a: Word): Bus {
      this.(trace := trace + [Read(a)])
    }

    function AfterWrite(a: Word, v: Word): Bus {
      this.(trace := trace + [Write(a, v)])
    }
  }

  /** Memory contents after a history of accesses. */
  function Replay(m: Memory, trace: seq<Access>): Memory {
    if trace == [] then m
    else
      var before := Replay(m, trace[..|trace| - 1]);
      match trace[|trace| - 1]
      case Read(_) => before
      case Write(a, v) => Store32(before, a, v)
  }

  /** Plain RAM as a device. */
  function Ram(m: Memory): Device {
    (trace, a) => Load32(Replay(m, trace), a)
  }

  lemma RamIs(m: Memory, trace: seq<Access>, a: Word)
    ensures Bus(Ram(m), trace).Peek(a) == Load32(Replay(m, trace), a)
  {
  }

  /** On plain RAM a read returns what was last written there. */
  lemma RamReadsBack(m: Memory, trace: seq<Access>, a: Word, v: Word)
    ensures Bus(Ram(m), trace).AfterWrite(a, v).Peek(a) == v
    ensures Bus(Ram(m), []).Peek(a) == Load32(m, a)
  {
    var after := trace + [Write(a, v)];
    assert after[..|after| - 1] == trace;
    assert Replay(m, after) == Store32(Replay(m, trace), a, v);
    LoadAfterStore(Replay(m, trace), a, v);
    RamIs(m, after, a);
    RamIs(m, [], a);
    assert Replay(m, []) == m;
  }
}

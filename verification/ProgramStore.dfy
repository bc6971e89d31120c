/**
  The program store (src/drivers/pstore.rs): named function bodies in a fixed
  window of byte-addressed RAM, written with unaligned, overlapping 32-bit
  stores.
 */
module ProgramStore {
  import opened Words

  const NAME_MAX := 16
  const SLOT_WORDS := 64
  const STRIDE := NAME_MAX + 1 + 4 + SLOT_WORDS * 4

  datatype StoreError = NoStore | NotFound | Full | TooLarge

  /** The linker symbols that bound the window. */
  datatype Window = Window(base: nat, top: nat) {
    function SlotAddr(idx: nat): Option<nat> {
      if base == 0 || top == 0 || top <= base then None else Some(base + idx * STRIDE)
    }
  }

  /** Slots lie 277 bytes apart, from the start of the window, if there is a window. */
  lemma SlotPlaces(win: Window, i: nat)
    ensures win.SlotAddr(i) == None <==> win.base == 0 || win.top <= win.base
    ensures win.SlotAddr(i).Some? ==> win.SlotAddr(i).value == win.base + 277 * i
  {
  }

  /** Bytes a record of `n` words spans from its slot address. */
  function Span(n: nat): nat {
    24 + 4 * n
  }

  /** The `n` bytes from `a` on. */
  function Bytes(m: Memory, a: nat, n: nat): seq<Byte>
    ensures |Bytes(m, a, n)| == n
  {
    if n == 0 then [] else Bytes(m, a, n - 1) + [ByteAt(m, a + n - 1)]
  }

  /** The `n` consecutive words from `a` on. */
  function WordsFrom(m: Memory, a: nat, n: nat): seq<Word>
    ensures |WordsFrom(m, a, n)| == n
  {
    if n == 0 then [] else WordsFrom(m, a, n - 1) + [Load32(m, a + 4 * (n - 1))]
  }

  /** The record (name, words) lies at `addr`. */
  ghost predicate Holds(m: Memory, addr: nat, name: seq<Byte>, words: seq<Word>) {
    && Load32(m, addr) == |name| && Bytes(m, addr + 4, |name|) == name
    && Load32(m, addr + 20) == |words| && WordsFrom(m, addr + 24, |words|) == words
  }

  /** The two memories agree on [lo, hi). */
  ghost predicate SameBytes(m: Memory, n: Memory, lo: nat, hi: nat) {
    forall b :: lo <= b < hi ==> ByteAt(m, b) == ByteAt(n, b)
  }

  /** The two memories agree everywhere but on [lo, hi). */
  ghost predicate SameOutside(m: Memory, n: Memory, lo: nat, hi: nat) {
    forall b: nat :: b < lo || b >= hi ==> ByteAt(m, b) == ByteAt(n, b)
  }

  lemma StoreEffect(m: Memory, a: nat, v: Word)
    ensures SameOutside(m, Store32(m, a, v), a, a + 4)
    ensures Load32(Store32(m, a, v), a) == v
    ensures ByteAt(Store32(m, a, v), a) == v % 0x100
  {
    LoadAfterStore(m, a, v);
  }

  lemma LoadSame(m: Memory, n: Memory, a: nat)
    requires SameBytes(m, n, a, a + 4)
    ensures Load32(m, a) == Load32(n, a)
  {
    assert FourBytes(m, a) == FourBytes(n, a);
  }

  lemma ModLow(b: nat, k: nat)
    requires b < 0x100
    ensures (b + 0x100 * k) % 0x100 == b
  {
  }

  /** The low byte of a word is the byte at its address. */
  lemma LowByte(m: Memory, a: nat)
    ensures Load32(m, a) % 0x100 == ByteAt(m, a)
  {
    ModLow(ByteAt(m, a), FromBytes(FourBytes(m, a)[1..]));
    assert FourBytes(m, a)[0] == ByteAt(m, a);
  }

  lemma {:induction false} BytesSame(m: Memory, n: Memory, a: nat, k: nat)
    requires SameBytes(m, n, a, a + k)
    ensures Bytes(m, a, k) == Bytes(n, a, k)
  {
    if k > 0 {
      BytesSame(m, n, a, k - 1);
    }
  }

  lemma {:induction false} WordsSame(m: Memory, n: Memory, a: nat, k: nat)
    requires SameBytes(m, n, a, a + 4 * k)
    ensures WordsFrom(m, a, k) == WordsFrom(n, a, k)
  {
    if k > 0 {
      WordsSame(m, n, a, k - 1);
      LoadSame(m, n, a + 4 * (k - 1));
    }
  }

  // ---------------------------------------------------------------------
  // Loading, as a function of memory
  // ---------------------------------------------------------------------

  /** `buf` with its first entries overwritten by `xs`, as far as they fit. */
  function Over<T>(xs: seq<T>, buf: seq<T>): seq<T> {
    if |xs| <= |buf| then xs + buf[|xs|..] else xs[..|buf|]
  }

  /** What a load leaves in the caller's buffers, and its result. */
  datatype Loaded = Loaded(result: Result<nat, StoreError>, name: seq<Byte>, words: seq<Word>)

  function LoadAt(m: Memory, addr: nat, name: seq<Byte>, words: seq<Word>): Loaded {
    var nameLen := Load32(m, addr);
    if nameLen == 0 || nameLen > 16 then Loaded(Err(NotFound), name, words)
    else LoadBody(m, addr, Over(Bytes(m, addr + 4, nameLen), name), words)
  }

  function LoadBody(m: Memory, addr: nat, name: seq<Byte>, words: seq<Word>): Loaded {
    var count := Load32(m, addr + 20);
    if count > 64 || count > |words| then Loaded(Err(TooLarge), name, words)
    else Loaded(Ok(count), name, Over(WordsFrom(m, addr + 24, count), words))
  }

  function LoadSlot(m: Memory, win: Window, idx: nat, name: seq<Byte>, words: seq<Word>): Loaded {
    match win.SlotAddr(idx)
    case None => Loaded(Err(NoStore), name, words)
    case Some(addr) => LoadAt(m, addr, name, words)
  }

  /** The first `i` bytes of `name` are in place, and nothing before them changed. */
  ghost predicate NameSoFar(first: Memory, m: Memory, addr: nat, name: seq<Byte>, i: nat)
    requires i <= |name|
  {
    SameOutside(first, m, addr + 4, addr + 24) && Bytes(m, addr + 4, i) == name[..i]
  }

  lemma NameStep(first: Memory, m: Memory, n: Memory, addr: nat, name: seq<Byte>, i: nat)
    requires i < |name| <= 16 && NameSoFar(first, m, addr, name, i)
    requires SameOutside(m, n, addr + 4 + i, addr + 4 + i + 4) && ByteAt(n, addr + 4 + i) == name[i]
    ensures NameSoFar(first, n, addr, name, i + 1)
  {
    BytesSame(m, n, addr + 4, i);
  }

  /** The first `i` words are in place, and nothing outside them changed. */
  ghost predicate WordsSoFar(first: Memory, m: Memory, a: nat, words: seq<Word>, i: nat)
    requires i <= |words|
  {
    SameOutside(first, m, a, a + 4 * i) && WordsFrom(m, a, i) == words[..i]
  }

  lemma WordStep(first: Memory, m: Memory, n: Memory, a: nat, words: seq<Word>, i: nat)
    requires i < |words| && WordsSoFar(first, m, a, words, i)
    requires SameOutside(m, n, a + 4 * i, a + 4 * i + 4) && Load32(n, a + 4 * i) == words[i]
    ensures WordsSoFar(first, n, a, words, i + 1)
  {
    WordsSame(m, n, a, i);
  }

  lemma WordsDone(before: Memory, first: Memory, m: Memory, addr: nat, words: seq<Word>)
    requires SameOutside(before, first, addr + 20, addr + 24) && Load32(first, addr + 20) == |words|
    requires WordsSoFar(first, m, addr + 24, words, |words|)
    ensures SameOutside(before, m, addr + 20, addr + Span(|words|))
    ensures Load32(m, addr + 20) == |words| && WordsFrom(m, addr + 24, |words|) == words
  {
    LoadSame(first, m, addr + 20);
  }

  lemma RecordDone(before: Memory, named: Memory, m: Memory, addr: nat, name: seq<Byte>, words: seq<Word>)
    requires |name| <= 16
    requires SameOutside(before, named, addr, addr + 24)
    requires Load32(named, addr) == |name| && Bytes(named, addr + 4, |name|) == name
    requires SameOutside(named, m, addr + 20, addr + Span(|words|))
    requires Load32(m, addr + 20) == |words| && WordsFrom(m, addr + 24, |words|) == words
    ensures Holds(m, addr, name, words)
    ensures SameOutside(before, m, addr, addr + Span(|words|))
  {
    LoadSame(named, m, addr);
    BytesSame(named, m, addr + 4, |name|);
  }

  lemma OverStep<T>(xs: seq<T>, x: T, buf: seq<T>)
    requires |xs| < |buf|
    ensures Over(xs, buf)[|xs| := x] == Over(xs + [x], buf)
  {
  }

  lemma ReadByteStep(m: Memory, a: nat, i: nat, buf: seq<Byte>)
    requires i < |buf|
    ensures Over(Bytes(m, a, i), buf)[i := ByteAt(m, a + i)] == Over(Bytes(m, a, i + 1), buf)
  {
    OverStep(Bytes(m, a, i), ByteAt(m, a + i), buf);
  }

  lemma ReadWordStep(m: Memory, a: nat, i: nat, buf: seq<Word>)
    requires i < |buf|
    ensures Over(WordsFrom(m, a, i), buf)[i := Load32(m, a + 4 * i)] == Over(WordsFrom(m, a, i + 1), buf)
  {
    OverStep(WordsFrom(m, a, i), Load32(m, a + 4 * i), buf);
  }

  // ---------------------------------------------------------------------
  // The driver
  // ---------------------------------------------------------------------

  class Ram {
    var mem: Memory

    constructor (m: Memory)
      ensures mem == m
    {
      mem := m;
    }

    method PokeU32(a: nat, v: Word)
      modifies this
      ensures SameOutside(old(mem), mem, a, a + 4)
      ensures Load32(mem, a) == v && ByteAt(mem, a) == v % 0x100
    {
      StoreEffect(mem, a, v);
      mem := Store32(mem, a, v);
    }

    method PeekU32(a: nat) returns (v: Word)
      ensures v == Load32(mem, a)
    {
      v := Load32(mem, a);
    }

    /** The low byte of an unaligned 32-bit read. */
    method PeekByte(a: nat) returns (b: Byte)
      ensures b == ByteAt(mem, a)
    {
      var v := PeekU32(a);
      LowByte(mem, a);
      b := v % 0x100;
    }

    /** Length, then the bytes: each store clears the three bytes after its own. */
    method SaveName(addr: nat, name: seq<Byte>)
      requires |name| <= 16
      modifies this
      ensures SameOutside(old(mem), mem, addr, addr + 24)
      ensures Load32(mem, addr) == |name| && Bytes(mem, addr + 4, |name|) == name
    {
      PokeU32(addr, |name|);
      ghost var first := mem;
      var i := 0;
      while i < |name|
        invariant i <= |name| && NameSoFar(first, mem, addr, name, i)
      {
        ghost var before := mem;
        PokeU32(addr + 4 + i, name[i]);
        NameStep(first, before, mem, addr, name, i);
        i := i + 1;
      }
      LoadSame(first, mem, addr);
    }

    method SaveWord(a: nat, words: seq<Word>, i: nat, ghost first: Memory)
      requires i < |words| && WordsSoFar(first, mem, a, words, i)
      modifies this
      ensures WordsSoFar(first, mem, a, words, i + 1)
    {
      ghost var before := mem;
      PokeU32(a + 4 * i, words[i]);
      WordStep(first, before, mem, a, words, i);
    }

    method SaveWords(addr: nat, words: seq<Word>)
      requires |words| <= 64
      modifies this
      ensures SameOutside(old(mem), mem, addr + 20, addr + Span(|words|))
      ensures Load32(mem, addr + 20) == |words| && WordsFrom(mem, addr + 24, |words|) == words
    {
      PokeU32(addr + 20, |words|);
      ghost var first := mem;
      var i := 0;
      while i < |words|
        invariant i <= |words| && WordsSoFar(first, mem, addr + 24, words, i)
      {
        SaveWord(addr + 24, words, i, first);
        i := i + 1;
      }
      WordsDone(old(mem), first, mem, addr, words);
    }

    method Save(win: Window, idx: nat, name: seq<Byte>, words: seq<Word>) returns (r: Result<(), StoreError>)
      modifies this
      ensures r == if win.SlotAddr(idx).None? then Err(NoStore)
                   else if |name| > 16 || |words| > 64 then Err(TooLarge)
                   else Ok(())
      ensures r.Err? ==> mem == old(mem)
      ensures r.Ok? ==> var addr := win.SlotAddr(idx).value;
                        && Holds(mem, addr, name, words)
                        && SameOutside(old(mem), mem, addr, addr + Span(|words|))
    {
      var slot := win.SlotAddr(idx);
      if slot.None? {
        return Err(NoStore);
      }
      if |name| > NAME_MAX || |words| > SLOT_WORDS {
        return Err(TooLarge);
      }
      var addr := slot.value;
      SaveName(addr, name);
      ghost var named := mem;
      SaveWords(addr, words);
      RecordDone(old(mem), named, mem, addr, name, words);
      return Ok(());
    }

    method LoadName(addr: nat, n: nat, buf: seq<Byte>) returns (name: seq<Byte>)
      ensures name == Over(Bytes(mem, addr, n), buf)
    {
      name := buf;
      var i := 0;
      while i < |buf| && i < n
        invariant i <= |buf| && i <= n
        invariant name == Over(Bytes(mem, addr, i), buf)
      {
        var v := PeekByte(addr + i);
        ReadByteStep(mem, addr, i, buf);
        name := name[i := v];
        i := i + 1;
      }
      BytesPrefix(mem, addr, i, n);
    }

    method LoadWords(addr: nat, n: nat, buf: seq<Word>) returns (words: seq<Word>)
      requires n <= |buf|
      ensures words == Over(WordsFrom(mem, addr, n), buf)
    {
      words := buf;
      var i := 0;
      while i < n
        invariant i <= n
        invariant words == Over(WordsFrom(mem, addr, i), buf)
      {
        var v := PeekU32(addr + 4 * i);
        ReadWordStep(mem, addr, i, buf);
        words := words[i := v];
        i := i + 1;
      }
    }

    method LoadRecord(addr: nat, name: seq<Byte>, wordBuf: seq<Word>) returns (l: Loaded)
      ensures l == LoadBody(mem, addr, name, wordBuf)
    {
      var count := PeekU32(addr + 20);
      if count > SLOT_WORDS || count > |wordBuf| {
        return Loaded(Err(TooLarge), name, wordBuf);
      }
      var words := LoadWords(addr + 24, count, wordBuf);
      return Loaded(Ok(count), name, words);
    }

    method Load(win: Window, idx: nat, nameBuf: seq<Byte>, wordBuf: seq<Word>) returns (l: Loaded)
      ensures l == LoadSlot(mem, win, idx, nameBuf, wordBuf)
    {
      var slot := win.SlotAddr(idx);
      if slot.None? {
        return Loaded(Err(NoStore), nameBuf, wordBuf);
      }
      var nameLen := PeekU32(slot.value);
      if nameLen == 0 || nameLen > NAME_MAX {
        return Loaded(Err(NotFound), nameBuf, wordBuf);
      }
      var name := LoadName(slot.value + 4, nameLen, nameBuf);
      l := LoadRecord(slot.value, name, wordBuf);
    }
  }

  lemma {:induction false} BytesPrefix(m: Memory, a: nat, i: nat, n: nat)
    requires i <= n
    ensures Bytes(m, a, n)[..i] == Bytes(m, a, i)
    decreases n
  {
    if i < n {
      BytesPrefix(m, a, i, n - 1);
    }
  }

  // ---------------------------------------------------------------------
  // What the store promises
  // ---------------------------------------------------------------------

  /** A record that was saved is what a load into large enough buffers returns. */
  lemma LoadAfterSave(m: Memory, addr: nat, name: seq<Byte>, words: seq<Word>, nameBuf: seq<Byte>, wordBuf: seq<Word>)
    requires Holds(m, addr, name, words) && 1 <= |name| <= 16 && |words| <= 64
    requires |name| <= |nameBuf| && |words| <= |wordBuf|
    ensures var l := LoadAt(m, addr, nameBuf, wordBuf);
            l.result == Ok(|words|) && l.name[..|name|] == name && l.words[..|words|] == words
  {
  }

  /** A load depends on nothing outside the record it finds. */
  lemma LoadDependsOn(m: Memory, n: Memory, addr: nat, nameBuf: seq<Byte>, wordBuf: seq<Word>)
    requires SameBytes(m, n, addr, addr + Span(if Load32(m, addr + 20) <= 64 then Load32(m, addr + 20) else 0))
    ensures LoadAt(m, addr, nameBuf, wordBuf) == LoadAt(n, addr, nameBuf, wordBuf)
  {
    LoadSame(m, n, addr);
    LoadSame(m, n, addr + 20);
    var nameLen, count := Load32(m, addr), Load32(m, addr + 20);
    if 0 < nameLen <= 16 {
      BytesSame(m, n, addr + 4, nameLen);
      if count <= 64 {
        WordsSame(m, n, addr + 24, count);
      }
    }
  }

  /**
    Saving `n` words in slot i leaves slot j's load alone, unless n is 64 and j
    is the slot after i, or slot j itself holds 64 words and i is the slot
    after j: a 64-word record is three bytes longer than its slot.
   */
  lemma SlotsIndependent(win: Window, m: Memory, after: Memory, i: nat, j: nat, n: nat,
                         nameBuf: seq<Byte>, wordBuf: seq<Word>)
    requires win.SlotAddr(0).Some? && i != j && n <= 64
    requires SameOutside(m, after, win.SlotAddr(i).value, win.SlotAddr(i).value + Span(n))
    requires n == 64 ==> j != i + 1
    requires Load32(m, win.SlotAddr(j).value + 20) == 64 ==> i != j + 1
    ensures LoadSlot(m, win, j, nameBuf, wordBuf) == LoadSlot(after, win, j, nameBuf, wordBuf)
  {
    var a, b := win.SlotAddr(i).value, win.SlotAddr(j).value;
    if i < j {
      assert b == a + (j - i) * 277;
      assert (j - i) * 277 >= 277 + (if j == i + 1 then 0 else 277);
    } else {
      assert a == b + (i - j) * 277;
      assert (i - j) * 277 >= 277 + (if i == j + 1 then 0 else 277);
    }
    LoadDependsOn(m, after, b, nameBuf, wordBuf);
  }

  /** A word as the sum of its bytes. */
  lemma LoadIs(m: Memory, a: nat)
    ensures Load32(m, a) == ByteAt(m, a) + 0x100 * ByteAt(m, a + 1) + 0x1_0000 * ByteAt(m, a + 2)
                            + 0x100_0000 * ByteAt(m, a + 3)
  {
    FourValue(ByteAt(m, a), ByteAt(m, a + 1), ByteAt(m, a + 2), ByteAt(m, a + 3));
  }

  /** Reading one byte further up drops the low byte and takes in a new top byte. */
  lemma Straddle(m: Memory, a: nat)
    ensures Load32(m, a + 1) == Load32(m, a) / 0x100 + 0x100_0000 * ByteAt(m, a + 4)
  {
    LoadIs(m, a);
    LoadIs(m, a + 1);
    var rest := ByteAt(m, a + 1) + 0x100 * ByteAt(m, a + 2) + 0x1_0000 * ByteAt(m, a + 3);
    SplitAt(0x100, rest, ByteAt(m, a));
    assert a + 1 + 3 == a + 4;
  }

  lemma TopByteZero(m: Memory, a: nat)
    requires Load32(m, a) <= 16
    ensures ByteAt(m, a + 3) == 0
  {
    LoadIs(m, a);
  }

  /** A 64-word save puts the upper three bytes of its last word where the next name length was. */
  lemma SpilledLength(m: Memory, after: Memory, addr: nat, last: Word)
    requires addr >= 1 && ByteAt(after, addr + 3) == ByteAt(m, addr + 3) && Load32(after, addr - 1) == last
    ensures Load32(after, addr) == last / 0x100 + 0x100_0000 * ByteAt(m, addr + 3)
  {
    Straddle(after, addr - 1);
  }

  lemma RestOfRecord(m: Memory, after: Memory, addr: nat, name: seq<Byte>, words: seq<Word>)
    requires Holds(m, addr, name, words) && |name| <= 16
    requires SameBytes(m, after, addr + 3, addr + Span(|words|))
    ensures Holds(after, addr, name, words) <==> Load32(after, addr) == |name|
  {
    BytesSame(m, after, addr + 4, |name|);
    LoadSame(m, after, addr + 20);
    WordsSame(m, after, addr + 24, |words|);
  }

  /**
    Exactly when slot j still holds its record after a 64-word save in the slot
    before it: its name length has been replaced by the upper three bytes of
    the last word saved.
   */
  lemma SpillIntoNext(m: Memory, after: Memory, addr: nat, name: seq<Byte>, words: seq<Word>, last: Word)
    requires Holds(m, addr, name, words) && 1 <= |name| <= 16 && addr >= 277
    requires SameOutside(m, after, addr - 277, addr - 277 + Span(64))
    requires Load32(after, addr - 277 + 24 + 4 * (64 - 1)) == last
    ensures Load32(after, addr) == last / 0x100
    ensures Holds(after, addr, name, words) <==> last / 0x100 == |name|
  {
    assert addr - 277 + 24 + 4 * (64 - 1) == addr - 1;
    SpilledLength(m, after, addr, last);
    TopByteZero(m, addr);
    RestOfRecord(m, after, addr, name, words);
  }

  /**
    Exactly when a free slot is still free after a 64-word save in the slot
    before it: unless the bytes that spill over spell a name length.
   */
  lemma SpillIntoFree(m: Memory, after: Memory, addr: nat, last: Word, nameBuf: seq<Byte>, wordBuf: seq<Word>)
    requires LoadAt(m, addr, nameBuf, wordBuf).result == Err(NotFound) && addr >= 277
    requires SameOutside(m, after, addr - 277, addr - 277 + Span(64))
    requires Load32(after, addr - 277 + 24 + 4 * (64 - 1)) == last
    ensures LoadAt(after, addr, nameBuf, wordBuf).result == Err(NotFound) <==>
            ByteAt(m, addr + 3) != 0 || last / 0x100 == 0 || last / 0x100 > 16
  {
    assert addr - 277 + 24 + 4 * (64 - 1) == addr - 1;
    SpilledLength(m, after, addr, last);
  }

  /** The last word of a full record overlaps the name length of the slot after it. */
  lemma OverlappedWord(m: Memory, after: Memory, a: nat, nameLen: Word)
    requires ByteAt(m, a) == ByteAt(after, a) && Load32(after, a + 1) == nameLen && nameLen <= 16
    ensures Load32(after, a) == Load32(m, a) <==> Load32(m, a) / 0x100 == nameLen
  {
    TopByteZero(after, a + 1);
    Straddle(after, a);
    LowByte(m, a);
    LowByte(after, a);
  }

  /**
    Exactly when a 64-word record survives a save in the slot after it: the
    upper three bytes of its last word have been replaced by the new name length.
   */
  lemma SpillFromNext(m: Memory, after: Memory, addr: nat, name: seq<Byte>, words: seq<Word>, n: nat, nameLen: Word)
    requires Holds(m, addr, name, words) && |name| <= 16 && |words| == 64
    requires SameOutside(m, after, addr + 277, addr + 277 + Span(n))
    requires Load32(after, addr + 277) == nameLen && nameLen <= 16
    ensures Holds(after, addr, name, words) <==> words[64 - 1] / 0x100 == nameLen
  {
    var k := |words| - 1;
    AllButLast(m, after, addr, name, words, k);
    OverlappedWord(m, after, addr + 24 + 4 * k, nameLen);
  }

  lemma LastWord(m: Memory, a: nat, k: nat)
    ensures WordsFrom(m, a, k + 1) == WordsFrom(m, a, k) + [Load32(m, a + 4 * k)]
  {
  }

  lemma WordsButLast(m: Memory, after: Memory, a: nat, words: seq<Word>, k: nat)
    requires WordsFrom(m, a, k + 1) == words && SameBytes(m, after, a, a + 4 * k)
    ensures |words| == k + 1 && Load32(m, a + 4 * k) == words[k]
    ensures WordsFrom(after, a, k + 1) == words <==> Load32(after, a + 4 * k) == words[k]
  {
    var init := WordsFrom(m, a, k);
    WordsSame(m, after, a, k);
    LastWord(m, a, k);
    LastWord(after, a, k);
    assert words[k] == Load32(m, a + 4 * k);
    assert (init + [Load32(after, a + 4 * k)])[k] == Load32(after, a + 4 * k);
  }

  lemma AllButLast(m: Memory, after: Memory, addr: nat, name: seq<Byte>, words: seq<Word>, k: nat)
    requires Holds(m, addr, name, words) && |name| <= 16 && |words| == k + 1
    requires SameBytes(m, after, addr, addr + 24 + 4 * k)
    ensures Load32(m, addr + 24 + 4 * k) == words[k]
    ensures Holds(after, addr, name, words) <==> Load32(after, addr + 24 + 4 * k) == words[k]
  {
    var a := addr + 24;
    assert SameBytes(m, after, addr, a) && SameBytes(m, after, a, a + 4 * k);
    WordsDecide(m, after, addr, name, words);
    WordsButLast(m, after, a, words, k);
  }

  /** With the header as it was, the words decide. */
  lemma WordsDecide(m: Memory, after: Memory, addr: nat, name: seq<Byte>, words: seq<Word>)
    requires Holds(m, addr, name, words) && |name| <= 16 && SameBytes(m, after, addr, addr + 24)
    ensures Holds(after, addr, name, words) <==> WordsFrom(after, addr + 24, |words|) == words
  {
    HeaderSame(m, after, addr, |name|);
  }

  lemma HeaderSame(m: Memory, after: Memory, addr: nat, n: nat)
    requires SameBytes(m, after, addr, addr + 24) && n <= 16
    ensures Load32(m, addr) == Load32(after, addr) && Load32(m, addr + 20) == Load32(after, addr + 20)
    ensures Bytes(m, addr + 4, n) == Bytes(after, addr + 4, n)
  {
    BytesSame(m, after, addr + 4, n);
    LoadSame(m, after, addr);
    LoadSame(m, after, addr + 20);
  }
}

/**
  The commands `store NAME;` and `load NAME;` (src/drivers/repl.rs:345-407):
  which slot of the program store each uses, and when a function comes back.
 */
module Persistence {
  import opened Words
  import opened Lexer
  import opened Symbols
  import opened Printer
  import opened Expressions
  import opened Statements
  import opened Lines
  import opened Sessions
  import opened SourceText
  import opened Prompt
  import opened EndToEnd
  import opened ProgramStore
  import Compiler
  import VM = ThreadedVm

  const MAX_PROGRAMS := 8

  function ZeroName(): (s: seq<Byte>)
    ensures |s| == 16 && forall i :: 0 <= i < 16 ==> s[i] == 0
  {
    seq(16, _ => 0)
  }

  function ZeroWords(): (s: seq<Word>)
    ensures |s| == 64
  {
    seq(64, _ => 0)
  }

  // ---------------------------------------------------------------------
  // Searching the slots
  // ---------------------------------------------------------------------

  /** A load finds no record there. */
  predicate IsFree(m: Memory, win: Window, i: nat) {
    LoadSlot(m, win, i, ZeroName(), []).result == Err(NotFound)
  }

  /** That is: where its name length should be, there is none. */
  lemma FreeMeans(m: Memory, win: Window, i: nat)
    ensures IsFree(m, win, i) <==>
            win.base != 0 && win.base < win.top &&
            (Load32(m, win.base + 277 * i) == 0 || Load32(m, win.base + 277 * i) > 16)
  {
    SlotPlaces(win, i);
  }

  /** The first slot from `i` on with property `p`. */
  function FirstFrom(p: nat -> bool, i: nat): (r: Option<nat>)
    requires i <= 8
    ensures r.Some? ==> i <= r.value < 8 && p(r.value)
    ensures forall k :: i <= k < (if r.Some? then r.value else 8) ==> !p(k)
    decreases 8 - i
  {
    if i == 8 then None else if p(i) then Some(i) else FirstFrom(p, i + 1)
  }

  lemma FirstIs(p: nat -> bool, idx: nat)
    requires idx < 8 && p(idx)
    ensures var r := FirstFrom(p, 0);
            r.Some? && r.value <= idx && (r.value == idx <==> forall i :: 0 <= i < idx ==> !p(i))
  {
  }

  /** Counting up to the first slot with the property, or past the last. */
  lemma FirstAt(p: nat -> bool, i: nat)
    requires i <= 8 && (i < 8 ==> p(i)) && forall k :: 0 <= k < i ==> !p(k)
    ensures FirstFrom(p, 0) == if i < 8 then Some(i) else None
  {
  }

  function FreeAt(m: Memory, win: Window): nat -> bool {
    (k: nat) => IsFree(m, win, k)
  }

  function FirstFree(m: Memory, win: Window): (r: Option<nat>)
    ensures r.Some? ==> r.value < 8 && IsFree(m, win, r.value)
    ensures forall k :: 0 <= k < (if r.Some? then r.value else 8) ==> !IsFree(m, win, k)
  {
    var p := FreeAt(m, win);
    assert forall k: nat {:trigger IsFree(m, win, k)} :: p(k) == IsFree(m, win, k);
    FirstFrom(p, 0)
  }

  /** What a load of slot `i` delivers. */
  function Found(m: Memory, win: Window, i: nat): Loaded {
    LoadSlot(m, win, i, ZeroName(), ZeroWords())
  }

  /** The record in slot `i` can be loaded, and the zero-padded name it has begins with `name`. */
  predicate NameMatches(m: Memory, win: Window, i: nat, name: Name) {
    var l := Found(m, win, i);
    l.result.Ok? && |name| <= |l.name| && l.name[..|name|] == name
  }

  function MatchAt(m: Memory, win: Window, name: Name): nat -> bool {
    (k: nat) => NameMatches(m, win, k, name)
  }

  function FirstMatch(m: Memory, win: Window, name: Name): (r: Option<nat>)
    ensures r.Some? ==> r.value < 8 && NameMatches(m, win, r.value, name)
    ensures forall k :: 0 <= k < (if r.Some? then r.value else 8) ==> !NameMatches(m, win, k, name)
  {
    var p := MatchAt(m, win, name);
    assert forall k: nat {:trigger NameMatches(m, win, k, name)} :: p(k) == NameMatches(m, win, k, name);
    FirstFrom(p, 0)
  }

  /** No slot before `idx` matches. */
  ghost predicate NoneBefore(m: Memory, win: Window, name: Name, idx: nat) {
    forall i :: 0 <= i < idx ==> !MatchAt(m, win, name)(i)
  }

  /** The words of the record in slot `i`. */
  function FoundWords(m: Memory, win: Window, i: nat): seq<Word> {
    var l := Found(m, win, i);
    if l.result.Ok? && l.result.value <= |l.words| then l.words[..l.result.value] else []
  }

  /** The contents of the word buffer do not matter. */
  lemma AnyBuffer(m: Memory, win: Window, i: nat, words: seq<Word>)
    requires |words| == 64
    ensures var l := LoadSlot(m, win, i, ZeroName(), words);
            && l.result == Found(m, win, i).result && l.name == Found(m, win, i).name && |l.words| == 64
            && (l.result.Ok? ==> l.result.value <= 64 && l.words[..l.result.value] == FoundWords(m, win, i))
  {
  }

  /** A saved record is found where it was saved. */
  lemma FoundHere(m: Memory, win: Window, i: nat, name: Name, body: seq<Word>)
    requires win.SlotAddr(i).Some? && Holds(m, win.SlotAddr(i).value, name, body)
    requires 1 <= |name| <= 16 && |body| <= 64
    ensures Found(m, win, i).result == Ok(|body|) && FoundWords(m, win, i) == body
    ensures Found(m, win, i).name == name + ZeroName()[|name|..]
  {
    LoadAfterSave(m, win.SlotAddr(i).value, name, body, ZeroName(), ZeroWords());
  }

  /** An identifier has no zero byte. */
  lemma NoZero(n: Name, k: nat)
    requires IsName(n) && k < |n|
    ensures n[k] != 0
  {
    assert IsWordByte(n[k]);
  }

  /** The search takes a record for NAME exactly when NAME is a prefix of the name it was saved under. */
  lemma MatchIsPrefix(m: Memory, win: Window, i: nat, saved: Name, body: seq<Word>, name: Name)
    requires win.SlotAddr(i).Some? && Holds(m, win.SlotAddr(i).value, saved, body)
    requires 1 <= |saved| <= 16 && |body| <= 64 && IsName(name) && |name| <= 16
    ensures NameMatches(m, win, i, name) <==> name <= saved
  {
    FoundHere(m, win, i, saved, body);
    var padded := saved + ZeroName()[|saved|..];
    if |name| <= |saved| {
      assert padded[..|name|] == saved[..|name|];
    } else {
      NoZero(name, |saved|);
      assert padded[|saved|] == 0 && padded[..|name|][|saved|] == 0;
    }
  }

  /**
    Where `load NAME;` finds its record, when NAME was saved in slot `idx`:
    there exactly when no earlier slot matches, and never later.
   */
  lemma LoadFinds(m: Memory, win: Window, idx: nat, name: Name, body: seq<Word>)
    requires win.SlotAddr(idx).Some? && Holds(m, win.SlotAddr(idx).value, name, body) && idx < 8
    requires IsName(name) && |name| <= 16 && |body| <= 64
    ensures var r := FirstMatch(m, win, name);
            && r.Some? && r.value <= idx
            && (r.value == idx <==> NoneBefore(m, win, name, idx))
            && (r.value == idx ==> FoundWords(m, win, r.value) == body)
  {
    MatchIsPrefix(m, win, idx, name, body, name);
    FoundHere(m, win, idx, name, body);
    FirstIs(MatchAt(m, win, name), idx);
  }

  // ---------------------------------------------------------------------
  // The commands
  // ---------------------------------------------------------------------

  datatype StoreReply = Stored(slot: nat) | StoreFull | UnknownFn

  /** Find the first free slot, by loads that look at the error alone. */
  method FindFree(ram: Ram, win: Window) returns (r: Option<nat>)
    ensures r == FirstFree(ram.mem, win)
  {
    ghost var p := FreeAt(ram.mem, win);
    var i := 0;
    while i < MAX_PROGRAMS
      invariant i <= 8 && forall k :: 0 <= k < i ==> !p(k)
    {
      var free := LooksFree(ram, win, i);
      if free {
        FirstAt(p, i);
        return Some(i);
      }
      i := i + 1;
    }
    FirstAt(p, i);
    return None;
  }

  method LooksFree(ram: Ram, win: Window, i: nat) returns (free: bool)
    ensures free == FreeAt(ram.mem, win)(i)
  {
    var l := ram.Load(win, i, ZeroName(), []);
    free := l.result == Err(NotFound);
  }

  /** `store NAME;` */
  method StoreCommand(c: Compiler.Compiler, ram: Ram, win: Window, name: Name) returns (r: StoreReply)
    requires c.Valid() && |name| <= 16
    requires forall i :: 0 <= i < c.fns.Length ==> |c.fns[i].body| <= 32
    modifies ram
    ensures var body := ExportFn(c.fns[..], name, 128);
            var slot := FirstFree(old(ram.mem), win);
            if body.None? then r == UnknownFn && ram.mem == old(ram.mem)
            else if slot.None? then r == StoreFull && ram.mem == old(ram.mem)
            else && r == Stored(slot.value) && win.SlotAddr(slot.value).Some?
                 && Holds(ram.mem, win.SlotAddr(slot.value).value, name, body.value)
  {
    var words := c.ExportFn(name, 128);
    if words.None? {
      return UnknownFn;
    }
    var slot := FindFree(ram, win);
    if slot.None? {
      return StoreFull;
    }
    var saved := ram.Save(win, slot.value, name, words.value);
    return Stored(slot.value);
  }

  datatype LoadReply = Restored | ImportFailed(error: ParseError) | NoStoreHere | NoSuchProgram

  /** `load NAME;` imports the first record whose name matches. */
  method LoadCommand(d: Compiler.Compiler, ram: Ram, win: Window, name: Name) returns (r: LoadReply)
    requires d.Valid() && |name| <= 16
    modifies d.fns
    ensures var slot := FirstMatch(ram.mem, win, name);
            if win.SlotAddr(0).None? then r == NoStoreHere && d.fns[..] == old(d.fns[..])
            else if slot.None? then r == NoSuchProgram && d.fns[..] == old(d.fns[..])
            else var p := ImportFn(old(d.fns[..]), name, FoundWords(ram.mem, win, slot.value));
                 if p.Ok? then r == Restored && d.fns[..] == p.value
                 else r == ImportFailed(p.error) && d.fns[..] == old(d.fns[..])
  {
    ghost var q, w := MatchAt(ram.mem, win, name), WordsAt(ram.mem, win);
    assert Shows(ram.mem, win, name, q, w);
    var found := Search(ram, win, name, q, w);
    match found
    case Closed => r := NoStoreHere;
    case Miss => r := NoSuchProgram;
    case Hit(_, words) =>
      var p := d.ImportFn(name, words);
      r := if p.Ok? then Restored else ImportFailed(p.error);
  }

  datatype SearchResult = Hit(slot: nat, words: seq<Word>) | Closed | Miss

  ghost function WordsAt(m: Memory, win: Window): nat -> seq<Word> {
    (k: nat) => FoundWords(m, win, k)
  }

  /** `q` says which slots match, and `w` which words they hold. */
  ghost predicate Shows(m: Memory, win: Window, name: Name, q: nat -> bool, w: nat -> seq<Word>) {
    && (forall k: nat {:trigger NameMatches(m, win, k, name)} :: q(k) <==> NameMatches(m, win, k, name))
    && (forall k: nat {:trigger FoundWords(m, win, k)} :: w(k) == FoundWords(m, win, k))
  }

  /** Load slot after slot into the same buffer until a name matches. */
  method Search(ram: Ram, win: Window, name: Name, ghost q: nat -> bool, ghost w: nat -> seq<Word>)
    returns (r: SearchResult)
    requires |name| <= 16 && Shows(ram.mem, win, name, q, w)
    ensures match r
            case Closed => win.SlotAddr(0).None?
            case Miss => win.SlotAddr(0).Some? && FirstFrom(q, 0) == None
            case Hit(j, words) => win.SlotAddr(0).Some? && FirstFrom(q, 0) == Some(j) && words == w(j)
  {
    var words: seq<Word> := ZeroWords();
    var i := 0;
    while i < MAX_PROGRAMS
      invariant i <= 8 && |words| == 64 && (i > 0 ==> win.SlotAddr(0).Some?)
      invariant forall k :: 0 <= k < i ==> !q(k)
    {
      var hit, closed;
      hit, closed, words := TrySlot(ram, win, i, words, name, q, w);
      if closed {
        return Closed;
      }
      if hit.Some? {
        FirstAt(q, i);
        return Hit(i, hit.value);
      }
      i := i + 1;
    }
    FirstAt(q, i);
    return Miss;
  }

  /** Load one slot and compare its name. */
  method TrySlot(ram: Ram, win: Window, i: nat, buffer: seq<Word>, name: Name,
                 ghost q: nat -> bool, ghost w: nat -> seq<Word>)
    returns (hit: Option<seq<Word>>, closed: bool, words: seq<Word>)
    requires |buffer| == 64 && |name| <= 16 && Shows(ram.mem, win, name, q, w)
    ensures |words| == 64 && (closed <==> win.SlotAddr(0).None?)
    ensures !closed ==> (hit.Some? <==> q(i)) && (hit.Some? ==> hit.value == w(i))
  {
    AnyBuffer(ram.mem, win, i, buffer);
    var l := ram.Load(win, i, ZeroName(), buffer);
    words := l.words;
    closed := l.result == Err(NoStore);
    hit := if l.result.Ok? && l.name[..|name|] == name then Some(words[..l.result.value]) else None;
    assert q(i) <==> NameMatches(ram.mem, win, i, name);
    assert w(i) == FoundWords(ram.mem, win, i);
  }

  /** A line typed at the prompt, by the compiler object. */
  method TypeLine(c: Compiler.Compiler, line: seq<Byte>, mc: Machine) returns (r: Result<Outcome, ParseError>)
    requires c.Valid()
    modifies c`streamLen, c.stream, c.symbols, c.fns
    ensures c.Valid() && |old(c.Model()).symbols| == SLOTS
    ensures (r, c.Model()) == Answer(FnvHash, old(c.Model()), Entry(line, mc.peek, mc.bits))
  {
    r := c.Parse(line, mc);
  }

  // ---------------------------------------------------------------------
  // There and back
  // ---------------------------------------------------------------------

  /**
    After importing words under NAME, where there is room for it, a call
    answers as a call of the function with that body exactly when the words are
    that body, or the name is a command's anyway.
   */
  lemma ImportedAnswers(hash: Hash, u: Tables, f: Fn, words: seq<Word>, mc: Machine)
    requires |u.symbols| == SLOTS && Distinct(u.fns) && FindFn(u.fns, f.name, 0).None? && FreeSlot(u.fns, 0).Some?
    requires IsName(f.name) && |f.name| <= 16 && |f.body| <= 32
    ensures Answer(hash, Imported(u, f.name, words), Entry(CallText(f.name), mc.peek, mc.bits)).0 == CallAnswer(f) <==>
            words == f.body || ShapeOf(f.name) != Other
  {
    if |words| <= 32 {
      ImportThenCall(hash, u, Fn(f.name, words), mc);
      assert words + [VM.HALT] == f.body + [VM.HALT] ==> words == f.body by {
        assert (words + [VM.HALT])[..|words|] == words && (f.body + [VM.HALT])[..|f.body|] == f.body;
      }
    } else {
      RefusedAnswers(hash, u, f, mc);
    }
  }

  /** A call of a name that has no function, when a function by that name is expected. */
  lemma RefusedAnswers(hash: Hash, u: Tables, f: Fn, mc: Machine)
    requires |u.symbols| == SLOTS && IsName(f.name) && FindFn(u.fns, f.name, 0).None?
    ensures Answer(hash, u, Entry(CallText(f.name), mc.peek, mc.bits)).0 == CallAnswer(f) <==> ShapeOf(f.name) != Other
  {
    var env := Env(hash, u.symbols, mc.peek, mc.bits);
    CallLine(hash, u, f.name, mc);
    if ShapeOf(f.name) == Other {
      NotFoundReads(env, u.fns, f.name);
    } else {
      NoOperand(env);
    }
  }

  lemma CallLine(hash: Hash, t: Tables, n: Name, mc: Machine)
    requires |t.symbols| == SLOTS && IsName(n)
    ensures Answer(hash, t, Entry(CallText(n), mc.peek, mc.bits)) ==
            (Command(Env(hash, t.symbols, mc.peek, mc.bits), t.fns, n, [LParen, RParen, Semicolon]), t)
  {
    TextTokens(CallTokens(n));
    assert Rest(CallTokens(n)) == [LParen, RParen, Semicolon];
  }

  /** A call of a name that no function and no command has. */
  lemma NotFoundReads(env: Env, fns: seq<Fn>, n: Name)
    requires env.Valid() && ShapeOf(n) == Other && FindFn(fns, n, 0).None?
    ensures Command(env, fns, n, [LParen, RParen, Semicolon]) == Err(UnknownSymbol)
  {
    var ts := [LParen, RParen, Semicolon];
    assert Rest(ts) == [RParen, Semicolon] && Rest(Rest(ts)) == [Semicolon];
  }

  /** What the compiler that stores needs to know of its table. */
  lemma TableFacts(t: Tables, m: map<Name, Word>, codes: seq<seq<Code>>, srcs: seq<Origin>, i: nat, mc: Machine)
    requires Inv(FnvHash, t, m, codes, srcs) && i < 2 && IsName(t.fns[i].name)
    ensures forall k :: 0 <= k < |t.fns| ==> |t.fns[k].body| <= 32
    ensures var f := t.fns[i];
            && |f.name| <= 16 && ExportFn(t.fns, f.name, 128) == Some(f.body)
            && Answer(FnvHash, t, Entry(CallText(f.name), mc.peek, mc.bits)) == (CallAnswer(f), t)
  {
    forall k | 0 <= k < |t.fns| ensures |t.fns[k].body| <= 32 {
      assert SlotOk(t.fns[k], codes[k], srcs[k], t.fns, codes);
    }
    LiveFn(FnvHash, t, m, codes, srcs, i);
    CallExact(FnvHash, t, i, mc);
  }

  /**
    The whole trip: `store NAME;` on one compiler with a free slot in the store,
    `load NAME;` on another with room for the function, and a call on each.  The
    calls are answered alike exactly when the record that the load comes across
    first has the stored body (or the name is a command's), and so whenever no
    earlier slot matches the name.
   */
  method StoreThenLoad(c: Compiler.Compiler, d: Compiler.Compiler, ram: Ram, win: Window, i: nat, mc: Machine,
                       ghost m: map<Name, Word>, ghost codes: seq<seq<Code>>, ghost srcs: seq<Origin>)
    returns (stored: StoreReply, before: Result<Outcome, ParseError>, after: Result<Outcome, ParseError>)
    requires c.Valid() && d.Valid() && c != d && c.fns != d.fns && c.stream != d.stream && c.symbols != d.symbols
    requires Inv(FnvHash, c.Model(), m, codes, srcs) && i < 2 && IsName(c.fns[i].name)
    requires FirstFree(ram.mem, win).Some?
    requires Distinct(d.fns[..]) && FindFn(d.fns[..], c.fns[i].name, 0).None? && FreeSlot(d.fns[..], 0).Some?
    modifies c`streamLen, c.stream, c.symbols, c.fns, d`streamLen, d.stream, d.symbols, d.fns, ram
    ensures c.Model() == old(c.Model()) && before == CallAnswer(old(c.fns[i]))
    ensures stored == Stored(FirstFree(old(ram.mem), win).value)
    ensures var f := old(c.fns[i]);
            var slot := FirstMatch(ram.mem, win, f.name);
            && slot.Some? && slot.value <= stored.slot
            && (after == before <==> FoundWords(ram.mem, win, slot.value) == f.body || ShapeOf(f.name) != Other)
            && (NoneBefore(ram.mem, win, f.name, stored.slot) ==> after == before)
  {
    var f := c.fns[i];
    stored, before := StoreAndCall(c, ram, win, i, mc, m, codes, srcs);
    after := LoadAndCall(d, ram, win, f, stored.slot, mc);
  }

  method StoreAndCall(c: Compiler.Compiler, ram: Ram, win: Window, i: nat, mc: Machine,
                      ghost m: map<Name, Word>, ghost codes: seq<seq<Code>>, ghost srcs: seq<Origin>)
    returns (stored: StoreReply, before: Result<Outcome, ParseError>)
    requires c.Valid() && Inv(FnvHash, c.Model(), m, codes, srcs) && i < 2 && IsName(c.fns[i].name)
    requires FirstFree(ram.mem, win).Some?
    modifies c`streamLen, c.stream, c.symbols, c.fns, ram
    ensures c.Valid() && c.Model() == old(c.Model()) && before == CallAnswer(old(c.fns[i]))
    ensures stored == Stored(FirstFree(old(ram.mem), win).value) && stored.slot < 8
    ensures var f := old(c.fns[i]);
            && |f.name| <= 16 && |f.body| <= 32 && win.SlotAddr(stored.slot).Some?
            && Holds(ram.mem, win.SlotAddr(stored.slot).value, f.name, f.body)
  {
    var f := c.fns[i];
    ghost var t := c.Model();
    assert f == t.fns[i];
    TableFacts(t, m, codes, srcs, i, mc);
    stored := StoreCommand(c, ram, win, f.name);
    before := TypeLine(c, CallText(f.name), mc);
  }

  method LoadAndCall(d: Compiler.Compiler, ram: Ram, win: Window, f: Fn, ghost slot: nat, mc: Machine)
    returns (after: Result<Outcome, ParseError>)
    requires d.Valid() && IsName(f.name) && |f.name| <= 16 && |f.body| <= 32
    requires slot < 8 && win.SlotAddr(slot).Some?
    requires Holds(ram.mem, win.SlotAddr(slot).value, f.name, f.body)
    requires Distinct(d.fns[..]) && FindFn(d.fns[..], f.name, 0).None? && FreeSlot(d.fns[..], 0).Some?
    modifies d`streamLen, d.stream, d.symbols, d.fns
    ensures var first := FirstMatch(ram.mem, win, f.name);
            && first.Some? && first.value <= slot
            && (after == CallAnswer(f) <==> FoundWords(ram.mem, win, first.value) == f.body || ShapeOf(f.name) != Other)
            && (NoneBefore(ram.mem, win, f.name, slot) ==> after == CallAnswer(f))
  {
    ghost var u := d.Model();
    LoadFound(d, ram, win, f, slot);
    ghost var words := FoundWords(ram.mem, win, FirstMatch(ram.mem, win, f.name).value);
    ImportedAnswers(FnvHash, u, f, words, mc);
    after := TypeLine(d, CallText(f.name), mc);
  }

  method LoadFound(d: Compiler.Compiler, ram: Ram, win: Window, f: Fn, ghost slot: nat)
    requires d.Valid() && IsName(f.name) && |f.name| <= 16 && |f.body| <= 32
    requires slot < 8 && win.SlotAddr(slot).Some?
    requires Holds(ram.mem, win.SlotAddr(slot).value, f.name, f.body)
    modifies d.fns
    ensures var first := FirstMatch(ram.mem, win, f.name);
            && first.Some? && first.value <= slot
            && d.Model() == Imported(old(d.Model()), f.name, FoundWords(ram.mem, win, first.value))
            && (NoneBefore(ram.mem, win, f.name, slot) ==> FoundWords(ram.mem, win, first.value) == f.body)
  {
    LoadFinds(ram.mem, win, slot, f.name, f.body);
    var loaded := LoadCommand(d, ram, win, f.name);
  }
}

/**
  The compiler itself (src/compiler/parser.rs:208-919): one object whose tables
  and stream buffer are changed in place while a cursor moves over the line.
  Every method is proved against the function of the same name on token
  sequences, about which the other modules prove what the language promises.
 */
module Compiler {
  import opened Words
  import opened Lexer
  import opened Symbols
  import opened Expressions
  import opened Streams
  import opened Capability
  import opened Statements
  import opened Lines
  import VM = ThreadedVm

  /** One token of lookahead over the lexer. */
  class Cur {
    const lx: Lexer
    var ahead: Option<Token>

    ghost predicate Valid()
      reads this, lx
    {
      lx.Valid() && (ahead == Some(Eof) ==> lx.Rest() == [])
    }

    /** Tokens still to come. */
    ghost function Left(): seq<Token>
      requires Valid()
      reads this, lx
    {
      if ahead.Some? && ahead.value != Eof then [ahead.value] + lx.Rest() else lx.Rest()
    }

    constructor (line: seq<Byte>)
      ensures Valid() && fresh(lx) && Left() == Tokens(line, 0)
    {
      lx := new Lexer(line);
      ahead := None;
    }

    method Next() returns (t: Token)
      requires Valid()
      modifies this, lx
      ensures Valid()
      ensures t == First(old(Left())) && Left() == Rest(old(Left()))
      ensures t == Eof <==> old(Left()) == []
    {
      if ahead.Some? {
        t := ahead.value;
        ahead := None;
      } else {
        t := lx.NextToken();
      }
    }

    method Peek() returns (t: Token)
      requires Valid()
      modifies this, lx
      ensures Valid()
      ensures t == First(old(Left())) && Left() == old(Left())
      ensures t == Eof <==> old(Left()) == []
    {
      if ahead.None? {
        var next := lx.NextToken();
        ahead := Some(next);
      }
      t := ahead.value;
    }
  }

  /** The method's result and the tokens left are what the function says. */
  ghost predicate Matches<T(!new)>(p: Parsed<T>, r: Result<T, ParseError>, left: seq<Token>) {
    match p
    case Got(v, rest) => r == Ok(v) && left == rest
    case Fail(x) => r == Err(x)
  }

  /** Likewise for words pushed onto the stream. */
  ghost predicate Pushed(p: Result<seq<Word>, ParseError>, r: Result<(), ParseError>, stream: seq<Word>) {
    if p.Ok? then r == Ok(()) && stream == p.value else r == Err(p.error)
  }

  /** Likewise for a statement: the stream after it, and the tokens left. */
  ghost predicate Emitted(p: Parsed<seq<Word>>, r: Result<(), ParseError>, stream: seq<Word>, left: seq<Token>) {
    match p
    case Got(words, rest) => r == Ok(()) && stream == words && left == rest
    case Fail(x) => r == Err(x)
  }

  class Compiler {
    const symbols: array<Slot>
    const fns: array<Fn>
    const stream: array<Word>
    var streamLen: nat

    ghost predicate Valid()
      reads this
    {
      && symbols.Length == 32 && fns.Length == 2 && stream.Length == 128
      && streamLen <= 128
    }

    ghost function Model(): Tables
      reads this, symbols, fns
    {
      Tables(symbols[..], fns[..])
    }

    ghost function EnvOf(mc: Machine): Env
      reads this, symbols
    {
      Env(FnvHash, symbols[..], mc.peek, mc.bits)
    }

    ghost function Stream(): seq<Word>
      requires Valid()
      reads this, stream
    {
      stream[..streamLen]
    }

    constructor ()
      ensures Valid() && fresh(symbols) && fresh(fns) && fresh(stream)
      ensures Model() == Tables(EmptyTable(), [Fn([], []), Fn([], [])]) && Stream() == []
    {
      symbols := new Slot[SLOTS](_ => Slot.Empty);
      fns := new Fn[MAX_FNS](_ => Fn([], []));
      stream := new Word[MAX_STREAM_WORDS](_ => 0);
      streamLen := 0;
      new;
      assert symbols[..] == EmptyTable();
      assert fns[..] == [Fn([], []), Fn([], [])];
    }

    // -------------------------------------------------------------------
    // Symbol table
    // -------------------------------------------------------------------

    /** FNV-1a of a name, byte by byte. */
    method HashOf(name: Name) returns (h: nat)
      ensures h == FnvHash(name)
    {
      h := 0x811C_9DC5;
      var i := 0;
      while i < |name|
        invariant i <= |name| && Fnv(name[i..], h) == FnvHash(name)
      {
        h := Xor(h, name[i], 32) * 0x0100_0193 % WORD_SPAN;
        assert name[i..][1..] == name[i + 1..];
        i := i + 1;
      }
    }

    /** Walk the probe sequence to the slot that is empty or holds the name. */
    method Probed(name: Name) returns (r: Option<nat>)
      requires Valid()
      ensures r == FindSlot(symbols[..], FnvHash(name), 0, name)
    {
      var h := HashOf(name);
      var step := 0;
      while step < SLOTS
        invariant step <= SLOTS && FindSlot(symbols[..], h, step, name) == FindSlot(symbols[..], h, 0, name)
      {
        var i := Probe(h, step);
        if symbols[i].Empty? || symbols[i].name == name {
          return Some(i);
        }
        step := step + 1;
      }
      return None;
    }

    method LookupSymbol(name: Name) returns (r: Option<Word>)
      requires Valid()
      ensures r == Lookup(FnvHash, symbols[..], name)
    {
      var i := Probed(name);
      if i.None? || symbols[i.value].Empty? {
        return None;
      }
      return Some(symbols[i.value].value);
    }

    method InsertSymbol(name: Name, v: Word) returns (ok: bool)
      requires Valid()
      modifies symbols
      ensures ok == Insert(FnvHash, old(symbols[..]), name, v).Some?
      ensures symbols[..] == if ok then Insert(FnvHash, old(symbols[..]), name, v).value else old(symbols[..])
    {
      var i := Probed(name);
      if i.None? {
        return false;
      }
      symbols[i.value] := Used(name, v);
      return true;
    }

    // -------------------------------------------------------------------
    // Expressions
    // -------------------------------------------------------------------

    /** Evaluate with the leading token in `head`. */
    method EvalFromHead(head: Token, cur: Cur, mc: Machine) returns (r: Result<Word, ParseError>)
      requires Valid() && cur.Valid()
      modifies cur, cur.lx
      ensures cur.Valid()
      ensures Matches(EvalFrom(EnvOf(mc), head, old(cur.Left())), r, cur.Left())
      decreases Weight(head, cur.Left()), 2
    {
      ghost var env, left := EnvOf(mc), cur.Left();
      ghost var goal := EvalFrom(env, head, left);
      r := OperandFrom(head, cur, mc);
      if r.Err? {
        return;
      }
      var acc := r.value;
      var t := cur.Peek();
      while t.Operator? && IsArithmetic(t.op)
        invariant cur.Valid() && t == First(cur.Left()) && |cur.Left()| < Weight(head, left)
        invariant EvalLoop(env, acc, cur.Left()) == goal
        decreases |cur.Left()|
      {
        r := FoldOperator(acc, t.op, cur, mc);
        if r.Err? {
          return;
        }
        acc := r.value;
        t := cur.Peek();
      }
      return Ok(acc);
    }

    /** Fold one operator and its right operand into the accumulator. */
    method FoldOperator(acc: Word, op: Byte, cur: Cur, mc: Machine) returns (r: Result<Word, ParseError>)
      requires Valid() && cur.Valid() && IsArithmetic(op) && First(cur.Left()) == Operator(op)
      modifies cur, cur.lx
      ensures cur.Valid()
      ensures var goal := EvalLoop(EnvOf(mc), acc, old(cur.Left()));
              if r.Ok? then EvalLoop(EnvOf(mc), r.value, cur.Left()) == goal && |cur.Left()| < |old(cur.Left())|
              else goal == Fail(r.error)
      decreases |cur.Left()|, 1
    {
      ghost var before := cur.Left();
      var t := cur.Next();
      assert before == [Operator(op)] + cur.Left();
      LoopReads(EnvOf(mc), acc, op, cur.Left());
      r := AtomicTermOf(cur, mc);
      if r.Ok? {
        r := Apply(op, acc, r.value);
      }
    }

    method EvalExprOf(cur: Cur, mc: Machine) returns (r: Result<Word, ParseError>)
      requires Valid() && cur.Valid()
      modifies cur, cur.lx
      ensures cur.Valid()
      ensures Matches(EvalExpr(EnvOf(mc), old(cur.Left())), r, cur.Left())
      decreases |cur.Left()|, 3
    {
      var head := cur.Next();
      r := EvalFromHead(head, cur, mc);
    }

    /** A parenthesised expression or a term. */
    method OperandFrom(head: Token, cur: Cur, mc: Machine) returns (r: Result<Word, ParseError>)
      requires Valid() && cur.Valid()
      modifies cur, cur.lx
      ensures cur.Valid()
      ensures Matches(Operand(EnvOf(mc), head, old(cur.Left())), r, cur.Left())
      decreases Weight(head, cur.Left()), 1
    {
      if head == LParen {
        r := EvalExprOf(cur, mc);
        if r.Ok? {
          var t := cur.Next();
          if t != RParen {
            r := Err(UnexpectedToken);
          }
        }
      } else {
        r := ResolveTermOf(head, cur, mc);
      }
    }

    method ResolveTermOf(t: Token, cur: Cur, mc: Machine) returns (r: Result<Word, ParseError>)
      requires Valid() && cur.Valid()
      modifies cur, cur.lx
      ensures cur.Valid()
      ensures Matches(ResolveTerm(EnvOf(mc), t, old(cur.Left())), r, cur.Left())
      decreases Weight(t, cur.Left()), 0
    {
      match t
      case Literal(v) =>
        r := Ok(v);
      case Identifier(id) =>
        if id == PEEK {
          r := AtomicTermOf(cur, mc);
          if r.Ok? {
            r := Ok(mc.peek(r.value));
          }
        } else {
          var v := LookupSymbol(id);
          r := if v.Some? then Ok(v.value) else Err(UnknownSymbol);
        }
      case Error(kind) =>
        r := Err(LexFailure(kind));
      case _ =>
        r := Err(UnexpectedToken);
    }

    /** One term, leaving trailing operators alone. */
    method AtomicTermOf(cur: Cur, mc: Machine) returns (r: Result<Word, ParseError>)
      requires Valid() && cur.Valid()
      modifies cur, cur.lx
      ensures cur.Valid()
      ensures Matches(AtomicTerm(EnvOf(mc), old(cur.Left())), r, cur.Left())
      decreases |cur.Left()|, 2
    {
      var head := cur.Next();
      r := OperandFrom(head, cur, mc);
    }

    method ExpectSemicolon(cur: Cur) returns (r: Result<(), ParseError>)
      requires cur.Valid()
      modifies cur, cur.lx
      ensures cur.Valid()
      ensures Matches(Semi((), old(cur.Left())), r, cur.Left())
    {
      var t := cur.Next();
      r := if t == Semicolon || t == Eof then Ok(()) else Err(MissingSemicolon);
    }

    // -------------------------------------------------------------------
    // Stream emission
    // -------------------------------------------------------------------

    method StreamPush(w: Word) returns (r: Result<(), ParseError>)
      requires Valid()
      modifies this`streamLen, stream
      ensures Valid()
      ensures r == if |old(Stream())| < 128 then Ok(()) else Err(StreamFull)
      ensures Stream() == if r.Ok? then old(Stream()) + [w] else old(Stream())
    {
      if streamLen >= MAX_STREAM_WORDS {
        return Err(StreamFull);
      }
      stream[streamLen] := w;
      streamLen := streamLen + 1;
      assert stream[..streamLen] == old(stream[..streamLen]) + [w];
      return Ok(());
    }

    /** Push words one by one, as far as they fit. */
    method PushWords(words: seq<Word>) returns (r: Result<(), ParseError>)
      requires Valid()
      modifies this`streamLen, stream
      ensures Valid()
      ensures Pushed(Push(old(Stream()), words), r, Stream())
    {
      var i := 0;
      while i < |words|
        invariant Valid() && i <= |words| && Stream() == old(Stream()) + words[..i]
      {
        r := StreamPush(words[i]);
        if r.Err? {
          return;
        }
        assert words[..i + 1] == words[..i] + [words[i]];
        Assoc(old(Stream()), words[..i], [words[i]]);
        i := i + 1;
      }
      assert words[..i] == words;
      return Ok(());
    }

    /** The gate, then the words of the block. */
    method EmitGated(b: Block, mc: Machine) returns (r: Result<(), ParseError>)
      requires Valid()
      modifies this`streamLen, stream
      ensures Valid()
      ensures r == if !CheckAccess(mc.bits, b.addr) then Err(CapabilityViolation)
                   else if Push(old(Stream()), BlockWords(b)).Ok? then Ok(())
                   else Err(StreamFull)
      ensures r.Ok? ==> Stream() == old(Stream()) + BlockWords(b)
    {
      if !CheckAccess(mc.bits, b.addr) {
        return Err(CapabilityViolation);
      }
      r := PushWords(BlockWords(b));
    }

    // -------------------------------------------------------------------
    // Statements
    // -------------------------------------------------------------------

    method PokeArgsOf(cur: Cur, mc: Machine) returns (r: Result<Block, ParseError>)
      requires Valid() && cur.Valid()
      modifies cur, cur.lx
      ensures cur.Valid()
      ensures Matches(PokeArgs(EnvOf(mc), old(cur.Left())), r, cur.Left())
    {
      var addr := AtomicTermOf(cur, mc);
      if addr.Err? {
        return Err(addr.error);
      }
      var val := EvalExprOf(cur, mc);
      if val.Err? {
        return Err(val.error);
      }
      var end := ExpectSemicolon(cur);
      r := if end.Ok? then Ok(Poke(addr.value, val.value)) else Err(end.error);
    }

    method PeekArgsOf(cur: Cur, mc: Machine) returns (r: Result<Block, ParseError>)
      requires Valid() && cur.Valid()
      modifies cur, cur.lx
      ensures cur.Valid()
      ensures Matches(PeekArgs(EnvOf(mc), old(cur.Left())), r, cur.Left())
    {
      var addr := AtomicTermOf(cur, mc);
      if addr.Err? {
        return Err(addr.error);
      }
      var end := ExpectSemicolon(cur);
      r := if end.Ok? then Ok(Block.Peek(addr.value)) else Err(end.error);
    }

    /** A poke or peek statement, after its keyword. */
    method MemoryStmt(id: Name, cur: Cur, mc: Machine) returns (r: Result<(), ParseError>)
      requires Valid() && cur.Valid() && (id == POKE || id == PEEK)
      modifies this`streamLen, stream, cur, cur.lx
      ensures Valid() && cur.Valid()
      ensures var left, env := old(cur.Left()), EnvOf(mc);
              Emitted(ParseMemory(env, old(Stream()), if id == POKE then PokeArgs(env, left) else PeekArgs(env, left)),
                      r, Stream(), cur.Left())
    {
      var b;
      if id == POKE {
        b := PokeArgsOf(cur, mc);
      } else {
        b := PeekArgsOf(cur, mc);
      }
      if b.Err? {
        return Err(b.error);
      }
      r := EmitGated(b.value, mc);
    }

    method CallEndOf(cur: Cur) returns (r: Result<(), ParseError>)
      requires cur.Valid()
      modifies cur, cur.lx
      ensures cur.Valid()
      ensures Matches(CallEnd(old(cur.Left())), r, cur.Left())
    {
      var open := cur.Next();
      var close := cur.Next();
      if close != RParen {
        return Err(UnexpectedToken);
      }
      r := ExpectSemicolon(cur);
    }

    /** `(` `)` `;` after the name, then splice the body. */
    method CallStmtOf(id: Name, cur: Cur) returns (r: Result<(), ParseError>)
      requires Valid() && cur.Valid()
      modifies this`streamLen, stream, cur, cur.lx
      ensures Valid() && cur.Valid()
      ensures Emitted(ParseCall(fns[..], id, old(Stream()), old(cur.Left())), r, Stream(), cur.Left())
    {
      r := CallEndOf(cur);
      if r.Err? {
        return;
      }
      var i := FindFnOf(id);
      if i.None? {
        return Err(UnknownSymbol);
      }
      r := PushWords(fns[i.value].body);
    }

    method FindFnOf(name: Name) returns (r: Option<nat>)
      requires Valid()
      ensures r == FindFn(fns[..], name, 0)
    {
      var i := 0;
      while i < MAX_FNS
        invariant i <= MAX_FNS && FindFn(fns[..], name, i) == FindFn(fns[..], name, 0)
      {
        if fns[i].name != [] && fns[i].name == name {
          return Some(i);
        }
        i := i + 1;
      }
      return None;
    }

    method LoopHeadOf(cur: Cur, mc: Machine) returns (r: Result<nat, ParseError>)
      requires Valid() && cur.Valid()
      modifies cur, cur.lx
      ensures cur.Valid()
      ensures Matches(LoopHead(EnvOf(mc), old(cur.Left())), r, cur.Left())
    {
      var count := AtomicTermOf(cur, mc);
      if count.Err? {
        return Err(count.error);
      }
      if count.value == 0 || count.value > MAX_LOOP_UNROLL {
        return Err(LoopTooLarge);
      }
      var t := cur.Next();
      r := if t == LBrace then Ok(count.value) else Err(UnexpectedToken);
    }

    /** Duplicate the words from `start` on `count - 1` more times. */
    method UnrollFrom(start: nat, count: nat) returns (r: Result<(), ParseError>)
      requires Valid() && start <= streamLen && count >= 1
      modifies this`streamLen, stream
      ensures Valid()
      ensures Pushed(Unroll(old(Stream()), old(Stream())[start..], count - 1), r, Stream())
    {
      var end := streamLen;
      ghost var body := Stream()[start..];
      var k := 1;
      while k < count
        invariant Valid() && 1 <= k <= count && end <= streamLen && Stream()[start..end] == body
        invariant Unroll(Stream(), body, count - k) == Unroll(old(Stream()), body, count - 1)
      {
        if streamLen + (end - start) > MAX_STREAM_WORDS {
          return Err(StreamFull);
        }
        CopyWithin(start, end);
        k := k + 1;
      }
      return Ok(());
    }

    /** Append the words in [start, end) once more. */
    method CopyWithin(start: nat, end: nat)
      requires Valid() && start <= end <= streamLen && streamLen + (end - start) <= MAX_STREAM_WORDS
      modifies this`streamLen, stream
      ensures Valid() && Stream() == old(Stream()) + old(Stream())[start..end]
    {
      ghost var first := Stream();
      var i := start;
      while i < end
        invariant Valid() && start <= i <= end && Stream() == first + first[start..i]
      {
        assert stream[i] == Stream()[i] == first[i];
        var r := StreamPush(stream[i]);
        assert first[start..i + 1] == first[start..i] + [first[i]];
        Assoc(first, first[start..i], [first[i]]);
        i := i + 1;
      }
    }

    /** One statement of a function body. */
    method ParseBodyStmt(cur: Cur, mc: Machine) returns (r: Result<(), ParseError>)
      requires Valid() && cur.Valid()
      modifies this`streamLen, stream, cur, cur.lx
      ensures Valid() && cur.Valid()
      ensures Emitted(ParseStmt(EnvOf(mc), fns[..], old(Stream()), old(cur.Left())), r, Stream(), cur.Left())
      decreases |cur.Left()|, 0
    {
      var t := cur.Next();
      if !t.Identifier? {
        return Err(UnexpectedToken);
      }
      var id := t.name;
      if id == POKE || id == PEEK {
        r := MemoryStmt(id, cur, mc);
      } else if id == LOOP {
        r := LoopStmtOf(cur, mc);
      } else {
        r := WordStmt(id, cur, mc);
      }
    }

    /** A call or an expression, after its first name. */
    method WordStmt(id: Name, cur: Cur, mc: Machine) returns (r: Result<(), ParseError>)
      requires Valid() && cur.Valid()
      modifies this`streamLen, stream, cur, cur.lx
      ensures Valid() && cur.Valid()
      ensures Emitted(ParseWord(EnvOf(mc), fns[..], id, old(Stream()), old(cur.Left())), r, Stream(), cur.Left())
    {
      var next := cur.Peek();
      if next == LParen {
        r := CallStmtOf(id, cur);
      } else {
        var v := EvalFromHead(Identifier(id), cur, mc);
        if v.Err? {
          return Err(v.error);
        }
        r := ExpectSemicolon(cur);
      }
    }

    /** A loop, after its keyword: parse the body once, then unroll it. */
    method LoopStmtOf(cur: Cur, mc: Machine) returns (r: Result<(), ParseError>)
      requires Valid() && cur.Valid()
      modifies this`streamLen, stream, cur, cur.lx
      ensures Valid() && cur.Valid()
      ensures Emitted(ParseLoop(EnvOf(mc), fns[..], old(Stream()), old(cur.Left())), r, Stream(), cur.Left())
      decreases |cur.Left()|, 3
    {
      var head := LoopHeadOf(cur, mc);
      if head.Err? {
        return Err(head.error);
      }
      r := LoopBodyOf(head.value, cur, mc);
    }

    method LoopBodyOf(count: nat, cur: Cur, mc: Machine) returns (r: Result<(), ParseError>)
      requires Valid() && cur.Valid() && count >= 1
      modifies this`streamLen, stream, cur, cur.lx
      ensures Valid() && cur.Valid()
      ensures var body := ParseBlock(EnvOf(mc), fns[..], old(Stream()), old(cur.Left()));
              Emitted(ParseLoopEnd(old(Stream()), count, body), r, Stream(), cur.Left())
      decreases |cur.Left()|, 2
    {
      var start := streamLen;
      ghost var body := ParseBlock(EnvOf(mc), fns[..], Stream(), cur.Left());
      r := BlockOf(cur, mc);
      if r.Ok? {
        r := UnrollFrom(start, count);
        assert Pushed(Unroll(body.value, body.value[start..], count - 1), r, Stream());
      }
    }

    /** Statements up to the closing brace. */
    method BlockOf(cur: Cur, mc: Machine) returns (r: Result<(), ParseError>)
      requires Valid() && cur.Valid()
      modifies this`streamLen, stream, cur, cur.lx
      ensures Valid() && cur.Valid()
      ensures Emitted(ParseBlock(EnvOf(mc), fns[..], old(Stream()), old(cur.Left())), r, Stream(), cur.Left())
      decreases |cur.Left()|, 1
    {
      ghost var env, all := EnvOf(mc), fns[..];
      ghost var goal := ParseBlock(env, all, Stream(), cur.Left());
      var t := cur.Peek();
      while t != RBrace
        invariant Valid() && cur.Valid() && t == First(cur.Left()) && (t == Eof <==> cur.Left() == [])
        invariant |cur.Left()| <= |old(cur.Left())|
        invariant ParseBlock(env, all, Stream(), cur.Left()) == goal
        decreases |cur.Left()|
      {
        if t == Eof {
          return Err(UnexpectedToken);
        }
        r := ParseBodyStmt(cur, mc);
        if r.Err? {
          return;
        }
        t := cur.Peek();
      }
      var close := cur.Next();
      return Ok(());
    }

    // -------------------------------------------------------------------
    // Commands
    // -------------------------------------------------------------------

    method ExpectName(cur: Cur) returns (r: Result<Name, ParseError>)
      requires cur.Valid()
      modifies cur, cur.lx
      ensures cur.Valid()
      ensures Matches(ParseName(old(cur.Left())), r, cur.Left())
    {
      var t := cur.Next();
      if !t.Identifier? {
        return Err(UnexpectedToken);
      }
      r := if |t.name| > NAME_MAX then Err(NameTooLong) else Ok(t.name);
    }

    method NameCommandOf(id: Name, cur: Cur) returns (r: Result<Outcome, ParseError>)
      requires cur.Valid()
      modifies cur, cur.lx
      ensures cur.Valid() && r == NameCommand(id, old(cur.Left()))
    {
      var n := ExpectName(cur);
      if n.Err? {
        return Err(n.error);
      }
      var end := ExpectSemicolon(cur);
      r := if end.Ok? then Ok(Named(id, n.value)) else Err(end.error);
    }

    method TermArgsOf(two: bool, cur: Cur, mc: Machine) returns (r: Result<seq<Word>, ParseError>)
      requires Valid() && cur.Valid()
      modifies cur, cur.lx
      ensures cur.Valid()
      ensures Matches(TermArgs(EnvOf(mc), two, old(cur.Left())), r, cur.Left())
    {
      var a := AtomicTermOf(cur, mc);
      if a.Err? {
        return Err(a.error);
      }
      var args := [a.value];
      if two {
        var b := AtomicTermOf(cur, mc);
        if b.Err? {
          return Err(b.error);
        }
        args := [a.value, b.value];
      }
      var end := ExpectSemicolon(cur);
      r := if end.Ok? then Ok(args) else Err(end.error);
    }

    method TermsCommandOf(id: Name, two: bool, guard: Guard, cur: Cur, mc: Machine)
      returns (r: Result<Outcome, ParseError>)
      requires Valid() && cur.Valid()
      modifies cur, cur.lx
      ensures cur.Valid() && r == TermsCommand(EnvOf(mc), id, two, guard, old(cur.Left()))
    {
      var args := TermArgsOf(two, cur, mc);
      if args.Err? {
        return Err(args.error);
      }
      r := if Allowed(mc.bits, guard, args.value[0])
           then Ok(Direct(id, [Trimmed(id, args.value[0])] + args.value[1..]))
           else Err(CapabilityViolation);
    }

    method PokeCommandOf(cur: Cur, mc: Machine) returns (r: Result<Outcome, ParseError>)
      requires Valid() && cur.Valid()
      modifies cur, cur.lx
      ensures cur.Valid() && r == PokeCommand(EnvOf(mc), old(cur.Left()))
    {
      var b := PokeArgsOf(cur, mc);
      if b.Err? {
        return Err(b.error);
      }
      r := if CheckAccess(mc.bits, b.value.addr) then Ok(Direct(POKE, [b.value.addr, b.value.val]))
           else Err(CapabilityViolation);
    }

    method StreamReset()
      requires Valid()
      modifies this`streamLen
      ensures Valid() && Stream() == []
    {
      streamLen := 0;
    }

    /** Append the halt and take the program. */
    method TakeProgram() returns (r: Result<Outcome, ParseError>)
      requires Valid()
      modifies this`streamLen, stream
      ensures Valid() && r == Halted(old(Stream()))
    {
      var pushed := StreamPush(VM.HALT);
      r := if pushed.Ok? then Ok(Run(stream[..streamLen], false)) else Err(pushed.error);
    }

    /** The body of a loop at the prompt. */
    method TopLoopOf(cur: Cur, mc: Machine) returns (r: Result<(), ParseError>)
      requires Valid() && cur.Valid()
      modifies this`streamLen, stream, cur, cur.lx
      ensures Valid() && cur.Valid()
      ensures Emitted(TopLoop(EnvOf(mc), old(Stream()), old(cur.Left())), r, Stream(), cur.Left())
    {
      ghost var env := EnvOf(mc);
      ghost var goal := TopLoop(env, Stream(), cur.Left());
      var t := cur.Peek();
      while t != RBrace
        invariant Valid() && cur.Valid() && t == First(cur.Left()) && (t == Eof <==> cur.Left() == [])
        invariant TopLoop(env, Stream(), cur.Left()) == goal
        decreases |cur.Left()|
      {
        if t == Eof {
          return Err(UnexpectedToken);
        }
        ghost var step := TopStmt(env, Stream(), cur.Left());
        t := cur.Next();
        if t == Identifier(POKE) || t == Identifier(PEEK) {
          r := MemoryStmt(t.name, cur, mc);
          if r.Err? {
            return;
          }
        }
        assert step == Got(Stream(), cur.Left());
        t := cur.Peek();
      }
      var close := cur.Next();
      return Ok(());
    }

    method LoopCommandOf(cur: Cur, mc: Machine) returns (r: Result<Outcome, ParseError>)
      requires Valid() && cur.Valid()
      modifies this`streamLen, stream, cur, cur.lx
      ensures Valid() && cur.Valid() && r == LoopCommand(EnvOf(mc), old(cur.Left()))
    {
      var head := LoopHeadOf(cur, mc);
      if head.Err? {
        return Err(head.error);
      }
      r := LoopProgramOf(head.value, cur, mc);
    }

    method LoopProgramOf(count: nat, cur: Cur, mc: Machine) returns (r: Result<Outcome, ParseError>)
      requires Valid() && cur.Valid() && count >= 1
      modifies this`streamLen, stream, cur, cur.lx
      ensures Valid() && cur.Valid()
      ensures var p := ParseLoopEnd([], count, TopLoop(EnvOf(mc), [], old(cur.Left())));
              r == if p.Got? then Halted(p.value) else Err(p.error)
    {
      StreamReset();
      ghost var body := TopLoop(EnvOf(mc), [], cur.Left());
      var done := TopLoopOf(cur, mc);
      if done.Err? {
        return Err(done.error);
      }
      done := UnrollFrom(0, count);
      assert Pushed(Unroll(body.value, body.value[0..], count - 1), done, Stream());
      if done.Err? {
        return Err(done.error);
      }
      r := TakeProgram();
    }

    method ValueCommandOf(head: Token, cur: Cur, mc: Machine) returns (r: Result<Outcome, ParseError>)
      requires Valid() && cur.Valid()
      modifies this`streamLen, stream, cur, cur.lx
      ensures Valid() && cur.Valid() && r == ValueCommand(EnvOf(mc), head, old(cur.Left()))
    {
      var v := EvalFromHead(head, cur, mc);
      if v.Err? {
        return Err(v.error);
      }
      var end := ExpectSemicolon(cur);
      if end.Err? {
        return Err(end.error);
      }
      var words := BuildValueProgram(v.value);
      r := Ok(Run(words, true));
    }

    method BuildValueProgram(v: Word) returns (words: seq<Word>)
      requires Valid()
      modifies this`streamLen, stream
      ensures Valid() && words == ValueProgram(v)
    {
      StreamReset();
      var pushed := PushWords(ValueProgram(v));
      words := stream[..streamLen];
    }

    method CallCommandOf(id: Name, cur: Cur) returns (r: Result<Outcome, ParseError>)
      requires Valid() && cur.Valid()
      modifies this`streamLen, stream, cur, cur.lx
      ensures Valid() && cur.Valid() && r == CallCommand(fns[..], id, old(cur.Left()))
    {
      StreamReset();
      var spliced := CallStmtOf(id, cur);
      if spliced.Err? {
        return Err(spliced.error);
      }
      r := TakeProgram();
    }

    method ParseCommand(id: Name, cur: Cur, mc: Machine) returns (r: Result<Outcome, ParseError>)
      requires Valid() && cur.Valid()
      modifies this`streamLen, stream, cur, cur.lx
      ensures Valid() && cur.Valid() && r == Command(EnvOf(mc), fns[..], id, old(cur.Left()))
    {
      match ShapeOf(id)
      case NoArgs =>
        r := Ok(Plain(id));
      case OneName =>
        r := NameCommandOf(id, cur);
      case Terms(two, guard) =>
        r := TermsCommandOf(id, two, guard, cur, mc);
      case PokeShape =>
        r := PokeCommandOf(cur, mc);
      case LoopShape =>
        r := LoopCommandOf(cur, mc);
      case Other =>
        var next := cur.Peek();
        if next == LParen {
          r := CallCommandOf(id, cur);
        } else {
          r := ValueCommandOf(Identifier(id), cur, mc);
        }
    }

    // -------------------------------------------------------------------
    // Bindings and definitions
    // -------------------------------------------------------------------

    method LetArgsOf(cur: Cur, mc: Machine) returns (r: Result<Binding, ParseError>)
      requires Valid() && cur.Valid()
      modifies cur, cur.lx
      ensures cur.Valid() && r == LetArgs(EnvOf(mc), old(cur.Left()))
    {
      var n := ExpectName(cur);
      if n.Err? {
        return Err(n.error);
      }
      var eq := cur.Next();
      if eq != Operator(EQUALS) {
        return Err(UnexpectedToken);
      }
      var v := EvalExprOf(cur, mc);
      if v.Err? {
        return Err(v.error);
      }
      var end := ExpectSemicolon(cur);
      r := if end.Ok? then Ok(Binding(n.value, v.value)) else Err(end.error);
    }

    method ParseLet(cur: Cur, mc: Machine) returns (r: Result<Outcome, ParseError>)
      requires Valid() && cur.Valid()
      modifies this`streamLen, symbols, cur, cur.lx
      ensures Valid() && cur.Valid()
      ensures (r, Model()) == LetLine(old(EnvOf(mc)), old(Model()), old(cur.Left()))
    {
      var b := LetArgsOf(cur, mc);
      if b.Err? {
        return Err(b.error);
      }
      var ok := InsertSymbol(b.value.name, b.value.value);
      r := if ok then Ok(Bound(b.value.name, b.value.value)) else Err(SymbolTableFull);
    }

    method FnHeaderOf(cur: Cur) returns (r: Result<Name, ParseError>)
      requires cur.Valid()
      modifies cur, cur.lx
      ensures cur.Valid()
      ensures Matches(FnHeader(old(cur.Left())), r, cur.Left())
    {
      r := ExpectName(cur);
      if r.Err? {
        return;
      }
      var open := cur.Next();
      if open != LParen {
        return Err(UnexpectedToken);
      }
      var close := cur.Next();
      if close != RParen {
        return Err(UnexpectedToken);
      }
      var brace := cur.Next();
      if brace != LBrace {
        return Err(UnexpectedToken);
      }
    }

    /** Compile a definition into the scratch stream. */
    method FnArgsOf(cur: Cur, mc: Machine) returns (r: Result<Fn, ParseError>)
      requires Valid() && cur.Valid()
      modifies this`streamLen, stream, cur, cur.lx
      ensures Valid() && cur.Valid() && r == FnArgs(EnvOf(mc), fns[..], old(cur.Left()))
    {
      var n := FnHeaderOf(cur);
      if n.Err? {
        return Err(n.error);
      }
      StreamReset();
      var body := BlockOf(cur, mc);
      if body.Err? {
        return Err(body.error);
      }
      r := if streamLen > FN_BODY_WORDS then Err(StreamFull) else Ok(Fn(n.value, stream[..streamLen]));
    }

    method FreeSlotOf() returns (r: Option<nat>)
      requires Valid()
      ensures r == FreeSlot(fns[..], 0)
    {
      var i := 0;
      while i < MAX_FNS
        invariant i <= MAX_FNS && FreeSlot(fns[..], i) == FreeSlot(fns[..], 0)
      {
        if fns[i].name == [] {
          return Some(i);
        }
        i := i + 1;
      }
      return None;
    }

    /** Find a slot for a new function and store it. */
    method StoreFn(f: Fn) returns (r: Result<(), ParseError>)
      requires Valid()
      modifies fns
      ensures var p := AddFn(old(fns[..]), f);
              if p.Ok? then r == Ok(()) && fns[..] == p.value else r == Err(p.error) && fns[..] == old(fns[..])
    {
      var live := FindFnOf(f.name);
      if live.Some? {
        return Err(DuplicateFn);
      }
      var free := FreeSlotOf();
      if free.None? {
        return Err(FnTableFull);
      }
      fns[free.value] := f;
      return Ok(());
    }

    method ParseFn(cur: Cur, mc: Machine) returns (r: Result<Outcome, ParseError>)
      requires Valid() && cur.Valid()
      modifies this`streamLen, stream, fns, cur, cur.lx
      ensures Valid() && cur.Valid()
      ensures (r, Model()) == FnLine(old(EnvOf(mc)), old(Model()), old(cur.Left()))
    {
      var f := FnArgsOf(cur, mc);
      if f.Err? {
        return Err(f.error);
      }
      var stored := StoreFn(f.value);
      r := if stored.Ok? then Ok(FnDefined(f.value.name)) else Err(stored.error);
    }

    /** Compile one line. */
    method Parse(line: seq<Byte>, mc: Machine) returns (r: Result<Outcome, ParseError>)
      requires Valid()
      modifies this`streamLen, stream, symbols, fns
      ensures Valid()
      ensures (r, Model()) == ParseLine(old(EnvOf(mc)), old(Model()), Tokens(line, 0))
    {
      var cur := new Cur(line);
      var first := cur.Next();
      match first
      case Eof =>
        r := Err(EmptyLine);
      case KwLet =>
        r := ParseLet(cur, mc);
      case KwFn =>
        r := ParseFn(cur, mc);
      case Identifier(id) =>
        r := ParseCommand(id, cur, mc);
      case Literal(_) =>
        r := ValueCommandOf(first, cur, mc);
      case Operator(_) =>
        r := ValueCommandOf(first, cur, mc);
      case LParen =>
        r := ValueCommandOf(first, cur, mc);
      case Error(kind) =>
        r := Err(LexFailure(kind));
      case _ =>
        r := Err(UnexpectedToken);
    }

    /** Copy the body of a live function into a buffer of `size` words. */
    method ExportFn(name: Name, size: nat) returns (r: Option<seq<Word>>)
      requires Valid()
      ensures r == Lines.ExportFn(fns[..], name, size)
    {
      var i := FindFnOf(name);
      if i.None? || |fns[i.value].body| > size {
        return None;
      }
      return Some(fns[i.value].body);
    }

    /** Insert a function as if it had been defined. */
    method ImportFn(name: Name, words: seq<Word>) returns (r: Result<(), ParseError>)
      requires Valid()
      modifies fns
      ensures var p := Lines.ImportFn(old(fns[..]), name, words);
              if p.Ok? then r == Ok(()) && fns[..] == p.value else r == Err(p.error) && fns[..] == old(fns[..])
    {
      if |name| > NAME_MAX {
        return Err(NameTooLong);
      }
      if |words| > FN_BODY_WORDS {
        return Err(StreamFull);
      }
      r := StoreFn(Fn(name, words));
    }
  }
}

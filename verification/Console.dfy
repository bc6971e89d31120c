/**
  Commands typed at the prompt (src/compiler/parser.rs:442-607) and what the
  console does with their outcomes (src/drivers/repl.rs:173-227, 432-470).

  What each command means is written down from its name, its arguments and the
  resource it needs; the line parser is proved to compute that meaning.
 */
module Console {
  import opened Words
  import opened Lexer
  import opened Symbols
  import opened Printer
  import opened Expressions
  import opened Capability
  import opened Statements
  import opened Lines
  import opened Sessions
  import opened SourceText
  import Streams

  // ---------------------------------------------------------------------
  // Commands that take numbers
  // ---------------------------------------------------------------------

  datatype Cmd =
    | PeekCmd(addr: Expr)
    | PokeCmd(addr: Expr, val: Expr)
    | SetBitCmd(addr: Expr, bit: Expr)
    | ClrBitCmd(addr: Expr, bit: Expr)
    | PwmCmd(period: Expr, duty: Expr)
    | DutyCmd(duty: Expr)
    | SpiCmd(data: Expr)
    | AllocCmd(size: Expr)

  function Verb(c: Cmd): Name {
    match c
    case PeekCmd(_) => Ascii("peek")
    case PokeCmd(_, _) => Ascii("poke")
    case SetBitCmd(_, _) => Ascii("reg_set_bit")
    case ClrBitCmd(_, _) => Ascii("reg_clr_bit")
    case PwmCmd(_, _) => Ascii("pwm")
    case DutyCmd(_) => Ascii("pwm_duty")
    case SpiCmd(_) => Ascii("spi_tx")
    case AllocCmd(_) => Ascii("pool_alloc")
  }

  /** The arguments, as they are written. */
  function ArgsOf(c: Cmd): (es: seq<Expr>)
    ensures 1 <= |es| <= 2
  {
    match c
    case PeekCmd(a) => [a]
    case PokeCmd(a, v) => [a, v]
    case SetBitCmd(a, b) => [a, b]
    case ClrBitCmd(a, b) => [a, b]
    case PwmCmd(p, d) => [p, d]
    case DutyCmd(d) => [d]
    case SpiCmd(d) => [d]
    case AllocCmd(n) => [n]
  }

  /** Every argument is an operand; only the value of a poke may be compound. */
  predicate IsCmd(c: Cmd) {
    var es := ArgsOf(c);
    IsOperand(es[0]) && (|es| == 2 ==> WellFormed(es[1]) && (c.PokeCmd? || !es[1].Bin?))
  }

  predicate SpelledCmd(c: Cmd) {
    var es := ArgsOf(c);
    Spelled(es[0]) && (|es| == 2 ==> Spelled(es[1]))
  }

  function CmdTokens(c: Cmd): seq<Token> {
    var es := ArgsOf(c);
    [Identifier(Verb(c))] + (ExprTokens(es[0]) + if |es| == 2 then ExprTokens(es[1]) else [])
  }

  /** The values of the arguments, or the first error. */
  function Values(c: Cmd, m: map<Name, Word>, peek: Word -> Word): (r: Result<seq<Word>, ParseError>)
    requires IsCmd(c)
    ensures r.Ok? ==> |r.value| == |ArgsOf(c)|
  {
    var es := ArgsOf(c);
    match Evaluate(m, peek, es[0])
    case Err(x) => Err(x)
    case Ok(a) =>
      if |es| == 1 then Ok([a])
      else (match Evaluate(m, peek, es[1]) case Err(x) => Err(x) case Ok(b) => Ok([a, b]))
  }

  /**
    What a command needs: access to the address it names, the timer (resource 5)
    for pulse widths, the SPI port (resource 3) for a transfer; the super-user
    (resource 31) may do everything.
   */
  predicate Admitted(c: Cmd, bits: seq<Bits>, args: seq<Word>)
    requires |args| >= 1
  {
    match c
    case PwmCmd(_, _) => IsSet(bits, 5) || IsSet(bits, 31)
    case DutyCmd(_) => IsSet(bits, 5) || IsSet(bits, 31)
    case SpiCmd(_) => IsSet(bits, 3) || IsSet(bits, 31)
    case AllocCmd(_) => true
    case _ => CheckAccess(bits, args[0])
  }

  /** What is handed to the console: the values as written; a transfer keeps one byte. */
  function Handed(c: Cmd, args: seq<Word>): seq<Word>
    requires |args| >= 1
  {
    if c.SpiCmd? then [args[0] % 256] else args
  }

  /** The meaning of a command followed by `tail`: its outcome, or its first error. */
  function Meaning(c: Cmd, m: map<Name, Word>, mc: Machine, tail: seq<Token>): Result<Outcome, ParseError>
    requires IsCmd(c)
  {
    match Values(c, m, mc.peek)
    case Err(x) => Err(x)
    case Ok(args) =>
      if !EndsLine(tail) then Err(MissingSemicolon)
      else if !Admitted(c, mc.bits, args) then Err(CapabilityViolation)
      else Ok(Direct(Verb(c), Handed(c, args)))
  }

  /** The names the parser compares with, in letters. */
  lemma MemoryNames()
    ensures PEEK == Ascii("peek") && POKE == Ascii("poke") && LOOP == Ascii("loop")
    ensures REG_SET_BIT == Ascii("reg_set_bit") && REG_CLR_BIT == Ascii("reg_clr_bit")
  {
  }

  lemma DeviceNames()
    ensures PWM == Ascii("pwm") && PWM_DUTY == Ascii("pwm_duty") && SPI_TX == Ascii("spi_tx")
    ensures POOL_ALLOC == Ascii("pool_alloc")
  {
  }

  lemma WordNames()
    ensures CAP_CLAIM == Ascii("cap_claim") && CAP_DROP == Ascii("cap_drop") && SPAWN == Ascii("spawn")
    ensures STORE == Ascii("store") && LOAD == Ascii("load")
  {
  }

  lemma PlainNames()
    ensures HELP == Ascii("help") && BANNER == Ascii("banner") && BENCH == Ascii("bench")
    ensures SYS_AUDIT == Ascii("sys_audit")
  {
  }

  lemma MorePlainNames()
    ensures STORE_LIST == Ascii("store_list") && FLASH_TEST == Ascii("flash_test")
    ensures POOL_FREE == Ascii("pool_free") && POOL_STATS == Ascii("pool_stats")
  {
  }

  lemma KeywordNames()
    ensures FN == Ascii("fn") && LET == Ascii("let")
  {
  }

  /** How the parser takes the arguments of each command. */
  lemma VerbShape(c: Cmd)
    ensures ShapeOf(Verb(c)) ==
            match c
            case PeekCmd(_) => Terms(false, FirstArg)
            case PokeCmd(_, _) => PokeShape
            case SetBitCmd(_, _) => Terms(true, FirstArg)
            case ClrBitCmd(_, _) => Terms(true, FirstArg)
            case PwmCmd(_, _) => Terms(true, Fixed(0x4000_0000))
            case DutyCmd(_) => Terms(false, Fixed(0x4000_0000))
            case SpiCmd(_) => Terms(false, Fixed(0x4001_3000))
            case AllocCmd(_) => Terms(false, Open)
    ensures Verb(c) == SPI_TX <==> c.SpiCmd?
    ensures c.PokeCmd? ==> Verb(c) == POKE
    ensures IsName(Verb(c))
  {
    MemoryNames();
    DeviceNames();
  }

  lemma TailEnds(tail: seq<Token>)
    ensures EndsLine(tail) <==> Semi((), tail).Got?
    ensures !EndsLine(tail) ==> Semi((), tail) == Fail(MissingSemicolon)
  {
  }

  /** What is read of the arguments `r`, with `tail` behind them. */
  ghost predicate ReadsAs(got: Parsed<seq<Word>>, r: Result<seq<Word>, ParseError>, tail: seq<Token>) {
    match r
    case Err(x) => got == Fail(x)
    case Ok(args) => if EndsLine(tail) then got.Got? && got.value == args else got == Fail(MissingSemicolon)
  }

  lemma OneTermReads(env: Env, m: map<Name, Word>, e: Expr, tail: seq<Token>)
    requires Binds(env, m) && IsOperand(e)
    ensures var r := Evaluate(m, env.peek, e);
            ReadsAs(TermArgs(env, false, ExprTokens(e) + tail), if r.Ok? then Ok([r.value]) else Err(r.error), tail)
  {
    OperandReads(env, m, e, tail);
  }

  lemma TwoTermsRead(env: Env, m: map<Name, Word>, e: Expr, f: Expr, tail: seq<Token>)
    requires Binds(env, m) && IsOperand(e) && IsOperand(f)
    ensures var r, q := Evaluate(m, env.peek, e), Evaluate(m, env.peek, f);
            ReadsAs(TermArgs(env, true, ExprTokens(e) + (ExprTokens(f) + tail)),
                    if r.Err? then Err(r.error) else if q.Err? then Err(q.error) else Ok([r.value, q.value]), tail)
  {
    OperandReads(env, m, e, ExprTokens(f) + tail);
    OperandReads(env, m, f, tail);
  }

  lemma CmdRest(c: Cmd, tail: seq<Token>)
    ensures var es := ArgsOf(c);
            Rest(CmdTokens(c) + tail) ==
            ExprTokens(es[0]) + if |es| == 2 then ExprTokens(es[1]) + tail else tail
  {
    var es := ArgsOf(c);
    var args := ExprTokens(es[0]) + if |es| == 2 then ExprTokens(es[1]) else [];
    Assoc([Identifier(Verb(c))], args, tail);
    assert Rest([Identifier(Verb(c))] + (args + tail)) == args + tail;
    Assoc(ExprTokens(es[0]), if |es| == 2 then ExprTokens(es[1]) else [], tail);
    assert [] + tail == tail;
  }

  lemma TermArgsRead(env: Env, m: map<Name, Word>, c: Cmd, tail: seq<Token>)
    requires Binds(env, m) && IsCmd(c) && !c.PokeCmd?
    ensures ReadsAs(TermArgs(env, |ArgsOf(c)| == 2, Rest(CmdTokens(c) + tail)), Values(c, m, env.peek), tail)
  {
    var es := ArgsOf(c);
    CmdRest(c, tail);
    if |es| == 1 {
      OneTermReads(env, m, es[0], tail);
    } else {
      TwoTermsRead(env, m, es[0], es[1], tail);
    }
  }

  /** What a poke reads: address, then value. */
  ghost predicate PokeReadsAs(got: Parsed<Streams.Block>, r: Result<seq<Word>, ParseError>, tail: seq<Token>) {
    match r
    case Err(x) => got == Fail(x)
    case Ok(args) =>
      && |args| == 2
      && if EndsLine(tail) then got.Got? && got.value == Streams.Poke(args[0], args[1])
         else got == Fail(MissingSemicolon)
  }

  lemma PokeTermsRead(env: Env, m: map<Name, Word>, e: Expr, f: Expr, tail: seq<Token>)
    requires Binds(env, m) && IsOperand(e) && WellFormed(f) && Ends(tail)
    ensures var r, q := Evaluate(m, env.peek, e), Evaluate(m, env.peek, f);
            PokeReadsAs(PokeArgs(env, ExprTokens(e) + (ExprTokens(f) + tail)),
                        if r.Err? then Err(r.error) else if q.Err? then Err(q.error) else Ok([r.value, q.value]), tail)
  {
    OperandReads(env, m, e, ExprTokens(f) + tail);
    EvalRoundTrip(env, m, f, tail);
  }

  lemma PokeArgsRead(env: Env, m: map<Name, Word>, c: Cmd, tail: seq<Token>)
    requires Binds(env, m) && IsCmd(c) && c.PokeCmd? && Ends(tail)
    ensures PokeReadsAs(PokeArgs(env, Rest(CmdTokens(c) + tail)), Values(c, m, env.peek), tail)
  {
    CmdRest(c, tail);
    PokeTermsRead(env, m, c.addr, c.val, tail);
  }

  lemma ProbeMeans(bits: seq<Bits>)
    ensures CheckAccess(bits, 0x4000_0000) <==> IsSet(bits, 5) || IsSet(bits, 31)
    ensures CheckAccess(bits, 0x4001_3000) <==> IsSet(bits, 3) || IsSet(bits, 31)
  {
    GateMeans(bits, 0x4000_0000);
    GateMeans(bits, 0x4001_3000);
    assert Owns(5, 0x4000_0000) && Owns(3, 0x4001_3000);
  }

  lemma GuardMeans(c: Cmd, bits: seq<Bits>, guard: Guard, two: bool, args: seq<Word>)
    requires ShapeOf(Verb(c)) == Terms(two, guard) && |args| >= 1
    ensures Allowed(bits, guard, args[0]) <==> Admitted(c, bits, args)
    ensures [Trimmed(Verb(c), args[0])] + args[1..] == Handed(c, args) || |args| != |ArgsOf(c)|
  {
    VerbShape(c);
    ProbeMeans(bits);
  }

  lemma TermsMean(env: Env, m: map<Name, Word>, c: Cmd, tail: seq<Token>, guard: Guard)
    requires Binds(env, m) && IsCmd(c) && ShapeOf(Verb(c)) == Terms(|ArgsOf(c)| == 2, guard) && !c.PokeCmd?
    ensures TermsCommand(env, Verb(c), |ArgsOf(c)| == 2, guard, Rest(CmdTokens(c) + tail)) ==
            Meaning(c, m, Machine(env.peek, env.bits), tail)
  {
    TermArgsRead(env, m, c, tail);
    var r := Values(c, m, env.peek);
    if r.Ok? {
      GuardMeans(c, env.bits, guard, |ArgsOf(c)| == 2, r.value);
    }
  }

  lemma PokeMeans(env: Env, m: map<Name, Word>, c: Cmd, tail: seq<Token>)
    requires Binds(env, m) && IsCmd(c) && c.PokeCmd? && Ends(tail)
    ensures PokeCommand(env, Rest(CmdTokens(c) + tail)) == Meaning(c, m, Machine(env.peek, env.bits), tail)
  {
    VerbShape(c);
    PokeArgsRead(env, m, c, tail);
  }

  lemma CommandMeans(env: Env, fns: seq<Fn>, m: map<Name, Word>, c: Cmd, tail: seq<Token>)
    requires Binds(env, m) && IsCmd(c) && Ends(tail)
    ensures Command(env, fns, Verb(c), Rest(CmdTokens(c) + tail)) == Meaning(c, m, Machine(env.peek, env.bits), tail)
  {
    VerbShape(c);
    if c.PokeCmd? {
      PokeMeans(env, m, c, tail);
    } else {
      TermsMean(env, m, c, tail, ShapeOf(Verb(c)).guard);
    }
  }

  lemma CmdPrintable(c: Cmd)
    requires IsCmd(c) && SpelledCmd(c)
    ensures AllPrintable(CmdTokens(c))
  {
    VerbShape(c);
    var es := ArgsOf(c);
    ExprPrintable(es[0]);
    if |es| == 2 {
      ExprPrintable(es[1]);
    }
  }

  /**
    A command typed at the prompt is answered with its verb and the values of
    its arguments in the order written, if and only if they evaluate, the
    statement ends there, and the command is admitted; otherwise with the first
    error.  The tables stay.
   */
  lemma DirectExact(hash: Hash, t: Tables, m: map<Name, Word>, c: Cmd, tail: seq<Token>, mc: Machine)
    requires Represents(hash, t.symbols, m) && IsCmd(c) && SpelledCmd(c) && AllPrintable(tail) && Ends(tail)
    ensures AllPrintable(CmdTokens(c) + tail)
    ensures Answer(hash, t, Entry(Render(CmdTokens(c) + tail), mc.peek, mc.bits)) == (Meaning(c, m, mc, tail), t)
  {
    CmdPrintable(c);
    TextTokens(CmdTokens(c) + tail);
    assert First(CmdTokens(c) + tail) == Identifier(Verb(c));
    CommandMeans(Env(hash, t.symbols, mc.peek, mc.bits), t.fns, m, c, tail);
  }

  // ---------------------------------------------------------------------
  // Commands that take a name or nothing, and lines that are no command
  // ---------------------------------------------------------------------

  predicate TakesName(v: Name) {
    || v == Ascii("cap_claim") || v == Ascii("cap_drop") || v == Ascii("store") || v == Ascii("load")
    || v == Ascii("spawn")
  }

  predicate TakesNothing(v: Name) {
    || v == Ascii("help") || v == Ascii("banner") || v == Ascii("bench") || v == Ascii("sys_audit")
    || v == Ascii("store_list") || v == Ascii("flash_test") || v == Ascii("pool_free") || v == Ascii("pool_stats")
  }

  lemma NameShape(v: Name)
    requires TakesName(v)
    ensures ShapeOf(v) == OneName && IsName(v)
  {
    WordNames();
  }

  lemma NothingShape(v: Name)
    requires TakesNothing(v)
    ensures ShapeOf(v) == NoArgs && IsName(v)
  {
    if v == Ascii("help") || v == Ascii("banner") || v == Ascii("bench") || v == Ascii("sys_audit") {
      PlainNames();
    } else {
      MorePlainNames();
    }
  }

  /** What is made of the tokens after a verb that takes a name. */
  function NameMeaning(v: Name, ts: seq<Token>): Result<Outcome, ParseError> {
    if ts == [] || !ts[0].Identifier? then Err(UnexpectedToken)
    else if |ts[0].name| > 16 then Err(NameTooLong)
    else if !EndsLine(ts[1..]) then Err(MissingSemicolon)
    else Ok(Named(v, ts[0].name))
  }

  /** A command that takes a name is answered with it, or with the first error. */
  lemma NamedExact(hash: Hash, t: Tables, v: Name, ts: seq<Token>, mc: Machine)
    requires |t.symbols| == SLOTS && TakesName(v) && AllPrintable(ts)
    ensures AllPrintable([Identifier(v)] + ts)
    ensures Answer(hash, t, Entry(Render([Identifier(v)] + ts), mc.peek, mc.bits)) == (NameMeaning(v, ts), t)
  {
    NameShape(v);
    var all := [Identifier(v)] + ts;
    TextTokens(all);
    assert First(all) == Identifier(v) && Rest(all) == ts;
  }

  /** A command that takes nothing is answered at once, whatever follows. */
  lemma PlainExact(hash: Hash, t: Tables, v: Name, ts: seq<Token>, mc: Machine)
    requires |t.symbols| == SLOTS && TakesNothing(v) && AllPrintable(ts)
    ensures AllPrintable([Identifier(v)] + ts)
    ensures Answer(hash, t, Entry(Render([Identifier(v)] + ts), mc.peek, mc.bits)) == (Ok(Plain(v)), t)
  {
    NothingShape(v);
    var all := [Identifier(v)] + ts;
    TextTokens(all);
    assert First(all) == Identifier(v) && Rest(all) == ts;
  }

  /** A line that starts with no name, number or parenthesis is an error, and changes nothing. */
  lemma OddLine(hash: Hash, t: Tables, e: Entry)
    requires |t.symbols| == SLOTS
    ensures var ts := Tokens(e.text, 0);
            var r := Answer(hash, t, e);
            && (ts == [] ==> r == (Err(EmptyLine), t))
            && (ts != [] && ts[0].Error? ==> r == (Err(LexFailure(ts[0].kind)), t))
            && (ts != [] && (ts[0].Operator? || ts[0] in {RParen, LBrace, RBrace, Semicolon, Comma}) ==>
                r == (Err(UnexpectedToken), t))
  {
    var ts := Tokens(e.text, 0);
    var env := Env(hash, t.symbols, e.peek, e.bits);
    if ts != [] && ts[0].Operator? {
      assert Operand(env, ts[0], Rest(ts)) == ResolveTerm(env, ts[0], Rest(ts));
    }
  }

  // ---------------------------------------------------------------------
  // What the console does
  // ---------------------------------------------------------------------

  /** `resolve_name` */
  function Resolve(n: Name): Option<nat> {
    if n == Ascii("GPIOA") then Some(0)
    else if n == Ascii("GPIOB") then Some(1)
    else if n == Ascii("UART0") then Some(2)
    else if n == Ascii("SPI0") then Some(3)
    else if n == Ascii("I2C0") then Some(4)
    else if n == Ascii("TIMER0") then Some(5)
    else if n == Ascii("DMA0") then Some(6)
    else if n == Ascii("SUPERUSER") then Some(31)
    else None
  }

  /** The second check, made when the access happens: unmapped addresses are not refused here. */
  predicate Enforced(bits: seq<Bits>, a: Word) {
    IsSet(bits, SUPERUSER) || (AddrToCapId(a).Some? ==> IsSet(bits, AddrToCapId(a).value))
  }

  /** `v | (1 << b)` */
  function WithBit(v: nat, b: nat): nat {
    if b == 0 then v - v % 2 + 1 else v % 2 + 2 * WithBit(v / 2, b - 1)
  }

  /** `v & !(1 << b)` */
  function WithoutBit(v: nat, b: nat): nat {
    if b == 0 then v - v % 2 else v % 2 + 2 * WithoutBit(v / 2, b - 1)
  }

  lemma {:induction false} WithBitMeans(v: nat, b: nat, k: nat)
    ensures Bit(WithBit(v, b), k) <==> Bit(v, k) || k == b
    ensures Bit(WithoutBit(v, b), k) <==> Bit(v, k) && k != b
    decreases b
  {
    if b == 0 {
      assert (v - v % 2 + 1) / 2 == v / 2 && (v - v % 2) / 2 == v / 2;
    } else {
      var x, y := WithBit(v / 2, b - 1), WithoutBit(v / 2, b - 1);
      assert (v % 2 + 2 * x) / 2 == x && (v % 2 + 2 * y) / 2 == y;
      if k > 0 {
        WithBitMeans(v / 2, b - 1, k - 1);
      }
    }
  }

  lemma {:induction false} WithBitFits(v: nat, b: nat, n: nat)
    requires v < Pow2(n) && b < n
    ensures WithBit(v, b) < Pow2(n) && WithoutBit(v, b) < Pow2(n)
  {
    if b > 0 {
      WithBitFits(v / 2, b - 1, n - 1);
    }
  }

  /** Tables, registry, and the bus the console's accesses go to. */
  datatype Desk = Desk(tables: Tables, bits: seq<Bits>, bus: Bus)

  function DoClaim(bits: seq<Bits>, n: Name): seq<Bits> {
    match Resolve(n)
    case None => bits
    case Some(id) => Acquire(bits, id).0
  }

  function DoDrop(bits: seq<Bits>, n: Name): seq<Bits> {
    match Resolve(n)
    case None => bits
    case Some(id) => if IsSet(bits, id) then Release(bits, id) else bits
  }

  function DoPoke(bits: seq<Bits>, bus: Bus, a: Word, v: Word): Bus {
    if Enforced(bits, a) then bus.AfterWrite(a, v) else bus
  }

  function DoPeek(bits: seq<Bits>, bus: Bus, a: Word): Bus {
    if Enforced(bits, a) then bus.AfterRead(a) else bus
  }

  /** Read, change one bit, write back; the shift distance counts modulo 32. */
  function DoUpdate(bits: seq<Bits>, bus: Bus, a: Word, bit: Word, set1: bool): Bus {
    Pow2Word();
    WithBitFits(bus.Peek(a), bit % 32, 32);
    DoPoke(bits, bus.AfterRead(a), a,
           if set1 then WithBit(bus.Peek(a), bit % 32) else WithoutBit(bus.Peek(a), bit % 32))
  }

  /** The direct accesses. */
  function DoDirect(bits: seq<Bits>, bus: Bus, verb: Name, args: seq<Word>): Bus {
    if verb == PEEK && |args| == 1 then DoPeek(bits, bus, args[0])
    else if verb == POKE && |args| == 2 then DoPoke(bits, bus, args[0], args[1])
    else if verb == REG_SET_BIT && |args| == 2 then DoUpdate(bits, bus, args[0], args[1], true)
    else if verb == REG_CLR_BIT && |args| == 2 then DoUpdate(bits, bus, args[0], args[1], false)
    else bus
  }

  /** `execute`, as far as it concerns the registry and direct accesses. */
  function Execute(d: Desk, o: Outcome): Desk {
    match o
    case Named(verb, n) =>
      if verb == CAP_CLAIM then d.(bits := DoClaim(d.bits, n))
      else if verb == CAP_DROP then d.(bits := DoDrop(d.bits, n))
      else d
    case Direct(verb, args) => d.(bus := DoDirect(d.bits, d.bus, verb, args))
    case _ => d
  }

  /** A line of text, and what compile-time reads return while it is compiled. */
  datatype Input = Input(text: seq<Byte>, peek: Word -> Word)

  function Reply(hash: Hash, d: Desk, i: Input): Result<Outcome, ParseError>
    requires |d.tables.symbols| == SLOTS
  {
    Answer(hash, d.tables, Entry(i.text, i.peek, d.bits)).0
  }

  /** One line: compile it, then execute its outcome. */
  function Typed(hash: Hash, d: Desk, i: Input): (d1: Desk)
    requires |d.tables.symbols| == SLOTS
    ensures |d1.tables.symbols| == SLOTS && |d1.bits| == |d.bits|
  {
    var (r, t) := Answer(hash, d.tables, Entry(i.text, i.peek, d.bits));
    match r
    case Err(_) => d.(tables := t)
    case Ok(o) => Execute(d.(tables := t), o)
  }

  function TypedAll(hash: Hash, d: Desk, lines: seq<Input>): (d1: Desk)
    requires |d.tables.symbols| == SLOTS
    ensures |d1.tables.symbols| == SLOTS && |d1.bits| == |d.bits|
    decreases |lines|
  {
    if lines == [] then d else Typed(hash, TypedAll(hash, d, lines[..|lines| - 1]), lines[|lines| - 1])
  }

  /** What passes the gate when a line is compiled is not refused when it is executed. */
  lemma SecondCheckAgrees(bits: seq<Bits>, a: Word)
    requires CheckAccess(bits, a)
    ensures Enforced(bits, a)
  {
  }

  /** The verbs that access memory, with the number of their arguments. */
  predicate Accesses(verb: Name, n: nat) {
    || (verb == PEEK && n == 1)
    || ((verb == POKE || verb == REG_SET_BIT || verb == REG_CLR_BIT) && n == 2)
  }

  lemma AccessShape(verb: Name)
    requires verb == PEEK || verb == POKE || verb == REG_SET_BIT || verb == REG_CLR_BIT
    ensures ShapeOf(verb) == if verb == POKE then PokeShape else Terms(verb != PEEK, FirstArg)
    ensures verb != SPI_TX
  {
  }

  /** Whatever the tokens of the line: an access it is answered with passed the gate. */
  lemma DirectPassed(env: Env, t: Tables, ts: seq<Token>)
    requires env.Valid() && |t.symbols| == SLOTS
    ensures var r := ParseLine(env, t, ts).0;
            r.Ok? && r.value.Direct? && Accesses(r.value.verb, |r.value.args|) ==>
              CheckAccess(env.bits, r.value.args[0])
  {
    var r := ParseLine(env, t, ts).0;
    if r.Ok? && r.value.Direct? && Accesses(r.value.verb, |r.value.args|) {
      AccessShape(r.value.verb);
      assert First(ts).Identifier? && r == Command(env, t.fns, First(ts).name, Rest(ts));
      assert r.value.verb == First(ts).name;
    }
  }

  /** The accesses of a direct command are all at its address. */
  lemma DirectTouches(bits: seq<Bits>, bus: Bus, verb: Name, args: seq<Word>)
    ensures var b1 := DoDirect(bits, bus, verb, args);
            && bus.trace <= b1.trace && (b1 != bus ==> Accesses(verb, |args|))
            && forall k :: |bus.trace| <= k < |b1.trace| ==> |args| > 0 && b1.trace[k].addr == args[0]
  {
  }

  /** The trace grew by accesses that pass the gate under `bits`. */
  ghost predicate GrewBy(bits: seq<Bits>, before: seq<Access>, after: seq<Access>) {
    before <= after && forall k :: |before| <= k < |after| ==> CheckAccess(bits, after[k].addr)
  }

  /** Every access a line makes passed the gate under the registry of that moment. */
  lemma LinePermitted(hash: Hash, d: Desk, i: Input)
    requires |d.tables.symbols| == SLOTS
    ensures GrewBy(d.bits, d.bus.trace, Typed(hash, d, i).bus.trace)
  {
    var env := Env(hash, d.tables.symbols, i.peek, d.bits);
    DirectPassed(env, d.tables, Tokens(i.text, 0));
    var r := Reply(hash, d, i);
    if r.Ok? && r.value.Direct? {
      DirectTouches(d.bits, d.bus, r.value.verb, r.value.args);
    }
  }

  /** Every desk of the sequence made permitted accesses to become the next. */
  ghost predicate GrowingDesks(ds: seq<Desk>) {
    forall i, j :: 0 <= i && j == i + 1 < |ds| ==> GrewBy(ds[i].bits, ds[i].bus.trace, ds[j].bus.trace)
  }

  /** Which of the desks made access k. */
  lemma {:induction false} MadeBy(ds: seq<Desk>, k: nat) returns (n: nat)
    requires GrowingDesks(ds) && ds != [] && |ds[0].bus.trace| <= k < |ds[|ds| - 1].bus.trace|
    ensures n + 1 < |ds| && CheckAccess(ds[n].bits, ds[|ds| - 1].bus.trace[k].addr)
    decreases |ds|
  {
    var last := |ds| - 2;
    if k < |ds[last].bus.trace| {
      n := MadeBy(ds[..|ds| - 1], k);
    } else {
      n := last;
    }
  }

  /** The desks before, between and after the lines. */
  ghost function Desks(hash: Hash, d: Desk, lines: seq<Input>): seq<Desk>
    requires |d.tables.symbols| == SLOTS
  {
    seq(|lines| + 1, i requires 0 <= i <= |lines| => TypedAll(hash, d, lines[..i]))
  }

  lemma NextDesk(hash: Hash, d: Desk, lines: seq<Input>, i: nat)
    requires |d.tables.symbols| == SLOTS && i < |lines|
    ensures TypedAll(hash, d, lines[..i + 1]) == Typed(hash, TypedAll(hash, d, lines[..i]), lines[i])
  {
    assert lines[..i + 1][..i] == lines[..i];
  }

  /** Over any sequence of lines, whatever they hold: every access passed under the registry its line found. */
  lemma EveryAccessPermitted(hash: Hash, d: Desk, lines: seq<Input>, k: nat) returns (n: nat)
    requires |d.tables.symbols| == SLOTS && |d.bus.trace| <= k < |TypedAll(hash, d, lines).bus.trace|
    ensures n < |lines|
    ensures CheckAccess(TypedAll(hash, d, lines[..n]).bits, TypedAll(hash, d, lines).bus.trace[k].addr)
  {
    var ds := Desks(hash, d, lines);
    forall i, j | 0 <= i && j == i + 1 < |ds| ensures GrewBy(ds[i].bits, ds[i].bus.trace, ds[j].bus.trace) {
      NextDesk(hash, d, lines, i);
      LinePermitted(hash, ds[i], lines[i]);
    }
    assert ds[0] == d && lines[..|lines|] == lines;
    n := MadeBy(ds, k);
  }

  // ---------------------------------------------------------------------
  // Claims, drops and the accesses between them
  // ---------------------------------------------------------------------

  predicate IsResource(id: nat) {
    id < 7 || id == 31
  }

  function Label(id: nat): Name
    requires IsResource(id)
  {
    Ascii(["GPIOA", "GPIOB", "UART0", "SPI0", "I2C0", "TIMER0", "DMA0", "SUPERUSER"][if id == 31 then 7 else id])
  }

  /** The names are distinct, and each stands for its resource. */
  lemma ResolveExact(n: Name, id: nat)
    ensures Resolve(n) == Some(id) <==> IsResource(id) && n == Label(id)
  {
    assert Ascii("GPIOA")[4] == 0x41 && Ascii("GPIOB")[4] == 0x42 && Ascii("UART0")[0] == 0x55;
    assert Ascii("SPI0")[0] == 0x53 && Ascii("I2C0")[0] == 0x49 && Ascii("DMA0")[0] == 0x44;
  }

  /** The reply is that this resource is to be claimed, or dropped. */
  predicate Asks(r: Result<Outcome, ParseError>, verb: Name, id: nat)
    requires IsResource(id)
  {
    r == Ok(Named(verb, Label(id)))
  }

  /** The replies to a sequence of lines. */
  function Replies(hash: Hash, d: Desk, lines: seq<Input>): (rs: seq<Result<Outcome, ParseError>>)
    requires |d.tables.symbols| == SLOTS
    ensures |rs| == |lines|
    decreases |lines|
  {
    if lines == [] then []
    else
      var front := lines[..|lines| - 1];
      Replies(hash, d, front) + [Reply(hash, TypedAll(hash, d, front), lines[|lines| - 1])]
  }

  /** The last of the replies that concerns the resource claims it. */
  predicate Held(rs: seq<Result<Outcome, ParseError>>, id: nat)
    requires IsResource(id)
    decreases |rs|
  {
    rs != [] &&
    var last := rs[|rs| - 1];
    || Asks(last, Ascii("cap_claim"), id)
    || (!Asks(last, Ascii("cap_drop"), id) && Held(rs[..|rs| - 1], id))
  }

  lemma LineHolds(hash: Hash, d: Desk, i: Input, id: nat)
    requires |d.tables.symbols| == SLOTS && IsResource(id) && |d.bits| >= 1
    ensures var r := Reply(hash, d, i);
            IsSet(Typed(hash, d, i).bits, id) <==>
            Asks(r, Ascii("cap_claim"), id) || (!Asks(r, Ascii("cap_drop"), id) && IsSet(d.bits, id))
  {
    WordNames();
    var r := Reply(hash, d, i);
    if r.Ok? && r.value.Named? {
      ResolveExact(r.value.name, id);
      if Resolve(r.value.name).Some? {
        ResolveExact(r.value.name, Resolve(r.value.name).value);
      }
    }
  }

  /** From a registry with nothing claimed, a resource is held exactly when the last line about it claimed it. */
  lemma {:induction false} RegistryFollowsLines(hash: Hash, d: Desk, lines: seq<Input>, id: nat)
    requires |d.tables.symbols| == SLOTS && IsResource(id) && |d.bits| >= 1 && !IsSet(d.bits, id)
    ensures IsSet(TypedAll(hash, d, lines).bits, id) <==> Held(Replies(hash, d, lines), id)
    decreases |lines|
  {
    if lines != [] {
      var front := lines[..|lines| - 1];
      var rs := Replies(hash, d, lines);
      RegistryFollowsLines(hash, d, front, id);
      LineHolds(hash, TypedAll(hash, d, front), lines[|lines| - 1], id);
      assert rs[..|rs| - 1] == Replies(hash, d, front);
    }
  }

  /** The claims among the replies entitle to an access there. */
  ghost predicate MayAccess(rs: seq<Result<Outcome, ParseError>>, a: Word) {
    Held(rs, 31) || Unguarded(a) || exists id: nat :: Owns(id, a) && Held(rs, id)
  }

  /** Where the registry shows what is held, the gate lets through what the replies entitle to. */
  lemma GateFollowsReplies(bits: seq<Bits>, rs: seq<Result<Outcome, ParseError>>, a: Word)
    requires forall id: nat :: IsResource(id) ==> (IsSet(bits, id) <==> Held(rs, id))
    ensures CheckAccess(bits, a) <==> MayAccess(rs, a)
  {
    GateExact(bits, a);
    assert IsSet(bits, 31) <==> Held(rs, 31);
  }

  lemma GateFollowsLines(hash: Hash, d: Desk, lines: seq<Input>, a: Word)
    requires |d.tables.symbols| == SLOTS && |d.bits| >= 1 && forall id: nat :: !IsSet(d.bits, id)
    ensures CheckAccess(TypedAll(hash, d, lines).bits, a) <==> MayAccess(Replies(hash, d, lines), a)
  {
    var bits, rs := TypedAll(hash, d, lines).bits, Replies(hash, d, lines);
    forall id: nat | IsResource(id) ensures IsSet(bits, id) <==> Held(rs, id) {
      RegistryFollowsLines(hash, d, lines, id);
    }
    GateFollowsReplies(bits, rs, a);
  }

  /** The commands that access memory. */
  predicate IsAccess(c: Cmd) {
    c.PeekCmd? || c.PokeCmd? || c.SetBitCmd? || c.ClrBitCmd?
  }

  /** A word that differs from `v` at most in one bit. */
  ghost predicate DiffersAt(v: Word, w: Word, bit: nat, one: bool) {
    forall k: nat :: Bit(w, k) <==> if k == bit then one else Bit(v, k)
  }

  /** The accesses a command makes: a read, a write, or the update of one bit by a read and a write. */
  ghost predicate Effect(c: Cmd, args: seq<Word>, before: Bus, after: Bus)
    requires IsAccess(c) && |args| == |ArgsOf(c)|
  {
    var a := args[0];
    match c
    case PeekCmd(_) => after == before.AfterRead(a)
    case PokeCmd(_, _) => after == before.AfterWrite(a, args[1])
    case _ =>
      exists w: Word :: DiffersAt(before.Peek(a), w, args[1] % 32, c.SetBitCmd?) &&
                        after == before.AfterRead(a).AfterWrite(a, w)
  }

  lemma UpdateEffect(bits: seq<Bits>, bus: Bus, a: Word, bit: Word, one: bool)
    requires Enforced(bits, a)
    ensures exists w: Word :: DiffersAt(bus.Peek(a), w, bit % 32, one) &&
                              DoUpdate(bits, bus, a, bit, one) == bus.AfterRead(a).AfterWrite(a, w)
  {
    var v := bus.Peek(a);
    Pow2Word();
    WithBitFits(v, bit % 32, 32);
    var w: Word := if one then WithBit(v, bit % 32) else WithoutBit(v, bit % 32);
    forall k: nat ensures Bit(w, k) <==> if k == bit % 32 then one else Bit(v, k) {
      WithBitMeans(v, bit % 32, k);
    }
    assert DiffersAt(v, w, bit % 32, one);
  }

  lemma DirectEffect(c: Cmd, bits: seq<Bits>, bus: Bus, args: seq<Word>)
    requires IsAccess(c) && |args| == |ArgsOf(c)| && CheckAccess(bits, args[0])
    ensures Effect(c, args, bus, DoDirect(bits, bus, Verb(c), args))
  {
    MemoryNames();
    SecondCheckAgrees(bits, args[0]);
    if c.SetBitCmd? || c.ClrBitCmd? {
      UpdateEffect(bits, bus, args[0], args[1], c.SetBitCmd?);
    }
  }

  /** A command typed at a desk: its effect if it is admitted, and nothing otherwise. */
  lemma AccessLine(hash: Hash, d: Desk, m: map<Name, Word>, c: Cmd, tail: seq<Token>, peek: Word -> Word)
    requires Represents(hash, d.tables.symbols, m) && IsAccess(c)
    requires IsCmd(c) && SpelledCmd(c) && AllPrintable(tail) && Ends(tail)
    ensures AllPrintable(CmdTokens(c) + tail)
    ensures var d1 := Typed(hash, d, Input(Render(CmdTokens(c) + tail), peek));
            var args := Values(c, m, peek);
            && d1 == d.(bus := d1.bus)
            && if args.Ok? && EndsLine(tail) && CheckAccess(d.bits, args.value[0])
               then Effect(c, args.value, d.bus, d1.bus) else d1 == d
  {
    var args := Values(c, m, peek);
    DirectExact(hash, d.tables, m, c, tail, Machine(peek, d.bits));
    if args.Ok? && CheckAccess(d.bits, args.value[0]) {
      DirectEffect(c, d.bits, d.bus, args.value);
    }
  }

  /**
    A peek, poke or bit update typed after any lines has its effect, at the
    address its first argument is worth, if and only if its arguments evaluate,
    the statement ends there and the lines before hold a claim to the address;
    otherwise it touches nothing.  Tables and registry stay.
   */
  lemma AccessFollowsClaims(hash: Hash, d: Desk, lines: seq<Input>, m: map<Name, Word>, c: Cmd,
                            tail: seq<Token>, peek: Word -> Word)
    requires |d.tables.symbols| == SLOTS && |d.bits| >= 1 && (forall id: nat :: !IsSet(d.bits, id))
    requires IsAccess(c) && IsCmd(c) && SpelledCmd(c) && AllPrintable(tail) && Ends(tail)
    requires Represents(hash, TypedAll(hash, d, lines).tables.symbols, m)
    ensures AllPrintable(CmdTokens(c) + tail)
    ensures var d1 := TypedAll(hash, d, lines);
            var d2 := Typed(hash, d1, Input(Render(CmdTokens(c) + tail), peek));
            var args := Values(c, m, peek);
            && d2 == d1.(bus := d2.bus)
            && if args.Ok? && EndsLine(tail) && MayAccess(Replies(hash, d, lines), args.value[0])
               then Effect(c, args.value, d1.bus, d2.bus) else d2 == d1
  {
    AccessLine(hash, TypedAll(hash, d, lines), m, c, tail, peek);
    var args := Values(c, m, peek);
    if args.Ok? {
      GateFollowsLines(hash, d, lines, args.value[0]);
    }
  }
}

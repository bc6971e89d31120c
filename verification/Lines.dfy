/**
  One line at a time (src/compiler/parser.rs:277-626): what a line does to the
  symbol and function tables, and what it hands to the read-eval-print loop.

  A session is any sequence of lines; between lines the registry and what a
  read returns may change arbitrarily.
 */
module Lines {
  import opened Words
  import opened Lexer
  import opened Symbols
  import opened Expressions
  import opened Capability
  import opened Statements
  import ThreadedVm

  const NAME_MAX := 16
  const MAX_FNS := 2
  const FN_BODY_WORDS := 32

  const HELP: Name := [0x68, 0x65, 0x6C, 0x70]
  const BANNER: Name := [0x62, 0x61, 0x6E, 0x6E, 0x65, 0x72]
  const SYS_AUDIT: Name := [0x73, 0x79, 0x73, 0x5F, 0x61, 0x75, 0x64, 0x69, 0x74]
  const BENCH: Name := [0x62, 0x65, 0x6E, 0x63, 0x68]
  const STORE_LIST: Name := [0x73, 0x74, 0x6F, 0x72, 0x65, 0x5F, 0x6C, 0x69, 0x73, 0x74]
  const FLASH_TEST: Name := [0x66, 0x6C, 0x61, 0x73, 0x68, 0x5F, 0x74, 0x65, 0x73, 0x74]
  const POOL_FREE: Name := [0x70, 0x6F, 0x6F, 0x6C, 0x5F, 0x66, 0x72, 0x65, 0x65]
  const POOL_STATS: Name := [0x70, 0x6F, 0x6F, 0x6C, 0x5F, 0x73, 0x74, 0x61, 0x74, 0x73]
  const CAP_CLAIM: Name := [0x63, 0x61, 0x70, 0x5F, 0x63, 0x6C, 0x61, 0x69, 0x6D]
  const CAP_DROP: Name := [0x63, 0x61, 0x70, 0x5F, 0x64, 0x72, 0x6F, 0x70]
  const STORE: Name := [0x73, 0x74, 0x6F, 0x72, 0x65]
  const LOAD: Name := [0x6C, 0x6F, 0x61, 0x64]
  const SPAWN: Name := [0x73, 0x70, 0x61, 0x77, 0x6E]
  const REG_SET_BIT: Name := [0x72, 0x65, 0x67, 0x5F, 0x73, 0x65, 0x74, 0x5F, 0x62, 0x69, 0x74]
  const REG_CLR_BIT: Name := [0x72, 0x65, 0x67, 0x5F, 0x63, 0x6C, 0x72, 0x5F, 0x62, 0x69, 0x74]
  const PWM: Name := [0x70, 0x77, 0x6D]
  const PWM_DUTY: Name := [0x70, 0x77, 0x6D, 0x5F, 0x64, 0x75, 0x74, 0x79]
  const SPI_TX: Name := [0x73, 0x70, 0x69, 0x5F, 0x74, 0x78]
  const POOL_ALLOC: Name := [0x70, 0x6F, 0x6F, 0x6C, 0x5F, 0x61, 0x6C, 0x6C, 0x6F, 0x63]

  /** What a line sees of the machine: reads at compile time, and the registry. */
  datatype Machine = Machine(peek: Word -> Word, bits: seq<Bits>)

  /** What survives from line to line. */
  datatype Tables = Tables(symbols: seq<Slot>, fns: seq<Fn>)

  datatype Outcome =
    | Bound(name: Name, value: Word)
    | FnDefined(name: Name)
    | Run(words: seq<Word>, yieldsValue: bool)
    | Direct(verb: Name, args: seq<Word>)
    | Named(verb: Name, name: Name)
    | Plain(verb: Name)

  /** Which access a command must be allowed. */
  datatype Guard = FirstArg | Fixed(addr: Word) | Open

  /** The shape of a command. */
  datatype Shape = NoArgs | OneName | Terms(two: bool, guard: Guard) | PokeShape | LoopShape | Other

  function ShapeOf(id: Name): Shape {
    if id == PEEK then Terms(false, FirstArg)
    else if id == POKE then PokeShape
    else if id == LOOP then LoopShape
    else if id == REG_SET_BIT || id == REG_CLR_BIT then Terms(true, FirstArg)
    else if id == PWM then Terms(true, Fixed(0x4000_0000))
    else if id == PWM_DUTY then Terms(false, Fixed(0x4000_0000))
    else if id == SPI_TX then Terms(false, Fixed(0x4001_3000))
    else if id == POOL_ALLOC then Terms(false, Open)
    else if id == CAP_CLAIM || id == CAP_DROP || id == STORE || id == LOAD || id == SPAWN then OneName
    else if || id == HELP || id == BANNER || id == SYS_AUDIT || id == BENCH || id == STORE_LIST || id == FLASH_TEST
            || id == POOL_FREE || id == POOL_STATS then NoArgs
    else Other
  }

  predicate Allowed(bits: seq<Bits>, guard: Guard, arg: Word) {
    match guard
    case FirstArg => CheckAccess(bits, arg)
    case Fixed(a) => CheckAccess(bits, a)
    case Open => true
  }

  /** `spi_tx` keeps the low byte of its argument. */
  function Trimmed(id: Name, arg: Word): Word {
    if id == SPI_TX then arg % 0x100 else arg
  }

  /** An identifier that fits the name buffer. */
  function ParseName(ts: seq<Token>): (r: Parsed<Name>)
    ensures r.Got? ==> |r.value| <= 16
  {
    if !First(ts).Identifier? then Fail(UnexpectedToken)
    else if |First(ts).name| > NAME_MAX then Fail(NameTooLong)
    else Got(First(ts).name, Rest(ts))
  }

  // ---------------------------------------------------------------------
  // Commands
  // ---------------------------------------------------------------------

  /** One or two terms and the end of the statement. */
  function TermArgs(env: Env, two: bool, ts: seq<Token>): (r: Parsed<seq<Word>>)
    requires env.Valid()
    ensures r.Got? ==> |r.value| == if two then 2 else 1
  {
    match AtomicTerm(env, ts)
    case Fail(x) => Fail(x)
    case Got(a, ts1) =>
      if !two then Semi([a], ts1)
      else
        match AtomicTerm(env, ts1)
        case Fail(x) => Fail(x)
        case Got(b, ts2) => Semi([a, b], ts2)
  }

  function TermsCommand(env: Env, id: Name, two: bool, guard: Guard, ts: seq<Token>): Result<Outcome, ParseError>
    requires env.Valid()
  {
    match TermArgs(env, two, ts)
    case Fail(x) => Err(x)
    case Got(args, _) =>
      if Allowed(env.bits, guard, args[0]) then Ok(Direct(id, [Trimmed(id, args[0])] + args[1..]))
      else Err(CapabilityViolation)
  }

  function PokeCommand(env: Env, ts: seq<Token>): Result<Outcome, ParseError>
    requires env.Valid()
  {
    match PokeArgs(env, ts)
    case Fail(x) => Err(x)
    case Got(b, _) =>
      if CheckAccess(env.bits, b.addr) then Ok(Direct(POKE, [b.addr, b.val])) else Err(CapabilityViolation)
  }

  function NameCommand(id: Name, ts: seq<Token>): Result<Outcome, ParseError> {
    match ParseName(ts)
    case Fail(x) => Err(x)
    case Got(n, rest) => if Semi((), rest).Got? then Ok(Named(id, n)) else Err(MissingSemicolon)
  }

  /** The body of a loop typed at the prompt: only its pokes and peeks count, every other token is skipped. */
  function TopLoop(env: Env, stream: seq<Word>, ts: seq<Token>): (r: Parsed<seq<Word>>)
    requires env.Valid()
    ensures r.Got? ==> |stream| <= |r.value|
    decreases |ts|
  {
    if ts == [] then Fail(UnexpectedToken)
    else if ts[0] == RBrace then Got(stream, ts[1..])
    else
      var more := TopStmt(env, stream, ts);
      if more.Got? then TopLoop(env, more.value, more.rest) else more
  }

  function TopStmt(env: Env, stream: seq<Word>, ts: seq<Token>): (r: Parsed<seq<Word>>)
    requires env.Valid() && ts != []
    ensures r.Got? ==> |stream| <= |r.value| && |r.rest| < |ts|
  {
    if ts[0] == Identifier(POKE) then ParseMemory(env, stream, PokeArgs(env, ts[1..]))
    else if ts[0] == Identifier(PEEK) then ParseMemory(env, stream, PeekArgs(env, ts[1..]))
    else Got(stream, ts[1..])
  }

  /** A stream becomes a program by its halt. */
  function Halted(stream: seq<Word>): Result<Outcome, ParseError> {
    match Push(stream, [ThreadedVm.HALT])
    case Err(x) => Err(x)
    case Ok(words) => Ok(Run(words, false))
  }

  function LoopCommand(env: Env, ts: seq<Token>): Result<Outcome, ParseError>
    requires env.Valid()
  {
    match LoopHead(env, ts)
    case Fail(x) => Err(x)
    case Got(count, body) =>
      match ParseLoopEnd([], count, TopLoop(env, [], body))
      case Fail(x) => Err(x)
      case Got(stream, _) => Halted(stream)
  }

  /** `build_value_program` */
  function ValueProgram(v: Word): seq<Word> {
    [ThreadedVm.LIT, v, ThreadedVm.HALT]
  }

  function ValueCommand(env: Env, head: Token, ts: seq<Token>): Result<Outcome, ParseError>
    requires env.Valid()
  {
    match EvalFrom(env, head, ts)
    case Fail(x) => Err(x)
    case Got(v, rest) => if Semi((), rest).Got? then Ok(Run(ValueProgram(v), true)) else Err(MissingSemicolon)
  }

  /** `NAME();`, from the opening parenthesis on. */
  function CallCommand(fns: seq<Fn>, id: Name, ts: seq<Token>): Result<Outcome, ParseError> {
    match ParseCall(fns, id, [], ts)
    case Fail(x) => Err(x)
    case Got(stream, _) => Halted(stream)
  }

  function Command(env: Env, fns: seq<Fn>, id: Name, ts: seq<Token>): Result<Outcome, ParseError>
    requires env.Valid()
  {
    match ShapeOf(id)
    case NoArgs => Ok(Plain(id))
    case OneName => NameCommand(id, ts)
    case Terms(two, guard) => TermsCommand(env, id, two, guard, ts)
    case PokeShape => PokeCommand(env, ts)
    case LoopShape => LoopCommand(env, ts)
    case Other => if First(ts) == LParen then CallCommand(fns, id, ts) else ValueCommand(env, Identifier(id), ts)
  }

  // ---------------------------------------------------------------------
  // Bindings and definitions
  // ---------------------------------------------------------------------

  const EQUALS: Byte := 0x3D

  /** `let NAME = EXPR;`: the name and its value. */
  function LetArgs(env: Env, ts: seq<Token>): (r: Result<Binding, ParseError>)
    requires env.Valid()
  {
    match ParseName(ts)
    case Fail(x) => Err(x)
    case Got(n, ts1) =>
      if First(ts1) != Operator(EQUALS) then Err(UnexpectedToken)
      else
        match EvalExpr(env, Rest(ts1))
        case Fail(x) => Err(x)
        case Got(v, rest) => if Semi((), rest).Got? then Ok(Binding(n, v)) else Err(MissingSemicolon)
  }

  /** `NAME ( ) {`: the name. */
  function FnHeader(ts: seq<Token>): (r: Parsed<Name>)
    ensures r.Got? ==> |r.value| <= 16
  {
    match ParseName(ts)
    case Fail(x) => Fail(x)
    case Got(n, ts1) =>
      var ts2 := Rest(ts1);
      var ts3 := Rest(ts2);
      if First(ts1) != LParen || First(ts2) != RParen || First(ts3) != LBrace then Fail(UnexpectedToken)
      else Got(n, Rest(ts3))
  }

  /** First free slot from `i` on. */
  function FreeSlot(fns: seq<Fn>, i: nat): (r: Option<nat>)
    requires i <= |fns|
    ensures r.Some? ==> i <= r.value < |fns| && fns[r.value].name == []
    ensures r.Some? ==> forall k :: i <= k < r.value ==> fns[k].name != []
    ensures r.None? ==> forall k :: i <= k < |fns| ==> fns[k].name != []
    decreases |fns| - i
  {
    if i == |fns| then None else if fns[i].name == [] then Some(i) else FreeSlot(fns, i + 1)
  }

  /** Add a function: no live function may have its name, and a slot must be free. */
  function AddFn(fns: seq<Fn>, f: Fn): Result<seq<Fn>, ParseError> {
    if FindFn(fns, f.name, 0).Some? then Err(DuplicateFn)
    else
      match FreeSlot(fns, 0)
      case None => Err(FnTableFull)
      case Some(i) => Ok(fns[i := f])
  }

  /** `export_fn` into a buffer of `size` words. */
  function ExportFn(fns: seq<Fn>, name: Name, size: nat): Option<seq<Word>> {
    match FindFn(fns, name, 0)
    case None => None
    case Some(i) => if |fns[i].body| > size then None else Some(fns[i].body)
  }

  /** `import_fn`: as if defined. */
  function ImportFn(fns: seq<Fn>, name: Name, words: seq<Word>): Result<seq<Fn>, ParseError> {
    if |name| > NAME_MAX then Err(NameTooLong)
    else if |words| > FN_BODY_WORDS then Err(StreamFull)
    else AddFn(fns, Fn(name, words))
  }

  predicate Live(fns: seq<Fn>, name: Name) {
    name != [] && exists k :: 0 <= k < |fns| && fns[k].name == name
  }

  /** Slot `i` is the first free one. */
  predicate IsFirstFree(fns: seq<Fn>, i: nat) {
    i < |fns| && fns[i].name == [] && forall k :: 0 <= k < i ==> fns[k].name != []
  }

  /** An import is refused for its name, its length, a live function of that name or a full table, in this order. */
  lemma ImportExact(fns: seq<Fn>, name: Name, words: seq<Word>)
    ensures var r := ImportFn(fns, name, words);
            && (r == Err(NameTooLong) <==> |name| > 16)
            && (r == Err(StreamFull) <==> |name| <= 16 && |words| > 32)
            && (r == Err(DuplicateFn) <==> |name| <= 16 && |words| <= 32 && Live(fns, name))
            && (r == Err(FnTableFull) <==>
                |name| <= 16 && |words| <= 32 && !Live(fns, name) && forall k :: 0 <= k < |fns| ==> fns[k].name != [])
            && (r.Ok? ==> exists i: nat :: IsFirstFree(fns, i) && r.value == fns[i := Fn(name, words)])
  {
    var free := FreeSlot(fns, 0);
    assert free.Some? ==> IsFirstFree(fns, free.value);
  }

  /** An export finds the body of the live function of that name, if it fits the buffer. */
  lemma ExportExact(fns: seq<Fn>, name: Name, size: nat)
    ensures var r := ExportFn(fns, name, size);
            && (r.None? ==>
                !Live(fns, name) || exists k :: 0 <= k < |fns| && fns[k].name == name && |fns[k].body| > size)
            && (r.Some? ==>
                |r.value| <= size && name != [] && exists k :: 0 <= k < |fns| && fns[k] == Fn(name, r.value))
  {
  }

  function FnArgs(env: Env, fns: seq<Fn>, ts: seq<Token>): Result<Fn, ParseError>
    requires env.Valid()
  {
    match FnHeader(ts)
    case Fail(x) => Err(x)
    case Got(n, ts1) =>
      match ParseBlock(env, fns, [], ts1)
      case Fail(x) => Err(x)
      case Got(body, _) => if |body| > FN_BODY_WORDS then Err(StreamFull) else Ok(Fn(n, body))
  }

  // ---------------------------------------------------------------------
  // Lines
  // ---------------------------------------------------------------------

  function LetLine(env: Env, t: Tables, ts: seq<Token>): (r: (Result<Outcome, ParseError>, Tables))
    requires env.Valid() && |t.symbols| == SLOTS
    ensures r.0.Err? ==> r.1 == t
  {
    match LetArgs(env, ts)
    case Err(x) => (Err(x), t)
    case Ok(b) =>
      match Insert(env.hash, t.symbols, b.name, b.value)
      case None => (Err(SymbolTableFull), t)
      case Some(u) => (Ok(Bound(b.name, b.value)), t.(symbols := u))
  }

  function FnLine(env: Env, t: Tables, ts: seq<Token>): (r: (Result<Outcome, ParseError>, Tables))
    requires env.Valid()
    ensures r.0.Err? ==> r.1 == t
  {
    match FnArgs(env, t.fns, ts)
    case Err(x) => (Err(x), t)
    case Ok(f) =>
      match AddFn(t.fns, f)
      case Err(x) => (Err(x), t)
      case Ok(fns) => (Ok(FnDefined(f.name)), t.(fns := fns))
  }

  /** Every line that does not bind or define leaves the tables alone. */
  function OtherLine(env: Env, fns: seq<Fn>, ts: seq<Token>): Result<Outcome, ParseError>
    requires env.Valid()
  {
    match First(ts)
    case Eof => Err(EmptyLine)
    case Identifier(id) => Command(env, fns, id, Rest(ts))
    case Error(kind) => Err(LexFailure(kind))
    case Literal(_) => ValueCommand(env, First(ts), Rest(ts))
    case Operator(_) => ValueCommand(env, First(ts), Rest(ts))
    case LParen => ValueCommand(env, First(ts), Rest(ts))
    case _ => Err(UnexpectedToken)
  }

  /** One line: its outcome and the tables after it. */
  function ParseLine(env: Env, t: Tables, ts: seq<Token>): (r: (Result<Outcome, ParseError>, Tables))
    requires env.Valid() && |t.symbols| == SLOTS
    ensures r.0.Err? ==> r.1 == t
  {
    match First(ts)
    case KwLet => LetLine(env, t, Rest(ts))
    case KwFn => FnLine(env, t, Rest(ts))
    case _ => (OtherLine(env, t.fns, ts), t)
  }
}

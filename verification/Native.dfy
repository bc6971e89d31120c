/**
  Native code generation from threaded streams (src/compiler/native.rs): the
  complexity check, the single-pass translation, and the method that drives
  the emitter.  What the translation preserves is in `Agreement`.
 */
module Native {
  import opened Words
  import opened ThreadedVm
  import opened Thumb2
  import opened Emitter

  const ACC: Byte := 0
  const SCRATCH: Byte := 1

  // ---------------------------------------------------------------------
  // Complexity check
  // ---------------------------------------------------------------------

  predicate Known(w: Word) {
    w == LOAD || w == WRITE || BinOpOf(w).Some?
  }

  /** The scan from `ip`; `seen` says whether any primitive came before. */
  function Compilable(words: seq<Word>, ip: nat, seen: bool): bool
    decreases |words| - ip
  {
    if ip >= |words| then seen
    else
      var w := words[ip];
      if w == 0 || w == HALT then true
      else if w == LIT then Compilable(words, ip + 2, true)
      else if Known(w) then Compilable(words, ip + 1, true)
      else false
  }

  method IsCompilable(words: seq<Word>) returns (ok: bool)
    ensures ok == Compilable(words, 0, false)
  {
    var ip, seen := 0, false;
    while ip < |words|
      invariant Compilable(words, ip, seen) == Compilable(words, 0, false)
      decreases |words| - ip
    {
      var w := words[ip];
      if w == 0 || w == HALT {
        return true;
      }
      if w == LIT {
        ip, seen := ip + 2, true;
      } else if Known(w) {
        ip, seen := ip + 1, true;
      } else {
        return false;
      }
    }
    return seen;
  }

  // ---------------------------------------------------------------------
  // Translation
  // ---------------------------------------------------------------------

  /** The literal whose next word is `next` is an address or value for SCRATCH. */
  predicate AddressContext(next: Word) {
    next == LOAD || next == WRITE
  }

  function WordAt(words: seq<Word>, i: nat): Word {
    if i < |words| then words[i] else 0
  }

  function Prepend(cs: seq<Call>, o: Option<seq<Call>>): Option<seq<Call>> {
    match o
    case None => None
    case Some(ds) => Some(cs + ds)
  }

  /** Emitter calls for the stream from `ip`; `loaded` is `acc_loaded`. */
  function Plan(words: seq<Word>, ip: nat, loaded: bool): Option<seq<Call>>
    decreases |words| - ip
  {
    if ip >= |words| then Some([])
    else
      var w := words[ip];
      if w == 0 || w == HALT then Some([])
      else if w == LIT then
        if ip + 1 >= |words| then None
        else
          var scratch := AddressContext(WordAt(words, ip + 2)) || loaded;
          Prepend([MovImm(if scratch then SCRATCH else ACC, words[ip + 1])],
                  Plan(words, ip + 2, loaded || !AddressContext(WordAt(words, ip + 2))))
      else if w == LOAD then Prepend([LoadU32(ACC, SCRATCH)], Plan(words, ip + 1, true))
      else if w == WRITE then Prepend([StoreU32(SCRATCH, ACC)], Plan(words, ip + 1, loaded))
      else
        match BinOpOf(w)
        case Some(op) => Prepend([Arith(op, ACC, ACC, SCRATCH)], Plan(words, ip + 1, true))
        case None => None
  }

  /** Every call of a plan is one the emitter accepts. */
  lemma {:induction false} PlanUnits(words: seq<Word>, ip: nat, loaded: bool)
    ensures Plan(words, ip, loaded).Some? ==> AllUnits(Plan(words, ip, loaded).value).Some?
    decreases |words| - ip
  {
    if ip < |words| && words[ip] != 0 && words[ip] != HALT {
      var w := words[ip];
      if w == LIT {
        if ip + 1 < |words| {
          PlanUnits(words, ip + 2, loaded || !AddressContext(WordAt(words, ip + 2)));
        }
      } else {
        PlanUnits(words, ip + 1, if w == WRITE then loaded else true);
      }
      if Plan(words, ip, loaded).Some? {
        var cs := Plan(words, ip, loaded).value;
        assert cs == [cs[0]] + cs[1..];
        assert Units(cs[0]).Some?;
      }
    }
  }

  /**
    The machine code for a stream: None when it is too complex, or longer than
    the executable buffer.
   */
  function Compiled(words: seq<Word>): Option<seq<Half>> {
    if !Compilable(words, 0, false) then None
    else
      match Plan(words, 0, false)
      case None => None
      case Some(cs) =>
        match AllUnits(cs)
        case None => None
        case Some(us) =>
          if |Assembly(us)| <= 2048 then Some(Assembly(us)) else None
  }

  lemma {:induction false} AllUnitsConcat(cs: seq<Call>, ds: seq<Call>)
    ensures AllUnits(cs + ds) ==
            match (AllUnits(cs), AllUnits(ds))
            case (Some(us), Some(vs)) => Some(us + vs)
            case _ => None
  {
    if cs == [] {
      assert cs + ds == ds;
      assert AllUnits(ds).Some? ==> [] + AllUnits(ds).value == AllUnits(ds).value;
    } else {
      assert (cs + ds)[1..] == cs[1..] + ds;
      AllUnitsConcat(cs[1..], ds);
      if Units(cs[0]).Some? && AllUnits(cs[1..]).Some? && AllUnits(ds).Some? {
        var us, vs, ws := Units(cs[0]).value, AllUnits(cs[1..]).value, AllUnits(ds).value;
        assert us + (vs + ws) == us + vs + ws;
      }
    }
  }

  lemma AllUnitsOne(c: Call)
    ensures AllUnits([c]) == Units(c)
  {
    assert [c][1..] == [];
    if Units(c).Some? {
      assert Units(c).value + [] == Units(c).value;
    }
  }

  /** Appending one more call to what has been emitted. */
  lemma EmitOneMore(done: seq<Call>, c: Call)
    requires AllUnits(done).Some? && Units(c).Some?
    ensures AllUnits(done + [c]).Some?
    ensures Halves(AllUnits(done + [c]).value) == Halves(AllUnits(done).value) + Halves(Units(c).value)
  {
    AllUnitsConcat(done, [c]);
    AllUnitsOne(c);
    HalvesConcat(AllUnits(done).value, Units(c).value);
  }

  /** A whole emission is longer than any part of it by at least the return. */
  lemma LongerThanPart(done: seq<Call>, c: Call, rest: seq<Call>)
    requires AllUnits(done).Some? && Units(c).Some?
    requires AllUnits((done + [c]) + rest).Some?
    ensures |Assembly(AllUnits((done + [c]) + rest).value)| >
            |Halves(AllUnits(done).value)| + |Halves(Units(c).value)|
  {
    EmitOneMore(done, c);
    AllUnitsConcat(done + [c], rest);
    var us, vs := AllUnits(done + [c]).value, AllUnits(rest).value;
    HalvesConcat(us + vs, [Narrow(BX_LR)]);
    HalvesConcat(us, vs);
  }

  /** `done` has been emitted, and `rest` is what the plan still holds. */
  ghost predicate Progress(plan: Option<seq<Call>>, done: seq<Call>, rest: Option<seq<Call>>) {
    AllUnits(done).Some? && plan == Prepend(done, rest)
  }

  lemma PrependTwice(done: seq<Call>, c: Call, rest: Option<seq<Call>>)
    ensures Prepend(done, Prepend([c], rest)) == Prepend(done + [c], rest)
  {
    if rest.Some? {
      assert done + ([c] + rest.value) == (done + [c]) + rest.value;
    }
  }

  lemma ProgressStep(plan: Option<seq<Call>>, done: seq<Call>, c: Call, rest: Option<seq<Call>>)
    requires Progress(plan, done, Prepend([c], rest)) && Units(c).Some?
    ensures Progress(plan, done + [c], rest)
  {
    PrependTwice(done, c, rest);
    assert AllUnits(done + [c]).Some? by {
      EmitOneMore(done, c);
    }
  }

  /** Running out of buffer half way means the whole emission does not fit. */
  lemma OverflowIsFinal(words: seq<Word>, done: seq<Call>, c: Call, rest: Option<seq<Call>>)
    requires Progress(Plan(words, 0, false), done + [c], rest) && AllUnits(done).Some? && Units(c).Some?
    requires |Halves(AllUnits(done).value)| + |Halves(Units(c).value)| > 2048
    ensures Compiled(words) == None
  {
    if rest.Some? {
      PlanUnits(words, 0, false);
      LongerThanPart(done, c, rest.value);
    }
  }

  /** What one turn of the loop did with the word at `ip`. */
  datatype Turn = Unknown | Emit(err: Option<EmitError>, ip: nat, loaded: bool)

  /** One turn of the loop: fetch a word, emit for it, advance. */
  method TranslateWord(em: Thumb2Emitter, words: seq<Word>, ip: nat, loaded: bool)
    returns (t: Turn, ghost c: Call)
    requires em.Valid() && ip < |words| && words[ip] != 0 && words[ip] != HALT
    modifies em, em.buffer
    ensures em.Valid()
    ensures t.Unknown? ==> Plan(words, ip, loaded) == None
    ensures t.Emit? ==>
              && Plan(words, ip, loaded) == Prepend([c], Plan(words, t.ip, t.loaded))
              && Units(c).Some? && ip < t.ip
              && Emitted(c, em.buffer.Length, old(em.Contents()), em.Contents(), t.err)
  {
    var w := words[ip];
    c := Ret;
    var err;
    if w == LIT {
      if ip + 1 >= |words| {
        return Unknown, c;
      }
      if AddressContext(WordAt(words, ip + 2)) {
        c := MovImm(SCRATCH, words[ip + 1]);
        err := em.EmitMovImm(SCRATCH, words[ip + 1]);
        t := Emit(err, ip + 2, loaded);
      } else if !loaded {
        c := MovImm(ACC, words[ip + 1]);
        err := em.EmitMovImm(ACC, words[ip + 1]);
        t := Emit(err, ip + 2, true);
      } else {
        c := MovImm(SCRATCH, words[ip + 1]);
        err := em.EmitMovImm(SCRATCH, words[ip + 1]);
        t := Emit(err, ip + 2, true);
      }
    } else if w == LOAD {
      c := LoadU32(ACC, SCRATCH);
      err := em.EmitLoadU32(ACC, SCRATCH);
      t := Emit(err, ip + 1, true);
    } else if w == WRITE {
      c := StoreU32(SCRATCH, ACC);
      err := em.EmitStoreU32(SCRATCH, ACC);
      t := Emit(err, ip + 1, loaded);
    } else if BinOpOf(w).Some? {
      c := Arith(BinOpOf(w).value, ACC, ACC, SCRATCH);
      err := em.EmitArith(BinOpOf(w).value, ACC, ACC, SCRATCH);
      t := Emit(err, ip + 1, true);
    } else {
      t := Unknown;
    }
  }

  /** The code-generation loop; `code` is what ends up in the buffer. */
  method CompileStream(words: seq<Word>) returns (code: Option<seq<Half>>)
    ensures code == Compiled(words)
  {
    var ok := IsCompilable(words);
    if !ok {
      return None;
    }
    var em := new Thumb2Emitter.IntoExecBuffer();
    var ip, loaded := 0, false;
    ghost var plan := Plan(words, 0, false);
    ghost var done: seq<Call> := [];
    assert plan.Some? ==> [] + plan.value == plan.value;
    while ip < |words| && words[ip] != 0 && words[ip] != HALT
      invariant em.Valid() && fresh(em) && fresh(em.buffer) && em.buffer.Length == 2048
      invariant Progress(plan, done, Plan(words, ip, loaded))
      invariant em.Contents() == Halves(AllUnits(done).value)
      decreases |words| - ip
    {
      ghost var c;
      var t;
      t, c := TranslateWord(em, words, ip, loaded);
      if t.Unknown? {
        return None;
      }
      ProgressStep(plan, done, c, Plan(words, t.ip, t.loaded));
      if t.err.Some? {
        OverflowIsFinal(words, done, c, Plan(words, t.ip, t.loaded));
        return None;
      }
      EmitOneMore(done, c);
      done := done + [c];
      ip, loaded := t.ip, t.loaded;
    }
    assert plan == Some(done) by {
      assert done + [] == done;
    }
    HalvesConcat(AllUnits(done).value, [Narrow(BX_LR)]);
    OneUnit(Narrow(BX_LR));
    var err := em.EmitRet();
    if err.Some? {
      return None;
    }
    return Some(em.buffer[..em.len]);
  }
}

/**
  The symbol table (src/compiler/parser.rs:800-842): 32 slots, FNV-1a, linear
  probing.  Everything is proved for an arbitrary hash function.
 */
module Symbols {
  import opened Words

  const SLOTS := 32

  type Name = seq<Byte>
  type Hash = Name -> nat

  datatype Slot = Empty | Used(name: Name, value: Word)

  /** Exclusive or of the low n bits. */
  function Xor(x: nat, y: nat, n: nat): nat {
    if n == 0 then 0 else (x + y) % 2 + 2 * Xor(x / 2, y / 2, n - 1)
  }

  /** FNV-1a, 32 bits. */
  function Fnv(name: Name, h: nat): nat {
    if name == [] then h else Fnv(name[1..], Xor(h, name[0], 32) * 0x0100_0193 % WORD_SPAN)
  }

  function FnvHash(name: Name): nat {
    Fnv(name, 0x811C_9DC5)
  }

  /** The slot of probe number `step` for a name hashing to `h`. */
  function Probe(h: nat, step: nat): nat {
    (h % SLOTS + step) % SLOTS
  }

  /** First slot from probe `step` on that is empty or holds `name`. */
  function FindSlot(t: seq<Slot>, h: nat, step: nat, name: Name): (r: Option<nat>)
    requires |t| == SLOTS
    ensures r.Some? ==> r.value < SLOTS && (t[r.value].Empty? || t[r.value].name == name)
    decreases SLOTS - step
  {
    if step >= SLOTS then None
    else
      var i := Probe(h, step);
      if t[i].Empty? || t[i].name == name then Some(i) else FindSlot(t, h, step + 1, name)
  }

  function Lookup(hash: Hash, t: seq<Slot>, name: Name): Option<Word>
    requires |t| == SLOTS
  {
    match FindSlot(t, hash(name), 0, name)
    case Some(i) => if t[i].Used? then Some(t[i].value) else None
    case None => None
  }

  /** None when the table is full. */
  function Insert(hash: Hash, t: seq<Slot>, name: Name, v: Word): (r: Option<seq<Slot>>)
    requires |t| == SLOTS
    ensures r.Some? ==> |r.value| == SLOTS
  {
    match FindSlot(t, hash(name), 0, name)
    case Some(i) => Some(t[i := Used(name, v)])
    case None => None
  }

  /** Every stored name is found, by its own probe sequence, where it is stored. */
  ghost predicate Probed(hash: Hash, t: seq<Slot>) {
    && |t| == SLOTS
    && forall i :: 0 <= i < SLOTS && t[i].Used? ==> FindSlot(t, hash(t[i].name), 0, t[i].name) == Some(i)
  }

  /** Hence names are unique. */
  lemma NamesUnique(hash: Hash, t: seq<Slot>, i: nat, j: nat)
    requires Probed(hash, t) && i < SLOTS && j < SLOTS && t[i].Used? && t[j].Used? && t[i].name == t[j].name
    ensures i == j
  {
    assert FindSlot(t, hash(t[i].name), 0, t[i].name) == Some(i);
  }

  /** And probe chains have no gap: every slot probed before the hit is taken by another name. */
  lemma {:induction false} ChainHasNoGap(t: seq<Slot>, h: nat, step: nat, name: Name) returns (hit: nat)
    requires |t| == SLOTS && FindSlot(t, h, step, name).Some?
    ensures step <= hit < SLOTS && Probe(h, hit) == FindSlot(t, h, step, name).value
    ensures forall s :: step <= s < hit ==> t[Probe(h, s)].Used? && t[Probe(h, s)].name != name
    decreases SLOTS - step
  {
    var i := Probe(h, step);
    if t[i].Empty? || t[i].name == name {
      hit := step;
    } else {
      hit := ChainHasNoGap(t, h, step + 1, name);
    }
  }

  // ---------------------------------------------------------------------
  // Inserting
  // ---------------------------------------------------------------------

  /** Writing another name elsewhere does not move a stored name. */
  lemma {:induction false} FindSlotKept(t: seq<Slot>, h: nat, step: nat, name: Name, k: nat, m: Name, v: Word)
    requires |t| == SLOTS && k < SLOTS && (t[k].Empty? || t[k].name == m)
    requires FindSlot(t, h, step, name).Some? && t[FindSlot(t, h, step, name).value].Used?
    requires name != m
    ensures FindSlot(t[k := Used(m, v)], h, step, name) == FindSlot(t, h, step, name)
    decreases SLOTS - step
  {
    var i := Probe(h, step);
    if !(t[i].Empty? || t[i].name == name) {
      FindSlotKept(t, h, step + 1, name, k, m, v);
    }
  }

  /** Nor does it put off the name that is being written. */
  lemma {:induction false} FindSlotHits(t: seq<Slot>, h: nat, step: nat, name: Name, v: Word)
    requires |t| == SLOTS && FindSlot(t, h, step, name).Some?
    ensures var k := FindSlot(t, h, step, name).value;
            FindSlot(t[k := Used(name, v)], h, step, name) == Some(k)
    decreases SLOTS - step
  {
    var i := Probe(h, step);
    if !(t[i].Empty? || t[i].name == name) {
      FindSlotHits(t, h, step + 1, name, v);
    }
  }

  lemma InsertKeepsProbed(hash: Hash, t: seq<Slot>, name: Name, v: Word)
    requires Probed(hash, t) && Insert(hash, t, name, v).Some?
    ensures Probed(hash, Insert(hash, t, name, v).value)
  {
    var k := FindSlot(t, hash(name), 0, name).value;
    var u := t[k := Used(name, v)];
    forall i | 0 <= i < SLOTS && u[i].Used? ensures FindSlot(u, hash(u[i].name), 0, u[i].name) == Some(i) {
      if i == k {
        FindSlotHits(t, hash(name), 0, name, v);
      } else if u[i].name != name {
        FindSlotKept(t, hash(t[i].name), 0, t[i].name, k, name, v);
      }
    }
  }

  ghost function NamesOf(t: seq<Slot>): set<Name> {
    set i | 0 <= i < |t| && t[i].Used? :: t[i].name
  }

  /** A name is bound exactly when some slot holds it. */
  lemma LookupIff(hash: Hash, t: seq<Slot>, n: Name)
    requires Probed(hash, t)
    ensures Lookup(hash, t, n).Some? <==> n in NamesOf(t)
  {
    if n in NamesOf(t) {
      var i :| 0 <= i < |t| && t[i].Used? && t[i].name == n;
      assert FindSlot(t, hash(n), 0, n) == Some(i);
    }
  }

  lemma NamesAfterInsert(hash: Hash, t: seq<Slot>, name: Name, v: Word)
    requires Probed(hash, t) && Insert(hash, t, name, v).Some?
    ensures NamesOf(Insert(hash, t, name, v).value) == NamesOf(t) + {name}
  {
    var k := FindSlot(t, hash(name), 0, name).value;
    var u := t[k := Used(name, v)];
    forall n | n in NamesOf(t) ensures n in NamesOf(u) {
      var i :| 0 <= i < |t| && t[i].Used? && t[i].name == n;
      assert u[i].Used? && u[i].name == n;
    }
    assert u[k].name in NamesOf(u);
  }

  /** Insertion is map update: it binds its name and leaves every other binding alone. */
  lemma LookupAfterInsert(hash: Hash, t: seq<Slot>, name: Name, v: Word, n: Name)
    requires Probed(hash, t) && Insert(hash, t, name, v).Some?
    ensures Lookup(hash, Insert(hash, t, name, v).value, n) == if n == name then Some(v) else Lookup(hash, t, n)
  {
    var k := FindSlot(t, hash(name), 0, name).value;
    var u := t[k := Used(name, v)];
    LookupIff(hash, t, n);
    if n == name {
      FindSlotHits(t, hash(name), 0, name, v);
    } else if n in NamesOf(t) {
      FindSlotKept(t, hash(n), 0, n, k, name, v);
    } else {
      InsertKeepsProbed(hash, t, name, v);
      NamesAfterInsert(hash, t, name, v);
      LookupIff(hash, u, n);
    }
  }

  lemma {:induction false} FindSlotNone(t: seq<Slot>, h: nat, step: nat, name: Name, i: nat)
    requires |t| == SLOTS && step <= SLOTS && FindSlot(t, h, step, name) == None
    requires i < SLOTS && exists s :: step <= s < SLOTS && Probe(h, s) == i
    ensures t[i].Used? && t[i].name != name
    decreases SLOTS - step
  {
    if Probe(h, step) != i {
      FindSlotNone(t, h, step + 1, name, i);
    }
  }

  /** The probe sequence visits every slot. */
  lemma ProbeReaches(h: nat, i: nat) returns (s: nat)
    requires i < SLOTS
    ensures s < SLOTS && Probe(h, s) == i
  {
    var start := h % SLOTS;
    s := if i >= start then i - start else i + SLOTS - start;
  }

  /** Insertion fails exactly for a new name when all 32 slots are used. */
  lemma InsertFailsIffFull(hash: Hash, t: seq<Slot>, name: Name, v: Word)
    requires Probed(hash, t)
    ensures Insert(hash, t, name, v) == None <==>
            Lookup(hash, t, name) == None && forall i :: 0 <= i < 32 ==> t[i].Used?
  {
    if Insert(hash, t, name, v) == None {
      forall i | 0 <= i < SLOTS ensures t[i].Used? {
        var s := ProbeReaches(hash(name), i);
        FindSlotNone(t, hash(name), 0, name, i);
      }
    }
  }

  // ---------------------------------------------------------------------
  // Every sequence of inserts
  // ---------------------------------------------------------------------

  datatype Binding = Binding(name: Name, value: Word)

  function EmptyTable(): (t: seq<Slot>)
    ensures |t| == SLOTS && forall i :: 0 <= i < SLOTS ==> t[i].Empty?
  {
    seq(SLOTS, _ => Empty)
  }

  /** The table after the bindings in order; one that does not fit is dropped. */
  function InsertAll(hash: Hash, bs: seq<Binding>): (t: seq<Slot>)
    ensures |t| == SLOTS
  {
    if bs == [] then EmptyTable()
    else
      var t := InsertAll(hash, bs[..|bs| - 1]);
      var b := bs[|bs| - 1];
      match Insert(hash, t, b.name, b.value)
      case Some(u) => u
      case None => t
  }

  /** The reference: a finite map that accepts a new name while it has fewer than 32. */
  function MapAll(bs: seq<Binding>): map<Name, Word> {
    if bs == [] then map[]
    else
      var m := MapAll(bs[..|bs| - 1]);
      var b := bs[|bs| - 1];
      if b.name in m || |m| < 32 then m[b.name := b.value] else m
  }

  lemma {:induction false} NamesCount(t: seq<Slot>)
    requires forall i, j :: 0 <= i < j < |t| && t[i].Used? && t[j].Used? ==> t[i].name != t[j].name
    ensures |NamesOf(t)| <= |t|
    ensures |NamesOf(t)| == |t| <==> forall i :: 0 <= i < |t| ==> t[i].Used?
  {
    if t != [] {
      var u, last := t[..|t| - 1], t[|t| - 1];
      NamesCount(u);
      if last.Used? {
        assert NamesOf(t) == NamesOf(u) + {last.name};
        assert last.name !in NamesOf(u);
      } else {
        assert NamesOf(t) == NamesOf(u);
      }
    }
  }

  /** The table is the map: same names, same values. */
  ghost predicate Represents(hash: Hash, t: seq<Slot>, m: map<Name, Word>) {
    && Probed(hash, t)
    && m.Keys == NamesOf(t)
    && forall n: Name :: n in m ==> Lookup(hash, t, n) == Some(m[n])
  }

  lemma FullIffThirtyTwo(hash: Hash, t: seq<Slot>)
    requires Probed(hash, t)
    ensures |NamesOf(t)| <= SLOTS
    ensures |NamesOf(t)| == SLOTS <==> forall i :: 0 <= i < SLOTS ==> t[i].Used?
  {
    forall i, j | 0 <= i < j < |t| && t[i].Used? && t[j].Used? ensures t[i].name != t[j].name {
      if t[i].name == t[j].name {
        NamesUnique(hash, t, i, j);
      }
    }
    NamesCount(t);
  }

  lemma EmptyRepresents(hash: Hash)
    ensures Represents(hash, EmptyTable(), map[])
  {
    assert NamesOf(EmptyTable()) == {};
  }

  lemma InsertFits(hash: Hash, t: seq<Slot>, m: map<Name, Word>, name: Name, v: Word)
    requires Represents(hash, t, m)
    ensures Insert(hash, t, name, v).Some? <==> name in m || |m| < 32
  {
    InsertFailsIffFull(hash, t, name, v);
    FullIffThirtyTwo(hash, t);
    LookupIff(hash, t, name);
    assert |m| == |m.Keys|;
  }

  lemma InsertRepresents(hash: Hash, t: seq<Slot>, m: map<Name, Word>, name: Name, v: Word)
    requires Represents(hash, t, m) && Insert(hash, t, name, v).Some?
    ensures Represents(hash, Insert(hash, t, name, v).value, m[name := v])
  {
    var u, m1 := Insert(hash, t, name, v).value, m[name := v];
    InsertKeepsProbed(hash, t, name, v);
    NamesAfterInsert(hash, t, name, v);
    assert m1.Keys == m.Keys + {name};
    forall n: Name | n in m1 ensures Lookup(hash, u, n) == Some(m1[n]) {
      LookupAfterInsert(hash, t, name, v, n);
    }
  }

  /** Hence a lookup answers as the map does, bound or not. */
  lemma RepresentsAnswers(hash: Hash, t: seq<Slot>, m: map<Name, Word>, n: Name)
    requires Represents(hash, t, m)
    ensures Lookup(hash, t, n) == if n in m then Some(m[n]) else None
  {
    LookupIff(hash, t, n);
  }

  /** Over every sequence of inserts the table behaves as the bounded map. */
  lemma {:induction false} TableRefinesMap(hash: Hash, bs: seq<Binding>)
    ensures Represents(hash, InsertAll(hash, bs), MapAll(bs))
  {
    if bs == [] {
      EmptyRepresents(hash);
    } else {
      var before, b := bs[..|bs| - 1], bs[|bs| - 1];
      TableRefinesMap(hash, before);
      var t := InsertAll(hash, before);
      InsertFits(hash, t, MapAll(before), b.name, b.value);
      if Insert(hash, t, b.name, b.value).Some? {
        InsertRepresents(hash, t, MapAll(before), b.name, b.value);
      }
    }
  }
}

/** Several operands loaded so that all of them are in registers at once. */
module Coregisters {
  import opened Words
  import opened Mips
  import opened Script
  import opened Emitter32
  import opened Target
  import opened Moves
  import opened Machines
  import opened ArithCode

  /** Operands among the first k that are not registers. */
  function NonRegs(ops: seq<Operand>, k: nat): (n: nat)
    requires k <= |ops|
    ensures n <= k
  {
    if k == 0 then 0 else NonRegs(ops, k - 1) + if ops[k - 1].OpReg? then 0 else 1
  }

  /** Where operand k ends up: its own register, or the next temporary. */
  function Loaded(t: Target, T: nat, ops: seq<Operand>, k: nat): Operand
    requires |t.temps| > 0 && k < |ops|
  {
    if ops[k].OpReg? then ops[k] else OpReg(TempAt(t, T + NonRegs(ops, k)))
  }

  function CoregCode(t: Target, T: nat, ops: seq<Operand>, k: nat): seq<Instr>
    requires |t.temps| > 0 && k <= |ops|
  {
    if k == 0 then []
    else
      var hi := T + NonRegs(ops, k - 1);
      CoregCode(t, T, ops, k - 1) +
      if ops[k - 1].OpReg? then [] else OneCode(t, hi, ops[k - 1])
  }

  lemma {:induction false} NonRegsGrow(ops: seq<Operand>, j: nat, k: nat)
    requires j <= k <= |ops|
    ensures NonRegs(ops, j) <= NonRegs(ops, k)
    ensures j < k && !ops[j].OpReg? ==> NonRegs(ops, j) < NonRegs(ops, k)
    decreases k
  {
    if j < k {
      NonRegsGrow(ops, j, k - 1);
    }
  }

  /** Operands that survive the acquisitions, no more of them to load than there are temporaries. */
  ghost predicate CoregOk(t: Target, T: nat, lo: int, x: Data, ops: seq<Operand>) {
    && t.Valid() && Room(t, T, T + NonRegs(ops, |ops|), lo, x) && NonRegs(ops, |ops|) <= |t.temps|
    && forall i :: 0 <= i < |ops| ==> Usable(t, T, T + NonRegs(ops, |ops|), lo, x, ops[i])
  }

  /** The first k operands are in registers, with the values they had. */
  ghost predicate InRegisters(t: Target, T: nat, ops: seq<Operand>, k: nat, x: Data, y: Data)
    requires |t.temps| > 0 && k <= |ops|
  {
    forall i :: 0 <= i < k ==> Loaded(t, T, ops, i).OpReg? && R(y, Loaded(t, T, ops, i).reg) == Val(x, ops[i])
  }

  /** One operand into a temporary acquired for it: the words, and the state they lead to. */
  function OneCode(t: Target, hi: nat, o: Operand): seq<Instr>
    requires |t.temps| > 0
  {
    AcquireCode(t, hi) + LoadRegCode(o, TempAt(t, hi), false)
  }

  lemma LoadOne(t: Target, T: nat, hi: nat, lo: int, x: Data, y: Data, o: Operand)
    requires t.Valid() && T <= hi && Room(t, T, hi + 1, lo, x) && Usable(t, T, hi + 1, lo, x, o) && !o.OpReg?
    requires Held(t, T, hi, lo, x, y)
    ensures var z := ExecSeq(OneCode(t, hi, o), y);
            Held(t, T, hi + 1, lo, x, z) && R(z, TempAt(t, hi)) == Val(x, o)
            && forall q: Reg :: q != TempAt(t, hi) ==> R(z, q) == R(y, q)
  {
    hide ExecSeq, Held, AcquireCode, LoadRegCode, Room, TempAt, Usable, Spared, Val;
    HeldAcquire(t, T, hi, lo, x, y);
    var y1 := ExecSeq(AcquireCode(t, hi), y);
    HeldVal(t, T, hi + 1, lo, x, y1, o);
    LoadRegLoads(o, TempAt(t, hi), false, y1);
    ExecConcat(AcquireCode(t, hi), LoadRegCode(o, TempAt(t, hi), false), y);
    HeldTempWrite(t, T, hi + 1, lo, x, y1, hi, Val(x, o));
    TempOrdinary(t, hi);
    AcquiresNoReg(t, hi, y);
  }

  /** What CoregOk says of one operand. */
  lemma CoregAt(t: Target, T: nat, lo: int, x: Data, ops: seq<Operand>, i: nat)
    requires CoregOk(t, T, lo, x, ops) && i < |ops|
    ensures var hi := T + NonRegs(ops, |ops|);
            t.Valid() && Room(t, T, hi, lo, x) && Usable(t, T, hi, lo, x, ops[i]) && hi <= T + |t.temps|
  {
    hide Usable, Room, NonRegs;
  }

  /** What loading one operand needs, from what loading all of them needs. */
  lemma OneOk(t: Target, T: nat, lo: int, x: Data, ops: seq<Operand>, k: nat)
    requires CoregOk(t, T, lo, x, ops) && k < |ops| && !ops[k].OpReg?
    ensures var hi := T + NonRegs(ops, k); Room(t, T, hi + 1, lo, x) && Usable(t, T, hi + 1, lo, x, ops[k])
  {
    hide Room, Usable, CoregOk, NonRegs, TempAt, Target.Valid;
    CoregAt(t, T, lo, x, ops, k);
    NonRegsGrow(ops, k, |ops|);
    assert NonRegs(ops, k) + 1 <= NonRegs(ops, |ops|);
    RoomFewer(t, T, T + NonRegs(ops, |ops|), T + NonRegs(ops, k) + 1, lo, x);
    UsableFewer(t, T, T + NonRegs(ops, |ops|), T + NonRegs(ops, k) + 1, lo, x, ops[k]);
  }

  /** Loading one more keeps those loaded before it. */
  lemma LoadNext(t: Target, T: nat, lo: int, x: Data, y: Data, ops: seq<Operand>, k: nat)
    requires CoregOk(t, T, lo, x, ops) && t.Valid() && k < |ops| && !ops[k].OpReg?
    requires Held(t, T, T + NonRegs(ops, k), lo, x, y) && InRegisters(t, T, ops, k, x, y)
    ensures var hi := T + NonRegs(ops, k);
            var z := ExecSeq(OneCode(t, hi, ops[k]), y);
            Held(t, T, hi + 1, lo, x, z) && InRegisters(t, T, ops, k + 1, x, z)
  {
    hide ExecSeq, Held, OneCode, Room, TempAt, Usable, CoregOk, NonRegs, Val;
    var hi := T + NonRegs(ops, k);
    OneOk(t, T, lo, x, ops, k);
    LoadOne(t, T, hi, lo, x, y, ops[k]);
    var z := ExecSeq(OneCode(t, hi, ops[k]), y);
    forall i | 0 <= i < k + 1
      ensures Loaded(t, T, ops, i).OpReg? && R(z, Loaded(t, T, ops, i).reg) == Val(x, ops[i])
    {
      if i < k {
        StillLoaded(t, T, lo, x, ops, i, k);
      }
    }
  }

  lemma AcquiresNoReg(t: Target, T: nat, x: Data)
    requires |t.temps| > 0
    ensures forall q: Reg :: R(ExecSeq(AcquireCode(t, T), x), q) == R(x, q)
  {
    if T >= |t.temps| {
      ExecOne(AcquireCode(t, T)[0], x);
    } else {
      ExecNone(x);
    }
  }

  lemma NotHeld(t: Target, T: nat, hi: nat, lo: int, x: Data, o: Operand, k: nat)
    requires |t.temps| > 0 && Usable(t, T, hi, lo, x, o) && o.OpReg? && T <= k < hi
    ensures o.reg != TempAt(t, k)
  {
  }

  /** The temporary for operand k is not where an earlier operand is. */
  lemma StillLoaded(t: Target, T: nat, lo: int, x: Data, ops: seq<Operand>, i: nat, k: nat)
    requires CoregOk(t, T, lo, x, ops) && i < k < |ops| && !ops[k].OpReg?
    ensures Loaded(t, T, ops, i) != OpReg(TempAt(t, T + NonRegs(ops, k)))
  {
    hide CoregOk, TempAt, Usable, NonRegs, Room;
    var n := NonRegs(ops, |ops|);
    CoregAt(t, T, lo, x, ops, i);
    NonRegsGrow(ops, k, |ops|);
    if ops[i].OpReg? {
      NotHeld(t, T, T + n, lo, x, ops[i], T + NonRegs(ops, k));
    } else {
      NonRegsGrow(ops, i, k);
      TempDistinct(t, T + NonRegs(ops, i), T + NonRegs(ops, k));
    }
  }

  /** A register operand needs nothing. */
  lemma KeepReg(t: Target, T: nat, lo: int, x: Data, y: Data, ops: seq<Operand>, k: nat)
    requires CoregOk(t, T, lo, x, ops) && k < |ops| && ops[k].OpReg?
    requires Held(t, T, T + NonRegs(ops, k), lo, x, y) && InRegisters(t, T, ops, k, x, y)
    ensures InRegisters(t, T, ops, k + 1, x, y)
  {
    hide CoregOk, Usable, Held, TempAt, NonRegs;
    CoregAt(t, T, lo, x, ops, k);
    NonRegsGrow(ops, k, |ops|);
    UsableFewer(t, T, T + NonRegs(ops, |ops|), T + NonRegs(ops, k), lo, x, ops[k]);
    HeldVal(t, T, T + NonRegs(ops, k), lo, x, y, ops[k]);
  }

  /** All operands are in registers at the same time, each with its original value. */
  lemma {:induction false} CoregLoads(t: Target, T: nat, lo: int, x: Data, ops: seq<Operand>, k: nat)
    requires CoregOk(t, T, lo, x, ops) && k <= |ops|
    ensures var y := ExecSeq(CoregCode(t, T, ops, k), x);
            Held(t, T, T + NonRegs(ops, k), lo, x, y) && InRegisters(t, T, ops, k, x, y)
    decreases k
  {
    hide ExecSeq, OneCode, Held, CoregOk, Loaded, Val;
    CoregShape(t, T, lo, x, ops);
    if k == 0 {
      ExecNone(x);
      SimRefl(t, T, lo, x);
    } else {
      var y := ExecSeq(CoregCode(t, T, ops, k - 1), x);
      var hi := T + NonRegs(ops, k - 1);
      CoregLoads(t, T, lo, x, ops, k - 1);
      ExecConcat(CoregCode(t, T, ops, k - 1), if ops[k - 1].OpReg? then [] else OneCode(t, hi, ops[k - 1]), x);
      if ops[k - 1].OpReg? {
        ExecNone(y);
        KeepReg(t, T, lo, x, y, ops, k - 1);
      } else {
        LoadNext(t, T, lo, x, y, ops, k - 1);
      }
    }
  }

  lemma CoregShape(t: Target, T: nat, lo: int, x: Data, ops: seq<Operand>)
    requires CoregOk(t, T, lo, x, ops)
    ensures t.Valid()
  {
  }

  /** There is room to take every temporary the operands need. */
  ghost predicate CoregRoom(m: Machine, T: nat, ops: seq<Operand>)
    reads m
  {
    forall k :: 0 <= k < |ops| && !ops[k].OpReg? ==> HeadRoom(m.t, T + NonRegs(ops, k), 1, m.allowSpill)
  }

  /** A move into a register, with spilling off while it is made. */
  method MoveNoSpill(e: Emitter, m: Machine, r: Reg, s: Operand)
    requires Ready(e, m) && !s.OpReg?
    modifies e.Repr, m, m.reg
    ensures Appended(e, m, LoadRegCode(s, r, false))
  {
    hide Emitter.Valid, Emits, LoadRegCode;
    var prior := m.DisableSpill();
    Move(e, m, OpReg(r), s);
    m.RestoreSpill(prior);
  }

  /** Acquire a temporary and bring one operand into it. */
  method LoadTemp(e: Emitter, m: Machine, o: Operand) returns (r: Reg)
    requires Ready(e, m) && HeadRoom(m.t, m.live, 1, m.allowSpill) && !o.OpReg?
    modifies e.Repr, m, m.reg
    ensures AppendedBy(e, m, OneCode(m.t, old(m.live), o), 1) && r == TempAt(m.t, old(m.live))
  {
    hide Emitter.Valid, Machine.Valid, Emits, AcquireCode, LoadRegCode, HeadRoom, TempAt;
    r := m.AcquireTemp(e);
    MoveNoSpill(e, m, r, o);
    EmitsAppend(old(e.script), AcquireCode(m.t, old(m.live)), LoadRegCode(o, r, false));
  }

  lemma CoregNone(t: Target, T: nat, ops: seq<Operand>)
    requires |t.temps| > 0
    ensures CoregCode(t, T, ops, 0) == [] && NonRegs(ops, 0) == 0
  {
  }

  /** The effect of one more operand on code, count and place. */
  lemma CoregStep(t: Target, T: nat, ops: seq<Operand>, i: nat)
    requires |t.temps| > 0 && i < |ops|
    ensures ops[i].OpReg? ==> CoregCode(t, T, ops, i + 1) == CoregCode(t, T, ops, i)
                              && NonRegs(ops, i + 1) == NonRegs(ops, i) && Loaded(t, T, ops, i) == ops[i]
    ensures var hi := T + NonRegs(ops, i);
            !ops[i].OpReg? ==> CoregCode(t, T, ops, i + 1) == CoregCode(t, T, ops, i) + OneCode(t, hi, ops[i])
                               && NonRegs(ops, i + 1) == NonRegs(ops, i) + 1 && Loaded(t, T, ops, i) == OpReg(TempAt(t, hi))
  {
  }

  /** load_coregisters: a temporary for each operand that is not a register. */
  method LoadCoregisters(e: Emitter, m: Machine, ops: seq<Operand>) returns (regs: seq<Operand>, temps: nat)
    requires Ready(e, m) && CoregRoom(m, m.live, ops)
    modifies e.Repr, m, m.reg
    ensures AppendedBy(e, m, CoregCode(m.t, old(m.live), ops, |ops|), temps) && temps == NonRegs(ops, |ops|)
    ensures |regs| == |ops| && forall k :: 0 <= k < |ops| ==> regs[k] == Loaded(m.t, old(m.live), ops, k)
  {
    hide Emitter.Valid, Machine.Valid, Emits, OneCode, HeadRoom, TempAt, CoregCode, NonRegs, Loaded, Target.Valid;
    ghost var t, T, s0 := m.t, m.live, e.script;
    regs, temps := [], 0;
    EmitsNothing(s0);
    CoregNone(t, T, ops);
    var i := 0;
    while i < |ops|
      invariant 0 <= i <= |ops| && temps == NonRegs(ops, i) && |regs| == i
      invariant AppendedBy(e, m, CoregCode(t, T, ops, i), temps)
      invariant forall k :: 0 <= k < i ==> regs[k] == Loaded(t, T, ops, k)
    {
      ghost var c := CoregCode(t, T, ops, i);
      CoregStep(t, T, ops, i);
      if ops[i].OpReg? {
        regs := regs + [ops[i]];
      } else {
        EmitsAppend(s0, c, OneCode(t, m.live, ops[i]));
        var r := LoadTemp(e, m, ops[i]);
        regs := regs + [OpReg(r)];
        temps := temps + 1;
      }
      i := i + 1;
    }
  }

  /**
   Loading the operands and giving the temporaries back again, as unload_coregisters does, is
   not noticed.
   */
  lemma LoadThenUnload(t: Target, T: nat, lo: int, x: Data, ops: seq<Operand>)
    requires CoregOk(t, T, lo, x, ops) && |t.temps| > 0
    ensures var n := NonRegs(ops, |ops|);
            Sim(t, T, lo, x, ExecSeq(CoregCode(t, T, ops, |ops|) + ReleaseN(t, T, n), x))
  {
    hide ExecSeq, Held, Room, CoregCode, ReleaseN, Usable, InRegisters, NonRegs;
    var n := NonRegs(ops, |ops|);
    CoregLoads(t, T, lo, x, ops, |ops|);
    ExecConcat(CoregCode(t, T, ops, |ops|), ReleaseN(t, T, n), x);
    HeldReleaseN(t, T, n, lo, x, ExecSeq(CoregCode(t, T, ops, |ops|), x));
  }
}

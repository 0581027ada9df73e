/** Running what one bytecode instruction emits does to the frame what its step does. */
module Simulate {
  import opened Words
  import opened Mips
  import opened Script
  import opened Target
  import opened Moves
  import opened ArithCode
  import opened ArithOps
  import opened BranchCode
  import opened Branch
  import opened ScriptRun
  import opened Frame
  import opened Bytecode

  /** The machine holds the state of the VM: every local, value and type, where it belongs. */
  ghost predicate Represents(f: Frame, lo: int, x: Data, st: VM) {
    && FrameOk(f, lo, x) && StateOk(f, st)
    && (forall v :: 0 <= v < f.nrLocals ==> Val(x, SlotOp(f, 2 * v)) == st.val[v])
    && (forall v :: 0 <= v < f.nrLocals ==> Val(x, SlotOp(f, 2 * v + 1)) == st.tag[v])
  }

  lemma RelPc(f: Frame, lo: int, x: Data, st: VM, pc: int)
    requires Represents(f, lo, x, st)
    ensures Represents(f, lo, x, st.(pc := pc))
  {
  }

  lemma RelSim(f: Frame, lo: int, x: Data, y: Data, st: VM)
    requires Represents(f, lo, x, st) && Sim(f.t, 0, lo, x, y)
    ensures Represents(f, lo, y, st)
  {
    hide Sim, SlotOp, FrameOk, Val;
    SimFrame(f, 0, lo, x, y);
    forall v | 0 <= v < f.nrLocals
      ensures Val(y, SlotOp(f, 2 * v)) == st.val[v]
    {
      SimSlot(f, 0, lo, x, y, 2 * v);
    }
    forall v | 0 <= v < f.nrLocals
      ensures Val(y, SlotOp(f, 2 * v + 1)) == st.tag[v]
    {
      SimSlot(f, 0, lo, x, y, 2 * v + 1);
    }
  }

  lemma RelValue(f: Frame, lo: int, x: Data, st: VM, a: nat, w: Word)
    requires Represents(f, lo, x, st) && a < f.nrLocals
    ensures Represents(f, lo, Upd(x, SlotOp(f, 2 * a), w), st.(val := st.val[a := w]))
  {
    hide SlotOp, FrameOk, Val, Upd;
    var y := Upd(x, SlotOp(f, 2 * a), w);
    forall v | 0 <= v < f.nrLocals
      ensures Val(y, SlotOp(f, 2 * v)) == st.val[a := w][v]
    {
      SlotUpd(f, lo, x, 2 * a, 2 * v, w);
    }
    forall v | 0 <= v < f.nrLocals
      ensures Val(y, SlotOp(f, 2 * v + 1)) == st.tag[v]
    {
      SlotUpd(f, lo, x, 2 * a, 2 * v + 1, w);
    }
    SlotUpd(f, lo, x, 2 * a, 2 * a, w);
  }

  lemma RelTag(f: Frame, lo: int, x: Data, st: VM, a: nat, w: Word)
    requires Represents(f, lo, x, st) && a < f.nrLocals
    ensures Represents(f, lo, Upd(x, SlotOp(f, 2 * a + 1), w), st.(tag := st.tag[a := w]))
  {
    hide SlotOp, FrameOk, Val, Upd;
    var y := Upd(x, SlotOp(f, 2 * a + 1), w);
    forall v | 0 <= v < f.nrLocals
      ensures Val(y, SlotOp(f, 2 * v)) == st.val[v]
    {
      SlotUpd(f, lo, x, 2 * a + 1, 2 * v, w);
    }
    forall v | 0 <= v < f.nrLocals
      ensures Val(y, SlotOp(f, 2 * v + 1)) == st.tag[a := w][v]
    {
      SlotUpd(f, lo, x, 2 * a + 1, 2 * v + 1, w);
    }
    SlotUpd(f, lo, x, 2 * a + 1, 2 * a, w);
  }

  /** A bytecode operand reads what the VM says, and is usable by any lowering. */
  lemma OperandReads(f: Frame, lo: int, x: Data, st: VM, o: LOperand, T: nat, hi: nat)
    requires Represents(f, lo, x, st) && OperandIn(f, o)
    ensures var v := LoperandToOperand(f, o);
            && Val(x, v.value) == ValueOf(f, st, o) && Val(x, v.tag) == TagOf(f, st, o)
            && Usable(f.t, T, hi, lo, x, v.value) && Usable(f.t, T, hi, lo, x, v.tag)
            && (v.value.DAddr? ==> v.value.base == f.t.fp) && (v.tag.DAddr? ==> v.tag.base == f.t.fp)
            && (v.value.OpReg? ==> v.value.reg != ZERO)
  {
    hide Usable;
    if o.Local? {
      SlotUsable(f, lo, x, 2 * o.index, T, hi);
      SlotUsable(f, lo, x, 2 * o.index + 1, T, hi);
    } else {
      ImmUsable(f.t, T, hi, lo, x, f.consts[o.index].value);
      ImmUsable(f.t, T, hi, lo, x, f.consts[o.index].tag);
    }
  }

  lemma ImmUsable(t: Target, T: nat, hi: nat, lo: int, x: Data, k: Word)
    requires |t.temps| > 0
    ensures Usable(t, T, hi, lo, x, Imm(k))
  {
  }

  /** While registers last no spill area is needed. */
  lemma RoomInRegs(t: Target, T: nat, hi: nat, lo: int, x: Data)
    requires T <= hi <= |t.temps| && |t.temps| > 0
    ensures Room(t, T, hi, lo, x)
  {
  }

  /** Operands of a frame are clear of each other and of the temporaries in use. */
  lemma SlotsClear(f: Frame, lo: int, x: Data, st: VM, T: nat, p: nat, s: Operand, u: Operand)
    requires FrameOk(f, lo, x) && p < f.Slots() && T <= 1
    requires Usable(f.t, T, T + 2, lo, x, s) && Usable(f.t, T, T + 2, lo, x, u)
    requires (s.DAddr? ==> s.base == f.t.fp) && (u.DAddr? ==> u.base == f.t.fp)
    ensures Clear(f.t, T, lo, x, SlotOp(f, p), s, u)
  {
    hide Usable, Room;
    RoomInRegs(f.t, T, T + 2, lo, x);
    RoomInRegs(f.t, T, T + 1, lo, x);
    SlotUsable(f, lo, x, p, T, T + 2);
    SlotUsable(f, lo, x, p, T, T + 1);
    SlotUsable(f, lo, x, p, T, T);
    ImmUsable(f.t, T, T, lo, x, 0);
    ImmUsable(f.t, T, T + 1, lo, x, 0);
  }

  // ----- the register that holds the tag test -----

  lemma TagSpared(t: Target, hi: nat)
    requires t.Valid() && |t.temps| >= 3 && hi <= 3
    ensures Spared(t, 1, hi, TempAt(t, 0)) && t.Ordinary(TempAt(t, 0))
  {
    TempOrdinary(t, 0);
    forall k: nat | 1 <= k < hi || 1 <= k < |t.temps|
      ensures TempAt(t, k) != TempAt(t, 0)
    {
      TempDistinct(t, 0, k);
    }
  }

  lemma TagClear(f: Frame, lo: int, x: Data, s: Operand, u: Operand)
    requires FrameOk(f, lo, x)
    requires Usable(f.t, 1, 3, lo, x, s) && Usable(f.t, 1, 3, lo, x, u)
    requires (s.DAddr? ==> s.base == f.t.fp) && (u.DAddr? ==> u.base == f.t.fp)
    ensures Clear(f.t, 1, lo, x, OpReg(TempAt(f.t, 0)), s, u)
  {
    TagSpared(f.t, 3);
    TagSpared(f.t, 1);
    RoomInRegs(f.t, 1, 3, lo, x);
    hide Spared, Room, TempAt;
  }

  /** The tag register is nobody's while no temporary is live. */
  lemma TagUnseen(t: Target, lo: int, x: Data, v: Word)
    requires t.Valid()
    ensures Sim(t, 0, lo, x, Upd(x, OpReg(TempAt(t, 0)), v))
  {
    var y := Upd(x, OpReg(TempAt(t, 0)), v);
    MemOnly(lo, x, x, x, y);
    forall q: Reg | Spared(t, 0, 0, q)
      ensures R(y, q) == R(x, q)
    {
      assert TempAt(t, 0) != q;
    }
  }

  /** Or-ing two tags leaves zero in the tag register if and only if both are zero, and the frame alone. */
  lemma TagOr(f: Frame, lo: int, x: Data, s: VregOperand, u: VregOperand)
    requires FrameOk(f, lo, x) && PlainAccepts(s.tag, u.tag)
    requires Usable(f.t, 1, 3, lo, x, s.tag) && Usable(f.t, 1, 3, lo, x, u.tag)
    requires (s.tag.DAddr? ==> s.tag.base == f.t.fp) && (u.tag.DAddr? ==> u.tag.base == f.t.fp)
    ensures var r := TempAt(f.t, 0);
            var y := ExecSeq(AcquireCode(f.t, 0) + OrCode(f.t, 1, OpReg(r), s.tag, u.tag), x);
            Sim(f.t, 0, lo, x, y) && (R(y, r) == 0 <==> Val(x, s.tag) == 0 && Val(x, u.tag) == 0)
  {
    hide ExecSeq, OrCode, Clear, Usable, Sim, TempAt, BitOr, Val;
    var t := f.t;
    var r := TempAt(t, 0);
    var c := OrCode(t, 1, OpReg(r), s.tag, u.tag);
    var y := ExecSeq(c, x);
    assert AcquireCode(t, 0) == [] && [] + c == c;
    TagClear(f, lo, x, s.tag, u.tag);
    OrExact(t, 1, lo, OpReg(r), s.tag, u.tag, x);
    var or := Or32(Val(x, s.tag), Val(x, u.tag));
    OrNil(Val(x, s.tag), Val(x, u.tag));
    var z := Upd(x, OpReg(r), or);
    TagKept(t, lo, z, y);
    TempOrdinary(t, 0);
    TagUnseen(t, lo, x, or);
    SimWeaken(t, 1, lo, z, y);
    SimTrans(t, 0, lo, x, z, y);
  }

  lemma TagKept(t: Target, lo: int, z: Data, y: Data)
    requires t.Valid() && |t.temps| >= 3 && Sim(t, 1, lo, z, y)
    ensures R(y, TempAt(t, 0)) == R(z, TempAt(t, 0))
  {
    TagSpared(t, 1);
  }

  // ----- data effects -----

  lemma BopOpExact(t: Target, lo: int, op: Bop, d: Operand, s: Operand, u: Operand, x: Data)
    requires Clear(t, 1, lo, x, d, s, u) && BopAccepts(op, s, u)
    ensures Sim(t, 1, lo, Upd(x, d, BopVal(op, Val(x, s), Val(x, u))), ExecSeq(BopOpCode(t, 1, op, d, s, u), x))
    ensures Plain(BopOpCode(t, 1, op, d, s, u))
  {
    hide ExecSeq, Sim, Upd, AddCode, SubCode, MulCode, Plain, Norm, Clear;
    ClearShape(t, lo, d, s, u, x);
    match op
    case BADD =>
      AddExact(t, 1, lo, d, s, u, x);
      PlainAddCode(t, d, s, u);
    case BSUB =>
      SubExact(t, 1, lo, d, s, u, x);
      PlainSub(t, 1, d, s, u);
    case BMUL =>
      MulExact(t, 1, lo, d, s, u, x);
      PlainMul(t, 1, d, s, u);
  }

  lemma ClearShape(t: Target, lo: int, d: Operand, s: Operand, u: Operand, x: Data)
    requires Clear(t, 1, lo, x, d, s, u)
    ensures |t.temps| > 0 && !d.Imm? && t.Valid()
  {
  }

  lemma PlainAddCode(t: Target, d: Operand, s: Operand, u: Operand)
    requires |t.temps| > 0 && !d.Imm? && AddAccepts(s, u)
    ensures Plain(AddCode(t, 1, d, s, u))
  {
    PlainAdd(t, 1, d, s, u, false);
  }

  /** Setting a slot through code that holds the tag temporary. */
  lemma SlotSet(f: Frame, lo: int, x: Data, y: Data, st: VM, a: nat, w: Word, isTag: bool)
    requires Represents(f, lo, x, st) && a < f.nrLocals
    requires Sim(f.t, 1, lo, Upd(x, SlotOp(f, if isTag then 2 * a + 1 else 2 * a), w), y) || Sim(f.t, 0, lo, Upd(x, SlotOp(f, if isTag then 2 * a + 1 else 2 * a), w), y)
    ensures Represents(f, lo, y, if isTag then st.(tag := st.tag[a := w]) else st.(val := st.val[a := w]))
  {
    hide Sim, SlotOp, Upd, FrameOk;
    var p := if isTag then 2 * a + 1 else 2 * a;
    var z := Upd(x, SlotOp(f, p), w);
    FrameShape(f, lo, x);
    if Sim(f.t, 1, lo, z, y) {
      SimWeaken(f.t, 1, lo, z, y);
    }
    if isTag {
      RelTag(f, lo, x, st, a, w);
      RelSim(f, lo, z, y, st.(tag := st.tag[a := w]));
    } else {
      RelValue(f, lo, x, st, a, w);
      RelSim(f, lo, z, y, st.(val := st.val[a := w]));
    }
  }

  lemma FrameShape(f: Frame, lo: int, x: Data)
    requires FrameOk(f, lo, x)
    ensures f.t.Valid() && |f.t.temps| >= 3
  {
  }

  /** A move into a slot. */
  lemma SlotMove(f: Frame, T: nat, lo: int, x: Data, st: VM, a: nat, isTag: bool, s: Operand)
    requires Represents(f, lo, x, st) && a < f.nrLocals && T <= 1
    requires Usable(f.t, T, T, lo, x, s) && Usable(f.t, T, T + 1, lo, x, s)
    ensures var c := MoveCode(f.t, T, SlotOp(f, if isTag then 2 * a + 1 else 2 * a), s);
            var w := Val(x, s);
            && Plain(c)
            && Represents(f, lo, ExecSeq(c, x), if isTag then st.(tag := st.tag[a := w]) else st.(val := st.val[a := w]))
  {
    hide Sim, SlotOp, Upd, ExecSeq, MoveCode, Usable, Room, Represents, Plain;
    var p := if isTag then 2 * a + 1 else 2 * a;
    RepresentsShape(f, lo, x, st);
    SlotUsable(f, lo, x, p, T, T);
    SlotUsable(f, lo, x, p, T, T + 1);
    RoomInRegs(f.t, T, T + 1, lo, x);
    MoveMoves(f.t, T, lo, SlotOp(f, p), s, x);
    PlainMove(f.t, T, SlotOp(f, p), s);
    SlotSet(f, lo, x, ExecSeq(MoveCode(f.t, T, SlotOp(f, p), s), x), st, a, Val(x, s), isTag);
  }

  lemma RepresentsShape(f: Frame, lo: int, x: Data, st: VM)
    requires Represents(f, lo, x, st)
    ensures FrameOk(f, lo, x) && StateOk(f, st) && f.t.Valid() && |f.t.temps| >= 3
  {
  }

  /** MOVE and LOADK: both halves of the value arrive. */
  lemma AssignSets(f: Frame, lo: int, x: Data, st: VM, a: nat, o: LOperand)
    requires Represents(f, lo, x, st) && a < f.nrLocals && OperandIn(f, o)
    ensures var c := AssignCode(f.t, VregToOperand(f, a, false), LoperandToOperand(f, o));
            Plain(c) && Represents(f, lo, ExecSeq(c, x), SetLocal(st, a, ValueOf(f, st, o), TagOf(f, st, o)))
  {
    hide Sim, ExecSeq, MoveCode, Usable, Room, Represents, Plain, FrameOk;
    var d, s := VregToOperand(f, a, false), LoperandToOperand(f, o);
    RepresentsShape(f, lo, x, st);
    OperandReads(f, lo, x, st, o, 0, 0);
    OperandReads(f, lo, x, st, o, 0, 1);
    var c1, c2 := MoveCode(f.t, 0, d.value, s.value), MoveCode(f.t, 0, d.tag, s.tag);
    SlotMove(f, 0, lo, x, st, a, false, s.value);
    var y, st1 := ExecSeq(c1, x), st.(val := st.val[a := ValueOf(f, st, o)]);
    OperandReads(f, lo, y, st1, o, 0, 0);
    OperandReads(f, lo, y, st1, o, 0, 1);
    SlotMove(f, 0, lo, y, st1, a, true, s.tag);
    ExecConcat(c1, c2, x);
    PlainJoin(c1, c2);
  }

  /** The fast path: the result in the destination, tagged as a number. */
  lemma FastPath(f: Frame, lo: int, x: Data, st: VM, op: Bop, a: nat, b: LOperand, c: LOperand)
    requires Represents(f, lo, x, st) && BopReady(f, op, a, b, c)
    ensures var d := VregToOperand(f, a, false);
            var ws := BopOpCode(f.t, 1, op, d.value, LoperandToOperand(f, b).value, LoperandToOperand(f, c).value)
                      + MoveCode(f.t, 1, d.tag, Imm(LUA_TNUMBER));
            Plain(ws) && Represents(f, lo, ExecSeq(ws, x), SetLocal(st, a, BopVal(op, ValueOf(f, st, b), ValueOf(f, st, c)), LUA_TNUMBER))
  {
    hide Sim, ExecSeq, MoveCode, BopOpCode, Usable, Room, Represents, Plain, FrameOk, BopVal, Clear, Upd;
    var d, s, u := VregToOperand(f, a, false), LoperandToOperand(f, b), LoperandToOperand(f, c);
    RepresentsShape(f, lo, x, st);
    OperandReads(f, lo, x, st, b, 1, 3);
    OperandReads(f, lo, x, st, c, 1, 3);
    SlotsClear(f, lo, x, st, 1, 2 * a, s.value, u.value);
    var c1, c2 := BopOpCode(f.t, 1, op, d.value, s.value, u.value), MoveCode(f.t, 1, d.tag, Imm(LUA_TNUMBER));
    BopOpExact(f.t, lo, op, d.value, s.value, u.value, x);
    var v := BopVal(op, ValueOf(f, st, b), ValueOf(f, st, c));
    var y, st1 := ExecSeq(c1, x), st.(val := st.val[a := v]);
    SlotSet(f, lo, x, y, st, a, v, false);
    ImmUsable(f.t, 1, 1, lo, y, LUA_TNUMBER);
    ImmUsable(f.t, 1, 2, lo, y, LUA_TNUMBER);
    SlotMove(f, 1, lo, y, st1, a, true, Imm(LUA_TNUMBER));
    ExecConcat(c1, c2, x);
    PlainJoin(c1, c2);
  }
}

/** What `move` emits for every pair of operand kinds, and what running it does. */
module Moves {
  import opened Words
  import opened Mips
  import opened Target

  function LoadImCode(reg: Reg, k: Word): seq<Instr> {
    if -0x8000 <= k <= 0xffff then
      if k >= 0 then [Ori(reg, ZERO, k)] else [Addiu(reg, ZERO, Int16(k))]
    else
      [Lui(reg, (k / 0x1_0000) % 0x1_0000), Ori(reg, reg, k % 0x1_0000)]
  }

  function LoadRegCode(s: Operand, reg: Reg, force: bool): seq<Instr> {
    match s
    case Imm(k) => LoadImCode(reg, k)
    case DAddr(b, off) => [Lw(reg, b, off)]
    case OpReg(r) => if force then [Or(reg, r, ZERO)] else []
  }

  lemma LoadRegNone(s: Operand, reg: Reg)
    requires s.OpReg?
    ensures LoadRegCode(s, reg, false) == []
  {
  }

  function MoveCode(t: Target, T: nat, d: Operand, s: Operand): seq<Instr>
    requires |t.temps| > 0 && !d.Imm?
  {
    match d
    case OpReg(r) => LoadRegCode(s, r, s.OpReg?)
    case DAddr(b, off) =>
      if s.OpReg? then [Sw(s.reg, b, off)]
      else AcquireCode(t, T) + LoadRegCode(s, TempAt(t, T), false) + [Sw(TempAt(t, T), b, off)] + ReleaseCode(t, T + 1)
  }

  /** The high half that LUI loads leaves exactly the low half to be or-ed in. */
  lemma HighHalf(k: Word)
    ensures UpperWord((k / 0x1_0000) % 0x1_0000) == (k / 0x1_0000) * 0x1_0000 == k - k % 0x1_0000
  {
  }

  lemma LoadSmall(reg: Reg, k: Word, x: Data)
    requires 0 <= k <= 0xffff
    ensures Exec(Ori(reg, ZERO, k), x) == W(x, reg, k)
  {
    OrZero(k);
    hide BitOr;
    assert k % 0x1_0000 == k;
  }

  lemma LoadHalves(reg: Reg, hi: int, lo: int, k: Word, x: Data)
    requires lo % 0x1_0000 == lo && BitOr(UpperWord(hi), lo) == k
    ensures Exec(Ori(reg, reg, lo), Exec(Lui(reg, hi), x)) == W(x, reg, k)
  {
    hide BitOr, UpperWord, Norm;
  }

  lemma LoadBig(reg: Reg, k: Word, x: Data)
    ensures Exec(Ori(reg, reg, k % 0x1_0000), Exec(Lui(reg, (k / 0x1_0000) % 0x1_0000), x)) == W(x, reg, k)
  {
    hide Exec, BitOr;
    HighHalf(k);
    OrHighLow(k / 0x1_0000, k % 0x1_0000);
    LoadHalves(reg, (k / 0x1_0000) % 0x1_0000, k % 0x1_0000, k, x);
  }

  /** Every immediate reaches its register whole, in one instruction or in two halves. */
  lemma LoadImLoads(reg: Reg, k: Word, x: Data)
    ensures ExecSeq(LoadImCode(reg, k), x) == W(x, reg, k)
  {
    if 0 <= k <= 0xffff {
      LoadSmall(reg, k, x);
      ExecOne(Ori(reg, ZERO, k), x);
    } else if -0x8000 <= k < 0 {
      ExecOne(Addiu(reg, ZERO, k), x);
      assert Int16(k) == k && Norm(k) == k;
    } else {
      LoadBig(reg, k, x);
      hide Exec;
      ExecTwo(Lui(reg, (k / 0x1_0000) % 0x1_0000), Ori(reg, reg, k % 0x1_0000), x);
    }
  }

  lemma LoadRegLoads(s: Operand, reg: Reg, force: bool, x: Data)
    requires s.OpReg? && !force ==> s.reg == reg
    ensures ExecSeq(LoadRegCode(s, reg, force), x) == W(x, reg, Val(x, s))
  {
    match s
    case Imm(k) => LoadImLoads(reg, k, x);
    case DAddr(b, off) => ExecOne(Lw(reg, b, off), x);
    case OpReg(r) =>
      if force {
        ExecOne(Or(reg, r, ZERO), x);
        OrZero(R(x, r));
      } else {
        ExecNone(x);
        assert x.regs[reg := x.regs[reg]] == x.regs;
      }
  }

  /** With a register on either side, move is exactly the assignment it names. */
  lemma MoveExact(t: Target, T: nat, d: Operand, s: Operand, x: Data)
    requires |t.temps| > 0 && !d.Imm? && (d.OpReg? || s.OpReg?)
    ensures ExecSeq(MoveCode(t, T, d, s), x) == Upd(x, d, Val(x, s))
  {
    match d
    case OpReg(r) => LoadRegLoads(s, r, s.OpReg?, x);
    case DAddr(b, off) => ExecOne(Sw(s.reg, b, off), x);
  }

  /** Operands of a move that may need a temporary for a memory-to-memory copy. */
  ghost predicate MoveOk(t: Target, T: nat, lo: int, x: Data, d: Operand, s: Operand)
    requires |t.temps| > 0
  {
    && !d.Imm?
    && Usable(t, T, T, lo, x, d) && Usable(t, T, T, lo, x, s)
    && (d.DAddr? && !s.OpReg? ==>
          Room(t, T, T + 1, lo, x) && Usable(t, T, T + 1, lo, x, d) && Usable(t, T, T + 1, lo, x, s))
  }

  /** Memory to memory: the copy waits in one more temporary while it is stored. */
  lemma ViaTemp(t: Target, T: nat, lo: int, d: Operand, s: Operand, x: Data)
    requires t.Valid() && MoveOk(t, T, lo, x, d, s) && d.DAddr? && !s.OpReg?
    ensures var r := TempAt(t, T);
            var x1 := ExecSeq(AcquireCode(t, T), x);
            var x2 := W(x1, r, Val(x1, s));
            Held(t, T, T + 1, lo, Upd(x, d, Val(x, s)), St(x2, EffAddr(x2, d.base, d.offset), R(x2, r)))
  {
    hide ExecSeq, AcquireCode, Spared, RegsAgree, MemAgrees, SlotsHold, EffAddr, Room;
    var r := TempAt(t, T);
    var x1 := ExecSeq(AcquireCode(t, T), x);
    var v := Val(x, s);
    var x2 := W(x1, r, v);
    SimRefl(t, T, lo, x);
    HeldAcquire(t, T, T, lo, x, x);
    HeldVal(t, T, T + 1, lo, x, x1, s);
    HeldTempWrite(t, T, T + 1, lo, x, x1, T, v);
    HeldVal(t, T, T + 1, lo, x, x2, d);
    TempOrdinary(t, T);
    HeldStore(t, T, T + 1, lo, x, x2, EffAddr(x, d.base, d.offset), v);
  }

  lemma RoomAfter(t: Target, T: nat, hi: nat, lo: int, x: Data, d: Operand, v: Word)
    requires |t.temps| > 0 && Room(t, T, hi, lo, x) && (d.OpReg? ==> d.reg != t.sp)
    ensures Room(t, T, hi, lo, Upd(x, d, v))
  {
  }

  lemma MoveMemory(t: Target, T: nat, lo: int, d: Operand, s: Operand, x: Data)
    requires t.Valid() && MoveOk(t, T, lo, x, d, s) && d.DAddr? && !s.OpReg?
    ensures Sim(t, T, lo, Upd(x, d, Val(x, s)), ExecSeq(MoveCode(t, T, d, s), x))
  {
    hide Exec, ExecSeq, LoadImCode, TempAt, SlotNo, Spared, RegsAgree, MemAgrees, SlotsHold, Norm, Usable;
    var r := TempAt(t, T);
    var x1 := ExecSeq(AcquireCode(t, T), x);
    var x2 := W(x1, r, Val(x1, s));
    var y := Upd(x, d, Val(x, s));
    ViaTemp(t, T, lo, d, s, x);
    RoomAfter(t, T, T + 1, lo, x, d, Val(x, s));
    HeldRelease(t, T, T + 1, lo, y, St(x2, EffAddr(x2, d.base, d.offset), R(x2, r)));
    LoadRegLoads(s, r, false, x1);
    ExecSw(r, d.base, d.offset, x2);
    ExecFour(AcquireCode(t, T), LoadRegCode(s, r, false), [Sw(r, d.base, d.offset)], ReleaseCode(t, T + 1), x);
    hide AcquireCode, ReleaseCode, LoadRegCode, EffAddr, Upd, Held, Room, MoveOk;
  }

  /** Every move is the assignment it names, as far as its caller can see. */
  lemma MoveMoves(t: Target, T: nat, lo: int, d: Operand, s: Operand, x: Data)
    requires t.Valid() && MoveOk(t, T, lo, x, d, s)
    ensures Sim(t, T, lo, Upd(x, d, Val(x, s)), ExecSeq(MoveCode(t, T, d, s), x))
  {
    hide ExecSeq, MoveCode, Sim, Upd, Val, Usable, Room;
    if d.OpReg? || s.OpReg? {
      MoveExact(t, T, d, s, x);
      SimRefl(t, T, lo, Upd(x, d, Val(x, s)));
    } else {
      MoveMemory(t, T, lo, d, s, x);
    }
  }
}

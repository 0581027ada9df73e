/** The emitters of prologues, epilogues, open counts and the copying routine. */
module Xlogue {
  import opened Words
  import opened Wrappers
  import opened Mips
  import opened Script
  import opened Emitter32
  import opened Target
  import opened Moves
  import opened ArithCode
  import opened ArithOps
  import opened BranchCode
  import opened Machines
  import opened Arithmetic
  import opened Branch
  import opened ScriptRun
  import opened Bytecode
  import opened Synthetic
  import opened Saves
  import opened SaveRoutines
  import opened Marshal
  import opened Ccall
  import opened Calls
  import opened Counts
  import opened CopyLoop
  import opened CopyRun

  /** No temporary is held, and there are enough registers outside the temporaries. */
  ghost predicate Clear0(e: Emitter, m: Machine)
    reads e, e.Repr, m, m.reg
  {
    Ready(e, m) && Passes(m.t) && m.live == 0 && |m.t.temps| >= 3
  }

  lemma RoomFew(m: Machine, k: nat)
    requires |m.t.temps| >= 3 && m.live + k <= 3
    ensures HeadRoom(m.t, m.live, k, m.allowSpill) && HeadRoom(m.t, m.live, k, true)
  {
  }

  /** How many of n values have to be in temporaries. */
  function Overflow(t: Target, n: nat): nat {
    if n <= |t.spare| then 0 else n - |t.spare|
  }

  function PreferredAt(t: Target, T: nat, i: nat): Reg
    requires |t.temps| > 0
  {
    if i < |t.spare| then t.spare[i] else TempAt(t, T + i - |t.spare|)
  }

  /** Registers for n values with T temporaries live: non-temporaries first. */
  function Preferred(t: Target, T: nat, n: nat): (rs: seq<Reg>)
    requires |t.temps| > 0
    ensures |rs| == n && (n <= |t.spare| ==> rs == t.spare[..n])
  {
    seq(n, i requires 0 <= i < n => PreferredAt(t, T, i))
  }

  /** They are different registers, all of them in registers at once. */
  lemma PreferredApart(t: Target, T: nat, n: nat, i: nat, j: nat)
    requires t.Valid() && i < j < n && T + Overflow(t, n) <= |t.temps|
    ensures Preferred(t, T, n)[i] != Preferred(t, T, n)[j]
  {
    hide TempAt;
    if i >= |t.spare| {
      TempDistinct(t, T + i - |t.spare|, T + j - |t.spare|);
    } else if j >= |t.spare| {
      TempOrdinary(t, T + j - |t.spare|);
    }
  }

  method SetSpill(e: Emitter, m: Machine, allow: bool)
    requires Ready(e, m)
    modifies m`allowSpill
    ensures Ready(e, m) && m.allowSpill == allow
  {
    if allow {
      m.EnableSpill();
    } else {
      var _ := m.DisableSpill();
    }
  }

  /** One more register while temporaries last: nothing is emitted. */
  method PreferNext(e: Emitter, m: Machine, i: nat) returns (r: Reg)
    requires Ready(e, m) && (i >= |m.t.spare| ==> m.live < |m.t.temps|)
    modifies e.Repr, m, m.reg
    ensures AppendedBy(e, m, [], if i < |m.t.spare| then 0 else 1)
    ensures r == if i < |m.t.spare| then m.t.spare[i] else TempAt(m.t, old(m.live))
  {
    hide Emitter.Valid, Emits, TempAt;
    EmitsNothing(e.script);
    var spare := SpareRegs(m);
    if i < spare {
      r := VregToPhysicalReg(m, i);
    } else {
      r := m.AcquireTemp(e);
    }
  }

  /** Registers for n values that must stay in registers; spilling is off from then on. */
  method PreferNontempAcquireReg(e: Emitter, m: Machine, n: nat) returns (regs: seq<Reg>)
    requires Ready(e, m) && m.live + Overflow(m.t, n) <= |m.t.temps|
    modifies e.Repr, m, m.reg
    ensures Ready(e, m) && fresh(e.Repr - old(e.Repr)) && e.jt == old(e.jt) && e.script == old(e.script)
    ensures !m.allowSpill && m.live == old(m.live) + Overflow(m.t, n) && regs == Preferred(m.t, old(m.live), n)
  {
    hide Emitter.Valid, Machine.Valid, Emits, TempAt;
    EmitsNothing(e.script);
    regs := [];
    var i := 0;
    while i < n
      invariant 0 <= i <= n && |regs| == i && AppendedBy(e, m, [], Overflow(m.t, i))
      invariant forall k :: 0 <= k < i ==> regs[k] == Preferred(m.t, old(m.live), n)[k]
    {
      var r := PreferNext(e, m, i);
      regs := regs + [r];
      i := i + 1;
    }
    SetSpill(e, m, false);
  }

  /** The temporaries among them given back: nothing is emitted; spilling is on from then on. */
  method PreferNontempReleaseReg(e: Emitter, m: Machine, n: nat)
    requires Ready(e, m) && Overflow(m.t, n) <= m.live <= |m.t.temps|
    modifies e.Repr, m, m.reg
    ensures Ready(e, m) && fresh(e.Repr - old(e.Repr)) && e.jt == old(e.jt) && e.script == old(e.script)
    ensures m.allowSpill && m.live == old(m.live) - Overflow(m.t, n)
  {
    hide Emitter.Valid, Machine.Valid, Emits, TempAt;
    EmitsNothing(e.script);
    var i := SpareRegs(m);
    while i < n
      invariant i == |m.t.spare| || i <= n
      invariant i >= |m.t.spare| && AppendedBy(e, m, [], 0 - Overflow(m.t, i))
      decreases n - i
    {
      assert ReleaseCode(m.t, m.live) == [];
      var _ := m.ReleaseTemp(e);
      i := i + 1;
    }
    SetSpill(e, m, true);
  }

  /** The common outcome: words appended, spilling allowed again. */
  twostate predicate Emitted(e: Emitter, m: Machine, ws: seq<Instr>)
    reads e, e.Repr, m, m.reg
  {
    && Ready(e, m) && fresh(e.Repr - old(e.Repr)) && e.jt == old(e.jt) && m.live == old(m.live) && m.allowSpill
    && e.script == old(e.script) + Emits(ws)
  }

  /** Add a small immediate to a register. */
  method AddSmall(e: Emitter, m: Machine, d: Reg, s: Reg, k: Half)
    requires Ready(e, m) && k != 0 && HeadRoom(m.t, m.live, 0, m.allowSpill)
    modifies e.Repr, m, m.reg
    ensures Appended(e, m, [Addiu(d, s, k)])
  {
    hide Emitter.Valid, Machine.Valid, Emits, AddCode, AddNeeds, AddAccepts, HeadRoom;
    AddImmOne(m.t, m.live, d, s, k);
    MipsAdd(e, m, OpReg(d), OpReg(s), Imm(k));
  }

  method LoadWord(e: Emitter, m: Machine, d: Reg, base: Reg, off: Half)
    requires Ready(e, m)
    modifies e.Repr, m, m.reg
    ensures Appended(e, m, [Lw(d, base, off)])
  {
    hide Emitter.Valid, Machine.Valid;
    Move(e, m, OpReg(d), DAddr(base, off));
  }

  /** The registers the machine hands out are those of its target. */
  lemma Named(m: Machine)
    requires m.Valid()
    ensures m.sp == m.t.sp && m.fp == m.t.fp && m.ra == m.t.ra
  {
  }

  lemma AppendThree(s: seq<Ev>, a: seq<Instr>, b: seq<Instr>, c: seq<Instr>)
    ensures s + Emits(a) + Emits(b) + Emits(c) == s + Emits(a + b + c)
  {
    EmitsAppend(s, a, b);
    EmitsAppend(s, a + b, c);
  }

  /** The register saves and the frame pointer. */
  method EmitLink(e: Emitter, m: Machine, regs: seq<Reg>)
    requires Ready(e, m) && HeadRoom(m.t, m.live, 0, m.allowSpill) && RA_SIZE <= |m.t.spare| && regs == m.t.spare[..RA_SIZE]
    modifies e.Repr, m, m.reg
    ensures Appended(e, m, LinkCode(m.t, m.isRa))
  {
    hide Emitter.Valid, Machine.Valid, Emits, PushCode, HeadRoom;
    Named(m);
    EmitsAppend(e.script, PushCode(m.t, SavedRegs(m.t, m.isRa)), [Addiu(m.t.fp, m.t.sp, 4)]);
    if m.isRa {
      Pushn(e, m, [m.ra, m.fp, regs[RA_SRC]]);
    } else {
      Pushn(e, m, [m.fp, regs[RA_SRC]]);
    }
    AddSmall(e, m, m.fp, m.sp, 4);
  }

  lemma SetupJoin(s: seq<Ev>, t: Target)
    requires |t.spare| >= RA_SIZE
    ensures var code, src, dst := t.spare[RA_EXPECT], t.spare[RA_SRC], t.spare[RA_DST];
            s + Emits([Lw(code, src, 0)]) + Emits([Lw(code, code, CLOSURE_P)]) + Emits([Lw(code, code, PROTO_CODE_START)])
              + Emits([Addiu(src, src, -8)]) + Emits([Addiu(dst, t.fp, -8)]) == s + Emits(SetupCode(t))
  {
    var code, src, dst := t.spare[RA_EXPECT], t.spare[RA_SRC], t.spare[RA_DST];
    var a, b, c, d, f := [Lw(code, src, 0)], [Lw(code, code, CLOSURE_P)], [Lw(code, code, PROTO_CODE_START)], [Addiu(src, src, -8)], [Addiu(dst, t.fp, -8)];
    AppendThree(s, a, b, c);
    AppendThree(s, a + b + c, d, f);
    assert a + b + c + d + f == SetupCode(t);
  }

  /** The code pointer, and the two pointers of the argument copy. */
  method EmitSetup(e: Emitter, m: Machine, regs: seq<Reg>)
    requires Ready(e, m) && HeadRoom(m.t, m.live, 0, m.allowSpill) && RA_SIZE <= |m.t.spare| && regs == m.t.spare[..RA_SIZE]
    modifies e.Repr, m, m.reg
    ensures Appended(e, m, SetupCode(m.t))
  {
    hide Emitter.Valid, Machine.Valid, Emits, SetupCode, HeadRoom;
    Named(m);
    SetupJoin(e.script, m.t);
    var code, src, dst := regs[RA_EXPECT], regs[RA_SRC], regs[RA_DST];
    LoadWord(e, m, code, src, 0);
    LoadWord(e, m, code, code, CLOSURE_P);
    LoadWord(e, m, code, code, PROTO_CODE_START);
    AddSmall(e, m, src, src, -8);
    AddSmall(e, m, dst, m.fp, -8);
  }

  /** The prologue that all Lua closures share. */
  function SharedPrologue(t: Target, isRa: bool): seq<Instr>
    requires |t.spare| >= RA_SIZE
  {
    LinkCode(t, isRa) + SetupCode(t) + [Jr(t.spare[RA_EXPECT]), NOP]
  }

  /** lcl_pro: link, set up, and jump to the closure's code. */
  method LclPro(e: Emitter, m: Machine)
    requires Clear0(e, m)
    modifies e.Repr, m, m.reg
    ensures Emitted(e, m, SharedPrologue(m.t, m.isRa))
  {
    hide Emitter.Valid, Machine.Valid, Emits, LinkCode, SetupCode, HeadRoom;
    ghost var s0, t := e.script, m.t;
    RoomSpare(t);
    AppendThree(s0, LinkCode(t, m.isRa), SetupCode(t), [Jr(t.spare[RA_EXPECT]), NOP]);
    var regs := PreferNontempAcquireReg(e, m, RA_SIZE);
    RoomFew(m, 0);
    RoomFew(m, 1);
    EmitLink(e, m, regs);
    EmitSetup(e, m, regs);
    MipsBAbs(e, m, OpReg(regs[RA_EXPECT]));
    PreferNontempReleaseReg(e, m, RA_SIZE);
  }

  lemma RoomSpare(t: Target)
    requires Passes(t)
    ensures |t.spare| >= RA_SIZE
  {
  }

  /** A function's own prologue, up to the copying of its parameters. */
  function OwnPrologue(t: Target, nrLocals: nat, nrParams: nat): seq<Instr>
    requires |t.spare| >= RA_SIZE && nrParams <= 0xff
  {
    RoomCode(t, nrLocals) + if nrParams > 0 then LoadImCode(t.spare[RA_EXPECT], nrParams) else []
  }

  /** The function's own prologue: room for its locals, then copying and loading its parameters. */
  method Prologue(e: Emitter, m: Machine, nrLocals: nat, nrParams: nat, copy: seq<Instr>, load: seq<Instr>)
    requires Clear0(e, m) && 8 * nrLocals <= 0x8000 && nrParams <= 0xff
    modifies e.Repr, m, m.reg
    ensures Emitted(e, m, OwnPrologue(m.t, nrLocals, nrParams) + if nrParams > 0 then copy + load else [])
  {
    hide Emitter.Valid, Machine.Valid, Emits, HeadRoom, AddCode, AddNeeds, AddAccepts, LoadImCode;
    ghost var s0, t := e.script, m.t;
    RoomSpare(t);
    var regs := PreferNontempAcquireReg(e, m, RA_SIZE);
    RoomFew(m, 0);
    Named(m);
    RoomLowers(t, m.live, nrLocals);
    var k: int := 8 * nrLocals;
    HalfFits(0 - k);
    MipsAdd(e, m, OpReg(m.sp), OpReg(m.sp), Imm(0 - k));
    ghost var room, ps := RoomCode(t, nrLocals), LoadImCode(t.spare[RA_EXPECT], nrParams);
    if nrParams > 0 {
      AppendThree(s0 + Emits(room), ps, copy, load);
      EmitsAppend(s0, room, ps + copy + load);
      assert room + (ps + copy + load) == (room + ps) + (copy + load);
      LoadIm(e, m, regs[RA_EXPECT], nrParams);
      EmitWords(e, m, copy);
      EmitWords(e, m, load);
    }
    assert room + [] == room && room + [] + [] == room;
    PreferNontempReleaseReg(e, m, RA_SIZE);
  }

  lemma RoomLowers(t: Target, T: nat, n: nat)
    requires t.Valid() && 8 * n <= 0x8000
    ensures var k: int := 8 * n;
            && AddAccepts(OpReg(t.sp), Imm(0 - k)) && AddNeeds(t, T, OpReg(t.sp), OpReg(t.sp), Imm(0 - k)) == 0
            && AddCode(t, T, OpReg(t.sp), OpReg(t.sp), Imm(0 - k)) == RoomCode(t, n)
  {
    hide TempAt, AcquireCode;
    var k: int := 8 * n;
    HalfFits(0 - k);
  }

  method MipsRet(e: Emitter, m: Machine)
    requires Ready(e, m)
    modifies e.Repr
    ensures Appended(e, m, RET_CODE)
  {
    hide Emitter.Valid, Machine.Valid, Emits;
    EmitsAppend(e.script, [Jr(RA)], [NOP]);
    assert [Jr(RA)] + [NOP] == RET_CODE;
    Encode(e, m, Jr(RA));
    Encode(e, m, NOP);
  }

  method EmitLeave(e: Emitter, m: Machine, regs: seq<Reg>)
    requires Ready(e, m) && HeadRoom(m.t, m.live, 0, m.allowSpill) && RA_SIZE <= |m.t.spare| && regs == m.t.spare[..RA_SIZE]
    modifies e.Repr, m, m.reg
    ensures Appended(e, m, LeaveCode(m.t, m.isRa))
  {
    hide Emitter.Valid, Machine.Valid, Emits, PopCode, HeadRoom;
    Named(m);
    EmitsAppend(e.script, [Addiu(m.t.sp, m.t.fp, -4)], PopCode(m.t, RestoredRegs(m.t, m.isRa)));
    AddSmall(e, m, m.sp, m.fp, -4);
    if m.isRa {
      Popn(e, m, [regs[RA_DST], m.fp, m.ra]);
    } else {
      Popn(e, m, [regs[RA_DST], m.fp]);
    }
  }

  /** The whole epilogue: close, unwind, return. */
  function Epilogue(t: Target, isRa: bool, o: Outside): seq<Instr>
    requires |t.spare| >= RA_SIZE && |t.temps| > 0
  {
    CcallCode(t, 0, [DAddr(t.fp, -4)], o) + LeaveCode(t, isRa) + RET_CODE
  }

  /** jinit_epi: close the upvalues of the frame, whose closure is the argument, then unwind and return. */
  method JinitEpi(e: Emitter, m: Machine, o: Outside)
    requires Clear0(e, m) && |m.t.temps| == ARGS_BY_REG && m.allowSpill
    modifies e.Repr, m, m.reg
    ensures Emitted(e, m, Epilogue(m.t, m.isRa, o))
  {
    hide Emitter.Valid, Machine.Valid, Emits, LeaveCode, HeadRoom, CcallCode;
    RoomSpare(m.t);
    ghost var close := CcallCode(m.t, 0, [DAddr(m.t.fp, -4)], o);
    AppendThree(e.script, close, LeaveCode(m.t, m.isRa), RET_CODE);
    assert close + [] == close;
    Named(m);
    MipsStaticCcall(e, m, [DAddr(m.fp, -4)], o, None);
    var regs := PreferNontempAcquireReg(e, m, RA_SIZE);
    RoomFew(m, 0);
    EmitLeave(e, m, regs);
    MipsRet(e, m);
    PreferNontempReleaseReg(e, m, RA_SIZE);
  }

  // ----- counts -----

  // How many of the registers that pass what a call needs it takes to pass a count and a base.
  const RA_COUNT: nat := 2

  /** How precall finds the number of arguments: given, or from the stack pointer. */
  function CallCount(t: Target, b: nat, narg: nat): seq<Instr>
    requires |t.spare| >= RA_SIZE && narg < 0x1000
  {
    if narg > 0 then LoadImCode(t.spare[RA_EXIST], narg - 1) else OpenCallCode(t, b)
  }

  function ReturnCount(t: Target, b: nat, nret: nat): seq<Instr>
    requires |t.spare| >= RA_SIZE && nret < 0x1000
  {
    if nret > 0 then [Addiu(t.spare[RA_SRC], t.fp, Int16(ValueOffset(b)))] + LoadImCode(t.spare[RA_EXIST], nret - 1)
    else OpenReturnCode(t, b)
  }

  /** A subtraction and a division by eight on registers. */
  method EmitEighth(e: Emitter, m: Machine, r: Reg, s: Reg)
    requires Ready(e, m) && HeadRoom(m.t, m.live, 2, m.allowSpill) && Passes(m.t) && s != ZERO && r != ZERO
    requires SubAccepts(OpReg(s), OpReg(m.t.sp)) && DivAccepts(OpReg(r), Imm(8))
    modifies e.Repr, m, m.reg
    ensures Appended(e, m, SubCode(m.t, m.live, OpReg(r), OpReg(s), OpReg(m.t.sp)) + DivCode(m.t, m.live, OpReg(r), OpReg(r), Imm(8), false))
  {
    hide Emitter.Valid, Machine.Valid, Emits, SubCode, DivCode, SubNeeds, HeadRoom, IsPowerOf2, ILog2, DivAccepts, SubAccepts;
    ghost var t, T := m.t, m.live;
    Named(m);
    InPlaceNeedsNone(t, T, r, s, OpReg(t.sp));
    NoneNeeded(t, T, T, m.allowSpill);
    EmitsAppend(e.script, SubCode(t, T, OpReg(r), OpReg(s), OpReg(t.sp)), DivCode(t, T, OpReg(r), OpReg(r), Imm(8), false));
    SubNeedsSame(t, T, r, s);
    MipsSub(e, m, OpReg(r), OpReg(s), OpReg(m.sp));
    MipsDiv(e, m, OpReg(r), OpReg(r), Imm(8), false);
  }

  lemma SubNeedsSame(t: Target, T: nat, r: Reg, s: Reg)
    requires |t.temps| > 0
    ensures SubNeeds(t, T, OpReg(r), OpReg(s), OpReg(t.sp)) == 0
  {
    InPlaceNeedsNone(t, T, r, s, OpReg(t.sp));
  }

  lemma OffsetsFit(b: nat)
    requires 8 * (2 + b) <= 0x8000
    ensures IsHalf(-8 * (2 + b)) && IsHalf(ValueOffset(b)) && Int16(-8 * (2 + b)) != 0 && Int16(ValueOffset(b)) != 0
  {
    HalfFits(-8 * (2 + b));
    HalfFits(ValueOffset(b));
  }

  method EmitCallCount(e: Emitter, m: Machine, regs: seq<Reg>, b: nat, narg: nat)
    requires Clear0(e, m) && regs == m.t.spare[..RA_COUNT] && 8 * (2 + b) <= 0x8000 && narg < 0x1000
    modifies e.Repr, m, m.reg
    ensures Appended(e, m, CallCount(m.t, b, narg))
  {
    hide Emitter.Valid, Machine.Valid, Emits, HeadRoom, LoadImCode, AddCode, SubCode, DivCode, Passes, SubAccepts, DivAccepts;
    ghost var t := m.t;
    RoomSpare(t);
    var r := regs[RA_EXIST];
    if narg > 0 {
      LoadIm(e, m, r, narg - 1);
    } else {
      RoomFew(m, 0);
      RoomFew(m, 2);
      SpareIsPlain(t, RA_EXIST);
      OffsetsFit(b);
      Named(m);
      OpenCallLowers(t, m.live, b);
      var k := Int16(-8 * (2 + b));
      AddImmOne(t, m.live, r, t.fp, k);
      EmitsAppend(e.script, [Addiu(r, t.fp, k)], SubCode(t, 0, OpReg(r), OpReg(r), OpReg(t.sp)) + DivCode(t, 0, OpReg(r), OpReg(r), Imm(8), false));
      SeqThree([Addiu(r, t.fp, k)], SubCode(t, 0, OpReg(r), OpReg(r), OpReg(t.sp)), DivCode(t, 0, OpReg(r), OpReg(r), Imm(8), false));
      AddSmall(e, m, r, m.fp, k);
      EmitEighth(e, m, r, r);
    }
  }

  lemma SeqThree(a: seq<Instr>, b: seq<Instr>, c: seq<Instr>)
    ensures a + (b + c) == a + b + c
  {
  }

  method EmitReturnCount(e: Emitter, m: Machine, regs: seq<Reg>, b: nat, nret: nat)
    requires Clear0(e, m) && regs == m.t.spare[..RA_COUNT] && 8 * (2 + b) <= 0x8000 && nret < 0x1000
    modifies e.Repr, m, m.reg
    ensures Appended(e, m, ReturnCount(m.t, b, nret))
  {
    hide Emitter.Valid, Machine.Valid, Emits, HeadRoom, LoadImCode, AddCode, SubCode, DivCode, Passes, SubAccepts, DivAccepts;
    ghost var t := m.t;
    RoomSpare(t);
    var r, base := regs[RA_EXIST], regs[RA_SRC];
    RoomFew(m, 0);
    RoomFew(m, 2);
    SpareIsPlain(t, RA_EXIST);
    SpareIsPlain(t, RA_SRC);
    OffsetsFit(b);
    Named(m);
    OpenReturnLowers(t, m.live, b);
    var k := Int16(ValueOffset(b));
    AddImmOne(t, m.live, base, t.fp, k);
    ghost var sub, div := SubCode(t, 0, OpReg(r), OpReg(base), OpReg(t.sp)), DivCode(t, 0, OpReg(r), OpReg(r), Imm(8), false);
    EmitsAppend(e.script, [Addiu(base, t.fp, k)], sub + div);
    SeqThree([Addiu(base, t.fp, k)], sub, div);
    AddSmall(e, m, base, m.fp, k);
    if nret > 0 {
      EmitsAppend(old(e.script), [Addiu(base, t.fp, k)], LoadImCode(r, nret - 1));
      LoadIm(e, m, r, nret - 1);
    } else {
      EmitEighth(e, m, r, base);
    }
  }

  // ----- calls and returns -----

  /** The argument count and the address of the called register, then the call of the prologue. */
  function PrecallCode(t: Target, b: nat, narg: nat, call: seq<Instr>): seq<Instr>
    requires |t.spare| >= RA_SIZE && narg < 0x1000
  {
    CallCount(t, b, narg) + [Addiu(t.spare[RA_SRC], t.fp, Int16(ValueOffset(b)))] + call
  }

  method Precall(e: Emitter, m: Machine, b: nat, narg: nat, call: seq<Instr>)
    requires Clear0(e, m) && 8 * (2 + b) <= 0x8000 && narg < 0x1000
    modifies e.Repr, m, m.reg
    ensures Emitted(e, m, PrecallCode(m.t, b, narg, call))
  {
    hide Emitter.Valid, Machine.Valid, Emits, CallCount, HeadRoom;
    RoomSpare(m.t);
    OffsetsFit(b);
    Named(m);
    AppendThree(e.script, CallCount(m.t, b, narg), [Addiu(m.t.spare[RA_SRC], m.t.fp, Int16(ValueOffset(b)))], call);
    var regs := PreferNontempAcquireReg(e, m, RA_COUNT);
    RoomFew(m, 0);
    EmitCallCount(e, m, regs, b, narg);
    AddSmall(e, m, regs[RA_SRC], m.fp, Int16(ValueOffset(b)));
    EmitWords(e, m, call);
    PreferNontempReleaseReg(e, m, RA_COUNT);
  }

  /** A fixed number of results is expected by the copying call; the other routine expects all there are. */
  function PostcallCode(t: Target, nret: nat, call: seq<Instr>): seq<Instr>
    requires |t.spare| >= RA_SIZE && nret < 0x1000
  {
    (if nret > 0 then LoadImCode(t.spare[RA_EXPECT], nret - 1) else []) + call
  }

  method Postcall(e: Emitter, m: Machine, nret: nat, call: seq<Instr>)
    requires Clear0(e, m) && nret < 0x1000
    modifies e.Repr, m, m.reg
    ensures Emitted(e, m, PostcallCode(m.t, nret, call))
  {
    hide Emitter.Valid, Machine.Valid, Emits, LoadImCode, HeadRoom;
    RoomSpare(m.t);
    ghost var ws := if nret > 0 then LoadImCode(m.t.spare[RA_EXPECT], nret - 1) else [];
    EmitsAppend(e.script, ws, call);
    EmitsNothing(e.script);
    var regs := PreferNontempAcquireReg(e, m, RA_SIZE);
    if nret > 0 {
      LoadIm(e, m, regs[RA_EXPECT], nret - 1);
    }
    EmitWords(e, m, call);
    PreferNontempReleaseReg(e, m, RA_SIZE);
  }

  /** Values returned are stored first; then their base and count, and the jump to the epilogue. */
  function ReturnCode(t: Target, b: nat, nret: nat, epilogue: Word): seq<Instr>
    requires |t.spare| >= RA_SIZE && |t.temps| > 0 && nret < 0x1000 && epilogue >= 0
  {
    (if nret > 0 then Extra(t, true, false, b, b + (nret - 1)) else []) + ReturnCount(t, b, nret) + JumpCode(t, 0, Imm(epilogue))
  }

  method DoRet(e: Emitter, m: Machine, b: nat, nret: nat, epilogue: Word)
    requires Clear0(e, m) && 8 * (2 + b) <= 0x8000 && nret < 0x1000 && epilogue >= 0
    modifies e.Repr, m, m.reg
    ensures Ready(e, m) && fresh(e.Repr - old(e.Repr)) && e.jt == old(e.jt) && m.live == old(m.live) && !m.allowSpill
    ensures e.script == old(e.script) + Emits(ReturnCode(m.t, b, nret, epilogue))
  {
    hide Emitter.Valid, Machine.Valid, Emits, ReturnCount, HeadRoom, JumpCode, Extra;
    RoomSpare(m.t);
    ghost var ws := if nret > 0 then Extra(m.t, true, false, b, b + (nret - 1)) else [];
    AppendThree(e.script, ws, ReturnCount(m.t, b, nret), JumpCode(m.t, 0, Imm(epilogue)));
    EmitsNothing(e.script);
    if nret > 0 {
      var _ := EmitXFrame(e, m, true, false, b, nret - 1);
    }
    var regs := PreferNontempAcquireReg(e, m, RA_COUNT);
    RoomFew(m, 1);
    EmitReturnCount(e, m, regs, b, nret);
    MipsBAbs(e, m, Imm(epilogue));
  }

  // ----- copying -----

  /** syn_min on the two counts. */
  method SynMin(e: Emitter, m: Machine, regs: seq<Reg>)
    requires Clear0(e, m) && regs == m.t.spare[..RA_SIZE]
    modifies e.Repr, m, m.reg
    ensures Scripted(e, m, MinScript(m.t, m.live, Exist(m.t), Exist(m.t), Expect(m.t)))
  {
    hide Emitter.Valid, Machine.Valid, Emits, HeadRoom, MoveCode, IneqFork, ForkScript;
    ghost var t := m.t;
    RoomSpare(t);
    RoomFew(m, 2);
    var d, u: Operand := OpReg(regs[RA_EXIST]), OpReg(regs[RA_EXPECT]);
    ghost var fs, js := ForkScript(IneqFork(t, m.live, d, SubZero(u), LT), NEXT0), ForkScript(JUMP, NEXT1);
    MinJoin(e.script, fs, Emits(MoveCode(t, m.live, d, u)), js, Emits(MoveCode(t, m.live, d, d)));
    MipsBlt(e, m, d, u, NEXT0);
    Move(e, m, d, u);
    MipsB(e, m, NEXT1);
    LabelLocalAt(e, m, 0);
    Move(e, m, d, d);
    LabelLocalAt(e, m, 1);
  }

  lemma MinJoin(s: seq<Ev>, fs: seq<Ev>, a: seq<Ev>, js: seq<Ev>, b: seq<Ev>)
    ensures s + fs + a + js + [LabelLocal(0)] + b + [LabelLocal(1)] == s + (fs + (a + js) + [LabelLocal(0)] + b + [LabelLocal(1)])
  {
  }

  lemma WordsJoin(s: seq<Ev>, a: seq<Instr>, b: seq<Instr>, c: seq<Instr>, d: seq<Instr>, f: seq<Instr>)
    ensures s + Emits(a) + Emits(b) + Emits(c) + Emits(d) + Emits(f) == s + Emits(a + b + c + d + f)
  {
    AppendThree(s, a, b, c);
    AppendThree(s, a + b + c, d, f);
  }

  /** One value copied and the pointers and the count moved on. */
  method EmitCopyWords(e: Emitter, m: Machine, iter: Reg, dst: Reg, src: Reg)
    requires Ready(e, m) && HeadRoom(m.t, m.live, 1, m.allowSpill) && HeadRoom(m.t, m.live, 0, m.allowSpill)
    modifies e.Repr, m, m.reg
    ensures Appended(e, m, CopyWords(m.t, m.live, iter, dst, src))
  {
    hide Emitter.Valid, Machine.Valid, Emits, HeadRoom, MoveCode;
    ghost var a, b := MoveCode(m.t, m.live, DAddr(dst, 0), DAddr(src, 0)), MoveCode(m.t, m.live, DAddr(dst, -4), DAddr(src, -4));
    WordsJoin(e.script, a, b, [Addiu(dst, dst, -8)], [Addiu(src, src, -8)], [Addiu(iter, iter, 1)]);
    Move(e, m, DAddr(dst, 0), DAddr(src, 0));
    Move(e, m, DAddr(dst, -4), DAddr(src, -4));
    AddSmall(e, m, dst, dst, -8);
    AddSmall(e, m, src, src, -8);
    AddSmall(e, m, iter, iter, 1);
  }

  lemma LoopJoin(s: seq<Ev>, fs: seq<Ev>, ws: seq<Ev>, js: seq<Ev>)
    ensures s + [LabelLocal(0)] + fs + ws + js + [LabelLocal(0)] == s + ([LabelLocal(0)] + fs + ws + js + [LabelLocal(0)])
  {
  }

  /** do_copying: test, copy, back; the label number is used twice. */
  method DoCopying(e: Emitter, m: Machine, iter: Reg, limit: Reg, dst: Reg, src: Reg)
    requires Ready(e, m) && m.live == 1 && |m.t.temps| >= 3
    modifies e.Repr, m, m.reg
    ensures Scripted(e, m, LoopScript(m.t, 1, iter, limit, dst, src))
  {
    hide Emitter.Valid, Machine.Valid, Emits, HeadRoom, CopyWords, EquFork, ForkScript;
    ghost var t := m.t;
    RoomFew(m, 0);
    RoomFew(m, 1);
    RoomFew(m, 2);
    LoopJoin(e.script, ForkScript(EquFork(t, 1, OpReg(iter), OpReg(limit), true), NEXT0), Emits(CopyWords(t, 1, iter, dst, src)), ForkScript(JUMP, PREV0));
    LabelLocalAt(e, m, 0);
    MipsBeq(e, m, OpReg(iter), OpReg(limit), NEXT0);
    EmitCopyWords(e, m, iter, dst, src);
    MipsB(e, m, PREV0);
    LabelLocalAt(e, m, 0);
  }

  lemma CopyJoin(s: seq<Ev>, ms: seq<Ev>, a: seq<Instr>, b: seq<Instr>, ls: seq<Ev>)
    ensures s + ms + Emits(a) + Emits(b) + ls == s + (ms + Emits(a + b) + ls)
  {
    EmitsAppend(s + ms, a, b);
  }

  /** The copying part of jinit_cpy_arg_res, up to where padding with nil would start. */
  method JinitCpyArgRes(e: Emitter, m: Machine)
    requires Clear0(e, m)
    modifies e.Repr, m, m.reg
    ensures Ready(e, m) && fresh(e.Repr - old(e.Repr)) && e.jt == old(e.jt) && m.live == 1 && !m.allowSpill
    ensures e.script == old(e.script) + CopyScript(m.t)
  {
    hide Emitter.Valid, Machine.Valid, Emits, HeadRoom, MinScript, LoopScript, AcquireCode, MoveCode;
    ghost var t := m.t;
    RoomSpare(t);
    CopyJoin(e.script, MinScript(t, 0, Exist(t), Exist(t), Expect(t)), AcquireCode(t, 0), MoveCode(t, 1, Iter(t), Imm(0)),
             LoopScript(t, 1, Iter(t).reg, Exist(t).reg, t.spare[RA_DST], t.spare[RA_SRC]));
    var regs := PreferNontempAcquireReg(e, m, RA_SIZE);
    SynMin(e, m, regs);
    RoomFew(m, 1);
    var iter := m.AcquireTemp(e);
    Move(e, m, OpReg(iter), Imm(0));
    DoCopying(e, m, iter, regs[RA_EXIST], regs[RA_DST], regs[RA_SRC]);
  }

  // ----- results become arguments -----

  /** The return address put under sp while the copying call uses its register. */
  function KeepRa(t: Target, isRa: bool): seq<Instr> {
    if isRa then PushCode(t, [t.ra]) else []
  }

  function FetchRa(t: Target, isRa: bool): seq<Instr> {
    if isRa then PopCode(t, [t.ra]) else []
  }

  method EmitKeepRa(e: Emitter, m: Machine)
    requires Ready(e, m) && HeadRoom(m.t, m.live, 0, m.allowSpill)
    modifies e.Repr, m, m.reg
    ensures Appended(e, m, KeepRa(m.t, m.isRa))
  {
    hide Emitter.Valid, Machine.Valid, Emits, HeadRoom, PushCode;
    EmitsNothing(e.script);
    Named(m);
    if m.isRa {
      Pushn(e, m, [m.ra]);
    }
  }

  method EmitFetchRa(e: Emitter, m: Machine)
    requires Ready(e, m) && HeadRoom(m.t, m.live, 0, m.allowSpill)
    modifies e.Repr, m, m.reg
    ensures Appended(e, m, FetchRa(m.t, m.isRa))
  {
    hide Emitter.Valid, Machine.Valid, Emits, HeadRoom, PopCode;
    EmitsNothing(e.script);
    Named(m);
    if m.isRa {
      Popn(e, m, [m.ra]);
    }
  }

  /** All results there are expected; they are copied; sp ends under the last one. */
  function VresultWords(t: Target, isRa: bool, copy: seq<Instr>): seq<Instr>
    requires |t.spare| >= RA_SIZE
  {
    LoadRegCode(Exist(t), t.spare[RA_EXPECT], true) + KeepRa(t, isRa) + copy + FetchRa(t, isRa) + VresultCode(t)
  }

  method EmitVresult(e: Emitter, m: Machine, regs: seq<Reg>, copy: seq<Instr>)
    requires Clear0(e, m) && regs == m.t.spare[..RA_SIZE]
    modifies e.Repr, m, m.reg
    ensures Appended(e, m, VresultWords(m.t, m.isRa, copy))
  {
    hide Emitter.Valid, Machine.Valid, Emits, HeadRoom, AddCode, AddNeeds, AddAccepts, KeepRa, FetchRa, VresultCode, LoadRegCode;
    ghost var t := m.t;
    RoomSpare(t);
    RoomFew(m, 0);
    Named(m);
    VresultLowers(t, m.live);
    WordsJoin(e.script, LoadRegCode(Exist(t), t.spare[RA_EXPECT], true), KeepRa(t, m.isRa), copy, FetchRa(t, m.isRa), VresultCode(t));
    Move(e, m, OpReg(regs[RA_EXPECT]), OpReg(regs[RA_EXIST]));
    EmitKeepRa(e, m);
    EmitWords(e, m, copy);
    EmitFetchRa(e, m);
    MipsAdd(e, m, OpReg(m.sp), OpReg(regs[RA_DST]), Imm(0));
  }

  /** jinit_vresult_postcall: take every result, remember the return address, copy, set sp, return. */
  method JinitVresultPostcall(e: Emitter, m: Machine, copy: seq<Instr>)
    requires Clear0(e, m)
    modifies e.Repr, m, m.reg
    ensures Emitted(e, m, VresultWords(m.t, m.isRa, copy) + RET_CODE)
  {
    hide Emitter.Valid, Machine.Valid, Emits, VresultWords;
    RoomSpare(m.t);
    EmitsAppend(e.script, VresultWords(m.t, m.isRa, copy), RET_CODE);
    var regs := PreferNontempAcquireReg(e, m, RA_SIZE);
    EmitVresult(e, m, regs, copy);
    PreferNontempReleaseReg(e, m, RA_SIZE);
    MipsRet(e, m);
  }
}

/**
 What closure_close is called with. The epilogue passes the frame's closure from its stack slot,
 which arrives. JMP puts the address of register A + 1 in a temporary and passes that; when the
 temporary is the first argument register, the argument resolver takes the argument for a stack
 reference, and closure_close gets another word.
 */
module Closing {
  import opened Words
  import opened Wrappers
  import opened Mips
  import opened Script
  import opened Emitter32
  import opened Target
  import opened Moves
  import opened ArithCode
  import opened ArithOps
  import opened Machines
  import opened Arithmetic
  import opened BranchCode
  import opened Branch
  import opened ArgMoves
  import opened ParallelMoves
  import opened ArgAssign
  import opened Marshal
  import opened Ccall
  import opened CcallRun
  import opened Synthetic
  import opened Saves
  import opened Upvalues
  import Frame
  import Calls

  // ----- one register argument -----

  lemma OneRow(o: Operand, i: nat)
    requires i < ARGS_BY_REG
    ensures Source(DependencyGraph([o]), i) == if i == 0 && FromArgReg(o) then o.reg - A0 + 1 else 0
  {
    GraphSource([o], i);
  }

  lemma RankDrops(g: Graph, rk: seq<nat>, i: nat)
    requires Square(g) && RankedBy(g, rk) && i < |g| && Source(g, i) != 0
    ensures rk[i] < rk[Source(g, i) - 1]
  {
  }

  /** A single argument depends on nothing but itself: the graph has a cycle only when it is in place already. */
  lemma OneArgAcyclicIff(o: Operand)
    ensures Acyclic(DependencyGraph([o])) <==> o != OpReg(ArgReg(0))
  {
    hide DependencyGraph, Source;
    var g := DependencyGraph([o]);
    OneRow(o, 0);
    OneRow(o, 1);
    OneRow(o, 2);
    OneRow(o, 3);
    if o != OpReg(ArgReg(0)) {
      assert RankedBy(g, [0, 1, 1, 1]);
    } else if Acyclic(g) {
      var rk :| RankedBy(g, rk);
      RankDrops(g, rk, 0);
      assert false;
    }
  }

  function SelfEdge(): (g: Graph)
    ensures |g| == ARGS_BY_REG && SingleSource(g)
  {
    DependencyGraph([OpReg(ArgReg(0))])
  }

  const ONE_EDGE: Graph := [[1, 0, 0, 0], [0, 0, 0, 0], [0, 0, 0, 0], [0, 0, 0, 0]]
  const NO_EDGE: Graph := [[0, 0, 0, 0], [0, 0, 0, 0], [0, 0, 0, 0], [0, 0, 0, 0]]

  lemma SelfRow()
    ensures SelfEdge() == ONE_EDGE
  {
    var g := SelfEdge();
    assert g[0] == [1, 0, 0, 0];
    assert g[1] == g[2] == g[3] == [0, 0, 0, 0];
  }

  lemma FirstRow()
    ensures Square(ONE_EDGE) && Source(ONE_EDGE, 0) == 1 && ZeroCol(ONE_EDGE, 0)
    ensures ArgMoves.Clear(ONE_EDGE, 0, 0) == NO_EDGE && RowMoves(ONE_EDGE, 0) == [FromStack(0, 1)]
  {
    var g := ONE_EDGE;
    assert g[0] == [1, 0, 0, 0];
    assert g[0][0 := 0] == [0, 0, 0, 0];
  }

  lemma NoRow(i: nat)
    requires i < 4
    ensures Square(NO_EDGE) && Source(NO_EDGE, i) == 0 && RowMoves(NO_EDGE, i) == []
  {
    var g := NO_EDGE;
    assert g[i] == [0, 0, 0, 0];
  }

  lemma SelfScan()
    ensures Square(ONE_EDGE) && ScanTo(ONE_EDGE, 4).moves == [FromStack(0, 1)] && ScanTo(ONE_EDGE, 4).unresolved == 0
  {
    hide Source, ZeroCol, ScanTo, RowMoves, ArgMoves.Clear;
    FirstRow();
    NoRow(1);
    NoRow(2);
    NoRow(3);
    ScanStarts(ONE_EDGE);
    ScanVisits(ONE_EDGE, 0);
    ScanVisits(ONE_EDGE, 1);
    ScanVisits(ONE_EDGE, 2);
    ScanVisits(ONE_EDGE, 3);
  }

  /**
   The input that fails: one argument that is in its register already. The graph is a cycle of
   one, and the only move loads the argument from one byte above sp.
   */
  lemma SelfEdgeLost()
    ensures !Acyclic(SelfEdge()) && Rounds(SelfEdge(), -4) == [FromStack(0, 1)] && !AlwaysParallel(SelfEdge(), -4)
  {
    hide SelfEdge, ScanTo, Acyclic, DependencyGraph, AlwaysParallel;
    SelfIs();
    SelfRow();
    OneArgAcyclicIff(OpReg(ArgReg(0)));
    SelfScan();
    AssignRightIff(SelfEdge());
  }

  /** So the argument ends up as the word there, whatever it was. */
  lemma SelfEdgeReads(r: seq<Word>, stack: int -> Word)
    requires |r| == ARGS_BY_REG
    ensures RunMoves(Rounds(SelfEdge(), -4), r, stack) == r[0 := stack(1)] && Parallel(SelfEdge(), r) == r
  {
    hide SelfEdge, Rounds, DependencyGraph, Acyclic, AlwaysParallel, Parallel;
    SelfEdgeLost();
    SelfParallel(r);
    OneMove(FromStack(0, 1), r, stack);
  }

  lemma SelfParallel(r: seq<Word>)
    requires |r| == ARGS_BY_REG
    ensures Parallel(SelfEdge(), r) == r
  {
    hide SelfEdge, DependencyGraph, Source;
    SelfIs();
    OneRow(OpReg(ArgReg(0)), 0);
    OneRow(OpReg(ArgReg(0)), 1);
    OneRow(OpReg(ArgReg(0)), 2);
    OneRow(OpReg(ArgReg(0)), 3);
  }

  lemma SelfIs()
    ensures SelfEdge() == DependencyGraph([OpReg(ArgReg(0))])
  {
  }

  // ----- what is emitted -----

  /** Offset of the tagged value of register v from fp. */
  function TagOffset(v: nat): int {
    Frame.HomeOffset(2 * v + 1)
  }

  /** address_of the stack home of register A + 1. */
  function AddressCode(t: Target, T: nat, a: nat): seq<Instr>
    requires |t.temps| > 0
  {
    AddCode(t, T + 1, OpReg(TempAt(t, T)), OpReg(t.fp), Imm(Int16(TagOffset(a + 1))))
  }

  /** Up to the call of closure_close, with the caller-saved registers of n locals saved. */
  function JumpCloseCode(t: Target, T: nat, a: nat, n: nat): seq<Instr>
    requires |t.temps| > 0
  {
    AcquireCode(t, T) + AddressCode(t, T, a) + XFrame(t, true, true, n) + MarshalCode(t, T + 1, [OpReg(TempAt(t, T))])
  }

  /** emit_jmp: close if asked to, and branch. */
  function JumpScript(t: Target, T: nat, a: nat, o: Outside, line: nat): seq<Ev>
    requires |t.temps| > 0
  {
    (if a > 0 then Emits(AcquireCode(t, T) + AddressCode(t, T, a) + CcallCode(t, T + 1, [OpReg(TempAt(t, T))], o) + ReleaseCode(t, T + 1)) else [])
    + ForkScript(JUMP, ToLine(line))
  }

  lemma AddressOne(t: Target, T: nat, a: nat)
    requires |t.temps| > 0 && -TagOffset(a + 1) <= 0x8000
    ensures var k := Int16(TagOffset(a + 1)); var r := TempAt(t, T);
            && k == TagOffset(a + 1) && k != 0 && AddAccepts(OpReg(t.fp), Imm(k)) && AddNeeds(t, T + 1, OpReg(r), OpReg(t.fp), Imm(k)) == 0
            && AddressCode(t, T, a) == [Addiu(r, t.fp, k)]
  {
    hide TempAt;
    HalfFits(TagOffset(a + 1));
    AddImmOne(t, T + 1, TempAt(t, T), t.fp, Int16(TagOffset(a + 1)));
  }

  method EmitJmp(e: Emitter, m: Machine, a: nat, line: nat, o: Outside)
    requires Ready(e, m) && |m.t.temps| == ARGS_BY_REG && m.live < ARGS_BY_REG && m.allowSpill && -TagOffset(a + 1) <= 0x8000
    modifies e.Repr, m, m.reg
    ensures Scripted(e, m, JumpScript(m.t, old(m.live), a, o, line))
  {
    hide Emitter.Valid, Machine.Valid, Emits, AcquireCode, ReleaseCode, AddCode, AddNeeds, AddAccepts, CcallCode, ForkScript, HeadRoom;
    ghost var t, T, s0 := m.t, m.live, e.script;
    if a > 0 {
      AddressOne(t, T, a);
      RoomInCall(m, T);
      RoomInCall(m, T + 1);
      var r := m.AcquireTemp(e);
      JumpNames(m);
      MipsAdd(e, m, OpReg(r), OpReg(m.fp), Imm(Int16(TagOffset(a + 1))));
      MipsStaticCcall(e, m, [OpReg(r)], o, None);
      ghost var call := CcallCode(t, T + 1, [OpReg(r)], o);
      JoinFour(s0, AcquireCode(t, T), AddressCode(t, T, a), call, ReleaseCode(t, T + 1));
      assert call + [] == call;
      var _ := m.ReleaseTemp(e);
    }
    MipsB(e, m, ToLine(line));
    JoinLast(s0, if a > 0 then Emits(AcquireCode(t, T) + AddressCode(t, T, a) + CcallCode(t, T + 1, [OpReg(TempAt(t, T))], o) + ReleaseCode(t, T + 1)) else [], ForkScript(JUMP, ToLine(line)));
  }

  lemma JumpNames(m: Machine)
    requires m.Valid()
    ensures m.fp == m.t.fp
  {
  }

  lemma JoinFour(s: seq<Ev>, a: seq<Instr>, b: seq<Instr>, c: seq<Instr>, d: seq<Instr>)
    ensures s + Emits(a) + Emits(b) + Emits(c) + Emits(d) == s + Emits(a + b + c + d)
  {
    EmitsAppend(s, a, b);
    EmitsAppend(s, a + b, c);
    EmitsAppend(s, a + b + c, d);
  }

  lemma JoinLast(s: seq<Ev>, a: seq<Ev>, b: seq<Ev>)
    ensures s + a + b == s + (a + b)
    ensures s + [] == s
  {
  }

  // ----- what closure_close gets -----

  /** A frame with its locals above sp, and a temporary to spare. */
  ghost predicate JumpOk(t: Target, T: nat, a: nat, n: nat, x: Data) {
    && t.Valid() && |t.temps| == ARGS_BY_REG && T < ARGS_BY_REG
    && !IsArgReg(t.sp, ARGS_BY_REG) && !IsArgReg(t.fp, ARGS_BY_REG)
    && HomesOk(t, x) && -TagOffset(a + 1) <= 0x8000 && R(x, t.fp) + TagOffset(a + 1) >= -0x8000_0000
    && R(x, t.sp) <= R(x, t.fp) - 4 - 8 * n && R(x, t.sp) - 16 >= -0x8000_0000 + 0x8000
  }

  /** Before the marshalling: the address is in the temporary, and nothing under the homes has changed. */
  ghost predicate AddressReady(t: Target, T: nat, a: nat, x: Data, y: Data)
    requires |t.temps| > 0
  {
    && R(y, TempAt(t, T)) == R(x, t.fp) + TagOffset(a + 1)
    && (forall q: Reg :: q != TempAt(t, T) ==> R(y, q) == R(x, q))
    && (forall b :: b < R(x, t.sp) ==> Ld(y, b) == Ld(x, b))
  }

  lemma HomesUp(t: Target, n: nat, x: Data, b: int)
    requires R(x, t.sp) <= R(x, t.fp) - 4 - 8 * n && b < R(x, t.sp)
    ensures !IsHome(t, true, n, x, b)
  {
  }

  lemma AddressMade(t: Target, T: nat, a: nat, n: nat, x: Data)
    requires JumpOk(t, T, a, n, x)
    ensures AddressReady(t, T, a, x, ExecSeq(AcquireCode(t, T) + AddressCode(t, T, a) + XFrame(t, true, true, n), x))
  {
    hide ExecSeq, XFrame, AddressCode, Picked, TempAt, IsHome;
    var r, k := TempAt(t, T), TagOffset(a + 1);
    AddressOne(t, T, a);
    TempOrdinary(t, T);
    NormWord(R(x, t.fp) + k);
    assert AcquireCode(t, T) == [];
    assert [] + AddressCode(t, T, a) == AddressCode(t, T, a);
    ExecOne(Addiu(r, t.fp, k), x);
    var x1 := ExecSeq(AddressCode(t, T, a), x);
    ExecConcat(AddressCode(t, T, a), XFrame(t, true, true, n), x);
    SaveStores(t, true, n, x1);
    forall b | b < R(x, t.sp)
      ensures Ld(ExecSeq(XFrame(t, true, true, n), x1), b) == Ld(x, b)
    {
      HomesUp(t, n, x1, b);
    }
    hide Norm;
  }

  lemma CallReady(t: Target, T: nat, a: nat, n: nat, x: Data, y: Data)
    requires JumpOk(t, T, a, n, x) && AddressReady(t, T, a, x, y)
    ensures CallOk(t, T + 1, [OpReg(TempAt(t, T))], y) && R(y, t.sp) == R(x, t.sp)
  {
    hide TempAt;
    TempOrdinary(t, T);
  }

  /** From any other register the address arrives. */
  lemma AddressArrives(t: Target, T: nat, a: nat, n: nat, x: Data)
    requires JumpOk(t, T, a, n, x) && TempAt(t, T) != ArgReg(0)
    ensures R(ExecSeq(JumpCloseCode(t, T, a, n), x), A0) == R(x, t.fp) + TagOffset(a + 1)
  {
    hide ExecSeq, XFrame, AcquireCode, AddressCode, MarshalCode, TempAt, Acyclic, HomesOk;
    var pre := AcquireCode(t, T) + AddressCode(t, T, a) + XFrame(t, true, true, n);
    var args := [OpReg(TempAt(t, T))];
    AddressMade(t, T, a, n, x);
    var y := ExecSeq(pre, x);
    CallReady(t, T, a, n, x, y);
    OneArgAcyclicIff(args[0]);
    MarshalPlaces(t, T + 1, args, y);
    ExecConcat(pre, MarshalCode(t, T + 1, args), x);
    assert R(ExecSeq(MarshalCode(t, T + 1, args), y), ArgReg(0)) == Val(y, args[0]);
  }

  // ----- from the call on -----

  /**
   What emit_jmp emits for A > 0 in a frame of n locals is the code up to the call, the call, and
   words that give back sp, fp and every local after any callee that keeps them; then the branch.
   */
  lemma JumpResumes(t: Target, T: nat, a: nat, n: nat, call: seq<Instr>, line: nat, x: Data) returns (after: seq<Instr>)
    requires a > 0 && JumpOk(t, T, a, n, x) && t.sp != V0 && t.fp != V0
    ensures JumpScript(t, T, a, Around(t, n, call), line) == Emits(JumpCloseCode(t, T, a, n) + call + after) + ForkScript(JUMP, ToLine(line))
    ensures var x1 := ExecSeq(AcquireCode(t, T) + AddressCode(t, T, a), x); var y := ExecSeq(JumpCloseCode(t, T, a, n), x);
            && R(x1, t.sp) == R(x, t.sp) && R(x1, t.fp) == R(x, t.fp)
            && forall z :: CalleeKeeps(t, R(x, t.sp), y, z) ==> LocalsBack(t, n, None, x1, z, ExecSeq(after, z))
  {
    hide ExecSeq, XFrame, AddressCode, MarshalCode, CcallCode, TempAt, Placed, DependencyGraph, Acyclic, FrameAbove, LocalsBack, HomesOk, Plain, CallOk;
    var args, o := [OpReg(TempAt(t, T))], Around(t, n, call);
    var pre := AcquireCode(t, T) + AddressCode(t, T, a);
    var x1 := ExecSeq(pre, x);
    AddressStart(t, T, a, n, x);
    var before;
    before, after := CcallTransparent(t, T + 1, n, args, call, None, x1);
    var code := CcallCode(t, T + 1, args, o);
    assert code + [] == code == before + call + after;
    assert AcquireCode(t, T) + AddressCode(t, T, a) + code + [] == pre + before + call + after;
    assert pre + XFrame(t, true, true, n) + MarshalCode(t, T + 1, args) == pre + before;
    ExecConcat(pre, before, x);
    forall z | CalleeKeeps(t, R(x, t.sp), ExecSeq(JumpCloseCode(t, T, a, n), x), z)
      ensures LocalsBack(t, n, None, x1, z, ExecSeq(after, z))
    {
    }
  }

  lemma AddressStart(t: Target, T: nat, a: nat, n: nat, x: Data)
    requires JumpOk(t, T, a, n, x) && t.sp != V0 && t.fp != V0
    ensures var x1 := ExecSeq(AcquireCode(t, T) + AddressCode(t, T, a), x);
            && FrameAbove(t, n, x1) && CallOk(t, ARGS_BY_REG, [OpReg(TempAt(t, T))], x1)
            && R(x1, t.sp) == R(x, t.sp) && R(x1, t.fp) == R(x, t.fp)
    ensures CallTemps(T + 1, [OpReg(TempAt(t, T))]) == T + 1 && ReleaseCode(t, T + 1) == []
  {
    hide ExecSeq, AddressCode, TempAt, CallOk;
    var pre := AcquireCode(t, T) + AddressCode(t, T, a);
    NoLocals(t, true, true);
    assert pre + XFrame(t, true, true, 0) == pre;
    AddressMade(t, T, a, 0, x);
    var x1 := ExecSeq(pre, x);
    CallReady(t, T, a, 0, x, x1);
    EnoughTemps(t, T + 1, ARGS_BY_REG, [OpReg(TempAt(t, T))], x1);
    TempOrdinary(t, T);
  }

  lemma SelfMoves(t: Target, x: Data)
    requires |t.temps| > 0 && !IsArgReg(t.sp, ARGS_BY_REG) && R(x, t.sp) + 1 < 0x8000_0000
    ensures InRegs([FromStack(0, 1)], ARGS_BY_REG)
    ensures R(ExecSeq(ArgCode(t, [FromStack(0, 1)], ARGS_BY_REG), x), A0) == Ld(x, R(x, t.sp) + 1)
  {
    hide ExecSeq, ArgCode;
    var ms := [FromStack(0, 1)];
    ArgCodeRuns(t, ms, ARGS_BY_REG, x);
    assert ms[..0] == [];
    assert ArgRegs(ExecSeq(ArgCode(t, ms, ARGS_BY_REG), x), ARGS_BY_REG)[0] == StackAt(t, x)(1);
    HalfFits(1);
    NormWord(R(x, t.sp) + 1);
  }

  lemma SelfCode(t: Target, T: nat)
    requires |t.temps| > 0
    ensures var args := [OpReg(ArgReg(0))];
            && InRegs([FromStack(0, 1)], ARGS_BY_REG)
            && MarshalCode(t, T, args) == SubCode(t, T, OpReg(t.sp), OpReg(t.sp), Imm(SmallArgs(args))) + ArgCode(t, [FromStack(0, 1)], ARGS_BY_REG)
  {
    hide SubCode, DependencyGraph, Rounds, ArgCode;
    var args := [OpReg(ArgReg(0))];
    SelfIs();
    SelfEdgeLost();
    RoundsInRange(args);
    assert StackArgs(t, T, args, 1) == [];
    assert LoadArgs(t, T, args, 0) == [];
    assert LoadArgs(t, T, args, 1) == [];
  }

  lemma SelfMarshal(t: Target, T: nat, x: Data)
    requires CallOk(t, T, [OpReg(ArgReg(0))], x)
    ensures R(ExecSeq(MarshalCode(t, T, [OpReg(ArgReg(0))]), x), A0) == Ld(x, R(x, t.sp) - 15)
  {
    hide ExecSeq, SubCode, ArgCode, MarshalCode, EffAddr;
    var args := [OpReg(ArgReg(0))];
    var sub := SubCode(t, T, OpReg(t.sp), OpReg(t.sp), Imm(SmallArgs(args)));
    SelfCode(t, T);
    ExecConcat(sub, ArgCode(t, [FromStack(0, 1)], ARGS_BY_REG), x);
    SpMoved(t, T, args, x);
    SelfMoves(t, ExecSeq(sub, x));
  }

  /** From the first argument register it does not: closure_close gets a word from under the stack. */
  lemma AddressLost(t: Target, T: nat, a: nat, n: nat, x: Data)
    requires JumpOk(t, T, a, n, x) && TempAt(t, T) == ArgReg(0)
    ensures R(ExecSeq(JumpCloseCode(t, T, a, n), x), A0) == Ld(x, R(x, t.sp) - 15)
  {
    hide ExecSeq, XFrame, AcquireCode, AddressCode, MarshalCode, TempAt, HomesOk;
    var pre := AcquireCode(t, T) + AddressCode(t, T, a) + XFrame(t, true, true, n);
    var args := [OpReg(TempAt(t, T))];
    AddressMade(t, T, a, n, x);
    var y := ExecSeq(pre, x);
    CallReady(t, T, a, n, x, y);
    SelfMarshal(t, T + 1, y);
    ExecConcat(pre, MarshalCode(t, T + 1, args), x);
  }

  /** On MIPS that is the register: the first temporary, free when an instruction starts, is a0. */
  lemma FirstTempIsArgument(t: Target)
    requires t.temps == Frame.MIPS_TEMPS
    ensures TempAt(t, 0) == ArgReg(0)
  {
  }

  // ----- closing on return -----

  /** The epilogue passes the word under the saved fp: closure_close gets just that. */
  lemma ClosureArrives(t: Target, T: nat, x: Data)
    requires CallOk(t, T, [DAddr(t.fp, -4)], x) && R(x, t.fp) - 4 >= -0x8000_0000
    ensures R(ExecSeq(MarshalCode(t, T, [DAddr(t.fp, -4)]), x), A0) == Ld(x, R(x, t.fp) - 4)
  {
    hide ExecSeq, MarshalCode, DependencyGraph, Acyclic;
    var args := [DAddr(t.fp, -4)];
    OneArgAcyclicIff(args[0]);
    MarshalPlaces(t, T, args, x);
    NormWord(R(x, t.fp) - 4);
    assert R(ExecSeq(MarshalCode(t, T, args), x), ArgReg(0)) == Val(x, args[0]);
  }

  /**
   So a return closes from the called closure's slot, whatever the body did.
   */
  lemma ReturnClosesFromCallee(t: Target, isRa: bool, cs: Calls.Callers, link: Word, closure: Word, nrLocals: nat, b: Calls.Body, T: nat, x: Data)
    requires Calls.Passes(t) && Calls.CallFits(t, isRa, cs.bottom, link, closure, nrLocals, x) && Calls.Nested(cs, isRa, R(x, t.sp))
    requires Calls.Runnable(t, isRa, cs, nrLocals, b, ExecSeq(Calls.EnterCode(t, isRa, nrLocals), Calls.Passed(t, link, closure, x)))
    requires var z := Calls.Run(t, isRa, b, ExecSeq(Calls.EnterCode(t, isRa, nrLocals), Calls.Passed(t, link, closure, x)));
             CallOk(t, T, [DAddr(t.fp, -4)], z) && R(z, t.fp) - 4 >= -0x8000_0000
    ensures var z := Calls.Run(t, isRa, b, ExecSeq(Calls.EnterCode(t, isRa, nrLocals), Calls.Passed(t, link, closure, x)));
            R(ExecSeq(MarshalCode(t, T, [DAddr(t.fp, -4)]), z), A0) == closure
  {
    hide ExecSeq, MarshalCode, CallOk, Calls.Run, Calls.Runnable, Calls.EnterCode, Calls.Passed, Calls.CallFits, Calls.Nested;
    Calls.ClosesFromCallee(t, isRa, cs, link, closure, nrLocals, b, x);
    ClosureArrives(t, T, Calls.Run(t, isRa, b, ExecSeq(Calls.EnterCode(t, isRa, nrLocals), Calls.Passed(t, link, closure, x))));
  }

  // ----- what is closed -----

  /** Whatever is in memory, the jump closes exactly what Lua closes, from register A - 1. */
  ghost predicate AlwaysCloses<U, V>(t: Target, T: nat, a: nat, n: nat, w: World<U, V>, x: Data)
    requires |t.temps| > 0 && Wf(w) && a > 0
  {
    forall mem: map<int, Word> ::
      ClosesExactly(w, R(ExecSeq(JumpCloseCode(t, T, a, n), Remember(x, mem)), A0), TvalueOffset(R(x, t.fp) - 12, a - 1))
  }

  /** Open upvalues are at addresses of the machine, none at the very lowest. */
  predicate InMemory<U, V>(w: World<U, V>) {
    forall i :: 0 <= i < |w.open| ==> -0x8000_0000 < AddrAt(w, i) < 0x8000_0000
  }

  /** Closing from everywhere is never right while anything is open. */
  lemma NotFromAnywhere<U, V>(w: World<U, V>, c: int)
    requires Wf(w) && w.open != [] && InMemory(w)
    ensures !(ClosesExactly(w, -0x8000_0000, c) && ClosesExactly(w, 0x7fff_ffff, c))
  {
    hide Wf, InMemory, ClosesExactly, Leading, AddrAt, IsOpen;
    OpenAfter(w, -0x8000_0000, 0);
    OpenAfter(w, 0x7fff_ffff, 0);
    HeadLeads(w);
    if ClosesExactly(w, -0x8000_0000, c) && ClosesExactly(w, 0x7fff_ffff, c) {
      HeadDecides(w, -0x8000_0000, c);
      HeadDecides(w, 0x7fff_ffff, c);
      assert false;
    }
  }

  lemma HeadLeads<U, V>(w: World<U, V>)
    requires w.open != [] && InMemory(w)
    ensures Leading(w, -0x8000_0000, 0) == 0 && Leading(w, 0x7fff_ffff, 0) >= 1
  {
  }

  lemma HeadDecides<U, V>(w: World<U, V>, b: int, c: int)
    requires Wf(w) && w.open != [] && ClosesExactly(w, b, c)
    ensures w.open[0] in w.ups && IsOpen(w, w.open[0])
    ensures IsOpen(Close(w, b), w.open[0]) <==> w.ups[w.open[0]].at.addr > c
  {
    hide Close, IsOpen;
    OpenAfter(w, b, 0);
  }

  lemma NoneOpen<U, V>(w: World<U, V>, b: int, c: int)
    requires Wf(w) && w.open == []
    ensures ClosesExactly(w, b, c)
  {
    hide ClosesExactly;
    ClosesExactlyIff(w, if b < c then b else c, c);
    NothingLeads(w, b, if b < c then b else c);
    assert Close(w, b) == Close(w, if b < c then b else c);
    SameClosing(w, b, if b < c then b else c, c);
  }

  lemma NothingLeads<U, V>(w: World<U, V>, b: int, b': int)
    requires w.open == []
    ensures Leading(w, b, 0) == Leading(w, b', 0) == 0
  {
  }

  lemma SameClosing<U, V>(w: World<U, V>, b: int, b': int, c: int)
    requires Wf(w) && Close(w, b) == Close(w, b') && ClosesExactly(w, b', c)
    ensures ClosesExactly(w, b, c)
  {
  }

  lemma SameJump(t: Target, T: nat, a: nat, n: nat, x: Data, mem: map<int, Word>)
    requires JumpOk(t, T, a, n, x)
    ensures JumpOk(t, T, a, n, Remember(x, mem))
    ensures R(Remember(x, mem), t.fp) == R(x, t.fp) && R(Remember(x, mem), t.sp) == R(x, t.sp)
  {
  }

  /** The word under the stack can be any word. */
  lemma WordUnder(x: Data, b: int, v: Word) returns (mem: map<int, Word>)
    ensures Ld(Remember(x, mem), b) == v
  {
    mem := St(x, b, v).mem;
    assert Remember(x, mem) == St(x, b, v);
  }

  /**
   JMP with A > 0, as emitted, closes exactly Lua's variables whatever memory holds if and only
   if: with the address in the first argument register, nothing is open at all; in any other,
   the list is split at register A + 1 and neither A - 1 nor A is captured.
   */
  lemma JumpClosesIff<U, V>(t: Target, T: nat, a: nat, n: nat, w: World<U, V>, x: Data)
    requires JumpOk(t, T, a, n, x) && a > 0 && Wf(w) && InMemory(w) && Aligned(w, R(x, t.fp) - 12)
    ensures var base := R(x, t.fp) - 12;
            AlwaysCloses(t, T, a, n, w, x) <==>
            if TempAt(t, T) == ArgReg(0) then w.open == []
            else Splits(w, TvalueOffset(base, a + 1))
                 && FindFrom(w, TvalueOffset(base, a - 1), 0).None? && FindFrom(w, TvalueOffset(base, a), 0).None?
  {
    if TempAt(t, T) == ArgReg(0) {
      LostClosesIff(t, T, a, n, w, x);
    } else {
      ArrivedClosesIff(t, T, a, n, w, x);
    }
  }

  lemma LostClosesIff<U, V>(t: Target, T: nat, a: nat, n: nat, w: World<U, V>, x: Data)
    requires JumpOk(t, T, a, n, x) && a > 0 && Wf(w) && InMemory(w) && TempAt(t, T) == ArgReg(0)
    ensures AlwaysCloses(t, T, a, n, w, x) <==> w.open == []
  {
    hide ExecSeq, JumpCloseCode, JumpOk, Wf, InMemory, ClosesExactly, TempAt, Remember, Ld;
    JumpShape(t, T, a, n, x);
    var b, c := R(x, t.sp) - 15, TvalueOffset(R(x, t.fp) - 12, a - 1);
    if w.open == [] {
      forall mem: map<int, Word>
        ensures ClosesExactly(w, R(ExecSeq(JumpCloseCode(t, T, a, n), Remember(x, mem)), A0), c)
      {
        NoneOpen(w, R(ExecSeq(JumpCloseCode(t, T, a, n), Remember(x, mem)), A0), c);
      }
    } else {
      var low := WordUnder(x, b, -0x8000_0000);
      var high := WordUnder(x, b, 0x7fff_ffff);
      SameJump(t, T, a, n, x, low);
      SameJump(t, T, a, n, x, high);
      AddressLost(t, T, a, n, Remember(x, low));
      AddressLost(t, T, a, n, Remember(x, high));
      NotFromAnywhere(w, c);
    }
  }

  lemma JumpShape(t: Target, T: nat, a: nat, n: nat, x: Data)
    requires JumpOk(t, T, a, n, x)
    ensures |t.temps| == ARGS_BY_REG
  {
  }

  lemma ArrivedClosesIff<U, V>(t: Target, T: nat, a: nat, n: nat, w: World<U, V>, x: Data)
    requires JumpOk(t, T, a, n, x) && a > 0 && Wf(w) && Aligned(w, R(x, t.fp) - 12) && TempAt(t, T) != ArgReg(0)
    ensures var base := R(x, t.fp) - 12;
            AlwaysCloses(t, T, a, n, w, x) <==>
            Splits(w, TvalueOffset(base, a + 1))
            && FindFrom(w, TvalueOffset(base, a - 1), 0).None? && FindFrom(w, TvalueOffset(base, a), 0).None?
  {
    hide ExecSeq, JumpCloseCode, JumpOk, Wf, ClosesExactly, TempAt, Remember, Splits, FindFrom, Aligned;
    JumpShape(t, T, a, n, x);
    var base: int := R(x, t.fp) - 12;
    CloseFromNextIff(w, base, a);
    forall mem: map<int, Word>
      ensures R(ExecSeq(JumpCloseCode(t, T, a, n), Remember(x, mem)), A0) == TvalueOffset(base, a + 1)
    {
      SameJump(t, T, a, n, x, mem);
      AddressArrives(t, T, a, n, Remember(x, mem));
    }
    var here: map<int, Word> := x.mem;
    assert R(ExecSeq(JumpCloseCode(t, T, a, n), Remember(x, here)), A0) == TvalueOffset(base, a + 1);
  }

  /**
   An input that fails: only register 3 captured, and a jump with A = 1. The list is split and
   neither register 0 nor register 1 is captured, and yet the jump need not close register 3.
   */
  lemma JumpMissesRegisterThree(t: Target, T: nat, n: nat, x: Data)
    requires JumpOk(t, T, 1, n, x) && TempAt(t, T) == ArgReg(0)
    ensures var base: int := R(x, t.fp) - 12; var b := TvalueOffset(base, 3);
            var w: World<nat, Word> := World([0], map[0 := Up(Stack(b), 0)], map[b := 0]);
            && Wf(w) && InMemory(w) && Aligned(w, base) && Splits(w, TvalueOffset(base, 2))
            && FindFrom(w, TvalueOffset(base, 0), 0).None? && FindFrom(w, TvalueOffset(base, 1), 0).None?
            && !AlwaysCloses(t, T, 1, n, w, x)
  {
    hide AlwaysCloses, TempAt;
    var base: int := R(x, t.fp) - 12;
    var b := TvalueOffset(base, 3);
    var w: World<nat, Word> := World([0], map[0 := Up(Stack(b), 0)], map[b := 0]);
    assert AddrAt(w, 0) == b;
    LostClosesIff(t, T, 1, n, w, x);
  }
}

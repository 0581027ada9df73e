/** The modelled Lua bytecode: its meaning on locals, and the script each instruction emits. */
module Bytecode {
  import opened Words
  import opened Mips
  import opened Script
  import opened Target
  import opened Moves
  import opened ArithCode
  import opened ArithOps
  import opened BranchCode
  import opened Branch
  import opened Frame

  datatype Bop = BADD | BSUB | BMUL

  datatype Cmp = CEQ | CLT | CLE

  /** Other instructions emit words this model does not look into. */
  datatype VInstr =
    | MOVE(a: nat, src: nat)
    | LOADK(a: nat, k: nat)
    | ARITH(op: Bop, a: nat, b: LOperand, c: LOperand)
    | JMP(sbx: int)
    | COMPARE(cmp: Cmp, pred: bool, b: LOperand, c: LOperand)
    | FORPREP(a: nat, sbx: int)
    | FORLOOP(a: nat, sbx: int)
    | OTHER(words: seq<Instr>)

  /** A running function: next instruction, and the value and type of every local. */
  datatype VM = VM(pc: int, val: seq<Word>, tag: seq<Word>)

  predicate StateOk(f: Frame, st: VM) {
    |st.val| == f.nrLocals && |st.tag| == f.nrLocals
  }

  function ValueOf(f: Frame, st: VM, o: LOperand): Word
    requires StateOk(f, st) && OperandIn(f, o)
  {
    match o
    case Local(v) => st.val[v]
    case Konst(k) => f.consts[k].value
  }

  function TagOf(f: Frame, st: VM, o: LOperand): Word
    requires StateOk(f, st) && OperandIn(f, o)
  {
    match o
    case Local(v) => st.tag[v]
    case Konst(k) => f.consts[k].tag
  }

  /** Integer arithmetic of the VM: two's complement, overflow ignored. */
  function BopVal(op: Bop, a: Word, b: Word): Word {
    match op
    case BADD => Norm(a + b)
    case BSUB => Norm(a - b)
    case BMUL => Norm(a * b)
  }

  predicate CmpHolds(cmp: Cmp, a: Word, b: Word) {
    match cmp
    case CEQ => a == b
    case CLT => a < b
    case CLE => a <= b
  }

  // ----- the meaning of a step -----

  function SetLocal(st: VM, a: nat, v: Word, tag: Word): VM
    requires a < |st.val| && a < |st.tag|
  {
    st.(val := st.val[a := v], tag := st.tag[a := tag])
  }

  predicate Wellformed(f: Frame, i: VInstr) {
    match i
    case MOVE(a, b) => a < f.nrLocals && b < f.nrLocals
    case LOADK(a, k) => a < f.nrLocals && k < |f.consts|
    case ARITH(_, a, b, c) => a < f.nrLocals && OperandIn(f, b) && OperandIn(f, c)
    case JMP(_) => true
    case COMPARE(_, _, b, c) => OperandIn(f, b) && OperandIn(f, c)
    case FORPREP(a, _) => a + 3 < f.nrLocals
    case FORLOOP(a, _) => a + 3 < f.nrLocals
    case OTHER(_) => true
  }

  /** The loop test of Lua: its direction follows the sign of the step. */
  predicate LoopGoesOn(idx: Word, limit: Word, step: Word) {
    if step > 0 then idx <= limit else limit <= idx
  }

  /** One instruction on the locals, after the opcode descriptions of Lua 5.2. */
  function VStep(f: Frame, i: VInstr, st: VM): VM
    requires StateOk(f, st) && Wellformed(f, i)
  {
    match i
    case MOVE(a, b) => SetLocal(st, a, st.val[b], st.tag[b]).(pc := st.pc + 1)
    case LOADK(a, k) => SetLocal(st, a, f.consts[k].value, f.consts[k].tag).(pc := st.pc + 1)
    case ARITH(op, a, b, c) =>
      SetLocal(st, a, BopVal(op, ValueOf(f, st, b), ValueOf(f, st, c)), LUA_TNUMBER).(pc := st.pc + 1)
    case JMP(sbx) => st.(pc := st.pc + 1 + sbx)
    case COMPARE(cmp, pred, b, c) =>
      st.(pc := if CmpHolds(cmp, ValueOf(f, st, b), ValueOf(f, st, c)) != pred then st.pc + 2 else st.pc + 1)
    case FORPREP(a, sbx) =>
      SetLocal(st, a, BopVal(BSUB, st.val[a], st.val[a + 2]), LUA_TNUMBER).(pc := st.pc + 1 + sbx)
    case FORLOOP(a, sbx) =>
      var idx := BopVal(BADD, st.val[a], st.val[a + 2]);
      var st1 := SetLocal(st, a, idx, LUA_TNUMBER);
      if LoopGoesOn(idx, st.val[a + 1], st.val[a + 2]) then SetLocal(st1, a + 3, idx, LUA_TNUMBER).(pc := st.pc + 1 + sbx)
      else st1.(pc := st.pc + 1)
    case OTHER(_) => st
  }

  /**
   The step as compiled code takes it. It differs in FORLOOP: the visible loop variable R(A+3)
   is set before the loop test, so also when the loop ends, and the test is the one for a
   positive step whatever the step is.
   */
  function JStep(f: Frame, i: VInstr, st: VM): VM
    requires StateOk(f, st) && Wellformed(f, i)
  {
    if i.FORLOOP? then
      var idx := BopVal(BADD, st.val[i.a], st.val[i.a + 2]);
      var st1 := SetLocal(SetLocal(st, i.a, idx, LUA_TNUMBER), i.a + 3, idx, LUA_TNUMBER);
      st1.(pc := if idx <= st.val[i.a + 1] then st.pc + 1 + i.sbx else st.pc + 1)
    else VStep(f, i, st)
  }

  /** The compiled loop test is Lua's exactly when the step is positive or the limit is hit. */
  lemma LoopTestRightIff(idx: Word, limit: Word, step: Word)
    ensures (idx <= limit) == LoopGoesOn(idx, limit, step) <==> (step > 0 || idx == limit)
  {
  }

  /** When the compiled step is the Lua step: always, but for FORLOOP, where it depends on this. */
  predicate LoopFaithful(i: VInstr, st: VM)
    requires i.FORLOOP? ==> i.a + 3 < |st.val| && i.a + 3 < |st.tag|
  {
    i.FORLOOP? ==>
      var idx, limit, step := BopVal(BADD, st.val[i.a], st.val[i.a + 2]), st.val[i.a + 1], st.val[i.a + 2];
      && (step > 0 || idx == limit || i.sbx == 0)
      && (LoopGoesOn(idx, limit, step) || (st.val[i.a + 3] == idx && st.tag[i.a + 3] == LUA_TNUMBER))
  }

  lemma StepsAgreeIff(f: Frame, i: VInstr, st: VM)
    requires StateOk(f, st) && Wellformed(f, i)
    ensures JStep(f, i, st) == VStep(f, i, st) <==> LoopFaithful(i, st)
  {
    hide BopVal;
    if i.FORLOOP? {
      var a, idx := i.a, BopVal(BADD, st.val[i.a], st.val[i.a + 2]);
      var st1 := SetLocal(st, a, idx, LUA_TNUMBER);
      var j := SetLocal(st1, a + 3, idx, LUA_TNUMBER);
      LoopTestRightIff(idx, st.val[a + 1], st.val[a + 2]);
      assert j.val[a + 3] == idx && j.tag[a + 3] == LUA_TNUMBER;
      if st.val[a + 3] == idx && st.tag[a + 3] == LUA_TNUMBER {
        assert j.val == st1.val && j.tag == st1.tag;
      }
    }
  }

  // ----- what is emitted -----

  /** Operand kinds the lowering takes, for the operation and for the test of its tags. */
  predicate BopAccepts(op: Bop, s: Operand, u: Operand) {
    match op
    case BADD => AddAccepts(s, u)
    case BSUB => SubAccepts(s, u)
    case BMUL => MulAccepts(s, u)
  }

  function BopOpCode(t: Target, T: nat, op: Bop, d: Operand, s: Operand, u: Operand): seq<Instr>
    requires |t.temps| > 0 && !d.Imm? && BopAccepts(op, s, u)
  {
    match op
    case BADD => AddCode(t, T, d, s, u)
    case BSUB => SubCode(t, T, d, s, u)
    case BMUL => MulCode(t, T, d, s, u)
  }

  /** Value and type moved one after the other. */
  function AssignCode(t: Target, d: VregOperand, s: VregOperand): seq<Instr>
    requires |t.temps| > 0 && !d.value.Imm? && !d.tag.Imm?
  {
    MoveCode(t, 0, d.value, s.value) + MoveCode(t, 0, d.tag, s.tag)
  }

  const NEXT0: Dest := ToLocal(0, true)
  const NEXT1: Dest := ToLocal(1, true)

  /** The test that both operands are numbers, branching to the fast path. */
  function TagTest(t: Target, s: VregOperand, u: VregOperand): seq<Ev>
    requires |t.temps| > 0 && PlainAccepts(s.tag, u.tag)
  {
    var tag := OpReg(TempAt(t, 0));
    Emits(AcquireCode(t, 0) + OrCode(t, 1, tag, s.tag, u.tag))
    + ForkScript(EquFork(t, 1, tag, OpReg(ZERO), true), NEXT0)
  }

  /** Tag test, the call for operands that are not numbers, and the operation itself. */
  function BopScript(f: Frame, op: Bop, d: nat, b: LOperand, c: LOperand, slow: seq<Instr>): seq<Ev>
    requires BopReady(f, op, d, b, c)
  {
    var t := f.t;
    var od, s, u := VregToOperand(f, d, false), LoperandToOperand(f, b), LoperandToOperand(f, c);
    TagTest(t, s, u)
    + (Emits(slow) + ForkScript(JUMP, NEXT1))
    + [LabelLocal(0)]
    + Emits(BopOpCode(t, 1, op, od.value, s.value, u.value) + MoveCode(t, 1, od.tag, Imm(LUA_TNUMBER)))
    + [LabelLocal(1)]
    + Emits(ReleaseCode(t, 1))
  }

  predicate BopReady(f: Frame, op: Bop, d: nat, b: LOperand, c: LOperand) {
    && |f.t.temps| > 0 && d < f.nrLocals && OperandIn(f, b) && OperandIn(f, c)
    && PlainAccepts(LoperandToOperand(f, b).tag, LoperandToOperand(f, c).tag)
    && BopAccepts(op, LoperandToOperand(f, b).value, LoperandToOperand(f, c).value)
  }

  /** The machine relation a comparison branches on: equality by pattern, order by sign. */
  function CmpFork(t: Target, T: nat, cmp: Cmp, pred: bool, s: Operand, u: Operand): Fork
    requires |t.temps| > 0 && !s.Imm? && CmpAccepts(cmp, s, u)
  {
    match cmp
    case CEQ => EquFork(t, T, s, SubZero(u), !pred)
    case CLT => IneqFork(t, T, s, SubZero(u), if pred then GT else LT)
    case CLE => IneqFork(t, T, s, SubZero(u), if pred then GE else LE)
  }

  predicate CmpAccepts(cmp: Cmp, s: Operand, u: Operand) {
    !s.Imm? && (cmp.CEQ? ==> EquAccepts(s, SubZero(u)))
  }

  predicate CmpReady(f: Frame, cmp: Cmp, b: LOperand, c: LOperand) {
    && |f.t.temps| > 0 && OperandIn(f, b) && OperandIn(f, c)
    && PlainAccepts(LoperandToOperand(f, b).tag, LoperandToOperand(f, c).tag)
    && CmpAccepts(cmp, LoperandToOperand(f, b).value, LoperandToOperand(f, c).value)
  }

  /** The verdict of the call, in the temporary, against what it has to be for the next instruction to be skipped. */
  function Verdict(t: Target, pred: bool): Fork
    requires |t.temps| > 0
  {
    EquFork(t, 1, OpReg(TempAt(t, 0)), SubZero(Imm(if pred then 0 else 1)), true)
  }

  /** Skip the next instruction when the comparison does not come out as pred. */
  function CmpScript(f: Frame, cmp: Cmp, pred: bool, b: LOperand, c: LOperand, line: nat, slow: seq<Instr>): seq<Ev>
    requires CmpReady(f, cmp, b, c)
  {
    var t := f.t;
    var s, u := LoperandToOperand(f, b), LoperandToOperand(f, c);
    TagTest(t, s, u)
    + (Emits(slow) + ForkScript(Verdict(t, pred), ToLine(line)) + ForkScript(JUMP, NEXT1))
    + [LabelLocal(0)]
    + ForkScript(CmpFork(t, 1, cmp, pred, s.value, u.value), ToLine(line))
    + [LabelLocal(1)]
    + Emits(ReleaseCode(t, 1))
  }

  predicate ForReady(f: Frame, op: Bop, a: nat) {
    a + 3 < f.nrLocals && BopReady(f, op, a, Local(a), Local(a + 2))
  }

  /** The loop test: leave when the index is past the limit. */
  function ForTest(f: Frame, a: nat): Fork
    requires |f.t.temps| > 0
  {
    IneqFork(f.t, 0, VregToOperand(f, a, false).value, SubZero(VregToOperand(f, a + 1, false).value), GT)
  }

  /** Add the step, publish the loop variable, leave if past the limit, else jump back. */
  function ForLoopScript(f: Frame, a: nat, line: nat, slow: seq<Instr>): seq<Ev>
    requires ForReady(f, BADD, a)
  {
    BopScript(f, BADD, a, Local(a), Local(a + 2), slow)
    + Emits(AssignCode(f.t, VregToOperand(f, a + 3, false), VregToOperand(f, a, false)))
    + (ForkScript(ForTest(f, a), NEXT0) + ForkScript(JUMP, ToLine(line)) + [LabelLocal(0)])
  }
}

/**
 The compiler driver: one emitter per bytecode, then the loop of load_code over a function,
 proved to build exactly the script of Program and to leave its linked code in the buffer.
 */
module Compile {
  import opened Words
  import opened Mips
  import opened Script
  import opened Emitter32
  import opened Target
  import opened Moves
  import opened ArithCode
  import opened ArithOps
  import opened BranchCode
  import opened Machines
  import opened Arithmetic
  import opened Branch
  import opened ScriptRun
  import opened Frame
  import opened Bytecode
  import opened Program

  /** No temporary is held, and the machine is the one the frame is laid out for. */
  ghost predicate Idle(e: Emitter, m: Machine, t: Target)
    reads e, e.Repr, m, m.reg
  {
    Ready(e, m) && m.t == t && m.live == 0 && |t.temps| >= 3
  }

  /** While registers last there is room. */
  lemma RoomIdle(t: Target, T: nat, k: nat, allow: bool)
    requires |t.temps| >= 3 && T + k <= 3
    ensures HeadRoom(t, T, k, allow)
  {
  }

  lemma JoinTwo(s: seq<Ev>, a: seq<Ev>, b: seq<Ev>)
    ensures s + a + b == s + (a + b)
  {
  }

  method Assign(e: Emitter, m: Machine, d: VregOperand, s: VregOperand)
    requires Idle(e, m, m.t) && !d.value.Imm? && !d.tag.Imm?
    modifies e.Repr, m, m.reg
    ensures Appended(e, m, AssignCode(m.t, d, s))
  {
    hide Emitter.Valid, Machine.Valid, Emits, HeadRoom, MoveCode;
    RoomIdle(m.t, 0, 1, m.allowSpill);
    EmitsAppend(e.script, MoveCode(m.t, 0, d.value, s.value), MoveCode(m.t, 0, d.tag, s.tag));
    Move(e, m, d.value, s.value);
    Move(e, m, d.tag, s.tag);
  }

  /** Or the two tags into a fresh temporary and branch to the fast path if both are numbers. */
  method EmitTagTest(e: Emitter, m: Machine, s: VregOperand, u: VregOperand) returns (tag: Operand)
    requires Idle(e, m, m.t) && PlainAccepts(s.tag, u.tag)
    modifies e.Repr, m, m.reg
    ensures Ready(e, m) && fresh(e.Repr - old(e.Repr)) && e.jt == old(e.jt)
    ensures m.live == 1 && m.allowSpill == old(m.allowSpill)
    ensures e.script == old(e.script) + TagTest(m.t, s, u) && tag == OpReg(TempAt(m.t, 0))
  {
    hide Emitter.Valid, Machine.Valid, Emits, HeadRoom, OrCode, AcquireCode, ForkScript, EquFork;
    ghost var t := m.t;
    RoomIdle(t, 0, 1, m.allowSpill);
    RoomIdle(t, 1, 2, m.allowSpill);
    var r := m.AcquireTemp(e);
    tag := OpReg(r);
    ghost var or := OrCode(t, 1, tag, s.tag, u.tag);
    EmitsAppend(old(e.script), AcquireCode(t, 0), or);
    JoinTwo(old(e.script), Emits(AcquireCode(t, 0) + or), ForkScript(EquFork(t, 1, tag, OpReg(ZERO), true), NEXT0));
    MipsOr(e, m, tag, s.tag, u.tag);
    MipsBeq(e, m, tag, Imm(0), NEXT0);
  }

  /** The arithmetic the fast path is for. */
  method EmitOp(e: Emitter, m: Machine, op: Bop, d: Operand, s: Operand, u: Operand)
    requires Ready(e, m) && RoomForTwo(m) && !d.Imm? && BopAccepts(op, s, u)
    modifies e.Repr, m, m.reg
    ensures Appended(e, m, BopOpCode(m.t, m.live, op, d, s, u))
  {
    hide Emitter.Valid, Machine.Valid, Emits, HeadRoom, AddCode, SubCode, MulCode;
    FewerRoom(m.t, m.live, 2, AddNeeds(m.t, m.live, d, s, u), m.allowSpill);
    FewerRoom(m.t, m.live, 2, SubNeeds(m.t, m.live, d, s, u), m.allowSpill);
    match op {
      case BADD => MipsAdd(e, m, d, s, u);
      case BSUB => MipsSub(e, m, d, s, u);
      case BMUL => MipsMul(e, m, d, s, u);
    }
  }

  /** Past the slow path: the fast path between its labels, and the temporary given back. */
  method EmitFast(e: Emitter, m: Machine, op: Bop, d: VregOperand, s: Operand, u: Operand)
    requires Ready(e, m) && m.live == 1 && |m.t.temps| >= 3 && !d.value.Imm? && !d.tag.Imm? && BopAccepts(op, s, u)
    modifies e.Repr, m, m.reg
    ensures Ready(e, m) && fresh(e.Repr - old(e.Repr)) && e.jt == old(e.jt)
    ensures m.live == 0 && m.allowSpill == old(m.allowSpill)
    ensures e.script == old(e.script) + [LabelLocal(0)]
              + Emits(BopOpCode(m.t, 1, op, d.value, s, u) + MoveCode(m.t, 1, d.tag, Imm(LUA_TNUMBER)))
              + [LabelLocal(1)] + Emits(ReleaseCode(m.t, 1))
  {
    hide Emitter.Valid, Machine.Valid, Emits, HeadRoom, BopOpCode, MoveCode, ReleaseCode;
    RoomIdle(m.t, 0, 1, true);
    RoomIdle(m.t, 1, 1, m.allowSpill);
    RoomIdle(m.t, 1, 2, m.allowSpill);
    EmitsAppend(e.script + [LabelLocal(0)], BopOpCode(m.t, 1, op, d.value, s, u), MoveCode(m.t, 1, d.tag, Imm(LUA_TNUMBER)));
    LabelLocalAt(e, m, 0);
    EmitOp(e, m, op, d.value, s, u);
    Move(e, m, d.tag, Imm(LUA_TNUMBER));
    LabelLocalAt(e, m, 1);
    ReleaseOne(e, m);
  }

  lemma BopJoin(s: seq<Ev>, test: seq<Ev>, slow: seq<Ev>, jump: seq<Ev>, ws: seq<Ev>, end: seq<Ev>)
    ensures s + test + slow + jump + [LabelLocal(0)] + ws + [LabelLocal(1)] + end
         == s + (test + (slow + jump) + [LabelLocal(0)] + ws + [LabelLocal(1)] + end)
  {
  }

  /** emit_bop: tag test, call, jump over the fast path, fast path. */
  method EmitBop(e: Emitter, m: Machine, f: Frame, op: Bop, d: nat, b: LOperand, c: LOperand, slow: seq<Instr>)
    requires Idle(e, m, f.t) && BopReady(f, op, d, b, c)
    modifies e.Repr, m, m.reg
    ensures Scripted(e, m, BopScript(f, op, d, b, c, slow))
  {
    hide Emitter.Valid, Machine.Valid, Emits, HeadRoom, TagTest, BopOpCode, MoveCode, ReleaseCode, ForkScript;
    var od, s, u := VregToOperand(f, d, false), LoperandToOperand(f, b), LoperandToOperand(f, c);
    ghost var ws := BopOpCode(f.t, 1, op, od.value, s.value, u.value) + MoveCode(f.t, 1, od.tag, Imm(LUA_TNUMBER));
    BopJoin(e.script, TagTest(f.t, s, u), Emits(slow), ForkScript(JUMP, NEXT1), Emits(ws), Emits(ReleaseCode(f.t, 1)));
    var _ := EmitTagTest(e, m, s, u);
    EmitWords(e, m, slow);
    MipsB(e, m, NEXT1);
    EmitFast(e, m, op, od, s.value, u.value);
  }

  /** The branch of a comparison: the table of emit_eq, emit_lt and emit_le. */
  method EmitCmp(e: Emitter, m: Machine, cmp: Cmp, pred: bool, s: Operand, u: Operand, dest: Dest)
    requires Ready(e, m) && RoomForTwo(m) && CmpAccepts(cmp, s, u) && DestOk(dest)
    modifies e.Repr, m, m.reg
    ensures Scripted(e, m, ForkScript(CmpFork(m.t, m.live, cmp, pred, s, u), dest))
  {
    hide Emitter.Valid, Machine.Valid, HeadRoom, ForkScript, EquFork, IneqFork;
    match cmp {
      case CEQ =>
        if pred {
          MipsBne(e, m, s, u, dest);
        } else {
          MipsBeq(e, m, s, u, dest);
        }
      case CLT =>
        if pred {
          MipsBgt(e, m, s, u, dest);
        } else {
          MipsBlt(e, m, s, u, dest);
        }
      case CLE =>
        if pred {
          MipsBge(e, m, s, u, dest);
        } else {
          MipsBle(e, m, s, u, dest);
        }
    }
  }

  lemma CmpJoin(s: seq<Ev>, test: seq<Ev>, slow: seq<Ev>, back: seq<Ev>, jump: seq<Ev>, fork: seq<Ev>, end: seq<Ev>)
    ensures s + test + slow + back + jump + [LabelLocal(0)] + fork + [LabelLocal(1)] + end
         == s + (test + (slow + back + jump) + [LabelLocal(0)] + fork + [LabelLocal(1)] + end)
  {
  }

  /** After the call: skip on its verdict, else jump over the direct comparison. */
  method EmitVerdict(e: Emitter, m: Machine, tag: Operand, pred: bool, line: nat, slow: seq<Instr>)
    requires Ready(e, m) && m.live == 1 && |m.t.temps| >= 3 && tag == OpReg(TempAt(m.t, 0))
    modifies e.Repr, m, m.reg
    ensures Ready(e, m) && fresh(e.Repr - old(e.Repr)) && e.jt == old(e.jt)
    ensures m.live == 1 && m.allowSpill == old(m.allowSpill)
    ensures e.script == old(e.script) + Emits(slow) + ForkScript(Verdict(m.t, pred), ToLine(line)) + ForkScript(JUMP, NEXT1)
  {
    hide Emitter.Valid, Machine.Valid, Emits, HeadRoom, EquFork, ForkScript;
    RoomIdle(m.t, 1, 2, m.allowSpill);
    EmitWords(e, m, slow);
    MipsBeq(e, m, tag, Imm(if pred then 0 else 1), ToLine(line));
    MipsB(e, m, NEXT1);
  }

  method EmitDirect(e: Emitter, m: Machine, cmp: Cmp, pred: bool, s: Operand, u: Operand, line: nat)
    requires Ready(e, m) && m.live == 1 && |m.t.temps| >= 3 && CmpAccepts(cmp, s, u)
    modifies e.Repr, m, m.reg
    ensures Ready(e, m) && fresh(e.Repr - old(e.Repr)) && e.jt == old(e.jt)
    ensures m.live == 0 && m.allowSpill == old(m.allowSpill)
    ensures e.script == old(e.script) + [LabelLocal(0)] + ForkScript(CmpFork(m.t, 1, cmp, pred, s, u), ToLine(line))
                        + [LabelLocal(1)] + Emits(ReleaseCode(m.t, 1))
  {
    hide Emitter.Valid, Machine.Valid, Emits, HeadRoom, CmpFork, ForkScript, ReleaseCode, EquAccepts;
    RoomIdle(m.t, 0, 1, true);
    RoomIdle(m.t, 1, 2, m.allowSpill);
    LabelLocalAt(e, m, 0);
    EmitCmp(e, m, cmp, pred, s, u, ToLine(line));
    LabelLocalAt(e, m, 1);
    ReleaseOne(e, m);
  }

  /** emit_relational: skip to two lines past the line last labelled. */
  method EmitRelational(e: Emitter, m: Machine, f: Frame, cmp: Cmp, pred: bool, b: LOperand, c: LOperand, slow: seq<Instr>)
    requires Idle(e, m, f.t) && CmpReady(f, cmp, b, c)
    modifies e.Repr, m, m.reg
    ensures Scripted(e, m, CmpScript(f, cmp, pred, b, c, MaxLine(old(e.script)) + 2, slow))
  {
    hide Machine.Valid, Emits, TagTest, CmpFork, EquFork, ReleaseCode, ForkScript, MaxLine, Code, Labels, PendingOf, JumpTable, Doubled;
    hide PlainAccepts, VregToOperand;
    var os, ou := LoperandToOperand(f, b), LoperandToOperand(f, c);
    var line := e.pc + 2;
    CmpJoin(e.script, TagTest(f.t, os, ou), Emits(slow), ForkScript(Verdict(f.t, pred), ToLine(line)), ForkScript(JUMP, NEXT1),
            ForkScript(CmpFork(f.t, 1, cmp, pred, os.value, ou.value), ToLine(line)), Emits(ReleaseCode(f.t, 1)));
    var tag := EmitTagTest(e, m, os, ou);
    EmitVerdict(e, m, tag, pred, line, slow);
    EmitDirect(e, m, cmp, pred, os.value, ou.value, line);
  }

  method EmitForprep(e: Emitter, m: Machine, f: Frame, a: nat, line: nat, slow: seq<Instr>)
    requires Idle(e, m, f.t) && ForReady(f, BSUB, a)
    modifies e.Repr, m, m.reg
    ensures Scripted(e, m, BopScript(f, BSUB, a, Local(a), Local(a + 2), slow) + ForkScript(JUMP, ToLine(line)))
  {
    hide Emitter.Valid, Machine.Valid, BopScript, ForkScript;
    JoinTwo(e.script, BopScript(f, BSUB, a, Local(a), Local(a + 2), slow), ForkScript(JUMP, ToLine(line)));
    EmitBop(e, m, f, BSUB, a, Local(a), Local(a + 2), slow);
    MipsB(e, m, ToLine(line));
  }

  lemma ForJoin(s: seq<Ev>, bop: seq<Ev>, ws: seq<Ev>, fork: seq<Ev>, jump: seq<Ev>)
    ensures s + bop + ws + fork + jump + [LabelLocal(0)] == s + (bop + ws + (fork + jump + [LabelLocal(0)]))
  {
  }

  method EmitForloop(e: Emitter, m: Machine, f: Frame, a: nat, line: nat, slow: seq<Instr>)
    requires Idle(e, m, f.t) && ForReady(f, BADD, a)
    modifies e.Repr, m, m.reg
    ensures Scripted(e, m, ForLoopScript(f, a, line, slow))
  {
    hide Emitter.Valid, Machine.Valid, BopScript, ForkScript, AssignCode, Emits, IneqFork, HeadRoom;
    var od, os := VregToOperand(f, a + 3, false), VregToOperand(f, a, false);
    ForJoin(e.script, BopScript(f, BADD, a, Local(a), Local(a + 2), slow), Emits(AssignCode(f.t, od, os)),
            ForkScript(ForTest(f, a), NEXT0), ForkScript(JUMP, ToLine(line)));
    RoomIdle(f.t, 0, 2, m.allowSpill);
    EmitBop(e, m, f, BADD, a, Local(a), Local(a + 2), slow);
    Assign(e, m, od, os);
    MipsBgt(e, m, os.value, VregToOperand(f, a + 1, false).value, NEXT0);
    MipsB(e, m, ToLine(line));
    LabelLocalAt(e, m, 0);
  }

  lemma {:induction false} LineSkips(a: seq<Ev>, b: seq<Ev>)
    requires Unlined(b)
    ensures MaxLine(a + b) == MaxLine(a)
    decreases |b|
  {
    if b == [] {
      assert a + b == a;
    } else {
      var n := |b| - 1;
      assert (a + b)[..|a + b| - 1] == a + b[..n];
      LineSkips(a, b[..n]);
    }
  }

  /** Once line n - 1 is labelled it is the greatest, so the emitter's pc names it. */
  lemma {:induction false} PcIsLine(u: Unit, n: nat)
    requires UnitReady(u) && n <= |u.code|
    ensures MaxLine(Prefix(u, n)) == (if n == 0 then 0 else n - 1)
    ensures MaxLine(Prefix(u, n) + [Ev.LabelPc(n)]) == n
    decreases n
  {
    hide InstrScript, InstrReady, Marked, LocalsClosed, MaxLine, Code, Labels, PendingOf, JumpTable;
    Snoc(Prefix(u, n), Ev.LabelPc(n));
    if n == 0 {
      LineSkips([], Emits(u.header));
      assert [] + Emits(u.header) == Emits(u.header);
      NoLine();
    } else {
      PcIsLine(u, n - 1);
      InstrStretch(u, n - 1);
      LineSkips(Prefix(u, n - 1) + [Ev.LabelPc(n - 1)], InstrScript(u, n - 1));
    }
  }

  lemma NoLine()
    ensures MaxLine([]) == 0
  {
  }

  /** Branches to lines stay among the first n lines. */
  predicate Lined(s: seq<Ev>, n: nat) {
    forall k :: 0 <= k < |s| && s[k].BranchPc? ==> s[k].line < n
  }

  lemma LinedJoin(a: seq<Ev>, b: seq<Ev>, n: nat)
    requires Lined(a, n) && Lined(b, n)
    ensures Lined(a + b, n)
  {
  }

  lemma LinedFork(f: Fork, dest: Dest, n: nat)
    requires dest.ToLine? ==> dest.line < n
    ensures Lined(ForkScript(f, dest), n)
  {
  }

  lemma LinedWords(ws: seq<Instr>, n: nat)
    ensures Lined(Emits(ws), n)
  {
  }

  lemma LinedTest(t: Target, b: VregOperand, c: VregOperand, n: nat)
    requires |t.temps| > 0 && PlainAccepts(b.tag, c.tag)
    ensures Lined(TagTest(t, b, c), n)
  {
    hide OrCode, EquFork, ForkScript;
    var r := OpReg(TempAt(t, 0));
    LinedFork(EquFork(t, 1, r, OpReg(ZERO), true), NEXT0, n);
    LinedJoin(Emits(AcquireCode(t, 0) + OrCode(t, 1, r, b.tag, c.tag)), ForkScript(EquFork(t, 1, r, OpReg(ZERO), true), NEXT0), n);
  }

  lemma LinedBop(f: Frame, op: Bop, d: nat, b: LOperand, c: LOperand, slow: seq<Instr>, n: nat)
    requires BopReady(f, op, d, b, c)
    ensures Lined(BopScript(f, op, d, b, c, slow), n)
  {
    hide TagTest, BopOpCode, MoveCode, ForkScript, ReleaseCode;
    LinedTest(f.t, LoperandToOperand(f, b), LoperandToOperand(f, c), n);
    LinedFork(JUMP, NEXT1, n);
  }

  lemma LinedCmp(f: Frame, cmp: Cmp, pred: bool, b: LOperand, c: LOperand, line: nat, slow: seq<Instr>, n: nat)
    requires CmpReady(f, cmp, b, c) && line < n
    ensures Lined(CmpScript(f, cmp, pred, b, c, line, slow), n)
  {
    hide TagTest, CmpFork, EquFork, ForkScript, ReleaseCode;
    var os, ou := LoperandToOperand(f, b), LoperandToOperand(f, c);
    LinedTest(f.t, os, ou, n);
    LinedFork(JUMP, NEXT1, n);
    LinedFork(CmpFork(f.t, 1, cmp, pred, os.value, ou.value), ToLine(line), n);
    LinedFork(Verdict(f.t, pred), ToLine(line), n);
  }

  lemma LinedForLoop(f: Frame, a: nat, line: nat, slow: seq<Instr>, n: nat)
    requires ForReady(f, BADD, a) && line < n
    ensures Lined(ForLoopScript(f, a, line, slow), n)
  {
    hide BopScript, AssignCode, ForTest, ForkScript;
    LinedBop(f, BADD, a, Local(a), Local(a + 2), slow, n);
    LinedFork(ForTest(f, a), NEXT0, n);
    LinedFork(JUMP, ToLine(line), n);
  }

  lemma LinedInstr(u: Unit, i: nat)
    requires UnitReady(u) && i < |u.code|
    ensures Lined(InstrScript(u, i), |u.code|)
  {
    hide Lined, BopScript, CmpScript, ForLoopScript, AssignCode, ForkScript, BopReady, CmpReady, ForReady;
    var f, slow, n := u.f, u.slow[i], |u.code|;
    assert InstrReady(u, i);
    match u.code[i]
    case MOVE(a, b) => LinedWords(AssignCode(f.t, VregToOperand(f, a, false), VregToOperand(f, b, false)), n);
    case LOADK(a, k) => LinedWords(AssignCode(f.t, VregToOperand(f, a, false), ConstToOperand(f, k)), n);
    case ARITH(op, a, b, c) => LinedBop(f, op, a, b, c, slow, n);
    case JMP(sbx) => LinedFork(JUMP, ToLine(i + 1 + sbx), n);
    case COMPARE(cmp, pred, b, c) => LinedCmp(f, cmp, pred, b, c, i + 2, slow, n);
    case FORPREP(a, sbx) =>
      ForReadyBop(f, BSUB, a);
      LinedBop(f, BSUB, a, Local(a), Local(a + 2), slow, n);
      LinedFork(JUMP, ToLine(i + 1 + sbx), n);
      LinedJoin(BopScript(f, BSUB, a, Local(a), Local(a + 2), slow), ForkScript(JUMP, ToLine(i + 1 + sbx)), n);
    case FORLOOP(a, sbx) => LinedForLoop(f, a, i + 1 + sbx, slow, n);
    case OTHER(words) => LinedWords(words, n);
  }

  lemma {:induction false} LinedPrefix(u: Unit, n: nat)
    requires UnitReady(u) && n <= |u.code|
    ensures Lined(Prefix(u, n), |u.code|)
    decreases n
  {
    hide InstrScript;
    if n > 0 {
      LinedPrefix(u, n - 1);
      LinedInstr(u, n - 1);
      LinedJoin(Prefix(u, n - 1) + [Ev.LabelPc(n - 1)], InstrScript(u, n - 1), |u.code|);
    }
  }

  lemma PendingLines(u: Unit)
    requires UnitReady(u)
    ensures forall p <- PendingOf(Whole(u)) :: p.dest.ToLine? ==> p.dest.line < |u.code|
  {
    hide InstrScript, Prefix, Marked;
    var s := Whole(u);
    LinedPrefix(u, |u.code|);
    assert s[..|s|] == s;
    forall p | p in PendingOf(s) && p.dest.ToLine?
      ensures p.dest.line < |u.code|
    {
      var k := PendingFrom(s, |s|, p);
    }
  }

  /** One bytecode, dispatched as load_code does; line i has just been labelled. */
  method EmitInstr(e: Emitter, m: Machine, u: Unit, i: nat)
    requires UnitReady(u) && i < |u.code| && Idle(e, m, u.f.t) && MaxLine(e.script) == i
    modifies e.Repr, m, m.reg
    ensures Scripted(e, m, InstrScript(u, i))
  {
    hide Machine.Valid, BopScript, CmpScript, ForLoopScript, AssignCode, ForkScript, BopReady, CmpReady, ForReady, VregToOperand, Emits;
    hide MaxLine, Code, Labels, PendingOf, JumpTable, Doubled;
    var f, slow := u.f, u.slow[i];
    assert InstrReady(u, i);
    match u.code[i] {
      case MOVE(a, b) =>
        VregsWritable(f, a);
        Assign(e, m, VregToOperand(f, a, false), VregToOperand(f, b, false));
      case LOADK(a, k) =>
        VregsWritable(f, a);
        Assign(e, m, VregToOperand(f, a, false), ConstToOperand(f, k));
      case ARITH(op, a, b, c) => EmitBop(e, m, f, op, a, b, c, slow);
      case JMP(sbx) => MipsB(e, m, ToLine(e.pc + sbx + 1));
      case COMPARE(cmp, pred, b, c) => EmitRelational(e, m, f, cmp, pred, b, c, slow);
      case FORPREP(a, sbx) => EmitForprep(e, m, f, a, i + 1 + sbx, slow);
      case FORLOOP(a, sbx) => EmitForloop(e, m, f, a, i + 1 + sbx, slow);
      case OTHER(words) => EmitWords(e, m, words);
    }
  }

  lemma VregsWritable(f: Frame, a: nat)
    ensures !VregToOperand(f, a, false).value.Imm? && !VregToOperand(f, a, false).tag.Imm?
  {
  }

  /**
   load_code: the header, then label and emit each line in order, then link. The buffer
   ends up holding the linked script of the whole function.
   */
  method LoadCode(e: Emitter, m: Machine, u: Unit) returns (n: nat)
    requires UnitReady(u) && Idle(e, m, u.f.t) && e.script == [] && |u.code| <= e.jt.Length
    modifies e.Repr, m, m.reg
    ensures e.script == Whole(u) && Marked(Whole(u)) && Resolvable(Whole(u))
    ensures n == e.size && (e.mcode != null ==> n / 4 <= e.mcode.Length)
    ensures if e.mcode == null then Linked(Whole(u)) == [] else e.mcode[..n / 4] == Linked(Whole(u))
  {
    hide Machine.Valid, InstrScript, Emits, Marked, Resolvable, Linked, MaxLine, Code, Labels, PendingOf, JumpTable, Doubled, LocalsClosed;
    EmitWords(e, m, u.header);
    assert [] + Emits(u.header) == Emits(u.header);
    var i := 0;
    while i < |u.code|
      invariant 0 <= i <= |u.code|
      invariant Idle(e, m, u.f.t) && fresh(e.Repr - old(e.Repr)) && e.jt == old(e.jt)
      invariant e.script == Prefix(u, i)
    {
      PcIsLine(u, i);
      e.LabelPc(i);
      EmitInstr(e, m, u, i);
      i := i + 1;
    }
    PrefixCloses(u, |u.code|);
    ClosedResolvable(Whole(u));
    PendingLines(u);
    n := e.Link();
  }
}

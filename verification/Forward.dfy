/** Forward simulation: every run of the VM on a unit is a run of the unit's linked code. */
module Forward {
  import opened Words
  import opened Mips
  import opened Script
  import opened Target
  import opened Branch
  import opened ScriptRun
  import opened Frame
  import opened Bytecode
  import opened Simulate
  import opened SimulateGo
  import opened Program

  /** From the script of a line to the entry of the line its step goes to. */
  ghost predicate Reaches(u: Unit, lo: int, x: Data, st: VM, y: Data)
    requires UnitReady(u) && Linkable(Whole(u)) && StepOk(u, st)
  {
    var st' := Next(u, st);
    LineOk(u, st'.pc) && Go(Whole(u), Entry(u, st.pc) + 1, x, Entry(u, st'.pc), y) && Represents(u.f, lo, y, st')
  }

  lemma LineHome(u: Unit, line: nat)
    requires UnitReady(u) && line < |u.code|
    ensures Entry(u, line) <= |Whole(u)| && Pos(Whole(u), Entry(u, line)) == JumpTable(Whole(u), line)
  {
    LineStands(u, line);
  }

  lemma LineScript(u: Unit, i: nat)
    requires UnitReady(u) && i < |u.code|
    ensures var s, k := Whole(u), Entry(u, i);
            && k < |s| && s[k] == Ev.LabelPc(i) && Clean(s, k + 1)
            && Has(s, k + 1, InstrScript(u, i)) && Entry(u, i + 1) == k + 1 + |InstrScript(u, i)|
  {
    hide InstrScript;
    LineStands(u, i);
    HasAt(Whole(u), Entry(u, i), [Ev.LabelPc(i)], 0);
  }

  lemma StepAssign(u: Unit, lo: int, x: Data, st: VM) returns (y: Data)
    requires UnitReady(u) && Linkable(Whole(u)) && StepOk(u, st) && Represents(u.f, lo, x, st)
    requires u.code[st.pc].MOVE? || u.code[st.pc].LOADK?
    ensures Reaches(u, lo, x, st, y)
  {
    hide Go, Linkable, Represents, AssignCode, Whole, Entry, Has, Clean, VregToOperand;
    var i := st.pc;
    ReadyWellformed(u, i);
    NextInRange(u, st);
    LineScript(u, i);
    var ins := u.code[i];
    var o := if ins.MOVE? then Local(ins.src) else Konst(ins.k);
    y := AssignGoes(Whole(u), Entry(u, i) + 1, u.f, lo, x, st, ins.a, o);
    RelPc(u.f, lo, y, SetLocal(st, ins.a, ValueOf(u.f, st, o), TagOf(u.f, st, o)), i + 1);
  }

  lemma StepArith(u: Unit, lo: int, x: Data, st: VM) returns (y: Data)
    requires UnitReady(u) && Linkable(Whole(u)) && StepOk(u, st) && Represents(u.f, lo, x, st)
    requires u.code[st.pc].ARITH?
    ensures Reaches(u, lo, x, st, y)
  {
    hide Go, Linkable, Represents, BopScript, Whole, Entry, Has, Clean, BopReady, BopVal;
    var i := st.pc;
    ReadyWellformed(u, i);
    NextInRange(u, st);
    LineScript(u, i);
    var ins := u.code[i];
    y := BopGoes(Whole(u), Entry(u, i) + 1, u.f, lo, x, st, ins.op, ins.a, ins.b, ins.c, u.slow[i]);
    RelPc(u.f, lo, y, SetLocal(st, ins.a, BopVal(ins.op, ValueOf(u.f, st, ins.b), ValueOf(u.f, st, ins.c)), LUA_TNUMBER), i + 1);
  }

  lemma StepJump(u: Unit, lo: int, x: Data, st: VM) returns (y: Data)
    requires UnitReady(u) && Linkable(Whole(u)) && StepOk(u, st) && Represents(u.f, lo, x, st)
    requires u.code[st.pc].JMP?
    ensures Reaches(u, lo, x, st, y)
  {
    hide Go, Linkable, Represents, ForkScript, Whole, Entry, Has, Clean, Pos, JumpTable;
    var i := st.pc;
    ReadyWellformed(u, i);
    NextInRange(u, st);
    LineScript(u, i);
    var to := i + 1 + u.code[i].sbx;
    LineHome(u, to);
    JumpGoes(Whole(u), Entry(u, i) + 1, ToLine(to), Entry(u, to), x);
    y := x;
    RelPc(u.f, lo, y, st, to);
  }

  lemma StepCompare(u: Unit, lo: int, x: Data, st: VM) returns (y: Data)
    requires UnitReady(u) && Linkable(Whole(u)) && StepOk(u, st) && Represents(u.f, lo, x, st)
    requires u.code[st.pc].COMPARE?
    ensures Reaches(u, lo, x, st, y)
  {
    hide Go, Linkable, Represents, CmpScript, Whole, Entry, Has, Clean, Pos, JumpTable, CmpReady, CmpSafe, CmpSkips, CmpHolds;
    var i := st.pc;
    ReadyWellformed(u, i);
    NextInRange(u, st);
    LineScript(u, i);
    LineHome(u, i + 2);
    var ins := u.code[i];
    SkipsRightIff(ins.cmp, ins.pred, ValueOf(u.f, st, ins.b), ValueOf(u.f, st, ins.c));
    y := CmpGoes(Whole(u), Entry(u, i) + 1, u.f, lo, x, st, ins.cmp, ins.pred, ins.b, ins.c, i + 2, u.slow[i], Entry(u, i + 2));
    RelPc(u.f, lo, y, st, Next(u, st).pc);
  }

  lemma StepForPrep(u: Unit, lo: int, x: Data, st: VM) returns (y: Data)
    requires UnitReady(u) && Linkable(Whole(u)) && StepOk(u, st) && Represents(u.f, lo, x, st)
    requires u.code[st.pc].FORPREP?
    ensures Reaches(u, lo, x, st, y)
  {
    hide Go, Linkable, Represents, BopScript, ForkScript, Whole, Entry, Has, Clean, Pos, JumpTable, BopReady, BopVal;
    var i := st.pc;
    ReadyWellformed(u, i);
    NextInRange(u, st);
    LineScript(u, i);
    var s, k, a := Whole(u), Entry(u, i) + 1, u.code[i].a;
    var to := i + 1 + u.code[i].sbx;
    LineHome(u, to);
    var bop := BopScript(u.f, BSUB, a, Local(a), Local(a + 2), u.slow[i]);
    HasSplit(s, k, bop, ForkScript(JUMP, ToLine(to)));
    y := BopGoes(s, k, u.f, lo, x, st, BSUB, a, Local(a), Local(a + 2), u.slow[i]);
    JumpGoes(s, k + |bop|, ToLine(to), Entry(u, to), y);
    GoTrans(s, k, x, k + |bop|, y, Entry(u, to), y);
    RelPc(u.f, lo, y, SetLocal(st, a, BopVal(BSUB, st.val[a], st.val[a + 2]), LUA_TNUMBER), to);
  }

  lemma StepForLoop(u: Unit, lo: int, x: Data, st: VM) returns (y: Data)
    requires UnitReady(u) && Linkable(Whole(u)) && StepOk(u, st) && Represents(u.f, lo, x, st)
    requires u.code[st.pc].FORLOOP?
    ensures Reaches(u, lo, x, st, y)
  {
    hide Go, Linkable, Represents, ForLoopScript, Whole, Entry, Has, Clean, Pos, JumpTable, BopReady, BopVal;
    var i := st.pc;
    ReadyWellformed(u, i);
    NextInRange(u, st);
    LineScript(u, i);
    var a := u.code[i].a;
    var to := i + 1 + u.code[i].sbx;
    LineHome(u, to);
    y := ForLoopGoes(Whole(u), Entry(u, i) + 1, u.f, lo, x, st, a, to, u.slow[i], Entry(u, to));
    var idx := BopVal(BADD, st.val[a], st.val[a + 2]);
    RelPc(u.f, lo, y, SetLocal(SetLocal(st, a, idx, LUA_TNUMBER), a + 3, idx, LUA_TNUMBER), Next(u, st).pc);
  }

  lemma StepReaches(u: Unit, lo: int, x: Data, st: VM) returns (y: Data)
    requires UnitReady(u) && Linkable(Whole(u)) && StepOk(u, st) && Represents(u.f, lo, x, st)
    ensures Reaches(u, lo, x, st, y)
  {
    hide Linkable, Represents, Whole, Reaches, UnitReady, CmpSafe, BopVal, InstrReady;
    var ins := u.code[st.pc];
    if ins.MOVE? || ins.LOADK? {
      y := StepAssign(u, lo, x, st);
    } else if ins.ARITH? {
      y := StepArith(u, lo, x, st);
    } else if ins.JMP? {
      y := StepJump(u, lo, x, st);
    } else if ins.COMPARE? {
      y := StepCompare(u, lo, x, st);
    } else if ins.FORPREP? {
      y := StepForPrep(u, lo, x, st);
    } else {
      y := StepForLoop(u, lo, x, st);
    }
  }

  lemma OkInRange(u: Unit, st: VM)
    requires UnitReady(u) && StepOk(u, st)
    ensures LineOk(u, st.pc)
  {
  }

  /** One step: from the jump-table entry of st.pc to that of the next line, state for state. */
  lemma StepSimulated(u: Unit, lo: int, x: Data, st: VM) returns (y: Data)
    requires UnitReady(u) && Linkable(Whole(u)) && StepOk(u, st) && Represents(u.f, lo, x, st)
    ensures LineOk(u, st.pc) && Represents(u.f, lo, y, Next(u, st)) && LineOk(u, Next(u, st).pc)
    ensures Runs(Linked(Whole(u)), JumpTable(Whole(u), st.pc), x, JumpTable(Whole(u), Next(u, st).pc), y)
  {
    hide Linkable, Represents, Whole, Entry, Has, Clean, Pos, JumpTable, Next, Runs, StepOk, UnitReady, InstrScript;
    OkInRange(u, st);
    y := StepReaches(u, lo, x, st);
    var s, k := Whole(u), Entry(u, st.pc);
    LineScript(u, st.pc);
    GoLabel(s, k, x);
    GoTrans(s, k, x, k + 1, x, Entry(u, Next(u, st).pc), y);
    LineHome(u, st.pc);
    LineHome(u, Next(u, st).pc);
  }

  /** The VM gets from st to st' in n steps, each within what the compiled code supports. */
  ghost predicate VmRuns(u: Unit, n: nat, st: VM, st': VM)
    requires UnitReady(u)
    decreases n
  {
    if n == 0 then st == st' else StepOk(u, st) && VmRuns(u, n - 1, Next(u, st), st')
  }

  /**
   Forward simulation. Whatever the program and however long its run, the linked code goes
   from the table entry of the first line to that of the last, and every local, value and
   type, is then where the frame says, equal to the VM's.
   */
  lemma {:induction false} ForwardSimulation(u: Unit, lo: int, n: nat, st: VM, st': VM, x: Data) returns (y: Data)
    requires UnitReady(u) && Reachable(Whole(u)) && LineOk(u, st.pc)
    requires VmRuns(u, n, st, st') && Represents(u.f, lo, x, st)
    ensures LineOk(u, st'.pc) && Linkable(Whole(u)) && Represents(u.f, lo, y, st')
    ensures Runs(Linked(Whole(u)), JumpTable(Whole(u), st.pc), x, JumpTable(Whole(u), st'.pc), y)
    decreases n
  {
    hide Represents, Whole, JumpTable, Next, Runs, StepOk, Linkable;
    UnitLinks(u);
    var s := Whole(u);
    if n == 0 {
      y := x;
      RunsRefl(Linked(s), JumpTable(s, st.pc), x);
    } else {
      var mid := Next(u, st);
      var z := StepSimulated(u, lo, x, st);
      y := ForwardSimulation(u, lo, n - 1, mid, st', z);
      RunsTrans(Linked(s), JumpTable(s, st.pc), x, JumpTable(s, mid.pc), z, JumpTable(s, st'.pc), y);
    }
  }
}

/**
 Forward simulation against the Lua meaning of a step. Compiled code also sets R(A+3) when a
 loop ends, so a run is followed together with the set of registers that are stale: loop
 variables whose loop is over. No register outside that set ever differs.
 */
module LuaForward {
  import opened Words
  import opened Mips
  import opened Script
  import opened ScriptRun
  import opened Frame
  import opened Bytecode
  import opened Simulate
  import opened SimulateGo
  import opened Program
  import opened Forward

  function LocalOf(o: LOperand): set<nat> {
    if o.Local? then {o.index} else {}
  }

  /** The locals an instruction reads. */
  function Reads(i: VInstr): set<nat> {
    match i
    case MOVE(_, b) => {b}
    case LOADK(_, _) => {}
    case ARITH(_, _, b, c) => LocalOf(b) + LocalOf(c)
    case JMP(_) => {}
    case COMPARE(_, _, b, c) => LocalOf(b) + LocalOf(c)
    case FORPREP(a, _) => {a, a + 2}
    case FORLOOP(a, _) => {a, a + 1, a + 2}
    case OTHER(_) => {}
  }

  /** Stale registers after the instruction: what it writes is fresh, an ended loop's variable is not. */
  function StaleAfter(f: Frame, i: VInstr, st: VM, stale: set<nat>): set<nat>
    requires StateOk(f, st) && Wellformed(f, i)
  {
    match i
    case MOVE(a, _) => stale - {a}
    case LOADK(a, _) => stale - {a}
    case ARITH(_, a, _, _) => stale - {a}
    case FORPREP(a, _) => stale - {a}
    case FORLOOP(a, _) =>
      if BopVal(BADD, st.val[a], st.val[a + 2]) <= st.val[a + 1] then stale - {a, a + 3} else stale - {a} + {a + 3}
    case _ => stale
  }

  /** The two states are at the same line and differ in stale registers only. */
  predicate Shadows(stale: set<nat>, st: VM, js: VM) {
    && st.pc == js.pc && |st.val| == |js.val| && |st.tag| == |js.tag|
    && (forall v :: 0 <= v < |st.val| && v !in stale ==> st.val[v] == js.val[v])
    && (forall v :: 0 <= v < |st.tag| && v !in stale ==> st.tag[v] == js.tag[v])
  }

  predicate LoopTestOk(f: Frame, i: VInstr, st: VM)
    requires i.FORLOOP? ==> i.a + 2 < |st.val|
  {
    i.FORLOOP? ==> st.val[i.a + 2] > 0 || BopVal(BADD, st.val[i.a], st.val[i.a + 2]) == st.val[i.a + 1]
  }

  /** A step the compiled code supports, reading nothing stale, its loop test as in Lua. */
  predicate LuaStepOk(u: Unit, stale: set<nat>, st: VM)
    requires UnitReady(u)
  {
    StepOk(u, st) && Reads(u.code[st.pc]) !! stale && LoopTestOk(u.f, u.code[st.pc], st)
  }

  function LuaNext(u: Unit, st: VM): VM
    requires UnitReady(u) && StepOk(u, st)
  {
    ReadyWellformed(u, st.pc);
    VStep(u.f, u.code[st.pc], st)
  }

  function StaleNext(u: Unit, stale: set<nat>, st: VM): set<nat>
    requires UnitReady(u) && StepOk(u, st)
  {
    ReadyWellformed(u, st.pc);
    StaleAfter(u.f, u.code[st.pc], st, stale)
  }

  /** Every local the instruction at hand reads is the same in both states. */
  lemma ShadowSees(u: Unit, stale: set<nat>, st: VM, js: VM)
    requires UnitReady(u) && LuaStepOk(u, stale, st) && Shadows(stale, st, js)
    ensures StateOk(u.f, st) && StateOk(u.f, js) && js.pc == st.pc && Wellformed(u.f, u.code[st.pc])
    ensures forall v {:trigger st.val[v]} :: v in Reads(u.code[st.pc]) && v < u.f.nrLocals ==> st.val[v] == js.val[v]
    ensures forall v {:trigger st.tag[v]} :: v in Reads(u.code[st.pc]) && v < u.f.nrLocals ==> st.tag[v] == js.tag[v]
  {
    hide BopVal, BopReady, CmpReady, ForReady, CmpSafe, Reads;
    ReadyWellformed(u, st.pc);
  }

  lemma ShadowOk(u: Unit, stale: set<nat>, st: VM, js: VM)
    requires UnitReady(u) && LuaStepOk(u, stale, st) && Shadows(stale, st, js)
    ensures StepOk(u, js)
  {
    hide BopVal, BopReady, CmpReady, ForReady, LoperandToOperand, Shadows;
    ShadowSees(u, stale, st, js);
  }

  /** The compiled step keeps in the shadow of the Lua step. */
  lemma ShadowStep(u: Unit, stale: set<nat>, st: VM, js: VM)
    requires UnitReady(u) && LuaStepOk(u, stale, st) && Shadows(stale, st, js)
    ensures StepOk(u, js) && Shadows(StaleNext(u, stale, st), LuaNext(u, st), Next(u, js))
  {
    hide BopVal, CmpHolds, BopReady, CmpReady, ForReady, LoperandToOperand, CmpSafe;
    ShadowOk(u, stale, st, js);
    ShadowSees(u, stale, st, js);
  }

  /** n steps of Lua, each supported and reading nothing stale. */
  ghost predicate LuaRuns(u: Unit, n: nat, stale: set<nat>, st: VM, stale': set<nat>, st': VM)
    requires UnitReady(u)
    decreases n
  {
    if n == 0 then stale == stale' && st == st'
    else LuaStepOk(u, stale, st) && LuaRuns(u, n - 1, StaleNext(u, stale, st), LuaNext(u, st), stale', st')
  }

  lemma {:induction false} ShadowRun(u: Unit, n: nat, stale: set<nat>, st: VM, stale': set<nat>, st': VM, js: VM) returns (js': VM)
    requires UnitReady(u) && LuaRuns(u, n, stale, st, stale', st') && Shadows(stale, st, js)
    ensures VmRuns(u, n, js, js') && Shadows(stale', st', js')
    decreases n
  {
    hide StepOk, Next, LuaNext, StaleNext, Shadows, UnitReady;
    if n == 0 {
      js' := js;
    } else {
      ShadowStep(u, stale, st, js);
      js' := ShadowRun(u, n - 1, StaleNext(u, stale, st), LuaNext(u, st), stale', st', Next(u, js));
    }
  }

  /**
   Every Lua run that reads no loop variable after its loop is followed by the linked code:
   control reaches the same line, and every register that is not such a variable agrees.
   */
  lemma LuaSimulation(u: Unit, lo: int, n: nat, st: VM, stale: set<nat>, st': VM, x: Data) returns (y: Data, js: VM)
    requires UnitReady(u) && Reachable(Whole(u)) && LineOk(u, st.pc)
    requires LuaRuns(u, n, {}, st, stale, st') && Represents(u.f, lo, x, st)
    ensures Linkable(Whole(u)) && Represents(u.f, lo, y, js) && Shadows(stale, st', js)
    ensures LineOk(u, st'.pc) && Runs(Linked(Whole(u)), JumpTable(Whole(u), st.pc), x, JumpTable(Whole(u), st'.pc), y)
  {
    hide Represents, Whole, JumpTable, Runs, Linkable;
    js := ShadowRun(u, n, {}, st, stale, st', st);
    y := ForwardSimulation(u, lo, n, st, js, x);
  }
}

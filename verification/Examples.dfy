/** Concrete programs that meet every hypothesis of the main theorems. */
module Examples {
  import opened Words
  import opened Mips
  import opened Script
  import opened Target
  import opened Moves
  import opened Branch
  import opened ScriptRun
  import opened Wrappers
  import opened Upvalues
  import opened Frame
  import opened Bytecode
  import opened Simulate
  import opened SimulateGo
  import opened Program
  import opened Forward
  import Cells

  // ----- a loop that never ends -----

  /** `while true do local x = 7 end`, on the register table with its repeated entry corrected. */
  function Spin(): Unit {
    Unit(Frame(Target(SP, FP, RA, MIPS_TEMPS, SHIPPED[13 := 13]), 1, [Const(7, LUA_TNUMBER)]),
         [LOADK(0, 0), JMP(-2)], [[], []], [])
  }

  lemma SpinReady()
    ensures UnitReady(Spin())
  {
  }

  lemma SpinShort()
    requires UnitReady(Spin())
    ensures |Code(Whole(Spin()))| <= 0x8000
  {
    hide Code, ForkScript;
    var u := Spin();
    ForkLength(JUMP, ToLine(0));
    CodeShort(Whole(u));
    assert |InstrScript(u, 0)| <= 4 && |InstrScript(u, 1)| <= 3;
    assert Prefix(u, 2) == Prefix(u, 1) + [Ev.LabelPc(1)] + InstrScript(u, 1);
    assert Prefix(u, 1) == Prefix(u, 0) + [Ev.LabelPc(0)] + InstrScript(u, 0);
  }

  function SpinData(): Data {
    Data(seq(32, i => if i == FP then 0x1000 else 0), map[], 0, 0)
  }

  lemma SpinStarts()
    ensures Represents(Spin().f, 0, SpinData(), VM(0, [0], [0]))
  {
    RepairedTableValid();
  }

  lemma SpinSteps(st: VM)
    requires UnitReady(Spin()) && StateOk(Spin().f, st) && 0 <= st.pc < 2
    ensures StepOk(Spin(), st) && StateOk(Spin().f, Next(Spin(), st)) && 0 <= Next(Spin(), st).pc < 2
  {
    hide UnitReady;
    ReadyWellformed(Spin(), st.pc);
  }

  lemma {:induction false} SpinRuns(n: nat, st: VM) returns (st': VM)
    requires UnitReady(Spin()) && StateOk(Spin().f, st) && 0 <= st.pc < 2
    ensures VmRuns(Spin(), n, st, st')
    decreases n
  {
    hide StepOk, Next, UnitReady, StateOk, Spin;
    if n == 0 {
      st' := st;
    } else {
      SpinSteps(st);
      st' := SpinRuns(n - 1, Next(Spin(), st));
    }
  }

  /** For every n there is a run of n steps, and the linked code follows it. */
  lemma SpinForever(n: nat) returns (st': VM, y: Data)
    ensures UnitReady(Spin()) && VmRuns(Spin(), n, VM(0, [0], [0]), st') && LineOk(Spin(), st'.pc)
    ensures Linkable(Whole(Spin())) && Represents(Spin().f, 0, y, st')
    ensures Runs(Linked(Whole(Spin())), JumpTable(Whole(Spin()), 0), SpinData(), JumpTable(Whole(Spin()), st'.pc), y)
  {
    hide UnitReady, VmRuns, Represents, Whole, Linkable, JumpTable, Runs;
    SpinReady();
    SpinShort();
    UnitLinks(Spin());
    SpinStarts();
    st' := SpinRuns(n, VM(0, [0], [0]));
    y := ForwardSimulation(Spin(), 0, n, VM(0, [0], [0]), st', SpinData());
  }

  // ----- a variable that outlives its frame -----

  function Maker<V>(v: V, w: V): seq<Cells.Op<V>> {
    [Cells.Enter(Cells.Fr(100, 92, 1), [v]), Cells.Capture(0), Cells.Capture(0), Cells.SetUp(0, w), Cells.Exit, Cells.GetUp(1)]
  }

  lemma Then<V>(c: Cells.Run<V>, op: Cells.Op<V>, rest: seq<Cells.Op<V>>)
    requires Cells.Sound(c) && Cells.Allowed(c, op) && Cells.RunAllowed(Cells.RunStep(c, op), rest)
    ensures Cells.RunAllowed(c, [op] + rest)
    ensures Cells.RunReads(c, [op] + rest) == [Cells.RunOut(c, op)] + Cells.RunReads(Cells.RunStep(c, op), rest)
  {
    assert ([op] + rest)[1..] == rest;
  }

  /** The states of that run: the frame, the captured local, the write through it, the return. */
  function Entered<V>(v: V): Cells.Run<V> {
    Cells.Run(World([], map[], map[92 := v]), [Cells.Fr(100, 92, 1)], [], 0)
  }

  function Shared<V>(v: V, own: V, handles: seq<nat>, next: nat): Cells.Run<V> {
    Cells.Run(World([0], map[0 := Up(Stack(92), own)], map[92 := v]), [Cells.Fr(100, 92, 1)], handles, next)
  }

  function Left<V>(v: V): Cells.Run<V> {
    Cells.Run(World([], map[0 := Up(Own, v)], map[92 := v]), [], [0, 0], 2)
  }

  lemma Enters<V>(v: V)
    ensures var c, op := Cells.Start<V>(), Cells.Enter(Cells.Fr(100, 92, 1), [v]);
            Cells.Sound(c) && Cells.Allowed(c, op) && Cells.RunStep(c, op) == Entered(v)
  {
    assert [v][..0] == [];
    assert Cells.Fill(map[], 92, [v]) == map[92 := v];
  }

  lemma Captures<V>(v: V)
    ensures var c, op := Entered(v), Cells.Op<V>.Capture(0);
            Cells.Sound(c) && Cells.Allowed(c, op) && Cells.RunStep(c, op) == Shared(v, v, [0], 1)
  {
  }

  lemma CapturesAgain<V>(v: V)
    ensures var c, op := Shared(v, v, [0], 1), Cells.Op<V>.Capture(0);
            Cells.Sound(c) && Cells.Allowed(c, op) && Cells.RunStep(c, op) == Shared(v, v, [0, 0], 2)
  {
  }

  lemma Writes<V>(v: V, w: V)
    ensures var c, op := Shared(v, v, [0, 0], 2), Cells.SetUp(0, w);
            Cells.Sound(c) && Cells.Allowed(c, op) && Cells.RunStep(c, op) == Shared(w, v, [0, 0], 2)
  {
  }

  lemma Leaves<V>(v: V, w: V)
    ensures var c, op := Shared(w, v, [0, 0], 2), Cells.Op<V>.Exit;
            Cells.Sound(c) && Cells.Allowed(c, op) && Cells.RunStep(c, op) == Left(w)
  {
  }

  lemma Reads<V>(w: V)
    ensures var c, op := Left(w), Cells.Op<V>.GetUp(1);
            Cells.Sound(c) && Cells.Allowed(c, op) && Cells.RunStep(c, op) == c && Cells.RunOut(c, op) == Some(w)
  {
  }

  /** Two closures over one local: what one writes the other reads, after the frame is gone. */
  lemma MakerShares<V>(v: V, w: V)
    ensures Cells.RunAllowed(Cells.Start<V>(), Maker(v, w))
    ensures Cells.RunReads(Cells.Start<V>(), Maker(v, w)) == [None, None, None, None, None, Some(w)]
  {
    hide Cells.RunStep, Cells.Sound, Cells.Allowed, Entered, Shared, Left;
    var ops := Maker(v, w);
    Reads(w);
    Leaves(v, w);
    Writes(v, w);
    CapturesAgain(v);
    Captures(v);
    Enters(v);
    Then(Left(w), ops[5], []);
    Then(Shared(w, v, [0, 0], 2), ops[4], [ops[5]]);
    Then(Shared(v, v, [0, 0], 2), ops[3], [ops[4], ops[5]]);
    Then(Shared(v, v, [0], 1), ops[2], [ops[3], ops[4], ops[5]]);
    Then(Entered(v), ops[1], [ops[2], ops[3], ops[4], ops[5]]);
    Then(Cells.Start<V>(), ops[0], [ops[1], ops[2], ops[3], ops[4], ops[5]]);
  }
}

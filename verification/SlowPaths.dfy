/**
 Arithmetic and comparisons on operands of any type. The call for operands that are not numbers
 is reached exactly when there is one, with everything as it was, and control comes back from it
 past the fast path, for a comparison by way of the verdict it returns.
 */
module SlowPaths {
  import opened Words
  import opened Mips
  import opened Script
  import opened Target
  import opened Moves
  import opened ArithCode
  import opened ArithOps
  import opened BranchCode
  import opened Branch
  import opened ScriptRun
  import opened Frame
  import opened Bytecode
  import opened Simulate
  import opened SimulateGo

  /** Both operands of an instruction are numbers. */
  predicate Numbers(f: Frame, st: VM, b: LOperand, c: LOperand)
    requires StateOk(f, st) && OperandIn(f, b) && OperandIn(f, c)
  {
    TagOf(f, st, b) == LUA_TNUMBER && TagOf(f, st, c) == LUA_TNUMBER
  }

  /** Both operands read the same in y as in x. */
  predicate OperandsKept(f: Frame, b: LOperand, c: LOperand, x: Data, y: Data)
    requires OperandIn(f, b) && OperandIn(f, c)
  {
    var s, u := LoperandToOperand(f, b), LoperandToOperand(f, c);
    Val(y, s.value) == Val(x, s.value) && Val(y, s.tag) == Val(x, s.tag) && Val(y, u.value) == Val(x, u.value) && Val(y, u.tag) == Val(x, u.tag)
  }

  lemma KeptByState(f: Frame, lo: int, x: Data, y: Data, st: VM, b: LOperand, c: LOperand)
    requires Represents(f, lo, x, st) && Represents(f, lo, y, st) && OperandIn(f, b) && OperandIn(f, c)
    ensures OperandsKept(f, b, c, x, y)
  {
    hide Represents, Val;
    OperandReads(f, lo, x, st, b, 1, 3);
    OperandReads(f, lo, y, st, b, 1, 3);
    OperandReads(f, lo, x, st, c, 1, 3);
    OperandReads(f, lo, y, st, c, 1, 3);
  }

  // ----- arithmetic -----

  /** Where the fast path of an arithmetic script starts: its label, its words and one more label are the end. */
  function BopFast(f: Frame, op: Bop, a: nat, b: LOperand, c: LOperand, slow: seq<Instr>): int
    requires BopReady(f, op, a, b, c)
  {
    |BopScript(f, op, a, b, c, slow)| - |BopWords(f, op, a, b, c)| - 2
  }

  /** The slow words are right before the three events of a jump and the fast path. */
  function BopSlow(f: Frame, op: Bop, a: nat, b: LOperand, c: LOperand, slow: seq<Instr>): int
    requires BopReady(f, op, a, b, c)
  {
    BopFast(f, op, a, b, c, slow) - 3 - |slow|
  }

  lemma BopPlaces(s: seq<Ev>, k: nat, f: Frame, op: Bop, a: nat, b: LOperand, c: LOperand, slow: seq<Instr>)
    requires BopReady(f, op, a, b, c) && |f.t.temps| > 1 && Has(s, k, BopScript(f, op, a, b, c, slow))
    ensures var test := TagTest(f.t, LoperandToOperand(f, b), LoperandToOperand(f, c));
            BopSlow(f, op, a, b, c, slow) == |test| && BopFast(f, op, a, b, c, slow) == |test| + |SlowPart(slow)|
    ensures var at, fast, ws := k + BopSlow(f, op, a, b, c, slow), k + BopFast(f, op, a, b, c, slow), BopWords(f, op, a, b, c);
            && Has(s, at, Emits(slow)) && Has(s, at + |slow|, ForkScript(JUMP, NEXT1))
            && Has(s, at + |slow|, ForkScript(JUMP, NEXT1) + ([LabelLocal(0)] + Emits(ws)) + [LabelLocal(1)])
            && Has(s, fast, [LabelLocal(0)] + Emits(ws))
  {
    hide TagTest, BopWords, ReleaseCode, BopScript;
    BopParts(s, k, f, op, a, b, c, slow);
    var ws := BopWords(f, op, a, b, c);
    var test := TagTest(f.t, LoperandToOperand(f, b), LoperandToOperand(f, c));
    var at, jump := k + |test|, ForkScript(JUMP, NEXT1);
    BopWhole(f, op, a, b, c, slow);
    HasThree(s, k, test, SlowPart(slow), Tail(f.t, ws));
    HasSplit(s, at, Emits(slow), jump);
    NoReload(f.t);
    var fast := at + |SlowPart(slow)|;
    HasSplit(s, fast, [LabelLocal(0)] + Emits(ws) + [LabelLocal(1)], Emits(ReleaseCode(f.t, 1)));
    HasSplit(s, fast, [LabelLocal(0)] + Emits(ws), [LabelLocal(1)]);
    HasJoin(s, at + |slow|, jump, [LabelLocal(0)] + Emits(ws) + [LabelLocal(1)]);
    assert jump + ([LabelLocal(0)] + Emits(ws) + [LabelLocal(1)]) == jump + ([LabelLocal(0)] + Emits(ws)) + [LabelLocal(1)];
  }

  lemma BopWhole(f: Frame, op: Bop, a: nat, b: LOperand, c: LOperand, slow: seq<Instr>)
    requires BopReady(f, op, a, b, c)
    ensures BopScript(f, op, a, b, c, slow) ==
            TagTest(f.t, LoperandToOperand(f, b), LoperandToOperand(f, c)) + SlowPart(slow) + Tail(f.t, BopWords(f, op, a, b, c))
  {
    hide TagTest, BopOpCode, MoveCode, ReleaseCode;
  }

  lemma HasJoin(s: seq<Ev>, k: nat, a: seq<Ev>, b: seq<Ev>)
    requires Has(s, k, a) && Has(s, k + |a|, b)
    ensures Has(s, k, a + b)
  {
    assert s[k..k + |a + b|] == s[k..k + |a|] + s[k + |a|..k + |a| + |b|];
  }

  /**
   In any linked script that holds it, an arithmetic instruction gets to its fast path if both
   operands are numbers, and to the first of its slow words if one is not, with every local and
   both operands as they were.
   */
  lemma BopDispatches(s: seq<Ev>, k: nat, f: Frame, lo: int, x: Data, st: VM, op: Bop, a: nat, b: LOperand, c: LOperand, slow: seq<Instr>) returns (y: Data)
    requires Linkable(s) && Clean(s, k) && Represents(f, lo, x, st) && BopReady(f, op, a, b, c)
    requires Has(s, k, BopScript(f, op, a, b, c, slow))
    ensures var at, fast := k + BopSlow(f, op, a, b, c, slow), k + BopFast(f, op, a, b, c, slow);
            && k <= at && Has(s, at, Emits(slow)) && Clean(s, at) && Has(s, fast, [LabelLocal(0)] + Emits(BopWords(f, op, a, b, c)))
            && Go(s, k, x, if Numbers(f, st, b, c) then fast else at, y)
    ensures Represents(f, lo, y, st) && OperandsKept(f, b, c, x, y)
  {
    hide ExecSeq, Linkable, Go, TagTest, BopScript, BopWords, Represents, FrameOk, Sim, Usable, Val, Has, SlowPart, BopSlow, BopFast, OperandsKept;
    RepresentsShape(f, lo, x, st);
    BopParts(s, k, f, op, a, b, c, slow);
    BopPlaces(s, k, f, op, a, b, c, slow);
    OperandReads(f, lo, x, st, b, 1, 3);
    OperandReads(f, lo, x, st, c, 1, 3);
    y := TagTestDecides(s, k, f, lo, x, LoperandToOperand(f, b), LoperandToOperand(f, c), SlowPart(slow));
    RelSim(f, lo, x, y, st);
    KeptByState(f, lo, x, y, st, b, c);
  }

  /** Once the slow words are through, control jumps past the fast path to the end and nothing changes. */
  lemma BopRejoins(s: seq<Ev>, k: nat, f: Frame, op: Bop, a: nat, b: LOperand, c: LOperand, slow: seq<Instr>, z: Data)
    requires Linkable(s) && BopReady(f, op, a, b, c) && |f.t.temps| > 1 && Has(s, k, BopScript(f, op, a, b, c, slow))
    requires Clean(s, k + BopSlow(f, op, a, b, c, slow)) && k + BopSlow(f, op, a, b, c, slow) >= 0
    ensures Go(s, k + BopSlow(f, op, a, b, c, slow) + |slow|, z, k + |BopScript(f, op, a, b, c, slow)|, z)
  {
    hide Linkable, Go, TagTest, BopWords, BopScript, Has, IsTarget, ForkScript, ReleaseCode;
    BopPlaces(s, k, f, op, a, b, c, slow);
    var ws := BopWords(f, op, a, b, c);
    var j, end := k + BopSlow(f, op, a, b, c, slow) + |slow|, k + |BopScript(f, op, a, b, c, slow)| - 1;
    var mid := [LabelLocal(0)] + Emits(ws);
    EmitsClean(s, j - |slow|, slow);
    UnlabelledWords(ws);
    HasAt(s, j, ForkScript(JUMP, NEXT1) + mid + [LabelLocal(1)], 3 + |mid|) by { JumpLength(); }
    NextIsLabel(s, j, JUMP, 1, mid);
    JumpGoes(s, j, NEXT1, end, z);
    GoLabel(s, end, z);
    GoTrans(s, j, z, end, z, end + 1, z);
  }

  lemma JumpLength()
    ensures |ForkScript(JUMP, NEXT1)| == 3
  {
  }

  lemma UnlabelledWords(ws: seq<Instr>)
    ensures Unlabelled([LabelLocal(0)] + Emits(ws), 1)
  {
    UnlabelledEmits(ws, 1);
  }

  lemma EmitsClean(s: seq<Ev>, k: nat, ws: seq<Instr>)
    requires Clean(s, k) && Has(s, k, Emits(ws))
    ensures Clean(s, k + |ws|)
  {
    if ws != [] {
      HasAt(s, k, Emits(ws), |ws| - 1);
    }
  }

  // ----- comparisons -----

  function CmpFast(f: Frame, cmp: Cmp, pred: bool, b: LOperand, c: LOperand, line: nat, slow: seq<Instr>): int
    requires CmpReady(f, cmp, b, c)
  {
    |CmpScript(f, cmp, pred, b, c, line, slow)| - |CmpFork(f.t, 1, cmp, pred, LoperandToOperand(f, b).value, LoperandToOperand(f, c).value).pre| - 5
  }

  function CmpSlowAt(f: Frame, cmp: Cmp, pred: bool, b: LOperand, c: LOperand, line: nat, slow: seq<Instr>): int
    requires CmpReady(f, cmp, b, c)
  {
    CmpFast(f, cmp, pred, b, c, line, slow) - |CmpSlow(f.t, pred, line, slow)|
  }

  lemma CmpPlaces(s: seq<Ev>, k: nat, f: Frame, cmp: Cmp, pred: bool, b: LOperand, c: LOperand, line: nat, slow: seq<Instr>)
    requires CmpReady(f, cmp, b, c) && |f.t.temps| > 1 && Has(s, k, CmpScript(f, cmp, pred, b, c, line, slow))
    ensures var test := TagTest(f.t, LoperandToOperand(f, b), LoperandToOperand(f, c));
            && CmpSlowAt(f, cmp, pred, b, c, line, slow) == |test|
            && CmpFast(f, cmp, pred, b, c, line, slow) == |test| + |CmpSlow(f.t, pred, line, slow)|
    ensures var at, fast := k + CmpSlowAt(f, cmp, pred, b, c, line, slow), k + CmpFast(f, cmp, pred, b, c, line, slow);
            var fork := CmpFork(f.t, 1, cmp, pred, LoperandToOperand(f, b).value, LoperandToOperand(f, c).value);
            var back := Verdict(f.t, pred);
            && Has(s, at, Emits(slow)) && Has(s, at + |slow|, ForkScript(back, ToLine(line)))
            && Has(s, at + |slow| + |back.pre| + 3, ForkScript(JUMP, NEXT1) + ([LabelLocal(0)] + ForkScript(fork, ToLine(line))) + [LabelLocal(1)])
            && Has(s, fast, [LabelLocal(0)] + ForkScript(fork, ToLine(line)))
  {
    hide TagTest, ReleaseCode, CmpScript, CmpFork, EquFork, ForkScript, CmpSlow, Has;
    CmpParts(s, k, f, cmp, pred, b, c, line, slow);
    var fork := CmpFork(f.t, 1, cmp, pred, LoperandToOperand(f, b).value, LoperandToOperand(f, c).value);
    var test := TagTest(f.t, LoperandToOperand(f, b), LoperandToOperand(f, c));
    ForkLength(fork, ToLine(line));
    var fast := k + |test| + |CmpSlow(f.t, pred, line, slow)|;
    HasThree(s, k, test, CmpSlow(f.t, pred, line, slow), [LabelLocal(0)]);
    HasJoin(s, fast, [LabelLocal(0)], ForkScript(fork, ToLine(line)));
    SlowPlaces(s, k + |test|, f.t, pred, line, slow, [LabelLocal(0)] + ForkScript(fork, ToLine(line)));
  }

  /** The slow part of a comparison in pieces, with what is between it and the last label. */
  lemma SlowPlaces(s: seq<Ev>, at: nat, t: Target, pred: bool, line: nat, slow: seq<Instr>, mid: seq<Ev>)
    requires |t.temps| > 0 && Has(s, at, CmpSlow(t, pred, line, slow))
    requires Has(s, at + |CmpSlow(t, pred, line, slow)|, mid) && Has(s, at + |CmpSlow(t, pred, line, slow)| + |mid|, [LabelLocal(1)])
    ensures var back := Verdict(t, pred);
            && Has(s, at, Emits(slow)) && Has(s, at + |slow|, ForkScript(back, ToLine(line)))
            && Has(s, at + |slow| + |back.pre| + 3, ForkScript(JUMP, NEXT1) + mid + [LabelLocal(1)])
  {
    hide EquFork, ForkScript, Has;
    var back := Verdict(t, pred);
    var bs, js := ForkScript(back, ToLine(line)), ForkScript(JUMP, NEXT1);
    ForkLength(back, ToLine(line));
    HasThree(s, at, Emits(slow), bs, js);
    HasJoin(s, at + |slow| + |bs|, js, mid);
    HasJoin(s, at + |slow| + |bs|, js + mid, [LabelLocal(1)]);
  }

  /** A comparison likewise: straight to its branch on numbers, else to its slow words with nothing changed. */
  lemma CmpDispatches(s: seq<Ev>, k: nat, f: Frame, lo: int, x: Data, st: VM, cmp: Cmp, pred: bool, b: LOperand, c: LOperand, line: nat, slow: seq<Instr>) returns (y: Data)
    requires Linkable(s) && Clean(s, k) && Represents(f, lo, x, st) && CmpReady(f, cmp, b, c)
    requires Has(s, k, CmpScript(f, cmp, pred, b, c, line, slow))
    ensures var at, fast := k + CmpSlowAt(f, cmp, pred, b, c, line, slow), k + CmpFast(f, cmp, pred, b, c, line, slow);
            var fork := CmpFork(f.t, 1, cmp, pred, LoperandToOperand(f, b).value, LoperandToOperand(f, c).value);
            && k <= at && Has(s, at, Emits(slow)) && Clean(s, at) && Has(s, fast, [LabelLocal(0)] + ForkScript(fork, ToLine(line)))
            && Go(s, k, x, if Numbers(f, st, b, c) then fast else at, y)
    ensures Represents(f, lo, y, st) && OperandsKept(f, b, c, x, y)
  {
    hide ExecSeq, Linkable, Go, TagTest, CmpScript, CmpFork, Represents, FrameOk, Sim, Usable, Val, Has, CmpSlow, CmpSlowAt, CmpFast, OperandsKept, ForkScript;
    RepresentsShape(f, lo, x, st);
    CmpParts(s, k, f, cmp, pred, b, c, line, slow);
    CmpPlaces(s, k, f, cmp, pred, b, c, line, slow);
    OperandReads(f, lo, x, st, b, 1, 3);
    OperandReads(f, lo, x, st, c, 1, 3);
    y := TagTestDecides(s, k, f, lo, x, LoperandToOperand(f, b), LoperandToOperand(f, c), CmpSlow(f.t, pred, line, slow));
    RelSim(f, lo, x, y, st);
    KeptByState(f, lo, x, y, st, b, c);
  }

  /** A register compared with a verdict: taken if and only if they are equal, and nothing changes. */
  lemma VerdictDecides(f: Frame, lo: int, pred: bool, z: Data)
    requires FrameOk(f, lo, z)
    ensures Decides(f.t, 1, lo, Verdict(f.t, pred), R(z, TempAt(f.t, 0)) == (if pred then 0 else 1), z)
  {
    hide EquMatched, Decides, TempAt, Spared, Sim;
    var u := SubZero(Imm(if pred then 0 else 1));
    TagComparable(f, lo, z, u);
    TempOrdinary(f.t, 0);
    EquDecides(f.t, 1, lo, OpReg(TempAt(f.t, 0)), u, true, z);
  }

  /**
   With the verdict of the call, whether the comparison holds, in the temporary, control skips
   to line if and only if that is not what pred asks, as Lua does for every comparison and pred.
   */
  lemma VerdictGoes(s: seq<Ev>, k: nat, f: Frame, lo: int, st: VM, cmp: Cmp, pred: bool, b: LOperand, c: LOperand, line: nat, slow: seq<Instr>, j: nat, holds: bool, z: Data) returns (y: Data)
    requires Linkable(s) && Represents(f, lo, z, st) && CmpReady(f, cmp, b, c) && Has(s, k, CmpScript(f, cmp, pred, b, c, line, slow))
    requires k + CmpSlowAt(f, cmp, pred, b, c, line, slow) >= 0 && Clean(s, k + CmpSlowAt(f, cmp, pred, b, c, line, slow))
    requires j <= |s| && Pos(s, j) == JumpTable(s, line) && R(z, TempAt(f.t, 0)) == if holds then 1 else 0
    ensures Go(s, k + CmpSlowAt(f, cmp, pred, b, c, line, slow) + |slow|, z,
               if holds != pred then j else k + |CmpScript(f, cmp, pred, b, c, line, slow)|, y)
    ensures Represents(f, lo, y, st)
  {
    hide Linkable, Go, TagTest, CmpScript, CmpFork, Has, ForkScript, ReleaseCode, Verdict, Represents, FrameOk, Sim, Exec, ExecSeq, Plain, Taken, Pos, JumpTable, CmpSlow, TempAt;
    RepresentsShape(f, lo, z, st);
    CmpPlaces(s, k, f, cmp, pred, b, c, line, slow);
    var fork := CmpFork(f.t, 1, cmp, pred, LoperandToOperand(f, b).value, LoperandToOperand(f, c).value);
    var back := Verdict(f.t, pred);
    var i := k + CmpSlowAt(f, cmp, pred, b, c, line, slow) + |slow|;
    var i1, end := i + |back.pre| + 3, k + |CmpScript(f, cmp, pred, b, c, line, slow)|;
    EmitsClean(s, i - |slow|, slow);
    VerdictDecides(f, lo, pred, z);
    GoFork(s, i, back, ToLine(line), j, z);
    y := Exec(back.slot, ExecSeq(back.pre, z));
    SimWeaken(f.t, 1, lo, z, y);
    RelSim(f, lo, z, y, st);
    if holds == pred {
      CmpTail(s, i1, fork, line, end, y) by { CmpEnd(f, cmp, pred, b, c, line, slow); }
      GoTrans(s, i, z, i1, y, end, y);
    }
  }

  lemma CmpEnd(f: Frame, cmp: Cmp, pred: bool, b: LOperand, c: LOperand, line: nat, slow: seq<Instr>)
    requires CmpReady(f, cmp, b, c)
    ensures var fork := CmpFork(f.t, 1, cmp, pred, LoperandToOperand(f, b).value, LoperandToOperand(f, c).value);
            |CmpScript(f, cmp, pred, b, c, line, slow)| ==
            CmpSlowAt(f, cmp, pred, b, c, line, slow) + |slow| + |Verdict(f.t, pred).pre| + 3 + (3 + 1 + |fork.pre| + 3) + 1
  {
    hide CmpScript, CmpFork;
    ForkLength(Verdict(f.t, pred), ToLine(line));
    ForkLength(JUMP, NEXT1);
  }

  /** The jump over the direct comparison. */
  lemma CmpTail(s: seq<Ev>, i: nat, fork: Fork, line: nat, end: nat, y: Data)
    requires Linkable(s) && Clean(s, i) && end == i + 3 + 1 + |fork.pre| + 3 + 1
    requires Has(s, i, ForkScript(JUMP, NEXT1) + ([LabelLocal(0)] + ForkScript(fork, ToLine(line))) + [LabelLocal(1)])
    ensures Go(s, i, y, end, y)
  {
    hide Linkable, Go, Has, ForkScript, IsTarget;
    var mid := [LabelLocal(0)] + ForkScript(fork, ToLine(line));
    ForkLength(JUMP, NEXT1);
    ForkLength(fork, ToLine(line));
    UnlabelledFork(fork, ToLine(line), 1);
    HasAt(s, i, ForkScript(JUMP, NEXT1) + mid + [LabelLocal(1)], 3 + |mid|);
    NextIsLabel(s, i, JUMP, 1, mid);
    HasThree(s, i, ForkScript(JUMP, NEXT1), mid, [LabelLocal(1)]);
    JumpGoes(s, i, NEXT1, end - 1, y);
    GoLabel(s, end - 1, y);
    GoTrans(s, i, y, end - 1, y, end, y);
  }
}

/**
 Whole functions: the script of a bytecode program, and the simulation theorem. Running the
 linked code from the jump-table entry of one line reaches the entry of the next line that
 the VM would execute, with every local equal.
 */
module Program {
  import opened Words
  import opened Mips
  import opened Script
  import opened Target
  import opened Moves
  import opened ArithCode
  import opened ArithOps
  import opened BranchCode
  import opened Branch
  import opened ScriptRun
  import opened Frame
  import opened Bytecode
  import opened Simulate
  import opened SimulateGo

  /** A compilation: frame, bytecode, the words of each coercion call, and the words before line 0. */
  datatype Unit = Unit(f: Frame, code: seq<VInstr>, slow: seq<seq<Instr>>, header: seq<Instr>)

  predicate LineOk(u: Unit, line: int) {
    0 <= line < |u.code|
  }

  /** The lowering takes this instruction, and it does not leave the function. */
  predicate InstrReady(u: Unit, i: nat)
    requires i < |u.code|
  {
    var f := u.f;
    |f.t.temps| >= 3 &&
    match u.code[i]
    case MOVE(a, b) => a < f.nrLocals && b < f.nrLocals
    case LOADK(a, k) => a < f.nrLocals && k < |f.consts|
    case ARITH(op, a, b, c) => BopReady(f, op, a, b, c)
    case JMP(sbx) => LineOk(u, i + 1 + sbx)
    case COMPARE(cmp, pred, b, c) => CmpReady(f, cmp, b, c) && LineOk(u, i + 2)
    case FORPREP(a, sbx) => ForReady(f, BSUB, a) && LineOk(u, i + 1 + sbx)
    case FORLOOP(a, sbx) => ForReady(f, BADD, a) && LineOk(u, i + 1 + sbx)
    case OTHER(_) => true
  }

  predicate UnitReady(u: Unit) {
    && |u.slow| == |u.code|
    && forall i :: 0 <= i < |u.code| ==> InstrReady(u, i)
  }

  function InstrScript(u: Unit, i: nat): seq<Ev>
    requires i < |u.code| && |u.slow| == |u.code| && InstrReady(u, i)
  {
    var f, slow := u.f, u.slow[i];
    match u.code[i]
    case MOVE(a, b) => Emits(AssignCode(f.t, VregToOperand(f, a, false), VregToOperand(f, b, false)))
    case LOADK(a, k) => Emits(AssignCode(f.t, VregToOperand(f, a, false), ConstToOperand(f, k)))
    case ARITH(op, a, b, c) => BopScript(f, op, a, b, c, slow)
    case JMP(sbx) => ForkScript(JUMP, ToLine(i + 1 + sbx))
    case COMPARE(cmp, pred, b, c) => CmpScript(f, cmp, pred, b, c, i + 2, slow)
    case FORPREP(a, sbx) => BopScript(f, BSUB, a, Local(a), Local(a + 2), slow) + ForkScript(JUMP, ToLine(i + 1 + sbx))
    case FORLOOP(a, sbx) => ForLoopScript(f, a, i + 1 + sbx, slow)
    case OTHER(words) => Emits(words)
  }

  /** Everything emitted before line n is labelled. */
  function Prefix(u: Unit, n: nat): seq<Ev>
    requires UnitReady(u) && n <= |u.code|
  {
    if n == 0 then Emits(u.header)
    else Prefix(u, n - 1) + [Ev.LabelPc(n - 1)] + InstrScript(u, n - 1)
  }

  function Whole(u: Unit): seq<Ev>
    requires UnitReady(u)
  {
    Prefix(u, |u.code|)
  }

  // ----- the script can be linked, and its jump table is right -----

  predicate Unlined(s: seq<Ev>) {
    forall i :: 0 <= i < |s| ==> !s[i].LabelPc?
  }

  /** A stretch that can stand anywhere in a script. */
  predicate Stretch(s: seq<Ev>) {
    Marked(s) && LocalsClosed(s) && Unlined(s)
  }

  lemma StretchJoin(a: seq<Ev>, b: seq<Ev>)
    requires Stretch(a) && Stretch(b)
    ensures Stretch(a + b)
  {
    MarkedConcat(a, b);
    ClosedConcat(a, b);
  }

  lemma StretchWords(ws: seq<Instr>)
    ensures Stretch(Emits(ws))
  {
  }

  lemma StretchToLine(f: Fork, line: nat)
    requires IsBranch(f.br)
    ensures Stretch(ForkScript(f, ToLine(line)))
  {
    MarkedFork(f, ToLine(line));
  }

  /** A forward local branch closed by its label further on. */
  lemma StretchClosed(f: Fork, l: nat, mid: seq<Ev>)
    requires IsBranch(f.br) && Stretch(mid)
    ensures Stretch(ForkScript(f, ToLocal(l, true)) + mid + [LabelLocal(l)])
  {
    var fs := ForkScript(f, ToLocal(l, true));
    var s := fs + mid + [LabelLocal(l)];
    MarkedFork(f, ToLocal(l, true));
    MarkedConcat(fs, mid);
    MarkedConcat(fs + mid, [LabelLocal(l)]);
    forall k | 0 <= k < |s| && s[k].BranchLocal?
      ensures s[k].isNext && LabelLater(s, k, s[k].local)
    {
      if k < |fs| {
        assert s[k] == fs[k] && k == |f.pre|;
        assert s[|s| - 1] == LabelLocal(l);
      } else {
        var h := k - |fs|;
        assert mid[h] == s[k];
        var j :| h < j < |mid| && mid[j] == LabelLocal(mid[h].local);
        assert s[j + |fs|] == LabelLocal(s[k].local);
      }
    }
  }

  function Crossed(f: Fork, slow: seq<Ev>, fast: seq<Ev>): seq<Ev> {
    ForkScript(f, NEXT0) + (slow + ForkScript(JUMP, NEXT1)) + [LabelLocal(0)] + fast + [LabelLocal(1)]
  }

  lemma CrossedMarked(f: Fork, slow: seq<Ev>, fast: seq<Ev>)
    requires IsBranch(f.br) && Stretch(slow) && Stretch(fast)
    ensures Marked(Crossed(f, slow, fast))
  {
    hide Marked, ForkScript;
    var fs, js := ForkScript(f, NEXT0), ForkScript(JUMP, NEXT1);
    MarkedFork(f, NEXT0);
    MarkedFork(JUMP, NEXT1);
    MarkedConcat(slow, js);
    MarkedConcat(fs, slow + js);
    MarkedLabel(0);
    MarkedLabel(1);
    MarkedConcat(fs + (slow + js), [LabelLocal(0)]);
    MarkedConcat(fs + (slow + js) + [LabelLocal(0)], fast);
    MarkedConcat(fs + (slow + js) + [LabelLocal(0)] + fast, [LabelLocal(1)]);
  }

  lemma MarkedLabel(l: nat)
    ensures Marked([LabelLocal(l)])
  {
  }

  lemma UnlinedJoin(a: seq<Ev>, b: seq<Ev>)
    requires Unlined(a) && Unlined(b)
    ensures Unlined(a + b)
  {
  }

  lemma CrossedUnlined(f: Fork, slow: seq<Ev>, fast: seq<Ev>)
    requires Stretch(slow) && Stretch(fast)
    ensures Unlined(Crossed(f, slow, fast))
  {
    hide Marked, LocalsClosed;
    var fs, js := ForkScript(f, NEXT0), ForkScript(JUMP, NEXT1);
    UnlinedJoin(slow, js);
    UnlinedJoin(fs, slow + js);
    UnlinedJoin(fs + (slow + js), [LabelLocal(0)]);
    UnlinedJoin(fs + (slow + js) + [LabelLocal(0)], fast);
  }

  /** Where each part of a crossed stretch starts. */
  lemma CrossedAt(f: Fork, slow: seq<Ev>, fast: seq<Ev>, k: nat)
    requires k < |Crossed(f, slow, fast)|
    ensures var s := Crossed(f, slow, fast);
            var m0 := |f.pre| + 3;
            var m1 := m0 + |slow|;
            var z := m1 + 3;
            && |s| == z + |fast| + 2 && s[z] == LabelLocal(0) && s[|s| - 1] == LabelLocal(1)
            && (k < m0 ==> s[k].BranchLocal? ==> s[k] == MarkOf(NEXT0))
            && (m0 <= k < m1 ==> s[k] == slow[k - m0])
            && (m1 <= k < z ==> s[k].BranchLocal? ==> s[k] == MarkOf(NEXT1))
            && (z < k <= z + |fast| ==> s[k] == fast[k - z - 1])
  {
    ForkLength(f, NEXT0);
    ForkLength(JUMP, NEXT1);
  }

  /** Two crossing forward branches: out of the test to 0, around the fast path to 1. */
  lemma StretchCrossed(f: Fork, slow: seq<Ev>, fast: seq<Ev>)
    requires IsBranch(f.br) && Stretch(slow) && Stretch(fast)
    ensures Stretch(Crossed(f, slow, fast))
  {
    hide Marked, Unlined, Crossed;
    CrossedMarked(f, slow, fast);
    CrossedUnlined(f, slow, fast);
    var s := Crossed(f, slow, fast);
    var m0 := |f.pre| + 3;
    var m1 := m0 + |slow|;
    var z := m1 + 3;
    forall k | 0 <= k < |s| && s[k].BranchLocal?
      ensures s[k].isNext && LabelLater(s, k, s[k].local)
    {
      CrossedAt(f, slow, fast, k);
      if m0 <= k < m1 {
        var j :| k - m0 < j < |slow| && slow[j] == LabelLocal(slow[k - m0].local);
        CrossedAt(f, slow, fast, m0 + j);
      } else if z < k <= z + |fast| {
        var j :| k - z - 1 < j < |fast| && fast[j] == LabelLocal(fast[k - z - 1].local);
        CrossedAt(f, slow, fast, z + 1 + j);
      }
    }
  }

  // ----- every instruction emits a stretch -----

  lemma CmpIsBranch(t: Target, T: nat, cmp: Cmp, pred: bool, s: Operand, u: Operand)
    requires |t.temps| > 0 && !s.Imm? && CmpAccepts(cmp, s, u)
    ensures IsBranch(CmpFork(t, T, cmp, pred, s, u).br)
  {
    hide IneqPre, EquMatched, AddCode;
    if cmp.CEQ? {
      EquFits(t, T, s, SubZero(u), !pred);
    }
  }

  lemma EquFits(t: Target, T: nat, s: Operand, u: Operand, p: bool)
    requires |t.temps| > 0 && EquAccepts(s, u)
    ensures IsBranch(EquFork(t, T, s, u, p).br)
  {
  }

  /** The tag test in front of any crossed stretch is words and its fork. */
  lemma TestedStretch(t: Target, b: VregOperand, c: VregOperand, slow: seq<Ev>, fast: seq<Ev>, end: seq<Instr>)
    requires |t.temps| > 0 && PlainAccepts(b.tag, c.tag) && Stretch(slow) && Stretch(fast)
    ensures Stretch(TagTest(t, b, c) + (slow + ForkScript(JUMP, NEXT1)) + [LabelLocal(0)] + fast + [LabelLocal(1)] + Emits(end))
  {
    hide Stretch, OrCode, EquFork;
    var r := OpReg(TempAt(t, 0));
    var ws := AcquireCode(t, 0) + OrCode(t, 1, r, b.tag, c.tag);
    var fork := EquFork(t, 1, r, OpReg(ZERO), true);
    EquFits(t, 1, r, OpReg(ZERO), true);
    StretchCrossed(fork, slow, fast);
    StretchWords(ws);
    StretchWords(end);
    StretchJoin(Emits(ws), Crossed(fork, slow, fast));
    StretchJoin(Emits(ws) + Crossed(fork, slow, fast), Emits(end));
    assert TagTest(t, b, c) + (slow + ForkScript(JUMP, NEXT1)) + [LabelLocal(0)] + fast + [LabelLocal(1)] + Emits(end)
        == Emits(ws) + Crossed(fork, slow, fast) + Emits(end);
  }

  lemma BopStretch(f: Frame, op: Bop, a: nat, b: LOperand, c: LOperand, slow: seq<Instr>)
    requires BopReady(f, op, a, b, c)
    ensures Stretch(BopScript(f, op, a, b, c, slow))
  {
    hide Stretch, TagTest, BopOpCode, MoveCode, ReleaseCode;
    var ws := BopWords(f, op, a, b, c);
    StretchWords(slow);
    StretchWords(ws);
    TestedStretch(f.t, LoperandToOperand(f, b), LoperandToOperand(f, c), Emits(slow), Emits(ws), ReleaseCode(f.t, 1));
  }

  lemma CmpStretch(f: Frame, cmp: Cmp, pred: bool, b: LOperand, c: LOperand, line: nat, slow: seq<Instr>)
    requires CmpReady(f, cmp, b, c)
    ensures Stretch(CmpScript(f, cmp, pred, b, c, line, slow))
  {
    hide Stretch, TagTest, CmpFork, EquFork, ReleaseCode;
    var os, ou := LoperandToOperand(f, b), LoperandToOperand(f, c);
    var back := Verdict(f.t, pred);
    var fork := CmpFork(f.t, 1, cmp, pred, os.value, ou.value);
    EquFits(f.t, 1, OpReg(TempAt(f.t, 0)), SubZero(Imm(if pred then 0 else 1)), true);
    CmpIsBranch(f.t, 1, cmp, pred, os.value, ou.value);
    StretchWords(slow);
    StretchToLine(back, line);
    StretchToLine(fork, line);
    StretchJoin(Emits(slow), ForkScript(back, ToLine(line)));
    TestedStretch(f.t, os, ou, Emits(slow) + ForkScript(back, ToLine(line)), ForkScript(fork, ToLine(line)), ReleaseCode(f.t, 1));
  }

  lemma ForLoopStretch(f: Frame, a: nat, line: nat, slow: seq<Instr>)
    requires ForReady(f, BADD, a)
    ensures Stretch(ForLoopScript(f, a, line, slow))
  {
    hide Stretch, BopScript, AssignCode, CmpFork, ForTest, ForkScript;
    var ws := AssignCode(f.t, VregToOperand(f, a + 3, false), VregToOperand(f, a, false));
    ForTestIsCmp(f, a);
    CmpIsBranch(f.t, 0, CLT, true, LoperandToOperand(f, Local(a)).value, LoperandToOperand(f, Local(a + 1)).value);
    BopStretch(f, BADD, a, Local(a), Local(a + 2), slow);
    StretchWords(ws);
    StretchToLine(JUMP, line);
    StretchClosed(ForTest(f, a), 0, ForkScript(JUMP, ToLine(line)));
    var bop := BopScript(f, BADD, a, Local(a), Local(a + 2), slow);
    StretchJoin(bop, Emits(ws));
    StretchJoin(bop + Emits(ws), ForkScript(ForTest(f, a), NEXT0) + ForkScript(JUMP, ToLine(line)) + [LabelLocal(0)]);
  }

  lemma InstrStretch(u: Unit, i: nat)
    requires UnitReady(u) && i < |u.code|
    ensures Stretch(InstrScript(u, i))
  {
    hide Stretch, BopScript, CmpScript, ForLoopScript, AssignCode, ForkScript, BopReady, CmpReady, ForReady;
    var f, slow := u.f, u.slow[i];
    assert InstrReady(u, i);
    match u.code[i]
    case MOVE(a, b) => StretchWords(AssignCode(f.t, VregToOperand(f, a, false), VregToOperand(f, b, false)));
    case LOADK(a, k) => StretchWords(AssignCode(f.t, VregToOperand(f, a, false), ConstToOperand(f, k)));
    case ARITH(op, a, b, c) => BopStretch(f, op, a, b, c, slow);
    case JMP(sbx) => StretchToLine(JUMP, i + 1 + sbx);
    case COMPARE(cmp, pred, b, c) => CmpStretch(f, cmp, pred, b, c, i + 2, slow);
    case FORPREP(a, sbx) =>
      ForReadyBop(f, BSUB, a);
      BopStretch(f, BSUB, a, Local(a), Local(a + 2), slow);
      StretchToLine(JUMP, i + 1 + sbx);
      StretchJoin(BopScript(f, BSUB, a, Local(a), Local(a + 2), slow), ForkScript(JUMP, ToLine(i + 1 + sbx)));
    case FORLOOP(a, sbx) => ForLoopStretch(f, a, i + 1 + sbx, slow);
    case OTHER(words) => StretchWords(words);
  }

  lemma ForReadyBop(f: Frame, op: Bop, a: nat)
    requires ForReady(f, op, a)
    ensures BopReady(f, op, a, Local(a), Local(a + 2)) && a + 3 < f.nrLocals
  {
  }

  // ----- where each line is -----

  lemma {:induction false} TableSkips(a: seq<Ev>, b: seq<Ev>, line: nat)
    requires Unlined(b)
    ensures JumpTable(a + b, line) == JumpTable(a, line)
    decreases |b|
  {
    if b == [] {
      assert a + b == a;
    } else {
      var n := |b| - 1;
      assert (a + b)[..|a + b| - 1] == a + b[..n];
      TableSkips(a, b[..n], line);
    }
  }

  /** Each part of the script can be linked on its own. */
  lemma {:induction false} PrefixCloses(u: Unit, n: nat)
    requires UnitReady(u) && n <= |u.code|
    ensures Marked(Prefix(u, n)) && LocalsClosed(Prefix(u, n))
    decreases n
  {
    hide InstrScript, Marked, LocalsClosed;
    if n == 0 {
      StretchWords(u.header);
    } else {
      PrefixCloses(u, n - 1);
      InstrStretch(u, n - 1);
      OneLabel(n - 1);
      MarkedConcat(Prefix(u, n - 1), [Ev.LabelPc(n - 1)]);
      ClosedConcat(Prefix(u, n - 1), [Ev.LabelPc(n - 1)]);
      MarkedConcat(Prefix(u, n - 1) + [Ev.LabelPc(n - 1)], InstrScript(u, n - 1));
      ClosedConcat(Prefix(u, n - 1) + [Ev.LabelPc(n - 1)], InstrScript(u, n - 1));
    }
  }

  lemma OneLabel(line: nat)
    ensures Marked([Ev.LabelPc(line)]) && LocalsClosed([Ev.LabelPc(line)])
  {
  }

  /** The jump table holds, for each line labelled, the words emitted before it. */
  lemma {:induction false} LineEntry(u: Unit, n: nat, line: nat)
    requires UnitReady(u) && line < n <= |u.code|
    ensures JumpTable(Prefix(u, n), line) == |Code(Prefix(u, line))|
    decreases n
  {
    hide InstrScript, Marked, LocalsClosed, JumpTable, Code;
    InstrStretch(u, n - 1);
    var p := Prefix(u, n - 1);
    TableSkips(p + [Ev.LabelPc(n - 1)], InstrScript(u, n - 1), line);
    Snoc(p, Ev.LabelPc(n - 1));
    if line < n - 1 {
      LineEntry(u, n - 1, line);
    }
  }

  lemma {:induction false} PrefixGrows(u: Unit, m: nat, n: nat)
    requires UnitReady(u) && m <= n <= |u.code|
    ensures Prefix(u, m) <= Prefix(u, n)
    decreases n - m
  {
    hide InstrScript;
    if m < n {
      PrefixGrows(u, m + 1, n);
    }
  }

  /** Event index of the first word of a line. */
  function Entry(u: Unit, line: nat): nat
    requires UnitReady(u) && line <= |u.code|
  {
    |Prefix(u, line)|
  }

  /** A line's label and script stand at its entry, and its entry is what the table says. */
  lemma LineStands(u: Unit, line: nat)
    requires UnitReady(u) && line < |u.code|
    ensures var s, k := Whole(u), Entry(u, line);
            && Has(s, k, [Ev.LabelPc(line)]) && Has(s, k + 1, InstrScript(u, line))
            && Entry(u, line + 1) == k + 1 + |InstrScript(u, line)|
            && Clean(s, k) && Pos(s, k) == JumpTable(s, line)
  {
    hide InstrScript, LocalsClosed, JumpTable, Code;
    var s, k := Whole(u), Entry(u, line);
    PrefixCloses(u, line);
    PrefixGrows(u, line, |u.code|);
    PrefixGrows(u, line + 1, |u.code|);
    LineEntry(u, |u.code|, line);
    assert s[..k] == Prefix(u, line);
    var frag := [Ev.LabelPc(line)] + InstrScript(u, line);
    assert s[..k + |frag|] == Prefix(u, line) + frag;
    assert s[k..k + |frag|] == frag;
    HasSplit(s, k, [Ev.LabelPc(line)], InstrScript(u, line));
  }

  /** Every unit whose branches are in reach links, any of at most 2^15 words among them. */
  lemma UnitLinks(u: Unit)
    requires UnitReady(u)
    ensures Marked(Whole(u)) && Resolvable(Whole(u)) && (Linkable(Whole(u)) <==> Reachable(Whole(u)))
    ensures |Code(Whole(u))| <= 0x8000 ==> Reachable(Whole(u))
  {
    hide Reachable;
    PrefixCloses(u, |u.code|);
    ClosedResolvable(Whole(u));
    if |Code(Whole(u))| <= 0x8000 {
      ShortReachable(Whole(u));
    }
  }

  // ----- forward simulation -----

  /** The operand tags and differences under which compiled code keeps to the VM. */
  predicate StepOk(u: Unit, st: VM)
    requires UnitReady(u)
  {
    var f := u.f;
    && LineOk(u, st.pc) && StateOk(f, st)
    && InstrReady(u, st.pc)
    && match u.code[st.pc]
       case MOVE(_, _) => LineOk(u, st.pc + 1)
       case LOADK(_, _) => LineOk(u, st.pc + 1)
       case ARITH(_, _, b, c) => LineOk(u, st.pc + 1) && TagOf(f, st, b) == LUA_TNUMBER && TagOf(f, st, c) == LUA_TNUMBER
       case JMP(_) => true
       case COMPARE(cmp, pred, b, c) =>
         && TagOf(f, st, b) == LUA_TNUMBER && TagOf(f, st, c) == LUA_TNUMBER
         && CmpSafe(f, cmp, st, b, c)
         && (!cmp.CEQ? && pred ==> ValueOf(f, st, b) != ValueOf(f, st, c))
       case FORPREP(a, _) => st.tag[a] == LUA_TNUMBER && st.tag[a + 2] == LUA_TNUMBER
       case FORLOOP(a, _) =>
         && LineOk(u, st.pc + 1) && st.tag[a] == LUA_TNUMBER && st.tag[a + 2] == LUA_TNUMBER
         && IsWord(BopVal(BADD, st.val[a], st.val[a + 2]) - st.val[a + 1])
       case OTHER(_) => false
  }

  lemma ReadyWellformed(u: Unit, i: nat)
    requires UnitReady(u) && i < |u.code|
    ensures Wellformed(u.f, u.code[i]) && InstrReady(u, i)
  {
    assert InstrReady(u, i);
  }

  /** The state after the line at st.pc, as compiled code computes it. */
  function Next(u: Unit, st: VM): VM
    requires UnitReady(u) && StepOk(u, st)
  {
    ReadyWellformed(u, st.pc);
    JStep(u.f, u.code[st.pc], st)
  }

  lemma NextInRange(u: Unit, st: VM)
    requires UnitReady(u) && StepOk(u, st)
    ensures LineOk(u, Next(u, st).pc) && StateOk(u.f, Next(u, st))
  {
    hide BopReady, CmpReady, ForReady, BopVal, CmpSafe;
    ReadyWellformed(u, st.pc);
  }
}

/** Each bytecode instruction's script, run in linked code, reaches the next line with the next state. */
module SimulateGo {
  import opened Words
  import opened Mips
  import opened Script
  import opened Target
  import opened Moves
  import opened ArithCode
  import opened ArithOps
  import opened BranchCode
  import opened Branch
  import opened ScriptRun
  import opened Frame
  import opened Bytecode
  import opened Simulate

  /** No label numbered l in a stretch. */
  predicate Unlabelled(s: seq<Ev>, l: nat) {
    forall i :: 0 <= i < |s| ==> s[i] != LabelLocal(l)
  }

  lemma UnlabelledEmits(ws: seq<Instr>, l: nat)
    ensures Unlabelled(Emits(ws), l)
  {
  }

  lemma UnlabelledFork(f: Fork, dest: Dest, l: nat)
    ensures Unlabelled(ForkScript(f, dest), l)
  {
  }

  lemma UnlabelledConcat(a: seq<Ev>, b: seq<Ev>, l: nat)
    requires Unlabelled(a, l) && Unlabelled(b, l)
    ensures Unlabelled(a + b, l)
  {
  }

  /** A forward branch whose fork ends one stretch goes to the label after the next. */
  lemma NextIsLabel(s: seq<Ev>, k: nat, f: Fork, l: nat, mid: seq<Ev>)
    requires Has(s, k, ForkScript(f, ToLocal(l, true)) + mid + [LabelLocal(l)])
    requires Unlabelled(mid, l)
    ensures IsNextLabel(s, k + |f.pre|, l, k + |f.pre| + 3 + |mid|)
    ensures IsTarget(s, k + |f.pre|, ToLocal(l, true), k + |f.pre| + 3 + |mid|)
  {
    var frag := ForkScript(f, ToLocal(l, true)) + mid + [LabelLocal(l)];
    var q, j := |f.pre|, |f.pre| + 3 + |mid|;
    HasAt(s, k, frag, j);
    forall i | k + q < i < k + j
      ensures s[i] != LabelLocal(l)
    {
      HasAt(s, k, frag, i - k);
      UnlabelledFork(f, ToLocal(l, true), l);
      assert frag[i - k] == (ForkScript(f, ToLocal(l, true)) + mid)[i - k];
    }
  }

  /** The tag test goes to the fast path if and only if both tags are zero, and else falls into the slow one. */
  lemma TagTestDecides(s: seq<Ev>, k: nat, f: Frame, lo: int, x: Data, b: VregOperand, c: VregOperand, mid: seq<Ev>) returns (y: Data)
    requires Linkable(s) && Clean(s, k) && FrameOk(f, lo, x) && PlainAccepts(b.tag, c.tag)
    requires Has(s, k, TagTest(f.t, b, c) + mid + [LabelLocal(0)]) && Unlabelled(mid, 0)
    requires Usable(f.t, 1, 3, lo, x, b.tag) && Usable(f.t, 1, 3, lo, x, c.tag)
    requires (b.tag.DAddr? ==> b.tag.base == f.t.fp) && (c.tag.DAddr? ==> c.tag.base == f.t.fp)
    ensures var k1 := k + |TagTest(f.t, b, c)|;
            Go(s, k, x, if Val(x, b.tag) == 0 && Val(x, c.tag) == 0 then k1 + |mid| else k1, y) && Clean(s, k1)
    ensures Sim(f.t, 0, lo, x, y)
  {
    hide ExecSeq, Exec, OrCode, Usable, Go, Linkable, EquFork, AcquireCode, Plain, Sim, Taken, Val, TempAt, ForkScript, Has, Unlabelled, IsTarget;
    var t := f.t;
    FrameShape(f, lo, x);
    var r := OpReg(TempAt(t, 0));
    var or := AcquireCode(t, 0) + OrCode(t, 1, r, b.tag, c.tag);
    var fork := EquFork(t, 1, r, OpReg(ZERO), true);
    TagTestParts(s, k, t, b, c, mid);
    var k1 := k + |or|;
    var y1 := ExecSeq(or, x);
    TagOr(f, lo, x, b, c);
    PlainTagOr(t, b, c);
    GoWords(s, k, or, x);
    SimFrame(f, 0, lo, x, y1);
    TagDecides(f, lo, y1);
    y := Exec(fork.slot, ExecSeq(fork.pre, y1));
    GoFork(s, k1, fork, NEXT0, k1 + |fork.pre| + 3 + |mid|, y1);
    SimWeaken(t, 1, lo, y1, y);
    SimTrans(t, 0, lo, x, y1, y);
    GoTrans(s, k, x, k1, y1, if R(y1, r.reg) == 0 then k1 + |fork.pre| + 3 + |mid| else k1 + |fork.pre| + 3, y);
  }

  lemma TagTestParts(s: seq<Ev>, k: nat, t: Target, b: VregOperand, c: VregOperand, mid: seq<Ev>)
    requires |t.temps| > 0 && PlainAccepts(b.tag, c.tag)
    requires Has(s, k, TagTest(t, b, c) + mid + [LabelLocal(0)]) && Unlabelled(mid, 0)
    ensures var r := OpReg(TempAt(t, 0));
            var or := AcquireCode(t, 0) + OrCode(t, 1, r, b.tag, c.tag);
            var fork := EquFork(t, 1, r, OpReg(ZERO), true);
            var k1 := k + |or|;
            && Has(s, k, Emits(or)) && Has(s, k1, ForkScript(fork, NEXT0))
            && IsTarget(s, k1 + |fork.pre|, NEXT0, k1 + |fork.pre| + 3 + |mid|)
            && k + |TagTest(t, b, c)| == k1 + |fork.pre| + 3
  {
    hide OrCode, EquFork, AcquireCode, TempAt, Unlabelled, IsTarget, ForkScript;
    var r := OpReg(TempAt(t, 0));
    var or := AcquireCode(t, 0) + OrCode(t, 1, r, b.tag, c.tag);
    var fork := EquFork(t, 1, r, OpReg(ZERO), true);
    var fs := ForkScript(fork, NEXT0);
    assert TagTest(t, b, c) == Emits(or) + fs;
    var rest := fs + mid + [LabelLocal(0)];
    assert TagTest(t, b, c) + mid + [LabelLocal(0)] == Emits(or) + rest;
    HasSplit(s, k, Emits(or), rest);
    NextIsLabel(s, k + |or|, fork, 0, mid);
    assert rest == fs + (mid + [LabelLocal(0)]);
    HasSplit(s, k + |or|, fs, mid + [LabelLocal(0)]);
    ForkLength(fork, NEXT0);
  }

  lemma PlainTagOr(t: Target, b: VregOperand, c: VregOperand)
    requires |t.temps| > 0 && PlainAccepts(b.tag, c.tag)
    ensures Plain(AcquireCode(t, 0) + OrCode(t, 1, OpReg(TempAt(t, 0)), b.tag, c.tag))
  {
    hide OrCode;
    PlainOr(t, 1, OpReg(TempAt(t, 0)), b.tag, c.tag);
    PlainPieces(t, 0, Imm(0), ZERO, false);
  }

  /** A zero tag register, and no other, takes the branch. */
  lemma TagDecides(f: Frame, lo: int, x: Data)
    requires FrameOk(f, lo, x)
    ensures var fork := EquFork(f.t, 1, OpReg(TempAt(f.t, 0)), OpReg(ZERO), true);
            var x1 := ExecSeq(fork.pre, x);
            && Plain(fork.pre) && IsBranch(fork.br) && !IsControl(fork.slot)
            && Taken(fork.br, x1) == (R(x, TempAt(f.t, 0)) == 0) && Sim(f.t, 1, lo, x, Exec(fork.slot, x1))
  {
    hide ExecSeq, Exec, EquMatched, Plain, TempAt, Spared, Sim;
    var r := OpReg(TempAt(f.t, 0));
    TagComparable(f, lo, x, OpReg(ZERO));
    TempOrdinary(f.t, 0);
    EquDecides(f.t, 1, lo, r, OpReg(ZERO), true, x);
  }

  lemma TagComparable(f: Frame, lo: int, x: Data, u: Operand)
    requires FrameOk(f, lo, x) && (u == OpReg(ZERO) || u.Imm?)
    ensures Comparable(f.t, 1, lo, x, OpReg(TempAt(f.t, 0)), u)
  {
    TagSpared(f.t, 3);
    RoomInRegs(f.t, 1, 3, lo, x);
    SpecialsNotTemps(f.t);
    NonTempSpared(f.t, 1, 3, ZERO);
  }

  lemma HasThree(s: seq<Ev>, k: nat, a: seq<Ev>, b: seq<Ev>, c: seq<Ev>)
    requires Has(s, k, a + b + c)
    ensures Has(s, k, a) && Has(s, k + |a|, b) && Has(s, k + |a| + |b|, c) && Has(s, k, a + b)
  {
    HasSplit(s, k, a + b, c);
    HasSplit(s, k, a, b);
  }

  /** From the fast-path label, through the operation and past the closing label. */
  lemma TailGoes(s: seq<Ev>, k: nat, f: Frame, ws: seq<Instr>, x: Data)
    requires Linkable(s) && |f.t.temps| > 1 && Plain(ws)
    requires Has(s, k, [LabelLocal(0)] + Emits(ws) + [LabelLocal(1)] + Emits(ReleaseCode(f.t, 1)))
    ensures Go(s, k, x, k + |ws| + 2, ExecSeq(ws, x))
    ensures ReleaseCode(f.t, 1) == []
  {
    hide ExecSeq, Linkable, Go, Plain, ReleaseCode;
    NoReload(f.t);
    var y := ExecSeq(ws, x);
    HasSplit(s, k, [LabelLocal(0)] + Emits(ws) + [LabelLocal(1)], Emits(ReleaseCode(f.t, 1)));
    HasThree(s, k, [LabelLocal(0)], Emits(ws), [LabelLocal(1)]);
    HasAt(s, k, [LabelLocal(0)], 0);
    HasAt(s, k + 1 + |ws|, [LabelLocal(1)], 0);
    GoLabel(s, k, x);
    GoWords(s, k + 1, ws, x);
    GoLabel(s, k + 1 + |ws|, y);
    GoTrans(s, k, x, k + 1, x, k + 1 + |ws|, y);
    GoTrans(s, k, x, k + 1 + |ws|, y, k + |ws| + 2, y);
  }

  lemma NoReload(t: Target)
    requires |t.temps| > 1
    ensures ReleaseCode(t, 1) == []
  {
  }

  function SlowPart(slow: seq<Instr>): seq<Ev> {
    Emits(slow) + ForkScript(JUMP, NEXT1)
  }

  function BopWords(f: Frame, op: Bop, a: nat, b: LOperand, c: LOperand): seq<Instr>
    requires BopReady(f, op, a, b, c)
  {
    var d := VregToOperand(f, a, false);
    BopOpCode(f.t, 1, op, d.value, LoperandToOperand(f, b).value, LoperandToOperand(f, c).value)
    + MoveCode(f.t, 1, d.tag, Imm(LUA_TNUMBER))
  }

  function Tail(t: Target, ws: seq<Instr>): seq<Ev>
    requires |t.temps| > 0
  {
    [LabelLocal(0)] + Emits(ws) + [LabelLocal(1)] + Emits(ReleaseCode(t, 1))
  }

  lemma BopParts(s: seq<Ev>, k: nat, f: Frame, op: Bop, a: nat, b: LOperand, c: LOperand, slow: seq<Instr>)
    requires BopReady(f, op, a, b, c) && |f.t.temps| > 1 && Has(s, k, BopScript(f, op, a, b, c, slow))
    ensures var test := TagTest(f.t, LoperandToOperand(f, b), LoperandToOperand(f, c));
            var ws := BopWords(f, op, a, b, c);
            var k1 := k + |test| + |SlowPart(slow)|;
            && Has(s, k, test + SlowPart(slow) + [LabelLocal(0)])
            && Has(s, k1, Tail(f.t, ws))
            && k + |BopScript(f, op, a, b, c, slow)| == k1 + |ws| + 2
            && Clean(s, k1 + |ws| + 2)
    ensures Unlabelled(SlowPart(slow), 0)
  {
    hide TagTest, BopOpCode, MoveCode, ReleaseCode;
    NoReload(f.t);
    var test := TagTest(f.t, LoperandToOperand(f, b), LoperandToOperand(f, c));
    var ws := BopWords(f, op, a, b, c);
    var mid, tail := SlowPart(slow), Tail(f.t, ws);
    assert BopScript(f, op, a, b, c, slow) == test + mid + tail;
    HasThree(s, k, test, mid, tail);
    assert test + mid + tail == test + mid + [LabelLocal(0)] + tail[1..];
    HasSplit(s, k, test + mid + [LabelLocal(0)], tail[1..]);
    HasAt(s, k + |test| + |mid|, tail, |ws| + 1);
    UnlabelledEmits(slow, 0);
    UnlabelledFork(JUMP, NEXT1, 0);
    UnlabelledConcat(Emits(slow), ForkScript(JUMP, NEXT1), 0);
  }

  /** ARITH: on numbers, the script ends with the result in place and control at its end. */
  lemma BopGoes(s: seq<Ev>, k: nat, f: Frame, lo: int, x: Data, st: VM, op: Bop, a: nat, b: LOperand, c: LOperand, slow: seq<Instr>) returns (y: Data)
    requires Linkable(s) && Clean(s, k) && Represents(f, lo, x, st) && BopReady(f, op, a, b, c)
    requires Has(s, k, BopScript(f, op, a, b, c, slow))
    requires TagOf(f, st, b) == LUA_TNUMBER && TagOf(f, st, c) == LUA_TNUMBER
    ensures Go(s, k, x, k + |BopScript(f, op, a, b, c, slow)|, y) && Clean(s, k + |BopScript(f, op, a, b, c, slow)|)
    ensures Represents(f, lo, y, SetLocal(st, a, BopVal(op, ValueOf(f, st, b), ValueOf(f, st, c)), LUA_TNUMBER))
  {
    hide ExecSeq, Linkable, Go, TagTest, BopScript, BopOpCode, MoveCode, ReleaseCode, Represents, FrameOk, Sim, Plain, Usable, Val, BopVal, Has, SlowPart;
    var os, ou := LoperandToOperand(f, b), LoperandToOperand(f, c);
    RepresentsShape(f, lo, x, st);
    BopParts(s, k, f, op, a, b, c, slow);
    var ws := BopWords(f, op, a, b, c);
    var k1 := k + |TagTest(f.t, os, ou)| + |SlowPart(slow)|;
    OperandReads(f, lo, x, st, b, 1, 3);
    OperandReads(f, lo, x, st, c, 1, 3);
    var y1 := TagTestDecides(s, k, f, lo, x, os, ou, SlowPart(slow));
    RelSim(f, lo, x, y1, st);
    FastPath(f, lo, y1, st, op, a, b, c);
    y := ExecSeq(ws, y1);
    TailGoes(s, k1, f, ws, y1);
    GoTrans(s, k, x, k1, y1, k1 + |ws| + 2, y);
  }

  // ----- comparisons -----

  /** When the compiled comparison skips: with pred set, the order tests ask the reverse order instead of the negation. */
  predicate CmpSkips(cmp: Cmp, pred: bool, a: Word, b: Word) {
    match cmp
    case CEQ => (a == b) != pred
    case CLT => if pred then a > b else a < b
    case CLE => if pred then a >= b else a <= b
  }

  /** That is the promised skip exactly when pred is clear, or the operands differ, or the test is equality. */
  lemma SkipsRightIff(cmp: Cmp, pred: bool, a: Word, b: Word)
    ensures CmpSkips(cmp, pred, a, b) == (CmpHolds(cmp, a, b) != pred) <==> (cmp.CEQ? || !pred || a != b)
  {
  }

  /** Order tests need a difference that fits a word, and not twice the same register. */
  predicate CmpSafe(f: Frame, cmp: Cmp, st: VM, b: LOperand, c: LOperand)
    requires StateOk(f, st) && OperandIn(f, b) && OperandIn(f, c)
  {
    !cmp.CEQ? ==>
      && IsWord(ValueOf(f, st, b) - ValueOf(f, st, c))
      && !(LoperandToOperand(f, b).value.OpReg? && LoperandToOperand(f, b) == LoperandToOperand(f, c))
  }

  /** The fork of a comparison decides the skip and disturbs nothing. */
  lemma CmpDecides(f: Frame, T: nat, lo: int, x: Data, st: VM, cmp: Cmp, pred: bool, b: LOperand, c: LOperand)
    requires Represents(f, lo, x, st) && OperandIn(f, b) && OperandIn(f, c) && T <= 1
    requires CmpAccepts(cmp, LoperandToOperand(f, b).value, LoperandToOperand(f, c).value) && CmpSafe(f, cmp, st, b, c)
    ensures Decides(f.t, T, lo, CmpFork(f.t, T, cmp, pred, LoperandToOperand(f, b).value, LoperandToOperand(f, c).value),
                    CmpSkips(cmp, pred, ValueOf(f, st, b), ValueOf(f, st, c)), x)
  {
    hide Represents, FrameOk, Decides, EquFork, IneqFork, Usable, Room, Val;
    RepresentsShape(f, lo, x, st);
    var s, u := LoperandToOperand(f, b).value, LoperandToOperand(f, c).value;
    OperandReads(f, lo, x, st, b, T, T + 2);
    OperandReads(f, lo, x, st, c, T, T + 2);
    RoomInRegs(f.t, T, T + 2, lo, x);
    ZeroUsable(f.t, T, T + 2, lo, x, u);
    if cmp.CEQ? {
      EquDecides(f.t, T, lo, s, SubZero(u), !pred, x);
    } else {
      var rel := if cmp.CLT? then (if pred then GT else LT) else if pred then GE else LE;
      IneqRightIff(f.t, T, lo, s, SubZero(u), rel, x);
    }
  }

  /** The compiled comparison, as one fork in linked code. */
  lemma CmpForkGoes(s: seq<Ev>, k: nat, f: Frame, T: nat, lo: int, x: Data, st: VM, cmp: Cmp, pred: bool, b: LOperand, c: LOperand, dest: Dest, j: nat) returns (y: Data)
    requires Linkable(s) && Clean(s, k) && Represents(f, lo, x, st) && OperandIn(f, b) && OperandIn(f, c) && T <= 1
    requires CmpAccepts(cmp, LoperandToOperand(f, b).value, LoperandToOperand(f, c).value) && CmpSafe(f, cmp, st, b, c)
    requires var fork := CmpFork(f.t, T, cmp, pred, LoperandToOperand(f, b).value, LoperandToOperand(f, c).value);
             Has(s, k, ForkScript(fork, dest)) && IsTarget(s, k + |fork.pre|, dest, j)
    ensures var fork := CmpFork(f.t, T, cmp, pred, LoperandToOperand(f, b).value, LoperandToOperand(f, c).value);
            && Go(s, k, x, if CmpSkips(cmp, pred, ValueOf(f, st, b), ValueOf(f, st, c)) then j else k + |ForkScript(fork, dest)|, y)
            && Clean(s, k + |ForkScript(fork, dest)|)
    ensures Represents(f, lo, y, st)
  {
    hide Represents, FrameOk, CmpFork, Go, Linkable, ExecSeq, Exec, IsTarget, CmpSkips, Sim, CmpSafe, Has, Plain, Taken, EquAccepts;
    RepresentsShape(f, lo, x, st);
    var fork := CmpFork(f.t, T, cmp, pred, LoperandToOperand(f, b).value, LoperandToOperand(f, c).value);
    CmpDecides(f, T, lo, x, st, cmp, pred, b, c);
    y := Exec(fork.slot, ExecSeq(fork.pre, x));
    GoFork(s, k, fork, dest, j, x);
    if T == 1 {
      SimWeaken(f.t, 1, lo, x, y);
    }
    RelSim(f, lo, x, y, st);
  }

  /** An unconditional jump. */
  lemma JumpGoes(s: seq<Ev>, k: nat, dest: Dest, j: nat, x: Data)
    requires Linkable(s) && Clean(s, k) && Has(s, k, ForkScript(JUMP, dest)) && IsTarget(s, k, dest, j)
    ensures Go(s, k, x, j, x) && Clean(s, k + |ForkScript(JUMP, dest)|)
  {
    hide Go, Linkable, Has, IsTarget;
    ExecNone(x);
    ExecNop(x);
    GoFork(s, k, JUMP, dest, j, x);
  }

  lemma CmpParts(s: seq<Ev>, k: nat, f: Frame, cmp: Cmp, pred: bool, b: LOperand, c: LOperand, line: nat, slow: seq<Instr>)
    requires CmpReady(f, cmp, b, c) && |f.t.temps| > 1 && Has(s, k, CmpScript(f, cmp, pred, b, c, line, slow))
    ensures var os, ou := LoperandToOperand(f, b), LoperandToOperand(f, c);
            var test := TagTest(f.t, os, ou);
            var fork := CmpFork(f.t, 1, cmp, pred, os.value, ou.value);
            var mid := CmpSlow(f.t, pred, line, slow);
            var k1 := k + |test| + |mid|;
            && Has(s, k, test + mid + [LabelLocal(0)])
            && Has(s, k1, [LabelLocal(0)]) && Has(s, k1 + 1, ForkScript(fork, ToLine(line)))
            && Has(s, k1 + 1 + |ForkScript(fork, ToLine(line))|, [LabelLocal(1)])
            && k + |CmpScript(f, cmp, pred, b, c, line, slow)| == k1 + 1 + |ForkScript(fork, ToLine(line))| + 1
            && Clean(s, k1 + 1) && Clean(s, k1 + 2 + |ForkScript(fork, ToLine(line))|)
    ensures Unlabelled(CmpSlow(f.t, pred, line, slow), 0)
  {
    hide TagTest, CmpFork, ReleaseCode, EquFork, CmpSlow, Has, CmpScript, Unlabelled;
    NoReload(f.t);
    var os, ou := LoperandToOperand(f, b), LoperandToOperand(f, c);
    var test := TagTest(f.t, os, ou);
    var fs := ForkScript(CmpFork(f.t, 1, cmp, pred, os.value, ou.value), ToLine(line));
    var mid := CmpSlow(f.t, pred, line, slow);
    var end := [LabelLocal(1)] + Emits(ReleaseCode(f.t, 1));
    CmpWhole(f, cmp, pred, b, c, line, slow);
    HasThree(s, k, test, mid, [LabelLocal(0)] + fs + end);
    var k1 := k + |test| + |mid|;
    assert test + mid + ([LabelLocal(0)] + fs + end) == test + mid + ([LabelLocal(0)] + (fs + end));
    HasHead(s, k, test + mid, [LabelLocal(0)], fs + end);
    HasThree(s, k1, [LabelLocal(0)], fs, end);
    HasSplit(s, k1 + 1 + |fs|, [LabelLocal(1)], Emits(ReleaseCode(f.t, 1)));
    AfterLabel(s, k1, 0);
    AfterLabel(s, k1 + 1 + |fs|, 1);
    UnlabelledSlow(f.t, pred, line, slow);
  }

  lemma CmpWhole(f: Frame, cmp: Cmp, pred: bool, b: LOperand, c: LOperand, line: nat, slow: seq<Instr>)
    requires CmpReady(f, cmp, b, c)
    ensures var os, ou := LoperandToOperand(f, b), LoperandToOperand(f, c);
            var fs := ForkScript(CmpFork(f.t, 1, cmp, pred, os.value, ou.value), ToLine(line));
            CmpScript(f, cmp, pred, b, c, line, slow) ==
            TagTest(f.t, os, ou) + CmpSlow(f.t, pred, line, slow) + ([LabelLocal(0)] + fs + ([LabelLocal(1)] + Emits(ReleaseCode(f.t, 1))))
  {
    hide TagTest, CmpFork, ReleaseCode, EquFork, ForkScript;
  }

  /** The start of the last part goes with what is before it. */
  lemma HasHead(s: seq<Ev>, k: nat, a: seq<Ev>, b: seq<Ev>, c: seq<Ev>)
    requires Has(s, k, a + (b + c)) || Has(s, k, a + b + c)
    ensures Has(s, k, a + b)
  {
    assert a + (b + c) == a + b + c;
    HasSplit(s, k, a + b, c);
  }

  /** What comes after a label can be jumped or fallen into. */
  lemma AfterLabel(s: seq<Ev>, k: nat, l: nat)
    requires Has(s, k, [LabelLocal(l)])
    ensures Clean(s, k + 1)
  {
    HasAt(s, k, [LabelLocal(l)], 0);
  }

  function CmpSlow(t: Target, pred: bool, line: nat, slow: seq<Instr>): seq<Ev>
    requires |t.temps| > 0
  {
    Emits(slow) + ForkScript(Verdict(t, pred), ToLine(line)) + ForkScript(JUMP, NEXT1)
  }

  lemma UnlabelledSlow(t: Target, pred: bool, line: nat, slow: seq<Instr>)
    requires |t.temps| > 0
    ensures Unlabelled(CmpSlow(t, pred, line, slow), 0)
  {
    hide EquFork;
    var fork := Verdict(t, pred);
    UnlabelledEmits(slow, 0);
    UnlabelledFork(fork, ToLine(line), 0);
    UnlabelledFork(JUMP, NEXT1, 0);
    UnlabelledConcat(Emits(slow), ForkScript(fork, ToLine(line)), 0);
    UnlabelledConcat(Emits(slow) + ForkScript(fork, ToLine(line)), ForkScript(JUMP, NEXT1), 0);
  }

  /** EQ, LT and LE: on numbers, control goes on or skips a line, and the frame is untouched. */
  lemma CmpGoes(s: seq<Ev>, k: nat, f: Frame, lo: int, x: Data, st: VM, cmp: Cmp, pred: bool, b: LOperand, c: LOperand, line: nat, slow: seq<Instr>, j: nat) returns (y: Data)
    requires Linkable(s) && Clean(s, k) && Represents(f, lo, x, st) && CmpReady(f, cmp, b, c)
    requires Has(s, k, CmpScript(f, cmp, pred, b, c, line, slow))
    requires TagOf(f, st, b) == LUA_TNUMBER && TagOf(f, st, c) == LUA_TNUMBER && CmpSafe(f, cmp, st, b, c)
    requires j <= |s| && Pos(s, j) == JumpTable(s, line)
    ensures Go(s, k, x, if CmpSkips(cmp, pred, ValueOf(f, st, b), ValueOf(f, st, c)) then j else k + |CmpScript(f, cmp, pred, b, c, line, slow)|, y)
    ensures Represents(f, lo, y, st) && Clean(s, k + |CmpScript(f, cmp, pred, b, c, line, slow)|)
  {
    hide ExecSeq, Linkable, Go, TagTest, CmpScript, CmpFork, CmpSlow, Represents, FrameOk, Sim, Usable, Val, CmpSkips, CmpSafe, Pos, JumpTable;
    var os, ou := LoperandToOperand(f, b), LoperandToOperand(f, c);
    RepresentsShape(f, lo, x, st);
    CmpParts(s, k, f, cmp, pred, b, c, line, slow);
    var fork := CmpFork(f.t, 1, cmp, pred, os.value, ou.value);
    var k1 := k + |TagTest(f.t, os, ou)| + |CmpSlow(f.t, pred, line, slow)|;
    var k2 := k1 + 1 + |ForkScript(fork, ToLine(line))|;
    OperandReads(f, lo, x, st, b, 1, 3);
    OperandReads(f, lo, x, st, c, 1, 3);
    var y1 := TagTestDecides(s, k, f, lo, x, os, ou, CmpSlow(f.t, pred, line, slow));
    RelSim(f, lo, x, y1, st);
    HasAt(s, k1, [LabelLocal(0)], 0);
    HasAt(s, k2, [LabelLocal(1)], 0);
    GoLabel(s, k1, y1);
    GoTrans(s, k, x, k1, y1, k1 + 1, y1);
    y := CmpForkGoes(s, k1 + 1, f, 1, lo, y1, st, cmp, pred, b, c, ToLine(line), j);
    var k3 := if CmpSkips(cmp, pred, ValueOf(f, st, b), ValueOf(f, st, c)) then j else k2;
    GoTrans(s, k, x, k1 + 1, y1, k3, y);
    GoLabel(s, k2, y);
    if k3 == k2 {
      GoTrans(s, k, x, k2, y, k2 + 1, y);
    }
  }

  /** MOVE and LOADK. */
  lemma AssignGoes(s: seq<Ev>, k: nat, f: Frame, lo: int, x: Data, st: VM, a: nat, o: LOperand) returns (y: Data)
    requires Linkable(s) && Clean(s, k) && Represents(f, lo, x, st) && a < f.nrLocals && OperandIn(f, o)
    requires Has(s, k, Emits(AssignCode(f.t, VregToOperand(f, a, false), LoperandToOperand(f, o))))
    ensures var ws := AssignCode(f.t, VregToOperand(f, a, false), LoperandToOperand(f, o));
            Go(s, k, x, k + |ws|, y) && Clean(s, k + |ws|)
    ensures Represents(f, lo, y, SetLocal(st, a, ValueOf(f, st, o), TagOf(f, st, o)))
  {
    hide Represents, Go, Linkable, ExecSeq, AssignCode, Has, Plain;
    RepresentsShape(f, lo, x, st);
    var ws := AssignCode(f.t, VregToOperand(f, a, false), LoperandToOperand(f, o));
    AssignSets(f, lo, x, st, a, o);
    GoWords(s, k, ws, x);
    y := ExecSeq(ws, x);
  }

  lemma ForParts(s: seq<Ev>, k: nat, f: Frame, a: nat, line: nat, slow: seq<Instr>)
    requires ForReady(f, BADD, a) && Has(s, k, ForLoopScript(f, a, line, slow))
    ensures var bop := BopScript(f, BADD, a, Local(a), Local(a + 2), slow);
            var ws := AssignCode(f.t, VregToOperand(f, a + 3, false), LoperandToOperand(f, Local(a)));
            var fork := ForTest(f, a);
            var k1, k2 := k + |bop|, k + |bop| + |ws|;
            var k3 := k2 + |ForkScript(fork, NEXT0)|;
            var k4 := k3 + |ForkScript(JUMP, ToLine(line))|;
            && Has(s, k, bop) && Has(s, k1, Emits(ws)) && Has(s, k2, ForkScript(fork, NEXT0))
            && Has(s, k3, ForkScript(JUMP, ToLine(line))) && Has(s, k4, [LabelLocal(0)])
            && IsTarget(s, k2 + |fork.pre|, NEXT0, k4)
            && k4 + 1 == k + |ForLoopScript(f, a, line, slow)| && Clean(s, k4 + 1)
  {
    hide BopScript, AssignCode, ForTest, ForkScript, IsTarget, Unlabelled, PlainAccepts, BopAccepts, Has;
    var bop := BopScript(f, BADD, a, Local(a), Local(a + 2), slow);
    var ws := Emits(AssignCode(f.t, VregToOperand(f, a + 3, false), LoperandToOperand(f, Local(a))));
    var fs, js := ForkScript(ForTest(f, a), NEXT0), ForkScript(JUMP, ToLine(line));
    HasThree(s, k, bop, ws, fs + js + [LabelLocal(0)]);
    var k2 := k + |bop| + |ws|;
    HasThree(s, k2, fs, js, [LabelLocal(0)]);
    UnlabelledFork(JUMP, ToLine(line), 0);
    ForkLength(ForTest(f, a), NEXT0);
    NextIsLabel(s, k2, ForTest(f, a), 0, js);
    AfterLabel(s, k2 + |fs| + |js|, 0);
  }

  lemma ForkLength(f: Fork, dest: Dest)
    ensures |ForkScript(f, dest)| == |f.pre| + 3
  {
  }

  lemma ForTestIsCmp(f: Frame, a: nat)
    requires |f.t.temps| > 0 && a + 1 < f.nrLocals
    ensures CmpAccepts(CLT, LoperandToOperand(f, Local(a)).value, LoperandToOperand(f, Local(a + 1)).value)
    ensures ForTest(f, a) == CmpFork(f.t, 0, CLT, true, LoperandToOperand(f, Local(a)).value, LoperandToOperand(f, Local(a + 1)).value)
  {
    hide IneqFork;
  }

  /** FORLOOP: step, publish the loop variable, and go back unless the limit is passed. */
  lemma ForLoopGoes(s: seq<Ev>, k: nat, f: Frame, lo: int, x: Data, st: VM, a: nat, line: nat, slow: seq<Instr>, j: nat) returns (y: Data)
    requires Linkable(s) && Clean(s, k) && Represents(f, lo, x, st) && ForReady(f, BADD, a)
    requires Has(s, k, ForLoopScript(f, a, line, slow))
    requires st.tag[a] == LUA_TNUMBER && st.tag[a + 2] == LUA_TNUMBER
    requires IsWord(BopVal(BADD, st.val[a], st.val[a + 2]) - st.val[a + 1])
    requires j <= |s| && Pos(s, j) == JumpTable(s, line)
    ensures var idx := BopVal(BADD, st.val[a], st.val[a + 2]);
            && Go(s, k, x, if idx <= st.val[a + 1] then j else k + |ForLoopScript(f, a, line, slow)|, y)
            && Represents(f, lo, y, SetLocal(SetLocal(st, a, idx, LUA_TNUMBER), a + 3, idx, LUA_TNUMBER))
    ensures Clean(s, k + |ForLoopScript(f, a, line, slow)|)
  {
    hide ExecSeq, Linkable, Go, BopScript, ForLoopScript, AssignCode, CmpFork, ForTest, Represents, FrameOk, BopVal, Pos, JumpTable, BopReady;
    RepresentsShape(f, lo, x, st);
    ForTestIsCmp(f, a);
    ForParts(s, k, f, a, line, slow);
    var idx := BopVal(BADD, st.val[a], st.val[a + 2]);
    var k1 := k + |BopScript(f, BADD, a, Local(a), Local(a + 2), slow)|;
    var k2 := k1 + |AssignCode(f.t, VregToOperand(f, a + 3, false), LoperandToOperand(f, Local(a)))|;
    var k3 := k2 + |ForkScript(ForTest(f, a), NEXT0)|;
    var k4 := k3 + |ForkScript(JUMP, ToLine(line))|;
    var y1 := BopGoes(s, k, f, lo, x, st, BADD, a, Local(a), Local(a + 2), slow);
    var st1 := SetLocal(st, a, idx, LUA_TNUMBER);
    var y2 := AssignGoes(s, k1, f, lo, y1, st1, a + 3, Local(a));
    var st2 := SetLocal(st1, a + 3, idx, LUA_TNUMBER);
    GoTrans(s, k, x, k1, y1, k2, y2);
    SlotsApart(f, 2 * a, 2 * (a + 1));
    y := CmpForkGoes(s, k2, f, 0, lo, y2, st2, CLT, true, Local(a), Local(a + 1), NEXT0, k4);
    HasAt(s, k4, [LabelLocal(0)], 0);
    JumpGoes(s, k3, ToLine(line), j, y);
    GoLabel(s, k4, y);
    if idx <= st.val[a + 1] {
      GoTrans(s, k, x, k2, y2, k3, y);
      GoTrans(s, k, x, k3, y, j, y);
    } else {
      GoTrans(s, k, x, k2, y2, k4, y);
      GoTrans(s, k, x, k4, y, k4 + 1, y);
    }
  }
}

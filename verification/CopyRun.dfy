/** The copying routine in linked code: it terminates, having copied the smaller of the two counts. */
module CopyRun {
  import opened Words
  import opened Mips
  import opened Script
  import opened Target
  import opened Moves
  import opened ArithCode
  import opened ArithOps
  import opened BranchCode
  import opened Branch
  import opened ScriptRun
  import opened Bytecode
  import opened Simulate
  import opened SimulateGo
  import opened Program
  import opened Calls
  import opened CopyLoop

  // ----- the loop -----

  /** Nothing a loop turn depends on differs between similar states. */
  lemma CopyingSame(t: Target, x0: Data, x: Data, y: Data, i: nat, c: nat, dst: Reg, src: Reg, limit: Reg)
    requires LoopOk(t, x0, c, dst, src, limit) && Copying(t, x0, x, i, c, dst, src, limit) && Same(t, 1, x, y)
    ensures Copying(t, x0, y, i, c, dst, src, limit)
  {
    hide Same, MemAgrees, CopyDown;
    SameReads(t, 1, x, y);
    AgreeTrans(CopyDown(x0, R(x0, dst), R(x0, src), 2 * i), x, y);
  }

  /** The loop test leaves exactly when all values have been copied. */
  lemma HeadDecides(t: Target, x0: Data, x: Data, i: nat, c: nat, dst: Reg, src: Reg, limit: Reg)
    requires LoopOk(t, x0, c, dst, src, limit) && Copying(t, x0, x, i, c, dst, src, limit)
    ensures var f := EquFork(t, 1, OpReg(TempAt(t, 0)), OpReg(limit), true);
            Decides(t, 1, LOWEST, f, i == c, x) && f.pre == []
  {
    TagSpared(t, 3);
    NonTempSpared(t, 1, 3, limit);
    RoomInRegs(t, 1, 3, LOWEST, x);
    hide Room, Spared, Decides, Copying;
    EquDecides(t, 1, LOWEST, OpReg(TempAt(t, 0)), OpReg(limit), true, x);
    CopyingAt(t, x0, x, i, c, dst, src, limit);
  }

  lemma CopyingAt(t: Target, x0: Data, x: Data, i: nat, c: nat, dst: Reg, src: Reg, limit: Reg)
    requires LoopOk(t, x0, c, dst, src, limit) && Copying(t, x0, x, i, c, dst, src, limit)
    ensures R(x, TempAt(t, 0)) == i && R(x, limit) == c && i <= c
  {
  }

  /** The pieces of the loop, the way out of its test, and the way back of its jump. */
  lemma LoopParts(s: seq<Ev>, k: nat, t: Target, limit: Reg, dst: Reg, src: Reg)
    requires |t.temps| > 0 && Linkable(s) && Has(s, k, LoopScript(t, 1, TempAt(t, 0), limit, dst, src))
    ensures var f := EquFork(t, 1, OpReg(TempAt(t, 0)), OpReg(limit), true);
            var ws := CopyWords(t, 1, TempAt(t, 0), dst, src);
            var k2 := k + 1 + |ForkScript(f, NEXT0)|;
            var k3 := k2 + |ws|;
            && Has(s, k, [LabelLocal(0)]) && Has(s, k + 1, ForkScript(f, NEXT0)) && Has(s, k2, Emits(ws))
            && Has(s, k3, ForkScript(JUMP, PREV0)) && Has(s, k3 + 3, [LabelLocal(0)])
            && IsTarget(s, k + 1 + |f.pre|, NEXT0, k3 + 3) && IsTarget(s, k3, PREV0, k)
            && k3 + 4 == k + |LoopScript(t, 1, TempAt(t, 0), limit, dst, src)|
  {
    hide EquFork, CopyWords, ForkScript, Linkable, Has, IsTarget;
    var f := EquFork(t, 1, OpReg(TempAt(t, 0)), OpReg(limit), true);
    var ws := Emits(CopyWords(t, 1, TempAt(t, 0), dst, src));
    var h, fs, js := [LabelLocal(0)], ForkScript(f, NEXT0), ForkScript(JUMP, PREV0);
    ForkLength(JUMP, PREV0);
    ForkLength(f, NEXT0);
    HasSplit(s, k, h + fs + ws + js, h);
    HasSplit(s, k, h + fs + ws, js);
    HasThree(s, k, h, fs, ws);
    LoopOut(s, k, f, CopyWords(t, 1, TempAt(t, 0), dst, src));
    LoopBack(s, k, f, CopyWords(t, 1, TempAt(t, 0), dst, src));
  }

  lemma LoopOut(s: seq<Ev>, k: nat, f: Fork, ws: seq<Instr>)
    requires Has(s, k, [LabelLocal(0)] + ForkScript(f, NEXT0) + Emits(ws) + ForkScript(JUMP, PREV0) + [LabelLocal(0)])
    ensures IsTarget(s, k + 1 + |f.pre|, NEXT0, k + 1 + |ForkScript(f, NEXT0)| + |ws| + 3)
  {
    hide ForkScript;
    var mid := Emits(ws) + ForkScript(JUMP, PREV0);
    var h, fs := [LabelLocal(0)], ForkScript(f, NEXT0);
    ForkLength(f, NEXT0);
    ForkLength(JUMP, PREV0);
    assert h + fs + Emits(ws) + ForkScript(JUMP, PREV0) + h == h + (fs + mid + h);
    HasSplit(s, k, h, fs + mid + h);
    UnlabelledEmits(ws, 0);
    UnlabelledFork(JUMP, PREV0, 0);
    UnlabelledConcat(Emits(ws), ForkScript(JUMP, PREV0), 0);
    NextIsLabel(s, k + 1, f, 0, mid);
  }

  lemma LoopBack(s: seq<Ev>, k: nat, f: Fork, ws: seq<Instr>)
    requires Linkable(s) && Has(s, k, [LabelLocal(0)] + ForkScript(f, NEXT0) + Emits(ws) + ForkScript(JUMP, PREV0) + [LabelLocal(0)])
    ensures IsTarget(s, k + 1 + |ForkScript(f, NEXT0)| + |ws|, PREV0, k)
  {
    hide Linkable, Pos, JumpTable;
    var h, fs := [LabelLocal(0)], ForkScript(f, NEXT0);
    var all := h + fs + Emits(ws) + ForkScript(JUMP, PREV0) + h;
    var k3 := k + 1 + |fs| + |ws|;
    HasAt(s, k, all, 0);
    UnlabelledEmits(ws, 0);
    UnlabelledFork(f, NEXT0, 0);
    UnlabelledConcat(fs, Emits(ws), 0);
    forall i | k < i < k3
      ensures s[i] != LabelLocal(0)
    {
      HasAt(s, k, all, i - k);
      assert all[i - k] == (fs + Emits(ws))[i - k - 1];
    }
    var b := k + 1 + |f.pre| + 1;
    HasAt(s, k, all, b - k);
    assert all[b - k] == fs[|f.pre| + 1] == Emit(f.br);
    hide ForkScript, Has;
    PosAcross(s, k, b, k3);
  }

  /** An emit between two places puts the later one at a later word. */
  lemma PosAcross(s: seq<Ev>, k: nat, b: nat, k3: nat)
    requires k <= b < k3 <= |s| && s[b].Emit?
    ensures Pos(s, k) < Pos(s, k3)
  {
    hide Pos;
    PosEmit(s, b);
    PosMonotone(s, k, b);
    PosMonotone(s, b + 1, k3);
  }

  lemma PlainWords(t: Target, dst: Reg, src: Reg)
    requires |t.temps| > 0
    ensures Plain(CopyWords(t, 1, TempAt(t, 0), dst, src))
  {
    hide MoveCode;
    PlainMove(t, 1, DAddr(dst, 0), DAddr(src, 0));
    PlainMove(t, 1, DAddr(dst, -4), DAddr(src, -4));
  }

  /** From the head of the loop to its end, by the number of values still to copy. */
  lemma {:induction false} LoopGoes(s: seq<Ev>, k: nat, t: Target, x0: Data, x: Data, i: nat, c: nat, dst: Reg, src: Reg, limit: Reg) returns (y: Data)
    requires LoopOk(t, x0, c, dst, src, limit) && Copying(t, x0, x, i, c, dst, src, limit)
    requires Linkable(s) && Has(s, k, LoopScript(t, 1, TempAt(t, 0), limit, dst, src))
    ensures Go(s, k, x, k + |LoopScript(t, 1, TempAt(t, 0), limit, dst, src)|, y) && Copying(t, x0, y, c, c, dst, src, limit)
    decreases c - i
  {
    hide Linkable, Go, Has, IsTarget, LoopScript, CopyWords, EquFork, ExecSeq, Exec, Copying, LoopOk, Taken, Plain, Sim, ForkScript;
    LoopShape(t, x0, c, dst, src, limit);
    LoopParts(s, k, t, limit, dst, src);
    var f := EquFork(t, 1, OpReg(TempAt(t, 0)), OpReg(limit), true);
    var ws := CopyWords(t, 1, TempAt(t, 0), dst, src);
    var k2 := k + 1 + |ForkScript(f, NEXT0)|;
    var k3 := k2 + |ws|;
    HeadDecides(t, x0, x, i, c, dst, src, limit);
    LabelAt(s, k, 0, x);
    ForkLength(f, NEXT0);
    var x1 := Exec(f.slot, ExecSeq(f.pre, x));
    GoFork(s, k + 1, f, NEXT0, k3 + 3, x);
    CopyingSame(t, x0, x, x1, i, c, dst, src, limit);
    GoTrans(s, k, x, k + 1, x, if i == c then k3 + 3 else k2, x1);
    if i == c {
      LabelAt(s, k3 + 3, 0, x1);
      GoTrans(s, k, x, k3 + 3, x1, k3 + 4, x1);
      y := x1;
    } else {
      CopyingAt(t, x0, x1, i, c, dst, src, limit);
      TurnCopies(t, x0, x1, i, c, dst, src, limit);
      PlainWords(t, dst, src);
      GoWords(s, k2, ws, x1);
      var x2 := ExecSeq(ws, x1);
      JumpGoes(s, k3, PREV0, k, x2);
      y := LoopGoes(s, k, t, x0, x2, i + 1, c, dst, src, limit);
      GoTrans(s, k, x, k2, x1, k3, x2);
      GoTrans(s, k, x, k3, x2, k, x2);
      GoTrans(s, k, x, k, x2, k + |LoopScript(t, 1, TempAt(t, 0), limit, dst, src)|, y);
    }
  }

  lemma LoopShape(t: Target, x0: Data, c: nat, dst: Reg, src: Reg, limit: Reg)
    requires LoopOk(t, x0, c, dst, src, limit)
    ensures t.Valid() && |t.temps| >= 3
  {
  }

  /** Passing a label leaves a clean place behind it. */
  lemma LabelAt(s: seq<Ev>, k: nat, l: nat, x: Data)
    requires Linkable(s) && Has(s, k, [LabelLocal(l)])
    ensures Go(s, k, x, k + 1, x) && Clean(s, k + 1)
  {
    hide Linkable, Go;
    HasAt(s, k, [LabelLocal(l)], 0);
    GoLabel(s, k, x);
  }

  // ----- the minimum -----

  function Lesser(a: int, b: int): int {
    if a < b then a else b
  }

  /** The first count has become the smaller of the two, and nothing else that is seen has changed. */
  ghost predicate MinDone(t: Target, x: Data, y: Data)
    requires |t.spare| >= RA_SIZE
  {
    && R(y, t.spare[RA_EXIST]) == Lesser(R(x, t.spare[RA_EXIST]), R(x, t.spare[RA_EXPECT]))
    && (forall q: Reg :: Apart(t, q) && q != t.spare[RA_EXIST] ==> R(y, q) == R(x, q))
    && MemAgrees(LOWEST, x, y)
  }

  lemma SpareIsPlain(t: Target, i: nat)
    requires Passes(t) && i < RA_SIZE
    ensures Apart(t, t.spare[i]) && t.spare[i] != ZERO
  {
    assert t.Ordinary(t.spare[i]) && !t.IsTemp(t.spare[i]);
  }

  lemma SpareDistinct(t: Target)
    requires Passes(t)
    ensures forall i, j :: 0 <= i < j < RA_SIZE ==> t.spare[i] != t.spare[j]
  {
  }

  lemma MinDecides(t: Target, x: Data)
    requires Passes(t) && |t.temps| >= 3 && R(x, t.spare[RA_EXIST]) >= 0 && R(x, t.spare[RA_EXPECT]) >= 0
    ensures Decides(t, 0, LOWEST, IneqFork(t, 0, Exist(t), SubZero(Expect(t)), LT), R(x, t.spare[RA_EXIST]) < R(x, t.spare[RA_EXPECT]), x)
  {
    SpareIsPlain(t, RA_EXIST);
    SpareIsPlain(t, RA_EXPECT);
    SpareDistinct(t);
    NonTempSpared(t, 0, 2, t.spare[RA_EXIST]);
    NonTempSpared(t, 0, 2, t.spare[RA_EXPECT]);
    RoomInRegs(t, 0, 2, LOWEST, x);
    hide Room, Spared, Decides, IneqFork, Passes;
    IneqRightIff(t, 0, LOWEST, Exist(t), Expect(t), LT, x);
  }

  lemma MinParts(s: seq<Ev>, k: nat, t: Target)
    requires |t.temps| > 0 && |t.spare| >= RA_SIZE && Has(s, k, MinScript(t, 0, Exist(t), Exist(t), Expect(t)))
    ensures var f := IneqFork(t, 0, Exist(t), SubZero(Expect(t)), LT);
            var a, b := MoveCode(t, 0, Exist(t), Expect(t)), MoveCode(t, 0, Exist(t), Exist(t));
            var k1 := k + |f.pre| + 3;
            var k2 := k1 + |a|;
            var k4 := k2 + 3 + 1 + |b|;
            && Has(s, k, ForkScript(f, NEXT0)) && Has(s, k1, Emits(a)) && Has(s, k2, ForkScript(JUMP, NEXT1))
            && Has(s, k2 + 3, [LabelLocal(0)]) && Has(s, k2 + 4, Emits(b)) && Has(s, k4, [LabelLocal(1)])
            && IsTarget(s, k + |f.pre|, NEXT0, k2 + 3) && IsTarget(s, k2, NEXT1, k4)
            && k4 + 1 == k + |MinScript(t, 0, Exist(t), Exist(t), Expect(t))|
  {
    hide IneqFork, MoveCode, ForkScript, Has, IsTarget;
    var f := IneqFork(t, 0, Exist(t), SubZero(Expect(t)), LT);
    var a, b := Emits(MoveCode(t, 0, Exist(t), Expect(t))), Emits(MoveCode(t, 0, Exist(t), Exist(t)));
    var fs, js, l0, l1 := ForkScript(f, NEXT0), ForkScript(JUMP, NEXT1), [LabelLocal(0)], [LabelLocal(1)];
    ForkLength(f, NEXT0);
    ForkLength(JUMP, NEXT1);
    var k1 := k + |fs|;
    HasSplit(s, k, fs + (a + js) + l0 + b, l1);
    HasSplit(s, k, fs + (a + js) + l0, b);
    HasSplit(s, k, fs + (a + js), l0);
    HasSplit(s, k, fs, a + js);
    HasSplit(s, k1, a, js);
    UnlabelledEmits(MoveCode(t, 0, Exist(t), Expect(t)), 0);
    UnlabelledFork(JUMP, NEXT1, 0);
    UnlabelledConcat(a, js, 0);
    HasSplit(s, k, fs + (a + js) + l0, b + l1) by { assert fs + (a + js) + l0 + b + l1 == fs + (a + js) + l0 + (b + l1); }
    NextIsLabel(s, k, f, 0, a + js);
    assert fs + (a + js) + l0 + b + l1 == fs + a + (js + (l0 + b) + l1);
    HasSplit(s, k, fs + a, js + (l0 + b) + l1);
    UnlabelledEmits(MoveCode(t, 0, Exist(t), Exist(t)), 1);
    UnlabelledConcat(l0, b, 1);
    NextIsLabel(s, k1 + |a|, JUMP, 1, l0 + b);
  }

  lemma RegSet(t: Target, x: Data, z: Data, r: Reg, v: Word)
    requires t.Valid() && r != ZERO && Same(t, 0, x, z) && Apart(t, r)
    ensures var y := Upd(z, OpReg(r), v);
            && R(y, r) == v && (forall q: Reg :: Apart(t, q) && q != r ==> R(y, q) == R(x, q)) && MemAgrees(LOWEST, x, y)
  {
    hide Same;
    SameReads(t, 0, x, z);
    MemOnly(LOWEST, x, z, x, Upd(z, OpReg(r), v));
  }

  /** The minimum, on whichever of its two paths. */
  lemma MinGoes(s: seq<Ev>, k: nat, t: Target, x: Data) returns (y: Data)
    requires Passes(t) && |t.temps| >= 3 && R(x, t.spare[RA_EXIST]) >= 0 && R(x, t.spare[RA_EXPECT]) >= 0
    requires Linkable(s) && Clean(s, k) && Has(s, k, MinScript(t, 0, Exist(t), Exist(t), Expect(t)))
    ensures var e := k + |MinScript(t, 0, Exist(t), Exist(t), Expect(t))|;
            Go(s, k, x, e, y) && Clean(s, e) && MinDone(t, x, y)
  {
    hide Linkable, Go, Has, IsTarget, MinScript, IneqFork, MoveCode, ForkScript, ExecSeq, Exec, Taken, Plain, Sim, Upd;
    var f := IneqFork(t, 0, Exist(t), SubZero(Expect(t)), LT);
    var a, b := MoveCode(t, 0, Exist(t), Expect(t)), MoveCode(t, 0, Exist(t), Exist(t));
    var k1 := k + |f.pre| + 3;
    var k2 := k1 + |a|;
    var k4 := k2 + 4 + |b|;
    MinParts(s, k, t);
    MinDecides(t, x);
    SpareIsPlain(t, RA_EXIST);
    SpareIsPlain(t, RA_EXPECT);
    SpareDistinct(t);
    var z := Exec(f.slot, ExecSeq(f.pre, x));
    GoFork(s, k, f, NEXT0, k2 + 3, x);
    SameReads(t, 0, x, z);
    PlainMove(t, 0, Exist(t), Expect(t));
    PlainMove(t, 0, Exist(t), Exist(t));
    if R(x, t.spare[RA_EXIST]) < R(x, t.spare[RA_EXPECT]) {
      LabelAt(s, k2 + 3, 0, z);
      GoWords(s, k2 + 4, b, z);
      y := ExecSeq(b, z);
      MoveExact(t, 0, Exist(t), Exist(t), z);
      RegSet(t, x, z, t.spare[RA_EXIST], R(z, t.spare[RA_EXIST]));
      GoTrans(s, k, x, k2 + 3, z, k2 + 4, z);
      GoTrans(s, k, x, k2 + 4, z, k4, y);
    } else {
      GoWords(s, k1, a, z);
      y := ExecSeq(a, z);
      MoveExact(t, 0, Exist(t), Expect(t), z);
      RegSet(t, x, z, t.spare[RA_EXIST], R(z, t.spare[RA_EXPECT]));
      JumpGoes(s, k2, NEXT1, k4, y);
      GoTrans(s, k, x, k1, z, k2, y);
      GoTrans(s, k, x, k2, y, k4, y);
    }
    LabelAt(s, k4, 1, y);
    GoTrans(s, k, x, k4, y, k4 + 1, y);
  }

  // ----- the whole -----

  /** c values of x copied down, both pointers moved past them, the count c, the rest as in x. */
  ghost predicate Copied(t: Target, x: Data, y: Data, c: nat)
    requires |t.spare| >= RA_SIZE
  {
    && R(y, t.spare[RA_EXIST]) == c
    && R(y, t.spare[RA_DST]) == R(x, t.spare[RA_DST]) - 8 * c && R(y, t.spare[RA_SRC]) == R(x, t.spare[RA_SRC]) - 8 * c
    && MemAgrees(LOWEST, CopyDown(x, R(x, t.spare[RA_DST]), R(x, t.spare[RA_SRC]), 2 * c), y)
    && forall q: Reg :: Apart(t, q) && q != t.spare[RA_EXIST] && q != t.spare[RA_DST] && q != t.spare[RA_SRC] ==> R(y, q) == R(x, q)
  }

  /** Copies of memories that agree agree. */
  lemma {:induction false} CopyAgrees(x: Data, z: Data, dst: int, src: int, n: nat)
    requires MemAgrees(LOWEST, x, z) && src - 4 * n + 4 > LOWEST
    ensures MemAgrees(LOWEST, CopyDown(x, dst, src, n), CopyDown(z, dst, src, n))
  {
    hide MemAgrees, Ld;
    if n > 0 {
      CopyAgrees(x, z, dst, src, n - 1);
      StoreAgrees(CopyDown(x, dst, src, n - 1), CopyDown(z, dst, src, n - 1), dst - 4 * (n - 1), src - 4 * (n - 1));
    }
  }

  /** The loop starts with no value copied. */
  lemma StartLoop(t: Target, x: Data, c: nat, dst: Reg, src: Reg, limit: Reg)
    requires LoopOk(t, x, c, dst, src, limit) && R(x, limit) == c && R(x, TempAt(t, 0)) == 0
    ensures Copying(t, x, x, 0, c, dst, src, limit)
  {
  }

  lemma IterInit(t: Target, x: Data)
    requires t.Valid() && |t.temps| >= 3
    ensures var ws := AcquireCode(t, 0) + MoveCode(t, 1, Iter(t), Imm(0));
            var y := ExecSeq(ws, x);
            && Plain(ws) && R(y, TempAt(t, 0)) == 0 && y.mem == x.mem && forall q: Reg :: Apart(t, q) ==> R(y, q) == R(x, q)
  {
    hide ExecSeq, MoveCode;
    assert AcquireCode(t, 0) == [];
    assert AcquireCode(t, 0) + MoveCode(t, 1, Iter(t), Imm(0)) == MoveCode(t, 1, Iter(t), Imm(0));
    PlainMove(t, 1, Iter(t), Imm(0));
    MoveExact(t, 1, Iter(t), Imm(0), x);
    TempOrdinary(t, 0);
  }

  lemma LoopReady(t: Target, x: Data, c: nat)
    requires Passes(t) && |t.temps| >= 3
    requires R(x, t.spare[RA_DST]) - 8 * c >= -0x8000_0000 && R(x, t.spare[RA_SRC]) - 8 * c >= -0x8000_0000
    ensures LoopOk(t, x, c, t.spare[RA_DST], t.spare[RA_SRC], t.spare[RA_EXIST])
  {
    SpareIsPlain(t, RA_EXIST);
    SpareIsPlain(t, RA_DST);
    SpareIsPlain(t, RA_SRC);
    SpareDistinct(t);
  }

  /** What the loop leaves, seen from before the minimum was taken. */
  lemma CopiedFrom(t: Target, x: Data, x1: Data, z: Data, y: Data, c: nat)
    requires Passes(t) && |t.temps| >= 3 && c == Lesser(R(x, t.spare[RA_EXIST]), R(x, t.spare[RA_EXPECT])) && MinDone(t, x, x1)
    requires z.mem == x1.mem && forall q: Reg :: Apart(t, q) ==> R(z, q) == R(x1, q)
    requires Copying(t, z, y, c, c, t.spare[RA_DST], t.spare[RA_SRC], t.spare[RA_EXIST])
    requires R(x, t.spare[RA_SRC]) - 8 * c >= -0x8000_0000
    ensures Copied(t, x, y, c)
  {
    hide MemAgrees, CopyDown, Apart;
    ApartSpares(t);
    var dst, src := R(x, t.spare[RA_DST]), R(x, t.spare[RA_SRC]);
    AgreeTrans(x, x1, z);
    CopyAgrees(x, z, dst, src, 2 * c);
    AgreeTrans(CopyDown(x, dst, src, 2 * c), CopyDown(z, dst, src, 2 * c), y);
  }

  lemma ApartSpares(t: Target)
    requires Passes(t)
    ensures forall i :: 0 <= i < RA_SIZE ==> Apart(t, t.spare[i])
    ensures forall i, j :: 0 <= i < j < RA_SIZE ==> t.spare[i] != t.spare[j]
  {
    forall i | 0 <= i < RA_SIZE
      ensures Apart(t, t.spare[i])
    {
      SpareIsPlain(t, i);
    }
    SpareDistinct(t);
  }

  /**
   The copying routine: entered anywhere in linked code, for all counts, it terminates having
   copied exactly the smaller count of tagged values downwards, with both pointers that many
   values lower and nothing else changed.
   */
  lemma CopyGoes(s: seq<Ev>, k: nat, t: Target, x: Data) returns (y: Data)
    requires Passes(t) && |t.temps| >= 3 && R(x, t.spare[RA_EXIST]) >= 0 && R(x, t.spare[RA_EXPECT]) >= 0
    requires Linkable(s) && Clean(s, k) && Has(s, k, CopyScript(t))
    requires var c := Lesser(R(x, t.spare[RA_EXIST]), R(x, t.spare[RA_EXPECT]));
             R(x, t.spare[RA_DST]) - 8 * c >= -0x8000_0000 && R(x, t.spare[RA_SRC]) - 8 * c >= -0x8000_0000
    ensures Go(s, k, x, k + |CopyScript(t)|, y)
    ensures Copied(t, x, y, Lesser(R(x, t.spare[RA_EXIST]), R(x, t.spare[RA_EXPECT])))
  {
    hide Linkable, Go, Has, MinScript, LoopScript, MoveCode, AcquireCode, ExecSeq, Plain, MinDone, Copying, Copied, LoopOk, Apart;
    var c: nat := Lesser(R(x, t.spare[RA_EXIST]), R(x, t.spare[RA_EXPECT]));
    var ms, ls := MinScript(t, 0, Exist(t), Exist(t), Expect(t)), LoopScript(t, 1, Iter(t).reg, Exist(t).reg, t.spare[RA_DST], t.spare[RA_SRC]);
    var ws := AcquireCode(t, 0) + MoveCode(t, 1, Iter(t), Imm(0));
    HasThree(s, k, ms, Emits(ws), ls);
    var k1 := k + |ms|;
    var k2 := k1 + |ws|;
    var x1 := MinGoes(s, k, t, x);
    IterInit(t, x1);
    GoWords(s, k1, ws, x1);
    var z := ExecSeq(ws, x1);
    AfterMin(t, x, x1, z, c);
    LoopReady(t, z, c);
    StartLoop(t, z, c, t.spare[RA_DST], t.spare[RA_SRC], t.spare[RA_EXIST]);
    y := LoopGoes(s, k2, t, z, z, 0, c, t.spare[RA_DST], t.spare[RA_SRC], t.spare[RA_EXIST]);
    CopiedFrom(t, x, x1, z, y, c);
    GoTrans(s, k, x, k1, x1, k2, z);
    GoTrans(s, k, x, k2, z, k + |CopyScript(t)|, y);
  }

  lemma AfterMin(t: Target, x: Data, x1: Data, z: Data, c: nat)
    requires Passes(t) && MinDone(t, x, x1) && c == Lesser(R(x, t.spare[RA_EXIST]), R(x, t.spare[RA_EXPECT]))
    requires forall q: Reg :: Apart(t, q) ==> R(z, q) == R(x1, q)
    ensures R(z, t.spare[RA_EXIST]) == c && R(z, t.spare[RA_DST]) == R(x, t.spare[RA_DST]) && R(z, t.spare[RA_SRC]) == R(x, t.spare[RA_SRC])
  {
    hide Apart;
    ApartSpares(t);
  }

  lemma BlockAt(x: Data, z: Data, y: Data, dst: int, src: int, n: nat, k: nat)
    requires Block(x, z, dst, src, n) && MemAgrees(LOWEST, z, y) && k < n && dst - 4 * k > LOWEST
    ensures Ld(y, dst - 4 * k) == Ld(x, src - 4 * k)
  {
    hide Ld, InBlock;
  }

  lemma OutsideAt(x: Data, z: Data, y: Data, dst: int, src: int, n: nat, a: int)
    requires Block(x, z, dst, src, n) && MemAgrees(LOWEST, z, y) && !InBlock(a, dst, n) && a > LOWEST
    ensures Ld(y, a) == Ld(x, a)
  {
    hide Ld, InBlock;
  }

  /**
   And where the destination is not below the source, or is clear of it, that is a block move:
   each word is the one it was copied from, and no word outside the destination has changed.
   */
  lemma CopiedBlock(t: Target, x: Data, y: Data, c: nat, k: nat, a: int)
    requires |t.spare| >= RA_SIZE && Copied(t, x, y, c) && a > LOWEST
    requires R(x, t.spare[RA_DST]) - 8 * c >= -0x8000_0000
    requires R(x, t.spare[RA_DST]) >= R(x, t.spare[RA_SRC]) || R(x, t.spare[RA_DST]) <= R(x, t.spare[RA_SRC]) - 8 * c
    ensures k < 2 * c ==> Ld(y, R(x, t.spare[RA_DST]) - 4 * k) == Ld(x, R(x, t.spare[RA_SRC]) - 4 * k)
    ensures !InBlock(a, R(x, t.spare[RA_DST]), 2 * c) ==> Ld(y, a) == Ld(x, a)
  {
    hide Block, CopyDown, Ld, InBlock, MemAgrees;
    var dst, src := R(x, t.spare[RA_DST]), R(x, t.spare[RA_SRC]);
    var z := CopyDown(x, dst, src, 2 * c);
    CopyIsBlock(x, dst, src, 2 * c);
    if k < 2 * c {
      BlockAt(x, z, y, dst, src, 2 * c, k);
    }
    if !InBlock(a, dst, 2 * c) {
      OutsideAt(x, z, y, dst, src, 2 * c, a);
    }
  }

  // ----- the routine can be linked -----

  /** A label, a forward branch to 0, words, and a branch back to the label, ended by another label 0. */
  predicate LoopLike(s: seq<Ev>) {
    && |s| >= 8 && s[0] == s[|s| - 1] == LabelLocal(0) && s[|s| - 4] == MarkOf(PREV0)
    && s[|s| - 5].Emit?
    && forall k :: 0 <= k < |s| && s[k].BranchLocal? ==> s[k] == MarkOf(NEXT0) || k == |s| - 4
  }

  lemma LoopIsLike(t: Target, iter: Reg, limit: Reg, dst: Reg, src: Reg)
    requires |t.temps| > 0
    ensures LoopLike(LoopScript(t, 1, iter, limit, dst, src))
  {
    hide EquFork, MoveCode;
    var f := EquFork(t, 1, OpReg(iter), OpReg(limit), true);
    ForkLength(f, NEXT0);
    ForkLength(JUMP, PREV0);
  }

  lemma LoopMarked(t: Target, iter: Reg, limit: Reg, dst: Reg, src: Reg)
    requires |t.temps| > 0
    ensures Marked(LoopScript(t, 1, iter, limit, dst, src))
  {
    hide Marked, ForkScript, CopyWords;
    var f := EquFork(t, 1, OpReg(iter), OpReg(limit), true);
    var ws := CopyWords(t, 1, iter, dst, src);
    EquFits(t, 1, OpReg(iter), OpReg(limit), true);
    MarkedLabel(0);
    MarkedFork(f, NEXT0);
    MarkedFork(JUMP, PREV0);
    MarkedPlain(ws);
    MarkedConcat([LabelLocal(0)], ForkScript(f, NEXT0));
    MarkedConcat([LabelLocal(0)] + ForkScript(f, NEXT0), Emits(ws));
    MarkedConcat([LabelLocal(0)] + ForkScript(f, NEXT0) + Emits(ws), ForkScript(JUMP, PREV0));
    MarkedConcat([LabelLocal(0)] + ForkScript(f, NEXT0) + Emits(ws) + ForkScript(JUMP, PREV0), [LabelLocal(0)]);
  }

  /** What comes before the loop can stand anywhere. */
  lemma MinStretch(t: Target)
    requires Passes(t)
    ensures Stretch(MinScript(t, 0, Exist(t), Exist(t), Expect(t)))
  {
    hide Stretch, IneqMatched, MoveCode;
    var f := IneqFork(t, 0, Exist(t), SubZero(Expect(t)), LT);
    StretchWords(MoveCode(t, 0, Exist(t), Expect(t)));
    StretchWords(MoveCode(t, 0, Exist(t), Exist(t)));
    CmpIsBranch(t, 0, CLT, false, Exist(t), Expect(t));
    StretchCrossed(f, Emits(MoveCode(t, 0, Exist(t), Expect(t))), Emits(MoveCode(t, 0, Exist(t), Exist(t))));
  }

  lemma BackOver(a: seq<Ev>, ls: seq<Ev>)
    requires LoopLike(ls)
    ensures LabelEarlier(a + ls, |a| + |ls| - 4, 0)
  {
    hide Pos;
    var s, p := a + ls, |a|;
    var k := p + |ls| - 4;
    assert s[k - 1] == ls[|ls| - 5] && s[p] == ls[0];
    PosEmit(s, k - 1);
    PosMonotone(s, p, k - 1);
  }

  /** A stretch followed by the loop leaves no local branch without a label. */
  lemma LoopFound(a: seq<Ev>, ls: seq<Ev>)
    requires Stretch(a) && LoopLike(ls)
    ensures LocalsFound(a + ls)
  {
    hide Marked, Unlined, LabelEarlier;
    var s, p := a + ls, |a|;
    assert s[|s| - 1] == ls[|ls| - 1];
    BackOver(a, ls);
    forall k | 0 <= k < |s| && s[k].BranchLocal?
      ensures if s[k].isNext then LabelLater(s, k, s[k].local) else LabelEarlier(s, k, s[k].local)
    {
      if k < p {
        assert a[k] == s[k];
        var j :| k < j < |a| && a[j] == LabelLocal(a[k].local);
        assert s[j] == a[j];
      } else {
        assert s[k] == ls[k - p];
      }
    }
  }

  lemma CopyLength(t: Target)
    requires Passes(t) && |t.temps| >= 3
    ensures |CopyScript(t)| <= 60
  {
    hide Emits, ForkScript, ReleaseSlot;
    var f, g := IneqFork(t, 0, Exist(t), SubZero(Expect(t)), LT), EquFork(t, 1, Iter(t), Exist(t), true);
    ForkLength(f, NEXT0);
    ForkLength(g, NEXT0);
    ForkLength(JUMP, NEXT1);
    ForkLength(JUMP, PREV0);
    SpareApart(t);
    assert |f.pre| <= 4;
    assert |g.pre| <= 4;
  }

  /** The routine can be linked, so its termination is no empty promise. */
  lemma CopyLinks(t: Target)
    requires Passes(t) && |t.temps| >= 3
    ensures Linkable(CopyScript(t))
  {
    hide Stretch, LocalsFound, Marked, Resolvable, MinScript, LoopScript, MoveCode;
    var init := Emits(AcquireCode(t, 0) + MoveCode(t, 1, Iter(t), Imm(0)));
    var mins := MinScript(t, 0, Exist(t), Exist(t), Expect(t));
    var loop := LoopScript(t, 1, Iter(t).reg, Exist(t).reg, t.spare[RA_DST], t.spare[RA_SRC]);
    MinStretch(t);
    StretchWords(AcquireCode(t, 0) + MoveCode(t, 1, Iter(t), Imm(0)));
    StretchJoin(mins, init);
    LoopMarked(t, Iter(t).reg, Exist(t).reg, t.spare[RA_DST], t.spare[RA_SRC]);
    StretchMarked(mins + init);
    MarkedConcat(mins + init, loop);
    LoopIsLike(t, Iter(t).reg, Exist(t).reg, t.spare[RA_DST], t.spare[RA_SRC]);
    LoopFound(mins + init, loop);
    FoundResolvable(CopyScript(t));
    CopyLength(t);
    CodeShort(CopyScript(t));
    ShortReachable(CopyScript(t));
  }

  lemma StretchMarked(s: seq<Ev>)
    requires Stretch(s)
    ensures Marked(s)
  {
  }
}

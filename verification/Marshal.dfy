/**
 Marshalling the arguments of a call to a C function, after the o32 convention of the System V
 ABI MIPS Processor Supplement: four in registers, the rest above a sixteen byte home area.
 */
module Marshal {
  import opened Words
  import opened Mips
  import opened Target
  import opened Moves
  import opened ArithCode
  import opened ArithOps
  import opened ArgMoves
  import opened ParallelMoves
  import opened ArgAssign

  const ARGS_BY_REG: nat := 4

  /** Row i has an entry when argument i is an argument register. */
  function DependencyGraph(args: seq<Operand>): (g: Graph)
    ensures |g| == ARGS_BY_REG && SingleSource(g)
  {
    seq(ARGS_BY_REG, i requires 0 <= i < ARGS_BY_REG =>
      seq(ARGS_BY_REG, j requires 0 <= j < ARGS_BY_REG =>
        if i < |args| && args[i] == OpReg(ArgReg(j)) then 1 else 0))
  }

  function RegArgs(args: seq<Operand>): nat {
    if |args| < ARGS_BY_REG then |args| else ARGS_BY_REG
  }

  /** Bytes for the arguments: never less than the home area of four. */
  function ArgBytes(args: seq<Operand>): nat {
    4 * if |args| < ARGS_BY_REG then ARGS_BY_REG else |args|
  }

  /** Home of argument i, for i from four up. */
  function StackArg(t: Target, i: nat): Operand
    requires i >= ARGS_BY_REG
  {
    TargetDAddr(t.sp, 16 + 4 * (i - ARGS_BY_REG))
  }

  /** Stores of arguments four up to k. */
  function StackArgs(t: Target, T: nat, args: seq<Operand>, k: nat): seq<Instr>
    requires |t.temps| > 0 && k <= |args|
  {
    if k <= ARGS_BY_REG then [] else StackArgs(t, T, args, k - 1) + MoveCode(t, T, StackArg(t, k - 1), args[k - 1])
  }

  predicate FromArgReg(o: Operand) {
    o.OpReg? && IsArgReg(o.reg, ARGS_BY_REG)
  }

  /** Register arguments below k that do not come from an argument register. */
  function LoadArgs(t: Target, T: nat, args: seq<Operand>, k: nat): seq<Instr>
    requires |t.temps| > 0 && k <= RegArgs(args)
  {
    if k == 0 then []
    else LoadArgs(t, T, args, k - 1) + if FromArgReg(args[k - 1]) then [] else MoveCode(t, T, OpReg(ArgReg(k - 1)), args[k - 1])
  }

  function PlaceCode(t: Target, T: nat, args: seq<Operand>): seq<Instr>
    requires |t.temps| > 0
  {
    RoundsInRange(args);
    StackArgs(t, T, args, |args|) + ArgCode(t, Rounds(DependencyGraph(args), -4), ARGS_BY_REG) + LoadArgs(t, T, args, RegArgs(args))
  }

  lemma RoundsInRange(args: seq<Operand>)
    ensures InRegs(Rounds(DependencyGraph(args), -4), ARGS_BY_REG)
  {
    MovesInRegs(DependencyGraph(args), -4);
  }

  /** From the stack update to just before the call. */
  function MarshalCode(t: Target, T: nat, args: seq<Operand>): seq<Instr>
    requires |t.temps| > 0
  {
    SubCode(t, T, OpReg(t.sp), OpReg(t.sp), Imm(SmallArgs(args))) + PlaceCode(t, T, args)
  }

  /** The size as an immediate. */
  function SmallArgs(args: seq<Operand>): Word {
    Norm(ArgBytes(args))
  }

  /** Moving the stack pointer by an immediate that fits is one instruction. */
  lemma SpBySub(t: Target, T: nat, k: Word)
    requires t.Valid() && 0 < k <= 0x8000
    ensures SubCode(t, T, OpReg(t.sp), OpReg(t.sp), Imm(k)) == [Addiu(t.sp, t.sp, 0 - k)]
  {
    hide TempAt, AcquireCode;
    HalfFits(0 - k);
  }

  // ----- what the caller has to guarantee -----

  /** Operands that do not hang on the stack pointer: registers, immediates, frame slots. */
  predicate ArgOk(t: Target, x: Data, o: Operand) {
    match o
    case OpReg(r) => r != t.sp
    case DAddr(b, off) => b == t.fp && EffAddr(x, b, off) >= R(x, t.sp)
    case Imm(_) => true
  }

  /** As many temporaries as argument registers, all live when there are stack arguments. */
  ghost predicate CallOk(t: Target, T: nat, args: seq<Operand>, x: Data) {
    && t.Valid() && |t.temps| == ARGS_BY_REG && T <= ARGS_BY_REG && T >= RegArgs(args)
    && !IsArgReg(t.sp, ARGS_BY_REG) && !IsArgReg(t.fp, ARGS_BY_REG)
    && ArgBytes(args) < 0x8000
    && R(x, t.sp) - ArgBytes(args) >= -0x8000_0000 + 0x8000
    && forall i :: 0 <= i < |args| ==> ArgOk(t, x, args[i])
  }

  /** After the stores of arguments below k: they are in place, and nothing else has changed. */
  ghost predicate Stored(t: Target, args: seq<Operand>, k: nat, x: Data, y: Data) {
    && k <= |args|
    && (forall q: Reg :: R(y, q) == R(x, q))
    && (forall i :: ARGS_BY_REG <= i < k ==> Ld(y, R(x, t.sp) + 16 + 4 * (i - ARGS_BY_REG)) == Val(x, args[i]))
    && (forall a :: a >= R(x, t.sp) + ArgBytes(args) ==> Ld(y, a) == Ld(x, a))
  }

  /** An argument reads the same while stack arguments are stored below the caller's frame. */
  lemma StoredReads(t: Target, args: seq<Operand>, k: nat, x: Data, y: Data, o: Operand)
    requires Stored(t, args, k, x, y)
    requires o.DAddr? ==> EffAddr(x, o.base, o.offset) >= R(x, t.sp) + ArgBytes(args)
    ensures Val(y, o) == Val(x, o)
  {
  }

  /** Storing one more, even when it takes a temporary that has to be spilled and reloaded. */
  lemma StoreOne(t: Target, args: seq<Operand>, k: nat, x: Data, y: Data)
    requires t.Valid() && |t.temps| == ARGS_BY_REG && !IsArgReg(t.sp, ARGS_BY_REG)
    requires ARGS_BY_REG <= k < |args| && Stored(t, args, k, x, y) && ArgBytes(args) < 0x8000
    requires R(x, t.sp) >= -0x8000_0000 + 0x8000 && R(x, t.sp) + ArgBytes(args) < 0x8000_0000
    requires args[k].DAddr? ==> args[k].base == t.fp && EffAddr(x, t.fp, args[k].offset) >= R(x, t.sp) + ArgBytes(args)
    ensures Stored(t, args, k + 1, x, ExecSeq(MoveCode(t, ARGS_BY_REG, StackArg(t, k), args[k]), y))
  {
    hide ExecSeq, MoveCode, Sim, Norm, Int16, TempAt;
    var d, s := StackArg(t, k), args[k];
    var lo := R(x, t.sp) - 4;
    var z := ExecSeq(MoveCode(t, ARGS_BY_REG, d, s), y);
    HomeAt(t, k, x, y);
    StoreReady(t, lo, y, d, s);
    MoveMoves(t, ARGS_BY_REG, lo, d, s, y);
    StoredReads(t, args, k, x, y, s);
    FullSim(t, lo, Upd(y, d, Val(y, s)), z);
  }

  lemma HomeAt(t: Target, k: nat, x: Data, y: Data)
    requires t.Valid() && R(y, t.sp) == R(x, t.sp) && k >= ARGS_BY_REG && 16 + 4 * (k - ARGS_BY_REG) < 0x8000
    requires R(x, t.sp) + 16 + 4 * (k - ARGS_BY_REG) < 0x8000_0000
    ensures StackArg(t, k).DAddr? && StackArg(t, k).base == t.sp
    ensures EffAddr(y, t.sp, StackArg(t, k).offset) == R(x, t.sp) + 16 + 4 * (k - ARGS_BY_REG)
  {
    HalfFits(16 + 4 * (k - ARGS_BY_REG));
    NormWord(R(x, t.sp) + 16 + 4 * (k - ARGS_BY_REG));
  }

  lemma StoreReady(t: Target, lo: int, y: Data, d: Operand, s: Operand)
    requires t.Valid() && |t.temps| == ARGS_BY_REG && lo == R(y, t.sp) - 4
    requires d.DAddr? && d.base == t.sp && EffAddr(y, t.sp, d.offset) > lo
    requires s.DAddr? ==> s.base == t.fp && EffAddr(y, t.fp, s.offset) > lo
    requires R(y, t.sp) >= -0x8000_0000 + 0x8000
    ensures MoveOk(t, ARGS_BY_REG, lo, y, d, s)
  {
    SpecialsNotTemps(t);
    NonTempSpared(t, 4, 4, t.sp);
    NonTempSpared(t, 4, 5, t.sp);
    NonTempSpared(t, 4, 4, t.fp);
    NonTempSpared(t, 4, 5, t.fp);
    assert SlotNo(4, 0) == 1;
    assert R(y, t.sp) - 4 * SlotNo(|t.temps|, 0) == lo;
  }

  /** With every temporary live, similar states agree on every register. */
  lemma FullSim(t: Target, lo: int, y: Data, z: Data)
    requires t.Valid() && |t.temps| == ARGS_BY_REG && Sim(t, ARGS_BY_REG, lo, y, z)
    ensures forall q: Reg :: R(z, q) == R(y, q)
    ensures forall a :: a > lo ==> Ld(z, a) == Ld(y, a)
  {
    forall q: Reg
      ensures R(z, q) == R(y, q)
    {
      assert Spared(t, ARGS_BY_REG, ARGS_BY_REG, q);
    }
  }

  lemma {:induction false} StackArgsStored(t: Target, T: nat, args: seq<Operand>, k: nat, x: Data)
    requires t.Valid() && |t.temps| == ARGS_BY_REG && !IsArgReg(t.sp, ARGS_BY_REG) && T == ARGS_BY_REG
    requires ARGS_BY_REG <= k <= |args| && ArgBytes(args) < 0x8000
    requires R(x, t.sp) >= -0x8000_0000 + 0x8000 && R(x, t.sp) + ArgBytes(args) < 0x8000_0000
    requires forall i :: 0 <= i < |args| && args[i].DAddr? ==> args[i].base == t.fp && EffAddr(x, t.fp, args[i].offset) >= R(x, t.sp) + ArgBytes(args)
    ensures Stored(t, args, k, x, ExecSeq(StackArgs(t, T, args, k), x))
    decreases k
  {
    hide ExecSeq, MoveCode, EffAddr, Val, Stored;
    if k == ARGS_BY_REG {
      ExecNone(x);
      StoredNone(t, args, x);
    } else {
      var y := ExecSeq(StackArgs(t, T, args, k - 1), x);
      StackArgsStored(t, T, args, k - 1, x);
      StoreOne(t, args, k - 1, x, y);
      ExecConcat(StackArgs(t, T, args, k - 1), MoveCode(t, T, StackArg(t, k - 1), args[k - 1]), x);
    }
  }

  lemma StoredNone(t: Target, args: seq<Operand>, x: Data)
    requires ARGS_BY_REG <= |args|
    ensures Stored(t, args, ARGS_BY_REG, x, x)
  {
  }

  // ----- register arguments -----

  /** Arguments that are not argument registers, loaded one after the other. */
  lemma {:induction false} LoadArgsLoads(t: Target, T: nat, args: seq<Operand>, k: nat, x: Data)
    requires t.Valid() && k <= RegArgs(args) && !IsArgReg(t.fp, ARGS_BY_REG)
    requires forall i :: 0 <= i < |args| && args[i].DAddr? ==> args[i].base == t.fp
    ensures var y := ExecSeq(LoadArgs(t, T, args, k), x);
            && y.mem == x.mem && (forall q: Reg :: !IsArgReg(q, ARGS_BY_REG) ==> R(y, q) == R(x, q))
            && (forall i :: 0 <= i < k && !FromArgReg(args[i]) ==> R(y, ArgReg(i)) == Val(x, args[i]))
            && (forall i :: 0 <= i < ARGS_BY_REG && (i >= k || FromArgReg(args[i])) ==> R(y, ArgReg(i)) == R(x, ArgReg(i)))
    decreases k
  {
    hide ExecSeq, MoveCode, EffAddr, Upd, Val;
    if k == 0 {
      ExecNone(x);
    } else {
      var a := args[k - 1];
      var z := ExecSeq(LoadArgs(t, T, args, k - 1), x);
      LoadArgsLoads(t, T, args, k - 1, x);
      ExecConcat(LoadArgs(t, T, args, k - 1), if FromArgReg(a) then [] else MoveCode(t, T, OpReg(ArgReg(k - 1)), a), x);
      if FromArgReg(a) {
        ExecNone(z);
      } else {
        MoveExact(t, T, OpReg(ArgReg(k - 1)), a, z);
        LoadReads(t, a, x, z);
        RegUpd(z, ArgReg(k - 1), Val(z, a));
      }
    }
  }

  lemma RegUpd(x: Data, r: Reg, v: Word)
    requires r != ZERO
    ensures var y := Upd(x, OpReg(r), v); y.mem == x.mem && forall q: Reg :: R(y, q) == if q == r then v else R(x, q)
  {
  }

  lemma LoadReads(t: Target, o: Operand, x: Data, z: Data)
    requires z.mem == x.mem && (forall q: Reg :: !IsArgReg(q, ARGS_BY_REG) ==> R(z, q) == R(x, q))
    requires !FromArgReg(o) && (o.DAddr? ==> o.base == t.fp) && !IsArgReg(t.fp, ARGS_BY_REG)
    ensures Val(z, o) == Val(x, o)
  {
  }

  lemma GraphSource(args: seq<Operand>, i: nat)
    requires i < ARGS_BY_REG
    ensures var g := DependencyGraph(args);
            Source(g, i) == if i < |args| && FromArgReg(args[i]) then args[i].reg - A0 + 1 else 0
  {
    var g := DependencyGraph(args);
    if i < |args| && FromArgReg(args[i]) {
      assert ArgReg(args[i].reg - A0) == args[i].reg;
      SourceIs(g, i, args[i].reg - A0);
    } else {
      forall j | 0 <= j < ARGS_BY_REG
        ensures g[i][j] == 0
      {
        assert IsArgReg(ArgReg(j), ARGS_BY_REG);
      }
    }
  }

  /** Resolving the graph touches argument registers only, whatever its shape. */
  lemma GraphKeeps(t: Target, args: seq<Operand>, x: Data)
    requires t.Valid() && !IsArgReg(t.sp, ARGS_BY_REG)
    ensures InRegs(Rounds(DependencyGraph(args), -4), ARGS_BY_REG)
    ensures var y := ExecSeq(ArgCode(t, Rounds(DependencyGraph(args), -4), ARGS_BY_REG), x);
            y.mem == x.mem && forall q: Reg :: !IsArgReg(q, ARGS_BY_REG) ==> R(y, q) == R(x, q)
  {
    hide ExecSeq, Rounds, DependencyGraph, RunMoves;
    RoundsInRange(args);
    ArgCodeRuns(t, Rounds(DependencyGraph(args), -4), ARGS_BY_REG, x);
  }

  /** Argument registers that are arguments are all in place together. */
  lemma GraphPlaces(t: Target, args: seq<Operand>, x: Data)
    requires t.Valid() && !IsArgReg(t.sp, ARGS_BY_REG) && Acyclic(DependencyGraph(args))
    ensures InRegs(Rounds(DependencyGraph(args), -4), ARGS_BY_REG)
    ensures var y := ExecSeq(ArgCode(t, Rounds(DependencyGraph(args), -4), ARGS_BY_REG), x);
            && y.mem == x.mem && (forall q: Reg :: !IsArgReg(q, ARGS_BY_REG) ==> R(y, q) == R(x, q))
            && (forall i :: 0 <= i < RegArgs(args) && FromArgReg(args[i]) ==> R(y, ArgReg(i)) == Val(x, args[i]))
  {
    hide ExecSeq, Rounds, DependencyGraph, RunMoves, Source, Acyclic;
    var g := DependencyGraph(args);
    RoundsInRange(args);
    ArgCodeRuns(t, Rounds(g, -4), ARGS_BY_REG, x);
    AcyclicParallel(g, -4, ArgRegs(x, ARGS_BY_REG), StackAt(t, x));
    forall i | 0 <= i < RegArgs(args) && FromArgReg(args[i])
      ensures R(ExecSeq(ArgCode(t, Rounds(g, -4), ARGS_BY_REG), x), ArgReg(i)) == Val(x, args[i])
    {
      GraphSource(args, i);
      assert ArgRegs(x, ARGS_BY_REG)[args[i].reg - A0] == R(x, args[i].reg);
      assert Parallel(g, ArgRegs(x, ARGS_BY_REG))[i] == R(x, args[i].reg);
    }
  }

  // ----- the whole -----

  /** What a C function expects to find: a0 to a3, argument i at sp + 4 i from the fifth on, sixteen bytes of home area at least. */
  ghost predicate Placed(t: Target, args: seq<Operand>, x: Data, y: Data) {
    && R(y, t.sp) == R(x, t.sp) - 4 * (if |args| < 4 then 4 else |args|)
    && (forall i :: 0 <= i < |args| && i < 4 ==> R(y, A0 + i) == Val(x, args[i]))
    && (forall i :: 4 <= i < |args| ==> Ld(y, R(y, t.sp) + 4 * i) == Val(x, args[i]))
  }

  /** Nothing of the caller's is touched: its memory, and every register but sp and the arguments. */
  ghost predicate CallerKept(t: Target, x: Data, y: Data) {
    && (forall a :: a >= R(x, t.sp) ==> Ld(y, a) == Ld(x, a))
    && (forall q: Reg :: q != t.sp && !IsArgReg(q, ARGS_BY_REG) ==> R(y, q) == R(x, q))
  }

  lemma SpMoved(t: Target, T: nat, args: seq<Operand>, x: Data)
    requires CallOk(t, T, args, x)
    ensures var y := ExecSeq(SubCode(t, T, OpReg(t.sp), OpReg(t.sp), Imm(SmallArgs(args))), x);
            && y.mem == x.mem && R(y, t.sp) == R(x, t.sp) - ArgBytes(args)
            && (forall q: Reg :: q != t.sp ==> R(y, q) == R(x, q))
            && (forall i :: 0 <= i < |args| ==> Val(y, args[i]) == Val(x, args[i]))
            && (forall i :: 0 <= i < |args| && args[i].DAddr? ==> args[i].base == t.fp && EffAddr(y, t.fp, args[i].offset) >= R(y, t.sp) + ArgBytes(args))
  {
    hide ExecSeq, SubCode;
    var k: int := ArgBytes(args);
    NormWord(k);
    SpBySub(t, T, k);
    ExecOne(Addiu(t.sp, t.sp, 0 - k), x);
    NormWord(R(x, t.sp) - k);
  }

  lemma StackPart(t: Target, T: nat, args: seq<Operand>, x: Data)
    requires t.Valid() && |t.temps| == ARGS_BY_REG && !IsArgReg(t.sp, ARGS_BY_REG) && T <= ARGS_BY_REG && T >= RegArgs(args)
    requires ArgBytes(args) < 0x8000
    requires R(x, t.sp) >= -0x8000_0000 + 0x8000 && R(x, t.sp) + ArgBytes(args) < 0x8000_0000
    requires forall i :: 0 <= i < |args| && args[i].DAddr? ==> args[i].base == t.fp && EffAddr(x, t.fp, args[i].offset) >= R(x, t.sp) + ArgBytes(args)
    ensures Stored(t, args, |args|, x, ExecSeq(StackArgs(t, T, args, |args|), x))
  {
    hide EffAddr, ExecSeq;
    if |args| >= ARGS_BY_REG {
      StackArgsStored(t, T, args, |args|, x);
    } else {
      ExecNone(x);
    }
  }

  /**
   Marshalling is right for any number of arguments: when the argument registers that are
   arguments do not form a cycle, each argument is where the callee looks for it, with the
   value it had before anything was moved, and the caller's frame is as it was.
   */
  lemma MarshalPlaces(t: Target, T: nat, args: seq<Operand>, x: Data)
    requires CallOk(t, T, args, x) && Acyclic(DependencyGraph(args))
    ensures var y := ExecSeq(MarshalCode(t, T, args), x); Placed(t, args, x, y) && CallerKept(t, x, y)
  {
    hide ExecSeq, SubCode, DependencyGraph, Acyclic, EffAddr, Rounds, StackArgs, LoadArgs, SmallArgs;
    RoundsInRange(args);
    var sub := SubCode(t, T, OpReg(t.sp), OpReg(t.sp), Imm(SmallArgs(args)));
    var st, mv, ld := StackArgs(t, T, args, |args|), ArgCode(t, Rounds(DependencyGraph(args), -4), ARGS_BY_REG), LoadArgs(t, T, args, RegArgs(args));
    assert MarshalCode(t, T, args) == sub + st + mv + ld;
    ExecFour(sub, st, mv, ld, x);
    var x1 := ExecSeq(sub, x);
    SpMoved(t, T, args, x);
    StackPart(t, T, args, x1);
    var x2 := ExecSeq(st, x1);
    GraphPlaces(t, args, x2);
    var x3 := ExecSeq(mv, x2);
    LoadArgsLoads(t, T, args, RegArgs(args), x3);
    ReadsThrough(t, args, x, x1, x2, x3);
    var y := ExecSeq(ld, x3);
    KeptThrough(t, args, x, x1, x2, x3, y);
    PlacedThrough(t, args, x, x1, x2, x3, y);
    hide Val, Placed, CallerKept, Stored, CallOk;
  }

  /** And whatever the arguments, cyclic or not, sp is moved by their bytes and the caller's frame is as it was. */
  lemma MarshalKeeps(t: Target, T: nat, args: seq<Operand>, x: Data)
    requires CallOk(t, T, args, x)
    ensures var y := ExecSeq(MarshalCode(t, T, args), x); R(y, t.sp) == R(x, t.sp) - ArgBytes(args) && CallerKept(t, x, y)
  {
    hide ExecSeq, SubCode, DependencyGraph, EffAddr, Rounds, StackArgs, LoadArgs, SmallArgs;
    RoundsInRange(args);
    var sub := SubCode(t, T, OpReg(t.sp), OpReg(t.sp), Imm(SmallArgs(args)));
    var st, mv, ld := StackArgs(t, T, args, |args|), ArgCode(t, Rounds(DependencyGraph(args), -4), ARGS_BY_REG), LoadArgs(t, T, args, RegArgs(args));
    assert MarshalCode(t, T, args) == sub + st + mv + ld;
    ExecFour(sub, st, mv, ld, x);
    var x1 := ExecSeq(sub, x);
    SpMoved(t, T, args, x);
    StackPart(t, T, args, x1);
    var x2 := ExecSeq(st, x1);
    GraphKeeps(t, args, x2);
    var x3 := ExecSeq(mv, x2);
    LoadArgsLoads(t, T, args, RegArgs(args), x3);
    KeptThrough(t, args, x, x1, x2, x3, ExecSeq(ld, x3));
  }

  lemma KeptThrough(t: Target, args: seq<Operand>, x: Data, x1: Data, x2: Data, x3: Data, y: Data)
    requires x1.mem == x.mem && R(x1, t.sp) == R(x, t.sp) - ArgBytes(args) && forall q: Reg :: q != t.sp ==> R(x1, q) == R(x, q)
    requires Stored(t, args, |args|, x1, x2) && x3.mem == x2.mem && y.mem == x3.mem
    requires forall q: Reg :: !IsArgReg(q, ARGS_BY_REG) ==> R(x3, q) == R(x2, q)
    requires forall q: Reg :: !IsArgReg(q, ARGS_BY_REG) ==> R(y, q) == R(x3, q)
    ensures CallerKept(t, x, y)
  {
    hide ArgBytes;
    forall a | a >= R(x, t.sp)
      ensures Ld(y, a) == Ld(x, a)
    {
      assert Ld(x2, a) == Ld(x1, a);
    }
  }

  lemma PlacedThrough(t: Target, args: seq<Operand>, x: Data, x1: Data, x2: Data, x3: Data, y: Data)
    requires R(x1, t.sp) == R(x, t.sp) - ArgBytes(args) && Stored(t, args, |args|, x1, x2) && x3.mem == x2.mem && y.mem == x3.mem
    requires !IsArgReg(t.sp, ARGS_BY_REG)
    requires forall i :: 0 <= i < |args| ==> Val(x1, args[i]) == Val(x, args[i]) && Val(x2, args[i]) == Val(x, args[i])
    requires forall i :: 0 <= i < |args| && !FromArgReg(args[i]) ==> Val(x3, args[i]) == Val(x, args[i])
    requires forall q: Reg :: !IsArgReg(q, ARGS_BY_REG) ==> R(x3, q) == R(x2, q)
    requires forall q: Reg :: !IsArgReg(q, ARGS_BY_REG) ==> R(y, q) == R(x3, q)
    requires forall i :: 0 <= i < RegArgs(args) && FromArgReg(args[i]) ==> R(x3, ArgReg(i)) == Val(x2, args[i])
    requires forall i :: 0 <= i < RegArgs(args) && !FromArgReg(args[i]) ==> R(y, ArgReg(i)) == Val(x3, args[i])
    requires forall i :: 0 <= i < RegArgs(args) && FromArgReg(args[i]) ==> R(y, ArgReg(i)) == R(x3, ArgReg(i))
    ensures Placed(t, args, x, y)
  {
    hide Val, FromArgReg;
    forall i | 4 <= i < |args|
      ensures Ld(y, R(y, t.sp) + 4 * i) == Val(x, args[i])
    {
      assert Ld(x2, R(x1, t.sp) + 16 + 4 * (i - ARGS_BY_REG)) == Val(x1, args[i]);
    }
    forall i | 0 <= i < |args| && i < 4
      ensures R(y, A0 + i) == Val(x, args[i])
    {
      assert Val(x2, args[i]) == Val(x, args[i]);
      assert R(y, ArgReg(i)) == Val(x, args[i]);
    }
  }

  lemma ReadsThrough(t: Target, args: seq<Operand>, x: Data, x1: Data, x2: Data, x3: Data)
    requires t.Valid() && !IsArgReg(t.fp, ARGS_BY_REG) && Stored(t, args, |args|, x1, x2)
    requires x3.mem == x2.mem && forall q: Reg :: !IsArgReg(q, ARGS_BY_REG) ==> R(x3, q) == R(x2, q)
    requires forall i :: 0 <= i < |args| ==> Val(x1, args[i]) == Val(x, args[i])
    requires forall i :: 0 <= i < |args| && args[i].DAddr? ==> args[i].base == t.fp && EffAddr(x1, t.fp, args[i].offset) >= R(x1, t.sp) + ArgBytes(args)
    ensures forall i :: 0 <= i < |args| ==> Val(x2, args[i]) == Val(x, args[i])
    ensures forall i :: 0 <= i < |args| && !FromArgReg(args[i]) ==> Val(x3, args[i]) == Val(x, args[i])
  {
    hide Val, EffAddr, Stored, FromArgReg;
    forall i | 0 <= i < |args|
      ensures Val(x2, args[i]) == Val(x, args[i])
      ensures !FromArgReg(args[i]) ==> Val(x3, args[i]) == Val(x, args[i])
    {
      StoredReads(t, args, |args|, x1, x2, args[i]);
      if !FromArgReg(args[i]) {
        LoadReads(t, args[i], x2, x3);
      }
    }
  }
}

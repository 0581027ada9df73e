/**
 Compare-and-branch lowering. Each lowers to a fork: straight-line code, one branch, and one
 instruction in its delay slot. The proofs say when the branch is taken and that nothing the
 caller sees has changed after the slot, whichever way control goes.
 */
module BranchCode {
  import opened Words
  import opened Mips
  import opened Target
  import opened Moves
  import opened ArithCode
  import opened ArithOps

  datatype Fork = Fork(pre: seq<Instr>, br: Instr, slot: Instr)

  predicate IsInvertible(o: Operand) {
    IsAddImmed(o) && IsSubImmed(o)
  }

  /** One instruction either way: the reload of a release, or a no-op. */
  function ReleaseSlot(t: Target, T: nat): Instr
    requires |t.temps| > 0 && T > 0
  {
    if ReleaseCode(t, T) == [] then NOP else ReleaseCode(t, T)[0]
  }

  // ----- equality -----

  function BrEq(p: bool, rs: Reg, rt: Reg): Instr {
    if p then Beq(rs, rt, 0) else Bne(rs, rt, 0)
  }

  /** Operand pairs that the instruction selection of equality knows. */
  predicate EquPattern(s: Operand, u: Operand) {
    (s.OpReg? || s.DAddr?) && (u.DAddr? || IsInvertible(u) || (s.OpReg? && u.OpReg?))
  }

  predicate EquAccepts(s: Operand, u: Operand) {
    EquPattern(s, u) || EquPattern(u, s)
  }

  function LoadTemp(t: Target, T: nat, o: Operand): seq<Instr>
    requires |t.temps| > 0
  {
    AcquireCode(t, T) + LoadRegCode(o, TempAt(t, T), false)
  }

  function EquMatched(t: Target, T: nat, s: Operand, u: Operand, p: bool): Fork
    requires |t.temps| > 0 && EquPattern(s, u)
  {
    var r := TempAt(t, T);
    if s.OpReg? && u.OpReg? then
      Fork([], BrEq(p, s.reg, u.reg), NOP)
    else if s.OpReg? && u.DAddr? then
      Fork(LoadTemp(t, T, u), BrEq(p, s.reg, r), ReleaseSlot(t, T + 1))
    else if s.OpReg? then
      Fork([Addiu(s.reg, s.reg, Int16(-(u.k as int)))], BrEq(p, s.reg, ZERO), Addiu(s.reg, s.reg, Int16(u.k)))
    else if u.DAddr? then
      var r2 := TempAt(t, T + 1);
      Fork(AcquireCode(t, T) + AcquireCode(t, T + 1) + (LoadRegCode(s, r, false) + LoadRegCode(u, r2, false) + [Subu(r, r, r2)])
           + ReleaseCode(t, T + 2), BrEq(p, r, ZERO), ReleaseSlot(t, T + 1))
    else
      Fork(LoadTemp(t, T, s) + [Addiu(r, r, Int16(-(u.k as int)))], BrEq(p, r, ZERO), ReleaseSlot(t, T + 1))
  }

  /** A pair that does not match is tried once more the other way round. */
  function EquFork(t: Target, T: nat, s: Operand, u: Operand, p: bool): Fork
    requires |t.temps| > 0 && EquAccepts(s, u)
  {
    if EquPattern(s, u) then EquMatched(t, T, s, u, p) else EquMatched(t, T, u, s, p)
  }

  // ----- inequality -----

  datatype Rel = LT | GT | LE | GE

  predicate Holds(rel: Rel, a: int, b: int) {
    match rel
    case LT => a < b
    case GT => a > b
    case LE => a <= b
    case GE => a >= b
  }

  function BrRel(rel: Rel, r: Reg): Instr {
    match rel
    case LT => Bltz(r, 0)
    case GT => Bgtz(r, 0)
    case LE => Blez(r, 0)
    case GE => Bgez(r, 0)
  }

  function Anti(rel: Rel): Rel {
    match rel
    case LT => GT
    case GT => LT
    case LE => GE
    case GE => LE
  }

  predicate NeedsTemp(o: Operand) {
    !(o.OpReg? || IsInvertible(o))
  }

  /** The operand as ineq_load_temp leaves it. */
  function AsLoaded(t: Target, T: nat, o: Operand): Operand
    requires |t.temps| > 0
  {
    if NeedsTemp(o) then OpReg(TempAt(t, T)) else o
  }

  function IneqLoad(t: Target, T: nat, o: Operand): seq<Instr>
    requires |t.temps| > 0
  {
    if NeedsTemp(o) then LoadTemp(t, T, o) else []
  }

  /** Temporaries live once the first operand has been loaded. */
  function IneqSecondAt(T: nat, s: Operand): nat {
    if NeedsTemp(s) then T + 1 else T
  }

  /** Both operands loaded, and their difference in a temporary if there is one. */
  function IneqPre(t: Target, T: nat, s: Operand, u: Operand): seq<Instr>
    requires |t.temps| > 0 && !s.Imm?
  {
    var T1 := IneqSecondAt(T, s);
    var T2 := if NeedsTemp(u) then T1 + 1 else T1;
    var s', u' := AsLoaded(t, T, s), AsLoaded(t, T1, u);
    var d: Operand := if !NeedsTemp(s) && NeedsTemp(u) then u' else s';
    IneqLoad(t, T, s) + IneqLoad(t, T1, u) + SubCode(t, T2, d, s', u')
  }

  function IneqMatched(t: Target, T: nat, s: Operand, u: Operand, rel: Rel): Fork
    requires |t.temps| > 0 && !s.Imm?
  {
    var u' := AsLoaded(t, IneqSecondAt(T, s), u);
    var d: Operand := if !NeedsTemp(s) && NeedsTemp(u) then u' else AsLoaded(t, T, s);
    var pre := IneqPre(t, T, s, u);
    if NeedsTemp(s) && NeedsTemp(u) then Fork(pre + ReleaseCode(t, T + 2), BrRel(rel, d.reg), ReleaseSlot(t, T + 1))
    else if NeedsTemp(s) || NeedsTemp(u) then Fork(pre, BrRel(rel, d.reg), ReleaseSlot(t, T + 1))
    else AddInPlace(t, T, d.reg, u'); Fork(pre, BrRel(rel, d.reg), AddCode(t, T, d, d, u')[0])
  }

  function IneqFork(t: Target, T: nat, s: Operand, u: Operand, rel: Rel): Fork
    requires |t.temps| > 0 && !BothImm(s, u)
  {
    if s.Imm? then IneqMatched(t, T, u, s, Anti(rel)) else IneqMatched(t, T, s, u, rel)
  }

  // ----- one-instruction cases -----

  /** Adding a register or a small immediate in place takes exactly one instruction. */
  lemma AddInPlace(t: Target, T: nat, d: Reg, u: Operand)
    requires |t.temps| > 0 && (u.OpReg? || IsInvertible(u))
    ensures AddCode(t, T, OpReg(d), OpReg(d), u) ==
            [if SubZero(u).Imm? then Addiu(d, d, Int16(u.k)) else Addu(d, d, SubZero(u).reg)]
  {
  }

  /** So does subtracting one. */
  lemma SubInPlace(t: Target, T: nat, d: Reg, s: Reg, u: Operand)
    requires |t.temps| > 0 && (u.OpReg? || IsInvertible(u))
    ensures SubCode(t, T, OpReg(d), OpReg(s), u) ==
            [if SubZero(u).Imm? then Addiu(d, s, Int16(-(u.k as int))) else Subu(d, s, SubZero(u).reg)]
  {
    hide Int16, AcquireCode, LoadRegCode, TempAt;
  }

  // ----- proofs -----

  lemma ExecNop(x: Data)
    ensures Exec(NOP, x) == x
  {
  }

  lemma SlotReleases(t: Target, T: nat, x: Data)
    requires |t.temps| > 0 && T > 0
    ensures Exec(ReleaseSlot(t, T), x) == ExecSeq(ReleaseCode(t, T), x)
    ensures !IsControl(ReleaseSlot(t, T))
  {
    ExecNop(x);
    ExecNone(x);
    if ReleaseCode(t, T) != [] {
      ExecOne(ReleaseSlot(t, T), x);
    }
  }

  /** Subtraction compares to zero as its operands compare. */
  lemma SubIsZero(a: Word, b: Word)
    ensures Norm(a - b) == 0 <==> a == b
  {
  }

  /** Its sign is the comparison exactly when the difference fits a word. */
  lemma SubSign(rel: Rel, a: Word, b: Word)
    ensures (Holds(rel, Norm(a - b), 0) <==> Holds(rel, a, b)) <==> IsWord(a - b)
  {
  }

  /** What a fork must deliver: its branch decides cond, and both ways nothing changed. */
  ghost predicate Decides(t: Target, T: nat, lo: int, f: Fork, cond: bool, x: Data)
    requires |t.temps| > 0
  {
    var x1 := ExecSeq(f.pre, x);
    && Plain(f.pre) && IsBranch(f.br) && !IsControl(f.slot)
    && Taken(f.br, x1) == cond
    && Sim(t, T, lo, x, Exec(f.slot, x1))
  }

  /** Operands of a comparison, as for arithmetic but with nothing written. */
  ghost predicate Comparable(t: Target, T: nat, lo: int, x: Data, s: Operand, u: Operand) {
    && t.Valid() && Room(t, T, T + 2, lo, x)
    && Usable(t, T, T + 2, lo, x, s) && Usable(t, T, T + 2, lo, x, u)
  }

  /** A register can be changed for the comparison and put back if it is one that can be written. */
  predicate Restorable(s: Operand, u: Operand) {
    s.OpReg? && !NeedsTemp(u) ==> s.reg != ZERO && u != s
  }

  lemma PlainConcat(a: seq<Instr>, b: seq<Instr>)
    requires Plain(a) && Plain(b)
    ensures Plain(a + b)
  {
  }

  lemma PlainTemp(t: Target, T: nat, o: Operand, r: Reg)
    requires |t.temps| > 0
    ensures Plain(AcquireCode(t, T)) && Plain(LoadRegCode(o, r, false)) && (T > 0 ==> Plain(ReleaseCode(t, T)))
    ensures Plain(LoadTemp(t, T, o))
  {
  }

  /** An operand fetched into one temporary, ready to be compared. */
  lemma LoadTempHolds(t: Target, T: nat, lo: int, o: Operand, x: Data)
    requires t.Valid() && Room(t, T, T + 1, lo, x) && Usable(t, T, T + 1, lo, x, o) && !o.OpReg?
    ensures var z := ExecSeq(LoadTemp(t, T, o), x);
            Held(t, T, T + 1, lo, x, z) && R(z, TempAt(t, T)) == Val(x, o)
  {
    hide Held, ExecSeq, AcquireCode, LoadRegCode, Room, Usable, Val, TempAt;
    SimIsHeld(t, T, lo, x);
    LandInTemp(t, T, T, lo, x, x, o);
  }

  lemma SimIsHeld(t: Target, T: nat, lo: int, x: Data)
    requires t.Valid()
    ensures Held(t, T, T, lo, x, x)
  {
    SimRefl(t, T, lo, x);
  }

  /** The slot of a comparison that holds one temporary gives it back. */
  lemma SlotRestores(t: Target, T: nat, lo: int, y: Data, x: Data)
    requires t.Valid() && Held(t, T, T + 1, lo, y, x) && Room(t, T, T + 1, lo, y)
    ensures Sim(t, T, lo, y, Exec(ReleaseSlot(t, T + 1), x)) && !IsControl(ReleaseSlot(t, T + 1))
  {
    hide Held, ExecSeq, Exec, ReleaseCode, ReleaseSlot, Room;
    HeldRelease(t, T, T + 1, lo, y, x);
    SlotReleases(t, T + 1, x);
  }

  /** A one-register change to a held temporary. */
  lemma HeldAlu(t: Target, T: nat, hi: nat, lo: int, y: Data, x: Data, k: nat, i: Instr, v: Word)
    requires t.Valid() && Held(t, T, hi, lo, y, x) && T <= k < hi
    requires Exec(i, x) == W(x, TempAt(t, k), v)
    ensures Held(t, T, hi, lo, y, Exec(i, x)) && R(Exec(i, x), TempAt(t, k)) == v
  {
    hide Held, Exec;
    HeldTempWrite(t, T, hi, lo, y, x, k, v);
    TempOrdinary(t, k);
  }

  lemma ComparableOne(t: Target, T: nat, lo: int, x: Data, s: Operand, u: Operand)
    requires Comparable(t, T, lo, x, s, u)
    ensures Room(t, T, T + 1, lo, x) && Usable(t, T, T + 1, lo, x, s) && Usable(t, T, T + 1, lo, x, u)
    ensures Usable(t, T, T, lo, x, s) && Usable(t, T, T, lo, x, u)
  {
    hide Usable, Room;
    RoomFewer(t, T, T + 2, T + 1, lo, x);
    UsableFewer(t, T, T + 2, T + 1, lo, x, s);
    UsableFewer(t, T, T + 2, T + 1, lo, x, u);
    UsableFewer(t, T, T + 2, T, lo, x, s);
    UsableFewer(t, T, T + 2, T, lo, x, u);
  }

  lemma EquRegReg(t: Target, T: nat, lo: int, s: Operand, u: Operand, p: bool, x: Data)
    requires Comparable(t, T, lo, x, s, u) && s.OpReg? && u.OpReg?
    ensures Decides(t, T, lo, EquMatched(t, T, s, u, p), (Val(x, s) == Val(x, u)) == p, x)
  {
    hide Spared, Room, Norm;
    ExecNone(x);
    ExecNop(x);
    SimRefl(t, T, lo, x);
  }

  lemma EquRegMem(t: Target, T: nat, lo: int, s: Operand, u: Operand, p: bool, x: Data)
    requires Comparable(t, T, lo, x, s, u) && s.OpReg? && u.DAddr?
    ensures Decides(t, T, lo, EquMatched(t, T, s, u, p), (Val(x, s) == Val(x, u)) == p, x)
  {
    hide Spared, Room, Exec, ExecSeq, LoadTemp, Held, Sim, ReleaseSlot, TempAt, Usable, Val;
    ComparableOne(t, T, lo, x, s, u);
    var z := ExecSeq(LoadTemp(t, T, u), x);
    LoadTempHolds(t, T, lo, u, x);
    HeldVal(t, T, T + 1, lo, x, z, s);
    RegVal(z, s);
    SlotRestores(t, T, lo, x, z);
    PlainTemp(t, T, u, TempAt(t, T));
  }

  lemma RestoreReg(r: Reg, k: int, x: Data)
    requires r != ZERO && IsHalf(k) && IsHalf(-k)
    ensures var z := Exec(Addiu(r, r, Int16(-k)), x);
            R(z, r) == Norm(R(x, r) - k) && Exec(Addiu(r, r, Int16(k)), z) == x
  {
    HalfFits(k);
    HalfFits(-k);
    SubThenAdd(R(x, r), k);
    hide Norm;
    assert x.regs[r := x.regs[r]] == x.regs;
  }

  lemma EquRegImm(t: Target, T: nat, lo: int, s: Operand, u: Operand, p: bool, x: Data)
    requires Comparable(t, T, lo, x, s, u) && s.OpReg? && IsInvertible(u) && s.reg != ZERO
    ensures Decides(t, T, lo, EquMatched(t, T, s, u, p), (Val(x, s) == Val(x, u)) == p, x)
  {
    hide Spared, Room, Exec, Held, Norm, Usable;
    RestoreReg(s.reg, u.k, x);
    ExecOne(Addiu(s.reg, s.reg, Int16(-(u.k as int))), x);
    SubIsZero(R(x, s.reg), u.k);
    SimRefl(t, T, lo, x);
  }

  lemma EquMemImm(t: Target, T: nat, lo: int, s: Operand, u: Operand, p: bool, x: Data)
    requires Comparable(t, T, lo, x, s, u) && s.DAddr? && IsInvertible(u)
    ensures Decides(t, T, lo, EquMatched(t, T, s, u, p), (Val(x, s) == Val(x, u)) == p, x)
  {
    hide Spared, Room, Exec, ExecSeq, LoadTemp, Held, Sim, ReleaseSlot, TempAt, Usable, Norm;
    ComparableOne(t, T, lo, x, s, u);
    var r := TempAt(t, T);
    var i := Addiu(r, r, Int16(-(u.k as int)));
    var z := ExecSeq(LoadTemp(t, T, s), x);
    LoadTempHolds(t, T, lo, s, x);
    AddiuNeg(r, u.k, z);
    HeldAlu(t, T, T + 1, lo, x, z, T, i, Norm(R(z, r) - u.k));
    ExecAppend(LoadTemp(t, T, s), i, x);
    SubIsZero(Val(x, s), u.k);
    SlotRestores(t, T, lo, x, Exec(i, z));
    PlainTemp(t, T, s, r);
    PlainConcat(LoadTemp(t, T, s), [i]);
  }

  lemma AddiuNeg(r: Reg, k: int, x: Data)
    requires IsHalf(-k)
    ensures Exec(Addiu(r, r, Int16(-k)), x) == W(x, r, Norm(R(x, r) - k))
  {
    HalfFits(-k);
    hide Norm;
  }

  /** Both operands fetched and subtracted in two temporaries. */
  lemma SubtractsInTemps(t: Target, T: nat, lo: int, s: Operand, u: Operand, x: Data)
    requires Comparable(t, T, lo, x, s, u) && !s.OpReg? && !u.OpReg?
    ensures var r, r2 := TempAt(t, T), TempAt(t, T + 1);
            var x2 := ExecSeq(AcquireCode(t, T + 1), ExecSeq(AcquireCode(t, T), x));
            var z := ExecSeq(LoadRegCode(s, r, false) + LoadRegCode(u, r2, false) + [Subu(r, r, r2)], x2);
            Held(t, T, T + 2, lo, x, z) && R(z, r) == Norm(Val(x, s) - Val(x, u)) && r != r2
  {
    hide Spared, Room, Exec, ExecSeq, AcquireCode, LoadRegCode, Held, TempAt, Usable, Norm, Val;
    ComparableOne(t, T, lo, x, s, u);
    var r, r2 := TempAt(t, T), TempAt(t, T + 1);
    var x1 := ExecSeq(AcquireCode(t, T), x);
    var x2 := ExecSeq(AcquireCode(t, T + 1), x1);
    RoomTwo(t, T, lo, x);
    SimIsHeld(t, T, lo, x);
    HeldAcquire(t, T, T, lo, x, x);
    HeldAcquire(t, T, T + 1, lo, x, x1);
    TempDistinct(t, T, T + 1);
    TempOrdinary(t, T);
    TempOrdinary(t, T + 1);
    HeldVal(t, T, T + 2, lo, x, x2, s);
    var x3 := W(x2, r, Val(x, s));
    LoadRegLoads(s, r, false, x2);
    HeldTempWrite(t, T, T + 2, lo, x, x2, T, Val(x, s));
    HeldVal(t, T, T + 2, lo, x, x3, u);
    var x4 := W(x3, r2, Val(x, u));
    LoadRegLoads(u, r2, false, x3);
    HeldTempWrite(t, T, T + 2, lo, x, x3, T + 1, Val(x, u));
    ExecSubu(r, r, r2, x4);
    HeldAlu(t, T, T + 2, lo, x, x4, T, Subu(r, r, r2), Norm(R(x4, r) - R(x4, r2)));
    ExecConcat(LoadRegCode(s, r, false), LoadRegCode(u, r2, false), x2);
    ExecAppend(LoadRegCode(s, r, false) + LoadRegCode(u, r2, false), Subu(r, r, r2), x2);
  }

  lemma ExecSubu(d: Reg, s: Reg, u: Reg, x: Data)
    ensures Exec(Subu(d, s, u), x) == W(x, d, Norm(R(x, s) - R(x, u)))
  {
  }

  lemma RoomTwo(t: Target, T: nat, lo: int, x: Data)
    requires |t.temps| > 0 && Room(t, T, T + 2, lo, x)
    ensures |t.temps| >= 2
  {
  }

  /** Releasing the second temporary leaves the first alone. */
  lemma ReleaseSecond(t: Target, T: nat, lo: int, y: Data, x: Data)
    requires t.Valid() && Held(t, T, T + 2, lo, y, x) && Room(t, T, T + 2, lo, y)
    ensures var z := ExecSeq(ReleaseCode(t, T + 2), x);
            Held(t, T, T + 1, lo, y, z) && R(z, TempAt(t, T)) == R(x, TempAt(t, T))
  {
    HeldRelease(t, T, T + 2, lo, y, x);
    TempDistinct(t, T, T + 1);
    ReleaseWrites(t, T + 2, x, TempAt(t, T));
  }

  lemma ReleaseWrites(t: Target, T: nat, x: Data, r: Reg)
    requires |t.temps| > 0 && T > 0 && r != TempAt(t, T - 1)
    ensures R(ExecSeq(ReleaseCode(t, T), x), r) == R(x, r)
  {
    if ReleaseCode(t, T) == [] {
      ExecNone(x);
    } else {
      ExecOne(ReleaseCode(t, T)[0], x);
    }
  }

  lemma EquMemMem(t: Target, T: nat, lo: int, s: Operand, u: Operand, p: bool, x: Data)
    requires Comparable(t, T, lo, x, s, u) && s.DAddr? && u.DAddr?
    ensures Decides(t, T, lo, EquMatched(t, T, s, u, p), (Val(x, s) == Val(x, u)) == p, x)
  {
    hide Spared, Room, Exec, ExecSeq, AcquireCode, LoadRegCode, Held, Sim, ReleaseSlot, ReleaseCode, TempAt, Usable, Norm, Val;
    ComparableOne(t, T, lo, x, s, u);
    var r, r2 := TempAt(t, T), TempAt(t, T + 1);
    var sub := LoadRegCode(s, r, false) + LoadRegCode(u, r2, false) + [Subu(r, r, r2)];
    var x2 := ExecSeq(AcquireCode(t, T + 1), ExecSeq(AcquireCode(t, T), x));
    var z := ExecSeq(sub, x2);
    SubtractsInTemps(t, T, lo, s, u, x);
    ReleaseSecond(t, T, lo, x, z);
    ExecFour(AcquireCode(t, T), AcquireCode(t, T + 1), sub, ReleaseCode(t, T + 2), x);
    SubIsZero(Val(x, s), Val(x, u));
    SlotRestores(t, T, lo, x, ExecSeq(ReleaseCode(t, T + 2), z));
    PlainTemp(t, T, s, r);
    PlainTemp(t, T + 1, u, r2);
    PlainTemp(t, T + 2, u, r2);
    PlainConcat(LoadRegCode(s, r, false), LoadRegCode(u, r2, false));
    PlainConcat(LoadRegCode(s, r, false) + LoadRegCode(u, r2, false), [Subu(r, r, r2)]);
    PlainConcat(AcquireCode(t, T), AcquireCode(t, T + 1));
    PlainConcat(AcquireCode(t, T) + AcquireCode(t, T + 1), sub);
    PlainConcat(AcquireCode(t, T) + AcquireCode(t, T + 1) + sub, ReleaseCode(t, T + 2));
  }

  /** beq and bne are taken exactly on equality and inequality, and disturb nothing either way. */
  lemma EquDecides(t: Target, T: nat, lo: int, s: Operand, u: Operand, p: bool, x: Data)
    requires Comparable(t, T, lo, x, s, u) && EquAccepts(s, u)
    requires (s.OpReg? && u.Imm? ==> s.reg != ZERO) && (u.OpReg? && s.Imm? ==> u.reg != ZERO)
    ensures Decides(t, T, lo, EquFork(t, T, s, u, p), (Val(x, s) == Val(x, u)) == p, x)
  {
    hide Room, Decides, EquMatched, Val;
    var (a, b) := if EquPattern(s, u) then (s, u) else (u, s);
    if a.OpReg? && b.OpReg? {
      EquRegReg(t, T, lo, a, b, p, x);
    } else if a.OpReg? && b.DAddr? {
      EquRegMem(t, T, lo, a, b, p, x);
    } else if a.OpReg? {
      EquRegImm(t, T, lo, a, b, p, x);
    } else if b.DAddr? {
      EquMemMem(t, T, lo, a, b, p, x);
    } else {
      EquMemImm(t, T, lo, a, b, p, x);
    }
  }

  // ----- inequality -----

  lemma RestoreRegReg(r: Reg, q: Reg, x: Data)
    requires r != ZERO && q != r
    ensures var z := Exec(Subu(r, r, q), x);
            R(z, r) == Norm(R(x, r) - R(x, q)) && Exec(Addu(r, r, q), z) == x
  {
    SubThenAdd(R(x, r), R(x, q));
    hide Norm;
    assert x.regs[r := x.regs[r]] == x.regs;
  }

  /** The subtraction an inequality does in place, and the addition that undoes it. */
  lemma SubThenRestore(t: Target, T: nat, s: Reg, u: Operand, x: Data)
    requires |t.temps| > 0 && (u.OpReg? || IsInvertible(u)) && s != ZERO && u != OpReg(s)
    ensures var z := ExecSeq(SubCode(t, T, OpReg(s), OpReg(s), u), x);
            && R(z, s) == Norm(R(x, s) - Val(x, u))
            && |AddCode(t, T, OpReg(s), OpReg(s), u)| == 1
            && Exec(AddCode(t, T, OpReg(s), OpReg(s), u)[0], z) == x
  {
    hide SubCode, AddCode, Exec, ExecSeq, Norm;
    SubInPlace(t, T, s, s, u);
    AddInPlace(t, T, s, u);
    ExecOne(SubCode(t, T, OpReg(s), OpReg(s), u)[0], x);
    if SubZero(u).Imm? {
      RestoreReg(s, u.k, x);
    } else {
      RestoreRegReg(s, SubZero(u).reg, x);
    }
  }

  /** Subtracting into a temporary leaves the difference there. */
  lemma SubInTemp(t: Target, T: nat, T': nat, hi: nat, lo: int, s: Reg, u: Operand, y: Data, x: Data)
    requires t.Valid() && T < hi && Held(t, T, hi, lo, y, x) && (u.OpReg? || IsInvertible(u))
    ensures var r := TempAt(t, T);
            var c := SubCode(t, T', OpReg(r), OpReg(s), u);
            var z := ExecSeq(c, x);
            && Held(t, T, hi, lo, y, z) && R(z, r) == Norm(R(x, s) - Val(x, u)) && Plain(c)
  {
    hide Held, SubCode, TempAt, Norm;
    var r := TempAt(t, T);
    SubInPlace(t, T', r, s, u);
    var i := SubCode(t, T', OpReg(r), OpReg(s), u)[0];
    if u.Imm? {
      HalfFits(-(u.k as int));
    }
    ExecOne(i, x);
    HeldAlu(t, T, hi, lo, y, x, T, i, Norm(R(x, s) - Val(x, u)));
  }

  lemma SplitLoaded(a: seq<Instr>, b: seq<Instr>, c: seq<Instr>, x: Data)
    ensures a == [] ==> ExecSeq(a + b + c, x) == ExecSeq(c, ExecSeq(b, x))
    ensures b == [] ==> ExecSeq(a + b + c, x) == ExecSeq(c, ExecSeq(a, x))
    ensures ExecSeq(a + b + c, x) == ExecSeq(c, ExecSeq(b, ExecSeq(a, x)))
    ensures Plain(a) && Plain(b) && Plain(c) ==> Plain(a + b + c)
  {
    ExecThree(a, b, c, x);
    ExecNone(x);
    ExecNone(ExecSeq(a, x));
  }

  lemma RelTaken(rel: Rel, r: Reg, x: Data)
    ensures IsBranch(BrRel(rel, r)) && (Taken(BrRel(rel, r), x) <==> Holds(rel, R(x, r), 0))
  {
  }

  lemma IneqNone(t: Target, T: nat, lo: int, s: Operand, u: Operand, rel: Rel, x: Data)
    requires Comparable(t, T, lo, x, s, u) && s.OpReg? && !NeedsTemp(u) && Restorable(s, u)
    ensures Decides(t, T, lo, IneqMatched(t, T, s, u, rel), Holds(rel, Norm(Val(x, s) - Val(x, u)), 0), x)
  {
    hide Spared, Room, Exec, ExecSeq, Held, TempAt, Usable, Norm, SubCode, AddCode, LoadTemp;
    var sub := SubCode(t, T, s, s, u);
    AddInPlace(t, T, s.reg, u);
    SubInPlace(t, T, s.reg, s.reg, u);
    SubThenRestore(t, T, s.reg, u, x);
    SplitLoaded([], [], sub, x);
    ExecNone(x);
    RelTaken(rel, s.reg, ExecSeq(sub, x));
    SimRefl(t, T, lo, x);
  }

  lemma IneqFirst(t: Target, T: nat, lo: int, s: Operand, u: Operand, rel: Rel, x: Data)
    requires Comparable(t, T, lo, x, s, u) && s.DAddr? && !NeedsTemp(u)
    ensures Decides(t, T, lo, IneqMatched(t, T, s, u, rel), Holds(rel, Norm(Val(x, s) - Val(x, u)), 0), x)
  {
    hide Spared, Room, Exec, ExecSeq, Held, Sim, TempAt, Usable, Norm, SubCode, LoadTemp, ReleaseSlot, Val;
    ComparableOne(t, T, lo, x, s, u);
    var r := TempAt(t, T);
    var z := ExecSeq(LoadTemp(t, T, s), x);
    var sub := SubCode(t, T + 1, OpReg(r), OpReg(r), u);
    LoadTempHolds(t, T, lo, s, x);
    HeldVal(t, T, T + 1, lo, x, z, u);
    SubInTemp(t, T, T + 1, T + 1, lo, r, u, x, z);
    SplitLoaded(LoadTemp(t, T, s), [], sub, x);
    PlainTemp(t, T, s, r);
    RelTaken(rel, r, ExecSeq(sub, z));
    SlotRestores(t, T, lo, x, ExecSeq(sub, z));
  }

  lemma IneqSecond(t: Target, T: nat, lo: int, s: Operand, u: Operand, rel: Rel, x: Data)
    requires Comparable(t, T, lo, x, s, u) && s.OpReg? && NeedsTemp(u)
    ensures Decides(t, T, lo, IneqMatched(t, T, s, u, rel), Holds(rel, Norm(Val(x, s) - Val(x, u)), 0), x)
  {
    hide Spared, Room, Exec, ExecSeq, Held, Sim, TempAt, Usable, Norm, SubCode, LoadTemp, ReleaseSlot, Val;
    ComparableOne(t, T, lo, x, s, u);
    var r := TempAt(t, T);
    var z := ExecSeq(LoadTemp(t, T, u), x);
    var sub := SubCode(t, T + 1, OpReg(r), s, OpReg(r));
    LoadTempHolds(t, T, lo, u, x);
    HeldVal(t, T, T + 1, lo, x, z, s);
    RegVal(z, s);
    RegVal(z, OpReg(r));
    SubInTemp(t, T, T + 1, T + 1, lo, s.reg, OpReg(r), x, z);
    SplitLoaded([], LoadTemp(t, T, u), sub, x);
    PlainTemp(t, T, u, r);
    RelTaken(rel, r, ExecSeq(sub, z));
    SlotRestores(t, T, lo, x, ExecSeq(sub, z));
  }

  /** Both loaded, one after the other. */
  lemma LoadsBoth(t: Target, T: nat, lo: int, s: Operand, u: Operand, x: Data)
    requires Comparable(t, T, lo, x, s, u) && !s.OpReg? && !u.OpReg?
    ensures var r, r2 := TempAt(t, T), TempAt(t, T + 1);
            var z := ExecSeq(LoadTemp(t, T + 1, u), ExecSeq(LoadTemp(t, T, s), x));
            Held(t, T, T + 2, lo, x, z) && R(z, r) == Val(x, s) && R(z, r2) == Val(x, u)
  {
    hide Spared, Room, Exec, ExecSeq, Held, TempAt, Usable, AcquireCode, LoadRegCode, Val;
    ComparableOne(t, T, lo, x, s, u);
    RoomTwo(t, T, lo, x);
    LoadTempHolds(t, T, lo, s, x);
    LandInTemp(t, T, T + 1, lo, x, ExecSeq(LoadTemp(t, T, s), x), u);
    TempDistinct(t, T, T + 1);
  }

  lemma IneqBoth(t: Target, T: nat, lo: int, s: Operand, u: Operand, rel: Rel, x: Data)
    requires Comparable(t, T, lo, x, s, u) && s.DAddr? && NeedsTemp(u)
    ensures Decides(t, T, lo, IneqMatched(t, T, s, u, rel), Holds(rel, Norm(Val(x, s) - Val(x, u)), 0), x)
  {
    hide Spared, Room, Exec, ExecSeq, Held, Sim, TempAt, Usable, Norm, SubCode, LoadTemp, ReleaseSlot, ReleaseCode, Val;
    ComparableOne(t, T, lo, x, s, u);
    var r, r2 := TempAt(t, T), TempAt(t, T + 1);
    var z := ExecSeq(LoadTemp(t, T + 1, u), ExecSeq(LoadTemp(t, T, s), x));
    var sub := SubCode(t, T + 2, OpReg(r), OpReg(r), OpReg(r2));
    var w := ExecSeq(sub, z);
    LoadsBoth(t, T, lo, s, u, x);
    RegVal(z, OpReg(r2));
    SubInTemp(t, T, T + 2, T + 2, lo, r, OpReg(r2), x, z);
    ReleaseSecond(t, T, lo, x, w);
    SplitLoaded(LoadTemp(t, T, s), LoadTemp(t, T + 1, u), sub, x);
    ExecConcat(LoadTemp(t, T, s) + LoadTemp(t, T + 1, u) + sub, ReleaseCode(t, T + 2), x);
    PlainTemp(t, T, s, r);
    PlainTemp(t, T + 1, u, r2);
    PlainTemp(t, T + 2, u, r2);
    PlainConcat(LoadTemp(t, T, s) + LoadTemp(t, T + 1, u) + sub, ReleaseCode(t, T + 2));
    RelTaken(rel, r, ExecSeq(ReleaseCode(t, T + 2), w));
    SlotRestores(t, T, lo, x, ExecSeq(ReleaseCode(t, T + 2), w));
  }

  /** The branch is decided by the sign of the 32-bit difference; nothing else is disturbed. */
  lemma IneqDecides(t: Target, T: nat, lo: int, s: Operand, u: Operand, rel: Rel, x: Data)
    requires Comparable(t, T, lo, x, s, u) && !s.Imm? && Restorable(s, u)
    ensures Decides(t, T, lo, IneqFork(t, T, s, u, rel), Holds(rel, Norm(Val(x, s) - Val(x, u)), 0), x)
  {
    hide Room, Decides, IneqMatched, Val, Norm;
    if s.OpReg? && !NeedsTemp(u) {
      IneqNone(t, T, lo, s, u, rel, x);
    } else if s.OpReg? {
      IneqSecond(t, T, lo, s, u, rel, x);
    } else if !NeedsTemp(u) {
      IneqFirst(t, T, lo, s, u, rel, x);
    } else {
      IneqBoth(t, T, lo, s, u, rel, x);
    }
  }

  /**
   blt, bgt, ble and bge compare by subtracting. They are taken exactly when the comparison
   holds if the difference fits a word, and exactly when it does not hold if it overflows.
   */
  lemma IneqRightIff(t: Target, T: nat, lo: int, s: Operand, u: Operand, rel: Rel, x: Data)
    requires Comparable(t, T, lo, x, s, u) && !s.Imm? && Restorable(s, u)
    ensures Decides(t, T, lo, IneqFork(t, T, s, u, rel), Holds(rel, Val(x, s), Val(x, u)), x) <==> IsWord(Val(x, s) - Val(x, u))
  {
    hide Room, IneqFork, Norm, Usable, Sim;
    IneqDecides(t, T, lo, s, u, rel, x);
    SubSign(rel, Val(x, s), Val(x, u));
  }

  /** 2^31 - 1 is not less than -1, but the subtraction says so. */
  lemma OverflowMisleads()
    ensures !Holds(LT, 0x7fff_ffff, -1) && Holds(LT, Norm(0x7fff_ffff - (-1)), 0)
  {
  }

  /** Compared with itself in a register, a value is lost: the delay slot cannot restore it. */
  lemma SameRegisterLost(t: Target, T: nat, r: Reg, rel: Rel, x: Data)
    requires |t.temps| > 0 && r != ZERO
    ensures var f := IneqFork(t, T, OpReg(r), OpReg(r), rel);
            R(Exec(f.slot, ExecSeq(f.pre, x)), r) == 0
  {
    hide SubCode, AddCode, ExecSeq, Norm, TempAt, AcquireCode, ReleaseCode;
    SubInPlace(t, T, r, r, OpReg(r));
    AddInPlace(t, T, r, OpReg(r));
    var c := SubCode(t, T, OpReg(r), OpReg(r), OpReg(r));
    assert [] + [] + c == c;
    ExecOne(c[0], x);
    NormWord(R(x, r) - R(x, r));
    NormWord(0);
  }
}

/**
 The code that arithmetic lowers to, for every placement of its operands, and the proof that
 running it is the assignment d := s op u on 32-bit words.
 */
module ArithCode {
  import opened Words
  import opened Mips
  import opened Target
  import opened Moves

  /** Fits the signed immediate field of ADDIU. */
  predicate IsAddImmed(o: Operand) {
    o.Imm? && IsHalf(o.k)
  }

  predicate IsSubImmed(o: Operand) {
    o.Imm? && IsHalf(-(o.k as int))
  }

  predicate InPlace(o: Operand, allow: bool) {
    o.OpReg? || (allow && IsAddImmed(o))
  }

  /** An operand made available, with the code for it and the temporaries held so far. */
  datatype Landed = Landed(code: seq<Instr>, o: Operand, hi: nat)

  /** Use o where it is, or load it into d, or into one more temporary when d is taken. */
  function Land(t: Target, hi: nat, o: Operand, other: Operand, d: Reg, allow: bool): Landed
    requires |t.temps| > 0
  {
    if InPlace(o, allow) then Landed([], o, hi)
    else if other == OpReg(d) then
      var r := TempAt(t, hi);
      Landed(AcquireCode(t, hi) + LoadRegCode(o, r, false), OpReg(r), hi + 1)
    else Landed(LoadRegCode(o, d, false), OpReg(d), hi)
  }

  // The destination first: its own register, or a temporary to be stored at the end.

  function StartCode(t: Target, T: nat, d: Operand): seq<Instr>
    requires |t.temps| > 0
  {
    if d.OpReg? then [] else AcquireCode(t, T)
  }

  function StartReg(t: Target, T: nat, d: Operand): Reg
    requires |t.temps| > 0
  {
    if d.OpReg? then d.reg else TempAt(t, T)
  }

  function StartHi(T: nat, d: Operand): nat {
    if d.OpReg? then T else T + 1
  }

  datatype Acquired = Acquired(code: seq<Instr>, d: Reg, s: Operand, u: Operand, n: nat)

  /** All three operands in registers, or an immediate where that is allowed. */
  function AcquireRegs(t: Target, T: nat, d: Operand, s: Operand, u: Operand, allow: bool): Acquired
    requires |t.temps| > 0
  {
    var dr := StartReg(t, T, d);
    var ls := Land(t, StartHi(T, d), s, u, dr, allow);
    var lu := Land(t, ls.hi, u, ls.o, dr, allow);
    Acquired(StartCode(t, T, d) + ls.code + lu.code, dr, ls.o, lu.o, lu.hi - T)
  }

  function ReleaseN(t: Target, T: nat, n: nat): seq<Instr>
    requires |t.temps| > 0
  {
    if n == 0 then [] else ReleaseCode(t, T + n) + ReleaseN(t, T, n - 1)
  }

  function StoreBack(d: Operand, r: Reg): seq<Instr> {
    if d.DAddr? then [Sw(r, d.base, d.offset)] else []
  }

  /** The operation itself, once its operands are in place. */
  datatype Core =
    | CAdd(negate: bool) | CSub | CMul | COr
    | CDiv(isSigned: bool, isLow: bool)
    | CSll(sk: nat) | CSrl(sk: nat) | CSra(sk: nat)

  predicate TakesImmed(c: Core) {
    c.CAdd? || c.CSll? || c.CSrl? || c.CSra?
  }

  function CoreCode(c: Core, d: Reg, s: Reg, u: Operand): seq<Instr>
    requires u.OpReg? || (TakesImmed(c) && IsAddImmed(u))
  {
    match c
    case CAdd(negate) =>
      var a := if u.Imm? then Addiu(d, s, Int16(u.k)) else Addu(d, s, u.reg);
      if negate then [a, Subu(d, ZERO, d)] else [a]
    case CSub => [Subu(d, s, u.reg)]
    case CMul => [Mul(d, s, u.reg)]
    case COr => [Or(d, s, u.reg)]
    case CDiv(isSigned, isLow) =>
      [if isSigned then Div(s, u.reg) else Divu(s, u.reg), if isLow then Mflo(d) else Mfhi(d)]
    case CSll(sk) => [Sll(d, s, sk)]
    case CSrl(sk) => [Srl(d, s, sk)]
    case CSra(sk) => [Sra(d, s, sk)]
  }

  /** The word the operation is for. */
  function CoreVal(c: Core, a: Word, b: Word): Word
    requires c.CDiv? ==> b != 0
  {
    match c
    case CAdd(negate) => if negate then Norm(-(a as int + b as int)) else Norm(a + b)
    case CSub => Norm(a - b)
    case CMul => Norm(a * b)
    case COr => Or32(a, b)
    case CDiv(isSigned, isLow) =>
      if isSigned then Norm(if isLow then TruncDiv(a, b) else TruncMod(a, b))
      else Norm(if isLow then Unsigned(a) / Unsigned(b) else Unsigned(a) % Unsigned(b))
    case CSll(sk) => Norm(a * Pow2(sk))
    case CSrl(sk) => Norm(Unsigned(a) / Pow2(sk))
    case CSra(sk) => Norm(a / Pow2(sk))
  }

  /** Operands that reach the operation in a form it takes. */
  predicate CoreAccepts(c: Core, s: Operand, u: Operand, allow: bool) {
    && !s.Imm?
    && (allow ==> TakesImmed(c))
    && (c.CSll? || c.CSrl? || c.CSra? ==> InPlace(u, allow))
  }

  function BopCode(t: Target, T: nat, d: Operand, s: Operand, u: Operand, allow: bool, c: Core): seq<Instr>
    requires |t.temps| > 0 && CoreAccepts(c, s, u, allow)
  {
    var a := AcquireRegs(t, T, d, s, u, allow);
    a.code + CoreCode(c, a.d, a.s.reg, a.u) + StoreBack(d, a.d) + ReleaseN(t, T, a.n)
  }

  // ----- meaning of the operation alone -----

  lemma SingleComputes(c: Core, d: Reg, s: Reg, u: Operand, x: Data)
    requires u.OpReg? || (TakesImmed(c) && IsAddImmed(u))
    requires !c.CDiv? && c != CAdd(true)
    ensures Exec(CoreCode(c, d, s, u)[0], x) == W(x, d, CoreVal(c, R(x, s), Val(x, u)))
  {
    hide BitOr, Pow2, Norm;
    if u.Imm? {
      HalfFits(u.k);
    }
  }

  lemma NegateComputes(d: Reg, v: int, x: Data)
    requires d != ZERO
    ensures Exec(Subu(d, ZERO, d), W(x, d, Norm(v))) == W(x, d, Norm(0 - v))
  {
    NegNorm(v);
    hide Norm;
  }

  lemma DivisionComputes(c: Core, d: Reg, s: Reg, u: Reg, x: Data)
    requires c.CDiv? && R(x, u) != 0
    ensures var ws := CoreCode(c, d, s, OpReg(u));
            var y := Exec(ws[1], Exec(ws[0], x));
            var z := W(x, d, CoreVal(c, R(x, s), R(x, u)));
            y.regs == z.regs && y.mem == z.mem
  {
    hide Norm, TruncDiv, TruncMod, Unsigned;
  }

  lemma CoreComputes(c: Core, d: Reg, s: Reg, u: Operand, x: Data)
    requires u.OpReg? || (TakesImmed(c) && IsAddImmed(u))
    requires c.CDiv? ==> Val(x, u) != 0
    requires c.CAdd? ==> d != ZERO
    ensures var y := ExecSeq(CoreCode(c, d, s, u), x);
            var z := W(x, d, CoreVal(c, R(x, s), Val(x, u)));
            y.regs == z.regs && y.mem == z.mem
  {
    hide Exec, Norm;
    var ws := CoreCode(c, d, s, u);
    if c.CDiv? {
      DivisionComputes(c, d, s, u.reg, x);
      hide CoreVal, CoreCode;
      ExecTwo(ws[0], ws[1], x);
    } else if c == CAdd(true) {
      SingleComputes(CAdd(false), d, s, u, x);
      NegateComputes(d, R(x, s) + Val(x, u), x);
      ExecTwo(ws[0], ws[1], x);
    } else {
      SingleComputes(c, d, s, u, x);
      ExecOne(ws[0], x);
    }
  }

  // ----- operands -----

  /** The state while d is under construction: as y, except possibly for d's own register. */
  ghost predicate Building(t: Target, T: nat, hi: nat, lo: int, d: Operand, dr: Reg, y: Data, x: Data)
    requires |t.temps| > 0
  {
    if d.OpReg? then dr == d.reg && Held(t, T, hi, lo, W(y, dr, R(x, dr)), x)
    else dr == TempAt(t, T) && T < hi && Held(t, T, hi, lo, y, x)
  }

  /** What a lowering may assume of its operands when it will hold temporaries T up to hi. */
  ghost predicate OperandsOk(t: Target, T: nat, hi: nat, lo: int, x: Data, d: Operand, s: Operand, u: Operand)
    requires |t.temps| > 0
  {
    && !d.Imm? && Room(t, T, hi, lo, x)
    && Usable(t, T, hi, lo, x, d) && Usable(t, T, hi, lo, x, s) && Usable(t, T, hi, lo, x, u)
    && (d.OpReg? ==>
          && d.reg != ZERO
          && (s.DAddr? ==> s.base != d.reg) && (u.DAddr? ==> u.base != d.reg)
          && (d.reg == t.sp ==> s.OpReg? && !u.DAddr?))
  }

  lemma LoadInto(t: Target, T: nat, hi: nat, lo: int, d: Operand, dr: Reg, y: Data, x: Data, o: Operand)
    requires t.Valid() && Building(t, T, hi, lo, d, dr, y, x) && Usable(t, T, hi, lo, y, o) && !o.OpReg?
    requires d.OpReg? ==> dr != ZERO && dr != t.sp && Spared(t, T, hi, dr) && (o.DAddr? ==> o.base != dr)
    ensures var z := ExecSeq(LoadRegCode(o, dr, false), x);
            && Building(t, T, hi, lo, d, dr, y, z) && R(z, dr) == Val(y, o) && z == W(x, dr, Val(y, o))
  {
    hide Held, LoadRegCode, ExecSeq, Spared;
    var b := if d.OpReg? then W(y, dr, R(x, dr)) else y;
    assert Usable(t, T, hi, lo, b, o) && Val(b, o) == Val(y, o);
    HeldVal(t, T, hi, lo, b, x, o);
    LoadRegLoads(o, dr, false, x);
    var v := Val(y, o);
    if d.OpReg? {
      HeldWrite(t, T, hi, lo, b, x, dr, v);
      assert W(b, dr, v) == W(y, dr, v);
    } else {
      HeldTempWrite(t, T, hi, lo, y, x, T, v);
      TempOrdinary(t, T);
    }
  }

  /** Acquire one more temporary and load an operand into it. */
  lemma LandInTemp(t: Target, T: nat, hi: nat, lo: int, b: Data, x: Data, o: Operand)
    requires t.Valid() && Held(t, T, hi, lo, b, x) && T <= hi && !o.OpReg?
    requires Usable(t, T, hi + 1, lo, b, o) && Room(t, T, hi + 1, lo, b)
    ensures var r := TempAt(t, hi);
            var z := ExecSeq(AcquireCode(t, hi) + LoadRegCode(o, r, false), x);
            && Held(t, T, hi + 1, lo, b, z) && R(z, r) == Val(b, o)
            && (forall q: Reg :: q != r ==> R(z, q) == R(x, q))
  {
    hide Held, Spared, LoadRegCode, ExecSeq, Room, AcquireCode, Usable, Val;
    var r := TempAt(t, hi);
    var x1 := ExecSeq(AcquireCode(t, hi), x);
    AcquireRegsKept(t, hi, x);
    HeldAcquire(t, T, hi, lo, b, x);
    HeldVal(t, T, hi + 1, lo, b, x1, o);
    LoadRegLoads(o, r, false, x1);
    HeldTempWrite(t, T, hi + 1, lo, b, x1, hi, Val(b, o));
    ExecConcat(AcquireCode(t, hi), LoadRegCode(o, r, false), x);
    TempOrdinary(t, hi);
  }

  /** Making one operand available leaves every register alone but the one it lands in. */
  lemma LandLoads(t: Target, T: nat, hi: nat, lo: int, d: Operand, dr: Reg, y: Data, x: Data, o: Operand, other: Operand, allow: bool)
    requires t.Valid() && Building(t, T, hi, lo, d, dr, y, x) && T <= hi && !InPlace(o, allow)
    requires var l := Land(t, hi, o, other, dr, allow);
             Usable(t, T, l.hi, lo, y, o) && Room(t, T, l.hi, lo, y)
             && (d.OpReg? ==> dr != ZERO && dr != t.sp && Spared(t, T, l.hi, dr) && (o.DAddr? ==> o.base != dr))
    ensures var l := Land(t, hi, o, other, dr, allow);
            var z := ExecSeq(l.code, x);
            && Building(t, T, l.hi, lo, d, dr, y, z)
            && l.o.OpReg? && l.o.reg != ZERO && R(z, l.o.reg) == Val(y, o) && l.o != other
            && (forall q: Reg :: q != l.o.reg ==> R(z, q) == R(x, q))
  {
    hide Held, Spared, LoadRegCode, ExecSeq, AcquireCode, TempAt, SlotNo, LoadImCode;
    TempOrdinary(t, T);
    TempOrdinary(t, hi);
    if other == OpReg(dr) {
      assert hi < T + |t.temps|;
      var b := if d.OpReg? then W(y, dr, R(x, dr)) else y;
      assert Usable(t, T, hi + 1, lo, b, o) && Val(b, o) == Val(y, o);
      RoomAfter(t, T, hi + 1, lo, y, OpReg(dr), R(x, dr));
      LandInTemp(t, T, hi, lo, b, x, o);
      NotYetTaken(t, T, hi, d, dr);
    } else {
      LoadInto(t, T, hi, lo, d, dr, y, x, o);
    }
  }

  lemma AcquireRegsKept(t: Target, T: nat, x: Data)
    requires |t.temps| > 0
    ensures ExecSeq(AcquireCode(t, T), x).regs == x.regs
  {
    if T >= |t.temps| {
      ExecOne(AcquireCode(t, T)[0], x);
    } else {
      ExecNone(x);
    }
  }

  lemma NotYetTaken(t: Target, T: nat, hi: nat, d: Operand, dr: Reg)
    requires t.Valid() && T <= hi < T + |t.temps|
    requires if d.OpReg? then Spared(t, T, hi + 1, dr) else dr == TempAt(t, T) && T < hi
    ensures TempAt(t, hi) != dr
  {
    if !d.OpReg? {
      TempDistinct(t, T, hi);
    }
  }

  lemma BuildingSees(t: Target, T: nat, hi: nat, lo: int, d: Operand, dr: Reg, y: Data, x: Data, r: Reg)
    requires t.Valid() && Building(t, T, hi, lo, d, dr, y, x) && Spared(t, T, hi, r)
    requires d.OpReg? ==> R(x, dr) == R(y, dr)
    ensures R(x, r) == R(y, r)
  {
    hide Spared;
  }

  /** One operand made available, in place or not. */
  lemma LandAny(t: Target, T: nat, hi: nat, lo: int, d: Operand, dr: Reg, y: Data, x: Data, o: Operand, other: Operand, allow: bool)
    requires t.Valid() && Building(t, T, hi, lo, d, dr, y, x) && T <= hi
    requires o.OpReg? ==> R(x, o.reg) == R(y, o.reg)
    requires var l := Land(t, hi, o, other, dr, allow);
             Usable(t, T, l.hi, lo, y, o) && Room(t, T, l.hi, lo, y)
             && (d.OpReg? && !InPlace(o, allow) ==> dr != ZERO && dr != t.sp && Spared(t, T, l.hi, dr) && (o.DAddr? ==> o.base != dr))
    ensures var l := Land(t, hi, o, other, dr, allow);
            var z := ExecSeq(l.code, x);
            && hi <= l.hi && Building(t, T, l.hi, lo, d, dr, y, z)
            && Val(z, l.o) == Val(y, o)
            && (other.OpReg? && (o != other || !InPlace(o, allow)) ==> R(z, other.reg) == R(x, other.reg))
            && (l.o.OpReg? || (allow && IsAddImmed(l.o)))
  {
    if InPlace(o, allow) {
      ExecNone(x);
    } else {
      LandLoads(t, T, hi, lo, d, dr, y, x, o, other, allow);
    }
  }

  /** The operands of a lowering stay usable with fewer temporaries held. */
  lemma OperandsFewer(t: Target, T: nat, hi: nat, hi': nat, lo: int, x: Data, d: Operand, s: Operand, u: Operand)
    requires t.Valid() && T <= hi' <= hi && OperandsOk(t, T, hi, lo, x, d, s, u)
    ensures OperandsOk(t, T, hi', lo, x, d, s, u)
  {
    UsableFewer(t, T, hi, hi', lo, x, d);
    UsableFewer(t, T, hi, hi', lo, x, s);
    UsableFewer(t, T, hi, hi', lo, x, u);
    RoomFewer(t, T, hi, hi', lo, x);
  }

  lemma RoomFewer(t: Target, T: nat, hi: nat, hi': nat, lo: int, x: Data)
    requires |t.temps| > 0 && T <= hi' <= hi && Room(t, T, hi, lo, x)
    ensures Room(t, T, hi', lo, x)
  {
    if |t.temps| < hi' < hi {
      SlotMonotone(|t.temps|, hi' - 1 - |t.temps|, hi - 1 - |t.temps|);
    }
  }

  /** Where the first operand lands, the second does not undo it. */
  lemma LandBoth(t: Target, T: nat, hi: nat, lo: int, d: Operand, dr: Reg, y: Data, x: Data, s: Operand, u: Operand, allow: bool)
    requires t.Valid() && Building(t, T, hi, lo, d, dr, y, x) && T <= hi && !s.Imm?
    requires d.OpReg? ==> R(x, dr) == R(y, dr)
    requires var ls := Land(t, hi, s, u, dr, allow);
             var lu := Land(t, ls.hi, u, ls.o, dr, allow);
             OperandsOk(t, T, lu.hi, lo, y, d, s, u) && (d == OpReg(t.sp) ==> InPlace(u, allow))
    ensures var ls := Land(t, hi, s, u, dr, allow);
            var lu := Land(t, ls.hi, u, ls.o, dr, allow);
            var z := ExecSeq(lu.code, ExecSeq(ls.code, x));
            && Building(t, T, lu.hi, lo, d, dr, y, z)
            && ls.o.OpReg? && R(z, ls.o.reg) == Val(y, s)
            && Val(z, lu.o) == Val(y, u) && (lu.o.OpReg? || (allow && IsAddImmed(lu.o)))
  {
    var ls := Land(t, hi, s, u, dr, allow);
    var lu := Land(t, ls.hi, u, ls.o, dr, allow);
    var z1 := ExecSeq(ls.code, x);
    OperandsFewer(t, T, lu.hi, ls.hi, lo, y, d, s, u);
    OperandsFewer(t, T, lu.hi, hi, lo, y, d, s, u);
    if s.OpReg? {
      BuildingSees(t, T, hi, lo, d, dr, y, x, s.reg);
    }
    if u.OpReg? {
      BuildingSees(t, T, hi, lo, d, dr, y, x, u.reg);
    }
    hide Spared, ExecSeq, Room, Building, AcquireCode, LoadRegCode;
    LandAny(t, T, hi, lo, d, dr, y, x, s, u, allow);
    LandAny(t, T, ls.hi, lo, d, dr, y, z1, u, ls.o, allow);
  }

  lemma StartsBuilding(t: Target, T: nat, lo: int, d: Operand, x: Data)
    requires t.Valid() && !d.Imm? && (d.OpReg? ==> d.reg != ZERO) && Room(t, T, StartHi(T, d), lo, x)
    ensures var z := ExecSeq(StartCode(t, T, d), x);
            && Building(t, T, StartHi(T, d), lo, d, StartReg(t, T, d), x, z)
            && (d.OpReg? ==> z == x) && StartReg(t, T, d) != ZERO
  {
    SimRefl(t, T, lo, x);
    TempOrdinary(t, T);
    if d.OpReg? {
      ExecNone(x);
      assert x.regs[d.reg := x.regs[d.reg]] == x.regs;
    } else {
      hide AcquireCode, ExecSeq, Spared;
      HeldAcquire(t, T, T, lo, x, x);
    }
  }

  /** AcquireRegs is a start and two landings. */
  lemma AcquireShape(t: Target, T: nat, d: Operand, s: Operand, u: Operand, allow: bool)
    requires |t.temps| > 0
    ensures var a := AcquireRegs(t, T, d, s, u, allow);
            var ls := Land(t, StartHi(T, d), s, u, StartReg(t, T, d), allow);
            var lu := Land(t, ls.hi, u, ls.o, StartReg(t, T, d), allow);
            && a == Acquired(StartCode(t, T, d) + ls.code + lu.code, StartReg(t, T, d), ls.o, lu.o, lu.hi - T)
            && T <= StartHi(T, d) <= ls.hi <= lu.hi == T + a.n
  {
  }

  /** Getting ready: operands at hand, nothing the caller sees changed but d's own register. */
  lemma AcquiresRegs(t: Target, T: nat, lo: int, d: Operand, s: Operand, u: Operand, allow: bool, x: Data)
    requires t.Valid() && !s.Imm?
    requires OperandsOk(t, T, T + AcquireRegs(t, T, d, s, u, allow).n, lo, x, d, s, u)
    requires d == OpReg(t.sp) ==> InPlace(u, allow)
    ensures var a := AcquireRegs(t, T, d, s, u, allow);
            var z := ExecSeq(a.code, x);
            && Building(t, T, T + a.n, lo, d, a.d, x, z) && a.d != ZERO
            && a.s.OpReg? && R(z, a.s.reg) == Val(x, s)
            && Val(z, a.u) == Val(x, u) && (a.u.OpReg? || (allow && IsAddImmed(a.u)))
  {
    hide ExecSeq, Held, Building, Land, Spared, Val, InPlace, StartCode, AcquireRegs, Usable, Room;
    var hi, dr := StartHi(T, d), StartReg(t, T, d);
    var ls := Land(t, hi, s, u, dr, allow);
    var lu := Land(t, ls.hi, u, ls.o, dr, allow);
    AcquireShape(t, T, d, s, u, allow);
    OperandsFewer(t, T, lu.hi, hi, lo, x, d, s, u);
    StartsBuilding(t, T, lo, d, x);
    LandBoth(t, T, hi, lo, d, dr, x, ExecSeq(StartCode(t, T, d), x), s, u, allow);
    ExecThree(StartCode(t, T, d), ls.code, lu.code, x);
  }

  lemma HeldSame(t: Target, T: nat, hi: nat, lo: int, y: Data, x: Data, x': Data)
    requires |t.temps| > 0 && Held(t, T, hi, lo, y, x) && x'.regs == x.regs && x'.mem == x.mem
    ensures Held(t, T, hi, lo, y, x')
  {
    MemOnly(lo, y, x, y, x');
  }

  /** The result written where it belongs, as the caller sees it. */
  lemma FinishesOp(t: Target, T: nat, hi: nat, lo: int, d: Operand, dr: Reg, y: Data, z: Data, w: Data, v: Word)
    requires t.Valid() && Building(t, T, hi, lo, d, dr, y, z) && dr != ZERO && T <= hi
    requires w.regs == W(z, dr, v).regs && w.mem == z.mem
    requires Usable(t, T, hi, lo, y, d) && Room(t, T, hi, lo, y) && !d.Imm?
    requires d == OpReg(t.sp) ==> hi == T
    ensures Held(t, T, hi, lo, Upd(y, d, v), ExecSeq(StoreBack(d, dr), w))
  {
    hide Held, Spared, ExecSeq, Room;
    if d.OpReg? {
      HeldWrite(t, T, hi, lo, W(y, dr, R(z, dr)), z, dr, v);
      assert W(W(y, dr, R(z, dr)), dr, v) == W(y, dr, v);
      HeldSame(t, T, hi, lo, W(y, dr, v), W(z, dr, v), w);
      ExecNone(w);
    } else {
      HeldTempWrite(t, T, hi, lo, y, z, T, v);
      HeldSame(t, T, hi, lo, y, W(z, dr, v), w);
      HeldVal(t, T, hi, lo, y, w, d);
      HeldStore(t, T, hi, lo, y, w, EffAddr(y, d.base, d.offset), v);
      ExecSw(dr, d.base, d.offset, w);
    }
  }

  lemma {:induction false} HeldReleaseN(t: Target, T: nat, n: nat, lo: int, y: Data, x: Data)
    requires t.Valid() && Held(t, T, T + n, lo, y, x) && (n > 0 ==> Room(t, T, T + n, lo, y))
    ensures Sim(t, T, lo, y, ExecSeq(ReleaseN(t, T, n), x))
    decreases n
  {
    hide ExecSeq, Room, ReleaseCode;
    if n == 0 {
      ExecNone(x);
    } else {
      HeldRelease(t, T, T + n, lo, y, x);
      RoomFewer(t, T, T + n, T + n - 1, lo, y);
      HeldReleaseN(t, T, n - 1, lo, y, ExecSeq(ReleaseCode(t, T + n), x));
      ExecConcat(ReleaseCode(t, T + n), ReleaseN(t, T, n - 1), x);
    }
  }

  /** Up to the release of its temporaries, a lowered operation has done its assignment. */
  lemma BopStores(t: Target, T: nat, lo: int, d: Operand, s: Operand, u: Operand, allow: bool, c: Core, x: Data)
    requires t.Valid() && CoreAccepts(c, s, u, allow)
    requires OperandsOk(t, T, T + AcquireRegs(t, T, d, s, u, allow).n, lo, x, d, s, u)
    requires d == OpReg(t.sp) ==> InPlace(u, allow)
    requires c.CDiv? ==> Val(x, u) != 0
    ensures var a := AcquireRegs(t, T, d, s, u, allow);
            var w := ExecSeq(CoreCode(c, a.d, a.s.reg, a.u), ExecSeq(a.code, x));
            Held(t, T, T + a.n, lo, Upd(x, d, CoreVal(c, Val(x, s), Val(x, u))), ExecSeq(StoreBack(d, a.d), w))
  {
    hide AcquireRegs, CoreCode, CoreVal, ExecSeq, Held, Spared, StoreBack, Building, Val, Room, Upd, Norm, Usable, InPlace;
    var a := AcquireRegs(t, T, d, s, u, allow);
    var v := CoreVal(c, Val(x, s), Val(x, u));
    var z := ExecSeq(a.code, x);
    CoreTakes(t, T, d, s, u, allow, c);
    SpNeedsNone(t, T, d, s, u, allow);
    AcquiresRegs(t, T, lo, d, s, u, allow, x);
    RegVal(z, a.s);
    CoreComputes(c, a.d, a.s.reg, a.u, z);
    var w := ExecSeq(CoreCode(c, a.d, a.s.reg, a.u), z);
    FinishesOp(t, T, T + a.n, lo, d, a.d, x, z, w, v);
  }

  lemma RegVal(x: Data, o: Operand)
    requires o.OpReg?
    ensures Val(x, o) == R(x, o.reg)
  {
  }

  lemma CoreTakes(t: Target, T: nat, d: Operand, s: Operand, u: Operand, allow: bool, c: Core)
    requires |t.temps| > 0 && CoreAccepts(c, s, u, allow)
    ensures var a := AcquireRegs(t, T, d, s, u, allow);
            a.s.OpReg? && (a.u.OpReg? || (TakesImmed(c) && IsAddImmed(a.u)))
  {
  }

  /** Every lowered operation is the assignment d := s op u, as far as its caller can see. */
  lemma BopComputes(t: Target, T: nat, lo: int, d: Operand, s: Operand, u: Operand, allow: bool, c: Core, x: Data)
    requires t.Valid() && CoreAccepts(c, s, u, allow)
    requires OperandsOk(t, T, T + AcquireRegs(t, T, d, s, u, allow).n, lo, x, d, s, u)
    requires d == OpReg(t.sp) ==> InPlace(u, allow)
    requires c.CDiv? ==> Val(x, u) != 0
    ensures Sim(t, T, lo, Upd(x, d, CoreVal(c, Val(x, s), Val(x, u))), ExecSeq(BopCode(t, T, d, s, u, allow, c), x))
  {
    hide AcquireRegs, CoreCode, CoreVal, ExecSeq, Held, Sim, Spared, StoreBack, Building, Val, Room, Upd, Norm, Usable, InPlace, ReleaseN;
    var a := AcquireRegs(t, T, d, s, u, allow);
    var v := CoreVal(c, Val(x, s), Val(x, u));
    CoreTakes(t, T, d, s, u, allow, c);
    SpNeedsNone(t, T, d, s, u, allow);
    if a.n > 0 {
      RoomAfter(t, T, T + a.n, lo, x, d, v);
    }
    BopStores(t, T, lo, d, s, u, allow, c, x);
    var core := CoreCode(c, a.d, a.s.reg, a.u);
    ExecFour(a.code, core, StoreBack(d, a.d), ReleaseN(t, T, a.n), x);
    HeldReleaseN(t, T, a.n, lo, Upd(x, d, v), ExecSeq(StoreBack(d, a.d), ExecSeq(core, ExecSeq(a.code, x))));
  }

  lemma SpNeedsNone(t: Target, T: nat, d: Operand, s: Operand, u: Operand, allow: bool)
    requires |t.temps| > 0 && (d == OpReg(t.sp) ==> s.OpReg? && InPlace(u, allow))
    ensures d == OpReg(t.sp) ==> AcquireRegs(t, T, d, s, u, allow).n == 0
  {
  }
}

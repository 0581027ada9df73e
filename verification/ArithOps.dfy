/** The arithmetic operations of the machine: what each emits, and that it is exact. */
module ArithOps {
  import opened Words
  import opened Mips
  import opened Target
  import opened Moves
  import opened ArithCode

  /** Immediate zero is replaced by the zero register. */
  function SubZero(o: Operand): Operand {
    if o == Imm(0) then OpReg(ZERO) else o
  }

  /** An immediate that add takes in either place is moved to the second. */
  function AddForm(s: Operand, u: Operand): (Operand, Operand) {
    if IsAddImmed(SubZero(s)) then (SubZero(u), SubZero(s)) else (SubZero(s), SubZero(u))
  }

  predicate BothImm(s: Operand, u: Operand) {
    s.Imm? && u.Imm?
  }

  predicate AddAccepts(s: Operand, u: Operand) {
    BothImm(s, u) || !AddForm(s, u).0.Imm?
  }

  function DoAddCode(t: Target, T: nat, d: Operand, s: Operand, u: Operand, negate: bool): seq<Instr>
    requires |t.temps| > 0 && !d.Imm? && AddAccepts(s, u)
  {
    if BothImm(s, u) then MoveCode(t, T, d, Imm(Norm(s.k + u.k)))
    else
      var (s', u') := AddForm(s, u);
      BopCode(t, T, d, s', u', true, CAdd(negate))
  }

  function AddCode(t: Target, T: nat, d: Operand, s: Operand, u: Operand): seq<Instr>
    requires |t.temps| > 0 && !d.Imm? && AddAccepts(s, u)
  {
    DoAddCode(t, T, d, s, u, false)
  }

  function Negated(o: Operand): Operand
    requires IsSubImmed(o)
  {
    Imm(-(o.k as int))
  }

  predicate SubAccepts(s: Operand, u: Operand) {
    BothImm(s, u) || !SubZero(s).Imm? || IsSubImmed(s)
  }

  function SubCode(t: Target, T: nat, d: Operand, s: Operand, u: Operand): seq<Instr>
    requires |t.temps| > 0 && !d.Imm? && SubAccepts(s, u)
  {
    if BothImm(s, u) then MoveCode(t, T, d, Imm(Norm(s.k - u.k)))
    else
      var s', u' := SubZero(s), SubZero(u);
      if IsSubImmed(s') then DoAddCode(t, T, d, u', Negated(s'), true)
      else if IsSubImmed(u') then DoAddCode(t, T, d, s', Negated(u'), false)
      else BopCode(t, T, d, s', u', false, CSub)
  }

  /** Temporaries that folding two immediates into d takes. */
  function FoldNeeds(d: Operand): nat {
    if d.DAddr? then 1 else 0
  }

  /** Temporaries an addition acquires. */
  function AddNeeds(t: Target, T: nat, d: Operand, s: Operand, u: Operand): (n: nat)
    requires |t.temps| > 0
    ensures n <= 2
  {
    if BothImm(s, u) then FoldNeeds(d)
    else AcquireRegs(t, T, d, AddForm(s, u).0, AddForm(s, u).1, true).n
  }

  /** Temporaries a subtraction acquires. */
  function SubNeeds(t: Target, T: nat, d: Operand, s: Operand, u: Operand): (n: nat)
    requires |t.temps| > 0
    ensures n <= 2
  {
    if BothImm(s, u) then FoldNeeds(d)
    else
      var s', u' := SubZero(s), SubZero(u);
      if IsSubImmed(s') then AddNeeds(t, T, d, u', Negated(s'))
      else if IsSubImmed(u') then AddNeeds(t, T, d, s', Negated(u'))
      else AcquireRegs(t, T, d, s', u', false).n
  }

  predicate IsShift(o: Operand) {
    IsAddImmed(o) && IsPowerOf2(o.k)
  }

  function MulForm(s: Operand, u: Operand): (Operand, Operand) {
    if IsShift(SubZero(s)) then (SubZero(u), SubZero(s)) else (SubZero(s), SubZero(u))
  }

  predicate MulAccepts(s: Operand, u: Operand) {
    BothImm(s, u) || !MulForm(s, u).0.Imm?
  }

  function MulCode(t: Target, T: nat, d: Operand, s: Operand, u: Operand): seq<Instr>
    requires |t.temps| > 0 && !d.Imm? && MulAccepts(s, u)
  {
    if BothImm(s, u) then MoveCode(t, T, d, Imm(Norm(s.k * u.k)))
    else
      var (s', u') := MulForm(s, u);
      if IsShift(u') then PowerOf2(u'.k); BopCode(t, T, d, s', u', true, CSll(ILog2(u'.k)))
      else BopCode(t, T, d, s', u', false, CMul)
  }

  predicate PlainAccepts(s: Operand, u: Operand) {
    BothImm(s, u) || !SubZero(s).Imm?
  }

  function OrCode(t: Target, T: nat, d: Operand, s: Operand, u: Operand): seq<Instr>
    requires |t.temps| > 0 && !d.Imm? && PlainAccepts(s, u)
  {
    if BothImm(s, u) then MoveCode(t, T, d, Imm(Or32(s.k, u.k)))
    else BopCode(t, T, d, SubZero(s), SubZero(u), false, COr)
  }

  predicate DivAccepts(s: Operand, u: Operand) {
    PlainAccepts(s, u) && u != Imm(0)
  }

  function DivCode(t: Target, T: nat, d: Operand, s: Operand, u: Operand, isSigned: bool): seq<Instr>
    requires |t.temps| > 0 && !d.Imm? && DivAccepts(s, u)
  {
    if BothImm(s, u) then MoveCode(t, T, d, Imm(Norm(TruncDiv(s.k, u.k))))
    else if IsShift(u) then
      PowerOf2(u.k);
      BopCode(t, T, d, SubZero(s), u, true, if isSigned then CSra(ILog2(u.k)) else CSrl(ILog2(u.k)))
    else BopCode(t, T, d, SubZero(s), u, false, CDiv(isSigned, true))
  }

  function SmodCode(t: Target, T: nat, d: Operand, s: Operand, u: Operand): seq<Instr>
    requires |t.temps| > 0 && !d.Imm? && DivAccepts(s, u)
  {
    if BothImm(s, u) then MoveCode(t, T, d, Imm(Norm(TruncMod(s.k, u.k))))
    else BopCode(t, T, d, SubZero(s), u, false, CDiv(true, false))
  }

  // ----- exactness -----

  /**
   What the operands of an operation must satisfy: two temporaries to spare, registers that
   are not among them, memory above the spill area, bases apart from the destination.
   */
  ghost predicate Clear(t: Target, T: nat, lo: int, x: Data, d: Operand, s: Operand, u: Operand) {
    && t.Valid() && d != OpReg(t.sp)
    && OperandsOk(t, T, T + 2, lo, x, d, s, u)
    && MoveOk(t, T, lo, x, d, Imm(0))
  }

  lemma TwoTempsEnough(t: Target, T: nat, d: Operand, s: Operand, u: Operand, allow: bool)
    requires |t.temps| > 0
    ensures AcquireRegs(t, T, d, s, u, allow).n <= 2
  {
  }

  lemma ZeroUsable(t: Target, T: nat, hi: nat, lo: int, x: Data, o: Operand)
    requires t.Valid() && Usable(t, T, hi, lo, x, o)
    ensures Usable(t, T, hi, lo, x, SubZero(o)) && Val(x, SubZero(o)) == Val(x, o)
  {
    SpecialsNotTemps(t);
    NonTempSpared(t, T, hi, ZERO);
  }

  lemma OperandsForm(t: Target, T: nat, lo: int, x: Data, d: Operand, s: Operand, u: Operand)
    requires Clear(t, T, lo, x, d, s, u)
    ensures Clear(t, T, lo, x, d, SubZero(s), SubZero(u)) && Clear(t, T, lo, x, d, SubZero(u), SubZero(s))
    ensures Val(x, SubZero(s)) == Val(x, s) && Val(x, SubZero(u)) == Val(x, u)
  {
    hide Spared, Room, MoveOk;
    ZeroUsable(t, T, T + 2, lo, x, s);
    ZeroUsable(t, T, T + 2, lo, x, u);
  }

  /** Any lowered operation with clear operands is its assignment. */
  lemma BopExact(t: Target, T: nat, lo: int, d: Operand, s: Operand, u: Operand, allow: bool, c: Core, x: Data)
    requires Clear(t, T, lo, x, d, s, u) && CoreAccepts(c, s, u, allow) && (c.CDiv? ==> Val(x, u) != 0)
    ensures Sim(t, T, lo, Upd(x, d, CoreVal(c, Val(x, s), Val(x, u))), ExecSeq(BopCode(t, T, d, s, u, allow, c), x))
  {
    hide AcquireRegs, Sim, CoreVal, ExecSeq, BopCode, Usable, Room, Spared, MoveOk;
    TwoTempsEnough(t, T, d, s, u, allow);
    AcquireShape(t, T, d, s, u, allow);
    OperandsFewer(t, T, T + 2, T + AcquireRegs(t, T, d, s, u, allow).n, lo, x, d, s, u);
    BopComputes(t, T, lo, d, s, u, allow, c, x);
  }

  lemma FoldExact(t: Target, T: nat, lo: int, d: Operand, k: Word, x: Data)
    requires t.Valid() && MoveOk(t, T, lo, x, d, Imm(0))
    ensures Sim(t, T, lo, Upd(x, d, k), ExecSeq(MoveCode(t, T, d, Imm(k)), x))
  {
    hide Sim, ExecSeq, MoveCode, Room, Spared;
    MoveMoves(t, T, lo, d, Imm(k), x);
  }

  lemma DoAddExact(t: Target, T: nat, lo: int, d: Operand, s: Operand, u: Operand, negate: bool, x: Data)
    requires Clear(t, T, lo, x, d, s, u) && AddAccepts(s, u) && (negate ==> !BothImm(s, u))
    ensures Sim(t, T, lo, Upd(x, d, CoreVal(CAdd(negate), Val(x, s), Val(x, u))), ExecSeq(DoAddCode(t, T, d, s, u, negate), x))
  {
    hide Sim, ExecSeq, MoveCode, BopCode, OperandsOk, MoveOk, Norm, Upd;
    if BothImm(s, u) {
      FoldExact(t, T, lo, d, Norm(s.k + u.k), x);
    } else {
      OperandsForm(t, T, lo, x, d, s, u);
      var (s', u') := AddForm(s, u);
      BopExact(t, T, lo, d, s', u', true, CAdd(negate), x);
    }
  }

  /** d := s + u modulo 2^32. */
  lemma AddExact(t: Target, T: nat, lo: int, d: Operand, s: Operand, u: Operand, x: Data)
    requires Clear(t, T, lo, x, d, s, u) && AddAccepts(s, u)
    ensures Sim(t, T, lo, Upd(x, d, Norm(Val(x, s) + Val(x, u))), ExecSeq(AddCode(t, T, d, s, u), x))
  {
    hide Sim, ExecSeq, DoAddCode, Clear, Norm, Upd, Val;
    DoAddExact(t, T, lo, d, s, u, false, x);
  }

  /** d := s - u modulo 2^32, whether it is emitted as a subtraction or as an addition. */
  lemma SubExact(t: Target, T: nat, lo: int, d: Operand, s: Operand, u: Operand, x: Data)
    requires Clear(t, T, lo, x, d, s, u) && SubAccepts(s, u)
    ensures Sim(t, T, lo, Upd(x, d, Norm(Val(x, s) - Val(x, u))), ExecSeq(SubCode(t, T, d, s, u), x))
  {
    hide Sim, ExecSeq, MoveCode, BopCode, DoAddCode, OperandsOk, MoveOk, Norm, Upd;
    OperandsForm(t, T, lo, x, d, s, u);
    var s', u' := SubZero(s), SubZero(u);
    if BothImm(s, u) {
      FoldExact(t, T, lo, d, Norm(s.k - u.k), x);
    } else if IsSubImmed(s') {
      ClearImm(t, T, lo, x, d, u', Negated(s'));
      DoAddExact(t, T, lo, d, u', Negated(s'), true, x);
    } else if IsSubImmed(u') {
      ClearImm(t, T, lo, x, d, s', Negated(u'));
      DoAddExact(t, T, lo, d, s', Negated(u'), false, x);
    } else {
      BopExact(t, T, lo, d, s', u', false, CSub, x);
    }
  }

  lemma ClearImm(t: Target, T: nat, lo: int, x: Data, d: Operand, s: Operand, k: Operand)
    requires k.Imm? && exists u :: Clear(t, T, lo, x, d, s, u)
    ensures Clear(t, T, lo, x, d, s, k)
  {
  }

  /** d := s * u modulo 2^32; a shift when one factor is a small power of two. */
  lemma MulExact(t: Target, T: nat, lo: int, d: Operand, s: Operand, u: Operand, x: Data)
    requires Clear(t, T, lo, x, d, s, u) && MulAccepts(s, u)
    ensures Sim(t, T, lo, Upd(x, d, Norm(Val(x, s) * Val(x, u))), ExecSeq(MulCode(t, T, d, s, u), x))
  {
    hide Sim, ExecSeq, MoveCode, BopCode, OperandsOk, MoveOk, Norm, Upd, IsPowerOf2, Pow2, ILog2;
    if BothImm(s, u) {
      FoldExact(t, T, lo, d, Norm(s.k * u.k), x);
    } else {
      OperandsForm(t, T, lo, x, d, s, u);
      var (s', u') := MulForm(s, u);
      assert Val(x, s') * Val(x, u') == Val(x, s) * Val(x, u);
      if IsShift(u') {
        PowerOf2(u'.k);
        BopExact(t, T, lo, d, s', u', true, CSll(ILog2(u'.k)), x);
      } else {
        BopExact(t, T, lo, d, s', u', false, CMul, x);
      }
    }
  }

  /** The destination of an or, read back. */
  lemma OrReads(t: Target, T: nat, lo: int, d: Operand, v: Word, x: Data, y: Data)
    requires t.Valid() && !d.Imm? && d != OpReg(ZERO) && d != OpReg(t.sp) && Usable(t, T, T, lo, x, d) && Sim(t, T, lo, Upd(x, d, v), y)
    ensures Val(y, d) == v
  {
    hide Sim;
    var z := Upd(x, d, v);
    HeldVal(t, T, T, lo, z, y, d) by {
      assert Held(t, T, T, lo, z, y) by { SimHolds(t, T, lo, z, y); }
    }
  }

  lemma SimHolds(t: Target, T: nat, lo: int, y: Data, x: Data)
    requires |t.temps| > 0 && Sim(t, T, lo, y, x)
    ensures Held(t, T, T, lo, y, x)
  {
  }

  /** d := s | u: bit by bit, the destination has what either operand had. */
  lemma OrExact(t: Target, T: nat, lo: int, d: Operand, s: Operand, u: Operand, x: Data)
    requires Clear(t, T, lo, x, d, s, u) && PlainAccepts(s, u)
    ensures Sim(t, T, lo, Upd(x, d, Or32(Val(x, s), Val(x, u))), ExecSeq(OrCode(t, T, d, s, u), x))
    ensures d != OpReg(ZERO) ==>
              forall n: nat :: Bit(Val(ExecSeq(OrCode(t, T, d, s, u), x), d), n) <==> Bit(Val(x, s), n) || Bit(Val(x, u), n)
  {
    OrSim(t, T, lo, d, s, u, x);
    hide Sim, ExecSeq, OrCode, OperandsOk, Upd, BitOr, Bit, Usable, Room;
    if d != OpReg(ZERO) {
      OrReads(t, T, lo, d, Or32(Val(x, s), Val(x, u)), x, ExecSeq(OrCode(t, T, d, s, u), x));
      forall n: nat
        ensures Bit(Or32(Val(x, s), Val(x, u)), n) <==> Bit(Val(x, s), n) || Bit(Val(x, u), n)
      {
        OrBits(Val(x, s), Val(x, u), n);
      }
    }
  }

  lemma OrSim(t: Target, T: nat, lo: int, d: Operand, s: Operand, u: Operand, x: Data)
    requires Clear(t, T, lo, x, d, s, u) && PlainAccepts(s, u)
    ensures Sim(t, T, lo, Upd(x, d, Or32(Val(x, s), Val(x, u))), ExecSeq(OrCode(t, T, d, s, u), x))
  {
    hide Sim, ExecSeq, MoveCode, BopCode, OperandsOk, MoveOk, Norm, Upd, BitOr;
    if BothImm(s, u) {
      FoldExact(t, T, lo, d, Or32(s.k, u.k), x);
    } else {
      OperandsForm(t, T, lo, x, d, s, u);
      BopExact(t, T, lo, d, SubZero(s), SubZero(u), false, COr, x);
    }
  }

  /** The word signed division leaves: truncated, except that a shift floors. */
  function SdivVal(a: Word, b: Word, shift: bool): Word
    requires b != 0
  {
    if shift then Norm(a / b) else Norm(TruncDiv(a, b))
  }

  lemma SdivOutcome(t: Target, T: nat, lo: int, d: Operand, s: Operand, u: Operand, x: Data)
    requires Clear(t, T, lo, x, d, s, u) && DivAccepts(s, u) && Val(x, u) != 0
    ensures Sim(t, T, lo, Upd(x, d, SdivVal(Val(x, s), Val(x, u), !BothImm(s, u) && IsShift(u))), ExecSeq(DivCode(t, T, d, s, u, true), x))
  {
    hide Sim, ExecSeq, MoveCode, BopCode, OperandsOk, MoveOk, Norm, Upd, IsPowerOf2, Pow2, ILog2, TruncDiv;
    if BothImm(s, u) {
      FoldExact(t, T, lo, d, Norm(TruncDiv(s.k, u.k)), x);
    } else {
      OperandsForm(t, T, lo, x, d, s, u);
      if IsShift(u) {
        PowerOf2(u.k);
        BopExact(t, T, lo, d, SubZero(s), u, true, CSra(ILog2(u.k)), x);
      } else {
        BopExact(t, T, lo, d, SubZero(s), u, false, CDiv(true, true), x);
      }
    }
  }

  /**
   Division is promised to truncate. With a power-of-two divisor it is emitted as a shift,
   which does so exactly when the dividend is not negative or divides evenly.
   */
  lemma ShiftTruncatesIff(a: Word, k: Word)
    requires k > 0
    ensures SdivVal(a, k, true) == SdivVal(a, k, false) <==> a >= 0 || a % k == 0
  {
    var q, r := a / k, a % k;
    assert a == q * k + r;
    NormNext(q);
    if a < 0 {
      if r == 0 {
        assert -(a as int) == (-q) * k;
        DivModUnique(-(a as int), k, -q, 0);
      } else {
        assert -(a as int) == (-q - 1) * k + (k - r);
        DivModUnique(-(a as int), k, -q - 1, k - r);
      }
    }
  }

  lemma NormNext(q: int)
    ensures Norm(q) != Norm(q + 1)
  {
  }

  /** The shift floors -1 / 2 to -1 where truncation gives 0. */
  lemma ShiftFloorsMinusOne()
    ensures SdivVal(-1, 2, true) == -1 && SdivVal(-1, 2, false) == 0
  {
  }

  /** The word unsigned division leaves: the unsigned quotient, except that two immediates are folded signed. */
  function UdivVal(a: Word, b: Word, folded: bool): Word
    requires b != 0
  {
    if folded then Norm(TruncDiv(a, b)) else Norm(Unsigned(a) / Unsigned(b))
  }

  lemma UdivOutcome(t: Target, T: nat, lo: int, d: Operand, s: Operand, u: Operand, x: Data)
    requires Clear(t, T, lo, x, d, s, u) && DivAccepts(s, u) && Val(x, u) != 0
    ensures Sim(t, T, lo, Upd(x, d, UdivVal(Val(x, s), Val(x, u), BothImm(s, u))), ExecSeq(DivCode(t, T, d, s, u, false), x))
  {
    hide Sim, ExecSeq, MoveCode, BopCode, OperandsOk, MoveOk, Norm, Upd, IsPowerOf2, Pow2, ILog2, TruncDiv;
    if BothImm(s, u) {
      FoldExact(t, T, lo, d, Norm(TruncDiv(s.k, u.k)), x);
    } else {
      OperandsForm(t, T, lo, x, d, s, u);
      if IsShift(u) {
        PowerOf2(u.k);
        BopExact(t, T, lo, d, SubZero(s), u, true, CSrl(ILog2(u.k)), x);
      } else {
        BopExact(t, T, lo, d, SubZero(s), u, false, CDiv(false, true), x);
      }
    }
  }

  /** Euclidean division by a negative divisor, as division by its magnitude. */
  lemma DivNegative(a: int, b: int)
    requires a >= 0 && b < 0
    ensures a / b == -(a / (-b))
  {
    assert a == b * (a / b) + a % b;
    assert a == (-b) * (-(a / b)) + a % b;
    DivModUnique(a, -b, -(a / b), a % b);
  }

  /** The folded quotient is the unsigned one exactly for these operands. */
  predicate FoldsUnsigned(a: Word, b: Word) {
    (a >= 0 && b > 0) || b == 1 || a == b || 0 <= a < -(b as int)
  }

  lemma HalfProduct(q: int, b: int)
    requires q >= 0 && b >= 2
    ensures 2 * q <= b * q
  {
    assert b * q == (b - 2) * q + 2 * q;
  }

  /** How large a quotient of naturals can be. */
  lemma QuotientBounds(a: int, b: int)
    requires 0 <= a && 0 < b
    ensures a < b <==> a / b == 0
    ensures b <= a < 2 * b ==> a / b == 1
    ensures 0 <= a / b && (b >= 2 ==> 2 * (a / b) <= a) && (b == 1 ==> a / b == a)
  {
    var q, r := a / b, a % b;
    assert a == b * q + r;
    if a < b {
      DivModUnique(a, b, 0, a);
    } else {
      DivModUnique(b, b, 1, 0);
      DivMonotone(b, a, b);
      if a < 2 * b {
        DivModUnique(a, b, 1, a - b);
      }
      if b >= 2 {
        HalfProduct(q, b);
      } else {
        DivModUnique(a, 1, a, 0);
      }
    }
  }

  lemma FoldOfNatural(a: Word, b: Word)
    requires b != 0 && a >= 0
    ensures UdivVal(a, b, true) == UdivVal(a, b, false) <==> FoldsUnsigned(a, b)
  {
    hide Norm;
    var m: int, n: int := a, b;
    if n < 0 {
      DivNegative(m, n);
      QuotientBounds(m, -n);
      QuotientBounds(m, n + WORD_SPAN);
      NormWord(TruncDiv(m, n));
      NormWord(0);
    }
  }

  lemma NormOfQuotient(q: int)
    requires 0 <= q <= WORD_HALF
    ensures Norm(q) == 0 <==> q == 0
    ensures q <= 1 ==> Norm(q) == q
  {
  }

  lemma FoldOfNegatives(a: Word, b: Word)
    requires a < 0 && b < 0
    ensures UdivVal(a, b, true) == UdivVal(a, b, false) <==> a == b
  {
    hide Norm;
    var m: int, n: int := a, b;
    DivNegative(-m, n);
    QuotientBounds(-m, -n);
    QuotientBounds(m + WORD_SPAN, n + WORD_SPAN);
    assert -n >= 2 || (-m) / (-n) == -m;
    NormOfQuotient((-m) / (-n));
    NormOfQuotient((m + WORD_SPAN) / (n + WORD_SPAN));
  }

  lemma FoldOfNegative(a: Word, b: Word)
    requires a < 0 && b > 0
    ensures UdivVal(a, b, true) == UdivVal(a, b, false) <==> b == 1
  {
    hide Norm;
    var m: int, n: int := a, b;
    QuotientBounds(-m, n);
    QuotientBounds(m + WORD_SPAN, n);
    if n >= 2 {
      NormWord(TruncDiv(m, n));
      NormWord((m + WORD_SPAN) / n);
    } else {
      NormCongruent(m + WORD_SPAN, m, 1);
    }
  }

  /**
   udiv folds two immediates with C's signed division. That is the unsigned quotient exactly
   when dividend and divisor are not negative, or the divisor is one, or they are equal, or the
   dividend is not negative and smaller than the divisor's magnitude.
   */
  lemma FoldUnsignedIff(a: Word, b: Word)
    requires b != 0
    ensures UdivVal(a, b, true) == UdivVal(a, b, false) <==> FoldsUnsigned(a, b)
  {
    if a >= 0 {
      FoldOfNatural(a, b);
    } else if b > 0 {
      FoldOfNegative(a, b);
    } else {
      FoldOfNegatives(a, b);
    }
  }

  /** -1 / 2 is folded to 0, where the unsigned quotient is 2^31 - 1. */
  lemma FoldedMinusOne()
    ensures UdivVal(-1, 2, true) == 0 && UdivVal(-1, 2, false) == 0x7fff_ffff
  {
  }

  /** d := s % u with the sign of the dividend. */
  lemma SmodExact(t: Target, T: nat, lo: int, d: Operand, s: Operand, u: Operand, x: Data)
    requires Clear(t, T, lo, x, d, s, u) && DivAccepts(s, u) && Val(x, u) != 0
    ensures Sim(t, T, lo, Upd(x, d, Norm(TruncMod(Val(x, s), Val(x, u)))), ExecSeq(SmodCode(t, T, d, s, u), x))
  {
    hide Sim, ExecSeq, MoveCode, BopCode, OperandsOk, MoveOk, Norm, Upd, TruncMod;
    if BothImm(s, u) {
      FoldExact(t, T, lo, d, Norm(TruncMod(s.k, u.k)), x);
    } else {
      OperandsForm(t, T, lo, x, d, s, u);
      BopExact(t, T, lo, d, SubZero(s), u, false, CDiv(true, false), x);
    }
  }

  // ----- no control transfers -----

  lemma PlainJoin(a: seq<Instr>, b: seq<Instr>)
    requires Plain(a) && Plain(b)
    ensures Plain(a + b)
  {
  }

  lemma PlainPieces(t: Target, T: nat, o: Operand, r: Reg, force: bool)
    requires |t.temps| > 0
    ensures Plain(AcquireCode(t, T)) && Plain(LoadRegCode(o, r, force)) && (T > 0 ==> Plain(ReleaseCode(t, T)))
  {
  }

  lemma PlainMove(t: Target, T: nat, d: Operand, s: Operand)
    requires |t.temps| > 0 && !d.Imm?
    ensures Plain(MoveCode(t, T, d, s))
  {
    hide AcquireCode, ReleaseCode, LoadRegCode, TempAt;
    match d
    case OpReg(r) => PlainPieces(t, T, s, r, s.OpReg?);
    case DAddr(b, off) =>
      PlainPieces(t, T, s, TempAt(t, T), false);
      PlainPieces(t, T + 1, s, TempAt(t, T), false);
  }

  lemma PlainLand(t: Target, hi: nat, o: Operand, other: Operand, d: Reg, allow: bool)
    requires |t.temps| > 0
    ensures Plain(Land(t, hi, o, other, d, allow).code)
  {
    hide AcquireCode, LoadRegCode;
    PlainPieces(t, hi, o, TempAt(t, hi), false);
    PlainPieces(t, hi, o, d, false);
  }

  lemma {:induction false} PlainReleaseN(t: Target, T: nat, n: nat)
    requires |t.temps| > 0
    ensures Plain(ReleaseN(t, T, n))
    decreases n
  {
    hide ReleaseCode;
    if n > 0 {
      PlainPieces(t, T + n, Imm(0), ZERO, false);
      PlainReleaseN(t, T, n - 1);
    }
  }

  lemma PlainBop(t: Target, T: nat, d: Operand, s: Operand, u: Operand, allow: bool, c: Core)
    requires |t.temps| > 0 && CoreAccepts(c, s, u, allow)
    ensures Plain(BopCode(t, T, d, s, u, allow, c))
  {
    hide Land, ReleaseN, AcquireCode;
    var a := AcquireRegs(t, T, d, s, u, allow);
    var ls := Land(t, StartHi(T, d), s, u, StartReg(t, T, d), allow);
    CoreTakes(t, T, d, s, u, allow, c);
    AcquireShape(t, T, d, s, u, allow);
    PlainPieces(t, T, s, ZERO, false);
    PlainLand(t, StartHi(T, d), s, u, StartReg(t, T, d), allow);
    PlainLand(t, ls.hi, u, ls.o, StartReg(t, T, d), allow);
    PlainReleaseN(t, T, a.n);
    PlainCore(c, a.d, a.s.reg, a.u);
    var core := CoreCode(c, a.d, a.s.reg, a.u);
    PlainJoin(a.code, core);
    PlainJoin(a.code + core, StoreBack(d, a.d));
    PlainJoin(a.code + core + StoreBack(d, a.d), ReleaseN(t, T, a.n));
  }

  lemma PlainCore(c: Core, d: Reg, s: Reg, u: Operand)
    requires u.OpReg? || (TakesImmed(c) && IsAddImmed(u))
    ensures Plain(CoreCode(c, d, s, u))
  {
  }

  lemma PlainAdd(t: Target, T: nat, d: Operand, s: Operand, u: Operand, negate: bool)
    requires |t.temps| > 0 && !d.Imm? && AddAccepts(s, u)
    ensures Plain(DoAddCode(t, T, d, s, u, negate))
  {
    hide BopCode, MoveCode, Plain, Norm;
    if BothImm(s, u) {
      PlainMove(t, T, d, Imm(Norm(s.k + u.k)));
    } else {
      PlainBop(t, T, d, AddForm(s, u).0, AddForm(s, u).1, true, CAdd(negate));
    }
  }

  lemma PlainSub(t: Target, T: nat, d: Operand, s: Operand, u: Operand)
    requires |t.temps| > 0 && !d.Imm? && SubAccepts(s, u)
    ensures Plain(SubCode(t, T, d, s, u))
  {
    hide BopCode, MoveCode, DoAddCode, Plain, Norm;
    var s', u' := SubZero(s), SubZero(u);
    if BothImm(s, u) {
      PlainMove(t, T, d, Imm(Norm(s.k - u.k)));
    } else if IsSubImmed(s') {
      PlainAdd(t, T, d, u', Negated(s'), true);
    } else if IsSubImmed(u') {
      PlainAdd(t, T, d, s', Negated(u'), false);
    } else {
      PlainBop(t, T, d, s', u', false, CSub);
    }
  }

  lemma PlainMul(t: Target, T: nat, d: Operand, s: Operand, u: Operand)
    requires |t.temps| > 0 && !d.Imm? && MulAccepts(s, u)
    ensures Plain(MulCode(t, T, d, s, u))
  {
    hide BopCode, MoveCode, Plain, Norm, IsPowerOf2, ILog2;
    if BothImm(s, u) {
      PlainMove(t, T, d, Imm(Norm(s.k * u.k)));
    } else {
      var (s', u') := MulForm(s, u);
      if IsShift(u') {
        PowerOf2(u'.k);
        PlainBop(t, T, d, s', u', true, CSll(ILog2(u'.k)));
      } else {
        PlainBop(t, T, d, s', u', false, CMul);
      }
    }
  }

  lemma PlainOr(t: Target, T: nat, d: Operand, s: Operand, u: Operand)
    requires |t.temps| > 0 && !d.Imm? && PlainAccepts(s, u)
    ensures Plain(OrCode(t, T, d, s, u))
  {
    hide BopCode, MoveCode, Plain, BitOr;
    if BothImm(s, u) {
      PlainMove(t, T, d, Imm(Or32(s.k, u.k)));
    } else {
      PlainBop(t, T, d, SubZero(s), SubZero(u), false, COr);
    }
  }
}

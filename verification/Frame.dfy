/** Where a frame's Lua registers live: machine registers first, then stack slots under fp. */
module Frame {
  import opened Words
  import opened Mips
  import opened Target
  import opened Moves
  import opened ArithCode
  import opened ArithOps
  import opened BranchCode

  const LUA_TNUMBER: Word := 0

  datatype Const = Const(value: Word, tag: Word)

  datatype Frame = Frame(t: Target, nrLocals: nat, consts: seq<Const>) {
    ghost predicate Valid() {
      t.Valid() && 8 * nrLocals + 4 <= 0x8000
    }

    /** Physical slots: two for each local, value then type. */
    function Slots(): nat {
      2 * nrLocals
    }
  }

  datatype VregOperand = VregOperand(value: Operand, tag: Operand)

  /** Stack home of slot p, as an offset from fp. */
  function HomeOffset(p: nat): int {
    -(8 + 4 * p)
  }

  /** Slot p in its register, or in memory when stackOnly or when registers have run out. */
  function PslotToOperand(f: Frame, p: nat, stackOnly: bool): Operand {
    if stackOnly || p >= |f.t.spare| then TargetDAddr(f.t.fp, HomeOffset(p)) else OpReg(f.t.spare[p])
  }

  function VregToOperand(f: Frame, v: nat, stackOnly: bool): VregOperand {
    VregOperand(PslotToOperand(f, 2 * v, stackOnly), PslotToOperand(f, 2 * v + 1, stackOnly))
  }

  function ConstToOperand(f: Frame, k: nat): VregOperand
    requires k < |f.consts|
  {
    VregOperand(Imm(f.consts[k].value), Imm(f.consts[k].tag))
  }

  /** A bytecode operand: a local or a constant, told apart by the top bit of the encoding. */
  datatype LOperand = Local(index: nat) | Konst(index: nat)

  predicate OperandIn(f: Frame, o: LOperand) {
    match o
    case Local(v) => v < f.nrLocals
    case Konst(k) => k < |f.consts|
  }

  function LoperandToOperand(f: Frame, o: LOperand): VregOperand
    requires OperandIn(f, o)
  {
    match o
    case Local(v) => VregToOperand(f, v, false)
    case Konst(k) => ConstToOperand(f, k)
  }

  /** The stack home of slot p. */
  function HomeAddr(t: Target, x: Data, p: nat): int {
    R(x, t.fp) + HomeOffset(p)
  }

  /** The frame pointer leaves room for every slot's home, all above lo. */
  ghost predicate FrameOk(f: Frame, lo: int, x: Data) {
    && f.Valid() && |f.t.temps| >= 3
    && R(x, f.t.fp) - (8 * f.nrLocals + 4) >= -0x8000_0000
    && lo < R(x, f.t.fp) - (8 * f.nrLocals + 4)
  }

  /** Where slot p of a running frame is. */
  function SlotOp(f: Frame, p: nat): Operand {
    PslotToOperand(f, p, false)
  }

  lemma HomeReached(f: Frame, lo: int, x: Data, p: nat)
    requires FrameOk(f, lo, x) && p < f.Slots()
    ensures EffAddr(x, f.t.fp, Int16(HomeOffset(p))) == HomeAddr(f.t, x, p) > lo
  {
    HalfFits(HomeOffset(p));
    NormWord(HomeAddr(f.t, x, p));
  }

  /** A slot can be used whatever temporaries are held. */
  lemma SlotUsable(f: Frame, lo: int, x: Data, p: nat, T: nat, hi: nat)
    requires FrameOk(f, lo, x) && p < f.Slots()
    ensures Usable(f.t, T, hi, lo, x, SlotOp(f, p))
    ensures SlotOp(f, p).OpReg? ==> SlotOp(f, p).reg != ZERO && SlotOp(f, p).reg != f.t.sp && SlotOp(f, p).reg != f.t.fp
    ensures SlotOp(f, p).DAddr? ==> SlotOp(f, p).base == f.t.fp
    ensures !SlotOp(f, p).Imm?
  {
    SpecialsNotTemps(f.t);
    if p < |f.t.spare| {
      NonTempSpared(f.t, T, hi, f.t.spare[p]);
    } else {
      NonTempSpared(f.t, T, hi, f.t.fp);
      HomeReached(f, lo, x, p);
    }
  }

  lemma SlotsApart(f: Frame, p: nat, q: nat)
    requires f.Valid() && p < f.Slots() && q < f.Slots() && p != q
    ensures SlotOp(f, p) != SlotOp(f, q)
  {
    HalfFits(HomeOffset(p));
    HalfFits(HomeOffset(q));
  }

  // ----- the register table as shipped -----

  /** Non-temporaries in table order, s0 to s7 and t0 to t9, with t6 in the place of t5. */
  const SHIPPED: seq<Reg> := [16, 17, 18, 19, 20, 21, 22, 23, 8, 9, 10, 11, 12, 14, 14, 15, 24, 25]
  const MIPS_TEMPS: seq<Reg> := [A0, A1, A2, A3]

  /** Slots of a frame are apart exactly when the registers it reaches in the table are distinct. */
  lemma SlotsApartIff(f: Frame)
    requires 8 * f.nrLocals + 4 <= 0x8000
    ensures (forall p, q :: 0 <= p < q < f.Slots() ==> SlotOp(f, p) != SlotOp(f, q))
       <==> (forall i, j :: 0 <= i < j < |f.t.spare| && j < f.Slots() ==> f.t.spare[i] != f.t.spare[j])
  {
    forall p, q | 0 <= p < q < f.Slots() && q >= |f.t.spare|
      ensures SlotOp(f, p) != SlotOp(f, q)
    {
      HalfFits(HomeOffset(p));
      HalfFits(HomeOffset(q));
    }
    forall i, j | 0 <= i < j < |f.t.spare| && j < f.Slots()
      ensures f.t.spare[i] == f.t.spare[j] <==> SlotOp(f, i) == SlotOp(f, j)
    {
    }
  }

  /** As shipped, the type of local 6 and the value of local 7 share a register. */
  lemma ShippedTableCollides(f: Frame)
    requires f.t.spare == SHIPPED && f.nrLocals >= 8 && 8 * f.nrLocals + 4 <= 0x8000
    ensures VregToOperand(f, 6, false).tag == VregToOperand(f, 7, false).value
    ensures !forall p, q :: 0 <= p < q < f.Slots() ==> SlotOp(f, p) != SlotOp(f, q)
  {
    assert SHIPPED[13] == SHIPPED[14];
    SlotsApartIff(f);
  }

  /** With t5 where the second t6 is, everything asked of a machine holds. */
  lemma RepairedTableValid()
    ensures Target(SP, FP, RA, MIPS_TEMPS, SHIPPED[13 := 13]).Valid()
  {
    var t := Target(SP, FP, RA, MIPS_TEMPS, SHIPPED[13 := 13]);
    forall i | 0 <= i < |t.spare|
      ensures !t.IsTemp(t.spare[i])
    {
    }
  }

  /** Writing one slot changes that slot and no other, and leaves the frame in place. */
  lemma SlotUpd(f: Frame, lo: int, x: Data, p: nat, q: nat, v: Word)
    requires FrameOk(f, lo, x) && p < f.Slots() && q < f.Slots()
    ensures Val(Upd(x, SlotOp(f, p), v), SlotOp(f, q)) == if p == q then v else Val(x, SlotOp(f, q))
    ensures FrameOk(f, lo, Upd(x, SlotOp(f, p), v))
    ensures R(Upd(x, SlotOp(f, p), v), f.t.fp) == R(x, f.t.fp)
  {
    SlotUsable(f, lo, x, p, 0, 0);
    SlotUsable(f, lo, x, q, 0, 0);
    if p >= |f.t.spare| {
      HomeReached(f, lo, x, p);
    }
    if q >= |f.t.spare| {
      HomeReached(f, lo, x, q);
    }
    hide Norm, Int16, Spared;
  }

  lemma SimFrame(f: Frame, T: nat, lo: int, x: Data, y: Data)
    requires FrameOk(f, lo, x) && Sim(f.t, T, lo, x, y)
    ensures FrameOk(f, lo, y) && R(y, f.t.fp) == R(x, f.t.fp)
  {
    SpecialsNotTemps(f.t);
    NonTempSpared(f.t, T, T, f.t.fp);
  }

  lemma SimSlot(f: Frame, T: nat, lo: int, x: Data, y: Data, p: nat)
    requires FrameOk(f, lo, x) && Sim(f.t, T, lo, x, y) && p < f.Slots()
    ensures Val(y, SlotOp(f, p)) == Val(x, SlotOp(f, p))
  {
    SlotUsable(f, lo, x, p, T, T);
    HeldVal(f.t, T, T, lo, x, y, SlotOp(f, p));
  }

  /** What code holding a temporary preserves, code holding none preserves too. */
  lemma SimWeaken(t: Target, T: nat, lo: int, x: Data, y: Data)
    requires t.Valid() && T < |t.temps| && Sim(t, T, lo, x, y)
    ensures Sim(t, 0, lo, x, y)
  {
    forall q: Reg | Spared(t, 0, 0, q)
      ensures R(y, q) == R(x, q)
    {
      forall k {:trigger TempAt(t, k)} | T <= k < |t.temps|
        ensures TempAt(t, k) != q
      {
      }
      assert Spared(t, T, T, q);
    }
  }
}

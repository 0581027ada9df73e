/**
 The register conventions of a target machine as a value, generic operands, and the code
 that temporaries cost. T is always the number of temporaries live; temporary k, counting
 from zero, lives in register TempAt(t, k) while it is among the newest |t.temps|, and
 otherwise in its own stack slot below the stack pointer.
 */
module Target {
  import opened Words
  import opened Mips

  datatype Target = Target(sp: Reg, fp: Reg, ra: Reg, temps: seq<Reg>, spare: seq<Reg>) {

    ghost predicate Valid() {
      && |temps| > 0
      && sp != ZERO && fp != ZERO && ra != ZERO && sp != fp && sp != ra && fp != ra
      && (forall i :: 0 <= i < |temps| ==> Ordinary(temps[i]))
      && (forall i :: 0 <= i < |spare| ==> Ordinary(spare[i]) && !IsTemp(spare[i]))
      && (forall i, j :: 0 <= i < j < |temps| ==> temps[i] != temps[j])
      && (forall i, j :: 0 <= i < j < |spare| ==> spare[i] != spare[j])
    }

    ghost predicate Ordinary(r: Reg) {
      r != ZERO && r != sp && r != fp && r != ra
    }

    predicate IsTemp(r: Reg) {
      exists i :: 0 <= i < |temps| && temps[i] == r
    }
  }

  datatype Operand = OpReg(reg: Reg) | DAddr(base: Reg, offset: Half) | Imm(k: Word)

  /** The direct-address constructor keeps sixteen bits of the offset. */
  function TargetDAddr(base: Reg, offset: int): Operand {
    DAddr(base, Int16(offset))
  }

  function Val(x: Data, o: Operand): Word {
    match o
    case OpReg(r) => R(x, r)
    case DAddr(b, off) => Ld(x, EffAddr(x, b, off))
    case Imm(k) => k
  }

  /** The ideal effect of writing v to operand d. */
  function Upd(x: Data, d: Operand, v: Word): Data {
    match d
    case OpReg(r) => W(x, r, v)
    case DAddr(b, off) => St(x, EffAddr(x, b, off), v)
    case Imm(_) => x
  }

  function TempAt(t: Target, k: nat): Reg
    requires |t.temps| > 0
  {
    t.temps[k % |t.temps|]
  }

  /** Words between the stack pointer and the slot of spilled temporary k. */
  function SlotNo(n: nat, k: nat): (s: nat)
    requires n > 0
    ensures s >= k + 1
  {
    k + k / n + 1
  }

  function SlotAddr(t: Target, x: Data, k: nat): int
    requires |t.temps| > 0
  {
    R(x, t.sp) - 4 * SlotNo(|t.temps|, k)
  }

  /** Acquiring with T live spills temporary T - n; its slot must be reachable. */
  predicate SlotFits(t: Target, T: nat)
    requires |t.temps| > 0
  {
    T >= |t.temps| ==> 4 * SlotNo(|t.temps|, T - |t.temps|) <= 0x8000
  }

  function AcquireCode(t: Target, T: nat): seq<Instr>
    requires |t.temps| > 0
  {
    var n := |t.temps|;
    if T < n then [] else [Sw(TempAt(t, T), t.sp, Int16(-4 * SlotNo(n, T - n)))]
  }

  function ReleaseCode(t: Target, T: nat): seq<Instr>
    requires |t.temps| > 0 && T > 0
  {
    var n := |t.temps|;
    if T - 1 < n then [] else [Lw(TempAt(t, T - 1), t.sp, Int16(-4 * SlotNo(n, T - 1 - n)))]
  }

  /** Register r is neither a dead temporary nor one of those numbered T up to hi. */
  ghost predicate Spared(t: Target, T: nat, hi: nat, r: Reg)
    requires |t.temps| > 0
  {
    forall k {:trigger TempAt(t, k)} :: T <= k < hi || T <= k < |t.temps| ==> TempAt(t, k) != r
  }

  /**
   State x is state y as seen by code with T temporaries live, while temporaries T up to hi
   are held on top: every other register agrees, memory above lo agrees, and each value that
   those acquisitions displaced waits in its slot.
   */
  ghost predicate Held(t: Target, T: nat, hi: nat, lo: int, y: Data, x: Data)
    requires |t.temps| > 0
  {
    && RegsAgree(t, T, hi, y, x)
    && MemAgrees(lo, y, x)
    && SlotsHold(t, T, hi, y, x)
  }

  ghost predicate RegsAgree(t: Target, T: nat, hi: nat, y: Data, x: Data)
    requires |t.temps| > 0
  {
    forall r: Reg :: Spared(t, T, hi, r) ==> R(x, r) == R(y, r)
  }

  ghost predicate MemAgrees(lo: int, y: Data, x: Data) {
    forall a :: a > lo ==> Ld(x, a) == Ld(y, a)
  }

  ghost predicate SlotsHold(t: Target, T: nat, hi: nat, y: Data, x: Data)
    requires |t.temps| > 0
  {
    forall k {:trigger TempAt(t, k)} :: T <= k < hi && k >= |t.temps| ==>
      Ld(x, SlotAddr(t, y, k - |t.temps|)) == R(y, TempAt(t, k))
  }

  lemma StoreBoth(lo: int, y: Data, x: Data, a: int, v: Word)
    requires MemAgrees(lo, y, x)
    ensures MemAgrees(lo, St(y, a, v), St(x, a, v))
  {
    forall b | b > lo
      ensures Ld(St(x, a, v), b) == Ld(St(y, a, v), b)
    {
      assert Ld(x, b) == Ld(y, b);
    }
  }

  lemma MemOnly(lo: int, y: Data, x: Data, y': Data, x': Data)
    requires MemAgrees(lo, y, x) && y'.mem == y.mem && x'.mem == x.mem
    ensures MemAgrees(lo, y', x')
  {
    forall b | b > lo
      ensures Ld(x', b) == Ld(y', b)
    {
      assert Ld(x, b) == Ld(y, b);
    }
  }

  /** Nothing that code with T temporaries live can see differs, except below lo. */
  ghost predicate Sim(t: Target, T: nat, lo: int, y: Data, x: Data)
    requires |t.temps| > 0
  {
    Held(t, T, T, lo, y, x)
  }

  /**
   Room to hold temporaries T up to hi: the stack pointer is not near wrapping, and each slot
   they spill to is reachable and at or below lo. Nothing is asked while registers last.
   */
  ghost predicate Room(t: Target, T: nat, hi: nat, lo: int, x: Data)
    requires |t.temps| > 0
  {
    && T <= hi <= T + |t.temps|
    && (hi > |t.temps| ==>
          && R(x, t.sp) >= -0x8000_0000 + 0x8000
          && 4 * SlotNo(|t.temps|, hi - 1 - |t.temps|) <= 0x8000
          && lo >= R(x, t.sp) - 4 * SlotNo(|t.temps|, if T >= |t.temps| then T - |t.temps| else 0))
  }

  lemma SlotMonotone(n: nat, j: nat, k: nat)
    requires n > 0 && j < k
    ensures SlotNo(n, j) < SlotNo(n, k)
  {
    DivMonotone(j, k, n);
  }

  lemma DivMonotone(j: nat, k: nat, n: nat)
    requires n > 0 && j <= k
    ensures j / n <= k / n
  {
    var a, b := j / n, k / n;
    assert j == a * n + j % n && k == b * n + k % n;
    assert (a - b) * n == a * n - b * n;
    if a > b {
      MulGrows(a - b, n);
      assert false;
    }
  }

  /** Temporaries fewer than n apart are in different registers. */
  lemma TempDistinct(t: Target, j: nat, k: nat)
    requires t.Valid() && j < k < j + |t.temps|
    ensures TempAt(t, j) != TempAt(t, k)
  {
    var n := |t.temps|;
    if j % n == k % n {
      assert k - j == (k / n - j / n) * n by {
        assert j == (j / n) * n + j % n && k == (k / n) * n + k % n;
        assert (k / n - j / n) * n == (k / n) * n - (j / n) * n;
      }
      MulGrows(k / n - j / n, n);
      assert false;
    }
  }

  lemma SmallMod(k: nat, n: nat)
    requires k < n
    ensures k % n == k && k / n == 0
  {
  }

  lemma TempOrdinary(t: Target, k: nat)
    requires t.Valid()
    ensures t.Ordinary(TempAt(t, k)) && t.IsTemp(TempAt(t, k))
  {
    assert t.temps[k % |t.temps|] == TempAt(t, k);
  }

  /** A register that is no temporary is seen by everyone. */
  lemma NonTempSpared(t: Target, T: nat, hi: nat, r: Reg)
    requires t.Valid() && !t.IsTemp(r)
    ensures Spared(t, T, hi, r)
  {
    forall k: nat
      ensures TempAt(t, k) != r
    {
      TempOrdinary(t, k);
    }
  }

  lemma SpecialsNotTemps(t: Target)
    requires t.Valid()
    ensures !t.IsTemp(ZERO) && !t.IsTemp(t.sp) && !t.IsTemp(t.fp) && !t.IsTemp(t.ra)
  {
  }

  lemma SimRefl(t: Target, T: nat, lo: int, x: Data)
    requires t.Valid()
    ensures Sim(t, T, lo, x, x)
  {
  }

  lemma SlotEffAddr(t: Target, x: Data, k: nat)
    requires t.Valid() && R(x, t.sp) >= -0x8000_0000 + 0x8000 && 4 * SlotNo(|t.temps|, k) <= 0x8000
    ensures EffAddr(x, t.sp, Int16(-4 * SlotNo(|t.temps|, k))) == SlotAddr(t, x, k)
  {
    HalfFits(-4 * SlotNo(|t.temps|, k));
    NormWord(SlotAddr(t, x, k));
  }

  lemma SparedNext(t: Target, T: nat, hi: nat, y: Data, x: Data)
    requires t.Valid() && RegsAgree(t, T, hi, y, x)
    ensures RegsAgree(t, T, hi + 1, y, x)
  {
    forall q: Reg | Spared(t, T, hi + 1, q)
      ensures R(x, q) == R(y, q)
    {
      SparedFewer(t, T, hi + 1, hi, q);
    }
  }

  /** The register handed out next is not one of those already held. */
  lemma NextSpared(t: Target, T: nat, hi: nat)
    requires t.Valid() && T <= hi < T + |t.temps| && hi >= |t.temps|
    ensures Spared(t, T, hi, TempAt(t, hi))
  {
    forall k: nat | T <= k < hi || T <= k < |t.temps|
      ensures TempAt(t, k) != TempAt(t, hi)
    {
      TempDistinct(t, k, hi);
    }
  }

  /** A new spill leaves the earlier ones in place. */
  lemma SpillApart(t: Target, T: nat, hi: nat, lo: int, y: Data, x: Data)
    requires t.Valid() && Held(t, T, hi, lo, y, x) && Room(t, T, hi + 1, lo, y) && T <= hi && hi >= |t.temps|
    ensures var a := SlotAddr(t, y, hi - |t.temps|);
            Held(t, T, hi + 1, lo, y, St(x, a, R(x, TempAt(t, hi))))
  {
    hide TempAt;
    var n := |t.temps|;
    var a := SlotAddr(t, y, hi - n);
    var z := St(x, a, R(x, TempAt(t, hi)));
    NextSpared(t, T, hi);
    SlotsBelow(t, T, hi + 1, lo, y, hi);
    SparedNext(t, T, hi, y, x);
    forall b | b > lo
      ensures Ld(z, b) == Ld(y, b)
    {
      assert Ld(x, b) == Ld(y, b);
    }
    forall k {:trigger TempAt(t, k)} | T <= k < hi + 1 && k >= n
      ensures Ld(z, SlotAddr(t, y, k - n)) == R(y, TempAt(t, k))
    {
      if k < hi {
        SlotMonotone(n, k - n, hi - n);
      }
    }
    assert RegsAgree(t, T, hi + 1, y, z);
  }

  /** Acquiring one more temporary displaces at most one value, and parks it in its slot. */
  lemma HeldAcquire(t: Target, T: nat, hi: nat, lo: int, y: Data, x: Data)
    requires t.Valid() && Held(t, T, hi, lo, y, x) && T <= hi && Room(t, T, hi + 1, lo, y)
    ensures Held(t, T, hi + 1, lo, y, ExecSeq(AcquireCode(t, hi), x))
  {
    hide TempAt;
    if hi < |t.temps| {
      ExecNone(x);
      SparedNext(t, T, hi, y, x);
    } else {
      SpSpared(t, T, hi);
      SlotEffAddr(t, x, hi - |t.temps|);
      ExecSw(TempAt(t, hi), t.sp, Int16(-4 * SlotNo(|t.temps|, hi - |t.temps|)), x);
      SpillApart(t, T, hi, lo, y, x);
    }
  }

  lemma ReloadBack(t: Target, T: nat, hi: nat, lo: int, y: Data, x: Data)
    requires t.Valid() && T < hi && Held(t, T, hi, lo, y, x) && R(x, t.sp) == R(y, t.sp)
    ensures var r := TempAt(t, hi - 1);
            Held(t, T, hi - 1, lo, y, if hi - 1 < |t.temps| then x else W(x, r, R(y, r)))
  {
    hide TempAt, SlotNo;
    var r := TempAt(t, hi - 1);
    var z := if hi - 1 < |t.temps| then x else W(x, r, R(y, r));
    TempOrdinary(t, hi - 1);
    MemOnly(lo, y, x, y, z);
    forall q: Reg | Spared(t, T, hi - 1, q)
      ensures R(z, q) == R(y, q)
    {
      if q == r {
        assert TempAt(t, hi - 1) == q;
      } else {
        assert Spared(t, T, hi, q);
      }
    }
  }

  /** Releasing the newest one undoes its acquisition. */
  lemma HeldRelease(t: Target, T: nat, hi: nat, lo: int, y: Data, x: Data)
    requires t.Valid() && T < hi && Held(t, T, hi, lo, y, x) && Room(t, T, hi, lo, y)
    ensures Held(t, T, hi - 1, lo, y, ExecSeq(ReleaseCode(t, hi), x))
  {
    hide TempAt;
    SpSpared(t, T, hi);
    ReloadBack(t, T, hi, lo, y, x);
    if hi - 1 < |t.temps| {
      ExecNone(x);
    } else {
      SlotEffAddr(t, x, hi - 1 - |t.temps|);
      ExecOne(ReleaseCode(t, hi)[0], x);
    }
  }

  lemma SpSpared(t: Target, T: nat, hi: nat)
    requires t.Valid()
    ensures Spared(t, T, hi, t.sp)
  {
    SpecialsNotTemps(t);
    NonTempSpared(t, T, hi, t.sp);
  }

  /** Slots that may be in use are at or below lo. */
  lemma SlotsBelow(t: Target, T: nat, hi: nat, lo: int, y: Data, k: nat)
    requires t.Valid() && Room(t, T, hi, lo, y) && T <= k < hi && k >= |t.temps|
    ensures SlotAddr(t, y, k - |t.temps|) <= lo
  {
    var n := |t.temps|;
    DivMonotone(if T >= n then T - n else 0, k - n, n);
  }

  /** Writing one of the held temporaries disturbs nobody. */
  lemma HeldTempWrite(t: Target, T: nat, hi: nat, lo: int, y: Data, x: Data, k: nat, v: Word)
    requires t.Valid() && Held(t, T, hi, lo, y, x) && T <= k < hi
    ensures Held(t, T, hi, lo, y, W(x, TempAt(t, k), v))
  {
    MemOnly(lo, y, x, y, W(x, TempAt(t, k), v));
    forall r: Reg | Spared(t, T, hi, r)
      ensures R(W(x, TempAt(t, k), v), r) == R(y, r)
    {
      assert TempAt(t, k) != r;
    }
  }

  /** Writing a register that is seen changes the seen state by that write. */
  lemma HeldWrite(t: Target, T: nat, hi: nat, lo: int, y: Data, x: Data, r: Reg, v: Word)
    requires t.Valid() && Held(t, T, hi, lo, y, x)
    requires Spared(t, T, hi, r) && (hi > T ==> r != t.sp)
    ensures Held(t, T, hi, lo, W(y, r, v), W(x, r, v))
  {
    var y', x' := W(y, r, v), W(x, r, v);
    MemOnly(lo, y, x, y', x');
    forall q: Reg | Spared(t, T, hi, q)
      ensures R(x', q) == R(y', q)
    {
      assert R(x, q) == R(y, q);
    }
    forall k {:trigger TempAt(t, k)} | T <= k < hi && k >= |t.temps|
      ensures Ld(x', SlotAddr(t, y', k - |t.temps|)) == R(y', TempAt(t, k))
    {
      assert TempAt(t, k) != r;
    }
  }

  /** So does a store above lo, which meets no slot in use. */
  lemma HeldStore(t: Target, T: nat, hi: nat, lo: int, y: Data, x: Data, a: int, v: Word)
    requires t.Valid() && Held(t, T, hi, lo, y, x) && Room(t, T, hi, lo, y) && a > lo
    ensures Held(t, T, hi, lo, St(y, a, v), St(x, a, v))
  {
    var y', x' := St(y, a, v), St(x, a, v);
    StoreBoth(lo, y, x, a, v);
    forall q: Reg | Spared(t, T, hi, q)
      ensures R(x', q) == R(y', q)
    {
      assert R(x, q) == R(y, q);
    }
    forall k {:trigger TempAt(t, k)} | T <= k < hi && k >= |t.temps|
      ensures Ld(x', SlotAddr(t, y', k - |t.temps|)) == R(y', TempAt(t, k))
    {
      SlotsBelow(t, T, hi, lo, y, k);
      assert R(y', t.sp) == R(y, t.sp);
    }
  }

  /** An operand that code holding temporaries T up to hi can still use. */
  ghost predicate Usable(t: Target, T: nat, hi: nat, lo: int, x: Data, o: Operand)
    requires |t.temps| > 0
  {
    match o
    case OpReg(r) => Spared(t, T, hi, r)
    case DAddr(b, off) => Spared(t, T, hi, b) && EffAddr(x, b, off) > lo
    case Imm(_) => true
  }

  lemma HeldVal(t: Target, T: nat, hi: nat, lo: int, y: Data, x: Data, o: Operand)
    requires t.Valid() && Held(t, T, hi, lo, y, x) && Usable(t, T, hi, lo, y, o)
    ensures Val(x, o) == Val(y, o)
    ensures o.DAddr? ==> EffAddr(x, o.base, o.offset) == EffAddr(y, o.base, o.offset)
  {
    match o
    case OpReg(r) =>
    case DAddr(b, off) => assert R(x, b) == R(y, b);
    case Imm(_) =>
  }

  lemma SparedFewer(t: Target, T: nat, hi: nat, hi': nat, r: Reg)
    requires |t.temps| > 0 && hi' <= hi && Spared(t, T, hi, r)
    ensures Spared(t, T, hi', r)
  {
    forall k {:trigger TempAt(t, k)} | T <= k < hi' || T <= k < |t.temps|
      ensures TempAt(t, k) != r
    {
    }
  }

  lemma UsableFewer(t: Target, T: nat, hi: nat, hi': nat, lo: int, x: Data, o: Operand)
    requires |t.temps| > 0 && hi' <= hi && Usable(t, T, hi, lo, x, o)
    ensures Usable(t, T, hi', lo, x, o)
  {
    match o
    case OpReg(r) => SparedFewer(t, T, hi, hi', r);
    case DAddr(b, off) => SparedFewer(t, T, hi, hi', b);
    case Imm(_) =>
  }

  lemma SimTrans(t: Target, T: nat, lo: int, x: Data, y: Data, z: Data)
    requires t.Valid() && Sim(t, T, lo, x, y) && Sim(t, T, lo, y, z)
    ensures Sim(t, T, lo, x, z)
  {
    forall q: Reg | Spared(t, T, T, q)
      ensures R(z, q) == R(x, q)
    {
      assert R(y, q) == R(x, q);
    }
  }

}

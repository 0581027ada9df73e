/** Pushing and popping several operands at once. */
module Synthetic {
  import opened Words
  import opened Mips
  import opened Script
  import opened Emitter32
  import opened Target
  import opened Moves
  import opened ArithCode
  import opened ArithOps
  import opened Machines
  import opened Arithmetic

  /** Stores of the first k registers under sp, the first highest. */
  function PushStores(t: Target, rs: seq<Reg>, k: nat): seq<Instr>
    requires k <= |rs|
  {
    if k == 0 then [] else PushStores(t, rs, k - 1) + [Sw(rs[k - 1], t.sp, Int16(-4 * k))]
  }

  /** Loads of the first k registers from sp up. */
  function PopLoads(t: Target, rs: seq<Reg>, k: nat): seq<Instr>
    requires k <= |rs|
  {
    if k == 0 then [] else PopLoads(t, rs, k - 1) + [Lw(rs[k - 1], t.sp, Int16(4 * (k - 1)))]
  }

  function BumpSp(t: Target, delta: int): seq<Instr> {
    [Addiu(t.sp, t.sp, Int16(delta))]
  }

  function PushCode(t: Target, rs: seq<Reg>): seq<Instr> {
    PushStores(t, rs, |rs|) + BumpSp(t, -4 * |rs|)
  }

  function PopCode(t: Target, rs: seq<Reg>): seq<Instr> {
    PopLoads(t, rs, |rs|) + BumpSp(t, 4 * |rs|)
  }

  /** Few enough registers for their offsets, none of them sp, and stack enough below. */
  predicate PushOk(t: Target, rs: seq<Reg>, x: Data) {
    && t.sp != ZERO && |rs| < 0x1000
    && R(x, t.sp) - 4 * |rs| >= -0x8000_0000
    && forall i :: 0 <= i < |rs| ==> rs[i] != t.sp
  }

  lemma {:induction false} StoresPush(t: Target, rs: seq<Reg>, k: nat, x: Data)
    requires PushOk(t, rs, x) && k <= |rs|
    ensures var y := ExecSeq(PushStores(t, rs, k), x);
            && y.regs == x.regs
            && (forall i :: 0 <= i < k ==> Ld(y, R(x, t.sp) - 4 * (i + 1)) == R(x, rs[i]))
            && (forall a :: a < R(x, t.sp) - 4 * k || a >= R(x, t.sp) ==> Ld(y, a) == Ld(x, a))
  {
    hide ExecSeq;
    if k == 0 {
      ExecNone(x);
    } else {
      StoresPush(t, rs, k - 1, x);
      var z := ExecSeq(PushStores(t, rs, k - 1), x);
      ExecConcat(PushStores(t, rs, k - 1), [Sw(rs[k - 1], t.sp, Int16(-4 * k))], x);
      HalfFits(-4 * k);
      NormWord(R(x, t.sp) - 4 * k);
      ExecSw(rs[k - 1], t.sp, -4 * k, z);
      hide Norm, Int16;
    }
  }

  /** Pushed: each value in its word under the old sp, sp below them, nothing else changed. */
  ghost predicate Pushed(t: Target, rs: seq<Reg>, x: Data, y: Data) {
    && R(y, t.sp) == R(x, t.sp) - 4 * |rs|
    && (forall q: Reg :: q != t.sp ==> R(y, q) == R(x, q))
    && (forall i :: 0 <= i < |rs| ==> Ld(y, R(x, t.sp) - 4 * (i + 1)) == R(x, rs[i]))
    && (forall a :: a < R(y, t.sp) || a >= R(x, t.sp) ==> Ld(y, a) == Ld(x, a))
  }

  lemma PushPushes(t: Target, rs: seq<Reg>, x: Data)
    requires PushOk(t, rs, x)
    ensures Pushed(t, rs, x, ExecSeq(PushCode(t, rs), x))
  {
    hide ExecSeq;
    var n: int := 4 * |rs|;
    StoresPush(t, rs, |rs|, x);
    var z := ExecSeq(PushStores(t, rs, |rs|), x);
    ExecConcat(PushStores(t, rs, |rs|), BumpSp(t, -4 * |rs|), x);
    HalfFits(0 - n);
    NormWord(R(x, t.sp) - n);
    ExecOne(Addiu(t.sp, t.sp, 0 - n), z);
    hide Norm, Int16, PushStores;
  }

  predicate PopOk(t: Target, rs: seq<Reg>, x: Data) {
    && t.sp != ZERO && |rs| < 0x1000
    && R(x, t.sp) + 4 * |rs| < 0x8000_0000
    && (forall i :: 0 <= i < |rs| ==> rs[i] != t.sp && rs[i] != ZERO)
    && (forall i, j :: 0 <= i < j < |rs| ==> rs[i] != rs[j])
  }

  lemma {:induction false} LoadsPop(t: Target, rs: seq<Reg>, k: nat, x: Data)
    requires PopOk(t, rs, x) && k <= |rs|
    ensures var y := ExecSeq(PopLoads(t, rs, k), x);
            && y.mem == x.mem
            && (forall i :: 0 <= i < k ==> R(y, rs[i]) == Ld(x, R(x, t.sp) + 4 * i))
            && (forall q: Reg :: q !in rs ==> R(y, q) == R(x, q))
  {
    hide ExecSeq;
    if k == 0 {
      ExecNone(x);
    } else {
      LoadsPop(t, rs, k - 1, x);
      var z := ExecSeq(PopLoads(t, rs, k - 1), x);
      ExecConcat(PopLoads(t, rs, k - 1), [Lw(rs[k - 1], t.sp, Int16(4 * (k - 1)))], x);
      HalfFits(4 * (k - 1));
      NormWord(R(x, t.sp) + 4 * (k - 1));
      ExecOne(Lw(rs[k - 1], t.sp, 4 * (k - 1)), z);
      hide Norm, Int16, PopLoads;
    }
  }

  /** Popped: each register from its word, sp above them, memory as it was. */
  ghost predicate Popped(t: Target, rs: seq<Reg>, x: Data, y: Data) {
    && y.mem == x.mem && R(y, t.sp) == R(x, t.sp) + 4 * |rs|
    && (forall i :: 0 <= i < |rs| ==> R(y, rs[i]) == Ld(x, R(x, t.sp) + 4 * i))
    && (forall q: Reg :: q != t.sp && q !in rs ==> R(y, q) == R(x, q))
  }

  lemma PopPops(t: Target, rs: seq<Reg>, x: Data)
    requires PopOk(t, rs, x)
    ensures Popped(t, rs, x, ExecSeq(PopCode(t, rs), x))
  {
    hide ExecSeq;
    var n: int := 4 * |rs|;
    LoadsPop(t, rs, |rs|, x);
    var z := ExecSeq(PopLoads(t, rs, |rs|), x);
    ExecConcat(PopLoads(t, rs, |rs|), BumpSp(t, 4 * |rs|), x);
    HalfFits(n);
    NormWord(R(x, t.sp) + n);
    assert R(z, t.sp) == R(x, t.sp);
    ExecOne(Addiu(t.sp, t.sp, n), z);
    hide Norm, Int16, PopLoads;
  }

  function Reversed(rs: seq<Reg>): (q: seq<Reg>)
    ensures |q| == |rs| && forall i :: 0 <= i < |rs| ==> q[i] == rs[|rs| - 1 - i]
  {
    seq(|rs|, i requires 0 <= i < |rs| => rs[|rs| - 1 - i])
  }

  /**
   Push, then anything that puts sp back and keeps the pushed words, then pop in reverse: the
   registers and sp are back.
   */
  lemma PushThenPop(t: Target, rs: seq<Reg>, x: Data, y: Data, z: Data)
    requires PushOk(t, rs, x) && PopOk(t, Reversed(rs), z) && y == ExecSeq(PushCode(t, rs), x)
    requires R(z, t.sp) == R(y, t.sp) && forall a :: R(y, t.sp) <= a < R(x, t.sp) ==> Ld(z, a) == Ld(y, a)
    ensures var w := ExecSeq(PopCode(t, Reversed(rs)), z);
            && R(w, t.sp) == R(x, t.sp) && forall i :: 0 <= i < |rs| ==> R(w, rs[i]) == R(x, rs[i])
  {
    hide ExecSeq, PushCode, PopCode, R;
    PushPushes(t, rs, x);
    PopPops(t, Reversed(rs), z);
    var w := ExecSeq(PopCode(t, Reversed(rs)), z);
    forall i | 0 <= i < |rs|
      ensures R(w, rs[i]) == R(x, rs[i])
    {
      var j := |rs| - 1 - i;
      assert Reversed(rs)[j] == rs[i];
      assert R(z, t.sp) + 4 * j == R(x, t.sp) - 4 * (i + 1);
      assert Ld(y, R(x, t.sp) - 4 * (i + 1)) == R(x, rs[i]);
    }
  }

  // ----- the emitters -----

  /** Adding a small immediate to a register is one instruction. */
  lemma AddImmOne(t: Target, T: nat, d: Reg, s: Reg, k: Word)
    requires |t.temps| > 0 && IsHalf(k) && k != 0
    ensures AddAccepts(OpReg(s), Imm(k)) && AddNeeds(t, T, OpReg(d), OpReg(s), Imm(k)) == 0
    ensures AddCode(t, T, OpReg(d), OpReg(s), Imm(k)) == [Addiu(d, s, k)]
  {
    hide TempAt, AcquireCode;
    HalfFits(k);
  }

  method Pushn(e: Emitter, m: Machine, rs: seq<Reg>)
    requires Ready(e, m) && 0 < |rs| < 0x1000 && HeadRoom(m.t, m.live, 0, m.allowSpill)
    modifies e.Repr, m, m.reg
    ensures Appended(e, m, PushCode(m.t, rs))
  {
    hide Emitter.Valid, Emits, AddCode, AddNeeds, AddAccepts, HeadRoom;
    ghost var t, s0 := m.t, e.script;
    EmitsNothing(s0);
    var i := 0;
    while i < |rs|
      invariant 0 <= i <= |rs| && Appended(e, m, PushStores(t, rs, i))
    {
      EmitsAppend(s0, PushStores(t, rs, i), [Sw(rs[i], t.sp, Int16(-4 * (i + 1)))]);
      Move(e, m, TargetDAddr(m.sp, -4 * (i + 1)), OpReg(rs[i]));
      i := i + 1;
    }
    var n: int := 4 * |rs|;
    AddImmOne(t, m.live, t.sp, t.sp, 0 - n);
    HalfFits(0 - n);
    EmitsAppend(s0, PushStores(t, rs, |rs|), BumpSp(t, 0 - n));
    MipsAdd(e, m, OpReg(m.sp), OpReg(m.sp), Imm(0 - n));
  }

  method Popn(e: Emitter, m: Machine, rs: seq<Reg>)
    requires Ready(e, m) && 0 < |rs| < 0x1000 && HeadRoom(m.t, m.live, 0, m.allowSpill)
    modifies e.Repr, m, m.reg
    ensures Appended(e, m, PopCode(m.t, rs))
  {
    hide Emitter.Valid, Emits, AddCode, AddNeeds, AddAccepts, HeadRoom;
    ghost var t, s0 := m.t, e.script;
    EmitsNothing(s0);
    var i := 0;
    while i < |rs|
      invariant 0 <= i <= |rs| && Appended(e, m, PopLoads(t, rs, i))
    {
      EmitsAppend(s0, PopLoads(t, rs, i), [Lw(rs[i], t.sp, Int16(4 * i))]);
      Move(e, m, OpReg(rs[i]), TargetDAddr(m.sp, 4 * i));
      i := i + 1;
    }
    var n: int := 4 * |rs|;
    AddImmOne(t, m.live, t.sp, t.sp, n);
    HalfFits(n);
    EmitsAppend(s0, PopLoads(t, rs, |rs|), BumpSp(t, n));
    MipsAdd(e, m, OpReg(m.sp), OpReg(m.sp), Imm(n));
  }
}

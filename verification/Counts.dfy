/**
 Open argument and result counts. A call with a variable number of results leaves sp under the
 last one; the next open call or return gets its count back from sp by a subtraction.
 */
module Counts {
  import opened Words
  import opened Mips
  import opened Target
  import opened Moves
  import Frame
  import opened ArithCode
  import opened ArithOps
  import opened Synthetic
  import opened Calls

  /** Offset from fp of the value half of register b's home. */
  function ValueOffset(b: nat): int {
    Frame.HomeOffset(2 * b)
  }

  /** precall with no argument count: two slots under fp and the function are not arguments. */
  function OpenCallCode(t: Target, b: nat): seq<Instr>
    requires |t.spare| >= RA_SIZE
  {
    var r := t.spare[RA_EXIST];
    [Addiu(r, t.fp, Int16(-8 * (2 + b))), Subu(r, r, t.sp), Srl(r, r, 3)]
  }

  /** do_ret with no result count: everything from the base register to sp. */
  function OpenReturnCode(t: Target, b: nat): seq<Instr>
    requires |t.spare| >= RA_SIZE
  {
    var r, base := t.spare[RA_EXIST], t.spare[RA_SRC];
    [Addiu(base, t.fp, Int16(ValueOffset(b))), Subu(r, base, t.sp), Srl(r, r, 3)]
  }

  /** After copying, the destination pointer is under the last result: that is the new sp. */
  function VresultCode(t: Target): seq<Instr>
    requires |t.spare| >= RA_SIZE
  {
    [Addu(t.sp, t.spare[RA_DST], ZERO)]
  }

  /** The lowering of each is that of the generic operations it is written with. */
  lemma OpenCallLowers(t: Target, T: nat, b: nat)
    requires Passes(t) && 8 * (2 + b) <= 0x8000
    ensures var r := OpReg(t.spare[RA_EXIST]);
            && SubAccepts(r, OpReg(t.sp)) && DivAccepts(r, Imm(8))
            && OpenCallCode(t, b) == AddCode(t, T, r, OpReg(t.fp), Imm(Int16(-8 * (2 + b)))) + SubCode(t, T, r, r, OpReg(t.sp)) + DivCode(t, T, r, r, Imm(8), false)
  {
    hide TempAt, AcquireCode;
    SpareApart(t);
    EightIsShift();
    HalfFits(-8 * (2 + b));
  }

  lemma EightIsShift()
    ensures IsShift(Imm(8)) && ILog2(8) == 3 && Pow2(3) == 8
  {
    PowerOf2(8);
  }

  lemma OpenReturnLowers(t: Target, T: nat, b: nat)
    requires Passes(t) && 8 + 8 * b <= 0x8000
    ensures var r, base := OpReg(t.spare[RA_EXIST]), OpReg(t.spare[RA_SRC]);
            && SubAccepts(base, OpReg(t.sp)) && DivAccepts(r, Imm(8))
            && OpenReturnCode(t, b) == AddCode(t, T, base, OpReg(t.fp), Imm(Int16(ValueOffset(b)))) + SubCode(t, T, r, base, OpReg(t.sp)) + DivCode(t, T, r, r, Imm(8), false)
  {
    hide TempAt, AcquireCode;
    SpareApart(t);
    EightIsShift();
    HalfFits(ValueOffset(b));
  }

  lemma VresultLowers(t: Target, T: nat)
    requires Passes(t)
    ensures AddAccepts(OpReg(t.spare[RA_DST]), Imm(0)) && AddNeeds(t, T, OpReg(t.sp), OpReg(t.spare[RA_DST]), Imm(0)) == 0
    ensures VresultCode(t) == AddCode(t, T, OpReg(t.sp), OpReg(t.spare[RA_DST]), Imm(0))
  {
    hide TempAt, AcquireCode;
    SpareApart(t);
  }

  // ----- what they count -----

  lemma ExactEighth(a: int, b: int, n: nat)
    requires a - b == 8 * n && n < 0x1000_0000
    ensures Norm(Unsigned(Norm(a - b)) / Pow2(3)) == n
  {
    EightIsShift();
    NormWord(8 * n);
    NormWord(n);
  }

  /** Addiu, Subu and Srl in a row, on registers. */
  lemma CountRuns(t: Target, d: Reg, r: Reg, off: int, n: nat, x: Data)
    requires t.Valid() && t.Ordinary(d) && t.Ordinary(r) && IsHalf(off) && R(x, t.fp) + off >= -0x8000_0000 && off <= 0
    requires R(x, t.fp) + off - R(x, t.sp) == 8 * n && n < 0x1000_0000
    ensures var y := ExecSeq([Addiu(d, t.fp, Int16(off)), Subu(r, d, t.sp), Srl(r, r, 3)], x);
            && R(y, r) == n && y.mem == x.mem && (d != r ==> R(y, d) == R(x, t.fp) + off)
            && forall q: Reg :: q != d && q != r ==> R(y, q) == R(x, q)
  {
    hide ExecSeq, Pow2;
    var a, b := [Addiu(d, t.fp, Int16(off)), Subu(r, d, t.sp)], [Srl(r, r, 3)];
    assert [Addiu(d, t.fp, Int16(off)), Subu(r, d, t.sp), Srl(r, r, 3)] == a + b;
    ExecConcat(a, b, x);
    ExecTwo(Addiu(d, t.fp, Int16(off)), Subu(r, d, t.sp), x);
    HalfFits(off);
    NormWord(R(x, t.fp) + off);
    ExecOne(Srl(r, r, 3), ExecSeq(a, x));
    ExactEighth(R(x, t.fp) + off, R(x, t.sp), n);
    hide Norm, Int16, Unsigned;
  }

  /** sp as a call with n results for registers from base on leaves it. */
  predicate SpUnder(t: Target, base: nat, n: nat, x: Data) {
    R(x, t.sp) == R(x, t.fp) + ValueOffset(base) - 8 * n
  }

  /** Results copied down from register base leave sp right under them. */
  lemma VresultSets(t: Target, base: nat, n: nat, x: Data)
    requires Passes(t) && R(x, t.spare[RA_DST]) == R(x, t.fp) + ValueOffset(base) - 8 * n
    ensures var y := ExecSeq(VresultCode(t), x);
            SpUnder(t, base, n, y) && y.mem == x.mem && forall q: Reg :: q != t.sp ==> R(y, q) == R(x, q)
  {
    hide Norm, Passes, ExecSeq;
    SpWritable(t);
    ExecOne(Addu(t.sp, t.spare[RA_DST], ZERO), x);
    NormWord(R(x, t.spare[RA_DST]));
  }

  lemma SpWritable(t: Target)
    requires Passes(t)
    ensures t.sp != ZERO && t.sp != t.fp && |t.spare| >= RA_SIZE
  {
  }

  /**
   An open call of register b counts exactly its fixed arguments, the registers between the
   function and base, and the n results.
   */
  lemma OpenCallCounts(t: Target, b: nat, base: nat, n: nat, x: Data)
    requires Passes(t) && SpUnder(t, base, n, x) && b < base && 8 * (2 + b) <= 0x8000 && base - b - 1 + n < 0x1000_0000
    requires R(x, t.fp) - 8 * (2 + b) >= -0x8000_0000
    ensures var y := ExecSeq(OpenCallCode(t, b), x);
            && R(y, t.spare[RA_EXIST]) == (base - b - 1) + n
            && y.mem == x.mem && forall q: Reg :: q != t.spare[RA_EXIST] ==> R(y, q) == R(x, q)
  {
    SpareApart(t);
    CountRuns(t, t.spare[RA_EXIST], t.spare[RA_EXIST], -8 * (2 + b), base - b - 1 + n, x);
  }

  /** An open return from register b counts the registers from b to base and the n results. */
  lemma OpenReturnCounts(t: Target, b: nat, base: nat, n: nat, x: Data)
    requires Passes(t) && SpUnder(t, base, n, x) && b <= base && 8 + 8 * b <= 0x8000 && base - b + n < 0x1000_0000
    requires R(x, t.fp) - (8 + 8 * b) >= -0x8000_0000
    ensures var y := ExecSeq(OpenReturnCode(t, b), x);
            && R(y, t.spare[RA_EXIST]) == (base - b) + n
            && R(y, t.spare[RA_SRC]) == R(x, t.fp) + ValueOffset(b)
            && y.mem == x.mem && forall q: Reg :: q != t.spare[RA_EXIST] && q != t.spare[RA_SRC] ==> R(y, q) == R(x, q)
  {
    SpareApart(t);
    assert t.spare[RA_EXIST] != t.spare[RA_SRC];
    CountRuns(t, t.spare[RA_SRC], t.spare[RA_EXIST], ValueOffset(b), base - b + n, x);
  }

  /**
   What the count is taken from is sp alone: set from the copied destination after results for
   the registers from base on, it gives an open call of register b exactly its fixed arguments
   plus the results. Whether the routine that sets it gets back to its caller is another matter.
   */
  lemma ResultsBecomeArguments(t: Target, b: nat, base: nat, n: nat, x: Data)
    requires Passes(t) && R(x, t.spare[RA_DST]) == R(x, t.fp) + ValueOffset(base) - 8 * n
    requires b < base && 8 * (2 + b) <= 0x8000 && base - b - 1 + n < 0x1000_0000 && R(x, t.fp) - 8 * (2 + b) >= -0x8000_0000
    ensures R(ExecSeq(OpenCallCode(t, b), ExecSeq(VresultCode(t), x)), t.spare[RA_EXIST]) == (base - b - 1) + n
  {
    hide ExecSeq, VresultCode, OpenCallCode;
    VresultSets(t, base, n, x);
    OpenCallCounts(t, b, base, n, ExecSeq(VresultCode(t), x));
  }

  /** Likewise an open return from register b. */
  lemma ResultsReturned(t: Target, b: nat, base: nat, n: nat, x: Data)
    requires Passes(t) && R(x, t.spare[RA_DST]) == R(x, t.fp) + ValueOffset(base) - 8 * n
    requires b <= base && 8 + 8 * b <= 0x8000 && base - b + n < 0x1000_0000 && R(x, t.fp) - (8 + 8 * b) >= -0x8000_0000
    ensures R(ExecSeq(OpenReturnCode(t, b), ExecSeq(VresultCode(t), x)), t.spare[RA_EXIST]) == (base - b) + n
  {
    hide ExecSeq, VresultCode, OpenReturnCode;
    VresultSets(t, base, n, x);
    OpenReturnCounts(t, b, base, n, ExecSeq(VresultCode(t), x));
  }
}

/**
 The routine that takes a variable number of results, as a whole: it puts the return address
 under sp, has the results copied to the caller's registers from base down, gets the return
 address back and sets sp under the last result. The copy has no regard for what is under sp.
 */
module VarResults {
  import opened Words
  import opened Mips
  import opened Target
  import opened Moves
  import opened Synthetic
  import opened Calls
  import opened Counts
  import opened CopyLoop
  import opened CopyRun
  import opened SaveRoutines
  import opened Xlogue
  import opened Jumps
  import opened FrameRuns

  /** Up to the copying call: all results are expected, the return address is on the stack, ra is the call's. */
  function Before(t: Target, isRa: bool, link: Word, x: Data): Data
    requires |t.spare| >= RA_SIZE
  {
    W(ExecSeq(LoadRegCode(Exist(t), t.spare[RA_EXPECT], true) + KeepRa(t, isRa), x), t.ra, link)
  }

  /** From its return to the routine's own. */
  function After(t: Target, isRa: bool, y: Data): Data
    requires |t.spare| >= RA_SIZE
  {
    ExecSeq(FetchRa(t, isRa) + VresultCode(t), y)
  }

  /** The words emitted for the routine do just that, whatever words the copying call is given as. */
  lemma WholeRoutine(t: Target, isRa: bool, copy: seq<Instr>, x: Data)
    requires |t.spare| >= RA_SIZE
    ensures var before := LoadRegCode(Exist(t), t.spare[RA_EXPECT], true) + KeepRa(t, isRa);
            ExecSeq(VresultWords(t, isRa, copy), x) == After(t, isRa, ExecSeq(copy, ExecSeq(before, x)))
  {
    hide ExecSeq, LoadRegCode, KeepRa, FetchRa, VresultCode;
    var before := LoadRegCode(Exist(t), t.spare[RA_EXPECT], true) + KeepRa(t, isRa);
    var after := FetchRa(t, isRa) + VresultCode(t);
    assert VresultWords(t, isRa, copy) == (before + copy) + after;
    ExecConcat(before + copy, after, x);
    ExecConcat(before, copy, x);
  }

  /** n results below everything of the caller's, on a stack that goes on below them. */
  ghost predicate VresultOk(t: Target, n: nat, x: Data) {
    && Passes(t) && R(x, t.spare[RA_EXIST]) == n
    && R(x, t.sp) - 4 >= -0x8000_0000
    && R(x, t.spare[RA_DST]) - 8 * n >= -0x8000_0000 && R(x, t.spare[RA_SRC]) - 8 * n >= -0x8000_0000
    && R(x, t.spare[RA_SRC]) < R(x, t.sp) - 4 && R(x, t.spare[RA_SRC]) <= R(x, t.spare[RA_DST])
  }

  /** The routine leads from x to z, the copy going by way of y. */
  ghost predicate Passing(t: Target, isRa: bool, link: Word, n: nat, x: Data, y: Data)
    requires |t.spare| >= RA_SIZE
  {
    Copied(t, Before(t, isRa, link, x), y, n)
  }

  /** A register that is none of the special ones and no temporary. */
  predicate Lasting(t: Target, r: Reg) {
    r != ZERO && r != t.sp && r != t.fp && r != t.ra && Apart(t, r)
  }

  lemma PassShape(t: Target)
    requires Passes(t)
    ensures |t.spare| >= RA_SIZE && t.ra != ZERO && t.ra != t.sp && t.ra != t.fp && t.fp != t.sp
    ensures forall i :: 0 <= i < RA_SIZE ==> Lasting(t, t.spare[i])
    ensures forall i, j :: 0 <= i < j < RA_SIZE ==> t.spare[i] != t.spare[j]
    ensures Apart(t, t.sp) && Apart(t, t.fp) && Apart(t, t.ra)
  {
    SpecialsNotTemps(t);
  }

  /** Registers and memory at the copying call. */
  lemma BeforeCopies(t: Target, isRa: bool, link: Word, n: nat, x: Data)
    requires VresultOk(t, n, x)
    ensures var y := Before(t, isRa, link, x);
            && R(y, t.sp) == R(x, t.sp) - (if isRa then 4 else 0) && R(y, t.fp) == R(x, t.fp) && R(y, t.spare[RA_EXIST]) == n
            && R(y, t.spare[RA_DST]) == R(x, t.spare[RA_DST]) && R(y, t.spare[RA_SRC]) == R(x, t.spare[RA_SRC])
            && (isRa ==> Ld(y, R(x, t.sp) - 4) == R(x, t.ra))
            && (forall a :: a < R(x, t.sp) - 4 || a >= R(x, t.sp) ==> Ld(y, a) == Ld(x, a))
  {
    hide ExecSeq, LoadRegCode, KeepRa, Apart, Target.Ordinary, W, Ld, R;
    PassShape(t);
    var r := t.spare[RA_EXPECT];
    var a := LoadRegCode(Exist(t), r, true);
    LoadRegLoads(Exist(t), r, true, x);
    var x1 := ExecSeq(a, x);
    ExecConcat(a, KeepRa(t, isRa), x);
    WriteOne(x, r, R(x, t.spare[RA_EXIST]));
    RaKept(t, isRa, x1);
    WriteOne(ExecSeq(KeepRa(t, isRa), x1), t.ra, link);
  }

  lemma WriteOne(x: Data, r: Reg, v: Word)
    requires r != ZERO
    ensures forall q: Reg :: R(W(x, r, v), q) == if q == r then v else R(x, q)
    ensures forall a :: Ld(W(x, r, v), a) == Ld(x, a)
  {
  }

  lemma RaKept(t: Target, isRa: bool, x: Data)
    requires Passes(t) && R(x, t.sp) - 4 >= -0x8000_0000
    ensures var y := ExecSeq(KeepRa(t, isRa), x);
            && R(y, t.sp) == R(x, t.sp) - (if isRa then 4 else 0) && (forall q: Reg :: q != t.sp ==> R(y, q) == R(x, q))
            && (isRa ==> Ld(y, R(x, t.sp) - 4) == R(x, t.ra))
            && (forall a :: a < R(x, t.sp) - 4 || a >= R(x, t.sp) ==> Ld(y, a) == Ld(x, a))
  {
    hide ExecSeq, PushCode;
    if isRa {
      PushPushes(t, [t.ra], x);
      var y := ExecSeq(PushCode(t, [t.ra]), x);
      assert Pushed(t, [t.ra], x, y);
      assert Ld(y, R(x, t.sp) - 4 * (0 + 1)) == R(x, [t.ra][0]);
    } else {
      ExecNone(x);
    }
  }

  /** After the copy: ra is the word where it was put, and sp goes under the last result. */
  lemma AfterCopies(t: Target, isRa: bool, y: Data)
    requires Passes(t) && R(y, t.sp) + 4 < 0x8000_0000
    ensures var z := After(t, isRa, y);
            && (isRa ==> R(z, t.ra) == Ld(y, R(y, t.sp))) && (!isRa ==> R(z, t.ra) == R(y, t.ra))
            && R(z, t.sp) == R(y, t.spare[RA_DST]) && z.mem == y.mem
            && (forall q: Reg :: q != t.sp && q != t.ra ==> R(z, q) == R(y, q))
  {
    hide ExecSeq, PushCode, PopCode, Apart, Target.Ordinary;
    PassShape(t);
    ExecConcat(FetchRa(t, isRa), VresultCode(t), y);
    var y1 := ExecSeq(FetchRa(t, isRa), y);
    if isRa {
      PopPops(t, [t.ra], y);
      assert R(y1, [t.ra][0]) == Ld(y, R(y, t.sp) + 4 * 0);
    } else {
      ExecNone(y);
    }
    ExecOne(Addu(t.sp, t.spare[RA_DST], ZERO), y1);
    NormWord(R(y1, t.spare[RA_DST]));
  }

  lemma PassedPointers(t: Target, isRa: bool, link: Word, n: nat, x: Data, y: Data)
    requires VresultOk(t, n, x) && Passing(t, isRa, link, n, x, y)
    ensures R(y, t.sp) == R(x, t.sp) - (if isRa then 4 else 0) && R(y, t.fp) == R(x, t.fp)
    ensures R(y, t.spare[RA_DST]) == R(x, t.spare[RA_DST]) - 8 * n
  {
    hide Before, CopyDown, MemAgrees, Target.Ordinary, Target.Valid;
    PassShape(t);
    BeforeCopies(t, isRa, link, n, x);
    hide Apart;
  }

  /**
   The return address as it comes back: itself when the copy does not reach the word under sp,
   and otherwise the word of the results that was copied there.
   */
  lemma ReturnAddressAfter(t: Target, link: Word, n: nat, x: Data, y: Data)
    requires VresultOk(t, n, x) && Passing(t, true, link, n, x, y)
    ensures var z, a := After(t, true, y), R(x, t.sp) - 4; var dst, src := R(x, t.spare[RA_DST]), R(x, t.spare[RA_SRC]);
            && (!InBlock(a, dst, 2 * n) ==> R(z, t.ra) == R(x, t.ra))
            && (InBlock(a, dst, 2 * n) ==> R(z, t.ra) == Ld(x, src - (dst - a)))
  {
    hide ExecSeq, Before, After, InBlock, Copied, Ld;
    PassShape(t);
    BeforeCopies(t, true, link, n, x);
    PassedPointers(t, true, link, n, x, y);
    AfterCopies(t, true, y);
    var x1 := Before(t, true, link, x);
    var a, dst, src := R(x, t.sp) - 4, R(x, t.spare[RA_DST]), R(x, t.spare[RA_SRC]);
    if InBlock(a, dst, 2 * n) {
      var k := BlockIndex(a, dst, 2 * n);
      CopiedBlock(t, x1, y, n, k, a);
    } else {
      CopiedBlock(t, x1, y, n, 0, a);
    }
  }

  lemma BlockIndex(a: int, top: int, n: nat) returns (k: nat)
    requires InBlock(a, top, n)
    ensures k < n && a == top - 4 * k
  {
    k :| k < n && a == top - 4 * k;
  }

  /** Whatever the results are, the routine ends with the return address it was called with. */
  ghost predicate AlwaysReturns(t: Target, link: Word, n: nat, x: Data)
    requires |t.spare| >= RA_SIZE
  {
    forall mem: map<int, Word>, y :: Passing(t, true, link, n, Remember(x, mem), y) ==> R(After(t, true, y), t.ra) == R(x, t.ra)
  }

  /** A copy can be made from every state. */
  lemma CanPass(t: Target, isRa: bool, link: Word, n: nat, x: Data) returns (y: Data)
    requires VresultOk(t, n, x)
    ensures Passing(t, isRa, link, n, x, y)
  {
    hide Before, CopyDown, Target.Ordinary, Apart, Target.Valid;
    PassShape(t);
    BeforeCopies(t, isRa, link, n, x);
    var x1 := Before(t, isRa, link, x);
    var dst, src := R(x1, t.spare[RA_DST]), R(x1, t.spare[RA_SRC]);
    var z := CopyDown(x1, dst, src, 2 * n);
    y := W(W(W(x1, t.spare[RA_EXIST], n), t.spare[RA_DST], dst - 8 * n), t.spare[RA_SRC], src - 8 * n).(mem := z.mem);
    hide Ld;
    SameMemory(z, y);
  }

  lemma SameMemory(x: Data, y: Data)
    requires x.mem == y.mem
    ensures MemAgrees(LOWEST, x, y)
  {
  }

  lemma RememberOk(t: Target, n: nat, x: Data, mem: map<int, Word>)
    requires VresultOk(t, n, x)
    ensures VresultOk(t, n, Remember(x, mem)) && forall q: Reg :: R(Remember(x, mem), q) == R(x, q)
  {
    hide Target.Valid;
  }

  /** The routine returns to its caller in every state exactly when the copy stays clear of the word under sp. */
  lemma ReturnsIff(t: Target, link: Word, n: nat, x: Data)
    requires VresultOk(t, n, x)
    ensures AlwaysReturns(t, link, n, x) <==> !InBlock(R(x, t.sp) - 4, R(x, t.spare[RA_DST]), 2 * n)
  {
    hide VresultOk, Passing, After, InBlock;
    OkShape(t, n, x);
    var a, dst, src := R(x, t.sp) - 4, R(x, t.spare[RA_DST]), R(x, t.spare[RA_SRC]);
    if InBlock(a, dst, 2 * n) {
      var other: Word := if R(x, t.ra) == 0 then 1 else 0;
      var mem: map<int, Word> := St(x, src - (dst - a), other).mem;
      RememberOk(t, n, x, mem);
      var y := CanPass(t, true, link, n, Remember(x, mem));
      ReturnAddressAfter(t, link, n, Remember(x, mem), y);
    } else {
      forall mem: map<int, Word>, y | Passing(t, true, link, n, Remember(x, mem), y)
        ensures R(After(t, true, y), t.ra) == R(x, t.ra)
      {
        RememberOk(t, n, x, mem);
        ReturnAddressAfter(t, link, n, Remember(x, mem), y);
      }
    }
  }

  lemma OkShape(t: Target, n: nat, x: Data)
    requires VresultOk(t, n, x)
    ensures |t.spare| >= RA_SIZE
  {
  }

  // ----- in a frame -----

  /** Called with results for the registers from base on, sp under a frame of nrLocals. */
  ghost predicate ForFrame(t: Target, nrLocals: nat, base: nat, x: Data)
    requires |t.spare| >= RA_SIZE
  {
    && base <= nrLocals && R(x, t.sp) == R(x, t.fp) - 4 - 8 * nrLocals
    && R(x, t.spare[RA_DST]) == R(x, t.fp) + ValueOffset(base)
  }

  /** The word under sp is where the value of result number nrLocals - base goes. */
  lemma WordUnderFrame(t: Target, nrLocals: nat, base: nat, n: nat, x: Data)
    requires |t.spare| >= RA_SIZE && ForFrame(t, nrLocals, base, x)
    ensures InBlock(R(x, t.sp) - 4, R(x, t.spare[RA_DST]), 2 * n) <==> base + n > nrLocals
    ensures R(x, t.spare[RA_DST]) - (R(x, t.sp) - 4) == 8 * (nrLocals - base)
  {
    var a, top := R(x, t.sp) - 4, R(x, t.spare[RA_DST]);
    assert top - a == 8 * (nrLocals - base);
    if base + n > nrLocals {
      assert a == top - 4 * (2 * (nrLocals - base));
    }
  }

  /**
   A call for a variable number of results returns into the caller, whatever the results, if and
   only if they fit its registers; one more, and it returns to the value of the first that does not.
   */
  lemma ResultsFitIff(t: Target, link: Word, nrLocals: nat, base: nat, n: nat, x: Data)
    requires VresultOk(t, n, x) && ForFrame(t, nrLocals, base, x)
    ensures AlwaysReturns(t, link, n, x) <==> base + n <= nrLocals
    ensures forall y :: Passing(t, true, link, n, x, y) ==>
              R(After(t, true, y), t.ra) == if base + n <= nrLocals then R(x, t.ra) else Ld(x, R(x, t.spare[RA_SRC]) - 8 * (nrLocals - base))
  {
    hide VresultOk, Passing, After, InBlock, AlwaysReturns, ForFrame, Ld;
    OkShape(t, n, x);
    ReturnsIff(t, link, n, x);
    WordUnderFrame(t, nrLocals, base, n, x);
    forall y | Passing(t, true, link, n, x, y)
      ensures R(After(t, true, y), t.ra) == if base + n <= nrLocals then R(x, t.ra) else Ld(x, R(x, t.spare[RA_SRC]) - 8 * (nrLocals - base))
    {
      ReturnAddressAfter(t, link, n, x, y);
    }
  }

  /** The input that fails: two results for a frame of one register. The routine returns to the second one's value. */
  lemma TwoResultsForOne(t: Target, link: Word, x: Data)
    requires VresultOk(t, 2, x) && ForFrame(t, 1, 0, x)
    ensures !AlwaysReturns(t, link, 2, x)
    ensures forall y :: Passing(t, true, link, 2, x, y) ==> R(After(t, true, y), t.ra) == Ld(x, R(x, t.spare[RA_SRC]) - 8)
  {
    hide VresultOk, Passing, After, AlwaysReturns, ForFrame, Ld;
    ResultsFitIff(t, link, 1, 0, 2, x);
  }

  /** Run in code: after the copy, control gets to the word after the call, or to the one at a Lua value. */
  lemma RoutineReturns(code: seq<Instr>, p: int, t: Target, link: Word, nrLocals: nat, base: nat, n: nat, x: Data, y: Data)
    requires VresultOk(t, n, x) && ForFrame(t, nrLocals, base, x) && Passing(t, true, link, n, x, y) && t.ra == RA
    requires At(code, p, FetchRa(t, true) + VresultCode(t) + RET_CODE)
    ensures var back := if base + n <= nrLocals then R(x, t.ra) else Ld(x, R(x, t.spare[RA_SRC]) - 8 * (nrLocals - base));
            Runs(code, p, y, back / 4, After(t, true, y))
  {
    hide VresultOk, Passing, ForFrame, ExecSeq, Runs, At, FetchRa, VresultCode, AlwaysReturns, Plain;
    OkShape(t, n, x);
    ResultsFitIff(t, link, nrLocals, base, n, x);
    var ws := FetchRa(t, true) + VresultCode(t);
    AtSplit(code, p, ws, RET_CODE);
    PlainFetch(t);
    RunPlain(code, p, ws, y);
    ReturnRuns(code, p + |ws|, After(t, true, y));
    RunsTrans(code, p, y, p + |ws|, After(t, true, y), R(After(t, true, y), RA) / 4, After(t, true, y));
  }

  lemma PlainFetch(t: Target)
    requires |t.spare| >= RA_SIZE
    ensures Plain(FetchRa(t, true) + VresultCode(t))
  {
    hide PopCode;
    PlainPush(t, [t.ra]);
  }

  // ----- results become arguments -----

  /**
   The whole way from n results to an open call of register b, when they fit: the routine
   returns to its caller, and the call counts its fixed arguments and the n results.
   */
  lemma ResultsThenCall(t: Target, link: Word, nrLocals: nat, base: nat, n: nat, b: nat, x: Data, y: Data)
    requires VresultOk(t, n, x) && ForFrame(t, nrLocals, base, x) && Passing(t, true, link, n, x, y) && base + n <= nrLocals
    requires b < base && 8 * (2 + b) <= 0x8000 && base - b - 1 + n < 0x1000_0000 && R(x, t.fp) - 8 * (2 + b) >= -0x8000_0000
    ensures var z := After(t, true, y);
            && R(z, t.ra) == R(x, t.ra) && SpUnder(t, base, n, z)
            && R(ExecSeq(OpenCallCode(t, b), z), t.spare[RA_EXIST]) == (base - b - 1) + n
  {
    hide ExecSeq, Passing, After, OpenCallCode, AlwaysReturns, Ld;
    ResultsFitIff(t, link, nrLocals, base, n, x);
    AfterUnder(t, link, nrLocals, base, n, x, y);
    OpenCallCounts(t, b, base, n, After(t, true, y));
  }

  /** And to an open return from register b, with the base of what is returned. */
  lemma ResultsThenReturn(t: Target, link: Word, nrLocals: nat, base: nat, n: nat, b: nat, x: Data, y: Data)
    requires VresultOk(t, n, x) && ForFrame(t, nrLocals, base, x) && Passing(t, true, link, n, x, y) && base + n <= nrLocals
    requires b <= base && 8 + 8 * b <= 0x8000 && base - b + n < 0x1000_0000 && R(x, t.fp) - (8 + 8 * b) >= -0x8000_0000
    ensures var z := After(t, true, y);
            && R(z, t.ra) == R(x, t.ra)
            && R(ExecSeq(OpenReturnCode(t, b), z), t.spare[RA_EXIST]) == (base - b) + n
            && R(ExecSeq(OpenReturnCode(t, b), z), t.spare[RA_SRC]) == R(x, t.fp) + ValueOffset(b)
  {
    hide ExecSeq, Passing, After, OpenReturnCode, AlwaysReturns, Ld;
    ResultsFitIff(t, link, nrLocals, base, n, x);
    AfterUnder(t, link, nrLocals, base, n, x, y);
    OpenReturnCounts(t, b, base, n, After(t, true, y));
  }

  lemma AfterUnder(t: Target, link: Word, nrLocals: nat, base: nat, n: nat, x: Data, y: Data)
    requires VresultOk(t, n, x) && ForFrame(t, nrLocals, base, x) && Passing(t, true, link, n, x, y)
    ensures var z := After(t, true, y); SpUnder(t, base, n, z) && R(z, t.fp) == R(x, t.fp)
  {
    hide ExecSeq, Passing, After;
    PassShape(t);
    PassedPointers(t, true, link, n, x, y);
    AfterCopies(t, true, y);
  }
}

/**
 What is emitted for a call and its frame, run in code: the counts and the base that a call or a
 return passes, the prologue from the shared part into the function's own, the return up to the
 epilogue, and the epilogue to the word after the call.
 */
module FrameRuns {
  import opened Words
  import opened Wrappers
  import opened Mips
  import opened Target
  import opened Moves
  import opened ArithCode
  import opened ArithOps
  import opened BranchCode
  import opened Branch
  import opened ArgMoves
  import opened ParallelMoves
  import opened ArgAssign
  import opened Marshal
  import opened Ccall
  import opened CcallRun
  import opened Saves
  import opened SaveRoutines
  import opened Synthetic
  import opened Calls
  import opened Counts
  import opened Xlogue
  import opened Jumps
  import Closing
  import Frame

  // ----- counts -----

  /** The frame in reach of register b's home; and when no number is given, sp under the n results from base on. */
  ghost predicate CountOk(t: Target, b: nat, given: nat, base: nat, n: nat, x: Data) {
    && Passes(t) && given < 0x1000 && 8 * (2 + b) <= 0x8000 && R(x, t.fp) - 8 * (2 + b) >= -0x8000_0000
    && (given == 0 ==> SpUnder(t, base, n, x) && b <= base && base - b + n < 0x1000_0000)
  }

  lemma ImmLoaded(r: Reg, k: Word, x: Data)
    requires r != ZERO
    ensures var y := ExecSeq(LoadImCode(r, k), x); R(y, r) == k && y.mem == x.mem && forall q: Reg :: q != r ==> R(y, q) == R(x, q)
  {
    LoadImLoads(r, k, x);
  }

  /** How many arguments a call of register b has: those up to b + narg - 1, or up to base and the n results. */
  function Arguments(b: nat, narg: nat, base: nat, n: nat): int {
    if narg > 0 then (b + narg - 1) - b else (base - (b + 1)) + n
  }

  /** Given or not, the count is the number of the arguments. */
  lemma CallCountSets(t: Target, b: nat, narg: nat, base: nat, n: nat, x: Data)
    requires CountOk(t, b, narg, base, n, x) && (narg == 0 ==> b < base)
    ensures var y := ExecSeq(CallCount(t, b, narg), x);
            && R(y, t.spare[RA_EXIST]) == Arguments(b, narg, base, n)
            && y.mem == x.mem && forall q: Reg :: q != t.spare[RA_EXIST] ==> R(y, q) == R(x, q)
  {
    hide ExecSeq, OpenCallCode, LoadImCode;
    SpareApart(t);
    if narg > 0 {
      ImmLoaded(t.spare[RA_EXIST], narg - 1, x);
    } else {
      OpenCallCounts(t, b, base, n, x);
    }
  }

  lemma BaseAddress(t: Target, b: nat, x: Data)
    requires Passes(t) && 8 * (2 + b) <= 0x8000 && R(x, t.fp) - 8 * (2 + b) >= -0x8000_0000
    ensures var r := t.spare[RA_SRC]; var y := ExecSeq([Addiu(r, t.fp, Int16(ValueOffset(b)))], x);
            R(y, r) == Frame.HomeAddr(t, x, 2 * b) && y.mem == x.mem && forall q: Reg :: q != r ==> R(y, q) == R(x, q)
  {
    hide ExecSeq;
    SpareApart(t);
    HalfFits(ValueOffset(b));
    NormWord(R(x, t.fp) + ValueOffset(b));
    ExecOne(Addiu(t.spare[RA_SRC], t.fp, Int16(ValueOffset(b))), x);
    hide Norm, Int16;
  }

  /** A call passes the number of its arguments and the address of the called register, and nothing else changes. */
  lemma PrecallSets(t: Target, b: nat, narg: nat, base: nat, n: nat, x: Data)
    requires CountOk(t, b, narg, base, n, x) && (narg == 0 ==> b < base)
    ensures var y := ExecSeq(PrecallCode(t, b, narg, []), x);
            && R(y, t.spare[RA_EXIST]) == Arguments(b, narg, base, n) && R(y, t.spare[RA_SRC]) == Frame.HomeAddr(t, x, 2 * b)
            && y.mem == x.mem && forall q: Reg :: q != t.spare[RA_EXIST] && q != t.spare[RA_SRC] ==> R(y, q) == R(x, q)
  {
    hide ExecSeq, CallCount;
    SpareApart(t);
    SpareDiffer(t);
    var a, c := CallCount(t, b, narg), [Addiu(t.spare[RA_SRC], t.fp, Int16(ValueOffset(b)))];
    assert PrecallCode(t, b, narg, []) == a + c;
    ExecConcat(a, c, x);
    CallCountSets(t, b, narg, base, n, x);
    BaseAddress(t, b, ExecSeq(a, x));
  }

  lemma SpareDiffer(t: Target)
    requires Passes(t)
    ensures t.spare[RA_EXIST] != t.spare[RA_SRC] && t.spare[RA_EXIST] != t.spare[RA_EXPECT] && t.spare[RA_EXIST] != t.spare[RA_DST]
    ensures t.spare[RA_EXIST] != t.fp && t.spare[RA_SRC] != t.fp && t.spare[RA_EXIST] != t.sp && t.spare[RA_SRC] != t.sp
  {
    SpareApart(t);
  }

  /** A call for a fixed number of results expects just that many. */
  lemma PostcallExpects(t: Target, nret: nat, x: Data)
    requires Passes(t) && 0 < nret < 0x1000
    ensures var y := ExecSeq(PostcallCode(t, nret, []), x);
            R(y, t.spare[RA_EXPECT]) == nret - 1 && y.mem == x.mem && forall q: Reg :: q != t.spare[RA_EXPECT] ==> R(y, q) == R(x, q)
  {
    hide ExecSeq, LoadImCode;
    SpareApart(t);
    assert PostcallCode(t, nret, []) == LoadImCode(t.spare[RA_EXPECT], nret - 1);
    ImmLoaded(t.spare[RA_EXPECT], nret - 1, x);
  }

  /** How many values a return from register b has, likewise. */
  function Values(b: nat, nret: nat, base: nat, n: nat): int {
    if nret > 0 then nret - 1 else (base - b) + n
  }

  /** Given or not, the count is the number of the values, and the base is register b's home. */
  lemma ReturnCountSets(t: Target, b: nat, nret: nat, base: nat, n: nat, x: Data)
    requires CountOk(t, b, nret, base, n, x)
    ensures var y := ExecSeq(ReturnCount(t, b, nret), x);
            && R(y, t.spare[RA_EXIST]) == Values(b, nret, base, n)
            && R(y, t.spare[RA_SRC]) == Frame.HomeAddr(t, x, 2 * b)
            && y.mem == x.mem && forall q: Reg :: q != t.spare[RA_EXIST] && q != t.spare[RA_SRC] ==> R(y, q) == R(x, q)
  {
    hide ExecSeq, OpenReturnCode, LoadImCode;
    SpareApart(t);
    SpareDiffer(t);
    if nret > 0 {
      var a := [Addiu(t.spare[RA_SRC], t.fp, Int16(ValueOffset(b)))];
      ExecConcat(a, LoadImCode(t.spare[RA_EXIST], nret - 1), x);
      BaseAddress(t, b, x);
      ImmLoaded(t.spare[RA_EXIST], nret - 1, ExecSeq(a, x));
    } else {
      OpenReturnCounts(t, b, base, n, x);
    }
  }

  // ----- prologue -----

  /** The closure, its prototype and the word that points to it are not where the prologue pushes. */
  ghost predicate CodeSafe(t: Target, isRa: bool, x: Data)
    requires |t.spare| >= RA_SIZE
  {
    var slot := R(x, t.spare[RA_SRC]);
    var closure := Norm(Ld(x, slot) + CLOSURE_P);
    var proto := Norm(Ld(x, closure) + PROTO_CODE_START);
    Unpushed(t, isRa, x, slot) && Unpushed(t, isRa, x, closure) && Unpushed(t, isRa, x, proto)
  }

  predicate Unpushed(t: Target, isRa: bool, x: Data, a: int) {
    a >= R(x, t.sp) || a < R(x, t.sp) - SavedBytes(isRa)
  }

  lemma CodeStays(t: Target, isRa: bool, x: Data, y: Data)
    requires |t.spare| >= RA_SIZE && CodeSafe(t, isRa, x) && R(y, t.spare[RA_SRC]) == R(x, t.spare[RA_SRC])
    requires forall a :: Unpushed(t, isRa, x, a) ==> Ld(y, a) == Ld(x, a)
    ensures CodeStart(t, y) == CodeStart(t, x)
  {
    hide Ld, Norm, Unpushed;
  }

  lemma {:induction false} PlainStores(t: Target, rs: seq<Reg>, k: nat)
    requires k <= |rs|
    ensures Plain(PushStores(t, rs, k)) && Plain(PopLoads(t, rs, k))
  {
    if k > 0 {
      PlainStores(t, rs, k - 1);
    }
  }

  lemma PlainPush(t: Target, rs: seq<Reg>)
    ensures Plain(PushCode(t, rs)) && Plain(PopCode(t, rs))
  {
    PlainStores(t, rs, |rs|);
  }

  lemma PlainEntry(t: Target, isRa: bool, nrLocals: nat, nrParams: nat)
    requires |t.spare| >= RA_SIZE && nrParams <= 0xff
    ensures Plain(LinkCode(t, isRa) + SetupCode(t)) && Plain(OwnPrologue(t, nrLocals, nrParams))
  {
    hide PushCode, LoadImCode;
    PlainPush(t, SavedRegs(t, isRa));
    PlainImm(t.spare[RA_EXPECT], nrParams);
  }

  lemma PlainImm(r: Reg, k: Word)
    ensures Plain(LoadImCode(r, k))
  {
  }

  /** Registers that linking and setting up leave alone, the argument count among them. */
  lemma LinkSetup(t: Target, isRa: bool, x: Data)
    requires Passes(t) && R(x, t.sp) - SavedBytes(isRa) >= -0x8000_0000 && CodeSafe(t, isRa, x)
    ensures var y := ExecSeq(LinkCode(t, isRa) + SetupCode(t), x);
            R(y, t.spare[RA_EXPECT]) == CodeStart(t, x) && R(y, t.spare[RA_EXIST]) == R(x, t.spare[RA_EXIST])
  {
    hide ExecSeq, LinkCode, SetupCode, CodeStart, CodeSafe, Ld, Norm;
    SpareDiffer(t);
    SpareApart(t);
    ExecConcat(LinkCode(t, isRa), SetupCode(t), x);
    var x1 := ExecSeq(LinkCode(t, isRa), x);
    LinkLinks(t, isRa, x);
    SetupSets(t, x1);
    CodeStays(t, isRa, x, x1);
  }

  /**
   From the shared prologue control gets through the closure's prototype into the function's own
   prologue, with the frame entered, the argument count as passed and the parameters expected.
   */
  lemma PrologueRuns(code: seq<Instr>, p: int, t: Target, isRa: bool, nrLocals: nat, nrParams: nat, x: Data) returns (y: Data)
    requires EnterOk(t, isRa, nrLocals, x) && nrParams <= 0xff && CodeSafe(t, isRa, x)
    requires At(code, p, SharedPrologue(t, isRa)) && At(code, CodeStart(t, x) / 4, OwnPrologue(t, nrLocals, nrParams))
    ensures Runs(code, p, x, CodeStart(t, x) / 4 + |OwnPrologue(t, nrLocals, nrParams)|, y)
    ensures Entered(t, isRa, nrLocals, x, y) && R(y, t.spare[RA_EXIST]) == R(x, t.spare[RA_EXIST])
    ensures nrParams > 0 ==> R(y, t.spare[RA_EXPECT]) == nrParams
  {
    hide ExecSeq, Exec, Runs, At, LinkCode, SetupCode, RoomCode, CodeStart, CodeSafe, OwnPrologue, Plain, LoadImCode, Entered;
    var ws, q := LinkCode(t, isRa) + SetupCode(t), CodeStart(t, x) / 4;
    AtSplit(code, p, ws, [Jr(t.spare[RA_EXPECT]), NOP]);
    PlainEntry(t, isRa, nrLocals, nrParams);
    RunPlain(code, p, ws, x);
    LinkSetup(t, isRa, x);
    var x1 := ExecSeq(ws, x);
    ExecNop(x1);
    RunJump(code, p + |ws|, Jr(t.spare[RA_EXPECT]), NOP, x1);
    RunsTrans(code, p, x, p + |ws|, x1, q, x1);
    var own := OwnPrologue(t, nrLocals, nrParams);
    RunPlain(code, q, own, x1);
    y := ExecSeq(own, x1);
    RunsTrans(code, p, x, q, x1, q + |own|, y);
    OwnEnters(t, isRa, nrLocals, nrParams, x);
  }

  lemma OwnEnters(t: Target, isRa: bool, nrLocals: nat, nrParams: nat, x: Data)
    requires EnterOk(t, isRa, nrLocals, x) && nrParams <= 0xff
    ensures var x1 := ExecSeq(LinkCode(t, isRa) + SetupCode(t), x); var y := ExecSeq(OwnPrologue(t, nrLocals, nrParams), x1);
            && Entered(t, isRa, nrLocals, x, y) && R(y, t.spare[RA_EXIST]) == R(x1, t.spare[RA_EXIST])
            && (nrParams > 0 ==> R(y, t.spare[RA_EXPECT]) == nrParams)
  {
    hide ExecSeq, LinkCode, SetupCode, RoomCode, LoadImCode, Entered;
    SpareDiffer(t);
    SpareApart(t);
    var ws, room := LinkCode(t, isRa) + SetupCode(t), RoomCode(t, nrLocals);
    EnterEnters(t, isRa, nrLocals, x);
    ExecConcat(ws, room, x);
    var x1 := ExecSeq(ws, x);
    RoomKeeps(t, isRa, nrLocals, x);
    var z := ExecSeq(room, x1);
    if nrParams > 0 {
      var ps := LoadImCode(t.spare[RA_EXPECT], nrParams);
      ExecConcat(room, ps, x1);
      ImmLoaded(t.spare[RA_EXPECT], nrParams, z);
      EnteredSame(t, isRa, nrLocals, x, z, ExecSeq(ps, z));
    } else {
      assert room + [] == room;
    }
  }

  lemma RoomKeeps(t: Target, isRa: bool, nrLocals: nat, x: Data)
    requires EnterOk(t, isRa, nrLocals, x)
    ensures var x1 := ExecSeq(LinkCode(t, isRa) + SetupCode(t), x);
            R(ExecSeq(RoomCode(t, nrLocals), x1), t.spare[RA_EXIST]) == R(x1, t.spare[RA_EXIST])
  {
    hide ExecSeq, LinkCode, SetupCode, RoomCode;
    SpareDiffer(t);
    SpareApart(t);
    ExecConcat(LinkCode(t, isRa), SetupCode(t), x);
    LinkLinks(t, isRa, x);
    SetupSets(t, ExecSeq(LinkCode(t, isRa), x));
    RoomMade(t, nrLocals, ExecSeq(LinkCode(t, isRa) + SetupCode(t), x));
  }

  lemma EnteredSame(t: Target, isRa: bool, nrLocals: nat, x: Data, z: Data, y: Data)
    requires Passes(t) && Entered(t, isRa, nrLocals, x, z)
    requires y.mem == z.mem && forall q: Reg :: q != t.spare[RA_EXPECT] ==> R(y, q) == R(z, q)
    ensures Entered(t, isRa, nrLocals, x, y)
  {
    SpareApart(t);
    forall a
      ensures Ld(y, a) == Ld(z, a)
    {
    }
    hide Ld, R;
  }

  // ----- return -----

  /** Storing locals off up to k puts each register half in its home and changes no other half. */
  lemma {:induction false} ExtraStores(t: Target, off: nat, k: nat, x: Data)
    requires HomesOk(t, x) && off <= k
    ensures var y := ExecSeq(Extra(t, true, false, off, k), x);
            && y.regs == x.regs
            && forall p: nat :: Ld(y, Frame.HomeAddr(t, x, p)) ==
                                if 2 * off <= p < 2 * k && p < |t.spare| then R(x, t.spare[p]) else Ld(x, Frame.HomeAddr(t, x, p))
    decreases k
  {
    hide ExecSeq, SlotCode, Ld, R;
    if k == off {
      ExecNone(x);
    } else {
      var i, j := 2 * (k - 1), 2 * (k - 1) + 1;
      ExecThree(SlotCode(t, true, false, i), SlotCode(t, true, false, j), Extra(t, true, false, off, k - 1), x);
      var x1 := ExecSeq(SlotCode(t, true, false, i), x);
      SlotStores(t, false, i, x);
      SameRegs(x, x1);
      var x2 := ExecSeq(SlotCode(t, true, false, j), x1);
      SlotStores(t, false, j, x1);
      SameRegs(x1, x2);
      ExtraStores(t, off, k - 1, x2);
      var y := ExecSeq(Extra(t, true, false, off, k), x);
      forall p: nat
        ensures Ld(y, Frame.HomeAddr(t, x, p)) ==
                if 2 * off <= p < 2 * k && p < |t.spare| then R(x, t.spare[p]) else Ld(x, Frame.HomeAddr(t, x, p))
      {
        assert Frame.HomeAddr(t, x2, p) == Frame.HomeAddr(t, x1, p) == Frame.HomeAddr(t, x, p);
        assert Frame.HomeAddr(t, x, p) == Frame.HomeAddr(t, x, i) <==> p == i;
        assert Frame.HomeAddr(t, x, p) == Frame.HomeAddr(t, x, j) <==> p == j;
      }
    }
  }

  /** Half p of the frame: in its register, or in its home if registers have run out. */
  function HalfOf(t: Target, x: Data, p: nat): Word {
    if p < |t.spare| then R(x, t.spare[p]) else Ld(x, Frame.HomeAddr(t, x, p))
  }

  lemma {:induction false} PlainExtra(t: Target, off: nat, k: nat)
    requires off <= k
    ensures Plain(Extra(t, true, false, off, k))
    decreases k
  {
    hide SlotCode, Plain, Extra;
    ExtraSplit(t, off, k);
    if k > off {
      var a, b := SlotCode(t, true, false, 2 * (k - 1)), SlotCode(t, true, false, 2 * (k - 1) + 1);
      PlainSlot(t, true, false, 2 * (k - 1));
      PlainSlot(t, true, false, 2 * (k - 1) + 1);
      PlainExtra(t, off, k - 1);
      PlainConcat(a, b);
      PlainConcat(a + b, Extra(t, true, false, off, k - 1));
    }
  }

  lemma ExtraSplit(t: Target, off: nat, k: nat)
    requires off <= k
    ensures k == off ==> Plain(Extra(t, true, false, off, k))
    ensures k > off ==> Extra(t, true, false, off, k) ==
                        SlotCode(t, true, false, 2 * (k - 1)) + SlotCode(t, true, false, 2 * (k - 1) + 1) + Extra(t, true, false, off, k - 1)
  {
    hide SlotCode;
  }

  lemma PlainReturnCount(t: Target, b: nat, nret: nat)
    requires |t.spare| >= RA_SIZE && nret < 0x1000
    ensures Plain(ReturnCount(t, b, nret))
  {
    hide LoadImCode;
    if nret > 0 {
      PlainImm(t.spare[RA_EXIST], nret - 1);
    }
  }

  lemma Stored(t: Target, b: nat, nret: nat, base: nat, n: nat, x: Data)
    requires CountOk(t, b, nret, base, n, x) && HomesOk(t, x)
    ensures var st := if nret > 0 then Extra(t, true, false, b, b + (nret - 1)) else []; var x1 := ExecSeq(st, x);
            && CountOk(t, b, nret, base, n, x1) && x1.regs == x.regs && Plain(st)
            && (nret == 0 ==> x1 == x)
            && forall q: nat :: 2 * b <= q < 2 * b + 2 * (nret - 1) ==> Ld(x1, Frame.HomeAddr(t, x, q)) == HalfOf(t, x, q)
  {
    hide ExecSeq, Extra, Ld;
    if nret > 0 {
      ExtraStores(t, b, b + (nret - 1), x);
      PlainExtra(t, b, b + (nret - 1));
    } else {
      ExecNone(x);
    }
  }

  /**
   A return gets to the epilogue with the number of its values and the address of the first;
   given a number, that many values are stored there, one below the other, and nothing on the
   way has changed sp or fp.
   */
  lemma ReturnReaches(code: seq<Instr>, p: int, t: Target, b: nat, nret: nat, base: nat, n: nat, epilogue: Word, x: Data) returns (y: Data)
    requires CountOk(t, b, nret, base, n, x) && HomesOk(t, x) && epilogue >= 0
    requires At(code, p, ReturnCode(t, b, nret, epilogue))
    ensures Runs(code, p, x, epilogue / 4, y)
    ensures R(y, t.spare[RA_EXIST]) == Values(b, nret, base, n) && R(y, t.spare[RA_SRC]) == Frame.HomeAddr(t, x, 2 * b)
    ensures R(y, t.sp) == R(x, t.sp) && R(y, t.fp) == R(x, t.fp) && (nret == 0 ==> y.mem == x.mem)
    ensures forall i :: 0 <= i < 2 * (nret - 1) ==> Ld(y, R(y, t.spare[RA_SRC]) - 4 * i) == HalfOf(t, x, 2 * b + i)
  {
    hide ExecSeq, Exec, Runs, At, ReturnCount, Extra, Plain, HalfOf, CountOk, HomesOk, Sim;
    CountShape(t, b, nret, base, n, x);
    SpareDiffer(t);
    var st, ws := if nret > 0 then Extra(t, true, false, b, b + (nret - 1)) else [], ReturnCount(t, b, nret);
    AtSplit(code, p, st + ws, JumpCode(t, 0, Imm(epilogue)));
    AtSplit(code, p, st, ws);
    Stored(t, b, nret, base, n, x);
    RunPlain(code, p, st, x);
    var x1 := ExecSeq(st, x);
    PlainReturnCount(t, b, nret);
    RunPlain(code, p + |st|, ws, x1);
    ReturnCountSets(t, b, nret, base, n, x1);
    var x2 := ExecSeq(ws, x1);
    RunsTrans(code, p, x, p + |st|, x1, p + |st + ws|, x2);
    y := JumpRuns(code, p + |st + ws|, t, 0, 0, Imm(epilogue), x2);
    RunsTrans(code, p, x, p + |st + ws|, x2, epilogue / 4, y);
    forall i | 0 <= i < 2 * (nret - 1)
      ensures Ld(y, R(y, t.spare[RA_SRC]) - 4 * i) == HalfOf(t, x, 2 * b + i)
    {
      assert R(y, t.spare[RA_SRC]) - 4 * i == Frame.HomeAddr(t, x, 2 * b + i);
    }
  }

  lemma CountShape(t: Target, b: nat, given: nat, base: nat, n: nat, x: Data)
    requires CountOk(t, b, given, base, n, x)
    ensures Passes(t) && |t.spare| >= RA_SIZE && |t.temps| > 0 && t.Valid() && given < 0x1000
  {
  }

  // ----- epilogue -----

  /** A frame whose saved words are above sp. */
  ghost predicate EpilogueOk(t: Target, x: Data) {
    && Passes(t) && t.ra == RA && FrameAbove(t, 0, x)
    && CallOk(t, ARGS_BY_REG, [DAddr(t.fp, -4)], x)
    && -0x8000_0000 + 4 <= R(x, t.fp) < 0x8000_0000 - 8
    && !IsArgReg(t.spare[RA_EXIST], ARGS_BY_REG) && !IsArgReg(t.spare[RA_SRC], ARGS_BY_REG)
  }

  /** Both of what a return passes is the same in two states. */
  predicate PassedOn(t: Target, x: Data, y: Data)
    requires |t.spare| >= RA_SIZE
  {
    R(y, t.spare[RA_EXIST]) == R(x, t.spare[RA_EXIST]) && R(y, t.spare[RA_SRC]) == R(x, t.spare[RA_SRC])
  }

  lemma PlainLeave(t: Target, isRa: bool)
    requires |t.spare| >= RA_SIZE
    ensures Plain(LeaveCode(t, isRa))
  {
    hide PopCode;
    PlainPush(t, RestoredRegs(t, isRa));
  }

  /** Words that unwind and return, run from any state with fp and the saved words of x. */
  lemma LeaveRuns(code: seq<Instr>, p: int, t: Target, x: Data, w: Data) returns (v: Data)
    requires Passes(t) && t.ra == RA && -0x8000_0000 + 4 <= R(x, t.fp) < 0x8000_0000 - 8
    requires At(code, p, LeaveCode(t, true) + RET_CODE)
    requires R(w, t.fp) == R(x, t.fp) && forall a :: a >= R(x, t.fp) - 4 ==> Ld(w, a) == Ld(x, a)
    ensures Runs(code, p, w, Ld(x, R(x, t.fp) + 4) / 4, v)
    ensures R(v, t.fp) == Ld(x, R(x, t.fp)) && R(v, t.sp) == R(x, t.fp) + 8 && R(v, t.spare[RA_DST]) == Ld(x, R(x, t.fp) - 4)
    ensures v.mem == w.mem && PassedOn(t, w, v)
  {
    hide ExecSeq, Runs, At, LeaveCode, Plain, Ld;
    SpareDiffer(t);
    SpareApart(t);
    var leave := LeaveCode(t, true);
    AtSplit(code, p, leave, RET_CODE);
    PlainLeave(t, true);
    RunPlain(code, p, leave, w);
    LeaveLeaves(t, true, w);
    v := ExecSeq(leave, w);
    ReturnRuns(code, p + |leave|, v);
    RunsTrans(code, p, w, p + |leave|, v, Ld(x, R(x, t.fp) + 4) / 4, v);
  }

  /** From z control gets to where the frame of x was called from. */
  ghost predicate Returned(code: seq<Instr>, q: int, t: Target, x: Data, z: Data)
    requires |t.spare| >= RA_SIZE
  {
    exists v :: Runs(code, q, z, Ld(x, R(x, t.fp) + 4) / 4, v)
                && R(v, t.fp) == Ld(x, R(x, t.fp)) && R(v, t.sp) == R(x, t.fp) + 8 && R(v, t.spare[RA_DST]) == Ld(x, R(x, t.fp) - 4)
                && PassedOn(t, z, v)
  }

  /**
   The epilogue of a frame: closure_close is called with the frame's closure, and whatever it
   does that keeps sp, fp and the stack above, control then gets to the word after the call, with
   the caller's fp and sp back and the closure's address as result destination. The number of the
   values and their base get to the callee, and from it to the caller, as the return passed them.
   */
  lemma EpilogueReturns(code: seq<Instr>, p: int, t: Target, call: seq<Instr>, x: Data) returns (before: seq<Instr>, after: seq<Instr>)
    requires EpilogueOk(t, x) && At(code, p, Epilogue(t, true, Around(t, 0, call)))
    ensures Epilogue(t, true, Around(t, 0, call)) == before + call + after
    ensures var y := ExecSeq(before, x);
            && R(y, A0) == Ld(x, R(x, t.fp) - 4) && PassedOn(t, x, y)
            && forall z :: CalleeKeeps(t, R(x, t.sp), y, z) ==> Returned(code, p + |before| + |call|, t, x, z)
  {
    hide ExecSeq, Runs, At, LeaveCode, CcallCode, Returned, Plain, CallerKept, PassedOn, LocalsBack, Epilogue, CalleeKeeps, EpilogueOk;
    OkPasses(t, x);
    var rest;
    before, rest := ClosingCall(t, call, x);
    after := rest + (LeaveCode(t, true) + RET_CODE);
    EpilogueParts(code, p, t, call, before, rest);
    var y, q := ExecSeq(before, x), p + |before| + |call|;
    forall z | CalleeKeeps(t, R(x, t.sp), y, z)
      ensures Returned(code, q, t, x, z)
    {
      EpilogueEnds(code, q, t, rest, x, y, z);
    }
  }

  lemma OkPasses(t: Target, x: Data)
    requires EpilogueOk(t, x)
    ensures Passes(t) && |t.spare| >= RA_SIZE && |t.temps| > 0
  {
  }

  /** The call of closure_close by itself. */
  lemma ClosingCall(t: Target, call: seq<Instr>, x: Data) returns (before: seq<Instr>, rest: seq<Instr>)
    requires EpilogueOk(t, x)
    ensures CcallCode(t, 0, [DAddr(t.fp, -4)], Around(t, 0, call)) == before + call + rest && Plain(rest)
    ensures var y := ExecSeq(before, x);
            && CallerKept(t, x, y) && R(y, A0) == Ld(x, R(x, t.fp) - 4) && PassedOn(t, x, y)
            && forall z :: CalleeKeeps(t, R(x, t.sp), y, z) ==> LocalsBack(t, 0, None, x, z, ExecSeq(rest, z))
  {
    hide ExecSeq, CcallCode, Ld, CallOk, HomesOk, Plain, XFrame, DependencyGraph, Acyclic, Placed, CallerKept, PassedOn, LocalsBack, CalleeKeeps, FrameAbove;
    var args := [DAddr(t.fp, -4)];
    var ws := CcallCode(t, 0, args, Around(t, 0, call));
    assert Whole(t, 0, args, Around(t, 0, call), None) == ws + [] == ws;
    before, rest := CcallTransparent(t, 0, 0, args, call, None, x);
    NoneSaved(t, x);
    Closing.OneArgAcyclicIff(args[0]);
    ClosurePassed(t, x, ExecSeq(before, x));
  }

  lemma EpilogueParts(code: seq<Instr>, p: int, t: Target, call: seq<Instr>, before: seq<Instr>, rest: seq<Instr>)
    requires Passes(t) && At(code, p, Epilogue(t, true, Around(t, 0, call)))
    requires CcallCode(t, 0, [DAddr(t.fp, -4)], Around(t, 0, call)) == before + call + rest
    ensures var tail := LeaveCode(t, true) + RET_CODE;
            && Epilogue(t, true, Around(t, 0, call)) == before + call + (rest + tail)
            && At(code, p + |before| + |call|, rest) && At(code, p + |before| + |call| + |rest|, tail)
  {
    hide At, LeaveCode, CcallCode;
    var tail := LeaveCode(t, true) + RET_CODE;
    assert Epilogue(t, true, Around(t, 0, call)) == before + call + (rest + tail);
    AtSplit(code, p, before + call, rest + tail);
    AtSplit(code, p + |before + call|, rest, tail);
  }

  lemma EpilogueEnds(code: seq<Instr>, q: int, t: Target, rest: seq<Instr>, x: Data, y: Data, z: Data)
    requires EpilogueOk(t, x) && At(code, q, rest) && At(code, q + |rest|, LeaveCode(t, true) + RET_CODE) && Plain(rest)
    requires CallerKept(t, x, y) && CalleeKeeps(t, R(x, t.sp), y, z) && LocalsBack(t, 0, None, x, z, ExecSeq(rest, z))
    ensures Returned(code, q, t, x, z)
  {
    hide ExecSeq, Runs, At, LeaveCode, Ld, Returned, CallOk, HomesOk, Plain, CallerKept, PassedOn, LocalsBack, CalleeKeeps;
    var w := ExecSeq(rest, z);
    RunPlain(code, q, rest, z);
    AsBefore(t, x, y, z, w);
    var v := LeaveRuns(code, q + |rest|, t, x, w);
    RunsTrans(code, q, z, q + |rest|, w, Ld(x, R(x, t.fp) + 4) / 4, v);
    PassedBoth(t, z, w, v);
    Witnessed(code, q, t, x, z, v);
  }

  lemma PassedBoth(t: Target, x: Data, y: Data, z: Data)
    requires |t.spare| >= RA_SIZE && PassedOn(t, x, y) && PassedOn(t, y, z)
    ensures PassedOn(t, x, z)
  {
  }

  lemma NoneSaved(t: Target, x: Data)
    ensures ExecSeq(XFrame(t, true, true, 0), x) == x
  {
    NoLocals(t, true, true);
    ExecNone(x);
  }

  lemma ClosurePassed(t: Target, x: Data, y: Data)
    requires EpilogueOk(t, x) && Placed(t, [DAddr(t.fp, -4)], x, y) && CallerKept(t, x, y)
    ensures R(y, A0) == Ld(x, R(x, t.fp) - 4) && PassedOn(t, x, y)
  {
    SpareDiffer(t);
    NormWord(R(x, t.fp) - 4);
    assert R(y, A0) == Val(x, [DAddr(t.fp, -4)][0]);
  }

  lemma AsBefore(t: Target, x: Data, y: Data, z: Data, w: Data)
    requires FrameAbove(t, 0, x) && CallerKept(t, x, y) && CalleeKeeps(t, R(x, t.sp), y, z) && LocalsBack(t, 0, None, x, z, w)
    requires Passes(t)
    ensures R(w, t.fp) == R(x, t.fp) && forall a :: a >= R(x, t.fp) - 4 ==> Ld(w, a) == Ld(x, a)
    ensures PassedOn(t, z, w)
  {
    SpareDiffer(t);
    forall a | a >= R(x, t.fp) - 4
      ensures Ld(w, a) == Ld(x, a)
    {
      assert Ld(w, a) == Ld(z, a) == Ld(y, a);
    }
  }

  lemma Witnessed(code: seq<Instr>, q: int, t: Target, x: Data, z: Data, v: Data)
    requires |t.spare| >= RA_SIZE && Runs(code, q, z, Ld(x, R(x, t.fp) + 4) / 4, v)
    requires R(v, t.fp) == Ld(x, R(x, t.fp)) && R(v, t.sp) == R(x, t.fp) + 8 && R(v, t.spare[RA_DST]) == Ld(x, R(x, t.fp) - 4)
    requires PassedOn(t, z, v)
    ensures Returned(code, q, t, x, z)
  {
  }
}

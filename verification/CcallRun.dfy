/**
 Running the whole of what is emitted for a call of a C function: up to the callee, whatever the
 callee does, and from its return to the end.
 */
module CcallRun {
  import opened Words
  import opened Wrappers
  import opened Mips
  import opened Target
  import opened Moves
  import opened ArithCode
  import opened ArithOps
  import opened ArgMoves
  import opened ParallelMoves
  import opened ArgAssign
  import opened Marshal
  import opened Ccall
  import opened Saves
  import Frame

  /** Where a result may go: not into sp, fp or the zero register. */
  predicate ResultOk(t: Target, r: Option<Operand>) {
    r.Some? ==> !r.value.Imm? && r.value != OpReg(t.sp) && r.value != OpReg(t.fp) && r.value != OpReg(ZERO)
  }

  /** The whole of what is emitted. */
  function Whole(t: Target, T: nat, args: seq<Operand>, o: Outside, r: Option<Operand>): seq<Instr>
    requires |t.temps| > 0 && ResultOk(t, r)
  {
    CcallCode(t, T, args, o) + ResultCode(t, T, r)
  }

  /** State u is state z but for sp. */
  ghost predicate ButSp(t: Target, z: Data, u: Data) {
    u.mem == z.mem && forall q: Reg :: q != t.sp ==> R(u, q) == R(z, q)
  }

  /** The words after a call that restore registers leave sp, fp and the result alone. */
  ghost predicate FillOk(t: Target, fill: seq<Instr>, z: Data) {
    forall u {:trigger ButSp(t, z, u)} :: ButSp(t, z, u) ==>
      var w := ExecSeq(fill, u); R(w, t.sp) == R(u, t.sp) && R(w, t.fp) == R(u, t.fp) && R(w, V0) == R(u, V0)
  }

  /** The words from a callee's return in z to the end, in w: sp back, registers restored, result moved. */
  ghost predicate Ended(t: Target, fill: seq<Instr>, r: Option<Operand>, to: Word, z: Data, w: Data)
    requires ResultOk(t, r)
  {
    && R(w, t.sp) == to && R(w, t.fp) == R(z, t.fp) && (r.Some? ==> Val(w, r.value) == R(z, V0))
    && exists u {:trigger ButSp(t, z, u)} :: ButSp(t, z, u) && R(u, t.sp) == to && w == Landed(r, ExecSeq(fill, u))
  }

  /** The result moved to where it is wanted. */
  function Landed(r: Option<Operand>, v: Data): Data {
    if r.Some? then Upd(v, r.value, R(v, V0)) else v
  }

  /** From any state the callee can return in, with sp as it found it, the words come to that end. */
  ghost predicate Returns(t: Target, after: seq<Instr>, fill: seq<Instr>, r: Option<Operand>, sp: Word, to: Word)
    requires ResultOk(t, r)
  {
    forall z {:trigger FillOk(t, fill, z)} :: R(z, t.sp) == sp && FillOk(t, fill, z) ==> Ended(t, fill, r, to, z, ExecSeq(after, z))
  }

  /** What has to hold in the state a call starts from. */
  ghost predicate StartOk(t: Target, T: nat, args: seq<Operand>, o: Outside, x: Data) {
    var x0 := ExecSeq(o.save, x);
    R(x0, t.sp) == R(x, t.sp) && R(x0, t.fp) == R(x, t.fp) && T <= ARGS_BY_REG && CallOk(t, ARGS_BY_REG, args, x0) && t.sp != V0 && t.fp != V0
  }

  lemma ResultMoves(t: Target, T: nat, r: Option<Operand>, w: Data)
    requires t.Valid() && ResultOk(t, r)
    ensures var v := ExecSeq(ResultCode(t, T, r), w);
            && v == Landed(r, w)
            && R(v, t.sp) == R(w, t.sp) && R(v, t.fp) == R(w, t.fp) && (r.Some? ==> Val(v, r.value) == R(w, V0))
  {
    hide ExecSeq, MoveCode;
    if r.Some? {
      MoveExact(t, T, r.value, OpReg(V0), w);
    } else {
      ExecNone(w);
    }
  }

  /** It does not matter how many temporaries are live, if there is one for each register argument. */
  lemma EnoughTemps(t: Target, T: nat, T': nat, args: seq<Operand>, x: Data)
    requires CallOk(t, T, args, x) && RegArgs(args) <= T' <= ARGS_BY_REG
    ensures CallOk(t, T', args, x)
  {
  }

  lemma AfterReturns(t: Target, T: nat, args: seq<Operand>, o: Outside, r: Option<Operand>, x: Data)
    requires StartOk(t, T, args, o, x) && ResultOk(t, r)
    ensures var hi := CallTemps(T, args);
            var back := AddCode(t, hi, OpReg(t.sp), OpReg(t.sp), Imm(SmallArgs(args)));
            ArgBytes(args) < 0x8000 && R(x, t.sp) - ArgBytes(args) >= -0x8000_0000
            && Returns(t, back + o.fill + ResultCode(t, T, r), o.fill, r, R(x, t.sp) - ArgBytes(args), R(x, t.sp))
  {
    hide ExecSeq, AddCode, ResultCode, FillOk, Val, ButSp, Landed;
    var hi, x0 := CallTemps(T, args), ExecSeq(o.save, x);
    EnoughTemps(t, ARGS_BY_REG, CallTemps(T, args), args, x0);
    var back, end := AddCode(t, hi, OpReg(t.sp), OpReg(t.sp), Imm(SmallArgs(args))), ResultCode(t, T, r);
    forall z | R(z, t.sp) == R(x, t.sp) - ArgBytes(args) && FillOk(t, o.fill, z)
      ensures Ended(t, o.fill, r, R(x, t.sp), z, ExecSeq(back + o.fill + end, z))
    {
      ExecThree(back, o.fill, end, z);
      StackRestored(t, hi, args, x0, z);
      var u := ExecSeq(back, z);
      SpOnly(t, z, u);
      Filled(t, o.fill, z, u);
      ResultMoves(t, T, r, ExecSeq(o.fill, u));
    }
  }

  lemma SpOnly(t: Target, z: Data, u: Data)
    requires u.mem == z.mem && forall q: Reg :: q != t.sp ==> R(u, q) == R(z, q)
    ensures ButSp(t, z, u)
  {
  }

  lemma Filled(t: Target, fill: seq<Instr>, z: Data, u: Data)
    requires FillOk(t, fill, z) && ButSp(t, z, u) && t.fp != t.sp && t.sp != V0
    ensures var w := ExecSeq(fill, u); R(w, t.sp) == R(u, t.sp) && R(w, t.fp) == R(z, t.fp) && R(w, V0) == R(z, V0)
  {
    hide ExecSeq;
  }

  /**
   The emitted call, run as a whole. Up to the callee's words the arguments get into place, when
   they do not form a cycle, with the caller's frame untouched; and from whatever state the callee
   returns in, with sp as it found it, sp ends where it was before the first word and the result
   is where it was asked for.
   */
  lemma CcallRuns(t: Target, T: nat, args: seq<Operand>, o: Outside, r: Option<Operand>, x: Data) returns (before: seq<Instr>, after: seq<Instr>)
    requires StartOk(t, T, args, o, x) && ResultOk(t, r)
    ensures Whole(t, T, args, o, r) == o.save + before + o.call + after && before == MarshalCode(t, CallTemps(T, args), args)
    ensures var x0, y := ExecSeq(o.save, x), ExecSeq(o.save + before, x);
            && CallerKept(t, x0, y) && R(y, t.sp) == R(x, t.sp) - ArgBytes(args)
            && (Acyclic(DependencyGraph(args)) ==> Placed(t, args, x0, y))
            && Returns(t, after, o.fill, r, R(y, t.sp), R(x, t.sp))
    ensures Plain(o.fill) ==> Plain(after)
  {
    hide ExecSeq, AddCode, ResultCode, MarshalCode, DependencyGraph, Acyclic, Placed, CallerKept, Returns, ArgOk, Plain;
    var hi, x0 := CallTemps(T, args), ExecSeq(o.save, x);
    before := MarshalCode(t, hi, args);
    var back := AddCode(t, hi, OpReg(t.sp), OpReg(t.sp), Imm(SmallArgs(args)));
    after := back + o.fill + ResultCode(t, T, r);
    assert Whole(t, T, args, o, r) == o.save + before + o.call + after;
    ExecConcat(o.save, before, x);
    EnoughTemps(t, ARGS_BY_REG, CallTemps(T, args), args, x0);
    MarshalKeeps(t, hi, args, x0);
    if Acyclic(DependencyGraph(args)) {
      MarshalPlaces(t, hi, args, x0);
    }
    AfterReturns(t, T, args, o, r, x);
    if Plain(o.fill) {
      PlainAfter(t, T, args, o.fill, r);
    }
  }

  lemma PlainAfter(t: Target, T: nat, args: seq<Operand>, fill: seq<Instr>, r: Option<Operand>)
    requires t.Valid() && ResultOk(t, r) && Plain(fill)
    ensures Plain(AddCode(t, CallTemps(T, args), OpReg(t.sp), OpReg(t.sp), Imm(SmallArgs(args))) + fill + ResultCode(t, T, r))
  {
    hide Plain, DoAddCode, MoveCode;
    var sp := OpReg(t.sp);
    PlainAdd(t, CallTemps(T, args), sp, sp, Imm(SmallArgs(args)), false);
    PlainJoin(AddCode(t, CallTemps(T, args), sp, sp, Imm(SmallArgs(args))), fill);
    PlainResult(t, T, r);
    PlainJoin(AddCode(t, CallTemps(T, args), sp, sp, Imm(SmallArgs(args))) + fill, ResultCode(t, T, r));
  }

  lemma PlainResult(t: Target, T: nat, r: Option<Operand>)
    requires |t.temps| > 0 && ResultOk(t, r)
    ensures Plain(ResultCode(t, T, r))
  {
    hide MoveCode;
    if r.Some? {
      PlainMove(t, T, r.value, OpReg(V0));
    }
  }

  // ----- with the caller-saved registers of the locals -----

  /** What mips_static_ccall puts around a call in a frame of n locals. */
  function Around(t: Target, n: nat, call: seq<Instr>): Outside {
    Outside(XFrame(t, true, true, n), call, XFrame(t, false, true, n))
  }

  /** fp points above the homes of the locals, and sp is under them. */
  ghost predicate FrameAbove(t: Target, n: nat, x: Data) {
    HomesOk(t, x) && R(x, t.sp) <= R(x, t.fp) - 4 - 8 * n && t.sp != V0 && t.fp != V0
  }

  lemma SpNotSaved(t: Target, n: nat)
    requires t.Valid()
    ensures !IsSavedReg(t, true, n, t.sp) && !IsSavedReg(t, true, n, t.fp) && !IsSavedReg(t, true, n, V0)
  {
  }

  /** Restoring caller-saved registers does not touch sp, fp or the result. */
  lemma RestoringFills(t: Target, n: nat, z: Data)
    requires HomesOk(t, z) && t.fp != t.sp
    ensures FillOk(t, XFrame(t, false, true, n), z)
  {
    hide ExecSeq, XFrame, IsSavedReg;
    SpNotSaved(t, n);
    forall u {:trigger ButSp(t, z, u)} | ButSp(t, z, u)
      ensures var w := ExecSeq(XFrame(t, false, true, n), u); R(w, t.sp) == R(u, t.sp) && R(w, t.fp) == R(u, t.fp) && R(w, V0) == R(u, V0)
    {
      LoadRestores(t, true, n, u);
    }
  }

  lemma SavingStarts(t: Target, T: nat, n: nat, args: seq<Operand>, call: seq<Instr>, x: Data)
    requires FrameAbove(t, n, x) && T <= ARGS_BY_REG && CallOk(t, ARGS_BY_REG, args, x)
    ensures StartOk(t, T, args, Around(t, n, call), x)
    ensures var x0 := ExecSeq(XFrame(t, true, true, n), x); Saved(t, true, n, x, x0) && CallOk(t, ARGS_BY_REG, args, x0)
  {
    hide ExecSeq, XFrame, HomesOk;
    SaveStores(t, true, n, x);
    SameCall(t, ARGS_BY_REG, args, x, ExecSeq(XFrame(t, true, true, n), x));
  }

  lemma SameCall(t: Target, T: nat, args: seq<Operand>, x: Data, x0: Data)
    requires CallOk(t, T, args, x) && x0.regs == x.regs
    ensures CallOk(t, T, args, x0)
  {
    forall i | 0 <= i < |args|
      ensures ArgOk(t, x0, args[i])
    {
      assert ArgOk(t, x, args[i]);
    }
  }

  /** A callee that keeps sp, fp and what is on the caller's stack. */
  ghost predicate CalleeKeeps(t: Target, sp: Word, y: Data, z: Data) {
    R(z, t.sp) == R(y, t.sp) && R(z, t.fp) == R(y, t.fp) && forall a :: a >= sp ==> Ld(z, a) == Ld(y, a)
  }

  /** From the callee's return in z to w: the result in place, every caller-saved register of a local back, no other touched. */
  ghost predicate LocalsBack(t: Target, n: nat, r: Option<Operand>, x: Data, z: Data, w: Data)
    requires ResultOk(t, r)
  {
    && R(w, t.sp) == R(x, t.sp) && R(w, t.fp) == R(x, t.fp) && (r.Some? ==> Val(w, r.value) == R(z, V0))
    && ((r.Some? && r.value.DAddr?) || w.mem == z.mem)
    && forall q: Reg :: q != t.sp && r != Some(OpReg(q)) ==> R(w, q) == if IsSavedReg(t, true, n, q) then R(x, q) else R(z, q)
  }

  lemma LandedMemory(r: Option<Operand>, v: Data)
    requires r.Some? ==> !r.value.DAddr?
    ensures Landed(r, v).mem == v.mem
  {
  }

  lemma LandedElsewhere(t: Target, r: Option<Operand>, v: Data, q: Reg)
    requires ResultOk(t, r) && r != Some(OpReg(q))
    ensures R(Landed(r, v), q) == R(v, q)
  {
  }

  lemma EndedBack(t: Target, n: nat, r: Option<Operand>, x: Data, x0: Data, z: Data, w: Data)
    requires FrameAbove(t, n, x) && ResultOk(t, r) && Saved(t, true, n, x, x0) && R(z, t.fp) == R(x, t.fp)
    requires forall a :: a >= R(x, t.sp) ==> Ld(z, a) == Ld(x0, a)
    requires Ended(t, XFrame(t, false, true, n), r, R(x, t.sp), z, w)
    ensures LocalsBack(t, n, r, x, z, w)
  {
    hide ExecSeq, XFrame, IsSavedReg, Landed, Ld, Saves.IsHome, Saved, Restored;
    var u {:trigger ButSp(t, z, u)} :| ButSp(t, z, u) && R(u, t.sp) == R(x, t.sp) && w == Landed(r, ExecSeq(XFrame(t, false, true, n), u));
    FpApart(t);
    SameHomes(t, x, u);
    LoadRestores(t, true, n, u);
    RestoredMem(t, true, n, u, ExecSeq(XFrame(t, false, true, n), u));
    if !(r.Some? && r.value.DAddr?) {
      LandedMemory(r, ExecSeq(XFrame(t, false, true, n), u));
    }
    forall q: Reg | q != t.sp && r != Some(OpReg(q))
      ensures R(w, q) == if IsSavedReg(t, true, n, q) then R(x, q) else R(z, q)
    {
      LandedElsewhere(t, r, ExecSeq(XFrame(t, false, true, n), u), q);
      HomesHeld(t, n, x, x0, z, u);
      RestoredReg(t, true, n, x, x0, u, ExecSeq(XFrame(t, false, true, n), u), q);
    }
  }

  lemma FpApart(t: Target)
    requires t.Valid()
    ensures t.fp != t.sp
  {
  }

  lemma SameHomes(t: Target, x: Data, u: Data)
    requires HomesOk(t, x) && R(u, t.fp) == R(x, t.fp)
    ensures HomesOk(t, u)
  {
  }

  lemma HomesHeld(t: Target, n: nat, x: Data, x0: Data, z: Data, u: Data)
    requires R(x, t.sp) <= R(x, t.fp) - 4 - 8 * n && u.mem == z.mem && forall a :: a >= R(x, t.sp) ==> Ld(z, a) == Ld(x0, a)
    ensures forall a :: Saves.IsHome(t, true, n, x, a) ==> Ld(u, a) == Ld(x0, a)
  {
  }

  /**
   So a call of a C function in a frame of n locals is transparent: the callee finds its
   arguments, and whatever it does that keeps sp, fp and the caller's stack, in the end sp and fp
   are back, its result is where it was asked for, and so is every local it may have overwritten.
   */
  lemma CcallTransparent(t: Target, T: nat, n: nat, args: seq<Operand>, call: seq<Instr>, r: Option<Operand>, x: Data) returns (before: seq<Instr>, after: seq<Instr>)
    requires FrameAbove(t, n, x) && T <= ARGS_BY_REG && CallOk(t, ARGS_BY_REG, args, x) && ResultOk(t, r)
    ensures Whole(t, T, args, Around(t, n, call), r) == before + call + after && Plain(after)
    ensures before == XFrame(t, true, true, n) + MarshalCode(t, CallTemps(T, args), args)
    ensures var x0, y := ExecSeq(XFrame(t, true, true, n), x), ExecSeq(before, x);
            && x0.regs == x.regs && CallerKept(t, x0, y) && (Acyclic(DependencyGraph(args)) ==> Placed(t, args, x0, y))
            && forall z :: CalleeKeeps(t, R(x, t.sp), y, z) ==> LocalsBack(t, n, r, x, z, ExecSeq(after, z))
  {
    hide ExecSeq, CcallCode, ResultCode, CallOk, DependencyGraph, Acyclic, Placed, Ended, LocalsBack, FrameAbove, FillOk, Saved, HomesOk, Plain, XFrame;
    var o := Around(t, n, call);
    AboveShape(t, ARGS_BY_REG, n, args, x);
    SavingStarts(t, T, n, args, call, x);
    var marshal;
    marshal, after := CcallRuns(t, T, args, o, r, x);
    before := o.save + marshal;
    PlainXFrame(t, false, true, n);
    var x0, y := ExecSeq(XFrame(t, true, true, n), x), ExecSeq(before, x);
    SavedRegsSame(t, n, x, x0);
    forall z | CalleeKeeps(t, R(x, t.sp), y, z)
      ensures LocalsBack(t, n, r, x, z, ExecSeq(after, z))
    {
      SameHomes(t, x, z);
      RestoringFills(t, n, z);
      EndedBack(t, n, r, x, x0, z, ExecSeq(after, z));
    }
  }

  lemma SavedRegsSame(t: Target, n: nat, x: Data, x0: Data)
    requires Saved(t, true, n, x, x0)
    ensures x0.regs == x.regs
  {
  }

  lemma AboveShape(t: Target, T: nat, n: nat, args: seq<Operand>, x: Data)
    requires FrameAbove(t, n, x) && CallOk(t, T, args, x)
    ensures t.Valid() && HomesOk(t, x) && t.fp != t.sp && |t.temps| > 0 && !IsArgReg(t.fp, ARGS_BY_REG)
  {
  }
}

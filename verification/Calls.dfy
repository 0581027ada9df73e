/**
 Calls of Lua closures as a stack discipline. Frames are entered and left by the code the
 prologue and epilogue emit; between the two a body may write its own locals and below sp, write
 locals of outer frames through open upvalues and memory off the stack, move sp, and call
 closures nested to any depth.
 */
module Calls {
  import opened Words
  import opened Mips
  import opened Target
  import opened Synthetic
  import Frame
  import Cells

  // Registers that pass what a call needs, in order of assignment: counts, source, destination, expected.
  const RA_EXIST: nat := 0
  const RA_SRC: nat := 1
  const RA_DST: nat := 2
  const RA_EXPECT: nat := 3
  const RA_SIZE: nat := 4

  /** A machine whose argument registers all come from outside the temporaries. */
  ghost predicate Passes(t: Target) {
    t.Valid() && |t.spare| >= RA_SIZE
  }

  function SavedRegs(t: Target, isRa: bool): seq<Reg>
    requires |t.spare| >= RA_SIZE
  {
    if isRa then [t.ra, t.fp, t.spare[RA_SRC]] else [t.fp, t.spare[RA_SRC]]
  }

  function RestoredRegs(t: Target, isRa: bool): seq<Reg>
    requires |t.spare| >= RA_SIZE
  {
    if isRa then [t.spare[RA_DST], t.fp, t.ra] else [t.spare[RA_DST], t.fp]
  }

  // Offsets of the prototype in a closure, and of the code in a prototype, with 32-bit pointers.
  const CLOSURE_P: Half := 4
  const PROTO_CODE_START: Half := 32

  /** Find the code of the closure, and set up copying its arguments: from after it, to local 0. */
  function SetupCode(t: Target): seq<Instr>
    requires |t.spare| >= RA_SIZE
  {
    var code, src, dst := t.spare[RA_EXPECT], t.spare[RA_SRC], t.spare[RA_DST];
    [Lw(code, src, 0), Lw(code, code, CLOSURE_P), Lw(code, code, PROTO_CODE_START)]
    + [Addiu(src, src, -8), Addiu(dst, t.fp, -8)]
  }

  /** Save, point fp at the saved fp: what every prologue starts with. */
  function LinkCode(t: Target, isRa: bool): seq<Instr>
    requires |t.spare| >= RA_SIZE
  {
    PushCode(t, SavedRegs(t, isRa)) + [Addiu(t.fp, t.sp, 4)]
  }

  /** Room for the locals; an immediate zero would be lowered through the zero register. */
  function RoomCode(t: Target, nrLocals: nat): seq<Instr> {
    if nrLocals == 0 then [Addu(t.sp, t.sp, ZERO)] else BumpSp(t, -(8 * nrLocals))
  }

  /** Shared prologue up to its jump, then the function's own: room for the locals. */
  function EnterCode(t: Target, isRa: bool, nrLocals: nat): seq<Instr>
    requires |t.spare| >= RA_SIZE
  {
    LinkCode(t, isRa) + SetupCode(t) + RoomCode(t, nrLocals)
  }

  /** Epilogue: drop whatever is on the stack, and restore. */
  function LeaveCode(t: Target, isRa: bool): seq<Instr>
    requires |t.spare| >= RA_SIZE
  {
    [Addiu(t.sp, t.fp, -4)] + PopCode(t, RestoredRegs(t, isRa))
  }

  function SavedBytes(isRa: bool): int {
    if isRa then 12 else 8
  }

  ghost predicate EnterOk(t: Target, isRa: bool, nrLocals: nat, x: Data) {
    && Passes(t) && 8 * nrLocals <= 0x8000
    && R(x, t.sp) - SavedBytes(isRa) - 8 * nrLocals - 8 >= -0x8000_0000 && R(x, t.sp) < 0x8000_0000 - 8
  }

  /** The frame as entered: three (or two) words saved, fp on the saved fp, locals below. */
  ghost predicate Entered(t: Target, isRa: bool, nrLocals: nat, x: Data, y: Data)
    requires |t.spare| >= RA_SIZE
  {
    && R(y, t.fp) == R(x, t.sp) - SavedBytes(isRa) + 4
    && R(y, t.sp) == R(y, t.fp) - 4 - 8 * nrLocals
    && FrameWords(t, isRa, x, y)
    && R(y, t.spare[RA_SRC]) == Norm(R(x, t.spare[RA_SRC]) - 8) && R(y, t.spare[RA_DST]) == R(y, t.fp) - 8
  }

  /** The saved words, and no other word of the callers changed. */
  ghost predicate FrameWords(t: Target, isRa: bool, x: Data, y: Data)
    requires |t.spare| >= RA_SIZE
  {
    && Ld(y, R(y, t.fp) - 4) == R(x, t.spare[RA_SRC])
    && Ld(y, R(y, t.fp)) == R(x, t.fp)
    && (isRa ==> Ld(y, R(y, t.fp) + 4) == R(x, t.ra))
    && (forall a :: a >= R(x, t.sp) || a < R(y, t.fp) - 4 ==> Ld(y, a) == Ld(x, a))
  }

  lemma SpareApart(t: Target)
    requires Passes(t)
    ensures forall i :: 0 <= i < RA_SIZE ==> t.Ordinary(t.spare[i])
    ensures t.spare[RA_SRC] != t.spare[RA_DST] && t.spare[RA_SRC] != t.spare[RA_EXPECT] && t.spare[RA_DST] != t.spare[RA_EXPECT]
  {
  }

  lemma LinkLinks(t: Target, isRa: bool, x: Data)
    requires Passes(t) && R(x, t.sp) - SavedBytes(isRa) >= -0x8000_0000
    ensures var y := ExecSeq(LinkCode(t, isRa), x);
            && R(y, t.sp) == R(x, t.sp) - SavedBytes(isRa) && R(y, t.fp) == R(y, t.sp) + 4
            && FrameWords(t, isRa, x, y) && forall q: Reg :: q != t.sp && q != t.fp ==> R(y, q) == R(x, q)
  {
    hide ExecSeq, PushCode;
    var rs := SavedRegs(t, isRa);
    SpareApart(t);
    PushPushes(t, rs, x);
    var x1 := ExecSeq(PushCode(t, rs), x);
    ExecConcat(PushCode(t, rs), [Addiu(t.fp, t.sp, 4)], x);
    ExecOne(Addiu(t.fp, t.sp, 4), x1);
    NormWord(R(x1, t.sp) + 4);
    hide Norm, Int16;
    assert Ld(x1, R(x, t.sp) - 4 * (|rs| - 1 + 1)) == R(x, rs[|rs| - 1]);
    assert Ld(x1, R(x, t.sp) - 4 * (|rs| - 2 + 1)) == R(x, rs[|rs| - 2]);
    assert isRa ==> Ld(x1, R(x, t.sp) - 4 * (0 + 1)) == R(x, rs[0]);
  }

  /** Where the code of the closure whose stack slot the source register points to starts. */
  function CodeStart(t: Target, x: Data): Word
    requires |t.spare| >= RA_SIZE
  {
    var closure := Ld(x, R(x, t.spare[RA_SRC]));
    var proto := Ld(x, Norm(closure + CLOSURE_P));
    Ld(x, Norm(proto + PROTO_CODE_START))
  }

  /** The code pointer is found through closure and prototype, and the pointers of the argument copy are set. */
  lemma SetupSets(t: Target, x: Data)
    requires Passes(t)
    ensures var y := ExecSeq(SetupCode(t), x); var code, src, dst := t.spare[RA_EXPECT], t.spare[RA_SRC], t.spare[RA_DST];
            && y.mem == x.mem && R(y, code) == CodeStart(t, x)
            && R(y, src) == Norm(R(x, src) - 8) && R(y, dst) == Norm(R(x, t.fp) - 8)
            && forall q: Reg :: q != code && q != src && q != dst ==> R(y, q) == R(x, q)
  {
    hide ExecSeq, CodeStart;
    SpareApart(t);
    var code, src, dst := t.spare[RA_EXPECT], t.spare[RA_SRC], t.spare[RA_DST];
    var a, b := [Lw(code, src, 0), Lw(code, code, CLOSURE_P), Lw(code, code, PROTO_CODE_START)], [Addiu(src, src, -8), Addiu(dst, t.fp, -8)];
    ExecConcat(a, b, x);
    PointerFound(t, x);
    ExecTwo(Addiu(src, src, -8), Addiu(dst, t.fp, -8), ExecSeq(a, x));
    hide EffAddr, Ld, Norm;
  }

  lemma PointerFound(t: Target, x: Data)
    requires Passes(t)
    ensures var code, src := t.spare[RA_EXPECT], t.spare[RA_SRC];
            ExecSeq([Lw(code, src, 0), Lw(code, code, CLOSURE_P), Lw(code, code, PROTO_CODE_START)], x) == W(x, code, CodeStart(t, x))
  {
    hide ExecSeq, Ld;
    SpareApart(t);
    var code, src := t.spare[RA_EXPECT], t.spare[RA_SRC];
    var i, j, k := Lw(code, src, 0), Lw(code, code, CLOSURE_P), Lw(code, code, PROTO_CODE_START);
    assert [i, j, k] == [i, j] + [k];
    ExecConcat([i, j], [k], x);
    ExecTwo(i, j, x);
    ExecOne(k, ExecSeq([i, j], x));
    NormWord(R(x, src) + 0);
    var closure := Ld(x, R(x, src));
    var proto := Ld(x, Norm(closure + CLOSURE_P));
    assert Exec(i, x) == W(x, code, closure);
    LoadsAgree(x, code, closure, Norm(closure + CLOSURE_P));
    assert Exec(j, Exec(i, x)) == W(x, code, proto) by { WriteTwice(x, code, closure, proto); }
    LoadsAgree(x, code, proto, Norm(proto + PROTO_CODE_START));
    WriteTwice(x, code, proto, CodeStart(t, x));
  }

  lemma LoadsAgree(x: Data, r: Reg, v: Word, a: int)
    ensures Ld(W(x, r, v), a) == Ld(x, a)
  {
  }

  lemma WriteTwice(x: Data, r: Reg, v: Word, w: Word)
    ensures W(W(x, r, v), r, w) == W(x, r, w)
  {
  }

  lemma EnterEnters(t: Target, isRa: bool, nrLocals: nat, x: Data)
    requires EnterOk(t, isRa, nrLocals, x)
    ensures Entered(t, isRa, nrLocals, x, ExecSeq(EnterCode(t, isRa, nrLocals), x))
  {
    hide ExecSeq, LinkCode, SetupCode;
    SpareApart(t);
    LinkLinks(t, isRa, x);
    var x1 := ExecSeq(LinkCode(t, isRa), x);
    SetupSets(t, x1);
    var x2 := ExecSeq(SetupCode(t), x1);
    ExecConcat(LinkCode(t, isRa), SetupCode(t), x);
    ExecConcat(LinkCode(t, isRa) + SetupCode(t), RoomCode(t, nrLocals), x);
    RoomMade(t, nrLocals, x2);
    NormWord(R(x1, t.fp) - 8);
    hide Norm, Int16, RoomCode;
  }

  lemma RoomMade(t: Target, nrLocals: nat, x: Data)
    requires t.Valid() && 8 * nrLocals <= 0x8000 && R(x, t.sp) - 8 * nrLocals >= -0x8000_0000
    ensures var y := ExecSeq(RoomCode(t, nrLocals), x);
            R(y, t.sp) == R(x, t.sp) - 8 * nrLocals && y.mem == x.mem && forall q: Reg :: q != t.sp ==> R(y, q) == R(x, q)
  {
    var k: int := 8 * nrLocals;
    NormWord(R(x, t.sp) - k);
    if nrLocals == 0 {
      ExecOne(Addu(t.sp, t.sp, ZERO), x);
    } else {
      HalfFits(0 - k);
      ExecOne(Addiu(t.sp, t.sp, 0 - k), x);
    }
    hide Norm, Int16;
  }

  /** Locals fill exactly the words from sp up to the saved words, and meet none of those. */
  lemma LocalsFill(t: Target, isRa: bool, nrLocals: nat, x: Data, y: Data, a: int)
    requires |t.spare| >= RA_SIZE && Entered(t, isRa, nrLocals, x, y)
    ensures (exists p :: 0 <= p < 2 * nrLocals && a == Frame.HomeAddr(t, y, p)) <==>
            R(y, t.sp) <= a < R(y, t.sp) + 8 * nrLocals && (a - R(y, t.sp)) % 4 == 0
    ensures R(y, t.sp) + 8 * nrLocals == R(y, t.fp) - 4 == R(x, t.sp) - SavedBytes(isRa)
  {
    hide Ld;
    HomesAtSteps(t, y, a, nrLocals);
  }

  lemma HomesAtSteps(t: Target, y: Data, a: int, nrLocals: nat)
    requires R(y, t.sp) == R(y, t.fp) - 4 - 8 * nrLocals
    ensures (exists p :: 0 <= p < 2 * nrLocals && a == Frame.HomeAddr(t, y, p)) <==>
            R(y, t.sp) <= a < R(y, t.sp) + 8 * nrLocals && (a - R(y, t.sp)) % 4 == 0
  {
    hide Ld, R;
    var sp, fp := R(y, t.sp), R(y, t.fp);
    if sp <= a < sp + 8 * nrLocals && (a - sp) % 4 == 0 {
      var k := (a - sp) / 4;
      assert a == sp + 4 * k;
      assert a == Frame.HomeAddr(t, y, 2 * nrLocals - 1 - k);
    }
    forall p | 0 <= p < 2 * nrLocals && a == Frame.HomeAddr(t, y, p)
      ensures sp <= a < sp + 8 * nrLocals && (a - sp) % 4 == 0
    {
      assert a == sp + 4 * (2 * nrLocals - 1 - p);
    }
  }

  /** Leaving reads the three words above fp - 4, wherever sp is by then. */
  lemma LeaveLeaves(t: Target, isRa: bool, x: Data)
    requires Passes(t) && -0x8000_0000 + 4 <= R(x, t.fp) < 0x8000_0000 - 8
    ensures var y := ExecSeq(LeaveCode(t, isRa), x);
            && y.mem == x.mem
            && R(y, t.sp) == R(x, t.fp) - 4 + SavedBytes(isRa)
            && R(y, t.spare[RA_DST]) == Ld(x, R(x, t.fp) - 4)
            && R(y, t.fp) == Ld(x, R(x, t.fp))
            && (isRa ==> R(y, t.ra) == Ld(x, R(x, t.fp) + 4))
            && (forall q: Reg :: q != t.sp && q !in RestoredRegs(t, isRa) ==> R(y, q) == R(x, q))
  {
    hide ExecSeq, PopCode;
    var rs := RestoredRegs(t, isRa);
    SpareApart(t);
    ExecConcat([Addiu(t.sp, t.fp, -4)], PopCode(t, rs), x);
    ExecOne(Addiu(t.sp, t.fp, -4), x);
    NormWord(R(x, t.fp) - 4);
    var x1 := Exec(Addiu(t.sp, t.fp, -4), x);
    PopPops(t, rs, x1);
    hide Norm, Int16;
    var y := ExecSeq(PopCode(t, rs), x1);
    assert R(y, rs[0]) == Ld(x1, R(x1, t.sp) + 4 * 0);
    assert R(y, rs[1]) == Ld(x1, R(x1, t.sp) + 4 * 1);
    assert isRa ==> R(y, rs[2]) == Ld(x1, R(x1, t.sp) + 4 * 2);
  }

  // ----- the frames that wait for a call to return -----

  /** A frame that has called: its fp, its sp at the call, its number of locals. */
  datatype Caller = Caller(fp: int, sp: int, nrLocals: nat)

  /** The extent of the stack, and the frames on it below the current one, outermost first. */
  datatype Callers = Callers(bottom: int, top: int, frames: seq<Caller>)

  /** The home of half of one of the caller's locals. */
  predicate IsHome(c: Caller, a: int) {
    exists p :: 0 <= p < 2 * c.nrLocals && a == c.fp + Frame.HomeOffset(p)
  }

  /** A home that is above what its callee pushes, since sp was at or below it. */
  predicate Stands(c: Caller, a: int) {
    a >= c.sp && IsHome(c, a)
  }

  predicate HomeIn(cs: Callers, a: int) {
    exists k :: 0 <= k < |cs.frames| && IsHome(cs.frames[k], a)
  }

  predicate StandingIn(cs: Callers, a: int) {
    exists k :: 0 <= k < |cs.frames| && Stands(cs.frames[k], a)
  }

  /** One of the words a waiting frame has saved: closure, fp and return address. */
  predicate SavedIn(cs: Callers, isRa: bool, a: int) {
    exists k :: 0 <= k < |cs.frames| && cs.frames[k].fp - 4 <= a < cs.frames[k].fp - 4 + SavedBytes(isRa)
  }

  /** The frames lie one below the other on the stack, all of them at or above low. */
  predicate Nested(cs: Callers, isRa: bool, low: int) {
    && cs.bottom <= low <= cs.top
    && (forall k :: 0 <= k < |cs.frames| ==>
          low <= cs.frames[k].sp <= cs.frames[k].fp - 4 && cs.frames[k].fp - 4 + SavedBytes(isRa) <= cs.top)
    && (forall j, k :: 0 <= j < k < |cs.frames| ==> cs.frames[k].fp - 4 + SavedBytes(isRa) <= cs.frames[j].sp)
  }

  /** The current frame calls. */
  function Push(t: Target, cs: Callers, nrLocals: nat, x: Data): Callers {
    cs.(frames := cs.frames + [Caller(R(x, t.fp), R(x, t.sp), nrLocals)])
  }

  lemma StandingAbove(cs: Callers, isRa: bool, low: int, a: int)
    requires Nested(cs, isRa, low) && StandingIn(cs, a)
    ensures a >= low
  {
  }

  /** No standing home of any frame is a saved word of any frame. */
  lemma StandingNotSaved(cs: Callers, isRa: bool, low: int, a: int)
    requires Nested(cs, isRa, low) && SavedIn(cs, isRa, a)
    ensures !StandingIn(cs, a) && low <= a < cs.top
  {
    var j :| 0 <= j < |cs.frames| && cs.frames[j].fp - 4 <= a < cs.frames[j].fp - 4 + SavedBytes(isRa);
    forall k | 0 <= k < |cs.frames|
      ensures !Stands(cs.frames[k], a)
    {
      if j < k {
        assert cs.frames[k].fp - 4 + SavedBytes(isRa) <= cs.frames[j].sp;
      } else if k < j {
        assert cs.frames[j].fp - 4 + SavedBytes(isRa) <= cs.frames[k].sp;
      }
    }
  }

  /** All homes of the frame stand. */
  predicate Covered(c: Caller) {
    c.sp <= c.fp - 4 - 8 * c.nrLocals
  }

  /** Each frame was entered right at its caller's sp, by whole words. */
  predicate Chained(cs: Callers, isRa: bool) {
    && (forall k :: 0 <= k < |cs.frames| ==> (cs.frames[k].fp - cs.frames[k].sp) % 4 == 0)
    && (forall k :: 0 <= k < |cs.frames| - 1 ==> cs.frames[k + 1].fp - 4 + SavedBytes(isRa) == cs.frames[k].sp)
  }

  lemma UnderSpIsHome(c: Caller)
    requires c.sp <= c.fp - 4 && (c.fp - c.sp) % 4 == 0 && !Covered(c)
    ensures IsHome(c, c.sp - 4)
  {
    var p := (c.fp - c.sp - 4) / 4;
    assert c.sp - 4 == c.fp + Frame.HomeOffset(p);
  }

  lemma CoveredStands(c: Caller, a: int)
    requires Covered(c) && IsHome(c, a)
    ensures Stands(c, a)
  {
  }

  /**
   No home of any frame is a saved word of any frame, if and only if every frame that another was
   called from had sp at or below its lowest home.
   */
  lemma HomesNotSavedIff(cs: Callers, isRa: bool, low: int)
    requires Nested(cs, isRa, low) && Chained(cs, isRa)
    ensures (forall a :: SavedIn(cs, isRa, a) ==> !HomeIn(cs, a)) <==> forall k :: 0 <= k < |cs.frames| - 1 ==> Covered(cs.frames[k])
  {
    if forall k :: 0 <= k < |cs.frames| - 1 ==> Covered(cs.frames[k]) {
      forall a | SavedIn(cs, isRa, a)
        ensures !HomeIn(cs, a)
      {
        SavedNotHome(cs, isRa, low, a);
      }
    } else {
      var k :| 0 <= k < |cs.frames| - 1 && !Covered(cs.frames[k]);
      UnderSpIsHome(cs.frames[k]);
      var a := cs.frames[k].sp - 4;
      assert cs.frames[k + 1].fp - 4 <= a < cs.frames[k + 1].fp - 4 + SavedBytes(isRa);
      assert SavedIn(cs, isRa, a) && HomeIn(cs, a);
    }
  }

  lemma SavedNotHome(cs: Callers, isRa: bool, low: int, a: int)
    requires Nested(cs, isRa, low) && SavedIn(cs, isRa, a) && forall k :: 0 <= k < |cs.frames| - 1 ==> Covered(cs.frames[k])
    ensures !HomeIn(cs, a)
  {
    StandingNotSaved(cs, isRa, low, a);
    var last := |cs.frames| - 1;
    forall k | 0 <= k < |cs.frames|
      ensures !IsHome(cs.frames[k], a)
    {
      if k < last {
        if IsHome(cs.frames[k], a) {
          CoveredStands(cs.frames[k], a);
        }
      } else {
        SavedAbove(cs, isRa, low, a);
      }
    }
  }

  /** Every saved word is above the homes of the innermost frame. */
  lemma SavedAbove(cs: Callers, isRa: bool, low: int, a: int)
    requires Nested(cs, isRa, low) && SavedIn(cs, isRa, a)
    ensures |cs.frames| > 0 && a >= cs.frames[|cs.frames| - 1].fp - 4
  {
    var last := |cs.frames| - 1;
    var j :| 0 <= j < |cs.frames| && cs.frames[j].fp - 4 <= a < cs.frames[j].fp - 4 + SavedBytes(isRa);
    if j < last {
      assert cs.frames[last].fp - 4 + SavedBytes(isRa) <= cs.frames[j].sp;
    }
  }

  lemma PushStanding(t: Target, cs: Callers, nrLocals: nat, x: Data, a: int)
    ensures StandingIn(Push(t, cs, nrLocals, x), a) <==> StandingIn(cs, a) || Stands(Caller(R(x, t.fp), R(x, t.sp), nrLocals), a)
  {
    var fs := Push(t, cs, nrLocals, x).frames;
    assert fs[|fs| - 1] == Caller(R(x, t.fp), R(x, t.sp), nrLocals);
    forall k | 0 <= k < |cs.frames|
      ensures fs[k] == cs.frames[k]
    {
    }
  }

  /** Where the upvalue list sees local i of a waiting frame are the homes of its two halves. */
  lemma SlotsAreHomes(c: Caller, ceil: int, i: nat)
    requires i < c.nrLocals && Cells.Slot(Cells.Fr(ceil, c.fp - 12, c.nrLocals), i) >= c.sp
    ensures var a := Cells.Slot(Cells.Fr(ceil, c.fp - 12, c.nrLocals), i); Stands(c, a) && Stands(c, a + 4)
  {
    var a := Cells.Slot(Cells.Fr(ceil, c.fp - 12, c.nrLocals), i);
    assert a == c.fp + Frame.HomeOffset(2 * i + 1) && a + 4 == c.fp + Frame.HomeOffset(2 * i);
  }

  // ----- bodies and nested calls -----

  /** What runs between prologue and epilogue, as far as stack and saved registers go. */
  datatype Body =
    | Return
    /** Write the home of a local's half. */
    | Assign(slot: nat, v: Word, rest: Body)
    /** Write through a pointer: half of an upvalue, open in an outer frame or closed, or any memory off the stack. */
    | Store(a: int, v: Word, rest: Body)
    /** Write any register but sp and fp; a call in between overwrites ra too. */
    | Scratch(r: Reg, v: Word, rest: Body)
    /** Write a word below sp, as a spilled temporary or an argument of a C call. */
    | Spill(depth: nat, v: Word, rest: Body)
    /** Move sp, as a call with a variable number of results does: top words below fp - 4. */
    | Resize(top: nat, rest: Body)
    /** Call a closure: where it returns to, its address, its frame. */
    | Invoke(link: Word, closure: Word, nrLocals: nat, callee: Body, rest: Body)

  /** The registers of a call, as the call instruction and precall set them. */
  function Passed(t: Target, link: Word, closure: Word, x: Data): Data
    requires |t.spare| >= RA_SIZE
  {
    W(W(x, t.ra, link), t.spare[RA_SRC], closure)
  }

  /** Run a body in its frame; a nested call runs its own body between entering and leaving. */
  function Run(t: Target, isRa: bool, b: Body, x: Data): Data
    requires |t.spare| >= RA_SIZE
    decreases b
  {
    match b
    case Return => x
    case Assign(slot, v, rest) => Run(t, isRa, rest, St(x, Frame.HomeAddr(t, x, slot), v))
    case Store(a, v, rest) => Run(t, isRa, rest, St(x, a, v))
    case Scratch(r, v, rest) => Run(t, isRa, rest, W(x, r, v))
    case Spill(depth, v, rest) => Run(t, isRa, rest, St(x, R(x, t.sp) - 4 * (depth + 1), v))
    case Resize(top, rest) => Run(t, isRa, rest, W(x, t.sp, Norm(R(x, t.fp) - 4 - 4 * top)))
    case Invoke(link, closure, n, callee, rest) =>
      var x1 := ExecSeq(EnterCode(t, isRa, n), Passed(t, link, closure, x));
      Run(t, isRa, rest, ExecSeq(LeaveCode(t, isRa), Run(t, isRa, callee, x1)))
  }

  /** A whole call. */
  function CallFrame(t: Target, isRa: bool, link: Word, closure: Word, nrLocals: nat, b: Body, x: Data): Data
    requires |t.spare| >= RA_SIZE
  {
    ExecSeq(LeaveCode(t, isRa), Run(t, isRa, b, ExecSeq(EnterCode(t, isRa, nrLocals), Passed(t, link, closure, x))))
  }

  /** There is stack for the frame of a call. */
  ghost predicate CallFits(t: Target, isRa: bool, bottom: int, link: Word, closure: Word, n: nat, x: Data)
    requires |t.spare| >= RA_SIZE
  {
    EnterOk(t, isRa, n, Passed(t, link, closure, x)) && R(x, t.sp) - SavedBytes(isRa) >= bottom
  }

  /**
   Locals are the frame's own, pointers lead to standing homes or off the stack, sp and
   fp are not scratch, and the stack does not run out.
   */
  ghost predicate Runnable(t: Target, isRa: bool, cs: Callers, nrLocals: nat, b: Body, x: Data)
    requires |t.spare| >= RA_SIZE
    decreases b
  {
    match b
    case Return => true
    case Assign(slot, v, rest) => slot < 2 * nrLocals && Runnable(t, isRa, cs, nrLocals, rest, St(x, Frame.HomeAddr(t, x, slot), v))
    case Store(a, v, rest) =>
      (StandingIn(cs, a) || a < cs.bottom || a >= cs.top) && Runnable(t, isRa, cs, nrLocals, rest, St(x, a, v))
    case Scratch(r, v, rest) => r != t.sp && r != t.fp && Runnable(t, isRa, cs, nrLocals, rest, W(x, r, v))
    case Spill(depth, v, rest) => Runnable(t, isRa, cs, nrLocals, rest, St(x, R(x, t.sp) - 4 * (depth + 1), v))
    case Resize(top, rest) =>
      R(x, t.fp) - 4 - 4 * top >= -0x8000_0000 && Runnable(t, isRa, cs, nrLocals, rest, W(x, t.sp, Norm(R(x, t.fp) - 4 - 4 * top)))
    case Invoke(link, closure, n, callee, rest) =>
      var x1 := ExecSeq(EnterCode(t, isRa, n), Passed(t, link, closure, x));
      && CallFits(t, isRa, cs.bottom, link, closure, n, x) && Runnable(t, isRa, Push(t, cs, nrLocals, x), n, callee, x1)
      && Runnable(t, isRa, cs, nrLocals, rest, ExecSeq(LeaveCode(t, isRa), Run(t, isRa, callee, x1)))
  }

  /** The current frame is under the waiting ones, sp under its saved words. */
  ghost predicate InFrame(t: Target, isRa: bool, cs: Callers, x: Data) {
    && R(x, t.sp) <= R(x, t.fp) - 4 && cs.bottom <= R(x, t.fp) - 4
    && Nested(cs, isRa, R(x, t.fp) - 4 + SavedBytes(isRa))
  }

  /**
   What a body owes its frame: fp stays, sp stays under the saved words, and from these up
   nothing on the stack changes but standing homes of waiting frames' locals.
   */
  ghost predicate FrameKept(t: Target, cs: Callers, x: Data, y: Data) {
    && R(y, t.fp) == R(x, t.fp) && R(y, t.sp) <= R(x, t.fp) - 4
    && forall a :: R(x, t.fp) - 4 <= a < cs.top && !StandingIn(cs, a) ==> Ld(y, a) == Ld(x, a)
  }

  /**
   What a call gives its caller, the last of cs: sp, fp and return address as they were, the
   closure as destination, and its stack as it was but for standing homes of locals.
   */
  ghost predicate CallKept(t: Target, isRa: bool, cs: Callers, link: Word, closure: Word, x: Data, y: Data)
    requires |t.spare| >= RA_SIZE
  {
    && R(y, t.sp) == R(x, t.sp) && R(y, t.fp) == R(x, t.fp) && (isRa ==> R(y, t.ra) == link)
    && R(y, t.spare[RA_DST]) == closure
    && forall a :: R(x, t.sp) <= a < cs.top && !StandingIn(cs, a) ==> Ld(y, a) == Ld(x, a)
  }

  lemma PassedShape(t: Target, link: Word, closure: Word, x: Data)
    requires Passes(t)
    ensures var y := Passed(t, link, closure, x);
            && R(y, t.sp) == R(x, t.sp) && R(y, t.fp) == R(x, t.fp) && R(y, t.ra) == link
            && R(y, t.spare[RA_SRC]) == closure && y.mem == x.mem
  {
    SpareApart(t);
  }

  /** Words under every waiting frame are none of their standing homes. */
  lemma NotStanding(cs: Callers, isRa: bool, low: int, a: int)
    requires Nested(cs, isRa, low) && a < low
    ensures !StandingIn(cs, a) && a < cs.top
  {
    if StandingIn(cs, a) {
      StandingAbove(cs, isRa, low, a);
    }
  }

  /** A body that keeps the frame keeps its saved words. */
  lemma SavedStay(t: Target, isRa: bool, cs: Callers, x: Data, z: Data)
    requires InFrame(t, isRa, cs, x) && FrameKept(t, cs, x, z)
    ensures var fp: int := R(x, t.fp);
            Ld(z, fp - 4) == Ld(x, fp - 4) && Ld(z, fp) == Ld(x, fp) && (isRa ==> Ld(z, fp + 4) == Ld(x, fp + 4))
  {
    hide StandingIn, Nested;
    var fp: int := R(x, t.fp);
    var low := fp - 4 + SavedBytes(isRa);
    NotStanding(cs, isRa, low, fp - 4);
    NotStanding(cs, isRa, low, fp);
    if isRa {
      NotStanding(cs, isRa, low, fp + 4);
    }
  }

  /** Entering puts the new frame right under the caller. */
  lemma EnteredInFrame(t: Target, isRa: bool, cs: Callers, n: nat, x: Data, y: Data)
    requires |t.spare| >= RA_SIZE && Entered(t, isRa, n, x, y) && Nested(cs, isRa, R(x, t.sp)) && R(x, t.sp) - SavedBytes(isRa) >= cs.bottom
    ensures InFrame(t, isRa, cs, y)
  {
    hide Nested, FrameWords;
  }

  /** Entering, a body that keeps the frame, and leaving: the caller gets back what it had. */
  lemma CallReturns(t: Target, isRa: bool, cs: Callers, link: Word, closure: Word, nrLocals: nat, x: Data, z: Data)
    requires Passes(t) && CallFits(t, isRa, cs.bottom, link, closure, nrLocals, x) && Nested(cs, isRa, R(x, t.sp))
    requires FrameKept(t, cs, ExecSeq(EnterCode(t, isRa, nrLocals), Passed(t, link, closure, x)), z)
    ensures CallKept(t, isRa, cs, link, closure, x, ExecSeq(LeaveCode(t, isRa), z))
  {
    hide ExecSeq, EnterCode, LeaveCode, Passed, StandingIn, Nested;
    PassedShape(t, link, closure, x);
    var x0 := Passed(t, link, closure, x);
    EnterEnters(t, isRa, nrLocals, x0);
    LeaveLeaves(t, isRa, z);
    var x1, y := ExecSeq(EnterCode(t, isRa, nrLocals), x0), ExecSeq(LeaveCode(t, isRa), z);
    EnteredInFrame(t, isRa, cs, nrLocals, x0, x1);
    SavedStay(t, isRa, cs, x1, z);
    forall a | R(x, t.sp) <= a < cs.top && !StandingIn(cs, a)
      ensures Ld(y, a) == Ld(x, a)
    {
      assert Ld(z, a) == Ld(x1, a) == Ld(x0, a);
    }
  }

  lemma KeptTrans(t: Target, cs: Callers, x: Data, y: Data, z: Data)
    requires FrameKept(t, cs, x, y) && FrameKept(t, cs, y, z)
    ensures FrameKept(t, cs, x, z)
  {
    hide StandingIn;
  }

  lemma StoreKept(t: Target, isRa: bool, cs: Callers, x: Data, a: int, v: Word)
    requires InFrame(t, isRa, cs, x) && (a < R(x, t.fp) - 4 || StandingIn(cs, a) || a >= cs.top)
    ensures FrameKept(t, cs, x, St(x, a, v)) && InFrame(t, isRa, cs, St(x, a, v))
  {
    hide StandingIn, Nested;
  }

  /** The caller joins the waiting frames, right above its callee. */
  lemma PushNested(t: Target, isRa: bool, cs: Callers, nrLocals: nat, x: Data)
    requires InFrame(t, isRa, cs, x) && R(x, t.sp) >= cs.bottom
    ensures Nested(Push(t, cs, nrLocals, x), isRa, R(x, t.sp))
  {
  }

  /** Every body keeps its frame, whatever it calls and whichever upvalues it writes. */
  lemma {:induction false} BodyKeeps(t: Target, isRa: bool, cs: Callers, nrLocals: nat, b: Body, x: Data)
    requires Passes(t) && Runnable(t, isRa, cs, nrLocals, b, x) && InFrame(t, isRa, cs, x)
    ensures FrameKept(t, cs, x, Run(t, isRa, b, x))
    decreases b
  {
    hide ExecSeq, EnterCode, LeaveCode, Norm, FrameKept, CallKept, CallFits, StandingIn, InFrame, Nested, Push;
    match b {
      case Return => KeptSelf(t, isRa, cs, x);
      case Assign(slot, v, rest) =>
        StoreHome(t, isRa, cs, x, slot, v);
        var x1 := St(x, Frame.HomeAddr(t, x, slot), v);
        BodyKeeps(t, isRa, cs, nrLocals, rest, x1);
        KeptTrans(t, cs, x, x1, Run(t, isRa, rest, x1));
      case Store(a, v, rest) =>
        StoreOut(t, isRa, cs, x, a, v);
        var x1 := St(x, a, v);
        BodyKeeps(t, isRa, cs, nrLocals, rest, x1);
        KeptTrans(t, cs, x, x1, Run(t, isRa, rest, x1));
      case Scratch(r, v, rest) =>
        var x1 := W(x, r, v);
        ScratchKept(t, isRa, cs, x, r, v);
        BodyKeeps(t, isRa, cs, nrLocals, rest, x1);
        KeptTrans(t, cs, x, x1, Run(t, isRa, rest, x1));
      case Spill(depth, v, rest) =>
        StoreBelow(t, isRa, cs, x, depth, v);
        var x1 := St(x, R(x, t.sp) - 4 * (depth + 1), v);
        BodyKeeps(t, isRa, cs, nrLocals, rest, x1);
        KeptTrans(t, cs, x, x1, Run(t, isRa, rest, x1));
      case Resize(top, rest) =>
        var x1 := W(x, t.sp, Norm(R(x, t.fp) - 4 - 4 * top));
        ResizeKept(t, isRa, cs, x, top);
        BodyKeeps(t, isRa, cs, nrLocals, rest, x1);
        KeptTrans(t, cs, x, x1, Run(t, isRa, rest, x1));
      case Invoke(link, closure, n, callee, rest) =>
        var cs' := Push(t, cs, nrLocals, x);
        var x1 := ExecSeq(EnterCode(t, isRa, n), Passed(t, link, closure, x));
        CalleeInFrame(t, isRa, cs, nrLocals, link, closure, n, x);
        BodyKeeps(t, isRa, cs', n, callee, x1);
        var z := Run(t, isRa, callee, x1);
        CallReturns(t, isRa, cs', link, closure, n, x, z);
        var x2 := ExecSeq(LeaveCode(t, isRa), z);
        CallIsKept(t, isRa, cs, nrLocals, link, closure, x, x2);
        BodyKeeps(t, isRa, cs, nrLocals, rest, x2);
        KeptTrans(t, cs, x, x2, Run(t, isRa, rest, x2));
    }
  }

  lemma StoreHome(t: Target, isRa: bool, cs: Callers, x: Data, slot: nat, v: Word)
    requires InFrame(t, isRa, cs, x)
    ensures var y := St(x, Frame.HomeAddr(t, x, slot), v); FrameKept(t, cs, x, y) && InFrame(t, isRa, cs, y)
  {
    StoreKept(t, isRa, cs, x, Frame.HomeAddr(t, x, slot), v);
  }

  lemma StoreOut(t: Target, isRa: bool, cs: Callers, x: Data, a: int, v: Word)
    requires InFrame(t, isRa, cs, x) && (StandingIn(cs, a) || a < cs.bottom || a >= cs.top)
    ensures FrameKept(t, cs, x, St(x, a, v)) && InFrame(t, isRa, cs, St(x, a, v))
  {
    StoreKept(t, isRa, cs, x, a, v);
  }

  lemma StoreBelow(t: Target, isRa: bool, cs: Callers, x: Data, depth: nat, v: Word)
    requires InFrame(t, isRa, cs, x)
    ensures var y := St(x, R(x, t.sp) - 4 * (depth + 1), v); FrameKept(t, cs, x, y) && InFrame(t, isRa, cs, y)
  {
    StoreKept(t, isRa, cs, x, R(x, t.sp) - 4 * (depth + 1), v);
  }

  lemma CalleeInFrame(t: Target, isRa: bool, cs: Callers, nrLocals: nat, link: Word, closure: Word, n: nat, x: Data)
    requires Passes(t) && InFrame(t, isRa, cs, x) && CallFits(t, isRa, cs.bottom, link, closure, n, x)
    ensures var cs' := Push(t, cs, nrLocals, x);
            && Nested(cs', isRa, R(x, t.sp)) && CallFits(t, isRa, cs'.bottom, link, closure, n, x)
            && InFrame(t, isRa, cs', ExecSeq(EnterCode(t, isRa, n), Passed(t, link, closure, x)))
  {
    hide ExecSeq, EnterCode, Passed, Nested, EnterOk;
    PassedShape(t, link, closure, x);
    var x0 := Passed(t, link, closure, x);
    PushNested(t, isRa, cs, nrLocals, x);
    EnterEnters(t, isRa, n, x0);
    EnteredInFrame(t, isRa, Push(t, cs, nrLocals, x), n, x0, ExecSeq(EnterCode(t, isRa, n), x0));
  }

  lemma KeptSelf(t: Target, isRa: bool, cs: Callers, x: Data)
    requires InFrame(t, isRa, cs, x)
    ensures FrameKept(t, cs, x, x)
  {
    hide StandingIn, Nested;
  }

  lemma ScratchKept(t: Target, isRa: bool, cs: Callers, x: Data, r: Reg, v: Word)
    requires InFrame(t, isRa, cs, x) && r != t.sp && r != t.fp
    ensures FrameKept(t, cs, x, W(x, r, v)) && InFrame(t, isRa, cs, W(x, r, v))
  {
    hide StandingIn, Nested;
  }

  lemma ResizeKept(t: Target, isRa: bool, cs: Callers, x: Data, top: nat)
    requires t.Valid() && InFrame(t, isRa, cs, x) && R(x, t.fp) - 4 - 4 * top >= -0x8000_0000
    ensures var y := W(x, t.sp, Norm(R(x, t.fp) - 4 - 4 * top));
            FrameKept(t, cs, x, y) && InFrame(t, isRa, cs, y)
  {
    hide StandingIn, Nested;
    NormWord(R(x, t.fp) - 4 - 4 * top);
  }

  lemma CallIsKept(t: Target, isRa: bool, cs: Callers, nrLocals: nat, link: Word, closure: Word, x: Data, y: Data)
    requires |t.spare| >= RA_SIZE && CallKept(t, isRa, Push(t, cs, nrLocals, x), link, closure, x, y) && InFrame(t, isRa, cs, x)
    ensures FrameKept(t, cs, x, y) && InFrame(t, isRa, cs, y)
  {
    hide StandingIn, Nested;
    forall a | R(x, t.fp) - 4 <= a < cs.top && !StandingIn(cs, a)
      ensures Ld(y, a) == Ld(x, a)
    {
      PushStanding(t, cs, nrLocals, x, a);
    }
  }

  /**
   The stack discipline: a call of any closure, with calls nested in it to any depth and writes
   through open upvalues in any of them, returns with sp, fp and ra exactly as they were and the
   closure's address as result destination. On the callers' stack nothing has changed but
   standing homes of their locals, so every word that any of them saved is intact.
   */
  lemma CallDiscipline(t: Target, isRa: bool, cs: Callers, link: Word, closure: Word, nrLocals: nat, b: Body, x: Data)
    requires Passes(t) && CallFits(t, isRa, cs.bottom, link, closure, nrLocals, x) && Nested(cs, isRa, R(x, t.sp))
    requires Runnable(t, isRa, cs, nrLocals, b, ExecSeq(EnterCode(t, isRa, nrLocals), Passed(t, link, closure, x)))
    ensures var y := CallFrame(t, isRa, link, closure, nrLocals, b, x);
            && CallKept(t, isRa, cs, link, closure, x, y)
            && forall a :: SavedIn(cs, isRa, a) ==> Ld(y, a) == Ld(x, a)
  {
    hide ExecSeq, EnterCode, LeaveCode, Run, Runnable, FrameKept, StandingIn, SavedIn, Nested, Passed, EnterOk;
    PassedShape(t, link, closure, x);
    var x0 := Passed(t, link, closure, x);
    var x1 := ExecSeq(EnterCode(t, isRa, nrLocals), x0);
    EnterEnters(t, isRa, nrLocals, x0);
    EnteredInFrame(t, isRa, cs, nrLocals, x0, x1);
    BodyKeeps(t, isRa, cs, nrLocals, b, x1);
    CallReturns(t, isRa, cs, link, closure, nrLocals, x, Run(t, isRa, b, x1));
    forall a | SavedIn(cs, isRa, a)
      ensures Ld(CallFrame(t, isRa, link, closure, nrLocals, b, x), a) == Ld(x, a)
    {
      StandingNotSaved(cs, isRa, R(x, t.sp), a);
    }
  }

  /** And homes do change: a callee that writes an open upvalue has written its caller's local. */
  lemma UpvalueWritten(t: Target, isRa: bool, cs: Callers, link: Word, closure: Word, nrLocals: nat, a: int, v: Word, x: Data)
    requires Passes(t) && CallFits(t, isRa, cs.bottom, link, closure, nrLocals, x) && StandingIn(cs, a)
    ensures Runnable(t, isRa, cs, nrLocals, Store(a, v, Return), ExecSeq(EnterCode(t, isRa, nrLocals), Passed(t, link, closure, x)))
    ensures Ld(CallFrame(t, isRa, link, closure, nrLocals, Store(a, v, Return), x), a) == v
  {
    hide ExecSeq, EnterCode, LeaveCode, StandingIn, Passed;
    PassedShape(t, link, closure, x);
    var x0 := Passed(t, link, closure, x);
    var x1 := ExecSeq(EnterCode(t, isRa, nrLocals), x0);
    EnterEnters(t, isRa, nrLocals, x0);
    LeaveLeaves(t, isRa, St(x1, a, v));
    assert Run(t, isRa, Store(a, v, Return), x1) == St(x1, a, v);
  }

  /**
   Closing on return: all through the body the word under the saved fp is the address of the
   called closure's slot, which is where the epilogue closes upvalues from.
   */
  lemma ClosesFromCallee(t: Target, isRa: bool, cs: Callers, link: Word, closure: Word, nrLocals: nat, b: Body, x: Data)
    requires Passes(t) && CallFits(t, isRa, cs.bottom, link, closure, nrLocals, x) && Nested(cs, isRa, R(x, t.sp))
    requires Runnable(t, isRa, cs, nrLocals, b, ExecSeq(EnterCode(t, isRa, nrLocals), Passed(t, link, closure, x)))
    ensures var z := Run(t, isRa, b, ExecSeq(EnterCode(t, isRa, nrLocals), Passed(t, link, closure, x)));
            Ld(z, R(z, t.fp) - 4) == closure
  {
    hide ExecSeq, EnterCode, LeaveCode, Run, Runnable, Passed, Nested, StandingIn, EnterOk;
    PassedShape(t, link, closure, x);
    var x0 := Passed(t, link, closure, x);
    var x1 := ExecSeq(EnterCode(t, isRa, nrLocals), x0);
    EnterEnters(t, isRa, nrLocals, x0);
    EnteredInFrame(t, isRa, cs, nrLocals, x0, x1);
    BodyKeeps(t, isRa, cs, nrLocals, b, x1);
    SavedStay(t, isRa, cs, x1, Run(t, isRa, b, x1));
  }

  /** What the callee has of the stack when it starts: its saved words and its locals. */
  predicate InCallee(t: Target, x: Data, y: Data, a: int) {
    R(y, t.sp) <= a < R(x, t.sp)
  }

  /**
   The frames of a caller and its callee, as the upvalue list sees them. Of the caller's locals
   exactly those below the called register are above the address the callee closes from. The
   callee's frame meets none of the caller's homes if and only if sp was at or below the lowest
   of them, and then its locals lie below the caller's and below that address.
   */
  lemma FramesNestIff(t: Target, isRa: bool, n: nat, x: Data, y: Data, nrLocals: nat, vregBase: nat)
    requires |t.spare| >= RA_SIZE && Entered(t, isRa, n, x, y)
    requires R(x, t.sp) <= R(x, t.fp) - 4 && (R(x, t.fp) - R(x, t.sp)) % 4 == 0 && vregBase < nrLocals
    requires R(x, t.spare[RA_SRC]) == Frame.HomeAddr(t, x, 2 * vregBase)
    ensures var c := Caller(R(x, t.fp), R(x, t.sp), nrLocals);
            var caller := Cells.Fr(R(x, t.fp), R(x, t.fp) - 12, nrLocals);
            var callee := Cells.Fr(R(x, t.spare[RA_SRC]), R(y, t.fp) - 12, n);
            && ((forall a :: InCallee(t, x, y, a) ==> !IsHome(c, a)) <==> Covered(c))
            && (callee.base <= Cells.Low(caller) <==> R(x, t.sp) <= R(x, t.fp) - 4 - 8 * nrLocals + SavedBytes(isRa))
            && (Covered(c) ==> callee.base <= Cells.Low(caller) && callee.base <= callee.ceil)
            && forall i :: 0 <= i < nrLocals ==> (Cells.Slot(caller, i) > callee.ceil <==> i < vregBase)
  {
    var c := Caller(R(x, t.fp), R(x, t.sp), nrLocals);
    if Covered(c) {
      forall a | InCallee(t, x, y, a)
        ensures !IsHome(c, a)
      {
        if IsHome(c, a) {
          CoveredStands(c, a);
        }
      }
    } else {
      UnderSpIsHome(c);
      assert InCallee(t, x, y, c.sp - 4);
    }
  }
}

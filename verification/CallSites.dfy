/**
 A call as its caller sees it: every local that lives in a register is stored to its home before
 and loaded back after. What that is worth depends on where sp is: a call for a variable number
 of results leaves sp under the last of them, and nothing puts it back under the frame.
 */
module CallSites {
  import opened Words
  import opened Mips
  import opened Target
  import opened Saves
  import opened Calls
  import opened Counts
  import opened CopyLoop
  import opened CopyRun
  import Frame

  /** The frame about to call, with nrLocals locals. */
  function Here(t: Target, nrLocals: nat, x: Data): Caller {
    Caller(R(x, t.fp), R(x, t.sp), nrLocals)
  }

  /** Every home of the frame holds the same word in both states. */
  ghost predicate HomesSpared(t: Target, nrLocals: nat, x: Data, y: Data) {
    forall p :: 0 <= p < 2 * nrLocals ==> Ld(y, Frame.HomeAddr(t, x, p)) == Ld(x, Frame.HomeAddr(t, x, p))
  }

  /** Every local half is back: in its register, or in its home if registers have run out. */
  ghost predicate LocalsBack(t: Target, nrLocals: nat, x: Data, y: Data) {
    forall p :: 0 <= p < 2 * nrLocals ==> LocalBack(t, x, y, p)
  }

  ghost predicate LocalBack(t: Target, x: Data, y: Data, p: nat) {
    if p < |t.spare| then R(y, t.spare[p]) == R(x, t.spare[p]) else Ld(y, Frame.HomeAddr(t, x, p)) == Ld(x, Frame.HomeAddr(t, x, p))
  }

  /** Store the locals, call, load the locals. */
  function CallSite(t: Target, isRa: bool, nrLocals: nat, link: Word, closure: Word, n: nat, b: Body, x: Data): Data
    requires |t.spare| >= RA_SIZE
  {
    ExecSeq(XFrame(t, false, false, nrLocals), CallFrame(t, isRa, link, closure, n, b, ExecSeq(XFrame(t, true, false, nrLocals), x)))
  }

  // ----- where sp is at or below the lowest home -----

  lemma HomeOfHere(t: Target, nrLocals: nat, x: Data, p: nat)
    requires p < 2 * nrLocals
    ensures Calls.IsHome(Here(t, nrLocals, x), Frame.HomeAddr(t, x, p)) && Frame.HomeAddr(t, x, p) < R(x, t.fp) - 4
  {
  }

  /** A call spares all homes of its caller but those that are written through upvalues. */
  lemma CallSparesHomes(t: Target, isRa: bool, cs: Callers, nrLocals: nat, link: Word, closure: Word, n: nat, b: Body, x: Data)
    requires Passes(t) && InFrame(t, isRa, cs, x) && Covered(Here(t, nrLocals, x)) && CallFits(t, isRa, cs.bottom, link, closure, n, x)
    requires Runnable(t, isRa, cs, n, b, ExecSeq(EnterCode(t, isRa, n), Passed(t, link, closure, x)))
    ensures var y := CallFrame(t, isRa, link, closure, n, b, x);
            && HomesSpared(t, nrLocals, x, y) && R(y, t.fp) == R(x, t.fp) && R(y, t.sp) == R(x, t.sp)
  {
    hide ExecSeq, EnterCode, CallFrame, Passed, Runnable, CallFits, SavedIn, StandingIn, Nested, Calls.IsHome;
    WithoutPush(t, isRa, cs, x, link, closure, n);
    CallDiscipline(t, isRa, cs, link, closure, n, b, x);
    var y := CallFrame(t, isRa, link, closure, n, b, x);
    forall p | 0 <= p < 2 * nrLocals
      ensures Ld(y, Frame.HomeAddr(t, x, p)) == Ld(x, Frame.HomeAddr(t, x, p))
    {
      HomeOfHere(t, nrLocals, x, p);
      CoveredStands(Here(t, nrLocals, x), Frame.HomeAddr(t, x, p));
      NotStanding(cs, isRa, R(x, t.fp) - 4 + SavedBytes(isRa), Frame.HomeAddr(t, x, p));
    }
  }

  /** The waiting frames are above a call from the frame under them. */
  lemma WithoutPush(t: Target, isRa: bool, cs: Callers, x: Data, link: Word, closure: Word, n: nat)
    requires |t.spare| >= RA_SIZE && InFrame(t, isRa, cs, x) && CallFits(t, isRa, cs.bottom, link, closure, n, x)
    ensures Nested(cs, isRa, R(x, t.sp))
  {
  }

  /** What is in the register halves of homes after storing is loaded back. */
  lemma StoredHomes(t: Target, nrLocals: nat, x: Data, p: nat)
    requires HomesOk(t, x) && p < 2 * nrLocals
    ensures var x1 := ExecSeq(XFrame(t, true, false, nrLocals), x);
            && x1.regs == x.regs
            && Ld(x1, Frame.HomeAddr(t, x, p)) == if p < |t.spare| then R(x, t.spare[p]) else Ld(x, Frame.HomeAddr(t, x, p))
  {
    hide ExecSeq, XFrame, Ld;
    SaveStores(t, false, nrLocals, x);
    if p < |t.spare| {
      assert Picked(t, false, p);
    } else {
      NoHomePast(t, nrLocals, x, p);
    }
  }

  lemma NoHomePast(t: Target, nrLocals: nat, x: Data, p: nat)
    requires p >= |t.spare|
    ensures !Saves.IsHome(t, false, nrLocals, x, Frame.HomeAddr(t, x, p))
  {
  }

  lemma LoadedHomes(t: Target, nrLocals: nat, x: Data, p: nat)
    requires HomesOk(t, x) && p < 2 * nrLocals
    ensures var z := ExecSeq(XFrame(t, false, false, nrLocals), x);
            && Ld(z, Frame.HomeAddr(t, x, p)) == Ld(x, Frame.HomeAddr(t, x, p))
            && (p < |t.spare| ==> R(z, t.spare[p]) == Ld(x, Frame.HomeAddr(t, x, p)))
  {
    hide ExecSeq, XFrame;
    LoadRestores(t, false, nrLocals, x);
    if p < |t.spare| {
      assert Picked(t, false, p);
    }
  }

  lemma SameFp(t: Target, x: Data, y: Data)
    requires HomesOk(t, x) && R(y, t.fp) == R(x, t.fp)
    ensures HomesOk(t, y) && forall p: nat :: Frame.HomeAddr(t, y, p) == Frame.HomeAddr(t, x, p)
  {
  }

  /** Homes spared in between, the locals are back. */
  lemma SparedBack(t: Target, nrLocals: nat, x: Data, y: Data)
    requires HomesOk(t, x) && R(y, t.fp) == R(x, t.fp)
    requires HomesSpared(t, nrLocals, ExecSeq(XFrame(t, true, false, nrLocals), x), y)
    ensures LocalsBack(t, nrLocals, x, ExecSeq(XFrame(t, false, false, nrLocals), y))
  {
    hide ExecSeq, XFrame, Ld, HomesOk, Picked;
    SameFp(t, x, y);
    SaveStores(t, false, nrLocals, x);
    SameFp(t, x, ExecSeq(XFrame(t, true, false, nrLocals), x));
    forall p | 0 <= p < 2 * nrLocals
      ensures LocalBack(t, x, ExecSeq(XFrame(t, false, false, nrLocals), y), p)
    {
      StoredHomes(t, nrLocals, x, p);
      LoadedHomes(t, nrLocals, y, p);
      assert Ld(y, Frame.HomeAddr(t, x, p)) == Ld(ExecSeq(XFrame(t, true, false, nrLocals), x), Frame.HomeAddr(t, x, p));
    }
  }

  /**
   With sp at or below the lowest home, a call of any closure gives every local back, in
   registers and in memory, and sp and fp, when nothing in it writes them as upvalues.
   */
  lemma CallGivesBack(t: Target, isRa: bool, cs: Callers, nrLocals: nat, link: Word, closure: Word, n: nat, b: Body, x: Data)
    requires Passes(t) && HomesOk(t, x) && InFrame(t, isRa, cs, x) && Covered(Here(t, nrLocals, x))
    requires var x1 := ExecSeq(XFrame(t, true, false, nrLocals), x);
             && CallFits(t, isRa, cs.bottom, link, closure, n, x1)
             && Runnable(t, isRa, cs, n, b, ExecSeq(EnterCode(t, isRa, n), Passed(t, link, closure, x1)))
    ensures var z := CallSite(t, isRa, nrLocals, link, closure, n, b, x); LocalsBack(t, nrLocals, x, z) && R(z, t.fp) == R(x, t.fp)
  {
    hide ExecSeq, XFrame, EnterCode, CallFrame, Passed, Runnable, CallFits, HomesOk, HomesSpared, Picked, LocalsBack;
    var x1 := ExecSeq(XFrame(t, true, false, nrLocals), x);
    SaveStores(t, false, nrLocals, x);
    CallSparesHomes(t, isRa, cs, nrLocals, link, closure, n, b, x1);
    var y := CallFrame(t, isRa, link, closure, n, b, x1);
    SameFp(t, x, y);
    SparedBack(t, nrLocals, x, y);
    FpStays(t, nrLocals, y);
  }

  lemma FpStays(t: Target, nrLocals: nat, y: Data)
    requires HomesOk(t, y)
    ensures R(ExecSeq(XFrame(t, false, false, nrLocals), y), t.fp) == R(y, t.fp)
  {
    hide ExecSeq, XFrame;
    LoadRestores(t, false, nrLocals, y);
    SpecialsNotTemps(t);
  }

  // ----- with the results of the call -----

  /** The call returned to: the number expected, the link of the copying call. */
  function Expecting(t: Target, wanted: Word, link: Word, y: Data): Data
    requires |t.spare| >= RA_SIZE
  {
    W(W(y, t.spare[RA_EXPECT], wanted), t.ra, link)
  }

  /** Every half of the c locals from base on is a half of a result, c values from src down in y; every other half is back. */
  ghost predicate Delivered(t: Target, nrLocals: nat, base: nat, c: nat, src: int, x: Data, y: Data, z: Data) {
    forall p :: 0 <= p < 2 * nrLocals ==> HalfDelivered(t, base, c, src, x, y, z, p)
  }

  ghost predicate HalfDelivered(t: Target, base: nat, c: nat, src: int, x: Data, y: Data, z: Data, p: nat) {
    if 2 * base <= p < 2 * (base + c) then HalfIs(t, x, z, p, Ld(y, src - 4 * (p - 2 * base))) else LocalBack(t, x, z, p)
  }

  ghost predicate HalfIs(t: Target, x: Data, z: Data, p: nat, v: Word) {
    if p < |t.spare| then R(z, t.spare[p]) == v else Ld(z, Frame.HomeAddr(t, x, p)) == v
  }

  lemma ExpectingKeeps(t: Target, wanted: Word, link: Word, y: Data)
    requires Passes(t)
    ensures var y1 := Expecting(t, wanted, link, y);
            && R(y1, t.fp) == R(y, t.fp) && R(y1, t.spare[RA_DST]) == R(y, t.spare[RA_DST]) && R(y1, t.spare[RA_SRC]) == R(y, t.spare[RA_SRC])
            && forall a :: Ld(y1, a) == Ld(y, a)
  {
    SpareApart(t);
  }

  lemma CopyKeepsFp(t: Target, c: nat, x: Data, y: Data)
    requires Passes(t) && Copied(t, x, y, c)
    ensures R(y, t.fp) == R(x, t.fp)
  {
    hide CopyDown, MemAgrees, Ld;
    SpecialsNotTemps(t);
  }

  /** Results copied to the called register: their homes hold them, the others what they held. */
  lemma HomeAfterCopy(t: Target, base: nat, c: nat, y: Data, y1: Data, y2: Data, p: nat)
    requires Passes(t) && R(y1, t.fp) == R(y, t.fp) && Copied(t, y1, y2, c) && forall a :: Ld(y1, a) == Ld(y, a)
    requires R(y1, t.spare[RA_DST]) == Frame.HomeAddr(t, y, 2 * base) && R(y1, t.spare[RA_SRC]) <= R(y1, t.spare[RA_DST])
    requires Frame.HomeAddr(t, y, p) >= -0x8000_0000 && R(y1, t.spare[RA_DST]) - 8 * c >= -0x8000_0000
    ensures Ld(y2, Frame.HomeAddr(t, y, p)) ==
            Ld(y, if 2 * base <= p < 2 * (base + c) then R(y1, t.spare[RA_SRC]) - 4 * (p - 2 * base) else Frame.HomeAddr(t, y, p))
  {
    hide CopyDown, MemAgrees, Ld, Target.Ordinary;
    SpareApart(t);
    var a, dst := Frame.HomeAddr(t, y, p), R(y1, t.spare[RA_DST]);
    assert a == dst - 4 * (p - 2 * base);
    CopiedBlock(t, y1, y2, c, if 2 * base <= p < 2 * (base + c) then p - 2 * base else 0, a);
  }

  /**
   A whole call for a fixed number of results, with sp at or below the lowest home: the results
   end up in the locals from the called register on, and every other local is back.
   */
  lemma CallDelivers(t: Target, isRa: bool, cs: Callers, nrLocals: nat, base: nat, c: nat, link: Word, n: nat, b: Body,
                     wanted: Word, copyLink: Word, x: Data, y2: Data)
    requires Passes(t) && HomesOk(t, x) && InFrame(t, isRa, cs, x) && Covered(Here(t, nrLocals, x)) && base + c <= nrLocals
    requires R(x, t.fp) - 8 * (nrLocals + 1) >= -0x8000_0000
    requires var x1, closure := ExecSeq(XFrame(t, true, false, nrLocals), x), Frame.HomeAddr(t, x, 2 * base);
             && CallFits(t, isRa, cs.bottom, link, closure, n, x1)
             && Runnable(t, isRa, cs, n, b, ExecSeq(EnterCode(t, isRa, n), Passed(t, link, closure, x1)))
             && var y := CallFrame(t, isRa, link, closure, n, b, x1);
                Copied(t, Expecting(t, wanted, copyLink, y), y2, c) && R(y, t.spare[RA_SRC]) <= closure
    ensures var x1 := ExecSeq(XFrame(t, true, false, nrLocals), x);
            var y := CallFrame(t, isRa, link, Frame.HomeAddr(t, x, 2 * base), n, b, x1);
            Delivered(t, nrLocals, base, c, R(y, t.spare[RA_SRC]), x, y, ExecSeq(XFrame(t, false, false, nrLocals), y2))
  {
    hide ExecSeq, XFrame, EnterCode, CallFrame, Passed, Runnable, CallFits, Picked, Expecting, Copied, Ld;
    var closure: Word := Frame.HomeAddr(t, x, 2 * base);
    var x1 := ExecSeq(XFrame(t, true, false, nrLocals), x);
    SaveStores(t, false, nrLocals, x);
    CallSparesHomes(t, isRa, cs, nrLocals, link, closure, n, b, x1);
    WithoutPush(t, isRa, cs, x1, link, closure, n);
    CallDiscipline(t, isRa, cs, link, closure, n, b, x1);
    var y := CallFrame(t, isRa, link, closure, n, b, x1);
    var y1 := Expecting(t, wanted, copyLink, y);
    ExpectingKeeps(t, wanted, copyLink, y);
    CopyKeepsFp(t, c, y1, y2);
    forall p | 0 <= p < 2 * nrLocals
      ensures var v := if 2 * base <= p < 2 * (base + c) then Ld(y, R(y, t.spare[RA_SRC]) - 4 * (p - 2 * base)) else Ld(x1, Frame.HomeAddr(t, x, p));
              Ld(y2, Frame.HomeAddr(t, x, p)) == v
    {
      HomeAfterCopy(t, base, c, y, y1, y2, p);
    }
    LoadedAs(t, nrLocals, base, c, x, y, y2);
  }

  lemma LoadedAs(t: Target, nrLocals: nat, base: nat, c: nat, x: Data, y: Data, y2: Data)
    requires |t.spare| >= RA_SIZE && HomesOk(t, x) && R(y2, t.fp) == R(x, t.fp)
    requires forall p :: 0 <= p < 2 * nrLocals ==>
               Ld(y2, Frame.HomeAddr(t, x, p)) ==
               if 2 * base <= p < 2 * (base + c) then Ld(y, R(y, t.spare[RA_SRC]) - 4 * (p - 2 * base))
               else Ld(ExecSeq(XFrame(t, true, false, nrLocals), x), Frame.HomeAddr(t, x, p))
    ensures Delivered(t, nrLocals, base, c, R(y, t.spare[RA_SRC]), x, y, ExecSeq(XFrame(t, false, false, nrLocals), y2))
  {
    hide ExecSeq, XFrame, Picked, Ld, HomesOk;
    SameFp(t, x, y2);
    forall p | 0 <= p < 2 * nrLocals
      ensures HalfDelivered(t, base, c, R(y, t.spare[RA_SRC]), x, y, ExecSeq(XFrame(t, false, false, nrLocals), y2), p)
    {
      StoredHomes(t, nrLocals, x, p);
      LoadedHomes(t, nrLocals, y2, p);
    }
  }

  // ----- where it is not -----

  /** What the callee pushes is in the two words under sp, and stays there when it returns at once. */
  lemma PushedOver(t: Target, link: Word, closure: Word, n: nat, x: Data)
    requires Passes(t) && EnterOk(t, true, n, Passed(t, link, closure, x))
    ensures var y := CallFrame(t, true, link, closure, n, Return, x);
            && Ld(y, R(x, t.sp) - 4) == link && Ld(y, R(x, t.sp) - 8) == R(x, t.fp) && R(y, t.fp) == R(x, t.fp)
            && forall a :: a >= R(x, t.sp) ==> Ld(y, a) == Ld(x, a)
  {
    hide ExecSeq, EnterCode, LeaveCode, Passed, EnterOk;
    PassedShape(t, link, closure, x);
    var x0 := Passed(t, link, closure, x);
    EnterEnters(t, true, n, x0);
    EnterRange(t, n, x0);
    var x1 := ExecSeq(EnterCode(t, true, n), x0);
    LeaveLeaves(t, true, x1);
    assert Run(t, true, Return, x1) == x1;
    forall a | a >= R(x, t.sp)
      ensures Ld(CallFrame(t, true, link, closure, n, Return, x), a) == Ld(x, a)
    {
      assert Ld(x1, a) == Ld(x0, a);
    }
  }

  lemma EnterRange(t: Target, n: nat, x: Data)
    requires EnterOk(t, true, n, x)
    ensures R(x, t.sp) - 12 >= -0x8000_0000 + 8 && R(x, t.sp) < 0x8000_0000 - 8
  {
  }

  /** The halves whose homes these are: locals come back with the return address and the frame pointer in them. */
  lemma LocalsOverwritten(t: Target, nrLocals: nat, link: Word, closure: Word, n: nat, p: nat, x: Data)
    requires Passes(t) && HomesOk(t, x) && EnterOk(t, true, n, Passed(t, link, closure, ExecSeq(XFrame(t, true, false, nrLocals), x)))
    requires p < 2 * nrLocals && R(x, t.sp) - 4 == Frame.HomeAddr(t, x, p)
    ensures var z := CallSite(t, true, nrLocals, link, closure, n, Return, x);
            && (if p < |t.spare| then R(z, t.spare[p]) == link else Ld(z, Frame.HomeAddr(t, x, p)) == link)
            && (p + 1 < 2 * nrLocals ==>
                  if p + 1 < |t.spare| then R(z, t.spare[p + 1]) == R(x, t.fp) else Ld(z, Frame.HomeAddr(t, x, p + 1)) == R(x, t.fp))
  {
    hide ExecSeq, XFrame, CallFrame, Passed, HomesOk, EnterOk, Picked, Ld;
    var x1 := ExecSeq(XFrame(t, true, false, nrLocals), x);
    SaveStores(t, false, nrLocals, x);
    PushedOver(t, link, closure, n, x1);
    var y := CallFrame(t, true, link, closure, n, Return, x1);
    SameFp(t, x, y);
    LoadedHomes(t, nrLocals, y, p);
    if p + 1 < 2 * nrLocals {
      LoadedHomes(t, nrLocals, y, p + 1);
    }
  }

  /** Wherever it is going to return to, the call gives the locals back. */
  ghost predicate AlwaysBack(t: Target, nrLocals: nat, closure: Word, n: nat, x: Data)
    requires |t.spare| >= RA_SIZE
  {
    forall link: Word :: LocalsBack(t, nrLocals, x, CallSite(t, true, nrLocals, link, closure, n, Return, x))
  }

  /** Nothing on the stack but the frame itself. */
  function Alone(t: Target, x: Data): Callers {
    Callers(-0x8000_0000, R(x, t.fp) + 8, [])
  }

  lemma AloneOk(t: Target, nrLocals: nat, link: Word, closure: Word, n: nat, x: Data)
    requires Passes(t) && EnterOk(t, true, n, x) && R(x, t.sp) <= R(x, t.fp) - 4
    ensures InFrame(t, true, Alone(t, x), x) && CallFits(t, true, Alone(t, x).bottom, link, closure, n, x)
    ensures Runnable(t, true, Alone(t, x), n, Return, ExecSeq(EnterCode(t, true, n), Passed(t, link, closure, x)))
  {
    hide ExecSeq, EnterCode;
    PassedShape(t, link, closure, x);
  }

  lemma EnterOkSame(t: Target, n: nat, x: Data, y: Data)
    requires EnterOk(t, true, n, x) && R(y, t.sp) == R(x, t.sp)
    ensures EnterOk(t, true, n, y)
  {
  }

  /**
   Storing the locals, calling and loading them gives every local back in general if and only if
   sp is at or below the lowest home of the frame.
   */
  lemma CallGivesBackIff(t: Target, nrLocals: nat, closure: Word, n: nat, x: Data)
    requires Passes(t) && HomesOk(t, x) && EnterOk(t, true, n, x)
    requires R(x, t.sp) <= R(x, t.fp) - 4 && (R(x, t.fp) - R(x, t.sp)) % 4 == 0
    ensures AlwaysBack(t, nrLocals, closure, n, x) <==> Covered(Here(t, nrLocals, x))
  {
    hide ExecSeq, XFrame, EnterOk, HomesOk, Passed, Runnable, CallFits, CallSite, LocalsBack, InFrame, Calls.IsHome;
    if Covered(Here(t, nrLocals, x)) {
      forall link: Word
        ensures LocalsBack(t, nrLocals, x, CallSite(t, true, nrLocals, link, closure, n, Return, x))
      {
        BackAlone(t, nrLocals, link, closure, n, x);
      }
    } else {
      var p := (R(x, t.fp) - R(x, t.sp) - 4) / 4;
      assert R(x, t.sp) - 4 == Frame.HomeAddr(t, x, p);
      var was := if p < |t.spare| then R(x, t.spare[p]) else Ld(x, Frame.HomeAddr(t, x, p));
      var link: Word := if was == 0 then 1 else 0;
      NotBack(t, nrLocals, link, closure, n, p, x);
    }
  }

  lemma BackAlone(t: Target, nrLocals: nat, link: Word, closure: Word, n: nat, x: Data)
    requires Passes(t) && HomesOk(t, x) && EnterOk(t, true, n, x) && R(x, t.sp) <= R(x, t.fp) - 4 && Covered(Here(t, nrLocals, x))
    ensures LocalsBack(t, nrLocals, x, CallSite(t, true, nrLocals, link, closure, n, Return, x))
  {
    hide ExecSeq, XFrame, EnterOk, Passed, Runnable, CallFits, CallSite, LocalsBack, InFrame, Picked, EnterCode;
    var x1 := ExecSeq(XFrame(t, true, false, nrLocals), x);
    SaveStores(t, false, nrLocals, x);
    EnterOkSame(t, n, x, x1);
    AloneOk(t, nrLocals, link, closure, n, x);
    AloneOk(t, nrLocals, link, closure, n, x1);
    CallGivesBack(t, true, Alone(t, x), nrLocals, link, closure, n, Return, x);
  }

  lemma NotBack(t: Target, nrLocals: nat, link: Word, closure: Word, n: nat, p: nat, x: Data)
    requires Passes(t) && HomesOk(t, x) && EnterOk(t, true, n, x)
    requires p < 2 * nrLocals && R(x, t.sp) - 4 == Frame.HomeAddr(t, x, p)
    requires link != if p < |t.spare| then R(x, t.spare[p]) else Ld(x, Frame.HomeAddr(t, x, p))
    ensures !LocalsBack(t, nrLocals, x, CallSite(t, true, nrLocals, link, closure, n, Return, x))
  {
    hide ExecSeq, XFrame, EnterOk, CallSite, Picked, Passed, HomesOk, Ld;
    var x1 := ExecSeq(XFrame(t, true, false, nrLocals), x);
    SaveStores(t, false, nrLocals, x);
    PassedShape(t, link, closure, x1);
    EnterOkSame(t, n, x, Passed(t, link, closure, x1));
    LocalsOverwritten(t, nrLocals, link, closure, n, p, x);
    assert !LocalBack(t, x, CallSite(t, true, nrLocals, link, closure, n, Return, x), p);
  }

  // ----- after a variable number of results -----

  /** sp is then at or below the lowest home exactly when the results reach the end of the frame. */
  lemma ResultsCoverIff(t: Target, nrLocals: nat, base: nat, n: nat, x: Data)
    requires |t.spare| >= RA_SIZE && SpUnder(t, base, n, x)
    ensures Covered(Here(t, nrLocals, x)) <==> base + n >= nrLocals
  {
  }

  /** So the next call gives the locals back, in general, exactly when they do. */
  lemma NextCallGivesBackIff(t: Target, nrLocals: nat, base: nat, m: nat, closure: Word, n: nat, x: Data)
    requires Passes(t) && HomesOk(t, x) && EnterOk(t, true, n, x) && SpUnder(t, base, m, x)
    ensures AlwaysBack(t, nrLocals, closure, n, x) <==> base + m >= nrLocals
  {
    hide HomesOk, EnterOk, AlwaysBack, Covered;
    ResultsCoverIff(t, nrLocals, base, m, x);
    CallGivesBackIff(t, nrLocals, closure, n, x);
  }

  /**
   An input that fails: no results for register 0 of a frame of three, and then another call. The
   type of local 0 comes back as the return address, the value of local 1 as the frame pointer.
   */
  lemma NoResultsThenCall(t: Target, link: Word, closure: Word, n: nat, x: Data)
    requires Passes(t) && HomesOk(t, x) && EnterOk(t, true, n, x) && SpUnder(t, 0, 0, x)
    ensures var z := CallSite(t, true, 3, link, closure, n, Return, x);
            R(z, t.spare[1]) == link && R(z, t.spare[2]) == R(x, t.fp)
  {
    hide ExecSeq, XFrame, EnterOk, CallSite, Picked, Passed, HomesOk, Ld;
    var x1 := ExecSeq(XFrame(t, true, false, 3), x);
    SaveStores(t, false, 3, x);
    PassedShape(t, link, closure, x1);
    EnterOkSame(t, n, x, Passed(t, link, closure, x1));
    LocalsOverwritten(t, 3, link, closure, n, 1, x);
  }

  /** Nor does a callee come back when it writes an upvalue whose home its own frame has taken. */
  lemma UpvalueOnSavedWord(t: Target, link: Word, closure: Word, n: nat, v: Word, x: Data)
    requires Passes(t) && EnterOk(t, true, n, Passed(t, link, closure, x))
    ensures R(CallFrame(t, true, link, closure, n, Store(R(x, t.sp) - 8, v, Return), x), t.fp) == v
  {
    hide ExecSeq, EnterCode, LeaveCode, Passed, EnterOk;
    PassedShape(t, link, closure, x);
    var x0 := Passed(t, link, closure, x);
    EnterEnters(t, true, n, x0);
    EnterRange(t, n, x0);
    var x1 := ExecSeq(EnterCode(t, true, n), x0);
    LeaveLeaves(t, true, St(x1, R(x, t.sp) - 8, v));
    assert Run(t, true, Store(R(x, t.sp) - 8, v, Return), x1) == St(x1, R(x, t.sp) - 8, v);
  }
}

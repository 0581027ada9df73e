/**
 Saving and restoring the locals that live in registers: the sequence specialised to a number
 of locals, and the one shared routine entered part of the way in.
 */
module Saves {
  import opened Words
  import opened Mips
  import opened Target
  import opened Moves
  import Frame

  /** The word that saves or restores slot p. */
  function SlotWord(t: Target, isStore: bool, p: nat): Instr
    requires p < |t.spare|
  {
    if isStore then Sw(t.spare[p], t.fp, Int16(Frame.HomeOffset(p))) else Lw(t.spare[p], t.fp, Int16(Frame.HomeOffset(p)))
  }

  /** Which register slots a routine is for: all of them, or the caller-saved ones. */
  predicate IsMipsTemp(r: Reg) {
    8 <= r <= 15 || 24 <= r <= 25
  }

  predicate Picked(t: Target, tempsOnly: bool, p: nat) {
    p < |t.spare| && (tempsOnly ==> IsMipsTemp(t.spare[p]))
  }

  function SlotCode(t: Target, isStore: bool, tempsOnly: bool, p: nat): seq<Instr> {
    if Picked(t, tempsOnly, p) then [SlotWord(t, isStore, p)] else []
  }

  /** Locals below n, the last one first, value then type. */
  function XFrame(t: Target, isStore: bool, tempsOnly: bool, n: nat): seq<Instr> {
    if n == 0 then []
    else SlotCode(t, isStore, tempsOnly, 2 * (n - 1)) + SlotCode(t, isStore, tempsOnly, 2 * (n - 1) + 1)
         + XFrame(t, isStore, tempsOnly, n - 1)
  }

  /** Locals that can live in registers, wholly or in part. */
  function MaxLiveLocals(t: Target): nat {
    (|t.spare| + 1) / 2
  }

  /** The shared routine without its return. */
  function Shared(t: Target, isStore: bool, tempsOnly: bool): seq<Instr> {
    XFrame(t, isStore, tempsOnly, MaxLiveLocals(t))
  }

  /** Where the shared routine is entered for n locals, in words; each of its operations is one word. */
  function Offset(t: Target, n: nat, data: nat): int {
    (if |t.spare| > 2 * n then |t.spare| - 2 * n else 0) * data
  }

  // ----- entering part of the way in -----

  function Min(a: int, b: int): int {
    if a <= b then a else b
  }

  /** A longer save starts with the locals it has in addition. */
  function Extra(t: Target, isStore: bool, tempsOnly: bool, n: nat, k: nat): seq<Instr>
    requires n <= k
    decreases k
  {
    if k == n then []
    else SlotCode(t, isStore, tempsOnly, 2 * (k - 1)) + SlotCode(t, isStore, tempsOnly, 2 * (k - 1) + 1) + Extra(t, isStore, tempsOnly, n, k - 1)
  }

  lemma {:induction false} XFrameTail(t: Target, isStore: bool, tempsOnly: bool, n: nat, k: nat)
    requires n <= k
    ensures XFrame(t, isStore, tempsOnly, k) == Extra(t, isStore, tempsOnly, n, k) + XFrame(t, isStore, tempsOnly, n)
    decreases k
  {
    hide SlotCode;
    if k > n {
      XFrameTail(t, isStore, tempsOnly, n, k - 1);
    }
  }

  /** Slots from 2 n on are all picked, so each adds a word. */
  predicate PickedFrom(t: Target, tempsOnly: bool, n: nat) {
    forall p :: 2 * n <= p < |t.spare| ==> Picked(t, tempsOnly, p)
  }

  lemma {:induction false} ExtraLength(t: Target, isStore: bool, tempsOnly: bool, n: nat, k: nat)
    requires n <= k && PickedFrom(t, tempsOnly, n) && 2 * n <= |t.spare|
    ensures |Extra(t, isStore, tempsOnly, n, k)| == Min(2 * k, |t.spare|) - 2 * n
    decreases k
  {
    hide SlotWord;
    if k > n {
      ExtraLength(t, isStore, tempsOnly, n, k - 1);
    }
  }

  lemma {:induction false} ExtraNone(t: Target, isStore: bool, tempsOnly: bool, n: nat, k: nat)
    requires n <= k && 2 * n >= |t.spare|
    ensures Extra(t, isStore, tempsOnly, n, k) == []
    decreases k
  {
    if k > n {
      ExtraNone(t, isStore, tempsOnly, n, k - 1);
    }
  }

  /**
   Computed entry: where every slot past the locals is picked, what the shared routine runs
   from its offset is exactly the sequence specialised to n locals.
   */
  lemma EnterShared(t: Target, isStore: bool, tempsOnly: bool, n: nat)
    requires PickedFrom(t, tempsOnly, n)
    ensures 0 <= Offset(t, n, 1) <= |Shared(t, isStore, tempsOnly)|
    ensures Shared(t, isStore, tempsOnly)[Offset(t, n, 1)..] == XFrame(t, isStore, tempsOnly, n)
  {
    hide XFrame, Extra, PickedFrom;
    var k := MaxLiveLocals(t);
    if n <= k {
      XFrameTail(t, isStore, tempsOnly, n, k);
      if 2 * n <= |t.spare| {
        ExtraLength(t, isStore, tempsOnly, n, k);
      } else {
        ExtraNone(t, isStore, tempsOnly, n, k);
      }
    } else {
      XFrameTail(t, isStore, tempsOnly, k, n);
      ExtraNone(t, isStore, tempsOnly, k, n);
    }
  }

  /** All registers: the routine has one word for each, for any table and any count. */
  lemma EnterAll(t: Target, isStore: bool, n: nat)
    ensures |Shared(t, isStore, false)| == |t.spare|
    ensures 0 <= Offset(t, n, 1) <= |Shared(t, isStore, false)|
    ensures Shared(t, isStore, false)[Offset(t, n, 1)..] == XFrame(t, isStore, false, n)
  {
    hide XFrame, Extra;
    EnterShared(t, isStore, false, n);
    XFrameTail(t, isStore, false, 0, MaxLiveLocals(t));
    ExtraLength(t, isStore, false, 0, MaxLiveLocals(t));
    assert XFrame(t, isStore, false, 0) == [] by { NoLocals(t, isStore, false); }
  }

  lemma NoLocals(t: Target, isStore: bool, tempsOnly: bool)
    ensures XFrame(t, isStore, tempsOnly, 0) == []
  {
  }

  // ----- caller-saved registers only -----

  /** Caller-saved registers are the tail of the table from k on. */
  predicate TailFrom(t: Target, k: nat) {
    k <= |t.spare| && forall p :: 0 <= p < |t.spare| ==> (IsMipsTemp(t.spare[p]) <==> p >= k)
  }

  /** The guard: some local up to and including number n has a half in a caller-saved register. */
  predicate IsAnyTemps(t: Target, n: nat) {
    exists i :: 0 <= i <= n && (Picked(t, true, 2 * i) || Picked(t, true, 2 * i + 1))
  }

  lemma GuardMeans(t: Target, k: nat, n: nat)
    requires TailFrom(t, k)
    ensures IsAnyTemps(t, n) <==> k < |t.spare| && k <= 2 * n + 1
  {
    if k < |t.spare| && k <= 2 * n + 1 {
      var i := k / 2;
      assert Picked(t, true, 2 * i) || Picked(t, true, 2 * i + 1);
    }
  }

  lemma {:induction false} TempsLength(t: Target, isStore: bool, k: nat, n: nat)
    requires TailFrom(t, k) && 2 * n >= |t.spare|
    ensures |XFrame(t, isStore, true, n)| == |t.spare| - k
  {
    hide SlotWord;
    TempsCount(t, isStore, k, n);
  }

  lemma {:induction false} TempsCount(t: Target, isStore: bool, k: nat, n: nat)
    requires TailFrom(t, k)
    ensures |XFrame(t, isStore, true, n)| == (if 2 * n <= k then 0 else Min(2 * n, |t.spare|) - k)
  {
    hide SlotWord;
    if n > 0 {
      TempsCount(t, isStore, k, n - 1);
    }
  }

  /** The entry is inside the routine, at its return at the latest. */
  predicate EntersInside(t: Target, isStore: bool, n: nat) {
    Offset(t, n, 1) <= |Shared(t, isStore, true)|
  }

  /**
   With the guard, the caller-saved routine is never entered past its return exactly when the
   caller-saved tail starts at an even slot, or is empty: an odd start lets the local that
   straddles it open the guard one word too early.
   */
  lemma TempEntryIff(t: Target, isStore: bool, k: nat)
    requires TailFrom(t, k)
    ensures (forall n: nat :: IsAnyTemps(t, n) ==> EntersInside(t, isStore, n)) <==> k % 2 == 0 || k == |t.spare|
  {
    hide XFrame, IsAnyTemps, TailFrom;
    TailShape(t, k);
    TempsLength(t, isStore, k, MaxLiveLocals(t));
    forall n: nat
      ensures IsAnyTemps(t, n) && (k % 2 == 0 || k == |t.spare|) ==> EntersInside(t, isStore, n)
    {
      GuardMeans(t, k, n);
    }
    if k % 2 == 1 && k < |t.spare| {
      var n := k / 2;
      GuardMeans(t, k, n);
      assert IsAnyTemps(t, n) && !EntersInside(t, isStore, n);
    }
  }

  lemma TailShape(t: Target, k: nat)
    requires TailFrom(t, k)
    ensures k <= |t.spare|
  {
  }

  /** And what it then runs is exactly the caller-saved registers of the locals. */
  lemma EnterTemps(t: Target, isStore: bool, k: nat, n: nat)
    requires TailFrom(t, k) && k % 2 == 0 && IsAnyTemps(t, n)
    ensures 0 <= Offset(t, n, 1) <= |Shared(t, isStore, true)|
    ensures Shared(t, isStore, true)[Offset(t, n, 1)..] == XFrame(t, isStore, true, n)
  {
    GuardMeans(t, k, n);
    hide XFrame, IsAnyTemps;
    EnterShared(t, isStore, true, n);
  }

  /**
   With the shipped table, repeated entry and all, caller-saved registers are exactly those that
   the o32 convention lets a callee overwrite, s0 to s7 being 16 to 23. They are the tail from an
   even slot, so the routine is always entered inside.
   */
  lemma ShippedTail(t: Target, isStore: bool)
    requires t.spare == Frame.SHIPPED || t.spare == Frame.SHIPPED[13 := 13]
    ensures TailFrom(t, 8)
    ensures forall p :: 0 <= p < |t.spare| ==> (IsMipsTemp(t.spare[p]) <==> !(16 <= t.spare[p] <= 23))
    ensures forall n: nat :: IsAnyTemps(t, n) ==> EntersInside(t, isStore, n)
  {
    hide IsAnyTemps, EntersInside;
    ShippedRegs(t);
    TempEntryIff(t, isStore, 8);
  }

  lemma ShippedRegs(t: Target)
    requires t.spare == Frame.SHIPPED || t.spare == Frame.SHIPPED[13 := 13]
    ensures |t.spare| == 18
    ensures forall p :: 0 <= p < 8 ==> 16 <= t.spare[p] <= 23
    ensures forall p :: 8 <= p < 18 ==> IsMipsTemp(t.spare[p])
  {
  }

  // ----- what running them does -----

  /** The homes of all register slots are addressable below fp. */
  ghost predicate HomesOk(t: Target, x: Data) {
    t.Valid() && 8 + 4 * |t.spare| <= 0x8000 && R(x, t.fp) - (8 + 4 * |t.spare|) >= -0x8000_0000
  }

  lemma HomeReached(t: Target, x: Data, p: nat)
    requires HomesOk(t, x) && p < |t.spare|
    ensures EffAddr(x, t.fp, Int16(Frame.HomeOffset(p))) == Frame.HomeAddr(t, x, p)
  {
    HalfFits(Frame.HomeOffset(p));
    NormWord(Frame.HomeAddr(t, x, p));
  }

  /** Address a is the home of a slot saved for n locals. */
  predicate IsHome(t: Target, tempsOnly: bool, n: nat, x: Data, a: int) {
    exists p :: 0 <= p < 2 * n && Picked(t, tempsOnly, p) && a == Frame.HomeAddr(t, x, p)
  }

  predicate IsSavedReg(t: Target, tempsOnly: bool, n: nat, q: Reg) {
    exists p :: 0 <= p < 2 * n && Picked(t, tempsOnly, p) && q == t.spare[p]
  }

  lemma SlotStores(t: Target, tempsOnly: bool, p: nat, x: Data)
    requires HomesOk(t, x)
    ensures var y := ExecSeq(SlotCode(t, true, tempsOnly, p), x);
            && y.regs == x.regs
            && forall a :: Ld(y, a) == if Picked(t, tempsOnly, p) && a == Frame.HomeAddr(t, x, p) then R(x, t.spare[p]) else Ld(x, a)
  {
    if Picked(t, tempsOnly, p) {
      HomeReached(t, x, p);
      ExecSw(t.spare[p], t.fp, Int16(Frame.HomeOffset(p)), x);
    } else {
      ExecNone(x);
    }
  }

  lemma SlotLoads(t: Target, tempsOnly: bool, p: nat, x: Data)
    requires HomesOk(t, x)
    ensures var y := ExecSeq(SlotCode(t, false, tempsOnly, p), x);
            && y.mem == x.mem
            && forall q: Reg :: R(y, q) == if Picked(t, tempsOnly, p) && q == t.spare[p] then Ld(x, Frame.HomeAddr(t, x, p)) else R(x, q)
  {
    if Picked(t, tempsOnly, p) {
      HomeReached(t, x, p);
      ExecOne(SlotWord(t, false, p), x);
      hide EffAddr;
    } else {
      ExecNone(x);
    }
  }

  /** Each picked register is in its home, and nothing else has changed. */
  ghost predicate Saved(t: Target, tempsOnly: bool, n: nat, x: Data, y: Data) {
    && y.regs == x.regs
    && (forall p :: 0 <= p < 2 * n && Picked(t, tempsOnly, p) ==> Ld(y, Frame.HomeAddr(t, x, p)) == R(x, t.spare[p]))
    && (forall a :: !IsHome(t, tempsOnly, n, x, a) ==> Ld(y, a) == Ld(x, a))
  }

  /** Each picked register is what its home holds, and nothing else has changed. */
  ghost predicate Restored(t: Target, tempsOnly: bool, n: nat, x: Data, y: Data) {
    && y.mem == x.mem
    && (forall p :: 0 <= p < 2 * n && Picked(t, tempsOnly, p) ==> R(y, t.spare[p]) == Ld(x, Frame.HomeAddr(t, x, p)))
    && (forall q: Reg :: !IsSavedReg(t, tempsOnly, n, q) ==> R(y, q) == R(x, q))
  }

  /** Saving puts each picked register in its home and changes nothing else. */
  lemma {:induction false} SaveStores(t: Target, tempsOnly: bool, n: nat, x: Data)
    requires HomesOk(t, x)
    ensures Saved(t, tempsOnly, n, x, ExecSeq(XFrame(t, true, tempsOnly, n), x))
  {
    hide ExecSeq, SlotCode, Ld, R;
    if n == 0 {
      ExecNone(x);
    } else {
      var i, j := 2 * (n - 1), 2 * (n - 1) + 1;
      ExecThree(SlotCode(t, true, tempsOnly, i), SlotCode(t, true, tempsOnly, j), XFrame(t, true, tempsOnly, n - 1), x);
      var x1 := ExecSeq(SlotCode(t, true, tempsOnly, i), x);
      SlotStores(t, tempsOnly, i, x);
      SameRegs(x, x1);
      var x2 := ExecSeq(SlotCode(t, true, tempsOnly, j), x1);
      SlotStores(t, tempsOnly, j, x1);
      SameRegs(x1, x2);
      SaveStores(t, tempsOnly, n - 1, x2);
      hide IsHome, Frame.HomeAddr, Picked;
      SavedMore(t, tempsOnly, n, x, x1, x2, ExecSeq(XFrame(t, true, tempsOnly, n), x));
    }
  }

  lemma SavedMore(t: Target, tempsOnly: bool, n: nat, x: Data, x1: Data, x2: Data, y: Data)
    requires n > 0 && x1.regs == x.regs && x2.regs == x.regs && Saved(t, tempsOnly, n - 1, x2, y)
    requires forall a :: Ld(x1, a) == if Picked(t, tempsOnly, 2 * (n - 1)) && a == Frame.HomeAddr(t, x, 2 * (n - 1)) then R(x, t.spare[2 * (n - 1)]) else Ld(x, a)
    requires forall a :: Ld(x2, a) == if Picked(t, tempsOnly, 2 * n - 1) && a == Frame.HomeAddr(t, x1, 2 * n - 1) then R(x1, t.spare[2 * n - 1]) else Ld(x1, a)
    ensures Saved(t, tempsOnly, n, x, y)
  {
    hide Ld, R;
    SameRegs(x, x1);
    SameRegs(x, x2);
    var i := 2 * (n - 1);
    forall a | !IsHome(t, tempsOnly, n, x, a)
      ensures Ld(y, a) == Ld(x, a)
    {
      NotHomeLower(t, tempsOnly, n, x, x2, a);
      assert Ld(y, a) == Ld(x2, a) == Ld(x1, a);
    }
    forall p | 0 <= p < 2 * n && Picked(t, tempsOnly, p)
      ensures Ld(y, Frame.HomeAddr(t, x, p)) == R(x, t.spare[p])
    {
      if p >= i {
        assert !IsHome(t, tempsOnly, n - 1, x2, Frame.HomeAddr(t, x, p));
        assert Ld(y, Frame.HomeAddr(t, x, p)) == Ld(x2, Frame.HomeAddr(t, x, p));
        assert p == i || p == i + 1;
      } else {
        assert Ld(y, Frame.HomeAddr(t, x2, p)) == R(x2, t.spare[p]);
      }
    }
  }

  lemma NotHomeLower(t: Target, tempsOnly: bool, n: nat, x: Data, x2: Data, a: int)
    requires n > 0 && R(x2, t.fp) == R(x, t.fp) && !IsHome(t, tempsOnly, n, x, a)
    ensures !IsHome(t, tempsOnly, n - 1, x2, a)
    ensures Picked(t, tempsOnly, 2 * n - 2) ==> a != Frame.HomeAddr(t, x, 2 * n - 2)
    ensures Picked(t, tempsOnly, 2 * n - 1) ==> a != Frame.HomeAddr(t, x, 2 * n - 1)
  {
  }

  lemma SameRegs(x: Data, y: Data)
    requires y.regs == x.regs
    ensures forall q: Reg :: R(y, q) == R(x, q)
  {
  }

  /** Restoring loads each picked register from its home and changes nothing else. */
  lemma {:induction false} LoadRestores(t: Target, tempsOnly: bool, n: nat, x: Data)
    requires HomesOk(t, x)
    ensures Restored(t, tempsOnly, n, x, ExecSeq(XFrame(t, false, tempsOnly, n), x))
  {
    hide ExecSeq, SlotCode, R;
    if n == 0 {
      ExecNone(x);
    } else {
      var i, j := 2 * (n - 1), 2 * (n - 1) + 1;
      ExecThree(SlotCode(t, false, tempsOnly, i), SlotCode(t, false, tempsOnly, j), XFrame(t, false, tempsOnly, n - 1), x);
      var x1 := ExecSeq(SlotCode(t, false, tempsOnly, i), x);
      SlotLoads(t, tempsOnly, i, x);
      FpKept(t, tempsOnly, i);
      var x2 := ExecSeq(SlotCode(t, false, tempsOnly, j), x1);
      SlotLoads(t, tempsOnly, j, x1);
      FpKept(t, tempsOnly, j);
      LoadRestores(t, tempsOnly, n - 1, x2);
      var y := ExecSeq(XFrame(t, false, tempsOnly, n), x);
      forall q: Reg | !IsSavedReg(t, tempsOnly, n, q)
        ensures R(y, q) == R(x, q)
      {
        assert !IsSavedReg(t, tempsOnly, n - 1, q);
        assert Picked(t, tempsOnly, i) ==> q != t.spare[i];
        assert Picked(t, tempsOnly, j) ==> q != t.spare[j];
      }
      forall p | 0 <= p < 2 * n && Picked(t, tempsOnly, p)
        ensures R(y, t.spare[p]) == Ld(x, Frame.HomeAddr(t, x, p))
      {
        if p >= i {
          NotLower(t, tempsOnly, n - 1, p);
        }
      }
    }
  }

  lemma FpKept(t: Target, tempsOnly: bool, p: nat)
    requires t.Valid()
    ensures Picked(t, tempsOnly, p) ==> t.spare[p] != t.fp
  {
    if p < |t.spare| {
      assert t.Ordinary(t.spare[p]);
    }
  }

  lemma NotLower(t: Target, tempsOnly: bool, n: nat, p: nat)
    requires t.Valid() && p < |t.spare| && p >= 2 * n
    ensures !IsSavedReg(t, tempsOnly, n, t.spare[p])
  {
  }

  lemma RestoredReg(t: Target, tempsOnly: bool, n: nat, x: Data, y: Data, z: Data, w: Data, q: Reg)
    requires Saved(t, tempsOnly, n, x, y) && Restored(t, tempsOnly, n, z, w) && R(z, t.fp) == R(x, t.fp)
    requires forall a :: IsHome(t, tempsOnly, n, x, a) ==> Ld(z, a) == Ld(y, a)
    ensures R(w, q) == if IsSavedReg(t, tempsOnly, n, q) then R(x, q) else R(z, q)
  {
    hide Ld, R;
    if IsSavedReg(t, tempsOnly, n, q) {
      var p :| 0 <= p < 2 * n && Picked(t, tempsOnly, p) && q == t.spare[p];
      assert IsHome(t, tempsOnly, n, x, Frame.HomeAddr(t, x, p));
      assert Frame.HomeAddr(t, z, p) == Frame.HomeAddr(t, x, p);
      assert Ld(y, Frame.HomeAddr(t, x, p)) == R(x, t.spare[p]);
    }
  }

  /**
   Save, then anything that keeps fp and the saved words, then restore: every picked register
   of the locals is back.
   */
  lemma SaveThenRestore(t: Target, tempsOnly: bool, n: nat, x: Data, z: Data)
    requires HomesOk(t, x) && R(z, t.fp) == R(x, t.fp)
    requires var y := ExecSeq(XFrame(t, true, tempsOnly, n), x);
             forall a :: IsHome(t, tempsOnly, n, x, a) ==> Ld(z, a) == Ld(y, a)
    ensures var w := ExecSeq(XFrame(t, false, tempsOnly, n), z);
            && w.mem == z.mem
            && (forall q: Reg :: R(w, q) == if IsSavedReg(t, tempsOnly, n, q) then R(x, q) else R(z, q))
  {
    hide ExecSeq, XFrame, R, Ld, Picked, IsHome, IsSavedReg, Saved, Restored;
    SaveStores(t, tempsOnly, n, x);
    LoadRestores(t, tempsOnly, n, z);
    var y, w := ExecSeq(XFrame(t, true, tempsOnly, n), x), ExecSeq(XFrame(t, false, tempsOnly, n), z);
    RestoredMem(t, tempsOnly, n, z, w);
    forall q: Reg
      ensures R(w, q) == if IsSavedReg(t, tempsOnly, n, q) then R(x, q) else R(z, q)
    {
      RestoredReg(t, tempsOnly, n, x, y, z, w, q);
    }
  }

  lemma RestoredMem(t: Target, tempsOnly: bool, n: nat, x: Data, y: Data)
    requires Restored(t, tempsOnly, n, x, y)
    ensures y.mem == x.mem
  {
  }

  // ----- no word of them transfers control -----

  lemma PlainBoth(a: seq<Instr>, b: seq<Instr>)
    requires Plain(a) && Plain(b)
    ensures Plain(a + b)
  {
  }

  lemma PlainSlot(t: Target, isStore: bool, tempsOnly: bool, p: nat)
    ensures Plain(SlotCode(t, isStore, tempsOnly, p))
  {
  }

  lemma XFrameStep(t: Target, isStore: bool, tempsOnly: bool, n: nat)
    ensures n == 0 ==> Plain(XFrame(t, isStore, tempsOnly, n))
    ensures n > 0 ==>
              XFrame(t, isStore, tempsOnly, n) ==
              SlotCode(t, isStore, tempsOnly, 2 * (n - 1)) + SlotCode(t, isStore, tempsOnly, 2 * (n - 1) + 1) + XFrame(t, isStore, tempsOnly, n - 1)
  {
    hide SlotCode;
  }

  lemma {:induction false} PlainXFrame(t: Target, isStore: bool, tempsOnly: bool, n: nat)
    ensures Plain(XFrame(t, isStore, tempsOnly, n))
  {
    hide SlotCode, Plain, XFrame;
    XFrameStep(t, isStore, tempsOnly, n);
    if n > 0 {
      var i := 2 * (n - 1);
      PlainSlot(t, isStore, tempsOnly, i);
      PlainSlot(t, isStore, tempsOnly, i + 1);
      PlainXFrame(t, isStore, tempsOnly, n - 1);
      PlainBoth(SlotCode(t, isStore, tempsOnly, i), SlotCode(t, isStore, tempsOnly, i + 1));
      PlainBoth(SlotCode(t, isStore, tempsOnly, i) + SlotCode(t, isStore, tempsOnly, i + 1), XFrame(t, isStore, tempsOnly, n - 1));
    }
  }
}

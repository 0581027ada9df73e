/** The temporary allocator: a stack of temporaries over a few registers and spill slots. */
module Temporaries {
  import opened Words
  import opened Mips
  import opened Target
  import opened Wrappers

  /** Reference count of register i of n when T temporaries are live: a descending staircase. */
  function Stair(T: nat, n: nat, i: nat): nat
    requires n > 0
  {
    T / n + (if i < T % n then 1 else 0)
  }

  lemma StairNext(T: nat, n: nat)
    requires n > 0
    ensures forall i :: 0 <= i < n ==> Stair(T + 1, n, i) == Stair(T, n, i) + (if i == T % n then 1 else 0)
  {
    var q, r := T / n, T % n;
    if r + 1 < n {
      DivModUnique(T + 1, n, q, r + 1);
    } else {
      assert T + 1 == (q + 1) * n;
      DivModUnique(T + 1, n, q + 1, 0);
    }
  }

  /** Value of temporary k while T are live. */
  function TempVal(t: Target, x: Data, T: nat, k: nat): Word
    requires |t.temps| > 0
  {
    if k + |t.temps| >= T then R(x, TempAt(t, k)) else Ld(x, SlotAddr(t, x, k))
  }

  /** The live temporaries as the stack they implement, oldest first. */
  function TempStack(t: Target, x: Data, T: nat): (s: seq<Word>)
    requires |t.temps| > 0
    ensures |s| == T
  {
    seq(T, k requires 0 <= k < T => TempVal(t, x, T, k))
  }

  /** Everything a caller owns: the non-temporary registers and memory at or above sp. */
  ghost predicate OutsideKept(t: Target, x: Data, y: Data)
    requires |t.temps| > 0
  {
    && (forall r: Reg :: !t.IsTemp(r) ==> R(y, r) == R(x, r))
    && (forall a :: a >= R(x, t.sp) ==> Ld(y, a) == Ld(x, a))
  }

  ghost predicate StackRoom(t: Target, x: Data) {
    R(x, t.sp) >= -0x8000_0000 + 0x8000
  }

  /** Acquiring keeps every older temporary's value, spilled or not. */
  lemma AcquireKeepsStack(t: Target, T: nat, x: Data)
    requires t.Valid() && StackRoom(t, x) && SlotFits(t, T)
    ensures var y := ExecSeq(AcquireCode(t, T), x);
            TempStack(t, y, T + 1)[..T] == TempStack(t, x, T) && OutsideKept(t, x, y)
  {
    var n := |t.temps|;
    var y := ExecSeq(AcquireCode(t, T), x);
    SpecialsNotTemps(t);
    if T < n {
      ExecNone(x);
    } else {
      var a := SlotAddr(t, x, T - n);
      SlotEffAddr(t, x, T - n);
      ExecOne(AcquireCode(t, T)[0], x);
      SameRegister(t, T - n, T);
      assert y == St(x, a, R(x, TempAt(t, T - n)));
      forall k: nat | k < T
        ensures TempVal(t, y, T + 1, k) == TempVal(t, x, T, k)
      {
        if k < T - n {
          SlotMonotone(n, k, T - n);
        }
      }
    }
  }

  lemma SameRegister(t: Target, j: nat, k: nat)
    requires |t.temps| > 0 && k == j + |t.temps|
    ensures TempAt(t, j) == TempAt(t, k)
  {
    var n := |t.temps|;
    assert k == (j / n + 1) * n + j % n;
    DivModUnique(k, n, j / n + 1, j % n);
  }

  /** Writing the newest temporary is all it takes to push. */
  lemma WriteNewest(t: Target, T: nat, x: Data, v: Word)
    requires t.Valid() && T > 0
    ensures var y := W(x, TempAt(t, T - 1), v);
            TempStack(t, y, T) == TempStack(t, x, T)[..T - 1] + [v] && OutsideKept(t, x, y)
  {
    var y := W(x, TempAt(t, T - 1), v);
    TempOrdinary(t, T - 1);
    SpecialsNotTemps(t);
    forall k: nat | k < T
      ensures TempVal(t, y, T, k) == if k == T - 1 then v else TempVal(t, x, T, k)
    {
      if k < T - 1 && k + |t.temps| >= T {
        TempDistinct(t, k, T - 1);
      }
    }
  }

  /** Releasing pops: the value from before the matching acquire is back. */
  lemma ReleasePopsStack(t: Target, T: nat, x: Data)
    requires t.Valid() && StackRoom(t, x) && T > 0 && SlotFits(t, T - 1)
    ensures var y := ExecSeq(ReleaseCode(t, T), x);
            TempStack(t, y, T - 1) == TempStack(t, x, T)[..T - 1] && OutsideKept(t, x, y)
  {
    var n := |t.temps|;
    var y := ExecSeq(ReleaseCode(t, T), x);
    TempOrdinary(t, T - 1);
    SpecialsNotTemps(t);
    if T - 1 < n {
      ExecNone(x);
    } else {
      SlotEffAddr(t, x, T - 1 - n);
      ExecOne(ReleaseCode(t, T)[0], x);
      SameRegister(t, T - 1 - n, T - 1);
      forall k: nat | k < T - 1
        ensures TempVal(t, y, T - 1, k) == TempVal(t, x, T, k)
      {
        if T - 1 - n < k {
          TempDistinct(t, k, T - 1);
        }
      }
    }
  }

  // ----- any run of pushes and pops -----

  datatype Use = Push(v: Word) | Pop

  /** The unbounded stack that a client thinks it has. */
  function StackAfter(uses: seq<Use>, s: seq<Word>): Option<seq<Word>>
    decreases |uses|
  {
    if uses == [] then Some(s)
    else match uses[0]
      case Push(v) => StackAfter(uses[1..], s + [v])
      case Pop => if s == [] then None else StackAfter(uses[1..], s[..|s| - 1])
  }

  /** The machine: acquire, then write the register handed out; or release. */
  function MachineAfter(t: Target, uses: seq<Use>, x: Data, T: nat): Data
    requires |t.temps| > 0
    decreases |uses|
  {
    if uses == [] then x
    else match uses[0]
      case Push(v) => MachineAfter(t, uses[1..], W(ExecSeq(AcquireCode(t, T), x), TempAt(t, T), v), T + 1)
      case Pop => if T == 0 then x else MachineAfter(t, uses[1..], ExecSeq(ReleaseCode(t, T), x), T - 1)
  }

  /** With T temporaries live to begin with, never more than depth are. */
  predicate StaysWithin(uses: seq<Use>, T: nat, depth: nat)
    decreases |uses|
  {
    T <= depth &&
    (uses == [] ||
     match uses[0]
     case Push(_) => StaysWithin(uses[1..], T + 1, depth)
     case Pop => T == 0 || StaysWithin(uses[1..], T - 1, depth))
  }

  /**
   Any use of temporaries, however long, that never has more live than there are reachable slots
   for refines the plain stack.
   */
  lemma {:induction false} TempsRefineStack(t: Target, uses: seq<Use>, x: Data, T: nat, depth: nat)
    requires t.Valid() && StackRoom(t, x)
    requires StaysWithin(uses, T, depth) && (depth > 0 ==> SlotFits(t, depth - 1))
    requires StackAfter(uses, TempStack(t, x, T)).Some?
    ensures var s := StackAfter(uses, TempStack(t, x, T)).value;
            var y := MachineAfter(t, uses, x, T);
            TempStack(t, y, |s|) == s && OutsideKept(t, x, y)
    decreases |uses|
  {
    if uses != [] {
      SpecialsNotTemps(t);
      match uses[0]
      case Push(v) =>
        DepthFits(t, T, depth);
        AcquireKeepsStack(t, T, x);
        var y := ExecSeq(AcquireCode(t, T), x);
        WriteNewest(t, T + 1, y, v);
        var z := W(y, TempAt(t, T), v);
        assert TempStack(t, z, T + 1) == TempStack(t, x, T) + [v];
        TempsRefineStack(t, uses[1..], z, T + 1, depth);
      case Pop =>
        DepthFits(t, T - 1, depth);
        ReleasePopsStack(t, T, x);
        TempsRefineStack(t, uses[1..], ExecSeq(ReleaseCode(t, T), x), T - 1, depth);
    }
  }

  lemma DepthFits(t: Target, T: nat, depth: nat)
    requires t.Valid() && T < depth && SlotFits(t, depth - 1)
    ensures SlotFits(t, T)
  {
    var n := |t.temps|;
    if n <= T < depth - 1 {
      SlotMonotone(n, T - n, depth - 1 - n);
    }
  }

  /** Temporaries that are in registers are in different registers, and slots never coincide. */
  lemma NewestDistinct(t: Target, T: nat, j: nat, k: nat, x: Data)
    requires t.Valid() && j < k < T
    ensures j + |t.temps| >= T ==> TempAt(t, j) != TempAt(t, k)
    ensures k + |t.temps| < T ==> SlotAddr(t, x, k) < SlotAddr(t, x, j) < R(x, t.sp)
  {
    if j + |t.temps| >= T {
      TempDistinct(t, j, k);
    }
    SlotMonotone(|t.temps|, j, k);
  }
}

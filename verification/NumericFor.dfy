/** The numeric for: which values the compiled loop gives its body, and how many. */
module NumericFor {
  import opened Words
  import opened Mips
  import opened Script
  import opened ScriptRun
  import opened Frame
  import opened Bytecode
  import opened Simulate
  import opened Program
  import opened Forward

  /** The values of the loop, from first in steps up to limit. */
  function Counted(first: int, limit: int, step: int): (vs: seq<int>)
    requires step > 0
    decreases limit - first
  {
    if first > limit then [] else [first] + Counted(first + step, limit, step)
  }

  /** How many there are. */
  function Trips(first: int, limit: int, step: int): nat
    requires step > 0
  {
    if first > limit then 0 else (limit - first) / step + 1
  }

  /** The index at the test that ends the loop. */
  function LastTest(first: int, limit: int, step: int): int
    requires step > 0
    decreases limit - first
  {
    if first > limit then first else LastTest(first + step, limit, step)
  }

  /** How many values there are, what each is, and where the index ends up. */
  lemma {:induction false} CountedIs(first: int, limit: int, step: int)
    requires step > 0
    ensures |Counted(first, limit, step)| == Trips(first, limit, step)
    ensures forall k :: 0 <= k < |Counted(first, limit, step)| ==> Counted(first, limit, step)[k] == first + k * step
    ensures LastTest(first, limit, step) == first + |Counted(first, limit, step)| * step > limit
    decreases limit - first
  {
    if first <= limit {
      var vs := Counted(first + step, limit, step);
      CountedIs(first + step, limit, step);
      if first + step <= limit {
        var q := (limit - first - step) / step;
        DivModUnique(limit - first, step, q + 1, (limit - first - step) % step);
      } else {
        DivModUnique(limit - first, step, 0, limit - first);
      }
      forall k | 0 < k <= |vs|
        ensures ([first] + vs)[k] == first + k * step
      {
        assert ([first] + vs)[k] == vs[k - 1] == first + step + (k - 1) * step;
        assert step + (k - 1) * step == k * step;
      }
      assert step + |vs| * step == (|vs| + 1) * step;
    }
  }

  lemma {:induction false} LastTestBeyond(first: int, limit: int, step: int)
    requires step > 0
    ensures LastTest(first, limit, step) >= first
    decreases limit - first
  {
    if first <= limit {
      LastTestBeyond(first + step, limit, step);
    }
  }

  /** A for statement: FORPREP at p, the body after it, FORLOOP at q going back to the body. */
  predicate IsFor(u: Unit, p: nat, q: nat, a: nat) {
    && p < q < |u.code|
    && u.code[p] == FORPREP(a, q - p - 1) && u.code[q] == FORLOOP(a, p - q)
  }

  /** The three hidden control registers are numbers, and the same in both states. */
  predicate ControlKept(a: nat, st: VM, st': VM) {
    && a + 3 < |st.val| && a + 3 < |st.tag| && |st'.val| == |st.val| && |st'.tag| == |st.tag|
    && st'.val[a] == st.val[a] && st'.val[a + 1] == st.val[a + 1] && st'.val[a + 2] == st.val[a + 2]
  }

  /**
   From the loop instruction in state st, the body is entered once for each of vs with that
   value in R(A+3), runs on its own to the loop instruction again without touching the
   control registers, and the last test leaves the loop.
   */
  ghost predicate Iterates(u: Unit, p: nat, q: nat, a: nat, st: VM, vs: seq<int>, st': VM)
    requires UnitReady(u) && IsFor(u, p, q, a)
    decreases |vs|
  {
    && st.pc == q && StepOk(u, st)
    && var next := Next(u, st);
    if vs == [] then next.pc == q + 1 && st' == next
    else
      && next.pc == p + 1 && a + 3 < |next.val| && next.val[a + 3] == vs[0]
      && exists n: nat, back :: BodyRuns(u, a, n, next, back) && Iterates(u, p, q, a, back, vs[1..], st')
  }

  ghost predicate BodyRuns(u: Unit, a: nat, n: nat, st: VM, back: VM)
    requires UnitReady(u)
  {
    VmRuns(u, n, st, back) && ControlKept(a, st, back)
  }

  /** What one pass over the loop instruction does to the registers it owns. */
  lemma LoopStep(u: Unit, p: nat, q: nat, a: nat, st: VM)
    requires UnitReady(u) && IsFor(u, p, q, a) && st.pc == q && StepOk(u, st)
    ensures a + 3 < u.f.nrLocals && |st.val| == |st.tag| == u.f.nrLocals
    ensures var next, idx := Next(u, st), BopVal(BADD, st.val[a], st.val[a + 2]);
            && |next.val| == |next.tag| == u.f.nrLocals
            && next.val[a] == idx && next.val[a + 1] == st.val[a + 1] && next.val[a + 2] == st.val[a + 2]
            && next.val[a + 3] == idx && next.pc == if idx <= st.val[a + 1] then p + 1 else q + 1
  {
    hide Norm, BopReady;
    ReadyWellformed(u, q);
  }

  lemma PrepStep(u: Unit, p: nat, q: nat, a: nat, st: VM)
    requires UnitReady(u) && IsFor(u, p, q, a) && st.pc == p && StepOk(u, st)
    ensures a + 3 < u.f.nrLocals && |st.val| == |st.tag| == u.f.nrLocals
    ensures var next := Next(u, st);
            && |next.val| == |next.tag| == u.f.nrLocals && next.pc == q
            && next.val[a] == BopVal(BSUB, st.val[a], st.val[a + 2]) && Numbered(a, next)
            && next.val[a + 1] == st.val[a + 1] && next.val[a + 2] == st.val[a + 2]
  {
    hide Norm, BopReady;
    ReadyWellformed(u, p);
  }

  lemma {:induction false} IteratesCount(u: Unit, p: nat, q: nat, a: nat, st: VM, vs: seq<int>, st': VM, first: int)
    requires UnitReady(u) && IsFor(u, p, q, a) && Iterates(u, p, q, a, st, vs, st')
    requires a + 2 < |st.val| && st.val[a + 2] > 0 && IsWord(first) && BopVal(BADD, st.val[a], st.val[a + 2]) == first
    requires IsWord(LastTest(first, st.val[a + 1], st.val[a + 2]))
    ensures vs == Counted(first, st.val[a + 1], st.val[a + 2])
    decreases |vs|
  {
    hide StepOk, Next, Norm, VmRuns, IsFor, UnitReady;
    var limit, step := st.val[a + 1], st.val[a + 2];
    LoopIn(u, p, q, a, st);
    LoopStep(u, p, q, a, st);
    if vs != [] {
      var next := Next(u, st);
      var n: nat, back :| BodyRuns(u, a, n, next, back) && Iterates(u, p, q, a, back, vs[1..], st');
      LastTestBeyond(first + step, limit, step);
      NormWord(first + step);
      IteratesCount(u, p, q, a, back, vs[1..], st', first + step);
      assert vs == [vs[0]] + vs[1..];
    }
  }

  lemma LoopIn(u: Unit, p: nat, q: nat, a: nat, st: VM)
    requires UnitReady(u) && IsFor(u, p, q, a)
    ensures p < q
  {
  }

  /**
   The compiled for. With a positive step and no overflow at the last test, a loop that
   completes has run its body exactly for init, init + step, and so on up to limit.
   */
  lemma ForVisits(u: Unit, p: nat, q: nat, a: nat, st: VM, vs: seq<int>, st': VM)
    requires UnitReady(u) && IsFor(u, p, q, a) && st.pc == p && StepOk(u, st)
    requires a + 2 < |st.val| && st.val[a + 2] > 0
    requires IsWord(LastTest(st.val[a], st.val[a + 1], st.val[a + 2]))
    requires Iterates(u, p, q, a, Next(u, st), vs, st')
    ensures vs == Counted(st.val[a], st.val[a + 1], st.val[a + 2])
    ensures |vs| == Trips(st.val[a], st.val[a + 1], st.val[a + 2])
    ensures st'.pc == q + 1
  {
    hide StepOk, Next, Norm, Iterates, UnitReady, IsFor, LastTest, Counted, Trips;
    PrepStep(u, p, q, a, st);
    SubThenAdd(st.val[a], st.val[a + 2]);
    IteratesCount(u, p, q, a, Next(u, st), vs, st', st.val[a]);
    CountedIs(st.val[a], st.val[a + 1], st.val[a + 2]);
    Leaves(u, p, q, a, Next(u, st), vs, st');
  }

  lemma {:induction false} Leaves(u: Unit, p: nat, q: nat, a: nat, st: VM, vs: seq<int>, st': VM)
    requires UnitReady(u) && IsFor(u, p, q, a) && Iterates(u, p, q, a, st, vs, st')
    ensures st'.pc == q + 1
    decreases |vs|
  {
    hide StepOk, Next, UnitReady, IsFor, VmRuns;
    if vs != [] {
      var n: nat, back :| BodyRuns(u, a, n, Next(u, st), back) && Iterates(u, p, q, a, back, vs[1..], st');
      Leaves(u, p, q, a, back, vs[1..], st');
    }
  }

  /** A whole for is one run of the VM, so the linked code follows it. */
  lemma {:induction false} IteratesRuns(u: Unit, p: nat, q: nat, a: nat, st: VM, vs: seq<int>, st': VM) returns (n: nat)
    requires UnitReady(u) && IsFor(u, p, q, a) && Iterates(u, p, q, a, st, vs, st')
    ensures VmRuns(u, n, st, st')
    decreases |vs|
  {
    hide StepOk, Next, UnitReady, IsFor;
    if vs == [] {
      assert VmRuns(u, 0, st', st');
      n := 1;
    } else {
      var k: nat, back :| BodyRuns(u, a, k, Next(u, st), back) && Iterates(u, p, q, a, back, vs[1..], st');
      var j := IteratesRuns(u, p, q, a, back, vs[1..], st');
      RunsJoin(u, k, Next(u, st), back, j, st');
      n := 1 + k + j;
    }
  }

  lemma {:induction false} RunsJoin(u: Unit, j: nat, st: VM, mid: VM, k: nat, st': VM)
    requires UnitReady(u) && VmRuns(u, j, st, mid) && VmRuns(u, k, mid, st')
    ensures VmRuns(u, j + k, st, st')
    decreases j
  {
    hide StepOk, Next, UnitReady;
    if j > 0 {
      RunsJoin(u, j - 1, Next(u, st), mid, k, st');
    }
  }

  /** The linked code of a whole for, entered at its FORPREP, leaves after its FORLOOP. */
  lemma ForRuns(u: Unit, lo: int, p: nat, q: nat, a: nat, st: VM, vs: seq<int>, st': VM, x: Data) returns (y: Data)
    requires UnitReady(u) && Reachable(Whole(u)) && IsFor(u, p, q, a) && st.pc == p && StepOk(u, st)
    requires Iterates(u, p, q, a, Next(u, st), vs, st') && Represents(u.f, lo, x, st)
    ensures q + 1 < |u.code| && Linkable(Whole(u)) && Represents(u.f, lo, y, st')
    ensures Runs(Linked(Whole(u)), JumpTable(Whole(u), p), x, JumpTable(Whole(u), q + 1), y)
  {
    hide StepOk, Next, Iterates, UnitReady, IsFor, Whole, JumpTable, Linkable, Represents, Runs;
    Leaves(u, p, q, a, Next(u, st), vs, st');
    var n := IteratesRuns(u, p, q, a, Next(u, st), vs, st');
    OkInRange(u, st);
    assert VmRuns(u, n + 1, st, st');
    y := ForwardSimulation(u, lo, n + 1, st, st', x);
  }

  // ----- the loop completes whenever its body does -----

  predicate Numbered(a: nat, st: VM) {
    a + 3 < |st.tag| && st.tag[a] == LUA_TNUMBER && st.tag[a + 2] == LUA_TNUMBER
  }

  /** From each of these states the body comes back, and if the loop goes round it is again in one of them. */
  ghost predicate BodyReturns(u: Unit, q: nat, a: nat, inside: iset<VM>)
    requires UnitReady(u)
  {
    forall st <- inside :: exists n: nat, back :: Returns(u, q, a, inside, st, n, back)
  }

  ghost predicate Returns(u: Unit, q: nat, a: nat, inside: iset<VM>, st: VM, n: nat, back: VM)
    requires UnitReady(u)
  {
    && BodyRuns(u, a, n, st, back) && back.pc == q && Numbered(a, back) && StateOk(u.f, back)
    && (StepOk(u, back) && Next(u, back).pc != q + 1 ==> Next(u, back) in inside)
  }

  lemma LoopStepOk(u: Unit, p: nat, q: nat, a: nat, st: VM)
    requires UnitReady(u) && IsFor(u, p, q, a) && st.pc == q && q + 1 < |u.code| && StateOk(u.f, st) && Numbered(a, st)
    requires a + 2 < |st.val| && IsWord(BopVal(BADD, st.val[a], st.val[a + 2]) - st.val[a + 1])
    ensures StepOk(u, st)
  {
    hide BopVal, IsWord, BopReady;
    ReadyWellformed(u, q);
  }

  /** The first test is within a word's difference, and the last one does not overflow. */
  predicate TestsFit(first: int, limit: int, step: int)
    requires step > 0
  {
    IsWord(first - limit) && IsWord(LastTest(first, limit, step))
  }

  /** The test after one more turn is still within what the subtraction can compare. */
  lemma NextTestFits(first: int, limit: Word, step: Word)
    requires step > 0 && first <= limit && IsWord(first) && TestsFit(first, limit, step)
    ensures IsWord(first + step) && TestsFit(first + step, limit, step)
    ensures forall i: Word :: i == first ==> BopVal(BADD, i, step) == first + step
  {
    LastTestBeyond(first + step, limit, step);
    NormWord(first + step);
  }

  lemma {:induction false} IteratesExists(u: Unit, p: nat, q: nat, a: nat, inside: iset<VM>, st: VM, first: int)
      returns (vs: seq<int>, st': VM)
    requires UnitReady(u) && IsFor(u, p, q, a) && BodyReturns(u, q, a, inside) && q + 1 < |u.code|
    requires st.pc == q && StateOk(u.f, st) && Numbered(a, st) && a + 2 < |st.val|
    requires StepOk(u, st) ==> Next(u, st).pc != q + 1 ==> Next(u, st) in inside
    requires st.val[a + 2] > 0 && IsWord(first) && BopVal(BADD, st.val[a], st.val[a + 2]) == first
    requires TestsFit(first, st.val[a + 1], st.val[a + 2])
    ensures Iterates(u, p, q, a, st, vs, st')
    decreases if first <= st.val[a + 1] then st.val[a + 1] - first + 1 else 0
  {
    hide StepOk, Next, Norm, VmRuns, IsFor, UnitReady, BopVal, LastTest, IsWord, Numbered;
    var limit, step := st.val[a + 1], st.val[a + 2];
    LoopIn(u, p, q, a, st);
    LoopStepOk(u, p, q, a, st);
    LoopStep(u, p, q, a, st);
    var next := Next(u, st);
    if first > limit {
      vs, st' := [], next;
    } else {
      assert next in inside;
      var n: nat, back :| Returns(u, q, a, inside, next, n, back);
      NextTestFits(first, limit, step);
      var ws, end := IteratesExists(u, p, q, a, inside, back, first + step);
      vs, st' := [first] + ws, end;
      assert vs[1..] == ws;
    }
  }

  /**
   Total correctness of the compiled for: if the body always comes back, a loop with a positive
   step completes, whatever it counts, as long as its tests fit.
   */
  lemma ForCompletes(u: Unit, p: nat, q: nat, a: nat, inside: iset<VM>, st: VM) returns (vs: seq<int>, st': VM)
    requires UnitReady(u) && IsFor(u, p, q, a) && BodyReturns(u, q, a, inside) && q + 1 < |u.code|
    requires st.pc == p && StepOk(u, st) && a + 2 < |st.val| && st.val[a + 2] > 0
    requires TestsFit(st.val[a], st.val[a + 1], st.val[a + 2])
    requires StepOk(u, Next(u, st)) ==> Next(u, Next(u, st)).pc != q + 1 ==> Next(u, Next(u, st)) in inside
    ensures Iterates(u, p, q, a, Next(u, st), vs, st')
    ensures vs == Counted(st.val[a], st.val[a + 1], st.val[a + 2])
  {
    hide Norm, Iterates, UnitReady, IsFor, LastTest, Counted, Trips, BodyReturns, StepOk, Next;
    PrepStep(u, p, q, a, st);
    SubThenAdd(st.val[a], st.val[a + 2]);
    vs, st' := IteratesExists(u, p, q, a, inside, Next(u, st), st.val[a]);
    ForVisits(u, p, q, a, st, vs, st');
  }

  lemma EmptyBodyReturns(u: Unit, p: nat, a: nat) returns (inside: iset<VM>)
    requires UnitReady(u) && IsFor(u, p, p + 1, a)
    ensures inside == iset st: VM | st.pc == p + 1 && StateOk(u.f, st) && Numbered(a, st) && a + 3 < |st.val|
    ensures BodyReturns(u, p + 1, a, inside)
  {
    hide StepOk, Next, IsFor, UnitReady, StateOk, Numbered;
    inside := iset st: VM | st.pc == p + 1 && StateOk(u.f, st) && Numbered(a, st) && a + 3 < |st.val|;
    var q := p + 1;
    forall st <- inside
      ensures exists n: nat, back :: Returns(u, q, a, inside, st, n, back)
    {
      assert VmRuns(u, 0, st, st);
      if StepOk(u, st) {
        NumberedNext(u, p, a, st);
      }
      assert BodyRuns(u, a, 0, st, st) by { ControlSelf(a, st); }
      assert Returns(u, q, a, inside, st, 0, st);
    }
  }

  lemma ControlSelf(a: nat, st: VM)
    requires Numbered(a, st) && a + 3 < |st.val|
    ensures ControlKept(a, st, st)
  {
  }

  lemma NumberedNext(u: Unit, p: nat, a: nat, st: VM)
    requires UnitReady(u) && IsFor(u, p, p + 1, a) && st.pc == p + 1 && StepOk(u, st)
    ensures var next := Next(u, st);
            StateOk(u.f, next) && Numbered(a, next) && a + 3 < |next.val| && (next.pc == p + 1 || next.pc == p + 2)
  {
    hide BopVal, BopReady;
    ReadyWellformed(u, p + 1);
  }

  /** An empty for statement always completes, and counts from init to limit. */
  lemma EmptyForCompletes(u: Unit, p: nat, a: nat, st: VM) returns (st': VM)
    requires UnitReady(u) && IsFor(u, p, p + 1, a) && p + 2 < |u.code|
    requires st.pc == p && StepOk(u, st) && a + 2 < |st.val| && st.val[a + 2] > 0
    requires TestsFit(st.val[a], st.val[a + 1], st.val[a + 2])
    ensures Iterates(u, p, p + 1, a, Next(u, st), Counted(st.val[a], st.val[a + 1], st.val[a + 2]), st')
  {
    hide StepOk, Next, Iterates, UnitReady, IsFor, TestsFit, Counted, BodyReturns, Numbered;
    var inside := EmptyBodyReturns(u, p, a);
    PrepStep(u, p, p + 1, a, st);
    if StepOk(u, Next(u, st)) {
      NumberedNext(u, p, a, Next(u, st));
    }
    var vs;
    vs, st' := ForCompletes(u, p, p + 1, a, inside, st);
  }
}

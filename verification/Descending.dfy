/**
 Captures in descending address order. A frame that captures its locals so, between closings,
 keeps the list of open upvalues in order, and then closing in the middle of a frame is right
 too, wherever it closes from.
 */
module Descending {
  import opened Wrappers
  import opened Upvalues
  import opened Cells

  /** Addresses go up along the list. */
  predicate Sorted<U, V>(w: World<U, V>) {
    forall i, j :: 0 <= i < j < |w.open| ==> AddrAt(w, i) < AddrAt(w, j)
  }

  /** A new capture is of a local below every one the frame has open; recapturing is free. */
  predicate Descends<V>(c: Run<V>, op: Op<V>)
    requires Possible(c, op)
  {
    op.Capture? ==>
      || SlotOpen(c.w, Slot(Current(c), op.idx))
      || forall i :: 0 <= i < Current(c).size && SlotOpen(c.w, Slot(Current(c), i)) ==> i < op.idx
  }

  /** Nothing is asked of closings but that they name a local of the frame. */
  predicate RunDescends<V>(c: Run<V>, ops: seq<Op<V>>)
    decreases |ops|
  {
    ops == [] || (Sound(c) && Possible(c, ops[0]) && Descends(c, ops[0]) && RunDescends(RunStep(c, ops[0]), ops[1..]))
  }

  /** In order, every address splits the list, and closing from it closes exactly what is at or below it. */
  lemma SortedSplits<U, V>(w: World<U, V>, b: int)
    requires Wf(w) && Sorted(w)
    ensures Splits(w, b) && ClosesExactly(w, b, b)
  {
    hide Wf, ClosesExactly;
    ClosesExactlyIff(w, b, b);
  }

  /** The captured local is below everything open. */
  lemma BelowOpen<V>(c: Run<V>, a: Heap<V>, of: map<nat, nat>, idx: nat, i: nat)
    requires Refines(c, a, of) && Possible(c, Op<V>.Capture(idx)) && Descends(c, Op<V>.Capture(idx))
    requires FindFrom(c.w, Slot(Current(c), idx), 0).None? && i < |c.w.open|
    ensures Slot(Current(c), idx) < AddrAt(c.w, i)
  {
    hide LocalsHold, UpsHold, HandlesHold, Layered, Nested, Sound;
    OpenListed(c, a, of, i);
    var k, j := UpSlot(c, a, of, c.w.open[i]);
    assert SlotOpen(c.w, AddrAt(c.w, i));
    SlotAgainst(c.frames, idx, k, j);
    if k == |c.frames| - 1 {
      assert j < idx;
    }
  }

  lemma OpenListed<V>(c: Run<V>, a: Heap<V>, of: map<nat, nat>, i: nat)
    requires Refines(c, a, of) && i < |c.w.open|
    ensures var u := c.w.open[i]; u in c.w.ups && u in of && c.w.ups[u].at == Stack(AddrAt(c.w, i))
  {
    ListedOpen(c.w, i);
  }

  lemma CaptureSorted<V>(c: Run<V>, a: Heap<V>, of: map<nat, nat>, idx: nat)
    requires Refines(c, a, of) && Possible(c, Op<V>.Capture(idx)) && Descends(c, Op<V>.Capture(idx)) && Sorted(c.w)
    ensures Sorted(RunStep(c, Op<V>.Capture(idx)).w)
  {
    hide Refines, Sound, Descends, Upvalues.Capture;
    var op := Op<V>.Capture(idx);
    var dst := Slot(Current(c), idx);
    CaptureShape(c, a, of, idx);
    var w' := RunStep(c, op).w;
    if FindFrom(c.w, dst, 0).None? {
      forall i, j | 0 <= i < j < |w'.open|
        ensures AddrAt(w', i) < AddrAt(w', j)
      {
        HeadShape(c.w, dst, c.next, c.w.stack[dst], i);
        HeadShape(c.w, dst, c.next, c.w.stack[dst], j);
        BelowOpen(c, a, of, idx, j - 1);
      }
    }
  }

  lemma CaptureShape<V>(c: Run<V>, a: Heap<V>, of: map<nat, nat>, idx: nat)
    requires Refines(c, a, of) && Possible(c, Op<V>.Capture(idx))
    ensures var dst := Slot(Current(c), idx);
            && Sound(c) && dst in c.w.stack && Wf(c.w) && c.next !in c.w.ups
            && RunStep(c, Op<V>.Capture(idx)).w == Upvalues.Capture(c.w, dst, c.next, c.w.stack[dst])
            && (FindFrom(c.w, dst, 0).Some? ==> Upvalues.Capture(c.w, dst, c.next, c.w.stack[dst]) == c.w)
            && (FindFrom(c.w, dst, 0).None? ==> |Upvalues.Capture(c.w, dst, c.next, c.w.stack[dst]).open| == |c.w.open| + 1)
  {
  }

  lemma CloseSorted<V>(w: World<nat, V>, b: int)
    requires Wf(w) && Sorted(w)
    ensures Sorted(Close(w, b))
  {
    hide Wf, AddrAt, CloseFirst;
    var n, w' := Leading(w, b, 0), Close(w, b);
    FirstShape(w, n);
    forall i, j | 0 <= i < j < |w'.open|
      ensures AddrAt(w', i) < AddrAt(w', j)
    {
      FirstRest(w, n, i);
      FirstRest(w, n, j);
    }
  }

  lemma WriteSorted<V>(w: World<nat, V>, u: nat, v: V)
    requires u in w.ups && Sorted(w)
    ensures Sorted(WriteUp(w, u, v))
  {
    var w' := WriteUp(w, u, v);
    assert w'.open == w.open;
    forall i | 0 <= i < |w.open|
      ensures AddrAt(w', i) == AddrAt(w, i)
    {
    }
  }

  lemma StepSorted<V>(c: Run<V>, a: Heap<V>, of: map<nat, nat>, op: Op<V>)
    requires Refines(c, a, of) && Possible(c, op) && Descends(c, op) && Sorted(c.w)
    ensures Sound(c) && Sorted(RunStep(c, op).w)
  {
    hide LocalsHold, UpsHold, HandlesHold, Layered, Nested, Descends, Close, Upvalues.Capture, Fill, Wf, WriteUp;
    match op
    case Capture(idx) => CaptureSorted(c, a, of, idx);
    case SetUp(h, v) => WriteSorted(c.w, c.handles[h], v);
    case CloseFrom(idx) => CloseSorted(c.w, Slot(Current(c), idx));
    case Exit => CloseSorted(c.w, Current(c).ceil);
    case Enter(_, _) => SameAddresses(c.w, RunStep(c, op).w);
    case SetLocal(_, _) => SameAddresses(c.w, RunStep(c, op).w);
    case _ =>
  }

  lemma SameAddresses<V>(w: World<nat, V>, w': World<nat, V>)
    requires w'.open == w.open && w'.ups == w.ups && Sorted(w)
    ensures Sorted(w')
  {
    forall i | 0 <= i < |w.open|
      ensures AddrAt(w', i) == AddrAt(w, i)
    {
    }
  }

  lemma StepAllowed<V>(c: Run<V>, a: Heap<V>, of: map<nat, nat>, op: Op<V>)
    requires Refines(c, a, of) && Possible(c, op) && Sorted(c.w)
    ensures Allowed(c, op)
    ensures op.CloseFrom? ==> Wf(c.w) && ClosesExactly(c.w, Slot(Current(c), op.idx), Slot(Current(c), op.idx))
  {
    hide LocalsHold, UpsHold, HandlesHold, Layered, Nested, ClosesExactly, Sorted;
    if op.CloseFrom? {
      SortedSplits(c.w, Slot(Current(c), op.idx));
    }
  }

  lemma {:induction false} DescendingAllowed<V>(c: Run<V>, a: Heap<V>, of: map<nat, nat>, ops: seq<Op<V>>)
    requires Refines(c, a, of) && Sorted(c.w) && RunDescends(c, ops)
    ensures RunAllowed(c, ops)
    decreases |ops|
  {
    hide Refines, RunStep, HeapStep, Allowed, Possible, Descends, Named, RunOut, HeapOut, Sound, Sorted, ClosesExactly;
    if ops != [] {
      StepAllowed(c, a, of, ops[0]);
      StepSorted(c, a, of, ops[0]);
      var of' := StepRefines(c, a, of, ops[0]);
      DescendingAllowed(RunStep(c, ops[0]), HeapStep(a, ops[0]), of', ops[1..]);
    }
  }

  /**
   Upvalues are heap cells over every run in which each frame captures in descending address
   order between closings, with block closings from any local: each closes exactly the block.
   */
  lemma DescendingUpvaluesAreCells<V>(ops: seq<Op<V>>)
    requires RunDescends(Start<V>(), ops)
    ensures RunAllowed(Start<V>(), ops)
    ensures HeapNamed(NoCells<V>(), ops) && RunReads(Start<V>(), ops) == HeapReads(NoCells<V>(), ops)
  {
    DescendingAllowed(Start<V>(), NoCells<V>(), map[], ops);
    UpvaluesAreCells(ops);
  }
}

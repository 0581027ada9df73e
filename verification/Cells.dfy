/**
 Upvalues refine heap cells. Runs of a program over frames, captures, reads, writes and
 returns are given twice: with the upvalue list and the stack, and as Lua defines them, where
 each local variable is a cell that closures share. Every run reads the same values in both.
 */
module Cells {
  import opened Wrappers
  import opened Upvalues

  /** A frame: the address its return closes from, local 0's address, number of locals. */
  datatype Fr = Fr(ceil: int, base: int, size: nat)

  datatype Op<V> =
    | Enter(fr: Fr, vals: seq<V>)
    | Capture(idx: nat)
    | Inherit(h: nat)
    | GetLocal(idx: nat)
    | SetLocal(idx: nat, v: V)
    | GetUp(h: nat)
    | SetUp(h: nat, v: V)
    | CloseFrom(idx: nat)
    | Exit

  // ----- the meaning: cells -----

  /** Cells ever made, the cells of each frame's locals, and the cell each closure entry shares. */
  datatype Heap<V> = Heap(cells: seq<V>, locals: seq<seq<nat>>, handles: seq<nat>)

  function Range(from: nat, n: nat): (s: seq<nat>)
    ensures |s| == n && forall i :: 0 <= i < n ==> s[i] == from + i
  {
    seq(n, i => from + i)
  }

  /** The op makes sense in this state: it names a local, or a closure entry, that exists. */
  predicate Named<V>(a: Heap<V>, op: Op<V>) {
    && (forall k, i :: 0 <= k < |a.locals| && 0 <= i < |a.locals[k]| ==> a.locals[k][i] < |a.cells|)
    && (forall h :: 0 <= h < |a.handles| ==> a.handles[h] < |a.cells|)
    && match op
       case Enter(fr, vals) => |vals| == fr.size
       case Capture(idx) => a.locals != [] && idx < |Top(a)|
       case Inherit(h) => h < |a.handles|
       case GetLocal(idx) => a.locals != [] && idx < |Top(a)|
       case SetLocal(idx, _) => a.locals != [] && idx < |Top(a)|
       case GetUp(h) => h < |a.handles|
       case SetUp(h, _) => h < |a.handles|
       case CloseFrom(idx) => a.locals != [] && idx <= |Top(a)|
       case Exit => a.locals != []
  }

  function Top<V>(a: Heap<V>): seq<nat>
    requires a.locals != []
  {
    a.locals[|a.locals| - 1]
  }

  /** Cells of ended variables are left to the closures; a reused register starts a new cell. */
  function HeapStep<V>(a: Heap<V>, op: Op<V>): Heap<V>
    requires Named(a, op)
  {
    match op
    case Enter(_, vals) => a.(cells := a.cells + vals, locals := a.locals + [Range(|a.cells|, |vals|)])
    case Capture(idx) => a.(handles := a.handles + [Top(a)[idx]])
    case Inherit(h) => a.(handles := a.handles + [a.handles[h]])
    case GetLocal(_) => a
    case SetLocal(idx, v) => a.(cells := a.cells[Top(a)[idx] := v])
    case GetUp(_) => a
    case SetUp(h, v) => a.(cells := a.cells[a.handles[h] := v])
    case CloseFrom(idx) =>
      var t, n := Top(a), |Top(a)| - idx;
      a.(cells := a.cells + seq(n, i requires 0 <= i < n => a.cells[t[idx + i]]),
         locals := a.locals[..|a.locals| - 1] + [t[..idx] + Range(|a.cells|, n)])
    case Exit => a.(locals := a.locals[..|a.locals| - 1])
  }

  function HeapOut<V>(a: Heap<V>, op: Op<V>): Option<V>
    requires Named(a, op)
  {
    match op
    case GetLocal(idx) => Some(a.cells[Top(a)[idx]])
    case GetUp(h) => Some(a.cells[a.handles[h]])
    case _ => None
  }

  // ----- the implementation: stack slots and upvalues -----

  /** The world, the frames, the upvalue of each closure entry, and the next upvalue's name. */
  datatype Run<V> = Run(w: World<nat, V>, frames: seq<Fr>, handles: seq<nat>, next: nat)

  function Current<V>(c: Run<V>): Fr
    requires c.frames != []
  {
    c.frames[|c.frames| - 1]
  }

  function Slot(fr: Fr, idx: nat): int {
    TvalueOffset(fr.base, idx)
  }

  /** First address below a frame's locals. */
  function Low(fr: Fr): int {
    Slot(fr, fr.size)
  }

  /** Values put in the slots from base down. */
  function Fill<V>(stack: map<int, V>, base: int, vals: seq<V>): map<int, V> {
    if vals == [] then stack
    else Fill(stack, base, vals[..|vals| - 1])[TvalueOffset(base, |vals| - 1) := vals[|vals| - 1]]
  }

  lemma {:induction false} FillSets<V>(stack: map<int, V>, base: int, vals: seq<V>)
    ensures forall i :: 0 <= i < |vals| ==> TvalueOffset(base, i) in Fill(stack, base, vals) && Fill(stack, base, vals)[TvalueOffset(base, i)] == vals[i]
    ensures forall b <- stack :: b in Fill(stack, base, vals) && (b > base ==> Fill(stack, base, vals)[b] == stack[b])
    decreases |vals|
  {
    if vals != [] {
      FillSets(stack, base, vals[..|vals| - 1]);
    }
  }

  /**
   What the compiler and the calling convention guarantee: a frame lies below its caller's
   locals, and the return address for upvalues, ceil, is below every variable captured so
   far, since registers from the called one up are temporaries.
   */
  predicate Possible<V>(c: Run<V>, op: Op<V>) {
    match op
    case Enter(fr, vals) =>
      && |vals| == fr.size && fr.base <= fr.ceil
      && (c.frames != [] ==> fr.base <= Low(Current(c)))
      && forall i :: 0 <= i < |c.w.open| ==> AddrAt(c.w, i) > fr.ceil
    case Capture(idx) => c.frames != [] && idx < Current(c).size
    case Inherit(h) => h < |c.handles|
    case GetLocal(idx) => c.frames != [] && idx < Current(c).size
    case SetLocal(idx, _) => c.frames != [] && idx < Current(c).size
    case GetUp(h) => h < |c.handles|
    case SetUp(h, _) => h < |c.handles|
    case CloseFrom(idx) => c.frames != [] && idx <= Current(c).size
    case Exit => c.frames != []
  }

  /** Besides, a block's upvalues are closed only when they are listed before the ones that stay. */
  predicate Allowed<V>(c: Run<V>, op: Op<V>) {
    Possible(c, op) && (op.CloseFrom? ==> Splits(c.w, Slot(Current(c), op.idx)))
  }

  /** The state is well formed: what every operation needs to be defined. */
  predicate Sound<V>(c: Run<V>) {
    && Wf(c.w)
    && (forall k, i :: 0 <= k < |c.frames| && 0 <= i < c.frames[k].size ==> Slot(c.frames[k], i) in c.w.stack)
    && (forall u <- c.handles :: u in c.w.ups)
    && (forall u <- c.w.ups :: u < c.next)
  }

  function RunStep<V>(c: Run<V>, op: Op<V>): Run<V>
    requires Sound(c) && Possible(c, op)
  {
    match op
    case Enter(fr, vals) => c.(w := c.w.(stack := Fill(c.w.stack, fr.base, vals)), frames := c.frames + [fr])
    case Capture(idx) =>
      var dst := Slot(Current(c), idx);
      c.(w := Upvalues.Capture(c.w, dst, c.next, c.w.stack[dst]),
         handles := c.handles + [Captured(c.w, dst, c.next)],
         next := c.next + 1)
    case Inherit(h) => c.(handles := c.handles + [c.handles[h]])
    case GetLocal(_) => c
    case SetLocal(idx, v) => c.(w := c.w.(stack := c.w.stack[Slot(Current(c), idx) := v]))
    case GetUp(_) => c
    case SetUp(h, v) => c.(w := WriteUp(c.w, c.handles[h], v))
    case CloseFrom(idx) => c.(w := Close(c.w, Slot(Current(c), idx)))
    case Exit => c.(w := Close(c.w, Current(c).ceil), frames := c.frames[..|c.frames| - 1])
  }

  function RunOut<V>(c: Run<V>, op: Op<V>): Option<V>
    requires Sound(c) && Possible(c, op)
  {
    match op
    case GetLocal(idx) => Some(c.w.stack[Slot(Current(c), idx)])
    case GetUp(h) =>
      UpReadable(c, c.handles[h]);
      Some(ReadUp(c.w, c.handles[h]))
    case _ => None
  }

  lemma UpReadable<V>(c: Run<V>, u: nat)
    requires Sound(c) && u in c.w.ups
    ensures c.w.ups[u].at.Stack? ==> c.w.ups[u].at.addr in c.w.stack && u in c.w.open
  {
  }

  // ----- the relation -----

  /** Frames lie one below the other. */
  predicate Nested(frames: seq<Fr>) {
    && (forall k :: 0 <= k < |frames| ==> frames[k].base <= frames[k].ceil)
    && (forall j, k :: 0 <= j < k < |frames| ==> frames[k].base <= Low(frames[j]))
  }

  /** Locals are in their slots with the values of their cells, and no two share a cell. */
  ghost predicate LocalsHold<V>(c: Run<V>, a: Heap<V>) {
    && |a.locals| == |c.frames|
    && (forall k :: 0 <= k < |c.frames| ==> |a.locals[k]| == c.frames[k].size)
    && (forall k, i :: 0 <= k < |c.frames| && 0 <= i < c.frames[k].size ==> LocalHolds(c, a, k, i))
    && (forall k, i, j, l :: LiveAt(a, k, i) && LiveAt(a, j, l) && a.locals[k][i] == a.locals[j][l] ==> k == j && i == l)
  }

  ghost predicate LocalHolds<V>(c: Run<V>, a: Heap<V>, k: nat, i: nat)
    requires k < |c.frames| && k < |a.locals| && i < |a.locals[k]|
  {
    && a.locals[k][i] < |a.cells|
    && Slot(c.frames[k], i) in c.w.stack
    && c.w.stack[Slot(c.frames[k], i)] == a.cells[a.locals[k][i]]
  }

  predicate LiveAt<V>(a: Heap<V>, k: int, i: int) {
    0 <= k < |a.locals| && 0 <= i < |a.locals[k]|
  }

  /** An upvalue stands for its cell: through the slot of that local, or on its own. */
  ghost predicate UpHolds<V>(c: Run<V>, a: Heap<V>, u: nat, cell: nat)
    requires u in c.w.ups && |a.locals| == |c.frames|
  {
    cell < |a.cells| &&
    match c.w.ups[u].at
    case Stack(addr) => exists k, i :: LiveAt(a, k, i) && addr == Slot(c.frames[k], i) && cell == a.locals[k][i]
    case Own => c.w.ups[u].own == a.cells[cell] && forall k, i :: LiveAt(a, k, i) ==> a.locals[k][i] != cell
  }

  /** of names the cell of each upvalue; different upvalues have different cells. */
  ghost predicate UpsHold<V>(c: Run<V>, a: Heap<V>, of: map<nat, nat>)
    requires |a.locals| == |c.frames|
  {
    && of.Keys == c.w.ups.Keys
    && (forall u <- of :: UpHolds(c, a, u, of[u]))
    && (forall u <- of, v <- of :: of[u] == of[v] ==> u == v)
  }

  predicate HandlesHold<V>(c: Run<V>, a: Heap<V>, of: map<nat, nat>) {
    && |c.handles| == |a.handles|
    && forall h :: 0 <= h < |c.handles| ==> c.handles[h] in of && of[c.handles[h]] == a.handles[h] && a.handles[h] < |a.cells|
  }

  /** Upvalues of a frame and of those it called come first, and only they are at or below ceil. */
  predicate Layered<V>(c: Run<V>) {
    && (forall k :: 0 <= k < |c.frames| ==> Splits(c.w, c.frames[k].ceil))
    && (forall k, j, i :: 0 <= j < k < |c.frames| && 0 <= i < c.frames[j].size && SlotOpen(c.w, Slot(c.frames[j], i)) ==>
          Slot(c.frames[j], i) > c.frames[k].ceil)
  }

  predicate SlotOpen<V>(w: World<nat, V>, addr: int) {
    exists i :: 0 <= i < |w.open| && AddrAt(w, i) == addr
  }

  ghost predicate Refines<V>(c: Run<V>, a: Heap<V>, of: map<nat, nat>) {
    Sound(c) && Nested(c.frames) && LocalsHold(c, a) && UpsHold(c, a, of) && HandlesHold(c, a, of) && Layered(c)
  }

  // ----- frames and slots -----

  lemma LowBelow(frames: seq<Fr>, k: nat, i: nat)
    requires Nested(frames) && k < |frames| && i < frames[k].size
    ensures Low(frames[k]) < Slot(frames[k], i) <= frames[k].base <= frames[k].ceil
  {
  }

  /** Distinct live locals are in distinct slots. */
  lemma SlotsApart(frames: seq<Fr>, k: nat, i: nat, j: nat, l: nat)
    requires Nested(frames) && k < |frames| && i < frames[k].size && j < |frames| && l < frames[j].size
    ensures Slot(frames[k], i) == Slot(frames[j], l) <==> k == j && i == l
    ensures k < j ==> Slot(frames[k], i) > frames[j].base
  {
    LowBelow(frames, k, i);
    LowBelow(frames, j, l);
  }

  lemma AllowedNamed<V>(c: Run<V>, a: Heap<V>, of: map<nat, nat>, op: Op<V>)
    requires Refines(c, a, of) && Allowed(c, op)
    ensures Named(a, op)
  {
    hide Sound, Nested, Layered, UpsHold, Splits, LocalHolds;
    forall k, i | 0 <= k < |a.locals| && 0 <= i < |a.locals[k]|
      ensures a.locals[k][i] < |a.cells|
    {
      CellInRange(c, a, k, i);
    }
  }

  lemma CellInRange<V>(c: Run<V>, a: Heap<V>, k: nat, i: nat)
    requires LocalsHold(c, a) && k < |a.locals| && i < |a.locals[k]|
    ensures a.locals[k][i] < |a.cells|
  {
    LocalCell(c, a, k, i);
  }

  lemma LocalCell<V>(c: Run<V>, a: Heap<V>, k: nat, i: nat)
    requires LocalsHold(c, a) && k < |c.frames| && i < |a.locals[k]|
    ensures LocalHolds(c, a, k, i) && LiveAt(a, k, i) && i < c.frames[k].size
  {
  }

  /** What is read agrees: in the slot and in the cell. */
  lemma OutAgrees<V>(c: Run<V>, a: Heap<V>, of: map<nat, nat>, op: Op<V>)
    requires Refines(c, a, of) && Allowed(c, op) && Named(a, op)
    ensures RunOut(c, op) == HeapOut(a, op)
  {
    hide Nested, Layered, Wf, Splits;
    match op
    case GetLocal(idx) => LocalCell(c, a, |c.frames| - 1, idx);
    case GetUp(h) => UpReads(c, a, of, c.handles[h]);
    case _ =>
  }

  lemma UpReads<V>(c: Run<V>, a: Heap<V>, of: map<nat, nat>, u: nat)
    requires Sound(c) && LocalsHold(c, a) && UpsHold(c, a, of) && u in of
    ensures u in c.w.ups && (c.w.ups[u].at.Stack? ==> c.w.ups[u].at.addr in c.w.stack)
    ensures of[u] < |a.cells| && ReadUp(c.w, u) == a.cells[of[u]]
  {
    hide Wf;
    UpReadable(c, u);
    assert UpHolds(c, a, u, of[u]);
    if c.w.ups[u].at.Stack? {
      var k, i :| LiveAt(a, k, i) && c.w.ups[u].at.addr == Slot(c.frames[k], i) && of[u] == a.locals[k][i];
      LocalCell(c, a, k, i);
    }
  }

  // ----- writes -----

  /** Writing a live local, from its frame or through an upvalue, writes its cell. */
  lemma WriteLocal<V>(c: Run<V>, a: Heap<V>, of: map<nat, nat>, k: nat, i: nat, v: V)
    requires Refines(c, a, of) && k < |c.frames| && i < c.frames[k].size
    ensures LocalHolds(c, a, k, i)
    ensures Refines(c.(w := c.w.(stack := c.w.stack[Slot(c.frames[k], i) := v])), a.(cells := a.cells[a.locals[k][i] := v]), of)
  {
    LocalCell(c, a, k, i);
    var c' := c.(w := c.w.(stack := c.w.stack[Slot(c.frames[k], i) := v]));
    var a' := a.(cells := a.cells[a.locals[k][i] := v]);
    SameOpen(c, c');
    WriteLocals(c, a, k, i, v);
    WriteUps(c, a, of, k, i, v);
    hide LocalHolds, UpHolds, Wf, Splits;
  }

  lemma WriteLocals<V>(c: Run<V>, a: Heap<V>, k: nat, i: nat, v: V)
    requires Nested(c.frames) && LocalsHold(c, a) && k < |c.frames| && i < c.frames[k].size && LocalHolds(c, a, k, i)
    ensures LocalsHold(c.(w := c.w.(stack := c.w.stack[Slot(c.frames[k], i) := v])), a.(cells := a.cells[a.locals[k][i] := v]))
  {
    hide Slot, Nested;
    var c' := c.(w := c.w.(stack := c.w.stack[Slot(c.frames[k], i) := v]));
    var a' := a.(cells := a.cells[a.locals[k][i] := v]);
    forall j, l | 0 <= j < |c.frames| && 0 <= l < c.frames[j].size
      ensures LocalHolds(c', a', j, l)
    {
      LocalCell(c, a, j, l);
      SlotsApart(c.frames, k, i, j, l);
      assert LiveAt(a, k, i) && LiveAt(a, j, l);
    }
    forall j, l, p, q | LiveAt(a', j, l) && LiveAt(a', p, q) && a'.locals[j][l] == a'.locals[p][q]
      ensures j == p && l == q
    {
      assert LiveAt(a, j, l) && LiveAt(a, p, q);
    }
  }

  lemma WriteUps<V>(c: Run<V>, a: Heap<V>, of: map<nat, nat>, k: nat, i: nat, v: V)
    requires LocalsHold(c, a) && UpsHold(c, a, of) && k < |c.frames| && i < c.frames[k].size && LocalHolds(c, a, k, i)
    ensures UpsHold(c.(w := c.w.(stack := c.w.stack[Slot(c.frames[k], i) := v])), a.(cells := a.cells[a.locals[k][i] := v]), of)
  {
    var c' := c.(w := c.w.(stack := c.w.stack[Slot(c.frames[k], i) := v]));
    var a' := a.(cells := a.cells[a.locals[k][i] := v]);
    forall u | u in of
      ensures UpHolds(c', a', u, of[u])
    {
      assert UpHolds(c, a, u, of[u]);
      match c.w.ups[u].at
      case Stack(addr) =>
        var j, l :| LiveAt(a, j, l) && addr == Slot(c.frames[j], l) && of[u] == a.locals[j][l];
        assert LiveAt(a', j, l) && of[u] == a'.locals[j][l];
      case Own =>
        assert LiveAt(a, k, i);
        forall j, l | LiveAt(a', j, l)
          ensures a'.locals[j][l] != of[u]
        {
          assert LiveAt(a, j, l);
        }
    }
  }

  /** Only values on the stack changed. */
  lemma SameOpen<V>(c: Run<V>, c': Run<V>)
    requires Sound(c) && Layered(c)
    requires c'.frames == c.frames && c'.handles == c.handles && c'.next == c.next
    requires c'.w.open == c.w.open && c'.w.ups == c.w.ups && c.w.stack.Keys <= c'.w.stack.Keys
    ensures Sound(c') && Layered(c')
  {
    SameAddrs(c.w, c'.w);
    forall addr
      ensures SlotOpen(c'.w, addr) ==> SlotOpen(c.w, addr)
    {
      if SlotOpen(c'.w, addr) {
        var i :| 0 <= i < |c'.w.open| && AddrAt(c'.w, i) == addr;
        assert AddrAt(c.w, i) == addr;
      }
    }
    hide AddrAt;
    forall b | Splits(c.w, b)
      ensures Splits(c'.w, b)
    {
    }
  }

  lemma SameAddrs<V>(w: World<nat, V>, w': World<nat, V>)
    requires w'.open == w.open && w'.ups == w.ups
    ensures forall i :: 0 <= i < |w.open| ==> AddrAt(w', i) == AddrAt(w, i)
  {
  }

  // ----- captures -----

  lemma FoundAt<V>(w: World<nat, V>, i: nat)
    requires Wf(w) && i < |w.open|
    ensures w.open[i] in w.ups && w.ups[w.open[i]].at == Stack(AddrAt(w, i))
  {
  }

  lemma Listed<V>(w: World<nat, V>, u: nat) returns (i: nat)
    requires Wf(w) && u in w.ups && w.ups[u].at.Stack?
    ensures i < |w.open| && w.open[i] == u && AddrAt(w, i) == w.ups[u].at.addr
  {
    assert u in w.open;
    i :| i < |w.open| && w.open[i] == u;
  }

  /** An upvalue at a live slot stands for that local's cell. */
  lemma OpenStandsFor<V>(c: Run<V>, a: Heap<V>, of: map<nat, nat>, u: nat, k: nat, i: nat)
    requires Nested(c.frames) && LocalsHold(c, a) && UpsHold(c, a, of) && u in of
    requires k < |c.frames| && i < c.frames[k].size && c.w.ups[u].at == Stack(Slot(c.frames[k], i))
    ensures i < |a.locals[k]| && of[u] == a.locals[k][i]
  {
    assert UpHolds(c, a, u, of[u]);
    var j, l :| LiveAt(a, j, l) && Slot(c.frames[k], i) == Slot(c.frames[j], l) && of[u] == a.locals[j][l];
    LocalCell(c, a, j, l);
    SlotsApart(c.frames, k, i, j, l);
  }

  /** And no other upvalue stands for the cell of a local whose slot has none open. */
  lemma NoneStandsFor<V>(c: Run<V>, a: Heap<V>, of: map<nat, nat>, u: nat, k: nat, i: nat)
    requires Wf(c.w) && LocalsHold(c, a) && UpsHold(c, a, of) && u in of
    requires k < |c.frames| && i < c.frames[k].size && FindFrom(c.w, Slot(c.frames[k], i), 0).None?
    ensures i < |a.locals[k]| && of[u] != a.locals[k][i]
  {
    LocalCell(c, a, k, i);
    assert UpHolds(c, a, u, of[u]);
    match c.w.ups[u].at
    case Stack(addr) =>
      var j, l :| LiveAt(a, j, l) && addr == Slot(c.frames[j], l) && of[u] == a.locals[j][l];
      var at := Listed(c.w, u);
      assert LiveAt(a, k, i);
    case Own =>
  }

  /** Closure entries changed, and nothing else. */
  lemma SameWorld<V>(c: Run<V>, a: Heap<V>, of: map<nat, nat>, c': Run<V>, a': Heap<V>)
    requires LocalsHold(c, a) && UpsHold(c, a, of) && Layered(c)
    requires c'.w == c.w && c'.frames == c.frames && a'.cells == a.cells && a'.locals == a.locals
    ensures LocalsHold(c', a') && UpsHold(c', a', of) && Layered(c')
  {
    CaptureLocals(c, a, c', a');
    forall u | u in of
      ensures UpHolds(c', a', u, of[u])
    {
      CaptureUp(c, a, c', a', u, of[u]);
    }
  }

  lemma HandleAdded<V>(c: Run<V>, a: Heap<V>, of: map<nat, nat>, c': Run<V>, a': Heap<V>, u: nat)
    requires HandlesHold(c, a, of) && u in of && of[u] < |a.cells|
    requires c'.handles == c.handles + [u] && a'.handles == a.handles + [of[u]] && a'.cells == a.cells
    ensures HandlesHold(c', a', of)
  {
  }

  lemma StepCapture<V>(c: Run<V>, a: Heap<V>, of: map<nat, nat>, idx: nat) returns (of': map<nat, nat>)
    requires Refines(c, a, of) && Allowed(c, Capture(idx)) && Named(a, Capture(idx))
    ensures Refines(RunStep(c, Capture(idx)), HeapStep(a, Capture(idx)), of')
  {
    hide LocalsHold, UpsHold, Layered, Wf, UpHolds, LocalHolds, HandlesHold, FindFrom, Splits, Nested;
    var k := |c.frames| - 1;
    var dst := Slot(c.frames[k], idx);
    var r := FindFrom(c.w, dst, 0);
    var c', a' := RunStep(c, Capture(idx)), HeapStep(a, Capture(idx));
    if r.Some? {
      of' := of;
      var u := c.w.open[r.value];
      FoundAt(c.w, r.value);
      TopCell(c, a, idx);
      UpsDomain(c, a, of);
      OpenStandsFor(c, a, of, u, k, idx);
      SameWorld(c, a, of, c', a');
      HandleAdded(c, a, of, c', a', u);
    } else {
      of' := of[c.next := Top(a)[idx]];
      NewUp(c, a, of, idx);
      NewSound(c, idx);
      NewLayered(c, idx);
    }
  }

  lemma UpsDomain<V>(c: Run<V>, a: Heap<V>, of: map<nat, nat>)
    requires |a.locals| == |c.frames| && UpsHold(c, a, of)
    ensures of.Keys == c.w.ups.Keys
  {
  }

  lemma TopCell<V>(c: Run<V>, a: Heap<V>, idx: nat)
    requires LocalsHold(c, a) && c.frames != [] && idx < Current(c).size
    ensures |a.locals| == |c.frames| && idx < |Top(a)| && Top(a)[idx] < |a.cells|
  {
    LocalCell(c, a, |c.frames| - 1, idx);
  }

  lemma NewSound<V>(c: Run<V>, idx: nat)
    requires Sound(c) && Allowed(c, Capture(idx)) && FindFrom(c.w, Slot(Current(c), idx), 0).None?
    ensures Sound(RunStep(c, Capture(idx)))
  {
    var dst := Slot(Current(c), idx);
    CaptureWf(c.w, dst, c.next, c.w.stack[dst]);
    HeadKeeps(c.w, dst, c.next, c.w.stack[dst]);
  }

  lemma NewUp<V>(c: Run<V>, a: Heap<V>, of: map<nat, nat>, idx: nat)
    requires Refines(c, a, of) && Allowed(c, Capture(idx)) && Named(a, Capture(idx))
    requires FindFrom(c.w, Slot(Current(c), idx), 0).None?
    ensures var of' := of[c.next := Top(a)[idx]];
            var c', a' := RunStep(c, Capture(idx)), HeapStep(a, Capture(idx));
            LocalsHold(c', a') && UpsHold(c', a', of') && HandlesHold(c', a', of')
  {
    hide FindFrom, Wf, LocalHolds, UpHolds, Splits, Layered, Nested;
    var k := |c.frames| - 1;
    var dst, cell := Slot(c.frames[k], idx), a.locals[k][idx];
    var of' := of[c.next := cell];
    var c', a' := RunStep(c, Capture(idx)), HeapStep(a, Capture(idx));
    HeadKeeps(c.w, dst, c.next, c.w.stack[dst]);
    CaptureLocals(c, a, c', a');
    forall u | u in of'
      ensures UpHolds(c', a', u, of'[u])
      ensures u != c.next ==> u in of && of[u] != cell
    {
      if u == c.next {
        NewUpHolds(c, a, c', a', u, k, idx);
      } else {
        NoneStandsFor(c, a, of, u, k, idx);
        CaptureUp(c, a, c', a', u, of[u]);
      }
    }
  }

  lemma NewUpHolds<V>(c: Run<V>, a: Heap<V>, c': Run<V>, a': Heap<V>, u: nat, k: nat, i: nat)
    requires LocalsHold(c, a) && c'.frames == c.frames && a'.locals == a.locals && a'.cells == a.cells
    requires k < |c.frames| && i < c.frames[k].size && u in c'.w.ups && c'.w.ups[u].at == Stack(Slot(c.frames[k], i))
    ensures i < |a.locals[k]| && UpHolds(c', a', u, a.locals[k][i])
  {
    LocalCell(c, a, k, i);
    assert LiveAt(a', k, i);
  }

  lemma CaptureLocals<V>(c: Run<V>, a: Heap<V>, c': Run<V>, a': Heap<V>)
    requires LocalsHold(c, a) && c'.frames == c.frames && c'.w.stack == c.w.stack
    requires a'.cells == a.cells && a'.locals == a.locals
    ensures LocalsHold(c', a')
  {
    forall k, i | 0 <= k < |c'.frames| && 0 <= i < c'.frames[k].size
      ensures LocalHolds(c', a', k, i)
    {
      LocalCell(c, a, k, i);
    }
    forall j, l, p, q | LiveAt(a', j, l) && LiveAt(a', p, q) && a'.locals[j][l] == a'.locals[p][q]
      ensures j == p && l == q
    {
      assert LiveAt(a, j, l) && LiveAt(a, p, q);
    }
  }

  lemma CaptureUp<V>(c: Run<V>, a: Heap<V>, c': Run<V>, a': Heap<V>, u: nat, cell: nat)
    requires u in c.w.ups && u in c'.w.ups && c'.w.ups[u] == c.w.ups[u] && c'.frames == c.frames
    requires a'.cells == a.cells && a'.locals == a.locals && |a.locals| == |c.frames| && UpHolds(c, a, u, cell)
    ensures UpHolds(c', a', u, cell)
  {
    if c.w.ups[u].at.Stack? {
      var j, l :| LiveAt(a, j, l) && c.w.ups[u].at.addr == Slot(c.frames[j], l) && cell == a.locals[j][l];
      assert LiveAt(a', j, l);
    } else {
      forall j, l | LiveAt(a', j, l)
        ensures a'.locals[j][l] != cell
      {
        assert LiveAt(a, j, l);
      }
    }
  }

  lemma NewLayered<V>(c: Run<V>, idx: nat)
    requires Sound(c) && Nested(c.frames) && Layered(c) && Allowed(c, Capture(idx))
    requires FindFrom(c.w, Slot(Current(c), idx), 0).None?
    ensures Layered(RunStep(c, Capture(idx)))
  {
    hide AddrAt, Splits, Wf, FindFrom, Nested;
    var t := |c.frames| - 1;
    var dst := Slot(c.frames[t], idx);
    var c' := RunStep(c, Capture(idx));
    NewAddrs(c, idx);
    forall k | 0 <= k < |c.frames|
      ensures Splits(c'.w, c.frames[k].ceil)
    {
      CeilAbove(c.frames, k, idx);
      NewSplits(c.w, c'.w, c.frames[k].ceil);
    }
    forall k, j, i | 0 <= j < k < |c.frames| && 0 <= i < c.frames[j].size && SlotOpen(c'.w, Slot(c.frames[j], i))
      ensures Slot(c.frames[j], i) > c.frames[k].ceil
    {
      var n :| 0 <= n < |c'.w.open| && AddrAt(c'.w, n) == Slot(c.frames[j], i);
      SlotsApart(c.frames, j, i, t, idx);
      assert n > 0 && AddrAt(c.w, n - 1) == Slot(c.frames[j], i);
      assert SlotOpen(c.w, Slot(c.frames[j], i));
    }
  }

  /** A new upvalue is listed first and shifts the others by one. */
  lemma NewAddrs<V>(c: Run<V>, idx: nat)
    requires Sound(c) && Allowed(c, Capture(idx)) && FindFrom(c.w, Slot(Current(c), idx), 0).None?
    ensures var c' := RunStep(c, Capture(idx));
            && |c'.w.open| == |c.w.open| + 1 && c'.frames == c.frames && AddrAt(c'.w, 0) == Slot(Current(c), idx)
            && forall i :: 0 < i <= |c.w.open| ==> AddrAt(c'.w, i) == AddrAt(c.w, i - 1)
  {
    hide AddrAt, Wf, FindFrom;
    var dst := Slot(Current(c), idx);
    HeadShape(c.w, dst, c.next, c.w.stack[dst], 0);
    forall i | 0 < i <= |c.w.open|
      ensures AddrAt(RunStep(c, Capture(idx)).w, i) == AddrAt(c.w, i - 1)
    {
      HeadShape(c.w, dst, c.next, c.w.stack[dst], i);
    }
  }

  lemma NewSplits<V>(w: World<nat, V>, w': World<nat, V>, b: int)
    requires Splits(w, b) && |w'.open| == |w.open| + 1 && AddrAt(w', 0) <= b
    requires forall i :: 0 < i <= |w.open| ==> AddrAt(w', i) == AddrAt(w, i - 1)
    ensures Splits(w', b)
  {
    hide AddrAt;
    forall i, j | 0 <= i < j < |w'.open| && AddrAt(w', i) > b
      ensures AddrAt(w', j) > b
    {
      assert i > 0;
      assert AddrAt(w, i - 1) > b;
    }
  }

  /** The current frame's locals are at or below every frame's ceil. */
  lemma CeilAbove(frames: seq<Fr>, k: nat, idx: nat)
    requires Nested(frames) && k < |frames| && idx < frames[|frames| - 1].size
    ensures Slot(frames[|frames| - 1], idx) <= frames[k].ceil
  {
    LowBelow(frames, |frames| - 1, idx);
    if k < |frames| - 1 {
      assert frames[|frames| - 1].base <= Low(frames[k]);
    }
  }

  lemma StepInherit<V>(c: Run<V>, a: Heap<V>, of: map<nat, nat>, h: nat)
    requires Refines(c, a, of) && Allowed(c, Inherit(h)) && Named(a, Inherit(h))
    ensures Refines(RunStep(c, Inherit(h)), HeapStep(a, Inherit(h)), of)
  {
    hide LocalsHold, UpsHold, Layered, Wf, UpHolds, LocalHolds, Splits, Nested;
    var c', a' := RunStep(c, Inherit(h)), HeapStep(a, Inherit(h));
    SameWorld(c, a, of, c', a');
    HandleAdded(c, a, of, c', a', c.handles[h]);
  }

  /** The live local an open upvalue stands for. */
  lemma UpSlot<V>(c: Run<V>, a: Heap<V>, of: map<nat, nat>, u: nat) returns (k: nat, i: nat)
    requires LocalsHold(c, a) && UpsHold(c, a, of) && u in of && c.w.ups[u].at.Stack?
    ensures k < |c.frames| && i < c.frames[k].size && c.w.ups[u].at.addr == Slot(c.frames[k], i)
    ensures |a.locals| == |c.frames| && i < |a.locals[k]| && of[u] == a.locals[k][i]
  {
    hide LocalHolds;
    assert UpHolds(c, a, u, of[u]);
    var j, l :| LiveAt(a, j, l) && c.w.ups[u].at.addr == Slot(c.frames[j], l) && of[u] == a.locals[j][l];
    k, i := j, l;
  }

  lemma StepSetUp<V>(c: Run<V>, a: Heap<V>, of: map<nat, nat>, h: nat, v: V)
    requires Refines(c, a, of) && Allowed(c, SetUp(h, v)) && Named(a, SetUp(h, v))
    ensures Refines(RunStep(c, SetUp(h, v)), HeapStep(a, SetUp(h, v)), of)
  {
    hide LocalsHold, UpsHold, Layered, Wf, LocalHolds, UpHolds, Splits, Nested;
    var u := c.handles[h];
    if c.w.ups[u].at.Stack? {
      var k, i := UpSlot(c, a, of, u);
      WriteLocal(c, a, of, k, i, v);
    } else {
      WriteOwn(c, a, of, u, v);
    }
  }

  /** Writing a closed upvalue writes its cell, which no live local and no other upvalue has. */
  lemma WriteOwn<V>(c: Run<V>, a: Heap<V>, of: map<nat, nat>, u: nat, v: V)
    requires Refines(c, a, of) && u in of && of[u] < |a.cells| && c.w.ups[u].at.Own?
    ensures Refines(c.(w := WriteUp(c.w, u, v)), a.(cells := a.cells[of[u] := v]), of)
  {
    var c', a' := c.(w := WriteUp(c.w, u, v)), a.(cells := a.cells[of[u] := v]);
    OwnLocals(c, a, of, u, v);
    OwnUps(c, a, of, u, v);
    OwnSound(c, u, v);
    hide LocalsHold, UpsHold, Layered, Sound, WriteUp;
  }

  lemma OwnSound<V>(c: Run<V>, u: nat, v: V)
    requires Sound(c) && Layered(c) && u in c.w.ups && c.w.ups[u].at.Own?
    ensures var c' := c.(w := WriteUp(c.w, u, v)); Sound(c') && Layered(c')
  {
    var w' := WriteUp(c.w, u, v);
    forall i | 0 <= i < |c.w.open|
      ensures w'.open[i] in w'.ups && w'.ups[w'.open[i]] == c.w.ups[c.w.open[i]] && AddrAt(w', i) == AddrAt(c.w, i)
    {
      FoundAt(c.w, i);
    }
    hide AddrAt;
    forall b | Splits(c.w, b)
      ensures Splits(w', b)
    {
    }
    forall addr
      ensures SlotOpen(w', addr) ==> SlotOpen(c.w, addr)
    {
      if SlotOpen(w', addr) {
        var i :| 0 <= i < |w'.open| && AddrAt(w', i) == addr;
        assert AddrAt(c.w, i) == addr;
      }
    }
  }

  lemma OwnLocals<V>(c: Run<V>, a: Heap<V>, of: map<nat, nat>, u: nat, v: V)
    requires LocalsHold(c, a) && UpsHold(c, a, of) && u in of && of[u] < |a.cells| && c.w.ups[u].at.Own?
    ensures LocalsHold(c.(w := WriteUp(c.w, u, v)), a.(cells := a.cells[of[u] := v]))
  {
    var c', a' := c.(w := WriteUp(c.w, u, v)), a.(cells := a.cells[of[u] := v]);
    assert UpHolds(c, a, u, of[u]);
    forall k, i | 0 <= k < |c'.frames| && 0 <= i < c'.frames[k].size
      ensures LocalHolds(c', a', k, i)
    {
      LocalCell(c, a, k, i);
      assert LiveAt(a, k, i);
    }
    forall j, l, p, q | LiveAt(a', j, l) && LiveAt(a', p, q) && a'.locals[j][l] == a'.locals[p][q]
      ensures j == p && l == q
    {
      assert LiveAt(a, j, l) && LiveAt(a, p, q);
    }
  }

  lemma OwnUps<V>(c: Run<V>, a: Heap<V>, of: map<nat, nat>, u: nat, v: V)
    requires LocalsHold(c, a) && UpsHold(c, a, of) && u in of && of[u] < |a.cells| && c.w.ups[u].at.Own?
    ensures UpsHold(c.(w := WriteUp(c.w, u, v)), a.(cells := a.cells[of[u] := v]), of)
  {
    hide LocalHolds;
    var c', a' := c.(w := WriteUp(c.w, u, v)), a.(cells := a.cells[of[u] := v]);
    forall n | n in of
      ensures UpHolds(c', a', n, of[n])
    {
      assert UpHolds(c, a, n, of[n]);
      if c.w.ups[n].at.Stack? {
        var j, l :| LiveAt(a, j, l) && c.w.ups[n].at.addr == Slot(c.frames[j], l) && of[n] == a.locals[j][l];
        assert LiveAt(a', j, l);
      } else {
        assert n == u || of[n] != of[u];
        forall j, l | LiveAt(a', j, l)
          ensures a'.locals[j][l] != of[n]
        {
          assert LiveAt(a, j, l);
        }
      }
    }
  }

  // ----- calls -----

  lemma StepEnter<V>(c: Run<V>, a: Heap<V>, of: map<nat, nat>, fr: Fr, vals: seq<V>)
    requires Refines(c, a, of) && Allowed(c, Enter(fr, vals)) && Named(a, Enter(fr, vals))
    ensures Refines(RunStep(c, Enter(fr, vals)), HeapStep(a, Enter(fr, vals)), of)
  {
    hide LocalsHold, UpsHold, Layered, Wf, Splits, UpHolds, LocalHolds, Fill, Slot, Low;
    EnterNested(c, fr, vals);
    EnterSound(c, fr, vals);
    EnterLocals(c, a, fr, vals);
    EnterUps(c, a, of, fr, vals);
    EnterLayered(c, fr, vals);
  }

  lemma EnterNested<V>(c: Run<V>, fr: Fr, vals: seq<V>)
    requires Nested(c.frames) && Allowed(c, Enter(fr, vals))
    ensures Nested(c.frames + [fr])
  {
    var fs := c.frames + [fr];
    forall j, k | 0 <= j < k < |fs|
      ensures fs[k].base <= Low(fs[j])
    {
      if k == |c.frames| && j < k - 1 {
        assert c.frames[k - 1].base <= Low(c.frames[j]);
      }
    }
  }

  /** Every live slot is above a new frame. */
  lemma AboveNew<V>(c: Run<V>, fr: Fr, vals: seq<V>, k: nat, i: nat)
    requires Nested(c.frames) && Allowed(c, Enter(fr, vals)) && k < |c.frames| && i < c.frames[k].size
    ensures Slot(c.frames[k], i) > fr.base
  {
    EnterNested(c, fr, vals);
    LowBelow(c.frames, k, i);
    assert (c.frames + [fr])[|c.frames|].base <= Low((c.frames + [fr])[k]);
  }

  lemma EnterSound<V>(c: Run<V>, fr: Fr, vals: seq<V>)
    requires Sound(c) && Allowed(c, Enter(fr, vals))
    ensures Sound(RunStep(c, Enter(fr, vals)))
  {
    hide Fill;
    var c' := RunStep(c, Enter(fr, vals));
    FillSets(c.w.stack, fr.base, vals);
    SameAddrs(c.w, c'.w);
    forall k, i | 0 <= k < |c'.frames| && 0 <= i < c'.frames[k].size
      ensures Slot(c'.frames[k], i) in c'.w.stack
    {
      if k < |c.frames| {
        assert Slot(c.frames[k], i) in c.w.stack;
      }
    }
  }

  lemma EnterLocals<V>(c: Run<V>, a: Heap<V>, fr: Fr, vals: seq<V>)
    requires Sound(c) && Nested(c.frames) && LocalsHold(c, a) && Allowed(c, Enter(fr, vals)) && Named(a, Enter(fr, vals))
    ensures LocalsHold(RunStep(c, Enter(fr, vals)), HeapStep(a, Enter(fr, vals)))
  {
    hide Fill, Nested, Wf;
    var c', a' := RunStep(c, Enter(fr, vals)), HeapStep(a, Enter(fr, vals));
    FillSets(c.w.stack, fr.base, vals);
    forall k, i | 0 <= k < |c'.frames| && 0 <= i < c'.frames[k].size
      ensures LocalHolds(c', a', k, i)
    {
      if k < |c.frames| {
        LocalCell(c, a, k, i);
        AboveNew(c, fr, vals, k, i);
      }
    }
    forall j, l, p, q | LiveAt(a', j, l) && LiveAt(a', p, q) && a'.locals[j][l] == a'.locals[p][q]
      ensures j == p && l == q
    {
      if j < |a.locals| {
        LocalCell(c, a, j, l);
      }
      if p < |a.locals| {
        LocalCell(c, a, p, q);
      }
    }
  }

  lemma EnterUps<V>(c: Run<V>, a: Heap<V>, of: map<nat, nat>, fr: Fr, vals: seq<V>)
    requires Sound(c) && LocalsHold(c, a) && UpsHold(c, a, of) && HandlesHold(c, a, of) && Allowed(c, Enter(fr, vals)) && Named(a, Enter(fr, vals))
    ensures var c', a' := RunStep(c, Enter(fr, vals)), HeapStep(a, Enter(fr, vals));
            |a'.locals| == |c'.frames| && UpsHold(c', a', of) && HandlesHold(c', a', of)
  {
    hide Fill, Wf, LocalHolds;
    var c', a' := RunStep(c, Enter(fr, vals)), HeapStep(a, Enter(fr, vals));
    forall u | u in of
      ensures UpHolds(c', a', u, of[u])
    {
      assert UpHolds(c, a, u, of[u]);
      if c.w.ups[u].at.Stack? {
        var j, l :| LiveAt(a, j, l) && c.w.ups[u].at.addr == Slot(c.frames[j], l) && of[u] == a.locals[j][l];
        assert LiveAt(a', j, l);
      } else {
        forall j, l | LiveAt(a', j, l)
          ensures a'.locals[j][l] != of[u]
        {
          if j < |a.locals| {
            assert LiveAt(a, j, l);
          }
        }
      }
    }
  }

  lemma EnterLayered<V>(c: Run<V>, fr: Fr, vals: seq<V>)
    requires Sound(c) && Layered(c) && Allowed(c, Enter(fr, vals))
    ensures Layered(RunStep(c, Enter(fr, vals)))
  {
    hide Fill, Wf;
    var c' := RunStep(c, Enter(fr, vals));
    SameAddrs(c.w, c'.w);
    hide AddrAt;
    forall k | 0 <= k < |c'.frames|
      ensures Splits(c'.w, c'.frames[k].ceil)
    {
      if k < |c.frames| {
        assert Splits(c.w, c.frames[k].ceil);
      }
    }
    forall k, j, i | 0 <= j < k < |c'.frames| && 0 <= i < c'.frames[j].size && SlotOpen(c'.w, Slot(c'.frames[j], i))
      ensures Slot(c'.frames[j], i) > c'.frames[k].ceil
    {
      var n :| 0 <= n < |c'.w.open| && AddrAt(c'.w, n) == Slot(c'.frames[j], i);
      assert AddrAt(c.w, n) == Slot(c'.frames[j], i);
      assert SlotOpen(c.w, Slot(c.frames[j], i));
    }
  }

  // ----- closing -----

  /** Where the list is split, closing migrates an upvalue exactly when it is at or below b. */
  lemma CloseUp<V>(w: World<nat, V>, b: int, u: nat)
    requires Wf(w) && Splits(w, b) && u in w.ups
    ensures IsOpen(w, u) ==> w.ups[u].at.addr in w.stack
    ensures u in Close(w, b).ups
    ensures Close(w, b).ups[u] == if IsOpen(w, u) && w.ups[u].at.addr <= b then Up(Own, w.stack[w.ups[u].at.addr]) else w.ups[u]
  {
    var n := Leading(w, b, 0);
    ClosedFirst(w, n, u);
    if IsOpen(w, u) {
      var i := Listed(w, u);
      RestApart(w, n, i);
    } else {
      assert w.open == w.open[..n] + w.open[n..];
    }
  }

  lemma CloseSplits<V>(w: World<nat, V>, b: int, d: int)
    requires Wf(w) && Splits(w, d)
    ensures Splits(Close(w, b), d)
    ensures forall addr :: SlotOpen(Close(w, b), addr) ==> SlotOpen(w, addr)
  {
    var n, w' := Leading(w, b, 0), Close(w, b);
    forall j | 0 <= j < |w'.open|
      ensures AddrAt(w', j) == AddrAt(w, n + j)
    {
      FirstRest(w, n, j);
    }
    hide AddrAt, Wf;
    forall addr | SlotOpen(w', addr)
      ensures SlotOpen(w, addr)
    {
      var j :| 0 <= j < |w'.open| && AddrAt(w', j) == addr;
      assert AddrAt(w, n + j) == addr;
    }
  }

  lemma CloseSound<V>(c: Run<V>, b: int)
    requires Sound(c) && Layered(c)
    ensures Sound(c.(w := Close(c.w, b))) && Layered(c.(w := Close(c.w, b)))
  {
    hide Wf, Close, Splits, SlotOpen;
    CloseKeepsValues(c.w, b);
    forall k | 0 <= k < |c.frames|
      ensures Splits(Close(c.w, b), c.frames[k].ceil)
    {
      CloseSplits(c.w, b, c.frames[k].ceil);
    }
    if |c.frames| > 0 {
      CloseSplits(c.w, b, c.frames[0].ceil);
    }
  }

  /**
   Closing when every local at or below b gets a new cell or ends: upvalues of those keep the
   old cells, with the value they had, and all others are as they were.
   */
  lemma CloseUps<V>(c: Run<V>, a: Heap<V>, of: map<nat, nat>, b: int, c': Run<V>, a': Heap<V>)
    requires Sound(c) && LocalsHold(c, a) && UpsHold(c, a, of) && Splits(c.w, b)
    requires c'.w == Close(c.w, b) && |c'.frames| == |a'.locals| <= |c.frames| && c'.frames == c.frames[..|c'.frames|]
    requires a.cells <= a'.cells
    requires forall k, i :: LiveAt(a', k, i) ==>
               a'.locals[k][i] >= |a.cells| || (LiveAt(a, k, i) && a'.locals[k][i] == a.locals[k][i] && (SlotOpen(c.w, Slot(c.frames[k], i)) ==> Slot(c.frames[k], i) > b))
    requires forall k, i :: LiveAt(a, k, i) && Slot(c.frames[k], i) > b && SlotOpen(c.w, Slot(c.frames[k], i)) ==>
               LiveAt(a', k, i) && a'.locals[k][i] == a.locals[k][i]
    ensures UpsHold(c', a', of)
  {
    hide Wf, Close, Splits;
    CloseKeepsValues(c.w, b);
    forall u | u in of
      ensures UpHolds(c', a', u, of[u])
    {
      assert UpHolds(c, a, u, of[u]);
      CloseUp(c.w, b, u);
      if IsOpen(c.w, u) {
        CloseOpenUp(c, a, of, b, c', a', u);
      } else {
        forall k, i | LiveAt(a', k, i)
          ensures a'.locals[k][i] != of[u]
        {
        }
      }
    }
  }

  lemma CloseOpenUp<V>(c: Run<V>, a: Heap<V>, of: map<nat, nat>, b: int, c': Run<V>, a': Heap<V>, u: nat)
    requires Sound(c) && LocalsHold(c, a) && UpsHold(c, a, of) && Splits(c.w, b) && u in of && IsOpen(c.w, u)
    requires c'.w == Close(c.w, b) && |c'.frames| == |a'.locals| <= |c.frames| && c'.frames == c.frames[..|c'.frames|]
    requires a.cells <= a'.cells && u in c'.w.ups
    requires forall k, i :: LiveAt(a', k, i) ==>
               a'.locals[k][i] >= |a.cells| || (LiveAt(a, k, i) && a'.locals[k][i] == a.locals[k][i] && (SlotOpen(c.w, Slot(c.frames[k], i)) ==> Slot(c.frames[k], i) > b))
    requires forall k, i :: LiveAt(a, k, i) && Slot(c.frames[k], i) > b && SlotOpen(c.w, Slot(c.frames[k], i)) ==>
               LiveAt(a', k, i) && a'.locals[k][i] == a.locals[k][i]
    ensures UpHolds(c', a', u, of[u])
  {
    hide Wf, Close, Splits;
    var j, l := UpSlot(c, a, of, u);
    LocalCell(c, a, j, l);
    CloseUp(c.w, b, u);
    var n := Listed(c.w, u);
    assert SlotOpen(c.w, Slot(c.frames[j], l));
    assert LiveAt(a, j, l);
    if c.w.ups[u].at.addr <= b {
      forall k, i | LiveAt(a', k, i)
        ensures a'.locals[k][i] != of[u]
      {
      }
    } else {
      assert LiveAt(a', j, l);
    }
  }

  /** Only the current frame's upvalues are at or below the address its return closes from. */
  lemma OlderAbove<V>(c: Run<V>, k: nat, i: nat)
    requires Nested(c.frames) && Layered(c) && k < |c.frames| && i < c.frames[k].size
    requires SlotOpen(c.w, Slot(c.frames[k], i))
    ensures Slot(c.frames[k], i) > Current(c).ceil <==> k < |c.frames| - 1
  {
    LowBelow(c.frames, k, i);
  }

  lemma ExitLocals<V>(c: Run<V>, a: Heap<V>)
    requires Sound(c) && LocalsHold(c, a) && Allowed(c, Exit) && Named(a, Exit)
    ensures LocalsHold(RunStep(c, Exit), HeapStep(a, Exit))
  {
    hide Wf, Close, Splits;
    var c', a' := RunStep(c, Exit), HeapStep(a, Exit);
    CloseKeepsValues(c.w, Current(c).ceil);
    forall k, i | 0 <= k < |c'.frames| && 0 <= i < c'.frames[k].size
      ensures LocalHolds(c', a', k, i)
    {
      LocalCell(c, a, k, i);
    }
    forall j, l, p, q | LiveAt(a', j, l) && LiveAt(a', p, q) && a'.locals[j][l] == a'.locals[p][q]
      ensures j == p && l == q
    {
      assert LiveAt(a, j, l) && LiveAt(a, p, q);
    }
  }

  lemma SoundWf<V>(c: Run<V>)
    requires Sound(c)
    ensures Wf(c.w)
  {
  }

  lemma DropFrame<V>(c: Run<V>, c': Run<V>)
    requires Sound(c) && Layered(c) && Nested(c.frames) && c.frames != []
    requires c' == c.(frames := c.frames[..|c.frames| - 1])
    ensures Sound(c') && Layered(c') && Nested(c'.frames)
  {
    hide Wf, Splits, SlotOpen;
    forall k, i | 0 <= k < |c'.frames| && 0 <= i < c'.frames[k].size
      ensures Slot(c'.frames[k], i) in c'.w.stack
    {
      assert Slot(c.frames[k], i) in c.w.stack;
    }
  }

  lemma StepExit<V>(c: Run<V>, a: Heap<V>, of: map<nat, nat>)
    requires Refines(c, a, of) && Allowed(c, Exit) && Named(a, Exit)
    ensures Refines(RunStep(c, Exit), HeapStep(a, Exit), of)
  {
    hide Wf, LocalsHold, UpsHold, Splits, Close, SlotOpen, Sound, Layered, Nested;
    var c', a' := RunStep(c, Exit), HeapStep(a, Exit);
    SoundWf(c);
    CloseSound(c, Current(c).ceil);
    DropFrame(c.(w := Close(c.w, Current(c).ceil)), c');
    ExitLocals(c, a);
    ExitUps(c, a, of);
  }

  lemma ExitUps<V>(c: Run<V>, a: Heap<V>, of: map<nat, nat>)
    requires Refines(c, a, of) && Allowed(c, Exit) && Named(a, Exit)
    ensures var c', a' := RunStep(c, Exit), HeapStep(a, Exit);
            |a'.locals| == |c'.frames| && UpsHold(c', a', of)
  {
    hide Wf, UpHolds, UpsHold, Splits, Close;
    var c', a' := RunStep(c, Exit), HeapStep(a, Exit);
    var b := Current(c).ceil;
    forall k, i | LiveAt(a', k, i)
      ensures LiveAt(a, k, i) && a'.locals[k][i] == a.locals[k][i] && (SlotOpen(c.w, Slot(c.frames[k], i)) ==> Slot(c.frames[k], i) > b)
    {
      LocalCell(c, a, k, i);
      if SlotOpen(c.w, Slot(c.frames[k], i)) {
        OlderAbove(c, k, i);
      }
    }
    forall k, i | LiveAt(a, k, i) && Slot(c.frames[k], i) > b && SlotOpen(c.w, Slot(c.frames[k], i))
      ensures LiveAt(a', k, i) && a'.locals[k][i] == a.locals[k][i]
    {
      LocalCell(c, a, k, i);
      OlderAbove(c, k, i);
    }
    CloseUps(c, a, of, b, c', a');
  }

  /** Local idx of the current frame starts a new variable. */
  lemma RenewedAt<V>(c: Run<V>, a: Heap<V>, idx: nat, k: nat, i: nat)
    requires LocalsHold(c, a) && c.frames != [] && idx <= Current(c).size && Named(a, CloseFrom(idx))
    requires k < |c.frames| && i < c.frames[k].size
    ensures var a' := HeapStep(a, CloseFrom(idx));
            && |a'.locals| == |a.locals| && |a'.locals[k]| == |a.locals[k]| == c.frames[k].size
            && |a'.cells| == |a.cells| + (|Top(a)| - idx) && a.cells <= a'.cells
            && if k == |c.frames| - 1 && i >= idx then
                 a'.locals[k][i] == |a.cells| + (i - idx) < |a'.cells| && a.locals[k][i] < |a.cells|
                 && a'.cells[a'.locals[k][i]] == a.cells[a.locals[k][i]]
               else a'.locals[k][i] == a.locals[k][i] < |a.cells|
  {
    LocalCell(c, a, k, i);
  }

  lemma CloseFromLocals<V>(c: Run<V>, a: Heap<V>, idx: nat)
    requires Sound(c) && LocalsHold(c, a) && Allowed(c, CloseFrom(idx)) && Named(a, CloseFrom(idx))
    ensures LocalsHold(RunStep(c, CloseFrom(idx)), HeapStep(a, CloseFrom(idx)))
  {
    hide Wf, Close, Splits, Slot;
    var c', a' := RunStep(c, CloseFrom(idx)), HeapStep(a, CloseFrom(idx));
    CloseKeepsValues(c.w, Slot(Current(c), idx));
    forall k, i | 0 <= k < |c'.frames| && 0 <= i < c'.frames[k].size
      ensures LocalHolds(c', a', k, i)
    {
      LocalCell(c, a, k, i);
      RenewedAt(c, a, idx, k, i);
    }
    forall j, l, p, q | LiveAt(a', j, l) && LiveAt(a', p, q) && a'.locals[j][l] == a'.locals[p][q]
      ensures j == p && l == q
    {
      assert LiveAt(a, j, l) && LiveAt(a, p, q);
      RenewedAt(c, a, idx, j, l);
      RenewedAt(c, a, idx, p, q);
    }
  }

  lemma CloseFromUps<V>(c: Run<V>, a: Heap<V>, of: map<nat, nat>, idx: nat)
    requires Refines(c, a, of) && Allowed(c, CloseFrom(idx)) && Named(a, CloseFrom(idx))
    ensures var c', a' := RunStep(c, CloseFrom(idx)), HeapStep(a, CloseFrom(idx));
            |a'.locals| == |c'.frames| && UpsHold(c', a', of)
  {
    hide Wf, UpHolds, UpsHold, Splits, Close, HeapStep, Sound, Layered, Nested;
    var c', a' := RunStep(c, CloseFrom(idx)), HeapStep(a, CloseFrom(idx));
    var b := Slot(Current(c), idx);
    var t := |c.frames| - 1;
    RenewedShape(c, a, idx);
    forall k, i | LiveAt(a', k, i)
      ensures a'.locals[k][i] >= |a.cells| || (LiveAt(a, k, i) && a'.locals[k][i] == a.locals[k][i] && (SlotOpen(c.w, Slot(c.frames[k], i)) ==> Slot(c.frames[k], i) > b))
    {
      LocalCell(c, a, k, i);
      RenewedAt(c, a, idx, k, i);
      SlotAgainst(c.frames, idx, k, i);
    }
    forall k, i | LiveAt(a, k, i) && Slot(c.frames[k], i) > b && SlotOpen(c.w, Slot(c.frames[k], i))
      ensures LiveAt(a', k, i) && a'.locals[k][i] == a.locals[k][i]
    {
      LocalCell(c, a, k, i);
      RenewedAt(c, a, idx, k, i);
      SlotAgainst(c.frames, idx, k, i);
    }
    CloseUps(c, a, of, b, c', a');
  }

  lemma RenewedShape<V>(c: Run<V>, a: Heap<V>, idx: nat)
    requires LocalsHold(c, a) && c.frames != [] && idx <= Current(c).size && Named(a, CloseFrom(idx))
    ensures var a' := HeapStep(a, CloseFrom(idx));
            && |a'.locals| == |a.locals| == |c.frames| && a.cells <= a'.cells
            && forall k :: 0 <= k < |a.locals| ==> |a'.locals[k]| == |a.locals[k]| == c.frames[k].size
  {
  }

  /** A live slot is above local idx of the current frame unless it is that local or a later one. */
  lemma SlotAgainst(frames: seq<Fr>, idx: nat, k: nat, i: nat)
    requires Nested(frames) && k < |frames| && i < frames[k].size && idx <= frames[|frames| - 1].size
    ensures Slot(frames[k], i) > Slot(frames[|frames| - 1], idx) <==> k < |frames| - 1 || i < idx
  {
    LowBelow(frames, k, i);
    if k < |frames| - 1 {
      assert frames[|frames| - 1].base <= Low(frames[k]);
    }
  }

  lemma StepCloseFrom<V>(c: Run<V>, a: Heap<V>, of: map<nat, nat>, idx: nat)
    requires Refines(c, a, of) && Allowed(c, CloseFrom(idx)) && Named(a, CloseFrom(idx))
    ensures Refines(RunStep(c, CloseFrom(idx)), HeapStep(a, CloseFrom(idx)), of)
  {
    hide Wf, LocalsHold, UpsHold, Splits, Close, SlotOpen, Sound, Layered, Nested;
    CloseSound(c, Slot(Current(c), idx));
    CloseFromLocals(c, a, idx);
    CloseFromUps(c, a, of, idx);
  }

  // ----- whole runs -----

  /** Every operation keeps the refinement, and what it reads agrees. */
  lemma StepRefines<V>(c: Run<V>, a: Heap<V>, of: map<nat, nat>, op: Op<V>) returns (of': map<nat, nat>)
    requires Refines(c, a, of) && Allowed(c, op)
    ensures Named(a, op) && RunOut(c, op) == HeapOut(a, op)
    ensures Refines(RunStep(c, op), HeapStep(a, op), of')
  {
    AllowedNamed(c, a, of, op);
    OutAgrees(c, a, of, op);
    of' := of;
    hide LocalsHold, UpsHold, Layered, Wf, Nested, HandlesHold, Close, Fill, FindFrom, Leading;
    match op
    case Enter(fr, vals) => StepEnter(c, a, of, fr, vals);
    case Capture(idx) => of' := StepCapture(c, a, of, idx);
    case Inherit(h) => StepInherit(c, a, of, h);
    case GetLocal(_) =>
    case SetLocal(idx, v) => SetTop(c, a, of, idx, v);
    case GetUp(_) =>
    case SetUp(h, v) => StepSetUp(c, a, of, h, v);
    case CloseFrom(idx) => StepCloseFrom(c, a, of, idx);
    case Exit => StepExit(c, a, of);
  }

  lemma SetTop<V>(c: Run<V>, a: Heap<V>, of: map<nat, nat>, idx: nat, v: V)
    requires Refines(c, a, of) && Allowed(c, SetLocal(idx, v)) && Named(a, SetLocal(idx, v))
    ensures Refines(RunStep(c, SetLocal(idx, v)), HeapStep(a, SetLocal(idx, v)), of)
  {
    hide UpsHold, Layered, Wf, Nested, HandlesHold;
    WriteLocal(c, a, of, |c.frames| - 1, idx, v);
  }

  function Start<V>(): Run<V> {
    Run(World([], map[], map[]), [], [], 0)
  }

  function NoCells<V>(): Heap<V> {
    Heap([], [], [])
  }

  /** Every operation of the run is one the compiler and calling convention can produce. */
  predicate RunAllowed<V>(c: Run<V>, ops: seq<Op<V>>)
    decreases |ops|
  {
    ops == [] || (Sound(c) && Allowed(c, ops[0]) && RunAllowed(RunStep(c, ops[0]), ops[1..]))
  }

  function RunReads<V>(c: Run<V>, ops: seq<Op<V>>): seq<Option<V>>
    requires RunAllowed(c, ops)
    decreases |ops|
  {
    if ops == [] then [] else [RunOut(c, ops[0])] + RunReads(RunStep(c, ops[0]), ops[1..])
  }

  predicate HeapNamed<V>(a: Heap<V>, ops: seq<Op<V>>)
    decreases |ops|
  {
    ops == [] || (Named(a, ops[0]) && HeapNamed(HeapStep(a, ops[0]), ops[1..]))
  }

  function HeapReads<V>(a: Heap<V>, ops: seq<Op<V>>): seq<Option<V>>
    requires HeapNamed(a, ops)
    decreases |ops|
  {
    if ops == [] then [] else [HeapOut(a, ops[0])] + HeapReads(HeapStep(a, ops[0]), ops[1..])
  }

  lemma {:induction false} RunRefines<V>(c: Run<V>, a: Heap<V>, of: map<nat, nat>, ops: seq<Op<V>>)
    requires Refines(c, a, of) && RunAllowed(c, ops)
    ensures HeapNamed(a, ops) && RunReads(c, ops) == HeapReads(a, ops)
    decreases |ops|
  {
    hide Refines, RunStep, HeapStep, Possible, Splits, Named, RunOut, HeapOut, Sound;
    if ops != [] {
      RefinesSound(c, a, of);
      var of' := StepRefines(c, a, of, ops[0]);
      RunRefines(RunStep(c, ops[0]), HeapStep(a, ops[0]), of', ops[1..]);
    }
  }

  lemma RefinesSound<V>(c: Run<V>, a: Heap<V>, of: map<nat, nat>)
    requires Refines(c, a, of)
    ensures Sound(c)
  {
  }

  /**
   Upvalues are heap cells. Over every run of frame entries, captures, reads and writes of
   locals and of closure entries, block closings and returns, each read gives the value last
   written to that variable through any of its names, before and after it is closed.
   */
  lemma UpvaluesAreCells<V>(ops: seq<Op<V>>)
    requires RunAllowed(Start<V>(), ops)
    ensures HeapNamed(NoCells<V>(), ops) && RunReads(Start<V>(), ops) == HeapReads(NoCells<V>(), ops)
  {
    RunRefines(Start<V>(), NoCells<V>(), map[], ops);
  }

  /** A slot of a frame under the current one. */
  ghost predicate InOlderFrame<V>(c: Run<V>, addr: int) {
    exists k, i :: 0 <= k < |c.frames| - 1 && 0 <= i < c.frames[k].size && addr == Slot(c.frames[k], i)
  }

  /**
   A return closes exactly the returning frame's upvalues: afterwards one is open just when
   it was open at a slot of an older frame.
   */
  lemma ExitClosesFrame<V>(c: Run<V>, a: Heap<V>, of: map<nat, nat>, u: nat)
    requires Sound(c) && Allowed(c, Exit) && u in c.w.ups && c.w.ups[u].at.Stack?
    requires Refines(c, a, of)
    ensures ClosesExactly(c.w, Current(c).ceil, Current(c).ceil)
    ensures IsOpen(RunStep(c, Exit).w, u) <==> InOlderFrame(c, c.w.ups[u].at.addr)
  {
    hide LocalHolds, UpHolds, Wf, Close, Nested, ClosesExactly;
    var k, i := UpSlot(c, a, of, u);
    var n := Listed(c.w, u);
    assert SlotOpen(c.w, Slot(c.frames[k], i));
    OlderAbove(c, k, i);
    ClosesExactlyIff(c.w, Current(c).ceil, Current(c).ceil);
    CloseUp(c.w, Current(c).ceil, u);
    if InOlderFrame(c, c.w.ups[u].at.addr) {
      var j, l :| 0 <= j < |c.frames| - 1 && 0 <= l < c.frames[j].size && c.w.ups[u].at.addr == Slot(c.frames[j], l);
      SlotsApart(c.frames, k, i, j, l);
    }
  }
}

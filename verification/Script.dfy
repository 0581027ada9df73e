/**
 The calls one compilation makes on its emitter, as a value, and what linking them must
 mean. The definitions of IsNextLabel, IsPrevLabel and JumpTable name the target of a
 branch by looking at the calls alone; the lemmas show that the label lists of the emitter
 find the same targets.
 */
module Script {
  import opened Words
  import opened Mips
  import opened Wrappers

  datatype Ev =
    | Emit(i: Instr)
    | LabelPc(line: nat)
    | LabelLocal(local: nat)
    | BranchPc(line: nat)
    | BranchLocal(local: nat, isNext: bool)

  datatype Dest = ToLine(line: nat) | ToLocal(local: nat, isNext: bool)

  /** A branch waiting for its offset: the word to patch and where it goes. */
  datatype Pending = Pending(mline: nat, dest: Dest)

  predicate IsMark(v: Ev) {
    v.BranchPc? || v.BranchLocal?
  }

  /** The machine words emitted, before linking. */
  function Code(s: seq<Ev>): seq<Instr> {
    if s == [] then []
    else
      var r := Code(s[..|s| - 1]);
      if s[|s| - 1].Emit? then r + [s[|s| - 1].i] else r
  }

  /** Index of the word that the event at k emits, labels or marks. */
  function Pos(s: seq<Ev>, k: nat): nat
    requires k <= |s|
  {
    |Code(s[..k])|
  }

  /** Positions of the local labels numbered l, in emission order. */
  function Labels(s: seq<Ev>, l: nat): seq<nat> {
    if s == [] then []
    else
      var r := Labels(s[..|s| - 1], l);
      if s[|s| - 1] == LabelLocal(l) then r + [|Code(s[..|s| - 1])|] else r
  }

  function PendingOf(s: seq<Ev>): seq<Pending> {
    if s == [] then []
    else
      var r := PendingOf(s[..|s| - 1]);
      var p := |Code(s[..|s| - 1])|;
      match s[|s| - 1]
      case BranchPc(line) => r + [Pending(p, ToLine(line))]
      case BranchLocal(l, isNext) => r + [Pending(p, ToLocal(l, isNext))]
      case _ => r
  }

  /** Where a VM line was last labelled; zero, the cleared entry, if it never was. */
  function JumpTable(s: seq<Ev>, line: nat): nat {
    if s == [] then 0
    else if s[|s| - 1] == LabelPc(line) then |Code(s[..|s| - 1])|
    else JumpTable(s[..|s| - 1], line)
  }

  /** The largest VM line labelled so far. */
  function MaxLine(s: seq<Ev>): nat {
    if s == [] then 0
    else
      var m := MaxLine(s[..|s| - 1]);
      if s[|s| - 1].LabelPc? && s[|s| - 1].line > m then s[|s| - 1].line else m
  }

  function Emits(ws: seq<Instr>): (s: seq<Ev>)
    ensures |s| == |ws|
  {
    seq(|ws|, k requires 0 <= k < |ws| => Emit(ws[k]))
  }

  lemma EmitsConcat(a: seq<Instr>, b: seq<Instr>)
    ensures Emits(a + b) == Emits(a) + Emits(b)
  {
  }

  lemma {:induction false} CodeConcat(a: seq<Ev>, b: seq<Ev>)
    ensures Code(a + b) == Code(a) + Code(b)
    decreases |b|
  {
    if b == [] {
      assert a + b == a;
    } else {
      var n := |b| - 1;
      assert (a + b)[..|a + b| - 1] == a + b[..n];
      CodeConcat(a, b[..n]);
    }
  }

  lemma {:induction false} CodeEmits(ws: seq<Instr>)
    ensures Code(Emits(ws)) == ws
    decreases |ws|
  {
    if ws != [] {
      var n := |ws| - 1;
      assert Emits(ws)[..n] == Emits(ws[..n]);
      CodeEmits(ws[..n]);
    }
  }

  lemma PosMonotone(s: seq<Ev>, j: nat, k: nat)
    requires j <= k <= |s|
    ensures Pos(s, j) <= Pos(s, k)
    ensures Code(s[..j]) <= Code(s[..k])
  {
    assert s[..k] == s[..j] + s[j..k];
    CodeConcat(s[..j], s[j..k]);
  }

  /** What one more event does to each part of the emitter's state. */
  lemma Snoc(s: seq<Ev>, v: Ev)
    ensures Code(s + [v]) == if v.Emit? then Code(s) + [v.i] else Code(s)
    ensures forall l :: Labels(s + [v], l) == if v == LabelLocal(l) then Labels(s, l) + [|Code(s)|] else Labels(s, l)
    ensures PendingOf(s + [v]) == if IsMark(v) then PendingOf(s) + [Pending(|Code(s)|, DestOf(v))] else PendingOf(s)
    ensures forall k :: JumpTable(s + [v], k) == if v == LabelPc(k) then |Code(s)| else JumpTable(s, k)
    ensures MaxLine(s + [v]) == if v.LabelPc? && v.line > MaxLine(s) then v.line else MaxLine(s)
  {
    assert (s + [v])[..|s + [v]| - 1] == s;
  }

  /** An emit event owns exactly the word at its position. */
  lemma PosEmit(s: seq<Ev>, k: nat)
    requires k < |s| && s[k].Emit?
    ensures Pos(s, k + 1) == Pos(s, k) + 1 && Pos(s, k) < |Code(s)|
    ensures Code(s)[Pos(s, k)] == s[k].i
  {
    assert s[..k + 1][..k] == s[..k];
    PosMonotone(s, k + 1, |s|);
    assert s[..|s|] == s;
    assert Code(s[..k + 1]) == Code(s[..k]) + [s[k].i];
  }

  // ----- label search, as the emitter does it -----

  /** The forward search: the first listed position strictly above m. */
  function FirstAbove(ls: seq<nat>, m: nat): Option<nat> {
    if ls == [] then None
    else if m < ls[0] then Some(ls[0])
    else FirstAbove(ls[1..], m)
  }

  /** The backward search: the last listed position strictly below m. */
  function LastBelow(ls: seq<nat>, m: nat): Option<nat> {
    if ls == [] then None
    else if m > ls[|ls| - 1] then Some(ls[|ls| - 1])
    else LastBelow(ls[..|ls| - 1], m)
  }

  lemma {:induction false} FirstAboveSnoc(ls: seq<nat>, v: nat, m: nat)
    ensures FirstAbove(ls + [v], m) ==
            if FirstAbove(ls, m).Some? then FirstAbove(ls, m) else if m < v then Some(v) else None
  {
    if ls != [] {
      assert (ls + [v])[1..] == ls[1..] + [v];
      FirstAboveSnoc(ls[1..], v, m);
    }
  }

  /** Emission only grows, so a list built by appending is in order. */
  lemma {:induction false} LabelsSorted(s: seq<Ev>, l: nat)
    ensures forall i, j :: 0 <= i < j < |Labels(s, l)| ==> Labels(s, l)[i] <= Labels(s, l)[j]
    ensures forall i :: 0 <= i < |Labels(s, l)| ==> Labels(s, l)[i] <= |Code(s)|
    decreases |s|
  {
    if s != [] {
      LabelsSorted(s[..|s| - 1], l);
    }
  }

  lemma {:induction false} FirstAboveNone(ls: seq<nat>, m: nat)
    requires forall i :: 0 <= i < |ls| ==> ls[i] <= m
    ensures FirstAbove(ls, m) == None
  {
    if ls != [] {
      FirstAboveNone(ls[1..], m);
    }
  }

  // ----- what a branch must reach -----

  ghost predicate IsNextLabel(s: seq<Ev>, k: nat, l: nat, j: nat) {
    k < j < |s| && s[j] == LabelLocal(l) && forall i :: k < i < j ==> s[i] != LabelLocal(l)
  }

  ghost predicate IsPrevLabel(s: seq<Ev>, k: nat, l: nat, j: nat) {
    && j < k <= |s| && s[j] == LabelLocal(l) && Pos(s, j) < Pos(s, k)
    && forall i :: j < i < k && s[i] == LabelLocal(l) ==> Pos(s, i) == Pos(s, k)
  }

  /** The forward search finds the next label emitted, however often its number is reused. */
  lemma {:induction false} FindsNext(s: seq<Ev>, k: nat, l: nat, j: nat, n: nat)
    requires IsNextLabel(s, k, l, j) && Pos(s, k) < Pos(s, j)
    requires j < n <= |s|
    ensures FirstAbove(Labels(s[..n], l), Pos(s, k)) == Some(Pos(s, j))
    decreases n
  {
    assert s[..n][..n - 1] == s[..n - 1];
    if n == j + 1 {
      NoneBefore(s, k, l, j);
      FirstAboveSnoc(Labels(s[..j], l), Pos(s, j), Pos(s, k));
    } else {
      FindsNext(s, k, l, j, n - 1);
      FirstAboveSnoc(Labels(s[..n - 1], l), Pos(s, n - 1), Pos(s, k));
    }
  }

  lemma {:induction false} NoneBefore(s: seq<Ev>, k: nat, l: nat, n: nat)
    requires k < n <= |s| && forall i :: k < i < n ==> s[i] != LabelLocal(l)
    ensures FirstAbove(Labels(s[..n], l), Pos(s, k)) == None
    decreases n
  {
    assert s[..n][..n - 1] == s[..n - 1];
    if n == k + 1 {
      LabelsSorted(s[..k], l);
      FirstAboveNone(Labels(s[..k], l), Pos(s, k));
      FirstAboveNone(Labels(s[..n], l), Pos(s, k));
    } else {
      NoneBefore(s, k, l, n - 1);
    }
  }

  /** The backward search finds the last label strictly before the branch. */
  lemma {:induction false} FindsPrev(s: seq<Ev>, k: nat, l: nat, j: nat, n: nat)
    requires IsPrevLabel(s, k, l, j) && j < n <= |s|
    ensures LastBelow(Labels(s[..n], l), Pos(s, k)) == Some(Pos(s, j))
    decreases n
  {
    assert s[..n][..n - 1] == s[..n - 1];
    var ls := Labels(s[..n - 1], l);
    if n == j + 1 {
      assert Labels(s[..n], l) == ls + [Pos(s, j)];
    } else {
      FindsPrev(s, k, l, j, n - 1);
      if s[n - 1] == LabelLocal(l) {
        assert Labels(s[..n], l) == ls + [Pos(s, n - 1)];
        if n - 1 >= k {
          PosMonotone(s, k, n - 1);
        }
        assert (ls + [Pos(s, n - 1)])[..|ls|] == ls;
      }
    }
  }

  // ----- linking -----

  /** Every mark sits right before the branch word it is for. */
  predicate Marked(s: seq<Ev>) {
    forall k :: 0 <= k < |s| && IsMark(s[k]) ==> k + 1 < |s| && s[k + 1].Emit? && IsBranch(s[k + 1].i)
  }

  function Search(ls: seq<nat>, m: nat, isNext: bool): Option<nat> {
    if isNext then FirstAbove(ls, m) else LastBelow(ls, m)
  }

  /** Every local branch has a label to go to, as find_local_label asserts. */
  predicate Resolvable(s: seq<Ev>) {
    forall p <- PendingOf(s) :: p.dest.ToLocal? ==> Search(Labels(s, p.dest.local), p.mline, p.dest.isNext).Some?
  }

  /** The offset stored for one pending branch, with the casts of link. */
  function OffsetOf(s: seq<Ev>, p: Pending): Half
    requires p.dest.ToLocal? ==> Search(Labels(s, p.dest.local), p.mline, p.dest.isNext).Some?
  {
    match p.dest
    case ToLocal(l, isNext) => Int16(Search(Labels(s, l), p.mline, isNext).value - (p.mline + 1))
    case ToLine(line) => Int16(Int16(JumpTable(s, line) - p.mline) - 1)
  }

  /** Pending branches are in emission order and each names a branch word. */
  lemma {:induction false} PendingShape(s: seq<Ev>, n: nat)
    requires Marked(s) && n <= |s|
    ensures forall i :: 0 <= i < |PendingOf(s[..n])| ==>
              PendingOf(s[..n])[i].mline < |Code(s)| && IsBranch(Code(s)[PendingOf(s[..n])[i].mline])
    ensures forall i, j :: 0 <= i < j < |PendingOf(s[..n])| ==> PendingOf(s[..n])[i].mline < PendingOf(s[..n])[j].mline
    ensures forall i :: 0 <= i < |PendingOf(s[..n])| ==>
              PendingOf(s[..n])[i].mline < (if n > 0 && IsMark(s[n - 1]) then Pos(s, n) + 1 else Pos(s, n))
    decreases n
  {
    if n > 0 {
      assert s[..n][..n - 1] == s[..n - 1];
      PendingShape(s, n - 1);
      PosMonotone(s, n - 1, n);
      if n >= 2 && IsMark(s[n - 2]) {
        PosEmit(s, n - 1);
      }
      if IsMark(s[n - 1]) {
        PosEmit(s, n);
      }
    }
  }

  /** The code after the first n pending branches have been patched. */
  function Patched(s: seq<Ev>, n: nat): (c: seq<Instr>)
    requires Marked(s) && Resolvable(s) && n <= |PendingOf(s)|
    ensures |c| == |Code(s)|
    ensures forall i :: 0 <= i < |PendingOf(s)| ==> PendingOf(s)[i].mline < |c| && IsBranch(c[PendingOf(s)[i].mline])
  {
    assert s[..|s|] == s;
    PendingShape(s, |s|);
    if n == 0 then Code(s)
    else
      var p := PendingOf(s)[n - 1];
      var c := Patched(s, n - 1);
      c[p.mline := SetOffset(c[p.mline], OffsetOf(s, p))]
  }

  function Linked(s: seq<Ev>): (c: seq<Instr>)
    requires Marked(s) && Resolvable(s)
    ensures |c| == |Code(s)|
  {
    Patched(s, |PendingOf(s)|)
  }

  lemma {:induction false} PatchedAt(s: seq<Ev>, n: nat, q: nat)
    requires Marked(s) && Resolvable(s) && n <= |PendingOf(s)| && q < |Code(s)|
    ensures (forall i :: 0 <= i < n ==> PendingOf(s)[i].mline != q) ==> Patched(s, n)[q] == Code(s)[q]
    ensures forall i :: 0 <= i < n && PendingOf(s)[i].mline == q ==>
              IsBranch(Code(s)[q]) && Patched(s, n)[q] == SetOffset(Code(s)[q], OffsetOf(s, PendingOf(s)[i]))
  {
    hide Code, PendingOf, OffsetOf, Marked, Resolvable, SetOffset, Pos, Labels, Search, JumpTable, IsMark;
    assert s[..|s|] == s;
    PendingShape(s, |s|);
    if n > 0 {
      PatchedAt(s, n - 1, q);
    }
  }

  lemma {:induction false} PendingHas(s: seq<Ev>, k: nat, n: nat)
    requires k < n <= |s| && IsMark(s[k])
    ensures Pending(Pos(s, k), DestOf(s[k])) in PendingOf(s[..n])
    decreases n
  {
    assert s[..n][..n - 1] == s[..n - 1];
    if n > k + 1 {
      PendingHas(s, k, n - 1);
    }
  }

  function DestOf(v: Ev): Dest
    requires IsMark(v)
  {
    if v.BranchPc? then ToLine(v.line) else ToLocal(v.local, v.isNext)
  }

  lemma {:induction false} PendingFrom(s: seq<Ev>, n: nat, p: Pending) returns (k: nat)
    requires n <= |s| && p in PendingOf(s[..n])
    ensures k < n && IsMark(s[k]) && p == Pending(Pos(s, k), DestOf(s[k]))
    decreases n
  {
    assert s[..n][..n - 1] == s[..n - 1];
    if p in PendingOf(s[..n - 1]) {
      k := PendingFrom(s, n - 1, p);
    } else {
      k := n - 1;
    }
  }

  /** A word that no mark precedes is linked unchanged. */
  lemma LinkKeeps(s: seq<Ev>, k: nat)
    requires Marked(s) && Resolvable(s)
    requires k < |s| && s[k].Emit? && (k > 0 ==> !IsMark(s[k - 1]))
    ensures Pos(s, k) < |Linked(s)| && Linked(s)[Pos(s, k)] == s[k].i
  {
    PosEmit(s, k);
    var ps := PendingOf(s);
    forall i | 0 <= i < |ps|
      ensures ps[i].mline != Pos(s, k)
    {
      assert s[..|s|] == s;
      var j := PendingFrom(s, |s|, ps[i]);
      PosEmit(s, j + 1);
      assert s[..j + 1][..j] == s[..j];
      if j < k {
        PosMonotone(s, j + 2, k);
      } else {
        PosMonotone(s, k + 1, j);
      }
    }
    PatchedAt(s, |ps|, Pos(s, k));
  }

  /** A marked branch keeps its opcode and registers and gets the offset of its destination. */
  lemma LinkPatches(s: seq<Ev>, k: nat)
    requires Marked(s) && Resolvable(s)
    requires k < |s| && IsMark(s[k])
    ensures var p := Pending(Pos(s, k), DestOf(s[k]));
            && p in PendingOf(s)
            && Pos(s, k) < |Linked(s)|
            && Linked(s)[Pos(s, k)] == SetOffset(s[k + 1].i, OffsetOf(s, p))
  {
    assert s[..|s|] == s;
    PendingHas(s, k, |s|);
    PosEmit(s, k + 1);
    assert s[..k + 1][..k] == s[..k];
    PatchedAt(s, |PendingOf(s)|, Pos(s, k));
  }

  /** Distance from the delay slot of the branch at word p to word q. */
  predicate InReach(p: nat, q: nat) {
    IsHalf(q - (p + 1))
  }

  /** A branch to a VM line lands on the jump-table entry of that line exactly when that is in reach. */
  lemma LinkLandsOnLine(s: seq<Ev>, k: nat)
    requires Marked(s) && Resolvable(s) && k < |s| && s[k].BranchPc?
    ensures Pos(s, k) < |Linked(s)|
    ensures var b := Linked(s)[Pos(s, k)];
            && IsBranch(b) && b == SetOffset(s[k + 1].i, b.off)
            && (Pos(s, k) + 1 + b.off == JumpTable(s, s[k].line) <==> InReach(Pos(s, k), JumpTable(s, s[k].line)))
  {
    hide Code, Marked, Resolvable, Linked, PendingOf;
    LinkPatches(s, k);
  }

  /** A forward local branch lands on the first same-numbered label emitted after it, exactly when in reach. */
  lemma LinkLandsOnNext(s: seq<Ev>, k: nat, j: nat)
    requires Marked(s) && Resolvable(s) && k < |s| && s[k].BranchLocal? && s[k].isNext
    requires IsNextLabel(s, k, s[k].local, j)
    ensures Pos(s, k) < |Linked(s)|
    ensures var b := Linked(s)[Pos(s, k)];
            && IsBranch(b) && b == SetOffset(s[k + 1].i, b.off)
            && (Pos(s, k) + 1 + b.off == Pos(s, j) <==> InReach(Pos(s, k), Pos(s, j)))
  {
    LinkPatches(s, k);
    PosEmit(s, k + 1);
    assert s[..k + 1][..k] == s[..k];
    PosMonotone(s, k + 2, j);
    assert s[..|s|] == s;
    FindsNext(s, k, s[k].local, j, |s|);
  }

  /** A backward local branch lands on the last same-numbered label strictly before it, exactly when in reach. */
  lemma LinkLandsOnPrev(s: seq<Ev>, k: nat, j: nat)
    requires Marked(s) && Resolvable(s) && k < |s| && s[k].BranchLocal? && !s[k].isNext
    requires IsPrevLabel(s, k, s[k].local, j)
    ensures Pos(s, k) < |Linked(s)|
    ensures var b := Linked(s)[Pos(s, k)];
            && IsBranch(b) && b == SetOffset(s[k + 1].i, b.off)
            && (Pos(s, k) + 1 + b.off == Pos(s, j) <==> InReach(Pos(s, k), Pos(s, j)))
  {
    LinkPatches(s, k);
    assert s[..|s|] == s;
    FindsPrev(s, k, s[k].local, j, |s|);
  }
}

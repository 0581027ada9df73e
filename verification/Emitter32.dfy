/** The 32-bit emitter: a growing code buffer, a jump table, label lists and a branch list. */
module Emitter32 {
  import opened Words
  import opened Mips
  import opened Script
  import opened Wrappers

  const NR_LOCAL_LABELS: nat := 10

  /** Sizes the buffer can have: none, or 16 bytes doubled some number of times. */
  ghost predicate Doubled(size: nat) {
    size == 0 || exists j: nat :: size == 16 * Pow2(j)
  }

  class Emitter {
    var mcode: array?<Instr>
    var jt: array<nat>
    var size: nat
    var bufsize: nat
    var pc: nat
    var head: seq<Pending>
    var local: seq<seq<nat>>

    ghost var script: seq<Ev>
    /** Bytes that reallocations have copied so far. */
    ghost var copied: nat
    ghost var Repr: set<object>

    ghost predicate Valid()
      reads this, Repr
      ensures Valid() ==> this in Repr
    {
      && this in Repr && jt in Repr && (mcode != null ==> mcode in Repr)
      && (mcode == null <==> bufsize == 0)
      && (mcode != null ==> bufsize == 4 * mcode.Length)
      && size == 4 * |Code(script)| && size <= bufsize
      && (mcode != null ==> mcode[..size / 4] == Code(script))
      && Doubled(bufsize)
      && (bufsize > 16 ==> bufsize < 2 * size)
      && copied == (if bufsize == 0 then 0 else bufsize - 16)
      && pc == MaxLine(script)
      && head == PendingOf(script)
      && (forall p <- head :: p.dest.ToLocal? ==> p.dest.local < NR_LOCAL_LABELS)
      && |local| == NR_LOCAL_LABELS
      && (forall l :: 0 <= l < NR_LOCAL_LABELS ==> local[l] == Labels(script, l))
      && (forall k :: 0 <= k < jt.Length ==> jt[k] == JumpTable(script, k))
    }

    constructor (vmlines: nat)
      ensures Valid() && fresh(Repr)
      ensures script == [] && jt.Length == vmlines && size == 0
    {
      mcode := null;
      jt := new nat[vmlines](_ => 0);
      size, bufsize, pc := 0, 0, 0;
      head := [];
      local := seq(NR_LOCAL_LABELS, _ => []);
      script, copied := [], 0;
      new;
      Repr := {this, jt};
    }

    /** Doubling keeps the buffer within twice the code, so all the copying is linear in the code. */
    lemma GrowthIsLinear()
      requires Valid()
      ensures 4 * |Code(script)| == size <= bufsize
      ensures Doubled(bufsize)
      ensures bufsize > 16 ==> bufsize < 2 * size
      ensures copied <= 8 * |Code(script)|
    {
    }

    /** The current emission index. */
    function Ec(): (n: nat)
      requires Valid()
      reads this, Repr
      ensures n == |Code(script)|
    {
      size / 4
    }

    /** realloc: the length it is told must be the block's true length. */
    static method Realloc(p: array?<Instr>, oldsz: nat, newsz: nat) returns (q: array<Instr>)
      requires p != null ==> oldsz == 4 * p.Length && oldsz <= newsz
      ensures fresh(q) && q.Length == newsz / 4
      ensures p != null ==> q[..p.Length] == p[..]
    {
      q := new Instr[newsz / 4](_ => NOP);
      if p != null {
        var i := 0;
        while i < oldsz / 4
          invariant 0 <= i <= p.Length
          invariant q[..i] == p[..i]
        {
          q[i] := p[i];
          i := i + 1;
        }
      }
    }

    /** The growth macro: doubling until the need is met, which one doubling always does. */
    method Grow(need: nat)
      requires Valid() && need == size + 4
      modifies this
      ensures mcode != null && (mcode == old(mcode) || fresh(mcode)) && mcode.Length * 4 == bufsize
      ensures size / 4 < mcode.Length
      ensures Repr == old(Repr) + {mcode}
      ensures need <= bufsize && Doubled(bufsize) && (bufsize > 16 ==> bufsize < 2 * need)
      ensures mcode[..size / 4] == Code(script)
      ensures copied == bufsize - 16
      ensures unchanged(this`jt, this`size, this`pc, this`head, this`local, this`script)
    {
      if bufsize < need {
        var sz := bufsize;
        ghost var was := bufsize;
        DoubledSmall(sz);
        if sz < 16 {
          sz := 16;
          assert 16 == 16 * Pow2(0);
        }
        while sz < need
          invariant if was == 0 then sz == 16 else sz == was || (sz == 2 * was && sz >= need)
          decreases need - sz
        {
          sz := sz + sz;
        }
        if was != 0 {
          DoubledTwice(was);
        }
        DoubledSmall(sz);
        var p := Realloc(mcode, sz / 2, sz);
        assert p[..size / 4] == Code(script) by {
          assert mcode != null ==> p[..size / 4] == p[..mcode.Length][..size / 4];
        }
        copied := copied + bufsize;
        mcode := p;
        bufsize := sz;
        Repr := Repr + {p};
      }
    }

    static lemma DoubledSmall(sz: nat)
      requires Doubled(sz)
      ensures sz < 16 ==> sz == 0
      ensures sz % 4 == 0
    {
    }

    static lemma DoubledTwice(sz: nat)
      requires Doubled(sz) && sz > 0
      ensures Doubled(sz + sz)
    {
      var j: nat :| sz == 16 * Pow2(j);
      assert sz + sz == 16 * Pow2(j + 1);
    }

    method EncodeOp(i: Instr)
      requires Valid()
      modifies Repr
      ensures Valid() && fresh(Repr - old(Repr)) && jt == old(jt)
      ensures script == old(script) + [Emit(i)]
    {
      hide Code, Labels, PendingOf, JumpTable, MaxLine, Doubled;
      Grow(size + 4);
      mcode[size / 4] := i;
      size := size + 4;
      Snoc(script, Emit(i));
      script := script + [Emit(i)];
      assert mcode[..size / 4] == old(Code(script)) + [i];
    }

    method LabelPc(line: nat)
      requires Valid() && line < jt.Length
      modifies Repr
      ensures Valid() && Repr == old(Repr) && jt == old(jt)
      ensures script == old(script) + [Ev.LabelPc(line)]
    {
      hide Code, Labels, PendingOf, JumpTable, MaxLine, Doubled;
      if line > pc {
        pc := line;
      }
      jt[line] := size / 4;
      Snoc(script, Ev.LabelPc(line));
      script := script + [Ev.LabelPc(line)];
    }

    /** Scans for the insertion point; the insertion itself is always at the tail. */
    method LabelLocal(l: nat)
      requires Valid() && l < NR_LOCAL_LABELS
      modifies this
      ensures Valid() && Repr == old(Repr) && jt == old(jt)
      ensures script == old(script) + [Ev.LabelLocal(l)]
    {
      hide Code, Labels, PendingOf, JumpTable, MaxLine, Doubled;
      var at := size / 4;
      var seek := 0;
      while seek < |local[l]| && !(at < local[l][seek])
        invariant 0 <= seek <= |local[l]|
      {
        seek := seek + 1;
      }
      assert seek == |local[l]| by { LabelsSorted(script, l); }
      local := local[l := local[l] + [at]];
      Snoc(script, Ev.LabelLocal(l));
      script := script + [Ev.LabelLocal(l)];
    }

    method BranchPc(line: nat)
      requires Valid()
      modifies this
      ensures Valid() && Repr == old(Repr) && jt == old(jt)
      ensures script == old(script) + [Ev.BranchPc(line)]
    {
      hide Code, Labels, PendingOf, JumpTable, MaxLine, Doubled;
      head := head + [Pending(size / 4, ToLine(line))];
      Snoc(script, Ev.BranchPc(line));
      script := script + [Ev.BranchPc(line)];
    }

    method BranchLocal(l: nat, isNext: bool)
      requires Valid() && l < NR_LOCAL_LABELS
      modifies this
      ensures Valid() && Repr == old(Repr) && jt == old(jt)
      ensures script == old(script) + [Ev.BranchLocal(l, isNext)]
    {
      hide Code, Labels, PendingOf, JumpTable, MaxLine, Doubled;
      head := head + [Pending(size / 4, ToLocal(l, isNext))];
      Snoc(script, Ev.BranchLocal(l, isNext));
      script := script + [Ev.BranchLocal(l, isNext)];
    }

    /** Walks the label list forward for the next label, backward for the previous one. */
    method FindLocalLabel(at: nat, l: nat, isNext: bool) returns (q: nat)
      requires l < |local| && Search(local[l], at, isNext).Some?
      ensures Search(local[l], at, isNext) == Some(q)
    {
      var ls := local[l];
      q := 0;
      if isNext {
        var i := 0;
        while i < |ls|
          invariant 0 <= i < |ls|
          invariant FirstAbove(ls, at) == FirstAbove(ls[i..], at)
        {
          if at < ls[i] {
            return ls[i];
          }
          i := i + 1;
        }
        assert false;
      } else {
        var i := |ls|;
        assert ls[..i] == ls;
        while i > 0
          invariant 0 < i <= |ls|
          invariant LastBelow(ls, at) == LastBelow(ls[..i], at)
        {
          assert ls[..i][..i - 1] == ls[..i - 1];
          if at > ls[i - 1] {
            return ls[i - 1];
          }
          i := i - 1;
        }
        assert false;
      }
    }

    /** Overwrite the low half of one branch word, leaving every other word alone. */
    method PatchWord(b: Pending)
      requires mcode != null && size / 4 <= mcode.Length && b.mline < size / 4
      requires IsBranch(mcode[b.mline]) && |local| == NR_LOCAL_LABELS
      requires forall l :: 0 <= l < NR_LOCAL_LABELS ==> local[l] == Labels(script, l)
      requires forall i :: 0 <= i < jt.Length ==> jt[i] == JumpTable(script, i)
      requires match b.dest
               case ToLine(line) => line < jt.Length
               case ToLocal(l, isNext) => l < NR_LOCAL_LABELS && Search(Labels(script, l), b.mline, isNext).Some?
      modifies mcode
      ensures mcode[..size / 4] ==
              old(mcode[..size / 4])[b.mline := SetOffset(old(mcode[b.mline]), OffsetOf(script, b))]
    {
      var offset: Half;
      match b.dest {
        case ToLocal(l, isNext) =>
          var q := FindLocalLabel(b.mline, l, isNext);
          offset := Int16(q - (b.mline + 1));
        case ToLine(line) =>
          offset := Int16(Int16(jt[line] - b.mline) - 1);
      }
      mcode[b.mline] := SetOffset(mcode[b.mline], offset);
    }

    /** The buffer after k branches of s have been patched, with the rest of them pending. */
    ghost predicate Linking(s: seq<Ev>, k: nat)
      reads this, mcode, jt
    {
      && Marked(s) && Resolvable(s) && k <= |PendingOf(s)| && script == s && head == PendingOf(s)[k..]
      && (forall p <- head :: if p.dest.ToLine? then p.dest.line < jt.Length else p.dest.local < NR_LOCAL_LABELS)
      && |local| == NR_LOCAL_LABELS && (forall l :: 0 <= l < NR_LOCAL_LABELS ==> local[l] == Labels(s, l))
      && (forall i :: 0 <= i < jt.Length ==> jt[i] == JumpTable(s, i))
      && (mcode != null ==> size / 4 <= mcode.Length && mcode[..size / 4] == Patched(s, k))
      && (mcode == null ==> Code(s) == [])
    }

    /** Patch the first pending branch and drop it from the list. */
    method PatchFirst(ghost s: seq<Ev>, ghost k: nat)
      requires Linking(s, k) && head != []
      modifies mcode, this`head
      ensures Linking(s, k + 1)
    {
      hide Code, Labels, PendingOf, MaxLine, Doubled, Search, OffsetOf, SetOffset, Marked, Patched, JumpTable;
      PendingNext(s, k);
      assert head[0] == PendingOf(s)[k] && head[0] in head;
      assert mcode[head[0].mline] == mcode[..size / 4][head[0].mline];
      PatchWord(head[0]);
      head := head[1..];
    }

    /** Patch every pending branch in place, emptying the branch list. */
    method Link() returns (n: nat)
      requires Valid() && Marked(script) && Resolvable(script)
      requires forall p <- head :: p.dest.ToLine? ==> p.dest.line < jt.Length
      modifies Repr
      ensures n == size == old(size) && script == old(script) && head == []
      ensures mcode == old(mcode) && (mcode != null ==> size / 4 <= mcode.Length)
      ensures if mcode == null then Linked(script) == [] else mcode[..size / 4] == Linked(script)
    {
      hide Code, Labels, PendingOf, MaxLine, Doubled, Search, JumpTable, Marked, Resolvable, Patched, Linked;
      ghost var k := 0;
      ghost var s := script;
      LinkedIsPatched(s);
      while head != []
        invariant Linking(s, k)
        invariant mcode == old(mcode) && jt == old(jt) && size == old(size) && Repr == old(Repr)
        decreases |head|
      {
        PatchFirst(s, k);
        k := k + 1;
      }
      n := size;
    }

    static lemma LinkedIsPatched(s: seq<Ev>)
      requires Marked(s) && Resolvable(s)
      ensures Linked(s) == Patched(s, |PendingOf(s)|) && Patched(s, 0) == Code(s)
    {
    }

    static lemma PendingNext(s: seq<Ev>, k: nat)
      requires Marked(s) && Resolvable(s) && k < |PendingOf(s)|
      ensures var b := PendingOf(s)[k];
              && b.mline < |Patched(s, k)| && IsBranch(Patched(s, k)[b.mline])
              && (b.dest.ToLocal? ==> Search(Labels(s, b.dest.local), b.mline, b.dest.isNext).Some?)
              && Patched(s, k + 1) == Patched(s, k)[b.mline := SetOffset(Patched(s, k)[b.mline], OffsetOf(s, b))]
    {
      assert PendingOf(s)[k] in PendingOf(s);
    }
  }
}

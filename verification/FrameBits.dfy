/** reflect/type.go: funcLayout's bitmap of an argument frame, which tells the garbage collector
    where the pointers among receiver, arguments and results are. */
module FrameBits {
  import opened Basics
  import opened TypeBits
  import A = ArgFrames

  predicate Sized(types: seq<Type>) { forall i | 0 <= i < |types| :: WellFormed(types[i]) && Size(types[i]) < A.MOD }

  function ArgOf(t: Type): (a: A.Arg)
    requires WellFormed(t) && Size(t) < A.MOD
    ensures PowerOfTwo(a.align) && a.size == Size(t) && a.align == Align(t)
  {
    WholeWords(t);
    A.Arg(Size(t), Align(t))
  }

  function ArgsOf(types: seq<Type>): (args: seq<A.Arg>)
    requires Sized(types)
    ensures |args| == |types| && A.Good(args) && forall i | 0 <= i < |types| :: args[i] == ArgOf(types[i])
  {
    seq(|types|, i requires 0 <= i < |types| => ArgOf(types[i]))
  }

  // ---------- where the pointers are ----------

  /** Word k is a pointer of the value of type t at the given offset. */
  ghost predicate PointerAt(t: Type, offset: nat, k: int) { HasPointer(t, k - offset / PTR) }

  /** Or of one of the first n of many values. */
  ghost predicate Pointed(types: seq<Type>, offs: seq<A.word>, n: nat, k: int)
    requires n <= |types| && n <= |offs|
  {
    exists i | 0 <= i < n :: PointerAt(types[i], offs[i], k)
  }

  /** Word k of the frame is a pointer of the receiver, an argument or a result.  `rcvr` says
      whether there is a receiver, and whether its word is a pointer. */
  ghost predicate FramePointer(rcvr: Option<bool>, ins: seq<Type>, outs: seq<Type>, l: A.Layout, k: int)
    requires |l.ins| == |ins| && |l.outs| == |outs|
  {
    (rcvr == Some(true) && k == 0) || Pointed(ins, l.ins, |ins|, k) || Pointed(outs, l.outs, |outs|, k)
  }

  ghost predicate Marked(bv: BitVector, k: int)
    requires bv.Valid()
    reads bv
  {
    0 <= k < bv.n && bv.Bits()[k]
  }

  // ---------- the bitmap ----------

  /** addTypeBits, for a value that lies beyond all words marked. */
  method AddValue(bv: BitVector, t: Type, offset: nat)
    requires bv.Valid() && WellFormed(t) && bv.n * PTR <= offset && Align(t) > 0 && offset % Align(t) == 0
    modifies bv
    ensures bv.Valid() && bv.n * PTR <= offset + Size(t)
    ensures forall k: int :: Marked(bv, k) <==> old(Marked(bv, k)) || PointerAt(t, offset, k)
  {
    hide HasPointer;
    hide PtrData;
    hide Size;
    hide WellFormed;
    hide Bit;
    WholeWords(t);
    ghost var was, at := bv.Bits(), offset / PTR;
    bv.AddTypeBits(offset, t);
    forall k: int ensures Marked(bv, k) <==> old(Marked(bv, k)) || PointerAt(t, offset, k) {
      if PointerAt(t, offset, k) { PointersWithin(t, k - at); }
      if 0 <= k < |was| { assert bv.Bits()[k] == was[k]; }
    }
  }

  lemma PointedMore(types: seq<Type>, offs: seq<A.word>, n: nat, k: int)
    requires n < |types| && n < |offs|
    ensures Pointed(types, offs, n + 1, k) <==> Pointed(types, offs, n, k) || PointerAt(types[n], offs[n], k)
  {
    hide PointerAt;
  }

  lemma PointedSame(types: seq<Type>, offs: seq<A.word>, more: seq<A.word>, n: nat, k: int)
    requires n <= |types| && n <= |offs| <= |more| && more[..n] == offs[..n]
    ensures Pointed(types, offs, n, k) <==> Pointed(types, more, n, k)
  {
    assert forall i | 0 <= i < n :: offs[i] == offs[..n][i] == more[..n][i] == more[i];
  }

  /** A value's place suits its type. */
  lemma Suits(types: seq<Type>, i: nat, start: A.word)
    requires Sized(types) && A.Fits(ArgsOf(types), start) && i < |types|
    ensures var at := A.OffsetOf(ArgsOf(types), i, start);
            && A.EndOf(ArgsOf(types), i, start) <= at && Align(types[i]) > 0 && at % Align(types[i]) == 0
            && A.EndOf(ArgsOf(types), i + 1, start) == at + Size(types[i])
  {
    A.EndNext(ArgsOf(types), i, start);
    A.MultipleSuits(A.EndOf(ArgsOf(types), i, start), Align(types[i]));
  }

  /** A loop of funcLayout, over the arguments or over the results. */
  method AddAll(bv: BitVector, types: seq<Type>, start: A.word) returns (offset: A.word, offs: seq<A.word>)
    requires Sized(types) && A.Fits(ArgsOf(types), start) && bv.Valid() && bv.n * PTR <= start
    modifies bv
    ensures offset == A.EndOf(ArgsOf(types), |types|, start) && offs == A.Offsets(ArgsOf(types), |types|, start)
    ensures bv.Valid() && bv.n * PTR <= offset
    ensures forall k: int :: Marked(bv, k) <==> old(Marked(bv, k)) || Pointed(types, offs, |types|, k)
  {
    hide A.Multiple;
    hide A.Added;
    hide A.Plus;
    hide A.Fits;
    hide Marked;
    hide PointerAt;
    hide Size;
    hide WellFormed;
    ghost var args := ArgsOf(types);
    offset, offs := start, [];
    for i := 0 to |types|
      invariant offset == A.EndOf(args, i, start) && offs == A.Offsets(args, i, start)
      invariant bv.Valid() && bv.n * PTR <= offset
      invariant forall k: int :: Marked(bv, k) <==> old(Marked(bv, k)) || Pointed(types, offs, i, k)
    {
      var arg := ArgOf(types[i]);
      A.RoundingsAgree(offset, arg.align);
      Suits(types, i, start);
      offset := A.Added(offset, arg.align);
      ghost var before := offs;
      offs := offs + [offset];
      label L:
      AddValue(bv, types[i], offset);
      forall k: int ensures Marked(bv, k) <==> old(Marked(bv, k)) || Pointed(types, offs, i + 1, k) {
        assert Marked(bv, k) <==> old@L(Marked(bv, k)) || PointerAt(types[i], offset, k);
        PointedSame(types, before, offs, i, k);
        PointedMore(types, offs, i, k);
      }
      offset := A.Plus(offset, arg.size);
    }
  }

  /** funcLayout: a bit of the map is set if and only if its word is a pointer of the receiver,
      an argument or a result; the offsets are those of the layout, and the map does not reach
      beyond the frame. */
  method FrameMap(ins: seq<Type>, outs: seq<Type>, rcvr: Option<bool>) returns (bv: BitVector, l: A.Layout)
    requires Sized(ins) && Sized(outs) && A.FrameFits(ArgsOf(ins), ArgsOf(outs), rcvr.Some?)
    ensures fresh(bv) && bv.Valid() && bv.n * PTR <= l.size
    ensures l == A.Frame(ArgsOf(ins), ArgsOf(outs), rcvr.Some?)
    ensures forall k: int :: Marked(bv, k) <==> FramePointer(rcvr, ins, outs, l, k)
  {
    hide A.Multiple;
    hide A.Added;
    hide A.EndOf;
    hide A.OffsetOf;
    hide A.Fits;
    hide Bit;
    hide Pointed;
    bv := new BitVector();
    var offset: A.word := 0;
    if rcvr.Some? {
      bv.Append(rcvr.value);
      offset := A.PTR;
    }
    assert forall k: int :: Marked(bv, k) <==> rcvr == Some(true) && k == 0;
    var inOffs, outOffs;
    offset, inOffs := AddAll(bv, ins, offset);
    var argSize := offset;
    A.RoundingsAgree(offset, A.PTR);
    offset := A.Added(offset, A.PTR);
    var retOffset := offset;
    offset, outOffs := AddAll(bv, outs, offset);
    A.RoundingsAgree(offset, A.PTR);
    offset := A.Added(offset, A.PTR);
    l := A.Layout(inOffs, argSize, retOffset, outOffs, offset);
  }

  /** With a receiver, the map of the rest is the map without one, one bit further on. */
  lemma MapShifts(ins: seq<Type>, outs: seq<Type>, pointer: bool, k: nat)
    requires Sized(ins) && Sized(outs) && A.FrameFits(ArgsOf(ins), ArgsOf(outs), true)
    ensures var f, g := A.Frame(ArgsOf(ins), ArgsOf(outs), false), A.Frame(ArgsOf(ins), ArgsOf(outs), true);
            FramePointer(Some(pointer), ins, outs, g, k + 1) <==> FramePointer(None, ins, outs, f, k)
  {
    hide HasPointer;
    hide A.Multiple;
    hide A.EndOf;
    hide A.OffsetOf;
    hide A.Fits;
    A.FramesApart(ArgsOf(ins), ArgsOf(outs));
    var f, g := A.Frame(ArgsOf(ins), ArgsOf(outs), false), A.Frame(ArgsOf(ins), ArgsOf(outs), true);
    forall i | 0 <= i < |ins| ensures PointerAt(ins[i], g.ins[i], k + 1) <==> PointerAt(ins[i], f.ins[i], k) {
      assert g.ins[i] == f.ins[i] + PTR;
    }
    forall i | 0 <= i < |outs| ensures PointerAt(outs[i], g.outs[i], k + 1) <==> PointerAt(outs[i], f.outs[i], k) {
      assert g.outs[i] == f.outs[i] + PTR;
    }
    hide PointerAt;
    assert Pointed(ins, g.ins, |ins|, k + 1) <==> Pointed(ins, f.ins, |ins|, k);
    assert Pointed(outs, g.outs, |outs|, k + 1) <==> Pointed(outs, f.outs, |outs|, k);
  }
}

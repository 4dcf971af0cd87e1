/** reflect/value.go and reflect/type.go: the layout of an argument frame is computed in three
    places, with two formulas for rounding up, and all must agree.  Offsets are 64-bit words.
    For a power of two a, x & (a-1) is x modulo a, and x &^ (a-1) is x less that. */
module ArgFrames {
  import opened Basics

  const MOD := 0x1_0000_0000_0000_0000
  type word = x: int | 0 <= x < MOD

  const PTR: word := 8                 // ptrSize

  datatype Arg = Arg(size: word, align: word)

  predicate Good(args: seq<Arg>) { forall i | 0 <= i < |args| :: PowerOfTwo(args[i].align) }

  function Masked(x: word, a: word): word
    requires PowerOfTwo(a)
  {
    if a == 1 then 0 else if a == 2 then x % 2 else if a == 4 then x % 4 else x % 8
  }

  function Plus(x: word, y: word): word { (x + y) % MOD }

  function Negated(x: word): word { (MOD - x) % MOD }

  /** (off + a - 1) &^ (a - 1), as in Value.call and in align. */
  function Cleared(off: word, a: word): word
    requires PowerOfTwo(a)
  {
    Plus(off, a - 1) - Masked(Plus(off, a - 1), a)
  }

  /** off + (-off & (a - 1)), as in funcLayout and callReflect. */
  function Added(off: word, a: word): word
    requires PowerOfTwo(a)
  {
    Plus(off, Masked(Negated(off), a))
  }

  /** The least multiple of a that is no less than off, or 0 if there is none among the words. */
  function Multiple(off: word, a: word): word
    requires PowerOfTwo(a)
  {
    if Masked(off, a) == 0 then off else Plus(off - Masked(off, a), a)
  }

  lemma Cleared2(off: word)
    ensures Cleared(off, 2) == Multiple(off, 2)
  {
    var q, l := off / 2, off % 2;
    assert off == 2 * q + l;
    if l == 0 {
      assert Plus(off, 1) == 2 * q + 1 && Masked(Plus(off, 1), 2) == 1;
    } else if off + 1 < MOD {
      assert Plus(off, 1) == 2 * (q + 1) + (l - 1) && Masked(Plus(off, 1), 2) == l - 1;
    } else {
      assert Plus(off, 1) == l - 1;
    }
  }

  lemma Added2(off: word)
    ensures Added(off, 2) == Multiple(off, 2)
  {
    var q, l := off / 2, off % 2;
    assert off == 2 * q + l;
    if l == 0 {
      assert Masked(Negated(off), 2) == 0;
    } else {
      assert Negated(off) == 2 * (MOD / 2 - q - 1) + (2 - l) && Masked(Negated(off), 2) == 2 - l;
    }
  }

  lemma Cleared4(off: word)
    ensures Cleared(off, 4) == Multiple(off, 4)
  {
    var q, l := off / 4, off % 4;
    assert off == 4 * q + l;
    if l == 0 {
      assert Plus(off, 3) == 4 * q + 3 && Masked(Plus(off, 3), 4) == 3;
    } else if off + 3 < MOD {
      assert Plus(off, 3) == 4 * (q + 1) + (l - 1) && Masked(Plus(off, 3), 4) == l - 1;
    } else {
      assert Plus(off, 3) == l - 1;
    }
  }

  lemma Added4(off: word)
    ensures Added(off, 4) == Multiple(off, 4)
  {
    var q, l := off / 4, off % 4;
    assert off == 4 * q + l;
    if l == 0 {
      assert Masked(Negated(off), 4) == 0;
    } else {
      assert Negated(off) == 4 * (MOD / 4 - q - 1) + (4 - l) && Masked(Negated(off), 4) == 4 - l;
    }
  }

  lemma Cleared8(off: word)
    ensures Cleared(off, 8) == Multiple(off, 8)
  {
    var q, l := off / 8, off % 8;
    assert off == 8 * q + l;
    if l == 0 {
      assert Plus(off, 7) == 8 * q + 7 && Masked(Plus(off, 7), 8) == 7;
    } else if off + 7 < MOD {
      assert Plus(off, 7) == 8 * (q + 1) + (l - 1) && Masked(Plus(off, 7), 8) == l - 1;
    } else {
      assert Plus(off, 7) == l - 1;
    }
  }

  lemma Added8(off: word)
    ensures Added(off, 8) == Multiple(off, 8)
  {
    var q, l := off / 8, off % 8;
    assert off == 8 * q + l;
    if l == 0 {
      assert Masked(Negated(off), 8) == 0;
    } else {
      assert Negated(off) == 8 * (MOD / 8 - q - 1) + (8 - l) && Masked(Negated(off), 8) == 8 - l;
    }
  }

  lemma NoRounding(off: word)
    ensures Cleared(off, 1) == off == Added(off, 1) == Multiple(off, 1)
  {
  }

  /** The two formulas agree on all words, also where they wrap around. */
  lemma RoundingsAgree(off: word, a: word)
    requires PowerOfTwo(a)
    ensures Cleared(off, a) == Added(off, a) == Multiple(off, a)
  {
    hide Masked;
    hide Multiple;
    if a == 1 {
      NoRounding(off);
    } else if a == 2 {
      Cleared2(off);
      Added2(off);
    } else if a == 4 {
      Cleared4(off);
      Added4(off);
    } else {
      Cleared8(off);
      Added8(off);
    }
  }

  lemma Shift2(off: word)
    ensures Masked(Plus(off, PTR), 2) == Masked(off, 2)
  {
    var q, l := off / 2, off % 2;
    assert off == 2 * q + l;
    if off + 8 < MOD {
      assert Plus(off, PTR) == 2 * (q + 4) + l;
    } else {
      assert Plus(off, PTR) == 2 * (q + 4 - MOD / 2) + l;
    }
  }

  lemma Shift4(off: word)
    ensures Masked(Plus(off, PTR), 4) == Masked(off, 4)
  {
    var q, l := off / 4, off % 4;
    assert off == 4 * q + l;
    if off + 8 < MOD {
      assert Plus(off, PTR) == 4 * (q + 2) + l;
    } else {
      assert Plus(off, PTR) == 4 * (q + 2 - MOD / 4) + l;
    }
  }

  lemma Shift8(off: word)
    ensures Masked(Plus(off, PTR), 8) == Masked(off, 8)
  {
    var q, l := off / 8, off % 8;
    assert off == 8 * q + l;
    if off + 8 < MOD {
      assert Plus(off, PTR) == 8 * (q + 1) + l;
    } else {
      assert Plus(off, PTR) == 8 * (q + 1 - MOD / 8) + l;
    }
  }

  lemma MaskShifts(off: word, a: word)
    requires PowerOfTwo(a)
    ensures Masked(Plus(off, PTR), a) == Masked(off, a)
    ensures Masked(off, a) <= off && Masked(off, a) < a && (off - Masked(off, a)) % 8 + Masked(off, a) < 8
  {
    if a == 2 {
      Shift2(off);
    } else if a == 4 {
      Shift4(off);
    } else if a == 8 {
      Shift8(off);
    }
  }

  /** Rounding commutes with a shift by a whole word. */
  lemma MultipleShifts(off: word, a: word)
    requires PowerOfTwo(a)
    ensures Multiple(Plus(off, PTR), a) == Plus(Multiple(off, a), PTR)
  {
    hide Masked;
    MaskShifts(off, a);
    var m := Masked(off, a);
    NoWrapBelow(off, m);
    assert Plus(off, PTR) - m == Plus(off - m, PTR);
    PlusShifts(off - m, a);
  }

  /** Going down by less than a word to a multiple does not undo a wrap. */
  lemma NoWrapBelow(off: word, m: word)
    requires m <= off && (off - m) % 8 + m < 8
    ensures Plus(off, PTR) >= m && Plus(off, PTR) - m == Plus(off - m, PTR)
  {
    assert off - m == 8 * ((off - m) / 8) + (off - m) % 8;
  }

  lemma Least2(off: word)
    requires off <= MOD - 8
    ensures off <= Multiple(off, 2) < off + 2 && Multiple(off, 2) % 2 == 0
  {
    assert off == 2 * (off / 2) + off % 2;
  }

  lemma Least4(off: word)
    requires off <= MOD - 8
    ensures off <= Multiple(off, 4) < off + 4 && Multiple(off, 4) % 4 == 0
  {
    assert off == 4 * (off / 4) + off % 4;
  }

  lemma Least8(off: word)
    requires off <= MOD - 8
    ensures off <= Multiple(off, 8) < off + 8 && Multiple(off, 8) % 8 == 0
  {
    assert off == 8 * (off / 8) + off % 8;
  }

  lemma MultipleLeast(off: word, a: word)
    requires PowerOfTwo(a) && off <= MOD - 8
    ensures off <= Multiple(off, a) < off + a && Masked(Multiple(off, a), a) == 0
  {
    hide Multiple;
    if a == 1 {
      NoRounding(off);
    } else if a == 2 {
      Least2(off);
    } else if a == 4 {
      Least4(off);
    } else {
      Least8(off);
    }
  }

  /** Rounded up or wrapped, the offset is a multiple. */
  lemma MultipleSuits(off: word, a: word)
    requires PowerOfTwo(a)
    ensures Multiple(off, a) % a == 0
  {
    if a == 2 {
      Suits2(off);
    } else if a == 4 {
      Suits4(off);
    } else if a == 8 {
      Suits8(off);
    }
  }

  lemma Suits2(off: word)
    ensures Multiple(off, 2) % 2 == 0
  {
    assert MOD % 2 == 0;
  }

  lemma Suits4(off: word)
    ensures Multiple(off, 4) % 4 == 0
  {
    assert MOD % 4 == 0;
  }

  lemma Suits8(off: word)
    ensures Multiple(off, 8) % 8 == 0
  {
    assert MOD % 8 == 0;
  }

  // ---------- the layout ----------

  /** Values one after the other from `start` on, each at the next place that suits it. */
  function EndOf(args: seq<Arg>, n: nat, start: word): word
    requires n <= |args| && Good(args)
    decreases n, 0
  {
    if n == 0 then start else Plus(OffsetOf(args, n - 1, start), args[n - 1].size)
  }

  function OffsetOf(args: seq<Arg>, i: nat, start: word): word
    requires i < |args| && Good(args)
    decreases i, 1
  {
    Multiple(EndOf(args, i, start), args[i].align)
  }

  function Offsets(args: seq<Arg>, n: nat, start: word): (offs: seq<word>)
    requires n <= |args| && Good(args)
    ensures |offs| == n && forall i | 0 <= i < n :: offs[i] == OffsetOf(args, i, start)
  {
    seq(n, i requires 0 <= i < n => OffsetOf(args, i, start))
  }

  /** Where arguments and results go, how far the arguments reach, where the results begin,
      and the size of the frame. */
  datatype Layout = Layout(ins: seq<word>, argSize: word, retOffset: word, outs: seq<word>, size: word)

  function Frame(ins: seq<Arg>, outs: seq<Arg>, rcvr: bool): Layout
    requires Good(ins) && Good(outs)
  {
    var start: word := if rcvr then PTR else 0;
    var argSize := EndOf(ins, |ins|, start);
    var ret := Multiple(argSize, PTR);
    Layout(Offsets(ins, |ins|, start), argSize, ret, Offsets(outs, |outs|, ret),
           Multiple(EndOf(outs, |outs|, ret), PTR))
  }

  /** The loops of funcLayout. */
  method FuncLayout(ins: seq<Arg>, outs: seq<Arg>, rcvr: bool) returns (l: Layout)
    requires Good(ins) && Good(outs)
    ensures l == Frame(ins, outs, rcvr)
  {
    hide Multiple;
    hide Added;
    hide Plus;
    var offset: word, inOffs: seq<word>, outOffs: seq<word> := 0, [], [];
    if rcvr { offset := PTR; }
    ghost var start := offset;
    for i := 0 to |ins|
      invariant offset == EndOf(ins, i, start) && inOffs == Offsets(ins, i, start)
    {
      RoundingsAgree(offset, ins[i].align);
      offset := Added(offset, ins[i].align);
      inOffs := inOffs + [offset];
      offset := Plus(offset, ins[i].size);
    }
    var argSize := offset;
    RoundingsAgree(offset, PTR);
    offset := Added(offset, PTR);
    var retOffset := offset;
    for i := 0 to |outs|
      invariant offset == EndOf(outs, i, retOffset) && outOffs == Offsets(outs, i, retOffset)
    {
      RoundingsAgree(offset, outs[i].align);
      offset := Added(offset, outs[i].align);
      outOffs := outOffs + [offset];
      offset := Plus(offset, outs[i].size);
    }
    RoundingsAgree(offset, PTR);
    offset := Added(offset, PTR);
    l := Layout(inOffs, argSize, retOffset, outOffs, offset);
  }

  /** The loops of Value.call: the arguments, then the results from where funcLayout says. */
  method CallOffsets(ins: seq<Arg>, outs: seq<Arg>, rcvr: bool) returns (inOffs: seq<word>, outOffs: seq<word>)
    requires Good(ins) && Good(outs)
    ensures inOffs == Frame(ins, outs, rcvr).ins && outOffs == Frame(ins, outs, rcvr).outs
  {
    hide Multiple;
    hide Cleared;
    hide Plus;
    var l := FuncLayout(ins, outs, rcvr);
    var off: word := if rcvr then PTR else 0;
    ghost var start := off;
    inOffs, outOffs := [], [];
    for i := 0 to |ins|
      invariant off == EndOf(ins, i, start) && inOffs == Offsets(ins, i, start)
    {
      RoundingsAgree(off, ins[i].align);
      off := Cleared(off, ins[i].align);
      inOffs := inOffs + [off];
      PlusNothing(off);
      if ins[i].size == 0 { continue; }
      off := Plus(off, ins[i].size);
    }
    off := l.retOffset;
    for i := 0 to |outs|
      invariant off == EndOf(outs, i, l.retOffset) && outOffs == Offsets(outs, i, l.retOffset)
    {
      RoundingsAgree(off, outs[i].align);
      off := Cleared(off, outs[i].align);
      outOffs := outOffs + [off];
      off := Plus(off, outs[i].size);
    }
  }

  lemma PlusNothing(x: word)
    ensures Plus(x, 0) == x
  {
  }

  /** The loops of callReflect, for a function without receiver. */
  method ReflectOffsets(ins: seq<Arg>, outs: seq<Arg>) returns (inOffs: seq<word>, outOffs: seq<word>)
    requires Good(ins) && Good(outs)
    ensures inOffs == Frame(ins, outs, false).ins && outOffs == Frame(ins, outs, false).outs
  {
    hide Multiple;
    hide Added;
    hide Plus;
    var off: word := 0;
    inOffs, outOffs := [], [];
    for i := 0 to |ins|
      invariant off == EndOf(ins, i, 0) && inOffs == Offsets(ins, i, 0)
    {
      RoundingsAgree(off, ins[i].align);
      off := Added(off, ins[i].align);
      inOffs := inOffs + [off];
      off := Plus(off, ins[i].size);
    }
    if |outs| > 0 {
      RoundingsAgree(off, PTR);
      off := Added(off, PTR);
      ghost var ret := off;
      for i := 0 to |outs|
        invariant off == EndOf(outs, i, ret) && outOffs == Offsets(outs, i, ret)
      {
        RoundingsAgree(off, outs[i].align);
        off := Added(off, outs[i].align);
        outOffs := outOffs + [off];
        PlusNothing(off);
        if outs[i].size == 0 { continue; }
        off := Plus(off, outs[i].size);
      }
    }
  }

  // ---------- a receiver shifts everything by one word ----------

  lemma {:induction false} EndShifts(args: seq<Arg>, n: nat, start: word)
    requires n <= |args| && Good(args)
    ensures EndOf(args, n, Plus(start, PTR)) == Plus(EndOf(args, n, start), PTR)
    ensures n < |args| ==> OffsetOf(args, n, Plus(start, PTR)) == Plus(OffsetOf(args, n, start), PTR)
    decreases n
  {
    hide Multiple;
    if n > 0 {
      EndShifts(args, n - 1, start);
      PlusShifts(OffsetOf(args, n - 1, start), args[n - 1].size);
    }
    if n < |args| { MultipleShifts(EndOf(args, n, start), args[n].align); }
  }

  lemma PlusShifts(x: word, size: word)
    ensures Plus(Plus(x, PTR), size) == Plus(Plus(x, size), PTR)
  {
  }

  function Shifted(offs: seq<word>): seq<word> { seq(|offs|, i requires 0 <= i < |offs| => Plus(offs[i], PTR)) }

  /** The frame of a method call is the frame without receiver, one word further on. */
  lemma ReceiverShifts(ins: seq<Arg>, outs: seq<Arg>)
    requires Good(ins) && Good(outs)
    ensures var f, g := Frame(ins, outs, false), Frame(ins, outs, true);
            g == Layout(Shifted(f.ins), Plus(f.argSize, PTR), Plus(f.retOffset, PTR), Shifted(f.outs),
                        Plus(f.size, PTR))
  {
    hide Multiple;
    var f, g := Frame(ins, outs, false), Frame(ins, outs, true);
    assert Plus(0, PTR) == PTR;
    forall i: nat | i <= |ins|
      ensures EndOf(ins, i, PTR) == Plus(EndOf(ins, i, 0), PTR)
      ensures i < |ins| ==> OffsetOf(ins, i, PTR) == Plus(OffsetOf(ins, i, 0), PTR)
    {
      EndShifts(ins, i, 0);
    }
    MultipleShifts(f.argSize, PTR);
    forall i: nat | i <= |outs|
      ensures EndOf(outs, i, g.retOffset) == Plus(EndOf(outs, i, f.retOffset), PTR)
      ensures i < |outs| ==> OffsetOf(outs, i, g.retOffset) == Plus(OffsetOf(outs, i, f.retOffset), PTR)
    {
      EndShifts(outs, i, f.retOffset);
    }
    MultipleShifts(EndOf(outs, |outs|, f.retOffset), PTR);
    assert g.ins == Shifted(f.ins) && g.outs == Shifted(f.outs);
  }

  // ---------- copying between the frames ----------

  /** No place of a value wraps around. */
  ghost predicate Fits(args: seq<Arg>, start: word)
    requires Good(args)
  {
    forall i: nat | i < |args| ::
      EndOf(args, i, start) <= OffsetOf(args, i, start) && OffsetOf(args, i, start) + args[i].size < MOD
  }

  ghost predicate FrameFits(ins: seq<Arg>, outs: seq<Arg>, rcvr: bool)
    requires Good(ins) && Good(outs)
  {
    var g := Frame(ins, outs, rcvr);
    && Fits(ins, if rcvr then PTR else 0) && g.argSize <= g.retOffset
    && Fits(outs, g.retOffset) && EndOf(outs, |outs|, g.retOffset) <= g.size
  }

  lemma EndNext(args: seq<Arg>, n: nat, start: word)
    requires Good(args) && Fits(args, start) && n < |args|
    ensures EndOf(args, n, start) <= OffsetOf(args, n, start)
    ensures EndOf(args, n + 1, start) == OffsetOf(args, n, start) + args[n].size
  {
    hide Multiple;
    var x: int, y: int := OffsetOf(args, n, start), args[n].size;
    assert x + y < MOD;
  }

  lemma {:induction false} EndsGrow(args: seq<Arg>, m: nat, n: nat, start: word)
    requires Good(args) && Fits(args, start) && m <= n <= |args|
    ensures EndOf(args, m, start) <= EndOf(args, n, start)
    decreases n
  {
    hide EndOf;
    hide OffsetOf;
    hide Fits;
    if m < n {
      EndsGrow(args, m, n - 1, start);
      EndNext(args, n - 1, start);
    }
  }

  lemma EndStart(args: seq<Arg>, start: word)
    requires Good(args)
    ensures EndOf(args, 0, start) == start
  {
  }

  /** A value lies between the start and the end. */
  lemma Between(args: seq<Arg>, i: nat, start: word)
    requires Good(args) && Fits(args, start) && i < |args|
    ensures start <= OffsetOf(args, i, start) <= OffsetOf(args, i, start) + args[i].size <= EndOf(args, |args|, start)
  {
    hide EndOf;
    hide OffsetOf;
    hide Fits;
    EndsGrow(args, 0, i, start);
    EndsGrow(args, i + 1, |args|, start);
    EndNext(args, i, start);
    EndStart(args, start);
  }

  /** Nothing is left out between values but what their alignment asks for: each begins at the
      least multiple of its alignment that is no less than the end of the one before, the
      first no less than `start`. */
  lemma PlacesTight(args: seq<Arg>, i: nat, start: word)
    requires Good(args) && Fits(args, start) && i < |args| && EndOf(args, i, start) <= MOD - 8
    ensures var before := if i == 0 then start else OffsetOf(args, i - 1, start) + args[i - 1].size;
            var at, a := OffsetOf(args, i, start), args[i].align;
            before <= at < before + a && at % a == 0
  {
    hide Multiple;
    EndStart(args, start);
    if i > 0 { EndNext(args, i - 1, start); }
    MultipleLeast(EndOf(args, i, start), args[i].align);
    MultipleSuits(EndOf(args, i, start), args[i].align);
  }

  /** Results begin at the next whole word after the arguments, and the frame ends with the next
      whole word after the results; a receiver takes the first word. */
  lemma FrameTight(ins: seq<Arg>, outs: seq<Arg>, rcvr: bool)
    requires Good(ins) && Good(outs) && FrameFits(ins, outs, rcvr)
    requires var l := Frame(ins, outs, rcvr); l.argSize <= MOD - 8 && EndOf(outs, |outs|, l.retOffset) <= MOD - 8
    ensures var l := Frame(ins, outs, rcvr);
            var start: word := if rcvr then 8 else 0;
            var argEnd := if ins == [] then start else l.ins[|ins| - 1] + ins[|ins| - 1].size;
            var end := if outs == [] then l.retOffset else l.outs[|outs| - 1] + outs[|outs| - 1].size;
            && l.argSize == argEnd && argEnd <= l.retOffset < argEnd + 8 && l.retOffset % 8 == 0
            && end <= l.size < end + 8 && l.size % 8 == 0
            && (forall i: nat | i < |ins| :: l.ins[i] == OffsetOf(ins, i, start))
            && (forall i: nat | i < |outs| :: l.outs[i] == OffsetOf(outs, i, l.retOffset))
  {
    hide Multiple;
    hide EndOf;
    hide OffsetOf;
    hide Fits;
    var l := Frame(ins, outs, rcvr);
    var start: word := if rcvr then 8 else 0;
    EndStart(ins, start);
    EndStart(outs, l.retOffset);
    if ins != [] { EndNext(ins, |ins| - 1, start); }
    if outs != [] { EndNext(outs, |outs| - 1, l.retOffset); }
    NextWord(l.argSize);
    NextWord(EndOf(outs, |outs|, l.retOffset));
  }

  lemma NextWord(x: word)
    requires x <= MOD - 8
    ensures x <= Multiple(x, PTR) < x + 8 && Multiple(x, PTR) % 8 == 0
  {
    MultipleLeast(x, PTR);
    MultipleSuits(x, PTR);
    hide Multiple;
  }

  /** The frames in numbers, when nothing wraps. */
  lemma FramesApart(ins: seq<Arg>, outs: seq<Arg>)
    requires Good(ins) && Good(outs) && FrameFits(ins, outs, true)
    ensures var f, g := Frame(ins, outs, false), Frame(ins, outs, true);
            && PTR <= g.argSize <= g.retOffset <= g.size
            && f.argSize == g.argSize - PTR && f.retOffset == g.retOffset - PTR && f.size == g.size - PTR
    ensures var f := Frame(ins, outs, false);
            forall i: nat | i < |ins| :: f.ins[i] + ins[i].size <= f.argSize && OffsetOf(ins, i, PTR) == f.ins[i] + PTR
    ensures var f, g := Frame(ins, outs, false), Frame(ins, outs, true);
            forall i: nat | i < |outs| ::
              f.retOffset <= f.outs[i] && f.outs[i] + outs[i].size <= f.size && g.outs[i] == f.outs[i] + PTR
  {
    hide Multiple;
    ReceiverShifts(ins, outs);
    var f, g := Frame(ins, outs, false), Frame(ins, outs, true);
    EndsGrow(ins, 0, |ins|, PTR);
    EndsGrow(outs, 0, |outs|, g.retOffset);
    Unshift(f.argSize, g.argSize);
    Unshift(f.retOffset, g.retOffset);
    Unshift(f.size, g.size);
    forall i: nat | i < |ins| ensures f.ins[i] + ins[i].size <= f.argSize && OffsetOf(ins, i, PTR) == f.ins[i] + PTR {
      Between(ins, i, PTR);
      assert g.ins[i] == Plus(f.ins[i], PTR);
      Unshift(f.ins[i], g.ins[i]);
    }
    forall i: nat | i < |outs|
      ensures f.retOffset <= f.outs[i] && f.outs[i] + outs[i].size <= f.size && g.outs[i] == f.outs[i] + PTR
    {
      Between(outs, i, g.retOffset);
      assert g.outs[i] == Plus(f.outs[i], PTR);
      Unshift(f.outs[i], g.outs[i]);
    }
  }

  lemma Unshift(x: word, y: word)
    requires y == Plus(x, PTR) && y >= PTR
    ensures x == y - PTR
  {
  }

  function Minus(x: word, y: word): word { (x - y + MOD) % MOD }

  lemma WordAligned(a: word)
    requires PowerOfTwo(a)
    ensures Cleared(PTR, a) == PTR
  {
  }

  /** memmove between two arrays. */
  method Move(dst: array<byte>, at: nat, src: seq<byte>)
    requires at + |src| <= dst.Length
    modifies dst
    ensures dst[..at] == old(dst[..at]) && dst[at..at + |src|] == src && dst[at + |src|..] == old(dst[at + |src|..])
  {
    forall i | at <= i < at + |src| { dst[i] := src[i - at]; }
  }

  lemma Slices(s: seq<byte>, a: nat, b: nat, i: nat, j: nat)
    requires i <= j && a + j <= b <= |s|
    ensures s[a..b][i..j] == s[a + i..a + j]
  {
    var x, y := s[a..b][i..j], s[a + i..a + j];
    forall k | 0 <= k < j - i ensures x[k] == y[k] {
      assert x[k] == s[a..b][i + k] == s[a + i + k];
    }
  }

  /** The method is given the receiver and, one word further on, the arguments; its results
      come back one word further down. */
  ghost predicate Passed(f: Layout, g: Layout, rcvr: seq<byte>, before: seq<byte>, given: seq<byte>,
                         results: seq<byte>, after: seq<byte>)
  {
    && |before| == |after| == f.size && |given| == g.retOffset && |results| == g.size - g.retOffset
    && |rcvr| == PTR <= g.argSize <= |given| && f.argSize <= |before| && f.retOffset <= |after|
    && given[..PTR] == rcvr && given[PTR..g.argSize] == before[..f.argSize]
    && after[..f.retOffset] == before[..f.retOffset] && after[f.retOffset..] == results
  }

  /** callMethod: moves the arguments one word up behind the receiver, and the results, from
      whatever the method makes of what it is `given`, down into the caller's frame. */
  method CallMethod(ins: seq<Arg>, outs: seq<Arg>, rcvr: seq<byte>, frame: array<byte>, callee: seq<byte> -> seq<byte>)
    returns (given: seq<byte>)
    requires Good(ins) && Good(outs) && FrameFits(ins, outs, true) && |rcvr| == PTR
    requires frame.Length == Frame(ins, outs, false).size
    requires forall s :: |callee(s)| == Frame(ins, outs, false).size - Frame(ins, outs, false).retOffset
    modifies frame
    ensures Passed(Frame(ins, outs, false), Frame(ins, outs, true), rcvr, old(frame[..]), given, callee(given),
                   frame[..])
  {
    hide Frame;
    hide Multiple;
    hide EndOf;
    hide Fits;
    hide Cleared;
    FramesApart(ins, outs);
    var l := FuncLayout(ins, outs, true);
    var scratch := new byte[l.size](_ => 0);
    Move(scratch, 0, rcvr);
    var argOffset := PTR;
    if |ins| > 0 {
      WordAligned(ins[0].align);
      argOffset := Cleared(argOffset, ins[0].align);
    }
    given := CopyArguments(scratch, l, argOffset, rcvr, frame[..]);
    Move(scratch, l.retOffset, callee(given));
    assert scratch[l.retOffset..] == callee(given);
    CopyResults(frame, l, argOffset, callee(given));
  }

  /** The first block copy. */
  method CopyArguments(scratch: array<byte>, l: Layout, argOffset: word, rcvr: seq<byte>, frame: seq<byte>)
    returns (given: seq<byte>)
    requires argOffset == |rcvr| == PTR <= l.argSize <= l.retOffset <= l.size == scratch.Length
      && |frame| == l.size - PTR
    requires scratch[..PTR] == rcvr
    modifies scratch
    ensures |given| == l.retOffset && given[..PTR] == rcvr && given[PTR..l.argSize] == frame[..l.argSize - PTR]
  {
    var n := l.argSize - argOffset;
    if Minus(l.argSize, argOffset) > 0 {
      Move(scratch, argOffset, frame[..n]);
      assert scratch[PTR..l.argSize] == frame[..n];
    }
    given := scratch[..l.retOffset];
    Slices(scratch[..], 0, l.retOffset, 0, PTR);
    Slices(scratch[..], 0, l.retOffset, PTR, l.argSize);
  }

  /** The second block copy. */
  method CopyResults(frame: array<byte>, l: Layout, argOffset: word, results: seq<byte>)
    requires argOffset == PTR <= l.retOffset <= l.size && frame.Length == l.size - PTR
      && |results| == l.size - l.retOffset
    modifies frame
    ensures frame[..l.retOffset - PTR] == old(frame[..l.retOffset - PTR]) && frame[l.retOffset - PTR..] == results
  {
    if Minus(l.size, l.retOffset) > 0 {
      var callerRetOffset := Minus(l.retOffset, argOffset);
      Move(frame, callerRetOffset, results);
    }
  }

  /** So the method finds each argument at its place, and the caller each result. */
  lemma EachInPlace(ins: seq<Arg>, outs: seq<Arg>, rcvr: seq<byte>, before: seq<byte>, given: seq<byte>,
                    results: seq<byte>, after: seq<byte>)
    requires Good(ins) && Good(outs) && FrameFits(ins, outs, true)
    requires Passed(Frame(ins, outs, false), Frame(ins, outs, true), rcvr, before, given, results, after)
    ensures var f, g := Frame(ins, outs, false), Frame(ins, outs, true);
            && (forall i: nat | i < |ins| ::
                  && g.ins[i] + ins[i].size <= |given| && f.ins[i] + ins[i].size <= |before|
                  && given[g.ins[i]..g.ins[i] + ins[i].size] == before[f.ins[i]..f.ins[i] + ins[i].size])
            && (forall i: nat | i < |outs| ::
                  && g.retOffset <= g.outs[i] && g.outs[i] + outs[i].size <= g.size
                  && f.outs[i] + outs[i].size <= |after|
                  && after[f.outs[i]..f.outs[i] + outs[i].size]
                       == results[g.outs[i] - g.retOffset..g.outs[i] - g.retOffset + outs[i].size])
  {
    hide Multiple;
    hide EndOf;
    hide Fits;
    FramesApart(ins, outs);
    var f, g := Frame(ins, outs, false), Frame(ins, outs, true);
    forall i: nat | i < |ins|
      ensures given[g.ins[i]..g.ins[i] + ins[i].size] == before[f.ins[i]..f.ins[i] + ins[i].size]
    {
      var o, n := f.ins[i], ins[i].size;
      Slices(given, PTR, g.argSize, o, o + n);
      Slices(before, 0, f.argSize, o, o + n);
    }
    forall i: nat | i < |outs|
      ensures after[f.outs[i]..f.outs[i] + outs[i].size]
                == results[g.outs[i] - g.retOffset..g.outs[i] - g.retOffset + outs[i].size]
    {
      var o, n := f.outs[i], outs[i].size;
      Slices(after, f.retOffset, |after|, o - f.retOffset, o - f.retOffset + n);
    }
  }
}

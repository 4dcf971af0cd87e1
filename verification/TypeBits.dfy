/** reflect/type.go: which words of a value hold pointers, computed as a bitmap by recursion
    over the type, and for arrays by repeating the element's bitmap. */
module TypeBits {
  import opened Basics

  const PTR := 8                       // ptrSize
  const MAX_MASK := 2048               // maxPtrmaskBytes

  // ---------- types ----------

  datatype Field = Field(offset: nat, typ: Type)

  datatype Type =
    | Plain(size: nat, align: nat)                       // numbers, booleans
    | OnePointer(words: nat)                             // Chan, Func, Map, Ptr, UnsafePointer; String; Slice
    | Interface
    | Array(len: nat, elem: Type)
    | Struct(fields: seq<Field>, size: nat, align: nat)

  function Size(t: Type): nat
  {
    match t
    case Plain(size, _) => size
    case OnePointer(words) => words * PTR
    case Interface => 2 * PTR
    case Array(len, elem) => Size(elem) * len
    case Struct(_, size, _) => size
  }

  function Align(t: Type): nat
  {
    match t
    case Plain(_, align) => align
    case OnePointer(_) => PTR
    case Interface => PTR
    case Array(_, elem) => Align(elem)
    case Struct(_, _, align) => align
  }

  /** How much of the value can hold pointers: 0, or up to the end of the last pointer. */
  function PtrData(t: Type): nat
    decreases t, 0
  {
    match t
    case Plain(_, _) => 0
    case OnePointer(_) => PTR
    case Interface => 2 * PTR
    case Array(len, elem) => if len > 0 && PtrData(elem) != 0 then Size(elem) * (len - 1) + PtrData(elem) else 0
    case Struct(fields, _, _) => PtrDataUpTo(t, |fields|)
  }

  function PtrDataUpTo(t: Type, n: nat): nat
    requires t.Struct? && n <= |t.fields|
    decreases t, 0, n
  {
    if n == 0 then 0
    else if PtrData(t.fields[n - 1].typ) != 0 then t.fields[n - 1].offset + PtrData(t.fields[n - 1].typ)
    else PtrDataUpTo(t, n - 1)
  }

  /** Fields are in order, do not overlap, and are aligned. */
  predicate WellFormed(t: Type)
  {
    match t
    case Plain(size, align) => PowerOfTwo(align) && size % align == 0
    case OnePointer(words) => 1 <= words <= 3
    case Interface => true
    case Array(_, elem) => WellFormed(elem)
    case Struct(fields, size, align) =>
      && PowerOfTwo(align) && size % align == 0
      && (forall i | 0 <= i < |fields| :: WellFormed(fields[i].typ) && Placed(fields[i], align))
      && (forall i, j | 0 <= i < j < |fields| :: fields[i].offset + Size(fields[i].typ) <= fields[j].offset)
      && (forall i | 0 <= i < |fields| :: fields[i].offset + Size(fields[i].typ) <= size)
  }

  predicate Placed(f: Field, align: nat)
  {
    Align(f.typ) <= align && 0 < Align(f.typ) && f.offset % Align(f.typ) == 0
  }

  // ---------- which words hold pointers ----------

  function Earlier(k: int, i: nat, words: nat): int { k - i * words }

  /** Word k of a value of type t is a pointer. */
  ghost predicate HasPointer(t: Type, k: int)
  {
    match t
    case Plain(_, _) => false
    case OnePointer(_) => k == 0
    case Interface => k == 0 || k == 1
    case Array(len, elem) => exists i: nat | i < len :: HasPointer(elem, Earlier(k, i, Size(elem) / PTR))
    case Struct(fields, _, _) => exists i | 0 <= i < |fields| :: FieldPointer(fields[i], k)
  }

  ghost predicate FieldPointer(f: Field, k: int)
  {
    HasPointer(f.typ, k - f.offset / PTR)
  }

  /** A type that holds pointers is made of whole words and aligned to one. */
  lemma {:induction false} WholeWords(t: Type)
    requires WellFormed(t)
    ensures PtrData(t) <= Size(t) && PtrData(t) % PTR == 0
    ensures PtrData(t) != 0 ==> Align(t) == PTR && Size(t) % PTR == 0
    ensures PowerOfTwo(Align(t))
    decreases t, 0
  {
    match t
    case Plain(_, _) =>
    case OnePointer(_) =>
    case Interface =>
    case Array(len, elem) => WholeWordsArray(t);
    case Struct(fields, _, _) => WholeWordsUpTo(t, |fields|);
  }

  lemma {:induction false} WholeWordsArray(t: Type)
    requires WellFormed(t) && t.Array?
    ensures PtrData(t) <= Size(t) && PtrData(t) % PTR == 0
    ensures PtrData(t) != 0 ==> Align(t) == PTR && Size(t) % PTR == 0
    ensures PowerOfTwo(Align(t))
    decreases t.elem, 1
  {
    hide PtrData;
    hide Size;
    hide WellFormed;
    ArrayParts(t);
    WholeWords(t.elem);
    ArrayTotals(Size(t.elem), t.len, PtrData(t.elem));
  }

  lemma ArrayTotals(size: nat, len: nat, data: nat)
    requires data <= size && data % PTR == 0 && (data != 0 ==> size % PTR == 0)
    ensures var total: int := if len > 0 && data != 0 then size * (len - 1) + data else 0;
            && 0 <= total <= size * len && total % PTR == 0 && (total != 0 ==> (size * len) % PTR == 0)
    ensures size == 0 ==> size * len == 0
  {
    if len > 0 && data != 0 { Multiples(size, len); }
  }

  lemma ArrayParts(t: Type)
    requires WellFormed(t) && t.Array?
    ensures WellFormed(t.elem) && Size(t) == Size(t.elem) * t.len && Align(t) == Align(t.elem)
    ensures PtrData(t) == if t.len > 0 && PtrData(t.elem) != 0 then Size(t.elem) * (t.len - 1) + PtrData(t.elem) else 0
  {
  }

  lemma FieldParts(t: Type, i: nat)
    requires WellFormed(t) && t.Struct? && i < |t.fields|
    ensures var f := t.fields[i];
            && WellFormed(f.typ) && Placed(f, t.align) && f.offset + Size(f.typ) <= t.size
            && (t.align == PTR ==> t.size % PTR == 0)
            && (i > 0 ==> t.fields[i - 1].offset + Size(t.fields[i - 1].typ) <= f.offset)
            && t.align <= PTR
  {
  }

  lemma Multiples(size: nat, len: nat)
    requires size % PTR == 0 && len > 0
    ensures (size * len) % PTR == 0 && (size * (len - 1)) % PTR == 0 && size * len == size * (len - 1) + size
  {
    var w := size / PTR;
    assert size == PTR * w;
    assert size * len == PTR * (w * len) && size * (len - 1) == PTR * (w * (len - 1));
  }

  lemma {:induction false} WholeWordsUpTo(t: Type, n: nat)
    requires WellFormed(t) && t.Struct? && n <= |t.fields|
    ensures PtrDataUpTo(t, n) % PTR == 0
    ensures PtrDataUpTo(t, n) != 0 ==> t.align == PTR && t.size % PTR == 0
    ensures n > 0 ==> PtrDataUpTo(t, n) <= t.fields[n - 1].offset + Size(t.fields[n - 1].typ)
    decreases t, 0, n
  {
    hide WellFormed;
    hide PtrData;
    hide Size;
    hide Align;
    hide Placed;
    hide PtrDataUpTo;
    PtrDataNone(t);
    if n > 0 {
      FieldParts(t, n - 1);
      WholeWords(t.fields[n - 1].typ);
      WholeWordsUpTo(t, n - 1);
      PtrDataNext(t, n - 1);
      if PtrData(t.fields[n - 1].typ) != 0 { FieldAligned(t.fields[n - 1], t.align); }
    }
  }

  /** A field with pointers lies at a whole word, in a struct aligned to one. */
  lemma FieldAligned(f: Field, align: nat)
    requires Placed(f, align) && align <= PTR && Align(f.typ) == PTR
    ensures align == PTR && f.offset % PTR == 0
  {
  }

  /** The words of the elements of an array follow each other. */
  lemma ArrayWords(t: Type, i: nat)
    requires WellFormed(t) && t.Array? && i < t.len && PtrData(t.elem) != 0
    ensures PtrData(t) != 0 && PtrData(t) / PTR == (t.len - 1) * (Size(t.elem) / PTR) + PtrData(t.elem) / PTR
    ensures 0 < PtrData(t.elem) / PTR <= Size(t.elem) / PTR
    ensures i * (Size(t.elem) / PTR) <= (t.len - 1) * (Size(t.elem) / PTR)
  {
    WholeWords(t.elem);
    var w, p := Size(t.elem) / PTR, PtrData(t.elem) / PTR;
    assert Size(t.elem) == PTR * w && PtrData(t.elem) == PTR * p;
    var n := t.len - 1;
    Regroup(w, n);
    assert PtrData(t) == PTR * (w * n) + PTR * p;
    Ordered(i, n, w);
  }

  lemma Regroup(w: nat, n: nat)
    ensures (PTR * w) * n == PTR * (w * n) && w * n == n * w
  {
  }

  lemma Ordered(i: nat, n: nat, w: nat)
    requires i <= n
    ensures i * w <= n * w
  {
  }

  /** Pointers lie within the pointer data. */
  lemma {:induction false} PointersWithin(t: Type, k: int)
    requires WellFormed(t) && HasPointer(t, k)
    ensures 0 <= k < PtrData(t) / PTR
    decreases t, 1
  {
    match t
    case OnePointer(_) =>
    case Interface =>
    case Array(len, elem) =>
      var i: nat :| i < len && HasPointer(elem, Earlier(k, i, Size(elem) / PTR));
      ElementWithin(t, i, k);
    case Struct(fields, _, _) =>
      var i :| 0 <= i < |fields| && FieldPointer(fields[i], k);
      FieldWithin(t, i, k);
      PtrDataGrows(t, i + 1, |fields|);
  }

  lemma {:induction false} ElementWithin(t: Type, i: nat, k: int)
    requires WellFormed(t) && t.Array? && i < t.len && HasPointer(t.elem, Earlier(k, i, Size(t.elem) / PTR))
    ensures 0 <= i * (Size(t.elem) / PTR) <= k < PtrData(t) / PTR
    decreases t, 0
  {
    hide HasPointer;
    hide PtrData;
    PointersWithin(t.elem, Earlier(k, i, Size(t.elem) / PTR));
    ArrayWords(t, i);
  }

  lemma {:induction false} FieldWithin(t: Type, i: nat, k: int)
    requires WellFormed(t) && t.Struct? && i < |t.fields| && FieldPointer(t.fields[i], k)
    ensures 0 <= k && t.fields[i].offset / PTR <= k < PtrDataUpTo(t, i + 1) / PTR
    decreases t, 0
  {
    var f := t.fields[i];
    PointersWithin(f.typ, k - f.offset / PTR);
    WholeWords(f.typ);
  }

  lemma {:induction false} PtrDataGrows(t: Type, m: nat, n: nat)
    requires WellFormed(t) && t.Struct? && m <= n <= |t.fields|
    ensures PtrDataUpTo(t, m) <= PtrDataUpTo(t, n)
    decreases n
  {
    if m < n {
      PtrDataGrows(t, m, n - 1);
      WholeWordsUpTo(t, n - 1);
    }
  }

  /** The pointer data ends with a pointer. */
  lemma {:induction false} LastPointer(t: Type)
    requires WellFormed(t) && PtrData(t) != 0
    ensures HasPointer(t, PtrData(t) / PTR - 1)
    decreases t, 0
  {
    match t
    case OnePointer(_) =>
    case Interface =>
    case Array(len, elem) =>
      LastPointer(elem);
      ArrayWords(t, len - 1);
      assert Earlier(PtrData(t) / PTR - 1, len - 1, Size(elem) / PTR) == PtrData(elem) / PTR - 1;
    case Struct(fields, _, _) => LastPointerUpTo(t, |fields|);
  }

  lemma {:induction false} LastPointerUpTo(t: Type, n: nat)
    requires WellFormed(t) && t.Struct? && n <= |t.fields| && PtrDataUpTo(t, n) != 0
    ensures HasPointer(t, PtrDataUpTo(t, n) / PTR - 1)
    decreases t, 0, n
  {
    var f := t.fields[n - 1];
    if PtrData(f.typ) != 0 {
      LastPointer(f.typ);
      WholeWords(f.typ);
      assert FieldPointer(f, PtrDataUpTo(t, n) / PTR - 1);
    } else {
      LastPointerUpTo(t, n - 1);
    }
  }

  lemma Offsets(size: nat, w: nat, i: nat, offset: nat)
    requires size == PTR * w && offset % PTR == 0
    ensures (offset + i * size) % PTR == 0 && (offset + i * size) / PTR == offset / PTR + i * w
    ensures i * size == PTR * (i * w) && 0 <= i * w && (i > 0 ==> (i - 1) * w + w == i * w)
  {
    assert i * size == PTR * (i * w) by {
      calc {
        i * size;
        i * (PTR * w);
        PTR * (i * w);
      }
    }
  }

  /** Where the words of element i of an array go. */
  lemma ArrayStep(elem: Type, i: nat, offset: nat)
    requires WellFormed(elem) && PtrData(elem) != 0 && offset % PTR == 0
    ensures var w, p := Size(elem) / PTR, PtrData(elem) / PTR;
            && (offset + i * Size(elem)) % PTR == 0 && (offset + i * Size(elem)) / PTR == offset / PTR + i * w
            && PtrData(Array(i + 1, elem)) != 0 && PtrData(Array(i + 1, elem)) / PTR == i * w + p
            && (i > 0 ==> PtrData(Array(i, elem)) / PTR <= i * w) && 0 <= i * w
  {
    hide PtrData;
    WholeWords(elem);
    Offsets(Size(elem), Size(elem) / PTR, i, offset);
    ArrayWords(Array(i + 1, elem), i);
    if i > 0 { ArrayWords(Array(i, elem), 0); }
  }

  /** The pointers of the first elements, and those of the next. */
  lemma ArrayBits(elem: Type, i: nat, k: int)
    requires WellFormed(elem) && PtrData(elem) != 0
    ensures var here := i * (Size(elem) / PTR);
            HasPointer(Array(i + 1, elem), k) <==>
              if i > 0 && k < PtrData(Array(i, elem)) / PTR then HasPointer(Array(i, elem), k)
              else HasPointer(elem, k - here)
  {
    hide PtrData;
    hide HasPointer;
    var w := Size(elem) / PTR;
    ArrayMembers(elem, i, k);
    ArrayStep(elem, i, 0);
    if HasPointer(elem, k - i * w) { PointersWithin(elem, k - i * w); }
    if HasPointer(Array(i, elem), k) {
      PointersWithin(Array(i, elem), k);
      if i == 0 { NoElements(elem, k); }
    }
  }

  lemma ElemWellFormed(t: Type)
    requires t.Array? && WellFormed(t)
    ensures WellFormed(t.elem)
  {
  }

  lemma NoElements(elem: Type, k: int)
    ensures !HasPointer(Array(0, elem), k)
  {
  }

  lemma ArrayHasPointers(t: Type)
    requires t.Array? && PtrData(t) != 0
    ensures t.len > 0 && PtrData(t.elem) != 0
  {
  }

  lemma ArrayMembers(elem: Type, i: nat, k: int)
    ensures HasPointer(Array(i + 1, elem), k) <==>
      HasPointer(Array(i, elem), k) || HasPointer(elem, k - i * (Size(elem) / PTR))
  {
    var w := Size(elem) / PTR;
    assert Earlier(k, i, w) == k - i * w;
    if HasPointer(Array(i + 1, elem), k) {
      var j: nat :| j < i + 1 && HasPointer(elem, Earlier(k, j, w));
      if j < i { assert HasPointer(Array(i, elem), k); }
    }
    if HasPointer(Array(i, elem), k) {
      var j: nat :| j < i && HasPointer(elem, Earlier(k, j, w));
    }
    if HasPointer(elem, k - i * w) { assert HasPointer(elem, Earlier(k, i, w)); }
  }

  ghost predicate PointerUpTo(t: Type, n: nat, k: int)
    requires t.Struct? && n <= |t.fields|
  {
    exists i | 0 <= i < n :: FieldPointer(t.fields[i], k)
  }

  lemma StructBits(t: Type)
    requires t.Struct?
    ensures PtrData(t) == PtrDataUpTo(t, |t.fields|) && PtrDataUpTo(t, 0) == 0
    ensures forall k :: HasPointer(t, k) <==> PointerUpTo(t, |t.fields|, k)
  {
  }

  /** Where the words of field i go. */
  lemma FieldStep(t: Type, i: nat, offset: nat)
    requires WellFormed(t) && t.Struct? && i < |t.fields| && offset % PTR == 0
    ensures var f := t.fields[i];
            && PtrDataUpTo(t, i) <= f.offset && PtrDataUpTo(t, i) % PTR == 0
            && (PtrData(f.typ) == 0 ==> PtrDataUpTo(t, i + 1) == PtrDataUpTo(t, i))
            && (PtrData(f.typ) != 0 ==>
                  && (offset + f.offset) % PTR == 0 && (offset + f.offset) / PTR == offset / PTR + f.offset / PTR
                  && PtrDataUpTo(t, i + 1) != 0 && PtrDataUpTo(t, i + 1) / PTR == f.offset / PTR + PtrData(f.typ) / PTR)
  {
    hide WellFormed;
    hide PtrData;
    hide PtrDataUpTo;
    hide Size;
    FieldParts(t, i);
    if i > 0 { WholeWordsUpTo(t, i); }
    PtrDataNone(t);
    PtrDataNext(t, i);
    WholeWords(t.fields[i].typ);
  }

  lemma PtrDataNone(t: Type)
    requires t.Struct?
    ensures PtrDataUpTo(t, 0) == 0
  {
  }

  lemma PtrDataNext(t: Type, i: nat)
    requires t.Struct? && i < |t.fields|
    ensures var f := t.fields[i];
            PtrDataUpTo(t, i + 1) == if PtrData(f.typ) != 0 then f.offset + PtrData(f.typ) else PtrDataUpTo(t, i)
  {
  }

  /** The pointers of the first fields, and those of the next. */
  lemma FieldBits(t: Type, i: nat, k: int)
    requires WellFormed(t) && t.Struct? && i < |t.fields|
    ensures var f := t.fields[i];
            PointerUpTo(t, i + 1, k) <==>
              if PtrDataUpTo(t, i) != 0 && k < PtrDataUpTo(t, i) / PTR then PointerUpTo(t, i, k)
              else HasPointer(f.typ, k - f.offset / PTR)
  {
    hide HasPointer;
    hide PtrData;
    hide PtrDataUpTo;
    var f := t.fields[i];
    FieldStep(t, i, 0);
    if FieldPointer(f, k) { PointersWithin(f.typ, k - f.offset / PTR); }
    if PointerUpTo(t, i, k) {
      var j :| 0 <= j < i && FieldPointer(t.fields[j], k);
      FieldWithin(t, j, k);
      PtrDataGrows(t, j + 1, i);
    }
  }

  // ---------- bitmaps ----------

  /** A byte, as its eight bits from the least significant on: b[j] is (b>>j)&1. */
  type octet = b: seq<bool> | |b| == 8 witness [false, false, false, false, false, false, false, false]

  const NO_BITS: octet := [false, false, false, false, false, false, false, false]

  predicate Bit(data: seq<octet>, k: nat)
    requires k < 8 * |data|
  {
    data[k / 8][k % 8]
  }

  /** The bitmap of a type: a bit for every word of the pointer data, in whole bytes. */
  ghost predicate Describes(data: seq<octet>, t: Type)
  {
    && |data| == (PtrData(t) / PTR + 7) / 8
    && forall k: nat | k < 8 * |data| :: Bit(data, k) <==> HasPointer(t, k)
  }

  lemma Split(i: nat, j: nat)
    requires j < 8
    ensures (8 * i + j) / 8 == i && (8 * i + j) % 8 == j
  {
  }

  /** There is just one bitmap for a type. */
  lemma OneBitmap(a: seq<octet>, b: seq<octet>, t: Type)
    requires Describes(a, t) && Describes(b, t)
    ensures a == b
  {
    hide HasPointer;
    hide PtrData;
    forall i | 0 <= i < |a| ensures a[i] == b[i] {
      forall j: nat | j < 8 ensures a[i][j] == b[i][j] {
        Split(i, j);
        assert Bit(a, 8 * i + j) == Bit(b, 8 * i + j);
      }
    }
  }

  /** data[n/8] |= 1 << (n%8) */
  function WithBit(data: seq<octet>, n: nat): (after: seq<octet>)
    requires n < 8 * |data|
    ensures |after| == |data|
  {
    data[n / 8 := data[n / 8][n % 8 := true]]
  }

  lemma SetBit(data: seq<octet>, n: nat)
    requires n < 8 * |data|
    ensures forall k: nat | k < 8 * |data| :: Bit(WithBit(data, n), k) <==> Bit(data, k) || k == n
  {
    forall k: nat | k < 8 * |data| ensures Bit(WithBit(data, n), k) <==> Bit(data, k) || k == n {
      assert k == 8 * (k / 8) + k % 8 && n == 8 * (n / 8) + n % 8;
    }
  }

  lemma ZeroByte(data: seq<octet>)
    ensures forall k: nat | k < 8 * |data| + 8 :: Bit(data + [NO_BITS], k) <==> k < 8 * |data| && Bit(data, k)
  {
  }

  /** What append makes of a bit vector of n bits. */
  function Appended(data: seq<octet>, n: nat, bit: bool): seq<octet>
    requires |data| == (n + 7) / 8
  {
    var more := if n % 8 == 0 then data + [NO_BITS] else data;
    if bit then WithBit(more, n) else more
  }

  lemma AppendedBits(data: seq<octet>, n: nat, bit: bool)
    requires |data| == (n + 7) / 8 && forall k: nat | n <= k < 8 * |data| :: !Bit(data, k)
    ensures var after := Appended(data, n, bit);
            && |after| == (n + 8) / 8
            && (forall k: nat | k < n :: Bit(after, k) == Bit(data, k))
            && Bit(after, n) == bit
            && (forall k: nat | n < k < 8 * |after| :: !Bit(after, k))
  {
    hide Bit;
    var more := if n % 8 == 0 then data + [NO_BITS] else data;
    if n % 8 == 0 { ZeroByte(data); }
    assert forall k: nat | k < n :: Bit(more, k) == Bit(data, k);
    assert forall k: nat | n <= k < 8 * |more| :: !Bit(more, k);
    var after := Appended(data, n, bit);
    if bit {
      SetBit(more, n);
      assert after == WithBit(more, n);
      assert forall k: nat | k < 8 * |after| :: Bit(after, k) <==> Bit(more, k) || k == n;
    } else {
      assert after == more;
      assert !Bit(more, n);
    }
  }

  /** bitVector */
  class BitVector {
    var n: nat
    var data: seq<octet>

    constructor ()
      ensures Valid() && n == 0
    {
      n, data := 0, [];
    }

    /** Whole bytes, the bits beyond the n-th still zero. */
    ghost predicate Valid()
      reads this
    {
      |data| == (n + 7) / 8 && forall k: nat | n <= k < 8 * |data| :: !Bit(data, k)
    }

    /** append */
    method Append(bit: bool)
      requires Valid()
      modifies this
      ensures Valid() && n == old(n) + 1 && Bit(data, old(n)) == bit
      ensures forall k: nat | k < old(n) :: Bit(data, k) == old(Bit(data, k))
    {
      hide Bit;
      AppendedBits(data, n, bit);
      if n % 8 == 0 {
        data := data + [NO_BITS];
      }
      if bit {
        data := WithBit(data, n);
      }
      n := n + 1;
    }

    ghost function Bits(): (s: seq<bool>)
      requires Valid()
      reads this
      ensures |s| == n && forall k: nat | k < n :: s[k] == Bit(data, k)
    {
      seq(n, k requires 0 <= k < n && Valid() reads this => Bit(data, k))
    }

    /** Zero bits up to the given word. */
    method PadTo(word: nat)
      requires Valid() && n <= word
      modifies this
      ensures Valid() && n == word && old(Bits()) <= Bits()
      ensures forall k | old(n) <= k < n :: !Bits()[k]
    {
      while n < word
        invariant Valid() && old(n) <= n <= word && old(Bits()) <= Bits()
        invariant forall k | old(n) <= k < n :: !Bits()[k]
      {
        Append(false);
      }
    }

    /** addTypeBits: the words of a value of type t at the given offset. */
    method AddTypeBits(offset: nat, t: Type)
      requires Valid() && WellFormed(t)
      requires PtrData(t) != 0 ==> offset % PTR == 0 && n <= offset / PTR
      modifies this
      ensures Valid() && old(Bits()) <= Bits()
      ensures n == if PtrData(t) == 0 then old(n) else offset / PTR + PtrData(t) / PTR
      ensures forall k | old(n) <= k < n :: Bits()[k] <==> HasPointer(t, k - offset / PTR)
      decreases t, 1
    {
      hide Bit;
      if PtrData(t) == 0 { return; }
      match t
      case Plain(_, _) =>
      case OnePointer(_) =>
        PadTo(offset / PTR);
        Append(true);
      case Interface =>
        PadTo(offset / PTR);
        Append(true);
        Append(true);
      case Array(_, _) => AddArray(offset, t);
      case Struct(_, _, _) => AddFields(offset, t);
    }

    method AddArray(offset: nat, t: Type)
      requires Valid() && WellFormed(t) && t.Array? && PtrData(t) != 0 && offset % PTR == 0 && n <= offset / PTR
      modifies this
      ensures Valid() && old(Bits()) <= Bits()
      ensures n == offset / PTR + PtrData(t) / PTR
      ensures forall k | old(n) <= k < n :: Bits()[k] <==> HasPointer(t, k - offset / PTR)
      decreases t, 0
    {
      hide Bit;
      hide HasPointer;
      hide PtrData;
      hide Size;
      hide WellFormed;
      ArrayHasPointers(t);
      assert WellFormed(t.elem) by { ElemWellFormed(t); }
      for i := 0 to t.len
        invariant Valid() && old(Bits()) <= Bits() && old(n) <= n
        invariant n == if i == 0 then old(n) else offset / PTR + PtrData(Array(i, t.elem)) / PTR
        invariant forall k | old(n) <= k < n :: Bits()[k] <==> HasPointer(Array(i, t.elem), k - offset / PTR)
      {
        ghost var at, was := offset / PTR, Bits();
        ArrayStep(t.elem, i, offset);
        AddTypeBits(offset + i * Size(t.elem), t.elem);
        forall k | old(n) <= k < n ensures Bits()[k] <==> HasPointer(Array(i + 1, t.elem), k - at) {
          ArrayBits(t.elem, i, k - at);
          if k < |was| { assert Bits()[k] == was[k]; }
        }
      }
      assert Array(t.len, t.elem) == t;
    }

    method AddFields(offset: nat, t: Type)
      requires Valid() && WellFormed(t) && t.Struct? && PtrData(t) != 0 && offset % PTR == 0 && n <= offset / PTR
      modifies this
      ensures Valid() && old(Bits()) <= Bits()
      ensures n == offset / PTR + PtrData(t) / PTR
      ensures forall k | old(n) <= k < n :: Bits()[k] <==> HasPointer(t, k - offset / PTR)
      decreases t, 0, 1
    {
      hide Bit;
      hide HasPointer;
      hide PtrData;
      hide FieldPointer;
      hide PtrDataUpTo;
      StructBits(t);
      hide WellFormed;
      hide Size;
      for i := 0 to |t.fields|
        invariant Valid() && old(Bits()) <= Bits() && old(n) <= n
        invariant n == if PtrDataUpTo(t, i) == 0 then old(n) else offset / PTR + PtrDataUpTo(t, i) / PTR
        invariant forall k | old(n) <= k < n :: Bits()[k] <==> PointerUpTo(t, i, k - offset / PTR)
      {
        AddField(offset, t, i, old(n));
      }
    }

    /** One field: the bits from `from` on are those of the fields so far. */
    method AddField(offset: nat, t: Type, i: nat, ghost from: nat)
      requires Valid() && WellFormed(t) && t.Struct? && i < |t.fields| && offset % PTR == 0 && from <= n
      requires if PtrDataUpTo(t, i) == 0 then n == from && n <= offset / PTR
               else n == offset / PTR + PtrDataUpTo(t, i) / PTR
      requires forall k | from <= k < n :: Bits()[k] <==> PointerUpTo(t, i, k - offset / PTR)
      modifies this
      ensures Valid() && old(Bits()) <= Bits()
      ensures if PtrDataUpTo(t, i + 1) == 0 then n == from else n == offset / PTR + PtrDataUpTo(t, i + 1) / PTR
      ensures forall k | from <= k < n :: Bits()[k] <==> PointerUpTo(t, i + 1, k - offset / PTR)
      decreases t, 0, 0
    {
      hide Bit;
      hide HasPointer;
      hide PtrData;
      hide FieldPointer;
      hide PtrDataUpTo;
      hide WellFormed;
      hide Size;
      hide PointerUpTo;
      var f := t.fields[i];
      ghost var at, was := offset / PTR, Bits();
      FieldParts(t, i);
      FieldStep(t, i, offset);
      AddTypeBits(offset + f.offset, f.typ);
      forall k | from <= k < n ensures Bits()[k] <==> PointerUpTo(t, i + 1, k - at) {
        FieldBits(t, i, k - at);
        if k < |was| { assert Bits()[k] == was[k]; }
      }
    }
  }

  // ---------- the bitmap of an array, from its element's ----------

  /** Some element has a pointer, at less than word j, that is word k of the array. */
  ghost predicate Emitted(typ: Type, n: nat, j: nat, k: int)
  {
    exists i: nat | i < n :: EmittedAt(typ, i, j, k)
  }

  ghost predicate EmittedAt(typ: Type, i: nat, j: nat, k: int)
  {
    HasPointer(typ, Earlier(k, i, Size(typ) / PTR)) && Earlier(k, i, Size(typ) / PTR) < j
  }

  /** Word j of one of the first n elements. */
  ghost predicate Copied(n: nat, w: nat, j: nat, k: int)
  {
    exists i: nat | i < n :: Earlier(k, i, w) == j
  }

  lemma EmittedStep(typ: Type, n: nat, j: nat, k: int)
    ensures Emitted(typ, n, j + 1, k) <==>
      Emitted(typ, n, j, k) || (HasPointer(typ, j) && Copied(n, Size(typ) / PTR, j, k))
  {
    hide HasPointer;
    var w := Size(typ) / PTR;
    if Emitted(typ, n, j + 1, k) {
      var i: nat :| i < n && EmittedAt(typ, i, j + 1, k);
      if Earlier(k, i, w) != j { assert EmittedAt(typ, i, j, k); }
    }
    if Emitted(typ, n, j, k) {
      var i: nat :| i < n && EmittedAt(typ, i, j, k);
      assert EmittedAt(typ, i, j + 1, k);
    }
    if HasPointer(typ, j) && Copied(n, w, j, k) {
      var i: nat :| i < n && Earlier(k, i, w) == j;
      assert EmittedAt(typ, i, j + 1, k);
    }
  }

  lemma EmittedAll(typ: Type, n: nat, k: int)
    requires WellFormed(typ)
    ensures !Emitted(typ, n, 0, k)
    ensures Emitted(typ, n, PtrData(typ) / PTR, k) <==> HasPointer(Array(n, typ), k)
  {
    hide PtrData;
    var w := Size(typ) / PTR;
    if HasPointer(Array(n, typ), k) {
      var i: nat :| i < n && HasPointer(typ, Earlier(k, i, w));
      PointersWithin(typ, Earlier(k, i, w));
      assert EmittedAt(typ, i, PtrData(typ) / PTR, k);
    }
    if Emitted(typ, n, PtrData(typ) / PTR, k) {
      var i: nat :| i < n && EmittedAt(typ, i, PtrData(typ) / PTR, k);
    }
    if Emitted(typ, n, 0, k) {
      var i: nat :| i < n && EmittedAt(typ, i, 0, k);
      PointersWithin(typ, Earlier(k, i, w));
    }
  }

  lemma CopiedStep(i: nat, w: nat, j: nat, k: int)
    ensures !Copied(0, w, j, k)
    ensures Copied(i + 1, w, j, k) <==> Copied(i, w, j, k) || k == i * w + j
  {
    assert Earlier(k, i, w) == k - i * w;
    if Copied(i + 1, w, j, k) {
      var x: nat :| x < i + 1 && Earlier(k, x, w) == j;
    }
  }

  /** The inner loop of emitGCMask: word j of every element. */
  method EmitWord(out: array<octet>, base: nat, words: nat, j: nat, n: nat)
    requires n > 0 ==> base + (n - 1) * words + j < 8 * out.Length
    modifies out
    ensures forall k: nat | k < 8 * out.Length :: Bit(out[..], k) <==>
      old(Bit(out[..], k)) || Copied(n, words, j, k - base)
  {
    hide Bit;
    hide Copied;
    forall k: int ensures !Copied(0, words, j, k) { CopiedStep(0, words, j, k); }
    for i := 0 to n
      invariant forall k: nat | k < 8 * out.Length :: Bit(out[..], k) <==>
        old(Bit(out[..], k)) || Copied(i, words, j, k - base)
    {
      Ordered(i, n - 1, words);
      var k := base + i * words + j;
      ghost var was := out[..];
      SetBit(was, k);
      out[k / 8] := out[k / 8][k % 8 := true];
      assert out[..] == WithBit(was, k);
      forall x: nat | x < 8 * out.Length
        ensures Bit(out[..], x) <==> old(Bit(out[..], x)) || Copied(i + 1, words, j, x - base)
      {
        CopiedStep(i, words, j, x - base);
        assert Bit(out[..], x) <==> Bit(was, x) || x == k;
      }
    }
  }

  /** emitGCMask: writes the bitmap of an array of n elements, whose bitmap is `mask`, from
      bit `base` on. */
  method EmitGCMask(out: array<octet>, base: nat, typ: Type, mask: seq<octet>, n: nat)
    requires WellFormed(typ) && Describes(mask, typ)
    requires base + PtrData(Array(n, typ)) / PTR <= 8 * out.Length
    modifies out
    ensures forall k: nat | k < 8 * out.Length ::
              Bit(out[..], k) <==> old(Bit(out[..], k)) || HasPointer(Array(n, typ), k - base)
  {
    hide Bit;
    hide HasPointer;
    hide Emitted;
    hide PtrData;
    var ptrs := PtrData(typ) / PTR;
    var words := Size(typ) / PTR;
    forall k: int
      ensures !Emitted(typ, n, 0, k) && (Emitted(typ, n, ptrs, k) <==> HasPointer(Array(n, typ), k))
    {
      EmittedAll(typ, n, k);
    }
    if n > 0 && ptrs > 0 { ArrayWords(Array(n, typ), 0); }
    for j := 0 to ptrs
      invariant forall k: nat | k < 8 * out.Length :: Bit(out[..], k) <==>
        old(Bit(out[..], k)) || Emitted(typ, n, j, k - base)
    {
      if Bit(mask, j) { EmitWord(out, base, words, j, n); }
      forall k: nat | k < 8 * out.Length
        ensures Bit(out[..], k) <==> old(Bit(out[..], k)) || Emitted(typ, n, j + 1, k - base)
      {
        EmittedStep(typ, n, j, k - base);
      }
    }
  }

  /** Arrays without pointers, of one element, and small ones get a bitmap; others, a program. */
  predicate GetsMask(count: nat, typ: Type)
  {
    PtrData(typ) == 0 || Size(typ) * count == 0 || count == 1 || Size(typ) * count <= MAX_MASK * 8 * PTR
  }

  /** The first branches of ArrayOf: the bitmap of an array of `count` elements. */
  method ArrayMask(count: nat, typ: Type, gcdata: seq<octet>) returns (data: seq<octet>)
    requires WellFormed(typ) && Describes(gcdata, typ) && GetsMask(count, typ)
    ensures Describes(data, Array(count, typ))
  {
    hide Bit;
    hide PtrData;
    hide HasPointer;
    var t := Array(count, typ);
    assert WellFormed(t);
    forall k: nat | PtrData(t) == 0 ensures !HasPointer(t, k) { NoPointersAtAll(t, k); }
    SmallArrays(t);
    if PtrData(typ) == 0 || Size(t) == 0 {
      return [];
    } else if count == 1 {
      forall k: nat ensures HasPointer(t, k) <==> HasPointer(typ, k) { ArrayBits(typ, 0, k); }
      return gcdata;
    }
    var mask := new octet[(PtrData(t) / PTR + 7) / 8](_ => NO_BITS);
    forall k: nat | k < 8 * mask.Length ensures !Bit(mask[..], k) { ZeroBit(mask[..], k); }
    EmitGCMask(mask, 0, typ, gcdata, count);
    data := mask[..];
  }

  lemma NoPointersAtAll(t: Type, k: int)
    requires WellFormed(t) && PtrData(t) == 0
    ensures !HasPointer(t, k)
  {
    if HasPointer(t, k) { PointersWithin(t, k); }
  }

  lemma ZeroBit(data: seq<octet>, k: nat)
    requires k < 8 * |data| && data[k / 8] == NO_BITS
    ensures !Bit(data, k)
  {
  }

  lemma SmallArrays(t: Type)
    requires WellFormed(t) && t.Array?
    ensures PtrData(t.elem) == 0 || Size(t) == 0 ==> PtrData(t) == 0
    ensures t.len == 1 ==> PtrData(t) == PtrData(t.elem)
  {
    WholeWords(t);
    WholeWords(t.elem);
    if t.len == 1 { assert Size(t.elem) * (t.len - 1) == 0; }
  }

  /** The bitmap by recursion, as StructOf makes it. */
  method TypeMask(t: Type) returns (data: seq<octet>)
    requires WellFormed(t)
    ensures Describes(data, t)
  {
    hide Bit;
    hide HasPointer;
    hide PtrData;
    var bv := new BitVector();
    bv.AddTypeBits(0, t);
    data := bv.data;
    forall k: nat | k < 8 * |data| ensures Bit(data, k) <==> HasPointer(t, k) {
      if k < bv.n {
        assert bv.Bits()[k] == Bit(data, k);
      } else if HasPointer(t, k) {
        PointersWithin(t, k);
      }
    }
  }

  /** Both ways of making the bitmap of an array make the same bytes. */
  method BothMasks(count: nat, typ: Type) returns (byRecursion: seq<octet>, byCopying: seq<octet>)
    requires WellFormed(typ) && GetsMask(count, typ)
    ensures byRecursion == byCopying
    ensures Describes(byRecursion, Array(count, typ))
  {
    byRecursion := TypeMask(Array(count, typ));
    var gcdata := TypeMask(typ);
    byCopying := ArrayMask(count, typ, gcdata);
    OneBitmap(byRecursion, byCopying, Array(count, typ));
  }

  // ---------- what the words of the basic types are ----------

  /** An interface is two pointers; a string a pointer and a length, a slice a pointer and two;
      channels, functions, maps and pointers are one pointer. */
  lemma WordsOfTypes(k: int)
    ensures HasPointer(Interface, k) <==> HasPointer(Array(2, OnePointer(1)), k)
    ensures var num := Plain(PTR, PTR);
            && (HasPointer(OnePointer(2), k) <==>
                HasPointer(Struct([Field(0, OnePointer(1)), Field(PTR, num)], 2 * PTR, PTR), k))
            && (HasPointer(OnePointer(3), k) <==>
                HasPointer(Struct([Field(0, OnePointer(1)), Field(PTR, num), Field(2 * PTR, num)], 3 * PTR, PTR), k))
    ensures HasPointer(OnePointer(1), k) <==> k == 0
  {
    hide HasPointer;
    var num := Plain(PTR, PTR);
    OneWord(1, k);
    OneWord(2, k);
    OneWord(3, k);
    TwoWords(k);
    PointerFirst([Field(0, OnePointer(1)), Field(PTR, num)], 2 * PTR, k);
    PointerFirst([Field(0, OnePointer(1)), Field(PTR, num), Field(2 * PTR, num)], 3 * PTR, k);
  }

  lemma OneWord(words: nat, k: int)
    ensures HasPointer(OnePointer(words), k) <==> k == 0
    ensures HasPointer(Interface, k) <==> k == 0 || k == 1
  {
  }

  lemma TwoWords(k: int)
    ensures HasPointer(Interface, k) <==> HasPointer(Array(2, OnePointer(1)), k)
  {
    hide HasPointer;
    var elem := OnePointer(1);
    ArrayMembers(elem, 1, k);
    ArrayMembers(elem, 0, k);
    NoElements(elem, k);
    OneWord(1, k);
    OneWord(1, k - 1);
  }

  lemma PointerFirst(fields: seq<Field>, size: nat, k: int)
    requires fields != [] && fields[0] == Field(0, OnePointer(1)) && forall i | 0 < i < |fields| :: fields[i].typ.Plain?
    ensures HasPointer(Struct(fields, size, PTR), k) <==> k == 0
  {
    var s := Struct(fields, size, PTR);
    assert FieldPointer(s.fields[0], k) <==> k == 0;
    assert forall i | 0 < i < |fields| :: !FieldPointer(s.fields[i], k);
  }

  /** An array has the pointers of a struct with its elements as fields, one after the other. */
  lemma ArrayAsStruct(n: nat, elem: Type, fields: seq<Field>, k: int)
    requires WellFormed(elem) && PtrData(elem) != 0
    requires |fields| == n && forall i: nat | i < n :: fields[i] == Field(i * Size(elem), elem)
    ensures HasPointer(Array(n, elem), k) <==> HasPointer(Struct(fields, n * Size(elem), Align(elem)), k)
  {
    WholeWords(elem);
    var w := Size(elem) / PTR;
    var s := Struct(fields, n * Size(elem), Align(elem));
    forall i: nat | i < n ensures FieldPointer(s.fields[i], k) <==> HasPointer(elem, Earlier(k, i, w)) {
      Offsets(Size(elem), w, i, 0);
    }
    StructBits(s);
    hide Size;
    hide WellFormed;
    if HasPointer(Array(n, elem), k) {
      var i: nat :| i < n && HasPointer(elem, Earlier(k, i, w));
      assert FieldPointer(s.fields[i], k);
    }
    if HasPointer(s, k) {
      var i :| 0 <= i < n && FieldPointer(s.fields[i], k);
    }
  }
}

/** reflect/type.go: StructOf lays a struct out as the compiler would. */
module StructLayout {
  import opened Basics
  import opened TypeBits

  /** align: rounds up to a multiple of n.  In machine words, n - 1 is all ones for n == 0, so
      that clearing its bits leaves 0. */
  function RoundUp(x: nat, n: nat): nat
    requires n == 0 || PowerOfTwo(n)
  {
    if n == 0 then 0
    else if n == 1 then x
    else if n == 2 then (x + 1) / 2 * 2
    else if n == 4 then (x + 3) / 4 * 4
    else (x + 7) / 8 * 8
  }

  predicate AllWellFormed(types: seq<Type>)
  {
    forall i | 0 <= i < |types| :: WellFormed(types[i])
  }

  function AlignOf(t: Type): (a: nat)
    requires WellFormed(t)
    ensures PowerOfTwo(a) && a == Align(t)
  {
    WholeWords(t);
    Align(t)
  }

  /** Where field i ends that begins at the least aligned offset after the one before. */
  function End(types: seq<Type>, n: nat): nat
    requires n <= |types| && AllWellFormed(types)
  {
    if n == 0 then 0 else RoundUp(End(types, n - 1), AlignOf(types[n - 1])) + Size(types[n - 1])
  }

  function FieldsOf(types: seq<Type>, n: nat): (fs: seq<Field>)
    requires n <= |types| && AllWellFormed(types)
    ensures |fs| == n
    ensures forall i | 0 <= i < n :: fs[i].typ == types[i] && fs[i].offset == RoundUp(End(types, i), AlignOf(types[i]))
  {
    seq(n, i requires 0 <= i < n => Field(RoundUp(End(types, i), AlignOf(types[i])), types[i]))
  }

  function MaxAlign(types: seq<Type>, n: nat): (a: nat)
    requires n <= |types| && AllWellFormed(types)
    ensures (a == 0 || PowerOfTwo(a)) && forall i | 0 <= i < n :: AlignOf(types[i]) <= a
  {
    if n == 0 then 0
    else if AlignOf(types[n - 1]) > MaxAlign(types, n - 1) then AlignOf(types[n - 1]) else MaxAlign(types, n - 1)
  }

  /** Where the last field without size ends. */
  function LastZero(types: seq<Type>, n: nat): nat
    requires n <= |types| && AllWellFormed(types)
  {
    if n == 0 then 0
    else if Size(types[n - 1]) == 0 then End(types, n) else LastZero(types, n - 1)
  }

  function Laid(types: seq<Type>): Type
    requires AllWellFormed(types)
  {
    var n := |types|;
    var size := if End(types, n) > 0 && LastZero(types, n) == End(types, n) then End(types, n) + 1 else End(types, n);
    Struct(FieldsOf(types, n), RoundUp(size, MaxAlign(types, n)), MaxAlign(types, n))
  }

  lemma FieldsNone(types: seq<Type>)
    requires AllWellFormed(types)
    ensures FieldsOf(types, 0) == []
  {
  }

  lemma FieldsMore(types: seq<Type>, n: nat)
    requires n < |types| && AllWellFormed(types)
    ensures FieldsOf(types, n + 1) == FieldsOf(types, n) + [Field(RoundUp(End(types, n), AlignOf(types[n])), types[n])]
  {
    hide RoundUp;
    hide End;
  }

  lemma Up2(x: nat)
    ensures x <= (x + 1) / 2 * 2 < x + 2 && (x + 1) / 2 * 2 % 2 == 0
  {
  }

  lemma Up4(x: nat)
    ensures x <= (x + 3) / 4 * 4 < x + 4 && (x + 3) / 4 * 4 % 4 == 0
  {
  }

  lemma Up8(x: nat)
    ensures x <= (x + 7) / 8 * 8 < x + 8 && (x + 7) / 8 * 8 % 8 == 0
  {
  }

  lemma RoundUpFacts(x: nat, n: nat)
    requires n == 0 || PowerOfTwo(n)
    ensures n > 0 ==> x <= RoundUp(x, n) < x + n && RoundUp(x, n) % n == 0
    ensures n == 0 || x == 0 ==> RoundUp(x, n) == 0
  {
    if n == 2 {
      Up2(x);
    } else if n == 4 {
      Up4(x);
    } else if n == 8 {
      Up8(x);
    } else {
      assert x % 1 == 0;
    }
  }

  lemma {:induction false} EndsGrow(types: seq<Type>, m: nat, n: nat)
    requires AllWellFormed(types) && m <= n <= |types|
    ensures End(types, m) <= End(types, n)
    decreases n
  {
    hide RoundUp;
    if m < n {
      EndsGrow(types, m, n - 1);
      RoundUpFacts(End(types, n - 1), AlignOf(types[n - 1]));
    }
  }

  /** Only without fields does the loop leave the alignment at 0. */
  lemma NoFieldsNoAlign(types: seq<Type>)
    requires AllWellFormed(types)
    ensures Laid(types).align == 0 <==> types == []
    ensures types != [] ==> PowerOfTwo(Laid(types).align)
  {
    var n := |types|;
    if n > 0 { assert AlignOf(types[n - 1]) <= MaxAlign(types, n); }
  }

  /** With fields, they come out in order and apart, and the size is a multiple of the
      alignment. */
  lemma LaidInOrder(types: seq<Type>)
    requires AllWellFormed(types) && types != []
    ensures WellFormed(Laid(types))
  {
    hide RoundUp;
    hide Size;
    hide MaxAlign;
    hide LastZero;
    hide AllWellFormed;
    hide End;
    var n, t := |types|, Laid(types);
    LaidSize(types);
    forall i | 0 <= i < n
      ensures WellFormed(t.fields[i].typ) && Placed(t.fields[i], t.align)
      ensures t.fields[i].offset + Size(t.fields[i].typ) == End(types, i + 1) <= t.size
    {
      LaidField(types, i);
      EndsGrow(types, i + 1, n);
    }
    forall i, j | 0 <= i < j < n ensures t.fields[i].offset + Size(t.fields[i].typ) <= t.fields[j].offset {
      LaidField(types, i);
      LaidField(types, j);
      EndsGrow(types, i + 1, j);
    }
  }

  lemma LaidField(types: seq<Type>, i: nat)
    requires AllWellFormed(types) && i < |types|
    ensures var f := FieldsOf(types, |types|)[i];
            && WellFormed(f.typ) && Placed(f, MaxAlign(types, |types|)) && f.offset >= End(types, i)
            && f.offset + Size(f.typ) == End(types, i + 1)
  {
    hide RoundUp;
    hide Size;
    hide MaxAlign;
    RoundUpFacts(End(types, i), AlignOf(types[i]));
  }

  lemma LaidSize(types: seq<Type>)
    requires AllWellFormed(types) && types != []
    ensures var t := Laid(types);
            End(types, |types|) <= t.size && PowerOfTwo(t.align) && t.size % t.align == 0
  {
    hide RoundUp;
    hide Size;
    hide MaxAlign;
    hide LastZero;
    hide End;
    hide AllWellFormed;
    var n := |types|;
    NoFieldsNoAlign(types);
    RoundUpFacts(End(types, n), MaxAlign(types, n));
    RoundUpFacts(End(types, n) + 1, MaxAlign(types, n));
  }

  lemma {:induction false} LastZeroSeen(types: seq<Type>, n: nat, i: nat)
    requires AllWellFormed(types) && i < n <= |types| && Size(types[i]) == 0
    ensures End(types, i + 1) == End(types, n) ==> LastZero(types, n) == End(types, n)
  {
    hide RoundUp;
    hide Size;
    hide AllWellFormed;
    if i < n - 1 {
      LastZeroSeen(types, n - 1, i);
      EndsGrow(types, i + 1, n - 1);
      EndsGrow(types, n - 1, n);
    }
  }

  /** No field without size is left at the very end of a struct that has a size. */
  lemma NothingAtTheEnd(types: seq<Type>, i: nat)
    requires AllWellFormed(types) && i < |types|
    requires Size(types[i]) == 0 && Laid(types).size > 0
    ensures Laid(types).fields[i].offset < Laid(types).size
  {
    hide RoundUp;
    hide Size;
    hide MaxAlign;
    hide AllWellFormed;
    hide LastZero;
    hide End;
    var n := |types|;
    LastZeroSeen(types, n, i);
    LaidField(types, i);
    EndsGrow(types, i + 1, n);
    RoundUpFacts(End(types, n), MaxAlign(types, n));
    RoundUpFacts(End(types, n) + 1, MaxAlign(types, n));
  }

  /** The offset loop of StructOf and the rounding after it. */
  method LayOut(types: seq<Type>) returns (t: Type)
    requires AllWellFormed(types)
    ensures t == Laid(types)
  {
    hide Size;
    hide RoundUp;
    hide WellFormed;
    hide PowerOfTwo;
    hide FieldsOf;
    FieldsNone(types);
    var size: nat, typalign: nat, lastzero: nat := 0, 0, 0;
    var fs: seq<Field> := [];
    for i := 0 to |types|
      invariant size == End(types, i) && typalign == MaxAlign(types, i) && lastzero == LastZero(types, i)
      invariant fs == FieldsOf(types, i)
    {
      var ft := types[i];
      var offset := RoundUp(size, AlignOf(ft));
      if AlignOf(ft) > typalign { typalign := AlignOf(ft); }
      size := offset + Size(ft);
      if Size(ft) == 0 { lastzero := size; }
      FieldsMore(types, i);
      fs := fs + [Field(offset, ft)];
    }
    if size > 0 && lastzero == size { size := size + 1; }
    size := RoundUp(size, typalign);
    t := Struct(fs, size, typalign);
  }

  // ---------- the type returned ----------

  /** The compiler's descriptor of struct{}: alignment 1. */
  const EMPTY := Struct([], 0, 1)

  /** The type of a struct with these fields, in the whole program. */
  function StructType(types: seq<Type>): Type
    requires AllWellFormed(types)
  {
    if types == [] then EMPTY else Laid(types)
  }

  function TypesOf(fields: seq<Field>): (types: seq<Type>)
    ensures |types| == |fields| && forall i | 0 <= i < |fields| :: types[i] == fields[i].typ
  {
    seq(|fields|, i requires 0 <= i < |fields| => fields[i].typ)
  }

  /** A struct type made by the compiler, or by StructOf before. */
  predicate AsCompiled(t: Type)
  {
    t.Struct? && AllWellFormed(TypesOf(t.fields)) && t == StructType(TypesOf(t.fields))
  }

  /** Whatever fields StructOf is given, the type has them in order and apart, and its
      alignment is a power of two, never 0. */
  lemma StructTypeWellFormed(types: seq<Type>)
    requires AllWellFormed(types)
    ensures WellFormed(StructType(types)) && PowerOfTwo(Align(StructType(types)))
  {
    hide Laid;
    if types != [] { LaidInOrder(types); }
    WholeWords(StructType(types));
  }

  /** haveIdenticalUnderlyingType, for structs: the same fields at the same offsets. */
  predicate Identical(a: Type, b: Type)
  {
    a.Struct? && b.Struct? && a.fields == b.fields
  }

  lemma SameTypes(types: seq<Type>)
    requires AllWellFormed(types)
    ensures TypesOf(Laid(types).fields) == types
  {
    hide RoundUp;
    hide End;
  }

  /** StructOf: if the cache or the program has the type already, `found` among those of the
      same name, that is returned; otherwise the type just laid out.  An empty struct is
      always found, because StructOf itself links struct{} into the program. */
  method StructOf(types: seq<Type>, found: seq<Type>) returns (t: Type)
    requires AllWellFormed(types)
    requires forall k | 0 <= k < |found| && found[k].Struct? :: AsCompiled(found[k])
    requires types == [] ==> EMPTY in found
    ensures t == StructType(types) && WellFormed(t) && PowerOfTwo(Align(t))
  {
    hide Laid;
    hide WellFormed;
    StructTypeWellFormed(types);
    var typ := LayOut(types);
    SameTypes(types);
    for k := 0 to |found|
      invariant forall j | 0 <= j < k :: !Identical(typ, found[j])
    {
      if Identical(typ, found[k]) { return found[k]; }
    }
    if types == [] { EmptyFound(types, found); }
    return typ;
  }

  /** struct{} is identical to what the loop makes of no fields. */
  lemma EmptyFound(types: seq<Type>, found: seq<Type>)
    requires types == [] && EMPTY in found
    ensures exists k | 0 <= k < |found| :: Identical(Laid(types), found[k])
  {
    var k :| 0 <= k < |found| && found[k] == EMPTY;
    assert Identical(Laid(types), found[k]);
  }

  // ---------- nothing is larger than it must be ----------

  lemma {:induction false} LastZeroMeans(types: seq<Type>, n: nat)
    requires AllWellFormed(types) && n <= |types| && End(types, n) > 0
    ensures LastZero(types, n) == End(types, n) <==>
              exists i | 0 <= i < n :: Size(types[i]) == 0 && End(types, i + 1) == End(types, n)
  {
    forall i | 0 <= i < n && Size(types[i]) == 0 && End(types, i + 1) == End(types, n)
      ensures LastZero(types, n) == End(types, n)
    {
      LastZeroSeen(types, n, i);
    }
    if LastZero(types, n) == End(types, n) {
      var i := ZeroFound(types, n);
    }
  }

  lemma {:induction false} ZeroFound(types: seq<Type>, n: nat) returns (i: nat)
    requires AllWellFormed(types) && n <= |types| && LastZero(types, n) > 0
    ensures i < n && Size(types[i]) == 0 && End(types, i + 1) == LastZero(types, n)
  {
    hide End;
    if Size(types[n - 1]) == 0 { i := n - 1; } else { i := ZeroFound(types, n - 1); }
  }

  lemma {:induction false} MaxReached(types: seq<Type>, n: nat) returns (i: nat)
    requires AllWellFormed(types) && 0 < n <= |types|
    ensures i < n && AlignOf(types[i]) == MaxAlign(types, n)
  {
    if n == 1 || AlignOf(types[n - 1]) > MaxAlign(types, n - 1) { i := n - 1; } else { i := MaxReached(types, n - 1); }
  }

  /** Each field begins less than its alignment beyond the end of the one before, the first at
      0; the struct has the alignment of one of its fields; and its size is less than that
      beyond the end of its last field, counting one byte more if some field without size
      ends there. */
  lemma LaidTight(types: seq<Type>)
    requires AllWellFormed(types) && types != []
    ensures var t, n := Laid(types), |types|;
            var e := t.fields[n - 1].offset + Size(types[n - 1]);
            var last := exists i | 0 <= i < n :: Size(types[i]) == 0 && t.fields[i].offset == e;
            var extra := if e > 0 && last then 1 else 0;
            && t.fields[0].offset == 0
            && (forall i | 0 < i < n ::
                  t.fields[i].offset < t.fields[i - 1].offset + Size(types[i - 1]) + Align(types[i]))
            && (exists i | 0 <= i < n :: Align(types[i]) == t.align)
            && e + extra <= t.size < e + extra + t.align
  {
    hide RoundUp;
    hide MaxAlign;
    hide LastZero;
    hide End;
    hide Size;
    hide AllWellFormed;
    var t, n := Laid(types), |types|;
    forall i: nat | i < n
      ensures t.fields[i].offset + Size(types[i]) == End(types, i + 1)
      ensures End(types, i) <= t.fields[i].offset < End(types, i) + Align(types[i])
    {
      FieldPlace(types, i);
    }
    FirstAtZero(types);
    var i := MaxReached(types, n);
    SizeTight(types);
  }

  lemma FieldPlace(types: seq<Type>, i: nat)
    requires AllWellFormed(types) && i < |types|
    ensures var f := Laid(types).fields[i];
            && f.offset + Size(types[i]) == End(types, i + 1)
            && End(types, i) <= f.offset < End(types, i) + Align(types[i])
  {
    hide RoundUp;
    hide Size;
    hide MaxAlign;
    hide LastZero;
    RoundUpFacts(End(types, i), AlignOf(types[i]));
  }

  lemma FirstAtZero(types: seq<Type>)
    requires AllWellFormed(types) && types != []
    ensures Laid(types).fields[0].offset == 0
  {
    RoundUpFacts(0, AlignOf(types[0]));
    hide RoundUp;
  }

  /** The size, in terms of where the last field ends. */
  lemma SizeTight(types: seq<Type>)
    requires AllWellFormed(types) && types != []
    ensures var t, n := Laid(types), |types|;
            var e := End(types, n);
            var last := exists i | 0 <= i < n :: Size(types[i]) == 0 && t.fields[i].offset == e;
            var extra := if e > 0 && last then 1 else 0;
            e + extra <= t.size < e + extra + t.align
  {
    hide RoundUp;
    hide MaxAlign;
    hide LastZero;
    hide End;
    hide Size;
    hide AllWellFormed;
    var t, n := Laid(types), |types|;
    var e := End(types, n);
    NoFieldsNoAlign(types);
    RoundUpFacts(e, t.align);
    RoundUpFacts(e + 1, t.align);
    if e > 0 { LastZeroMeans(types, n); }
    forall i: nat | i < n && Size(types[i]) == 0 ensures t.fields[i].offset == End(types, i + 1) {
      FieldPlace(types, i);
    }
  }
}

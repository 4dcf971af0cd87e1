/** reflect/deepequal.go: deep equality over a finite heap that may be cyclic.

    A `Value` is what `reflect.Value` shows of a typed location: arrays and structs are
    inline trees, everything behind a pointer, slice, map or interface is looked up in the
    `Heap`.  Deep equality is specified by its coinductive meaning, the greatest
    bisimulation (`Bisimilar`); the method is the memoising recursion of the source. */
module DeepEqual {
  import opened Basics

  type Addr = nat      // 0 is the nil address
  type TypeId = nat

  datatype Kind =
    | BasicKind | FuncKind | ArrayKind(n: nat) | StructKind(n: nat)
    | SliceKind | InterfaceKind | PtrKind | MapKind

  /** A map key; `nan` keys are unequal to every key, themselves included. */
  datatype Key = Key(bits: int, nan: bool)

  /** `at` is the address of the slice or interface header itself (Value.ptr in the
      source).  It is None for a header inside the copy that MapIndex makes of a map
      value: that copy is freshly allocated, so its address was never seen before. */
  datatype Value =
    | Invalid
    | Basic(typ: TypeId, bits: int, nan: bool)
    | Func(typ: TypeId, code: Addr)
    | Array(typ: TypeId, elems: seq<Value>)
    | Struct(typ: TypeId, elems: seq<Value>)
    | Slice(typ: TypeId, at: Option<Addr>, data: Addr, len: nat)
    | Interface(typ: TypeId, at: Option<Addr>, box: Addr)
    | Ptr(typ: TypeId, target: Addr)
    | Map(typ: TypeId, hdr: Addr)

  datatype Heap = Heap(
    kinds: map<TypeId, Kind>,
    headers: map<(TypeId, Addr), Value>,            // the slice or interface stored at an address
    backing: map<(TypeId, Addr), seq<Value>>,       // elements behind a slice's data pointer
    boxes: map<Addr, Value>,                        // dynamic values held by interfaces
    pointees: map<(TypeId, Addr), Value>,
    maps: map<(TypeId, Addr), seq<(Key, Value)>>)

  // ---------- well-formed heaps ----------

  ghost predicate WF(h: Heap, v: Value)
  {
    !v.Invalid? && v.typ in h.kinds &&
    match v
    case Basic(t, _, _) => h.kinds[t] == BasicKind
    case Func(t, _) => h.kinds[t] == FuncKind
    case Array(t, es) => h.kinds[t] == ArrayKind(|es|) && forall i | 0 <= i < |es| :: WF(h, es[i])
    case Struct(t, es) => h.kinds[t] == StructKind(|es|) && forall i | 0 <= i < |es| :: WF(h, es[i])
    case Slice(t, at, data, len) =>
      h.kinds[t] == SliceKind && HeaderAt(h, v, at) &&
      (if data == 0 then len == 0 else (t, data) in h.backing && len <= |h.backing[(t, data)]|)
    case Interface(t, at, box) =>
      h.kinds[t] == InterfaceKind && HeaderAt(h, v, at) && (box != 0 ==> box in h.boxes)
    case Ptr(t, a) => h.kinds[t] == PtrKind && (a != 0 ==> (t, a) in h.pointees)
    case Map(t, a) => h.kinds[t] == MapKind && (a != 0 ==> (t, a) in h.maps)
  }

  ghost predicate HeaderAt(h: Heap, v: Value, at: Option<Addr>)
    requires !v.Invalid?
  {
    at.Some? ==> (v.typ, at.value) in h.headers && h.headers[(v.typ, at.value)] == v
  }

  /** No header in the tree belongs to a fresh copy. */
  ghost predicate Stable(v: Value)
  {
    match v
    case Array(_, es) => forall i | 0 <= i < |es| :: Stable(es[i])
    case Struct(_, es) => forall i | 0 <= i < |es| :: Stable(es[i])
    case Slice(_, at, _, _) => at.Some?
    case Interface(_, at, _) => at.Some?
    case _ => true
  }

  ghost predicate Stored(h: Heap, v: Value) { WF(h, v) && Stable(v) }

  ghost predicate DistinctKeys(es: seq<(Key, Value)>)
  {
    forall i, j | 0 <= i < j < |es| :: es[i].0 == es[j].0 ==> es[i].0.nan
  }

  ghost predicate WFHeap(h: Heap)
  {
    && (forall k | k in h.backing :: forall i | 0 <= i < |h.backing[k]| :: Stored(h, h.backing[k][i]))
    && (forall k | k in h.boxes :: Stored(h, h.boxes[k]))
    && (forall k | k in h.pointees :: Stored(h, h.pointees[k]))
    && (forall k | k in h.maps :: DistinctKeys(h.maps[k]) &&
          forall i | 0 <= i < |h.maps[k]| :: Stored(h, h.maps[k][i].1))
  }

  ghost predicate Arg(h: Heap, v: Value) { v.Invalid? || WF(h, v) }

  // ---------- reading values, as the accessors of reflect.Value do ----------

  predicate IsNil(v: Value)
    requires v.Slice? || v.Interface? || v.Ptr? || v.Map? || v.Func?
  {
    match v
    case Slice(_, _, data, _) => data == 0
    case Interface(_, _, box) => box == 0
    case Ptr(_, a) => a == 0
    case Map(_, a) => a == 0
    case Func(_, code) => code == 0
  }

  function Index(h: Heap, v: Value, i: nat): (e: Value)
    requires WF(h, v) && v.Slice? && i < v.len
    ensures WFHeap(h) ==> Stored(h, e)
  {
    h.backing[(v.typ, v.data)][i]
  }

  function Elem(h: Heap, v: Value): (e: Value)
    requires WF(h, v) && (v.Ptr? || v.Interface?)
    ensures WFHeap(h) ==> e.Invalid? || Stored(h, e)
  {
    if IsNil(v) then Invalid
    else if v.Ptr? then h.pointees[(v.typ, v.target)] else h.boxes[v.box]
  }

  function Entries(h: Heap, v: Value): seq<(Key, Value)>
    requires WF(h, v) && v.Map?
  {
    if IsNil(v) then [] else h.maps[(v.typ, v.hdr)]
  }

  function Lookup(es: seq<(Key, Value)>, k: Key): (r: Option<Value>)
    ensures r.None? <==> k.nan || forall i | 0 <= i < |es| :: es[i].0 != k
    ensures r.Some? ==> exists i | 0 <= i < |es| :: es[i] == (k, r.value)
  {
    if k.nan || |es| == 0 then None
    else if es[0].0 == k then Some(es[0].1)
    else
      var r := Lookup(es[1..], k);
      assert forall i | 0 <= i < |es| - 1 :: es[1..][i] == es[i + 1];
      r
  }

  /** The copy MapIndex hands out: same contents, headers at an address of its own. */
  function Copy(v: Value): (c: Value)
    ensures forall h | WF(h, v) :: WF(h, c)
    ensures c.Invalid? == v.Invalid?
  {
    match v
    case Array(t, es) => Array(t, seq(|es|, i requires 0 <= i < |es| => Copy(es[i])))
    case Struct(t, es) => Struct(t, seq(|es|, i requires 0 <= i < |es| => Copy(es[i])))
    case Slice(t, _, data, len) => Slice(t, None, data, len)
    case Interface(t, _, box) => Interface(t, None, box)
    case _ => v
  }

  function MapIndex(h: Heap, v: Value, k: Key): (e: Value)
    requires WF(h, v) && v.Map?
    ensures WFHeap(h) ==> Arg(h, e)
  {
    var r := Lookup(Entries(h, v), k);
    if r.Some? then Copy(r.value) else Invalid
  }

  // ---------- what deep equality means ----------

  /** One layer of the documented rules: a and b agree here, and the pairs of parts
      the rules compare are related by R. */
  ghost predicate Layer(h: Heap, R: iset<(Value, Value)>, a: Value, b: Value)
    requires Arg(h, a) && Arg(h, b)
  {
    if a.Invalid? || b.Invalid? then a.Invalid? && b.Invalid? else
    a.typ == b.typ &&
    match a
    case Basic(_, bits, nan) => !nan && !b.nan && bits == b.bits
    case Func(_, code) => code == 0 && b.code == 0
    case Array(_, es) => forall i | 0 <= i < |es| :: (es[i], b.elems[i]) in R
    case Struct(_, es) => forall i | 0 <= i < |es| :: (es[i], b.elems[i]) in R
    case Slice(_, _, data, len) =>
      && IsNil(a) == IsNil(b)
      && len == b.len
      && (data == b.data || forall i | 0 <= i < len :: (Index(h, a, i), Index(h, b, i)) in R)
    case Interface(_, _, _) =>
      if IsNil(a) || IsNil(b) then IsNil(a) && IsNil(b) else (Elem(h, a), Elem(h, b)) in R
    case Ptr(_, target) => target == b.target || (Elem(h, a), Elem(h, b)) in R
    case Map(_, hdr) =>
      && IsNil(a) == IsNil(b)
      && |Entries(h, a)| == |Entries(h, b)|
      && (hdr == b.hdr ||
          forall i | 0 <= i < |Entries(h, a)| :: RelatedAt(h, R, a, b, Entries(h, a)[i].0))
  }

  ghost predicate RelatedAt(h: Heap, R: iset<(Value, Value)>, a: Value, b: Value, k: Key)
    requires WF(h, a) && WF(h, b) && a.Map? && b.Map?
  {
    var p := Images(h, a, b, k);
    !p.0.Invalid? && !p.1.Invalid? && p in R
  }

  /** What two maps hold under one key. */
  function Images(h: Heap, a: Value, b: Value, k: Key): (p: (Value, Value))
    requires WF(h, a) && WF(h, b) && a.Map? && b.Map?
    ensures WFHeap(h) ==> Arg(h, p.0) && Arg(h, p.1)
  {
    (MapIndex(h, a, k), MapIndex(h, b, k))
  }

  ghost predicate IsBisimulation(h: Heap, R: iset<(Value, Value)>)
  {
    forall p | p in R :: Arg(h, p.0) && Arg(h, p.1) && Layer(h, R, p.0, p.1)
  }

  /** Related by some bisimulation, that is, by the greatest one. */
  ghost predicate Bisimilar(h: Heap, a: Value, b: Value)
  {
    exists R :: IsBisimulation(h, R) && (a, b) in R
  }

  ghost function Largest(h: Heap): iset<(Value, Value)>
  {
    iset p: (Value, Value) | Bisimilar(h, p.0, p.1)
  }

  lemma LayerMonotone(h: Heap, R: iset<(Value, Value)>, S: iset<(Value, Value)>, a: Value, b: Value)
    requires Arg(h, a) && Arg(h, b) && R <= S
    requires Layer(h, R, a, b)
    ensures Layer(h, S, a, b)
  {
    if a.Map? && b.Map? && a.hdr != b.hdr {
      forall i | 0 <= i < |Entries(h, a)|
        ensures RelatedAt(h, S, a, b, Entries(h, a)[i].0)
      {
        assert RelatedAt(h, R, a, b, Entries(h, a)[i].0);
      }
    }
  }

  /** The greatest bisimulation is itself a bisimulation, so related values unfold. */
  lemma BisimilarUnfolds(h: Heap, a: Value, b: Value)
    requires Bisimilar(h, a, b)
    ensures Arg(h, a) && Arg(h, b) && Layer(h, Largest(h), a, b)
  {
    var R :| IsBisimulation(h, R) && (a, b) in R;
    assert Arg(h, (a, b).0) && Layer(h, R, (a, b).0, (a, b).1);
    forall p | p in R ensures p in Largest(h) { assert (p.0, p.1) in R; }
    LayerMonotone(h, R, Largest(h), a, b);
  }

  lemma BisimilarHeads(h: Heap, a: Value, b: Value)
    requires Bisimilar(h, a, b)
    ensures a.Invalid? == b.Invalid?
    ensures !a.Invalid? ==> a.typ == b.typ
  {
    BisimilarUnfolds(h, a, b);
  }

  // ---------- symmetry (two equally long maps with matched keys have the same keys) ----------

  ghost predicate Symmetric(R: iset<(Value, Value)>) { forall p | p in R :: (p.1, p.0) in R }

  ghost function KeySet(es: seq<(Key, Value)>): set<Key> { set i | 0 <= i < |es| :: es[i].0 }

  lemma {:induction false} KeySetSize(es: seq<(Key, Value)>)
    ensures |KeySet(es)| <= |es|
    ensures DistinctKeys(es) && (forall i | 0 <= i < |es| :: !es[i].0.nan) ==> |KeySet(es)| == |es|
  {
    if es != [] {
      var n := |es| - 1;
      KeySetSize(es[..n]);
      assert KeySet(es) == KeySet(es[..n]) + {es[n].0};
    }
  }

  lemma MatchedKeysCover(es: seq<(Key, Value)>, fs: seq<(Key, Value)>, j: nat)
    requires DistinctKeys(es) && DistinctKeys(fs) && |es| == |fs| && j < |fs|
    requires forall i | 0 <= i < |es| :: Lookup(es, es[i].0).Some? && Lookup(fs, es[i].0).Some?
    ensures !fs[j].0.nan && fs[j].0 in KeySet(es)
  {
    if fs[j].0.nan || fs[j].0 !in KeySet(es) {
      var rest := fs[..j] + fs[j + 1..];
      forall k | k in KeySet(es) ensures k in KeySet(rest) {
        var i :| 0 <= i < |es| && es[i].0 == k;
        var m :| 0 <= m < |fs| && fs[m].0 == k;
        assert m != j && fs[m] == rest[if m < j then m else m - 1];
      }
      KeySetSize(es);
      KeySetSize(rest);
      SubsetSize(KeySet(es), KeySet(rest));
      assert false;
    }
  }

  lemma SubsetSize<T>(a: set<T>, b: set<T>)
    requires a <= b
    ensures |a| <= |b|
  {
    assert b == a + (b - a);
  }

  lemma LayerSymmetric(h: Heap, R: iset<(Value, Value)>, a: Value, b: Value)
    requires WFHeap(h) && Arg(h, a) && Arg(h, b) && Symmetric(R)
    requires Layer(h, R, a, b)
    ensures Layer(h, R, b, a)
  {
    if a.Map? && b.Map? && a.hdr != b.hdr {
      var es, fs := Entries(h, a), Entries(h, b);
      forall i | 0 <= i < |es|
        ensures Lookup(es, es[i].0).Some? && Lookup(fs, es[i].0).Some?
      {
        assert RelatedAt(h, R, a, b, es[i].0);
      }
      forall j | 0 <= j < |fs|
        ensures RelatedAt(h, R, b, a, fs[j].0)
      {
        MatchedKeysCover(es, fs, j);
        var i :| 0 <= i < |es| && es[i].0 == fs[j].0;
        assert RelatedAt(h, R, a, b, es[i].0);
        var p := Images(h, a, b, es[i].0);
        assert p in R && (p.1, p.0) in R;
      }
    } else if !a.Invalid? && !b.Invalid? {
      match a
      case Array(_, es) =>
        forall i | 0 <= i < |es| ensures (b.elems[i], es[i]) in R { assert (es[i], b.elems[i]) in R; }
      case Struct(_, es) =>
        forall i | 0 <= i < |es| ensures (b.elems[i], es[i]) in R { assert (es[i], b.elems[i]) in R; }
      case Slice(_, _, data, len) =>
        if data != b.data {
          forall i | 0 <= i < len
            ensures (Index(h, b, i), Index(h, a, i)) in R
          {
            assert (Index(h, a, i), Index(h, b, i)) in R;
          }
        }
      case Interface(_, _, _) =>
        if !IsNil(a) && !IsNil(b) { assert ((Elem(h, a), Elem(h, b)).1, (Elem(h, a), Elem(h, b)).0) in R; }
      case Ptr(_, target) =>
        if target != b.target { assert ((Elem(h, a), Elem(h, b)).1, (Elem(h, a), Elem(h, b)).0) in R; }
      case _ =>
    }
  }

  // ---------- the memo of visited comparisons ----------

  datatype Visit = Visit(a1: Addr, a2: Addr, typ: TypeId)

  /** The address a visit is filed under: the referent of a pointer or map, the header of
      a slice or interface; None for a header no other value can share. */
  function VisitAddr(v: Value): Option<Addr>
    requires v.Slice? || v.Interface? || v.Ptr? || v.Map?
  {
    match v
    case Slice(_, at, _, _) => at
    case Interface(_, at, _) => at
    case Ptr(_, a) => Some(a)
    case Map(_, a) => Some(a)
  }

  predicate Hard(v1: Value, v2: Value)
    requires !v1.Invalid?
  {
    match v1
    case Slice(_, _, _, _) => v2.Slice? && !IsNil(v1) && !IsNil(v2)
    case Interface(_, _, _) => v2.Interface? && !IsNil(v1) && !IsNil(v2)
    case Ptr(_, _) => v2.Ptr? && !IsNil(v1) && !IsNil(v2)
    case Map(_, _) => v2.Map? && !IsNil(v1) && !IsNil(v2)
    case _ => false
  }

  /** Hard values of one type whose two addresses other values can share. */
  predicate Keyed(v1: Value, v2: Value)
  {
    && !v1.Invalid? && !v2.Invalid? && v1.typ == v2.typ && Hard(v1, v2)
    && VisitAddr(v1).Some? && VisitAddr(v2).Some?
  }

  /** The addresses in canonical (ascending) order. */
  function VisitKey(v1: Value, v2: Value): Visit
    requires Keyed(v1, v2)
  {
    var a1, a2 := VisitAddr(v1).value, VisitAddr(v2).value;
    if a1 > a2 then Visit(a2, a1, v1.typ) else Visit(a1, a2, v1.typ)
  }

  /** A key determines the unordered pair of values it stands for. */
  lemma KeyDeterminesPair(h: Heap, a: Value, b: Value, c: Value, d: Value)
    requires WF(h, a) && WF(h, b) && WF(h, c) && WF(h, d)
    requires Keyed(a, b) && Keyed(c, d) && VisitKey(a, b) == VisitKey(c, d)
    ensures (a == c && b == d) || (a == d && b == c)
  {
  }

  ghost function Addrs(h: Heap): set<Addr>
  {
    (set k | k in h.headers :: k.1) + (set k | k in h.pointees :: k.1) + (set k | k in h.maps :: k.1)
  }

  /** Every key a comparison over this heap can ever file. */
  ghost function AllVisits(h: Heap): set<Visit>
  {
    set a1, a2, t | a1 in Addrs(h) && a2 in Addrs(h) && t in h.kinds :: Visit(a1, a2, t)
  }

  lemma KeyInUniverse(h: Heap, a: Value, b: Value)
    requires WF(h, a) && WF(h, b) && Keyed(a, b)
    ensures VisitKey(a, b) in AllVisits(h)
  {
    forall v | (v == a || v == b) ensures VisitAddr(v).value in Addrs(h) {
      var k := (v.typ, VisitAddr(v).value);
      assert k in h.headers || k in h.pointees || k in h.maps;
      assert k.1 in Addrs(h);
    }
  }

  ghost function Rel(pairs: set<(Value, Value)>): iset<(Value, Value)> { iset p | p in pairs }

  /** The visited map of one DeepEqual call.  `pairs` is the relation the call has assumed
      or established so far, in both orders; every visited key stands for members of it. */
  class Visited {
    var seen: set<Visit>
    ghost var pairs: set<(Value, Value)>

    constructor ()
      ensures seen == {} && pairs == {}
    {
      seen := {};
      pairs := {};
    }

    ghost predicate Valid(h: Heap)
      reads this
    {
      && seen <= AllVisits(h)
      && (forall p | p in pairs :: Arg(h, p.0) && Arg(h, p.1) && (p.1, p.0) in pairs)
      && (forall a, b {:trigger VisitKey(a, b)} | WF(h, a) && WF(h, b) && Keyed(a, b) && VisitKey(a, b) in seen ::
          (a, b) in pairs)
    }

    /** In the middle of comparing v1 with v2: the pair is assumed, and every other pair
        added since `before` is one layer deep correct, given the pairs. */
    ghost predicate Comparing(h: Heap, v1: Value, v2: Value, before: set<(Value, Value)>)
      reads this
    {
      && Valid(h) && before <= pairs && (v1, v2) in pairs && (v2, v1) in pairs
      && Justifies(h, pairs, pairs - before - {(v1, v2), (v2, v1)})
    }

    ghost method EnterInvalid(h: Heap)
      requires Valid(h)
      modifies this`pairs
      ensures Valid(h) && Justifies(h, pairs, pairs - old(pairs))
      ensures pairs == old(pairs) + {(Invalid, Invalid)}
    {
      pairs := pairs + {(Invalid, Invalid)};
    }

    /** Opens the comparison of v1 with v2: it is filed under its key, if it has one, and
        counts as equal from now on. */
    method Enter(h: Heap, v1: Value, v2: Value)
      requires Valid(h) && WF(h, v1) && WF(h, v2)
      modifies this
      ensures Comparing(h, v1, v2, old(pairs))
      ensures seen == old(seen) + (if Keyed(v1, v2) then {VisitKey(v1, v2)} else {})
      ensures pairs == old(pairs) + {(v1, v2), (v2, v1)}
    {
      pairs := pairs + {(v1, v2), (v2, v1)};
      if Keyed(v1, v2) {
        KeyInUniverse(h, v1, v2);
        seen := seen + {VisitKey(v1, v2)};
        forall a, b {:trigger VisitKey(a, b)} | WF(h, a) && WF(h, b) && Keyed(a, b) && VisitKey(a, b) in seen
          ensures (a, b) in pairs
        {
          if VisitKey(a, b) == VisitKey(v1, v2) { KeyDeterminesPair(h, a, b, v1, v2); }
        }
      }
    }
  }

  ghost predicate Justifies(h: Heap, pairs: set<(Value, Value)>, owed: set<(Value, Value)>)
  {
    forall p | p in owed :: Arg(h, p.0) && Arg(h, p.1) && Layer(h, Rel(pairs), p.0, p.1)
  }

  /** Growing the relation keeps what it justified. */
  lemma JustifiesMonotone(h: Heap, pairs: set<(Value, Value)>, more: set<(Value, Value)>, owed: set<(Value, Value)>)
    requires Justifies(h, pairs, owed) && pairs <= more
    ensures Justifies(h, more, owed)
  {
    forall p | p in owed ensures Layer(h, Rel(more), p.0, p.1) {
      LayerMonotone(h, Rel(pairs), Rel(more), p.0, p.1);
    }
  }

  /** The pair under comparison joins the justified ones once its own layer holds. */
  lemma JustifiesPair(h: Heap, pairs: set<(Value, Value)>, before: set<(Value, Value)>, v1: Value, v2: Value)
    requires WFHeap(h) && Arg(h, v1) && Arg(h, v2)
    requires forall p | p in pairs :: (p.1, p.0) in pairs
    requires Justifies(h, pairs, pairs - before - {(v1, v2), (v2, v1)})
    requires Layer(h, Rel(pairs), v1, v2)
    ensures Justifies(h, pairs, pairs - before)
  {
    LayerSymmetric(h, Rel(pairs), v1, v2);
  }

  /** How far a comparison is from stored values: 2 inside a copy made by MapIndex, 1 on
      stored values, 0 once one side is the invalid value behind a nil pointer. */
  ghost function Rank(v1: Value, v2: Value): nat
  {
    if v1.Invalid? || v2.Invalid? then 0 else if Stable(v1) && Stable(v2) then 1 else 2
  }

  /** Visits not yet made: with Rank and the size of the tree, the termination measure. */
  ghost function Unvisited(h: Heap, seen: set<Visit>): nat { |AllVisits(h) - seen| }

  lemma UnvisitedShrinks(h: Heap, seen: set<Visit>, more: set<Visit>)
    requires seen <= more <= AllVisits(h)
    ensures Unvisited(h, more) <= Unvisited(h, seen)
    ensures seen != more ==> Unvisited(h, more) < Unvisited(h, seen)
  {
    var u, w := AllVisits(h) - seen, AllVisits(h) - more;
    SubsetSize(w, u);
    if seen != more {
      var k :| k in more && k !in seen;
      assert w <= u - {k};
      SubsetSize(w, u - {k});
    }
  }

  /** Why comparing c1 with c2 on behalf of v1 and v2 terminates. */
  ghost predicate Descends(v1: Value, v2: Value, c1: Value, c2: Value)
  {
    Keyed(v1, v2) || Rank(c1, c2) < Rank(v1, v2) || (Rank(c1, c2) == Rank(v1, v2) && c1 < v1)
  }

  /** deepValueEqual up to its switch: the validity and type checks and the visited map.
      The ghost steps record which pairs the visited map vouches for. */
  method DeepValueEqual(h: Heap, v1: Value, v2: Value, visited: Visited) returns (r: bool)
    requires WFHeap(h) && Arg(h, v1) && Arg(h, v2) && visited.Valid(h)
    modifies visited
    ensures visited.Valid(h)
    ensures old(visited.seen) <= visited.seen && old(visited.pairs) <= visited.pairs
    ensures r ==> (v1, v2) in visited.pairs
    ensures r ==> Justifies(h, visited.pairs, visited.pairs - old(visited.pairs))
    ensures Bisimilar(h, v1, v2) ==> r
    decreases Unvisited(h, visited.seen), Rank(v1, v2), v1, 4
  {
    hide Layer;
    hide Bisimilar;
    hide AllVisits;
    hide WFHeap;
    ghost var before := visited.pairs;
    if Bisimilar(h, v1, v2) { BisimilarHeads(h, v1, v2); }
    if v1.Invalid? || v2.Invalid? {
      r := v1.Invalid? == v2.Invalid?;
      if r { visited.EnterInvalid(h); }
      return;
    }
    if v1.typ != v2.typ { return false; }
    if Keyed(v1, v2) && VisitKey(v1, v2) in visited.seen { return true; }
    visited.Enter(h, v1, v2);
    UnvisitedShrinks(h, old(visited.seen), visited.seen);
    r := CompareByKind(h, v1, v2, visited, before);
  }

  /** The switch of deepValueEqual, for two valid values of one type. */
  method CompareByKind(h: Heap, v1: Value, v2: Value, visited: Visited, ghost before: set<(Value, Value)>)
    returns (r: bool)
    requires WFHeap(h) && WF(h, v1) && WF(h, v2) && v1.typ == v2.typ
    requires visited.Comparing(h, v1, v2, before)
    modifies visited
    ensures visited.Valid(h)
    ensures old(visited.seen) <= visited.seen && old(visited.pairs) <= visited.pairs
    ensures r ==> Justifies(h, visited.pairs, visited.pairs - before)
    ensures Bisimilar(h, v1, v2) ==> r
    decreases Unvisited(h, visited.seen) + (if Keyed(v1, v2) then 1 else 0), Rank(v1, v2), v1, 3
  {
    hide Bisimilar;
    hide AllVisits;
    hide Justifies;
    hide WFHeap;
    if Bisimilar(h, v1, v2) { BisimilarUnfolds(h, v1, v2); }
    r := true;
    match v1 {
      case Array(_, _) => r := CompareElements(h, v1, v2, visited, before);
      case Struct(_, _) => r := CompareElements(h, v1, v2, visited, before);
      case Slice(_, _, _, _) => r := CompareElements(h, v1, v2, visited, before);
      case Interface(_, _, _) =>
        if IsNil(v1) || IsNil(v2) {
          r := IsNil(v1) == IsNil(v2);
        } else {
          r := CompareChild(h, v1, v2, Elem(h, v1), Elem(h, v2), visited, before, visited.seen);
        }
      case Ptr(_, target) =>
        if target != v2.target {
          r := CompareChild(h, v1, v2, Elem(h, v1), Elem(h, v2), visited, before, visited.seen);
        }
      case Map(_, hdr) =>
        if IsNil(v1) != IsNil(v2) || |Entries(h, v1)| != |Entries(h, v2)| {
          r := false;
        } else if hdr != v2.hdr {
          r := CompareMaps(h, v1, v2, visited, before);
        }
      case Func(_, _) =>
        r := IsNil(v1) && IsNil(v2);
      case Basic(_, bits, nan) =>
        r := !nan && !v2.nan && bits == v2.bits;
    }
    assert r ==> visited.Comparing(h, v1, v2, before) && Layer(h, Rel(visited.pairs), v1, v2);
    if r { JustifiesPair(h, visited.pairs, before, v1, v2); }
  }

  /** The cases of the switch for arrays, structs and slices. */
  method CompareElements(h: Heap, v1: Value, v2: Value, visited: Visited, ghost before: set<(Value, Value)>)
    returns (r: bool)
    requires WFHeap(h) && WF(h, v1) && WF(h, v2) && v1.typ == v2.typ
    requires v1.Array? || v1.Struct? || v1.Slice?
    requires visited.Comparing(h, v1, v2, before)
    modifies visited
    ensures visited.Valid(h)
    ensures old(visited.seen) <= visited.seen && old(visited.pairs) <= visited.pairs
    ensures r ==> visited.Comparing(h, v1, v2, before) && Layer(h, Rel(visited.pairs), v1, v2)
    ensures Layer(h, Largest(h), v1, v2) ==> r
    decreases Unvisited(h, visited.seen) + (if Keyed(v1, v2) then 1 else 0), Rank(v1, v2), v1, 2
  {
    r := true;
    match v1 {
      case Array(_, es) =>
        r := CompareAll(h, v1, v2, es, v2.elems, visited, before, visited.seen);
      case Struct(_, es) =>
        r := CompareAll(h, v1, v2, es, v2.elems, visited, before, visited.seen);
      case Slice(_, _, data, len) =>
        if IsNil(v1) != IsNil(v2) || len != v2.len {
          r := false;
        } else if data != v2.data {
          var es, fs := h.backing[(v1.typ, data)][..len], h.backing[(v2.typ, v2.data)][..len];
          assert forall i | 0 <= i < len :: es[i] == Index(h, v1, i) && fs[i] == Index(h, v2, i);
          r := CompareAll(h, v1, v2, es, fs, visited, before, visited.seen);
        }
    }
  }

  /** The element loop of arrays, structs and slices. */
  method CompareAll(h: Heap, v1: Value, v2: Value, es: seq<Value>, fs: seq<Value>, visited: Visited,
                    ghost before: set<(Value, Value)>, ghost seen0: set<Visit>)
    returns (r: bool)
    requires WFHeap(h) && WF(h, v1) && WF(h, v2) && v1.typ == v2.typ && |es| == |fs|
    requires forall i | 0 <= i < |es| :: WF(h, es[i]) && WF(h, fs[i]) && Descends(v1, v2, es[i], fs[i])
    requires visited.Comparing(h, v1, v2, before) && seen0 <= visited.seen
    modifies visited
    ensures visited.Valid(h)
    ensures old(visited.seen) <= visited.seen && old(visited.pairs) <= visited.pairs
    ensures r ==> visited.Comparing(h, v1, v2, before)
    ensures r ==> forall i | 0 <= i < |es| :: (es[i], fs[i]) in visited.pairs
    ensures (forall i | 0 <= i < |es| :: Bisimilar(h, es[i], fs[i])) ==> r
    decreases Unvisited(h, seen0) + (if Keyed(v1, v2) then 1 else 0), Rank(v1, v2), v1, 1
  {
    ghost var seen1, pairs1 := visited.seen, visited.pairs;
    for i := 0 to |es|
      invariant seen1 <= visited.seen && pairs1 <= visited.pairs
      invariant visited.Comparing(h, v1, v2, before)
      invariant forall j | 0 <= j < i :: (es[j], fs[j]) in visited.pairs
    {
      r := CompareChild(h, v1, v2, es[i], fs[i], visited, before, seen0);
      if !r { return; }
    }
    r := true;
  }

  /** The key loop of maps. */
  method CompareMaps(h: Heap, v1: Value, v2: Value, visited: Visited, ghost before: set<(Value, Value)>)
    returns (r: bool)
    requires WFHeap(h) && WF(h, v1) && WF(h, v2) && v1.typ == v2.typ && v1.Map? && Keyed(v1, v2)
    requires visited.Comparing(h, v1, v2, before)
    modifies visited
    ensures visited.Valid(h)
    ensures old(visited.seen) <= visited.seen && old(visited.pairs) <= visited.pairs
    ensures r ==> visited.Comparing(h, v1, v2, before)
    ensures r ==> forall i | 0 <= i < |Entries(h, v1)| :: RelatedAt(h, Rel(visited.pairs), v1, v2, Entries(h, v1)[i].0)
    ensures (forall i | 0 <= i < |Entries(h, v1)| :: RelatedAt(h, Largest(h), v1, v2, Entries(h, v1)[i].0)) ==> r
    decreases Unvisited(h, visited.seen) + (if Keyed(v1, v2) then 1 else 0), Rank(v1, v2), v1, 1
  {
    hide AllVisits;
    hide Justifies;
    hide Bisimilar;
    hide Lookup;
    ghost var seen0, pairs0 := visited.seen, visited.pairs;
    var es := Entries(h, v1);
    for i := 0 to |es|
      invariant seen0 <= visited.seen && pairs0 <= visited.pairs
      invariant visited.Comparing(h, v1, v2, before)
      invariant forall j | 0 <= j < i :: RelatedAt(h, Rel(visited.pairs), v1, v2, es[j].0)
    {
      var vals := Images(h, v1, v2, es[i].0);
      assert RelatedAt(h, Largest(h), v1, v2, es[i].0) <==>
        !vals.0.Invalid? && !vals.1.Invalid? && Bisimilar(h, vals.0, vals.1);
      if vals.0.Invalid? || vals.1.Invalid? { return false; }
      r := CompareChild(h, v1, v2, vals.0, vals.1, visited, before, seen0);
      if !r { return; }
    }
    r := true;
  }

  /** A recursive call of the switch, with the bookkeeping of the pair it belongs to. */
  method CompareChild(h: Heap, v1: Value, v2: Value, c1: Value, c2: Value, visited: Visited,
                      ghost before: set<(Value, Value)>, ghost seen0: set<Visit>)
    returns (r: bool)
    requires WFHeap(h) && WF(h, v1) && WF(h, v2) && v1.typ == v2.typ && Arg(h, c1) && Arg(h, c2)
    requires visited.Comparing(h, v1, v2, before) && seen0 <= visited.seen
    requires Descends(v1, v2, c1, c2)
    modifies visited
    ensures visited.Valid(h)
    ensures old(visited.seen) <= visited.seen && old(visited.pairs) <= visited.pairs
    ensures r ==> (c1, c2) in visited.pairs && visited.Comparing(h, v1, v2, before)
    ensures Bisimilar(h, c1, c2) ==> r
    decreases Unvisited(h, seen0) + (if Keyed(v1, v2) then 1 else 0), Rank(v1, v2), v1, 0
  {
    UnvisitedShrinks(h, seen0, visited.seen);
    ghost var pairs0 := visited.pairs;
    r := DeepValueEqual(h, c1, c2, visited);
    if r {
      ghost var owed := pairs0 - before - {(v1, v2), (v2, v1)};
      JustifiesMonotone(h, pairs0, visited.pairs, owed);
    }
  }

  /** DeepEqual, called on the contents of two interface values (Invalid for a nil one).
      For every finite heap, cyclic or not, it returns, and it decides deep equality. */
  method DeepEqual(h: Heap, x: Value, y: Value) returns (r: bool)
    requires WFHeap(h) && Arg(h, x) && Arg(h, y)
    ensures r <==> Bisimilar(h, x, y)
  {
    if Bisimilar(h, x, y) { BisimilarHeads(h, x, y); }
    if x.Invalid? || y.Invalid? {
      r := x.Invalid? == y.Invalid?;
      if r {
        assert IsBisimulation(h, iset{(x, y)});
      }
      return;
    }
    if x.typ != y.typ { return false; }
    var visited := new Visited();
    r := DeepValueEqual(h, x, y, visited);
    if r {
      assert visited.pairs - {} == visited.pairs;
      assert IsBisimulation(h, Rel(visited.pairs)) && (x, y) in Rel(visited.pairs);
    }
  }

  // ---------- consequences, for every caller of DeepEqual ----------

  lemma LargestIsBisimulation(h: Heap)
    ensures IsBisimulation(h, Largest(h))
  {
    forall p | p in Largest(h)
      ensures Arg(h, p.0) && Arg(h, p.1) && Layer(h, Largest(h), p.0, p.1)
    {
      BisimilarUnfolds(h, p.0, p.1);
    }
  }

  lemma DeepEqualSymmetric(h: Heap, a: Value, b: Value)
    requires WFHeap(h) && Bisimilar(h, a, b)
    ensures Bisimilar(h, b, a)
  {
    LargestIsBisimulation(h);
    var L := Largest(h);
    var S := iset p: (Value, Value) | p in L || (p.1, p.0) in L;
    forall p | p in S
      ensures Arg(h, p.0) && Arg(h, p.1) && Layer(h, S, p.0, p.1)
    {
      var q := (p.1, p.0);
      if p in L {
        LayerMonotone(h, L, S, p.0, p.1);
      } else {
        LayerMonotone(h, L, S, q.0, q.1);
        LayerSymmetric(h, S, q.0, q.1);
      }
    }
    assert IsBisimulation(h, S) && (b, a) in S;
  }

  /** Pairs joined by the greatest bisimulation directly or through a middle value. */
  ghost function Joined(h: Heap): iset<(Value, Value)>
  {
    iset p: (Value, Value) | p in Largest(h) || exists m :: (p.0, m) in Largest(h) && (m, p.1) in Largest(h)
  }

  lemma JoinedThrough(h: Heap, x: Value, m: Value, y: Value)
    requires (x, m) in Largest(h) && (m, y) in Largest(h)
    ensures (x, y) in Joined(h)
  {
    assert ((x, y).0, m) in Largest(h) && (m, (x, y).1) in Largest(h);
  }

  lemma MapLayerTransitive(h: Heap, a: Value, b: Value, c: Value, i: nat)
    requires WFHeap(h) && WF(h, a) && WF(h, b) && WF(h, c) && a.Map?
    requires Layer(h, Largest(h), a, b) && Layer(h, Largest(h), b, c)
    requires a.hdr != c.hdr && i < |Entries(h, a)|
    ensures RelatedAt(h, Joined(h), a, c, Entries(h, a)[i].0)
  {
    var L, k := Largest(h), Entries(h, a)[i].0;
    if a.hdr == b.hdr {
      assert RelatedAt(h, L, b, c, k);
    } else {
      assert RelatedAt(h, L, a, b, k);
      var j :| 0 <= j < |Entries(h, b)| && Entries(h, b)[j].0 == k;
      if b.hdr != c.hdr {
        assert RelatedAt(h, L, b, c, Entries(h, b)[j].0);
        JoinedThrough(h, MapIndex(h, a, k), MapIndex(h, b, k), MapIndex(h, c, k));
      }
    }
  }

  lemma LayerTransitive(h: Heap, a: Value, b: Value, c: Value)
    requires WFHeap(h) && Arg(h, a) && Arg(h, b) && Arg(h, c)
    requires Layer(h, Largest(h), a, b) && Layer(h, Largest(h), b, c)
    ensures Layer(h, Joined(h), a, c)
  {
    var L, J := Largest(h), Joined(h);
    if a.Map? {
      if a.hdr != c.hdr {
        forall i | 0 <= i < |Entries(h, a)|
          ensures RelatedAt(h, J, a, c, Entries(h, a)[i].0)
        {
          MapLayerTransitive(h, a, b, c, i);
        }
      }
    } else if a.Slice? {
      if a.data != c.data {
        forall i | 0 <= i < a.len ensures (Index(h, a, i), Index(h, c, i)) in J {
          if a.data != b.data { assert (Index(h, a, i), Index(h, b, i)) in L; }
          if b.data != c.data { assert (Index(h, b, i), Index(h, c, i)) in L; }
        }
      }
    }
  }

  /** Deep equality is transitive, although its shortcuts make it irreflexive in places. */
  lemma DeepEqualTransitive(h: Heap, a: Value, b: Value, c: Value)
    requires WFHeap(h) && Bisimilar(h, a, b) && Bisimilar(h, b, c)
    ensures Bisimilar(h, a, c)
  {
    LargestIsBisimulation(h);
    forall p | p in Joined(h)
      ensures Arg(h, p.0) && Arg(h, p.1) && Layer(h, Joined(h), p.0, p.1)
    {
      if p in Largest(h) {
        LayerMonotone(h, Largest(h), Joined(h), p.0, p.1);
      } else {
        var m :| (p.0, m) in Largest(h) && (m, p.1) in Largest(h);
        BisimilarUnfolds(h, p.0, m);
        BisimilarUnfolds(h, m, p.1);
        LayerTransitive(h, p.0, m, p.1);
      }
    }
    assert (a, b) in Largest(h) && (b, c) in Largest(h);
    assert IsBisimulation(h, Joined(h)) && (a, c) in Joined(h);
  }

  /** A pointer, slice or map equals itself whatever it leads to, NaNs included; a basic
      value equals itself exactly when it is not a NaN, a func exactly when it is nil. */
  lemma DeepEqualToItself(h: Heap, v: Value)
    requires WFHeap(h) && WF(h, v)
    ensures v.Ptr? || v.Slice? || v.Map? ==> Bisimilar(h, v, v)
    ensures v.Basic? ==> (Bisimilar(h, v, v) <==> !v.nan)
    ensures v.Func? ==> (Bisimilar(h, v, v) <==> IsNil(v))
  {
    var R := iset{(v, v)};
    if v.Ptr? || v.Slice? || v.Map? || (v.Basic? && !v.nan) || (v.Func? && IsNil(v)) {
      assert IsBisimulation(h, R) && (v, v) in R;
    } else if Bisimilar(h, v, v) {
      BisimilarUnfolds(h, v, v);
    }
  }

  // ---------- the documented rules, kind by kind ----------

  /** What agrees in one layer over deeply equal parts is deeply equal. */
  lemma BisimilarFolds(h: Heap, a: Value, b: Value)
    requires Arg(h, a) && Arg(h, b) && Layer(h, Largest(h), a, b)
    ensures Bisimilar(h, a, b)
  {
    LargestIsBisimulation(h);
    var R := Largest(h) + iset{(a, b)};
    forall p | p in R
      ensures Arg(h, p.0) && Arg(h, p.1) && Layer(h, R, p.0, p.1)
    {
      LayerMonotone(h, Largest(h), R, p.0, p.1);
    }
    assert IsBisimulation(h, R) && (a, b) in R;
  }

  lemma RuleUnfolded(h: Heap, a: Value, b: Value)
    requires Arg(h, a) && Arg(h, b)
    ensures Bisimilar(h, a, b) <==> Layer(h, Largest(h), a, b)
  {
    hide Layer;
    hide Bisimilar;
    if Bisimilar(h, a, b) { BisimilarUnfolds(h, a, b); }
    if Layer(h, Largest(h), a, b) { BisimilarFolds(h, a, b); }
  }

  /** Values of different types are never deeply equal; the invalid value only to itself. */
  lemma RuleForTypes(h: Heap, a: Value, b: Value)
    requires Arg(h, a) && Arg(h, b)
    ensures Bisimilar(h, a, b) ==> a.Invalid? == b.Invalid? && (!a.Invalid? ==> a.typ == b.typ)
    ensures a.Invalid? && b.Invalid? ==> Bisimilar(h, a, b)
  {
    RuleUnfolded(h, a, b);
    hide Bisimilar;
  }

  /** Basic values: equal bits, and no NaN.  Functions: both nil. */
  lemma RuleForPlain(h: Heap, a: Value, b: Value)
    requires WF(h, a) && WF(h, b) && a.typ == b.typ
    ensures a.Basic? ==> (Bisimilar(h, a, b) <==> a.bits == b.bits && !a.nan && !b.nan)
    ensures a.Func? ==> (Bisimilar(h, a, b) <==> IsNil(a) && IsNil(b))
  {
    RuleUnfolded(h, a, b);
    hide Bisimilar;
  }

  /** Arrays and structs: all elements or fields, one by one. */
  lemma RuleForElements(h: Heap, a: Value, b: Value)
    requires WF(h, a) && WF(h, b) && a.typ == b.typ && (a.Array? || a.Struct?)
    ensures |a.elems| == |b.elems|
    ensures Bisimilar(h, a, b) <==> forall i | 0 <= i < |a.elems| :: Bisimilar(h, a.elems[i], b.elems[i])
  {
    RuleUnfolded(h, a, b);
    hide Bisimilar;
    forall i | 0 <= i < |a.elems|
      ensures (a.elems[i], b.elems[i]) in Largest(h) <==> Bisimilar(h, a.elems[i], b.elems[i])
    {
    }
  }

  /** Slices: both nil or neither, of one length, and the same first element or all deeply
      equal. */
  lemma RuleForSlices(h: Heap, a: Value, b: Value)
    requires WF(h, a) && WF(h, b) && a.typ == b.typ && a.Slice?
    ensures Bisimilar(h, a, b) <==>
              && IsNil(a) == IsNil(b) && a.len == b.len
              && (a.data == b.data || forall i | 0 <= i < a.len :: Bisimilar(h, Index(h, a, i), Index(h, b, i)))
  {
    RuleUnfolded(h, a, b);
    hide Bisimilar;
  }

  /** Pointers: equal, or leading to what is deeply equal.  Interfaces: both nil, or holding
      what is deeply equal. */
  lemma RuleForReferences(h: Heap, a: Value, b: Value)
    requires WFHeap(h) && WF(h, a) && WF(h, b) && a.typ == b.typ
    ensures a.Ptr? ==>
              (Bisimilar(h, a, b) <==>
               a.target == b.target || (!IsNil(a) && !IsNil(b) && Bisimilar(h, Elem(h, a), Elem(h, b))))
    ensures a.Interface? ==>
              (Bisimilar(h, a, b) <==>
               (IsNil(a) && IsNil(b)) || (!IsNil(a) && !IsNil(b) && Bisimilar(h, Elem(h, a), Elem(h, b))))
  {
    RuleUnfolded(h, a, b);
    if a.Ptr? { RuleForTypes(h, Elem(h, a), Elem(h, b)); }
    hide Bisimilar;
  }

  /** Maps: both nil or neither, of one size, and the same object or, for every key of one,
      deeply equal values under it in both. */
  lemma RuleForMaps(h: Heap, a: Value, b: Value)
    requires WFHeap(h) && WF(h, a) && WF(h, b) && a.typ == b.typ && a.Map?
    ensures var es, fs := Entries(h, a), Entries(h, b);
            Bisimilar(h, a, b) <==>
              && IsNil(a) == IsNil(b) && |es| == |fs|
              && (a.hdr == b.hdr || forall i | 0 <= i < |es| ::
                    var x, y := Lookup(es, es[i].0), Lookup(fs, es[i].0);
                    x.Some? && y.Some? && Bisimilar(h, Copy(x.value), Copy(y.value)))
  {
    RuleUnfolded(h, a, b);
    hide Bisimilar;
    var es, fs := Entries(h, a), Entries(h, b);
    forall i | 0 <= i < |es|
      ensures RelatedAt(h, Largest(h), a, b, es[i].0) <==>
                var x, y := Lookup(es, es[i].0), Lookup(fs, es[i].0);
                x.Some? && y.Some? && Bisimilar(h, Copy(x.value), Copy(y.value))
    {
      LookupStored(h, a, es[i].0);
      LookupStored(h, b, es[i].0);
    }
  }

  /** What a map holds is no invalid value. */
  lemma LookupStored(h: Heap, v: Value, k: Key)
    requires WFHeap(h) && WF(h, v) && v.Map?
    ensures var r := Lookup(Entries(h, v), k); r.Some? ==> !r.value.Invalid? && !Copy(r.value).Invalid?
  {
  }
}

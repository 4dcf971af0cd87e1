/** runtime/alg.go: hashing that must respect equality.  Memory is a sequence of cells, one a
    byte; what a string or an interface points to hangs on the cell where it begins. */
module TypeHash {
  import opened Basics

  // ---------- types and memory ----------

  datatype Field = Field(offset: nat, typ: Type, blank: bool)

  datatype Type =
    | Plain(size: nat)                                         // integers, booleans, pointers, channels
    | Float32 | Float64 | Complex64 | Complex128
    | String | Interface
    | Array(len: nat, elem: Type, regularArray: bool)
    | Struct(fields: seq<Field>, structSize: nat, regularStruct: bool)
    | Unhashable(usize: nat)                                   // slices, maps, functions

  datatype Cell = Byte(b: byte) | Text(s: seq<byte>) | NilInterface | Boxed(t: Type, data: seq<Cell>)

  function Size(t: Type): nat
  {
    match t
    case Plain(size) => size
    case Float32 => 4
    case Float64 => 8
    case Complex64 => 8
    case Complex128 => 16
    case String => 16
    case Interface => 16
    case Array(len, elem, _) => len * Size(elem)
    case Struct(_, size, _) => size
    case Unhashable(size) => size
  }

  /** tflagRegularMemory: values are equal exactly if their bytes are. */
  predicate Regular(t: Type)
  {
    t.Plain? || (t.Array? && t.regularArray) || (t.Struct? && t.regularStruct)
  }

  /** Fields are in order; what is marked as regular memory has regular parts only, and no blank
      fields.  It has no padding either, but nothing here depends on that. */
  predicate WellFormed(t: Type)
  {
    match t
    case Array(len, elem, regular) => WellFormed(elem) && (regular ==> Regular(elem))
    case Struct(fields, size, regular) =>
      && (forall i | 0 <= i < |fields| :: WellFormed(fields[i].typ) && fields[i].offset + Size(fields[i].typ) <= size)
      && (forall i, j | 0 <= i < j < |fields| :: fields[i].offset + Size(fields[i].typ) <= fields[j].offset)
      && (regular ==> forall i | 0 <= i < |fields| :: Regular(fields[i].typ) && !fields[i].blank)
    case _ => true
  }

  /** t.equal != nil */
  predicate Comparable(t: Type)
  {
    match t
    case Unhashable(_) => false
    case Array(_, elem, _) => Comparable(elem)
    case Struct(fields, _, _) => forall i | 0 <= i < |fields| :: Comparable(fields[i].typ)
    case _ => true
  }

  /** add(p, i*a.elem.size) */
  function ElemAt(p: nat, i: nat, size: nat): nat { p + i * size }

  ghost predicate Bytes(m: seq<Cell>, p: nat, n: nat)
  {
    p + n <= |m| && forall i | p <= i < p + n :: m[i].Byte?
  }

  /** A value of type t lies at p. */
  ghost predicate Holds(t: Type, m: seq<Cell>, p: nat)
    decreases m, t
  {
    && p + Size(t) <= |m|
    && if Regular(t) then Bytes(m, p, Size(t))
       else match t
       case Float32 => Bytes(m, p, 4)
       case Float64 => Bytes(m, p, 8)
       case Complex64 => Bytes(m, p, 8)
       case Complex128 => Bytes(m, p, 16)
       case String => m[p].Text?
       case Interface =>
         || m[p].NilInterface?
         || (m[p].Boxed? && WellFormed(m[p].t) && |m[p].data| == Size(m[p].t) && Holds(m[p].t, m[p].data, 0))
       case Array(len, elem, _) => forall i: nat | i < len :: Holds(elem, m, ElemAt(p, i, Size(elem)))
       case Struct(fields, _, _) => forall i | 0 <= i < |fields| :: Holds(fields[i].typ, m, p + fields[i].offset)
       case _ => true
  }

  // ---------- floating point, by its bytes ----------

  function At(m: seq<Cell>, p: nat, i: nat): byte
    requires p + i < |m|
  {
    if m[p + i].Byte? then m[p + i].b else 0
  }

  /** All bits zero but possibly the sign; w is 4 or 8. */
  predicate IsZero(w: nat, m: seq<Cell>, p: nat)
    requires w > 0 && p + w <= |m|
  {
    At(m, p, w - 1) % 128 == 0 && forall i: nat | i < w - 1 :: At(m, p, i) == 0
  }

  /** The exponent all ones, the fraction not zero. */
  predicate IsNaN(w: nat, m: seq<Cell>, p: nat)
    requires (w == 4 || w == 8) && p + w <= |m|
  {
    var low: byte := if w == 4 then 128 else 240;
    && At(m, p, w - 1) % 128 == 127 && At(m, p, w - 2) >= low
    && (At(m, p, w - 2) != low || exists i: nat | i < w - 2 :: At(m, p, i) != 0)
  }

  predicate SameCells(m: seq<Cell>, p: nat, m': seq<Cell>, p': nat, n: nat)
    requires p + n <= |m| && p' + n <= |m'|
  {
    m[p..p + n] == m'[p'..p' + n]
  }

  predicate FloatEqual(w: nat, m: seq<Cell>, p: nat, m': seq<Cell>, p': nat)
    requires (w == 4 || w == 8) && p + w <= |m| && p' + w <= |m'|
  {
    && !IsNaN(w, m, p) && !IsNaN(w, m', p')
    && (SameCells(m, p, m', p', w) || (IsZero(w, m, p) && IsZero(w, m', p')))
  }

  // ---------- equality ----------

  /** t.equal: Some(b) is its answer, None a panic over an uncomparable type. */
  function Equal(t: Type, m: seq<Cell>, p: nat, m': seq<Cell>, p': nat): Option<bool>
    requires Holds(t, m, p) && Holds(t, m', p')
    decreases m, t, 0
  {
    if Regular(t) then Some(SameCells(m, p, m', p', Size(t)))
    else match t
      case Float32 => Some(FloatEqual(4, m, p, m', p'))
      case Float64 => Some(FloatEqual(8, m, p, m', p'))
      case Complex64 => Some(FloatEqual(4, m, p, m', p') && FloatEqual(4, m, p + 4, m', p' + 4))
      case Complex128 => Some(FloatEqual(8, m, p, m', p') && FloatEqual(8, m, p + 8, m', p' + 8))
      case String => Some(m[p].s == m'[p'].s)
      case Interface =>
        if m[p].NilInterface? || m'[p'].NilInterface? then Some(m[p].NilInterface? && m'[p'].NilInterface?)
        else if m[p].t != m'[p'].t then Some(false)
        else if !Comparable(m[p].t) then None
        else Equal(m[p].t, m[p].data, 0, m'[p'].data, 0)
      case Array(_, _, _) => EqualElements(t, t.len, m, p, m', p')
      case Struct(_, _, _) => EqualFields(t, |t.fields|, m, p, m', p')
      case _ => None
  }

  /** The first n elements, and no further than the first difference. */
  function EqualElements(t: Type, n: nat, m: seq<Cell>, p: nat, m': seq<Cell>, p': nat): Option<bool>
    requires t.Array? && !Regular(t) && n <= t.len && Holds(t, m, p) && Holds(t, m', p')
    decreases m, t.elem, n + 1
  {
    if n == 0 then Some(true)
    else match EqualElements(t, n - 1, m, p, m', p')
      case Some(true) => Equal(t.elem, m, ElemAt(p, n - 1, Size(t.elem)), m', ElemAt(p', n - 1, Size(t.elem)))
      case other => other
  }

  /** The first n fields but the blank ones. */
  function EqualFields(t: Type, n: nat, m: seq<Cell>, p: nat, m': seq<Cell>, p': nat): Option<bool>
    requires t.Struct? && !Regular(t) && n <= |t.fields| && Holds(t, m, p) && Holds(t, m', p')
    decreases m, t.fields, n
  {
    if n == 0 then Some(true)
    else match EqualFields(t, n - 1, m, p, m', p')
      case Some(true) =>
        var f := t.fields[n - 1];
        if f.blank then Some(true) else Equal(f.typ, m, p + f.offset, m', p' + f.offset)
      case other => other
  }

  // ---------- the hash ----------

  /** The routines whose source is machine code: memhash, memhash32, memhash64, strhash; and
      the numbers fastrand is going to give. */
  datatype Routines = Routines(mem: (seq<Cell>, bv64) -> bv64, mem32: (seq<Cell>, bv64) -> bv64,
                               mem64: (seq<Cell>, bv64) -> bv64, str: (seq<byte>, bv64) -> bv64,
                               fastrand: nat -> bv64)

  /** The hash so far, and how many random numbers were drawn for it. */
  datatype State = State(h: bv64, drawn: nat)

  const C0: bv64 := 33054211828000289
  const C1: bv64 := 23344194077549503

  function Times(h: bv64): bv64 { C1 * h }

  function Mixed(h: bv64): bv64 { Times(C0 ^ h) }

  function Seeded(st: State): State { st.(h := st.h ^ C0) }

  function Spread(st: State): State { st.(h := Times(st.h)) }

  /** f32hash and f64hash: +0 and -0 have the same hash, a NaN gets a random one. */
  function FloatHash(w: nat, m: seq<Cell>, p: nat, st: State, k: Routines): State
    requires (w == 4 || w == 8) && p + w <= |m|
  {
    if IsZero(w, m, p) then st.(h := Mixed(st.h))
    else if IsNaN(w, m, p) then State(Mixed(st.h ^ k.fastrand(st.drawn)), st.drawn + 1)
    else st.(h := k.mem(m[p..p + w], st.h))
  }

  /** What is hashed of a struct: a stretch of memory, or a field on its own. */
  datatype Item = Region(lo: nat, hi: nat) | Own(i: nat)

  /** The items complete after n fields, and the stretch lo..hi still growing. */
  datatype Plan = Plan(items: seq<Item>, lo: nat, hi: nat)

  function Flushed(plan: Plan): seq<Item>
  {
    if plan.hi > plan.lo then plan.items + [Region(plan.lo, plan.hi)] else plan.items
  }

  /** What one more field does to the plan. */
  function NextPlan(t: Type, i: nat, was: Plan): Plan
    requires t.Struct? && i < |t.fields|
  {
    var f := t.fields[i];
    var flush := was.hi > was.lo && (f.blank || f.offset != was.hi || !Regular(f.typ));
    var now := if flush then Plan(Flushed(was), was.hi, was.hi) else was;
    if f.blank then now
    else if !Regular(f.typ) then now.(items := now.items + [Own(i)])
    else Plan(now.items, if now.lo == now.hi then f.offset else now.lo, f.offset + Size(f.typ))
  }

  function PlanUpTo(t: Type, n: nat): Plan
    requires t.Struct? && n <= |t.fields|
  {
    if n == 0 then Plan([], 0, 0) else NextPlan(t, n - 1, PlanUpTo(t, n - 1))
  }

  function Items(t: Type): seq<Item>
    requires t.Struct?
  {
    Flushed(PlanUpTo(t, |t.fields|))
  }

  function Chunk(m: seq<Cell>, a: nat, b: nat): seq<Cell> { if a <= b <= |m| then m[a..b] else [] }

  /** The hash of a value; None is a panic over an unhashable type. */
  function Hash(t: Type, m: seq<Cell>, p: nat, st: State, k: Routines): Option<State>
    requires Holds(t, m, p)
    decreases m, t, 0
  {
    if Regular(t) then Some(RegularHash(m[p..p + Size(t)], st, k))
    else match t
      case Float32 => Some(FloatHash(4, m, p, st, k))
      case Float64 => Some(FloatHash(8, m, p, st, k))
      case Complex64 => Some(FloatHash(4, m, p + 4, FloatHash(4, m, p, st, k), k))
      case Complex128 => Some(FloatHash(8, m, p + 8, FloatHash(8, m, p, st, k), k))
      case String => Some(st.(h := k.str(m[p].s, st.h)))
      case Interface =>
        if m[p].NilInterface? then Some(st)
        else if !Comparable(m[p].t) then None
        else (match Hash(m[p].t, m[p].data, 0, Seeded(st), k) case Some(x) => Some(Spread(x)) case None => None)
      case Array(_, _, _) => HashElements(t, t.len, m, p, st, k)
      case Struct(_, _, _) => HashItems(t, Items(t), m, p, st, k)
      case _ => None
  }

  function RegularHash(cells: seq<Cell>, st: State, k: Routines): State
  {
    st.(h := if |cells| == 4 then k.mem32(cells, st.h)
             else if |cells| == 8 then k.mem64(cells, st.h)
             else k.mem(cells, st.h))
  }

  function HashElements(t: Type, n: nat, m: seq<Cell>, p: nat, st: State, k: Routines): Option<State>
    requires t.Array? && !Regular(t) && n <= t.len && Holds(t, m, p)
    decreases m, t.elem, n + 1
  {
    if n == 0 then Some(st)
    else match HashElements(t, n - 1, m, p, st, k)
      case Some(x) => Hash(t.elem, m, ElemAt(p, n - 1, Size(t.elem)), x, k)
      case None => None
  }

  function HashItems(t: Type, items: seq<Item>, m: seq<Cell>, p: nat, st: State, k: Routines): Option<State>
    requires t.Struct? && !Regular(t) && Holds(t, m, p)
    decreases m, t.fields, |items|
  {
    if items == [] then Some(st)
    else
      var n := |items| - 1;
      match HashItems(t, items[..n], m, p, st, k)
      case Some(x) => HashItem(t, items[n], m, p, x, k)
      case None => None
  }

  function HashItem(t: Type, item: Item, m: seq<Cell>, p: nat, st: State, k: Routines): Option<State>
    requires t.Struct? && !Regular(t) && Holds(t, m, p)
    decreases m, t.fields, 0
  {
    match item
    case Region(lo, hi) => Some(st.(h := k.mem(Chunk(m, p + lo, p + hi), st.h)))
    case Own(i) => if i < |t.fields| then Hash(t.fields[i].typ, m, p + t.fields[i].offset, st, k) else Some(st)
  }

  // ---------- the code ----------

  /** f32hash and f64hash */
  method HashFloat(w: nat, m: seq<Cell>, p: nat, st: State, k: Routines) returns (r: State)
    requires (w == 4 || w == 8) && p + w <= |m|
    ensures r == FloatHash(w, m, p, st, k)
  {
    hide Mixed;
    if IsZero(w, m, p) {
      r := st.(h := Mixed(st.h));
    } else if IsNaN(w, m, p) {
      var random := k.fastrand(st.drawn);
      r := State(Mixed(st.h ^ random), st.drawn + 1);
    } else {
      r := st.(h := k.mem(m[p..p + w], st.h));
    }
  }

  /** typehash, with interhash and nilinterhash in it. */
  method TypeHash(t: Type, m: seq<Cell>, p: nat, st: State, k: Routines) returns (r: Option<State>)
    requires WellFormed(t) && Holds(t, m, p)
    ensures r == Hash(t, m, p, st, k)
    decreases m, t, 0
  {
    hide FloatHash;
    hide Seeded;
    hide Spread;
    hide Items;
    if Regular(t) {
      var h := if Size(t) == 4 then k.mem32(m[p..p + 4], st.h)
               else if Size(t) == 8 then k.mem64(m[p..p + 8], st.h)
               else k.mem(m[p..p + Size(t)], st.h);
      return Some(st.(h := h));
    }
    match t
    case Float32 =>
      var x := HashFloat(4, m, p, st, k);
      r := Some(x);
    case Float64 =>
      var x := HashFloat(8, m, p, st, k);
      r := Some(x);
    case Complex64 =>
      var x := HashFloat(4, m, p, st, k);
      x := HashFloat(4, m, p + 4, x, k);
      r := Some(x);
    case Complex128 =>
      var x := HashFloat(8, m, p, st, k);
      x := HashFloat(8, m, p + 8, x, k);
      r := Some(x);
    case String => r := Some(st.(h := k.str(m[p].s, st.h)));
    case Interface =>
      if m[p].NilInterface? { return Some(st); }
      if !Comparable(m[p].t) { return None; }
      r := TypeHash(m[p].t, m[p].data, 0, Seeded(st), k);
      if r.Some? { r := Some(Spread(r.value)); }
    case Array(_, _, _) => r := ArrayHash(t, m, p, st, k);
    case Struct(_, _, _) => r := StructHash(t, m, p, st, k);
    case _ => r := None;
  }

  /** A panic in one element is a panic of the whole. */
  lemma {:induction false} ElementsPanic(t: Type, i: nat, n: nat, m: seq<Cell>, p: nat, st: State, k: Routines)
    requires t.Array? && !Regular(t) && i <= n <= t.len && Holds(t, m, p)
    requires HashElements(t, i, m, p, st, k) == None
    ensures HashElements(t, n, m, p, st, k) == None
    decreases n
  {
    hide ElemAt;
    hide Hash;
    if i < n { ElementsPanic(t, i, n - 1, m, p, st, k); }
  }

  lemma ElementsMore(t: Type, i: nat, m: seq<Cell>, p: nat, st: State, k: Routines)
    requires t.Array? && !Regular(t) && i < t.len && Holds(t, m, p)
    ensures Holds(t.elem, m, ElemAt(p, i, Size(t.elem)))
    ensures var x := HashElements(t, i, m, p, st, k);
            HashElements(t, i + 1, m, p, st, k) ==
              if x == None then None else Hash(t.elem, m, ElemAt(p, i, Size(t.elem)), x.value, k)
  {
    hide ElemAt;
    hide Hash;
  }

  /** The array loop. */
  method ArrayHash(t: Type, m: seq<Cell>, p: nat, seed: State, k: Routines) returns (r: Option<State>)
    requires t.Array? && !Regular(t) && WellFormed(t) && Holds(t, m, p)
    ensures r == HashElements(t, t.len, m, p, seed, k)
    decreases m, t.elem, 1
  {
    hide Hash;
    hide HashElements;
    var st := seed;
    ElementsNone(t, m, p, seed, k);
    for i := 0 to t.len
      invariant Some(st) == HashElements(t, i, m, p, seed, k)
    {
      ElementsMore(t, i, m, p, seed, k);
      r := TypeHash(t.elem, m, ElemAt(p, i, Size(t.elem)), st, k);
      if r == None {
        ElementsPanic(t, i + 1, t.len, m, p, seed, k);
        return;
      }
      st := r.value;
    }
    r := Some(st);
  }

  lemma ElementsNone(t: Type, m: seq<Cell>, p: nat, st: State, k: Routines)
    requires t.Array? && !Regular(t) && Holds(t, m, p)
    ensures HashElements(t, 0, m, p, st, k) == Some(st)
  {
  }

  lemma ItemsMore(t: Type, items: seq<Item>, item: Item, m: seq<Cell>, p: nat, st: State, k: Routines)
    requires t.Struct? && !Regular(t) && Holds(t, m, p)
    ensures HashItems(t, [], m, p, st, k) == Some(st)
    ensures var x := HashItems(t, items, m, p, st, k);
            HashItems(t, items + [item], m, p, st, k) == if x == None then None else HashItem(t, item, m, p, x.value, k)
  {
    hide HashItem;
    assert (items + [item])[..|items|] == items;
  }

  lemma {:induction false} ItemsPanic(t: Type, items: seq<Item>, n: nat, m: seq<Cell>, p: nat, st: State, k: Routines)
    requires t.Struct? && !Regular(t) && Holds(t, m, p) && n <= |items|
    requires HashItems(t, items[..n], m, p, st, k) == None
    ensures HashItems(t, items, m, p, st, k) == None
    decreases |items|
  {
    hide HashItem;
    if n < |items| {
      assert items[..|items| - 1][..n] == items[..n];
      ItemsPanic(t, items[..|items| - 1], n, m, p, st, k);
    } else {
      assert items[..n] == items;
    }
  }

  /** The items so far are the first of all items. */
  lemma {:induction false} PlanGrows(t: Type, i: nat)
    requires t.Struct? && i <= |t.fields|
    ensures PlanUpTo(t, i).items <= Items(t)
    decreases |t.fields| - i
  {
    hide PlanUpTo;
    if i < |t.fields| {
      PlanGrows(t, i + 1);
      PlanNext(t, i);
    }
  }

  lemma PlanNext(t: Type, i: nat)
    requires t.Struct? && i < |t.fields|
    ensures PlanUpTo(t, i).items <= PlanUpTo(t, i + 1).items
  {
  }

  /** The stretch still growing lies within the struct. */
  lemma {:induction false} PlanWithin(t: Type, n: nat)
    requires t.Struct? && WellFormed(t) && n <= |t.fields|
    ensures PlanUpTo(t, n).lo <= PlanUpTo(t, n).hi <= t.structSize
    ensures forall i: nat | n <= i < |t.fields| :: PlanUpTo(t, n).hi <= t.fields[i].offset
  {
    if n > 0 { PlanWithin(t, n - 1); }
  }

  /** One round of the struct loop. */
  method HashField(t: Type, i: nat, m: seq<Cell>, p: nat, seed: State, k: Routines, st0: State, lo: nat, hi: nat)
    returns (r: Option<State>, memStart: nat, memEnd: nat)
    requires t.Struct? && !Regular(t) && WellFormed(t) && Holds(t, m, p) && i < |t.fields|
    requires lo == PlanUpTo(t, i).lo && hi == PlanUpTo(t, i).hi
    requires Some(st0) == HashItems(t, PlanUpTo(t, i).items, m, p, seed, k)
    ensures memStart == PlanUpTo(t, i + 1).lo && memEnd == PlanUpTo(t, i + 1).hi
    ensures r == HashItems(t, PlanUpTo(t, i + 1).items, m, p, seed, k)
    decreases m, t.fields, 0
  {
    hide HashItems;
    hide Hash;
    hide Holds;
    hide WellFormed;
    hide PlanUpTo;
    PlanUnfolds(t, i + 1);
    PlanWithin(t, i);
    FieldAt(t, i, m, p);
    ghost var was := PlanUpTo(t, i);
    var f := t.fields[i];
    var st := st0;
    memStart, memEnd := lo, hi;
    if memEnd > memStart && (f.blank || f.offset != memEnd || !Regular(f.typ)) {
      ItemsMore(t, was.items, Region(lo, hi), m, p, seed, k);
      st := st.(h := k.mem(m[p + memStart..p + memEnd], st.h));
      memStart := memEnd;
    }
    r := Some(st);
    if f.blank { return; }
    if !Regular(f.typ) {
      ItemsMore(t, if hi > lo then was.items + [Region(lo, hi)] else was.items, Own(i), m, p, seed, k);
      r := TypeHash(f.typ, m, p + f.offset, st, k);
      return;
    }
    if memStart == memEnd { memStart := f.offset; }
    memEnd := f.offset + Size(f.typ);
  }

  lemma FieldAt(t: Type, i: nat, m: seq<Cell>, p: nat)
    requires t.Struct? && !Regular(t) && WellFormed(t) && Holds(t, m, p) && i < |t.fields|
    ensures p + t.structSize <= |m| && WellFormed(t.fields[i].typ) && Holds(t.fields[i].typ, m, p + t.fields[i].offset)
  {
  }

  lemma PlanStart(t: Type)
    requires t.Struct?
    ensures PlanUpTo(t, 0) == Plan([], 0, 0)
  {
  }

  /** The struct loop: adjacent stretches of regular memory are hashed in one piece. */
  method StructHash(t: Type, m: seq<Cell>, p: nat, seed: State, k: Routines) returns (r: Option<State>)
    requires t.Struct? && !Regular(t) && WellFormed(t) && Holds(t, m, p)
    ensures r == HashItems(t, Items(t), m, p, seed, k)
    decreases m, t.fields, 1
  {
    hide PlanUpTo;
    hide Items;
    PlanStart(t);
    hide HashItems;
    hide Hash;
    hide Holds;
    ItemsMore(t, [], Own(0), m, p, seed, k);
    var st, memStart: nat, memEnd: nat := seed, 0, 0;
    for i := 0 to |t.fields|
      invariant memStart == PlanUpTo(t, i).lo && memEnd == PlanUpTo(t, i).hi
      invariant Some(st) == HashItems(t, PlanUpTo(t, i).items, m, p, seed, k)
    {
      r, memStart, memEnd := HashField(t, i, m, p, seed, k, st, memStart, memEnd);
      if r == None {
        PlanPanic(t, i + 1, m, p, seed, k);
        return;
      }
      st := r.value;
    }
    r := Some(FlushLast(t, m, p, seed, k, st, memStart, memEnd));
  }

  /** The flush after the loop. */
  function FlushLast(t: Type, m: seq<Cell>, p: nat, seed: State, k: Routines, st: State, lo: nat, hi: nat): (r: State)
    requires t.Struct? && !Regular(t) && WellFormed(t) && Holds(t, m, p)
    requires lo == PlanUpTo(t, |t.fields|).lo && hi == PlanUpTo(t, |t.fields|).hi
    ensures Some(st) == HashItems(t, PlanUpTo(t, |t.fields|).items, m, p, seed, k) ==>
      Some(r) == HashItems(t, Items(t), m, p, seed, k)
  {
    PlanWithin(t, |t.fields|);
    StructFits(t, m, p);
    ItemsMore(t, PlanUpTo(t, |t.fields|).items, Region(lo, hi), m, p, seed, k);
    if hi > lo then st.(h := k.mem(m[p + lo..p + hi], st.h)) else st
  }

  lemma StructFits(t: Type, m: seq<Cell>, p: nat)
    requires t.Struct? && Holds(t, m, p)
    ensures p + t.structSize <= |m|
  {
  }

  lemma PlanPanic(t: Type, i: nat, m: seq<Cell>, p: nat, st: State, k: Routines)
    requires t.Struct? && !Regular(t) && Holds(t, m, p) && i <= |t.fields|
    requires HashItems(t, PlanUpTo(t, i).items, m, p, st, k) == None
    ensures HashItems(t, Items(t), m, p, st, k) == None
  {
    hide HashItems;
    PlanGrows(t, i);
    var some := PlanUpTo(t, i).items;
    assert Items(t)[..|some|] == some;
    ItemsPanic(t, Items(t), |some|, m, p, st, k);
  }

  // ---------- what is hashed of a struct ----------

  predicate InField(f: Field, k: nat) { !f.blank && Regular(f.typ) && f.offset <= k < f.offset + Size(f.typ) }

  predicate InRegion(item: Item, k: nat) { item.Region? && item.lo <= k < item.hi }

  /** Byte k belongs to one of the first n fields, and is to be hashed as memory. */
  ghost predicate ToHash(t: Type, n: nat, k: nat)
    requires t.Struct? && n <= |t.fields|
  {
    exists i | 0 <= i < n :: InField(t.fields[i], k)
  }

  ghost predicate InRegions(items: seq<Item>, k: nat)
  {
    exists j | 0 <= j < |items| :: InRegion(items[j], k)
  }

  /** The memory hashed is exactly that of the fields that are not blank and regular: no
      padding, no blank field, nothing left out. */
  lemma CoversTheFields(t: Type, k: nat)
    requires t.Struct? && WellFormed(t)
    ensures InRegions(Items(t), k) <==> ToHash(t, |t.fields|, k)
  {
    CoversUpTo(t, |t.fields|, k);
    InRegionsFlushed(PlanUpTo(t, |t.fields|), k);
  }

  lemma InRegionsMore(items: seq<Item>, item: Item, k: nat)
    ensures InRegions(items + [item], k) <==> InRegions(items, k) || InRegion(item, k)
  {
    var all := items + [item];
    if InRegions(items, k) {
      var j :| 0 <= j < |items| && InRegion(items[j], k);
      assert InRegion(all[j], k);
    }
    if InRegion(item, k) { assert InRegion(all[|items|], k); }
  }

  lemma InRegionsFlushed(plan: Plan, k: nat)
    ensures InRegions(Flushed(plan), k) <==> InRegions(plan.items, k) || plan.lo <= k < plan.hi
  {
    InRegionsMore(plan.items, Region(plan.lo, plan.hi), k);
  }

  lemma {:induction false} CoversUpTo(t: Type, n: nat, k: nat)
    requires t.Struct? && WellFormed(t) && n <= |t.fields|
    ensures InRegions(PlanUpTo(t, n).items, k) || PlanUpTo(t, n).lo <= k < PlanUpTo(t, n).hi <==> ToHash(t, n, k)
  {
    if n > 0 {
      CoversUpTo(t, n - 1, k);
      var was, f := PlanUpTo(t, n - 1), t.fields[n - 1];
      assert ToHash(t, n, k) <==> ToHash(t, n - 1, k) || InField(f, k);
      PlanWithin(t, n - 1);
      CoversStep(t, n - 1, was, k);
    }
  }

  lemma CoversStep(t: Type, i: nat, was: Plan, k: nat)
    requires t.Struct? && i < |t.fields| && was.lo <= was.hi <= t.fields[i].offset
    ensures var now := NextPlan(t, i, was);
            (InRegions(now.items, k) || now.lo <= k < now.hi) <==>
              (InRegions(was.items, k) || was.lo <= k < was.hi || InField(t.fields[i], k))
  {
    hide InRegions;
    InRegionsFlushed(was, k);
    InRegionsMore(Flushed(was), Own(i), k);
    InRegionsMore(was.items, Own(i), k);
  }

  /** The fields hashed on their own are exactly those that are not blank and not regular. */
  lemma OwnFields(t: Type, i: nat)
    requires t.Struct? && i < |t.fields|
    ensures Own(i) in Items(t) <==> !t.fields[i].blank && !Regular(t.fields[i].typ)
  {
    OwnUpTo(t, |t.fields|, i);
  }

  lemma {:induction false} OwnUpTo(t: Type, n: nat, i: nat)
    requires t.Struct? && i < |t.fields| && n <= |t.fields|
    ensures Own(i) in PlanUpTo(t, n).items <==> i < n && !t.fields[i].blank && !Regular(t.fields[i].typ)
  {
    if n > 0 { OwnUpTo(t, n - 1, i); }
  }

  // ---------- equal values, equal hashes ----------

  /** The stretches of memory two equal structs are hashed by hold the same bytes. */
  ghost predicate SameRegion(m: seq<Cell>, p: nat, m': seq<Cell>, p': nat, lo: nat, hi: nat)
  {
    p + hi <= |m| && p' + hi <= |m'| && lo <= hi && m[p + lo..p + hi] == m'[p' + lo..p' + hi]
  }

  lemma JoinRegions(m: seq<Cell>, p: nat, m': seq<Cell>, p': nat, lo: nat, mid: nat, hi: nat)
    requires SameRegion(m, p, m', p', lo, mid) && SameRegion(m, p, m', p', mid, hi)
    ensures SameRegion(m, p, m', p', lo, hi)
  {
    assert m[p + lo..p + hi] == m[p + lo..p + mid] + m[p + mid..p + hi];
    assert m'[p' + lo..p' + hi] == m'[p' + lo..p' + mid] + m'[p' + mid..p' + hi];
  }

  lemma SameAt(m: seq<Cell>, p: nat, m': seq<Cell>, p': nat, n: nat, i: nat)
    requires p + n <= |m| && p' + n <= |m'| && SameCells(m, p, m', p', n) && i < n
    ensures At(m, p, i) == At(m', p', i)
  {
    assert m[p + i] == m[p..p + n][i] == m'[p'..p' + n][i] == m'[p' + i];
  }

  /** Two hashes came out the same, and no random number was drawn for either. */
  ghost predicate Agree(x: Option<State>, y: Option<State>, a: State, b: State)
  {
    x.Some? && y.Some? && x.value.h == y.value.h && x.value.drawn == a.drawn && y.value.drawn == b.drawn
  }

  lemma SeededAgree(a: State, b: State)
    requires a.h == b.h
    ensures Seeded(a).h == Seeded(b).h && Seeded(a).drawn == a.drawn && Seeded(b).drawn == b.drawn
  {
  }

  lemma SpreadAgree(a: State, b: State)
    requires a.h == b.h
    ensures Spread(a).h == Spread(b).h && Spread(a).drawn == a.drawn && Spread(b).drawn == b.drawn
  {
    hide Times;
  }

  lemma AgreeNow(a: State, b: State)
    requires a.h == b.h
    ensures Agree(Some(a), Some(b), a, b)
  {
  }

  lemma AgreeUnfolds(x: Option<State>, y: Option<State>, a: State, b: State)
    requires Agree(x, y, a, b)
    ensures x.Some? && y.Some? && x.value.h == y.value.h
  {
  }

  lemma AgreeMore(x: State, y: State, x': Option<State>, y': Option<State>, a: State, b: State)
    requires Agree(Some(x), Some(y), a, b) && Agree(x', y', x, y)
    ensures Agree(x', y', a, b)
  {
  }

  /** Equal floats, +0 and -0 among them, have equal hashes, and none of them is a NaN. */
  lemma FloatsAgree(w: nat, m: seq<Cell>, p: nat, m': seq<Cell>, p': nat, a: State, b: State, k: Routines)
    requires a.h == b.h && (w == 4 || w == 8) && p + w <= |m| && p' + w <= |m'| && FloatEqual(w, m, p, m', p')
    ensures Agree(Some(FloatHash(w, m, p, a, k)), Some(FloatHash(w, m', p', b, k)), a, b)
  {
    hide Mixed;
    hide At;
    if SameCells(m, p, m', p', w) {
      forall i: nat | i < w ensures At(m, p, i) == At(m', p', i) { SameAt(m, p, m', p', w, i); }
    }
  }

  /** Equal values hash equal, whatever the seed and the machine's routines, and however many
      random numbers others drew in between; neither hash panics or draws one. */
  lemma {:induction false} EqualHashEqual(t: Type, m: seq<Cell>, p: nat, m': seq<Cell>, p': nat, a: State, b: State,
                                          k: Routines)
    requires a.h == b.h && WellFormed(t) && Holds(t, m, p) && Holds(t, m', p') && Equal(t, m, p, m', p') == Some(true)
    ensures Agree(Hash(t, m, p, a, k), Hash(t, m', p', b, k), a, b)
    decreases m, t, 1
  {
    hide *;
    if Regular(t) || t.String? {
      PlainAgree(t, m, p, m', p', a, b, k);
    } else if t.Float32? || t.Float64? || t.Complex64? || t.Complex128? {
      NumbersAgree(t, m, p, m', p', a, b, k);
    } else if t.Interface? {
      InterfacesAgree(t, m, p, m', p', a, b, k);
    } else if t.Array? {
      ArraysAgree(t, m, p, m', p', a, b, k);
    } else if t.Struct? {
      StructValuesAgree(t, m, p, m', p', a, b, k);
    } else {
      NothingElse(t, m, p, m', p');
    }
  }

  lemma {:induction false} PlainAgree(t: Type, m: seq<Cell>, p: nat, m': seq<Cell>, p': nat, a: State, b: State,
                                      k: Routines)
    requires a.h == b.h && (Regular(t) || t.String?) && WellFormed(t) && Holds(t, m, p) && Holds(t, m', p')
      && Equal(t, m, p, m', p') == Some(true)
    ensures Agree(Hash(t, m, p, a, k), Hash(t, m', p', b, k), a, b)
    decreases m, t, 0
  {
  }

  lemma {:induction false} NumbersAgree(t: Type, m: seq<Cell>, p: nat, m': seq<Cell>, p': nat, a: State, b: State,
                                        k: Routines)
    requires a.h == b.h && !Regular(t) && (t.Float32? || t.Float64? || t.Complex64? || t.Complex128?) && WellFormed(t)
      && Holds(t, m, p) && Holds(t, m', p') && Equal(t, m, p, m', p') == Some(true)
    ensures Agree(Hash(t, m, p, a, k), Hash(t, m', p', b, k), a, b)
    decreases m, t, 0
  {
    hide FloatHash;
    hide FloatEqual;
    hide IsNaN;
    match t
    case Float32 => FloatsAgree(4, m, p, m', p', a, b, k);
    case Float64 => FloatsAgree(8, m, p, m', p', a, b, k);
    case Complex64 =>
      FloatsAgree(4, m, p, m', p', a, b, k);
      FloatsAgree(4, m, p + 4, m', p' + 4, FloatHash(4, m, p, a, k), FloatHash(4, m', p', b, k), k);
    case Complex128 =>
      FloatsAgree(8, m, p, m', p', a, b, k);
      FloatsAgree(8, m, p + 8, m', p' + 8, FloatHash(8, m, p, a, k), FloatHash(8, m', p', b, k), k);
  }

  lemma {:induction false} InterfacesAgree(t: Type, m: seq<Cell>, p: nat, m': seq<Cell>, p': nat, a: State, b: State,
                                           k: Routines)
    requires a.h == b.h && !Regular(t) && t.Interface? && WellFormed(t) && Holds(t, m, p) && Holds(t, m', p')
      && Equal(t, m, p, m', p') == Some(true)
    ensures Agree(Hash(t, m, p, a, k), Hash(t, m', p', b, k), a, b)
    decreases m, t, 0
  {
    hide Spread;
    hide Seeded;
    if m[p].Boxed? {
      SeededAgree(a, b);
      EqualHashEqual(m[p].t, m[p].data, 0, m'[p'].data, 0, Seeded(a), Seeded(b), k);
      SpreadAgree(Hash(m[p].t, m[p].data, 0, Seeded(a), k).value, Hash(m[p].t, m'[p'].data, 0, Seeded(b), k).value);
    }
  }

  lemma NothingElse(t: Type, m: seq<Cell>, p: nat, m': seq<Cell>, p': nat)
    requires Holds(t, m, p) && Holds(t, m', p') && Equal(t, m, p, m', p') == Some(true)
    ensures Regular(t) || t.String? || t.Float32? || t.Float64? || t.Complex64? || t.Complex128?
         || t.Interface? || t.Array? || t.Struct?
  {
  }

  lemma {:induction false} ArraysAgree(t: Type, m: seq<Cell>, p: nat, m': seq<Cell>, p': nat, a: State, b: State,
                                       k: Routines)
    requires a.h == b.h && !Regular(t) && t.Array? && WellFormed(t) && Holds(t, m, p) && Holds(t, m', p')
      && Equal(t, m, p, m', p') == Some(true)
    ensures Agree(Hash(t, m, p, a, k), Hash(t, m', p', b, k), a, b)
    decreases m, t, 0
  {
    hide HashElements;
    hide EqualElements;
    ElementsAgree(t, t.len, m, p, m', p', a, b, k);
  }

  lemma {:induction false} StructValuesAgree(t: Type, m: seq<Cell>, p: nat, m': seq<Cell>, p': nat, a: State,
                                             b: State, k: Routines)
    requires a.h == b.h && !Regular(t) && t.Struct? && WellFormed(t) && Holds(t, m, p) && Holds(t, m', p')
      && Equal(t, m, p, m', p') == Some(true)
    ensures Agree(Hash(t, m, p, a, k), Hash(t, m', p', b, k), a, b)
    decreases m, t, 0
  {
    hide HashItems;
    hide EqualFields;
    hide Items;
    StructsAgree(t, m, p, m', p', a, b, k);
  }

  lemma EqualMore(t: Type, n: nat, m: seq<Cell>, p: nat, m': seq<Cell>, p': nat)
    requires t.Array? && !Regular(t) && n < t.len && Holds(t, m, p) && Holds(t, m', p')
    requires EqualElements(t, n + 1, m, p, m', p') == Some(true)
    ensures EqualElements(t, n, m, p, m', p') == Some(true)
    ensures Holds(t.elem, m, ElemAt(p, n, Size(t.elem))) && Holds(t.elem, m', ElemAt(p', n, Size(t.elem)))
    ensures Equal(t.elem, m, ElemAt(p, n, Size(t.elem)), m', ElemAt(p', n, Size(t.elem))) == Some(true)
  {
    hide Equal;
    hide ElemAt;
    hide Size;
  }

  lemma ElemWellFormed(t: Type)
    requires t.Array? && WellFormed(t)
    ensures WellFormed(t.elem)
  {
  }

  lemma {:induction false} ElementsAgree(t: Type, n: nat, m: seq<Cell>, p: nat, m': seq<Cell>, p': nat, a: State,
                                         b: State, k: Routines)
    requires a.h == b.h && t.Array? && !Regular(t) && WellFormed(t) && n <= t.len && Holds(t, m, p) && Holds(t, m', p')
    requires EqualElements(t, n, m, p, m', p') == Some(true)
    ensures Agree(HashElements(t, n, m, p, a, k), HashElements(t, n, m', p', b, k), a, b)
    decreases m, t.elem, n + 1
  {
    hide *;
    ElemWellFormed(t);
    if n == 0 {
      ElementsNone(t, m, p, a, k);
      ElementsNone(t, m', p', b, k);
      AgreeNow(a, b);
    } else {
      EqualMore(t, n - 1, m, p, m', p');
      ElementsAgree(t, n - 1, m, p, m', p', a, b, k);
      ElementsMore(t, n - 1, m, p, a, k);
      ElementsMore(t, n - 1, m', p', b, k);
      var x, y := HashElements(t, n - 1, m, p, a, k), HashElements(t, n - 1, m', p', b, k);
      AgreeUnfolds(x, y, a, b);
      EqualHashEqual(t.elem, m, ElemAt(p, n - 1, Size(t.elem)), m', ElemAt(p', n - 1, Size(t.elem)), x.value, y.value,
                     k);
      AgreeMore(x.value, y.value, HashElements(t, n, m, p, a, k), HashElements(t, n, m', p', b, k), a, b);
    }
  }

  /** The two structs agree where the item looks. */
  ghost predicate ItemAgrees(t: Type, item: Item, m: seq<Cell>, p: nat, m': seq<Cell>, p': nat)
    requires t.Struct? && !Regular(t) && Holds(t, m, p) && Holds(t, m', p')
  {
    match item
    case Region(lo, hi) => SameRegion(m, p, m', p', lo, hi)
    case Own(i) => i < |t.fields| && FieldAgrees(t, i, m, p, m', p')
  }

  ghost predicate FieldAgrees(t: Type, i: nat, m: seq<Cell>, p: nat, m': seq<Cell>, p': nat)
    requires t.Struct? && !Regular(t) && Holds(t, m, p) && Holds(t, m', p') && i < |t.fields|
  {
    Equal(t.fields[i].typ, m, p + t.fields[i].offset, m', p' + t.fields[i].offset) == Some(true)
  }

  lemma {:induction false} FieldsAgree(t: Type, n: nat, m: seq<Cell>, p: nat, m': seq<Cell>, p': nat)
    requires t.Struct? && !Regular(t) && Holds(t, m, p) && Holds(t, m', p') && n <= |t.fields|
    requires EqualFields(t, n, m, p, m', p') == Some(true)
    ensures forall i: nat | i < n && !t.fields[i].blank :: FieldAgrees(t, i, m, p, m', p')
    decreases n
  {
    hide Equal;
    if n > 0 { FieldsAgree(t, n - 1, m, p, m', p'); }
  }

  /** All items so far agree, and so does the stretch still growing. */
  ghost predicate PlanAgrees(t: Type, plan: Plan, m: seq<Cell>, p: nat, m': seq<Cell>, p': nat)
    requires t.Struct? && !Regular(t) && Holds(t, m, p) && Holds(t, m', p')
  {
    && SameRegion(m, p, m', p', plan.lo, plan.hi)
    && forall j | 0 <= j < |plan.items| :: ItemAgrees(t, plan.items[j], m, p, m', p')
  }

  lemma EmptyRegions(m: seq<Cell>, p: nat, m': seq<Cell>, p': nat, lo: nat, hi: nat)
    requires SameRegion(m, p, m', p', lo, hi)
    ensures lo <= hi && SameRegion(m, p, m', p', hi, hi)
  {
  }

  lemma PlanStepAgrees(t: Type, i: nat, was: Plan, m: seq<Cell>, p: nat, m': seq<Cell>, p': nat)
    requires t.Struct? && !Regular(t) && WellFormed(t) && Holds(t, m, p) && Holds(t, m', p') && i < |t.fields|
    requires PlanAgrees(t, was, m, p, m', p') && was.hi <= t.fields[i].offset
    requires t.fields[i].blank || FieldAgrees(t, i, m, p, m', p')
    ensures PlanAgrees(t, NextPlan(t, i, was), m, p, m', p')
  {
    hide Holds;
    hide Equal;
    hide FieldAgrees;
    hide SameRegion;
    hide WellFormed;
    EmptyRegions(m, p, m', p', was.lo, was.hi);
    var f := t.fields[i];
    if !f.blank && Regular(f.typ) {
      RegularField(t, i, m, p, m', p');
      if was.lo < was.hi == f.offset { JoinRegions(m, p, m', p', was.lo, was.hi, f.offset + Size(f.typ)); }
    }
  }

  lemma RegularField(t: Type, i: nat, m: seq<Cell>, p: nat, m': seq<Cell>, p': nat)
    requires t.Struct? && !Regular(t) && Holds(t, m, p) && Holds(t, m', p') && i < |t.fields|
    requires FieldAgrees(t, i, m, p, m', p') && Regular(t.fields[i].typ)
    ensures var f := t.fields[i]; SameRegion(m, p, m', p', f.offset, f.offset + Size(f.typ))
  {
  }

  lemma {:induction false} PlansAgree(t: Type, n: nat, m: seq<Cell>, p: nat, m': seq<Cell>, p': nat)
    requires t.Struct? && !Regular(t) && WellFormed(t) && Holds(t, m, p) && Holds(t, m', p') && n <= |t.fields|
    requires forall i: nat | i < n && !t.fields[i].blank :: FieldAgrees(t, i, m, p, m', p')
    ensures PlanAgrees(t, PlanUpTo(t, n), m, p, m', p')
    decreases n
  {
    hide Holds;
    hide FieldAgrees;
    hide ItemAgrees;
    hide NextPlan;
    if n == 0 {
      StructFits(t, m, p);
      StructFits(t, m', p');
    } else {
      PlansAgree(t, n - 1, m, p, m', p');
      PlanWithin(t, n - 1);
      PlanStepAgrees(t, n - 1, PlanUpTo(t, n - 1), m, p, m', p');
    }
  }

  lemma {:induction false} ItemsAgree(t: Type, items: seq<Item>, m: seq<Cell>, p: nat, m': seq<Cell>, p': nat,
                                      a: State, b: State, k: Routines)
    requires a.h == b.h && t.Struct? && !Regular(t) && WellFormed(t) && Holds(t, m, p) && Holds(t, m', p')
    requires forall j | 0 <= j < |items| :: ItemAgrees(t, items[j], m, p, m', p')
    ensures Agree(HashItems(t, items, m, p, a, k), HashItems(t, items, m', p', b, k), a, b)
    decreases m, t.fields, |items| + 1
  {
    hide Holds;
    hide Hash;
    hide HashItems;
    hide Equal;
    hide WellFormed;
    ItemsMore(t, [], Own(0), m, p, a, k);
    ItemsMore(t, [], Own(0), m', p', b, k);
    if items != [] {
      var n := |items| - 1;
      assert items[..n] + [items[n]] == items;
      ItemsAgree(t, items[..n], m, p, m', p', a, b, k);
      ItemsMore(t, items[..n], items[n], m, p, a, k);
      ItemsMore(t, items[..n], items[n], m', p', b, k);
      var x, y := HashItems(t, items[..n], m, p, a, k).value, HashItems(t, items[..n], m', p', b, k).value;
      if items[n].Own? {
        var i := items[n].i;
        FieldAt(t, i, m, p);
        FieldAt(t, i, m', p');
        EqualHashEqual(t.fields[i].typ, m, p + t.fields[i].offset, m', p' + t.fields[i].offset, x, y, k);
      }
    }
  }

  lemma AllItemsAgree(t: Type, m: seq<Cell>, p: nat, m': seq<Cell>, p': nat)
    requires t.Struct? && !Regular(t) && Holds(t, m, p) && Holds(t, m', p')
    requires PlanAgrees(t, PlanUpTo(t, |t.fields|), m, p, m', p')
    ensures forall j | 0 <= j < |Items(t)| :: ItemAgrees(t, Items(t)[j], m, p, m', p')
  {
    hide Holds;
    hide FieldAgrees;
    hide PlanUpTo;
  }

  lemma StructsAgree(t: Type, m: seq<Cell>, p: nat, m': seq<Cell>, p': nat, a: State, b: State, k: Routines)
    requires a.h == b.h && t.Struct? && !Regular(t) && WellFormed(t) && Holds(t, m, p) && Holds(t, m', p')
    requires EqualFields(t, |t.fields|, m, p, m', p') == Some(true)
    ensures Agree(HashItems(t, Items(t), m, p, a, k), HashItems(t, Items(t), m', p', b, k), a, b)
    decreases m, t.fields, |Items(t)| + 2
  {
    hide Size;
    hide WellFormed;
    hide Items;
    hide ItemAgrees;
    hide FieldAgrees;
    hide EqualFields;
    hide PlanUpTo;
    hide Holds;
    hide Hash;
    hide Equal;
    hide HashItems;
    FieldsAgree(t, |t.fields|, m, p, m', p');
    PlansAgree(t, |t.fields|, m, p, m', p');
    AllItemsAgree(t, m, p, m', p');
    ItemsAgree(t, Items(t), m, p, m', p', a, b, k);
  }

  // ---------- the hash, kind by kind ----------

  /** A complex number is hashed, and compared, as an array of its two parts, as the code has it. */
  lemma ComplexAsArray(t: Type, m: seq<Cell>, p: nat, st: State, k: Routines)
    requires (t == Complex64 || t == Complex128) && Holds(t, m, p)
    ensures var a := Array(2, if t == Complex64 then Float32 else Float64, false);
            Holds(a, m, p) && Hash(t, m, p, st, k) == Hash(a, m, p, st, k)
  {
    hide FloatHash;
    var e := if t == Complex64 then Float32 else Float64;
    var a := Array(2, e, false);
    assert ElemAt(p, 0, Size(e)) == p && ElemAt(p, 1, Size(e)) == p + Size(e);
    forall i: nat | i < 2 ensures Holds(e, m, ElemAt(p, i, Size(e))) {
      assert i == 0 || i == 1;
    }
    ElementsNone(a, m, p, st, k);
    ElementsMore(a, 0, m, p, st, k);
    ElementsMore(a, 1, m, p, HashElements(a, 0, m, p, st, k).value, k);
    assert HashElements(a, 1, m, p, st, k) == Hash(e, m, p, st, k);
    ElementsMore(a, 1, m, p, st, k);
  }

  lemma {:induction false} SameElements(a: Type, b: Type, n: nat, m: seq<Cell>, p: nat, st: State, k: Routines)
    requires a.Array? && b.Array? && !Regular(a) && !Regular(b) && a.elem == b.elem && n <= a.len && n <= b.len
    requires Holds(a, m, p) && Holds(b, m, p)
    ensures HashElements(a, n, m, p, st, k) == HashElements(b, n, m, p, st, k)
  {
    hide Hash;
    hide ElemAt;
    if n > 0 { SameElements(a, b, n - 1, m, p, st, k); }
  }

  /** The hash of an array is that of its first elements, and from there on that of the others. */
  lemma ArraySplits(e: Type, i: nat, j: nat, m: seq<Cell>, p: nat, st: State, k: Routines)
    requires Holds(Array(i + j, e, false), m, p)
    ensures Holds(Array(i, e, false), m, p) && Holds(Array(j, e, false), m, p + i * Size(e))
    ensures Hash(Array(i + j, e, false), m, p, st, k) ==
              match Hash(Array(i, e, false), m, p, st, k)
              case Some(x) => Hash(Array(j, e, false), m, p + i * Size(e), x, k)
              case None => None
  {
    hide *;
    PartsHold(e, i, j, m, p);
    var all, a, b := Array(i + j, e, false), Array(i, e, false), Array(j, e, false);
    NotRegular(all);
    NotRegular(a);
    NotRegular(b);
    var q := p + i * Size(e);
    HashOfArray(all, m, p, st, k);
    HashOfArray(a, m, p, st, k);
    var x := HashElements(a, i, m, p, st, k);
    if x.Some? { HashOfArray(b, m, q, x.value, k); }
    SameElements(a, all, i, m, p, st, k);
    if x == None {
      ElementsPanic(all, i, i + j, m, p, st, k);
    } else {
      TailElements(all, b, i, j, m, p, st, x.value, k);
    }
  }

  lemma NotRegular(t: Type)
    requires t.Array? && !t.regularArray
    ensures !Regular(t)
  {
  }

  lemma HashOfArray(t: Type, m: seq<Cell>, p: nat, st: State, k: Routines)
    requires t.Array? && !Regular(t) && Holds(t, m, p)
    ensures Hash(t, m, p, st, k) == HashElements(t, t.len, m, p, st, k)
  {
  }

  lemma PartsHold(e: Type, i: nat, j: nat, m: seq<Cell>, p: nat)
    requires Holds(Array(i + j, e, false), m, p)
    ensures Holds(Array(i, e, false), m, p) && Holds(Array(j, e, false), m, p + i * Size(e))
  {
    var size := Size(e);
    Distribute(i, j, size);
    SizeOfArray(i, e);
    SizeOfArray(j, e);
    SizeOfArray(i + j, e);
    FirstHold(e, i, j, m, p, size);
    LastHold(e, i, j, m, p, p + i * size, size);
    hide Size;
    hide ElemAt;
  }

  lemma FirstHold(e: Type, i: nat, j: nat, m: seq<Cell>, p: nat, size: nat)
    requires Holds(Array(i + j, e, false), m, p) && size == Size(e)
    ensures forall n: nat | n < i :: Holds(e, m, ElemAt(p, n, size))
  {
    hide Size;
    hide ElemAt;
  }

  lemma LastHold(e: Type, i: nat, j: nat, m: seq<Cell>, p: nat, q: nat, size: nat)
    requires Holds(Array(i + j, e, false), m, p) && size == Size(e) && q == p + i * size
    ensures forall n: nat | n < j :: Holds(e, m, ElemAt(q, n, size))
  {
    FirstHold(e, i + j, 0, m, p, size);
    hide Size;
    hide Holds;
    forall n: nat | n < j ensures Holds(e, m, ElemAt(q, n, size)) {
      Later(p, i, n, size);
      assert Holds(e, m, ElemAt(p, i + n, size));
    }
  }

  lemma SizeOfArray(n: nat, e: Type)
    ensures Size(Array(n, e, false)) == n * Size(e)
  {
  }

  lemma Distribute(i: nat, j: nat, size: nat)
    ensures (i + j) * size == i * size + j * size && i * size >= 0 && j * size >= 0
  {
  }

  /** Element n of the later part is element i + n of the whole. */
  lemma Later(p: nat, i: nat, n: nat, size: nat)
    ensures ElemAt(p, i + n, size) == ElemAt(p + i * size, n, size)
  {
    assert (i + n) * size == i * size + n * size;
  }

  lemma {:induction false} TailElements(
      all: Type, b: Type, i: nat, n: nat, m: seq<Cell>, p: nat, st: State, x: State, k: Routines)
    requires all.Array? && b.Array? && !Regular(all) && !Regular(b) && all.elem == b.elem
    requires i + n <= all.len && n <= b.len
    requires Holds(all, m, p) && Holds(b, m, p + i * Size(b.elem))
    requires HashElements(all, i, m, p, st, k) == Some(x)
    ensures HashElements(all, i + n, m, p, st, k) == HashElements(b, n, m, p + i * Size(b.elem), x, k)
    decreases n
  {
    hide Hash;
    hide HashElements;
    hide Holds;
    var q := p + i * Size(b.elem);
    if n == 0 {
      ElementsNone(b, m, q, x, k);
    } else {
      TailElements(all, b, i, n - 1, m, p, st, x, k);
      ElementsMore(all, i + n - 1, m, p, st, k);
      ElementsMore(b, n - 1, m, q, x, k);
      Later(p, i, n - 1, Size(b.elem));
    }
  }

  /** An array of one element is hashed as the element, the empty array not at all. */
  lemma ArrayOfOne(e: Type, m: seq<Cell>, p: nat, st: State, k: Routines)
    requires Holds(Array(1, e, false), m, p)
    ensures Holds(e, m, p) && Hash(Array(1, e, false), m, p, st, k) == Hash(e, m, p, st, k)
    ensures Holds(Array(0, e, false), m, p) && Hash(Array(0, e, false), m, p, st, k) == Some(st)
  {
    var a := Array(1, e, false);
    assert ElemAt(p, 0, Size(e)) == p;
    assert 0 * Size(e) == 0;
    ElementsNone(a, m, p, st, k);
    ElementsMore(a, 0, m, p, st, k);
    HashOfArray(a, m, p, st, k);
    HashOfArray(Array(0, e, false), m, p, st, k);
  }

  /** Strings go by their text, regular memory by its bytes, four and eight of them apart. */
  lemma PlainHash(t: Type, m: seq<Cell>, p: nat, st: State, k: Routines)
    requires Holds(t, m, p)
    ensures t.String? ==> Hash(t, m, p, st, k) == Some(State(k.str(m[p].s, st.h), st.drawn))
    ensures Regular(t) ==>
              var cells := m[p..p + Size(t)];
              Hash(t, m, p, st, k) == Some(State(if Size(t) == 4 then k.mem32(cells, st.h)
                                                 else if Size(t) == 8 then k.mem64(cells, st.h)
                                                 else k.mem(cells, st.h), st.drawn))
  {
  }

  /** Interfaces: nil changes nothing; otherwise the dynamic value, between two mixings with
      the constants of the compiler's own functions; a type that cannot be compared panics. */
  lemma InterfaceHash(m: seq<Cell>, p: nat, st: State, k: Routines)
    requires Holds(Interface, m, p)
    ensures m[p].NilInterface? ==> Hash(Interface, m, p, st, k) == Some(st)
    ensures m[p].Boxed? && !Comparable(m[p].t) ==> Hash(Interface, m, p, st, k) == None
    ensures m[p].Boxed? && Comparable(m[p].t) ==>
              match Hash(m[p].t, m[p].data, 0, State(st.h ^ 33054211828000289, st.drawn), k)
              case Some(inner) => Hash(Interface, m, p, st, k) == Some(State(Times(inner.h), inner.drawn))
              case None => Hash(Interface, m, p, st, k) == None
  {
    hide Times;
    assert Seeded(st) == State(st.h ^ 33054211828000289, st.drawn);
    hide Seeded;
    hide Spread;
  }

  /** A struct without padding, blank fields or fields hashed on their own: its bytes in one piece. */
  lemma OnePiece(n: nat, m: seq<Cell>, p: nat, st: State, k: Routines)
    requires n > 0 && Holds(Struct([Field(0, Plain(n), false)], n, false), m, p)
    ensures var t := Struct([Field(0, Plain(n), false)], n, false);
            Hash(t, m, p, st, k) == Some(State(k.mem(m[p..p + n], st.h), st.drawn))
  {
    var t := Struct([Field(0, Plain(n), false)], n, false);
    assert PlanUpTo(t, 1) == NextPlan(t, 0, PlanUpTo(t, 0)) == Plan([], 0, n);
    assert Items(t) == [] + [Region(0, n)];
    ItemsMore(t, [], Region(0, n), m, p, st, k);
  }

  /** A struct with a single field that is hashed on its own is hashed as that field. */
  lemma OneField(f: Type, m: seq<Cell>, p: nat, st: State, k: Routines)
    requires !Regular(f) && Holds(Struct([Field(0, f, false)], Size(f), false), m, p)
    ensures Holds(f, m, p) && Hash(Struct([Field(0, f, false)], Size(f), false), m, p, st, k) == Hash(f, m, p, st, k)
  {
    var t := Struct([Field(0, f, false)], Size(f), false);
    assert t.fields[0].offset == 0 && Holds(t.fields[0].typ, m, p + t.fields[0].offset);
    assert PlanUpTo(t, 1) == NextPlan(t, 0, PlanUpTo(t, 0)) == Plan([] + [Own(0)], 0, 0);
    assert Items(t) == [] + [Own(0)];
    hide Hash;
    ItemsMore(t, [], Own(0), m, p, st, k);
    HashOfStruct(t, m, p, st, k);
  }

  lemma HashOfStruct(t: Type, m: seq<Cell>, p: nat, st: State, k: Routines)
    requires t.Struct? && !Regular(t) && Holds(t, m, p)
    ensures Hash(t, m, p, st, k) == HashItems(t, Items(t), m, p, st, k)
  {
  }

  /** Where an item begins. */
  function Begins(t: Type, item: Item): nat
    requires t.Struct?
  {
    match item case Region(lo, _) => lo case Own(i) => if i < |t.fields| then t.fields[i].offset else 0
  }

  ghost predicate InOrder(t: Type, items: seq<Item>)
    requires t.Struct?
  {
    forall i, j | 0 <= i < j < |items| :: Begins(t, items[i]) <= Begins(t, items[j])
  }

  ghost predicate NoneBeyond(t: Type, items: seq<Item>, bound: nat)
    requires t.Struct?
  {
    forall i | 0 <= i < |items| :: Begins(t, items[i]) <= bound
  }

  /** Items are hashed in the order of memory. */
  lemma ItemsInOrder(t: Type)
    requires t.Struct? && WellFormed(t)
    ensures InOrder(t, Items(t))
  {
    OrderUpTo(t, |t.fields|);
  }

  lemma {:induction false} OrderUpTo(t: Type, n: nat)
    requires t.Struct? && WellFormed(t) && n <= |t.fields|
    ensures var plan := PlanUpTo(t, n);
            && InOrder(t, plan.items) && (plan.hi > plan.lo ==> NoneBeyond(t, plan.items, plan.lo))
            && forall i: nat | n <= i < |t.fields| :: NoneBeyond(t, plan.items, t.fields[i].offset)
  {
    if n > 0 {
      OrderUpTo(t, n - 1);
      PlanWithin(t, n - 1);
      hide PlanUpTo;
      OrderStep(t, n - 1, PlanUpTo(t, n - 1));
      assert PlanUpTo(t, n) == NextPlan(t, n - 1, PlanUpTo(t, n - 1)) by { PlanUnfolds(t, n); }
    }
  }

  lemma PlanUnfolds(t: Type, n: nat)
    requires t.Struct? && 0 < n <= |t.fields|
    ensures PlanUpTo(t, n) == NextPlan(t, n - 1, PlanUpTo(t, n - 1))
  {
  }

  lemma OrderStep(t: Type, i: nat, was: Plan)
    requires t.Struct? && WellFormed(t) && i < |t.fields| && was.lo <= was.hi <= t.fields[i].offset
    requires InOrder(t, was.items) && (was.hi > was.lo ==> NoneBeyond(t, was.items, was.lo))
    requires NoneBeyond(t, was.items, t.fields[i].offset)
    ensures var now := NextPlan(t, i, was);
            && InOrder(t, now.items) && (now.hi > now.lo ==> NoneBeyond(t, now.items, now.lo))
            && forall j: nat | i < j < |t.fields| :: NoneBeyond(t, now.items, t.fields[j].offset)
  {
    assert forall j: nat | i < j < |t.fields| :: t.fields[i].offset <= t.fields[j].offset;
    hide WellFormed;
  }

  /** Floats, by their bits: zeros of both signs have one hash, every NaN draws a random number
      for its own, and all others are hashed as their bytes. */
  lemma FloatsByBits(w: nat, m: seq<Cell>, p: nat, st: State, k: Routines)
    requires (w == 4 || w == 8) && p + w <= |m| && Holds(if w == 4 then Float32 else Float64, m, p)
    ensures var x := Pattern(w, m, p) % (if w == 4 then 0x8000_0000 else 0x8000_0000_0000_0000);
            var infinity := if w == 4 then 0x7F80_0000 else 0x7FF0_0000_0000_0000;
            Hash(if w == 4 then Float32 else Float64, m, p, st, k) == Some(
              if x == 0 then State(Mixed(st.h), st.drawn)
              else if x > infinity then State(Mixed(st.h ^ k.fastrand(st.drawn)), st.drawn + 1)
              else State(k.mem(m[p..p + w], st.h), st.drawn))
  {
    hide Mixed;
    hide Pattern;
    hide IsZero;
    hide IsNaN;
    FloatPatterns(w, m, p);
  }

  // ---------- equality, kind by kind ----------

  lemma ComplexEqual(t: Type, m: seq<Cell>, p: nat, m': seq<Cell>, p': nat)
    requires (t == Complex64 || t == Complex128) && Holds(t, m, p) && Holds(t, m', p')
    ensures var w := if t == Complex64 then 4 else 8;
            Equal(t, m, p, m', p') == Some(true) <==>
              FloatEqual(w, m, p, m', p') && FloatEqual(w, m, p + w, m', p' + w)
    ensures Equal(t, m, p, m', p').Some?
  {
  }

  /** Arrays are equal if and only if all their elements are. */
  lemma ArrayEqual(t: Type, m: seq<Cell>, p: nat, m': seq<Cell>, p': nat)
    requires t.Array? && !Regular(t) && Holds(t, m, p) && Holds(t, m', p')
    ensures Equal(t, m, p, m', p') == Some(true) <==>
              forall i: nat | i < t.len ::
                Equal(t.elem, m, ElemAt(p, i, Size(t.elem)), m', ElemAt(p', i, Size(t.elem))) == Some(true)
  {
    ElementsEqual(t, t.len, m, p, m', p');
    hide EqualElements;
    hide ElemAt;
  }

  lemma EqualStep(t: Type, n: nat, m: seq<Cell>, p: nat, m': seq<Cell>, p': nat)
    requires t.Array? && !Regular(t) && n < t.len && Holds(t, m, p) && Holds(t, m', p')
    ensures Holds(t.elem, m, ElemAt(p, n, Size(t.elem))) && Holds(t.elem, m', ElemAt(p', n, Size(t.elem)))
    ensures EqualElements(t, n + 1, m, p, m', p') == Some(true) <==>
              && EqualElements(t, n, m, p, m', p') == Some(true)
              && Equal(t.elem, m, ElemAt(p, n, Size(t.elem)), m', ElemAt(p', n, Size(t.elem))) == Some(true)
  {
    hide Equal;
    hide ElemAt;
    hide Size;
  }

  lemma {:induction false} ElementsEqual(t: Type, n: nat, m: seq<Cell>, p: nat, m': seq<Cell>, p': nat)
    requires t.Array? && !Regular(t) && n <= t.len && Holds(t, m, p) && Holds(t, m', p')
    ensures EqualElements(t, n, m, p, m', p') == Some(true) <==>
              forall i: nat | i < n ::
                Equal(t.elem, m, ElemAt(p, i, Size(t.elem)), m', ElemAt(p', i, Size(t.elem))) == Some(true)
  {
    hide Equal;
    hide ElemAt;
    hide Size;
    if n > 0 {
      ElementsEqual(t, n - 1, m, p, m', p');
      EqualStep(t, n - 1, m, p, m', p');
    }
  }

  /** Structs are equal if and only if all their fields but the blank ones are. */
  lemma StructEqual(t: Type, m: seq<Cell>, p: nat, m': seq<Cell>, p': nat)
    requires t.Struct? && !Regular(t) && Holds(t, m, p) && Holds(t, m', p')
    ensures Equal(t, m, p, m', p') == Some(true) <==>
              forall i: nat | i < |t.fields| && !t.fields[i].blank :: FieldAgrees(t, i, m, p, m', p')
  {
    FieldsEqual(t, |t.fields|, m, p, m', p');
    hide EqualFields;
    hide FieldAgrees;
  }

  lemma {:induction false} FieldsEqual(t: Type, n: nat, m: seq<Cell>, p: nat, m': seq<Cell>, p': nat)
    requires t.Struct? && !Regular(t) && n <= |t.fields| && Holds(t, m, p) && Holds(t, m', p')
    ensures EqualFields(t, n, m, p, m', p') == Some(true) <==>
              forall i: nat | i < n && !t.fields[i].blank :: FieldAgrees(t, i, m, p, m', p')
  {
    hide Equal;
    if n > 0 { FieldsEqual(t, n - 1, m, p, m', p'); }
  }

  /** Interfaces are equal if both are nil, or if they hold equal values of one type; comparing
      two values of one type that cannot be compared panics. */
  lemma InterfaceEqual(m: seq<Cell>, p: nat, m': seq<Cell>, p': nat)
    requires Holds(Interface, m, p) && Holds(Interface, m', p')
    ensures m[p].NilInterface? || m'[p'].NilInterface? ==>
              Equal(Interface, m, p, m', p') == Some(m[p].NilInterface? && m'[p'].NilInterface?)
    ensures m[p].Boxed? && m'[p'].Boxed? && m[p].t != m'[p'].t ==> Equal(Interface, m, p, m', p') == Some(false)
    ensures m[p].Boxed? && m'[p'].Boxed? && m[p].t == m'[p'].t ==>
              Equal(Interface, m, p, m', p') ==
                if !Comparable(m[p].t) then None else Equal(m[p].t, m[p].data, 0, m'[p'].data, 0)
  {
  }

  /** Strings are compared by their text, and regular memory by its bytes. */
  lemma PlainEqual(t: Type, m: seq<Cell>, p: nat, m': seq<Cell>, p': nat)
    requires Holds(t, m, p) && Holds(t, m', p')
    ensures t.String? ==> Equal(t, m, p, m', p') == Some(m[p].s == m'[p'].s)
    ensures Regular(t) ==> Equal(t, m, p, m', p') == Some(m[p..p + Size(t)] == m'[p'..p' + Size(t)])
    ensures t == Float32 ==> Equal(t, m, p, m', p') == Some(FloatEqual(4, m, p, m', p'))
    ensures t == Float64 ==> Equal(t, m, p, m', p') == Some(FloatEqual(8, m, p, m', p'))
  {
    hide FloatEqual;
  }

  /** The bits of a float as a number, least significant byte first. */
  function Pattern(w: nat, m: seq<Cell>, p: nat): nat
    requires (w == 4 || w == 8) && p + w <= |m|
  {
    var low: nat := At(m, p, 0) + 0x100 * At(m, p, 1) + 0x1_0000 * At(m, p, 2) + 0x100_0000 * At(m, p, 3);
    if w == 4 then low
    else
      low + 0x1_0000_0000 * (At(m, p, 4) + 0x100 * At(m, p, 5) + 0x1_0000 * At(m, p, 6) + 0x100_0000 * At(m, p, 7))
  }

  /** Without the sign bit, zero is 0, and a NaN is anything beyond infinity, as IEEE 754 has it. */
  lemma FloatPatterns(w: nat, m: seq<Cell>, p: nat)
    requires (w == 4 || w == 8) && p + w <= |m|
    ensures var x := Pattern(w, m, p) % (if w == 4 then 0x8000_0000 else 0x8000_0000_0000_0000);
            && (IsZero(w, m, p) <==> x == 0)
            && (IsNaN(w, m, p) <==> x > if w == 4 then 0x7F80_0000 else 0x7FF0_0000_0000_0000)
  {
    if w == 4 { FloatPattern4(m, p); } else { FloatPattern8(m, p); }
  }

  lemma FloatPattern4(m: seq<Cell>, p: nat)
    requires p + 4 <= |m|
    ensures IsZero(4, m, p) <==> Pattern(4, m, p) % 0x8000_0000 == 0
    ensures IsNaN(4, m, p) <==> Pattern(4, m, p) % 0x8000_0000 > 0x7F80_0000
  {
    hide At;
    var a: int, b: int, c: int, d: int := At(m, p, 0), At(m, p, 1), At(m, p, 2), At(m, p, 3);
    var x := a + 0x100 * b + 0x1_0000 * c + 0x100_0000 * (d % 0x80);
    assert Pattern(4, m, p) == x + 0x8000_0000 * (d / 0x80);
    assert Pattern(4, m, p) % 0x8000_0000 == x;
    forall i: nat | i < 3 ensures At(m, p, i) == if i == 0 then a else if i == 1 then b else c {}
  }

  lemma FloatPattern8(m: seq<Cell>, p: nat)
    requires p + 8 <= |m|
    ensures IsZero(8, m, p) <==> Pattern(8, m, p) % 0x8000_0000_0000_0000 == 0
    ensures IsNaN(8, m, p) <==> Pattern(8, m, p) % 0x8000_0000_0000_0000 > 0x7FF0_0000_0000_0000
  {
    hide At;
    var a: int, b: int, c: int, h: int := At(m, p, 0), At(m, p, 1), At(m, p, 2), At(m, p, 3);
    var e: int, f: int, g: int, d: int := At(m, p, 4), At(m, p, 5), At(m, p, 6), At(m, p, 7);
    var low := a + 0x100 * b + 0x1_0000 * c + 0x100_0000 * h;
    var x := low + 0x1_0000_0000 * (e + 0x100 * f + 0x1_0000 * g + 0x100_0000 * (d % 0x80));
    assert Pattern(8, m, p) == x + 0x8000_0000_0000_0000 * (d / 0x80);
    assert Pattern(8, m, p) % 0x8000_0000_0000_0000 == x;
    forall i: nat | i < 7
      ensures At(m, p, i) == if i == 0 then a else if i == 1 then b else if i == 2 then c else if i == 3 then h
                             else if i == 4 then e else if i == 5 then f else g
    {
    }
  }
}

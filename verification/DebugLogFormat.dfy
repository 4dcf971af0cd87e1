/** runtime/debuglog.go: the bytes of a debug log.  A record is a two-byte frame (its size,
    little endian) and a sequence of fields; size 0 marks a sync record that sets a new time
    base.  Times in ordinary records are stored as differences from the base. */
module DebugLogFormat {
  import opened Basics

  type int64 = x: int | -0x8000_0000_0000_0000 <= x < 0x8000_0000_0000_0000

  // ---------- little-endian numbers ----------

  function LE(x: nat, n: nat): (b: seq<byte>)
    ensures |b| == n
  {
    if n == 0 then [] else [x % 0x100] + LE(x / 0x100, n - 1)
  }

  lemma LE2(v: nat)
    requires v < 0x1_0000
    ensures LE(v, 2) == [v % 0x100, v / 0x100]
  {
    assert LE(v, 2) == [v % 0x100] + LE(v / 0x100, 1);
    assert LE(v / 0x100, 1) == [v / 0x100 % 0x100] + LE(v / 0x100 / 0x100, 0);
  }

  /** Eight bytes taken apart by shifts are the little-endian form, and put together again
      by shifts they are the number. */
  lemma LE8(v: uint64, v1: nat, v2: nat, v3: nat, v4: nat, v5: nat, v6: nat, v7: nat)
    requires v1 == v / 0x100 && v2 == v1 / 0x100 && v3 == v2 / 0x100 && v4 == v3 / 0x100
    requires v5 == v4 / 0x100 && v6 == v5 / 0x100 && v7 == v6 / 0x100
    ensures LE(v, 8) == [v % 0x100, v1 % 0x100, v2 % 0x100, v3 % 0x100, v4 % 0x100, v5 % 0x100, v6 % 0x100, v7 % 0x100]
    ensures v == v % 0x100 + 0x100 * (v1 % 0x100) + 0x1_0000 * (v2 % 0x100) + 0x100_0000 * (v3 % 0x100)
                 + 0x1_0000_0000 * (v4 % 0x100) + 0x100_0000_0000 * (v5 % 0x100)
                 + 0x1_0000_0000_0000 * (v6 % 0x100) + 0x100_0000_0000_0000 * (v7 % 0x100)
  {
    assert LE(v, 8) == [v % 0x100] + LE(v1, 7);
    assert LE(v1, 7) == [v1 % 0x100] + LE(v2, 6);
    assert LE(v2, 6) == [v2 % 0x100] + LE(v3, 5);
    assert LE(v3, 5) == [v3 % 0x100] + LE(v4, 4);
    assert LE(v4, 4) == [v4 % 0x100] + LE(v5, 3);
    assert LE(v5, 3) == [v5 % 0x100] + LE(v6, 2);
    assert LE(v6, 2) == [v6 % 0x100] + LE(v7, 1);
    assert LE(v7, 1) == [v7 % 0x100] + LE(v7 / 0x100, 0);
  }

  // ---------- variable-length numbers ----------

  function Uvarint(u: nat): (b: seq<byte>)
    ensures b != []
  {
    if u < 0x80 then [u] else [u % 0x80 + 0x80] + Uvarint(u / 0x80)
  }

  /** Zig-zag: small magnitudes of either sign become small unsigned numbers. */
  function Zigzag(x: int64): uint64 { if x < 0 then 2 * (-1 - x) + 1 else 2 * x }

  function Unzigzag(u: uint64): int64 { if u % 2 == 0 then u / 2 else -(u / 2) - 1 }

  lemma ZigzagRoundTrip(x: int64, u: uint64)
    ensures Unzigzag(Zigzag(x)) == x
    ensures Zigzag(Unzigzag(u)) == u
  {
  }

  /** Numbers of either sign that are small in magnitude take few bytes: n bytes are enough for
      those whose double would be. */
  lemma ZigzagSmall(x: int64, n: nat)
    requires n > 0
    ensures |Uvarint(Zigzag(x))| <= n <==> -2 * x <= Limit(n) && 2 * x < Limit(n)
  {
    LimitEven(n);
    if Zigzag(x) < Limit(n) { UvarintFits(Zigzag(x), n); } else { UvarintNeeds(Zigzag(x), n); }
  }

  lemma {:induction false} LimitEven(n: nat)
    requires n > 0
    ensures Limit(n) % 2 == 0
  {
    if n > 1 { LimitEven(n - 1); }
  }

  /** No uint64 takes more than ten bytes, the size of the writer's scratch buffer. */
  lemma UvarintSize(u: nat)
    requires u < MOD64
    ensures |Uvarint(u)| <= 10
  {
    UvarintFits(u, 10);
  }

  function Limit(n: nat): nat
    requires n > 0
  {
    if n == 1 then 0x80 else 0x80 * Limit(n - 1)
  }

  lemma {:induction false} UvarintFits(u: nat, n: nat)
    requires n > 0 && u < Limit(n)
    ensures |Uvarint(u)| <= n
  {
    if u >= 0x80 { UvarintFits(u / 0x80, n - 1); }
  }

  /** And no fewer bytes do. */
  lemma {:induction false} UvarintNeeds(u: nat, n: nat)
    requires n > 0 && u >= Limit(n)
    ensures |Uvarint(u)| > n
  {
    if n > 1 {
      UvarintNeeds(u / 0x80, n - 1);
    } else {
      assert |Uvarint(u / 0x80)| > 0;
    }
  }

  // ---------- fields and records ----------

  datatype Field =
    | BoolTrue | BoolFalse
    | Int(x: int64) | Uint(u: uint64) | Hex(u: uint64) | Pointer(u: uint64)
    | String(s: seq<byte>) | ConstString(len: uint64, off: uint64) | StringOverflow(u: uint64)
    | PC(u: uint64) | Traceback(pcs: seq<uint64>)

  function Uvarints(us: seq<uint64>): seq<byte>
  {
    if us == [] then [] else Uvarints(us[..|us| - 1]) + Uvarint(us[|us| - 1])
  }

  lemma UvarintsStep(us: seq<uint64>, i: nat)
    requires i < |us|
    ensures Uvarints(us[..i + 1]) == Uvarints(us[..i]) + Uvarint(us[i])
    ensures |Uvarints(us[..i + 1])| <= |Uvarints(us)|
  {
    assert us[..i + 1][..i] == us[..i];
    UvarintsPrefix(us, i + 1);
  }

  lemma {:induction false} UvarintsPrefix(us: seq<uint64>, i: nat)
    requires i <= |us|
    ensures |Uvarints(us[..i])| <= |Uvarints(us)|
  {
    if i == |us| {
      assert us[..i] == us;
    } else {
      UvarintsPrefix(us[..|us| - 1], i);
      assert us[..|us| - 1][..i] == us[..i];
    }
  }

  /** The type code debugLogBoolTrue..debugLogTraceback, then the data. */
  function FieldBytes(f: Field): (b: seq<byte>)
    ensures b != []
  {
    match f
    case BoolTrue => [2]
    case BoolFalse => [3]
    case Int(x) => [4] + Uvarint(Zigzag(x))
    case Uint(u) => [5] + Uvarint(u)
    case Hex(u) => [6] + Uvarint(u)
    case Pointer(u) => [7] + Uvarint(u)
    case String(s) => [8] + Uvarint(|s|) + s
    case ConstString(len, off) => [9] + Uvarint(len) + Uvarint(off)
    case StringOverflow(u) => [10] + Uvarint(u)
    case PC(u) => [11] + Uvarint(u)
    case Traceback(pcs) => [12] + Uvarint(|pcs|) + Uvarints(pcs)
  }

  function FieldsBytes(fs: seq<Field>): seq<byte>
  {
    if fs == [] then [] else FieldsBytes(fs[..|fs| - 1]) + FieldBytes(fs[|fs| - 1])
  }

  lemma NoFields(fs: seq<Field>)
    ensures FieldsBytes(fs) == [] <==> fs == []
  {
  }

  /** A message as it was logged: absolute times, the processor, the values. */
  datatype Entry = Entry(tick: uint64, nano: uint64, p: int64, fields: seq<Field>)

  datatype Rec = Sync(tick: uint64, nano: uint64) | Message(e: Entry)

  datatype Base = Base(tick: uint64, nano: uint64)

  function Minus(a: uint64, b: uint64): uint64 { if a >= b then a - b else a - b + MOD64 }

  function Plus(a: uint64, b: uint64): uint64 { (a + b) % MOD64 }

  lemma TimeRoundTrip(t: uint64, b: uint64)
    ensures Plus(Minus(t, b), b) == t
  {
  }

  function HeaderBytes(e: Entry, base: Base): seq<byte>
  {
    Uvarint(Minus(e.tick, base.tick)) + Uvarint(Minus(e.nano, base.nano)) + Uvarint(Zigzag(e.p))
  }

  function Payload(e: Entry, base: Base): seq<byte> { HeaderBytes(e, base) + FieldsBytes(e.fields) }

  function RecBytes(r: Rec, base: Base): (b: seq<byte>)
    ensures |b| >= 2
  {
    match r
    case Sync(tick, nano) => LE(0, 2) + LE(tick, 8) + LE(nano, 8)
    case Message(e) => LE(2 + |Payload(e, base)|, 2) + Payload(e, base)
  }

  function BaseAfter(r: Rec, base: Base): Base { if r.Sync? then Base(r.tick, r.nano) else base }

  /** A whole log, read from the given time base on. */
  function LogBytes(rs: seq<Rec>, base: Base): seq<byte>
  {
    if rs == [] then [] else RecBytes(rs[0], base) + LogBytes(rs[1..], BaseAfter(rs[0], base))
  }

  /** The time base a reader that started from `base` has reached. */
  function BaseFrom(rs: seq<Rec>, base: Base): Base
  {
    if rs == [] then base else BaseFrom(rs[1..], BaseAfter(rs[0], base))
  }

  lemma {:induction false} LogBytesAppend(rs: seq<Rec>, r: Rec, base: Base)
    ensures LogBytes(rs + [r], base) == LogBytes(rs, base) + RecBytes(r, BaseFrom(rs, base))
    ensures BaseFrom(rs + [r], base) == BaseAfter(r, BaseFrom(rs, base))
  {
    hide RecBytes;
    if rs == [] {
      assert [r][1..] == [] && [] + [r] == [r];
    } else {
      LogBytesAppend(rs[1..], r, BaseAfter(rs[0], base));
      assert (rs + [r])[1..] == rs[1..] + [r];
    }
  }

  function Entries(rs: seq<Rec>): seq<Entry>
  {
    if rs == [] then []
    else (if rs[0].Message? then [rs[0].e] else []) + Entries(rs[1..])
  }

  lemma {:induction false} BaseFromAppend(a: seq<Rec>, b: seq<Rec>, base: Base)
    ensures BaseFrom(a + b, base) == BaseFrom(b, BaseFrom(a, base))
  {
    if a == [] {
      assert a + b == b;
    } else {
      BaseFromAppend(a[1..], b, BaseAfter(a[0], base));
      assert (a + b)[1..] == a[1..] + b;
    }
  }

  lemma PayloadAppend(e: Entry, f: Field, base: Base)
    ensures Payload(e.(fields := e.fields + [f]), base) == Payload(e, base) + FieldBytes(f)
  {
    hide Uvarint;
    hide FieldBytes;
    assert (e.fields + [f])[..|e.fields|] == e.fields;
    assert FieldsBytes(e.fields + [f]) == FieldsBytes(e.fields) + FieldBytes(f);
  }

  lemma {:induction false} FieldsFront(fs: seq<Field>)
    requires fs != []
    ensures FieldsBytes(fs) == FieldBytes(fs[0]) + FieldsBytes(fs[1..])
  {
    hide FieldBytes;
    var n := |fs| - 1;
    if n == 0 {
      assert fs[..n] == [] && fs[1..] == [];
    } else {
      FieldsFront(fs[..n]);
      assert fs[..n][1..] == fs[1..][..n - 1] && fs[1..][n - 1] == fs[n];
      var a, b, c := FieldBytes(fs[0]), FieldsBytes(fs[1..][..n - 1]), FieldBytes(fs[n]);
      assert FieldsBytes(fs) == (a + b) + c && FieldsBytes(fs[1..]) == b + c;
      assert (a + b) + c == a + (b + c);
    }
  }

  lemma {:induction false} UvarintsFront(us: seq<uint64>)
    requires us != []
    ensures Uvarints(us) == Uvarint(us[0]) + Uvarints(us[1..])
  {
    hide Uvarint;
    var n := |us| - 1;
    if n == 0 {
      assert us[..n] == [] && us[1..] == [];
    } else {
      UvarintsFront(us[..n]);
      assert us[..n][1..] == us[1..][..n - 1] && us[1..][n - 1] == us[n];
      var a, b, c := Uvarint(us[0]), Uvarints(us[1..][..n - 1]), Uvarint(us[n]);
      assert Uvarints(us) == (a + b) + c && Uvarints(us[1..]) == b + c;
      assert (a + b) + c == a + (b + c);
    }
  }

  lemma {:induction false} UvarintsLong(us: seq<uint64>)
    ensures |us| <= |Uvarints(us)|
  {
    if us != [] { UvarintsLong(us[..|us| - 1]); }
  }

  /** The records after the leading sync records, and the time base there. */
  function PastSyncs(rs: seq<Rec>): (r: seq<Rec>)
    ensures r != [] ==> r[0].Message?
  {
    if rs != [] && rs[0].Sync? then PastSyncs(rs[1..]) else rs
  }

  /** printDebugLog takes a message whose tick is the largest uint64 for the end of the log. */
  function Shown(es: seq<Entry>): seq<Entry>
  {
    if es == [] || es[0].tick == MOD64 - 1 then [] else [es[0]] + Shown(es[1..])
  }

  lemma {:induction false} AllShown(es: seq<Entry>)
    ensures Shown(es) == es <==> forall i | 0 <= i < |es| :: es[i].tick != MOD64 - 1
  {
    if es != [] {
      AllShown(es[1..]);
      assert forall i | 0 < i < |es| :: es[i] == es[1..][i - 1];
      assert es == [es[0]] + es[1..];
    }
  }

  /** A message with that tick hides itself and whatever its log holds after it. */
  lemma {:induction false} ShownUpTo(a: seq<Entry>, e: Entry, b: seq<Entry>)
    requires e.tick == MOD64 - 1 && forall i | 0 <= i < |a| :: a[i].tick != MOD64 - 1
    ensures Shown(a + [e] + b) == a
  {
    if a == [] {
      assert (a + [e] + b)[0] == e;
    } else {
      ShownUpTo(a[1..], e, b);
      assert (a + [e] + b)[1..] == a[1..] + [e] + b && (a + [e] + b)[0] == a[0];
    }
  }

  /** Three messages logged, one shown. */
  lemma LastTickHides()
    ensures var a, e, b := Entry(1, 0, 0, [BoolTrue]), Entry(MOD64 - 1, 0, 0, [BoolTrue]), Entry(2, 0, 0, [BoolTrue]);
            Shown([e]) == [] && Shown([a, e, b]) == [a]
  {
    var a, e, b := Entry(1, 0, 0, [BoolTrue]), Entry(MOD64 - 1, 0, 0, [BoolTrue]), Entry(2, 0, 0, [BoolTrue]);
    ShownUpTo([a], e, [b]);
    assert [a] + [e] + [b] == [a, e, b];
  }

  lemma MessageBytes(e: Entry, base: Base)
    ensures RecBytes(Message(e), base) == LE(2 + |Payload(e, base)|, 2) + Payload(e, base)
    ensures Payload(e, base) == Uvarint(Minus(e.tick, base.tick))
                                + (Uvarint(Minus(e.nano, base.nano)) + (Uvarint(Zigzag(e.p)) + FieldsBytes(e.fields)))
  {
    hide Uvarint;
    hide FieldsBytes;
    hide LE;
    var t, n, p, fs := Uvarint(Minus(e.tick, base.tick)), Uvarint(Minus(e.nano, base.nano)), Uvarint(Zigzag(e.p)),
      FieldsBytes(e.fields);
    assert ((t + n) + p) + fs == t + (n + (p + fs));
  }

  /** The type codes debugLogBoolTrue..debugLogTraceback. */
  function Code(f: Field): byte
  {
    match f
    case BoolTrue => 2
    case BoolFalse => 3
    case Int(_) => 4
    case Uint(_) => 5
    case Hex(_) => 6
    case Pointer(_) => 7
    case String(_) => 8
    case ConstString(_, _) => 9
    case StringOverflow(_) => 10
    case PC(_) => 11
    case Traceback(_) => 12
  }

  lemma FieldLayout(f: Field)
    ensures FieldBytes(f)[0] == Code(f)
    ensures f.String? ==> FieldBytes(f) == [Code(f)] + (Uvarint(|f.s|) + f.s)
    ensures f.ConstString? ==> FieldBytes(f) == [Code(f)] + (Uvarint(f.len) + Uvarint(f.off))
    ensures f.Traceback? ==> FieldBytes(f) == [Code(f)] + (Uvarint(|f.pcs|) + Uvarints(f.pcs))
    ensures f.Int? ==> FieldBytes(f) == [Code(f)] + Uvarint(Zigzag(f.x))
    ensures f.Uint? || f.Hex? || f.Pointer? || f.StringOverflow? || f.PC? ==> FieldBytes(f) == [Code(f)] + Uvarint(f.u)
    ensures f.BoolTrue? || f.BoolFalse? ==> FieldBytes(f) == [Code(f)]
  {
    hide Uvarint;
    hide Uvarints;
    match f
    case String(s) => assert ([8] + Uvarint(|s|)) + s == [8] + (Uvarint(|s|) + s);
    case ConstString(len, off) => assert ([9] + Uvarint(len)) + Uvarint(off) == [9] + (Uvarint(len) + Uvarint(off));
    case Traceback(pcs) => assert ([12] + Uvarint(|pcs|)) + Uvarints(pcs) == [12] + (Uvarint(|pcs|) + Uvarints(pcs));
    case _ =>
  }
}

/** runtime/debuglog.go: the overwriting ring of records, its writer and the reader embedded
    in it that always stands where a log reader would have to start. */
module DebugLog {
  import opened Basics
  import opened DebugLogFormat

  const RING := 16384                  // debugLogBytes
  const HEADER := 2                    // debugLogHeaderSize
  const SYNC := 18                     // debugLogSyncSize
  const LIMIT := 0x1F_FFFF             // deltaLimit
  const NOTHING := MOD64 - 1           // ^uint64(0)

  /** The bytes at positions lo..hi of the log, positions counting from its very start. */
  ghost function Window(s: seq<byte>, lo: nat, hi: nat): (w: seq<byte>)
    requires |s| == RING && lo <= hi
    ensures |w| == hi - lo
    ensures forall i | 0 <= i < hi - lo :: w[i] == s[(lo + i) % RING]
  {
    if lo == hi then [] else Window(s, lo, hi - 1) + [s[(hi - 1) % RING]]
  }

  lemma WindowSplit(s: seq<byte>, lo: nat, mid: nat, hi: nat)
    requires |s| == RING && lo <= mid <= hi
    ensures Window(s, lo, hi) == Window(s, lo, mid) + Window(s, mid, hi)
  {
  }

  lemma WindowParts(s: seq<byte>, lo: nat, hi: nat, b: seq<byte>, rest: seq<byte>)
    requires |s| == RING && lo <= hi && Window(s, lo, hi) == b + rest
    ensures lo + |b| <= hi && Window(s, lo, lo + |b|) == b && Window(s, lo + |b|, hi) == rest
  {
    var w := Window(s, lo, hi);
    WindowSplit(s, lo, lo + |b|, hi);
    assert w[..|b|] == b && w[|b|..] == rest;
    assert w[..|b|] == Window(s, lo, lo + |b|) && w[|b|..] == Window(s, lo + |b|, hi);
  }

  /** The payload of message e lies at positions at..stop: tick, nano, processor, values. */
  ghost predicate MessageAt(s: seq<byte>, at: nat, stop: nat, e: Entry, base: Base)
    requires |s| == RING
  {
    var t, n, p := Uvarint(Minus(e.tick, base.tick)), Uvarint(Minus(e.nano, base.nano)), Uvarint(Zigzag(e.p));
    && at + |t| + |n| + |p| <= stop
    && Window(s, at, at + |t|) == t
    && Window(s, at + |t|, at + |t| + |n|) == n
    && Window(s, at + |t| + |n|, at + |t| + |n| + |p|) == p
    && Window(s, at + |t| + |n| + |p|, stop) == FieldsBytes(e.fields)
  }

  lemma FourParts(s: seq<byte>, at: nat, stop: nat, t: seq<byte>, n: seq<byte>, p: seq<byte>, f: seq<byte>)
    requires |s| == RING && at <= stop && Window(s, at, stop) == t + (n + (p + f))
    ensures at + |t| + |n| + |p| <= stop
    ensures Window(s, at, at + |t|) == t
    ensures Window(s, at + |t|, at + |t| + |n|) == n
    ensures Window(s, at + |t| + |n|, at + |t| + |n| + |p|) == p
    ensures Window(s, at + |t| + |n| + |p|, stop) == f
  {
    WindowParts(s, at, stop, t, n + (p + f));
    WindowParts(s, at + |t|, stop, n, p + f);
    WindowParts(s, at + |t| + |n|, stop, p, f);
  }

  lemma PayloadAt(s: seq<byte>, at: nat, stop: nat, e: Entry, base: Base)
    requires |s| == RING && at <= stop && Window(s, at, stop) == Payload(e, base)
    ensures MessageAt(s, at, stop, e, base)
  {
    hide Window;
    hide Uvarint;
    hide FieldsBytes;
    MessageBytes(e, base);
    FourParts(s, at, stop, Uvarint(Minus(e.tick, base.tick)), Uvarint(Minus(e.nano, base.nano)), Uvarint(Zigzag(e.p)),
              FieldsBytes(e.fields));
  }

  /** The ring after x went in at position pos: those slots hold x, the others are untouched. */
  ghost predicate Written(before: seq<byte>, after: seq<byte>, pos: nat, x: seq<byte>)
  {
    && |before| == |after| == RING && |x| < RING
    && (forall i | 0 <= i < |x| :: after[(pos + i) % RING] == x[i])
    && (forall q: nat | pos + |x| <= q < pos + RING :: after[q % RING] == before[q % RING])
  }

  /** A run of bytes that does not reach over the ring's edge goes in after x. */
  lemma WrittenMore(before: seq<byte>, mid: seq<byte>, after: seq<byte>, pos: nat, x: seq<byte>, y: seq<byte>)
    requires Written(before, mid, pos, x) && |x| + |y| < RING && |after| == RING
    requires (pos + |x|) % RING + |y| <= RING
    requires forall i | 0 <= i < |y| :: after[(pos + |x|) % RING + i] == y[i]
    requires forall j | 0 <= j < RING && !((pos + |x|) % RING <= j < (pos + |x|) % RING + |y|) :: after[j] == mid[j]
    ensures Written(before, after, pos, x + y)
  {
    var at := (pos + |x|) % RING;
    forall i | 0 <= i < |x| + |y| ensures after[(pos + i) % RING] == (x + y)[i] {
      if i < |x| {
        assert mid[(pos + i) % RING] == x[i];
      } else {
        assert (pos + i) % RING == at + (i - |x|);
      }
    }
    forall q: nat | pos + |x| + |y| <= q < pos + RING ensures after[q % RING] == before[q % RING] {
      assert mid[q % RING] == before[q % RING];
      assert !(at <= q % RING < at + |y|);
    }
  }

  lemma WrittenOne(before: seq<byte>, pos: nat, x: byte)
    requires |before| == RING
    ensures Written(before, before[pos % RING := x], pos, [x])
  {
    WrittenMore(before, before, before[pos % RING := x], pos, [], [x]);
    assert [] + [x] == [x];
  }

  lemma WindowSurvives(before: seq<byte>, after: seq<byte>, lo: nat, pos: nat, x: seq<byte>, p: nat, q: nat)
    requires Written(before, after, pos, x) && lo <= p <= q <= pos && pos + |x| <= lo + RING
    ensures Window(after, p, q) == Window(before, p, q)
  {
    var u, v := Window(after, p, q), Window(before, p, q);
    forall i | 0 <= i < |u| ensures u[i] == v[i] {
      var z := p + i + RING;
      assert z % RING == (p + i) % RING && after[z % RING] == before[z % RING];
    }
  }

  /** Old bytes survive what is written within a ring's length of them. */
  lemma WrittenWindows(before: seq<byte>, after: seq<byte>, lo: nat, pos: nat, x: seq<byte>)
    requires Written(before, after, pos, x) && lo <= pos && pos + |x| <= lo + RING
    ensures forall p: nat, q: nat | lo <= p <= q <= pos :: Window(after, p, q) == Window(before, p, q)
    ensures Window(after, pos, pos + |x|) == x
  {
    forall p: nat, q: nat | lo <= p <= q <= pos ensures Window(after, p, q) == Window(before, p, q) {
      WindowSurvives(before, after, lo, pos, x, p, q);
    }
    assert forall i | 0 <= i < |x| :: Window(after, pos, pos + |x|)[i] == x[i];
  }

  /** So do the bytes that follow, up to where the ring comes round again. */
  lemma WrittenBefore(before: seq<byte>, after: seq<byte>, pos: nat, x: seq<byte>, p: nat, q: nat)
    requires Written(before, after, pos, x) && pos + |x| <= p <= q <= pos + RING
    ensures Window(after, p, q) == Window(before, p, q)
  {
    var u, v := Window(after, p, q), Window(before, p, q);
    forall i | 0 <= i < |u| ensures u[i] == v[i] {
      assert after[(p + i) % RING] == before[(p + i) % RING];
    }
  }

  class Reader {
    const data: array<byte>
    var begin: nat
    var end: nat
    var tick: uint64
    var nano: uint64

    constructor (data: array<byte>)
      ensures this.data == data && begin == 0 && end == 0 && tick == 0 && nano == 0
    {
      this.data := data;
      begin, end, tick, nano := 0, 0, 0, 0;
    }

    function At(pos: nat): byte
      requires data.Length == RING
      reads data
    {
      data[pos % RING]
    }

    function ReadUint16LEAt(pos: nat): (x: nat)
      requires data.Length == RING
      reads data
      ensures forall v: nat | v < 0x1_0000 && Window(data[..], pos, pos + 2) == LE(v, 2) :: x == v
    {
      assert forall v: nat | v < 0x1_0000 && Window(data[..], pos, pos + 2) == LE(v, 2) ::
        At(pos) + 0x100 * At(pos + 1) == v by {
        forall v: nat | v < 0x1_0000 && Window(data[..], pos, pos + 2) == LE(v, 2)
          ensures At(pos) + 0x100 * At(pos + 1) == v
        {
          LE2(v);
          assert Window(data[..], pos, pos + 2)[0] == v % 0x100 && Window(data[..], pos, pos + 2)[1] == v / 0x100;
        }
      }
      At(pos) + 0x100 * At(pos + 1)
    }

    method ReadUint64LEAt(pos: nat) returns (x: uint64)
      requires data.Length == RING
      ensures forall v: uint64 | Window(data[..], pos, pos + 8) == LE(v, 8) :: x == v
    {
      var b: seq<byte> := [];
      for i := 0 to 8
        invariant b == Window(data[..], pos, pos + i)
      {
        b := b + [At(pos + i)];
      }
      var b0: int, b1: int, b2: int, b3: int := b[0], b[1], b[2], b[3];
      var b4: int, b5: int, b6: int, b7: int := b[4], b[5], b[6], b[7];
      x := b0 + 0x100 * b1 + 0x1_0000 * b2 + 0x100_0000 * b3 + 0x1_0000_0000 * b4
           + 0x100_0000_0000 * b5 + 0x1_0000_0000_0000 * b6 + 0x100_0000_0000_0000 * b7;
      forall v: uint64 | b == LE(v, 8) ensures x == v {
        var v1 := v / 0x100;
        var v2 := v1 / 0x100;
        var v3 := v2 / 0x100;
        var v4 := v3 / 0x100;
        var v5 := v4 / 0x100;
        var v6 := v5 / 0x100;
        LE8(v, v1, v2, v3, v4, v5, v6, v6 / 0x100);
      }
    }

    /** The reader stands before the records rs. */
    ghost predicate Before(rs: seq<Rec>)
      reads this, data
    {
      data.Length == RING && begin <= end < begin + RING
        && Window(data[..], begin, end) == LogBytes(rs, Base(tick, nano))
    }

    lemma NoRecords()
      requires Before([])
      ensures begin == end
    {
    }

    /** What the reader finds at the front. */
    lemma Front(rs: seq<Rec>)
      requires Before(rs) && rs != []
      ensures var b := RecBytes(rs[0], Base(tick, nano));
              && begin + |b| <= end && Window(data[..], begin, begin + |b|) == b
              && Window(data[..], begin + |b|, end) == LogBytes(rs[1..], BaseAfter(rs[0], Base(tick, nano)))
    {
      hide RecBytes;
      var b := RecBytes(rs[0], Base(tick, nano));
      WindowParts(data[..], begin, end, b, LogBytes(rs[1..], BaseAfter(rs[0], Base(tick, nano))));
    }

    /** The frame of the record at the front gives its size, 0 for a sync record. */
    lemma FrontSize(rs: seq<Rec>)
      requires Before(rs) && rs != []
      ensures begin + 2 <= end
      ensures ReadUint16LEAt(begin) == if rs[0].Sync? then 0 else |RecBytes(rs[0], Base(tick, nano))|
    {
      hide LogBytes;
      hide Payload;
      hide LE;
      Front(rs);
      var b := RecBytes(rs[0], Base(tick, nano));
      var size := if rs[0].Sync? then 0 else |b|;
      assert b == LE(size, 2) + b[2..];
      WindowParts(data[..], begin, begin + |b|, LE(size, 2), b[2..]);
    }

    lemma FrontSync(rs: seq<Rec>)
      requires Before(rs) && rs != [] && rs[0].Sync?
      ensures begin + 18 <= end && |RecBytes(rs[0], Base(tick, nano))| == SYNC
      ensures Window(data[..], begin + 2, begin + 10) == LE(rs[0].tick, 8)
      ensures Window(data[..], begin + 10, begin + 18) == LE(rs[0].nano, 8)
    {
      hide LogBytes;
      hide LE;
      hide Window;
      Front(rs);
      var t, n := LE(rs[0].tick, 8), LE(rs[0].nano, 8);
      assert RecBytes(rs[0], Base(tick, nano)) == (LE(0, 2) + t) + n;
      WindowParts(data[..], begin, begin + 18, LE(0, 2) + t, n);
      WindowParts(data[..], begin, begin + 10, LE(0, 2), t);
    }

    /** skip: passes one record, taking over the time base of a sync record. */
    method Skip(ghost rs: seq<Rec>) returns (size: int)
      requires Before(rs)
      modifies this`begin, this`tick, this`nano
      ensures rs == [] ==> size == NOTHING && begin == old(begin) && tick == old(tick) && nano == old(nano)
      ensures rs != [] ==> size == |RecBytes(rs[0], old(Base(tick, nano)))| && begin == old(begin) + size
      ensures rs != [] ==> Before(rs[1..]) && Base(tick, nano) == BaseAfter(rs[0], old(Base(tick, nano)))
    {
      hide LE;
      hide Window;
      hide RecBytes;
      hide LogBytes;
      if rs != [] {
        Front(rs);
        FrontSize(rs);
        if rs[0].Sync? { FrontSync(rs); }
      } else {
        assert begin == end by { NoRecords(); }
      }
      if begin + HEADER > end { return NOTHING; }
      size := ReadUint16LEAt(begin);
      if size == 0 {
        var t := ReadUint64LEAt(begin + HEADER);
        var n := ReadUint64LEAt(begin + HEADER + 8);
        tick, nano := t, n;
        size := SYNC;
      }
      if begin + size > end { return NOTHING; }
      begin := begin + size;
    }

    /** The byte at the front of an encoded number, and what is left of it. */
    lemma FirstByte(u: nat, stop: nat)
      requires data.Length == RING && begin <= stop && Window(data[..], begin, stop) == Uvarint(u)
      ensures At(begin) % 0x80 == u % 0x80 && (At(begin) < 0x80 <==> u < 0x80) && begin < stop
      ensures u < 0x80 ==> stop == begin + 1
      ensures u >= 0x80 ==> begin + 1 < stop && Window(data[..], begin + 1, stop) == Uvarint(u / 0x80)
    {
      var w := Window(data[..], begin, stop);
      UvarintHead(u, w);
      assert w[0] == At(begin);
      if u >= 0x80 {
        WindowSplit(data[..], begin, begin + 1, stop);
        assert Window(data[..], begin + 1, stop) == w[1..];
      }
    }

    /** uvarint: the inverse of the writer's.  Adding is the source's "or", because the
        digits so far are below `scale`, the weight of the next one. */
    method GetUvarint(ghost x: uint64) returns (u: uint64)
      requires data.Length == RING && Window(data[..], begin, begin + |Uvarint(x)|) == Uvarint(x)
      modifies this`begin
      ensures u == x && begin == old(begin) + |Uvarint(x)|
    {
      hide Uvarint;
      hide Window;
      u := 0;
      var scale: nat := 1;
      ghost var rest: nat, stop := x, begin + |Uvarint(x)|;
      while true
        invariant u + scale * rest == x && u < scale
        invariant begin < stop && Window(data[..], begin, stop) == Uvarint(rest)
        decreases rest
      {
        var b := At(begin);
        FirstByte(rest, stop);
        NextDigit(u, scale, rest, x);
        begin := begin + 1;
        u := u + scale * (b % 0x80);
        if b < 0x80 { return; }
        rest := rest / 0x80;
        scale := scale * 0x80;
      }
    }

    method GetVarint(ghost x: int64) returns (v: int64)
      requires data.Length == RING && Window(data[..], begin, begin + |Uvarint(Zigzag(x))|) == Uvarint(Zigzag(x))
      modifies this`begin
      ensures v == x && begin == old(begin) + |Uvarint(Zigzag(x))|
    {
      var u := GetUvarint(Zigzag(x));
      ZigzagRoundTrip(x, u);
      var half: int := u / 2;
      v := if u % 2 == 0 then half else -half - 1;
    }

    /** peek: passes sync records, then reports the tick of the message at the front, or
        "nothing" at the end of the log; a message logged at that very tick looks the same. */
    method Peek(ghost rs: seq<Rec>) returns (t: uint64)
      requires Before(rs)
      modifies this`begin, this`tick, this`nano
      ensures Before(PastSyncs(rs))
      ensures PastSyncs(rs) == [] ==> t == NOTHING
      ensures PastSyncs(rs) != [] ==> t == PastSyncs(rs)[0].e.tick
    {
      hide RecBytes;
      hide LogBytes;
      ghost var left := rs;
      while true
        invariant Before(left) && PastSyncs(left) == PastSyncs(rs)
        decreases |left|
      {
        if left == [] { NoRecords(); } else { FrontSize(left); }
        if begin + HEADER > end { return NOTHING; }
        if ReadUint16LEAt(begin) != 0 { break; }
        var _ := Skip(left);
        left := left[1..];
      }
      t := PeekTick(left);
    }

    /** The tick of the message at the front. */
    method PeekTick(ghost rs: seq<Rec>) returns (t: uint64)
      requires Before(rs) && rs != [] && rs[0].Message?
      ensures t == rs[0].e.tick
    {
      hide RecBytes;
      hide LogBytes;
      hide Window;
      hide Uvarint;
      hide FieldsBytes;
      FrontMessage(rs);
      FrontSize(rs);
      var size := ReadUint16LEAt(begin);
      if begin + size > end { assert false; }           // the record reaches past the end
      var copy := new Reader(data);
      copy.begin := begin + HEADER;
      var u := copy.GetUvarint(Minus(rs[0].e.tick, tick));
      if copy.begin > begin + size { assert false; }    // the tick reaches past the record
      TimeRoundTrip(rs[0].e.tick, tick);
      t := (tick + u) % MOD64;
    }

    /** The layout of the message at the front. */
    lemma FrontMessage(rs: seq<Rec>)
      requires data.Length == RING && Before(rs) && rs != [] && rs[0].Message?
      ensures begin + |RecBytes(rs[0], Base(tick, nano))| <= end
      ensures MessageAt(data[..], begin + 2, begin + |RecBytes(rs[0], Base(tick, nano))|, rs[0].e, Base(tick, nano))
    {
      hide *;
      Front(rs);
      var e, base := rs[0].e, Base(tick, nano);
      MessageBytes(e, base);
      assert rs[0] == Message(e);
      WindowParts(data[..], begin, begin + |RecBytes(rs[0], base)|, LE(2 + |Payload(e, base)|, 2), Payload(e, base));
      PayloadAt(data[..], begin + 2, begin + |RecBytes(rs[0], base)|, e, base);
    }

    /** header: the absolute times and the processor of the message at the front; `stop` is
        where the message ends. */
    method Header(ghost rs: seq<Rec>) returns (stop: nat, t: uint64, n: uint64, p: int64)
      requires Before(rs) && rs != [] && rs[0].Message?
      modifies this`begin
      ensures stop == old(begin) + |RecBytes(rs[0], Base(tick, nano))| && old(begin) <= begin <= stop <= end
      ensures t == rs[0].e.tick && n == rs[0].e.nano && p == rs[0].e.p
      ensures Window(data[..], begin, stop) == FieldsBytes(rs[0].e.fields)
    {
      hide RecBytes;
      hide LogBytes;
      hide Uvarint;
      hide Window;
      hide FieldsBytes;
      FrontSize(rs);
      FrontMessage(rs);
      var size := ReadUint16LEAt(begin);
      stop := begin + size;
      begin := begin + HEADER;
      var dt := GetUvarint(Minus(rs[0].e.tick, tick));
      var dn := GetUvarint(Minus(rs[0].e.nano, nano));
      TimeRoundTrip(rs[0].e.tick, tick);
      TimeRoundTrip(rs[0].e.nano, nano);
      t, n := (tick + dt) % MOD64, (nano + dn) % MOD64;
      p := GetVarint(rs[0].e.p);
    }

    // ---------- the values of a message, as printVal reads them ----------

    method GetBytes(n: nat) returns (s: seq<byte>)
      requires data.Length == RING
      modifies this`begin
      ensures begin == old(begin) + n && s == Window(data[..], old(begin), begin)
    {
      hide Window;
      s := [];
      var sl: nat := n;
      assert Window(data[..], begin, begin) == [];
      while sl > 0
        invariant begin + sl == old(begin) + n && s == Window(data[..], old(begin), begin)
      {
        var at := begin % RING;
        var k := if RING - at > sl then sl else RING - at;
        WindowSplit(data[..], old(begin), begin, begin + k);
        WindowPlain(data[..], begin, k);
        s := s + data[at..at + k];
        begin := begin + k;
        sl := sl - k;
      }
    }

    method GetUvarints(ghost us: seq<uint64>, n: uint64) returns (r: seq<uint64>)
      requires data.Length == RING && n == |us|
      requires Window(data[..], begin, begin + |Uvarints(us)|) == Uvarints(us)
      modifies this`begin
      ensures r == us && begin == old(begin) + |Uvarints(us)|
    {
      hide Window;
      hide Uvarint;
      r := [];
      ghost var stop := begin + |Uvarints(us)|;
      for i := 0 to n
        invariant r == us[..i] && begin <= stop && Window(data[..], begin, stop) == Uvarints(us[i..])
      {
        UvarintsFront(us[i..]);
        assert us[i..][0] == us[i] && us[i..][1..] == us[i + 1..];
        WindowParts(data[..], begin, stop, Uvarint(us[i]), Uvarints(us[i + 1..]));
        var u := GetUvarint(us[i]);
        r := r + [u];
      }
    }

    /** printVal: the type code and the data of the next value. */
    method GetVal(ghost f: Field) returns (v: Field)
      requires data.Length == RING && begin + |FieldBytes(f)| <= end && |FieldBytes(f)| < RING
      requires Window(data[..], begin, begin + |FieldBytes(f)|) == FieldBytes(f)
      modifies this`begin
      ensures v == f && begin == old(begin) + |FieldBytes(f)|
    {
      hide LogBytes;
      hide Window;
      hide Uvarint;
      hide Uvarints;
      FieldLayout(f);
      hide FieldBytes;
      ghost var stop, b := begin + |FieldBytes(f)|, FieldBytes(f);
      assert b == [Code(f)] + b[1..];
      WindowParts(data[..], begin, stop, [Code(f)], b[1..]);
      assert At(begin) == Window(data[..], begin, begin + 1)[0];
      var typ := At(begin);
      begin := begin + 1;
      if typ == 2 {
        v := BoolTrue;
      } else if typ == 3 {
        v := BoolFalse;
      } else if typ == 4 {
        var x := GetVarint(f.x);
        v := Int(x);
      } else if typ == 8 {
        WindowParts(data[..], begin, stop, Uvarint(|f.s|), f.s);
        var sl := GetUvarint(|f.s|);
        if begin + sl > end { assert false; }   // "string length corrupted"
        var s := GetBytes(sl);
        v := String(s);
      } else if typ == 9 {
        WindowParts(data[..], begin, stop, Uvarint(f.len), Uvarint(f.off));
        var len := GetUvarint(f.len);
        var off := GetUvarint(f.off);
        v := ConstString(len, off);
      } else if typ == 12 {
        UvarintsLong(f.pcs);
        WindowParts(data[..], begin, stop, Uvarint(|f.pcs|), Uvarints(f.pcs));
        var n := GetUvarint(|f.pcs|);
        var pcs := GetUvarints(f.pcs, n);
        v := Traceback(pcs);
      } else if typ == 5 || typ == 6 || typ == 7 || typ == 10 || typ == 11 {
        var u := GetUvarint(f.u);
        v := if typ == 5 then Uint(u) else if typ == 6 then Hex(u) else if typ == 7 then Pointer(u)
             else if typ == 10 then StringOverflow(u) else PC(u);
      } else {
        assert false;                           // "unknown field type"
      }
    }

    /** One turn of printDebugLog's loop: the message at the front, and on to the next record. */
    method ReadMessage(ghost rs: seq<Rec>) returns (e: Entry)
      requires Before(rs) && rs != [] && rs[0].Message?
      modifies this`begin, this`end
      ensures e == rs[0].e && Before(rs[1..])
    {
      hide RecBytes;
      hide LogBytes;
      hide Window;
      hide FieldsBytes;
      hide FieldBytes;
      Front(rs);
      ghost var fs := rs[0].e.fields;
      var stop, t, n, p := Header(rs);
      var oldEnd := end;
      end := stop;
      var vals: seq<Field> := [];
      assert fs[0..] == fs;
      while begin < end
        invariant |vals| <= |fs| && vals == fs[..|vals|]
        invariant old(begin) <= begin <= end == stop && Window(data[..], begin, end) == FieldsBytes(fs[|vals|..])
        decreases end - begin
      {
        ghost var k := |vals|;
        NoFields(fs[k..]);
        FieldsFront(fs[k..]);
        assert fs[k..][0] == fs[k] && fs[k..][1..] == fs[k + 1..];
        WindowParts(data[..], begin, end, FieldBytes(fs[k]), FieldsBytes(fs[k + 1..]));
        var v := GetVal(fs[k]);
        vals := vals + [v];
      }
      NoFields(fs[|vals|..]);
      e := Entry(t, n, p, vals);
      begin := stop;
      end := oldEnd;
    }
  }

  lemma WindowPlain(s: seq<byte>, lo: nat, k: nat)
    requires |s| == RING && lo % RING + k <= RING
    ensures Window(s, lo, lo + k) == s[lo % RING..lo % RING + k]
  {
    var w := Window(s, lo, lo + k);
    forall i | 0 <= i < k ensures w[i] == s[lo % RING + i] {
      assert (lo + i) % RING == lo % RING + i;
    }
  }

  lemma UvarintHead(u: nat, w: seq<byte>)
    requires w == Uvarint(u)
    ensures w[0] % 0x80 == u % 0x80 && (w[0] < 0x80 <==> u < 0x80)
    ensures u < 0x80 ==> |w| == 1
    ensures u >= 0x80 ==> w[1..] == Uvarint(u / 0x80) && u / 0x80 < u
  {
  }

  lemma NextDigit(u: nat, scale: nat, rest: nat, x: uint64)
    requires u + scale * rest == x && u < scale
    ensures var u' := u + scale * (rest % 0x80);
            && u' <= x && u' < scale * 0x80 && u' + (scale * 0x80) * (rest / 0x80) == x
            && (rest < 0x80 ==> u' == x)
  {
    Weights(scale, rest);
    Below(scale, rest);
  }

  lemma Weights(scale: nat, rest: nat)
    ensures scale * rest == scale * (rest % 0x80) + (scale * 0x80) * (rest / 0x80)
  {
    assert rest == rest % 0x80 + 0x80 * (rest / 0x80);
    calc {
      scale * rest;
      scale * (rest % 0x80 + 0x80 * (rest / 0x80));
      scale * (rest % 0x80) + scale * (0x80 * (rest / 0x80));
    }
  }

  lemma Below(scale: nat, rest: nat)
    ensures scale * (rest % 0x80) <= scale * rest
    ensures scale * (rest % 0x80) + scale <= scale * 0x80
  {
    var d := rest % 0x80;
    Monotone(scale, d, rest);
    Monotone(scale, d + 1, 0x80);
  }

  lemma Monotone(k: nat, a: nat, b: nat)
    requires a <= b
    ensures k * a <= k * b
  {
  }

  /** Where the text of a string lies: in the program's read-only data, or anywhere else. */
  datatype Place = Rodata(off: uint64) | Elsewhere

  const STRING_LIMIT := 2048           // debugLogStringLimit

  function StringFields(x: seq<byte>, place: Place): seq<Field>
    requires |x| < MOD64
  {
    if |x| > 4 && place.Rodata? then [ConstString(|x|, place.off)]
    else if |x| <= STRING_LIMIT then [String(x)]
    else [String(x[..STRING_LIMIT]), StringOverflow(|x| - STRING_LIMIT)]
  }

  lemma StringFieldsBytes(x: seq<byte>, place: Place)
    requires |x| < MOD64
    ensures var fs := StringFields(x, place);
            && (|fs| == 1 ==> FieldsBytes(fs) == FieldBytes(fs[0]))
            && (|fs| == 2 ==> FieldsBytes(fs) == FieldBytes(fs[0]) + FieldBytes(fs[1]))
  {
    hide FieldBytes;
    var fs := StringFields(x, place);
    if |fs| == 2 { assert fs[..1] == [fs[0]] && FieldsBytes([fs[0]]) == FieldBytes(fs[0]); }
  }

  /** The writer.  `log` is everything ever committed, `kept` what of it the ring still holds. */
  class Writer {
    const data: array<byte>
    const r: Reader
    const buf: array<byte>         // scratch space for encoding a number
    var write: nat
    var tick: uint64
    var nano: uint64
    ghost var log: seq<Rec>
    ghost var kept: seq<Rec>

    constructor ()
      ensures Valid() && log == []
      ensures fresh(data) && fresh(r) && fresh(buf)
    {
      var d := new byte[RING](_ => 0);
      data := d;
      r := new Reader(d);
      buf := new byte[10](_ => 0);
      write, tick, nano := 0, 0, 0;
      log, kept := [], [];
    }

    /** The records between r.begin and r.end are the newest of those committed, and the
        reader's time base is the one in force there. */
    ghost predicate RingOK()
      reads this, r, data
    {
      && data.Length == RING && r.data == data && buf.Length == 10 && buf != data
      && r.end <= write < r.begin + RING
      && r.Before(kept)
      && |kept| <= |log| && kept == log[|log| - |kept|..]
      && Base(r.tick, r.nano) == BaseFrom(log[..|log| - |kept|], Base(0, 0))
    }

    ghost predicate BaseOK()
      reads this
    {
      Base(tick, nano) == BaseFrom(log, Base(0, 0))
    }

    /** The size of the newest record no longer kept, 0 if there is none. */
    ghost function Dropped(): nat
      requires |kept| <= |log|
      reads this`log, this`kept
    {
      var k := |log| - |kept|;
      if k == 0 then 0 else |RecBytes(log[k - 1], BaseFrom(log[..k - 1], Base(0, 0)))|
    }

    /** Between two messages. */
    ghost predicate Valid()
      reads this, r, data
    {
      RingOK() && BaseOK() && Packed(0) && write == r.end
    }

    /** No record was dropped that could have stayed, once n more bytes are written: together
        with the newest of those dropped, what the ring holds would fill it. */
    ghost predicate Packed(n: nat)
      requires |kept| <= |log|
      reads this, r
    {
      |kept| < |log| ==> write + n - r.begin + Dropped() >= RING
    }

    /** The bytes written since the last commit. */
    ghost function Pending(): seq<byte>
      requires RingOK()
      reads this, r, data
    {
      Window(data[..], r.end, write)
    }

    /** While message e is being built: its frame is reserved and its payload written. */
    ghost predicate Building(e: Entry)
      reads this, r, data
    {
      && RingOK() && BaseOK() && Packed(0) && r.end + HEADER <= write
      && Pending()[HEADER..] == Payload(e, Base(tick, nano))
    }

    /** One round of ensure; `wrapped` says that no record is left to pass. */
    method SkipOldest() returns (wrapped: bool)
      requires RingOK()
      modifies this`kept, r`begin, r`tick, r`nano
      ensures RingOK() && wrapped == (old(kept) == [])
      ensures wrapped ==> kept == [] && r.begin == r.end
      ensures !wrapped ==> kept == old(kept)[1..] && r.begin == old(r.begin) + Dropped()
    {
      hide LogBytes;
      hide RecBytes;
      hide BaseFrom;
      ghost var k := |log| - |kept|;
      if kept == [] { assert r.begin == r.end by { r.NoRecords(); } }
      else {
        LogBytesAppend(log[..k], log[k], Base(0, 0));
        assert log[..k + 1] == log[..k] + [log[k]];
      }
      var size := r.Skip(kept);
      wrapped := size == NOTHING;
      if !wrapped { kept := kept[1..]; }
    }

    /** ensure: makes room for n bytes by letting the reader pass the oldest records.  It
        throws "record wrapped around" exactly when the uncommitted bytes would fill the ring,
        and drops no record that could have stayed. */
    method Ensure(n: nat) returns (ok: bool)
      requires RingOK()
      modifies this`kept, r`begin, r`tick, r`nano
      ensures RingOK() && Pending() == old(Pending())
      ensures ok <==> write - r.end + n < RING
      ensures ok ==> write + n < r.begin + RING
      ensures old(Packed(0)) ==> Packed(n)
    {
      hide Window;
      hide LogBytes;
      hide RecBytes;
      hide BaseFrom;
      while write + n >= r.begin + RING
        invariant RingOK()
        invariant old(Packed(0)) ==> Packed(n)
        decreases |kept|
      {
        var wrapped := SkipOldest();
        if wrapped { return false; }
      }
      return true;
    }

    /** copy into one stretch of the ring. */
    method CopyIn(at: nat, x: seq<byte>)
      requires data.Length == RING && at + |x| <= RING
      modifies data
      ensures forall i | 0 <= i < |x| :: data[at + i] == x[i]
      ensures forall j | 0 <= j < RING && !(at <= j < at + |x|) :: data[j] == old(data[j])
    {
      forall i | 0 <= i < |x| { data[at + i] := x[i]; }
    }

    /** The copy loop of bytes: at most one run up to the ring's edge, and one from its start. */
    method Store(start: nat, x: seq<byte>)
      requires data.Length == RING && |x| < RING
      modifies data
      ensures Written(old(data[..]), data[..], start, x)
    {
      var pos, rest := start, x;
      ghost var k := 0;
      while |rest| > 0
        invariant k <= |x| && pos == start + k && rest == x[k..]
        invariant Written(old(data[..]), data[..], start, x[..k])
        decreases |rest|
      {
        var at := pos % RING;
        var n := if RING - at < |rest| then RING - at else |rest|;
        ghost var mid := data[..];
        CopyIn(at, rest[..n]);
        WrittenMore(old(data[..]), mid, data[..], start, x[..k], rest[..n]);
        assert x[..k + n] == x[..k] + rest[..n];
        pos, rest := pos + n, rest[n..];
        k := k + n;
      }
      assert x[..k] == x;
    }

    /** What is written at the end of the pending bytes disturbs nothing before it. */
    lemma Appended(before: seq<byte>, pos: nat, x: seq<byte>)
      requires data.Length == RING && r.begin <= r.end <= pos && pos + |x| == write < r.begin + RING
      requires Written(before, data[..], pos, x)
      ensures Window(data[..], r.begin, r.end) == Window(before, r.begin, r.end)
      ensures Window(data[..], r.end, write) == Window(before, r.end, pos) + x
    {
      WrittenWindows(before, data[..], r.begin, pos, x);
      hide Window;
      hide Written;
      WindowSplit(data[..], r.end, pos, write);
    }

    /** bytes: appends x to what is pending. */
    method Bytes(x: seq<byte>) returns (ok: bool)
      requires RingOK()
      modifies this`write, this`kept, r`begin, r`tick, r`nano, data
      ensures RingOK() && (ok && old(Packed(0)) ==> Packed(0))
      ensures ok <==> old(write) - r.end + |x| < RING
      ensures ok ==> write == old(write) + |x| && Pending() == old(Pending()) + x
    {
      hide Window;
      hide Written;
      hide Dropped;
      hide LogBytes;
      hide RecBytes;
      hide BaseFrom;
      ok := Ensure(|x|);
      if !ok { return; }
      var pos := write;
      write := write + |x|;
      ghost var before := data[..];
      Store(pos, x);
      Appended(before, pos, x);
    }

    method Byte(x: byte) returns (ok: bool)
      requires RingOK()
      modifies this`write, this`kept, r`begin, r`tick, r`nano, data
      ensures RingOK() && (ok && old(Packed(0)) ==> Packed(0))
      ensures ok <==> old(write) - r.end + 1 < RING
      ensures ok ==> write == old(write) + 1 && Pending() == old(Pending()) + [x]
    {
      hide Window;
      hide Written;
      hide Dropped;
      hide LogBytes;
      hide RecBytes;
      hide BaseFrom;
      ok := Ensure(1);
      if !ok { return; }
      var pos := write;
      write := write + 1;
      ghost var before := data[..];
      data[pos % RING] := x;
      WrittenOne(before, pos, x);
      assert data[..] == before[pos % RING := x];
      Appended(before, pos, [x]);
    }

    /** The number, seven bits at a time, in the scratch buffer. */
    method Encode(u: uint64) returns (i: nat)
      requires buf.Length == 10
      modifies buf
      ensures i <= 10 && buf[..i] == Uvarint(u)
    {
      var v := u;
      i := 0;
      UvarintSize(u);
      while v >= 0x80
        invariant 0 <= v < MOD64 && i <= 10 && Uvarint(u) == buf[..i] + Uvarint(v)
        decreases v
      {
        buf[i] := v % 0x80 + 0x80;
        v := v / 0x80;
        i := i + 1;
      }
      buf[i] := v;
      i := i + 1;
    }

    /** uvarint: encodes, then puts it all out in one piece. */
    method PutUvarint(u: uint64) returns (ok: bool)
      requires RingOK()
      modifies this`write, this`kept, r`begin, r`tick, r`nano, data, buf
      ensures RingOK() && (ok && old(Packed(0)) ==> Packed(0))
      ensures ok <==> old(write) - r.end + |Uvarint(u)| < RING
      ensures ok ==> write == old(write) + |Uvarint(u)| && Pending() == old(Pending()) + Uvarint(u)
    {
      hide LogBytes;
      hide RecBytes;
      hide BaseFrom;
      hide Uvarint;
      hide Window;
      var i := Encode(u);
      ok := Bytes(buf[..i]);
    }

    method PutVarint(x: int64) returns (ok: bool)
      requires RingOK()
      modifies this`write, this`kept, r`begin, r`tick, r`nano, data, buf
      ensures RingOK() && (ok && old(Packed(0)) ==> Packed(0))
      ensures ok <==> old(write) - r.end + |Uvarint(Zigzag(x))| < RING
      ensures ok ==> write == old(write) + |Uvarint(Zigzag(x))| && Pending() == old(Pending()) + Uvarint(Zigzag(x))
    {
      ok := PutUvarint(if x < 0 then 2 * (-1 - x) + 1 else 2 * x);
    }

    method PutUint64LE(x: uint64) returns (ok: bool)
      requires RingOK()
      modifies this`write, this`kept, r`begin, r`tick, r`nano, data
      ensures RingOK() && (ok && old(Packed(0)) ==> Packed(0))
      ensures ok <==> old(write) - r.end + 8 < RING
      ensures ok ==> write == old(write) + 8 && Pending() == old(Pending()) + LE(x, 8)
    {
      var x1 := x / 0x100;
      var x2 := x1 / 0x100;
      var x3 := x2 / 0x100;
      var x4 := x3 / 0x100;
      var x5 := x4 / 0x100;
      var x6 := x5 / 0x100;
      var x7 := x6 / 0x100;
      LE8(x, x1, x2, x3, x4, x5, x6, x7);
      ok := Bytes([x % 0x100, x1 % 0x100, x2 % 0x100, x3 % 0x100, x4 % 0x100, x5 % 0x100, x6 % 0x100, x7 % 0x100]);
    }

    method WriteFrameAt(pos: nat, size: nat) returns (ok: bool)
      requires data.Length == RING
      modifies data
      ensures Written(old(data[..]), data[..], pos, [size % 0x100, size / 0x100 % 0x100])
      ensures ok <==> size <= 0xFFFF
    {
      data[pos % RING] := size % 0x100;
      ghost var mid := data[..];
      data[(pos + 1) % RING] := size / 0x100 % 0x100;
      WrittenOne(old(data[..]), pos, size % 0x100);
      WrittenMore(old(data[..]), mid, data[..], pos, [size % 0x100], [size / 0x100 % 0x100]);
      ok := size <= 0xFFFF;
    }

    /** Makes what is pending a record of the log. */
    method Commit(ghost rec: Rec)
      requires RingOK() && Pending() == RecBytes(rec, BaseFrom(log, Base(0, 0)))
      modifies this`log, this`kept, r`end
      ensures RingOK() && write == r.end && log == old(log) + [rec] && (old(Packed(0)) ==> Packed(0))
    {
      hide RecBytes;
      WindowSplit(data[..], r.begin, r.end, write);
      var base, k := Base(r.tick, r.nano), |log| - |kept|;
      BaseFromAppend(log[..k], kept, Base(0, 0));
      assert log[..k] + kept == log;
      LogBytesAppend(kept, rec, base);
      r.end := write;
      log, kept := log + [rec], kept + [rec];
      assert log[..k] == old(log)[..k] && log[k..] == kept;
      assert k > 0 ==> log[..k - 1] == old(log)[..k - 1];
    }

    /** Reserves the two bytes of a frame; they hold whatever was there before. */
    method Reserve() returns (ok: bool)
      requires RingOK()
      modifies this`write, this`kept, r`begin, r`tick, r`nano
      ensures RingOK() && (ok && old(Packed(0)) ==> Packed(0))
      ensures ok <==> old(write) - r.end + HEADER < RING
      ensures ok ==> write == old(write) + HEADER && Pending()[..|Pending()| - HEADER] == old(Pending())
    {
      hide LogBytes;
      hide RecBytes;
      hide BaseFrom;
      ok := Ensure(HEADER);
      if ok {
        WindowSplit(data[..], r.end, write, write + HEADER);
        write := write + HEADER;
      }
    }

    /** The frame of a sync record. */
    method PutSyncFrame() returns (ok: bool)
      requires RingOK() && write == r.end
      modifies this`write, this`kept, r`begin, r`tick, r`nano, data
      ensures ok && RingOK() && (old(Packed(0)) ==> Packed(0))
      ensures write == old(write) + HEADER && Pending() == LE(0, 2)
    {
      hide LogBytes;
      hide RecBytes;
      hide BaseFrom;
      hide LE;
      var start := write;
      ok := Reserve();
      ghost var before := data[..];
      var _ := WriteFrameAt(start, 0);
      FrameInPlace(before, start, 0);
    }

    /** The bytes of a sync record: frame, tick and nano. */
    method PutSync(t: uint64, n: uint64) returns (ok: bool)
      requires RingOK() && write == r.end
      modifies this`write, this`kept, r`begin, r`tick, r`nano, data
      ensures ok && RingOK() && (old(Packed(0)) ==> Packed(0)) && forall base :: Pending() == RecBytes(Sync(t, n), base)
    {
      hide RingOK;
      hide Packed;
      hide Pending;
      hide LE;
      ok := PutSyncFrame();
      ok := PutUint64LE(t);
      ok := PutUint64LE(n);
    }

    /** writeSync: a record that sets a new time base.  It always fits. */
    method WriteSync(t: uint64, n: uint64) returns (ok: bool)
      requires Valid()
      modifies this`write, this`tick, this`nano, this`log, this`kept, r`begin, r`end, r`tick, r`nano, data
      ensures ok && Valid() && log == old(log) + [Sync(t, n)] && tick == t && nano == n
    {
      hide LogBytes;
      hide BaseFrom;
      hide RecBytes;
      tick, nano := t, n;
      ok := PutSync(t, n);
      Commit(Sync(t, n));
      BaseFromAppend(old(log), [Sync(t, n)], Base(0, 0));
      SyncBase(t, n, BaseFrom(old(log), Base(0, 0)));
    }

    /** The frame written over the first two uncommitted bytes disturbs nothing else. */
    lemma FrameInPlace(before: seq<byte>, pos: nat, size: nat)
      requires data.Length == RING && r.data == data && r.begin <= r.end <= write < r.begin + RING
      requires pos == r.end && pos + 2 <= write && size < 0x1_0000
      requires Written(before, data[..], pos, [size % 0x100, size / 0x100 % 0x100])
      ensures Window(data[..], r.begin, r.end) == Window(before, r.begin, r.end)
      ensures Window(data[..], r.end, write) == LE(size, 2) + Window(before, r.end + 2, write)
    {
      hide Window;
      LE2(size);
      WrittenWindows(before, data[..], r.begin, pos, [size % 0x100, size / 0x100 % 0x100]);
      WrittenBefore(before, data[..], pos, [size % 0x100, size / 0x100 % 0x100], pos + 2, write);
      WindowSplit(data[..], r.end, r.end + 2, write);
    }

    /** The start of a message: times as differences from the base, and the processor. */
    method PutHeader(t: uint64, n: uint64, p: int64) returns (ok: bool)
      requires RingOK()
      modifies this`write, this`kept, r`begin, r`tick, r`nano, data, buf
      ensures RingOK() && (ok && old(Packed(0)) ==> Packed(0))
      ensures var h := Uvarint(t) + Uvarint(n) + Uvarint(Zigzag(p));
              && (ok <==> old(write) - r.end + |h| < RING)
              && (ok ==> write == old(write) + |h| && Pending() == old(Pending()) + h)
    {
      hide RingOK;
      hide Pending;
      hide LogBytes;
      hide RecBytes;
      hide BaseFrom;
      hide Uvarint;
      ok := PutUvarint(t);
      if ok { ok := PutUvarint(n); }
      if ok { ok := PutVarint(p); }
      assert ok ==> Pending() == ((old(Pending()) + Uvarint(t)) + Uvarint(n)) + Uvarint(Zigzag(p));
    }

    lemma HeaderSmall(t: uint64, n: uint64, p: int64)
      requires t <= LIMIT && n <= LIMIT
      ensures |Uvarint(t)| <= 3 && |Uvarint(n)| <= 3 && |Uvarint(Zigzag(p))| <= 10
    {
      UvarintFits(t, 3);
      UvarintFits(n, 3);
      UvarintSize(Zigzag(p));
    }

    /** dlog, once the times are read: a new time base if the last one is too old, then the
        start of a message.  It never throws, and no time difference it writes takes more
        than three bytes. */
    method Dlog(t: uint64, n: uint64, p: int64) returns (ok: bool)
      requires Valid()
      modifies this`write, this`tick, this`nano, this`log, this`kept, r`begin, r`end, r`tick, r`nano, data, buf
      ensures ok && Building(Entry(t, n, p, []))
      ensures log == old(log) + (if TooOld(old(Base(tick, nano)), t, n) then [Sync(t, n)] else [])
      ensures |Uvarint(Minus(t, tick))| <= 3 && |Uvarint(Minus(n, nano))| <= 3
    {
      hide LogBytes;
      hide RecBytes;
      hide BaseFrom;
      hide Uvarint;
      if TooOld(Base(tick, nano), t, n) {
        ok := WriteSync(t, n);
      }
      HeaderSmall(Minus(t, tick), Minus(n, nano), p);
      ok := Reserve();
      ghost var frame := Pending();
      ok := PutHeader(Minus(t, tick), Minus(n, nano), p);
      assert Pending()[HEADER..] == HeaderBytes(Entry(t, n, p, []), Base(tick, nano));
    }

    /** end: fills in the frame and commits.  "record too large" is unreachable. */
    method End(ghost e: Entry) returns (ok: bool)
      requires Building(e)
      modifies this`log, this`kept, r`end, data
      ensures ok && Valid() && log == old(log) + [Message(e)]
    {
      hide LogBytes;
      hide BaseFrom;
      hide Payload;
      hide LE;
      ghost var size, payload := write - r.end, Payload(e, Base(tick, nano));
      ok := FillFrame();
      assert |payload| == size - 2;
      MessageBytes(e, Base(tick, nano));
      assert Pending() == LE(size, 2) + payload;
      Commit(Message(e));
      BaseFromAppend(old(log), [Message(e)], Base(0, 0));
      MessageBase(e, BaseFrom(old(log), Base(0, 0)));
    }

    method FillFrame() returns (ok: bool)
      requires RingOK() && r.end + HEADER <= write
      modifies data
      ensures ok && RingOK() && Pending() == LE(write - r.end, 2) + old(Pending())[HEADER..]
    {
      hide Window;
      hide LogBytes;
      hide RecBytes;
      hide BaseFrom;
      hide LE;
      var size := write - r.end;
      ghost var before := data[..];
      ok := WriteFrameAt(r.end, size);
      WindowSplit(before, r.end, r.end + 2, write);
      FrameInPlace(before, r.end, size);
    }

    // ---------- the values of a message ----------

    /** The loop of traceback. */
    method PutUvarints(us: seq<uint64>) returns (ok: bool)
      requires RingOK()
      modifies this`write, this`kept, r`begin, r`tick, r`nano, data, buf
      ensures RingOK() && (ok && old(Packed(0)) ==> Packed(0))
      ensures ok <==> old(write) - r.end + |Uvarints(us)| < RING
      ensures ok ==> write == old(write) + |Uvarints(us)| && Pending() == old(Pending()) + Uvarints(us)
    {
      hide Window;
      hide LogBytes;
      hide RecBytes;
      hide BaseFrom;
      hide Uvarint;
      ok := true;
      for i := 0 to |us|
        invariant RingOK() && ok && (old(Packed(0)) ==> Packed(0))
        invariant write == old(write) + |Uvarints(us[..i])| && Pending() == old(Pending()) + Uvarints(us[..i])
      {
        UvarintsStep(us, i);
        ok := PutUvarint(us[i]);
        if !ok { return; }
      }
      assert us[..|us|] == us;
    }

    /** The pending bytes grew by one value. */
    lemma Grown(e: Entry, f: Field, before: seq<byte>)
      requires RingOK() && BaseOK() && Packed(0) && r.end + HEADER <= write && HEADER <= |before|
      requires before[HEADER..] == Payload(e, Base(tick, nano)) && Pending() == before + FieldBytes(f)
      ensures Building(e.(fields := e.fields + [f]))
    {
      PayloadAppend(e, f, Base(tick, nano));
      hide LogBytes;
      hide Payload;
      hide FieldBytes;
      assert Pending()[HEADER..] == before[HEADER..] + FieldBytes(f);
    }

    /** A type code and a number, the shape of most values. */
    method PutCoded(code: byte, u: uint64) returns (ok: bool)
      requires RingOK()
      modifies this`write, this`kept, r`begin, r`tick, r`nano, data, buf
      ensures RingOK() && (ok && old(Packed(0)) ==> Packed(0))
      ensures ok <==> old(write) - r.end + 1 + |Uvarint(u)| < RING
      ensures ok ==> write == old(write) + 1 + |Uvarint(u)| && Pending() == old(Pending()) + ([code] + Uvarint(u))
    {
      hide RingOK;
      hide Pending;
      hide LogBytes;
      hide RecBytes;
      hide BaseFrom;
      hide Uvarint;
      ok := Byte(code);
      if ok {
        ok := PutUvarint(u);
        assert ok ==> Pending() == (old(Pending()) + [code]) + Uvarint(u);
      }
    }

    /** b. */
    method B(ghost e: Entry, x: bool) returns (ok: bool)
      requires Building(e)
      modifies this`write, this`kept, r`begin, r`tick, r`nano, data, buf
      ensures RingOK()
      ensures ok <==> old(write) - r.end + |FieldBytes(if x then BoolTrue else BoolFalse)| < RING
      ensures ok ==> write == old(write) + |FieldBytes(if x then BoolTrue else BoolFalse)|
      ensures ok ==> Building(e.(fields := e.fields + [if x then BoolTrue else BoolFalse]))
    {
      hide RingOK;
      hide Packed;
      hide Window;
      hide LogBytes;
      hide RecBytes;
      hide BaseFrom;
      hide Payload;
      hide Uvarint;
      ok := Byte(if x then 2 else 3);
      if ok { Grown(e, if x then BoolTrue else BoolFalse, old(Pending())); }
    }

    /** i64, and the narrower signed integers that go through it. */
    method I64(ghost e: Entry, x: int64) returns (ok: bool)
      requires Building(e)
      modifies this`write, this`kept, r`begin, r`tick, r`nano, data, buf
      ensures RingOK()
      ensures ok <==> old(write) - r.end + |FieldBytes(Int(x))| < RING
      ensures ok ==> write == old(write) + |FieldBytes(Int(x))| && Building(e.(fields := e.fields + [Int(x)]))
    {
      hide RingOK;
      hide Packed;
      hide Window;
      hide LogBytes;
      hide RecBytes;
      hide BaseFrom;
      hide Payload;
      hide Uvarint;
      ok := Byte(4);
      if ok { ok := PutVarint(x); }
      assert ok ==> Pending() == old(Pending()) + ([4] + Uvarint(Zigzag(x)));
      if ok { Grown(e, Int(x), old(Pending())); }
    }

    /** u64. */
    method U64(ghost e: Entry, x: uint64) returns (ok: bool)
      requires Building(e)
      modifies this`write, this`kept, r`begin, r`tick, r`nano, data, buf
      ensures RingOK()
      ensures ok <==> old(write) - r.end + |FieldBytes(Uint(x))| < RING
      ensures ok ==> write == old(write) + |FieldBytes(Uint(x))| && Building(e.(fields := e.fields + [Uint(x)]))
    {
      hide RingOK;
      hide Packed;
      hide Window;
      hide LogBytes;
      hide RecBytes;
      hide BaseFrom;
      hide Payload;
      hide Uvarint;
      ok := PutCoded(5, x);
      if ok { Grown(e, Uint(x), old(Pending())); }
    }

    /** hex. */
    method HexVal(ghost e: Entry, x: uint64) returns (ok: bool)
      requires Building(e)
      modifies this`write, this`kept, r`begin, r`tick, r`nano, data, buf
      ensures RingOK()
      ensures ok <==> old(write) - r.end + |FieldBytes(Hex(x))| < RING
      ensures ok ==> write == old(write) + |FieldBytes(Hex(x))| && Building(e.(fields := e.fields + [Hex(x)]))
    {
      hide RingOK;
      hide Packed;
      hide Window;
      hide LogBytes;
      hide RecBytes;
      hide BaseFrom;
      hide Payload;
      hide Uvarint;
      ok := PutCoded(6, x);
      if ok { Grown(e, Hex(x), old(Pending())); }
    }

    /** p, once the pointer is known. */
    method P(ghost e: Entry, x: uint64) returns (ok: bool)
      requires Building(e)
      modifies this`write, this`kept, r`begin, r`tick, r`nano, data, buf
      ensures RingOK()
      ensures ok <==> old(write) - r.end + |FieldBytes(Pointer(x))| < RING
      ensures ok ==> write == old(write) + |FieldBytes(Pointer(x))| && Building(e.(fields := e.fields + [Pointer(x)]))
    {
      hide RingOK;
      hide Packed;
      hide Window;
      hide LogBytes;
      hide RecBytes;
      hide BaseFrom;
      hide Payload;
      hide Uvarint;
      ok := PutCoded(7, x);
      if ok { Grown(e, Pointer(x), old(Pending())); }
    }

    /** pc. */
    method Pc(ghost e: Entry, x: uint64) returns (ok: bool)
      requires Building(e)
      modifies this`write, this`kept, r`begin, r`tick, r`nano, data, buf
      ensures RingOK()
      ensures ok <==> old(write) - r.end + |FieldBytes(PC(x))| < RING
      ensures ok ==> write == old(write) + |FieldBytes(PC(x))| && Building(e.(fields := e.fields + [PC(x)]))
    {
      hide RingOK;
      hide Packed;
      hide Window;
      hide LogBytes;
      hide RecBytes;
      hide BaseFrom;
      hide Payload;
      hide Uvarint;
      ok := PutCoded(11, x);
      if ok { Grown(e, PC(x), old(Pending())); }
    }

    /** The overflow note of a truncated string. */
    method Overflow(ghost e: Entry, x: uint64) returns (ok: bool)
      requires Building(e)
      modifies this`write, this`kept, r`begin, r`tick, r`nano, data, buf
      ensures RingOK()
      ensures ok <==> old(write) - r.end + |FieldBytes(StringOverflow(x))| < RING
      ensures ok ==> write == old(write) + |FieldBytes(StringOverflow(x))|
      ensures ok ==> Building(e.(fields := e.fields + [StringOverflow(x)]))
    {
      hide RingOK;
      hide Packed;
      hide Window;
      hide LogBytes;
      hide RecBytes;
      hide BaseFrom;
      hide Payload;
      hide Uvarint;
      ok := PutCoded(10, x);
      if ok { Grown(e, StringOverflow(x), old(Pending())); }
    }

    /** The text of a string. */
    method Text(ghost e: Entry, s: seq<byte>) returns (ok: bool)
      requires Building(e) && |s| < MOD64
      modifies this`write, this`kept, r`begin, r`tick, r`nano, data, buf
      ensures RingOK()
      ensures ok <==> old(write) - r.end + |FieldBytes(String(s))| < RING
      ensures ok ==> write == old(write) + |FieldBytes(String(s))| && Building(e.(fields := e.fields + [String(s)]))
    {
      hide RingOK;
      hide Packed;
      hide Window;
      hide LogBytes;
      hide RecBytes;
      hide BaseFrom;
      hide Payload;
      hide Uvarint;
      ok := PutCoded(8, |s|);
      if ok { ok := Bytes(s); }
      assert ok ==> Pending() == old(Pending()) + ([8] + Uvarint(|s|) + s);
      if ok { Grown(e, String(s), old(Pending())); }
    }

    /** A string constant, by its place in the program. */
    method ConstText(ghost e: Entry, len: uint64, off: uint64) returns (ok: bool)
      requires Building(e)
      modifies this`write, this`kept, r`begin, r`tick, r`nano, data, buf
      ensures RingOK()
      ensures ok <==> old(write) - r.end + |FieldBytes(ConstString(len, off))| < RING
      ensures ok ==> write == old(write) + |FieldBytes(ConstString(len, off))|
      ensures ok ==> Building(e.(fields := e.fields + [ConstString(len, off)]))
    {
      hide RingOK;
      hide Packed;
      hide Window;
      hide LogBytes;
      hide RecBytes;
      hide BaseFrom;
      hide Payload;
      hide Uvarint;
      ok := PutCoded(9, len);
      if ok { ok := PutUvarint(off); }
      assert ok ==> Pending() == old(Pending()) + ([9] + Uvarint(len) + Uvarint(off));
      if ok { Grown(e, ConstString(len, off), old(Pending())); }
    }

    /** s: a constant of the program by its place, any other text cut at the limit, with a
        note of how much is missing. */
    method S(ghost e: Entry, x: seq<byte>, place: Place) returns (ok: bool)
      requires Building(e) && |x| < MOD64
      modifies this`write, this`kept, r`begin, r`tick, r`nano, data, buf
      ensures RingOK()
      ensures ok <==> old(write) - r.end + |FieldsBytes(StringFields(x, place))| < RING
      ensures ok ==> write == old(write) + |FieldsBytes(StringFields(x, place))|
      ensures ok ==> Building(e.(fields := e.fields + StringFields(x, place)))
    {
      hide RingOK;
      hide Packed;
      hide Window;
      hide LogBytes;
      hide RecBytes;
      hide BaseFrom;
      hide Payload;
      hide FieldBytes;
      hide FieldsBytes;
      StringFieldsBytes(x, place);
      if |x| > 4 && place.Rodata? {
        ok := ConstText(e, |x|, place.off);
      } else {
        var b := if |x| > STRING_LIMIT then x[..STRING_LIMIT] else x;
        ok := Text(e, b);
        if ok && |b| != |x| {
          ok := Overflow(e.(fields := e.fields + [String(b)]), |x| - |b|);
          assert e.fields + [String(b)] + [StringOverflow(|x| - |b|)] == e.fields + StringFields(x, place);
        }
      }
    }

    /** traceback. */
    method TraceBack(ghost e: Entry, pcs: seq<uint64>) returns (ok: bool)
      requires Building(e) && |pcs| < MOD64
      modifies this`write, this`kept, r`begin, r`tick, r`nano, data, buf
      ensures RingOK()
      ensures ok <==> old(write) - r.end + |FieldBytes(Traceback(pcs))| < RING
      ensures ok ==> write == old(write) + |FieldBytes(Traceback(pcs))|
      ensures ok ==> Building(e.(fields := e.fields + [Traceback(pcs)]))
    {
      hide RingOK;
      hide Packed;
      hide Window;
      hide LogBytes;
      hide RecBytes;
      hide BaseFrom;
      hide Payload;
      hide Uvarint;
      ok := PutCoded(12, |pcs|);
      if ok { ok := PutUvarints(pcs); }
      assert ok ==> Pending() == old(Pending()) + ([12] + Uvarint(|pcs|) + Uvarints(pcs));
      if ok { Grown(e, Traceback(pcs), old(Pending())); }
    }
  }

  // ---------- printDebugLog ----------

  /** A line of the printed log: which log it comes from, and the message. */
  datatype Line = Line(i: nat, e: Entry)

  function Head(es: seq<Entry>): uint64 { if es == [] then NOTHING else es[0].tick }

  /** The log to print from next: the first among those with the least tick at the front. */
  ghost predicate IsBest(ess: seq<seq<Entry>>, i: nat)
  {
    && i < |ess| && Head(ess[i]) != NOTHING
    && (forall j | 0 <= j < |ess| :: Head(ess[i]) <= Head(ess[j]))
    && (forall j | 0 <= j < i :: Head(ess[i]) < Head(ess[j]))
  }

  /** out interleaves the logs, always taking the log whose next message is the oldest. */
  ghost predicate Merged(ess: seq<seq<Entry>>, out: seq<Line>)
    decreases |out|
  {
    if out == [] then forall i | 0 <= i < |ess| :: Head(ess[i]) == NOTHING
    else
      && IsBest(ess, out[0].i) && out[0].e == ess[out[0].i][0]
      && Merged(ess[out[0].i := ess[out[0].i][1..]], out[1..])
  }

  function Lines(out: seq<Line>, i: nat): seq<Entry>
  {
    if out == [] then [] else (if out[0].i == i then [out[0].e] else []) + Lines(out[1..], i)
  }

  /** Every log comes out whole and in order, up to a message that looks like its end. */
  lemma {:induction false} MergedShowsEach(ess: seq<seq<Entry>>, out: seq<Line>, i: nat)
    requires Merged(ess, out) && i < |ess|
    ensures Lines(out, i) == Shown(ess[i])
    decreases |out|
  {
    if out == [] {
      assert Head(ess[i]) == NOTHING;
    } else {
      var b := out[0].i;
      MergedShowsEach(ess[b := ess[b][1..]], out[1..], i);
    }
  }

  ghost predicate Ordered(es: seq<Entry>)
  {
    forall i, j | 0 <= i < j < |es| :: es[i].tick <= es[j].tick
  }

  /** By tick, and at the same tick by log. */
  predicate InTurn(a: Line, b: Line) { a.e.tick < b.e.tick || (a.e.tick == b.e.tick && a.i <= b.i) }

  lemma {:induction false} MergedNotBefore(ess: seq<seq<Entry>>, out: seq<Line>, line: Line)
    requires Merged(ess, out) && forall i | 0 <= i < |ess| :: Ordered(ess[i])
    requires forall i | 0 <= i < |ess| :: line.e.tick <= Head(ess[i])
    requires forall i | 0 <= i < |ess| && i < line.i :: line.e.tick < Head(ess[i]) || Head(ess[i]) == NOTHING
    ensures forall j | 0 <= j < |out| :: InTurn(line, out[j])
    decreases |out|
  {
    if out != [] {
      var b := out[0].i;
      MergedNotBefore(ess[b := ess[b][1..]], out[1..], line);
      assert forall j | 0 < j < |out| :: out[j] == out[1..][j - 1];
    }
  }

  /** If every log's ticks are in order, so are those of the lines printed, and at the same
      tick the logs come in order. */
  lemma {:induction false} MergedInOrder(ess: seq<seq<Entry>>, out: seq<Line>)
    requires Merged(ess, out) && forall i | 0 <= i < |ess| :: Ordered(ess[i])
    ensures forall i, j | 0 <= i < j < |out| :: InTurn(out[i], out[j])
    decreases |out|
  {
    if out != [] {
      var b := out[0].i;
      MergedInOrder(ess[b := ess[b][1..]], out[1..]);
      MergedNotBefore(ess[b := ess[b][1..]], out[1..], out[0]);
      assert forall j | 0 < j < |out| :: out[j] == out[1..][j - 1];
    }
  }

  ghost function AllEntries(rss: seq<seq<Rec>>): (ess: seq<seq<Entry>>)
    ensures |ess| == |rss| && forall i | 0 <= i < |rss| :: ess[i] == Entries(rss[i])
  {
    seq(|rss|, i requires 0 <= i < |rss| => Entries(rss[i]))
  }

  lemma {:induction false} EntriesPastSyncs(rs: seq<Rec>)
    ensures Entries(PastSyncs(rs)) == Entries(rs)
  {
    if rs != [] && rs[0].Sync? { EntriesPastSyncs(rs[1..]); }
  }

  /** What the readers see: reader i stands before left[i], past any sync records, and
      ticks[i] is what it saw there. */
  ghost predicate Standing(state: seq<Reader>, left: seq<seq<Rec>>, ticks: seq<uint64>)
    reads state, set i | 0 <= i < |state| :: state[i].data
  {
    && |state| == |left| == |ticks|
    && (forall i, j | 0 <= i < j < |state| :: state[i] != state[j])
    && (forall i | 0 <= i < |state| :: state[i].Before(left[i]) && PastSyncs(left[i]) == left[i])
    && (forall i | 0 <= i < |state| :: ticks[i] == Head(Entries(left[i])))
  }

  lemma StandingMore(state: seq<Reader>, left: seq<seq<Rec>>, ticks: seq<uint64>, s: Reader, rs: seq<Rec>, t: uint64)
    requires Standing(state, left, ticks) && s !in state
    requires s.Before(rs) && PastSyncs(rs) == rs && t == Head(Entries(rs))
    ensures Standing(state + [s], left + [rs], ticks + [t])
  {
    hide LogBytes;
    hide Window;
    hide Entries;
    hide PastSyncs;
  }

  lemma FrontEntry(rs: seq<Rec>)
    requires PastSyncs(rs) == rs
    ensures rs == [] ==> Entries(rs) == []
    ensures rs != [] ==> rs[0].Message? && Entries(rs) != [] && Entries(rs)[0] == rs[0].e
    ensures rs != [] ==> Entries(rs)[1..] == Entries(rs[1..])
  {
  }

  ghost function Total(left: seq<seq<Rec>>): nat
  {
    if left == [] then 0 else |left[0]| + Total(left[1..])
  }

  lemma {:induction false} TotalShrinks(left: seq<seq<Rec>>, i: nat, rs: seq<Rec>)
    requires i < |left| && |rs| < |left[i]|
    ensures Total(left[i := rs]) < Total(left)
  {
    if i == 0 {
      assert left[i := rs][1..] == left[1..];
    } else {
      TotalShrinks(left[1..], i - 1, rs);
      assert left[i := rs][1..] == left[1..][i - 1 := rs];
    }
  }

  lemma {:induction false} PastSyncsShorter(rs: seq<Rec>)
    ensures |PastSyncs(rs)| <= |rs| && PastSyncs(PastSyncs(rs)) == PastSyncs(rs)
  {
    if rs != [] && rs[0].Sync? { PastSyncsShorter(rs[1..]); }
  }

  /** A reader's own copy of what the writer's embedded reader knows, and the first peek. */
  method StartReading(w: Writer) returns (s: Reader, t: uint64)
    requires w.RingOK()
    ensures fresh(s) && s.data == w.data && s.Before(PastSyncs(w.kept)) && t == Head(Entries(w.kept))
  {
    hide LogBytes;
    hide Window;
    s := new Reader(w.r.data);
    s.begin, s.end, s.tick, s.nano := w.r.begin, w.r.end, w.r.tick, w.r.nano;
    t := s.Peek(w.kept);
    EntriesPastSyncs(w.kept);
    PastSyncsShorter(w.kept);
    FrontEntry(PastSyncs(w.kept));
  }

  /** The search for the reader with the oldest message. */
  method FindBest(ticks: seq<uint64>) returns (best: uint64, bi: nat)
    ensures best == NOTHING ==> forall i | 0 <= i < |ticks| :: ticks[i] == NOTHING
    ensures best != NOTHING ==> bi < |ticks| && ticks[bi] == best
    ensures forall j | 0 <= j < |ticks| :: best <= ticks[j]
    ensures best != NOTHING ==> forall j | 0 <= j < bi :: best < ticks[j]
  {
    best, bi := NOTHING, 0;
    for i := 0 to |ticks|
      invariant best == NOTHING ==> forall k | 0 <= k < i :: ticks[k] == NOTHING
      invariant best != NOTHING ==> bi < i && ticks[bi] == best
      invariant forall j | 0 <= j < i :: best <= ticks[j]
      invariant best != NOTHING ==> forall j | 0 <= j < bi :: best < ticks[j]
    {
      if ticks[i] < best { best, bi := ticks[i], i; }
    }
  }

  /** Prints one message of one log and looks at what comes next there. */
  method PrintNext(s: Reader, ghost rs: seq<Rec>) returns (e: Entry, t: uint64)
    requires s.Before(rs) && PastSyncs(rs) == rs && rs != []
    modifies s
    ensures e == rs[0].e && s.Before(PastSyncs(rs[1..])) && t == Head(Entries(rs[1..]))
  {
    hide LogBytes;
    hide Window;
    FrontEntry(rs);
    e := s.ReadMessage(rs);
    t := s.Peek(rs[1..]);
    EntriesPastSyncs(rs[1..]);
    PastSyncsShorter(rs[1..]);
    FrontEntry(PastSyncs(rs[1..]));
  }

  /** The messages the rings of the logs still hold. */
  ghost function Held(ws: seq<Writer>): (ess: seq<seq<Entry>>)
    reads set i | 0 <= i < |ws| :: ws[i]
    ensures |ess| == |ws| && forall i | 0 <= i < |ws| :: ess[i] == Entries(ws[i].kept)
  {
    if ws == [] then [] else Held(ws[..|ws| - 1]) + [Entries(ws[|ws| - 1].kept)]
  }

  /** The read state of all logs. */
  method StartAll(ws: seq<Writer>) returns (state: seq<Reader>, ticks: seq<uint64>, ghost left: seq<seq<Rec>>)
    requires forall i | 0 <= i < |ws| :: ws[i].RingOK()
    ensures forall k | 0 <= k < |state| :: fresh(state[k])
    ensures Standing(state, left, ticks) && AllEntries(left) == Held(ws)
  {
    hide LogBytes;
    hide Window;
    hide RecBytes;
    hide BaseFrom;
    hide Entries;
    hide PastSyncs;
    state, ticks, left := [], [], [];
    for i := 0 to |ws|
      invariant |state| == i && forall k | 0 <= k < i :: fresh(state[k])
      invariant Standing(state, left, ticks)
      invariant forall k | 0 <= k < i :: Entries(left[k]) == Entries(ws[k].kept)
    {
      var s, t := StartReading(ws[i]);
      EntriesPastSyncs(ws[i].kept);
      PastSyncsShorter(ws[i].kept);
      StandingMore(state, left, ticks, s, PastSyncs(ws[i].kept), t);
      state, ticks, left := state + [s], ticks + [t], left + [PastSyncs(ws[i].kept)];
    }
  }

  /** printDebugLog: the messages all the rings still hold, the oldest first.  A ring is
      readable also while a message is being built in it. */
  method PrintDebugLog(ws: seq<Writer>) returns (out: seq<Line>)
    requires forall i | 0 <= i < |ws| :: ws[i].RingOK()
    ensures Merged(Held(ws), out)
  {
    hide Reader.Before;
    hide LogBytes;
    hide Window;
    hide RecBytes;
    hide BaseFrom;
    hide Merged;
    hide Held;
    hide Entries;
    hide PastSyncs;
    hide Total;
    var state: seq<Reader>, ticks: seq<uint64>;
    ghost var left;
    state, ticks, left := StartAll(ws);
    ghost var all := AllEntries(left);
    out := [];
    assert forall rest: seq<Line> {:trigger [] + rest} :: [] + rest == rest;
    while true
      invariant forall k | 0 <= k < |state| :: fresh(state[k])
      invariant Standing(state, left, ticks)
      invariant forall rest | Merged(AllEntries(left), rest) :: Merged(all, out + rest)
      decreases Total(left)
    {
      var best, bi := FindBest(ticks);
      if best == NOTHING { break; }
      ghost var after := Advance(left, ticks, bi);
      var e, t := PrintNext(state[bi], left[bi]);
      MergedMore(all, AllEntries(left), out, Line(bi, e));
      ticks, left, out := ticks[bi := t], left[bi := after], out + [Line(bi, e)];
    }
    MergedEnd(AllEntries(left));
    assert out + [] == out;
  }

  /** What one printed message does to what is left to read. */
  lemma Advance(left: seq<seq<Rec>>, ticks: seq<uint64>, i: nat) returns (after: seq<Rec>)
    requires i < |left| == |ticks| && ticks[i] != NOTHING
    requires forall j | 0 <= j < |left| :: ticks[j] == Head(Entries(left[j])) && PastSyncs(left[j]) == left[j]
    requires forall j | 0 <= j < |ticks| :: ticks[i] <= ticks[j]
    requires forall j | 0 <= j < i :: ticks[i] < ticks[j]
    ensures IsBest(AllEntries(left), i) && left[i] != [] && left[i][0].Message?
      && AllEntries(left)[i][0] == left[i][0].e
    ensures after == PastSyncs(left[i][1..]) && PastSyncs(after) == after && Entries(after) == Entries(left[i][1..])
    ensures Total(left[i := after]) < Total(left)
    ensures AllEntries(left)[i := AllEntries(left)[i][1..]] == AllEntries(left[i := after])
  {
    FrontEntry(left[i]);
    after := PastSyncs(left[i][1..]);
    EntriesPastSyncs(left[i][1..]);
    PastSyncsShorter(left[i][1..]);
    TotalShrinks(left, i, after);
  }

  lemma MergedEnd(ess: seq<seq<Entry>>)
    requires forall i | 0 <= i < |ess| :: Head(ess[i]) == NOTHING
    ensures Merged(ess, [])
  {
  }

  lemma MergedMore(all: seq<seq<Entry>>, ess: seq<seq<Entry>>, out: seq<Line>, line: Line)
    requires forall rest | Merged(ess, rest) :: Merged(all, out + rest)
    requires IsBest(ess, line.i) && line.e == ess[line.i][0]
    ensures forall rest | Merged(ess[line.i := ess[line.i][1..]], rest) :: Merged(all, out + [line] + rest)
  {
    forall rest | Merged(ess[line.i := ess[line.i][1..]], rest) ensures Merged(all, out + [line] + rest) {
      assert ([line] + rest)[1..] == rest;
      assert Merged(ess, [line] + rest);
      assert out + [line] + rest == out + ([line] + rest);
    }
  }

  predicate TooOld(base: Base, t: uint64, n: uint64) { Minus(t, base.tick) > LIMIT || Minus(n, base.nano) > LIMIT }

  lemma SyncBase(t: uint64, n: uint64, base: Base)
    ensures BaseFrom([Sync(t, n)], base) == Base(t, n)
  {
  }

  lemma MessageBase(e: Entry, base: Base)
    ensures BaseFrom([Message(e)], base) == base
  {
  }
}

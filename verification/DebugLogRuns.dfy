/** runtime/debuglog.go: whole messages, as dlog() and the calls chained to it write them, and
    runs of messages: what of a run the ring still holds. */
module DebugLogRuns {
  import opened Basics
  import opened DebugLogFormat
  import opened DebugLog

  type Text = s: seq<byte> | |s| < MOD64

  type Trace = us: seq<uint64> | |us| < MOD64

  /** One call of the chain: b, the integer calls, hex, p, pc, s, traceback. */
  datatype Arg =
    | Flag(b: bool) | Signed(x: int64) | Unsigned(u: uint64) | InHex(u: uint64) | Ptr(u: uint64)
    | Counter(u: uint64) | Str(s: Text, place: Place) | Stack(pcs: Trace)

  /** The fields it logs. */
  function Fields(a: Arg): seq<Field>
  {
    match a
    case Flag(b) => [if b then BoolTrue else BoolFalse]
    case Signed(x) => [Int(x)]
    case Unsigned(u) => [Uint(u)]
    case InHex(u) => [Hex(u)]
    case Ptr(u) => [Pointer(u)]
    case Counter(u) => [PC(u)]
    case Str(s, place) => StringFields(s, place)
    case Stack(pcs) => [Traceback(pcs)]
  }

  function AllFields(args: seq<Arg>): seq<Field>
  {
    if args == [] then [] else AllFields(args[..|args| - 1]) + Fields(args[|args| - 1])
  }

  /** A message: the times and the processor dlog reads, and the calls up to end. */
  datatype Call = Call(t: uint64, n: uint64, p: int64, args: seq<Arg>)

  function Made(c: Call): Entry { Entry(c.t, c.n, c.p, AllFields(c.args)) }

  function MadeAll(cs: seq<Call>): (es: seq<Entry>)
    ensures |es| == |cs| && forall i | 0 <= i < |cs| :: es[i] == Made(cs[i])
  {
    seq(|cs|, i requires 0 <= i < |cs| => Made(cs[i]))
  }

  // ---------- one message ----------

  lemma {:induction false} FieldsBytesAppend(a: seq<Field>, b: seq<Field>)
    ensures FieldsBytes(a + b) == FieldsBytes(a) + FieldsBytes(b)
  {
    hide FieldBytes;
    if b == [] {
      assert a + b == a;
    } else {
      FieldsBytesAppend(a, b[..|b| - 1]);
      assert (a + b)[..|a + b| - 1] == a + b[..|b| - 1];
    }
  }

  lemma OneField(f: Field)
    ensures FieldsBytes([f]) == FieldBytes(f)
  {
    hide FieldBytes;
    assert FieldsBytes([f]) == FieldsBytes([]) + FieldBytes(f);
  }

  lemma ArgsStep(args: seq<Arg>, i: nat)
    requires i < |args|
    ensures AllFields(args[..i + 1]) == AllFields(args[..i]) + Fields(args[i])
    ensures FieldsBytes(AllFields(args[..i + 1])) == FieldsBytes(AllFields(args[..i])) + FieldsBytes(Fields(args[i]))
    ensures |FieldsBytes(AllFields(args[..i + 1]))| <= |FieldsBytes(AllFields(args))|
  {
    assert args[..i + 1][..i] == args[..i];
    FieldsBytesAppend(AllFields(args[..i]), Fields(args[i]));
    ArgsPrefix(args, i + 1);
  }

  lemma {:induction false} ArgsPrefix(args: seq<Arg>, i: nat)
    requires i <= |args|
    ensures |FieldsBytes(AllFields(args[..i]))| <= |FieldsBytes(AllFields(args))|
  {
    if i == |args| {
      assert args[..i] == args;
    } else {
      ArgsPrefix(args[..|args| - 1], i);
      assert args[..|args| - 1][..i] == args[..i];
      FieldsBytesAppend(AllFields(args[..|args| - 1]), Fields(args[|args| - 1]));
    }
  }

  /** One call of the chain. */
  method PutArg(w: Writer, ghost e: Entry, a: Arg) returns (ok: bool)
    requires w.Building(e)
    modifies w`write, w`kept, w.r`begin, w.r`tick, w.r`nano, w.data, w.buf
    ensures w.RingOK()
    ensures ok <==> old(w.write) - w.r.end + |FieldsBytes(Fields(a))| < RING
    ensures ok ==> w.write == old(w.write) + |FieldsBytes(Fields(a))|
    ensures ok ==> w.Building(e.(fields := e.fields + Fields(a)))
  {
    hide Writer.Building;
    hide Writer.RingOK;
    hide FieldBytes;
    hide FieldsBytes;
    if !a.Str? { OneField(Fields(a)[0]); }
    match a
    case Flag(b) => ok := w.B(e, b);
    case Signed(x) => ok := w.I64(e, x);
    case Unsigned(u) => ok := w.U64(e, u);
    case InHex(u) => ok := w.HexVal(e, u);
    case Ptr(u) => ok := w.P(e, u);
    case Counter(u) => ok := w.Pc(e, u);
    case Str(s, place) => ok := w.S(e, s, place);
    case Stack(pcs) => ok := w.TraceBack(e, pcs);
  }

  /** The chain. */
  method PutArgs(w: Writer, ghost e: Entry, args: seq<Arg>) returns (ok: bool)
    requires w.Building(e) && e.fields == [] && w.write - w.r.end < RING
    modifies w`write, w`kept, w.r`begin, w.r`tick, w.r`nano, w.data, w.buf
    ensures w.RingOK()
    ensures ok <==> old(w.write) - w.r.end + |FieldsBytes(AllFields(args))| < RING
    ensures ok ==> w.Building(e.(fields := AllFields(args)))
  {
    hide Writer.RingOK;
    hide Writer.Packed;
    hide Writer.Pending;
    hide FieldsBytes;
    hide Fields;
    assert AllFields(args[..0]) == [] && e.(fields := []) == e;
    NoFields(AllFields(args[..0]));
    for i := 0 to |args|
      invariant w.Building(e.(fields := AllFields(args[..i])))
      invariant w.write == old(w.write) + |FieldsBytes(AllFields(args[..i]))| && w.write - w.r.end < RING
    {
      ArgsStep(args, i);
      ok := PutArg(w, e.(fields := AllFields(args[..i])), args[i]);
      if !ok { return; }
    }
    assert args[..|args|] == args;
    ok := true;
  }

  function BaseFor(base: Base, c: Call): Base { if TooOld(base, c.t, c.n) then Base(c.t, c.n) else base }

  function SyncFor(base: Base, c: Call): seq<Rec> { if TooOld(base, c.t, c.n) then [Sync(c.t, c.n)] else [] }

  /** Too much for the whole ring, framed and with its times as differences from the base. */
  ghost predicate TooLarge(c: Call, base: Base) { HEADER + |Payload(Made(c), base)| >= RING }

  lemma {:induction false} EntriesAppend(a: seq<Rec>, b: seq<Rec>)
    ensures Entries(a + b) == Entries(a) + Entries(b)
  {
    if a == [] {
      assert a + b == b;
    } else {
      EntriesAppend(a[1..], b);
      assert (a + b)[1..] == a[1..] + b;
      var first := if a[0].Message? then [a[0].e] else [];
      assert first + (Entries(a[1..]) + Entries(b)) == (first + Entries(a[1..])) + Entries(b);
    }
  }

  lemma LoggedOne(before: seq<Rec>, base: Base, c: Call)
    ensures Entries(before + SyncFor(base, c)) == Entries(before)
    ensures Entries(before + SyncFor(base, c) + [Message(Made(c))]) == Entries(before) + [Made(c)]
  {
    hide AllFields;
    var m := [Message(Made(c))];
    EntriesAppend(before, SyncFor(base, c));
    assert Entries([Sync(c.t, c.n)]) == Entries([Sync(c.t, c.n)][1..]) == [];
    EntriesAppend(before + SyncFor(base, c), m);
    assert Entries(m) == [Made(c)] + Entries(m[1..]);
  }

  /** dlog, once the times are read. */
  method Begin(w: Writer, c: Call)
    requires w.Valid()
    modifies w, w.r, w.data, w.buf
    ensures w.Building(Entry(c.t, c.n, c.p, [])) && w.write - w.r.end < RING
    ensures Base(w.tick, w.nano) == BaseFor(old(Base(w.tick, w.nano)), c)
    ensures w.write - w.r.end == HEADER + |HeaderBytes(Made(c), Base(w.tick, w.nano))|
    ensures w.log == old(w.log) + SyncFor(old(Base(w.tick, w.nano)), c)
  {
    hide Uvarint;
    hide FieldsBytes;
    hide LogBytes;
    hide RecBytes;
    hide BaseFrom;
    hide Window;
    var _ := w.Dlog(c.t, c.n, c.p);
    BaseFromSync(old(w.log), old(Base(w.tick, w.nano)), c);
    NoFields([]);
    assert |w.Pending()| == w.write - w.r.end;
    assert HeaderBytes(Made(c), Base(w.tick, w.nano)) == HeaderBytes(Entry(c.t, c.n, c.p, []), Base(w.tick, w.nano));
  }

  /** dlog()....end(): the message becomes the newest record, unless the writer throws,
      and it throws exactly for a message that fills the ring by itself. */
  method Log(w: Writer, c: Call) returns (ok: bool)
    requires w.Valid()
    modifies w, w.r, w.data, w.buf
    ensures w.RingOK() && Base(w.tick, w.nano) == BaseFor(old(Base(w.tick, w.nano)), c)
    ensures ok <==> !TooLarge(c, Base(w.tick, w.nano))
    ensures ok ==> w.Valid()
    ensures w.log == old(w.log) + SyncFor(old(Base(w.tick, w.nano)), c) + (if ok then [Message(Made(c))] else [])
    ensures Entries(w.log) == Entries(old(w.log)) + (if ok then [Made(c)] else [])
  {
    hide Writer.RingOK;
    hide Writer.Packed;
    hide Writer.Pending;
    hide HeaderBytes;
    hide FieldsBytes;
    hide Entries;
    hide SyncFor;
    hide BaseFor;
    LoggedOne(w.log, Base(w.tick, w.nano), c);
    Begin(w, c);
    ok := PutArgs(w, Entry(c.t, c.n, c.p, []), c.args);
    if ok { var _ := w.End(Made(c)); }
  }

  lemma BaseFromSync(log: seq<Rec>, base: Base, c: Call)
    requires base == BaseFrom(log, Base(0, 0))
    ensures BaseFrom(log + SyncFor(base, c), Base(0, 0)) == BaseFor(base, c)
  {
    BaseFromAppend(log, SyncFor(base, c), Base(0, 0));
    assert log + [] == log;
    assert BaseFrom([Sync(c.t, c.n)], base) == BaseFrom([], Base(c.t, c.n));
  }

  /** A new time base is written if and only if one of the time differences would take more
      than three bytes. */
  lemma SyncWhenNeeded(base: Base, c: Call)
    ensures SyncFor(base, c) == [] <==>
              |Uvarint(Minus(c.t, base.tick))| <= 3 && |Uvarint(Minus(c.n, base.nano))| <= 3
    ensures BaseFor(base, c) == if SyncFor(base, c) == [] then base else Base(c.t, c.n)
  {
    hide Uvarint;
    assert Limit(3) == LIMIT + 1;
    var d, e := Minus(c.t, base.tick), Minus(c.n, base.nano);
    if d <= LIMIT { UvarintFits(d, 3); } else { UvarintNeeds(d, 3); }
    if e <= LIMIT { UvarintFits(e, 3); } else { UvarintNeeds(e, 3); }
  }

  // ---------- what is printed of a message ----------

  /** What printVal passes to print, gwrite and printDebugLogPC. */
  datatype Token =
    | Truth(b: bool) | Decimal(x: int) | Hexadecimal(u: uint64) | Raw(s: seq<byte>) | More(n: nat)
    | Code(pc: uint64) | NextLine

  /** printVal for a value read; `program` is the text the program has at a place. */
  function Printed(f: Field, program: (nat, nat) -> seq<byte>): seq<Token>
  {
    match f
    case BoolTrue => [Truth(true)]
    case BoolFalse => [Truth(false)]
    case Int(x) => [Decimal(x)]
    case Uint(u) => [Decimal(u)]
    case Hex(u) => [Hexadecimal(u)]
    case Pointer(u) => [Hexadecimal(u)]
    case String(s) => [Raw(s)]
    case ConstString(len, off) => [Raw(program(off, len))]
    case StringOverflow(u) => [More(u)]
    case PC(u) => [Code(u)]
    case Traceback(pcs) => Codes(pcs)
  }

  function Codes(pcs: seq<uint64>): seq<Token>
  {
    if pcs == [] then [] else Codes(pcs[..|pcs| - 1]) + [NextLine, Code(pcs[|pcs| - 1])]
  }

  function PrintedAll(fs: seq<Field>, program: (nat, nat) -> seq<byte>): seq<Token>
  {
    if fs == [] then [] else PrintedAll(fs[..|fs| - 1], program) + Printed(fs[|fs| - 1], program)
  }

  /** What the caller of the chain asked to see: a text whole, if it is a constant of more than
      four bytes or has no more than 2048, and otherwise its beginning and the number of bytes
      left out. */
  function Wanted(a: Arg): seq<Token>
  {
    match a
    case Flag(b) => [Truth(b)]
    case Signed(x) => [Decimal(x)]
    case Unsigned(u) => [Decimal(u)]
    case InHex(u) => [Hexadecimal(u)]
    case Ptr(u) => [Hexadecimal(u)]
    case Counter(u) => [Code(u)]
    case Str(s, place) =>
      if |s| <= 2048 || place.Rodata? then [Raw(s)] else [Raw(s[..2048]), More(|s| - 2048)]
    case Stack(pcs) => Codes(pcs)
  }

  function WantedAll(args: seq<Arg>): seq<Token>
  {
    if args == [] then [] else WantedAll(args[..|args| - 1]) + Wanted(args[|args| - 1])
  }

  /** The constants among the arguments are where they are said to be. */
  ghost predicate Placed(args: seq<Arg>, program: (nat, nat) -> seq<byte>)
  {
    forall i | 0 <= i < |args| && args[i].Str? && args[i].place.Rodata? ::
      program(args[i].place.off, |args[i].s|) == args[i].s
  }

  lemma PrintedOne(a: Arg, program: (nat, nat) -> seq<byte>)
    requires Placed([a], program)
    ensures PrintedAll(Fields(a), program) == Wanted(a)
  {
    assert [a][0] == a;
    var fs := Fields(a);
    assert PrintedAll([], program) == [];
    if |fs| == 2 { assert fs[..1] == [fs[0]] && [fs[0]][..0] == []; } else { assert fs[..0] == []; }
  }

  lemma {:induction false} PrintedJoin(a: seq<Field>, b: seq<Field>, program: (nat, nat) -> seq<byte>)
    ensures PrintedAll(a + b, program) == PrintedAll(a, program) + PrintedAll(b, program)
  {
    hide Printed;
    if b == [] {
      assert a + b == a;
    } else {
      PrintedJoin(a, b[..|b| - 1], program);
      assert (a + b)[..|a + b| - 1] == a + b[..|b| - 1];
    }
  }

  /** A message that is read back is printed as it was given: what the values it holds are
      printed as is what the caller asked to see. */
  lemma {:induction false} PrintedAsGiven(args: seq<Arg>, program: (nat, nat) -> seq<byte>)
    requires Placed(args, program)
    ensures PrintedAll(AllFields(args), program) == WantedAll(args)
  {
    hide Printed;
    hide Fields;
    hide Wanted;
    if args != [] {
      var n := |args| - 1;
      PrintedAsGiven(args[..n], program);
      assert [args[n]][0] == args[n];
      PrintedOne(args[n], program);
      PrintedJoin(AllFields(args[..n]), Fields(args[n]), program);
    }
  }

  // ---------- a run ----------

  ghost predicate Suffix<T(!new)>(a: seq<T>, b: seq<T>) { |a| <= |b| && b[|b| - |a|..] == a }

  lemma EntriesSuffix(a: seq<Rec>, b: seq<Rec>)
    requires Suffix(a, b)
    ensures Suffix(Entries(a), Entries(b))
  {
    var k := |b| - |a|;
    assert b == b[..k] + a;
    EntriesAppend(b[..k], a);
  }

  lemma KeptEntries(w: Writer)
    requires w.RingOK()
    ensures Suffix(Entries(w.kept), Entries(w.log))
  {
    EntriesSuffix(w.kept, w.log);
  }

  /** A run of messages, on a log that may hold others already.  All are logged in order,
      up to one that fills the ring by itself; at every point the ring holds the newest. */
  method LogAll(w: Writer, cs: seq<Call>) returns (done: nat)
    requires w.Valid()
    modifies w, w.r, w.data, w.buf
    ensures done <= |cs| && w.RingOK() && (done == |cs| ==> w.Valid())
    ensures done < |cs| ==> TooLarge(cs[done], Base(w.tick, w.nano))
    ensures Entries(w.log) == Entries(old(w.log)) + MadeAll(cs[..done])
    ensures Suffix(Entries(w.kept), Entries(w.log))
  {
    hide Made;
    hide Writer.RingOK;
    hide Writer.Packed;
    hide TooLarge;
    hide Entries;
    hide BaseFor;
    hide SyncFor;
    hide Suffix;
    done := 0;
    while done < |cs|
      invariant done <= |cs| && w.Valid()
      invariant Entries(w.log) == Entries(old(w.log)) + MadeAll(cs[..done])
      decreases |cs| - done
    {
      var ok := Log(w, cs[done]);
      if !ok { break; }
      assert MadeAll(cs[..done + 1]) == MadeAll(cs[..done]) + [Made(cs[done])];
      done := done + 1;
    }
    KeptEntries(w);
  }

  /** The bytes of the records of a log from the i-th on. */
  ghost function SizeFrom(log: seq<Rec>, i: nat): nat
    requires i <= |log|
  {
    |LogBytes(log[i..], BaseFrom(log[..i], Base(0, 0)))|
  }

  lemma SizeStep(log: seq<Rec>, i: nat)
    requires i < |log|
    ensures SizeFrom(log, i) == |RecBytes(log[i], BaseFrom(log[..i], Base(0, 0)))| + SizeFrom(log, i + 1)
  {
    hide RecBytes;
    LogBytesAppend(log[..i], log[i], Base(0, 0));
    assert log[..i + 1] == log[..i] + [log[i]] && log[i..][1..] == log[i + 1..];
  }

  lemma {:induction false} SizeGrows(log: seq<Rec>, i: nat, k: nat)
    requires i <= k <= |log|
    ensures SizeFrom(log, i) >= SizeFrom(log, k)
    decreases k - i
  {
    hide SizeFrom;
    if i < k {
      SizeGrows(log, i + 1, k);
      SizeStep(log, i);
    }
  }

  /** Between two messages the ring holds as many of the newest records as it has bytes for. */
  lemma HoldsTheNewest(w: Writer)
    requires w.Valid()
    ensures Suffix(w.kept, w.log)
    ensures forall i | 0 <= i <= |w.log| :: SizeFrom(w.log, i) < RING <==> i >= |w.log| - |w.kept|
  {
    hide LogBytes;
    hide RecBytes;
    hide BaseFrom;
    hide Window;
    var k := |w.log| - |w.kept|;
    assert SizeFrom(w.log, k) == w.r.end - w.r.begin;
    if k > 0 { SizeStep(w.log, k - 1); }
    forall i | 0 <= i <= |w.log| ensures SizeFrom(w.log, i) < RING <==> i >= k {
      if i >= k { SizeGrows(w.log, k, i); } else { SizeGrows(w.log, i, k - 1); }
    }
  }
}

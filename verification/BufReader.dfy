/** bufio/bufio.go, the Reader: pieces of any size come in, delimited data goes out. */
module BufReader {
  import opened Basics
  import opened Io
  import Search

  const MIN_SIZE := 16                 // minReadBufferSize
  const NEWLINE: byte := 10
  const RETURN: byte := 13

  // ---------- what there is to read ----------

  datatype Item = Byte(b: byte) | Err(e: Error)

  /** A tape: bytes and errors in the order they come; after it, EOF for ever. */
  type Tape = seq<Item>

  function Bytes(s: seq<byte>): (t: Tape)
    ensures |t| == |s|
  {
    seq(|s|, i requires 0 <= i < |s| => Byte(s[i]))
  }

  /** An error in front of a tape; EOF in front of nothing is nothing new. */
  function Then(err: Option<Error>, tape: Tape): Tape
  {
    if err == None || (err.value == EOF && tape == []) then tape else [Err(err.value)] + tape
  }

  /** The tape of a reader whose last `idle` answers were empty; too many such answers in a
      row count as an error. */
  function TapeOf(plan: seq<Answer>, idle: nat): Tape
    decreases |plan|, if idle >= MAX_EMPTY_READS then 1 else 0
  {
    if idle >= MAX_EMPTY_READS then [Err(ErrNoProgress)] + TapeOf(plan, 0)
    else if plan == [] then []
    else if plan[0].err == None && plan[0].data == [] then TapeOf(plan[1..], idle + 1)
    else Bytes(plan[0].data) + Then(plan[0].err, TapeOf(plan[1..], 0))
  }

  /** Data answers in front of a plan come first on its tape. */
  lemma {:induction false} TapeJoin(a: seq<Answer>, plan: seq<Answer>)
    requires forall i | 0 <= i < |a| :: a[i].err == None && a[i].data != []
    ensures TapeOf(a + plan, 0) == Bytes(DataOf(a)) + TapeOf(plan, 0)
  {
    if a == [] {
      assert a + plan == plan;
    } else {
      TapeJoin(a[1..], plan);
      assert (a + plan)[0] == a[0] && (a + plan)[1..] == a[1..] + plan;
      BytesJoin(a[0].data, DataOf(a[1..]));
    }
  }

  /** An error stands between the data that comes with it and what comes later; an EOF is not
      noted if nothing does. */
  lemma TapeError(data: seq<byte>, e: Error, plan: seq<Answer>)
    ensures TapeOf([Answer(data, Some(e))] + plan, 0)
              == Bytes(data) + (if e == EOF && TapeOf(plan, 0) == [] then [] else [Err(e)] + TapeOf(plan, 0))
    ensures TapeOf([], 0) == []
  {
    assert ([Answer(data, Some(e))] + plan)[1..] == plan;
  }

  /** Fewer than a hundred empty answers in a row are passed over; a hundred are an error. */
  lemma {:induction false} TapePauses(n: nat, idle: nat, plan: seq<Answer>)
    requires idle + n < 100 ==> plan == [] || plan[0].data != [] || plan[0].err.Some?
    requires idle + n <= 100
    ensures TapeOf(Pauses(n) + plan, idle)
              == if idle + n < 100 then TapeOf(plan, 0) else [Err(ErrNoProgress)] + TapeOf(plan, 0)
    decreases n
  {
    var all := Pauses(n) + plan;
    if n == 0 {
      assert all == plan;
    } else {
      TapePauses(n - 1, idle + 1, plan);
      assert all[0] == Answer([], None) && all[1..] == Pauses(n - 1) + plan;
    }
  }

  /** Data through the first delim, or up to an error. */
  datatype Cut = Cut(data: seq<byte>, err: Option<Error>, rest: Tape)

  function Through(tape: Tape, delim: byte): Cut
  {
    if tape == [] then Cut([], Some(EOF), [])
    else match tape[0]
      case Err(e) => Cut([], Some(e), tape[1..])
      case Byte(b) =>
        if b == delim then Cut([b], None, tape[1..])
        else var c := Through(tape[1..], delim); c.(data := [b] + c.data)
  }

  /** The cut ends with the first delimiter if there is no error, and holds none if there is. */
  lemma {:induction false} ThroughDelim(tape: Tape, delim: byte)
    ensures var c := Through(tape, delim);
            && (c.err == None <==> c.data != [] && c.data[|c.data| - 1] == delim)
            && (forall i | 0 <= i < |c.data| - 1 :: c.data[i] != delim)
  {
    if tape != [] && tape[0].Byte? && tape[0].b != delim { ThroughDelim(tape[1..], delim); }
  }

  /** Nothing is lost: the cut, its error and the rest make up the tape. */
  lemma {:induction false} ThroughKeeps(tape: Tape, delim: byte)
    ensures var c := Through(tape, delim);
            tape == Bytes(c.data) + (if c.err.Some? && |tape| > |c.data| then [Err(c.err.value)] else []) + c.rest
    ensures |tape| == |Through(tape, delim).data| ==> Through(tape, delim).rest == []
  {
    hide Bytes;
    if tape != [] && tape[0].Byte? {
      BytesOne(tape[0].b);
      if tape[0].b != delim {
        ThroughKeeps(tape[1..], delim);
        BytesJoin([tape[0].b], Through(tape[1..], delim).data);
      }
      assert tape == [tape[0]] + tape[1..];
    }
  }

  lemma BytesOne(b: byte)
    ensures Bytes([b]) == [Byte(b)]
  {
  }

  /** Data without a delimiter in front only makes the cut longer. */
  lemma {:induction false} ThroughLonger(data: seq<byte>, tape: Tape, delim: byte)
    requires delim !in data
    ensures Through(Bytes(data) + tape, delim) == Through(tape, delim).(data := data + Through(tape, delim).data)
  {
    if data == [] {
      assert Bytes(data) + tape == tape;
    } else {
      ThroughLonger(data[1..], tape, delim);
      assert (Bytes(data) + tape)[1..] == Bytes(data[1..]) + tape;
      assert [data[0]] + (data[1..] + Through(tape, delim).data) == data + Through(tape, delim).data;
    }
  }

  lemma BytesJoin(a: seq<byte>, b: seq<byte>)
    ensures Bytes(a + b) == Bytes(a) + Bytes(b)
  {
  }

  /** The data comes first on the tape, then the rest. */
  ghost predicate Ahead(tape: Tape, data: seq<byte>, rest: Tape) { tape == Bytes(data) + rest }

  /** What repeated calls of ReadSlice gather: as Through, but an ErrBufferFull that comes
      from the source itself looks like a full buffer, and is passed over. */
  function Gather(tape: Tape, delim: byte): Cut
  {
    if tape == [] then Cut([], Some(EOF), [])
    else match tape[0]
      case Err(e) => if e == ErrBufferFull then Gather(tape[1..], delim) else Cut([], Some(e), tape[1..])
      case Byte(b) =>
        if b == delim then Cut([b], None, tape[1..])
        else var c := Gather(tape[1..], delim); c.(data := [b] + c.data)
  }

  /** Which makes a difference only for such a source. */
  lemma {:induction false} GatherThrough(tape: Tape, delim: byte)
    ensures Gather(tape, delim).err != Some(ErrBufferFull)
    ensures Gather(tape, delim) == Through(tape, delim) <==> Through(tape, delim).err != Some(ErrBufferFull)
  {
    if tape != [] {
      if tape[0].Byte? || tape[0].e == ErrBufferFull { GatherThrough(tape[1..], delim); }
    }
  }

  /** It ends with the first delimiter if there is no error, and holds none if there is. */
  lemma {:induction false} GatherDelim(tape: Tape, delim: byte)
    ensures var c := Gather(tape, delim);
            && (c.err == None <==> c.data != [] && c.data[|c.data| - 1] == delim)
            && (forall i | 0 <= i < |c.data| - 1 :: c.data[i] != delim)
  {
    if tape != [] && tape[0] != Byte(delim) && (tape[0].Byte? || tape[0].e == ErrBufferFull) {
      GatherDelim(tape[1..], delim);
    }
  }

  /** A tape without such errors. */
  function Passed(tape: Tape): Tape
  {
    if tape == [] then []
    else if tape[0] == Err(ErrBufferFull) then Passed(tape[1..])
    else [tape[0]] + Passed(tape[1..])
  }

  /** All else is kept: gathering is cutting the tape without them. */
  lemma {:induction false} GatherKeeps(tape: Tape, delim: byte)
    ensures var c := Gather(tape, delim);
            Through(Passed(tape), delim) == c.(rest := Passed(c.rest))
  {
    if tape != [] {
      GatherKeeps(tape[1..], delim);
      if tape[0] != Err(ErrBufferFull) { assert Passed(tape)[1..] == Passed(tape[1..]); }
    }
  }

  /** A source that says ErrBufferFull at once: the promised error is not reported. */
  lemma ErrorPassedOver(delim: byte)
    ensures Through([Err(ErrBufferFull)], delim) == Cut([], Some(ErrBufferFull), [])
    ensures Gather([Err(ErrBufferFull)], delim) == Cut([], Some(EOF), [])
  {
    assert [Err(ErrBufferFull)][1..] == [];
  }

  lemma {:induction false} GatherLonger(data: seq<byte>, tape: Tape, delim: byte)
    requires delim !in data
    ensures Gather(Bytes(data) + tape, delim) == Gather(tape, delim).(data := data + Gather(tape, delim).data)
  {
    if data == [] {
      assert Bytes(data) + tape == tape;
    } else {
      GatherLonger(data[1..], tape, delim);
      assert (Bytes(data) + tape)[1..] == Bytes(data[1..]) + tape;
      assert [data[0]] + (data[1..] + Gather(tape, delim).data) == data + Gather(tape, delim).data;
    }
  }

  /** b is what a leaves once x is taken from it, for those who gather. */
  ghost predicate Onward(a: Tape, x: seq<byte>, b: Tape, delim: byte)
  {
    Gather(a, delim) == Gather(b, delim).(data := x + Gather(b, delim).data)
  }

  lemma OnwardNone(tape: Tape, delim: byte)
    ensures Onward(tape, [], tape, delim)
  {
    assert [] + Gather(tape, delim).data == Gather(tape, delim).data;
  }

  lemma OnwardMore(a: Tape, x: seq<byte>, b: Tape, y: seq<byte>, c: Tape, delim: byte)
    requires Onward(a, x, b, delim) && Onward(b, y, c, delim)
    ensures Onward(a, x + y, c, delim)
  {
    hide Gather;
    assert x + (y + Gather(c, delim).data) == (x + y) + Gather(c, delim).data;
  }

  lemma AheadOnward(a: Tape, x: seq<byte>, b: Tape, delim: byte)
    requires Ahead(a, x, b) && delim !in x
    ensures Onward(a, x, b, delim) && |a| == |x| + |b|
  {
    GatherLonger(x, b, delim);
  }

  /** The source's own ErrBufferFull, after x. */
  lemma {:induction false} OwnOnward(a: Tape, delim: byte)
    requires Through(a, delim).err == Some(ErrBufferFull)
    ensures var c := Through(a, delim);
            Onward(a, c.data, c.rest, delim) && delim !in c.data && |a| == |c.data| + 1 + |c.rest|
  {
    if a[0].Byte? {
      OwnOnward(a[1..], delim);
      var c := Through(a[1..], delim);
      assert [a[0].b] + (c.data + Gather(c.rest, delim).data) == ([a[0].b] + c.data) + Gather(c.rest, delim).data;
    }
  }

  /** What one more answer does to the tape. */
  lemma TapeStep(plan: seq<Answer>, idle: nat, room: nat)
    requires idle < MAX_EMPTY_READS && room > 0
    ensures var a, rest, was := Reply(plan, room), Remaining(plan, room), TapeOf(plan, idle);
            if a.err == None && a.data == [] then was == TapeOf(rest, idle + 1)
            else was == Bytes(a.data) + Then(a.err, TapeOf(rest, 0))
  {
    if plan != [] && |plan[0].data| > room {
      var a, rest := plan[0], Remaining(plan, room);
      assert rest[1..] == plan[1..];
      BytesJoin(a.data[..room], a.data[room..]);
      assert a.data[..room] + a.data[room..] == a.data;
    }
  }

  lemma TapeIdle(plan: seq<Answer>)
    ensures TapeOf(plan, MAX_EMPTY_READS) == Then(Some(ErrNoProgress), TapeOf(plan, 0))
  {
  }

  lemma ThenNone(tape: Tape)
    ensures Then(None, tape) == tape
  {
  }

  /** A delimiter within the data: the cut ends there. */
  lemma ThroughFound(data: seq<byte>, i: nat, tape: Tape, delim: byte)
    requires i < |data| && data[i] == delim && delim !in data[..i]
    ensures Through(Bytes(data) + tape, delim) == Cut(data[..i + 1], None, Bytes(data[i + 1..]) + tape)
  {
    var rest := Bytes(data[i..]) + tape;
    ThroughLonger(data[..i], rest, delim);
    BytesJoin(data[..i], data[i..]);
    BytesJoin([delim], data[i + 1..]);
    BytesOne(delim);
    hide Bytes;
    assert data == data[..i] + data[i..] && data[i..] == [delim] + data[i + 1..];
    assert (Bytes(data[..i]) + Bytes(data[i..])) + tape == Bytes(data[..i]) + rest;
    assert rest == [Byte(delim)] + (Bytes(data[i + 1..]) + tape);
    assert data[..i] + [delim] == data[..i + 1];
  }

  /** No delimiter before an error: the cut ends at the error. */
  lemma ThroughError(data: seq<byte>, e: Error, tape: Tape, delim: byte)
    requires delim !in data
    ensures Through(Bytes(data) + Then(Some(e), tape), delim) == Cut(data, Some(e), tape)
  {
    ThroughLonger(data, Then(Some(e), tape), delim);
    if !(e == EOF && tape == []) { assert Then(Some(e), tape)[1..] == tape; }
  }

  lemma FirstByte(s: seq<byte>, c: byte, i: int)
    requires Search.IsFirst(s, [c], i)
    ensures i == -1 ==> c !in s
    ensures i != -1 ==> 0 <= i < |s| && s[i] == c && c !in s[..i]
  {
    forall k | 0 <= k < |s| && s[k] == c ensures Search.Occurs(s, [c], k) {
    }
    if i != -1 { assert s[i..i + 1][0] == c; }
  }

  // ---------- the reader ----------

  class Reader {
    const rd: Source
    const buf: array<byte>
    var r: nat
    var w: nat
    var err: Option<Error>
    var lastByte: int

    constructor (rd: Source, size: int)
      ensures Valid() && Tape() == TapeOf(rd.plan, 0) && this.rd == rd && fresh(buf)
    {
      this.rd := rd;
      buf := new byte[if size < MIN_SIZE then MIN_SIZE else size](_ => 0);
      r, w, err, lastByte := 0, 0, None, -1;
      new;
      assert Bytes(buf[r..w]) == [];
    }

    ghost predicate Valid()
      reads this
    {
      r <= w <= buf.Length && buf.Length >= MIN_SIZE
    }

    /** All that is to come: what is buffered, the error seen, and what the source has. */
    ghost function Tape(): Tape
      requires Valid()
      reads this, buf, rd
    {
      Bytes(buf[r..w]) + Then(err, TapeOf(rd.plan, 0))
    }

    /** Moves the data to the front. */
    method Slide()
      requires Valid()
      modifies this`r, this`w, buf
      ensures Valid() && r == 0 && buf[..w] == old(buf[r..w])
    {
      if r > 0 {
        var n := w - r;
        forall i | 0 <= i < n { buf[i] := buf[r + i]; }
        w := n;
        r := 0;
      }
    }

    /** One round of fill. */
    method ReadOnce(ghost idle: nat) returns (n: nat)
      requires Valid() && err == None && r == 0 && w < buf.Length && idle < MAX_EMPTY_READS
      modifies this`w, this`err, buf, rd
      ensures Valid() && w == old(w) + n && buf[..old(w)] == old(buf[..w])
      ensures Bytes(old(buf[..w])) + TapeOf(old(rd.plan), idle) ==
                Bytes(buf[..w])
                + if err == None && n == 0 then TapeOf(rd.plan, idle + 1) else Then(err, TapeOf(rd.plan, 0))
    {
      hide Bytes;
      hide Then;
      hide TapeOf;
      TapeStep(rd.plan, idle, buf.Length - w);
      ghost var had := buf[..w];
      var e: Option<Error>;
      n, e := rd.Read(buf, w);
      ghost var more := buf[w..w + n];
      assert buf[..w + n] == had + more;
      BytesJoin(had, more);
      w := w + n;
      err := e;
    }

    /** The loop of fill. */
    method FillLoop()
      requires Valid() && err == None && r == 0 && w < buf.Length
      modifies this`w, this`err, buf, rd
      ensures Valid() && w >= old(w) && buf[..old(w)] == old(buf[..w])
      ensures Bytes(buf[..w]) + Then(err, TapeOf(rd.plan, 0)) == Bytes(old(buf[..w])) + TapeOf(old(rd.plan), 0)
      ensures err.Some? || w > old(w)
    {
      hide Then;
      hide TapeOf;
      hide Bytes;
      for i := MAX_EMPTY_READS downto 0
        invariant Valid() && err == None && w == old(w) && buf[..w] == old(buf[..w])
        invariant Bytes(buf[..w]) + TapeOf(rd.plan, MAX_EMPTY_READS - i)
          == Bytes(old(buf[..w])) + TapeOf(old(rd.plan), 0)
      {
        var n := ReadOnce(MAX_EMPTY_READS - i - 1);
        if err != None || n > 0 { return; }
      }
      TapeIdle(rd.plan);
      err := Some(ErrNoProgress);
    }

    /** fill: reads until there is some new data or an error.  The buffer must not be full. */
    method Fill()
      requires Valid() && err == None && w - r < buf.Length
      modifies this`r, this`w, this`err, buf, rd
      ensures Valid() && Tape() == old(Tape()) && r == 0 && w >= old(w - r)
      ensures buf[..old(w - r)] == old(buf[r..w])
      ensures err.Some? || w > old(w - r)
    {
      hide Then;
      hide TapeOf;
      hide Bytes;
      ThenNone(TapeOf(rd.plan, 0));
      Slide();
      if w >= buf.Length { assert false; }      // "tried to fill full buffer"
      FillLoop();
      assert buf[r..w] == buf[..w];
    }

    /** readErr */
    method ReadErr() returns (e: Option<Error>)
      modifies this`err
      ensures e == old(err) && err == None
    {
      e := err;
      err := None;
    }

    /** Looks for delim, leaving out the s bytes known not to hold it. */
    method Find(delim: byte, s: nat) returns (i: int)
      requires Valid() && s <= w - r && delim !in buf[r..r + s]
      ensures i == -1 ==> delim !in buf[r..w]
      ensures i != -1 ==> 0 <= i < w - r && buf[r + i] == delim && delim !in buf[r..r + i]
    {
      i := Search.IndexByte(buf[r + s..w], delim);
      FirstByte(buf[r + s..w], delim, i);
      if i >= 0 {
        assert buf[r..r + s + i] == buf[r..r + s] + buf[r + s..w][..i];
        i := i + s;
      } else {
        assert buf[r..w] == buf[r..r + s] + buf[r + s..w];
      }
    }

    /** The line that ends i bytes further on. */
    method TakeLine(delim: byte, i: nat) returns (line: seq<byte>)
      requires Valid() && i < w - r && buf[r + i] == delim && delim !in buf[r..r + i]
      modifies this`r
      ensures Valid() && Cut(line, None, Tape()) == Through(old(Tape()), delim)
    {
      hide Through;
      hide TapeOf;
      hide Bytes;
      hide Then;
      ghost var had := buf[r..w];
      assert had[..i] == buf[r..r + i];
      ThroughFound(had, i, Then(err, TapeOf(rd.plan, 0)), delim);
      line := buf[r..r + i + 1];
      r := r + i + 1;
      assert line == had[..i + 1] && buf[r..w] == had[i + 1..];
    }

    /** What is left before the pending error, and the error. */
    method TakeError(delim: byte) returns (line: seq<byte>, e: Option<Error>)
      requires Valid() && err.Some? && delim !in buf[r..w]
      modifies this`r, this`err
      ensures Valid() && Cut(line, e, Tape()) == Through(old(Tape()), delim)
      ensures r == w && (line != [] ==> r > 0 && buf[r - 1] == line[|line| - 1])
    {
      hide Through;
      hide TapeOf;
      hide Bytes;
      hide Then;
      ThroughError(buf[r..w], err.value, TapeOf(rd.plan, 0), delim);
      line := buf[r..w];
      r := w;
      e := ReadErr();
      ThenNone(TapeOf(rd.plan, 0));
      assert Bytes(buf[r..w]) == [];
    }

    /** All of a full buffer. */
    method TakeAll() returns (line: seq<byte>)
      requires Valid() && err == None && w - r >= buf.Length
      modifies this`r
      ensures Valid() && r == w == buf.Length && line == buf[..] == old(buf[r..w]) && Ahead(old(Tape()), line, Tape())
    {
      hide TapeOf;
      hide Then;
      hide Bytes;
      ghost var had, rest := buf[r..w], Then(err, TapeOf(rd.plan, 0));
      r := w;
      line := buf[..];
      assert line == had && buf[r..w] == [];
      assert Tape() == rest;
    }

    /** Puts the last byte read, a carriage return, back. */
    method Rewind()
      requires Valid() && 0 < r == w && buf[r - 1] == RETURN
      modifies this`r
      ensures Valid() && Tape() == [Byte(RETURN)] + old(Tape())
    {
      hide TapeOf;
      hide Then;
      if r == 0 { assert false; }             // "tried to rewind past start of buffer"
      assert Bytes(buf[r..w]) == [];
      r := r - 1;
      assert buf[r..w] == [RETURN];
    }

    /** ReadSlice: the data through delim, or up to an error, or as much as the buffer holds. */
    method ReadSlice(delim: byte) returns (line: seq<byte>, e: Option<Error>)
      requires Valid()
      modifies this, buf, rd
      ensures Valid()
      ensures Cut(line, e, Tape()) == Through(old(Tape()), delim) || FullSlice(old(Tape()), line, e, delim)
      ensures e == Some(ErrBufferFull) ==> r == w && (line != [] ==> r > 0 && buf[r - 1] == line[|line| - 1])
      ensures lastByte == if line == [] then old(lastByte) else line[|line| - 1]
    {
      hide Through;
      hide TapeOf;
      hide Bytes;
      hide Ahead;
      hide Then;
      var s: nat := 0;
      while true
        invariant Valid() && Tape() == old(Tape()) && s <= w - r && delim !in buf[r..r + s] && lastByte == old(lastByte)
        decreases err == None, buf.Length - (w - r)
      {
        var i := Find(delim, s);
        if i >= 0 {
          line := TakeLine(delim, i);
          e := None;
          break;
        }
        if err != None {
          line, e := TakeError(delim);
          break;
        }
        if w - r >= buf.Length {
          line := TakeAll();
          e := Some(ErrBufferFull);
          break;
        }
        s := w - r;
        Fill();
      }
      if |line| > 0 { lastByte := line[|line| - 1]; }
    }

    /** A whole buffer without the delimiter. */
    ghost predicate FullSlice(tape: Tape, line: seq<byte>, e: Option<Error>, delim: byte)
      requires Valid()
      reads this, buf, rd
    {
      e == Some(ErrBufferFull) && line == buf[..] && delim !in line && Ahead(tape, line, Tape())
    }

    /** A piece from ReadSlice that is not the last one. */
    lemma SliceOnward(tape: Tape, line: seq<byte>, e: Option<Error>, delim: byte)
      requires Valid() && e == Some(ErrBufferFull)
      requires Cut(line, e, Tape()) == Through(tape, delim) || FullSlice(tape, line, e, delim)
      ensures Onward(tape, line, Tape(), delim) && delim !in line && |tape| > |Tape()|
    {
      hide Tape;
      if FullSlice(tape, line, e, delim) { AheadOnward(tape, line, Tape(), delim); } else { OwnOnward(tape, delim); }
    }

    /** ReadBytes: exactly the data through delim, or up to an error, however it arrives. */
    method ReadBytes(delim: byte) returns (data: seq<byte>, e: Option<Error>)
      requires Valid()
      modifies this, buf, rd
      ensures Valid() && Cut(data, e, Tape()) == Gather(old(Tape()), delim)
    {
      hide Through;
      hide Tape;
      hide Ahead;
      hide Joined;
      hide Gather;
      var frag: seq<byte>, full: seq<seq<byte>> := [], [];
      JoinedNone();
      OnwardNone(Tape(), delim);
      while true
        invariant Valid() && Onward(old(Tape()), Joined(full), Tape(), delim)
        decreases |Tape()|
      {
        ghost var tape := Tape();
        frag, e := ReadSlice(delim);
        if e != Some(ErrBufferFull) {
          GatherThrough(tape, delim);
          break;
        }
        SliceOnward(tape, frag, e, delim);
        JoinedMore(full, frag);
        OnwardMore(old(Tape()), Joined(full), tape, frag, Tape(), delim);
        full := full + [frag];
      }
      data := JoinAll(full, frag);
    }

    /** The copying at the end of ReadBytes. */
    static method JoinAll(full: seq<seq<byte>>, frag: seq<byte>) returns (data: seq<byte>)
      ensures data == Joined(full) + frag
    {
      data := [];
      for i := 0 to |full|
        invariant data == Joined(full[..i])
      {
        JoinedMore(full[..i], full[i]);
        assert full[..i + 1] == full[..i] + [full[i]];
        data := data + full[i];
      }
      assert full[..|full|] == full;
      data := data + frag;
    }

    /** ReadLine: a line without its end, or as much of it as the buffer holds. */
    method ReadLine() returns (line: seq<byte>, isPrefix: bool, e: Option<Error>)
      requires Valid()
      modifies this, buf, rd
      ensures Valid()
      ensures isPrefix ==> e == None && NEWLINE !in line && Piece(old(Tape()), line, Tape(), buf.Length)
      ensures !isPrefix ==>
                var c := Through(old(Tape()), NEWLINE);
                && Tape() == c.rest && line == DropEOL(c.data) && e == (if c.data == [] then c.err else None)
                && c.err != Some(ErrBufferFull)
    {
      hide Through;
      hide Tape;
      hide Ahead;
      hide Piece;
      ghost var tape := Tape();
      line, e := ReadSlice(NEWLINE);
      if e == Some(ErrBufferFull) {
        ghost var all, rest := line, Tape();
        SliceOnward(tape, line, e, NEWLINE);
        if |line| > 0 && line[|line| - 1] == RETURN {
          Rewind();
          line := line[..|line| - 1];
        }
        PieceOf(tape, all, rest, line, Tape(), buf.Length);
        return line, true, None;
      }
      isPrefix := false;
      if |line| == 0 { return; }
      e := None;
      if line[|line| - 1] == NEWLINE {
        var drop := 1;
        if |line| > 1 && line[|line| - 2] == RETURN { drop := 2; }
        line := line[..|line| - drop];
      }
    }

    /** Joining the pieces until one is the last gives the line without its end, also when the
        end straddles two buffers.  An error that ends the line is reported if and only if
        the last piece, `last` with its end, is empty. */
    method ReadWholeLine() returns (line: seq<byte>, e: Option<Error>, ghost last: seq<byte>)
      requires Valid()
      modifies this, buf, rd
      ensures var c := Gather(old(Tape()), NEWLINE);
              && Valid() && Tape() == c.rest && line == DropEOL(c.data)
              && |last| <= |c.data| && last == c.data[|c.data| - |last|..] && e == (if last == [] then c.err else None)
    {
      hide Through;
      hide Tape;
      hide Gather;
      hide Piece;
      line := [];
      OnwardNone(Tape(), NEWLINE);
      while true
        invariant Valid() && NEWLINE !in line && Onward(old(Tape()), line, Tape(), NEWLINE)
        invariant line != [] && line[|line| - 1] == RETURN ==> Tape() != [] && Tape()[0] == Byte(RETURN)
        decreases |Tape()|
      {
        ghost var tape := Tape();
        var piece, isPrefix, e' := ReadLine();
        if !isPrefix {
          e, last := e', Through(tape, NEWLINE).data;
          GatherThrough(tape, NEWLINE);
          CutHead(tape, NEWLINE);
          DropEOLJoin(line, Through(tape, NEWLINE).data);
          line := line + piece;
          return;
        }
        PieceOnward(tape, piece, Tape(), buf.Length);
        OnwardMore(old(Tape()), line, tape, piece, Tape(), NEWLINE);
        line := line + piece;
      }
    }
  }

  /** A piece of a line that is not the last: a full buffer, or what was there when the
      source said ErrBufferFull; without a final carriage return, which stays on the tape. */
  ghost predicate Piece(a: Tape, line: seq<byte>, b: Tape, size: nat)
  {
    && (line != [] && line[|line| - 1] == RETURN ==> b != [] && b[0] == Byte(RETURN))
    && (Whole(a, line, b, size) || (b != [] && b[0] == Byte(RETURN) && Whole(a, line + [RETURN], b[1..], size)))
  }

  ghost predicate Whole(a: Tape, all: seq<byte>, rest: Tape, size: nat)
  {
    || (|all| == size && Ahead(a, all, rest) && NEWLINE !in all)
    || Through(a, NEWLINE) == Cut(all, Some(ErrBufferFull), rest)
  }

  lemma PieceOf(a: Tape, all: seq<byte>, rest: Tape, line: seq<byte>, b: Tape, size: nat)
    requires Whole(a, all, rest, size)
    requires if all != [] && all[|all| - 1] == RETURN then line == all[..|all| - 1] && b == [Byte(RETURN)] + rest
             else line == all && b == rest
    ensures Piece(a, line, b, size)
  {
    hide Whole;
    if all != [] && all[|all| - 1] == RETURN { assert all == line + [RETURN] && b[1..] == rest; }
  }

  lemma PieceOnward(a: Tape, line: seq<byte>, b: Tape, size: nat)
    requires Piece(a, line, b, size) && size >= MIN_SIZE && NEWLINE !in line
    ensures Onward(a, line, b, NEWLINE) && |b| < |a|
    ensures (if line == [] then a != [] && a[0] == Byte(RETURN) else line[|line| - 1] == RETURN) ==>
              b != [] && b[0] == Byte(RETURN)
  {
    hide Bytes;
    hide Onward;
    if Whole(a, line, b, size) {
      WholeOnward(a, line, b, size);
    } else {
      WholeOnward(a, line + [RETURN], b[1..], size);
      ReturnedOnward(a, line, b);
    }
  }

  lemma WholeOnward(a: Tape, all: seq<byte>, rest: Tape, size: nat)
    requires Whole(a, all, rest, size) && size >= MIN_SIZE
    ensures Onward(a, all, rest, NEWLINE) && |rest| < |a|
    ensures if all == [] then a[0].Err? else |rest| + 1 < |a|
  {
    hide Onward;
    hide Bytes;
    if Through(a, NEWLINE) == Cut(all, Some(ErrBufferFull), rest) {
      OwnOnward(a, NEWLINE);
    } else {
      AheadOnward(a, all, rest, NEWLINE);
    }
  }

  /** A carriage return put back is met again. */
  lemma ReturnedOnward(a: Tape, line: seq<byte>, b: Tape)
    requires b != [] && b[0] == Byte(RETURN) && Onward(a, line + [RETURN], b[1..], NEWLINE)
    ensures Onward(a, line, b, NEWLINE)
  {
    var g := Gather(b[1..], NEWLINE);
    assert line + ([RETURN] + g.data) == (line + [RETURN]) + g.data;
  }

  function Joined(full: seq<seq<byte>>): seq<byte>
  {
    if full == [] then [] else Joined(full[..|full| - 1]) + full[|full| - 1]
  }

  lemma JoinedNone()
    ensures Joined([]) == []
  {
  }

  lemma JoinedMore(full: seq<seq<byte>>, frag: seq<byte>)
    ensures Joined(full + [frag]) == Joined(full) + frag
  {
    assert (full + [frag])[..|full|] == full;
  }

  /** A line without its newline and the carriage return before that. */
  function DropEOL(line: seq<byte>): seq<byte>
  {
    if line == [] || line[|line| - 1] != NEWLINE then line
    else if |line| > 1 && line[|line| - 2] == RETURN then line[..|line| - 2]
    else line[..|line| - 1]
  }

  /** A newline, and a carriage return before it, are dropped, and nothing else. */
  lemma DropEOLMeans(data: seq<byte>)
    ensures DropEOL(data + [13, 10]) == data
    ensures data == [] || data[|data| - 1] != 13 ==> DropEOL(data + [10]) == data
    ensures data == [] || data[|data| - 1] != 10 ==> DropEOL(data) == data
  {
    assert (data + [13, 10])[..|data|] == data && (data + [10])[..|data|] == data;
  }

  lemma CutHead(tape: Tape, delim: byte)
    ensures var c := Through(tape, delim); c.data != [] ==> tape != [] && tape[0] == Byte(c.data[0])
  {
  }

  /** The end of a line can be dropped from its last piece, if that holds all of the end. */
  lemma DropEOLJoin(line: seq<byte>, data: seq<byte>)
    requires NEWLINE !in line
    requires line != [] && line[|line| - 1] == RETURN && data != [] ==> data[0] == RETURN
    ensures DropEOL(line + data) == line + DropEOL(data)
  {
    var k := |line| + |data|;
    if data != [] {
      assert (line + data)[k - 1] == data[|data| - 1];
      assert (line + data)[..k - 1] == line + data[..|data| - 1];
    }
    if |data| > 1 {
      assert (line + data)[k - 2] == data[|data| - 2];
      assert (line + data)[..k - 2] == line + data[..|data| - 2];
    }
  }
}

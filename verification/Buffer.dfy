/** bytes/buffer.go: a byte queue in one slice, and what its growing costs. */
module Buffer {
  import opened Basics
  import opened Io

  const SMALL := 64                    // smallBufferSize
  const MAX_INT := 0x7FFF_FFFF_FFFF_FFFF

  datatype ReadOp = OpRead | OpInvalid

  // ---------- a queue of bytes ----------

  /** What is in it, and the byte that can be put back, the last one read. */
  datatype Queue = Queue(held: seq<byte>, last: Option<byte>)

  /** Write or WriteString, WriteByte, Read, UnreadByte, Truncate, Reset. */
  datatype Op = Put(p: seq<byte>) | PutByte(c: byte) | Take(room: nat) | Back | Cut(n: int) | Clear

  /** The bytes a read is given. */
  function Taken(q: Queue, op: Op): seq<byte>
  {
    if !op.Take? then [] else if op.room < |q.held| then q.held[..op.room] else q.held
  }

  function Input(op: Op): seq<byte>
  {
    match op
    case Put(p) => p
    case PutByte(c) => [c]
    case _ => []
  }

  function Next(q: Queue, op: Op): Queue
  {
    match op
    case Put(p) => Queue(q.held + p, None)
    case PutByte(c) => Queue(q.held + [c], None)
    case Take(_) =>
      var p := Taken(q, op);
      Queue(q.held[|p|..], if p == [] then None else Some(p[|p| - 1]))
    case Back => if q.last.Some? then Queue([q.last.value] + q.held, None) else q
    case Cut(n) => Queue(if 0 <= n <= |q.held| then q.held[..n] else q.held, None)
    case Clear => Queue([], None)
  }

  function After(q: Queue, ops: seq<Op>): Queue
  {
    if ops == [] then q else Next(After(q, ops[..|ops| - 1]), ops[|ops| - 1])
  }

  /** All bytes read in a run, and all bytes written. */
  function Reads(q: Queue, ops: seq<Op>): seq<byte>
  {
    if ops == [] then []
    else
      var n := |ops| - 1;
      Reads(q, ops[..n]) + Taken(After(q, ops[..n]), ops[n])
  }

  function Inputs(ops: seq<Op>): seq<byte>
  {
    if ops == [] then [] else Inputs(ops[..|ops| - 1]) + Input(ops[|ops| - 1])
  }

  /** Bytes come out in the order they went in, and none is lost. */
  lemma {:induction false} FirstInFirstOut(q: Queue, ops: seq<Op>)
    requires forall i | 0 <= i < |ops| :: ops[i].Put? || ops[i].PutByte? || ops[i].Take?
    ensures Reads(q, ops) + After(q, ops).held == q.held + Inputs(ops)
  {
    hide Next;
    hide Taken;
    if ops != [] {
      var n := |ops| - 1;
      FirstInFirstOut(q, ops[..n]);
      TakenFirst(After(q, ops[..n]), ops[n]);
      Regroup(Reads(q, ops[..n]), After(q, ops[..n]).held, q.held, Inputs(ops[..n]), Taken(After(q, ops[..n]), ops[n]),
              After(q, ops).held, Input(ops[n]));
    }
  }

  lemma TakenFirst(q: Queue, op: Op)
    requires op.Put? || op.PutByte? || op.Take?
    ensures q.held + Input(op) == Taken(q, op) + Next(q, op).held
  {
  }

  lemma Regroup<T>(read: seq<T>, held: seq<T>, start: seq<T>, put: seq<T>, taken: seq<T>, left: seq<T>, more: seq<T>)
    requires read + held == start + put && held + more == taken + left
    ensures (read + taken) + left == start + (put + more)
  {
    calc {
      (read + taken) + left;
      read + (taken + left);
      (read + held) + more;
      start + (put + more);
    }
  }

  lemma RunStep(q: Queue, ops: seq<Op>, i: nat)
    requires i < |ops|
    ensures After(q, ops[..i + 1]) == Next(After(q, ops[..i]), ops[i])
    ensures Reads(q, ops[..i + 1]) == Reads(q, ops[..i]) + Taken(After(q, ops[..i]), ops[i])
    ensures Inputs(ops[..i + 1]) == Inputs(ops[..i]) + Input(ops[i])
  {
    assert ops[..i + 1][..i] == ops[..i];
  }

  class Buffer {
    var data: array<byte>              // b.buf up to its capacity
    var len: nat                       // len(b.buf)
    var isNil: bool                    // b.buf == nil
    var off: nat
    var lastRead: ReadOp
    const maxAlloc: nat                // the platform's largest allocation; a larger make panics
    ghost var written: nat             // bytes written so far
    ghost var moved: nat               // bytes copied into newly allocated slices
    ghost var slid: nat                // bytes slid down within a slice

    constructor (maxAlloc: nat)
      ensures Valid() && Contents() == [] && Copied() == 0 && written == 0 && fresh(data)
      ensures this.maxAlloc == maxAlloc
    {
      this.maxAlloc := maxAlloc;
      data := new byte[0];
      len, isNil, off, lastRead := 0, true, 0, OpInvalid;
      written, moved, slid := 0, 0, 0;
    }

    ghost predicate Valid()
      reads this
    {
      && off <= len <= data.Length && (isNil ==> data.Length == 0)
      && (lastRead == OpRead ==> off > 0)
      && Paid(written)
    }

    /** Sliding is paid for by the bytes read since: they, and those still held, were written.
        Moving is paid for by the capacity, and that, when it was last doubled, by the bytes
        written. */
    ghost predicate Paid(w: nat)
      reads this
    {
      slid + len <= w && moved <= data.Length && (moved == 0 || moved < 4 * w)
    }

    ghost function Copied(): nat
      reads this
    {
      moved + slid
    }

    ghost function Contents(): seq<byte>
      requires off <= len <= data.Length
      reads this, data
    {
      data[off..len]
    }

    /** The buffer as a queue. */
    ghost function AsQueue(): Queue
      requires Valid()
      reads this, data
    {
      Queue(Contents(), if lastRead == OpRead then Some(data[off - 1]) else None)
    }

    /** Room for n more bytes takes a slice larger than an int can say or than the platform
        can allocate: they do not fit behind the data, which an empty buffer first moves to
        the start, nor the first small slice, nor after sliding in half the capacity. */
    ghost predicate Refuses(n: nat)
      requires off <= len <= data.Length
      reads this
    {
      && (if off == len then 0 else len) + n > data.Length && !(isNil && n <= SMALL) && len - off + n > data.Length / 2
      && (2 * data.Length + n > MAX_INT || 2 * data.Length + n > maxAlloc)
    }

    /** Over any run of writes and reads from an empty buffer, no more than five bytes are
        copied for each byte written: less than four to larger slices, and one within them. */
    lemma AtMostFiveTimes()
      requires Valid()
      ensures Copied() <= 5 * written && slid <= written && (moved > 0 ==> moved < 4 * written)
    {
    }

    /** Reset */
    method Reset()
      requires Valid()
      modifies this`len, this`off, this`lastRead
      ensures Valid() && Contents() == [] && len == off == 0 && lastRead == OpInvalid
    {
      len := 0;
      off := 0;
      lastRead := OpInvalid;
    }

    /** Truncate; it panics if n is out of range. */
    method Truncate(n: int) returns (ok: bool)
      requires Valid()
      modifies this`len, this`off, this`lastRead
      ensures Valid() && (ok <==> 0 <= n <= old(len - off)) && lastRead == OpInvalid
      ensures Contents() == if ok then old(Contents())[..n] else old(Contents())
    {
      if n == 0 {
        Reset();
        return true;
      }
      lastRead := OpInvalid;
      if n < 0 || n > len - off { return false; }
      assert data[off..len][..n] == data[off..off + n];
      len := off + n;
      return true;
    }

    /** tryGrowByReslice */
    method TryGrowByReslice(n: nat) returns (i: nat, ok: bool)
      requires off <= len <= data.Length
      modifies this`len
      ensures ok <==> old(len) + n <= data.Length
      ensures ok ==> i == old(len) && len == old(len) + n && (old(Paid(written)) ==> Paid(written + n))
      ensures !ok ==> len == old(len)
    {
      var l := len;
      if n <= data.Length - l {
        len := l + n;
        return l, true;
      }
      return 0, false;
    }

    /** copy within the slice, or into another. */
    method CopyDown(dst: array<byte>, n: nat)
      requires off + n <= data.Length && n <= dst.Length
      modifies dst
      ensures dst[..n] == old(data[off..off + n])
    {
      forall i | 0 <= i < n { dst[i] := data[off + i]; }
    }

    /** The small slice a nil buffer begins with. */
    method FirstSlice(n: nat)
      requires Valid() && isNil && n <= SMALL
      modifies this`data, this`len, this`isNil
      ensures fresh(data) && data.Length == SMALL && !isNil && off == old(len) == 0 && len == n && Paid(written + n)
    {
      data := new byte[SMALL](_ => 0);
      isNil := false;
      len := n;
    }

    /** grow: room for n more bytes after what is held, or the panic ErrTooLarge. */
    method Grow(n: nat) returns (i: nat, ok: bool)
      requires Valid() && lastRead == OpInvalid
      modifies this`data, this`len, this`isNil, this`off, this`lastRead, this`moved, this`slid, data
      ensures data == old(data) || fresh(data)
      ensures off <= len <= data.Length && (isNil ==> data.Length == 0) && lastRead == OpInvalid
      ensures !ok ==> Valid() && Contents() == old(Contents()) && Copied() == old(Copied()) && data == old(data)
      ensures ok <==> !old(Refuses(n))
      ensures ok ==> off <= i && i + n == len && data[off..i] == old(Contents()) && Paid(written + n)
    {
      hide Paid;
      var m := len - off;
      if m == 0 && off != 0 { Reset(); }
      i, ok := TryGrowByReslice(n);
      if ok { return; }
      if isNil && n <= SMALL {
        FirstSlice(n);
        return 0, true;
      }
      i, ok := Rebuild(n);
    }

    /** makeSlice: the panic of an impossible allocation becomes ErrTooLarge. */
    method MakeSlice(n: nat) returns (buf: array<byte>, ok: bool)
      ensures fresh(buf) && (ok <==> n <= maxAlloc) && (ok ==> buf.Length == n)
    {
      ok := n <= maxAlloc;
      buf := new byte[if ok then n else 0](_ => 0);
    }

    /** A new slice of n bytes that begins with the first m bytes held. */
    method CopyOut(n: nat, m: nat) returns (buf: array<byte>, ok: bool)
      requires m <= n && off + m <= data.Length
      ensures fresh(buf) && (ok <==> n <= maxAlloc)
      ensures ok ==> buf.Length == n && buf[..m] == data[off..off + m]
    {
      buf, ok := MakeSlice(n);
      if ok { CopyDown(buf, m); }
    }

    /** The rest of grow: slides the data down, or moves it to a slice of twice the size. */
    method Rebuild(n: nat) returns (i: nat, ok: bool)
      requires Valid() && lastRead == OpInvalid && len + n > data.Length && !(isNil && n <= SMALL)
      requires off == len ==> off == 0
      modifies this`data, this`len, this`isNil, this`off, this`moved, this`slid, data
      ensures data == old(data) || fresh(data)
      ensures off <= len <= data.Length && (isNil ==> data.Length == 0)
      ensures !ok ==> Valid() && Contents() == old(Contents()) && Copied() == old(Copied()) && data == old(data)
      ensures ok <==> !old(Refuses(n))
      ensures ok ==> off <= i && i + n == len && data[off..i] == old(Contents()) && Paid(written + n)
      ensures ok && data == old(data) ==> moved == old(moved) && slid - old(slid) == |old(Contents())| < old(off)
      ensures ok && data != old(data) ==>
                slid == old(slid) && moved - old(moved) == |old(Contents())| <= old(data.Length)
    {
      var m, c := len - off, data.Length;
      if n <= c / 2 - m {
        CopyDown(data, m);
        slid := slid + m;
      } else if c > MAX_INT - c - n {
        return 0, false;
      } else {
        var buf;
        buf, ok := CopyOut(2 * c + n, m);
        if !ok { return 0, false; }
        data := buf;
        isNil := false;
        moved := moved + m;
      }
      off := 0;
      len := m + n;
      return m, true;
    }

    /** How every write begins: room for n bytes, in place if possible. */
    method Reserve(n: nat) returns (m: nat, ok: bool)
      requires Valid() && lastRead == OpInvalid
      modifies this`data, this`len, this`isNil, this`off, this`lastRead, this`moved, this`slid, data
      ensures data == old(data) || fresh(data)
      ensures off <= len <= data.Length && (isNil ==> data.Length == 0) && lastRead == OpInvalid
      ensures !ok ==> Valid() && Contents() == old(Contents()) && data == old(data)
      ensures ok <==> !old(Refuses(n))
      ensures ok ==> off <= m && m + n == len && data[off..m] == old(Contents()) && Paid(written + n)
    {
      m, ok := TryGrowByReslice(n);
      if !ok { m, ok := Grow(n); }
    }

    /** The copy that ends every write. */
    method Fill(m: nat, p: seq<byte>)
      requires off <= m && m + |p| == len <= data.Length
      modifies data
      ensures Contents() == old(data[off..m]) + p
    {
      forall i | m <= i < m + |p| { data[i] := p[i - m]; }
      assert data[off..len] == data[off..m] + data[m..len];
      assert data[m..len] == p;
    }

    /** Write and WriteString; ErrTooLarge leaves the buffer as it was. */
    method Write(p: seq<byte>) returns (n: nat, ok: bool)
      requires Valid()
      modifies this, data
      ensures Valid() && lastRead == OpInvalid && (data == old(data) || fresh(data))
      ensures ok ==> n == |p| && Contents() == old(Contents()) + p && written == old(written) + |p|
      ensures !ok ==> Contents() == old(Contents()) && written == old(written) && data == old(data)
      ensures ok <==> !old(Refuses(|p|))
    {
      lastRead := OpInvalid;
      var m: nat;
      m, ok := Reserve(|p|);
      if !ok { return 0, false; }
      Fill(m, p);
      written := written + |p|;
      return |p|, true;
    }

    /** WriteByte */
    method WriteByte(c: byte) returns (ok: bool)
      requires Valid()
      modifies this, data
      ensures Valid() && lastRead == OpInvalid && (data == old(data) || fresh(data))
      ensures ok ==> Contents() == old(Contents()) + [c] && written == old(written) + 1
      ensures !ok ==> Contents() == old(Contents()) && written == old(written) && data == old(data)
      ensures ok <==> !old(Refuses(1))
    {
      lastRead := OpInvalid;
      var m: nat;
      m, ok := Reserve(1);
      if !ok { return; }
      Fill(m, [c]);
      written := written + 1;
    }

    /** Read */
    method Read(room: nat) returns (p: seq<byte>, err: Option<Error>)
      requires Valid()
      modifies this`len, this`off, this`lastRead
      ensures Valid() && p + Contents() == old(Contents())
      ensures |p| == if room < |old(Contents())| then room else |old(Contents())|
      ensures err == if old(Contents()) == [] && room > 0 then Some(EOF) else None
      ensures lastRead == if p != [] then OpRead else OpInvalid
      ensures p != [] ==> data[off - 1] == p[|p| - 1]
    {
      lastRead := OpInvalid;
      if len <= off {
        Reset();
        if room == 0 { return [], None; }
        return [], Some(EOF);
      }
      var n := if room < len - off then room else len - off;
      p := data[off..off + n];
      off := off + n;
      if n > 0 { lastRead := OpRead; }
      err := None;
    }

    /** UnreadByte: right after a successful read, puts the last byte back. */
    method UnreadByte() returns (ok: bool)
      requires Valid()
      modifies this`off, this`lastRead
      ensures Valid() && lastRead == OpInvalid && (ok <==> old(lastRead) != OpInvalid)
      ensures Contents() == if ok then [old(data[off - 1])] + old(Contents()) else old(Contents())
    {
      if lastRead == OpInvalid { return false; }
      lastRead := OpInvalid;
      if off > 0 { off := off - 1; }
      return true;
    }
  }

  /** A read takes all it has room for, from the front.  The last byte of it can be put back,
      once. */
  lemma TakenAndBack(q: Queue, room: nat)
    ensures var p := Taken(q, Take(room));
            p + Next(q, Take(room)).held == q.held && (|p| == room || (|p| < room && Next(q, Take(room)).held == []))
    ensures room > 0 && q.held != [] ==>
              var p := Taken(q, Take(room));
              var back := Next(Next(q, Take(room)), Back);
              p[..|p| - 1] + back.held == q.held && Next(back, Back) == back
  {
    var p := Taken(q, Take(room));
    if room > 0 && q.held != [] {
      assert q.held == p[..|p| - 1] + ([p[|p| - 1]] + q.held[|p|..]);
    }
  }

  /** Nothing can be put back after any other operation, nor after a read that got nothing; a
      cut keeps the front. */
  lemma NothingBack(q: Queue, op: Op)
    ensures !op.Take? || Taken(q, op) == [] ==> Next(Next(q, op), Back) == Next(q, op)
    ensures op.Cut? && 0 <= op.n <= |q.held| ==> |Next(q, op).held| == op.n && Next(q, op).held <= q.held
  {
    if op.Back? && q.last.Some? {
      assert Next(q, op).last == None;
    }
  }

  /** When writing panics: not if what is written fits behind the data, not if what is held
      goes with it into half the capacity, not for the first few bytes, and not if twice the
      capacity and as much again as is written is no more than can be allocated; else always. */
  lemma RoomToWrite(b: Buffer, n: nat)
    requires b.Valid()
    ensures var c := b.data.Length;
            var held := |b.Contents()|;
            !b.Refuses(n) <==>
              || b.len + n <= c || (held == 0 && n <= c) || held + n <= c / 2 || (b.isNil && n <= 64)
              || 2 * c + n <= (if b.maxAlloc < 0x7FFF_FFFF_FFFF_FFFF then b.maxAlloc else 0x7FFF_FFFF_FFFF_FFFF)
  {
  }

  // ---------- runs ----------

  /** The operations that panic: writes for which no slice can be had, and cuts out of range. */
  ghost predicate Panics(b: Buffer, op: Op)
    requires b.Valid()
    reads b, b.data
  {
    if op.Cut? then !(0 <= op.n <= |b.Contents()|) else (op.Put? || op.PutByte?) && b.Refuses(|Input(op)|)
  }

  /** One operation. */
  method Do(b: Buffer, op: Op) returns (p: seq<byte>, ok: bool)
    requires b.Valid()
    modifies b, b.data
    ensures b.Valid() && (b.data == old(b.data) || fresh(b.data)) && (ok <==> !old(Panics(b, op)))
    ensures ok ==> p == Taken(old(b.AsQueue()), op) && b.AsQueue() == Next(old(b.AsQueue()), op)
    ensures ok ==> b.written == old(b.written) + |Input(op)|
    ensures !ok ==> p == [] && b.data == old(b.data) && b.written == old(b.written)
    ensures !ok ==> b.AsQueue() == Queue(old(b.Contents()), None)
  {
    p, ok := [], true;
    match op
    case Put(x) =>
      var n;
      n, ok := b.Write(x);
    case PutByte(c) => ok := b.WriteByte(c);
    case Take(room) =>
      var e;
      p, e := b.Read(room);
      assert old(b.Contents())[|p|..] == b.Contents();
    case Back => var _ := b.UnreadByte();
    case Cut(n) => ok := b.Truncate(n);
    case Clear => b.Reset();
  }

  /** A cut out of range, or a write for which no slice of the size needed can be had. */
  ghost predicate TooMuch(b: Buffer, op: Op)
    requires b.Valid()
    reads b, b.data
  {
    if op.Cut? then !(0 <= op.n <= |b.Contents()|)
    else
      && (op.Put? || op.PutByte?)
      && (2 * b.data.Length + |Input(op)| > MAX_INT || 2 * b.data.Length + |Input(op)| > b.maxAlloc)
  }

  /** Any run of operations, from any valid buffer, does what it does on the queue, up to an
      operation that panics; and its copying is bounded by what was written. */
  method Run(b: Buffer, ops: seq<Op>) returns (read: seq<byte>, done: nat)
    requires b.Valid()
    modifies b, b.data
    ensures b.Valid() && done <= |ops| && read == Reads(old(b.AsQueue()), ops[..done])
    ensures b.Contents() == After(old(b.AsQueue()), ops[..done]).held
    ensures done == |ops| ==> b.AsQueue() == After(old(b.AsQueue()), ops)
    ensures done < |ops| ==> TooMuch(b, ops[done])
    ensures b.written == old(b.written) + |Inputs(ops[..done])| && b.Copied() <= 5 * b.written
  {
    hide Next;
    hide Taken;
    read, done := [], 0;
    ghost var q := b.AsQueue();
    while done < |ops|
      invariant b.Valid() && done <= |ops| && (b.data == old(b.data) || fresh(b.data))
      invariant read == Reads(q, ops[..done]) && b.AsQueue() == After(q, ops[..done])
      invariant b.written == old(b.written) + |Inputs(ops[..done])|
      decreases |ops| - done
    {
      RunStep(q, ops, done);
      var p, ok := Do(b, ops[done]);
      if !ok { break; }
      read, done := read + p, done + 1;
    }
    assert ops[..|ops|] == ops;
    b.AtMostFiveTimes();
  }
}

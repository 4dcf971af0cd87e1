/** What the readers and writers of package io have in common: bytes, errors, and an
    io.Reader that obeys its contract. */
module Io {
  import opened Basics

  datatype Error =
    | EOF | ErrNoProgress | ErrClosedPipe | ErrShortWrite                  // io
    | ErrTooLong | ErrNegativeAdvance | ErrAdvanceTooFar | ErrBufferFull   // bufio
    | Other(id: nat)

  const MAX_EMPTY_READS := 100         // maxConsecutiveEmptyReads

  /** One answer of a reader: some bytes, and possibly an error. */
  datatype Answer = Answer(data: seq<byte>, err: Option<Error>)

  /** How a reader that is going to give the answers `plan` answers when asked for at most
      `room` bytes: what it keeps back it delivers next time, and after the end comes EOF. */
  function Reply(plan: seq<Answer>, room: nat): Answer
  {
    if plan == [] then Answer([], Some(EOF))
    else if |plan[0].data| > room then Answer(plan[0].data[..room], None)
    else plan[0]
  }

  function Remaining(plan: seq<Answer>, room: nat): seq<Answer>
  {
    if plan == [] then []
    else if |plan[0].data| > room then [plan[0].(data := plan[0].data[room..])] + plan[1..]
    else plan[1..]
  }

  /** All the data of some answers. */
  function DataOf(plan: seq<Answer>): seq<byte> { if plan == [] then [] else plan[0].data + DataOf(plan[1..]) }

  /** Answers with neither data nor error. */
  function Pauses(n: nat): (r: seq<Answer>)
    ensures |r| == n && forall i | 0 <= i < n :: r[i] == Answer([], None)
  {
    seq(n, _ => Answer([], None))
  }

  /** However much room it is given, a reader delivers its data from the front and keeps the
      rest; an error comes with the last data of its answer. */
  lemma ReplyKeeps(plan: seq<Answer>, room: nat)
    ensures var a := Reply(plan, room);
            && |a.data| <= room && a.data + DataOf(Remaining(plan, room)) == DataOf(plan)
            && (a.err.Some? ==> plan == [] || (a == plan[0] && Remaining(plan, room) == plan[1..]))
  {
    if plan != [] && |plan[0].data| > room {
      var data, rest := plan[0].data, Remaining(plan, room);
      assert rest[1..] == plan[1..];
      assert data[..room] + (data[room..] + DataOf(plan[1..])) == (data[..room] + data[room..]) + DataOf(plan[1..]);
      assert data[..room] + data[room..] == data;
    }
  }

  /** An io.Reader. */
  class Source {
    var plan: seq<Answer>

    constructor (plan: seq<Answer>)
      ensures this.plan == plan
    {
      this.plan := plan;
    }

    /** Read into buf[at..]. */
    method Read(buf: array<byte>, at: nat) returns (n: nat, err: Option<Error>)
      requires at <= buf.Length
      modifies this, buf
      ensures at + n <= buf.Length && buf[..at] == old(buf[..at]) && plan == Remaining(old(plan), buf.Length - at)
      ensures Answer(buf[at..at + n], err) == Reply(old(plan), buf.Length - at)
    {
      var a := Reply(plan, buf.Length - at);
      plan := Remaining(plan, buf.Length - at);
      n, err := |a.data|, a.err;
      forall i | at <= i < at + n { buf[i] := a.data[i - at]; }
      assert forall i | 0 <= i < n :: buf[at..at + n][i] == buf[at + i] == a.data[i];
    }
  }
}

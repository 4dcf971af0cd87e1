/** runtime/chan.go: what one critical section of a channel operation does, on values.
    Goroutines are numbers; only plain goroutines park, not select statements. */
module ChannelSpec {
  import opened Basics

  type GoId = nat

  /** A value together with the goroutine that sends or receives it. */
  datatype Parcel<V> = Parcel(g: GoId, v: V)

  /** The channel as its lock protects it: the ring's contents and the two wait queues. */
  datatype Chan<V> = Chan(cap: nat, buf: seq<V>, closed: bool, sendq: seq<Parcel<V>>, recvq: seq<GoId>)
  {
    /** The documented invariants, which hold even while close drains the queues. */
    ghost predicate Coherent() {
      && |buf| <= cap
      && (recvq != [] ==> buf == [] && sendq == [])
      && (sendq != [] ==> |buf| == cap)
    }

    ghost predicate Valid() { Coherent() && (closed ==> sendq == [] && recvq == []) }
  }

  datatype SendResult = SendPanics | HandedTo(g: GoId) | Buffered | SendWouldBlock | SendParks

  datatype RecvResult<V> = Closed | FromSender(v: V, g: GoId) | FromBuffer(v: V) | RecvWouldBlock | RecvParks

  /** chansend from taking the lock to releasing it or parking. */
  function Send<V>(c: Chan<V>, g: GoId, v: V, block: bool): (Chan<V>, SendResult)
  {
    if c.closed then (c, SendPanics)
    else if c.recvq != [] then (c.(recvq := c.recvq[1..]), HandedTo(c.recvq[0]))
    else if |c.buf| < c.cap then (c.(buf := c.buf + [v]), Buffered)
    else if !block then (c, SendWouldBlock)
    else (c.(sendq := c.sendq + [Parcel(g, v)]), SendParks)
  }

  /** chanrecv from taking the lock to releasing it or parking. */
  function Recv<V>(c: Chan<V>, g: GoId, block: bool): (Chan<V>, RecvResult<V>)
  {
    if c.closed && c.buf == [] then (c, Closed)
    else if c.sendq != [] then
      var s := c.sendq[0];
      if c.cap == 0 || c.buf == [] then (c.(sendq := c.sendq[1..]), FromSender(s.v, s.g))
      else (c.(sendq := c.sendq[1..], buf := c.buf[1..] + [s.v]), FromSender(c.buf[0], s.g))
    else if c.buf != [] then (c.(buf := c.buf[1..]), FromBuffer(c.buf[0]))
    else if !block then (c, RecvWouldBlock)
    else (c.(recvq := c.recvq + [g]), RecvParks)
  }

  /** closechan as a whole. */
  function Close<V>(c: Chan<V>): Chan<V>
  {
    c.(closed := true, sendq := [], recvq := [])
  }

  /** Whatever the ring's size, the receiver takes the head of ring and queue together. */
  lemma RecvTakesHead<V>(c: Chan<V>, g: GoId, block: bool)
    requires c.Valid() && c.sendq != []
    ensures var w := c.sendq[0];
            var all := c.buf + [w.v];
            Recv(c, g, block) == (c.(sendq := c.sendq[1..], buf := all[1..]), FromSender(all[0], w.g))
  {
    if c.buf == [] { assert (c.buf + [c.sendq[0].v])[1..] == []; }
    else { assert (c.buf + [c.sendq[0].v])[1..] == c.buf[1..] + [c.sendq[0].v]; }
  }

  // ---------- when each result comes ----------

  /** Nothing a receive could take. */
  predicate NotReceivable<V>(c: Chan<V>) { c.buf == [] && c.sendq == [] }

  /** Nobody and no room to take a value. */
  predicate NotSendable<V>(c: Chan<V>) { c.recvq == [] && |c.buf| == c.cap }

  /** A send panics exactly on a closed channel.  On an open one it hands its value to the
      first receiver exactly if there is one, would block or parks exactly if there is
      neither receiver nor room, and otherwise buffers the value: `block` plays no part in that. */
  lemma SendResults<V>(c: Chan<V>, g: GoId, v: V, block: bool)
    requires c.Valid()
    ensures var r := Send(c, g, v, block).1;
            && (r.SendPanics? <==> c.closed)
            && (r.HandedTo? <==> !c.closed && c.recvq != [])
            && (r.HandedTo? ==> r.g == c.recvq[0])
            && (r.Buffered? <==> !c.closed && c.recvq == [] && |c.buf| < c.cap)
            && (r.SendWouldBlock? <==> !c.closed && NotSendable(c) && !block)
            && (r.SendParks? <==> !c.closed && NotSendable(c) && block)
  {
  }

  /** What each result means for the channel. */
  lemma SendEffects<V>(c: Chan<V>, g: GoId, v: V, block: bool)
    requires c.Valid()
    ensures var (d, r) := Send(c, g, v, block);
            && d.cap == c.cap && d.closed == c.closed && d.Valid()
            && (r.SendPanics? || r.SendWouldBlock? ==> d == c)
            && (r.HandedTo? ==> [r.g] + d.recvq == c.recvq && d.buf == c.buf && d.sendq == c.sendq)
            && (r.Buffered? ==> d.buf == c.buf + [v] && d.recvq == c.recvq && d.sendq == c.sendq)
            && (r.SendParks? ==> d.sendq == c.sendq + [Parcel(g, v)] && d.recvq == c.recvq && d.buf == c.buf)
  {
  }

  /** A receive reports a closed channel exactly if it is closed and drained; on an open one
      it would block or parks exactly if nothing is there; otherwise a value comes, from the
      buffer alone exactly if no sender waits. */
  lemma RecvResults<V>(c: Chan<V>, g: GoId, block: bool)
    requires c.Valid()
    ensures var r := Recv(c, g, block).1;
            && (r.Closed? <==> c.closed && c.buf == [])
            && (r.RecvWouldBlock? <==> !c.closed && NotReceivable(c) && !block)
            && (r.RecvParks? <==> !c.closed && NotReceivable(c) && block)
            && (r.FromBuffer? <==> c.buf != [] && c.sendq == [])
            && (r.FromSender? <==> c.sendq != [])
            && (r.FromBuffer? || r.FromSender? ==> r.v == (if c.buf != [] then c.buf[0] else c.sendq[0].v))
            && (r.FromSender? ==> r.g == c.sendq[0].g)
  {
  }

  /** What each result means for the channel: values move up one place. */
  lemma RecvEffects<V>(c: Chan<V>, g: GoId, block: bool)
    requires c.Valid()
    ensures var (d, r) := Recv(c, g, block);
            && d.cap == c.cap && d.closed == c.closed && d.Valid()
            && (r.Closed? || r.RecvWouldBlock? ==> d == c)
            && (r.RecvParks? ==> d.recvq == c.recvq + [g] && d.buf == c.buf && d.sendq == c.sendq)
            && (r.FromBuffer? ==> [r.v] + d.buf == c.buf && d.recvq == c.recvq && d.sendq == c.sendq)
            && (r.FromSender? ==>
                  && d.recvq == c.recvq && d.sendq == c.sendq[1..]
                  && [r.v] + d.buf == c.buf + [c.sendq[0].v])
  {
    if c.buf != [] && c.sendq != [] {
      assert [c.buf[0]] + (c.buf[1..] + [c.sendq[0].v]) == c.buf + [c.sendq[0].v];
    }
  }

  /** With room for one value, a send that must not block buffers it, and the next receive
      that must not block gets it. */
  lemma OneSlot<V>(g: GoId, h: GoId, v: V)
    ensures Send(Chan(1, [], false, [], []), g, v, false) == (Chan(1, [v], false, [], []), Buffered)
    ensures Recv(Chan(1, [v], false, [], []), h, false) == (Chan(1, [], false, [], []), FromBuffer(v))
  {
    assert [] + [v] == [v] && [v][1..] == [];
  }
}

/** runtime/chan.go: the channel object, its ring buffer and its two wait queues, updated in
    place.  Each operation is proved against the value-level section in ChannelSpec. */
module ChannelRuntime {
  import opened Basics
  import opened ChannelSpec
  import opened WaitQueue

  class Hchan<V> {
    var qcount: nat
    const dataqsiz: nat
    const buf: array<V>
    var closed: bool
    var sendx: nat
    var recvx: nat
    const recvq: WaitQ<V>
    const sendq: WaitQ<V>
    const zero: V          // the element type's zero value

    constructor (size: nat, zero: V)
      ensures Valid() && Abs() == Chan(size, [], false, [], [])
      ensures fresh(buf) && fresh(recvq) && fresh(sendq)
    {
      dataqsiz := size;
      buf := new V[size](_ => zero);
      qcount, sendx, recvx, closed := 0, 0, 0, false;
      this.zero := zero;
      recvq := new WaitQ();
      sendq := new WaitQ();
    }

    // ---------- the ring ----------

    ghost predicate RingValid()
      reads this
    {
      && buf.Length == dataqsiz && qcount <= dataqsiz
      && (if dataqsiz == 0 then recvx == 0 && sendx == 0 else recvx < dataqsiz && sendx == After(recvx, qcount))
    }

    /** The slot k places after slot i. */
    function After(i: nat, k: nat): nat { if i + k < dataqsiz then i + k else i + k - dataqsiz }

    /** Wrapping once is taking the remainder. */
    static lemma WrapOnce(s: nat, d: nat, r: nat)
      requires r < d && (r == s || r + d == s)
      ensures r == s % d
    {
      var q := s / d;
      assert s == d * q + s % d;
      assert q <= 0 || d * q >= d;
      assert q <= 1 || d * q >= d + d;
    }

    lemma SendIndex()
      requires RingValid() && dataqsiz > 0
      ensures sendx == (recvx + qcount) % dataqsiz
    {
      WrapOnce(recvx + qcount, dataqsiz, sendx);
    }

    ghost function Ring(): (r: seq<V>)
      requires RingValid()
      reads this, buf
      ensures |r| == qcount
    {
      RingOf(buf[..], recvx, qcount)
    }

    /** n values from slot x on, around the edge of the ring. */
    static ghost function RingOf(a: seq<V>, x: nat, n: nat): (r: seq<V>)
      requires n <= |a| && (x < |a| || a == [])
      ensures |r| == n
    {
      if n == 0 then [] else if x + n <= |a| then a[x..x + n] else a[x..] + a[..x + n - |a|]
    }

    /** The ring without its head. */
    static lemma RingTail(a: seq<V>, x: nat, n: nat, v: V)
      requires 0 < n <= |a| && x < |a|
      ensures var y := if x + 1 == |a| then 0 else x + 1;
              RingOf(a, x, n) == [a[x]] + RingOf(a[x := v], y, n - 1)
    {
    }

    /** The ring with one value more. */
    static lemma RingMore(a: seq<V>, x: nat, n: nat, v: V)
      requires n < |a| && x < |a|
      ensures var y := if x + n < |a| then x + n else x + n - |a|;
              RingOf(a[y := v], x, n + 1) == RingOf(a, x, n) + [v]
    {
    }

    method PutTail(v: V)
      requires RingValid() && qcount < dataqsiz
      modifies this`qcount, this`sendx, buf
      ensures RingValid() && Ring() == old(Ring()) + [v]
    {
      hide RingOf;
      RingMore(buf[..], recvx, qcount, v);
      ghost var was := buf[..];
      buf[sendx] := v;
      assert buf[..] == was[sendx := v];
      sendx := sendx + 1;
      if sendx == dataqsiz { sendx := 0; }
      qcount := qcount + 1;
    }

    method TakeHead() returns (v: V)
      requires RingValid() && qcount > 0
      modifies this`qcount, this`recvx, buf
      ensures RingValid() && old(Ring()) == [v] + Ring()
    {
      hide RingOf;
      RingTail(buf[..], recvx, qcount, zero);
      ghost var was := buf[..];
      v := buf[recvx];
      buf[recvx] := zero;
      assert buf[..] == was[recvx := zero];
      recvx := recvx + 1;
      if recvx == dataqsiz { recvx := 0; }
      qcount := qcount - 1;
    }

    /** A full ring read from slot x, and what it is after the head made way for v. */
    static lemma FullRing(a: seq<V>, x: nat, v: V)
      requires x < |a|
      ensures var r := a[x..] + a[..x];
              var y := if x + 1 == |a| then 0 else x + 1;
              a[x := v][y..] + a[x := v][..y] == r[1..] + [v]
    {
    }

    /** On a full ring the head slot is also the next tail slot. */
    method SwapHead(v: V) returns (head: V)
      requires RingValid() && qcount == dataqsiz > 0
      modifies this`sendx, this`recvx, buf
      ensures RingValid() && head == old(Ring())[0] && Ring() == old(Ring())[1..] + [v]
    {
      ghost var a, x := buf[..], recvx;
      assert Ring() == a[x..] + a[..x];
      FullRing(a, x, v);
      head := buf[recvx];
      buf[recvx] := v;
      assert buf[..] == a[x := v];
      recvx := recvx + 1;
      if recvx == dataqsiz { recvx := 0; }
      sendx := recvx;
      assert Ring() == buf[..][recvx..] + buf[..][..recvx];
    }

    /** A value goes in at the tail of a full ring and one comes out at the head; without a
        ring it is the same value. */
    method PassThrough(w: V) returns (v: V)
      requires RingValid() && qcount == dataqsiz
      modifies this`sendx, this`recvx, buf
      ensures RingValid() && v == (old(Ring()) + [w])[0] && Ring() == (old(Ring()) + [w])[1..]
    {
      if dataqsiz == 0 {
        v := w;
      } else {
        v := SwapHead(w);
        assert (old(Ring()) + [w])[1..] == old(Ring())[1..] + [w];
      }
    }

    // ---------- the channel ----------

    /** Only plain goroutines wait here; a parked sender keeps the variable it sends from. */
    ghost predicate Valid()
      reads this, buf, recvq, recvq.nodes, sendq, sendq.nodes
    {
      && RingValid()
      && recvq != sendq && recvq.Valid() && sendq.Valid()
      && (forall n | n in recvq.nodes :: !n.isSelect && n !in sendq.nodes)
      && (forall n | n in sendq.nodes :: !n.isSelect && n.elem != null)
      && (recvq.nodes != [] ==> qcount == 0 && sendq.nodes == [])
      && (sendq.nodes != [] ==> qcount == dataqsiz)
      && (closed ==> recvq.nodes == [] && sendq.nodes == [])
    }

    ghost function Senders(): (r: seq<Parcel<V>>)
      requires forall n | n in sendq.nodes :: n.elem != null
      reads sendq, sendq.nodes, set n | n in sendq.nodes && n.elem != null :: n.elem
      ensures |r| == |sendq.nodes|
    {
      seq(|sendq.nodes|, k requires 0 <= k < |sendq.nodes| && sendq.nodes[k].elem != null
                           reads sendq, sendq.nodes, set n | n in sendq.nodes && n.elem != null :: n.elem
                         => Parcel(sendq.nodes[k].g.id, sendq.nodes[k].elem.v))
    }

    ghost function Receivers(): seq<GoId>
      reads recvq, recvq.nodes
    {
      seq(|recvq.nodes|, k requires 0 <= k < |recvq.nodes| reads recvq, recvq.nodes => recvq.nodes[k].g.id)
    }

    /** The channel as a value. */
    ghost function Abs(): Chan<V>
      requires Valid()
      reads this, buf, recvq, recvq.nodes, sendq, sendq.nodes, set n | n in sendq.nodes && n.elem != null :: n.elem
    {
      Chan(dataqsiz, Ring(), closed, Senders(), Receivers())
    }

    /** The object, between operations, is a channel as ChannelSpec knows it. */
    lemma AbsValid()
      requires Valid()
      ensures Abs().Valid()
    {
    }

    /** send: the value goes straight into the variable of the first receiver, if it gave one. */
    method SendToReceiver(ep: Cell<V>) returns (sg: Sudog<V>)
      requires Valid() && recvq.nodes != []
      modifies recvq, recvq.nodes, set n | n in recvq.nodes :: n.g
      modifies (set n | n in recvq.nodes && n.elem != null :: n.elem)`v
      ensures Valid() && Abs() == old(Abs()).(recvq := old(Abs()).recvq[1..])
      ensures sg == old(recvq.nodes)[0] && sg.elem == null && sg.g.param
      ensures old(recvq.nodes[0].elem) != null ==> old(recvq.nodes[0].elem).v == old(ep.v)
      ensures forall g: G {:trigger g.param} | old(allocated(g)) && g != sg.g :: g.param == old(g.param)
    {
      hide Ring;
      hide RingOf;
      var first, _ := recvq.Dequeue();
      sg := first;
      if sg.elem != null {
        sg.elem.v := ep.v;
        sg.elem := null;
      }
      sg.g.param := true;
      assert Ring() == old(Ring()) && Senders() == old(Senders()) && Receivers() == old(Receivers())[1..];
    }

    method ParkSender(gp: G, ep: Cell<V>) returns (sg: Sudog<V>)
      requires Valid() && !closed && recvq.nodes == [] && qcount == dataqsiz
      modifies sendq, (set n | n in sendq.nodes)`next, gp`param
      ensures Valid() && Abs() == old(Abs()).(sendq := old(Abs()).sendq + [Parcel(gp.id, old(ep.v))])
      ensures fresh(sg) && sg.g == gp && sg.elem == ep && sg in sendq.nodes && !gp.param
    {
      hide Ring;
      hide RingOf;
      sg := new Sudog(gp, false, ep);
      gp.param := false;
      sendq.Enqueue(sg);
      assert Senders() == old(Senders()) + [Parcel(gp.id, ep.v)];
      assert Receivers() == old(Receivers()) && Ring() == old(Ring());
    }

    method ParkReceiver(gp: G, ep: Cell?<V>) returns (sg: Sudog<V>)
      requires Valid() && !closed && sendq.nodes == [] && qcount == 0
      modifies recvq, (set n | n in recvq.nodes)`next, gp`param
      ensures Valid() && Abs() == old(Abs()).(recvq := old(Abs()).recvq + [gp.id])
      ensures fresh(sg) && sg.g == gp && sg.elem == ep && sg in recvq.nodes && !gp.param
    {
      hide Ring;
      hide RingOf;
      sg := new Sudog(gp, false, ep);
      gp.param := false;
      recvq.Enqueue(sg);
      assert Receivers() == old(Receivers()) + [gp.id];
      assert Senders() == old(Senders()) && Ring() == old(Ring());
    }

    /** chansend under the lock, up to the unlock or the park.  `sg` is the receiver served,
        or the place in the queue where the sender parked. */
    method Chansend(gp: G, ep: Cell<V>, block: bool) returns (r: SendResult, sg: Sudog?<V>)
      requires Valid()
      modifies this, buf, recvq, sendq, recvq.nodes, sendq.nodes
      modifies set n | n in recvq.nodes :: n.g, gp`param
      modifies (set n | n in recvq.nodes && n.elem != null :: n.elem)`v
      ensures Valid()
      ensures (Abs(), r) == Send(old(Abs()), gp.id, old(ep.v), block)
      ensures r.HandedTo? ==> sg != null && sg == old(recvq.nodes)[0] && sg.elem == null && sg.g.param
      ensures r.HandedTo? && old(recvq.nodes[0].elem) != null ==> old(recvq.nodes[0].elem).v == old(ep.v)
      ensures r.SendParks? ==> sg != null && fresh(sg) && sg.g == gp && sg.elem == ep
      ensures r.SendParks? ==> sg in sendq.nodes && !gp.param
      ensures forall g: G {:trigger g.param} | old(allocated(g)) && (sg == null || g != sg.g) :: g.param == old(g.param)
    {
      sg := null;
      if closed { return SendPanics, null; }
      if recvq.first != null {
        sg := SendToReceiver(ep);
        return HandedTo(sg.g.id), sg;
      }
      if qcount < dataqsiz {
        PutTail(ep.v);
        assert Senders() == old(Senders()) && Receivers() == old(Receivers());
        return Buffered, null;
      }
      assert Ring() == old(Ring()) && Senders() == old(Senders()) && Receivers() == old(Receivers());
      if !block { return SendWouldBlock, null; }
      sg := ParkSender(gp, ep);
      r := SendParks;
    }

    /** Writes a result where the receiver wants it, which is no sender's variable. */
    method StoreReceived(ep: Cell?<V>, v: V)
      requires Valid() && (ep != null ==> forall n | n in sendq.nodes :: n.elem != ep)
      modifies (if ep == null then {} else {ep})`v
      ensures Valid() && Abs() == old(Abs())
      ensures ep != null ==> ep.v == v
    {
      if ep != null { ep.v := v; }
      assert Senders() == old(Senders()) && Receivers() == old(Receivers()) && Ring() == old(Ring());
    }

    /** chanrecv under the lock, up to the unlock or the park; ep is null when the received
        value is ignored.  `sg` is the sender released, or the place where the receiver parked. */
    method Chanrecv(gp: G, ep: Cell?<V>, block: bool) returns (r: RecvResult<V>, sg: Sudog?<V>)
      requires Valid() && (ep != null ==> forall n | n in sendq.nodes :: n.elem != ep)
      modifies this, buf, recvq, sendq, recvq.nodes, sendq.nodes
      modifies set n | n in sendq.nodes :: n.g, gp`param
      modifies (if ep == null then {} else {ep})`v
      ensures Valid()
      ensures (Abs(), r) == Recv(old(Abs()), gp.id, block)
      ensures ep != null && (r.FromBuffer? || r.FromSender?) ==> ep.v == r.v
      ensures ep != null && r.Closed? ==> ep.v == zero
      ensures r.FromSender? ==> sg != null && sg == old(sendq.nodes)[0] && sg.elem == null && sg.g.param
      ensures r.RecvParks? ==> sg != null && fresh(sg) && sg.g == gp && sg.elem == ep
      ensures r.RecvParks? ==> sg in recvq.nodes && !gp.param
      ensures forall g: G {:trigger g.param} | old(allocated(g)) && (sg == null || g != sg.g) :: g.param == old(g.param)
    {
      hide Ring;
      hide RingOf;
      sg := null;
      if closed && qcount == 0 {
        StoreReceived(ep, zero);
        return Closed, null;
      }
      if sendq.first != null {
        var v;
        v, sg := RecvFromSender();
        RecvTakesHead(old(Abs()), gp.id, block);
        StoreReceived(ep, v);
        return FromSender(v, sg.g.id), sg;
      }
      if qcount > 0 {
        var v := TakeHead();
        assert Senders() == old(Senders()) && Receivers() == old(Receivers());
        StoreReceived(ep, v);
        return FromBuffer(v), null;
      }
      assert Ring() == old(Ring()) && Senders() == old(Senders()) && Receivers() == old(Receivers());
      if !block { return RecvWouldBlock, null; }
      sg := ParkReceiver(gp, ep);
      r := RecvParks;
    }

    /** Takes the first sender off the queue, with its value, and marks it as served. */
    method PopSender() returns (w: V, sg: Sudog<V>)
      requires Valid() && sendq.nodes != []
      modifies sendq, (set n | n in sendq.nodes)`next, (set n | n in sendq.nodes)`prev
      modifies set n | n in sendq.nodes :: n.g, (if sendq.nodes == [] then {} else {sendq.nodes[0]})`elem
      ensures Valid() && Abs() == old(Abs()).(sendq := old(Abs()).sendq[1..])
      ensures w == old(Abs()).sendq[0].v && sendq.nodes == old(sendq.nodes)[1..]
      ensures sg == old(sendq.nodes)[0] && sg.elem == null && sg.g.param
      ensures forall g: G {:trigger g.param} | old(allocated(g)) && g != sg.g :: g.param == old(g.param)
    {
      hide Ring;
      hide RingOf;
      var first, _ := sendq.Dequeue();
      sg := first;
      w := sg.elem.v;
      sg.elem := null;
      sg.g.param := true;
      assert Ring() == old(Ring()) && Senders() == old(Senders())[1..] && Receivers() == old(Receivers());
    }

    /** recv: the sender at the head of the queue hands over its value, through the ring if
        there is one. */
    method RecvFromSender() returns (v: V, sg: Sudog<V>)
      requires Valid() && sendq.nodes != []
      modifies this, buf, sendq, sendq.nodes, set n | n in sendq.nodes :: n.g
      ensures Valid()
      ensures var all := old(Abs()).buf + [old(Abs()).sendq[0].v];
              v == all[0] && Abs() == old(Abs()).(sendq := old(Abs()).sendq[1..], buf := all[1..])
      ensures sg == old(sendq.nodes)[0] && sg.elem == null && sg.g.param
      ensures sendq.nodes == old(sendq.nodes)[1..] && forall n | n in sendq.nodes :: n.elem == old(n.elem)
      ensures forall g: G {:trigger g.param} | old(allocated(g)) && g != sg.g :: g.param == old(g.param)
    {
      hide Ring;
      hide RingOf;
      var w;
      w, sg := PopSender();
      ghost var rest, rs := Senders(), Receivers();
      v := PassThrough(w);
      assert Senders() == rest && Receivers() == rs;
    }

    /** One round of the first loop of close: the receiver gets the zero value and a nil param. */
    method ReleaseReceiver() returns (sg: Sudog<V>)
      requires recvq.Valid() && recvq.nodes != [] && forall n | n in recvq.nodes :: !n.isSelect
      modifies recvq, recvq.nodes, set n | n in recvq.nodes :: n.g
      modifies (if recvq.nodes == [] || recvq.nodes[0].elem == null then {} else {recvq.nodes[0].elem})`v
      ensures recvq.Valid() && sg == old(recvq.nodes)[0] && recvq.nodes == old(recvq.nodes)[1..]
      ensures !sg.g.param && sg.elem == null
      ensures old(recvq.nodes[0].elem) != null ==> old(recvq.nodes[0].elem).v == zero
      ensures forall n | n in old(recvq.nodes) && n != sg :: n.elem == old(n.elem)
      ensures forall n | n in old(recvq.nodes) && !old(n.g.param) :: !n.g.param
    {
      var first, _ := recvq.Dequeue();
      sg := first;
      if sg.elem != null {
        sg.elem.v := zero;
        sg.elem := null;
      }
      sg.g.param := false;
    }

    method ReleaseReceivers() returns (glist: seq<G>)
      requires recvq.Valid() && forall n | n in recvq.nodes :: !n.isSelect
      modifies recvq, recvq.nodes, set n | n in recvq.nodes :: n.g
      modifies (set n | n in recvq.nodes && n.elem != null :: n.elem)`v
      ensures recvq.Valid() && recvq.nodes == []
      ensures glist == Goroutines(old(recvq.nodes)) && forall g | g in glist :: !g.param
      ensures forall n | n in old(recvq.nodes) && old(n.elem) != null :: old(n.elem).v == zero
    {
      hide Ring;
      hide RingOf;
      ghost var all, k := recvq.nodes, 0;
      glist := [];
      while recvq.first != null
        invariant recvq.Valid() && k <= |all| && recvq.nodes == all[k..]
        invariant glist == Goroutines(all[..k]) && forall i | 0 <= i < k :: !all[i].g.param
        invariant forall i | 0 <= i < k && old(all[i].elem) != null :: old(all[i].elem).v == zero
        invariant forall i | k <= i < |all| :: all[i].elem == old(all[i].elem)
        decreases |recvq.nodes|
      {
        assert all[..k + 1] == all[..k] + [all[k]];
        var sg := ReleaseReceiver();
        glist := glist + [sg.g];
        k := k + 1;
      }
      assert all[..k] == all;
    }

    method ReleaseSender() returns (sg: Sudog<V>)
      requires sendq.Valid() && sendq.nodes != [] && forall n | n in sendq.nodes :: !n.isSelect
      modifies sendq, sendq.nodes, set n | n in sendq.nodes :: n.g
      ensures sendq.Valid() && sg == old(sendq.nodes)[0] && sendq.nodes == old(sendq.nodes)[1..]
      ensures !sg.g.param && sg.elem == null
      ensures forall g: G {:trigger g.param} | old(allocated(g)) && !old(g.param) :: !g.param
    {
      var first, _ := sendq.Dequeue();
      sg := first;
      sg.elem := null;
      sg.g.param := false;
    }

    /** The second loop of close: every waiting sender is woken to panic. */
    method ReleaseSenders() returns (glist: seq<G>)
      requires sendq.Valid() && forall n | n in sendq.nodes :: !n.isSelect
      modifies sendq, sendq.nodes, set n | n in sendq.nodes :: n.g
      ensures sendq.Valid() && sendq.nodes == []
      ensures glist == Goroutines(old(sendq.nodes)) && forall g | g in glist :: !g.param
      ensures forall g: G {:trigger g.param} | old(allocated(g)) && !old(g.param) :: !g.param
    {
      hide Ring;
      hide RingOf;
      ghost var all, k := sendq.nodes, 0;
      glist := [];
      while sendq.first != null
        invariant sendq.Valid() && k <= |all| && sendq.nodes == all[k..]
        invariant glist == Goroutines(all[..k]) && forall i | 0 <= i < k :: !all[i].g.param
        invariant forall g: G {:trigger g.param} | old(allocated(g)) && !old(g.param) :: !g.param
        decreases |sendq.nodes|
      {
        assert all[..k + 1] == all[..k] + [all[k]];
        var sg := ReleaseSender();
        glist := glist + [sg.g];
        k := k + 1;
      }
      assert all[..k] == all;
    }

    method CloseOpen() returns (glist: seq<G>)
      requires Valid() && !closed
      modifies this`closed, recvq, sendq, recvq.nodes, sendq.nodes
      modifies set n | n in recvq.nodes :: n.g, set n | n in sendq.nodes :: n.g
      modifies (set n | n in recvq.nodes && n.elem != null :: n.elem)`v
      ensures Valid() && Abs() == Close(old(Abs()))
      ensures glist == Goroutines(old(recvq.nodes)) + Goroutines(old(sendq.nodes))
      ensures forall g | g in glist :: !g.param
      ensures forall n | n in old(recvq.nodes) && old(n.elem) != null :: old(n.elem).v == zero
    {
      hide RingOf;
      closed := true;
      var readers := ReleaseReceivers();
      assert sendq.nodes == old(sendq.nodes);
      var writers := ReleaseSenders();
      glist := readers + writers;
      assert Ring() == old(Ring()) && Senders() == [] && Receivers() == [];
    }

    /** closechan: closing twice panics; otherwise `ready` are the goroutines in the order in
        which they are made ready, each once: the last of those waiting first. */
    method Closechan() returns (panics: bool, ready: seq<G>)
      requires Valid()
      modifies this`closed, recvq, sendq, recvq.nodes, sendq.nodes
      modifies set n | n in recvq.nodes :: n.g, set n | n in sendq.nodes :: n.g
      modifies (set n | n in recvq.nodes && n.elem != null :: n.elem)`v
      ensures Valid() && panics == old(closed)
      ensures Abs() == if panics then old(Abs()) else Close(old(Abs()))
      ensures ready == if panics then [] else Reversed(Goroutines(old(recvq.nodes)) + Goroutines(old(sendq.nodes)))
      ensures forall g | g in ready :: !g.param
      ensures !panics ==> forall n | n in old(recvq.nodes) && old(n.elem) != null :: old(n.elem).v == zero
    {
      panics, ready := closed, [];
      if !closed {
        var glist := CloseOpen();
        ready := ReadyAll(glist);
      }
    }

    /** The loop that makes all goroutines on a gList ready; its top is the end of `glist`. */
    static method ReadyAll(glist: seq<G>) returns (ready: seq<G>)
      ensures ready == Reversed(glist) && forall g | g in ready :: g in glist
    {
      var rest := glist;
      ready := [];
      while |rest| > 0
        invariant |rest| + |ready| == |glist| && rest == glist[..|rest|]
        invariant forall i | 0 <= i < |ready| :: ready[i] == glist[|glist| - 1 - i]
      {
        ready := ready + [rest[|rest| - 1]];
        rest := rest[..|rest| - 1];
      }
    }
  }

  function Reversed(s: seq<G>): (r: seq<G>)
    ensures |r| == |s| && forall i | 0 <= i < |s| :: r[i] == s[|s| - 1 - i]
  {
    seq(|s|, i requires 0 <= i < |s| => s[|s| - 1 - i])
  }

  function Goroutines<V>(nodes: seq<Sudog<V>>): (r: seq<G>)
    ensures |r| == |nodes| && forall i | 0 <= i < |nodes| :: r[i] == nodes[i].g
  {
    seq(|nodes|, i requires 0 <= i < |nodes| => nodes[i].g)
  }
}

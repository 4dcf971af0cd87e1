/** runtime/chan.go: all interleavings of send, receive and close on one channel.

    Every critical section is one step, except that close is split at each write another
    goroutine could see without the lock: setting `closed`, each dequeue, the unlock.
    Waking a goroutine is its own step too, since goready runs after the unlock. */
module ChannelRuns {
  import opened Basics
  import opened ChannelSpec

  /** Where a goroutine stands.  `param` is whether g.param is non-nil: a peer completed the
      operation; it is nil when close woke the goroutine.  `ready` says goready has run. */
  datatype Phase<V> =
    | Running
    | SendParked(v: V)
    | RecvParked
    | SendDone(param: bool, v: V, ready: bool)
    | RecvDone(param: bool, slot: Option<V>, ready: bool)

  /** A goroutine with what its completed operations reported, in program order: the values
      received, the values of sends that returned, and those of sends that parked and then
      panicked; and how often it has been parked and made ready again. */
  datatype Go<V> = Go(phase: Phase<V>, got: seq<V>, sent: seq<V>, lost: seq<V>, parks: nat, wakes: nat)

  /** The channel, the goroutines, whether a close holds the lock, and the history in lock
      order: values accepted from senders (handed over, buffered or parked with), values
      delivered to receivers, values of parked senders dropped by close. */
  datatype State<V> = State(
    ch: Chan<V>, gos: map<GoId, Go<V>>, closing: bool,
    accepted: seq<Parcel<V>>, delivered: seq<Parcel<V>>, dropped: seq<Parcel<V>>)

  datatype Label<V> =
    | DoSend(g: GoId, v: V, block: bool)
    | DoRecv(g: GoId, block: bool)
    | CloseBegin
    | DrainReceiver
    | DrainSender
    | CloseEnd
    | MakeReady(g: GoId)
    | ResumeSend(g: GoId)
    | ResumeRecv(g: GoId)

  function Fresh<V>(): Go<V> { Go(Running, [], [], [], 0, 0) }

  function At<V>(gos: map<GoId, Go<V>>, g: GoId): Go<V> { if g in gos then gos[g] else Fresh() }

  function Init<V>(cap: nat): State<V>
  {
    State(Chan(cap, [], false, [], []), map[], false, [], [], [])
  }

  // ---------- the steps ----------

  /** Goroutine g hands v to the parked receiver h. */
  function HandOff<V>(s: State<V>, ch: Chan<V>, g: GoId, h: GoId, v: V): State<V>
  {
    var me := At(s.gos, g);
    var t := s.gos[g := me.(sent := me.sent + [v])];
    s.(ch := ch, gos := t[h := At(t, h).(phase := RecvDone(true, Some(v), false))],
       accepted := s.accepted + [Parcel(g, v)], delivered := s.delivered + [Parcel(h, v)])
  }

  function PutInBuffer<V>(s: State<V>, ch: Chan<V>, g: GoId, v: V): State<V>
  {
    var me := At(s.gos, g);
    s.(ch := ch, gos := s.gos[g := me.(sent := me.sent + [v])], accepted := s.accepted + [Parcel(g, v)])
  }

  function ParkSender<V>(s: State<V>, ch: Chan<V>, g: GoId, v: V): State<V>
  {
    var me := At(s.gos, g);
    s.(ch := ch, gos := s.gos[g := me.(phase := SendParked(v), parks := me.parks + 1)],
       accepted := s.accepted + [Parcel(g, v)])
  }

  function TakeFromBuffer<V>(s: State<V>, ch: Chan<V>, g: GoId, v: V): State<V>
  {
    var me := At(s.gos, g);
    s.(ch := ch, gos := s.gos[g := me.(got := me.got + [v])], delivered := s.delivered + [Parcel(g, v)])
  }

  /** Goroutine g takes v, and the parked sender h is done: its value w left its hands. */
  function TakeAndRelease<V>(s: State<V>, ch: Chan<V>, g: GoId, v: V, h: GoId, w: V): State<V>
  {
    var t := TakeFromBuffer(s, ch, g, v);
    t.(gos := t.gos[h := At(t.gos, h).(phase := SendDone(true, w, false))])
  }

  function ParkReceiver<V>(s: State<V>, ch: Chan<V>, g: GoId): State<V>
  {
    var me := At(s.gos, g);
    s.(ch := ch, gos := s.gos[g := me.(phase := RecvParked, parks := me.parks + 1)])
  }

  function Put<V>(s: State<V>, g: GoId, go: Go<V>): State<V> { s.(gos := s.gos[g := go]) }

  predicate Finished<V>(p: Phase<V>) { p.SendDone? || p.RecvDone? }

  /** goready. */
  function Readied<V>(me: Go<V>): Go<V>
    requires Finished(me.phase)
  {
    me.(phase := me.phase.(ready := true), wakes := me.wakes + 1)
  }

  /** The rest of chansend or chanrecv after the park: the operation returns, panics when
      param is nil for a sender, or reports a closed channel when it is nil for a receiver. */
  function Resumed<V>(me: Go<V>): Go<V>
    requires Finished(me.phase)
  {
    if me.phase.SendDone? then
      if me.phase.param then me.(phase := Running, sent := me.sent + [me.phase.v])
      else me.(phase := Running, lost := me.lost + [me.phase.v])
    else if me.phase.slot.Some? then me.(phase := Running, got := me.got + [me.phase.slot.value])
    else me.(phase := Running)
  }

  function StepSend<V>(s: State<V>, g: GoId, v: V, block: bool): State<V>
  {
    var q := Send(s.ch, g, v, block);
    match q.1
    case SendPanics => s
    case SendWouldBlock => s
    case HandedTo(h) => HandOff(s, q.0, g, h, v)
    case Buffered => PutInBuffer(s, q.0, g, v)
    case SendParks => ParkSender(s, q.0, g, v)
  }

  function StepRecv<V>(s: State<V>, g: GoId, block: bool): State<V>
  {
    var q := Recv(s.ch, g, block);
    match q.1
    case Closed => s
    case RecvWouldBlock => s
    case FromBuffer(v) => TakeFromBuffer(s, q.0, g, v)
    case FromSender(v, h) => TakeAndRelease(s, q.0, g, v, h, s.ch.sendq[0].v)
    case RecvParks => ParkReceiver(s, q.0, g)
  }

  /** None where the step is not enabled.  A step that panics or reports "would block"
      leaves everything as it was. */
  function Step<V>(s: State<V>, l: Label<V>): Option<State<V>>
  {
    match l
    case DoSend(g, v, block) =>
      if s.closing || !At(s.gos, g).phase.Running? then None else Some(StepSend(s, g, v, block))
    case DoRecv(g, block) =>
      if s.closing || !At(s.gos, g).phase.Running? then None else Some(StepRecv(s, g, block))
    case CloseBegin =>
      if s.closing then None
      else if s.ch.closed then Some(s)
      else Some(s.(ch := s.ch.(closed := true), closing := true))
    case DrainReceiver =>
      if !s.closing || s.ch.recvq == [] then None
      else
        var g := s.ch.recvq[0];
        Some(s.(ch := s.ch.(recvq := s.ch.recvq[1..]),
                gos := s.gos[g := At(s.gos, g).(phase := RecvDone(false, None, false))]))
    case DrainSender =>
      if !s.closing || s.ch.recvq != [] || s.ch.sendq == [] then None
      else
        var w := s.ch.sendq[0];
        Some(s.(ch := s.ch.(sendq := s.ch.sendq[1..]), dropped := s.dropped + [w],
                gos := s.gos[w.g := At(s.gos, w.g).(phase := SendDone(false, w.v, false))]))
    case CloseEnd =>
      if !s.closing || s.ch.recvq != [] || s.ch.sendq != [] then None else Some(s.(closing := false))
    case MakeReady(g) =>
      var me := At(s.gos, g);
      if !Finished(me.phase) || me.phase.ready || (s.closing && !me.phase.param) then None
      else Some(Put(s, g, Readied(me)))
    case ResumeSend(g) =>
      var me := At(s.gos, g);
      if me.phase.SendDone? && me.phase.ready then Some(Put(s, g, Resumed(me))) else None
    case ResumeRecv(g) =>
      var me := At(s.gos, g);
      if me.phase.RecvDone? && me.phase.ready then Some(Put(s, g, Resumed(me))) else None
  }

  // ---------- the invariant ----------

  function Values<V>(ps: seq<Parcel<V>>): (r: seq<V>)
    ensures |r| == |ps| && forall i | 0 <= i < |ps| :: r[i] == ps[i].v
  {
    if ps == [] then [] else Values(ps[..|ps| - 1]) + [ps[|ps| - 1].v]
  }

  /** The values of one goroutine, in order. */
  function Of<V>(ps: seq<Parcel<V>>, g: GoId): seq<V>
  {
    if ps == [] then []
    else
      var n := |ps| - 1;
      if ps[n].g == g then Of(ps[..n], g) + [ps[n].v] else Of(ps[..n], g)
  }

  /** Everything accepted is accounted for, in order: delivered, then buffered, then the
      rest, dropped by close or parked, whose senders are known as well. */
  ghost predicate Conserved<V>(accepted: seq<Parcel<V>>, delivered: seq<Parcel<V>>, buf: seq<V>, rest: seq<Parcel<V>>)
  {
    var front := |delivered| + |buf|;
    && front <= |accepted|
    && Values(accepted[..front]) == Values(delivered) + buf
    && accepted[front..] == rest
  }

  /** Parked receivers are exactly the members of the queue, each in one place. */
  ghost predicate ReceiversMatch<V>(gos: map<GoId, Go<V>>, q: seq<GoId>)
  {
    && (forall i, j | 0 <= i < j < |q| :: q[i] != q[j])
    && (forall i | 0 <= i < |q| :: At(gos, q[i]).phase.RecvParked?)
    && (forall g | At(gos, g).phase.RecvParked? :: g in q)
  }

  ghost predicate SendersMatch<V>(gos: map<GoId, Go<V>>, q: seq<Parcel<V>>)
  {
    && (forall i, j | 0 <= i < j < |q| :: q[i].g != q[j].g)
    && (forall i | 0 <= i < |q| :: At(gos, q[i].g).phase == SendParked(q[i].v))
    && (forall g | At(gos, g).phase.SendParked? :: exists i :: 0 <= i < |q| && q[i].g == g)
  }

  function PendingSend<V>(p: Phase<V>): seq<V> { if p.SendParked? || p.SendDone? then [p.v] else [] }

  function PendingLoss<V>(p: Phase<V>): seq<V> { if p.SendDone? && !p.param then [p.v] else [] }

  function PendingGot<V>(p: Phase<V>): seq<V> { if p.RecvDone? && p.slot.Some? then [p.slot.value] else [] }

  predicate Asleep<V>(p: Phase<V>)
  {
    p.SendParked? || p.RecvParked? || (p.SendDone? && !p.ready) || (p.RecvDone? && !p.ready)
  }

  /** What the operations of one goroutine reported is exactly what the history says of it. */
  ghost predicate Accounted<V>(me: Go<V>, accepted: seq<V>, delivered: seq<V>, dropped: seq<V>, closed: bool)
  {
    && accepted == me.sent + me.lost + PendingSend(me.phase)
    && dropped == me.lost + PendingLoss(me.phase)
    && delivered == me.got + PendingGot(me.phase)
    && (me.lost != [] ==> closed && PendingSend(me.phase) == [])
    && (me.phase.SendDone? && !me.phase.param ==> closed)
    && (me.phase.RecvDone? ==> (me.phase.param <==> me.phase.slot.Some?) && (!me.phase.param ==> closed))
    && me.parks == me.wakes + (if Asleep(me.phase) then 1 else 0)
  }

  ghost predicate AccountedIn<V>(s: State<V>, g: GoId)
  {
    Accounted(At(s.gos, g), Of(s.accepted, g), Of(s.delivered, g), Of(s.dropped, g), s.ch.closed)
  }

  ghost predicate Inv<V>(s: State<V>)
  {
    && s.ch.Coherent()
    && (s.closing ==> s.ch.closed)
    && (!s.closing ==> s.ch.Valid())
    && (!s.ch.closed ==> s.dropped == [])
    && Conserved(s.accepted, s.delivered, s.ch.buf, s.dropped + s.ch.sendq)
    && SendersMatch(s.gos, s.ch.sendq)
    && ReceiversMatch(s.gos, s.ch.recvq)
    && forall g :: AccountedIn(s, g)
  }

  // ---------- conservation, one movement at a time ----------

  lemma AcceptParked<V>(a: seq<Parcel<V>>, d: seq<Parcel<V>>, b: seq<V>, rest: seq<Parcel<V>>, p: Parcel<V>)
    requires Conserved(a, d, b, rest)
    ensures Conserved(a + [p], d, b, rest + [p])
  {
    var front := |d| + |b|;
    assert (a + [p])[..front] == a[..front];
  }

  /** The oldest parked value joins the tail of the buffer. */
  lemma ParkedToBuffer<V>(a: seq<Parcel<V>>, d: seq<Parcel<V>>, b: seq<V>, rest: seq<Parcel<V>>)
    requires Conserved(a, d, b, rest) && rest != []
    ensures Conserved(a, d, b + [rest[0].v], rest[1..])
  {
    var front := |d| + |b|;
    assert a[..front + 1] == a[..front] + [rest[0]];
    assert (Values(d) + b) + [rest[0].v] == Values(d) + (b + [rest[0].v]);
  }

  /** The oldest buffered value goes to a receiver. */
  lemma BufferToReceiver<V>(a: seq<Parcel<V>>, d: seq<Parcel<V>>, b: seq<V>, rest: seq<Parcel<V>>, p: Parcel<V>)
    requires Conserved(a, d, b, rest) && b != [] && p.v == b[0]
    ensures Conserved(a, d + [p], b[1..], rest)
  {
    assert Values(d + [p]) + b[1..] == Values(d) + b;
  }

  /** A value that goes straight to a receiver. */
  lemma Direct<V>(a: seq<Parcel<V>>, d: seq<Parcel<V>>, p: Parcel<V>, q: Parcel<V>)
    requires Conserved(a, d, [], []) && p.v == q.v
    ensures Conserved(a + [p], d + [q], [], [])
  {
    AcceptParked(a, d, [], [], p);
    ParkedToBuffer(a + [p], d, [], [p]);
    BufferToReceiver(a + [p], d, [p.v], [], q);
  }

  /** A receive that finds a parked sender: the head of buffer and queue together goes out. */
  lemma ThroughBuffer<V>(a: seq<Parcel<V>>, d: seq<Parcel<V>>, b: seq<V>, rest: seq<Parcel<V>>, p: Parcel<V>)
    requires Conserved(a, d, b, rest) && rest != [] && p.v == (b + [rest[0].v])[0]
    ensures Conserved(a, d + [p], (b + [rest[0].v])[1..], rest[1..])
  {
    ParkedToBuffer(a, d, b, rest);
    BufferToReceiver(a, d, b + [rest[0].v], rest[1..], p);
  }

  // ---------- wait queues, one movement at a time ----------

  lemma ReceiverPops<V>(gos: map<GoId, Go<V>>, q: seq<GoId>, go: Go<V>)
    requires ReceiversMatch(gos, q) && q != [] && !go.phase.RecvParked?
    ensures ReceiversMatch(gos[q[0] := go], q[1..])
  {
    var gos' := gos[q[0] := go];
    forall g | At(gos', g).phase.RecvParked? ensures g in q[1..] {
      assert At(gos, g).phase.RecvParked?;
    }
  }

  lemma ReceiverPushes<V>(gos: map<GoId, Go<V>>, q: seq<GoId>, g: GoId, go: Go<V>)
    requires ReceiversMatch(gos, q) && !At(gos, g).phase.RecvParked? && go.phase.RecvParked?
    ensures ReceiversMatch(gos[g := go], q + [g])
  {
    forall k | At(gos[g := go], k).phase.RecvParked? ensures k in q + [g] {
      if k != g { assert At(gos, k).phase.RecvParked?; }
    }
  }

  lemma ReceiversUntouched<V>(gos: map<GoId, Go<V>>, q: seq<GoId>, g: GoId, go: Go<V>)
    requires ReceiversMatch(gos, q) && !At(gos, g).phase.RecvParked? && !go.phase.RecvParked?
    ensures ReceiversMatch(gos[g := go], q)
  {
    forall k | At(gos[g := go], k).phase.RecvParked? ensures k in q {
      assert At(gos, k).phase.RecvParked?;
    }
  }

  lemma SenderPops<V>(gos: map<GoId, Go<V>>, q: seq<Parcel<V>>, go: Go<V>)
    requires SendersMatch(gos, q) && q != [] && !go.phase.SendParked?
    ensures SendersMatch(gos[q[0].g := go], q[1..])
  {
    var gos' := gos[q[0].g := go];
    forall g | At(gos', g).phase.SendParked? ensures exists i :: 0 <= i < |q[1..]| && q[1..][i].g == g {
      assert At(gos, g).phase.SendParked?;
      var i :| 0 <= i < |q| && q[i].g == g;
      assert q[1..][i - 1].g == g;
    }
  }

  lemma SenderPushes<V>(gos: map<GoId, Go<V>>, q: seq<Parcel<V>>, g: GoId, go: Go<V>)
    requires SendersMatch(gos, q) && !At(gos, g).phase.SendParked? && go.phase.SendParked?
    ensures SendersMatch(gos[g := go], q + [Parcel(g, go.phase.v)])
  {
    var q', gos' := q + [Parcel(g, go.phase.v)], gos[g := go];
    forall k | At(gos', k).phase.SendParked? ensures exists i :: 0 <= i < |q'| && q'[i].g == k {
      if k == g {
        assert q'[|q|].g == k;
      } else {
        assert At(gos, k).phase.SendParked?;
        var i :| 0 <= i < |q| && q[i].g == k;
        assert q'[i].g == k;
      }
    }
  }

  lemma SendersUntouched<V>(gos: map<GoId, Go<V>>, q: seq<Parcel<V>>, g: GoId, go: Go<V>)
    requires SendersMatch(gos, q) && !At(gos, g).phase.SendParked? && !go.phase.SendParked?
    ensures SendersMatch(gos[g := go], q)
  {
    var gos' := gos[g := go];
    forall k | At(gos', k).phase.SendParked? ensures exists i :: 0 <= i < |q| && q[i].g == k {
      assert At(gos, k).phase.SendParked?;
    }
  }

  lemma OfAppend<V>(ps: seq<Parcel<V>>, p: Parcel<V>, g: GoId)
    ensures Of(ps + [p], g) == Of(ps, g) + (if p.g == g then [p.v] else [])
  {
    assert (ps + [p])[..|ps|] == ps;
  }

  // ---------- the account of one goroutine, one event at a time ----------

  lemma Unaffected<V>(s: State<V>, s': State<V>, k: GoId)
    requires AccountedIn(s, k) && At(s'.gos, k) == At(s.gos, k) && (s.ch.closed ==> s'.ch.closed)
    requires Of(s'.accepted, k) == Of(s.accepted, k)
    requires Of(s'.delivered, k) == Of(s.delivered, k)
    requires Of(s'.dropped, k) == Of(s.dropped, k)
    ensures AccountedIn(s', k)
  {
  }

  lemma SentNow<V>(me: Go<V>, a: seq<V>, d: seq<V>, o: seq<V>, v: V)
    requires Accounted(me, a, d, o, false) && me.phase.Running?
    ensures Accounted(me.(sent := me.sent + [v]), a + [v], d, o, false)
  {
  }

  lemma ParkedNow<V>(me: Go<V>, a: seq<V>, d: seq<V>, o: seq<V>, v: V)
    requires Accounted(me, a, d, o, false) && me.phase.Running?
    ensures Accounted(me.(phase := SendParked(v), parks := me.parks + 1), a + [v], d, o, false)
  {
  }

  lemma ParkedToReceive<V>(me: Go<V>, a: seq<V>, d: seq<V>, o: seq<V>, c: bool)
    requires Accounted(me, a, d, o, c) && me.phase.Running?
    ensures Accounted(me.(phase := RecvParked, parks := me.parks + 1), a, d, o, c)
  {
  }

  lemma GotNow<V>(me: Go<V>, a: seq<V>, d: seq<V>, o: seq<V>, c: bool, v: V)
    requires Accounted(me, a, d, o, c) && me.phase.Running?
    ensures Accounted(me.(got := me.got + [v]), a, d + [v], o, c)
  {
  }

  lemma GotWhileParked<V>(me: Go<V>, a: seq<V>, d: seq<V>, o: seq<V>, c: bool, v: V)
    requires Accounted(me, a, d, o, c) && me.phase.RecvParked?
    ensures Accounted(me.(phase := RecvDone(true, Some(v), false)), a, d + [v], o, c)
  {
  }

  lemma Released<V>(me: Go<V>, a: seq<V>, d: seq<V>, o: seq<V>, c: bool)
    requires Accounted(me, a, d, o, c) && me.phase.SendParked?
    ensures Accounted(me.(phase := SendDone(true, me.phase.v, false)), a, d, o, c)
    ensures Accounted(me.(phase := SendDone(false, me.phase.v, false)), a, d, o + [me.phase.v], true)
  {
  }

  lemma Woken<V>(me: Go<V>, a: seq<V>, d: seq<V>, o: seq<V>, c: bool)
    requires Accounted(me, a, d, o, c) && Finished(me.phase)
    ensures !me.phase.ready ==> Accounted(Readied(me), a, d, o, c)
    ensures me.phase.ready ==> Accounted(Resumed(me), a, d, o, c)
  {
  }

  // ---------- every step keeps the invariant ----------

  lemma InitInv<V>(cap: nat)
    ensures Inv(Init<V>(cap))
  {
    var s := Init<V>(cap);
    assert forall g :: AccountedIn(s, g);
    assert s.accepted[0..] == [] && Values<V>([]) == [];
  }

  lemma HandOffAccounts<V>(s: State<V>, ch: Chan<V>, g: GoId, h: GoId, v: V, k: GoId)
    requires AccountedIn(s, k) && !s.ch.closed && !ch.closed
    requires At(s.gos, g).phase.Running? && At(s.gos, h).phase.RecvParked?
    ensures AccountedIn(HandOff(s, ch, g, h, v), k)
  {
    var s', me := HandOff(s, ch, g, h, v), At(s.gos, k);
    OfAppend(s.accepted, Parcel(g, v), k);
    OfAppend(s.delivered, Parcel(h, v), k);
    if k == g {
      SentNow(me, Of(s.accepted, k), Of(s.delivered, k), Of(s.dropped, k), v);
    } else if k == h {
      GotWhileParked(me, Of(s.accepted, k), Of(s.delivered, k), Of(s.dropped, k), false, v);
    } else {
      Unaffected(s, s', k);
    }
  }

  lemma HandOffKeeps<V>(s: State<V>, g: GoId, v: V)
    requires Inv(s) && !s.closing && !s.ch.closed && At(s.gos, g).phase.Running? && s.ch.recvq != []
    ensures Inv(HandOff(s, s.ch.(recvq := s.ch.recvq[1..]), g, s.ch.recvq[0], v))
  {
    var ch, h, p := s.ch.(recvq := s.ch.recvq[1..]), s.ch.recvq[0], Parcel(g, v);
    var go := At(s.gos, g).(sent := At(s.gos, g).sent + [v]);
    var t := s.gos[g := go];
    var go' := At(t, h).(phase := RecvDone(true, Some(v), false));
    assert At(s.gos, h).phase.RecvParked?;
    SendersUntouched(s.gos, s.ch.sendq, g, go);
    ReceiversUntouched(s.gos, s.ch.recvq, g, go);
    SendersUntouched(t, s.ch.sendq, h, go');
    ReceiverPops(t, s.ch.recvq, go');
    Direct(s.accepted, s.delivered, p, Parcel(h, v));
    forall k ensures AccountedIn(HandOff(s, ch, g, h, v), k) {
      assert AccountedIn(s, k);
      HandOffAccounts(s, ch, g, h, v, k);
    }
  }

  lemma PutInBufferAccounts<V>(s: State<V>, ch: Chan<V>, g: GoId, v: V, k: GoId)
    requires AccountedIn(s, k) && !s.ch.closed && !ch.closed && At(s.gos, g).phase.Running?
    ensures AccountedIn(PutInBuffer(s, ch, g, v), k)
  {
    OfAppend(s.accepted, Parcel(g, v), k);
    if k == g {
      SentNow(At(s.gos, k), Of(s.accepted, k), Of(s.delivered, k), Of(s.dropped, k), v);
    } else {
      Unaffected(s, PutInBuffer(s, ch, g, v), k);
    }
  }

  lemma PutInBufferKeeps<V>(s: State<V>, g: GoId, v: V)
    requires Inv(s) && !s.closing && !s.ch.closed && At(s.gos, g).phase.Running?
    requires s.ch.recvq == [] && |s.ch.buf| < s.ch.cap
    ensures Inv(PutInBuffer(s, s.ch.(buf := s.ch.buf + [v]), g, v))
  {
    var ch, p := s.ch.(buf := s.ch.buf + [v]), Parcel(g, v);
    var go := At(s.gos, g).(sent := At(s.gos, g).sent + [v]);
    SendersUntouched(s.gos, s.ch.sendq, g, go);
    ReceiversUntouched(s.gos, s.ch.recvq, g, go);
    AcceptParked(s.accepted, s.delivered, s.ch.buf, [], p);
    ParkedToBuffer(s.accepted + [p], s.delivered, s.ch.buf, [p]);
    forall k ensures AccountedIn(PutInBuffer(s, ch, g, v), k) {
      assert AccountedIn(s, k);
      PutInBufferAccounts(s, ch, g, v, k);
    }
  }

  lemma ParkSenderAccounts<V>(s: State<V>, ch: Chan<V>, g: GoId, v: V, k: GoId)
    requires AccountedIn(s, k) && !s.ch.closed && !ch.closed && At(s.gos, g).phase.Running?
    ensures AccountedIn(ParkSender(s, ch, g, v), k)
  {
    OfAppend(s.accepted, Parcel(g, v), k);
    if k == g {
      ParkedNow(At(s.gos, k), Of(s.accepted, k), Of(s.delivered, k), Of(s.dropped, k), v);
    } else {
      Unaffected(s, ParkSender(s, ch, g, v), k);
    }
  }

  lemma ParkSenderKeeps<V>(s: State<V>, g: GoId, v: V)
    requires Inv(s) && !s.closing && !s.ch.closed && At(s.gos, g).phase.Running?
    requires s.ch.recvq == [] && |s.ch.buf| == s.ch.cap
    ensures Inv(ParkSender(s, s.ch.(sendq := s.ch.sendq + [Parcel(g, v)]), g, v))
  {
    hide AccountedIn;
    hide Conserved;
    var p := Parcel(g, v);
    var ch := s.ch.(sendq := s.ch.sendq + [p]);
    var go := At(s.gos, g).(phase := SendParked(v), parks := At(s.gos, g).parks + 1);
    SenderPushes(s.gos, s.ch.sendq, g, go);
    ReceiversUntouched(s.gos, s.ch.recvq, g, go);
    AcceptParked(s.accepted, s.delivered, s.ch.buf, s.dropped + s.ch.sendq, p);
    assert (s.dropped + s.ch.sendq) + [p] == s.dropped + ch.sendq;
    forall k ensures AccountedIn(ParkSender(s, ch, g, v), k) {
      assert AccountedIn(s, k);
      ParkSenderAccounts(s, ch, g, v, k);
    }
  }

  lemma TakeAccounts<V>(s: State<V>, ch: Chan<V>, g: GoId, v: V, k: GoId)
    requires AccountedIn(s, k) && s.ch.closed == ch.closed && At(s.gos, g).phase.Running?
    ensures AccountedIn(TakeFromBuffer(s, ch, g, v), k)
  {
    OfAppend(s.delivered, Parcel(g, v), k);
    if k == g {
      GotNow(At(s.gos, k), Of(s.accepted, k), Of(s.delivered, k), Of(s.dropped, k), ch.closed, v);
    } else {
      Unaffected(s, TakeFromBuffer(s, ch, g, v), k);
    }
  }

  lemma TakeFromBufferKeeps<V>(s: State<V>, g: GoId)
    requires Inv(s) && !s.closing && At(s.gos, g).phase.Running? && s.ch.sendq == [] && s.ch.buf != []
    ensures Inv(TakeFromBuffer(s, s.ch.(buf := s.ch.buf[1..]), g, s.ch.buf[0]))
  {
    var ch, v := s.ch.(buf := s.ch.buf[1..]), s.ch.buf[0];
    var go := At(s.gos, g).(got := At(s.gos, g).got + [v]);
    SendersUntouched(s.gos, s.ch.sendq, g, go);
    ReceiversUntouched(s.gos, s.ch.recvq, g, go);
    BufferToReceiver(s.accepted, s.delivered, s.ch.buf, s.dropped + s.ch.sendq, Parcel(g, v));
    forall k ensures AccountedIn(TakeFromBuffer(s, ch, g, v), k) {
      assert AccountedIn(s, k);
      TakeAccounts(s, ch, g, v, k);
    }
  }

  lemma TakeAndReleaseAccounts<V>(s: State<V>, ch: Chan<V>, g: GoId, v: V, h: GoId, w: V, k: GoId)
    requires AccountedIn(s, k) && s.ch.closed == ch.closed
    requires At(s.gos, g).phase.Running? && At(s.gos, h).phase == SendParked(w)
    ensures AccountedIn(TakeAndRelease(s, ch, g, v, h, w), k)
  {
    TakeAccounts(s, ch, g, v, k);
    var t := TakeFromBuffer(s, ch, g, v);
    if k == h {
      Released(At(t.gos, k), Of(t.accepted, k), Of(t.delivered, k), Of(t.dropped, k), ch.closed);
    } else {
      Unaffected(t, TakeAndRelease(s, ch, g, v, h, w), k);
    }
  }

  lemma TakeAndReleaseQueues<V>(s: State<V>, ch: Chan<V>, g: GoId, v: V)
    requires SendersMatch(s.gos, s.ch.sendq) && ReceiversMatch(s.gos, s.ch.recvq)
    requires At(s.gos, g).phase.Running? && s.ch.sendq != []
    ensures var s' := TakeAndRelease(s, ch, g, v, s.ch.sendq[0].g, s.ch.sendq[0].v);
            SendersMatch(s'.gos, s.ch.sendq[1..]) && ReceiversMatch(s'.gos, s.ch.recvq)
  {
    var w := s.ch.sendq[0];
    var go := At(s.gos, g).(got := At(s.gos, g).got + [v]);
    var t := s.gos[g := go];
    var go' := At(t, w.g).(phase := SendDone(true, w.v, false));
    assert At(s.gos, w.g).phase == SendParked(w.v);
    SendersUntouched(s.gos, s.ch.sendq, g, go);
    ReceiversUntouched(s.gos, s.ch.recvq, g, go);
    ReceiversUntouched(t, s.ch.recvq, w.g, go');
    SenderPops(t, s.ch.sendq, go');
  }

  lemma TakeAndReleaseKeeps<V>(s: State<V>, g: GoId)
    requires Inv(s) && !s.closing && At(s.gos, g).phase.Running? && s.ch.sendq != []
    ensures var all := s.ch.buf + [s.ch.sendq[0].v];
            Inv(TakeAndRelease(s, s.ch.(sendq := s.ch.sendq[1..], buf := all[1..]), g, all[0],
                               s.ch.sendq[0].g, s.ch.sendq[0].v))
  {
    var w := s.ch.sendq[0];
    var all := s.ch.buf + [w.v];
    var ch, v := s.ch.(sendq := s.ch.sendq[1..], buf := all[1..]), all[0];
    TakeAndReleaseQueues(s, ch, g, v);
    assert s.dropped + s.ch.sendq == s.ch.sendq && s.dropped + ch.sendq == s.ch.sendq[1..];
    ThroughBuffer(s.accepted, s.delivered, s.ch.buf, s.ch.sendq, Parcel(g, v));
    forall k ensures AccountedIn(TakeAndRelease(s, ch, g, v, w.g, w.v), k) {
      assert AccountedIn(s, k);
      TakeAndReleaseAccounts(s, ch, g, v, w.g, w.v, k);
    }
  }

  lemma ParkReceiverKeeps<V>(s: State<V>, g: GoId)
    requires Inv(s) && !s.closing && !s.ch.closed && At(s.gos, g).phase.Running? && s.ch.sendq == [] && s.ch.buf == []
    ensures Inv(ParkReceiver(s, s.ch.(recvq := s.ch.recvq + [g]), g))
  {
    var ch := s.ch.(recvq := s.ch.recvq + [g]);
    var go := At(s.gos, g).(phase := RecvParked, parks := At(s.gos, g).parks + 1);
    ReceiverPushes(s.gos, s.ch.recvq, g, go);
    SendersUntouched(s.gos, s.ch.sendq, g, go);
    forall k ensures AccountedIn(ParkReceiver(s, ch, g), k) {
      assert AccountedIn(s, k);
      if k != g { Unaffected(s, ParkReceiver(s, ch, g), k); }
      else { ParkedToReceive(At(s.gos, k), Of(s.accepted, k), Of(s.delivered, k), Of(s.dropped, k), false); }
    }
  }

  /** The steps of close. */
  lemma CloseKeeps<V>(s: State<V>, l: Label<V>)
    requires Inv(s) && (l.CloseBegin? || l.CloseEnd?) && Step(s, l).Some?
    ensures Inv(Step(s, l).value)
  {
    forall k ensures AccountedIn(Step(s, l).value, k) {
      assert AccountedIn(s, k);
      Unaffected(s, Step(s, l).value, k);
    }
  }

  lemma DrainReceiverKeeps<V>(s: State<V>)
    requires Inv(s) && Step(s, DrainReceiver).Some?
    ensures Inv(Step(s, DrainReceiver).value)
  {
    var s', g := Step(s, DrainReceiver).value, s.ch.recvq[0];
    var go := At(s.gos, g).(phase := RecvDone(false, None, false));
    assert At(s.gos, g).phase.RecvParked?;
    ReceiverPops(s.gos, s.ch.recvq, go);
    SendersUntouched(s.gos, s.ch.sendq, g, go);
    forall k ensures AccountedIn(s', k) {
      assert AccountedIn(s, k);
      if k != g { Unaffected(s, s', k); }
    }
  }

  lemma DrainSenderAccounts<V>(s: State<V>, k: GoId)
    requires AccountedIn(s, k) && Step(s, DrainSender).Some? && s.ch.closed
    requires At(s.gos, s.ch.sendq[0].g).phase == SendParked(s.ch.sendq[0].v)
    ensures AccountedIn(Step(s, DrainSender).value, k)
  {
    var w := s.ch.sendq[0];
    OfAppend(s.dropped, w, k);
    if k == w.g {
      Released(At(s.gos, k), Of(s.accepted, k), Of(s.delivered, k), Of(s.dropped, k), true);
    } else {
      Unaffected(s, Step(s, DrainSender).value, k);
    }
  }

  lemma DrainSenderKeeps<V>(s: State<V>)
    requires Inv(s) && Step(s, DrainSender).Some?
    ensures Inv(Step(s, DrainSender).value)
  {
    var s', w := Step(s, DrainSender).value, s.ch.sendq[0];
    var go := At(s.gos, w.g).(phase := SendDone(false, w.v, false));
    assert At(s.gos, w.g).phase == SendParked(w.v);
    SenderPops(s.gos, s.ch.sendq, go);
    ReceiversUntouched(s.gos, s.ch.recvq, w.g, go);
    assert s'.dropped + s'.ch.sendq == s.dropped + s.ch.sendq;
    forall k ensures AccountedIn(s', k) {
      assert AccountedIn(s, k);
      DrainSenderAccounts(s, k);
    }
  }

  lemma PutAccounts<V>(s: State<V>, g: GoId, go: Go<V>, k: GoId)
    requires AccountedIn(s, k)
    requires Accounted(go, Of(s.accepted, g), Of(s.delivered, g), Of(s.dropped, g), s.ch.closed)
    ensures AccountedIn(Put(s, g, go), k)
  {
    if k != g { Unaffected(s, Put(s, g, go), k); }
  }

  lemma PutKeeps<V>(s: State<V>, g: GoId, go: Go<V>)
    requires Inv(s) && Finished(At(s.gos, g).phase) && (Finished(go.phase) || go.phase.Running?)
    requires Accounted(go, Of(s.accepted, g), Of(s.delivered, g), Of(s.dropped, g), s.ch.closed)
    ensures Inv(Put(s, g, go))
  {
    SendersUntouched(s.gos, s.ch.sendq, g, go);
    ReceiversUntouched(s.gos, s.ch.recvq, g, go);
    forall k ensures AccountedIn(Put(s, g, go), k) {
      assert AccountedIn(s, k);
      PutAccounts(s, g, go, k);
    }
  }

  lemma WakeKeeps<V>(s: State<V>, l: Label<V>)
    requires Inv(s) && (l.MakeReady? || l.ResumeSend? || l.ResumeRecv?) && Step(s, l).Some?
    ensures Inv(Step(s, l).value)
  {
    var me := At(s.gos, l.g);
    assert AccountedIn(s, l.g);
    Woken(me, Of(s.accepted, l.g), Of(s.delivered, l.g), Of(s.dropped, l.g), s.ch.closed);
    PutKeeps(s, l.g, if l.MakeReady? then Readied(me) else Resumed(me));
  }

  lemma SendKeeps<V>(s: State<V>, g: GoId, v: V, block: bool)
    requires Inv(s) && !s.closing && At(s.gos, g).phase.Running?
    ensures Inv(StepSend(s, g, v, block))
  {
    match Send(s.ch, g, v, block).1
    case HandedTo(h) => HandOffKeeps(s, g, v);
    case Buffered => PutInBufferKeeps(s, g, v);
    case SendParks => ParkSenderKeeps(s, g, v);
    case _ =>
  }

  lemma RecvKeeps<V>(s: State<V>, g: GoId, block: bool)
    requires Inv(s) && !s.closing && At(s.gos, g).phase.Running?
    ensures Inv(StepRecv(s, g, block))
  {
    match Recv(s.ch, g, block).1
    case FromBuffer(v) => TakeFromBufferKeeps(s, g);
    case FromSender(v, h) => RecvTakesHead(s.ch, g, block); TakeAndReleaseKeeps(s, g);
    case RecvParks => ParkReceiverKeeps(s, g);
    case _ =>
  }

  lemma StepKeeps<V>(s: State<V>, l: Label<V>)
    requires Inv(s) && Step(s, l).Some?
    ensures Inv(Step(s, l).value)
  {
    match l
    case DoSend(g, v, block) => SendKeeps(s, g, v, block);
    case DoRecv(g, block) => RecvKeeps(s, g, block);
    case CloseBegin => CloseKeeps(s, l);
    case DrainReceiver => DrainReceiverKeeps(s);
    case DrainSender => DrainSenderKeeps(s);
    case CloseEnd => CloseKeeps(s, l);
    case MakeReady(_) => WakeKeeps(s, l);
    case ResumeSend(_) => WakeKeeps(s, l);
    case ResumeRecv(_) => WakeKeeps(s, l);
  }

  // ---------- whole runs ----------

  ghost predicate Next<V(!new)>(s: State<V>, s': State<V>) { exists l :: Step(s, l) == Some(s') }

  /** Any interleaving of any operations, from a new channel on. */
  ghost predicate Run<V(!new)>(cap: nat, ss: seq<State<V>>)
  {
    ss != [] && ss[0] == Init(cap) && forall i | 0 <= i < |ss| - 1 :: Next(ss[i], ss[i + 1])
  }

  lemma {:induction false} RunInv<V(!new)>(cap: nat, ss: seq<State<V>>, i: nat)
    requires Run(cap, ss) && i < |ss|
    ensures Inv(ss[i]) && ss[i].ch.cap == cap
    decreases i
  {
    if i == 0 {
      InitInv<V>(cap);
    } else {
      RunInv(cap, ss, i - 1);
      assert Next(ss[i - 1], ss[i]);
      var l :| Step(ss[i - 1], l) == Some(ss[i]);
      StepKeeps(ss[i - 1], l);
      CapFixed(ss[i - 1], l);
    }
  }

  lemma CapFixed<V>(s: State<V>, l: Label<V>)
    requires Step(s, l).Some?
    ensures Step(s, l).value.ch.cap == s.ch.cap
  {
  }

  /** FIFO without loss: in every run, the values delivered, then those in the buffer, then
      those dropped by close, then those of parked senders are the values accepted, in the
      order the lock admitted them; nothing is dropped while the channel is open. */
  lemma FifoLossless<V(!new)>(cap: nat, ss: seq<State<V>>, i: nat)
    requires Run(cap, ss) && i < |ss|
    ensures var s := ss[i];
            && Values(s.accepted) == Values(s.delivered) + s.ch.buf + Values(s.dropped) + Values(s.ch.sendq)
            && (!s.ch.closed ==> s.dropped == [])
  {
    hide Inv;
    hide Conserved;
    RunInv(cap, ss, i);
    InvConserves(ss[i]);
    var s := ss[i];
    ConservedValues(s.accepted, s.delivered, s.ch.buf, s.dropped + s.ch.sendq);
    ValuesJoin(s.dropped, s.ch.sendq);
  }

  lemma InvConserves<V>(s: State<V>)
    requires Inv(s)
    ensures Conserved(s.accepted, s.delivered, s.ch.buf, s.dropped + s.ch.sendq) && (!s.ch.closed ==> s.dropped == [])
  {
  }

  lemma ConservedValues<V>(accepted: seq<Parcel<V>>, delivered: seq<Parcel<V>>, buf: seq<V>, rest: seq<Parcel<V>>)
    requires Conserved(accepted, delivered, buf, rest)
    ensures Values(accepted) == Values(delivered) + buf + Values(rest)
  {
    var front := |delivered| + |buf|;
    assert accepted == accepted[..front] + accepted[front..];
    ValuesJoin(accepted[..front], accepted[front..]);
  }

  lemma ValuesJoin<V>(a: seq<Parcel<V>>, b: seq<Parcel<V>>)
    ensures Values(a + b) == Values(a) + Values(b)
  {
  }

  /** The documented invariants, between any two critical sections: no receiver is parked
      while data or a sender is available, no sender while there is room, and a closed
      channel has nobody waiting. */
  lemma WaitersMakeSense<V(!new)>(cap: nat, ss: seq<State<V>>, i: nat)
    requires Run(cap, ss) && i < |ss| && !ss[i].closing
    ensures var c := ss[i].ch;
            && |c.buf| <= cap
            && (c.recvq != [] ==> c.buf == [] && c.sendq == [] && !c.closed)
            && (c.sendq != [] ==> |c.buf| == cap && !c.closed)
  {
    RunInv(cap, ss, i);
  }

  /** What operations reported to a goroutine is the whole truth: its receives returned
      exactly the values delivered to it, in order; its sends that returned, then those that
      panicked after parking, are exactly those accepted from it, and the latter exactly the
      ones close dropped. */
  lemma ReportsAreTrue<V(!new)>(cap: nat, ss: seq<State<V>>, i: nat, g: GoId)
    requires Run(cap, ss) && i < |ss| && At(ss[i].gos, g).phase.Running?
    ensures var me := At(ss[i].gos, g);
            && Of(ss[i].delivered, g) == me.got
            && Of(ss[i].accepted, g) == me.sent + me.lost
            && Of(ss[i].dropped, g) == me.lost
  {
    RunInv(cap, ss, i);
    assert AccountedIn(ss[i], g);
  }

  /** Every park is followed by exactly one goready: a goroutine has been made ready as often
      as it parked, once less while it sleeps; and param is nil only if the channel is
      closed, so the "spurious wakeup" throw is unreachable. */
  lemma WokenOnce<V(!new)>(cap: nat, ss: seq<State<V>>, i: nat, g: GoId)
    requires Run(cap, ss) && i < |ss|
    ensures var me := At(ss[i].gos, g);
            && me.parks == me.wakes + (if Asleep(me.phase) then 1 else 0)
            && (Finished(me.phase) && !me.phase.param ==> ss[i].ch.closed)
  {
    RunInv(cap, ss, i);
    assert AccountedIn(ss[i], g);
  }

  // ---------- what a step does, and that waiting ends ----------

  /** What an operation that moves a value does to history and goroutines.  The sender g of a
      value accepted has sent it at once, or parks with it; who is served is not ready yet. */
  lemma SendHappens<V>(s: State<V>, g: GoId, v: V, block: bool)
    requires Inv(s) && Step(s, DoSend(g, v, block)).Some?
    ensures var t, (c, r) := Step(s, DoSend(g, v, block)).value, Send(s.ch, g, v, block);
            && t.ch == c && t.closing == s.closing && t.dropped == s.dropped
            && (r.SendPanics? || r.SendWouldBlock? ==> t == s)
            && (r.HandedTo? || r.Buffered? || r.SendParks? ==> t.accepted == s.accepted + [Parcel(g, v)])
            && t.delivered == s.delivered + (if r.HandedTo? then [Parcel(r.g, v)] else [])
            && (r.HandedTo? || r.Buffered? ==> At(t.gos, g) == At(s.gos, g).(sent := At(s.gos, g).sent + [v]))
            && (r.HandedTo? ==> At(t.gos, r.g).phase == RecvDone(true, Some(v), false))
            && (r.SendParks? ==> At(t.gos, g).phase == SendParked(v) && At(t.gos, g).sent == At(s.gos, g).sent)
  {
    hide AccountedIn;
    hide Conserved;
    if s.ch.recvq != [] { assert At(s.gos, s.ch.recvq[0]).phase.RecvParked?; }
  }

  lemma RecvHappens<V>(s: State<V>, g: GoId, block: bool)
    requires Inv(s) && Step(s, DoRecv(g, block)).Some?
    ensures var t, (c, r) := Step(s, DoRecv(g, block)).value, Recv(s.ch, g, block);
            && t.ch == c && t.closing == s.closing && t.dropped == s.dropped && t.accepted == s.accepted
            && (r.Closed? || r.RecvWouldBlock? ==> t == s)
            && t.delivered == s.delivered + (if r.FromBuffer? || r.FromSender? then [Parcel(g, r.v)] else [])
            && (r.FromBuffer? || r.FromSender? ==> At(t.gos, g) == At(s.gos, g).(got := At(s.gos, g).got + [r.v]))
            && (r.FromSender? ==> At(t.gos, r.g).phase == SendDone(true, s.ch.sendq[0].v, false))
            && (r.RecvParks? ==> At(t.gos, g).phase == RecvParked && At(t.gos, g).got == At(s.gos, g).got)
  {
    hide AccountedIn;
    hide Conserved;
    if s.ch.sendq != [] { assert At(s.gos, s.ch.sendq[0].g).phase == SendParked(s.ch.sendq[0].v); }
  }

  /** No step is left but new calls. */
  ghost predicate AtRest<V(!new)>(s: State<V>)
  {
    forall l: Label<V> | !l.DoSend? && !l.DoRecv? && !l.CloseBegin? :: Step(s, l) == None
  }

  /** Then no close is under way, and whoever does not run is parked on an open channel:
      a receiver with nothing to take, or a sender with no room.  All others got through. */
  lemma NobodyForgotten<V(!new)>(cap: nat, ss: seq<State<V>>, i: nat, g: GoId)
    requires Run(cap, ss) && i < |ss| && AtRest(ss[i])
    ensures var s, p := ss[i], At(ss[i].gos, g).phase;
            && !s.closing
            && (p.Running? || (p.RecvParked? && !s.ch.closed && g in s.ch.recvq && NotReceivable(s.ch))
                || (p.SendParked? && !s.ch.closed && Parcel(g, p.v) in s.ch.sendq && NotSendable(s.ch)))
  {
    RunInv(cap, ss, i);
    var s, me := ss[i], At(ss[i].gos, g);
    assert Step(s, DrainReceiver) == None && Step(s, DrainSender) == None && Step(s, CloseEnd) == None;
    assert Step(s, MakeReady(g)) == None && Step(s, ResumeSend(g)) == None && Step(s, ResumeRecv(g)) == None;
    if me.phase.SendParked? {
      var k :| 0 <= k < |s.ch.sendq| && s.ch.sendq[k].g == g;
      assert s.ch.sendq[k] == Parcel(g, me.phase.v);
    }
  }

  // ---------- after close ----------

  /** What can no longer change once the channel is closed. */
  ghost predicate After<V>(s: State<V>, t: State<V>)
  {
    && t.ch.closed && t.ch.cap == s.ch.cap
    && t.accepted == s.accepted
    && t.dropped + t.ch.sendq == s.dropped + s.ch.sendq
    && Values(t.delivered) + t.ch.buf == Values(s.delivered) + s.ch.buf
    && |t.ch.buf| <= |s.ch.buf|
  }

  lemma ClosedRecv<V>(s: State<V>, g: GoId, block: bool)
    requires s.ch.Valid() && s.ch.closed
    ensures After(s, StepRecv(s, g, block))
  {
    RecvResults(s.ch, g, block);
    RecvEffects(s.ch, g, block);
    hide Recv;
    hide Values;
    var (c, r) := Recv(s.ch, g, block);
    if r.FromBuffer? {
      ValuesAppend(s.delivered, Parcel(g, r.v));
      assert (Values(s.delivered) + [r.v]) + c.buf == Values(s.delivered) + ([r.v] + c.buf);
    }
  }

  lemma ClosedDrain<V>(s: State<V>, l: Label<V>)
    requires s.ch.closed && (l.DrainReceiver? || l.DrainSender?) && Step(s, l).Some?
    ensures After(s, Step(s, l).value)
  {
    if l.DrainSender? {
      var w := s.ch.sendq[0];
      assert (s.dropped + [w]) + s.ch.sendq[1..] == s.dropped + s.ch.sendq;
    }
  }

  lemma ClosedStep<V>(s: State<V>, l: Label<V>)
    requires Inv(s) && s.ch.closed && Step(s, l).Some?
    ensures After(s, Step(s, l).value)
  {
    match l
    case DoRecv(g, block) => ClosedRecv(s, g, block);
    case DrainReceiver => ClosedDrain(s, l);
    case DrainSender => ClosedDrain(s, l);
    case _ =>
  }

  lemma AfterTransitive<V>(s: State<V>, t: State<V>, u: State<V>)
    requires After(s, t) && After(t, u)
    ensures After(s, u)
  {
  }

  lemma ValuesAppend<V>(ps: seq<Parcel<V>>, p: Parcel<V>)
    ensures Values(ps + [p]) == Values(ps) + [p.v]
  {
  }

  /** A closed channel stays closed, and closing it moves no value. */
  ghost predicate Tame<V>(s: State<V>, t: State<V>)
  {
    && (s.ch.closed ==> After(s, t))
    && (!s.ch.closed && t.ch.closed ==> t == s.(ch := s.ch.(closed := true), closing := true))
  }

  lemma RunStep<V(!new)>(cap: nat, ss: seq<State<V>>, j: nat)
    requires Run(cap, ss) && j + 1 < |ss|
    ensures Tame(ss[j], ss[j + 1])
  {
    RunInv(cap, ss, j);
    assert Next(ss[j], ss[j + 1]);
    var l :| Step(ss[j], l) == Some(ss[j + 1]);
    if ss[j].ch.closed { ClosedStep(ss[j], l); }
    else if ss[j + 1].ch.closed { OnlyCloseCloses(ss[j], l); }
  }

  lemma {:induction false} AfterChain<V>(ss: seq<State<V>>, i: nat, j: nat)
    requires i <= j < |ss| && ss[i].ch.closed
    requires forall k | i <= k < j :: Tame(ss[k], ss[k + 1])
    ensures After(ss[i], ss[j])
    decreases j
  {
    if i < j {
      AfterChain(ss, i, j - 1);
      AfterTransitive(ss[i], ss[j - 1], ss[j]);
    }
  }

  lemma ClosedForGood<V(!new)>(cap: nat, ss: seq<State<V>>, i: nat, j: nat)
    requires Run(cap, ss) && i <= j < |ss| && ss[i].ch.closed
    ensures After(ss[i], ss[j])
  {
    forall k | i <= k < j ensures Tame(ss[k], ss[k + 1]) { RunStep(cap, ss, k); }
    AfterChain(ss, i, j);
  }

  /** Close drops exactly the values of the senders parked at that moment.  The buffered ones
      stay, and later receives take them in order: what is delivered plus what is buffered
      never changes again. */
  lemma CloseDropsTheParked<V(!new)>(cap: nat, ss: seq<State<V>>, i: nat, j: nat)
    requires Run(cap, ss) && i + 1 <= j < |ss| && !ss[j].closing
    requires !ss[i].ch.closed && ss[i + 1].ch.closed
    ensures ss[j].dropped == ss[i].ch.sendq
    ensures Values(ss[j].delivered) + ss[j].ch.buf == Values(ss[i].delivered) + ss[i].ch.buf
  {
    RunInv(cap, ss, i);
    RunInv(cap, ss, j);
    RunStep(cap, ss, i);
    ClosedForGood(cap, ss, i + 1, j);
    assert [] + ss[i].ch.sendq == ss[i].ch.sendq;
    assert ss[j].dropped + [] == ss[j].dropped;
  }

  /** The two loops of close, when nothing comes between their rounds. */
  function Drained<V>(s: State<V>): State<V>
    requires s.closing
    decreases |s.ch.recvq| + |s.ch.sendq|
  {
    if s.ch.recvq != [] then Drained(Step(s, DrainReceiver).value)
    else if s.ch.sendq != [] then Drained(Step(s, DrainSender).value)
    else s
  }

  lemma {:induction false} DrainedEmpty<V>(s: State<V>)
    requires s.closing
    ensures var t := Drained(s);
            && t.ch == s.ch.(recvq := [], sendq := []) && t.closing && t.dropped == s.dropped + s.ch.sendq
            && t.accepted == s.accepted && t.delivered == s.delivered
    decreases |s.ch.recvq| + |s.ch.sendq|
  {
    if s.ch.recvq != [] {
      DrainedEmpty(Step(s, DrainReceiver).value);
    } else if s.ch.sendq != [] {
      DrainedEmpty(Step(s, DrainSender).value);
      assert (s.dropped + [s.ch.sendq[0]]) + s.ch.sendq[1..] == s.dropped + s.ch.sendq;
    } else {
      assert s.dropped + [] == s.dropped;
    }
  }

  /** Taken together, the steps of close are the one step it is for the object: a second close
      changes nothing, and a first one empties the queues and keeps the buffer. */
  lemma CloseAtOnce<V>(s: State<V>)
    requires Inv(s) && !s.closing
    ensures var begun := Step(s, CloseBegin);
            && begun.Some?
            && (s.ch.closed ==> begun.value == s && Close(s.ch) == s.ch)
            && (!s.ch.closed ==>
                  && begun.value.closing
                  && var t := Step(Drained(begun.value), CloseEnd);
                     && t.Some? && t.value.ch == Close(s.ch) && !t.value.closing
                     && t.value.dropped == s.ch.sendq && t.value.accepted == s.accepted
                     && t.value.delivered == s.delivered)
  {
    if !s.ch.closed { DrainedEmpty(Step(s, CloseBegin).value); }
  }

  lemma OnlyCloseCloses<V>(s: State<V>, l: Label<V>)
    requires Inv(s) && Step(s, l).Some? && !s.ch.closed && Step(s, l).value.ch.closed
    ensures l.CloseBegin?
  {
    hide StepSend;
    hide StepRecv;
    hide Send;
    hide Recv;
    match l
    case DoSend(g, v, block) => SendHappens(s, g, v, block); SendEffects(s.ch, g, v, block);
    case DoRecv(g, block) => RecvHappens(s, g, block); RecvEffects(s.ch, g, block);
    case _ =>
  }

  // ---------- the unlocked fast paths of non-blocking operations ----------

  /** The word the receive fast path reads first: sendq.first of an unbuffered channel,
      qcount of a buffered one. */
  predicate LooksEmpty<V>(c: Chan<V>) { if c.cap == 0 then c.sendq == [] else |c.buf| == 0 }

  /** The word the send fast path reads second. */
  predicate LooksFull<V>(c: Chan<V>) { if c.cap == 0 then c.recvq == [] else |c.buf| == c.cap }

  /** A receive that reads "empty" at moment i and "open" at a later moment j was right to
      report that it would block: at i the channel was open and nothing was receivable. */
  lemma FastReceiveIsRight<V(!new)>(cap: nat, ss: seq<State<V>>, i: nat, j: nat)
    requires Run(cap, ss) && i <= j < |ss|
    requires LooksEmpty(ss[i].ch) && !ss[j].ch.closed
    ensures !ss[i].ch.closed && NotReceivable(ss[i].ch)
  {
    RunInv(cap, ss, i);
    if ss[i].ch.closed { ClosedForGood(cap, ss, i, j); }
  }

  /** The moment a send fast path that read "open" at i and "full" at j speaks of. */
  ghost predicate HadBlockingMoment<V(!new)>(ss: seq<State<V>>, i: nat, j: nat)
    requires i <= j < |ss|
  {
    exists k :: i <= k <= j && !ss[k].ch.closed && NotSendable(ss[k].ch)
  }

  lemma {:induction false} FullBeforeClose<V(!new)>(ss: seq<State<V>>, i: nat, j: nat)
    requires i <= j < |ss| && !ss[i].ch.closed && |ss[j].ch.buf| == ss[j].ch.cap > 0
    requires forall k | i <= k < j :: Tame(ss[k], ss[k + 1])
    requires forall k | i <= k <= j :: ss[k].ch.Coherent() && ss[k].ch.cap == ss[j].ch.cap
    ensures HadBlockingMoment(ss, i, j)
    decreases j
  {
    if !ss[j].ch.closed {
      assert NotSendable(ss[j].ch);
    } else {
      assert Tame(ss[j - 1], ss[j]);
      FullBeforeClose(ss, i, j - 1);
      var k :| i <= k <= j - 1 && !ss[k].ch.closed && NotSendable(ss[k].ch);
    }
  }

  /** On a buffered channel the send fast path is right as well, even when a close falls
      between its two reads, because qcount never rises once the channel is closed. */
  lemma FastSendIsRightWhenBuffered<V(!new)>(cap: nat, ss: seq<State<V>>, i: nat, j: nat)
    requires Run(cap, ss) && i <= j < |ss| && cap > 0
    requires !ss[i].ch.closed && LooksFull(ss[j].ch)
    ensures HadBlockingMoment(ss, i, j)
  {
    forall k | i <= k < j ensures Tame(ss[k], ss[k + 1]) { RunStep(cap, ss, k); }
    forall k | i <= k <= j ensures ss[k].ch.Coherent() && ss[k].ch.cap == cap { RunInv(cap, ss, k); }
    FullBeforeClose(ss, i, j);
  }

  /** Read in the other order the two observations are right on every channel. */
  lemma FastSendReordered<V(!new)>(cap: nat, ss: seq<State<V>>, i: nat, j: nat)
    requires Run(cap, ss) && i <= j < |ss|
    requires LooksFull(ss[i].ch) && !ss[j].ch.closed
    ensures !ss[i].ch.closed && NotSendable(ss[i].ch)
  {
    RunInv(cap, ss, i);
    if ss[i].ch.closed { ClosedForGood(cap, ss, i, j); }
  }

  /** In source order an unbuffered channel can fool the send fast path: goroutine 1 is
      parked in a receive from before the first read until close, inside its critical
      section, takes it off recvq; only then comes the second read. */
  function FoolingRun(): seq<State<int>>
  {
    var s0 := Init<int>(0);
    var s1 := StepRecv(s0, 1, true);
    var s2 := s1.(ch := s1.ch.(closed := true), closing := true);
    var s3 := s2.(ch := s2.ch.(recvq := []), gos := s2.gos[1 := At(s2.gos, 1).(phase := RecvDone(false, None, false))]);
    [s0, s1, s2, s3]
  }

  lemma UnbufferedFastSendFooled()
    ensures var ss := FoolingRun();
            && Run(0, ss) && |ss| == 4 && !ss[1].ch.closed && LooksFull(ss[3].ch)
            && !HadBlockingMoment(ss, 1, 3)
  {
    var ss := FoolingRun();
    assert Step(ss[0], DoRecv(1, true)) == Some(ss[1]);
    assert Step(ss[1], CloseBegin) == Some(ss[2]);
    assert ss[2].ch.recvq == [1] && ss[2].ch.recvq[1..] == [];
    assert Step(ss[2], DrainReceiver) == Some(ss[3]);
  }

  /** So the send fast path is right in all runs exactly on buffered channels. */
  lemma FastSendIsRightIffBuffered(cap: nat)
    ensures (forall ss: seq<State<int>>, i: nat, j: nat
               | Run(cap, ss) && i <= j < |ss| && !ss[i].ch.closed && LooksFull(ss[j].ch)
               :: HadBlockingMoment(ss, i, j))
            <==> cap > 0
  {
    if cap > 0 {
      forall ss: seq<State<int>>, i: nat, j: nat
        | Run(cap, ss) && i <= j < |ss| && !ss[i].ch.closed && LooksFull(ss[j].ch)
        ensures HadBlockingMoment(ss, i, j)
      {
        FastSendIsRightWhenBuffered(cap, ss, i, j);
      }
    } else {
      UnbufferedFastSendFooled();
    }
  }
}

/** io/pipe.go: the synchronous in-memory pipe.  Any number of goroutines read, write and
    close it at once; one step of one goroutine, or one meeting of two on an unbuffered
    channel, is one event. */
module Pipe {
  import opened Basics
  import opened Io

  /** onceError: the first error stored stays. */
  function Stored(was: Option<Error>, err: Error): Option<Error> { if was.Some? then was else Some(err) }

  class OnceError {
    var err: Option<Error>

    constructor ()
      ensures err == None
    {
      err := None;
    }

    method Store(e: Error)
      modifies this
      ensures err == Stored(old(err), e)
    {
      if err != None { return; }
      err := Some(e);
    }
  }

  datatype Op = Read(room: nat) | Write(b: seq<byte>) | CloseRead(err: Option<Error>) | CloseWrite(err: Option<Error>)

  /** Where a call stands, with its local variables. */
  datatype PC =
    // Read
    | RStart                                          // before the first select
    | RWait                                           // at the second select
    | RCopy(bw: seq<byte>)                            // has received bw
    | RAck(got: seq<byte>)                            // has copied got, about to send its length
    | RLoad                                           // about to load rerr
    | RLoad2(seen: Option<Error>)                     // about to load werr
    | RDone(n: nat, got: seq<byte>, err: Option<Error>)
    // Write
    | WStart
    | WLock                                           // waiting for wrMu
    | WLoop(rest: seq<byte>, n: nat, once: bool)      // before the loop test
    | WAck(rest: seq<byte>, n: nat)                   // has sent rest, waiting for the count
    | WLoad(n: nat)                                   // about to load werr
    | WLoad2(n: nat, seen: Option<Error>)             // about to load rerr
    | WDone(n: nat, err: Option<Error>)
    | WPanic                                          // slice bounds out of range
    // CloseRead, CloseWrite
    | CStore | CClose | CDone

  /** A call, and what was shared when it began. */
  datatype Call = Call(op: Op, start: Shared, pc: PC)

  datatype Shared = Shared(done: bool, lock: Option<nat>, rerr: Option<Error>, werr: Option<Error>)

  /** `order` lists the writes as they took wrMu, `takes` the reads as they received from
      wrCh and `givers` the writes they received from, `holder` the read that has received and not yet acknowledged. */
  datatype State = State(calls: seq<Call>, m: Shared, order: seq<nat>, takes: seq<nat>, givers: seq<nat>,
                         holder: Option<nat>)

  datatype Event =
    | Start(op: Op)
    | Local(i: nat)           // a step of call i on its own
    | Offer(w: nat, r: nat)   // write w sends on wrCh, read r receives
    | Ack(r: nat, w: nat)     // read r sends on rdCh, write w receives

  const INIT := State([], Shared(false, None, None, None), [], [], [], None)

  function First(op: Op): PC
  {
    match op
    case Read(_) => RStart
    case Write(_) => WStart
    case _ => CStore
  }

  /** The write loop goes round at least once, and until nothing is left. */
  predicate Goes(pc: PC) { pc.WLoop? && (pc.once || |pc.rest| > 0) }

  predicate LocalEnabled(c: Call, m: Shared)
  {
    match c.pc
    case RStart => true
    case RWait => m.done
    case RCopy(_) => true
    case RLoad => true
    case RLoad2(_) => true
    case WStart => true
    case WLock => m.lock == None
    case WLoop(_, _, _) => !Goes(c.pc) || m.done
    case WLoad(_) => true
    case WLoad2(_, _) => true
    case CStore => c.op.CloseRead? || c.op.CloseWrite?
    case CClose => true
    case _ => false
  }

  predicate Enabled(s: State, e: Event)
  {
    match e
    case Start(_) => true
    case Local(i) => i < |s.calls| && LocalEnabled(s.calls[i], s.m)
    case Offer(w, r) => w < |s.calls| && r < |s.calls| && Goes(s.calls[w].pc) && s.calls[r].pc == RWait
    case Ack(r, w) => w < |s.calls| && r < |s.calls| && s.calls[w].pc.WAck? && s.calls[r].pc.RAck?
  }

  /** readCloseError and writeCloseError: the other side's error, unless this side was
      closed too (`seen`) or the other was not. */
  function CloseError(seen: Option<Error>, theirs: Option<Error>): Option<Error>
  {
    if seen == None && theirs != None then theirs else Some(ErrClosedPipe)
  }

  function Room(op: Op): nat { if op.Read? then op.room else 0 }

  function Front(s: seq<byte>, n: nat): seq<byte> { if n <= |s| then s[..n] else s }

  /** A local step of call i: where it goes and what becomes of the shared state. */
  function LocalStep(c: Call, i: nat, m: Shared): (PC, Shared)
    requires LocalEnabled(c, m)
  {
    var unlocked := if m.lock == Some(i) then m.(lock := None) else m;
    match c.pc
    case RStart => (if m.done then RLoad else RWait, m)
    case RWait => (RLoad, m)
    case RCopy(bw) => (RAck(Front(bw, Room(c.op))), m)
    case RLoad => (RLoad2(m.rerr), m)
    case RLoad2(seen) => (RDone(0, [], CloseError(seen, m.werr)), m)
    case WStart => (if m.done then WLoad(0) else WLock, m)
    case WLock => (WLoop(if c.op.Write? then c.op.b else [], 0, true), m.(lock := Some(i)))
    case WLoop(rest, n, once) => if Goes(c.pc) then (WLoad(n), m) else (WDone(n, None), unlocked)
    case WLoad(n) => (WLoad2(n, m.werr), m)
    case WLoad2(n, seen) => (WDone(n, CloseError(seen, m.rerr)), unlocked)
    case CStore =>
      (CClose, if c.op.CloseRead?
               then m.(rerr := Stored(m.rerr, if c.op.err == None then ErrClosedPipe else c.op.err.value))
               else m.(werr := Stored(m.werr, if c.op.err == None then EOF else c.op.err.value)))
    case CClose => (CDone, m.(done := true))
  }

  function At(calls: seq<Call>, i: nat, pc: PC): seq<Call>
    requires i < |calls|
  {
    calls[i := calls[i].(pc := pc)]
  }

  function Next(s: State, e: Event): State
    requires Enabled(s, e)
  {
    match e
    case Start(op) => s.(calls := s.calls + [Call(op, s.m, First(op))])
    case Local(i) =>
      var (pc, m) := LocalStep(s.calls[i], i, s.m);
      s.(calls := At(s.calls, i, pc), m := m, order := if s.calls[i].pc == WLock then s.order + [i] else s.order)
    case Offer(w, r) =>
      var pc := s.calls[w].pc;
      s.(calls := At(At(s.calls, w, WAck(pc.rest, pc.n)), r, RCopy(pc.rest)), takes := s.takes + [r],
          givers := s.givers + [w], holder := Some(r))
    case Ack(r, w) =>
      var got, pc := s.calls[r].pc.got, s.calls[w].pc;
      var back := if |got| <= |pc.rest| then WLoop(pc.rest[|got|..], pc.n + |got|, false) else WPanic;
      s.(calls := At(At(s.calls, r, RDone(|got|, got, None)), w, back), holder := None)
  }

  // ---------- what the calls have done ----------

  /** The bytes of a write that have been consumed. */
  function Consumed(c: Call): seq<byte>
  {
    if c.op.Write? && (c.pc.WLoop? || c.pc.WAck? || c.pc.WLoad? || c.pc.WLoad2? || c.pc.WDone?)
    then Front(c.op.b, c.pc.n) else []
  }

  /** The bytes a read has put into its buffer. */
  function Got(c: Call): seq<byte> { if c.pc.RAck? || c.pc.RDone? then c.pc.got else [] }

  function AllConsumed(calls: seq<Call>, order: seq<nat>): seq<byte>
    requires forall k | 0 <= k < |order| :: order[k] < |calls|
  {
    if order == [] then []
    else AllConsumed(calls, order[..|order| - 1]) + Consumed(calls[order[|order| - 1]])
  }

  function AllGot(calls: seq<Call>, takes: seq<nat>): seq<byte>
    requires forall k | 0 <= k < |takes| :: takes[k] < |calls|
  {
    if takes == [] then [] else AllGot(calls, takes[..|takes| - 1]) + Got(calls[takes[|takes| - 1]])
  }

  /** What the unacknowledged read has copied. */
  function Pending(s: State): seq<byte>
  {
    if s.holder.Some? && s.holder.value < |s.calls| then Got(s.calls[s.holder.value]) else []
  }

  // ---------- the invariant ----------

  /** A close error e returned to one side, whose own error is `mine`. */
  ghost predicate ErrorOK(e: Option<Error>, mine: Option<Error>, theirs: Option<Error>, mineAtStart: Option<Error>)
  {
    && (mineAtStart.Some? ==> e == Some(ErrClosedPipe))
    && ((e == Some(ErrClosedPipe) && mine.Some?) || (e == theirs && theirs.Some?))
  }

  ghost predicate SeenOK(seen: Option<Error>, mine: Option<Error>, mineAtStart: Option<Error>)
  {
    (seen == None || seen == mine) && (mineAtStart.Some? ==> seen == mine)
  }

  ghost predicate ReadOK(c: Call, m: Shared)
    requires c.op.Read?
  {
    match c.pc
    case RStart => true
    case RWait => !c.start.done
    case RCopy(bw) => !c.start.done
    case RAck(got) => !c.start.done && |got| <= c.op.room
    case RLoad => m.done
    case RLoad2(seen) => m.done && SeenOK(seen, m.rerr, c.start.rerr)
    case RDone(n, got, err) =>
      && n == |got| <= c.op.room
      && (c.start.done ==> err.Some?)
      && (err.Some? ==> got == [] && m.done && ErrorOK(err, m.rerr, m.werr, c.start.rerr))
    case _ => false
  }

  /** How much a write has achieved, and when it fails. */
  ghost predicate Progress(c: Call, n: nat, rest: seq<byte>)
    requires c.op.Write?
  {
    n <= |c.op.b| && rest == c.op.b[n..] && !c.start.done
  }

  ghost predicate Failing(c: Call, n: nat)
    requires c.op.Write?
  {
    n <= |c.op.b| && (n == |c.op.b| ==> n == 0) && (c.start.done ==> n == 0)
  }

  ghost predicate WriteOK(c: Call, m: Shared)
    requires c.op.Write?
  {
    match c.pc
    case WStart => true
    case WLock => !c.start.done
    case WLoop(rest, n, once) => Progress(c, n, rest) && (once ==> n == 0)
    case WAck(rest, n) => Progress(c, n, rest)
    case WLoad(n) => m.done && Failing(c, n)
    case WLoad2(n, seen) => m.done && Failing(c, n) && SeenOK(seen, m.werr, c.start.werr)
    case WDone(n, err) =>
      && (c.start.done ==> err.Some?)
      && (err == None ==> n == |c.op.b|)
      && (err.Some? ==> Failing(c, n) && m.done && ErrorOK(err, m.werr, m.rerr, c.start.werr))
    case _ => false
  }

  ghost predicate CloseOK(c: Call, m: Shared)
  {
    match c.pc
    case CStore => true
    case CClose => if c.op.CloseRead? then m.rerr.Some? else m.werr.Some?
    case CDone => m.done && if c.op.CloseRead? then m.rerr.Some? else m.werr.Some?
    case _ => false
  }

  /** The shared state only moves one way. */
  ghost predicate Later(a: Shared, b: Shared)
  {
    && (a.done ==> b.done)
    && (a.rerr.Some? ==> b.rerr == a.rerr) && (a.werr.Some? ==> b.werr == a.werr)
  }

  ghost predicate CallOK(c: Call, m: Shared)
  {
    && Later(c.start, m)
    && match c.op
       case Read(_) => ReadOK(c, m)
       case Write(_) => WriteOK(c, m)
       case _ => CloseOK(c, m)
  }

  /** wrMu: held exactly by the write inside, which is the last to have taken it. */
  ghost predicate LockOK(s: State)
  {
    && (forall k | 0 <= k < |s.order| :: s.order[k] < |s.calls|)
    && (forall i | 0 <= i < |s.calls| && (s.calls[i].pc.WLoop? || s.calls[i].pc.WAck?) :: s.m.lock == Some(i))
    && (forall k | 0 <= k < |s.order| :: s.m.lock == Some(s.order[k]) || s.calls[s.order[k]].pc.WDone?)
    && (s.m.lock.Some? ==> s.order != [] && s.m.lock.value == s.order[|s.order| - 1] && Inside(s, s.m.lock.value))
    && (forall k | 0 <= k < |s.order| - 1 :: s.m.lock != Some(s.order[k]))
  }

  predicate InsidePC(pc: PC) { pc.WLoop? || pc.WAck? || pc.WLoad? || pc.WLoad2? }

  ghost predicate Inside(s: State, i: nat)
  {
    && i < |s.calls| && s.calls[i].op.Write?
    && InsidePC(s.calls[i].pc)
  }

  /** At most one read is between receiving and acknowledging, and the write it received
      from is waiting for just that. */
  ghost predicate HolderOK(s: State)
  {
    && (forall k | 0 <= k < |s.takes| :: s.takes[k] < |s.calls|)
    && (forall i | 0 <= i < |s.calls| && (s.calls[i].pc.RCopy? || s.calls[i].pc.RAck?) :: s.holder == Some(i))
    && (forall k | 0 <= k < |s.takes| :: s.holder == Some(s.takes[k]) || s.calls[s.takes[k]].pc.RDone?)
    && (forall k | 0 <= k < |s.takes| - 1 :: s.holder != Some(s.takes[k]))
    && (s.holder.Some? ==> s.takes != [] && s.holder.value == s.takes[|s.takes| - 1] && Paired(s, s.holder.value))
    && (s.holder == None ==> forall i | 0 <= i < |s.calls| :: !s.calls[i].pc.WAck?)
  }

  ghost predicate Paired(s: State, r: nat)
  {
    && r < |s.calls| && s.calls[r].op.Read?
    && s.m.lock.Some? && s.m.lock.value < |s.calls|
    && var w := s.calls[s.m.lock.value].pc;
       && w.WAck?
       && (s.calls[r].pc == RCopy(w.rest) || s.calls[r].pc == RAck(Front(w.rest, s.calls[r].op.room)))
  }

  ghost predicate BytesOK(s: State)
    requires LockOK(s) && HolderOK(s)
  {
    AllGot(s.calls, s.takes) == AllConsumed(s.calls, s.order) + Pending(s)
  }

  /** Every call that has moved bytes, or succeeded, is on record just once. */
  ghost predicate OnRecord(s: State)
  {
    && (forall j, k | 0 <= j < k < |s.order| :: s.order[j] != s.order[k])
    && (forall j, k | 0 <= j < k < |s.takes| :: s.takes[j] != s.takes[k])
    && (forall i | i in s.order :: i < |s.calls| && s.calls[i].op.Write?)
    && (forall i | i in s.takes :: i < |s.calls| && s.calls[i].op.Read? && Took(s.calls[i].pc))
    && (forall i | 0 <= i < |s.calls| && Took(s.calls[i].pc) :: i in s.takes)
    && (forall i | 0 <= i < |s.calls| && Gave(s.calls[i].pc) :: i in s.givers)
    && (forall i | 0 <= i < |s.calls| && Entered(s.calls[i].pc) :: i in s.order)
  }

  predicate Took(pc: PC) { pc.RCopy? || pc.RAck? || (pc.RDone? && pc.err == None) }

  predicate Gave(pc: PC) { (pc.WLoop? && !pc.once) || pc.WAck? || (pc.WDone? && pc.err == None) }

  predicate Entered(pc: PC)
  {
    || pc.WLoop? || pc.WAck? || ((pc.WLoad? || pc.WLoad2?) && pc.n > 0)
    || (pc.WDone? && (pc.n > 0 || pc.err == None))
  }

  ghost predicate Inv(s: State)
  {
    && (s.m.done ==> s.m.rerr.Some? || s.m.werr.Some?)
    && (forall i | 0 <= i < |s.calls| :: CallOK(s.calls[i], s.m))
    && LockOK(s) && HolderOK(s) && BytesOK(s)
  }

  // ---------- every step keeps it ----------

  lemma CallStays(c: Call, m: Shared, m': Shared)
    requires CallOK(c, m) && Later(m, m')
    ensures CallOK(c, m')
  {
  }

  lemma {:induction false} ConsumedStays(a: seq<Call>, b: seq<Call>, order: seq<nat>)
    requires forall k | 0 <= k < |order| ::
      order[k] < |a| && order[k] < |b| && Consumed(a[order[k]]) == Consumed(b[order[k]])
    ensures AllConsumed(a, order) == AllConsumed(b, order)
  {
    hide Consumed;
    if order != [] { ConsumedStays(a, b, order[..|order| - 1]); }
  }

  lemma {:induction false} GotStays(a: seq<Call>, b: seq<Call>, takes: seq<nat>)
    requires forall k | 0 <= k < |takes| :: takes[k] < |a| && takes[k] < |b| && Got(a[takes[k]]) == Got(b[takes[k]])
    ensures AllGot(a, takes) == AllGot(b, takes)
  {
    hide Got;
    if takes != [] { GotStays(a, b, takes[..|takes| - 1]); }
  }

  /** Bytes accounted for stay so when nothing new is consumed or copied. */
  lemma BytesStay(s: State, s': State)
    requires LockOK(s) && HolderOK(s) && BytesOK(s) && LockOK(s') && HolderOK(s')
    requires s'.order == s.order && s'.takes == s.takes && Pending(s') == Pending(s)
    requires forall k | 0 <= k < |s.order| :: Consumed(s'.calls[s.order[k]]) == Consumed(s.calls[s.order[k]])
    requires forall k | 0 <= k < |s.takes| :: Got(s'.calls[s.takes[k]]) == Got(s.calls[s.takes[k]])
    ensures BytesOK(s')
  {
    hide Consumed;
    hide Got;
    hide Pending;
    ConsumedStays(s.calls, s'.calls, s.order);
    GotStays(s.calls, s'.calls, s.takes);
  }

  lemma StartStructure(s: State, op: Op)
    requires Inv(s)
    ensures LockOK(Next(s, Start(op))) && HolderOK(Next(s, Start(op)))
  {
    hide CallOK;
    hide BytesOK;
  }

  lemma StartKeeps(s: State, op: Op)
    requires Inv(s)
    ensures Inv(Next(s, Start(op)))
  {
    hide LockOK;
    hide HolderOK;
    var s' := Next(s, Start(op));
    StartStructure(s, op);
    assert Later(s.m, s.m);
    StartBytes(s, op);
  }

  lemma StartBytes(s: State, op: Op)
    requires Inv(s) && LockOK(Next(s, Start(op))) && HolderOK(Next(s, Start(op)))
    ensures BytesOK(Next(s, Start(op)))
  {
    hide CallOK;
    hide BytesOK;
    hide Consumed;
    hide Got;
    BytesStay(s, Next(s, Start(op)));
  }

  /** The call that moves stays in order itself. */
  lemma MoverOK(c: Call, i: nat, m: Shared)
    requires LocalEnabled(c, m) && CallOK(c, m) && (m.done ==> m.rerr.Some? || m.werr.Some?)
    ensures var (pc, m') := LocalStep(c, i, m);
            && CallOK(c.(pc := pc), m') && Later(m, m') && (m'.done ==> m'.rerr.Some? || m'.werr.Some?)
  {
  }

  lemma LocalCalls(s: State, i: nat)
    requires Inv(s) && Enabled(s, Local(i))
    ensures var s' := Next(s, Local(i));
            && (s'.m.done ==> s'.m.rerr.Some? || s'.m.werr.Some?)
            && forall j | 0 <= j < |s'.calls| :: CallOK(s'.calls[j], s'.m)
  {
    hide AllConsumed;
    hide AllGot;
    var s' := Next(s, Local(i));
    MoverOK(s.calls[i], i, s.m);
    hide CallOK;
    hide LocalStep;
    forall j | 0 <= j < |s.calls| && j != i ensures CallOK(s'.calls[j], s'.m) {
      CallStays(s.calls[j], s.m, s'.m);
    }
  }

  /** What a local step can do to wrMu. */
  lemma LocalLocking(c: Call, i: nat, m: Shared)
    requires LocalEnabled(c, m) && CallOK(c, m)
    ensures var (pc, m') := LocalStep(c, i, m);
            && (pc.WLoop? <==> c.pc == WLock) && !pc.WAck? && !c.pc.WDone?
            && (c.pc == WLock ==> m.lock == None && m'.lock == Some(i) && c.op.Write?)
            && (c.pc != WLock && m'.lock != m.lock ==> m.lock == Some(i) && m'.lock == None && pc.WDone?)
            && (m'.lock == m.lock == Some(i) && InsidePC(c.pc) ==> InsidePC(pc))
  {
  }

  lemma LocalLock(s: State, i: nat)
    requires Inv(s) && Enabled(s, Local(i))
    ensures LockOK(Next(s, Local(i)))
  {
    hide BytesOK;
    hide HolderOK;
    hide CallOK;
    hide LocalStep;
    hide LocalEnabled;
    var s' := Next(s, Local(i));
    assert CallOK(s.calls[i], s.m);
    LocalLocking(s.calls[i], i, s.m);
  }

  /** What a local step can do to a meeting under way. */
  lemma LocalMeeting(c: Call, i: nat, m: Shared)
    requires LocalEnabled(c, m) && CallOK(c, m)
    ensures var (pc, m') := LocalStep(c, i, m);
            && !pc.WAck? && !c.pc.WAck? && !c.pc.RAck? && !c.pc.RDone? && !pc.RCopy? && (pc.RAck? <==> c.pc.RCopy?)
            && (c.pc.RCopy? && c.op.Read? ==> pc == RAck(Front(c.pc.bw, c.op.room)))
            && (c.op.Read? ==> m'.lock == m.lock || m.lock == Some(i))
            && (m'.lock == m.lock || m.lock == Some(i) || m.lock == None)
  {
  }

  lemma LocalHolder(s: State, i: nat)
    requires Inv(s) && Enabled(s, Local(i))
    ensures HolderOK(Next(s, Local(i)))
  {
    hide BytesOK;
    hide LockOK;
    hide CallOK;
    hide LocalStep;
    hide LocalEnabled;
    hide Front;
    var s' := Next(s, Local(i));
    assert CallOK(s.calls[i], s.m);
    LocalMeeting(s.calls[i], i, s.m);
  }

  lemma LocalBytes(s: State, i: nat)
    requires Inv(s) && Enabled(s, Local(i))
    requires LockOK(Next(s, Local(i))) && HolderOK(Next(s, Local(i)))
    ensures BytesOK(Next(s, Local(i)))
  {
    if s.calls[i].pc == WLock { EnterBytes(s, i); }
    else if s.calls[i].pc.RCopy? { CopyBytes(s, i); }
    else { OtherBytes(s, i); }
  }

  lemma EnterBytes(s: State, i: nat)
    requires Inv(s) && Enabled(s, Local(i)) && s.calls[i].pc == WLock
    requires LockOK(Next(s, Local(i))) && HolderOK(Next(s, Local(i)))
    ensures BytesOK(Next(s, Local(i)))
  {
    var s' := Next(s, Local(i));
    assert CallOK(s.calls[i], s.m);
    hide CallOK;
    ConsumedStays(s.calls, s'.calls, s.order);
    GotStays(s.calls, s'.calls, s.takes);
    assert s'.order[..|s.order|] == s.order;
    assert Consumed(s'.calls[i]) == [];
  }

  /** The last read of all takes gets bytes where it had none. */
  lemma GotMore(a: seq<Call>, b: seq<Call>, takes: seq<nat>, r: nat)
    requires |takes| > 0 && takes[|takes| - 1] == r && r < |a| && r < |b|
    requires Got(a[r]) == []
    requires forall k | 0 <= k < |takes| :: takes[k] < |a| && takes[k] < |b|
    requires forall k | 0 <= k < |takes| - 1 :: Got(a[takes[k]]) == Got(b[takes[k]])
    ensures AllGot(b, takes) == AllGot(a, takes) + Got(b[r])
  {
    GotStays(a, b, takes[..|takes| - 1]);
  }

  lemma CopyStep(s: State, i: nat)
    requires i < |s.calls| && s.calls[i].pc.RCopy?
    ensures Enabled(s, Local(i))
    ensures Next(s, Local(i)) == s.(calls := At(s.calls, i, RAck(Front(s.calls[i].pc.bw, Room(s.calls[i].op)))))
  {
  }

  lemma CopyBytes(s: State, i: nat)
    requires Inv(s) && Enabled(s, Local(i)) && s.calls[i].pc.RCopy?
    requires LockOK(Next(s, Local(i))) && HolderOK(Next(s, Local(i)))
    ensures BytesOK(Next(s, Local(i)))
  {
    hide Next;
    hide LocalStep;
    hide CallOK;
    hide Paired;
    hide Inside;
    hide AllConsumed;
    hide AllGot;
    CopyStep(s, i);
    var s' := Next(s, Local(i));
    assert s.holder == Some(i) && s.takes[|s.takes| - 1] == i;
    assert forall k | 0 <= k < |s.order| :: Consumed(s'.calls[s.order[k]]) == Consumed(s.calls[s.order[k]]);
    ConsumedStays(s.calls, s'.calls, s.order);
    GotMore(s.calls, s'.calls, s.takes, i);
  }

  lemma LocalSame(c: Call, i: nat, m: Shared)
    requires LocalEnabled(c, m) && CallOK(c, m) && c.pc != WLock && !c.pc.RCopy?
    ensures var c' := c.(pc := LocalStep(c, i, m).0); Consumed(c') == Consumed(c) && Got(c') == Got(c)
  {
  }

  lemma OtherBytes(s: State, i: nat)
    requires Inv(s) && Enabled(s, Local(i)) && s.calls[i].pc != WLock && !s.calls[i].pc.RCopy?
    requires LockOK(Next(s, Local(i))) && HolderOK(Next(s, Local(i)))
    ensures BytesOK(Next(s, Local(i)))
  {
    hide BytesOK;
    hide CallOK;
    hide LocalStep;
    hide LocalEnabled;
    hide Consumed;
    hide Got;
    assert CallOK(s.calls[i], s.m);
    LocalSame(s.calls[i], i, s.m);
    BytesStay(s, Next(s, Local(i)));
  }

  lemma LocalKeeps(s: State, i: nat)
    requires Inv(s) && Enabled(s, Local(i))
    ensures Inv(Next(s, Local(i)))
  {
    LocalCalls(s, i);
    LocalLock(s, i);
    LocalHolder(s, i);
    LocalBytes(s, i);
    hide CallOK;
    hide LockOK;
    hide HolderOK;
    hide BytesOK;
  }

  lemma OfferKeeps(s: State, w: nat, r: nat)
    requires Inv(s) && Enabled(s, Offer(w, r))
    ensures Inv(Next(s, Offer(w, r)))
  {
    assert CallOK(s.calls[w], s.m) && CallOK(s.calls[r], s.m);
    OfferCalls(s, w, r);
    OfferStructure(s, w, r);
    OfferBytes(s, w, r);
    hide CallOK;
    hide LockOK;
    hide HolderOK;
    hide BytesOK;
  }

  lemma OfferCalls(s: State, w: nat, r: nat)
    requires Inv(s) && Enabled(s, Offer(w, r))
    ensures forall j | 0 <= j < |s.calls| :: CallOK(Next(s, Offer(w, r)).calls[j], s.m)
  {
    hide LockOK;
    hide HolderOK;
    hide BytesOK;
    assert CallOK(s.calls[w], s.m) && CallOK(s.calls[r], s.m);
  }

  lemma OfferStructure(s: State, w: nat, r: nat)
    requires Inv(s) && Enabled(s, Offer(w, r))
    ensures LockOK(Next(s, Offer(w, r))) && HolderOK(Next(s, Offer(w, r)))
  {
    hide BytesOK;
    assert CallOK(s.calls[w], s.m) && CallOK(s.calls[r], s.m);
    hide CallOK;
    assert s.m.lock == Some(w) && s.holder == None;
  }

  lemma OfferBytes(s: State, w: nat, r: nat)
    requires Inv(s) && Enabled(s, Offer(w, r))
    requires LockOK(Next(s, Offer(w, r))) && HolderOK(Next(s, Offer(w, r)))
    ensures BytesOK(Next(s, Offer(w, r)))
  {
    hide CallOK;
    hide Inside;
    hide AllConsumed;
    var s' := Next(s, Offer(w, r));
    assert s.m.lock == Some(w) && s.holder == None;
    assert forall k | 0 <= k < |s.order| :: Consumed(s'.calls[s.order[k]]) == Consumed(s.calls[s.order[k]]);
    ConsumedStays(s.calls, s'.calls, s.order);
    GotStays(s.calls, s'.calls, s.takes);
    assert s'.takes[..|s.takes|] == s.takes;
  }

  lemma AckKeeps(s: State, r: nat, w: nat)
    requires Inv(s) && Enabled(s, Ack(r, w))
    ensures Inv(Next(s, Ack(r, w)))
  {
    hide CallOK;
    hide LockOK;
    hide HolderOK;
    hide BytesOK;
    AckPair(s, r, w);
    AckCalls(s, r, w);
    AckStructure(s, r, w);
    AckBytes(s, r, w);
  }

  /** The two that meet on rdCh are the two that met on wrCh. */
  lemma AckPair(s: State, r: nat, w: nat)
    requires Inv(s) && Enabled(s, Ack(r, w))
    ensures s.m.lock == Some(w) && s.holder == Some(r) && s.calls[w].op.Write? && s.calls[r].op.Read?
    ensures s.calls[r].pc.got == Front(s.calls[w].pc.rest, s.calls[r].op.room)
    ensures CallOK(s.calls[w], s.m) && CallOK(s.calls[r], s.m)
  {
    hide BytesOK;
  }

  lemma AckCalls(s: State, r: nat, w: nat)
    requires Inv(s) && Enabled(s, Ack(r, w))
    ensures forall j | 0 <= j < |s.calls| :: CallOK(Next(s, Ack(r, w)).calls[j], s.m)
  {
    hide LockOK;
    hide HolderOK;
    hide BytesOK;
    AckPair(s, r, w);
    var pc := s.calls[w].pc;
    assert pc.rest[|s.calls[r].pc.got|..] == s.calls[w].op.b[pc.n + |s.calls[r].pc.got|..];
  }

  lemma AckStructure(s: State, r: nat, w: nat)
    requires Inv(s) && Enabled(s, Ack(r, w))
    ensures LockOK(Next(s, Ack(r, w))) && HolderOK(Next(s, Ack(r, w)))
  {
    hide BytesOK;
    hide CallOK;
    AckPair(s, r, w);
  }

  lemma ConsumedMore(a: seq<Call>, b: seq<Call>, order: seq<nat>, w: nat, more: seq<byte>)
    requires |order| > 0 && order[|order| - 1] == w && w < |a| && w < |b|
    requires Consumed(b[w]) == Consumed(a[w]) + more
    requires forall k | 0 <= k < |order| :: order[k] < |a| && order[k] < |b|
    requires forall k | 0 <= k < |order| - 1 :: Consumed(a[order[k]]) == Consumed(b[order[k]])
    ensures AllConsumed(b, order) == AllConsumed(a, order) + more
  {
    hide Consumed;
    ConsumedStays(a, b, order[..|order| - 1]);
  }

  lemma ConsumedByAck(c: Call, got: seq<byte>)
    requires c.op.Write? && c.pc.WAck? && Progress(c, c.pc.n, c.pc.rest)
    requires |got| <= |c.pc.rest| && got == c.pc.rest[..|got|]
    ensures Consumed(c.(pc := WLoop(c.pc.rest[|got|..], c.pc.n + |got|, false))) == Consumed(c) + got
  {
    var b, n := c.op.b, c.pc.n;
    assert b[..n + |got|] == b[..n] + b[n..][..|got|];
  }

  lemma AckConsumed(s: State, r: nat, w: nat)
    requires Inv(s) && Enabled(s, Ack(r, w))
    ensures var calls' := Next(s, Ack(r, w)).calls;
            && |calls'| == |s.calls| && s.calls[r].pc.got == Pending(s)
            && AllConsumed(calls', s.order) == AllConsumed(s.calls, s.order) + s.calls[r].pc.got
  {
    hide BytesOK;
    hide Consumed;
    hide AllConsumed;
    hide AllGot;
    var calls' := Next(s, Ack(r, w)).calls;
    AckPair(s, r, w);
    var got, n := s.calls[r].pc.got, |s.order| - 1;
    ConsumedByAck(s.calls[w], got);
    ReadConsumesNothing(s.calls[r]);
    ReadConsumesNothing(calls'[r]);
    hide CallOK;
    hide HolderOK;
    forall k | 0 <= k < n ensures Consumed(s.calls[s.order[k]]) == Consumed(calls'[s.order[k]]) {
      assert s.order[k] != w;
    }
    ConsumedMore(s.calls, calls', s.order, w, got);
  }

  lemma ReadConsumesNothing(c: Call)
    requires c.op.Read?
    ensures Consumed(c) == []
  {
  }

  lemma AckBytes(s: State, r: nat, w: nat)
    requires Inv(s) && Enabled(s, Ack(r, w))
    requires LockOK(Next(s, Ack(r, w))) && HolderOK(Next(s, Ack(r, w)))
    ensures BytesOK(Next(s, Ack(r, w)))
  {
    hide CallOK;
    hide Consumed;
    hide AllConsumed;
    hide Paired;
    hide Inside;
    var s' := Next(s, Ack(r, w));
    AckConsumed(s, r, w);
    assert forall k | 0 <= k < |s.takes| :: Got(s'.calls[s.takes[k]]) == Got(s.calls[s.takes[k]]);
    GotStays(s.calls, s'.calls, s.takes);
  }

  /** A call enters the records only by taking wrMu or by a meeting. */
  lemma LocalMarks(c: Call, i: nat, m: Shared)
    requires CallOK(c, m) && LocalEnabled(c, m)
    ensures var pc := LocalStep(c, i, m).0;
            && (Took(pc) <==> Took(c.pc)) && (Gave(pc) ==> Gave(c.pc))
            && (Entered(pc) ==> Entered(c.pc) || c.pc == WLock)
    ensures c.pc == WLock ==> c.op.Write?
  {
  }

  /** Who has not entered yet is not on record. */
  lemma NotYet(s: State, i: nat)
    requires Inv(s) && i < |s.calls|
    ensures CallOK(s.calls[i], s.m)
    ensures s.calls[i].pc == WLock ==> i !in s.order
    ensures s.calls[i].pc == RWait ==> i !in s.takes && s.calls[i].op.Read?
  {
    hide BytesOK;
    assert CallOK(s.calls[i], s.m);
    hide CallOK;
  }

  lemma LocalRecord(s: State, i: nat)
    requires Inv(s) && OnRecord(s) && Enabled(s, Local(i))
    ensures OnRecord(Next(s, Local(i)))
  {
    hide Inv;
    hide Took;
    hide Gave;
    hide Entered;
    hide LocalStep;
    hide CallOK;
    hide LocalEnabled;
    var s' := Next(s, Local(i));
    NotYet(s, i);
    LocalMarks(s.calls[i], i, s.m);
    if s.calls[i].pc == WLock { assert s'.order[|s.order|] == i; }
  }

  lemma OfferRecord(s: State, w: nat, r: nat)
    requires Inv(s) && OnRecord(s) && Enabled(s, Offer(w, r))
    ensures OnRecord(Next(s, Offer(w, r)))
  {
    hide Inv;
    hide CallOK;
    var s' := Next(s, Offer(w, r));
    NotYet(s, r);
    assert Entered(s.calls[w].pc);
    assert s'.takes[|s.takes|] == r && s'.givers[|s.givers|] == w;
  }

  lemma AckRecord(s: State, r: nat, w: nat)
    requires OnRecord(s) && Enabled(s, Ack(r, w))
    ensures OnRecord(Next(s, Ack(r, w)))
  {
    var s' := Next(s, Ack(r, w));
    assert Took(s.calls[r].pc) && Gave(s.calls[w].pc) && Entered(s.calls[w].pc);
    hide Took;
    hide Gave;
    hide Entered;
  }

  lemma StartRecord(s: State, op: Op)
    requires Inv(s) && OnRecord(s)
    ensures OnRecord(Next(s, Start(op)))
  {
    hide BytesOK;
    hide HolderOK;
    hide CallOK;
  }

  lemma StepKeeps(s: State, e: Event)
    requires Inv(s) && OnRecord(s) && Enabled(s, e)
    ensures Inv(Next(s, e)) && OnRecord(Next(s, e))
  {
    hide Inv;
    hide OnRecord;
    hide Next;
    match e
    case Start(op) => StartKeeps(s, op); StartRecord(s, op);
    case Local(i) => LocalKeeps(s, i); LocalRecord(s, i);
    case Offer(w, r) => OfferKeeps(s, w, r); OfferRecord(s, w, r);
    case Ack(r, w) => AckKeeps(s, r, w); AckRecord(s, r, w);
  }

  // ---------- runs ----------

  ghost predicate Runs(s: State, es: seq<Event>, t: State)
    decreases |es|
  {
    if es == [] then t == s else Enabled(s, es[0]) && Runs(Next(s, es[0]), es[1..], t)
  }

  lemma {:induction false} RunKeeps(s: State, es: seq<Event>, t: State)
    requires Inv(s) && OnRecord(s) && Runs(s, es, t)
    ensures Inv(t) && OnRecord(t)
    decreases |es|
  {
    hide Inv;
    hide OnRecord;
    hide Next;
    if es != [] {
      StepKeeps(s, es[0]);
      RunKeeps(Next(s, es[0]), es[1..], t);
    }
  }

  lemma RunInv(es: seq<Event>, t: State)
    requires Runs(INIT, es, t)
    ensures Inv(t) && OnRecord(t)
  {
    RunKeeps(INIT, es, t);
  }

  /** What comes out is what goes in: the bytes of all reads, in the order the reads met a
      write, are the consumed parts of all writes, in the order the writes took wrMu, up to
      the chunk of the one read that is still to acknowledge. */
  lemma BytesPassThrough(es: seq<Event>, t: State)
    requires Runs(INIT, es, t)
    ensures Inv(t) && OnRecord(t)
    ensures AllGot(t.calls, t.takes) == AllConsumed(t.calls, t.order) + Pending(t)
  {
    RunInv(es, t);
  }

  /** A finished read that reports no error has met a write and returns the number of bytes
      it copied, no more than it had room for; one that reports an error has copied none. */
  lemma ReadResult(es: seq<Event>, t: State, i: nat)
    requires Runs(INIT, es, t) && i < |t.calls| && t.calls[i].pc.RDone?
    ensures var c := t.calls[i];
            && c.op.Read? && c.pc.n == |Got(c)| <= c.op.room
            && (c.pc.err == None <==> i in t.takes)
            && (c.pc.err != None ==> Got(c) == [])
  {
    RunInv(es, t);
    hide BytesOK;
    assert CallOK(t.calls[i], t.m);
    hide CallOK;
  }

  /** A write returns the number of bytes consumed: all of them, and at least one read was
      met, if there is no error; less than all of a non-empty b if there is one. */
  lemma WriteResult(es: seq<Event>, t: State, i: nat)
    requires Runs(INIT, es, t) && i < |t.calls| && t.calls[i].pc.WDone?
    ensures var c := t.calls[i];
            && c.op.Write? && c.pc.n == |Consumed(c)| <= |c.op.b| && Consumed(c) == c.op.b[..c.pc.n]
            && (c.op.b != [] ==> (c.pc.err == None <==> c.pc.n == |c.op.b|))
            && (c.pc.err == None ==> c.pc.n == |c.op.b| && i in t.givers)
            && (c.pc.n > 0 ==> i in t.order)
  {
    hide BytesOK;
    hide LockOK;
    hide HolderOK;
    hide Runs;
    RunInv(es, t);
    assert CallOK(t.calls[i], t.m);
  }

  /** At most one read has received and not yet acknowledged. */
  lemma OneHolder(es: seq<Event>, t: State)
    requires Runs(INIT, es, t)
    ensures forall i, j | 0 <= i < |t.calls| && 0 <= j < |t.calls| && Holding(t.calls[i]) && Holding(t.calls[j]) ::
      i == j
  {
    hide BytesOK;
    hide LockOK;
    hide CallOK;
    hide OnRecord;
    RunInv(es, t);
  }

  /** The write it received from is waiting for just that acknowledgement, and can slice off
      what the read has copied: as much as was offered and there was room for. */
  lemma AckAwaited(es: seq<Event>, t: State, i: nat)
    requires Runs(INIT, es, t) && i < |t.calls| && t.calls[i].pc.RAck?
    ensures t.m.lock.Some? && Enabled(t, Ack(i, t.m.lock.value))
    ensures var rest := t.calls[t.m.lock.value].pc.rest;
            t.calls[i].op.Read? && t.calls[i].pc.got
              == rest[..if t.calls[i].op.room < |rest| then t.calls[i].op.room else |rest|]
  {
    hide BytesOK;
    hide LockOK;
    hide CallOK;
    hide OnRecord;
    RunInv(es, t);
  }

  /** No write ever slices out of range. */
  lemma NoPanic(es: seq<Event>, t: State, i: nat)
    requires Runs(INIT, es, t) && i < |t.calls|
    ensures t.calls[i].pc != WPanic
  {
    hide BytesOK;
    hide LockOK;
    hide HolderOK;
    hide OnRecord;
    RunInv(es, t);
    assert CallOK(t.calls[i], t.m);
  }

  predicate Holding(c: Call) { c.pc.RCopy? || c.pc.RAck? }

  /** A call that begins after the pipe is closed moves nothing and fails. */
  lemma LateCallsFail(es: seq<Event>, t: State, i: nat)
    requires Runs(INIT, es, t) && i < |t.calls| && t.calls[i].start.done
    ensures i !in t.takes && Consumed(t.calls[i]) == [] && Got(t.calls[i]) == []
    ensures var pc := t.calls[i].pc; pc.RDone? || pc.WDone? ==> pc.n == 0 && pc.err.Some?
  {
    hide BytesOK;
    hide LockOK;
    hide Runs;
    RunInv(es, t);
    assert CallOK(t.calls[i], t.m);
  }

  /** Which error: the other side's, or ErrClosedPipe if one's own side is closed; certainly
      ErrClosedPipe if it was closed before the call began. */
  lemma WhichError(es: seq<Event>, t: State, i: nat)
    requires Runs(INIT, es, t) && i < |t.calls|
    ensures var c := t.calls[i];
            && (c.pc.RDone? && c.pc.err.Some? ==> t.m.done && ErrorOK(c.pc.err, t.m.rerr, t.m.werr, c.start.rerr))
            && (c.pc.WDone? && c.pc.err.Some? ==> t.m.done && ErrorOK(c.pc.err, t.m.werr, t.m.rerr, c.start.werr))
  {
    hide BytesOK;
    hide LockOK;
    hide HolderOK;
    hide Runs;
    RunInv(es, t);
    assert CallOK(t.calls[i], t.m);
  }

  // ---------- where the errors come from ----------

  /** The argument of the CloseWrite call, if this event is such a call storing its error. */
  function ClosesWrite(s: State, e: Event): Option<Option<Error>>
  {
    if e.Local? && e.i < |s.calls| && s.calls[e.i].pc == CStore && s.calls[e.i].op.CloseWrite?
    then Some(s.calls[e.i].op.err) else None
  }

  function ClosesRead(s: State, e: Event): Option<Option<Error>>
  {
    if e.Local? && e.i < |s.calls| && s.calls[e.i].pc == CStore && s.calls[e.i].op.CloseRead?
    then Some(s.calls[e.i].op.err) else None
  }

  /** What the first CloseWrite of a run to store its error was given. */
  ghost function FirstCloseWrite(s: State, es: seq<Event>): Option<Option<Error>>
    decreases |es|
  {
    if es == [] || !Enabled(s, es[0]) then None
    else if ClosesWrite(s, es[0]).Some? then ClosesWrite(s, es[0])
    else FirstCloseWrite(Next(s, es[0]), es[1..])
  }

  ghost function FirstCloseRead(s: State, es: seq<Event>): Option<Option<Error>>
    decreases |es|
  {
    if es == [] || !Enabled(s, es[0]) then None
    else if ClosesRead(s, es[0]).Some? then ClosesRead(s, es[0])
    else FirstCloseRead(Next(s, es[0]), es[1..])
  }

  /** What one event does to the stored errors: the first to store decides, with its argument
      or, without one, EOF for writes and ErrClosedPipe for reads. */
  lemma StoringStep(s: State, e: Event)
    requires Inv(s) && Enabled(s, e)
    ensures var m := Next(s, e).m;
            && m.werr == (if s.m.werr.Some? then s.m.werr
                          else match ClosesWrite(s, e)
                               case None => None
                               case Some(given) => Some(if given == None then EOF else given.value))
            && m.rerr == (if s.m.rerr.Some? then s.m.rerr
                          else match ClosesRead(s, e)
                               case None => None
                               case Some(given) => Some(if given == None then ErrClosedPipe else given.value))
  {
    hide LockOK;
    hide HolderOK;
    hide BytesOK;
    if e.Local? { assert CallOK(s.calls[e.i], s.m); }
  }

  lemma {:induction false} StoredFrom(s: State, es: seq<Event>, t: State)
    requires Inv(s) && OnRecord(s) && Runs(s, es, t)
    ensures t.m.werr == (if s.m.werr.Some? then s.m.werr
                         else match FirstCloseWrite(s, es)
                              case None => None
                              case Some(given) => Some(if given == None then EOF else given.value))
    ensures t.m.rerr == (if s.m.rerr.Some? then s.m.rerr
                         else match FirstCloseRead(s, es)
                              case None => None
                              case Some(given) => Some(if given == None then ErrClosedPipe else given.value))
    decreases |es|
  {
    hide Inv;
    hide OnRecord;
    hide Next;
    if es != [] {
      StoringStep(s, es[0]);
      StepKeeps(s, es[0]);
      StoredFrom(Next(s, es[0]), es[1..], t);
    }
  }

  /** In every run, the error stored for the readers is that of the first CloseWrite to store
      one, EOF if it was given none; the error for the writers that of the first CloseRead,
      ErrClosedPipe if it was given none. */
  lemma WhoseError(es: seq<Event>, t: State)
    requires Runs(INIT, es, t)
    ensures t.m.werr == match FirstCloseWrite(INIT, es)
                        case None => None
                        case Some(given) => Some(if given == None then EOF else given.value)
    ensures t.m.rerr == match FirstCloseRead(INIT, es)
                        case None => None
                        case Some(given) => Some(if given == None then ErrClosedPipe else given.value)
    ensures Owned(t)
  {
    InitOK();
    StoredFrom(INIT, es, t);
    OwnedFrom(INIT, es, t);
  }

  lemma InitOK()
    ensures Inv(INIT) && OnRecord(INIT)
  {
  }

  /** A call that has closed one side, and the error it gave or, giving none, `usual`. */
  ghost predicate Closer(c: Call, write: bool, usual: Error, x: Error)
  {
    && (if write then c.op.CloseWrite? else c.op.CloseRead?) && (c.pc == CClose || c.pc == CDone)
    && x == (if c.op.err == None then usual else c.op.err.value)
  }

  ghost predicate Owned(s: State)
  {
    && (s.m.werr.Some? ==> exists i | 0 <= i < |s.calls| :: Closer(s.calls[i], true, EOF, s.m.werr.value))
    && (s.m.rerr.Some? ==> exists i | 0 <= i < |s.calls| :: Closer(s.calls[i], false, ErrClosedPipe, s.m.rerr.value))
  }

  /** A closer stays one. */
  lemma CloserStays(s: State, e: Event, i: nat, write: bool, usual: Error, x: Error)
    requires Enabled(s, e) && i < |s.calls| && Closer(s.calls[i], write, usual, x)
    ensures i < |Next(s, e).calls| && Closer(Next(s, e).calls[i], write, usual, x)
  {
  }

  lemma OwnedStep(s: State, e: Event)
    requires Inv(s) && Owned(s) && Enabled(s, e)
    ensures Owned(Next(s, e))
  {
    hide Inv;
    StoringStep(s, e);
    var t := Next(s, e);
    if s.m.werr.Some? {
      var i :| 0 <= i < |s.calls| && Closer(s.calls[i], true, EOF, s.m.werr.value);
      CloserStays(s, e, i, true, EOF, s.m.werr.value);
    } else if t.m.werr.Some? {
      assert Closer(t.calls[e.i], true, EOF, t.m.werr.value);
    }
    if s.m.rerr.Some? {
      var i :| 0 <= i < |s.calls| && Closer(s.calls[i], false, ErrClosedPipe, s.m.rerr.value);
      CloserStays(s, e, i, false, ErrClosedPipe, s.m.rerr.value);
    } else if t.m.rerr.Some? {
      assert Closer(t.calls[e.i], false, ErrClosedPipe, t.m.rerr.value);
    }
  }

  lemma {:induction false} OwnedFrom(s: State, es: seq<Event>, t: State)
    requires Inv(s) && OnRecord(s) && Owned(s) && Runs(s, es, t)
    ensures Owned(t)
    decreases |es|
  {
    hide Inv;
    hide OnRecord;
    hide Owned;
    hide Next;
    if es != [] {
      StepKeeps(s, es[0]);
      OwnedStep(s, es[0]);
      OwnedFrom(Next(s, es[0]), es[1..], t);
    }
  }

  /** In terms of calls: while nobody closes the reading side, and the writing side is only
      closed without an error, every read that fails returns EOF; and every write that fails
      returns an error of the reading side, if nobody closes the writing side. */
  lemma ReadersSeeEOF(es: seq<Event>, t: State, r: nat)
    requires Runs(INIT, es, t) && r < |t.calls| && t.calls[r].pc.RDone? && t.calls[r].pc.err.Some?
    requires forall i | 0 <= i < |t.calls| :: !t.calls[i].op.CloseRead?
    requires forall i | 0 <= i < |t.calls| && t.calls[i].op.CloseWrite? :: t.calls[i].op.err == None
    ensures t.calls[r].pc.err == Some(EOF)
  {
    InitOK();
    OwnedFrom(INIT, es, t);
    WhichError(es, t, r);
    hide Runs;
  }

  lemma WritersSeeTheirError(es: seq<Event>, t: State, w: nat)
    requires Runs(INIT, es, t) && w < |t.calls| && t.calls[w].pc.WDone? && t.calls[w].pc.err.Some?
    requires forall i | 0 <= i < |t.calls| :: !t.calls[i].op.CloseWrite?
    ensures exists i | 0 <= i < |t.calls| :: Closer(t.calls[i], false, ErrClosedPipe, t.calls[w].pc.err.value)
  {
    InitOK();
    OwnedFrom(INIT, es, t);
    WhichError(es, t, w);
    hide Runs;
  }

  /** Errors once stored, and the end of the pipe, stay. */
  lemma {:induction false} ClosedForGood(s: State, es: seq<Event>, t: State)
    requires Runs(s, es, t)
    ensures Later(s.m, t.m)
    decreases |es|
  {
    if es != [] {
      ClosedForGood(Next(s, es[0]), es[1..], t);
    }
  }

  // ---------- no call waits for nothing ----------

  ghost predicate Stuck(s: State) { forall e: Event | !e.Start? :: !Enabled(s, e) }

  predicate Finished(pc: PC) { pc.RDone? || pc.WDone? || pc.CDone? }

  /** When nothing can move, calls wait only on one side: reads for a write, or one write,
      and behind it others for wrMu, for a read.  Once the pipe is closed nothing waits. */
  lemma StuckMeansWaiting(es: seq<Event>, t: State)
    requires Runs(INIT, es, t) && Stuck(t)
    ensures forall i | 0 <= i < |t.calls| ::
              Finished(t.calls[i].pc)
              || (!t.m.done && (t.calls[i].pc == RWait || t.calls[i].pc == WLock || Goes(t.calls[i].pc)))
    ensures forall r, w | 0 <= r < |t.calls| && 0 <= w < |t.calls| :: !(t.calls[r].pc == RWait && Goes(t.calls[w].pc))
    ensures forall i | 0 <= i < |t.calls| && t.calls[i].pc == WLock ::
              t.m.lock.Some? && t.m.lock.value < |t.calls| && Goes(t.calls[t.m.lock.value].pc)
  {
    RunInv(es, t);
    forall i | 0 <= i < |t.calls|
      ensures Finished(t.calls[i].pc)
        || (!t.m.done && (t.calls[i].pc == RWait || t.calls[i].pc == WLock || Goes(t.calls[i].pc)))
    {
      NobodyHolds(es, t);
      StuckCall(t, i);
    }
    forall r, w | 0 <= r < |t.calls| && 0 <= w < |t.calls| ensures !(t.calls[r].pc == RWait && Goes(t.calls[w].pc)) {
      assert !Enabled(t, Offer(w, r));
    }
    forall i | 0 <= i < |t.calls| && t.calls[i].pc == WLock
      ensures t.m.lock.Some? && t.m.lock.value < |t.calls| && Goes(t.calls[t.m.lock.value].pc)
    {
      NobodyHolds(es, t);
      LockWaits(t, i);
    }
  }

  /** A read that has received can always go on. */
  lemma NobodyHolds(es: seq<Event>, t: State)
    requires Runs(INIT, es, t) && Stuck(t)
    ensures Inv(t) && t.holder == None
    ensures forall i | 0 <= i < |t.calls| :: !t.calls[i].pc.RCopy? && !t.calls[i].pc.RAck? && !t.calls[i].pc.WAck?
  {
    RunInv(es, t);
    hide BytesOK;
    hide CallOK;
    if t.holder.Some? {
      HolderCanMove(t);
      assert false;
    }
  }

  lemma HolderCanMove(t: State)
    requires Inv(t) && t.holder.Some?
    ensures Enabled(t, Local(t.holder.value)) || (t.m.lock.Some? && Enabled(t, Ack(t.holder.value, t.m.lock.value)))
  {
    hide BytesOK;
    hide CallOK;
  }

  lemma LockWaits(t: State, i: nat)
    requires Inv(t) && Stuck(t) && t.holder == None && i < |t.calls| && t.calls[i].pc == WLock
    ensures t.m.lock.Some? && t.m.lock.value < |t.calls| && Goes(t.calls[t.m.lock.value].pc)
  {
    hide BytesOK;
    assert !Enabled(t, Local(i));
    var w := t.m.lock.value;
    assert !Enabled(t, Local(w));
  }

  lemma StuckCall(t: State, i: nat)
    requires Inv(t) && Stuck(t) && i < |t.calls|
    requires !t.calls[i].pc.RCopy? && !t.calls[i].pc.RAck? && !t.calls[i].pc.WAck? && t.holder == None
    ensures Finished(t.calls[i].pc)
      || (!t.m.done && (t.calls[i].pc == RWait || t.calls[i].pc == WLock || Goes(t.calls[i].pc)))
  {
    hide BytesOK;
    assert !Enabled(t, Local(i));
    assert CallOK(t.calls[i], t.m);
    if t.calls[i].pc == WLock {
      LockWaits(t, i);
      assert !Enabled(t, Local(t.m.lock.value));
    }
  }

  /** How far a call still has to go. */
  function Ahead(pc: PC): nat
  {
    match pc
    case RStart => 6
    case RWait => 5
    case RCopy(_) => 3
    case RAck(_) => 2
    case RLoad => 2
    case RLoad2(_) => 1
    case WStart => 6
    case WLock => 5
    case WLoop(_, _, _) => 4
    case WAck(_, _) => 5
    case WLoad(_) => 2
    case WLoad2(_, _) => 1
    case CStore => 2
    case CClose => 1
    case _ => 0
  }

  function Work(calls: seq<Call>): nat { if calls == [] then 0 else Ahead(calls[0].pc) + Work(calls[1..]) }

  lemma {:induction false} WorkAt(calls: seq<Call>, i: nat, pc: PC)
    requires i < |calls|
    ensures Work(At(calls, i, pc)) == Work(calls) - Ahead(calls[i].pc) + Ahead(pc)
  {
    hide Ahead;
    if i == 0 {
      assert At(calls, i, pc)[1..] == calls[1..];
    } else {
      WorkAt(calls[1..], i - 1, pc);
      assert At(calls, i, pc)[1..] == At(calls[1..], i - 1, pc);
    }
  }

  lemma LocalWorks(c: Call, i: nat, m: Shared)
    requires LocalEnabled(c, m)
    ensures Ahead(LocalStep(c, i, m).0) < Ahead(c.pc)
  {
  }

  lemma MeetingWorks(calls: seq<Call>, i: nat, p: PC, j: nat, q: PC)
    requires i < |calls| && j < |calls| && i != j && Ahead(p) + Ahead(q) < Ahead(calls[i].pc) + Ahead(calls[j].pc)
    ensures Work(At(At(calls, i, p), j, q)) < Work(calls)
  {
    hide Work;
    hide Ahead;
    WorkAt(calls, i, p);
    WorkAt(At(calls, i, p), j, q);
  }

  lemma StepWorks(s: State, e: Event)
    requires Enabled(s, e) && !e.Start?
    ensures Work(Next(s, e).calls) < Work(s.calls)
  {
    hide LocalStep;
    hide Work;
    match e
    case Local(i) =>
      LocalWorks(s.calls[i], i, s.m);
      WorkAt(s.calls, i, LocalStep(s.calls[i], i, s.m).0);
    case Offer(w, r) =>
      var pc := s.calls[w].pc;
      MeetingWorks(s.calls, w, WAck(pc.rest, pc.n), r, RCopy(pc.rest));
    case Ack(r, w) =>
      var got := s.calls[r].pc.got;
      MeetingWorks(s.calls, r, RDone(|got|, got, None), w, Next(s, e).calls[w].pc);
  }

  /** The calls there are come to rest: no run without new calls is longer than their work. */
  lemma {:induction false} CallsComeToRest(s: State, es: seq<Event>, t: State)
    requires Runs(s, es, t) && forall k | 0 <= k < |es| :: !es[k].Start?
    ensures |es| + Work(t.calls) <= Work(s.calls)
    decreases |es|
  {
    hide Next;
    hide Enabled;
    if es != [] {
      StepWorks(s, es[0]);
      CallsComeToRest(Next(s, es[0]), es[1..], t);
    }
  }
}

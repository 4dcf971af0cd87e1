/** bufio/bufio.go, the Writer: what has reached the underlying writer and what is still
    buffered make up exactly what the callers were told was accepted. */
module BufWriter {
  import opened Basics
  import opened Io

  /** How an io.Writer may answer: it takes everything, or it fails having taken some. */
  datatype Answer = Takes | Fails(n: nat, err: Error)

  /** The next answer of a writer with this plan, and how many of n bytes it takes. */
  function Coming(plan: seq<Answer>): Answer { if plan == [] then Takes else plan[0] }

  function Taken(a: Answer, n: nat): nat { if a.Fails? && a.n < n then a.n else n }

  /** Between two moments, the errors of a bufio.Writer come from its underlying writer only:
      that was asked some times, and took everything, but for the last time if there is an
      error, which is then the one it gave. */
  ghost predicate Blamed(before: seq<Answer>, after: seq<Answer>, err: Option<Error>)
  {
    var k := |before| - |after|;
    && k >= 0 && after == before[k..]
    && (forall i | 0 <= i < k - 1 :: before[i].Takes?)
    && (if err == None then k > 0 ==> before[k - 1].Takes?
        else k > 0 && before[k - 1].Fails? && before[k - 1].err == err.value)
  }

  lemma BlamedMore(a: seq<Answer>, b: seq<Answer>, c: seq<Answer>, err: Option<Error>)
    requires Blamed(a, b, None) && Blamed(b, c, err)
    ensures Blamed(a, c, err)
  {
    var j, k := |a| - |b|, |a| - |c|;
    assert forall i | j <= i < k :: a[i] == b[i - j];
  }

  /** An io.Writer that obeys its contract; when the planned answers are used up it takes all. */
  class Sink {
    var delivered: seq<byte>
    var plan: seq<Answer>

    constructor (plan: seq<Answer>)
      ensures delivered == [] && this.plan == plan
    {
      delivered, this.plan := [], plan;
    }

    method Write(p: seq<byte>) returns (n: nat, err: Option<Error>)
      modifies this
      ensures n <= |p| && delivered == old(delivered) + p[..n]
      ensures n < |p| ==> err.Some?
      ensures n == Taken(Coming(old(plan)), |p|)
      ensures var a := if old(plan) == [] then Takes else old(plan)[0];
              plan == (if old(plan) == [] then [] else old(plan)[1..]) && err == if a.Fails? then Some(a.err) else None
    {
      var a := if plan == [] then Takes else plan[0];
      if plan != [] { plan := plan[1..]; }
      n := if a.Fails? && a.n < |p| then a.n else |p|;
      err := if a.Fails? then Some(a.err) else None;
      delivered := delivered + p[..n];
    }
  }

  datatype Op = Write(p: seq<byte>) | WriteString(s: seq<byte>) | WriteByte(c: byte) | Flush

  class Writer {
    var err: Option<Error>
    const buf: array<byte>
    var n: nat
    const wr: Sink

    constructor (wr: Sink, size: nat)
      requires size > 0
      ensures Valid() && err == None && n == 0 && this.wr == wr && fresh(buf) && buf.Length == size
    {
      this.wr := wr;
      buf := new byte[size](_ => 0);
      err, n := None, 0;
    }

    ghost predicate Valid()
      reads this
    {
      n <= buf.Length && buf.Length > 0
    }

    /** Delivered, then buffered. */
    ghost function Accepted(): seq<byte>
      requires Valid()
      reads this, buf, wr
    {
      wr.delivered + buf[..n]
    }

    /** Flush */
    method Flush() returns (e: Option<Error>)
      requires Valid()
      modifies this`err, this`n, buf, wr
      ensures Valid() && Accepted() == old(Accepted()) && e == err
      ensures old(err).Some? ==> err == old(err) && n == old(n) && wr.delivered == old(wr.delivered)
      ensures err == None ==> n == 0
      ensures old(err).Some? || old(n) == 0 ==> wr.delivered == old(wr.delivered) && wr.plan == old(wr.plan)
      ensures old(err) == None && old(n) > 0 && Coming(old(wr.plan)).Takes? ==>
                err == None && wr.delivered == old(Accepted())
      ensures old(err) == None && old(n) > 0 && Coming(old(wr.plan)).Fails? ==>
                var a := Coming(old(wr.plan));
                err == Some(a.err) && wr.delivered == old(wr.delivered) + old(buf[..n])[..Taken(a, old(n))]
      ensures old(err) == None ==> Blamed(old(wr.plan), wr.plan, err)
    {
      if err != None { return err; }
      if n == 0 { return None; }
      var k;
      k, e := wr.Write(buf[..n]);
      if k < n && e == None { e := Some(ErrShortWrite); }
      if e != None {
        ghost var rest := buf[k..n];
        assert buf[..n] == buf[..n][..k] + rest;
        if k > 0 && k < n {
          forall i | 0 <= i < n - k { buf[i] := buf[k + i]; }
        }
        n := n - k;
        assert buf[..n] == rest;
        err := e;
        return e;
      }
      assert buf[..n][..k] == buf[..n];
      n := 0;
      return None;
    }

    /** copy(b.buf[b.n:], p); b.n += n */
    method Append(p: seq<byte>) returns (k: nat)
      requires Valid()
      modifies this`n, buf
      ensures Valid() && k == (if |p| < buf.Length - old(n) then |p| else buf.Length - old(n))
      ensures n == old(n) + k && Accepted() == old(Accepted()) + p[..k]
    {
      k := if |p| < buf.Length - n then |p| else buf.Length - n;
      forall i | n <= i < n + k { buf[i] := p[i - n]; }
      assert buf[..n + k] == buf[..n] + p[..k];
      n := n + k;
    }

    /** One round of Write: straight to the underlying writer if nothing is buffered. */
    method WriteStep(rest: seq<byte>) returns (k: nat)
      requires Valid() && err == None && |rest| > buf.Length - n
      modifies this`err, this`n, buf, wr
      ensures Valid() && k <= |rest| && Accepted() == old(Accepted()) + rest[..k]
      ensures err == None ==> k > 0 || n < old(n)
      ensures Blamed(old(wr.plan), wr.plan, err)
    {
      if n == 0 {
        assert buf[..n] == [];
        k, err := wr.Write(rest);
      } else {
        k := FlushStep(rest);
      }
    }

    /** One round of WriteString: through the buffer. */
    method FlushStep(rest: seq<byte>) returns (k: nat)
      requires Valid() && err == None && |rest| > buf.Length - n
      modifies this`err, this`n, buf, wr
      ensures Valid() && k <= |rest| && Accepted() == old(Accepted()) + rest[..k]
      ensures err == None ==> k > 0 || n < old(n)
      ensures Blamed(old(wr.plan), wr.plan, err)
    {
      k := Append(rest);
      var _ := Flush();
    }

    /** Write */
    method Write(p: seq<byte>) returns (nn: nat, e: Option<Error>)
      requires Valid()
      modifies this`err, this`n, buf, wr
      ensures Valid() && nn <= |p| && Accepted() == old(Accepted()) + p[..nn] && e == err
      ensures e == None ==> nn == |p|
      ensures old(err) == None && |p| <= buf.Length - old(n) ==> e == None && wr.delivered == old(wr.delivered)
      ensures old(err).Some? ==> nn == 0 && err == old(err) && n == old(n) && wr.delivered == old(wr.delivered)
      ensures if old(err) == None then Blamed(old(wr.plan), wr.plan, err) else wr.plan == old(wr.plan)
    {
      hide Blamed;
      BlamedNobody(wr.plan);
      nn := 0;
      var rest := p;
      assert p[..0] == [] && p[0..] == p;
      while |rest| > buf.Length - n && err == None
        invariant Valid() && nn <= |p| && rest == p[nn..] && Accepted() == old(Accepted()) + p[..nn]
        invariant old(err) == None && |p| <= buf.Length - old(n) ==>
          nn == 0 && err == None && n == old(n) && wr.delivered == old(wr.delivered)
        invariant old(err).Some? ==> nn == 0 && err == old(err) && n == old(n) && wr.delivered == old(wr.delivered)
        invariant if old(err) == None then Blamed(old(wr.plan), wr.plan, err) else wr.plan == old(wr.plan)
        decreases if err == None then 1 else 0, |rest|, n
      {
        ghost var before := wr.plan;
        var k := WriteStep(rest);
        BlamedMore(old(wr.plan), before, wr.plan, err);
        Pieces(p, nn, k);
        nn := nn + k;
        rest := rest[k..];
      }
      if err != None { return nn, err; }
      var k := Append(rest);
      Pieces(p, nn, k);
      nn := nn + k;
      return nn, None;
    }

    /** WriteString: the same without the direct way. */
    method WriteString(p: seq<byte>) returns (nn: nat, e: Option<Error>)
      requires Valid()
      modifies this`err, this`n, buf, wr
      ensures Valid() && nn <= |p| && Accepted() == old(Accepted()) + p[..nn] && e == err
      ensures e == None ==> nn == |p|
      ensures old(err) == None && |p| <= buf.Length - old(n) ==> e == None && wr.delivered == old(wr.delivered)
      ensures old(err).Some? ==> nn == 0 && err == old(err) && n == old(n) && wr.delivered == old(wr.delivered)
      ensures if old(err) == None then Blamed(old(wr.plan), wr.plan, err) else wr.plan == old(wr.plan)
    {
      hide Blamed;
      BlamedNobody(wr.plan);
      nn := 0;
      var rest := p;
      assert p[..0] == [] && p[0..] == p;
      while |rest| > buf.Length - n && err == None
        invariant Valid() && nn <= |p| && rest == p[nn..] && Accepted() == old(Accepted()) + p[..nn]
        invariant old(err) == None && |p| <= buf.Length - old(n) ==>
          nn == 0 && err == None && n == old(n) && wr.delivered == old(wr.delivered)
        invariant old(err).Some? ==> nn == 0 && err == old(err) && n == old(n) && wr.delivered == old(wr.delivered)
        invariant if old(err) == None then Blamed(old(wr.plan), wr.plan, err) else wr.plan == old(wr.plan)
        decreases if err == None then 1 else 0, |rest|, n
      {
        ghost var before := wr.plan;
        var k := FlushStep(rest);
        BlamedMore(old(wr.plan), before, wr.plan, err);
        Pieces(p, nn, k);
        nn := nn + k;
        rest := rest[k..];
      }
      if err != None { return nn, err; }
      var k := Append(rest);
      Pieces(p, nn, k);
      nn := nn + k;
      return nn, None;
    }

    /** WriteByte */
    method WriteByte(c: byte) returns (e: Option<Error>)
      requires Valid()
      modifies this`err, this`n, buf, wr
      ensures Valid() && e == err && Accepted() == old(Accepted()) + if e == None then [c] else []
      ensures old(err) == None && old(n) < buf.Length ==> e == None && wr.delivered == old(wr.delivered)
      ensures old(err).Some? ==> err == old(err) && n == old(n) && wr.delivered == old(wr.delivered)
      ensures if old(err) == None then Blamed(old(wr.plan), wr.plan, err) else wr.plan == old(wr.plan)
    {
      if err != None { return err; }
      if buf.Length - n <= 0 {
        var f := Flush();
        if f != None { return err; }
      }
      ghost var before := buf[..n];
      buf[n] := c;
      n := n + 1;
      assert buf[..n] == before + [c];
      return None;
    }
  }

  lemma Pieces(p: seq<byte>, a: nat, k: nat)
    requires a + k <= |p|
    ensures p[..a + k] == p[..a] + p[a..][..k] && p[a..][k..] == p[a + k..]
    ensures a + k == |p| ==> p[..a + k] == p
  {
  }

  // ---------- runs ----------

  function Data(op: Op): seq<byte>
  {
    match op
    case Write(p) => p
    case WriteString(s) => s
    case WriteByte(c) => [c]
    case Flush => []
  }

  /** What a call reported: how many bytes it accepted, and whether it failed. */
  datatype Report = Report(n: nat, err: Option<Error>)

  ghost function Prefixes(ops: seq<Op>, reports: seq<Report>): seq<byte>
    requires |reports| <= |ops|
    requires forall i | 0 <= i < |reports| :: reports[i].n <= |Data(ops[i])|
  {
    if reports == [] then []
    else var k := |reports| - 1; Prefixes(ops, reports[..k]) + Data(ops[k])[..reports[k].n]
  }

  /** Failures last, and what does not fail is complete. */
  ghost predicate Sticky(ops: seq<Op>, reports: seq<Report>)
    requires |reports| <= |ops|
  {
    && (forall i | 0 <= i < |reports| ::
        reports[i].n <= |Data(ops[i])| && (reports[i].err == None ==> reports[i].n == |Data(ops[i])|))
    && (forall i, j | 0 <= i < j < |reports| && reports[i].err.Some? :: reports[j] == Report(0, reports[i].err))
  }

  /** The bytes reported as accepted, in order. */
  ghost function Total(ops: seq<Op>, reports: seq<Report>): seq<byte>
    requires |reports| <= |ops| && Sticky(ops, reports)
  {
    Prefixes(ops, reports)
  }

  lemma PrefixesMore(ops: seq<Op>, reports: seq<Report>, r: Report)
    requires |reports| < |ops| && forall i | 0 <= i < |reports| :: reports[i].n <= |Data(ops[i])|
    requires r.n <= |Data(ops[|reports|])|
    ensures Prefixes(ops, reports + [r]) == Prefixes(ops, reports) + Data(ops[|reports|])[..r.n]
  {
    assert (reports + [r])[..|reports|] == reports;
  }

  lemma StickyMore(ops: seq<Op>, reports: seq<Report>, r: Report)
    requires |reports| < |ops| && Sticky(ops, reports)
    requires r.n <= |Data(ops[|reports|])| && (r.err == None ==> r.n == |Data(ops[|reports|])|)
    requires reports != [] && reports[|reports| - 1].err.Some? ==> r == Report(0, reports[|reports| - 1].err)
    ensures Sticky(ops, reports + [r])
    ensures Total(ops, reports + [r]) == Total(ops, reports) + Data(ops[|reports|])[..r.n]
  {
    hide Data;
    hide Prefixes;
    PrefixesMore(ops, reports, r);
  }

  /** One call. */
  method Do(b: Writer, op: Op) returns (r: Report)
    requires b.Valid()
    modifies b`err, b`n, b.buf, b.wr
    ensures b.Valid() && r.n <= |Data(op)| && b.Accepted() == old(b.Accepted()) + Data(op)[..r.n] && r.err == b.err
    ensures r.err == None ==> r.n == |Data(op)|
    ensures old(b.err).Some? ==> r == Report(0, old(b.err)) && b.wr.delivered == old(b.wr.delivered)
    ensures if old(b.err) == None then Blamed(old(b.wr.plan), b.wr.plan, b.err) else b.wr.plan == old(b.wr.plan)
  {
    match op
    case Write(p) =>
      var n, e := b.Write(p);
      r := Report(n, e);
    case WriteString(s) =>
      var n, e := b.WriteString(s);
      r := Report(n, e);
    case WriteByte(c) =>
      var e := b.WriteByte(c);
      r := Report(if e == None then 1 else 0, e);
      assert [c][..0] == [] && [c][..1] == [c];
    case Flush =>
      var e := b.Flush();
      r := Report(0, e);
  }

  /** Any run of calls: nothing is lost, doubled or reordered, and once a call has failed all
      later ones fail with the same error and accept nothing; and the first failure is one of
      the underlying writer. */
  method Run(b: Writer, ops: seq<Op>) returns (reports: seq<Report>)
    requires b.Valid() && b.Accepted() == []
    modifies b`err, b`n, b.buf, b.wr
    ensures b.Valid() && |reports| == |ops| && Sticky(ops, reports) && b.Accepted() == Total(ops, reports)
    ensures ops != [] ==> b.err == reports[|ops| - 1].err
    ensures old(b.err) == None ==> Blamed(old(b.wr.plan), b.wr.plan, b.err)
  {
    hide Prefixes;
    hide Data;
    hide Sticky;
    hide Blamed;
    PrefixesNone(ops);
    BlamedNobody(b.wr.plan);
    reports := [];
    hide Total;
    for k := 0 to |ops|
      invariant b.Valid() && |reports| == k && Sticky(ops, reports)
      invariant b.Accepted() == Total(ops, reports)
      invariant if k > 0 then b.err == reports[k - 1].err else b.err == old(b.err)
      invariant old(b.err) == None ==> Blamed(old(b.wr.plan), b.wr.plan, b.err)
    {
      ghost var before, failed := b.wr.plan, b.err;
      var r := Do(b, ops[k]);
      if old(b.err) == None && failed == None { BlamedMore(old(b.wr.plan), before, b.wr.plan, b.err); }
      StickyMore(ops, reports, r);
      reports := reports + [r];
    }
  }

  lemma BlamedNobody(plan: seq<Answer>)
    ensures Blamed(plan, plan, None)
  {
  }

  /** The data of all calls. */
  function AllData(ops: seq<Op>): seq<byte>
  {
    if ops == [] then [] else AllData(ops[..|ops| - 1]) + Data(ops[|ops| - 1])
  }

  lemma {:induction false} NoFailures(ops: seq<Op>, reports: seq<Report>)
    requires |reports| <= |ops| && Sticky(ops, reports)
    requires reports != [] ==> reports[|reports| - 1].err == None
    ensures forall i | 0 <= i < |reports| :: reports[i].err == None
    ensures Total(ops, reports) == AllData(ops[..|reports|])
  {
    if reports != [] {
      var k := |reports| - 1;
      if k > 0 { assert reports[k - 1].err == None; }
      NoFailures(ops, reports[..k]);
      assert ops[..k + 1][..k] == ops[..k];
    }
  }

  /** Over a writer that takes everything, no call fails, and after a last Flush all data has
      reached it, in order. */
  method RunAndFlush(b: Writer, ops: seq<Op>) returns (reports: seq<Report>, e: Option<Error>)
    requires b.Valid() && b.Accepted() == [] && b.err == None && forall a | a in b.wr.plan :: a.Takes?
    modifies b`err, b`n, b.buf, b.wr
    ensures |reports| == |ops| && e == None && forall r | r in reports :: r.err == None
    ensures b.Valid() && b.wr.delivered == AllData(ops)
  {
    ghost var plan := b.wr.plan;
    reports := Run(b, ops);
    NoBlame(plan, b.wr.plan, b.err);
    NoFailures(ops, reports);
    assert ops[..|ops|] == ops;
    ghost var later := b.wr.plan;
    e := b.Flush();
    NoBlame(later, b.wr.plan, e);
    assert b.Accepted() == b.wr.delivered;
  }

  lemma NoBlame(before: seq<Answer>, after: seq<Answer>, err: Option<Error>)
    requires Blamed(before, after, err) && forall a | a in before :: a.Takes?
    ensures err == None && forall a | a in after :: a.Takes?
  {
    var k := |before| - |after|;
    assert k > 0 ==> before[k - 1] in before;
    forall a | a in after ensures a.Takes? {
      var i :| 0 <= i < |after| && after[i] == a;
      assert before[k + i] in before;
    }
  }

  lemma PrefixesNone(ops: seq<Op>)
    ensures Sticky(ops, []) && Total(ops, []) == []
  {
  }
}

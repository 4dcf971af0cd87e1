/** bufio/scan.go: a Scanner cuts what a reader delivers, in pieces of any size, into the
    same tokens as its split function cuts the whole input. */
module Scanner {
  import opened Basics
  import opened Io

  const MAX_INT := 0x7FFF_FFFF_FFFF_FFFF
  const START_BUF_SIZE := 4096

  // ---------- the reader ----------

  datatype Input = Input(data: seq<byte>, final: Error)

  /** All that a reader which will answer `plan` still delivers, up to its first error, when
      its last `idle` answers were empty: too many of those in a row are an error, too. */
  function Stream(plan: seq<Answer>, idle: nat): Input
    decreases |plan|
  {
    if idle > MAX_EMPTY_READS then Input([], ErrNoProgress)
    else if plan == [] then Input([], EOF)
    else if plan[0].err.Some? then Input(plan[0].data, plan[0].err.value)
    else if plan[0].data == [] then Stream(plan[1..], idle + 1)
    else var rest := Stream(plan[1..], 0); Input(plan[0].data + rest.data, rest.final)
  }

  /** What one more answer does to the stream. */
  lemma StreamStep(plan: seq<Answer>, idle: nat, room: nat)
    requires idle <= MAX_EMPTY_READS && room > 0
    ensures Stream(plan, idle) == After(Reply(plan, room).data, Reply(plan, room).err, Remaining(plan, room), idle)
  {
    if plan != [] && |plan[0].data| > room {
      var data, rest := plan[0].data, Remaining(plan, room);
      assert rest[1..] == plan[1..];
      var tail := Stream(plan[1..], 0).data;
      assert data[..room] + data[room..] == data;
      assert data[..room] + (data[room..] + tail) == data + tail;
    }
  }

  /** The stream, once an answer was read: data, perhaps an error, and what is left of the plan. */
  ghost function After(data: seq<byte>, err: Option<Error>, plan: seq<Answer>, idle: nat): Input
  {
    if err.Some? then Input(data, err.value)
    else if data == [] then Stream(plan, idle + 1)
    else Input(data + Stream(plan, 0).data, Stream(plan, 0).final)
  }

  lemma StreamIdle(plan: seq<Answer>, idle: nat)
    requires idle > MAX_EMPTY_READS
    ensures Stream(plan, idle) == Input([], ErrNoProgress)
  {
  }

  /** Data answers in front of a plan come first in its stream. */
  lemma {:induction false} StreamJoin(a: seq<Answer>, plan: seq<Answer>)
    requires forall i | 0 <= i < |a| :: a[i].err == None && a[i].data != []
    ensures Stream(a + plan, 0) == Input(DataOf(a) + Stream(plan, 0).data, Stream(plan, 0).final)
  {
    hide Stream;
    if a == [] {
      assert a + plan == plan;
      assert [] + Stream(plan, 0).data == Stream(plan, 0).data;
    } else {
      StreamJoin(a[1..], plan);
      assert (a + plan)[0] == a[0] && (a + plan)[1..] == a[1..] + plan;
      StreamFirst(a[0].data, a + plan);
      var tail := Stream(plan, 0).data;
      assert a[0].data + (DataOf(a[1..]) + tail) == (a[0].data + DataOf(a[1..])) + tail;
    }
  }

  lemma StreamFirst(data: seq<byte>, plan: seq<Answer>)
    requires plan != [] && plan[0] == Answer(data, None) && data != []
    ensures Stream(plan, 0) == Input(data + Stream(plan[1..], 0).data, Stream(plan[1..], 0).final)
  {
  }

  /** An error ends the stream, after the data that comes with it; without one it ends in EOF. */
  lemma StreamEnds(data: seq<byte>, e: Error, plan: seq<Answer>)
    ensures Stream([Answer(data, Some(e))] + plan, 0) == Input(data, e)
    ensures Stream([], 0) == Input([], EOF)
  {
  }

  /** A hundred empty answers in a row are passed over, and one more ends the stream. */
  lemma {:induction false} StreamPauses(n: nat, idle: nat, plan: seq<Answer>)
    requires plan == [] || plan[0].data != [] || plan[0].err.Some?
    ensures Stream(Pauses(n) + plan, idle) == if idle + n <= 100 then Stream(plan, 0) else Input([], ErrNoProgress)
    decreases n
  {
    var all := Pauses(n) + plan;
    if n == 0 {
      assert all == plan;
    } else if idle <= 100 {
      StreamPauses(n - 1, idle + 1, plan);
      assert all[0] == Answer([], None) && all[1..] == Pauses(n - 1) + plan;
    }
  }

  // ---------- the split functions ----------

  datatype Split = Split(advance: int, token: Option<seq<byte>>)

  type SplitFunc = (seq<byte>, bool) -> Split

  function DropCR(data: seq<byte>): seq<byte>
  {
    if |data| > 0 && data[|data| - 1] == 13 then data[..|data| - 1] else data
  }

  /** The place of the first newline, or -1. */
  function Newline(data: seq<byte>): (i: int)
    ensures -1 <= i < |data| && (i >= 0 ==> data[i] == 10)
    ensures forall j | 0 <= j < |data| && (j < i || i == -1) :: data[j] != 10
  {
    if data == [] then -1
    else if data[0] == 10 then 0
    else var i := Newline(data[1..]); if i < 0 then -1 else i + 1
  }

  function ScanLines(data: seq<byte>, atEOF: bool): Split
  {
    if atEOF && |data| == 0 then Split(0, None)
    else var i := Newline(data);
      if i >= 0 then Split(i + 1, Some(DropCR(data[..i])))
      else if atEOF then Split(|data|, Some(DropCR(data)))
      else Split(0, None)
  }

  function ScanBytes(data: seq<byte>, atEOF: bool): Split
  {
    if data == [] then Split(0, None) else Split(1, Some(data[..1]))
  }

  /** A split function that makes up its mind once: a token found in part of the data is the
      token found however the data goes on; at the end of the data there is always one. */
  ghost predicate Stable(split: SplitFunc)
  {
    && split([], true) == Split(0, None)
    && (forall data, end | data != [] || end :: Sound(split(data, end), data, end))
    && (forall data, more, end | data != [] && split(data, false).token.Some? ::
        split(data + more, end) == split(data, false))
  }

  ghost predicate Sound(r: Split, data: seq<byte>, end: bool)
  {
    && (r.token == None ==> r.advance == 0 && (end ==> data == []))
    && (r.token.Some? ==> 0 < r.advance <= |data|)
  }

  lemma NewlineStays(data: seq<byte>, more: seq<byte>)
    requires Newline(data) >= 0
    ensures Newline(data + more) == Newline(data)
  {
    assert forall j | 0 <= j < |data| :: (data + more)[j] == data[j];
  }

  lemma ScanLinesStable()
    ensures Stable(ScanLines)
  {
    forall data, more, end | data != [] && ScanLines(data, false).token.Some?
      ensures ScanLines(data + more, end) == ScanLines(data, false)
    {
      NewlineStays(data, more);
      assert (data + more)[..Newline(data)] == data[..Newline(data)];
    }
  }

  lemma ScanBytesStable()
    ensures Stable(ScanBytes)
  {
    forall data: seq<byte>, more: seq<byte>, end | data != [] && ScanBytes(data, false).token.Some?
      ensures ScanBytes(data + more, end) == ScanBytes(data, false)
    {
      assert (data + more)[..1] == data[..1];
    }
  }

  /** The tokens of the whole input. */
  ghost function Tokens(split: SplitFunc, input: seq<byte>): seq<seq<byte>>
    requires Stable(split)
    decreases |input|
  {
    if input == [] then []
    else
      var r := split(input, true);
      assert Sound(r, input, true);
      [r.token.value] + Tokens(split, input[r.advance..])
  }

  /** The next token can be told from the first `size` bytes, or less than that, or with
      some slack just that, is left. */
  ghost predicate Here(split: SplitFunc, input: seq<byte>, size: nat, slack: nat)
  {
    |input| < size + slack || (0 < size <= |input| && split(input[..size], false).token.Some?)
  }

  /** So it is for every token. */
  ghost predicate Fits(split: SplitFunc, input: seq<byte>, size: nat, slack: nat)
    requires Stable(split)
    decreases |input|
  {
    input != [] ==>
      var r := split(input, true);
      assert Sound(r, input, true);
      Here(split, input, size, slack) && Fits(split, input[r.advance..], size, slack)
  }

  lemma MoreBytesHelp(split: SplitFunc, input: seq<byte>, size: nat, more: nat)
    requires Stable(split) && 0 < size <= more <= |input| && split(input[..size], false).token.Some?
    ensures split(input[..more], false).token.Some?
  {
    assert input[..more] == input[..size] + input[size..more];
    assert split(input[..size] + input[size..more], false) == split(input[..size], false);
  }

  // ---------- the scanner ----------

  /** The size of the buffer after it was found full, if it may grow. */
  function NextSize(size: nat, max: int): nat
    requires size < max
  {
    var twice := if size == 0 then START_BUF_SIZE else 2 * size;
    if twice > max then max else twice
  }

  /** The largest a buffer of this size can get. */
  function Largest(size: nat, max: int): (r: nat)
    ensures size <= r && (r == size || r <= max)
    ensures r >= max || r > MAX_INT / 2
    decreases max - size
  {
    if size >= max || size > MAX_INT / 2 then size else Largest(NextSize(size, max), max)
  }

  /** Where doubling without a maximum stops, for fear of overflow. */
  function Top(size: nat): (r: nat)
    ensures size <= r && r > MAX_INT / 2
    decreases MAX_INT - size
  {
    if size > MAX_INT / 2 then size else Top(if size == 0 then START_BUF_SIZE else 2 * size)
  }

  /** The largest size is the larger of the two, as the documentation says, if and only if
      the maximum can be reached before doubling stops; any maximum up to 2^62 can. */
  lemma {:induction false} LargerOfTheTwo(size: nat, max: int)
    ensures Largest(size, max) == (if max > size then max else size) <==> max <= Top(size)
    ensures max > Top(size) ==> Largest(size, max) == Top(size)
    ensures max <= MAX_INT / 2 + 1 ==> Largest(size, max) == if max > size then max else size
    decreases max - size
  {
    if size < max && size <= MAX_INT / 2 { LargerOfTheTwo(NextSize(size, max), max); }
  }

  lemma {:induction false} TopAfter(size: nat, doublings: nat)
    requires size > 0 && size * Power(2, doublings) == MAX_INT / 2 + 1
    ensures Top(size) == MAX_INT / 2 + 1
    decreases doublings
  {
    if doublings > 0 {
      var p := Power(2, doublings - 1);
      assert size * Power(2, doublings) == 2 * size * p;
      assert p > 0;
      assert 2 * size <= 2 * size * p;
      TopAfter(2 * size, doublings - 1);
    }
  }

  /** From the usual first buffer, with the largest int as maximum, 2^62 bytes are the most. */
  lemma DoublingStops()
    ensures Largest(START_BUF_SIZE, MAX_INT) == 0x4000_0000_0000_0000 < MAX_INT
  {
    assert Power(2, 10) == 1024;
    PowerAdd(2, 10, 10);
    PowerAdd(2, 20, 20);
    PowerAdd(2, 40, 10);
    TopAfter(START_BUF_SIZE, 50);
    LargerOfTheTwo(START_BUF_SIZE, MAX_INT);
  }

  class Scanner {
    const src: Source
    const split: SplitFunc
    const maxTokenSize: int
    var token: Option<seq<byte>>
    var buf: array<byte>
    var start: nat
    var end: nat
    var err: Option<Error>
    var empties: nat

    /** NewScanner, and Buffer and Split before the first call of Scan. */
    constructor (src: Source, split: SplitFunc, buf: array<byte>, max: int)
      requires Stable(split)
      ensures Valid() && err == None && this.src == src && this.split == split && this.buf == buf && maxTokenSize == max
      ensures Rest() == Stream(src.plan, 0)
    {
      this.src, this.split, this.buf, maxTokenSize := src, split, buf, max;
      token, start, end, err, empties := None, 0, 0, None, 0;
    }

    ghost predicate Valid()
      reads this
    {
      start <= end <= buf.Length && empties == 0 && Stable(split)
    }

    /** What has not been cut yet, in the buffer and still to be delivered. */
    ghost function Rest(): Input
      requires Valid()
      reads this, buf, src
    {
      var data := buf[start..end];
      if err.Some? then Input(data, err.value)
      else Input(data + Stream(src.plan, 0).data, Stream(src.plan, 0).final)
    }

    /** The buffer is as large as it may get, and full of bytes that hold no token. */
    ghost predicate Full(input: seq<byte>)
      reads this
    {
      && (buf.Length >= maxTokenSize || buf.Length > MAX_INT / 2)
      && buf.Length <= |input| && (buf.Length > 0 ==> split(input[..buf.Length], false).token == None)
    }

    /** setErr */
    method SetErr(e: Error)
      modifies this`err
      ensures err == if old(err) == None || old(err) == Some(EOF) then Some(e) else old(err)
    {
      if err == None || err == Some(EOF) { err := Some(e); }
    }

    /** advance */
    method Advance(n: int) returns (ok: bool)
      requires start <= end
      modifies this`err, this`start
      ensures ok <==> 0 <= n <= end - old(start)
      ensures ok ==> start == old(start) + n && err == old(err)
      ensures !ok ==> start == old(start)
    {
      if n < 0 {
        SetErr(ErrNegativeAdvance);
        return false;
      }
      if n > end - start {
        SetErr(ErrAdvanceTooFar);
        return false;
      }
      start := start + n;
      return true;
    }

    /** Moves what is left to the front of the buffer. */
    method Slide()
      requires Valid()
      modifies this`start, this`end, buf
      ensures Valid() && start == 0 && buf[..end] == old(buf[start..end])
    {
      var n := end - start;
      forall i | 0 <= i < n { buf[i] := buf[start + i]; }
      end := n;
      start := 0;
    }

    /** Makes room in the buffer: moves the data, then allocates a larger buffer if needed. */
    method MakeRoom() returns (ok: bool)
      requires Valid() && err == None
      modifies this`start, this`end, this`buf, this`err, buf
      ensures Valid() && (buf == old(buf) || fresh(buf))
      ensures ok ==> end < buf.Length && err == None && buf[start..end] == old(buf[start..end])
      ensures old(buf.Length) <= buf.Length
        && Largest(buf.Length, maxTokenSize) == old(Largest(buf.Length, maxTokenSize))
      ensures !ok ==> err == Some(ErrTooLong) && buf == old(buf) && start == 0 && end == buf.Length
      ensures !ok ==> buf[..] == old(buf[start..end]) && (buf.Length >= maxTokenSize || buf.Length > MAX_INT / 2)
    {
      if start > 0 && (end == buf.Length || start > buf.Length / 2) {
        Slide();
      }
      if end == buf.Length {
        if buf.Length >= maxTokenSize || buf.Length > MAX_INT / 2 {
          assert buf[..] == buf[start..end];
          SetErr(ErrTooLong);
          return false;
        }
        var newSize := buf.Length * 2;
        if newSize == 0 { newSize := START_BUF_SIZE; }
        if newSize > maxTokenSize { newSize := maxTokenSize; }
        var newBuf := new byte[newSize](_ => 0);
        var n := end - start;
        forall i | 0 <= i < n { newBuf[i] := buf[start + i]; }
        assert newBuf[..n] == buf[start..end];
        buf := newBuf;
        end := n;
        start := 0;
      }
      return true;
    }

    /** One read into the free end of the buffer. */
    method ReadOnce(ghost idle: nat) returns (n: nat, e: Option<Error>)
      requires Valid() && end < buf.Length && idle <= MAX_EMPTY_READS
      modifies this`end, buf, src
      ensures Valid() && end == old(end) + n && buf[start..old(end)] == old(buf[start..end])
      ensures old(Stream(src.plan, idle)) == After(buf[old(end)..end], e, src.plan, idle)
    {
      hide Stream;
      hide Reply;
      hide Remaining;
      hide Stable;
      StreamStep(src.plan, idle, buf.Length - end);
      ghost var front := buf[..end];
      n, e := src.Read(buf, end);
      assert buf[start..end] == front[start..];
      end := end + n;
    }

    /** Reads until there are some new bytes or an error. */
    method Fill()
      requires Valid() && err == None && end < buf.Length
      modifies this`end, this`err, this`empties, buf, src
      ensures Valid() && Rest() == old(Rest())
      ensures err == None ==> end > old(end)
    {
      hide Stream;
      hide Stable;
      ghost var was, at := buf[start..end], end;
      var loop := 0;
      while true
        invariant Valid() && err == None && end == at && 0 <= loop <= MAX_EMPTY_READS
        invariant buf[start..end] == was
        invariant Stream(src.plan, loop) == old(Stream(src.plan, 0))
        decreases MAX_EMPTY_READS - loop
      {
        var n, e := ReadOnce(loop);
        assert buf[start..end] == was + buf[at..end];
        if e != None {
          SetErr(e.value);
          break;
        }
        if n > 0 {
          ghost var more := Stream(src.plan, 0).data;
          assert was + (buf[at..end] + more) == buf[start..end] + more;
          empties := 0;
          break;
        }
        loop := loop + 1;
        if loop > MAX_EMPTY_READS {
          StreamIdle(src.plan, loop);
          SetErr(ErrNoProgress);
          break;
        }
      }
    }

    /** The first half of Scan's loop: a token from what the buffer holds. */
    method Next() returns (r: bool)
      requires Valid() && (end > start || err != None)
      modifies this`start, this`err, this`token, this`empties
      ensures Valid() && err == old(err)
      ensures r ==> old(Rest()).data != [] && Cut(old(Rest())) && Here(split, old(Rest()).data, buf.Length, 1)
      ensures !r ==> start == old(start) && split(buf[start..end], err != None).token == None
      ensures !r && err != None ==> start == end
    {
      hide Stream;
      hide Stable;
      ghost var data, rest := buf[start..end], Rest().data;
      var s := split(buf[start..end], err != None);
      CutSound();
      assert rest[..|data|] == data;
      var ok := Advance(s.advance);
      if !ok { assert false; }
      assert buf[start..end] == data[s.advance..];
      token := s.token;
      if token != None {
        if err == None || s.advance > 0 {
          empties := 0;
        } else {
          assert false;               // "too many empty tokens without progressing"
        }
        return true;
      }
      return false;
    }

    /** Scan: the next token of the whole input, whatever the pieces; or the end of it, with
        the reader's error; or a token that did not fit. */
    method Scan() returns (r: bool)
      requires Valid()
      modifies this, buf, src
      ensures Valid() && (buf == old(buf) || fresh(buf))
      ensures old(buf.Length) <= buf.Length
        && Largest(buf.Length, maxTokenSize) == old(Largest(buf.Length, maxTokenSize))
      ensures r ==> old(Rest()).data != [] && Cut(old(Rest()))
      ensures r ==> Here(split, old(Rest()).data, buf.Length, 1)
      ensures !r ==>
                || (old(Rest()) == Rest() == Input([], Rest().final) && err == Some(Rest().final))
                || (old(err) == None && err == Some(ErrTooLong) && Full(old(Rest()).data))
      ensures old(err) == None && old(Largest(buf.Length, maxTokenSize)) == 0 ==> !r && err == Some(ErrTooLong)
    {
      hide Stream;
      hide Stable;
      hide Here;
      while true
        invariant Valid() && Rest() == old(Rest()) && (buf == old(buf) || fresh(buf))
        invariant old(buf.Length) <= buf.Length
          && Largest(buf.Length, maxTokenSize) == old(Largest(buf.Length, maxTokenSize))
        invariant old(err) == None && old(Largest(buf.Length, maxTokenSize)) == 0 ==> err == None
        decreases err == None, |Rest().data| - (end - start)
      {
        if end > start || err != None {
          r := Next();
          if r { return; }
        }
        if err != None {
          start := 0;
          end := 0;
          return false;
        }
        var roomy := MakeRoom();
        if !roomy { return false; }
        Fill();
      }
    }

    /** The token is the first of the input, and what follows it is left. */
    ghost predicate Cut(input: Input)
      requires Valid()
      reads this, buf, src
    {
      && var s := split(input.data, true);
      && token.Some? && token == s.token && 0 < s.advance <= |input.data|
      && Rest() == Input(input.data[s.advance..], input.final)
    }

    /** What the split function says of the buffer is what it would say of the whole rest. */
    lemma CutSound()
      requires Valid() && (end > start || err != None)
      ensures split(buf[start..end], err != None).token.Some? ==> Here(split, Rest().data, buf.Length, 1)
      ensures Sound(split(buf[start..end], err != None), buf[start..end], err != None)
      ensures split(buf[start..end], err != None).token.Some? ==>
                Rest().data != [] && split(buf[start..end], err != None) == split(Rest().data, true)
    {
      var data := buf[start..end];
      if err == None && split(data, false).token.Some? {
        assert split(data + Stream(src.plan, 0).data, true) == split(data, false);
        assert Rest().data[..|data|] == data;
        if |Rest().data| > buf.Length { MoreBytesHelp(split, Rest().data, |data|, buf.Length); }
      }
    }
  }

  // ---------- scanning a whole input ----------

  lemma FullMeansUnfit(s: Scanner, input: seq<byte>, limit: nat)
    requires s.Valid() && s.Full(input) && input != [] && limit <= s.buf.Length
    ensures !Fits(s.split, input, limit, 0)
  {
    if 0 < limit && s.split(input[..limit], false).token.Some? { MoreBytesHelp(s.split, input, limit, s.buf.Length); }
  }

  /** The usual loop over Scan.  Its tokens are those of the input from the first on; all of
      them, and the reader's error at the end, unless one is too long for the largest buffer.
      A buffer that can have no bytes at all is too small even for an empty input. */
  method AllTokens(s: Scanner) returns (tokens: seq<seq<byte>>)
    requires s.Valid() && s.err == None
    modifies s, s.buf, s.src
    ensures var input, limit := old(s.Rest()), old(Largest(s.buf.Length, s.maxTokenSize));
            var all := Tokens(s.split, input.data);
            && tokens <= all
            && (limit > 0 && Fits(s.split, input.data, limit, 0) ==> tokens == all && s.err == Some(input.final))
            && (s.err != Some(ErrTooLong) ==>
                tokens == all && s.err == Some(input.final) && Fits(s.split, input.data, limit, 1))
            && (limit == 0 ==> tokens == [] && s.err == Some(ErrTooLong))
  {
    tokens := [];
    ghost var split, input, limit := s.split, s.Rest(), Largest(s.buf.Length, s.maxTokenSize);
    while true
      invariant s.Valid() && (s.buf == old(s.buf) || fresh(s.buf))
      invariant old(s.buf.Length) <= s.buf.Length && Largest(s.buf.Length, s.maxTokenSize) == limit
      invariant s.Rest().final == input.final && (s.err == None || s.err == Some(input.final))
      invariant Onward(split, input.data, tokens, s.Rest().data, limit)
      invariant limit == 0 ==> tokens == [] && s.err == None
      decreases |s.Rest().data|
    {
      ghost var rest := s.Rest().data;
      var ok := s.Scan();
      if !ok {
        if s.err == Some(ErrTooLong) && rest != [] { FullMeansUnfit(s, rest, limit); }
        return;
      }
      OnwardStep(split, input.data, tokens, rest, limit, s.buf.Length);
      tokens := tokens + [s.token.value];
    }
  }

  /** The tokens so far, then those of the rest, are those of the input; and the input fits if
      and only if the rest does, up to the slack. */
  ghost predicate Onward(split: SplitFunc, input: seq<byte>, tokens: seq<seq<byte>>, rest: seq<byte>, limit: nat)
    requires Stable(split)
  {
    && Tokens(split, input) == tokens + Tokens(split, rest)
    && (Fits(split, input, limit, 0) ==> Fits(split, rest, limit, 0))
    && (Fits(split, rest, limit, 1) ==> Fits(split, input, limit, 1))
  }

  lemma OnwardStep(split: SplitFunc, input: seq<byte>, tokens: seq<seq<byte>>, rest: seq<byte>, limit: nat, size: nat)
    requires Stable(split) && Onward(split, input, tokens, rest, limit)
    requires rest != [] && size <= limit && Here(split, rest, size, 1)
    ensures var r := split(rest, true);
            && Sound(r, rest, true) && Onward(split, input, tokens + [r.token.value], rest[r.advance..], limit)
  {
    assert Sound(split(rest, true), rest, true);
    if |rest| > limit { MoreBytesHelp(split, rest, size, limit); }
  }

  /** ScanBytes makes a token of every byte. */
  lemma {:induction false} TokensAreBytes(input: seq<byte>, i: nat)
    requires Stable(ScanBytes) && i < |input|
    ensures |Tokens(ScanBytes, input)| == |input| && Tokens(ScanBytes, input)[i] == [input[i]]
    decreases |input|
  {
    assert ScanBytes(input, true) == Split(1, Some(input[..1])) && input[..1] == [input[0]];
    if |input| > 1 {
      TokensAreBytes(input[1..], if i > 0 then i - 1 else 0);
    } else {
      assert input[1..] == [];
    }
  }

  // ---------- lines ----------

  /** A carriage return at the very end is dropped, just one, and nothing else. */
  lemma DropCRMeans(data: seq<byte>)
    ensures DropCR(data + [13]) == data
    ensures data == [] || data[|data| - 1] != 13 ==> DropCR(data) == data
  {
    assert (data + [13])[..|data|] == data;
  }

  /** Lines end with a newline or a carriage return and a newline, which are not part of them. */
  lemma LinesOfTwo(a: seq<byte>, b: seq<byte>)
    requires 10 !in a && 10 !in b && b != [] && (a == [] || a[|a| - 1] != 13) && b[|b| - 1] != 13
    ensures Lines(a + [10] + b, []) == [a, b] && Lines(a + [13, 10] + b, []) == [a, b]
  {
    hide Lines;
    LineThen(a, b);
    LineThen(a + [13], b);
    DropCRMeans(a);
    DropCRMeans(b);
    hide DropCR;
    assert a + [13, 10] + b == (a + [13]) + [10] + b;
  }

  lemma LineThen(a: seq<byte>, b: seq<byte>)
    requires 10 !in a && 10 !in b && b != []
    ensures Lines(a + [10] + b, []) == [DropCR(a), DropCR(b)]
  {
    var text := a + [10] + b;
    LinesFirst(text, []);
    assert text[|a|] == 10 && forall i | 0 <= i < |a| :: text[i] == a[i];
    assert Newline(text) == |a| && text[..|a|] == a && text[|a| + 1..] == b && [] + a == a;
    LinesFirst(b, []);
    assert Newline(b) < 0 && [] + b == b;
  }

  /** The lines of a text, a byte at a time; `line` is the part of the line already seen. */
  function Lines(text: seq<byte>, line: seq<byte>): seq<seq<byte>>
    decreases |text|
  {
    if text == [] then (if line == [] then [] else [DropCR(line)])
    else if text[0] == 10 then [DropCR(line)] + Lines(text[1..], [])
    else Lines(text[1..], line + [text[0]])
  }

  /** Every line with its newline has at most `size` bytes; a last one without, fewer, or
      with some slack as many. */
  predicate LinesFit(text: seq<byte>, line: nat, size: nat, slack: nat)
    decreases |text|
  {
    if text == [] then line == 0 || line < size + slack
    else if text[0] == 10 then line + 1 <= size && LinesFit(text[1..], 0, size, slack)
    else LinesFit(text[1..], line + 1, size, slack)
  }

  lemma {:induction false} LinesFirst(text: seq<byte>, line: seq<byte>)
    requires text + line != []
    ensures var i := Newline(text);
            Lines(text, line) ==
              if i < 0 then [DropCR(line + text)] else [DropCR(line + text[..i])] + Lines(text[i + 1..], [])
    decreases |text|
  {
    if text == [] {
      assert line + text == line;
    } else if text[0] == 10 {
      assert line + text[..0] == line;
    } else {
      LinesFirst(text[1..], line + [text[0]]);
      var i := Newline(text[1..]);
      assert line + [text[0]] + text[1..] == line + text;
      if i >= 0 {
        assert line + [text[0]] + text[1..][..i] == line + text[..i + 1];
        assert text[1..][i + 1..] == text[i + 2..];
      }
    }
  }

  /** The tokens ScanLines makes are the lines. */
  lemma {:induction false} TokensAreLines(text: seq<byte>)
    requires Stable(ScanLines)
    ensures Tokens(ScanLines, text) == Lines(text, [])
    decreases |text|
  {
    if text != [] {
      LinesFirst(text, []);
      var r := ScanLines(text, true);
      assert [] + text == text && [] + text[..r.advance - 1] == text[..r.advance - 1];
      TokensAreLines(text[r.advance..]);
      assert Lines([], []) == [];
    }
  }

  lemma {:induction false} LinesFitFirst(text: seq<byte>, line: nat, size: nat, slack: nat)
    ensures var i := Newline(text);
            LinesFit(text, line, size, slack) <==>
              if i < 0 then line + |text| == 0 || line + |text| < size + slack
              else line + i + 1 <= size && LinesFit(text[i + 1..], 0, size, slack)
    decreases |text|
  {
    if text != [] && text[0] != 10 {
      LinesFitFirst(text[1..], line + 1, size, slack);
      var i := Newline(text[1..]);
      if i >= 0 { assert text[1..][i + 1..] == text[i + 2..]; }
    }
  }

  lemma NewlineIn(text: seq<byte>, size: nat)
    requires size <= |text|
    ensures Newline(text[..size]) >= 0 <==> 0 <= Newline(text) < size
  {
    assert forall j | 0 <= j < size :: text[..size][j] == text[j];
  }

  /** For lines, what fits is what the documentation says. */
  lemma {:induction false} FittingLines(text: seq<byte>, size: nat, slack: nat)
    requires Stable(ScanLines) && size > 0 && slack <= 1
    ensures Fits(ScanLines, text, size, slack) <==> LinesFit(text, 0, size, slack)
    decreases |text|
  {
    if text != [] {
      var r := ScanLines(text, true);
      LinesFitFirst(text, 0, size, slack);
      FittingLines(text[r.advance..], size, slack);
      if size <= |text| { NewlineIn(text, size); }
    }
  }

  /** A scanner with the default split function, over any reader, any initial buffer and any
      limit: the lines of the text, without error, if they fit, and ErrTooLong if they do not.
      For a last line of just the limit, without newline, it depends on how the reader
      delivers the end; then the contract allows both. */
  method AllLines(src: Source, buf: array<byte>, max: int) returns (tokens: seq<seq<byte>>, err: Option<Error>)
    modifies src, buf
    ensures var input, limit := old(Stream(src.plan, 0)), Largest(buf.Length, max);
            && tokens <= Lines(input.data, [])
            && (limit > 0 && LinesFit(input.data, 0, limit, 0) ==>
                tokens == Lines(input.data, []) && err == Some(input.final))
            && (err != Some(ErrTooLong) ==> tokens == Lines(input.data, []) && err == Some(input.final))
            && (!LinesFit(input.data, 0, limit, 1) ==> err == Some(ErrTooLong))
            && (limit == 0 ==> tokens == [] && err == Some(ErrTooLong))
  {
    ScanLinesStable();
    var s := new Scanner(src, ScanLines, buf, max);
    ghost var input, limit := s.Rest(), Largest(buf.Length, max);
    TokensAreLines(input.data);
    if limit > 0 {
      FittingLines(input.data, limit, 0);
      FittingLines(input.data, limit, 1);
    }
    tokens := AllTokens(s);
    err := s.err;
  }
}

/** bytes/bytes.go: the first and the last occurrence of a separator, found with a rolling
    hash in 32-bit arithmetic that wraps around. */
module Search {
  import opened Basics

  type uint32 = x: int | 0 <= x < 0x1_0000_0000

  const MOD := 0x1_0000_0000
  const PRIME := 16777619              // primeRK

  // ---------- what is searched for ----------

  predicate Occurs(s: seq<byte>, sep: seq<byte>, k: int) { 0 <= k <= |s| - |sep| && s[k..k + |sep|] == sep }

  ghost predicate IsFirst(s: seq<byte>, sep: seq<byte>, r: int)
  {
    && (r == -1 || Occurs(s, sep, r))
    && forall k | 0 <= k && (k < r || r == -1) :: !Occurs(s, sep, k)
  }

  ghost predicate IsLast(s: seq<byte>, sep: seq<byte>, r: int)
  {
    && (r == -1 || Occurs(s, sep, r))
    && forall k | r < k :: !Occurs(s, sep, k)
  }

  /** An occurrence further on is one in the rest. */
  lemma OccursAfter(s: seq<byte>, sep: seq<byte>, i: nat, k: nat)
    requires i <= |s|
    ensures Occurs(s[i..], sep, k) <==> Occurs(s, sep, i + k)
  {
    if k + |sep| <= |s| - i { assert s[i..][k..k + |sep|] == s[i + k..i + k + |sep|]; }
  }

  lemma FirstInRest(s: seq<byte>, sep: seq<byte>, i: nat, r: int)
    requires i <= |s| && IsFirst(s[i..], sep, r)
    requires forall k | 0 <= k < i :: !Occurs(s, sep, k)
    ensures IsFirst(s, sep, if r < 0 then -1 else i + r)
  {
    if r >= 0 { OccursAfter(s, sep, i, r); }
    forall k | i <= k && (k < i + r || r == -1) ensures !Occurs(s, sep, k) {
      OccursAfter(s, sep, i, k - i);
    }
  }

  // ---------- arithmetic modulo 2^32 ----------

  lemma ModAdd(x: int, k: int)
    ensures (x + MOD * k) % MOD == x % MOD
  {
  }

  lemma MulMod(a: int, b: int)
    ensures (a % MOD * b) % MOD == (a * b) % MOD
  {
    var q := a / MOD;
    assert a == MOD * q + a % MOD;
    calc {
      a * b;
      (MOD * q + a % MOD) * b;
      a % MOD * b + MOD * (q * b);
    }
    ModAdd(a % MOD * b, q * b);
  }

  lemma Congruent(a: int, b: int, c: int)
    requires a % MOD == b % MOD
    ensures (a * c) % MOD == (b * c) % MOD
    ensures (c * a) % MOD == (c * b) % MOD
  {
    MulMod(a, c);
    MulMod(b, c);
    assert a * c == c * a && b * c == c * b;
  }

  lemma {:induction false} PowerSquare(b: int, n: nat)
    ensures Power(b, 2 * n) == Power(b * b, n)
  {
    if n > 0 {
      PowerSquare(b, n - 1);
      var x := Power(b * b, n - 1);
      assert Power(b, 2 * n) == b * (b * Power(b, 2 * (n - 1)));
      assert b * (b * x) == (b * b) * x;
    }
  }

  lemma {:induction false} PowerMod(b: int, n: nat)
    ensures Power(b % MOD, n) % MOD == Power(b, n) % MOD
  {
    if n > 0 {
      PowerMod(b, n - 1);
      var x, y := Power(b % MOD, n - 1), Power(b, n - 1);
      calc {
        (b % MOD * x) % MOD;
        { MulMod(b, x); }
        (x * b) % MOD;
        { Congruent(x, y, b); }
        (y * b) % MOD;
      }
    }
  }

  lemma Associate(a: int, b: int, c: int)
    ensures a * (b * c) == (a * b) * c == b * (a * c)
  {
  }

  lemma SquareOdd(pow: uint32, sq: uint32, i: nat)
    requires i % 2 == 1
    ensures ((pow * sq) % MOD * Power((sq * sq) % MOD, i / 2)) % MOD == (pow * Power(sq, i)) % MOD
  {
    var h := i / 2;
    var p, q := Power(sq * sq, h), Power((sq * sq) % MOD, h);
    PowerSquare(sq, h);
    PowerMod(sq * sq, h);
    assert Power(sq, i) == sq * p;
    hide Power;
    MulMod(pow * sq, q);
    Congruent(q, p, pow * sq);
    Associate(pow, sq, p);
  }

  lemma SquareEven(pow: uint32, sq: uint32, i: nat)
    requires i % 2 == 0
    ensures (pow * Power((sq * sq) % MOD, i / 2)) % MOD == (pow * Power(sq, i)) % MOD
  {
    hide Power;
    var h := i / 2;
    assert i == 2 * h;
    PowerSquare(sq, h);
    PowerMod(sq * sq, h);
    assert Power((sq * sq) % MOD, i / 2) == Power((sq * sq) % MOD, h) && Power(sq, i) == Power(sq * sq, h);
    Congruent(Power((sq * sq) % MOD, i / 2), Power(sq * sq, i / 2), pow);
  }

  // ---------- the hash ----------

  /** The hash without wrap-around, and the one that reads from the back. */
  function Poly(b: seq<byte>): int { if b == [] then 0 else Poly(b[..|b| - 1]) * PRIME + b[|b| - 1] }

  function PolyRev(b: seq<byte>): int { if b == [] then 0 else PolyRev(b[1..]) * PRIME + b[0] }

  lemma {:induction false} PolyFront(x: byte, w: seq<byte>)
    ensures Poly([x] + w) == x * Power(PRIME, |w|) + Poly(w)
  {
    var n := |w|;
    if n == 0 {
      assert [x] + w == [x] && [x][..0] == [];
    } else {
      PolyFront(x, w[..n - 1]);
      assert ([x] + w)[..n] == [x] + w[..n - 1];
      var p := Power(PRIME, n - 1);
      assert (x * p) * PRIME == x * (PRIME * p);
    }
  }

  lemma {:induction false} PolyRevBack(w: seq<byte>, x: byte)
    ensures PolyRev(w + [x]) == x * Power(PRIME, |w|) + PolyRev(w)
  {
    if w == [] {
      assert w + [x] == [x] && [x][1..] == [];
    } else {
      PolyRevBack(w[1..], x);
      assert (w + [x])[1..] == w[1..] + [x];
      var p := Power(PRIME, |w| - 1);
      assert (x * p) * PRIME == x * (PRIME * p);
    }
  }

  /** Moving the window by one place, wrapping at every operation, keeps the hash right. */
  lemma Rolled(h: uint32, before: int, pow: uint32, n: nat, y: byte, x: byte, after: int)
    requires h == before % MOD && pow == Power(PRIME, n) % MOD
    requires after == before * PRIME + y - x * Power(PRIME, n)
    ensures (((h * PRIME) % MOD + y) % MOD - (pow * x) % MOD) % MOD == after % MOD
  {
    var p := Power(PRIME, n);
    MulMod(before, PRIME);
    MulMod(p, x);
    assert (h * PRIME) % MOD == (before * PRIME) % MOD;
    assert (pow * x) % MOD == (p * x) % MOD;
    assert p * x == x * p;
    Drop(before * PRIME, y, p * x);
  }

  lemma Drop(a: int, y: int, b: int)
    ensures ((a % MOD + y) % MOD - b % MOD) % MOD == (a + y - b) % MOD
  {
  }

  lemma Roll(s: seq<byte>, i: nat, n: nat)
    requires n > 0 && i + n < |s|
    ensures Poly(s[i + 1..i + 1 + n]) == Poly(s[i..i + n]) * PRIME + s[i + n] - s[i] * Power(PRIME, n)
  {
    var w := s[i + 1..i + n];
    assert s[i..i + n] == [s[i]] + w;
    PolyFront(s[i], w);
    assert s[i + 1..i + 1 + n][..n - 1] == w;
    var p, x := Power(PRIME, n - 1), s[i];
    assert (x * p) * PRIME == x * (PRIME * p);
  }

  lemma RollBack(s: seq<byte>, i: nat, n: nat)
    requires n > 0 && i + n < |s|
    ensures PolyRev(s[i..i + n]) == PolyRev(s[i + 1..i + 1 + n]) * PRIME + s[i] - s[i + n] * Power(PRIME, n)
  {
    var w := s[i + 1..i + n];
    assert s[i + 1..i + 1 + n] == w + [s[i + n]];
    PolyRevBack(w, s[i + n]);
    assert s[i..i + n][1..] == w;
    var p, x := Power(PRIME, n - 1), s[i + n];
    assert (x * p) * PRIME == x * (PRIME * p);
  }

  lemma HashStep(h: uint32, before: int, x: byte)
    requires h == before % MOD
    ensures (h * PRIME + x) % MOD == (before * PRIME + x) % MOD
  {
    MulMod(before, PRIME);
  }

  lemma PolyMore(s: seq<byte>, i: nat)
    requires i < |s|
    ensures Poly(s[..i + 1]) == Poly(s[..i]) * PRIME + s[i]
  {
    assert s[..i + 1][..i] == s[..i];
  }

  lemma PolyRevMore(s: seq<byte>, i: nat)
    requires i < |s|
    ensures PolyRev(s[i..]) == PolyRev(s[i + 1..]) * PRIME + s[i]
  {
    assert s[i..][1..] == s[i + 1..];
  }

  /** One byte more. */
  lemma HashMore(s: seq<byte>, i: nat, h: uint32)
    requires i < |s| && h == Poly(s[..i]) % MOD
    ensures (h * PRIME + s[i]) % MOD == Poly(s[..i + 1]) % MOD
  {
    hide Poly;
    PolyMore(s, i);
    HashStep(h, Poly(s[..i]), s[i]);
  }

  lemma HashMoreRev(s: seq<byte>, i: nat, h: uint32)
    requires i < |s| && h == PolyRev(s[i + 1..]) % MOD
    ensures (h * PRIME + s[i]) % MOD == PolyRev(s[i..]) % MOD
  {
    hide PolyRev;
    PolyRevMore(s, i);
    HashStep(h, PolyRev(s[i + 1..]), s[i]);
  }

  lemma HashNone()
    ensures Poly([]) == 0 && PolyRev([]) == 0
  {
  }

  /** One byte in, one byte out, every operation wrapping around. */
  function Slide(h: uint32, pow: uint32, coming: byte, going: byte): uint32
  {
    var h1 := (h * PRIME) % MOD;
    var h2 := (h1 + coming) % MOD;
    (h2 - (pow * going) % MOD) % MOD
  }

  lemma SlideRight(s: seq<byte>, i: nat, n: nat, h: uint32, pow: uint32)
    requires n > 0 && i + n < |s| && h == Poly(s[i..i + n]) % MOD && pow == Power(PRIME, n) % MOD
    ensures Slide(h, pow, s[i + n], s[i]) == Poly(s[i + 1..i + 1 + n]) % MOD
  {
    hide Poly;
    hide Power;
    Roll(s, i, n);
    Rolled(h, Poly(s[i..i + n]), pow, n, s[i + n], s[i], Poly(s[i + 1..i + 1 + n]));
  }

  lemma SlideLeft(s: seq<byte>, i: nat, n: nat, h: uint32, pow: uint32)
    requires n > 0 && i + n < |s| && h == PolyRev(s[i + 1..i + 1 + n]) % MOD && pow == Power(PRIME, n) % MOD
    ensures Slide(h, pow, s[i], s[i + n]) == PolyRev(s[i..i + n]) % MOD
  {
    hide PolyRev;
    hide Power;
    RollBack(s, i, n);
    Rolled(h, PolyRev(s[i + 1..i + 1 + n]), pow, n, s[i], s[i + n], PolyRev(s[i..i + n]));
  }

  /** The factor PRIME to the n, by repeated squaring. */
  method PowerOfPrime(n: nat) returns (pow: uint32)
    ensures pow == Power(PRIME, n) % MOD
  {
    hide Power;
    var sq: uint32 := PRIME;
    pow := 1;
    var i := n;
    while i > 0
      invariant 0 <= i && (pow * Power(sq, i)) % MOD == Power(PRIME, n) % MOD
    {
      if i % 2 != 0 { SquareOdd(pow, sq, i); } else { SquareEven(pow, sq, i); }
      if i % 2 != 0 { pow := (pow * sq) % MOD; }
      sq := (sq * sq) % MOD;
      i := i / 2;
    }
    PowerZero(sq);
  }

  lemma PowerZero(b: int)
    ensures Power(b, 0) == 1
  {
  }

  /** hashStr. */
  method HashStr(sep: seq<byte>) returns (hash: uint32, pow: uint32)
    ensures hash == Poly(sep) % MOD && pow == Power(PRIME, |sep|) % MOD
  {
    hide Poly;
    hide PolyRev;
    hide Power;
    HashNone();
    hash := 0;
    assert sep[..0] == [];
    for i := 0 to |sep|
      invariant hash == Poly(sep[..i]) % MOD
    {
      HashMore(sep, i, hash);
      hash := (hash * PRIME + sep[i]) % MOD;
    }
    assert sep[..|sep|] == sep;
    pow := PowerOfPrime(|sep|);
  }

  /** hashStrRev. */
  method HashStrRev(sep: seq<byte>) returns (hash: uint32, pow: uint32)
    ensures hash == PolyRev(sep) % MOD && pow == Power(PRIME, |sep|) % MOD
  {
    hide Poly;
    hide PolyRev;
    hide Power;
    HashNone();
    hash := 0;
    assert sep[|sep|..] == [];
    for i := |sep| downto 0
      invariant hash == PolyRev(sep[i..]) % MOD
    {
      HashMoreRev(sep, i, hash);
      hash := (hash * PRIME + sep[i]) % MOD;
    }
    pow := PowerOfPrime(|sep|);
  }

  /** indexRabinKarp; its caller sees to it that s is no shorter than sep. */
  method IndexRabinKarp(s: seq<byte>, sep: seq<byte>) returns (r: int)
    requires 0 < |sep| <= |s|
    ensures IsFirst(s, sep, r)
  {
    hide Slide;
    hide Poly;
    hide PolyRev;
    hide Power;
    HashNone();
    var hashsep, pow := HashStr(sep);
    var n := |sep|;
    var h: uint32 := 0;
    assert s[..0] == [];
    for i := 0 to n
      invariant h == Poly(s[..i]) % MOD
    {
      HashMore(s, i, h);
      h := (h * PRIME + s[i]) % MOD;
    }
    if h == hashsep && s[..n] == sep { return 0; }
    var i := n;
    while i < |s|
      invariant n <= i <= |s| && h == Poly(s[i - n..i]) % MOD
      invariant forall k | 0 <= k <= i - n :: !Occurs(s, sep, k)
    {
      SlideRight(s, i - n, n, h, pow);
      h := Slide(h, pow, s[i], s[i - n]);
      i := i + 1;
      if h == hashsep && s[i - n..i] == sep { return i - n; }
    }
    return -1;
  }

  /** LastIndexByte. */
  method LastIndexByte(s: seq<byte>, c: byte) returns (r: int)
    ensures IsLast(s, [c], r)
  {
    for i := |s| downto 0
      invariant forall k | i <= k :: !Occurs(s, [c], k)
    {
      if s[i] == c { return i; }
    }
    return -1;
  }

  /** LastIndex. */
  method LastIndex(s: seq<byte>, sep: seq<byte>) returns (r: int)
    ensures IsLast(s, sep, r)
  {
    hide Slide;
    hide Poly;
    hide PolyRev;
    hide Power;
    HashNone();
    var n := |sep|;
    if n == 0 {
      return |s|;
    } else if n == 1 {
      assert sep == [sep[0]];
      r := LastIndexByte(s, sep[0]);
      return;
    } else if n == |s| {
      return if s == sep then 0 else -1;
    } else if n > |s| {
      return -1;
    }
    var hashss, pow := HashStrRev(sep);
    var last := |s| - n;
    var h: uint32 := 0;
    assert s[|s|..] == [];
    for i := |s| downto last
      invariant h == PolyRev(s[i..]) % MOD
    {
      HashMoreRev(s, i, h);
      h := (h * PRIME + s[i]) % MOD;
    }
    assert s[last..] == s[last..last + n];
    if h == hashss && s[last..] == sep { return last; }
    for i := last downto 0
      invariant h == PolyRev(s[i..i + n]) % MOD
      invariant forall k | i <= k :: !Occurs(s, sep, k)
    {
      SlideLeft(s, i, n, h, pow);
      h := Slide(h, pow, s[i], s[i + n]);
      if h == hashss && s[i..i + n] == sep { return i; }
    }
    return -1;
  }

  /** bytealg.IndexByte. */
  method IndexByte(s: seq<byte>, c: byte) returns (r: int)
    ensures IsFirst(s, [c], r)
  {
    for i := 0 to |s|
      invariant forall k | 0 <= k < i :: !Occurs(s, [c], k)
    {
      if s[i] == c { return i; }
    }
    return -1;
  }

  /** What the machine's search routine, bytealg.Index, promises. */
  method MachineIndex(s: seq<byte>, sep: seq<byte>) returns (r: int)
    requires 2 <= |sep|
    ensures IsFirst(s, sep, r)
  {
    var i := 0;
    while i + |sep| <= |s|
      invariant forall k | 0 <= k < i :: !Occurs(s, sep, k)
    {
      if s[i..i + |sep|] == sep { return i; }
      i := i + 1;
    }
    return -1;
  }

  lemma StartsHere(s: seq<byte>, sep: seq<byte>, i: nat, t: nat, k: nat)
    requires 2 <= |sep| && i < t == |s| - |sep| + 1 && i <= k && Occurs(s, sep, k)
    ensures Occurs(s[i..t], [sep[0]], k - i)
  {
    assert s[k] == s[k..k + |sep|][0];
    assert s[i..t][k - i] == s[k];
  }

  /** The next place from i on that can start an occurrence: where sep's first byte is. */
  method NextStart(s: seq<byte>, sep: seq<byte>, i: nat, t: nat) returns (r: int)
    requires 2 <= |sep| && i < t == |s| - |sep| + 1
    ensures r == -1 ==> forall k | i <= k :: !Occurs(s, sep, k)
    ensures r != -1 ==> i <= r < t && s[r] == sep[0] && forall k | i <= k < r :: !Occurs(s, sep, k)
  {
    if s[i] == sep[0] { return i; }
    var o := IndexByte(s[i..t], sep[0]);
    forall k | i <= k && Occurs(s, sep, k) ensures Occurs(s[i..t], [sep[0]], k - i) {
      StartsHere(s, sep, i, t, k);
    }
    if o >= 0 {
      assert Occurs(s[i..t], [sep[0]], o);
      assert s[i..t][o..o + 1][0] == sep[0];
    }
    r := if o < 0 then -1 else i + o;
  }

  /** Index: looks for the first byte, and gives up on that when it was fooled too often.
      The limits are those of the machine: maxLen, maxBruteForce and cutover are
      bytealg.MaxLen, bytealg.MaxBruteForce and bytealg.Cutover, whatever they are. */
  method Index(s: seq<byte>, sep: seq<byte>, maxLen: nat, maxBruteForce: nat, cutover: nat -> int) returns (r: int)
    ensures IsFirst(s, sep, r)
  {
    var n := |sep|;
    if n == 0 {
      return 0;
    } else if n == 1 {
      assert sep == [sep[0]];
      r := IndexByte(s, sep[0]);
      return;
    } else if n == |s| {
      return if sep == s then 0 else -1;
    } else if n > |s| {
      return -1;
    } else if n <= maxLen {
      if |s| <= maxBruteForce {
        r := MachineIndex(s, sep);
        return;
      }
      var i: nat, t, fails := 0, |s| - n + 1, 0;
      while i < t
        invariant i <= t && forall k | 0 <= k < i :: !Occurs(s, sep, k)
      {
        var next := NextStart(s, sep, i, t);
        if next < 0 { return -1; }
        i := next;
        if s[i + 1] == sep[1] && s[i..i + n] == sep { return i; }
        NotHere(s, sep, i);
        fails := fails + 1;
        i := i + 1;
        if fails > cutover(i) {
          var j := MachineIndex(s[i..], sep);
          FirstInRest(s, sep, i, j);
          return if j >= 0 then j + i else -1;
        }
      }
      return -1;
    }
    var i: nat, fails, t := 0, 0, |s| - n + 1;
    while i < t
      invariant i <= t && forall k | 0 <= k < i :: !Occurs(s, sep, k)
    {
      var next := NextStart(s, sep, i, t);
      if next < 0 { break; }
      i := next;
      if s[i + 1] == sep[1] && s[i..i + n] == sep { return i; }
      NotHere(s, sep, i);
      i := i + 1;
      fails := fails + 1;
      if fails >= 4 + i / 16 && i < t {
        var j := IndexRabinKarp(s[i..], sep);
        FirstInRest(s, sep, i, j);
        return if j < 0 then -1 else i + j;
      }
    }
    return -1;
  }

  lemma NotHere(s: seq<byte>, sep: seq<byte>, i: nat)
    requires 2 <= |sep| && i + |sep| <= |s| && !(s[i + 1] == sep[1] && s[i..i + |sep|] == sep)
    ensures !Occurs(s, sep, i)
  {
    assert s[i + 1] == s[i..i + |sep|][1];
  }
}

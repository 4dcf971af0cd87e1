/** fmt/format.go: integers are written from right to left into a buffer of fixed size. */
module FormatInteger {
  import opened Basics

  const INTBUF := 68

  const ZERO: byte := 48
  const SPACE: byte := 32
  const PLUS: byte := 43
  const MINUS: byte := 45

  const LDIGITS: seq<byte> := [48, 49, 50, 51, 52, 53, 54, 55, 56, 57, 97, 98, 99, 100, 101, 102, 120]
  const UDIGITS: seq<byte> := [48, 49, 50, 51, 52, 53, 54, 55, 56, 57, 65, 66, 67, 68, 69, 70, 88]

  datatype Flags = Flags(widPresent: bool, precPresent: bool, minus: bool, plus: bool, sharp: bool, space: bool,
                         zero: bool)

  type Base = b: int | b == 2 || b == 8 || b == 10 || b == 16 witness 10

  /** What is to be formatted and how.  The verb %O comes only with base 8. */
  datatype Job = Job(u: uint64, base: Base, isSigned: bool, verbO: bool, digits: seq<byte>, flags: Flags, wid: nat,
                     prec: nat)

  predicate Proper(j: Job)
  {
    && (j.digits == LDIGITS || j.digits == UDIGITS)
    && (j.verbO ==> j.base == 8)
  }

  // ---------- what is to be written ----------

  /** The number: a 64-bit word read with or without a sign. */
  function Number(j: Job): int { if j.isSigned && j.u >= 0x8000_0000_0000_0000 then j.u - MOD64 else j.u }

  function Magnitude(j: Job): uint64 { if Number(j) < 0 then -Number(j) else Number(j) }

  function Quotient(u: nat, base: Base): nat
  {
    if base == 2 then u / 2 else if base == 8 then u / 8 else if base == 10 then u / 10 else u / 16
  }

  function Remainder(u: nat, base: Base): (r: nat)
    ensures r < base
  {
    if base == 2 then u % 2 else if base == 8 then u % 8 else if base == 10 then u % 10 else u % 16
  }

  function Scaled(x: int, base: Base): int
  {
    if base == 2 then 2 * x else if base == 8 then 8 * x else if base == 10 then 10 * x else 16 * x
  }

  lemma Divided(u: nat, base: Base)
    ensures Scaled(Quotient(u, base), base) + Remainder(u, base) == u
    ensures u >= base ==> Quotient(u, base) < u
  {
  }

  function DigitsOf(u: nat, base: Base, digits: seq<byte>): (s: seq<byte>)
    requires |digits| == 17
    ensures s != []
  {
    if u < base then [digits[u]]
    else DigitsOf(Quotient(u, base), base, digits) + [digits[Remainder(u, base)]]
  }

  function Zeros(n: int): (s: seq<byte>)
    ensures |s| == if n < 0 then 0 else n
    ensures forall i | 0 <= i < |s| :: s[i] == ZERO
  {
    if n <= 0 then [] else [ZERO] + Zeros(n - 1)
  }

  function Spaces(n: int): (s: seq<byte>)
    ensures |s| == if n < 0 then 0 else n
    ensures forall i | 0 <= i < |s| :: s[i] == SPACE
  {
    if n <= 0 then [] else [SPACE] + Spaces(n - 1)
  }

  function Sign(j: Job): seq<byte>
  {
    if Number(j) < 0 then [MINUS] else if j.flags.plus then [PLUS] else if j.flags.space then [SPACE] else []
  }

  /** The fewest digits to write: the precision, or the width if zeros are to fill it. */
  function Least(j: Job): int
  {
    if j.flags.precPresent then j.prec
    else if j.flags.zero && j.flags.widPresent then j.wid - |Sign(j)|
    else 0
  }

  function Padded0(j: Job): (s: seq<byte>)
    requires Proper(j)
    ensures s != []
  {
    var d := DigitsOf(Magnitude(j), j.base, j.digits);
    Zeros(Least(j) - |d|) + d
  }

  /** The digits of the number, with the leading zero that # asks for in base 8. */
  function Figures(j: Job): (s: seq<byte>)
    requires Proper(j)
    ensures s != []
  {
    (if j.flags.sharp && j.base == 8 && Padded0(j)[0] != ZERO then [ZERO] else []) + Padded0(j)
  }

  function Prefix(j: Job): seq<byte>
    requires Proper(j)
  {
    if j.verbO then [ZERO, 111]
    else if !j.flags.sharp then []
    else if j.base == 2 then [ZERO, 98]
    else if j.base == 16 then [ZERO, j.digits[16]]
    else []
  }

  function Text(j: Job): seq<byte>
    requires Proper(j)
  {
    Sign(j) + Prefix(j) + Figures(j)
  }

  function Padding(flags: Flags, wid: nat, s: seq<byte>): seq<byte>
  {
    if !flags.widPresent || wid == 0 then s
    else if flags.minus then s + Spaces(wid - |s|) else Spaces(wid - |s|) + s
  }

  /** With precision 0 the number 0 is left blank. */
  function Blank(j: Job): bool { j.flags.precPresent && j.prec == 0 && j.u == 0 }

  function Output(j: Job): seq<byte>
    requires Proper(j)
  {
    if Blank(j) then Spaces(j.wid) else Padding(j.flags, j.wid, Text(j))
  }

  /** The size of the buffer. */
  function Room(j: Job): nat
  {
    var width := 3 + j.wid + j.prec;
    if (j.flags.widPresent || j.flags.precPresent) && width > INTBUF then width else INTBUF
  }

  // ---------- what the digits mean ----------

  function DigitValue(c: byte): int
  {
    if 48 <= c <= 57 then c - 48 else if 97 <= c <= 102 then c - 87 else if 65 <= c <= 70 then c - 55 else 0
  }

  function Value(s: seq<byte>, base: Base): int
  {
    if s == [] then 0 else Scaled(Value(s[..|s| - 1], base), base) + DigitValue(s[|s| - 1])
  }

  lemma ValueMore(s: seq<byte>, c: byte, base: Base)
    ensures Value(s + [c], base) == Scaled(Value(s, base), base) + DigitValue(c)
  {
    assert (s + [c])[..|s|] == s;
  }

  lemma DigitMeans(digits: seq<byte>, d: nat)
    requires (digits == LDIGITS || digits == UDIGITS) && d < 16
    ensures DigitValue(digits[d]) == d
  {
  }

  lemma {:induction false} DigitsDenote(u: nat, base: Base, digits: seq<byte>)
    requires digits == LDIGITS || digits == UDIGITS
    ensures Value(DigitsOf(u, base, digits), base) == u
  {
    hide Value;
    hide DigitValue;
    hide Scaled;
    hide Quotient;
    hide Remainder;
    if u < base {
      ValueNone(base);
      ValueMore([], digits[u], base);
      DigitMeans(digits, u);
      assert [] + [digits[u]] == [digits[u]];
    } else {
      Divided(u, base);
      DigitsDenote(Quotient(u, base), base, digits);
      ValueMore(DigitsOf(Quotient(u, base), base, digits), digits[Remainder(u, base)], base);
      DigitMeans(digits, Remainder(u, base));
    }
  }

  lemma ValueNone(base: Base)
    ensures Value([], base) == 0 && Scaled(0, base) == 0
  {
  }

  lemma {:induction false} ZerosDenoteNothing(n: int, s: seq<byte>, base: Base)
    ensures Value(Zeros(n) + s, base) == Value(s, base)
    decreases |s|, n
  {
    hide Scaled;
    var z := Zeros(n);
    if s != [] {
      ZerosDenoteNothing(n, s[..|s| - 1], base);
      ValueMore(z + s[..|s| - 1], s[|s| - 1], base);
      assert z + s == z + s[..|s| - 1] + [s[|s| - 1]];
    } else if n > 0 {
      ZerosDenoteNothing(n - 1, [], base);
      ValueNone(base);
      ValueMore(Zeros(n - 1), ZERO, base);
      assert z == Zeros(n - 1) + [ZERO] && Zeros(n - 1) + [] == Zeros(n - 1) && z + [] == z;
    }
  }

  /** What is printed is the sign, the prefix, and digits that denote the number, as many as
      asked for, filling the width if zeros are to do so. */
  lemma TextDenotes(j: Job)
    requires Proper(j)
    ensures Value(Figures(j), j.base) == Magnitude(j)
    ensures Number(j) < 0 <==> Sign(j) == [MINUS]
    ensures |Figures(j)| >= Least(j) && |Text(j)| >= Least(j) + |Sign(j)|
    ensures |Output(j)| >= if j.flags.widPresent then j.wid else 0
  {
    hide Value;
    hide DigitsOf;
    var d := DigitsOf(Magnitude(j), j.base, j.digits);
    DigitsDenote(Magnitude(j), j.base, j.digits);
    ZerosDenoteNothing(Least(j) - |d|, d, j.base);
    ZerosDenoteNothing(1, Padded0(j), j.base);
    assert Zeros(1) == [ZERO];
    assert [] + Padded0(j) == Padded0(j);
  }

  // ---------- how the text is put together ----------

  ghost predicate Only(s: seq<byte>, c: byte) { forall i | 0 <= i < |s| :: s[i] == c }

  /** Padding: up to the width, spaces on the left, or with the minus flag on the right; none
      without a width, or if the text is as long.  A blank 0 is spaces only. */
  lemma OutputSides(j: Job)
    requires Proper(j)
    ensures var o, s := Output(j), Text(j);
            !(j.flags.precPresent && j.prec == 0 && j.u == 0) ==>
              if j.flags.widPresent && |s| < j.wid then
                && |o| == j.wid
                && (!j.flags.minus ==> o[j.wid - |s|..] == s && Only(o[..j.wid - |s|], SPACE))
                && (j.flags.minus ==> o[..|s|] == s && Only(o[|s|..], SPACE))
              else o == s
    ensures j.flags.precPresent && j.prec == 0 && j.u == 0 ==> |Output(j)| == j.wid && Only(Output(j), SPACE)
  {
    hide Text;
  }

  /** Sign, prefix and figures stand in this order.  A minus means a negative number, and only
      that; other numbers have the sign the flags ask for, plus before space. */
  lemma TextOrder(j: Job)
    requires Proper(j)
    ensures var a, b := |Sign(j)|, |Sign(j)| + |Prefix(j)|;
            b <= |Text(j)| && Text(j)[..a] == Sign(j) && Text(j)[a..b] == Prefix(j) && Text(j)[b..] == Figures(j)
    ensures |Sign(j)| == if Number(j) < 0 || j.flags.plus || j.flags.space then 1 else 0
    ensures Number(j) < 0 ==> Text(j)[0] == MINUS
    ensures Number(j) >= 0 && j.flags.plus ==> Text(j)[0] == PLUS
    ensures Number(j) >= 0 && !j.flags.plus && j.flags.space ==> Text(j)[0] == SPACE
  {
  }

  /** The prefix is 0o for %O, and with # 0b in base 2 and 0x, or 0X with capital digits, in
      base 16; in base 8 the figures begin with 0 instead. */
  lemma PrefixMeans(j: Job)
    requires Proper(j)
    ensures |Prefix(j)| == if j.verbO || (j.flags.sharp && (j.base == 2 || j.base == 16)) then 2 else 0
    ensures Prefix(j) != [] ==> Prefix(j)[0] == ZERO
    ensures j.verbO ==> Prefix(j)[1] == 111
    ensures j.flags.sharp && j.base == 2 ==> Prefix(j)[1] == 98
    ensures j.flags.sharp && j.base == 16 ==> Prefix(j)[1] == if j.digits == LDIGITS then 120 else 88
    ensures j.flags.sharp && j.base == 8 ==> Figures(j)[0] == ZERO
  {
  }

  lemma {:induction false} DigitsPlain(u: nat, base: Base, digits: seq<byte>)
    requires digits == LDIGITS || digits == UDIGITS
    ensures var s := DigitsOf(u, base, digits);
            && (|s| > 1 ==> s[0] != ZERO)
            && (forall i | 0 <= i < |s| :: s[i] in digits[..16])
            && (s[0] == ZERO <==> u == 0)
  {
    DigitCodes(digits);
    if u < base {
      assert digits[u] == digits[..16][u];
    } else {
      Divided(u, base);
      QuotientPositive(u, base);
      var q, r := DigitsOf(Quotient(u, base), base, digits), Remainder(u, base);
      hide DigitsOf;
      DigitsPlain(Quotient(u, base), base, digits);
      assert DigitsOf(u, base, digits) == q + [digits[r]] by {
        DigitChar(u, base, digits);
        DigitTable(u, base, digits);
      }
      assert digits[r] == digits[..16][r];
    }
  }

  lemma QuotientPositive(u: nat, base: Base)
    requires u >= base
    ensures Quotient(u, base) > 0
  {
  }

  lemma DigitTable(u: nat, base: Base, digits: seq<byte>)
    requires digits == LDIGITS || digits == UDIGITS
    ensures digits[Remainder(u, base)] == if base == 16 then digits[u % 16] else ZERO + Remainder(u, base)
  {
    DecimalDigits(digits);
  }

  lemma DigitCodes(digits: seq<byte>)
    requires digits == LDIGITS || digits == UDIGITS
    ensures forall d: nat | d < 16 :: digits[d] == ZERO <==> d == 0
  {
  }

  /** The figures are digits of the case asked for, and there is no leading zero but those
      that the precision, or else the width with the zero flag, or # in base 8 ask for. */
  lemma FiguresPlain(j: Job)
    requires Proper(j)
    ensures forall i | 0 <= i < |Figures(j)| :: Figures(j)[i] in j.digits[..16]
    ensures |Figures(j)| > 1 && Figures(j)[0] == ZERO ==>
              || (j.flags.precPresent && |Figures(j)| == j.prec)
              || (!j.flags.precPresent && j.flags.zero && j.flags.widPresent && |Figures(j)| == j.wid - |Sign(j)|)
              || (j.flags.sharp && j.base == 8)
  {
    var d := DigitsOf(Magnitude(j), j.base, j.digits);
    DigitsPlain(Magnitude(j), j.base, j.digits);
    assert ZERO == j.digits[..16][0];
    hide DigitsOf;
    var z := Zeros(Least(j) - |d|);
    assert Padded0(j) == z + d;
    assert forall i | 0 <= i < |z + d| :: (z + d)[i] in j.digits[..16];
  }

  /** In base 8, # adds one 0, and none to the number 0 or where zeros lead anyway. */
  lemma OctalFigures(j: Job)
    requires Proper(j) && j.flags.sharp && j.base == 8
    ensures var d := DigitsOf(Magnitude(j), j.base, j.digits);
            Figures(j) == if Magnitude(j) == 0 || Least(j) > |d| then Zeros(Least(j) - |d|) + d else [ZERO] + d
  {
    var d := DigitsOf(Magnitude(j), j.base, j.digits);
    DigitsPlain(Magnitude(j), j.base, j.digits);
    hide DigitsOf;
    hide Magnitude;
    hide Least;
    var z := Zeros(Least(j) - |d|);
    assert Padded0(j) == z + d;
    assert z == [] ==> z + d == d;
  }

  /** With the zero flag, a width and no precision, zeros fill the width exactly, if sign and
      digits leave room and there is no prefix. */
  lemma ZerosFillTheWidth(j: Job)
    requires Proper(j) && j.flags.zero && j.flags.widPresent && !j.flags.precPresent
    requires Prefix(j) == [] && !(j.flags.sharp && j.base == 8)
    requires |Sign(j)| + |DigitsOf(Magnitude(j), j.base, j.digits)| <= j.wid
    ensures |Text(j)| == j.wid && Output(j) == Text(j)
  {
  }

  /** 42 in a field of five, and with the minus flag. */
  lemma FortyTwo()
    ensures var f := Flags(true, false, false, false, false, false, false);
            && Output(Job(42, 10, true, false, LDIGITS, f, 5, 0)) == [SPACE, SPACE, SPACE, 52, 50]
            && Output(Job(42, 10, true, false, LDIGITS, f.(minus := true), 5, 0)) == [52, 50, SPACE, SPACE, SPACE]
  {
    var f := Flags(true, false, false, false, false, false, false);
    var j := Job(42, 10, true, false, LDIGITS, f, 5, 0);
    FortyTwoText(j);
    FortyTwoText(j.(flags := f.(minus := true)));
    OutputSides(j);
    OutputSides(j.(flags := f.(minus := true)));
    hide Output;
    hide Text;
    assert Output(j)[..3] == [SPACE, SPACE, SPACE];
    assert Output(j.(flags := f.(minus := true)))[2..] == [SPACE, SPACE, SPACE];
  }

  lemma FortyTwoText(j: Job)
    requires j.u == 42 && j.base == 10 && j.digits == LDIGITS && !j.verbO
    requires var f := j.flags; !f.precPresent && !f.plus && !f.sharp && !f.space && !f.zero
    ensures Text(j) == [52, 50]
  {
    assert DigitsOf(4, 10, LDIGITS) == [52];
    assert DigitsOf(42, 10, LDIGITS) == DigitsOf(4, 10, LDIGITS) + [50] == [52, 50];
  }

  // ---------- the bound on the buffer ----------

  lemma {:induction false} DigitsFit(u: nat, base: Base, digits: seq<byte>, n: nat)
    requires |digits| == 17 && n > 0 && u < Power(base, n)
    ensures |DigitsOf(u, base, digits)| <= n
  {
    if u >= base {
      PowerOnes(base);
      assert n > 1 && Power(base, n) == base * Power(base, n - 1);
      Smaller(u, base, Power(base, n - 1));
      DigitsFit(Quotient(u, base), base, digits, n - 1);
    }
  }

  lemma Smaller(u: nat, b: Base, p: nat)
    requires u < b * p
    ensures Quotient(u, b) < p && (u >= b ==> Quotient(u, b) < u)
  {
    if b == 2 {
    } else if b == 8 {
    } else if b == 10 {
    }
  }

  /** A 64-bit number has at most 64 digits in base 2, 22 in base 8, 20 in base 10, 16 in base 16. */
  lemma SixtyFourBits(u: uint64, base: Base, digits: seq<byte>)
    requires |digits| == 17
    ensures |DigitsOf(u, base, digits)| <=
              if base == 2 then 64 else if base == 8 then 22 else if base == 10 then 20 else 16
  {
    Powers();
    DigitsFit(u, base, digits, if base == 2 then 64 else if base == 8 then 22 else if base == 10 then 20 else 16);
  }

  lemma PowerOnes(b: nat)
    ensures Power(b, 1) == b && Power(b, 2) == b * b && Power(b, 4) == (b * b) * (b * b)
  {
    assert Power(b, 2) == b * Power(b, 1);
    PowerAdd(b, 2, 2);
  }

  lemma Powers()
    ensures Power(2, 64) >= MOD64 && Power(8, 22) >= MOD64 && Power(10, 20) >= MOD64 && Power(16, 16) >= MOD64
  {
    PowerOnes(2);
    PowerAdd(2, 4, 4);
    PowerAdd(2, 8, 8);
    PowerAdd(2, 16, 16);
    PowerAdd(2, 32, 32);
    PowerOnes(8);
    PowerAdd(8, 4, 4);
    PowerAdd(8, 8, 8);
    PowerAdd(8, 4, 2);
    PowerAdd(8, 16, 6);
    PowerOnes(10);
    PowerAdd(10, 4, 4);
    PowerAdd(10, 8, 8);
    PowerAdd(10, 16, 4);
    PowerOnes(16);
    PowerAdd(16, 4, 4);
    PowerAdd(16, 8, 8);
  }

  /** Everything fits, sign and prefixes included. */
  lemma TextFits(j: Job)
    requires Proper(j)
    ensures |Text(j)| <= Room(j)
  {
    SixtyFourBits(Magnitude(j), j.base, j.digits);
  }

  lemma LeastFits(j: Job)
    ensures Least(j) <= Room(j)
  {
  }

  /** The three bytes added to width and precision are all needed, for any precision. */
  lemma NoByteToSpare(prec: nat, digits: seq<byte>)
    requires prec >= INTBUF && (digits == LDIGITS || digits == UDIGITS)
    ensures var j := Job(1, 16, true, false, digits, Flags(false, true, false, true, true, false, false), 0, prec);
            |Text(j)| == Room(j) == 3 + prec
  {
    assert DigitsOf(1, 16, digits) == [digits[1]];
  }

  lemma DigitChar(u: nat, base: Base, digits: seq<byte>)
    requires digits == LDIGITS || digits == UDIGITS
    ensures u < base ==> DigitsOf(u, base, digits) == [digits[u]]
    ensures u >= base ==>
              var c := if base == 16 then digits[u % 16] else ZERO + Remainder(u, base);
              DigitsOf(u, base, digits) == DigitsOf(Quotient(u, base), base, digits) + [c]
  {
    hide Quotient;
    DecimalDigits(digits);
    assert base == 16 ==> Remainder(u, base) == u % 16;
    assert base != 16 ==> Remainder(u, base) < 10;
  }

  lemma DecimalDigits(digits: seq<byte>)
    requires digits == LDIGITS || digits == UDIGITS
    ensures forall d: nat | d < 10 :: digits[d] == ZERO + d
  {
  }

  // ---------- the formatter ----------

  class Formatter {
    var out: seq<byte>               // what the buffer f.buf holds
    var flags: Flags
    var wid: nat
    var prec: nat
    const intbuf: array<byte>

    constructor (flags: Flags, wid: nat, prec: nat)
      ensures out == [] && this.flags == flags && this.wid == wid && this.prec == prec
      ensures intbuf.Length == INTBUF && fresh(intbuf)
    {
      out := [];
      this.flags, this.wid, this.prec := flags, wid, prec;
      intbuf := new byte[INTBUF](_ => 0);
    }

    /** writePadding */
    method WritePadding(n: int)
      modifies this`out
      ensures out == old(out) + if flags.zero then Zeros(n) else Spaces(n)
    {
      if n <= 0 { return; }
      var padByte := if flags.zero then ZERO else SPACE;
      var padding: seq<byte> := [];
      while |padding| < n
        invariant |padding| <= n && forall k | 0 <= k < |padding| :: padding[k] == padByte
      {
        padding := padding + [padByte];
      }
      assert padding == if flags.zero then Zeros(n) else Spaces(n);
      out := out + padding;
    }

    /** pad, for text in which every byte is a character. */
    method Pad(b: seq<byte>)
      requires !flags.zero
      modifies this`out
      ensures out == old(out) + Padding(flags, wid, b)
    {
      if !flags.widPresent || wid == 0 {
        out := out + b;
        return;
      }
      var width := wid - |b|;
      ghost var before := out;
      if !flags.minus {
        WritePadding(width);
        out := out + b;
        assert (before + Spaces(width)) + b == before + (Spaces(width) + b);
      } else {
        out := out + b;
        WritePadding(width);
        assert (before + b) + Spaces(width) == before + (b + Spaces(width));
      }
    }

    /** i--; buf[i] = c */
    static method Put(buf: array<byte>, i: nat, c: byte) returns (k: nat)
      requires 0 < i <= buf.Length
      modifies buf
      ensures k == i - 1 && buf[k..] == [c] + old(buf[i..])
    {
      k := i - 1;
      buf[k] := c;
    }

    /** The digits, the last one first. */
    static method PutDigits(buf: array<byte>, num: uint64, base: Base, digits: seq<byte>) returns (i: nat)
      requires digits == LDIGITS || digits == UDIGITS
      requires |DigitsOf(num, base, digits)| <= buf.Length
      modifies buf
      ensures i <= buf.Length && buf[i..] == DigitsOf(num, base, digits)
    {
      hide DigitsOf;
      hide Quotient;
      hide Remainder;
      var u: uint64 := num;
      i := buf.Length;
      while u >= base
        invariant i <= buf.Length && DigitsOf(num, base, digits) == DigitsOf(u, base, digits) + buf[i..]
        decreases u
      {
        Divided(u, base);
        DigitChar(u, base, digits);
        var c := if base == 16 then digits[u % 16] else ZERO + Remainder(u, base);
        ghost var before := buf[i..];
        i := Put(buf, i, c);
        u := Quotient(u, base);
        assert DigitsOf(num, base, digits) == DigitsOf(u, base, digits) + ([c] + before);
      }
      DigitChar(u, base, digits);
      i := Put(buf, i, digits[u]);
    }

    /** Leading zeros up to the precision. */
    static method PutZeros(buf: array<byte>, at: nat, prec: int) returns (i: nat)
      requires at <= buf.Length && prec <= buf.Length
      modifies buf
      ensures i <= buf.Length && buf[i..] == Zeros(prec - (buf.Length - at)) + old(buf[at..])
    {
      i := at;
      while i > 0 && prec > buf.Length - i
        invariant i <= at && buf[i..] == Zeros(at - i) + old(buf[at..])
        invariant i == at || prec >= buf.Length - i
      {
        i := Put(buf, i, ZERO);
      }
    }

    /** What # adds: 0b, 0 or 0x. */
    static method PutSharp(buf: array<byte>, at: nat, j: Job) returns (i: nat)
      requires Proper(j) && at <= buf.Length && buf[at..] == Padded0(j) && |Prefix(j)| + |Figures(j)| <= buf.Length
      modifies buf
      ensures i <= buf.Length && buf[i..] == (if j.verbO then [] else Prefix(j)) + Figures(j)
    {
      hide Padded0;
      ghost var figures := Padded0(j);
      i := at;
      if j.flags.sharp {
        if j.base == 2 {
          i := Put(buf, i, 98);
          i := Put(buf, i, ZERO);
        } else if j.base == 8 {
          assert buf[i] == figures[0];
          if buf[i] != ZERO { i := Put(buf, i, ZERO); }
        } else if j.base == 16 {
          i := Put(buf, i, j.digits[16]);
          i := Put(buf, i, ZERO);
        }
      }
    }

    /** All prefixes. */
    static method PutPrefix(buf: array<byte>, at: nat, j: Job) returns (i: nat)
      requires Proper(j) && at <= buf.Length && buf[at..] == Padded0(j) && |Prefix(j)| + |Figures(j)| <= buf.Length
      modifies buf
      ensures i <= buf.Length && buf[i..] == Prefix(j) + Figures(j)
    {
      hide Figures;
      hide Padded0;
      i := PutSharp(buf, at, j);
      if j.verbO {
        i := Put(buf, i, 111);
        i := Put(buf, i, ZERO);
      }
    }

    static method PutSign(buf: array<byte>, at: nat, negative: bool, j: Job) returns (i: nat)
      requires Proper(j) && negative == (Number(j) < 0)
      requires at <= buf.Length && buf[at..] == Prefix(j) + Figures(j) && |Text(j)| <= buf.Length
      modifies buf
      ensures i <= buf.Length && buf[i..] == Text(j)
    {
      hide Figures;
      hide Prefix;
      i := at;
      assert Text(j) == Sign(j) + (Prefix(j) + Figures(j));
      if negative {
        i := Put(buf, i, MINUS);
      } else if j.flags.plus {
        i := Put(buf, i, PLUS);
      } else if j.flags.space {
        i := Put(buf, i, SPACE);
      }
    }

    /** Writes the text from the end of the buffer, which is large enough, backwards. */
    static method PutText(buf: array<byte>, u: uint64, negative: bool, least: int, j: Job) returns (i: nat)
      requires Proper(j) && buf.Length == Room(j)
      requires u == Magnitude(j) && negative == (Number(j) < 0) && least == Least(j)
      modifies buf
      ensures i <= buf.Length && buf[i..] == Text(j)
    {
      hide DigitsOf;
      hide Figures;
      hide Sign;
      hide Prefix;
      TextFits(j);
      LeastFits(j);
      SixtyFourBits(u, j.base, j.digits);
      i := PutDigits(buf, u, j.base, j.digits);
      i := PutZeros(buf, i, least);
      i := PutPrefix(buf, i, j);
      i := PutSign(buf, i, negative, j);
    }

    /** Padding with f.zero switched off for the time being. */
    method PadPlain(b: seq<byte>)
      modifies this`out, this`flags
      ensures out == old(out) + Padding(flags, wid, b) && flags == old(flags)
    {
      var oldZero := flags.zero;
      flags := flags.(zero := false);
      Pad(b);
      flags := flags.(zero := oldZero);
    }

    method PadBlank(n: int)
      modifies this`out, this`flags
      ensures out == old(out) + Spaces(n) && flags == old(flags)
    {
      var oldZero := flags.zero;
      flags := flags.(zero := false);
      WritePadding(n);
      flags := flags.(zero := oldZero);
    }

    /** fmtInteger */
    method FmtInteger(num: uint64, base: Base, isSigned: bool, verbO: bool, digits: seq<byte>)
      requires Proper(Job(num, base, isSigned, verbO, digits, flags, wid, prec)) && intbuf.Length == INTBUF
      modifies this`out, this`flags, intbuf
      ensures out == old(out) + Output(Job(num, base, isSigned, verbO, digits, old(flags), wid, prec))
        && flags == old(flags)
    {
      hide Text;
      hide Padding;
      hide Spaces;
      ghost var j := Job(num, base, isSigned, verbO, digits, flags, wid, prec);
      var negative := isSigned && num >= 0x8000_0000_0000_0000;
      var u: uint64 := if negative then MOD64 - num else num;
      var buf := intbuf;
      if flags.widPresent || flags.precPresent {
        var width := 3 + wid + prec;
        if width > buf.Length { buf := new byte[width](_ => 0); }
      }
      var least: int := 0;
      if flags.precPresent {
        least := prec;
        if least == 0 && u == 0 {
          PadBlank(wid);
          return;
        }
      } else if flags.zero && flags.widPresent {
        least := wid;
        if negative || flags.plus || flags.space { least := least - 1; }
      }
      var i := PutText(buf, u, negative, least, Job(num, base, isSigned, verbO, digits, flags, wid, prec));
      PadPlain(buf[i..]);
    }
  }
}

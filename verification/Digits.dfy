/** Printing of 64-bit numbers in a base from 2 to 16: digits filled in backwards, then turned round. */
module Digits {
  import opened Common

  const CHARS: string := "0123456789ABCDEF"

  predicate Base(base: nat) { 2 <= base <= 16 }

  function Power(base: nat, n: nat): nat { if n == 0 then 1 else base * Power(base, n - 1) }

  lemma Products(a: nat, b: nat, x: nat, y: nat)
    requires a <= b && x <= y
    ensures a * x <= b * y
  {
    assert b * y == a * x + (b - a) * x + b * (y - x);
  }

  lemma DivMod(i: nat, base: nat)
    requires Base(base)
    ensures i == base * (i / base) + i % base && 0 <= i % base < base && 0 <= i / base
    ensures i > 0 ==> i / base < i
  {
    var q := i / base;
    Products(2, base, q, q);
  }

  /** The digits of a number, least significant first, none for zero. */
  function Reversed(i: nat, base: nat): seq<char>
    requires Base(base)
  {
    DivMod(i, base);
    if i == 0 then [] else [CHARS[i % base]] + Reversed(i / base, base)
  }

  function DigitOf(c: char): int {
    if '0' <= c <= '9' then c as int - '0' as int
    else if 'A' <= c <= 'F' then c as int - 'A' as int + 10
    else -1
  }

  /** The number a numeral stands for, most significant digit first. */
  function Read(s: seq<char>, base: nat): int {
    if s == [] then 0 else base * Read(s[..|s| - 1], base) + DigitOf(s[|s| - 1])
  }

  function Flip(s: seq<char>): seq<char> { seq(|s|, k requires 0 <= k < |s| => s[|s| - 1 - k]) }

  /** The numeral ltoa prints. */
  function Numeral(i: nat, base: nat): seq<char>
    requires Base(base)
  {
    if i == 0 then "0" else Flip(Reversed(i, base))
  }

  lemma CharDigit(d: nat)
    requires d < 16
    ensures DigitOf(CHARS[d]) == d
  {
  }

  lemma FlipFirst(c: char, s: seq<char>)
    ensures Flip([c] + s)[..|s|] == Flip(s) && Flip([c] + s)[|s|] == c
  {
  }

  lemma ReadStep(r: nat, s: seq<char>, base: nat)
    requires r < 16
    ensures Read(Flip([CHARS[r]] + s), base) == base * Read(Flip(s), base) + r
  {
    CharDigit(r);
    FlipFirst(CHARS[r], s);
  }

  lemma {:induction false} ReadReversed(i: nat, base: nat)
    requires Base(base)
    ensures Read(Flip(Reversed(i, base)), base) == i
  {
    if i > 0 {
      DivMod(i, base);
      ReadReversed(i / base, base);
      ReadStep(i % base, Reversed(i / base, base), base);
    }
  }

  /** Main result: reading back what is printed gives the number. */
  lemma ReadNumeral(i: nat, base: nat)
    requires Base(base)
    ensures Read(Numeral(i, base), base) == i
  {
    if i == 0 {
      assert Numeral(0, base)[..0] == [];
    } else {
      ReadReversed(i, base);
    }
  }

  lemma {:induction false} LastNotZero(i: nat, base: nat)
    requires Base(base) && i > 0
    ensures Reversed(i, base) != [] && Reversed(i, base)[|Reversed(i, base)| - 1] != '0'
  {
    DivMod(i, base);
    if i / base > 0 {
      LastNotZero(i / base, base);
    } else {
      CharDigit(i % base);
    }
  }

  /** Main result: no leading zero, except for zero itself. */
  lemma NoLeadingZero(i: nat, base: nat)
    requires Base(base)
    ensures Numeral(i, base) != [] && (Numeral(i, base)[0] == '0' <==> i == 0)
  {
    if i > 0 { LastNotZero(i, base); }
  }

  lemma Quotient(i: nat, base: nat, p: nat)
    requires base > 0
    ensures i < base * p <==> i / base < p
  {
    var q := i / base;
    assert i == base * q + i % base;
    if q < p { assert base * (q + 1) <= base * p; }
    if q >= p { assert base * q >= base * p; }
  }

  /** Main result: at most `n` digits exactly below `base` to the `n`. */
  lemma {:induction false} DigitCount(i: nat, base: nat, n: nat)
    requires Base(base)
    ensures |Reversed(i, base)| <= n <==> i < Power(base, n)
    decreases n
  {
    if n > 0 {
      Quotient(i, base, Power(base, n - 1));
      DigitCount(i / base, base, n - 1);
      if i == 0 { PowerPositive(base, n); }
    }
  }

  lemma {:induction false} PowerPositive(base: nat, n: nat)
    requires base > 0
    ensures Power(base, n) > 0
  {
    if n > 0 { PowerPositive(base, n - 1); }
  }

  lemma {:induction false} PowerAdds(base: nat, m: nat, n: nat)
    ensures Power(base, m + n) == Power(base, m) * Power(base, n)
  {
    if m > 0 {
      PowerAdds(base, m - 1, n);
      var a, b := Power(base, m - 1), Power(base, n);
      assert base * (a * b) == (base * a) * b;
    }
  }

  lemma SixteenHex()
    ensures Power(16, 16) == 0x1_0000_0000_0000_0000
  {
    assert Power(16, 1) == 16;
    PowerAdds(16, 1, 1);
    PowerAdds(16, 2, 2);
    PowerAdds(16, 4, 4);
    PowerAdds(16, 8, 8);
  }

  lemma TwentyDecimal()
    ensures Power(10, 20) == 100_000_000_000_000_000_000
  {
    assert Power(10, 1) == 10;
    PowerAdds(10, 1, 1);
    PowerAdds(10, 2, 2);
    PowerAdds(10, 4, 1);
    PowerAdds(10, 5, 5);
    PowerAdds(10, 10, 10);
  }

  /** Main result: a 64-bit number has at most 20 decimal and 16 hexadecimal digits. */
  lemma WordDigits(i: nat)
    requires i < 0x1_0000_0000_0000_0000
    ensures |Numeral(i, 10)| <= 20 && |Numeral(i, 16)| <= 16
  {
    SixteenHex();
    TwentyDecimal();
    DigitCount(i, 16, 16);
    DigitCount(i, 10, 20);
  }

  lemma {:induction false} PowerGrows(a: nat, b: nat, n: nat)
    requires a <= b
    ensures Power(a, n) <= Power(b, n)
  {
    if n > 0 {
      PowerGrows(a, b, n - 1);
      Products(a, b, Power(a, n - 1), Power(b, n - 1));
    }
  }

  lemma ThirtyTwo(base: nat)
    requires base == 3 || base == 4
    ensures Power(base, 32) == if base == 3 then 1853020188851841 else 0x1_0000_0000_0000_0000
  {
    assert Power(base, 1) == base;
    PowerAdds(base, 1, 1);
    PowerAdds(base, 2, 2);
    PowerAdds(base, 4, 4);
    PowerAdds(base, 8, 8);
    PowerAdds(base, 16, 16);
  }

  /** Main result: the 32 places ltoa has for digits are enough for every 64-bit number exactly from base 4 on. */
  lemma ScratchFitsIff(base: nat)
    requires Base(base)
    ensures (forall i: nat | i < 0x1_0000_0000_0000_0000 :: |Reversed(i, base)| <= 32) <==> base >= 4
  {
    if base >= 4 {
      ThirtyTwo(4);
      PowerGrows(4, base, 32);
      forall i: nat | i < 0x1_0000_0000_0000_0000 ensures |Reversed(i, base)| <= 32 { DigitCount(i, base, 32); }
    } else {
      ThirtyTwo(3);
      PowerGrows(base, 3, 32);
      DigitCount(0xffff_ffff_ffff_ffff, base, 32);
      assert |Reversed(0xffff_ffff_ffff_ffff, base)| > 32;
    }
  }

  // ----- The loops ---------------------------------------------------------------------------------

  /** The text a C string buffer holds from `from` on. */
  ghost predicate HoldsText(buf: array<char>, from: nat, text: seq<char>)
    reads buf
  {
    from + |text| < buf.Length && buf[from..from + |text|] == text && buf[from + |text|] == '\0'
  }

  lemma FillStep(done: seq<char>, rest: nat, base: nat)
    requires Base(base) && rest > 0
    ensures DigitAt(rest, base) < 16
      && done + Reversed(rest, base) == done + [CHARS[DigitAt(rest, base)]] + Reversed(Rest(rest, base), base)
  {
    DivMod(rest, base);
  }

  function DigitAt(i: nat, base: nat): (d: nat)
    requires Base(base)
    ensures d < 16
  {
    DivMod(i, base);
    i % base
  }

  function Rest(i: nat, base: nat): (q: nat)
    requires Base(base)
    ensures i > 0 ==> q < i
  {
    DivMod(i, base);
    i / base
  }

  /** The first loop: the digits backwards into the scratch buffer. */
  method Fill(i: nat, base: nat, tbuf: array<char>) returns (pos: nat)
    requires Base(base) && |Reversed(i, base)| <= tbuf.Length
    modifies tbuf
    ensures pos == |Reversed(i, base)| && tbuf[..pos] == Reversed(i, base)
  {
    var rest: nat := i;
    pos := 0;
    while rest != 0
      invariant pos <= tbuf.Length && Reversed(i, base) == tbuf[..pos] + Reversed(rest, base)
      decreases rest
    {
      var next := Rest(rest, base);
      FillStep(tbuf[..pos], rest, base);
      tbuf[pos] := CHARS[DigitAt(rest, base)];
      pos, rest := pos + 1, next;
    }
  }

  ghost predicate CopiedAt(buf: seq<char>, from: nat, s: seq<char>, k: int) {
    0 <= k < |s| && from + k < |buf| && buf[from + k] == s[|s| - 1 - k]
  }

  lemma AllCopied(buf: seq<char>, from: nat, s: seq<char>)
    requires from + |s| <= |buf| && forall k | 0 <= k < |s| :: CopiedAt(buf, from, s, k)
    ensures buf[from..from + |s|] == Flip(s)
  {
    forall k | 0 <= k < |s| ensures buf[from..from + |s|][k] == Flip(s)[k] {
      assert CopiedAt(buf, from, s, k);
    }
  }

  /** The second loop: copied out in the other direction. */
  method TurnRound(tbuf: array<char>, top: nat, buf: array<char>, from: nat)
    requires top <= tbuf.Length && from + top < buf.Length && buf != tbuf
    modifies buf
    ensures HoldsText(buf, from, Flip(tbuf[..top])) && buf[..from] == old(buf[..from])
  {
    ghost var s := tbuf[..top];
    var pos, opos := top - 1, 0;
    while opos < top
      invariant 0 <= opos <= top && pos == top - 1 - opos
      invariant forall k | 0 <= k < opos :: CopiedAt(buf[..], from, s, k)
      invariant buf[..from] == old(buf[..from])
    {
      ghost var before := buf[..];
      buf[from + opos] := tbuf[pos];
      forall k | 0 <= k <= opos ensures CopiedAt(buf[..], from, s, k) {
        assert k == opos || CopiedAt(before, from, s, k);
      }
      pos, opos := pos - 1, opos + 1;
    }
    ghost var before := buf[..];
    buf[from + opos] := '\0';
    forall k | 0 <= k < top ensures CopiedAt(buf[..], from, s, k) {
      assert CopiedAt(before, from, s, k);
    }
    AllCopied(buf[..], from, s);
    assert buf[..][from..from + top] == buf[from..from + top];
  }

  /** ltoa, writing at `from`. A base above 16 prints the number as zero. The scratch buffer has 32 places. */
  method Ltoa(i: nat, base: nat, tbuf: array<char>, buf: array<char>, from: nat) returns (ok: bool)
    requires i != 0 && base <= 16 ==> Base(base) && i < Power(base, 32)
    requires tbuf.Length == 32 && buf != tbuf && from + 1 < buf.Length
    requires i != 0 && base <= 16 ==> from + |Numeral(i, base)| < buf.Length
    modifies tbuf, buf
    ensures ok <==> i != 0 && base <= 16
    ensures HoldsText(buf, from, if ok then Numeral(i, base) else "0")
    ensures buf[..from] == old(buf[..from])
  {
    if i == 0 || base > 16 {
      buf[from] := '0';
      buf[from + 1] := '\0';
      return false;
    }
    DigitCount(i, base, 32);
    var pos := Fill(i, base, tbuf);
    TurnRound(tbuf, pos, buf, from);
    return true;
  }

  /** ltoa_s: a sign, then the magnitude. The most negative number is its own negation in 64 bits and is
      printed as the unsigned number it then is, which is its magnitude. */
  method LtoaSigned(i: int, base: nat, tbuf: array<char>, buf: array<char>)
    requires -0x8000_0000_0000_0000 <= i < 0x8000_0000_0000_0000
    requires base <= 16 ==>
      Base(base) && Magnitude(i) < Power(base, 32) && 1 + |Numeral(Magnitude(i), base)| < buf.Length
    requires tbuf.Length == 32 && buf != tbuf && buf.Length > 2
    modifies tbuf, buf
    ensures base <= 16 ==> HoldsText(buf, 0, SignedNumeral(i, base))
    ensures base > 16 ==> buf[..] == old(buf[..])
  {
    if base > 16 { return; }
    if i < 0 {
      buf[0] := '-';
      var u := Negated(i);
      var ok := Ltoa(u, base, tbuf, buf, 1);
      SignBefore(buf, Numeral(u, base));
    } else {
      var ok := Ltoa(i, base, tbuf, buf, 0);
    }
  }

  /** The negation of a negative number in 64 bits, taken as unsigned. */
  function Negated(i: int): (u: nat)
    requires -0x8000_0000_0000_0000 <= i < 0
    ensures u == -i
  {
    Wrapped(if i == -0x8000_0000_0000_0000 then i else -i)
  }

  lemma SignBefore(buf: array<char>, text: seq<char>)
    requires HoldsText(buf, 1, text) && buf[..1] == "-"
    ensures HoldsText(buf, 0, "-" + text)
  {
    assert buf[0] == buf[..1][0];
    assert buf[0..1 + |text|] == "-" + buf[1..1 + |text|];
  }

  function Magnitude(i: int): nat { if i < 0 then -i else i }

  function SignedNumeral(i: int, base: nat): seq<char>
    requires Base(base)
  {
    if i < 0 then "-" + Numeral(-i, base) else Numeral(i, base)
  }

  function ReadSigned(s: seq<char>, base: nat): int {
    if s != [] && s[0] == '-' then -Read(s[1..], base) else Read(s, base)
  }

  lemma {:induction false} NoSignInside(i: nat, base: nat, k: nat)
    requires Base(base) && k < |Reversed(i, base)|
    ensures Reversed(i, base)[k] != '-'
  {
    DivMod(i, base);
    if k > 0 {
      NoSignInside(i / base, base, k - 1);
    } else {
      CharDigit(i % base);
    }
  }

  /** Main result: signed numbers read back, the most negative one included. */
  lemma ReadSignedNumeral(i: int, base: nat)
    requires Base(base)
    ensures ReadSigned(SignedNumeral(i, base), base) == i
  {
    ReadNumeral(Magnitude(i), base);
    NoLeadingZero(Magnitude(i), base);
    if i < 0 {
      assert SignedNumeral(i, base)[1..] == Numeral(-i, base);
    } else if i > 0 {
      NoSignInside(i, base, |Reversed(i, base)| - 1);
    }
  }
}

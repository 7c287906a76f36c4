/** The bitmap of physical blocks: 32-bit words, a set bit for a used block. */
module FrameBitmap {

  /** The number `j` as a shift amount. */
  function Amount(j: nat): bv32 { if j == 0 then 0 else Amount(j - 1) + 1 }

  function Mask(j: nat): bv32
    requires j < 32
  {
    AmountInRange(j);
    1 << Amount(j)
  }

  lemma Increment(x: bv32)
    requires x < 64
    ensures (x + 1) as int == x as int + 1
  {
  }

  lemma {:induction false} AmountValue(j: nat)
    requires j <= 32
    ensures Amount(j) as int == j && Amount(j) <= 32
  {
    if j > 0 {
      AmountValue(j - 1);
      Increment(Amount(j - 1));
    }
  }

  lemma AmountInRange(j: nat)
    requires j < 32
    ensures Amount(j) < 32
  {
    AmountValue(j);
  }

  lemma Apart(x: bv32, y: bv32)
    requires x < 32 && y < 32 && x != y
    ensures (1 as bv32 << x) & (1 << y) == 0
  {
  }

  lemma NonZero(x: bv32)
    requires x < 32
    ensures (1 as bv32 << x) != 0
  {
  }

  lemma SetWord(w: bv32, a: bv32, b: bv32)
    requires a & b == 0
    ensures (w | a) & b == w & b
  {
  }

  lemma ClearWord(w: bv32, a: bv32, b: bv32)
    requires a & b == 0
    ensures (w & !a) & b == w & b
  {
  }

  lemma SetOwn(w: bv32, a: bv32)
    requires a != 0
    ensures (w | a) & a != 0
  {
  }

  lemma ClearOwn(w: bv32, a: bv32)
    ensures (w & !a) & a == 0
  {
  }

  lemma FullWord(j: bv32)
    requires j < 32
    ensures (0xffffffff as bv32) & (1 << j) != 0
  {
  }

  predicate Has(w: bv32, j: nat)
    requires j < 32
  {
    w & Mask(j) != 0
  }

  function With(w: bv32, j: nat): bv32
    requires j < 32
  {
    w | Mask(j)
  }

  function Without(w: bv32, j: nat): bv32
    requires j < 32
  {
    w & !Mask(j)
  }

  lemma AmountsDiffer(j: nat, k: nat)
    requires j < 32 && k < 32 && j != k
    ensures Amount(j) != Amount(k)
  {
    AmountValue(j);
    AmountValue(k);
  }

  lemma MasksApart(j: nat, k: nat)
    requires j < 32 && k < 32 && j != k
    ensures Mask(j) & Mask(k) == 0
  {
    AmountInRange(j);
    AmountInRange(k);
    AmountsDiffer(j, k);
    Apart(Amount(j), Amount(k));
  }

  lemma MaskNonZero(j: nat)
    requires j < 32
    ensures Mask(j) != 0
  {
    AmountInRange(j);
    NonZero(Amount(j));
  }

  lemma WithOther(w: bv32, j: nat, k: nat)
    requires j < 32 && k < 32 && j != k
    ensures Has(With(w, j), k) == Has(w, k)
  {
    MasksApart(j, k);
    SetWord(w, Mask(j), Mask(k));
  }

  lemma WithOwn(w: bv32, j: nat)
    requires j < 32
    ensures Has(With(w, j), j)
  {
    MaskNonZero(j);
    SetOwn(w, Mask(j));
  }

  lemma WithoutOther(w: bv32, j: nat, k: nat)
    requires j < 32 && k < 32 && j != k
    ensures Has(Without(w, j), k) == Has(w, k)
  {
    MasksApart(j, k);
    ClearWord(w, Mask(j), Mask(k));
  }

  lemma WithoutOwn(w: bv32, j: nat)
    requires j < 32
    ensures !Has(Without(w, j), j)
  {
    ClearOwn(w, Mask(j));
  }

  // ----- Bits of the whole map ---------------------------------------------------------------------

  type Words = seq<bv32>

  predicate Bit(m: Words, b: nat)
    requires b < 32 * |m|
  {
    Has(m[b / 32], b % 32)
  }

  function SetBit(m: Words, b: nat): Words
    requires b < 32 * |m|
  {
    m[b / 32 := With(m[b / 32], b % 32)]
  }

  function ClearBit(m: Words, b: nat): Words
    requires b < 32 * |m|
  {
    m[b / 32 := Without(m[b / 32], b % 32)]
  }

  lemma SetBitSets(m: Words, b: nat, c: nat)
    requires b < 32 * |m| && c < 32 * |m|
    ensures Bit(SetBit(m, b), c) <==> b == c || Bit(m, c)
  {
    if b == c {
      WithOwn(m[b / 32], b % 32);
    } else if b / 32 == c / 32 {
      WithOther(m[b / 32], b % 32, c % 32);
    }
  }

  lemma ClearBitClears(m: Words, b: nat, c: nat)
    requires b < 32 * |m| && c < 32 * |m|
    ensures Bit(ClearBit(m, b), c) <==> b != c && Bit(m, c)
  {
    if b == c {
      WithoutOwn(m[b / 32], b % 32);
    } else if b / 32 == c / 32 {
      WithoutOther(m[b / 32], b % 32, c % 32);
    }
  }

  ghost function Used(m: Words): set<nat> { set b: nat | b < 32 * |m| && Bit(m, b) }

  lemma SetBitAdds(m: Words, b: nat)
    requires b < 32 * |m|
    ensures Used(SetBit(m, b)) == Used(m) + {b}
  {
    forall c: nat | c < 32 * |m| ensures Bit(SetBit(m, b), c) <==> b == c || Bit(m, c) { SetBitSets(m, b, c); }
  }

  lemma ClearBitRemoves(m: Words, b: nat)
    requires b < 32 * |m|
    ensures Used(ClearBit(m, b)) == Used(m) - {b}
  {
    forall c: nat | c < 32 * |m| ensures Bit(ClearBit(m, b), c) <==> b != c && Bit(m, c) { ClearBitClears(m, b, c); }
  }

  /** Block `b` is free and no block from `lo` on before it is; or there is none below `hi`. */
  ghost predicate IsFirstFree(m: Words, lo: nat, hi: nat, r: int)
    requires hi <= 32 * |m|
  {
    if r < 0 then r == -1 && forall c: nat | lo <= c < hi :: Bit(m, c)
    else lo <= r < hi && !Bit(m, r) && forall c: nat | lo <= c < r :: Bit(m, c)
  }

  lemma FirstFreeIsUnique(m: Words, lo: nat, hi: nat, r: int, r': int)
    requires hi <= 32 * |m| && IsFirstFree(m, lo, hi, r) && IsFirstFree(m, lo, hi, r')
    ensures r == r'
  {
  }

  lemma FullWordIsFull(m: Words, i: nat, c: nat)
    requires i < |m| && m[i] == 0xffffffff && 32 * i <= c < 32 * i + 32
    ensures Bit(m, c)
  {
    assert c / 32 == i;
    AmountInRange(c % 32);
    FullWord(Amount(c % 32));
  }

  /** The search, word by word: a full word is skipped, in any other the bits are tried in order. */
  method FirstFreeStartingFrom(m: array<bv32>, totalBlocks: nat, from: nat) returns (r: int)
    requires totalBlocks / 32 <= m.Length
    ensures IsFirstFree(m[..], 32 * from, 32 * (totalBlocks / 32), r)
  {
    var i := from;
    while i < totalBlocks / 32
      invariant from <= i && (i <= totalBlocks / 32 || i == from)
      invariant forall c: nat | 32 * from <= c < 32 * i && c < 32 * m.Length :: Bit(m[..], c)
    {
      if m[i] != 0xffffffff {
        for j := 0 to 32
          invariant forall c: nat | 32 * from <= c < 32 * i + j :: Bit(m[..], c)
        {
          assert (32 * i + j) / 32 == i && (32 * i + j) % 32 == j;
          if !Has(m[i], j) { return i * 4 * 8 + j; }
        }
      } else {
        forall c: nat | 32 * i <= c < 32 * i + 32 ensures Bit(m[..], c) { FullWordIsFull(m[..], i, c); }
      }
      i := i + 1;
    }
    return -1;
  }
}

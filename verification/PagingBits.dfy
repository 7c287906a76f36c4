/** The bit layout of virtual addresses and page-table entries. */
module PagingBits {

  const RECURSE_ACTIVE: bv64 := 510
  const RECURSE_OTHER: bv64 := 509

  datatype PagingPath = PagingPath(pl4: bv64, dpt: bv64, pd: bv64, pt: bv64)

  datatype PageProperties = PageProperties(writable: bool, user: bool, cacheDisable: bool)

  const PageKernelWrite := PageProperties(true, false, false)
  const PageUserWrite := PageProperties(true, true, false)

  // ----- Addresses -------------------------------------------------------------------------------

  function Pl4Index(x: bv64): bv64 { (x & 0xff8000000000) >> 39 }
  function DptIndex(x: bv64): bv64 { (x & 0x007fc0000000) >> 30 }
  function DirIndex(x: bv64): bv64 { (x & 0x00003fe00000) >> 21 }
  function TabIndex(x: bv64): bv64 { (x & 0x0000001ff000) >> 12 }
  function PageOffset(x: bv64): bv64 { x & 0xfff }

  function GetPagingPath(x: bv64): PagingPath {
    PagingPath(Pl4Index(x), DptIndex(x), DirIndex(x), TabIndex(x))
  }

  function RecursiveAddress(gate: bv64, p3: bv64, p2: bv64, p1: bv64): bv64 {
    (0xffff << 48) | (gate << 39) | (p3 << 30) | (p2 << 21) | (p1 << 12)
  }

  function SignExtend(v: bv64): bv64 {
    if v & 0x800000000000 != 0 then v | 0xffff800000000000 else v
  }

  function GetAddress(p: PagingPath): bv64 {
    SignExtend(RawAddress(p.pl4, p.dpt, p.pd, p.pt))
  }

  predicate Index(i: bv64) { i < 512 }

  predicate ValidPath(p: PagingPath) { Index(p.pl4) && Index(p.dpt) && Index(p.pd) && Index(p.pt) }

  predicate Canonical(x: bv64) { x & 0xffff800000000000 == 0 || x & 0xffff800000000000 == 0xffff800000000000 }

  lemma PathIsValid(x: bv64)
    ensures ValidPath(GetPagingPath(x))
  {
  }

  /** The hardware indices of a recursive address are the ones it was built from. */
  lemma PathOfRecursive(gate: bv64, p3: bv64, p2: bv64, p1: bv64)
    requires Index(gate) && Index(p3) && Index(p2) && Index(p1)
    ensures GetPagingPath(RecursiveAddress(gate, p3, p2, p1)) == PagingPath(gate, p3, p2, p1)
    ensures PageOffset(RecursiveAddress(gate, p3, p2, p1)) == 0
  {
  }

  lemma RawPath(a: bv64, b: bv64, c: bv64, d: bv64, x: bv64)
    requires Index(a) && Index(b) && Index(c) && Index(d)
    requires x == (a << 39) | (b << 30) | (c << 21) | (d << 12)
    ensures GetPagingPath(x) == PagingPath(a, b, c, d) && x & 0xffff000000000fff == 0
  {
  }

  lemma Extended(x: bv64)
    requires x & 0x800000000000 != 0
    ensures GetPagingPath(x | 0xffff800000000000) == GetPagingPath(x)
    ensures Canonical(x | 0xffff800000000000) && PageOffset(x | 0xffff800000000000) == PageOffset(x)
  {
  }

  lemma NotExtended(x: bv64)
    requires x & 0xffff000000000000 == 0 && x & 0x800000000000 == 0
    ensures Canonical(x)
  {
  }

  lemma NoOffset(x: bv64)
    requires x & 0xffff000000000fff == 0
    ensures x & 0xffff000000000000 == 0 && PageOffset(x) == 0
  {
  }

  lemma SignExtended(x: bv64)
    requires x & 0xffff000000000000 == 0
    ensures GetPagingPath(SignExtend(x)) == GetPagingPath(x) && Canonical(SignExtend(x))
    ensures PageOffset(SignExtend(x)) == PageOffset(x)
  {
    if x & 0x800000000000 != 0 { Extended(x); } else { NotExtended(x); }
  }

  function RawAddress(a: bv64, b: bv64, c: bv64, d: bv64): bv64 { (a << 39) | (b << 30) | (c << 21) | (d << 12) }

  lemma PathOfRaw(a: bv64, b: bv64, c: bv64, d: bv64, x: bv64, y: bv64)
    requires Index(a) && Index(b) && Index(c) && Index(d) && x == RawAddress(a, b, c, d) && y == SignExtend(x)
    ensures GetPagingPath(y) == PagingPath(a, b, c, d) && Canonical(y) && PageOffset(y) == 0
  {
    RawPath(a, b, c, d, x);
    NoOffset(x);
    SignExtended(x);
  }

  /** Path to address and back. */
  lemma PathOfAddress(p: PagingPath)
    requires ValidPath(p)
    ensures GetPagingPath(GetAddress(p)) == p && Canonical(GetAddress(p)) && PageOffset(GetAddress(p)) == 0
  {
    PathOfRaw(p.pl4, p.dpt, p.pd, p.pt, RawAddress(p.pl4, p.dpt, p.pd, p.pt), GetAddress(p));
  }

  lemma Recombine(x: bv64)
    ensures (Pl4Index(x) << 39) | (DptIndex(x) << 30) | (DirIndex(x) << 21) | (TabIndex(x) << 12) ==
      x & 0x0000fffffffff000
  {
  }

  lemma LowHalf(x: bv64)
    requires x & 0xffff800000000000 == 0
    ensures (x & 0x0000fffffffff000) & 0x800000000000 == 0 && (x & 0x0000fffffffff000) | PageOffset(x) == x
  {
  }

  lemma HighHalf(x: bv64)
    requires x & 0xffff800000000000 == 0xffff800000000000
    ensures (x & 0x0000fffffffff000) & 0x800000000000 != 0
    ensures ((x & 0x0000fffffffff000) | 0xffff800000000000) | PageOffset(x) == x
  {
  }

  /** Four indices of nine bits from bit 47 down, and twelve bits of offset. */
  lemma AddressBits(x: bv64)
    ensures (Pl4Index(x) << 39) | (DptIndex(x) << 30) | (DirIndex(x) << 21) | (TabIndex(x) << 12) | PageOffset(x) ==
      x & 0x0000ffffffffffff
  {
  }

  /** A canonical address is its path and its page offset. */
  lemma AddressOfPath(x: bv64)
    requires Canonical(x)
    ensures GetAddress(GetPagingPath(x)) | PageOffset(x) == x
  {
    Recombine(x);
    if x & 0xffff800000000000 == 0 { LowHalf(x); } else { HighHalf(x); }
  }

  // ----- Entries -----------------------------------------------------------------------------------

  predicate Present(e: bv64) { e & 1 != 0 }

  /** The frame the hardware takes from an entry: bits 51 to 12. */
  function FrameOf(e: bv64): bv64 { e & 0x000ffffffffff000 }

  /** The frame the kernel takes from an entry: all but the low 12 bits. */
  function KernelFrameOf(e: bv64): bv64 { e & 0xfffffffffffff000 }

  predicate IsFrame(f: bv64) { f & 0x000ffffffffff000 == f }

  predicate PhysOk(a: bv64) { a & 0xfff0000000000000 == 0 }

  function PageBase(a: bv64): bv64 { a & 0xfffffffffffff000 }

  function Flags(prop: PageProperties): bv64 {
    (if prop.writable then 2 else 0) | (if prop.user then 4 else 0) | (if prop.cacheDisable then 8 else 0)
  }

  function PageCreate(addr: bv64, prop: PageProperties): bv64 {
    WithFlags(addr, Flags(prop))
  }

  function WithFlags(addr: bv64, flags: bv64): bv64 {
    ((addr & 0xfffffffffffff000) | flags | 1) & 0x7fffffffffffffff
  }

  function ClearPresent(e: bv64): bv64 { e & 0xfffffffffffffffe }

  /** An entry as the hardware reads it. Bit 3 is the one the kernel sets to disable caching. */
  datatype Pte = Pte(present: bool, frame: int, prop: PageProperties)

  function RightsOf(e: bv64): PageProperties { PageProperties(e & 2 != 0, e & 4 != 0, e & 8 != 0) }

  function Decoded(e: bv64): Pte { Pte(Present(e), FrameOf(e) as int, RightsOf(e)) }

  lemma FlagsBound(prop: PageProperties)
    ensures Flags(prop) & 0xfffffffffffffff1 == 0 && RightsOf(Flags(prop)) == prop
  {
  }

  /** The flags stay apart from the frame and from the bits that page_create leaves clear. */
  lemma EntryFlags(addr: bv64, flags: bv64)
    requires flags & 0xfffffffffffffff1 == 0
    ensures RightsOf(WithFlags(addr, flags)) == RightsOf(flags)
    ensures WithFlags(addr, flags) & 0x8000000000000ff0 == 0
  {
  }

  lemma EntryPresent(addr: bv64, flags: bv64)
    ensures Present(WithFlags(addr, flags))
  {
  }

  lemma FrameIsFrame(e: bv64)
    ensures IsFrame(FrameOf(e))
  {
  }

  lemma EntryFrame(addr: bv64, flags: bv64)
    requires PhysOk(addr) && flags & 0xfffffffffffffff1 == 0
    ensures FrameOf(WithFlags(addr, flags)) == PageBase(addr)
  {
  }

  lemma EntryKernelFrame(addr: bv64, flags: bv64)
    requires PhysOk(addr) && flags & 0xfffffffffffffff1 == 0
    ensures KernelFrameOf(WithFlags(addr, flags)) == PageBase(addr)
  {
  }

  lemma EntryAbove(addr: bv64, flags: bv64)
    requires flags & 0xfffffffffffffff1 == 0 && FrameOf(WithFlags(addr, flags)) == PageBase(addr)
    ensures PhysOk(addr)
  {
  }

  lemma FlaggedEntry(addr: bv64, flags: bv64, e: bv64)
    requires flags & 0xfffffffffffffff1 == 0 && e == WithFlags(addr, flags)
    ensures Present(e) && IsFrame(FrameOf(e))
    ensures FrameOf(e) == PageBase(addr) <==> PhysOk(addr)
    ensures PhysOk(addr) ==> KernelFrameOf(e) == PageBase(addr)
    ensures RightsOf(e) == RightsOf(flags) && e & 0x8000000000000ff0 == 0
  {
    EntryPresent(addr, flags);
    EntryFlags(addr, flags);
    FrameIsFrame(e);
    if PhysOk(addr) {
      EntryFrame(addr, flags);
      EntryKernelFrame(addr, flags);
    }
    if FrameOf(e) == PageBase(addr) { EntryAbove(addr, flags); }
  }

  /** A created entry is present and has exactly the properties asked for: bit 1 to write, bit 2 for user mode,
      bit 3 against caching, no other flag, execution allowed. The hardware reads the page's frame back exactly
      when the address lies below 2^52, and then so does the kernel. */
  lemma CreatedEntry(addr: bv64, prop: PageProperties)
    ensures Present(PageCreate(addr, prop)) && IsFrame(FrameOf(PageCreate(addr, prop)))
    ensures FrameOf(PageCreate(addr, prop)) == PageBase(addr) <==> PhysOk(addr)
    ensures PhysOk(addr) ==> KernelFrameOf(PageCreate(addr, prop)) == PageBase(addr)
    ensures var e := PageCreate(addr, prop);
      && (e & 2 != 0 <==> prop.writable) && (e & 4 != 0 <==> prop.user) && (e & 8 != 0 <==> prop.cacheDisable)
      && e & 0x8000000000000ff0 == 0
  {
    FlagsBound(prop);
    FlaggedEntry(addr, Flags(prop), PageCreate(addr, prop));
  }

  /** Main result: the hardware reads back what page_create was given. */
  lemma CreatedReads(addr: bv64, prop: PageProperties)
    ensures Decoded(PageCreate(addr, prop)) == Pte(true, FrameOf(PageCreate(addr, prop)) as int, prop)
    ensures PhysOk(addr) ==> Decoded(PageCreate(addr, prop)).frame == PageBase(addr) as int
  {
    CreatedEntry(addr, prop);
  }

  lemma ClearedEntry(e: bv64)
    ensures !Present(ClearPresent(e)) && FrameOf(ClearPresent(e)) == FrameOf(e) && !Present(0)
    ensures RightsOf(ClearPresent(e)) == RightsOf(e)
  {
  }
}

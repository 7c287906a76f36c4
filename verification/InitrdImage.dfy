/**
  The ramdisk image: a file count, 64 headers of 88 bytes, and the files one after another. `Image` is what
  the packing tool writes for a list of files; the lemmas say what is at which place in it.
 */
module InitrdImage {

  type Bytes = seq<int>

  datatype File = File(name: Bytes, data: Bytes)

  const SLOTS := 64
  const HEADER := 88
  const START := 5636    // 4 + 64 * 88

  /** The C library writes the name with its terminator into 64 bytes. */
  predicate ValidName(name: Bytes) { |name| < 64 && 0 !in name }

  predicate Packable(files: seq<File>) {
    |files| <= SLOTS && (forall i | 0 <= i < |files| :: ValidName(files[i].name))
      && EndOf(files, |files|) < 0x1_0000_0000
  }

  /** Where file `k` begins; for `k` the number of files, where the image ends. */
  function EndOf(files: seq<File>, k: nat): nat
    requires k <= |files|
  {
    if k == 0 then START else EndOf(files, k - 1) + |files[k - 1].data|
  }

  // ----- Numbers in memory -------------------------------------------------------------------------

  function Le(v: nat, n: nat): (b: Bytes)
    ensures |b| == n
  {
    if n == 0 then [] else [v % 256] + Le(v / 256, n - 1)
  }

  function UnLe(b: Bytes): int { if b == [] then 0 else b[0] + 256 * UnLe(b[1..]) }

  function Span(n: nat): nat { if n == 0 then 1 else 256 * Span(n - 1) }

  /** A number written in enough bytes reads back. */
  lemma {:induction false} LeRoundTrip(v: nat, n: nat)
    requires v < Span(n)
    ensures UnLe(Le(v, n)) == v
  {
    if n > 0 {
      LeRoundTrip(v / 256, n - 1);
      assert Le(v, n)[1..] == Le(v / 256, n - 1);
    }
  }

  lemma Spans()
    ensures Span(4) == 0x1_0000_0000 && Span(8) == 0x1_0000_0000_0000_0000
  {
    assert Span(2) == 0x1_0000;
    assert Span(6) == 0x1_0000_0000_0000;
  }

  // ----- Headers -----------------------------------------------------------------------------------

  /** A header as the tool fills it in; bytes it leaves alone keep the `junk` they had. */
  function HeaderBytes(f: File, offset: nat, junk: Bytes): (h: Bytes)
    requires ValidName(f.name) && |junk| == HEADER
    ensures |h| == HEADER && h[0] == 0xBF
  {
    [0xBF] + f.name + [0] + junk[|f.name| + 2..72] + Le(offset, 8) + Le(|f.data|, 4) + junk[84..]
  }

  /** The bytes before the terminator. */
  function CString(b: Bytes): Bytes { if b == [] || b[0] == 0 then [] else [b[0]] + CString(b[1..]) }

  function NameIn(h: Bytes): Bytes
    requires |h| == HEADER
  {
    CString(h[1..65])
  }

  function OffsetIn(h: Bytes): int
    requires |h| == HEADER
  {
    UnLe(h[72..80])
  }

  function LengthIn(h: Bytes): int
    requires |h| == HEADER
  {
    UnLe(h[80..84])
  }

  lemma {:induction false} CStringOf(name: Bytes, rest: Bytes)
    requires 0 !in name
    ensures CString(name + [0] + rest) == name
  {
    if name != [] {
      assert (name + [0] + rest)[0] == name[0];
      assert (name + [0] + rest)[1..] == name[1..] + [0] + rest;
      CStringOf(name[1..], rest);
    }
  }

  lemma HeaderName(f: File, offset: nat, junk: Bytes)
    requires ValidName(f.name) && |junk| == HEADER
    ensures NameIn(HeaderBytes(f, offset, junk)) == f.name
  {
    var h := HeaderBytes(f, offset, junk);
    var rest := h[|f.name| + 2..65];
    assert h[1..65] == f.name + [0] + rest;
    CStringOf(f.name, rest);
  }

  lemma HeaderNumbers(f: File, offset: nat, junk: Bytes)
    requires ValidName(f.name) && |junk| == HEADER && offset < 0x1_0000_0000 && |f.data| < 0x1_0000_0000
    ensures OffsetIn(HeaderBytes(f, offset, junk)) == offset && LengthIn(HeaderBytes(f, offset, junk)) == |f.data|
  {
    var h := HeaderBytes(f, offset, junk);
    var front := [0xBF] + f.name + [0] + junk[|f.name| + 2..72];
    assert |front| == 72;
    assert h[72..80] == Le(offset, 8);
    assert h[80..84] == Le(|f.data|, 4);
    Spans();
    LeRoundTrip(offset, 8);
    LeRoundTrip(|f.data|, 4);
  }

  // ----- The whole image ---------------------------------------------------------------------------

  predicate JunkOk(junk: seq<Bytes>) { |junk| == SLOTS && forall i | 0 <= i < SLOTS :: |junk[i]| == HEADER }

  function Slot(files: seq<File>, junk: seq<Bytes>, i: nat): (h: Bytes)
    requires i < SLOTS && JunkOk(junk) && forall j | 0 <= j < |files| :: ValidName(files[j].name)
    ensures |h| == HEADER
  {
    if i < |files| then HeaderBytes(files[i], EndOf(files, i), junk[i]) else junk[i]
  }

  /** The first `k` headers. */
  function Table(files: seq<File>, junk: seq<Bytes>, k: nat): (t: Bytes)
    requires k <= SLOTS && JunkOk(junk) && forall j | 0 <= j < |files| :: ValidName(files[j].name)
    ensures |t| == 88 * k
  {
    if k == 0 then [] else Table(files, junk, k - 1) + Slot(files, junk, k - 1)
  }

  /** The contents of the first `k` files. */
  function Contents(files: seq<File>, k: nat): (c: Bytes)
    requires k <= |files|
    ensures |c| == EndOf(files, k) - START
  {
    if k == 0 then [] else Contents(files, k - 1) + files[k - 1].data
  }

  function Image(files: seq<File>, junk: seq<Bytes>): Bytes
    requires Packable(files) && JunkOk(junk)
  {
    Le(|files|, 4) + Table(files, junk, SLOTS) + Contents(files, |files|)
  }

  lemma Front(a: Bytes, b: Bytes, lo: nat, hi: nat)
    requires lo <= hi <= |a|
    ensures (a + b)[lo..hi] == a[lo..hi]
  {
  }

  lemma Back(a: Bytes, b: Bytes, lo: nat, hi: nat)
    requires lo == |a| && hi == |a| + |b|
    ensures (a + b)[lo..hi] == b
  {
  }

  lemma {:induction false} TableAt(files: seq<File>, junk: seq<Bytes>, k: nat, i: nat)
    requires i < k <= SLOTS && JunkOk(junk) && forall j | 0 <= j < |files| :: ValidName(files[j].name)
    ensures Table(files, junk, k)[88 * i..88 * i + 88] == Slot(files, junk, i)
  {
    var t, h := Table(files, junk, k - 1), Slot(files, junk, k - 1);
    var lo := 88 * i;
    assert Table(files, junk, k) == t + h;
    if i < k - 1 {
      TableAt(files, junk, k - 1, i);
      Front(t, h, lo, lo + 88);
    } else {
      Back(t, h, lo, lo + 88);
    }
  }

  lemma {:induction false} EndsGrow(files: seq<File>, i: nat, k: nat)
    requires i <= k <= |files|
    ensures START <= EndOf(files, i) <= EndOf(files, k)
  {
    if i < k {
      EndsGrow(files, i, k - 1);
    } else if i > 0 {
      EndsGrow(files, i - 1, i - 1);
    }
  }

  lemma {:induction false} ContentsAt(files: seq<File>, k: nat, i: nat)
    requires i < k <= |files|
    ensures START <= EndOf(files, i) && EndOf(files, i + 1) <= EndOf(files, k)
    ensures Contents(files, k)[EndOf(files, i) - START..EndOf(files, i + 1) - START] == files[i].data
  {
    EndsGrow(files, 0, i);
    EndsGrow(files, i + 1, k);
    if i < k - 1 {
      ContentsAt(files, k - 1, i);
      EndsGrow(files, i + 1, k - 1);
      var a, b := EndOf(files, i) - START, EndOf(files, i + 1) - START;
      assert Contents(files, k)[a..b] == Contents(files, k - 1)[a..b];
    }
  }

  function HeaderAt(image: Bytes, i: nat): Bytes
    requires 4 + 88 * (i + 1) <= |image|
  {
    image[4 + 88 * i..4 + 88 * i + 88]
  }

  lemma Middle(a: Bytes, b: Bytes, c: Bytes, lo: nat, hi: nat)
    requires lo <= hi <= |b|
    ensures (a + b + c)[|a| + lo..|a| + hi] == b[lo..hi]
  {
  }

  lemma HeaderInside(count: Bytes, t: Bytes, c: Bytes, i: nat)
    requires |count| == 4 && i < SLOTS && |t| == 88 * SLOTS
    ensures |count + t + c| >= START && HeaderAt(count + t + c, i) == t[88 * i..88 * i + 88]
  {
    Middle(count, t, c, 88 * i, 88 * i + 88);
  }

  lemma ImageHeader(files: seq<File>, junk: seq<Bytes>, i: nat)
    requires Packable(files) && JunkOk(junk) && i < |files|
    ensures |Image(files, junk)| >= START
    ensures HeaderAt(Image(files, junk), i) == Slot(files, junk, i)
  {
    TableAt(files, junk, SLOTS, i);
    HeaderInside(Le(|files|, 4), Table(files, junk, SLOTS), Contents(files, |files|), i);
  }

  lemma ImageData(files: seq<File>, junk: seq<Bytes>, i: nat)
    requires Packable(files) && JunkOk(junk) && i < |files|
    ensures EndOf(files, i) <= EndOf(files, i + 1) <= |Image(files, junk)|
    ensures Image(files, junk)[EndOf(files, i)..EndOf(files, i + 1)] == files[i].data
  {
    ContentsAt(files, |files|, i);
    var image, c := Image(files, junk), Contents(files, |files|);
    var a, b := EndOf(files, i), EndOf(files, i + 1);
    assert image[a..b] == c[a - START..b - START];
  }

  lemma ImageCount(files: seq<File>, junk: seq<Bytes>)
    requires Packable(files) && JunkOk(junk)
    ensures |Image(files, junk)| == EndOf(files, |files|) >= START && UnLe(Image(files, junk)[..4]) == |files|
  {
    EndsGrow(files, 0, |files|);
    assert Image(files, junk)[..4] == Le(|files|, 4);
    Spans();
    LeRoundTrip(|files|, 4);
  }

  /** File `i` can be found in the image: its header names it and says where its contents are. */
  ghost predicate FileAt(image: Bytes, files: seq<File>, i: nat)
    requires i < |files|
  {
    && 4 + 88 * (i + 1) <= |image| && EndOf(files, i) <= EndOf(files, i + 1) <= |image|
    && NameIn(HeaderAt(image, i)) == files[i].name
    && OffsetIn(HeaderAt(image, i)) == EndOf(files, i) && LengthIn(HeaderAt(image, i)) == |files[i].data|
    && image[EndOf(files, i)..EndOf(files, i + 1)] == files[i].data
  }

  ghost predicate Describes(image: Bytes, files: seq<File>) {
    |image| >= 4 && UnLe(image[..4]) == |files| && forall i: nat | i < |files| :: FileAt(image, files, i)
  }

  lemma SlotReads(files: seq<File>, junk: seq<Bytes>, i: nat)
    requires Packable(files) && JunkOk(junk) && i < |files|
    ensures var h := Slot(files, junk, i);
      NameIn(h) == files[i].name && OffsetIn(h) == EndOf(files, i) && LengthIn(h) == |files[i].data|
  {
    EndsGrow(files, i + 1, |files|);
    EndsGrow(files, 0, i);
    HeaderName(files[i], EndOf(files, i), junk[i]);
    HeaderNumbers(files[i], EndOf(files, i), junk[i]);
  }

  /** Main result: a packed image describes the files it was packed from. */
  lemma ImageDescribes(files: seq<File>, junk: seq<Bytes>)
    requires Packable(files) && JunkOk(junk)
    ensures Describes(Image(files, junk), files)
  {
    ImageCount(files, junk);
    forall i: nat | i < |files| ensures FileAt(Image(files, junk), files, i) {
      ImageHeader(files, junk, i);
      SlotReads(files, junk, i);
      ImageData(files, junk, i);
    }
  }

  /** Main result: the files lie one after another, in order and without overlap. */
  lemma RegionsAreDisjoint(files: seq<File>, i: nat, j: nat)
    requires i < j < |files|
    ensures START <= EndOf(files, i) <= EndOf(files, i + 1) <= EndOf(files, j)
    ensures EndOf(files, i + 1) == EndOf(files, i) + |files[i].data|
  {
    EndsGrow(files, i, i + 1);
    EndsGrow(files, i + 1, j);
  }

  // ----- The packing tool --------------------------------------------------------------------------

  /** The first pass: offsets and headers. */
  method FillHeaders(files: seq<File>, junk: seq<Bytes>) returns (headers: seq<Bytes>)
    requires Packable(files) && JunkOk(junk)
    ensures JunkOk(headers) && forall j | 0 <= j < SLOTS :: headers[j] == Slot(files, junk, j)
  {
    headers := junk;
    var off := START;
    for i := 0 to |files|
      invariant JunkOk(headers) && off == EndOf(files, i)
      invariant forall j | 0 <= j < i :: headers[j] == Slot(files, junk, j)
      invariant forall j | i <= j < SLOTS :: headers[j] == junk[j]
    {
      headers := headers[i := HeaderBytes(files[i], off, headers[i])];
      off := off + |files[i].data|;
    }
  }

  /** The tool: the count, the headers, and in a second pass the contents. */
  method Pack(files: seq<File>, junk: seq<Bytes>) returns (image: Bytes)
    requires Packable(files) && JunkOk(junk)
    ensures image == Image(files, junk) && Describes(image, files)
  {
    ImageDescribes(files, junk);
    var headers := FillHeaders(files, junk);
    var table := [];
    for i := 0 to SLOTS
      invariant table == Table(files, junk, i)
    {
      table := table + headers[i];
    }
    var contents := [];
    for i := 0 to |files|
      invariant contents == Contents(files, i)
    {
      contents := contents + files[i].data;
    }
    image := Le(|files|, 4) + table + contents;
  }
}

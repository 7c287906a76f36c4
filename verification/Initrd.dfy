/** The kernel's view of a ramdisk: headers found in memory at an address, files read and looked up. */
module Initrd {
  import opened Common
  import opened InitrdImage

  datatype Header = Header(offset: int, length: int)
  datatype Node = Node(name: Bytes, length: int, inode: nat)

  const DEV: Bytes := [100, 101, 118]

  /** What lies at each address. */
  type Memory = int -> int

  ghost predicate HoldsAt(memory: Memory, addr: int, image: Bytes, k: int) {
    0 <= k < |image| ==> memory(addr + k) == image[k]
  }

  ghost predicate Holds(memory: Memory, addr: int, image: Bytes) { forall k :: HoldsAt(memory, addr, image, k) }

  function At(memory: Memory, from: int, n: nat): Bytes { seq(n, k requires 0 <= k < n => memory(from + k)) }

  // ----- Reading -----------------------------------------------------------------------------------

  /** How many bytes a read copies; the sum is taken in 32 bits. */
  function Count(length: int, offset: int, size: int): int {
    if offset > length then 0
    else if (offset + size) % 0x1_0000_0000 > length then length - offset
    else size
  }

  /** What a read of that range should copy. */
  function Clipped(length: int, offset: int, size: int): int {
    if offset > length then 0 else if offset + size > length then length - offset else size
  }

  /** Main result: the count is the clipped one exactly if the sum stays below 2^32, or passes it by more
      than the file is long, or the offset is past the end. */
  lemma CountIsClippedIff(length: int, offset: nat, size: nat)
    requires 0 <= length < 0x1_0000_0000 && offset < 0x1_0000_0000 && size < 0x1_0000_0000
    ensures Count(length, offset, size) == Clipped(length, offset, size) <==>
      offset > length || offset + size < 0x1_0000_0000 || offset + size - 0x1_0000_0000 > length
  {
    if offset + size >= 0x1_0000_0000 { assert (offset + size) % 0x1_0000_0000 == offset + size - 0x1_0000_0000; }
  }

  // ----- Directories -------------------------------------------------------------------------------

  datatype Entry = Entry(name: Bytes, ino: nat)

  datatype Found = Nothing | Device | FileNode(node: Node)

  /** The entry at an index; the root's first is the device directory. */
  function EntryAt(nodes: seq<Node>, isRoot: bool, index: nat): Option<Entry> {
    if isRoot && index == 0 then Some(Entry(DEV, 0))
    else var i := if index == 0 then 0xffff_ffff else index - 1;
      if i >= |nodes| then None else Some(Entry(nodes[i].name, nodes[i].inode))
  }

  ghost predicate FirstNamed(nodes: seq<Node>, name: Bytes, i: int) {
    0 <= i < |nodes| && nodes[i].name == name && forall j | 0 <= j < i :: nodes[j].name != name
  }

  ghost predicate Finds(nodes: seq<Node>, isRoot: bool, name: Bytes, r: Found) {
    if isRoot && name == DEV then r == Device
    else match r
      case Device => false
      case Nothing => forall j | 0 <= j < |nodes| :: nodes[j].name != name
      case FileNode(node) =>
        exists i | 0 <= i < |nodes| :: nodes[i] == node && FirstNamed(nodes, name, i)
  }

  // ----- The mounted ramdisk -----------------------------------------------------------------------

  ghost predicate NodeOk(files: seq<File>, addr: int, memory: Memory, i: nat, node: Node, header: Header)
    requires i < |files|
  {
    && node == Node(files[i].name, |files[i].data|, i)
    && header == Header(addr + EndOf(files, i), |files[i].data|)
    && At(memory, header.offset, |files[i].data|) == files[i].data
  }

  class Ramdisk {
    const memory: Memory
    const addr: int
    var headers: seq<Header>
    var nodes: seq<Node>

    /** Every packed file is there. */
    ghost predicate Mounted(files: seq<File>)
      reads this
    {
      && |nodes| == |headers| == |files| <= SLOTS
      && forall i: nat | i < |files| :: NodeOk(files, addr, memory, i, nodes[i], headers[i])
    }

    /** Main result: init_initrd, at an address where memory holds a packed image, gives back the files. */
    constructor (memory: Memory, addr: int, ghost image: Bytes, ghost files: seq<File>)
      requires Describes(image, files) && |files| <= SLOTS && Holds(memory, addr, image)
      ensures this.memory == memory && this.addr == addr && Mounted(files)
    {
      this.memory, this.addr := memory, addr;
      headers, nodes := [], [];
      new;
      AtHolds(memory, addr, image, 0, 4);
      var n := UnLe(At(memory, addr, 4));
      var i: nat := 0;
      while i < n
        invariant i <= n == |files| && |nodes| == |headers| == i
        invariant forall j: nat | j < i :: NodeOk(files, addr, memory, j, nodes[j], headers[j])
      {
        var h := At(memory, addr + 4 + 88 * i, 88);
        ReadsHeader(image, files, memory, addr, i, h);
        headers := headers + [Header(OffsetIn(h) + addr, LengthIn(h))];
        nodes := nodes + [Node(NameIn(h), LengthIn(h), i)];
        i := i + 1;
      }
    }

    /** initrd_read: the clipped part of the file, when the 32-bit sum does not wrap. */
    method Read(node: Node, offset: nat, size: nat, ghost files: seq<File>) returns (n: nat, bytes: Bytes)
      requires Mounted(files) && Packable(files) && node in nodes && offset < 0x1_0000_0000 && size < 0x1_0000_0000
      ensures |bytes| == n == Count(node.length, offset, size)
      ensures offset + size < 0x1_0000_0000 ==>
        bytes == if offset > node.length then []
          else files[node.inode].data[offset..offset + Clipped(node.length, offset, size)]
    {
      NodeIsFile(this, node, files);
      var header := headers[node.inode];
      if offset > header.length { return 0, []; }
      n := size;
      if (offset + size) % 0x1_0000_0000 > header.length { n := header.length - offset; }
      bytes := At(memory, header.offset + offset, n);
      CountIsClippedIff(header.length, offset, size);
      if offset + size < 0x1_0000_0000 { AtPart(memory, header.offset, files[node.inode].data, offset, n); }
    }

    method ReadDir(isRoot: bool, index: nat) returns (r: Option<Entry>)
      requires |nodes| <= SLOTS && index < 0x1_0000_0000
      ensures r == EntryAt(nodes, isRoot, index)
      ensures index == 0 ==> r == if isRoot then Some(Entry(DEV, 0)) else None
      ensures 0 < index <= |nodes| ==> r == Some(Entry(nodes[index - 1].name, nodes[index - 1].inode))
      ensures index > |nodes| ==> r == None
    {
      if isRoot && index == 0 { return Some(Entry(DEV, 0)); }
      var i := (index + 0xffff_ffff) % 0x1_0000_0000;
      if i >= |nodes| { return None; }
      return Some(Entry(nodes[i].name, nodes[i].inode));
    }

    method FindDir(isRoot: bool, name: Bytes) returns (r: Found)
      ensures Finds(nodes, isRoot, name, r)
    {
      if isRoot && name == DEV { return Device; }
      for i := 0 to |nodes|
        invariant forall j | 0 <= j < i :: nodes[j].name != name
      {
        if nodes[i].name == name {
          assert FirstNamed(nodes, name, i);
          return FileNode(nodes[i]);
        }
      }
      return Nothing;
    }
  }

  lemma NodeIsFile(r: Ramdisk, node: Node, files: seq<File>)
    requires r.Mounted(files) && Packable(files) && node in r.nodes
    ensures node.inode < |files| && node == r.nodes[node.inode]
      && NodeOk(files, r.addr, r.memory, node.inode, node, r.headers[node.inode])
    ensures |files[node.inode].data| < 0x1_0000_0000
  {
    var i: nat :| i < |r.nodes| && r.nodes[i] == node;
    assert NodeOk(files, r.addr, r.memory, i, r.nodes[i], r.headers[i]);
    EndsGrow(files, i + 1, |files|);
    EndsGrow(files, 0, i);
  }

  lemma AtHolds(memory: Memory, addr: int, image: Bytes, lo: nat, n: nat)
    requires Holds(memory, addr, image) && lo + n <= |image|
    ensures At(memory, addr + lo, n) == image[lo..lo + n]
  {
    var a, b := At(memory, addr + lo, n), image[lo..lo + n];
    forall k | 0 <= k < n ensures a[k] == b[k] {
      assert HoldsAt(memory, addr, image, lo + k);
    }
  }

  lemma AtPart(memory: Memory, from: int, data: Bytes, offset: nat, n: nat)
    requires At(memory, from, |data|) == data && offset + n <= |data|
    ensures At(memory, from + offset, n) == data[offset..offset + n]
  {
    var a, b := At(memory, from + offset, n), data[offset..offset + n];
    forall k | 0 <= k < n ensures a[k] == b[k] {
      assert At(memory, from, |data|)[offset + k] == data[offset + k];
    }
  }

  lemma HeaderInMemory(image: Bytes, memory: Memory, addr: int, i: nat)
    requires Holds(memory, addr, image) && 4 + 88 * (i + 1) <= |image|
    ensures At(memory, addr + 4 + 88 * i, 88) == HeaderAt(image, i)
  {
    AtHolds(memory, addr, image, 4 + 88 * i, 88);
  }

  lemma DataInMemory(image: Bytes, memory: Memory, addr: int, lo: nat, hi: nat, data: Bytes)
    requires Holds(memory, addr, image) && lo <= hi <= |image| && image[lo..hi] == data
    ensures At(memory, addr + lo, |data|) == data
  {
    AtHolds(memory, addr, image, lo, hi - lo);
  }

  lemma ReadsHeader(image: Bytes, files: seq<File>, memory: Memory, addr: int, i: nat, h: Bytes)
    requires Describes(image, files) && Holds(memory, addr, image) && i < |files|
    requires h == At(memory, addr + 4 + 88 * i, 88)
    ensures |h| == HEADER
    ensures NodeOk(files, addr, memory, i, Node(NameIn(h), LengthIn(h), i), Header(OffsetIn(h) + addr, LengthIn(h)))
  {
    assert FileAt(image, files, i);
    HeaderInMemory(image, memory, addr, i);
    DataInMemory(image, memory, addr, EndOf(files, i), EndOf(files, i + 1), files[i].data);
  }

  // ----- Listing and looking up --------------------------------------------------------------------

  predicate UniqueNames(files: seq<File>) {
    && (forall i, j | 0 <= i < j < |files| :: files[i].name != files[j].name)
    && (forall i | 0 <= i < |files| :: files[i].name != DEV)
  }

  /** Main result: listing the root from index 1 gives every file once, in order, and then ends; looking up
      the listed name gives that file's node and no other. */
  lemma ListThenFind(r: Ramdisk, files: seq<File>, i: nat, found: Found)
    requires r.Mounted(files) && UniqueNames(files) && i <= |files|
    ensures EntryAt(r.nodes, true, i + 1) == if i < |files| then Some(Entry(files[i].name, i)) else None
    ensures i < |files| && Finds(r.nodes, true, files[i].name, found) ==> found == FileNode(r.nodes[i])
  {
    if i < |files| {
      assert forall j: nat | j < |files| :: NodeOk(files, r.addr, r.memory, j, r.nodes[j], r.headers[j]);
    }
  }
}

/**
  The channel calls as each task makes them, and the registry they search. What many tasks calling at once
  do to each other is in module `Ipc`; here one call runs from its lock to its release.
 */
module Channels {
  import opened RingBuffer
  import L = LinkedList

  datatype TransmitResult =
    | Sent | BufferFull | BadSender | UnauthorizedSender | BadRecipient | UnauthorizedRecipient | BadPackage

  datatype ReceiveResult = Received(pack: int) | BufferEmpty | BadReceiver | UnauthorizedReceiver

  class Channel {
    const name: string
    const canReceive: bool
    const canSend: bool
    const ring: RingBuf
    var locked: bool

    constructor (name: string, canReceive: bool, canSend: bool, ring: RingBuf)
      ensures this.name == name && this.canReceive == canReceive && this.canSend == canSend && this.ring == ring
        && !locked
    {
      this.name, this.canReceive, this.canSend, this.ring := name, canReceive, canSend, ring;
      locked := false;
    }

    /** Between calls: the ring is in order and nobody holds its lock. */
    ghost predicate Valid()
      reads this, ring, ring.buffer
    {
      ring.Valid() && !locked
    }

    ghost function Packages(): seq<int>
      requires ring.Valid()
      reads ring, ring.buffer
    {
      ring.Contents()
    }
  }

  /** The list of registered channels. */
  class Registry {
    var list: L.Node?<Channel>
    ghost var nodes: L.Nodes<Channel>

    ghost predicate Valid()
      reads this, nodes
    {
      L.IsList(list, nodes)
    }

    /** The channels in the order they were registered. */
    ghost function Channels(): seq<Channel>
      reads this, nodes
    {
      L.Contents(nodes)
    }

    constructor ()
      ensures Valid() && Channels() == [] && nodes == []
    {
      list, nodes := null, [];
    }

    /** channel_exists. */
    method Exists(c: Channel) returns (found: bool)
      requires Valid()
      ensures found <==> c in Channels()
    {
      var p := list;
      ghost var i := 0;
      while p != null
        invariant 0 <= i <= |nodes| && p == L.At(nodes, i) && c !in Channels()[..i]
        decreases |nodes| - i
      {
        assert L.LinkedAt(nodes, i);
        if p.data == c {
          assert Channels()[i] == c;
          return true;
        }
        assert Channels()[..i + 1] == Channels()[..i] + [p.data];
        i, p := i + 1, p.next;
      }
      assert Channels()[..i] == Channels();
      return false;
    }

    /** Entry `i` has the name and none before it does. */
    ghost predicate FirstNamed(name: string, i: int)
      reads this, nodes
    {
      0 <= i < |Channels()| && Channels()[i].name == name && forall j | 0 <= j < i :: Channels()[j].name != name
    }

    /** channel_find_by_agent_name: the channel registered first under the name. */
    method FindByAgentName(name: string) returns (c: Channel?)
      requires Valid()
      ensures c == null ==> forall j | 0 <= j < |Channels()| :: Channels()[j].name != name
      ensures c != null ==> exists i :: FirstNamed(name, i) && Channels()[i] == c
    {
      var p := list;
      ghost var k := 0;
      while p != null
        invariant 0 <= k <= |nodes| && p == L.At(nodes, k)
        invariant forall j | 0 <= j < k :: Channels()[j].name != name
        decreases |nodes| - k
      {
        assert L.LinkedAt(nodes, k);
        assert Channels()[k] == p.data;
        if p.data.name == name {
          assert FirstNamed(name, k);
          return p.data;
        }
        k, p := k + 1, p.next;
      }
      return null;
    }

    /** The end of NewChannel. */
    method Register(c: Channel)
      requires Valid()
      modifies this, nodes
      ensures Valid() && Channels() == old(Channels()) + [c]
      ensures forall x | x in nodes :: x in old(nodes) || fresh(x)
    {
      list, nodes := L.Append(list, c, nodes);
    }

    /** channel_agent_remove: the first entry of the channel goes, the others keep their order. */
    method Remove(c: Channel) returns (found: bool)
      requires Valid()
      modifies this, nodes
      ensures Valid() && (found <==> c in old(Channels()))
      ensures !found ==> Channels() == old(Channels())
      ensures found ==> exists i | 0 <= i < |old(Channels())| ::
        old(Channels())[i] == c && c !in old(Channels())[..i] && Channels() == L.Removed(old(Channels()), i)
      ensures forall x | x in nodes :: x in old(nodes)
    {
      var p, i := list, 0;
      while p != null
        invariant 0 <= i <= |nodes| && p == L.At(nodes, i) && c !in Channels()[..i]
        invariant Valid() && nodes == old(nodes) && Channels() == old(Channels())
        decreases |nodes| - i
      {
        assert L.LinkedAt(nodes, i);
        if p.data == c {
          assert Channels()[i] == c;
          list, nodes := L.DeleteAt(list, i, nodes);
          return true;
        }
        assert Channels()[..i + 1] == Channels()[..i] + [p.data];
        i, p := i + 1, p.next;
      }
      assert Channels()[..i] == Channels();
      return false;
    }

    /** Registered, as channel_exists is asked about a pointer that may be null. */
    ghost predicate Known(c: Channel?)
      reads this, nodes
    {
      c != null && c in Channels()
    }

    /** The part of channel_transmit under the recipient's lock. */
    method PutLocked(dest: Channel, msg: int) returns (r: TransmitResult)
      requires dest.Valid()
      modifies dest, dest.ring, dest.ring.buffer
      ensures dest.Valid() && dest.ring.max == old(dest.ring.max) && dest.ring.buffer == old(dest.ring.buffer)
      ensures r == if |old(dest.Packages())| == dest.ring.max - 1 then BufferFull else Sent
      ensures dest.Packages() == old(dest.Packages()) + if r == Sent then [msg] else []
    {
      dest.locked := true;
      EmptyAndFull(dest.ring.Value());
      if (dest.ring.head + 1) % dest.ring.max == dest.ring.tail {
        dest.locked := false;
        return BufferFull;
      }
      var outcome := Put(dest.ring, msg);
      dest.locked := false;
      return Sent;
    }

    /** channel_transmit: the package joins the recipient's ring, or the result says why not and nothing
        changes. */
    method Transmit(self: Channel?, dest: Channel?, msg: int) returns (r: TransmitResult)
      requires Valid() && (dest != null ==> dest.Valid())
      modifies if dest == null then {} else {dest, dest.ring, dest.ring.buffer}
      ensures dest != null ==>
        dest.Valid() && dest.ring.max == old(dest.ring.max) && dest.ring.buffer == old(dest.ring.buffer)
      ensures r == BadSender <==> !old(Known(self))
      ensures r == UnauthorizedSender <==> old(Known(self)) && !self.canSend
      ensures r == BadRecipient <==> old(Known(self)) && self.canSend && !old(Known(dest))
      ensures r == UnauthorizedRecipient <==> old(Known(self) && Known(dest)) && self.canSend && !dest.canReceive
      ensures r in {BadPackage, BufferFull, Sent} <==>
        old(Known(self) && Known(dest)) && self.canSend && dest.canReceive
      ensures r in {BadPackage, BufferFull, Sent} ==> (r == BadPackage <==> msg == 0)
      ensures r in {BufferFull, Sent} ==> (r == BufferFull <==> |old(dest.Packages())| == dest.ring.max - 1)
      ensures dest != null ==> dest.Packages() == old(dest.Packages()) + if r == Sent then [msg] else []
    {
      if self == null { return BadSender; }
      var known := Exists(self);
      if !known { return BadSender; }
      if !self.canSend { return UnauthorizedSender; }
      if dest == null { return BadRecipient; }
      known := Exists(dest);
      if !known { return BadRecipient; }
      if !dest.canReceive { return UnauthorizedRecipient; }
      if msg == 0 { return BadPackage; }

      r := PutLocked(dest, msg);
    }

    /** channel_receive: the oldest package leaves the ring. */
    method Receive(self: Channel?) returns (r: ReceiveResult)
      requires Valid() && (self != null ==> self.Valid())
      modifies if self == null then {} else {self, self.ring}
      ensures self != null ==>
        self.Valid() && self.ring.max == old(self.ring.max) && self.ring.buffer == old(self.ring.buffer)
      ensures self != null ==> old(self.Packages()) == (if r.Received? then [r.pack] else []) + self.Packages()
      ensures r == BadReceiver <==> !old(Known(self))
      ensures r == UnauthorizedReceiver <==> old(Known(self)) && !self.canReceive
      ensures r == BufferEmpty <==> old(Known(self)) && self.canReceive && old(self.Packages()) == []
    {
      if self == null { return BadReceiver; }
      var known := Exists(self);
      if !known { return BadReceiver; }
      if !self.canReceive { return UnauthorizedReceiver; }

      self.locked := true;
      EmptyAndFull(self.ring.Value());
      if self.ring.head == self.ring.tail {
        self.locked := false;
        return BufferEmpty;
      }
      var outcome, pack := Get(self.ring);
      self.locked := false;
      return Received(pack);
    }

    /** channel_peek: the oldest package is shown and stays. */
    method PeekAt(self: Channel?) returns (r: ReceiveResult)
      requires Valid() && (self != null ==> self.Valid())
      modifies if self == null then {} else {self}
      ensures self != null ==> self.Valid() && self.Packages() == old(self.Packages())
      ensures r.Received? ==> self != null && self.Packages() != [] && r.pack == self.Packages()[0]
      ensures r == BadReceiver <==> !old(Known(self))
      ensures r == UnauthorizedReceiver <==> old(Known(self)) && !self.canReceive
      ensures r == BufferEmpty <==> old(Known(self)) && self.canReceive && old(self.Packages()) == []
    {
      if self == null { return BadReceiver; }
      var known := Exists(self);
      if !known { return BadReceiver; }
      if !self.canReceive { return UnauthorizedReceiver; }

      self.locked := true;
      EmptyAndFull(self.ring.Value());
      if self.ring.head == self.ring.tail {
        self.locked := false;
        return BufferEmpty;
      }
      var outcome, pack := Peek(self.ring);
      self.locked := false;
      return Received(pack);
    }
  }
}

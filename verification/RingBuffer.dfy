/** The ring buffer of a channel, and the bounded queue it stands for. */
module RingBuffer {

  datatype Ring = Ring(buf: seq<int>, head: nat, tail: nat)

  function Max(r: Ring): nat { |r.buf| }

  ghost predicate RingOk(r: Ring) { r.head < Max(r) && r.tail < Max(r) }

  predicate Empty(r: Ring) { r.head == r.tail }

  predicate Full(r: Ring)
    requires Max(r) > 0
  {
    (r.head + 1) % Max(r) == r.tail
  }

  /** What the ring holds, oldest first. */
  ghost function Queue(r: Ring): seq<int>
    requires RingOk(r)
  {
    if r.head >= r.tail then r.buf[r.tail..r.head] else r.buf[r.tail..] + r.buf[..r.head]
  }

  function Stored(r: Ring, x: int): Ring
    requires r.head < Max(r)
  {
    r.(buf := r.buf[r.head := x])
  }

  function Pushed(r: Ring): Ring
    requires Max(r) > 0
  {
    r.(head := (r.head + 1) % Max(r))
  }

  function Popped(r: Ring): Ring
    requires Max(r) > 0
  {
    r.(tail := (r.tail + 1) % Max(r))
  }

  lemma NextSlot(i: nat, max: nat)
    requires i < max
    ensures (i + 1) % max == if i + 1 == max then 0 else i + 1
  {
  }

  /** Main result: the ring is a queue of at most one less than its slots: empty and full mean what they say
      of the queue. */
  lemma EmptyAndFull(r: Ring)
    requires RingOk(r)
    ensures Empty(r) <==> Queue(r) == []
    ensures Full(r) <==> |Queue(r)| == Max(r) - 1
    ensures |Queue(r)| <= Max(r) - 1
  {
    NextSlot(r.head, Max(r));
  }

  /** Writing the free slot changes nothing of the queue. */
  lemma StoredKeeps(r: Ring, x: int)
    requires RingOk(r)
    ensures RingOk(Stored(r, x)) && Queue(Stored(r, x)) == Queue(r)
    ensures Full(Stored(r, x)) == Full(r)
  {
  }

  /** Main result: moving the head appends what the slot holds. */
  lemma PushedAppends(r: Ring)
    requires RingOk(r) && !Full(r)
    ensures RingOk(Pushed(r)) && Queue(Pushed(r)) == Queue(r) + [r.buf[r.head]]
  {
    var max := Max(r);
    NextSlot(r.head, max);
    if r.head < r.tail {
      assert r.buf[..r.head + 1] == r.buf[..r.head] + [r.buf[r.head]];
    } else if r.head + 1 == max {
      assert r.buf[r.tail..] == r.buf[r.tail..r.head] + [r.buf[r.head]];
      assert r.buf[..0] == [];
    } else {
      assert r.buf[r.tail..r.head + 1] == r.buf[r.tail..r.head] + [r.buf[r.head]];
    }
  }

  /** Main result: moving the tail removes the oldest. */
  lemma PoppedRemoves(r: Ring)
    requires RingOk(r) && !Empty(r)
    ensures RingOk(Popped(r)) && Queue(r) == [r.buf[r.tail]] + Queue(Popped(r))
  {
    var max := Max(r);
    NextSlot(r.tail, max);
    if r.tail < r.head {
      assert r.buf[r.tail..r.head] == [r.buf[r.tail]] + r.buf[r.tail + 1..r.head];
    } else if r.tail + 1 == max {
      assert r.buf[r.tail..] == [r.buf[r.tail]];
      assert r.buf[0..r.head] == r.buf[..r.head];
    } else {
      assert r.buf[r.tail..] == [r.buf[r.tail]] + r.buf[r.tail + 1..];
    }
  }

  lemma PutAppends(r: Ring, x: int)
    requires RingOk(r) && !Full(r)
    ensures RingOk(Pushed(Stored(r, x))) && Queue(Pushed(Stored(r, x))) == Queue(r) + [x]
  {
    StoredKeeps(r, x);
    PushedAppends(Stored(r, x));
  }

  // ----- The buffer in place -----------------------------------------------------------------------

  datatype Outcome = Success | Error | IsFull | IsEmpty

  class RingBuf {
    var buffer: array<int>
    var head: nat
    var tail: nat
    var max: nat

    ghost predicate Valid()
      reads this, buffer
    {
      buffer.Length == max && RingOk(Value())
    }

    ghost function Value(): Ring
      reads this, buffer
    {
      Ring(buffer[..], head, tail)
    }

    ghost function Contents(): seq<int>
      requires Valid()
      reads this, buffer
    {
      Queue(Value())
    }

    /** A ring over a buffer that is there and has a slot. */
    constructor (buf: array<int>)
      requires buf.Length > 0
      ensures Valid() && Contents() == [] && buffer == buf && max == buf.Length
    {
      buffer := buf;
      max := buf.Length;
      head, tail := 0, 0;
    }

    method Clear()
      requires Valid()
      modifies this`head, this`tail
      ensures Valid() && Contents() == []
    {
      head, tail := 0, 0;
    }
  }

  /** rb_init: null without a buffer or without slots; else an empty ring over the buffer, whose length the
      caller gives. */
  method Init(buf: array?<int>, size: nat) returns (r: RingBuf?)
    requires buf != null && size != 0 ==> buf.Length == size
    ensures r == null <==> buf == null || size == 0
    ensures r != null ==> fresh(r) && r.Valid() && r.buffer == buf && r.max == size && r.Contents() == []
  {
    if buf == null || size == 0 { return null; }
    r := new RingBuf(buf);
  }

  /** rb_put: on a null handle an error; on a full ring nothing; else the item joins the queue. */
  method Put(self: RingBuf?, data: int) returns (r: Outcome)
    requires self != null ==> self.Valid()
    modifies if self == null then {} else {self, self.buffer}
    ensures r == Error <==> self == null
    ensures self != null ==> self.Valid() && self.max == old(self.max) && self.buffer == old(self.buffer)
    ensures self != null ==> (r == IsFull <==> |old(self.Contents())| == self.max - 1) && r != IsEmpty
    ensures self != null ==> self.Contents() == old(self.Contents()) + if r == Success then [data] else []
  {
    if self == null { return Error; }
    ghost var v := self.Value();
    EmptyAndFull(v);
    if (self.head + 1) % self.max != self.tail {
      PutAppends(v, data);
      self.buffer[self.head] := data;
      self.head := (self.head + 1) % self.max;
      assert self.Value() == Pushed(Stored(v, data));
      return Success;
    }
    return IsFull;
  }

  /** rb_get: the oldest item leaves the queue, if there is one. */
  method Get(self: RingBuf?) returns (r: Outcome, data: int)
    requires self != null ==> self.Valid()
    modifies if self == null then {} else {self}
    ensures r == Error <==> self == null
    ensures self != null ==> self.Valid() && self.max == old(self.max) && self.buffer == old(self.buffer)
    ensures self != null ==> (r == IsEmpty <==> old(self.Contents()) == []) && r != IsFull
    ensures self != null ==> old(self.Contents()) == (if r == Success then [data] else []) + self.Contents()
  {
    data := 0;
    if self == null { return Error, data; }
    ghost var v := self.Value();
    EmptyAndFull(v);
    if self.head != self.tail {
      data := self.buffer[self.tail];
      PoppedRemoves(v);
      self.tail := (self.tail + 1) % self.max;
      assert self.Value() == Popped(v);
      return Success, data;
    }
    return IsEmpty, data;
  }

  /** rb_peek: the oldest item is shown and stays. */
  method Peek(self: RingBuf?) returns (r: Outcome, data: int)
    requires self != null ==> self.Valid()
    ensures r == Error <==> self == null
    ensures self != null ==> (r == IsEmpty <==> self.Contents() == []) && r != IsFull
    ensures self != null && r == Success ==> self.Contents() != [] && data == self.Contents()[0]
  {
    data := 0;
    if self == null { return Error, data; }
    EmptyAndFull(self.Value());
    if self.head != self.tail {
      PoppedRemoves(self.Value());
      data := self.buffer[self.tail];
      return Success, data;
    }
    return IsEmpty, data;
  }

  /** rb_get_size: the number of items, except that a full ring reports all its slots. */
  method GetSize(self: RingBuf?) returns (size: nat)
    requires self != null ==> self.Valid()
    ensures self == null ==> size == 0
    ensures self != null ==> (size == |self.Contents()| <==> |self.Contents()| < self.max - 1)
    ensures self != null && |self.Contents()| == self.max - 1 ==> size == self.max
  {
    if self == null { return 0; }
    EmptyAndFull(self.Value());
    if (self.head + 1) % self.max == self.tail { return self.max; }
    if self.head >= self.tail { return self.head - self.tail; }
    return self.max + self.head - self.tail;
  }
}

/** What several modules share: optional values, and the kernel's 64-bit unsigned arithmetic. */
module Common {
  datatype Option<T> = None | Some(value: T)

  /** A number reduced to 64 bits. */
  function Wrapped(x: int): nat { x % 0x1_0000_0000_0000_0000 }

  lemma SmallWrapped(x: int)
    ensures Wrapped(x) == x <==> 0 <= x < 0x1_0000_0000_0000_0000
  {
  }

  lemma WrapShift(x: int, k: int)
    ensures Wrapped(x + k * 0x1_0000_0000_0000_0000) == Wrapped(x)
  {
    var m := 0x1_0000_0000_0000_0000;
    assert x + k * m == (x / m + k) * m + Wrapped(x);
  }

  /** Reducing a summand first makes no difference. */
  lemma AddWrapped(x: int, y: int)
    ensures Wrapped(Wrapped(x) + y) == Wrapped(x + y)
  {
    var m := 0x1_0000_0000_0000_0000;
    assert x == x / m * m + Wrapped(x);
    WrapShift(Wrapped(x) + y, x / m);
  }
}

/**
  Which slots a ring touches when it is told it has `max` of them, whatever its buffer holds. The code keeps
  `max` apart from the buffer, and a channel's `max` is given in bytes.
 */
module RingBounds {
  import opened Common

  datatype Indices = Indices(head: nat, tail: nat)

  datatype Use = Putting | Getting

  /** The slot a call reads or writes, if it does. */
  function Touched(max: nat, x: Indices, u: Use): Option<nat>
    requires max > 0
  {
    match u
    case Putting => if (x.head + 1) % max == x.tail then None else Some(x.head)
    case Getting => if x.head == x.tail then None else Some(x.tail)
  }

  function After(max: nat, x: Indices, u: Use): Indices
    requires max > 0
  {
    if Touched(max, x, u).None? then x
    else match u
      case Putting => x.(head := (x.head + 1) % max)
      case Getting => x.(tail := (x.tail + 1) % max)
  }

  ghost predicate StepAt(max: nat, xs: seq<Indices>, us: seq<Use>, k: nat)
    requires max > 0 && |xs| == |us| + 1
  {
    k < |us| ==> xs[k + 1] == After(max, xs[k], us[k])
  }

  /** A run of puts and gets on a ring just made. */
  ghost predicate IsUse(max: nat, xs: seq<Indices>, us: seq<Use>)
    requires max > 0
  {
    |xs| == |us| + 1 && xs[0] == Indices(0, 0) && forall k: nat :: StepAt(max, xs, us, k)
  }

  ghost predicate Outside(max: nat, slots: nat, xs: seq<Indices>, us: seq<Use>, k: nat)
    requires max > 0
  {
    && IsUse(max, xs, us) && k < |us|
    && Touched(max, xs[k], us[k]).Some? && Touched(max, xs[k], us[k]).value >= slots
  }

  lemma {:induction false} IndicesBelow(max: nat, xs: seq<Indices>, us: seq<Use>, k: nat)
    requires max > 0 && IsUse(max, xs, us) && k < |xs|
    ensures xs[k].head < max && xs[k].tail < max
  {
    if k > 0 {
      IndicesBelow(max, xs, us, k - 1);
      assert StepAt(max, xs, us, k - 1);
    }
  }

  lemma InTurn(max: nat, i: nat)
    requires 0 < i < max
    ensures After(max, Indices(i - 1, i - 1), Putting) == Indices(i, i - 1)
    ensures After(max, Indices(i, i - 1), Getting) == Indices(i, i)
  {
    assert i % max == i;
  }

  lemma Snoced(max: nat, xs: seq<Indices>, us: seq<Use>, u: Use, x: Indices)
    requires max > 0 && IsUse(max, xs, us) && x == After(max, xs[|us|], u)
    ensures IsUse(max, xs + [x], us + [u])
  {
    var xs', us' := xs + [x], us + [u];
    forall k: nat ensures StepAt(max, xs', us', k) {
      if k < |us| { assert StepAt(max, xs, us, k); }
    }
  }

  /** Putting and getting in turn brings both indices to `i`. */
  lemma {:induction false} Reaches(max: nat, i: nat) returns (xs: seq<Indices>, us: seq<Use>)
    requires i < max && max > 1
    ensures IsUse(max, xs, us) && xs[|us|] == Indices(i, i)
  {
    if i == 0 {
      xs, us := [Indices(0, 0)], [];
    } else {
      var ys, vs := Reaches(max, i - 1);
      InTurn(max, i);
      Snoced(max, ys, vs, Putting, Indices(i, i - 1));
      Snoced(max, ys + [Indices(i, i - 1)], vs + [Putting], Getting, Indices(i, i));
      xs, us := ys + [Indices(i, i - 1)] + [Indices(i, i)], vs + [Putting] + [Getting];
    }
  }

  /** Main result: every slot any run of puts and gets touches is in a buffer of `slots` if and only if `max`
      is at most `slots`, or is 1, when nothing is ever put. */
  lemma InsideIff(max: nat, slots: nat)
    requires max > 0
    ensures (forall xs, us, k: nat :: !Outside(max, slots, xs, us, k)) <==> max <= slots || max == 1
  {
    if max <= slots || max == 1 {
      forall xs, us, k: nat ensures !Outside(max, slots, xs, us, k) {
        if IsUse(max, xs, us) && k < |us| { IndicesBelow(max, xs, us, k); }
      }
    } else {
      var xs, us := Reaches(max, slots);
      var n := |us|;
      var x := After(max, xs[n], Putting);
      Snoced(max, xs, us, Putting, x);
      OneApart(max, slots);
      assert Outside(max, slots, xs + [x], us + [Putting], n);
    }
  }

  lemma OneApart(max: nat, i: nat)
    requires i < max && max > 1
    ensures (i + 1) % max != i
  {
    assert i + 1 < max ==> (i + 1) % max == i + 1;
  }

  const CHANNEL_BUFFER_SIZE := 256    // bytes: 32 slots of 8
  const CHANNEL_SLOTS := 32

  /** Main result: a channel as the kernel makes it has a run that leaves its buffer. */
  lemma ChannelOutgrowsBuffer()
    ensures exists xs, us, k: nat :: Outside(CHANNEL_BUFFER_SIZE, CHANNEL_SLOTS, xs, us, k)
  {
    InsideIff(CHANNEL_BUFFER_SIZE, CHANNEL_SLOTS);
  }
}

/**
  The doubly linked list behind task queues and the channel registry. A list is named by its first node;
  each operation is proved against the sequence of nodes it links.
 */
module LinkedList {

  class Node<T> {
    var data: T         // a pointer the list only compares
    var next: Node?<T>
    var prev: Node?<T>

    constructor (data: T)
      ensures this.data == data && next == null && prev == null
    {
      this.data := data;
      next := null;
      prev := null;
    }
  }

  type Nodes<T> = seq<Node<T>>

  /** The node before position `i`, or null. */
  ghost function Before<T>(ns: Nodes<T>, i: int): Node?<T>
    requires 0 <= i <= |ns|
  {
    if i == 0 then null else ns[i - 1]
  }

  ghost function At<T>(ns: Nodes<T>, i: int): Node?<T>
    requires 0 <= i <= |ns|
  {
    if i < |ns| then ns[i] else null
  }

  ghost predicate LinkedAt<T>(ns: Nodes<T>, i: int)
    requires 0 <= i < |ns|
    reads ns
  {
    ns[i].next == At(ns, i + 1) && ns[i].prev == Before(ns, i)
  }

  ghost predicate Distinct<T>(ns: Nodes<T>) { forall i, j | 0 <= i < j < |ns| :: ns[i] != ns[j] }

  /** `list` is the first of the nodes `ns`, which are linked in both directions. */
  ghost predicate IsList<T>(list: Node?<T>, ns: Nodes<T>)
    reads ns
  {
    list == At(ns, 0) && Distinct(ns) && forall i | 0 <= i < |ns| :: LinkedAt(ns, i)
  }

  ghost function Contents<T>(ns: Nodes<T>): seq<T>
    reads ns
  {
    seq(|ns|, i requires 0 <= i < |ns| reads ns => ns[i].data)
  }

  ghost function Inserted<T>(s: seq<T>, i: int, x: T): seq<T>
    requires 0 <= i <= |s|
  {
    s[..i] + [x] + s[i..]
  }

  ghost function Removed<T>(s: seq<T>, i: int): seq<T>
    requires 0 <= i < |s|
  {
    s[..i] + s[i + 1..]
  }

  lemma InsertedNodes<T>(ns: Nodes<T>, i: int, x: Node<T>, ns': Nodes<T>)
    requires 0 <= i <= |ns| && x !in ns && Distinct(ns) && ns' == Inserted(ns, i, x)
    ensures |ns'| == |ns| + 1 && Distinct(ns') && ns'[i] == x
    ensures forall j | 0 <= j < i :: ns'[j] == ns[j]
    ensures forall j | i < j <= |ns| :: ns'[j] == ns[j - 1]
  {
  }

  lemma RemovedNodes<T>(ns: Nodes<T>, i: int, ns': Nodes<T>)
    requires 0 <= i < |ns| && Distinct(ns) && ns' == Removed(ns, i)
    ensures |ns'| == |ns| - 1 && Distinct(ns')
    ensures forall j | 0 <= j < i :: ns'[j] == ns[j]
    ensures forall j | i <= j < |ns| - 1 :: ns'[j] == ns[j + 1]
  {
  }

  method Prepend<T>(list: Node?<T>, data: T, ghost ns: Nodes<T>) returns (head: Node<T>, ghost ns': Nodes<T>)
    requires IsList(list, ns)
    modifies ns
    ensures fresh(head) && ns' == [head] + ns && IsList(head, ns')
    ensures Contents(ns') == [data] + old(Contents(ns))
  {
    head := new Node<T>(data);
    ns' := [head] + ns;
    if list != null {
      head.next := list;
      list.prev := head;
    }
    assert ns' == Inserted(ns, 0, head);
    InsertedNodes(ns, 0, head, ns');
    forall i | 0 <= i < |ns'| ensures LinkedAt(ns', i) {
      if i > 0 { assert old(LinkedAt(ns, i - 1)); }
    }
  }

  /** The last node, found by following `next`. */
  method LastOf<T>(list: Node<T>, ghost ns: Nodes<T>) returns (last: Node<T>)
    requires IsList(list, ns)
    ensures ns != [] && last == ns[|ns| - 1]
  {
    last := list;
    ghost var i := 0;
    while last.next != null
      invariant 0 <= i < |ns| && last == ns[i]
      decreases |ns| - i
    {
      assert LinkedAt(ns, i);
      last := last.next;
      i := i + 1;
    }
    assert LinkedAt(ns, i);
  }

  method Append<T>(list: Node?<T>, data: T, ghost ns: Nodes<T>) returns (head: Node<T>, ghost ns': Nodes<T>)
    requires IsList(list, ns)
    modifies ns
    ensures |ns'| == |ns| + 1 && ns'[..|ns|] == ns && fresh(ns'[|ns|]) && IsList(head, ns')
    ensures Contents(ns') == old(Contents(ns)) + [data]
  {
    var node := new Node<T>(data);
    ns' := ns + [node];
    if list == null {
      assert ns' == [node];
      return node, ns';
    }
    var temp := LastOf(list, ns);
    temp.next := node;
    node.prev := temp;
    head := list;
    forall i | 0 <= i < |ns'| ensures LinkedAt(ns', i) {
      if i < |ns| { assert old(LinkedAt(ns, i)); }
    }
  }

  /** list_get_head, from any node of the list. */
  method GetHead<T>(node: Node?<T>, ghost ns: Nodes<T>, ghost i: int) returns (head: Node?<T>)
    requires IsList(At(ns, 0), ns) && 0 <= i <= |ns| && node == At(ns, i)
    ensures head == if node == null then null else At(ns, 0)
    decreases i
  {
    if node == null { return node; }
    assert LinkedAt(ns, i);
    if node.prev == null { return node; }
    head := GetHead(node.prev, ns, i - 1);
  }

  method DeleteHead<T>(list: Node?<T>, ghost ns: Nodes<T>) returns (head: Node?<T>, ghost ns': Nodes<T>)
    requires IsList(list, ns)
    modifies ns
    ensures ns' == (if ns == [] then [] else ns[1..]) && IsList(head, ns')
    ensures Contents(ns') == if ns == [] then [] else old(Contents(ns))[1..]
  {
    if list == null { return null, []; }
    ns' := ns[1..];
    assert LinkedAt(ns, 0);
    if list.next == null { return null, ns'; }
    head := list.next;
    head.prev := null;
    forall i | 0 <= i < |ns'| ensures LinkedAt(ns', i) {
      assert old(LinkedAt(ns, i + 1));
    }
  }

  method GetSize<T>(list: Node?<T>, ghost ns: Nodes<T>) returns (size: int)
    requires IsList(list, ns)
    ensures size == |ns|
  {
    size := 0;
    var temp := list;
    while temp != null
      invariant 0 <= size <= |ns| && temp == At(ns, size)
      decreases |ns| - size
    {
      assert LinkedAt(ns, size);
      size := size + 1;
      temp := temp.next;
    }
  }

  /** Node `i`, found by counting. */
  method Walk<T>(list: Node?<T>, index: int, ghost ns: Nodes<T>) returns (node: Node?<T>)
    requires IsList(list, ns) && 0 <= index
    ensures node == if index < |ns| then ns[index] else null
  {
    var steps := 0;
    node := list;
    while node != null
      invariant 0 <= steps <= |ns| && node == At(ns, steps) && steps <= index
      decreases |ns| - steps
    {
      if steps == index { return node; }
      assert LinkedAt(ns, steps);
      steps := steps + 1;
      node := node.next;
    }
  }

  /** Links `node` in before position `i`, which is neither the first nor past the end. */
  method Splice<T>(temp: Node<T>, node: Node<T>, ghost ns: Nodes<T>, ghost i: int) returns (ghost ns': Nodes<T>)
    requires IsList(At(ns, 0), ns) && 0 < i < |ns| && temp == ns[i] && node !in ns
    modifies ns, node
    ensures ns' == Inserted(ns, i, node) && IsList(ns[0], ns')
    ensures Contents(ns') == Inserted(old(Contents(ns)), i, old(node.data))
  {
    assert LinkedAt(ns, i) && LinkedAt(ns, i - 1);
    var p := temp.prev;
    p.next.prev := node;
    node.next := p.next;
    node.prev := p;
    p.next := node;
    ns' := Inserted(ns, i, node);
    InsertedNodes(ns, i, node, ns');
    forall j | 0 <= j < |ns'| ensures LinkedAt(ns', j) {
      if j < i { assert old(LinkedAt(ns, j)); }
      if j > i { assert old(LinkedAt(ns, j - 1)); }
    }
  }

  /** list_insert_at: every index from 0 to the size inserts, any other changes nothing. */
  method InsertAt<T>(list: Node?<T>, index: int, data: T, ghost ns: Nodes<T>)
    returns (head: Node?<T>, ghost ns': Nodes<T>)
    requires IsList(list, ns)
    modifies ns
    ensures IsList(head, ns')
    ensures 0 <= index <= |ns| ==>
      |ns'| == |ns| + 1 && fresh(ns'[index]) && ns' == Inserted(ns, index, ns'[index])
        && Contents(ns') == Inserted(old(Contents(ns)), index, data)
    ensures !(0 <= index <= |ns|) ==> head == list && ns' == ns && Contents(ns) == old(Contents(ns))
  {
    head, ns' := list, ns;
    var size := GetSize(list, ns);
    if 0 <= index <= size {
      if index == 0 {
        head, ns' := Prepend(list, data, ns);
      } else if index == size {
        head, ns' := Append(list, data, ns);
      } else {
        var steps, temp := 0, list;
        while temp != null
          invariant 0 <= steps <= index && temp == ns[steps]
          invariant IsList(list, ns) && Contents(ns) == old(Contents(ns))
          decreases |ns| - steps
        {
          var node := new Node<T>(data);     // one for each node passed; only the last is used
          if steps == index {
            ns' := Splice(temp, node, ns, index);
            return;
          }
          assert LinkedAt(ns, steps);
          steps := steps + 1;
          temp := temp.next;
        }
      }
    }
  }

  /** Takes position `i` out of the links, which is not the first. */
  method Unlink<T>(temp: Node<T>, ghost ns: Nodes<T>, ghost i: int) returns (ghost ns': Nodes<T>)
    requires IsList(At(ns, 0), ns) && 0 < i < |ns| && temp == ns[i]
    modifies ns
    ensures ns' == Removed(ns, i) && IsList(ns[0], ns') && Contents(ns') == Removed(old(Contents(ns)), i)
  {
    assert LinkedAt(ns, i) && LinkedAt(ns, i - 1);
    if temp.next != null { temp.next.prev := temp.prev; }
    if temp.prev != null { temp.prev.next := temp.next; }
    ns' := Removed(ns, i);
    RemovedNodes(ns, i, ns');
    forall j | 0 <= j < |ns'| ensures LinkedAt(ns', j) {
      if j < i { assert old(LinkedAt(ns, j)); } else { assert old(LinkedAt(ns, j + 1)); }
    }
  }

  /** list_delete_tail; it dereferences null on a list of one node. */
  method DeleteTail<T>(list: Node?<T>, ghost ns: Nodes<T>) returns (head: Node?<T>, ghost ns': Nodes<T>)
    requires IsList(list, ns) && |ns| != 1
    modifies ns
    ensures ns' == (if ns == [] then [] else ns[..|ns| - 1]) && IsList(head, ns')
    ensures Contents(ns') == if ns == [] then [] else old(Contents(ns))[..|ns| - 1]
  {
    if list == null { return null, []; }
    var temp := LastOf(list, ns);
    assert LinkedAt(ns, |ns| - 1);
    temp.prev.next := null;
    head, ns' := list, ns[..|ns| - 1];
    forall j | 0 <= j < |ns'| ensures LinkedAt(ns', j) {
      assert old(LinkedAt(ns, j));
    }
  }

  /** list_delete_at. Every index below the size removes that node. The index equal to the size removes the
      last node, and faults on a list of one; any other changes nothing. */
  method DeleteAt<T>(list: Node?<T>, index: int, ghost ns: Nodes<T>) returns (head: Node?<T>, ghost ns': Nodes<T>)
    requires IsList(list, ns) && !(index == 1 && |ns| == 1)
    modifies ns
    ensures IsList(head, ns')
    ensures 0 <= index < |ns| ==> ns' == Removed(ns, index) && Contents(ns') == Removed(old(Contents(ns)), index)
    ensures index == |ns| > 0 ==> ns' == ns[..|ns| - 1] && Contents(ns') == old(Contents(ns))[..|ns| - 1]
    ensures index < 0 || index > |ns| || ns == [] ==> head == list && ns' == ns && Contents(ns) == old(Contents(ns))
  {
    head, ns' := list, ns;
    var size := GetSize(list, ns);
    if 0 <= index <= size {
      if index == 0 {
        head, ns' := DeleteHead(list, ns);
      } else if index == size {
        head, ns' := DeleteTail(list, ns);
      } else {
        var temp := Walk(list, index, ns);
        ns' := Unlink(temp, ns, index);
      }
    }
  }

  method FindAt<T>(list: Node?<T>, index: int, ghost ns: Nodes<T>) returns (node: Node?<T>)
    requires IsList(list, ns)
    ensures node == if 0 <= index < |ns| then ns[index] else null
  {
    node := null;
    var size := GetSize(list, ns);
    if 0 <= index <= size { node := Walk(list, index, ns); }
  }

  /** Node `i` holds `data` and none before it does. */
  ghost predicate FirstWith<T>(ns: Nodes<T>, data: T, i: int)
    reads ns
  {
    0 <= i < |ns| && ns[i].data == data && data !in Contents(ns)[..i]
  }

  /** The first node that holds `data`. */
  method FindNodeWith<T(==)>(list: Node?<T>, data: T, ghost ns: Nodes<T>) returns (node: Node?<T>)
    requires IsList(list, ns)
    ensures node == null <==> data !in Contents(ns)
    ensures node != null ==> exists i :: FirstWith(ns, data, i) && ns[i] == node
  {
    node := list;
    ghost var i := 0;
    while node != null
      invariant 0 <= i <= |ns| && node == At(ns, i) && data !in Contents(ns)[..i]
      decreases |ns| - i
    {
      if node.data == data {
        assert FirstWith(ns, data, i) && Contents(ns)[i] == data;
        return;
      }
      assert LinkedAt(ns, i);
      assert Contents(ns)[..i + 1] == Contents(ns)[..i] + [node.data];
      i := i + 1;
      node := node.next;
    }
    assert Contents(ns)[..i] == Contents(ns);
  }

  /** list_concatenate; both lists have a node. */
  method Concatenate<T>(a: Node<T>, b: Node<T>, ghost ns: Nodes<T>, ghost ms: Nodes<T>)
    returns (head: Node<T>, ghost both: Nodes<T>)
    requires IsList(a, ns) && IsList(b, ms) && (forall i, j | 0 <= i < |ns| && 0 <= j < |ms| :: ns[i] != ms[j])
    modifies ns, ms
    ensures both == ns + ms && IsList(head, both) && Contents(both) == old(Contents(ns)) + old(Contents(ms))
  {
    var last := LastOf(a, ns);
    last.next := b;
    b.prev := last;
    head, both := a, ns + ms;
    assert b == ms[0] && a == ns[0];
    forall i | 0 <= i < |both| ensures LinkedAt(both, i) {
      if i < |ns| { assert old(LinkedAt(ns, i)); } else { assert old(LinkedAt(ms, i - |ns|)); }
    }
  }
}

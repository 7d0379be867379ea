/** The singly linked list of cutil/list.c, between two sentinels, with its cached cursor.

    `drift` is how many nodes the cursor is ahead of the position the list records for it. It is
    zero unless `list_add` was called after a read had moved the cursor. */
module CursorList {
  import opened Sums
  import opened Wrappers

  class Node<T> {
    const data: Option<T>
    var next: Node?<T>

    constructor (data: Option<T>)
      ensures this.data == data && next == null
    {
      this.data := data;
      next := null;
    }
  }

  /** Two sentinels without data around elements that have some, all distinct. */
  ghost predicate Framed<T>(nodes: seq<Node<T>>) {
    && |nodes| >= 2 && NoDup(nodes)
    && (forall i :: 0 <= i < |nodes| ==> (nodes[i].data.Some? <==> 0 < i < |nodes| - 1))
  }

  ghost predicate Linked<T>(nodes: seq<Node<T>>)
    reads nodes`next
  {
    forall i {:trigger nodes[i].next} :: 0 <= i < |nodes| - 1 ==> nodes[i].next == nodes[i + 1]
  }

  /** The elements between the sentinels. */
  ghost function Elements<T>(nodes: seq<Node<T>>): (s: seq<T>)
    requires Framed(nodes)
    ensures |s| == |nodes| - 2
  {
    seq(|nodes| - 2, i requires 0 <= i < |nodes| - 2 => nodes[i + 1].data.value)
  }

  ghost function Spliced<T>(s: seq<T>, p: nat, x: T): seq<T>
    requires p <= |s|
  {
    s[..p] + [x] + s[p..]
  }

  lemma InsertElement<T>(nodes: seq<Node<T>>, p: nat, tmp: Node<T>)
    requires Framed(nodes) && p <= |nodes| - 2 && tmp !in nodes && tmp.data.Some?
    ensures Framed(Spliced(nodes, p + 1, tmp))
    ensures Elements(Spliced(nodes, p + 1, tmp)) == Spliced(Elements(nodes), p, tmp.data.value)
  {
    var r := Spliced(nodes, p + 1, tmp);
    assert forall i :: 0 <= i < |r| ==> r[i] == if i <= p then nodes[i] else if i == p + 1 then tmp else nodes[i - 1];
  }

  lemma FramedApart<T>(nodes: seq<Node<T>>)
    requires Framed(nodes)
    ensures |nodes| >= 2 && NoDup(nodes)
  {
  }

  lemma RemoveElement<T>(nodes: seq<Node<T>>, p: nat)
    requires Framed(nodes) && p < |nodes| - 2
    ensures Framed(Without(nodes, p + 1)) && nodes[p + 1] !in Without(nodes, p + 1)
    ensures Elements(Without(nodes, p + 1)) == Without(Elements(nodes), p)
    ensures |Without(nodes, p + 1)| == |nodes| - 1 && Without(nodes, p + 1)[..p + 1] == nodes[..p + 1]
  {
    var r := Without(nodes, p + 1);
    assert forall i :: 0 <= i < |r| ==> r[i] == if i <= p then nodes[i] else nodes[i + 1];
  }

  /** Links a new node after `previous`, the node at index `p`. */
  method LinkAfter<T>(previous: Node<T>, x: T, ghost nodes: seq<Node<T>>, ghost p: nat) returns (tmp: Node<T>)
    requires p < |nodes| - 1 && previous == nodes[p] && Linked(nodes) && NoDup(nodes)
    modifies previous`next
    ensures fresh(tmp) && tmp.data == Some(x)
    ensures Linked(Spliced(nodes, p + 1, tmp))
  {
    tmp := new Node<T>(Some(x));
    tmp.next := previous.next;
    previous.next := tmp;
    ghost var r := Spliced(nodes, p + 1, tmp);
    forall i {:trigger r[i].next} | 0 <= i < |r| - 1 ensures r[i].next == r[i + 1] {
      if i < p {
        assert r[i] == nodes[i] && r[i + 1] == nodes[i + 1];
      } else if i > p + 1 {
        assert r[i] == nodes[i - 1] && r[i + 1] == nodes[i];
      }
    }
  }

  /** Unlinks the node after `previous`, the node at index `p`. */
  method UnlinkAfter<T>(previous: Node<T>, ghost nodes: seq<Node<T>>, ghost p: nat)
    requires p < |nodes| - 2 && previous == nodes[p] && Linked(nodes) && NoDup(nodes)
    modifies previous`next
    ensures Linked(Without(nodes, p + 1))
  {
    assert nodes[p].next == nodes[p + 1] && nodes[p + 1].next == nodes[p + 2];
    var tmp := previous.next;
    previous.next := tmp.next;
    ghost var r := Without(nodes, p + 1);
    forall i {:trigger r[i].next} | 0 <= i < |r| - 1 ensures r[i].next == r[i + 1] {
      if i < p {
        assert r[i] == nodes[i] && r[i + 1] == nodes[i + 1];
      } else if i > p {
        assert r[i] == nodes[i + 1] && r[i + 1] == nodes[i + 2];
      }
    }
  }

  class List<T> {
    var frontSentinel: Node<T>
    var cursor: Node<T>
    var size: nat
    var curpos: nat
    ghost var nodes: seq<Node<T>>
    ghost var drift: nat

    ghost predicate Valid()
      reads this, nodes
    {
      && Framed(nodes) && Linked(nodes)
      && |nodes| == size + 2 && frontSentinel == nodes[0]
      && curpos + drift <= size + 1 && cursor == nodes[curpos + drift]
      && (curpos == 0 ==> drift == 0)
    }

    /** The elements in order. */
    ghost function Contents(): (s: seq<T>)
      requires Valid()
      reads this, nodes
      ensures |s| == size
    {
      Elements(nodes)
    }

    /** Where a walk to position `n` ends up. */
    ghost function At(n: nat): nat
      reads this
    {
      if curpos <= n then n + drift else n
    }

    constructor ()
      ensures Valid() && Contents() == [] && curpos == 0 && drift == 0 && fresh(nodes)
    {
      var front := new Node<T>(None);
      var back := new Node<T>(None);
      front.next := back;
      frontSentinel, cursor, size, curpos := front, front, 0, 0;
      nodes, drift := [front, back], 0;
    }

    /** list_get_node: from the cursor when it is not past `n`, else from the front. */
    method GetNode(n: nat) returns (node: Node<T>)
      requires Valid() && At(n) < |nodes|
      modifies `cursor, `curpos, `drift
      ensures Valid() && node == nodes[old(At(n))] && cursor == node && curpos == n
      ensures drift == if old(curpos) <= n then old(drift) else 0
      ensures Contents() == old(Contents())
    {
      var k: nat := n;
      node := frontSentinel;
      ghost var start := 0;
      if curpos <= k {
        k := k - curpos;
        node := cursor;
        start := curpos + drift;
      }
      for i := 0 to k
        invariant node == nodes[start + i]
      {
        node := node.next;
      }
      drift := if curpos <= n then drift else 0;
      cursor, curpos := node, n;
    }

    /** list_get: the `n`-th element, or nothing at a sentinel. Right for every `n` when the cursor
        has not drifted, and otherwise right only before the cursor. */
    method Get(n: nat) returns (x: Option<T>)
      requires Valid() && At(n) < |nodes|
      modifies `cursor, `curpos, `drift
      ensures Valid() && Contents() == old(Contents()) && curpos == n
      ensures drift == if old(curpos) <= n then old(drift) else 0
      ensures var p := old(At(n)); x == if 1 <= p <= size then Some(Contents()[p - 1]) else None
    {
      var node := GetNode(n);
      x := node.data;
    }

    /** list_add: prepends, and leaves the cursor on the node it was on. */
    method Add(x: T)
      requires Valid()
      modifies this, nodes
      ensures Valid() && Contents() == [x] + old(Contents())
      ensures forall i :: 0 <= i < |nodes| ==> nodes[i] in old(nodes) || fresh(nodes[i])
      ensures curpos == old(curpos) && cursor == old(cursor)
      ensures drift == if curpos == 0 then 0 else old(drift) + 1
    {
      hide Linked, Elements;
      var tmp := LinkAfter(frontSentinel, x, nodes, 0);
      size := size + 1;
      drift := if curpos == 0 then 0 else drift + 1;
      InsertElement(nodes, 0, tmp);
      nodes := Spliced(nodes, 1, tmp);
    }

    /** list_insert before position `n`. */
    method Insert(n: nat, x: T)
      requires Valid() && n >= 1 && At(n - 1) <= size
      modifies this, nodes
      ensures Valid() && curpos == n - 1 && drift == if old(curpos) <= n - 1 then old(drift) else 0
      ensures Contents() == Spliced(old(Contents()), old(At(n - 1)), x)
    {
      hide Linked, Elements, NoDup;
      ghost var p := At(n - 1);
      var previous := GetNode(n - 1);
      var tmp := LinkAfter(previous, x, nodes, p);
      size := size + 1;
      InsertElement(nodes, p, tmp);
      nodes := Spliced(nodes, p + 1, tmp);
    }

    /** list_append. */
    method Append(x: T)
      requires Valid() && (drift == 0 || size < curpos)
      modifies this, nodes
      ensures Valid() && Contents() == old(Contents()) + [x]
      ensures drift == 0
    {
      var n := size + 1;
      Insert(n, x);
    }

    /** list_remove of position `n`: the freed node is never the cursor. */
    method Remove(n: nat)
      requires Valid() && n >= 1 && At(n - 1) < size
      modifies this, nodes
      ensures Valid() && curpos == n - 1 && drift == if old(curpos) <= n - 1 then old(drift) else 0
      ensures var p := old(At(n - 1)); Contents() == Without(old(Contents()), p)
      ensures old(nodes)[old(At(n - 1)) + 1] !in nodes
    {
      hide Linked, Elements, NoDup, Framed, Without;
      ghost var p := At(n - 1);
      var previous := GetNode(n - 1);
      FramedApart(nodes);
      UnlinkAfter(previous, nodes, p);
      size := size - 1;
      RemoveElement(nodes, p);
      assert Without(nodes, p + 1)[..p + 1][0] == nodes[..p + 1][0];
      assert Without(nodes, p + 1)[..p + 1][p] == nodes[..p + 1][p];
      nodes := Without(nodes, p + 1);
    }
  }

  /** With an undrifted cursor positions mean what they say. */
  lemma UndriftedPositions<T>(l: List<T>, n: nat)
    requires l.Valid()
    ensures l.drift == 0 ==> l.At(n) == n
    ensures (forall m: nat :: l.At(m) == m) <==> l.drift == 0
  {
    assert l.At(l.curpos) == l.curpos + l.drift;
  }
}

// The doubly-linked list behind list values: real nodes, proved against the sequence they spell.

module LinkedLists {
  import opened Wrappers

  class ListNode {
    var value: string
    var prev: ListNode?
    var next: ListNode?

    constructor (value: string)
      ensures this.value == value && prev == null && next == null
    {
      this.value, prev, next := value, null, null;
    }
  }

  ghost function Values(nodes: seq<ListNode>): (r: seq<string>)
    reads nodes`value
    ensures |r| == |nodes| && forall i :: 0 <= i < |nodes| ==> r[i] == nodes[i].value
  {
    if nodes == [] then [] else [nodes[0].value] + Values(nodes[1..])
  }

  // The neighbours of position i.
  ghost function Before(nodes: seq<ListNode>, i: nat): ListNode?
    requires i < |nodes|
  {
    if i == 0 then null else nodes[i - 1]
  }

  ghost function After(nodes: seq<ListNode>, i: nat): ListNode?
    requires i < |nodes|
  {
    if i + 1 == |nodes| then null else nodes[i + 1]
  }

  lemma NeighboursBehind(node: ListNode, rest: seq<ListNode>, i: nat)
    requires i < |rest|
    ensures ([node] + rest)[i + 1] == rest[i]
    ensures Before([node] + rest, i + 1) == if i == 0 then node else Before(rest, i)
    ensures After([node] + rest, i + 1) == After(rest, i)
  {
  }

  lemma NeighboursOfFirst(node: ListNode, rest: seq<ListNode>)
    ensures ([node] + rest)[0] == node && Before([node] + rest, 0) == null
    ensures After([node] + rest, 0) == if rest == [] then null else rest[0]
  {
  }

  // ---------- What the reading operations mean on a sequence ----------

  function Position(length: nat, index: int): int {
    if index < 0 then length + index else index
  }

  function Element(s: seq<string>, index: int): Option<string> {
    var i := Position(|s|, index);
    if 0 <= i < |s| then Some(s[i]) else None
  }

  function AtLeast0(n: int): nat {
    if n < 0 then 0 else n
  }

  // The positions of the first and the last element, if there is any; both ends are brought up to
  // 0 before they are compared.
  function Bounds(length: nat, start: int, stop: int): Option<(nat, nat)> {
    var from, to := AtLeast0(Position(length, start)), AtLeast0(Position(length, stop));
    var last := if to >= length then length - 1 else to;
    if length == 0 || from >= length || from > last then None else Some((from, last))
  }

  function Range(s: seq<string>, start: int, stop: int): seq<string> {
    match Bounds(|s|, start, stop)
    case None => []
    case Some((from, last)) => s[from..last + 1]
  }

  // The elements whose positions are in the interval, as LRANGE is documented.
  ghost predicate Selected(s: seq<string>, start: int, stop: int, i: nat) {
    i < |s| && (if start < 0 then |s| + start else start) <= i <= if stop < 0 then |s| + stop else stop
  }

  // The range is the selection, except when the stop lies before the list and the start does not
  // lie behind its first element: then that element comes out instead of nothing.
  lemma RangeIsSelection(s: seq<string>, start: int, stop: int)
    ensures (forall i: nat :: Selected(s, start, stop, i) <==>
              i < |s| && AtLeast0(Position(|s|, start)) <= i < AtLeast0(Position(|s|, start)) + |Range(s, start, stop)|)
      <==> !(s != [] && Position(|s|, stop) < 0 && Position(|s|, start) <= 0)
    ensures forall k :: 0 <= k < |Range(s, start, stop)| ==>
      Range(s, start, stop)[k] == s[AtLeast0(Position(|s|, start)) + k]
  {
    if s != [] && Position(|s|, stop) < 0 && Position(|s|, start) <= 0 {
      assert !Selected(s, start, stop, 0);
      assert |Range(s, start, stop)| == 1;
    }
  }

  method Clamp(length: nat, start: int, stop: int) returns (bounds: Option<(nat, nat)>)
    ensures bounds == Bounds(length, start, stop)
  {
    if length == 0 {
      return None;
    }
    var from := if start < 0 then length + start else start;
    var to := if stop < 0 then length + stop else stop;
    if from < 0 {
      from := 0;
    }
    if to < 0 {
      to := 0;
    }
    if from >= length {
      return None;
    }
    if to >= length {
      to := length - 1;
    }
    if from > to {
      return None;
    }
    bounds := Some((from, to));
  }

  class LinkedList {
    var head: ListNode?
    var tail: ListNode?
    var length: nat
    ghost var nodes: seq<ListNode>

    // prev and next of a node are its neighbours.
    ghost predicate LinkAt(i: nat)
      requires i < |nodes|
      reads this`nodes, nodes`prev, nodes`next
    {
      nodes[i].prev == Before(nodes, i) && nodes[i].next == After(nodes, i)
    }

    ghost predicate Valid()
      reads this, nodes
    {
      && length == |nodes|
      && (forall i, j :: 0 <= i < j < |nodes| ==> nodes[i] != nodes[j])
      && (if nodes == [] then head == tail == null else head == nodes[0] && tail == nodes[|nodes| - 1])
      && forall i :: 0 <= i < |nodes| ==> LinkAt(i)
    }

    ghost function Contents(): seq<string>
      reads this`nodes, nodes`value
    {
      Values(nodes)
    }

    constructor ()
      ensures Valid() && nodes == []
    {
      head, tail, length, nodes := null, null, 0, [];
    }

    method PushFront(value: string)
      requires Valid()
      modifies this, nodes
      ensures Valid() && Contents() == [value] + old(Contents())
      ensures fresh(nodes[0]) && nodes[1..] == old(nodes)
    {
      hide Valid;
      var node := new ListNode(value);
      ghost var rest := nodes;
      LinkFront(node);
      assert nodes[1..] == rest;
    }

    method LinkFront(node: ListNode)
      requires Valid() && node !in nodes && node.prev == node.next == null
      modifies this, nodes`prev, node`next
      ensures Valid() && nodes == [node] + old(nodes)
    {
      hide Before;
      hide After;
      if length == 0 {
        head, tail := node, node;
      } else {
        node.next := head;
        head.prev := node;
        head := node;
      }
      length := length + 1;
      ghost var rest := nodes;
      nodes := [node] + rest;
      NeighboursOfFirst(node, rest);
      forall i | 0 <= i < |nodes| ensures LinkAt(i) {
        if i > 0 {
          var j := i - 1;
          assert old(LinkAt(j));
          NeighboursBehind(node, rest, j);
        }
      }
    }

    method PushBack(value: string)
      requires Valid()
      modifies this, nodes
      ensures Valid() && Contents() == old(Contents()) + [value]
      ensures |nodes| == |old(nodes)| + 1 && fresh(nodes[|nodes| - 1])
      ensures forall j :: 0 <= j < |old(nodes)| ==> nodes[j] == old(nodes)[j]
    {
      var node := new ListNode(value);
      if length == 0 {
        head, tail := node, node;
      } else {
        node.prev := tail;
        tail.next := node;
        tail := node;
      }
      length := length + 1;
      nodes := nodes + [node];
      forall i | 0 <= i < |nodes| ensures LinkAt(i) {
        if i + 1 < |nodes| {
          assert old(LinkAt(i));
        }
      }
    }

    method PopFront() returns (value: Option<string>)
      requires Valid()
      modifies this, nodes
      ensures Valid()
      ensures if old(nodes) == [] then value == None && nodes == []
              else value == Some(old(Contents())[0]) && Contents() == old(Contents())[1..] && nodes == old(nodes)[1..]
    {
      if length == 0 {
        return None;
      }
      assert LinkAt(0);
      value := Some(head.value);
      head := head.next;
      if head != null {
        head.prev := null;
      } else {
        tail := null;
      }
      length := length - 1;
      nodes := nodes[1..];
      forall i | 0 <= i < |nodes| ensures LinkAt(i) {
        assert old(LinkAt(i + 1));
      }
    }

    method PopBack() returns (value: Option<string>)
      requires Valid()
      modifies this, nodes
      ensures Valid()
      ensures if old(nodes) == [] then value == None && nodes == []
              else
                var n := |old(nodes)| - 1;
                value == Some(old(Contents())[n]) && Contents() == old(Contents())[..n] && nodes == old(nodes)[..n]
    {
      if length == 0 {
        return None;
      }
      assert LinkAt(length - 1);
      value := Some(tail.value);
      tail := tail.prev;
      if tail != null {
        tail.next := null;
      } else {
        head := null;
      }
      length := length - 1;
      nodes := nodes[..length];
      forall i | 0 <= i < |nodes| ensures LinkAt(i) {
        assert old(LinkAt(i));
      }
    }

    method Clear()
      requires Valid()
      modifies this
      ensures Valid() && nodes == []
    {
      var current := head;
      ghost var i := 0;
      while current != null
        invariant i <= |nodes| && current == (if i == |nodes| then null else nodes[i])
        decreases |nodes| - i
      {
        assert LinkAt(i);
        current := current.next;
        i := i + 1;
      }
      head, tail, length, nodes := null, null, 0, [];
    }

    // The walk starts from the nearer end.
    method Get(index: int) returns (value: Option<string>)
      requires Valid()
      ensures value == Element(Contents(), index)
    {
      if length == 0 {
        return None;
      }
      var at := if index < 0 then length + index else index;
      if at < 0 || at >= length {
        return None;
      }
      var current: ListNode?;
      if at > length / 2 {
        current := tail;
        var i := length - 1;
        while i > at
          invariant at <= i < length && current == nodes[i]
        {
          assert LinkAt(i);
          current := current.prev;
          i := i - 1;
        }
      } else {
        current := head;
        for i := 0 to at
          invariant current == nodes[i]
        {
          assert LinkAt(i);
          current := current.next;
        }
      }
      value := Some(current.value);
    }

    method RangeOf(start: int, stop: int) returns (result: seq<string>)
      requires Valid()
      ensures result == Range(Contents(), start, stop)
    {
      var bounds := Clamp(length, start, stop);
      if bounds.None? {
        return [];
      }
      var (from, to) := bounds.value;
      var current := Skip(from);
      result := Walk(current, from, to - from + 1);
    }

    method Skip(count: nat) returns (current: ListNode?)
      requires Valid() && count < |nodes|
      ensures current == nodes[count]
    {
      current := head;
      for i := 0 to count
        invariant current == nodes[i]
      {
        assert LinkAt(i);
        current := current.next;
      }
    }

    method Walk(first: ListNode?, ghost from: nat, count: nat) returns (result: seq<string>)
      requires Valid() && from + count <= |nodes| && (count > 0 ==> first == nodes[from])
      ensures result == Contents()[from..from + count]
    {
      result := [];
      var current, left := first, count;
      ghost var i, s := from, Contents();
      while left > 0 && current != null
        invariant from <= i <= |nodes| && i + left == from + count
        invariant left > 0 ==> current == nodes[i]
        invariant result == s[from..i]
        decreases left
      {
        assert LinkAt(i);
        assert s[from..i + 1] == s[from..i] + [s[i]];
        result := result + [current.value];
        current := current.next;
        left, i := left - 1, i + 1;
      }
    }

    // Equal, and without a node in common.
    lemma Neighbour(i: nat)
      requires Valid() && i < |nodes|
      ensures nodes[i].next == if i + 1 == |nodes| then null else nodes[i + 1]
    {
      assert LinkAt(i);
    }

    lemma Ends()
      requires Valid()
      ensures head == if nodes == [] then null else nodes[0]
    {
    }

    method Clone() returns (copy: LinkedList)
      requires Valid()
      ensures fresh(copy) && copy.Valid() && copy.Contents() == Contents()
      ensures forall j :: 0 <= j < |copy.nodes| ==> fresh(copy.nodes[j])
    {
      hide Valid;
      hide LinkAt;
      hide Values;
      Ends();
      copy := new LinkedList();
      var current := head;
      ghost var i, s := 0, Contents();
      label start:
      while current != null
        modifies copy
        invariant Valid()
        invariant i <= |nodes| && current == (if i == |nodes| then null else nodes[i])
        invariant copy.Valid() && forall j :: 0 <= j < |copy.nodes| ==> fresh@start(copy.nodes[j])
        invariant copy.Contents() == s[..i]
        decreases |nodes| - i
      {
        Neighbour(i);
        assert s[..i + 1] == s[..i] + [s[i]];
        copy.PushBack(current.value);
        current := current.next;
        i := i + 1;
      }
      assert s[..i] == s;
    }
  }
}

// The skip list under a sorted set: towers of forward links whose spans are rank distances.

module SkipLists {
  import opened Ordering
  import Seqs

  const MAXLEVEL: nat := 32

  datatype Level = Level(forward: Node?, span: nat)

  class Node {
    const member: string
    const score: real
    ghost const height: nat
    var backward: Node?
    var level: seq<Level>

    constructor (levels: nat, score: real, member: string)
      ensures this.score == score && this.member == member && height == levels
      ensures backward == null
      ensures level == seq(levels, _ => Level(null, 0))
    {
      this.member := member;
      this.score := score;
      height := levels;
      backward := null;
      level := seq(levels, _ => Level(null, 0));
    }

    function Key(): Entry { Entry(score, member) }
  }

  // No node in towers[lo..hi] is tall enough to be on level i.
  ghost predicate Below(towers: seq<Node>, lo: nat, hi: nat, i: nat)
    requires lo <= hi <= |towers|
  {
    forall r :: lo <= r < hi ==> towers[r].height <= i
  }

  // The link out of position p on level i leads to the next node that is taller than i and
  // its span is the distance; a last link counts the nodes that remain.
  ghost predicate LinkOk(towers: seq<Node>, p: nat, i: nat, link: Level)
    requires p < |towers|
  {
    if link.forward == null then
      p + link.span == |towers| - 1 && Below(towers, p + 1, |towers|, i)
    else
      && 1 <= link.span
      && p + link.span < |towers|
      && towers[p + link.span] == link.forward
      && link.forward.height > i
      && Below(towers, p + 1, p + link.span, i)
  }

  ghost predicate LinkAt(towers: seq<Node>, p: nat, i: nat)
    requires p < |towers|
    reads {towers[p]}`level
  {
    towers[p].height > i ==> i < |towers[p].level| && LinkOk(towers, p, i, towers[p].level[i])
  }

  ghost predicate LevelOk(towers: seq<Node>, i: nat)
    reads towers`level
  {
    forall p :: 0 <= p < |towers| ==> LinkAt(towers, p, i)
  }

  ghost function KeysOf(towers: seq<Node>): (keys: seq<Entry>)
    requires towers != []
  {
    seq(|towers| - 1, p requires 0 <= p < |towers| - 1 => towers[p + 1].Key())
  }

  // Where the search for e stops on level i, when it stops at position p below k.
  ghost predicate Crosses(k: nat, p: nat, link: Level) {
    p <= k && (link.forward != null ==> k < p + link.span)
  }

  ghost function With(towers: seq<Node>, k: nat, x: Node): (r: seq<Node>)
    requires k < |towers|
    ensures |r| == |towers| + 1
  {
    towers[..k + 1] + [x] + towers[k + 1..]
  }

  ghost function Without(towers: seq<Node>, k: nat): (r: seq<Node>)
    requires k + 1 < |towers|
    ensures |r| == |towers| - 1
  {
    towers[..k + 1] + towers[k + 2..]
  }

  // Insertion after position k, link by link: what changes, and what only moves.
  lemma LinkAfterInsert(towers: seq<Node>, k: nat, x: Node, p: nat, i: nat, link: Level)
    requires p < |towers| && k < |towers| && LinkOk(towers, p, i, link)
    ensures p > k ==> LinkOk(With(towers, k, x), p + 1, i, link)
    ensures !Crosses(k, p, link) && p <= k ==> LinkOk(With(towers, k, x), p, i, link)
    ensures Crosses(k, p, link) && x.height <= i ==>
      LinkOk(With(towers, k, x), p, i, link.(span := link.span + 1))
    ensures Crosses(k, p, link) && x.height > i ==>
      && link.span >= k - p
      && LinkOk(With(towers, k, x), p, i, Level(x, k - p + 1))
      && LinkOk(With(towers, k, x), k + 1, i, link.(span := link.span - (k - p)))
  {
    var w := With(towers, k, x);
    assert forall r :: 0 <= r <= k ==> w[r] == towers[r];
    assert forall r :: k < r < |towers| ==> w[r + 1] == towers[r];
    if p > k {
      forall r | p + 2 <= r < (if link.forward == null then |w| else p + 1 + link.span)
        ensures w[r].height <= i
      {
        assert w[r] == towers[r - 1];
      }
    } else if Crosses(k, p, link) {
      forall r | k + 2 <= r < (if link.forward == null then |w| else p + 1 + link.span)
        ensures w[r].height <= i
      {
        assert w[r] == towers[r - 1];
      }
    }
  }

  lemma WithNodes(towers: seq<Node>, k: nat, x: Node)
    requires k < |towers| && Seqs.Distinct(towers) && x !in towers
    ensures Seqs.Distinct(With(towers, k, x)) && With(towers, k, x)[0] == towers[0]
    ensures forall n :: n in With(towers, k, x) <==> n == x || n in towers
    ensures forall p :: 0 <= p < |With(towers, k, x)| ==>
      With(towers, k, x)[p] == if p <= k then towers[p] else if p == k + 1 then x else towers[p - 1]
  {
    var w := With(towers, k, x);
    forall n | n == x || n in towers ensures n in w {
      if n != x {
        var q :| 0 <= q < |towers| && towers[q] == n;
        assert w[if q <= k then q else q + 1] == n;
      } else {
        assert w[k + 1] == x;
      }
    }
  }

  lemma KeysWith(towers: seq<Node>, k: nat, x: Node)
    requires k < |towers| && k == LowerBound(KeysOf(towers), x.Key())
    ensures KeysOf(With(towers, k, x)) == Inserted(KeysOf(towers), x.Key())
  {
  }

  // On each level one link crosses position k, so the others are not touched.
  lemma CrossingIsUnique(towers: seq<Node>, k: nat, i: nat, p: nat, q: nat, a: Level, b: Level)
    requires p < |towers| && q < |towers| && k < |towers|
    requires LinkOk(towers, p, i, a) && LinkOk(towers, q, i, b)
    requires towers[p].height > i && towers[q].height > i
    requires Crosses(k, p, a) && Crosses(k, q, b)
    ensures p == q
  {
  }

  // Deletion of the node after position k, link by link.
  lemma LinkAfterDelete(towers: seq<Node>, k: nat, p: nat, i: nat, link: Level, gone: Level)
    requires p < |towers| && k + 1 < |towers| && p != k + 1 && LinkOk(towers, p, i, link)
    requires towers[k + 1].height > i ==> LinkOk(towers, k + 1, i, gone)
    requires Seqs.Distinct(towers)
    ensures p > k + 1 ==> LinkOk(Without(towers, k), p - 1, i, link)
    ensures !Crosses(k, p, link) && p <= k ==> LinkOk(Without(towers, k), p, i, link)
    ensures Crosses(k, p, link) ==> link.span >= 1
    ensures Crosses(k, p, link) && link.forward != towers[k + 1] ==>
      LinkOk(Without(towers, k), p, i, link.(span := link.span - 1))
    ensures Crosses(k, p, link) && link.forward == towers[k + 1] ==>
      LinkOk(Without(towers, k), p, i, Level(gone.forward, link.span + gone.span - 1))
  {
    var x := towers[k + 1];
    var v := Without(towers, k);
    assert forall r :: 0 <= r <= k ==> v[r] == towers[r];
    assert forall r :: k + 1 < r < |towers| ==> v[r - 1] == towers[r];
    if p > k + 1 {
      assert forall r :: p <= r < |v| ==> v[r] == towers[r + 1];
    } else if Crosses(k, p, link) {
      assert link.forward != x ==> x.height <= i;
      assert link.forward == x ==> link.span == k + 1 - p;
      assert forall r :: k < r < |v| ==> v[r] == towers[r + 1];
    }
  }

  // Every node is on level 0, so the links there lead to the neighbour.
  lemma BottomLink(towers: seq<Node>, p: nat)
    requires p < |towers| && LevelOk(towers, 0)
    requires forall q :: 0 <= q < |towers| ==> towers[q].height > 0
    ensures |towers[p].level| > 0
    ensures towers[p].level[0].forward == if p + 1 < |towers| then towers[p + 1] else null
  {
    assert LinkAt(towers, p, 0);
    assert p + 1 < |towers| ==> towers[p + 1].height > 0;
  }

  // A search for e that stops at p stops at the link that crosses e's place.
  lemma StopCrosses(towers: seq<Node>, p: nat, i: nat, link: Level, e: Entry)
    requires p < |towers| && LinkOk(towers, p, i, link) && Sorted(KeysOf(towers))
    requires p > 0 ==> Less(towers[p].Key(), e)
    requires link.forward != null ==> !Less(link.forward.Key(), e)
    ensures Crosses(LowerBound(KeysOf(towers), e), p, link)
  {
    var keys := KeysOf(towers);
    LowerBoundBounds(keys, e);
    if p > 0 {
      assert keys[p - 1] == towers[p].Key();
      SortedSides(keys, e, p - 1);
    }
    if link.forward != null {
      assert keys[p + link.span - 1] == link.forward.Key();
      SortedSides(keys, e, p + link.span - 1);
    }
  }

  // One level of an insertion: only the crossing link out of position p changes.
  twostate lemma LevelAfterInsert(towers: seq<Node>, new k: nat, new x: Node, new p: nat, new i: nat)
    requires k < |towers| && p < |towers| && towers[p].height > i
    requires old(LevelOk(towers, i)) && i < old(|towers[p].level|) && i < |towers[p].level|
    requires Crosses(k, p, old(towers[p].level[i]))
    requires forall q {:trigger towers[q].level} :: 0 <= q < |towers| && towers[q].height > i && q != p ==>
      && i < |towers[q].level| && i < old(|towers[q].level|)
      && towers[q].level[i] == old(towers[q].level[i])
    requires x.height <= i ==>
      towers[p].level[i] == old(towers[p].level[i]).(span := old(towers[p].level[i].span) + 1)
    requires x.height > i ==>
      && old(towers[p].level[i].span) >= k - p
      && towers[p].level[i] == Level(x, k - p + 1)
      && i < |x.level|
      && x.level[i] == old(towers[p].level[i]).(span := old(towers[p].level[i].span) - (k - p))
    ensures LevelOk(With(towers, k, x), i)
  {
    var w := With(towers, k, x);
    assert old(LinkAt(towers, p, i));
    var crossing := old(towers[p].level[i]);
    LinkAfterInsert(towers, k, x, p, i, crossing);
    forall q | 0 <= q < |w|
      ensures LinkAt(w, q, i)
    {
      var o := if q <= k then q else q - 1;
      if q != k + 1 && w[q].height > i {
        assert w[q] == towers[o] && old(LinkAt(towers, o, i));
        var link := old(towers[o].level[i]);
        LinkAfterInsert(towers, k, x, o, i, link);
        if Crosses(k, o, link) {
          CrossingIsUnique(towers, k, i, o, p, link, crossing);
        }
      }
    }
  }

  // One level of a deletion: only the crossing link out of position p changes.
  twostate lemma LevelAfterDelete(towers: seq<Node>, new k: nat, new p: nat, new i: nat)
    requires k + 1 < |towers| && p < |towers| && towers[p].height > i && Seqs.Distinct(towers)
    requires old(LevelOk(towers, i)) && i < old(|towers[p].level|) && i < |towers[p].level|
    requires Crosses(k, p, old(towers[p].level[i])) && old(towers[p].level[i].span) >= 1
    requires forall q {:trigger towers[q].level} :: 0 <= q < |towers| && towers[q].height > i && q != p ==>
      && i < |towers[q].level| && i < old(|towers[q].level|)
      && towers[q].level[i] == old(towers[q].level[i])
    requires
      var link := old(towers[p].level[i]);
      if link.forward == towers[k + 1] then
        && towers[k + 1].height > i && i < |towers[k + 1].level|
        && towers[p].level[i] == Level(towers[k + 1].level[i].forward, link.span + towers[k + 1].level[i].span - 1)
      else
        towers[p].level[i] == link.(span := link.span - 1)
    ensures LevelOk(Without(towers, k), i)
  {
    var v := Without(towers, k);
    assert old(LinkAt(towers, p, i)) && old(LinkAt(towers, k + 1, i));
    var crossing := old(towers[p].level[i]);
    var gone := if towers[k + 1].height > i then old(towers[k + 1].level[i]) else Level(null, 0);
    LinkAfterDelete(towers, k, p, i, crossing, gone);
    forall q | 0 <= q < |v|
      ensures LinkAt(v, q, i)
    {
      var o := if q <= k then q else q + 1;
      assert v[q] == towers[o];
      if v[q].height > i {
        assert old(LinkAt(towers, o, i));
        var link := old(towers[o].level[i]);
        LinkAfterDelete(towers, k, o, i, link, gone);
        if Crosses(k, o, link) {
          CrossingIsUnique(towers, k, i, o, p, link, crossing);
        }
      }
    }
  }

  // Relinking level i leaves the levels below it, already in their new form, and the
  // levels above it, still in their old form, as they are.
  twostate lemma OtherLevels(lists: (seq<Node>, seq<Node>), new i: nat, new levels: nat)
    requires forall j :: 0 <= j < i ==> old(LevelOk(lists.1, j))
    requires forall j :: i < j < levels ==> old(LevelOk(lists.0, j))
    requires forall n :: n in lists.1 || n in lists.0 ==> |n.level| == old(|n.level|) == n.height
    requires forall n, j :: (n in lists.1 || n in lists.0) && j != i && 0 <= j < n.height ==>
      n.level[j] == old(n.level[j])
    ensures forall j :: 0 <= j < i ==> LevelOk(lists.1, j)
    ensures forall j :: i < j < levels ==> LevelOk(lists.0, j)
  {
    forall j | 0 <= j < i ensures LevelOk(lists.1, j) {
      SameLevel(lists.1, j);
    }
    forall j | i < j < levels ensures LevelOk(lists.0, j) {
      SameLevel(lists.0, j);
    }
  }

  twostate lemma SameLevel(towers: seq<Node>, new j: nat)
    requires old(LevelOk(towers, j))
    requires forall n :: n in towers && n.height > j ==>
      j < |n.level| && j < old(|n.level|) && n.level[j] == old(n.level[j])
    ensures LevelOk(towers, j)
  {
    forall p | 0 <= p < |towers| ensures LinkAt(towers, p, j) {
      assert towers[p] in towers && old(LinkAt(towers, p, j));
    }
  }

  // The towers: how tall they are, and which of the head's levels are in use.
  ghost predicate Shape(towers: seq<Node>, levels: nat)
    reads towers`level
  {
    && towers != [] && towers[0].height == MAXLEVEL
    && Seqs.Distinct(towers)
    && 1 <= levels <= MAXLEVEL
    && (forall p :: 0 <= p < |towers| ==> |towers[p].level| == towers[p].height)
    && (forall p :: 1 <= p < |towers| ==> 1 <= towers[p].height <= levels)
    && (forall i {:trigger towers[0].level[i]} :: levels <= i < MAXLEVEL ==>
          towers[0].level[i].forward == null)
  }

  ghost predicate Linked(towers: seq<Node>, levels: nat)
    reads towers`level
  {
    forall i :: 0 <= i < levels ==> LevelOk(towers, i)
  }

  // The top level in use is not empty, unless it is the only one.
  ghost predicate Trimmed(towers: seq<Node>, levels: nat)
    requires Shape(towers, levels)
    reads towers`level
  {
    levels > 1 ==> towers[0].level[levels - 1].forward != null
  }

  // The backward chain mirrors level 0, without the head.
  ghost predicate Backward(towers: seq<Node>, tail: Node?)
    reads towers`backward
  {
    && towers != []
    && (forall p {:trigger towers[p].backward} :: 0 <= p < |towers| ==>
          towers[p].backward == if p <= 1 then null else towers[p - 1])
    && tail == if |towers| == 1 then null else towers[|towers| - 1]
  }

  lemma ShapeWith(towers: seq<Node>, k: nat, x: Node, levels: nat)
    requires k < |towers| && Seqs.Distinct(towers) && x !in towers && 1 <= levels <= MAXLEVEL
    requires towers[0].height == MAXLEVEL && 1 <= x.height == |x.level| <= levels
    requires forall n :: n in towers ==> |n.level| == n.height
    requires forall p :: 1 <= p < |towers| ==> 1 <= towers[p].height <= levels
    requires forall i {:trigger towers[0].level[i]} :: levels <= i < |towers[0].level| ==>
      towers[0].level[i].forward == null
    ensures Shape(With(towers, k, x), levels)
  {
    WithNodes(towers, k, x);
    var w := With(towers, k, x);
    forall p | 1 <= p < |w| ensures 1 <= w[p].height <= levels {
      assert w[p] == if p <= k then towers[p] else if p == k + 1 then x else towers[p - 1];
    }
    forall p | 0 <= p < |w| ensures |w[p].level| == w[p].height {
      assert w[p] in w;
    }
  }

  lemma WithoutNodes(towers: seq<Node>, k: nat)
    requires k + 1 < |towers| && Seqs.Distinct(towers)
    ensures Seqs.Distinct(Without(towers, k)) && Without(towers, k)[0] == towers[0]
    ensures forall n :: n in Without(towers, k) ==> n in towers
    ensures forall p {:trigger Without(towers, k)[p]} :: 0 <= p < |Without(towers, k)| ==>
      Without(towers, k)[p] == towers[if p <= k then p else p + 1]
  {
  }

  lemma KeysWithout(towers: seq<Node>, k: nat)
    requires k + 1 < |towers|
    requires k == LowerBound(KeysOf(towers), towers[k + 1].Key())
    ensures KeysOf(Without(towers, k)) == Removed(KeysOf(towers), towers[k + 1].Key())
  {
    assert KeysOf(towers)[k] == towers[k + 1].Key();
  }

  lemma ShapeWithout(towers: seq<Node>, k: nat, levels: nat)
    requires k + 1 < |towers| && Seqs.Distinct(towers) && 1 <= levels <= MAXLEVEL
    requires towers[0].height == MAXLEVEL
    requires forall n :: n in towers ==> |n.level| == n.height
    requires forall p :: 1 <= p < |towers| ==> 1 <= towers[p].height <= levels
    requires forall i {:trigger towers[0].level[i]} :: levels <= i < |towers[0].level| ==>
      towers[0].level[i].forward == null
    ensures Shape(Without(towers, k), levels)
  {
    WithoutNodes(towers, k);
    var v := Without(towers, k);
    forall p | 1 <= p < |v| ensures 1 <= v[p].height <= levels {
      assert v[p] == towers[if p <= k then p else p + 1];
    }
    forall p | 0 <= p < |v| ensures |v[p].level| == v[p].height {
      assert v[p] == towers[if p <= k then p else p + 1];
    }
  }

  // An empty top level can be dropped: no tower reaches it.
  lemma DropTop(towers: seq<Node>, levels: nat)
    requires Shape(towers, levels) && Linked(towers, levels) && levels > 1
    requires towers[0].level[levels - 1].forward == null
    ensures Shape(towers, levels - 1) && Linked(towers, levels - 1)
  {
    assert LevelOk(towers, levels - 1) && LinkAt(towers, 0, levels - 1);
    assert Below(towers, 1, |towers|, levels - 1);
  }

  // Where the descent for e stops: position p on level i is before e and what follows is not.
  ghost predicate Stops(towers: seq<Node>, i: nat, p: nat, x: Node, e: Entry)
    reads x`level
  {
    && p < |towers| && towers[p] == x && i < x.height == |x.level|
    && (p > 0 ==> Less(x.Key(), e))
    && (x.level[i].forward != null ==> !Less(x.level[i].forward.Key(), e))
  }

  // The update and rank arrays that a descent for e fills.
  ghost predicate Path(towers: seq<Node>, levels: nat, update: seq<Node>, rank: seq<nat>, e: Entry)
    reads towers`level, update`level
  {
    && |update| == |rank| == MAXLEVEL
    && forall j :: 0 <= j < levels <= MAXLEVEL ==> Stops(towers, j, rank[j], update[j], e)
  }

  // The same, reduced to what relinking needs: on each level, the link that crosses position k.
  ghost predicate Crossing(towers: seq<Node>, levels: nat, update: seq<Node>, rank: seq<nat>, k: nat)
    reads update`level
  {
    && |update| == |rank| == MAXLEVEL
    && forall j :: 0 <= j < levels <= MAXLEVEL ==> CrossesAt(towers, j, rank[j], update[j], k)
  }

  ghost predicate CrossesAt(towers: seq<Node>, j: nat, p: nat, u: Node, k: nat)
    reads u`level
  {
    p < |towers| && towers[p] == u && j < u.height == |u.level| && Crosses(k, p, u.level[j])
  }

  lemma StopsAtBottom(towers: seq<Node>, p: nat, x: Node, e: Entry)
    requires towers != [] && Sorted(KeysOf(towers)) && LevelOk(towers, 0) && Stops(towers, 0, p, x, e)
    requires forall q :: 0 <= q < |towers| ==> towers[q].height > 0
    ensures p == LowerBound(KeysOf(towers), e)
  {
    BottomLink(towers, p);
    var keys := KeysOf(towers);
    assert p > 0 ==> keys[p - 1] == x.Key();
    assert p < |keys| ==> keys[p] == x.level[0].forward.Key();
    LowerBoundUnique(keys, e, p);
  }

  lemma PathCrosses(towers: seq<Node>, levels: nat, update: seq<Node>, rank: seq<nat>, e: Entry)
    requires Shape(towers, levels) && Linked(towers, levels) && Sorted(KeysOf(towers))
    requires Path(towers, levels, update, rank, e)
    ensures rank[0] == LowerBound(KeysOf(towers), e) < |towers|
    ensures towers[rank[0]] == update[0]
    ensures Crossing(towers, levels, update, rank, rank[0])
  {
    assert Stops(towers, 0, rank[0], update[0], e) && LevelOk(towers, 0);
    StopsAtBottom(towers, rank[0], update[0], e);
    forall j | 0 <= j < levels ensures CrossesAt(towers, j, rank[j], update[j], rank[0]) {
      assert Stops(towers, j, rank[j], update[j], e);
      assert LevelOk(towers, j) && LinkAt(towers, rank[j], j);
      StopCrosses(towers, rank[j], j, update[j].level[j], e);
    }
  }

  class SkipList {
    var head: Node
    var tail: Node?
    var length: nat
    var level: nat
    ghost var towers: seq<Node>   // the head, then every entry in level-0 order

    ghost predicate Valid()
      reads this, towers
    {
      && Shape(towers, level) && head == towers[0] && length == |towers| - 1
      && head.member == ""
      && Linked(towers, level)
      && Trimmed(towers, level)
      && Backward(towers, tail)
      && Sorted(KeysOf(towers))
    }

    ghost function Nodes(): (nodes: set<Node>)
      reads this
      ensures forall n :: n in towers ==> n in nodes
    {
      set n | n in towers
    }

    ghost function Keys(): (keys: seq<Entry>)
      reads this
      requires towers != []
    {
      KeysOf(towers)
    }

    constructor ()
      ensures Valid() && Keys() == [] && fresh(Nodes()) && towers == [head] && level == 1
    {
      var h := new Node(MAXLEVEL, 0.0, "");
      head := h;
      tail := null;
      length := 0;
      level := 1;
      towers := [h];
      new;
      assert LinkAt(towers, 0, 0) && LevelOk(towers, 0);
    }

    // Any height the coin flips can give.
    method RandomLevel() returns (levels: nat)
      ensures 1 <= levels <= MAXLEVEL
    {
      levels := 1;
      var flip: bool := *;
      while flip && levels < MAXLEVEL
        invariant 1 <= levels <= MAXLEVEL
        decreases MAXLEVEL - levels
      {
        levels := levels + 1;
        flip := *;
      }
    }

    // The descent that insert and deleteNode share: on each level, the last node before e.
    method Descend(e: Entry) returns (update: seq<Node>, rank: seq<nat>)
      requires Valid()
      ensures Path(towers, level, update, rank, e)
    {
      var x := head;
      update := seq(MAXLEVEL, _ => x);
      rank := seq(MAXLEVEL, _ => 0);
      var i := level;
      while i > 0
        invariant 0 <= i <= level
        invariant |update| == |rank| == MAXLEVEL
        invariant x == if i == level then head else update[i]
        invariant forall j :: i <= j < level ==> Stops(towers, j, rank[j], update[j], e)
      {
        i := i - 1;
        rank := rank[i := if i == level - 1 then 0 else rank[i + 1]];
        assert i + 1 < level ==> Stops(towers, i + 1, rank[i + 1], update[i + 1], e);
        while x.level[i].forward != null && Less(x.level[i].forward.Key(), e)
          invariant |update| == |rank| == MAXLEVEL
          invariant rank[i] < |towers| && towers[rank[i]] == x && i < x.height == |x.level|
          invariant rank[i] > 0 ==> Less(x.Key(), e)
          invariant forall j :: i < j < level ==> Stops(towers, j, rank[j], update[j], e)
          decreases |towers| - rank[i]
        {
          assert LevelOk(towers, i) && LinkAt(towers, rank[i], i);
          rank := rank[i := rank[i] + x.level[i].span];
          x := x.level[i].forward;
        }
        update := update[i := x];
      }
    }

    // One step of the relinking: on level i, x goes after u or u's link widens over x.
    method SpliceLevel(ghost list: seq<Node>, x: Node, u: Node, before: nat, ghost k: nat, ghost p: nat, i: nat)
      requires k < |list| && x !in list && CrossesAt(list, i, p, u, k) && before == k - p
      requires i < level && Seqs.Distinct(list)
      requires |x.level| == x.height && forall n :: n in list ==> |n.level| == n.height
      requires forall j :: i <= j < level ==> LevelOk(list, j)
      requires forall j :: 0 <= j < i ==> LevelOk(With(list, k, x), j)
      modifies x`level, u`level
      ensures |x.level| == x.height && |u.level| == u.height
      ensures forall j :: 0 <= j < u.height && j != i ==> u.level[j] == old(u.level[j])
      ensures u.level[i].forward == if i < x.height then x else old(u.level[i].forward)
      ensures forall j :: i < j < level ==> LevelOk(list, j)
      ensures forall j :: 0 <= j <= i ==> LevelOk(With(list, k, x), j)
    {
      var link := u.level[i];
      assert LevelOk(list, i) && LinkAt(list, p, i);
      if i < |x.level| {
        x.level := x.level[i := Level(link.forward, link.span - before)];
        u.level := u.level[i := Level(x, before + 1)];
      } else {
        u.level := u.level[i := Level(link.forward, link.span + 1)];
      }
      LevelAfterInsert(list, k, x, p, i);
      OtherLevels((list, With(list, k, x)), i, level);
    }

    // Links x into every level it reaches and widens the links that pass over it.
    method Splice(ghost list: seq<Node>, x: Node, update: seq<Node>, rank: seq<nat>)
      requires Shape(list, level) && Linked(list, level) && x !in list
      requires |update| == |rank| == MAXLEVEL && rank[0] < |list|
      requires Crossing(list, level, update, rank, rank[0])
      requires 1 <= |x.level| == x.height <= level
      modifies x`level, list`level
      ensures Shape(With(list, rank[0], x), level) && Linked(With(list, rank[0], x), level)
      ensures |list[0].level| == MAXLEVEL
      ensures forall j :: 0 <= j < level ==>
        list[0].level[j].forward ==
          if j < x.height && list[0] == update[j] then x else old(list[0].level[j].forward)
    {
      ghost var k := rank[0];
      for i := 0 to level
        invariant forall n :: n in list ==> |n.level| == n.height
        invariant |x.level| == x.height
        invariant forall n, j {:trigger n.level[j]} :: n in list && i <= j < n.height ==>
          n.level[j] == old(n.level[j])
        invariant forall j {:trigger list[0].level[j]} :: 0 <= j < i && j < list[0].height ==>
          list[0].level[j].forward ==
            if j < x.height && list[0] == update[j] then x else old(list[0].level[j].forward)
        invariant forall j :: i <= j < level ==> LevelOk(list, j)
        invariant forall j :: 0 <= j < i ==> LevelOk(With(list, k, x), j)
      {
        assert old(CrossesAt(list, i, rank[i], update[i], k));
        assert update[i] in list;
        SpliceLevel(list, x, update[i], rank[0] - rank[i], k, rank[i], i);
      }
      ShapeWith(list, k, x, level);
    }

    // Puts the levels up to a new maximum in use: so far their one link, out of the head,
    // passes over every node.
    method Grow(levels: nat, update: seq<Node>, rank: seq<nat>, ghost k: nat)
      returns (update': seq<Node>, rank': seq<nat>)
      requires Shape(towers, level) && Linked(towers, level) && head == towers[0]
      requires level < levels <= MAXLEVEL && length == |towers| - 1
      requires Crossing(towers, level, update, rank, k)
      modifies this`level, head`level
      ensures level == levels && Shape(towers, level) && Linked(towers, level)
      ensures Crossing(towers, level, update', rank', k)
      ensures update'[0] == update[0] && rank'[0] == rank[0] && update'[level - 1] == head
    {
      update', rank' := update, rank;
      for i := level to levels
        invariant level == old(level)
        invariant |update'| == |rank'| == |head.level| == MAXLEVEL
        invariant forall j :: 0 <= j < level ==> update'[j] == update[j] && rank'[j] == rank[j]
        invariant forall j :: level <= j < i ==> update'[j] == head && rank'[j] == 0
        invariant forall j :: 0 <= j < level ==> head.level[j] == old(head.level[j])
        invariant forall j :: level <= j < MAXLEVEL ==> head.level[j].forward == null
        invariant forall j :: level <= j < i ==> head.level[j].span == length
      {
        rank' := rank'[i := 0];
        update' := update'[i := head];
        head.level := head.level[i := Level(head.level[i].forward, length)];
      }
      forall j | 0 <= j < levels ensures LevelOk(towers, j) {
        if j < level {
          assert old(LevelOk(towers, j));
          SameLevel(towers, j);
        } else {
          assert forall p :: 0 <= p < |towers| ==> LinkAt(towers, p, j);
        }
      }
      level := levels;
      forall j | 0 <= j < level ensures CrossesAt(towers, j, rank'[j], update'[j], k) {
        assert j < old(level) ==> old(CrossesAt(towers, j, rank[j], update[j], k));
      }
    }

    // Once x is linked on every level, it takes its place in the backward chain.
    method LinkBack(x: Node, u: Node, ghost k: nat)
      requires k < |towers| && Backward(towers, tail) && x !in towers && towers[k] == u
      requires towers[0] == head && Seqs.Distinct(towers)
      requires Shape(With(towers, k, x), level) && Linked(With(towers, k, x), level)
      modifies this`tail, this`towers, x`backward, towers`backward
      ensures towers == With(old(towers), k, x) && Backward(towers, tail)
      ensures Shape(towers, level) && Linked(towers, level)
    {
      ghost var w := With(towers, k, x);
      assert LevelOk(w, 0);
      BottomLink(w, k + 1);
      WithNodes(towers, k, x);
      RelinkBack(x, u, k);
      towers := w;
    }

    method RelinkBack(x: Node, u: Node, ghost k: nat)
      requires k < |towers| && Backward(towers, tail) && x !in towers && towers[k] == u
      requires towers[0] == head && Seqs.Distinct(towers) && |x.level| > 0
      requires x.level[0].forward == if k + 1 < |towers| then towers[k + 1] else null
      modifies this`tail, x`backward, towers`backward
      ensures Backward(With(towers, k, x), tail)
    {
      x.backward := if u == head then null else u;
      if x.level[0].forward != null {
        x.level[0].forward.backward := x;
      } else {
        tail := x;
      }
      WithNodes(towers, k, x);
    }

    // The insertion itself, once the place for x is known on every level.
    method InsertAt(x: Node, update: seq<Node>, rank: seq<nat>)
      requires Shape(towers, level) && Linked(towers, level) && Backward(towers, tail)
      requires head == towers[0] && length == |towers| - 1
      requires x !in towers && 1 <= |x.level| == x.height <= level
      requires |update| == |rank| == MAXLEVEL && rank[0] < |towers|
      requires Crossing(towers, level, update, rank, rank[0])
      requires Trimmed(towers, level) || (update[level - 1] == head && x.height == level)
      modifies this, x, Nodes()
      ensures towers == With(old(towers), rank[0], x) && level == old(level)
      ensures Shape(towers, level) && Linked(towers, level) && Backward(towers, tail)
      ensures head == towers[0] && length == |towers| - 1
      ensures Trimmed(towers, level)
    {
      hide Linked;
      hide Backward;
      ghost var list, w := towers, With(towers, rank[0], x);
      assert CrossesAt(list, 0, rank[0], update[0], rank[0]);
      Splice(list, x, update, rank);
      assert w[0] == list[0] && Trimmed(w, level);
      LinkBack(x, update[0], rank[0]);
      length := length + 1;
    }

    // Makes the new node and puts it after position rank[0].
    method Place(levels: nat, score: real, member: string, update: seq<Node>, rank: seq<nat>)
      returns (x: Node)
      requires Shape(towers, level) && Linked(towers, level) && Backward(towers, tail)
      requires head == towers[0] && length == |towers| - 1 && Trimmed(towers, level)
      requires 1 <= levels <= MAXLEVEL && |update| == |rank| == MAXLEVEL && rank[0] < |towers|
      requires Crossing(towers, level, update, rank, rank[0])
      modifies this, Nodes()
      ensures fresh(x) && x.score == score && x.member == member && x.height == levels
      ensures towers == With(old(towers), rank[0], x)
      ensures level == if levels > old(level) then levels else old(level)
      ensures Shape(towers, level) && Linked(towers, level) && Backward(towers, tail)
      ensures head == towers[0] && length == |towers| - 1 && Trimmed(towers, level)
    {
      var u, r := update, rank;
      if levels > level {
        u, r := Grow(levels, update, rank, rank[0]);
      }
      x := new Node(levels, score, member);
      InsertAt(x, u, r);
    }

    method Insert(score: real, member: string) returns (x: Node)
      requires Valid()
      modifies this, Nodes()
      ensures Valid() && fresh(x) && x in towers && x.Key() == Entry(score, member)
      ensures Nodes() == old(Nodes()) + {x}
      ensures Keys() == Inserted(old(Keys()), Entry(score, member))
    {
      var levels := RandomLevel();
      x := InsertTall(levels, score, member);
    }

    // The insertion for one outcome of the coin flips.
    method InsertTall(levels: nat, score: real, member: string) returns (x: Node)
      requires Valid() && 1 <= levels <= MAXLEVEL
      modifies this, Nodes()
      ensures Valid() && fresh(x) && x in towers && x.Key() == Entry(score, member)
      ensures Nodes() == old(Nodes()) + {x}
      ensures Keys() == Inserted(old(Keys()), Entry(score, member))
      ensures towers == With(old(towers), LowerBound(old(Keys()), Entry(score, member)), x)
      ensures x.height == levels && level == if levels > old(level) then levels else old(level)
    {
      hide Linked;
      hide Backward;
      hide Trimmed;
      hide Sorted;
      ghost var list, e := towers, Entry(score, member);
      var update, rank := Descend(Entry(score, member));
      PathCrosses(list, level, update, rank, e);
      x := Place(levels, score, member, update, rank);
      KeysWith(list, rank[0], x);
      WithNodes(list, rank[0], x);
      assert Sorted(KeysOf(towers)) by { InsertedKeepsOrder(KeysOf(list), e); }
    }

    // One step of the unlinking: on level i, u's link skips x or narrows.
    method UnspliceLevel(ghost list: seq<Node>, x: Node, u: Node, ghost k: nat, ghost p: nat, i: nat)
      requires k + 1 < |list| && list[k + 1] == x && CrossesAt(list, i, p, u, k)
      requires i < level && Seqs.Distinct(list) && forall n :: n in list ==> |n.level| == n.height
      requires forall j :: i <= j < level ==> LevelOk(list, j)
      requires forall j :: 0 <= j < i ==> LevelOk(Without(list, k), j)
      modifies u`level
      ensures |u.level| == u.height
      ensures forall j :: 0 <= j < u.height && j != i ==> u.level[j] == old(u.level[j])
      ensures forall j :: i < j < level ==> LevelOk(list, j)
      ensures forall j :: 0 <= j <= i ==> LevelOk(Without(list, k), j)
    {
      hide Below;
      hide Without;
      var link := u.level[i];
      assert LevelOk(list, i) && LinkAt(list, p, i) && LinkAt(list, k + 1, i);
      LinkAfterDelete(list, k, p, i, link, if i < |x.level| then x.level[i] else Level(null, 0));
      if link.forward == x {
        u.level := u.level[i := Level(x.level[i].forward, link.span + x.level[i].span - 1)];
      } else {
        u.level := u.level[i := Level(link.forward, link.span - 1)];
      }
      WithoutNodes(list, k);
      LevelAfterDelete(list, k, p, i);
      OtherLevels((list, Without(list, k)), i, level);
    }

    // Takes x, the node after position k, off every level.
    method Unsplice(ghost list: seq<Node>, x: Node, update: seq<Node>, ghost rank: seq<nat>)
      requires |update| == |rank| == MAXLEVEL && rank[0] + 1 < |list| && list[rank[0] + 1] == x
      requires Shape(list, level) && Linked(list, level)
      requires Crossing(list, level, update, rank, rank[0])
      modifies list`level
      ensures x.level == old(x.level)
      ensures Shape(Without(list, rank[0]), level) && Linked(Without(list, rank[0]), level)
    {
      ghost var k := rank[0];
      for i := 0 to level
        invariant forall n :: n in list ==> |n.level| == n.height
        invariant x.level == old(x.level)
        invariant forall n, j {:trigger n.level[j]} :: n in list && i <= j < n.height ==>
          n.level[j] == old(n.level[j])
        invariant forall j :: i <= j < level ==> LevelOk(list, j)
        invariant forall j :: 0 <= j < i ==> LevelOk(Without(list, k), j)
      {
        assert old(CrossesAt(list, i, rank[i], update[i], k));
        assert update[i] in list;
        UnspliceLevel(list, x, update[i], k, rank[i], i);
      }
      assert list[0] in list;
      ShapeWithout(list, k, level);
    }

    method UnlinkBack(x: Node, ghost k: nat)
      requires k + 1 < |towers| && Backward(towers, tail) && towers[k + 1] == x
      requires |x.level| > 0 && Seqs.Distinct(towers)
      requires x.level[0].forward == if k + 2 < |towers| then towers[k + 2] else null
      requires Shape(Without(towers, k), level) && Linked(Without(towers, k), level)
      modifies this`tail, this`towers, towers`backward
      ensures towers == Without(old(towers), k) && Backward(towers, tail)
      ensures Shape(towers, level) && Linked(towers, level)
    {
      if x.level[0].forward != null {
        x.level[0].forward.backward := x.backward;
      } else {
        tail := x.backward;
      }
      towers := Without(towers, k);
    }

    // Drops the empty levels at the top.
    method Trim()
      requires Shape(towers, level) && Linked(towers, level) && head == towers[0]
      modifies this`level
      ensures Shape(towers, level) && Linked(towers, level) && Trimmed(towers, level)
    {
      while level > 1 && head.level[level - 1].forward == null
        invariant Shape(towers, level) && Linked(towers, level)
        decreases level
      {
        DropTop(towers, level);
        level := level - 1;
      }
    }

    method Shrink()
      requires Shape(towers, level) && Linked(towers, level) && Backward(towers, tail)
      requires head == towers[0] && length > 0
      modifies this`level, this`length
      ensures Shape(towers, level) && Linked(towers, level) && Trimmed(towers, level)
      ensures Backward(towers, tail) && length == old(length) - 1
    {
      Trim();
      length := length - 1;
    }

    // Takes x off every level and out of the backward chain.
    method Detach(x: Node, update: seq<Node>, ghost rank: seq<nat>)
      requires Shape(towers, level) && Linked(towers, level) && Backward(towers, tail)
      requires |update| == |rank| == MAXLEVEL && rank[0] + 1 < |towers| && towers[rank[0] + 1] == x
      requires Crossing(towers, level, update, rank, rank[0])
      modifies this`tail, this`towers, towers
      ensures towers == Without(old(towers), rank[0])
      ensures Shape(towers, level) && Linked(towers, level) && Backward(towers, tail)
    {
      ghost var list := towers;
      assert LevelOk(list, 0);
      BottomLink(list, rank[0] + 1);
      Unsplice(list, x, update, rank);
      UnlinkBack(x, rank[0]);
    }

    method DeleteNodeInternal(x: Node, update: seq<Node>, ghost rank: seq<nat>)
      requires Shape(towers, level) && Linked(towers, level) && Backward(towers, tail)
      requires head == towers[0] && length == |towers| - 1
      requires |update| == |rank| == MAXLEVEL && rank[0] + 1 < |towers| && towers[rank[0] + 1] == x
      requires Crossing(towers, level, update, rank, rank[0])
      modifies this, Nodes()
      ensures towers == Without(old(towers), rank[0])
      ensures Shape(towers, level) && Linked(towers, level) && Backward(towers, tail)
      ensures head == towers[0] && length == |towers| - 1
      ensures Trimmed(towers, level)
    {
      Detach(x, update, rank);
      assert towers[0] == head && |towers| == length;
      Shrink();
    }

    method DeleteNode(score: real, member: string) returns (r: nat)
      requires Valid()
      modifies this, Nodes()
      ensures Valid() && Nodes() <= old(Nodes())
      ensures r == if Entry(score, member) in old(Keys()) then 1 else 0
      ensures Keys() == Removed(old(Keys()), Entry(score, member))
    {
      ghost var list, e := towers, Entry(score, member);
      ghost var rank;
      var update;
      update, rank := Descend(Entry(score, member));
      PathCrosses(list, level, update, rank, e);
      SortedFinds(KeysOf(list), e);
      var x := update[0].level[0].forward;
      BottomLink(list, rank[0]);
      if x != null && score == x.score && x.member == member {
        DeleteNodeInternal(x, update, rank);
        KeysWithout(list, rank[0]);
        WithoutNodes(list, rank[0]);
        assert Sorted(KeysOf(towers)) by { RemovedKeepsOrder(KeysOf(list), e); }
        return 1;
      }
      return 0;
    }
  
    // The entry e is at position i and no other entry has its member.
    ghost predicate OnlyAt(e: Entry, i: nat)
      reads this
      requires towers != []
    {
      && i < |Keys()| && Keys()[i] == e
      && forall j :: 0 <= j < |Keys()| && Keys()[j].member == e.member ==> j == i
    }

    // The first node on the top level is not after e.
    ghost predicate TopReaches(e: Entry)
      reads this, towers
      requires Valid()
    {
      head.level[level - 1].forward != null && !Less(e, head.level[level - 1].forward.Key())
    }

    // The search stops at a node with the member it looks for. The head itself has the member
    // "", so for that member the search is cut short unless the top level leads past the head.
    method GetRank(score: real, member: string) returns (rank: nat)
      requires Valid()
      ensures rank <= length && (rank > 0 ==> Keys()[rank - 1].member == member)
      ensures forall i: nat :: OnlyAt(Entry(score, member), i) ==>
        rank == if member != "" || TopReaches(Entry(score, member)) then i + 1 else 0
    {
      hide Sorted;
      hide Backward;
      hide Trimmed;
      hide StringLess;
      var e := Entry(score, member);
      rank := 0;
      var x := head;
      var i := level;
      while i > 0
        invariant 0 <= i <= level && rank < |towers| && towers[rank] == x
        invariant |x.level| == x.height && (i > 0 ==> i - 1 < x.height)
        invariant rank > 0 ==> !Less(e, x.Key())
        invariant i < level && member == "" ==> rank > 0 && TopReaches(e)
        invariant i == 0 ==> x.member != member
        invariant i == 0 ==> rank == |towers| - 1 || Less(e, towers[rank + 1].Key())
        invariant i == level ==> x == head
      {
        i := i - 1;
        while x.level[i].forward != null && !Less(e, x.level[i].forward.Key())
          invariant rank < |towers| && towers[rank] == x && i < x.height == |x.level|
          invariant rank > 0 ==> !Less(e, x.Key())
          invariant i == level - 1 && rank > 0 ==> TopReaches(e)
          invariant i < level - 1 && member == "" ==> rank > 0 && TopReaches(e)
          invariant i == level - 1 && rank == 0 ==> x == head
          decreases |towers| - rank
        {
          assert LevelOk(towers, i) && LinkAt(towers, rank, i);
          rank := rank + x.level[i].span;
          x := x.level[i].forward;
        }
        if i == 0 {
          assert LevelOk(towers, 0);
          BottomLink(towers, rank);
        }
        if x.member == member {
          FoundRank(e, rank);
          return;
        }
      }
      MissedRank(e, rank);
      return 0;
    }

    // If one tower alone is on the top level, at position p, the top level leads there.
    lemma TopIsTall(p: nat)
      requires Valid() && 1 <= p < |towers| && towers[p].height == level
      requires forall q :: 1 <= q < |towers| && q != p ==> towers[q].height < level
      ensures head.level[level - 1].forward == towers[p]
    {
      assert LevelOk(towers, level - 1) && LinkAt(towers, 0, level - 1);
    }

    lemma FoundRank(e: Entry, rank: nat)
      requires Valid() && rank < |towers| && towers[rank].member == e.member
      ensures rank > 0 ==> forall i: nat :: OnlyAt(e, i) ==> rank == i + 1
    {
      if rank > 0 {
        assert Keys()[rank - 1].member == e.member;
      }
    }

    lemma MissedRank(e: Entry, rank: nat)
      requires Valid() && rank < |towers| && towers[rank].member != e.member
      requires rank > 0 ==> !Less(e, towers[rank].Key())
      requires rank == |towers| - 1 || Less(e, towers[rank + 1].Key())
      ensures forall i: nat :: !OnlyAt(e, i)
    {
      var keys := KeysOf(towers);
      if rank > 0 {
        assert keys[rank - 1] == towers[rank].Key();
        LessIsOrder(e, keys[rank - 1], e);
        SortedSides(keys, e, rank - 1);
      }
      if rank < |keys| {
        assert keys[rank] == towers[rank + 1].Key();
        SortedSides(keys, e, rank);
      }
      LessIsOrder(e, e, e);
    }

    method GetElementByRank(rank: nat) returns (x: Node?)
      requires Valid()
      ensures x == if rank < |towers| then towers[rank] else null
    {
      var traversed: nat := 0;
      var n := head;
      var i := level;
      while i > 0
        invariant 0 <= i <= level && traversed <= rank && traversed < |towers| && towers[traversed] == n
        invariant |n.level| == n.height && (i > 0 ==> i - 1 < n.height)
        invariant i == 0 ==> traversed == |towers| - 1 < rank
      {
        i := i - 1;
        while n.level[i].forward != null && traversed + n.level[i].span <= rank
          invariant traversed <= rank && traversed < |towers| && towers[traversed] == n
          invariant i < n.height == |n.level|
          decreases |towers| - traversed
        {
          assert LevelOk(towers, i) && LinkAt(towers, traversed, i);
          traversed := traversed + n.level[i].span;
          n := n.level[i].forward;
        }
        if traversed == rank {
          return n;
        }
        if i == 0 {
          assert LevelOk(towers, 0) && LinkAt(towers, traversed, 0);
          BottomLink(towers, traversed);
        }
      }
      return null;
    }

    // The first entry with a score of at least min, if its score is at most max.
    method GetFirstInRange(min: real, max: real) returns (x: Node?)
      requires Valid()
      ensures x == null ==> forall i :: 1 <= i <= length ==> !(min <= towers[i].score <= max)
      ensures x != null ==> min <= x.score <= max
      ensures x != null ==> exists i {:trigger towers[i]} ::
        1 <= i <= length && towers[i] == x && forall j :: 1 <= j < i ==> towers[j].score < min
    {
      var n := head;
      var i := level;
      ghost var p: nat := 0;
      while i > 0
        invariant 0 <= i <= level && p < |towers| && towers[p] == n
        invariant |n.level| == n.height && (i > 0 ==> i - 1 < n.height)
        invariant p > 0 ==> n.score < min
        invariant i == 0 ==> p == |towers| - 1 || towers[p + 1].score >= min
      {
        i := i - 1;
        while n.level[i].forward != null && n.level[i].forward.score < min
          invariant p < |towers| && towers[p] == n && i < n.height == |n.level|
          invariant p > 0 ==> n.score < min
          decreases |towers| - p
        {
          assert LevelOk(towers, i) && LinkAt(towers, p, i);
          p := p + n.level[i].span;
          n := n.level[i].forward;
        }
        if i == 0 {
          assert LevelOk(towers, 0);
          BottomLink(towers, p);
        }
      }
      assert LevelOk(towers, 0);
      BottomLink(towers, p);
      x := n.level[0].forward;
      ScoresAround(p);
      if x == null || x.score > max {
        return null;
      }
      assert towers[p + 1] == x;
    }

    // Left of position p no score exceeds the one there, right of it none is below.
    lemma ScoresAround(p: nat)
      requires Valid() && p < |towers|
      ensures p > 0 ==> forall j :: 1 <= j <= p ==> towers[j].score <= towers[p].score
      ensures forall j :: p < j <= length ==> towers[j].score >= towers[p + 1].score
    {
      var keys := KeysOf(towers);
      forall j | 1 <= j <= p ensures towers[j].score <= towers[p].score {
        assert keys[p - 1] == towers[p].Key() && keys[j - 1] == towers[j].Key();
      }
      forall j | p < j <= length ensures towers[j].score >= towers[p + 1].score {
        assert keys[p] == towers[p + 1].Key() && keys[j - 1] == towers[j].Key();
      }
    }

    // The last entry with a score of at most max, if its score is at least min.
    method GetLastInRange(min: real, max: real) returns (x: Node?)
      requires Valid()
      ensures x == null ==> forall i :: 1 <= i <= length ==> !(min <= towers[i].score <= max)
      ensures x != null ==> min <= x.score <= max
      ensures x != null ==> exists i {:trigger towers[i]} ::
        1 <= i <= length && towers[i] == x && forall j :: i < j <= length ==> towers[j].score > max
    {
      var n := head;
      var i := level;
      ghost var p: nat := 0;
      while i > 0
        invariant 0 <= i <= level && p < |towers| && towers[p] == n
        invariant |n.level| == n.height && (i > 0 ==> i - 1 < n.height)
        invariant p > 0 ==> n.score <= max
        invariant i == 0 ==> p == |towers| - 1 || towers[p + 1].score > max
      {
        i := i - 1;
        while n.level[i].forward != null && n.level[i].forward.score <= max
          invariant p < |towers| && towers[p] == n && i < n.height == |n.level|
          invariant p > 0 ==> n.score <= max
          decreases |towers| - p
        {
          assert LevelOk(towers, i) && LinkAt(towers, p, i);
          p := p + n.level[i].span;
          n := n.level[i].forward;
        }
        if i == 0 {
          assert LevelOk(towers, 0);
          BottomLink(towers, p);
        }
      }
      ScoresAround(p);
      assert n == head <==> p == 0;
      if n == head || n.score < min {
        return null;
      }
      x := n;
    }
  
    lemma Neighbour(p: nat)
      requires Valid() && p < |towers|
      ensures |towers[p].level| > 0
      ensures towers[p].level[0].forward == if p < length then towers[p + 1] else null
      ensures p < length ==> Keys()[p] == towers[p + 1].Key()
    {
      assert LevelOk(towers, 0);
      BottomLink(towers, p);
    }

    // One step of a copy: the first p of the given keys are in, and the next one follows.
    method InsertNext(score: real, member: string, ghost keys: seq<Entry>, ghost p: nat)
      requires Valid() && p < |keys| && keys[p] == Entry(score, member)
      requires Keys() == InsertAll(keys[..p])
      modifies this, Nodes()
      ensures Valid() && forall n :: n in Nodes() ==> n in old(Nodes()) || fresh(n)
      ensures towers != [] && Keys() == InsertAll(keys[..p + 1])
    {
      assert keys[..p] == keys[..p + 1][..p];
      var x := Insert(score, member);
    }

    // The nodes of list follow each other on level 0 and carry these keys behind the first.
    ghost predicate Spine(list: seq<Node>, keys: seq<Entry>)
      reads list
    {
      |list| == |keys| + 1 && forall p :: 0 <= p < |list| ==> SpineAt(list, keys, p)
    }

    ghost predicate SpineAt(list: seq<Node>, keys: seq<Entry>, p: nat)
      requires |list| == |keys| + 1 && p < |list|
      reads list
    {
      && |list[p].level| > 0
      && list[p].level[0].forward == (if p + 1 < |list| then list[p + 1] else null)
      && (p + 1 < |list| ==> keys[p] == list[p + 1].Key())
    }

    lemma TowersAreSpine()
      requires Valid()
      ensures |towers| > 0 && towers[0] == head && Spine(towers, Keys()) && Sorted(Keys())
    {
      forall p | 0 <= p < |towers| ensures SpineAt(towers, Keys(), p) {
        Neighbour(p);
      }
    }

    lemma SpineHas(list: seq<Node>, keys: seq<Entry>, p: nat)
      requires Spine(list, keys) && p < |list|
      ensures |list| == |keys| + 1 && |list[p].level| > 0
      ensures list[p].level[0].forward == (if p + 1 < |list| then list[p + 1] else null)
      ensures p + 1 < |list| ==> keys[p] == list[p + 1].Key()
    {
      assert SpineAt(list, keys, p);
    }

    // Inserts the keys of the list's nodes one after the other.
    method Fill(copy: SkipList, ghost keys: seq<Entry>)
      requires copy != this && copy.Valid() && copy.Keys() == []
      requires |towers| > 0 && towers[0] == head && Spine(towers, keys)
      requires forall n :: n in copy.Nodes() ==> n !in towers
      modifies copy, copy.Nodes()
      ensures copy.Valid() && copy.towers != [] && copy.Keys() == InsertAll(keys)
      ensures forall n :: n in copy.Nodes() ==> n in old(copy.Nodes()) || fresh(n)
    {
      assert copy.towers != [] && InsertAll(keys[..0]) == [];
      hide Valid;
      hide Keys;
      hide InsertAll;
      hide Spine;
      ghost var list := towers;
      SpineHas(list, keys, 0);
      var curr := head.level[0].forward;
      ghost var p: nat := 0;
      while curr != null
        invariant Spine(list, keys) && unchanged(this) && unchanged(list)
        invariant copy.Valid() && forall n :: n in copy.Nodes() ==> n in old(copy.Nodes()) || fresh(n)
        invariant p < |list| == |keys| + 1 && curr == if p + 1 < |list| then list[p + 1] else null
        invariant copy.towers != [] && copy.Keys() == InsertAll(keys[..p])
        decreases |list| - p
      {
        SpineHas(list, keys, p);
        copy.InsertNext(curr.score, curr.member, keys, p);
        p := p + 1;
        SpineHas(list, keys, p);
        curr := curr.level[0].forward;
      }
      assert keys[..p] == keys;
    }

    // The copy draws its own tower heights; its entries are the same.
    method Clone() returns (copy: SkipList)
      requires Valid()
      ensures copy.Valid() && fresh(copy) && fresh(copy.Nodes()) && copy.towers != []
      ensures copy.Keys() == Keys()
    {
      hide Valid;
      hide Spine;
      TowersAreSpine();
      ghost var keys := Keys();
      copy := new SkipList();
      Fill(copy, keys);
      InsertAllSorts(keys);
    }
  }

  lemma OneTwoThree(a: Entry, b: Entry, c: Entry)
    requires Less(a, b) && Less(b, c) && Less(a, c)
    ensures Inserted([], a) == [a] && Inserted([a], b) == [a, b] && Inserted([a, b], c) == [a, b, c]
    ensures LowerBound([], a) == 0 && LowerBound([a], b) == 1 && LowerBound([a, b], c) == 2
  {
    assert LowerBound([a, b][1..], c) == 1;
  }

  // Three entries, where the last one alone is on the second level.
  method TallLast() returns (list: SkipList)
    ensures fresh(list) && fresh(list.Nodes()) && list.Valid() && list.towers != []
    ensures list.Keys() == [Entry(1.0, "a"), Entry(5.0, ""), Entry(7.0, "b")]
    ensures !list.TopReaches(Entry(5.0, ""))
  {
    hide SkipList.Valid;
    hide Inserted;
    hide LowerBound;
    hide KeysOf;
    list := new SkipList();
    ghost var top, a, e, b := list.head, Entry(1.0, "a"), Entry(5.0, ""), Entry(7.0, "b");
    OneTwoThree(a, e, b);
    var first := list.InsertTall(1, 1.0, "a");
    assert list.towers == [top, first];
    var second := list.InsertTall(1, 5.0, "");
    assert list.towers == [top, first, second];
    var third := list.InsertTall(2, 7.0, "b");
    assert list.towers == [top, first, second, third];
    list.TopIsTall(3);
  }

  // A list in which the search for an entry with the member "" ends at the head: the taller
  // tower behind it hides it.
  method HiddenEntry() returns (list: SkipList, rank: nat)
    ensures fresh(list) && fresh(list.Nodes()) && list.Valid()
    ensures list.Keys() == [Entry(1.0, "a"), Entry(5.0, ""), Entry(7.0, "b")]
    ensures rank == 0 && !list.TopReaches(Entry(5.0, ""))
  {
    hide SkipList.Valid;
    hide SkipList.TopReaches;
    list := TallLast();
    rank := list.GetRank(5.0, "");
    assert list.OnlyAt(Entry(5.0, ""), 1);
  }
}

// The order in which a sorted set keeps its entries: by score, then by member.

module Ordering {
  datatype Entry = Entry(score: real, member: string)

  // The negative outcome of std::string::compare.
  predicate StringLess(a: string, b: string) {
    if b == [] then false
    else if a == [] then true
    else a[0] < b[0] || (a[0] == b[0] && StringLess(a[1..], b[1..]))
  }

  predicate Less(a: Entry, b: Entry) {
    a.score < b.score || (a.score == b.score && StringLess(a.member, b.member))
  }

  predicate Sorted(s: seq<Entry>) {
    forall i, j :: 0 <= i < j < |s| ==> !Less(s[j], s[i])
  }

  predicate StrictlySorted(s: seq<Entry>) {
    forall i, j :: 0 <= i < j < |s| ==> Less(s[i], s[j])
  }

  lemma {:induction false} StringLessIsOrder(a: string, b: string, c: string)
    ensures !StringLess(a, a)
    ensures StringLess(a, b) ==> !StringLess(b, a)
    ensures StringLess(a, b) && StringLess(b, c) ==> StringLess(a, c)
    ensures StringLess(a, b) || StringLess(b, a) || a == b
  {
    if a != [] {
      var b' := if b == [] then [] else b[1..];
      var c' := if c == [] then [] else c[1..];
      StringLessIsOrder(a[1..], b', c');
      if b != [] && a[0] == b[0] && a[1..] == b[1..] {
        assert a == [a[0]] + a[1..] && b == [b[0]] + b[1..];
      }
    }
  }

  // The first difference between two byte strings, at position i, is in favour of a.
  ghost predicate SmallerAt(a: string, b: string, i: nat) {
    i < |a| && i < |b| && a[..i] == b[..i] && a[i] < b[i]
  }

  ghost predicate ProperPrefix(a: string, b: string) {
    |a| < |b| && a == b[..|a|]
  }

  // The order of a dictionary over bytes.
  ghost predicate Precedes(a: string, b: string) {
    ProperPrefix(a, b) || exists i :: SmallerAt(a, b, i)
  }

  lemma {:induction false} StringLessIsByBytes(a: string, b: string)
    ensures StringLess(a, b) <==> Precedes(a, b)
    decreases |a|
  {
    if a != [] && b != [] {
      assert SmallerAt(a, b, 0) <==> a[0] < b[0];
      StringLessIsByBytes(a[1..], b[1..]);
      if a[0] == b[0] {
        SameHead(a, b);
      }
    }
  }

  lemma SameHead(a: string, b: string)
    requires a != [] && b != [] && a[0] == b[0]
    ensures Precedes(a, b) <==> Precedes(a[1..], b[1..])
  {
    assert a == [a[0]] + a[1..] && b == [b[0]] + b[1..];
    assert ProperPrefix(a, b) <==> ProperPrefix(a[1..], b[1..]) by {
      if |a| < |b| {
        assert b[..|a|] == [b[0]] + b[1..][..|a| - 1];
        assert b[..|a|][1..] == b[1..][..|a| - 1];
      }
    }
    if i: nat :| SmallerAt(a, b, i) {
      SameHeadAt(a, b, i - 1);
    }
    if i: nat :| SmallerAt(a[1..], b[1..], i) {
      SameHeadAt(a, b, i);
    }
  }

  lemma SameHeadAt(a: string, b: string, i: nat)
    requires a != [] && b != [] && a[0] == b[0]
    ensures SmallerAt(a, b, i + 1) <==> SmallerAt(a[1..], b[1..], i)
  {
    if i < |a| - 1 && i < |b| - 1 {
      assert a[..i + 1] == [a[0]] + a[1..][..i] && b[..i + 1] == [b[0]] + b[1..][..i];
      assert a[..i + 1][1..] == a[1..][..i] && b[..i + 1][1..] == b[1..][..i];
    }
  }

  // Less is a strict total order.
  lemma LessIsOrder(a: Entry, b: Entry, c: Entry)
    ensures !Less(a, a)
    ensures Less(a, b) ==> !Less(b, a)
    ensures Less(a, b) && Less(b, c) ==> Less(a, c)
    ensures Less(a, b) && !Less(c, b) ==> Less(a, c)
    ensures !Less(b, a) && Less(b, c) ==> Less(a, c)
    ensures Less(a, b) || Less(b, a) || a == b
  {
    StringLessIsOrder(a.member, b.member, c.member);
    StringLessIsOrder(a.member, c.member, b.member);
    StringLessIsOrder(b.member, a.member, c.member);
    StringLessIsOrder(b.member, c.member, a.member);
  }

  // How many entries at the front of s are less than e.
  ghost function LowerBound(s: seq<Entry>, e: Entry): (k: nat)
    ensures k <= |s|
  {
    if s == [] || !Less(s[0], e) then 0 else 1 + LowerBound(s[1..], e)
  }

  lemma {:induction false} LowerBoundBounds(s: seq<Entry>, e: Entry)
    ensures forall i :: 0 <= i < LowerBound(s, e) ==> Less(s[i], e)
    ensures LowerBound(s, e) < |s| ==> !Less(s[LowerBound(s, e)], e)
  {
    if s != [] && Less(s[0], e) {
      LowerBoundBounds(s[1..], e);
      assert forall i :: 0 < i < |s| ==> s[i] == s[1..][i - 1];
    }
  }

  // In a sorted sequence, one comparison decides a whole side.
  lemma SortedSides(s: seq<Entry>, e: Entry, k: nat)
    requires Sorted(s) && k < |s|
    ensures Less(s[k], e) ==> forall i :: 0 <= i <= k ==> Less(s[i], e)
    ensures !Less(s[k], e) ==> forall i :: k <= i < |s| ==> !Less(s[i], e)
    ensures Less(e, s[k]) ==> forall i :: k <= i < |s| ==> Less(e, s[i])
    ensures !Less(e, s[k]) ==> forall i :: 0 <= i <= k ==> !Less(e, s[i])
  {
    forall i | 0 <= i <= k
      ensures Less(s[k], e) ==> Less(s[i], e)
      ensures !Less(e, s[k]) ==> !Less(e, s[i])
    {
      LessIsOrder(s[i], s[k], e);
      LessIsOrder(e, s[i], s[k]);
    }
    forall i | k <= i < |s|
      ensures !Less(s[k], e) ==> !Less(s[i], e)
      ensures Less(e, s[k]) ==> Less(e, s[i])
    {
      LessIsOrder(s[k], s[i], e);
      LessIsOrder(e, s[k], s[i]);
    }
  }

  lemma LowerBoundUnique(s: seq<Entry>, e: Entry, k: nat)
    requires Sorted(s) && k <= |s|
    requires k > 0 ==> Less(s[k - 1], e)
    requires k < |s| ==> !Less(s[k], e)
    ensures LowerBound(s, e) == k
  {
    var m := LowerBound(s, e);
    LowerBoundBounds(s, e);
    if k > 0 { SortedSides(s, e, k - 1); }
    if k < |s| { SortedSides(s, e, k); }
  }

  // Where an entry goes, and what the sequence is once it is there.
  ghost function Inserted(s: seq<Entry>, e: Entry): (r: seq<Entry>) {
    var k := LowerBound(s, e);
    s[..k] + [e] + s[k..]
  }

  // The sequence without the first occurrence of e, if there is one.
  ghost function Removed(s: seq<Entry>, e: Entry): (r: seq<Entry>) {
    var k := LowerBound(s, e);
    if k < |s| && s[k] == e then s[..k] + s[k + 1..] else s
  }

  lemma InsertedKeepsOrder(s: seq<Entry>, e: Entry)
    requires Sorted(s)
    ensures Sorted(Inserted(s, e))
    ensures multiset(Inserted(s, e)) == multiset(s) + multiset{e}
  {
    var k := LowerBound(s, e);
    assert s == s[..k] + s[k..];
    forall i | 0 <= i < |s| ensures if i < k then !Less(e, s[i]) else !Less(s[i], e) {
      LowerBoundBounds(s, e);
      LessIsOrder(s[i], e, e);
      if k <= i { SortedSides(s, e, k); }
    }
    SortedWith(s, k, e);
  }

  lemma SortedWith(s: seq<Entry>, k: nat, e: Entry)
    requires Sorted(s) && k <= |s|
    requires forall i :: 0 <= i < |s| ==> if i < k then !Less(e, s[i]) else !Less(s[i], e)
    ensures Sorted(s[..k] + [e] + s[k..])
  {
    var r := s[..k] + [e] + s[k..];
    forall i, j | 0 <= i < j < |r| ensures !Less(r[j], r[i]) {
      var a := if i < k then i else i - 1;
      var b := if j < k then j else j - 1;
      if j == k {
        assert r[i] == s[i];
      } else {
        assert r[j] == s[b] && (i != k ==> r[i] == s[a]);
      }
    }
  }

  // In a sorted sequence an entry occurs if and only if it occurs at its lower bound.
  lemma SortedFinds(s: seq<Entry>, e: Entry)
    requires Sorted(s)
    ensures e in s <==> LowerBound(s, e) < |s| && s[LowerBound(s, e)] == e
  {
    var k := LowerBound(s, e);
    LowerBoundBounds(s, e);
    if e in s {
      var i :| 0 <= i < |s| && s[i] == e;
      LessIsOrder(e, e, e);
      assert k <= i;
      LessIsOrder(s[k], e, e);
    }
  }

  lemma RemovedKeepsOrder(s: seq<Entry>, e: Entry)
    requires Sorted(s)
    ensures Sorted(Removed(s, e))
    ensures multiset(Removed(s, e)) == multiset(s) - multiset{e}
  {
    hide Less;
    hide Sorted;
    SortedFinds(s, e);
    var k := LowerBound(s, e);
    if k < |s| && s[k] == e {
      assert s == s[..k] + [e] + s[k + 1..];
      assert multiset(s) == multiset(s[..k]) + multiset{e} + multiset(s[k + 1..]);
      RemovalKeepsOrder(s, k);
    }
  }

  lemma RemovalKeepsOrder(s: seq<Entry>, k: nat)
    requires Sorted(s) && k < |s|
    ensures Sorted(s[..k] + s[k + 1..])
  {
    var r := s[..k] + s[k + 1..];
    forall i, j | 0 <= i < j < |r| ensures !Less(r[j], r[i]) {
      assert r[i] == s[if i < k then i else i + 1];
      assert r[j] == s[if j < k then j else j + 1];
    }
  }

  // The first entry of a sorted sequence is least.
  lemma SortedHead(s: seq<Entry>, e: Entry)
    requires Sorted(s) && e in s
    ensures !Less(e, s[0])
  {
    var i :| 0 <= i < |s| && s[i] == e;
    LessIsOrder(e, e, e);
  }

  lemma HeadSplit(s: seq<Entry>)
    requires s != []
    ensures multiset(s) == multiset{s[0]} + multiset(s[1..])
    ensures s[0] in multiset(s)
  {
    assert s == [s[0]] + s[1..];
  }

  // A sorted sequence is determined by its entries: insertion order leaves no trace.
  lemma {:induction false} SortedIsUnique(s: seq<Entry>, t: seq<Entry>)
    requires Sorted(s) && Sorted(t) && multiset(s) == multiset(t)
    ensures s == t
  {
    hide Less;
    hide Sorted;
    assert |multiset(s)| == |s| && |multiset(t)| == |t|;
    if s != [] {
      HeadSplit(s);
      HeadSplit(t);
      var a, b := s[0], t[0];
      SortedHead(s, b);
      SortedHead(t, a);
      LessIsOrder(a, b, a);
      assert multiset(s[1..]) == multiset(s) - multiset{a};
      assert multiset(t[1..]) == multiset(t) - multiset{a};
      TailSorted(s);
      TailSorted(t);
      SortedIsUnique(s[1..], t[1..]);
      assert s == [a] + s[1..] && t == [a] + t[1..];
    }
  }

  lemma TailSorted(s: seq<Entry>)
    requires Sorted(s) && s != []
    ensures Sorted(s[1..])
  {
    forall i, j | 0 <= i < j < |s[1..]| ensures !Less(s[1..][j], s[1..][i]) {
      assert s[1..][i] == s[i + 1] && s[1..][j] == s[j + 1];
    }
  }

  // The sequence that inserting the entries of s one after the other builds.
  ghost function InsertAll(s: seq<Entry>): (r: seq<Entry>) {
    if s == [] then [] else Inserted(InsertAll(s[..|s| - 1]), s[|s| - 1])
  }

  lemma {:induction false} InsertAllSorts(s: seq<Entry>)
    ensures Sorted(InsertAll(s)) && multiset(InsertAll(s)) == multiset(s)
    ensures Sorted(s) ==> InsertAll(s) == s
  {
    if s != [] {
      var e := s[|s| - 1];
      InsertAllSorts(s[..|s| - 1]);
      InsertedKeepsOrder(InsertAll(s[..|s| - 1]), e);
      assert s == s[..|s| - 1] + [e];
    }
    if Sorted(s) {
      SortedIsUnique(InsertAll(s), s);
    }
  }
}

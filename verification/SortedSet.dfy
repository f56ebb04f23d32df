// The sorted set: a dictionary of scores and a skip list that must say the same.

module SortedSets {
  import opened Wrappers
  import opened Ordering
  import opened HashTables
  import opened SkipLists
  import Maps

  // The entries of s are exactly the pairs of m, each once.
  ghost predicate Agree(m: map<string, real>, s: seq<Entry>) {
    && (forall i :: 0 <= i < |s| ==> s[i].member in m && m[s[i].member] == s[i].score)
    && (forall k :: k in m ==> Entry(m[k], k) in s)
    && (forall i, j :: 0 <= i < j < |s| ==> s[i].member != s[j].member)
  }

  // The slice that rangeByRank takes: negative positions count from the end, positions
  // outside the sequence are cut off.
  function Lo(len: nat, start: int): (lo: nat) {
    if start >= 0 then start else if len + start < 0 then 0 else len + start
  }

  function Hi(len: nat, stop: int): (hi: int)
    ensures hi < len
  {
    var to := if stop < 0 then len + stop else stop;
    if to >= len then len - 1 else to
  }

  function Slice<T>(s: seq<T>, start: int, stop: int): (r: seq<T>) {
    var lo, hi := Lo(|s|, start), Hi(|s|, stop);
    if lo <= hi then s[lo..hi + 1] else []
  }

  // Position i lies between the two ends, which count from the end of the ranking when negative.
  predicate Selected<T>(s: seq<T>, start: int, stop: int, i: int) {
    && 0 <= i < |s|
    && (if start < 0 then |s| + start else start) <= i <= if stop < 0 then |s| + stop else stop
  }

  // The slice is the selected part of the ranking.
  lemma SliceIsSelection<T>(s: seq<T>, start: int, stop: int)
    ensures var first := if start >= 0 then start else if |s| + start < 0 then 0 else |s| + start;
      && (forall i :: Selected(s, start, stop, i) <==> first <= i < first + |Slice(s, start, stop)|)
      && (forall k :: 0 <= k < |Slice(s, start, stop)| ==> Slice(s, start, stop)[k] == s[first + k])
  {
  }

  lemma Locate(m: map<string, real>, s: seq<Entry>, k: string) returns (i: nat)
    requires Agree(m, s) && k in m
    ensures i < |s| && s[i] == Entry(m[k], k)
    ensures forall j :: 0 <= j < |s| && s[j].member == k ==> j == i
  {
    assert Entry(m[k], k) in s;
    i :| 0 <= i < |s| && s[i] == Entry(m[k], k);
  }

  lemma AgreeAfterInsert(m: map<string, real>, s: seq<Entry>, k: nat, e: Entry)
    requires Agree(m, s) && k <= |s| && e.member !in m
    ensures Agree(m[e.member := e.score], s[..k] + [e] + s[k..])
  {
    var r := s[..k] + [e] + s[k..];
    var m' := m[e.member := e.score];
    forall x | x in m' ensures Entry(m'[x], x) in r {
      if x == e.member {
        assert r[k] == e;
      } else {
        var i :| 0 <= i < |s| && s[i] == Entry(m[x], x);
        assert r[if i < k then i else i + 1] == s[i];
      }
    }
  }

  lemma AgreeAfterRemove(m: map<string, real>, s: seq<Entry>, k: nat)
    requires Agree(m, s) && k < |s|
    ensures Agree(m - {s[k].member}, s[..k] + s[k + 1..])
  {
    hide Agree;
    RestIsListed(m, s, k);
    var r := s[..k] + s[k + 1..];
    assert Agree(m - {s[k].member}, r) by {
      RestIsDistinct(m, s, k);
    }
  }

  // Every other pair is still there.
  lemma RestIsListed(m: map<string, real>, s: seq<Entry>, k: nat)
    requires Agree(m, s) && k < |s|
    ensures forall x :: x in m - {s[k].member} ==> Entry(m[x], x) in s[..k] + s[k + 1..]
  {
    var r := s[..k] + s[k + 1..];
    forall x | x in m - {s[k].member} ensures Entry(m[x], x) in r {
      var i :| 0 <= i < |s| && s[i] == Entry(m[x], x);
      assert i != k && r[if i < k then i else i - 1] == s[i];
    }
  }

  lemma RestIsDistinct(m: map<string, real>, s: seq<Entry>, k: nat)
    requires Agree(m, s) && k < |s|
    requires forall x :: x in m - {s[k].member} ==> Entry(m[x], x) in s[..k] + s[k + 1..]
    ensures Agree(m - {s[k].member}, s[..k] + s[k + 1..])
  {
    var r, m' := s[..k] + s[k + 1..], m - {s[k].member};
    forall i | 0 <= i < |r| ensures r[i].member in m' && m'[r[i].member] == r[i].score {
      RestAt(s, k, i);
    }
    forall i, j | 0 <= i < j < |r| ensures r[i].member != r[j].member {
      RestAt(s, k, i);
      RestAt(s, k, j);
    }
  }

  lemma RestAt(s: seq<Entry>, k: nat, i: nat)
    requires k < |s| && i < |s| - 1
    ensures (s[..k] + s[k + 1..])[i] == s[if i < k then i else i + 1]
  {
  }

  function Members(s: seq<Entry>): (members: seq<string>)
    ensures |members| == |s|
  {
    seq(|s|, i requires 0 <= i < |s| => s[i].member)
  }

  lemma AgreeLength(m: map<string, real>, s: seq<Entry>)
    requires Agree(m, s)
    ensures |s| == |m|
  {
    MembersAreKeys(m, s);
    Maps.ListLength(Members(s), m.Keys);
    assert |m.Keys| == |m|;
  }

  lemma MembersAreKeys(m: map<string, real>, s: seq<Entry>)
    requires Agree(m, s)
    ensures Maps.Lists(Members(s), m.Keys)
  {
    forall x ensures x in Members(s) <==> x in m.Keys {
      if x in m {
        var i :| 0 <= i < |s| && s[i] == Entry(m[x], x);
        assert Members(s)[i] == x;
      }
    }
  }

  lemma {:induction false} OccursOnce(s: seq<Entry>, e: Entry)
    requires forall i, j :: 0 <= i < j < |s| ==> s[i].member != s[j].member
    ensures multiset(s)[e] == if e in s then 1 else 0
  {
    if s != [] {
      OccursOnce(s[1..], e);
      HeadSplit(s);
      assert s == [s[0]] + s[1..];
    }
  }

  // Only one sorted sequence agrees with a map, so the dictionary determines every rank.
  lemma AgreeIsUnique(m: map<string, real>, s: seq<Entry>, t: seq<Entry>)
    requires Agree(m, s) && Agree(m, t) && Sorted(s) && Sorted(t)
    ensures s == t
  {
    assert multiset(s) == multiset(t) by {
      forall e ensures multiset(s)[e] == multiset(t)[e] {
        OccursOnce(s, e);
        OccursOnce(t, e);
        assert e in s <==> e.member in m && m[e.member] == e.score;
        assert e in t <==> e.member in m && m[e.member] == e.score;
      }
    }
    SortedIsUnique(s, t);
  }

  // Scores ascend along the ranking, and among equal scores the members, byte by byte. No two
  // entries are level, because members are unique.
  lemma RankingIsStrict(m: map<string, real>, s: seq<Entry>)
    requires Agree(m, s) && Sorted(s)
    ensures StrictlySorted(s)
    ensures forall i, j :: 0 <= i < j < |s| ==>
      s[i].score < s[j].score || (s[i].score == s[j].score && Precedes(s[i].member, s[j].member))
  {
    forall i, j | 0 <= i < j < |s|
      ensures Less(s[i], s[j])
      ensures s[i].score < s[j].score || (s[i].score == s[j].score && Precedes(s[i].member, s[j].member))
    {
      LessIsOrder(s[i], s[j], s[i]);
      StringLessIsByBytes(s[i].member, s[j].member);
    }
  }

  class SortedSet {
    const dict: HashTable<string, real>
    const zsl: SkipList

    ghost predicate Valid()
      reads this, dict, zsl, zsl.towers
    {
      dict.Copied() && zsl.Valid() && Agree(dict.Map(), zsl.Keys())
    }

    // The scores, as the dictionary has them.
    ghost function Scores(): (m: map<string, real>)
      reads this, dict
      requires dict.Sound()
    {
      dict.Map()
    }

    // The entries in the order of the skip list.
    ghost function Ranked(): (s: seq<Entry>)
      reads this, zsl
      requires zsl.towers != []
    {
      zsl.Keys()
    }

    constructor (hasher: string -> nat)
      ensures Valid() && dict.Valid() && Scores() == map[] && Ranked() == []
      ensures fresh(dict) && fresh(zsl) && fresh(zsl.Nodes())
    {
      dict := new HashTable<string, real>(hasher);
      zsl := new SkipList();
    }

    constructor Of(dict: HashTable<string, real>, zsl: SkipList)
      ensures this.dict == dict && this.zsl == zsl
    {
      this.dict := dict;
      this.zsl := zsl;
    }

    // The cloned dictionary does not count the tombstones it inherits. The copy works all the
    // same, if the set is not itself a copy.
    method Clone() returns (copy: SortedSet)
      requires Valid()
      ensures fresh(copy) && fresh(copy.dict) && fresh(copy.zsl) && fresh(copy.zsl.Nodes())
      ensures copy.dict.Sound() && copy.Scores() == Scores()
      ensures copy.zsl.Valid() && copy.Ranked() == Ranked()
      ensures dict.Valid() ==> copy.Valid()
    {
      hide Agree;
      hide SkipList.Valid;
      hide Indexed;
      ghost var m := Scores();
      var newZsl := zsl.Clone();
      ghost var s := newZsl.Keys();
      var newDict := dict.Clone();
      copy := new SortedSet.Of(newDict, newZsl);
      assert copy.Ranked() == s && copy.Scores() == m;
    }

    // Takes the entry of a member out of the skip list; m is the map that it agrees with.
    method Unlist(score: real, member: string, ghost m: map<string, real>)
      requires zsl.Valid() && Agree(m, zsl.Keys()) && member in m && m[member] == score
      modifies zsl, zsl.Nodes()
      ensures unchanged(dict) && (old(dict.Copied()) ==> dict.Copied()) && (old(dict.Valid()) ==> dict.Valid())
      ensures zsl.Valid() && zsl.Nodes() <= old(zsl.Nodes())
      ensures Agree(m - {member}, zsl.Keys())
    {
      ghost var s, e := zsl.Keys(), Entry(score, member);
      SortedFinds(s, e);
      AgreeAfterRemove(m, s, LowerBound(s, e));
      var r := zsl.DeleteNode(score, member);
    }

    method Enlist(score: real, member: string, ghost m: map<string, real>)
      requires zsl.Valid() && Agree(m, zsl.Keys()) && member !in m
      modifies zsl, zsl.Nodes()
      ensures unchanged(dict) && (old(dict.Copied()) ==> dict.Copied()) && (old(dict.Valid()) ==> dict.Valid())
      ensures zsl.Valid() && forall n :: n in zsl.Nodes() ==> n in old(zsl.Nodes()) || fresh(n)
      ensures Agree(m[member := score], zsl.Keys())
    {
      ghost var s, e := zsl.Keys(), Entry(score, member);
      AgreeAfterInsert(m, s, LowerBound(s, e), e);
      var x := zsl.Insert(score, member);
    }

    // The dictionary's half of an update, which the skip list does not notice.
    method Record(member: string, score: real)
      requires dict.Copied() && zsl.Valid()
      modifies dict
      ensures dict.Copied() && (old(dict.Valid()) ==> dict.Valid())
      ensures dict.Map() == old(dict.Map())[member := score]
      ensures zsl.Valid() && zsl.Keys() == old(zsl.Keys()) && zsl.Nodes() == old(zsl.Nodes())
    {
      hide SkipList.Valid;
      hide HashTable.Map;
      var isNew := dict.Set(member, score);
    }

    method Erase(member: string)
      requires dict.Copied() && zsl.Valid()
      modifies dict
      ensures dict.Copied() && (old(dict.Valid()) ==> dict.Valid())
      ensures dict.Map() == old(dict.Map()) - {member}
      ensures zsl.Valid() && zsl.Keys() == old(zsl.Keys()) && zsl.Nodes() == old(zsl.Nodes())
    {
      hide SkipList.Valid;
      hide HashTable.Map;
      var found := dict.Del(member);
    }

    // The member moves from its old score to another one.
    method Move(member: string, oldScore: real, score: real)
      requires Valid() && member in Scores() && Scores()[member] == oldScore
      modifies dict, zsl, zsl.Nodes()
      ensures Valid() && forall n :: n in zsl.Nodes() ==> n in old(zsl.Nodes()) || fresh(n)
      ensures old(dict.Valid()) ==> dict.Valid()
      ensures Scores() == old(Scores())[member := score]
    {
      hide Agree;
      hide SkipList.Valid;
      hide HashTable.Sound;
      hide HashTable.Map;
      ghost var m := dict.Map();
      assert m[member := score] == (m - {member})[member := score];
      Unlist(oldScore, member, m);
      Enlist(score, member, m - {member});
      Record(member, score);
    }

    method AddNew(member: string, score: real)
      requires Valid() && member !in Scores()
      modifies dict, zsl, zsl.Nodes()
      ensures Valid() && forall n :: n in zsl.Nodes() ==> n in old(zsl.Nodes()) || fresh(n)
      ensures old(dict.Valid()) ==> dict.Valid()
      ensures Scores() == old(Scores())[member := score]
    {
      hide Agree;
      hide SkipList.Valid;
      hide HashTable.Sound;
      hide HashTable.Map;
      ghost var m := dict.Map();
      Record(member, score);
      Enlist(score, member, m);
    }

    // Adding a member that has the score already changes nothing.
    method Add(member: string, score: real) returns (added: int)
      requires Valid()
      modifies dict, zsl, zsl.Nodes()
      ensures Valid() && forall n :: n in zsl.Nodes() ==> n in old(zsl.Nodes()) || fresh(n)
      ensures old(dict.Valid()) ==> dict.Valid()
      ensures Scores() == old(Scores())[member := score]
      ensures added == if member in old(Scores()) then 0 else 1
    {
      hide Agree;
      hide SkipList.Valid;
      hide HashTable.Sound;
      hide HashTable.Map;
      var oldScore := dict.Get(member);
      if oldScore.Some? {
        if oldScore.value == score {
          assert Scores()[member := score] == Scores();
          return 0;
        }
        Move(member, oldScore.value, score);
        return 0;
      }
      AddNew(member, score);
      return 1;
    }

    method Remove(member: string) returns (removed: int)
      requires Valid()
      modifies dict, zsl, zsl.Nodes()
      ensures Valid() && zsl.Nodes() <= old(zsl.Nodes())
      ensures old(dict.Valid()) ==> dict.Valid()
      ensures Scores() == old(Scores()) - {member}
      ensures removed == if member in old(Scores()) then 1 else 0
    {
      hide Agree;
      hide SkipList.Valid;
      hide HashTable.Sound;
      hide HashTable.Map;
      var score := dict.Get(member);
      if score.None? {
        assert Scores() - {member} == Scores();
        return 0;
      }
      Unlist(score.value, member, dict.Map());
      Erase(member);
      return 1;
    }

    method GetScore(member: string) returns (score: Option<real>)
      requires Valid()
      ensures score == if member in Scores() then Some(Scores()[member]) else None
    {
      score := dict.Get(member);
    }

    // The rank counts from 0. Absent members get 0 as well, and so does a member "" that the
    // skip list's search misses: that is right only if it comes first.
    method GetRank(member: string) returns (rank: nat)
      requires Valid()
      ensures member !in Scores() ==> rank == 0
      ensures member in Scores() && member == "" && !zsl.TopReaches(Entry(Scores()[""], "")) ==> rank == 0
      ensures member in Scores() ==>
        ((rank < |Ranked()| && Ranked()[rank] == Entry(Scores()[member], member)) <==>
         member != "" || zsl.TopReaches(Entry(Scores()[member], member)) ||
         Ranked()[0] == Entry(Scores()[member], member))
    {
      hide Agree;
      hide HashTable.Sound;
      hide HashTable.Map;
      var score := dict.Get(member);
      if score.None? {
        return 0;
      }
      ghost var i := OnlyHere(member);
      var position := zsl.GetRank(score.value, member);
      assert zsl.OnlyAt(Entry(score.value, member), i);
      rank := if position > 0 then position - 1 else 0;
    }

    lemma OnlyHere(member: string) returns (i: nat)
      requires Valid() && member in Scores()
      ensures zsl.OnlyAt(Entry(Scores()[member], member), i)
      ensures i < |Ranked()| && Ranked()[i] == Entry(Scores()[member], member)
    {
      i := Locate(Scores(), Ranked(), member);
    }

    lemma SizeIsLength()
      requires Valid()
      ensures dict.size == |Ranked()| && zsl.Valid() && |zsl.towers| == |Ranked()| + 1
    {
      AgreeLength(Scores(), Ranked());
    }

    method RangeByRank(start: int, stop: int) returns (result: seq<(string, real)>)
      requires Valid()
      ensures result == Pairs(Slice(Ranked(), start, stop))
    {
      hide Agree;
      hide SkipList.Valid;
      hide HashTable.Valid;
      hide HashTable.Sound;
      hide HashTable.Map;
      SizeIsLength();
      var from, to := Clamp(dict.size, start, stop);
      if from > to {
        return [];
      }
      result := Listed(from, to);
    }

    method Listed(from: nat, to: nat) returns (result: seq<(string, real)>)
      requires zsl.Valid() && from <= to < |zsl.towers| - 1
      ensures result == Pairs(zsl.Keys()[from..to + 1])
    {
      var node := zsl.GetElementByRank(from + 1);
      result := Walk(node, to - from + 1, from + 1);
    }

    // The arithmetic at the start of rangeByRank; from > to says that the range is empty.
    static method Clamp(len: nat, start: int, stop: int) returns (from: nat, to: int)
      ensures from <= to <==> Lo(len, start) <= Hi(len, stop)
      ensures from <= to ==> from == Lo(len, start) && to == Hi(len, stop)
    {
      var first, last := start, stop;
      if first < 0 { first := len + first; }
      if last < 0 { last := len + last; }
      if first < 0 { first := 0; }
      if first > last || first >= len {
        return 0, -1;
      }
      if last >= len { last := len - 1; }
      return first, last;
    }

    // The walk along level 0 from position p of the skip list.
    method Walk(first: Node?, count: nat, ghost p: nat) returns (result: seq<(string, real)>)
      requires zsl.Valid() && 1 <= p && p + count <= |zsl.towers|
      requires count > 0 ==> first == zsl.towers[p]
      ensures result == Pairs(zsl.Keys()[p - 1..p - 1 + count])
    {
      hide Pairs;
      var node, rangeLen := first, count;
      ghost var s, q := zsl.Keys(), p;
      result := [];
      PairsOfNone(s, p - 1);
      while rangeLen > 0 && node != null
        invariant 0 <= rangeLen <= count && q == p + count - rangeLen
        invariant rangeLen > 0 ==> node == zsl.towers[q]
        invariant result == Pairs(s[p - 1..q - 1])
        decreases rangeLen
      {
        zsl.Neighbour(q);
        zsl.Neighbour(q - 1);
        PairsOneMore(s, p - 1, q - 1);
        result := result + [(node.member, node.score)];
        node := node.level[0].forward;
        rangeLen, q := rangeLen - 1, q + 1;
      }
    }
  }

  // Which calls built the two sets, in which order and with which tower heights does not matter:
  // sets with the same scores rank their members alike.
  lemma RanksFollowScores(a: SortedSet, b: SortedSet)
    requires a.Valid() && b.Valid() && a.Scores() == b.Scores()
    ensures a.Ranked() == b.Ranked()
  {
    AgreeIsUnique(a.Scores(), a.Ranked(), b.Ranked());
  }

  method ThreeScores(hasher: string -> nat) returns (dict: HashTable<string, real>)
    ensures fresh(dict) && dict.Copied() && dict.Map() == map["a" := 1.0, "" := 5.0, "b" := 7.0]
  {
    hide HashTable.Map;
    dict := new HashTable<string, real>(hasher);
    var isNew := dict.Set("a", 1.0);
    isNew := dict.Set("", 5.0);
    isNew := dict.Set("b", 7.0);
  }

  lemma ThreeAgree()
    ensures Agree(map["a" := 1.0, "" := 5.0, "b" := 7.0], [Entry(1.0, "a"), Entry(5.0, ""), Entry(7.0, "b")])
  {
    var s := [Entry(1.0, "a"), Entry(5.0, ""), Entry(7.0, "b")];
    assert s[0] in s && s[1] in s && s[2] in s;
  }

  // A set in which the rank of the member "" is wrong: it is second and gets the first rank,
  // because a taller tower follows it.
  method WrongRank(hasher: string -> nat) returns (set': SortedSet, rank: nat)
    ensures fresh(set') && set'.Valid() && set'.Scores() == map["a" := 1.0, "" := 5.0, "b" := 7.0]
    ensures set'.Ranked() == [Entry(1.0, "a"), Entry(5.0, ""), Entry(7.0, "b")]
    ensures rank == 0
  {
    hide SortedSet.Valid;
    hide SkipList.TopReaches;
    set' := Joined(hasher);
    rank := set'.GetRank("");
  }

  method Joined(hasher: string -> nat) returns (set': SortedSet)
    ensures fresh(set') && set'.Valid() && set'.Scores() == map["a" := 1.0, "" := 5.0, "b" := 7.0]
    ensures set'.Ranked() == [Entry(1.0, "a"), Entry(5.0, ""), Entry(7.0, "b")]
    ensures !set'.zsl.TopReaches(Entry(5.0, ""))
  {
    hide Agree;
    hide Sorted;
    hide Less;
    hide HashTable.Sound;
    hide HashTable.Copied;
    hide HashTable.Map;
    hide SkipList.Valid;
    hide SkipList.TopReaches;
    var dict := ThreeScores(hasher);
    var zsl, _ := HiddenEntry();
    ThreeAgree();
    set' := new SortedSet.Of(dict, zsl);
  }

  ghost function Pairs(s: seq<Entry>): (r: seq<(string, real)>)
    ensures |r| == |s|
  {
    seq(|s|, i requires 0 <= i < |s| => (s[i].member, s[i].score))
  }

  lemma PairsOfNone(s: seq<Entry>, lo: nat)
    requires lo <= |s|
    ensures Pairs(s[lo..lo]) == []
  {
  }

  lemma PairsOneMore(s: seq<Entry>, lo: nat, hi: nat)
    requires lo <= hi < |s|
    ensures Pairs(s[lo..hi + 1]) == Pairs(s[lo..hi]) + [(s[hi].member, s[hi].score)]
  {
    assert s[lo..hi + 1] == s[lo..hi] + [s[hi]];
  }
}

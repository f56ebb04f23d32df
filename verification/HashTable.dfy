// Open addressing with linear probing, tombstones and rehashing.

module HashTables {
  import opened Wrappers
  import opened Maps

  datatype Bucket<K, V> = Bucket(key: K, value: V, active: bool, tombstone: bool)

  predicate Empty<K, V>(b: Bucket<K, V>) {
    !b.active && !b.tombstone
  }

  // The buckets a probe that starts at home passes before it reaches idx, going round the end.
  predicate OnWay(home: nat, idx: nat, m: nat) {
    if home <= idx then home <= m < idx else m >= home || m < idx
  }

  // How many buckets are active or hold a tombstone.
  ghost function Occupied<K, V>(buckets: seq<Bucket<K, V>>): (n: nat)
    ensures n <= |buckets|
  {
    if buckets == [] then 0
    else Occupied(buckets[..|buckets| - 1]) + if Empty(buckets[|buckets| - 1]) then 0 else 1
  }

  lemma {:induction false} OccupiedAfter<K, V>(buckets: seq<Bucket<K, V>>, i: nat, b: Bucket<K, V>)
    requires i < |buckets|
    ensures Occupied(buckets[i := b]) + (if Empty(buckets[i]) then 0 else 1)
      == Occupied(buckets) + (if Empty(b) then 0 else 1)
  {
    var n := |buckets| - 1;
    if i < n {
      OccupiedAfter(buckets[..n], i, b);
      assert buckets[i := b][..n] == buckets[..n][i := b];
    } else {
      assert buckets[i := b][..n] == buckets[..n];
    }
  }

  lemma {:induction false} NoneOccupied<K, V>(buckets: seq<Bucket<K, V>>)
    requires forall i :: 0 <= i < |buckets| ==> Empty(buckets[i])
    ensures Occupied(buckets) == 0
  {
    if buckets != [] {
      NoneOccupied(buckets[..|buckets| - 1]);
    }
  }

  lemma {:induction false} AllOccupied<K, V>(buckets: seq<Bucket<K, V>>)
    requires forall i :: 0 <= i < |buckets| ==> !Empty(buckets[i])
    ensures Occupied(buckets) == |buckets|
  {
    if buckets != [] {
      AllOccupied(buckets[..|buckets| - 1]);
    }
  }

  // At full occupancy no bucket is empty, so a new key finds no place.
  lemma {:induction false} NoGap<K, V>(buckets: seq<Bucket<K, V>>, i: nat)
    requires i < |buckets| && Empty(buckets[i])
    ensures Occupied(buckets) < |buckets|
  {
    if i < |buckets| - 1 {
      NoGap(buckets[..|buckets| - 1], i);
    }
  }

  // slot says where each stored key is: in exactly one active bucket, with no empty bucket on
  // the way there from the key's home bucket.
  ghost predicate Indexed<K, V>(buckets: seq<Bucket<K, V>>, hasher: K -> nat, slot: map<K, nat>) {
    && |buckets| > 0
    && (forall i :: 0 <= i < |buckets| && buckets[i].active ==>
          !buckets[i].tombstone && buckets[i].key in slot && slot[buckets[i].key] == i)
    && (forall k :: k in slot ==> Stored(buckets, hasher, slot[k], k))
  }

  ghost predicate Stored<K, V>(buckets: seq<Bucket<K, V>>, hasher: K -> nat, idx: nat, k: K)
    requires |buckets| > 0
  {
    && idx < |buckets| && buckets[idx].active && buckets[idx].key == k
    && forall m :: 0 <= m < |buckets| && OnWay(hasher(k) % |buckets|, idx, m) ==> !Empty(buckets[m])
  }

  ghost function Contents<K, V>(buckets: seq<Bucket<K, V>>, slot: map<K, nat>): (m: map<K, V>)
    requires forall k :: k in slot ==> slot[k] < |buckets|
    ensures m.Keys == slot.Keys
  {
    map k | k in slot :: buckets[slot[k]].value
  }

  // Activating the empty bucket where a probe for a new key ends.
  lemma Activated<K, V>(buckets: seq<Bucket<K, V>>, hasher: K -> nat, slot: map<K, nat>,
                        idx: nat, key: K, value: V)
    requires Indexed(buckets, hasher, slot) && key !in slot
    requires idx < |buckets| && Empty(buckets[idx])
    requires forall m :: 0 <= m < |buckets| && OnWay(hasher(key) % |buckets|, idx, m) ==> !Empty(buckets[m])
    ensures
      var after := buckets[idx := Bucket(key, value, true, false)];
      && Indexed(after, hasher, slot[key := idx])
      && Contents(after, slot[key := idx]) == Contents(buckets, slot)[key := value]
  {
    var after := buckets[idx := Bucket(key, value, true, false)];
    var slot' := slot[key := idx];
    forall k | k in slot' ensures Stored(after, hasher, slot'[k], k) {
      if k != key {
        assert Stored(buckets, hasher, slot[k], k);
      }
    }
  }

  // Overwriting the value of a stored key.
  lemma Overwritten<K, V>(buckets: seq<Bucket<K, V>>, hasher: K -> nat, slot: map<K, nat>,
                          idx: nat, value: V)
    requires Indexed(buckets, hasher, slot) && idx < |buckets| && buckets[idx].active
    ensures
      var after := buckets[idx := buckets[idx].(value := value)];
      && Indexed(after, hasher, slot)
      && Contents(after, slot) == Contents(buckets, slot)[buckets[idx].key := value]
  {
    var after := buckets[idx := buckets[idx].(value := value)];
    forall k | k in slot ensures Stored(after, hasher, slot[k], k) {
      assert Stored(buckets, hasher, slot[k], k);
    }
    forall k | k in slot ensures after[slot[k]].value == Contents(buckets, slot)[buckets[idx].key := value][k] {
      assert Stored(buckets, hasher, slot[k], k);
    }
  }

  // Burying a stored key: the tombstone keeps the ways of the other keys free of gaps.
  lemma Buried<K, V>(buckets: seq<Bucket<K, V>>, hasher: K -> nat, slot: map<K, nat>,
                     idx: nat, b: Bucket<K, V>)
    requires Indexed(buckets, hasher, slot) && idx < |buckets| && buckets[idx].active
    requires !b.active && b.tombstone
    ensures
      var after := buckets[idx := b];
      && Indexed(after, hasher, slot - {buckets[idx].key})
      && Contents(after, slot - {buckets[idx].key}) == Contents(buckets, slot) - {buckets[idx].key}
  {
    var after := buckets[idx := b];
    var slot' := slot - {buckets[idx].key};
    forall k | k in slot' ensures Stored(after, hasher, slot'[k], k) {
      assert Stored(buckets, hasher, slot[k], k);
    }
  }

  // A probe for key that went past other buckets only and ends at an empty one, or back at
  // its start, shows that key is not stored.
  lemma Absent<K, V>(buckets: seq<Bucket<K, V>>, hasher: K -> nat, slot: map<K, nat>, key: K, idx: nat)
    requires Indexed(buckets, hasher, slot) && idx < |buckets|
    requires forall m :: 0 <= m < |buckets| && (OnWay(hasher(key) % |buckets|, idx, m) || m == idx) ==>
      !(buckets[m].active && buckets[m].key == key)
    requires Empty(buckets[idx]) || (idx + 1) % |buckets| == hasher(key) % |buckets|
    ensures key !in slot
  {
    WrapAround(idx, |buckets|);
    forall k | k in slot ensures k != key {
      assert Stored(buckets, hasher, slot[k], k);
    }
  }

  // The clockwise distance from home to idx round n buckets.
  function Distance(home: nat, idx: nat, n: nat): nat
    requires home < n && idx < n
  {
    if home <= idx then idx - home else idx + n - home
  }

  // The stored keys that a rehash has moved when it has gone through the first i buckets.
  ghost function Moved<K>(slot: map<K, nat>, i: nat): (r: map<K, nat>)
    ensures forall k :: k in slot && slot[k] < i ==> k in r
    ensures forall k :: k in r ==> k in slot && r[k] == slot[k] < i
  {
    map k | k in slot && slot[k] < i :: slot[k]
  }

  lemma MoveOne<K, V>(buckets: seq<Bucket<K, V>>, hasher: K -> nat, slot: map<K, nat>, i: nat)
    requires Indexed(buckets, hasher, slot) && i < |buckets|
    requires forall k :: k in slot ==> slot[k] < |buckets|
    ensures buckets[i].active ==>
      && buckets[i].key !in Moved(slot, i)
      && Moved(slot, i + 1).Keys == Moved(slot, i).Keys + {buckets[i].key}
      && Contents(buckets, Moved(slot, i + 1)) ==
           Contents(buckets, Moved(slot, i))[buckets[i].key := buckets[i].value]
    ensures !buckets[i].active ==> Moved(slot, i + 1) == Moved(slot, i)
  {
    forall k | k in slot && slot[k] == i ensures buckets[i].active && buckets[i].key == k {
      assert Stored(buckets, hasher, slot[k], k);
    }
  }

  lemma AllMoved<K, V>(buckets: seq<Bucket<K, V>>, slot: map<K, nat>)
    requires forall k :: k in slot ==> slot[k] < |buckets|
    ensures Moved(slot, |buckets|) == slot
  {
  }

  lemma Subset<K>(a: set<K>, b: set<K>)
    requires a <= b
    ensures |a| <= |b|
  {
    if a != {} {
      var x :| x in a;
      Subset(a - {x}, b - {x});
    }
  }

  lemma WrapAround(idx: nat, n: nat)
    requires idx < n
    ensures (idx + 1) % n == if idx + 1 == n then 0 else idx + 1
  {
  }

  class HashTable<K(==, 0), V(0)> {
    var buckets: seq<Bucket<K, V>>
    var size: nat
    var tombstoneCount: nat
    const hasher: K -> nat
    ghost var slot: map<K, nat>

    // Enough for every lookup to be right.
    ghost predicate Sound()
      reads this
    {
      && Indexed(buckets, hasher, slot)
      && size == |slot| && size <= Occupied(buckets) && size <= |buckets| / 2 && |buckets| >= 16
    }

    // Enough for updates too: at most half of the buckets are taken, and the load that
    // checkRehash sees is not less than the real one.
    ghost predicate Valid()
      reads this
    {
      && Sound()
      && Occupied(buckets) <= |buckets| / 2
      && Occupied(buckets) <= size + tombstoneCount
    }

    // What a copy starts with and keeps: half of the buckets may be taken by tombstones that
    // are not counted. A rehash comes in time all the same.
    ghost predicate Copied()
      reads this
    {
      && Sound()
      && Occupied(buckets) <= size + tombstoneCount + |buckets| / 2
    }

    // No empty bucket is left and checkRehash does not notice.
    ghost predicate Clogged()
      reads this
    {
      Occupied(buckets) == |buckets| && size + tombstoneCount < |buckets| / 2
    }

    ghost function Map(): (m: map<K, V>)
      reads this
      requires Sound()
      ensures m.Keys == slot.Keys && |m| == size
    {
      SlotsInRange();
      assert |slot.Keys| == |slot|;
      var m := Contents(buckets, slot);
      assert |m.Keys| == |m|;
      m
    }

    lemma SlotsInRange()
      requires Indexed(buckets, hasher, slot)
      ensures forall k :: k in slot ==> slot[k] < |buckets|
    {
      forall k | k in slot ensures slot[k] < |buckets| {
        assert Stored(buckets, hasher, slot[k], k);
      }
    }

    constructor (hasher: K -> nat)
      ensures Valid() && Map() == map[] && this.hasher == hasher
      ensures size == tombstoneCount == 0 && |buckets| == 16 && Occupied(buckets) == 0
    {
      var k: K := *;
      var v: V := *;
      buckets := seq(16, _ => Bucket(k, v, false, false));
      size := 0;
      tombstoneCount := 0;
      this.hasher := hasher;
      slot := map[];
      new;
      NoneOccupied(buckets);
    }

    method Set(key: K, value: V) returns (isNew: bool)
      requires Sound()
      modifies this
      ensures Sound() && (old(Valid()) ==> Valid() && size + tombstoneCount <= |buckets| / 2)
      ensures old(Copied()) ==> Copied()
      ensures old(Copied()) ==> isNew == (key !in old(Map())) && Map() == old(Map())[key := value]
      ensures if old(Clogged()) && key !in old(Map())
        then !isNew && Map() == old(Map())
        else isNew == (key !in old(Map())) && Map() == old(Map())[key := value]
      ensures old(size + tombstoneCount < |buckets| / 2) ==>
        && |buckets| == old(|buckets|) && tombstoneCount == old(tombstoneCount)
        && Occupied(buckets) == old(Occupied(buckets)) + if isNew then 1 else 0
    {
      CheckRehash();
      ghost var m := Map();
      assert m.Keys == slot.Keys;
      isNew := Store(key, value);
    }

    method Store(key: K, value: V) returns (isNew: bool)
      requires Sound() && size + tombstoneCount < |buckets| / 2
      modifies this
      ensures Sound() && (old(Valid()) ==> Valid()) && (old(Copied()) ==> Copied())
      ensures |buckets| == old(|buckets|) && tombstoneCount == old(tombstoneCount)
      ensures Occupied(buckets) == old(Occupied(buckets)) + if isNew then 1 else 0
      ensures size == old(size) + if isNew then 1 else 0
      ensures isNew == (key !in old(Map()) && old(Occupied(buckets)) < |buckets|)
      ensures Map() ==
        if isNew || key in old(Map()) then old(Map())[key := value] else old(Map())
    {
      SlotsInRange();
      ghost var newSlot;
      isNew, buckets, size, newSlot := InsertInternal(hasher, key, value, buckets, size, slot);
      slot := newSlot;
    }

    method Del(key: K) returns (found: bool)
      requires Sound()
      modifies this
      ensures Sound() && (old(Valid()) ==> Valid()) && (old(Copied()) ==> Copied())
      ensures size + tombstoneCount == old(size + tombstoneCount) && |buckets| == old(|buckets|)
      ensures Occupied(buckets) == old(Occupied(buckets))
      ensures found == (key in old(Map())) && Map() == old(Map()) - {key}
    {
      hide Indexed;
      hide Contents;
      hide Occupied;
      var idx;
      found, idx := FindIndex(key);
      if !found {
        assert Map() - {key} == Map();
        return;
      }
      var k: K := *;
      var v: V := *;
      Buried(buckets, hasher, slot, idx, Bucket(k, v, false, true));
      OccupiedAfter(buckets, idx, Bucket(k, v, false, true));
      buckets := buckets[idx := Bucket(k, v, false, true)];
      size := size - 1;
      tombstoneCount := tombstoneCount + 1;
      slot := slot - {key};
    }

    // The copy forgets how many tombstones its buckets hold.
    method Clone() returns (copy: HashTable<K, V>)
      requires Sound()
      ensures fresh(copy) && copy.Sound() && copy.Map() == Map() && (Valid() ==> copy.Copied())
      ensures copy.buckets == buckets && copy.size == size && copy.tombstoneCount == 0
    {
      copy := new HashTable<K, V>(hasher);
      copy.buckets := buckets;
      copy.size := size;
      copy.slot := slot;
    }

    method Get(key: K) returns (value: Option<V>)
      requires Sound()
      ensures value == if key in Map() then Some(Map()[key]) else None
    {
      var found, idx := FindIndex(key);
      value := if found then Some(buckets[idx].value) else None;
    }

    method Exists(key: K) returns (found: bool)
      requires Sound()
      ensures found == (key in Map())
    {
      var idx;
      found, idx := FindIndex(key);
    }

    method Clear()
      modifies this
      ensures Valid() && Map() == map[]
    {
      var k: K := *;
      var v: V := *;
      buckets := seq(16, _ => Bucket(k, v, false, false));
      size := 0;
      slot := map[];
      NoneOccupied(buckets);
    }

    // The iterator: every stored pair once, in bucket order.
    method Items() returns (items: seq<(K, V)>)
      requires Sound()
      ensures Enumerates(items, Map())
    {
      items := [];
      for i := 0 to |buckets|
        invariant forall j :: 0 <= j < |items| ==>
          items[j].0 in slot && slot[items[j].0] < i && buckets[slot[items[j].0]].value == items[j].1
        invariant forall j, l :: 0 <= j < l < |items| ==> items[j].0 != items[l].0
        invariant forall m :: 0 <= m < i && buckets[m].active ==> (buckets[m].key, buckets[m].value) in items
      {
        if buckets[i].active {
          items := items + [(buckets[i].key, buckets[i].value)];
        }
      }
      forall k | k in Map() ensures (k, Map()[k]) in items {
        assert Stored(buckets, hasher, slot[k], k);
      }
    }

    method CheckRehash()
      requires Sound()
      modifies this
      ensures Sound() && Map() == old(Map()) && (old(Valid()) ==> Valid()) && (old(Copied()) ==> Copied())
      ensures size + tombstoneCount < |buckets| / 2
      ensures old(size + tombstoneCount < |buckets| / 2) ==> unchanged(this)
      ensures Occupied(buckets) == |buckets| <==> old(Clogged())
    {
      if size >= |buckets| / 2 {
        Rehash(|buckets| * 2);
      } else if size + tombstoneCount >= |buckets| / 2 {
        Rehash(|buckets|);
      }
    }

    method Rehash(newCapacity: nat)
      requires Sound() && newCapacity >= |buckets| && newCapacity / 2 > size
      modifies this
      ensures Valid() && Map() == old(Map()) && |buckets| == newCapacity
      ensures Occupied(buckets) == size == old(size) && tombstoneCount == 0
    {
      SlotsInRange();
      ghost var newSlot;
      buckets, size, newSlot := Transfer(hasher, buckets, slot, newCapacity);
      tombstoneCount := 0;
      assert newSlot.Keys == slot.Keys && |newSlot.Keys| == |slot.Keys|;
      slot := newSlot;
    }

    // The loop of rehash: the active buckets go into new ones, which start out empty.
    static method Transfer(hasher: K -> nat, was: seq<Bucket<K, V>>, ghost place: map<K, nat>, newCapacity: nat)
      returns (newBuckets: seq<Bucket<K, V>>, newSize: nat, ghost newSlot: map<K, nat>)
      requires Indexed(was, hasher, place) && newCapacity > |place|
      requires forall k :: k in place ==> place[k] < |was|
      ensures |newBuckets| == newCapacity && Indexed(newBuckets, hasher, newSlot)
      ensures newSize == |newSlot| == Occupied(newBuckets)
      ensures forall k :: k in newSlot ==> newSlot[k] < newCapacity
      ensures newSlot.Keys == place.Keys && Contents(newBuckets, newSlot) == Contents(was, place)
    {
      hide Stored;
      hide Occupied;
      var k: K := *;
      var v: V := *;
      newBuckets := seq(newCapacity, _ => Bucket(k, v, false, false));
      newSize := 0;
      newSlot := map[];
      NoneOccupied(newBuckets);
      for i := 0 to |was|
        invariant |newBuckets| == newCapacity && Indexed(newBuckets, hasher, newSlot)
        invariant newSize == |newSlot| == Occupied(newBuckets)
        invariant forall k :: k in newSlot ==> newSlot[k] < newCapacity
        invariant newSlot.Keys == Moved(place, i).Keys
        invariant Contents(newBuckets, newSlot) == Contents(was, Moved(place, i))
      {
        MoveOne(was, hasher, place, i);
        if was[i].active {
          Subset(newSlot.Keys, place.Keys);
          assert |newSlot.Keys| == |newSlot| && |place.Keys| == |place|;
          var isNew;
          isNew, newBuckets, newSize, newSlot :=
            InsertInternal(hasher, was[i].key, was[i].value, newBuckets, newSize, newSlot);
          assert isNew;
        }
      }
      AllMoved(was, place);
    }

    static method InsertInternal(hasher: K -> nat, key: K, value: V, target: seq<Bucket<K, V>>,
                                 targetSize: nat, ghost slot: map<K, nat>)
      returns (isNew: bool, target': seq<Bucket<K, V>>, targetSize': nat, ghost slot': map<K, nat>)
      requires Indexed(target, hasher, slot) && targetSize == |slot|
      requires forall k :: k in slot ==> slot[k] < |target|
      ensures |target'| == |target| && Indexed(target', hasher, slot') && targetSize' == |slot'|
      ensures forall k :: k in slot' ==> slot'[k] < |target'|
      ensures isNew == (key !in slot && Occupied(target) < |target|)
      ensures Occupied(target') == Occupied(target) + if isNew then 1 else 0
      ensures Contents(target', slot') ==
        if key in slot || isNew then Contents(target, slot)[key := value] else Contents(target, slot)
    {
      hide Stored;
      hide Occupied;
      target', targetSize', slot' := target, targetSize, slot;
      var idx: nat := hasher(key) % |target|;
      var startIdx := idx;
      while true
        invariant idx < |target|
        invariant forall m :: 0 <= m < |target| && OnWay(startIdx, idx, m) ==>
          !Empty(target[m]) && !(target[m].active && target[m].key == key)
        decreases |target| - Distance(startIdx, idx, |target|)
      {
        if !target[idx].active && !target[idx].tombstone {
          Absent(target, hasher, slot, key, idx);
          NoGap(target, idx);
          Activated(target, hasher, slot, idx, key, value);
          OccupiedAfter(target, idx, Bucket(key, value, true, false));
          target' := target[idx := Bucket(key, value, true, false)];
          targetSize' := targetSize + 1;
          slot' := slot[key := idx];
          return true, target', targetSize', slot';
        } else if target[idx].active && target[idx].key == key {
          Overwritten(target, hasher, slot, idx, value);
          OccupiedAfter(target, idx, target[idx].(value := value));
          target' := target[idx := target[idx].(value := value)];
          return false, target', targetSize', slot';
        }
        WrapAround(idx, |target|);
        ghost var last := idx;
        idx := (idx + 1) % |target|;
        if idx == startIdx {
          Absent(target, hasher, slot, key, last);
          AllOccupied(target);
          return false, target', targetSize', slot';
        }
      }
    }

    // Probes for key: where it is, or that it is absent, because the probe met an empty bucket
    // or came full circle.
    method FindIndex(key: K) returns (found: bool, idx: nat)
      requires Indexed(buckets, hasher, slot)
      ensures found <==> key in slot
      ensures found ==> idx < |buckets| && idx == slot[key] && buckets[idx].active && buckets[idx].key == key
    {
      idx := hasher(key) % |buckets|;
      var startIdx := idx;
      while true
        invariant idx < |buckets|
        invariant forall m :: 0 <= m < |buckets| && OnWay(startIdx, idx, m) ==>
          !Empty(buckets[m]) && !(buckets[m].active && buckets[m].key == key)
        decreases |buckets| - Distance(startIdx, idx, |buckets|)
      {
        if !buckets[idx].active && !buckets[idx].tombstone {
          Absent(buckets, hasher, slot, key, idx);
          return false, idx;
        } else if buckets[idx].active && buckets[idx].key == key {
          return true, idx;
        }
        WrapAround(idx, |buckets|);
        ghost var last := idx;
        idx := (idx + 1) % |buckets|;
        if idx == startIdx {
          Absent(buckets, hasher, slot, key, last);
          return false, idx;
        }
      }
    }
  }

  // The keys of m are numbers from lo to 7.
  ghost predicate Within(m: map<nat, bool>, lo: nat) {
    forall k :: k in m ==> lo <= k < 8
  }

  lemma WithoutOne(m: map<nat, bool>, lo: nat)
    requires Within(m, lo) && lo < 8
    ensures Within(m - {lo}, lo + 1)
    ensures lo == 7 ==> m - {lo} == map[]
  {
  }

  // Eight new keys take eight buckets of a table of sixteen.
  method AddEight(table: HashTable<nat, bool>)
    requires table.Sound() && table.Map() == map[] && table.tombstoneCount == 0
    requires |table.buckets| == 16 && Occupied(table.buckets) <= 8
    modifies table
    ensures table.Sound() && Within(table.Map(), 0)
    ensures |table.buckets| == 16 && Occupied(table.buckets) == old(Occupied(table.buckets)) + 8
  {
    hide Indexed;
    hide HashTable.Map;
    hide Occupied;
    ghost var taken := Occupied(table.buckets);
    ghost var m := table.Map();
    for i := 0 to 8
      invariant table.Sound() && table.tombstoneCount == 0 && |table.buckets| == 16
      invariant m == table.Map() && |m| == i && forall k :: k in m ==> k < i
      invariant Occupied(table.buckets) == taken + i
    {
      var isNew := table.Set(i, true);
      m := m[i := true];
    }
  }

  // Once they are gone, the buckets they took stay taken.
  method RemoveEight(table: HashTable<nat, bool>)
    requires table.Sound() && Within(table.Map(), 0)
    modifies table
    ensures table.Sound() && table.Map() == map[]
    ensures |table.buckets| == old(|table.buckets|) && Occupied(table.buckets) == old(Occupied(table.buckets))
  {
    hide Indexed;
    hide HashTable.Map;
    hide Occupied;
    hide Within;
    ghost var m := table.Map();
    for i := 0 to 8
      invariant i == 8 ==> m == map[]
      invariant table.Sound() && m == table.Map() && Within(m, i)
      invariant |table.buckets| == old(|table.buckets|) && Occupied(table.buckets) == old(Occupied(table.buckets))
    {
      var found := table.Del(i);
      WithoutOne(m, i);
      m := m - {i};
    }
  }

  // A clone of a written clone can be clogged, under any hash function: the entry is lost.
  method LostEntry(hasher: nat -> nat) returns (table: HashTable<nat, bool>, isNew: bool)
    ensures fresh(table) && table.Sound() && !isNew && table.Map() == map[]
  {
    table := new HashTable<nat, bool>(hasher);
    AddEight(table);
    RemoveEight(table);
    table := table.Clone();
    AddEight(table);
    RemoveEight(table);
    table := table.Clone();
    assert table.Clogged();
    isNew := table.Set(0, true);
  }
}

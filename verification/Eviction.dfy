// Eviction: sample, pick, delete, until the counter is down to the limit or a pass finds nothing.

module Eviction {
  import opened Wrappers
  import opened Keyspace
  import opened Stores
  import opened Memory
  import opened Databases
  import opened Numbers

  datatype Pick = Random | Ttl | Lfu | Lru

  // volatile policies take their samples from the keys with an expiry.
  datatype Policy = Policy(volatile: bool, pick: Pick)

  ghost function Dbs(dbs: seq<Database>): (r: seq<Db>)
    reads dbs
    ensures |r| == |dbs| && forall i :: 0 <= i < |dbs| ==> r[i] == dbs[i].Db()
  {
    if dbs == [] then [] else [dbs[0].Db()] + Dbs(dbs[1..])
  }

  // The counter is the sum of the estimates, of which this database has all but rest.
  ghost predicate Exact(db: Database, rest: nat)
    reads db`data, db.memory`used
  {
    db.memory.used == rest + Total(db.data)
  }

  // Part of the keys, with the values they had. If only keys with an expiry may go, all others
  // are there.
  ghost predicate Shrunk(volatileOnly: bool, was: Db, db: Db) {
    && db.data.Keys <= was.data.Keys && db.expires.Keys <= was.expires.Keys
    && (volatileOnly ==> forall k <- was.data :: k !in was.expires ==> k in db.data)
    && (forall k <- db.data :: db.data[k] == was.data[k])
    && (forall k <- db.expires :: db.expires[k] == was.expires[k])
  }

  function Pool(db: Db, volatileOnly: bool): set<string> {
    if volatileOnly then db.expires.Keys else db.data.Keys
  }

  // Any keys of the pool, drawn with repetition; none from an empty pool.
  method RandomSample(db: Database, count: nat, volatileOnly: bool) returns (keys: seq<string>)
    ensures forall k <- keys :: k in Pool(db.Db(), volatileOnly)
    ensures |keys| == if Pool(db.Db(), volatileOnly) == {} then 0 else count
  {
    var pool := if volatileOnly then db.expires.Keys else db.data.Keys;
    keys := [];
    if pool != {} {
      for i := 0 to count
        invariant |keys| == i && forall k <- keys :: k in pool
      {
        var key :| key in pool;
        keys := keys + [key];
      }
    }
  }

  predicate IsLive(db: Db, key: string, now: int) {
    key in db.data && !Expired(db, key, now)
  }

  // The first, or the last, of the samples that is alive.
  function FirstLive(db: Db, samples: seq<string>, now: int): Option<string>
    decreases |samples|
  {
    if samples == [] then None
    else
      var before, last := FirstLive(db, samples[..|samples| - 1], now), samples[|samples| - 1];
      if before.None? && IsLive(db, last, now) then Some(last) else before
  }

  function LastLive(db: Db, samples: seq<string>, now: int): Option<string>
    decreases |samples|
  {
    if samples == [] then None
    else
      var last := samples[|samples| - 1];
      if IsLive(db, last, now) then Some(last) else LastLive(db, samples[..|samples| - 1], now)
  }

  predicate FirstLiveAt(db: Db, samples: seq<string>, n: nat, now: int) {
    n < |samples| && IsLive(db, samples[n], now) && NoneLiveIn(db, samples[..n], now)
  }

  predicate LastLiveAt(db: Db, samples: seq<string>, n: nat, now: int) {
    n < |samples| && IsLive(db, samples[n], now) && NoneLiveIn(db, samples[n + 1..], now)
  }

  // It is what it is called: no sample in front of it is alive.
  lemma {:induction false} FirstLiveIs(db: Db, samples: seq<string>, now: int)
    ensures var first := FirstLive(db, samples, now);
      if first.None? then NoneLiveIn(db, samples, now)
      else exists n: nat :: FirstLiveAt(db, samples, n, now) && samples[n] == first.value
    decreases |samples|
  {
    hide IsLive;
    if samples != [] {
      var k := |samples| - 1;
      var before := samples[..k];
      FirstLiveIs(db, before, now);
      var first := FirstLive(db, before, now);
      if first.Some? {
        var n: nat :| FirstLiveAt(db, before, n, now) && before[n] == first.value;
        assert samples[..n] == before[..n];
        assert FirstLiveAt(db, samples, n, now);
      } else if IsLive(db, samples[k], now) {
        assert FirstLiveAt(db, samples, k, now);
      } else {
        assert samples == before + [samples[k]];
      }
    }
  }

  // And none behind the last one.
  lemma {:induction false} LastLiveIs(db: Db, samples: seq<string>, now: int)
    ensures var last := LastLive(db, samples, now);
      if last.None? then NoneLiveIn(db, samples, now)
      else exists n: nat :: LastLiveAt(db, samples, n, now) && samples[n] == last.value
    decreases |samples|
  {
    hide IsLive;
    if samples != [] {
      var k := |samples| - 1;
      var before := samples[..k];
      LastLiveIs(db, before, now);
      var last := LastLive(db, before, now);
      if IsLive(db, samples[k], now) {
        assert LastLiveAt(db, samples, k, now);
      } else if last.Some? {
        var n: nat :| LastLiveAt(db, before, n, now) && before[n] == last.value;
        assert samples[n + 1..] == before[n + 1..] + [samples[k]];
        assert LastLiveAt(db, samples, n, now);
      } else {
        assert samples == before + [samples[k]];
      }
    }
  }

  predicate NoneLiveIn(db: Db, samples: seq<string>, now: int) {
    forall n :: 0 <= n < |samples| ==> !IsLive(db, samples[n], now)
  }

  function Named(key: Option<string>): string {
    if key.None? then "" else key.value
  }

  lemma {:induction false} LiveIsSample(db: Db, samples: seq<string>, now: int)
    ensures var first := FirstLive(db, samples, now); first.Some? ==> first.value in samples
    ensures var last := LastLive(db, samples, now); last.Some? ==> last.value in samples
    decreases |samples|
  {
    if samples != [] {
      var before := samples[..|samples| - 1];
      LiveIsSample(db, before, now);
      assert forall k :: k in before ==> k in samples;
    }
  }

  // No sample has less time left than this one.
  ghost predicate Soonest(db: Db, samples: seq<string>, key: string, now: int) {
    && key in samples && Pttl(db, key, now) >= 0
    && forall k <- samples :: Pttl(db, k, now) >= 0 ==> Pttl(db, key, now) <= Pttl(db, k, now)
  }

  // No sample has time left, but perhaps the empty string.
  ghost predicate NoneSoon(db: Db, samples: seq<string>, now: int) {
    "" in samples || forall k <- samples :: !(0 <= Pttl(db, k, now) < INT64_MAX)
  }

  // The key to evict among the samples, where the empty string stands for no key. Looking at an
  // object sets its clock to the present, so all live samples have been idle for no time and have
  // the same counter: the last live one counts as least recently used, the first one as least
  // frequently used.
  ghost predicate Picks(pick: Pick, db: Db, samples: seq<string>, now: int, best: string)
    requires samples != []
  {
    match pick
    case Random => best == samples[0]
    case Ttl => if best != "" then Soonest(db, samples, best, now) else NoneSoon(db, samples, now)
    case Lfu => best == Named(FirstLive(db, samples, now))
    case Lru =>
      var last := Named(LastLive(db, samples, now));
      best == if last == "" then samples[0] else last
  }

  // ---------- What the policies are meant to pick ----------

  function ClockOf(clocks: map<string, Clock>, key: string): Clock {
    if key in clocks then clocks[key] else 0
  }

  // The time since the object was used, on a clock of 32 bits.
  function Idle(clocks: map<string, Clock>, key: string, clock: Clock): nat {
    (clock - ClockOf(clocks, key)) % 0x1_0000_0000
  }

  function Counter(clocks: map<string, Clock>, key: string): nat {
    ClockOf(clocks, key) % 256
  }

  // Of the live samples, key has been idle longest by the clocks that stood before the lookups.
  ghost predicate LeastRecentlyUsed(db: Db, samples: seq<string>, now: int, clocks: map<string, Clock>,
      clock: Clock, key: string)
  {
    && key in samples && IsLive(db, key, now)
    && forall k <- samples :: IsLive(db, k, now) ==> Idle(clocks, k, clock) <= Idle(clocks, key, clock)
  }

  ghost predicate LeastFrequentlyUsed(db: Db, samples: seq<string>, now: int, clocks: map<string, Clock>, key: string)
  {
    && key != "" && key in samples && IsLive(db, key, now)
    && forall k <- samples :: IsLive(db, k, now) ==> Counter(clocks, key) <= Counter(clocks, k)
  }

  // All live samples are one key.
  ghost predicate OneLive(db: Db, samples: seq<string>, now: int) {
    forall j, k :: j in samples && k in samples && IsLive(db, j, now) && IsLive(db, k, now) ==> j == k
  }

  lemma {:induction false} SomeLive(db: Db, samples: seq<string>, now: int)
    requires exists k :: k in samples && IsLive(db, k, now)
    ensures var first := FirstLive(db, samples, now);
      first.Some? && first.value in samples && IsLive(db, first.value, now)
    ensures var last := LastLive(db, samples, now);
      last.Some? && last.value in samples && IsLive(db, last.value, now)
    decreases |samples|
  {
    var before, last := samples[..|samples| - 1], samples[|samples| - 1];
    assert samples == before + [last];
    if exists k :: k in before && IsLive(db, k, now) {
      SomeLive(db, before, now);
    } else {
      NoneLive(db, before, now);
    }
  }

  lemma {:induction false} NoneLive(db: Db, samples: seq<string>, now: int)
    requires !exists k :: k in samples && IsLive(db, k, now)
    ensures FirstLive(db, samples, now) == None && LastLive(db, samples, now) == None
    decreases |samples|
  {
    if samples != [] {
      assert samples[|samples| - 1] in samples;
      NoneLive(db, samples[..|samples| - 1], now);
    }
  }

  // The LRU policies are right, whatever the clocks say, exactly if there is no choice: with two
  // live samples some clocks make the pick the wrong one. (A live key "" would be read as no key.)
  lemma LruIsRightIffForced(db: Db, samples: seq<string>, now: int, clock: Clock, best: string)
    requires exists k :: k in samples && IsLive(db, k, now)
    requires Picks(Lru, db, samples, now, best)
    ensures (forall clocks :: LeastRecentlyUsed(db, samples, now, clocks, clock, best)) <==>
      OneLive(db, samples, now) && ("" in samples && IsLive(db, "", now) ==> samples[0] == "")
  {
    SomeLive(db, samples, now);
    var last := LastLive(db, samples, now).value;
    if !IsLive(db, best, now) {
      assert !LeastRecentlyUsed(db, samples, now, map[], clock, best);
    } else if !OneLive(db, samples, now) {
      var other := Another(db, samples, now, best);
      var clocks: map<string, Clock> := map[best := clock, other := (clock - 1) % 0x1_0000_0000];
      assert Idle(clocks, best, clock) == 0 && Idle(clocks, other, clock) == 1;
      assert !LeastRecentlyUsed(db, samples, now, clocks, clock, best);
    }
  }

  lemma LfuIsRightIffForced(db: Db, samples: seq<string>, now: int, best: string)
    requires exists k :: k in samples && IsLive(db, k, now)
    requires Picks(Lfu, db, samples, now, best)
    ensures (forall clocks :: LeastFrequentlyUsed(db, samples, now, clocks, best)) <==>
      OneLive(db, samples, now) && !("" in samples && IsLive(db, "", now))
  {
    SomeLive(db, samples, now);
    if best == "" {
      assert !LeastFrequentlyUsed(db, samples, now, map[], best);
    } else if !OneLive(db, samples, now) {
      var other := Another(db, samples, now, best);
      var clocks: map<string, Clock> := map[best := 1, other := 0];
      assert Counter(clocks, best) == 1 && Counter(clocks, other) == 0;
      assert !LeastFrequentlyUsed(db, samples, now, clocks, best);
    }
  }

  lemma Another(db: Db, samples: seq<string>, now: int, key: string) returns (other: string)
    requires !OneLive(db, samples, now)
    ensures other != key && other in samples && IsLive(db, other, now)
  {
    var j, k :| j in samples && k in samples && IsLive(db, j, now) && IsLive(db, k, now) && j != k;
    other := if j != key then j else k;
  }

  // A key that was never used again goes on living, while one used a moment ago is evicted.
  lemma RecentKeyIsEvicted(now: int)
    ensures
      var db := Db(map["old" := Str(""), "new" := Str("")], map[]);
      var clocks: map<string, Clock> := map["old" := 1, "new" := 99];
      && Picks(Lru, db, ["old", "new"], now, "new")
      && LeastRecentlyUsed(db, ["old", "new"], now, clocks, 100, "old")
      && !LeastRecentlyUsed(db, ["old", "new"], now, clocks, 100, "new")
  {
    var db := Db(map["old" := Str(""), "new" := Str("")], map[]);
    var clocks: map<string, Clock> := map["old" := 1, "new" := 99];
    assert LastLive(db, ["old", "new"], now) == Some("new");
    assert Idle(clocks, "old", 100) == 99 && Idle(clocks, "new", 100) == 1;
    assert "old" in ["old", "new"];
  }

  method BestKey(db: Database, samples: seq<string>, pick: Pick, now: int, ghost rest: nat)
    returns (best: string)
    requires samples != [] && db.Sound() && forall k <- samples :: k in db.data
    modifies db`data, db`expires, db`clocks, db.memory`used, db.Watchers()`dirty
    ensures db.Sound() && Shrunk(true, old(db.Db()), db.Db())
    ensures old(Exact(db, rest)) ==> Exact(db, rest)
    ensures Picks(pick, old(db.Db()), samples, now, best) && AliveAsBefore(old(db.Db()), db.Db(), now)
    ensures best != "" ==> best in samples
    ensures (pick.Random? || pick.Lru?) && "" !in samples ==> best != ""
  {
    hide Total;
    match pick {
      case Random => best := samples[0];
      case Ttl => best := LeastTtl(db, samples, now);
      case Lfu =>
        best := LeastFrequent(db, samples, now, rest);
        LiveIsSample(old(db.Db()), samples, now);
      case Lru =>
        best := LeastRecent(db, samples, now, rest);
        LiveIsSample(old(db.Db()), samples, now);
        if best == "" {
          best := samples[0];
        }
    }
  }

  method LeastTtl(db: Database, samples: seq<string>, now: int) returns (best: string)
    ensures if best != "" then Soonest(db.Db(), samples, best, now) else NoneSoon(db.Db(), samples, now)
  {
    best := "";
    var minTtl := INT64_MAX;
    for i := 0 to |samples|
      invariant minTtl <= INT64_MAX
      invariant best != "" ==> best in samples[..i] && minTtl == Pttl(db.Db(), best, now) >= 0
      invariant best == "" ==> minTtl == INT64_MAX || "" in samples[..i]
      invariant forall k <- samples[..i] :: Pttl(db.Db(), k, now) >= 0 ==> minTtl <= Pttl(db.Db(), k, now)
    {
      assert samples[..i + 1] == samples[..i] + [samples[i]];
      var ttl := db.PttlOf(samples[i], now);
      if ttl >= 0 && ttl < minTtl {
        minTtl, best := ttl, samples[i];
      }
    }
    assert samples[..|samples|] == samples;
  }

  // The counter is the low byte of the object's clock.
  method LeastFrequent(db: Database, samples: seq<string>, now: int, ghost rest: nat)
    returns (best: string)
    requires db.Sound()
    modifies db`data, db`expires, db`clocks, db.memory`used, db.Watchers()`dirty
    ensures db.Sound() && Shrunk(true, old(db.Db()), db.Db())
    ensures old(Exact(db, rest)) ==> Exact(db, rest)
    ensures best == Named(FirstLive(old(db.Db()), samples, now)) && AliveAsBefore(old(db.Db()), db.Db(), now)
  {
    hide Total;
    best := "";
    var minCounter := 256;
    ghost var was := db.Db();
    for i := 0 to |samples|
      invariant db.Sound() && Shrunk(true, was, db.Db()) && AliveAsBefore(was, db.Db(), now)
      invariant old(Exact(db, rest)) ==> Exact(db, rest)
      invariant best == Named(FirstLive(was, samples[..i], now))
      invariant minCounter == if FirstLive(was, samples[..i], now).None? then 256 else db.memory.lruClock % 256
    {
      assert samples[..i + 1][..i] == samples[..i];
      ghost var before := db.Db();
      var obj := LookAt(db, samples[i], now, rest);
      ShrunkTrans(true, was, before, db.Db());
      if obj.Some? {
        var counter := obj.value % 256;
        if counter < minCounter {
          minCounter, best := counter, samples[i];
        }
      }
    }
    assert samples[..|samples|] == samples;
  }

  // The idle time is what has passed since the object's clock.
  method LeastRecent(db: Database, samples: seq<string>, now: int, ghost rest: nat)
    returns (best: string)
    requires db.Sound()
    modifies db`data, db`expires, db`clocks, db.memory`used, db.Watchers()`dirty
    ensures db.Sound() && Shrunk(true, old(db.Db()), db.Db())
    ensures old(Exact(db, rest)) ==> Exact(db, rest)
    ensures best == Named(LastLive(old(db.Db()), samples, now)) && AliveAsBefore(old(db.Db()), db.Db(), now)
  {
    hide Total;
    best := "";
    var currentClock := db.memory.lruClock;
    var maxIdle := 0;
    ghost var was := db.Db();
    for i := 0 to |samples|
      invariant db.Sound() && Shrunk(true, was, db.Db()) && AliveAsBefore(was, db.Db(), now)
      invariant old(Exact(db, rest)) ==> Exact(db, rest)
      invariant best == Named(LastLive(was, samples[..i], now)) && maxIdle == 0
    {
      assert samples[..i + 1][..i] == samples[..i];
      ghost var before := db.Db();
      var obj := LookAt(db, samples[i], now, rest);
      ShrunkTrans(true, was, before, db.Db());
      if obj.Some? {
        var idle := (currentClock - obj.value) % 0x1_0000_0000;
        if idle >= maxIdle {
          maxIdle, best := idle, samples[i];
        }
      }
    }
    assert samples[..|samples|] == samples;
  }

  ghost predicate AliveAsBefore(was: Db, db: Db, now: int) {
    forall k :: IsLive(was, k, now) <==> IsLive(db, k, now)
  }

  // The clock of an object, read when getObject has brought it up to date.
  method LookAt(db: Database, key: string, now: int, ghost rest: nat) returns (obj: Option<Clock>)
    requires db.Sound()
    modifies db`data, db`expires, db`clocks, db.memory`used, db.Watchers()`dirty
    ensures db.Sound() && Shrunk(true, old(db.Db()), db.Db())
    ensures AliveAsBefore(old(db.Db()), db.Db(), now)
    ensures old(Exact(db, rest)) ==> Exact(db, rest)
    ensures obj == if IsLive(old(db.Db()), key, now) then Some(db.memory.lruClock) else None
  {
    hide Total;
    if Exact(db, rest) {
      RemoveIsExact(db.memory.used, rest, db.Db(), key);
    }
    var found := db.GetObject(key, now);
    obj := if found.Some? then Some(db.clocks[key]) else None;
  }

  method Remove(db: Database, key: string, now: int, ghost rest: nat)
    requires db.Sound()
    modifies db`data, db`expires, db`clocks, db.memory`used, db.Watchers()`dirty
    ensures db.Sound() && Shrunk(false, old(db.Db()), db.Db()) && db.data == old(db.data) - {key}
    ensures old(Exact(db, rest)) ==> Exact(db, rest)
    ensures forall k :: IsLive(db.Db(), k, now) <==> IsLive(old(db.Db()), k, now) && k != key
  {
    hide Total;
    if Exact(db, rest) {
      RemoveIsExact(db.memory.used, rest, db.Db(), key);
    }
    var deleted := db.Del(key);
  }

  // Samples under which a policy finds no key to evict.
  ghost predicate Fruitless(policy: Policy, db: Db, samples: seq<string>, now: int) {
    && (forall k <- samples :: k in Pool(db, policy.volatile))
    && if samples == [] then Pool(db, policy.volatile) == {} else Picks(policy.pick, db, samples, now, "")
  }

  // One database's turn: of what is alive exactly the picked key goes, and evicting really makes
  // the database smaller.
  method EvictOne(db: Database, samples: nat, policy: Policy, now: int, ghost rest: nat)
    returns (evicted: bool, ghost keys: seq<string>, ghost best: string)
    requires samples > 0 && db.Sound()
    modifies db`data, db`expires, db`clocks, db.memory`used, db.Watchers()`dirty
    ensures db.Sound() && Shrunk(policy.volatile, old(db.Db()), db.Db())
    ensures old(Exact(db, rest)) ==> Exact(db, rest)
    ensures forall k <- keys :: k in Pool(old(db.Db()), policy.volatile)
    ensures keys == [] <==> Pool(old(db.Db()), policy.volatile) == {}
    ensures if keys == [] then best == "" && !evicted else Picks(policy.pick, old(db.Db()), keys, now, best)
    ensures evicted == (best != "") && (!evicted ==> Fruitless(policy, old(db.Db()), keys, now))
    ensures forall k :: IsLive(db.Db(), k, now) <==> IsLive(old(db.Db()), k, now) && !(evicted && k == best)
    ensures evicted ==> best !in db.data && |db.data| < |old(db.data)|
    ensures !policy.volatile && (policy.pick.Random? || policy.pick.Lru?) && "" !in old(db.data) && old(db.data) != map[]
      ==> evicted
  {
    hide Total;
    hide Shrunk;
    hide Picks;
    ghost var was := db.Db();
    ShrunkRefl(policy.volatile, was);
    var samplesDrawn := RandomSample(db, samples, policy.volatile);
    keys, best := samplesDrawn, "";
    if samplesDrawn == [] {
      return false, keys, best;
    }
    var bestKey := BestKey(db, samplesDrawn, policy.pick, now, rest);
    best := bestKey;
    ShrunkAnyway(policy.volatile, was, db.Db());
    if bestKey == "" {
      return false, keys, best;
    }
    ghost var looked := db.Db();
    Remove(db, bestKey, now, rest);
    AfterRemoval(policy.volatile, was, looked, db.Db(), bestKey);
    Fewer(policy.volatile, was, db.Db(), bestKey);
    evicted := true;
  }

  lemma ShrunkAnyway(volatileOnly: bool, was: Db, db: Db)
    requires Shrunk(true, was, db)
    ensures Shrunk(volatileOnly, was, db)
  {
  }

  lemma AfterRemoval(volatileOnly: bool, was: Db, looked: Db, db: Db, key: string)
    requires Shrunk(true, was, looked) && Shrunk(false, looked, db)
    requires db.data == looked.data - {key} && (volatileOnly ==> key in was.expires)
    ensures Shrunk(volatileOnly, was, db)
  {
  }

  lemma ShrunkRefl(volatileOnly: bool, db: Db)
    ensures Shrunk(volatileOnly, db, db)
  {
  }

  lemma Fewer(volatileOnly: bool, was: Db, db: Db, key: string)
    requires Shrunk(volatileOnly, was, db) && key in was.data && key !in db.data
    ensures |db.data| < |was.data|
  {
    assert db.data.Keys < was.data.Keys;
    Smaller(db.data.Keys, was.data.Keys);
  }

  lemma {:induction false} Smaller<T>(a: set<T>, b: set<T>)
    requires a < b
    ensures |a| < |b|
    decreases |b|
  {
    var x :| x in b && x !in a;
    if a != {} {
      var y :| y in a;
      assert x in b - {y} && x !in a - {y};
      Smaller(a - {y}, b - {y});
    }
  }

  // How many keys there are.
  ghost function Count(dbs: seq<Db>): nat {
    if dbs == [] then 0 else |dbs[0].data| + Count(dbs[1..])
  }

  lemma {:induction false} CountUpdate(dbs: seq<Db>, i: nat, db: Db)
    requires i < |dbs|
    ensures Count(dbs[i := db]) == Count(dbs) - |dbs[i].data| + |db.data|
    decreases i
  {
    if i == 0 {
      assert dbs[0 := db][1..] == dbs[1..];
    } else {
      CountUpdate(dbs[1..], i - 1, db);
      assert dbs[i := db][1..] == dbs[1..][i - 1 := db];
    }
  }

  // Distinct databases on one counter.
  ghost predicate Ready(dbs: seq<Database>, memory: MemoryManager, clients: set<Client>)
    reads dbs
  {
    && (forall i, j :: 0 <= i < j < |dbs| ==> dbs[i] != dbs[j])
    && (forall i :: 0 <= i < |dbs| ==>
          dbs[i].memory == memory && dbs[i].Sound() && dbs[i].Watchers() <= clients)
  }

  // The counter is the sum over all databases.
  ghost predicate Booked(dbs: seq<Database>, memory: MemoryManager)
    reads dbs, memory`used
  {
    memory.used == TotalAll(Dbs(dbs))
  }

  ghost predicate AllShrunk(volatileOnly: bool, was: seq<Db>, dbs: seq<Db>) {
    |was| == |dbs| && forall i :: 0 <= i < |dbs| ==> Shrunk(volatileOnly, was[i], dbs[i])
  }

  // Policies that find a key wherever there is one: they take any key, with or without an expiry.
  ghost predicate Thorough(policy: Policy, dbs: seq<Db>) {
    && !policy.volatile && (policy.pick.Random? || policy.pick.Lru?)
    && forall i :: 0 <= i < |dbs| ==> "" !in dbs[i].data
  }

  lemma ShrunkTrans(volatileOnly: bool, a: Db, b: Db, c: Db)
    requires Shrunk(volatileOnly, a, b) && Shrunk(volatileOnly, b, c)
    ensures Shrunk(volatileOnly, a, c)
  {
  }

  lemma SizeShrinks(volatileOnly: bool, was: Db, db: Db)
    requires Shrunk(volatileOnly, was, db)
    ensures |db.data| <= |was.data|
  {
    if db.data.Keys < was.data.Keys {
      Smaller(db.data.Keys, was.data.Keys);
    } else {
      assert db.data.Keys == was.data.Keys;
    }
  }

  ghost predicate Emptied(dbs: seq<Db>) {
    forall i :: 0 <= i < |dbs| ==> dbs[i].data == map[]
  }

  lemma {:induction false} NothingLeft(dbs: seq<Db>)
    requires Emptied(dbs)
    ensures TotalAll(dbs) == 0
    decreases |dbs|
  {
    if dbs != [] {
      TotalOfNothing();
      NothingLeft(dbs[1..]);
    }
  }

  lemma AllShrunkTrans(volatileOnly: bool, a: seq<Db>, b: seq<Db>, c: seq<Db>)
    requires AllShrunk(volatileOnly, a, b) && AllShrunk(volatileOnly, b, c)
    ensures AllShrunk(volatileOnly, a, c)
  {
    hide Shrunk;
    forall i | 0 <= i < |a| ensures Shrunk(volatileOnly, a[i], c[i]) {
      ShrunkTrans(volatileOnly, a[i], b[i], c[i]);
    }
  }

  lemma AllShrunkRefl(volatileOnly: bool, a: seq<Db>)
    ensures AllShrunk(volatileOnly, a, a)
  {
  }

  lemma AllShrunkOne(volatileOnly: bool, was: seq<Db>, before: seq<Db>, i: nat, dbs: seq<Db>)
    requires AllShrunk(volatileOnly, was, before) && i < |was| == |dbs|
    requires forall j :: 0 <= j < |dbs| && j != i ==> dbs[j] == before[j]
    requires Shrunk(volatileOnly, before[i], dbs[i])
    ensures AllShrunk(volatileOnly, was, dbs)
  {
    hide Shrunk;
    ShrunkTrans(volatileOnly, was[i], before[i], dbs[i]);
  }

  method EvictFrom(dbs: seq<Database>, i: nat, memory: MemoryManager, samples: nat,
      policy: Policy, now: int, ghost clients: set<Client>) returns (evicted: bool, ghost draw: seq<string>)
    requires i < |dbs| && samples > 0 && Ready(dbs, memory, clients)
    modifies dbs`data, dbs`expires, dbs`clocks, memory`used, clients`dirty
    ensures Ready(dbs, memory, clients) && (old(Booked(dbs, memory)) ==> Booked(dbs, memory))
    ensures forall j :: 0 <= j < |dbs| && j != i ==> dbs[j].Db() == old(dbs[j].Db())
    ensures Shrunk(policy.volatile, old(dbs[i].Db()), dbs[i].Db())
    ensures Count(Dbs(dbs)) <= old(Count(Dbs(dbs)))
    ensures evicted ==> Count(Dbs(dbs)) < old(Count(Dbs(dbs)))
    ensures Thorough(policy, old(Dbs(dbs))) && old(dbs[i].data) != map[] ==> evicted
    ensures !evicted && old(dbs[i].data) == map[] ==> dbs[i].data == map[]
    ensures !evicted ==> Fruitless(policy, old(dbs[i].Db()), draw, now)
  {
    hide Total;
    hide TotalAll;
    hide Count;
    hide Dbs;
    hide Picks;
    hide Fruitless;
    hide IsLive;
    hide Database.Sound;
    hide Shrunk;
    ghost var was := Dbs(dbs);
    TotalAllUpdate(was, i, was[i]);
    ghost var rest := TotalAll(was) - Total(dbs[i].data);
    ghost var best;
    evicted, draw, best := EvictOne(dbs[i], samples, policy, now, rest);
    TotalAllUpdate(was, i, dbs[i].Db());
    CountUpdate(was, i, dbs[i].Db());
    SizeShrinks(policy.volatile, was[i], dbs[i].Db());
    assert Dbs(dbs) == was[i := dbs[i].Db()];
  }

  // No database has anything to offer.
  ghost predicate Barren(policy: Policy, dbs: seq<Db>, draws: seq<seq<string>>, now: int) {
    |draws| == |dbs| && forall i :: 0 <= i < |dbs| ==> Fruitless(policy, dbs[i], draws[i], now)
  }

  // One pass over the databases, left early once enough is freed.
  method EvictPass(dbs: seq<Database>, memory: MemoryManager, target: nat, samples: nat,
      policy: Policy, now: int, ghost clients: set<Client>) returns (evicted: bool, ghost draws: seq<seq<string>>)
    requires samples > 0 && Ready(dbs, memory, clients)
    modifies dbs`data, dbs`expires, dbs`clocks, memory`used, clients`dirty
    ensures Ready(dbs, memory, clients) && (old(Booked(dbs, memory)) ==> Booked(dbs, memory))
    ensures AllShrunk(policy.volatile, old(Dbs(dbs)), Dbs(dbs))
    ensures evicted ==> Count(Dbs(dbs)) < old(Count(Dbs(dbs)))
    ensures !evicted && memory.used > target ==> Barren(policy, old(Dbs(dbs)), draws, now)
    ensures Thorough(policy, old(Dbs(dbs))) && !evicted && memory.used > target ==> Emptied(Dbs(dbs))
  {
    hide Count;
    hide Dbs;
    hide Grounded;
    hide Ready;
    hide Booked;
    hide AllShrunk;
    hide Shrunk;
    hide Thorough;
    hide Fruitless;
    evicted, draws := false, [];
    ghost var was := Dbs(dbs);
    AllShrunkRefl(policy.volatile, was);
    for i := 0 to |dbs|
      invariant Ready(dbs, memory, clients) && AllShrunk(policy.volatile, was, Dbs(dbs))
      invariant old(Booked(dbs, memory)) ==> Booked(dbs, memory)
      invariant Count(Dbs(dbs)) <= Count(was) && (evicted ==> Count(Dbs(dbs)) < Count(was))
      invariant forall j :: i <= j < |dbs| ==> dbs[j].Db() == was[j]
      invariant !evicted ==> |draws| == i && forall j :: 0 <= j < i ==> Fruitless(policy, was[j], draws[j], now)
      invariant Thorough(policy, was) && !evicted ==> forall j :: 0 <= j < i ==> dbs[j].data == map[]
    {
      if memory.used <= target {
        return;
      }
      ghost var before := Dbs(dbs);
      ThoroughStill(policy.volatile, policy, was, before);
      ghost var draw;
      var more;
      more, draw := EvictFrom(dbs, i, memory, samples, policy, now, clients);
      draws := draws + [draw];
      AllShrunkOne(policy.volatile, was, before, i, Dbs(dbs));
      evicted := evicted || more;
    }
  }

  lemma ThoroughStill(volatileOnly: bool, policy: Policy, was: seq<Db>, dbs: seq<Db>)
    requires AllShrunk(volatileOnly, was, dbs)
    ensures Thorough(policy, was) ==> Thorough(policy, dbs)
  {
  }

  // The loop ends because every pass that goes on has removed a key, and a counter that is exact
  // stays so. It gives up with too much stored only after a pass, over the databases as they were
  // in last, in which no draw offered a key. Policies that overlook no key give up only when
  // nothing is left, and never if the counter is exact.
  method EvictUntil(dbs: seq<Database>, memory: MemoryManager, target: nat, samples: nat,
      policy: Policy, now: int, ghost clients: set<Client>)
    returns (ghost last: seq<Db>, ghost draws: seq<seq<string>>)
    requires samples > 0 && Ready(dbs, memory, clients)
    modifies dbs`data, dbs`expires, dbs`clocks, memory`used, clients`dirty
    ensures Ready(dbs, memory, clients) && (old(Booked(dbs, memory)) ==> Booked(dbs, memory))
    ensures AllShrunk(policy.volatile, old(Dbs(dbs)), last) && AllShrunk(policy.volatile, last, Dbs(dbs))
    ensures old(memory.used) <= target ==> Dbs(dbs) == old(Dbs(dbs)) && memory.used == old(memory.used)
    ensures memory.used > target ==> Barren(policy, last, draws, now)
    ensures memory.used > target && Thorough(policy, old(Dbs(dbs))) ==>
      Emptied(Dbs(dbs)) && !old(Booked(dbs, memory))
  {
    hide Count;
    hide Ready;
    hide Thorough;
    hide Dbs;
    hide Barren;
    hide AllShrunk;
    hide Emptied;
    ghost var was := Dbs(dbs);
    last, draws := was, [];
    AllShrunkRefl(policy.volatile, was);
    while memory.used > target
      invariant Ready(dbs, memory, clients) && AllShrunk(policy.volatile, was, Dbs(dbs))
      invariant old(Booked(dbs, memory)) ==> Booked(dbs, memory)
      invariant old(memory.used) <= target ==> memory.used == old(memory.used) && Dbs(dbs) == was
      decreases Count(Dbs(dbs))
    {
      last := Dbs(dbs);
      ThoroughStill(policy.volatile, policy, was, last);
      var evicted;
      evicted, draws := EvictPass(dbs, memory, target, samples, policy, now, clients);
      AllShrunkTrans(policy.volatile, was, last, Dbs(dbs));
      if !evicted {
        if Emptied(Dbs(dbs)) {
          NothingLeft(Dbs(dbs));
        }
        return;
      }
    }
    last := Dbs(dbs);
    AllShrunkRefl(policy.volatile, last);
  }

  // ---------- The configured policy ----------

  // std::string::find finds it.
  predicate Contains(text: string, part: string)
    decreases |text|
  {
    part <= text || (text != "" && Contains(text[1..], part))
  }

  // Whatever names no other policy is read as LRU on all keys.
  function PolicyOf(text: string): Policy {
    Policy("volatile" <= text,
      if Contains(text, "random") then Random
      else if text == "volatile-ttl" then Ttl
      else if Contains(text, "lfu") then Lfu
      else Lru)
  }

  datatype Config = Config(maxMemory: nat, policy: string, samples: int)

  method EvictKeysIfNeeded(dbs: seq<Database>, memory: MemoryManager, config: Config, now: int, ghost clients: set<Client>)
    returns (ghost last: seq<Db>, ghost draws: seq<seq<string>>)
    requires Ready(dbs, memory, clients)
    modifies dbs`data, dbs`expires, dbs`clocks, memory`used, clients`dirty
    ensures Ready(dbs, memory, clients) && (old(Booked(dbs, memory)) ==> Booked(dbs, memory))
    ensures AllShrunk("volatile" <= config.policy, old(Dbs(dbs)), last)
    ensures AllShrunk("volatile" <= config.policy, last, Dbs(dbs))
    ensures config.maxMemory == 0 || config.policy == "noeviction" || old(memory.used) <= config.maxMemory ==>
      Dbs(dbs) == old(Dbs(dbs)) && memory.used == old(memory.used)
    ensures config.maxMemory > 0 && config.policy != "noeviction" && memory.used > config.maxMemory ==>
      && Barren(PolicyOf(config.policy), last, draws, now)
      && (Thorough(PolicyOf(config.policy), old(Dbs(dbs))) ==> Emptied(Dbs(dbs)) && !old(Booked(dbs, memory)))
  {
    hide Ready;
    hide Booked;
    hide Thorough;
    hide Dbs;
    hide Barren;
    hide AllShrunk;
    hide Emptied;
    hide PolicyOf;
    last, draws := Dbs(dbs), [];
    AllShrunkRefl("volatile" <= config.policy, last);
    if config.maxMemory == 0 || config.policy == "noeviction" {
      return;
    }
    var samples: nat := if config.samples > 0 then config.samples else 5;
    VolatileIsRead(config.policy);
    last, draws := EvictUntil(dbs, memory, config.maxMemory, samples, PolicyOf(config.policy), now, clients);
  }

  lemma VolatileIsRead(text: string)
    ensures PolicyOf(text).volatile <==> "volatile" <= text
  {
  }

  lemma {:induction false} ContainsAt(text: string, part: string, i: nat)
    requires i <= |text| && part <= text[i..]
    ensures Contains(text, part)
    decreases i
  {
    if i > 0 {
      assert text[1..][i - 1..] == text[i..];
      ContainsAt(text[1..], part, i - 1);
    }
  }

  lemma {:induction false} ContainsNot(text: string, part: string, c: char)
    requires c in part && c !in text
    ensures !Contains(text, part)
    decreases |text|
  {
    if text != "" {
      ContainsNot(text[1..], part, c);
    }
  }

  // The usual names of the policies, as they are read.
  lemma LruIsRead()
    ensures PolicyOf("allkeys-lru") == Policy(false, Lru) && PolicyOf("volatile-lru") == Policy(true, Lru)
  {
    hide Contains;
    assert "random"[5] == 'm' && "lfu"[1] == 'f';
    assert "volatile-lru"[..8] == "volatile" && "allkeys-lru"[0] == 'a';
    assert "volatile-ttl"[9] == 't' && "volatile-lru"[9] == 'l';
    ContainsNot("allkeys-lru", "random", 'm');
    ContainsNot("allkeys-lru", "lfu", 'f');
    ContainsNot("volatile-lru", "random", 'm');
    ContainsNot("volatile-lru", "lfu", 'f');
  }

  lemma LfuIsRead()
    ensures PolicyOf("allkeys-lfu") == Policy(false, Lfu) && PolicyOf("volatile-lfu") == Policy(true, Lfu)
  {
    hide Contains;
    assert "random"[5] == 'm';
    assert "volatile-lfu"[..8] == "volatile" && "allkeys-lfu"[0] == 'a';
    assert "volatile-ttl"[9] == 't' && "volatile-lfu"[9] == 'l';
    ContainsNot("allkeys-lfu", "random", 'm');
    ContainsNot("volatile-lfu", "random", 'm');
    ContainsAt("allkeys-lfu", "lfu", 8);
    ContainsAt("volatile-lfu", "lfu", 9);
  }

  lemma RandomAndTtlAreRead()
    ensures PolicyOf("allkeys-random") == Policy(false, Random) && PolicyOf("volatile-random") == Policy(true, Random)
    ensures PolicyOf("volatile-ttl") == Policy(true, Ttl)
  {
    hide Contains;
    assert "random"[5] == 'm';
    assert "volatile-random"[..8] == "volatile" && "allkeys-random"[0] == 'a' && "volatile-ttl"[..8] == "volatile";
    ContainsAt("allkeys-random", "random", 8);
    ContainsAt("volatile-random", "random", 9);
    ContainsNot("volatile-ttl", "random", 'm');
  }
}

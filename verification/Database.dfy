// A client's fields and a database's tables, changed in place.

module Databases {
  import opened Wrappers
  import opened Keyspace
  import opened Maps
  import opened Stores
  import opened Memory
  import opened Registries
  import Expiry
  import Globs
  import W = World
  import Seqs

  ghost predicate Selects(db: Db, pattern: string, now: int, key: string) {
    !Expired(db, key, now) && (pattern == "*" || Globs.Accepts(pattern, key))
  }

  class Client {
    var multi: bool
    var dirty: bool
    var queue: seq<W.Command>
    var watched: set<string>
    var selected: nat
    var channels: set<string>
    var patterns: set<string>
    var blocked: bool
    var blockedKeys: seq<string>
    var blockCmd: Option<W.Pop>
    var deadline: int

    constructor ()
      ensures State() == W.NEW_CLIENT
    {
      multi, dirty, queue, watched, selected := false, false, [], {}, 0;
      channels, patterns := {}, {};
      blocked, blockedKeys, blockCmd, deadline := false, [], None, 0;
    }

    ghost function State(): W.ClientState
      reads this
    {
      W.ClientState(multi, dirty, queue, watched, selected, channels, patterns,
        blocked, blockedKeys, blockCmd, deadline)
    }

    method ClearTransaction()
      modifies this`queue, this`multi, this`dirty
      ensures State() == W.Cleared(old(State()))
    {
      queue := [];
      multi := false;
      dirty := false;
    }

    method ClearBlockState()
      modifies this`blocked, this`blockedKeys, this`blockCmd, this`deadline
      ensures State() == W.Awake(old(State()))
    {
      blockedKeys := [];
      deadline := 0;
      blockCmd := None;
      blocked := false;
    }
  }

  class Database {
    var data: map<string, Value>
    var expires: map<string, int>
    var clocks: map<string, Clock>
    var watchedKeys: Registry<string, Client>
    const memory: MemoryManager

    constructor (memory: MemoryManager)
      ensures Db() == EMPTY && clocks == map[] && watchedKeys == map[] && this.memory == memory
      ensures Sound()
    {
      data, expires, clocks, watchedKeys := map[], map[], map[], map[];
      this.memory := memory;
    }

    ghost function Db(): Db
      reads this`data, this`expires
    {
      Keyspace.Db(data, expires)
    }

    // What every operation keeps: expiries are of stored keys, and so are clocks.
    ghost predicate Sound()
      reads this`data, this`expires, this`clocks
    {
      Grounded(Db()) && clocks.Keys == data.Keys
    }

    ghost function Store(): W.Store<Client>
      reads this`data, this`expires, this`watchedKeys
    {
      W.Store(Db(), watchedKeys)
    }

    ghost function Watchers(): set<Client>
      reads this`watchedKeys
    {
      set k, c | k in watchedKeys && c in watchedKeys[k] :: c
    }

    // ---------- Watchers ----------

    method TouchWatchedKey(key: string)
      modifies Watchers()`dirty
      ensures forall c <- Watchers() :: c.dirty == (old(c.dirty) || In(watchedKeys, key, c))
    {
      if key in watchedKeys {
        var clients := watchedKeys[key];
        for i := 0 to |clients|
          invariant forall c <- Watchers() :: c.dirty == (old(c.dirty) || c in clients[..i])
        {
          assert key in watchedKeys && clients[i] in watchedKeys[key];
          assert clients[i] in Watchers();
          assert clients[..i + 1] == clients[..i] + [clients[i]];
          clients[i].dirty := true;
        }
        assert clients[..|clients|] == clients;
      }
    }

    method AddWatchedKey(key: string, client: Client)
      modifies this`watchedKeys
      ensures watchedKeys == Register(old(watchedKeys), key, client)
    {
      watchedKeys := watchedKeys[key := (if key in watchedKeys then watchedKeys[key] else []) + [client]];
    }

    method RemoveWatchedKey(key: string, client: Client)
      modifies this`watchedKeys
      ensures watchedKeys == Deregister(old(watchedKeys), key, client)
    {
      if key in watchedKeys {
        var clients := Without(watchedKeys[key], client);
        if clients == [] {
          watchedKeys := watchedKeys - {key};
        } else {
          watchedKeys := watchedKeys[key := clients];
        }
      }
    }

    // ---------- Storing and removing ----------

    method Forget(key: string)
      requires key in data
      modifies this`data, this`clocks, memory`used
      ensures data == old(data) - {key} && clocks == old(clocks) - {key}
      ensures memory.used == BookRemove(old(memory.used), old(Db()), key)
    {
      hide EstimateObjectSize;
      memory.FreeMemory(EstimateObjectSize(data[key]));
      memory.FreeMemory(EstimateStringSize(key));
      data := data - {key};
      clocks := clocks - {key};
    }

    method SetObject(key: string, value: Value)
      modifies this`data, this`expires, this`clocks, memory`used, Watchers()`dirty
      ensures Db() == Apply(old(Db()), Assign(key, value))
      ensures clocks == Stamp(old(clocks), old(Db()), Assign(key, value), memory.lruClock)
      ensures memory.used == Book(old(memory.used), old(Db()), Assign(key, value), [])
      ensures forall c <- Watchers() :: c.dirty == (old(c.dirty) || W.Hit(old(Store()), Assign(key, value), c))
    {
      hide EstimateObjectSize;
      if key in data {
        memory.FreeMemory(EstimateObjectSize(data[key]));
      } else {
        memory.AddMemory(EstimateStringSize(key));
      }
      memory.AddMemory(EstimateObjectSize(value));
      data := data[key := value];
      clocks := clocks[key := memory.lruClock];
      expires := expires - {key};
      TouchWatchedKey(key);
      HitsOneKey(old(Store()), Assign(key, value), key, true);
    }

    method SetString(key: string, text: string)
      modifies this`data, this`expires, this`clocks, memory`used, Watchers()`dirty
      ensures Db() == Apply(old(Db()), Op.Set(key, text))
      ensures clocks == Stamp(old(clocks), old(Db()), Op.Set(key, text), memory.lruClock)
      ensures memory.used == Book(old(memory.used), old(Db()), Op.Set(key, text), [])
      ensures forall c <- Watchers() :: c.dirty == (old(c.dirty) || W.Hit(old(Store()), Op.Set(key, text), c))
    {
      hide EstimateObjectSize;
      var value := Str(text);
      if key in data {
        memory.FreeMemory(EstimateObjectSize(data[key]));
      } else {
        memory.AddMemory(EstimateStringSize(key));
      }
      memory.AddMemory(EstimateObjectSize(value));
      data := data[key := value];
      clocks := clocks[key := memory.lruClock];
      expires := expires - {key};
      TouchWatchedKey(key);
      HitsOneKey(old(Store()), Op.Set(key, text), key, true);
    }

    method Del(key: string) returns (deleted: bool)
      modifies this`data, this`expires, this`clocks, memory`used, Watchers()`dirty
      ensures deleted == (key in old(data))
      ensures Db() == Apply(old(Db()), Op.Del(key))
      ensures clocks == Stamp(old(clocks), old(Db()), Op.Del(key), memory.lruClock)
      ensures memory.used == Book(old(memory.used), old(Db()), Op.Del(key), [])
      ensures forall c <- Watchers() :: c.dirty == (old(c.dirty) || W.Hit(old(Store()), Op.Del(key), c))
    {
      hide EstimateObjectSize;
      expires := expires - {key};
      HitsOneKey(old(Store()), Op.Del(key), key, key in data);
      if key !in data {
        return false;
      }
      Forget(key);
      TouchWatchedKey(key);
      deleted := true;
    }

    method Rename(oldKey: string, newKey: string) returns (renamed: bool)
      modifies this`data, this`expires, this`clocks, memory`used, Watchers()`dirty
      ensures renamed == (oldKey in old(data))
      ensures Db() == Apply(old(Db()), Op.Rename(oldKey, newKey))
      ensures clocks == Stamp(old(clocks), old(Db()), Op.Rename(oldKey, newKey), memory.lruClock)
      ensures memory.used == Book(old(memory.used), old(Db()), Op.Rename(oldKey, newKey), [])
      ensures forall c <- Watchers() :: c.dirty == (old(c.dirty) || W.Hit(old(Store()), Op.Rename(oldKey, newKey), c))
    {
      hide EstimateObjectSize;
      if oldKey !in data {
        return false;
      }
      assert oldKey !in expires ==> expires - {oldKey} == expires;
      var value := data[oldKey];
      Forget(oldKey);
      var expiry := -1;
      if oldKey in expires {
        expiry := expires[oldKey];
        expires := expires - {oldKey};
      }
      if expiry >= 0 {
        expires := expires[newKey := expiry];
      }
      TouchWatchedKey(oldKey);
      ghost var moved := Store();
      SetObject(newKey, value);
      HitsTwoKeys(old(Store()), moved, oldKey, newKey, value);
      renamed := true;
    }

    method Append(key: string, text: string) returns (size: Option<nat>)
      modifies this`data, this`expires, this`clocks, memory`used, Watchers()`dirty
      ensures if key in old(data) && !old(data)[key].Str? then size == None
              else key in data && data[key].Str? && size == Some(|data[key].text|)
      ensures Db() == Apply(old(Db()), Op.Append(key, text))
      ensures clocks == Stamp(old(clocks), old(Db()), Op.Append(key, text), memory.lruClock)
      ensures memory.used == Book(old(memory.used), old(Db()), Op.Append(key, text), [])
      ensures forall c <- Watchers() :: c.dirty == (old(c.dirty) || W.Hit(old(Store()), Op.Append(key, text), c))
    {
      hide EstimateObjectSize;
      hide BookStore;
      HitsOneKey(old(Store()), Op.Append(key, text), key, key !in data);
      HitsOneKey(old(Store()), Op.Set(key, text), key, true);
      if key in data {
        if !data[key].Str? {
          return None;
        }
        memory.FreeMemory(EstimateObjectSize(data[key]));
        data := data[key := Str(data[key].text + text)];
        clocks := clocks[key := memory.lruClock];
        memory.AddMemory(EstimateObjectSize(data[key]));
        size := Some(|data[key].text|);
      } else {
        SetString(key, text);
        size := Some(|text|);
      }
    }

    // ---------- Expiry ----------

    method CheckAndExpire(key: string, now: int) returns (expired: bool)
      modifies this`data, this`expires, this`clocks, memory`used, Watchers()`dirty
      ensures expired == Expired(old(Db()), key, now)
      ensures Db() == Apply(old(Db()), Expire(key, now))
      ensures clocks == Stamp(old(clocks), old(Db()), Expire(key, now), memory.lruClock)
      ensures memory.used == Book(old(memory.used), old(Db()), Expire(key, now), [])
      ensures forall c <- Watchers() :: c.dirty == (old(c.dirty) || W.Hit(old(Store()), Expire(key, now), c))
    {
      hide EstimateObjectSize;
      hide BookRemove;
      HitsOneKey(old(Store()), Expire(key, now), key, key in data && Expired(Db(), key, now));
      expired := key in expires && now >= expires[key];
      if expired {
        if key in data {
          Forget(key);
          TouchWatchedKey(key);
        } else {
          NothingToBook(memory.used, Db(), key);
        }
        expires := expires - {key};
      }
    }

    lemma NothingToBook(used: nat, db: Db, key: string)
      requires key !in db.data
      ensures BookRemove(used, db, key) == used && db.data - {key} == db.data
    {
    }

    // The sampling cron: up to maxSamples keys with an expiry, in the order of the table.
    method ActiveExpireCycle(maxSamples: nat, now: int) returns (ghost keys: seq<string>)
      modifies this`data, this`expires, this`clocks, memory`used, Watchers()`dirty
      ensures |keys| <= maxSamples && Seqs.Distinct(keys) && forall k <- keys :: k in old(expires)
      ensures |keys| < maxSamples ==> forall k <- old(expires) :: k in keys
      ensures Db() == Apply(old(Db()), Cycle(keys, now))
      ensures clocks == Stamp(old(clocks), old(Db()), Cycle(keys, now), memory.lruClock)
      ensures old(Sound()) ==> Sound()
      ensures memory.used == Book(old(memory.used), old(Db()), Cycle(keys, now), [])
      ensures forall c <- Watchers() :: c.dirty == (old(c.dirty) || W.Hit(old(Store()), Cycle(keys, now), c))
    {
      hide EstimateObjectSize;
      hide Apply;
      hide BookAll;
      hide BookRemove;
      hide Stamp;
      keys := [];
      CycleClocksNothing(clocks, Db(), now, memory.lruClock);
      var left := expires.Keys;
      var sampled := 0;
      CycleNothing(Store(), memory.used, now);
      while left != {} && sampled < maxSamples
        invariant sampled == |keys| <= maxSamples && Seqs.Distinct(keys)
        invariant left <= expires.Keys <= old(expires).Keys && left == old(expires).Keys - set k | k in keys
        invariant forall k <- keys :: k in old(expires)
        invariant forall k <- left :: expires[k] == old(expires)[k]
        invariant Db() == Apply(old(Db()), Cycle(keys, now))
        invariant clocks == Stamp(old(clocks), old(Db()), Cycle(keys, now), memory.lruClock)
        invariant memory.used == BookAll(old(memory.used), old(Db()), keys, now)
        invariant forall c <- Watchers() :: c.dirty == (old(c.dirty) || W.Hit(old(Store()), Cycle(keys, now), c))
      {
        var key :| key in left;
        left := left - {key};
        sampled := sampled + 1;
        CycleOneMore(old(Store()), old(memory.used), keys, key, now);
        CycleClocks(old(clocks), old(Db()), keys, key, now, memory.lruClock);
        ghost var before := Db();
        if now >= expires[key] {
          if key in data {
            Forget(key);
            TouchWatchedKey(key);
          } else {
            NothingToBook(memory.used, Db(), key);
          }
          expires := expires - {key};
        }
        keys := keys + [key];
      }
      if old(Sound()) {
        StaysSound(old(Db()), old(clocks), Cycle(keys, now), memory.lruClock);
      }
      forall k <- old(expires) ensures sampled < maxSamples ==> k in keys {
        assert k in left || k in keys;
      }
    }

    method SetExpiry(key: string, milliseconds: int, now: int) returns (found: bool)
      modifies this`expires
      ensures found == (key in data) && Db() == Apply(old(Db()), ExpireAt(key, now + milliseconds))
    {
      if key !in data {
        return false;
      }
      expires := expires[key := now + milliseconds];
      found := true;
    }

    method SetExpiryAt(key: string, timestamp: int) returns (found: bool)
      modifies this`expires
      ensures found == (key in data) && Db() == Apply(old(Db()), ExpireAt(key, timestamp))
    {
      if key !in data {
        return false;
      }
      expires := expires[key := timestamp];
      found := true;
    }

    method PersistKey(key: string) returns (removed: bool)
      modifies this`expires
      ensures removed == (key in old(expires)) && Db() == Apply(old(Db()), Persist(key))
    {
      removed := key in expires;
      expires := expires - {key};
    }

    // ---------- Reading ----------

    method Get(key: string, now: int) returns (text: Option<string>)
      modifies this`data, this`expires, this`clocks, memory`used, Watchers()`dirty
      ensures Expiry.Text(text) == Expiry.Reply(old(Db()), Expiry.Get(key), now)
      ensures Db() == Expiry.After(old(Db()), Expiry.Get(key), now)
      ensures clocks == Viewed(old(clocks), old(Db()), key, now, memory.lruClock) && (old(Sound()) ==> Sound())
      ensures memory.used == Book(old(memory.used), old(Db()), Expire(key, now), [])
      ensures forall c <- Watchers() :: c.dirty == (old(c.dirty) || W.Hit(old(Store()), Expire(key, now), c))
    {
      var expired := CheckAndExpire(key, now);
      if expired || key !in data {
        return None;
      }
      clocks := clocks[key := memory.lruClock];
      text := if data[key].Str? then Some(data[key].text) else None;
    }

    method GetObject(key: string, now: int) returns (value: Option<Value>)
      modifies this`data, this`expires, this`clocks, memory`used, Watchers()`dirty
      ensures Expiry.Object(value) == Expiry.Reply(old(Db()), Expiry.GetObject(key), now)
      ensures Db() == Expiry.After(old(Db()), Expiry.GetObject(key), now)
      ensures clocks == Viewed(old(clocks), old(Db()), key, now, memory.lruClock) && (old(Sound()) ==> Sound())
      ensures memory.used == Book(old(memory.used), old(Db()), Expire(key, now), [])
      ensures forall c <- Watchers() :: c.dirty == (old(c.dirty) || W.Hit(old(Store()), Expire(key, now), c))
    {
      var expired := CheckAndExpire(key, now);
      if expired || key !in data {
        return None;
      }
      clocks := clocks[key := memory.lruClock];
      value := Some(data[key]);
    }

    // The same lookup for a handler that goes on to write through the pointer.
    method GetObjectForWrite(key: string, now: int) returns (value: Option<Value>)
      modifies this`data, this`expires, this`clocks, memory`used, Watchers()`dirty
      ensures Expiry.Object(value) == Expiry.Reply(old(Db()), Expiry.GetObject(key), now)
      ensures Db() == Apply(old(Db()), Expire(key, now))
      ensures clocks == Viewed(old(clocks), old(Db()), key, now, memory.lruClock) && (old(Sound()) ==> Sound())
      ensures memory.used == Book(old(memory.used), old(Db()), Expire(key, now), [])
      ensures forall c <- Watchers() :: c.dirty == (old(c.dirty) || W.Hit(old(Store()), Expire(key, now), c))
    {
      var expired := CheckAndExpire(key, now);
      if expired || key !in data {
        return None;
      }
      clocks := clocks[key := memory.lruClock];
      value := Some(data[key]);
    }

    method Exists(key: string, now: int) returns (found: bool)
      modifies this`data, this`expires, this`clocks, memory`used, Watchers()`dirty
      ensures Expiry.Flag(found) == Expiry.Reply(old(Db()), Expiry.Exists(key), now)
      ensures Db() == Expiry.After(old(Db()), Expiry.Exists(key), now)
      ensures clocks == Stamp(old(clocks), old(Db()), Expire(key, now), memory.lruClock) && (old(Sound()) ==> Sound())
      ensures memory.used == Book(old(memory.used), old(Db()), Expire(key, now), [])
      ensures forall c <- Watchers() :: c.dirty == (old(c.dirty) || W.Hit(old(Store()), Expire(key, now), c))
    {
      var expired := CheckAndExpire(key, now);
      found := !expired && key in data;
    }

    method Type(key: string, now: int) returns (name: string)
      modifies this`data, this`expires, this`clocks, memory`used, Watchers()`dirty
      ensures Expiry.Name(name) == Expiry.Reply(old(Db()), Expiry.Type(key), now)
      ensures Db() == Expiry.After(old(Db()), Expiry.Type(key), now)
      ensures clocks == Stamp(old(clocks), old(Db()), Expire(key, now), memory.lruClock) && (old(Sound()) ==> Sound())
      ensures memory.used == Book(old(memory.used), old(Db()), Expire(key, now), [])
      ensures forall c <- Watchers() :: c.dirty == (old(c.dirty) || W.Hit(old(Store()), Expire(key, now), c))
    {
      var expired := CheckAndExpire(key, now);
      name := if expired || key !in data then "none" else Expiry.TypeString(data[key]);
    }

    method PttlOf(key: string, now: int) returns (time: int)
      ensures Expiry.Time(time) == Expiry.Reply(Db(), Expiry.Pttl(key), now)
    {
      if key !in data {
        return -2;
      }
      if key !in expires {
        return -1;
      }
      var remaining := expires[key] - now;
      time := if remaining <= 0 then -2 else remaining;
    }

    // The keys a pattern selects, in the order of the table; expired keys are left out but stay.
    method Keys(pattern: string, now: int) returns (keys: seq<string>)
      ensures Lists(keys, set k | k in data && Selects(Db(), pattern, now, k))
    {
      keys := [];
      var left := data.Keys;
      while left != {}
        invariant left <= data.Keys
        invariant forall k :: k in keys <==> k in data && k !in left && Selects(Db(), pattern, now, k)
        invariant forall j, l :: 0 <= j < l < |keys| ==> keys[j] != keys[l]
        decreases left
      {
        var key :| key in left;
        left := left - {key};
        if key in expires && now >= expires[key] {
          continue;
        }
        var matched := pattern == "*";
        if !matched {
          matched := Globs.GlobMatch(pattern, key);
        }
        if matched {
          keys := keys + [key];
        }
      }
    }

    // ---------- All at once ----------

    method FlushDb() returns (ghost order: seq<string>)
      modifies this`data, this`expires, this`clocks, memory`used, Watchers()`dirty
      ensures Lists(order, old(data).Keys)
      ensures Db() == Apply(old(Db()), Flush) && clocks == map[]
      ensures memory.used == Book(old(memory.used), old(Db()), Flush, order)
      ensures forall c <- Watchers() :: c.dirty == (old(c.dirty) || W.Hit(old(Store()), Flush, c))
    {
      order := FreeAll();
      TouchAll();
      data, expires, clocks := map[], map[], map[];
      HitsEveryKey(old(Store()), old(Watchers()));
    }

    method FreeAll() returns (ghost order: seq<string>)
      modifies memory`used
      ensures Lists(order, data.Keys)
      ensures memory.used == BookFlush(old(memory.used), Db(), order)
    {
      hide EstimateObjectSize;
      order := [];
      var left := data.Keys;
      while left != {}
        invariant left <= data.Keys
        invariant forall k :: k in order <==> k in data && k !in left
        invariant forall j, l :: 0 <= j < l < |order| ==> order[j] != order[l]
        invariant memory.used == BookFlush(old(memory.used), Db(), order)
      {
        var key :| key in left;
        left := left - {key};
        BookFlushOneMore(old(memory.used), Db(), order, key);
        memory.FreeMemory(EstimateObjectSize(data[key]));
        memory.FreeMemory(EstimateStringSize(key));
        order := order + [key];
      }
    }

    method TouchAll()
      modifies Watchers()`dirty
      ensures forall c <- Watchers() :: c.dirty
    {
      var left := watchedKeys.Keys;
      while left != {}
        invariant left <= watchedKeys.Keys
        invariant forall k <- watchedKeys :: k !in left ==> forall c <- watchedKeys[k] :: c.dirty
        invariant forall c <- Watchers() :: old(c.dirty) ==> c.dirty
      {
        var key :| key in left;
        left := left - {key};
        ghost var flags := map c | c in Watchers() :: c.dirty;
        TouchWatchedKey(key);
        forall k, c | k in watchedKeys && k !in left && c in watchedKeys[k] ensures c.dirty {
          assert c in Watchers();
          assert In(watchedKeys, k, c);
        }
      }
    }

    // A handler that writes through the pointer of getObjectForWrite.
    method WriteInPlace(key: string, value: Value)
      modifies this`data, this`clocks
      ensures Db() == Apply(old(Db()), InPlace(key, value))
      ensures clocks == Stamp(old(clocks), old(Db()), InPlace(key, value), memory.lruClock)
    {
      if key in data {
        data := data[key := value];
        clocks := clocks[key := memory.lruClock];
      }
    }

    // The operation of a command; order is the visiting order of a flush.
    method Perform(op: Op) returns (ghost order: seq<string>)
      requires !op.Cycle?
      modifies this`data, this`expires, this`clocks, memory`used, Watchers()`dirty
      ensures Db() == Apply(old(Db()), op)
      ensures clocks == Stamp(old(clocks), old(Db()), op, memory.lruClock) && (old(Sound()) ==> Sound())
      ensures memory.used == Book(old(memory.used), old(Db()), op, order)
      ensures op.Flush? ==> Lists(order, old(data).Keys)
      ensures forall c <- Watchers() :: c.dirty == (old(c.dirty) || W.Hit(old(Store()), op, c))
    {
      hide Apply;
      hide BookStore;
      hide BookRemove;
      hide BookFlush;
      hide BookAppend;
      hide BookRename;
      order := [];
      if Sound() {
        StaysSound(Db(), clocks, op, memory.lruClock);
      }
      match op {
        case Set(key, text) => SetString(key, text);
        case Assign(key, value) => SetObject(key, value);
        case Del(key) => var deleted := Del(key);
        case Rename(oldKey, newKey) => var renamed := Rename(oldKey, newKey);
        case Append(key, text) => var size := Append(key, text);
        case Flush => order := FlushDb();
        case Expire(key, now) => var expired := CheckAndExpire(key, now);
        case ExpireAt(key, at) => var found := SetExpiryAt(key, at);
        case Persist(key) => var removed := PersistKey(key);
        case InPlace(key, value) => WriteInPlace(key, value);
      }
    }
  }

  lemma StaysSound(db: Db, clocks: map<string, Clock>, op: Op, clock: Clock)
    requires Grounded(db) && clocks.Keys == db.data.Keys
    ensures Grounded(Apply(db, op)) && Stamp(clocks, db, op, clock).Keys == Apply(db, op).data.Keys
  {
    ApplyKeepsGrounded(db, op);
    ClocksFollowKeys(clocks, db, op, clock);
  }

  // An operation that touches one key, if it does.
  lemma HitsOneKey(s: W.Store<Client>, op: Op, key: string, touched: bool)
    requires forall k :: Touches(s.db, op, k) <==> touched && k == key
    ensures forall c: Client :: W.Hit(s, op, c) <==> touched && In(s.watchers, key, c)
  {
    hide Touches;
    hide In;
    forall c: Client ensures W.Hit(s, op, c) <==> touched && In(s.watchers, key, c) {
      if touched && In(s.watchers, key, c) {
        assert Touches(s.db, op, key);
      }
    }
  }

  lemma HitsTwoKeys(s: W.Store<Client>, moved: W.Store<Client>, oldKey: string, newKey: string, value: Value)
    requires oldKey in s.db.data && s.watchers == moved.watchers
    ensures forall c: Client :: W.Hit(s, Op.Rename(oldKey, newKey), c) <==>
      In(s.watchers, oldKey, c) || W.Hit(moved, Assign(newKey, value), c)
  {
    hide In;
    HitsOneKey(moved, Assign(newKey, value), newKey, true);
    forall c: Client
      ensures W.Hit(s, Op.Rename(oldKey, newKey), c) <==> In(s.watchers, oldKey, c) || In(s.watchers, newKey, c)
    {
      if In(s.watchers, oldKey, c) {
        assert Touches(s.db, Op.Rename(oldKey, newKey), oldKey);
      }
      if In(s.watchers, newKey, c) {
        assert Touches(s.db, Op.Rename(oldKey, newKey), newKey);
      }
    }
  }

  lemma CycleNothing(s: W.Store<Client>, used: nat, now: int)
    ensures Apply(s.db, Cycle([], now)) == s.db && BookAll(used, s.db, [], now) == used
    ensures forall c: Client :: !W.Hit(s, Cycle([], now), c)
  {
    assert s.db.data - Due(s.db, [], now) == s.db.data && s.db.expires - Due(s.db, [], now) == s.db.expires;
  }

  lemma CycleOneMore(s: W.Store<Client>, used: nat, keys: seq<string>, key: string, now: int)
    requires key !in keys
    ensures var before := Apply(s.db, Cycle(keys, now));
      && Apply(s.db, Cycle(keys + [key], now)) ==
           (if Expired(s.db, key, now) then Db(before.data - {key}, before.expires - {key}) else before)
      && BookAll(used, s.db, keys + [key], now) ==
           (if Expired(s.db, key, now) then BookRemove(BookAll(used, s.db, keys, now), before, key)
            else BookAll(used, s.db, keys, now))
      && (key in before.data <==> key in s.db.data)
    ensures forall c: Client :: W.Hit(s, Cycle(keys + [key], now), c) <==>
      W.Hit(s, Cycle(keys, now), c) || (Expired(s.db, key, now) && key in s.db.data && In(s.watchers, key, c))
  {
    hide BookRemove;
    hide BookAll;
    hide In;
    var db, more := s.db, keys + [key];
    assert Due(db, more, now) == Due(db, keys, now) + (if Expired(db, key, now) then {key} else {});
    assert db.data - Due(db, more, now) ==
      if Expired(db, key, now) then db.data - Due(db, keys, now) - {key} else db.data - Due(db, keys, now);
    assert db.expires - Due(db, more, now) ==
      if Expired(db, key, now) then db.expires - Due(db, keys, now) - {key} else db.expires - Due(db, keys, now);
    BookAllOneMore(used, db, keys, key, now);
    forall c: Client
      ensures W.Hit(s, Cycle(more, now), c) <==>
        W.Hit(s, Cycle(keys, now), c) || (Expired(db, key, now) && key in db.data && In(s.watchers, key, c))
    {
      forall k ensures Touches(db, Cycle(more, now), k) <==>
        Touches(db, Cycle(keys, now), k) || (k == key && Expired(db, key, now) && key in db.data)
      {
      }
      if Expired(db, key, now) && key in db.data && In(s.watchers, key, c) {
        assert Touches(db, Cycle(more, now), key);
      }
    }
  }

  lemma CycleClocksNothing(clocks: map<string, Clock>, db: Db, now: int, clock: Clock)
    ensures Stamp(clocks, db, Cycle([], now), clock) == clocks
  {
    assert db.data.Keys * Due(db, [], now) == {};
    assert clocks - {} == clocks;
  }

  lemma CycleClocks(clocks: map<string, Clock>, db: Db, keys: seq<string>, key: string, now: int, clock: Clock)
    ensures var before := Stamp(clocks, db, Cycle(keys, now), clock);
      Stamp(clocks, db, Cycle(keys + [key], now), clock) ==
        if key in db.data && Expired(db, key, now) then before - {key} else before
  {
    var gone := db.data.Keys * Due(db, keys, now);
    var more := db.data.Keys * Due(db, keys + [key], now);
    if key in db.data && Expired(db, key, now) {
      assert more == gone + {key};
      assert clocks - more == clocks - gone - {key};
    } else {
      assert more == gone;
    }
  }

  lemma {:induction false} BookAllOneMore(used: nat, db: Db, keys: seq<string>, key: string, now: int)
    requires key !in keys
    ensures BookAll(used, db, keys + [key], now) ==
      if Expired(db, key, now) then BookRemove(BookAll(used, db, keys, now), Apply(db, Cycle(keys, now)), key)
      else BookAll(used, db, keys, now)
    decreases |keys|
  {
    hide BookRemove;
    if keys == [] {
      assert [key][1..] == [];
      assert db.data - Due(db, [], now) == db.data && db.expires - Due(db, [], now) == db.expires;
    } else {
      assert (keys + [key])[1..] == keys[1..] + [key];
      if Expired(db, keys[0], now) {
        var d := Apply(db, Op.Del(keys[0]));
        BookAllOneMore(BookRemove(used, db, keys[0]), d, keys[1..], key, now);
        assert Due(db, keys, now) == Due(d, keys[1..], now) + {keys[0]};
        assert d.data - Due(d, keys[1..], now) == db.data - Due(db, keys, now);
        assert d.expires - Due(d, keys[1..], now) == db.expires - Due(db, keys, now);
      } else {
        BookAllOneMore(used, db, keys[1..], key, now);
        assert Due(db, keys, now) == Due(db, keys[1..], now);
      }
    }
  }

  lemma HitsEveryKey(s: W.Store<Client>, watchers: set<Client>)
    requires watchers == set k, c | k in s.watchers && c in s.watchers[k] :: c
    ensures forall c <- watchers :: W.Hit(s, Flush, c)
  {
    forall c <- watchers ensures W.Hit(s, Flush, c) {
      var k :| k in s.watchers && c in s.watchers[k];
      assert In(s.watchers, k, c) && Touches(s.db, Flush, k);
    }
  }

  lemma {:induction false} BookFlushOneMore(used: nat, db: Db, order: seq<string>, key: string)
    ensures BookFlush(used, db, order + [key]) == BookRemove(BookFlush(used, db, order), db, key)
    decreases |order|
  {
    hide BookRemove;
    if order == [] {
      assert [key][1..] == [];
    } else {
      assert (order + [key])[1..] == order[1..] + [key];
      BookFlushOneMore(BookRemove(used, db, order[0]), db, order[1..], key);
    }
  }
}

// The memory counter: estimates for keys and values, added when they are stored and subtracted
// when they go, with a floor at zero.

module Memory {
  import opened Keyspace
  import opened Maps
  import opened Stores

  // sizeof of the object header and of the four containers; nothing depends on the numbers.
  const OBJECT: nat := 48
  const LINKED_LIST: nat := 24
  const HASH_TABLE: nat := 48
  const HASH_SET: nat := 48
  const SORTED_SET: nat := 64

  function EstimateStringSize(s: string): nat {
    32 + |s|
  }

  function EstimateObjectSize(v: Value): nat {
    OBJECT + match v
      case Str(text) => EstimateStringSize(text)
      case List(items) => LINKED_LIST + |items| * 48
      case Hash(fields) => HASH_TABLE + |fields| * 64
      case Set(members) => HASH_SET + |members| * 48
      case ZSet(scores) => SORTED_SET + |scores| * 128
  }

  // One more byte, element, field, member or score.
  lemma EstimatesGrow(items: seq<string>, x: string, fields: map<string, string>, members: set<string>,
      scores: map<string, Word>, score: Word)
    ensures EstimateStringSize(x) == 32 + |x|
    ensures EstimateObjectSize(Str(x)) == EstimateObjectSize(Str("")) + |x|
    ensures EstimateObjectSize(List(items + [x])) == EstimateObjectSize(List(items)) + 48
    ensures x !in fields ==> EstimateObjectSize(Hash(fields[x := x])) == EstimateObjectSize(Hash(fields)) + 64
    ensures x !in members ==> EstimateObjectSize(Value.Set(members + {x})) == EstimateObjectSize(Value.Set(members)) + 48
    ensures x !in scores ==> EstimateObjectSize(ZSet(scores[x := score])) == EstimateObjectSize(ZSet(scores)) + 128
  {
    assert x !in fields ==> fields[x := x].Keys == fields.Keys + {x};
    assert x !in scores ==> scores[x := score].Keys == scores.Keys + {x};
    assert |fields.Keys| == |fields| && |scores.Keys| == |scores|;
    assert |fields[x := x].Keys| == |fields[x := x]| && |scores[x := score].Keys| == |scores[x := score]|;
  }

  class MemoryManager {
    var used: nat
    var lruClock: Clock

    constructor ()
      ensures used == 0 && lruClock == 0
    {
      used := 0;
      lruClock := 0;
    }

    method AddMemory(bytes: nat)
      modifies this`used
      ensures used == old(used) + bytes
    {
      used := used + bytes;
    }

    // Never below zero.
    method FreeMemory(bytes: nat)
      modifies this`used
      ensures used == Freed(old(used), bytes)
    {
      var current := used;
      if bytes > current {
        used := 0;
      } else {
        used := used - bytes;
      }
    }

    // The cron sets the clock that stored and looked-up objects are stamped with.
    method UpdateLruClock(seconds: int)
      modifies this`lruClock
      ensures lruClock == seconds % 0x1_0000_0000
    {
      lruClock := seconds % 0x1_0000_0000;
    }
  }

  function Freed(used: nat, bytes: nat): nat {
    if bytes > used then 0 else used - bytes
  }

  // What a key and its value are worth.
  function Cost(key: string, value: Value): nat {
    EstimateObjectSize(value) + EstimateStringSize(key)
  }

  ghost function Total(data: map<string, Value>): nat
    decreases |data|
  {
    if data == map[] then 0
    else
      var key :| key in data;
      Cost(key, data[key]) + Total(data - {key})
  }

  // The sum does not depend on the order in which the keys are taken.
  lemma {:induction false} TotalWithout(data: map<string, Value>, key: string)
    requires key in data
    ensures Total(data) == Cost(key, data[key]) + Total(data - {key})
    decreases |data|
  {
    hide Cost;
    var first :| first in data && Total(data) == Cost(first, data[first]) + Total(data - {first});
    if first != key {
      TotalWithout(data - {first}, key);
      TotalWithout(data - {key}, first);
      assert data - {first} - {key} == data - {key} - {first};
    }
  }

  lemma TotalWith(data: map<string, Value>, key: string, value: Value)
    ensures key in data ==> Total(data[key := value]) == Total(data) - Cost(key, data[key]) + Cost(key, value)
    ensures key !in data ==> Total(data[key := value]) == Total(data) + Cost(key, value)
  {
    hide Cost;
    hide Total;
    var after := data[key := value];
    TotalWithout(after, key);
    assert after - {key} == data - {key};
    if key in data {
      TotalWithout(data, key);
    } else {
      assert data - {key} == data;
    }
  }

  // ---------- What each operation books ----------

  function BookStore(used: nat, db: Db, key: string, value: Value): nat {
    (if key in db.data then Freed(used, EstimateObjectSize(db.data[key])) else used + EstimateStringSize(key))
    + EstimateObjectSize(value)
  }

  function BookRemove(used: nat, db: Db, key: string): nat {
    if key in db.data then Freed(Freed(used, EstimateObjectSize(db.data[key])), EstimateStringSize(key)) else used
  }

  function BookAll(used: nat, db: Db, keys: seq<string>, now: int): nat
    decreases |keys|
  {
    if keys == [] then used
    else if Expired(db, keys[0], now) then
      BookAll(BookRemove(used, db, keys[0]), Apply(db, Del(keys[0])), keys[1..], now)
    else BookAll(used, db, keys[1..], now)
  }

  // flushDb books the keys in any order; with a floor the order could matter, so it is given.
  function BookFlush(used: nat, db: Db, order: seq<string>): nat
    decreases |order|
  {
    if order == [] then used
    else BookFlush(BookRemove(used, db, order[0]), db, order[1..])
  }

  function BookAppend(used: nat, db: Db, key: string, text: string): nat {
    if key !in db.data then BookStore(used, db, key, Str(text))
    else if db.data[key].Str? then
      Freed(used, EstimateObjectSize(db.data[key])) + EstimateObjectSize(Appended(db, key, text).data[key])
    else used
  }

  function BookRename(used: nat, db: Db, oldKey: string, newKey: string): nat
    requires oldKey in db.data
  {
    BookStore(BookRemove(used, db, oldKey), Db(db.data - {oldKey}, db.expires), newKey, db.data[oldKey])
  }

  // order is the iteration order of a flush.
  function Book(used: nat, db: Db, op: Op, order: seq<string>): nat {
    match op
    case Set(key, text) => BookStore(used, db, key, Str(text))
    case Assign(key, value) => BookStore(used, db, key, value)
    case Del(key) => BookRemove(used, db, key)
    case Rename(oldKey, newKey) => if oldKey in db.data then BookRename(used, db, oldKey, newKey) else used
    case Append(key, text) => BookAppend(used, db, key, text)
    case Flush => BookFlush(used, db, order)
    case Expire(key, now) => if Expired(db, key, now) then BookRemove(used, db, key) else used
    case Cycle(keys, now) => BookAll(used, db, keys, now)
    case _ => used
  }

  // ---------- The counter is the sum ----------

  lemma StoreIsExact(used: nat, rest: nat, db: Db, key: string, value: Value)
    requires used == rest + Total(db.data)
    ensures BookStore(used, db, key, value) == rest + Total(db.data[key := value])
    ensures key in db.data ==> EstimateObjectSize(db.data[key]) <= used
  {
    hide Total;
    hide EstimateObjectSize;
    hide EstimateStringSize;
    TotalWith(db.data, key, value);
    if key in db.data {
      TotalWithout(db.data, key);
    }
  }

  lemma RemoveIsExact(used: nat, rest: nat, db: Db, key: string)
    requires used == rest + Total(db.data)
    ensures BookRemove(used, db, key) == rest + Total(db.data - {key})
    ensures key in db.data ==> Cost(key, db.data[key]) <= used
  {
    hide Total;
    hide EstimateObjectSize;
    hide EstimateStringSize;
    if key in db.data {
      TotalWithout(db.data, key);
    } else {
      assert db.data - {key} == db.data;
    }
  }

  lemma {:induction false} CycleIsExact(used: nat, rest: nat, db: Db, keys: seq<string>, now: int)
    requires used == rest + Total(db.data)
    ensures BookAll(used, db, keys, now) == rest + Total(Apply(db, Cycle(keys, now)).data)
    decreases |keys|
  {
    hide Total;
    hide BookRemove;
    if keys == [] {
      assert db.data - Due(db, keys, now) == db.data;
    } else if Expired(db, keys[0], now) {
      RemoveIsExact(used, rest, db, keys[0]);
      var d := Apply(db, Del(keys[0]));
      CycleIsExact(BookRemove(used, db, keys[0]), rest, d, keys[1..], now);
      assert Due(db, keys, now) == Due(d, keys[1..], now) + {keys[0]};
      assert d.data - Due(d, keys[1..], now) == db.data - Due(db, keys, now);
    } else {
      CycleIsExact(used, rest, db, keys[1..], now);
      assert Due(db, keys, now) == Due(db, keys[1..], now);
    }
  }

  lemma {:induction false} FlushIsExact(used: nat, rest: nat, db: Db, left: map<string, Value>, order: seq<string>)
    requires Lists(order, left.Keys) && used == rest + Total(left)
    requires forall k <- left :: k in db.data && db.data[k] == left[k]
    ensures BookFlush(used, db, order) == rest
    decreases |order|
  {
    hide Cost;
    if order == [] {
      assert left == map[];
    } else {
      var key, fewer := order[0], left - {order[0]};
      assert key in order;
      TotalWithout(left, key);
      forall x ensures x in order[1..] <==> x in fewer.Keys {
        assert x in order <==> x == key || x in order[1..];
      }
      BookOne(used, db, key);
      FlushIsExact(BookRemove(used, db, key), rest, db, fewer, order[1..]);
    }
  }

  lemma BookOne(used: nat, db: Db, key: string)
    requires key in db.data && Cost(key, db.data[key]) <= used
    ensures BookRemove(used, db, key) == used - Cost(key, db.data[key])
  {
    hide EstimateObjectSize;
    hide EstimateStringSize;
  }

  lemma AppendIsExact(used: nat, rest: nat, db: Db, key: string, text: string)
    requires used == rest + Total(db.data)
    ensures BookAppend(used, db, key, text) == rest + Total(Appended(db, key, text).data)
  {
    hide Total;
    hide EstimateObjectSize;
    hide EstimateStringSize;
    if key in db.data {
      if db.data[key].Str? {
        TotalWithout(db.data, key);
        TotalWith(db.data, key, Appended(db, key, text).data[key]);
      }
    } else {
      StoreIsExact(used, rest, db, key, Str(text));
    }
  }

  lemma RenameIsExact(used: nat, rest: nat, db: Db, oldKey: string, newKey: string)
    requires used == rest + Total(db.data) && oldKey in db.data
    ensures BookRename(used, db, oldKey, newKey) == rest + Total(Moved(db, oldKey, newKey).data)
  {
    hide Total;
    hide BookRemove;
    hide BookStore;
    RemoveIsExact(used, rest, db, oldKey);
    StoreIsExact(BookRemove(used, db, oldKey), rest, Db(db.data - {oldKey}, db.expires), newKey, db.data[oldKey]);
  }

  // A collection changed in place to another size: the one thing the counter does not follow.
  predicate Unbooked(db: Db, op: Op) {
    op.InPlace? && op.key in db.data && EstimateObjectSize(op.value) != EstimateObjectSize(db.data[op.key])
  }

  // After any operation the counter is still the sum of the estimates, except exactly there; so
  // what is freed is never more than the counter holds.
  lemma BookIsExact(used: nat, rest: nat, db: Db, op: Op, order: seq<string>)
    requires used == rest + Total(db.data) && (op.Flush? ==> Lists(order, db.data.Keys))
    ensures Book(used, db, op, order) == rest + Total(Apply(db, op).data) <==> !Unbooked(db, op)
  {
    hide Total;
    hide EstimateObjectSize;
    hide EstimateStringSize;
    hide BookStore;
    hide BookRemove;
    hide BookAppend;
    hide BookRename;
    match op
    case Set(key, text) => StoreIsExact(used, rest, db, key, Str(text));
    case Assign(key, value) => StoreIsExact(used, rest, db, key, value);
    case Del(key) => RemoveIsExact(used, rest, db, key);
    case Rename(oldKey, newKey) =>
      if oldKey in db.data {
        RenameIsExact(used, rest, db, oldKey, newKey);
      }
    case Append(key, text) => AppendIsExact(used, rest, db, key, text);
    case Flush =>
      FlushIsExact(used, rest, db, db.data, order);
      assert Total(map[]) == 0 by { TotalOfNothing(); }
    case Expire(key, now) => RemoveIsExact(used, rest, db, key);
    case Cycle(keys, now) => CycleIsExact(used, rest, db, keys, now);
    case InPlace(key, value) =>
      if key in db.data {
        TotalWith(db.data, key, value);
      }
    case _ =>
  }

  lemma TotalOfNothing()
    ensures Total(map[]) == 0
  {
  }

  // ---------- Runs over several databases ----------

  // An operation on one of the databases, with the order in which a flush would visit it.
  datatype Turn = Turn(index: nat, op: Op, order: seq<string>)

  ghost function TotalAll(dbs: seq<Db>): nat
    decreases |dbs|
  {
    if dbs == [] then 0 else Total(dbs[0].data) + TotalAll(dbs[1..])
  }

  lemma {:induction false} TotalAllUpdate(dbs: seq<Db>, i: nat, db: Db)
    requires i < |dbs|
    ensures TotalAll(dbs) >= Total(dbs[i].data)
    ensures TotalAll(dbs[i := db]) == TotalAll(dbs) - Total(dbs[i].data) + Total(db.data)
    decreases i
  {
    if i == 0 {
      assert dbs[0 := db][1..] == dbs[1..];
    } else {
      TotalAllUpdate(dbs[1..], i - 1, db);
      assert dbs[i := db][1..] == dbs[1..][i - 1 := db];
    }
  }

  function RunDbs(dbs: seq<Db>, run: seq<Turn>): seq<Db>
    decreases |run|
  {
    if run == [] then dbs
    else
      var t := run[0];
      RunDbs(if t.index < |dbs| then dbs[t.index := Apply(dbs[t.index], t.op)] else dbs, run[1..])
  }

  function RunUsed(used: nat, dbs: seq<Db>, run: seq<Turn>): nat
    decreases |run|
  {
    if run == [] then used
    else
      var t := run[0];
      if t.index < |dbs| then
        RunUsed(Book(used, dbs[t.index], t.op, t.order), dbs[t.index := Apply(dbs[t.index], t.op)], run[1..])
      else RunUsed(used, dbs, run[1..])
  }

  // Every step books what it changes, and flushes visit each key once.
  ghost predicate Booked(dbs: seq<Db>, run: seq<Turn>)
    decreases |run|
  {
    if run == [] then true
    else
      var t := run[0];
      if t.index < |dbs| then
        && !Unbooked(dbs[t.index], t.op)
        && (t.op.Flush? ==> Lists(t.order, dbs[t.index].data.Keys))
        && Booked(dbs[t.index := Apply(dbs[t.index], t.op)], run[1..])
      else Booked(dbs, run[1..])
  }

  // Whatever is run on whichever databases, the one counter stays the sum over all of them.
  lemma {:induction false} CounterIsTotal(used: nat, dbs: seq<Db>, run: seq<Turn>)
    requires used == TotalAll(dbs) && Booked(dbs, run)
    ensures RunUsed(used, dbs, run) == TotalAll(RunDbs(dbs, run))
    decreases |run|
  {
    hide Book;
    hide Apply;
    hide Total;
    hide Unbooked;
    if run != [] {
      var t := run[0];
      if t.index < |dbs| {
        var db := dbs[t.index];
        TotalAllUpdate(dbs, t.index, Apply(db, t.op));
        BookIsExact(used, used - Total(db.data), db, t.op, t.order);
        CounterIsTotal(Book(used, db, t.op, t.order), dbs[t.index := Apply(db, t.op)], run[1..]);
      } else {
        CounterIsTotal(used, dbs, run[1..]);
      }
    }
  }
}

// One database as a state machine: what each operation does to the keys, whom it alerts, and what
// it books in the memory counter.

module Stores {
  import opened Keyspace

  datatype Op =
    | Set(key: string, text: string)
    | Assign(key: string, value: Value)
    | Del(key: string)
    | Rename(oldKey: string, newKey: string)
    | Append(key: string, text: string)
    | Flush
    | Expire(key: string, now: int)
    | Cycle(keys: seq<string>, now: int)
    | ExpireAt(key: string, at: int)
    | Persist(key: string)
    | InPlace(key: string, value: Value)

  // The sampling cycle is no client's command.
  type ClientOp = op: Op | !op.Cycle? witness Flush

  // The keys among these whose time has come.
  function Due(db: Db, keys: seq<string>, now: int): set<string> {
    set k | k in keys && Expired(db, k, now)
  }

  // The time to live goes to the new name first, and is dropped when the value is stored there.
  function Moved(db: Db, oldKey: string, newKey: string): Db
    requires oldKey in db.data
  {
    var left := db.expires - {oldKey};
    var expires := if oldKey in db.expires && db.expires[oldKey] >= 0 then left[newKey := db.expires[oldKey]] else left;
    SetObject(Db(db.data - {oldKey}, expires), newKey, db.data[oldKey])
  }

  function Appended(db: Db, key: string, text: string): Db {
    if key !in db.data then SetObject(db, key, Str(text))
    else if db.data[key].Str? then db.(data := db.data[key := Str(db.data[key].text + text)])
    else db
  }

  function Apply(db: Db, op: Op): Db {
    match op
    case Set(key, text) => SetObject(db, key, Str(text))
    case Assign(key, value) => SetObject(db, key, value)
    case Del(key) => Db(db.data - {key}, db.expires - {key})
    case Rename(oldKey, newKey) => if oldKey in db.data then Moved(db, oldKey, newKey) else db
    case Append(key, text) => Appended(db, key, text)
    case Flush => EMPTY
    case Expire(key, now) => CheckAndExpire(db, key, now)
    case Cycle(keys, now) => Db(db.data - Due(db, keys, now), db.expires - Due(db, keys, now))
    case ExpireAt(key, at) => SetExpiryAt(db, key, at)
    case Persist(key) => db.(expires := db.expires - {key})
    case InPlace(key, value) => if key in db.data then db.(data := db.data[key := value]) else db
  }

  // ---------- The clocks of objects ----------

  // Storing, appending and looking up set an object's clock; it goes with the object.
  function Stamp(clocks: map<string, Clock>, db: Db, op: Op, clock: Clock): map<string, Clock> {
    match op
    case Set(key, _) => clocks[key := clock]
    case Assign(key, _) => clocks[key := clock]
    case Del(key) => if key in db.data then clocks - {key} else clocks
    case Rename(oldKey, newKey) => if oldKey in db.data then (clocks - {oldKey})[newKey := clock] else clocks
    case Append(key, _) => if key in db.data && !db.data[key].Str? then clocks else clocks[key := clock]
    case Flush => map[]
    case Expire(key, now) => if key in db.data && Expired(db, key, now) then clocks - {key} else clocks
    case Cycle(keys, now) => clocks - db.data.Keys * Due(db, keys, now)
    case InPlace(key, _) => if key in db.data then clocks[key := clock] else clocks
    case _ => clocks
  }

  function Viewed(clocks: map<string, Clock>, db: Db, key: string, now: int, clock: Clock): map<string, Clock> {
    if key !in db.data then clocks
    else if Expired(db, key, now) then clocks - {key}
    else clocks[key := clock]
  }

  // Exactly the stored objects have a clock.
  lemma ClocksFollowKeys(clocks: map<string, Clock>, db: Db, op: Op, clock: Clock)
    requires clocks.Keys == db.data.Keys
    ensures Stamp(clocks, db, op, clock).Keys == Apply(db, op).data.Keys
  {
    if op.Cycle? {
      var due := Due(db, op.keys, op.now);
      assert clocks.Keys - db.data.Keys * due == db.data.Keys - due;
    }
    if op.Rename? && op.oldKey in db.data {
      assert (clocks - {op.oldKey})[op.newKey := clock].Keys == clocks.Keys - {op.oldKey} + {op.newKey};
    }
  }

  // What has a new value has the present clock, and what the operation does not touch keeps its own.
  lemma ClocksTell(clocks: map<string, Clock>, db: Db, op: Op, clock: Clock, key: string)
    requires clocks.Keys == db.data.Keys && key in Apply(db, op).data
    ensures var after := Stamp(clocks, db, op, clock);
      && key in after
      && (!SameBinding(db, Apply(db, op), key) ==> after[key] == clock)
      && (after[key] != clock ==> key in clocks && after[key] == clocks[key])
      && (!Touches(db, op, key) && SameBinding(db, Apply(db, op), key) && !((op.InPlace? || op.Append?) && op.key == key) ==>
            after[key] == clocks[key])
  {
    ClocksFollowKeys(clocks, db, op, clock);
  }

  // ---------- Watchers ----------

  // The operation alerts the watchers of this key.
  predicate Touches(db: Db, op: Op, key: string) {
    match op
    case Set(k, _) => k == key
    case Assign(k, _) => k == key
    case Del(k) => k == key && k in db.data
    case Rename(oldKey, newKey) => oldKey in db.data && (key == oldKey || key == newKey)
    case Append(k, _) => k == key && k !in db.data
    case Flush => true
    case Expire(k, now) => k == key && k in db.data && Expired(db, k, now)
    case Cycle(keys, now) => key in db.data && key in Due(db, keys, now)
    case _ => false
  }

  // The value under a key, or none.
  predicate SameBinding(a: Db, b: Db, key: string) {
    (key in a.data <==> key in b.data) && (key in a.data ==> a.data[key] == b.data[key])
  }

  // The two ways to change a value without telling anybody.
  predicate Silent(db: Db, op: Op) {
    match op
    case Append(key, text) => key in db.data && db.data[key].Str? && text != ""
    case InPlace(key, value) => key in db.data && db.data[key] != value
    case _ => false
  }

  // A changed binding is always announced, but for exactly those two.
  lemma ChangeIsAnnounced(db: Db, op: Op)
    ensures (forall key :: SameBinding(db, Apply(db, op), key) || Touches(db, op, key)) <==> !Silent(db, op)
  {
    if Silent(db, op) {
      var key := op.key;
      assert db.data[key] != Apply(db, op).data[key] by {
        if op.Append? {
          assert |db.data[key].text + op.text| > |db.data[key].text|;
        }
      }
      assert !SameBinding(db, Apply(db, op), key) && !Touches(db, op, key);
    } else {
      forall key ensures SameBinding(db, Apply(db, op), key) || Touches(db, op, key) {
        ChangedKeyIsTouched(db, op, key);
      }
    }
  }

  // Nobody is alerted without need: a touched key has been written by name, flushed, or has
  // changed, and not silently.
  lemma AlertsAreDeserved(db: Db, op: Op, key: string)
    ensures Touches(db, op, key) <==>
      || ((op.Set? || op.Assign?) && op.key == key)
      || (op.Rename? && op.oldKey in db.data && (op.oldKey == key || op.newKey == key))
      || op.Flush?
      || (!SameBinding(db, Apply(db, op), key) && !Silent(db, op))
  {
    if !Silent(db, op) {
      ChangedKeyIsTouched(db, op, key);
    }
  }

  lemma ChangedKeyIsTouched(db: Db, op: Op, key: string)
    requires !Silent(db, op)
    ensures SameBinding(db, Apply(db, op), key) || Touches(db, op, key)
  {
    if op.Append? && op.key in db.data && db.data[op.key].Str? {
      assert db.data[op.key].text + op.text == db.data[op.key].text;
    }
  }

  // ---------- Expiry times belong to keys ----------

  ghost predicate Grounded(db: Db) {
    db.expires.Keys <= db.data.Keys
  }

  lemma ApplyKeepsGrounded(db: Db, op: Op)
    requires Grounded(db)
    ensures Grounded(Apply(db, op))
  {
  }

  // A renamed key has no time to live, whatever the old one had.
  lemma RenameForgetsExpiry(db: Db, oldKey: string, newKey: string)
    requires oldKey in db.data
    ensures newKey !in Apply(db, Rename(oldKey, newKey)).expires
    ensures oldKey != newKey ==> oldKey !in Apply(db, Rename(oldKey, newKey)).data
    ensures Apply(db, Rename(oldKey, newKey)).data[newKey] == db.data[oldKey]
    ensures forall k :: k != oldKey && k != newKey ==>
      SameBinding(db, Apply(db, Rename(oldKey, newKey)), k)
  {
  }
}

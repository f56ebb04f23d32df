// Expired keys are removed lazily and by sampling; readers cannot tell when.

module Expiry {
  import opened Wrappers
  import opened Keyspace
  import Stores

  datatype Event =
    | Get(key: string)
    | GetObject(key: string)
    | Exists(key: string)
    | Type(key: string)
    | Keys(visible: string -> bool)
    | Pttl(key: string)
    | Put(key: string, value: Value)
    | Purge(key: string)
    | Sweep(keys: seq<string>)

  datatype Answer =
    | Text(text: Option<string>)
    | Object(value: Option<Value>)
    | Flag(flag: bool)
    | Name(name: string)
    | Names(names: set<string>)
    | Time(time: int)
    | Nothing

  predicate IsPurge(e: Event) {
    e.Purge? || e.Sweep?
  }

  function TypeString(v: Value): string {
    match v
    case Str(_) => "string"
    case List(_) => "list"
    case Hash(_) => "hash"
    case Set(_) => "set"
    case ZSet(_) => "zset"
  }

  // Most readers remove the key they find expired.
  function After(db: Db, e: Event, now: int): Db {
    match e
    case Keys(_) => db
    case Pttl(_) => db
    case Put(key, value) => SetObject(db, key, value)
    case Sweep(keys) => Stores.Apply(db, Stores.Cycle(keys, now))
    case _ => CheckAndExpire(db, e.key, now)
  }

  function Reply(db: Db, e: Event, now: int): Answer {
    match e
    case Get(key) =>
      if Expired(db, key, now) || key !in db.data then Text(None)
      else if db.data[key].Str? then Text(Some(db.data[key].text)) else Text(None)
    case GetObject(key) =>
      if Expired(db, key, now) || key !in db.data then Object(None) else Object(Some(db.data[key]))
    case Exists(key) => Flag(!Expired(db, key, now) && key in db.data)
    case Type(key) =>
      Name(if Expired(db, key, now) || key !in db.data then "none" else TypeString(db.data[key]))
    case Keys(visible) => Names(set key | key in db.data && !Expired(db, key, now) && visible(key))
    case Pttl(key) => Time(Keyspace.Pttl(db, key, now))
    case _ => Nothing
  }

  type Timed = (Event, int)

  function Answers(db: Db, run: seq<Timed>): seq<Answer>
    decreases |run|
  {
    if run == [] then []
    else
      var (e, now) := run[0];
      var others := Answers(After(db, e, now), run[1..]);
      if IsPurge(e) then others else [Reply(db, e, now)] + others
  }

  function WithoutPurges(run: seq<Timed>): seq<Timed>
    decreases |run|
  {
    if run == [] then []
    else if IsPurge(run[0].0) then WithoutPurges(run[1..])
    else [run[0]] + WithoutPurges(run[1..])
  }

  predicate Monotone(run: seq<Timed>, from: int)
    decreases |run|
  {
    run == [] || (from <= run[0].1 && Monotone(run[1..], run[0].1))
  }

  // Two databases that a reader cannot tell apart, now and later.
  ghost predicate Alike(a: Db, b: Db, now: int) {
    Live(a, now) == Live(b, now)
  }

  // At every key the two agree, or both show nothing.
  lemma AlikeAt(a: Db, b: Db, now: int, key: string)
    requires Alike(a, b, now)
    ensures (key in a.data && !Expired(a, key, now)) <==> (key in b.data && !Expired(b, key, now))
    ensures key in a.data && !Expired(a, key, now) ==>
      && a.data[key] == b.data[key]
      && (key in a.expires <==> key in b.expires)
      && (key in a.expires ==> a.expires[key] == b.expires[key])
  {
    var x, y := Live(a, now), Live(b, now);
    assert key in x.data <==> key in y.data;
    if key in x.data {
      assert x.data[key] == y.data[key];
      assert key in x.expires <==> key in y.expires;
      if key in x.expires {
        assert x.expires[key] == y.expires[key];
      }
    }
  }

  lemma AlikeIf(a: Db, b: Db, now: int)
    requires forall key ::
      && ((key in a.data && !Expired(a, key, now)) <==> (key in b.data && !Expired(b, key, now)))
      && (key in a.data && !Expired(a, key, now) ==>
            && a.data[key] == b.data[key]
            && (key in a.expires <==> key in b.expires)
            && (key in a.expires ==> a.expires[key] == b.expires[key]))
    ensures Alike(a, b, now)
  {
    assert Live(a, now).data == Live(b, now).data;
    assert Live(a, now).expires == Live(b, now).expires;
  }

  lemma AlikeLater(a: Db, b: Db, now: int, later: int)
    requires Alike(a, b, now) && now <= later
    ensures Alike(a, b, later)
  {
    hide Alike;
    forall key { AlikeAt(a, b, now, key); }
    AlikeIf(a, b, later);
  }

  lemma PurgeIsInvisible(db: Db, e: Event, now: int)
    requires IsPurge(e)
    ensures Alike(After(db, e, now), db, now)
  {
    hide Alike;
    AlikeIf(After(db, e, now), db, now);
  }

  lemma SameAnswer(a: Db, b: Db, e: Event, now: int)
    requires Alike(a, b, now) && !IsPurge(e)
    ensures Reply(a, e, now) == Reply(b, e, now)
    ensures Alike(After(a, e, now), After(b, e, now), now)
  {
    hide Alike;
    forall key { AlikeAt(a, b, now, key); }
    AlikeIf(After(a, e, now), After(b, e, now), now);
  }

  lemma {:induction false} PurgesAreInvisibleFrom(a: Db, b: Db, run: seq<Timed>, from: int)
    requires Alike(a, b, from) && Monotone(run, from)
    ensures Answers(a, run) == Answers(b, WithoutPurges(run))
    decreases |run|
  {
    hide Alike;
    hide After;
    hide Reply;
    hide IsPurge;
    if run != [] {
      var (e, now) := run[0];
      AlikeLater(a, b, from, now);
      if IsPurge(e) {
        PurgeIsInvisible(a, e, now);
        AlikeTrans(After(a, e, now), a, b, now);
        PurgesAreInvisibleFrom(After(a, e, now), b, run[1..], now);
      } else {
        SameAnswer(a, b, e, now);
        PurgesAreInvisibleFrom(After(a, e, now), After(b, e, now), run[1..], now);
        var rest := WithoutPurges(run[1..]);
        assert ([run[0]] + rest)[1..] == rest;
      }
    }
  }

  lemma AlikeTrans(a: Db, b: Db, c: Db, now: int)
    requires Alike(a, b, now) && Alike(b, c, now)
    ensures Alike(a, c, now)
  {
  }

  // Under a clock that does not go back, a run of reads and plain writes answers the same whether
  // or not, and whenever, expired keys are removed.
  lemma PurgesAreInvisible(db: Db, run: seq<Timed>, from: int)
    requires Monotone(run, from)
    ensures Answers(db, run) == Answers(db, WithoutPurges(run))
  {
    PurgesAreInvisibleFrom(db, db, run, from);
  }

  // PTTL, as a reader could find it out by waiting: the key is there for this long and no longer.
  lemma PttlTells(db: Db, key: string, now: int, t: int)
    requires t > 0
    ensures Keyspace.Pttl(db, key, now) == -2 <==> key !in Live(db, now).data
    ensures Keyspace.Pttl(db, key, now) == -1 <==> key in Live(db, now).data && key !in Live(db, now).expires
    ensures Keyspace.Pttl(db, key, now) == t <==>
      key in Live(db, now + t - 1).data && key !in Live(db, now + t).data
    ensures Keyspace.Pttl(db, key, now) in {-1, -2} || Keyspace.Pttl(db, key, now) > 0
  {
  }

  // Other operations do look: del reports a key that has expired but is still stored.
  lemma DelSeesPurges(db: Db, key: string, now: int)
    ensures (key in db.data) == (key in CheckAndExpire(db, key, now).data)
       <==> !(key in db.data && Expired(db, key, now))
  {
  }

  // So does setting an expiry, which brings an expired key back to life.
  lemma ExpiryRevives(db: Db, key: string, now: int, at: int)
    requires key in db.data && Expired(db, key, now) && at > now
    ensures Reply(SetExpiryAt(db, key, at), Exists(key), now) == Flag(true)
    ensures Reply(SetExpiryAt(CheckAndExpire(db, key, now), key, at), Exists(key), now) == Flag(false)
  {
  }
}

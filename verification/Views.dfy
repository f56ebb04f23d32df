// What the operations on a database mean to a reader, now and at every later time.

module Views {
  import opened Wrappers
  import opened Keyspace
  import opened Stores
  import Expiry

  // A reader finds this value under key until the time that is given, and everything else as before.
  ghost predicate ShowsUntil(was: Db, db: Db, key: string, value: Value, end: Option<int>, from: int) {
    forall t :: t >= from ==> ShowsAt(was, db, key, value, end, t)
  }

  ghost predicate ShowsAt(was: Db, db: Db, key: string, value: Value, end: Option<int>, t: int) {
    var live := Live(db, t);
    && (key in live.data <==> (end.Some? ==> t < end.value))
    && (key in live.data ==> live.data[key] == value)
    && (key in live.data ==>
          if end.None? then key !in live.expires else key in live.expires && live.expires[key] == end.value)
    && live.data - {key} == Live(was, t).data - {key}
    && live.expires - {key} == Live(was, t).expires - {key}
  }

  ghost predicate LooksTheSame(was: Db, db: Db, from: int) {
    forall t :: t >= from ==> Live(db, t) == Live(was, t)
  }

  lemma SameRefl(db: Db, from: int)
    ensures LooksTheSame(db, db, from)
  {
  }

  lemma LookIsUnseen(db: Db, key: string, now: int)
    ensures LooksTheSame(db, CheckAndExpire(db, key, now), now)
  {
    var looked := CheckAndExpire(db, key, now);
    forall t | t >= now ensures Live(looked, t) == Live(db, t) {
      assert Live(looked, t).data == Live(db, t).data && Live(looked, t).expires == Live(db, t).expires;
    }
  }

  lemma OthersShow(a: Db, b: Db, key: string, t: int)
    requires a.data - {key} == b.data - {key} && a.expires - {key} == b.expires - {key}
    ensures Live(a, t).data - {key} == Live(b, t).data - {key}
    ensures Live(a, t).expires - {key} == Live(b, t).expires - {key}
  {
    forall k | k != key
      ensures k in Live(a, t).data <==> k in Live(b, t).data
      ensures k in Live(a, t).data ==> Live(a, t).data[k] == Live(b, t).data[k]
      ensures k in Live(a, t).expires <==> k in Live(b, t).expires
      ensures k in Live(a, t).expires ==> Live(a, t).expires[k] == Live(b, t).expires[k]
    {
      SameElsewhere(a.data, b.data, key, k);
      SameElsewhere(a.expires, b.expires, key, k);
    }
  }

  lemma SameElsewhere<V>(m: map<string, V>, n: map<string, V>, key: string, k: string)
    requires m - {key} == n - {key} && k != key
    ensures (k in m <==> k in n) && (k in m ==> m[k] == n[k])
  {
    assert k in m <==> k in m - {key};
    assert k in n <==> k in n - {key};
    if k in m {
      assert (m - {key})[k] == (n - {key})[k];
    }
  }

  lemma ShowsSame(a: Db, b: Db, d: Db, key: string, value: Value, end: Option<int>, from: int)
    requires LooksTheSame(a, b, from) && ShowsUntil(b, d, key, value, end, from)
    ensures ShowsUntil(a, d, key, value, end, from)
  {
    hide Live;
    forall t | t >= from ensures ShowsAt(a, d, key, value, end, t) {
      assert ShowsAt(b, d, key, value, end, t);
    }
  }

  // When it ends, if ever.
  function EndOf(db: Db, key: string, now: int): Option<int> {
    if key in Live(db, now).expires then Some(Live(db, now).expires[key]) else None
  }

  // ---------- Storing ----------

  // Whatever stores this value with this end shows it until then.
  lemma StoredShows(was: Db, db: Db, key: string, value: Value, end: Option<int>, from: int)
    requires db.data == was.data[key := value]
    requires db.expires - {key} == was.expires - {key}
    requires if end.None? then key !in db.expires else key in db.expires && db.expires[key] == end.value
    ensures ShowsUntil(was, db, key, value, end, from)
  {
    hide ShowsAt;
    forall t | t >= from ensures ShowsAt(was, db, key, value, end, t) {
      StoredShowsAt(was, db, key, value, end, t);
    }
  }

  lemma StoredShowsAt(was: Db, db: Db, key: string, value: Value, end: Option<int>, t: int)
    requires db.data == was.data[key := value]
    requires db.expires - {key} == was.expires - {key}
    requires if end.None? then key !in db.expires else key in db.expires && db.expires[key] == end.value
    ensures ShowsAt(was, db, key, value, end, t)
  {
    assert db.data - {key} == was.data - {key};
    OthersShow(db, was, key, t);
  }

  lemma SetShows(db: Db, key: string, text: string, from: int)
    ensures ShowsUntil(db, Apply(db, Op.Set(key, text)), key, Str(text), None, from)
  {
    StoredShows(db, Apply(db, Op.Set(key, text)), key, Str(text), None, from);
  }

  lemma AssignShows(db: Db, key: string, value: Value, from: int)
    ensures ShowsUntil(db, Apply(db, Assign(key, value)), key, value, None, from)
  {
    StoredShows(db, Apply(db, Assign(key, value)), key, value, None, from);
  }

  // The key that a reader sees is there with what it sees, and ends when it sees it end.
  lemma SeenIsStored(db: Db, key: string, now: int)
    requires key in Live(db, now).data
    ensures key in db.data && db.data[key] == Live(db, now).data[key]
    ensures if EndOf(db, key, now).None? then key !in db.expires
      else key in db.expires && db.expires[key] == EndOf(db, key, now).value
  {
  }

  // APPEND puts the text behind what is there, and that ends when it would have; on a new key it
  // is a SET. On a string that has expired and is stored still, the text is lost with it.
  lemma AppendShows(db: Db, key: string, text: string, now: int)
    ensures var d := Apply(db, Append(key, text));
      && (key in Live(db, now).data && Live(db, now).data[key].Str? ==>
            ShowsUntil(db, d, key, Str(Live(db, now).data[key].text + text), EndOf(db, key, now), now))
      && (key !in db.data ==> ShowsUntil(db, d, key, Str(text), None, now))
      && (key in db.data && Expired(db, key, now) ==> LooksTheSame(db, d, now))
      && (key in Live(db, now).data && !Live(db, now).data[key].Str? ==> d == db)
  {
    hide ShowsUntil;
    hide LooksTheSame;
    var d := Apply(db, Append(key, text));
    SameRefl(db, now);
    if key in Live(db, now).data {
      SeenIsStored(db, key, now);
      if db.data[key].Str? {
        StoredShows(db, d, key, Str(db.data[key].text + text), EndOf(db, key, now), now);
      }
    } else if key !in db.data {
      StoredShows(db, d, key, Str(text), None, now);
    } else if db.data[key].Str? {
      DeadIsUnseen(db, d, key, now);
    }
  }

  lemma DeadIsUnseen(was: Db, db: Db, key: string, now: int)
    requires Expired(was, key, now) && db.expires == was.expires && db.data - {key} == was.data - {key}
    ensures LooksTheSame(was, db, now)
  {
    forall t | t >= now ensures Live(db, t) == Live(was, t) {
      OthersShow(db, was, key, t);
      assert Live(db, t).data - {key} == Live(db, t).data && Live(was, t).data - {key} == Live(was, t).data;
      assert Live(db, t).expires - {key} == Live(db, t).expires && Live(was, t).expires - {key} == Live(was, t).expires;
    }
  }

  // A write through a pointer changes the value and not its end.
  lemma InPlaceShows(db: Db, key: string, value: Value, now: int)
    requires key in Live(db, now).data
    ensures ShowsUntil(db, Apply(db, InPlace(key, value)), key, value, EndOf(db, key, now), now)
  {
    hide ShowsUntil;
    hide Live;
    SeenIsStored(db, key, now);
    StoredShows(db, Apply(db, InPlace(key, value)), key, value, EndOf(db, key, now), now);
  }

  // EXPIRE and its relatives change the end and not the value; PERSIST takes the end away.
  lemma ExpireAtShows(db: Db, key: string, at: int, now: int)
    requires key in Live(db, now).data
    ensures ShowsUntil(db, Apply(db, ExpireAt(key, at)), key, Live(db, now).data[key], Some(at), now)
    ensures ShowsUntil(db, Apply(db, Persist(key)), key, Live(db, now).data[key], None, now)
  {
    hide ShowsUntil;
    hide Live;
    SeenIsStored(db, key, now);
    var value := db.data[key];
    assert db.data[key := value] == db.data;
    StoredShows(db, Apply(db, ExpireAt(key, at)), key, value, Some(at), now);
    StoredShows(db, Apply(db, Persist(key)), key, value, None, now);
  }

  // ---------- Removing ----------

  lemma DelShows(db: Db, key: string, t: int)
    ensures var live := Live(Apply(db, Op.Del(key)), t);
      live.data == Live(db, t).data - {key} && live.expires == Live(db, t).expires - {key}
  {
    var d := Apply(db, Op.Del(key));
    assert d.data - {key} == db.data - {key} && d.expires - {key} == db.expires - {key};
    OthersShow(d, db, key, t);
    assert Live(d, t).data - {key} == Live(d, t).data && Live(d, t).expires - {key} == Live(d, t).expires;
  }

  lemma FlushShows(db: Db, t: int)
    ensures Live(Apply(db, Flush), t) == EMPTY
  {
  }

  // Purging is not seen.
  lemma PurgeShows(db: Db, op: Op)
    requires op.Expire? || op.Cycle?
    ensures LooksTheSame(db, Apply(db, op), op.now)
  {
    var d := Apply(db, op);
    forall t | t >= op.now ensures Live(d, t) == Live(db, t) {
      assert Live(d, t).data == Live(db, t).data && Live(d, t).expires == Live(db, t).expires;
    }
  }

  // RENAME moves the value, which then has no end; what was under the new name is gone.
  lemma RenameShows(db: Db, oldKey: string, newKey: string, now: int)
    requires oldKey in db.data
    ensures var removed := Apply(db, Op.Del(oldKey));
      ShowsUntil(removed, Apply(db, Rename(oldKey, newKey)), newKey, db.data[oldKey], None, now)
  {
    var removed, d := Apply(db, Op.Del(oldKey)), Apply(db, Rename(oldKey, newKey));
    assert d.expires - {newKey} == removed.expires - {newKey};
    StoredShows(removed, d, newKey, db.data[oldKey], None, now);
  }

  lemma AbsentStays(db: Db, op: Op)
    requires op.Rename? && op.oldKey !in db.data
    ensures Apply(db, op) == db
  {
  }

  // ---------- Reading ----------

  // What the readers answer is what is visible.
  lemma RepliesTellLive(db: Db, key: string, now: int, visible: string -> bool)
    ensures var live := Live(db, now).data;
      && Expiry.Reply(db, Expiry.GetObject(key), now) == Expiry.Object(if key in live then Some(live[key]) else None)
      && (Expiry.Reply(db, Expiry.Exists(key), now) == Expiry.Flag(true) <==> key in live)
      && (forall text :: Expiry.Reply(db, Expiry.Get(key), now) == Expiry.Text(Some(text)) <==>
            key in live && live[key] == Str(text))
      && Expiry.Reply(db, Expiry.Keys(visible), now) == Expiry.Names(set k | k in live && visible(k))
  {
    var live := Live(db, now).data;
    assert (set k | k in live && visible(k)) == set k | k in db.data && !Expired(db, k, now) && visible(k);
  }

  lemma TypesAreTold(db: Db, key: string, now: int)
    ensures var live, r := Live(db, now).data, Expiry.Reply(db, Expiry.Type(key), now);
      && (r == Expiry.Name("none") <==> key !in live)
      && (r == Expiry.Name("string") <==> key in live && live[key].Str?)
      && (r == Expiry.Name("list") <==> key in live && live[key].List?)
      && (r == Expiry.Name("hash") <==> key in live && live[key].Hash?)
      && (r == Expiry.Name("set") <==> key in live && live[key].Set?)
      && (r == Expiry.Name("zset") <==> key in live && live[key].ZSet?)
  {
    assert "none"[0] == 'n' && "list"[0] == 'l' && "hash"[0] == 'h' && "zset"[0] == 'z';
    assert |"string"| == 6 && |"set"| == 3;
  }
}

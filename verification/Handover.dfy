// What blocking pops are for, told in terms of what a reader can see: which element is taken, and
// exactly when what is pushed reaches the client that waits for it.

module Handover {
  import opened Wrappers
  import opened Keyspace
  import opened Stores
  import opened Registries
  import opened World
  import opened Steps
  import opened Mirrors
  import opened Blocking

  // The first of these keys under which there is a list with an element.
  function FirstList(db: Db, keys: seq<string>): (first: Option<string>)
    ensures first.Some? ==> HasItems(db, first.value) && first.value in keys
    decreases |keys|
  {
    if keys == [] then None
    else if HasItems(db, keys[0]) then Some(keys[0])
    else FirstList(db, keys[1..])
  }

  // An element goes, and the list and its expiry go with the last one.
  function Taken(db: Db, key: string, left: bool): Db
    requires HasItems(db, key)
  {
    var rest := Rest(db.data[key].items, left);
    if rest == [] then Db(db.data - {key}, db.expires - {key}) else db.(data := db.data[key := List(rest)])
  }

  function ItemsOf(db: Db, key: string): seq<string> {
    if key in db.data && db.data[key].List? then db.data[key].items else []
  }

  // A list is longer; one that was not there has no expiry.
  function Grown(db: Db, key: string, values: seq<string>, left: bool): Db {
    db.(data := db.data[key := List(Pushed(ItemsOf(db, key), values, left))])
  }

  // ---------- Looking up ----------

  lemma LookKeepsLive(db: Db, key: string, now: int)
    ensures Live(CheckAndExpire(db, key, now), now) == Live(db, now)
  {
    var a, b := Live(CheckAndExpire(db, key, now), now), Live(db, now);
    assert a.data == b.data && a.expires == b.expires;
  }

  lemma LookShowsLive(db: Db, key: string, now: int)
    ensures var looked := CheckAndExpire(db, key, now);
      && !Expired(looked, key, now)
      && (key in looked.data <==> key in Live(db, now).data)
      && (key in looked.data ==> looked.data[key] == Live(db, now).data[key])
  {
  }

  ghost predicate OthersSame<C>(w: World<C>, w': World<C>, i: nat) {
    |w'.stores| == |w.stores| && forall j :: 0 <= j < |w.stores| && j != i ==> w'.stores[j] == w.stores[j]
  }

  // What an operation does to the clients and to the lists of waiters: at most raise a flag.
  lemma ActIsQuiet<C>(w: World<C>, i: nat, op: Op)
    requires i < |w.stores|
    ensures var a := Act(w, i, op);
      && a.stores[i].db == Apply(w.stores[i].db, op) && a.waiting == w.waiting && |a.stores| == |w.stores|
      && OthersSame(w, a, i) && a.clients.Keys == w.clients.Keys
      && forall c <- w.clients :: a.clients[c] == w.clients[c].(dirty := a.clients[c].dirty)
  {
    hide Apply;
    hide Hit;
  }

  // ---------- A pop takes one element, or waits ----------

  lemma LiveAfterDel(db: Db, key: string, now: int)
    ensures var live := Live(db, now);
      Live(Apply(db, Op.Del(key)), now) == Db(live.data - {key}, live.expires - {key})
  {
    var a, b := Live(Apply(db, Op.Del(key)), now), Live(db, now);
    assert a.data == b.data - {key} && a.expires == b.expires - {key};
  }

  lemma LiveAfterWrite(db: Db, key: string, value: Value, now: int)
    requires key in db.data && !Expired(db, key, now)
    ensures var live := Live(db, now);
      key in live.data && Live(Apply(db, InPlace(key, value)), now) == live.(data := live.data[key := value])
  {
    var a, b := Live(Apply(db, InPlace(key, value)), now), Live(db, now);
    assert a.data == b.data[key := value] && a.expires == b.expires;
  }

  lemma TakeShows(db: Db, key: string, left: bool, now: int)
    requires HasItems(db, key) && !Expired(db, key, now)
    ensures HasItems(Live(db, now), key)
    ensures var rest := Rest(db.data[key].items, left);
      var d := Apply(db, InPlace(key, List(rest)));
      Live(if rest == [] then Apply(d, Op.Del(key)) else d, now) == Taken(Live(db, now), key, left)
  {
    LookShowsLive(db, key, now);
    hide Live;
    hide Apply;
    var rest := Rest(db.data[key].items, left);
    LiveAfterWrite(db, key, List(rest), now);
    if rest == [] {
      var live := Live(db, now);
      LiveAfterDel(Apply(db, InPlace(key, List(rest))), key, now);
      assert live.data[key := List(rest)] - {key} == live.data - {key};
    }
  }

  ghost predicate Unmoved<C>(w: World<C>, w': World<C>, c: C) {
    && w'.waiting == w.waiting && c in w.clients && c in w'.clients
    && w'.clients[c] == w.clients[c].(dirty := w'.clients[c].dirty)
  }

  lemma TakeTakes<C>(w: World<C>, i: nat, c: C, key: string, left: bool, now: int)
    requires i < |w.stores| && c in w.clients && HasItems(w.stores[i].db, key) && !Expired(w.stores[i].db, key, now)
    ensures var w' := AffectAll(w, On(i, TakeOps(w.stores[i].db, key, left)));
      && HasItems(Live(w.stores[i].db, now), key)
      && Live(w'.stores[i].db, now) == Taken(Live(w.stores[i].db, now), key, left)
      && Unmoved(w, w', c) && OthersSame(w, w', i)
  {
    hide Live;
    hide Act;
    hide AffectAll;
    TakeActs(w, i, key, left);
    TakeShows(w.stores[i].db, key, left, now);
    var rest := Rest(w.stores[i].db.data[key].items, left);
    ActIsQuiet(w, i, InPlace(key, List(rest)));
    ActIsQuiet(Act(w, i, InPlace(key, List(rest))), i, Op.Del(key));
  }

  // Of the lists that a reader can see, the first one with an element loses it. Without any, the
  // database looks as before and the client waits for all keys. No other database is involved.
  lemma {:induction false} PopTakesOne<C>(w: World<C>, i: nat, c: C, pop: Pop, keys: seq<string>, now: int)
    requires i < |w.stores| && c in w.clients
    ensures var live, w' := Live(w.stores[i].db, now), AffectAll(w, PopTrace(w.stores[i].db, i, c, pop, keys, now));
      match FirstList(live, keys)
      case Some(key) => Live(w'.stores[i].db, now) == Taken(live, key, pop.left) && Unmoved(w, w', c)
      case None =>
        && Live(w'.stores[i].db, now) == live && w'.waiting == RegisterAll(w.waiting, pop.keys, c)
        && w'.clients[c].blocked && w'.clients[c].blockCmd == Some(pop)
    ensures OthersSame(w, AffectAll(w, PopTrace(w.stores[i].db, i, c, pop, keys, now)), i)
    decreases |keys|
  {
    hide Live;
    hide Act;
    hide AffectAll;
    hide PopTrace;
    hide RegisterAll;
    hide Taken;
    hide TakeOps;
    var db := w.stores[i].db;
    if keys == [] {
      PopWaits(w, i, c, pop, keys, now);
    } else {
      var looked := Act(w, i, Expire(keys[0], now));
      ActIsQuiet(w, i, Expire(keys[0], now));
      LookKeepsLive(db, keys[0], now);
      LookShowsLive(db, keys[0], now);
      PopLooks(w, i, c, pop, keys, now);
      if HasItems(looked.stores[i].db, keys[0]) {
        TakeTakes(looked, i, c, keys[0], pop.left, now);
      } else {
        PopTakesOne(looked, i, c, pop, keys[1..], now);
      }
    }
  }

  // ---------- A push is seen, and handed over ----------

  lemma LiveAfterAssign(db: Db, key: string, value: Value, now: int)
    requires key !in db.data && !Expired(db, key, now)
    ensures var live := Live(db, now);
      && key !in live.data
      && Live(Apply(db, Assign(key, value)), now) == live.(data := live.data[key := value])
      && !Expired(Apply(db, Assign(key, value)), key, now)
  {
    var a, b := Live(Apply(db, Assign(key, value)), now), Live(db, now);
    assert a.data == b.data[key := value] && a.expires == b.expires;
  }

  lemma GrowShows(db: Db, key: string, values: seq<string>, left: bool, now: int)
    requires !Expired(db, key, now) && (key in db.data ==> db.data[key].List?)
    ensures var made := if key in db.data then db else Apply(db, Assign(key, List([])));
      var all := List(Pushed(ItemsOf(db, key), values, left));
      Live(Apply(made, InPlace(key, all)), now) == Grown(Live(db, now), key, values, left)
  {
    LookShowsLive(db, key, now);
    hide Live;
    hide Pushed;
    var made := if key in db.data then db else Apply(db, Assign(key, List([])));
    var all := List(Pushed(ItemsOf(db, key), values, left));
    if key !in db.data {
      LiveAfterAssign(db, key, List([]), now);
    }
    LiveAfterWrite(made, key, all, now);
  }

  // The state in which the elements are in and the waiting clients have not been served.
  lemma PushAdds<C>(w: World<C>, i: nat, key: string, values: seq<string>, left: bool, now: int)
    returns (pushed: World<C>)
    requires i < |w.stores| && values != []
    requires var live := Live(w.stores[i].db, now); key in live.data ==> live.data[key].List?
    ensures OthersSame(w, pushed, i) && pushed.waiting == w.waiting && pushed.clients.Keys == w.clients.Keys
    ensures forall c <- w.clients :: pushed.clients[c] == w.clients[c].(dirty := pushed.clients[c].dirty)
    ensures Live(pushed.stores[i].db, now) == Grown(Live(w.stores[i].db, now), key, values, left)
    ensures AffectAll(w, PushTrace(w, i, key, values, left, now)) == AffectAll(pushed, ServeTrace(pushed, key, now))
  {
    hide Live;
    hide Act;
    hide AffectAll;
    hide ServeTrace;
    hide PushTrace;
    hide Pushed;
    var db := w.stores[i].db;
    var looked := Act(w, i, Expire(key, now));
    ActIsQuiet(w, i, Expire(key, now));
    LookKeepsLive(db, key, now);
    LookShowsLive(db, key, now);
    PushActs(w, i, key, values, left, now);
    var d := looked.stores[i].db;
    GrowShows(d, key, values, left, now);
    var all := List(Pushed(ItemsOf(d, key), values, left));
    var made := if key !in d.data then Act(looked, i, Assign(key, List([]))) else looked;
    ActIsQuiet(looked, i, Assign(key, List([])));
    pushed := Act(made, i, InPlace(key, all));
    ActIsQuiet(made, i, InPlace(key, all));
  }

  // A push that nobody waits for: the list a reader sees has the values at its end, in order, or
  // at its front, the last one first. Nothing else looks different.
  lemma PushStores<C>(w: World<C>, i: nat, key: string, values: seq<string>, left: bool, now: int)
    requires i < |w.stores| && values != [] && Unawaited(w, key)
    requires var live := Live(w.stores[i].db, now); key in live.data ==> live.data[key].List?
    ensures var live, w' := Live(w.stores[i].db, now), AffectAll(w, PushTrace(w, i, key, values, left, now));
      var all := ItemsOf(Live(w'.stores[i].db, now), key);
      && Live(w'.stores[i].db, now) == live.(data := live.data[key := List(all)])
      && (if left then Stacked(all, values, ItemsOf(live, key)) else all == ItemsOf(live, key) + values)
      && OthersSame(w, w', i) && Unawaited(w', key)
  {
    hide Live;
    hide AffectAll;
    hide PushTrace;
    hide ServeTrace;
    hide Pushed;
    var pushed := PushAdds(w, i, key, values, left, now);
    NobodyToServe(pushed, key, now);
    PushedIs(ItemsOf(Live(w.stores[i].db, now), key), values, left);
  }

  // A key of another type refuses the push: nothing looks different and nobody is served.
  lemma PushRefused<C>(w: World<C>, i: nat, key: string, values: seq<string>, left: bool, now: int)
    requires i < |w.stores|
    requires var live := Live(w.stores[i].db, now); key in live.data && !live.data[key].List?
    ensures var w' := AffectAll(w, PushTrace(w, i, key, values, left, now));
      && Live(w'.stores[i].db, now) == Live(w.stores[i].db, now) && OthersSame(w, w', i) && w'.waiting == w.waiting
      && forall c <- w.clients :: c in w'.clients && w'.clients[c] == w.clients[c].(dirty := w'.clients[c].dirty)
  {
    hide Live;
    hide Act;
    hide AffectAll;
    hide ServeTrace;
    hide PushTrace;
    hide Pushed;
    ActIsQuiet(w, i, Expire(key, now));
    LookKeepsLive(w.stores[i].db, key, now);
    LookShowsLive(w.stores[i].db, key, now);
    PushActs(w, i, key, values, left, now);
  }

  predicate Unawaited<C(==)>(w: World<C>, key: string) {
    key !in w.waiting || w.waiting[key] == []
  }

  // LPUSH and RPUSH as a client sends them. RPUSH stores its values twice.
  lemma PushCommandStores<C>(w: World<C>, c: C, key: string, values: seq<string>, left: bool, now: int)
    requires w.stores != [] && c in w.clients && values != [] && Unawaited(w, key)
    requires var live := Live(w.stores[Index(w, w.clients[c].selected)].db, now);
      key in live.data ==> live.data[key].List?
    ensures var i := Index(w, w.clients[c].selected);
      var live, w' := Live(w.stores[i].db, now), Perform(w, c, Push(key, values, left, now));
      var all := ItemsOf(Live(w'.stores[i].db, now), key);
      && Live(w'.stores[i].db, now) == live.(data := live.data[key := List(all)])
      && (if left then Stacked(all, values, ItemsOf(live, key)) else all == ItemsOf(live, key) + values + values)
      && OthersSame(w, w', i)
  {
    hide Live;
    hide AffectAll;
    hide PushTrace;
    hide Stacked;
    var i := Index(w, w.clients[c].selected);
    PushStores(w, i, key, values, left, now);
    if !left {
      var once := AffectAll(w, PushTrace(w, i, key, values, false, now));
      PushTwice(w, c, key, values, now);
      PushStores(once, i, key, values, false, now);
    }
  }

  // A pop at the end of the last push takes that back; at the other end it takes the oldest.
  lemma PopAfterPush(db: Db, key: string, v: string, left: bool)
    requires HasItems(db, key)
    ensures var grown := Grown(db, key, [v], left);
      && HasItems(grown, key) && Taken(grown, key, left) == db
      && var items := db.data[key].items;
         Taken(grown, key, !left) ==
           db.(data := db.data[key := List(if left then [v] + items[..|items| - 1] else items[1..] + [v])])
  {
    var items := db.data[key].items;
    PushedIs(items, [v], left);
    assert Pushed(items, [v], left) == if left then [v] + items else items + [v];
    assert ([v] + items)[1..] == items && (items + [v])[..|items|] == items;
    assert ([v] + items)[..|items|] == [v] + items[..|items| - 1];
    assert (items + [v])[1..] == items[1..] + [v];
    assert db.data[key := List(items)] == db.data;
  }

  predicate FirstAt(db: Db, keys: seq<string>, n: nat) {
    n < |keys| && HasItems(db, keys[n]) && forall m :: 0 <= m < n ==> !HasItems(db, keys[m])
  }

  // Found is the key that comes first in the order of the command among those with an element.
  lemma {:induction false} FirstListIs(db: Db, keys: seq<string>)
    ensures var first := FirstList(db, keys);
      && (first == None <==> forall n :: 0 <= n < |keys| ==> !HasItems(db, keys[n]))
      && (first.Some? ==> exists n: nat :: FirstAt(db, keys, n) && keys[n] == first.value)
    decreases |keys|
  {
    if keys != [] {
      if HasItems(db, keys[0]) {
        assert FirstAt(db, keys, 0);
      } else {
        FirstListIs(db, keys[1..]);
        assert forall n :: 0 < n < |keys| ==> keys[n] == keys[1..][n - 1];
        if FirstList(db, keys[1..]).Some? {
          var n: nat :| FirstAt(db, keys[1..], n) && keys[1..][n] == FirstList(db, keys[1..]).value;
          assert FirstAt(db, keys, n + 1);
        }
      }
    }
  }

  // Only this key has become a list with elements.
  lemma {:induction false} FoundAfterPush(db: Db, key: string, values: seq<string>, left: bool, keys: seq<string>)
    requires key in keys && values != []
    ensures FirstList(Grown(db, key, values, left), keys).Some?
    ensures FirstList(db, keys) == None ==> FirstList(Grown(db, key, values, left), keys) == Some(key)
    decreases |keys|
  {
    PushedIs(ItemsOf(db, key), values, left);
    if keys[0] != key {
      FoundAfterPush(db, key, values, left, keys[1..]);
    }
  }

  // What the woken client looks at: its own database, which may be the one that has grown.
  function Seen<C>(w: World<C>, i: nat, j: nat, key: string, values: seq<string>, left: bool, now: int): Db
    requires i < |w.stores| && j < |w.stores|
  {
    var live := Live(w.stores[j].db, now);
    if j == i then Grown(live, key, values, left) else live
  }

  // A push under a key in database i, while c, in its own database, has waited longest for the
  // key. The waiting client is woken whatever the database. If it finds a list with an element
  // there, it takes one and waits no more; else it waits again, entered anew under all its keys.
  lemma PushMeetsWaiter<C>(w: World<C>, i: nat, key: string, values: seq<string>, left: bool, now: int, c: C)
    requires i < |w.stores| && values != [] && Front(w, key, c)
    requires var live := Live(w.stores[i].db, now); key in live.data ==> live.data[key].List?
    ensures var j, pop := Index(w, w.clients[c].selected), w.clients[c].blockCmd.value;
      var w' := AffectAll(w, PushTrace(w, i, key, values, left, now));
      var seen, woken := Seen(w, i, j, key, values, left, now), DeregisterAll(w.waiting, Names(pop.keys), c);
      match FirstList(seen, pop.keys)
      case Some(k) => !w'.clients[c].blocked && w'.waiting == woken && Live(w'.stores[j].db, now) == Taken(seen, k, pop.left)
      case None =>
        && w'.clients[c].blocked && w'.clients[c].blockCmd == Some(pop)
        && w'.waiting == RegisterAll(woken, pop.keys, c) && Live(w'.stores[j].db, now) == seen
    ensures var w' := AffectAll(w, PushTrace(w, i, key, values, left, now));
      Index(w, w.clients[c].selected) != i ==>
        Live(w'.stores[i].db, now) == Grown(Live(w.stores[i].db, now), key, values, left)
  {
    hide Live;
    hide Act;
    hide AffectAll;
    hide ServeTrace;
    hide PushTrace;
    hide PopTrace;
    hide Grown;
    hide Taken;
    hide FirstList;
    hide DeregisterAll;
    hide RegisterAll;
    var j, pop := Index(w, w.clients[c].selected), w.clients[c].blockCmd.value;
    var pushed := PushAdds(w, i, key, values, left, now);
    ServeIs(pushed, c, key, now);
    PopTakesOne(DoWake(pushed, c), j, c, pop, pop.keys, now);
  }

  // So the client is served exactly if the push went to its own database, or its own database had
  // an element for it anyway.
  lemma ServedIff<C>(w: World<C>, i: nat, key: string, values: seq<string>, left: bool, now: int, c: C)
    requires i < |w.stores| && values != [] && Front(w, key, c)
    requires var live := Live(w.stores[i].db, now); key in live.data ==> live.data[key].List?
    ensures var j := Index(w, w.clients[c].selected);
      var w' := AffectAll(w, PushTrace(w, i, key, values, left, now));
      !w'.clients[c].blocked <==>
        j == i || FirstList(Live(w.stores[j].db, now), w.clients[c].blockedKeys).Some?
  {
    hide Live;
    hide AffectAll;
    hide PushTrace;
    hide Grown;
    hide DeregisterAll;
    hide RegisterAll;
    PushMeetsWaiter(w, i, key, values, left, now, c);
    FoundAfterPush(Live(w.stores[i].db, now), key, values, left, w.clients[c].blockedKeys);
  }

  // Entered anew, a client stands behind everybody else under each of its keys.
  lemma {:induction false} EnteredLast<C>(r: Registry<string, C>, keys: seq<string>, c: C, k: string)
    ensures var s := RegisterAll(r, keys, c);
      && (k in s <==> k in r || k in keys)
      && (k in s ==>
            var before := if k in r then r[k] else [];
            before <= s[k] && forall n :: |before| <= n < |s[k]| ==> s[k][n] == c)
    decreases |keys|
  {
    if keys != [] {
      EnteredLast(Register(r, keys[0], c), keys[1..], c, k);
    }
  }

  // A push to another database that does not help: the elements stay there, and the client has
  // lost its place.
  lemma LosesItsPlace<C>(w: World<C>, i: nat, key: string, values: seq<string>, left: bool, now: int, c: C)
    requires i < |w.stores| && values != [] && Front(w, key, c)
    requires var live := Live(w.stores[i].db, now); key in live.data ==> live.data[key].List?
    requires var j := Index(w, w.clients[c].selected);
      j != i && FirstList(Live(w.stores[j].db, now), w.clients[c].blockedKeys) == None
    ensures var w' := AffectAll(w, PushTrace(w, i, key, values, left, now));
      && w'.clients[c].blocked
      && Live(w'.stores[i].db, now) == Grown(Live(w.stores[i].db, now), key, values, left)
      && key in w'.waiting
      && (var others := Without(w.waiting[key], c);
          others <= w'.waiting[key] && forall n :: |others| <= n < |w'.waiting[key]| ==> w'.waiting[key][n] == c)
  {
    hide Live;
    hide AffectAll;
    hide PushTrace;
    hide Grown;
    hide RegisterAll;
    hide Without;
    var pop := w.clients[c].blockCmd.value;
    PushMeetsWaiter(w, i, key, values, left, now, c);
    var woken := DeregisterAll(w.waiting, Names(pop.keys), c);
    EnteredLast(woken, pop.keys, c, key);
    assert (if key in woken then woken[key] else []) == Without(w.waiting[key], c);
  }

  // A client waits for lists that have no elements. A push under one of its keys, in its database,
  // when it has waited longest for that key, ends its wait with the first element from its end.
  lemma PushReachesWaiter<C>(w: World<C>, key: string, values: seq<string>, left: bool, now: int, c: C)
    requires w.stores != [] && values != [] && Front(w, key, c)
    requires var live := Live(w.stores[Index(w, w.clients[c].selected)].db, now);
      FirstList(live, w.clients[c].blockedKeys) == None && (key in live.data ==> live.data[key].List?)
    ensures var i := Index(w, w.clients[c].selected);
      var grown := Grown(Live(w.stores[i].db, now), key, values, left);
      var w' := AffectAll(w, PushTrace(w, i, key, values, left, now));
      && !w'.clients[c].blocked && HasItems(grown, key)
      && Live(w'.stores[i].db, now) == Taken(grown, key, w.clients[c].blockCmd.value.left)
  {
    hide Live;
    hide AffectAll;
    hide PushTrace;
    hide Grown;
    hide DeregisterAll;
    hide RegisterAll;
    var i := Index(w, w.clients[c].selected);
    PushMeetsWaiter(w, i, key, values, left, now, c);
    FoundAfterPush(Live(w.stores[i].db, now), key, values, left, w.clients[c].blockedKeys);
  }

  // One element pushed where nothing was passes through: the database looks as if nothing had
  // happened.
  lemma PassedThrough<C>(w: World<C>, key: string, value: string, left: bool, now: int, c: C)
    requires w.stores != [] && Front(w, key, c)
    requires var live := Live(w.stores[Index(w, w.clients[c].selected)].db, now);
      FirstList(live, w.clients[c].blockedKeys) == None && key !in live.data
    ensures var i := Index(w, w.clients[c].selected);
      var w' := AffectAll(w, PushTrace(w, i, key, [value], left, now));
      !w'.clients[c].blocked && Live(w'.stores[i].db, now) == Live(w.stores[i].db, now)
  {
    hide Live;
    hide AffectAll;
    hide PushTrace;
    hide Grown;
    hide Taken;
    PushReachesWaiter(w, key, [value], left, now, c);
    InAndOut(w.stores[Index(w, w.clients[c].selected)].db, key, value, left, now, w.clients[c].blockCmd.value.left);
  }

  lemma InAndOut(db: Db, key: string, value: string, left: bool, now: int, fromLeft: bool)
    requires key !in Live(db, now).data
    ensures var grown := Grown(Live(db, now), key, [value], left);
      HasItems(grown, key) && Taken(grown, key, fromLeft) == Live(db, now)
  {
    var live := Live(db, now);
    assert [value][1..] == [];
    assert Pushed([], [value], left) == [value];
    assert live.data[key := List([value])] - {key} == live.data && live.expires - {key} == live.expires;
  }

  // Behind the entry of a client that waits no more nobody is served: whatever is pushed, the
  // entry stays in front and everybody else goes on waiting.
  lemma StaleEntryServesNobody<C>(w: World<C>, i: nat, key: string, values: seq<string>, left: bool, now: int)
    requires i < |w.stores| && key in w.waiting && w.waiting[key] != [] && Free(w, w.waiting[key][0])
    ensures var w' := AffectAll(w, PushTrace(w, i, key, values, left, now));
      && w'.waiting == w.waiting && w'.clients.Keys == w.clients.Keys
      && forall c <- w.clients :: w'.clients[c] == w.clients[c].(dirty := w'.clients[c].dirty)
  {
    hide Act;
    hide AffectAll;
    hide ServeTrace;
    hide PushTrace;
    hide Pushed;
    var looked := Act(w, i, Expire(key, now));
    ActIsQuiet(w, i, Expire(key, now));
    PushActs(w, i, key, values, left, now);
    var d := looked.stores[i].db;
    if key !in d.data || d.data[key].List? {
      var all := List(Pushed(ItemsOf(d, key), values, left));
      var made := if key !in d.data then Act(looked, i, Assign(key, List([]))) else looked;
      ActIsQuiet(looked, i, Assign(key, List([])));
      var pushed := Act(made, i, InPlace(key, all));
      ActIsQuiet(made, i, InPlace(key, all));
      NobodyIsServed(pushed, key, now);
    }
  }

  lemma NobodyIsServed<C>(w: World<C>, key: string, now: int)
    requires w.stores != [] && key in w.waiting && w.waiting[key] != [] && Free(w, w.waiting[key][0])
    ensures AffectAll(w, ServeTrace(w, key, now)) == w
  {
    AffectOne(w, Wake(w.waiting[key][0]));
  }

  // ---------- A run in which a client loses its place ----------

  const POP_K := Pop(["k"], true, 0)

  // Two clients wait for k in the first of two databases, and then a third one pushes to k in
  // the second.
  function Waiting<C>(c: C, d: C, e: C): World<C>
    requires c != d && c != e && d != e
  {
    var waiter := NEW_CLIENT.(blocked := true, blockedKeys := ["k"], blockCmd := Some(POP_K));
    World(map[c := waiter, e := waiter, d := NEW_CLIENT.(selected := 1)],
      [Store(EMPTY, map[]), Store(EMPTY, map[])], map[], [], map["k" := [c, e]])
  }

  lemma WaitingIsReached<C>(c: C, d: C, e: C)
    requires c != d && c != e && d != e
    ensures var begun := Step(Step(Step(Start([EMPTY, EMPTY]), Connect(c)), Connect(d)), Connect(e));
      var blocked := Step(Step(begun, Execute(c, BPop(POP_K, 0))), Execute(e, BPop(POP_K, 0)));
      Step(blocked, Execute(d, Select(1))) == Waiting(c, d, e)
  {
    hide Perform;
    var begun := Step(Step(Step(Start<C>([EMPTY, EMPTY]), Connect(c)), Connect(d)), Connect(e));
    assert begun.clients == map[c := NEW_CLIENT, d := NEW_CLIENT, e := NEW_CLIENT];
    PopInVain(begun, c, "k", 0);
    var one := DoWait(begun, c, POP_K, 0);
    RegisterOne(begun.waiting, "k", c);
    assert [] + [c] == [c] && [c] + [e] == [c, e];
    assert one.waiting == map["k" := [c]];
    PopInVain(one, e, "k", 0);
    var both := DoWait(one, e, POP_K, 0);
    RegisterOne(one.waiting, "k", e);
    assert both.waiting == map["k" := [c, e]];
    SelectIs(both, d, 1);
    var after := Update(both, d, both.clients[d].(selected := 1));
    assert after.clients == Waiting(c, d, e).clients;
  }

  lemma RegisterOne<C>(r: Registry<string, C>, k: string, c: C)
    ensures RegisterAll(r, [k], c) == r[k := (if k in r then r[k] else []) + [c]]
  {
    assert [k][1..] == [];
  }

  // A number that names no database leaves the selection as it is.
  lemma SelectIs<C>(w: World<C>, c: C, n: int)
    requires w.stores != [] && c in w.clients
    ensures Perform(w, c, Select(n)) ==
      if 0 <= n < |w.stores| then Update(w, c, w.clients[c].(selected := n)) else w
  {
    if 0 <= n < |w.stores| {
      AffectOne(w, Choose(c, n));
    }
  }

  // The element stays in the second database, and the first client now stands behind the other.
  lemma WokenInVain<C>(c: C, d: C, e: C)
    requires c != d && c != e && d != e
    ensures var w := Step(Waiting(c, d, e), Execute(d, Push("k", ["v"], true, 0)));
      && w.waiting == map["k" := [e, c]] && c in w.clients && w.clients[c].blocked
      && Live(w.stores[1].db, 0).data == map["k" := List(["v"])]
  {
    hide AffectAll;
    hide PushTrace;
    hide RegisterAll;
    hide DeregisterAll;
    var w := Waiting(c, d, e);
    assert Step(w, Execute(d, Push("k", ["v"], true, 0))) == AffectAll(w, PushTrace(w, 1, "k", ["v"], true, 0));
    assert Live(EMPTY, 0) == EMPTY;
    PushMeetsWaiter(w, 1, "k", ["v"], true, 0, c);
    assert FirstList(EMPTY, ["k"]) == None by {
      assert ["k"][1..] == [];
    }
    RequeueIs(c, e);
    assert ["v"][1..] == [] && Pushed([], ["v"], true) == ["v"];
  }

  lemma RequeueIs<C>(c: C, e: C)
    requires c != e
    ensures var r: Registry<string, C> := map["k" := [c, e]];
      RegisterAll(DeregisterAll(r, Names(["k"]), c), ["k"], c) == map["k" := [e, c]]
  {
    var r: Registry<string, C> := map["k" := [c, e]];
    assert [c, e][1..] == [e] && [e][1..] == [];
    assert Without([e], c) == [e] + Without([], c);
    assert Without([c, e], c) == [e];
    assert "k" in Names(["k"]);
    assert DeregisterAll(r, Names(["k"]), c) == map["k" := [e]];
    assert [e] + [c] == [e, c];
    RegisterOne(DeregisterAll(r, Names(["k"]), c), "k", c);
  }
}

// The server object: handlers that change clients, databases and registries in place, each one a
// step of the state machine.

module Servers {
  import opened Wrappers
  import opened Keyspace
  import opened Stores
  import opened Memory
  import opened Registries
  import opened Databases
  import W = World
  import Expiry
  import Eviction
  import Maps
  import Mirrors
  import Steps
  import Transactions
  import opened Seqs

  ghost function StoresOf(dbs: seq<Database>): (r: seq<W.Store<Client>>)
    reads dbs
    ensures |r| == |dbs| && forall i :: 0 <= i < |dbs| ==> r[i] == dbs[i].Store()
  {
    if dbs == [] then [] else [dbs[0].Store()] + StoresOf(dbs[1..])
  }

  ghost function StatesOf(clients: set<Client>): (r: map<Client, W.ClientState>)
    reads clients
    ensures r.Keys == clients && forall c <- clients :: r[c] == c.State()
  {
    map c | c in clients :: c.State()
  }

  // Every entry is a connected client.
  ghost predicate Connected(r: Registry<string, Client>, clients: set<Client>) {
    forall k <- r :: forall c <- r[k] :: c in clients
  }

  // Distinct databases that hold nothing, on one counter.
  ghost predicate Unused(dbs: seq<Database>, manager: MemoryManager)
    reads dbs
  {
    && (forall i, j :: 0 <= i < j < |dbs| ==> dbs[i] != dbs[j])
    && (forall i :: 0 <= i < |dbs| ==>
         && dbs[i].memory == manager && dbs[i].Sound()
         && dbs[i].Db() == EMPTY && dbs[i].watchedKeys == map[])
  }

  class Server {
    const databases: seq<Database>
    const memory: MemoryManager
    var clients: set<Client>
    var channels: Registry<string, Client>
    var patterns: seq<(string, Client)>
    var waiting: Registry<string, Client>

    // Distinct databases that book on the same counter, with expiries and clocks for stored keys
    // alone; only connected clients watch and wait.
    ghost predicate Valid(): (v: bool)
      reads this`clients, this`waiting, databases`watchedKeys
      reads databases`data, databases`expires, databases`clocks
      ensures v ==> databases != []
    {
      && databases != []
      && (forall i, j :: 0 <= i < j < |databases| ==> databases[i] != databases[j])
      && (forall i :: 0 <= i < |databases| ==>
           databases[i].memory == memory && databases[i].Sound() && databases[i].Watchers() <= clients)
      && Connected(waiting, clients)
    }

    ghost function World(): (w: W.World<Client>)
      reads this, clients, databases
      ensures w.clients.Keys == clients && |w.stores| == |databases|
      ensures w.channels == channels && w.patterns == patterns && w.waiting == waiting
    {
      W.World(StatesOf(clients), StoresOf(databases), channels, patterns, waiting)
    }

    constructor (count: nat)
      requires count > 0
      ensures Valid() && |databases| == count && memory.used == 0 && Eviction.Booked(databases, memory)
      ensures World() == Mirrors.Start(seq(count, i => EMPTY))
    {
      var manager := new MemoryManager();
      var dbs := Server.EmptyDatabases(count, manager);
      databases, memory, clients := dbs, manager, {};
      channels, patterns, waiting := map[], [], map[];
      new;
      hide World;
      hide Valid;
      hide Unused;
      hide Eviction.Booked;
      StartIs();
    }

    static method EmptyDatabases(count: nat, manager: MemoryManager) returns (dbs: seq<Database>)
      ensures |dbs| == count && fresh(dbs) && Unused(dbs, manager)
    {
      dbs := [];
      for i := 0 to count
        invariant |dbs| == i && fresh(dbs) && Unused(dbs, manager)
      {
        var db := new Database(manager);
        dbs := dbs + [db];
      }
    }

    lemma StartIs()
      requires clients == {} && channels == map[] && patterns == [] && waiting == map[]
      requires databases != [] && Unused(databases, memory) && memory.used == 0
      ensures Valid() && World() == Mirrors.Start(seq(|databases|, i => EMPTY)) && Eviction.Booked(databases, memory)
    {
      Eviction.NothingLeft(Eviction.Dbs(databases));
      assert forall i :: 0 <= i < |databases| ==> databases[i].Store() == W.Store(EMPTY, map[]);
      assert StatesOf({}) == map[];
      assert StoresOf(databases) == Mirrors.Start<Client>(seq(|databases|, i => EMPTY)).stores;
    }

    // ---------- Operations on databases ----------

    lemma ShowsClient(client: Client)
      requires client in clients
      ensures World().clients[client] == client.State()
    {
    }

    lemma ShowsStores()
      ensures forall i :: 0 <= i < |databases| ==> World().stores[i] == databases[i].Store()
    {
    }

    // One database has performed op: its watchers know, and nothing else is different.
    twostate lemma Acted(new i: nat, new op: Op)
      requires old(Valid()) && Valid() && clients == old(clients) && i < |databases|
      requires forall j :: 0 <= j < |databases| && j != i ==> databases[j].Store() == old(databases[j].Store())
      requires databases[i].Db() == Apply(old(databases[i].Db()), op)
      requires databases[i].watchedKeys == old(databases[i].watchedKeys)
      requires forall c <- databases[i].Watchers() ::
        c.dirty == (old(c.dirty) || W.Hit(old(databases[i].Store()), op, c))
      requires forall c <- clients :: c.State() == old(c.State()).(dirty := c.dirty)
      requires forall c <- clients :: c !in databases[i].Watchers() ==> c.dirty == old(c.dirty)
      requires channels == old(channels) && patterns == old(patterns) && waiting == old(waiting)
      ensures World() == W.Act(old(World()), i, op)
    {
      hide Valid;
      hide W.Hit;
      hide Apply;
      ghost var w := old(World());
      forall c <- clients
        ensures c.State() == if W.Hit(w.stores[i], op, c) then w.clients[c].(dirty := true) else w.clients[c]
      {
        if c !in databases[i].Watchers() {
          NotWatching(w.stores[i], op, c, databases[i].Watchers());
        }
      }
      ActIs(w, World(), i, op);
    }

    method PerformOp(i: nat, op: Op) returns (ghost order: seq<string>)
      requires Valid() && i < |databases| && !op.Cycle?
      modifies databases`data, databases`expires, databases`clocks, memory`used, clients`dirty
      ensures Valid() && World() == W.Act(old(World()), i, op)
      ensures memory.used == Book(old(memory.used), old(databases[i].Db()), op, order)
      ensures op.Flush? ==> Maps.Lists(order, old(databases[i].data).Keys)
      ensures old(Eviction.Booked(databases, memory)) && !Unbooked(old(databases[i].Db()), op) ==>
        Eviction.Booked(databases, memory)
    {
      hide World;
      hide Apply;
      hide W.Act;
      hide Book;
      hide W.Hit;
      hide Unbooked;
      hide Eviction.Booked;
      order := databases[i].Perform(op);
      Acted(i, op);
      CounterFollows(i, op, order);
    }

    // The counter that was the sum of the estimates is so again, unless the operation is one that
    // it does not follow.
    twostate lemma CounterFollows(new i: nat, new op: Op, new order: seq<string>)
      requires i < |databases| && (op.Flush? ==> Maps.Lists(order, old(databases[i].data).Keys))
      requires forall j :: 0 <= j < |databases| && j != i ==> databases[j].Db() == old(databases[j].Db())
      requires databases[i].Db() == Apply(old(databases[i].Db()), op)
      requires memory.used == Book(old(memory.used), old(databases[i].Db()), op, order)
      ensures old(Eviction.Booked(databases, memory)) && !Unbooked(old(databases[i].Db()), op) ==>
        Eviction.Booked(databases, memory)
    {
      hide Apply;
      hide Book;
      hide Unbooked;
      hide Total;
      hide TotalAll;
      ghost var was := old(Eviction.Dbs(databases));
      TotalAllUpdate(was, i, databases[i].Db());
      assert Eviction.Dbs(databases) == was[i := databases[i].Db()];
      if old(memory.used) == TotalAll(was) {
        BookIsExact(old(memory.used), old(memory.used) - Total(was[i].data), was[i], op, order);
      }
    }

    // The lookup of a handler that means to write.
    method Fetch(i: nat, key: string, now: int) returns (value: Option<Value>)
      requires Valid() && i < |databases|
      modifies databases`data, databases`expires, databases`clocks, memory`used, clients`dirty
      ensures Valid() && World() == W.Act(old(World()), i, Expire(key, now))
      ensures memory.used == Book(old(memory.used), old(databases[i].Db()), Expire(key, now), [])
      ensures value == if key in databases[i].data then Some(databases[i].data[key]) else None
    {
      hide World;
      hide Apply;
      hide W.Act;
      hide Book;
      hide W.Hit;
      hide Expiry.Reply;
      ghost var db := databases[i].Db();
      value := databases[i].GetObjectForWrite(key, now);
      FoundIs(db, key, now, value);
      Acted(i, Expire(key, now));
    }

    // The cron's turn for one database.
    method ExpireSome(i: nat, now: int) returns (ghost keys: seq<string>)
      requires Valid() && i < |databases|
      modifies databases`data, databases`expires, databases`clocks, memory`used, clients`dirty
      ensures Valid() && World() == W.Act(old(World()), i, Cycle(keys, now))
      ensures memory.used == Book(old(memory.used), old(databases[i].Db()), Cycle(keys, now), [])
      ensures |keys| <= 20 && Distinct(keys) && forall k <- keys :: k in old(databases[i].expires)
      ensures |keys| < 20 ==> forall k <- old(databases[i].expires) :: k in keys
    {
      hide World;
      hide Apply;
      hide W.Act;
      hide Book;
      hide W.Hit;
      hide Distinct;
      keys := databases[i].ActiveExpireCycle(20, now);
      Acted(i, Cycle(keys, now));
    }

    // The other clients and the databases are as they were.
    twostate lemma OnlyChanged(new client: Client)
      requires allocated(client) && client in clients && clients == old(clients)
      requires forall c <- clients :: c != client ==> c.State() == old(c.State())
      requires forall d <- databases :: d.Store() == old(d.Store())
      ensures old(World()).clients[client] == old(client.State())
      ensures World() ==
        W.World(old(World()).clients[client := client.State()], old(World()).stores, channels, patterns, waiting)
    {
      assert World().stores == old(World()).stores;
      assert World().clients == old(World()).clients[client := client.State()];
    }

    // Valid needs nothing of the waiting lists but that they know connected clients.
    twostate lemma StillValid()
      requires old(Valid()) && clients == old(clients) && Connected(waiting, clients)
      requires forall d <- databases :: d.Store() == old(d.Store()) && d.clocks == old(d.clocks)
      ensures Valid()
    {
    }

    lemma WaitersConnected()
      requires Valid()
      ensures Connected(waiting, clients)
    {
    }

    lemma FrontIsConnected(key: string)
      requires Valid() && key in waiting && waiting[key] != []
      ensures waiting[key][0] in clients
    {
    }

    // Only this client's fields are not as they were.
    twostate lemma OthersKept(new client: Client)
      requires allocated(client) && client in clients && clients == old(clients)
      requires forall c <- clients :: c != client ==> c.State() == old(c.State())
      ensures old(World()).clients[client] == old(client.State())
      ensures World().clients == old(World()).clients[client := client.State()]
    {
    }

    // ---------- Transactions ----------

    method Multi(client: Client) returns (ok: bool)
      requires Valid() && client in clients
      modifies client`multi
      ensures Valid() && World() == W.Answer(old(World()), W.Multi(client)) && ok == !old(client.multi)
    {
      hide World;
      hide Valid;
      hide W.DoExec;
      hide W.DoClose;
      hide W.DoDiscard;
      hide W.Act;
      ShowsClient(client);
      if client.multi {
        SameUpdate(World(), client);
        return false;
      }
      client.multi := true;
      OnlyChanged(client);
      ok := true;
    }

    // Takes the client out of every database's lists for the keys it watches.
    method ForgetWatches(client: Client)
      requires Valid() && client in clients
      modifies databases`watchedKeys, client`watched
      ensures Valid() && World() == W.Forget(old(World()), client)
    {
      hide World;
      hide DeregisterAll;
      hide Valid;
      hide W.Forget;
      ShowsClient(client);
      ghost var w := World();
      ShowsStores();
      RemoveKeys(client.watched, client);
      client.watched := {};
      ShowsStores();
      OthersKept(client);
      ForgetIs(w, World(), client);
    }

    method RemoveKeys(keys: set<string>, client: Client)
      requires Valid()
      modifies databases`watchedKeys
      ensures Valid()
      ensures forall j :: 0 <= j < |databases| ==>
        databases[j].watchedKeys == DeregisterAll(old(databases[j].watchedKeys), keys, client)
    {
      hide DeregisterAll;
      ghost var before := StoresOf(databases);
      var left := keys;
      DeregisterNothing(databases, client);
      assert keys - left == {};
      while left != {}
        invariant left <= keys
        invariant forall j :: 0 <= j < |databases| ==>
          databases[j].watchedKeys == DeregisterAll(before[j].watchers, keys - left, client)
      {
        var key :| key in left;
        ghost var done := keys - left;
        left := left - {key};
        assert keys - left == done + {key};
        RemoveFromAll(key, client, before, done);
      }
      assert keys - left == keys;
      forall j | 0 <= j < |databases| ensures databases[j].Watchers() <= clients {
        WatchersShrink(before[j].watchers, keys, client);
      }
    }

    method RemoveFromAll(key: string, client: Client, ghost before: seq<W.Store<Client>>, ghost done: set<string>)
      requires |before| == |databases|
      requires forall i, j :: 0 <= i < j < |databases| ==> databases[i] != databases[j]
      requires forall j :: 0 <= j < |databases| ==>
        databases[j].watchedKeys == DeregisterAll(before[j].watchers, done, client)
      modifies databases`watchedKeys
      ensures forall j :: 0 <= j < |databases| ==>
        databases[j].watchedKeys == DeregisterAll(before[j].watchers, done + {key}, client)
    {
      hide DeregisterAll;
      hide Deregister;
      for i := 0 to |databases|
        invariant forall j :: 0 <= j < i ==>
          databases[j].watchedKeys == DeregisterAll(before[j].watchers, done + {key}, client)
        invariant forall j :: i <= j < |databases| ==>
          databases[j].watchedKeys == DeregisterAll(before[j].watchers, done, client)
      {
        DeregisterOneMore(before[i].watchers, done, key, client);
        databases[i].RemoveWatchedKey(key, client);
      }
    }

    method Discard(client: Client) returns (ok: bool)
      requires Valid() && client in clients
      modifies databases`watchedKeys, client
      ensures Valid() && World() == W.Answer(old(World()), W.Discard(client)) && ok == old(client.multi)
    {
      hide World;
      hide Valid;
      hide W.DoExec;
      hide W.DoClose;
      hide W.Act;
      hide W.Forgotten;
      ShowsClient(client);
      if !client.multi {
        return false;
      }
      ForgetWatches(client);
      label forgotten:
      client.ClearTransaction();
      OnlyChanged@forgotten(client);
      ok := true;
    }

    method Unwatch(client: Client)
      requires Valid() && client in clients
      modifies databases`watchedKeys, client
      ensures Valid() && World() == W.Answer(old(World()), W.Unwatch(client))
    {
      hide World;
      hide Valid;
      hide W.DoExec;
      hide W.DoClose;
      hide W.DoDiscard;
      hide W.Act;
      hide W.Forgotten;
      ShowsClient(client);
      ForgetWatches(client);
      label forgotten:
      client.dirty := false;
      OnlyChanged@forgotten(client);
    }

    method Watch(client: Client, keys: seq<string>) returns (ok: bool)
      requires Valid() && client in clients
      modifies databases`watchedKeys, client`watched
      ensures Valid() && World() == W.Answer(old(World()), W.Watch(client, keys)) && ok == !old(client.multi)
    {
      hide World;
      hide W.DoExec;
      hide W.DoClose;
      hide W.DoDiscard;
      hide W.Act;
      hide RegisterAll;
      ShowsClient(client);
      if client.multi {
        return false;
      }
      ghost var w := World();
      ShowsStores();
      var index := if client.selected < |databases| then client.selected else 0;
      AddKeys(databases[index], keys, client);
      ShowsStores();
      OthersKept(client);
      WatchIs(w, World(), client, index, keys);
      ok := true;
    }

    method AddKeys(db: Database, keys: seq<string>, client: Client)
      requires client in clients && db.Watchers() <= clients
      modifies db`watchedKeys, client`watched
      ensures db.watchedKeys == RegisterAll(old(db.watchedKeys), keys, client)
      ensures client.watched == old(client.watched) + set k | k in keys
      ensures db.Watchers() <= clients
    {
      hide RegisterAll;
      RegisterNothing(db.watchedKeys, keys, client);
      for i := 0 to |keys|
        invariant RegisterAll(db.watchedKeys, keys[i..], client) == RegisterAll(old(db.watchedKeys), keys, client)
        invariant client.watched == old(client.watched) + set k | k in keys[..i]
        invariant db.Watchers() <= clients
      {
        RegisterFirst(db.watchedKeys, keys[i..], client);
        assert keys[i..][1..] == keys[i + 1..];
        client.watched := client.watched + {keys[i]};
        db.AddWatchedKey(keys[i], client);
      }
      RegisterNothing(db.watchedKeys, keys[|keys|..], client);
      assert keys[|keys|..] == [] && keys[..|keys|] == keys;
    }

    // ---------- Subscriptions ----------

    method SubscribeChannel(client: Client, channel: string)
      requires Valid() && client in clients
      modifies this`channels, client`channels
      ensures Valid() && World() == W.DoEnter(old(World()), client, channel)
    {
      hide World;
      hide Valid;
      ShowsClient(client);
      if channel !in client.channels {
        client.channels := client.channels + {channel};
        channels := channels[channel := (if channel in channels then channels[channel] else []) + [client]];
        OnlyChanged(client);
      }
    }

    method UnsubscribeChannel(client: Client, channel: string)
      requires Valid() && client in clients
      modifies this`channels, client`channels
      ensures Valid() && World() == W.DoLeave(old(World()), client, {channel})
    {
      hide World;
      hide Valid;
      hide Deregister;
      hide DeregisterAll;
      ShowsClient(client);
      LeavesOne(World(), client, channel);
      if channel in client.channels {
        client.channels := client.channels - {channel};
        RemoveSubscriber(channel, client);
        OnlyChanged(client);
      }
    }

    method RemoveSubscriber(channel: string, client: Client)
      modifies this`channels
      ensures channels == Deregister(old(channels), channel, client)
    {
      if channel in channels {
        var left := Without(channels[channel], client);
        channels := if left == [] then channels - {channel} else channels[channel := left];
      }
    }

    method PSubscribePattern(client: Client, pattern: string)
      requires Valid() && client in clients
      modifies this`patterns, client`patterns
      ensures Valid() && World() == W.DoPEnter(old(World()), client, pattern)
    {
      hide World;
      hide Valid;
      ShowsClient(client);
      if pattern !in client.patterns {
        client.patterns := client.patterns + {pattern};
        patterns := patterns + [(pattern, client)];
        OnlyChanged(client);
      }
    }

    method PUnsubscribePattern(client: Client, pattern: string)
      requires Valid() && client in clients
      modifies this`patterns, client`patterns
      ensures Valid() && World() == W.DoPLeave(old(World()), client, {pattern})
    {
      hide World;
      hide Valid;
      hide W.WithoutPatterns;
      ShowsClient(client);
      PLeavesOne(World(), client, pattern);
      if pattern in client.patterns {
        client.patterns := client.patterns - {pattern};
        patterns := Without(patterns, (pattern, client));
        OnlyChanged(client);
      }
    }

    // The handlers: one name after the other.
    method SubscribeCommand(client: Client, names: seq<string>)
      requires Valid() && client in clients
      modifies this`channels, client`channels
      ensures Valid() && World() == W.Perform(old(World()), client, W.Subscribe(names))
    {
      hide World;
      hide Valid;
      hide W.DoEnter;
      hide W.AffectAll;
      ShowsClient(client);
      ghost var w := World();
      EntersNothing(w, client, names[..0]);
      for i := 0 to |names|
        invariant Valid() && World() == W.AffectAll(w, Enters(client, names[..i]))
      {
        assert names[..i + 1] == names[..i] + [names[i]];
        EntersOneMore(w, client, names[..i], names[i]);
        SubscribeChannel(client, names[i]);
      }
      assert names[..|names|] == names;
    }

    method UnsubscribeCommand(client: Client, names: seq<string>)
      requires Valid() && client in clients
      modifies this`channels, client`channels
      ensures Valid() && World() == W.Perform(old(World()), client, W.Unsubscribe(names))
    {
      hide World;
      hide Valid;
      hide W.DoLeave;
      ShowsClient(client);
      ghost var w := World();
      var left := names;
      if names == [] {
        left := Listing(client.channels);
      }
      LeavesNothing(w, client, left[..0]);
      for i := 0 to |left|
        invariant Valid() && client in clients && World() == W.DoLeave(w, client, Registries.Names(left[..i]))
      {
        assert left[..i + 1] == left[..i] + [left[i]];
        LeavesOneMore(w, client, left[..i], left[i]);
        UnsubscribeChannel(client, left[i]);
      }
      assert left[..|left|] == left;
      W.AffectOne(w, W.Leave(client, Registries.Names(left)));
    }

    method PSubscribeCommand(client: Client, names: seq<string>)
      requires Valid() && client in clients
      modifies this`patterns, client`patterns
      ensures Valid() && World() == W.Perform(old(World()), client, W.PSubscribe(names))
    {
      hide World;
      hide Valid;
      hide W.DoPEnter;
      hide W.AffectAll;
      ShowsClient(client);
      ghost var w := World();
      PEntersNothing(w, client, names[..0]);
      for i := 0 to |names|
        invariant Valid() && World() == W.AffectAll(w, PEnters(client, names[..i]))
      {
        assert names[..i + 1] == names[..i] + [names[i]];
        PEntersOneMore(w, client, names[..i], names[i]);
        PSubscribePattern(client, names[i]);
      }
      assert names[..|names|] == names;
    }

    method PUnsubscribeCommand(client: Client, names: seq<string>)
      requires Valid() && client in clients
      modifies this`patterns, client`patterns
      ensures Valid() && World() == W.Perform(old(World()), client, W.PUnsubscribe(names))
    {
      hide World;
      hide Valid;
      hide W.DoPLeave;
      ShowsClient(client);
      ghost var w := World();
      var left := names;
      if names == [] {
        left := Listing(client.patterns);
      }
      PLeavesNothing(w, client, left[..0]);
      for i := 0 to |left|
        invariant Valid() && client in clients && World() == W.DoPLeave(w, client, Registries.Names(left[..i]))
      {
        assert left[..i + 1] == left[..i] + [left[i]];
        PLeavesOneMore(w, client, left[..i], left[i]);
        PUnsubscribePattern(client, left[i]);
      }
      assert left[..|left|] == left;
      W.AffectOne(w, W.PLeave(client, Registries.Names(left)));
    }

    // ---------- Blocking ----------

    method BlockClient(client: Client, pop: W.Pop, now: int)
      requires Valid() && client in clients
      modifies this`waiting, client`blocked, client`blockedKeys, client`blockCmd, client`deadline
      ensures Valid() && World() == W.DoWait(old(World()), client, pop, now)
    {
      hide World;
      hide Valid;
      hide RegisterAll;
      hide Connected;
      ShowsClient(client);
      WaitersConnected();
      client.blocked := true;
      client.blockedKeys := pop.keys;
      client.deadline := if pop.timeout > 0 then now + pop.timeout * 1000 else 0;
      client.blockCmd := Some(pop);
      AddWaiter(pop.keys, client);
      StillValid();
      OnlyChanged(client);
    }

    method AddWaiter(keys: seq<string>, client: Client)
      requires Connected(waiting, clients) && client in clients
      modifies this`waiting
      ensures waiting == RegisterAll(old(waiting), keys, client) && Connected(waiting, clients)
    {
      hide RegisterAll;
      hide Register;
      hide Connected;
      RegisterNothing(waiting, keys, client);
      for i := 0 to |keys|
        invariant RegisterAll(waiting, keys[i..], client) == RegisterAll(old(waiting), keys, client)
        invariant Connected(waiting, clients)
      {
        RegisterFirst(waiting, keys[i..], client);
        assert keys[i..][1..] == keys[i + 1..];
        RegisterIs(waiting, keys[i], client, clients);
        waiting := waiting[keys[i] := (if keys[i] in waiting then waiting[keys[i]] else []) + [client]];
      }
      RegisterNothing(waiting, keys[|keys|..], client);
      assert keys[|keys|..] == [];
    }

    method UnblockClient(client: Client)
      requires Valid() && client in clients
      modifies this`waiting, client`blocked, client`blockedKeys, client`blockCmd, client`deadline
      ensures Valid() && World() == W.DoWake(old(World()), client)
    {
      hide World;
      hide Valid;
      hide DeregisterAll;
      hide Connected;
      ShowsClient(client);
      if !client.blocked {
        return;
      }
      WaitersConnected();
      var keys := client.blockedKeys;
      RemoveWaiter(keys, client);
      client.ClearBlockState();
      StillValid();
      OnlyChanged(client);
    }

    method RemoveWaiter(keys: seq<string>, client: Client)
      requires Connected(waiting, clients)
      modifies this`waiting
      ensures waiting == DeregisterAll(old(waiting), Names(keys), client) && Connected(waiting, clients)
    {
      hide DeregisterAll;
      hide Connected;
      DeregisterNoKeys(waiting, keys[..0], client);
      for i := 0 to |keys|
        invariant waiting == DeregisterAll(old(waiting), Names(keys[..i]), client)
      {
        DeregisterOneMore(old(waiting), Names(keys[..i]), keys[i], client);
        NamesOneMore(keys[..i], keys[i]);
        assert keys[..i + 1] == keys[..i] + [keys[i]];
        if keys[i] in waiting {
          var left := Without(waiting[keys[i]], client);
          waiting := if left == [] then waiting - {keys[i]} else waiting[keys[i] := left];
        }
      }
      assert keys[..|keys|] == keys;
      StillConnected(old(waiting), Names(keys), client, clients);
    }

    // Only a client whose time is up is released.
    method CheckTimeOut(client: Client, now: int) returns (released: bool)
      requires Valid() && client in clients
      modifies this`waiting, client`blocked, client`blockedKeys, client`blockCmd, client`deadline
      ensures Valid() && World() == W.Step(old(World()), W.TimeOut(client, now))
      ensures released == (old(client.blocked) && old(client.deadline) > 0 && now >= old(client.deadline))
    {
      hide World;
      hide Valid;
      hide W.Answer;
      hide W.DoClose;
      hide DeregisterAll;
      ShowsClient(client);
      released := false;
      if client.deadline > 0 && now >= client.deadline {
        released := client.blocked;
        UnblockClient(client);
      }
    }

    // One element leaves a list that has been looked up, and the key goes with the last one.
    method TakeFrom(i: nat, key: string, items: seq<string>, left: bool)
      requires Valid() && i < |databases| && items != []
      requires key in databases[i].data && databases[i].data[key] == List(items)
      modifies databases`data, databases`expires, databases`clocks, memory`used, clients`dirty
      ensures Valid()
      ensures var w := old(World());
        World() == W.AffectAll(w, W.On(i, W.TakeOps(w.stores[i].db, key, left)))
    {
      hide World;
      hide Valid;
      hide W.Act;
      hide W.AffectAll;
      hide W.TakeOps;
      hide Apply;
      hide Book;
      ShowsStores();
      Steps.TakeActs(World(), i, key, left);
      var rest := if left then items[1..] else items[..|items| - 1];
      ghost var order := PerformOp(i, InPlace(key, List(rest)));
      if rest == [] {
        order := PerformOp(i, Op.Del(key));
      }
    }

    // BLPOP and BRPOP: the first list with an element gives one; without any, the client waits.
    method BPopGeneric(client: Client, pop: W.Pop, now: int)
      requires Valid() && client in clients
      modifies databases`data, databases`expires, databases`clocks, memory`used, clients`dirty
      modifies this`waiting, client`blocked, client`blockedKeys, client`blockCmd, client`deadline
      ensures Valid()
      ensures var w := old(World()); var i := W.Index(w, w.clients[client].selected);
        World() == W.AffectAll(w, W.PopTrace(w.stores[i].db, i, client, pop, pop.keys, now))
    {
      hide World;
      hide Valid;
      hide W.Act;
      hide W.DoWait;
      hide W.AffectAll;
      hide W.PopTrace;
      hide W.TakeOps;
      hide Apply;
      hide Book;
      ShowsClient(client);
      var i := if client.selected < |databases| then client.selected else 0;
      ghost var w := World();
      ghost var goal := W.AffectAll(w, W.PopTrace(w.stores[i].db, i, client, pop, pop.keys, now));
      assert pop.keys[0..] == pop.keys;
      for j := 0 to |pop.keys|
        invariant Valid() && i < |databases|
        invariant W.AffectAll(World(), W.PopTrace(World().stores[i].db, i, client, pop, pop.keys[j..], now)) == goal
      {
        var key := pop.keys[j];
        assert pop.keys[j..][1..] == pop.keys[j + 1..];
        Steps.PopLooks(World(), i, client, pop, pop.keys[j..], now);
        var value := Fetch(i, key, now);
        ShowsStores();
        if value.Some? && value.value.List? && value.value.items != [] {
          TakeFrom(i, key, value.value.items, pop.left);
          return;
        }
      }
      Steps.PopWaits(World(), i, client, pop, pop.keys[|pop.keys|..], now);
      BlockClient(client, pop, now);
    }

    // Only the client that has waited longest is served: its own command runs again.
    method HandleClientsBlockedOnKey(key: string, now: int)
      requires Valid()
      modifies databases`data, databases`expires, databases`clocks, memory`used, this`waiting
      modifies clients`dirty, clients`blocked, clients`blockedKeys, clients`blockCmd, clients`deadline, clients`queue
      ensures Valid() && World() == W.AffectAll(old(World()), W.ServeTrace(old(World()), key, now))
    {
      hide World;
      hide Valid;
      hide W.DoWake;
      hide W.PopTrace;
      hide W.ServeTrace;
      hide W.AffectAll;
      ghost var w := World();
      Steps.NobodyToServe(w, key, now);
      if key !in waiting || waiting[key] == [] {
        return;
      }
      FrontIsConnected(key);
      var client := waiting[key][0];
      ShowsClient(client);
      var cmd := client.blockCmd;
      UnblockClient(client);
      label woken:
      ShowsClient(client);
      Steps.ServeIs(w, client, key, now);
      if cmd.Some? {
        if client.multi {
          client.queue := client.queue + [W.BPop(cmd.value, now)];
          OnlyChanged@woken(client);
        } else {
          BPopGeneric(client, cmd.value, now);
        }
      }
    }

    // The list a push goes to, made if the key is free; none if the key has another type.
    method ListToPush(i: nat, key: string, now: int) returns (items: Option<seq<string>>)
      requires Valid() && i < |databases|
      modifies databases`data, databases`expires, databases`clocks, memory`used, clients`dirty
      ensures Valid()
      ensures var looked := W.Act(old(World()), i, Expire(key, now));
        var db := looked.stores[i].db;
        if key !in db.data then items == Some([]) && World() == W.Act(looked, i, Assign(key, List([])))
        else World() == looked && items == if db.data[key].List? then Some(db.data[key].items) else None
    {
      hide World;
      hide Valid;
      hide W.Act;
      hide Book;
      var value := Fetch(i, key, now);
      ShowsStores();
      if value.None? {
        ghost var order := PerformOp(i, Assign(key, List([])));
        items := Some([]);
      } else {
        items := if value.value.List? then Some(value.value.items) else None;
      }
    }

    // The values join a list that has been looked up, and its front waiter is served.
    method PushOn(i: nat, key: string, items: seq<string>, values: seq<string>, left: bool, now: int)
      requires Valid() && i < |databases|
      modifies databases`data, databases`expires, databases`clocks, memory`used, this`waiting
      modifies clients`dirty, clients`blocked, clients`blockedKeys, clients`blockCmd, clients`deadline, clients`queue
      ensures Valid()
      ensures var pushed := W.Act(old(World()), i, InPlace(key, List(W.Pushed(items, values, left))));
        World() == if values == [] then pushed else W.AffectAll(pushed, W.ServeTrace(pushed, key, now))
    {
      hide World;
      hide Valid;
      hide W.Act;
      hide W.AffectAll;
      hide W.ServeTrace;
      hide W.Pushed;
      hide Apply;
      hide Book;
      var all := PushAll(items, values, left);
      ghost var order := PerformOp(i, InPlace(key, List(all)));
      if values != [] {
        HandleClientsBlockedOnKey(key, now);
      }
    }

    // LPUSH, and one of the two rounds of RPUSH.
    method PushGeneric(client: Client, key: string, values: seq<string>, left: bool, now: int)
      requires Valid() && client in clients
      modifies databases`data, databases`expires, databases`clocks, memory`used, this`waiting
      modifies clients`dirty, clients`blocked, clients`blockedKeys, clients`blockCmd, clients`deadline, clients`queue
      ensures Valid()
      ensures var w := old(World()); var i := W.Index(w, w.clients[client].selected);
        World() == W.AffectAll(w, W.PushTrace(w, i, key, values, left, now))
    {
      hide World;
      hide Valid;
      hide W.Act;
      hide W.AffectAll;
      hide W.ServeTrace;
      hide W.PushTrace;
      hide W.Pushed;
      hide Apply;
      hide Book;
      ShowsClient(client);
      var i := if client.selected < |databases| then client.selected else 0;
      Steps.PushActs(World(), i, key, values, left, now);
      var items := ListToPush(i, key, now);
      if items.Some? {
        PushOn(i, key, items.value, values, left, now);
      }
    }

    static method PushAll(items: seq<string>, values: seq<string>, left: bool) returns (all: seq<string>)
      ensures all == W.Pushed(items, values, left)
      ensures if left then Steps.Stacked(all, values, items) else all == items + values
    {
      Steps.PushedIs(items, values, left);
      all := items;
      assert values[0..] == values;
      for i := 0 to |values|
        invariant W.Pushed(all, values[i..], left) == W.Pushed(items, values, left)
      {
        assert values[i..][1..] == values[i + 1..];
        all := if left then [values[i]] + all else all + [values[i]];
      }
    }

    // ---------- Eviction ----------

    // The counter is brought down to the limit, if there is one and a policy that evicts.
    method EvictKeysIfNeeded(config: Eviction.Config, now: int)
      requires Valid()
      modifies databases`data, databases`expires, databases`clocks, memory`used, clients`dirty
      ensures Valid() && Eviction.AllShrunk("volatile" <= config.policy, old(Eviction.Dbs(databases)), Eviction.Dbs(databases))
      ensures old(Eviction.Booked(databases, memory)) ==> Eviction.Booked(databases, memory)
      ensures config.maxMemory == 0 || config.policy == "noeviction" || old(memory.used) <= config.maxMemory ==>
        Eviction.Dbs(databases) == old(Eviction.Dbs(databases))
    {
      hide Eviction.Booked;
      hide Eviction.AllShrunk;
      hide Eviction.Dbs;
      ghost var last, draws;
      last, draws := Eviction.EvictKeysIfNeeded(databases, memory, config, now, clients);
      Eviction.AllShrunkTrans("volatile" <= config.policy, old(Eviction.Dbs(databases)), last, Eviction.Dbs(databases));
    }

    // ---------- Commands ----------

    method PerformCommand(client: Client, command: W.Command)
      requires Valid() && client in clients
      modifies databases`data, databases`expires, databases`clocks, memory`used
      modifies this`waiting, this`channels, this`patterns, clients
      ensures Valid() && World() == W.Perform(old(World()), client, command)
    {
      hide World;
      hide Valid;
      hide W.Act;
      hide W.AffectAll;
      hide W.PopTrace;
      hide W.PushTrace;
      ShowsClient(client);
      ghost var w := World();
      match command {
        case OnDb(op) =>
          var i := if client.selected < |databases| then client.selected else 0;
          Steps.DoIs(w, i, op);
          ghost var order := PerformOp(i, op);
        case Select(n) => SelectCommand(client, n);
        case Push(key, values, left, now) => PushCommand(client, key, values, left, now);
        case BPop(pop, now) => BPopCommand(client, pop, now);
        case Subscribe(names) => SubscribeCommand(client, names);
        case Unsubscribe(names) => UnsubscribeCommand(client, names);
        case PSubscribe(names) => PSubscribeCommand(client, names);
        case PUnsubscribe(names) => PUnsubscribeCommand(client, names);
      }
    }

    method SelectCommand(client: Client, n: int)
      requires Valid() && client in clients
      modifies client`selected
      ensures Valid() && World() == W.Perform(old(World()), client, W.Select(n))
    {
      hide World;
      hide Valid;
      hide W.AffectAll;
      ShowsClient(client);
      ghost var w := World();
      W.AffectNothing(w);
      if 0 <= n < |databases| {
        W.AffectOne(w, W.Choose(client, n));
        client.selected := n;
        OnlyChanged(client);
      }
    }

    // RPUSH runs its handler twice.
    method PushCommand(client: Client, key: string, values: seq<string>, left: bool, now: int)
      requires Valid() && client in clients
      modifies databases`data, databases`expires, databases`clocks, memory`used, this`waiting
      modifies clients`dirty, clients`blocked, clients`blockedKeys, clients`blockCmd, clients`deadline, clients`queue
      ensures Valid() && World() == W.Perform(old(World()), client, W.Push(key, values, left, now))
    {
      hide World;
      hide Valid;
      hide W.AffectAll;
      hide W.PushTrace;
      ShowsClient(client);
      ghost var w := World();
      PushGeneric(client, key, values, left, now);
      if !left {
        Steps.PushTwice(w, client, key, values, now);
        PushGeneric(client, key, values, left, now);
      }
    }

    method BPopCommand(client: Client, pop: W.Pop, now: int)
      requires Valid() && client in clients
      modifies databases`data, databases`expires, databases`clocks, memory`used, clients`dirty
      modifies this`waiting, client`blocked, client`blockedKeys, client`blockCmd, client`deadline
      ensures Valid() && World() == W.Perform(old(World()), client, W.BPop(pop, now))
    {
      hide World;
      hide Valid;
      hide W.AffectAll;
      hide W.PopTrace;
      hide W.Perform;
      ShowsClient(client);
      Steps.BPopIs(World(), client, pop, now);
      if pop.timeout >= 0 {
        BPopGeneric(client, pop, now);
      }
    }

    method Exec(client: Client) returns (reply: Transactions.ExecReply)
      requires Valid() && client in clients
      modifies databases`data, databases`expires, databases`clocks, memory`used
      modifies this`waiting, this`channels, this`patterns, clients
      ensures Valid() && World() == W.Answer(old(World()), W.Exec(client))
      ensures reply == Transactions.Reply(old(World()), client)
    {
      hide World;
      hide Valid;
      hide W.DoDiscard;
      hide W.DoWatch;
      hide W.DoUnwatch;
      hide W.Perform;
      ShowsClient(client);
      if !client.multi {
        return Transactions.NotInMulti;
      }
      if client.dirty {
        client.ClearTransaction();
        OnlyChanged(client);
        return Transactions.NullArray;
      }
      var queue := client.queue;
      client.ClearTransaction();
      OnlyChanged(client);
      ghost var start := World();
      assert queue[0..] == queue;
      for i := 0 to |queue|
        invariant Valid() && client in clients
        invariant W.PerformAll(World(), client, queue[i..]) == W.PerformAll(start, client, queue)
      {
        assert queue[i..][1..] == queue[i + 1..];
        PerformCommand(client, queue[i]);
      }
      reply := Transactions.Results(queue);
    }

    // A client's command waits while a transaction is open.
    method ExecuteCommand(client: Client, command: W.Command) returns (queued: bool)
      requires Valid() && client in clients
      modifies databases`data, databases`expires, databases`clocks, memory`used
      modifies this`waiting, this`channels, this`patterns, clients
      ensures Valid() && World() == W.Answer(old(World()), W.Execute(client, command)) && queued == old(client.multi)
    {
      hide World;
      hide Valid;
      hide W.DoExec;
      hide W.DoDiscard;
      hide W.DoWatch;
      hide W.DoUnwatch;
      hide W.Perform;
      ShowsClient(client);
      queued := client.multi;
      if client.multi {
        client.queue := client.queue + [command];
        OnlyChanged(client);
      } else {
        PerformCommand(client, command);
      }
    }

    method HandleRequest(client: Client, request: W.Event<Client>)
      requires Valid() && client in clients && W.IsRequest(request) && request.c == client
      modifies databases`data, databases`expires, databases`clocks, databases`watchedKeys, memory`used
      modifies this`waiting, this`channels, this`patterns, clients
      ensures Valid() && World() == W.Answer(old(World()), request)
    {
      hide World;
      hide Valid;
      hide W.Answer;
      match request {
        case Multi(_) => var ok := Multi(client);
        case Exec(_) => var reply := Exec(client);
        case Discard(_) => var ok := Discard(client);
        case Watch(_, keys) => var ok := Watch(client, keys);
        case Unwatch(_) => Unwatch(client);
        case Execute(_, command) => var queued := ExecuteCommand(client, command);
      }
    }

    // A batch of parsed requests, one after the other. What follows a blocking command is dropped.
    method ProcessClientInput(client: Client, batch: seq<W.Event<Client>>)
      requires Valid() && client in clients
      requires forall j :: 0 <= j < |batch| ==> W.IsRequest(batch[j]) && batch[j].c == client
      modifies databases`data, databases`expires, databases`clocks, databases`watchedKeys, memory`used
      modifies this`waiting, this`channels, this`patterns, clients
      ensures Valid() && World() == W.Run(old(World()), batch)
    {
      hide World;
      hide Valid;
      hide W.Answer;
      hide W.Run;
      ghost var w := World();
      assert batch[0..] == batch;
      for i := 0 to |batch|
        invariant Valid() && client in clients
        invariant W.Run(World(), batch[i..]) == W.Run(w, batch)
      {
        ShowsClient(client);
        if client.blocked {
          BlockedIsDeaf(World(), batch[i..], client);
          break;
        }
        TakesUp(World(), batch[i..]);
        assert batch[i..][1..] == batch[i + 1..];
        HandleRequest(client, batch[i]);
      }
      RunNothing(World());
    }

    // ---------- Coming and going ----------

    twostate lemma Joined(new client: Client)
      requires clients == old(clients) + {client} && client !in old(clients) && client.State() == W.NEW_CLIENT
      requires forall c <- old(clients) :: c.State() == old(c.State())
      requires forall d <- databases :: d.Store() == old(d.Store())
      requires channels == old(channels) && patterns == old(patterns) && waiting == old(waiting)
      ensures World() == W.Update(old(World()), client, W.NEW_CLIENT)
    {
      assert World().stores == old(World()).stores;
      assert StatesOf(clients) == old(StatesOf(clients))[client := W.NEW_CLIENT];
    }

    twostate lemma Gone(new client: Client)
      requires clients == old(clients) - {client}
      requires forall c <- clients :: c.State() == old(c.State())
      requires forall d <- databases :: d.Store() == old(d.Store())
      requires channels == old(channels) && patterns == old(patterns) && waiting == old(waiting)
      ensures World() == old(World()).(clients := old(World()).clients - {client})
    {
      assert World().stores == old(World()).stores;
      assert StatesOf(clients) == old(StatesOf(clients)) - {client};
    }

    method Connect() returns (client: Client)
      requires Valid()
      modifies this`clients
      ensures Valid() && fresh(client) && client !in old(clients)
      ensures World() == W.Step(old(World()), W.Connect(client))
    {
      hide World;
      hide W.ClientStep;
      client := new Client();
      clients := clients + {client};
      Joined(client);
    }

    method LeaveChannels(names: set<string>, client: Client)
      modifies this`channels
      ensures channels == DeregisterAll(old(channels), names, client)
    {
      hide DeregisterAll;
      hide Deregister;
      DeregisterNone(channels, client);
      var left := names;
      assert names - left == {};
      while left != {}
        invariant left <= names && channels == DeregisterAll(old(channels), names - left, client)
      {
        var name :| name in left;
        DeregisterOneMore(old(channels), names - left, name, client);
        assert names - (left - {name}) == names - left + {name};
        left := left - {name};
        RemoveSubscriber(name, client);
      }
      assert names - left == names;
    }

    method LeavePatterns(names: set<string>, client: Client)
      modifies this`patterns
      ensures patterns == W.WithoutPatterns(old(patterns), names, client)
    {
      PatternsNone(patterns, client);
      var left := names;
      assert names - left == {};
      while left != {}
        invariant left <= names && patterns == W.WithoutPatterns(old(patterns), names - left, client)
      {
        var name :| name in left;
        PatternsOneMore(old(patterns), names - left, name, client);
        assert names - (left - {name}) == names - left + {name};
        left := left - {name};
        patterns := Without(patterns, (name, client));
      }
      assert names - left == names;
    }

    method LeaveAll(client: Client)
      requires Valid() && client in clients
      modifies this`channels, this`patterns, client`channels, client`patterns
      ensures Valid() && World() == W.Unlisted(old(World()), client)
    {
      hide World;
      hide Valid;
      hide DeregisterAll;
      ShowsClient(client);
      ghost var w := World();
      LeaveChannels(client.channels, client);
      LeavePatterns(client.patterns, client);
      client.channels := {};
      client.patterns := {};
      OnlyChanged(client);
      UnlistedIs(w, client);
    }

    // Everything that refers to the client is dropped before the client goes.
    method CloseClient(client: Client)
      requires Valid() && client in clients && W.Mirrored(World(), client) && W.Tidy(World())
      modifies this`clients, this`channels, this`patterns, this`waiting, databases`watchedKeys, client
      ensures Valid() && client !in clients
      ensures World() == W.Step(old(World()), W.Close(client)) && W.Unknown(World(), client)
    {
      hide World;
      hide Valid;
      hide W.Answer;
      hide W.Act;
      hide W.Mirrored;
      hide W.Tidy;
      hide W.Unknown;
      hide W.DoWake;
      hide W.Forget;
      hide W.Unlisted;
      ShowsClient(client);
      ghost var w := World();
      LeaveAll(client);
      UnblockClient(client);
      ForgetWatches(client);
      Mirrors.LeftKeeps(w, client, client);
      Mirrors.CloseKeeps(w, client, client);
      Drop(client);
    }

    method Drop(client: Client)
      requires Valid() && client in clients && W.Unknown(World(), client)
      modifies this`clients
      ensures Valid() && client !in clients
      ensures World() == old(World()).(clients := old(World()).clients - {client})
    {
      hide World;
      hide W.Unknown;
      ShowsClient(client);
      ghost var w := World();
      ShowsStores();
      clients := clients - {client};
      Gone(client);
      forall i | 0 <= i < |databases| ensures client !in databases[i].Watchers() {
        UnknownDoesNotWatch(w, client, i, databases[i].Watchers());
      }
      UnknownDoesNotWait(w, client);
    }
  }

  lemma UnlistedIs(w: W.World<Client>, client: Client)
    requires client in w.clients
    ensures var s := w.clients[client];
      W.Unlisted(w, client) == W.Update(w.(
        channels := DeregisterAll(w.channels, s.channels, client),
        patterns := W.WithoutPatterns(w.patterns, s.patterns, client)), client, s.(channels := {}, patterns := {}))
  {
    hide DeregisterAll;
    var s := w.clients[client];
    assert s.channels * s.channels == s.channels && s.patterns * s.patterns == s.patterns;
    assert s.channels - s.channels == {} && s.patterns - s.patterns == {};
  }

  lemma UnknownDoesNotWait(w: W.World<Client>, client: Client)
    requires W.Unknown(w, client)
    ensures forall k <- w.waiting :: client !in w.waiting[k]
  {
    forall k <- w.waiting ensures client !in w.waiting[k] {
      assert !In(w.waiting, k, client);
    }
  }

  lemma UnknownDoesNotWatch(w: W.World<Client>, client: Client, i: nat, watchers: set<Client>)
    requires W.Unknown(w, client) && i < |w.stores|
    requires watchers == set k, c | k in w.stores[i].watchers && c in w.stores[i].watchers[k] :: c
    ensures client !in watchers
  {
    if client in watchers {
      var k :| k in w.stores[i].watchers && client in w.stores[i].watchers[k];
      assert In(w.stores[i].watchers, k, client);
      assert W.Watches(w, k, client);
    }
  }

  lemma {:induction false} PatternsNone(patterns: seq<(string, Client)>, client: Client)
    ensures W.WithoutPatterns(patterns, {}, client) == patterns
    decreases |patterns|
  {
    if patterns != [] {
      PatternsNone(patterns[1..], client);
    }
  }

  lemma {:induction false} PatternsOneMore(patterns: seq<(string, Client)>, names: set<string>, name: string, client: Client)
    ensures Without(W.WithoutPatterns(patterns, names, client), (name, client))
         == W.WithoutPatterns(patterns, names + {name}, client)
    decreases |patterns|
  {
    if patterns != [] {
      PatternsOneMore(patterns[1..], names, name, client);
      var rest := W.WithoutPatterns(patterns[1..], names, client);
      assert ([patterns[0]] + rest)[1..] == rest;
    }
  }

  lemma RegisterNothing(r: Registry<string, Client>, keys: seq<string>, client: Client)
    ensures RegisterAll(r, [], client) == r
    ensures keys[0..] == keys
  {
  }

  lemma RegisterFirst(r: Registry<string, Client>, keys: seq<string>, client: Client)
    requires keys != []
    ensures RegisterAll(r, keys, client) == RegisterAll(Register(r, keys[0], client), keys[1..], client)
  {
  }

  lemma DeregisterNone(r: Registry<string, Client>, client: Client)
    ensures DeregisterAll(r, {}, client) == r
  {
  }

  lemma DeregisterNoKeys(r: Registry<string, Client>, keys: seq<string>, client: Client)
    requires keys == []
    ensures DeregisterAll(r, Names(keys), client) == r
  {
  }

  lemma DeregisterNothing(dbs: seq<Database>, client: Client)
    ensures forall j :: 0 <= j < |dbs| ==> DeregisterAll(dbs[j].watchedKeys, {}, client) == dbs[j].watchedKeys
  {
  }

  lemma WatchersShrink(r: Registry<string, Client>, keys: set<string>, client: Client)
    ensures (set k, c | k in DeregisterAll(r, keys, client) && c in DeregisterAll(r, keys, client)[k] :: c)
         <= set k, c | k in r && c in r[k] :: c
  {
    var s := DeregisterAll(r, keys, client);
    forall k, c | k in s && c in s[k] ensures k in r && c in r[k] {
      WithoutHas(r[k], client, c);
    }
  }

  lemma SameUpdate(w: W.World<Client>, client: Client)
    requires client in w.clients && w.clients[client].multi
    ensures W.Update(w, client, w.clients[client].(multi := true)) == w
  {
    assert w.clients[client := w.clients[client].(multi := true)] == w.clients;
  }

  lemma ActIs(w: W.World<Client>, w': W.World<Client>, i: nat, op: Op)
    requires i < |w.stores| == |w'.stores|
    requires forall j :: 0 <= j < |w.stores| && j != i ==> w'.stores[j] == w.stores[j]
    requires w'.stores[i] == W.Store(Apply(w.stores[i].db, op), w.stores[i].watchers)
    requires w'.clients.Keys == w.clients.Keys
    requires forall c <- w.clients ::
      w'.clients[c] == if W.Hit(w.stores[i], op, c) then w.clients[c].(dirty := true) else w.clients[c]
    requires w'.channels == w.channels && w'.patterns == w.patterns && w'.waiting == w.waiting
    ensures w' == W.Act(w, i, op)
  {
    hide Apply;
    hide W.Hit;
    assert w'.stores == W.Act(w, i, op).stores;
    assert w'.clients == W.Act(w, i, op).clients;
  }

  lemma WatchIs(w: W.World<Client>, w': W.World<Client>, client: Client, i: nat, keys: seq<string>)
    requires client in w.clients && !w.clients[client].multi
    requires i == W.Index(w, w.clients[client].selected) < |w.stores| == |w'.stores|
    requires forall j :: 0 <= j < |w.stores| && j != i ==> w'.stores[j] == w.stores[j]
    requires w'.stores[i] == w.stores[i].(watchers := RegisterAll(w.stores[i].watchers, keys, client))
    requires w'.clients == w.clients[client :=
      w.clients[client].(watched := w.clients[client].watched + set k | k in keys)]
    requires w'.channels == w.channels && w'.patterns == w.patterns && w'.waiting == w.waiting
    ensures w' == W.Answer(w, W.Watch(client, keys))
  {
    hide RegisterAll;
    assert w'.stores == W.DoWatch(w, client, keys).stores;
  }

  lemma ForgetIs(w: W.World<Client>, w': W.World<Client>, client: Client)
    requires client in w.clients && |w'.stores| == |w.stores|
    requires forall j :: 0 <= j < |w.stores| ==> w'.stores[j] == w.stores[j].(watchers :=
      DeregisterAll(w.stores[j].watchers, w.clients[client].watched, client))
    requires w'.clients == w.clients[client := w.clients[client].(watched := {})]
    requires w'.channels == w.channels && w'.patterns == w.patterns && w'.waiting == w.waiting
    ensures w' == W.Forget(w, client)
  {
    hide DeregisterAll;
    assert w'.stores == W.Forget(w, client).stores;
  }

  lemma NotWatching(s: W.Store<Client>, op: Op, c: Client, watchers: set<Client>)
    requires watchers == set k, c | k in s.watchers && c in s.watchers[k] :: c
    requires c !in watchers
    ensures !W.Hit(s, op, c)
  {
  }

  lemma FoundIs(db: Db, key: string, now: int, value: Option<Value>)
    requires Expiry.Object(value) == Expiry.Reply(db, Expiry.GetObject(key), now)
    ensures var d := Apply(db, Expire(key, now)); value == if key in d.data then Some(d.data[key]) else None
  {
  }

  // ---------- Subscriptions, name by name ----------

  ghost function Enters(client: Client, names: seq<string>): seq<W.Effect<Client>> {
    seq(|names|, j requires 0 <= j < |names| => W.Enter(client, names[j]))
  }

  ghost function PEnters(client: Client, names: seq<string>): seq<W.Effect<Client>> {
    seq(|names|, j requires 0 <= j < |names| => W.PEnter(client, names[j]))
  }

  lemma EntersNothing(w: W.World<Client>, client: Client, names: seq<string>)
    requires names == []
    ensures W.AffectAll(w, Enters(client, names)) == w
  {
  }

  lemma PEntersNothing(w: W.World<Client>, client: Client, names: seq<string>)
    requires names == []
    ensures W.AffectAll(w, PEnters(client, names)) == w
  {
  }

  lemma OneMoreEffect(w: W.World<Client>, fs: seq<W.Effect<Client>>, f: W.Effect<Client>)
    ensures W.AffectAll(w, fs + [f]) == W.Affect(W.AffectAll(w, fs), f)
  {
    hide W.Affect;
    hide W.AffectAll;
    W.AffectConcat(w, fs, [f]);
    W.AffectOne(W.AffectAll(w, fs), f);
  }

  lemma EntersSplit(client: Client, names: seq<string>, name: string)
    ensures Enters(client, names + [name]) == Enters(client, names) + [W.Enter(client, name)]
  {
  }

  lemma EnterIs(w: W.World<Client>, client: Client, name: string)
    requires client in w.clients
    ensures W.Affect(w, W.Enter(client, name)) == W.DoEnter(w, client, name)
  {
    hide W.DoEnter;
  }

  lemma EntersOneMore(w: W.World<Client>, client: Client, names: seq<string>, name: string)
    requires client in w.clients
    ensures W.AffectAll(w, Enters(client, names + [name])) ==
      W.DoEnter(W.AffectAll(w, Enters(client, names)), client, name)
  {
    hide W.Affect;
    hide W.AffectAll;
    hide W.DoEnter;
    hide Enters;
    EntersSplit(client, names, name);
    OneMoreEffect(w, Enters(client, names), W.Enter(client, name));
    EnterIs(W.AffectAll(w, Enters(client, names)), client, name);
  }

  lemma PEntersSplit(client: Client, names: seq<string>, name: string)
    ensures PEnters(client, names + [name]) == PEnters(client, names) + [W.PEnter(client, name)]
  {
  }

  lemma PEnterIs(w: W.World<Client>, client: Client, name: string)
    requires client in w.clients
    ensures W.Affect(w, W.PEnter(client, name)) == W.DoPEnter(w, client, name)
  {
    hide W.DoPEnter;
  }

  lemma PEntersOneMore(w: W.World<Client>, client: Client, names: seq<string>, name: string)
    requires client in w.clients
    ensures W.AffectAll(w, PEnters(client, names + [name])) ==
      W.DoPEnter(W.AffectAll(w, PEnters(client, names)), client, name)
  {
    hide W.Affect;
    hide W.AffectAll;
    hide W.DoPEnter;
    hide PEnters;
    PEntersSplit(client, names, name);
    OneMoreEffect(w, PEnters(client, names), W.PEnter(client, name));
    PEnterIs(W.AffectAll(w, PEnters(client, names)), client, name);
  }

  // Any order of a set's elements.
  method Listing(names: set<string>) returns (list: seq<string>)
    ensures Registries.Names(list) == names
  {
    list := [];
    var left := names;
    while left != {}
      invariant left <= names && forall n :: n in list <==> n in names && n !in left
    {
      var name :| name in left;
      left := left - {name};
      list := list + [name];
    }
  }

  lemma LeavesOne(w: W.World<Client>, client: Client, name: string)
    requires client in w.clients
    ensures var s := w.clients[client];
      W.DoLeave(w, client, {name}) ==
        if name in s.channels
        then W.Update(w.(channels := Deregister(w.channels, name, client)), client, s.(channels := s.channels - {name}))
        else w
  {
    var s := w.clients[client];
    DeregisterNone(w.channels, client);
    if name in s.channels {
      assert s.channels * {name} == {} + {name};
      DeregisterOneMore(w.channels, {}, name, client);
    } else {
      assert s.channels * {name} == {} && s.channels - {name} == s.channels;
      assert w.clients[client := s] == w.clients;
    }
  }

  lemma LeavesNothing(w: W.World<Client>, client: Client, names: seq<string>)
    requires client in w.clients && names == []
    ensures W.DoLeave(w, client, Registries.Names(names)) == w
  {
    var s := w.clients[client];
    assert s.channels * Registries.Names(names) == {} && s.channels - Registries.Names(names) == s.channels;
    DeregisterNone(w.channels, client);
    assert w.clients[client := s] == w.clients;
  }

  lemma LeavesOneMore(w: W.World<Client>, client: Client, names: seq<string>, name: string)
    requires client in w.clients
    ensures W.DoLeave(w, client, Registries.Names(names + [name])) ==
      W.DoLeave(W.DoLeave(w, client, Registries.Names(names)), client, {name})
  {
    hide DeregisterAll;
    hide Deregister;
    var s, before := w.clients[client], Registries.Names(names);
    var w' := W.DoLeave(w, client, before);
    NamesOneMore(names, name);
    LeavesOne(w', client, name);
    assert s.channels - (before + {name}) == s.channels - before - {name};
    if name in s.channels && name !in before {
      assert s.channels * (before + {name}) == s.channels * before + {name};
      DeregisterOneMore(w.channels, s.channels * before, name, client);
    } else {
      assert s.channels * (before + {name}) == s.channels * before;
      assert s.channels - before - {name} == s.channels - before;
    }
  }

  lemma PLeavesOne(w: W.World<Client>, client: Client, name: string)
    requires client in w.clients
    ensures var s := w.clients[client];
      W.DoPLeave(w, client, {name}) ==
        if name in s.patterns
        then W.Update(w.(patterns := Without(w.patterns, (name, client))), client, s.(patterns := s.patterns - {name}))
        else w
  {
    var s := w.clients[client];
    PatternsNone(w.patterns, client);
    if name in s.patterns {
      assert s.patterns * {name} == {} + {name};
      PatternsOneMore(w.patterns, {}, name, client);
    } else {
      assert s.patterns * {name} == {} && s.patterns - {name} == s.patterns;
      assert w.clients[client := s] == w.clients;
    }
  }

  lemma PLeavesNothing(w: W.World<Client>, client: Client, names: seq<string>)
    requires client in w.clients && names == []
    ensures W.DoPLeave(w, client, Registries.Names(names)) == w
  {
    var s := w.clients[client];
    assert s.patterns * Registries.Names(names) == {} && s.patterns - Registries.Names(names) == s.patterns;
    PatternsNone(w.patterns, client);
    assert w.clients[client := s] == w.clients;
  }

  lemma PLeavesOneMore(w: W.World<Client>, client: Client, names: seq<string>, name: string)
    requires client in w.clients
    ensures W.DoPLeave(w, client, Registries.Names(names + [name])) ==
      W.DoPLeave(W.DoPLeave(w, client, Registries.Names(names)), client, {name})
  {
    hide W.WithoutPatterns;
    hide Without;
    var s, before := w.clients[client], Registries.Names(names);
    var w' := W.DoPLeave(w, client, before);
    NamesOneMore(names, name);
    PLeavesOne(w', client, name);
    assert s.patterns - (before + {name}) == s.patterns - before - {name};
    if name in s.patterns && name !in before {
      assert s.patterns * (before + {name}) == s.patterns * before + {name};
      PatternsOneMore(w.patterns, s.patterns * before, name, client);
    } else {
      assert s.patterns * (before + {name}) == s.patterns * before;
      assert s.patterns - before - {name} == s.patterns - before;
    }
  }

  // ---------- Waiting lists ----------

  lemma RegisterIs(r: Registry<string, Client>, key: string, client: Client, clients: set<Client>)
    requires Connected(r, clients) && client in clients
    ensures Register(r, key, client) == r[key := (if key in r then r[key] else []) + [client]]
    ensures Connected(Register(r, key, client), clients)
  {
  }

  lemma StillConnected(r: Registry<string, Client>, keys: set<string>, client: Client, clients: set<Client>)
    requires Connected(r, clients)
    ensures Connected(DeregisterAll(r, keys, client), clients)
  {
    var left := DeregisterAll(r, keys, client);
    forall k, c | k in left && c in left[k] ensures c in clients {
      InDeregisterAll(r, keys, client, k, c);
    }
  }

  // ---------- Batches ----------

  lemma {:induction false} BlockedIsDeaf(w: W.World<Client>, run: seq<W.Event<Client>>, client: Client)
    requires w.stores != [] && client in w.clients && w.clients[client].blocked
    requires forall j :: 0 <= j < |run| ==> W.IsRequest(run[j]) && run[j].c == client
    ensures W.Run(w, run) == w
    decreases |run|
  {
    hide W.Answer;
    if run != [] {
      assert forall j :: 0 <= j < |run[1..]| ==> run[1..][j] == run[j + 1];
      BlockedIsDeaf(w, run[1..], client);
    }
  }

  lemma TakesUp(w: W.World<Client>, run: seq<W.Event<Client>>)
    requires w.stores != [] && run != [] && W.IsRequest(run[0]) && run[0].c in w.clients
    requires !w.clients[run[0].c].blocked
    ensures W.Run(w, run) == W.Run(W.Answer(w, run[0]), run[1..])
  {
    hide W.Answer;
  }

  lemma RunNothing(w: W.World<Client>)
    requires w.stores != []
    ensures W.Run(w, []) == w
  {
  }
}

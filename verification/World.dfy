// The server as a state machine over its clients: databases with watchers, queued transactions,
// subscriptions and blocking, and what every reachable state keeps.

module World {
  import opened Wrappers
  import opened Keyspace
  import opened Stores
  import opened Registries
  import Seqs

  // A blocking pop: the keys it tries in this order, the end it takes from, and how many seconds
  // it waits, 0 for ever.
  datatype Pop = Pop(keys: seq<string>, left: bool, timeout: int)

  // What a command does: one operation on the selected database, the selection of another one, a
  // push, a blocking pop, or a change of subscriptions.
  datatype Command =
    | OnDb(op: ClientOp)
    | Select(index: int)
    | Push(key: string, values: seq<string>, left: bool, now: int)
    | BPop(pop: Pop, now: int)
    | Subscribe(names: seq<string>)
    | Unsubscribe(names: seq<string>)
    | PSubscribe(names: seq<string>)
    | PUnsubscribe(names: seq<string>)

  // deadline is 0 for a client that does not wait, or waits for ever.
  datatype ClientState = ClientState(
    multi: bool, dirty: bool, queue: seq<Command>, watched: set<string>, selected: nat,
    channels: set<string>, patterns: set<string>,
    blocked: bool, blockedKeys: seq<string>, blockCmd: Option<Pop>, deadline: int)

  const NEW_CLIENT := ClientState(false, false, [], {}, 0, {}, {}, false, [], None, 0)

  datatype Store<!C(==)> = Store(db: Db, watchers: Registry<string, C>)

  datatype World<!C(==)> = World(
    clients: map<C, ClientState>, stores: seq<Store<C>>,
    channels: Registry<string, C>, patterns: seq<(string, C)>, waiting: Registry<string, C>)

  // The steps of which commands are made.
  datatype Effect<!C(==)> =
    | Do(index: nat, op: Op)
    | Choose(c: C, selected: nat)
    | Enter(c: C, name: string)
    | Leave(c: C, names: set<string>)
    | PEnter(c: C, name: string)
    | PLeave(c: C, names: set<string>)
    | Wait(c: C, pop: Pop, now: int)
    | Wake(c: C)
    | Enqueue(c: C, command: Command)

  // What happens to the server: the requests of clients, and what it does on its own.
  datatype Event<!C(==)> =
    | Connect(c: C)
    | Close(c: C)
    | Multi(c: C)
    | Exec(c: C)
    | Discard(c: C)
    | Watch(c: C, keys: seq<string>)
    | Unwatch(c: C)
    | Execute(c: C, command: Command)
    | TimeOut(c: C, now: int)
    | Background(index: nat, op: Op)

  function Update<C>(w: World<C>, c: C, s: ClientState): World<C> {
    w.(clients := w.clients[c := s])
  }

  // ---------- Operations on databases ----------

  // Some key that c watches here is touched.
  ghost predicate Hit<C>(s: Store<C>, op: Op, c: C) {
    exists k :: In(s.watchers, k, c) && Touches(s.db, op, k)
  }

  ghost function Act<C>(w: World<C>, i: nat, op: Op): World<C>
    requires i < |w.stores|
  {
    var s := w.stores[i];
    w.(stores := w.stores[i := s.(db := Apply(s.db, op))],
       clients := map c | c in w.clients :: if Hit(s, op, c) then w.clients[c].(dirty := true) else w.clients[c])
  }

  // A selection outside the range falls back to the first database.
  function Index<C>(w: World<C>, selected: nat): nat {
    if selected < |w.stores| then selected else 0
  }

  // ---------- Subscriptions ----------

  function DoEnter<C>(w: World<C>, c: C, name: string): World<C>
    requires c in w.clients
  {
    var s := w.clients[c];
    if name in s.channels then w
    else Update(w.(channels := Register(w.channels, name, c)), c, s.(channels := s.channels + {name}))
  }

  ghost function DoLeave<C>(w: World<C>, c: C, names: set<string>): World<C>
    requires c in w.clients
  {
    var s := w.clients[c];
    Update(w.(channels := DeregisterAll(w.channels, s.channels * names, c)), c, s.(channels := s.channels - names))
  }

  function DoPEnter<C>(w: World<C>, c: C, name: string): World<C>
    requires c in w.clients
  {
    var s := w.clients[c];
    if name in s.patterns then w
    else Update(w.(patterns := w.patterns + [(name, c)]), c, s.(patterns := s.patterns + {name}))
  }

  // The pattern entries without those of a client under these names.
  function WithoutPatterns<C(==)>(patterns: seq<(string, C)>, names: set<string>, c: C): seq<(string, C)>
    decreases |patterns|
  {
    if patterns == [] then []
    else
      var rest := WithoutPatterns(patterns[1..], names, c);
      if patterns[0].0 in names && patterns[0].1 == c then rest else [patterns[0]] + rest
  }

  function DoPLeave<C>(w: World<C>, c: C, names: set<string>): World<C>
    requires c in w.clients
  {
    var s := w.clients[c];
    Update(w.(patterns := WithoutPatterns(w.patterns, s.patterns * names, c)), c, s.(patterns := s.patterns - names))
  }

  // ---------- Blocking ----------

  function Deadline(timeout: int, now: int): int {
    if timeout > 0 then now + timeout * 1000 else 0
  }

  function DoWait<C>(w: World<C>, c: C, pop: Pop, now: int): World<C>
    requires c in w.clients
  {
    Update(w.(waiting := RegisterAll(w.waiting, pop.keys, c)), c,
      w.clients[c].(blocked := true, blockedKeys := pop.keys, blockCmd := Some(pop),
                    deadline := Deadline(pop.timeout, now)))
  }

  function Awake(s: ClientState): ClientState {
    s.(blocked := false, blockedKeys := [], blockCmd := None, deadline := 0)
  }

  ghost function DoWake<C>(w: World<C>, c: C): World<C>
    requires c in w.clients
  {
    var s := w.clients[c];
    if !s.blocked then w
    else Update(w.(waiting := DeregisterAll(w.waiting, Names(s.blockedKeys), c)), c, Awake(s))
  }

  // ---------- What a command does, step by step ----------

  ghost function Affect<C>(w: World<C>, f: Effect<C>): (r: World<C>)
    ensures |r.stores| == |w.stores| && r.clients.Keys == w.clients.Keys
  {
    if f.Do? then
      if f.index < |w.stores| then Act(w, f.index, f.op) else w
    else if f.c !in w.clients then w
    else
      var s := w.clients[f.c];
      match f
      case Choose(c, n) => Update(w, c, s.(selected := n))
      case Enter(c, name) => DoEnter(w, c, name)
      case Leave(c, names) => DoLeave(w, c, names)
      case PEnter(c, name) => DoPEnter(w, c, name)
      case PLeave(c, names) => DoPLeave(w, c, names)
      case Wait(c, pop, now) => DoWait(w, c, pop, now)
      case Wake(c) => DoWake(w, c)
      case Enqueue(c, command) => if s.multi then Update(w, c, s.(queue := s.queue + [command])) else w
  }

  ghost function AffectAll<C>(w: World<C>, fs: seq<Effect<C>>): (r: World<C>)
    ensures |r.stores| == |w.stores| && r.clients.Keys == w.clients.Keys
    decreases |fs|
  {
    if fs == [] then w else AffectAll(Affect(w, fs[0]), fs[1..])
  }

  function On<C>(i: nat, ops: seq<Op>): (fs: seq<Effect<C>>)
    ensures |fs| == |ops|
  {
    seq(|ops|, j requires 0 <= j < |ops| => Do(i, ops[j]))
  }

  // The elements of a list after pushes at one end.
  function Pushed(items: seq<string>, values: seq<string>, left: bool): seq<string>
    decreases |values|
  {
    if values == [] then items
    else Pushed(if left then [values[0]] + items else items + [values[0]], values[1..], left)
  }

  function Rest(items: seq<string>, left: bool): seq<string>
    requires items != []
  {
    if left then items[1..] else items[..|items| - 1]
  }

  predicate HasItems(db: Db, key: string) {
    key in db.data && db.data[key].List? && db.data[key].items != []
  }

  // An element is taken from the list, which goes with its last one.
  function TakeOps(db: Db, key: string, left: bool): seq<Op>
    requires HasItems(db, key)
  {
    var rest := Rest(db.data[key].items, left);
    [InPlace(key, List(rest))] + if rest == [] then [Op.Del(key)] else []
  }

  // The keys are looked up in order; the first list with an element gives one, without any the
  // client waits for all of them.
  function PopTrace<C>(db: Db, i: nat, c: C, pop: Pop, keys: seq<string>, now: int): seq<Effect<C>>
    decreases |keys|
  {
    if keys == [] then [Wait(c, pop, now)]
    else
      var looked := CheckAndExpire(db, keys[0], now);
      [Do(i, Expire(keys[0], now))] +
      if HasItems(looked, keys[0]) then On(i, TakeOps(looked, keys[0], pop.left))
      else PopTrace(looked, i, c, pop, keys[1..], now)
  }

  // A list is made if the key is free; another type refuses the push.
  function PushOps(db: Db, key: string, values: seq<string>, left: bool, now: int): seq<Op> {
    var looked := CheckAndExpire(db, key, now);
    if key !in looked.data then
      [Expire(key, now), Assign(key, List([])), InPlace(key, List(Pushed([], values, left)))]
    else if looked.data[key].List? then
      [Expire(key, now), InPlace(key, List(Pushed(looked.data[key].items, values, left)))]
    else [Expire(key, now)]
  }

  // The client that has waited longest for the key is woken and its command runs again, with the
  // present time. Behind an entry without a client the program's behaviour is undefined.
  function ServeTrace<C>(w: World<C>, key: string, now: int): seq<Effect<C>>
    requires w.stores != []
  {
    if key !in w.waiting || w.waiting[key] == [] || w.waiting[key][0] !in w.clients then []
    else
      var d := w.waiting[key][0];
      var s := w.clients[d];
      var i := Index(w, s.selected);
      [Wake(d)] + match s.blockCmd
        case None => []
        case Some(pop) =>
          if s.multi then [Enqueue(d, BPop(pop, now))] else PopTrace(w.stores[i].db, i, d, pop, pop.keys, now)
  }

  ghost function PushTrace<C>(w: World<C>, i: nat, key: string, values: seq<string>, left: bool, now: int)
    : seq<Effect<C>>
    requires i < |w.stores|
  {
    var ops := PushOps(w.stores[i].db, key, values, left, now);
    var pushed := On(i, ops);
    pushed + if |ops| > 1 && values != [] then ServeTrace(AffectAll(w, pushed), key, now) else []
  }

  // RPUSH pushes twice.
  ghost function CommandTrace<C>(w: World<C>, c: C, command: Command): seq<Effect<C>>
    requires w.stores != [] && c in w.clients
  {
    var s := w.clients[c];
    var i := Index(w, s.selected);
    match command
    case OnDb(op) => [Do(i, op)]
    case Select(n) => if 0 <= n < |w.stores| then [Choose(c, n)] else []
    case Push(key, values, left, now) =>
      var once := PushTrace(w, i, key, values, left, now);
      if left then once else once + PushTrace(AffectAll(w, once), i, key, values, left, now)
    case BPop(pop, now) => if pop.timeout < 0 then [] else PopTrace(w.stores[i].db, i, c, pop, pop.keys, now)
    case Subscribe(names) => seq(|names|, j requires 0 <= j < |names| => Enter(c, names[j]))
    case Unsubscribe(names) => [Leave(c, if names == [] then s.channels else Registries.Names(names))]
    case PSubscribe(names) => seq(|names|, j requires 0 <= j < |names| => PEnter(c, names[j]))
    case PUnsubscribe(names) => [PLeave(c, if names == [] then s.patterns else Registries.Names(names))]
  }

  ghost function Perform<C>(w: World<C>, c: C, command: Command): (r: World<C>)
    requires w.stores != [] && c in w.clients
    ensures |r.stores| == |w.stores| && r.clients.Keys == w.clients.Keys
  {
    AffectAll(w, CommandTrace(w, c, command))
  }

  ghost function PerformAll<C>(w: World<C>, c: C, commands: seq<Command>): (r: World<C>)
    requires w.stores != [] && c in w.clients
    ensures |r.stores| == |w.stores| && r.clients.Keys == w.clients.Keys
    decreases |commands|
  {
    if commands == [] then w else PerformAll(Perform(w, c, commands[0]), c, commands[1..])
  }

  ghost function QueueTrace<C>(w: World<C>, c: C, commands: seq<Command>): seq<Effect<C>>
    requires w.stores != [] && c in w.clients
    decreases |commands|
  {
    if commands == [] then []
    else CommandTrace(w, c, commands[0]) + QueueTrace(Perform(w, c, commands[0]), c, commands[1..])
  }

  lemma {:induction false} AffectConcat<C>(w: World<C>, fs: seq<Effect<C>>, gs: seq<Effect<C>>)
    ensures AffectAll(w, fs + gs) == AffectAll(AffectAll(w, fs), gs)
    decreases |fs|
  {
    hide Affect;
    if fs == [] {
      assert fs + gs == gs;
    } else {
      assert (fs + gs)[1..] == fs[1..] + gs;
      AffectConcat(Affect(w, fs[0]), fs[1..], gs);
    }
  }

  // A queue's commands one after the other are all their effects one after the other.
  lemma {:induction false} QueueIsTrace<C>(w: World<C>, c: C, commands: seq<Command>)
    requires w.stores != [] && c in w.clients
    ensures PerformAll(w, c, commands) == AffectAll(w, QueueTrace(w, c, commands))
    decreases |commands|
  {
    hide CommandTrace;
    hide AffectAll;
    if commands == [] {
      AffectNothing(w);
    } else {
      var next := Perform(w, c, commands[0]);
      QueueIsTrace(next, c, commands[1..]);
      AffectConcat(w, CommandTrace(w, c, commands[0]), QueueTrace(next, c, commands[1..]));
    }
  }

  lemma AffectNothing<C>(w: World<C>)
    ensures AffectAll(w, []) == w
  {
  }

  lemma AffectOne<C>(w: World<C>, f: Effect<C>)
    ensures AffectAll(w, [f]) == Affect(w, f)
  {
    hide Affect;
    assert [f][1..] == [];
    assert AffectAll(w, [f]) == AffectAll(Affect(w, f), []);
  }

  // ---------- Transactions ----------

  function Cleared(s: ClientState): ClientState {
    s.(multi := false, dirty := false, queue := [])
  }

  ghost function Forgotten<C>(stores: seq<Store<C>>, keys: set<string>, c: C): seq<Store<C>> {
    seq(|stores|, i requires 0 <= i < |stores| =>
      stores[i].(watchers := DeregisterAll(stores[i].watchers, keys, c)))
  }

  ghost function Forget<C>(w: World<C>, c: C): World<C>
    requires c in w.clients
  {
    Update(w.(stores := Forgotten(w.stores, w.clients[c].watched, c)), c, w.clients[c].(watched := {}))
  }

  ghost function DoExec<C>(w: World<C>, c: C): World<C>
    requires w.stores != [] && c in w.clients
  {
    var s := w.clients[c];
    if !s.multi then w
    else if s.dirty then Update(w, c, Cleared(s))
    else PerformAll(Update(w, c, Cleared(s)), c, s.queue)
  }

  ghost function DoDiscard<C>(w: World<C>, c: C): World<C>
    requires c in w.clients
  {
    if !w.clients[c].multi then w
    else
      var f := Forget(w, c);
      Update(f, c, Cleared(f.clients[c]))
  }

  function DoWatch<C>(w: World<C>, c: C, keys: seq<string>): World<C>
    requires w.stores != [] && c in w.clients
  {
    var s := w.clients[c];
    if s.multi then w
    else
      var i := Index(w, s.selected);
      var store := w.stores[i];
      Update(w.(stores := w.stores[i := store.(watchers := RegisterAll(store.watchers, keys, c))]),
        c, s.(watched := s.watched + (set k | k in keys)))
  }

  ghost function DoUnwatch<C>(w: World<C>, c: C): World<C>
    requires c in w.clients
  {
    var f := Forget(w, c);
    Update(f, c, f.clients[c].(dirty := false))
  }

  // ---------- Closing ----------

  // Leaving the channels and patterns, the first part of closing.
  ghost function Unlisted<C>(w: World<C>, c: C): World<C>
    requires c in w.clients
  {
    DoPLeave(DoLeave(w, c, w.clients[c].channels), c, w.clients[c].patterns)
  }

  // closeClient, after which the client is destroyed.
  ghost function Left<C>(w: World<C>, c: C): World<C>
    requires c in w.clients
  {
    Forget(DoWake(Unlisted(w, c), c), c)
  }

  ghost function DoClose<C>(w: World<C>, c: C): World<C>
    requires c in w.clients
  {
    var l := Left(w, c);
    l.(clients := l.clients - {c})
  }

  // ---------- Events ----------

  predicate IsRequest<C(==)>(e: Event<C>) {
    !e.Background? && !e.Connect? && !e.Close? && !e.TimeOut?
  }

  // A request that the server takes up.
  ghost function Answer<C>(w: World<C>, e: Event<C>): (r: World<C>)
    requires w.stores != [] && IsRequest(e) && e.c in w.clients
    ensures |r.stores| == |w.stores|
  {
    var s := w.clients[e.c];
    match e
    case Multi(c) => Update(w, c, s.(multi := true))
    case Exec(c) => DoExec(w, c)
    case Discard(c) => DoDiscard(w, c)
    case Watch(c, keys) => DoWatch(w, c, keys)
    case Unwatch(c) => DoUnwatch(w, c)
    case Execute(c, command) =>
      if s.multi then Update(w, c, s.(queue := s.queue + [command])) else Perform(w, c, command)
  }

  // What a blocked client sends is dropped.
  ghost function ClientStep<C>(w: World<C>, e: Event<C>): (r: World<C>)
    requires w.stores != [] && !e.Background? && e.c in w.clients
    ensures |r.stores| == |w.stores|
  {
    var s := w.clients[e.c];
    if IsRequest(e) then if s.blocked then w else Answer(w, e)
    else if e.Close? then DoClose(w, e.c)
    else if e.TimeOut? && s.deadline > 0 && e.now >= s.deadline then DoWake(w, e.c)
    else w
  }

  ghost function Step<C>(w: World<C>, e: Event<C>): (r: World<C>)
    requires w.stores != []
    ensures |r.stores| == |w.stores|
  {
    if e.Background? then
      if e.index < |w.stores| then Act(w, e.index, e.op) else w
    else if e.c in w.clients then ClientStep(w, e)
    else if e.Connect? then Update(w, e.c, NEW_CLIENT)
    else w
  }

  ghost function Run<C>(w: World<C>, run: seq<Event<C>>): (r: World<C>)
    requires w.stores != []
    ensures |r.stores| == |w.stores|
    decreases |run|
  {
    if run == [] then w else Run(Step(w, run[0]), run[1..])
  }

  // A run is its events one after the other.
  lemma {:induction false} RunConcat<C>(w: World<C>, run: seq<Event<C>>, more: seq<Event<C>>)
    requires w.stores != []
    ensures Run(w, run + more) == Run(Run(w, run), more)
    ensures |more| == 1 ==> Run(w, more) == Step(w, more[0])
    decreases |run|
  {
    hide Step;
    if run == [] {
      assert run + more == more;
      if |more| == 1 {
        assert more[1..] == [];
        assert Run(w, more) == Run(Step(w, more[0]), []);
      }
    } else {
      assert (run + more)[1..] == run[1..] + more;
      RunConcat(Step(w, run[0]), run[1..], more);
      RunConcat(w, [], more);
    }
  }

  // ---------- The commands that an event runs ----------

  ghost predicate Executes<C>(w: World<C>, e: Event<C>) {
    e.Execute? && e.c in w.clients && !w.clients[e.c].blocked && !w.clients[e.c].multi
  }

  ghost predicate RunsQueue<C>(w: World<C>, e: Event<C>) {
    e.Exec? && e.c in w.clients && !w.clients[e.c].blocked && w.clients[e.c].multi && !w.clients[e.c].dirty
  }

  // The state in which an event starts to run its commands, and their effects.
  ghost function Before<C>(w: World<C>, e: Event<C>): World<C> {
    if RunsQueue(w, e) then Update(w, e.c, Cleared(w.clients[e.c])) else w
  }

  ghost function Trace<C>(w: World<C>, e: Event<C>): seq<Effect<C>>
    requires w.stores != []
  {
    if e.Background? then [Do(e.index, e.op)]
    else if Executes(w, e) then CommandTrace(w, e.c, e.command)
    else if RunsQueue(w, e) then QueueTrace(Before(w, e), e.c, w.clients[e.c].queue)
    else []
  }

  lemma StepIsTrace<C>(w: World<C>, e: Event<C>)
    requires w.stores != [] && (e.Background? || Executes(w, e) || RunsQueue(w, e))
    ensures Step(w, e) == AffectAll(Before(w, e), Trace(w, e))
  {
    hide Act;
    hide CommandTrace;
    hide QueueTrace;
    hide AffectAll;
    if e.Background? {
      AffectOne(w, Do(e.index, e.op));
    } else if RunsQueue(w, e) {
      QueueIsTrace(Before(w, e), e.c, w.clients[e.c].queue);
    }
  }

  // ---------- Registries mirror clients ----------

  ghost predicate Watches<C>(w: World<C>, k: string, c: C) {
    exists i :: 0 <= i < |w.stores| && In(w.stores[i].watchers, k, c)
  }

  // No registry knows c.
  ghost predicate Unknown<C>(w: World<C>, c: C) {
    && (forall k :: !In(w.channels, k, c))
    && (forall k :: (k, c) !in w.patterns)
    && (forall k :: !In(w.waiting, k, c))
    && (forall k :: !Watches(w, k, c))
  }

  // A client that is not blocked waits for nothing, and commands wait only inside MULTI.
  predicate Settled(s: ClientState) {
    && (!s.blocked ==> s.blockedKeys == [] && s.blockCmd == None && s.deadline == 0)
    && (s.blocked ==> s.blockCmd.Some? && s.blockCmd.value.keys == s.blockedKeys)
    && (!s.multi ==> s.queue == [])
  }

  // The registries know of c exactly what c knows of itself; of anyone else nothing.
  ghost predicate Mirrored<C>(w: World<C>, c: C) {
    if c !in w.clients then Unknown(w, c)
    else
      var s := w.clients[c];
      && (forall k :: In(w.channels, k, c) <==> k in s.channels)
      && (forall k :: (k, c) in w.patterns <==> k in s.patterns)
      && (forall k :: In(w.waiting, k, c) <==> k in s.blockedKeys)
      && (forall k :: Watches(w, k, c) <==> k in s.watched)
      && Settled(s)
  }

  // No name without clients, no client twice under a channel or a pattern.
  ghost predicate Tidy<C>(w: World<C>) {
    && NoneEmpty(w.channels) && AllDistinct(w.channels)
    && Seqs.Distinct(w.patterns)
    && NoneEmpty(w.waiting)
    && forall i :: 0 <= i < |w.stores| ==> NoneEmpty(w.stores[i].watchers)
  }
}

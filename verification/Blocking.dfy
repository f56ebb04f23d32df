// Blocking pops: which commands can leave a client behind in the waiting lists, and which cannot.

module Blocking {
  import opened Wrappers
  import opened Keyspace
  import opened Stores
  import opened Registries
  import opened World
  import opened Mirrors

  // ---------- Only a transaction blocks a client twice ----------

  lemma {:induction false} FitsConcat<C>(w: World<C>, fs: seq<Effect<C>>, gs: seq<Effect<C>>)
    ensures FitAll(w, fs + gs) <==> FitAll(w, fs) && FitAll(AffectAll(w, fs), gs)
    decreases |fs|
  {
    hide Affect;
    hide Fits;
    if fs == [] {
      assert fs + gs == gs;
    } else {
      assert (fs + gs)[1..] == fs[1..] + gs;
      FitsConcat(Affect(w, fs[0]), fs[1..], gs);
    }
  }

  lemma {:induction false} NoWaitFits<C>(w: World<C>, fs: seq<Effect<C>>)
    requires forall j :: 0 <= j < |fs| ==> !fs[j].Wait?
    ensures FitAll(w, fs)
    decreases |fs|
  {
    hide Affect;
    if fs != [] {
      assert forall j :: 0 <= j < |fs[1..]| ==> fs[1..][j] == fs[j + 1];
      NoWaitFits(Affect(w, fs[0]), fs[1..]);
    }
  }

  // The keys on which a client waits, none if it is not connected.
  function WaitsOn<C(==)>(w: World<C>, c: C): seq<string> {
    if c in w.clients then w.clients[c].blockedKeys else []
  }

  lemma DoWaitsOn<C>(w: World<C>, i: nat, op: Op, c: C)
    ensures WaitsOn(Affect(w, Do(i, op)), c) == WaitsOn(w, c)
  {
    hide Apply;
    hide Hit;
  }

  lemma {:induction false} PopFits<C>(w: World<C>, db: Db, i: nat, c: C, pop: Pop, keys: seq<string>, now: int)
    requires forall k <- WaitsOn(w, c) :: k in pop.keys
    ensures FitAll(w, PopTrace(db, i, c, pop, keys, now))
    decreases |keys|
  {
    hide Affect;
    hide CheckAndExpire;
    if keys == [] {
      assert PopTrace(db, i, c, pop, keys, now)[1..] == [];
    } else {
      var looked := CheckAndExpire(db, keys[0], now);
      var first := Do(i, Expire(keys[0], now));
      var w' := Affect(w, first);
      DoWaitsOn(w, i, Expire(keys[0], now), c);
      if HasItems(looked, keys[0]) {
        NoWaitFits(w, [first] + On(i, TakeOps(looked, keys[0], pop.left)));
      } else {
        var more := PopTrace(looked, i, c, pop, keys[1..], now);
        PopFits(w', looked, i, c, pop, keys[1..], now);
        assert ([first] + more)[1..] == more;
      }
    }
  }

  lemma ServeFits<C>(w: World<C>, key: string, now: int)
    requires w.stores != [] && AllMirrored(w)
    ensures FitAll(w, ServeTrace(w, key, now))
  {
    hide Tidy;
    hide PopTrace;
    hide Affect;
    if key in w.waiting && w.waiting[key] != [] && w.waiting[key][0] in w.clients {
      var d := w.waiting[key][0];
      var s := w.clients[d];
      var i := Index(w, s.selected);
      assert Settled(s);
      var w' := Affect(w, Wake(d));
      assert WaitsOn(w', d) == [] by { WokenWaitsOn(w, d); }
      if s.blockCmd.Some? && !s.multi {
        var pop := s.blockCmd.value;
        var more := PopTrace(w.stores[i].db, i, d, pop, pop.keys, now);
        PopFits(w', w.stores[i].db, i, d, pop, pop.keys, now);
        assert ([Wake(d)] + more)[1..] == more;
      } else {
        NoWaitFits(w, ServeTrace(w, key, now));
      }
    }
  }

  lemma WokenWaitsOn<C>(w: World<C>, c: C)
    requires c in w.clients && Settled(w.clients[c])
    ensures WaitsOn(Affect(w, Wake(c)), c) == []
  {
  }

  lemma PushFits<C>(w: World<C>, i: nat, key: string, values: seq<string>, left: bool, now: int)
    requires i < |w.stores| && AllMirrored(w)
    ensures FitAll(w, PushTrace(w, i, key, values, left, now))
  {
    hide AllMirrored;
    hide Mirrored;
    hide Affect;
    hide AffectAll;
    hide FitAll;
    hide PushOps;
    hide ServeTrace;
    var ops := PushOps(w.stores[i].db, key, values, left, now);
    var pushed := On<C>(i, ops);
    NoWaitFits(w, pushed);
    FitKeepsAll(w, pushed);
    if |ops| > 1 && values != [] {
      ServeFits(AffectAll(w, pushed), key, now);
      FitsConcat(w, pushed, ServeTrace(AffectAll(w, pushed), key, now));
    } else {
      assert pushed + [] == pushed;
    }
  }

  // EffectsKeep without a client of interest.
  lemma {:induction false} FitKeepsAll<C>(w: World<C>, fs: seq<Effect<C>>)
    requires AllMirrored(w) && FitAll(w, fs)
    ensures AllMirrored(AffectAll(w, fs))
    decreases |fs|
  {
    hide AllMirrored;
    hide Affect;
    hide Fits;
    if fs != [] {
      EffectKeepsAll(w, fs[0]);
      FitKeepsAll(Affect(w, fs[0]), fs[1..]);
    }
  }

  lemma CommandFits<C>(w: World<C>, c: C, command: Command)
    requires w.stores != [] && c in w.clients && AllMirrored(w)
    requires command.BPop? ==> forall k <- w.clients[c].blockedKeys :: k in command.pop.keys
    ensures FitAll(w, CommandTrace(w, c, command))
  {
    hide AllMirrored;
    hide FitAll;
    hide PushTrace;
    hide PopTrace;
    hide Affect;
    var i := Index(w, w.clients[c].selected);
    if command.Push? {
      var once := PushTrace(w, i, command.key, command.values, command.left, command.now);
      PushFits(w, i, command.key, command.values, command.left, command.now);
      if !command.left {
        FitKeepsAll(w, once);
        var w' := AffectAll(w, once);
        PushFits(w', i, command.key, command.values, command.left, command.now);
        FitsConcat(w, once, PushTrace(w', i, command.key, command.values, command.left, command.now));
      }
    } else if command.BPop? && command.pop.timeout >= 0 {
      PopFits(w, w.stores[i].db, i, c, command.pop, command.pop.keys, command.now);
    } else {
      NoWaitFits(w, CommandTrace(w, c, command));
    }
  }

  // Whatever a client sends outside a transaction, and whatever the server does on its own,
  // blocks nobody twice.
  lemma OnlyExecBlocksTwice<C>(w: World<C>, e: Event<C>)
    requires w.stores != [] && AllMirrored(w) && !RunsQueue(w, e)
    ensures Allowed(w, e)
  {
    hide Tidy;
    hide FitAll;
    hide CommandTrace;
    if Executes(w, e) {
      assert Settled(w.clients[e.c]);
      CommandFits(w, e.c, e.command);
    } else {
      NoWaitFits(w, Trace(w, e));
    }
  }

  // ---------- One blocking pop in a transaction is harmless ----------

  function Pops(commands: seq<Command>): nat
    decreases |commands|
  {
    if commands == [] then 0 else (if commands[0].BPop? then 1 else 0) + Pops(commands[1..])
  }

  predicate Free<C(==)>(w: World<C>, c: C) {
    c in w.clients && !w.clients[c].blocked && w.clients[c].blockCmd == None
  }

  predicate SameQueue<C(==)>(w: World<C>, w': World<C>, c: C) {
    && c in w.clients && c in w'.clients
    && w'.clients[c].multi == w.clients[c].multi && w'.clients[c].queue == w.clients[c].queue
  }

  // Effects that neither block c nor add to its queue.
  predicate Spares<C(==)>(fs: seq<Effect<C>>, c: C) {
    forall j :: 0 <= j < |fs| ==> !((fs[j].Wait? || fs[j].Enqueue?) && fs[j].c == c)
  }

  lemma SparedByOne<C>(w: World<C>, f: Effect<C>, c: C)
    requires Free(w, c) && Spares([f], c)
    ensures Free(Affect(w, f), c) && SameQueue(w, Affect(w, f), c)
  {
    hide Apply;
    hide Hit;
    hide RegisterAll;
    hide DeregisterAll;
    hide WithoutPatterns;
    assert f == [f][0];
  }

  lemma {:induction false} Spared<C>(w: World<C>, fs: seq<Effect<C>>, c: C)
    requires Free(w, c) && Spares(fs, c)
    ensures Free(AffectAll(w, fs), c) && SameQueue(w, AffectAll(w, fs), c)
    decreases |fs|
  {
    hide Affect;
    hide Free;
    if fs == [] {
      assert c in w.clients by { FreeIsConnected(w, c); }
    } else {
      assert forall j :: 0 <= j < |fs[1..]| ==> fs[1..][j] == fs[j + 1];
      SparedByOne(w, fs[0], c);
      Spared(Affect(w, fs[0]), fs[1..], c);
    }
  }

  lemma FreeIsConnected<C>(w: World<C>, c: C)
    requires Free(w, c)
    ensures c in w.clients
  {
  }

  lemma {:induction false} PopSpares<C>(db: Db, i: nat, d: C, pop: Pop, keys: seq<string>, now: int, c: C)
    requires d != c
    ensures Spares(PopTrace(db, i, d, pop, keys, now), c)
    decreases |keys|
  {
    hide CheckAndExpire;
    if keys != [] {
      PopSpares(CheckAndExpire(db, keys[0], now), i, d, pop, keys[1..], now, c);
    }
  }

  lemma ServeSpares<C>(w: World<C>, key: string, now: int, c: C)
    requires w.stores != [] && Free(w, c)
    ensures Spares(ServeTrace(w, key, now), c)
  {
    hide PopTrace;
    if key in w.waiting && w.waiting[key] != [] && w.waiting[key][0] in w.clients {
      var d := w.waiting[key][0];
      var s := w.clients[d];
      if s.blockCmd.Some? {
        PopSpares(w.stores[Index(w, s.selected)].db, Index(w, s.selected), d, s.blockCmd.value,
          s.blockCmd.value.keys, now, c);
      }
    }
  }

  lemma PushSpares<C>(w: World<C>, i: nat, key: string, values: seq<string>, left: bool, now: int, c: C)
    requires i < |w.stores| && Free(w, c)
    ensures Spares(PushTrace(w, i, key, values, left, now), c)
  {
    hide PushOps;
    hide ServeTrace;
    hide AffectAll;
    hide Free;
    var pushed := On<C>(i, PushOps(w.stores[i].db, key, values, left, now));
    Spared(w, pushed, c);
    ServeSpares(AffectAll(w, pushed), key, now, c);
  }

  // No command of anybody else, and no command of its own but a blocking pop, blocks a free
  // client or adds to its queue.
  lemma CommandSpares<C>(w: World<C>, d: C, command: Command, c: C)
    requires w.stores != [] && d in w.clients && Free(w, c) && (command.BPop? ==> d != c)
    ensures Spares(CommandTrace(w, d, command), c) && Free(Perform(w, d, command), c)
  {
    hide PushTrace;
    hide PopTrace;
    hide AffectAll;
    hide Free;
    var i := Index(w, w.clients[d].selected);
    if command.Push? {
      var once := PushTrace(w, i, command.key, command.values, command.left, command.now);
      PushSpares(w, i, command.key, command.values, command.left, command.now, c);
      Spared(w, once, c);
      PushSpares(AffectAll(w, once), i, command.key, command.values, command.left, command.now, c);
    } else if command.BPop? {
      PopSpares(w.stores[i].db, i, d, command.pop, command.pop.keys, command.now, c);
    }
    Spared(w, CommandTrace(w, d, command), c);
  }

  lemma {:induction false} OnePopFits<C>(w: World<C>, c: C, commands: seq<Command>)
    requires w.stores != [] && c in w.clients && AllMirrored(w)
    requires Pops(commands) == 0 || (Free(w, c) && Pops(commands) == 1)
    ensures FitAll(w, QueueTrace(w, c, commands))
    decreases |commands|
  {
    hide AllMirrored;
    hide CommandTrace;
    hide AffectAll;
    hide FitAll;
    if commands == [] {
      NoWaitFits(w, QueueTrace(w, c, commands));
    } else {
      var first, next := CommandTrace(w, c, commands[0]), Perform(w, c, commands[0]);
      FreeWaitsOnNothing(w, c);
      CommandFits(w, c, commands[0]);
      FitKeepsAll(w, first);
      if Pops(commands) == 1 && !commands[0].BPop? {
        CommandSpares(w, c, commands[0], c);
      }
      OnePopFits(next, c, commands[1..]);
      FitsConcat(w, first, QueueTrace(next, c, commands[1..]));
    }
  }

  lemma FreeWaitsOnNothing<C>(w: World<C>, c: C)
    requires AllMirrored(w) && c in w.clients
    ensures Free(w, c) ==> w.clients[c].blockedKeys == []
  {
    hide Tidy;
    assert Settled(w.clients[c]);
  }

  // A queue with one blocking pop at most keeps the registries right.
  lemma OneBlockingPopIsAllowed<C>(w: World<C>, c: C)
    requires w.stores != [] && AllMirrored(w) && c in w.clients && Pops(w.clients[c].queue) <= 1
    ensures Allowed(w, Exec(c))
  {
    hide Tidy;
    hide Mirrored;
    hide FitAll;
    hide QueueTrace;
    var e: Event<C> := Exec(c);
    if RunsQueue(w, e) {
      BeforeKeeps(w, e, c);
      ExecutorIsFree(w, c);
      OnePopFits(Before(w, e), c, w.clients[c].queue);
    } else {
      NoWaitFits(w, Trace(w, e));
    }
  }

  lemma ExecutorIsFree<C>(w: World<C>, c: C)
    requires AllMirrored(w) && RunsQueue(w, Exec(c))
    ensures Free(Before(w, Exec(c)), c)
  {
    hide Tidy;
    assert Settled(w.clients[c]);
  }

  // ---------- What two of them do ----------

  const POP_A := Pop(["a"], true, 0)
  const POP_B := Pop(["b"], true, 0)

  // Looking for a key in an empty database that nobody watches changes nothing.
  lemma LookInVain<C>(w: World<C>, key: string, now: int)
    requires w.stores != [] && w.stores[0] == Store(EMPTY, map[])
    ensures Affect(w, Do(0, Expire(key, now))) == w
  {
    assert forall c: C <- w.clients :: !Hit(w.stores[0], Expire(key, now), c);
    var w' := Act(w, 0, Expire(key, now));
    assert w'.stores == w.stores && w'.clients == w.clients;
  }

  lemma PopInVain<C>(w: World<C>, c: C, key: string, now: int)
    requires w.stores != [] && w.stores[0] == Store(EMPTY, map[])
    requires c in w.clients && Index(w, w.clients[c].selected) == 0
    ensures var pop := Pop([key], true, 0); Perform(w, c, BPop(pop, now)) == DoWait(w, c, pop, now)
  {
    hide Affect;
    var pop := Pop([key], true, 0);
    var looked: Effect<C> := Do(0, Expire(key, now));
    LookInVain(w, key, now);
    assert [key][1..] == [];
    assert PopTrace(EMPTY, 0, c, pop, [key], now) == [looked] + [Wait(c, pop, now)];
    assert CommandTrace(w, c, BPop(pop, now)) == [looked] + [Wait(c, pop, now)];
    AffectConcat(w, [looked], [Wait(c, pop, now)]);
    AffectOne(w, looked);
    AffectOne(w, Wait(c, pop, now));
    assert Affect(w, Wait(c, pop, now)) == DoWait(w, c, pop, now) by {
      WaitIs(w, c, pop, now);
    }
  }

  lemma WaitIs<C>(w: World<C>, c: C, pop: Pop, now: int)
    requires c in w.clients
    ensures Affect(w, Wait(c, pop, now)) == DoWait(w, c, pop, now)
  {
  }

  // MULTI, BLPOP a 0, BLPOP b 0, EXEC: the server blocks the client for both, and knows it under
  // the first key still when it has been closed.
  lemma BlockingTwiceDangles<C>(c: C)
    ensures
      var begun := Step(Step(Start([EMPTY]), Connect(c)), Multi(c));
      var queued := Step(Step(begun, Execute(c, BPop(POP_A, 0))), Execute(c, BPop(POP_B, 0)));
      var blocked := Step(queued, Exec(c));
      && c in blocked.clients && blocked.clients[c].blockedKeys == ["b"] && In(blocked.waiting, "a", c)
      && c !in Step(blocked, Close(c)).clients && In(Step(blocked, Close(c)).waiting, "a", c)
  {
    hide In;
    hide RegisterAll;
    hide DeregisterAll;
    hide Perform;
    var w0 := Start<C>([EMPTY]);
    var w1 := Step(w0, Connect(c));
    var w2 := Step(w1, Multi(c));
    var w3 := Step(w2, Execute(c, BPop(POP_A, 0)));
    var w4 := Step(w3, Execute(c, BPop(POP_B, 0)));
    var w5 := Update(w4, c, Cleared(w4.clients[c]));
    PopInVain(w5, c, "a", 0);
    var w6 := DoWait(w5, c, POP_A, 0);
    PopInVain(w6, c, "b", 0);
    var w7 := DoWait(w6, c, POP_B, 0);
    assert w4.clients[c].queue == [BPop(POP_A, 0), BPop(POP_B, 0)];
    TwoCommands(w5, c, BPop(POP_A, 0), BPop(POP_B, 0));
    InRegisterAll(w5.waiting, ["a"], c, "a", c);
    InRegisterAll(w6.waiting, ["b"], c, "a", c);
    InDeregisterAll(w7.waiting, Registries.Names(["b"]), c, "a", c);
  }

  lemma TwoCommands<C>(w: World<C>, c: C, a: Command, b: Command)
    requires w.stores != [] && c in w.clients
    ensures PerformAll(w, c, [a, b]) == Perform(Perform(w, c, a), c, b)
  {
    hide Perform;
    var x := Perform(w, c, a);
    assert [a, b][1..] == [b] && [b][1..] == [];
    assert PerformAll(x, c, [b]) == PerformAll(Perform(x, c, b), c, []);
  }

  // ---------- How long a client waits ----------

  // A client that has begun to wait at this time, and is not served, waits on until the first cron
  // turn that comes so many seconds later, and with 0 for ever.
  lemma WaitsUntilDeadline<C>(w: World<C>, c: C, pop: Pop, now: int, later: int)
    requires w.stores != [] && c in w.clients && 0 <= now <= later
    ensures var waiting := DoWait(w, c, pop, now);
      var after := Step(waiting, TimeOut(c, later));
      if pop.timeout > 0 && later >= now + 1000 * pop.timeout
      then !after.clients[c].blocked && forall k <- pop.keys :: !In(after.waiting, k, c)
      else after == waiting && after.clients[c].blocked
  {
    hide In;
    hide RegisterAll;
    hide DeregisterAll;
    var waiting := DoWait(w, c, pop, now);
    forall k | k in pop.keys ensures !In(DeregisterAll(waiting.waiting, Names(pop.keys), c), k, c) {
      InDeregisterAll(waiting.waiting, Names(pop.keys), c, k, c);
    }
  }

  // A negative time to wait refuses the command.
  lemma NegativeTimeIsRefused<C>(w: World<C>, c: C, pop: Pop, now: int)
    requires w.stores != [] && c in w.clients
    ensures pop.timeout < 0 ==> Perform(w, c, BPop(pop, now)) == w
  {
    hide PopTrace;
  }

  // ---------- No client is blocked inside MULTI ----------

  ghost predicate NoneInside<C>(w: World<C>) {
    forall c <- w.clients :: !(w.clients[c].blocked && w.clients[c].multi)
  }

  // No effect opens or ends a transaction, and these block only clients outside one.
  ghost predicate Outside<C>(w: World<C>, fs: seq<Effect<C>>) {
    forall j :: 0 <= j < |fs| && fs[j].Wait? && fs[j].c in w.clients ==> !w.clients[fs[j].c].multi
  }

  ghost predicate SameMulti<C>(w: World<C>, w': World<C>) {
    w'.clients.Keys == w.clients.Keys && forall c <- w.clients :: w'.clients[c].multi == w.clients[c].multi
  }

  lemma AffectStaysOutside<C>(w: World<C>, f: Effect<C>)
    ensures SameMulti(w, Affect(w, f))
    ensures NoneInside(w) && Outside(w, [f]) ==> NoneInside(Affect(w, f))
  {
    hide Apply;
    hide Hit;
    hide RegisterAll;
    hide DeregisterAll;
    hide WithoutPatterns;
    assert f == [f][0];
  }

  lemma {:induction false} AffectAllStaysOutside<C>(w: World<C>, fs: seq<Effect<C>>)
    ensures SameMulti(w, AffectAll(w, fs))
    ensures NoneInside(w) && Outside(w, fs) ==> NoneInside(AffectAll(w, fs))
    decreases |fs|
  {
    hide Affect;
    hide NoneInside;
    if fs != [] {
      assert forall j :: 0 <= j < |fs[1..]| ==> fs[1..][j] == fs[j + 1];
      AffectStaysOutside(w, fs[0]);
      AffectAllStaysOutside(Affect(w, fs[0]), fs[1..]);
    }
  }

  // Nobody but c is blocked.
  predicate Only<C(==)>(fs: seq<Effect<C>>, c: C) {
    forall j :: 0 <= j < |fs| && fs[j].Wait? ==> fs[j].c == c
  }

  lemma {:induction false} PopBlocksOnly<C>(db: Db, i: nat, c: C, pop: Pop, keys: seq<string>, now: int)
    ensures Only(PopTrace(db, i, c, pop, keys, now), c)
    decreases |keys|
  {
    hide CheckAndExpire;
    if keys != [] {
      PopBlocksOnly(CheckAndExpire(db, keys[0], now), i, c, pop, keys[1..], now);
    }
  }

  lemma ServeOutside<C>(w: World<C>, key: string, now: int)
    requires w.stores != []
    ensures Outside(w, ServeTrace(w, key, now))
  {
    hide PopTrace;
    if key in w.waiting && w.waiting[key] != [] && w.waiting[key][0] in w.clients {
      var d := w.waiting[key][0];
      var s := w.clients[d];
      if s.blockCmd.Some? {
        PopBlocksOnly(w.stores[Index(w, s.selected)].db, Index(w, s.selected), d, s.blockCmd.value,
          s.blockCmd.value.keys, now);
      }
    }
  }

  lemma PushOutside<C>(w: World<C>, i: nat, key: string, values: seq<string>, left: bool, now: int)
    requires i < |w.stores|
    ensures Outside(w, PushTrace(w, i, key, values, left, now))
  {
    hide PushOps;
    hide ServeTrace;
    hide AffectAll;
    var pushed := On<C>(i, PushOps(w.stores[i].db, key, values, left, now));
    AffectAllStaysOutside(w, pushed);
    ServeOutside(AffectAll(w, pushed), key, now);
  }

  lemma CommandOutside<C>(w: World<C>, c: C, command: Command)
    requires w.stores != [] && c in w.clients && !w.clients[c].multi
    ensures Outside(w, CommandTrace(w, c, command))
  {
    hide PushTrace;
    hide PopTrace;
    hide AffectAll;
    var i := Index(w, w.clients[c].selected);
    if command.Push? {
      var once := PushTrace(w, i, command.key, command.values, command.left, command.now);
      PushOutside(w, i, command.key, command.values, command.left, command.now);
      AffectAllStaysOutside(w, once);
      PushOutside(AffectAll(w, once), i, command.key, command.values, command.left, command.now);
    } else if command.BPop? {
      PopBlocksOnly(w.stores[i].db, i, c, command.pop, command.pop.keys, command.now);
    }
  }

  lemma {:induction false} QueueOutside<C>(w: World<C>, c: C, commands: seq<Command>)
    requires w.stores != [] && c in w.clients && !w.clients[c].multi
    ensures Outside(w, QueueTrace(w, c, commands))
    decreases |commands|
  {
    hide CommandTrace;
    hide AffectAll;
    if commands != [] {
      CommandOutside(w, c, commands[0]);
      AffectAllStaysOutside(w, CommandTrace(w, c, commands[0]));
      QueueOutside(Perform(w, c, commands[0]), c, commands[1..]);
    }
  }

  lemma StepStaysOutside<C>(w: World<C>, e: Event<C>)
    requires w.stores != [] && NoneInside(w)
    ensures NoneInside(Step(w, e))
  {
    hide Step;
    hide CommandTrace;
    hide QueueTrace;
    hide AffectAll;
    if e.Background? || Executes(w, e) || RunsQueue(w, e) {
      StepIsTrace(w, e);
      if Executes(w, e) {
        CommandOutside(w, e.c, e.command);
      } else if RunsQueue(w, e) {
        QueueOutside(Before(w, e), e.c, w.clients[e.c].queue);
      }
      AffectAllStaysOutside(Before(w, e), Trace(w, e));
    } else {
      QuietStaysOutside(w, e);
    }
  }

  lemma QuietStaysOutside<C>(w: World<C>, e: Event<C>)
    requires w.stores != [] && NoneInside(w) && !e.Background? && !Executes(w, e) && !RunsQueue(w, e)
    ensures NoneInside(Step(w, e))
  {
    hide RegisterAll;
    hide DeregisterAll;
    hide WithoutPatterns;
    hide Perform;
    hide PerformAll;
  }

  lemma {:induction false} RunStaysOutside<C>(w: World<C>, run: seq<Event<C>>)
    requires w.stores != [] && NoneInside(w)
    ensures NoneInside(Run(w, run))
    decreases |run|
  {
    hide Step;
    hide NoneInside;
    if run != [] {
      StepStaysOutside(w, run[0]);
      RunStaysOutside(Step(w, run[0]), run[1..]);
    }
  }

  // The client that has waited longest for this key, with its command.
  ghost predicate Front<C>(w: World<C>, key: string, c: C) {
    && key in w.waiting && w.waiting[key] != [] && w.waiting[key][0] == c
    && c in w.clients && w.clients[c].blocked && Settled(w.clients[c]) && !w.clients[c].multi
    && key in w.clients[c].blockedKeys
  }

  // In every reachable state, whoever heads a waiting list is connected and blocked on its key,
  // outside MULTI.
  lemma ReachableFront<C>(dbs: seq<Db>, run: seq<Event<C>>, key: string, c: C)
    requires dbs != [] && AllowedRun(Start(dbs), run)
    requires var w := Run(Start(dbs), run); key in w.waiting && w.waiting[key] != [] && w.waiting[key][0] == c
    ensures Front(Run(Start(dbs), run), key, c)
  {
    hide Run;
    hide AllowedRun;
    hide Tidy;
    var w := Run(Start<C>(dbs), run);
    RunStaysOutside(Start<C>(dbs), run);
    ReachableIsMirrored(dbs, run, c);
    assert In(w.waiting, key, c);
  }
}

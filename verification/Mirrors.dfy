// In every reachable state the server's registries and the clients' own sets tell the same story,
// and a closed client is in none of them.

module Mirrors {
  import opened Keyspace
  import opened Stores
  import opened Registries
  import opened World
  import Seqs

  lemma ActKeeps<C>(w: World<C>, i: nat, op: Op, d: C)
    requires i < |w.stores| && Mirrored(w, d)
    ensures Mirrored(Act(w, i, op), d)
  {
    hide Apply;
    hide Hit;
    var w' := Act(w, i, op);
    forall j | 0 <= j < |w.stores| ensures w'.stores[j].watchers == w.stores[j].watchers {
    }
    SameWatchers(w, w', d);
  }

  lemma ActTidy<C>(w: World<C>, i: nat, op: Op)
    requires i < |w.stores| && Tidy(w)
    ensures Tidy(Act(w, i, op))
  {
    hide Apply;
    hide Hit;
    hide NoneEmpty;
    hide AllDistinct;
    forall j | 0 <= j < |w.stores| ensures Act(w, i, op).stores[j].watchers == w.stores[j].watchers {
    }
  }

  // Who watches what depends on the registries alone.
  lemma SameWatchers<C>(w: World<C>, w': World<C>, d: C)
    requires |w.stores| == |w'.stores|
    requires forall j :: 0 <= j < |w.stores| ==> w'.stores[j].watchers == w.stores[j].watchers
    ensures forall k :: Watches(w', k, d) <==> Watches(w, k, d)
  {
    hide In;
    forall k ensures Watches(w', k, d) <==> Watches(w, k, d) {
      if Watches(w, k, d) {
        var j :| 0 <= j < |w.stores| && In(w.stores[j].watchers, k, d);
        assert In(w'.stores[j].watchers, k, d);
      }
      if Watches(w', k, d) {
        var j :| 0 <= j < |w'.stores| && In(w'.stores[j].watchers, k, d);
        assert In(w.stores[j].watchers, k, d);
      }
    }
  }

  // A change of one client that leaves its sets alone.
  lemma UpdateKeeps<C>(w: World<C>, c: C, s: ClientState, d: C)
    requires c in w.clients && Tidy(w) && Mirrored(w, d)
    requires var t := w.clients[c];
      && s.channels == t.channels && s.patterns == t.patterns && s.watched == t.watched
      && s.blocked == t.blocked && s.blockedKeys == t.blockedKeys
      && s.blockCmd == t.blockCmd && s.deadline == t.deadline
    requires !s.multi ==> s.queue == []
    ensures Tidy(Update(w, c, s)) && Mirrored(Update(w, c, s), d)
  {
    SameWatchers(w, Update(w, c, s), d);
  }

  lemma ForgetKeeps<C>(w: World<C>, c: C, d: C)
    requires c in w.clients && Tidy(w) && Mirrored(w, c) && Mirrored(w, d)
    ensures Tidy(Forget(w, c)) && Mirrored(Forget(w, c), d)
  {
    hide In;
    hide NoneEmpty;
    hide AllDistinct;
    hide Seqs.Distinct;
    hide DeregisterAll;
    var w', keys := Forget(w, c), w.clients[c].watched;
    forall j | 0 <= j < |w.stores| ensures NoneEmpty(w'.stores[j].watchers) {
      DeregisterAllKeeps(w.stores[j].watchers, keys, c);
    }
    forall k ensures Watches(w', k, d) <==> Watches(w, k, d) && !(k in keys && d == c) {
      forall j | 0 <= j < |w.stores|
        ensures In(w'.stores[j].watchers, k, d) <==> In(w.stores[j].watchers, k, d) && !(k in keys && d == c)
      {
        InDeregisterAll(w.stores[j].watchers, keys, c, k, d);
      }
    }
  }

  lemma WatchKeeps<C>(w: World<C>, c: C, keys: seq<string>, d: C)
    requires w.stores != [] && c in w.clients && Tidy(w) && Mirrored(w, d)
    ensures Tidy(DoWatch(w, c, keys)) && Mirrored(DoWatch(w, c, keys), d)
  {
    hide In;
    hide NoneEmpty;
    hide AllDistinct;
    hide Seqs.Distinct;
    hide RegisterAll;
    var w', i := DoWatch(w, c, keys), Index(w, w.clients[c].selected);
    if !w.clients[c].multi {
      RegisterAllKeeps(w.stores[i].watchers, keys, c);
      forall k ensures Watches(w', k, d) <==> Watches(w, k, d) || (k in keys && d == c) {
        InRegisterAll(w.stores[i].watchers, keys, c, k, d);
        if Watches(w, k, d) {
          var j :| 0 <= j < |w.stores| && In(w.stores[j].watchers, k, d);
          assert In(w'.stores[j].watchers, k, d);
        }
        if Watches(w', k, d) {
          var j :| 0 <= j < |w'.stores| && In(w'.stores[j].watchers, k, d);
          if j != i {
            assert In(w.stores[j].watchers, k, d);
          }
        }
        if k in keys && d == c {
          assert In(w'.stores[i].watchers, k, d);
        }
      }
    }
  }

  lemma EnterKeeps<C>(w: World<C>, c: C, name: string, d: C)
    requires c in w.clients && Tidy(w) && Mirrored(w, c) && Mirrored(w, d)
    ensures Tidy(DoEnter(w, c, name)) && Mirrored(DoEnter(w, c, name), d)
  {
    hide In;
    hide NoneEmpty;
    hide AllDistinct;
    hide Seqs.Distinct;
    hide Register;
    var w' := DoEnter(w, c, name);
    if name !in w.clients[c].channels {
      RegisterKeeps(w.channels, name, c);
      forall k ensures In(w'.channels, k, d) <==> In(w.channels, k, d) || (k == name && d == c) {
        InRegister(w.channels, name, c, k, d);
      }
      SameWatchers(w, w', d);
    }
  }

  lemma LeaveKeeps<C>(w: World<C>, c: C, names: set<string>, d: C)
    requires c in w.clients && Tidy(w) && Mirrored(w, c) && Mirrored(w, d)
    ensures Tidy(DoLeave(w, c, names)) && Mirrored(DoLeave(w, c, names), d)
  {
    hide In;
    hide NoneEmpty;
    hide AllDistinct;
    hide Seqs.Distinct;
    hide DeregisterAll;
    var w', gone := DoLeave(w, c, names), w.clients[c].channels * names;
    DeregisterAllKeeps(w.channels, gone, c);
    forall k ensures In(w'.channels, k, d) <==> In(w.channels, k, d) && !(k in gone && d == c) {
      InDeregisterAll(w.channels, gone, c, k, d);
    }
    SameWatchers(w, w', d);
  }

  lemma PEnterKeeps<C>(w: World<C>, c: C, name: string, d: C)
    requires c in w.clients && Tidy(w) && Mirrored(w, c) && Mirrored(w, d)
    ensures Tidy(DoPEnter(w, c, name)) && Mirrored(DoPEnter(w, c, name), d)
  {
    hide In;
    hide NoneEmpty;
    hide AllDistinct;
    var w' := DoPEnter(w, c, name);
    if name !in w.clients[c].patterns {
      assert (name, c) !in w.patterns;
      SameWatchers(w, w', d);
    }
  }

  lemma {:induction false} WithoutPatternsHas<C>(patterns: seq<(string, C)>, names: set<string>, c: C, p: (string, C))
    ensures p in WithoutPatterns(patterns, names, c) <==> p in patterns && !(p.0 in names && p.1 == c)
    ensures Seqs.Distinct(patterns) ==> Seqs.Distinct(WithoutPatterns(patterns, names, c))
    decreases |patterns|
  {
    if patterns != [] {
      WithoutPatternsHas(patterns[1..], names, c, p);
      WithoutPatternsHas(patterns[1..], names, c, patterns[0]);
      assert p in patterns <==> p == patterns[0] || p in patterns[1..];
    }
  }

  lemma PLeaveKeeps<C>(w: World<C>, c: C, names: set<string>, d: C)
    requires c in w.clients && Tidy(w) && Mirrored(w, c) && Mirrored(w, d)
    ensures Tidy(DoPLeave(w, c, names)) && Mirrored(DoPLeave(w, c, names), d)
  {
    hide In;
    hide NoneEmpty;
    hide AllDistinct;
    hide Seqs.Distinct;
    var w', gone := DoPLeave(w, c, names), w.clients[c].patterns * names;
    WithoutPatternsHas(w.patterns, gone, c, ("", c));
    forall k ensures (k, d) in w'.patterns <==> (k, d) in w.patterns && !(k in gone && d == c) {
      WithoutPatternsHas(w.patterns, gone, c, (k, d));
    }
    SameWatchers(w, w', d);
  }

  lemma WakeKeeps<C>(w: World<C>, c: C, d: C)
    requires c in w.clients && Tidy(w) && Mirrored(w, c) && Mirrored(w, d)
    ensures Tidy(DoWake(w, c)) && Mirrored(DoWake(w, c), d)
  {
    hide In;
    hide NoneEmpty;
    hide AllDistinct;
    hide Seqs.Distinct;
    hide DeregisterAll;
    var w', keys := DoWake(w, c), Registries.Names(w.clients[c].blockedKeys);
    if w.clients[c].blocked {
      DeregisterAllKeeps(w.waiting, keys, c);
      forall k ensures In(w'.waiting, k, d) <==> In(w.waiting, k, d) && !(k in keys && d == c) {
        InDeregisterAll(w.waiting, keys, c, k, d);
      }
      SameWatchers(w, w', d);
    }
  }

  // Blocking a client keeps the mirror exactly if the keys it was blocked on before are among the
  // new ones: the old entries stay in the registry.
  lemma WaitKeeps<C>(w: World<C>, c: C, pop: Pop, now: int, d: C)
    requires c in w.clients && Tidy(w) && Mirrored(w, c) && Mirrored(w, d)
    ensures Tidy(DoWait(w, c, pop, now))
    ensures d != c ==> Mirrored(DoWait(w, c, pop, now), d)
    ensures Mirrored(DoWait(w, c, pop, now), c) <==> forall k <- w.clients[c].blockedKeys :: k in pop.keys
  {
    hide In;
    hide NoneEmpty;
    hide AllDistinct;
    hide Seqs.Distinct;
    hide RegisterAll;
    var w' := DoWait(w, c, pop, now);
    RegisterAllKeeps(w.waiting, pop.keys, c);
    forall k ensures In(w'.waiting, k, d) <==> In(w.waiting, k, d) || (k in pop.keys && d == c) {
      InRegisterAll(w.waiting, pop.keys, c, k, d);
    }
    forall k ensures In(w'.waiting, k, c) <==> In(w.waiting, k, c) || k in pop.keys {
      InRegisterAll(w.waiting, pop.keys, c, k, c);
    }
    SameWatchers(w, w', d);
    SameWatchers(w, w', c);
  }

  lemma UnlistedKeeps<C>(w: World<C>, c: C, d: C)
    requires c in w.clients && Tidy(w) && Mirrored(w, c) && Mirrored(w, d)
    ensures Tidy(Unlisted(w, c)) && Mirrored(Unlisted(w, c), d)
  {
    hide Tidy;
    hide Mirrored;
    hide DeregisterAll;
    var s := w.clients[c];
    LeaveKeeps(w, c, s.channels, c);
    LeaveKeeps(w, c, s.channels, d);
    PLeaveKeeps(DoLeave(w, c, s.channels), c, s.patterns, d);
  }

  lemma LeftKeeps<C>(w: World<C>, c: C, d: C)
    requires c in w.clients && Tidy(w) && Mirrored(w, c) && Mirrored(w, d)
    ensures Tidy(Left(w, c)) && Mirrored(Left(w, c), d)
    ensures Unknown(Left(w, c), c)
  {
    hide Tidy;
    hide In;
    hide DeregisterAll;
    hide Forgotten;
    var b := Unlisted(w, c);
    UnlistedKeeps(w, c, c);
    UnlistedKeeps(w, c, d);
    var u := DoWake(b, c);
    WakeKeeps(b, c, c);
    WakeKeeps(b, c, d);
    ForgetKeeps(u, c, c);
    ForgetKeeps(u, c, d);
  }

  lemma CloseKeeps<C>(w: World<C>, c: C, d: C)
    requires c in w.clients && Tidy(w) && Mirrored(w, c) && Mirrored(w, d)
    ensures Tidy(DoClose(w, c)) && Mirrored(DoClose(w, c), d)
    ensures c !in DoClose(w, c).clients && Unknown(DoClose(w, c), c)
  {
    hide In;
    hide Left;
    hide NoneEmpty;
    hide AllDistinct;
    hide Seqs.Distinct;
    LeftKeeps(w, c, d);
    SameWatchers(Left(w, c), DoClose(w, c), c);
    SameWatchers(Left(w, c), DoClose(w, c), d);
  }

  // ---------- Effects ----------

  // A client that waits already may only be blocked on keys that include the old ones.
  predicate Fits<C(==)>(w: World<C>, f: Effect<C>) {
    f.Wait? && f.c in w.clients ==> forall k <- w.clients[f.c].blockedKeys :: k in f.pop.keys
  }

  ghost predicate FitAll<C>(w: World<C>, fs: seq<Effect<C>>)
    decreases |fs|
  {
    fs == [] || (Fits(w, fs[0]) && FitAll(Affect(w, fs[0]), fs[1..]))
  }

  // Everybody who is connected is mirrored.
  ghost predicate AllMirrored<C>(w: World<C>) {
    Tidy(w) && forall c <- w.clients :: Mirrored(w, c)
  }

  lemma EffectKeeps<C>(w: World<C>, f: Effect<C>, d: C)
    requires AllMirrored(w) && Mirrored(w, d) && Fits(w, f)
    ensures Tidy(Affect(w, f)) && Mirrored(Affect(w, f), d)
  {
    hide Tidy;
    hide Mirrored;
    hide Act;
    hide DoEnter;
    hide DoLeave;
    hide DoPEnter;
    hide DoPLeave;
    hide DoWait;
    hide DoWake;
    if f.Do? {
      if f.index < |w.stores| {
        ActKeeps(w, f.index, f.op, d);
        ActTidy(w, f.index, f.op);
      }
    } else if f.c in w.clients {
      var s := w.clients[f.c];
      match f
      case Choose(c, n) => ChooseKeeps(w, c, n, d);
      case Enter(c, name) => EnterKeeps(w, c, name, d);
      case Leave(c, names) => LeaveKeeps(w, c, names, d);
      case PEnter(c, name) => PEnterKeeps(w, c, name, d);
      case PLeave(c, names) => PLeaveKeeps(w, c, names, d);
      case Wait(c, pop, now) => WaitKeeps(w, c, pop, now, d);
      case Wake(c) => WakeKeeps(w, c, d);
      case Enqueue(c, command) =>
        if s.multi {
          UpdateKeeps(w, c, s.(queue := s.queue + [command]), d);
        }
    }
  }

  lemma ChooseKeeps<C>(w: World<C>, c: C, n: nat, d: C)
    requires c in w.clients && Tidy(w) && Mirrored(w, c) && Mirrored(w, d)
    ensures var w' := Update(w, c, w.clients[c].(selected := n)); Tidy(w') && Mirrored(w', d)
  {
    hide Tidy;
    UpdateKeeps(w, c, w.clients[c].(selected := n), d);
  }

  lemma EffectKeepsAll<C>(w: World<C>, f: Effect<C>)
    requires AllMirrored(w) && Fits(w, f)
    ensures AllMirrored(Affect(w, f))
  {
    hide Tidy;
    hide Mirrored;
    hide Act;
    forall c <- w.clients ensures Mirrored(Affect(w, f), c) {
      EffectKeeps(w, f, c);
    }
    if f.Do? {
      if f.index < |w.stores| {
        ActTidy(w, f.index, f.op);
      }
    } else if f.c in w.clients {
      EffectKeeps(w, f, f.c);
    }
  }

  lemma {:induction false} EffectsKeep<C>(w: World<C>, fs: seq<Effect<C>>, d: C)
    requires AllMirrored(w) && Mirrored(w, d) && FitAll(w, fs)
    ensures AllMirrored(AffectAll(w, fs)) && Mirrored(AffectAll(w, fs), d)
    decreases |fs|
  {
    hide Tidy;
    hide Mirrored;
    hide AllMirrored;
    hide Affect;
    hide Fits;
    if fs != [] {
      EffectKeeps(w, fs[0], d);
      EffectKeepsAll(w, fs[0]);
      EffectsKeep(Affect(w, fs[0]), fs[1..], d);
    }
  }

  // ---------- Events ----------

  // No command that the event runs blocks a waiting client on other keys.
  ghost predicate Allowed<C>(w: World<C>, e: Event<C>)
    requires w.stores != []
  {
    FitAll(Before(w, e), Trace(w, e))
  }

  lemma DiscardKeeps<C>(w: World<C>, c: C, d: C)
    requires c in w.clients && Tidy(w) && Mirrored(w, c) && Mirrored(w, d)
    ensures Tidy(DoDiscard(w, c)) && Mirrored(DoDiscard(w, c), d)
  {
    hide Tidy;
    hide Mirrored;
    hide Forgotten;
    ForgetKeeps(w, c, d);
    UpdateKeeps(Forget(w, c), c, Cleared(Forget(w, c).clients[c]), d);
  }

  lemma UnwatchKeeps<C>(w: World<C>, c: C, d: C)
    requires c in w.clients && Tidy(w) && Mirrored(w, c) && Mirrored(w, d)
    ensures Tidy(DoUnwatch(w, c)) && Mirrored(DoUnwatch(w, c), d)
  {
    hide Tidy;
    hide Forgotten;
    ForgetKeeps(w, c, c);
    ForgetKeeps(w, c, d);
    UpdateKeeps(Forget(w, c), c, Forget(w, c).clients[c].(dirty := false), d);
  }

  lemma FlagsKeep<C>(w: World<C>, c: C, s: ClientState, d: C)
    requires c in w.clients && Tidy(w) && Mirrored(w, c) && Mirrored(w, d)
    requires s == w.clients[c].(multi := true) || s == Cleared(w.clients[c])
      || (w.clients[c].multi && s == w.clients[c].(queue := s.queue))
    ensures Tidy(Update(w, c, s)) && Mirrored(Update(w, c, s), d)
  {
    hide Tidy;
    UpdateKeeps(w, c, s, d);
  }

  // A request that runs no commands.
  lemma AnswerKeeps<C>(w: World<C>, e: Event<C>, d: C)
    requires w.stores != [] && IsRequest(e) && e.c in w.clients && !w.clients[e.c].blocked
    requires !Executes(w, e) && !RunsQueue(w, e)
    requires Tidy(w) && Mirrored(w, e.c) && Mirrored(w, d)
    ensures Tidy(Answer(w, e)) && Mirrored(Answer(w, e), d)
  {
    hide Tidy;
    hide Mirrored;
    hide DoDiscard;
    hide DoWatch;
    hide DoUnwatch;
    hide PerformAll;
    hide Perform;
    var s := w.clients[e.c];
    match e
    case Multi(c) => FlagsKeep(w, c, s.(multi := true), d);
    case Exec(c) =>
      if s.multi {
        FlagsKeep(w, c, Cleared(s), d);
      }
    case Discard(c) => DiscardKeeps(w, c, d);
    case Watch(c, keys) => WatchKeeps(w, c, keys, d);
    case Unwatch(c) => UnwatchKeeps(w, c, d);
    case Execute(c, command) => FlagsKeep(w, c, s.(queue := s.queue + [command]), d);
  }

  lemma ClientStepKeeps<C>(w: World<C>, e: Event<C>, d: C)
    requires w.stores != [] && !e.Background? && e.c in w.clients
    requires !Executes(w, e) && !RunsQueue(w, e)
    requires Tidy(w) && Mirrored(w, e.c) && Mirrored(w, d)
    ensures Tidy(ClientStep(w, e)) && Mirrored(ClientStep(w, e), d)
  {
    hide Tidy;
    hide Mirrored;
    hide Answer;
    hide DoClose;
    hide DoWake;
    if IsRequest(e) {
      if !w.clients[e.c].blocked {
        AnswerKeeps(w, e, d);
      }
    } else if e.Close? {
      CloseKeeps(w, e.c, d);
    } else {
      WakeKeeps(w, e.c, d);
    }
  }

  lemma ConnectKeeps<C>(w: World<C>, c: C, d: C)
    requires c !in w.clients && Tidy(w) && Mirrored(w, c) && Mirrored(w, d)
    ensures Tidy(Update(w, c, NEW_CLIENT)) && Mirrored(Update(w, c, NEW_CLIENT), d)
  {
    hide In;
    SameWatchers(w, Update(w, c, NEW_CLIENT), d);
  }

  lemma BeforeKeeps<C>(w: World<C>, e: Event<C>, d: C)
    requires w.stores != [] && AllMirrored(w) && Mirrored(w, d)
    ensures AllMirrored(Before(w, e)) && Mirrored(Before(w, e), d)
  {
    hide Tidy;
    hide Mirrored;
    if RunsQueue(w, e) {
      FlagsKeep(w, e.c, Cleared(w.clients[e.c]), d);
      forall c <- w.clients ensures Mirrored(Before(w, e), c) {
        FlagsKeep(w, e.c, Cleared(w.clients[e.c]), c);
      }
    }
  }

  lemma StepKeeps<C>(w: World<C>, e: Event<C>, d: C)
    requires w.stores != [] && Allowed(w, e) && AllMirrored(w) && Mirrored(w, d)
    requires !e.Background? ==> Mirrored(w, e.c)
    ensures Tidy(Step(w, e)) && Mirrored(Step(w, e), d)
  {
    hide Tidy;
    hide Mirrored;
    hide Act;
    hide ClientStep;
    hide Before;
    hide Trace;
    if e.Background? || Executes(w, e) || RunsQueue(w, e) {
      StepIsTrace(w, e);
      BeforeKeeps(w, e, d);
      EffectsKeep(Before(w, e), Trace(w, e), d);
    } else if e.c in w.clients {
      ClientStepKeeps(w, e, d);
    } else if e.Connect? {
      ConnectKeeps(w, e.c, d);
    }
  }

  lemma StepKeepsAll<C>(w: World<C>, e: Event<C>)
    requires w.stores != [] && Allowed(w, e) && AllMirrored(w)
    requires !e.Background? ==> Mirrored(w, e.c)
    ensures AllMirrored(Step(w, e))
  {
    hide Tidy;
    hide Mirrored;
    hide Allowed;
    hide Step;
    forall c <- Step(w, e).clients ensures Mirrored(Step(w, e), c) {
      Newcomer(w, e, c);
      StepKeeps(w, e, c);
    }
    if e.Background? {
      assert Tidy(Step(w, e)) by { BackgroundTidy(w, e); }
    } else {
      StepKeeps(w, e, e.c);
    }
  }

  lemma BackgroundTidy<C>(w: World<C>, e: Event<C>)
    requires w.stores != [] && e.Background? && Tidy(w)
    ensures Tidy(Step(w, e))
  {
    hide Tidy;
    hide Act;
    if e.index < |w.stores| {
      ActTidy(w, e.index, e.op);
    }
  }

  // Only connecting makes a client known.
  lemma Newcomer<C>(w: World<C>, e: Event<C>, c: C)
    requires w.stores != [] && c in Step(w, e).clients
    ensures c in w.clients || (e.Connect? && e.c == c)
  {
    hide Apply;
    hide Hit;
    hide CommandTrace;
    hide AffectAll;
    hide PerformAll;
    hide Forgotten;
    hide DeregisterAll;
    hide RegisterAll;
  }

  // ---------- Runs ----------

  ghost predicate AllowedRun<C>(w: World<C>, run: seq<Event<C>>)
    requires w.stores != []
    decreases |run|
  {
    run == [] || (Allowed(w, run[0]) && AllowedRun(Step(w, run[0]), run[1..]))
  }

  ghost predicate ActorsMirrored<C>(w: World<C>, run: seq<Event<C>>) {
    forall j :: 0 <= j < |run| && !run[j].Background? ==> Mirrored(w, run[j].c)
  }

  lemma {:induction false} RunKeeps<C>(w: World<C>, run: seq<Event<C>>, d: C)
    requires w.stores != [] && AllowedRun(w, run) && AllMirrored(w) && Mirrored(w, d) && ActorsMirrored(w, run)
    ensures AllMirrored(Run(w, run)) && Mirrored(Run(w, run), d)
    decreases |run|
  {
    hide Tidy;
    hide Mirrored;
    hide AllMirrored;
    hide Step;
    hide Allowed;
    if run != [] {
      var w' := Step(w, run[0]);
      StepKeeps(w, run[0], d);
      StepKeepsAll(w, run[0]);
      forall j | 0 <= j < |run[1..]| && !run[1..][j].Background? ensures Mirrored(w', run[1..][j].c) {
        StepKeeps(w, run[0], run[j + 1].c);
      }
      RunKeeps(w', run[1..], d);
    }
  }

  // A server that has just started, with these databases.
  function Start<C>(dbs: seq<Db>): World<C> {
    World(map[], seq(|dbs|, i requires 0 <= i < |dbs| => Store(dbs[i], map[])), map[], [], map[])
  }

  lemma StartIsMirrored<C>(dbs: seq<Db>, d: C)
    ensures AllMirrored(Start<C>(dbs)) && Mirrored(Start(dbs), d)
  {
    assert forall k :: !Watches(Start(dbs), k, d);
  }

  // Whatever happens, registries and clients agree, for clients that are connected and for those
  // that are not.
  lemma ReachableIsMirrored<C>(dbs: seq<Db>, run: seq<Event<C>>, d: C)
    requires dbs != [] && AllowedRun(Start(dbs), run)
    ensures Tidy(Run(Start(dbs), run)) && Mirrored(Run(Start(dbs), run), d)
  {
    hide Tidy;
    hide Mirrored;
    hide Run;
    StartIsMirrored(dbs, d);
    forall j | 0 <= j < |run| && !run[j].Background? ensures Mirrored(Start(dbs), run[j].c) {
      StartIsMirrored(dbs, run[j].c);
    }
    RunKeeps(Start(dbs), run, d);
  }

  // No registry has a reference to a client that was closed.
  lemma ClosedClientIsForgotten<C>(dbs: seq<Db>, run: seq<Event<C>>, c: C)
    requires dbs != [] && AllowedRun(Start(dbs), run) && c in Run(Start(dbs), run).clients
    ensures c !in Step(Run(Start(dbs), run), Close(c)).clients
    ensures Unknown(Step(Run(Start(dbs), run), Close(c)), c)
  {
    hide Tidy;
    hide Mirrored;
    hide Run;
    hide DoClose;
    hide Unknown;
    ReachableIsMirrored(dbs, run, c);
    CloseKeeps(Run(Start(dbs), run), c, c);
  }
}

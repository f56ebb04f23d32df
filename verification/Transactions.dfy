// WATCH, MULTI and EXEC over whole runs: a change under a watched key stops the transaction,
// and a transaction that is not stopped runs exactly the commands that were queued.

module Transactions {
  import opened Keyspace
  import opened Stores
  import opened Registries
  import opened World
  import opened Blocking
  import Seqs

  // ---------- Alerts, step by step ----------

  ghost predicate Alert<C>(w: World<C>, f: Effect<C>, c: C) {
    f.Do? && f.index < |w.stores| && Hit(w.stores[f.index], f.op, c)
  }

  // c is alerted while these effects happen.
  ghost predicate AlertedBy<C>(w: World<C>, fs: seq<Effect<C>>, c: C)
    decreases |fs|
  {
    fs != [] && (Alert(w, fs[0], c) || AlertedBy(Affect(w, fs[0]), fs[1..], c))
  }

  // c is alerted by the commands that the event runs, or by what the server does.
  ghost predicate Alerted<C>(w: World<C>, e: Event<C>, c: C)
    requires w.stores != []
  {
    AlertedBy(Before(w, e), Trace(w, e), c)
  }

  // The events by which c ends its watch or its transaction.
  predicate Ends<C(==)>(e: Event<C>, c: C) {
    (e.Exec? || e.Discard? || e.Unwatch? || e.Close?) && e.c == c
  }

  lemma AffectDirty<C>(w: World<C>, f: Effect<C>, c: C)
    requires c in w.clients
    ensures Affect(w, f).clients[c].dirty == (w.clients[c].dirty || Alert(w, f, c))
  {
    hide Apply;
    hide Hit;
  }

  lemma {:induction false} AffectAllDirty<C>(w: World<C>, fs: seq<Effect<C>>, c: C)
    requires c in w.clients
    ensures AffectAll(w, fs).clients[c].dirty == (w.clients[c].dirty || AlertedBy(w, fs, c))
    decreases |fs|
  {
    hide Alert;
    hide Affect;
    if fs != [] {
      AffectDirty(w, fs[0], c);
      AffectAllDirty(Affect(w, fs[0]), fs[1..], c);
    }
  }

  // The flag rises exactly when the client is alerted, until it ends its watch.
  lemma StepDirty<C>(w: World<C>, e: Event<C>, c: C)
    requires w.stores != [] && c in w.clients && !Ends(e, c)
    ensures c in Step(w, e).clients
    ensures Step(w, e).clients[c].dirty == (w.clients[c].dirty || Alerted(w, e, c))
  {
    hide Step;
    hide AffectAll;
    hide CommandTrace;
    hide QueueTrace;
    hide AlertedBy;
    if e.Background? || Executes(w, e) || RunsQueue(w, e) {
      StepIsTrace(w, e);
      AffectAllDirty(Before(w, e), Trace(w, e), c);
    } else {
      NoEffects(w, e, c);
      QuietDirty(w, e, c);
    }
  }

  lemma QuietDirty<C>(w: World<C>, e: Event<C>, c: C)
    requires w.stores != [] && c in w.clients && !Ends(e, c)
    requires !e.Background? && !Executes(w, e) && !RunsQueue(w, e)
    ensures c in Step(w, e).clients && Step(w, e).clients[c].dirty == w.clients[c].dirty
  {
    hide DeregisterAll;
    hide RegisterAll;
    hide WithoutPatterns;
    hide Perform;
    hide PerformAll;
  }

  lemma NoEffects<C>(w: World<C>, e: Event<C>, c: C)
    requires w.stores != [] && !e.Background? && !Executes(w, e) && !RunsQueue(w, e)
    ensures !Alerted(w, e, c)
  {
  }

  ghost predicate AlertedIn<C>(w: World<C>, run: seq<Event<C>>, c: C)
    requires w.stores != []
    decreases |run|
  {
    run != [] && (Alerted(w, run[0], c) || AlertedIn(Step(w, run[0]), run[1..], c))
  }

  predicate NoEnd<C(==)>(run: seq<Event<C>>, c: C) {
    forall j :: 0 <= j < |run| ==> !Ends(run[j], c)
  }

  lemma {:induction false} DirtyIffAlerted<C>(w: World<C>, run: seq<Event<C>>, c: C)
    requires w.stores != [] && c in w.clients && NoEnd(run, c)
    ensures c in Run(w, run).clients
    ensures Run(w, run).clients[c].dirty == (w.clients[c].dirty || AlertedIn(w, run, c))
    decreases |run|
  {
    hide Step;
    hide Alerted;
    hide Ends;
    if run != [] {
      StepDirty(w, run[0], c);
      assert forall j :: 0 <= j < |run[1..]| ==> run[1..][j] == run[j + 1];
      DirtyIffAlerted(Step(w, run[0]), run[1..], c);
    }
  }

  // ---------- A watch holds until it is ended ----------

  lemma AffectWatch<C>(w: World<C>, f: Effect<C>, i: nat)
    requires i < |w.stores|
    ensures Affect(w, f).stores[i].watchers == w.stores[i].watchers
  {
    hide Apply;
    hide Hit;
  }

  lemma {:induction false} AffectAllWatch<C>(w: World<C>, fs: seq<Effect<C>>, i: nat)
    requires i < |w.stores|
    ensures AffectAll(w, fs).stores[i].watchers == w.stores[i].watchers
    decreases |fs|
  {
    hide Affect;
    if fs != [] {
      AffectWatch(w, fs[0], i);
      AffectAllWatch(Affect(w, fs[0]), fs[1..], i);
    }
  }

  lemma StepWatch<C>(w: World<C>, e: Event<C>, c: C, k: string, i: nat)
    requires w.stores != [] && c in w.clients && !Ends(e, c)
    requires i < |w.stores| && In(w.stores[i].watchers, k, c)
    ensures In(Step(w, e).stores[i].watchers, k, c)
  {
    hide In;
    hide AffectAll;
    hide Perform;
    hide PerformAll;
    hide CommandTrace;
    hide QueueTrace;
    hide DeregisterAll;
    hide RegisterAll;
    hide WithoutPatterns;
    if e.Background? || Executes(w, e) || RunsQueue(w, e) {
      StepIsTrace(w, e);
      AffectAllWatch(Before(w, e), Trace(w, e), i);
    } else if e.c in w.clients {
      if e.Watch? {
        InRegisterAll(w.stores[i].watchers, e.keys, e.c, k, c);
      } else {
        InDeregisterAll(w.stores[i].watchers, w.clients[e.c].watched, e.c, k, c);
      }
    }
  }

  // ---------- A change under a watched key stops the transaction ----------

  // An effect that does not change a value without telling.
  ghost predicate Loud<C>(w: World<C>, f: Effect<C>) {
    f.Do? && f.index < |w.stores| ==> !Silent(w.stores[f.index].db, f.op)
  }

  // One of these effects changes the value under k in database i, and not silently. What the
  // others do, to this key or elsewhere, does not matter.
  ghost predicate AlteredBy<C>(w: World<C>, fs: seq<Effect<C>>, i: nat, k: string)
    requires i < |w.stores|
    decreases |fs|
  {
    fs != [] &&
      var w' := Affect(w, fs[0]);
      (Loud(w, fs[0]) && !SameBinding(w.stores[i].db, w'.stores[i].db, k)) || AlteredBy(w', fs[1..], i, k)
  }

  ghost predicate Altered<C>(w: World<C>, e: Event<C>, i: nat, k: string)
    requires w.stores != [] && i < |w.stores|
  {
    AlteredBy(Before(w, e), Trace(w, e), i, k)
  }

  ghost predicate AlteredIn<C>(w: World<C>, run: seq<Event<C>>, i: nat, k: string)
    requires w.stores != [] && i < |w.stores|
    decreases |run|
  {
    run != [] && (Altered(w, run[0], i, k) || AlteredIn(Step(w, run[0]), run[1..], i, k))
  }

  lemma ChangeHits<C>(s: Store<C>, op: Op, k: string, c: C)
    requires In(s.watchers, k, c) && !Silent(s.db, op) && !SameBinding(s.db, Apply(s.db, op), k)
    ensures Hit(s, op, c)
  {
    hide In;
    hide Apply;
    hide Touches;
    ChangedKeyIsTouched(s.db, op, k);
  }

  lemma AffectAlters<C>(w: World<C>, f: Effect<C>, i: nat, k: string, c: C)
    requires i < |w.stores| && In(w.stores[i].watchers, k, c) && Loud(w, f)
    requires !SameBinding(w.stores[i].db, Affect(w, f).stores[i].db, k)
    ensures Alert(w, f, c)
  {
    hide In;
    hide Apply;
    hide Hit;
    hide Silent;
    if f.Do? && i == f.index {
      ChangeHits(w.stores[i], f.op, k, c);
    }
  }

  lemma {:induction false} AffectAllAlters<C>(w: World<C>, fs: seq<Effect<C>>, i: nat, k: string, c: C)
    requires i < |w.stores| && In(w.stores[i].watchers, k, c) && AlteredBy(w, fs, i, k)
    ensures AlertedBy(w, fs, c)
    decreases |fs|
  {
    hide In;
    hide Alert;
    hide Loud;
    hide Affect;
    hide SameBinding;
    var w' := Affect(w, fs[0]);
    if Loud(w, fs[0]) && !SameBinding(w.stores[i].db, w'.stores[i].db, k) {
      AffectAlters(w, fs[0], i, k, c);
    } else {
      AffectWatch(w, fs[0], i);
      AffectAllAlters(w', fs[1..], i, k, c);
    }
  }

  lemma {:induction false} RunAlters<C>(w: World<C>, run: seq<Event<C>>, i: nat, k: string, c: C)
    requires w.stores != [] && i < |w.stores| && c in w.clients && In(w.stores[i].watchers, k, c)
    requires NoEnd(run, c) && AlteredIn(w, run, i, k)
    ensures AlertedIn(w, run, c)
    decreases |run|
  {
    hide In;
    hide Step;
    hide Before;
    hide Trace;
    hide AlteredBy;
    hide AlertedBy;
    hide Ends;
    if Altered(w, run[0], i, k) {
      BeforeWatch(w, run[0], i);
      AffectAllAlters(Before(w, run[0]), Trace(w, run[0]), i, k, c);
    } else {
      StepWatch(w, run[0], c, k, i);
      StepDirty(w, run[0], c);
      assert forall j :: 0 <= j < |run[1..]| ==> run[1..][j] == run[j + 1];
      RunAlters(Step(w, run[0]), run[1..], i, k, c);
    }
  }

  lemma BeforeWatch<C>(w: World<C>, e: Event<C>, i: nat)
    requires i < |w.stores|
    ensures Before(w, e).stores == w.stores
  {
  }

  datatype ExecReply = NotInMulti | NullArray | Results(commands: seq<Command>)

  // The answer to EXEC, if the client is not blocked.
  function Reply<C>(w: World<C>, c: C): ExecReply
    requires c in w.clients
  {
    var s := w.clients[c];
    if !s.multi then NotInMulti else if s.dirty then NullArray else Results(s.queue)
  }

  // The optimistic lock: c watches k; until its EXEC (with no DISCARD, UNWATCH or EXEC of its own
  // in between) something, anywhere in the run, changes the value under k other than silently.
  // Whatever else the run does, EXEC then answers the null array and only resets the transaction:
  // no queued command runs.
  lemma ChangeStopsExec<C>(w: World<C>, c: C, keys: seq<string>, k: string, run: seq<Event<C>>)
    requires w.stores != [] && c in w.clients && !w.clients[c].multi && !w.clients[c].blocked
    requires k in keys && NoEnd(run, c)
    requires AlteredIn(Step(w, Watch(c, keys)), run, Index(w, w.clients[c].selected), k)
    ensures var w2 := Run(Step(w, Watch(c, keys)), run);
      && c in w2.clients && w2.clients[c].dirty
      && (w2.clients[c].multi && !w2.clients[c].blocked ==>
            Reply(w2, c) == NullArray && Step(w2, Exec(c)) == Update(w2, c, Cleared(w2.clients[c])))
  {
    hide In;
    hide Run;
    hide AlteredIn;
    hide RegisterAll;
    hide PerformAll;
    var w1, i := Step(w, Watch(c, keys)), Index(w, w.clients[c].selected);
    InRegisterAll(w.stores[i].watchers, keys, c, k, c);
    RunAlters(w1, run, i, k, c);
    DirtyIffAlerted(w1, run, c);
  }

  // Without an alert the flag stays down and EXEC goes ahead.
  lemma NoAlertLetsExecRun<C>(w: World<C>, c: C, keys: seq<string>, run: seq<Event<C>>)
    requires w.stores != [] && c in w.clients && !w.clients[c].multi && !w.clients[c].dirty && NoEnd(run, c)
    requires !AlertedIn(Step(w, Watch(c, keys)), run, c)
    ensures var w2 := Run(Step(w, Watch(c, keys)), run);
      c in w2.clients && Reply(w2, c) == if w2.clients[c].multi then Results(w2.clients[c].queue) else NotInMulti
  {
    hide Run;
    hide RegisterAll;
    hide AlertedIn;
    DirtyIffAlerted(Step(w, Watch(c, keys)), run, c);
  }

  // ---------- What a transaction runs ----------

  predicate Closes<C(==)>(e: Event<C>, c: C) {
    (e.Exec? || e.Discard? || e.Close?) && e.c == c
  }

  // The commands c sent during the run, in order.
  function Issued<C(==)>(run: seq<Event<C>>, c: C): seq<Command>
    decreases |run|
  {
    if run == [] then []
    else if run[0].Execute? && run[0].c == c then [run[0].command] + Issued(run[1..], c)
    else Issued(run[1..], c)
  }

  // Inside MULTI, with nothing to wait for.
  predicate Collects<C(==)>(w: World<C>, c: C) {
    Free(w, c) && w.clients[c].multi
  }

  lemma {:induction false} QueueSpares<C>(w: World<C>, d: C, commands: seq<Command>, c: C)
    requires w.stores != [] && d in w.clients && Free(w, c) && d != c
    ensures Spares(QueueTrace(w, d, commands), c)
    decreases |commands|
  {
    hide CommandTrace;
    hide AffectAll;
    hide Free;
    if commands != [] {
      CommandSpares(w, d, commands[0], c);
      Spared(w, CommandTrace(w, d, commands[0]), c);
      QueueSpares(Perform(w, d, commands[0]), d, commands[1..], c);
    }
  }

  lemma StepQueues<C>(w: World<C>, e: Event<C>, c: C)
    requires w.stores != [] && Collects(w, c) && !Closes(e, c)
    ensures var w' := Step(w, e);
      Collects(w', c) && w'.clients[c].queue == w.clients[c].queue + Issued([e], c)
    ensures !e.Background? && e.c == c ==>
      forall j :: 0 <= j < |w.stores| ==> Step(w, e).stores[j].db == w.stores[j].db
  {
    hide Step;
    hide AffectAll;
    hide CommandTrace;
    hide QueueTrace;
    hide Spares;
    hide Free;
    assert [e][1..] == [];
    assert Issued([e], c) == if e.Execute? && e.c == c then [e.command] else [];
    if e.Background? || Executes(w, e) || RunsQueue(w, e) {
      StepIsTrace(w, e);
      TraceSpares(w, e, c);
      Spared(Before(w, e), Trace(w, e), c);
    } else {
      QuietQueue(w, e, c);
    }
  }

  lemma QuietQueue<C>(w: World<C>, e: Event<C>, c: C)
    requires w.stores != [] && Collects(w, c) && !Closes(e, c)
    requires !e.Background? && !Executes(w, e) && !RunsQueue(w, e)
    ensures var w' := Step(w, e);
      && Collects(w', c)
      && w'.clients[c].queue == w.clients[c].queue + (if e.Execute? && e.c == c then [e.command] else [])
      && (e.c == c ==> forall j :: 0 <= j < |w.stores| ==> w'.stores[j].db == w.stores[j].db)
  {
    hide DeregisterAll;
    hide RegisterAll;
    hide WithoutPatterns;
    hide Perform;
    hide PerformAll;
  }

  lemma TraceSpares<C>(w: World<C>, e: Event<C>, c: C)
    requires w.stores != [] && Collects(w, c)
    requires e.Background? || Executes(w, e) || (RunsQueue(w, e) && e.c != c)
    ensures Spares(Trace(w, e), c) && Free(Before(w, e), c)
  {
    hide CommandTrace;
    hide QueueTrace;
    if Executes(w, e) {
      CommandSpares(w, e.c, e.command, c);
    } else if RunsQueue(w, e) {
      QueueSpares(Before(w, e), e.c, w.clients[e.c].queue, c);
    }
  }

  lemma IssuedFirst<C>(run: seq<Event<C>>, c: C)
    requires run != []
    ensures Issued(run, c) == Issued([run[0]], c) + Issued(run[1..], c)
  {
    assert [run[0]][1..] == [];
  }

  lemma IssuedNothing<C>(c: C)
    ensures Issued([], c) == []
  {
  }

  lemma {:induction false} RunQueues<C>(w: World<C>, run: seq<Event<C>>, c: C)
    requires w.stores != [] && Collects(w, c)
    requires forall j :: 0 <= j < |run| ==> !Closes(run[j], c)
    ensures var w' := Run(w, run);
      Collects(w', c) && w'.clients[c].queue == w.clients[c].queue + Issued(run, c)
    decreases |run|
  {
    hide Step;
    hide Closes;
    hide Issued;
    if run == [] {
      IssuedNothing(c);
      Seqs.Empty(w.clients[c].queue);
    } else {
      var w', q := Step(w, run[0]), w.clients[c].queue;
      StepQueues(w, run[0], c);
      assert forall j :: 0 <= j < |run[1..]| ==> run[1..][j] == run[j + 1];
      RunQueues(w', run[1..], c);
      IssuedFirst(run, c);
      Seqs.Assoc(q, Issued([run[0]], c), Issued(run[1..], c));
    }
  }

  // Between MULTI and EXEC a client's commands only wait; EXEC then runs them all, in the order
  // they were sent, or, after an alert, none.
  lemma TransactionIsAllOrNothing<C>(w: World<C>, c: C, run: seq<Event<C>>)
    requires w.stores != [] && Free(w, c) && !w.clients[c].multi && w.clients[c].queue == []
    requires forall j :: 0 <= j < |run| ==> !Closes(run[j], c)
    ensures var w2 := Run(Step(w, Multi(c)), run);
      && Collects(w2, c)
      && (var clear := Update(w2, c, Cleared(w2.clients[c]));
          if w2.clients[c].dirty then Reply(w2, c) == NullArray && Step(w2, Exec(c)) == clear
          else Reply(w2, c) == Results(Issued(run, c)) && Step(w2, Exec(c)) == PerformAll(clear, c, Issued(run, c)))
  {
    hide Run;
    hide PerformAll;
    RunQueues(Step(w, Multi(c)), run, c);
    assert [] + Issued(run, c) == Issued(run, c);
  }

  // ---------- What ends a watch frees the next transaction ----------

  // No database alerts c any more, and it has not been alerted; it queues inside MULTI only.
  ghost predicate Unwatching<C>(w: World<C>, c: C) {
    && c in w.clients && !w.clients[c].dirty && (forall k :: !Watches(w, k, c))
    && (!w.clients[c].multi ==> w.clients[c].queue == [])
  }

  lemma AffectStaysUnwatching<C>(w: World<C>, f: Effect<C>, c: C)
    requires Unwatching(w, c)
    ensures Unwatching(Affect(w, f), c)
  {
    hide In;
    hide Apply;
    hide Touches;
    hide RegisterAll;
    hide DeregisterAll;
    hide WithoutPatterns;
    var w' := Affect(w, f);
    forall i | 0 <= i < |w.stores| ensures w'.stores[i].watchers == w.stores[i].watchers {
      AffectWatch(w, f, i);
    }
    forall k ensures !Watches(w', k, c) {
      assert !Watches(w, k, c);
    }
    NoWatchNoAlert(w, f, c);
    AffectDirty(w, f, c);
  }

  lemma NoWatchNoAlert<C>(w: World<C>, f: Effect<C>, c: C)
    requires forall k :: !Watches(w, k, c)
    ensures !Alert(w, f, c)
  {
    hide In;
    hide Touches;
    if f.Do? && f.index < |w.stores| {
      forall k ensures !In(w.stores[f.index].watchers, k, c) {
        assert !Watches(w, k, c);
      }
    }
  }

  lemma {:induction false} AffectAllStaysUnwatching<C>(w: World<C>, fs: seq<Effect<C>>, c: C)
    requires Unwatching(w, c)
    ensures Unwatching(AffectAll(w, fs), c)
    decreases |fs|
  {
    hide Affect;
    hide Unwatching;
    if fs != [] {
      AffectStaysUnwatching(w, fs[0], c);
      AffectAllStaysUnwatching(Affect(w, fs[0]), fs[1..], c);
    }
  }

  // c starts to watch, or leaves.
  ghost predicate Starts<C>(w: World<C>, e: Event<C>, c: C) {
    && !e.Background? && e.c == c
    && (e.Close? || (e.Watch? && c in w.clients && !w.clients[c].multi && !w.clients[c].blocked))
  }

  lemma StepStaysUnwatching<C>(w: World<C>, e: Event<C>, c: C)
    requires w.stores != [] && Unwatching(w, c) && !Starts(w, e, c)
    ensures Unwatching(Step(w, e), c)
  {
    hide Step;
    hide AffectAll;
    hide CommandTrace;
    hide QueueTrace;
    hide Unwatching;
    if e.Background? || Executes(w, e) || RunsQueue(w, e) {
      StepIsTrace(w, e);
      BeforeStaysUnwatching(w, e, c);
      AffectAllStaysUnwatching(Before(w, e), Trace(w, e), c);
    } else {
      QuietStaysUnwatching(w, e, c);
    }
  }

  lemma BeforeStaysUnwatching<C>(w: World<C>, e: Event<C>, c: C)
    requires Unwatching(w, c)
    ensures Unwatching(Before(w, e), c)
  {
    hide In;
    var w' := Before(w, e);
    forall k ensures !Watches(w', k, c) {
      assert !Watches(w, k, c);
    }
  }

  lemma QuietStaysUnwatching<C>(w: World<C>, e: Event<C>, c: C)
    requires w.stores != [] && Unwatching(w, c) && !Starts(w, e, c)
    requires !e.Background? && !Executes(w, e) && !RunsQueue(w, e)
    ensures Unwatching(Step(w, e), c)
  {
    hide In;
    hide Perform;
    hide PerformAll;
    hide RegisterAll;
    hide DeregisterAll;
    hide WithoutPatterns;
    var w' := Step(w, e);
    forall k, i | 0 <= i < |w.stores| ensures !In(w'.stores[i].watchers, k, c) {
      assert !Watches(w, k, c);
      QuietWatchers(w, e, c, k, i);
    }
    forall k ensures !Watches(w', k, c) {
    }
  }

  lemma QuietWatchers<C>(w: World<C>, e: Event<C>, c: C, k: string, i: nat)
    requires i < |w.stores| && !In(w.stores[i].watchers, k, c) && !Starts(w, e, c)
    requires !e.Background? && !Executes(w, e) && !RunsQueue(w, e)
    ensures !In(Step(w, e).stores[i].watchers, k, c)
  {
    hide In;
    hide Perform;
    hide PerformAll;
    hide RegisterAll;
    hide DeregisterAll;
    hide WithoutPatterns;
    if e.c in w.clients {
      if e.Watch? {
        InRegisterAll(w.stores[i].watchers, e.keys, e.c, k, c);
      } else {
        InDeregisterAll(w.stores[i].watchers, w.clients[e.c].watched, e.c, k, c);
      }
    }
  }

  // No event of the run makes c start to watch, in the state in which it comes.
  ghost predicate NeverStarts<C>(w: World<C>, run: seq<Event<C>>, c: C)
    requires w.stores != []
    decreases |run|
  {
    run != [] ==> !Starts(w, run[0], c) && NeverStarts(Step(w, run[0]), run[1..], c)
  }

  lemma {:induction false} RunStaysUnwatching<C>(w: World<C>, run: seq<Event<C>>, c: C)
    requires w.stores != [] && Unwatching(w, c) && NeverStarts(w, run, c)
    ensures Unwatching(Run(w, run), c)
    decreases |run|
  {
    hide Step;
    hide Starts;
    hide Unwatching;
    if run != [] {
      StepStaysUnwatching(w, run[0], c);
      RunStaysUnwatching(Step(w, run[0]), run[1..], c);
    }
  }

  // UNWATCH, and DISCARD inside MULTI: afterwards no database knows c as a watcher, and whatever
  // it had been alerted of is forgotten.
  lemma WatchesAreEnded<C>(w: World<C>, c: C, e: Event<C>)
    requires w.stores != [] && Mirrored(w, c) && c in w.clients && !w.clients[c].blocked
    requires e == Unwatch(c) || (e == Discard(c) && w.clients[c].multi)
    ensures Unwatching(Step(w, e), c) && Step(w, e).clients[c].watched == {}
    ensures e.Discard? ==> !Step(w, e).clients[c].multi
  {
    hide In;
    hide DeregisterAll;
    var w' := Step(w, e);
    forall k, i | 0 <= i < |w.stores| ensures !In(w'.stores[i].watchers, k, c) {
      InDeregisterAll(w.stores[i].watchers, w.clients[c].watched, c, k, c);
      assert Watches(w, k, c) <==> k in w.clients[c].watched;
    }
    forall k ensures !Watches(w', k, c) {
    }
  }

  // Once c has ended its watch, and as long as it starts no other, its transactions run, whatever
  // keys anybody has changed before or changes since.
  lemma UnwatchedExecRuns<C>(w: World<C>, c: C, e: Event<C>, between: seq<Event<C>>, run: seq<Event<C>>)
    requires w.stores != [] && Mirrored(w, c) && c in w.clients && !w.clients[c].blocked
    requires e == Unwatch(c) || (e == Discard(c) && w.clients[c].multi)
    requires NeverStarts(Step(w, e), between, c)
    requires var w1 := Run(Step(w, e), between); Free(w1, c) && !w1.clients[c].multi
    requires forall j :: 0 <= j < |run| ==> !Closes(run[j], c)
    ensures var w2 := Run(Step(Run(Step(w, e), between), Multi(c)), run);
      c in w2.clients && !w2.clients[c].blocked && Reply(w2, c) == Results(Issued(run, c))
  {
    hide Run;
    hide PerformAll;
    hide Issued;
    hide DoUnwatch;
    hide DoDiscard;
    hide Watches;
    WatchesAreEnded(w, c, e);
    RunStaysUnwatching(Step(w, e), between, c);
    var w1 := Run(Step(w, e), between);
    var w1' := Step(w1, Multi(c));
    StepStaysUnwatching(w1, Multi(c), c);
    CollectingStarts(w1', run, c);
    RunStaysUnwatching(w1', run, c);
    TransactionIsAllOrNothing(w1, c, run);
  }

  // Inside MULTI a WATCH is refused.
  lemma {:induction false} CollectingStarts<C>(w: World<C>, run: seq<Event<C>>, c: C)
    requires w.stores != [] && Collects(w, c)
    requires forall j :: 0 <= j < |run| ==> !Closes(run[j], c)
    ensures NeverStarts(w, run, c)
    decreases |run|
  {
    hide Step;
    if run != [] {
      StepQueues(w, run[0], c);
      assert forall j :: 0 <= j < |run[1..]| ==> run[1..][j] == run[j + 1];
      CollectingStarts(Step(w, run[0]), run[1..], c);
    }
  }

  // ---------- A transaction that stops its successor ----------

  // EXEC drops the dirty flag before the queue runs and keeps the watches, so what the queue
  // itself writes under a watched key counts against the client's next transaction.
  lemma OwnWritesAreNoted<C>(w: World<C>, c: C)
    requires w.stores != [] && RunsQueue(w, Exec(c))
    ensures var after := Step(w, Exec(c));
      c in after.clients && after.clients[c].dirty == Alerted(w, Exec(c), c)
  {
    hide AffectAll;
    hide PerformAll;
    hide QueueTrace;
    hide AlertedBy;
    StepIsTrace(w, Exec(c));
    AffectAllDirty(Before(w, Exec(c)), Trace(w, Exec(c)), c);
  }

  // So the next EXEC, if nothing happens in between, answers the null array exactly then.
  lemma OwnWritesStopNextExec<C>(w: World<C>, c: C)
    requires w.stores != [] && RunsQueue(w, Exec(c)) && !Step(w, Exec(c)).clients[c].blocked
    ensures var next := Step(Step(w, Exec(c)), Multi(c));
      c in next.clients && (Reply(next, c) == NullArray <==> Alerted(w, Exec(c), c))
  {
    hide Alerted;
    hide DoExec;
    OwnWritesAreNoted(w, c);
  }

  // Whatever else is queued, one announced change of a watched key is enough.
  lemma OwnChangeStopsNextExec<C>(w: World<C>, c: C, i: nat, k: string)
    requires i < |w.stores| && RunsQueue(w, Exec(c)) && In(w.stores[i].watchers, k, c)
    requires Altered(w, Exec(c), i, k)
    ensures var after := Step(w, Exec(c));
      && c in after.clients && after.clients[c].dirty
      && (!after.clients[c].blocked ==> c in Step(after, Multi(c)).clients && Reply(Step(after, Multi(c)), c) == NullArray)
  {
    hide In;
    hide Before;
    hide Trace;
    hide AlteredBy;
    hide AlertedBy;
    hide DoExec;
    var e: Event<C> := Exec(c);
    BeforeWatch(w, e, i);
    AffectAllAlters(Before(w, e), Trace(w, e), i, k, c);
    OwnWritesAreNoted(w, c);
  }

  // Appending to a string that exists changes it under the watch without stopping EXEC.
  lemma AppendSlipsThrough<C>(c: C, d: C)
    requires c != d
    ensures
      var s: Store<C> := Store(Db(map["k" := Str("a")], map[]), map["k" := [c]]);
      var w := World(map[c := NEW_CLIENT.(multi := true, watched := {"k"}), d := NEW_CLIENT], [s], map[], [], map[]);
      var w' := Step(w, Execute(d, OnDb(Append("k", "b"))));
      "k" in w'.stores[0].db.data && w'.stores[0].db.data["k"] == Str("ab") && Reply(w', c) == Results([])
  {
    var s: Store<C> := Store(Db(map["k" := Str("a")], map[]), map["k" := [c]]);
    var w := World(map[c := NEW_CLIENT.(multi := true, watched := {"k"}), d := NEW_CLIENT], [s], map[], [], map[]);
    AffectOne(w, Do(0, Append("k", "b")));
    assert "a" + "b" == "ab";
    assert !Touches(Db(map["k" := Str("a")], map[]), Append("k", "b"), "k");
  }
}

// What commands do, taken apart step by step: the lemmas by which handlers follow their traces.

module Steps {
  import opened Keyspace
  import opened Stores
  import opened Registries
  import opened World

  lemma DoIs<C>(w: World<C>, i: nat, op: Op)
    requires i < |w.stores|
    ensures AffectAll(w, [Do(i, op)]) == Act(w, i, op)
  {
    hide Act;
    AffectOne(w, Do(i, op));
  }

  lemma DoFirst<C>(w: World<C>, i: nat, op: Op, fs: seq<Effect<C>>)
    requires i < |w.stores|
    ensures AffectAll(w, [Do(i, op)] + fs) == AffectAll(Act(w, i, op), fs)
  {
    hide Act;
    hide AffectAll;
    AffectConcat(w, [Do(i, op)], fs);
    DoIs(w, i, op);
  }

  // One turn of a blocking pop: first the lookup, then the element or the remaining keys.
  lemma PopLooks<C>(w: World<C>, i: nat, client: C, pop: Pop, keys: seq<string>, now: int)
    requires i < |w.stores| && keys != []
    ensures var looked := Act(w, i, Expire(keys[0], now));
      var db := looked.stores[i].db;
      AffectAll(w, PopTrace(w.stores[i].db, i, client, pop, keys, now)) ==
        AffectAll(looked, if HasItems(db, keys[0]) then On(i, TakeOps(db, keys[0], pop.left))
                            else PopTrace(db, i, client, pop, keys[1..], now))
  {
    hide AffectAll;
    hide TakeOps;
    var db := CheckAndExpire(w.stores[i].db, keys[0], now);
    DoFirst(w, i, Expire(keys[0], now),
      if HasItems(db, keys[0]) then On(i, TakeOps(db, keys[0], pop.left))
      else PopTrace(db, i, client, pop, keys[1..], now));
  }

  lemma TakeActs<C>(w: World<C>, i: nat, key: string, left: bool)
    requires i < |w.stores| && HasItems(w.stores[i].db, key)
    ensures var rest := Rest(w.stores[i].db.data[key].items, left);
      var taken := Act(w, i, InPlace(key, List(rest)));
      AffectAll(w, On(i, TakeOps(w.stores[i].db, key, left))) ==
        if rest == [] then Act(taken, i, Op.Del(key)) else taken
  {
    hide AffectAll;
    hide Act;
    var rest := Rest(w.stores[i].db.data[key].items, left);
    var taken := Act(w, i, InPlace(key, List(rest)));
    if rest == [] {
      assert On<C>(i, TakeOps(w.stores[i].db, key, left)) == [Do(i, InPlace(key, List(rest)))] + [Do(i, Op.Del(key))];
      DoFirst(w, i, InPlace(key, List(rest)), [Do(i, Op.Del(key))]);
      DoIs(taken, i, Op.Del(key));
    } else {
      assert On<C>(i, TakeOps(w.stores[i].db, key, left)) == [Do(i, InPlace(key, List(rest)))];
      DoIs(w, i, InPlace(key, List(rest)));
    }
  }

  lemma BPopIs<C>(w: World<C>, client: C, pop: Pop, now: int)
    requires w.stores != [] && client in w.clients
    ensures var i := Index(w, w.clients[client].selected);
      Perform(w, client, BPop(pop, now)) == if pop.timeout < 0 then w
        else AffectAll(w, PopTrace(w.stores[i].db, i, client, pop, pop.keys, now))
  {
    hide PopTrace;
    AffectNothing(w);
  }

  lemma PopWaits<C>(w: World<C>, i: nat, client: C, pop: Pop, keys: seq<string>, now: int)
    requires i < |w.stores| && keys == [] && client in w.clients
    ensures AffectAll(w, PopTrace(w.stores[i].db, i, client, pop, keys, now)) == DoWait(w, client, pop, now)
  {
    AffectOne(w, Wait(client, pop, now));
  }

  lemma NobodyToServe<C>(w: World<C>, key: string, now: int)
    requires w.stores != []
    ensures key !in w.waiting || w.waiting[key] == [] ==> AffectAll(w, ServeTrace(w, key, now)) == w
  {
  }

  lemma ServeIs<C>(w: World<C>, client: C, key: string, now: int)
    requires w.stores != [] && key in w.waiting && w.waiting[key] != [] && w.waiting[key][0] == client
    requires client in w.clients
    ensures var s := w.clients[client];
      var i := Index(w, s.selected);
      var woken := DoWake(w, client);
      AffectAll(w, ServeTrace(w, key, now)) ==
        if s.blockCmd.None? then woken
        else if s.multi then Update(woken, client, woken.clients[client].(
          queue := woken.clients[client].queue + [BPop(s.blockCmd.value, now)]))
        else AffectAll(woken, PopTrace(woken.stores[i].db, i, client, s.blockCmd.value, s.blockCmd.value.keys, now))
  {
    hide AffectAll;
    hide PopTrace;
    hide DeregisterAll;
    var s := w.clients[client];
    var i := Index(w, s.selected);
    var woken := DoWake(w, client);
    AffectOne(w, Wake(client));
    if s.blockCmd.None? {
      assert ServeTrace(w, key, now) == [Wake(client)];
    } else {
      var more := if s.multi then [Enqueue(client, BPop(s.blockCmd.value, now))]
        else PopTrace(w.stores[i].db, i, client, s.blockCmd.value, s.blockCmd.value.keys, now);
      AffectConcat(w, [Wake(client)], more);
      if s.multi {
        AffectOne(woken, Enqueue(client, BPop(s.blockCmd.value, now)));
      }
    }
  }

  // A push: the lookup, the list if it has to be made, the elements, and the clients that wait.
  lemma PushActs<C>(w: World<C>, i: nat, key: string, values: seq<string>, left: bool, now: int)
    requires i < |w.stores|
    ensures var looked := Act(w, i, Expire(key, now));
      var db := looked.stores[i].db;
      var free := key !in db.data;
      AffectAll(w, PushTrace(w, i, key, values, left, now)) ==
        if !free && !db.data[key].List? then looked
        else
          var made := if free then Act(looked, i, Assign(key, List([]))) else looked;
          var items := if free then [] else db.data[key].items;
          var pushed := Act(made, i, InPlace(key, List(Pushed(items, values, left))));
          if values == [] then pushed else AffectAll(pushed, ServeTrace(pushed, key, now))
  {
    hide AffectAll;
    hide ServeTrace;
    hide Pushed;
    var looked := Act(w, i, Expire(key, now));
    var db := looked.stores[i].db;
    assert db == CheckAndExpire(w.stores[i].db, key, now);
    var ops := PushOps(w.stores[i].db, key, values, left, now);
    var effects: seq<Effect<C>> := On(i, ops);
    PushEffects(w, i, ops);
    if |ops| > 1 && values != [] {
      AffectConcat(w, effects, ServeTrace(AffectAll(w, effects), key, now));
    } else {
      assert effects + [] == effects;
    }
  }

  // items with the values in front, the last one first.
  ghost predicate Stacked(all: seq<string>, values: seq<string>, items: seq<string>) {
    && |all| == |values| + |items| && all[|values|..] == items
    && forall j :: 0 <= j < |values| ==> all[j] == values[|values| - 1 - j]
  }

  // Pushed at the right end, the values follow in order; at the left end the last one is first.
  lemma {:induction false} PushedIs(items: seq<string>, values: seq<string>, left: bool)
    ensures left ==> Stacked(Pushed(items, values, left), values, items)
    ensures !left ==> Pushed(items, values, left) == items + values
    decreases |values|
  {
    if values != [] {
      var v, rest := values[0], values[1..];
      if left {
        var all := Pushed(items, values, true);
        PushedIs([v] + items, rest, true);
        assert all[|values|..] == all[|rest|..][1..];
        assert all[|rest|] == all[|rest|..][0] == v;
      } else {
        PushedIs(items + [v], rest, false);
        assert [v] + rest == values;
      }
    }
  }

  lemma PushEffects<C>(w: World<C>, i: nat, ops: seq<Op>)
    requires i < |w.stores| && 1 <= |ops| <= 3
    ensures var a := Act(w, i, ops[0]);
      AffectAll(w, On(i, ops)) ==
        if |ops| == 1 then a
        else if |ops| == 2 then Act(a, i, ops[1])
        else Act(Act(a, i, ops[1]), i, ops[2])
  {
    hide AffectAll;
    hide Act;
    var fs: seq<Effect<C>> := On(i, ops);
    var a := Act(w, i, ops[0]);
    assert fs == [fs[0]] + fs[1..];
    DoFirst(w, i, ops[0], fs[1..]);
    if |ops| == 1 {
      assert fs[1..] == [];
      AffectNothing(a);
    } else {
      assert fs[1..] == [fs[1]] + fs[2..];
      DoFirst(a, i, ops[1], fs[2..]);
      if |ops| == 2 {
        assert fs[2..] == [];
        AffectNothing(Act(a, i, ops[1]));
      } else {
        assert fs[2..] == [fs[2]];
        DoIs(Act(a, i, ops[1]), i, ops[2]);
      }
    }
  }

  lemma PushTwice<C>(w: World<C>, client: C, key: string, values: seq<string>, now: int)
    requires w.stores != [] && client in w.clients
    ensures var i := Index(w, w.clients[client].selected);
      var once := AffectAll(w, PushTrace(w, i, key, values, false, now));
      && Index(once, once.clients[client].selected) == i
      && Perform(w, client, Push(key, values, false, now)) ==
           AffectAll(once, PushTrace(once, i, key, values, false, now))
  {
    hide AffectAll;
    hide PushTrace;
    var i := Index(w, w.clients[client].selected);
    var t := PushTrace(w, i, key, values, false, now);
    AffectConcat(w, t, PushTrace(AffectAll(w, t), i, key, values, false, now));
    PushKeepsSelection(w, i, key, values, now);
    SelectionKept(w, t, client);
  }

  // Effects that leave every client's selected database as it is.
  predicate NoChoice<C>(fs: seq<Effect<C>>) {
    forall j :: 0 <= j < |fs| ==> !fs[j].Choose?
  }

  lemma {:induction false} SelectionKept<C>(w: World<C>, fs: seq<Effect<C>>, client: C)
    requires client in w.clients && NoChoice(fs)
    ensures AffectAll(w, fs).clients[client].selected == w.clients[client].selected
    decreases |fs|
  {
    hide Affect;
    if fs != [] {
      assert forall j :: 0 <= j < |fs[1..]| ==> fs[1..][j] == fs[j + 1];
      SelectionKeptByOne(w, fs[0], client);
      SelectionKept(Affect(w, fs[0]), fs[1..], client);
    }
  }

  lemma SelectionKeptByOne<C>(w: World<C>, f: Effect<C>, client: C)
    requires client in w.clients && !f.Choose?
    ensures Affect(w, f).clients[client].selected == w.clients[client].selected
  {
    hide Apply;
    hide Hit;
    hide RegisterAll;
    hide DeregisterAll;
    hide WithoutPatterns;
  }

  lemma {:induction false} PopKeepsSelection<C>(db: Db, i: nat, client: C, pop: Pop, keys: seq<string>, now: int)
    ensures NoChoice(PopTrace(db, i, client, pop, keys, now))
    decreases |keys|
  {
    hide CheckAndExpire;
    if keys != [] {
      PopKeepsSelection(CheckAndExpire(db, keys[0], now), i, client, pop, keys[1..], now);
    }
  }

  lemma PushKeepsSelection<C>(w: World<C>, i: nat, key: string, values: seq<string>, now: int)
    requires i < |w.stores|
    ensures NoChoice(PushTrace(w, i, key, values, false, now))
  {
    hide AffectAll;
    hide PopTrace;
    hide PushOps;
    var pushed: seq<Effect<C>> := On(i, PushOps(w.stores[i].db, key, values, false, now));
    var w' := AffectAll(w, pushed);
    if key in w'.waiting && w'.waiting[key] != [] && w'.waiting[key][0] in w'.clients {
      var d := w'.waiting[key][0];
      var s := w'.clients[d];
      if s.blockCmd.Some? {
        PopKeepsSelection(w'.stores[Index(w', s.selected)].db, Index(w', s.selected), d, s.blockCmd.value,
          s.blockCmd.value.keys, now);
      }
    }
  }
}

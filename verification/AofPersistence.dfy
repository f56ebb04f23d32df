// Rewriting and loading the append-only file as the program does it: argument vectors built in
// loops, and handlers that change the selected database.

module AofPersistence {
  import opened Wrappers
  import opened Keyspace
  import opened Maps
  import opened Numbers
  import Resp
  import RespParser
  import opened Rdb
  import RdbPersistence
  import opened Aof
  import Seqs

  // ---------- Rewriting ----------

  lemma {:induction false} FileConcat(a: seq<Command>, b: seq<Command>)
    ensures FileOf(a + b) == FileOf(a) + FileOf(b)
    decreases |a|
  {
    if a == [] {
      Seqs.Empty(b);
      Seqs.Empty(FileOf(b));
    } else {
      assert Values(a + b)[1..] == Values(a[1..] + b) && Values(a)[1..] == Values(a[1..]);
      assert (a + b)[1..] == a[1..] + b;
      FileConcat(a[1..], b);
      Seqs.Assoc(Resp.Serialize(Values(a)[0]), FileOf(a[1..]), FileOf(b));
    }
  }

  lemma FileOfOne(c: Command)
    ensures FileOf([c]) == Resp.Serialize(Resp.Array(RespParser.Bulks(c)))
  {
    var vs := Values([c]);
    assert vs[1..] == [] && Resp.SerializeAll([]) == "";
    Seqs.Empty(Resp.Serialize(vs[0]));
  }

  lemma {:induction false} FieldArgsOneMore(fields: seq<(string, string)>, f: (string, string))
    ensures FieldArgs(fields + [f]) == FieldArgs(fields) + [f.0, f.1]
    decreases |fields|
  {
    if fields == [] {
      assert [f][1..] == [];
      Seqs.Empty([f.0, f.1]);
    } else {
      assert (fields + [f])[1..] == fields[1..] + [f];
      FieldArgsOneMore(fields[1..], f);
      Seqs.Assoc([fields[0].0, fields[0].1], FieldArgs(fields[1..]), [f.0, f.1]);
    }
  }

  lemma {:induction false} ScoreArgsOneMore(scores: seq<(string, Word)>, s: (string, Word), show: Word -> string)
    ensures ScoreArgs(scores + [s], show) == ScoreArgs(scores, show) + [show(s.1), s.0]
    decreases |scores|
  {
    if scores == [] {
      assert [s][1..] == [];
      Seqs.Empty([show(s.1), s.0]);
    } else {
      assert (scores + [s])[1..] == scores[1..] + [s];
      ScoreArgsOneMore(scores[1..], s, show);
      Seqs.Assoc([show(scores[0].1), scores[0].0], ScoreArgs(scores[1..], show), [show(s.1), s.0]);
    }
  }

  method HashArgs(key: string, table: map<string, string>) returns (args: Command, ghost fields: seq<(string, string)>)
    ensures Enumerates(fields, table) && args == ["HSET", key] + FieldArgs(fields)
  {
    var pairs := RdbPersistence.Pairs(table);
    args := ["HSET", key];
    for j := 0 to |pairs|
      invariant args == ["HSET", key] + FieldArgs(pairs[..j])
    {
      FieldArgsOneMore(pairs[..j], pairs[j]);
      assert pairs[..j + 1] == pairs[..j] + [pairs[j]];
      args := args + [pairs[j].0];
      args := args + [pairs[j].1];
    }
    assert pairs[..|pairs|] == pairs;
    fields := pairs;
  }

  method ScoresArgs(key: string, table: map<string, Word>, show: Word -> string)
    returns (args: Command, ghost scores: seq<(string, Word)>)
    ensures Enumerates(scores, table) && args == ["ZADD", key] + ScoreArgs(scores, show)
  {
    var pairs := RdbPersistence.Pairs(table);
    args := ["ZADD", key];
    for j := 0 to |pairs|
      invariant args == ["ZADD", key] + ScoreArgs(pairs[..j], show)
    {
      ScoreArgsOneMore(pairs[..j], pairs[j], show);
      assert pairs[..j + 1] == pairs[..j] + [pairs[j]];
      args := args + [show(pairs[j].1)];
      args := args + [pairs[j].0];
    }
    assert pairs[..|pairs|] == pairs;
    scores := pairs;
  }

  // The switch over the object's type.
  method ValueArgs(key: string, value: Value, show: Word -> string) returns (args: Command, ghost l: Listing)
    ensures Spells(l, value) && args == ValueCommand(key, l, show)
  {
    match value {
      case Str(text) =>
        args, l := ["SET", key, text], Text(text);
      case List(items) =>
        args := ["RPUSH", key];
        for j := 0 to |items|
          invariant args == ["RPUSH", key] + items[..j]
        {
          args := args + [items[j]];
        }
        assert items[..|items|] == items;
        l := Items(items);
      case Hash(table) =>
        ghost var fields;
        args, fields := HashArgs(key, table);
        l := Fields(fields);
      case Set(elements) =>
        var members := RdbPersistence.Elements(elements);
        args := ["SADD", key];
        for j := 0 to |members|
          invariant args == ["SADD", key] + members[..j]
        {
          args := args + [members[j]];
        }
        assert members[..|members|] == members;
        l := Members(members);
      case ZSet(table) =>
        ghost var scores;
        args, scores := ScoresArgs(key, table, show);
        l := Scores(scores);
    }
  }

  method RewriteRecord(db: Db, key: string, now: int, show: Word -> string) returns (out: string, ghost r: Record)
    requires key in db.data && !Expired(db, key, now) && now >= 0
    requires key in db.expires ==> db.expires[key] < HALF64
    ensures r.key == key && RecordOf(r, Live(db, now)) && out == FileOf(RecordCommands(r, show))
  {
    hide Spells;
    hide FileOf;
    hide ValueCommand;
    hide Decimal;
    var args; ghost var l;
    args, l := ValueArgs(key, db.data[key], show);
    out := RespParser.BulkStringArray(args);
    FileOfOne(args);
    ghost var expireMs: Option<Word> := None;
    var pttl := Pttl(db, key, now);
    if pttl >= 0 {
      expireMs := Some(now + pttl);
      var expiry := ["PEXPIREAT", key, Decimal(now + pttl)];
      var more := RespParser.BulkStringArray(expiry);
      FileOfOne(expiry);
      FileConcat([args], [expiry]);
      out := out + more;
    } else {
      Seqs.Empty([args]);
    }
    r := Record(key, l, expireMs);
  }

  lemma {:induction false} RecordsScriptOneMore(records: seq<Record>, r: Record, show: Word -> string)
    ensures RecordsScript(records + [r], show) == RecordsScript(records, show) + RecordCommands(r, show)
    decreases |records|
  {
    hide RecordCommands;
    if records == [] {
      assert [r][1..] == [];
      assert RecordsScript([r], show) == RecordCommands(r, show) + RecordsScript([], show);
      Seqs.Empty(RecordCommands(r, show));
    } else {
      assert (records + [r])[1..] == records[1..] + [r];
      RecordsScriptOneMore(records[1..], r, show);
      Seqs.Assoc(RecordCommands(records[0], show), RecordsScript(records[1..], show), RecordCommands(r, show));
    }
  }

  lemma {:induction false} ScriptOneMore(sections: seq<Section>, s: Section, show: Word -> string)
    ensures Script(sections + [s], show) == Script(sections, show) + SectionScript(s, show)
    decreases |sections|
  {
    hide SectionScript;
    if sections == [] {
      assert [s][1..] == [];
      assert Script([s], show) == SectionScript(s, show) + Script([], show);
      Seqs.Empty(SectionScript(s, show));
    } else {
      assert (sections + [s])[1..] == sections[1..] + [s];
      ScriptOneMore(sections[1..], s, show);
      Seqs.Assoc(SectionScript(sections[0], show), Script(sections[1..], show), SectionScript(s, show));
    }
  }

  method RewriteDatabase(i: nat, db: Db, now: int, show: Word -> string) returns (out: string, ghost s: Section)
    requires now >= 0 && Timed(db)
    ensures SectionOf(s, i, db, now) && out == FileOf(SectionScript(s, show))
  {
    hide RecordOf;
    hide FileOf;
    hide RecordCommands;
    hide Decimal;
    var select := ["SELECT", Decimal(i)];
    out := RespParser.BulkStringArray(select);
    FileOfOne(select);
    var keys := RdbPersistence.LiveKeys(db, now);
    ghost var records: seq<Record> := [];
    Seqs.Empty([select]);
    for j := 0 to |keys|
      invariant out == FileOf([select] + RecordsScript(records, show))
      invariant |records| == j && forall l :: 0 <= l < j ==>
        records[l].key == keys[l] && RecordOf(records[l], Live(db, now))
    {
      assert keys[j] in Live(db, now).data;
      var more; ghost var r;
      more, r := RewriteRecord(db, keys[j], now, show);
      RecordsScriptOneMore(records, r, show);
      Seqs.Assoc([select], RecordsScript(records, show), RecordCommands(r, show));
      FileConcat([select] + RecordsScript(records, show), RecordCommands(r, show));
      records := records + [r];
      out := out + more;
    }
    s := Section(i, |db.data|, |db.expires|, records);
    assert Keys(records) == keys;
  }

  method RewriteAof(dbs: seq<Db>, now: int, show: Word -> string) returns (out: string, ghost sections: seq<Section>)
    requires now >= 0 && forall i :: 0 <= i < |dbs| ==> Timed(dbs[i])
    ensures Snapshot(sections, dbs, 0, now) && out == FileOf(Script(sections, show))
  {
    hide FileOf;
    hide SectionScript;
    hide SectionOf;
    out, sections := "", [];
    assert FileOf([]) == "" by { EmptyFile(); }
    forall more | Snapshot(more, dbs, 0, now) ensures Snapshot(sections + more, dbs, 0, now) {
      Seqs.Empty(more);
    }
    for i := 0 to |dbs|
      invariant out == FileOf(Script(sections, show))
      invariant forall more :: Snapshot(more, dbs, i, now) ==> Snapshot(sections + more, dbs, 0, now)
    {
      if |dbs[i].data| == 0 {
        continue;
      }
      var text; ghost var s;
      text, s := RewriteDatabase(i, dbs[i], now, show);
      ScriptOneMore(sections, s, show);
      FileConcat(Script(sections, show), SectionScript(s, show));
      forall more | Snapshot(more, dbs, i + 1, now) ensures Snapshot(sections + [s] + more, dbs, 0, now) {
        Seqs.Assoc(sections, [s], more);
        assert ([s] + more)[1..] == more;
        assert Snapshot([s] + more, dbs, i, now);
      }
      sections := sections + [s];
      out := out + text;
    }
    assert Snapshot([], dbs, |dbs|, now);
    Seqs.Empty(sections);
  }

  lemma EmptyFile()
    ensures FileOf([]) == ""
  {
  }

  // ---------- Loading ----------

  class Replayer {
    var dbs: seq<Db>
    var selected: nat

    ghost function Now(): State
      reads this
    {
      State(dbs, selected)
    }

    constructor (count: nat)
      ensures Now() == State(Flushed(count), 0)
    {
      dbs, selected := Flushed(count), 0;
    }

    // getObjectForWrite, storing an empty value where there is none.
    method ObjectForWrite(key: string, now: int, empty: Value) returns (value: Value)
      requires selected < |dbs|
      modifies this`dbs
      ensures dbs == old(dbs)[selected := ForWrite(old(dbs)[selected], key, now, empty)]
      ensures value == ForWrite(old(dbs)[selected], key, now, empty).data[key]
    {
      var db := CheckAndExpire(dbs[selected], key, now);
      if key !in db.data {
        db := SetObject(db, key, empty);
      }
      dbs := dbs[selected := db];
      value := db.data[key];
    }

    method Replace(key: string, value: Value)
      requires selected < |dbs|
      modifies this`dbs
      ensures dbs == old(dbs)[selected := InPlace(old(dbs)[selected], key, value)]
    {
      dbs := dbs[selected := InPlace(dbs[selected], key, value)];
    }

    method SetCommand(key: string, text: string, args: seq<string>, now: int)
      requires selected < |dbs|
      modifies this`dbs
      ensures dbs == old(dbs)[selected := SetString(old(dbs)[selected], key, text, args, now)]
    {
      var nx, xx, expiryMs := false, false, -1;
      var i := 0;
      assert dbs[selected := dbs[selected]] == dbs;
      while i < |args|
        invariant 0 <= i <= |args| && dbs == old(dbs)
        invariant ReadFlags(args[i..], SetFlags(nx, xx, expiryMs)) == ReadFlags(args, SetFlags(false, false, -1))
      {
        var flag := Upper(args[i]);
        assert args[i..][1..] == args[i + 1..];
        if flag == "NX" {
          nx := true;
        } else if flag == "XX" {
          xx := true;
        } else if (flag == "EX" || flag == "PX") && i + 1 < |args| {
          assert args[i..][2..] == args[i + 2..];
          i := i + 1;
          var n := Stoll(args[i]);
          if n.None? {
            return;
          }
          expiryMs := if flag == "EX" then n.value * 1000 else n.value;
          if expiryMs <= 0 {
            return;
          }
        }
        i := i + 1;
      }
      var db := dbs[selected];
      if nx || xx {
        db := CheckAndExpire(db, key, now);
        dbs := dbs[selected := db];
      }
      if (nx && key in db.data) || (xx && key !in db.data) {
        return;
      }
      db := SetObject(db, key, Str(text));
      if expiryMs > 0 {
        db := SetExpiryAt(db, key, now + expiryMs);
      }
      dbs := dbs[selected := db];
    }

    method PushGeneric(key: string, values: seq<string>, now: int)
      requires selected < |dbs|
      modifies this`dbs
      ensures dbs == old(dbs)[selected := Push(old(dbs)[selected], key, values, now)]
    {
      var obj := ObjectForWrite(key, now, List([]));
      if !obj.List? {
        return;
      }
      var list := obj.items;
      for i := 0 to |values|
        invariant list == obj.items + values[..i]
      {
        list := list + [values[i]];
      }
      assert values[..|values|] == values;
      Replace(key, List(list));
    }

    method HSetCommand(key: string, args: seq<string>, now: int)
      requires selected < |dbs|
      modifies this`dbs
      ensures dbs == old(dbs)[selected := HSet(old(dbs)[selected], key, args, now)]
    {
      if |args| % 2 != 0 {
        return;
      }
      var obj := ObjectForWrite(key, now, Hash(map[]));
      if !obj.Hash? {
        return;
      }
      var hash := obj.fields;
      var i := 0;
      while i < |args|
        invariant 0 <= i <= |args| && i % 2 == 0
        invariant AddFields(hash, args[i..]) == AddFields(obj.fields, args)
      {
        assert args[i..][2..] == args[i + 2..];
        hash := hash[args[i] := args[i + 1]];
        i := i + 2;
      }
      Replace(key, Hash(hash));
    }

    method SAddCommand(key: string, members: seq<string>, now: int)
      requires selected < |dbs|
      modifies this`dbs
      ensures dbs == old(dbs)[selected := SAdd(old(dbs)[selected], key, members, now)]
    {
      var obj := ObjectForWrite(key, now, Set({}));
      if !obj.Set? {
        return;
      }
      var elements := obj.members;
      for i := 0 to |members|
        invariant elements == obj.members + set x | x in members[..i]
      {
        elements := elements + {members[i]};
      }
      assert members[..|members|] == members;
      Replace(key, Set(elements));
    }

    method ZAddCommand(key: string, args: seq<string>, now: int, scan: string -> Option<Word>)
      requires selected < |dbs|
      modifies this`dbs
      ensures dbs == old(dbs)[selected := ZAdd(old(dbs)[selected], key, args, now, scan)]
    {
      if |args| % 2 != 0 {
        return;
      }
      var obj := ObjectForWrite(key, now, ZSet(map[]));
      if !obj.ZSet? {
        return;
      }
      var zset: map<string, Word> := obj.scores;
      var i, readable := 0, true;
      while i < |args| && readable
        invariant 0 <= i <= |args| && i % 2 == 0
        invariant AddScores(obj.scores, args, scan) == if readable then AddScores(zset, args[i..], scan) else zset
        decreases |args| - i, readable
      {
        assert args[i..][2..] == args[i + 2..];
        var score := scan(args[i]);
        if score.None? {
          readable := false;
        } else {
          zset := zset[args[i + 1] := score.value];
          i := i + 2;
        }
      }
      Replace(key, ZSet(zset));
    }

    method PExpireAtCommand(key: string, at: string)
      requires selected < |dbs|
      modifies this`dbs
      ensures dbs == old(dbs)[selected := PExpireAt(old(dbs)[selected], key, at)]
    {
      var timestamp := Stoll(at);
      if timestamp.Some? {
        dbs := dbs[selected := SetExpiryAt(dbs[selected], key, timestamp.value)];
      }
    }

    method SelectCommand(index: string)
      modifies this`selected
      ensures Now() == Select(old(Now()), index)
    {
      var n := Stoll(index);
      if n.None? || n.value < 0 || n.value >= |dbs| {
        return;
      }
      selected := n.value;
    }

    // A command's handler; known is false for commands outside this model.
    method Handle(c: Command, now: int, scan: string -> Option<Word>) returns (known: bool)
      modifies this
      ensures RunCommand(old(Now()), c, now, scan) == if known then Some(Now()) else None
    {
      hide Push;
      hide HSet;
      hide SAdd;
      hide ZAdd;
      hide PExpireAt;
      hide SetString;
      known := |c| >= 2;
      if |c| >= 2 && c[0] == "SELECT" {
        SelectCommand(c[1]);
      } else if selected >= |dbs| || |c| < 2 {
        known := false;
      } else if c[0] == "SET" && |c| >= 3 {
        SetCommand(c[1], c[2], c[3..], now);
      } else if c[0] == "RPUSH" {
        ghost var once := Push(dbs[selected], c[1], c[2..], now);
        PushGeneric(c[1], c[2..], now);
        PushGeneric(c[1], c[2..], now);
        assert dbs == old(dbs)[selected := Push(once, c[1], c[2..], now)];
      } else if c[0] == "HSET" {
        HSetCommand(c[1], c[2..], now);
      } else if c[0] == "SADD" {
        SAddCommand(c[1], c[2..], now);
      } else if c[0] == "ZADD" {
        ZAddCommand(c[1], c[2..], now, scan);
      } else if c[0] == "PEXPIREAT" && |c| >= 3 {
        PExpireAtCommand(c[1], c[2]);
      } else {
        known := false;
      }
    }

    // What the loader does with one command: one that is not in the table is skipped.
    method Dispatch(c: Command, now: int, scan: string -> Option<Word>) returns (known: bool)
      requires c != []
      modifies this
      ensures Execute(old(Now()), c, now, scan) == if known then Some(Now()) else None
    {
      hide RunCommand;
      hide Registered;
      var name := Upper(c[0]);
      if !Registered(name) {
        return true;
      }
      known := Handle([name] + c[1..], now, scan);
    }

    method LoadFromFile(contents: string, clock: nat -> int, scan: string -> Option<Word>) returns (known: bool)
      requires selected == 0 && dbs == Flushed(|dbs|)
      modifies this
      ensures Aof.Load(old(|dbs|), contents, clock, scan) == if known then Some(Now()) else None
    {
      hide Execute;
      var commands, consumed := RespParser.Parse(contents);
      assert commands == Resp.ParseAll(contents).commands;
      known := true;
      for i := 0 to |commands|
        invariant known
        invariant Replay(Now(), commands[i..], clock, scan) == Aof.Load(old(|dbs|), contents, clock, scan)
      {
        var cmd := commands[i];
        assert commands[i..][1..] == commands[i + 1..];
        if !cmd.Array? || cmd.elements == [] {
          continue;
        }
        if !All(cmd.elements, IsBulk) {
          return false;
        }
        known := Dispatch(Texts(cmd.elements), clock(|commands| - i), scan);
        if !known {
          return;
        }
      }
    }
  }
}

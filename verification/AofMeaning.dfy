// What loading a rewritten append-only file gives back: the echo of every live value, for every
// iteration order and every clock, and exactly when that is the value itself.

module AofMeaning {
  import opened Wrappers
  import opened Keyspace
  import opened Maps
  import opened Numbers
  import Resp
  import RespParser
  import opened Rdb
  import Seqs
  import opened Aof

  // ---------- What the run makes of a value ----------

  ghost predicate Readable(f: Floats) {
    forall w :: f.scan(f.show(w)).Some?
  }

  function Rescan(w: Word, f: Floats): Word {
    match f.scan(f.show(w))
    case None => w
    case Some(v) => v
  }

  function EchoScores(scores: seq<(string, Word)>, f: Floats): (r: seq<(string, Word)>)
    ensures |r| == |scores|
    ensures forall j :: 0 <= j < |r| ==> r[j] == (scores[j].0, Rescan(scores[j].1, f))
    decreases |scores|
  {
    if scores == [] then [] else [(scores[0].0, Rescan(scores[0].1, f))] + EchoScores(scores[1..], f)
  }

  function EchoListing(l: Listing, f: Floats): Listing {
    match l
    case Items(items) => Items(items + items)
    case Scores(scores) => Scores(EchoScores(scores, f))
    case _ => l
  }

  // Lists come back twice as long, scores as their text says, everything else as it was.
  function EchoValue(v: Value, f: Floats): Value {
    match v
    case List(items) => List(items + items)
    case ZSet(scores) => ZSet(map k | k in scores :: Rescan(scores[k], f))
    case _ => v
  }

  function Echo(db: Db, f: Floats): Db {
    Db(map k | k in db.data :: EchoValue(db.data[k], f), db.expires)
  }

  lemma EchoSpells(l: Listing, v: Value, f: Floats)
    requires Spells(l, v)
    ensures Spells(EchoListing(l, f), EchoValue(v, f))
  {
    if v.ZSet? {
      hide Enumerates;
      EchoEnumerates(l.scores, v.scores, f);
    }
  }

  lemma EchoEnumerates(scores: seq<(string, Word)>, m: map<string, Word>, f: Floats)
    requires Enumerates(scores, m)
    ensures Enumerates(EchoScores(scores, f), map k | k in m :: Rescan(m[k], f))
  {
    var echoed := EchoScores(scores, f);
    var n := map k | k in m :: Rescan(m[k], f);
    forall k | k in n ensures (k, n[k]) in echoed {
      assert (k, m[k]) in scores;
      var j :| 0 <= j < |scores| && scores[j] == (k, m[k]);
      assert echoed[j] == (k, n[k]);
    }
  }

  lemma {:induction false} AddFieldsCollects(before: seq<(string, string)>, fields: seq<(string, string)>)
    ensures AddFields(Collect(before), FieldArgs(fields)) == Collect(before + fields)
    decreases |fields|
  {
    if fields == [] {
      Seqs.Empty(before);
    } else {
      var args := FieldArgs(fields);
      CollectOneMore(before, fields[0]);
      assert args[2..] == FieldArgs(fields[1..]);
      AddFieldsCollects(before + [fields[0]], fields[1..]);
      Seqs.HeadAndTail(fields);
      Seqs.Assoc(before, [fields[0]], fields[1..]);
    }
  }

  lemma {:induction false} AddScoresCollects(before: seq<(string, Word)>, scores: seq<(string, Word)>, f: Floats)
    requires Readable(f)
    ensures AddScores(Collect(before), ScoreArgs(scores, f.show), f.scan) == Collect(before + EchoScores(scores, f))
    decreases |scores|
  {
    if scores == [] {
      Seqs.Empty(before);
    } else {
      var args, echoed := ScoreArgs(scores, f.show), EchoScores(scores, f);
      CollectOneMore(before, echoed[0]);
      assert args[2..] == ScoreArgs(scores[1..], f.show);
      assert echoed[1..] == EchoScores(scores[1..], f);
      AddScoresCollects(before + [echoed[0]], scores[1..], f);
      Seqs.HeadAndTail(echoed);
      Seqs.Assoc(before, [echoed[0]], echoed[1..]);
    }
  }

  // ---------- Running the script of a record ----------

  // The command of a value whose key is new to the database stores the echo of the value.
  lemma ValueCommandRuns(db: Db, key: string, l: Listing, now: int, f: Floats)
    requires key !in db.data && key !in db.expires && Readable(f)
    ensures OnDb(db, ValueCommand(key, l, f.show), now, f.scan) == Some(SetObject(db, key, Content(EchoListing(l, f))))
  {
    hide Collect;
    hide FieldArgs;
    hide ScoreArgs;
    hide Push;
    hide HSet;
    hide SAdd;
    hide ZAdd;
    hide SetObject;
    var c := ValueCommand(key, l, f.show);
    match l
    case Text(text) =>
    case Items(items) =>
      assert c[2..] == items;
      PushTwice(db, key, items, now);
    case Fields(fields) =>
      assert c[2..] == FieldArgs(fields);
      HSetRuns(db, key, fields, now);
    case Members(members) =>
      assert c[2..] == members;
      SAddRuns(db, key, members, now);
    case Scores(scores) =>
      assert c[2..] == ScoreArgs(scores, f.show);
      ZAddRuns(db, key, scores, now, f);
  }

  lemma PushTwice(db: Db, key: string, items: seq<string>, now: int)
    requires key !in db.data && key !in db.expires
    ensures Push(Push(db, key, items, now), key, items, now) == SetObject(db, key, List(items + items))
  {
    assert [] + items == items;
  }

  lemma HSetRuns(db: Db, key: string, fields: seq<(string, string)>, now: int)
    requires key !in db.data && key !in db.expires
    ensures HSet(db, key, FieldArgs(fields), now) == SetObject(db, key, Hash(Collect(fields)))
  {
    hide Collect;
    hide AddFields;
    FieldsFromNothing(fields);
  }

  lemma SAddRuns(db: Db, key: string, members: seq<string>, now: int)
    requires key !in db.data && key !in db.expires
    ensures SAdd(db, key, members, now) == SetObject(db, key, Set(set x | x in members))
  {
    assert {} + (set x | x in members) == set x | x in members;
  }

  lemma ZAddRuns(db: Db, key: string, scores: seq<(string, Word)>, now: int, f: Floats)
    requires key !in db.data && key !in db.expires && Readable(f)
    ensures ZAdd(db, key, ScoreArgs(scores, f.show), now, f.scan)
         == SetObject(db, key, ZSet(Collect(EchoScores(scores, f))))
  {
    hide Collect;
    hide AddScores;
    ScoresFromNothing(scores, f);
  }

  lemma FieldsFromNothing(fields: seq<(string, string)>)
    ensures AddFields(map[], FieldArgs(fields)) == Collect(fields)
  {
    AddFieldsCollects([], fields);
    Seqs.Empty(fields);
  }

  lemma ScoresFromNothing(scores: seq<(string, Word)>, f: Floats)
    requires Readable(f)
    ensures AddScores(map[], ScoreArgs(scores, f.show), f.scan) == Collect(EchoScores(scores, f))
  {
    AddScoresCollects([], scores, f);
    Seqs.Empty(EchoScores(scores, f));
  }

  function EchoRecord(r: Record, f: Floats): Record {
    r.(listing := EchoListing(r.listing, f))
  }

  function EchoRecords(records: seq<Record>, f: Floats): (r: seq<Record>)
    ensures |r| == |records|
    ensures forall j :: 0 <= j < |r| ==> r[j] == EchoRecord(records[j], f)
    decreases |records|
  {
    if records == [] then [] else [EchoRecord(records[0], f)] + EchoRecords(records[1..], f)
  }

  // The script's first command runs at this time, the others after it.
  ghost predicate RunsAt(st: State, c: Command, rest: seq<Command>, clock: nat -> int, f: Floats, now: int) {
    Replay(st, Values([c] + rest), clock, f.scan) ==
      match RunCommand(st, c, now, f.scan)
      case None => None
      case Some(st') => Replay(st', Values(rest), clock, f.scan)
  }

  lemma StepCommand(st: State, c: Command, rest: seq<Command>, clock: nat -> int, f: Floats)
    requires c != [] && InScripts(c[0])
    ensures exists now :: RunsAt(st, c, rest, clock, f, now)
  {
    hide Execute;
    hide RunCommand;
    var vs := Values([c] + rest);
    var bulks := RespParser.Bulks(c);
    assert vs[0] == Resp.Array(bulks) && vs[1..] == Values(rest);
    assert All(bulks, IsBulk) && Texts(bulks) == c;
    assert ReplayOne(st, vs[0], clock(|vs|), f.scan) == Execute(st, c, clock(|vs|), f.scan);
    ScriptsAreKnown(st, c, clock(|vs|), f.scan);
    assert RunsAt(st, c, rest, clock, f, clock(|vs|));
  }

  predicate Timely(expireMs: Option<Word>) {
    expireMs.Some? ==> expireMs.value < HALF64
  }

  // The commands of a record, run on a database that does not have its key.
  lemma RecordRuns(st: State, r: Record, rest: seq<Command>, clock: nat -> int, f: Floats)
    requires st.selected < |st.dbs| && Readable(f) && Timely(r.expireMs)
    requires At(st.dbs[st.selected], r.key) == (None, None)
    ensures Replay(st, Values(RecordCommands(r, f.show) + rest), clock, f.scan)
         == Replay(
              st.(dbs := st.dbs[st.selected := Apply(st.dbs[st.selected], EchoRecord(r, f))]),
              Values(rest), clock, f.scan)
  {
    hide Replay;
    hide Content;
    hide ValueCommand;
    hide EchoListing;
    var db := st.dbs[st.selected];
    var value, expiry := ValueCommand(r.key, r.listing, f.show), ExpiryCommands(r.key, r.expireMs);
    Seqs.Assoc([value], expiry, rest);
    StepValue(st, r, expiry + rest, clock, f);
    var stored := SetObject(db, r.key, Content(EchoListing(r.listing, f)));
    var st' := st.(dbs := st.dbs[st.selected := stored]);
    if r.expireMs.None? {
      Seqs.Empty(rest);
    } else {
      StepExpiry(st', r.key, r.expireMs.value, rest, clock, f);
      assert st.dbs[st.selected := stored][st.selected := SetExpiryAt(stored, r.key, r.expireMs.value)]
          == st.dbs[st.selected := SetExpiryAt(stored, r.key, r.expireMs.value)];
    }
  }

  lemma StepValue(st: State, r: Record, rest: seq<Command>, clock: nat -> int, f: Floats)
    requires st.selected < |st.dbs| && Readable(f)
    requires At(st.dbs[st.selected], r.key) == (None, None)
    ensures Replay(st, Values([ValueCommand(r.key, r.listing, f.show)] + rest), clock, f.scan)
         == Replay(st.(dbs := st.dbs[st.selected :=
              SetObject(st.dbs[st.selected], r.key, Content(EchoListing(r.listing, f)))]), Values(rest), clock, f.scan)
  {
    hide Replay;
    hide Content;
    hide OnDb;
    hide EchoListing;
    var db, c := st.dbs[st.selected], ValueCommand(r.key, r.listing, f.show);
    NotSelect(r.key, r.listing, f.show);
    StepCommand(st, c, rest, clock, f);
    var now :| RunsAt(st, c, rest, clock, f, now);
    ValueCommandRuns(db, r.key, r.listing, now, f);
  }

  lemma NotSelect(key: string, l: Listing, show: Word -> string)
    ensures var c := ValueCommand(key, l, show); |c| >= 2 && c[0] != "SELECT" && InScripts(c[0])
  {
  }

  lemma StepExpiry(st: State, key: string, at: Word, rest: seq<Command>, clock: nat -> int, f: Floats)
    requires st.selected < |st.dbs| && at < HALF64
    ensures Replay(st, Values([["PEXPIREAT", key, Decimal(at)]] + rest), clock, f.scan)
         == Replay(st.(dbs := st.dbs[st.selected := SetExpiryAt(st.dbs[st.selected], key, at)]), Values(rest), clock, f.scan)
  {
    hide Replay;
    hide Decimal;
    var c := ["PEXPIREAT", key, Decimal(at)];
    StepCommand(st, c, rest, clock, f);
    DecimalRoundTrip(at);
  }

  lemma StepSelect(st: State, index: nat, rest: seq<Command>, clock: nat -> int, f: Floats)
    requires index < |st.dbs| && IsInt64(index)
    ensures Replay(st, Values([["SELECT", Decimal(index)]] + rest), clock, f.scan)
         == Replay(st.(selected := index), Values(rest), clock, f.scan)
  {
    hide Replay;
    hide Decimal;
    var c := ["SELECT", Decimal(index)];
    StepCommand(st, c, rest, clock, f);
    DecimalRoundTrip(index);
  }

  lemma {:induction false} RecordsRun(st: State, records: seq<Record>, rest: seq<Command>, clock: nat -> int, f: Floats)
    requires st.selected < |st.dbs| && Readable(f)
    requires forall j :: 0 <= j < |records| ==> Timely(records[j].expireMs)
    requires forall j :: 0 <= j < |records| ==> At(st.dbs[st.selected], records[j].key) == (None, None)
    requires forall j, l :: 0 <= j < l < |records| ==> records[j].key != records[l].key
    ensures Replay(st, Values(RecordsScript(records, f.show) + rest), clock, f.scan)
         == Replay(
              st.(dbs := st.dbs[st.selected := Restore(st.dbs[st.selected], EchoRecords(records, f))]),
              Values(rest), clock, f.scan)
    decreases |records|
  {
    hide Replay;
    hide At;
    hide Apply;
    hide EchoRecord;
    hide RecordCommands;
    hide Timely;
    if records == [] {
      Seqs.Empty(rest);
      assert st.(dbs := st.dbs[st.selected := st.dbs[st.selected]]) == st;
    } else {
      var r, more := records[0], RecordsScript(records[1..], f.show);
      Seqs.Assoc(RecordCommands(r, f.show), more, rest);
      RecordRuns(st, r, more + rest, clock, f);
      var c, db := st.selected, st.dbs[st.selected];
      var once := Apply(db, EchoRecord(r, f));
      EchoKeepsKey(r, f);
      forall j | 0 <= j < |records[1..]| ensures At(once, records[1..][j].key) == (None, None) {
        ApplyAt(db, EchoRecord(r, f), records[j + 1].key);
      }
      RecordsRun(st.(dbs := st.dbs[c := once]), records[1..], rest, clock, f);
      assert EchoRecords(records, f)[1..] == EchoRecords(records[1..], f);
      var all := Restore(once, EchoRecords(records[1..], f));
      assert st.dbs[c := once][c := all] == st.dbs[c := all];
    }
  }

  lemma EchoKeepsKey(r: Record, f: Floats)
    ensures EchoRecord(r, f).key == r.key
  {
  }

  // ---------- Running the whole script ----------

  lemma EchoDumps(records: seq<Record>, live: Db, f: Floats)
    requires Dumps(records, live)
    ensures Dumps(EchoRecords(records, f), Echo(live, f))
  {
    hide Spells;
    hide EchoListing;
    hide EchoValue;
    hide Lists;
    var echoes := EchoRecords(records, f);
    assert Keys(echoes) == Keys(records);
    assert Echo(live, f).data.Keys == live.data.Keys;
    forall j | 0 <= j < |records| ensures RecordOf(echoes[j], Echo(live, f)) {
      assert RecordOf(records[j], live);
      EchoSpells(records[j].listing, live.data[records[j].key], f);
    }
  }

  // The records of what is alive, run on an empty database, rebuild it but for the echo.
  lemma DumpRuns(st: State, records: seq<Record>, live: Db, rest: seq<Command>, clock: nat -> int, f: Floats)
    requires st.selected < |st.dbs| && st.dbs[st.selected] == EMPTY && Readable(f)
    requires Dumps(records, live) && Timed(live) && live.expires.Keys <= live.data.Keys
    ensures Replay(st, Values(RecordsScript(records, f.show) + rest), clock, f.scan)
         == Replay(st.(dbs := st.dbs[st.selected := Echo(live, f)]), Values(rest), clock, f.scan)
  {
    hide Replay;
    hide Restore;
    hide Lists;
    hide Spells;
    hide EchoValue;
    hide EchoRecord;
    forall j | 0 <= j < |records| ensures Timely(records[j].expireMs) {
      assert RecordOf(records[j], live);
    }
    DumpedKeys(records, live, "");
    RecordsRun(st, records, rest, clock, f);
    EchoDumps(records, live, f);
    RestoreDumped(EchoRecords(records, f), Echo(live, f));
  }

  lemma NothingLives(db: Db, now: int, f: Floats)
    requires |db.data| == 0
    ensures Echo(Live(db, now), f) == EMPTY
  {
  }

  lemma LiveIsTimed(db: Db, now: int)
    requires Timed(db)
    ensures Timed(Live(db, now)) && Live(db, now).expires.Keys <= Live(db, now).data.Keys
  {
  }

  lemma {:induction false} SnapshotRuns(st: State, sections: seq<Section>, dbs: seq<Db>, from: nat, now: int,
      clock: nat -> int, f: Floats)
    requires from <= |dbs| == |st.dbs| && IsInt64(|dbs|) && Snapshot(sections, dbs, from, now) && Readable(f)
    requires forall i :: from <= i < |dbs| ==> Timed(dbs[i]) && st.dbs[i] == EMPTY
    ensures var r := Replay(st, Values(Script(sections, f.show)), clock, f.scan);
      && r.Some? && |r.value.dbs| == |dbs|
      && forall i :: 0 <= i < |dbs| ==> r.value.dbs[i] == if i < from then st.dbs[i] else Echo(Live(dbs[i], now), f)
    decreases |dbs| - from
  {
    hide Dumps;
    hide Live;
    hide Echo;
    hide Decimal;
    if from == |dbs| {
    } else if |dbs[from].data| == 0 {
      NothingLives(dbs[from], now, f);
      SnapshotRuns(st, sections, dbs, from + 1, now, clock, f);
    } else {
      var s, live := sections[0], Live(dbs[from], now);
      var more, records := Script(sections[1..], f.show), RecordsScript(s.records, f.show);
      Seqs.Assoc([["SELECT", Decimal(from)]], records, more);
      LiveIsTimed(dbs[from], now);
      StepSelect(st, from, records + more, clock, f);
      DumpRuns(st.(selected := from), s.records, live, more, clock, f);
      SnapshotRuns(State(st.dbs[from := Echo(live, f)], from), sections[1..], dbs, from + 1, now, clock, f);
    }
  }

  // What the parser's 64-bit lengths can count.
  predicate CommandFits(c: Command) {
    IsInt64(|c|) && forall j :: 0 <= j < |c| ==> IsInt64(|c[j]|)
  }

  predicate ScriptFits(script: seq<Command>)
    decreases |script|
  {
    script == [] || (CommandFits(script[0]) && ScriptFits(script[1..]))
  }

  lemma {:induction false} BulksFit(c: Command)
    requires forall j :: 0 <= j < |c| ==> IsInt64(|c[j]|)
    ensures Resp.FitsAll(RespParser.Bulks(c)) && Resp.FramedAll(RespParser.Bulks(c))
    decreases |c|
  {
    if c != [] {
      assert RespParser.Bulks(c)[1..] == RespParser.Bulks(c[1..]);
      BulksFit(c[1..]);
    }
  }

  lemma {:induction false} ValuesFit(script: seq<Command>)
    requires ScriptFits(script)
    ensures Resp.FitsAll(Values(script)) && Resp.FramedAll(Values(script))
    decreases |script|
  {
    if script != [] {
      assert Values(script)[1..] == Values(script[1..]);
      BulksFit(script[0]);
      ValuesFit(script[1..]);
    }
  }

  function Echoes(dbs: seq<Db>, now: int, f: Floats): seq<Db> {
    seq(|dbs|, i requires 0 <= i < |dbs| => Echo(Live(dbs[i], now), f))
  }

  // The rewrite theorem: whatever the iteration order of the rewrite and the clock of the load,
  // loading the file gives every key alive at the rewrite its expiry and the echo of its value.
  lemma LoadAfterRewrite(sections: seq<Section>, dbs: seq<Db>, now: int, clock: nat -> int, f: Floats)
    requires Snapshot(sections, dbs, 0, now) && IsInt64(|dbs|) && Readable(f)
    requires forall i :: 0 <= i < |dbs| ==> Timed(dbs[i])
    requires ScriptFits(Script(sections, f.show))
    ensures var r := Aof.Load(|dbs|, FileOf(Script(sections, f.show)), clock, f.scan);
      r.Some? && r.value.dbs == Echoes(dbs, now, f)
  {
    hide Replay;
    hide Snapshot;
    hide Script;
    hide Echo;
    var script := Script(sections, f.show);
    ValuesFit(script);
    Resp.ParseAllBack(Values(script));
    SnapshotRuns(State(Flushed(|dbs|), 0), sections, dbs, 0, now, clock, f);
  }

  // A value that comes back as it was: no list with elements, no score that loses digits.
  ghost predicate Survives(v: Value, f: Floats) {
    match v
    case List(items) => items == []
    case ZSet(scores) => forall k <- scores :: Rescan(scores[k], f) == scores[k]
    case _ => true
  }

  lemma EchoIsFaithful(v: Value, f: Floats)
    ensures EchoValue(v, f) == v <==> Survives(v, f)
  {
    match v
    case List(items) =>
      assert |items + items| == |items| + |items|;
    case ZSet(scores) =>
      var echoed := map k | k in scores :: Rescan(scores[k], f);
      if echoed == scores {
        forall k <- scores ensures Rescan(scores[k], f) == scores[k] {
          assert echoed[k] == scores[k];
        }
      }
    case _ =>
  }

  ghost predicate AllSurvive(db: Db, f: Floats) {
    forall k <- db.data :: Survives(db.data[k], f)
  }

  lemma EchoIsExact(db: Db, f: Floats)
    ensures Echo(db, f) == db <==> AllSurvive(db, f)
  {
    hide EchoValue;
    hide Survives;
    var echoed := Echo(db, f);
    if echoed == db {
      forall k <- db.data ensures Survives(db.data[k], f) {
        assert echoed.data[k] == EchoValue(db.data[k], f);
        EchoIsFaithful(db.data[k], f);
      }
    }
    if AllSurvive(db, f) {
      forall k <- db.data ensures EchoValue(db.data[k], f) == db.data[k] {
        EchoIsFaithful(db.data[k], f);
      }
      assert echoed.data == db.data;
    }
  }

  // Loading a rewritten file rebuilds what was alive if and only if no list had elements and
  // every score survives its text.
  lemma RewriteIsExact(sections: seq<Section>, dbs: seq<Db>, now: int, clock: nat -> int, f: Floats)
    requires Snapshot(sections, dbs, 0, now) && IsInt64(|dbs|) && Readable(f)
    requires forall i :: 0 <= i < |dbs| ==> Timed(dbs[i])
    requires ScriptFits(Script(sections, f.show))
    ensures var r := Aof.Load(|dbs|, FileOf(Script(sections, f.show)), clock, f.scan);
      (r.Some? && r.value.dbs == seq(|dbs|, i requires 0 <= i < |dbs| => Live(dbs[i], now)))
      <==> forall i :: 0 <= i < |dbs| ==> AllSurvive(Live(dbs[i], now), f)
  {
    hide Aof.Load;
    hide Snapshot;
    hide Script;
    hide Echo;
    hide AllSurvive;
    LoadAfterRewrite(sections, dbs, now, clock, f);
    var lives := seq(|dbs|, i requires 0 <= i < |dbs| => Live(dbs[i], now));
    var echoes := Echoes(dbs, now, f);
    forall i | 0 <= i < |dbs| ensures echoes[i] == lives[i] <==> AllSurvive(Live(dbs[i], now), f) {
      EchoIsExact(Live(dbs[i], now), f);
    }
    if forall i :: 0 <= i < |dbs| ==> AllSurvive(Live(dbs[i], now), f) {
      assert echoes == lives;
    }
  }
}

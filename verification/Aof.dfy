// The append-only file: rewriting compiles a snapshot into a script of commands, loading parses
// the script and runs it.

module Aof {
  import opened Wrappers
  import opened Keyspace
  import opened Numbers
  import Resp
  import RespParser
  import opened Rdb

  type Command = seq<string>

  // How scores become text (with six decimals) and text becomes a score.
  datatype Floats = Floats(show: Word -> string, scan: string -> Option<Word>)

  // Expiry times that the snapshot can hold.
  ghost predicate Timed(db: Db) {
    forall k <- db.expires :: db.expires[k] < HALF64
  }

  // ---------- Rewriting: from records to commands ----------

  function FieldArgs(fields: seq<(string, string)>): (args: seq<string>)
    ensures |args| == 2 * |fields|
    decreases |fields|
  {
    if fields == [] then [] else [fields[0].0, fields[0].1] + FieldArgs(fields[1..])
  }

  function ScoreArgs(scores: seq<(string, Word)>, show: Word -> string): (args: seq<string>)
    ensures |args| == 2 * |scores|
    decreases |scores|
  {
    if scores == [] then [] else [show(scores[0].1), scores[0].0] + ScoreArgs(scores[1..], show)
  }

  function ValueCommand(key: string, l: Listing, show: Word -> string): Command {
    match l
    case Text(text) => ["SET", key, text]
    case Items(items) => ["RPUSH", key] + items
    case Fields(fields) => ["HSET", key] + FieldArgs(fields)
    case Members(members) => ["SADD", key] + members
    case Scores(scores) => ["ZADD", key] + ScoreArgs(scores, show)
  }

  function ExpiryCommands(key: string, expireMs: Option<Word>): seq<Command> {
    if expireMs.None? then [] else [["PEXPIREAT", key, Decimal(expireMs.value)]]
  }

  function RecordCommands(r: Record, show: Word -> string): seq<Command> {
    [ValueCommand(r.key, r.listing, show)] + ExpiryCommands(r.key, r.expireMs)
  }

  function RecordsScript(records: seq<Record>, show: Word -> string): seq<Command>
    decreases |records|
  {
    if records == [] then [] else RecordCommands(records[0], show) + RecordsScript(records[1..], show)
  }

  function SectionScript(s: Section, show: Word -> string): seq<Command> {
    [["SELECT", Decimal(s.index)]] + RecordsScript(s.records, show)
  }

  function Script(sections: seq<Section>, show: Word -> string): seq<Command>
    decreases |sections|
  {
    if sections == [] then [] else SectionScript(sections[0], show) + Script(sections[1..], show)
  }

  function Values(script: seq<Command>): (vs: seq<Resp.RespValue>)
    ensures |vs| == |script|
  {
    seq(|script|, i requires 0 <= i < |script| => Resp.Array(RespParser.Bulks(script[i])))
  }

  // The file is one array of bulk strings after the other.
  function FileOf(script: seq<Command>): string {
    Resp.SerializeAll(Values(script))
  }

  // ---------- Loading: running commands ----------

  datatype State = State(dbs: seq<Db>, selected: nat)

  // getObjectForWrite, with an empty value stored where there was none; None if the type is wrong.
  function ForWrite(db: Db, key: string, now: int, empty: Value): Db {
    var seen := CheckAndExpire(db, key, now);
    if key in seen.data then seen else SetObject(seen, key, empty)
  }

  function InPlace(db: Db, key: string, value: Value): Db {
    db.(data := db.data[key := value])
  }

  function AddFields(m: map<string, string>, args: seq<string>): map<string, string>
    requires |args| % 2 == 0
    decreases |args|
  {
    if args == [] then m else AddFields(m[args[0] := args[1]], args[2..])
  }

  // zadd stops at the first score it cannot read.
  function AddScores(m: map<string, Word>, args: seq<string>, scan: string -> Option<Word>): map<string, Word>
    requires |args| % 2 == 0
    decreases |args|
  {
    if args == [] then m
    else match scan(args[0])
      case None => m
      case Some(score) => AddScores(m[args[1] := score], args[2..], scan)
  }

  function Push(db: Db, key: string, items: seq<string>, now: int): Db {
    var d := ForWrite(db, key, now, List([]));
    if d.data[key].List? then InPlace(d, key, List(d.data[key].items + items)) else d
  }

  function HSet(db: Db, key: string, args: seq<string>, now: int): Db {
    if |args| % 2 != 0 then db else
      var d := ForWrite(db, key, now, Hash(map[]));
      if d.data[key].Hash? then InPlace(d, key, Hash(AddFields(d.data[key].fields, args))) else d
  }

  function SAdd(db: Db, key: string, members: seq<string>, now: int): Db {
    var d := ForWrite(db, key, now, Set({}));
    if d.data[key].Set? then InPlace(d, key, Set(d.data[key].members + set x | x in members)) else d
  }

  function ZAdd(db: Db, key: string, args: seq<string>, now: int, scan: string -> Option<Word>): Db {
    if |args| % 2 != 0 then db else
      var d := ForWrite(db, key, now, ZSet(map[]));
      if d.data[key].ZSet? then InPlace(d, key, ZSet(AddScores(d.data[key].scores, args, scan))) else d
  }

  function PExpireAt(db: Db, key: string, at: string): Db {
    match Stoll(at)
    case None => db
    case Some(n) => SetExpiryAt(db, key, n)
  }

  function Select(st: State, index: string): State {
    match Stoll(index)
    case None => st
    case Some(n) => if 0 <= n < |st.dbs| then st.(selected := n) else st
  }

  // What the options of SET ask for; expiryMs is -1 without a time to live.
  datatype SetFlags = SetFlags(nx: bool, xx: bool, expiryMs: int)

  function Upper(s: string): (u: string)
    ensures |u| == |s|
  {
    seq(|s|, i requires 0 <= i < |s| => if 'a' <= s[i] <= 'z' then (s[i] as int - 32) as char else s[i])
  }

  // The options from here on. A time that is no number, or not positive, refuses the command;
  // anything else that is unknown is passed over.
  function ReadFlags(args: seq<string>, flags: SetFlags): Option<SetFlags>
    decreases |args|
  {
    if args == [] then Some(flags)
    else
      var flag := Upper(args[0]);
      if flag == "NX" then ReadFlags(args[1..], flags.(nx := true))
      else if flag == "XX" then ReadFlags(args[1..], flags.(xx := true))
      else if (flag == "EX" || flag == "PX") && |args| > 1 then
        match Stoll(args[1])
        case None => None
        case Some(n) =>
          var ms := if flag == "EX" then n * 1000 else n;
          if ms <= 0 then None else ReadFlags(args[2..], flags.(expiryMs := ms))
      else ReadFlags(args[1..], flags)
  }

  // NX and XX look the key up, which removes an expired one.
  function SetWith(db: Db, key: string, text: string, flags: SetFlags, now: int): Db {
    var seen := if flags.nx || flags.xx then CheckAndExpire(db, key, now) else db;
    if (flags.nx && key in seen.data) || (flags.xx && key !in seen.data) then seen
    else
      var d := SetObject(seen, key, Str(text));
      if flags.expiryMs > 0 then SetExpiryAt(d, key, now + flags.expiryMs) else d
  }

  function SetString(db: Db, key: string, text: string, args: seq<string>, now: int): Db {
    match ReadFlags(args, SetFlags(false, false, -1))
    case None => db
    case Some(flags) => SetWith(db, key, text, flags, now)
  }

  // rpush runs its body twice.
  function OnDb(db: Db, c: Command, now: int, scan: string -> Option<Word>): Option<Db> {
    if |c| < 2 then None
    else if c[0] == "SET" then if |c| >= 3 then Some(SetString(db, c[1], c[2], c[3..], now)) else None
    else if c[0] == "RPUSH" then Some(Push(Push(db, c[1], c[2..], now), c[1], c[2..], now))
    else if c[0] == "HSET" then Some(HSet(db, c[1], c[2..], now))
    else if c[0] == "SADD" then Some(SAdd(db, c[1], c[2..], now))
    else if c[0] == "ZADD" then Some(ZAdd(db, c[1], c[2..], now, scan))
    else if c[0] == "PEXPIREAT" then if |c| >= 3 then Some(PExpireAt(db, c[1], c[2])) else None
    else None
  }

  // None for commands outside this model.
  function RunCommand(st: State, c: Command, now: int, scan: string -> Option<Word>): (r: Option<State>)
    ensures r.Some? ==> |r.value.dbs| == |st.dbs|
  {
    if |c| >= 2 && c[0] == "SELECT" then Some(Select(st, c[1]))
    else if st.selected >= |st.dbs| then None
    else match OnDb(st.dbs[st.selected], c, now, scan)
      case None => None
      case Some(db) => Some(st.(dbs := st.dbs[st.selected := db]))
  }

  // The command table.
  predicate Registered(name: string) {
    name in {
      "APPEND", "BGREWRITEAOF", "BGSAVE", "BLPOP", "BRPOP", "COMMAND", "CONFIG", "DBSIZE", "DEBUG",
      "DECR", "DECRBY", "DEL", "DISCARD", "ECHO", "EXEC", "EXISTS", "EXPIRE", "EXPIREAT",
      "FLUSHDB", "GET", "HGET", "HGETALL", "HSET", "INCR", "INCRBY", "INFO", "KEYS", "LLEN",
      "LPOP", "LPUSH", "LRANGE", "MGET", "MSET", "MULTI", "PERSIST", "PEXPIRE", "PEXPIREAT",
      "PING", "PSUBSCRIBE", "PSYNC", "PTTL", "PUBLISH", "PUNSUBSCRIBE", "QUIT", "RENAME",
      "REPLCONF", "REPLICAOF", "RPOP", "RPUSH", "SADD", "SAVE", "SELECT", "SET", "SETNX",
      "SISMEMBER", "SMEMBERS", "SREM", "STRLEN", "SUBSCRIBE", "TTL", "TYPE", "UNSUBSCRIBE",
      "UNWATCH", "WAIT", "WATCH", "ZADD", "ZRANGE", "ZRANK", "ZREM", "ZSCORE"
    }
  }

  // Names are looked up in upper case. Commands that are not in the table are reported and skipped.
  function Execute(st: State, c: Command, now: int, scan: string -> Option<Word>): (r: Option<State>)
    requires c != []
    ensures r.Some? ==> |r.value.dbs| == |st.dbs|
  {
    var name := Upper(c[0]);
    if Registered(name) then RunCommand(st, [name] + c[1..], now, scan) else Some(st)
  }

  // The names that a rewritten file uses.
  predicate InScripts(name: string) {
    name == "SELECT" || name == "SET" || name == "RPUSH" || name == "HSET" || name == "SADD" ||
    name == "ZADD" || name == "PEXPIREAT"
  }

  lemma ScriptsAreKnown(st: State, c: Command, now: int, scan: string -> Option<Word>)
    requires c != [] && InScripts(c[0])
    ensures Execute(st, c, now, scan) == RunCommand(st, c, now, scan)
  {
    hide RunCommand;
    assert Upper(c[0]) == c[0];
    assert [c[0]] + c[1..] == c;
  }

  predicate IsBulk(v: Resp.RespValue) {
    v.BulkString?
  }

  function Texts(es: seq<Resp.RespValue>): seq<string>
    requires All(es, IsBulk)
  {
    seq(|es|, i requires 0 <= i < |es| => es[i].text)
  }

  // Values that are not commands are skipped. The clock may show any time at every step.
  function Replay(st: State, vs: seq<Resp.RespValue>, clock: nat -> int, scan: string -> Option<Word>): Option<State>
    decreases |vs|
  {
    if vs == [] then Some(st)
    else
      var next := ReplayOne(st, vs[0], clock(|vs|), scan);
      if next.None? then None else Replay(next.value, vs[1..], clock, scan)
  }

  function ReplayOne(st: State, v: Resp.RespValue, now: int, scan: string -> Option<Word>): Option<State> {
    if !v.Array? || v.elements == [] then Some(st)
    else if All(v.elements, IsBulk) then Execute(st, Texts(v.elements), now, scan)
    else None
  }

  // The outcome of loading a file into a server with this many databases.
  function Load(count: nat, file: string, clock: nat -> int, scan: string -> Option<Word>): Option<State> {
    Replay(State(Flushed(count), 0), Resp.ParseAll(file).commands, clock, scan)
  }
}

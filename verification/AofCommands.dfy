// What the commands of an append-only file do, told in terms of what a reader can see. A rewritten
// file uses them on absent keys and without options; here the key may hold anything.

module AofCommands {
  import opened Wrappers
  import opened Keyspace
  import opened Numbers
  import opened Rdb
  import opened Aof
  import opened Views

  // ---------- Names and options may be written in upper or lower case ----------

  predicate AnyCase(s: string, upper: string) {
    |s| == |upper| && forall i :: 0 <= i < |s| ==> s[i] == upper[i] || s[i] as int == upper[i] as int + 32
  }

  predicate Capitals(s: string) {
    forall i :: 0 <= i < |s| ==> 'A' <= s[i] <= 'Z'
  }

  lemma UpperIs(s: string, upper: string)
    requires AnyCase(s, upper) && Capitals(upper)
    ensures Upper(s) == upper
  {
  }

  // ---------- SET and its options ----------

  datatype Flag = Nx | Xx | Ex(seconds: int) | Px(milliseconds: int)

  // Times are positive and fit in 64 bits, as milliseconds.
  predicate InRange(flag: Flag) {
    match flag
    case Ex(n) => n > 0 && IsInt64(1000 * n)
    case Px(n) => n > 0 && IsInt64(n)
    case _ => true
  }

  // The arguments by which a client asks for these options.
  ghost predicate Spells(args: seq<string>, flags: seq<Flag>)
    decreases |flags|
  {
    if flags == [] then args == []
    else SpellsFirst(args, flags[0]) && Spells(args[Width(flags[0])..], flags[1..])
  }

  function Width(flag: Flag): nat {
    if flag.Nx? || flag.Xx? then 1 else 2
  }

  ghost predicate SpellsFirst(args: seq<string>, flag: Flag) {
    && InRange(flag) && |args| >= Width(flag)
    && match flag
       case Nx => AnyCase(args[0], "NX")
       case Xx => AnyCase(args[0], "XX")
       case Ex(n) => AnyCase(args[0], "EX") && args[1] == Decimal(n)
       case Px(n) => AnyCase(args[0], "PX") && args[1] == Decimal(n)
  }

  // The last time to live that is asked for counts.
  function LastTime(flags: seq<Flag>): (ms: Option<int>) {
    if flags == [] then None
    else match flags[|flags| - 1]
      case Ex(n) => Some(1000 * n)
      case Px(n) => Some(n)
      case _ => LastTime(flags[..|flags| - 1])
  }

  lemma {:induction false} LastTimeFirst(flags: seq<Flag>)
    requires flags != []
    ensures LastTime(flags) == if LastTime(flags[1..]).Some? then LastTime(flags[1..]) else LastTime(flags[..1])
    decreases |flags|
  {
    if |flags| == 1 {
      assert flags[..1] == flags && flags[1..] == [];
    } else {
      var before := flags[..|flags| - 1];
      LastTimeFirst(before);
      assert before[1..] == flags[1..][..|flags| - 2] && before[..1] == flags[..1];
    }
  }

  function Asked(flags: seq<Flag>, from: SetFlags): SetFlags {
    SetFlags(from.nx || Nx in flags, from.xx || Xx in flags,
      if LastTime(flags).Some? then LastTime(flags).value else from.expiryMs)
  }

  lemma FirstIsRead(args: seq<string>, flag: Flag, from: SetFlags)
    requires SpellsFirst(args, flag)
    ensures ReadFlags(args, from) == ReadFlags(args[Width(flag)..], Asked([flag], from))
  {
    assert [flag][..0] == [] && LastTime([flag]) == if flag.Ex? then Some(1000 * flag.seconds) else
      if flag.Px? then Some(flag.milliseconds) else None;
    match flag
    case Nx =>
      UpperIs(args[0], "NX");
      assert Nx in [flag] && Xx !in [flag];
    case Xx =>
      UpperIs(args[0], "XX");
      assert Xx in [flag] && Nx !in [flag];
    case Ex(n) =>
      UpperIs(args[0], "EX");
      assert 1000 * n == n * 1000;
      assert IsInt64(n);
      DecimalRoundTrip(n);
    case Px(n) =>
      UpperIs(args[0], "PX");
      DecimalRoundTrip(n);
  }

  lemma AskedFirst(flags: seq<Flag>, from: SetFlags)
    requires flags != []
    ensures Asked(flags, from) == Asked(flags[1..], Asked([flags[0]], from))
  {
    LastTimeFirst(flags);
    assert flags[..1] == [flags[0]];
    assert forall f :: f in flags <==> f == flags[0] || f in flags[1..];
  }

  lemma {:induction false} FlagsAreRead(args: seq<string>, flags: seq<Flag>, from: SetFlags)
    requires Spells(args, flags)
    ensures ReadFlags(args, from) == Some(Asked(flags, from))
    decreases |flags|
  {
    if flags != [] {
      hide ReadFlags;
      hide Asked;
      FirstIsRead(args, flags[0], from);
      AskedFirst(flags, from);
      FlagsAreRead(args[Width(flags[0])..], flags[1..], Asked([flags[0]], from));
    }
  }

  lemma {:induction false} LastTimeIsPositive(args: seq<string>, flags: seq<Flag>)
    requires Spells(args, flags) && LastTime(flags).Some?
    ensures LastTime(flags).value > 0
    decreases |flags|
  {
    LastTimeFirst(flags);
    assert flags[..1] == [flags[0]] && [flags[0]][..0] == [];
    if LastTime(flags[1..]).Some? {
      assert SpellsFirst(args, flags[0]);
      LastTimeIsPositive(args[Width(flags[0])..], flags[1..]);
    }
  }

  function WithEnd(db: Db, key: string, end: Option<int>): Db {
    if end.None? then db else SetExpiryAt(db, key, end.value)
  }

  lemma SetShows(db: Db, key: string, value: Value, end: Option<int>, from: int)
    ensures ShowsUntil(db, WithEnd(SetObject(db, key, value), key, end), key, value, end, from)
  {
    var d := WithEnd(SetObject(db, key, value), key, end);
    assert d.expires - {key} == db.expires - {key};
    StoredShows(db, d, key, value, end, from);
  }

  // SET with any options: NX wants the key absent, XX wants it present, for a reader; then the
  // text is there until the last time that was asked for has passed, or for ever.
  lemma SetWithOptions(db: Db, key: string, text: string, args: seq<string>, flags: seq<Flag>, now: int)
    requires Spells(args, flags)
    ensures var present, d := key in Live(db, now).data, SetString(db, key, text, args, now);
      if (Nx in flags && present) || (Xx in flags && !present) then LooksTheSame(db, d, now)
      else ShowsUntil(db, d, key, Str(text),
        if LastTime(flags).Some? then Some(now + LastTime(flags).value) else None, now)
  {
    hide SetWith;
    hide LooksTheSame;
    hide ShowsUntil;
    hide Live;
    hide ReadFlags;
    var flagged := SetFlags(Nx in flags, Xx in flags, if LastTime(flags).Some? then LastTime(flags).value else -1);
    FlagsAreRead(args, flags, SetFlags(false, false, -1));
    if LastTime(flags).Some? {
      LastTimeIsPositive(args, flags);
    }
    SetWithShows(db, key, text, flagged, now);
  }

  lemma SetWithShows(db: Db, key: string, text: string, flags: SetFlags, now: int)
    ensures var present, d := key in Live(db, now).data, SetWith(db, key, text, flags, now);
      if (flags.nx && present) || (flags.xx && !present) then LooksTheSame(db, d, now)
      else ShowsUntil(db, d, key, Str(text), if flags.expiryMs > 0 then Some(now + flags.expiryMs) else None, now)
  {
    hide Live;
    hide LooksTheSame;
    hide ShowsUntil;
    hide CheckAndExpire;
    hide SetObject;
    hide SetExpiryAt;
    LookIsUnseen(db, key, now);
    SameRefl(db, now);
    PresentIsStored(db, key, now);
    var seen := if flags.nx || flags.xx then CheckAndExpire(db, key, now) else db;
    var end := if flags.expiryMs > 0 then Some(now + flags.expiryMs) else None;
    SetShows(seen, key, Str(text), end, now);
    ShowsSame(db, seen, WithEnd(SetObject(seen, key, Str(text)), key, end), key, Str(text), end, now);
  }

  lemma PresentIsStored(db: Db, key: string, now: int)
    ensures key in Live(db, now).data <==> key in CheckAndExpire(db, key, now).data
  {
  }

  // The plain cases: EX counts seconds and PX milliseconds.
  lemma TimesAreCounted(db: Db, key: string, text: string, option: string, n: int, now: int, t: int)
    requires n > 0 && IsInt64(1000 * n) && t >= now
    ensures AnyCase(option, "EX") ==>
      var live := Live(SetString(db, key, text, [option, Decimal(n)], now), t);
      (key in live.data <==> t < now + 1000 * n) && (key in live.data ==> live.data[key] == Str(text))
    ensures AnyCase(option, "PX") ==>
      var live := Live(SetString(db, key, text, [option, Decimal(n)], now), t);
      (key in live.data <==> t < now + n) && (key in live.data ==> live.data[key] == Str(text))
  {
    hide Live;
    hide SetString;
    var args := [option, Decimal(n)];
    assert args[2..] == [] && IsInt64(n);
    if AnyCase(option, "EX") {
      assert [Ex(n)][1..] == [] && [Ex(n)][..0] == [] && Spells(args, [Ex(n)]);
      SetWithOptions(db, key, text, args, [Ex(n)], now);
      assert ShowsAt(db, SetString(db, key, text, args, now), key, Str(text), Some(now + 1000 * n), t);
    }
    if AnyCase(option, "PX") {
      assert [Px(n)][1..] == [] && [Px(n)][..0] == [] && Spells(args, [Px(n)]);
      SetWithOptions(db, key, text, args, [Px(n)], now);
      assert ShowsAt(db, SetString(db, key, text, args, now), key, Str(text), Some(now + n), t);
    }
  }

  // NX leaves what a reader sees, XX makes nothing appear.
  lemma PresenceIsAsked(db: Db, key: string, text: string, option: string, now: int, t: int)
    requires t >= now
    ensures var live, present := Live(SetString(db, key, text, [option], now), t), key in Live(db, now).data;
      && (AnyCase(option, "NX") && present ==> live == Live(db, t))
      && (AnyCase(option, "XX") && !present ==> live == Live(db, t))
      && ((AnyCase(option, "NX") && !present) || (AnyCase(option, "XX") && present) ==>
            key in live.data && live.data[key] == Str(text) && key !in live.expires)
  {
    hide Live;
    hide SetString;
    assert AnyCase(option, "NX") ==> option[0] == 'N' || option[0] == 'n';
    if AnyCase(option, "NX") {
      OneFlag(db, key, text, option, Nx, now);
    } else if AnyCase(option, "XX") {
      OneFlag(db, key, text, option, Xx, now);
    }
    if AnyCase(option, "NX") || AnyCase(option, "XX") {
      if AnyCase(option, "NX") == (key !in Live(db, now).data) {
        assert ShowsAt(db, SetString(db, key, text, [option], now), key, Str(text), None, t);
      }
    }
  }

  lemma OneFlag(db: Db, key: string, text: string, option: string, flag: Flag, now: int)
    requires flag == Nx || flag == Xx
    requires AnyCase(option, if flag == Nx then "NX" else "XX")
    ensures var present, d := key in Live(db, now).data, SetString(db, key, text, [option], now);
      if present == (flag == Nx) then LooksTheSame(db, d, now) else ShowsUntil(db, d, key, Str(text), None, now)
  {
    hide Live;
    hide SetString;
    hide LooksTheSame;
    hide ShowsUntil;
    assert [option][1..] == [] && [flag][1..] == [] && [flag][..0] == [];
    assert SpellsFirst([option], flag) && Spells([option], [flag]);
    assert LastTime([flag]) == None && (Nx in [flag] <==> flag == Nx) && (Xx in [flag] <==> flag == Xx);
    SetWithOptions(db, key, text, [option], [flag], now);
  }

  // A time that is no number, or not positive, refuses the whole command.
  lemma BadTimeRefuses(db: Db, key: string, text: string, args: seq<string>, flags: seq<Flag>,
      option: string, time: string, now: int)
    requires Spells(args, flags) && (AnyCase(option, "EX") || AnyCase(option, "PX"))
    requires Stoll(time) == None || Stoll(time).value <= 0
    ensures SetString(db, key, text, args + [option, time], now) == db
  {
    if AnyCase(option, "EX") {
      UpperIs(option, "EX");
    } else {
      UpperIs(option, "PX");
    }
    BadTimeIsNoted(args, flags, option, time, SetFlags(false, false, -1));
  }

  lemma {:induction false} BadTimeIsNoted(args: seq<string>, flags: seq<Flag>,
      option: string, time: string, from: SetFlags)
    requires Spells(args, flags) && (Upper(option) == "EX" || Upper(option) == "PX")
    requires Stoll(time) == None || Stoll(time).value <= 0
    ensures ReadFlags(args + [option, time], from) == None
    decreases |flags|
  {
    var all := args + [option, time];
    if flags == [] {
      assert all == [option, time];
    } else {
      var width := Width(flags[0]);
      hide ReadFlags;
      hide Asked;
      assert all[width..] == args[width..] + [option, time];
      assert SpellsFirst(all, flags[0]);
      FirstIsRead(all, flags[0], from);
      BadTimeIsNoted(args[width..], flags[1..], option, time, Asked([flags[0]], from));
    }
  }

  // ---------- Collections ----------

  // What a reader finds under the key, or the empty value.
  function Found(db: Db, key: string, now: int, empty: Value): Value {
    if key in Live(db, now).data then Live(db, now).data[key] else empty
  }

  lemma ForWriteShows(db: Db, key: string, now: int, empty: Value)
    ensures var d := ForWrite(db, key, now, empty);
      && d.data[key] == Found(db, key, now, empty)
      && (key in Live(db, now).data ==> LooksTheSame(db, d, now))
      && forall value :: ShowsUntil(db, InPlace(d, key, value), key, value, EndOf(db, key, now), now)
  {
    hide Live;
    hide LooksTheSame;
    hide ShowsUntil;
    LookIsUnseen(db, key, now);
    FoundIsStored(db, key, now, empty);
    forall value
      ensures ShowsUntil(db, InPlace(ForWrite(db, key, now, empty), key, value), key, value, EndOf(db, key, now), now)
    {
      WriteShows(db, key, now, empty, value);
    }
  }

  lemma FoundIsStored(db: Db, key: string, now: int, empty: Value)
    ensures ForWrite(db, key, now, empty).data[key] == Found(db, key, now, empty)
    ensures key in Live(db, now).data ==> key in CheckAndExpire(db, key, now).data
  {
  }

  lemma WriteShows(db: Db, key: string, now: int, empty: Value, value: Value)
    ensures ShowsUntil(db, InPlace(ForWrite(db, key, now, empty), key, value), key, value, EndOf(db, key, now), now)
  {
    var d := InPlace(ForWrite(db, key, now, empty), key, value);
    assert d.data == db.data[key := value];
    assert d.expires - {key} == db.expires - {key};
    StoredShows(db, d, key, value, EndOf(db, key, now), now);
  }

  lemma PushShows(db: Db, key: string, values: seq<string>, now: int)
    ensures var was, d := Found(db, key, now, List([])), Push(db, key, values, now);
      if was.List? then ShowsUntil(db, d, key, List(was.items + values), EndOf(db, key, now), now)
      else LooksTheSame(db, d, now)
  {
    hide Live;
    hide LooksTheSame;
    hide ShowsUntil;
    hide ForWrite;
    ForWriteShows(db, key, now, List([]));
  }

  lemma SAddShows(db: Db, key: string, members: seq<string>, now: int)
    ensures var was, d := Found(db, key, now, Set({})), SAdd(db, key, members, now);
      if was.Set? then ShowsUntil(db, d, key, Set(was.members + set x | x in members), EndOf(db, key, now), now)
      else LooksTheSame(db, d, now)
  {
    hide Live;
    hide LooksTheSame;
    hide ShowsUntil;
    hide ForWrite;
    ForWriteShows(db, key, now, Set({}));
  }

  ghost predicate Named<V>(pairs: seq<(string, V)>, name: string) {
    exists n :: 0 <= n < |pairs| && pairs[n].0 == name
  }

  // The last pair under this name.
  ghost predicate LastUnder<V>(pairs: seq<(string, V)>, n: nat, name: string) {
    n < |pairs| && pairs[n].0 == name && !Named(pairs[n + 1..], name)
  }

  ghost predicate OverlaidAt<V>(was: map<string, V>, pairs: seq<(string, V)>, m: map<string, V>, name: string) {
    && (!Named(pairs, name) ==> (name in m <==> name in was) && (name in m ==> m[name] == was[name]))
    && (forall n: nat :: LastUnder(pairs, n, name) ==> name in m && m[name] == pairs[n].1)
  }

  // The old entries with these pairs stored over them: the last pair under a name counts.
  ghost predicate Overlaid<V>(was: map<string, V>, pairs: seq<(string, V)>, m: map<string, V>) {
    forall name :: OverlaidAt(was, pairs, m, name)
  }

  lemma NamedFirst<V>(pairs: seq<(string, V)>, name: string)
    requires pairs != []
    ensures Named(pairs, name) <==> pairs[0].0 == name || Named(pairs[1..], name)
  {
    if n :| 0 <= n < |pairs| && pairs[n].0 == name && n > 0 {
      assert pairs[1..][n - 1].0 == name;
    }
    if n :| 0 <= n < |pairs[1..]| && pairs[1..][n].0 == name {
      assert pairs[n + 1].0 == name;
    }
  }

  lemma OverlaidByNothing<V>(was: map<string, V>)
    ensures Overlaid(was, [], was)
  {
  }

  lemma OverlaidFirst<V>(was: map<string, V>, pairs: seq<(string, V)>, m: map<string, V>)
    requires pairs != [] && Overlaid(was[pairs[0].0 := pairs[0].1], pairs[1..], m)
    ensures Overlaid(was, pairs, m)
  {
    hide OverlaidAt;
    forall name ensures OverlaidAt(was, pairs, m, name) {
      OverlaidFirstAt(was, pairs, m, name);
    }
  }

  lemma OverlaidFirstAt<V>(was: map<string, V>, pairs: seq<(string, V)>, m: map<string, V>, name: string)
    requires pairs != [] && OverlaidAt(was[pairs[0].0 := pairs[0].1], pairs[1..], m, name)
    ensures OverlaidAt(was, pairs, m, name)
  {
    hide Named;
    NamedFirst(pairs, name);
    forall n: nat | LastUnder(pairs, n, name) ensures name in m && m[name] == pairs[n].1 {
      if n > 0 {
        assert pairs[1..][n..] == pairs[n + 1..];
        assert LastUnder(pairs[1..], n - 1, name);
      }
    }
  }

  function FieldPairs(args: seq<string>): seq<(string, string)>
    requires |args| % 2 == 0
  {
    seq(|args| / 2, n requires 0 <= n < |args| / 2 => (args[2 * n], args[2 * n + 1]))
  }

  lemma PairsFirst(args: seq<string>)
    requires |args| % 2 == 0 && args != []
    ensures |FieldPairs(args)| > 0 && FieldPairs(args)[0] == (args[0], args[1]) && FieldPairs(args)[1..] == FieldPairs(args[2..])
  {
  }

  lemma {:induction false} FieldsAreOverlaid(was: map<string, string>, args: seq<string>)
    requires |args| % 2 == 0
    ensures Overlaid(was, FieldPairs(args), AddFields(was, args))
    decreases |args|
  {
    hide Overlaid;
    if args == [] {
      OverlaidByNothing(was);
      assert FieldPairs(args) == [];
    } else {
      hide FieldPairs;
      FieldsAreOverlaid(was[args[0] := args[1]], args[2..]);
      PairsFirst(args);
      OverlaidFirst(was, FieldPairs(args), AddFields(was, args));
    }
  }

  // HSET stores its pairs over the fields that are there.
  lemma HSetShows(db: Db, key: string, args: seq<string>, now: int)
    ensures var was, d := Found(db, key, now, Hash(map[])), HSet(db, key, args, now);
      if |args| % 2 == 0 && was.Hash? then
        exists fields :: Overlaid(was.fields, FieldPairs(args), fields)
          && ShowsUntil(db, d, key, Hash(fields), EndOf(db, key, now), now)
      else LooksTheSame(db, d, now)
  {
    hide Live;
    hide LooksTheSame;
    hide ShowsUntil;
    hide ForWrite;
    hide Overlaid;
    SameRefl(db, now);
    ForWriteShows(db, key, now, Hash(map[]));
    var was := Found(db, key, now, Hash(map[]));
    if |args| % 2 == 0 && was.Hash? {
      FieldsAreOverlaid(was.fields, args);
    }
  }

  // The pairs in front of the first score that is no number.
  function ScorePairs(args: seq<string>, scan: string -> Option<Word>): (pairs: seq<(string, Word)>)
    requires |args| % 2 == 0
    decreases |args|
  {
    if args == [] || scan(args[0]) == None then []
    else [(args[1], scan(args[0]).value)] + ScorePairs(args[2..], scan)
  }

  // Either all scores are numbers, or the one behind these pairs is the first that is none.
  lemma {:induction false} ScorePairsAre(args: seq<string>, scan: string -> Option<Word>)
    requires |args| % 2 == 0
    ensures var pairs := ScorePairs(args, scan);
      && 2 * |pairs| <= |args| && (2 * |pairs| < |args| ==> scan(args[2 * |pairs|]) == None)
      && forall n :: 0 <= n < |pairs| ==> scan(args[2 * n]) == Some(pairs[n].1) && args[2 * n + 1] == pairs[n].0
    decreases |args|
  {
    if args != [] && scan(args[0]).Some? {
      var pairs, rest := ScorePairs(args, scan), args[2..];
      ScorePairsAre(rest, scan);
      forall n | 0 <= n < |pairs| ensures scan(args[2 * n]) == Some(pairs[n].1) && args[2 * n + 1] == pairs[n].0 {
        if n > 0 {
          assert pairs[n] == ScorePairs(rest, scan)[n - 1];
          assert rest[2 * (n - 1)] == args[2 * n] && rest[2 * (n - 1) + 1] == args[2 * n + 1];
        }
      }
      assert 2 * |pairs| < |args| ==> args[2 * |pairs|] == rest[2 * |pairs| - 2];
    }
  }

  lemma {:induction false} ScoresAreOverlaid(was: map<string, Word>, args: seq<string>, scan: string -> Option<Word>)
    requires |args| % 2 == 0
    ensures Overlaid(was, ScorePairs(args, scan), AddScores(was, args, scan))
    decreases |args|
  {
    hide Overlaid;
    OverlaidByNothing(was);
    if args != [] && scan(args[0]).Some? {
      ScoresAreOverlaid(was[args[1] := scan(args[0]).value], args[2..], scan);
      assert ScorePairs(args, scan)[1..] == ScorePairs(args[2..], scan);
      OverlaidFirst(was, ScorePairs(args, scan), AddScores(was, args, scan));
    }
  }

  // ZADD stores the scores that it can read, up to the first that it cannot.
  lemma ZAddShows(db: Db, key: string, args: seq<string>, now: int, scan: string -> Option<Word>)
    ensures var was, d := Found(db, key, now, ZSet(map[])), ZAdd(db, key, args, now, scan);
      if |args| % 2 == 0 && was.ZSet? then
        exists scores :: Overlaid(was.scores, ScorePairs(args, scan), scores)
          && ShowsUntil(db, d, key, ZSet(scores), EndOf(db, key, now), now)
      else LooksTheSame(db, d, now)
  {
    hide Live;
    hide LooksTheSame;
    hide ShowsUntil;
    hide ForWrite;
    hide Overlaid;
    SameRefl(db, now);
    ForWriteShows(db, key, now, ZSet(map[]));
    var was := Found(db, key, now, ZSet(map[]));
    if |args| % 2 == 0 && was.ZSet? {
      ScoresAreOverlaid(was.scores, args, scan);
    }
  }

  // ---------- Expiry times and the selected database ----------

  // PEXPIREAT ends a visible key at the given time, which may have passed.
  lemma PExpireAtShows(db: Db, key: string, at: string, n: int, now: int)
    requires Stoll(at) == Some(n)
    ensures var d := PExpireAt(db, key, at);
      if key in Live(db, now).data then ShowsUntil(db, d, key, Live(db, now).data[key], Some(n), now)
      else key !in db.data ==> LooksTheSame(db, d, now)
  {
    hide ShowsUntil;
    if key in Live(db, now).data {
      assert db.data[key := db.data[key]] == db.data;
      StoredShows(db, PExpireAt(db, key, at), key, db.data[key], Some(n), now);
    }
  }

  lemma SelectChooses(st: State, n: int)
    requires IsInt64(n)
    ensures Select(st, Decimal(n)).dbs == st.dbs
    ensures 0 <= n < |st.dbs| ==> Select(st, Decimal(n)).selected == n
    ensures !(0 <= n < |st.dbs|) ==> Select(st, Decimal(n)).selected == st.selected
  {
    DecimalRoundTrip(n);
  }

  // ---------- Dispatch ----------

  // The command that a name in either case stands for, on the selected database. RPUSH runs twice.
  lemma NamesAreKnown(st: State, c: Command, now: int, scan: string -> Option<Word>)
    requires |c| >= 3 && st.selected < |st.dbs|
    ensures var db, r := st.dbs[st.selected], Execute(st, c, now, scan);
      && (AnyCase(c[0], "SET") ==> r == Some(st.(dbs := st.dbs[st.selected := SetString(db, c[1], c[2], c[3..], now)])))
      && (AnyCase(c[0], "RPUSH") ==>
            r == Some(st.(dbs := st.dbs[st.selected := Push(Push(db, c[1], c[2..], now), c[1], c[2..], now)])))
      && (AnyCase(c[0], "HSET") ==> r == Some(st.(dbs := st.dbs[st.selected := HSet(db, c[1], c[2..], now)])))
      && (AnyCase(c[0], "SADD") ==> r == Some(st.(dbs := st.dbs[st.selected := SAdd(db, c[1], c[2..], now)])))
      && (AnyCase(c[0], "ZADD") ==> r == Some(st.(dbs := st.dbs[st.selected := ZAdd(db, c[1], c[2..], now, scan)])))
      && (AnyCase(c[0], "PEXPIREAT") ==> r == Some(st.(dbs := st.dbs[st.selected := PExpireAt(db, c[1], c[2])])))
      && (AnyCase(c[0], "SELECT") ==> r == Some(Select(st, c[1])))
  {
    hide SetString;
    hide Push;
    hide HSet;
    hide SAdd;
    hide ZAdd;
    hide PExpireAt;
    hide Select;
    hide Execute;
    hide Registered;
    forall name | InScripts(name) && AnyCase(c[0], name)
      ensures Execute(st, c, now, scan) == RunCommand(st, [name] + c[1..], now, scan)
      ensures var d := [name] + c[1..];
        d[1] == c[1] && d[2] == c[2] && d[2..] == c[2..] && d[3..] == c[3..]
    {
      NameIsKnown(st, c, name, now, scan);
    }
  }

  lemma NameIsKnown(st: State, c: Command, name: string, now: int, scan: string -> Option<Word>)
    requires c != [] && InScripts(name) && AnyCase(c[0], name)
    ensures Execute(st, c, now, scan) == RunCommand(st, [name] + c[1..], now, scan)
    ensures var d := [name] + c[1..];
      |c| >= 3 ==> d[1] == c[1] && d[2] == c[2] && d[2..] == c[2..] && d[3..] == c[3..]
  {
    hide RunCommand;
    UpperIs(c[0], name);
  }
}

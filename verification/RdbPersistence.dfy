// Saving and loading as the program does it: a writer and a reader that keep a running checksum
// over every byte that passes.

module RdbPersistence {
  import opened Wrappers
  import opened Keyspace
  import opened Maps
  import opened Rdb
  import Seqs

  // ---------- Iteration orders ----------

  // A hash container visits its pairs in an order of its own.
  method Pairs<V>(m: map<string, V>) returns (items: seq<(string, V)>)
    ensures Enumerates(items, m) && |items| == |m|
  {
    var left := m.Keys;
    items := [];
    while left != {}
      invariant left <= m.Keys
      invariant forall j :: 0 <= j < |items| ==>
        items[j].0 in m && items[j].0 !in left && m[items[j].0] == items[j].1
      invariant forall j, l :: 0 <= j < l < |items| ==> items[j].0 != items[l].0
      invariant forall k :: k in m && k !in left ==> (k, m[k]) in items
      decreases left
    {
      var key :| key in left;
      left := left - {key};
      items := items + [(key, m[key])];
    }
    CollectEnumerated(items, m);
  }

  method Elements(s: set<string>) returns (members: seq<string>)
    ensures Lists(members, s) && |members| == |s|
  {
    var left := s;
    members := [];
    while left != {}
      invariant left <= s
      invariant forall x :: x in members <==> x in s && x !in left
      invariant forall j, l :: 0 <= j < l < |members| ==> members[j] != members[l]
      decreases left
    {
      var x :| x in left;
      left := left - {x};
      members := members + [x];
    }
    ListLength(members, s);
  }

  // keys("*") leaves out what has expired.
  method LiveKeys(db: Db, now: int) returns (keys: seq<string>)
    ensures Lists(keys, Live(db, now).data.Keys)
  {
    keys := Elements(set key | key in db.data && !Expired(db, key, now));
    assert Live(db, now).data.Keys == set key | key in db.data && !Expired(db, key, now);
  }

  // ---------- The writer ----------

  lemma {:induction false} FlatOneMore<T>(xs: seq<T>, x: T, write: T -> string)
    ensures Flat(xs + [x], write) == Flat(xs, write) + write(x)
    decreases |xs|
  {
    if xs == [] {
      Seqs.Empty(write(x));
      assert [x][1..] == [];
      assert Flat([x], write) == write(x) + Flat([], write);
    } else {
      assert (xs + [x])[1..] == xs[1..] + [x];
      FlatOneMore(xs[1..], x, write);
      Seqs.Assoc(write(xs[0]), Flat(xs[1..], write), write(x));
    }
  }

  lemma FlatNone<T>(start: string, write: T -> string)
    ensures start + Flat([], write) == start
  {
  }

  lemma FlatStep<T>(start: string, xs: seq<T>, j: nat, write: T -> string)
    requires j < |xs|
    ensures start + Flat(xs[..j], write) + write(xs[j]) == start + Flat(xs[..j + 1], write)
  {
    FlatOneMore(xs[..j], xs[j], write);
    assert xs[..j + 1] == xs[..j] + [xs[j]];
    Seqs.Assoc(start, Flat(xs[..j], write), write(xs[j]));
  }

  class Writer {
    var out: string
    var checksum: bv64

    ghost predicate Valid()
      reads this
    {
      checksum == Sum(0, out)
    }

    constructor ()
      ensures Valid() && out == ""
    {
      out, checksum := "", 0;
    }

    // Bytes go to the file and into the checksum.
    method Write(s: string)
      requires Valid()
      modifies this
      ensures Valid() && out == old(out) + s
    {
      hide Sum;
      SumConcat(0, out, s);
      out := out + s;
      checksum := Sum(checksum, s);
    }

    method WriteString(s: string)
      requires Valid()
      modifies this
      ensures Valid() && out == old(out) + WriteStr(s)
    {
      hide Sum;
      Write(U64(|s|));
      Write(s);
      Seqs.Assoc(old(out), U64(|s|), s);
    }

    // The elements of a list or a set.
    method WriteStrings(items: seq<string>)
      requires Valid()
      modifies this
      ensures Valid() && out == old(out) + WriteMany(items, WriteStr)
    {
      hide Sum;
      hide U64;
      hide WriteStr;
      hide Flat;
      Write(U64(|items|));
      ghost var start := out;
      FlatNone(start, WriteStr);
      for j := 0 to |items|
        invariant Valid() && out == start + Flat(items[..j], WriteStr)
      {
        WriteString(items[j]);
        FlatStep(start, items, j, WriteStr);
      }
      assert items[..|items|] == items;
      Seqs.Assoc(old(out), U64(|items|), Flat(items, WriteStr));
    }

    method WriteFieldOf(f: (string, string))
      requires Valid()
      modifies this
      ensures Valid() && out == old(out) + WriteField(f)
    {
      hide Sum;
      hide WriteStr;
      WriteString(f.0);
      WriteString(f.1);
      Seqs.Assoc(old(out), WriteStr(f.0), WriteStr(f.1));
    }

    method WriteScoreOf(f: (string, Word))
      requires Valid()
      modifies this
      ensures Valid() && out == old(out) + WriteScore(f)
    {
      hide Sum;
      hide WriteStr;
      hide U64;
      WriteString(f.0);
      Write(U64(f.1));
      Seqs.Assoc(old(out), WriteStr(f.0), U64(f.1));
    }

    method WriteFields(fields: seq<(string, string)>)
      requires Valid()
      modifies this
      ensures Valid() && out == old(out) + WriteMany(fields, WriteField)
    {
      hide Sum;
      hide U64;
      hide WriteField;
      hide Flat;
      Write(U64(|fields|));
      ghost var start := out;
      FlatNone(start, WriteField);
      for j := 0 to |fields|
        invariant Valid() && out == start + Flat(fields[..j], WriteField)
      {
        WriteFieldOf(fields[j]);
        FlatStep(start, fields, j, WriteField);
      }
      assert fields[..|fields|] == fields;
      Seqs.Assoc(old(out), U64(|fields|), Flat(fields, WriteField));
    }

    method WriteScores(scores: seq<(string, Word)>)
      requires Valid()
      modifies this
      ensures Valid() && out == old(out) + WriteMany(scores, WriteScore)
    {
      hide Sum;
      hide U64;
      hide WriteScore;
      hide Flat;
      Write(U64(|scores|));
      ghost var start := out;
      FlatNone(start, WriteScore);
      for j := 0 to |scores|
        invariant Valid() && out == start + Flat(scores[..j], WriteScore)
      {
        WriteScoreOf(scores[j]);
        FlatStep(start, scores, j, WriteScore);
      }
      assert scores[..|scores|] == scores;
      Seqs.Assoc(old(out), U64(|scores|), Flat(scores, WriteScore));
    }

    // The switch over the object's type.
    method WriteObject(key: string, value: Value) returns (ghost l: Listing)
      requires Valid()
      modifies this
      ensures Valid() && Spells(l, value)
      ensures forall e :: out == old(out) + WriteEntry(Record(key, l, e))
    {
      hide Sum;
      hide Flat;
      hide U64;
      hide Chr;
      hide WriteStr;
      hide WriteMany;
      hide Enumerates;
      hide Lists;
      match value {
        case Str(text) =>
          l := Text(text);
          WriteKey(TYPE_STRING, key);
          WriteString(text);
        case List(items) =>
          l := Items(items);
          WriteKey(TYPE_LIST, key);
          WriteStrings(items);
        case Hash(table) =>
          var fields := Pairs(table);
          l := Fields(fields);
          WriteKey(TYPE_HASH, key);
          WriteFields(fields);
        case Set(elements) =>
          var members := Elements(elements);
          l := Members(members);
          WriteKey(TYPE_SET, key);
          WriteStrings(members);
        case ZSet(table) =>
          var scores := Pairs(table);
          l := Scores(scores);
          WriteKey(TYPE_ZSET, key);
          WriteScores(scores);
      }
      Regroup(old(out), Chr(TypeOf(l)), WriteStr(key), WriteListing(l));
    }

    method WriteKey(kind: nat, key: string)
      requires Valid() && kind < 256
      modifies this
      ensures Valid() && out == old(out) + Chr(kind) + WriteStr(key)
    {
      Write(Chr(kind));
      WriteString(key);
    }

    method WriteRecordOf(db: Db, key: string, now: int) returns (ghost r: Record)
      requires Valid() && key in db.data && !Expired(db, key, now) && now >= 0
      requires key in db.expires ==> db.expires[key] < HALF64
      modifies this
      ensures Valid() && r.key == key && RecordOf(r, Live(db, now))
      ensures out == old(out) + WriteRecord(r)
    {
      hide Sum;
      hide WriteEntry;
      hide Spells;
      var expireMs: Option<Word> := None;
      var pttl := Pttl(db, key, now);
      if pttl >= 0 {
        expireMs := Some(now + pttl);
        Write(Chr(EXPIRETIME_MS));
        Write(U64(now + pttl));
        Seqs.Assoc(old(out), Chr(EXPIRETIME_MS), U64(now + pttl));
      } else {
        Seqs.Empty(out);
      }
      assert out == old(out) + WriteExpiry(expireMs);
      ghost var l := WriteObject(key, db.data[key]);
      r := Record(key, l, expireMs);
      Seqs.Assoc(old(out), WriteExpiry(expireMs), WriteEntry(r));
    }

    method WriteDatabase(i: nat, db: Db, now: int) returns (ghost s: Section)
      requires Valid() && now >= 0 && forall k <- db.expires :: db.expires[k] < HALF64
      modifies this
      ensures Valid() && SectionOf(s, i, db, now) && out == old(out) + WriteSection(s)
    {
      hide Sum;
      hide U64;
      hide Flat;
      hide WriteHeader;
      hide WriteRecord;
      hide RecordOf;
      hide Chr;
      Write(Chr(SELECTDB));
      Write(U64(i));
      Write(Chr(RESIZEDB));
      Write(U64(|db.data|));
      Write(U64(|db.expires|));
      ghost var header := out;
      var keys := LiveKeys(db, now);
      ghost var records: seq<Record> := [];
      FlatNone(out, WriteRecord);
      for j := 0 to |keys|
        invariant Valid() && out == header + Flat(records, WriteRecord)
        invariant |records| == j && forall l :: 0 <= l < j ==>
          records[l].key == keys[l] && RecordOf(records[l], Live(db, now))
      {
        ListedIsLive(db, now, keys, j);
        ghost var r := WriteRecordOf(db, keys[j], now);
        FlatOneMore(records, r, WriteRecord);
        Seqs.Assoc(header, Flat(records, WriteRecord), WriteRecord(r));
        records := records + [r];
      }
      s := Section(i, |db.data|, |db.expires|, records);
      assert Keys(records) == keys;
      HeaderIs(old(out), header, s);
      Seqs.Assoc(old(out), WriteHeader(s), Flat(records, WriteRecord));
    }

    method SaveToFile(dbs: seq<Db>, now: int) returns (ghost sections: seq<Section>)
      requires Valid() && out == "" && now >= 0
      requires forall i :: 0 <= i < |dbs| ==> forall k <- dbs[i].expires :: dbs[i].expires[k] < HALF64
      modifies this
      ensures Snapshot(sections, dbs, 0, now) && out == File(sections)
    {
      hide Sum;
      hide WriteSection;
      hide SectionOf;
      Write(MAGIC);
      sections := [];
      forall more | Snapshot(more, dbs, 0, now) ensures Snapshot(sections + more, dbs, 0, now) {
        Seqs.Empty(more);
      }
      for i := 0 to |dbs|
        invariant Valid() && out == MAGIC + Flat(sections, WriteSection)
        invariant forall more :: Snapshot(more, dbs, i, now) ==> Snapshot(sections + more, dbs, 0, now)
      {
        if |dbs[i].data| == 0 {
          continue;
        }
        ghost var s := WriteDatabase(i, dbs[i], now);
        FlatOneMore(sections, s, WriteSection);
        Seqs.Assoc(MAGIC, Flat(sections, WriteSection), WriteSection(s));
        forall more | Snapshot(more, dbs, i + 1, now) ensures Snapshot(sections + [s] + more, dbs, 0, now) {
          Seqs.Assoc(sections, [s], more);
          assert ([s] + more)[1..] == more;
          assert Snapshot([s] + more, dbs, i, now);
        }
        sections := sections + [s];
      }
      assert Snapshot([], dbs, |dbs|, now);
      Seqs.Empty(sections);
      Write(Chr(EOF));
      Seqs.Assoc(MAGIC, Flat(sections, WriteSection), Chr(EOF));
      out := out + U64(Stored(checksum));
    }
  }

  lemma ListedIsLive(db: Db, now: int, keys: seq<string>, j: nat)
    requires Lists(keys, Live(db, now).data.Keys) && j < |keys|
    ensures keys[j] in db.data && !Expired(db, keys[j], now)
  {
    assert keys[j] in Live(db, now).data;
  }

  lemma Regroup(a: string, b: string, c: string, d: string)
    ensures a + b + c + d == a + (b + (c + d))
  {
  }

  lemma HeaderIs(before: string, after: string, s: Section)
    requires after == before + Chr(SELECTDB) + U64(s.index) + Chr(RESIZEDB) + U64(s.size) + U64(s.expires)
    ensures after == before + WriteHeader(s)
  {
    hide U64;
    hide Chr;
    var a, b, c, d, e := Chr(SELECTDB), U64(s.index), Chr(RESIZEDB), U64(s.size), U64(s.expires);
    assert before + a + b + c + d + e == before + (a + b + (c + (d + e)));
  }

  // ---------- The reader ----------

  // A read gave what the format says, or met the end of the file.
  ghost predicate Follows<T>(spec: Read<T>, r: Option<T>, rest: string) {
    match spec
    case Cut => r.None?
    case Got(x, rest') => r == Some(x) && rest == rest'
  }

  function ContentOf(l: Option<Listing>): Option<Value> {
    if l.None? then None else Some(Content(l.value))
  }

  // What is left to read of a run of elements, with those already read in front.
  function Resumed<T>(xs: seq<T>, r: Read<seq<T>>): Read<seq<T>> {
    match r
    case Cut => Cut
    case Got(ys, rest) => Got(xs + ys, rest)
  }

  lemma ResumeOne<T>(s: string, count: nat, read: string -> Read<T>, xs: seq<T>)
    requires count > 0
    ensures Resumed(xs, ReadTimes(s, count, read)) ==
      match read(s) case Cut => Cut case Got(x, rest) => Resumed(xs + [x], ReadTimes(rest, count - 1, read))
  {
    if read(s).Got? && ReadTimes(read(s).rest, count - 1, read).Got? {
      Seqs.Assoc(xs, [read(s).value], ReadTimes(read(s).rest, count - 1, read).value);
    }
  }

  lemma ResumeDone<T>(s: string, read: string -> Read<T>, xs: seq<T>)
    ensures Resumed(xs, ReadTimes(s, 0, read)) == Got(xs, s)
    ensures forall count :: Resumed([], ReadTimes(s, count, read)) == ReadTimes(s, count, read)
  {
    Seqs.Empty(xs);
    forall count ensures Resumed([], ReadTimes(s, count, read)) == ReadTimes(s, count, read) {
      var r := ReadTimes(s, count, read);
      if r.Got? {
        Seqs.Empty(r.value);
      }
    }
  }

  class Reader {
    const bytes: string
    var pos: nat
    var checksum: bv64

    ghost predicate Valid()
      reads this
    {
      pos <= |bytes| && checksum == Sum(0, bytes[..pos])
    }

    ghost function Rest(): string
      requires Valid()
      reads this
    {
      bytes[pos..]
    }

    constructor (bytes: string)
      ensures Valid() && this.bytes == bytes && pos == 0
    {
      this.bytes, pos, checksum := bytes, 0, 0;
    }

    // Bytes come from the file and go into the checksum.
    method Take(width: nat) returns (r: Option<string>)
      requires Valid()
      modifies this
      ensures Valid()
      ensures if |old(Rest())| < width then r.None?
              else r == Some(old(Rest())[..width]) && Rest() == old(Rest())[width..]
    {
      hide Sum;
      if |bytes| - pos < width {
        return None;
      }
      var s := bytes[pos..pos + width];
      SumConcat(0, bytes[..pos], s);
      assert bytes[..pos] + s == bytes[..pos + width];
      assert bytes[pos..][..width] == s && bytes[pos..][width..] == bytes[pos + width..];
      checksum := Sum(checksum, s);
      pos := pos + width;
      r := Some(s);
    }

    method ReadLength(width: nat) returns (r: Option<nat>)
      requires Valid()
      modifies this
      ensures Valid() && Follows(ReadNumber(old(Rest()), width), r, Rest())
    {
      hide Sum;
      var s := Take(width);
      r := if s.None? then None else Some(Number(s.value));
    }

    method ReadString() returns (r: Option<string>)
      requires Valid()
      modifies this
      ensures Valid() && Follows(ReadStr(old(Rest())), r, Rest())
    {
      hide Sum;
      hide ReadNumber;
      var n := ReadLength(8);
      if n.None? {
        return None;
      }
      r := Take(n.value);
    }

    method ReadPair() returns (r: Option<(string, string)>)
      requires Valid()
      modifies this
      ensures Valid() && Follows(ReadField(old(Rest())), r, Rest())
    {
      hide Sum;
      hide ReadStr;
      r := None;
      var f := ReadString();
      if f.Some? {
        var v := ReadString();
        if v.Some? {
          r := Some((f.value, v.value));
        }
      }
    }

    method ReadMember() returns (r: Option<(string, Word)>)
      requires Valid()
      modifies this
      ensures Valid() && Follows(ReadScore(old(Rest())), r, Rest())
    {
      hide Sum;
      hide ReadStr;
      hide ReadNumber;
      r := None;
      var member := ReadString();
      if member.Some? {
        var score := ReadLength(8);
        if score.Some? {
          r := Some((member.value, score.value % WORD));
        }
      }
    }

    method ReadStrings() returns (r: Option<seq<string>>)
      requires Valid()
      modifies this
      ensures Valid() && Follows(ReadMany(old(Rest()), ReadStr), r, Rest())
    {
      hide Sum;
      hide ReadNumber;
      hide ReadStr;
      hide ReadTimes;
      hide Rest;
      var len := ReadLength(8);
      if len.None? {
        return None;
      }
      ghost var start := Rest();
      var items := [];
      ResumeDone(start, ReadStr, items);
      for i := 0 to len.value
        invariant Valid()
        invariant Resumed(items, ReadTimes(Rest(), len.value - i, ReadStr)) == ReadTimes(start, len.value, ReadStr)
      {
        ResumeOne(Rest(), len.value - i, ReadStr, items);
        var s := ReadString();
        if s.None? {
          return None;
        }
        items := items + [s.value];
      }
      ResumeDone(Rest(), ReadStr, items);
      r := Some(items);
    }

    // Each pair goes into the table as it is read.
    method ReadHash() returns (r: Option<map<string, string>>, ghost fields: Option<seq<(string, string)>>)
      requires Valid()
      modifies this
      ensures Valid() && Follows(ReadMany(old(Rest()), ReadField), fields, Rest())
      ensures r == if fields.None? then None else Some(Collect(fields.value))
    {
      hide Sum;
      hide ReadNumber;
      hide ReadField;
      hide ReadTimes;
      hide Rest;
      var len := ReadLength(8);
      if len.None? {
        return None, None;
      }
      ghost var start := Rest();
      ghost var pairs: seq<(string, string)> := [];
      var hash: map<string, string> := map[];
      ResumeDone(start, ReadField, pairs);
      for i := 0 to len.value
        invariant Valid() && hash == Collect(pairs)
        invariant Resumed(pairs, ReadTimes(Rest(), len.value - i, ReadField)) == ReadTimes(start, len.value, ReadField)
      {
        ResumeOne(Rest(), len.value - i, ReadField, pairs);
        var f := ReadPair();
        if f.None? {
          return None, None;
        }
        CollectOneMore(pairs, f.value);
        hash := hash[f.value.0 := f.value.1];
        pairs := pairs + [f.value];
      }
      ResumeDone(Rest(), ReadField, pairs);
      r, fields := Some(hash), Some(pairs);
    }

    method ReadZSet() returns (r: Option<map<string, Word>>, ghost scores: Option<seq<(string, Word)>>)
      requires Valid()
      modifies this
      ensures Valid() && Follows(ReadMany(old(Rest()), ReadScore), scores, Rest())
      ensures r == if scores.None? then None else Some(Collect(scores.value))
    {
      hide Sum;
      hide ReadNumber;
      hide ReadScore;
      hide ReadTimes;
      hide Rest;
      var len := ReadLength(8);
      if len.None? {
        return None, None;
      }
      ghost var start := Rest();
      ghost var pairs: seq<(string, Word)> := [];
      var zset: map<string, Word> := map[];
      ResumeDone(start, ReadScore, pairs);
      for i := 0 to len.value
        invariant Valid() && zset == Collect(pairs)
        invariant Resumed(pairs, ReadTimes(Rest(), len.value - i, ReadScore)) == ReadTimes(start, len.value, ReadScore)
      {
        ResumeOne(Rest(), len.value - i, ReadScore, pairs);
        var f := ReadMember();
        if f.None? {
          return None, None;
        }
        CollectOneMore(pairs, f.value);
        zset := zset[f.value.0 := f.value.1];
        pairs := pairs + [f.value];
      }
      ResumeDone(Rest(), ReadScore, pairs);
      r, scores := Some(zset), Some(pairs);
    }

    // The switch over the type byte; an unknown type reads nothing.
    method ReadObject(kind: nat) returns (r: Option<Option<Value>>, ghost l: Option<Option<Listing>>)
      requires Valid()
      modifies this
      ensures Valid() && Follows(ReadListing(kind, old(Rest())), l, Rest())
      ensures r == if l.None? then None else Some(ContentOf(l.value))
    {
      hide Sum;
      hide ReadStr;
      hide ReadMany;
      r, l := None, None;
      if kind == TYPE_STRING {
        var s := ReadString();
        if s.Some? {
          r, l := Some(Some(Str(s.value))), Some(Some(Text(s.value)));
        }
      } else if kind == TYPE_LIST {
        var items := ReadStrings();
        if items.Some? {
          r, l := Some(Some(List(items.value))), Some(Some(Items(items.value)));
        }
      } else if kind == TYPE_HASH {
        var hash; ghost var fields;
        hash, fields := ReadHash();
        if hash.Some? {
          r, l := Some(Some(Hash(hash.value))), Some(Some(Fields(fields.value)));
        }
      } else if kind == TYPE_SET {
        var members := ReadStrings();
        if members.Some? {
          r, l := Some(Some(Set(set x | x in members.value))), Some(Some(Members(members.value)));
        }
      } else if kind == TYPE_ZSET {
        var zset; ghost var scores;
        zset, scores := ReadZSet();
        if zset.Some? {
          r, l := Some(Some(ZSet(zset.value))), Some(Some(Scores(scores.value)));
        }
      } else {
        r, l := Some(None), Some(None);
      }
    }

    // The loop's turn for one opcode other than the last.
    method ReadOpcode(st: Loader, op: nat) returns (r: Option<Loader>)
      requires Valid()
      modifies this
      ensures Valid() && Follows(Opcode(st, op, old(Rest())), r, Rest())
    {
      hide Sum;
      hide ReadNumber;
      hide ReadStr;
      hide Entry;
      r := None;
      if op == SELECTDB {
        var n := ReadLength(8);
        if n.Some? {
          r := Some(st.(current := Signed(n.value, HALF32)));
        }
      } else if op == RESIZEDB {
        var size := ReadLength(8);
        if size.Some? {
          var expires := ReadLength(8);
          if expires.Some? {
            r := Some(st);
          }
        }
      } else if op == EXPIRETIME {
        var n := ReadLength(4);
        if n.Some? {
          r := Some(st.(expire := Some(n.value * 1000 % WORD)));
        }
      } else if op == EXPIRETIME_MS {
        var n := ReadLength(8);
        if n.Some? {
          r := Some(st.(expire := Some(n.value % WORD)));
        }
      } else {
        var key := ReadString();
        if key.Some? {
          r := ReadEntry(st, op, key.value);
        }
      }
    }

    method ReadEntry(st: Loader, op: nat, key: string) returns (r: Option<Loader>)
      requires Valid()
      modifies this
      ensures Valid() && Follows(Entry(st, op, key, old(Rest())), r, Rest())
    {
      hide Sum;
      hide ReadListing;
      hide Content;
      if st.current >= |st.dbs| {
        return Some(st);
      }
      if st.current < 0 {
        return None;
      }
      var value; ghost var l;
      value, l := ReadObject(op);
      if value.None? {
        return None;
      }
      var db := st.dbs[st.current];
      if value.value.Some? {
        db := SetObject(db, key, value.value.value);
      }
      if st.expire.Some? {
        db := SetExpiryAt(db, key, Signed(st.expire.value, HALF64));
      }
      r := Some(Loader(st.dbs[st.current := db], st.current, None));
    }

    method LoadFromFile(count: nat) returns (outcome: Outcome)
      requires Valid() && pos == 0
      modifies this
      ensures outcome == Load(count, bytes)
    {
      hide Sum;
      hide Opcode;
      hide ReadNumber;
      hide Run;
      assert Rest() == bytes;
      var magic := Take(|MAGIC|);
      if magic.None? {
        return Unspecified;
      }
      if magic.value != MAGIC {
        return Refused;
      }
      var st := Loader(Flushed(count), 0, None);
      ghost var end := Run(st, Rest());
      var open := true;
      while open && pos < |bytes|
        invariant Valid()
        invariant end == if open then Run(st, Rest()) else Done(st.dbs, Rest())
        decreases |bytes| - pos, open
      {
        RunTurn(st, Rest());
        var opcode := ReadLength(1);
        if opcode == Some(EOF) {
          open := false;
        } else {
          var next := ReadOpcode(st, opcode.value);
          if next.None? {
            return Unspecified;
          }
          st := next.value;
        }
      }
      if open {
        RunEnd(st);
      }
      ghost var rest := Rest();
      assert bytes[..|bytes| - |rest|] == bytes[..pos];
      var sum := checksum;
      var expected := ReadLength(8);
      if expected.None? {
        return Unspecified;
      }
      outcome := if expected.value != 0 && expected.value != Stored(sum) then Corrupt(st.dbs) else Loaded(st.dbs);
    }
  }

  lemma RunTurn(st: Loader, s: string)
    requires s != ""
    ensures ReadNumber(s, 1) == Got(Byte(s[0]), s[1..])
    ensures Run(st, s) == if Byte(s[0]) == EOF then Done(st.dbs, s[1..]) else
      match Opcode(st, Byte(s[0]), s[1..]) case Cut => Undefined case Got(st', rest) => Run(st', rest)
  {
    hide Opcode;
    assert s[..1][1..] == "";
    assert Number(s[..1]) == Byte(s[0]) + 256 * Number("");
  }

  lemma RunEnd(st: Loader)
    ensures Run(st, "") == Done(st.dbs, "")
  {
  }
}

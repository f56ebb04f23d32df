// The binary snapshot: its byte format as functions on strings (one char a byte), and the proof
// that loading what was saved gives back everything that was alive.

module Rdb {
  import opened Wrappers
  import opened Keyspace
  import opened Maps
  import Crc64
  import Seqs

  // ---------- Bytes and checksum ----------

  function Byte(c: char): nat {
    c as int % 256
  }

  function AsBv8(c: char): bv8 {
    Byte(c) as bv8
  }

  function Bytes(s: string): seq<bv8> {
    seq(|s|, i requires 0 <= i < |s| => AsBv8(s[i]))
  }

  // crc64_update over the bytes of s.
  function Sum(checksum: bv64, s: string): bv64 {
    Crc64.TableUpdate(checksum, Bytes(s))
  }

  lemma SumConcat(checksum: bv64, s: string, t: string)
    ensures Sum(checksum, s + t) == Sum(Sum(checksum, s), t)
  {
    assert Bytes(s + t) == Bytes(s) + Bytes(t);
    Crc64.UpdateConcat(checksum, Bytes(s), Bytes(t));
  }

  // ---------- Fixed-width numbers, lowest byte first ----------

  function Little(n: nat, width: nat): (s: string)
    ensures |s| == width
    decreases width
  {
    if width == 0 then "" else [(n % 256) as char] + Little(n / 256, width - 1)
  }

  function Number(s: string): nat
    decreases |s|
  {
    if s == "" then 0 else Byte(s[0]) + 256 * Number(s[1..])
  }

  function Power(width: nat): nat
    decreases width
  {
    if width == 0 then 1 else 256 * Power(width - 1)
  }

  lemma {:induction false} NumberOfLittle(n: nat, width: nat)
    requires n < Power(width)
    ensures Number(Little(n, width)) == n
    decreases width
  {
    if width > 0 {
      NumberOfLittle(n / 256, width - 1);
      assert Little(n, width)[1..] == Little(n / 256, width - 1);
    }
  }

  lemma WordFits(n: Word)
    ensures n < Power(8)
  {
    assert Power(4) == 0x1_0000_0000;
    assert Power(6) == 0x1_0000_0000 * 0x1_0000;
  }

  function U64(n: nat): (s: string)
    ensures |s| == 8
  {
    Little(n, 8)
  }

  // ---------- Records as the file orders them ----------

  // A value with its elements in the order of the file.
  datatype Listing =
    | Text(text: string)
    | Items(items: seq<string>)
    | Fields(fields: seq<(string, string)>)
    | Members(members: seq<string>)
    | Scores(scores: seq<(string, Word)>)

  datatype Record = Record(key: string, listing: Listing, expireMs: Option<Word>)

  datatype Section = Section(index: nat, size: nat, expires: nat, records: seq<Record>)

  const EOF: nat := 255
  const SELECTDB: nat := 254
  const EXPIRETIME: nat := 253
  const EXPIRETIME_MS: nat := 252
  const RESIZEDB: nat := 251

  const TYPE_STRING: nat := 0
  const TYPE_LIST: nat := 1
  const TYPE_SET: nat := 2
  const TYPE_ZSET: nat := 3
  const TYPE_HASH: nat := 4

  const MAGIC: string := "REDIS0009"

  // ---------- Writing ----------

  function Chr(b: nat): string
    requires b < 256
  {
    [b as char]
  }

  function WriteStr(s: string): string {
    U64(|s|) + s
  }

  function WriteField(f: (string, string)): string {
    WriteStr(f.0) + WriteStr(f.1)
  }

  function WriteScore(f: (string, Word)): string {
    WriteStr(f.0) + U64(f.1)
  }

  function Flat<T>(xs: seq<T>, write: T -> string): string
    decreases |xs|
  {
    if xs == [] then "" else write(xs[0]) + Flat(xs[1..], write)
  }

  function WriteMany<T>(xs: seq<T>, write: T -> string): string {
    U64(|xs|) + Flat(xs, write)
  }

  function TypeOf(l: Listing): (b: nat)
    ensures b < 5
  {
    match l
    case Text(_) => TYPE_STRING
    case Items(_) => TYPE_LIST
    case Fields(_) => TYPE_HASH
    case Members(_) => TYPE_SET
    case Scores(_) => TYPE_ZSET
  }

  function WriteListing(l: Listing): string {
    match l
    case Text(text) => WriteStr(text)
    case Items(items) => WriteMany(items, WriteStr)
    case Fields(fields) => WriteMany(fields, WriteField)
    case Members(members) => WriteMany(members, WriteStr)
    case Scores(scores) => WriteMany(scores, WriteScore)
  }

  function WriteExpiry(expireMs: Option<Word>): string {
    if expireMs.None? then "" else Chr(EXPIRETIME_MS) + U64(expireMs.value)
  }

  function WriteEntry(r: Record): string {
    Chr(TypeOf(r.listing)) + (WriteStr(r.key) + WriteListing(r.listing))
  }

  function WriteRecord(r: Record): string {
    WriteExpiry(r.expireMs) + WriteEntry(r)
  }

  function WriteHeader(s: Section): string {
    Chr(SELECTDB) + U64(s.index) + (Chr(RESIZEDB) + (U64(s.size) + U64(s.expires)))
  }

  function WriteSection(s: Section): string {
    WriteHeader(s) + Flat(s.records, WriteRecord)
  }

  function WriteBody(sections: seq<Section>): string {
    Flat(sections, WriteSection) + Chr(EOF)
  }

  function Payload(sections: seq<Section>): string {
    MAGIC + WriteBody(sections)
  }

  function Stored(checksum: bv64): Word {
    checksum as nat
  }

  function File(sections: seq<Section>): string {
    Payload(sections) + U64(Stored(Sum(0, Payload(sections))))
  }

  // ---------- Reading ----------

  datatype Read<+T> = Cut | Got(value: T, rest: string)

  function ReadNumber(s: string, width: nat): (r: Read<nat>)
    ensures r.Got? ==> Seqs.Suffix(r.rest, s)
  {
    if |s| < width then Cut else Got(Number(s[..width]), s[width..])
  }

  function ReadStr(s: string): (r: Read<string>)
    ensures r.Got? ==> Seqs.Suffix(r.rest, s)
  {
    match ReadNumber(s, 8)
    case Cut => Cut
    case Got(n, rest) => if |rest| < n then Cut else Got(rest[..n], rest[n..])
  }

  function ReadField(s: string): (r: Read<(string, string)>)
    ensures r.Got? ==> Seqs.Suffix(r.rest, s)
  {
    match ReadStr(s)
    case Cut => Cut
    case Got(name, rest) =>
      match ReadStr(rest)
      case Cut => Cut
      case Got(value, rest') => Seqs.SuffixTrans(rest', rest, s); Got((name, value), rest')
  }

  function ReadScore(s: string): (r: Read<(string, Word)>)
    ensures r.Got? ==> Seqs.Suffix(r.rest, s)
  {
    match ReadStr(s)
    case Cut => Cut
    case Got(member, rest) =>
      match ReadNumber(rest, 8)
      case Cut => Cut
      case Got(score, rest') => Seqs.SuffixTrans(rest', rest, s); Got((member, score % WORD), rest')
  }

  ghost predicate Reads<T>(read: string -> Read<T>) {
    forall s :: read(s).Got? ==> Seqs.Suffix(read(s).rest, s)
  }

  function ReadTimes<T>(s: string, count: nat, read: string -> Read<T>): (r: Read<seq<T>>)
    ensures r.Got? ==> |r.value| == count
    decreases count
  {
    if count == 0 then Got([], s)
    else match read(s)
      case Cut => Cut
      case Got(x, rest) =>
        match ReadTimes(rest, count - 1, read)
        case Cut => Cut
        case Got(xs, rest') => Got([x] + xs, rest')
  }

  lemma {:induction false} ReadTimesSuffix<T>(s: string, count: nat, read: string -> Read<T>)
    requires Reads(read)
    ensures var r := ReadTimes(s, count, read); r.Got? ==> Seqs.Suffix(r.rest, s)
    decreases count
  {
    if count > 0 && read(s).Got? {
      var rest := read(s).rest;
      ReadTimesSuffix(rest, count - 1, read);
      var r := ReadTimes(s, count, read);
      if r.Got? {
        Seqs.SuffixTrans(r.rest, rest, s);
      }
    }
  }

  function ReadMany<T>(s: string, read: string -> Read<T>): (r: Read<seq<T>>)
    ensures Reads(read) && r.Got? ==> Seqs.Suffix(r.rest, s)
  {
    match ReadNumber(s, 8)
    case Cut => Cut
    case Got(count, rest) =>
      assert Reads(read) && ReadTimes(rest, count, read).Got? ==> Seqs.Suffix(ReadTimes(rest, count, read).rest, s) by {
        if Reads(read) {
          ReadTimesSuffix(rest, count, read);
          if ReadTimes(rest, count, read).Got? {
            Seqs.SuffixTrans(ReadTimes(rest, count, read).rest, rest, s);
          }
        }
      }
      ReadTimes(rest, count, read)
  }

  function Map<S, T>(r: Read<S>, f: S -> T): (m: Read<T>)
    ensures m.Got? == r.Got? && (m.Got? ==> m.value == f(r.value) && m.rest == r.rest)
  {
    match r
    case Cut => Cut
    case Got(x, rest) => Got(f(x), rest)
  }

  // What a value of this type looks like; nothing is read for an unknown type.
  function ReadListing(kind: nat, s: string): (r: Read<Option<Listing>>)
    ensures r.Got? ==> Seqs.Suffix(r.rest, s)
  {
    if kind == TYPE_STRING then Map(ReadStr(s), (t: string) => Some(Text(t)))
    else if kind == TYPE_LIST then Map(ReadMany(s, ReadStr), (xs: seq<string>) => Some(Items(xs)))
    else if kind == TYPE_HASH then Map(ReadMany(s, ReadField), (xs: seq<(string, string)>) => Some(Fields(xs)))
    else if kind == TYPE_SET then Map(ReadMany(s, ReadStr), (xs: seq<string>) => Some(Members(xs)))
    else if kind == TYPE_ZSET then Map(ReadMany(s, ReadScore), (xs: seq<(string, Word)>) => Some(Scores(xs)))
    else Got(None, s)
  }

  // ---------- Loading ----------

  // int currentDb = length, and the 64-bit time as a signed number.
  function Signed(n: nat, half: nat): int
    requires half > 0
  {
    var m := n % (2 * half);
    if m < half then m else m - 2 * half
  }

  const HALF32: nat := 0x8000_0000
  const HALF64: nat := 0x8000_0000_0000_0000

  function Content(l: Listing): Value {
    match l
    case Text(text) => Str(text)
    case Items(items) => List(items)
    case Fields(fields) => Hash(Collect(fields))
    case Members(members) => Set(set x | x in members)
    case Scores(scores) => ZSet(Collect(scores))
  }

  function Put(db: Db, key: string, listing: Option<Listing>, expire: Option<Word>): Db {
    var stored := if listing.Some? then SetObject(db, key, Content(listing.value)) else db;
    if expire.Some? then SetExpiryAt(stored, key, Signed(expire.value, HALF64)) else stored
  }

  datatype Loader = Loader(dbs: seq<Db>, current: int, expire: Option<Word>)

  // One turn of the load loop after its opcode. Cut also stands for a negative database number,
  // with which the program would index outside its vector.
  function Opcode(st: Loader, op: nat, s: string): (r: Read<Loader>)
    ensures r.Got? ==> Seqs.Suffix(r.rest, s)
    ensures r.Got? ==> |r.value.dbs| == |st.dbs|
  {
    if op == SELECTDB then
      Map(ReadNumber(s, 8), (n: nat) => st.(current := Signed(n, HALF32)))
    else if op == RESIZEDB then
      match ReadNumber(s, 8)
      case Cut => Cut
      case Got(_, rest) => Map(ReadNumber(rest, 8), (n: nat) => st)
    else if op == EXPIRETIME then
      Map(ReadNumber(s, 4), (n: nat) => st.(expire := Some(n * 1000 % WORD)))
    else if op == EXPIRETIME_MS then
      Map(ReadNumber(s, 8), (n: nat) => st.(expire := Some(n % WORD)))
    else
      match ReadStr(s)
      case Cut => Cut
      case Got(key, rest) => Entry(st, op, key, rest)
  }

  function Entry(st: Loader, op: nat, key: string, s: string): (r: Read<Loader>)
    ensures r.Got? ==> Seqs.Suffix(r.rest, s)
    ensures r.Got? ==> |r.value.dbs| == |st.dbs|
  {
    if st.current >= |st.dbs| then Got(st, s)
    else if st.current < 0 then Cut
    else match ReadListing(op, s)
      case Cut => Cut
      case Got(listing, rest) =>
        var db := Put(st.dbs[st.current], key, listing, st.expire);
        Got(Loader(st.dbs[st.current := db], st.current, None), rest)
  }

  // The loop's result: the databases, and the input behind the closing opcode.
  datatype End = Undefined | Done(dbs: seq<Db>, rest: string)

  function Run(st: Loader, s: string): (e: End)
    ensures e.Done? ==> Seqs.Suffix(e.rest, s) && |e.dbs| == |st.dbs|
    decreases |s|
  {
    if s == "" then Done(st.dbs, "")
    else if Byte(s[0]) == EOF then Done(st.dbs, s[1..])
    else match Opcode(st, Byte(s[0]), s[1..])
      case Cut => Undefined
      case Got(st', rest) => Run(st', rest)
  }

  datatype Outcome = Unspecified | Refused | Corrupt(dbs: seq<Db>) | Loaded(dbs: seq<Db>)

  function Flushed(count: nat): seq<Db> {
    seq(count, i => EMPTY)
  }

  function Load(count: nat, s: string): Outcome {
    if |s| < |MAGIC| then Unspecified
    else if s[..|MAGIC|] != MAGIC then Refused
    else match Run(Loader(Flushed(count), 0, None), s[|MAGIC|..])
      case Undefined => Unspecified
      case Done(dbs, rest) => Verdict(dbs, Sum(0, s[..|s| - |rest|]), rest)
  }

  // A stored checksum of zero is taken as none.
  function Verdict(dbs: seq<Db>, checksum: bv64, s: string): Outcome {
    match ReadNumber(s, 8)
    case Cut => Unspecified
    case Got(expected, _) =>
      if expected != 0 && expected != Stored(checksum) then Corrupt(dbs) else Loaded(dbs)
  }

  // ---------- What was written is read back ----------

  lemma NumberBack(n: Word, rest: string)
    ensures ReadNumber(U64(n) + rest, 8) == Got(n, rest)
  {
    WordFits(n);
    NumberOfLittle(n, 8);
    assert (U64(n) + rest)[..8] == U64(n) && (U64(n) + rest)[8..] == rest;
  }

  predicate Short(s: string) {
    |s| < WORD
  }

  lemma StrBack(t: string, rest: string)
    requires Short(t)
    ensures ReadStr(WriteStr(t) + rest) == Got(t, rest)
  {
    hide U64;
    hide ReadNumber;
    Seqs.Assoc(U64(|t|), t, rest);
    NumberBack(|t|, t + rest);
    assert (t + rest)[..|t|] == t && (t + rest)[|t|..] == rest;
  }

  predicate ShortField(f: (string, string)) {
    Short(f.0) && Short(f.1)
  }

  lemma FieldBack(f: (string, string), rest: string)
    requires ShortField(f)
    ensures ReadField(WriteField(f) + rest) == Got(f, rest)
  {
    hide WriteStr;
    hide ReadStr;
    Seqs.Assoc(WriteStr(f.0), WriteStr(f.1), rest);
    StrBack(f.0, WriteStr(f.1) + rest);
    StrBack(f.1, rest);
  }

  predicate ShortScore(f: (string, Word)) {
    Short(f.0)
  }

  lemma ScoreBack(f: (string, Word), rest: string)
    requires ShortScore(f)
    ensures ReadScore(WriteScore(f) + rest) == Got(f, rest)
  {
    hide WriteStr;
    hide ReadStr;
    hide U64;
    hide ReadNumber;
    Seqs.Assoc(WriteStr(f.0), U64(f.1), rest);
    StrBack(f.0, U64(f.1) + rest);
    NumberBack(f.1, rest);
  }

  ghost predicate Inverse<T(!new)>(write: T -> string, read: string -> Read<T>, fits: T -> bool) {
    forall x, rest :: fits(x) ==> read(write(x) + rest) == Got(x, rest)
  }

  predicate All<T>(xs: seq<T>, fits: T -> bool) {
    forall j :: 0 <= j < |xs| ==> fits(xs[j])
  }

  lemma {:induction false} TimesBack<T(!new)>(xs: seq<T>, rest: string,
      write: T -> string, read: string -> Read<T>, fits: T -> bool)
    requires Inverse(write, read, fits) && All(xs, fits)
    ensures ReadTimes(Flat(xs, write) + rest, |xs|, read) == Got(xs, rest)
    decreases |xs|
  {
    if xs == [] {
      Seqs.Empty(rest);
    } else {
      Seqs.Assoc(write(xs[0]), Flat(xs[1..], write), rest);
      TimesBack(xs[1..], rest, write, read, fits);
      Seqs.HeadAndTail(xs);
    }
  }

  lemma ManyBack<T(!new)>(xs: seq<T>, rest: string,
      write: T -> string, read: string -> Read<T>, fits: T -> bool)
    requires Inverse(write, read, fits) && All(xs, fits) && |xs| < WORD
    ensures ReadMany(WriteMany(xs, write) + rest, read) == Got(xs, rest)
  {
    hide U64;
    hide ReadNumber;
    hide Flat;
    hide ReadTimes;
    Seqs.Assoc(U64(|xs|), Flat(xs, write), rest);
    NumberBack(|xs|, Flat(xs, write) + rest);
    TimesBack(xs, rest, write, read, fits);
  }

  lemma CodecsAreInverse()
    ensures Inverse(WriteStr, ReadStr, Short)
    ensures Inverse(WriteField, ReadField, ShortField)
    ensures Inverse(WriteScore, ReadScore, ShortScore)
  {
    hide WriteStr;
    hide ReadStr;
    hide WriteField;
    hide ReadField;
    hide WriteScore;
    hide ReadScore;
    forall x: string, rest | Short(x) ensures ReadStr(WriteStr(x) + rest) == Got(x, rest) {
      StrBack(x, rest);
    }
    forall x: (string, string), rest | ShortField(x) ensures ReadField(WriteField(x) + rest) == Got(x, rest) {
      FieldBack(x, rest);
    }
    forall x: (string, Word), rest | ShortScore(x) ensures ReadScore(WriteScore(x) + rest) == Got(x, rest) {
      ScoreBack(x, rest);
    }
  }

  // What can be held in memory: counts and lengths are 64-bit numbers.
  predicate ListingFits(l: Listing) {
    match l
    case Text(text) => Short(text)
    case Items(items) => |items| < WORD && All(items, Short)
    case Fields(fields) => |fields| < WORD && All(fields, ShortField)
    case Members(members) => |members| < WORD && All(members, Short)
    case Scores(scores) => |scores| < WORD && All(scores, ShortScore)
  }

  lemma ListingBack(l: Listing, rest: string)
    requires ListingFits(l)
    ensures ReadListing(TypeOf(l), WriteListing(l) + rest) == Got(Some(l), rest)
  {
    hide WriteStr;
    hide ReadStr;
    hide WriteMany;
    hide ReadMany;
    hide Inverse;
    hide All;
    CodecsAreInverse();
    match l
    case Text(text) => StrBack(text, rest);
    case Items(items) => ManyBack(items, rest, WriteStr, ReadStr, Short);
    case Fields(fields) => ManyBack(fields, rest, WriteField, ReadField, ShortField);
    case Members(members) => ManyBack(members, rest, WriteStr, ReadStr, Short);
    case Scores(scores) => ManyBack(scores, rest, WriteScore, ReadScore, ShortScore);
  }

  predicate RecordFits(r: Record) {
    Short(r.key) && ListingFits(r.listing)
  }

  function Apply(db: Db, r: Record): Db {
    Put(db, r.key, Some(r.listing), r.expireMs)
  }

  function Restore(db: Db, records: seq<Record>): Db
    decreases |records|
  {
    if records == [] then db else Restore(Apply(db, records[0]), records[1..])
  }

  predicate SectionFits(s: Section, count: nat) {
    s.index < count && s.size < WORD && s.expires < WORD && All(s.records, RecordFits)
  }

  predicate AllFit(sections: seq<Section>, count: nat)
    decreases |sections|
  {
    sections == [] || (SectionFits(sections[0], count) && AllFit(sections[1..], count))
  }

  function RestoreAll(dbs: seq<Db>, sections: seq<Section>): (r: seq<Db>)
    requires AllFit(sections, |dbs|)
    ensures |r| == |dbs|
    decreases |sections|
  {
    if sections == [] then dbs
    else
      var s := sections[0];
      RestoreAll(dbs[s.index := Restore(dbs[s.index], s.records)], sections[1..])
  }

  lemma RunOpcode(st: Loader, op: nat, s: string)
    requires op < 256 && op != EOF
    ensures Run(st, Chr(op) + s) ==
      match Opcode(st, op, s) case Cut => Undefined case Got(st', rest) => Run(st', rest)
  {
    hide Opcode;
    var whole := Chr(op) + s;
    assert whole[1..] == s && whole[0] == op as char;
  }

  lemma ExpiryBack(st: Loader, e: Option<Word>, rest: string)
    requires st.expire.None?
    ensures Run(st, WriteExpiry(e) + rest) == Run(st.(expire := e), rest)
  {
    hide Run;
    hide U64;
    hide ReadNumber;
    if e.Some? {
      Seqs.Assoc(Chr(EXPIRETIME_MS), U64(e.value), rest);
      RunOpcode(st, EXPIRETIME_MS, U64(e.value) + rest);
      NumberBack(e.value, rest);
    } else {
      Seqs.Empty(rest);
    }
  }

  lemma EntryBack(st: Loader, r: Record, rest: string)
    requires RecordFits(r) && 0 <= st.current < |st.dbs|
    ensures Run(st, WriteEntry(r) + rest) == Run(
      Loader(st.dbs[st.current := Put(st.dbs[st.current], r.key, Some(r.listing), st.expire)], st.current, None), rest)
  {
    hide Run;
    hide Put;
    hide ReadStr;
    hide WriteStr;
    hide ReadListing;
    hide WriteListing;
    hide ListingFits;
    var key, payload := WriteStr(r.key), WriteListing(r.listing);
    Seqs.Assoc(Chr(TypeOf(r.listing)), key + payload, rest);
    Seqs.Assoc(key, payload, rest);
    RunOpcode(st, TypeOf(r.listing), key + (payload + rest));
    StrBack(r.key, payload + rest);
    ListingBack(r.listing, rest);
  }

  lemma RecordBack(st: Loader, r: Record, rest: string)
    requires RecordFits(r) && 0 <= st.current < |st.dbs| && st.expire.None?
    ensures Run(st, WriteRecord(r) + rest)
         == Run(st.(dbs := st.dbs[st.current := Apply(st.dbs[st.current], r)]), rest)
  {
    hide Run;
    hide Put;
    hide WriteExpiry;
    hide WriteEntry;
    hide RecordFits;
    Seqs.Assoc(WriteExpiry(r.expireMs), WriteEntry(r), rest);
    ExpiryBack(st, r.expireMs, WriteEntry(r) + rest);
    EntryBack(st.(expire := r.expireMs), r, rest);
  }

  lemma {:induction false} RecordsBack(st: Loader, records: seq<Record>, rest: string)
    requires All(records, RecordFits) && 0 <= st.current < |st.dbs| && st.expire.None?
    ensures Run(st, Flat(records, WriteRecord) + rest)
         == Run(st.(dbs := st.dbs[st.current := Restore(st.dbs[st.current], records)]), rest)
    decreases |records|
  {
    hide Run;
    hide Apply;
    hide WriteRecord;
    hide RecordFits;
    if records == [] {
      Seqs.Empty(rest);
      assert st.(dbs := st.dbs[st.current := st.dbs[st.current]]) == st;
    } else {
      var r, others := records[0], Flat(records[1..], WriteRecord);
      Seqs.Assoc(WriteRecord(r), others, rest);
      RecordBack(st, r, others + rest);
      var c, once := st.current, Apply(st.dbs[st.current], r);
      RecordsBack(st.(dbs := st.dbs[c := once]), records[1..], rest);
      var all := Restore(once, records[1..]);
      assert st.dbs[c := once][c := all] == st.dbs[c := all];
    }
  }

  lemma HeaderBack(st: Loader, s: Section, rest: string)
    requires s.index < HALF32 && s.size < WORD && s.expires < WORD
    ensures Run(st, WriteHeader(s) + rest) == Run(st.(current := s.index), rest)
  {
    hide Run;
    hide U64;
    hide ReadNumber;
    var index, size, expires := U64(s.index), U64(s.size), U64(s.expires);
    var resize := Chr(RESIZEDB) + (size + expires);
    Seqs.Assoc(Chr(SELECTDB) + index, resize, rest);
    Seqs.Assoc(Chr(SELECTDB), index, resize + rest);
    Seqs.Assoc(Chr(RESIZEDB), size + expires, rest);
    Seqs.Assoc(size, expires, rest);
    RunOpcode(st, SELECTDB, index + (resize + rest));
    NumberBack(s.index, resize + rest);
    var st' := st.(current := s.index);
    RunOpcode(st', RESIZEDB, size + (expires + rest));
    NumberBack(s.size, expires + rest);
    NumberBack(s.expires, rest);
  }

  lemma SectionBack(st: Loader, s: Section, rest: string)
    requires st.expire.None? && |st.dbs| <= HALF32 && SectionFits(s, |st.dbs|)
    ensures Run(st, WriteSection(s) + rest)
         == Run(Loader(st.dbs[s.index := Restore(st.dbs[s.index], s.records)], s.index, None), rest)
  {
    hide Run;
    hide WriteHeader;
    hide WriteRecord;
    hide Restore;
    hide Flat;
    hide All;
    var records := Flat(s.records, WriteRecord);
    Seqs.Assoc(WriteHeader(s), records, rest);
    HeaderBack(st, s, records + rest);
    RecordsBack(st.(current := s.index), s.records, rest);
  }

  lemma RunEof(st: Loader, rest: string)
    ensures Run(st, Chr(EOF) + rest) == Done(st.dbs, rest)
  {
    hide Opcode;
    var whole := Chr(EOF) + rest;
    assert whole[1..] == rest && whole[0] == EOF as char;
  }

  lemma {:induction false} SectionsBack(st: Loader, sections: seq<Section>, rest: string)
    requires st.expire.None? && |st.dbs| <= HALF32
    requires AllFit(sections, |st.dbs|)
    ensures Run(st, Flat(sections, WriteSection) + (Chr(EOF) + rest)) == Done(RestoreAll(st.dbs, sections), rest)
    decreases |sections|
  {
    hide Run;
    hide WriteSection;
    hide SectionFits;
    hide Restore;
    hide Chr;
    var tail := Chr(EOF) + rest;
    if sections == [] {
      Seqs.Empty(tail);
      RunEof(st, rest);
    } else {
      var s, more := sections[0], Flat(sections[1..], WriteSection);
      Seqs.Assoc(WriteSection(s), more, tail);
      SectionBack(st, s, more + tail);
      IndexFits(s, |st.dbs|);
      var st' := Loader(st.dbs[s.index := Restore(st.dbs[s.index], s.records)], s.index, None);
      SectionsBack(st', sections[1..], rest);
    }
  }

  lemma IndexFits(s: Section, count: nat)
    requires SectionFits(s, count)
    ensures s.index < count
  {
  }

  // The records are applied in order; the stored checksum then decides, and zero stands for none.
  lemma LoadPayload(count: nat, sections: seq<Section>, checksum: Word)
    requires count <= HALF32 && AllFit(sections, count)
    ensures var dbs := RestoreAll(Flushed(count), sections);
      Load(count, Payload(sections) + U64(checksum)) ==
        if checksum == 0 || checksum == Stored(Sum(0, Payload(sections))) then Loaded(dbs) else Corrupt(dbs)
  {
    hide Run;
    hide U64;
    hide ReadNumber;
    hide Sum;
    hide WriteSection;
    var payload := Payload(sections);
    var body := Flat(sections, WriteSection);
    Seqs.Assoc(MAGIC, WriteBody(sections), U64(checksum));
    Seqs.Assoc(body, Chr(EOF), U64(checksum));
    var file := payload + U64(checksum);
    assert file[..|MAGIC|] == MAGIC && file[|MAGIC|..] == WriteBody(sections) + U64(checksum);
    SectionsBack(Loader(Flushed(count), 0, None), sections, U64(checksum));
    assert file[..|file| - 8] == payload;
    Seqs.Empty(U64(checksum));
    NumberBack(checksum, "");
  }

  // Whatever sections are saved, the loader accepts the file and applies the records in order.
  lemma LoadFile(count: nat, sections: seq<Section>)
    requires count <= HALF32 && AllFit(sections, count)
    ensures Load(count, File(sections)) == Loaded(RestoreAll(Flushed(count), sections))
  {
    LoadPayload(count, sections, Stored(Sum(0, Payload(sections))));
  }

  // ---------- Snapshots ----------

  // l is the value v with its elements in some order, each once.
  ghost predicate Spells(l: Listing, v: Value) {
    match v
    case Str(text) => l == Text(text)
    case List(items) => l == Items(items)
    case Hash(fields) => l.Fields? && Enumerates(l.fields, fields)
    case Set(members) => l.Members? && Lists(l.members, members)
    case ZSet(scores) => l.Scores? && Enumerates(l.scores, scores)
  }

  function Keys(records: seq<Record>): (keys: seq<string>)
    ensures |keys| == |records|
  {
    seq(|records|, j requires 0 <= j < |records| => records[j].key)
  }

  ghost predicate Tells(e: Option<Word>, db: Db, key: string) {
    if key in db.expires then e.Some? && e.value == db.expires[key] else e.None?
  }

  ghost predicate RecordOf(r: Record, db: Db) {
    r.key in db.data && Spells(r.listing, db.data[r.key]) && Tells(r.expireMs, db, r.key)
  }

  // The records of everything alive, in some order.
  ghost predicate Dumps(records: seq<Record>, live: Db) {
    && Lists(Keys(records), live.data.Keys)
    && forall j :: 0 <= j < |records| ==> RecordOf(records[j], live)
  }

  ghost predicate SectionOf(s: Section, index: nat, db: Db, now: int) {
    s.index == index && s.size == |db.data| && s.expires == |db.expires| && Dumps(s.records, Live(db, now))
  }

  // One section for every database that is not empty, in order.
  ghost predicate Snapshot(sections: seq<Section>, dbs: seq<Db>, from: nat, now: int)
    requires from <= |dbs|
    decreases |dbs| - from
  {
    if from == |dbs| then sections == []
    else if |dbs[from].data| == 0 then Snapshot(sections, dbs, from + 1, now)
    else
      && sections != []
      && SectionOf(sections[0], from, dbs[from], now)
      && Snapshot(sections[1..], dbs, from + 1, now)
  }

  // What can be held in memory, with 64-bit expiry times.
  ghost predicate ValueFits(v: Value) {
    match v
    case Str(text) => Short(text)
    case List(items) => |items| < WORD && All(items, Short)
    case Hash(fields) => |fields| < WORD && forall k <- fields :: Short(k) && Short(fields[k])
    case Set(members) => |members| < WORD && forall m <- members :: Short(m)
    case ZSet(scores) => |scores| < WORD && forall k <- scores :: Short(k)
  }

  ghost predicate DbFits(db: Db) {
    && |db.data| < WORD && |db.expires| < WORD
    && (forall k <- db.data :: Short(k) && ValueFits(db.data[k]))
    && (forall k <- db.expires :: db.expires[k] < HALF64)
  }

  lemma SpellingDetermines(l: Listing, v: Value)
    requires Spells(l, v)
    ensures Content(l) == v
    ensures ValueFits(v) ==> ListingFits(l)
  {
    match v
    case Hash(fields) => CollectEnumerated(l.fields, fields);
    case ZSet(scores) => CollectEnumerated(l.scores, scores);
    case Set(members) => ListLength(l.members, members);
    case _ =>
  }

  // All there is to know about one key.
  function At(db: Db, key: string): (Option<Value>, Option<int>) {
    (if key in db.data then Some(db.data[key]) else None,
     if key in db.expires then Some(db.expires[key]) else None)
  }

  lemma SameAtEveryKey(a: Db, b: Db)
    requires forall key :: At(a, key) == At(b, key)
    ensures a == b
  {
    forall key
      ensures key in a.data <==> key in b.data
      ensures key in a.data ==> a.data[key] == b.data[key]
      ensures key in a.expires <==> key in b.expires
      ensures key in a.expires ==> a.expires[key] == b.expires[key]
    {
      assert At(a, key) == At(b, key);
    }
    assert a.data == b.data && a.expires == b.expires;
  }

  lemma ApplyAt(db: Db, r: Record, key: string)
    ensures At(Apply(db, r), key) == if key != r.key then At(db, key) else
      (Some(Content(r.listing)), if r.expireMs.None? then None else Some(Signed(r.expireMs.value, HALF64)))
  {
    hide Content;
    hide Signed;
  }

  lemma {:induction false} RestoreAt(db: Db, records: seq<Record>, key: string)
    requires forall j, l :: 0 <= j < l < |records| ==> records[j].key != records[l].key
    ensures (forall j :: 0 <= j < |records| ==> records[j].key != key) ==>
      At(Restore(db, records), key) == At(db, key)
    ensures forall j :: 0 <= j < |records| && records[j].key == key ==>
      At(Restore(db, records), key) == At(Apply(EMPTY, records[j]), key)
    decreases |records|
  {
    hide At;
    hide Apply;
    if records != [] {
      var r, others := records[0], records[1..];
      RestoreAt(Apply(db, r), others, key);
      ApplyAt(db, r, key);
      ApplyAt(EMPTY, r, key);
    }
  }

  lemma DumpedKeys(records: seq<Record>, live: Db, key: string)
    requires Lists(Keys(records), live.data.Keys)
    ensures forall j, l :: 0 <= j < l < |records| ==> records[j].key != records[l].key
    ensures key in live.data ==> exists j :: 0 <= j < |records| && records[j].key == key
    ensures key !in live.data ==> forall j :: 0 <= j < |records| ==> records[j].key != key
  {
    var keys := Keys(records);
    forall j, l | 0 <= j < l < |records| ensures records[j].key != records[l].key {
      assert keys[j] != keys[l];
    }
    forall j | 0 <= j < |records| ensures records[j].key in live.data {
      assert keys[j] in keys;
    }
    if key in live.data {
      assert key in keys;
      var j :| 0 <= j < |records| && keys[j] == key;
      assert records[j].key == key;
    }
  }

  lemma RestoreDumpedAt(records: seq<Record>, live: Db, key: string)
    requires Dumps(records, live) && forall k <- live.expires :: k in live.data && live.expires[k] < HALF64
    ensures At(Restore(EMPTY, records), key) == At(live, key)
  {
    hide Restore;
    hide Apply;
    hide Content;
    hide Spells;
    hide Lists;
    DumpedKeys(records, live, key);
    RestoreAt(EMPTY, records, key);
    if key in live.data {
      var j :| 0 <= j < |records| && records[j].key == key;
      assert RecordOf(records[j], live);
      SpellingDetermines(records[j].listing, live.data[key]);
      ApplyAt(EMPTY, records[j], key);
    }
  }

  lemma RestoreDumped(records: seq<Record>, live: Db)
    requires Dumps(records, live) && forall k <- live.expires :: k in live.data && live.expires[k] < HALF64
    ensures Restore(EMPTY, records) == live
  {
    hide Restore;
    hide Dumps;
    hide At;
    forall key ensures At(Restore(EMPTY, records), key) == At(live, key) {
      RestoreDumpedAt(records, live, key);
    }
    SameAtEveryKey(Restore(EMPTY, records), live);
  }

  lemma DumpFits(records: seq<Record>, db: Db, now: int)
    requires DbFits(db) && Dumps(records, Live(db, now))
    ensures All(records, RecordFits)
  {
    hide Spells;
    hide ValueFits;
    hide ListingFits;
    var live := Live(db, now);
    forall j | 0 <= j < |records| ensures RecordFits(records[j]) {
      var r := records[j];
      assert RecordOf(r, live);
      assert r.key in db.data && live.data[r.key] == db.data[r.key];
      SpellingDetermines(r.listing, db.data[r.key]);
    }
  }

  lemma {:induction false} RestoreSnapshot(sections: seq<Section>, dbs: seq<Db>, from: nat, now: int, before: seq<Db>)
    requires from <= |dbs| == |before| && Snapshot(sections, dbs, from, now)
    requires forall i :: from <= i < |dbs| ==> DbFits(dbs[i])
    requires forall i :: from <= i < |dbs| ==> before[i] == EMPTY
    ensures AllFit(sections, |dbs|)
    ensures forall i :: 0 <= i < |dbs| ==>
      RestoreAll(before, sections)[i] == if i < from then before[i] else Live(dbs[i], now)
    decreases |dbs| - from
  {
    hide DbFits;
    hide Dumps;
    hide Restore;
    if from == |dbs| {
    } else if |dbs[from].data| == 0 {
      assert Live(dbs[from], now) == EMPTY;
      RestoreSnapshot(sections, dbs, from + 1, now, before);
    } else {
      var s, live := sections[0], Live(dbs[from], now);
      SectionOfFits(s, from, dbs[from], now, |dbs|);
      RestoreDumped(s.records, live);
      RestoreSnapshot(sections[1..], dbs, from + 1, now, before[from := live]);
    }
  }

  lemma SectionOfFits(s: Section, index: nat, db: Db, now: int, count: nat)
    requires SectionOf(s, index, db, now) && DbFits(db) && index < count
    ensures SectionFits(s, count)
    ensures forall k <- Live(db, now).expires :: k in Live(db, now).data && Live(db, now).expires[k] < HALF64
  {
    hide Dumps;
    hide ValueFits;
    DumpFits(s.records, db, now);
  }

  // The snapshot theorem: a file saved at time now, in whatever iteration order, loads without a
  // checksum error and gives every key alive at that time its value and its expiry, and nothing else.
  lemma LoadAfterSave(sections: seq<Section>, dbs: seq<Db>, now: int)
    requires Snapshot(sections, dbs, 0, now) && |dbs| <= HALF32
    requires forall i :: 0 <= i < |dbs| ==> DbFits(dbs[i])
    ensures Load(|dbs|, File(sections)) == Loaded(seq(|dbs|, i requires 0 <= i < |dbs| => Live(dbs[i], now)))
  {
    hide Snapshot;
    hide DbFits;
    hide RestoreAll;
    hide Load;
    hide File;
    RestoreSnapshot(sections, dbs, 0, now, Flushed(|dbs|));
    LoadFile(|dbs|, sections);
    assert RestoreAll(Flushed(|dbs|), sections) == seq(|dbs|, i requires 0 <= i < |dbs| => Live(dbs[i], now));
  }

  // ---------- Damaged files ----------

  // A file with one byte of the payload altered is not accepted, unless the stored checksum is zero:
  // where the load still reaches the checksum, it reports the corruption.
  lemma AlteredByteIsNoticed(count: nat, before: string, c: char, d: char, after: string, dbs: seq<Db>)
    requires AsBv8(c) != AsBv8(d)
    requires var sum := Stored(Sum(0, before + [c] + after));
      sum != 0 && |before| >= |MAGIC| && before[..|MAGIC|] == MAGIC
      && Run(Loader(Flushed(count), 0, None), (before + [d] + after + U64(sum))[|MAGIC|..]) == Done(dbs, U64(sum))
    ensures Load(count, before + [d] + after + U64(Stored(Sum(0, before + [c] + after)))) == Corrupt(dbs)
  {
    hide Run;
    hide Sum;
    hide U64;
    hide ReadNumber;
    var sum := Stored(Sum(0, before + [c] + after));
    var payload := before + [d] + after;
    var file := payload + U64(sum);
    assert file[..|MAGIC|] == before[..|MAGIC|];
    assert file[..|file| - 8] == payload;
    SumNotices(before, c, d, after);
    Seqs.Empty(U64(sum));
    NumberBack(sum, "");
  }

  lemma SumNotices(before: string, c: char, d: char, after: string)
    requires AsBv8(c) != AsBv8(d)
    ensures Stored(Sum(0, before + [c] + after)) != Stored(Sum(0, before + [d] + after))
  {
    hide Stored;
    hide Bytes;
    hide AsBv8;
    hide Crc64.TableUpdate;
    BytesAround(before, c, after);
    BytesAround(before, d, after);
    Crc64.ChangedByteIsNoticed(0, Bytes(before), AsBv8(c), AsBv8(d), Bytes(after));
    if Stored(Sum(0, before + [c] + after)) == Stored(Sum(0, before + [d] + after)) {
      StoredDetermines(Sum(0, before + [c] + after), Sum(0, before + [d] + after));
    }
  }

  lemma BytesAround(before: string, c: char, after: string)
    ensures Bytes(before + [c] + after) == Bytes(before) + [AsBv8(c)] + Bytes(after)
  {
    hide AsBv8;
  }

  lemma StoredDetermines(a: bv64, b: bv64)
    requires Stored(a) == Stored(b)
    ensures a == b
  {
    assert (a as nat) as bv64 == a && (b as nat) as bv64 == b;
  }
}

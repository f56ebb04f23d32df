// The bytes of the snapshot format, spelt out, and what the loader does with files that the saver
// never writes.

module RdbFormat {
  import opened Wrappers
  import opened Keyspace
  import opened Rdb
  import Seqs

  type Octet = n: nat | n < 256

  function Codes(bytes: seq<Octet>): (s: string)
    ensures |s| == |bytes|
  {
    seq(|bytes|, i requires 0 <= i < |bytes| => bytes[i] as char)
  }

  lemma CodesConcat(a: seq<Octet>, b: seq<Octet>)
    ensures Codes(a + b) == Codes(a) + Codes(b)
  {
  }

  // ---------- Numbers ----------

  // Byte i of a fixed-width number is its i-th digit to the base 256.
  lemma {:induction false} LittleIsLowFirst(n: nat, width: nat, i: nat)
    requires i < width
    ensures Power(i) > 0 && Little(n, width)[i] as nat == n / Power(i) % 256
    decreases width
  {
    PowerIsPositive(i);
    if i > 0 {
      PowerIsPositive(i - 1);
      LittleIsLowFirst(n / 256, width - 1, i - 1);
      DivideTwice(n, Power(i - 1));
    }
  }

  lemma {:induction false} PowerIsPositive(i: nat)
    ensures Power(i) > 0
  {
    if i > 0 {
      PowerIsPositive(i - 1);
    }
  }

  lemma DivideTwice(n: nat, d: nat)
    requires d > 0
    ensures n / 256 / d == n / (256 * d)
  {
    var q, r := n / 256, n % 256;
    var p, s := q / d, q % d;
    assert n == 256 * d * p + (256 * s + r);
    assert 256 * s + r < 256 * d;
    Quotient(n, 256 * d, p, 256 * s + r);
  }

  lemma Quotient(n: nat, d: nat, q: nat, r: nat)
    requires d > 0 && n == d * q + r && r < d
    ensures n / d == q
  {
    var k, m := n / d - q, n % d;
    assert d * k == r - m;
    AtLeastOnce(d, k);
  }

  lemma AtLeastOnce(d: int, k: int)
    requires d >= 0
    ensures k >= 1 ==> d * k >= d
    ensures k <= -1 ==> d * k <= -d
  {
    if k >= 1 {
      assert d * k == d + d * (k - 1) && d * (k - 1) >= 0;
    } else if k <= -1 {
      assert d * k == -d + d * (k + 1) && d * (k + 1) <= 0;
    }
  }

  lemma {:induction false} LittleZero(width: nat)
    ensures Little(0, width) == seq(width, i => 0 as char)
    decreases width
  {
    if width > 0 {
      LittleZero(width - 1);
    }
  }

  lemma SmallNumber(n: Octet)
    ensures U64(n) == Codes([n, 0, 0, 0, 0, 0, 0, 0])
  {
    LittleZero(7);
    assert U64(n) == [n as char] + Little(n / 256, 7) && n / 256 == 0;
  }

  // ---------- One record of each type ----------

  lemma OneByte(b: Octet)
    ensures Chr(b) == Codes([b])
  {
    assert Codes([b])[0] == Chr(b)[0];
  }

  lemma OneLetter(c: char)
    requires c as nat < 256
    ensures WriteStr([c]) == Codes([1, 0, 0, 0, 0, 0, 0, 0, c as nat])
  {
    SmallNumber(1);
  }

  lemma One<T>(x: T, write: T -> string)
    ensures WriteMany([x], write) == Codes([1, 0, 0, 0, 0, 0, 0, 0]) + write(x)
  {
    hide U64;
    SmallNumber(1);
    assert [x][1..] == [];
    assert Flat([x], write) == write(x) + "";
  }

  // What all records begin with: the type and the key.
  lemma Begins(kind: Octet, listing: Listing, bytes: seq<Octet>)
    requires TypeOf(listing) == kind && WriteListing(listing) == Codes(bytes)
    ensures WriteRecord(Record("k", listing, None)) == Codes([kind, 1, 0, 0, 0, 0, 0, 0, 0, 107] + bytes)
  {
    hide WriteStr;
    hide WriteListing;
    OneByte(kind);
    OneLetter('k');
    CodesConcat([kind], [1, 0, 0, 0, 0, 0, 0, 0, 107] + bytes);
    CodesConcat([1, 0, 0, 0, 0, 0, 0, 0, 107], bytes);
    assert [kind] + ([1, 0, 0, 0, 0, 0, 0, 0, 107] + bytes) == [kind, 1, 0, 0, 0, 0, 0, 0, 0, 107] + bytes;
    Seqs.Empty(WriteEntry(Record("k", listing, None)));
  }

  lemma TextRecord()
    ensures WriteRecord(Record("k", Text("v"), None)) == Codes([0, 1, 0, 0, 0, 0, 0, 0, 0, 107] +
      [1, 0, 0, 0, 0, 0, 0, 0, 118])
  {
    OneLetter('v');
    Begins(0, Text("v"), [1, 0, 0, 0, 0, 0, 0, 0, 118]);
  }

  lemma ItemsRecord()
    ensures WriteRecord(Record("k", Items(["v"]), None)) == Codes([1, 1, 0, 0, 0, 0, 0, 0, 0, 107] +
      [1, 0, 0, 0, 0, 0, 0, 0, 1, 0, 0, 0, 0, 0, 0, 0, 118])
  {
    hide WriteStr;
    hide WriteMany;
    OneLetter('v');
    One("v", WriteStr);
    CodesConcat([1, 0, 0, 0, 0, 0, 0, 0], [1, 0, 0, 0, 0, 0, 0, 0, 118]);
    Begins(1, Items(["v"]), [1, 0, 0, 0, 0, 0, 0, 0] + [1, 0, 0, 0, 0, 0, 0, 0, 118]);
  }

  lemma MembersRecord()
    ensures WriteRecord(Record("k", Members(["v"]), None)) == Codes([2, 1, 0, 0, 0, 0, 0, 0, 0, 107] +
      [1, 0, 0, 0, 0, 0, 0, 0, 1, 0, 0, 0, 0, 0, 0, 0, 118])
  {
    hide WriteStr;
    hide WriteMany;
    OneLetter('v');
    One("v", WriteStr);
    CodesConcat([1, 0, 0, 0, 0, 0, 0, 0], [1, 0, 0, 0, 0, 0, 0, 0, 118]);
    Begins(2, Members(["v"]), [1, 0, 0, 0, 0, 0, 0, 0] + [1, 0, 0, 0, 0, 0, 0, 0, 118]);
  }

  // A score is eight bytes behind its member.
  lemma ScoresRecord()
    ensures WriteRecord(Record("k", Scores([("v", 7)]), None)) == Codes([3, 1, 0, 0, 0, 0, 0, 0, 0, 107] +
      [1, 0, 0, 0, 0, 0, 0, 0, 1, 0, 0, 0, 0, 0, 0, 0, 118, 7, 0, 0, 0, 0, 0, 0, 0])
  {
    hide WriteStr;
    hide WriteMany;
    hide U64;
    var score: (string, Word) := ("v", 7);
    var member, number: seq<Octet> := [1, 0, 0, 0, 0, 0, 0, 0, 118], [7, 0, 0, 0, 0, 0, 0, 0];
    OneLetter('v');
    SmallNumber(7);
    CodesConcat(member, number);
    One(score, WriteScore);
    CodesConcat([1, 0, 0, 0, 0, 0, 0, 0], member + number);
    Begins(3, Scores([score]), [1, 0, 0, 0, 0, 0, 0, 0] + (member + number));
  }

  lemma FieldsRecord()
    ensures WriteRecord(Record("k", Fields([("f", "v")]), None)) == Codes([4, 1, 0, 0, 0, 0, 0, 0, 0, 107] +
      [1, 0, 0, 0, 0, 0, 0, 0, 1, 0, 0, 0, 0, 0, 0, 0, 102, 1, 0, 0, 0, 0, 0, 0, 0, 118])
  {
    hide WriteStr;
    hide WriteMany;
    var name, value: seq<Octet> := [1, 0, 0, 0, 0, 0, 0, 0, 102], [1, 0, 0, 0, 0, 0, 0, 0, 118];
    OneLetter('f');
    OneLetter('v');
    CodesConcat(name, value);
    One(("f", "v"), WriteField);
    CodesConcat([1, 0, 0, 0, 0, 0, 0, 0], name + value);
    Begins(4, Fields([("f", "v")]), [1, 0, 0, 0, 0, 0, 0, 0] + (name + value));
  }

  // The header of a section: its database, the number of its keys and of its expiries.
  lemma HeaderBytes(records: seq<Record>)
    ensures WriteHeader(Section(2, 6, 1, records)) == Codes([
      254, 2, 0, 0, 0, 0, 0, 0, 0, 251, 6, 0, 0, 0, 0, 0, 0, 0, 1, 0, 0, 0, 0, 0, 0, 0])
  {
    hide U64;
    SmallNumber(2);
    SmallNumber(6);
    SmallNumber(1);
  }

  // A record with an expiry is the expiry and the same record.
  lemma EndingRecord(key: string, listing: Listing, at: Word)
    ensures WriteRecord(Record(key, listing, Some(at))) ==
      Codes([252]) + U64(at) + WriteRecord(Record(key, listing, None))
  {
    hide U64;
    hide WriteStr;
    hide WriteListing;
    var entry := WriteEntry(Record(key, listing, None));
    OneByte(252);
    Seqs.Empty(entry);
    assert WriteEntry(Record(key, listing, Some(at))) == entry;
  }

  // A whole file: the magic word, a section with its header and its records in order, the end mark
  // and the checksum of everything before it, lowest byte first.
  lemma FileBytes(a: Record, b: Record)
    ensures var payload := "REDIS0009" +
        Codes([254, 2, 0, 0, 0, 0, 0, 0, 0, 251, 6, 0, 0, 0, 0, 0, 0, 0, 1, 0, 0, 0, 0, 0, 0, 0]) +
        WriteRecord(a) + WriteRecord(b) + Codes([255]);
      File([Section(2, 6, 1, [a, b])]) == payload + U64(Sum(0, payload) as nat)
  {
    hide U64;
    hide WriteHeader;
    hide WriteRecord;
    hide Sum;
    var s := Section(2, 6, 1, [a, b]);
    HeaderBytes([a, b]);
    assert [s][1..] == [] && [a, b][1..] == [b] && [b][1..] == [];
    OneByte(255);
    var header, first, last := WriteHeader(s), WriteRecord(a), WriteRecord(b);
    assert Flat([b], WriteRecord) == last + "";
    assert Flat([a, b], WriteRecord) == first + last;
    assert Flat([s], WriteSection) == header + (first + last) + "";
    assert Payload([s]) == "REDIS0009" + header + first + last + Chr(255);
  }

  // ---------- Files that the saver never writes ----------

  // An expiry in seconds, of four bytes, in a file without a section header and without a checksum:
  // the record goes to the first database and ends after that many thousand milliseconds.
  lemma SecondsAreRead(count: nat, seconds: nat, key: string, listing: Listing)
    requires count > 0 && seconds < 0x1_0000_0000 && RecordFits(Record(key, listing, None))
    ensures var file := "REDIS0009" + (Codes([253]) + Little(seconds, 4) +
        (WriteEntry(Record(key, listing, None)) + (Codes([255]) + U64(0))));
      Load(count, file) == Loaded(Flushed(count)[0 := Db(map[key := Content(listing)], map[key := 1000 * seconds])])
  {
    hide Run;
    hide U64;
    hide ReadNumber;
    hide Sum;
    hide WriteEntry;
    hide Little;
    hide Opcode;
    var r := Record(key, listing, None);
    var tail := Codes([255]) + U64(0);
    var more := WriteEntry(r) + tail;
    var body := Codes([253]) + Little(seconds, 4) + more;
    var file := "REDIS0009" + body;
    var st := Loader(Flushed(count), 0, None);
    OneByte(253);
    OneByte(255);
    Seqs.Assoc(Chr(253), Little(seconds, 4), more);
    RunOpcode(st, 253, Little(seconds, 4) + more);
    SecondsOpcode(st, seconds, more);
    var st' := st.(expire := Some(1000 * seconds));
    EntryBack(st', r, tail);
    var db := Put(EMPTY, key, Some(listing), Some(1000 * seconds));
    RunEof(Loader(st.dbs[0 := db], 0, None), U64(0));
    assert file[..9] == "REDIS0009" && file[9..] == body;
    Seqs.Empty(U64(0));
    NumberBack(0, "");
    assert db == Db(map[key := Content(listing)], map[key := 1000 * seconds]);
  }

  lemma SecondsOpcode(st: Loader, seconds: nat, rest: string)
    requires seconds < 0x1_0000_0000
    ensures Opcode(st, 253, Little(seconds, 4) + rest) == Got(st.(expire := Some(1000 * seconds)), rest)
  {
    assert Power(4) == 0x1_0000_0000;
    NumberOfLittle(seconds, 4);
    var s := Little(seconds, 4) + rest;
    assert s[..4] == Little(seconds, 4) && s[4..] == rest;
  }

  // Another magic word refuses the file before anything is flushed.
  lemma OtherMagicIsRefused(count: nat, s: string)
    requires |s| >= 9
    ensures Load(count, s) == Refused <==> s[..9] != "REDIS0009"
  {
    hide Run;
    hide Sum;
  }

  // A record of no known type, or of a database that there is not: its key is read and nothing is
  // stored. What stands behind the key is read as if it were the next opcode.
  lemma KeyIsPassed(st: Loader, kind: Octet, key: string, rest: string)
    requires kind <= 250 && Short(key) && st.expire.None?
    requires st.current >= |st.dbs| || (kind >= 5 && st.current >= 0)
    ensures Run(st, Codes([kind]) + (WriteStr(key) + rest)) == Run(st, rest)
  {
    hide Run;
    hide WriteStr;
    hide ReadStr;
    OneByte(kind);
    RunOpcode(st, kind, WriteStr(key) + rest);
    StrBack(key, rest);
    if st.current < |st.dbs| {
      assert st.dbs[st.current := st.dbs[st.current]] == st.dbs;
    }
  }
}

// What a database holds: values of five types under string keys, and absolute expiry times.

module Keyspace {
  const WORD: nat := 0x1_0000_0000_0000_0000

  // 64 bits; a score is known by the bit pattern of its double.
  type Word = n: nat | n < 0x1_0000_0000_0000_0000

  // The clock that objects carry for eviction: 32 bits of seconds.
  type Clock = n: nat | n < 0x1_0000_0000

  datatype Value =
    | Str(text: string)
    | List(items: seq<string>)
    | Hash(fields: map<string, string>)
    | Set(members: set<string>)
    | ZSet(scores: map<string, Word>)

  datatype Db = Db(data: map<string, Value>, expires: map<string, int>)

  const EMPTY := Db(map[], map[])

  predicate Expired(db: Db, key: string, now: int) {
    key in db.expires && db.expires[key] <= now
  }

  // Storing a value drops the expiry the key may have had.
  function SetObject(db: Db, key: string, value: Value): Db {
    Db(db.data[key := value], db.expires - {key})
  }

  function SetExpiryAt(db: Db, key: string, at: int): Db {
    if key in db.data then db.(expires := db.expires[key := at]) else db
  }

  function CheckAndExpire(db: Db, key: string, now: int): Db {
    if Expired(db, key, now) then Db(db.data - {key}, db.expires - {key}) else db
  }

  // The part of a database that a reader at this time can see.
  function Live(db: Db, now: int): Db {
    var live := set key | key in db.data && !Expired(db, key, now);
    Db(map key | key in live :: db.data[key], map key | key in live && key in db.expires :: db.expires[key])
  }

  // Milliseconds left, -1 without an expiry and -2 without a value or time left.
  function Pttl(db: Db, key: string, now: int): int {
    if key !in db.data then -2
    else if key !in db.expires then -1
    else if db.expires[key] - now <= 0 then -2
    else db.expires[key] - now
  }
}

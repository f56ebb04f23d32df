// The checksum of the snapshot format: a CRC-64 with reflected bits, computed by table.

module Iteration {
  function Iterate<W>(step: W -> W, x: W, count: nat): W
    decreases count
  {
    if count == 0 then x else Iterate(step, step(x), count - 1)
  }

  // Iterating a step that respects an operation respects it as well.
  lemma {:induction false} IterateRespects<W(!new)>(step: W -> W, op: (W, W) -> W, x: W, y: W, count: nat)
    requires forall a, b :: step(op(a, b)) == op(step(a), step(b))
    ensures Iterate(step, op(x, y), count) == op(Iterate(step, x, count), Iterate(step, y, count))
    decreases count
  {
    if count > 0 {
      IterateRespects(step, op, step(x), step(y), count - 1);
    }
  }

  ghost predicate Stays<W>(here: W -> bool, step: W -> W, x: W, count: nat)
    decreases count
  {
    count == 0 || (here(x) && Stays(here, step, step(x), count - 1))
  }

  // Two steps that agree on some words agree on an iteration that stays among them.
  lemma {:induction false} IterateAgrees<W(!new)>(f: W -> W, g: W -> W, here: W -> bool, x: W, count: nat)
    requires (forall a :: here(a) ==> f(a) == g(a)) && Stays(here, g, x, count)
    ensures Iterate(f, x, count) == Iterate(g, x, count)
    decreases count
  {
    if count > 0 {
      IterateAgrees(f, g, here, g(x), count - 1);
    }
  }

  lemma {:induction false} IterateIsInjective<W(!new)>(step: W -> W, x: W, y: W, count: nat)
    requires forall a, b :: step(a) == step(b) ==> a == b
    requires Iterate(step, x, count) == Iterate(step, y, count)
    ensures x == y
    decreases count
  {
    if count > 0 {
      IterateIsInjective(step, step(x), step(y), count - 1);
    }
  }
}

// Facts about 64-bit words, proved bit by bit and used as laws.
module Words {
  function Xor(x: bv64, y: bv64): bv64 {
    x ^ y
  }

  function Half(x: bv64): bv64 {
    x >> 1
  }

  predicate Odd(x: bv64) {
    x & 1 == 1
  }

  function LowByte(x: bv64): bv64 {
    x & 0xff
  }

  function WithoutLowByte(x: bv64): bv64 {
    x >> 8
  }

  function HighPart(x: bv64): bv64 {
    x & 0xffff_ffff_ffff_ff00
  }

  predicate Even(x: bv64) {
    !Odd(x)
  }

  predicate TopBit(x: bv64) {
    x >> 63 == 1
  }

  lemma HalfOfXor(x: bv64, y: bv64)
    ensures Half(Xor(x, y)) == Xor(Half(x), Half(y))
  {
  }

  lemma OddOfXor(x: bv64, y: bv64)
    ensures Odd(Xor(x, y)) == (Odd(x) != Odd(y))
  {
  }

  lemma XorCancels(a: bv64, b: bv64, p: bv64)
    ensures Xor(Xor(a, p), Xor(b, p)) == Xor(a, b)
  {
    assert (a ^ p) ^ (b ^ p) == a ^ b;
  }

  lemma XorCommutes(a: bv64, b: bv64)
    ensures Xor(a, b) == Xor(b, a)
  {
  }

  lemma XorMovesOut(a: bv64, b: bv64, p: bv64)
    ensures Xor(Xor(a, p), b) == Xor(Xor(a, b), p)
  {
    hide Xor;
    XorCommutes(Xor(a, p), b);
    XorMovesIn(b, a, p);
    XorCommutes(a, b);
  }

  lemma XorMovesIn(a: bv64, b: bv64, p: bv64)
    ensures Xor(a, Xor(b, p)) == Xor(Xor(a, b), p)
  {
    assert a ^ (b ^ p) == (a ^ b) ^ p;
  }

  lemma XorZero(x: bv64)
    ensures Xor(x, 0) == x
  {
  }

  lemma SplitWord(x: bv64)
    ensures x == Xor(LowByte(x), HighPart(x))
    ensures LowByte(HighPart(x)) == 0
    ensures WithoutLowByte(HighPart(x)) == WithoutLowByte(x)
  {
  }

  lemma ByteIsShort(byte: bv8)
    ensures WithoutLowByte(byte as bv64) == 0
  {
  }

  lemma WithoutLowByteOfXor(crc: bv64, byte: bv64)
    requires WithoutLowByte(byte) == 0
    ensures WithoutLowByte(Xor(crc, byte)) == WithoutLowByte(crc)
  {
  }

  lemma HalvesMakeByte(x: bv64)
    ensures Half(Half(Half(Half(Half(Half(Half(Half(x)))))))) == WithoutLowByte(x)
  {
  }

  lemma EvenHalves(x: bv64)
    requires LowByte(x) == 0
    ensures Even(x) && Even(Half(x)) && Even(Half(Half(x))) && Even(Half(Half(Half(x))))
    ensures Even(Half(Half(Half(Half(x))))) && Even(Half(Half(Half(Half(Half(x))))))
    ensures Even(Half(Half(Half(Half(Half(Half(x)))))))
    ensures Even(Half(Half(Half(Half(Half(Half(Half(x))))))))
  {
  }

  lemma HalfHasNoTopBit(x: bv64)
    ensures !TopBit(Half(x))
  {
  }

  lemma HalfAndOddDetermine(x: bv64, y: bv64)
    requires Half(x) == Half(y) && Odd(x) == Odd(y)
    ensures x == y
  {
  }

  lemma XorDetermines(x: bv64, y: bv64, p: bv64)
    requires Xor(x, p) == Xor(y, p) || Xor(p, x) == Xor(p, y)
    ensures x == y
  {
  }

  lemma BytesDiffer(byte: bv8, other: bv8)
    requires byte as bv64 == other as bv64
    ensures byte == other
  {
  }

  lemma IndexOfWord(x: bv64)
    requires x <= 0xff
    ensures 0 <= x as int < 256 && (x as int) as bv64 == x
  {
  }

  lemma LowByteIsSmall(x: bv64)
    ensures LowByte(x) <= 0xff
  {
  }
}

module Crc64 {
  import opened Iteration
  import opened Words
  import Seqs

  const POLY: bv64 := 0xad93_d235_94bc_8429

  // ---------- The definition: one message bit at a time, lowest bit of each byte first ----------

  // The bit leaving the register, together with the message bit, decides on the feedback.
  function FeedBit(crc: bv64, bit: bool): bv64 {
    Feedback(Half(crc), Odd(crc) != bit)
  }

  function Feedback(shifted: bv64, out: bool): bv64 {
    if out then Xor(shifted, POLY) else shifted
  }

  function FeedBits(crc: bv64, byte: bv64, count: nat): bv64
    decreases count
  {
    if count == 0 then crc
    else FeedBits(FeedBit(crc, Odd(byte)), Half(byte), count - 1)
  }

  function Bitwise(crc: bv64, s: seq<bv8>): bv64
    decreases |s|
  {
    if s == [] then crc else Bitwise(FeedBits(crc, s[0] as bv64, 8), s[1..])
  }

  // ---------- The table ----------

  // One step of the register without input.
  function Shift(crc: bv64): bv64 {
    Feedback(Half(crc), Odd(crc))
  }

  // What init_crc64 stores at index i.
  function Entry(i: bv64): bv64 {
    Iterate(Shift, i, 8)
  }

  // What crc64_update does with one byte.
  function TableByte(crc: bv64, byte: bv8): bv64 {
    Xor(Entry(LowByte(Xor(crc, byte as bv64))), WithoutLowByte(crc))
  }

  function TableUpdate(crc: bv64, s: seq<bv8>): bv64
    decreases |s|
  {
    if s == [] then crc else TableUpdate(TableByte(crc, s[0]), s[1..])
  }

  // ---------- Stepping the register is linear ----------

  lemma FeedbackOfXor(a: bv64, b: bv64, p: bool, q: bool)
    ensures Feedback(Xor(a, b), p != q) == Xor(Feedback(a, p), Feedback(b, q))
    ensures Xor(Feedback(a, p), b) == Feedback(Xor(a, b), p)
  {
    hide Xor;
    XorCancels(a, b, POLY);
    XorMovesOut(a, b, POLY);
    XorMovesIn(a, b, POLY);
  }

  lemma ShiftOfXor(x: bv64, y: bv64)
    ensures Shift(Xor(x, y)) == Xor(Shift(x), Shift(y))
  {
    hide Xor;
    hide Half;
    hide Odd;
    hide Feedback;
    HalfOfXor(x, y);
    OddOfXor(x, y);
    FeedbackOfXor(Half(x), Half(y), Odd(x), Odd(y));
  }

  lemma EntryOfXor(x: bv64, y: bv64)
    ensures Entry(Xor(x, y)) == Xor(Entry(x), Entry(y))
  {
    hide Xor;
    hide Shift;
    hide Iterate;
    forall a, b ensures Shift(Xor(a, b)) == Xor(Shift(a), Shift(b)) {
      ShiftOfXor(a, b);
    }
    IterateRespects(Shift, Xor, x, y, 8);
  }

  // Feeding a bit is stepping the register after adding the byte to it.
  lemma FeedIsShift(crc: bv64, byte: bv64)
    ensures Xor(FeedBit(crc, Odd(byte)), Half(byte)) == Shift(Xor(crc, byte))
  {
    hide Xor;
    hide Half;
    hide Odd;
    hide Feedback;
    HalfOfXor(crc, byte);
    OddOfXor(crc, byte);
    FeedbackOfXor(Half(crc), Half(byte), Odd(crc) != Odd(byte), false);
  }

  ghost predicate FitsIn(byte: bv64, count: nat)
    decreases count
  {
    if count == 0 then byte == 0 else FitsIn(Half(byte), count - 1)
  }

  lemma {:induction false} FeedBitsIsIterate(crc: bv64, byte: bv64, count: nat)
    requires FitsIn(byte, count)
    ensures FeedBits(crc, byte, count) == Iterate(Shift, Xor(crc, byte), count)
    decreases count
  {
    hide Xor;
    hide Half;
    hide Odd;
    hide FeedBit;
    hide Shift;
    if count == 0 {
      XorZero(crc);
    } else {
      FeedIsShift(crc, byte);
      FeedBitsIsIterate(FeedBit(crc, Odd(byte)), Half(byte), count - 1);
    }
  }

  lemma ByteFits(byte: bv64)
    requires WithoutLowByte(byte) == 0
    ensures FitsIn(byte, 8)
  {
    hide Half;
    var b2, b4 := Half(Half(byte)), Half(Half(Half(Half(byte))));
    var b6 := Half(Half(b4));
    HalvesMakeByte(byte);
    assert FitsIn(b6, 2);
    assert FitsIn(b4, 4);
    assert FitsIn(b2, 6);
  }

  // ---------- Words whose low byte is zero are only shifted ----------

  lemma EntryOfHigh(x: bv64)
    requires LowByte(x) == 0
    ensures Entry(x) == WithoutLowByte(x)
  {
    hide Odd;
    hide Half;
    hide LowByte;
    hide WithoutLowByte;
    EvenEightTimes(x);
    IterateAgrees(Shift, Half, Even, x, 8);
    HalfEightTimes(x);
  }

  lemma EvenEightTimes(x: bv64)
    requires LowByte(x) == 0
    ensures Stays(Even, Half, x, 8)
  {
    hide Half;
    hide Even;
    EvenHalves(x);
    var x2 := Half(Half(x));
    var x4 := Half(Half(x2));
    var x6 := Half(Half(x4));
    assert Stays(Even, Half, x6, 2);
    assert Stays(Even, Half, x4, 4);
    assert Stays(Even, Half, x2, 6);
  }

  lemma HalfEightTimes(x: bv64)
    ensures Iterate(Half, x, 8) == WithoutLowByte(x)
  {
    hide Half;
    hide WithoutLowByte;
    HalvesMakeByte(x);
    var x2 := Half(Half(x));
    var x4 := Half(Half(x2));
    var x6 := Half(Half(x4));
    assert Iterate(Half, x, 8) == Iterate(Half, x2, 6) == Iterate(Half, x4, 4);
    assert Iterate(Half, x4, 4) == Iterate(Half, x6, 2) == Iterate(Half, Half(Half(x6)), 0);
  }

  // ---------- The table computes the bitwise CRC ----------

  // Only the low byte meets the table, the rest of the register is shifted as it is.
  lemma EntryOfWord(x: bv64)
    ensures Entry(x) == Xor(Entry(LowByte(x)), WithoutLowByte(x))
  {
    hide Entry;
    hide Xor;
    hide LowByte;
    hide HighPart;
    hide WithoutLowByte;
    SplitWord(x);
    EntryOfXor(LowByte(x), HighPart(x));
    EntryOfHigh(HighPart(x));
  }

  lemma TableByteIsBitwise(crc: bv64, byte: bv8)
    ensures TableByte(crc, byte) == FeedBits(crc, byte as bv64, 8)
  {
    hide FeedBits;
    hide Shift;
    hide Iterate;
    hide Xor;
    hide LowByte;
    hide WithoutLowByte;
    var b := byte as bv64;
    ByteIsShort(byte);
    EntryOfWord(Xor(crc, b));
    WithoutLowByteOfXor(crc, b);
    ByteFits(b);
    FeedBitsIsIterate(crc, b, 8);
  }

  // The same checksum from every starting value.
  lemma {:induction false} TableIsBitwise(crc: bv64, s: seq<bv8>)
    ensures TableUpdate(crc, s) == Bitwise(crc, s)
    decreases |s|
  {
    hide TableByte;
    hide FeedBits;
    if s != [] {
      TableByteIsBitwise(crc, s[0]);
      TableIsBitwise(TableByte(crc, s[0]), s[1..]);
    }
  }

  // A checksum can be kept up to date piece by piece.
  lemma {:induction false} UpdateConcat(crc: bv64, s: seq<bv8>, t: seq<bv8>)
    ensures TableUpdate(crc, s + t) == TableUpdate(TableUpdate(crc, s), t)
    decreases |s|
  {
    hide TableByte;
    if s == [] {
      Seqs.Empty(t);
    } else {
      assert (s + t)[1..] == s[1..] + t;
      UpdateConcat(TableByte(crc, s[0]), s[1..], t);
    }
  }

  // ---------- A changed byte is always noticed ----------

  // The feedback sets the top bit, which a halved word never has.
  lemma FeedbackShows(shifted: bv64)
    requires !TopBit(shifted)
    ensures TopBit(Xor(shifted, POLY))
  {
  }

  lemma ShiftIsInjective(x: bv64, y: bv64)
    requires Shift(x) == Shift(y)
    ensures x == y
  {
    hide Xor;
    hide Half;
    hide Odd;
    hide TopBit;
    HalfHasNoTopBit(x);
    HalfHasNoTopBit(y);
    FeedbackShows(Half(x));
    FeedbackShows(Half(y));
    if Odd(x) && Odd(y) {
      XorDetermines(Half(x), Half(y), POLY);
    }
    HalfAndOddDetermine(x, y);
  }

  lemma FeedIsInjective(crc: bv64, d: bv64, byte: bv8, other: bv8)
    requires FeedBits(crc, byte as bv64, 8) == FeedBits(d, other as bv64, 8)
    ensures crc == d ==> byte == other
    ensures byte == other ==> crc == d
  {
    hide FeedBits;
    hide Shift;
    hide Xor;
    hide WithoutLowByte;
    var b, c := byte as bv64, other as bv64;
    ByteIsShort(byte);
    ByteIsShort(other);
    ByteFits(b);
    ByteFits(c);
    FeedBitsIsIterate(crc, b, 8);
    FeedBitsIsIterate(d, c, 8);
    forall x, y ensures Shift(x) == Shift(y) ==> x == y {
      if Shift(x) == Shift(y) {
        ShiftIsInjective(x, y);
      }
    }
    IterateIsInjective(Shift, Xor(crc, b), Xor(d, c), 8);
    if crc == d {
      XorDetermines(b, c, crc);
      BytesDiffer(byte, other);
    }
    if byte == other {
      XorDetermines(crc, d, b);
    }
  }

  lemma {:induction false} UpdateIsInjective(crc: bv64, d: bv64, s: seq<bv8>)
    requires TableUpdate(crc, s) == TableUpdate(d, s)
    ensures crc == d
    decreases |s|
  {
    hide TableByte;
    hide FeedBits;
    if s != [] {
      UpdateIsInjective(TableByte(crc, s[0]), TableByte(d, s[0]), s[1..]);
      TableByteIsBitwise(crc, s[0]);
      TableByteIsBitwise(d, s[0]);
      FeedIsInjective(crc, d, s[0], s[0]);
    }
  }

  // Two messages that differ in a single byte never have the same checksum.
  lemma ChangedByteIsNoticed(crc: bv64, before: seq<bv8>, byte: bv8, other: bv8, rest: seq<bv8>)
    requires byte != other
    ensures TableUpdate(crc, before + [byte] + rest) != TableUpdate(crc, before + [other] + rest)
  {
    hide TableByte;
    hide FeedBits;
    var state := TableUpdate(crc, before);
    UpdateOneMore(crc, before, byte, rest);
    UpdateOneMore(crc, before, other, rest);
    if TableUpdate(crc, before + [byte] + rest) == TableUpdate(crc, before + [other] + rest) {
      UpdateIsInjective(TableByte(state, byte), TableByte(state, other), rest);
      TableByteIsBitwise(state, byte);
      TableByteIsBitwise(state, other);
      FeedIsInjective(state, state, byte, other);
    }
  }

  lemma UpdateOneMore(crc: bv64, before: seq<bv8>, byte: bv8, rest: seq<bv8>)
    ensures TableUpdate(crc, before + [byte] + rest)
         == TableUpdate(TableByte(TableUpdate(crc, before), byte), rest)
  {
    hide TableByte;
    UpdateConcat(crc, before + [byte], rest);
    UpdateConcat(crc, before, [byte]);
    assert TableUpdate(TableUpdate(crc, before), [byte]) == TableByte(TableUpdate(crc, before), byte);
  }

  // ---------- The code ----------

  ghost predicate IsTable(tab: seq<bv64>) {
    |tab| == 256 && forall i :: 0 <= i < 256 ==> tab[i] == Entry(i as bv64)
  }

  method InitEntry(i: nat) returns (crc: bv64)
    requires i < 256
    ensures crc == Entry(i as bv64)
  {
    hide Odd;
    hide Half;
    hide Xor;
    crc := i as bv64;
    for j := 0 to 8
      invariant Iterate(Shift, crc, 8 - j) == Entry(i as bv64)
    {
      if Odd(crc) {
        crc := Xor(Half(crc), POLY);
      } else {
        crc := Half(crc);
      }
    }
  }

  method InitTable() returns (tab: array<bv64>)
    ensures fresh(tab) && IsTable(tab[..])
  {
    hide Entry;
    tab := new bv64[256];
    for i := 0 to 256
      invariant forall k :: 0 <= k < i ==> tab[k] == Entry(k as bv64)
    {
      tab[i] := InitEntry(i);
    }
  }

  method Update(tab: array<bv64>, start: bv64, s: seq<bv8>) returns (crc: bv64)
    requires IsTable(tab[..])
    ensures crc == Bitwise(start, s) == TableUpdate(start, s)
  {
    hide Entry;
    hide Xor;
    hide LowByte;
    hide WithoutLowByte;
    crc := start;
    ghost var rest := s;
    for k := 0 to |s|
      invariant rest == s[k..] && TableUpdate(crc, rest) == TableUpdate(start, s)
    {
      var index := LowByte(Xor(crc, s[k] as bv64));
      LowByteIsSmall(Xor(crc, s[k] as bv64));
      IndexOfWord(index);
      assert tab[..][index as int] == tab[index as int];
      rest := rest[1..];
      crc := Xor(tab[index as int], WithoutLowByte(crc));
    }
    TableIsBitwise(start, s);
  }

  // The byte whose lowest bit but seven is set drives the polynomial into the empty register.
  lemma PolynomialIsSeen()
    ensures TableUpdate(0, [0x80]) == 0xad93_d235_94bc_8429
  {
    hide Xor;
    assert [0x80 as bv8][1..] == [];
    TableIsBitwise(0, [0x80]);
    OneBitLeft();
  }

  lemma OneBitLeft()
    ensures Bitwise(0, [0x80]) == POLY
  {
    assert [0x80 as bv8][1..] == [];
    hide Xor;
    XorZero(POLY);
    XorCommutes(POLY, 0);
    assert FeedBit(0, false) == 0 && FeedBit(0, true) == POLY;
    SevenZeros(0x80, 0x40, 0x20, 0x10, 0x08, 0x04, 0x02, 0x01);
  }

  lemma SevenZeros(a: bv64, b: bv64, c: bv64, d: bv64, e: bv64, f: bv64, g: bv64, h: bv64)
    requires a == 0x80 && b == 0x40 && c == 0x20 && d == 0x10 && e == 8 && f == 4 && g == 2 && h == 1
    requires FeedBit(0, false) == 0 && FeedBit(0, true) == POLY
    ensures FeedBits(0, 0x80, 8) == POLY
  {
    hide FeedBit;
    assert Half(a) == b && Half(b) == c && Half(c) == d && Half(d) == e && Half(e) == f && Half(f) == g && Half(g) == h;
    assert !Odd(a) && !Odd(b) && !Odd(c) && !Odd(d) && !Odd(e) && !Odd(f) && !Odd(g) && Odd(h);
    assert FeedBits(0, h, 1) == FeedBits(POLY, Half(h), 0);
    assert FeedBits(0, e, 4) == FeedBits(0, f, 3) == FeedBits(0, g, 2) == FeedBits(0, h, 1);
    assert FeedBits(0, a, 8) == FeedBits(0, b, 7) == FeedBits(0, c, 6) == FeedBits(0, d, 5) == FeedBits(0, e, 4);
  }
}

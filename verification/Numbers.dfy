// Decimal text for 64-bit integers: std::to_string, std::from_chars and std::stoll.

module Numbers {
  import opened Wrappers

  const INT64_MAX: int := 0x7fff_ffff_ffff_ffff
  const INT64_MIN: int := -0x8000_0000_0000_0000

  predicate IsInt64(n: int) {
    INT64_MIN <= n <= INT64_MAX
  }

  predicate IsDigit(c: char) {
    '0' <= c <= '9'
  }

  function Digit(c: char): nat
    requires IsDigit(c)
  {
    c as int - '0' as int
  }

  function DigitChar(d: nat): (c: char)
    requires d < 10
    ensures IsDigit(c) && Digit(c) == d
  {
    (d + '0' as int) as char
  }

  // The number of digits at the front of s.
  function DigitRun(s: string): (n: nat)
    ensures n <= |s|
  {
    if s == "" || !IsDigit(s[0]) then 0 else 1 + DigitRun(s[1..])
  }

  predicate AllDigits(s: string) {
    forall i :: 0 <= i < |s| ==> IsDigit(s[i])
  }

  lemma {:induction false} DigitRunDigits(s: string)
    ensures AllDigits(s[..DigitRun(s)])
    ensures AllDigits(s) ==> DigitRun(s) == |s|
  {
    if s != "" && IsDigit(s[0]) {
      DigitRunDigits(s[1..]);
      var n := DigitRun(s[1..]);
      assert s[..n + 1] == [s[0]] + s[1..][..n];
    }
  }

  function Value(s: string): (n: nat)
    requires AllDigits(s)
  {
    if s == "" then 0 else 10 * Value(s[..|s| - 1]) + Digit(s[|s| - 1])
  }

  // An optional sign character consumed by the caller, then digits; what follows them is ignored.
  function Magnitude(negative: bool, s: string): (r: Option<int>) {
    DigitRunDigits(s);
    var n := DigitRun(s);
    var v: int := Value(s[..n]);
    var signed := if negative then -v else v;
    if n > 0 && IsInt64(signed) then Some(signed) else None
  }

  // std::from_chars takes a minus sign but neither white space nor a plus sign.
  function FromChars(s: string): Option<int> {
    if s != "" && s[0] == '-' then Magnitude(true, s[1..]) else Magnitude(false, s)
  }

  predicate IsSpace(c: char) {
    c == ' ' || 9 <= c as int <= 13
  }

  // std::stoll skips white space first and takes either sign.
  function Stoll(s: string): Option<int> {
    if s == "" then None
    else if IsSpace(s[0]) then Stoll(s[1..])
    else if s[0] == '-' then Magnitude(true, s[1..])
    else if s[0] == '+' then Magnitude(false, s[1..])
    else Magnitude(false, s)
  }

  // How the parser reads a length or an integer: from_chars, and stoll if that fails.
  function ParseNumber(s: string): Option<int> {
    var n := FromChars(s);
    if n.Some? then n else Stoll(s)
  }

  // std::to_string
  function Decimal(n: int): (s: string)
    ensures s != "" && (s[0] == '-' || IsDigit(s[0]))
  {
    if n < 0 then "-" + Digits(-n) else Digits(n)
  }

  function Digits(n: nat): (s: string)
    ensures AllDigits(s) && s != ""
  {
    if n < 10 then [DigitChar(n)] else Digits(n / 10) + [DigitChar(n % 10)]
  }

  lemma {:induction false} ValueOfDigits(n: nat)
    ensures Value(Digits(n)) == n
  {
    if n >= 10 {
      ValueOfDigits(n / 10);
      var s := Digits(n);
      assert s[..|s| - 1] == Digits(n / 10);
    }
  }

  // The value of a row of digits is read to the base ten, the lowest digit last.
  lemma {:induction false} ValueIsDecimal(s: string, t: string)
    requires AllDigits(s) && AllDigits(t)
    ensures AllDigits(s + t) && Value(s + t) == Times(Value(s), TenTo(|t|)) + Value(t)
    decreases |t|
  {
    hide Times;
    if t == "" {
      assert s + t == s;
      TimesTen(Value(s), 1, 0, 0);
    } else {
      var u, last := t[..|t| - 1], t[|t| - 1];
      ValueIsDecimal(s, u);
      assert (s + t)[..|s + t| - 1] == s + u;
      TimesTen(Value(s), TenTo(|u|), Value(u), last as int - '0' as int);
    }
  }

  function Times(a: int, b: int): int {
    a * b
  }

  lemma TimesTen(a: int, b: int, v: int, d: int)
    ensures 10 * (Times(a, b) + v) + d == Times(a, 10 * b) + (10 * v + d)
    ensures Times(a, 1) == a
  {
  }

  function TenTo(n: nat): nat {
    if n == 0 then 1 else 10 * TenTo(n - 1)
  }

  // Every 64-bit integer survives the way through its decimal text, for both readers.
  lemma DecimalRoundTrip(n: int)
    requires IsInt64(n)
    ensures FromChars(Decimal(n)) == Some(n) && Stoll(Decimal(n)) == Some(n)
    ensures ParseNumber(Decimal(n)) == Some(n)
  {
    var m := if n < 0 then -n else n;
    var s := Digits(m);
    ValueOfDigits(m);
    DigitRunDigits(s);
    assert s[..|s|] == s;
    if n < 0 {
      assert Decimal(n)[1..] == s;
    }
  }

  // What a text is for std::from_chars: digits, perhaps behind a minus sign, and then anything
  // that is no digit.
  lemma FromCharsReads(n: int, rest: string)
    requires n >= 0 && (rest != "" ==> !IsDigit(rest[0]))
    ensures FromChars(Digits(n) + rest) == if n <= 0x7fff_ffff_ffff_ffff then Some(n) else None
    ensures FromChars("-" + Digits(n) + rest) == if n <= 0x8000_0000_0000_0000 then Some(-n) else None
  {
    MagnitudeReads(n, rest);
    assert (Digits(n) + rest)[0] == Digits(n)[0] != '-';
    assert ("-" + Digits(n) + rest)[1..] == Digits(n) + rest;
  }

  lemma MagnitudeReads(n: int, rest: string)
    requires n >= 0 && (rest != "" ==> !IsDigit(rest[0]))
    ensures Magnitude(false, Digits(n) + rest) == if n <= INT64_MAX then Some(n) else None
    ensures Magnitude(true, Digits(n) + rest) == if -n >= INT64_MIN then Some(-n) else None
  {
    DigitRunStops(Digits(n), rest);
    ValueOfDigits(n);
    assert (Digits(n) + rest)[..|Digits(n)|] == Digits(n);
  }

  lemma {:induction false} DigitRunStops(s: string, rest: string)
    requires AllDigits(s) && (rest != "" ==> !IsDigit(rest[0]))
    ensures DigitRun(s + rest) == |s|
  {
    if s == "" {
      assert s + rest == rest;
    } else {
      assert (s + rest)[1..] == s[1..] + rest;
      DigitRunStops(s[1..], rest);
    }
  }

  lemma {:induction false} SpaceIsSkipped(space: string, s: string)
    requires forall i :: 0 <= i < |space| ==> space[i] == ' ' || 9 <= space[i] as int <= 13
    ensures Stoll(space + s) == Stoll(s)
    decreases |space|
  {
    if space == "" {
      assert space + s == s;
    } else {
      assert (space + s)[1..] == space[1..] + s;
      SpaceIsSkipped(space[1..], s);
    }
  }

  // std::stoll takes white space in front and either sign.
  lemma StollReads(space: string, n: int, rest: string)
    requires forall i :: 0 <= i < |space| ==> space[i] == ' ' || 9 <= space[i] as int <= 13
    requires n >= 0 && (rest != "" ==> !IsDigit(rest[0]))
    ensures Stoll(space + (Digits(n) + rest)) == if n <= 0x7fff_ffff_ffff_ffff then Some(n) else None
    ensures Stoll(space + (['+'] + (Digits(n) + rest))) == if n <= 0x7fff_ffff_ffff_ffff then Some(n) else None
    ensures Stoll(space + (['-'] + (Digits(n) + rest))) == if n <= 0x8000_0000_0000_0000 then Some(-n) else None
  {
    var digits := Digits(n) + rest;
    SpaceIsSkipped(space, digits);
    SpaceIsSkipped(space, ['+'] + digits);
    SpaceIsSkipped(space, ['-'] + digits);
    hide Magnitude;
    MagnitudeReads(n, rest);
    assert digits[0] == Digits(n)[0];
    assert (['+'] + digits)[1..] == digits && (['-'] + digits)[1..] == digits;
  }

  // Without a digit in that place there is no number.
  lemma NoDigitNoNumber(space: string, s: string)
    requires forall i :: 0 <= i < |space| ==> space[i] == ' ' || 9 <= space[i] as int <= 13
    requires s != "" ==> s[0] != '-' && s[0] != '+' && s[0] != ' ' && !(9 <= s[0] as int <= 13) && !IsDigit(s[0])
    ensures Stoll(space + s) == None && FromChars(s) == None
  {
    SpaceIsSkipped(space, s);
  }
}

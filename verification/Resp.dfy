// The RESP wire format as functions on strings: what the parser reads from the front of its
// input, what the serializer writes, and how the two fit together.

module Resp {
  import opened Wrappers
  import opened Numbers
  import Seqs

  datatype RespValue =
    | SimpleString(text: string)
    | Error(text: string)
    | Integer(n: int)
    | BulkString(text: string)
    | Array(elements: seq<RespValue>)
    | Null

  // One attempt to read a value: it needs more input or never succeeds, or it gives a value
  // and what is left.
  datatype Step = Stuck | Got(value: RespValue, rest: string)

  datatype Line = NoLine | Line(text: string, rest: string)

  const CRLF: string := "\r\n"

  function FindCRLF(s: string): (k: Option<nat>)
    ensures k.Some? ==> k.value + 2 <= |s| && s[k.value] == '\r' && s[k.value + 1] == '\n'
  {
    if |s| < 2 then None
    else if s[0] == '\r' && s[1] == '\n' then Some(0)
    else
      var k := FindCRLF(s[1..]);
      if k.Some? then Some(k.value + 1) else None
  }

  function ReadLine(s: string): (l: Line)
    ensures l.Line? ==> Seqs.Suffix(l.rest, s) && |l.rest| + 2 <= |s|
  {
    var k := FindCRLF(s);
    if k.None? then NoLine else Line(s[..k.value], s[k.value + 2..])
  }

  function ParseValue(s: string): (r: Step)
    ensures r.Got? ==> Seqs.Suffix(r.rest, s) && |r.rest| + 2 <= |s|
    decreases |s|, 1
  {
    if s == "" then Stuck
    else match s[0]
      case '+' => ParseSimpleString(s)
      case '-' => ParseError(s)
      case ':' => ParseInteger(s)
      case '$' => ParseBulkString(s)
      case '*' => ParseArray(s)
      case _ => ParseInline(s)
  }

  function ParseSimpleString(s: string): (r: Step)
    requires s != ""
    ensures r.Got? ==> Seqs.Suffix(r.rest, s) && |r.rest| + 3 <= |s|
  {
    var l := ReadLine(s[1..]);
    if l.NoLine? then Stuck else Got(SimpleString(l.text), l.rest)
  }

  function ParseError(s: string): (r: Step)
    requires s != ""
    ensures r.Got? ==> Seqs.Suffix(r.rest, s) && |r.rest| + 3 <= |s|
  {
    var l := ReadLine(s[1..]);
    if l.NoLine? then Stuck else Got(Error(l.text), l.rest)
  }

  // The number on the line that opens an integer, a bulk string or an array.
  function ReadNumber(s: string): (r: Option<(int, string)>)
    requires s != ""
    ensures r.Some? ==> Seqs.Suffix(r.value.1, s) && |r.value.1| + 3 <= |s|
  {
    var l := ReadLine(s[1..]);
    if l.NoLine? then None else
      var n := ParseNumber(l.text);
      if n.None? then None else Some((n.value, l.rest))
  }

  function ParseInteger(s: string): (r: Step)
    requires s != ""
    ensures r.Got? ==> Seqs.Suffix(r.rest, s) && |r.rest| + 3 <= |s|
  {
    var n := ReadNumber(s);
    if n.None? then Stuck else Got(Integer(n.value.0), n.value.1)
  }

  function ParseBulkString(s: string): (r: Step)
    requires s != ""
    ensures r.Got? ==> Seqs.Suffix(r.rest, s) && |r.rest| + 3 <= |s|
  {
    var n := ReadNumber(s);
    if n.None? then Stuck
    else if n.value.0 == -1 then Got(Null, n.value.1)
    else if n.value.0 < 0 then Stuck
    else BulkData(n.value.0, n.value.1)
  }

  function BulkData(length: nat, s: string): (r: Step)
    ensures r.Got? ==> Seqs.Suffix(r.rest, s)
  {
    if length + 2 > |s| then Stuck
    else if s[length] != '\r' || s[length + 1] != '\n' then Stuck
    else Got(BulkString(s[..length]), s[length + 2..])
  }

  function ParseArray(s: string): (r: Step)
    requires s != ""
    ensures r.Got? ==> Seqs.Suffix(r.rest, s) && |r.rest| + 3 <= |s|
    decreases |s|, 0
  {
    var n := ReadNumber(s);
    if n.None? then Stuck
    else if n.value.0 == -1 then Got(Null, n.value.1)
    else if n.value.0 < 0 then Stuck
    else
      var es := ParseElements(n.value.1, n.value.0);
      if es.None? then Stuck else Got(Array(es.value.0), es.value.1)
  }

  function ParseElements(s: string, count: nat): (r: Option<(seq<RespValue>, string)>)
    ensures r.Some? ==> Seqs.Suffix(r.value.1, s) && |r.value.0| == count
    decreases |s|, 2
  {
    if count == 0 then Some(([], s))
    else
      var first := ParseValue(s);
      if first.Stuck? then None
      else Prepend(first.value, ParseElements(first.rest, count - 1))
  }

  function Prepend(v: RespValue, others: Option<(seq<RespValue>, string)>): (r: Option<(seq<RespValue>, string)>) {
    if others.None? then None else Some(([v] + others.value.0, others.value.1))
  }

  lemma PrependFirst(v: RespValue, others: Option<(seq<RespValue>, string)>, es: seq<RespValue>)
    requires es != [] && Prepend(v, others).Some? && Prepend(v, others).value.0 == es
    ensures v == es[0] && others.value.0 == es[1..]
  {
  }

  lemma ElementsUnfold(s: string, count: nat, first: Step)
    requires count > 0 && ParseValue(s) == first && first.Got?
    ensures ParseElements(s, count) == Prepend(first.value, ParseElements(first.rest, count - 1))
  {
  }

  lemma NoMoreElements(s: string, count: nat)
    requires count > 0 && ParseValue(s) == Stuck
    ensures ParseElements(s, count) == None
  {
  }

  function ParseInline(s: string): (r: Step)
    ensures r.Got? ==> Seqs.Suffix(r.rest, s) && |r.rest| + 2 <= |s|
  {
    var l := ReadLine(s);
    if l.NoLine? then Stuck else Got(Array(Words(l.text)), l.rest)
  }

  predicate Blank(c: char) {
    c == ' ' || c == '\t'
  }

  // Where c first satisfies the stopping condition: the closing quote, or a blank.
  function Until(c: string, quote: Option<char>): (n: nat)
    ensures n <= |c|
  {
    if c == "" then 0
    else if (if quote.Some? then c[0] == quote.value else Blank(c[0])) then 0
    else 1 + Until(c[1..], quote)
  }

  // The words of an inline command; a quoted word may hold blanks, an unclosed quote runs to
  // the end of the line.
  function Words(c: string): (words: seq<RespValue>)
    decreases |c|
  {
    if c == "" then []
    else if Blank(c[0]) then Words(c[1..])
    else if c[0] == '"' || c[0] == '\'' then
      var n := Until(c[1..], Some(c[0]));
      var rest := if 1 + n < |c| then c[n + 2..] else "";
      [BulkString(c[1..1 + n])] + Words(rest)
    else
      var n := Until(c, None);
      [BulkString(c[..n])] + Words(c[n..])
  }

  // All the values at the front of the input, and what is left.
  datatype Batch = Batch(commands: seq<RespValue>, rest: string)

  ghost predicate Progresses(step: string -> Step) {
    forall s :: ProgressesAt(step, s)
  }

  ghost predicate ProgressesAt(step: string -> Step, s: string) {
    step(s).Got? ==> |step(s).rest| < |s|
  }

  function Drain(step: string -> Step, s: string): (b: Batch)
    requires Progresses(step)
    decreases |s|
  {
    assert ProgressesAt(step, s);
    var first := step(s);
    if first.Stuck? then Batch([], s) else Before(first.value, Drain(step, first.rest))
  }

  function Before(v: RespValue, b: Batch): Batch {
    Batch([v] + b.commands, b.rest)
  }

  function Joined(b: Batch, c: Batch): Batch {
    Batch(b.commands + c.commands, c.rest)
  }

  lemma JoinedBefore(v: RespValue, b: Batch, c: Batch)
    ensures Joined(Before(v, b), c) == Before(v, Joined(b, c))
  {
  }

  lemma ParseValueProgresses()
    ensures Progresses(ParseValue)
  {
    forall s ensures ProgressesAt(ParseValue, s) {
    }
  }

  // What one call of the parser takes from its buffer.
  function ParseAll(s: string): (b: Batch) {
    ParseValueProgresses();
    Drain(ParseValue, s)
  }

  // ---------- The serializer ----------

  function Mark(v: RespValue): char {
    match v
    case SimpleString(_) => '+'
    case Error(_) => '-'
    case Integer(_) => ':'
    case Array(_) => '*'
    case _ => '$'
  }

  function Serialize(v: RespValue): (s: string)
    ensures |s| >= 3 && s[0] == Mark(v)
  {
    match v
    case SimpleString(t) => "+" + t + CRLF
    case Error(t) => "-" + t + CRLF
    case Integer(n) => ":" + Decimal(n) + CRLF
    case BulkString(t) => "$" + Decimal(|t|) + CRLF + t + CRLF
    case Array(es) => "*" + Decimal(|es|) + CRLF + SerializeAll(es)
    case Null => "$-1" + CRLF
  }

  function SerializeAll(es: seq<RespValue>): string {
    if es == [] then "" else Serialize(es[0]) + SerializeAll(es[1..])
  }

  // ---------- Successes do not depend on what comes later ----------

  lemma {:induction false} FindCRLFStable(s: string, t: string)
    requires FindCRLF(s).Some?
    ensures FindCRLF(s + t) == FindCRLF(s)
  {
    assert (s + t)[1..] == s[1..] + t;
    if !(s[0] == '\r' && s[1] == '\n') {
      FindCRLFStable(s[1..], t);
    }
  }

  lemma ReadLineStable(s: string, t: string)
    requires ReadLine(s).Line?
    ensures ReadLine(s + t) == Line(ReadLine(s).text, ReadLine(s).rest + t)
  {
    FindCRLFStable(s, t);
    var k := FindCRLF(s).value;
    assert (s + t)[..k] == s[..k] && (s + t)[k + 2..] == s[k + 2..] + t;
  }

  lemma ReadNumberStable(s: string, t: string)
    requires s != "" && ReadNumber(s).Some?
    ensures ReadNumber(s + t) == Some((ReadNumber(s).value.0, ReadNumber(s).value.1 + t))
  {
    assert (s + t)[1..] == s[1..] + t;
    ReadLineStable(s[1..], t);
  }

  lemma TextStable(s: string, t: string)
    requires s != "" && ReadLine(s[1..]).Line?
    ensures ParseSimpleString(s + t) == Got(ParseSimpleString(s).value, ParseSimpleString(s).rest + t)
    ensures ParseError(s + t) == Got(ParseError(s).value, ParseError(s).rest + t)
  {
    assert (s + t)[1..] == s[1..] + t;
    ReadLineStable(s[1..], t);
  }

  lemma BulkDataStable(length: nat, s: string, t: string)
    requires BulkData(length, s).Got?
    ensures BulkData(length, s + t) == Got(BulkData(length, s).value, BulkData(length, s).rest + t)
  {
    assert (s + t)[..length] == s[..length] && (s + t)[length + 2..] == s[length + 2..] + t;
  }

  lemma BulkStable(s: string, t: string)
    requires s != "" && ParseBulkString(s).Got?
    ensures ParseBulkString(s + t) == Got(ParseBulkString(s).value, ParseBulkString(s).rest + t)
  {
    ReadNumberStable(s, t);
    var n := ReadNumber(s).value;
    if n.0 >= 0 {
      BulkDataStable(n.0, n.1, t);
    }
  }

  // A value that has been read is read the same when more input follows.
  lemma {:induction false} ParseStable(s: string, t: string)
    requires ParseValue(s).Got?
    ensures ParseValue(s + t) == Got(ParseValue(s).value, ParseValue(s).rest + t)
    decreases |s|, 0
  {
    assert (s + t)[0] == s[0];
    match s[0]
    case '+' => TextStable(s, t);
    case '-' => TextStable(s, t);
    case ':' => ReadNumberStable(s, t);
    case '$' => BulkStable(s, t);
    case '*' =>
      ReadNumberStable(s, t);
      var n := ReadNumber(s).value;
      if n.0 >= 0 {
        ElementsStable(n.1, n.0, t);
      }
    case _ => ReadLineStable(s, t);
  }

  lemma {:induction false} ElementsStable(s: string, count: nat, t: string)
    requires ParseElements(s, count).Some?
    ensures ParseElements(s + t, count) == Extended(ParseElements(s, count), t)
    decreases |s|, 1
  {
    if count > 0 {
      ParseStable(s, t);
      ElementsStable(ParseValue(s).rest, count - 1, t);
      StableFromFirst(s, count, t, ParseValue(s));
    }
  }

  lemma StableFromFirst(s: string, count: nat, t: string, first: Step)
    requires count > 0 && first.Got? && ParseValue(s) == first
    requires ParseValue(s + t) == Got(first.value, first.rest + t)
    requires ParseElements(first.rest + t, count - 1) == Extended(ParseElements(first.rest, count - 1), t)
    ensures ParseElements(s + t, count) == Extended(ParseElements(s, count), t)
  {
    ElementsUnfold(s, count, first);
    ElementsUnfold(s + t, count, Got(first.value, first.rest + t));
    PrependExtended(first.value, ParseElements(first.rest, count - 1), t);
  }

  ghost function Extended(r: Option<(seq<RespValue>, string)>, t: string): Option<(seq<RespValue>, string)> {
    if r.None? then None else Some((r.value.0, r.value.1 + t))
  }

  lemma PrependExtended(v: RespValue, r: Option<(seq<RespValue>, string)>, t: string)
    ensures Prepend(v, Extended(r, t)) == Extended(Prepend(v, r), t)
  {
  }

  // ---------- Any way of cutting the stream into reads gives the same commands ----------

  // A step that succeeds does the same when more input follows.
  ghost predicate Steady(step: string -> Step) {
    forall s, t :: SteadyAt(step, s, t)
  }

  ghost predicate SteadyAt(step: string -> Step, s: string, t: string) {
    step(s).Got? ==> step(s + t) == Got(step(s).value, step(s).rest + t)
  }

  lemma ParseValueIsSteady()
    ensures Steady(ParseValue)
  {
    forall s, t ensures SteadyAt(ParseValue, s, t) {
      if ParseValue(s).Got? {
        ParseStable(s, t);
      }
    }
  }

  lemma {:induction false} RestIsStuck(step: string -> Step, s: string)
    requires Progresses(step)
    ensures Drain(step, Drain(step, s).rest) == Batch([], Drain(step, s).rest)
    decreases |s|
  {
    assert ProgressesAt(step, s);
    if step(s).Got? {
      RestIsStuck(step, step(s).rest);
    }
  }

  lemma {:induction false} DrainSplits(step: string -> Step, s: string, t: string)
    requires Progresses(step) && Steady(step)
    ensures Drain(step, s + t) == Joined(Drain(step, s), Drain(step, Drain(step, s).rest + t))
    decreases |s|
  {
    var first := step(s);
    assert SteadyAt(step, s, t) && ProgressesAt(step, s);
    if first.Got? {
      DrainSplits(step, first.rest, t);
      var b := Drain(step, first.rest);
      JoinedBefore(first.value, b, Drain(step, b.rest + t));
    }
  }

  // A connection: each read is appended to what the earlier reads left over, and whatever can
  // be parsed is taken off the front.
  function Feed(parse: string -> Batch, buffer: string, chunks: seq<string>): (b: Batch)
    decreases |chunks|
  {
    if chunks == [] then Batch([], buffer)
    else
      var now := parse(buffer + chunks[0]);
      Joined(now, Feed(parse, now.rest, chunks[1..]))
  }

  function Concat(chunks: seq<string>): string {
    if chunks == [] then "" else chunks[0] + Concat(chunks[1..])
  }

  lemma {:induction false} FeedFrom(parse: string -> Batch, buffer: string, chunks: seq<string>)
    requires Incremental(parse) && parse(buffer) == Batch([], buffer)
    ensures Feed(parse, buffer, chunks) == parse(buffer + Concat(chunks))
    decreases |chunks|
  {
    if chunks == [] {
      Seqs.Empty(buffer);
    } else {
      var s := buffer + chunks[0];
      assert IncrementalAt(parse, s, Concat(chunks[1..]));
      FeedFrom(parse, parse(s).rest, chunks[1..]);
      Seqs.Assoc(buffer, chunks[0], Concat(chunks[1..]));
    }
  }

  // What makes a batch parser indifferent to how its input is cut.
  ghost predicate Incremental(parse: string -> Batch) {
    forall s, t :: IncrementalAt(parse, s, t)
  }

  ghost predicate IncrementalAt(parse: string -> Batch, s: string, t: string) {
    && parse(s + t) == Joined(parse(s), parse(parse(s).rest + t))
    && parse(parse(s).rest) == Batch([], parse(s).rest)
  }

  lemma DrainIsIncremental(step: string -> Step, parse: string -> Batch)
    requires Progresses(step) && Steady(step) && forall s :: parse(s) == Drain(step, s)
    ensures Incremental(parse)
  {
    forall s, t ensures IncrementalAt(parse, s, t) {
      DrainSplits(step, s, t);
      RestIsStuck(step, s);
    }
  }

  lemma ParseAllIsIncremental()
    ensures Incremental(ParseAll)
  {
    ParseValueProgresses();
    ParseValueIsSteady();
    DrainIsIncremental(ParseValue, ParseAll);
  }

  // However the network cuts a stream, the commands and the leftover are those of one parse.
  lemma ChunkInvariance(chunks: seq<string>)
    ensures Feed(ParseAll, "", chunks) == ParseAll(Concat(chunks))
  {
    ParseAllIsIncremental();
    FeedFrom(ParseAll, "", chunks);
    Seqs.Empty(Concat(chunks));
  }

  // ---------- What is written is read back ----------

  // The integer widths of the program: every length is a 64-bit integer.
  predicate Fits(v: RespValue) {
    match v
    case Integer(n) => IsInt64(n)
    case BulkString(t) => IsInt64(|t|)
    case Array(es) => IsInt64(|es|) && FitsAll(es)
    case _ => true
  }

  predicate FitsAll(es: seq<RespValue>) {
    es == [] || (Fits(es[0]) && FitsAll(es[1..]))
  }

  predicate OneLine(t: string) {
    forall i :: 0 <= i < |t| - 1 ==> !(t[i] == '\r' && t[i + 1] == '\n')
  }

  // No simple string or error anywhere in v spans lines.
  predicate Framed(v: RespValue) {
    match v
    case SimpleString(t) => OneLine(t)
    case Error(t) => OneLine(t)
    case Array(es) => FramedAll(es)
    case _ => true
  }

  predicate FramedAll(es: seq<RespValue>) {
    es == [] || (Framed(es[0]) && FramedAll(es[1..]))
  }

  lemma {:induction false} FindCRLFFirst(t: string, rest: string)
    ensures OneLine(t) ==> FindCRLF(t + CRLF + rest) == Some(|t|)
    ensures !OneLine(t) ==> FindCRLF(t + CRLF + rest).Some? && FindCRLF(t + CRLF + rest).value < |t|
  {
    var s := t + CRLF + rest;
    if t != "" {
      assert s[1..] == t[1..] + CRLF + rest;
      FindCRLFFirst(t[1..], rest);
      if s[0] == '\r' && s[1] == '\n' {
        assert |t| > 1;
        assert t[0] == '\r' && t[1] == '\n';
      } else if OneLine(t) {
        assert OneLine(t[1..]);
      } else {
        var i {:trigger t[i]} :| 0 <= i < |t| - 1 && t[i] == '\r' && t[i + 1] == '\n';
        assert t[1..][i - 1] == '\r' && t[1..][i] == '\n';
      }
    }
  }

  // A line is read back whole if and only if it is one line.
  lemma ReadLineBack(t: string, rest: string)
    ensures OneLine(t) ==> ReadLine(t + CRLF + rest) == Line(t, rest)
    ensures !OneLine(t) ==> ReadLine(t + CRLF + rest).Line? && |ReadLine(t + CRLF + rest).text| < |t|
  {
    FindCRLFFirst(t, rest);
    var s := t + CRLF + rest;
    assert s[..|t|] == t && s[|t| + 2..] == rest;
  }

  lemma DecimalIsOneLine(n: int)
    ensures OneLine(Decimal(n))
  {
  }

  lemma ReadNumberBack(mark: char, n: int, rest: string)
    requires IsInt64(n)
    ensures ReadNumber([mark] + Decimal(n) + CRLF + rest) == Some((n, rest))
  {
    var s := [mark] + Decimal(n) + CRLF + rest;
    assert s[1..] == Decimal(n) + CRLF + rest;
    DecimalIsOneLine(n);
    ReadLineBack(Decimal(n), rest);
    DecimalRoundTrip(n);
  }

  lemma TextBack(mark: char, text: string, t: string)
    ensures OneLine(text) ==> ReadLine(([mark] + text + CRLF + t)[1..]) == Line(text, t)
    ensures !OneLine(text) ==>
      ReadLine(([mark] + text + CRLF + t)[1..]).Line? && ReadLine(([mark] + text + CRLF + t)[1..]).text != text
  {
    assert ([mark] + text + CRLF + t)[1..] == text + CRLF + t;
    ReadLineBack(text, t);
  }

  lemma BulkBack(text: string, t: string)
    requires IsInt64(|text|)
    ensures ParseBulkString(Serialize(BulkString(text)) + t) == Got(BulkString(text), t)
  {
    assert Serialize(BulkString(text)) + t == ['$'] + Decimal(|text|) + CRLF + (text + CRLF + t);
    ReadNumberBack('$', |text|, text + CRLF + t);
    BulkDataBack(text, t);
  }

  lemma BulkDataBack(text: string, t: string)
    ensures BulkData(|text|, text + CRLF + t) == Got(BulkString(text), t)
  {
    var data := text + CRLF + t;
    assert data[..|text|] == text && data[|text| + 2..] == t;
  }

  lemma IntegerBack(n: int, t: string)
    requires IsInt64(n)
    ensures ParseInteger(Serialize(Integer(n)) + t) == Got(Integer(n), t)
  {
    assert Serialize(Integer(n)) + t == [':'] + Decimal(n) + CRLF + t;
    ReadNumberBack(':', n, t);
  }

  lemma NullBack(t: string)
    ensures ParseBulkString(Serialize(Null) + t) == Got(Null, t)
  {
    assert Decimal(-1) == "-1";
    assert Serialize(Null) + t == ['$'] + Decimal(-1) + CRLF + t;
    ReadNumberBack('$', -1, t);
  }

  // Length -1 is null, for bulk strings and for arrays.
  lemma NullsAreRead(t: string)
    ensures ParseValue("$-1\r\n" + t) == Got(Null, t)
    ensures ParseValue("*-1\r\n" + t) == Got(Null, t)
  {
    assert Decimal(-1) == "-1";
    var bulk, list := "$-1\r\n" + t, "*-1\r\n" + t;
    assert bulk == ['$'] + Decimal(-1) + CRLF + t && list == ['*'] + Decimal(-1) + CRLF + t;
    ReadNumberBack('$', -1, t);
    ReadNumberBack('*', -1, t);
  }

  // A header whose number cannot be read, or is a length below -1, is never got over, whatever
  // comes later.
  lemma BadHeaderIsStuck(mark: char, text: string, t: string)
    requires mark == '$' || mark == '*' || mark == ':'
    requires OneLine(text)
    requires var n := ParseNumber(text); n == None || (mark != ':' && n.value < -1)
    ensures ParseValue([mark] + text + "\r\n" + t) == Stuck
  {
    var s := [mark] + text + CRLF + t;
    assert s[1..] == text + CRLF + t;
    ReadLineBack(text, t);
    Dispatch(s);
  }

  // So is a bulk string that does not end in a line end.
  lemma BadEndIsStuck(text: string, a: char, b: char, t: string)
    requires IsInt64(|text|) && !(a == '\r' && b == '\n')
    ensures ParseValue("$" + Decimal(|text|) + "\r\n" + text + [a, b] + t) == Stuck
  {
    var s := "$" + Decimal(|text|) + "\r\n" + text + [a, b] + t;
    assert s == ['$'] + Decimal(|text|) + CRLF + (text + [a, b] + t);
    ReadNumberBack('$', |text|, text + [a, b] + t);
    Dispatch(s);
  }

  // The header of an array leaves the parser in front of the elements.
  lemma HeaderBack(es: seq<RespValue>, t: string)
    requires IsInt64(|es|)
    ensures ReadNumber(Serialize(Array(es)) + t) == Some((|es|, SerializeAll(es) + t))
  {
    assert Serialize(Array(es)) + t == ['*'] + Decimal(|es|) + CRLF + (SerializeAll(es) + t);
    ReadNumberBack('*', |es|, SerializeAll(es) + t);
  }

  lemma FirstElement(es: seq<RespValue>, t: string)
    requires es != []
    ensures SerializeAll(es) + t == Serialize(es[0]) + (SerializeAll(es[1..]) + t)
  {
  }

  lemma Dispatch(s: string)
    requires s != ""
    ensures s[0] == '+' ==> ParseValue(s) == ParseSimpleString(s)
    ensures s[0] == '-' ==> ParseValue(s) == ParseError(s)
    ensures s[0] == ':' ==> ParseValue(s) == ParseInteger(s)
    ensures s[0] == '$' ==> ParseValue(s) == ParseBulkString(s)
    ensures s[0] == '*' ==> ParseValue(s) == ParseArray(s)
  {
  }

  lemma SimpleStringBack(text: string, t: string)
    ensures OneLine(text) ==> ParseValue(Serialize(SimpleString(text)) + t) == Got(SimpleString(text), t)
    ensures !OneLine(text) ==>
      forall r :: ParseValue(Serialize(SimpleString(text)) + t) != Got(SimpleString(text), r)
  {
    Dispatch(Serialize(SimpleString(text)) + t);
    TextBack('+', text, t);
  }

  lemma ErrorBack(text: string, t: string)
    ensures OneLine(text) ==> ParseValue(Serialize(Error(text)) + t) == Got(Error(text), t)
    ensures !OneLine(text) ==> forall r :: ParseValue(Serialize(Error(text)) + t) != Got(Error(text), r)
  {
    Dispatch(Serialize(Error(text)) + t);
    TextBack('-', text, t);
  }

  lemma ScalarBack(v: RespValue, t: string)
    requires Fits(v) && (v.Integer? || v.BulkString? || v.Null?)
    ensures ParseValue(Serialize(v) + t) == Got(v, t)
  {
    Dispatch(Serialize(v) + t);
    assert (Serialize(v) + t)[0] == Mark(v);
    match v
    case Integer(n) => IntegerBack(n, t);
    case BulkString(text) => BulkBack(text, t);
    case Null => NullBack(t);
  }

  lemma ArrayBack(es: seq<RespValue>, t: string)
    requires IsInt64(|es|)
    ensures ParseValue(Serialize(Array(es)) + t) ==
      var elements := ParseElements(SerializeAll(es) + t, |es|);
      if elements.None? then Stuck else Got(Array(elements.value.0), elements.value.1)
  {
    Dispatch(Serialize(Array(es)) + t);
    assert (Serialize(Array(es)) + t)[0] == '*';
    HeaderBack(es, t);
  }

  lemma {:induction false} RoundTrip(v: RespValue, t: string)
    requires Fits(v) && Framed(v)
    ensures ParseValue(Serialize(v) + t) == Got(v, t)
    decreases v, 0
  {
    match v
    case SimpleString(text) => SimpleStringBack(text, t);
    case Error(text) => ErrorBack(text, t);
    case Array(es) =>
      ArrayBack(es, t);
      ElementsBack(es, t);
    case _ => ScalarBack(v, t);
  }

  lemma {:induction false} ElementsBack(es: seq<RespValue>, t: string)
    requires FitsAll(es) && FramedAll(es)
    ensures ParseElements(SerializeAll(es) + t, |es|) == Some((es, t))
    decreases es, 0
  {
    if es == [] {
      Seqs.Empty(t);
    } else {
      FirstElement(es, t);
      RoundTrip(es[0], SerializeAll(es[1..]) + t);
      ElementsBack(es[1..], t);
      ElementsUnfold(SerializeAll(es) + t, |es|, Got(es[0], SerializeAll(es[1..]) + t));
      Seqs.HeadAndTail(es);
    }
  }

  lemma {:induction false} Garbled(v: RespValue, t: string)
    requires Fits(v) && !Framed(v)
    ensures forall r :: ParseValue(Serialize(v) + t) != Got(v, r)
    decreases v, 0
  {
    match v
    case SimpleString(text) => SimpleStringBack(text, t);
    case Error(text) => ErrorBack(text, t);
    case Array(es) =>
      ArrayBack(es, t);
      ElementsGarbled(es, t);
  }

  lemma {:induction false} ElementsGarbled(es: seq<RespValue>, t: string)
    requires FitsAll(es) && !FramedAll(es)
    ensures ParseElements(SerializeAll(es) + t, |es|).Some? ==>
      ParseElements(SerializeAll(es) + t, |es|).value.0 != es
    decreases es, 0
  {
    hide ParseValue;
    hide ParseElements;
    hide Prepend;
    hide Serialize;
    hide SerializeAll;
    hide Fits;
    hide Framed;
    FirstElement(es, t);
    var others := SerializeAll(es[1..]) + t;
    var s := Serialize(es[0]) + others;
    if Framed(es[0]) {
      RoundTrip(es[0], others);
      ElementsGarbled(es[1..], t);
    } else {
      Garbled(es[0], others);
    }
    if ParseValue(s).Got? {
      ElementsUnfold(s, |es|, ParseValue(s));
      if ParseElements(s, |es|).Some? && ParseElements(s, |es|).value.0 == es {
        PrependSome(ParseValue(s).value, ParseElements(ParseValue(s).rest, |es| - 1));
        PrependFirst(ParseValue(s).value, ParseElements(ParseValue(s).rest, |es| - 1), es);
      }
    } else {
      NoMoreElements(s, |es|);
    }
  }

  lemma PrependSome(v: RespValue, others: Option<(seq<RespValue>, string)>)
    ensures Prepend(v, others).Some? ==> others.Some?
  {
  }

  // What is written comes back as it was if and only if no simple string or error in it holds
  // a line break: the other types carry any bytes.
  lemma RoundTripExactly(v: RespValue, t: string)
    requires Fits(v)
    ensures ParseValue(Serialize(v) + t) == Got(v, t) <==> Framed(v)
  {
    if Framed(v) {
      RoundTrip(v, t);
    } else {
      Garbled(v, t);
    }
  }

  lemma {:induction false} ParseAllBack(vs: seq<RespValue>)
    requires FitsAll(vs) && FramedAll(vs)
    ensures ParseAll(SerializeAll(vs)) == Batch(vs, "")
  {
    ParseValueProgresses();
    if vs == [] {
      assert ProgressesAt(ParseValue, "");
    } else {
      var others := SerializeAll(vs[1..]);
      RoundTrip(vs[0], others);
      ParseAllBack(vs[1..]);
      DrainUnfold(ParseValue, Serialize(vs[0]) + others, vs[0], others);
      Seqs.HeadAndTail(vs);
    }
  }

  lemma DrainUnfold(step: string -> Step, s: string, v: RespValue, rest: string)
    requires Progresses(step) && step(s) == Got(v, rest)
    ensures Drain(step, s) == Before(v, Drain(step, rest))
  {
  }

  // Values written to a connection arrive, in order and each once, however the bytes are cut.
  lemma Delivery(vs: seq<RespValue>, chunks: seq<string>)
    requires FitsAll(vs) && FramedAll(vs)
    requires Concat(chunks) == SerializeAll(vs)
    ensures Feed(ParseAll, "", chunks) == Batch(vs, "")
  {
    ChunkInvariance(chunks);
    ParseAllBack(vs);
  }

  // No proper prefix of a serialized value is taken for a value.
  lemma PrefixFree(v: RespValue, k: nat)
    requires Fits(v) && Framed(v) && k < |Serialize(v)|
    ensures ParseValue(Serialize(v)[..k]) == Stuck
  {
    var s := Serialize(v);
    RoundTrip(v, "");
    assert s + "" == s && s == s[..k] + s[k..];
    if ParseValue(s[..k]).Got? {
      ParseStable(s[..k], s[k..]);
    }
  }

  lemma Unambiguous(v: RespValue, w: RespValue)
    requires Fits(v) && Framed(v) && Fits(w) && Framed(w) && Serialize(v) == Serialize(w)
    ensures v == w
  {
    RoundTrip(v, "");
    RoundTrip(w, "");
  }
}

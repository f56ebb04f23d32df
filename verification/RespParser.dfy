// The parser and serializer as the program runs them: a cursor into the buffer that advances
// on success and goes back on failure, loops that collect elements and output.

module RespParser {
  import opened Wrappers
  import opened Numbers
  import opened Resp
  import Seqs

  // The cursor moved from pos to pos' and gave value, as the step r says; on failure it stays.
  ghost predicate Moved(buffer: string, pos: nat, r: Step, value: Option<RespValue>, pos': nat) {
    && pos' <= |buffer|
    && if r.Stuck? then value == None && pos' == pos
       else value == Some(r.value) && buffer[pos'..] == r.rest
  }

  method FindCRLFFrom(buffer: string, pos: nat) returns (found: Option<nat>)
    requires pos <= |buffer|
    ensures found == match FindCRLF(buffer[pos..]) case None => None case Some(k) => Some(pos + k)
  {
    var p := pos;
    while p + 1 < |buffer|
      invariant pos <= p <= |buffer|
      invariant FindCRLF(buffer[pos..]) ==
        match FindCRLF(buffer[p..]) case None => None case Some(k) => Some(p - pos + k)
    {
      if buffer[p] == '\r' && buffer[p + 1] == '\n' {
        return Some(p);
      }
      assert buffer[p..][1..] == buffer[p + 1..];
      p := p + 1;
    }
    return None;
  }

  method ReadLineFrom(buffer: string, pos: nat) returns (line: Option<string>, pos': nat)
    requires pos <= |buffer|
    ensures pos <= pos' <= |buffer|
    ensures match ReadLine(buffer[pos..])
            case NoLine => line == None && pos' == pos
            case Line(text, rest) => line == Some(text) && buffer[pos'..] == rest && pos' >= pos + 2
  {
    var crlf := FindCRLFFrom(buffer, pos);
    if crlf.None? {
      return None, pos;
    }
    assert buffer[pos..][..crlf.value - pos] == buffer[pos..crlf.value];
    assert buffer[pos..][crlf.value - pos + 2..] == buffer[crlf.value + 2..];
    return Some(buffer[pos..crlf.value]), crlf.value + 2;
  }

  method ParseValueAt(buffer: string, pos: nat) returns (value: Option<RespValue>, pos': nat)
    requires pos <= |buffer|
    ensures Moved(buffer, pos, ParseValue(buffer[pos..]), value, pos')
    decreases |buffer| - pos, 1
  {
    if pos >= |buffer| {
      return None, pos;
    }
    match buffer[pos]
    case '+' => value, pos' := ParseSimpleStringAt(buffer, pos);
    case '-' => value, pos' := ParseErrorAt(buffer, pos);
    case ':' => value, pos' := ParseIntegerAt(buffer, pos);
    case '$' => value, pos' := ParseBulkStringAt(buffer, pos);
    case '*' => value, pos' := ParseArrayAt(buffer, pos);
    case _ => value, pos' := ParseInlineAt(buffer, pos);
  }

  method ParseSimpleStringAt(buffer: string, pos: nat) returns (value: Option<RespValue>, pos': nat)
    requires pos < |buffer|
    ensures Moved(buffer, pos, ParseSimpleString(buffer[pos..]), value, pos')
  {
    assert buffer[pos..][1..] == buffer[pos + 1..];
    var line;
    line, pos' := ReadLineFrom(buffer, pos + 1);
    if line.None? {
      return None, pos;
    }
    value := Some(SimpleString(line.value));
  }

  method ParseErrorAt(buffer: string, pos: nat) returns (value: Option<RespValue>, pos': nat)
    requires pos < |buffer|
    ensures Moved(buffer, pos, ParseError(buffer[pos..]), value, pos')
  {
    assert buffer[pos..][1..] == buffer[pos + 1..];
    var line;
    line, pos' := ReadLineFrom(buffer, pos + 1);
    if line.None? {
      return None, pos;
    }
    value := Some(Error(line.value));
  }

  method ParseIntegerAt(buffer: string, pos: nat) returns (value: Option<RespValue>, pos': nat)
    requires pos < |buffer|
    ensures Moved(buffer, pos, ParseInteger(buffer[pos..]), value, pos')
  {
    assert buffer[pos..][1..] == buffer[pos + 1..];
    var line;
    line, pos' := ReadLineFrom(buffer, pos + 1);
    if line.None? {
      return None, pos;
    }
    var n := ParseNumber(line.value);
    if n.None? {
      return None, pos;
    }
    value := Some(Integer(n.value));
  }

  method ParseBulkStringAt(buffer: string, pos: nat) returns (value: Option<RespValue>, pos': nat)
    requires pos < |buffer|
    ensures Moved(buffer, pos, ParseBulkString(buffer[pos..]), value, pos')
  {
    assert buffer[pos..][1..] == buffer[pos + 1..];
    var line;
    line, pos' := ReadLineFrom(buffer, pos + 1);
    if line.None? {
      return None, pos;
    }
    var n := ParseNumber(line.value);
    if n.None? {
      return None, pos;
    }
    var length := n.value;
    if length == -1 {
      return Some(Null), pos';
    }
    if length < 0 {
      return None, pos;
    }
    value, pos' := ParseBulkDataAt(buffer, pos', length);
    if value.None? {
      return None, pos;
    }
  }

  // The data of a bulk string and the line end that closes it.
  method ParseBulkDataAt(buffer: string, pos: nat, length: nat) returns (value: Option<RespValue>, pos': nat)
    requires pos <= |buffer|
    ensures Moved(buffer, pos, BulkData(length, buffer[pos..]), value, pos')
  {
    if pos + length + 2 > |buffer| {
      return None, pos;
    }
    var data := buffer[pos..pos + length];
    assert buffer[pos..][..length] == data;
    pos' := pos + length;
    assert buffer[pos..][length] == buffer[pos'] && buffer[pos..][length + 1] == buffer[pos' + 1];
    if pos' + 1 >= |buffer| || buffer[pos'] != '\r' || buffer[pos' + 1] != '\n' {
      return None, pos;
    }
    assert buffer[pos..][length + 2..] == buffer[pos' + 2..];
    return Some(BulkString(data)), pos' + 2;
  }

  method ParseArrayAt(buffer: string, pos: nat) returns (value: Option<RespValue>, pos': nat)
    requires pos < |buffer|
    ensures Moved(buffer, pos, ParseArray(buffer[pos..]), value, pos')
    decreases |buffer| - pos, 0
  {
    assert buffer[pos..][1..] == buffer[pos + 1..];
    var line;
    line, pos' := ReadLineFrom(buffer, pos + 1);
    if line.None? {
      return None, pos;
    }
    var n := ParseNumber(line.value);
    if n.None? {
      return None, pos;
    }
    var count := n.value;
    if count == -1 {
      return Some(Null), pos';
    }
    if count < 0 {
      return None, pos;
    }
    var elements;
    elements, pos' := ParseElementsAt(buffer, pos', count);
    if elements.None? {
      return None, pos;
    }
    value := Some(Array(elements.value));
  }

  // The loop of parseArray.
  method ParseElementsAt(buffer: string, pos: nat, count: nat)
    returns (elements: Option<seq<RespValue>>, pos': nat)
    requires pos <= |buffer|
    ensures pos' <= |buffer|
    ensures ElementsMoved(ParseElements(buffer[pos..], count), elements, buffer, pos')
    decreases |buffer| - pos, 2
  {
    pos' := pos;
    var es: seq<RespValue> := [];
    ghost var all := ParseElements(buffer[pos..], count);
    ghost var others := all;
    PrependNothing(all);
    var left := count;
    while left > 0
      invariant pos <= pos' <= |buffer|
      invariant Reads(buffer[pos'..], left, others)
      invariant all == PrependAll(es, others)
      decreases left
    {
      ghost var here := buffer[pos'..];
      var element;
      element, pos' := ParseValueAt(buffer, pos');
      if element.None? {
        NoMoreElements(here, left);
        return None, pos;
      }
      Shorter(here);
      var fewer := left - 1;
      others := OneMoreElement(es, here, fewer, element.value, buffer[pos'..]);
      es := es + [element.value];
      left := fewer;
    }
    elements := Some(es);
    AllElements(es, buffer[pos'..]);
  }

  ghost predicate ElementsMoved(r: Option<(seq<RespValue>, string)>, elements: Option<seq<RespValue>>,
                                buffer: string, pos': nat)
    requires pos' <= |buffer|
  {
    if r.None? then elements == None else elements == Some(r.value.0) && buffer[pos'..] == r.value.1
  }

  lemma AllElements(es: seq<RespValue>, rest: string)
    ensures PrependAll(es, ParseElements(rest, 0)) == Some((es, rest))
  {
    Seqs.Empty(es);
  }

  ghost function PrependAll(es: seq<RespValue>, others: Option<(seq<RespValue>, string)>): Option<(seq<RespValue>, string)> {
    if others.None? then None else Some((es + others.value.0, others.value.1))
  }

  lemma PrependNothing(r: Option<(seq<RespValue>, string)>)
    ensures PrependAll([], r) == r
  {
    if r.Some? {
      Seqs.Empty(r.value.0);
    }
  }

  ghost predicate Reads(s: string, count: nat, r: Option<(seq<RespValue>, string)>) {
    ParseElements(s, count) == r
  }

  lemma OneMoreElement(es: seq<RespValue>, s: string, fewer: nat, v: RespValue, rest: string)
    returns (others: Option<(seq<RespValue>, string)>)
    requires ParseValue(s) == Got(v, rest)
    ensures Reads(rest, fewer, others)
    ensures PrependAll(es, ParseElements(s, fewer + 1)) == PrependAll(es + [v], others)
  {
    ElementsUnfold(s, fewer + 1, Got(v, rest));
    others := ParseElements(rest, fewer);
    if others.Some? {
      Seqs.Assoc(es, [v], others.value.0);
    }
  }

  lemma Shorter(s: string)
    requires ParseValue(s).Got?
    ensures |ParseValue(s).rest| < |s|
  {
  }

  method ParseInlineAt(buffer: string, pos: nat) returns (value: Option<RespValue>, pos': nat)
    requires pos <= |buffer|
    ensures Moved(buffer, pos, ParseInline(buffer[pos..]), value, pos')
  {
    var line;
    line, pos' := ReadLineFrom(buffer, pos);
    if line.None? {
      return None, pos;
    }
    if line.value == "" {
      assert Words("") == [];
      return Some(Array([])), pos';
    }
    var args := SplitWords(line.value);
    assert ReadLine(buffer[pos..]).text == line.value;
    value := Some(Array(args));
  }

  method SplitWords(content: string) returns (args: seq<RespValue>)
    ensures args == Words(content)
  {
    args := [];
    var i := 0;
    assert content[0..] == content;
    while i < |content|
      invariant 0 <= i <= |content|
      invariant args + Words(content[i..]) == Words(content)
    {
      i := SkipBlanks(content, i);
      if i >= |content| {
        break;
      }
      var word, next := NextWord(content, i);
      Seqs.Assoc(args, [BulkString(word)], Words(content[next..]));
      args := args + [BulkString(word)];
      i := next;
    }
    assert content[i..] == "";
    Seqs.Empty(args);
  }

  method SkipBlanks(content: string, start: nat) returns (i: nat)
    requires start <= |content|
    ensures start <= i <= |content| && (i < |content| ==> !Blank(content[i]))
    ensures Words(content[i..]) == Words(content[start..])
  {
    i := start;
    while i < |content| && Blank(content[i])
      invariant start <= i <= |content|
      invariant Words(content[i..]) == Words(content[start..])
    {
      assert content[i..][1..] == content[i + 1..];
      i := i + 1;
    }
  }

  lemma QuotedWord(s: string, k: nat)
    requires s != "" && s[0] in "\"'" && k == Until(s[1..], Some(s[0]))
    ensures Words(s) == [BulkString(s[1..1 + k])] + Words(if 1 + k < |s| then s[k + 2..] else "")
  {
  }

  lemma PlainWord(s: string, k: nat)
    requires s != "" && s[0] !in "\"'" && !Blank(s[0]) && k == Until(s, None)
    ensures Words(s) == [BulkString(s[..k])] + Words(s[k..]) && k > 0
  {
  }

  // The word at position i, which is not blank, and where the search goes on.
  method NextWord(content: string, i: nat) returns (word: string, next: nat)
    requires i < |content| && !Blank(content[i])
    ensures i < next <= |content|
    ensures Words(content[i..]) == [BulkString(word)] + Words(content[next..])
  {
    ghost var here := content[i..];
    if content[i] == '"' || content[i] == '\'' {
      assert here[1..] == content[i + 1..];
      var n := SkipUntil(content, i + 1, Some(content[i]));
      QuotedWord(here, n - (i + 1));
      assert here[1..n - i] == content[i + 1..n];
      next := if n < |content| then n + 1 else n;
      assert content[next..] == if n < |content| then here[n - i + 1..] else "";
      return content[i + 1..n], next;
    }
    var n := SkipUntil(content, i, None);
    PlainWord(here, n - i);
    assert here[..n - i] == content[i..n] && here[n - i..] == content[n..];
    return content[i..n], n;
  }

  method SkipUntil(content: string, start: nat, quote: Option<char>) returns (n: nat)
    requires start <= |content|
    ensures n == start + Until(content[start..], quote)
  {
    n := start;
    while n < |content| && !(if quote.Some? then content[n] == quote.value else Blank(content[n]))
      invariant start <= n <= |content|
      invariant start + Until(content[start..], quote) == n + Until(content[n..], quote)
    {
      assert content[n..][1..] == content[n + 1..];
      n := n + 1;
    }
  }

  // parse: everything that is complete, and how many bytes it took.
  method Parse(buffer: string) returns (commands: seq<RespValue>, bytesConsumed: nat)
    ensures bytesConsumed <= |buffer|
    ensures Batch(commands, buffer[bytesConsumed..]) == ParseAll(buffer)
  {
    commands, bytesConsumed := [], 0;
    var pos := 0;
    assert buffer[0..] == buffer;
    while pos < |buffer|
      invariant pos == bytesConsumed <= |buffer|
      invariant ParseAll(buffer) == Joined(Batch(commands, buffer[pos..]), ParseAll(buffer[pos..]))
    {
      ghost var here := buffer[pos..];
      var firstByte := buffer[pos];
      var value;
      if firstByte == '*' || firstByte == '+' || firstByte == '-' || firstByte == ':' || firstByte == '$' {
        value, pos := ParseValueAt(buffer, pos);
      } else {
        value, pos := ParseInlineAt(buffer, pos);
      }
      if value.None? {
        ParseAllStuck(here);
        Seqs.Empty(commands);
        return;
      }
      ParseAllUnfold(here, value.value, buffer[pos..]);
      JoinedOneMore(Batch(commands, here), value.value, ParseAll(buffer[pos..]));
      commands := commands + [value.value];
      bytesConsumed := pos;
    }
    ParseAllStuck(buffer[pos..]);
    Seqs.Empty(commands);
  }

  lemma ParseAllStuck(s: string)
    requires ParseValue(s) == Stuck
    ensures ParseAll(s) == Batch([], s)
  {
  }

  lemma ParseAllUnfold(s: string, v: RespValue, rest: string)
    requires ParseValue(s) == Got(v, rest)
    ensures ParseAll(s) == Before(v, ParseAll(rest))
  {
    ParseValueProgresses();
    DrainUnfold(ParseValue, s, v, rest);
  }

  lemma JoinedOneMore(b: Batch, v: RespValue, c: Batch)
    ensures Joined(b, Before(v, c)) == Joined(Batch(b.commands + [v], c.rest), c)
  {
  }

  method SerializeValue(value: RespValue) returns (s: string)
    ensures s == Serialize(value)
    decreases value
  {
    match value
    case Array(elements) =>
      s := "*" + Decimal(|elements|) + CRLF;
      ghost var header := s;
      for i := 0 to |elements|
        invariant s + SerializeAll(elements[i..]) == header + SerializeAll(elements)
      {
        var e := SerializeValue(elements[i]);
        Seqs.Assoc(s, e, SerializeAll(elements[i + 1..]));
        assert elements[i..][1..] == elements[i + 1..];
        s := s + e;
      }
      Seqs.Empty(s);
    case _ => s := Serialize(value);
  }

  function Bulks(strings: seq<string>): seq<RespValue> {
    seq(|strings|, i requires 0 <= i < |strings| => BulkString(strings[i]))
  }

  // bulkStringArray writes an array of bulk strings, the form of every command.
  method BulkStringArray(strings: seq<string>) returns (result: string)
    ensures result == Serialize(Array(Bulks(strings)))
  {
    result := "*" + Decimal(|strings|) + CRLF;
    ghost var header, bulks := result, Bulks(strings);
    for i := 0 to |strings|
      invariant result + SerializeAll(bulks[i..]) == header + SerializeAll(bulks)
    {
      var s := "$" + Decimal(|strings[i]|) + CRLF + strings[i] + CRLF;
      assert s == Serialize(bulks[i]) && bulks[i..][1..] == bulks[i + 1..];
      Seqs.Assoc(result, s, SerializeAll(bulks[i + 1..]));
      result := result + s;
    }
    Seqs.Empty(result);
  }
}

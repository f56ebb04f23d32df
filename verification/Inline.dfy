// Inline commands: a line of plain and quoted words is read back as exactly these words.

module Inline {
  import opened Wrappers
  import opened Resp
  import opened RespParser
  import Seqs

  // A word as it is written: as it is, between quotes, or behind a quote that is never closed.
  datatype Token =
    | Plain(text: string)
    | Quoted(text: string, quote: char)
    | Open(text: string, quote: char)

  function Written(token: Token): string {
    match token
    case Plain(text) => text
    case Quoted(text, quote) => [quote] + text + [quote]
    case Open(text, quote) => [quote] + text
  }

  predicate Gap(s: string) {
    forall i :: 0 <= i < |s| ==> s[i] == ' ' || s[i] == '\t'
  }

  // A plain word holds no space or tab and does not begin with a quote; a quoted one may hold
  // anything but its quote. No word spans lines.
  predicate Proper(token: Token) {
    OneLine(token.text) &&
    match token
    case Plain(text) => text != "" && text[0] != '"' && text[0] != '\'' && ' ' !in text && '\t' !in text
    case _ => (token.quote == '"' || token.quote == '\'') && token.quote !in token.text
  }

  // Gaps stand around the words. Only behind a plain word must there be one, if another word
  // follows; an open quote takes everything to the end of the line.
  ghost predicate WellSpelled(tokens: seq<Token>, gaps: seq<string>)
    decreases |tokens|
  {
    && |gaps| == |tokens| + 1 && Gap(gaps[0])
    && (tokens != [] ==>
          && Proper(tokens[0]) && WellSpelled(tokens[1..], gaps[1..])
          && (tokens[0].Plain? && |tokens| > 1 ==> gaps[1] != "")
          && (tokens[0].Open? ==> |tokens| == 1 && gaps[1] == ""))
  }

  function Spelled(tokens: seq<Token>, gaps: seq<string>): string
    requires |gaps| == |tokens| + 1
    decreases |tokens|
  {
    if tokens == [] then gaps[0] else gaps[0] + (Written(tokens[0]) + Spelled(tokens[1..], gaps[1..]))
  }

  function Texts(tokens: seq<Token>): (texts: seq<string>)
    ensures |texts| == |tokens|
  {
    seq(|tokens|, i requires 0 <= i < |tokens| => tokens[i].text)
  }

  // ---------- A line of words is one line ----------

  lemma OneLineConcat(s: string, t: string)
    requires OneLine(s) && OneLine(t) && (t != "" ==> t[0] != '\n')
    ensures OneLine(s + t)
  {
    var st := s + t;
    forall i | 0 <= i < |st| - 1 ensures !(st[i] == '\r' && st[i + 1] == '\n') {
      if i + 1 < |s| {
        assert st[i] == s[i] && st[i + 1] == s[i + 1];
      } else if i + 1 == |s| {
        assert st[i + 1] == t[0];
      } else {
        assert st[i] == t[i - |s|] && st[i + 1] == t[i + 1 - |s|];
      }
    }
  }

  lemma OneLineBehind(s: string, t: string)
    requires OneLine(t) && forall i :: 0 <= i < |s| ==> s[i] != '\r'
    ensures OneLine(s + t)
  {
    var st := s + t;
    forall i | 0 <= i < |st| - 1 ensures !(st[i] == '\r' && st[i + 1] == '\n') {
      if i >= |s| {
        assert st[i] == t[i - |s|] && st[i + 1] == t[i + 1 - |s|];
      }
    }
  }

  lemma WrittenIsOneLine(token: Token)
    requires Proper(token)
    ensures OneLine(Written(token))
  {
    match token
    case Plain(text) =>
    case Quoted(text, quote) =>
      OneLineConcat(text, [quote]);
      OneLineBehind([quote], text + [quote]);
      Seqs.Assoc([quote], text, [quote]);
    case Open(text, quote) => OneLineBehind([quote], text);
  }

  // What follows a plain word starts with a space or a tab, if it is not the end.
  lemma AfterPlain(tokens: seq<Token>, gaps: seq<string>)
    requires WellSpelled(tokens, gaps) && (tokens != [] ==> gaps[0] != "")
    ensures var s := Spelled(tokens, gaps); s != "" ==> s[0] == ' ' || s[0] == '\t'
  {
  }

  lemma {:induction false} SpelledIsOneLine(tokens: seq<Token>, gaps: seq<string>)
    requires WellSpelled(tokens, gaps)
    ensures OneLine(Spelled(tokens, gaps))
    decreases |tokens|
  {
    if tokens != [] {
      var token, more := tokens[0], Spelled(tokens[1..], gaps[1..]);
      SpelledIsOneLine(tokens[1..], gaps[1..]);
      WrittenIsOneLine(token);
      match token {
        case Plain(text) =>
          AfterPlain(tokens[1..], gaps[1..]);
          OneLineConcat(text, more);
        case Quoted(text, quote) =>
          QuoteIsOneLine(text, quote, more);
        case Open(text, quote) =>
          assert more == "";
          Seqs.Empty(Written(token));
      }
      OneLineBehind(gaps[0], Written(token) + more);
    }
  }

  lemma QuoteIsOneLine(text: string, quote: char, more: string)
    requires OneLine(text) && OneLine(more) && quote != '\r' && quote != '\n'
    ensures OneLine([quote] + text + [quote] + more)
  {
    OneLineBehind([quote], more);
    OneLineConcat(text, [quote] + more);
    OneLineBehind([quote], text + ([quote] + more));
    assert [quote] + text + [quote] + more == [quote] + (text + ([quote] + more));
  }

  // ---------- Its words are read one after the other ----------

  lemma {:induction false} GapIsSkipped(gap: string, more: string)
    requires Gap(gap)
    ensures Words(gap + more) == Words(more)
    decreases |gap|
  {
    if gap == "" {
      assert gap + more == more;
    } else {
      assert (gap + more)[1..] == gap[1..] + more;
      GapIsSkipped(gap[1..], more);
    }
  }

  lemma {:induction false} UntilQuote(text: string, quote: char, more: string)
    requires quote !in text && (more != "" ==> more[0] == quote)
    ensures Until(text + more, Some(quote)) == |text|
    decreases |text|
  {
    if text == "" {
      assert text + more == more;
    } else {
      assert (text + more)[1..] == text[1..] + more;
      UntilQuote(text[1..], quote, more);
    }
  }

  lemma {:induction false} UntilBlank(text: string, more: string)
    requires ' ' !in text && '\t' !in text && (more != "" ==> more[0] == ' ' || more[0] == '\t')
    ensures Until(text + more, None) == |text|
    decreases |text|
  {
    if text == "" {
      assert text + more == more;
    } else {
      assert (text + more)[1..] == text[1..] + more;
      UntilBlank(text[1..], more);
    }
  }

  lemma FirstWord(token: Token, more: string)
    requires Proper(token)
    requires token.Plain? && more != "" ==> more[0] == ' ' || more[0] == '\t'
    requires token.Open? ==> more == ""
    ensures Words(Written(token) + more) == [BulkString(token.text)] + Words(more)
  {
    hide Words;
    hide Until;
    match token
    case Plain(text) =>
      UntilBlank(text, more);
      PlainWord(text + more, |text|);
      assert (text + more)[..|text|] == text && (text + more)[|text|..] == more;
    case Quoted(text, quote) =>
      QuoteIsTaken(text, quote, [quote] + more);
      assert Written(token) + more == [quote] + (text + ([quote] + more));
      assert ([quote] + more)[1..] == more;
    case Open(text, quote) =>
      QuoteIsTaken(text, quote, "");
      assert Written(token) + more == [quote] + (text + "");
  }

  lemma QuoteIsTaken(text: string, quote: char, more: string)
    requires (quote == '"' || quote == '\'') && quote !in text && (more != "" ==> more[0] == quote)
    ensures Words([quote] + (text + more)) == [BulkString(text)] + Words(if more == "" then "" else more[1..])
  {
    hide Words;
    hide Until;
    var s := [quote] + (text + more);
    assert s[1..] == text + more;
    UntilQuote(text, quote, more);
    QuotedWord(s, |text|);
    assert s[1..1 + |text|] == text;
    if more != "" {
      assert s[|text| + 2..] == more[1..];
    }
  }

  lemma {:induction false} WordsBack(tokens: seq<Token>, gaps: seq<string>)
    requires WellSpelled(tokens, gaps)
    ensures Words(Spelled(tokens, gaps)) == Bulks(Texts(tokens))
    decreases |tokens|
  {
    if tokens == [] {
      GapIsSkipped(gaps[0], "");
      Seqs.Empty(gaps[0]);
    } else {
      var token, more := tokens[0], Spelled(tokens[1..], gaps[1..]);
      WordsBack(tokens[1..], gaps[1..]);
      GapIsSkipped(gaps[0], Written(token) + more);
      if token.Plain? {
        AfterPlain(tokens[1..], gaps[1..]);
      }
      FirstWord(token, more);
      assert Bulks(Texts(tokens)) == [BulkString(token.text)] + Bulks(Texts(tokens[1..]));
    }
  }

  // A line that begins with none of the five marks is a command of exactly the words on it, and
  // what follows the line is untouched.
  lemma InlineRoundTrip(tokens: seq<Token>, gaps: seq<string>, t: string)
    requires WellSpelled(tokens, gaps)
    requires var line := Spelled(tokens, gaps); line != "" ==> line[0] !in "+-:$*"
    ensures ParseValue(Spelled(tokens, gaps) + "\r\n" + t) == Got(Array(Bulks(Texts(tokens))), t)
  {
    hide Words;
    var line := Spelled(tokens, gaps);
    SpelledIsOneLine(tokens, gaps);
    ReadLineBack(line, t);
    WordsBack(tokens, gaps);
    var s := line + "\r\n" + t;
    assert s[0] == if line == "" then '\r' else line[0];
    assert ParseValue(s) == ParseInline(s);
  }
}

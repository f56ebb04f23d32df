// Publishing: who gets a message, and how often.

module PubSub {
  import opened Registries
  import opened World
  import Resp
  import RespParser
  import Globs
  import Numbers
  import Seqs

  // A trailing star matches any ending; other patterns are compared as they are.
  predicate PatternMatches(pattern: string, channel: string) {
    if pattern != "" && pattern[|pattern| - 1] == '*' then
      var prefix := pattern[..|pattern| - 1];
      |prefix| <= |channel| && channel[..|prefix|] == prefix
    else pattern == channel
  }

  // A pattern that ends in a star takes every channel that goes on from what stands before the star.
  lemma StarTakesEndings(prefix: string, channel: string)
    ensures PatternMatches(prefix + "*", channel) <==> exists ending :: channel == prefix + ending
  {
    var pattern := prefix + "*";
    assert pattern[..|pattern| - 1] == prefix;
    if PatternMatches(pattern, channel) {
      assert channel == prefix + channel[|prefix|..];
    }
    if ending :| channel == prefix + ending {
      assert channel[..|prefix|] == prefix;
    }
  }

  predicate Literal(s: string) {
    forall i :: 0 <= i < |s| ==> s[i] != '*' && s[i] != '?'
  }

  // Where a star stands at the end only, and no question mark anywhere, that is what the pattern
  // means.
  lemma {:induction false} StarAtEndIsGlob(prefix: string, channel: string)
    requires Literal(prefix)
    ensures PatternMatches(prefix + "*", channel) <==> Globs.Matches(prefix + "*", channel)
    ensures channel == prefix <==> Globs.Matches(prefix, channel)
    decreases |prefix|
  {
    var pattern := prefix + "*";
    StarTakesEndings(prefix, channel);
    if prefix == "" {
      assert pattern[1..] == "" && channel[|channel|..] == "";
      assert Globs.Matches("", channel[|channel|..]);
      assert channel == "" + channel;
    } else {
      assert pattern[1..] == prefix[1..] + "*";
      if channel != "" {
        StarAtEndIsGlob(prefix[1..], channel[1..]);
        StarTakesEndings(prefix[1..], channel[1..]);
        FirstAndRest(prefix, channel);
      }
    }
  }

  lemma FirstAndRest(prefix: string, channel: string)
    requires prefix != "" && channel != ""
    ensures channel == prefix <==> channel[0] == prefix[0] && channel[1..] == prefix[1..]
    ensures (exists ending :: channel == prefix + ending) <==>
      channel[0] == prefix[0] && exists ending :: channel[1..] == prefix[1..] + ending
  {
    assert channel == [channel[0]] + channel[1..] && prefix == [prefix[0]] + prefix[1..];
    if ending :| channel == prefix + ending {
      assert channel[1..] == prefix[1..] + ending;
    }
    if channel[0] == prefix[0] {
      if ending :| channel[1..] == prefix[1..] + ending {
        assert channel == prefix + ending;
      }
    }
  }

  // A pattern that does not end in a star takes its own name only. For one without any star or
  // question mark that is its meaning.
  lemma PlainPatternIsName(pattern: string, channel: string)
    requires pattern == "" || pattern[|pattern| - 1] != '*'
    ensures PatternMatches(pattern, channel) <==> channel == pattern
    ensures Literal(pattern) ==> (PatternMatches(pattern, channel) <==> Globs.Matches(pattern, channel))
  {
    if Literal(pattern) {
      StarAtEndIsGlob(pattern, channel);
    }
  }

  // What is written to a client, as an array of bulk strings.
  function Text(parts: seq<string>): string {
    Resp.Serialize(Resp.Array(RespParser.Bulks(parts)))
  }

  type Delivery<C> = (C, string)

  function ToAll<C>(clients: seq<C>, text: string): (r: seq<Delivery<C>>)
    ensures |r| == |clients|
  {
    seq(|clients|, i requires 0 <= i < |clients| => (clients[i], text))
  }

  // The clients behind the matching entries, in order, each with the pattern that matched.
  function PatternDeliveries<C>(patterns: seq<(string, C)>, channel: string, message: string): seq<Delivery<C>>
    decreases |patterns|
  {
    if patterns == [] then []
    else
      var rest := PatternDeliveries(patterns[1..], channel, message);
      if PatternMatches(patterns[0].0, channel)
      then [(patterns[0].1, Text(["pmessage", patterns[0].0, channel, message]))] + rest else rest
  }

  function Deliveries<C(==)>(w: World<C>, channel: string, message: string): seq<Delivery<C>> {
    ToAll(if channel in w.channels then w.channels[channel] else [], Text(["message", channel, message]))
      + PatternDeliveries(w.patterns, channel, message)
  }

  method PublishMessage<C(==)>(w: World<C>, channel: string, message: string)
    returns (deliveries: seq<Delivery<C>>, receivers: nat)
    ensures deliveries == Deliveries(w, channel, message) && receivers == |deliveries|
  {
    hide Text;
    deliveries := [];
    if channel in w.channels {
      var reply := RespParser.BulkStringArray(["message", channel, message]);
      assert reply == Text(["message", channel, message]) by { TextIs(["message", channel, message]); }
      var clients := w.channels[channel];
      for i := 0 to |clients|
        invariant deliveries == ToAll(clients[..i], reply)
      {
        assert clients[..i + 1] == clients[..i] + [clients[i]];
        deliveries := deliveries + [(clients[i], reply)];
      }
      assert clients[..|clients|] == clients;
    }
    ghost var direct := deliveries;
    ghost var text := Text(["message", channel, message]);
    assert direct == ToAll(if channel in w.channels then w.channels[channel] else [], text);
    assert w.patterns[0..] == w.patterns;
    for i := 0 to |w.patterns|
      invariant deliveries + PatternDeliveries(w.patterns[i..], channel, message)
             == direct + PatternDeliveries(w.patterns, channel, message)
    {
      var (pattern, client) := w.patterns[i];
      assert w.patterns[i..][1..] == w.patterns[i + 1..];
      ghost var rest := PatternDeliveries(w.patterns[i + 1..], channel, message);
      if PatternMatches(pattern, channel) {
        var reply := RespParser.BulkStringArray(["pmessage", pattern, channel, message]);
        assert reply == Text(["pmessage", pattern, channel, message]) by {
          TextIs(["pmessage", pattern, channel, message]);
        }
        Seqs.Assoc(deliveries, [(client, reply)], rest);
        deliveries := deliveries + [(client, reply)];
      }
    }
    Seqs.Empty(deliveries);
    receivers := |deliveries|;
  }

  lemma TextIs(parts: seq<string>)
    ensures Text(parts) == Resp.Serialize(Resp.Array(RespParser.Bulks(parts)))
  {
  }

  // ---------- Every subscription counts once ----------

  function Copies<C(==)>(s: seq<Delivery<C>>, c: C): nat
    decreases |s|
  {
    if s == [] then 0 else (if s[0].0 == c then 1 else 0) + Copies(s[1..], c)
  }

  lemma {:induction false} CopiesConcat<C>(s: seq<Delivery<C>>, t: seq<Delivery<C>>, c: C)
    ensures Copies(s + t, c) == Copies(s, c) + Copies(t, c)
    decreases |s|
  {
    if s == [] {
      assert s + t == t;
    } else {
      assert (s + t)[1..] == s[1..] + t;
      CopiesConcat(s[1..], t, c);
    }
  }

  lemma {:induction false} CopiesOfDistinct<C>(s: seq<C>, text: string, c: C)
    requires Seqs.Distinct(s)
    ensures Copies(ToAll(s, text), c) == if c in s then 1 else 0
    decreases |s|
  {
    if s != [] {
      CopiesOfDistinct(s[1..], text, c);
      assert ToAll(s, text)[1..] == ToAll(s[1..], text);
      assert c in s <==> c == s[0] || c in s[1..];
    }
  }

  // The names under which c is entered in the pattern list and which match.
  ghost function MatchingNames<C>(patterns: seq<(string, C)>, channel: string, c: C): set<string> {
    set e | e in patterns && e.1 == c && PatternMatches(e.0, channel) :: e.0
  }

  lemma {:induction false} CopiesOfPatterns<C>(patterns: seq<(string, C)>, channel: string, message: string, c: C)
    requires Seqs.Distinct(patterns)
    ensures Copies(PatternDeliveries(patterns, channel, message), c) == |MatchingNames(patterns, channel, c)|
    decreases |patterns|
  {
    hide Text;
    if patterns == [] {
      assert MatchingNames(patterns, channel, c) == {};
    } else {
      var e, rest := patterns[0], patterns[1..];
      CopiesOfPatterns(rest, channel, message, c);
      var names, others := MatchingNames(patterns, channel, c), MatchingNames(rest, channel, c);
      forall x ensures x in patterns <==> x == e || x in rest {
      }
      if e.1 == c && PatternMatches(e.0, channel) {
        assert names == others + {e.0};
        assert e.0 !in others;
        var more := PatternDeliveries(rest, channel, message);
        var first := (e.1, Text(["pmessage", e.0, channel, message]));
        assert ([first] + more)[1..] == more;
      } else {
        assert names == others;
        var more := PatternDeliveries(rest, channel, message);
        var first := (e.1, Text(["pmessage", e.0, channel, message]));
        assert ([first] + more)[1..] == more;
      }
    }
  }

  // The subscriptions of a client that cover this channel.
  function Subscriptions(s: ClientState, channel: string): nat {
    (if channel in s.channels then 1 else 0) + |set p | p in s.patterns && PatternMatches(p, channel)|
  }

  // In a state whose registries mirror its clients, a message reaches each client once for its
  // subscription to the channel and once for each of its patterns that matches.
  lemma DeliveredPerSubscription<C>(w: World<C>, channel: string, message: string, c: C)
    requires Tidy(w) && Mirrored(w, c)
    ensures Copies(Deliveries(w, channel, message), c) ==
      if c in w.clients then Subscriptions(w.clients[c], channel) else 0
  {
    var direct := if channel in w.channels then w.channels[channel] else [];
    var text := Text(["message", channel, message]);
    CopiesConcat(ToAll(direct, text), PatternDeliveries(w.patterns, channel, message), c);
    CopiesOfDistinct(direct, text, c);
    CopiesOfPatterns(w.patterns, channel, message, c);
    var names := MatchingNames(w.patterns, channel, c);
    assert c in direct <==> In(w.channels, channel, c);
    if c in w.clients {
      var s := w.clients[c];
      forall p ensures p in names <==> p in s.patterns && PatternMatches(p, channel) {
        if p in s.patterns {
          assert (p, c) in w.patterns;
        }
      }
      assert names == set p | p in s.patterns && PatternMatches(p, channel);
    } else {
      assert forall p :: (p, c) !in w.patterns;
      assert names == {};
    }
  }

  // ---------- What arrives ----------

  // The client reads these bulk strings and nothing is left over of the text.
  ghost predicate Reads(text: string, parts: seq<string>) {
    forall t :: Resp.ParseValue(text + t) == Resp.Got(Resp.Array(RespParser.Bulks(parts)), t)
  }

  lemma TextIsRead(parts: seq<string>)
    requires Numbers.IsInt64(|parts|) && forall part <- parts :: Numbers.IsInt64(|part|)
    ensures Reads(Text(parts), parts)
  {
    BulksFit(parts);
    forall t ensures Resp.ParseValue(Text(parts) + t) == Resp.Got(Resp.Array(RespParser.Bulks(parts)), t) {
      Resp.RoundTrip(Resp.Array(RespParser.Bulks(parts)), t);
    }
  }

  lemma {:induction false} BulksFit(parts: seq<string>)
    requires forall part <- parts :: Numbers.IsInt64(|part|)
    ensures Resp.FitsAll(RespParser.Bulks(parts)) && Resp.FramedAll(RespParser.Bulks(parts))
    decreases |parts|
  {
    if parts != [] {
      assert RespParser.Bulks(parts)[1..] == RespParser.Bulks(parts[1..]);
      BulksFit(parts[1..]);
    }
  }

  // A subscriber of the channel reads the message with its channel; a subscriber of a pattern
  // reads the pattern as well. Nobody else is sent anything.
  ghost predicate Tells<C>(w: World<C>, channel: string, message: string, d: Delivery<C>) {
    || (In(w.channels, channel, d.0) && Reads(d.1, ["message", channel, message]))
    || exists pattern :: (pattern, d.0) in w.patterns && PatternMatches(pattern, channel)
         && Reads(d.1, ["pmessage", pattern, channel, message])
  }

  lemma DeliveriesTell<C>(w: World<C>, channel: string, message: string)
    requires Numbers.IsInt64(|channel|) && Numbers.IsInt64(|message|)
    requires forall e <- w.patterns :: Numbers.IsInt64(|e.0|)
    ensures forall d <- Deliveries(w, channel, message) :: Tells(w, channel, message, d)
  {
    hide Text;
    hide Reads;
    var text := Text(["message", channel, message]);
    TextIsRead(["message", channel, message]);
    var direct := ToAll(if channel in w.channels then w.channels[channel] else [], text);
    forall d | d in Deliveries(w, channel, message) ensures Tells(w, channel, message, d) {
      if d !in direct {
        var pattern := PatternTells(w.patterns, channel, message, d);
        TextIsRead(["pmessage", pattern, channel, message]);
      }
    }
  }

  lemma {:induction false} PatternTells<C>(patterns: seq<(string, C)>, channel: string, message: string, d: Delivery<C>)
    returns (pattern: string)
    requires d in PatternDeliveries(patterns, channel, message)
    ensures (pattern, d.0) in patterns && PatternMatches(pattern, channel)
    ensures d.1 == Text(["pmessage", pattern, channel, message])
    decreases |patterns|
  {
    hide Text;
    var e := patterns[0];
    if PatternMatches(e.0, channel) && d == (e.1, Text(["pmessage", e.0, channel, message])) {
      pattern := e.0;
    } else {
      pattern := PatternTells(patterns[1..], channel, message, d);
    }
  }

  // Subscribers of the channel come first, in their order, then the patterns in theirs.
  lemma DeliveriesInOrder<C>(w: World<C>, channel: string, message: string)
    ensures var direct := if channel in w.channels then w.channels[channel] else [];
      var all := Deliveries(w, channel, message);
      && |all| >= |direct| && (forall j :: 0 <= j < |direct| ==> all[j].0 == direct[j])
      && all[|direct|..] == PatternDeliveries(w.patterns, channel, message)
  {
    hide Text;
    var direct := if channel in w.channels then w.channels[channel] else [];
    var text := Text(["message", channel, message]);
    var more := PatternDeliveries(w.patterns, channel, message);
    assert (ToAll(direct, text) + more)[|direct|..] == more;
  }

  lemma {:induction false} PatternsInOrder<C>(s: seq<(string, C)>, t: seq<(string, C)>, channel: string, message: string)
    ensures PatternDeliveries(s + t, channel, message) ==
      PatternDeliveries(s, channel, message) + PatternDeliveries(t, channel, message)
    decreases |s|
  {
    hide Text;
    if s == [] {
      assert s + t == t;
    } else {
      assert (s + t)[1..] == s[1..] + t;
      PatternsInOrder(s[1..], t, channel, message);
    }
  }

  // ---------- Subscribing ----------

  // Only this client's subscriptions have changed.
  ghost predicate Subscribed<C>(w: World<C>, w': World<C>, c: C, channels: set<string>, patterns: set<string>) {
    && c in w.clients && w'.clients == w.clients[c := w.clients[c].(channels := channels, patterns := patterns)]
    && w'.stores == w.stores && w'.waiting == w.waiting
  }

  lemma EnterIs<C>(w: World<C>, c: C, name: string)
    requires c in w.clients
    ensures var s := w.clients[c];
      && Subscribed(w, Affect(w, Enter(c, name)), c, s.channels + {name}, s.patterns)
      && Subscribed(w, Affect(w, PEnter(c, name)), c, s.channels, s.patterns + {name})
  {
    hide Register;
    var s := w.clients[c];
    assert w.clients[c := s] == w.clients;
    assert name in s.channels ==> s.channels + {name} == s.channels;
    assert name in s.patterns ==> s.patterns + {name} == s.patterns;
  }

  lemma LeaveIs<C>(w: World<C>, c: C, names: set<string>)
    requires c in w.clients
    ensures var s := w.clients[c];
      && Subscribed(w, Affect(w, Leave(c, names)), c, s.channels - names, s.patterns)
      && Subscribed(w, Affect(w, PLeave(c, names)), c, s.channels, s.patterns - names)
  {
    hide WithoutPatterns;
    hide DeregisterAll;
  }

  lemma {:induction false} EntersAre<C>(w: World<C>, c: C, names: seq<string>)
    requires c in w.clients
    ensures var s := w.clients[c];
      Subscribed(w, AffectAll(w, seq(|names|, j requires 0 <= j < |names| => Enter(c, names[j]))), c,
        s.channels + Registries.Names(names), s.patterns)
    decreases |names|
  {
    hide Affect;
    var fs := seq(|names|, j requires 0 <= j < |names| => Enter(c, names[j]));
    var s := w.clients[c];
    if names == [] {
      NothingSubscribed(w, c);
      assert s.channels + Registries.Names(names) == s.channels;
    } else {
      var rest := names[1..];
      assert fs[1..] == seq(|rest|, j requires 0 <= j < |rest| => Enter(c, rest[j]));
      EnterIs(w, c, names[0]);
      EntersAre(Affect(w, fs[0]), c, rest);
      assert s.channels + {names[0]} + Registries.Names(rest) == s.channels + Registries.Names(names);
    }
  }

  lemma {:induction false} PEntersAre<C>(w: World<C>, c: C, names: seq<string>)
    requires c in w.clients
    ensures var s := w.clients[c];
      Subscribed(w, AffectAll(w, seq(|names|, j requires 0 <= j < |names| => PEnter(c, names[j]))), c,
        s.channels, s.patterns + Registries.Names(names))
    decreases |names|
  {
    hide Affect;
    var fs := seq(|names|, j requires 0 <= j < |names| => PEnter(c, names[j]));
    var s := w.clients[c];
    if names == [] {
      NothingSubscribed(w, c);
      assert s.patterns + Registries.Names(names) == s.patterns;
    } else {
      var rest := names[1..];
      assert fs[1..] == seq(|rest|, j requires 0 <= j < |rest| => PEnter(c, rest[j]));
      EnterIs(w, c, names[0]);
      PEntersAre(Affect(w, fs[0]), c, rest);
      assert s.patterns + {names[0]} + Registries.Names(rest) == s.patterns + Registries.Names(names);
    }
  }

  lemma NothingSubscribed<C>(w: World<C>, c: C)
    requires c in w.clients
    ensures Subscribed(w, w, c, w.clients[c].channels, w.clients[c].patterns)
  {
    assert w.clients[c := w.clients[c]] == w.clients;
  }

  // SUBSCRIBE adds the names and UNSUBSCRIBE takes them away, without names all.
  lemma SubscriptionsAreKept<C>(w: World<C>, c: C, names: seq<string>)
    requires w.stores != [] && c in w.clients
    ensures var s := w.clients[c];
      && Subscribed(w, Perform(w, c, Subscribe(names)), c, s.channels + (set n | n in names), s.patterns)
      && Subscribed(w, Perform(w, c, Unsubscribe(names)), c,
           if names == [] then {} else s.channels - (set n | n in names), s.patterns)
  {
    hide Affect;
    hide AffectAll;
    hide Subscribed;
    hide PushTrace;
    hide PopTrace;
    var s := w.clients[c];
    EntersAre(w, c, names);
    var gone := if names == [] then s.channels else Registries.Names(names);
    AffectOne(w, Leave(c, gone));
    LeaveIs(w, c, gone);
    assert s.channels - s.channels == {};
  }

  // The same for patterns.
  lemma PatternsAreKept<C>(w: World<C>, c: C, names: seq<string>)
    requires w.stores != [] && c in w.clients
    ensures var s := w.clients[c];
      && Subscribed(w, Perform(w, c, PSubscribe(names)), c, s.channels, s.patterns + (set n | n in names))
      && Subscribed(w, Perform(w, c, PUnsubscribe(names)), c, s.channels,
           if names == [] then {} else s.patterns - (set n | n in names))
  {
    hide Affect;
    hide AffectAll;
    hide Subscribed;
    hide PushTrace;
    hide PopTrace;
    var s := w.clients[c];
    PEntersAre(w, c, names);
    var gone := if names == [] then s.patterns else Registries.Names(names);
    AffectOne(w, PLeave(c, gone));
    LeaveIs(w, c, gone);
    assert s.patterns - s.patterns == {};
  }
}

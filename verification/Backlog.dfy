// The replication backlog: a ring of the last bytes of the stream sent to the replicas.

module Backlog {
  import opened Connections
  import Resp
  import RespParser
  import Seqs

  // The ring with its write position, and the counters for what it holds and has dropped.
  datatype Ring = Ring(bytes: string, idx: nat, off: nat, histLen: nat, offset: nat)

  function Start(size: nat): Ring {
    Ring(seq(size, i => '\0'), 0, 0, 0, 0)
  }

  predicate WellFormed(r: Ring) {
    r.idx < |r.bytes|
  }

  function FeedByte(r: Ring, c: char): (r': Ring)
    requires WellFormed(r)
    ensures WellFormed(r') && |r'.bytes| == |r.bytes|
  {
    var size := |r.bytes|;
    r.(bytes := r.bytes[r.idx := c], idx := (r.idx + 1) % size,
       histLen := if r.histLen < size then r.histLen + 1 else r.histLen,
       off := if r.histLen < size then r.off else r.off + 1)
  }

  function FeedBytes(r: Ring, data: string): (r': Ring)
    requires WellFormed(r)
    ensures WellFormed(r') && |r'.bytes| == |r.bytes|
    decreases |data|
  {
    if data == "" then r else FeedBytes(FeedByte(r, data[0]), data[1..])
  }

  // The offset counts a whole feed at once.
  function Feed(r: Ring, data: string): (r': Ring)
    requires WellFormed(r)
    ensures WellFormed(r') && |r'.bytes| == |r.bytes|
  {
    FeedBytes(r, data).(offset := r.offset + |data|)
  }

  // ---------- What the ring holds ----------

  // Byte t of the stream is at position t modulo the size.
  ghost predicate HasByte(bytes: string, stream: string, t: nat)
    requires bytes != ""
  {
    t < |stream| ==> bytes[t % |bytes|] == stream[t]
  }

  function Min(a: nat, b: nat): nat {
    if a < b then a else b
  }

  // The ring holds exactly the last bytes of this stream, as many as fit.
  ghost predicate Holds(r: Ring, stream: string) {
    && WellFormed(r)
    && r.idx == |stream| % |r.bytes|
    && r.histLen == Min(|stream|, |r.bytes|)
    && r.off + r.histLen == |stream|
    && forall t: nat :: |stream| - r.histLen <= t < |stream| ==> HasByte(r.bytes, stream, t)
  }

  lemma ModStep(t: nat, n: nat)
    requires n > 0
    ensures (t % n + 1) % n == (t + 1) % n
  {
    var q, r := t / n, t % n;
    assert t == q * n + r;
    if r + 1 < n {
      DivModIs(t + 1, n, q, r + 1);
      DivModIs(r + 1, n, 0, r + 1);
    } else {
      assert t + 1 == (q + 1) * n + 0;
      DivModIs(t + 1, n, q + 1, 0);
      DivModIs(n, n, 1, 0);
    }
  }

  lemma TimesAtLeast(x: nat, n: nat)
    requires x >= 1
    ensures x * n >= n
  {
    assert x * n == (x - 1) * n + n;
  }

  lemma TimesMinus(x: nat, y: nat, n: nat)
    requires x >= y
    ensures (x - y) * n == x * n - y * n
  {
  }

  // Quotient and remainder are unique.
  lemma DivModUnique(n: nat, q: nat, r: nat, q': nat, r': nat)
    requires r < n && r' < n && q * n + r == q' * n + r'
    ensures q == q' && r == r'
  {
    if q' > q {
      TimesMinus(q', q, n);
      TimesAtLeast(q' - q, n);
    } else if q' < q {
      TimesMinus(q, q', n);
      TimesAtLeast(q - q', n);
    }
  }

  lemma DivModIs(t: nat, n: nat, q: nat, r: nat)
    requires r < n && t == q * n + r
    ensures t % n == r
  {
    DivModUnique(n, q, r, t / n, t % n);
  }

  // Positions less than a turn apart are different.
  lemma ModApart(a: nat, b: nat, n: nat)
    requires n > 0 && a < b < a + n
    ensures a % n != b % n
  {
    var p, q, r := a / n, b / n, a % n;
    if r == b % n {
      if q > p {
        TimesMinus(q, p, n);
        TimesAtLeast(q - p, n);
      }
    }
  }

  lemma FeedByteHolds(r: Ring, stream: string, c: char)
    requires Holds(r, stream)
    ensures Holds(FeedByte(r, c), stream + [c])
  {
    var r', more, n := FeedByte(r, c), stream + [c], |r.bytes|;
    ModStep(|stream|, n);
    forall t: nat | |more| - r'.histLen <= t < |more| ensures HasByte(r'.bytes, more, t) {
      if t < |stream| {
        assert HasByte(r.bytes, stream, t);
        ModApart(t, |stream|, n);
      }
    }
  }

  lemma {:induction false} FeedBytesHolds(r: Ring, stream: string, data: string)
    requires Holds(r, stream)
    ensures Holds(FeedBytes(r, data), stream + data)
    ensures FeedBytes(r, data).offset == r.offset
    decreases |data|
  {
    hide Holds;
    HoldsIsWellFormed(r, stream);
    if data == "" {
      Seqs.Empty(stream);
    } else {
      FeedByteHolds(r, stream, data[0]);
      FeedBytesHolds(FeedByte(r, data[0]), stream + [data[0]], data[1..]);
      Seqs.HeadAndTail(data);
      Seqs.Assoc(stream, [data[0]], data[1..]);
    }
  }

  lemma HoldsIsWellFormed(r: Ring, stream: string)
    requires Holds(r, stream)
    ensures WellFormed(r)
  {
  }

  // ---------- Any run of feeds ----------

  function FeedAll(r: Ring, feeds: seq<string>): (r': Ring)
    requires WellFormed(r)
    ensures WellFormed(r') && |r'.bytes| == |r.bytes|
    decreases |feeds|
  {
    if feeds == [] then r else FeedAll(Feed(r, feeds[0]), feeds[1..])
  }

  ghost predicate InStep(r: Ring, stream: string) {
    Holds(r, stream) && r.offset == |stream|
  }

  lemma {:induction false} FeedAllInStep(r: Ring, stream: string, feeds: seq<string>)
    requires InStep(r, stream)
    ensures InStep(FeedAll(r, feeds), stream + Resp.Concat(feeds))
    decreases |feeds|
  {
    hide Holds;
    hide FeedBytes;
    HoldsIsWellFormed(r, stream);
    if feeds == [] {
      Seqs.Empty(stream);
    } else {
      FeedBytesHolds(r, stream, feeds[0]);
      OffsetIsNotHeld(FeedBytes(r, feeds[0]), stream + feeds[0], r.offset + |feeds[0]|);
      FeedAllInStep(Feed(r, feeds[0]), stream + feeds[0], feeds[1..]);
      Seqs.Assoc(stream, feeds[0], Resp.Concat(feeds[1..]));
    }
  }

  lemma OffsetIsNotHeld(r: Ring, stream: string, offset: nat)
    requires Holds(r, stream)
    ensures Holds(r.(offset := offset), stream)
  {
    assert forall t: nat :: HasByte(r.bytes, stream, t) == HasByte(r.(offset := offset).bytes, stream, t);
  }

  // Whatever was fed, in whatever pieces: the ring holds exactly the last bytes of the stream, and
  // what it dropped plus what it holds is the replication offset.
  lemma BacklogIsLastBytes(size: nat, feeds: seq<string>)
    requires size > 0
    ensures var r, stream := FeedAll(Start(size), feeds), Resp.Concat(feeds);
      && Holds(r, stream) && r.off + r.histLen == r.offset == |stream|
      && forall t: nat :: |stream| - Min(|stream|, size) <= t < |stream| ==> r.bytes[t % size] == stream[t]
  {
    hide FeedAll;
    FeedAllInStep(Start(size), "", feeds);
    var r, stream := FeedAll(Start(size), feeds), Resp.Concat(feeds);
    assert "" + stream == stream;
    forall t: nat | |stream| - Min(|stream|, size) <= t < |stream| ensures r.bytes[t % size] == stream[t] {
      assert HasByte(r.bytes, stream, t);
    }
  }

  // ---------- The code ----------

  class Master {
    const replBacklogSize: nat
    var replBacklog: string
    var replBacklogIdx: nat
    var replBacklogOff: nat
    var replBacklogHistLen: nat
    var masterReplOffset: nat
    var replicas: seq<Connection>
    var replId: string

    // The ring gets its size with the first bytes.
    ghost predicate Valid()
      reads this
    {
      && replBacklogSize > 0
      && (replBacklog == "" || |replBacklog| == replBacklogSize)
      && (replBacklog == "" ==> replBacklogIdx == 0 && replBacklogOff == 0 && replBacklogHistLen == 0)
      && replBacklogIdx < replBacklogSize
      && forall i, j :: 0 <= i < j < |replicas| ==> replicas[i] != replicas[j]
    }

    ghost function Now(): (r: Ring)
      requires Valid()
      reads this
      ensures WellFormed(r) && |r.bytes| == replBacklogSize
    {
      Ring(if replBacklog == "" then Start(replBacklogSize).bytes else replBacklog,
        replBacklogIdx, replBacklogOff, replBacklogHistLen, masterReplOffset)
    }

    constructor (size: nat, replId: string)
      requires size > 0
      ensures Valid() && Now() == Start(size) && replicas == [] && this.replId == replId
    {
      replBacklogSize, replBacklog := size, "";
      replBacklogIdx, replBacklogOff, replBacklogHistLen, masterReplOffset := 0, 0, 0, 0;
      replicas, this.replId := [], replId;
    }

    method FeedReplicationBacklog(data: string)
      requires Valid()
      modifies this`replBacklog, this`replBacklogIdx, this`replBacklogOff, this`replBacklogHistLen, this`masterReplOffset
      ensures Valid() && Now() == Feed(old(Now()), data)
    {
      ghost var start := Now();
      if replBacklog == "" {
        replBacklog := seq(replBacklogSize, i => '\0');
      }
      assert Now() == start;
      assert data[0..] == data;
      for i := 0 to |data|
        invariant Valid() && replBacklog != "" && masterReplOffset == old(masterReplOffset)
        invariant FeedBytes(Now(), data[i..]) == FeedBytes(start, data)
      {
        assert data[i..][1..] == data[i + 1..];
        replBacklog := replBacklog[replBacklogIdx := data[i]];
        replBacklogIdx := (replBacklogIdx + 1) % replBacklogSize;
        if replBacklogHistLen < replBacklogSize {
          replBacklogHistLen := replBacklogHistLen + 1;
        } else {
          replBacklogOff := replBacklogOff + 1;
        }
      }
      masterReplOffset := masterReplOffset + |data|;
    }

    // A write command goes into the backlog and to every replica, byte for byte the same.
    method PropagateToReplicas(cmd: seq<string>)
      requires Valid() && forall r <- replicas :: r.Valid()
      modifies this`replBacklog, this`replBacklogIdx, this`replBacklogOff, this`replBacklogHistLen, this`masterReplOffset
      modifies replicas
      ensures Valid() && forall r <- replicas :: r.Valid()
      ensures var data := Resp.Serialize(Resp.Array(RespParser.Bulks(cmd)));
        if old(replicas == [] && replBacklogHistLen == 0 && replId == "") then Now() == old(Now())
        else Now() == Feed(old(Now()), data) && forall r <- replicas :: r.replies == old(r.replies) + data
    {
      hide Feed;
      hide Resp.Serialize;
      if replicas == [] && replBacklogHistLen == 0 && replId == "" {
        return;
      }
      var resp := RespParser.BulkStringArray(cmd);
      FeedReplicationBacklog(resp);
      for i := 0 to |replicas|
        modifies replicas
        invariant forall r <- replicas :: r.Valid()
        invariant forall j :: 0 <= j < i ==> replicas[j].replies == old(replicas[j].replies) + resp
        invariant forall j :: i <= j < |replicas| ==> replicas[j].replies == old(replicas[j].replies)
      {
        replicas[i].AddReply(resp);
      }
    }
  }
}

// A client's two buffers and the server's handling of what arrives.

module Connections {
  import opened Resp
  import RespParser
  import Seqs

  const MAX_INPUT_BUFFER := 1024 * 1024 * 1024

  // What recv gives: bytes, none of them at the end of the stream, or one of its two kinds of
  // failure.
  datatype Read = Bytes(data: string) | WouldBlock | Failed

  class Connection {
    var inputBuffer: string
    var outputBuffer: string
    var outputPos: nat
    ghost var sent: string      // the bytes that the socket has taken so far
    ghost var replies: string   // the replies added so far

    // What has been sent and what is still pending make up the replies, in order.
    ghost predicate Valid()
      reads this
    {
      && outputPos <= |outputBuffer|
      && sent + outputBuffer[outputPos..] == replies
    }

    constructor ()
      ensures Valid() && inputBuffer == "" && replies == ""
    {
      inputBuffer, outputBuffer, outputPos := "", "", 0;
      sent, replies := "", "";
    }

    method AddReply(data: string)
      requires Valid()
      modifies this`outputBuffer, this`replies
      ensures Valid() && replies == old(replies) + data
    {
      assert (outputBuffer + data)[outputPos..] == outputBuffer[outputPos..] + data;
      Seqs.Assoc(sent, outputBuffer[outputPos..], data);
      outputBuffer := outputBuffer + data;
      replies := replies + data;
    }

    // The socket takes the first written bytes of what is offered; a negative count or none
    // is its answer when it would block or has failed.
    method WriteToSocket(written: int, wouldBlock: bool) returns (r: int)
      requires Valid() && written <= |outputBuffer| - outputPos
      modifies this`outputBuffer, this`outputPos, this`sent
      ensures Valid()
      ensures if written > 0
        then r == written && sent == old(sent + outputBuffer[outputPos..outputPos + written])
        else sent == old(sent) && (r == 0 || r == -1) && unchanged(this`outputBuffer, this`outputPos)
      ensures outputPos == |outputBuffer| ==> outputBuffer == "" || old(outputPos == |outputBuffer|)
    {
      if outputPos >= |outputBuffer| {
        return 0;
      }
      if written > 0 {
        var from := outputBuffer[outputPos..];
        assert from == from[..written] + from[written..];
        assert from[..written] == outputBuffer[outputPos..outputPos + written];
        assert from[written..] == outputBuffer[outputPos + written..];
        Seqs.Assoc(sent, from[..written], from[written..]);
        sent := sent + from[..written];
        outputPos := outputPos + written;
        if outputPos >= |outputBuffer| {
          assert outputBuffer[outputPos..] == "";
          outputBuffer, outputPos := "", 0;
        }
        return written;
      }
      return if wouldBlock then -1 else 0;
    }

    method ConsumeInput(bytes: nat)
      modifies this`inputBuffer
      ensures inputBuffer == if bytes >= |old(inputBuffer)| then "" else old(inputBuffer)[bytes..]
    {
      if bytes >= |inputBuffer| {
        inputBuffer := "";
      } else {
        inputBuffer := inputBuffer[bytes..];
      }
    }

    // The first half of processClientInput: the complete commands come off the front.
    method TakeCommands() returns (commands: seq<RespValue>)
      modifies this`inputBuffer
      ensures Batch(commands, inputBuffer) == ParseAll(old(inputBuffer))
    {
      var bytesConsumed;
      commands, bytesConsumed := RespParser.Parse(inputBuffer);
      if bytesConsumed > 0 {
        ConsumeInput(bytesConsumed);
      } else {
        assert inputBuffer[0..] == inputBuffer;
      }
    }

    // What was read goes behind what is left over. The answer is 0 where the connection is to end:
    // at the end of the stream, after an error and with an overfull buffer.
    method ReadFromSocket(read: Read) returns (nread: int)
      modifies this`inputBuffer
      ensures inputBuffer == old(inputBuffer) + Text(read)
      ensures nread == 0 <==> Ends(read, old(inputBuffer))
      ensures nread == -1 <==> read.WouldBlock?
      ensures read.Failed? || read == Bytes("") ==> nread == 0
      ensures read.Bytes? ==> nread == if |inputBuffer| <= 1024 * 1024 * 1024 then |read.data| else 0
    {
      match read {
        case Bytes(data) =>
          inputBuffer := inputBuffer + data;
          nread := if |inputBuffer| > MAX_INPUT_BUFFER then 0 else |data|;
        case WouldBlock => nread := -1;
        case Failed => nread := 0;
      }
      Seqs.Empty(old(inputBuffer));
    }

    // One readable event. When the socket has nothing after all, the connection stays and no
    // command is looked for.
    method OnReadable(read: Read) returns (open: bool, commands: seq<RespValue>)
      modifies this`inputBuffer
      ensures open == !Ends(read, old(inputBuffer))
      ensures if open && read.Bytes?
        then Batch(commands, inputBuffer) == ParseAll(old(inputBuffer) + read.data)
        else commands == [] && (open ==> inputBuffer == old(inputBuffer))
    {
      commands := [];
      var nread := ReadFromSocket(read);
      open := nread != 0;
      if nread > 0 {
        commands := TakeCommands();
      } else {
        Seqs.Empty(old(inputBuffer));
      }
    }
  }

  function Text(read: Read): (data: string) {
    if read.Bytes? then read.data else ""
  }

  // The end of the stream, an error, and more input than a client may leave unparsed.
  predicate Ends(read: Read, buffered: string) {
    match read
    case Bytes(data) => data == "" || |buffered| + |data| > MAX_INPUT_BUFFER
    case WouldBlock => false
    case Failed => true
  }

  function Arrived(events: seq<Read>): (chunks: seq<string>) {
    seq(|events|, i requires 0 <= i < |events| => Text(events[i]))
  }

  // No read ends the connection, given what those before it leave over.
  ghost predicate Lasting(events: seq<Read>) {
    forall i :: 0 <= i < |events| ==> LastingAt(events, i)
  }

  ghost predicate LastingAt(events: seq<Read>, i: nat)
    requires i < |events|
  {
    !Ends(events[i], ParseAll(Concat(Arrived(events[..i]))).rest)
  }

  // A whole connection, event by event: unless it ends early, its commands are those of one parse
  // of everything that arrived, and its buffer is what that parse leaves over.
  method Receive(events: seq<Read>) returns (c: Connection, open: bool, commands: seq<RespValue>)
    ensures fresh(c) && open == Lasting(events)
    ensures open ==> Batch(commands, c.inputBuffer) == ParseAll(Concat(Arrived(events)))
  {
    hide ParseAll;
    hide Concat;
    c := new Connection();
    commands := [];
    open := true;
    ParseNothing(Arrived(events[..0]));
    for i := 0 to |events|
      invariant fresh(c) && open
      invariant forall j :: 0 <= j < i ==> LastingAt(events, j)
      invariant Batch(commands, c.inputBuffer) == ParseAll(Concat(Arrived(events[..i])))
    {
      var more;
      open, more := c.OnReadable(events[i]);
      if !open {
        assert !LastingAt(events, i);
        return;
      }
      assert LastingAt(events, i);
      assert Arrived(events[..i + 1]) == Arrived(events[..i]) + [Text(events[i])];
      if events[i].Bytes? {
        ParseOneMore(Arrived(events[..i]), events[i].data);
      } else {
        ConcatOneMore(Arrived(events[..i]), "");
        Seqs.Empty(Concat(Arrived(events[..i])));
      }
      commands := commands + more;
    }
    assert events[..|events|] == events;
  }

  lemma ParseNothing(chunks: seq<string>)
    requires chunks == []
    ensures ParseAll(Concat(chunks)) == Batch([], "")
  {
    ChunkInvariance(chunks);
  }

  // One more read joins its commands to those of the earlier ones.
  lemma ParseOneMore(chunks: seq<string>, chunk: string)
    ensures var b := ParseAll(Concat(chunks));
      ParseAll(Concat(chunks + [chunk])) == Joined(b, ParseAll(b.rest + chunk))
  {
    ConcatOneMore(chunks, chunk);
    ParseAllIsIncremental();
    assert IncrementalAt(ParseAll, Concat(chunks), chunk);
  }

  lemma {:induction false} ConcatOneMore(chunks: seq<string>, chunk: string)
    ensures Concat(chunks + [chunk]) == Concat(chunks) + chunk
    decreases |chunks|
  {
    if chunks == [] {
      assert [chunk][1..] == [] && chunks + [chunk] == [chunk];
      Seqs.Empty(chunk);
    } else {
      assert (chunks + [chunk])[1..] == chunks[1..] + [chunk];
      ConcatOneMore(chunks[1..], chunk);
      Seqs.Assoc(chunks[0], Concat(chunks[1..]), chunk);
    }
  }
}

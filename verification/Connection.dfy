/** The receiving side of a connection (incoming_connection, incoming_read_cb): which callback reads
    next and from how many bytes on, driven by libevent's low watermark. */
module Connection {
  import opened Bytes
  import opened Header

  const SUCC_REQ: byte := 0x53   // 'S'
  const PRED_REQ: byte := 0x50   // 'P'
  const ALIVE_REQ: byte := 0x41  // 'A'
  const NOTIF: byte := 0x4E      // 'N'
  const NODE_MSG: byte := 0x4D   // 'M'

  /** The message types incoming_read_cb has a handler for. */
  predicate Handled(kind: byte) {
    kind == SUCC_REQ || kind == PRED_REQ || kind == ALIVE_REQ || kind == NOTIF || kind == NODE_MSG
  }

  /** The read callback installed on the connection. */
  datatype Reader = IncomingRead | Handler(kind: byte, len: Length)

  /** A call of the handler of a message type: the announced length and the bytes it finds. */
  datatype Call = Call(kind: byte, len: Length, available: seq<byte>)

  /** Reading callback, low watermark, read buffer, and the handler calls made so far. */
  datatype State = State(reader: Reader, low: nat, buffer: seq<byte>, calls: seq<Call>)

  const ACCEPTED := State(IncomingRead, HEADER, [], [])

  /** incoming_read_cb: with the whole message there the handler is called at once, otherwise it is
      installed, and in either case of missing data the watermark becomes the announced length. */
  function ReadHeader(s: State): (s': State)
    requires |s.buffer| >= 1 && s.low >= 1
    ensures s'.low >= 1
  {
    var p := Parse(s.buffer);
    var s1 := s.(buffer := p.rest);
    if |p.rest| < p.len then
      s1.(reader := if Handled(p.kind) then Handler(p.kind, p.len) else s.reader, low := p.len)
    else if Handled(p.kind) then s1.(calls := s.calls + [Call(p.kind, p.len, p.rest)])
    else s1
  }

  /** libevent: data is appended, and the read callback runs if the buffer has reached the watermark. */
  function OnData(s: State, chunk: seq<byte>): (s': State)
    requires s.low >= 1
    ensures s'.low >= 1
  {
    var s1 := s.(buffer := s.buffer + chunk);
    if chunk == [] then s
    else if |s1.buffer| < s.low then s1
    else
      match s.reader
      case IncomingRead => ReadHeader(s1)
      case Handler(kind, len) => s1.(calls := s.calls + [Call(kind, len, s1.buffer)])
  }

  /** The connection object. */
  class Connection {
    var reader: Reader
    var low: nat
    var buffer: seq<byte>
    var calls: seq<Call>

    ghost function Abs(): State
      reads this
    {
      State(reader, low, buffer, calls)
    }

    /** incoming_connection */
    constructor ()
      ensures Abs() == ACCEPTED
    {
      reader, low, buffer, calls := IncomingRead, HEADER, [], [];
    }

    /** incoming_read_cb */
    method IncomingReadCb()
      requires |buffer| >= 1 && low >= 1
      modifies this
      ensures Abs() == ReadHeader(old(Abs()))
    {
      var p := Parse(buffer);
      buffer := p.rest;
      if |buffer| < p.len {
        if Handled(p.kind) {
          reader := Handler(p.kind, p.len);
        }
        low := p.len;
      } else {
        if Handled(p.kind) {
          CallHandler(p.kind, p.len);
        }
      }
    }

    method CallHandler(kind: byte, len: Length)
      modifies this`calls
      ensures calls == old(calls) + [Call(kind, len, buffer)]
    {
      calls := calls + [Call(kind, len, buffer)];
    }

    /** Data comes in. */
    method DataArrives(chunk: seq<byte>)
      requires low >= 1
      modifies this
      ensures Abs() == OnData(old(Abs()), chunk)
    {
      if chunk == [] {
        return;
      }
      buffer := buffer + chunk;
      if |buffer| >= low {
        match reader
        case IncomingRead => IncomingReadCb();
        case Handler(kind, len) => CallHandler(kind, len);
      }
    }
  }

  /** All chunks arrive, one after the other. */
  function Receive(s: State, chunks: seq<seq<byte>>): (s': State)
    requires s.low >= 1
    ensures s'.low >= 1
    decreases |chunks|
  {
    if chunks == [] then s else Receive(OnData(s, chunks[0]), chunks[1..])
  }

  function Join(chunks: seq<seq<byte>>): seq<byte> {
    if chunks == [] then [] else chunks[0] + Join(chunks[1..])
  }

  /** A message whose header announces exactly its content. */
  function Framed(kind: byte, content: seq<byte>): (s: seq<byte>)
    requires |content| < 0x1_0000_0000
    ensures |s| == HEADER + |content|
  {
    Print(kind, |content|, content)
  }

  /** Where the message stands after got of its bytes: the handler has not been called before the last
      one is there, and by then it has been called once, with the whole content to read. */
  ghost predicate Follows(s: State, kind: byte, content: seq<byte>, got: seq<byte>)
    requires |content| < 0x1_0000_0000
  {
    if |got| < HEADER then s == State(IncomingRead, HEADER, got, [])
    else if |got| < HEADER + |content| then
      s == State(Handler(kind, |content|), |content|, got[HEADER..], [])
    else s.calls == [Call(kind, |content|, content)]
  }

  /** now is a beginning of the message that has the whole header. */
  ghost predicate Headed(kind: byte, content: seq<byte>, now: seq<byte>)
    requires |content| < 0x1_0000_0000
  {
    && HEADER <= |now| <= HEADER + |content|
    && Parse(now) == Parsed(kind, |content|, now[HEADER..])
    && (|now| == HEADER + |content| ==> now[HEADER..] == content)
  }

  /** A long enough beginning of the message parses like the message. */
  lemma HeaderOfPrefix(kind: byte, content: seq<byte>, now: seq<byte>)
    requires |content| < 0x1_0000_0000 && now <= Framed(kind, content) && |now| >= HEADER
    ensures Headed(kind, content, now)
  {
    var front := content[..|now| - HEADER];
    assert now == Print(kind, |content|, front);
    PrintParse(kind, |content|, front);
  }

  /** The chunk that completes the header. */
  lemma HeaderChunk(s: State, kind: byte, content: seq<byte>, got: seq<byte>, chunk: seq<byte>)
    requires Handled(kind) && |content| < 0x1_0000_0000 && chunk != []
    requires |got| < HEADER && Headed(kind, content, got + chunk)
    requires s == State(IncomingRead, HEADER, got, [])
    ensures Follows(OnData(s, chunk), kind, content, got + chunk)
  {
  }

  /** A chunk of the content, once the handler is installed. */
  lemma ContentChunk(s: State, kind: byte, content: seq<byte>, got: seq<byte>, chunk: seq<byte>)
    requires |content| < 0x1_0000_0000 && chunk != []
    requires HEADER <= |got| < HEADER + |content| && Headed(kind, content, got + chunk)
    requires s == State(Handler(kind, |content|), |content|, got[HEADER..], [])
    ensures Follows(OnData(s, chunk), kind, content, got + chunk)
  {
    assert got[HEADER..] + chunk == (got + chunk)[HEADER..];
  }

  lemma OneChunk(s: State, kind: byte, content: seq<byte>, got: seq<byte>, chunk: seq<byte>)
    requires Handled(kind) && |content| < 0x1_0000_0000 && chunk != []
    requires got + chunk <= Framed(kind, content)
    requires s.low >= 1 && Follows(s, kind, content, got)
    ensures Follows(OnData(s, chunk), kind, content, got + chunk)
  {
    if |got + chunk| >= HEADER {
      HeaderOfPrefix(kind, content, got + chunk);
      if |got| >= HEADER {
        ContentChunk(s, kind, content, got, chunk);
      } else {
        HeaderChunk(s, kind, content, got, chunk);
      }
    }
  }

  /** However the beginning of a message is split, the connection ends up in the same place. */
  lemma {:induction false} ChunksDoNotMatter(s: State, kind: byte, content: seq<byte>, got: seq<byte>,
                                             chunks: seq<seq<byte>>)
    requires Handled(kind) && |content| < 0x1_0000_0000
    requires got + Join(chunks) <= Framed(kind, content)
    requires s.low >= 1 && Follows(s, kind, content, got)
    ensures Follows(Receive(s, chunks), kind, content, got + Join(chunks))
    decreases |chunks|
  {
    if chunks == [] {
      assert got + [] == got;
    } else if chunks[0] == [] {
      assert [] + Join(chunks[1..]) == Join(chunks[1..]);
      ChunksDoNotMatter(s, kind, content, got, chunks[1..]);
    } else {
      var now := got + chunks[0];
      assert got + Join(chunks) == now + Join(chunks[1..]);
      assert now <= Framed(kind, content);
      OneChunk(s, kind, content, got, chunks[0]);
      ChunksDoNotMatter(OnData(s, chunks[0]), kind, content, now, chunks[1..]);
    }
  }

  /** However one message is split into chunks, its handler is called exactly once, with the
      whole content available. */
  lemma HandlerCalledOnce(kind: byte, content: seq<byte>, chunks: seq<seq<byte>>)
    requires Handled(kind) && |content| < 0x1_0000_0000
    requires Join(chunks) == Framed(kind, content)
    ensures Receive(ACCEPTED, chunks).calls == [Call(kind, |content|, content)]
  {
    assert [] + Join(chunks) == Join(chunks);
    ChunksDoNotMatter(ACCEPTED, kind, content, [], chunks);
  }

  /** And it is not called before the last byte has arrived. */
  lemma NotCalledEarly(kind: byte, content: seq<byte>, chunks: seq<seq<byte>>)
    requires Handled(kind) && |content| < 0x1_0000_0000
    requires Join(chunks) < Framed(kind, content)
    ensures Receive(ACCEPTED, chunks).calls == []
  {
    assert [] + Join(chunks) == Join(chunks);
    ChunksDoNotMatter(ACCEPTED, kind, content, [], chunks);
  }

  // ---------------------------------------------------------------- bytes beyond the announced length

  lemma {:induction false} ReceiveLast(s: State, chunks: seq<seq<byte>>, chunk: seq<byte>)
    requires s.low >= 1
    ensures Receive(s, chunks + [chunk]) == OnData(Receive(s, chunks), chunk)
    decreases |chunks|
  {
    if chunks == [] {
      assert [chunk][1..] == [];
    } else {
      assert (chunks + [chunk])[0] == chunks[0] && (chunks + [chunk])[1..] == chunks[1..] + [chunk];
      ReceiveLast(OnData(s, chunks[0]), chunks[1..], chunk);
    }
  }

  /** A request whose body goes on past the announced length, as those sent without content do: the chunk
      that completes header and announced length makes the one call, and the handler finds everything
      that has come in by then. */
  lemma HandlerFindsAllThatIsThere(kind: byte, len: Length, body: seq<byte>, chunks: seq<seq<byte>>, chunk: seq<byte>)
    requires Handled(kind) && |body| >= len
    requires Join(chunks) + chunk <= Print(kind, len, body)
    requires |Join(chunks)| < HEADER + len <= |Join(chunks) + chunk|
    ensures var s, got := Receive(ACCEPTED, chunks + [chunk]), Join(chunks) + chunk;
            && s.calls == [Call(kind, len, got[HEADER..])] && s.buffer == got[HEADER..]
            && (if |Join(chunks)| < HEADER then s.reader == IncomingRead && s.low == HEADER
                else s.reader == Handler(kind, len) && s.low == len)
  {
    var got, now := Join(chunks), Join(chunks) + chunk;
    var front := body[..len];
    PrintParse(kind, len, front);
    PrintParse(kind, len, body);
    assert got <= Framed(kind, front) by {
      assert Print(kind, len, body) == Print(kind, len, front) + body[len..];
    }
    assert [] + got == got;
    ChunksDoNotMatter(ACCEPTED, kind, front, [], chunks);
    ReceiveLast(ACCEPTED, chunks, chunk);
    LastChunk(Receive(ACCEPTED, chunks), kind, len, body, got, chunk);
  }

  lemma LastChunk(s: State, kind: byte, len: Length, body: seq<byte>, got: seq<byte>, chunk: seq<byte>)
    requires Handled(kind) && |body| >= len && got + chunk <= Print(kind, len, body)
    requires |got| < HEADER + len <= |got + chunk|
    requires s == if |got| < HEADER then State(IncomingRead, HEADER, got, [])
                  else State(Handler(kind, len), len, got[HEADER..], [])
    ensures var there := (got + chunk)[HEADER..];
            OnData(s, chunk) == s.(buffer := there, calls := [Call(kind, len, there)])
  {
    var now := got + chunk;
    if |got| < HEADER {
      PrintParse(kind, len, body);
      assert now == Print(kind, len, now[HEADER..]);
      PrintParse(kind, len, now[HEADER..]);
    } else {
      assert got[HEADER..] + chunk == now[HEADER..];
    }
  }

  /** The first data on a connection, when it is enough for the header. */
  lemma FirstData(data: seq<byte>, p: Parsed)
    requires |data| >= HEADER && Parse(data) == p
    ensures OnData(ACCEPTED, data) ==
            if |p.rest| < p.len then
              State(if Handled(p.kind) then Handler(p.kind, p.len) else IncomingRead, p.len, p.rest, [])
            else
              State(IncomingRead, HEADER, p.rest, if Handled(p.kind) then [Call(p.kind, p.len, p.rest)] else [])
  {
    assert [] + data == data;
    assert OnData(ACCEPTED, data) == ReadHeader(ACCEPTED.(buffer := data));
  }

  /** The whole of it in one chunk. */
  lemma WholeRequestAtOnce(kind: byte, len: Length, body: seq<byte>)
    requires Handled(kind) && |body| >= len
    ensures OnData(ACCEPTED, Print(kind, len, body)) == State(IncomingRead, HEADER, body, [Call(kind, len, body)])
  {
    PrintParse(kind, len, body);
    FirstData(Print(kind, len, body), Parsed(kind, len, body));
  }

  /** A message type without a handler calls nothing, whether its content is there or not. */
  lemma UnhandledIsIgnored(kind: byte, len: Length, body: seq<byte>)
    requires !Handled(kind)
    ensures OnData(ACCEPTED, Print(kind, len, body)) ==
            State(IncomingRead, if |body| < len then len else HEADER, body, [])
  {
    PrintParse(kind, len, body);
    FirstData(Print(kind, len, body), Parsed(kind, len, body));
  }

  /** Byte by byte: a type letter, eight zeros for the length, and what follows is there for the handler. The
      letters are S, P, A, N and M; any other calls nothing. */
  lemma RequestBytes(letter: char, body: seq<byte>)
    requires letter <= '~'
    ensures var zeros: seq<byte> := [0x30, 0x30, 0x30, 0x30, 0x30, 0x30, 0x30, 0x30];
            var kind: byte := letter as int;
            OnData(ACCEPTED, [kind] + zeros + body).calls ==
            if letter in "SPANM" then [Call(kind, 0, body)] else []
  {
    var kind: byte := letter as int;
    ZeroDigits();
    if Handled(kind) {
      WholeRequestAtOnce(kind, 0, body);
    } else {
      UnhandledIsIgnored(kind, 0, body);
    }
  }

  /** MSG_T_SUCC_REQ end to end: it announces length 0 and the id comes behind, so the handler is called once the
      header is there, and finds the id that was asked for exactly when the same chunk brings all of it. */
  lemma WhenTheIdIsThere(id: nat, big: bool, chunks: seq<seq<byte>>, chunk: seq<byte>)
    requires id < 0x1_0000_0000
    requires Join(chunks) + chunk <= Print(SUCC_REQ, 0, Store(id, 4, big))
    requires |Join(chunks)| < HEADER <= |Join(chunks) + chunk|
    ensures var s := Receive(ACCEPTED, chunks + [chunk]);
            && |s.calls| == 1 && s.calls[0].kind == 'S' as int
            && (|s.calls[0].available| == 4 <==> Join(chunks) + chunk == Print(SUCC_REQ, 0, Store(id, 4, big)))
            && (|s.calls[0].available| == 4 ==> Load(s.calls[0].available, big) == id)
  {
    var body, got := Store(id, 4, big), Join(chunks) + chunk;
    PrintParse(SUCC_REQ, 0, body);
    HandlerFindsAllThatIsThere(SUCC_REQ, 0, body, chunks, chunk);
    Widths();
    StoreLoad(id, 4, big);
    assert Print(SUCC_REQ, 0, body)[HEADER..] == body;
  }

  /** libevent's part: each chunk comes in when the callback for the one before has returned. */
  method Feed(c: Connection, chunks: seq<seq<byte>>)
    requires c.low >= 1
    modifies c
    ensures c.Abs() == Receive(old(c.Abs()), chunks)
  {
    var i := 0;
    while i < |chunks|
      invariant 0 <= i <= |chunks| && c.low >= 1
      invariant Receive(c.Abs(), chunks[i..]) == Receive(old(c.Abs()), chunks)
    {
      assert chunks[i..][0] == chunks[i] && chunks[i..][1..] == chunks[i + 1..];
      assert OnData(c.Abs(), chunks[i]).low >= 1;
      c.DataArrives(chunks[i]);
      i := i + 1;
    }
  }

  /** One message on a new connection: the handler of its type has been called exactly once. */
  method ReceiveMessage(kind: byte, content: seq<byte>, chunks: seq<seq<byte>>) returns (c: Connection)
    requires Handled(kind) && |content| < 0x1_0000_0000 && Join(chunks) == Framed(kind, content)
    ensures fresh(c) && c.calls == [Call(kind, |content|, content)]
  {
    c := new Connection();
    Feed(c, chunks);
    HandlerCalledOnce(kind, content, chunks);
  }
}

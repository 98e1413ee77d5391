/** A message from one end of a connection to the other: serializer, short writes, the byte stream,
    reads of any size, resumable parser. src/async-core/io/FutWrite.hpp and src/async-core/io/FutRead.hpp. */
module Transport {
  import opened Bytes
  import opened MessageParser
  import opened ChunkInvariance
  import opened Serializer
  import opened MessageRoundTrip
  import WriteEntity

  // What one read_part brought, and what lies behind the bytes the parser held when it was called with it.
  datatype Piece = Piece(data: Data, past: Data)

  datatype Read = Chunk(piece: Piece) | Fault(error: int)

  // Got: the future is completed. Hungry: the creator wants more than was read. Crashed: the parser threw
  // or read in front of its chunk.
  datatype Received = Got(created: Created) | Broken(error: int) | Hungry(parser: Parser) | Crashed(how: Outcome)

  function Answer(r: Fed): Received {
    match r.outcome
    case Pending => Hungry(r.parser)
    case Ready => Got(CreateEntity(r.parser))
    case _ => Crashed(r.outcome)
  }

  // read_entity
  function ReadMessage(p: Parser, parts: seq<Read>): Received
    requires Valid(p)
    decreases |parts|
  {
    if parts == [] then Hungry(p)
    else match parts[0]
      case Fault(error) => Broken(error)
      case Chunk(piece) =>
        var r := Feed(p, piece.past, piece.data);
        if r.outcome == Pending then ReadMessage(r.parser, parts[1..]) else Answer(r)
  }

  function Joined(pieces: seq<Piece>): Data {
    if pieces == [] then [] else pieces[0].data + Joined(pieces[1..])
  }

  function Reads(pieces: seq<Piece>): seq<Read> {
    if pieces == [] then [] else [Chunk(pieces[0])] + Reads(pieces[1..])
  }

  // ---- any stream

  // As long as the parser waits, every cut is admissible and gives the held bytes back; a came before.
  ghost predicate CutsAdmissible(p: Parser, x: Data, a: Data, pieces: seq<Piece>)
    requires Valid(p)
    decreases |pieces|
  {
    pieces != [] && Feed(p, x, a).outcome == Pending ==>
      var piece := pieces[0];
      && Admissible(p, x, a, piece.data)
      && Kept(Feed(p, x, a).parser, piece.past, piece.data) && (LF in a || Kept(p, x, piece.data))
      && CutsAdmissible(p, x, a + piece.data, pieces[1..])
  }

  // Reading a stream in pieces answers what feeding it at once answers, whatever the stream is.
  lemma {:induction false} PiecesJoin(p: Parser, x: Data, a: Data, pieces: seq<Piece>)
    requires Valid(p) && Feed(p, x, a).outcome == Pending && CutsAdmissible(p, x, a, pieces)
    ensures ReadMessage(Feed(p, x, a).parser, Reads(pieces)) == Answer(Feed(p, x, a + Joined(pieces)))
    decreases |pieces|
  {
    hide Feed, Admissible, Kept, CreateEntity, Valid;
    if pieces == [] {
      assert a + [] == a;
    } else {
      var piece, rest := pieces[0], Joined(pieces[1..]);
      ChunksJoin(p, x, piece.past, a, piece.data);
      assert Reads(pieces)[1..] == Reads(pieces[1..]);
      assert a + Joined(pieces) == a + piece.data + rest;
      if Feed(p, x, a + piece.data).outcome == Pending {
        PiecesJoin(p, x, a + piece.data, pieces[1..]);
      } else {
        Stable(p, x, a + piece.data, rest);
      }
    }
  }

  // Two admissible splits of one stream agree.
  lemma SplitsAgree(kind: Kind, pieces: seq<Piece>, others: seq<Piece>)
    requires Joined(pieces) == Joined(others)
    requires CutsAdmissible(Fresh(kind), [], [], pieces) && CutsAdmissible(Fresh(kind), [], [], others)
    ensures ReadMessage(Fresh(kind), Reads(pieces)) == ReadMessage(Fresh(kind), Reads(others))
  {
    NothingIsRead(kind);
    PiecesJoin(Fresh(kind), [], [], pieces);
    PiecesJoin(Fresh(kind), [], [], others);
  }

  // The body of whatever is received is a prefix of what follows the blank line in the stream.
  lemma BodyOfStream(kind: Kind, pieces: seq<Piece>, m: Message) returns (s: nat, n: nat)
    requires CutsAdmissible(Fresh(kind), [], [], pieces)
    requires ReadMessage(Fresh(kind), Reads(pieces)) == Got(Entity(m))
    ensures BodyAfter(Fresh(kind), [], Joined(pieces), 0, s, n) && m.body <= Joined(pieces)[n..]
  {
    hide CutsAdmissible, FeedLines, BodyAfter, ReadMessage;
    NothingIsRead(kind);
    PiecesJoin(Fresh(kind), [], [], pieces);
    assert [] + Joined(pieces) == Joined(pieces);
    ReadyIsInBody(Fresh(kind), [], Joined(pieces), 0);
    s, n := BodyIsPrefix(Fresh(kind), [], Joined(pieces), 0);
    BodyAfterMeans(Fresh(kind), [], Joined(pieces), s, n);
  }

  lemma BodyAfterMeans(p: Parser, past: Data, data: Data, s: nat, n: nat)
    requires Valid(p) && p.phase == HeadersRead && BodyAfter(p, past, data, 0, s, n)
    ensures n <= |data| && Feed(p, past, data).parser.body <= data[n..]
  {
    hide FeedLines, LineText;
  }

  // An empty read changes nothing.
  lemma NothingIsRead(kind: Kind)
    ensures Feed(Fresh(kind), [], []) == Fed(Fresh(kind), Pending)
  {
  }

  lemma {:induction false} ReadyIsInBody(p: Parser, past: Data, data: Data, i: nat)
    requires Valid(p) && p.phase == HeadersRead && LineStart(data, i)
    ensures var r := FeedLines(p, past, data, i);
            r.outcome == Ready && r.parser.err == None ==> r.parser.phase == BodyRead
    decreases |data| - i
  {
    hide Held, LineText, LineStop, NextLine, ParseFirstLine, ParseHeader;
    var e := Find(data, LF, i);
    if 0 < e < |data| {
      var line, next := LineText(p, past, data, i, e), NextLine(data, i, e);
      var t := TakeTurn(p, line, data[next..]);
      if t.Again? {
        ReadyIsInBody(t.parser, past, data, next);
      }
    }
  }

  // ---- reads that fail

  // An answer stands, whatever is read later.
  lemma {:induction false} AnswerStands(p: Parser, parts: seq<Read>, later: seq<Read>)
    requires Valid(p)
    ensures ReadMessage(p, parts).Hungry? ==> Valid(ReadMessage(p, parts).parser)
    ensures var r := ReadMessage(p, parts);
            ReadMessage(p, parts + later) == if r.Hungry? then ReadMessage(r.parser, later) else r
    decreases |parts|
  {
    hide Feed, CreateEntity, Valid;
    if parts == [] {
      assert parts + later == later;
    } else {
      assert (parts + later)[1..] == parts[1..] + later;
      if parts[0].Chunk? {
        var r := Feed(p, parts[0].piece.past, parts[0].piece.data);
        if r.outcome == Pending {
          AnswerStands(r.parser, parts[1..], later);
        }
      }
    }
  }

  // A read that fails while the parser waits ends the reading with its error, and nothing else does.
  lemma {:induction false} FaultExact(p: Parser, parts: seq<Read>, error: int)
    requires Valid(p)
    ensures ReadMessage(p, parts) == Broken(error) <==>
              exists k :: 0 <= k < |parts| && parts[k] == Fault(error) && ReadMessage(p, parts[..k]).Hungry?
    decreases |parts|
  {
    hide Feed, CreateEntity, Valid;
    forall k | 0 <= k < |parts| && parts[k] == Fault(error) && ReadMessage(p, parts[..k]).Hungry?
      ensures ReadMessage(p, parts) == Broken(error)
    {
      FaultIsAnswered(p, parts[..k], error, parts[k + 1..]);
      assert parts[..k] + [Fault(error)] + parts[k + 1..] == parts;
    }
    if ReadMessage(p, parts) == Broken(error) {
      if parts[0].Fault? {
        assert parts[..0] == [];
      } else {
        var r, rest := Feed(p, parts[0].piece.past, parts[0].piece.data), parts[1..];
        FaultExact(r.parser, rest, error);
        var k :| 0 <= k < |rest| && rest[k] == Fault(error) && ReadMessage(r.parser, rest[..k]).Hungry?;
        assert parts[..k + 1][1..] == rest[..k];
      }
    }
  }

  lemma FaultIsAnswered(p: Parser, parts: seq<Read>, error: int, later: seq<Read>)
    requires Valid(p) && ReadMessage(p, parts).Hungry?
    ensures ReadMessage(p, parts + [Fault(error)] + later) == Broken(error)
  {
    hide Feed, CreateEntity, Valid;
    assert parts + [Fault(error)] + later == parts + ([Fault(error)] + later);
    AnswerStands(p, parts, [Fault(error)] + later);
  }

  // ---- a message

  // `before` came before. While the first `head` bytes of the stream are read, no piece starts with a line
  // feed, and a piece that closes a line begun before it finds a NUL behind the bytes held.
  predicate KeepsLineEnds(pieces: seq<Piece>, before: Data, head: nat)
    decreases |pieces|
  {
    pieces != [] ==>
      && (|before| < head ==> KeepsLine(pieces[0], before))
      && KeepsLineEnds(pieces[1..], before + pieces[0].data, head)
  }

  predicate KeepsLine(piece: Piece, before: Data) {
    && (piece.data != [] ==> piece.data[0] != LF)
    && (LF in piece.data ==> before == [] || before[|before| - 1] == LF || Quiet(piece.past))
  }

  lemma {:induction false} RemainderIsNulFree(p: Parser, data: Data, i: nat)
    requires Valid(p) && p.phase == HeadersRead && LineStart(data, i)
    requires NulFree(p.notHandled) && NulFree(data)
    ensures NulFree(FeedLines(p, [], data, i).parser.notHandled)
    decreases |data| - i
  {
    hide LineText, LineStop, NextLine;
    var e := Find(data, LF, i);
    if 0 < e < |data| {
      var line, next := LineText(p, [], data, i, e), NextLine(data, i, e);
      var t := TakeTurn(p, line, data[next..]);
      if t.Again? {
        RemainderIsNulFree(t.parser, data, next);
      }
    }
  }

  // The next cut of a stream that keeps the lines of the head is admissible.
  lemma CutInHead(m: Message, stream: Data, at: nat, piece: Piece)
    requires Sendable(m) && Head(m) <= stream && at < |Head(m)| && KeepsLine(piece, stream[..at])
    requires Feed(Fresh(KindOf(m)), [], stream[..at]).outcome == Pending
    ensures var p, a := Fresh(KindOf(m)), stream[..at];
            Admissible(p, [], a, piece.data) && Kept(Feed(p, [], a).parser, piece.past, piece.data)
  {
    hide Head;
    var p, a := Fresh(KindOf(m)), stream[..at];
    var q := Feed(p, [], a).parser;
    if q.phase == HeadersRead {
      HeldExact(q, piece.past);
      if a != [] && a[|a| - 1] == LF {
        NothingIsHeld(p, [], a, 0);
      } else if a != [] {
        assert a == Head(m)[..at];
        HeadIsNulFree(m);
        RemainderIsNulFree(p, a, 0);
      }
    }
  }

  lemma CutInBody(m: Message, stream: Data, at: nat, piece: Piece)
    requires Sendable(m) && Head(m) <= stream && |Head(m)| <= at <= |stream|
    requires Feed(Fresh(KindOf(m)), [], stream[..at]).outcome == Pending
    ensures var p, a := Fresh(KindOf(m)), stream[..at];
            Admissible(p, [], a, piece.data) && Kept(Feed(p, [], a).parser, piece.past, piece.data)
  {
    hide Head, FeedLines;
    var head := Head(m);
    var rest := stream[|head|..at];
    assert stream[..at] == head + rest;
    HeadIsRead(m, rest);
    HeadEnds(m);
    assert rest == [] ==> stream[..at] == head;
  }

  lemma CutIsAdmissible(m: Message, stream: Data, at: nat, piece: Piece)
    requires Sendable(m) && Head(m) <= stream && at <= |stream|
    requires at < |Head(m)| ==> KeepsLine(piece, stream[..at])
    requires Feed(Fresh(KindOf(m)), [], stream[..at]).outcome == Pending
    ensures var p, a := Fresh(KindOf(m)), stream[..at];
            && Admissible(p, [], a, piece.data) && Kept(Feed(p, [], a).parser, piece.past, piece.data)
            && Kept(p, [], piece.data)
  {
    hide Head, Feed, Admissible, CleanStart, CleanHeaders, BodyDeclared;
    if at < |Head(m)| {
      CutInHead(m, stream, at, piece);
    } else {
      CutInBody(m, stream, at, piece);
    }
  }

  lemma {:induction false} CutsAreAdmissible(m: Message, stream: Data, at: nat, pieces: seq<Piece>)
    requires Sendable(m) && Head(m) <= stream && at <= |stream| && stream[at..] == Joined(pieces)
    requires KeepsLineEnds(pieces, stream[..at], |Head(m)|)
    ensures CutsAdmissible(Fresh(KindOf(m)), [], stream[..at], pieces)
    decreases |pieces|
  {
    hide Feed, Sendable, Head, Admissible, Kept, Fresh, KindOf, Valid, KeepsLine;
    if pieces != [] && Feed(Fresh(KindOf(m)), [], stream[..at]).outcome == Pending {
      var piece, rest := pieces[0], Joined(pieces[1..]);
      StreamAround(stream, at, piece.data, rest);
      CutIsAdmissible(m, stream, at, piece);
      CutsAreAdmissible(m, stream, at + |piece.data|, pieces[1..]);
    }
  }

  // The stream around the chunk at `at`.
  lemma StreamAround(stream: Data, at: nat, chunk: Data, rest: Data)
    requires at <= |stream| && stream[at..] == chunk + rest
    ensures at + |chunk| <= |stream| && stream[at + |chunk|..] == rest
    ensures stream[..at] + chunk == stream[..at + |chunk|]
  {
    var b := at + |chunk|;
    assert |stream| == at + |chunk| + |rest|;
    assert forall i :: 0 <= i < |chunk| ==> stream[at + i] == stream[at..][i];
    assert stream[at..b] == chunk;
    assert stream[b..] == rest;
  }

  // The whole stream in one chunk, with anything after the message.
  lemma WholeIsRead(m: Message, stream: Data)
    requires Sendable(m) && Wire(m) <= stream
    ensures var r := Feed(Fresh(KindOf(m)), [], stream);
            r.outcome == Ready && CreateEntity(r.parser) == Entity(m)
  {
    hide Head, Feed;
    var rest := stream[|Head(m)|..];
    assert stream == Head(m) + rest;
    HeadIsRead(m, rest);
    assert rest[..|m.body|] == m.body;
    assert [] + m.body == m.body;
  }

  // However the stream is cut, the reader gets the message that the stream starts with.
  lemma StreamIsRead(m: Message, pieces: seq<Piece>)
    requires Sendable(m) && Wire(m) <= Joined(pieces) && KeepsLineEnds(pieces, [], |Head(m)|)
    ensures ReadMessage(Fresh(KindOf(m)), Reads(pieces)) == Got(Entity(m))
  {
    hide Head, Feed, CleanStart, CleanHeaders, BodyDeclared, CreateEntity, Fresh, KindOf, Valid;
    var stream := Joined(pieces);
    assert stream[..0] == [] && stream[0..] == stream && [] + stream == stream;
    NothingIsRead(KindOf(m));
    assert Head(m) <= Wire(m);
    CutsAreAdmissible(m, stream, 0, pieces);
    PiecesJoin(Fresh(KindOf(m)), [], [], pieces);
    WholeIsRead(m, stream);
  }

  // ---- end to end

  // Whatever the short writes took and however the reads cut the stream, a message whose writing is
  // reported complete is the message the reader gets.
  lemma EndToEnd(m: Message, writes: seq<WriteEntity.Write>, pieces: seq<Piece>)
    requires Sendable(m)
    requires WriteEntity.WriteMessage(SerialOf(m), 0, writes, []).outcome.Done?
    requires Joined(pieces) == WriteEntity.WriteMessage(SerialOf(m), 0, writes, []).log
    requires KeepsLineEnds(pieces, [], |Head(m)|)
    ensures ReadMessage(Fresh(KindOf(m)), Reads(pieces)) == Got(Entity(m))
  {
    WriteEntity.WriteMessageDelivers(SerialOf(m), 0, writes, []);
    assert [] + Remaining(SerialOf(m)) == Wire(m);
    StreamIsRead(m, pieces);
  }

  // The same for the two message types by name.
  lemma RequestEndToEnd(verb: Data, path: Data, version: Data, headers: map<Data, Data>, body: Data,
                        writes: seq<WriteEntity.Write>, pieces: seq<Piece>)
    requires Token(verb) && Token(path) && version != [] && LineSafe(version) && CleanHeaders(headers)
    requires if verb == "GET" then body == []
             else |body| < SIZE_LIMIT && CONTENT_LENGTH in headers && headers[CONTENT_LENGTH] == Decimal(|body|)
    requires var m := Message(RequestLine(verb, path, version), headers, body);
             var sent := WriteEntity.WriteMessage(SerialOf(m), 0, writes, []);
             sent.outcome.Done? && Joined(pieces) == sent.log && KeepsLineEnds(pieces, [], |Head(m)|)
    ensures ReadMessage(Fresh(RequestKind), Reads(pieces))
            == Got(Entity(Message(RequestLine(verb, path, version), headers, body)))
  {
    hide Head;
    var m := Message(RequestLine(verb, path, version), headers, body);
    if verb != "GET" {
      DecimalDeclaresBody(m);
    }
    EndToEnd(m, writes, pieces);
  }

  lemma ResponseEndToEnd(version: Data, code: nat, status: Data, headers: map<Data, Data>, body: Data,
                         writes: seq<WriteEntity.Write>, pieces: seq<Piece>)
    requires Token(version) && 100 <= code < 600 && status != [] && LineSafe(status) && CleanHeaders(headers)
    requires |body| < SIZE_LIMIT && CONTENT_LENGTH in headers && headers[CONTENT_LENGTH] == Decimal(|body|)
    requires var m := Message(StatusLine(version, Some(code), status), headers, body);
             var sent := WriteEntity.WriteMessage(SerialOf(m), 0, writes, []);
             sent.outcome.Done? && Joined(pieces) == sent.log && KeepsLineEnds(pieces, [], |Head(m)|)
    ensures ReadMessage(Fresh(ResponseKind), Reads(pieces))
            == Got(Entity(Message(StatusLine(version, Some(code), status), headers, body)))
  {
    hide Head;
    var m := Message(StatusLine(version, Some(code), status), headers, body);
    DecimalDeclaresBody(m);
    EndToEnd(m, writes, pieces);
  }
}

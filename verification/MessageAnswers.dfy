/** What the parsers answer to first lines, header lines and bodies of any kind, and what any entity that
    was received is like. */
module MessageAnswers {
  import opened Bytes
  import opened MessageParser
  import opened ChunkInvariance
  import opened Serializer
  import opened MessageRoundTrip
  import opened Transport

  // ---- one line

  lemma RequestLineExact(start: StartLine, a: Data, b: Data, c: Data)
    requires start.RequestLine? && ' ' !in a && ' ' !in b
    ensures var r := ParseFirstLine(start, a + " " + b + " " + c);
            if a == "" || b == "" || c == "" then r.error == Some(RequestParse)
            else r == FirstLine(RequestLine(a, b, c), None)
  {
    hide Find;
    ThreeTokens(a + " " + b + " " + c, a, b, c);
  }

  // An invalid code is reported before an empty status is.
  lemma StatusLineExact(start: StartLine, a: Data, b: Data, c: Data)
    requires start.StatusLine? && ' ' !in a && ' ' !in b
    ensures var r := ParseFirstLine(start, a + " " + b + " " + c);
            if a == "" || b == "" then r.error == Some(ResponseParse)
            else if !(100 <= Atoi(b) < 600) then r.error == Some(InvalidStatusCode)
            else if c == "" then r.error == Some(ResponseParse)
            else r == FirstLine(StatusLine(a, Some(Atoi(b)), c), None)
  {
    hide Find, Atoi;
    ThreeTokens(a + " " + b + " " + c, a, b, c);
  }

  lemma FewTokens(start: StartLine, line: Data)
    requires forall i, j :: 0 <= i < j < |line| ==> line[i] != ' ' || line[j] != ' '
    ensures ParseFirstLine(start, line).error == Some(if start.RequestLine? then RequestParse else ResponseParse)
  {
  }

  // The one character after the first colon is dropped, whatever it is; it has to be there.
  lemma HeaderLineExact(key: Data, val: Data, gap: char)
    requires ':' !in key
    ensures ParseHeader(key + [':', gap] + val) == Pair(key, val)
    ensures ParseHeader(key + ":") == OutOfRange
    ensures ParseHeader(key) == NoColon
  {
    var line := key + [':', gap] + val;
    FindIs(line, ':', 0, |key|);
    FindIs(key + ":", ':', 0, |key|);
    assert line[..|key|] == key && line[|key| + 2..] == val;
  }

  // ---- one message, fed at once

  lemma BadFirstLine(kind: Kind, line: Data, rest: Data)
    requires line != [] && LF !in line && ParseFirstLine(Fresh(kind).start, line).error.Some?
    ensures var r := Feed(Fresh(kind), [], line + CRLF + rest);
            && r.outcome == Ready
            && CreateEntity(r.parser) == Failed(ParseFirstLine(Fresh(kind).start, line).error.value)
  {
    hide FeedLines, ParseFirstLine;
    LineIsRead(Fresh(kind), [], line, rest);
    assert [] + (line + CRLF + rest) == line + CRLF + rest;
  }

  // A header line without a colon ends the reading with an error, one that its first colon ends throws.
  lemma BadHeaderLine(kind: Kind, line: Data, fields: seq<Field>, bad: Data, rest: Data)
    requires line != [] && LF !in line && AllWritable(fields)
    requires ParseFirstLine(Fresh(kind).start, line).error == None
    requires bad != [] && LF !in bad && ':' !in bad[..|bad| - 1]
    ensures var r := Feed(Fresh(kind), [], line + CRLF + (FieldLines(fields) + (bad + CRLF + rest)));
            if bad[|bad| - 1] == ':' then r.outcome == Throws
            else r.outcome == Ready
                 && CreateEntity(r.parser) == Failed(if kind == RequestKind then RequestParse else ResponseParse)
  {
    hide FeedLines, ParseFirstLine, FieldLines, AllWritable, ParseHeader;
    var p, tail := Fresh(kind), FieldLines(fields) + (bad + CRLF + rest);
    LineIsRead(p, [], line, tail);
    FirstTurnIsRead(p, line, tail);
    var q := p.(start := ParseFirstLine(p.start, line).start, firstLineHandled := true);
    FieldsAreRead(q, fields, [] + line + CRLF, bad + CRLF + rest);
    var key := bad[..|bad| - 1];
    assert bad == key + [bad[|bad| - 1]];
    HeaderLineExact(key, [], ' ');
    if bad[|key|] != ':' {
      HeaderLineExact(bad, [], ' ');
    }
    LineIsRead(q.(headers := Written(map[], fields)), [] + line + CRLF + FieldLines(fields), bad, rest);
    assert [] + (line + CRLF + tail) == line + CRLF + tail;
  }

  // ---- streams

  // What is answered once the head is read: `rest` is what follows the blank line.
  ghost predicate AnswersBody(r: Received, start: StartLine, headers: map<Data, Data>, rest: Data) {
    if start.RequestLine? && start.verb == "GET" then r == Got(Entity(Message(start, headers, "")))
    else if "Content-Length" !in headers || Stoul(headers["Content-Length"]) == None then r == Crashed(Throws)
    else
      var n := Stoul(headers["Content-Length"]).value;
      if |rest| >= n then r == Got(Entity(Message(start, headers, rest[..n]))) else r.Hungry?
  }

  lemma BodyIsAnswered(kind: Kind, start: StartLine, fields: seq<Field>, rest: Data)
    requires start.RequestLine? == kind.RequestKind? && (start.StatusLine? ==> start.code.Some?)
    ensures AnswersBody(Answer(ReadBody(HeadParser(kind, start, fields), rest)), start, Written(map[], fields), rest)
  {
    hide Stoul, Written;
    assert [] + rest == rest && forall n :: 0 <= n <= |rest| ==> [] + rest[..n] == rest[..n];
  }

  lemma StreamJoins(kind: Kind, pieces: seq<Piece>)
    requires CutsAdmissible(Fresh(kind), [], [], pieces)
    ensures ReadMessage(Fresh(kind), Reads(pieces)) == Answer(Feed(Fresh(kind), [], Joined(pieces)))
  {
    hide Feed, Fresh, CutsAdmissible, Joined, Reads, ReadMessage;
    NothingIsRead(kind);
    PiecesJoin(Fresh(kind), [], [], pieces);
    assert [] + Joined(pieces) == Joined(pieces);
  }

  // A request of any three tokens and any header lines, with anything behind the blank line.
  lemma RequestStream(verb: Data, path: Data, version: Data, fields: seq<Field>, rest: Data, pieces: seq<Piece>)
    requires ' ' !in verb && ' ' !in path && LF !in verb + path + version && AllWritable(fields)
    requires CutsAdmissible(Fresh(RequestKind), [], [], pieces)
    requires Joined(pieces) == verb + " " + path + " " + version + CRLF + (FieldLines(fields) + CRLF + rest)
    ensures var r := ReadMessage(Fresh(RequestKind), Reads(pieces));
            if verb == "" || path == "" || version == "" then r == Got(Failed(RequestParse))
            else AnswersBody(r, RequestLine(verb, path, version), Written(map[], fields), rest)
  {
    hide Feed, ReadBody, CutsAdmissible, Joined, Reads, ReadMessage, ParseFirstLine, FieldLines, AllWritable;
    hide AnswersBody, Written;
    var line := verb + " " + path + " " + version;
    StreamJoins(RequestKind, pieces);
    RequestLineExact(Fresh(RequestKind).start, verb, path, version);
    if verb == "" || path == "" || version == "" {
      BadFirstLine(RequestKind, line, FieldLines(fields) + CRLF + rest);
    } else {
      AnyHeadIsRead(RequestKind, line, fields, rest);
      BodyIsAnswered(RequestKind, RequestLine(verb, path, version), fields, rest);
    }
  }

  // A response with any text in the place of its code.
  lemma ResponseStream(version: Data, code: Data, status: Data, fields: seq<Field>, rest: Data, pieces: seq<Piece>)
    requires ' ' !in version && ' ' !in code && LF !in version + code + status && AllWritable(fields)
    requires CutsAdmissible(Fresh(ResponseKind), [], [], pieces)
    requires Joined(pieces) == version + " " + code + " " + status + CRLF + (FieldLines(fields) + CRLF + rest)
    ensures var r := ReadMessage(Fresh(ResponseKind), Reads(pieces));
            if version == "" || code == "" then r == Got(Failed(ResponseParse))
            else if Atoi(code) < 100 || Atoi(code) >= 600 then r == Got(Failed(InvalidStatusCode))
            else if status == "" then r == Got(Failed(ResponseParse))
            else AnswersBody(r, StatusLine(version, Some(Atoi(code)), status), Written(map[], fields), rest)
  {
    hide Feed, ReadBody, CutsAdmissible, Joined, Reads, ReadMessage, ParseFirstLine, FieldLines, AllWritable;
    hide AnswersBody, Written, Atoi;
    var line := version + " " + code + " " + status;
    StreamJoins(ResponseKind, pieces);
    StatusLineExact(Fresh(ResponseKind).start, version, code, status);
    if version == "" || code == "" || status == "" || !(100 <= Atoi(code) < 600) {
      BadFirstLine(ResponseKind, line, FieldLines(fields) + CRLF + rest);
    } else {
      AnyHeadIsRead(ResponseKind, line, fields, rest);
      BodyIsAnswered(ResponseKind, StatusLine(version, Some(Atoi(code)), status), fields, rest);
    }
  }

  // A response with a printed code: accepted if and only if the code lies between 100 and 599.
  lemma StatusRangeExact(version: Data, c: nat, status: Data, fields: seq<Field>, rest: Data, pieces: seq<Piece>)
    requires Token(version) && status != [] && LF !in status && AllWritable(fields)
    requires CutsAdmissible(Fresh(ResponseKind), [], [], pieces)
    requires Joined(pieces) == version + " " + Decimal(c) + " " + status + CRLF + (FieldLines(fields) + CRLF + rest)
    ensures var r := ReadMessage(Fresh(ResponseKind), Reads(pieces));
            if 100 <= c < 600 then AnswersBody(r, StatusLine(version, Some(c), status), Written(map[], fields), rest)
            else r == Got(Failed(InvalidStatusCode))
  {
    hide CutsAdmissible, Joined, Reads, ReadMessage, FieldLines, AllWritable, AnswersBody, Written, Atoi, Decimal;
    DecimalRoundTrip(c);
    assert forall d :: d in Decimal(c) ==> IsDigit(d);
    ResponseStream(version, Decimal(c), status, fields, rest, pieces);
  }

  // A header line that is not a key, a colon and one more character.
  lemma BadHeaderStream(kind: Kind, line: Data, fields: seq<Field>, bad: Data, rest: Data, pieces: seq<Piece>)
    requires line != [] && LF !in line && AllWritable(fields)
    requires ParseFirstLine(Fresh(kind).start, line).error == None
    requires bad != [] && LF !in bad && ':' !in bad[..|bad| - 1]
    requires CutsAdmissible(Fresh(kind), [], [], pieces)
    requires Joined(pieces) == line + CRLF + (FieldLines(fields) + (bad + CRLF + rest))
    ensures ReadMessage(Fresh(kind), Reads(pieces))
            == if bad[|bad| - 1] == ':' then Crashed(Throws)
               else Got(Failed(if kind == RequestKind then RequestParse else ResponseParse))
  {
    hide Feed, CutsAdmissible, Joined, Reads, ReadMessage, ParseFirstLine, FieldLines, AllWritable;
    StreamJoins(kind, pieces);
    BadHeaderLine(kind, line, fields, bad, rest);
  }

  // ---- whatever is received

  // A first line that was accepted.
  predicate Accepted(start: StartLine) {
    match start
    case RequestLine(verb, path, version) =>
      verb != [] && path != [] && version != [] && ' ' !in verb && ' ' !in path
    case StatusLine(version, code, status) =>
      version != [] && ' ' !in version && status != [] && code.Some? && 100 <= code.value < 600
  }

  // What the fields of a parser look like between two chunks.
  predicate Sane(p: Parser) {
    && (p.firstLineHandled && p.err == None ==> Accepted(p.start))
    && (!p.firstLineHandled ==> p.headers == map[] && p.err == None && !IsGet(p.start) && p.contentLength == None)
    && (p.contentLength.Some? ==>
          !IsGet(p.start) && CONTENT_LENGTH in p.headers && Stoul(p.headers[CONTENT_LENGTH]) == p.contentLength)
  }

  // An answer that is an entity: what the entity is like.
  predicate SaneAnswer(kind: Kind, c: Created) {
    && c != NoCode
    && (c.Entity? ==> Accepted(c.message.start) && BodyDeclared(c.message) && KindOf(c.message) == kind)
  }

  lemma BodyIsSane(p: Parser, rest: Data)
    requires Valid(p) && p.phase == BodyRead && Sane(p)
    ensures var r := ReadBody(p, rest);
            (r.outcome == Pending ==> Sane(r.parser) && r.parser.kind == p.kind)
            && (r.outcome == Ready ==> SaneAnswer(p.kind, CreateEntity(r.parser)))
  {
    hide Stoul;
  }

  lemma TurnIsSane(p: Parser, line: Data, rest: Data)
    requires Valid(p) && p.phase == HeadersRead && Sane(p)
    ensures var t := TakeTurn(p, line, rest);
            && (t.Again? ==> Sane(t.parser) && t.parser.kind == p.kind)
            && (t.Return? && t.fed.outcome == Pending ==> Sane(t.fed.parser) && t.fed.parser.kind == p.kind)
            && (t.Return? && t.fed.outcome == Ready ==> SaneAnswer(p.kind, CreateEntity(t.fed.parser)))
  {
    hide ReadBody, ParseHeader, Stoul, CreateEntity, SaneAnswer;
    if line == [] {
      BodyIsSane(p.(notHandled := [], phase := BodyRead), rest);
    } else {
      ErrorIsSane(TakeLine(p.(notHandled := []), line), p.kind);
    }
  }

  lemma ErrorIsSane(r: Fed, kind: Kind)
    ensures r.parser.err.Some? ==> SaneAnswer(kind, CreateEntity(r.parser))
  {
  }

  lemma {:induction false} LinesAreSane(p: Parser, past: Data, data: Data, i: nat)
    requires Valid(p) && p.phase == HeadersRead && LineStart(data, i) && Sane(p)
    ensures var r := FeedLines(p, past, data, i);
            && (r.outcome == Pending ==> Sane(r.parser) && r.parser.kind == p.kind)
            && (r.outcome == Ready ==> SaneAnswer(p.kind, CreateEntity(r.parser)))
    decreases |data| - i
  {
    hide LineText, NextLine, TakeTurn, CreateEntity, SaneAnswer;
    var e := Find(data, LF, i);
    if 0 < e < |data| {
      var line, next := LineText(p, past, data, i, e), NextLine(data, i, e);
      TurnIsSane(p, line, data[next..]);
      var t := TakeTurn(p, line, data[next..]);
      if t.Again? {
        LinesAreSane(t.parser, past, data, next);
      }
    }
  }

  lemma {:induction false} AnswersAreSane(p: Parser, parts: seq<Read>)
    requires Valid(p) && Sane(p)
    ensures ReadMessage(p, parts).Got? ==> SaneAnswer(p.kind, ReadMessage(p, parts).created)
    decreases |parts|
  {
    hide Sane, SaneAnswer, CreateEntity, FeedLines, ReadBody;
    if parts != [] && parts[0].Chunk? {
      var piece := parts[0].piece;
      if p.phase == HeadersRead {
        LinesAreSane(p, piece.past, piece.data, 0);
      } else {
        BodyIsSane(p, piece.data);
      }
      if Feed(p, piece.past, piece.data).outcome == Pending {
        AnswersAreSane(Feed(p, piece.past, piece.data).parser, parts[1..]);
      }
    }
  }

  // Whatever is read, in whatever pieces: no empty status code is ever used, and an entity that is received
  // has tokens as its first line, a code between 100 and 599, and as many bytes of body as it declares.
  lemma ReceivedIsSound(kind: Kind, parts: seq<Read>)
    ensures var r := ReadMessage(Fresh(kind), parts);
            && r != Got(NoCode)
            && (r.Got? && r.created.Entity? ==>
                  var m := r.created.message;
                  WellTyped(m) && Accepted(m.start) && BodyDeclared(m) && KindOf(m) == kind)
  {
    hide ReadMessage, BodyDeclared;
    AnswersAreSane(Fresh(kind), parts);
  }
}

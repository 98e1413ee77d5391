/** The resumable request and response parsers, src/http/parsers.

    The two sources are one text apart from the start line, the GET shortcut of `read_body`
    and the error code, so one machine carries a `Kind`. `Feed` says what one call of `operator()`
    does to the parser's fields; `RequestOrResponseParser` is the object that does it in place. */
module MessageParser {
  import opened Bytes

  datatype Kind = RequestKind | ResponseKind

  datatype Error = RequestParse | ResponseParse | InvalidStatusCode | IoError

  // The fields filled from the first line. A fresh response parser has no code.
  datatype StartLine =
    | RequestLine(verb: Data, path: Data, version: Data)
    | StatusLine(version: Data, code: Option<int>, status: Data)

  datatype Message = Message(start: StartLine, headers: map<Data, Data>, body: Data)

  datatype Phase = HeadersRead | BodyRead

  datatype Parser = Parser(
    kind: Kind,
    start: StartLine,
    headers: map<Data, Data>,
    body: Data,
    firstLineHandled: bool,
    notHandled: Data,
    contentLength: Option<nat>,
    err: Option<Error>,
    phase: Phase)

  // Throws: an exception leaves the call. Undefined: the source reads the byte before the chunk.
  datatype Outcome = Pending | Ready | Throws | Undefined

  datatype Fed = Fed(parser: Parser, outcome: Outcome)

  const CONTENT_LENGTH: Data := "Content-Length"

  function ParseError(kind: Kind): Error {
    if kind == RequestKind then RequestParse else ResponseParse
  }

  function Fresh(kind: Kind): (p: Parser)
    ensures Valid(p)
  {
    var start := if kind == RequestKind then RequestLine("", "", "") else StatusLine("", None, "");
    Parser(kind, start, map[], "", false, "", None, None, HeadersRead)
  }

  // What holds between any two calls.
  predicate Valid(p: Parser) {
    && p.start.RequestLine? == p.kind.RequestKind?
    && (p.phase == HeadersRead ==> p.contentLength == None)
    && (p.phase == BodyRead ==> p.notHandled == [])
    && (p.contentLength == None ==> p.body == [])
    && (p.contentLength.Some? ==> |p.body| <= p.contentLength.value)
  }

  // Response::Status::from
  function StatusFrom(text: Data): Option<int> {
    var v := Atoi(text);
    if v < 100 || v >= 600 then None else Some(v)
  }

  // parse_first_header: the fields assigned before an error stay assigned.
  datatype FirstLine = FirstLine(start: StartLine, error: Option<Error>)

  function ParseFirstLine(start: StartLine, s: Data): (r: FirstLine)
    ensures r.start.RequestLine? == start.RequestLine?
  {
    var bad := Some(if start.RequestLine? then RequestParse else ResponseParse);
    var a := Find(s, ' ', 0);
    if a == |s| || a == 0 then FirstLine(start, bad)
    else
      var b := Find(s, ' ', a + 1);
      match start
      case RequestLine(_, path, version) =>
        if b == |s| || b == a + 1 then FirstLine(RequestLine(s[..a], path, version), bad)
        else FirstLine(RequestLine(s[..a], s[a + 1..b], s[b + 1..]), if b + 1 == |s| then bad else None)
      case StatusLine(_, code, status) =>
        if b == |s| || b == a + 1 then FirstLine(StatusLine(s[..a], code, status), bad)
        else
          var c := StatusFrom(s[a + 1..b]);
          if c == None then FirstLine(StatusLine(s[..a], code, status), Some(InvalidStatusCode))
          else FirstLine(StatusLine(s[..a], c, s[b + 1..]), if b + 1 == |s| then bad else None)
  }

  // parse_header. substr(idx + 2) throws when the colon ends the line.
  datatype Header = NoColon | OutOfRange | Pair(key: Data, val: Data)

  function ParseHeader(line: Data): Header {
    var idx := Find(line, ':', 0);
    if idx == |line| then NoColon
    else if idx + 2 > |line| then OutOfRange
    else Pair(line[..idx], line[idx + 2..])
  }

  // What the loop does with one non-empty line; Pending means that the loop goes on.
  function TakeLine(p: Parser, line: Data): (r: Fed)
    requires Valid(p)
    ensures Valid(r.parser) && r.parser.phase == p.phase
  {
    if !p.firstLineHandled then
      var first := ParseFirstLine(p.start, line);
      var q := p.(firstLineHandled := true, start := first.start);
      if first.error.Some? then Fed(q.(err := first.error), Ready) else Fed(q, Pending)
    else match ParseHeader(line)
      case NoColon => Fed(p.(err := Some(ParseError(p.kind))), Ready)
      case OutOfRange => Fed(p, Throws)
      case Pair(key, val) => Fed(p.(headers := p.headers[key := val]), Pending)
  }

  function SetContentLength(p: Parser): (q: Parser)
    requires Valid(p) && p.phase == BodyRead
    ensures Valid(q) && q == p.(contentLength := q.contentLength)
  {
    if p.contentLength == None && CONTENT_LENGTH in p.headers
    then p.(contentLength := Stoul(p.headers[CONTENT_LENGTH]))
    else p
  }

  predicate IsGet(start: StartLine) {
    start.RequestLine? && start.verb == "GET"
  }

  // read_body, on the bytes from its second argument on.
  function ReadBody(p: Parser, rest: Data): (r: Fed)
    requires Valid(p) && p.phase == BodyRead
    ensures Valid(r.parser) && r.parser.phase == BodyRead
  {
    if IsGet(p.start) then Fed(p, Ready)
    else
      var q := SetContentLength(p);
      if q.contentLength == None then Fed(q, Throws)
      else
        var missing := q.contentLength.value - |q.body|;
        if |rest| >= missing then Fed(q.(body := q.body + rest[..missing]), Ready)
        else Fed(q.(body := q.body + rest), Pending)
  }

  predicate LineStart(data: Data, i: nat) {
    i <= |data| && (i > 0 ==> data[i - 1] == LF)
  }

  // Where the text of the line ending in the line feed at `e` stops: a carriage return before it is dropped.
  function LineStop(data: Data, i: nat, e: nat): (stop: nat)
    requires LineStart(data, i) && i <= e < |data| && e > 0 && data[e] == LF
    ensures i <= stop <= e
  {
    if data[e - 1] == CR then e - 1 else e
  }

  // Where the next line starts: one byte is skipped at `LineStop`, and a line feed after it.
  function NextLine(data: Data, i: nat, e: nat): (next: nat)
    requires LineStart(data, i) && i <= e < |data| && e > 0 && data[e] == LF
    ensures e < next && LineStart(data, next)
  {
    var stop := LineStop(data, i, e);
    if stop + 1 < |data| && data[stop + 1] == LF then stop + 2 else stop + 1
  }

  // One turn of the loop of operator(): the text of a line, and what follows the line in the chunk.
  datatype Turn = Again(parser: Parser) | Return(fed: Fed)

  function TakeTurn(p: Parser, line: Data, rest: Data): (t: Turn)
    requires Valid(p) && p.phase == HeadersRead
    ensures t.Again? ==> Valid(t.parser) && t.parser.phase == HeadersRead
    ensures t.Return? ==> Valid(t.fed.parser)
  {
    var q := p.(notHandled := []);
    if line == [] then Return(ReadBody(q.(phase := BodyRead), rest))
    else
      var r := TakeLine(q, line);
      if r.outcome == Pending then Again(r.parser) else Return(r)
  }

  // The string made of `not_handled_data`. The vector holds no NUL of its own, so the source reads on behind it:
  // `past` are the bytes found there, up to the first NUL.
  function Held(p: Parser, past: Data): Data {
    if p.notHandled == [] then [] else CString(p.notHandled + past)
  }

  function LineText(p: Parser, past: Data, data: Data, i: nat, e: nat): Data
    requires LineStart(data, i) && i <= e < |data| && e > 0 && data[e] == LF
  {
    Held(p, past) + data[i..LineStop(data, i, e)]
  }

  // The loop of operator(), from position i of the chunk.
  function FeedLines(p: Parser, past: Data, data: Data, i: nat): (r: Fed)
    requires Valid(p) && p.phase == HeadersRead && LineStart(data, i)
    ensures Valid(r.parser)
    decreases |data| - i
  {
    var e := Find(data, LF, i);
    if e == |data| then Fed(p.(notHandled := p.notHandled + data[i..]), Pending)
    else if e == 0 then Fed(p, Undefined)
    else
      var next := NextLine(data, i, e);
      match TakeTurn(p, LineText(p, past, data, i, e), data[next..])
      case Again(q) => FeedLines(q, past, data, next)
      case Return(r) => r
  }

  // operator()
  function Feed(p: Parser, past: Data, data: Data): (r: Fed)
    requires Valid(p)
    ensures Valid(r.parser)
  {
    if p.phase == HeadersRead then FeedLines(p, past, data, 0) else ReadBody(p, data)
  }

  datatype Created = Entity(message: Message) | Failed(error: Error) | NoCode

  // create_entity. NoCode: the optional status code is read while it is empty.
  function CreateEntity(p: Parser): Created {
    if p.err.Some? then Failed(p.err.value)
    else if p.start.StatusLine? && p.start.code == None then NoCode
    else Entity(Message(p.start, p.headers, p.body))
  }

  class RequestOrResponseParser {
    const kind: Kind
    var start: StartLine
    var headers: map<Data, Data>
    var body: Data
    var firstLineHandled: bool
    var notHandled: Data
    var contentLength: Option<nat>
    var err: Option<Error>
    var phase: Phase

    ghost function View(): Parser
      reads this
    {
      Parser(kind, start, headers, body, firstLineHandled, notHandled, contentLength, err, phase)
    }

    constructor (kind: Kind)
      ensures View() == Fresh(kind)
    {
      this.kind := kind;
      start := if kind == RequestKind then RequestLine("", "", "") else StatusLine("", None, "");
      headers, body, firstLineHandled, notHandled := map[], "", false, "";
      contentLength, err, phase := None, None, HeadersRead;
    }

    method HandleBody(data: Data, from: nat) returns (outcome: Outcome)
      requires Valid(View()) && phase == BodyRead && from <= |data|
      modifies this
      ensures Fed(View(), outcome) == ReadBody(old(View()), data[from..])
    {
      if IsGet(start) {
        return Ready;
      }
      if contentLength == None && CONTENT_LENGTH in headers {
        contentLength := Stoul(headers[CONTENT_LENGTH]);
      }
      if contentLength == None {
        return Throws;
      }
      var length := contentLength.value;
      if |data| - from + |body| >= length {
        assert data[from..from + (length - |body|)] == data[from..][..length - |body|];
        body := body + data[from..from + (length - |body|)];
        return Ready;
      } else {
        body := body + data[from..];
        return Pending;
      }
    }

    method HandleFirstLine(line: Data) returns (error: Option<Error>)
      modifies this`start
      ensures FirstLine(start, error) == ParseFirstLine(old(start), line)
    {
      var bad := Some(if start.RequestLine? then RequestParse else ResponseParse);
      var a := Find(line, ' ', 0);
      if a == |line| || a == 0 {
        return bad;
      }
      start := match start
        case RequestLine(_, path, version) => RequestLine(line[..a], path, version)
        case StatusLine(_, code, status) => StatusLine(line[..a], code, status);
      var b := Find(line, ' ', a + 1);
      if b == |line| || b == a + 1 {
        return bad;
      }
      match start {
        case RequestLine(verb, _, _) =>
          start := RequestLine(verb, line[a + 1..b], line[b + 1..]);
        case StatusLine(version, _, _) =>
          var code := StatusFrom(line[a + 1..b]);
          if code == None {
            return Some(InvalidStatusCode);
          }
          start := StatusLine(version, code, line[b + 1..]);
      }
      error := if b + 1 == |line| then bad else None;
    }

    // The body of the loop in operator() for a non-empty line; Pending means that the loop goes on.
    method HandleLine(line: Data) returns (outcome: Outcome)
      requires Valid(View())
      modifies this
      ensures Fed(View(), outcome) == TakeLine(old(View()), line)
    {
      if !firstLineHandled {
        firstLineHandled := true;
        var error := HandleFirstLine(line);
        if error.Some? {
          err := error;
          return Ready;
        }
      } else {
        match ParseHeader(line) {
          case NoColon =>
            err := Some(ParseError(kind));
            return Ready;
          case OutOfRange =>
            return Throws;
          case Pair(key, val) =>
            headers := headers[key := val];
        }
      }
      return Pending;
    }

    // `past`: what lies behind the bytes of notHandled in memory.
    method HandlePart(data: Data, past: Data) returns (outcome: Outcome)
      requires Valid(View())
      modifies this
      ensures Fed(View(), outcome) == Feed(old(View()), past, data)
    {
      if phase == BodyRead {
        assert data[0..] == data;
        outcome := HandleBody(data, 0);
        return;
      }
      var i := 0;
      while true
        invariant Valid(View()) && phase == HeadersRead && LineStart(data, i)
        invariant FeedLines(View(), past, data, i) == Feed(old(View()), past, data)
        decreases |data| - i
      {
        var e := Find(data, LF, i);
        if e == |data| {
          notHandled := notHandled + data[i..];
          return Pending;
        }
        if e == 0 {
          return Undefined;
        }
        var stop := LineStop(data, i, e);
        var line := [];
        if notHandled != [] {
          line := CString(notHandled + past);
          notHandled := [];
        }
        line := line + data[i..stop];
        var next := NextLine(data, i, e);
        if line == [] {
          phase := BodyRead;
          outcome := HandleBody(data, next);
          return;
        }
        outcome := HandleLine(line);
        if outcome != Pending {
          return;
        }
        i := next;
      }
    }

    method TakeEntity() returns (created: Created)
      requires Valid(View())
      ensures created == CreateEntity(View())
    {
      if err.Some? {
        return Failed(err.value);
      }
      if start.StatusLine? && start.code == None {
        return NoCode;
      }
      return Entity(Message(start, headers, body));
    }
  }
}

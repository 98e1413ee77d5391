/** Parsing what the serializers print gives the message back, for exactly the messages described here. */
module MessageRoundTrip {
  import opened Bytes
  import opened ChunkInvariance
  import opened MessageParser
  import opened Ordering
  import opened Serializer

  predicate LineSafe(s: Data) {
    NulFree(s) && LF !in s
  }

  // A token of the first line that a space ends.
  predicate Token(s: Data) {
    s != [] && LineSafe(s) && ' ' !in s
  }

  predicate CleanStart(start: StartLine) {
    match start
    case RequestLine(verb, path, version) => Token(verb) && Token(path) && version != [] && LineSafe(version)
    case StatusLine(version, code, status) => Token(version) && code.Some? && status != [] && LineSafe(status)
  }

  predicate CleanHeaders(headers: map<Data, Data>) {
    forall k :: k in headers ==> LineSafe(k) && ':' !in k && LineSafe(headers[k])
  }

  // The body's length is what the parser will believe it to be.
  predicate BodyDeclared(m: Message) {
    if IsGet(m.start) then m.body == []
    else CONTENT_LENGTH in m.headers && Stoul(m.headers[CONTENT_LENGTH]) == Some(|m.body|)
  }

  predicate Sendable(m: Message) {
    WellTyped(m) && CleanStart(m.start) && CleanHeaders(m.headers) && BodyDeclared(m)
  }

  function KindOf(m: Message): Kind {
    if m.start.RequestLine? then RequestKind else ResponseKind
  }

  // The parser after the head of m.
  function AfterHead(m: Message): (p: Parser)
    ensures Valid(p) && p.phase == BodyRead
  {
    Fresh(KindOf(m)).(start := m.start, headers := m.headers, firstLineHandled := true, phase := BodyRead)
  }

  // ---- one line

  // Where the line written after pre lies.
  lemma LineIsFound(p: Parser, pre: Data, line: Data, rest: Data)
    requires p.notHandled == [] && LF !in line && LineStart(pre, |pre|)
    ensures var data := pre + (line + CRLF + rest);
            var e := |pre| + |line| + 1;
            && LineStart(data, |pre|) && Find(data, LF, |pre|) == e
            && LineText(p, [], data, |pre|, e) == line
            && NextLine(data, |pre|, e) == |pre + line + CRLF|
            && data == (pre + line + CRLF) + rest
  {
    var data := pre + (line + CRLF + rest);
    var e := |pre| + |line| + 1;
    FindIs(data, LF, |pre|, e);
    assert data[|pre|..e - 1] == line;
    assert data == (pre + line + CRLF) + rest;
  }

  // The loop takes the line written after pre in one turn.
  lemma LineIsRead(p: Parser, pre: Data, line: Data, rest: Data)
    requires Valid(p) && p.phase == HeadersRead && p.notHandled == [] && LF !in line && LineStart(pre, |pre|)
    ensures var data := pre + (line + CRLF + rest);
            && LineStart(data, |pre|) && LineStart(pre + line + CRLF, |pre + line + CRLF|)
            && data == (pre + line + CRLF) + rest
            && var t := TakeTurn(p, line, rest);
               FeedLines(p, [], data, |pre|)
               == if t.Again? then FeedLines(t.parser, [], data, |pre + line + CRLF|) else t.fed
  {
    hide TakeTurn, LineText, NextLine, LineStop, Find, NulFree;
    LineIsFound(p, pre, line, rest);
    var data, here := pre + (line + CRLF + rest), pre + line + CRLF;
    assert data[|here|..] == rest;
  }

  // A text around a line that ends in a bare line feed.
  lemma BareLineLies(pre: Data, line: Data, rest: Data, data: Data, e: nat)
    requires data == pre + (line + "\n" + rest) && e == |pre| + |line| && LF !in line && LineStart(pre, |pre|)
    requires pre + line != [] && (line != [] ==> line[|line| - 1] != CR)
    ensures e < |data| && LineStart(data, |pre|) && Find(data, LF, |pre|) == e && data[|pre|..e] == line
    ensures e > 0 && data[e - 1] != CR && data[e + 1..] == rest
  {
    hide Find;
    FindIs(data, LF, |pre|, e);
    assert data[|pre|..e] == line;
    assert data[e + 1..] == rest;
  }

  lemma BareLineIsTaken(p: Parser, data: Data, i: nat, e: nat, rest: Data)
    requires p.notHandled == [] && LineStart(data, i) && i <= e && 0 < e < |data| && data[e] == LF
    requires data[e - 1] != CR && data[e + 1..] == rest
    ensures var skip := if rest != [] && rest[0] == LF then 1 else 0;
            && LineText(p, [], data, i, e) == data[i..e] && NextLine(data, i, e) == e + 1 + skip
            && data[e + 1 + skip..] == rest[skip..]
  {
    var tail := data[e + 1..];
    assert rest[0..] == rest;
    if rest != [] {
      assert data[e + 1] == tail[0] && data[e + 2..] == tail[1..];
    }
  }

  // A line that ends in a bare line feed is taken in one turn too; another line feed at once is skipped with it.
  lemma BareLineIsRead(p: Parser, pre: Data, line: Data, rest: Data, data: Data)
    requires Valid(p) && p.phase == HeadersRead && p.notHandled == [] && LF !in line && LineStart(pre, |pre|)
    requires pre + line != [] && (line != [] ==> line[|line| - 1] != CR) && data == pre + (line + "\n" + rest)
    ensures var skip := if rest != [] && rest[0] == LF then 1 else 0;
            var next := |pre| + |line| + 1 + skip;
            && LineStart(data, |pre|) && LineStart(data, next)
            && var t := TakeTurn(p, line, rest[skip..]);
               FeedLines(p, [], data, |pre|) == if t.Again? then FeedLines(t.parser, [], data, next) else t.fed
  {
    hide TakeTurn, LineText, NextLine, LineStop, Find;
    var e := |pre| + |line|;
    BareLineLies(pre, line, rest, data, e);
    BareLineIsTaken(p, data, |pre|, e, rest);
  }

  // A header line as it is written: any character may follow the colon.
  datatype Field = Field(key: Data, gap: char, val: Data)

  function FieldText(f: Field): Data {
    f.key + [':', f.gap] + f.val
  }

  predicate Writable(f: Field) {
    LF !in f.key && ':' !in f.key && f.gap != LF && LF !in f.val
  }

  lemma HeaderIsRead(p: Parser, f: Field, rest: Data)
    requires Valid(p) && p.phase == HeadersRead && p.firstLineHandled && p.notHandled == [] && Writable(f)
    ensures TakeTurn(p, FieldText(f), rest) == Again(p.(headers := p.headers[f.key := f.val]))
    ensures LF !in FieldText(f)
  {
    var line := FieldText(f);
    FindIs(line, ':', 0, |f.key|);
    assert line[..|f.key|] == f.key && line[|f.key| + 2..] == f.val;
  }

  // The token a of s starts at i and a space follows it.
  lemma TokenIsFound(s: Data, i: nat, a: Data)
    requires i + |a| < |s| && s[i + |a|] == ' ' && ' ' !in a
    requires forall j :: 0 <= j < |a| ==> s[i + j] == a[j]
    ensures Find(s, ' ', i) == i + |a| && s[i..i + |a|] == a
  {
    forall j | i <= j < i + |a| ensures s[j] != ' ' {
      assert s[i + (j - i)] == a[j - i];
    }
    FindIs(s, ' ', i, i + |a|);
  }

  lemma ThreeTokens(s: Data, a: Data, b: Data, c: Data)
    requires s == a + " " + b + " " + c && ' ' !in a && ' ' !in b
    ensures Find(s, ' ', 0) == |a| && Find(s, ' ', |a| + 1) == |a| + 1 + |b|
    ensures s[..|a|] == a && s[|a| + 1..|a| + 1 + |b|] == b && s[|a| + 1 + |b| + 1..] == c
  {
    TokenIsFound(s, 0, a);
    TokenIsFound(s, |a| + 1, b);
  }

  lemma RequestLineIsRead(verb: Data, path: Data, version: Data, start: StartLine)
    requires CleanStart(RequestLine(verb, path, version)) && start.RequestLine?
    ensures ParseFirstLine(start, verb + " " + path + " " + version)
            == FirstLine(RequestLine(verb, path, version), None)
  {
    hide Find;
    ThreeTokens(verb + " " + path + " " + version, verb, path, version);
  }

  lemma StatusLineIsRead(version: Data, code: nat, status: Data, start: StartLine)
    requires CleanStart(StatusLine(version, Some(code), status)) && 100 <= code < 600 && start.StatusLine?
    ensures ParseFirstLine(start, version + " " + Decimal(code) + " " + status)
            == FirstLine(StatusLine(version, Some(code), status), None)
  {
    hide Find, Decimal, Atoi;
    DecimalRoundTrip(code);
    ThreeTokens(version + " " + Decimal(code) + " " + status, version, Decimal(code), status);
  }

  lemma FirstLineIsRead(m: Message, start: StartLine)
    requires WellTyped(m) && CleanStart(m.start) && start.RequestLine? == m.start.RequestLine?
    ensures ParseFirstLine(start, StartText(m)) == FirstLine(m.start, None)
    ensures StartText(m) != [] && LF !in StartText(m)
  {
    hide ParseFirstLine;
    match m.start
    case RequestLine(verb, path, version) =>
      RequestLineIsRead(verb, path, version, start);
    case StatusLine(version, code, status) =>
      StatusLineIsRead(version, code.value, status, start);
  }

  // ---- the header lines

  function FieldLines(fields: seq<Field>): Data {
    if fields == [] then [] else FieldText(fields[0]) + CRLF + FieldLines(fields[1..])
  }

  function Written(headers: map<Data, Data>, fields: seq<Field>): map<Data, Data>
    decreases |fields|
  {
    if fields == [] then headers else Written(headers[fields[0].key := fields[0].val], fields[1..])
  }

  predicate AllWritable(fields: seq<Field>) {
    forall i :: 0 <= i < |fields| ==> Writable(fields[i])
  }

  // A key that comes more than once has the value of its last field.
  lemma {:induction false} LastFieldWins(headers: map<Data, Data>, fields: seq<Field>, key: Data)
    ensures key in Written(headers, fields) <==>
              key in headers || exists i :: 0 <= i < |fields| && fields[i].key == key
    ensures (forall i :: 0 <= i < |fields| ==> fields[i].key != key) && key in headers ==>
              Written(headers, fields)[key] == headers[key]
    ensures forall i :: (0 <= i < |fields| && fields[i].key == key
                         && forall j :: i < j < |fields| ==> fields[j].key != key) ==>
              Written(headers, fields)[key] == fields[i].val
    decreases |fields|
  {
    if fields != [] {
      var rest := fields[1..];
      LastFieldWins(headers[fields[0].key := fields[0].val], rest, key);
      assert forall i :: 0 < i < |fields| ==> fields[i] == rest[i - 1];
      assert forall i :: 0 <= i < |rest| ==> rest[i] == fields[i + 1];
    }
  }

  lemma LinesSplit(fields: seq<Field>, rest: Data)
    requires fields != []
    ensures FieldLines(fields) + rest == FieldText(fields[0]) + CRLF + (FieldLines(fields[1..]) + rest)
  {
    hide FieldText;
  }

  // From a line start after the first line: any header lines.
  lemma {:induction false} FieldsAreRead(p: Parser, fields: seq<Field>, pre: Data, rest: Data)
    requires Valid(p) && p.phase == HeadersRead && p.firstLineHandled && p.notHandled == []
    requires AllWritable(fields) && LineStart(pre, |pre|)
    ensures var data, here := pre + (FieldLines(fields) + rest), pre + FieldLines(fields);
            && LineStart(data, |pre|) && LineStart(here, |here|) && LineStart(data, |here|) && data == here + rest
            && FeedLines(p, [], data, |pre|)
               == FeedLines(p.(headers := Written(p.headers, fields)), [], data, |here|)
    decreases |fields|
  {
    hide FeedLines, FieldText;
    if fields == [] {
      assert pre + (FieldLines(fields) + rest) == pre + rest && pre + FieldLines(fields) == pre;
    } else {
      hide TakeTurn, FieldLines, Writable;
      var f := fields[0];
      var tail := FieldLines(fields[1..]) + rest;
      LinesSplit(fields, rest);
      LinesSplit(fields, []);
      HeaderIsRead(p, f, tail);
      LineIsRead(p, pre, FieldText(f), tail);
      FieldsAreRead(p.(headers := p.headers[f.key := f.val]), fields[1..], pre + FieldText(f) + CRLF, rest);
      assert pre + FieldLines(fields) == pre + FieldText(f) + CRLF + FieldLines(fields[1..]);
    }
  }

  // Then the blank line and the body.
  lemma HeadersAreRead(p: Parser, fields: seq<Field>, pre: Data, rest: Data)
    requires Valid(p) && p.phase == HeadersRead && p.firstLineHandled && p.notHandled == []
    requires AllWritable(fields) && LineStart(pre, |pre|)
    ensures var data := pre + (FieldLines(fields) + CRLF + rest);
            && LineStart(data, |pre|)
            && FeedLines(p, [], data, |pre|)
               == ReadBody(p.(headers := Written(p.headers, fields), phase := BodyRead), rest)
  {
    hide FeedLines, ReadBody, FieldLines, Written, AllWritable, LineStart;
    var q := p.(headers := Written(p.headers, fields));
    assert FieldLines(fields) + CRLF + rest == FieldLines(fields) + (CRLF + rest);
    FieldsAreRead(p, fields, pre, CRLF + rest);
    assert [] + CRLF + rest == CRLF + rest;
    LineIsRead(q, pre + FieldLines(fields), [], rest);
    assert q == q.(notHandled := []);
  }

  // The parser after a head with this first line and these fields.
  function HeadParser(kind: Kind, start: StartLine, fields: seq<Field>): (p: Parser)
    requires start.RequestLine? == kind.RequestKind?
    ensures Valid(p) && p.phase == BodyRead
  {
    Fresh(kind).(start := start, headers := Written(map[], fields), firstLineHandled := true, phase := BodyRead)
  }

  lemma FirstTurnIsRead(p: Parser, line: Data, rest: Data)
    requires Valid(p) && p.phase == HeadersRead && !p.firstLineHandled && p.notHandled == [] && line != []
    requires ParseFirstLine(p.start, line).error == None
    ensures TakeTurn(p, line, rest) == Again(p.(start := ParseFirstLine(p.start, line).start, firstLineHandled := true))
  {
    hide ParseFirstLine;
  }

  // Any accepted first line and any header lines, in any order and with keys repeated, then a blank line.
  lemma AnyHeadIsRead(kind: Kind, line: Data, fields: seq<Field>, rest: Data)
    requires line != [] && LF !in line && AllWritable(fields)
    requires ParseFirstLine(Fresh(kind).start, line).error == None
    ensures Feed(Fresh(kind), [], line + CRLF + (FieldLines(fields) + CRLF + rest))
            == ReadBody(HeadParser(kind, ParseFirstLine(Fresh(kind).start, line).start, fields), rest)
  {
    hide FeedLines, ReadBody, TakeTurn, ParseFirstLine, LineStart, FieldLines, Written, AllWritable;
    var p := Fresh(kind);
    var tail := FieldLines(fields) + CRLF + rest;
    AtStart();
    LineIsRead(p, [], line, tail);
    FirstTurnIsRead(p, line, tail);
    var q := p.(start := ParseFirstLine(p.start, line).start, firstLineHandled := true);
    HeadersAreRead(q, fields, [] + line + CRLF, rest);
    assert [] + (line + CRLF + tail) == line + CRLF + tail;
  }

  lemma AtStart()
    ensures LineStart([], 0)
  {
  }

  // ---- the printed head

  function FieldsOf(keys: seq<Data>, headers: map<Data, Data>): seq<Field>
    requires forall k :: k in keys ==> k in headers
  {
    seq(|keys|, i requires 0 <= i < |keys| => Field(keys[i], ' ', headers[keys[i]]))
  }

  lemma {:induction false} PrintedLines(keys: seq<Data>, headers: map<Data, Data>)
    requires forall k :: k in keys ==> k in headers && NulFree(k) && NulFree(headers[k])
    ensures HeadersText(keys, headers) == FieldLines(FieldsOf(keys, headers))
    decreases |keys|
  {
    if keys != [] {
      PrintedLines(keys[1..], headers);
      assert FieldsOf(keys, headers)[1..] == FieldsOf(keys[1..], headers);
    }
  }

  lemma AllWritten(headers: map<Data, Data>)
    ensures var keys := InOrder(headers.Keys); Written(map[], FieldsOf(keys, headers)) == headers
  {
    hide Written, Less;
    var keys := InOrder(headers.Keys);
    var fields := FieldsOf(keys, headers);
    var w := Written(map[], fields);
    forall k: Data ensures (k in w <==> k in headers) && (k in headers ==> w[k] == headers[k]) {
      LastFieldWins(map[], fields, k);
      if k in headers {
        var i :| 0 <= i < |keys| && keys[i] == k;
        KeysDiffer(keys);
        assert fields[i].key == k;
      }
    }
  }

  lemma KeysDiffer(keys: seq<Data>)
    requires Ascending(keys)
    ensures forall i, j :: 0 <= i < j < |keys| ==> keys[i] != keys[j]
  {
    forall i, j | 0 <= i < j < |keys| ensures keys[i] != keys[j] {
      LessIsIrreflexive(keys[i]);
    }
  }

  lemma HeadSplits(m: Message, rest: Data)
    requires WellTyped(m) && forall k :: k in m.headers ==> NulFree(k) && NulFree(m.headers[k])
    ensures Head(m) + rest
            == StartText(m) + CRLF + (FieldLines(FieldsOf(InOrder(m.headers.Keys), m.headers)) + CRLF + rest)
  {
    hide StartText, HeadersText, FieldLines, FieldsOf;
    PrintedLines(InOrder(m.headers.Keys), m.headers);
  }

  // What is printed for a message without NULs: the three parts of its first line, its header lines in the
  // order of the keys with a colon and a blank in them, an empty line, and the body.
  lemma WireIsPrinted(m: Message)
    requires WellTyped(m) && forall k :: k in m.headers ==> NulFree(k) && NulFree(m.headers[k])
    ensures var lines := FieldLines(FieldsOf(InOrder(m.headers.Keys), m.headers));
            match m.start
            case RequestLine(verb, path, version) =>
              NulFree(verb) && NulFree(path) && NulFree(version) ==>
                Wire(m) == verb + " " + path + " " + version + "\r\n" + (lines + "\r\n" + m.body)
            case StatusLine(version, code, status) =>
              NulFree(version) && NulFree(status) ==>
                Wire(m) == version + " " + Decimal(code.value) + " " + status + "\r\n" + (lines + "\r\n" + m.body)
  {
    hide FieldLines, FieldsOf, Decimal, HeadersText;
    HeadSplits(m, m.body);
  }

  // The head of a clean message puts the parser in the state AfterHead, whatever follows the head.
  lemma HeadIsRead(m: Message, rest: Data)
    requires WellTyped(m) && CleanStart(m.start) && CleanHeaders(m.headers)
    ensures Feed(Fresh(KindOf(m)), [], Head(m) + rest) == ReadBody(AfterHead(m), rest)
  {
    hide Feed, ReadBody, StartText, FieldLines, Written, Head, ParseFirstLine, Ascending;
    HeadSplits(m, rest);
    FirstLineIsRead(m, Fresh(KindOf(m)).start);
    AnyHeadIsRead(KindOf(m), StartText(m), FieldsOf(InOrder(m.headers.Keys), m.headers), rest);
    AllWritten(m.headers);
  }

  // ---- which messages survive

  predicate Returns(m: Message)
    requires WellTyped(m)
  {
    var r := Feed(Fresh(KindOf(m)), [], Wire(m));
    r.outcome == Ready && CreateEntity(r.parser) == Entity(m)
  }

  lemma {:induction false} HeadersTextIsNulFree(keys: seq<Data>, headers: map<Data, Data>)
    requires forall k :: k in keys ==> k in headers
    ensures NulFree(HeadersText(keys, headers))
  {
    if keys != [] {
      HeadersTextIsNulFree(keys[1..], headers);
    }
  }

  lemma HeadIsNulFree(m: Message)
    requires WellTyped(m)
    ensures NulFree(Head(m))
  {
    HeadersTextIsNulFree(InOrder(m.headers.Keys), m.headers);
    assert NulFree(StartText(m)) by {
      if m.start.StatusLine? {
        assert NulFree(Decimal(m.start.code.value));
      }
    }
  }

  // What the fields of a parser that was fed no NUL look like.
  predicate Sound(p: Parser) {
    && LineSafe(p.notHandled) && CleanHeaders(p.headers)
    && (p.firstLineHandled && p.err == None ==> CleanStart(p.start))
    && (!p.firstLineHandled ==> p.headers == map[] && p.err == None && !IsGet(p.start))
  }

  lemma FirstLineIsSound(start: StartLine, line: Data)
    requires LineSafe(line) && ParseFirstLine(start, line).error == None
    ensures CleanStart(ParseFirstLine(start, line).start)
  {
  }

  lemma TurnIsSound(p: Parser, line: Data, rest: Data)
    requires Valid(p) && p.phase == HeadersRead && Sound(p) && LineSafe(line)
    ensures Sound(if TakeTurn(p, line, rest).Again? then TakeTurn(p, line, rest).parser
                  else TakeTurn(p, line, rest).fed.parser)
  {
    if line != [] && !p.firstLineHandled && ParseFirstLine(p.start, line).error == None {
      FirstLineIsSound(p.start, line);
    }
  }

  lemma {:induction false} LinesAreSound(p: Parser, data: Data, i: nat)
    requires Valid(p) && p.phase == HeadersRead && LineStart(data, i) && Sound(p) && NulFree(data)
    ensures Sound(FeedLines(p, [], data, i).parser)
    decreases |data| - i
  {
    var e := Find(data, LF, i);
    if 0 < e < |data| {
      var line, next := LineText(p, [], data, i, e), NextLine(data, i, e);
      assert p.notHandled + [] == p.notHandled;
      TurnIsSound(p, line, data[next..]);
      var t := TakeTurn(p, line, data[next..]);
      if t.Again? {
        LinesAreSound(t.parser, data, next);
      }
    }
  }

  // A parser fed a text that ends in a blank line does not wait for more header lines.
  lemma {:induction false} BlankLineEndsHead(p: Parser, data: Data, i: nat)
    requires Valid(p) && p.phase == HeadersRead && LineStart(data, i)
    requires |data| >= 4 && data[|data| - 4..] == CRLF + CRLF && i <= |data| - 2
    requires i > 0 ==> p.notHandled == []
    ensures FeedLines(p, [], data, i).outcome == Pending ==> FeedLines(p, [], data, i).parser.phase == BodyRead
    decreases |data| - i
  {
    hide Held;
    var h, e := |data|, Find(data, LF, i);
    assert data[h - 4..][0] == CR && data[h - 4..][1] == LF && data[h - 4..][2] == CR && data[h - 4..][3] == LF;
    assert e < h;
    if e > 0 {
      var line, next := LineText(p, [], data, i, e), NextLine(data, i, e);
      if e == h - 1 {
        assert i == h - 2;
        NoneHeld(p, []);
        assert data[i..LineStop(data, i, e)] == [];
      } else {
        var t := TakeTurn(p, line, data[next..]);
        if t.Again? {
          BlankLineEndsHead(t.parser, data, next);
        }
      }
    }
  }

  lemma NoneHeld(p: Parser, past: Data)
    requires p.notHandled == []
    ensures Held(p, past) == []
  {
  }

  // A ready answer in the headers is an error; in the body it means GET or a length.
  lemma {:induction false} ReadyMeans(p: Parser, past: Data, data: Data, i: nat)
    requires Valid(p) && p.phase == HeadersRead && LineStart(data, i)
    ensures var r := FeedLines(p, past, data, i);
            r.outcome == Ready && r.parser.err == None ==>
              IsGet(r.parser.start) || CONTENT_LENGTH in r.parser.headers
    decreases |data| - i
  {
    hide Held, LineText, LineStop, NextLine, Stoul, ParseFirstLine, ParseHeader;
    var e := Find(data, LF, i);
    if 0 < e < |data| {
      var line, next := LineText(p, past, data, i, e), NextLine(data, i, e);
      var t := TakeTurn(p, line, data[next..]);
      if t.Again? {
        ReadyMeans(t.parser, past, data, next);
      }
    }
  }

  // The fields of a message that returns were read from its head.
  lemma ReturnedIsClean(m: Message)
    requires WellTyped(m) && Returns(m)
    ensures CleanStart(m.start) && CleanHeaders(m.headers)
  {
    hide FeedLines, StartText, HeadersText;
    var p, head := Fresh(KindOf(m)), Head(m);
    HeadIsNulFree(m);
    LinesAreSound(p, head, 0);
    var r := Feed(p, [], head);
    assert |head| >= 4 && head[|head| - 4..] == CRLF + CRLF by {
      HeadEnds(m);
    }
    if r.outcome == Pending {
      BlankLineEndsHead(p, head, 0);
      ChunksJoin(p, [], [], head, m.body);
    } else {
      Stable(p, [], head, m.body);
    }
    ReadyMeans(p, [], head + m.body, 0);
  }

  lemma {:induction false} HeadersTextEnds(keys: seq<Data>, headers: map<Data, Data>)
    requires forall k :: k in keys ==> k in headers
    ensures keys != [] ==> CRLF <= HeadersText(keys, headers)[|HeadersText(keys, headers)| - 2..]
  {
    if |keys| > 1 {
      HeadersTextEnds(keys[1..], headers);
    }
  }

  lemma HeadEnds(m: Message)
    requires WellTyped(m)
    ensures |Head(m)| >= 4 && Head(m)[|Head(m)| - 4..] == CRLF + CRLF
  {
    HeadersTextEnds(InOrder(m.headers.Keys), m.headers);
  }

  // One serialization fed at once gives the message back exactly when the message is Sendable.
  lemma RoundTripExact(m: Message)
    requires WellTyped(m)
    ensures Returns(m) <==> Sendable(m)
  {
    hide FeedLines, Head, Stoul;
    if Returns(m) {
      ReturnedIsClean(m);
    }
    if CleanStart(m.start) && CleanHeaders(m.headers) {
      HeadIsRead(m, m.body);
      assert [] + m.body[..|m.body|] == m.body;
    }
  }

  // A message whose Content-Length was written with to_string declares its body.
  lemma DecimalDeclaresBody(m: Message)
    requires !IsGet(m.start) && |m.body| < SIZE_LIMIT
    requires CONTENT_LENGTH in m.headers && m.headers[CONTENT_LENGTH] == Decimal(|m.body|)
    ensures BodyDeclared(m)
  {
    DecimalRoundTrip(|m.body|);
  }
}

/** When the bytes held between two chunks decide what is parsed: the source makes a C string of them, which
    stops at a NUL among them and runs on into what lies behind them.
    src/http/parsers/HttpRequestParser.cpp:26-34. */
module HeldBytes {
  import opened Bytes
  import opened MessageParser
  import opened ChunkInvariance
  import opened MessageRoundTrip

  // ---- one closed line

  predicate ClosesLine(data: Data) {
    0 < Find(data, LF, 0) < |data|
  }

  // The part of the first line that lies in the chunk, and where the next line starts.
  function LineEnd(data: Data): Data
    requires ClosesLine(data)
  {
    data[..LineStop(data, 0, Find(data, LF, 0))]
  }

  function AfterLine(data: Data): (next: nat)
    requires ClosesLine(data)
    ensures LineStart(data, next) && 0 < next
  {
    NextLine(data, 0, Find(data, LF, 0))
  }

  // What a chunk does once the text of its first line is known.
  function FeedText(p: Parser, line: Data, data: Data): Fed
    requires Valid(p) && p.phase == HeadersRead && ClosesLine(data)
  {
    match TakeTurn(p, line, data[AfterLine(data)..])
    case Again(q) => FeedLines(q, [], data, AfterLine(data))
    case Return(r) => r
  }

  lemma FeedIsText(p: Parser, past: Data, data: Data)
    requires Valid(p) && p.phase == HeadersRead && ClosesLine(data)
    ensures Feed(p, past, data) == FeedText(p, Held(p, past) + LineEnd(data), data)
  {
    hide Held;
    var line := Held(p, past) + LineEnd(data);
    var t := TakeTurn(p, line, data[AfterLine(data)..]);
    if t.Again? {
      RemainderIsTaken(p, p, line, data[AfterLine(data)..]);
      PastUnused(t.parser, past, [], data, AfterLine(data));
    }
  }

  // ---- the first line stays

  lemma {:induction false} StartStays(p: Parser, past: Data, data: Data, i: nat)
    requires Valid(p) && p.phase == HeadersRead && LineStart(data, i) && p.firstLineHandled
    ensures FeedLines(p, past, data, i).parser.start == p.start
    decreases |data| - i
  {
    hide Held, LineText, LineStop, NextLine;
    var e := Find(data, LF, i);
    if 0 < e < |data| {
      var line, next := LineText(p, past, data, i, e), NextLine(data, i, e);
      var t := TakeTurn(p, line, data[next..]);
      if t.Again? {
        StartStays(t.parser, past, data, next);
      }
    }
  }

  lemma FirstLineDecides(p: Parser, line: Data, data: Data)
    requires Valid(p) && p.phase == HeadersRead && ClosesLine(data) && !p.firstLineHandled && line != []
    ensures var first, r := ParseFirstLine(p.start, line), FeedText(p, line, data);
            && r.parser.start == first.start
            && (first.error.Some? ==>
                  r == Fed(p.(notHandled := [], firstLineHandled := true, start := first.start, err := first.error),
                           Ready))
  {
    hide ParseFirstLine;
    var t := TakeTurn(p, line, data[AfterLine(data)..]);
    if t.Again? {
      StartStays(t.parser, [], data, AfterLine(data));
    }
  }

  // ---- the header lines after it

  lemma HeaderTurn(p: Parser, line: Data, rest: Data)
    requires Valid(p) && p.phase == HeadersRead && p.firstLineHandled && line != []
    ensures var h, q := ParseHeader(line), p.(notHandled := []);
            TakeTurn(p, line, rest)
            == if h.Pair? then Again(q.(headers := p.headers[h.key := h.val]))
               else if h.NoColon? then Return(Fed(q.(err := Some(ParseError(p.kind))), Ready))
               else Return(Fed(q, Throws))
  {
    hide ParseHeader;
  }

  lemma BlankTurn(p: Parser, rest: Data)
    requires Valid(p) && p.phase == HeadersRead
    ensures TakeTurn(p, [], rest) == Return(ReadBody(p.(notHandled := [], phase := BodyRead), rest))
    ensures ReadBody(p.(notHandled := [], phase := BodyRead), rest).parser.headers == p.headers
  {
  }

  lemma {:induction false} HeadersGrow(p: Parser, data: Data, i: nat)
    requires Valid(p) && p.phase == HeadersRead && LineStart(data, i) && p.firstLineHandled
    ensures FeedLines(p, [], data, i).parser.headers
            == p.headers + FeedLines(p.(headers := map[]), [], data, i).parser.headers
    decreases |data| - i
  {
    hide LineText, LineStop, NextLine, ParseHeader, TakeTurn, ReadBody;
    var e := Find(data, LF, i);
    if 0 < e < |data| {
      var o := p.(headers := map[]);
      var line, next := LineText(p, [], data, i, e), NextLine(data, i, e);
      SameLine(p, o, data, i, e);
      if line == [] {
        BlankTurn(p, data[next..]);
        BlankTurn(o, data[next..]);
      } else {
        HeaderTurn(p, line, data[next..]);
        HeaderTurn(o, line, data[next..]);
        var h := ParseHeader(line);
        if h.Pair? {
          HeadersGrow(p.(notHandled := [], headers := p.headers[h.key := h.val]), data, next);
          HeadersGrow(p.(notHandled := [], headers := map[h.key := h.val]), data, next);
        }
      }
    }
  }

  // The text of a line does not depend on the headers.
  lemma SameLine(p: Parser, q: Parser, data: Data, i: nat, e: nat)
    requires LineStart(data, i) && 0 < e < |data| && i <= e && data[e] == LF && q == p.(headers := q.headers)
    ensures LineText(p, [], data, i, e) == LineText(q, [], data, i, e)
  {
  }

  // Parsers that differ in their headers only, and end with the same headers, do the same.
  lemma {:induction false} SameEnd(p: Parser, q: Parser, data: Data, i: nat)
    requires Valid(p) && Valid(q) && p.phase == HeadersRead && LineStart(data, i) && p.firstLineHandled
    requires q == p.(headers := q.headers)
    requires FeedLines(p, [], data, i).parser.headers == FeedLines(q, [], data, i).parser.headers
    ensures FeedLines(p, [], data, i) == FeedLines(q, [], data, i)
    decreases |data| - i
  {
    hide LineText, LineStop, NextLine, ParseHeader, TakeTurn, ReadBody;
    var e := Find(data, LF, i);
    if e == |data| || e == 0 {
    } else {
      var line, next := LineText(p, [], data, i, e), NextLine(data, i, e);
      SameLine(p, q, data, i, e);
      if line == [] {
        BlankTurn(p, data[next..]);
        BlankTurn(q, data[next..]);
      } else {
        HeaderTurn(p, line, data[next..]);
        HeaderTurn(q, line, data[next..]);
        var h := ParseHeader(line);
        if h.Pair? {
          SameEnd(p.(notHandled := [], headers := p.headers[h.key := h.val]),
                  q.(notHandled := [], headers := q.headers[h.key := h.val]), data, next);
        }
      }
    }
  }

  // The headers that the lines after the first write.
  function Later(p: Parser, data: Data): map<Data, Data>
    requires Valid(p) && p.phase == HeadersRead && ClosesLine(data)
  {
    FeedLines(p.(notHandled := [], headers := map[]), [], data, AfterLine(data)).parser.headers
  }

  // What a header line does to the headers that the chunk leaves.
  lemma HeaderDecides(p: Parser, line: Data, data: Data)
    requires Valid(p) && p.phase == HeadersRead && ClosesLine(data) && p.firstLineHandled && line != []
    ensures var r, h := FeedText(p, line, data), ParseHeader(line);
            && (h.Pair? ==> r.parser.headers == p.headers[h.key := h.val] + Later(p, data))
            && (h.NoColon? ==> r == Fed(p.(notHandled := [], err := Some(ParseError(p.kind))), Ready))
            && (h.OutOfRange? ==> r == Fed(p.(notHandled := []), Throws))
  {
    hide ParseHeader, FeedLines;
    var h := ParseHeader(line);
    if h.Pair? {
      var q := p.(notHandled := [], headers := p.headers[h.key := h.val]);
      HeadersGrow(q, data, AfterLine(data));
      assert q.(headers := map[]) == p.(notHandled := [], headers := map[]);
    }
  }

  lemma HeadersDecide(p: Parser, line: Data, other: Data, data: Data)
    requires Valid(p) && p.phase == HeadersRead && ClosesLine(data) && p.firstLineHandled && line != [] && other != []
    requires ParseHeader(line).Pair? && ParseHeader(other).Pair?
    ensures FeedText(p, line, data) == FeedText(p, other, data) <==>
              FeedText(p, line, data).parser.headers == FeedText(p, other, data).parser.headers
  {
    hide ParseHeader, FeedLines;
    var g, h := ParseHeader(line), ParseHeader(other);
    var q := p.(notHandled := [], headers := p.headers[g.key := g.val]);
    var o := p.(notHandled := [], headers := p.headers[h.key := h.val]);
    if FeedText(p, line, data).parser.headers == FeedText(p, other, data).parser.headers {
      SameEnd(q, o, data, AfterLine(data));
    }
  }

  // What the lines after the first do on their own.
  function LaterAlone(p: Parser, data: Data): Fed
    requires Valid(p) && p.phase == HeadersRead && ClosesLine(data)
  {
    FeedLines(p.(notHandled := []), [], data, AfterLine(data))
  }

  // Where the loop stops at a header line, only the headers and the error differ from before.
  lemma {:induction false} StopsInHeader(p: Parser, data: Data, i: nat)
    requires Valid(p) && p.phase == HeadersRead && LineStart(data, i) && p.firstLineHandled && 0 < i
    requires p.notHandled == []
    ensures var r := FeedLines(p, [], data, i);
            && r.outcome != Undefined
            && (r.parser.phase == HeadersRead && r.outcome == Ready ==>
                  r.parser == p.(headers := r.parser.headers, err := Some(ParseError(p.kind))))
            && (r.parser.phase == HeadersRead && r.outcome == Throws ==>
                  r.parser == p.(headers := r.parser.headers))
            && (r.outcome == Pending && r.parser.phase == HeadersRead ==> r.parser.err == p.err)
    decreases |data| - i
  {
    hide LineText, LineStop, NextLine, ParseHeader, TakeTurn, ReadBody;
    var e := Find(data, LF, i);
    if e < |data| {
      var line, next := LineText(p, [], data, i, e), NextLine(data, i, e);
      if line == [] {
        BlankTurn(p, data[next..]);
        BodyGoesOn(p.(notHandled := [], phase := BodyRead), data[next..]);
      } else {
        HeaderTurn(p, line, data[next..]);
        var h := ParseHeader(line);
        if h.Pair? {
          StopsInHeader(p.(headers := p.headers[h.key := h.val]), data, next);
        }
      }
    }
  }

  lemma BodyGoesOn(p: Parser, rest: Data)
    requires Valid(p) && p.phase == BodyRead
    ensures ReadBody(p, rest).parser.phase == BodyRead && ReadBody(p, rest).outcome != Undefined
  {
  }

  // A header line that the later lines leave no trace of: they do what they do alone.
  lemma LineLeavesNoTrace(p: Parser, line: Data, data: Data)
    requires Valid(p) && p.phase == HeadersRead && ClosesLine(data) && p.firstLineHandled && line != []
    requires ParseHeader(line).Pair?
    ensures LaterAlone(p, data).parser.headers == p.headers + Later(p, data)
    ensures var h := ParseHeader(line);
            p.headers[h.key := h.val] + Later(p, data) == p.headers + Later(p, data) ==>
              FeedText(p, line, data) == LaterAlone(p, data)
  {
    hide ParseHeader, FeedLines;
    var h := ParseHeader(line);
    var q, o := p.(notHandled := []), p.(notHandled := [], headers := p.headers[h.key := h.val]);
    HeadersGrow(q, data, AfterLine(data));
    assert q.(headers := map[]) == p.(notHandled := [], headers := map[]);
    HeaderDecides(p, line, data);
    if p.headers[h.key := h.val] + Later(p, data) == p.headers + Later(p, data) {
      SameEnd(o, q, data, AfterLine(data));
    }
  }

  // ---- bytes behind the held ones

  // A remainder that the text of a first line starts with, three tokens after it has been completed.
  lemma FirstLineOf(start: StartLine, line: Data, a: Data, b: Data, c: Data)
    requires line == a + " " + b + " " + c && a != [] && b != [] && c != [] && ' ' !in a && ' ' !in b
    requires start.StatusLine? ==> StatusFrom(b).Some?
    ensures ParseFirstLine(start, line)
            == FirstLine(if start.RequestLine? then RequestLine(a, b, c) else StatusLine(a, StatusFrom(b), c), None)
  {
    hide Find, StatusFrom;
    ThreeTokens(line, a, b, c);
  }

  // ---- the C string of a code

  lemma CStringStep(s: Data)
    ensures CString(s) == if s == [] || s[0] == NUL then [] else [s[0]] + CString(s[1..])
  {
    if s != [] && s[0] != NUL {
      var n := Find(s[1..], NUL, 0);
      FindIs(s, NUL, 0, n + 1);
      assert s[..n + 1] == [s[0]] + s[1..][..n];
    }
  }

  lemma {:induction false} SpacesStop(s: Data)
    ensures SkipSpaces(CString(s)) == CString(SkipSpaces(s))
  {
    hide CString;
    CStringStep(s);
    if s != [] && IsSpace(s[0]) {
      SpacesStop(s[1..]);
      assert CString(s)[1..] == CString(s[1..]);
    }
  }

  lemma {:induction false} DigitsStop(s: Data)
    ensures LeadingDigits(CString(s)) == LeadingDigits(s)
  {
    hide CString;
    CStringStep(s);
    if s != [] && IsDigit(s[0]) {
      DigitsStop(s[1..]);
      assert CString(s)[1..] == CString(s[1..]);
    }
  }

  // atoi sees the C string only.
  lemma AtoiStops(s: Data)
    ensures Atoi(CString(s)) == Atoi(s)
  {
    hide CString, LeadingDigits, SkipSpaces;
    var t := SkipSpaces(s);
    SpacesStop(s);
    CStringStep(t);
    DigitsStop(t);
    if t != [] {
      DigitsStop(t[1..]);
      assert CString(t) != [] ==> CString(t)[1..] == CString(t[1..]);
    }
  }

  // Some bytes without a space complete the status code.
  ghost predicate Completable(code: Data) {
    exists y :: ' ' !in y && StatusFrom(code + y).Some?
  }

  lemma Completion(code: Data) returns (y: Data)
    requires Completable(code) && NulFree(code)
    ensures NulFree(y) && ' ' !in y && StatusFrom(code + y).Some?
  {
    hide Atoi, Find;
    var z :| ' ' !in z && StatusFrom(code + z).Some?;
    y := CString(z);
    AtoiStops(code + z);
    assert CString(code + z) == code + y by {
      FindLeft(code, z, NUL, 0);
      CStringOfSum(code, z);
    }
  }

  lemma CStringOfSum(a: Data, b: Data)
    requires NulFree(a)
    ensures CString(a + b) == a + CString(b)
  {
    FindLeft(a, b, NUL, 0);
    FindIs(a, NUL, 0, |a|);
    assert (a + b)[..|a| + Find(b, NUL, 0)] == a + b[..Find(b, NUL, 0)];
  }

  // ---- a held part that decides

  // The held part alone, or with the space that ends the code, already rejects the first line.
  ghost predicate FirstLineSettled(kind: Kind, held: Data, end: Data) {
    var a := Find(held, ' ', 0);
    && a < |held|
    && var b := Find(held, ' ', a + 1);
       || a == 0
       || b == a + 1 < |held|
       || (kind == ResponseKind && b < |held| && StatusFrom(held[a + 1..b]) == None)
       || (kind == ResponseKind && b == |held| > a + 1 && !Completable(held[a + 1..]) && ' ' in end)
  }

  lemma StatusIsStopped(code: Data, z: Data)
    requires ' ' !in z
    ensures !Completable(code) ==> StatusFrom(code + z) == None
  {
    hide StatusFrom;
  }

  // How a settled first line is rejected.
  function Rejection(start: StartLine, held: Data): FirstLine {
    var a := Find(held, ' ', 0);
    var bad := Some(if start.RequestLine? then RequestParse else ResponseParse);
    if a == 0 || a == |held| then FirstLine(start, bad)
    else match start
      case RequestLine(_, path, version) => FirstLine(RequestLine(held[..a], path, version), bad)
      case StatusLine(_, code, status) =>
        FirstLine(StatusLine(held[..a], code, status),
                  if Find(held, ' ', a + 1) == a + 1 < |held| then bad else Some(InvalidStatusCode))
  }

  function KindOfStart(start: StartLine): Kind {
    if start.RequestLine? then RequestKind else ResponseKind
  }

  // The first two spaces of a longer text.
  lemma TokensOfSum(held: Data, tail: Data)
    requires Find(held, ' ', 0) < |held|
    ensures var line, a := held + tail, Find(held, ' ', 0);
            var b, c := Find(held, ' ', a + 1), Find(tail, ' ', 0);
            && Find(line, ' ', 0) == a && line[..a] == held[..a]
            && (b < |held| ==> Find(line, ' ', a + 1) == b && line[a + 1..b] == held[a + 1..b])
            && (b == |held| ==> Find(line, ' ', a + 1) == b + c)
  {
    hide Find;
    var a := Find(held, ' ', 0);
    FindLeft(held, tail, ' ', 0);
    FindLeft(held, tail, ' ', a + 1);
    var b := Find(held, ' ', a + 1);
    if b < |held| {
      assert (held + tail)[a + 1..b] == held[a + 1..b];
    }
  }

  lemma SettledIsRejected(start: StartLine, held: Data, tail: Data)
    requires FirstLineSettled(KindOfStart(start), held, tail)
    ensures ParseFirstLine(start, held + tail) == Rejection(start, held)
  {
    hide Find, StatusFrom, Completable;
    var a, c := Find(held, ' ', 0), Find(tail, ' ', 0);
    TokensOfSum(held, tail);
    StatusIsStopped(held[a + 1..], tail[..c]);
    assert (held + tail)[a + 1..|held| + c] == held[a + 1..] + tail[..c];
  }

  // ---- a held part that does not decide

  lemma HeldWith(p: Parser, z: Data)
    requires p.notHandled != [] && NulFree(p.notHandled)
    ensures Held(p, z) == p.notHandled + CString(z) && (NulFree(z) ==> Held(p, z) == p.notHandled + z)
  {
    CStringOfSum(p.notHandled, z);
  }

  // The code is begun and nothing makes it a status.
  ghost predicate Hopeless(kind: Kind, held: Data) {
    var a := Find(held, ' ', 0);
    && kind == ResponseKind && 0 < a && a + 1 < |held|
    && Find(held, ' ', a + 1) == |held| && !Completable(held[a + 1..])
  }

  // Three tokens that the held part begins, and what to put behind it to complete the first two.
  lemma Completed(kind: Kind, held: Data, end: Data) returns (z: Data, a: Data, b: Data, c: Data)
    requires held != [] && NulFree(held) && !FirstLineSettled(kind, held, end) && !Hopeless(kind, held)
    ensures NulFree(z) && held + z == a + " " + b + " " + c
    ensures a != [] && b != [] && ' ' !in a && ' ' !in b && (kind == ResponseKind ==> StatusFrom(b).Some?)
  {
    hide StatusFrom, Decimal, Completable;
    var code := Decimal(200);
    CodeIsStatus();
    var i := Find(held, ' ', 0);
    if i == |held| {
      z, a, b, c := " " + code + " ", held, code, [];
    } else {
      var j := Find(held, ' ', i + 1);
      a := held[..i];
      assert held == a + " " + held[i + 1..];
      if i + 1 == |held| {
        z, b, c := code + " ", code, [];
      } else if j == |held| {
        var y := [];
        if kind == ResponseKind {
          y := Completion(held[i + 1..]);
        }
        z, b, c := y + " ", held[i + 1..] + y, [];
      } else {
        z, b, c := [], held[i + 1..j], held[j + 1..];
        assert held == a + " " + b + " " + c;
      }
    }
  }

  lemma CodeIsStatus()
    ensures var code := Decimal(200); NulFree(code) && ' ' !in code && code != [] && StatusFrom(code) == Some(200)
  {
    DecimalRoundTrip(200);
  }

  lemma FirstLineDepends(p: Parser, data: Data) returns (x: Data, y: Data)
    requires Valid(p) && p.phase == HeadersRead && ClosesLine(data) && !p.firstLineHandled
    requires p.notHandled != [] && NulFree(p.notHandled)
    requires !FirstLineSettled(p.kind, p.notHandled, LineEnd(data))
    ensures Feed(p, x, data) != Feed(p, y, data)
  {
    hide FirstLineSettled, Hopeless, Feed, Held, LineEnd, FeedText, ClosesLine, Find, StatusFrom, ParseFirstLine;
    var held, end := p.notHandled, LineEnd(data);
    if Hopeless(p.kind, held) {
      x, y := [], " ";
      HopelessDiffers(p.start, held, end);
      assert held + [] == held;
    } else {
      var z, a, b, c := Completed(p.kind, held, end);
      x, y := z + "v", z + "w";
      Extended(held, z, a, b, c, "v", end);
      Extended(held, z, a, b, c, "w", end);
      FirstLineOf(p.start, held + x + end, a, b, c + "v" + end);
      FirstLineOf(p.start, held + y + end, a, b, c + "w" + end);
      assert (c + "v" + end)[|c|] != (c + "w" + end)[|c|];
    }
    HeldWith(p, x);
    HeldWith(p, y);
    FeedIsText(p, x, data);
    FeedIsText(p, y, data);
    FirstLineDecides(p, held + x + end, data);
    FirstLineDecides(p, held + y + end, data);
  }

  lemma Extended(held: Data, z: Data, a: Data, b: Data, c: Data, v: Data, end: Data)
    requires held + z == a + " " + b + " " + c
    ensures held + (z + v) + end == a + " " + b + " " + (c + v + end)
  {
    var front := a + " " + b + " ";
    assert held + (z + v) + end == (held + z) + (v + end);
    assert (front + c) + (v + end) == front + (c + v + end);
  }

  lemma HopelessDiffers(start: StartLine, held: Data, end: Data)
    requires Hopeless(KindOfStart(start), held) && !FirstLineSettled(KindOfStart(start), held, end)
    ensures ParseFirstLine(start, held + end).error == Some(ResponseParse)
    ensures ParseFirstLine(start, held + " " + end).error == Some(InvalidStatusCode)
  {
    hide Find, StatusFrom;
    var a := Find(held, ' ', 0);
    assert ' ' !in end;
    FindIs(end, ' ', 0, |end|);
    FindLeft(held, end, ' ', 0);
    FindLeft(held, end, ' ', a + 1);
    var line := held + " " + end;
    assert line == held + (" " + end);
    FindIs(" " + end, ' ', 0, 0);
    FindLeft(held, " " + end, ' ', 0);
    FindLeft(held, " " + end, ' ', a + 1);
    assert line[a + 1..|held|] == held[a + 1..] + [];
  }

  // Longer than every key.
  lemma {:induction false} LongerThanAll(keys: set<Data>) returns (n: nat)
    ensures forall k :: k in keys ==> |k| < n
    decreases |keys|
  {
    if keys == {} {
      n := 0;
    } else {
      var k :| k in keys;
      n := LongerThanAll(keys - {k});
      assert forall x :: x in keys ==> x == k || x in keys - {k};
      n := if n > |k| then n else |k| + 1;
    }
  }

  function Filler(n: nat): (z: Data)
    ensures |z| == n && NulFree(z) && ':' !in z
  {
    if n == 0 then [] else "z" + Filler(n - 1)
  }

  lemma HeaderOf(line: Data, key: Data, val: Data)
    requires line == key + ": " + val && ':' !in key
    ensures ParseHeader(line) == Pair(key, val)
  {
    FindIs(line, ':', 0, |key|);
    assert line[..|key|] == key && line[|key| + 2..] == val;
  }

  // Without a colon in the held part, a key of any length can come of it.
  lemma KeyDepends(p: Parser, data: Data) returns (x: Data)
    requires Valid(p) && p.phase == HeadersRead && ClosesLine(data) && p.firstLineHandled
    requires p.notHandled != [] && NulFree(p.notHandled) && ':' !in p.notHandled
    ensures Feed(p, x, data) != Feed(p, [], data)
  {
    hide Feed, Held, LineEnd, FeedText, ClosesLine, Find, ParseHeader;
    var held, end := p.notHandled, LineEnd(data);
    var n := LongerThanAll(Feed(p, [], data).parser.headers.Keys);
    var key := held + Filler(n);
    x := Filler(n) + ": ";
    HeldWith(p, x);
    FeedIsText(p, x, data);
    assert held + x + end == key + ": " + end;
    HeaderOf(held + x + end, key, end);
    HeaderDecides(p, held + x + end, data);
    assert key in Feed(p, x, data).parser.headers;
    assert key !in Feed(p, [], data).parser.headers;
  }

  // With a colon in the held part, the key is fixed and the value is not.
  lemma ValueOf(held: Data, z: Data, end: Data)
    requires ':' in held && |held + z + end| >= Find(held, ':', 0) + 2
    ensures var i := Find(held, ':', 0);
            && i < |held| && ParseHeader(held + z + end) == Pair(held[..i], (held + z + end)[i + 2..])
  {
    var i := Find(held, ':', 0);
    assert held + z + end == held + (z + end);
    FindLeft(held, z + end, ':', 0);
    assert (held + (z + end))[..i] == held[..i];
  }

  // The header that the held bytes begin is written again by a later line of the chunk.
  predicate Overwritten(p: Parser, data: Data)
    requires Valid(p) && p.phase == HeadersRead && ClosesLine(data)
  {
    ':' in p.notHandled && p.notHandled[..Find(p.notHandled, ':', 0)] in Later(p, data)
  }

  lemma ValueDepends(p: Parser, data: Data) returns (x: Data)
    requires Valid(p) && p.phase == HeadersRead && ClosesLine(data) && p.firstLineHandled
    requires p.notHandled != [] && NulFree(p.notHandled) && ':' in p.notHandled && !Overwritten(p, data)
    requires ParseHeader(p.notHandled + LineEnd(data)) != OutOfRange
    ensures Feed(p, x, data) != Feed(p, [], data)
  {
    hide Feed, Held, LineEnd, FeedText, ClosesLine, Later;
    var held, end := p.notHandled, LineEnd(data);
    x := "z";
    HeldWith(p, x);
    HeldWith(p, []);
    FeedIsText(p, x, data);
    FeedIsText(p, [], data);
    assert held + [] == held;
    var i := Find(held, ':', 0);
    FindLeft(held, end, ':', 0);
    ValueOf(held, x, end);
    ValueOf(held, [], end);
    HeaderDecides(p, held + x + end, data);
    HeaderDecides(p, held + end, data);
    assert |(held + x + end)[i + 2..]| != |(held + end)[i + 2..]|;
  }

  lemma OverwrittenIsSettled(p: Parser, data: Data, x: Data)
    requires Valid(p) && p.phase == HeadersRead && ClosesLine(data) && p.firstLineHandled
    requires p.notHandled != [] && NulFree(p.notHandled) && Overwritten(p, data)
    requires ParseHeader(p.notHandled + LineEnd(data)) != OutOfRange
    ensures Feed(p, x, data) == Feed(p, [], data)
  {
    hide Feed, Held, LineEnd, FeedText, ClosesLine, Later, CString;
    var held, end, z := p.notHandled, LineEnd(data), CString(x);
    HeldWith(p, x);
    HeldWith(p, []);
    FeedIsText(p, x, data);
    FeedIsText(p, [], data);
    assert held + [] == held;
    FindLeft(held, end, ':', 0);
    ValueOf(held, z, end);
    ValueOf(held, [], end);
    HeaderDecides(p, held + z + end, data);
    HeaderDecides(p, held + end, data);
    HeadersDecide(p, held + z + end, held + end, data);
  }

  lemma SettledFirstLine(p: Parser, data: Data, x: Data)
    requires Valid(p) && p.phase == HeadersRead && ClosesLine(data) && !p.firstLineHandled
    requires p.notHandled != [] && NulFree(p.notHandled)
    requires FirstLineSettled(p.kind, p.notHandled, LineEnd(data))
    ensures Feed(p, x, data) == Feed(p, [], data)
  {
    hide Feed, Held, LineEnd, FeedText, ClosesLine, CString, Find, StatusFrom, Rejection, ParseFirstLine;
    var held, end, z := p.notHandled, LineEnd(data), CString(x);
    HeldWith(p, x);
    HeldWith(p, []);
    FeedIsText(p, x, data);
    FeedIsText(p, [], data);
    assert held + [] == held && held + z + end == held + (z + end);
    SettledIsRejected(p.start, held, z + end);
    SettledIsRejected(p.start, held, end);
    RejectionIsError(p.start, held);
    FirstLineDecides(p, held + z + end, data);
    FirstLineDecides(p, held + end, data);
  }

  lemma RejectionIsError(start: StartLine, held: Data)
    ensures Rejection(start, held).error.Some?
  {
  }

  // The held bytes end in the first colon of a line that ends there: parse_header throws.
  predicate EndsInColon(p: Parser, data: Data)
    requires ClosesLine(data)
  {
    p.firstLineHandled && ':' in p.notHandled && ParseHeader(p.notHandled + LineEnd(data)) == OutOfRange
  }

  // The later lines write the header again, write nothing new, and throw at a header line themselves.
  predicate ThrowsAnyway(p: Parser, data: Data)
    requires Valid(p) && p.phase == HeadersRead && ClosesLine(data)
  {
    var alone := LaterAlone(p, data);
    && Overwritten(p, data) && p.headers + Later(p, data) == p.headers
    && alone.outcome == Throws && alone.parser.phase == HeadersRead
  }

  lemma ColonText(p: Parser, data: Data, x: Data)
    requires Valid(p) && p.phase == HeadersRead && ClosesLine(data) && EndsInColon(p, data)
    requires p.notHandled != [] && NulFree(p.notHandled)
    ensures var z, held := CString(x), p.notHandled;
            var line := held + z + LineEnd(data);
            && line != []
            && Feed(p, x, data) == FeedText(p, line, data)
            && (z == [] ==> Feed(p, x, data) == Fed(p.(notHandled := []), Throws))
            && (z != [] ==> |line| >= Find(held, ':', 0) + 2)
            && (z != [] ==> ParseHeader(line) == Pair(held[..Find(held, ':', 0)], line[Find(held, ':', 0) + 2..]))
  {
    hide Feed, Held, LineEnd, FeedText, ClosesLine, CString;
    var held, end, z := p.notHandled, LineEnd(data), CString(x);
    HeldWith(p, x);
    FeedIsText(p, x, data);
    FindLeft(held, end, ':', 0);
    assert Find(held, ':', 0) < |held|;
    if z == [] {
      assert held + z + end == held + end;
      HeaderDecides(p, held + end, data);
    } else {
      ValueOf(held, z, end);
    }
  }

  // With a header line in its place, the chunk throws as before exactly in that case.
  lemma ThrowsAnywayExact(p: Parser, line: Data, data: Data)
    requires Valid(p) && p.phase == HeadersRead && ClosesLine(data) && p.firstLineHandled && line != []
    requires Overwritten(p, data) && ParseHeader(line).Pair?
    requires ParseHeader(line).key == p.notHandled[..Find(p.notHandled, ':', 0)]
    ensures FeedText(p, line, data) == Fed(p.(notHandled := []), Throws) <==> ThrowsAnyway(p, data)
  {
    hide ParseHeader, FeedLines, FeedText, ClosesLine, Later, LaterAlone;
    var h := ParseHeader(line);
    assert p.headers[h.key := h.val] + Later(p, data) == p.headers + Later(p, data);
    LineLeavesNoTrace(p, line, data);
    AloneStops(p, data);
  }

  lemma AloneStops(p: Parser, data: Data)
    requires Valid(p) && p.phase == HeadersRead && ClosesLine(data) && p.firstLineHandled
    ensures var r, q := LaterAlone(p, data), p.(notHandled := []);
            && r.outcome != Undefined
            && (r.parser.phase == HeadersRead && r.outcome == Ready ==>
                  r.parser == q.(headers := r.parser.headers, err := Some(ParseError(p.kind))))
            && (r.parser.phase == HeadersRead && r.outcome == Throws ==> r.parser == q.(headers := r.parser.headers))
  {
    hide FeedLines;
    StopsInHeader(p.(notHandled := []), data, AfterLine(data));
  }

  lemma ColonSettled(p: Parser, data: Data, x: Data)
    requires Valid(p) && p.phase == HeadersRead && ClosesLine(data) && EndsInColon(p, data)
    requires p.notHandled != [] && NulFree(p.notHandled) && ThrowsAnyway(p, data)
    ensures Feed(p, x, data) == Fed(p.(notHandled := []), Throws)
  {
    hide Feed, FeedText, LineEnd, ClosesLine, ParseHeader, CString, Later, LaterAlone;
    ColonText(p, data, x);
    if CString(x) != [] {
      ThrowsAnywayExact(p, p.notHandled + CString(x) + LineEnd(data), data);
    }
  }

  lemma PlainCString(z: Data)
    requires NulFree(z)
    ensures CString(z) == z
  {
  }

  lemma ColonDepends(p: Parser, data: Data)
    requires Valid(p) && p.phase == HeadersRead && ClosesLine(data) && EndsInColon(p, data)
    requires p.notHandled != [] && NulFree(p.notHandled) && !ThrowsAnyway(p, data)
    ensures Feed(p, "z", data) != Feed(p, [], data) || Feed(p, "zz", data) != Feed(p, [], data)
  {
    hide Feed, FeedText, LineEnd, ClosesLine, ParseHeader, CString, Later, ThrowsAnyway;
    var held, end := p.notHandled, LineEnd(data);
    PlainCString([]);
    PlainCString("z");
    PlainCString("zz");
    ColonText(p, data, []);
    ColonText(p, data, "z");
    ColonText(p, data, "zz");
    if Overwritten(p, data) {
      ThrowsAnywayExact(p, held + "z" + end, data);
    } else {
      HeaderDecides(p, held + "z" + end, data);
      HeaderDecides(p, held + "zz" + end, data);
      var i := Find(held, ':', 0);
      assert held[..i] !in Later(p, data);
      assert Feed(p, "z", data).parser.headers[held[..i]] == (held + "z" + end)[i + 2..];
      assert Feed(p, "zz", data).parser.headers[held[..i]] == (held + "zz" + end)[i + 2..];
      assert |held + "zz" + end| == |held + "z" + end| + 1;
    }
  }

  // ---- exactly when the bytes behind the held ones matter

  // They are not looked at: nothing is held, a NUL is held, or no line is closed.
  predicate PastUnread(p: Parser, data: Data) {
    p.phase == BodyRead || p.notHandled == [] || !NulFree(p.notHandled) || !ClosesLine(data)
  }

  // They are looked at, but what is held already rejects the first line, or a later line of the chunk writes
  // the header again.
  ghost predicate PastSettled(p: Parser, data: Data)
    requires Valid(p) && p.phase == HeadersRead && ClosesLine(data)
  {
    if !p.firstLineHandled then FirstLineSettled(p.kind, p.notHandled, LineEnd(data))
    else if EndsInColon(p, data) then ThrowsAnyway(p, data)
    else Overwritten(p, data)
  }

  lemma HeldStops(p: Parser, x: Data)
    requires !NulFree(p.notHandled)
    ensures Held(p, x) == CString(p.notHandled)
  {
    FindLeft(p.notHandled, x, NUL, 0);
    var n := Find(p.notHandled, NUL, 0);
    assert (p.notHandled + x)[..n] == p.notHandled[..n];
  }

  lemma UnreadIsUnused(p: Parser, x: Data, data: Data)
    requires Valid(p) && PastUnread(p, data)
    ensures Feed(p, x, data) == Feed(p, [], data)
  {
    hide Held, CString, TakeTurn, LineStop, NextLine;
    if p.phase == HeadersRead {
      if p.notHandled == [] {
        PastUnused(p, x, [], data, 0);
      } else if ClosesLine(data) {
        FeedIsText(p, x, data);
        FeedIsText(p, [], data);
        HeldStops(p, x);
        HeldStops(p, []);
      }
    }
  }

  // Whatever lies behind the held bytes, the chunk does the same, exactly in these cases.
  lemma PastExact(p: Parser, data: Data)
    requires Valid(p)
    ensures (forall x :: Feed(p, x, data) == Feed(p, [], data)) <==> PastUnread(p, data) || PastSettled(p, data)
  {
    hide Feed, FeedText, LineEnd, FirstLineSettled, Overwritten, Held, ParseHeader, ThrowsAnyway, ClosesLine;
    if PastUnread(p, data) {
      forall x ensures Feed(p, x, data) == Feed(p, [], data) {
        UnreadIsUnused(p, x, data);
      }
    } else if PastSettled(p, data) {
      forall x ensures Feed(p, x, data) == Feed(p, [], data) {
        SettledIsUnused(p, data, x);
      }
    } else if !p.firstLineHandled {
      var x, y := FirstLineDepends(p, data);
      assert Feed(p, x, data) != Feed(p, [], data) || Feed(p, y, data) != Feed(p, [], data);
    } else if EndsInColon(p, data) {
      ColonDepends(p, data);
    } else if ':' in p.notHandled {
      var x := ValueDepends(p, data);
    } else {
      var x := KeyDepends(p, data);
    }
  }

  lemma SettledIsUnused(p: Parser, data: Data, x: Data)
    requires Valid(p) && !PastUnread(p, data) && PastSettled(p, data)
    ensures Feed(p, x, data) == Feed(p, [], data)
  {
    hide Feed, FeedText, LineEnd, FirstLineSettled, Held, ParseHeader, ThrowsAnyway, ClosesLine;
    if !p.firstLineHandled {
      SettledFirstLine(p, data, x);
    } else if EndsInColon(p, data) {
      ColonSettled(p, data, x);
      ColonSettled(p, data, []);
    } else {
      OverwrittenIsSettled(p, data, x);
    }
  }

  // A request line cut inside its version: what lies behind the held bytes becomes part of the version.
  lemma PastEntersVersion(verb: Data, path: Data, v: Data, z: Data, data: Data)
    requires Token(verb) && Token(path) && NulFree(v) && NulFree(z) && ClosesLine(data)
    requires v + z + LineEnd(data) != []
    ensures var p := Fresh(RequestKind).(notHandled := verb + " " + path + " " + v);
            Feed(p, z, data).parser.start == RequestLine(verb, path, v + z + LineEnd(data))
  {
    hide Held, Feed, FeedText, LineEnd, ClosesLine, ParseFirstLine;
    var held, end := verb + " " + path + " " + v, LineEnd(data);
    var p := Fresh(RequestKind).(notHandled := held);
    HeldWith(p, z);
    FeedIsText(p, z, data);
    Extended(held, [], verb, path, v, z, end);
    assert held + [] == held && held + ([] + z) + end == held + z + end;
    FirstLineOf(p.start, held + z + end, verb, path, v + z + end);
    FirstLineDecides(p, held + z + end, data);
  }
}

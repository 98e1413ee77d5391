/** What a cut does to a header line with a NUL before the cut: the string made of the held bytes stops there.
    src/http/parsers/HttpRequestParser.cpp:27-31. */
module NulCuts {
  import opened Bytes
  import opened MessageParser
  import opened ChunkInvariance
  import opened MessageRoundTrip
  import opened HeldBytes

  // A chunk a that leaves a line open, and a chunk b that closes it.
  predicate Cuts(p: Parser, a: Data, b: Data) {
    p.phase == HeadersRead && p.notHandled == [] && a != [] && LF !in a && ClosesLine(b)
  }

  // The two texts of the line: read in one piece, and cut.
  function Whole(a: Data, b: Data): Data
    requires ClosesLine(b)
  {
    a + LineEnd(b)
  }

  function Cut(a: Data, b: Data): Data
    requires ClosesLine(b)
  {
    CString(a) + LineEnd(b)
  }

  lemma AIsHeld(p: Parser, x: Data, a: Data, b: Data)
    requires Valid(p) && Cuts(p, a, b)
    ensures Feed(p, x, a) == Fed(p.(notHandled := a), Pending)
  {
    FindIs(a, LF, 0, |a|);
    assert p.notHandled + a[0..] == a;
  }

  // In one piece.
  lemma OnePiece(p: Parser, x: Data, a: Data, b: Data)
    requires Valid(p) && Cuts(p, a, b)
    ensures Feed(p, x, a + b) == FeedText(p.(notHandled := a), Whole(a, b), b)
  {
    hide TakeTurn, Find, Held;
    var r := p.(notHandled := a);
    FindIs(a, LF, 0, |a|);
    FindLeft(a, b, LF, 0);
    var e, next := Find(b, LF, 0), AfterLine(b);
    var stop := LineStop(b, 0, e);
    assert LineStop(a + b, 0, |a| + e) == |a| + stop;
    assert (a + b)[0..|a| + stop] == a + b[0..stop];
    NoneHeld(p, x);
    assert LineText(p, x, a + b, 0, |a| + e) == Whole(a, b);
    assert NextLine(a + b, 0, |a| + e) == |a| + next && (a + b)[|a| + next..] == b[next..];
    RemainderIsTaken(p, r, Whole(a, b), b[next..]);
    var t := TakeTurn(r, Whole(a, b), b[next..]);
    if t.Again? {
      Shift(t.parser, x, a, b, next);
      PastUnused(t.parser, x, [], b, next);
    }
  }

  // In two pieces, with a NUL in the first.
  lemma TwoPieces(p: Parser, x: Data, y: Data, a: Data, b: Data)
    requires Valid(p) && Cuts(p, a, b) && !NulFree(a)
    ensures Feed(Feed(p, x, a).parser, y, b) == FeedText(p.(notHandled := a), Cut(a, b), b)
    ensures |Cut(a, b)| < |Whole(a, b)|
  {
    AIsHeld(p, x, a, b);
    HeldStops(p.(notHandled := a), y);
    FeedIsText(p.(notHandled := a), y, b);
  }

  lemma NoNulNoLoss(p: Parser, x: Data, y: Data, a: Data, b: Data)
    requires Valid(p) && Cuts(p, a, b) && NulFree(a) && Quiet(y)
    ensures Feed(Feed(p, x, a).parser, y, b) == Feed(p, x, a + b)
  {
    AIsHeld(p, x, a, b);
    HeldExact(p.(notHandled := a), y);
    NothingToKeep(p, x, b);
    ChunksJoin(p, x, y, a, b);
  }

  // A line that sets the last field of the first line is its three fields with spaces between them.
  lemma FirstLineIsText(start: StartLine, line: Data) returns (code: Data)
    requires start.RequestLine? ==> start.version == []
    requires start.StatusLine? ==> start.status == []
    requires var s := ParseFirstLine(start, line).start;
             if s.RequestLine? then s.version != [] else s.status != []
    ensures match ParseFirstLine(start, line).start
            case RequestLine(verb, path, version) => line == verb + " " + path + " " + version
            case StatusLine(version, c, status) =>
              line == version + " " + code + " " + status && c == StatusFrom(code) && c.Some?
              && ' ' !in version && ' ' !in code
  {
    hide StatusFrom;
    var a := Find(line, ' ', 0);
    var b := Find(line, ' ', a + 1);
    code := line[a + 1..b];
    assert line == line[..a] + " " + line[a + 1..b] + " " + line[b + 1..];
  }

  // ---- request lines

  lemma TextKeepsStart(p: Parser, data: Data)
    requires Valid(p) && p.phase == HeadersRead && ClosesLine(data)
    ensures FeedText(p, [], data).parser.start == p.start && FeedText(p, [], data).parser.phase == BodyRead
  {
  }

  predicate Unstarted(p: Parser) {
    !p.firstLineHandled && p.start == Fresh(p.kind).start
  }

  // A request line accepted in one piece survives the cut exactly when no NUL comes before it.
  lemma NulCutRequest(p: Parser, x: Data, y: Data, a: Data, b: Data)
    requires Valid(p) && Cuts(p, a, b) && Quiet(y) && Unstarted(p) && p.kind == RequestKind
    requires ParseFirstLine(p.start, Whole(a, b)).error == None
    ensures Feed(Feed(p, x, a).parser, y, b) == Feed(p, x, a + b) <==> NulFree(a)
  {
    hide Feed, FeedText, Cuts, ClosesLine, LineEnd, ParseFirstLine, CString;
    if NulFree(a) {
      NoNulNoLoss(p, x, y, a, b);
    } else {
      CutParts(p, a, b);
      var q, line, other := p.(notHandled := a), Whole(a, b), Cut(a, b);
      OnePiece(p, x, a, b);
      TwoPieces(p, x, y, a, b);
      AcceptedVersion(p.start, line);
      FirstLineDecides(q, line, b);
      var c := FirstLineIsText(p.start, line);
      if other == [] {
        TextKeepsStart(q, b);
      } else {
        FirstLineDecides(q, other, b);
        if ParseFirstLine(p.start, other).start == ParseFirstLine(p.start, line).start {
          c := FirstLineIsText(p.start, other);
        }
      }
    }
  }

  lemma CutParts(p: Parser, a: Data, b: Data)
    requires Cuts(p, a, b)
    ensures a != [] && ClosesLine(b) && p.phase == HeadersRead && Whole(a, b) != []
  {
  }

  lemma AcceptedVersion(start: StartLine, line: Data)
    requires ParseFirstLine(start, line).error == None
    ensures var s := ParseFirstLine(start, line).start;
            s.RequestLine? == start.RequestLine? && if s.RequestLine? then s.version != [] else s.status != []
  {
  }

  // A request whose path is cut after a NUL comes out with another path.
  lemma NulCutLosesBytes()
    ensures var p, a, b := Fresh(RequestKind), "GET /\0x", "y H\r\n";
            Feed(Feed(p, [], a).parser, [], b) != Feed(p, [], a + b)
  {
    var p, a, b := Fresh(RequestKind), "GET /\0x", "y H\r\n";
    FindIs(b, LF, 0, 4);
    assert LineEnd(b) == "y H";
    assert a + "y H" == "GET" + " " + "/\0xy" + " " + "H";
    FirstLineOf(p.start, Whole(a, b), "GET", "/\0xy", "H");
    assert a[5] == NUL;
    NulCutRequest(p, [], [], a, b);
  }

  // ---- status lines

  // NUL and cut lie in the code, and what is left of the code reads as the same code.
  predicate SameCode(a: Data, line: Data)
    requires a <= line && !NulFree(a)
  {
    var s := Find(line, ' ', 0);
    && s < |line|
    && var t, n := Find(line, ' ', s + 1), Find(a, NUL, 0);
       s < n && |a| <= t && StatusFrom(line[s + 1..n] + line[|a|..t]) == StatusFrom(line[s + 1..t])
  }

  // Two texts with the same version and status: the second is the first without its bytes n to m.
  lemma CodeIsCut(version: Data, code: Data, status: Data, left: Data, line: Data, other: Data, n: nat, m: nat)
    requires line == version + " " + code + " " + status && other == version + " " + left + " " + status
    requires ' ' !in version && ' ' !in code && ' ' !in left && left != []
    requires n < m <= |line| && line[n] != ' ' && other == line[..n] + line[m..]
    ensures |version| < n && m <= |version| + 1 + |code|
  {
    var s, t := |version|, |version| + 1 + |code|;
    var d := m - n;
    assert |code| == |left| + d;
    assert line[s] == ' ' && line[t] == ' ' && other[s] == ' ' && other[t - d] == ' ';
    assert forall i :: 0 <= i < s ==> line[i] == version[i] && other[i] == version[i];
    assert forall i :: s < i < t ==> line[i] == code[i - s - 1];
    assert forall i :: s < i < t - d ==> other[i] == left[i - s - 1];
    assert forall i :: n <= i < |other| ==> other[i] == line[i + d];
    var i := if n <= s - d then s - d else s;
    assert 0 <= i < |other| && i + d < |line|;
    var u, w := other[i], line[i + d];
    var u', w' := other[t - d], line[t - d];
  }

  lemma CodeLeft(version: Data, code: Data, status: Data, left: Data, line: Data, other: Data, n: nat, m: nat)
    requires line == version + " " + code + " " + status && other == version + " " + left + " " + status
    requires |version| < n < m <= |version| + 1 + |code| && other == line[..n] + line[m..]
    ensures var s, t := |version|, |version| + 1 + |code|;
            left == line[s + 1..n] + line[m..t]
  {
    var s, t, d := |version|, |version| + 1 + |code|, m - n;
    assert |left| == |code| - d;
    assert other[s + 1..t - d] == left;
    assert other[s + 1..t - d] == line[s + 1..n] + line[m..t];
  }

  // A status line accepted in one piece survives the cut exactly when no NUL comes before it, or NUL and cut
  // are in the code and what is left of it reads as the same code.
  lemma NulCutStatus(p: Parser, x: Data, y: Data, a: Data, b: Data)
    requires Valid(p) && Cuts(p, a, b) && Quiet(y) && Unstarted(p) && p.kind == ResponseKind
    requires ParseFirstLine(p.start, Whole(a, b)).error == None
    ensures Feed(Feed(p, x, a).parser, y, b) == Feed(p, x, a + b) <==> NulFree(a) || SameCode(a, Whole(a, b))
  {
    hide Feed, FeedText, Cuts, ClosesLine, LineEnd, ParseFirstLine, CString, SameCode;
    if NulFree(a) {
      NoNulNoLoss(p, x, y, a, b);
    } else {
      CutParts(p, a, b);
      OnePiece(p, x, a, b);
      TwoPieces(p, x, y, a, b);
      if SameCode(a, Whole(a, b)) {
        SameCodeSurvives(p, a, b);
      } else {
        OtherCodeIsLost(p, a, b);
      }
    }
  }

  lemma NulIsFound(a: Data, end: Data) returns (n: nat)
    requires !NulFree(a)
    ensures n == Find(a, NUL, 0) < |a| && a[n] == NUL
    ensures CString(a) + end == (a + end)[..n] + (a + end)[|a|..]
  {
    n := Find(a, NUL, 0);
    assert (a + end)[..n] == a[..n] && (a + end)[|a|..] == end;
  }

  lemma SameCodeSurvives(p: Parser, a: Data, b: Data)
    requires Valid(p) && Cuts(p, a, b) && Unstarted(p) && p.kind == ResponseKind && !NulFree(a)
    requires ParseFirstLine(p.start, Whole(a, b)).error == None && SameCode(a, Whole(a, b))
    ensures FeedText(p.(notHandled := a), Cut(a, b), b) == FeedText(p.(notHandled := a), Whole(a, b), b)
  {
    hide Feed, Cuts, ClosesLine, LineEnd, CString, StatusFrom, Find;
    CutParts(p, a, b);
    var line, other := Whole(a, b), Cut(a, b);
    var n := NulIsFound(a, LineEnd(b));
    var s := Find(line, ' ', 0);
    var t := Find(line, ' ', s + 1);
    var left := line[s + 1..n] + line[|a|..t];
    EmptyIsNoStatus();
    AcceptedVersion(p.start, line);
    NoSpaceIn(line, s, t, n, |a|);
    assert other == line[..s] + " " + left + " " + line[t + 1..];
    FirstLineOf(p.start, other, line[..s], left, line[t + 1..]);
    SameFirstLine(p.(notHandled := a), other, line, b);
  }

  lemma EmptyIsNoStatus()
    ensures StatusFrom([]) == None
  {
  }

  lemma NoSpaceIn(line: Data, s: nat, t: nat, n: nat, m: nat)
    requires s == Find(line, ' ', 0) < |line| && t == Find(line, ' ', s + 1) && s < n <= m <= t
    ensures ' ' !in line[..s] && ' ' !in line[s + 1..n] + line[m..t]
  {
  }

  lemma SameFirstLine(p: Parser, line: Data, other: Data, data: Data)
    requires Valid(p) && p.phase == HeadersRead && ClosesLine(data) && !p.firstLineHandled
    requires line != [] && other != [] && ParseFirstLine(p.start, line) == ParseFirstLine(p.start, other)
    ensures FeedText(p, line, data) == FeedText(p, other, data)
  {
    hide ParseFirstLine, FeedLines;
  }

  lemma OtherCodeIsLost(p: Parser, a: Data, b: Data)
    requires Valid(p) && Cuts(p, a, b) && Unstarted(p) && p.kind == ResponseKind && !NulFree(a)
    requires ParseFirstLine(p.start, Whole(a, b)).error == None && !SameCode(a, Whole(a, b))
    ensures FeedText(p.(notHandled := a), Cut(a, b), b) != FeedText(p.(notHandled := a), Whole(a, b), b)
  {
    hide Feed, FeedText, Cuts, ClosesLine, LineEnd, ParseFirstLine, CString, StatusFrom, Find;
    CutParts(p, a, b);
    var q, line, other := p.(notHandled := a), Whole(a, b), Cut(a, b);
    AcceptedVersion(p.start, line);
    FirstLineDecides(q, line, b);
    var start := ParseFirstLine(p.start, line).start;
    if other == [] {
      TextKeepsStart(q, b);
    } else {
      FirstLineDecides(q, other, b);
      if ParseFirstLine(p.start, other).start == start {
        SameStartSameCode(p.start, a, LineEnd(b), line, other);
      }
    }
  }

  lemma SameStartSameCode(start: StartLine, a: Data, end: Data, line: Data, other: Data)
    requires start.StatusLine? && start.status == [] && !NulFree(a) && line == a + end && other == CString(a) + end
    requires ParseFirstLine(start, line).error == None
    requires ParseFirstLine(start, other).start == ParseFirstLine(start, line).start
    ensures SameCode(a, line)
  {
    hide ParseFirstLine, CString, StatusFrom, Find, SameCode;
    AcceptedVersion(start, line);
    var s := ParseFirstLine(start, line).start;
    var code := FirstLineIsText(start, line);
    var left := FirstLineIsText(start, other);
    var n := NulIsFound(a, end);
    EmptyIsNoStatus();
    CodeIsCut(s.version, code, s.status, left, line, other, n, |a|);
    CodeLeft(s.version, code, s.status, left, line, other, n, |a|);
    ThreeTokens(line, s.version, code, s.status);
    SameCodeIs(a, line, |s.version|, |s.version| + 1 + |code|, n);
  }

  lemma SameCodeIs(a: Data, line: Data, s: nat, t: nat, n: nat)
    requires a <= line && !NulFree(a) && n == Find(a, NUL, 0)
    requires s == Find(line, ' ', 0) < |line| && t == Find(line, ' ', s + 1) && s < n && |a| <= t
    requires StatusFrom(line[s + 1..n] + line[|a|..t]) == StatusFrom(line[s + 1..t])
    ensures SameCode(a, line)
  {
    hide Find, StatusFrom, NulFree;
  }

  // ---- header lines

  // The header is in the parser already, or a later line of the chunk writes its key.
  predicate Settled(p: Parser, b: Data, key: Data, val: Data)
    requires Valid(p) && p.phase == HeadersRead && ClosesLine(b)
  {
    key in Later(p, b) || (key in p.headers && p.headers[key] == val)
  }

  // The later lines of the chunk, on their own, end as the text of a line that is no header line ends.
  predicate EndsAlike(p: Parser, line: Data, b: Data)
    requires Valid(p) && p.phase == HeadersRead && ClosesLine(b)
  {
    var alone := LaterAlone(p, b);
    if line == [] then alone == ReadBody(p.(notHandled := [], phase := BodyRead), b[AfterLine(b)..])
    else alone.parser.phase == HeadersRead && alone.outcome == if ParseHeader(line).NoColon? then Ready else Throws
  }

  // The header makes no difference, and neither does what the cut leaves of it: a header that makes none, or a
  // line that ends the headers where later lines, which write nothing, end them alike.
  predicate NoDifference(p: Parser, a: Data, b: Data)
    requires Valid(p) && p.phase == HeadersRead && ClosesLine(b)
  {
    var g, h := ParseHeader(Whole(a, b)), ParseHeader(Cut(a, b));
    && g.Pair? && Settled(p, b, g.key, g.val)
    && if h.Pair? then Settled(p, b, h.key, h.val)
       else p.headers + Later(p, b) == p.headers && EndsAlike(p, Cut(a, b), b)
  }

  // A header line accepted in one piece survives the cut exactly when no NUL comes before it or neither of the
  // two readings makes a difference.
  lemma NulCutHeader(p: Parser, x: Data, y: Data, a: Data, b: Data)
    requires Valid(p) && Cuts(p, a, b) && Quiet(y) && p.firstLineHandled && ParseHeader(Whole(a, b)).Pair?
    ensures Feed(Feed(p, x, a).parser, y, b) == Feed(p, x, a + b) <==> NulFree(a) || NoDifference(p, a, b)
  {
    hide Feed, FeedText, Cuts, ClosesLine, LineEnd, ParseHeader, CString, Later, NoDifference;
    if NulFree(a) {
      NoNulNoLoss(p, x, y, a, b);
    } else {
      CutParts(p, a, b);
      OnePiece(p, x, a, b);
      TwoPieces(p, x, y, a, b);
      if ParseHeader(Cut(a, b)).Pair? {
        HeaderIsLeft(p, a, b);
      } else {
        NoHeaderIsLeft(p, a, b);
      }
    }
  }

  lemma HeaderIsLeft(p: Parser, a: Data, b: Data)
    requires Valid(p) && p.phase == HeadersRead && ClosesLine(b) && p.firstLineHandled
    requires ParseHeader(Whole(a, b)).Pair? && ParseHeader(Cut(a, b)).Pair? && |Cut(a, b)| < |Whole(a, b)|
    ensures var q := p.(notHandled := a);
            FeedText(q, Cut(a, b), b) == FeedText(q, Whole(a, b), b) <==> NoDifference(p, a, b)
  {
    hide Feed, FeedText, ClosesLine, LineEnd, ParseHeader, CString, Later, EndsAlike;
    var q, line, other := p.(notHandled := a), Whole(a, b), Cut(a, b);
    PairIsLine(other);
    PairIsLine(line);
    HeaderDecides(q, line, b);
    HeaderDecides(q, other, b);
    HeadersDecide(q, line, other, b);
    var g, h := ParseHeader(line), ParseHeader(other);
    LaterIs(p, q, b);
    MapsAgree(p.headers, Later(p, b), g.key, g.val, h.key, h.val);
  }

  // What the text of a line that is no header line makes of the chunk.
  lemma NoHeaderEnds(p: Parser, line: Data, b: Data)
    requires Valid(p) && p.phase == HeadersRead && ClosesLine(b) && p.firstLineHandled && !ParseHeader(line).Pair?
    ensures FeedText(p, line, b).parser.headers == p.headers
    ensures p.headers + Later(p, b) == p.headers ==>
              (FeedText(p, line, b) == LaterAlone(p, b) <==> EndsAlike(p, line, b))
  {
    hide ParseHeader, FeedLines, ReadBody, ClosesLine, Later, LaterAlone;
    AloneStops(p, b);
    AloneHeaders(p, b);
    if line == [] {
      BlankTurn(p, b[AfterLine(b)..]);
    } else {
      HeaderTurn(p, line, b[AfterLine(b)..]);
    }
  }

  lemma AloneHeaders(p: Parser, b: Data)
    requires Valid(p) && p.phase == HeadersRead && ClosesLine(b) && p.firstLineHandled
    ensures LaterAlone(p, b).parser.headers == p.headers + Later(p, b)
  {
    hide FeedLines;
    HeadersGrow(p.(notHandled := []), b, AfterLine(b));
    assert p.(notHandled := []).(headers := map[]) == p.(notHandled := [], headers := map[]);
  }

  lemma NoHeaderIsLeft(p: Parser, a: Data, b: Data)
    requires Valid(p) && p.phase == HeadersRead && ClosesLine(b) && p.firstLineHandled
    requires ParseHeader(Whole(a, b)).Pair? && !ParseHeader(Cut(a, b)).Pair?
    ensures var q := p.(notHandled := a);
            FeedText(q, Cut(a, b), b) == FeedText(q, Whole(a, b), b) <==> NoDifference(p, a, b)
  {
    hide Feed, FeedText, ClosesLine, LineEnd, ParseHeader, CString, Later, LaterAlone, EndsAlike;
    var q, line, other := p.(notHandled := a), Whole(a, b), Cut(a, b);
    PairIsLine(line);
    HeaderDecides(q, line, b);
    LineLeavesNoTrace(q, line, b);
    NoHeaderEnds(q, other, b);
    LaterIs(p, q, b);
    var g := ParseHeader(line);
    WritesNothing(p.headers, Later(p, b), g.key, g.val);
  }

  lemma WritesNothing(m: map<Data, Data>, later: map<Data, Data>, k: Data, v: Data)
    ensures m[k := v] + later == m <==> m + later == m && (k in later || (k in m && m[k] == v))
    ensures m[k := v] + later == m ==> m[k := v] + later == m + later
  {
    var a, b := m[k := v] + later, m + later;
    if a == m {
      assert k in a;
      assert forall x :: x in later ==> x in a && a[x] == later[x];
      assert b == m;
    }
    if b == m && (k in later || (k in m && m[k] == v)) {
      assert forall x :: x in later ==> x in b && b[x] == later[x];
      assert a == m;
    }
  }

  // A header whose name is new is lost whenever the cut leaves no header line of it.
  lemma NewHeaderIsLost(p: Parser, x: Data, y: Data, a: Data, b: Data)
    requires Valid(p) && Cuts(p, a, b) && Quiet(y) && p.firstLineHandled && !NulFree(a)
    requires ParseHeader(Whole(a, b)).Pair? && ParseHeader(Whole(a, b)).key !in p.headers
    requires !ParseHeader(Cut(a, b)).Pair?
    ensures Feed(Feed(p, x, a).parser, y, b) != Feed(p, x, a + b)
  {
    hide Feed, LineEnd, ParseHeader, CString, Later, EndsAlike;
    NulCutHeader(p, x, y, a, b);
    var key := ParseHeader(Whole(a, b)).key;
    assert key in Later(p, b) ==> key in p.headers + Later(p, b);
  }

  lemma PairIsLine(line: Data)
    requires ParseHeader(line).Pair?
    ensures line != [] && |ParseHeader(line).key| + |ParseHeader(line).val| + 2 == |line|
  {
  }

  lemma LaterIs(p: Parser, q: Parser, b: Data)
    requires Valid(p) && Valid(q) && p.phase == HeadersRead && ClosesLine(b) && q == p.(notHandled := q.notHandled)
    ensures Later(p, b) == Later(q, b) && LaterAlone(p, b) == LaterAlone(q, b)
    ensures forall line :: EndsAlike(p, line, b) == EndsAlike(q, line, b)
  {
    hide FeedLines, ReadBody, ParseHeader, ClosesLine;
    assert p.(notHandled := []) == q.(notHandled := []);
    assert p.(notHandled := [], headers := map[]) == q.(notHandled := [], headers := map[]);
  }

  lemma MapsAgree(m: map<Data, Data>, later: map<Data, Data>, k: Data, v: Data, l: Data, w: Data)
    requires (k, v) != (l, w)
    ensures m[k := v] + later == m[l := w] + later <==>
              (k in later || (k in m && m[k] == v)) && (l in later || (l in m && m[l] == w))
  {
    var a, b := m[k := v] + later, m[l := w] + later;
    if a == b {
      assert k in b && l in a;
      assert k !in later ==> a[k] == v;
      assert l !in later ==> b[l] == w;
    }
  }
}

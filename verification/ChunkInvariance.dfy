/** How a message is cut into chunks does not matter to the parser, and exactly where it does. */
module ChunkInvariance {
  import opened Bytes
  import opened MessageParser

  lemma FindLeft(a: Data, b: Data, c: char, i: nat)
    requires i <= |a|
    ensures Find(a + b, c, i) == if Find(a, c, i) < |a| then Find(a, c, i) else |a| + Find(b, c, 0)
  {
    var e := Find(a, c, i);
    FindIs(a + b, c, i, if e < |a| then e else |a| + Find(b, c, 0));
  }

  lemma FindRight(a: Data, b: Data, c: char, j: nat)
    requires j <= |b|
    ensures Find(a + b, c, |a| + j) == |a| + Find(b, c, j)
  {
    FindIs(a + b, c, |a| + j, |a| + Find(b, c, j));
  }

  // A line of b that is not its first bytes is the same line in a + b.
  lemma LineOfRight(p: Parser, past: Data, a: Data, b: Data, s: Data, j: nat, e: nat)
    requires s == a + b && 0 < j && LineStart(b, j) && j <= e < |b| && b[e] == LF
    ensures LineStart(s, |a| + j) && |a| + e < |s| && s[|a| + e] == LF
    ensures LineText(p, past, s, |a| + j, |a| + e) == LineText(p, past, b, j, e)
    ensures NextLine(s, |a| + j, |a| + e) == |a| + NextLine(b, j, e)
    ensures s[|a| + NextLine(b, j, e)..] == b[NextLine(b, j, e)..]
  {
    hide Held;
    assert s[|a| + j..|a| + LineStop(b, j, e)] == b[j..LineStop(b, j, e)];
  }

  // Past the first byte, the loop does not see what came before the line it is on.
  lemma {:induction false} Shift(p: Parser, past: Data, a: Data, b: Data, j: nat)
    requires Valid(p) && p.phase == HeadersRead && 0 < j && LineStart(b, j)
    ensures LineStart(a + b, |a| + j) && FeedLines(p, past, a + b, |a| + j) == FeedLines(p, past, b, j)
    decreases |b| - j
  {
    hide TakeTurn, LineText, NextLine, LineStop, Find;
    FindRight(a, b, LF, j);
    var e := Find(b, LF, j);
    if e == |b| {
      assert (a + b)[|a| + j..] == b[j..];
    } else {
      LineOfRight(p, past, a, b, a + b, j, e);
      var next := NextLine(b, j, e);
      var t := TakeTurn(p, LineText(p, past, b, j, e), b[next..]);
      if t.Again? {
        Shift(t.parser, past, a, b, next);
      }
    }
  }

  lemma ReadBodyStable(p: Parser, rest: Data, more: Data)
    requires Valid(p) && p.phase == BodyRead && ReadBody(p, rest).outcome != Pending
    ensures ReadBody(p, rest + more) == ReadBody(p, rest)
    ensures rest == [] ==> ReadBody(p, more) == ReadBody(p, rest)
  {
    var q := SetContentLength(p);
    if q.contentLength.Some? {
      var missing := q.contentLength.value - |q.body|;
      assert |rest| >= missing ==> (rest + more)[..missing] == rest[..missing];
    }
  }

  lemma ReadBodyJoin(p: Parser, rest: Data, more: Data)
    requires Valid(p) && p.phase == BodyRead && ReadBody(p, rest).outcome == Pending
    ensures ReadBody(p, rest + more) == ReadBody(ReadBody(p, rest).parser, more)
  {
    var q := SetContentLength(p);
    var missing := q.contentLength.value - |q.body|;
    var r := ReadBody(p, rest).parser;
    assert r == q.(body := q.body + rest) && SetContentLength(r) == r;
    if |rest| + |more| >= missing {
      assert q.body + (rest + more)[..missing] == r.body + more[..missing - |rest|];
    } else {
      assert q.body + (rest + more) == r.body + more;
    }
  }

  predicate EndsInCrLf(a: Data) {
    |a| >= 2 && a[|a| - 2] == CR && a[|a| - 1] == LF
  }

  // The first line of a is the first line of a + b.
  lemma FirstLineOfSum(p: Parser, past: Data, a: Data, b: Data, i: nat, e: nat)
    requires LineStart(a, i) && i <= e < |a| && e > 0 && a[e] == LF
    ensures LineStart(a + b, i) && LineText(p, past, a + b, i, e) == LineText(p, past, a, i, e)
    ensures var next, there := NextLine(a, i, e), NextLine(a + b, i, e);
            || (there == next && (a + b)[there..] == a[next..] + b)
            || (there == next + 1 && next == |a| && a[next..] == [] && b != [] && b[0] == LF && !EndsInCrLf(a))
  {
    hide Held;
    assert (a + b)[i..LineStop(a, i, e)] == a[i..LineStop(a, i, e)];
    var next := NextLine(a, i, e);
    assert (a + b)[next..] == a[next..] + b;
  }

  // An answer, once given, does not depend on the bytes after it.
  lemma {:induction false} LinesStable(p: Parser, past: Data, a: Data, b: Data, i: nat)
    requires Valid(p) && p.phase == HeadersRead && LineStart(a, i)
    requires FeedLines(p, past, a, i).outcome != Pending
    ensures LineStart(a + b, i) && FeedLines(p, past, a + b, i) == FeedLines(p, past, a, i)
    decreases |a| - i
  {
    FindLeft(a, b, LF, i);
    var e := Find(a, LF, i);
    if 0 < e < |a| {
      FirstLineOfSum(p, past, a, b, i, e);
      var line, next := LineText(p, past, a, i, e), NextLine(a, i, e);
      if line == [] {
        var q := p.(notHandled := [], phase := BodyRead);
        ReadBodyStable(q, a[next..], b);
        ReadBodyStable(q, a[next..], (a + b)[NextLine(a + b, i, e)..]);
      } else {
        var t := TakeTurn(p, line, a[next..]);
        if t.Again? {
          LinesStable(t.parser, past, a, b, next);
        }
      }
    }
  }

  lemma Stable(p: Parser, past: Data, a: Data, b: Data)
    requires Valid(p) && Feed(p, past, a).outcome != Pending
    ensures Feed(p, past, a + b) == Feed(p, past, a)
  {
    if p.phase == HeadersRead {
      LinesStable(p, past, a, b, 0);
    } else {
      ReadBodyStable(p, a, b);
    }
  }

  // ---- joining two chunks

  // Nothing is appended to held bytes when a NUL lies behind them.
  predicate Quiet(past: Data) {
    past == [] || past[0] == NUL
  }

  // The held bytes come back as they are, if the chunk closes the line they belong to.
  predicate Kept(p: Parser, past: Data, data: Data) {
    p.phase == BodyRead || LF !in data || Held(p, past) == p.notHandled
  }

  // Held bytes come back exactly when there are none, or they hold no NUL and one lies behind them.
  lemma HeldExact(p: Parser, past: Data)
    ensures Held(p, past) == p.notHandled <==> p.notHandled == [] || (NulFree(p.notHandled) && Quiet(past))
  {
    var all := p.notHandled + past;
    if p.notHandled != [] {
      FindLeft(p.notHandled, past, NUL, 0);
      assert all[..|p.notHandled|] == p.notHandled;
    }
  }

  // Where a chunk may end: not before the line feed of a header line.
  predicate Admissible(p: Parser, past: Data, a: Data, b: Data)
    requires Valid(p)
  {
    var q := Feed(p, past, a).parser;
    p.phase == BodyRead || b == [] || b[0] != LF || (q.phase == BodyRead && (q.body != [] || EndsInCrLf(a)))
  }

  // The parser that holds the bytes of a from position i too.
  function Holding(p: Parser, a: Data, i: nat): Parser
    requires i <= |a|
  {
    p.(notHandled := p.notHandled + a[i..])
  }

  // The line that a leaves open is closed in b: the remainder supplies its start.
  lemma LineAcross(p: Parser, x: Data, y: Data, a: Data, b: Data, i: nat, e: nat)
    requires LineStart(a, i) && 0 < e < |b| && b[e] == LF
    requires Held(p, x) == p.notHandled && Held(Holding(p, a, i), y) == Holding(p, a, i).notHandled
    ensures LineStart(a + b, i)
    ensures LineText(p, x, a + b, i, |a| + e) == LineText(Holding(p, a, i), y, b, 0, e)
    ensures NextLine(a + b, i, |a| + e) == |a| + NextLine(b, 0, e)
    ensures (a + b)[|a| + NextLine(b, 0, e)..] == b[NextLine(b, 0, e)..]
  {
    hide Held;
    var open := p.notHandled + a[i..];
    var stop := LineStop(b, 0, e);
    assert LineStop(a + b, i, |a| + e) == |a| + stop;
    assert p.notHandled + (a + b)[i..|a| + stop] == open + b[0..stop];
  }

  // A turn empties the remainder; what it held has gone into the line.
  lemma RemainderIsTaken(p: Parser, r: Parser, line: Data, rest: Data)
    requires Valid(p) && Valid(r) && p.phase == HeadersRead && r == p.(notHandled := r.notHandled)
    ensures TakeTurn(p, line, rest) == TakeTurn(r, line, rest)
    ensures TakeTurn(p, line, rest).Again? ==> TakeTurn(p, line, rest).parser.notHandled == []
  {
  }

  // Nothing is held, so nothing behind it is read.
  lemma {:induction false} PastUnused(p: Parser, x: Data, y: Data, data: Data, i: nat)
    requires Valid(p) && p.phase == HeadersRead && p.notHandled == [] && LineStart(data, i)
    ensures FeedLines(p, x, data, i) == FeedLines(p, y, data, i)
    decreases |data| - i
  {
    var e := Find(data, LF, i);
    if 0 < e < |data| {
      var next := NextLine(data, i, e);
      var t := TakeTurn(p, LineText(p, x, data, i, e), data[next..]);
      if t.Again? {
        PastUnused(t.parser, x, y, data, next);
      }
    }
  }

  // The last chunk ends inside a line: the remainder and the next chunk make up the line.
  lemma JoinInsideLine(p: Parser, x: Data, y: Data, a: Data, b: Data, i: nat)
    requires Valid(p) && p.phase == HeadersRead && LineStart(a, i) && Find(a, LF, i) == |a|
    requires b == [] || b[0] != LF
    requires Kept(p, x, b) && Kept(Holding(p, a, i), y, b)
    ensures LineStart(a + b, i)
    ensures FeedLines(p, x, a + b, i) == FeedLines(Holding(p, a, i), y, b, 0)
  {
    hide TakeTurn, LineText, NextLine, LineStop, Find, Held;
    var r := Holding(p, a, i);
    FindLeft(a, b, LF, i);
    var e := Find(b, LF, 0);
    if e == |b| {
      assert p.notHandled + (a + b)[i..] == r.notHandled + b[0..];
    } else {
      assert LF in b;
      LineAcross(p, x, y, a, b, i, e);
      var line, next := LineText(r, y, b, 0, e), NextLine(b, 0, e);
      RemainderIsTaken(p, r, line, b[next..]);
      match TakeTurn(r, line, b[next..])
      case Return(fed) =>
        assert FeedLines(p, x, a + b, i) == fed;
      case Again(q) =>
        assert FeedLines(p, x, a + b, i) == FeedLines(q, x, a + b, |a| + next);
        Shift(q, x, a, b, next);
        PastUnused(q, x, y, b, next);
    }
  }

  lemma NothingToKeep(p: Parser, past: Data, data: Data)
    requires p.notHandled == []
    ensures Kept(p, past, data)
  {
  }

  // The blank line comes in a: what follows it is cut as a body is.
  lemma JoinInBody(p: Parser, a: Data, b: Data, next: nat, there: nat)
    requires Valid(p) && p.phase == HeadersRead && next <= |a| && there <= |a + b|
    requires var t := TakeTurn(p, [], a[next..]);
             && t.Return? && t.fed.outcome == Pending
             && ((b != [] && b[0] == LF) ==> t.fed.parser.body != [] || EndsInCrLf(a))
    requires || (there == next && (a + b)[there..] == a[next..] + b)
             || (a[next..] == [] && b != [] && b[0] == LF && !EndsInCrLf(a))
    ensures TakeTurn(p, [], (a + b)[there..]) == Return(Feed(TakeTurn(p, [], a[next..]).fed.parser, [], b))
  {
    ReadBodyJoin(p.(notHandled := [], phase := BodyRead), a[next..], b);
  }

  lemma {:induction false} LinesJoin(p: Parser, x: Data, y: Data, a: Data, b: Data, i: nat)
    requires Valid(p) && p.phase == HeadersRead && LineStart(a, i)
    requires FeedLines(p, x, a, i).outcome == Pending && Kept(FeedLines(p, x, a, i).parser, y, b)
    requires Find(a, LF, i) < |a| || Kept(p, x, b)
    requires var q := FeedLines(p, x, a, i).parser;
             b == [] || b[0] != LF || (q.phase == BodyRead && (q.body != [] || EndsInCrLf(a)))
    ensures LineStart(a + b, i)
    ensures FeedLines(p, x, a + b, i) == Feed(FeedLines(p, x, a, i).parser, y, b)
    decreases |a| - i
  {
    hide Held, LineText, LineStop, NextLine, Find, Kept, ReadBody;
    FindLeft(a, b, LF, i);
    var e := Find(a, LF, i);
    if e == |a| {
      JoinInsideLine(p, x, y, a, b, i);
    } else {
      FirstLineOfSum(p, x, a, b, i, e);
      var line, next := LineText(p, x, a, i, e), NextLine(a, i, e);
      if line == [] {
        JoinInBody(p, a, b, next, NextLine(a + b, i, e));
      } else {
        var q := TakeTurn(p, line, a[next..]).parser;
        NothingToKeep(q, x, b);
        LinesJoin(q, x, y, a, b, next);
      }
    }
  }

  // Feeding a and then b is feeding a + b, with the same full state and the same answer. The bytes held
  // between the two must come back as they are: always so at a line start and in the body.
  lemma ChunksJoin(p: Parser, x: Data, y: Data, a: Data, b: Data)
    requires Valid(p) && Feed(p, x, a).outcome == Pending && Admissible(p, x, a, b)
    requires Kept(Feed(p, x, a).parser, y, b) && (LF in a || Kept(p, x, b))
    ensures Feed(Feed(p, x, a).parser, y, b) == Feed(p, x, a + b)
  {
    if p.phase == HeadersRead {
      assert Find(a, LF, 0) < |a| <==> LF in a;
      LinesJoin(p, x, y, a, b, 0);
    } else {
      ReadBodyJoin(p, a, b);
    }
  }

  lemma {:induction false} LaterChunkIsDefined(p: Parser, past: Data, data: Data, i: nat)
    requires Valid(p) && p.phase == HeadersRead && LineStart(data, i)
    requires data != [] && data[0] != LF
    ensures FeedLines(p, past, data, i).outcome != Undefined
    decreases |data| - i
  {
    hide Held, LineText, LineStop;
    var e := Find(data, LF, i);
    if e < |data| {
      var next := NextLine(data, i, e);
      var t := TakeTurn(p, LineText(p, past, data, i, e), data[next..]);
      if t.Again? {
        LaterChunkIsDefined(t.parser, past, data, next);
      }
    }
  }

  // While headers are read, a cut that gives the held bytes back is harmless exactly when the next chunk does
  // not start with a line feed.
  lemma HeaderCutExact(p: Parser, x: Data, y: Data, a: Data, b: Data)
    requires Valid(p) && Feed(p, x, a).outcome == Pending && Feed(p, x, a).parser.phase == HeadersRead
    requires Kept(Feed(p, x, a).parser, y, b) && (LF in a || Kept(p, x, b))
    ensures Feed(Feed(p, x, a).parser, y, b) == Feed(p, x, a + b) <==> (a == [] || b == [] || b[0] != LF)
  {
    if b == [] || b[0] != LF {
      ChunksJoin(p, x, y, a, b);
    } else if a == [] {
      assert a + b == b;
      assert Find(a, LF, 0) == 0;
      assert p.notHandled + a[0..] == p.notHandled;
    } else {
      assert Find(b, LF, 0) == 0;
      assert a[0] != LF;
      LaterChunkIsDefined(p, x, a + b, 0);
    }
  }

  // After a chunk that ends in a line feed nothing is held: a cut at the start of a line.
  lemma {:induction false} NothingIsHeld(p: Parser, past: Data, data: Data, i: nat)
    requires Valid(p) && p.phase == HeadersRead && LineStart(data, i)
    requires data != [] && data[|data| - 1] == LF && (i == |data| ==> p.notHandled == [])
    requires FeedLines(p, past, data, i).outcome == Pending
    ensures FeedLines(p, past, data, i).parser.notHandled == []
    decreases |data| - i
  {
    var e := Find(data, LF, i);
    if e < |data| {
      var next := NextLine(data, i, e);
      var t := TakeTurn(p, LineText(p, past, data, i, e), data[next..]);
      if t.Again? {
        NothingIsHeld(t.parser, past, data, next);
      }
    }
  }

  // ---- the body

  // The header lines end at a line start s. The blank line found there ends at n, and the body is a prefix of
  // what follows: the whole of it while more is wanted.
  ghost predicate BodyAfter(p: Parser, past: Data, data: Data, i: nat, s: nat, n: nat)
    requires Valid(p) && p.phase == HeadersRead && LineStart(data, i)
  {
    var r := FeedLines(p, past, data, i);
    && i <= s < n <= |data| && LineStart(data, s) && LineStart(data[..s], i)
    && var h := FeedLines(p, past, data[..s], i);
       && h.outcome == Pending && h.parser.phase == HeadersRead
       && var e := Find(data, LF, s);
          && 0 < e < |data| && LineText(h.parser, past, data, s, e) == [] && n == NextLine(data, s, e)
          && r.parser.body <= data[n..] && (r.outcome == Pending ==> r.parser.body == data[n..])
  }

  lemma {:induction false} BodyIsPrefix(p: Parser, past: Data, data: Data, i: nat) returns (s: nat, n: nat)
    requires Valid(p) && p.phase == HeadersRead && LineStart(data, i)
    requires FeedLines(p, past, data, i).parser.phase == BodyRead
    ensures BodyAfter(p, past, data, i, s, n)
    decreases |data| - i
  {
    hide Held, LineText, LineStop, NextLine;
    var e := Find(data, LF, i);
    var line, next := LineText(p, past, data, i, e), NextLine(data, i, e);
    if line == [] {
      s, n := i, next;
      FindIs(data[..s], LF, i, s);
      assert p.notHandled + data[..s][i..] == p.notHandled;
    } else {
      var q := TakeTurn(p, line, data[next..]).parser;
      s, n := BodyIsPrefix(q, past, data, next);
      HeadOfPrefix(p, past, data, i, s);
    }
  }

  lemma RestUnused(p: Parser, line: Data, rest: Data, other: Data)
    requires Valid(p) && p.phase == HeadersRead && line != []
    ensures TakeTurn(p, line, rest) == TakeTurn(p, line, other)
  {
  }

  // The first line of a longer prefix is the first line of the whole.
  lemma HeadOfPrefix(p: Parser, past: Data, data: Data, i: nat, s: nat)
    requires Valid(p) && p.phase == HeadersRead && LineStart(data, i) && LineStart(data, s)
    requires var e := Find(data, LF, i);
             && 0 < e < |data| && NextLine(data, i, e) <= s
             && LineText(p, past, data, i, e) != []
             && TakeTurn(p, LineText(p, past, data, i, e), data[NextLine(data, i, e)..]).Again?
    ensures var e := Find(data, LF, i);
            var next := NextLine(data, i, e);
            && LineStart(data[..s], i) && LineStart(data[..s], next)
            && FeedLines(p, past, data[..s], i)
               == FeedLines(TakeTurn(p, LineText(p, past, data, i, e), data[next..]).parser, past, data[..s], next)
  {
    hide Find, LineText, LineStop, NextLine, TakeTurn;
    var a, e := data[..s], Find(data, LF, i);
    var line, next := LineText(p, past, data, i, e), NextLine(data, i, e);
    FindIs(a, LF, i, e);
    assert a + data[s..] == data;
    FirstLineOfSum(p, past, a, data[s..], i, e);
    RestUnused(p, line, data[next..], a[next..]);
  }

  // ---- a cut behind the blank line

  // The blank line is closed by a bare line feed, the last byte of the chunk: a line feed after it would be
  // skipped with it.
  ghost predicate EndsBare(p: Parser, past: Data, data: Data, i: nat)
    requires Valid(p) && p.phase == HeadersRead && LineStart(data, i)
    decreases |data| - i
  {
    var e := Find(data, LF, i);
    && 0 < e < |data|
    && var line, next := LineText(p, past, data, i, e), NextLine(data, i, e);
       if line == [] then e == |data| - 1 && !EndsInCrLf(data)
       else
         var t := TakeTurn(p, line, data[next..]);
         t.Again? && EndsBare(t.parser, past, data, next)
  }

  lemma BareNext(a: Data, b: Data, i: nat, e: nat)
    requires LineStart(a, i) && i <= e < |a| && e > 0 && a[e] == LF
    ensures NextLine(a + b, i, e) == NextLine(a, i, e)
                                     + if e == |a| - 1 && !EndsInCrLf(a) && b != [] && b[0] == LF then 1 else 0
    ensures e == |a| - 1 ==> NextLine(a, i, e) == |a|
  {
  }

  lemma BlankThenRest(p: Parser, a: Data, b: Data, next: nat, skip: nat)
    requires Valid(p) && p.phase == HeadersRead && next <= |a| && skip <= |b| && (skip > 0 ==> next == |a|)
    requires TakeTurn(p, [], a[next..]).Return? && TakeTurn(p, [], a[next..]).fed.outcome == Pending
    ensures var q := TakeTurn(p, [], a[next..]).fed.parser;
            && q.body == a[next..]
            && TakeTurn(p, [], (a + b)[next + skip..]) == Return(ReadBody(q, b[skip..]))
  {
    hide ReadBody;
    var q := p.(notHandled := [], phase := BodyRead);
    assert (a + b)[next + skip..] == a[next..] + b[skip..];
    ReadBodyJoin(q, a[next..], b[skip..]);
    BodyOf(q, a[next..]);
  }

  function Skipped(bare: bool, b: Data): nat {
    if bare && b != [] && b[0] == LF then 1 else 0
  }

  // After a blank line, b goes on with the body, but for the line feed that a bare blank line takes with it.
  lemma {:induction false} BodyGetsRest(p: Parser, past: Data, a: Data, b: Data, i: nat)
    requires Valid(p) && p.phase == HeadersRead && LineStart(a, i)
    requires FeedLines(p, past, a, i).outcome == Pending && FeedLines(p, past, a, i).parser.phase == BodyRead
    ensures LineStart(a + b, i)
    ensures FeedLines(p, past, a + b, i)
            == ReadBody(FeedLines(p, past, a, i).parser, b[Skipped(EndsBare(p, past, a, i), b)..])
    ensures EndsBare(p, past, a, i) ==> FeedLines(p, past, a, i).parser.body == []
    decreases |a| - i
  {
    hide Held, LineText, LineStop, NextLine, Find, ReadBody, TakeTurn, EndsInCrLf;
    FindLeft(a, b, LF, i);
    var e := Find(a, LF, i);
    FirstLineOfSum(p, past, a, b, i, e);
    BareNext(a, b, i, e);
    var line, next := LineText(p, past, a, i, e), NextLine(a, i, e);
    if line == [] {
      BlankReturns(p, a[next..]);
      BlankThenRest(p, a, b, next, Skipped(e == |a| - 1 && !EndsInCrLf(a), b));
    } else {
      BodyNeedsBlank(p, line, a[next..]);
      RestUnused(p, line, a[next..], (a + b)[NextLine(a + b, i, e)..]);
      assert NextLine(a + b, i, e) == next by {
        NextIsEarlier(p, past, a, i, next);
      }
      BodyGetsRest(TakeTurn(p, line, a[next..]).parser, past, a, b, next);
    }
  }

  lemma BlankReturns(p: Parser, rest: Data)
    requires Valid(p) && p.phase == HeadersRead
    ensures TakeTurn(p, [], rest).Return?
  {
  }

  // Only a blank line ends the headers.
  lemma BodyNeedsBlank(p: Parser, line: Data, rest: Data)
    requires Valid(p) && p.phase == HeadersRead && line != []
    ensures TakeTurn(p, line, rest).Return? ==> TakeTurn(p, line, rest).fed.parser.phase == HeadersRead
  {
  }

  // Headers that end in a begin their last line in a.
  lemma NextIsEarlier(p: Parser, past: Data, a: Data, i: nat, next: nat)
    requires Valid(p) && p.phase == HeadersRead && LineStart(a, i) && LineStart(a, next)
    requires var e := Find(a, LF, i);
             && 0 < e < |a| && next == NextLine(a, i, e) && LineText(p, past, a, i, e) != []
    requires FeedLines(p, past, a, i).parser.phase == BodyRead
    ensures next < |a|
  {
    hide Held, LineText, LineStop, NextLine;
  }

  lemma BodyOf(p: Parser, rest: Data)
    requires Valid(p) && p.phase == BodyRead && p.body == [] && ReadBody(p, rest).outcome == Pending
    ensures ReadBody(p, rest).parser.body == rest
  {
  }

  // A parser that waits for its body reads b and b without its first byte alike.
  lemma SkippedByte(q: Parser, b: Data)
    requires Valid(q) && q.phase == BodyRead && !IsGet(q.start) && q.contentLength.Some? && q.body == [] && b != []
    ensures var n := q.contentLength.value;
            ReadBody(q, b) == ReadBody(q, b[1..]) <==> n == 0 || (n < |b| && forall i :: 0 <= i <= n ==> b[i] == b[0])
  {
    var n := q.contentLength.value;
    if n < |b| {
      assert [] + b[..n] == b[..n] && [] + b[1..][..n] == b[1..][..n];
      SameBytes(b, n);
    } else {
      assert [] + b[1..] == b[1..];
    }
  }

  lemma {:induction false} SameBytes(b: Data, n: nat)
    requires n < |b|
    ensures b[..n] == b[1..][..n] <==> forall i :: 0 <= i <= n ==> b[i] == b[0]
  {
    if n > 0 {
      SameBytes(b, n - 1);
      assert b[..n] == b[..n - 1] + [b[n - 1]];
      assert b[1..][..n] == b[1..][..n - 1] + [b[n]];
    }
  }

  // Once the headers are read and more is wanted, a cut is harmless exactly unless it comes behind a bare blank
  // line and before a line feed, and then only if the body would be nothing but line feeds either way.
  lemma BodyCutExact(p: Parser, x: Data, y: Data, a: Data, b: Data)
    requires Valid(p) && p.phase == HeadersRead
    requires Feed(p, x, a).outcome == Pending && Feed(p, x, a).parser.phase == BodyRead
    ensures var q := Feed(p, x, a).parser;
            && q.contentLength.Some?
            && (Feed(q, y, b) == Feed(p, x, a + b) <==>
                  || !EndsBare(p, x, a, 0) || b == [] || b[0] != LF
                  || (q.contentLength.value < |b| && forall i :: 0 <= i <= q.contentLength.value ==> b[i] == LF))
  {
    hide ReadBody, EndsBare, FeedLines;
    BodyGetsRest(p, x, a, b, 0);
    WaitsForBody(p, x, a, 0);
    var q := Feed(p, x, a).parser;
    assert b[0..] == b;
    if EndsBare(p, x, a, 0) && b != [] && b[0] == LF {
      SkippedByte(q, b);
    }
  }

  lemma {:induction false} WaitsForBody(p: Parser, past: Data, data: Data, i: nat)
    requires Valid(p) && p.phase == HeadersRead && LineStart(data, i)
    requires FeedLines(p, past, data, i).outcome == Pending && FeedLines(p, past, data, i).parser.phase == BodyRead
    ensures var q := FeedLines(p, past, data, i).parser;
            !IsGet(q.start) && q.contentLength.Some? && |q.body| < q.contentLength.value
    decreases |data| - i
  {
    hide Held, LineText, LineStop, NextLine;
    var e := Find(data, LF, i);
    var line, next := LineText(p, past, data, i, e), NextLine(data, i, e);
    if line != [] {
      WaitsForBody(TakeTurn(p, line, data[next..]).parser, past, data, next);
    }
  }
}

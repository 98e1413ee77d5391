/** Which error the configuration parser reports: the nested parser against one scan of the tokens that
    looks at the bracket balance, the token before, and the mark before. */
module ConfErrors {
  import opened Bytes
  import opened ConfLexer
  import S = ServConf
  import opened ServConf
  import opened ConfGrammar

  function Balance(seen: seq<Data>): int {
    if seen == [] then 0
    else
      var n := |seen| - 1;
      Balance(seen[..n]) + if Opens(seen[n]) then 1 else if Closes(seen[n]) then -1 else 0
  }

  function LastMark(seen: seq<Data>): Option<Data> {
    if seen == [] then None
    else
      var n := |seen| - 1;
      if IsMark(seen[n]) then Some(seen[n]) else LastMark(seen[..n])
  }

  predicate EndsInWord(seen: seq<Data>) {
    seen != [] && IsWord(seen[|seen| - 1])
  }

  // Why the token t cannot follow the tokens seen.
  function Cause(seen: seq<Data>, t: Data): Option<ParseErr> {
    if Opens(t) && !EndsInWord(seen) then Some(BlockHasNoKey)
    else if Ends(t) && !EndsInWord(seen) then Some(OperatorIsEmpty)
    else if Closes(t) && Balance(seen) == 0 then Some(ExtraBracket)
    else if Closes(t) && LastMark(seen) == Some("{") then Some(BlockIsEmpty)
    else None
  }

  // Why the input cannot end after the tokens seen.
  function EndCause(seen: seq<Data>): Option<ParseErr> {
    if EndsInWord(seen) then Some(OperatorNotClosed)
    else if LastMark(seen) == Some("{") then Some(BlockIsEmpty)
    else None
  }

  function FirstError(seen: seq<Data>, ts: seq<Data>): Option<ParseErr>
    decreases |ts|
  {
    if ts == [] then EndCause(seen)
    else if IsComment(ts[0]) then FirstError(seen, ts[1..])
    else
      var e := Cause(seen, ts[0]);
      if e.Some? then e else FirstError(seen + [ts[0]], ts[1..])
  }

  // ---- the scan sees what the stack knows

  predicate Agrees(below: seq<Frame>, top: Frame, seen: seq<Data>) {
    && |below| == Balance(seen)
    && (top.words != [] <==> EndsInWord(seen))
    && (top.items == [] && below != [] <==> LastMark(seen) == Some("{"))
  }

  lemma Grows(seen: seq<Data>, t: Data)
    ensures Balance(seen + [t]) == Balance(seen) + if Opens(t) then 1 else if Closes(t) then -1 else 0
    ensures LastMark(seen + [t]) == if IsMark(t) then Some(t) else LastMark(seen)
    ensures EndsInWord(seen + [t]) <==> IsWord(t)
  {
    assert (seen + [t])[..|seen|] == seen;
  }

  lemma FeedAgrees(below: seq<Frame>, top: Frame, seen: seq<Data>, t: Data)
    requires Agrees(below, top, seen) && IsToken(t) && !IsComment(t)
    ensures var s, e := Feed(below, top, t), Cause(seen, t);
            match e
            case Some(error) => s == Failed(error)
            case None =>
              && s.Open? && s.stack != []
              && Agrees(s.stack[..|s.stack| - 1], s.stack[|s.stack| - 1], seen + [t])
  {
    hide Balance, LastMark, EndsInWord;
    Grows(seen, t);
    assert IsMark(t) ==> t == [t[0]];
    var s := Feed(below, top, t);
    if s.Open? && Opens(t) {
      assert below + [top, NEW] == below + [top] + [NEW];
    }
  }

  lemma FinishAgrees(below: seq<Frame>, top: Frame, seen: seq<Data>)
    requires Agrees(below, top, seen)
    ensures var r, e := Finish(Open(below + [top])), EndCause(seen);
            if e.Some? then r == Err(e.value) else r.Ok?
  {
    hide Balance, LastMark, EndsInWord, CloseTop;
    assert (below + [top])[..|below|] == below;
    if top.words == [] && below != [] {
      if top.items == [] {
        NothingToClose(below, EndOfInput);
      } else {
        FinishNonEmpty(below, top);
      }
    }
  }

  // A block that holds something can always be closed by the end of the input.
  lemma {:induction false} FinishNonEmpty(below: seq<Frame>, top: Frame)
    requires top.words == [] && top.items != []
    ensures Finish(Open(below + [top])).Ok?
    decreases |below|
  {
    assert (below + [top])[..|below|] == below;
    if below != [] {
      var n := |below| - 1;
      var g := Frame(below[n].items + [Block(below[n].words, top.items, EndOfInput)], []);
      assert CloseTop(below, top.items, EndOfInput) == Open(below[..n] + [g]);
      FinishNonEmpty(below[..n], g);
    }
  }

  lemma {:induction false} ScanAgrees(below: seq<Frame>, top: Frame, seen: seq<Data>, ts: seq<Data>)
    requires Agrees(below, top, seen) && Lexed(ts)
    ensures var r, e := Parsed(Open(below + [top]), ts), FirstError(seen, ts);
            if e.Some? then r == Err(e.value) else r.Ok?
    decreases |ts|
  {
    hide Agrees, Cause, EndCause, Feed, Finish, S.Next;
    if ts == [] {
      FinishAgrees(below, top, seen);
    } else {
      NextIsFeed(below, top, ts[0]);
      if IsComment(ts[0]) {
        CommentIsSkipped(Open(below + [top]), ts[0]);
        ScanAgrees(below, top, seen, ts[1..]);
      } else {
        FeedAgrees(below, top, seen, ts[0]);
        var s := Feed(below, top, ts[0]);
        if s.Failed? {
          FailedParse(s.error, ts[1..]);
        } else {
          var b, f := Split(s.stack);
          ScanAgrees(b, f, seen + [ts[0]], ts[1..]);
        }
      }
    }
  }

  // The parser fails exactly when the scan finds an error, and with that error.
  lemma ErrorExact(ts: seq<Data>, e: ParseErr)
    requires Lexed(ts)
    ensures Conf(ts) == Err(e) <==> FirstError([], ts) == Some(e)
  {
    hide Parsed;
    ScanAgrees([], NEW, [], ts);
    assert [] + [NEW] == [NEW];
  }

  // ---- no error could be reported earlier

  ghost predicate Viable(ts: seq<Data>) {
    exists more :: Lexed(more) && Conf(ts + more).Ok?
  }

  // The tokens "x" and ";" make the innermost block non-empty.
  lemma CanGoOn(below: seq<Frame>, top: Frame)
    ensures Parsed(Open(below + [top]), ["x", ";"]).Ok?
  {
    var words := Frame(top.items, top.words + ["x"]);
    RunOne(below, top, "x");
    RunOne(below, words, ";");
    RunAppend(Open(below + [top]), ["x"], [";"]);
    assert ["x"] + [";"] == ["x", ";"];
    FinishNonEmpty(below, Frame(top.items + [Operator(words.words)], []));
  }

  lemma {:induction false} RunStaysOpen(s: State, ts: seq<Data>)
    requires s.Open? ==> s.stack != []
    ensures Run(s, ts).Open? ==> Run(s, ts).stack != []
    decreases |ts|
  {
    if ts != [] {
      RunStaysOpen(S.Next(s, ts[0]), ts[1..]);
    }
  }

  // Tokens can be completed to a configuration exactly as long as the machine has not failed.
  lemma ViableExact(ts: seq<Data>)
    ensures Viable(ts) <==> Run(Open([NEW]), ts).Open?
  {
    hide Finish, S.Next;
    var s := Run(Open([NEW]), ts);
    RunStaysOpen(Open([NEW]), ts);
    if s.Open? {
      var below, top := Split(s.stack);
      CanGoOn(below, top);
      RunAppend(Open([NEW]), ts, ["x", ";"]);
      assert Lexed(["x", ";"]) && Conf(ts + ["x", ";"]).Ok?;
    } else {
      forall more ensures Conf(ts + more).Err? {
        RunAppend(Open([NEW]), ts, more);
        FailedParse(s.error, more);
      }
    }
  }

  // The first token after which nothing can follow, if there is one.
  lemma {:induction false} FirstFailure(ts: seq<Data>) returns (k: nat)
    requires Run(Open([NEW]), ts).Failed?
    ensures k < |ts| && Run(Open([NEW]), ts[..k]).Open? && Run(Open([NEW]), ts[..k + 1]).Failed?
    decreases |ts|
  {
    var n := |ts| - 1;
    if Run(Open([NEW]), ts[..n]).Open? {
      k := n;
      assert ts[..n + 1] == ts;
    } else {
      k := FirstFailure(ts[..n]);
      assert ts[..n][..k] == ts[..k] && ts[..n][..k + 1] == ts[..k + 1];
    }
  }

  lemma {:induction false} RunAgrees(ts: seq<Data>)
    requires Lexed(ts) && Run(Open([NEW]), ts).Open?
    ensures var stack := Run(Open([NEW]), ts).stack;
            stack != [] && Agrees(stack[..|stack| - 1], stack[|stack| - 1], Significant(ts))
    decreases |ts|
  {
    hide Agrees, Feed, S.Next;
    if ts == [] {
      AgreesAtStart();
    } else {
      var n := |ts| - 1;
      assert ts[..n] + [ts[n]] == ts;
      RunAppend(Open([NEW]), ts[..n], [ts[n]]);
      SignificantAppend(ts[..n], [ts[n]]);
      var s := Run(Open([NEW]), ts[..n]);
      if s.Failed? {
        FailedStays(s.error, [ts[n]]);
      } else {
        RunAgrees(ts[..n]);
        var below, top := Split(s.stack);
        RunOne(below, top, ts[n]);
        if IsComment(ts[n]) {
          CommentIsSkipped(s, ts[n]);
          NextIsFeed(below, top, ts[n]);
          assert Significant(ts[..n]) + [] == Significant(ts[..n]);
        } else {
          assert Significant([ts[n]]) == [ts[n]];
          FeedAgrees(below, top, Significant(ts[..n]), ts[n]);
        }
      }
    }
  }

  lemma AgreesAtStart()
    ensures Agrees([], NEW, [])
    ensures [NEW][..0] == [] && [NEW][0] == NEW
  {
  }

  // An error names the first token that no configuration with the same beginning can have there, or it is
  // about the end of an input that something could have followed.
  lemma ErrorIsFirst(ts: seq<Data>) returns (k: nat)
    requires Lexed(ts) && Conf(ts).Err?
    ensures k <= |ts| && Viable(ts[..k])
    ensures if k < |ts| then !Viable(ts[..k + 1]) && Cause(Significant(ts[..k]), ts[k]) == Some(Conf(ts).error)
            else EndCause(Significant(ts)) == Some(Conf(ts).error)
  {
    hide Agrees, Cause, EndCause, Viable, Feed, S.Next, Finish;
    var s := Run(Open([NEW]), ts);
    if s.Open? {
      k := |ts|;
      assert ts[..k] == ts;
      ViableExact(ts);
      RunAgrees(ts);
      var below, top := Split(s.stack);
      FinishAgrees(below, top, Significant(ts));
    } else {
      k := FirstFailure(ts);
      ViableExact(ts[..k]);
      ViableExact(ts[..k + 1]);
      FailureIs(ts, k);
    }
  }

  lemma FailureIs(ts: seq<Data>, k: nat)
    requires Lexed(ts) && k < |ts| && Run(Open([NEW]), ts[..k]).Open? && Run(Open([NEW]), ts[..k + 1]).Failed?
    ensures Conf(ts).Err? && Cause(Significant(ts[..k]), ts[k]) == Some(Conf(ts).error)
  {
    hide Agrees, Cause, Feed, S.Next, Run, Finish, Significant;
    var before, after := Run(Open([NEW]), ts[..k]), Run(Open([NEW]), ts[..k + 1]);
    RunAgrees(ts[..k]);
    var below, top := Split(before.stack);
    assert ts[..k] + [ts[k]] == ts[..k + 1] && ts[..k + 1] + ts[k + 1..] == ts;
    RunAppend(Open([NEW]), ts[..k], [ts[k]]);
    RunAppend(Open([NEW]), ts[..k + 1], ts[k + 1..]);
    RunOne(below, top, ts[k]);
    FailedParse(after.error, ts[k + 1..]);
    if IsComment(ts[k]) {
      CommentIsSkipped(before, ts[k]);
      NextIsFeed(below, top, ts[k]);
    } else {
      FeedAgrees(below, top, Significant(ts[..k]), ts[k]);
    }
  }
}

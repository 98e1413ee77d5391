/** What the configuration parser accepts, and which error it reports. */
module ConfGrammar {
  import opened Bytes
  import opened ConfLexer
  import S = ServConf
  import opened ServConf

  // ---- the grammar: items, each written out as tokens

  function Flat(items: seq<Item>): seq<Data>
    decreases items
  {
    if items == [] then [] else Flat(items[..|items| - 1]) + FlatItem(items[|items| - 1])
  }

  function FlatItem(item: Item): seq<Data>
    decreases item
  {
    match item
    case Operator(words) => words + [";"]
    case Block(words, body, Brace(dropped)) => words + ["{"] + Flat(body) + dropped + ["}"]
    case Block(words, body, EndOfInput) => words + ["{"] + Flat(body)
  }

  ghost predicate Words(ws: seq<Data>) {
    forall i :: 0 <= i < |ws| ==> IsWord(ws[i])
  }

  // Only the last item, and inside it the last again, may be left open by the end of the input.
  ghost predicate WellFormed(items: seq<Item>, last: bool)
    decreases items
  {
    items == [] || (WellFormed(items[..|items| - 1], false) && ItemOk(items[|items| - 1], last))
  }

  ghost predicate ItemOk(item: Item, last: bool)
    decreases item
  {
    && Words(item.words) && item.words != []
    && (item.Block? ==>
          && item.body != []
          && if item.close.Brace? then Words(item.close.dropped) && WellFormed(item.body, false)
             else last && WellFormed(item.body, true))
  }

  ghost predicate Lexed(ts: seq<Data>) {
    forall i :: 0 <= i < |ts| ==> IsToken(ts[i])
  }

  // ---- what is read so far is what the stack holds

  function StackFlat(stack: seq<Frame>): seq<Data>
    decreases |stack|
  {
    if stack == [] then []
    else
      var n := |stack| - 1;
      StackFlat(stack[..n]) + (if n > 0 then ["{"] else []) + Flat(stack[n].items) + stack[n].words
  }

  ghost predicate FrameOk(f: Frame, last: bool) {
    WellFormed(f.items, last) && Words(f.words)
  }

  ghost predicate StackOk(stack: seq<Frame>, last: bool) {
    && stack != []
    && FrameOk(stack[|stack| - 1], last)
    && (forall i :: 0 <= i < |stack| - 1 ==> FrameOk(stack[i], false) && stack[i].words != [])
  }

  lemma LastMayBeClosed(items: seq<Item>)
    requires WellFormed(items, false)
    ensures WellFormed(items, true)
  {
  }

  lemma FlatAdd(items: seq<Item>, item: Item, last: bool)
    ensures Flat(items + [item]) == Flat(items) + FlatItem(item)
    ensures WellFormed(items + [item], last) <==> WellFormed(items, false) && ItemOk(item, last)
  {
    assert (items + [item])[..|items|] == items;
  }

  lemma StackAdd(below: seq<Frame>, top: Frame)
    ensures StackFlat(below + [top])
            == StackFlat(below) + (if below != [] then ["{"] else []) + Flat(top.items) + top.words
  {
    assert (below + [top])[..|below|] == below;
  }

  lemma Closing(below: seq<Frame>, top: Frame, close: Close, last: bool)
    requires StackOk(below + [top], last) && below != [] && top.items != []
    requires close.Brace? ==> close.dropped == top.words && !last
    requires close.EndOfInput? ==> top.words == [] && last
    ensures var s := CloseTop(below, top.items, close);
            && s.Open? && StackOk(s.stack, last)
            && StackFlat(s.stack) == StackFlat(below + [top]) + if close.Brace? then ["}"] else []
  {
    hide StackFlat, Flat, FlatItem, WellFormed;
    var n := |below| - 1;
    var under, g := below[..n], below[n];
    assert (below + [top])[|below|] == top && (below + [top])[n] == g;
    assert under + [g] == below;
    var block := Block(g.words, top.items, close);
    FlatAdd(g.items, block, last);
    StackAdd(under, g);
    StackAdd(below, top);
    StackAdd(under, Frame(g.items + [block], []));
    BlockFlat(block);
    if close.EndOfInput? { assert top.words == []; }
    assert forall i :: 0 <= i < n ==> (below + [top])[i] == under[i];
  }

  lemma BlockFlat(item: Item)
    requires item.Block?
    ensures FlatItem(item) == item.words + ["{"] + Flat(item.body)
                              + if item.close.Brace? then item.close.dropped + ["}"] else []
  {
  }

  lemma FeedKeeps(below: seq<Frame>, top: Frame, t: Data)
    requires StackOk(below + [top], false) && IsToken(t) && Feed(below, top, t).Open?
    ensures var s := Feed(below, top, t);
            StackOk(s.stack, false) && StackFlat(s.stack) == StackFlat(below + [top]) + Significant([t])
  {
    hide StackFlat, Flat, FlatItem, WellFormed, ItemOk;
    assert forall i :: 0 <= i < |below| ==> (below + [top])[i] == below[i];
    assert (below + [top])[|below|] == top;
    assert IsMark(t) ==> t == [t[0]];
    assert Significant([t]) == if IsComment(t) then [] else [t];
    if IsComment(t) {
      assert StackFlat(below + [top]) + [] == StackFlat(below + [top]);
    } else if Opens(t) {
      StackAdd(below + [top], NEW);
      assert below + [top] + [NEW] == below + [top, NEW];
      EmptyFlat();
    } else if Closes(t) {
      Closing(below, top, Brace(top.words), false);
    } else if Ends(t) {
      var item := Operator(top.words);
      FlatAdd(top.items, item, false);
      StackAdd(below, top);
      StackAdd(below, Frame(top.items + [item], []));
      OperatorFlat(item);
    } else {
      StackAdd(below, top);
      StackAdd(below, Frame(top.items, top.words + [t]));
    }
  }

  lemma EmptyFlat()
    ensures Flat([]) == [] && WellFormed([], false)
  {
  }

  lemma OperatorFlat(item: Item)
    requires item.Operator?
    ensures FlatItem(item) == item.words + [";"]
    ensures ItemOk(item, false) <==> Words(item.words) && item.words != []
  {
  }

  lemma NextIsFeed(below: seq<Frame>, top: Frame, t: Data)
    ensures S.Next(Open(below + [top]), t) == Feed(below, top, t)
  {
    assert (below + [top])[..|below|] == below;
  }

  lemma Split(stack: seq<Frame>) returns (below: seq<Frame>, top: Frame)
    requires stack != []
    ensures stack == below + [top]
  {
    below, top := stack[..|stack| - 1], stack[|stack| - 1];
  }

  lemma {:induction false} RunKeeps(stack: seq<Frame>, ts: seq<Data>)
    requires StackOk(stack, false) && Lexed(ts) && Run(Open(stack), ts).Open?
    ensures var s := Run(Open(stack), ts);
            StackOk(s.stack, false) && StackFlat(s.stack) == StackFlat(stack) + Significant(ts)
    decreases |ts|
  {
    hide StackFlat, FrameOk, Feed, S.Next, Significant;
    if ts == [] {
      EmptySignificant();
    } else {
      var below, top := Split(stack);
      NextIsFeed(below, top, ts[0]);
      var s := Feed(below, top, ts[0]);
      if s.Failed? {
        FailedStays(s.error, ts[1..]);
      } else {
        FeedKeeps(below, top, ts[0]);
        RunKeeps(s.stack, ts[1..]);
        SignificantAppend([ts[0]], ts[1..]);
        assert [ts[0]] + ts[1..] == ts;
      }
    }
  }

  lemma EmptySignificant()
    ensures Significant([]) == []
  {
  }

  lemma {:induction false} FinishKeeps(stack: seq<Frame>)
    requires StackOk(stack, true) && Finish(Open(stack)).Ok?
    ensures var items := Finish(Open(stack)).value;
            WellFormed(items, true) && Flat(items) == StackFlat(stack)
    decreases |stack|
  {
    hide Flat, WellFormed, CloseTop;
    var n := |stack| - 1;
    var below, top := stack[..n], stack[n];
    assert below + [top] == stack;
    if n == 0 {
      StackAdd(below, top);
      assert StackFlat([]) == [];
    } else if top.items != [] {
      Closing(below, top, EndOfInput, true);
      CloseIsShorter(below, top.items, EndOfInput);
      FinishKeeps(CloseTop(below, top.items, EndOfInput).stack);
    } else {
      NothingToClose(below, EndOfInput);
    }
  }

  lemma CloseIsShorter(below: seq<Frame>, items: seq<Item>, close: Close)
    requires below != [] && items != []
    ensures var s := CloseTop(below, items, close);
            s.Open? && |s.stack| == |below|
  {
  }

  lemma NothingToClose(below: seq<Frame>, close: Close)
    requires below != []
    ensures CloseTop(below, [], close) == Failed(BlockIsEmpty)
  {
  }

  // What the parser accepts is written by the grammar, and the items are those read.
  lemma Sound(ts: seq<Data>)
    requires Lexed(ts) && Conf(ts).Ok?
    ensures WellFormed(Conf(ts).value, true) && Flat(Conf(ts).value) == Significant(ts)
  {
    hide Flat, WellFormed, Significant;
    var s := Run(Open([NEW]), ts);
    EmptyFlat();
    RunKeeps([NEW], ts);
    LastMayBeClosed(s.stack[|s.stack| - 1].items);
    FinishKeeps(s.stack);
    assert StackFlat([NEW]) == [];
  }

  // ---- and the other way round

  lemma {:induction false} RunAppend(s: State, a: seq<Data>, b: seq<Data>)
    ensures Run(s, a + b) == Run(Run(s, a), b)
    decreases |a|
  {
    if a == [] {
      assert a + b == b;
    } else {
      assert (a + b)[1..] == a[1..] + b;
      RunAppend(S.Next(s, a[0]), a[1..], b);
    }
  }

  lemma {:induction false} RunWords(below: seq<Frame>, top: Frame, ws: seq<Data>)
    requires Words(ws)
    ensures Run(Open(below + [top]), ws) == Open(below + [Frame(top.items, top.words + ws)])
    decreases |ws|
  {
    hide S.Next;
    if ws == [] {
      assert top.words + ws == top.words;
    } else {
      NextIsFeed(below, top, ws[0]);
      assert IsWord(ws[0]);
      RunWords(below, Frame(top.items, top.words + [ws[0]]), ws[1..]);
      assert top.words + [ws[0]] + ws[1..] == top.words + ws;
    }
  }

  lemma RunOne(below: seq<Frame>, top: Frame, t: Data)
    ensures Run(Open(below + [top]), [t]) == Feed(below, top, t)
  {
    hide Feed;
    NextIsFeed(below, top, t);
    assert Run(S.Next(Open(below + [top]), t), [t][1..]) == S.Next(Open(below + [top]), t);
  }

  lemma {:induction false} RunItem(below: seq<Frame>, items: seq<Item>, item: Item)
    requires ItemOk(item, false)
    ensures Run(Open(below + [Frame(items, [])]), FlatItem(item)) == Open(below + [Frame(items + [item], [])])
    decreases item
  {
    hide Run, Flat, FlatItem, S.Next;
    var start := Open(below + [Frame(items, [])]);
    var top := Frame(items, item.words);
    RunWords(below, Frame(items, []), item.words);
    assert [] + item.words == item.words;
    if item.Operator? {
      OperatorFlat(item);
      RunAppend(start, item.words, [";"]);
      RunOne(below, top, ";");
    } else {
      var d := item.close.dropped;
      BlockFlat(item);
      OpenBlock(below, items, item);
      assert item.words + ["{"] + Flat(item.body) + (d + ["}"]) == item.words + ["{"] + (Flat(item.body) + (d + ["}"]));
      RunAppend(start, item.words + ["{"], Flat(item.body) + (d + ["}"]));
      var inside := below + [top];
      RunAppend(Open(inside + [NEW]), Flat(item.body), d + ["}"]);
      RunItems(inside, [], item.body);
      assert [] + item.body == item.body;
      RunAppend(Open(inside + [Frame(item.body, [])]), d, ["}"]);
      RunWords(inside, Frame(item.body, []), d);
      assert [] + d == d;
      RunOne(inside, Frame(item.body, d), "}");
      assert inside[..|below|] == below;
    }
  }

  lemma OpenBlock(below: seq<Frame>, items: seq<Item>, item: Item)
    requires item.Block? && Words(item.words) && item.words != []
    ensures Run(Open(below + [Frame(items, [])]), item.words + ["{"])
            == Open(below + [Frame(items, item.words)] + [NEW])
  {
    hide Run, S.Next;
    RunWords(below, Frame(items, []), item.words);
    assert [] + item.words == item.words;
    RunAppend(Open(below + [Frame(items, [])]), item.words, ["{"]);
    RunOne(below, Frame(items, item.words), "{");
    assert below + [Frame(items, item.words), NEW] == below + [Frame(items, item.words)] + [NEW];
  }

  lemma {:induction false} RunItems(below: seq<Frame>, before: seq<Item>, items: seq<Item>)
    requires WellFormed(items, false)
    ensures Run(Open(below + [Frame(before, [])]), Flat(items)) == Open(below + [Frame(before + items, [])])
    decreases items
  {
    hide FlatItem, S.Next, ItemOk;
    if items == [] {
      assert before + items == before;
    } else {
      var n := |items| - 1;
      RunItems(below, before, items[..n]);
      RunAppend(Open(below + [Frame(before, [])]), Flat(items[..n]), FlatItem(items[n]));
      RunItem(below, before + items[..n], items[n]);
      assert before + items[..n] + [items[n]] == before + items;
    }
  }

  lemma {:induction false} RunOpenItems(below: seq<Frame>, before: seq<Item>, items: seq<Item>)
    requires WellFormed(items, true)
    ensures Parsed(Open(below + [Frame(before, [])]), Flat(items)) == Finish(Open(below + [Frame(before + items, [])]))
    decreases items
  {
    hide Run, FlatItem, S.Next, Finish;
    var start := Open(below + [Frame(before, [])]);
    if items == [] {
      assert before + items == before;
      RunNothing(start);
    } else {
      var n := |items| - 1;
      var item := items[n];
      var mid := before + items[..n];
      RunItems(below, before, items[..n]);
      RunAppend(start, Flat(items[..n]), FlatItem(item));
      assert mid + [item] == before + items;
      if item.Block? && item.close.EndOfInput? {
        BlockFlat(item);
        OpenBlock(below, mid, item);
        assert item.words + ["{"] + Flat(item.body) + [] == item.words + ["{"] + Flat(item.body);
        RunAppend(Open(below + [Frame(mid, [])]), item.words + ["{"], Flat(item.body));
        RunOpenItems(below + [Frame(mid, item.words)], [], item.body);
        assert [] + item.body == item.body;
        FinishBlock(below, mid, item);
      } else {
        RunItem(below, mid, item);
      }
    }
  }

  lemma RunNothing(s: State)
    ensures Run(s, []) == s
  {
  }

  lemma FinishBlock(below: seq<Frame>, items: seq<Item>, item: Item)
    requires item.Block? && item.body != [] && item.close.EndOfInput?
    ensures Finish(Open(below + [Frame(items, item.words)] + [Frame(item.body, [])]))
            == Finish(Open(below + [Frame(items + [item], [])]))
  {
    var stack := below + [Frame(items, item.words)];
    var n := |stack|;
    assert (stack + [Frame(item.body, [])])[..n] == stack;
    assert stack[..n - 1] == below;
  }

  // Exactly the grammar is accepted, and the items read are the only ones that are written so.
  lemma GrammarExact(ts: seq<Data>, items: seq<Item>)
    requires Lexed(ts)
    ensures Conf(ts) == Ok(items) <==> WellFormed(items, true) && Flat(items) == Significant(ts)
  {
    hide Run, Flat, WellFormed, Finish, Significant;
    if Conf(ts) == Ok(items) {
      Sound(ts);
    }
    if WellFormed(items, true) && Flat(items) == Significant(ts) {
      RunOpenItems([], [], items);
      assert [] + items == items && [] + [NEW] == [NEW];
      CommentsSkipped(Open([NEW]), ts);
      FinishOne(items);
      assert [] + [Frame(items, [])] == [Frame(items, [])];
    }
  }

  lemma FinishOne(items: seq<Item>)
    ensures Finish(Open([Frame(items, [])])) == Ok(items)
  {
  }

  lemma {:induction false} CommentsSkipped(s: State, ts: seq<Data>)
    ensures Run(s, ts) == Run(s, Significant(ts))
    decreases |ts|
  {
    hide Feed;
    if ts != [] {
      CommentsSkipped(S.Next(s, ts[0]), ts[1..]);
      if IsComment(ts[0]) {
        CommentIsSkipped(s, ts[0]);
        assert [] + Significant(ts[1..]) == Significant(ts[1..]);
      } else {
        assert [ts[0]] + Significant(ts[1..]) == Significant(ts);
        assert Significant(ts)[1..] == Significant(ts[1..]);
      }
    }
  }

  lemma CommentIsSkipped(s: State, t: Data)
    requires IsComment(t)
    ensures S.Next(s, t) == s
  {
  }
}

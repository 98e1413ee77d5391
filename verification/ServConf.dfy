/** The recursive parser of the configuration language, src/config-parser/serv-conf/ServConf.cpp,
    against a machine with an explicit stack of open blocks. */
module ServConf {
  import opened Bytes
  import opened ConfLexer

  datatype ParseErr = ExtraBracket | OperatorNotClosed | BlockIsEmpty | OperatorIsEmpty | BlockHasNoKey

  datatype Result<+T> = Ok(value: T) | Err(error: ParseErr)

  // ---- what the parser builds

  type Nodes = map<Data, seq<Node>>

  datatype Node = Node(args: seq<Data>, nodes: Option<Nodes>)

  function AddNode(nodes: Nodes, key: Data, node: Node): Nodes {
    nodes[key := (if key in nodes then nodes[key] else []) + [node]]
  }

  // ---- what is written, in source order

  // A block ends at its '}', where words still pending are dropped, or at the end of the input.
  datatype Close = Brace(dropped: seq<Data>) | EndOfInput

  datatype Item =
    | Operator(words: seq<Data>)
    | Block(words: seq<Data>, body: seq<Item>, close: Close)

  function TreeOf(items: seq<Item>): Nodes
    decreases items
  {
    if items == [] then map[]
    else
      var n := |items| - 1;
      var item := items[n];
      var key := if item.words == [] then [] else item.words[0];
      AddNode(TreeOf(items[..n]), key, NodeOf(item))
  }

  function NodeOf(item: Item): Node
    decreases item
  {
    var args := if item.words == [] then [] else item.words[1..];
    match item
    case Operator(_) => Node(args, None)
    case Block(_, body, _) => Node(args, Some(TreeOf(body)))
  }

  // ---- the machine

  // An open block: what it holds so far, and the words since the last mark.
  datatype Frame = Frame(items: seq<Item>, words: seq<Data>)

  const NEW := Frame([], [])

  datatype State = Open(stack: seq<Frame>) | Failed(error: ParseErr)

  predicate Opens(t: Data) { t != [] && t[0] == '{' }
  predicate Closes(t: Data) { t != [] && t[0] == '}' }
  predicate Ends(t: Data) { t != [] && t[0] == ';' }

  function CloseTop(below: seq<Frame>, items: seq<Item>, close: Close): State
    requires below != []
  {
    var n := |below| - 1;
    if items == [] then Failed(BlockIsEmpty)
    else Open(below[..n] + [Frame(below[n].items + [Block(below[n].words, items, close)], [])])
  }

  function Feed(below: seq<Frame>, top: Frame, t: Data): State {
    if IsComment(t) then Open(below + [top])
    else if Opens(t) then
      if top.words == [] then Failed(BlockHasNoKey) else Open(below + [top, NEW])
    else if Closes(t) then
      if below == [] then Failed(ExtraBracket) else CloseTop(below, top.items, Brace(top.words))
    else if Ends(t) then
      if top.words == [] then Failed(OperatorIsEmpty)
      else Open(below + [Frame(top.items + [Operator(top.words)], [])])
    else Open(below + [Frame(top.items, top.words + [t])])
  }

  function Next(s: State, t: Data): State {
    if s.Failed? || s.stack == [] then s
    else Feed(s.stack[..|s.stack| - 1], s.stack[|s.stack| - 1], t)
  }

  function Run(s: State, ts: seq<Data>): State
    decreases |ts|
  {
    if ts == [] then s else Run(Next(s, ts[0]), ts[1..])
  }

  // The end of the input closes what is open.
  function Finish(s: State): Result<seq<Item>>
    decreases if s.Open? then |s.stack| else 0
  {
    match s
    case Failed(e) => Err(e)
    case Open(stack) =>
      if stack == [] then Ok([])
      else
        var n := |stack| - 1;
        if stack[n].words != [] then Err(OperatorNotClosed)
        else if n == 0 then Ok(stack[0].items)
        else Finish(CloseTop(stack[..n], stack[n].items, EndOfInput))
  }

  function Parsed(s: State, ts: seq<Data>): Result<seq<Item>> {
    Finish(Run(s, ts))
  }

  function Conf(ts: seq<Data>): Result<seq<Item>> {
    Parsed(Open([NEW]), ts)
  }

  // ---- the parser

  lemma ParsedStep(below: seq<Frame>, top: Frame, ts: seq<Data>)
    requires ts != []
    ensures Parsed(Open(below + [top]), ts) == Parsed(Feed(below, top, ts[0]), ts[1..])
  {
    hide Feed;
    assert (below + [top])[..|below|] == below;
  }

  lemma {:induction false} FailedStays(e: ParseErr, ts: seq<Data>)
    ensures Run(Failed(e), ts) == Failed(e)
    decreases |ts|
  {
    if ts != [] {
      FailedStays(e, ts[1..]);
    }
  }

  lemma TreeStep(items: seq<Item>, item: Item)
    requires item.words != []
    ensures TreeOf(items + [item]) == AddNode(TreeOf(items), item.words[0], NodeOf(item))
  {
    hide NodeOf, AddNode;
    var all := items + [item];
    assert all[..|items|] == items && all[|items|] == item;
  }

  lemma TreeEmpty(items: seq<Item>)
    ensures TreeOf(items) == map[] <==> items == []
  {
    if items != [] {
      var last := items[|items| - 1];
      assert (if last.words == [] then [] else last.words[0]) in TreeOf(items);
    }
  }

  class TokenList {
    var tokens: seq<Data>

    constructor (tokens: seq<Data>)
      ensures this.tokens == tokens
    {
      this.tokens := tokens;
    }

    // `below` are the blocks around this one, `items` and `close` what the call has read.
    method Parse(depth: nat, ghost below: seq<Frame>)
      returns (r: Result<Nodes>, ghost items: seq<Item>, ghost close: Close)
      requires |below| == depth
      modifies this
      ensures |tokens| <= |old(tokens)|
      ensures r.Err? ==> Parsed(Open(below + [NEW]), old(tokens)) == Err(r.error)
      ensures r.Ok? ==> r.value == TreeOf(items)
      ensures r.Ok? && depth == 0 ==> tokens == [] && Parsed(Open([NEW]), old(tokens)) == Ok(items)
      ensures r.Ok? && depth > 0 ==>
                Parsed(Open(below + [NEW]), old(tokens)) == Parsed(CloseTop(below, items, close), tokens)
      decreases |tokens|
    {
      hide Parsed, TreeOf, NodeOf, AddNode;
      var currTokens: seq<Data> := [];
      var nodes: Nodes := map[];
      items, close := [], EndOfInput;
      TreeEmpty([]);
      while tokens != []
        invariant |tokens| <= |old(tokens)|
        invariant nodes == TreeOf(items)
        invariant Parsed(Open(below + [Frame(items, currTokens)]), tokens) == Parsed(Open(below + [NEW]), old(tokens))
        decreases |tokens|
      {
        var it := tokens[0];
        ParsedStep(below, Frame(items, currTokens), tokens);
        if it != [] && it[0] == '#' {
          tokens := tokens[1..];
        } else if it != [] && it[0] == '{' {
          if currTokens == [] {
            FailedParse(BlockHasNoKey, tokens[1..]);
            return Err(BlockHasNoKey), items, close;
          }
          tokens := tokens[1..];
          ghost var around := below + [Frame(items, currTokens)];
          assert around + [NEW] == below + [Frame(items, currTokens), NEW];
          var res, inner, innerClose := Parse(depth + 1, around);
          if res.Err? {
            return res, items, close;
          }
          TreeEmpty(inner);
          if res.value == map[] {
            FailedParse(BlockIsEmpty, tokens);
            return Err(BlockIsEmpty), items, close;
          }
          var key := currTokens[0];
          var args := currTokens[1..];
          ghost var block := Block(currTokens, inner, innerClose);
          TreeStep(items, block);
          NodeIs(block);
          assert around[..|below|] == below;
          items := items + [block];
          currTokens := [];
          nodes := AddNode(nodes, key, Node(args, Some(res.value)));
        } else if it != [] && it[0] == '}' {
          if depth == 0 {
            FailedParse(ExtraBracket, tokens[1..]);
            return Err(ExtraBracket), items, close;
          }
          tokens := tokens[1..];
          return Ok(nodes), items, Brace(currTokens);
        } else if it != [] && it[0] == ';' {
          tokens := tokens[1..];
          if currTokens == [] {
            FailedParse(OperatorIsEmpty, tokens);
            return Err(OperatorIsEmpty), items, close;
          }
          var key := currTokens[0];
          var args := currTokens[1..];
          TreeStep(items, Operator(currTokens));
          NodeIs(Operator(currTokens));
          items := items + [Operator(currTokens)];
          currTokens := [];
          nodes := AddNode(nodes, key, Node(args, None));
        } else {
          currTokens := currTokens + [it];
          tokens := tokens[1..];
        }
      }
      ParsedEnd(below, Frame(items, currTokens));
      assert depth == 0 ==> below == [] && below + [NEW] == [NEW];
      if currTokens != [] {
        return Err(OperatorNotClosed), items, close;
      }
      return Ok(nodes), items, EndOfInput;
    }
  }

  lemma FailedParse(e: ParseErr, ts: seq<Data>)
    ensures Parsed(Failed(e), ts) == Err(e)
  {
    FailedStays(e, ts);
  }

  lemma NodeIs(item: Item)
    requires item.words != []
    ensures item.Operator? ==> NodeOf(item) == Node(item.words[1..], None)
    ensures item.Block? ==> NodeOf(item) == Node(item.words[1..], Some(TreeOf(item.body)))
  {
  }

  lemma ParsedEnd(below: seq<Frame>, top: Frame)
    ensures Parsed(Open(below + [top]), [])
            == if top.words != [] then Err(OperatorNotClosed)
               else if below == [] then Ok(top.items)
               else Parsed(CloseTop(below, top.items, EndOfInput), [])
  {
    assert (below + [top])[..|below|] == below;
  }

  // The whole of ServConf::from on a string.
  function ConfOf(s: Data): Result<Nodes> {
    match Conf(Tokens(FRESH, s))
    case Ok(items) => Ok(TreeOf(items))
    case Err(e) => Err(e)
  }

  method From(s: Data) returns (r: Result<Nodes>)
    ensures r == ConfOf(s)
  {
    hide Parsed, TreeOf;
    var tokens := Tokenize(s);
    var list := new TokenList(tokens);
    var res, items, close := list.Parse(0, []);
    assert [] + [NEW] == [NEW];
    r := res;
  }
}

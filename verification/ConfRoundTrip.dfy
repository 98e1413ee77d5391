/** A printed configuration is read back, whatever its layout, and nodes of one key stay in source order. */
module ConfRoundTrip {
  import opened Bytes
  import opened Ordering
  import opened ConfLexer
  import opened ServConf
  import opened ConfGrammar

  // ---- same-key nodes

  // The nodes of the items that begin with the word key, as they come.
  function Named(items: seq<Item>, key: Data): seq<Node> {
    if items == [] then []
    else
      var n := |items| - 1;
      Named(items[..n], key)
      + if items[n].words != [] && items[n].words[0] == key then [NodeOf(items[n])] else []
  }

  // At every depth: NodeOf of a block is the tree of its body, to which this applies again.
  lemma {:induction false} SourceOrder(items: seq<Item>, key: Data)
    requires forall i :: 0 <= i < |items| ==> items[i].words != []
    ensures key in TreeOf(items) <==> Named(items, key) != []
    ensures key in TreeOf(items) ==> TreeOf(items)[key] == Named(items, key)
    decreases |items|
  {
    if items != [] {
      SourceOrder(items[..|items| - 1], key);
    }
  }

  // ---- any layout of any configuration

  lemma {:induction false} FlatIsWritten(items: seq<Item>, last: bool)
    requires WellFormed(items, last)
    ensures forall i :: 0 <= i < |Flat(items)| ==> IsWord(Flat(items)[i]) || IsMark(Flat(items)[i])
    decreases items
  {
    hide FlatItem, ItemOk;
    if items != [] {
      var n := |items| - 1;
      FlatIsWritten(items[..n], false);
      ItemIsWritten(items[n], last);
    }
  }

  lemma {:induction false} ItemIsWritten(item: Item, last: bool)
    requires ItemOk(item, last)
    ensures forall i :: 0 <= i < |FlatItem(item)| ==> IsWord(FlatItem(item)[i]) || IsMark(FlatItem(item)[i])
    decreases item
  {
    if item.Block? {
      FlatIsWritten(item.body, item.close.EndOfInput?);
      BlockFlat(item);
    }
  }

  lemma {:induction false} NoComments(ts: seq<Data>)
    requires forall i :: 0 <= i < |ts| ==> IsWord(ts[i]) || IsMark(ts[i])
    ensures Significant(ts) == ts
    decreases |ts|
  {
    if ts != [] {
      NoComments(ts[1..]);
      assert IsWord(ts[0]) || IsMark(ts[0]);
    }
  }

  // Whatever the blanks and comments between the tokens, what is written is read.
  lemma ItemsRoundTrip(items: seq<Item>, gaps: seq<Data>)
    requires WellFormed(items, true) && Separates(Flat(items), gaps)
    ensures ConfOf(Render(Flat(items), gaps)) == Ok(TreeOf(items))
  {
    hide Flat, WellFormed, TreeOf, Tokens, Render, Significant, Conf;
    FlatIsWritten(items, true);
    RenderIsRead(Flat(items), gaps);
    var ts := Tokens(FRESH, Render(Flat(items), gaps));
    TokensAreTokens(FRESH, Render(Flat(items), gaps));
    GrammarExact(ts, items);
  }

  // ---- printing a tree

  // A tree of words and non-empty blocks; height bounds how deep it nests.
  ghost predicate Printable(t: Nodes, height: nat)
    decreases height, 1
  {
    && height > 0
    && (forall k :: k in t ==> IsWord(k) && t[k] != [])
    && (forall k, i :: k in t && 0 <= i < |t[k]| ==> PrintableNode(t[k][i], height - 1))
  }

  ghost predicate PrintableNode(n: Node, height: nat)
    decreases height, 2
  {
    Words(n.args) && (n.nodes.Some? ==> n.nodes.value != map[] && Printable(n.nodes.value, height))
  }

  // Keys in the order of std::map, the nodes of a key in their order.
  ghost function ItemsOf(t: Nodes, height: nat): seq<Item>
    requires Printable(t, height)
    decreases height, 4
  {
    KeyItems(InOrder(t.Keys), t, height)
  }

  ghost function KeyItems(keys: seq<Data>, t: Nodes, height: nat): seq<Item>
    requires Printable(t, height) && forall k :: k in keys ==> k in t
    decreases height, 3, |keys|
  {
    if keys == [] then []
    else
      var n := |keys| - 1;
      KeyItems(keys[..n], t, height) + NodeItems(keys[n], t[keys[n]], height - 1)
  }

  ghost function NodeItems(key: Data, ns: seq<Node>, height: nat): seq<Item>
    requires forall i :: 0 <= i < |ns| ==> PrintableNode(ns[i], height)
    decreases height, 6, |ns|
  {
    if ns == [] then []
    else
      var n := |ns| - 1;
      NodeItems(key, ns[..n], height) + [ItemOf(key, ns[n], height)]
  }

  ghost function ItemOf(key: Data, n: Node, height: nat): Item
    requires PrintableNode(n, height)
    decreases height, 5
  {
    if n.nodes.None? then Operator([key] + n.args)
    else Block([key] + n.args, ItemsOf(n.nodes.value, height), Brace([]))
  }

  // What printing makes of a tree is well-formed and stands for the tree.
  ghost predicate Prints(items: seq<Item>, t: Nodes) {
    WellFormed(items, false) && TreeOf(items) == t
  }

  lemma {:induction false} TreePrints(t: Nodes, height: nat)
    requires Printable(t, height)
    ensures Prints(ItemsOf(t, height), t)
    decreases height, 4
  {
    var keys := InOrder(t.Keys);
    assert forall i, j :: 0 <= i < j < |keys| ==> keys[i] != keys[j] by {
      forall i, j | 0 <= i < j < |keys| ensures keys[i] != keys[j] {
        LessIsIrreflexive(keys[i]);
      }
    }
    KeysPrint(keys, t, height);
    assert (map k | k in keys :: t[k]) == t;
  }

  lemma {:induction false} KeysPrint(keys: seq<Data>, t: Nodes, height: nat)
    requires Printable(t, height) && forall k :: k in keys ==> k in t
    requires forall i, j :: 0 <= i < j < |keys| ==> keys[i] != keys[j]
    ensures Prints(KeyItems(keys, t, height), map k | k in keys :: t[k])
    decreases height, 3, |keys|
  {
    hide TreeOf, WellFormed, PrintableNode, NodeItems;
    if keys == [] {
      NothingPrints();
    } else {
      var n := |keys| - 1;
      var k := keys[n];
      KeysPrint(keys[..n], t, height);
      var before := map x | x in keys[..n] :: t[x];
      NodesPrint(KeyItems(keys[..n], t, height), before, k, t[k], height - 1);
      assert k !in keys[..n];
      assert [] + t[k] == t[k];
      assert forall x :: x in keys <==> x in keys[..n] || x == k;
      assert before[k := t[k]] == map x | x in keys :: t[x];
    }
  }

  lemma NothingPrints()
    ensures Prints([], map[])
  {
  }

  function WithNodes(t: Nodes, key: Data, ns: seq<Node>): Nodes {
    if ns == [] then t else t[key := (if key in t then t[key] else []) + ns]
  }

  lemma WithNodesStep(t: Nodes, key: Data, ns: seq<Node>)
    requires ns != []
    ensures WithNodes(t, key, ns) == AddNode(WithNodes(t, key, ns[..|ns| - 1]), key, ns[|ns| - 1])
  {
    var n := |ns| - 1;
    var prior := if key in t then t[key] else [];
    assert prior + ns[..n] + [ns[n]] == prior + ns;
    if n == 0 {
      assert ns[..n] == [] && [ns[n]] == ns;
    }
  }

  lemma OneMorePrints(items: seq<Item>, t: Nodes, item: Item)
    requires Prints(items, t) && ItemOk(item, false) && item.words != []
    ensures Prints(items + [item], AddNode(t, item.words[0], NodeOf(item)))
  {
    hide TreeOf, NodeOf, WellFormed, ItemOk, AddNode;
    FlatAdd(items, item, false);
    TreeStep(items, item);
  }

  lemma {:induction false} NodesPrint(items: seq<Item>, t: Nodes, key: Data, ns: seq<Node>, height: nat)
    requires Prints(items, t) && IsWord(key) && forall i :: 0 <= i < |ns| ==> PrintableNode(ns[i], height)
    ensures Prints(items + NodeItems(key, ns, height), WithNodes(t, key, ns))
    decreases height, 6, |ns|
  {
    hide Prints, NodeOf, ItemOk, PrintableNode, ItemOf, AddNode;
    if ns == [] {
      assert items + [] == items;
    } else {
      var n := |ns| - 1;
      NodesPrint(items, t, key, ns[..n], height);
      NodePrints(key, ns[n], height);
      var before := items + NodeItems(key, ns[..n], height);
      var item := ItemOf(key, ns[n], height);
      OneMorePrints(before, WithNodes(t, key, ns[..n]), item);
      WithNodesStep(t, key, ns);
      assert before + [item] == items + NodeItems(key, ns, height);
    }
  }

  lemma {:induction false} NodePrints(key: Data, n: Node, height: nat)
    requires IsWord(key) && PrintableNode(n, height)
    ensures var item := ItemOf(key, n, height);
            ItemOk(item, false) && NodeOf(item) == n && item.words != [] && item.words[0] == key
    decreases height, 5
  {
    hide Printable, ItemsOf, WellFormed, TreeOf;
    var words := [key] + n.args;
    assert words[1..] == n.args;
    if n.nodes.Some? {
      TreePrints(n.nodes.value, height);
      TreeEmpty(ItemsOf(n.nodes.value, height));
    }
    NodeIs(ItemOf(key, n, height));
  }

  // parse(tokenize(print(t))) is t, for every tree of words and non-empty blocks and every layout of the print.
  lemma RoundTrip(t: Nodes, height: nat, gaps: seq<Data>)
    requires Printable(t, height) && Separates(Flat(ItemsOf(t, height)), gaps)
    ensures ConfOf(Render(Flat(ItemsOf(t, height)), gaps)) == Ok(t)
  {
    hide WellFormed, TreeOf, Printable, ItemsOf, Flat, ConfOf, Render;
    var items := ItemsOf(t, height);
    TreePrints(t, height);
    LastMayBeClosed(items);
    ItemsRoundTrip(items, gaps);
  }

  // ---- the trees that are printable are the trees that are parsed

  lemma {:induction false} HigherPrints(t: Nodes, h: nat, height: nat)
    requires Printable(t, h) && h <= height
    ensures Printable(t, height)
    decreases h, 1
  {
    forall k, i | k in t && 0 <= i < |t[k]| ensures PrintableNode(t[k][i], height - 1) {
      HigherNodePrints(t[k][i], h - 1, height - 1);
    }
  }

  lemma {:induction false} HigherNodePrints(n: Node, h: nat, height: nat)
    requires PrintableNode(n, h) && h <= height
    ensures PrintableNode(n, height)
    decreases h, 2
  {
    hide Printable, Words;
    if n.nodes.Some? {
      HigherPrints(n.nodes.value, h, height);
    }
  }

  lemma AddPrintable(t: Nodes, key: Data, n: Node, height: nat)
    requires height > 0 && Printable(t, height) && IsWord(key) && PrintableNode(n, height - 1)
    ensures Printable(AddNode(t, key, n), height)
  {
    hide PrintableNode;
  }

  lemma {:induction false} TreeIsPrintable(items: seq<Item>, last: bool) returns (height: nat)
    requires WellFormed(items, last)
    ensures Printable(TreeOf(items), height)
    decreases items
  {
    hide Printable, PrintableNode, ItemOk, NodeOf;
    if items == [] {
      height := 1;
      EmptyIsPrintable();
    } else {
      var n := |items| - 1;
      var h := TreeIsPrintable(items[..n], false);
      var g := NodeIsPrintable(items[n], last);
      height := if h > g + 1 then h else g + 1;
      HigherPrints(TreeOf(items[..n]), h, height);
      HigherNodePrints(NodeOf(items[n]), g, height - 1);
      AddPrintable(TreeOf(items[..n]), items[n].words[0], NodeOf(items[n]), height);
    }
  }

  lemma EmptyIsPrintable()
    ensures Printable(map[], 1)
  {
  }

  lemma {:induction false} NodeIsPrintable(item: Item, last: bool) returns (height: nat)
    requires ItemOk(item, last)
    ensures item.words != [] && IsWord(item.words[0]) && PrintableNode(NodeOf(item), height)
    decreases item
  {
    hide Printable, WellFormed, TreeOf;
    height := 0;
    if item.Block? {
      height := TreeIsPrintable(item.body, item.close.EndOfInput?);
      TreeEmpty(item.body);
    }
    NodeIs(item);
  }

  // Printing what was parsed and parsing it again changes nothing.
  lemma PrintedAgain(s: Data) returns (height: nat)
    requires ConfOf(s).Ok?
    ensures Printable(ConfOf(s).value, height)
    ensures forall gaps :: Separates(Flat(ItemsOf(ConfOf(s).value, height)), gaps) ==>
              ConfOf(Render(Flat(ItemsOf(ConfOf(s).value, height)), gaps)) == ConfOf(s)
  {
    hide WellFormed, TreeOf, Printable, ItemsOf, Flat, Render, Tokens, Conf;
    TokensAreTokens(FRESH, s);
    var items := Conf(Tokens(FRESH, s)).value;
    GrammarExact(Tokens(FRESH, s), items);
    height := TreeIsPrintable(items, true);
    var t := ConfOf(s).value;
    forall gaps | Separates(Flat(ItemsOf(t, height)), gaps)
      ensures ConfOf(Render(Flat(ItemsOf(t, height)), gaps)) == ConfOf(s)
    {
      RoundTrip(t, height, gaps);
    }
  }

  // Blanks and comments at a token boundary of any text, right or wrong, change neither tree nor error.
  lemma SameConf(a: Data, gap: Data, b: Data)
    requires IsLayout(gap) && AtBoundary(After(FRESH, a), b)
    ensures ConfOf(a + gap + b) == ConfOf(a + b)
  {
    hide After, Tokens, Run, Finish, AtBoundary, IsLayout, TreeOf, Significant;
    LayoutInsensitive(a, gap, b);
    CommentsSkipped(Open([NEW]), Tokens(FRESH, a + gap + b));
    CommentsSkipped(Open([NEW]), Tokens(FRESH, a + b));
  }
}

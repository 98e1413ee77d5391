/** What a configuration says, block by block, in terms of the parsed tree and of the text it was written as;
    src/config-parser/Config.cpp reads exactly this. */
module ConfigMeaning {
  import opened Bytes
  import S = ServConf
  import C = Config
  import R = Routing
  import T = ConfRoundTrip

  type Node = S.Node

  // ---- one key of a block

  predicate Has(node: Node, key: Data, ns: seq<Node>) {
    node.nodes.Some? && key in node.nodes.value && node.nodes.value[key] == ns
  }

  predicate Absent(node: Node, key: Data) {
    node.nodes.Some? ==> key !in node.nodes.value
  }

  // One node of that key, an operator with these arguments.
  predicate OneOp(node: Node, key: Data, args: seq<Data>) {
    Has(node, key, [S.Node(args, None)])
  }

  predicate Single(node: Node, key: Data, default: Data, val: Data) {
    OneOp(node, key, [val]) || (Absent(node, key) && val == default)
  }

  predicate Listed(node: Node, key: Data, args: seq<Data>) {
    OneOp(node, key, args) || (Absent(node, key) && args == [])
  }

  ghost predicate ListFault(node: Node, key: Data, cause: Data) {
    || (exists ns :: Has(node, key, ns) && |ns| != 1 && cause == "several blocks " + key)
    || (exists n: Node :: Has(node, key, [n]) && n.nodes.Some? && cause == key + " must be an operator")
  }

  ghost predicate SingleFault(node: Node, key: Data, cause: Data) {
    || ListFault(node, key, cause)
    || (exists args :: OneOp(node, key, args) && |args| != 1 && cause == key + " has more than one arg")
  }

  lemma OneOperatorExact(node: Node, key: Data, args: seq<Data>, cause: Data)
    ensures C.OneOperator(key, node) == C.Ok(Some(args)) <==> OneOp(node, key, args)
    ensures C.OneOperator(key, node) == C.Ok(None) <==> Absent(node, key)
    ensures C.OneOperator(key, node) == C.Err(cause) <==> ListFault(node, key, cause)
  {
    if !Absent(node, key) {
      var ns := node.nodes.value[key];
      assert Has(node, key, ns);
      assert |ns| == 1 ==> ns == [ns[0]];
      assert |ns| == 1 && ns[0].nodes.None? ==> ns[0] == S.Node(ns[0].args, None);
    }
  }

  lemma SingleExact(node: Node, key: Data, default: Data, val: Data, cause: Data)
    ensures C.SingleVal(key, node, default) == C.Ok(val) <==> Single(node, key, default, val)
    ensures C.SingleVal(key, node, default) == C.Err(cause) <==> SingleFault(node, key, cause)
  {
    hide C.OneOperator, ListFault, Absent, OneOp;
    var r := C.OneOperator(key, node);
    var args := if r.Ok? && r.value.Some? then r.value.value else [val];
    OneOperatorExact(node, key, args, cause);
    OneOperatorExact(node, key, [val], cause);
    assert |args| == 1 ==> args == [args[0]];
    forall a | OneOp(node, key, a) ensures r == C.Ok(Some(a)) {
      OneOperatorExact(node, key, a, cause);
    }
  }

  lemma ListedExact(node: Node, key: Data, args: seq<Data>, cause: Data)
    ensures C.OperatorArgs(key, node) == C.Ok(args) <==> Listed(node, key, args)
    ensures C.OperatorArgs(key, node) == C.Err(cause) <==> ListFault(node, key, cause)
  {
    hide C.OneOperator, ListFault, Absent, OneOp;
    OneOperatorExact(node, key, args, cause);
  }

  // ---- a location block

  ghost predicate SaysLocation(node: Node, path: Data, l: R.Location) {
    && node.nodes.Some? && node.args == [path]
    && Single(node, "root", "", l.root)
    && Single(node, "proxy_pass", "", l.proxyPass)
    && Single(node, "cgi", "", l.cgiPath)
    && exists verbs :: Listed(node, "accepted_method", verbs) && forall v :: v in l.acceptedMethods <==> v in verbs
  }

  ghost predicate Readable(node: Node, key: Data) {
    exists val :: Single(node, key, "", val)
  }

  // The first of the faults, in this order.
  ghost predicate LocationFault(node: Node, cause: Data) {
    if node.nodes.None? then cause == "location is not operator"
    else if |node.args| != 1 then cause == "location arg count error"
    else if !Readable(node, "root") then SingleFault(node, "root", cause)
    else if !Readable(node, "proxy_pass") then SingleFault(node, "proxy_pass", cause)
    else if !Readable(node, "cgi") then SingleFault(node, "cgi", cause)
    else ListFault(node, "accepted_method", cause)
  }

  lemma ReadableExact(node: Node, key: Data)
    ensures C.SingleVal(key, node, "").Ok? <==> Readable(node, key)
  {
    hide C.SingleVal, Single, SingleFault;
    var r := C.SingleVal(key, node, "");
    if r.Ok? {
      SingleExact(node, key, "", r.value, "");
    }
    if val :| Single(node, key, "", val) {
      SingleExact(node, key, "", val, "");
    }
  }

  lemma LocationExact(node: Node, path: Data, l: R.Location)
    ensures C.LocationOf(node) == C.Ok(C.Entry(path, l)) <==> SaysLocation(node, path, l)
  {
    hide C.SingleVal, C.OperatorArgs, Single, Listed, SingleFault, ListFault;
    SingleExact(node, "root", "", l.root, "");
    SingleExact(node, "proxy_pass", "", l.proxyPass, "");
    SingleExact(node, "cgi", "", l.cgiPath, "");
    var r := C.OperatorArgs("accepted_method", node);
    if r.Ok? {
      ListedExact(node, "accepted_method", r.value, "");
    }
    if SaysLocation(node, path, l) {
      var verbs :| Listed(node, "accepted_method", verbs) && forall v :: v in l.acceptedMethods <==> v in verbs;
      ListedExact(node, "accepted_method", verbs, "");
      assert l.acceptedMethods == set v | v in verbs;
    }
  }

  lemma LocationErrorExact(node: Node, cause: Data)
    ensures C.LocationOf(node) == C.Err(cause) <==> LocationFault(node, cause)
  {
    hide C.SingleVal, C.OperatorArgs, SingleFault, ListFault, Readable;
    ReadableExact(node, "root");
    ReadableExact(node, "proxy_pass");
    ReadableExact(node, "cgi");
    SingleExact(node, "root", "", "", cause);
    SingleExact(node, "proxy_pass", "", "", cause);
    SingleExact(node, "cgi", "", "", cause);
    ListedExact(node, "accepted_method", [], cause);
  }

  // ---- the location blocks of a server

  ghost predicate IsLocation(node: Node) {
    exists path, l :: SaysLocation(node, path, l)
  }

  lemma IsLocationExact(node: Node)
    ensures C.LocationOf(node).Ok? <==> IsLocation(node)
    ensures C.LocationOf(node).Ok? ==> node.args == [C.LocationOf(node).value.path]
  {
    hide C.LocationOf;
    var r := C.LocationOf(node);
    if r.Ok? {
      LocationExact(node, r.value.path, r.value.location);
    }
    if path, l :| SaysLocation(node, path, l) {
      LocationExact(node, path, l);
    }
  }

  // The last block for its path.
  ghost predicate SaysLast(ns: seq<Node>, j: nat, entry: C.Entry) {
    && j < |ns| && SaysLocation(ns[j], entry.path, entry.location)
    && forall k :: j < k < |ns| ==> ns[k].args != [entry.path]
  }

  lemma WrittenExact(ns: seq<Node>, entry: C.Entry)
    requires C.LocationsIn(ns).Ok?
    ensures var m := C.LocationsIn(ns).value;
            (exists j: nat :: SaysLast(ns, j, entry)) <==> entry.path in m && m[entry.path] == entry.location
  {
    hide C.LocationOf, C.LocationsIn, SaysLocation, IsLocation;
    var m := C.LocationsIn(ns).value;
    C.LastLocationWins(ns, entry.path);
    forall k | 0 <= k < |ns| ensures ns[k].args == [C.LocationOf(ns[k]).value.path] {
      IsLocationExact(ns[k]);
    }
    if entry.path in m {
      var i :| 0 <= i < |ns| && C.LocationOf(ns[i]).value == C.Entry(entry.path, m[entry.path])
               && forall j :: i < j < |ns| ==> C.LocationOf(ns[j]).value.path != entry.path;
      LocationExact(ns[i], entry.path, m[entry.path]);
      assert SaysLast(ns, i, C.Entry(entry.path, m[entry.path]));
      if j: nat :| SaysLast(ns, j, entry) {
        LocationExact(ns[j], entry.path, entry.location);
        assert i == j;
      }
    }
    if j: nat :| SaysLast(ns, j, entry) {
      LocationExact(ns[j], entry.path, entry.location);
    }
  }

  ghost predicate SaysLocations(node: Node, m: map<Data, R.Location>) {
    exists ns :: && Has(node, "location", ns) && (forall i :: 0 <= i < |ns| ==> IsLocation(ns[i]))
                 && forall e: C.Entry ::
                      (e.path in m && m[e.path] == e.location) <==> exists j: nat :: SaysLast(ns, j, e)
  }

  // No location block at all, or the first block that is not one.
  ghost predicate LocationsFault(node: Node, cause: Data) {
    || (Absent(node, "location") && cause == "no location in server block")
    || exists ns, i :: Has(node, "location", ns) && 0 <= i < |ns| && LocationFault(ns[i], cause)
                       && forall j :: 0 <= j < i ==> IsLocation(ns[j])
  }

  lemma AllAreLocations(ns: seq<Node>)
    ensures C.LocationsIn(ns).Ok? <==> forall i :: 0 <= i < |ns| ==> IsLocation(ns[i])
  {
    hide C.LocationOf, C.LocationsIn, IsLocation;
    C.LocationsExact(ns);
    forall i | 0 <= i < |ns| ensures C.LocationOf(ns[i]).Ok? <==> IsLocation(ns[i]) {
      IsLocationExact(ns[i]);
    }
  }

  lemma LocationsExact(node: Node, m: map<Data, R.Location>)
    ensures C.LocationsOf(node) == C.Ok(m) <==> SaysLocations(node, m)
  {
    hide C.LocationsIn, IsLocation, SaysLast;
    if !Absent(node, "location") {
      var ns := node.nodes.value["location"];
      AllAreLocations(ns);
      if C.LocationsIn(ns).Ok? {
        var read := C.LocationsIn(ns).value;
        forall e: C.Entry
          ensures (exists j: nat :: SaysLast(ns, j, e)) <==> e.path in read && read[e.path] == e.location
        {
          WrittenExact(ns, e);
        }
        if SaysLocations(node, m) {
          SameMap(m, read);
        }
      }
    }
  }

  lemma SameMap(m: map<Data, R.Location>, read: map<Data, R.Location>)
    requires forall e: C.Entry :: (e.path in m && m[e.path] == e.location)
                                  <==> e.path in read && read[e.path] == e.location
    ensures m == read
  {
    forall p ensures p in m <==> p in read {
      if p in m {
        var e := C.Entry(p, m[p]);
        assert e.path in read;
      }
      if p in read {
        var e := C.Entry(p, read[p]);
        assert e.path in m;
      }
    }
    forall p | p in m ensures m[p] == read[p] {
      var e := C.Entry(p, m[p]);
      assert e.path in read && read[e.path] == e.location;
    }
  }

  lemma LocationsErrorExact(node: Node, cause: Data)
    ensures C.LocationsOf(node) == C.Err(cause) <==> LocationsFault(node, cause)
  {
    hide C.LocationsIn, C.LocationOf, IsLocation, LocationFault;
    if !Absent(node, "location") {
      var ns := node.nodes.value["location"];
      assert Has(node, "location", ns);
      forall i | 0 <= i < |ns| ensures C.LocationOf(ns[i]).Ok? <==> IsLocation(ns[i]) {
        IsLocationExact(ns[i]);
      }
      forall i | 0 <= i < |ns| ensures C.LocationOf(ns[i]) == C.Err(cause) <==> LocationFault(ns[i], cause) {
        LocationErrorExact(ns[i], cause);
      }
      C.LocationsExact(ns);
    }
  }

  // ---- a server block

  ghost predicate SaysServer(node: Node, s: R.Server) {
    && Single(node, "listen", "80", s.listen)
    && Listed(node, "server_name", s.serverName)
    && SaysLocations(node, s.locations)
  }

  ghost predicate ServerFault(node: Node, cause: Data) {
    if !Readable(node, "listen") then SingleFault(node, "listen", cause)
    else if !exists names :: Listed(node, "server_name", names) then ListFault(node, "server_name", cause)
    else LocationsFault(node, cause)
  }

  lemma ServerExact(node: Node, s: R.Server)
    ensures C.ServerOf(node) == C.Ok(s) <==> SaysServer(node, s)
  {
    hide C.SingleVal, C.OperatorArgs, C.LocationsOf, Single, Listed, SaysLocations;
    SingleExact(node, "listen", "80", s.listen, "");
    ListedExact(node, "server_name", s.serverName, "");
    LocationsExact(node, s.locations);
  }

  lemma ServerErrorExact(node: Node, cause: Data)
    ensures C.ServerOf(node) == C.Err(cause) <==> ServerFault(node, cause)
  {
    hide C.OperatorArgs, C.LocationsOf, C.SingleVal, Listed, Single, SingleFault, ListFault, LocationsFault;
    ReadableExact(node, "listen");
    ListenReads(node, cause);
    var r := C.OperatorArgs("server_name", node);
    ListedExact(node, "server_name", if r.Ok? then r.value else [], cause);
    if names :| Listed(node, "server_name", names) {
      ListedExact(node, "server_name", names, cause);
    }
    LocationsErrorExact(node, cause);
  }

  // The default makes no difference to the fault.
  lemma ListenReads(node: Node, cause: Data)
    ensures C.SingleVal("listen", node, "80").Ok? <==> C.SingleVal("listen", node, "").Ok?
    ensures C.SingleVal("listen", node, "80") == C.Err(cause) <==> SingleFault(node, "listen", cause)
  {
    hide C.OneOperator, SingleFault;
    SingleExact(node, "listen", "80", "", cause);
  }

  // ---- all server blocks, http block by http block

  // The k-th server block of the h-th http block.
  ghost predicate BlockAt(nodes: S.Nodes, h: nat, k: nat, block: Node) {
    && "http" in nodes && h < |nodes["http"]|
    && exists ns :: Has(nodes["http"][h], "server", ns) && k < |ns| && ns[k] == block
  }

  ghost predicate Earlier(h: nat, k: nat, h': nat, k': nat) {
    h < h' || (h == h' && k < k')
  }

  ghost predicate NoneBefore(nodes: S.Nodes, good: Node -> bool, h: nat, k: nat) {
    forall i: nat, j: nat, b :: Earlier(i, j, h, k) && BlockAt(nodes, i, j, b) ==> !good(b)
  }

  // The first block in the order of the text of which `good` holds.
  ghost predicate IsFirstBlock(nodes: S.Nodes, good: Node -> bool, block: Node) {
    exists h: nat, k: nat :: BlockAt(nodes, h, k, block) && good(block) && NoneBefore(nodes, good, h, k)
  }

  function Blocks(nodes: S.Nodes): seq<Node> {
    match C.ByKey(nodes, "http")
    case None => []
    case Some(https) => C.ServerBlocks(https)
  }

  function IndexOf(nodes: S.Nodes, h: nat, k: nat): nat
    requires "http" in nodes && h <= |nodes["http"]|
  {
    |C.ServerBlocks(nodes["http"][..h])| + k
  }

  lemma BlockHasIndex(nodes: S.Nodes, h: nat, k: nat, block: Node)
    requires BlockAt(nodes, h, k, block)
    ensures "http" in nodes && h < |nodes["http"]|
    ensures IndexOf(nodes, h, k) < IndexOf(nodes, h + 1, 0) <= |Blocks(nodes)|
    ensures Blocks(nodes)[IndexOf(nodes, h, k)] == block
  {
    var https := nodes["http"];
    var ns :| Has(https[h], "server", ns) && k < |ns| && ns[k] == block;
    assert https[..h + 1][..h] == https[..h];
    var before := C.ServerBlocks(https[..h]);
    assert C.ServerBlocks(https[..h + 1]) == before + ns;
    C.BlocksGrow(https, h + 1);
    assert (before + ns)[|before| + k] == ns[k];
  }

  lemma EarlierHasLess(nodes: S.Nodes, h: nat, k: nat, block: Node, h': nat, k': nat, block': Node)
    requires BlockAt(nodes, h, k, block) && BlockAt(nodes, h', k', block')
    ensures IndexOf(nodes, h, k) < IndexOf(nodes, h', k') <==> Earlier(h, k, h', k')
  {
    hide Blocks, C.ServerBlocks;
    BlockHasIndex(nodes, h, k, block);
    BlockHasIndex(nodes, h', k', block');
    var https := nodes["http"];
    if h < h' {
      assert https[..h'][..h + 1] == https[..h + 1];
      C.BlocksGrow(https[..h'], h + 1);
    } else if h' < h {
      assert https[..h][..h' + 1] == https[..h' + 1];
      C.BlocksGrow(https[..h], h' + 1);
    }
  }

  lemma {:induction false} IndexHasBlock(https: seq<Node>, i: nat) returns (h: nat, k: nat, ns: seq<Node>)
    requires i < |C.ServerBlocks(https)|
    ensures h < |https| && Has(https[h], "server", ns) && k < |ns| && i == |C.ServerBlocks(https[..h])| + k
    decreases |https|
  {
    var n := |https| - 1;
    if i < |C.ServerBlocks(https[..n])| {
      h, k, ns := IndexHasBlock(https[..n], i);
      assert https[..n][..h] == https[..h];
    } else {
      h, k, ns := n, i - |C.ServerBlocks(https[..n])|, https[n].nodes.value["server"];
    }
  }

  lemma BlockOfIndex(nodes: S.Nodes, i: nat) returns (h: nat, k: nat)
    requires i < |Blocks(nodes)|
    ensures BlockAt(nodes, h, k, Blocks(nodes)[i]) && i == IndexOf(nodes, h, k)
  {
    hide C.ServerBlocks;
    var ns: seq<Node>;
    h, k, ns := IndexHasBlock(nodes["http"], i);
    assert BlockAt(nodes, h, k, ns[k]);
    BlockHasIndex(nodes, h, k, ns[k]);
  }

  lemma FirstHasIndex(nodes: S.Nodes, good: Node -> bool, block: Node) returns (i: nat)
    requires IsFirstBlock(nodes, good, block)
    ensures i < |Blocks(nodes)| && Blocks(nodes)[i] == block && good(block)
    ensures forall j :: 0 <= j < i ==> !good(Blocks(nodes)[j])
  {
    hide BlockAt, Blocks, IndexOf, Earlier;
    var h: nat, k: nat :| BlockAt(nodes, h, k, block) && good(block) && NoneBefore(nodes, good, h, k);
    BlockHasIndex(nodes, h, k, block);
    i := IndexOf(nodes, h, k);
    forall j: nat | j < i ensures !good(Blocks(nodes)[j]) {
      var h', k' := BlockOfIndex(nodes, j);
      EarlierHasLess(nodes, h', k', Blocks(nodes)[j], h, k, block);
    }
  }

  lemma IndexIsFirst(nodes: S.Nodes, good: Node -> bool, i: nat)
    requires i < |Blocks(nodes)| && good(Blocks(nodes)[i])
    requires forall j :: 0 <= j < i ==> !good(Blocks(nodes)[j])
    ensures IsFirstBlock(nodes, good, Blocks(nodes)[i])
  {
    hide BlockAt, Blocks, IndexOf, Earlier;
    var block := Blocks(nodes)[i];
    var h, k := BlockOfIndex(nodes, i);
    forall h': nat, k': nat, b | Earlier(h', k', h, k) && BlockAt(nodes, h', k', b) ensures !good(b) {
      BlockHasIndex(nodes, h', k', b);
      EarlierHasLess(nodes, h', k', b, h, k, block);
    }
  }

  // ---- the whole configuration

  ghost predicate IsServer(block: Node) {
    exists s :: SaysServer(block, s)
  }

  ghost function NotAServer(): Node -> bool {
    block => !IsServer(block)
  }

  lemma IsServerExact(block: Node)
    ensures C.ServerOf(block).Ok? <==> IsServer(block)
  {
    hide C.ServerOf, SaysServer;
    var r := C.ServerOf(block);
    if r.Ok? {
      ServerExact(block, r.value);
    }
    if s :| SaysServer(block, s) {
      ServerExact(block, s);
    }
  }

  lemma FirstFault(nodes: S.Nodes, cause: Data)
    ensures C.ServersIn(Blocks(nodes)) == C.Err(cause) <==>
              exists block :: IsFirstBlock(nodes, NotAServer(), block) && ServerFault(block, cause)
  {
    hide C.ServerOf, C.ServersIn, Blocks, IsServer, ServerFault, IsFirstBlock;
    var blocks, bad := Blocks(nodes), NotAServer();
    C.ServersExact(blocks);
    forall i | 0 <= i < |blocks| ensures C.ServerOf(blocks[i]).Ok? <==> !bad(blocks[i]) {
      IsServerExact(blocks[i]);
    }
    if C.ServersIn(blocks) == C.Err(cause) {
      var i :| 0 <= i < |blocks| && C.ServerOf(blocks[i]) == C.Err(cause)
               && forall j :: 0 <= j < i ==> C.ServerOf(blocks[j]).Ok?;
      ServerErrorExact(blocks[i], cause);
      IndexIsFirst(nodes, bad, i);
    }
    if block :| IsFirstBlock(nodes, bad, block) && ServerFault(block, cause) {
      var i := FirstHasIndex(nodes, bad, block);
      ServerErrorExact(block, cause);
      C.ServersExact(blocks[..i]);
      assert forall j :: 0 <= j < i ==> blocks[..i][j] == blocks[j];
      C.ServersFail(blocks, i);
    }
  }

  // There is no http block, or no server block, or one that is not a server: then the first such is reported.
  lemma ConfigErrorExact(nodes: S.Nodes, r: C.Res<C.Table>, cause: Data)
    requires C.IsConfig(nodes, r)
    ensures r == C.Err(cause) <==>
              || ("http" !in nodes && cause == "no http block")
              || (exists block :: IsFirstBlock(nodes, NotAServer(), block) && ServerFault(block, cause))
              || ("http" in nodes && cause == "no server block in http block"
                  && forall h: nat, k: nat, b :: !BlockAt(nodes, h, k, b))
  {
    hide C.ServersIn, C.ServerBlocks, ServerFault, C.IsTable, BlockAt, IsFirstBlock, NotAServer;
    FirstFault(nodes, cause);
    NoBlocks(nodes);
    NoServers(Blocks(nodes));
  }

  lemma NoServers(blocks: seq<Node>)
    ensures C.ServersIn(blocks) == C.Ok([]) <==> blocks == []
  {
    C.ServersExact(blocks);
  }

  lemma NoBlocks(nodes: S.Nodes)
    ensures Blocks(nodes) == [] <==> forall h: nat, k: nat, b :: !BlockAt(nodes, h, k, b)
  {
    hide Blocks, BlockAt;
    if Blocks(nodes) != [] {
      var h, k := BlockOfIndex(nodes, 0);
    }
    if h: nat, k: nat, b :| BlockAt(nodes, h, k, b) {
      BlockHasIndex(nodes, h, k, b);
    }
  }

  // ---- a block as it is written

  predicate Starts(item: S.Item, key: Data) {
    item.words != [] && item.words[0] == key
  }

  predicate Without(body: seq<S.Item>, key: Data) {
    forall i :: 0 <= i < |body| ==> !Starts(body[i], key)
  }

  // The one item that starts with the key is this one.
  predicate Only(body: seq<S.Item>, key: Data, item: S.Item) {
    exists i :: 0 <= i < |body| && body[i] == item && Starts(body[i], key)
                && Without(body[..i], key) && Without(body[i + 1..], key)
  }

  lemma {:induction false} NoneNamed(items: seq<S.Item>, key: Data)
    ensures T.Named(items, key) == [] <==> Without(items, key)
    decreases |items|
  {
    if items != [] {
      NoneNamed(items[..|items| - 1], key);
    }
  }

  lemma {:induction false} NamedJoin(a: seq<S.Item>, b: seq<S.Item>, key: Data)
    ensures T.Named(a + b, key) == T.Named(a, key) + T.Named(b, key)
    decreases |b|
  {
    hide S.NodeOf;
    if b == [] {
      assert a + b == a;
    } else {
      var m := |b| - 1;
      assert (a + b)[..|a + b| - 1] == a + b[..m];
      NamedJoin(a, b[..m], key);
    }
  }

  // The nodes of a key around an item that starts with it.
  lemma NamedAround(body: seq<S.Item>, key: Data, i: nat)
    requires i < |body| && Starts(body[i], key)
    ensures T.Named(body, key) == T.Named(body[..i], key) + [S.NodeOf(body[i])] + T.Named(body[i + 1..], key)
  {
    assert body == body[..i + 1] + body[i + 1..] && body[..i + 1][..i] == body[..i];
    NamedJoin(body[..i + 1], body[i + 1..], key);
  }

  lemma NodeOfOperator(item: S.Item, key: Data, args: seq<Data>)
    requires Starts(item, key)
    ensures S.NodeOf(item) == S.Node(args, None) <==> item == S.Operator([key] + args)
  {
    assert item.words == [key] + item.words[1..];
  }

  lemma NamedIsOne(body: seq<S.Item>, key: Data, args: seq<Data>)
    ensures T.Named(body, key) == [S.Node(args, None)] <==> Only(body, key, S.Operator([key] + args))
  {
    hide T.Named, S.NodeOf, Starts, Without;
    var node, item := S.Node(args, None), S.Operator([key] + args);
    if T.Named(body, key) == [node] {
      NoneNamed(body, key);
      SomeStarts(body, key);
      var i :| 0 <= i < |body| && Starts(body[i], key);
      OneAround(body, key, i, node);
      NodeOfOperator(body[i], key, args);
    }
    if Only(body, key, item) {
      var i :| 0 <= i < |body| && body[i] == item && Starts(body[i], key)
               && Without(body[..i], key) && Without(body[i + 1..], key);
      OneAround(body, key, i, node);
      NodeOfOperator(body[i], key, args);
    }
  }

  lemma OneAround(body: seq<S.Item>, key: Data, i: nat, node: Node)
    requires i < |body| && Starts(body[i], key)
    ensures T.Named(body, key) == [node] <==>
              S.NodeOf(body[i]) == node && Without(body[..i], key) && Without(body[i + 1..], key)
  {
    hide T.Named, S.NodeOf, Starts, Without;
    NamedAround(body, key, i);
    NoneNamed(body[..i], key);
    NoneNamed(body[i + 1..], key);
    var all := T.Named(body, key);
    var before := |T.Named(body[..i], key)|;
    assert all[before] == S.NodeOf(body[i]);
    assert |all| == before + 1 + |T.Named(body[i + 1..], key)|;
  }

  lemma SomeStarts(body: seq<S.Item>, key: Data)
    ensures Without(body, key) <==> !exists i :: 0 <= i < |body| && Starts(body[i], key)
  {
  }

  // What the tree of a block has of a key is what is written in the block, and nothing else.
  lemma OperatorsWritten(block: S.Item, key: Data, args: seq<Data>)
    requires block.Block? && forall i :: 0 <= i < |block.body| ==> block.body[i].words != []
    ensures Absent(S.NodeOf(block), key) <==> Without(block.body, key)
    ensures OneOp(S.NodeOf(block), key, args) <==> Only(block.body, key, S.Operator([key] + args))
  {
    hide S.TreeOf, T.Named, Without, Only;
    T.SourceOrder(block.body, key);
    NoneNamed(block.body, key);
    NamedIsOne(block.body, key, args);
  }
}

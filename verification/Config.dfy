/** From the parsed tree to the table of servers, src/config-parser/Config.cpp. */
module Config {
  import opened Bytes
  import S = ServConf
  import R = Routing

  type Node = S.Node

  datatype Res<+T> = Ok(value: T) | Err(cause: Data)

  // Node::get_by_key and ServConf::get_by_key
  function ByKey(nodes: S.Nodes, key: Data): Option<seq<Node>> {
    if key in nodes then Some(nodes[key]) else None
  }

  function Inside(node: Node, key: Data): Option<seq<Node>> {
    if node.nodes.Some? then ByKey(node.nodes.value, key) else None
  }

  // The arguments of the one operator of that name, or None when there is no such operator.
  function OneOperator(key: Data, node: Node): Res<Option<seq<Data>>> {
    match Inside(node, key)
    case None => Ok(None)
    case Some(blocks) =>
      if |blocks| != 1 then Err("several blocks " + key)
      else if blocks[0].nodes.Some? then Err(key + " must be an operator")
      else Ok(Some(blocks[0].args))
  }

  function SingleVal(key: Data, node: Node, default: Data): Res<Data> {
    match OneOperator(key, node)
    case Err(cause) => Err(cause)
    case Ok(None) => Ok(default)
    case Ok(Some(args)) => if |args| != 1 then Err(key + " has more than one arg") else Ok(args[0])
  }

  function OperatorArgs(key: Data, node: Node): Res<seq<Data>> {
    match OneOperator(key, node)
    case Err(cause) => Err(cause)
    case Ok(None) => Ok([])
    case Ok(Some(args)) => Ok(args)
  }

  datatype Entry = Entry(path: Data, location: R.Location)

  // One turn of the loop in get_location, up to the assignment.
  function LocationOf(node: Node): Res<Entry> {
    if node.nodes.None? then Err("location is not operator")
    else if |node.args| != 1 then Err("location arg count error")
    else
      var root, proxyPass := SingleVal("root", node, ""), SingleVal("proxy_pass", node, "");
      var cgi := SingleVal("cgi", node, "");
      var verbs := OperatorArgs("accepted_method", node);
      if root.Err? then Err(root.cause)
      else if proxyPass.Err? then Err(proxyPass.cause)
      else if cgi.Err? then Err(cgi.cause)
      else if verbs.Err? then Err(verbs.cause)
      else Ok(Entry(node.args[0], R.Location((set v | v in verbs.value), root.value, proxyPass.value, cgi.value)))
  }

  // get_location: one location block after the other, a later one replacing an earlier one of its path.
  function LocationsIn(ns: seq<Node>): Res<map<Data, R.Location>> {
    if ns == [] then Ok(map[])
    else
      var before := LocationsIn(ns[..|ns| - 1]);
      if before.Err? then before
      else
        var last := LocationOf(ns[|ns| - 1]);
        if last.Err? then Err(last.cause) else Ok(before.value[last.value.path := last.value.location])
  }

  function LocationsOf(node: Node): Res<map<Data, R.Location>> {
    match Inside(node, "location")
    case None => Err("no location in server block")
    case Some(ns) => LocationsIn(ns)
  }

  // One turn of the inner loop in Config::from.
  function ServerOf(node: Node): Res<R.Server> {
    var listen, names := SingleVal("listen", node, "80"), OperatorArgs("server_name", node);
    var locations := LocationsOf(node);
    if listen.Err? then Err(listen.cause)
    else if names.Err? then Err(names.cause)
    else if locations.Err? then Err(locations.cause)
    else Ok(R.Server(listen.value, names.value, locations.value))
  }

  // The server blocks in the order in which they are written.
  function ServerBlocks(https: seq<Node>): seq<Node> {
    if https == [] then []
    else
      var n := |https| - 1;
      ServerBlocks(https[..n]) + match Inside(https[n], "server") { case None => [] case Some(ns) => ns }
  }

  function ServersIn(ns: seq<Node>): Res<seq<R.Server>> {
    if ns == [] then Ok([])
    else
      var before := ServersIn(ns[..|ns| - 1]);
      if before.Err? then before
      else
        var last := ServerOf(ns[|ns| - 1]);
        if last.Err? then Err(last.cause) else Ok(before.value + [last.value])
  }

  // What listens where, in the order written.
  function Listening(servers: seq<R.Server>, listen: Data): seq<R.Server> {
    if servers == [] then []
    else
      var n := |servers| - 1;
      Listening(servers[..n], listen) + if servers[n].listen == listen then [servers[n]] else []
  }

  type Table = map<Data, seq<R.Server>>

  // The table has an entry exactly for the addresses that some server listens on, with those servers in order.
  ghost predicate IsTable(t: Table, servers: seq<R.Server>) {
    forall l: Data :: (l in t <==> Listening(servers, l) != []) && (l in t ==> t[l] == Listening(servers, l))
  }

  ghost predicate IsConfig(nodes: S.Nodes, r: Res<Table>) {
    match ByKey(nodes, "http")
    case None => r == Err("no http block")
    case Some(https) =>
      var servers := ServersIn(ServerBlocks(https));
      if servers.Err? then r == Err(servers.cause)
      else if servers.value == [] then r == Err("no server block in http block")
      else r.Ok? && IsTable(r.value, servers.value)
  }

  method GetLocation(node: Node) returns (r: Res<map<Data, R.Location>>)
    ensures r == LocationsOf(node)
  {
    hide LocationOf;
    var found := Inside(node, "location");
    if found.None? {
      return Err("no location in server block");
    }
    var ns := found.value;
    var locs: map<Data, R.Location> := map[];
    for i := 0 to |ns|
      invariant LocationsIn(ns[..i]) == Ok(locs)
    {
      assert ns[..i + 1][..i] == ns[..i];
      var entry := LocationOf(ns[i]);
      if entry.Err? {
        LocationsFail(ns, i);
        return Err(entry.cause);
      }
      locs := locs[entry.value.path := entry.value.location];
    }
    assert ns[..|ns|] == ns;
    return Ok(locs);
  }

  // A failure is final.
  lemma {:induction false} LocationsFail(ns: seq<Node>, i: nat)
    requires i < |ns| && LocationsIn(ns[..i]).Ok? && LocationOf(ns[i]).Err?
    ensures LocationsIn(ns) == Err(LocationOf(ns[i]).cause)
    decreases |ns|
  {
    hide LocationOf;
    var n := |ns| - 1;
    if i < n {
      assert ns[..n][..i] == ns[..i];
      LocationsFail(ns[..n], i);
    }
  }

  lemma {:induction false} LocationsExact(ns: seq<Node>)
    ensures LocationsIn(ns).Ok? <==> forall i :: 0 <= i < |ns| ==> LocationOf(ns[i]).Ok?
    ensures LocationsIn(ns).Err? ==>
              exists i :: 0 <= i < |ns| && LocationOf(ns[i]) == Err(LocationsIn(ns).cause)
                          && forall j :: 0 <= j < i ==> LocationOf(ns[j]).Ok?
    decreases |ns|
  {
    hide LocationOf;
    if ns != [] {
      var n := |ns| - 1;
      LocationsExact(ns[..n]);
      assert forall i :: 0 <= i < n ==> ns[..n][i] == ns[i];
    }
  }

  lemma {:induction false} ServersFail(ns: seq<Node>, i: nat)
    requires i < |ns| && ServersIn(ns[..i]).Ok? && ServerOf(ns[i]).Err?
    ensures ServersIn(ns) == Err(ServerOf(ns[i]).cause)
    decreases |ns|
  {
    hide ServerOf;
    var n := |ns| - 1;
    if i < n {
      assert ns[..n][..i] == ns[..i];
      ServersFail(ns[..n], i);
    }
  }

  // Reading stops at the first block that fails, and goes through exactly when none does.
  lemma {:induction false} ServersExact(ns: seq<Node>)
    ensures ServersIn(ns).Ok? <==> forall i :: 0 <= i < |ns| ==> ServerOf(ns[i]).Ok?
    ensures ServersIn(ns).Ok? ==>
              && |ServersIn(ns).value| == |ns|
              && forall i :: 0 <= i < |ns| ==> Ok(ServersIn(ns).value[i]) == ServerOf(ns[i])
    ensures ServersIn(ns).Err? ==>
              exists i :: 0 <= i < |ns| && ServerOf(ns[i]) == Err(ServersIn(ns).cause)
                          && forall j :: 0 <= j < i ==> ServerOf(ns[j]).Ok?
    decreases |ns|
  {
    hide ServerOf;
    if ns != [] {
      var n := |ns| - 1;
      ServersExact(ns[..n]);
      assert forall i :: 0 <= i < n ==> ns[..n][i] == ns[i];
    }
  }

  // Every path names the last location written for it.
  lemma {:induction false} LastLocationWins(ns: seq<Node>, p: Data)
    requires LocationsIn(ns).Ok?
    ensures forall i :: 0 <= i < |ns| ==> LocationOf(ns[i]).Ok?
    ensures p in LocationsIn(ns).value <==> exists i :: 0 <= i < |ns| && LocationOf(ns[i]).value.path == p
    ensures p in LocationsIn(ns).value ==>
              exists i :: 0 <= i < |ns| && LocationOf(ns[i]).value == Entry(p, LocationsIn(ns).value[p])
                          && forall j :: i < j < |ns| ==> LocationOf(ns[j]).value.path != p
    decreases |ns|
  {
    hide LocationOf;
    if ns != [] {
      var n := |ns| - 1;
      LastLocationWins(ns[..n], p);
      assert forall i :: 0 <= i < n ==> ns[..n][i] == ns[i];
      var last := LocationOf(ns[n]).value;
      if last.path == p {
        assert LocationOf(ns[n]).value == Entry(p, LocationsIn(ns).value[p]);
      } else if p in LocationsIn(ns).value {
        var i :| 0 <= i < n && LocationOf(ns[..n][i]).value == Entry(p, LocationsIn(ns[..n]).value[p])
                 && forall j :: i < j < n ==> LocationOf(ns[..n][j]).value.path != p;
        assert LocationOf(ns[i]).value == Entry(p, LocationsIn(ns).value[p]);
      }
    }
  }

  lemma TableGrows(t: Table, servers: seq<R.Server>, s: R.Server)
    requires IsTable(t, servers)
    ensures IsTable(AddServer(t, s), servers + [s])
  {
    assert (servers + [s])[..|servers|] == servers;
    forall l: Data
      ensures Listening(servers + [s], l) == Listening(servers, l) + if s.listen == l then [s] else []
    {
    }
  }

  lemma ServersStep(ns: seq<Node>, n: Node)
    requires ServersIn(ns).Ok? && ServerOf(n).Ok?
    ensures ServersIn(ns + [n]) == Ok(ServersIn(ns).value + [ServerOf(n).value])
  {
    hide ServerOf;
    assert (ns + [n])[..|ns|] == ns;
  }

  function AddServer(t: Table, s: R.Server): Table {
    t[s.listen := (if s.listen in t then t[s.listen] else []) + [s]]
  }

  // The servers of one http block, after those of the blocks before it.
  method AddServers(ns: seq<Node>, table: Table, ghost before: seq<Node>)
    returns (r: Res<Table>, ghost failed: nat)
    requires ServersIn(before).Ok? && IsTable(table, ServersIn(before).value)
    ensures r.Ok? ==> ServersIn(before + ns).Ok? && IsTable(r.value, ServersIn(before + ns).value)
    ensures r.Err? ==> failed < |ns| && ServersIn(before + ns[..failed]).Ok? && ServerOf(ns[failed]) == Err(r.cause)
  {
    hide ServerOf, ServersIn, IsTable;
    var t := table;
    failed := 0;
    assert before + ns[..0] == before;
    for i := 0 to |ns|
      invariant ServersIn(before + ns[..i]).Ok? && IsTable(t, ServersIn(before + ns[..i]).value)
    {
      var s := ServerOf(ns[i]);
      if s.Err? {
        return Err(s.cause), i;
      }
      ServersStep(before + ns[..i], ns[i]);
      TableGrows(t, ServersIn(before + ns[..i]).value, s.value);
      assert before + ns[..i] + [ns[i]] == before + ns[..i + 1];
      t := AddServer(t, s.value);
    }
    assert ns[..|ns|] == ns;
    r := Ok(t);
  }

  method From(nodes: S.Nodes) returns (r: Res<Table>)
    ensures IsConfig(nodes, r)
  {
    hide ServerOf, ServersIn, IsTable;
    var found := ByKey(nodes, "http");
    if found.None? {
      return Err("no http block");
    }
    var https := found.value;
    var table: Table := map[];
    EmptyTable();
    for h := 0 to |https|
      invariant var servers := ServersIn(ServerBlocks(https[..h])); servers.Ok? && IsTable(table, servers.value)
    {
      assert https[..h + 1][..h] == https[..h];
      var blocks := Inside(https[h], "server");
      if blocks.None? {
        assert ServerBlocks(https[..h]) + [] == ServerBlocks(https[..h]);
        continue;
      }
      var added, failed := AddServers(blocks.value, table, ServerBlocks(https[..h]));
      if added.Err? {
        WholeFails(https, h, blocks.value, failed);
        return added;
      }
      table := added.value;
    }
    assert https[..|https|] == https;
    TableIsEmpty(table, ServersIn(ServerBlocks(https)).value);
    if table == map[] {
      return Err("no server block in http block");
    }
    return Ok(table);
  }

  lemma EmptyTable()
    ensures IsTable(map[], []) && ServersIn(ServerBlocks([])) == Ok([])
  {
  }

  lemma TableIsEmpty(t: Table, servers: seq<R.Server>)
    requires IsTable(t, servers)
    ensures t == map[] <==> servers == []
  {
    if servers != [] {
      assert servers[|servers| - 1].listen in t;
    }
  }

  // The blocks of the first http blocks come first.
  lemma {:induction false} BlocksGrow(https: seq<Node>, h: nat)
    requires h <= |https|
    ensures ServerBlocks(https[..h]) <= ServerBlocks(https)
    decreases |https|
  {
    if h < |https| {
      var n := |https| - 1;
      assert https[..n][..h] == https[..h];
      BlocksGrow(https[..n], h);
    } else {
      assert https[..h] == https;
    }
  }

  lemma WholeFails(https: seq<Node>, h: nat, ns: seq<Node>, i: nat)
    requires h < |https| && Inside(https[h], "server") == Some(ns) && i < |ns|
    requires ServersIn(ServerBlocks(https[..h]) + ns[..i]).Ok? && ServerOf(ns[i]).Err?
    ensures ServersIn(ServerBlocks(https)) == Err(ServerOf(ns[i]).cause)
  {
    hide ServerOf, ServersIn;
    var before, all := ServerBlocks(https[..h]), ServerBlocks(https);
    assert https[..h + 1][..h] == https[..h];
    assert ServerBlocks(https[..h + 1]) == before + ns;
    BlocksGrow(https, h + 1);
    var k := |before| + i;
    assert all[..k] == (before + ns)[..k] == before + ns[..i];
    assert all[k] == (before + ns)[k] == ns[i];
    ServersFail(all, k);
  }
}

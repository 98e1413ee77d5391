/** From the text of a configuration to the location of a request: the parser, the table of servers and the
    choice of a location together. src/config-parser/serv-conf/ServConf.cpp, src/config-parser/Config.cpp and
    src/webserv.cpp. */
module ConfiguredRoute {
  import opened Bytes
  import S = ServConf
  import C = Config
  import opened ConfigMeaning
  import R = Routing

  type Node = S.Node

  // ---- in terms of the blocks as they are written

  // A server block on that address, which names the host when one is given.
  ghost predicate Serves(block: Node, listen: Data, req: R.Request) {
    && Single(block, "listen", "80", listen)
    && ("Host" in req.headers ==>
          exists names :: Listed(block, "server_name", names) && req.headers["Host"] in names)
  }

  ghost function Serving(listen: Data, req: R.Request): Node -> bool {
    block => Serves(block, listen, req)
  }

  // The last location block written for its path.
  ghost predicate IsWritten(block: Node, entry: C.Entry) {
    exists ns, j: nat :: Has(block, "location", ns) && SaysLast(ns, j, entry)
  }

  predicate Fits(req: R.Request, entry: C.Entry) {
    req.verb in entry.location.acceptedMethods && entry.path <= req.path
  }

  // Of the locations written that fit the request, the one with the longest path.
  ghost predicate IsBest(block: Node, req: R.Request, entry: C.Entry) {
    && IsWritten(block, entry) && Fits(req, entry)
    && forall e: C.Entry :: IsWritten(block, e) && Fits(req, e) ==> |e.path| <= |entry.path|
  }

  // The best location of the first block that serves the request.
  ghost predicate Routes(nodes: S.Nodes, listen: Data, req: R.Request, entry: C.Entry) {
    exists block :: IsFirstBlock(nodes, Serving(listen, req), block) && IsBest(block, req, entry)
  }

  // ---- blocks

  lemma WrittenIsIn(block: Node, entry: C.Entry)
    requires C.ServerOf(block).Ok?
    ensures var m := C.ServerOf(block).value.locations;
            IsWritten(block, entry) <==> entry.path in m && m[entry.path] == entry.location
  {
    hide C.LocationsIn, SaysLast, C.SingleVal, C.OperatorArgs;
    WrittenExact(block.nodes.value["location"], entry);
  }

  // The longest prefix of the table is the best location written.
  lemma LongestIsBest(block: Node, req: R.Request, entry: C.Entry)
    requires C.ServerOf(block).Ok?
    ensures var server := C.ServerOf(block).value;
            IsBest(block, req, entry) <==>
              R.IsLongest(server, req, entry.path) && server.locations[entry.path] == entry.location
  {
    hide C.ServerOf, IsWritten;
    var server := C.ServerOf(block).value;
    forall e: C.Entry
      ensures IsWritten(block, e) <==> e.path in server.locations && server.locations[e.path] == e.location
    {
      WrittenIsIn(block, e);
    }
    if IsBest(block, req, entry) {
      forall p | p in server.locations && R.Accepts(server, req, p) ensures |p| <= |entry.path| {
        assert IsWritten(block, C.Entry(p, server.locations[p]));
      }
    }
  }

  lemma ServesExact(block: Node, listen: Data, req: R.Request)
    requires C.ServerOf(block).Ok?
    ensures var server := C.ServerOf(block).value;
            Serves(block, listen, req) <==> server.listen == listen && Named(server, req)
  {
    hide C.ServerOf, Single, Listed, SaysLocations;
    var server := C.ServerOf(block).value;
    ServerExact(block, server);
    SingleExact(block, "listen", "80", listen, "");
    SingleExact(block, "listen", "80", server.listen, "");
    ListedExact(block, "server_name", server.serverName, "");
    if names :| Listed(block, "server_name", names) && "Host" in req.headers && req.headers["Host"] in names {
      ListedExact(block, "server_name", names, "");
    }
  }

  // ---- servers

  // An element of the filtered servers is one of the servers, and those before it are before it there.
  lemma {:induction false} ListeningAt(servers: seq<R.Server>, listen: Data, s: nat) returns (i: nat)
    requires s < |C.Listening(servers, listen)|
    ensures i < |servers| && servers[i] == C.Listening(servers, listen)[s] && servers[i].listen == listen
    ensures C.Listening(servers[..i], listen) == C.Listening(servers, listen)[..s]
    decreases |servers|
  {
    var n := |servers| - 1;
    var before := C.Listening(servers[..n], listen);
    if s < |before| {
      i := ListeningAt(servers[..n], listen, s);
      assert servers[..n][..i] == servers[..i];
    } else {
      i := n;
    }
  }

  lemma {:induction false} IsListening(servers: seq<R.Server>, listen: Data, i: nat) returns (s: nat)
    requires i < |servers| && servers[i].listen == listen
    ensures s < |C.Listening(servers, listen)| && C.Listening(servers, listen)[s] == servers[i]
    ensures C.Listening(servers[..i], listen) == C.Listening(servers, listen)[..s]
    decreases |servers|
  {
    var n := |servers| - 1;
    if i < n {
      s := IsListening(servers[..n], listen, i);
      assert servers[..n][..i] == servers[..i];
    } else {
      s := |C.Listening(servers[..n], listen)|;
    }
  }

  predicate Named(server: R.Server, req: R.Request) {
    "Host" in req.headers ==> req.headers["Host"] in server.serverName
  }

  // The server chosen among those on an address is the first of all that is on it and fits.
  lemma ChosenIsFirst(servers: seq<R.Server>, listen: Data, req: R.Request, s: nat) returns (i: nat)
    requires R.IsServerFor(req, C.Listening(servers, listen), s)
    ensures i < |servers| && servers[i] == C.Listening(servers, listen)[s]
    ensures servers[i].listen == listen && Named(servers[i], req)
    ensures forall j :: 0 <= j < i ==> !(servers[j].listen == listen && Named(servers[j], req))
  {
    hide C.Listening;
    i := ListeningAt(servers, listen, s);
    forall j | 0 <= j < i ensures !(servers[j].listen == listen && Named(servers[j], req)) {
      if servers[j].listen == listen {
        var k := IsListening(servers[..i], listen, j);
        assert C.Listening(servers, listen)[k] == C.Listening(servers, listen)[..s][k] == servers[j];
      }
    }
  }

  lemma FirstIsChosen(servers: seq<R.Server>, listen: Data, req: R.Request, i: nat) returns (s: nat)
    requires i < |servers| && servers[i].listen == listen && Named(servers[i], req)
    requires forall j :: 0 <= j < i ==> !(servers[j].listen == listen && Named(servers[j], req))
    ensures R.IsServerFor(req, C.Listening(servers, listen), s) && C.Listening(servers, listen)[s] == servers[i]
  {
    hide C.Listening;
    s := IsListening(servers, listen, i);
    forall k | 0 <= k < s ensures !Named(C.Listening(servers, listen)[k], req) {
      assert C.Listening(servers, listen)[k] == C.Listening(servers[..i], listen)[k];
      var j := ListeningAt(servers[..i], listen, k);
      assert servers[j] == servers[..i][j];
    }
    assert s > 0 ==> !Named(C.Listening(servers, listen)[0], req);
  }

  // ---- together

  ghost predicate Configured(nodes: S.Nodes, listen: Data, info: seq<R.Server>) {
    var servers := C.ServersIn(Blocks(nodes));
    servers.Ok? && info == C.Listening(servers.value, listen) && info != []
  }

  lemma BlocksServe(nodes: S.Nodes, listen: Data, req: R.Request)
    requires C.ServersIn(Blocks(nodes)).Ok?
    ensures var blocks, servers := Blocks(nodes), C.ServersIn(Blocks(nodes)).value;
            && |servers| == |blocks|
            && forall i :: 0 <= i < |blocks| ==>
                 && C.ServerOf(blocks[i]) == C.Ok(servers[i])
                 && (Serving(listen, req)(blocks[i]) <==> servers[i].listen == listen && Named(servers[i], req))
  {
    hide C.ServerOf, C.ServersIn, Blocks, Serves, Named;
    var blocks := Blocks(nodes);
    C.ServersExact(blocks);
    forall i | 0 <= i < |blocks|
      ensures Serves(blocks[i], listen, req) <==>
                C.ServerOf(blocks[i]).value.listen == listen && Named(C.ServerOf(blocks[i]).value, req)
    {
      ServesExact(blocks[i], listen, req);
    }
  }

  lemma FoundRoutes(nodes: S.Nodes, listen: Data, info: seq<R.Server>, req: R.Request, entry: C.Entry)
    requires Configured(nodes, listen, info) && R.IsAnswer(req, info, R.Found(entry.path, entry.location))
    ensures Routes(nodes, listen, req, entry)
  {
    hide C.ServerOf, C.ServersIn, C.Listening, IsBest, Blocks, IsFirstBlock, Serving;
    BlocksServe(nodes, listen, req);
    var blocks, servers := Blocks(nodes), C.ServersIn(Blocks(nodes)).value;
    var s: nat :| R.IsServerFor(req, info, s) && R.IsLongest(info[s], req, entry.path)
                  && entry.location == info[s].locations[entry.path];
    var i := ChosenIsFirst(servers, listen, req, s);
    LongestIsBest(blocks[i], req, entry);
    IndexIsFirst(nodes, Serving(listen, req), i);
  }

  lemma RoutesAreFound(nodes: S.Nodes, listen: Data, info: seq<R.Server>, req: R.Request, entry: C.Entry)
    requires Configured(nodes, listen, info) && Routes(nodes, listen, req, entry)
    ensures R.IsAnswer(req, info, R.Found(entry.path, entry.location))
  {
    hide C.ServerOf, C.ServersIn, C.Listening, IsBest, Blocks, IsFirstBlock, Serving;
    BlocksServe(nodes, listen, req);
    var servers := C.ServersIn(Blocks(nodes)).value;
    var block :| IsFirstBlock(nodes, Serving(listen, req), block) && IsBest(block, req, entry);
    var i := FirstHasIndex(nodes, Serving(listen, req), block);
    LongestIsBest(block, req, entry);
    var s := FirstIsChosen(servers, listen, req, i);
    assert R.IsServerFor(req, info, s) && R.IsLongest(info[s], req, entry.path);
  }

  lemma TableIsConfigured(nodes: S.Nodes, table: C.Table, listen: Data)
    requires C.IsConfig(nodes, C.Ok(table)) && listen in table
    ensures Configured(nodes, listen, table[listen])
  {
  }

  // The addresses of the table are those that some server block is on.
  lemma TableExact(nodes: S.Nodes, table: C.Table, listen: Data)
    requires C.IsConfig(nodes, C.Ok(table))
    ensures listen in table <==>
              exists h: nat, k: nat, block :: BlockAt(nodes, h, k, block) && Single(block, "listen", "80", listen)
  {
    hide C.ServersIn, C.Listening, C.ServerBlocks, BlockAt, Single, IndexOf;
    var req := R.Request("", "", map[]);
    BlocksServe(nodes, listen, req);
    var blocks, servers := Blocks(nodes), C.ServersIn(Blocks(nodes)).value;
    if listen in table {
      var i := ListeningAt(servers, listen, 0);
      var h, k := BlockOfIndex(nodes, i);
    }
    if h: nat, k: nat, block :| BlockAt(nodes, h, k, block) && Single(block, "listen", "80", listen) {
      BlockHasIndex(nodes, h, k, block);
      assert Serving(listen, req)(blocks[IndexOf(nodes, h, k)]);
      var s := IsListening(servers, listen, IndexOf(nodes, h, k));
    }
  }

  // Of a text that is a configuration, and an address it listens on, the location answered for a request is
  // exactly the best one written in the first server block that serves it, and some server is always there.
  lemma TextToLocation(text: Data, table: C.Table, listen: Data, req: R.Request, answer: R.Answer)
    requires S.ConfOf(text).Ok? && C.IsConfig(S.ConfOf(text).value, C.Ok(table)) && listen in table
    requires R.IsAnswer(req, table[listen], answer)
    ensures answer != R.OutOfRange
    ensures forall entry: C.Entry ::
              Routes(S.ConfOf(text).value, listen, req, entry) <==> answer == R.Found(entry.path, entry.location)
  {
    hide S.ConfOf, C.IsConfig, R.IsAnswer, Routes, Configured;
    var nodes := S.ConfOf(text).value;
    var info := table[listen];
    TableIsConfigured(nodes, table, listen);
    ServersThere(nodes, listen, info, req, answer);
    forall entry: C.Entry
      ensures Routes(nodes, listen, req, entry) <==> answer == R.Found(entry.path, entry.location)
    {
      if Routes(nodes, listen, req, entry) {
        RoutesAreFound(nodes, listen, info, req, entry);
        R.AnswerIsUnique(req, info, answer, R.Found(entry.path, entry.location));
      }
      if answer == R.Found(entry.path, entry.location) {
        FoundRoutes(nodes, listen, info, req, entry);
      }
    }
  }

  lemma ServersThere(nodes: S.Nodes, listen: Data, info: seq<R.Server>, req: R.Request, answer: R.Answer)
    requires Configured(nodes, listen, info) && R.IsAnswer(req, info, answer)
    ensures answer != R.OutOfRange
  {
  }
}

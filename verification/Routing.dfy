/** The choice of server and location for a request, `get_location` in src/webserv.cpp. */
module Routing {
  import opened Bytes
  import opened Ordering

  datatype Location = Location(acceptedMethods: set<Data>, root: Data, proxyPass: Data, cgiPath: Data)

  datatype Server = Server(listen: Data, serverName: seq<Data>, locations: map<Data, Location>)

  datatype Request = Request(verb: Data, path: Data, headers: map<Data, Data>)

  // std::vector::at throws out_of_range on an empty list of servers.
  datatype Answer = OutOfRange | NoLocation | Found(prefix: Data, location: Location)

  // Of two prefixes of one path the later in map order is the longer.
  lemma {:induction false} PrefixOrder(a: Data, b: Data, path: Data)
    requires a <= path && b <= path
    ensures Less(a, b) <==> |a| < |b|
    decreases |a|
  {
    if a != [] && b != [] {
      assert a[0] == path[0] == b[0];
      PrefixOrder(a[1..], b[1..], path[1..]);
    }
  }

  predicate Accepts(server: Server, req: Request, prefix: Data) {
    && prefix in server.locations
    && req.verb in server.locations[prefix].acceptedMethods
    && prefix <= req.path
  }

  // The first server that names the host, and the first of all when no host is given.
  predicate IsServerFor(req: Request, info: seq<Server>, s: nat) {
    && s < |info|
    && if "Host" in req.headers then
         req.headers["Host"] in info[s].serverName
         && forall i :: 0 <= i < s ==> req.headers["Host"] !in info[i].serverName
       else s == 0
  }

  // The longest configured prefix of the path whose location accepts the method.
  predicate IsLongest(server: Server, req: Request, prefix: Data) {
    Accepts(server, req, prefix) && forall p :: p in server.locations && Accepts(server, req, p) ==> |p| <= |prefix|
  }

  predicate NoneAccepts(server: Server, req: Request) {
    forall p :: p in server.locations ==> !Accepts(server, req, p)
  }

  method FindServer(req: Request, info: seq<Server>) returns (server: Option<nat>)
    requires "Host" in req.headers
    ensures server.Some? ==> IsServerFor(req, info, server.value)
    ensures server.None? ==> forall i :: 0 <= i < |info| ==> req.headers["Host"] !in info[i].serverName
  {
    var hostname := req.headers["Host"];
    server := None;
    for i := 0 to |info|
      invariant server.None? && forall j :: 0 <= j < i ==> hostname !in info[j].serverName
    {
      var names := info[i].serverName;
      for n := 0 to |names|
        invariant server.None? && hostname !in names[..n]
      {
        if names[n] == hostname {
          server := Some(i);
          break;
        }
      }
      if server.Some? {
        break;
      }
      assert names[..|names|] == names;
    }
  }

  method ChooseLocation(req: Request, server: Server) returns (prefix: Option<Data>)
    ensures prefix.Some? ==> IsLongest(server, req, prefix.value)
    ensures prefix.None? ==> NoneAccepts(server, req)
  {
    hide Less, Ascending;
    var keys := InOrder(server.locations.Keys);
    prefix := None;
    for k := 0 to |keys|
      invariant prefix.None? ==> forall j :: 0 <= j < k ==> !Accepts(server, req, keys[j])
      invariant prefix.Some? ==>
                  && Accepts(server, req, prefix.value)
                  && forall j :: 0 <= j < k && Accepts(server, req, keys[j]) ==> |keys[j]| <= |prefix.value|
    {
      var path := keys[k];
      if req.verb !in server.locations[path].acceptedMethods {
        continue;
      }
      if !(path <= req.path) {
        continue;
      }
      forall j | 0 <= j < k && Accepts(server, req, keys[j]) ensures |keys[j]| <= |path| {
        Later(keys, j, k);
        PrefixOrder(keys[j], path, req.path);
      }
      prefix := Some(path);
    }
  }

  lemma Later(keys: seq<Data>, j: nat, k: nat)
    requires Ascending(keys) && j < k < |keys|
    ensures Less(keys[j], keys[k])
  {
  }

  ghost predicate IsAnswer(req: Request, info: seq<Server>, answer: Answer) {
    match answer
    case OutOfRange => "Host" !in req.headers && info == []
    case NoLocation =>
      || ("Host" in req.headers && forall i :: 0 <= i < |info| ==> req.headers["Host"] !in info[i].serverName)
      || exists s: nat :: IsServerFor(req, info, s) && NoneAccepts(info[s], req)
    case Found(prefix, location) =>
      exists s: nat :: IsServerFor(req, info, s) && IsLongest(info[s], req, prefix)
                       && location == info[s].locations[prefix]
  }

  method GetLocation(req: Request, info: seq<Server>) returns (answer: Answer)
    ensures IsAnswer(req, info, answer)
  {
    var chosen: nat := 0;
    if "Host" !in req.headers {
      if info == [] {
        return OutOfRange;
      }
    } else {
      var found := FindServer(req, info);
      if found.None? {
        return NoLocation;
      }
      chosen := found.value;
    }
    assert IsServerFor(req, info, chosen);
    var prefix := ChooseLocation(req, info[chosen]);
    if prefix.None? {
      return NoLocation;
    }
    return Found(prefix.value, info[chosen].locations[prefix.value]);
  }

  // No request has two answers.
  lemma AnswerIsUnique(req: Request, info: seq<Server>, a: Answer, b: Answer)
    requires IsAnswer(req, info, a) && IsAnswer(req, info, b)
    ensures a == b
  {
    hide IsLongest, NoneAccepts, IsServerFor;
    forall s: nat, t: nat | IsServerFor(req, info, s) && IsServerFor(req, info, t) ensures s == t {
      ServerIsUnique(req, info, s, t);
    }
    forall s: nat | IsServerFor(req, info, s) ensures s < |info| && (NoneAccepts(info[s], req) ==>
      forall p :: !IsLongest(info[s], req, p)) {
      ServerExcludes(req, info, s);
    }
    if a.Found? && b.Found? {
      var s: nat :| IsServerFor(req, info, s) && IsLongest(info[s], req, a.prefix);
      LongestIsUnique(info[s], req, a.prefix, b.prefix);
    }
    HostlessServer(req, info);
  }

  lemma ServerExcludes(req: Request, info: seq<Server>, s: nat)
    requires IsServerFor(req, info, s)
    ensures s < |info| && (NoneAccepts(info[s], req) ==> forall p :: !IsLongest(info[s], req, p))
  {
  }

  lemma HostlessServer(req: Request, info: seq<Server>)
    ensures info == [] ==> forall s: nat :: !IsServerFor(req, info, s)
    ensures "Host" in req.headers && (forall i :: 0 <= i < |info| ==> req.headers["Host"] !in info[i].serverName)
            ==> forall s: nat :: !IsServerFor(req, info, s)
  {
  }

  lemma ServerIsUnique(req: Request, info: seq<Server>, s: nat, t: nat)
    requires IsServerFor(req, info, s) && IsServerFor(req, info, t)
    ensures s == t
  {
  }

  // The answer is the only one with that property.
  lemma LongestIsUnique(server: Server, req: Request, p: Data, q: Data)
    requires IsLongest(server, req, p) && IsLongest(server, req, q)
    ensures p == q
  {
    assert |p| == |q|;
    assert p == req.path[..|p|] && q == req.path[..|q|];
  }
}

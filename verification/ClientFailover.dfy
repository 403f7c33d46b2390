/**
  The command-line client's server failover: servers that refuse a connection are skipped for the rest of the
  session.
 */
module ClientServers {
  // official is the server built into the client; empty means none.
  datatype ServerConfig = ServerConfig(primary: string, cluster: seq<string>, official: string)

  function GetPrimaryServer(c: ServerConfig): string {
    if c.primary != "" then c.primary else c.official
  }

  function OtherNodes(nodes: seq<string>, primary: string): seq<string> {
    if nodes == [] then [] else
      var n := |nodes| - 1;
      OtherNodes(nodes[..n], primary) + if nodes[n] != "" && nodes[n] != primary then [nodes[n]] else []
  }

  // The walk order: the primary, then the cluster nodes as configured.
  function AllServers(c: ServerConfig): seq<string> {
    var primary := GetPrimaryServer(c);
    (if primary != "" then [primary] else []) + OtherNodes(c.cluster, primary)
  }

  function Distinct(servers: seq<string>): set<string> {
    set s | s in servers
  }

  lemma {:induction false} OtherNodesMembers(nodes: seq<string>, primary: string)
    ensures forall s :: s in OtherNodes(nodes, primary) <==> s in nodes && s != "" && s != primary
  {
    if nodes != [] {
      var n := |nodes| - 1;
      OtherNodesMembers(nodes[..n], primary);
      assert nodes == nodes[..n] + [nodes[n]];
    }
  }

  /** The servers walked are the configured ones, the primary first and never again. */
  lemma AllServersMembers(c: ServerConfig)
    ensures var primary := GetPrimaryServer(c);
            && (forall s :: s in AllServers(c) <==> s != "" && (s == primary || s in c.cluster))
            && (primary != "" ==> AllServers(c)[0] == primary && primary !in AllServers(c)[1..])
  {
    OtherNodesMembers(c.cluster, GetPrimaryServer(c));
  }

  // The places in front of i of the nodes that are walked.
  function NodesBefore(c: ServerConfig, i: nat): set<nat>
    requires i <= |c.cluster|
  {
    var primary := if c.primary != "" then c.primary else c.official;
    set j | 0 <= j < i && c.cluster[j] != "" && c.cluster[j] != primary
  }

  lemma {:induction false} OtherNodesSize(c: ServerConfig, i: nat)
    requires i <= |c.cluster|
    ensures |OtherNodes(c.cluster[..i], GetPrimaryServer(c))| == |NodesBefore(c, i)|
  {
    if i == 0 {
      assert NodesBefore(c, 0) == {};
    } else {
      OtherNodesSize(c, i - 1);
      assert c.cluster[..i][..i - 1] == c.cluster[..i - 1];
      NodesBeforeNext(c, i - 1);
    }
  }

  lemma NodesBeforeNext(c: ServerConfig, i: nat)
    requires i < |c.cluster|
    ensures |NodesBefore(c, i + 1)| ==
            |NodesBefore(c, i)| + if c.cluster[i] != "" && c.cluster[i] != GetPrimaryServer(c) then 1 else 0
  {
    var node := c.cluster[i];
    assert NodesBefore(c, i + 1) ==
           NodesBefore(c, i) + if node != "" && node != GetPrimaryServer(c) then {i} else {};
  }

  lemma {:induction false} OtherNodesGrow(nodes: seq<string>, primary: string, i: nat)
    requires i <= |nodes|
    ensures OtherNodes(nodes[..i], primary) <= OtherNodes(nodes, primary)
    decreases |nodes|
  {
    if i < |nodes| {
      var n := |nodes| - 1;
      OtherNodesGrow(nodes[..n], primary, i);
      assert nodes[..n][..i] == nodes[..i];
    } else {
      assert nodes[..i] == nodes;
    }
  }

  /** Every cluster node that is walked has its place behind the primary and the walked nodes configured before it. */
  lemma NodePlace(c: ServerConfig, i: nat)
    requires i < |c.cluster| && c.cluster[i] != "" && c.cluster[i] != GetPrimaryServer(c)
    ensures var head := if GetPrimaryServer(c) != "" then 1 else 0;
            && |AllServers(c)| == head + |NodesBefore(c, |c.cluster|)|
            && head + |NodesBefore(c, i)| < |AllServers(c)|
            && AllServers(c)[head + |NodesBefore(c, i)|] == c.cluster[i]
  {
    var primary := GetPrimaryServer(c);
    OtherNodesSize(c, i);
    OtherNodesSize(c, |c.cluster|);
    assert c.cluster[..|c.cluster|] == c.cluster;
    OtherNodesGrow(c.cluster, primary, i + 1);
    assert c.cluster[..i + 1][..i] == c.cluster[..i];
    assert OtherNodes(c.cluster[..i + 1], primary) == OtherNodes(c.cluster[..i], primary) + [c.cluster[i]];
  }

  method GetAllServers(c: ServerConfig) returns (servers: seq<string>)
    ensures servers == AllServers(c)
  {
    servers := [];
    var primary := GetPrimaryServer(c);
    if primary != "" {
      servers := servers + [primary];
    }
    ghost var head := servers;
    for i := 0 to |c.cluster|
      invariant servers == head + OtherNodes(c.cluster[..i], primary)
    {
      assert c.cluster[..i + 1][..i] == c.cluster[..i];
      var node := c.cluster[i];
      if node != "" && node != primary {
        servers := servers + [node];
      }
    }
    assert c.cluster[..|c.cluster|] == c.cluster;
  }
}

module ClientSession {
  import opened Wrappers
  import opened ClientServers
  import Sets

  // What a server does with one request: the request cannot be built for its URL, no connection, or a status.
  datatype Reply = Unbuildable | Refused | Response(status: nat)

  type Network = string -> Reply

  datatype Attempt = Attempt(server: string, connected: bool)

  datatype Error =
    | NoServers
    | CannotBuild
    | CannotConnect(server: string)
    | AllUnreachable
    | Auth
    | NotFound
    | Api(status: nat)

  // The client's memory, and a log of every attempt to contact a server.
  datatype Session = Session(failed: set<string>, current: string, log: seq<Attempt>)

  function HandleResponse(status: nat): Result<nat, Error> {
    if status == 401 || status == 403 then Err(Auth)
    else if status == 404 then Err(NotFound)
    else if status >= 400 then Err(Api(status))
    else Ok(status)
  }

  // The error remembered for a server that gives no response.
  function Failure(server: string, net: Network): Error {
    if net(server).Unbuildable? then CannotBuild else CannotConnect(server)
  }

  predicate Answers(s: Session, server: string, net: Network) {
    server !in s.failed && net(server).Response?
  }

  // One turn of the loop over the servers.
  function Visit(s: Session, server: string, net: Network): Session {
    if server in s.failed then s else
      match net(server)
      case Unbuildable => s
      case Refused => s.(failed := s.failed + {server}, log := s.log + [Attempt(server, false)])
      case Response(_) => s.(current := server, log := s.log + [Attempt(server, true)])
  }

  // The walk stops at the first server that answers.
  function Walk(s: Session, servers: seq<string>, net: Network): Session
    decreases |servers|
  {
    if servers == [] then s
    else if Answers(s, servers[0], net) then Visit(s, servers[0], net)
    else Walk(Visit(s, servers[0], net), servers[1..], net)
  }

  function FirstAnswering(servers: seq<string>, failed: set<string>, net: Network): (k: nat)
    ensures k <= |servers|
    ensures k < |servers| ==> servers[k] !in failed && net(servers[k]).Response?
    ensures forall i | 0 <= i < k :: servers[i] in failed || !net(servers[i]).Response?
  {
    if servers == [] || (servers[0] !in failed && net(servers[0]).Response?) then 0
    else 1 + FirstAnswering(servers[1..], failed, net)
  }

  /**
    A request is answered by the first configured server that has not failed and that connects, and by none if there
    is none.
   */
  lemma {:induction false} WalkReachesFirst(s: Session, servers: seq<string>, net: Network)
    ensures var k := FirstAnswering(servers, s.failed, net);
            var s' := Walk(s, servers, net);
            if k < |servers| then
              s'.current == servers[k] && |s'.log| > |s.log| && s'.log[|s'.log| - 1] == Attempt(servers[k], true) &&
              forall i | |s.log| <= i < |s'.log| - 1 :: !s'.log[i].connected
            else
              s'.current == s.current && |s'.log| >= |s.log| &&
              forall i | |s.log| <= i < |s'.log| :: !s'.log[i].connected
    ensures s.log <= Walk(s, servers, net).log
    decreases |servers|
  {
    if servers != [] && !Answers(s, servers[0], net) {
      var v := Visit(s, servers[0], net);
      SkippedFails(s, servers[0], net);
      WalkReachesFirst(v, servers[1..], net);
      FailedDoNotAnswer(servers[1..], s.failed, v.failed, net);
    }
  }

  // A server that does not answer leaves no successful attempt and at most its own mark.
  lemma SkippedFails(s: Session, server: string, net: Network)
    requires !Answers(s, server, net)
    ensures var v := Visit(s, server, net);
            && v.current == s.current && s.log <= v.log && s.failed <= v.failed
            && (forall i | |s.log| <= i < |v.log| :: !v.log[i].connected)
            && (forall x | x in v.failed - s.failed :: !net(x).Response?)
  {
  }

  lemma {:induction false} FailedDoNotAnswer(
    servers: seq<string>, before: set<string>, after: set<string>, net: Network)
    requires before <= after && forall x | x in after - before :: !net(x).Response?
    ensures FirstAnswering(servers, before, net) == FirstAnswering(servers, after, net)
  {
    if servers != [] {
      FailedDoNotAnswer(servers[1..], before, after, net);
    }
  }

  function RefusedBy(servers: seq<string>, net: Network): set<string> {
    set x | x in servers && net(x).Refused?
  }

  /** A request marks as failed exactly the servers in front of the answering one that refuse it. */
  lemma {:induction false} WalkMarksRefused(s: Session, servers: seq<string>, net: Network)
    ensures Walk(s, servers, net).failed ==
            s.failed + RefusedBy(servers[..FirstAnswering(servers, s.failed, net)], net)
    decreases |servers|
  {
    if servers != [] && !Answers(s, servers[0], net) {
      var v, rest := Visit(s, servers[0], net), servers[1..];
      WalkMarksRefused(v, rest, net);
      FailedDoNotAnswer(rest, s.failed, v.failed, net);
      var k := FirstAnswering(rest, s.failed, net);
      assert servers[..k + 1] == [servers[0]] + rest[..k];
    }
  }

  // ---- Whole sessions ----

  function Requests(s: Session, servers: seq<string>, nets: seq<Network>): Session {
    if nets == [] then s else Walk(Requests(s, servers, nets[..|nets| - 1]), servers, nets[|nets| - 1])
  }

  function Failures(log: seq<Attempt>): nat {
    if log == [] then 0 else
      var n := |log| - 1;
      Failures(log[..n]) + if log[n].connected then 0 else 1
  }

  ghost predicate NeverContactedAgain(log: seq<Attempt>) {
    forall i, j | 0 <= i < j < |log| && !log[i].connected :: log[j].server != log[i].server
  }

  // What every step of a session keeps.
  ghost predicate Consistent(s: Session, servers: seq<string>) {
    && s.failed <= Distinct(servers)
    && Failures(s.log) == |s.failed|
    && (forall i | 0 <= i < |s.log| && !s.log[i].connected :: s.log[i].server in s.failed)
    && NeverContactedAgain(s.log)
  }

  lemma VisitKeepsConsistent(s: Session, servers: seq<string>, server: string, net: Network)
    requires Consistent(s, servers) && server in servers
    ensures Consistent(Visit(s, server, net), servers)
  {
    if server !in s.failed && !net(server).Unbuildable? {
      NextAttempt(s.log, Attempt(server, net(server).Response?), s.failed);
    }
  }

  // One more attempt at a server without a failure so far.
  lemma NextAttempt(log: seq<Attempt>, a: Attempt, failed: set<string>)
    requires a.server !in failed && NeverContactedAgain(log)
    requires forall i | 0 <= i < |log| && !log[i].connected :: log[i].server in failed
    ensures NeverContactedAgain(log + [a]) && Failures(log + [a]) == Failures(log) + if a.connected then 0 else 1
  {
    assert (log + [a])[..|log|] == log;
  }

  lemma {:induction false} WalkKeepsConsistent(s: Session, servers: seq<string>, rest: seq<string>, net: Network)
    requires Consistent(s, servers) && forall x | x in rest :: x in servers
    ensures Consistent(Walk(s, rest, net), servers)
    decreases |rest|
  {
    if rest != [] {
      VisitKeepsConsistent(s, servers, rest[0], net);
      if !Answers(s, rest[0], net) {
        WalkKeepsConsistent(Visit(s, rest[0], net), servers, rest[1..], net);
      }
    }
  }

  lemma {:induction false} RequestsKeepConsistent(s: Session, servers: seq<string>, nets: seq<Network>)
    requires Consistent(s, servers)
    ensures Consistent(Requests(s, servers, nets), servers)
  {
    if nets != [] {
      RequestsKeepConsistent(s, servers, nets[..|nets| - 1]);
      WalkKeepsConsistent(Requests(s, servers, nets[..|nets| - 1]), servers, servers, nets[|nets| - 1]);
    }
  }

  /**
    Over any sequence of requests on one client, refused connections number at most the distinct configured
    servers, and a server that refused once is never contacted again.
   */
  lemma SessionFailuresAreBounded(c: ServerConfig, nets: seq<Network>)
    ensures var s := Requests(Session({}, GetPrimaryServer(c), []), AllServers(c), nets);
            && Failures(s.log) <= |Distinct(AllServers(c))|
            && NeverContactedAgain(s.log)
            && forall a | a in s.log :: a.server in AllServers(c)
  {
    var start := Session({}, GetPrimaryServer(c), []);
    RequestsKeepConsistent(start, AllServers(c), nets);
    Sets.SubsetSize(Requests(start, AllServers(c), nets).failed, Distinct(AllServers(c)));
    OnlyConfiguredServers(start, AllServers(c), nets);
  }

  lemma {:induction false} OnlyConfiguredServers(s: Session, servers: seq<string>, nets: seq<Network>)
    requires forall a | a in s.log :: a.server in servers
    ensures forall a | a in Requests(s, servers, nets).log :: a.server in servers
  {
    if nets != [] {
      OnlyConfiguredServers(s, servers, nets[..|nets| - 1]);
      WalkContactsOnly(Requests(s, servers, nets[..|nets| - 1]), servers, servers, nets[|nets| - 1]);
    }
  }

  lemma {:induction false} WalkContactsOnly(s: Session, servers: seq<string>, rest: seq<string>, net: Network)
    requires (forall a | a in s.log :: a.server in servers) && forall x | x in rest :: x in servers
    ensures forall a | a in Walk(s, rest, net).log :: a.server in servers
    decreases |rest|
  {
    if rest != [] && !Answers(s, rest[0], net) {
      WalkContactsOnly(Visit(s, rest[0], net), servers, rest[1..], net);
    }
  }

  // ---- One request, midway ----

  // After the first i servers: what is left to walk, and the error of the last server tried.
  ghost predicate Underway(
    start: Session, now: Session, servers: seq<string>, i: nat, net: Network, lastErr: Option<Error>)
  {
    && i <= |servers|
    && Walk(now, servers[i..], net) == Walk(start, servers, net)
    && FirstAnswering(servers, start.failed, net) == i + FirstAnswering(servers[i..], now.failed, net)
    && now.failed == start.failed + RefusedBy(servers[..i], net)
    && Remembers(servers, start.failed, net, i, lastErr)
  }

  // The error is that of the server tried last, if any was tried.
  ghost predicate Remembers(servers: seq<string>, failed: set<string>, net: Network, i: nat, lastErr: Option<Error>)
    requires i <= |servers|
  {
    if lastErr == None then forall j | 0 <= j < i :: !IsTried(servers, failed, net, j)
    else exists j | 0 <= j < i :: IsLastTried(servers, failed, net, i, j) &&
                                  lastErr == Some(Failure(servers[j], net))
  }

  lemma RemembersNext(servers: seq<string>, failed: set<string>, net: Network, i: nat, lastErr: Option<Error>)
    requires i < |servers| && Remembers(servers, failed, net, i, lastErr)
    ensures Remembers(servers, failed, net, i + 1,
                      if IsTried(servers, failed, net, i) then Some(Failure(servers[i], net)) else lastErr)
  {
    if IsTried(servers, failed, net, i) {
      assert IsLastTried(servers, failed, net, i + 1, i);
    } else if lastErr.Some? {
      var j :| 0 <= j < i && IsLastTried(servers, failed, net, i, j) && lastErr == Some(Failure(servers[j], net));
      assert IsLastTried(servers, failed, net, i + 1, j);
    }
  }

  // A walk without an answer tries the server at place j: it had not failed before, nor just now at an earlier place.
  predicate IsTried(servers: seq<string>, failed: set<string>, net: Network, j: nat)
    requires j < |servers|
  {
    servers[j] !in failed && forall i | 0 <= i < j :: servers[i] == servers[j] ==> !net(servers[i]).Refused?
  }

  predicate IsLastTried(servers: seq<string>, failed: set<string>, net: Network, n: nat, j: nat)
    requires j < n <= |servers|
  {
    IsTried(servers, failed, net, j) && forall k | j < k < n :: !IsTried(servers, failed, net, k)
  }

  lemma TriedIff(servers: seq<string>, failed: set<string>, net: Network, i: nat)
    requires i < |servers|
    ensures IsTried(servers, failed, net, i) <==> servers[i] !in failed + RefusedBy(servers[..i], net)
  {
    if servers[i] in RefusedBy(servers[..i], net) {
      var j :| 0 <= j < i && servers[j] == servers[i];
    }
  }

  lemma RefusedNext(servers: seq<string>, net: Network, i: nat)
    requires i < |servers|
    ensures RefusedBy(servers[..i + 1], net) ==
            RefusedBy(servers[..i], net) + if net(servers[i]).Refused? then {servers[i]} else {}
  {
    assert servers[..i + 1] == servers[..i] + [servers[i]];
  }

  lemma MovesOn(start: Session, now: Session, servers: seq<string>, i: nat, net: Network, lastErr: Option<Error>)
    requires Underway(start, now, servers, i, net, lastErr) && i < |servers| && !Answers(now, servers[i], net)
    ensures var err := if servers[i] in now.failed then lastErr else Some(Failure(servers[i], net));
            Underway(start, Visit(now, servers[i], net), servers, i + 1, net, err)
  {
    assert servers[i..][0] == servers[i] && servers[i..][1..] == servers[i + 1..];
    TriedIff(servers, start.failed, net, i);
    RefusedNext(servers, net, i);
    RemembersNext(servers, start.failed, net, i, lastErr);
    FailedDoNotAnswer(servers[i + 1..], now.failed, Visit(now, servers[i], net).failed, net);
  }

  lemma ReachesAnswer(start: Session, now: Session, servers: seq<string>, i: nat, net: Network, lastErr: Option<Error>)
    requires Underway(start, now, servers, i, net, lastErr) && i < |servers| && Answers(now, servers[i], net)
    ensures Visit(now, servers[i], net) == Walk(start, servers, net) && FirstAnswering(servers, start.failed, net) == i
  {
    assert servers[i..][0] == servers[i];
  }

  lemma RunsOut(start: Session, now: Session, servers: seq<string>, net: Network, lastErr: Option<Error>)
    requires Underway(start, now, servers, |servers|, net, lastErr)
    ensures now == Walk(start, servers, net) && FirstAnswering(servers, start.failed, net) == |servers|
    ensures lastErr == None <==> forall x | x in servers :: x in start.failed
    ensures lastErr.Some? ==>
              exists j | 0 <= j < |servers| :: IsLastTried(servers, start.failed, net, |servers|, j) &&
                                               lastErr == Some(Failure(servers[j], net))
  {
    assert servers[|servers|..] == [];
    if lastErr == None {
      NoneTried(servers, start.failed, net, |servers|);
    }
  }

  lemma {:induction false} NoneTried(servers: seq<string>, failed: set<string>, net: Network, n: nat)
    requires n <= |servers| && forall j | 0 <= j < n :: !IsTried(servers, failed, net, j)
    ensures forall j | 0 <= j < n :: servers[j] in failed
  {
    if n > 0 {
      NoneTried(servers, failed, net, n - 1);
      assert !IsTried(servers, failed, net, n - 1);
    }
  }

  // ---- The client object ----

  class HTTPClient {
    const config: ServerConfig
    var currentServer: string
    var failedServers: map<string, bool>
    ghost var log: seq<Attempt>

    ghost predicate Valid()
      reads this
    {
      forall s | s in failedServers :: failedServers[s]
    }

    ghost function View(): Session
      reads this
    {
      Session(failedServers.Keys, currentServer, log)
    }

    constructor (config: ServerConfig)
      ensures Valid() && this.config == config && View() == Session({}, GetPrimaryServer(config), [])
    {
      this.config := config;
      currentServer := GetPrimaryServer(config);
      failedServers := map[];
      log := [];
    }

    // One turn of the loop: a status, or the error to remember.
    method Contact(server: string, net: Network, lastErr: Option<Error>)
      returns (status: Option<nat>, err: Option<Error>)
      requires Valid()
      modifies this
      ensures Valid() && View() == Visit(old(View()), server, net)
      ensures status == if Answers(old(View()), server, net) then Some(net(server).status) else None
      ensures err == if server in old(View()).failed || net(server).Response? then lastErr
                     else if net(server).Unbuildable? then Some(CannotBuild) else Some(CannotConnect(server))
      ensures var skipped := server in old(failedServers);
              && failedServers.Keys ==
                 old(failedServers).Keys + (if !skipped && net(server).Refused? then {server} else {})
              && currentServer == (if !skipped && net(server).Response? then server else old(currentServer))
              && log == old(log) + if skipped || net(server).Unbuildable? then []
                                   else [Attempt(server, net(server).Response?)]
    {
      status, err := None, lastErr;
      if server in failedServers && failedServers[server] {
        return;
      }
      match net(server)
      case Unbuildable =>
        err := Some(CannotBuild);
      case Refused =>
        failedServers := failedServers[server := true];
        log := log + [Attempt(server, false)];
        err := Some(CannotConnect(server));
      case Response(code) =>
        currentServer := server;
        log := log + [Attempt(server, true)];
        status := Some(code);
    }

    // Walks the servers in order; an HTTP error status is an answer and does not move on to the next server.
    method DoWithFailover(net: Network) returns (r: Result<nat, Error>)
      requires Valid()
      modifies this
      ensures Valid() && View() == Walk(old(View()), AllServers(config), net)
      ensures var servers := AllServers(config);
              var k := FirstAnswering(servers, old(View()).failed, net);
              if k < |servers| then
                var status := net(servers[k]).status;
                r == if status == 401 || status == 403 then Err(Auth)
                     else if status == 404 then Err(NotFound)
                     else if status >= 400 then Err(Api(status))
                     else Ok(status)
              else if servers == [] then r == Err(NoServers)
              else if forall x | x in servers :: x in old(View()).failed then r == Err(AllUnreachable)
              else exists j | 0 <= j < |servers| ::
                     && IsLastTried(servers, old(View()).failed, net, |servers|, j)
                     && r == Err(if net(servers[j]).Unbuildable? then CannotBuild else CannotConnect(servers[j]))
    {
      var servers := GetAllServers(config);
      if |servers| == 0 {
        return Err(NoServers);
      }
      var lastErr, status := None, None;
      ghost var start := View();
      for i := 0 to |servers|
        invariant Valid()
        invariant Underway(start, View(), servers, i, net, lastErr)
      {
        ghost var before, err := View(), lastErr;
        status, lastErr := Contact(servers[i], net, lastErr);
        if status.Some? {
          ReachesAnswer(start, before, servers, i, net, err);
          return HandleResponse(status.value);
        }
        MovesOn(start, before, servers, i, net, err);
      }
      RunsOut(start, View(), servers, net, lastErr);
      r := Err(if lastErr.Some? then lastErr.value else AllUnreachable);
    }
  }
}

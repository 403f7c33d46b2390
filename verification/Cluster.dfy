/**
  Heartbeats, stale marking and primary election over the shared cluster_nodes table.

  A node id stands for its place in the table's collation order, so ids are compared as integers.
  The statement functions below are the single SQL statements of the protocol. `ClusterProtocol` interleaves
  them freely; `ClusterNode` runs them one after another inside one method call.
 */
module ClusterTable {
  import opened Wrappers
  import Sets

  type NodeId = int

  datatype NodeState = Primary | Secondary | Unknown

  // lastHeartbeat is None when the column is NULL or holds a layout the parser does not know.
  datatype Row = Row(state: NodeState, healthy: bool, lastHeartbeat: Option<int>)

  type Table = map<NodeId, Row>

  // How many ids one UPDATE binds.
  const UPDATE_CHUNK_SIZE := 500

  predicate IsHealthy(t: Table, n: NodeId) {
    n in t && t[n].healthy
  }

  function Healthy(t: Table): set<NodeId> {
    set n | n in t && t[n].healthy
  }

  predicate IsStale(t: Table, n: NodeId, cutoff: int) {
    IsHealthy(t, n) && t[n].lastHeartbeat.Some? && t[n].lastHeartbeat.value < cutoff
  }

  predicate IsLeast(n: NodeId, s: set<NodeId>) {
    n in s && forall m | m in s :: n <= m
  }

  lemma {:induction false} LeastExists(s: set<NodeId>)
    requires s != {}
    ensures exists n :: IsLeast(n, s)
  {
    Sets.HasElement(s);
    var x :| x in s;
    if s == {x} {
      assert IsLeast(x, s);
    } else {
      var rest := s - {x};
      assert s == rest + {x};
      LeastExists(rest);
      var m :| IsLeast(m, rest);
      assert IsLeast(if m < x then m else x, s);
    }
  }

  ghost function Least(s: set<NodeId>): (n: NodeId)
    requires s != {}
    ensures IsLeast(n, s)
  {
    LeastExists(s);
    var n :| IsLeast(n, s);
    n
  }

  // UPDATE ... SET last_heartbeat = ?, state = ? WHERE node_id = ?
  function WriteHeartbeat(t: Table, n: NodeId, now: int, state: NodeState): Table {
    if n in t then t[n := t[n].(lastHeartbeat := Some(now), state := state)] else t
  }

  // UPDATE ... SET is_healthy = 0 WHERE node_id IN (...)
  function MarkUnhealthy(t: Table, ids: set<NodeId>): Table {
    map n | n in t :: if n in ids then t[n].(healthy := false) else t[n]
  }

  // UPDATE ... SET state = 'secondary'
  function ClearPrimaries(t: Table): Table {
    map n | n in t :: t[n].(state := Secondary)
  }

  // UPDATE ... SET state = 'primary' WHERE node_id = ?
  function InstallPrimary(t: Table, n: NodeId): Table {
    if n in t then t[n := t[n].(state := Primary)] else t
  }

  // INSERT OR REPLACE ... VALUES (?, ?, 'secondary', ?, 1, ?, ?)
  function RegisterRow(t: Table, n: NodeId, now: int): Table {
    t[n := Row(Secondary, true, Some(now))]
  }

  // UPDATE ... SET is_healthy = 0, state = 'unknown' WHERE node_id = ?
  function UnregisterRow(t: Table, n: NodeId): Table {
    if n in t then t[n := t[n].(healthy := false, state := Unknown)] else t
  }

  // What electPrimary's two UPDATEs leave when nothing runs between its statements.
  ghost function Elected(t: Table): Table {
    if Healthy(t) == {} then t else InstallPrimary(ClearPrimaries(t), Least(Healthy(t)))
  }

  // The same rows with the same health and heartbeats; only states may differ.
  predicate OnlyStatesDiffer(t: Table, t': Table) {
    t'.Keys == t.Keys && forall m | m in t :: t'[m].healthy == t[m].healthy && t'[m].lastHeartbeat == t[m].lastHeartbeat
  }

  predicate SameStates(t: Table, t': Table) {
    t'.Keys == t.Keys && forall m | m in t :: t'[m].state == t[m].state
  }

  // A row that counts as healthy after a check: its heartbeat, if it can be read, is not before the cutoff.
  predicate IsFresh(r: Row, cutoff: int) {
    r.healthy && (r.lastHeartbeat.Some? ==> r.lastHeartbeat.value >= cutoff)
  }

  // n is the least healthy id and the only row, healthy or not, that says primary; every other row is secondary.
  predicate Leads(t: Table, n: NodeId) {
    && n in t && t[n].healthy && (forall m | m in t && t[m].healthy :: n <= m)
    && forall m | m in t :: t[m].state == if m == n then Primary else Secondary
  }

  /** What the two updates of an election do to every row, also to those that are not healthy. */
  lemma ElectedRows(t: Table)
    ensures OnlyStatesDiffer(t, ClearPrimaries(t)) && forall m | m in t :: ClearPrimaries(t)[m].state == Secondary
    ensures Healthy(t) != {} ==> OnlyStatesDiffer(t, Elected(t)) && Leads(Elected(t), Least(Healthy(t)))
  {
    if Healthy(t) != {} {
      assert forall m | m in t && t[m].healthy :: m in Healthy(t);
    }
  }

  ghost predicate HasHealthyPrimary(t: Table, n: NodeId) {
    IsHealthy(t, n) && t[n].state == Primary
  }

  // The single-primary claim about node n: if it still counts as healthy, no healthy id lies below it.
  ghost predicate LeastIfHealthy(t: Table, n: NodeId) {
    IsHealthy(t, n) ==> forall m | IsHealthy(t, m) :: n <= m
  }
}

/**
  Every node runs any number of activities (heartbeats, health checks, elections) at once. One event is one
  SQL statement or one read or write of a node's own currentState.
 */
module ClusterProtocol {
  import opened Wrappers
  import opened ClusterTable

  // An activity of one node, named by the statement it runs next.
  datatype Activity =
    | Beating(node: NodeId, captured: NodeState)
    | Marking(node: NodeId, pending: seq<NodeId>)
    | ReadingPrimary(node: NodeId)
    | Selecting(node: NodeId)
    | Clearing(node: NodeId, target: NodeId)
    | Installing(node: NodeId, target: NodeId)
    | Assigning(node: NodeId, target: NodeId)
  {
    // electPrimary holds the node's lock from its SELECT to its local assignment.
    predicate HoldsLock() {
      Clearing? || Installing? || Assigning?
    }

    // The node this activity will still write down as primary.
    function Claim(): Option<NodeId> {
      match this
      case Beating(n, Primary) => Some(n)
      case Clearing(_, n) => Some(n)
      case Installing(_, n) => Some(n)
      case Assigning(_, n) => Some(n)
      case _ => None
    }
  }

  datatype World = World(table: Table, local: map<NodeId, NodeState>, running: map<nat, Activity>)

  datatype Event =
    | BeginHeartbeat(p: nat, node: NodeId)
    | SendHeartbeat(p: nat, now: int)
    | BeginCheck(p: nat, node: NodeId, cutoff: int, stale: seq<NodeId>)
    | MarkChunk(p: nat)
    | ReadPrimary(p: nat, found: Option<NodeId>)
    | BeginElection(p: nat, node: NodeId)
    | SelectCandidates(p: nat)
    | ClearAll(p: nat)
    | Install(p: nat)
    | AssignLocal(p: nat)
    | Abandon(p: nat)
    | Unregister(node: NodeId)
    | Join(node: NodeId, now: int)

  predicate Running(w: World, p: nat) {
    p in w.running
  }

  // `ReadPrimary` with found == None is a query that returned no row or failed: both lead to an election.
  // `Abandon` is a failed statement, or a node that stops in the middle of an activity.
  ghost predicate Enabled(w: World, e: Event) {
    match e
    case BeginHeartbeat(p, n) => p !in w.running && n in w.local
    case SendHeartbeat(p, _) => Running(w, p) && w.running[p].Beating?
    case BeginCheck(p, n, cutoff, stale) =>
      && p !in w.running && n in w.local
      && forall i :: i in stale <==> IsStale(w.table, i, cutoff)
    case MarkChunk(p) => Running(w, p) && w.running[p].Marking?
    case ReadPrimary(p, found) =>
      && Running(w, p) && w.running[p].ReadingPrimary?
      && (found.Some? ==> found.value in w.table && w.table[found.value].state == Primary)
    case BeginElection(p, n) => p !in w.running && n in w.local
    case SelectCandidates(p) =>
      && Running(w, p) && w.running[p].Selecting?
      && forall q | q in w.running :: w.running[q].HoldsLock() ==> w.running[q].node != w.running[p].node
    case ClearAll(p) => Running(w, p) && w.running[p].Clearing?
    case Install(p) => Running(w, p) && w.running[p].Installing?
    case AssignLocal(p) => Running(w, p) && w.running[p].Assigning?
    case Abandon(p) => Running(w, p)
    case Unregister(_) => true
    case Join(_, _) => true
  }

  function Finish(w: World, p: nat): World {
    w.(running := w.running - {p})
  }

  function Continue(w: World, p: nat, a: Activity): World {
    w.(running := w.running[p := a])
  }

  function Prefix(ids: seq<NodeId>): set<NodeId> {
    set i | 0 <= i < |ids| && i < UPDATE_CHUNK_SIZE :: ids[i]
  }

  ghost function Apply(w: World, e: Event): World
    requires Enabled(w, e)
  {
    match e
    case BeginHeartbeat(p, n) => Continue(w, p, Beating(n, w.local[n]))
    case SendHeartbeat(p, now) =>
      Finish(w.(table := WriteHeartbeat(w.table, w.running[p].node, now, w.running[p].captured)), p)
    case BeginCheck(p, n, _, stale) => Continue(w, p, Marking(n, stale))
    case MarkChunk(p) =>
      var a := w.running[p];
      if |a.pending| == 0 then
        Continue(w, p, ReadingPrimary(a.node))
      else
        var rest := if |a.pending| <= UPDATE_CHUNK_SIZE then [] else a.pending[UPDATE_CHUNK_SIZE..];
        Continue(w.(table := MarkUnhealthy(w.table, Prefix(a.pending))), p, Marking(a.node, rest))
    case ReadPrimary(p, found) =>
      if found.Some? && w.table[found.value].healthy then
        Finish(w, p)
      else
        Continue(w, p, Selecting(w.running[p].node))
    case BeginElection(p, n) => Continue(w, p, Selecting(n))
    case SelectCandidates(p) =>
      if Healthy(w.table) == {} then
        Finish(w, p)
      else
        Continue(w, p, Clearing(w.running[p].node, Least(Healthy(w.table))))
    case ClearAll(p) =>
      var a := w.running[p];
      Continue(w.(table := ClearPrimaries(w.table)), p, Installing(a.node, a.target))
    case Install(p) =>
      var a := w.running[p];
      Continue(w.(table := InstallPrimary(w.table, a.target)), p, Assigning(a.node, a.target))
    case AssignLocal(p) =>
      var a := w.running[p];
      Finish(w.(local := w.local[a.node := if a.target == a.node then Primary else Secondary]), p)
    case Abandon(p) => Finish(w, p)
    case Unregister(n) => w.(table := UnregisterRow(w.table, n))
    case Join(n, now) => w.(table := RegisterRow(w.table, n, now), local := w.local[n := Unknown])
  }

  // An event that is not enabled leaves the world alone, so every event sequence is a run.
  ghost function Step(w: World, e: Event): World {
    if Enabled(w, e) then Apply(w, e) else w
  }

  ghost function Execute(w: World, es: seq<Event>): World
    decreases |es|
  {
    if es == [] then w else Execute(Step(w, es[0]), es[1..])
  }

  ghost predicate Claims(w: World, n: NodeId) {
    || (n in w.table && w.table[n].state == Primary)
    || (n in w.local && w.local[n] == Primary)
    || exists p | p in w.running :: w.running[p].Claim() == Some(n)
  }

  // A starting world: no activity yet, no node believes it is primary, no healthy row says so.
  ghost predicate Fresh(w: World) {
    && w.running == map[]
    && (forall n | n in w.local :: w.local[n] != Primary)
    && forall n | IsHealthy(w.table, n) :: w.table[n].state != Primary
  }

  // The inductive invariant: whoever is primary anywhere and still healthy is the least healthy id.
  ghost predicate Inv(w: World) {
    && (forall n | n in w.table :: w.table[n].state == Primary ==> LeastIfHealthy(w.table, n))
    && (forall n | n in w.local :: w.local[n] == Primary ==> LeastIfHealthy(w.table, n))
    && (forall p | p in w.running :: w.running[p].Claim().Some? ==> LeastIfHealthy(w.table, w.running[p].Claim().value))
  }

  // n was healthy already, or some healthy id lies below it, or nobody else healthy is primary in any sense.
  ghost predicate OthersYield(w: World, n: NodeId) {
    || IsHealthy(w.table, n)
    || (exists m :: IsHealthy(w.table, m) && m < n)
    || (forall c | IsHealthy(w.table, c) && Claims(w, c) :: c == n)
  }

  // No activity started before the join will still write n down as primary.
  ghost predicate NoPendingClaim(w: World, n: NodeId) {
    forall p | p in w.running :: w.running[p].Claim() != Some(n)
  }

  // What a joining node must check: that the others yield, and that no old activity writes it down as primary while
  // some healthy id lies below it.
  ghost predicate JoinIsSafe(w: World, n: NodeId) {
    OthersYield(w, n) && (NoPendingClaim(w, n) || forall m | IsHealthy(w.table, m) :: n <= m)
  }

  ghost predicate JoinsAreSafe(w: World, es: seq<Event>)
    decreases |es|
  {
    es == [] || ((es[0].Join? ==> JoinIsSafe(w, es[0].node)) && JoinsAreSafe(Step(w, es[0]), es[1..]))
  }

  ghost predicate NoJoins(es: seq<Event>) {
    forall e | e in es :: !e.Join?
  }

  // ---- The invariant ----

  lemma ShrinkKeepsLeast(t: Table, t': Table)
    requires forall n | IsHealthy(t', n) :: IsHealthy(t, n)
    ensures forall n | LeastIfHealthy(t, n) :: LeastIfHealthy(t', n)
  {
  }

  /** Every statement but a registration only ever shrinks the set of healthy ids. */
  lemma HealthOnlyShrinks(w: World, e: Event)
    requires !e.Join?
    ensures forall n | IsHealthy(Step(w, e).table, n) :: IsHealthy(w.table, n)
  {
  }

  // A new target is the least healthy id.
  lemma SelectKeepsInv(w: World, p: nat)
    requires Inv(w)
    ensures Inv(Step(w, SelectCandidates(p)))
  {
    if Enabled(w, SelectCandidates(p)) && Healthy(w.table) != {} {
      assert forall m | IsHealthy(w.table, m) :: m in Healthy(w.table);
      assert LeastIfHealthy(w.table, Least(Healthy(w.table)));
    }
  }

  // The updates move a target's claim to the table.
  lemma ElectionKeepsInv(w: World, e: Event)
    requires Inv(w) && (e.ClearAll? || e.Install?)
    ensures Inv(Step(w, e))
  {
    HealthOnlyShrinks(w, e);
    ShrinkKeepsLeast(w.table, Step(w, e).table);
  }

  // Then its claim moves from the activity to the local state.
  lemma AssignKeepsInv(w: World, p: nat)
    requires Inv(w)
    ensures Inv(Step(w, AssignLocal(p)))
  {
  }

  lemma CheckKeepsInv(w: World, e: Event)
    requires Inv(w) && (e.BeginCheck? || e.MarkChunk? || e.ReadPrimary? || e.BeginElection?)
    ensures Inv(Step(w, e))
  {
    HealthOnlyShrinks(w, e);
    ShrinkKeepsLeast(w.table, Step(w, e).table);
  }

  lemma OwnRowKeepsInv(w: World, e: Event)
    requires Inv(w) && (e.BeginHeartbeat? || e.SendHeartbeat? || e.Abandon? || e.Unregister?)
    ensures Inv(Step(w, e))
  {
    HealthOnlyShrinks(w, e);
    ShrinkKeepsLeast(w.table, Step(w, e).table);
  }

  lemma StepKeepsInv(w: World, e: Event)
    requires Inv(w) && !e.Join?
    ensures Inv(Step(w, e))
  {
    match e
    case SelectCandidates(p) => SelectKeepsInv(w, p);
    case ClearAll(_) => ElectionKeepsInv(w, e);
    case Install(_) => ElectionKeepsInv(w, e);
    case AssignLocal(p) => AssignKeepsInv(w, p);
    case BeginCheck(_, _, _, _) => CheckKeepsInv(w, e);
    case MarkChunk(_) => CheckKeepsInv(w, e);
    case ReadPrimary(_, _) => CheckKeepsInv(w, e);
    case BeginElection(_, _) => CheckKeepsInv(w, e);
    case _ => OwnRowKeepsInv(w, e);
  }

  /** A registration keeps the invariant exactly when the joining id passes the test of JoinIsSafe. */
  lemma JoinKeepsInvIff(w: World, n: NodeId, now: int)
    requires Inv(w)
    ensures Inv(Step(w, Join(n, now))) <==> JoinIsSafe(w, n)
  {
    var w' := Step(w, Join(n, now));
    assert forall m :: IsHealthy(w'.table, m) <==> m == n || IsHealthy(w.table, m);
    assert forall c :: Claims(w, c) ==> LeastIfHealthy(w.table, c);
    assert forall c | c != n :: Claims(w', c) <==> Claims(w, c);
    assert Inv(w') <==> forall c | Claims(w', c) :: LeastIfHealthy(w'.table, c) by { InvByClaims(w'); }
    assert Claims(w', n) <==> !NoPendingClaim(w, n);
    if JoinIsSafe(w, n) {
      forall c | Claims(w', c)
        ensures LeastIfHealthy(w'.table, c)
      {
        assert c != n ==> LeastIfHealthy(w.table, c);
      }
    } else if OthersYield(w, n) {
      assert Claims(w', n) && !LeastIfHealthy(w'.table, n);
    } else {
      var c :| IsHealthy(w.table, c) && Claims(w, c) && c != n;
      assert IsHealthy(w'.table, n) && n < c;
      assert Claims(w', c) && !LeastIfHealthy(w'.table, c);
    }
  }

  lemma InvByClaims(w: World)
    ensures Inv(w) <==> forall c | Claims(w, c) :: LeastIfHealthy(w.table, c)
  {
    assert forall p | p in w.running && w.running[p].Claim().Some? :: Claims(w, w.running[p].Claim().value);
  }

  lemma {:induction false} RunKeepsInv(w: World, es: seq<Event>)
    requires Inv(w) && JoinsAreSafe(w, es)
    ensures Inv(Execute(w, es))
    decreases |es|
  {
    if es != [] {
      if es[0].Join? {
        JoinKeepsInvIff(w, es[0].node, es[0].now);
      } else {
        StepKeepsInv(w, es[0]);
      }
      RunKeepsInv(Step(w, es[0]), es[1..]);
    }
  }

  /**
    Safety over whole runs: from a world where nobody is primary, after any interleaving of single statements,
    at most one healthy node is primary in its row, in its own state, in a heartbeat about to be written or as
    the target of an election in progress - and it is the least healthy id.
   */
  lemma AtMostOneHealthyPrimary(w: World, es: seq<Event>, a: NodeId, b: NodeId)
    requires Fresh(w) && JoinsAreSafe(w, es)
    requires IsHealthy(Execute(w, es).table, a) && Claims(Execute(w, es), a)
    requires IsHealthy(Execute(w, es).table, b) && Claims(Execute(w, es), b)
    ensures a == b && IsLeast(a, Healthy(Execute(w, es).table))
  {
    RunKeepsInv(w, es);
    var v := Execute(w, es);
    assert LeastIfHealthy(v.table, a) && LeastIfHealthy(v.table, b);
    assert forall m :: m in Healthy(v.table) <==> IsHealthy(v.table, m);
  }

  // ---- The invariant is exact ----

  // No two healthy nodes are primary in any sense.
  ghost predicate SingleClaim(w: World) {
    forall a, b | IsHealthy(w.table, a) && Claims(w, a) && IsHealthy(w.table, b) && Claims(w, b) :: a == b
  }

  // n runs and does not hold its lock.
  ghost predicate CanElect(w: World, n: NodeId) {
    n in w.local && forall q | q in w.running :: w.running[q].HoldsLock() ==> w.running[q].node != n
  }

  lemma {:induction false} UnusedActivity(used: set<nat>) returns (p: nat)
    ensures forall q | q in used :: q < p
  {
    if used == {} {
      p := 0;
    } else {
      var q :| q in used;
      assert used == (used - {q}) + {q};
      p := UnusedActivity(used - {q});
      p := if p <= q then q + 1 else p;
    }
  }

  lemma {:induction false} RunWithoutJoins(w: World, es: seq<Event>)
    requires NoJoins(es)
    ensures JoinsAreSafe(w, es)
    decreases |es|
  {
    if es != [] {
      assert es[0] in es && forall e | e in es[1..] :: e in es;
      RunWithoutJoins(Step(w, es[0]), es[1..]);
    }
  }

  lemma InvGivesSingleClaim(w: World)
    requires Inv(w)
    ensures SingleClaim(w)
  {
    InvByClaims(w);
  }

  // A healthy claim above the least healthy id meets the claim of an election's target.
  lemma BrokenInvShows(w: World, n: NodeId) returns (es: seq<Event>)
    requires !Inv(w) && CanElect(w, n)
    ensures NoJoins(es) && !SingleClaim(Execute(w, es))
  {
    InvByClaims(w);
    var c :| Claims(w, c) && !LeastIfHealthy(w.table, c);
    var p := UnusedActivity(w.running.Keys);
    var m :| IsHealthy(w.table, m) && m < c;
    assert m in Healthy(w.table) && c in Healthy(w.table);
    var t := Least(Healthy(w.table));
    es := [BeginElection(p, n), SelectCandidates(p)];
    SelectedTarget(w, p, n);
    var w' := World(w.table, w.local, w.running[p := Clearing(n, t)]);
    assert w'.running[p].Claim() == Some(t) && Claims(w', t);
    ClaimSurvives(w, c, p, Clearing(n, t));
  }

  lemma SelectedTarget(w: World, p: nat, n: NodeId)
    requires p !in w.running && CanElect(w, n) && Healthy(w.table) != {}
    ensures Execute(w, [BeginElection(p, n), SelectCandidates(p)]) ==
            World(w.table, w.local, w.running[p := Clearing(n, Least(Healthy(w.table)))])
  {
    var w1 := Continue(w, p, Selecting(n));
    assert Step(w, BeginElection(p, n)) == w1;
    assert [BeginElection(p, n), SelectCandidates(p)] == [BeginElection(p, n)] + ([SelectCandidates(p)] + []);
    ExecuteCons(w, BeginElection(p, n), [SelectCandidates(p)] + []);
    ExecuteCons(w1, SelectCandidates(p), []);
    assert w1.running[p := Clearing(n, Least(Healthy(w.table)))] ==
           w.running[p := Clearing(n, Least(Healthy(w.table)))];
  }

  lemma ClaimSurvives(w: World, c: NodeId, p: nat, a: Activity)
    requires Claims(w, c) && p !in w.running
    ensures Claims(World(w.table, w.local, w.running[p := a]), c)
  {
    var w' := World(w.table, w.local, w.running[p := a]);
    if q :| q in w.running && w.running[q].Claim() == Some(c) {
      assert q in w'.running && w'.running[q].Claim() == Some(c);
    }
  }

  /**
    The invariant says no more than safety needs: where some node can elect, it holds exactly when no run without
    joins ever shows two healthy primaries.
   */
  lemma InvIsExact(w: World, n: NodeId)
    requires CanElect(w, n)
    ensures Inv(w) <==> forall es | NoJoins(es) :: SingleClaim(Execute(w, es))
  {
    if Inv(w) {
      forall es | NoJoins(es)
        ensures SingleClaim(Execute(w, es))
      {
        RunWithoutJoins(w, es);
        RunKeepsInv(w, es);
        InvGivesSingleClaim(Execute(w, es));
      }
    } else {
      var es := BrokenInvShows(w, n);
    }
  }

  /** A join is harmless to every run that follows exactly when it passes the test of JoinIsSafe. */
  lemma JoinIsHarmlessIff(w: World, n: NodeId, now: int, m: NodeId)
    requires Inv(w) && CanElect(Step(w, Join(n, now)), m)
    ensures JoinIsSafe(w, n) <==> forall es | NoJoins(es) :: SingleClaim(Execute(Step(w, Join(n, now)), es))
  {
    JoinKeepsInvIff(w, n, now);
    InvIsExact(Step(w, Join(n, now)), m);
  }

  // ---- A join below the least healthy id ----

  lemma LeastOf(s: set<NodeId>, n: NodeId)
    requires IsLeast(n, s)
    ensures Least(s) == n
  {
  }

  // One heartbeat.
  function Beat(p: nat, n: NodeId, now: int): seq<Event> {
    [BeginHeartbeat(p, n), SendHeartbeat(p, now)]
  }

  // electPrimary's events run back to back.
  function ElectionEvents(p: nat, n: NodeId): seq<Event> {
    [BeginElection(p, n), SelectCandidates(p), ClearAll(p), Install(p), AssignLocal(p)]
  }

  lemma {:induction false} ExecuteConcat(w: World, es: seq<Event>, fs: seq<Event>)
    ensures Execute(w, es + fs) == Execute(Execute(w, es), fs)
    decreases |es|
  {
    if es == [] {
      assert es + fs == fs;
    } else {
      assert (es + fs)[1..] == es[1..] + fs;
      ExecuteConcat(Step(w, es[0]), es[1..], fs);
    }
  }

  lemma ExecuteCons(w: World, e: Event, es: seq<Event>)
    ensures Execute(w, [e] + es) == Execute(Step(w, e), es)
  {
    assert ([e] + es)[1..] == es;
  }

  // electPrimary's statements from its SELECT to its last UPDATE.
  lemma ElectionStatements(w: World, p: nat, n: NodeId)
    requires Running(w, p) && w.running[p] == Selecting(n) && Healthy(w.table) != {}
    requires forall q | q in w.running :: w.running[q].HoldsLock() ==> w.running[q].node != n
    ensures var t := Least(Healthy(w.table));
            Step(Step(Step(w, SelectCandidates(p)), ClearAll(p)), Install(p)) ==
              World(InstallPrimary(ClearPrimaries(w.table), t), w.local, w.running[p := Assigning(n, t)])
  {
    var t := Least(Healthy(w.table));
    var w1 := Continue(w, p, Clearing(n, t));
    assert Step(w, SelectCandidates(p)) == w1;
    var w2 := World(ClearPrimaries(w.table), w.local, w.running[p := Installing(n, t)]);
    assert Step(w1, ClearAll(p)) == w2;
    assert Step(w2, Install(p)) == World(InstallPrimary(w2.table, t), w.local, w.running[p := Assigning(n, t)]);
  }

  lemma ExecuteFive(w: World, es: seq<Event>)
    requires |es| == 5
    ensures Execute(w, es) == Step(Step(Step(Step(Step(w, es[0]), es[1]), es[2]), es[3]), es[4])
  {
    assert es == [es[0]] + ([es[1]] + ([es[2]] + ([es[3]] + ([es[4]] + []))));
    ExecuteCons(w, es[0], [es[1]] + ([es[2]] + ([es[3]] + ([es[4]] + []))));
    var w1 := Step(w, es[0]);
    ExecuteCons(w1, es[1], [es[2]] + ([es[3]] + ([es[4]] + [])));
    var w2 := Step(w1, es[1]);
    ExecuteCons(w2, es[2], [es[3]] + ([es[4]] + []));
    var w3 := Step(w2, es[2]);
    ExecuteCons(w3, es[3], [es[4]] + []);
    ExecuteCons(Step(w3, es[3]), es[4], []);
  }

  ghost function ElectionResult(w: World, n: NodeId): World
    requires Healthy(w.table) != {}
  {
    var t := Least(Healthy(w.table));
    World(Elected(w.table), w.local[n := if t == n then Primary else Secondary], w.running)
  }

  lemma ElectionSteps(w: World, p: nat, n: NodeId)
    requires p !in w.running && n in w.local && Healthy(w.table) != {}
    requires forall q | q in w.running :: w.running[q].HoldsLock() ==> w.running[q].node != n
    ensures var selecting := Step(Step(w, BeginElection(p, n)), SelectCandidates(p));
            Step(Step(Step(selecting, ClearAll(p)), Install(p)), AssignLocal(p)) == ElectionResult(w, n)
  {
    BeginStep(w, p, n);
    ElectionStatements(Continue(w, p, Selecting(n)), p, n);
    AssignStep(w, p, n);
  }

  lemma BeginStep(w: World, p: nat, n: NodeId)
    requires p !in w.running && n in w.local
    requires forall q | q in w.running :: w.running[q].HoldsLock() ==> w.running[q].node != n
    ensures Step(w, BeginElection(p, n)) == Continue(w, p, Selecting(n))
  {
  }

  lemma AssignStep(w: World, p: nat, n: NodeId)
    requires p !in w.running && n in w.local && Healthy(w.table) != {}
    ensures var t := Least(Healthy(w.table));
            var installed := World(Elected(w.table), w.local, w.running[p := Selecting(n)][p := Assigning(n, t)]);
            Step(installed, AssignLocal(p)) == ElectionResult(w, n)
  {
    var running := w.running[p := Selecting(n)][p := Assigning(n, Least(Healthy(w.table)))];
    assert running - {p} == w.running;
  }

  /** An election that nothing interleaves leaves one primary row, the least healthy id, and no activity behind. */
  lemma UninterleavedElection(w: World, p: nat, n: NodeId)
    requires p !in w.running && n in w.local && Healthy(w.table) != {}
    requires forall q | q in w.running :: w.running[q].HoldsLock() ==> w.running[q].node != n
    ensures Execute(w, ElectionEvents(p, n)) == ElectionResult(w, n)
    ensures var w', t := Execute(w, ElectionEvents(p, n)), Least(Healthy(w.table));
            && OnlyStatesDiffer(w.table, w'.table) && Leads(w'.table, t)
            && w'.local == w.local[n := if t == n then Primary else Secondary] && w'.running == w.running
  {
    ElectionSteps(w, p, n);
    ExecuteFive(w, ElectionEvents(p, n));
    ElectedRows(w.table);
  }

  // The marking statements of one check: one for every chunk, and a look that finds none left.
  function Marks(p: nat, pending: nat): seq<Event> {
    [MarkChunk(p)] + if pending == 0 then [] else Marks(p, if pending <= 500 then 0 else pending - 500)
  }

  lemma {:induction false} MarksRun(w: World, p: nat, n: NodeId, pending: seq<NodeId>)
    requires p in w.running && w.running[p] == Marking(n, pending)
    ensures Execute(w, Marks(p, |pending|)) ==
            World(MarkUnhealthy(w.table, set i | i in pending), w.local, w.running[p := ReadingPrimary(n)])
    decreases |pending|
  {
    if pending == [] {
      ExecuteCons(w, MarkChunk(p), []);
      assert Step(w, MarkChunk(p)) == Continue(w, p, ReadingPrimary(n));
      assert MarkUnhealthy(w.table, set i | i in pending) == w.table;
    } else {
      var rest := if |pending| <= 500 then [] else pending[500..];
      var w' := World(MarkUnhealthy(w.table, Prefix(pending)), w.local, w.running[p := Marking(n, rest)]);
      assert Step(w, MarkChunk(p)) == w';
      ExecuteCons(w, MarkChunk(p), Marks(p, |rest|));
      MarksRun(w', p, n, rest);
      MarkRest(w.table, pending, rest);
    }
  }

  lemma MarkRest(t: Table, pending: seq<NodeId>, rest: seq<NodeId>)
    requires rest == if |pending| <= 500 then [] else pending[500..]
    ensures MarkUnhealthy(MarkUnhealthy(t, Prefix(pending)), set i | i in rest) ==
            MarkUnhealthy(t, set i | i in pending)
  {
    var front := if |pending| <= 500 then pending else pending[..500];
    assert pending == front + rest;
    assert forall i | 0 <= i < |front| :: pending[i] == front[i];
    assert Prefix(pending) == set i | i in front;
  }

  /**
    The statements of a check up to its query for the primary, when nothing interleaves, mark exactly the stale nodes;
    after the query it ends if the primary it found is healthy and goes on to an election otherwise.
   */
  lemma UninterleavedCheck(w: World, p: nat, n: NodeId, cutoff: int, stale: seq<NodeId>)
    requires p !in w.running && n in w.local
    requires forall i :: i in stale <==> IsStale(w.table, i, cutoff)
    ensures var w' := Execute(w, [BeginCheck(p, n, cutoff, stale)] + Marks(p, |stale|));
            && SameStates(w.table, w'.table) && w'.local == w.local && w'.running == w.running[p := ReadingPrimary(n)]
            && (forall m | m in w.table ::
                  w'.table[m].lastHeartbeat == w.table[m].lastHeartbeat &&
                  w'.table[m].healthy == IsFresh(w.table[m], cutoff))
            && (forall found: Option<NodeId> | Enabled(w', ReadPrimary(p, found)) ::
                  Step(w', ReadPrimary(p, found)) ==
                  World(w'.table, w.local,
                        if found.Some? && w'.table[found.value].healthy then w.running
                        else w.running[p := Selecting(n)]))
  {
    CheckRun(w, p, n, cutoff, stale);
    var w' := Execute(w, [BeginCheck(p, n, cutoff, stale)] + Marks(p, |stale|));
    forall found: Option<NodeId> | Enabled(w', ReadPrimary(p, found))
      ensures Step(w', ReadPrimary(p, found)) ==
              World(w'.table, w.local,
                    if found.Some? && w'.table[found.value].healthy then w.running else w.running[p := Selecting(n)])
    {
      ReadStep(w, w', p, n, found);
    }
  }

  lemma BeginCheckStep(w: World, p: nat, n: NodeId, cutoff: int, stale: seq<NodeId>)
    requires p !in w.running && n in w.local
    requires forall i :: i in stale <==> IsStale(w.table, i, cutoff)
    ensures Step(w, BeginCheck(p, n, cutoff, stale)) == Continue(w, p, Marking(n, stale))
  {
  }

  lemma CheckRun(w: World, p: nat, n: NodeId, cutoff: int, stale: seq<NodeId>)
    requires p !in w.running && n in w.local
    requires forall i :: i in stale <==> IsStale(w.table, i, cutoff)
    ensures Execute(w, [BeginCheck(p, n, cutoff, stale)] + Marks(p, |stale|)) ==
            World(MarkUnhealthy(w.table, set i | i in stale), w.local, w.running[p := ReadingPrimary(n)])
  {
    var begun := Continue(w, p, Marking(n, stale));
    ExecuteCons(w, BeginCheck(p, n, cutoff, stale), Marks(p, |stale|));
    BeginCheckStep(w, p, n, cutoff, stale);
    MarksRun(begun, p, n, stale);
    assert begun.running[p := ReadingPrimary(n)] == w.running[p := ReadingPrimary(n)];
  }

  lemma ReadStep(w: World, w': World, p: nat, n: NodeId, found: Option<NodeId>)
    requires p !in w.running && w'.running == w.running[p := ReadingPrimary(n)] && w'.local == w.local
    requires Enabled(w', ReadPrimary(p, found))
    ensures Step(w', ReadPrimary(p, found)) ==
            World(w'.table, w.local,
                  if found.Some? && w'.table[found.value].healthy then w.running else w.running[p := Selecting(n)])
  {
    assert w'.running - {p} == w.running && w'.running[p := Selecting(n)] == w.running[p := Selecting(n)];
  }

  // A heartbeat that nothing interleaves writes the node's own state and the time to its row, if there is one.
  lemma UninterleavedHeartbeat(w: World, p: nat, n: NodeId, now: int)
    requires p !in w.running && n in w.local
    ensures Execute(w, Beat(p, n, now)).table == WriteHeartbeat(w.table, n, now, w.local[n])
    ensures var t' := Execute(w, Beat(p, n, now)).table;
            t'.Keys == w.table.Keys &&
            forall m | m in t' ::
              t'[m] == if m == n then Row(w.local[n], w.table[n].healthy, Some(now)) else w.table[m]
  {
    var es := Beat(p, n, now);
    var w1 := Continue(w, p, Beating(n, w.local[n]));
    assert Step(w, es[0]) == w1;
    assert es == [es[0]] + ([es[1]] + []);
    ExecuteCons(w, es[0], [es[1]] + []);
    ExecuteCons(w1, es[1], []);
  }

  // Node 2 runs alone; then after node 2's election, after the join, after node 1's election.
  function JoinBelowWorld(k: nat): World {
    if k == 0 then World(map[2 := Row(Secondary, true, Some(0))], map[2 := Unknown], map[])
    else if k == 1 then World(map[2 := Row(Primary, true, Some(0))], map[2 := Primary], map[])
    else if k == 2 then
      World(map[1 := Row(Secondary, true, Some(10)), 2 := Row(Primary, true, Some(0))],
            map[1 := Unknown, 2 := Primary], map[])
    else
      World(map[1 := Row(Primary, true, Some(10)), 2 := Row(Secondary, true, Some(0))],
            map[1 := Primary, 2 := Primary], map[])
  }

  lemma JoinBelowElections()
    ensures Healthy(JoinBelowWorld(0).table) == {2} && ElectionResult(JoinBelowWorld(0), 2) == JoinBelowWorld(1)
    ensures Healthy(JoinBelowWorld(2).table) == {1, 2} && ElectionResult(JoinBelowWorld(2), 1) == JoinBelowWorld(3)
  {
    LeastOf({2}, 2);
    LeastOf({1, 2}, 1);
    assert Healthy(JoinBelowWorld(0).table) == {2};
    assert Healthy(JoinBelowWorld(2).table) == {1, 2};
  }

  lemma JoinBelowJoin()
    ensures Step(JoinBelowWorld(1), Join(1, 10)) == JoinBelowWorld(2)
  {
  }

  lemma ElectionRun(w: World, p: nat, n: NodeId) returns (es: seq<Event>)
    requires p !in w.running && n in w.local && Healthy(w.table) != {}
    requires forall q | q in w.running :: w.running[q].HoldsLock() ==> w.running[q].node != n
    ensures Execute(w, es) == ElectionResult(w, n)
  {
    es := ElectionEvents(p, n);
    UninterleavedElection(w, p, n);
  }

  lemma HeartbeatRun(w: World, p: nat, n: NodeId, now: int) returns (es: seq<Event>)
    requires p !in w.running && n in w.local
    ensures Execute(w, es).table == WriteHeartbeat(w.table, n, now, w.local[n])
  {
    es := Beat(p, n, now);
    UninterleavedHeartbeat(w, p, n, now);
  }

  /**
    Without the join test the single-primary law fails: node 2 is elected, node 1 joins and elects itself, and
    node 2's next heartbeat still says primary, so two healthy rows do.
   */
  lemma JoinBelowBreaksSafety() returns (es: seq<Event>)
    ensures Fresh(JoinBelowWorld(0))
    ensures var t := Execute(JoinBelowWorld(0), es).table;
            HasHealthyPrimary(t, 1) && HasHealthyPrimary(t, 2)
  {
    JoinBelowElections();
    JoinBelowJoin();
    var first := ElectionRun(JoinBelowWorld(0), 0, 2);
    var second := ElectionRun(JoinBelowWorld(2), 0, 1);
    var beat := HeartbeatRun(JoinBelowWorld(3), 0, 2, 20);
    ExecuteConcat(JoinBelowWorld(2), second, beat);
    ExecuteCons(JoinBelowWorld(1), Join(1, 10), second + beat);
    ExecuteConcat(JoinBelowWorld(0), first, [Join(1, 10)] + (second + beat));
    es := first + ([Join(1, 10)] + (second + beat));
  }

  // ---- How often the primary can move ----

  // The healthy primaries seen along a run, one entry for each moment that has one.
  ghost function Primaries(w: World, es: seq<Event>): seq<NodeId>
    decreases |es|
  {
    (if exists n :: HasHealthyPrimary(w.table, n) then var n :| HasHealthyPrimary(w.table, n); [n] else []) +
    if es == [] then [] else Primaries(Step(w, es[0]), es[1..])
  }

  // The targets of the elections of a run, in the order of their candidate SELECTs.
  ghost function Targets(w: World, es: seq<Event>): seq<NodeId>
    decreases |es|
  {
    if es == [] then [] else
      (if es[0].SelectCandidates? && Enabled(w, es[0]) && Healthy(w.table) != {} then [Least(Healthy(w.table))]
       else []) +
      Targets(Step(w, es[0]), es[1..])
  }

  predicate NonDecreasing(s: seq<NodeId>) {
    forall i, j | 0 <= i < j < |s| :: s[i] <= s[j]
  }

  function Changes(s: seq<NodeId>): nat {
    if |s| < 2 then 0 else (if s[0] != s[1] then 1 else 0) + Changes(s[1..])
  }

  lemma {:induction false} ChangesBelowSize(s: seq<NodeId>, from: set<NodeId>)
    requires s != [] && NonDecreasing(s) && forall x | x in s :: x in from
    ensures Changes(s) < |from|
    decreases |s|
  {
    if |s| < 2 {
      assert s[0] in from;
    } else if s[0] == s[1] {
      ChangesBelowSize(s[1..], from);
    } else {
      forall x | x in s[1..]
        ensures x in from - {s[0]}
      {
        var i :| 0 <= i < |s[1..]| && s[1..][i] == x;
        assert s[1] <= s[1 + i];
      }
      ChangesBelowSize(s[1..], from - {s[0]});
      assert s[0] in from;
    }
  }

  lemma {:induction false} TargetsMoveUp(w: World, es: seq<Event>)
    requires NoJoins(es)
    ensures NonDecreasing(Targets(w, es))
    ensures forall t | t in Targets(w, es) :: t in Healthy(w.table)
    decreases |es|
  {
    if es != [] {
      HealthOnlyShrinks(w, es[0]);
      assert forall n | n in Healthy(Step(w, es[0]).table) :: IsHealthy(w.table, n);
      var rest := Targets(Step(w, es[0]), es[1..]);
      TargetsMoveUp(Step(w, es[0]), es[1..]);
      if Targets(w, es) != rest {
        LeastInFront(Least(Healthy(w.table)), rest);
      }
    }
  }

  lemma LeastInFront(n: NodeId, rest: seq<NodeId>)
    requires NonDecreasing(rest) && forall t | t in rest :: n <= t
    ensures NonDecreasing([n] + rest)
  {
    var all := [n] + rest;
    forall i, j | 0 <= i < j < |all|
      ensures all[i] <= all[j]
    {
      assert all[j] == rest[j - 1] && rest[j - 1] in rest;
    }
  }

  lemma {:induction false} PrimariesMoveUp(w: World, es: seq<Event>)
    requires Inv(w) && NoJoins(es)
    ensures NonDecreasing(Primaries(w, es))
    ensures forall n | n in Primaries(w, es) :: n in Healthy(w.table)
    decreases |es|
  {
    if es != [] {
      HealthOnlyShrinks(w, es[0]);
      assert forall n | n in Healthy(Step(w, es[0]).table) :: IsHealthy(w.table, n);
      StepKeepsInv(w, es[0]);
      var rest := Primaries(Step(w, es[0]), es[1..]);
      PrimariesMoveUp(Step(w, es[0]), es[1..]);
      var all := Primaries(w, es);
      if all != rest {
        assert all == [all[0]] + rest && HasHealthyPrimary(w.table, all[0]);
        PrimaryIsLeast(w, all[0]);
        LeastInFront(all[0], rest);
      }
    }
  }

  lemma PrimaryIsLeast(w: World, n: NodeId)
    requires Inv(w) && HasHealthyPrimary(w.table, n)
    ensures IsLeast(n, Healthy(w.table))
  {
    assert forall m :: m in Healthy(w.table) <==> IsHealthy(w.table, m);
  }

  /**
    Without joins the primary only moves up: election targets, and the healthy primaries seen in the table, never
    go back to a lower id, so each changes fewer times than there were healthy nodes.
   */
  lemma PrimaryMovementIsBounded(w: World, es: seq<Event>)
    requires Inv(w) && NoJoins(es)
    ensures NonDecreasing(Targets(w, es)) && NonDecreasing(Primaries(w, es))
    ensures Targets(w, es) != [] ==> Changes(Targets(w, es)) < |Healthy(w.table)|
    ensures Primaries(w, es) != [] ==> Changes(Primaries(w, es)) < |Healthy(w.table)|
  {
    TargetsMoveUp(w, es);
    PrimariesMoveUp(w, es);
    if Targets(w, es) != [] {
      ChangesBelowSize(Targets(w, es), Healthy(w.table));
    }
    if Primaries(w, es) != [] {
      ChangesBelowSize(Primaries(w, es), Healthy(w.table));
    }
  }
}

/** One node's manager, its statements run one after another against the shared table. */
module ClusterNode {
  import opened Wrappers
  import Sets
  import opened ClusterTable

  // The shared table behind a connection that refuses some statements.
  class NodeTable {
    var rows: Table
    var executed: nat
    const fails: nat -> bool

    constructor (fails: nat -> bool)
      ensures rows == map[] && executed == 0 && this.fails == fails
    {
      rows, executed := map[], 0;
      this.fails := fails;
    }

    // Sends one more statement; the caller has its effect if it is not refused.
    method Send() returns (ok: bool)
      modifies this`executed
      ensures executed == old(executed) + 1 && ok == !fails(old(executed))
    {
      ok := !fails(executed);
      executed := executed + 1;
    }
  }

  // The ids one UPDATE binds.
  function Bound(ids: seq<NodeId>): set<NodeId> {
    set i | i in ids
  }

  function Stale(t: Table, cutoff: int): set<NodeId> {
    set n | n in t && IsStale(t, n, cutoff)
  }

  // Healthy primary rows are the least healthy id; the part of the protocol invariant that a table shows.
  ghost predicate RowsAgree(t: Table) {
    forall n | n in t :: t[n].state == Primary ==> LeastIfHealthy(t, n)
  }

  ghost predicate OnlyPrimary(t: Table, n: NodeId) {
    && IsHealthy(t, n) && t[n].state == Primary
    && forall m | IsHealthy(t, m) && t[m].state == Primary :: m == n
  }

  // A healthy node exists, and exactly the least one is a healthy primary.
  ghost predicate IsLed(t: Table) {
    Healthy(t) != {} && OnlyPrimary(t, Least(Healthy(t)))
  }

  ghost predicate AllPrimariesHealthy(t: Table) {
    forall n | n in t && t[n].state == Primary :: t[n].healthy
  }

  // ---- What each statement keeps ----

  lemma HeartbeatKeepsAgreement(t: Table, n: NodeId, now: int, state: NodeState)
    requires RowsAgree(t) && (state == Primary ==> LeastIfHealthy(t, n))
    ensures RowsAgree(WriteHeartbeat(t, n, now, state))
  {
    var t' := WriteHeartbeat(t, n, now, state);
    assert forall m :: IsHealthy(t', m) <==> IsHealthy(t, m);
    assert forall m :: LeastIfHealthy(t, m) ==> LeastIfHealthy(t', m);
  }

  lemma UnregisterKeepsAgreement(t: Table, n: NodeId)
    requires RowsAgree(t)
    ensures RowsAgree(UnregisterRow(t, n))
  {
    var t' := UnregisterRow(t, n);
    assert forall m :: IsHealthy(t', m) ==> IsHealthy(t, m);
    assert forall m :: LeastIfHealthy(t, m) ==> LeastIfHealthy(t', m);
  }

  /** A registration keeps the rows in agreement exactly when no healthy primary has a greater id. */
  lemma RegisterKeepsAgreementIff(t: Table, n: NodeId, now: int)
    requires RowsAgree(t)
    ensures RowsAgree(RegisterRow(t, n, now)) <==> forall m | HasHealthyPrimary(t, m) && m != n :: m <= n
  {
    var t' := RegisterRow(t, n, now);
    assert forall m :: IsHealthy(t', m) <==> m == n || IsHealthy(t, m);
    assert forall m | m != n && m in t :: t'[m] == t[m];
    if forall m | HasHealthyPrimary(t, m) && m != n :: m <= n {
      forall m | m in t' && t'[m].state == Primary
        ensures LeastIfHealthy(t', m)
      {
        assert m != n && LeastIfHealthy(t, m);
        assert IsHealthy(t', m) ==> HasHealthyPrimary(t, m);
      }
    } else {
      var m :| HasHealthyPrimary(t, m) && m != n && m > n;
      assert m in t' && t'[m].state == Primary && IsHealthy(t', n) && !LeastIfHealthy(t', m);
    }
  }

  lemma MarkKeepsAgreement(t: Table, ids: set<NodeId>)
    ensures Healthy(MarkUnhealthy(t, ids)) == Healthy(t) - ids
    ensures RowsAgree(t) ==> RowsAgree(MarkUnhealthy(t, ids))
  {
    var t' := MarkUnhealthy(t, ids);
    assert forall m :: IsHealthy(t', m) ==> IsHealthy(t, m);
    assert forall m :: LeastIfHealthy(t, m) ==> LeastIfHealthy(t', m);
  }

  // Whatever the rows said before, clearing the primaries makes them agree.
  lemma ClearAgrees(t: Table)
    ensures Healthy(ClearPrimaries(t)) == Healthy(t) && RowsAgree(ClearPrimaries(t))
  {
  }

  lemma ElectedIsLed(t: Table)
    requires Healthy(t) != {}
    ensures Healthy(Elected(t)) == Healthy(t) && RowsAgree(Elected(t)) && IsLed(Elected(t))
  {
    var t', n := Elected(t), Least(Healthy(t));
    assert forall m :: IsHealthy(t', m) <==> m in Healthy(t);
    assert forall m | m in t' && t'[m].state == Primary :: m == n;
  }

  lemma HealthyPrimaryLeads(t: Table, n: NodeId)
    requires RowsAgree(t) && HasHealthyPrimary(t, n)
    ensures IsLed(t)
  {
    assert n in Healthy(t) && forall m :: IsHealthy(t, m) <==> m in Healthy(t);
    assert IsLeast(n, Healthy(t));
  }

  // ---- One manager ----

  datatype Election = Done | NoHealthyNode | StatementFailed

  class ClusterManager {
    const db: NodeTable
    const nodeId: NodeId
    var currentState: NodeState

    constructor (db: NodeTable, nodeId: NodeId)
      ensures this.db == db && this.nodeId == nodeId && currentState == Unknown
    {
      this.db := db;
      this.nodeId := nodeId;
      currentState := Unknown;
    }

    // A heartbeat keeps the rows in agreement as long as the node's own state does.
    method SendHeartbeat(now: int) returns (ok: bool)
      modifies db
      ensures ok == !db.fails(old(db.executed)) && (!ok ==> db.rows == old(db.rows))
      ensures db.rows.Keys == old(db.rows).Keys && Healthy(db.rows) == Healthy(old(db.rows))
      ensures forall m | m in db.rows && m != nodeId :: db.rows[m] == old(db.rows)[m]
      ensures ok && nodeId in db.rows ==>
                db.rows[nodeId] == Row(currentState, old(db.rows)[nodeId].healthy, Some(now))
      ensures ok ==>
                forall cutoff | cutoff <= now :: Stale(db.rows, cutoff) == Stale(old(db.rows), cutoff) - {nodeId}
      ensures old(RowsAgree(db.rows)) && (currentState == Primary ==> LeastIfHealthy(old(db.rows), nodeId)) ==>
                RowsAgree(db.rows)
    {
      if RowsAgree(db.rows) && (currentState == Primary ==> LeastIfHealthy(db.rows, nodeId)) {
        HeartbeatKeepsAgreement(db.rows, nodeId, now, currentState);
      }
      ok := db.Send();
      if ok {
        db.rows := WriteHeartbeat(db.rows, nodeId, now, currentState);
      }
    }

    // A registration keeps the rows in agreement exactly when no healthy primary has a greater id.
    method RegisterNode(now: int) returns (ok: bool)
      modifies db
      ensures ok == !db.fails(old(db.executed)) && (!ok ==> db.rows == old(db.rows))
      ensures ok ==> db.rows.Keys == old(db.rows).Keys + {nodeId}
      ensures ok ==> Healthy(db.rows) == Healthy(old(db.rows)) + {nodeId}
      ensures forall m | m in db.rows && m != nodeId :: db.rows[m] == old(db.rows)[m]
      ensures ok ==> db.rows[nodeId] == Row(Secondary, true, Some(now))
      ensures ok && old(RowsAgree(db.rows)) ==>
                (RowsAgree(db.rows) <==>
                 forall m | HasHealthyPrimary(old(db.rows), m) && m != nodeId :: m <= nodeId)
    {
      if RowsAgree(db.rows) {
        RegisterKeepsAgreementIff(db.rows, nodeId, now);
      }
      ok := db.Send();
      if ok {
        db.rows := RegisterRow(db.rows, nodeId, now);
      }
    }

    method UnregisterNode() returns (ok: bool)
      modifies db
      ensures ok == !db.fails(old(db.executed)) && (!ok ==> db.rows == old(db.rows))
      ensures db.rows.Keys == old(db.rows).Keys
      ensures ok ==> Healthy(db.rows) == Healthy(old(db.rows)) - {nodeId}
      ensures forall m | m in db.rows && m != nodeId :: db.rows[m] == old(db.rows)[m]
      ensures ok && nodeId in db.rows ==>
                db.rows[nodeId] == Row(Unknown, false, old(db.rows)[nodeId].lastHeartbeat)
      ensures old(RowsAgree(db.rows)) ==> RowsAgree(db.rows)
    {
      if RowsAgree(db.rows) {
        UnregisterKeepsAgreement(db.rows, nodeId);
      }
      ok := db.Send();
      if ok {
        db.rows := UnregisterRow(db.rows, nodeId);
      }
    }

    // Loops over the rows of SELECT node_id, last_heartbeat ... WHERE is_healthy = 1 in whatever order they come.
    method StaleNodeIds(cutoff: int) returns (found: Option<seq<NodeId>>)
      modifies db`executed
      ensures db.executed == old(db.executed) + 1 && found.Some? == !db.fails(old(db.executed))
      ensures found.Some? ==>
                && Bound(found.value) == Stale(db.rows, cutoff)
                && (forall n :: n in found.value <==>
                      n in db.rows && db.rows[n].healthy && db.rows[n].lastHeartbeat.Some? &&
                      db.rows[n].lastHeartbeat.value < cutoff)
                && forall i, j | 0 <= i < j < |found.value| :: found.value[i] != found.value[j]
    {
      var ok := db.Send();
      if !ok {
        return None;
      }
      var staleIds := ReadStale(cutoff);
      assert forall n :: n in Bound(staleIds) <==> n in Stale(db.rows, cutoff);
      return Some(staleIds);
    }

    method ReadStale(cutoff: int) returns (staleIds: seq<NodeId>)
      ensures forall n :: n in staleIds <==> IsStale(db.rows, n, cutoff)
      ensures forall i, j | 0 <= i < j < |staleIds| :: staleIds[i] != staleIds[j]
    {
      staleIds := [];
      var unread := Healthy(db.rows);
      while unread != {}
        invariant unread <= Healthy(db.rows)
        invariant forall n :: n in staleIds <==> n !in unread && IsStale(db.rows, n, cutoff)
        invariant forall i, j | 0 <= i < j < |staleIds| :: staleIds[i] != staleIds[j]
        decreases unread
      {
        Sets.HasElement(unread);
        var n :| n in unread;
        unread := unread - {n};
        var stored := db.rows[n].lastHeartbeat;
        if stored.Some? && stored.value < cutoff {
          staleIds := staleIds + [n];
        }
      }
    }

    // The chunks in front of the first refused one are marked, and all of them without one.
    method MarkNodesUnhealthy(nodeIds: seq<NodeId>) returns (ok: bool, ghost marked: nat)
      modifies db
      ensures marked <= |nodeIds| && db.rows == MarkUnhealthy(old(db.rows), Bound(nodeIds[..marked]))
      ensures db.rows.Keys == old(db.rows).Keys
      ensures forall m | m in db.rows ::
                var was := old(db.rows)[m];
                db.rows[m] == if m in nodeIds[..marked] then Row(was.state, false, was.lastHeartbeat) else was
      ensures ok <==> marked == |nodeIds|
      ensures !ok ==> marked == 500 * (db.executed - 1 - old(db.executed))
      ensures db.executed >= old(db.executed) && (!ok ==> db.executed > old(db.executed))
      ensures ok ==> forall k | old(db.executed) <= k < db.executed :: !db.fails(k)
      ensures !ok ==> db.fails(db.executed - 1)
      ensures !ok ==> forall k | old(db.executed) <= k < db.executed - 1 :: !db.fails(k)
    {
      var start := 0;
      assert nodeIds[..0] == [] && db.rows == MarkUnhealthy(db.rows, Bound([]));
      while start < |nodeIds|
        invariant start == UPDATE_CHUNK_SIZE * (db.executed - old(db.executed)) && db.executed >= old(db.executed)
        invariant db.rows ==
                  MarkUnhealthy(old(db.rows), Bound(nodeIds[..if start <= |nodeIds| then start else |nodeIds|]))
        invariant forall k | old(db.executed) <= k < db.executed :: !db.fails(k)
      {
        var end := start + UPDATE_CHUNK_SIZE;
        if end > |nodeIds| {
          end := |nodeIds|;
        }
        var chunk := nodeIds[start..end];
        var sent := db.Send();
        if !sent {
          return false, start;
        }
        MarkTwice(old(db.rows), nodeIds, start, end);
        db.rows := MarkUnhealthy(db.rows, Bound(chunk));
        start := start + UPDATE_CHUNK_SIZE;
      }
      assert nodeIds[..|nodeIds|] == nodeIds;
      return true, |nodeIds|;
    }

    // SELECT node_id ... WHERE is_healthy = 1 ORDER BY node_id ASC
    method HealthyInOrder() returns (ids: seq<NodeId>)
      ensures Bound(ids) == Healthy(db.rows)
      ensures forall i, j | 0 <= i < j < |ids| :: ids[i] < ids[j]
    {
      ids := [];
      var unread := Healthy(db.rows);
      while unread != {}
        invariant Bound(ids) + unread == Healthy(db.rows)
        invariant forall i, n | 0 <= i < |ids| && n in unread :: ids[i] < n
        invariant forall i, j | 0 <= i < j < |ids| :: ids[i] < ids[j]
        decreases unread
      {
        LeastExists(unread);
        var n :| n in unread && forall m | m in unread :: n <= m;
        unread := unread - {n};
        ids := ids + [n];
      }
    }

    /**
      An election that is refused at its query or its first update changes nothing; refused at its second update, it
      leaves no primary; otherwise the least healthy id is the only one.
     */
    method ElectPrimary() returns (r: Election)
      modifies this, db
      ensures old(db.executed) < db.executed <= old(db.executed) + 3
      ensures var refused, same := db.fails(db.executed - 1), db.rows == old(db.rows);
              match db.executed - old(db.executed)
              case 1 => same && (refused || Healthy(db.rows) == {}) &&
                        r == if refused then StatementFailed else NoHealthyNode
              case 2 => same && refused && r == StatementFailed && Healthy(db.rows) != {}
              case _ => if refused then db.rows == ClearPrimaries(old(db.rows)) && r == StatementFailed
                        else db.rows == Elected(old(db.rows)) && r == Done
      ensures OnlyStatesDiffer(old(db.rows), db.rows)
      ensures r == NoHealthyNode ==> forall m | m in db.rows :: !db.rows[m].healthy
      ensures r == Done ==>
                exists n :: Leads(db.rows, n) && currentState == if n == nodeId then Primary else Secondary
      ensures r == StatementFailed && db.executed == old(db.executed) + 3 ==>
                forall m | m in db.rows :: db.rows[m].state == Secondary
      ensures forall k | old(db.executed) <= k < db.executed - 1 :: !db.fails(k)
      ensures Healthy(db.rows) == Healthy(old(db.rows)) && (old(RowsAgree(db.rows)) ==> RowsAgree(db.rows))
      ensures r == Done ==> IsLed(db.rows)
      ensures currentState ==
              if r != Done then old(currentState)
              else if Least(Healthy(db.rows)) == nodeId then Primary else Secondary
    {
      var ok := db.Send();
      if !ok {
        return StatementFailed;
      }
      var candidates := HealthyInOrder();
      if |candidates| == 0 {
        assert forall m | m in db.rows && db.rows[m].healthy :: m in Healthy(db.rows);
        return NoHealthyNode;
      }
      var newPrimary := candidates[0];
      assert newPrimary in Bound(candidates);
      assert IsLeast(newPrimary, Healthy(db.rows));
      ghost var before := db.rows;
      ok := db.Send();
      if !ok {
        return StatementFailed;
      }
      db.rows := ClearPrimaries(db.rows);
      ClearAgrees(before);
      ElectedRows(before);
      ok := db.Send();
      if !ok {
        return StatementFailed;
      }
      db.rows := InstallPrimary(db.rows, newPrimary);
      assert db.rows == Elected(before);
      ElectedIsLed(before);
      ElectedRows(before);
      currentState := if newPrimary == nodeId then Primary else Secondary;
      r := Done;
    }

    // SELECT is_healthy ... WHERE state = 'primary' LIMIT 1: any one primary row, or none.
    method ReadPrimary() returns (found: Option<bool>)
      ensures found.None? <==> forall n | n in db.rows :: db.rows[n].state != Primary
      ensures found.Some? ==>
                exists n :: n in db.rows && db.rows[n].state == Primary && db.rows[n].healthy == found.value
    {
      if n :| n in db.rows && db.rows[n].state == Primary {
        found := Some(db.rows[n].healthy);
      } else {
        found := None;
      }
    }

    // A refused query counts as an unhealthy primary.
    method ElectUnlessHealthy() returns (ok: bool)
      modifies this, db
      ensures db.executed > old(db.executed)
      ensures OnlyStatesDiffer(old(db.rows), db.rows) && (old(RowsAgree(db.rows)) ==> RowsAgree(db.rows))
      ensures !ok ==> currentState == old(currentState)
      ensures !ok ==> db.rows == old(db.rows) || forall m | m in db.rows :: db.rows[m].state == Secondary
      ensures !ok && !db.fails(db.executed - 1) ==>
                db.rows == old(db.rows) && forall m | m in db.rows :: !db.rows[m].healthy
      ensures ok ==>
                || (db.rows == old(db.rows) && currentState == old(currentState) &&
                    exists n :: HasHealthyPrimary(db.rows, n))
                || exists n :: Leads(db.rows, n) && currentState == if n == nodeId then Primary else Secondary
      ensures ok && old(RowsAgree(db.rows)) ==> IsLed(db.rows)
      ensures !db.fails(old(db.executed)) && (exists n :: HasHealthyPrimary(old(db.rows), n)) &&
              AllPrimariesHealthy(old(db.rows)) ==>
                ok && db.rows == old(db.rows) && currentState == old(currentState)
    {
      ghost var before := db.rows;
      var sent := db.Send();
      var primaryHealthy: Option<bool> := None;
      if sent {
        primaryHealthy := ReadPrimary();
      }
      if primaryHealthy.None? || !primaryHealthy.value {
        var r := ElectPrimary();
        return r == Done;
      }
      ghost var n :| n in before && before[n].state == Primary && before[n].healthy;
      assert HasHealthyPrimary(before, n);
      if RowsAgree(before) {
        HealthyPrimaryLeads(before, n);
      }
      return true;
    }

    /**
      A health check nothing interleaves, whichever of its statements are refused: only stale nodes lose health, rows
      in agreement stay so, and one that reports success leaves exactly the least healthy id as the only healthy
      primary. So the next check that is not refused repairs what a refused one left.
     */
    method CheckClusterHealth(cutoff: int) returns (ok: bool)
      modifies this, db
      ensures db.executed > old(db.executed)
      ensures db.rows.Keys == old(db.rows).Keys
      ensures forall m | m in db.rows ::
                var was, now := old(db.rows)[m], db.rows[m];
                && now.lastHeartbeat == was.lastHeartbeat && (now.healthy ==> was.healthy)
                && (was.healthy && !now.healthy ==> !IsFresh(was, cutoff))
                && (ok ==> now.healthy == IsFresh(was, cutoff))
      ensures ok ==>
                || (SameStates(old(db.rows), db.rows) && currentState == old(currentState) &&
                    exists n :: HasHealthyPrimary(db.rows, n))
                || exists n :: Leads(db.rows, n) && currentState == if n == nodeId then Primary else Secondary
      ensures !ok ==>
                && currentState == old(currentState)
                && (SameStates(old(db.rows), db.rows) || forall m | m in db.rows :: db.rows[m].state == Secondary)
      ensures !ok && !db.fails(db.executed - 1) ==>
                && SameStates(old(db.rows), db.rows)
                && forall m | m in db.rows :: !db.rows[m].healthy && !IsFresh(old(db.rows)[m], cutoff)
      ensures (forall k | old(db.executed) <= k < db.executed :: !db.fails(k)) &&
              (exists n :: n in old(db.rows) && old(db.rows)[n].state == Primary) &&
              (forall n | n in old(db.rows) && old(db.rows)[n].state == Primary :: IsFresh(old(db.rows)[n], cutoff)) ==>
                ok && SameStates(old(db.rows), db.rows) && currentState == old(currentState)
      ensures old(RowsAgree(db.rows)) ==> RowsAgree(db.rows)
      ensures ok && old(RowsAgree(db.rows)) ==> IsLed(db.rows)
    {
      ghost var before := db.rows;
      ok := MarkStale(cutoff);
      if !ok {
        return;
      }
      FreshPrimaryStays(before, db.rows, cutoff);
      ok := ElectUnlessHealthy();
    }

    // Marks the stale nodes, or some of them if a statement is refused.
    method MarkStale(cutoff: int) returns (ok: bool)
      modifies db
      ensures db.executed > old(db.executed) && (!ok ==> db.fails(db.executed - 1))
      ensures SameStates(old(db.rows), db.rows)
      ensures forall m | m in db.rows ::
                var was, now := old(db.rows)[m], db.rows[m];
                && now.lastHeartbeat == was.lastHeartbeat && (now.healthy ==> was.healthy)
                && (was.healthy && !now.healthy ==> !IsFresh(was, cutoff))
                && (ok ==> now.healthy == IsFresh(was, cutoff))
      ensures old(RowsAgree(db.rows)) ==> RowsAgree(db.rows)
    {
      ghost var before := db.rows;
      var staleIds := StaleNodeIds(cutoff);
      if staleIds == None {
        return false;
      }
      ghost var marked;
      ok, marked := MarkNodesUnhealthy(staleIds.value);
      MarkKeepsAgreement(before, Bound(staleIds.value[..marked]));
      assert staleIds.value[..|staleIds.value|] == staleIds.value;
    }
  }

  // Primaries that all stay healthy are healthy primaries after marking.
  lemma FreshPrimaryStays(t: Table, t': Table, cutoff: int)
    requires SameStates(t, t') && forall m | m in t :: t'[m].healthy == IsFresh(t[m], cutoff)
    ensures (exists n :: n in t && t[n].state == Primary) &&
            (forall n | n in t && t[n].state == Primary :: IsFresh(t[n], cutoff)) ==>
              (exists n :: HasHealthyPrimary(t', n)) && AllPrimariesHealthy(t')
  {
    if n :| n in t && t[n].state == Primary && IsFresh(t[n], cutoff) {
      assert HasHealthyPrimary(t', n);
    }
  }

  // Marking one chunk after the ones in front of it marks them all.
  lemma MarkTwice(t: Table, ids: seq<NodeId>, start: nat, end: nat)
    requires start <= end <= |ids|
    ensures MarkUnhealthy(MarkUnhealthy(t, Bound(ids[..start])), Bound(ids[start..end])) ==
            MarkUnhealthy(t, Bound(ids[..end]))
  {
    assert ids[..end] == ids[..start] + ids[start..end];
  }
}

/**
  Writes that outlive a database failure: while the primary is down they wait in a queue, and a recovery replays
  a copy of the queue before leaving read-only mode.
 */
module FailoverWrites {
  // The stamp tells apart writes with the same statement, as the queue's timestamps do.
  datatype Write = Write(query: string, args: seq<string>, stamp: nat)

  // accepts(i) says whether the primary takes the i-th write of a replay.
  type Verdicts = nat -> bool

  function Accepted(q: seq<Write>, accepts: Verdicts): seq<Write> {
    if q == [] then [] else
      var n := |q| - 1;
      if accepts(n) then Accepted(q[..n], accepts) + [q[n]] else Accepted(q[..n], accepts)
  }

  function Refused(q: seq<Write>, accepts: Verdicts): seq<Write> {
    if q == [] then [] else
      var n := |q| - 1;
      if accepts(n) then Refused(q[..n], accepts) else Refused(q[..n], accepts) + [q[n]]
  }

  /** A replay splits the queue: every queued write ends in exactly one of the two parts. */
  lemma {:induction false} ReplayPartitions(q: seq<Write>, accepts: Verdicts)
    ensures multiset(q) == multiset(Accepted(q, accepts)) + multiset(Refused(q, accepts))
    ensures |q| == |Accepted(q, accepts)| + |Refused(q, accepts)|
  {
    if q != [] {
      var n := |q| - 1;
      assert q == q[..n] + [q[n]];
      ReplayPartitions(q[..n], accepts);
    }
  }

  /**
    Both parts keep the queue's order: write i sits behind exactly the writes of its part that were queued before it.
   */
  lemma {:induction false} ReplayIsStable(q: seq<Write>, accepts: Verdicts, i: nat)
    requires i < |q|
    ensures accepts(i) ==> Accepted(q[..i], accepts) + [q[i]] <= Accepted(q, accepts)
    ensures !accepts(i) ==> Refused(q[..i], accepts) + [q[i]] <= Refused(q, accepts)
    decreases |q|
  {
    var n := |q| - 1;
    if i < n {
      ReplayIsStable(q[..n], accepts, i);
      assert q[..n][..i] == q[..i];
    }
  }

  ghost predicate NoDuplicates(q: seq<Write>) {
    forall i, j | 0 <= i < j < |q| :: q[i] != q[j]
  }

  ghost predicate RefusalsLast(n: nat, accepts: Verdicts) {
    forall i, j | 0 <= i < j < n :: accepts(j) ==> accepts(i)
  }

  lemma {:induction false} AllAccepted(q: seq<Write>, accepts: Verdicts)
    ensures (forall i | 0 <= i < |q| :: accepts(i)) ==> Accepted(q, accepts) == q
    ensures (forall i | 0 <= i < |q| :: accepts(i)) <==> Refused(q, accepts) == []
  {
    if q != [] {
      var n := |q| - 1;
      AllAccepted(q[..n], accepts);
      assert q == q[..n] + [q[n]];
      assert (forall i | 0 <= i < |q| :: accepts(i)) <==> accepts(n) && forall i | 0 <= i < n :: accepts(i);
    }
  }

  lemma {:induction false} RefusalsLastKeepOrder(q: seq<Write>, accepts: Verdicts)
    requires RefusalsLast(|q|, accepts)
    ensures Accepted(q, accepts) + Refused(q, accepts) == q
  {
    if q != [] {
      var n := |q| - 1;
      if accepts(n) {
        AllAccepted(q, accepts);
      } else {
        RefusalsLastKeepOrder(q[..n], accepts);
        assert q == q[..n] + [q[n]];
      }
    }
  }

  // An accepted write ends up in front of every refused one.
  lemma OutOfOrder(q: seq<Write>, accepts: Verdicts, i: nat, j: nat) returns (p: nat, r: nat)
    requires i < |q| && j < |q| && accepts(j) && !accepts(i)
    ensures var all := Accepted(q, accepts) + Refused(q, accepts); p < r < |all| && all[p] == q[j] && all[r] == q[i]
  {
    ReplayIsStable(q, accepts, i);
    ReplayIsStable(q, accepts, j);
    p, r := |Accepted(q[..j], accepts)|, |Accepted(q, accepts)| + |Refused(q[..i], accepts)|;
  }

  lemma DistinctReplayKeepsOrderIff(q: seq<Write>, accepts: Verdicts)
    requires NoDuplicates(q)
    ensures Accepted(q, accepts) + Refused(q, accepts) == q <==> RefusalsLast(|q|, accepts)
  {
    if RefusalsLast(|q|, accepts) {
      RefusalsLastKeepOrder(q, accepts);
    } else {
      var i, j :| 0 <= i < j < |q| && accepts(j) && !accepts(i);
      var p, r := OutOfOrder(q, accepts, i, j);
    }
  }

  // The queue with its writes stamped in order, so that repeated statements are different writes.
  function Stamped(q: seq<Write>, from: nat): (s: seq<Write>)
    ensures NoDuplicates(s)
  {
    seq(|q|, i requires 0 <= i < |q| => q[i].(stamp := from + i))
  }

  function Unstamped(q: seq<Write>): seq<Write> {
    seq(|q|, i requires 0 <= i < |q| => q[i].(stamp := 0))
  }

  lemma UnstampedSnoc(q: seq<Write>, w: Write)
    ensures Unstamped(q + [w]) == Unstamped(q) + [w.(stamp := 0)]
  {
  }

  // What is replayed and what is re-queued does not depend on the stamps.
  lemma {:induction false} StampsDoNotMatter(q: seq<Write>, from: nat, accepts: Verdicts)
    ensures Unstamped(Accepted(Stamped(q, from), accepts)) == Unstamped(Accepted(q, accepts))
    ensures Unstamped(Refused(Stamped(q, from), accepts)) == Unstamped(Refused(q, accepts))
  {
    if q != [] {
      var n, s := |q| - 1, Stamped(q, from);
      assert s[..n] == Stamped(q[..n], from);
      StampsDoNotMatter(q[..n], from, accepts);
      if accepts(n) {
        UnstampedSnoc(Accepted(s[..n], accepts), s[n]);
        UnstampedSnoc(Accepted(q[..n], accepts), q[n]);
      } else {
        UnstampedSnoc(Refused(s[..n], accepts), s[n]);
        UnstampedSnoc(Refused(q[..n], accepts), q[n]);
      }
    }
  }

  /**
    The replayed writes followed by the re-queued ones are the old queue exactly when no write was accepted after a
    refusal.
   */
  lemma ReplayKeepsOrderIff(q: seq<Write>, accepts: Verdicts)
    ensures var s := Stamped(q, 0); Accepted(s, accepts) + Refused(s, accepts) == s <==> RefusalsLast(|q|, accepts)
  {
    DistinctReplayKeepsOrderIff(Stamped(q, 0), accepts);
  }
}

/**
  Any number of Exec and Query callers against the recovering monitor. An event is one critical section, one
  statement on the primary, or one read of the read-only flag. Callers in the same place with the same write are
  interchangeable, so each place holds a multiset of writes.
 */
module FailoverProtocol {
  import opened FailoverWrites

  datatype Monitor =
    | Waiting
    | Probing
    | Copying
    | Replaying(rest: seq<Write>)
    | Requeueing(write: Write, rest: seq<Write>)

  datatype State = State(
    readOnly: bool, lastError: bool, retryTicker: bool,
    primary: seq<Write>, queue: seq<Write>,
    trying: multiset<Write>, failing: multiset<Write>, queueing: multiset<Write>,
    reading: nat, monitor: Monitor, issued: multiset<Write>)

  datatype Event =
    | BeginExec(w: Write)
    | TryPrimary(w: Write, up: bool)
    | ExecFailure(w: Write)
    | QueueWrite(w: Write)
    | BeginQuery
    | EndQuery(up: bool)
    | Tick
    | Probe(up: bool)
    | CopyQueue
    | Replay(up: bool)
    | Requeue
    | Leave

  predicate Enabled(s: State, e: Event) {
    match e
    case BeginExec(_) => true
    case TryPrimary(w, _) => w in s.trying
    case ExecFailure(w) => w in s.failing
    case QueueWrite(w) => w in s.queueing
    case BeginQuery => true
    case EndQuery(_) => s.reading > 0
    case Tick => s.monitor == Waiting
    case Probe(_) => s.monitor == Probing
    case CopyQueue => s.monitor == Copying
    case Replay(_) => s.monitor.Replaying? && s.monitor.rest != []
    case Requeue => s.monitor.Requeueing?
    case Leave => s.monitor == Replaying([])
  }

  function PrimaryFailed(s: State): State {
    if s.readOnly then s else s.(readOnly := true, lastError := true, retryTicker := true)
  }

  function Apply(s: State, e: Event): State
    requires Enabled(s, e)
  {
    match e
    case BeginExec(w) =>
      var s' := s.(issued := s.issued + multiset{w});
      if s.readOnly then s'.(queueing := s.queueing + multiset{w}) else s'.(trying := s.trying + multiset{w})
    case TryPrimary(w, up) =>
      var s' := s.(trying := s.trying - multiset{w});
      if up then s'.(primary := s.primary + [w]) else s'.(failing := s.failing + multiset{w})
    case ExecFailure(w) =>
      PrimaryFailed(s).(failing := s.failing - multiset{w}, queueing := s.queueing + multiset{w})
    case QueueWrite(w) => s.(queueing := s.queueing - multiset{w}, queue := s.queue + [w])
    case BeginQuery => if s.readOnly then s else s.(reading := s.reading + 1)
    case EndQuery(up) => (if up then s else PrimaryFailed(s)).(reading := s.reading - 1)
    case Tick => if s.readOnly then s.(monitor := Probing) else s
    case Probe(up) => s.(monitor := if up then Copying else Waiting)
    case CopyQueue => s.(monitor := Replaying(s.queue), queue := [])
    case Replay(up) =>
      var w, rest := s.monitor.rest[0], s.monitor.rest[1..];
      if up then s.(primary := s.primary + [w], monitor := Replaying(rest))
      else s.(monitor := Requeueing(w, rest))
    case Requeue => s.(queue := s.queue + [s.monitor.write], monitor := Replaying(s.monitor.rest))
    case Leave => s.(readOnly := false, lastError := false, retryTicker := false, monitor := Waiting)
  }

  function Step(s: State, e: Event): State {
    if Enabled(s, e) then Apply(s, e) else s
  }

  function Execute(s: State, es: seq<Event>): State
    decreases |es|
  {
    if es == [] then s else Execute(Step(s, es[0]), es[1..])
  }

  // The part of the replay copy that has not reached the primary or the queue yet.
  function InReplay(m: Monitor): seq<Write> {
    match m
    case Replaying(rest) => rest
    case Requeueing(w, rest) => [w] + rest
    case _ => []
  }

  function WithCallers(s: State): multiset<Write> {
    s.trying + s.failing + s.queueing
  }

  function Count(q: seq<Write>, w: Write): nat {
    if q == [] then 0 else Count(q[1..], w) + if q[0] == w then 1 else 0
  }

  lemma {:induction false} CountIsMultiplicity(q: seq<Write>, w: Write)
    ensures Count(q, w) == multiset(q)[w]
  {
    if q != [] {
      CountIsMultiplicity(q[1..], w);
      assert q == [q[0]] + q[1..];
    }
  }

  lemma {:induction false} CountAppend(q: seq<Write>, v: Write, w: Write)
    ensures Count(q + [v], w) == Count(q, w) + if v == w then 1 else 0
  {
    if q != [] {
      CountAppend(q[1..], v, w);
      assert (q + [v])[1..] == q[1..] + [v];
    }
  }

  // How many copies of a write the system holds.
  function Copies(s: State, w: Write): nat {
    Count(s.primary, w) + Count(s.queue, w) + Count(InReplay(s.monitor), w) + WithCallers(s)[w]
  }

  const START := State(false, false, false, [], [], multiset{}, multiset{}, multiset{}, 0, Waiting, multiset{})

  // The three signs of a failure: the flag, the ticker and the stored error.
  predicate SignsAgree(s: State) {
    s.readOnly == s.retryTicker == s.lastError
  }

  lemma BeginExecConserves(s: State, v: Write, w: Write)
    ensures var s' := Apply(s, BeginExec(v)); Copies(s', w) + s.issued[w] == Copies(s, w) + s'.issued[w]
  {
  }

  lemma TryPrimaryConserves(s: State, v: Write, up: bool, w: Write)
    requires v in s.trying
    ensures var s' := Apply(s, TryPrimary(v, up)); Copies(s', w) == Copies(s, w) && s'.issued == s.issued
  {
    CountAppend(s.primary, v, w);
  }

  lemma ExecFailureConserves(s: State, v: Write, w: Write)
    requires v in s.failing
    ensures var s' := Apply(s, ExecFailure(v)); Copies(s', w) == Copies(s, w) && s'.issued == s.issued
  {
  }

  lemma QueueWriteConserves(s: State, v: Write, w: Write)
    requires v in s.queueing
    ensures var s' := Apply(s, QueueWrite(v)); Copies(s', w) == Copies(s, w) && s'.issued == s.issued
  {
    CountAppend(s.queue, v, w);
  }

  lemma QueryStepConserves(s: State, e: Event, w: Write)
    requires Enabled(s, e) && (e.BeginQuery? || e.EndQuery?)
    ensures var s' := Apply(s, e); Copies(s', w) == Copies(s, w) && s'.issued == s.issued
  {
  }

  lemma AcceptedConserves(s: State, v: Write, rest: seq<Write>, w: Write)
    requires s.monitor == Replaying([v] + rest)
    ensures var s' := Apply(s, Replay(true)); Copies(s', w) == Copies(s, w) && s'.issued == s.issued
  {
    CountAppend(s.primary, v, w);
    assert ([v] + rest)[1..] == rest;
  }

  lemma RefusedConserves(s: State, v: Write, rest: seq<Write>, w: Write)
    requires s.monitor == Replaying([v] + rest)
    ensures var s' := Apply(s, Replay(false)); Copies(s', w) == Copies(s, w) && s'.issued == s.issued
  {
    assert ([v] + rest)[1..] == rest;
  }

  lemma ReplayConserves(s: State, up: bool, w: Write)
    requires s.monitor.Replaying? && s.monitor.rest != []
    ensures var s' := Apply(s, Replay(up)); Copies(s', w) == Copies(s, w) && s'.issued == s.issued
  {
    var v, rest := s.monitor.rest[0], s.monitor.rest[1..];
    assert s.monitor.rest == [v] + rest;
    if up {
      AcceptedConserves(s, v, rest, w);
    } else {
      RefusedConserves(s, v, rest, w);
    }
  }

  lemma RequeueConserves(s: State, w: Write)
    requires s.monitor.Requeueing?
    ensures var s' := Apply(s, Requeue); Copies(s', w) == Copies(s, w) && s'.issued == s.issued
  {
    CountAppend(s.queue, s.monitor.write, w);
    assert ([s.monitor.write] + s.monitor.rest)[1..] == s.monitor.rest;
  }

  lemma MonitorStepConserves(s: State, e: Event, w: Write)
    requires Enabled(s, e) && e in {Tick, Probe(true), Probe(false), CopyQueue, Leave}
    ensures var s' := Apply(s, e); Copies(s', w) == Copies(s, w) && s'.issued == s.issued
  {
  }

  lemma StepConserves(s: State, e: Event, w: Write)
    ensures Copies(Step(s, e), w) + s.issued[w] == Copies(s, w) + Step(s, e).issued[w]
  {
    if Enabled(s, e) {
      match e
      case BeginExec(v) => BeginExecConserves(s, v, w);
      case TryPrimary(v, up) => TryPrimaryConserves(s, v, up, w);
      case ExecFailure(v) => ExecFailureConserves(s, v, w);
      case QueueWrite(v) => QueueWriteConserves(s, v, w);
      case BeginQuery => QueryStepConserves(s, e, w);
      case EndQuery(_) => QueryStepConserves(s, e, w);
      case Replay(up) => ReplayConserves(s, up, w);
      case Requeue => RequeueConserves(s, w);
      case _ => MonitorStepConserves(s, e, w);
    }
  }

  lemma {:induction false} RunConserves(s: State, es: seq<Event>, w: Write)
    ensures Copies(Execute(s, es), w) + s.issued[w] == Copies(s, w) + Execute(s, es).issued[w]
    decreases |es|
  {
    if es != [] {
      StepConserves(s, es[0], w);
      RunConserves(Step(s, es[0]), es[1..], w);
    }
  }

  lemma {:induction false} RunKeepsSigns(s: State, es: seq<Event>)
    requires SignsAgree(s)
    ensures SignsAgree(Execute(s, es))
    decreases |es|
  {
    if es != [] {
      RunKeepsSigns(Step(s, es[0]), es[1..]);
    }
  }

  /**
    No write is lost or applied twice: after any interleaving, the copies of a write in the primary, the queue, the
    unprocessed part of a replay copy and the hands of its callers are as many as the times it was issued; a write
    issued once is in exactly one of these places.
   */
  lemma EveryWriteIsInOnePlace(es: seq<Event>, w: Write)
    ensures var s := Execute(START, es);
            multiset(s.primary)[w] + multiset(s.queue)[w] + multiset(InReplay(s.monitor))[w] + WithCallers(s)[w] ==
            s.issued[w]
    ensures SignsAgree(Execute(START, es))
  {
    var s := Execute(START, es);
    RunConserves(START, es, w);
    RunKeepsSigns(START, es);
    CountIsMultiplicity(s.primary, w);
    CountIsMultiplicity(s.queue, w);
    CountIsMultiplicity(InReplay(s.monitor), w);
  }

  /** Once every caller has returned and no replay runs, the issued writes are the primary's log and the queue. */
  lemma QuietStateHoldsAllWrites(es: seq<Event>)
    requires var s := Execute(START, es); WithCallers(s) == multiset{} && InReplay(s.monitor) == []
    ensures var s := Execute(START, es); s.issued == multiset(s.primary) + multiset(s.queue)
  {
    var s := Execute(START, es);
    forall w
      ensures s.issued[w] == (multiset(s.primary) + multiset(s.queue))[w]
    {
      EveryWriteIsInOnePlace(es, w);
    }
  }

  // ---- When nothing is left behind ----

  predicate Clean(s: State) {
    s.queue == [] && s.queueing == multiset{}
  }

  // Out of read-only mode nothing is queued and nobody is about to queue.
  predicate Safe(s: State) {
    s.readOnly || Clean(s)
  }

  predicate AlwaysSafe(s: State, es: seq<Event>)
    decreases |es|
  {
    Safe(s) && (es == [] || AlwaysSafe(Step(s, es[0]), es[1..]))
  }

  // Every time the monitor leaves read-only mode, the queue is empty and nobody is about to queue.
  predicate LeavesClean(s: State, es: seq<Event>)
    decreases |es|
  {
    es == [] || ((es[0].Leave? && Enabled(s, es[0]) ==> Clean(s)) && LeavesClean(Step(s, es[0]), es[1..]))
  }

  predicate MonitorIsBusyOnlyInReadOnly(s: State) {
    s.monitor != Waiting ==> s.readOnly
  }

  lemma ReadOnlyUntilLeave(s: State, e: Event)
    requires s.readOnly
    ensures Step(s, e).readOnly <==> !(e.Leave? && Enabled(s, e))
  {
  }

  lemma NormalStepIsSafe(s: State, e: Event)
    requires !s.readOnly && Clean(s) && s.monitor == Waiting
    ensures Safe(Step(s, e)) && Step(s, e).monitor == Waiting
  {
    assert e.QueueWrite? ==> !Enabled(s, e);
  }

  lemma LeaveIsSafeIff(s: State)
    requires Enabled(s, Leave)
    ensures Step(s, Leave).monitor == Waiting && (Safe(Step(s, Leave)) <==> Clean(s))
  {
  }

  // One event keeps a safe state safe, unless it is an unclean departure.
  lemma StepKeepsSafe(s: State, e: Event)
    requires Safe(s) && MonitorIsBusyOnlyInReadOnly(s)
    ensures MonitorIsBusyOnlyInReadOnly(Step(s, e))
    ensures Safe(Step(s, e)) <==> !(e.Leave? && Enabled(s, e)) || Clean(s)
  {
    if !s.readOnly {
      NormalStepIsSafe(s, e);
    } else if e.Leave? && Enabled(s, e) {
      LeaveIsSafeIff(s);
    } else {
      ReadOnlyUntilLeave(s, e);
    }
  }

  lemma {:induction false} SafeFromIff(s: State, es: seq<Event>)
    requires Safe(s) && MonitorIsBusyOnlyInReadOnly(s)
    ensures AlwaysSafe(s, es) <==> LeavesClean(s, es)
    decreases |es|
  {
    if es != [] {
      StepKeepsSafe(s, es[0]);
      if Safe(Step(s, es[0])) {
        SafeFromIff(Step(s, es[0]), es[1..]);
      } else {
        assert !AlwaysSafe(Step(s, es[0]), es[1..]);
      }
    }
  }

  /**
    Along any run nothing is ever queued, or about to be, outside read-only mode exactly when the monitor always
    leaves with an empty queue and no caller about to queue.
   */
  lemma NothingLeftBehindIff(es: seq<Event>)
    ensures AlwaysSafe(START, es) <==> LeavesClean(START, es)
  {
    SafeFromIff(START, es);
  }

  predicate OnlyQueueing(es: seq<Event>) {
    forall e | e in es :: e.QueueWrite?
  }

  lemma {:induction false} CallersQueue(s: State) returns (es: seq<Event>)
    ensures OnlyQueueing(es)
    ensures var s' := Execute(s, es);
            && s'.readOnly == s.readOnly && s'.monitor == s.monitor && s'.queueing == multiset{}
            && (s.queue != [] || s.queueing != multiset{} ==> s'.queue != [])
    decreases |s.queueing|
  {
    if s.queueing == multiset{} {
      es := [];
    } else {
      var w :| w in s.queueing;
      var s' := Step(s, QueueWrite(w));
      var rest := CallersQueue(s');
      es := [QueueWrite(w)] + rest;
      assert es[1..] == rest;
    }
  }

  /** From any other departure, the callers that finish queueing leave a write that nothing retries. */
  lemma UncleanLeaveStrands(s: State) returns (es: seq<Event>)
    requires Enabled(s, Leave) && !Clean(s)
    ensures OnlyQueueing(es)
    ensures var s' := Execute(Step(s, Leave), es);
            && !s'.readOnly && s'.monitor == Waiting && s'.queueing == multiset{} && s'.queue != []
            && Step(s', Tick) == s'
  {
    es := CallersQueue(Step(s, Leave));
  }

  // ---- A run that leaves a write behind ----

  // Caller a meets the failure and queues its write; caller b then sees read-only mode and pauses. The monitor finds
  // the primary up, copies the queue, replays a's write and leaves. Then b queues its write.
  function EventAt(n: nat, a: Write, b: Write): Event {
    match n
    case 0 => BeginExec(a)
    case 1 => TryPrimary(a, false)
    case 2 => ExecFailure(a)
    case 3 => QueueWrite(a)
    case 4 => BeginExec(b)
    case 5 => Tick
    case 6 => Probe(true)
    case 7 => CopyQueue
    case 8 => Replay(true)
    case 9 => Leave
    case _ => QueueWrite(b)
  }

  // Read-only mode with no caller at the primary.
  function Down(
    primary: seq<Write>, queue: seq<Write>, queueing: multiset<Write>, m: Monitor, issued: multiset<Write>): State
  {
    State(true, true, true, primary, queue, multiset{}, multiset{}, queueing, 0, m, issued)
  }

  function StateAt(n: nat, a: Write, b: Write): State {
    var one, both := multiset{a}, multiset{a} + multiset{b};
    match n
    case 0 => START
    case 1 => START.(issued := one, trying := one)
    case 2 => START.(issued := one, failing := one)
    case 3 => Down([], [], one, Waiting, one)
    case 4 => Down([], [a], multiset{}, Waiting, one)
    case 5 => Down([], [a], multiset{b}, Waiting, both)
    case 6 => Down([], [a], multiset{b}, Probing, both)
    case 7 => Down([], [a], multiset{b}, Copying, both)
    case 8 => Down([], [], multiset{b}, Replaying([a]), both)
    case 9 => Down([a], [], multiset{b}, Replaying([]), both)
    case 10 => START.(primary := [a], queueing := multiset{b}, issued := both)
    case _ => START.(primary := [a], queue := [b], issued := both)
  }

  lemma FailureStep(n: nat, a: Write, b: Write)
    requires n < 3
    ensures Step(StateAt(n, a, b), EventAt(n, a, b)) == StateAt(n + 1, a, b)
  {
    assert multiset{a} - multiset{a} == multiset{};
  }

  lemma PauseStep(n: nat, a: Write, b: Write)
    requires 3 <= n < 5
    ensures Step(StateAt(n, a, b), EventAt(n, a, b)) == StateAt(n + 1, a, b)
  {
    assert multiset{a} - multiset{a} == multiset{} && [] + [a] == [a];
  }

  lemma ProbeStep(n: nat, a: Write, b: Write)
    requires 5 <= n < 8
    ensures Step(StateAt(n, a, b), EventAt(n, a, b)) == StateAt(n + 1, a, b)
  {
  }

  lemma LastReplay(s: State, a: Write)
    requires s.monitor == Replaying([a]) && s.primary == []
    ensures Step(s, Replay(true)) == s.(primary := [a], monitor := Replaying([]))
  {
    assert [a][1..] == [] && [] + [a] == [a];
  }

  lemma ReplayStep(a: Write, b: Write)
    ensures Step(StateAt(8, a, b), Replay(true)) == StateAt(9, a, b)
  {
    LastReplay(StateAt(8, a, b), a);
  }

  lemma LeaveStep(a: Write, b: Write)
    ensures Step(StateAt(9, a, b), Leave) == StateAt(10, a, b)
  {
  }

  lemma LateStep(a: Write, b: Write)
    ensures Step(StateAt(10, a, b), QueueWrite(b)) == StateAt(11, a, b)
  {
    assert multiset{b} - multiset{b} == multiset{} && [] + [b] == [b];
  }

  lemma RecoveryStep(n: nat, a: Write, b: Write)
    requires 8 <= n < 11
    ensures Step(StateAt(n, a, b), EventAt(n, a, b)) == StateAt(n + 1, a, b)
  {
    if n == 8 {
      ReplayStep(a, b);
    } else if n == 9 {
      LeaveStep(a, b);
    } else {
      LateStep(a, b);
    }
  }

  lemma {:induction false} ExecuteSnoc(s: State, es: seq<Event>, e: Event)
    ensures Execute(s, es + [e]) == Step(Execute(s, es), e)
    decreases |es|
  {
    if es == [] {
      assert [e][1..] == [];
    } else {
      assert (es + [e])[1..] == es[1..] + [e];
      ExecuteSnoc(Step(s, es[0]), es[1..], e);
    }
  }

  lemma {:induction false} RunTo(n: nat, a: Write, b: Write) returns (es: seq<Event>)
    requires n <= 11
    ensures Execute(START, es) == StateAt(n, a, b)
  {
    if n == 0 {
      es := [];
    } else {
      var front := RunTo(n - 1, a, b);
      es := front + [EventAt(n - 1, a, b)];
      ExecuteSnoc(START, front, EventAt(n - 1, a, b));
      if n <= 3 {
        FailureStep(n - 1, a, b);
      } else if n <= 5 {
        PauseStep(n - 1, a, b);
      } else if n <= 8 {
        ProbeStep(n - 1, a, b);
      } else {
        RecoveryStep(n - 1, a, b);
      }
    }
  }

  /**
    A quiet state can be out of read-only mode and still hold a queued write: if caller b queues only after the
    monitor has replayed and left, nothing retries b's write until the next failure.
   */
  lemma RecoveryCanStrandAWrite(a: Write, b: Write) returns (es: seq<Event>)
    ensures var s := Execute(START, es);
            !s.readOnly && !s.retryTicker && s.monitor == Waiting && WithCallers(s) == multiset{} &&
            s.primary == [a] && s.queue == [b]
  {
    es := RunTo(11, a, b);
  }
}

/** Operations one at a time: what callers see when Exec, Query and recovery do not overlap. */
module FailoverSequential {
  import opened FailoverWrites

  datatype Manager = Manager(readOnly: bool, primary: seq<Write>, queue: seq<Write>)

  // `up` says whether the primary answers; a recovery is up when both its ping and its test query succeed.
  datatype Op =
    | Exec(w: Write, up: bool)
    | Query(up: bool)
    | Recover(up: bool, accepts: Verdicts)

  function Apply(m: Manager, op: Op): Manager {
    match op
    case Exec(w, up) =>
      if m.readOnly then m.(queue := m.queue + [w])
      else if up then m.(primary := m.primary + [w])
      else m.(readOnly := true, queue := m.queue + [w])
    case Query(up) => if m.readOnly || up then m else m.(readOnly := true)
    case Recover(up, accepts) =>
      if m.readOnly && up then
        Manager(false, m.primary + Accepted(m.queue, accepts), Refused(m.queue, accepts))
      else m
  }

  function ApplyAll(m: Manager, ops: seq<Op>): Manager {
    if ops == [] then m else Apply(ApplyAll(m, ops[..|ops| - 1]), ops[|ops| - 1])
  }

  function Issued(ops: seq<Op>): seq<Write> {
    if ops == [] then [] else
      var last := ops[|ops| - 1];
      Issued(ops[..|ops| - 1]) + if last.Exec? then [last.w] else []
  }

  const IDLE := Manager(false, [], [])

  // No replay of the history met a write the primary refused.
  ghost predicate ReplaysSucceed(ops: seq<Op>) {
    forall i | 0 <= i < |ops| && ops[i].Recover? :: forall k :: ops[i].accepts(k)
  }

  /**
    Failover refines a plain log: while replays succeed, the primary's log followed by the queue is the issued
    writes in order, and nothing is queued outside read-only mode.
   */
  lemma {:induction false} RefinesPlainLog(ops: seq<Op>)
    requires ReplaysSucceed(ops)
    ensures var m := ApplyAll(IDLE, ops); m.primary + m.queue == Issued(ops) && (m.readOnly || m.queue == [])
  {
    if ops != [] {
      var before := ops[..|ops| - 1];
      var op := ops[|ops| - 1];
      RefinesPlainLog(before);
      if op.Recover? {
        assert forall k :: op.accepts(k);
        AllAccepted(ApplyAll(IDLE, before).queue, op.accepts);
      }
    }
  }

  lemma OpConserves(m: Manager, op: Op)
    ensures var m', issued := Apply(m, op), if op.Exec? then [op.w] else [];
            multiset(m'.primary) + multiset(m'.queue) == multiset(m.primary) + multiset(m.queue) + multiset(issued)
  {
    if op.Recover? {
      ReplayPartitions(m.queue, op.accepts);
    }
  }

  /** With refused replays order may go, but no write does. */
  lemma {:induction false} NeverLosesAWrite(ops: seq<Op>)
    ensures var m := ApplyAll(IDLE, ops); multiset(m.primary) + multiset(m.queue) == multiset(Issued(ops))
  {
    if ops != [] {
      NeverLosesAWrite(ops[..|ops| - 1]);
      OpConserves(ApplyAll(IDLE, ops[..|ops| - 1]), ops[|ops| - 1]);
    }
  }

  predicate FailsAtPrimary(op: Op) {
    (op.Exec? || op.Query?) && !op.up
  }

  predicate Recovers(op: Op) {
    op.Recover? && op.up
  }

  // Some call of the history failed at the primary, and no recovery has succeeded since.
  ghost predicate FailedSince(ops: seq<Op>) {
    exists i | 0 <= i < |ops| ::
      FailsAtPrimary(ops[i]) && forall j | i < j < |ops| :: !Recovers(ops[j])
  }

  lemma FailedSinceNext(ops: seq<Op>)
    requires ops != []
    ensures FailedSince(ops) <==>
            FailsAtPrimary(ops[|ops| - 1]) || (FailedSince(ops[..|ops| - 1]) && !Recovers(ops[|ops| - 1]))
  {
    var n := |ops| - 1;
    assert forall i | 0 <= i < n :: ops[..n][i] == ops[i];
    if FailedSince(ops[..n]) && !Recovers(ops[n]) {
      var i :| 0 <= i < n && FailsAtPrimary(ops[..n][i]) && forall j | i < j < n :: !Recovers(ops[..n][j]);
      assert FailsAtPrimary(ops[i]);
    }
  }

  /**
    After any history the manager is read-only exactly when some write or read has failed at the primary since the
    last recovery that succeeded.
   */
  lemma {:induction false} ReadOnlyIff(ops: seq<Op>)
    ensures ApplyAll(IDLE, ops).readOnly <==> FailedSince(ops)
  {
    if ops != [] {
      ReadOnlyIff(ops[..|ops| - 1]);
      FailedSinceNext(ops);
    }
  }

  // The log of the primary and then the queue, stamped in order.
  function InStampOrder(m: Manager): Manager {
    Manager(m.readOnly, Stamped(m.primary, 0), Stamped(m.queue, |m.primary|))
  }

  function Log(m: Manager): seq<Write> {
    m.primary + m.queue
  }

  /**
    What a recovery does to an ordered log: order survives exactly when refusals come last, the queue empties exactly
    when there are none.
   */
  lemma RecoveryKeepsOrderIff(m: Manager, accepts: Verdicts)
    requires m.readOnly
    ensures var s := InStampOrder(m);
            && (Log(Apply(s, Recover(true, accepts))) == Log(s) <==> RefusalsLast(|m.queue|, accepts))
            && (Apply(m, Recover(true, accepts)).queue == [] <==> forall i | 0 <= i < |m.queue| :: accepts(i))
  {
    var s := InStampOrder(m);
    var a, r := Accepted(s.queue, accepts), Refused(s.queue, accepts);
    DistinctReplayKeepsOrderIff(s.queue, accepts);
    AllAccepted(m.queue, accepts);
    assert s.primary + a + r == s.primary + (a + r);
    if s.primary + (a + r) == s.primary + s.queue {
      assert (s.primary + (a + r))[|s.primary|..] == a + r;
      assert (s.primary + s.queue)[|s.primary|..] == s.queue;
    }
  }

  /**
    A write re-queued by a replay is overtaken: out of read-only mode a new write keeps order exactly when nothing is
    queued.
   */
  lemma ExecKeepsOrderIff(m: Manager, w: Write)
    requires !m.readOnly
    ensures var s, next := InStampOrder(m), w.(stamp := |Log(m)|);
            Log(Apply(s, Exec(next, true))) == Log(s) + [next] <==> m.queue == []
  {
    var s, next := InStampOrder(m), w.(stamp := |Log(m)|);
    if m.queue != [] {
      assert Log(Apply(s, Exec(next, true)))[|m.primary|] == next;
      assert (Log(s) + [next])[|m.primary|] == s.queue[0];
    }
  }
}

/** The protocol's events of one call, run without interruption, do what the call does on its own. */
module FailoverUninterrupted {
  import opened FailoverWrites
  import S = FailoverSequential
  import opened FailoverProtocol

  function View(s: State): S.Manager {
    S.Manager(s.readOnly, s.primary, s.queue)
  }

  // The state in which a call leaves s: the manager as m, the signs in agreement, everything else as before.
  function After(s: State, m: S.Manager): State {
    s.(readOnly := m.readOnly, lastError := m.readOnly, retryTicker := m.readOnly, primary := m.primary,
       queue := m.queue)
  }

  function ExecEvents(readOnly: bool, w: Write, up: bool): seq<Event> {
    if readOnly then [BeginExec(w), QueueWrite(w)]
    else if up then [BeginExec(w), TryPrimary(w, true)]
    else [BeginExec(w), TryPrimary(w, false), ExecFailure(w), QueueWrite(w)]
  }

  lemma ExecuteCons(s: State, e: Event, es: seq<Event>)
    ensures Execute(s, [e] + es) == Execute(Step(s, e), es)
  {
    assert ([e] + es)[1..] == es;
  }

  lemma {:induction false} ExecuteConcat(s: State, es: seq<Event>, more: seq<Event>)
    ensures Execute(s, es + more) == Execute(Execute(s, es), more)
    decreases |es|
  {
    if es == [] {
      assert es + more == more;
    } else {
      assert (es + more)[1..] == es[1..] + more;
      ExecuteConcat(Step(s, es[0]), es[1..], more);
    }
  }

  lemma ExecuteOne(s: State, e: Event)
    ensures Execute(s, [e]) == Step(s, e)
  {
    assert [e] == [e] + [];
    ExecuteCons(s, e, []);
  }

  lemma ExecuteTwo(s: State, d: Event, e: Event)
    ensures Execute(s, [d, e]) == Step(Step(s, d), e)
  {
    assert [d, e] == [d] + ([e] + []);
    ExecuteCons(s, d, [e] + []);
    ExecuteCons(Step(s, d), e, []);
  }

  lemma BackAgain(m: multiset<Write>, w: Write)
    ensures m + multiset{w} - multiset{w} == m
  {
  }

  // A write begins at the queue in read-only mode and at the primary otherwise.
  lemma BeginExecStep(s: State, w: Write)
    ensures var begun := s.(issued := s.issued + multiset{w});
            Step(s, BeginExec(w)) ==
            if s.readOnly then begun.(queueing := s.queueing + multiset{w})
            else begun.(trying := s.trying + multiset{w})
  {
  }

  lemma QueueStep(s: State, w: Write, queueing: multiset<Write>)
    requires s.queueing == queueing + multiset{w}
    ensures Step(s, QueueWrite(w)) == s.(queueing := queueing, queue := s.queue + [w])
  {
    BackAgain(queueing, w);
  }

  lemma TryStep(s: State, w: Write, up: bool, trying: multiset<Write>)
    requires s.trying == trying + multiset{w}
    ensures Step(s, TryPrimary(w, up)) ==
            if up then s.(trying := trying, primary := s.primary + [w])
            else s.(trying := trying, failing := s.failing + multiset{w})
  {
    BackAgain(trying, w);
  }

  lemma FailureStep(s: State, w: Write, failing: multiset<Write>)
    requires s.failing == failing + multiset{w} && !s.readOnly
    ensures Step(s, ExecFailure(w)) ==
            s.(readOnly := true, lastError := true, retryTicker := true, failing := failing,
               queueing := s.queueing + multiset{w})
  {
    BackAgain(failing, w);
  }

  /** A write that nothing interrupts. */
  lemma UninterruptedExec(s: State, w: Write, up: bool)
    requires SignsAgree(s)
    ensures Execute(s, ExecEvents(s.readOnly, w, up)) ==
            After(s, S.Apply(View(s), S.Exec(w, up))).(issued := s.issued + multiset{w})
  {
    BeginExecStep(s, w);
    var begun := Step(s, BeginExec(w));
    if s.readOnly {
      ExecuteTwo(s, BeginExec(w), QueueWrite(w));
      QueueStep(begun, w, s.queueing);
    } else if up {
      ExecuteTwo(s, BeginExec(w), TryPrimary(w, true));
      TryStep(begun, w, true, s.trying);
    } else {
      FailedExec(s, w);
    }
  }

  lemma FailedExec(s: State, w: Write)
    requires SignsAgree(s) && !s.readOnly
    ensures Execute(s, [BeginExec(w), TryPrimary(w, false), ExecFailure(w), QueueWrite(w)]) ==
            After(s, S.Manager(true, s.primary, s.queue + [w])).(issued := s.issued + multiset{w})
  {
    var front, back := [BeginExec(w), TryPrimary(w, false)], [ExecFailure(w), QueueWrite(w)];
    assert front + back == [BeginExec(w), TryPrimary(w, false), ExecFailure(w), QueueWrite(w)];
    ExecuteConcat(s, front, back);
    ExecuteTwo(s, BeginExec(w), TryPrimary(w, false));
    BeginExecStep(s, w);
    TryStep(Step(s, BeginExec(w)), w, false, s.trying);
    var tried := Step(Step(s, BeginExec(w)), TryPrimary(w, false));
    ExecuteTwo(tried, ExecFailure(w), QueueWrite(w));
    FailureStep(tried, w, s.failing);
    QueueStep(Step(tried, ExecFailure(w)), w, s.queueing);
  }

  function QueryEvents(readOnly: bool, up: bool): seq<Event> {
    if readOnly then [BeginQuery] else [BeginQuery, EndQuery(up)]
  }

  /** A read that nothing interrupts. */
  lemma UninterruptedQuery(s: State, up: bool)
    requires SignsAgree(s)
    ensures Execute(s, QueryEvents(s.readOnly, up)) == After(s, S.Apply(View(s), S.Query(up)))
  {
    if s.readOnly {
      ExecuteOne(s, BeginQuery);
    } else {
      ExecuteTwo(s, BeginQuery, EndQuery(up));
      QuerySteps(s, up);
    }
  }

  lemma QuerySteps(s: State, up: bool)
    requires SignsAgree(s) && !s.readOnly
    ensures Step(Step(s, BeginQuery), EndQuery(up)) == After(s, S.Apply(View(s), S.Query(up)))
  {
    assert Step(s, BeginQuery) == s.(reading := s.reading + 1);
  }

  // The replay of the first n copied writes.
  function ReplayEvents(n: nat, accepts: Verdicts): seq<Event> {
    if n == 0 then [] else ReplayEvents(n - 1, accepts) + OneReplay(accepts(n - 1))
  }

  function OneReplay(accepted: bool): seq<Event> {
    if accepted then [Replay(true)] else [Replay(false), Requeue]
  }

  lemma AcceptOne(s: State, w: Write, rest: seq<Write>)
    requires s.monitor == Replaying([w] + rest)
    ensures Execute(s, [Replay(true)]) == s.(primary := s.primary + [w], monitor := Replaying(rest))
  {
    assert ([w] + rest)[1..] == rest;
    ExecuteOne(s, Replay(true));
  }

  lemma RefuseOne(s: State, w: Write, rest: seq<Write>)
    requires s.monitor == Replaying([w] + rest)
    ensures Execute(s, [Replay(false), Requeue]) == s.(queue := s.queue + [w], monitor := Replaying(rest))
  {
    assert ([w] + rest)[1..] == rest;
    ExecuteTwo(s, Replay(false), Requeue);
    assert Step(s, Replay(false)) == s.(monitor := Requeueing(w, rest));
  }

  // After the replay of the first n copied writes.
  function Replayed(s: State, q: seq<Write>, n: nat, accepts: Verdicts): State
    requires n <= |q|
  {
    s.(primary := s.primary + Accepted(q[..n], accepts), queue := Refused(q[..n], accepts),
       monitor := Replaying(q[n..]))
  }

  lemma ReplayNext(s: State, q: seq<Write>, n: nat, accepts: Verdicts)
    requires n < |q|
    ensures Execute(Replayed(s, q, n, accepts), OneReplay(accepts(n))) == Replayed(s, q, n + 1, accepts)
  {
    assert q[n..] == [q[n]] + q[n + 1..] && q[..n + 1][..n] == q[..n];
    if accepts(n) {
      AcceptOne(Replayed(s, q, n, accepts), q[n], q[n + 1..]);
      AppendOne(s.primary, Accepted(q[..n], accepts), q[n]);
    } else {
      RefuseOne(Replayed(s, q, n, accepts), q[n], q[n + 1..]);
    }
  }

  lemma {:induction false} ReplayRun(s: State, q: seq<Write>, n: nat, accepts: Verdicts)
    requires s.monitor == Replaying(q) && s.queue == [] && n <= |q|
    ensures Execute(s, ReplayEvents(n, accepts)) == Replayed(s, q, n, accepts)
  {
    if n == 0 {
      ReplayNone(s, q, accepts);
    } else {
      ReplayRun(s, q, n - 1, accepts);
      ExecuteConcat(s, ReplayEvents(n - 1, accepts), OneReplay(accepts(n - 1)));
      ReplayNext(s, q, n - 1, accepts);
    }
  }

  lemma ReplayNone(s: State, q: seq<Write>, accepts: Verdicts)
    requires s.monitor == Replaying(q) && s.queue == []
    ensures Execute(s, []) == s == Replayed(s, q, 0, accepts)
  {
    assert q[0..] == q && s.primary + [] == s.primary;
  }

  lemma AppendOne(a: seq<Write>, b: seq<Write>, w: Write)
    ensures a + b + [w] == a + (b + [w])
  {
  }

  function RecoveryEvents(n: nat, up: bool, accepts: Verdicts): seq<Event> {
    if up then [Tick, Probe(true)] + ([CopyQueue] + (ReplayEvents(n, accepts) + [Leave])) else [Tick, Probe(false)]
  }

  lemma CopyReplayLeave(s: State, accepts: Verdicts)
    requires s.monitor == Copying
    ensures Execute(s, [CopyQueue] + (ReplayEvents(|s.queue|, accepts) + [Leave])) ==
            After(s, S.Manager(false, s.primary + Accepted(s.queue, accepts), Refused(s.queue, accepts)))
            .(monitor := Waiting)
  {
    var copied := s.(monitor := Replaying(s.queue), queue := []);
    ExecuteCons(s, CopyQueue, ReplayEvents(|s.queue|, accepts) + [Leave]);
    CopyStep(s);
    ReplayLeave(copied, s.queue, accepts);
  }

  lemma CopyStep(s: State)
    requires s.monitor == Copying
    ensures Step(s, CopyQueue) == s.(monitor := Replaying(s.queue), queue := [])
  {
  }

  lemma LeaveStep(s: State)
    requires s.monitor == Replaying([])
    ensures Execute(s, [Leave]) == After(s, S.Manager(false, s.primary, s.queue)).(monitor := Waiting)
  {
    ExecuteOne(s, Leave);
  }

  lemma ReplayLeave(s: State, q: seq<Write>, accepts: Verdicts)
    requires s.monitor == Replaying(q) && s.queue == []
    ensures Execute(s, ReplayEvents(|q|, accepts) + [Leave]) ==
            After(s, S.Manager(false, s.primary + Accepted(q, accepts), Refused(q, accepts))).(monitor := Waiting)
  {
    ExecuteConcat(s, ReplayEvents(|q|, accepts), [Leave]);
    ReplayRun(s, q, |q|, accepts);
    assert q[..|q|] == q && q[|q|..] == [];
    LeaveStep(s.(primary := s.primary + Accepted(q, accepts), queue := Refused(q, accepts),
                 monitor := Replaying([])));
  }

  lemma TickProbe(s: State, up: bool)
    requires s.monitor == Waiting && s.readOnly
    ensures Execute(s, [Tick, Probe(up)]) == if up then s.(monitor := Copying) else s
  {
    ExecuteTwo(s, Tick, Probe(up));
    assert Step(s, Tick) == s.(monitor := Probing);
  }

  /** A recovery that nothing interrupts. */
  lemma UninterruptedRecovery(s: State, up: bool, accepts: Verdicts)
    requires SignsAgree(s) && s.monitor == Waiting && s.readOnly
    ensures Execute(s, RecoveryEvents(|s.queue|, up, accepts)) ==
            After(s, S.Apply(View(s), S.Recover(up, accepts)))
  {
    TickProbe(s, up);
    if up {
      ExecuteConcat(s, [Tick, Probe(true)], [CopyQueue] + (ReplayEvents(|s.queue|, accepts) + [Leave]));
      CopyReplayLeave(s.(monitor := Copying), accepts);
    }
  }
}

/** The manager itself: a flag, a ticker, the last error and a write queue kept as a slice of a growing buffer. */
module FailoverClass {
  import opened Wrappers
  import opened FailoverWrites
  import opened FailoverSequential

  class PrimaryDB {
    var applied: seq<Write>

    constructor ()
      ensures applied == []
    {
      applied := [];
    }
  }

  class FailoverManager {
    const primaryDB: PrimaryDB
    var readOnly: bool
    var lastError: Option<string>
    var retryTicker: bool
    var buffer: array<Write>
    var len: nat

    ghost predicate Valid()
      reads this
    {
      len <= buffer.Length && readOnly == retryTicker == lastError.Some?
    }

    ghost function WriteQueue(): seq<Write>
      reads this, buffer
      requires Valid()
    {
      buffer[..len]
    }

    ghost function View(): Manager
      reads this, buffer, primaryDB
      requires Valid()
    {
      Manager(readOnly, primaryDB.applied, WriteQueue())
    }

    constructor (primaryDB: PrimaryDB)
      ensures Valid() && fresh(buffer)
      ensures this.primaryDB == primaryDB && !readOnly && WriteQueue() == []
    {
      this.primaryDB := primaryDB;
      readOnly, lastError, retryTicker := false, None, false;
      buffer := new Write[0];
      len := 0;
    }

    // append(fm.writeQueue, w): in place while the buffer has room, into a larger copy otherwise.
    method QueueWrite(w: Write)
      requires Valid()
      modifies this, buffer
      ensures Valid() && (buffer == old(buffer) || fresh(buffer))
      ensures WriteQueue() == old(WriteQueue()) + [w]
      ensures readOnly == old(readOnly) && lastError == old(lastError) && retryTicker == old(retryTicker)
    {
      if len == buffer.Length {
        var larger := new Write[2 * len + 1];
        forall i | 0 <= i < len {
          larger[i] := buffer[i];
        }
        buffer := larger;
      }
      buffer[len] := w;
      len := len + 1;
    }

    method HandlePrimaryFailure(err: string)
      requires Valid()
      modifies this
      ensures Valid() && readOnly && retryTicker && buffer == old(buffer) && len == old(len)
      ensures old(readOnly) ==> lastError == old(lastError)
      ensures !old(readOnly) ==> lastError == Some(err)
    {
      if !readOnly {
        readOnly := true;
        lastError := Some(err);
        retryTicker := true;
      }
    }

    // err is what the primary answers: None when it accepts the statement.
    method Exec(w: Write, err: Option<string>) returns (applied: bool)
      requires Valid()
      modifies this, buffer, primaryDB
      ensures Valid() && (buffer == old(buffer) || fresh(buffer))
      ensures View() == Apply(old(View()), Op.Exec(w, err.None?))
      ensures applied <==> !old(readOnly) && err.None?
      ensures readOnly == retryTicker == (old(readOnly) || err.Some?)
      ensures lastError == if old(readOnly) then old(lastError) else err
      ensures primaryDB.applied == old(primaryDB.applied) + if applied then [w] else []
      ensures WriteQueue() == old(WriteQueue()) + if applied then [] else [w]
    {
      if readOnly {
        QueueWrite(w);
        return false;
      }
      if err.Some? {
        HandlePrimaryFailure(err.value);
        QueueWrite(w);
        return false;
      }
      primaryDB.applied := primaryDB.applied + [w];
      applied := true;
    }

    method Query(err: Option<string>) returns (fromCache: bool)
      requires Valid()
      modifies this
      ensures Valid() && buffer == old(buffer)
      ensures View() == Apply(old(View()), Op.Query(err.None?))
      ensures fromCache == readOnly == retryTicker == (old(readOnly) || err.Some?)
      ensures lastError == if old(readOnly) then old(lastError) else err
      ensures WriteQueue() == old(WriteQueue())
    {
      if readOnly {
        return true;
      }
      if err.Some? {
        HandlePrimaryFailure(err.value);
        return true;
      }
      fromCache := false;
    }

    method CopyQueue() returns (queue: array<Write>)
      requires Valid()
      ensures fresh(queue) && queue[..] == WriteQueue()
    {
      queue := new Write[len];
      forall i | 0 <= i < len {
        queue[i] := buffer[i];
      }
    }

    /**
      The queue is copied, its buffer is truncated to zero and reused for the writes that fail again, while the
      copy is replayed: each copied write is tried once, in order.
     */
    method ReplayWrites(accepts: Verdicts)
      requires Valid()
      modifies this, buffer, primaryDB
      ensures Valid() && (buffer == old(buffer) || fresh(buffer))
      ensures primaryDB.applied == old(primaryDB.applied) + Accepted(old(WriteQueue()), accepts)
      ensures WriteQueue() == Refused(old(WriteQueue()), accepts)
      ensures readOnly == old(readOnly) && lastError == old(lastError) && retryTicker == old(retryTicker)
    {
      var queue := CopyQueue();
      ghost var q := WriteQueue();
      len := 0;
      if queue.Length == 0 {
        return;
      }
      for i := 0 to queue.Length
        invariant Valid() && readOnly == old(readOnly) && lastError == old(lastError)
        invariant buffer == old(buffer) || fresh(buffer)
        invariant buffer != queue && queue[..] == q
        invariant primaryDB.applied == old(primaryDB.applied) + Accepted(q[..i], accepts)
        invariant WriteQueue() == Refused(q[..i], accepts)
      {
        assert q[..i + 1][..i] == q[..i];
        if accepts(i) {
          primaryDB.applied := primaryDB.applied + [queue[i]];
        } else {
          QueueWrite(queue[i]);
        }
      }
      assert q[..|q|] == q;
    }

    // Out of read-only mode, or while the primary fails one of its tests, nothing happens.
    method AttemptRecovery(ping: bool, probe: bool, accepts: Verdicts)
      requires Valid()
      modifies this, buffer, primaryDB
      ensures Valid() && (buffer == old(buffer) || fresh(buffer))
      ensures View() == Apply(old(View()), Op.Recover(ping && probe, accepts))
      ensures old(readOnly) && ping && probe ==>
                && !readOnly && lastError == None && !retryTicker
                && primaryDB.applied == old(primaryDB.applied) + Accepted(old(WriteQueue()), accepts)
                && WriteQueue() == Refused(old(WriteQueue()), accepts)
      ensures !(old(readOnly) && ping && probe) ==>
                && readOnly == old(readOnly) && lastError == old(lastError) && retryTicker == old(retryTicker)
                && primaryDB.applied == old(primaryDB.applied) && WriteQueue() == old(WriteQueue())
    {
      if !readOnly || !ping || !probe {
        return;
      }
      ReplayWrites(accepts);
      readOnly := false;
      lastError := None;
      retryTicker := false;
    }
  }
}

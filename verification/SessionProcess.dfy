/** Ports and request order of apps/electerm-agent/src/app/server/session-process.js. */
module SessionProcess {
  import opened Prelude

  const MIN_PORT: nat := 30975
  const MAX_PORT: nat := 65534
  const PORTS: nat := MAX_PORT - MIN_PORT + 1

  type Port = p: nat | MIN_PORT <= p <= MAX_PORT witness MIN_PORT

  function NextPort(port: nat): Port
    requires port >= MIN_PORT
  {
    if port >= MAX_PORT then MIN_PORT else port + 1
  }

  // ---------- Ports ----------

  /** One call of `getPort`: it probes a candidate, then holds the port it found until it is released. */
  datatype Claim = Probing(port: Port) | Reserved(port: Port) | Over

  predicate Live(c: Claim) { !c.Over? }

  /** The pending ports are those of the live claims, and no two of them share one. */
  ghost predicate Exclusive(claims: seq<Claim>, pendingPorts: set<nat>) {
    && (forall c :: 0 <= c < |claims| && Live(claims[c]) ==> claims[c].port in pendingPorts)
    && (forall p :: p in pendingPorts ==> exists c :: 0 <= c < |claims| && Live(claims[c]) && claims[c].port == p)
    && (forall c, d :: 0 <= c < d < |claims| && Live(claims[c]) && Live(claims[d]) ==> claims[c].port != claims[d].port)
  }

  /** A claim moves to a port that nobody holds, or is over. */
  lemma ClaimMoves(claims: seq<Claim>, pendingPorts: set<nat>, c: nat, next: Claim)
    requires Exclusive(claims, pendingPorts) && c < |claims| && Live(claims[c])
    requires Live(next) ==> next.port !in pendingPorts - {claims[c].port}
    ensures Exclusive(claims[c := next], pendingPorts - {claims[c].port} + (if Live(next) then {next.port} else {}))
  {
    var after, pending := claims[c := next], pendingPorts - {claims[c].port} + (if Live(next) then {next.port} else {});
    forall p | p in pending ensures exists d :: 0 <= d < |after| && Live(after[d]) && after[d].port == p {
      if Live(next) && p == next.port {
        assert after[c].port == p;
      } else {
        var d :| 0 <= d < |claims| && Live(claims[d]) && claims[d].port == p;
        assert after[d] == claims[d];
      }
    }
  }

  lemma ClaimAdded(claims: seq<Claim>, pendingPorts: set<nat>, next: Claim)
    requires Exclusive(claims, pendingPorts) && Live(next) && next.port !in pendingPorts
    ensures Exclusive(claims + [next], pendingPorts + {next.port})
  {
    var after := claims + [next];
    forall p | p in pendingPorts + {next.port} ensures exists d ::
        0 <= d < |after| && Live(after[d]) && after[d].port == p {
      if p == next.port {
        assert after[|claims|].port == p;
      } else {
        var d :| 0 <= d < |claims| && Live(claims[d]) && claims[d].port == p;
        assert after[d] == claims[d];
      }
    }
  }

  /** How many steps of `NextPort` lead from one port to another. */
  function Distance(from: Port, to: Port): (d: nat)
    ensures d < PORTS && (d == 0 <==> from == to)
  {
    if from <= to then to - from else to + PORTS - from
  }

  /** The first port from `start` on that is not pending, going round from 65534 to 30975. */
  ghost predicate IsNext(start: Port, port: Port, pending: set<nat>) {
    && 30975 <= port <= 65534 && port !in pending
    && forall p: Port :: Distance(start, p) < Distance(start, port) ==> p in pending
  }

  /** The next port is one step further, until all were visited. */
  lemma DistanceStep(start: Port, port: Port)
    ensures Distance(start, port) < PORTS - 1 ==> Distance(start, NextPort(port)) == Distance(start, port) + 1
    ensures forall p: Port :: Distance(start, p) == Distance(start, port) ==> p == port
    ensures forall p: Port :: Distance(start, p) <= PORTS - 1
  {
  }

  class PortPool {
    var pendingPorts: set<nat>
    var lastPort: Port
    /** The calls under way, by the candidate or port their closures hold. */
    var claims: seq<Claim>

    ghost predicate Valid()
      reads this
    {
      Exclusive(claims, pendingPorts)
    }

    constructor ()
      ensures Valid() && claims == [] && lastPort == MIN_PORT
    {
      pendingPorts, lastPort, claims := {}, MIN_PORT, [];
    }

    /** The loop that skips pending candidates. With every port of the range pending it goes round for ever:
        None stands for that. */
    method SkipPending(start: Port) returns (port: Option<Port>)
      ensures port.None? <==> forall p: Port :: p in pendingPorts
      ensures port.Some? ==> IsNext(start, port.value, pendingPorts)
    {
      hide Distance, NextPort;
      var candidate := start;
      var rounds := 0;
      while candidate in pendingPorts
        invariant rounds == Distance(start, candidate)
        invariant forall p: Port :: Distance(start, p) < rounds ==> p in pendingPorts
        decreases PORTS - rounds
      {
        DistanceStep(start, candidate);
        if rounds == PORTS - 1 { return None; }
        candidate := NextPort(candidate);
        rounds := rounds + 1;
      }
      port := Some(candidate);
    }

    /** `getPort`: the next candidate that is not pending becomes pending; None if there is none. */
    method GetPort(fromPort: Option<int>) returns (claim: Option<nat>)
      requires Valid()
      modifies this
      ensures Valid() && lastPort == old(lastPort)
      ensures claim.None? <==> forall p: Port :: p in old(pendingPorts)
      ensures claim.None? ==> claims == old(claims) && pendingPorts == old(pendingPorts)
      ensures claim.Some? ==>
                && claim.value == |old(claims)| && |claims| == claim.value + 1 && claims[..claim.value] == old(claims)
                && claims[claim.value].Probing?
                && IsNext(match fromPort
                          case None => if old(lastPort) == 65534 then 30975 else old(lastPort) + 1
                          case Some(p) => Max(30975, Min(65534, p)),
                          claims[claim.value].port, old(pendingPorts))
                && pendingPorts == old(pendingPorts) + {claims[claim.value].port}
    {
      var start: Port := if fromPort.None? then NextPort(lastPort)
        else if fromPort.value < MIN_PORT then MIN_PORT
        else if fromPort.value > MAX_PORT then MAX_PORT
        else fromPort.value;
      var candidate := SkipPending(start);
      if candidate.None? { return None; }
      claim := Some(|claims|);
      ClaimAdded(claims, pendingPorts, Probing(candidate.value));
      claims := claims + [Probing(candidate.value)];
      pendingPorts := pendingPorts + {candidate.value};
    }

    /** The probe of a candidate answers with a free port, or None for an error. A port that another
        claim holds is not taken: the probe goes on behind it. */
    method ProbeAnswers(claim: nat, freePort: Option<int>)
      requires Valid() && claim < |claims| && claims[claim].Probing?
      modifies this
      ensures Valid() && |claims| == |old(claims)| && forall c :: 0 <= c < |claims| && c != claim ==>
          claims[c] == old(claims)[c]
      ensures var valid := freePort.Some? && MIN_PORT <= freePort.value <= MAX_PORT;
              var taken := valid && freePort.value in old(pendingPorts) - {old(claims)[claim].port};
              claims[claim] == (if !valid then Over else if taken then claims[claim] else Reserved(freePort.value))
              && (taken ==>
                    && claims[claim].Probing?
                    && IsNext(if freePort.value == 65534 then 30975 else freePort.value + 1, claims[claim].port,
                              old(pendingPorts) - {old(claims)[claim].port}))
              && lastPort == if valid && !taken then freePort.value else old(lastPort)
    {
      var candidate := claims[claim].port;
      ghost var before, pending := claims, pendingPorts;
      pendingPorts := pendingPorts - {candidate};
      if freePort.None? || freePort.value < MIN_PORT || freePort.value > MAX_PORT {
        ClaimMoves(before, pending, claim, Over);
        claims := claims[claim := Over];
        return;
      }
      var port: Port := freePort.value;
      if port in pendingPorts {
        assert candidate !in pendingPorts;
        var next := SkipPending(NextPort(port));
        ClaimMoves(before, pending, claim, Probing(next.value));
        pendingPorts := pendingPorts + {next.value};
        claims := claims[claim := Probing(next.value)];
        return;
      }
      ClaimMoves(before, pending, claim, Reserved(port));
      pendingPorts := pendingPorts + {port};
      lastPort := port;
      claims := claims[claim := Reserved(port)];
    }

    /** The session is ready, or failed: its reservation ends, and only its own. */
    method ReleasePort(claim: nat)
      requires Valid() && claim < |claims| && claims[claim].Reserved?
      modifies this`pendingPorts, this`claims
      ensures Valid() && claims == old(claims)[claim := Over]
          && pendingPorts == old(pendingPorts) - {old(claims)[claim].port}
    {
      ClaimMoves(claims, pendingPorts, claim, Over);
      pendingPorts := pendingPorts - {claims[claim].port};
      claims := claims[claim := Over];
    }
  }

  // ---------- Requests ----------

  datatype Status = Starting | Installed | Failed

  /** One call of `terminal`; `ended` tells that its child was finalized. */
  datatype Request = Request(pid: string, status: Status, ended: bool)

  /** `latestTerminalRequests` and `activeTerminals`, by the number of the request, and the requests in
      the order in which they were installed. */
  datatype State = State(requests: seq<Request>, latest: map<string, nat>, active: map<string, nat>, installs: seq<nat>)

  datatype Event =
    | Begin(pid: string)
    | Install(r: nat, aborted: bool)
    | Fail(r: nat)
    | End(r: nat)

  const INITIAL: State := State([], map[], map[], [])

  function Without(m: map<string, nat>, pid: string, r: nat): map<string, nat> {
    if pid in m && m[pid] == r then m - {pid} else m
  }

  /** `finalizeEntry`. */
  function Finalize(s: State, r: nat): State
    requires r < |s.requests|
  {
    var pid := s.requests[r].pid;
    if s.requests[r].ended then s
    else
      s.(requests := s.requests[r := s.requests[r].(ended := true)],
         active := Without(s.active, pid, r),
         latest := Without(s.latest, pid, r))
  }

  /** The last checks of `terminal` and the installation, with no await in between. */
  function TryInstall(s: State, r: nat, aborted: bool): State
    requires r < |s.requests|
  {
    var pid := s.requests[r].pid;
    if aborted || pid !in s.latest || s.latest[pid] != r then s
    else
      s.(requests := s.requests[r := s.requests[r].(status := Installed)], active := s.active[pid := r], installs :=
         s.installs + [r])
  }

  function Step(s: State, event: Event): State {
    match event
    case Begin(pid) =>
      s.(requests := s.requests + [Request(pid, Starting, false)], latest := s.latest[pid := |s.requests|])
    case Install(r, aborted) =>
      if r >= |s.requests| || s.requests[r].status != Starting then s else TryInstall(s, r, aborted)
    case Fail(r) =>
      if r >= |s.requests| || s.requests[r].status != Starting then s
      else
        var t := Finalize(s, r);
        var pid := t.requests[r].pid;
        t.(requests := t.requests[r := t.requests[r].(status := Failed)],
           latest := Without(t.latest, pid, r))
    case End(r) => if r >= |s.requests| then s else Finalize(s, r)
  }

  function Run(events: seq<Event>): State {
    if events == [] then INITIAL else Step(Run(events[..|events| - 1]), events[|events| - 1])
  }

  /** The latest request of a pid is its newest and has not ended. */
  ghost predicate LatestIsNewest(s: State) {
    && (forall pid :: pid in s.latest ==>
          && s.latest[pid] < |s.requests| && s.requests[s.latest[pid]].pid == pid && !s.requests[s.latest[pid]].ended
          && s.requests[s.latest[pid]].status != Failed)
    && (forall pid, q :: pid in s.latest && s.latest[pid] < q < |s.requests| ==> s.requests[q].pid != pid)
  }

  /** The active request of a pid was installed and has not ended. */
  ghost predicate ActiveIsInstalled(s: State) {
    forall pid :: pid in s.active ==>
      && s.active[pid] < |s.requests| && s.requests[s.active[pid]].pid == pid
      && s.requests[s.active[pid]].status == Installed && !s.requests[s.active[pid]].ended
  }

  /** Each pid's requests are installed in the order they began, and the active one is the last of them. */
  ghost predicate InstallsAscend(s: State) {
    && (forall i :: 0 <= i < |s.installs| ==>
        s.installs[i] < |s.requests| && s.requests[s.installs[i]].status == Installed)
    && (forall i, j :: 0 <= i < j < |s.installs| && s.requests[s.installs[i]].pid == s.requests[s.installs[j]].pid ==>
          s.installs[i] < s.installs[j])
    && (forall i :: 0 <= i < |s.installs| && s.requests[s.installs[i]].pid in s.active ==>
          s.installs[i] <= s.active[s.requests[s.installs[i]].pid])
  }

  ghost predicate Inv(s: State) {
    LatestIsNewest(s) && ActiveIsInstalled(s) && InstallsAscend(s)
  }

  lemma BeginKeeps(s: State, pid: string)
    requires Inv(s)
    ensures Inv(Step(s, Begin(pid)))
  {
  }

  lemma InstallKeeps(s: State, r: nat, aborted: bool)
    requires Inv(s) && r < |s.requests| && s.requests[r].status == Starting
    ensures Inv(TryInstall(s, r, aborted))
  {
    var t := TryInstall(s, r, aborted);
    if t != s {
      InstallIsNewest(s, r);
      InstallAscends(s, t, r);
      hide InstallsAscend;
    }
  }

  lemma InstallIsNewest(s: State, r: nat)
    requires Inv(s) && r < |s.requests| && s.requests[r].pid in s.latest && s.latest[s.requests[r].pid] == r
    ensures forall i :: 0 <= i < |s.installs| && s.requests[s.installs[i]].pid == s.requests[r].pid ==>
        s.installs[i] <= r
  {
  }

  lemma InstallAscends(s: State, t: State, r: nat)
    requires InstallsAscend(s) && r < |s.requests| && s.requests[r].status == Starting
    requires t.requests == s.requests[r := s.requests[r].(status := Installed)] && t.installs == s.installs + [r]
    requires t.active == s.active[s.requests[r].pid := r]
    requires forall i :: 0 <= i < |s.installs| && s.requests[s.installs[i]].pid == s.requests[r].pid ==>
        s.installs[i] <= r
    ensures InstallsAscend(t)
  {
    forall i | 0 <= i < |s.installs|
      ensures t.installs[i] == s.installs[i] && t.requests[t.installs[i]] == s.requests[s.installs[i]]
          && t.installs[i] != r
    {
    }
  }

  /** A request that ends leaves the maps, and nothing else changes. */
  lemma LeavesTheMaps(s: State, r: nat, after: Request)
    requires Inv(s) && r < |s.requests| && after.pid == s.requests[r].pid
    requires after.status == s.requests[r].status || s.requests[r].status == Starting
    requires after.status != Installed || s.requests[r].status == Installed
    ensures Inv(s.(requests := s.requests[r := after], active := Without(s.active, after.pid, r), latest :=
                   Without(s.latest, after.pid, r)))
  {
    var t := s.(requests := s.requests[r := after], active := Without(s.active, after.pid, r), latest :=
                Without(s.latest, after.pid, r));
    LatestWithout(s, t, r, after);
    ActiveWithout(s, t, r, after);
    InstallsWithout(s, t, r, after);
  }

  lemma LatestWithout(s: State, t: State, r: nat, after: Request)
    requires LatestIsNewest(s) && r < |s.requests| && after.pid == s.requests[r].pid
    requires t.requests == s.requests[r := after] && t.latest == Without(s.latest, after.pid, r)
    ensures LatestIsNewest(t)
  {
    forall pid | pid in t.latest ensures t.latest[pid] == s.latest[pid] != r {
      assert s.requests[s.latest[pid]].pid == pid;
    }
    forall q | 0 <= q < |s.requests| ensures t.requests[q].pid == s.requests[q].pid { }
  }

  lemma ActiveWithout(s: State, t: State, r: nat, after: Request)
    requires ActiveIsInstalled(s) && r < |s.requests| && after.pid == s.requests[r].pid
    requires t.requests == s.requests[r := after] && t.active == Without(s.active, after.pid, r)
    ensures ActiveIsInstalled(t)
  {
    forall pid | pid in t.active ensures t.active[pid] == s.active[pid] != r {
      assert s.requests[s.active[pid]].pid == pid;
    }
  }

  lemma InstallsWithout(s: State, t: State, r: nat, after: Request)
    requires InstallsAscend(s) && r < |s.requests| && after.pid == s.requests[r].pid
    requires after.status == s.requests[r].status || s.requests[r].status == Starting
    requires t.requests == s.requests[r := after] && t.active == Without(s.active, after.pid, r)
        && t.installs == s.installs
    ensures InstallsAscend(t)
  {
    forall i | 0 <= i < |s.installs|
      ensures s.installs[i] < |s.requests| && t.requests[s.installs[i]].pid == s.requests[s.installs[i]].pid
      ensures t.requests[s.installs[i]].status == Installed
    {
    }
    hide Without;
    assert forall pid :: pid in t.active ==>
        pid in s.active && t.active[pid] == s.active[pid] by { WithoutIsLess(s.active, after.pid, r); }
  }

  lemma WithoutIsLess(m: map<string, nat>, pid: string, r: nat)
    ensures forall p :: p in Without(m, pid, r) ==> p in m && Without(m, pid, r)[p] == m[p]
  {
  }

  lemma FinalizeKeeps(s: State, r: nat)
    requires Inv(s) && r < |s.requests|
    ensures Inv(Finalize(s, r))
  {
    LeavesTheMaps(s, r, s.requests[r].(ended := true));
    hide Inv;
  }

  lemma FailKeeps(s: State, r: nat)
    requires Inv(s) && r < |s.requests| && s.requests[r].status == Starting
    ensures Inv(Step(s, Fail(r)))
  {
    StartingIsNotActive(s, r);
    LeavesTheMaps(s, r, s.requests[r].(ended := true, status := Failed));
    hide Inv;
    FailAtOnce(s, r);
  }

  lemma StartingIsNotActive(s: State, r: nat)
    requires ActiveIsInstalled(s) && r < |s.requests| && s.requests[r].status == Starting
    ensures Without(s.active, s.requests[r].pid, r) == s.active
  {
  }

  /** Closing the entry and forgetting the request come to one change. */
  lemma FailAtOnce(s: State, r: nat)
    requires r < |s.requests| && s.requests[r].status == Starting && Without(s.active, s.requests[r].pid, r) == s.active
    ensures var pid := s.requests[r].pid;
            Step(s, Fail(r)) ==
              s.(requests := s.requests[r := s.requests[r].(ended := true, status := Failed)],
                 active := Without(s.active, pid, r), latest := Without(s.latest, pid, r))
  {
    var pid := s.requests[r].pid;
    assert Without(Without(s.latest, pid, r), pid, r) == Without(s.latest, pid, r);
    hide Without;
  }

  lemma StepKeeps(s: State, event: Event)
    requires Inv(s)
    ensures Inv(Step(s, event))
  {
    hide Inv;
    match event {
      case Begin(pid) => BeginKeeps(s, pid);
      case Install(r, aborted) =>
        if r < |s.requests| && s.requests[r].status == Starting { InstallKeeps(s, r, aborted); }
      case Fail(r) =>
        if r < |s.requests| && s.requests[r].status == Starting { FailKeeps(s, r); }
      case End(r) =>
        if r < |s.requests| { FinalizeKeeps(s, r); }
    }
  }

  lemma {:induction false} RunKeeps(events: seq<Event>)
    ensures Inv(Run(events))
  {
    if events != [] {
      RunKeeps(events[..|events| - 1]);
      StepKeeps(Run(events[..|events| - 1]), events[|events| - 1]);
    }
  }

  /** In every run the requests of a pid are installed in the order in which they began. */
  lemma InstalledInOrder(events: seq<Event>, i: nat, j: nat)
    requires var s := Run(events); i < j < |s.installs|
    ensures var s := Run(events);
            && s.installs[i] < |s.requests| && s.installs[j] < |s.requests|
            && (s.requests[s.installs[i]].pid == s.requests[s.installs[j]].pid ==> s.installs[i] < s.installs[j])
  {
    RunKeeps(events);
  }

  /** What is active is only ever replaced by a newer request. */
  lemma OlderNeverReplaces(events: seq<Event>, event: Event, pid: string)
    requires pid in Run(events).active && pid in Step(Run(events), event).active
    ensures Run(events).active[pid] <= Step(Run(events), event).active[pid]
  {
    RunKeeps(events);
  }

  /** A request that a newer one overtook before it was installed never is. */
  lemma {:induction false} SupersededNeverInstalls(events: seq<Event>, more: seq<Event>, r: nat, q: nat)
    requires var s := Run(events);
        r < q < |s.requests| && s.requests[r].pid == s.requests[q].pid && s.requests[r].status == Starting
    ensures var t := Run(events + more);
            && q < |t.requests| && t.requests[r].pid == t.requests[q].pid && t.requests[r].status != Installed
    decreases |more|
  {
    if more == [] {
      assert events + more == events;
    } else {
      var front := more[..|more| - 1];
      assert (events + more)[..|events + more| - 1] == events + front;
      SupersededNeverInstalls(events, front, r, q);
      RunKeeps(events + front);
      hide Inv, Step;
      SupersededStep(Run(events + front), more[|more| - 1], r, q);
    }
  }

  lemma SupersededStep(s: State, event: Event, r: nat, q: nat)
    requires Inv(s) && r < q < |s.requests| && s.requests[r].pid == s.requests[q].pid
        && s.requests[r].status != Installed
    ensures var t := Step(s, event);
            q < |t.requests| && t.requests[r].pid == t.requests[q].pid && t.requests[r].status != Installed
  {
    hide InstallsAscend, ActiveIsInstalled;
  }

  // ---------- Which requests are installed ----------

  /** Nobody has asked for its pid since, and its child lives. */
  predicate IsNewest(s: State, r: nat) {
    && r < |s.requests| && !s.requests[r].ended && s.requests[r].status != Failed
    && forall q :: r < q < |s.requests| ==> s.requests[q].pid != s.requests[r].pid
  }

  ghost predicate KnowsNewest(s: State) {
    forall r: nat :: IsNewest(s, r) ==> s.requests[r].pid in s.latest && s.latest[s.requests[r].pid] == r
  }

  /** The newest installed request of a pid is active unless its child ended, and no older one is. */
  ghost predicate KnowsActive(s: State) {
    && (forall r: nat :: IsLastInstalled(s, r) && !s.requests[r].ended ==>
          s.requests[r].pid in s.active && s.active[s.requests[r].pid] == r)
    && (forall q: nat :: q < |s.requests| && s.requests[q].status == Installed && s.requests[q].pid in s.active ==>
          q <= s.active[s.requests[q].pid])
  }

  predicate IsLastInstalled(s: State, r: nat) {
    && r < |s.requests| && s.requests[r].status == Installed
    && forall q :: r < q < |s.requests| && s.requests[q].pid == s.requests[r].pid ==> s.requests[q].status != Installed
  }

  /** Only request `r` changes, and for good if it ended or failed. */
  lemma OneChanges(s: State, event: Event, r: nat)
    requires r < |s.requests| && !event.Begin?
    ensures var t := Step(s, event);
            && |t.requests| == |s.requests| && t.requests[r].pid == s.requests[r].pid
            && (s.requests[r].ended ==> t.requests[r].ended)
            && (event.r != r ==> t.requests[r] == s.requests[r])
            && (s.requests[r].status != Starting ==> t.requests[r].status == s.requests[r].status)
  {
  }

  lemma StepKnowsNewest(s: State, event: Event)
    requires Inv(s) && KnowsNewest(s)
    ensures KnowsNewest(Step(s, event))
  {
    var t := Step(s, event);
    forall r: nat | IsNewest(t, r) ensures t.requests[r].pid in t.latest && t.latest[t.requests[r].pid] == r {
      if !event.Begin? {
        NewestWasNewest(s, event, r);
      } else if r < |s.requests| {
        assert forall q :: r < q < |s.requests| ==> t.requests[q] == s.requests[q];
        assert t.requests[|s.requests|].pid == event.pid && IsNewest(s, r);
      }
    }
  }

  lemma NewestWasNewest(s: State, event: Event, r: nat)
    requires Inv(s) && KnowsNewest(s) && !event.Begin? && IsNewest(Step(s, event), r)
    ensures var t := Step(s, event); t.requests[r].pid in t.latest && t.latest[t.requests[r].pid] == r
  {
    var t := Step(s, event);
    forall q: nat | q < |t.requests| ensures |t.requests| == |s.requests| && t.requests[q].pid == s.requests[q].pid {
      OneStays(s, event);
      OneChanges(s, event, q);
    }
    OneStays(s, event);
    OneChanges(s, event, r);
    assert IsNewest(s, r);
    hide Inv;
    if event.r == r { LatestStays(s, event, r); } else { OthersStay(s, event, r); }
  }

  lemma OneStays(s: State, event: Event)
    requires !event.Begin?
    ensures |Step(s, event).requests| == |s.requests|
  {
  }

  lemma LatestStays(s: State, event: Event, r: nat)
    requires r < |s.requests| && s.requests[r].pid in s.latest && s.latest[s.requests[r].pid] == r
    requires !event.Begin? && event.r == r && !s.requests[r].ended && s.requests[r].status != Failed
    requires !Step(s, event).requests[r].ended && Step(s, event).requests[r].status != Failed
    ensures Step(s, event).latest == s.latest
  {
  }

  lemma OthersStay(s: State, event: Event, r: nat)
    requires r < |s.requests| && s.requests[r].pid in s.latest && s.latest[s.requests[r].pid] == r
    requires !event.Begin? && event.r != r
    ensures var t := Step(s, event); s.requests[r].pid in t.latest && t.latest[s.requests[r].pid] == r
  {
  }

  lemma StepKnowsActive(s: State, event: Event)
    requires Inv(s) && KnowsNewest(s) && KnowsActive(s)
    ensures KnowsActive(Step(s, event))
  {
    match event {
      case Begin(_) =>
        var t := Step(s, event);
        forall r: nat | IsLastInstalled(t, r) ensures IsLastInstalled(s, r) {
          assert forall q :: r < q < |s.requests| ==> t.requests[q] == s.requests[q];
        }
      case Install(r, aborted) =>
        if r < |s.requests| && s.requests[r].status == Starting { InstallKnowsActive(s, r, aborted); }
      case Fail(r) =>
        if r < |s.requests| && s.requests[r].status == Starting {
          StartingIsNotActive(s, r);
          FailAtOnce(s, r);
          LeaverKnowsActive(s, Step(s, event), r, s.requests[r].(ended := true, status := Failed));
        }
      case End(r) =>
        if r < |s.requests| && !s.requests[r].ended {
          LeaverKnowsActive(s, Step(s, event), r, s.requests[r].(ended := true));
        }
    }
    hide Inv, KnowsActive, KnowsNewest;
  }

  lemma InstallKnowsActive(s: State, r: nat, aborted: bool)
    requires Inv(s) && KnowsActive(s) && r < |s.requests| && s.requests[r].status == Starting
    ensures KnowsActive(TryInstall(s, r, aborted))
  {
    hide InstallsAscend;
    var t := TryInstall(s, r, aborted);
    if t != s {
      var pid := s.requests[r].pid;
      assert forall q :: r < q < |s.requests| ==> s.requests[q].pid != pid;
      forall q: nat | IsLastInstalled(t, q) && q != r ensures IsLastInstalled(s, q) && s.requests[q].pid != pid {
        assert t.requests[r].status == Installed;
        assert forall p :: q < p < |s.requests| && p != r ==> t.requests[p] == s.requests[p];
      }
    }
  }

  lemma LeaverKnowsActive(s: State, t: State, r: nat, after: Request)
    requires Inv(s) && KnowsActive(s) && r < |s.requests|
    requires after.pid == s.requests[r].pid && after.ended
    requires after.status == s.requests[r].status || (s.requests[r].status == Starting && after.status == Failed)
    requires t.requests == s.requests[r := after] && t.active == Without(s.active, after.pid, r)
    ensures KnowsActive(t)
  {
    hide InstallsAscend, LatestIsNewest;
    forall q: nat | IsLastInstalled(t, q) && q != r ensures IsLastInstalled(s, q) {
      forall p | q < p < |s.requests| && s.requests[p].pid == s.requests[q].pid
        ensures s.requests[p].status != Installed
      {
        assert t.requests[p].pid == s.requests[p].pid;
      }
    }
  }

  lemma InitialKnows()
    ensures Inv(INITIAL) && KnowsNewest(INITIAL) && KnowsActive(INITIAL)
  {
  }

  lemma {:induction false} RunKnows(events: seq<Event>)
    ensures Inv(Run(events)) && KnowsNewest(Run(events)) && KnowsActive(Run(events))
  {
    InitialKnows();
    hide Inv, KnowsActive, KnowsNewest, Step, INITIAL;
    if events != [] {
      var front, last := events[..|events| - 1], events[|events| - 1];
      RunKnows(front);
      StepKeeps(Run(front), last);
      StepKnowsNewest(Run(front), last);
      StepKnowsActive(Run(front), last);
    }
  }

  /** After any run, a request that comes to its installation is installed exactly if it was not aborted and is
      still the newest of its pid; else nothing changes. */
  lemma InstalledIff(events: seq<Event>, r: nat, aborted: bool)
    ensures var s, t := Run(events), Run(events + [Install(r, aborted)]);
            if r < |s.requests| && s.requests[r].status == Starting && !aborted && IsNewest(s, r)
            then t.installs == s.installs + [r] && t.active == s.active[s.requests[r].pid := r]
            else t == s
  {
    RunKnows(events);
    var more := events + [Install(r, aborted)];
    assert more[..|more| - 1] == events && more[|more| - 1] == Install(r, aborted);
    hide KnowsActive;
  }

  /** In every run a request is active for its pid exactly if it is the last that was installed and its child
      lives. */
  lemma ActiveIff(events: seq<Event>, pid: string, r: nat)
    ensures var s := Run(events);
            pid in s.active && s.active[pid] == r <==>
              IsLastInstalled(s, r) && s.requests[r].pid == pid && !s.requests[r].ended
  {
    RunKnows(events);
    hide LatestIsNewest, InstallsAscend, KnowsNewest;
  }
}

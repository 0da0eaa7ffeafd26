/** The tunnel runtime as a state machine: `server/ssh-tunnel-runtime.js`.
    Every event is one piece of code between two awaits; an event that cannot occur in a state
    leaves it as it is, so that the theorems quantify over all sequences of events. */
module TunnelRuntime {
  import opened Prelude
  import opened TunnelHealth

  datatype TestState = Untested | Testing | Tested(verdict: Status)

  /** Where a reconnect stands: not running, awaiting the old controller's close, or awaiting a new controller. */
  datatype Phase = Idle | Closing | Opening

  /** A probe under way, with the controller and generation it was started for. */
  datatype Probe = Probe(token: nat, controller: nat, generation: nat)

  datatype Entry = Entry(
    key: string,
    kind: TunnelKind,
    controller: nat,
    /** The controller whose events are attached. */
    handlers: Option<nat>,
    state: TunnelState,
    events: seq<TunnelEvent>,
    lastTest: Option<ProbeResult>,
    testState: TestState,
    trafficEvidencePassed: bool,
    probeGeneration: nat,
    probePromise: Option<nat>,
    probes: set<Probe>,
    nextToken: nat,
    /** Probes queued as microtasks. */
    queued: seq<(nat, nat)>,
    reconnectAttempt: nat,
    /** The delay of the armed timer. */
    reconnectTimer: Option<nat>,
    phase: Phase,
    manualStopping: bool,
    /** Timers armed since `reconnectAttempt` was last set to zero. */
    armedSinceReset: nat)

  // ---------- The functions of the source, on one entry ----------

  function RecordState(e: Entry, state: TunnelState, code: string): Entry {
    e.(state := state, events := AppendTunnelEvent(e.events, TunnelEvent(state, code)))
  }

  function InvalidateProbe(e: Entry, error: Option<string>): Entry {
    var e1 := e.(probeGeneration := e.probeGeneration + 1, trafficEvidencePassed := false);
    match error
    case None => e1.(lastTest := None, testState := Untested)
    case Some(code) =>
      var result := ProbeStagesForError(e.kind, code);
      e1.(lastTest := Some(result), testState := Tested(result.Verdict()))
  }

  function ScheduleReconnect(e: Entry): Entry {
    if e.manualStopping || e.reconnectTimer.Some? then e
    else
      match GetReconnectDelayMs(e.reconnectAttempt)
      case None => RecordState(e, Failed, "SSH_TUNNEL_RECONNECT_EXHAUSTED")
      case Some(delay) =>
        e.(reconnectAttempt := e.reconnectAttempt + 1, reconnectTimer := Some(delay), armedSinceReset :=
           e.armedSinceReset + 1)
  }

  function ResetAttempts(e: Entry): Entry {
    e.(reconnectAttempt := 0, armedSinceReset := 0)
  }

  /** A function of the source leaves the wiring of the entry alone and never turns the generation back. */
  predicate SameWiring(e: Entry, r: Entry) {
    && r.key == e.key && r.controller == e.controller && r.handlers == e.handlers && r.phase == e.phase
    && r.manualStopping == e.manualStopping && e.probeGeneration <= r.probeGeneration
  }

  function HandleControllerFailure(e: Entry, live: bool, code: string): (r: Entry)
    ensures SameWiring(e, r)
  {
    if e.manualStopping || !live then e
    else
      var state := ClassifyTunnelFailure(code);
      var e1 := RecordState(InvalidateProbe(e, Some(code)), state, code);
      if state == SessionLost then ScheduleReconnect(e1) else e1
  }

  predicate Untrusted(state: TunnelState) {
    state == PortConflict || state == SessionLost
  }

  predicate ProbeRecoverable(state: TunnelState) {
    state == Failed || Untrusted(state)
  }

  datatype Source = FromProbe | FromEvidence

  function StoreResult(e: Entry, result: ProbeResult, source: Source): Entry {
    e.(lastTest := Some(result),
       testState := Tested(result.Verdict()),
       trafficEvidencePassed :=
         if source == FromEvidence then result.Ok() && |result.stages| >= 3
         else e.trafficEvidencePassed && result.Verdict() != Limited && result.Verdict() != StageFailed)
  }

  function Recover(e: Entry): Entry {
    RecordState(ResetAttempts(e.(reconnectTimer := None)), Healthy, "SSH_TUNNEL_PROBE_RECOVERED")
  }

  /** The guard of `applyProbeResult`: the result still belongs to what the entry is now. */
  predicate Current(e: Entry, live: bool, controller: nat, generation: nat) {
    !e.manualStopping && live && e.controller == controller && e.probeGeneration == generation
  }

  function ApplyProbeResult(e: Entry, live: bool, result: ProbeResult, controller: nat, generation: nat,
                            source: Source): (r: Entry)
    requires e.trafficEvidencePassed ==> e.lastTest.Some?
    ensures SameWiring(e, r)
  {
    if !Current(e, live, controller, generation) then e
    else if source == FromProbe && e.trafficEvidencePassed && result.Verdict() == Unverified then
      e.(testState := Tested(e.lastTest.value.Verdict()))
    else
      var e1 := StoreResult(e, result, source);
      if source == FromProbe && result.Ok() && ProbeRecoverable(e.state) then Recover(e1) else e1
  }

  /** A failure of a running tunnel leaves its probes in flight but makes them stale; it arms a timer exactly
      for a lost session that has none and has attempts left, and then counts the attempt. */
  lemma FailureEffect(e: Entry, live: bool, code: string)
    ensures var r := HandleControllerFailure(e, live, code);
            var lost := ClassifyTunnelFailure(code) == SessionLost;
            && SameWiring(e, r)
            && r.probes == e.probes && r.queued == e.queued && r.probePromise == e.probePromise
            && (e.manualStopping || !live ==> r == e)
            && (!e.manualStopping && live ==>
                  && r.probeGeneration == e.probeGeneration + 1 && r.testState.Tested? && !r.trafficEvidencePassed
                  && (r.state == ClassifyTunnelFailure(code)
                      || (lost && r.state == Failed && e.reconnectTimer.None? && e.reconnectAttempt >= 3))
                  && (if lost && e.reconnectTimer.None? && e.reconnectAttempt < 3
                      then r.reconnectTimer == GetReconnectDelayMs(e.reconnectAttempt)
                          && r.reconnectAttempt == e.reconnectAttempt + 1
                      else r.reconnectTimer == e.reconnectTimer && r.reconnectAttempt == e.reconnectAttempt))
  {
    hide AppendTunnelEvent, ProbeStagesForError;
  }

  /** A result changes nothing unless it is current, and never the controller, the generation or the probes.
      A current one is stored, except one without a verdict after traffic has passed; a success of a probe
      brings a failed tunnel back and takes its timer away. */
  lemma ResultEffect(e: Entry, live: bool, result: ProbeResult, controller: nat, generation: nat, source: Source)
    requires e.trafficEvidencePassed ==> e.lastTest.Some?
    ensures var r := ApplyProbeResult(e, live, result, controller, generation, source);
            var current := Current(e, live, controller, generation);
            var kept := source == FromProbe && e.trafficEvidencePassed && result.Verdict() == Unverified;
            var recovers := current && source == FromProbe && result.Ok() && ProbeRecoverable(e.state);
            && SameWiring(e, r) && r.probeGeneration == e.probeGeneration
            && r.probes == e.probes && r.queued == e.queued && r.probePromise == e.probePromise
            && (!current ==> r == e)
            && (current && !kept ==> r.lastTest == Some(result) && r.testState == Tested(result.Verdict()))
            && (current && kept ==> r.lastTest == e.lastTest && r.testState == Tested(e.lastTest.value.Verdict()))
            && (if recovers then r.state == Healthy && r.reconnectTimer.None? && r.reconnectAttempt == 0
                else r.state == e.state
                     && r.reconnectTimer == e.reconnectTimer && r.reconnectAttempt == e.reconnectAttempt)
  {
    hide AppendTunnelEvent, WorstFrom;
  }

  function RunProbe(e: Entry): (r: Entry)
    ensures SameWiring(e, r)
  {
    if e.probePromise.Some? then e
    else
      e.(testState := Testing,
         probes := e.probes + {Probe(e.nextToken, e.controller, e.probeGeneration)},
         probePromise := Some(e.nextToken),
         nextToken := e.nextToken + 1)
  }

  function QueueProbe(e: Entry): Entry {
    e.(queued := e.queued + [(e.controller, e.probeGeneration)])
  }

  /** What `stop` and `closeAll` do to an entry before they await its controller. */
  function Halt(e: Entry): (r: Entry)
    ensures e.probeGeneration < r.probeGeneration
  {
    e.(manualStopping := true, probeGeneration := e.probeGeneration + 1, probePromise := None,
       reconnectTimer := None, handlers := None)
  }

  function NewEntry(key: string, kind: TunnelKind, controller: nat): Entry {
    var e := Entry(key, kind, controller, Some(controller), Healthy, [], None, Untested, false, 0, None, {}, 0, [],
                   0, None, Idle, false, 0);
    QueueProbe(RecordState(e, Healthy, "SSH_TUNNEL_STARTED"))
  }

  // ---------- The machine ----------

  datatype State = State(
    /** Every entry ever made; the map of running tunnels holds indices into it. */
    entries: seq<Entry>,
    controllers: map<string, nat>,
    /** Ids whose start awaits its controller. */
    starting: set<string>,
    /** Controllers 0 .. nextController - 1 have been returned by `startController`. */
    nextController: nat,
    /** Controllers whose `close` has been called. */
    closed: set<nat>)

  const INITIAL := State([], map[], {}, 0, {})

  datatype Event =
    | StartBegins(key: string)
    | StartFails(key: string)
    | StartReturns(key: string, kind: TunnelKind)
    | Listening(i: nat)
    | ControllerFails(i: nat, code: string)
    | Evidence(i: nat, result: ProbeResult)
    | TimerFires(i: nat)
    | OldControllerClosed(i: nat)
    | ReconnectReturns(i: nat)
    | ReconnectFails(i: nat, code: string)
    | Stop(key: string)
    | CloseAll
    | Test(key: string)
    | Microtask(i: nat)
    | ProbeReturns(i: nat, probe: Probe, result: ProbeResult)

  predicate Live(s: State, i: nat) {
    i < |s.entries| && s.entries[i].key in s.controllers && s.controllers[s.entries[i].key] == i
  }

  function Put(s: State, i: nat, e: Entry): State
    requires i < |s.entries|
  {
    s.(entries := s.entries[i := e])
  }

  /** Traffic evidence is only remembered together with the test it gave. */
  predicate EvidenceHasTest(e: Entry) {
    e.trafficEvidencePassed ==> e.lastTest.Some? && e.lastTest.value.Ok()
  }

  function OnEvidence(e: Entry, live: bool, result: ProbeResult): (r: Entry)
    requires e.handlers.Some? && EvidenceHasTest(e)
    ensures SameWiring(e, r)
  {
    if Untrusted(e.state) then e
    else
      var e1 := e.(probeGeneration := e.probeGeneration + 1);
      ApplyProbeResult(e1, live, result, e.handlers.value, e1.probeGeneration, FromEvidence)
  }

  function OnProbeReturns(e: Entry, live: bool, probe: Probe, result: ProbeResult): (r: Entry)
    requires EvidenceHasTest(e)
    ensures SameWiring(e, r)
  {
    var e1 := ApplyProbeResult(e, live, result, probe.controller, probe.generation, FromProbe);
    e1.(probes := e1.probes - {probe}, probePromise := if e1.probePromise == Some(probe.token) then None
        else e1.probePromise)
  }

  function OnMicrotask(e: Entry): (r: Entry)
    requires e.queued != []
    ensures SameWiring(e, r)
  {
    var e1 := e.(queued := e.queued[1..]);
    if (e.controller, e.probeGeneration) == e.queued[0] then RunProbe(e1) else e1
  }

  function BeginReconnect(e: Entry): (r: Entry)
    ensures e.probeGeneration < r.probeGeneration
  {
    InvalidateProbe(RecordState(e.(reconnectTimer := None), Reconnecting, "SSH_TUNNEL_RECONNECTING"), None)
      .(handlers := None, phase := Closing)
  }

  function FinishReconnect(e: Entry, controller: nat): (r: Entry)
    ensures e.probeGeneration < r.probeGeneration
  {
    var e1 := ResetAttempts(e.(controller := controller, probeGeneration := e.probeGeneration + 1, probePromise := None,
                               phase := Idle, handlers := Some(controller)));
    QueueProbe(RecordState(e1, Healthy, "SSH_TUNNEL_RECONNECTED"))
  }

  predicate Ready(s: State, i: nat) {
    i < |s.entries| && EvidenceHasTest(s.entries[i])
  }

  function OnStartReturns(s: State, key: string, kind: TunnelKind): State {
    if key !in s.starting then s
    else s.(starting := s.starting - {key},
            nextController := s.nextController + 1,
            controllers := s.controllers[key := |s.entries|],
            entries := s.entries + [NewEntry(key, kind, s.nextController)])
  }

  function OnListening(e: Entry): Entry {
    if e.handlers.None? || e.manualStopping || Untrusted(e.state) then e
    else RecordState(ResetAttempts(e), Healthy, "SSH_TUNNEL_LISTENING")
  }

  /** The events that change one entry and nothing else. */
  function EntryStep(e: Entry, live: bool, event: Event): Entry
    requires EvidenceHasTest(e)
  {
    match event
    case Listening(_) => OnListening(e)
    case ControllerFails(_, code) => if e.handlers.None? then e else HandleControllerFailure(e, live, code)
    case Evidence(_, result) => if e.handlers.None? then e else OnEvidence(e, live, result)
    case OldControllerClosed(_) => if e.phase != Closing then e else e.(phase := Opening)
    case ReconnectFails(_, code) => if e.phase != Opening then e
        else HandleControllerFailure(e.(phase := Idle), live, code)
    case Microtask(_) => if e.queued == [] then e else OnMicrotask(e)
    case ProbeReturns(_, probe, result) => if probe !in e.probes then e else OnProbeReturns(e, live, probe, result)
    case _ => e
  }

  function OnTimerFires(s: State, i: nat): State
    requires i < |s.entries|
  {
    var e := s.entries[i];
    if e.reconnectTimer.None? then s
    else if e.manualStopping || !Live(s, i) then Put(s, i, e.(reconnectTimer := None))
    else Put(s, i, BeginReconnect(e)).(closed := s.closed + {e.controller})
  }

  function OnReconnectReturns(s: State, i: nat): State
    requires i < |s.entries|
  {
    var e := s.entries[i];
    if e.phase != Opening then s
    else if e.manualStopping || !Live(s, i) then
      Put(s, i, e.(phase := Idle)).(nextController := s.nextController + 1, closed := s.closed + {s.nextController})
    else Put(s, i, FinishReconnect(e, s.nextController)).(nextController := s.nextController + 1)
  }

  function OnStop(s: State, key: string): State {
    if key !in s.controllers || s.controllers[key] >= |s.entries| then s
    else
      var i := s.controllers[key];
      Put(s, i, Halt(s.entries[i])).(controllers := s.controllers - {key}, closed :=
                                     s.closed + {s.entries[i].controller})
  }

  function OnCloseAll(s: State): State {
    s.(entries := HaltLive(s, s.entries),
       controllers := map[],
       closed := s.closed + (set i | 0 <= i < |s.entries| && Live(s, i) :: s.entries[i].controller))
  }

  function HaltLive(s: State, entries: seq<Entry>): (halted: seq<Entry>)
    ensures |halted| == |entries|
    ensures forall k :: 0 <= k < |entries| ==> halted[k] == if Live(s, k) then Halt(entries[k]) else entries[k]
  {
    seq(|entries|, k requires 0 <= k < |entries| => if Live(s, k) then Halt(entries[k]) else entries[k])
  }

  // ---------- What every reachable state satisfies ----------

  predicate CurrentProbe(probes: set<Probe>, p: Probe, controller: nat, generation: nat) {
    p in probes && p.controller == controller && p.generation == generation
  }

  /** A probe of the current controller and generation runs or is queued. */
  ghost predicate ProbePending(probes: set<Probe>, queued: seq<(nat, nat)>, controller: nat, generation: nat) {
    (exists p :: CurrentProbe(probes, p, controller, generation)) || (controller, generation) in queued
  }

  ghost predicate ProbesInv(probes: set<Probe>, nextToken: nat, promise: Option<nat>, queued: seq<(nat, nat)>,
                            controller: nat, generation: nat)
  {
    && (forall p :: p in probes ==> p.token < nextToken && p.generation <= generation)
    && (forall p, q :: p in probes && q in probes && p.token == q.token ==> p == q)
    && (promise.Some? ==> exists p :: p in probes && p.token == promise.value)
    && (forall q :: q in queued ==> q.1 <= generation)
    && (promise.Some? && (controller, generation) in queued
        ==> exists p :: CurrentProbe(probes, p, controller, generation) && p.token == promise.value)
  }

  predicate ControlInv(e: Entry, live: bool) {
    && (live <==> !e.manualStopping)
    && EvidenceHasTest(e)
    // at most one armed timer or running reconnect, and at most three timers between two resets
    && (e.reconnectTimer.Some? ==> e.phase == Idle)
    && e.armedSinceReset == e.reconnectAttempt <= 3
    // events come from the current controller only, and from none while reconnecting or stopped
    && (e.handlers.Some? ==> e.handlers.value == e.controller && e.phase == Idle && live)
    && (e.reconnectTimer.Some? ==> live)
    // the event list ends with the state
    && 0 < |e.events| <= MAX_EVENTS && e.events[|e.events| - 1].state == e.state
    // a running tunnel shows a reconnect exactly while one runs, and a lost session is always retried
    && (live ==> (e.state == Reconnecting <==> e.phase != Idle))
    && (live && e.state == SessionLost ==> e.reconnectTimer.Some?)
  }

  ghost predicate EntryInv(e: Entry, live: bool) {
    && ControlInv(e, live)
    && ProbesInv(e.probes, e.nextToken, e.probePromise, e.queued, e.controller, e.probeGeneration)
    // a stopped tunnel has no queued probe that would still run
    && (!live ==> forall q :: q in e.queued ==> q.1 < e.probeGeneration)
    // a running tunnel shown as being tested is about to get a result
    && (live && e.testState == Testing ==> ProbePending(e.probes, e.queued, e.controller, e.probeGeneration))
  }

  ghost predicate OwnedByLive(s: State, c: nat) {
    exists i: nat :: Live(s, i) && s.entries[i].controller == c
  }

  ghost predicate Inv(s: State) {
    EntriesInv(s) && MapInv(s) && ControllersInv(s)
  }

  ghost predicate EntriesInv(s: State) {
    forall i: nat :: i < |s.entries| ==> EntryInv(s.entries[i], Live(s, i))
  }

  ghost predicate MapInv(s: State) {
    && (forall key :: key in s.controllers ==>
        s.controllers[key] < |s.entries| && s.entries[s.controllers[key]].key == key)
    && (forall key :: key in s.starting ==> key !in s.controllers)
  }

  ghost predicate ControllersInv(s: State) {
    Distinct(s) && Attached(s) && NoLeak(s)
  }

  /** No two entries share a controller. */
  ghost predicate Distinct(s: State) {
    && (forall i: nat :: i < |s.entries| ==> s.entries[i].controller < s.nextController)
    && (forall i: nat, j: nat :: i < j < |s.entries| ==> s.entries[i].controller != s.entries[j].controller)
    && (forall c :: c in s.closed ==> c < s.nextController)
  }

  /** A reconnect has closed the old controller; attached controllers are open. */
  ghost predicate Attached(s: State) {
    && (forall i: nat :: i < |s.entries| && s.entries[i].phase != Idle ==> s.entries[i].controller in s.closed)
    && (forall i: nat :: i < |s.entries| && s.entries[i].handlers.Some? ==> s.entries[i].controller !in s.closed)
  }

  /** Every controller ever returned has been closed or is the current one of a running tunnel. */
  ghost predicate NoLeak(s: State) {
    forall c: nat :: c < s.nextController ==> c in s.closed || OwnedByLive(s, c)
  }

  /** The whole machine. */
  ghost function Step(s: State, event: Event): State
    requires Inv(s)
  {
    InvIsReady(s);
    match event
    case StartBegins(key) =>
      if key == "" || key in s.controllers || key in s.starting then s else s.(starting := s.starting + {key})
    case StartFails(key) => s.(starting := s.starting - {key})
    case StartReturns(key, kind) => OnStartReturns(s, key, kind)
    case Stop(key) => OnStop(s, key)
    case CloseAll => OnCloseAll(s)
    case Test(key) =>
      if key !in s.controllers || s.controllers[key] >= |s.entries| then s
      else Put(s, s.controllers[key], RunProbe(s.entries[s.controllers[key]]))
    case TimerFires(i) => if i >= |s.entries| then s else OnTimerFires(s, i)
    case ReconnectReturns(i) => if i >= |s.entries| then s else OnReconnectReturns(s, i)
    case _ => if event.i >= |s.entries| then s else Put(s, event.i,
                                                        EntryStep(s.entries[event.i], Live(s, event.i), event))
  }

  predicate IsEntryEvent(event: Event) {
    event.Listening? || event.ControllerFails? || event.Evidence? || event.OldControllerClosed? || event.ReconnectFails?
    || event.Microtask? || event.ProbeReturns?
  }

  /** What an event makes of entry `i`. */
  function EntryAfter(s: State, event: Event, i: nat): Entry
    requires Ready(s, i)
  {
    var e := s.entries[i];
    match event
    case StartBegins(_) => e
    case StartFails(_) => e
    case StartReturns(_, _) => e
    case Stop(key) => if Live(s, i) && e.key == key then Halt(e) else e
    case CloseAll => if Live(s, i) then Halt(e) else e
    case Test(key) => if Live(s, i) && e.key == key then RunProbe(e) else e
    case TimerFires(j) =>
      if j != i || e.reconnectTimer.None? then e
      else if e.manualStopping || !Live(s, i) then e.(reconnectTimer := None)
      else BeginReconnect(e)
    case ReconnectReturns(j) =>
      if j != i || e.phase != Opening then e
      else if e.manualStopping || !Live(s, i) then e.(phase := Idle)
      else FinishReconnect(e, s.nextController)
    case _ => if event.i != i then e else EntryStep(e, Live(s, i), event)
  }

  lemma StepOfEntry(s: State, event: Event, i: nat)
    requires Inv(s) && i < |s.entries|
    ensures Ready(s, i) && i < |Step(s, event).entries| && Step(s, event).entries[i] == EntryAfter(s, event, i)
  {
    InvIsReady(s);
    if IsEntryEvent(event) {
      if event.i < |s.entries| {
        StepOfEntryEvent(s, event);
        hide Step, Inv, EntryStep;
      }
    } else {
      StepOfOtherEvent(s, event, i);
    }
  }

  lemma StepOfOtherEvent(s: State, event: Event, i: nat)
    requires Inv(s) && !IsEntryEvent(event) && Ready(s, i)
    ensures i < |Step(s, event).entries| && Step(s, event).entries[i] == EntryAfter(s, event, i)
  {
    hide EntriesInv, ControllersInv, EntryStep, Halt, RunProbe, BeginReconnect, FinishReconnect, NewEntry,
        EvidenceHasTest;
    match event
    case StartBegins(_) =>
    case StartFails(_) =>
    case StartReturns(_, _) =>
    case Stop(_) =>
    case CloseAll =>
    case Test(_) =>
    case TimerFires(_) =>
    case ReconnectReturns(_) =>
  }

  /** Which function each event runs. */
  lemma StepDispatch(s: State)
    requires Inv(s)
    ensures forall key :: Step(s, Stop(key)) == OnStop(s, key)
    ensures Step(s, CloseAll) == OnCloseAll(s)
    ensures forall key, kind :: Step(s, StartReturns(key, kind)) == OnStartReturns(s, key, kind)
    ensures forall i: nat :: i < |s.entries| ==> Step(s, TimerFires(i)) == OnTimerFires(s, i)
    ensures forall i: nat :: i < |s.entries| ==> Step(s, ReconnectReturns(i)) == OnReconnectReturns(s, i)
  {
    hide Inv, OnStop, OnCloseAll, OnStartReturns, OnTimerFires, OnReconnectReturns;
  }

  lemma StepOfEntryEvent(s: State, event: Event)
    requires Inv(s) && IsEntryEvent(event) && event.i < |s.entries|
    ensures Ready(s, event.i) && Step(s, event) == Put(s, event.i,
                                                       EntryStep(s.entries[event.i], Live(s, event.i), event))
  {
    InvIsReady(s);
    hide EntriesInv, ControllersInv, EntryStep;
  }

  // ---------- One entry at a time ----------

  lemma GenerationGrows(probes: set<Probe>, nextToken: nat, promise: Option<nat>, queued: seq<(nat, nat)>,
                        controller: nat, generation: nat, next: nat)
    requires ProbesInv(probes, nextToken, promise, queued, controller, generation)
    ensures ProbesInv(probes, nextToken, promise, queued, controller, generation + 1)
    ensures forall q :: q in queued ==> q.1 < generation + 1
    ensures ProbesInv(probes, nextToken, None, queued, next, generation + 1)
    ensures ProbesInv(probes, nextToken, None, queued + [(next, generation + 1)], next, generation + 1)
  {
  }

  /** A failure reported by the attached controller, or by the reconnect that was running. */
  lemma FailureKeepsEntry(e: Entry, live: bool, code: string)
    requires (EntryInv(e, live) && e.handlers.Some?) || (e.phase == Idle && EntryInv(e.(phase := Opening), live))
    ensures EntryInv(HandleControllerFailure(e, live, code), live)
  {
    hide ProbesInv, ProbePending, WorstFrom, AppendTunnelEvent;
    GenerationGrows(e.probes, e.nextToken, e.probePromise, e.queued, e.controller, e.probeGeneration, e.controller);
  }

  lemma EvidenceKeepsEntry(e: Entry, live: bool, result: ProbeResult)
    requires EntryInv(e, live) && e.handlers.Some?
    ensures EntryInv(OnEvidence(e, live, result), live)
  {
    hide ProbesInv, ProbePending, WorstFrom, AppendTunnelEvent;
    GenerationGrows(e.probes, e.nextToken, e.probePromise, e.queued, e.controller, e.probeGeneration, e.controller);
  }

  lemma ProbeReturnsKeepsEntry(e: Entry, live: bool, probe: Probe, result: ProbeResult)
    requires EntryInv(e, live) && probe in e.probes
    ensures EntryInv(OnProbeReturns(e, live, probe, result), live)
  {
    var a := ApplyProbeResult(e, live, result, probe.controller, probe.generation, FromProbe);
    ApplyKeepsControl(e, live, result, probe);
    hide ControlInv, ApplyProbeResult;
    var r := OnProbeReturns(e, live, probe, result);
    if live && r.testState == Testing {
      assert !CurrentProbe(e.probes, probe, e.controller, e.probeGeneration);
      if p :| CurrentProbe(e.probes, p, e.controller, e.probeGeneration) {
        assert CurrentProbe(r.probes, p, r.controller, r.probeGeneration);
      }
    }
    assert ControlInv(r, live) by { ControlIgnoresProbes(a, live, r); }
  }

  lemma ControlIgnoresProbes(a: Entry, live: bool, r: Entry)
    requires ControlInv(a, live) && r == a.(probes := r.probes, probePromise := r.probePromise)
    ensures ControlInv(r, live)
  {
  }

  lemma ApplyKeepsControl(e: Entry, live: bool, result: ProbeResult, probe: Probe)
    requires ControlInv(e, live)
    ensures var a := ApplyProbeResult(e, live, result, probe.controller, probe.generation, FromProbe);
            && a.probes == e.probes && a.probePromise == e.probePromise && a.queued == e.queued
                && a.nextToken == e.nextToken
            && a.controller == e.controller && a.probeGeneration == e.probeGeneration
            && (a.testState == Testing ==>
                e.testState == Testing && !Current(e, live, probe.controller, probe.generation))
            && ControlInv(a, live)
  {
    hide WorstFrom, AppendTunnelEvent;
    if Current(e, live, probe.controller, probe.generation) {
      var b := StoreResult(e, result, FromProbe);
      if !(e.trafficEvidencePassed && result.Verdict() == Unverified) {
        assert EvidenceHasTest(b) by { WorstFromIsStatus(result); }
        assert ControlInv(b, live);
        hide StoreResult;
        if result.Ok() && ProbeRecoverable(e.state) {
          assert ControlInv(Recover(b), live);
        }
      }
    }
  }

  lemma WorstFromIsStatus(result: ProbeResult)
    ensures result.Verdict() !in {Unverified, Limited, StageFailed} ==> result.Ok()
  {
  }

  lemma RunProbeKeepsEntry(e: Entry)
    requires EntryInv(e, true)
    ensures EntryInv(RunProbe(e), true)
  {
    if e.probePromise.None? {
      assert CurrentProbe(RunProbe(e).probes, Probe(e.nextToken, e.controller, e.probeGeneration), e.controller,
                          e.probeGeneration);
    }
  }

  lemma MicrotaskKeepsEntry(e: Entry, live: bool)
    requires EntryInv(e, live) && e.queued != []
    ensures EntryInv(OnMicrotask(e), live)
  {
    var r := OnMicrotask(e);
    if e.probePromise.None? && (e.controller, e.probeGeneration) == e.queued[0] {
      assert CurrentProbe(r.probes, Probe(e.nextToken, e.controller, e.probeGeneration), e.controller,
                          e.probeGeneration);
    } else if live && r.testState == Testing {
      if p :| CurrentProbe(e.probes, p, e.controller, e.probeGeneration) {
        assert CurrentProbe(r.probes, p, e.controller, e.probeGeneration);
      }
    }
  }

  lemma BeginReconnectKeepsEntry(e: Entry)
    requires EntryInv(e, true) && e.reconnectTimer.Some?
    ensures EntryInv(BeginReconnect(e), true)
  {
    hide ProbesInv, ProbePending, AppendTunnelEvent;
    GenerationGrows(e.probes, e.nextToken, e.probePromise, e.queued, e.controller, e.probeGeneration, e.controller);
  }

  lemma FinishReconnectKeepsEntry(e: Entry, controller: nat)
    requires EntryInv(e, true) && e.phase == Opening
    ensures EntryInv(FinishReconnect(e, controller), true)
  {
    hide ProbesInv, AppendTunnelEvent;
    GenerationGrows(e.probes, e.nextToken, e.probePromise, e.queued, e.controller, e.probeGeneration, controller);
  }

  lemma HaltKeepsEntry(e: Entry)
    requires EntryInv(e, true)
    ensures EntryInv(Halt(e), false)
  {
    hide ProbesInv, ProbePending;
    GenerationGrows(e.probes, e.nextToken, e.probePromise, e.queued, e.controller, e.probeGeneration, e.controller);
  }

  // ---------- One event at a time ----------

  /** One entry changes, and with it perhaps which controllers are open. */
  predicate Updates(s: State, i: nat, t: State) {
    && i < |s.entries| && |t.entries| == |s.entries|
    && t.entries == s.entries[i := t.entries[i]] && t.entries[i].key == s.entries[i].key
    && t.controllers == s.controllers && t.starting == s.starting
    && (t.entries[i].handlers.Some? ==> t.entries[i].controller !in t.closed)
    && (t.entries[i].phase != Idle ==> t.entries[i].controller in t.closed)
    && (var was, now := s.entries[i].controller, t.entries[i].controller;
        || (now == was && t.nextController == s.nextController
            && (t.closed == s.closed || t.closed == s.closed + {was}))
        || (now == was && t.nextController == s.nextController + 1 && t.closed == s.closed + {s.nextController})
        || (now == s.nextController && t.nextController == s.nextController + 1 && t.closed == s.closed
            && was in s.closed && Live(s, i)))
  }

  lemma UpdateKeepsInv(s: State, i: nat, t: State)
    requires Inv(s) && Updates(s, i, t) && EntryInv(t.entries[i], Live(s, i))
    ensures Inv(t)
  {
    hide EntryInv;
    assert forall k: nat :: k < |s.entries| ==> Live(t, k) == Live(s, k);
    assert EntriesInv(t);
    UpdateKeepsControllers(s, i, t);
  }

  lemma UpdateKeepsControllers(s: State, i: nat, t: State)
    requires ControllersInv(s) && Updates(s, i, t)
    ensures ControllersInv(t)
  {
    assert Distinct(t) by { hide Live, NoLeak, Attached; }
    assert Attached(t) by { hide Live, NoLeak; }
    hide Attached, Distinct;
    forall c: nat | c < t.nextController && c !in t.closed ensures OwnedByLive(t, c) {
      if c == s.nextController {
        assert Live(t, i) && t.entries[i].controller == c;
      } else {
        OwnerKept(s, t, c);
      }
    }
  }

  lemma OwnerKept(s: State, t: State, c: nat)
    requires OwnedByLive(s, c)
    requires forall k: nat :: Live(s, k) && s.entries[k].controller == c ==> Live(t, k) && t.entries[k].controller == c
    ensures OwnedByLive(t, c)
  {
    var k: nat :| Live(s, k) && s.entries[k].controller == c;
    assert Live(t, k);
  }

  lemma TimerKeepsInv(s: State, i: nat)
    requires Inv(s) && i < |s.entries|
    ensures Inv(OnTimerFires(s, i))
  {
    if s.entries[i].reconnectTimer.Some? {
      assert Live(s, i);
      BeginReconnectKeepsEntry(s.entries[i]);
      assert BeginReconnect(s.entries[i]).handlers == None;
      hide BeginReconnect, EntryInv;
      UpdateKeepsInv(s, i, OnTimerFires(s, i));
    }
  }

  lemma ReconnectReturnsKeepsInv(s: State, i: nat)
    requires Inv(s) && i < |s.entries|
    ensures Inv(OnReconnectReturns(s, i))
  {
    var e := s.entries[i];
    if e.phase == Opening {
      assert EntryInv(e, Live(s, i));
      if Live(s, i) {
        FinishReconnectKeepsEntry(e, s.nextController);
        assert FinishReconnect(e, s.nextController).phase == Idle && FinishReconnect(e, s.nextController).key == e.key
               && FinishReconnect(e, s.nextController).controller == s.nextController;
      }
      assert EntryInv(OnReconnectReturns(s, i).entries[i], Live(s, i));
      hide FinishReconnect, EntryInv;
      UpdateKeepsInv(s, i, OnReconnectReturns(s, i));
    }
  }

  lemma StopKeepsInv(s: State, key: string)
    requires Inv(s) && key in s.controllers
    ensures Inv(OnStop(s, key))
  {
    hide EntryInv, ControllersInv, Halt;
    var t := OnStop(s, key);
    var i := s.controllers[key];
    assert forall k: nat :: k < |s.entries| ==>
        Live(t, k) == (Live(s, k) && k != i) && t.entries[k].key == s.entries[k].key by {
      assert Halt(s.entries[i]).key == s.entries[i].key by { HaltFacts(s.entries[i]); }
    }
    StopKeepsEntries(s, i, t);
    StopKeepsControllers(s, i, t);
  }

  lemma HaltFacts(e: Entry)
    ensures Halt(e).key == e.key && Halt(e).controller == e.controller && Halt(e).phase == e.phase
        && Halt(e).handlers.None?
  {
  }

  lemma StopKeepsEntries(s: State, i: nat, t: State)
    requires EntriesInv(s) && Live(s, i) && t.entries == s.entries[i := Halt(s.entries[i])]
    requires forall k: nat :: k < |s.entries| ==> Live(t, k) == (Live(s, k) && k != i)
    ensures EntriesInv(t)
  {
    HaltKeepsEntry(s.entries[i]);
    hide EntryInv, Halt, Live;
  }

  lemma StopKeepsControllers(s: State, i: nat, t: State)
    requires ControllersInv(s) && Live(s, i) && t.entries == s.entries[i := Halt(s.entries[i])]
    requires t.nextController == s.nextController && t.closed == s.closed + {s.entries[i].controller}
    requires forall k: nat :: k < |s.entries| ==> Live(t, k) == (Live(s, k) && k != i)
    ensures ControllersInv(t)
  {
    HaltFacts(s.entries[i]);
    hide Halt;
    assert Distinct(t) by { hide Live, NoLeak, Attached; }
    assert Attached(t) by { hide Live, NoLeak; }
    hide Attached, Distinct;
    forall c: nat | c < s.nextController && c !in t.closed ensures OwnedByLive(t, c) {
      OwnerKept(s, t, c);
    }
  }

  lemma CloseAllKeepsInv(s: State)
    requires Inv(s)
    ensures Inv(OnCloseAll(s))
  {
    hide EntryInv, ControllersInv, Halt;
    var t := OnCloseAll(s);
    assert forall k: nat :: k < |s.entries| ==> !Live(t, k);
    CloseAllKeepsEntries(s, t);
    CloseAllKeepsControllers(s, t);
  }

  lemma CloseAllKeepsEntries(s: State, t: State)
    requires EntriesInv(s) && t.entries == HaltLive(s, s.entries) && t.controllers == map[]
    ensures EntriesInv(t)
  {
    forall k: nat | k < |s.entries| ensures EntryInv(t.entries[k], Live(t, k)) {
      if Live(s, k) {
        HaltKeepsEntry(s.entries[k]);
      }
    }
  }

  lemma CloseAllKeepsControllers(s: State, t: State)
    requires ControllersInv(s) && EntriesInv(s) && t == OnCloseAll(s)
    ensures ControllersInv(t)
  {
    forall k: nat | k < |s.entries|
      ensures t.entries[k].controller == s.entries[k].controller && t.entries[k].phase == s.entries[k].phase
      ensures t.entries[k].handlers.None?
    {
      assert EntryInv(s.entries[k], Live(s, k));
      HaltFacts(s.entries[k]);
    }
    hide EntryInv, Halt, HaltLive;
    assert Distinct(t) by { hide NoLeak, Attached; }
    assert Attached(t) by { hide NoLeak; }
    hide Attached, Distinct;
    forall c: nat | c < s.nextController ensures c in t.closed {
      if c !in s.closed {
        var k: nat :| Live(s, k) && s.entries[k].controller == c;
      }
    }
  }

  lemma StartReturnsKeepsInv(s: State, key: string, kind: TunnelKind)
    requires Inv(s)
    ensures Inv(OnStartReturns(s, key, kind))
  {
    hide EntryInv, EntriesInv, ControllersInv, NewEntry;
    if key in s.starting {
      var t := OnStartReturns(s, key, kind);
      NewEntryFacts(key, kind, s.nextController);
      StartKeepsMap(s, t, NewEntry(key, kind, s.nextController));
      hide MapInv, Live;
      StartKeepsEntries(s, t, NewEntry(key, kind, s.nextController));
      StartKeepsControllers(s, t, NewEntry(key, kind, s.nextController));
    }
  }

  lemma StartKeepsMap(s: State, t: State, e: Entry)
    requires MapInv(s) && t.entries == s.entries + [e] && e.key in s.starting
    requires t.controllers == s.controllers[e.key := |s.entries|] && t.starting == s.starting - {e.key}
    ensures MapInv(t) && Live(t, |s.entries|) && forall k: nat :: k < |s.entries| ==> Live(t, k) == Live(s, k)
  {
  }

  lemma StartKeepsEntries(s: State, t: State, e: Entry)
    requires EntriesInv(s) && t.entries == s.entries + [e] && EntryInv(e, true)
    requires Live(t, |s.entries|) && forall k: nat :: k < |s.entries| ==> Live(t, k) == Live(s, k)
    ensures EntriesInv(t)
  {
    hide EntryInv, Live;
  }

  lemma NewEntryFacts(key: string, kind: TunnelKind, controller: nat)
    ensures var e := NewEntry(key, kind, controller);
            EntryInv(e, true) && e.key == key && e.controller == controller && e.phase == Idle
  {
  }

  lemma StartKeepsControllers(s: State, t: State, e: Entry)
    requires ControllersInv(s) && t.entries == s.entries + [e] && e.controller == s.nextController && e.phase == Idle
    requires t.nextController == s.nextController + 1 && t.closed == s.closed
    requires Live(t, |s.entries|) && forall k: nat :: k < |s.entries| ==> Live(t, k) == Live(s, k)
    ensures ControllersInv(t)
  {
    var n := |s.entries|;
    assert Distinct(t) by { hide Live, NoLeak, Attached; }
    assert Attached(t) by { hide Live, NoLeak; }
    hide Attached, Distinct;
    forall c: nat | c < t.nextController && c !in t.closed ensures OwnedByLive(t, c) {
      if c == s.nextController {
        assert Live(t, n) && t.entries[n].controller == c;
      } else {
        OwnerKept(s, t, c);
      }
    }
  }

  lemma EntryStepKeepsEntry(e: Entry, live: bool, event: Event)
    requires EntryInv(e, live)
    ensures EntryInv(EntryStep(e, live, event), live)
  {
    hide HandleControllerFailure, OnEvidence, OnMicrotask, OnProbeReturns, AppendTunnelEvent, ProbesInv, ProbePending;
    match event
    case ControllerFails(_, code) => if e.handlers.Some? { FailureKeepsEntry(e, live, code); }
    case Evidence(_, result) => if e.handlers.Some? { EvidenceKeepsEntry(e, live, result); }
    case ReconnectFails(_, code) =>
      if e.phase == Opening {
        assert e.(phase := Idle).(phase := Opening) == e;
        FailureKeepsEntry(e.(phase := Idle), live, code);
      }
    case Microtask(_) => if e.queued != [] { MicrotaskKeepsEntry(e, live); }
    case ProbeReturns(_, probe, result) => if probe in e.probes { ProbeReturnsKeepsEntry(e, live, probe, result); }
    case _ =>
  }

  /** What such an event leaves alone. */
  lemma EntryStepFrame(e: Entry, live: bool, event: Event)
    requires EvidenceHasTest(e)
    ensures var r := EntryStep(e, live, event);
            && r.key == e.key && r.controller == e.controller
            && (r.handlers == e.handlers)
            && (r.phase != Idle ==> e.phase != Idle)
            && e.probeGeneration <= r.probeGeneration
  {
    hide AppendTunnelEvent, WorstFrom, HandleControllerFailure, OnEvidence, OnMicrotask, OnProbeReturns;
  }

  lemma InvIsReady(s: State)
    requires Inv(s)
    ensures forall i: nat :: i < |s.entries| ==> Ready(s, i)
  {
    forall i: nat | i < |s.entries| ensures Ready(s, i) {
      assert EntryInv(s.entries[i], Live(s, i));
    }
  }

  lemma StepKeepsInv(s: State, event: Event)
    requires Inv(s)
    ensures Inv(Step(s, event))
  {
    if IsEntryEvent(event) {
      if event.i < |s.entries| {
        StepOfEntryEvent(s, event);
        hide Step, Inv, EntryStep;
        EntryEventKeepsInv(s, event.i, event);
      }
    } else {
      OtherStepKeepsInv(s, event);
    }
  }

  lemma OtherStepKeepsInv(s: State, event: Event)
    requires Inv(s) && !IsEntryEvent(event)
    ensures Inv(Step(s, event))
  {
    hide EntriesInv, ControllersInv, Live, Put, EntryStep, OnStartReturns, OnTimerFires, OnReconnectReturns, OnStop,
        OnCloseAll, RunProbe;
    match event
    case StartBegins(key) => StartingKeepsInv(s, Step(s, event));
    case StartFails(key) => StartingKeepsInv(s, Step(s, event));
    case StartReturns(key, kind) => StartReturnsKeepsInv(s, key, kind);
    case TimerFires(i) => if i < |s.entries| { TimerKeepsInv(s, i); }
    case ReconnectReturns(i) => if i < |s.entries| { ReconnectReturnsKeepsInv(s, i); }
    case Stop(key) => if key in s.controllers { StopKeepsInv(s, key); } else { StopUnknown(s, key); }
    case CloseAll => CloseAllKeepsInv(s);
    case Test(key) => if key in s.controllers { TestKeepsInv(s, key); }
  }

  lemma StopUnknown(s: State, key: string)
    requires key !in s.controllers
    ensures OnStop(s, key) == s
  {
  }

  lemma StartingKeepsInv(s: State, t: State)
    requires Inv(s) && t == s.(starting := t.starting)
    requires forall key :: key in t.starting ==> key !in s.controllers
    ensures Inv(t)
  {
    hide EntryInv;
    assert forall k: nat :: k < |s.entries| ==> Live(t, k) == Live(s, k);
    assert EntriesInv(t);
    forall c: nat | OwnedByLive(s, c) ensures OwnedByLive(t, c) {
      var k: nat :| Live(s, k) && s.entries[k].controller == c;
      assert Live(t, k) && t.entries[k].controller == c;
    }
  }

  lemma TestKeepsInv(s: State, key: string)
    requires Inv(s) && key in s.controllers
    ensures Inv(Put(s, s.controllers[key], RunProbe(s.entries[s.controllers[key]])))
  {
    var i := s.controllers[key];
    assert Live(s, i);
    RunProbeKeepsEntry(s.entries[i]);
    hide EntryInv;
    UpdateKeepsInv(s, i, Put(s, i, RunProbe(s.entries[i])));
  }

  lemma EntryEventKeepsInv(s: State, i: nat, event: Event)
    requires Inv(s) && Ready(s, i)
    ensures Inv(Put(s, i, EntryStep(s.entries[i], Live(s, i), event)))
  {
    EntryStepKeepsEntry(s.entries[i], Live(s, i), event);
    EntryStepFrame(s.entries[i], Live(s, i), event);
    hide EntryInv, EntryStep;
    UpdateKeepsInv(s, i, Put(s, i, EntryStep(s.entries[i], Live(s, i), event)));
  }

  // ---------- Whole runs ----------

  ghost function Run(s: State, events: seq<Event>): (t: State)
    requires Inv(s)
    ensures Inv(t)
    decreases |events|
  {
    if events == [] then s
    else
      StepKeepsInv(s, events[0]);
      Run(Step(s, events[0]), events[1..])
  }

  lemma InitialIsGood()
    ensures Inv(INITIAL)
  {
  }

  /** The state after some events, from the start of the runtime. */
  ghost function Reached(events: seq<Event>): (s: State)
    ensures Inv(s)
  {
    InitialIsGood();
    Run(INITIAL, events)
  }

  /** In every run, in every order of starts, controller events, timers, probes, stops and closings:
      a tunnel has at most one armed timer or running reconnect, at most three timers are armed
      between two resets, a lost session of a running tunnel is being retried, a tunnel shown as
      being tested is about to get a result, and a stopped one holds no timer and no listener. */
  lemma EveryTunnelIsSafe(events: seq<Event>, i: nat)
    requires i < |Reached(events).entries|
    ensures var s := Reached(events);
            var e := s.entries[i];
            && !(e.reconnectTimer.Some? && e.phase != Idle)
            && e.armedSinceReset == e.reconnectAttempt <= 3
            && (Live(s, i) && e.state == SessionLost ==> e.reconnectTimer.Some?)
            && (Live(s, i) ==> (e.state == Reconnecting <==> e.phase != Idle))
            && (Live(s, i) && e.testState == Testing ==>
                ProbePending(e.probes, e.queued, e.controller, e.probeGeneration))
            && (Live(s, i) <==> !e.manualStopping)
            && (!Live(s, i) ==> e.reconnectTimer.None? && e.handlers.None?)
            && |e.events| <= 50 && e.events != [] && e.events[|e.events| - 1].state == e.state
  {
    var s := Reached(events);
    assert EntryInv(s.entries[i], Live(s, i));
    hide Reached, ProbesInv, ProbePending;
  }

  /** In every run each controller ever returned has been closed or is the current one of a tunnel
      in the map, also when a stop lands inside a reconnect. */
  lemma NoControllerLeaks(events: seq<Event>, c: nat)
    requires c < Reached(events).nextController
    ensures var s := Reached(events);
            c in s.closed || exists i: nat :: Live(s, i) && s.entries[i].controller == c
  {
    var s := Reached(events);
    assert c in s.closed || OwnedByLive(s, c);
  }

  // ---------- After a stop ----------

  /** Everything a caller can see of an entry. */
  predicate Unchanged(e: Entry, f: Entry) {
    && f.state == e.state && f.events == e.events && f.lastTest == e.lastTest && f.testState == e.testState
    && f.reconnectAttempt == e.reconnectAttempt && f.reconnectTimer == e.reconnectTimer
    && f.controller == e.controller && f.manualStopping == e.manualStopping
  }

  lemma StoppedEntryStep(e: Entry, event: Event)
    requires EntryInv(e, false)
    ensures Unchanged(e, EntryStep(e, false, event))
  {
    hide ProbesInv, ProbePending, WorstFrom, AppendTunnelEvent;
  }

  lemma StoppedStep(s: State, event: Event, i: nat)
    requires Inv(s) && i < |s.entries| && s.entries[i].manualStopping
    ensures i < |Step(s, event).entries| && Unchanged(s.entries[i], Step(s, event).entries[i])
  {
    assert EntryInv(s.entries[i], Live(s, i));
    StepOfEntry(s, event, i);
    if IsEntryEvent(event) && event.i == i {
      StoppedEntryStep(s.entries[i], event);
    }
    hide Step, Inv, EntryStep, Halt, RunProbe, BeginReconnect, FinishReconnect, ProbesInv, ProbePending;
  }

  /** Once stopped, no later event changes the state, the events, the test result or the attempts
      of a tunnel: not a timer, a late reconnect, a late probe or a late controller event. */
  lemma {:induction false} StoppedIsFrozen(s: State, events: seq<Event>, i: nat)
    requires Inv(s) && i < |s.entries| && s.entries[i].manualStopping
    ensures i < |Run(s, events).entries| && Unchanged(s.entries[i], Run(s, events).entries[i])
    decreases |events|
  {
    if events != [] {
      StepKeepsInv(s, events[0]);
      StoppedStep(s, events[0], i);
      hide Step;
      StoppedIsFrozen(Step(s, events[0]), events[1..], i);
    }
  }

  // ---------- Stale probes ----------

  /** The event changes what tunnel `i` is: a failure, evidence, a reconnect or a stop. */
  ghost predicate Invalidates(s: State, event: Event, i: nat)
    requires i < |s.entries|
  {
    var e := s.entries[i];
    match event
    case ControllerFails(j, _) => j == i && e.handlers.Some?
    case Evidence(j, _) => j == i && e.handlers.Some? && !Untrusted(e.state)
    case TimerFires(j) => j == i && e.reconnectTimer.Some?
    case ReconnectReturns(j) => j == i && e.phase == Opening && Live(s, i)
    case ReconnectFails(j, _) => j == i && e.phase == Opening && Live(s, i)
    case Stop(key) => key == e.key && Live(s, i)
    case CloseAll => Live(s, i)
    case _ => false
  }

  lemma EntryGeneration(e: Entry, live: bool, event: Event)
    requires EntryInv(e, live)
    ensures e.probeGeneration <= EntryStep(e, live, event).probeGeneration
    ensures (event.ControllerFails? && e.handlers.Some?) || (event.Evidence? && e.handlers.Some? && !Untrusted(e.state))
            || (event.ReconnectFails? && e.phase == Opening && live)
            ==> e.probeGeneration < EntryStep(e, live, event).probeGeneration
  {
    EntryStepFrame(e, live, event);
    hide ProbesInv, ProbePending, WorstFrom, AppendTunnelEvent, OnProbeReturns, OnMicrotask;
  }

  lemma GenerationStep(s: State, event: Event, i: nat)
    requires Inv(s) && i < |s.entries|
    ensures i < |Step(s, event).entries|
    ensures s.entries[i].probeGeneration <= Step(s, event).entries[i].probeGeneration
    ensures Invalidates(s, event, i) ==> s.entries[i].probeGeneration < Step(s, event).entries[i].probeGeneration
  {
    var e := s.entries[i];
    assert EntryInv(e, Live(s, i));
    StepOfEntry(s, event, i);
    if IsEntryEvent(event) && event.i == i {
      EntryGeneration(e, Live(s, i), event);
    }
    hide Step, Inv, EntryStep, Halt, BeginReconnect, FinishReconnect, RunProbe, ProbesInv, ProbePending;
  }

  lemma {:induction false} GenerationRun(s: State, events: seq<Event>, i: nat)
    requires Inv(s) && i < |s.entries|
    ensures i < |Run(s, events).entries|
    ensures s.entries[i].probeGeneration <= Run(s, events).entries[i].probeGeneration
    decreases |events|
  {
    if events != [] {
      StepKeepsInv(s, events[0]);
      GenerationStep(s, events[0], i);
      hide Step;
      GenerationRun(Step(s, events[0]), events[1..], i);
    }
  }

  /** A probe that was under way when the tunnel failed, saw traffic, reconnected or was stopped is
      never applied, whatever happens before and after that. */
  lemma StaleProbeIsNeverApplied(
    s: State, before: seq<Event>, cause: Event, after: seq<Event>, i: nat, probe: Probe, result: ProbeResult)
    requires Inv(s) && i < |s.entries| && probe in s.entries[i].probes
    requires i < |Run(s, before).entries| && Invalidates(Run(s, before), cause, i)
    ensures Inv(Step(Run(s, before), cause))
    ensures var t := Run(Step(Run(s, before), cause), after);
            && i < |t.entries|
            && i < |Step(t, ProbeReturns(i, probe, result)).entries|
            && Unchanged(t.entries[i], Step(t, ProbeReturns(i, probe, result)).entries[i])
  {
    assert EntryInv(s.entries[i], Live(s, i));
    GenerationRun(s, before, i);
    var m := Run(s, before);
    StepKeepsInv(m, cause);
    GenerationStep(m, cause, i);
    GenerationRun(Step(m, cause), after, i);
    var t := Run(Step(m, cause), after);
    assert probe.generation < t.entries[i].probeGeneration;
    hide Run, EntryInv, Invalidates;
    StaleStep(t, i, probe, result);
  }

  lemma StaleStep(t: State, i: nat, probe: Probe, result: ProbeResult)
    requires Inv(t) && i < |t.entries| && probe.generation < t.entries[i].probeGeneration
    ensures i < |Step(t, ProbeReturns(i, probe, result)).entries|
    ensures Unchanged(t.entries[i], Step(t, ProbeReturns(i, probe, result)).entries[i])
  {
    StepOfEntry(t, ProbeReturns(i, probe, result), i);
    hide Step, Inv, Live, StoreResult, Recover;
  }

  // ---------- A healthy tunnel with a timer ----------

  predicate HealthyWithTimer(s: State, i: nat) {
    i < |s.entries| && s.entries[i].state == Healthy && s.entries[i].reconnectTimer.Some?
  }

  lemma EntryHealthyWithTimer(e: Entry, live: bool, event: Event)
    requires EntryInv(e, live) && !(e.state == Healthy && e.reconnectTimer.Some?)
    ensures var r := EntryStep(e, live, event);
            (r.state == Healthy && r.reconnectTimer.Some?)
            <==> event.Listening? && e.handlers.Some? && e.state == Failed && e.reconnectTimer.Some?
  {
    hide ProbesInv, ProbePending, WorstFrom, AppendTunnelEvent;
    if event.ControllerFails? || event.ReconnectFails? {
      hide OnEvidence, OnMicrotask, OnProbeReturns;
    } else {
      hide HandleControllerFailure;
    }
  }

  /** A tunnel becomes healthy with its reconnect timer still armed exactly when it reports that it
      listens while its state is plain `failed` and a timer is armed. */
  lemma HealthyWithTimerIff(s: State, event: Event, i: nat)
    requires Inv(s) && i < |s.entries| && !HealthyWithTimer(s, i)
    ensures HealthyWithTimer(Step(s, event), i)
            <==> event == Listening(i) && s.entries[i].handlers.Some? && s.entries[i].state == Failed
                 && s.entries[i].reconnectTimer.Some?
  {
    assert EntryInv(s.entries[i], Live(s, i));
    StepOfEntry(s, event, i);
    if IsEntryEvent(event) && event.i == i {
      EntryHealthyWithTimer(s.entries[i], Live(s, i), event);
    }
    hide Step, Inv, EntryStep, AppendTunnelEvent, ProbesInv, ProbePending;
  }

  /** Every running tunnel has a run that shows it: the timer of a lost session outlives a plain
      failure and the recovery from it, fires, and closes the controller of the healthy tunnel. */
  lemma HealthyTunnelIsTornDown(s: State, i: nat)
    requires Inv(s) && Live(s, i) && s.entries[i].handlers.Some?
    requires s.entries[i].reconnectTimer.None? && s.entries[i].reconnectAttempt < 3
    ensures var t := Run(s, [ControllerFails(i, "EPIPE"), ControllerFails(i, "EINVAL"), Listening(i)]);
            var controller := s.entries[i].controller;
            && HealthyWithTimer(t, i) && t.entries[i].controller == controller && controller !in t.closed
            && (var u := Step(t, TimerFires(i));
                i < |u.entries| && u.entries[i].state == Reconnecting && controller in u.closed)
  {
    LossRun(s, i);
    var t := Run(s, [ControllerFails(i, "EPIPE"), ControllerFails(i, "EINVAL"), Listening(i)]);
    hide Run, Step, Inv, Live;
    TimerTearsDown(t, i);
  }

  lemma TimerTearsDown(t: State, i: nat)
    requires Inv(t) && Live(t, i) && HealthyWithTimer(t, i) && t.entries[i].handlers.Some?
    ensures t.entries[i].controller !in t.closed
    ensures var u := Step(t, TimerFires(i));
        i < |u.entries| && u.entries[i].state == Reconnecting && t.entries[i].controller in u.closed
  {
    hide Inv, Step, EntryInv;
    LiveEntry(t, i);
    StepOfEntry(t, TimerFires(i), i);
    TimerCloses(t, i);
    hide Live, AppendTunnelEvent, InvalidateProbe;
  }

  lemma TimerCloses(t: State, i: nat)
    requires Inv(t) && Live(t, i) && t.entries[i].reconnectTimer.Some? && !t.entries[i].manualStopping
    ensures t.entries[i].controller in Step(t, TimerFires(i)).closed
  {
    hide Inv, BeginReconnect;
  }

  lemma LiveEntry(s: State, i: nat)
    requires Inv(s) && Live(s, i)
    ensures i < |s.entries| && EntryInv(s.entries[i], true) && !s.entries[i].manualStopping
    ensures s.entries[i].handlers.Some? ==> s.entries[i].controller !in s.closed && s.entries[i].phase == Idle
  {
    assert Attached(s);
    hide ProbesInv, ProbePending, Distinct, NoLeak;
  }

  /** The tunnel is healthy on the same controller, with a timer armed. */
  ghost predicate IsHealthyAndArmed(s: State, t: State, i: nat)
    requires i < |s.entries|
  {
    HealthyWithTimer(t, i) && t.entries[i].controller == s.entries[i].controller && Live(t, i)
    && t.entries[i].handlers.Some?
  }

  lemma LossRun(s: State, i: nat)
    requires Inv(s) && Live(s, i) && s.entries[i].handlers.Some?
    requires s.entries[i].reconnectTimer.None? && s.entries[i].reconnectAttempt < 3
    ensures IsHealthyAndArmed(s, Run(s, [ControllerFails(i, "EPIPE"), ControllerFails(i, "EINVAL"), Listening(i)]), i)
  {
    hide Inv, Live, Step, Put, HandleControllerFailure, OnListening, EntryInv, Run, Ready;
    hide RunProbe, Halt, BeginReconnect, FinishReconnect, OnEvidence, OnProbeReturns, OnMicrotask;
    var a, b, c := ControllerFails(i, "EPIPE"), ControllerFails(i, "EINVAL"), Listening(i);
    LiveEntry(s, i);
    assert i < |s.entries|;
    LossThenFailureThenListening(s.entries[i]);
    AttachedStep(s, i, a);
    var s1 := Step(s, a);
    AttachedStep(s1, i, b);
    var s2 := Step(s1, b);
    AttachedStep(s2, i, c);
    RunThree(s, a, b, c);
  }

  lemma RunThree(s: State, a: Event, b: Event, c: Event)
    requires Inv(s) && Inv(Step(s, a)) && Inv(Step(Step(s, a), b))
    ensures Run(s, [a, b, c]) == Step(Step(Step(s, a), b), c)
  {
    hide Inv, Step;
    var s1 := Step(s, a);
    var s2 := Step(s1, b);
    StepKeepsInv(s2, c);
    assert [a, b, c][1..] == [b, c] && [b, c][1..] == [c] && [c][1..] == [];
    assert Run(s2, [c]) == Run(Step(s2, c), []);
    assert Run(s1, [b, c]) == Run(s2, [c]);
  }

  lemma LossThenFailureThenListening(e: Entry)
    requires EntryInv(e, true) && e.handlers.Some? && e.reconnectTimer.None? && e.reconnectAttempt < 3
    ensures var e2 := HandleControllerFailure(HandleControllerFailure(e, true, "EPIPE"), true, "EINVAL");
            var e3 := OnListening(e2);
            && e3.state == Healthy && e3.reconnectTimer.Some? && e3.handlers == e.handlers && e3.key == e.key
            && e3.controller == e.controller && e3.manualStopping == e.manualStopping
  {
    hide ProbesInv, ProbePending, AppendTunnelEvent, ProbeStagesForError;
  }

  lemma AttachedStep(s: State, i: nat, event: Event)
    requires Inv(s) && Live(s, i) && s.entries[i].handlers.Some? && IsEntryEvent(event) && event.i == i
    ensures var t := Step(s, event);
            Inv(t) && Ready(s, i) && i < |t.entries| && t.entries[i] == EntryStep(s.entries[i], true, event)
            && Live(t, i) && t.entries[i].handlers.Some?
  {
    StepKeepsInv(s, event);
    StepOfEntryEvent(s, event);
    EntryStepFrame(s.entries[i], true, event);
    hide Step, Inv, EntryStep;
  }
}

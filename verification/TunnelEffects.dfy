/** What each event does to a tunnel, field by field and for every reachable state: the handlers of
    `server/ssh-tunnel-runtime.js` as a caller sees them. */
module TunnelEffects {
  import opened Prelude
  import opened TunnelHealth
  import opened TunnelRuntime

  // ---------- When an event means something to a tunnel ----------

  /** The code of a failure that reaches the running tunnel. */
  function FailureOf(s: State, event: Event, i: nat): Option<string>
    requires i < |s.entries|
  {
    match event
    case ControllerFails(j, code) => if j == i && s.entries[i].handlers.Some? then Some(code) else None
    case ReconnectFails(j, code) =>
      if j == i && s.entries[i].phase == Opening && Live(s, i) then Some(code) else None
    case _ => None
  }

  /** A lost session without a timer gets one while attempts are left. */
  predicate Arms(s: State, event: Event, i: nat)
    requires i < |s.entries|
  {
    FailureOf(s, event, i).Some? && GetsTimer(s.entries[i], FailureOf(s, event, i).value)
  }

  predicate GetsTimer(e: Entry, code: string) {
    code in SESSION_LOST_CODES && e.reconnectTimer.None? && e.reconnectAttempt < 3
  }

  predicate Begins(s: State, event: Event, i: nat)
    requires i < |s.entries|
  {
    event == TimerFires(i) && s.entries[i].reconnectTimer.Some?
  }

  predicate TakesOver(s: State, event: Event, i: nat)
    requires i < |s.entries|
  {
    event == ReconnectReturns(i) && s.entries[i].phase == Opening && Live(s, i)
  }

  predicate Hears(s: State, event: Event, i: nat)
    requires i < |s.entries|
  {
    event == Listening(i) && s.entries[i].handlers.Some? && s.entries[i].state !in {PortConflict, SessionLost}
  }

  /** Evidence of traffic counts unless the controller failed. */
  predicate Witnesses(s: State, event: Event, i: nat)
    requires i < |s.entries|
  {
    event.Evidence? && event.i == i && s.entries[i].handlers.Some?
    && s.entries[i].state !in {PortConflict, SessionLost}
  }

  /** A probe returns that was started for the controller and the generation the tunnel still has. */
  predicate Answers(s: State, event: Event, i: nat)
    requires i < |s.entries|
  {
    event.ProbeReturns? && event.i == i && event.probe in s.entries[i].probes && Live(s, i)
    && event.probe.controller == s.entries[i].controller && event.probe.generation == s.entries[i].probeGeneration
  }

  predicate Recovers(s: State, event: Event, i: nat)
    requires i < |s.entries|
  {
    Answers(s, event, i) && event.result.Ok() && s.entries[i].state in {Failed, PortConflict, SessionLost}
  }

  predicate Halts(s: State, event: Event, i: nat)
    requires i < |s.entries|
  {
    Live(s, i) && (event == Stop(s.entries[i].key) || event == CloseAll)
  }

  // ---------- The fields after an event ----------

  /** Back at zero exactly after a takeover, a listening report or a recovery; one more exactly when a timer
      is armed. */
  function AttemptsAfter(s: State, event: Event, i: nat): nat
    requires i < |s.entries|
  {
    if TakesOver(s, event, i) || Hears(s, event, i) || Recovers(s, event, i) then 0
    else if Arms(s, event, i) then s.entries[i].reconnectAttempt + 1
    else s.entries[i].reconnectAttempt
  }

  /** One second, then three, then ten. */
  function DelayOf(attempt: nat): nat
    requires attempt < 3
  {
    [1000, 3000, 10000][attempt]
  }

  /** A timer gets the delay of its attempt. */
  function TimerAfter(s: State, event: Event, i: nat): Option<nat>
    requires i < |s.entries|
  {
    if Arms(s, event, i) then Some(DelayOf(s.entries[i].reconnectAttempt))
    else if Begins(s, event, i) || Recovers(s, event, i) || Halts(s, event, i) then None
    else s.entries[i].reconnectTimer
  }

  function HandlersAfter(s: State, event: Event, i: nat): Option<nat>
    requires i < |s.entries|
  {
    if TakesOver(s, event, i) then Some(s.nextController)
    else if Begins(s, event, i) || Halts(s, event, i) then None
    else s.entries[i].handlers
  }

  function PhaseAfter(s: State, event: Event, i: nat): Phase
    requires i < |s.entries|
  {
    var phase := s.entries[i].phase;
    if Begins(s, event, i) then Closing
    else if event == OldControllerClosed(i) && phase == Closing then Opening
    else if (event == ReconnectReturns(i) || (event.ReconnectFails? && event.i == i)) && phase == Opening then Idle
    else phase
  }

  /** What is recorded: the new state last. */
  function Recorded(s: State, event: Event, i: nat): seq<TunnelEvent>
    requires i < |s.entries|
  {
    if TakesOver(s, event, i) then [TunnelEvent(Healthy, "SSH_TUNNEL_RECONNECTED")]
    else if Hears(s, event, i) then [TunnelEvent(Healthy, "SSH_TUNNEL_LISTENING")]
    else if Recovers(s, event, i) then [TunnelEvent(Healthy, "SSH_TUNNEL_PROBE_RECOVERED")]
    else if Begins(s, event, i) then [TunnelEvent(Reconnecting, "SSH_TUNNEL_RECONNECTING")]
    else if FailureOf(s, event, i).Some? then FailureRecords(s.entries[i], FailureOf(s, event, i).value)
    else []
  }

  /** A failure is recorded under its class; a lost session with no attempts left as a failure too. */
  function FailureRecords(e: Entry, code: string): (more: seq<TunnelEvent>)
    ensures more != []
  {
    if code in PORT_CONFLICT_CODES then [TunnelEvent(PortConflict, code)]
    else if code !in SESSION_LOST_CODES then [TunnelEvent(Failed, code)]
    else if e.reconnectTimer.None? && e.reconnectAttempt >= 3
      then [TunnelEvent(SessionLost, code), TunnelEvent(Failed, "SSH_TUNNEL_RECONNECT_EXHAUSTED")]
    else [TunnelEvent(SessionLost, code)]
  }

  /** The newest events of both. */
  function Newest(events: seq<TunnelEvent>, more: seq<TunnelEvent>): seq<TunnelEvent> {
    var all := events + more;
    all[Max(0, |all| - 50)..]
  }

  /** A test is asked for, or a queued probe comes up that is still current, and none runs. */
  predicate Probes(s: State, event: Event, i: nat)
    requires i < |s.entries|
  {
    var e := s.entries[i];
    e.probePromise.None?
    && ((event == Test(e.key) && Live(s, i))
        || (event == Microtask(i) && e.queued != [] && e.queued[0] == (e.controller, e.probeGeneration)))
  }

  predicate ProbeEnds(s: State, event: Event, i: nat)
    requires i < |s.entries|
  {
    event.ProbeReturns? && event.i == i && event.probe in s.entries[i].probes
  }

  function ProbesAfter(s: State, event: Event, i: nat): set<Probe>
    requires i < |s.entries|
  {
    var e := s.entries[i];
    if Probes(s, event, i) then e.probes + {Probe(e.nextToken, e.controller, e.probeGeneration)}
    else if ProbeEnds(s, event, i) then e.probes - {event.probe}
    else e.probes
  }

  function PromiseAfter(s: State, event: Event, i: nat): Option<nat>
    requires i < |s.entries|
  {
    var e := s.entries[i];
    if Probes(s, event, i) then Some(e.nextToken)
    else if TakesOver(s, event, i) || Halts(s, event, i)
        || (ProbeEnds(s, event, i) && e.probePromise == Some(event.probe.token)) then None
    else e.probePromise
  }

  /** A takeover queues a probe of the new controller. */
  function QueuedAfter(s: State, event: Event, i: nat): seq<(nat, nat)>
    requires i < |s.entries|
  {
    var e := s.entries[i];
    if TakesOver(s, event, i) then e.queued + [(s.nextController, e.probeGeneration + 1)]
    else if event == Microtask(i) && e.queued != [] then e.queued[1..]
    else e.queued
  }

  /** The result shown; a probe without a verdict does not replace evidence of traffic. */
  function LastTestAfter(s: State, event: Event, i: nat): Option<ProbeResult>
    requires i < |s.entries|
  {
    var e := s.entries[i];
    if FailureOf(s, event, i).Some? then Some(ProbeStagesForError(e.kind, FailureOf(s, event, i).value))
    else if Begins(s, event, i) then None
    else if Witnesses(s, event, i) then Some(event.result)
    else if Answers(s, event, i) && !(e.trafficEvidencePassed && event.result.Verdict() == Unverified)
      then Some(event.result)
    else e.lastTest
  }

  function TestStateAfter(s: State, event: Event, i: nat): TestState
    requires i < |s.entries|
  {
    var last := LastTestAfter(s, event, i);
    if Probes(s, event, i) then Testing
    else if Begins(s, event, i) then Untested
    else if last.Some? && (FailureOf(s, event, i).Some? || Witnesses(s, event, i) || Answers(s, event, i))
      then Tested(last.value.Verdict())
    else s.entries[i].testState
  }

  predicate EvidenceAfter(s: State, event: Event, i: nat)
    requires i < |s.entries|
  {
    if Witnesses(s, event, i) then event.result.Ok() && |event.result.stages| >= 3
    else
      && s.entries[i].trafficEvidencePassed && FailureOf(s, event, i).None? && !Begins(s, event, i)
      && (Answers(s, event, i) ==> event.result.Verdict() in {Passed, Unverified})
  }

  /** Tunnel `i` after the event. */
  ghost function After(s: State, event: Event, i: nat): Entry
    requires i < |s.entries|
  {
    var e := s.entries[i];
    var recorded := Recorded(s, event, i);
    Entry(
      key := e.key,
      kind := e.kind,
      controller := if TakesOver(s, event, i) then s.nextController else e.controller,
      handlers := HandlersAfter(s, event, i),
      state := if recorded == [] then e.state else recorded[|recorded| - 1].state,
      events := if recorded == [] then e.events else Newest(e.events, recorded),
      lastTest := LastTestAfter(s, event, i),
      testState := TestStateAfter(s, event, i),
      trafficEvidencePassed := EvidenceAfter(s, event, i),
      probeGeneration := e.probeGeneration + if Invalidates(s, event, i) then 1 else 0,
      probePromise := PromiseAfter(s, event, i),
      probes := ProbesAfter(s, event, i),
      nextToken := e.nextToken + if Probes(s, event, i) then 1 else 0,
      queued := QueuedAfter(s, event, i),
      reconnectAttempt := AttemptsAfter(s, event, i),
      reconnectTimer := TimerAfter(s, event, i),
      phase := PhaseAfter(s, event, i),
      manualStopping := e.manualStopping || Halts(s, event, i),
      armedSinceReset := AttemptsAfter(s, event, i))
  }

  /** A tunnel that came back has all its attempts again: the next lost session is retried after a second. */
  lemma ReconnectedTunnelIsRetried(s: State, i: nat, code: string)
    requires Inv(s) && i < |s.entries| && TakesOver(s, ReconnectReturns(i), i) && code in SESSION_LOST_CODES
    ensures var t := Step(s, ReconnectReturns(i));
            && Inv(t) && i < |t.entries| && t.entries[i].state == Healthy && t.entries[i].reconnectAttempt == 0
            && t.entries[i].handlers == Some(t.entries[i].controller)
            && (var u := Step(t, ControllerFails(i, code));
                i < |u.entries| && u.entries[i].state == SessionLost && u.entries[i].reconnectTimer == Some(1000))
  {
    StepKeepsInv(s, ReconnectReturns(i));
    EventEffect(s, ReconnectReturns(i), i);
    TakeoverFields(s, i);
    var t := Step(s, ReconnectReturns(i));
    hide Step, Inv, After, Live, TakesOver, FailureOf, GetsTimer;
    EventEffect(t, ControllerFails(i, code), i);
    LossFields(t, i, code);
  }

  lemma TakeoverFields(s: State, i: nat)
    requires Inv(s) && i < |s.entries| && TakesOver(s, ReconnectReturns(i), i)
    ensures var r := After(s, ReconnectReturns(i), i);
            && r.state == Healthy && r.handlers == Some(r.controller) && r.reconnectTimer.None?
            && r.reconnectAttempt == 0
  {
    EntryIsGood(s, i);
    hide Inv, Newest, Live;
  }

  lemma LossFields(s: State, i: nat, code: string)
    requires i < |s.entries| && s.entries[i].handlers.Some? && code in SESSION_LOST_CODES
    requires s.entries[i].reconnectTimer.None? && s.entries[i].reconnectAttempt == 0
    ensures var r := After(s, ControllerFails(i, code), i);
            r.state == SessionLost && r.reconnectTimer == Some(1000)
  {
    FailureClassIff(code);
    assert PORT_CONFLICT_CODES !! SESSION_LOST_CODES;
    hide Newest, Live;
  }

  // ---------- The rest of the state ----------

  /** A start that returns adds a running tunnel, healthy, attached, with a probe queued. */
  lemma StartedTunnel(s: State, key: string, kind: TunnelKind)
    requires Inv(s) && key in s.starting
    ensures var t, n := Step(s, StartReturns(key, kind)), |s.entries|;
            && t.entries[..n] == s.entries && |t.entries| == n + 1 && Live(t, n)
            && t.entries[n] == Entry(key, kind, s.nextController, Some(s.nextController), Healthy,
                                     [TunnelEvent(Healthy, "SSH_TUNNEL_STARTED")], None, Untested, false, 0, None, {},
                                     0, [(s.nextController, 0)], 0, None, Idle, false, 0)
  {
  }

  function ControllersAfter(s: State, event: Event): map<string, nat> {
    if event.StartReturns? && event.key in s.starting then s.controllers[event.key := |s.entries|]
    else if event.Stop? then s.controllers - {event.key}
    else if event.CloseAll? then map[]
    else s.controllers
  }

  function StartingAfter(s: State, event: Event): set<string> {
    if event.StartBegins? && event.key != "" && event.key !in s.controllers then s.starting + {event.key}
    else if event.StartFails? || event.StartReturns? then s.starting - {event.key}
    else s.starting
  }

  /** A start or a reconnect gets a controller. */
  predicate Opens(s: State, event: Event) {
    || (event.StartReturns? && event.key in s.starting)
    || (event.ReconnectReturns? && event.i < |s.entries| && s.entries[event.i].phase == Opening)
  }

  /** A controller is closed exactly by a reconnect that begins, a stop, or a reconnect that returns too late. */
  function ClosedAfter(s: State, event: Event): set<nat> {
    s.closed + (set k | 0 <= k < |s.entries| && Closes(s, event, k) :: s.entries[k].controller)
    + if event.ReconnectReturns? && Opens(s, event) && !Live(s, event.i) then {s.nextController} else {}
  }

  /** The map of running tunnels, the starts under way, and the controllers opened and closed. */
  predicate RestAfter(s: State, event: Event, t: State) {
    && t.controllers == ControllersAfter(s, event) && t.starting == StartingAfter(s, event)
    && |t.entries| == |s.entries| + (if event.StartReturns? && Opens(s, event) then 1 else 0)
    && t.nextController == s.nextController + (if Opens(s, event) then 1 else 0)
    && t.closed == ClosedAfter(s, event)
  }

  lemma RestEffect(s: State, event: Event)
    requires Inv(s)
    ensures RestAfter(s, event, Step(s, event))
  {
    StepDispatch(s);
    EntriesAreGood(s);
    if IsEntryEvent(event) {
      EntryEventRest(s, event);
    } else {
      match event {
        case TimerFires(i) => if i < |s.entries| { TimerRest(s, i); }
        case ReconnectReturns(i) => if i < |s.entries| { ReconnectRest(s, i); }
        case Stop(key) => StopRest(s, key);
        case CloseAll => CloseAllRest(s);
        case _ => OtherRest(s, event);
      }
    }
    hide Step, Inv, OnTimerFires, OnReconnectReturns, OnStop, OnCloseAll, EntryStep, RestAfter;
    if (event.TimerFires? || event.ReconnectReturns?) && event.i >= |s.entries| { OtherRest(s, event); }
  }

  lemma EntriesAreGood(s: State)
    requires Inv(s)
    ensures forall k: nat :: k < |s.entries| ==> Good(s, k)
    ensures MapInv(s)
  {
    forall k: nat | k < |s.entries| ensures Good(s, k) { EntryIsGood(s, k); }
  }

  lemma EntryEventRest(s: State, event: Event)
    requires Inv(s) && IsEntryEvent(event)
    ensures RestAfter(s, event, Step(s, event))
  {
    hide Inv, EntryStep, RestAfter, Step;
    if event.i < |s.entries| {
      StepOfEntryEvent(s, event);
      NothingElse(s, event, Step(s, event));
    } else {
      UnknownTunnel(s, event);
      NothingElse(s, event, s);
    }
  }

  lemma UnknownTunnel(s: State, event: Event)
    requires Inv(s) && (IsEntryEvent(event) || event.TimerFires? || event.ReconnectReturns?) && event.i >= |s.entries|
    ensures Step(s, event) == s
  {
    hide Inv;
  }

  lemma NothingElse(s: State, event: Event, t: State)
    requires IsEntryEvent(event) || ((event.TimerFires? || event.ReconnectReturns?) && event.i >= |s.entries|)
    requires t == s.(entries := t.entries) && |t.entries| == |s.entries|
    ensures RestAfter(s, event, t)
  {
    hide Live;
  }

  lemma OtherRest(s: State, event: Event)
    requires Inv(s) && (event.StartBegins? || event.StartFails? || event.StartReturns? || event.Test?
                        || ((event.TimerFires? || event.ReconnectReturns?) && event.i >= |s.entries|))
    ensures RestAfter(s, event, Step(s, event))
  {
    match event {
      case StartBegins(key) => StartBeginsRest(s, key);
      case StartFails(key) => StartFailsRest(s, key);
      case StartReturns(key, kind) => StartReturnsRest(s, key, kind);
      case Test(key) => TestRest(s, key);
      case _ =>
        UnknownTunnel(s, event);
        NothingElse(s, event, s);
    }
    hide Inv, RestAfter, Step;
  }

  lemma StartBeginsRest(s: State, key: string)
    requires Inv(s)
    ensures RestAfter(s, StartBegins(key), Step(s, StartBegins(key)))
  {
    hide Inv, Live;
  }

  lemma StartFailsRest(s: State, key: string)
    requires Inv(s)
    ensures RestAfter(s, StartFails(key), Step(s, StartFails(key)))
  {
    hide Inv, Live;
  }

  lemma StartReturnsRest(s: State, key: string, kind: TunnelKind)
    requires Inv(s)
    ensures RestAfter(s, StartReturns(key, kind), Step(s, StartReturns(key, kind)))
  {
    hide Inv, Live, NewEntry;
  }

  lemma TestRest(s: State, key: string)
    requires Inv(s)
    ensures RestAfter(s, Test(key), Step(s, Test(key)))
  {
    hide Inv, Live, RunProbe;
  }

  lemma TimerRest(s: State, i: nat)
    requires Good(s, i)
    ensures RestAfter(s, TimerFires(i), OnTimerFires(s, i))
  {
    hide BeginReconnect, Live;
    if s.entries[i].reconnectTimer.Some? { assert Closes(s, TimerFires(i), i); }
  }

  lemma ReconnectRest(s: State, i: nat)
    requires Good(s, i)
    ensures RestAfter(s, ReconnectReturns(i), OnReconnectReturns(s, i))
  {
    hide FinishReconnect, Live;
  }

  lemma StopRest(s: State, key: string)
    requires MapInv(s)
    ensures RestAfter(s, Stop(key), OnStop(s, key))
  {
    hide Halt;
    if key in s.controllers { assert Closes(s, Stop(key), s.controllers[key]); }
  }

  lemma CloseAllRest(s: State)
    ensures RestAfter(s, CloseAll, OnCloseAll(s))
  {
    hide HaltLive, Live;
    assert forall k: nat :: k < |s.entries| ==> Closes(s, CloseAll, k) == Live(s, k);
    assert |OnCloseAll(s).entries| == |s.entries| by { assert |HaltLive(s, s.entries)| == |s.entries|; }
  }

  predicate Closes(s: State, event: Event, i: nat)
    requires i < |s.entries|
  {
    Begins(s, event, i) || Halts(s, event, i)
  }

  lemma AppendIsNewest(events: seq<TunnelEvent>, more: seq<TunnelEvent>, event: TunnelEvent)
    ensures AppendTunnelEvent(events, event) == Newest(events, [event])
    ensures |events| <= 50 ==> AppendTunnelEvent(Newest(events, more), event) == Newest(events, more + [event])
  {
    assert events + (more + [event]) == (events + more) + [event];
  }

  lemma FailureForm(e: Entry, code: string)
    requires !e.manualStopping && |e.events| <= 50
    ensures var arms := GetsTimer(e, code);
            var more := FailureRecords(e, code);
            var result := ProbeStagesForError(e.kind, code);
            HandleControllerFailure(e, true, code)
            == e.(state := more[|more| - 1].state, events := Newest(e.events, more),
                  lastTest := Some(result), testState := Tested(result.Verdict()), trafficEvidencePassed := false,
                  probeGeneration := e.probeGeneration + 1,
                  reconnectAttempt := e.reconnectAttempt + if arms then 1 else 0,
                  reconnectTimer := if arms then Some(DelayOf(e.reconnectAttempt)) else e.reconnectTimer,
                  armedSinceReset := e.armedSinceReset + if arms then 1 else 0)
  {
    FailureEvents(e, code);
    RecordsOfFailure(e, code);
    hide ClassifyTunnelFailure, AppendTunnelEvent, Newest, ProbeStagesForError, WorstFrom, SESSION_LOST_CODES,
        PORT_CONFLICT_CODES, ProbeResult.Verdict, FailureRecords;
  }

  lemma RecordsOfFailure(e: Entry, code: string)
    ensures var one := TunnelEvent(ClassifyTunnelFailure(code), code);
            && (code in SESSION_LOST_CODES <==> ClassifyTunnelFailure(code) == SessionLost)
            && FailureRecords(e, code)
                == if code in SESSION_LOST_CODES && e.reconnectTimer.None? && e.reconnectAttempt >= 3
                   then [one, TunnelEvent(Failed, "SSH_TUNNEL_RECONNECT_EXHAUSTED")] else [one]
  {
    FailureClassIff(code);
    assert PORT_CONFLICT_CODES !! SESSION_LOST_CODES;
  }

  lemma FailureEvents(e: Entry, code: string)
    requires |e.events| <= 50
    ensures var one := TunnelEvent(ClassifyTunnelFailure(code), code);
            var two := TunnelEvent(Failed, "SSH_TUNNEL_RECONNECT_EXHAUSTED");
            && AppendTunnelEvent(e.events, one) == Newest(e.events, [one])
            && AppendTunnelEvent(AppendTunnelEvent(e.events, one), two) == Newest(e.events, [one, two])
  {
    var one := TunnelEvent(ClassifyTunnelFailure(code), code);
    var two := TunnelEvent(Failed, "SSH_TUNNEL_RECONNECT_EXHAUSTED");
    AppendIsNewest(e.events, [], one);
    AppendIsNewest(e.events, [one], two);
    assert [one] + [two] == [one, two];
    hide AppendTunnelEvent, Newest;
  }

  lemma ResultForm(e: Entry, result: ProbeResult, controller: nat, generation: nat)
    requires !e.manualStopping && EvidenceHasTest(e)
    requires controller == e.controller && generation == e.probeGeneration
    ensures var recovers := result.Ok() && e.state in {Failed, PortConflict, SessionLost};
            var last := if e.trafficEvidencePassed && result.Verdict() == Unverified then e.lastTest.value else result;
            ApplyProbeResult(e, true, result, controller, generation, FromProbe)
            == e.(state := if recovers then Healthy else e.state,
                  events := if recovers then Newest(e.events, [TunnelEvent(Healthy, "SSH_TUNNEL_PROBE_RECOVERED")])
                            else e.events,
                  lastTest := if last == result then Some(result) else e.lastTest, testState := Tested(last.Verdict()),
                  trafficEvidencePassed := e.trafficEvidencePassed && result.Verdict() in {Passed, Unverified},
                  reconnectAttempt := if recovers then 0 else e.reconnectAttempt,
                  reconnectTimer := if recovers then None else e.reconnectTimer,
                  armedSinceReset := if recovers then 0 else e.armedSinceReset)
  {
    AppendIsNewest(e.events, [], TunnelEvent(Healthy, "SSH_TUNNEL_PROBE_RECOVERED"));
    hide AppendTunnelEvent, Newest, WorstFrom, Max;
  }

  /** What the invariant says about one tunnel. */
  predicate Good(s: State, i: nat) {
    Ready(s, i) &&
    var e := s.entries[i];
    && (Live(s, i) <==> !e.manualStopping) && (e.reconnectTimer.Some? ==> Live(s, i) && e.phase == Idle)
    && (e.handlers.Some? ==> Live(s, i) && e.phase == Idle && e.handlers.value == e.controller)
    && e.armedSinceReset == e.reconnectAttempt <= 3 && |e.events| <= 50
  }

  lemma EntryIsGood(s: State, i: nat)
    requires Inv(s) && i < |s.entries|
    ensures Good(s, i)
  {
    assert EntryInv(s.entries[i], Live(s, i));
  }

  lemma AfterListening(s: State, event: Event, i: nat)
    requires Good(s, i) && event.Listening? && event.i == i
    ensures EntryAfter(s, event, i) == After(s, event, i)
  {
    hide ProbeStagesForError, WorstFrom, Live;
  }

  lemma AfterControllerFails(s: State, event: Event, i: nat)
    requires Good(s, i) && event.ControllerFails? && event.i == i
    ensures EntryAfter(s, event, i) == After(s, event, i)
  {
    OnlyFails(s, event, i);
    var e := s.entries[i];
    if e.handlers.Some? {
      FailureForm(e, event.code);
      assert FailureOf(s, event, i) == Some(event.code);
    }
    hide ProbeStagesForError, WorstFrom, Live, Newest, FailureRecords, DelayOf, TakesOver, Hears, Recovers, Begins,
        Halts, Witnesses, Answers, Probes, ProbeEnds,
        ProbeResult.Verdict, SESSION_LOST_CODES, PORT_CONFLICT_CODES;
  }

  lemma OnlyFails(s: State, event: Event, i: nat)
    requires i < |s.entries| && (event.ControllerFails? || event.ReconnectFails?)
    ensures !TakesOver(s, event, i) && !Hears(s, event, i) && !Recovers(s, event, i) && !Begins(s, event, i)
    ensures !Halts(s, event, i) && !Witnesses(s, event, i) && !Answers(s, event, i) && !Probes(s, event, i)
    ensures !ProbeEnds(s, event, i)
  {
  }

  lemma AfterEvidence(s: State, event: Event, i: nat)
    requires Good(s, i) && event.Evidence? && event.i == i
    ensures EntryAfter(s, event, i) == After(s, event, i)
  {
    hide ProbeStagesForError, WorstFrom, Live;
  }

  lemma AfterTimerFires(s: State, event: Event, i: nat)
    requires Good(s, i) && event.TimerFires? && event.i == i
    ensures EntryAfter(s, event, i) == After(s, event, i)
  {
    hide ProbeStagesForError, WorstFrom, Live;
  }

  lemma AfterOldControllerClosed(s: State, event: Event, i: nat)
    requires Good(s, i) && event.OldControllerClosed? && event.i == i
    ensures EntryAfter(s, event, i) == After(s, event, i)
  {
    hide ProbeStagesForError, WorstFrom, Live;
  }

  lemma AfterReconnectReturns(s: State, event: Event, i: nat)
    requires Good(s, i) && event.ReconnectReturns? && event.i == i
    ensures EntryAfter(s, event, i) == After(s, event, i)
  {
    hide ProbeStagesForError, WorstFrom, Live;
  }

  lemma AfterReconnectFails(s: State, event: Event, i: nat)
    requires Good(s, i) && event.ReconnectFails? && event.i == i
    ensures EntryAfter(s, event, i) == After(s, event, i)
  {
    OnlyFails(s, event, i);
    var e := s.entries[i];
    if e.phase == Opening && Live(s, i) {
      FailureForm(e.(phase := Idle), event.code);
      assert FailureRecords(e.(phase := Idle), event.code) == FailureRecords(e, event.code);
      assert GetsTimer(e.(phase := Idle), event.code) == GetsTimer(e, event.code);
      assert FailureOf(s, event, i) == Some(event.code);
    }
    hide ProbeStagesForError, WorstFrom, Live, Newest, FailureRecords, GetsTimer, DelayOf, TakesOver, Hears, Recovers,
        Begins, Halts, Witnesses, Answers, Probes, ProbeEnds, ProbeResult.Verdict, SESSION_LOST_CODES,
        PORT_CONFLICT_CODES;
    if !Live(s, i) { hide FailureOf; }
  }

  lemma AfterMicrotask(s: State, event: Event, i: nat)
    requires Good(s, i) && event.Microtask? && event.i == i
    ensures EntryAfter(s, event, i) == After(s, event, i)
  {
    hide ProbeStagesForError, WorstFrom, Live;
  }

  lemma AfterProbeReturns(s: State, event: Event, i: nat)
    requires Good(s, i) && event.ProbeReturns? && event.i == i
    ensures EntryAfter(s, event, i) == After(s, event, i)
  {
    hide ProbeStagesForError, ProbeResult.Verdict, Live, Newest;
    OnlyReturns(s, event, i);
    if Answers(s, event, i) {
      ResultForm(s.entries[i], event.result, event.probe.controller, event.probe.generation);
    } else if ProbeEnds(s, event, i) {
      StaleResult(s.entries[i], Live(s, i), event.result, event.probe);
    }
    hide ApplyProbeResult, TakesOver, Hears, Begins, Halts, Witnesses, Probes, Arms, FailureOf, ProbeResult.Ok;
  }

  lemma OnlyReturns(s: State, event: Event, i: nat)
    requires i < |s.entries| && event.ProbeReturns?
    ensures !TakesOver(s, event, i) && !Hears(s, event, i) && !Begins(s, event, i) && !Halts(s, event, i)
    ensures !Witnesses(s, event, i) && !Probes(s, event, i) && !Arms(s, event, i) && FailureOf(s, event, i).None?
  {
  }

  lemma StaleResult(e: Entry, live: bool, result: ProbeResult, probe: Probe)
    requires EvidenceHasTest(e) && (live <==> !e.manualStopping)
    requires !(live && probe.controller == e.controller && probe.generation == e.probeGeneration)
    ensures ApplyProbeResult(e, live, result, probe.controller, probe.generation, FromProbe) == e
  {
  }

  /** A start, a stop or a test. */
  lemma AfterCall(s: State, event: Event, i: nat)
    requires Good(s, i) && !IsEntryEvent(event) && !event.TimerFires? && !event.ReconnectReturns?
    ensures EntryAfter(s, event, i) == After(s, event, i)
  {
    hide ProbeStagesForError, WorstFrom, Live;
  }

  /** What an event makes of a tunnel, in every reachable state. */
  lemma EventEffect(s: State, event: Event, i: nat)
    requires Inv(s) && i < |s.entries|
    ensures i < |Step(s, event).entries| && Step(s, event).entries[i] == After(s, event, i)
  {
    EntryIsGood(s, i);
    StepOfEntry(s, event, i);
    hide Step, Inv, EntryAfter, After;
    match event
    case Listening(j) => if j == i { AfterListening(s, event, i); } else { AfterOther(s, event, i); }
    case ControllerFails(j, _) => if j == i { AfterControllerFails(s, event, i); } else { AfterOther(s, event, i); }
    case Evidence(j, _) => if j == i { AfterEvidence(s, event, i); } else { AfterOther(s, event, i); }
    case TimerFires(j) => if j == i { AfterTimerFires(s, event, i); } else { AfterOther(s, event, i); }
    case OldControllerClosed(j) =>
      if j == i { AfterOldControllerClosed(s, event, i); } else { AfterOther(s, event, i); }
    case ReconnectReturns(j) => if j == i { AfterReconnectReturns(s, event, i); } else { AfterOther(s, event, i); }
    case ReconnectFails(j, _) => if j == i { AfterReconnectFails(s, event, i); } else { AfterOther(s, event, i); }
    case Microtask(j) => if j == i { AfterMicrotask(s, event, i); } else { AfterOther(s, event, i); }
    case ProbeReturns(j, _, _) => if j == i { AfterProbeReturns(s, event, i); } else { AfterOther(s, event, i); }
    case _ => AfterCall(s, event, i);
  }

  /** An event of another tunnel. */
  lemma AfterOther(s: State, event: Event, i: nat)
    requires Good(s, i) && (IsEntryEvent(event) || event.TimerFires? || event.ReconnectReturns?) && event.i != i
    ensures EntryAfter(s, event, i) == After(s, event, i)
  {
    hide Live, EntryStep;
  }
}

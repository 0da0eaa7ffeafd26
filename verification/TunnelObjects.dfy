/** The runtime as the objects of the source: entries whose fields the handlers update and a map of
    running tunnels. Every method is proved against the state machine of `TunnelRuntime`. */
module TunnelObjects {
  import opened Prelude
  import opened TunnelHealth
  import Spec = TunnelRuntime

  class TunnelEntry {
    /** The place of the entry in the registry of the runtime. */
    ghost const index: nat
    const key: string
    const kind: TunnelKind
    var controller: nat
    var controllerHandlers: Option<nat>
    var state: TunnelState
    var events: seq<TunnelEvent>
    var lastTest: Option<ProbeResult>
    var testState: Spec.TestState
    var trafficEvidencePassed: bool
    var probeGeneration: nat
    var probePromise: Option<nat>
    var reconnectAttempt: nat
    var reconnectTimer: Option<nat>
    var manualStopping: bool
    // what the event loop holds for this entry
    var probes: set<Spec.Probe>
    var nextToken: nat
    var queued: seq<(nat, nat)>
    var phase: Spec.Phase
    ghost var armedSinceReset: nat

    ghost function View(): Spec.Entry
      reads this
    {
      Spec.Entry(key, kind, controller, controllerHandlers, state, events, lastTest, testState, trafficEvidencePassed,
                 probeGeneration, probePromise, probes, nextToken, queued, reconnectAttempt, reconnectTimer, phase,
                 manualStopping, armedSinceReset)
    }

    constructor (ghost index: nat, key: string, kind: TunnelKind, controller: nat)
      ensures View() == Spec.NewEntry(key, kind, controller) && this.key == key && this.index == index
    {
      this.index := index;
      this.key := key;
      this.kind := kind;
      this.controller := controller;
      controllerHandlers := None;
      state := Healthy;
      events := [];
      lastTest := None;
      testState := Spec.Untested;
      trafficEvidencePassed := false;
      probeGeneration := 0;
      probePromise := None;
      reconnectAttempt := 0;
      reconnectTimer := None;
      manualStopping := false;
      probes, nextToken, queued, phase, armedSinceReset := {}, 0, [], Spec.Idle, 0;
      new;
      AttachControllerEvents();
      RecordState(Healthy, "SSH_TUNNEL_STARTED");
      QueueProbe();
    }

    method RecordState(state: TunnelState, code: string)
      modifies this
      ensures View() == Spec.RecordState(old(View()), state, code)
    {
      this.state := state;
      events := AppendTunnelEvent(events, TunnelEvent(state, code));
    }

    method ResetAttempts()
      modifies this
      ensures View() == Spec.ResetAttempts(old(View()))
    {
      reconnectAttempt := 0;
      armedSinceReset := 0;
    }

    method InvalidateProbe(error: Option<string>)
      modifies this
      ensures View() == Spec.InvalidateProbe(old(View()), error)
    {
      probeGeneration := probeGeneration + 1;
      trafficEvidencePassed := false;
      if error.None? {
        lastTest := None;
        testState := Spec.Untested;
        return;
      }
      var result := ProbeStagesForError(kind, error.value);
      lastTest := Some(result);
      testState := Spec.Tested(result.Verdict());
    }

    method AttachControllerEvents()
      modifies this
      ensures View() == old(View()).(handlers := Some(controller))
    {
      controllerHandlers := Some(controller);
    }

    method DetachControllerEvents()
      modifies this
      ensures View() == old(View()).(handlers := None)
    {
      controllerHandlers := None;
    }

    method CancelReconnect()
      modifies this
      ensures View() == old(View()).(reconnectTimer := None)
    {
      if reconnectTimer.None? { return; }
      reconnectTimer := None;
    }

    method ScheduleReconnect()
      modifies this
      ensures View() == Spec.ScheduleReconnect(old(View()))
    {
      if manualStopping || reconnectTimer.Some? { return; }
      var delay := GetReconnectDelayMs(reconnectAttempt);
      if delay.None? {
        RecordState(Failed, "SSH_TUNNEL_RECONNECT_EXHAUSTED");
        return;
      }
      reconnectAttempt := reconnectAttempt + 1;
      reconnectTimer := delay;
      armedSinceReset := armedSinceReset + 1;
    }

    method HandleControllerFailure(running: bool, code: string)
      modifies this
      ensures View() == Spec.HandleControllerFailure(old(View()), running, code)
    {
      if manualStopping || !running { return; }
      InvalidateProbe(Some(code));
      var failure := ClassifyTunnelFailure(code);
      RecordState(failure, code);
      if failure == SessionLost { ScheduleReconnect(); }
    }

    method OnListening()
      requires controllerHandlers.Some?
      modifies this
      ensures View() == Spec.OnListening(old(View()))
    {
      if manualStopping || Spec.Untrusted(state) { return; }
      ResetAttempts();
      RecordState(Healthy, "SSH_TUNNEL_LISTENING");
    }

    method ApplyProbeResult(running: bool, result: ProbeResult, controller: nat, generation: nat, source: Spec.Source)
      requires Spec.EvidenceHasTest(View())
      modifies this
      ensures View() == Spec.ApplyProbeResult(old(View()), running, result, controller, generation, source)
    {
      hide WorstFrom, AppendTunnelEvent;
      if manualStopping || !running || this.controller != controller || probeGeneration != generation { return; }
      if source == Spec.FromProbe && trafficEvidencePassed && result.Verdict() == Unverified {
        testState := Spec.Tested(lastTest.value.Verdict());
        return;
      }
      lastTest := Some(result);
      testState := Spec.Tested(result.Verdict());
      if source == Spec.FromEvidence {
        trafficEvidencePassed := result.Ok() && |result.stages| >= 3;
      } else if result.Verdict() == Limited || result.Verdict() == StageFailed {
        trafficEvidencePassed := false;
      }
      assert View() == Spec.StoreResult(old(View()), result, source);
      if source == Spec.FromProbe && result.Ok() && Spec.ProbeRecoverable(state) {
        CancelReconnect();
        ResetAttempts();
        RecordState(Healthy, "SSH_TUNNEL_PROBE_RECOVERED");
      }
    }

    method OnEvidence(running: bool, result: ProbeResult)
      requires Spec.EvidenceHasTest(View()) && controllerHandlers.Some?
      modifies this
      ensures View() == Spec.OnEvidence(old(View()), running, result)
    {
      if Spec.Untrusted(state) { return; }
      probeGeneration := probeGeneration + 1;
      ApplyProbeResult(running, result, controllerHandlers.value, probeGeneration, Spec.FromEvidence);
    }

    method RunProbe()
      modifies this
      ensures View() == Spec.RunProbe(old(View()))
    {
      if probePromise.Some? { return; }
      testState := Spec.Testing;
      probes := probes + {Spec.Probe(nextToken, controller, probeGeneration)};
      probePromise := Some(nextToken);
      nextToken := nextToken + 1;
    }

    method QueueProbe()
      modifies this
      ensures View() == Spec.QueueProbe(old(View()))
    {
      queued := queued + [(controller, probeGeneration)];
    }

    method OnMicrotask()
      requires queued != []
      modifies this
      ensures View() == Spec.OnMicrotask(old(View()))
    {
      var task := queued[0];
      queued := queued[1..];
      if controller != task.0 || probeGeneration != task.1 { return; }
      RunProbe();
    }

    method OnProbeReturns(running: bool, probe: Spec.Probe, result: ProbeResult)
      requires Spec.EvidenceHasTest(View())
      modifies this
      ensures View() == Spec.OnProbeReturns(old(View()), running, probe, result)
    {
      ApplyProbeResult(running, result, probe.controller, probe.generation, Spec.FromProbe);
      probes := probes - {probe};
      if probePromise == Some(probe.token) { probePromise := None; }
    }

    /** The part of `reconnect` before its first await. */
    method BeginReconnect()
      modifies this
      ensures View() == Spec.BeginReconnect(old(View()))
    {
      reconnectTimer := None;
      RecordState(Reconnecting, "SSH_TUNNEL_RECONNECTING");
      InvalidateProbe(None);
      DetachControllerEvents();
      phase := Spec.Closing;
    }

    /** The part of `reconnect` after a new controller has come and is still wanted. */
    method FinishReconnect(controller: nat)
      modifies this
      ensures View() == Spec.FinishReconnect(old(View()), controller)
    {
      hide TunnelEntry.View, Spec.RecordState, Spec.QueueProbe, Spec.ResetAttempts;
      TakeOver(controller);
      ResetAttempts();
      RecordState(Healthy, "SSH_TUNNEL_RECONNECTED");
      QueueProbe();
    }

    /** The entry holds the new controller and listens to it; what was probed before no longer counts. */
    method TakeOver(controller: nat)
      modifies this
      ensures View() == old(View()).(controller := controller, probeGeneration := old(View()).probeGeneration + 1,
                                     probePromise := None, phase := Spec.Idle, handlers := Some(controller))
    {
      phase := Spec.Idle;
      this.controller := controller;
      probeGeneration := probeGeneration + 1;
      probePromise := None;
      controllerHandlers := Some(controller);
    }

    /** The handlers of the events that concern one entry only. */
    method Handle(event: Spec.Event, running: bool)
      requires Spec.EvidenceHasTest(View()) && Spec.IsEntryEvent(event)
      modifies this
      ensures View() == Spec.EntryStep(old(View()), running, event)
    {
      hide Spec.HandleControllerFailure, Spec.OnEvidence, Spec.OnMicrotask, Spec.OnProbeReturns;
      match event
      case Listening(_) => if controllerHandlers.Some? { OnListening(); }
      case ControllerFails(_, code) => if controllerHandlers.Some? { HandleControllerFailure(running, code); }
      case Evidence(_, result) => if controllerHandlers.Some? { OnEvidence(running, result); }
      case OldControllerClosed(_) => if phase == Spec.Closing { phase := Spec.Opening; }
      case ReconnectFails(_, code) =>
        if phase == Spec.Opening {
          phase := Spec.Idle;
          HandleControllerFailure(running, code);
        }
      case Microtask(_) => if queued != [] { OnMicrotask(); }
      case ProbeReturns(_, probe, result) => if probe in probes { OnProbeReturns(running, probe, result); }
    }

    /** What `stop` and `closeAll` do before they await the controller. */
    method Halt()
      modifies this
      ensures View() == Spec.Halt(old(View()))
    {
      manualStopping := true;
      probeGeneration := probeGeneration + 1;
      probePromise := None;
      CancelReconnect();
      DetachControllerEvents();
    }
  }

  class SshTunnelRuntime {
    var controllers: map<string, TunnelEntry>
    /** Every entry ever made, in order; tasks under way hold on to theirs after a stop. */
    ghost var registry: seq<TunnelEntry>
    ghost var starting: set<string>
    ghost var nextController: nat
    ghost var closed: set<nat>

    ghost predicate Valid()
      reads this, registry
    {
      && (forall i :: 0 <= i < |registry| ==> registry[i].index == i)
      && (forall key :: key in controllers ==> Registered(controllers[key]) && controllers[key].key == key)
    }

    ghost predicate Registered(entry: TunnelEntry)
      reads this
    {
      entry.index < |registry| && registry[entry.index] == entry
    }

    ghost function View(): (s: Spec.State)
      reads this, registry
      ensures |s.entries| == |registry|
    {
      Spec.State(
        seq(|registry|, i requires 0 <= i < |registry| reads this, registry => registry[i].View()),
        map key | key in controllers :: controllers[key].index,
        starting, nextController, closed)
    }

    predicate Running(entry: TunnelEntry)
      reads this, entry
    {
      entry.key in controllers && controllers[entry.key] == entry
    }

    lemma RunningIsLive(entry: TunnelEntry)
      requires Valid() && Registered(entry)
      ensures Running(entry) <==> Spec.Live(View(), entry.index)
    {
    }

    constructor ()
      ensures Valid() && View() == Spec.INITIAL
    {
      controllers := map[];
      registry := [];
      starting, nextController, closed := {}, 0, {};
    }

    /** An event that concerns one entry, proved as one step of the machine. */
    method OnEntryEvent(entry: TunnelEntry, event: Spec.Event)
      requires Valid() && Spec.Inv(View()) && Registered(entry)
      requires Spec.IsEntryEvent(event) && event.i == entry.index
      modifies entry
      ensures Valid() && View() == Spec.Step(old(View()), event)
    {
      Spec.InvIsReady(View());
      Spec.StepOfEntryEvent(View(), event);
      RunningIsLive(entry);
      hide Spec.Inv, Spec.Step, Spec.EntryStep;
      entry.Handle(event, Running(entry));
      assert View() == Spec.Put(old(View()), event.i, entry.View());
    }
  
    /** The part of `start` before its await: refused for a blank or running id. */
    method StartBegins(key: string) returns (accepted: bool)
      requires Valid() && Spec.Inv(View())
      modifies this`starting
      ensures Valid() && View() == Spec.Step(old(View()), Spec.StartBegins(key))
      ensures accepted <==> key != "" && key !in controllers
    {
      hide Spec.Inv;
      if key == "" || key in controllers { return false; }
      starting := starting + {key};
      accepted := true;
    }

    method StartFails(key: string)
      requires Valid() && Spec.Inv(View())
      modifies this`starting
      ensures Valid() && View() == Spec.Step(old(View()), Spec.StartFails(key))
    {
      hide Spec.Inv;
      starting := starting - {key};
    }

    lemma StartingIsNotRunning(key: string)
      requires Valid() && Spec.Inv(View()) && key in starting
      ensures key !in controllers
    {
      assert key in View().starting;
    }

    lemma ViewOfEntry(entry: TunnelEntry)
      requires Valid() && Registered(entry)
      ensures View().entries[entry.index] == entry.View()
      ensures entry.View().controller == entry.controller && entry.View().key == entry.key
      ensures entry.View().manualStopping == entry.manualStopping
      ensures entry.View().reconnectTimer == entry.reconnectTimer && entry.View().phase == entry.phase
    {
    }

    /** How the abstract state follows a change of at most one entry. */
    twostate lemma EntryChanged(entry: TunnelEntry)
      requires old(Valid()) && Valid() && registry == old(registry) && Registered(entry)
      requires forall e :: e in registry && e != entry ==> e.View() == old(e.View())
      ensures View().entries == old(View()).entries[entry.index := entry.View()]
    {
      hide TunnelEntry.View;
    }

    /** The part of `start` after its await; starts of one id do not overlap. */
    method StartReturns(key: string, kind: TunnelKind, controller: nat) returns (entry: TunnelEntry)
      requires Valid() && Spec.Inv(View()) && key in starting && controller == nextController
      modifies this
      ensures Valid() && View() == Spec.Step(old(View()), Spec.StartReturns(key, kind))
      ensures fresh(entry) && Running(entry)
    {
      hide Spec.Inv, Spec.Step, Spec.NewEntry, TunnelEntry.View;
      Spec.StepDispatch(View());
      StartingIsNotRunning(key);
      entry := new TunnelEntry(|registry|, key, kind, controller);
      controllers := controllers[key := entry];
      registry := registry + [entry];
      starting := starting - {key};
      nextController := nextController + 1;
      EntryAdded(entry);
    }

    twostate lemma EntryAdded(new entry: TunnelEntry)
      requires old(Valid()) && fresh(entry) && entry.index == |old(registry)|
      requires registry == old(registry) + [entry] && entry.key !in old(controllers)
      requires controllers == old(controllers)[entry.key := entry]
      requires forall e :: e in old(registry) ==> e.View() == old(e.View())
      ensures Valid()
      ensures View().entries == old(View()).entries + [entry.View()]
      ensures View().controllers == old(View()).controllers[entry.key := |old(registry)|]
    {
      hide TunnelEntry.View;
    }

    /** The reconnect timer of an entry fires. */
    method TimerFires(entry: TunnelEntry)
      requires Valid() && Spec.Inv(View()) && Registered(entry) && entry.reconnectTimer.Some?
      modifies this`closed, entry
      ensures Valid() && View() == Spec.Step(old(View()), Spec.TimerFires(entry.index))
    {
      hide Spec.Inv, Spec.Step, Spec.Live, Spec.BeginReconnect;
      Spec.StepDispatch(View());
      RunningIsLive(entry);
      ViewOfEntry(entry);
      ghost var before := entry.View();
      BeginKeepsController(before);
      if entry.manualStopping || !Running(entry) {
        entry.reconnectTimer := None;
        assert entry.View() == before.(reconnectTimer := None);
      } else {
        entry.BeginReconnect();
        ViewOfEntry(entry);
        closed := closed + {entry.controller};
      }
      hide TunnelEntry.View;
      EntryChanged(entry);
    }

    lemma BeginKeepsController(e: Spec.Entry)
      ensures Spec.BeginReconnect(e).controller == e.controller
    {
    }

    /** The reconnect of an entry gets its new controller: it is closed at once if a stop came first. */
    method ReconnectReturns(entry: TunnelEntry, controller: nat)
      requires Valid() && Spec.Inv(View()) && Registered(entry) && entry.phase == Spec.Opening
          && controller == nextController
      modifies this`closed, this`nextController, entry
      ensures Valid() && View() == Spec.Step(old(View()), Spec.ReconnectReturns(entry.index))
    {
      hide Spec.Inv, Spec.Step, Spec.Live, Spec.FinishReconnect;
      Spec.StepDispatch(View());
      RunningIsLive(entry);
      ViewOfEntry(entry);
      ghost var before := entry.View();
      nextController := nextController + 1;
      if entry.manualStopping || !Running(entry) {
        entry.phase := Spec.Idle;
        closed := closed + {controller};
        assert entry.View() == before.(phase := Spec.Idle);
      } else {
        entry.FinishReconnect(controller);
      }
      hide TunnelEntry.View;
      EntryChanged(entry);
    }

    method Test(key: string) returns (found: bool)
      requires Valid() && Spec.Inv(View())
      modifies if key in controllers then {controllers[key]} else {}
      ensures Valid() && View() == Spec.Step(old(View()), Spec.Test(key))
      ensures found <==> key in controllers
    {
      hide Spec.Inv, Spec.RunProbe, TunnelEntry.View;
      if key !in controllers { return false; }
      var entry := controllers[key];
      ViewOfEntry(entry);
      entry.RunProbe();
      found := true;
      EntryChanged(entry);
    }

    method Stop(key: string) returns (found: bool)
      requires Valid() && Spec.Inv(View())
      modifies this, if key in controllers then {controllers[key]} else {}
      ensures Valid() && View() == Spec.Step(old(View()), Spec.Stop(key))
      ensures found <==> key in old(controllers)
    {
      hide Spec.Inv, Spec.Step, Spec.Halt, TunnelEntry.View;
      Spec.StepDispatch(View());
      if key !in controllers { return false; }
      var entry := controllers[key];
      ViewOfEntry(entry);
      controllers := controllers - {key};
      HaltAndClose(entry);
      found := true;
      EntryChanged(entry);
      hide Valid;
      assert View().controllers == old(View()).controllers - {key};
    }

    method CloseAll()
      requires Valid() && Spec.Inv(View())
      modifies this, controllers.Values
      ensures Valid() && View() == Spec.Step(old(View()), Spec.CloseAll)
    {
      hide Spec.Inv, Spec.Step, Spec.Halt, TunnelEntry.View, Spec.Live, Spec.OnCloseAll;
      Spec.StepDispatch(View());
      ghost var s := View();
      RunningAreTheValues();
      ViewsOfEntries();
      hide View, ControllersOf;
      var entries := controllers.Values;
      controllers := map[];
      HaltAndCloseEach(entries, s);
      AllHalted(s, entries);
    }

    /** The loop of `closeAll` over the entries it found running. */
    method HaltAndCloseEach(entries: set<TunnelEntry>, ghost s: Spec.State)
      requires forall e :: e in entries ==> e.index < |s.entries| && e.View() == s.entries[e.index]
      modifies this`closed, entries
      ensures forall e :: e in entries ==> e.View() == Spec.Halt(s.entries[e.index])
      ensures closed == old(closed) + ControllersOf(s, entries)
    {
      hide Spec.Halt, TunnelEntry.View;
      var left := entries;
      while left != {}
        invariant left <= entries
        invariant forall e :: e in left ==> e.View() == s.entries[e.index]
        invariant forall e :: e in entries - left ==> e.View() == Spec.Halt(s.entries[e.index])
        invariant closed == old(closed) + ControllersOf(s, entries - left)
        decreases left
      {
        var entry :| entry in left;
        left := left - {entry};
        HaltAndClose(entry);
      }
    }

    ghost function ControllersOf(s: Spec.State, done: set<TunnelEntry>): set<nat>
    {
      set e | e in done && e.index < |s.entries| :: s.entries[e.index].controller
    }

    /** One turn of the loop of `closeAll`. */
    method HaltAndClose(entry: TunnelEntry)
      modifies this`closed, entry
      ensures entry.View() == Spec.Halt(old(entry.View()))
      ensures closed == old(closed) + {old(entry.View().controller)}
    {
      hide Spec.Halt;
      Spec.HaltFacts(entry.View());
      entry.Halt();
      closed := closed + {entry.controller};
    }

    lemma AllHalted(s: Spec.State, done: set<TunnelEntry>)
      requires Valid() && controllers == map[] && |s.entries| == |registry|
      requires starting == s.starting && nextController == s.nextController
      requires forall e :: e in done ==> e in registry
      requires forall k: nat :: k < |registry| ==> (Spec.Live(s, k) <==> registry[k] in done)
      requires forall e :: e in registry && e !in done ==> e.View() == s.entries[e.index]
      requires forall e :: e in done ==> e.View() == Spec.Halt(s.entries[e.index])
      requires closed == s.closed + ControllersOf(s, done)
      ensures View() == Spec.OnCloseAll(s)
    {
      hide Spec.Halt, TunnelEntry.View, Spec.Live;
      assert View().entries == Spec.HaltLive(s, s.entries);
      var live := set k | 0 <= k < |s.entries| && Spec.Live(s, k) :: s.entries[k].controller;
      forall c ensures c in ControllersOf(s, done) <==> c in live {
        if c in ControllersOf(s, done) {
          var e :| e in done && s.entries[e.index].controller == c;
          assert registry[e.index] in done;
        }
        if c in live {
          var k :| 0 <= k < |s.entries| && Spec.Live(s, k) && s.entries[k].controller == c;
          assert registry[k].index == k;
        }
      }
    }

    lemma ViewsOfEntries()
      requires Valid()
      ensures forall e :: e in registry ==> e.index < |View().entries| && e.View() == View().entries[e.index]
    {
      hide TunnelEntry.View;
    }

    lemma RunningAreTheValues()
      requires Valid()
      ensures forall k: nat :: k < |registry| ==> (Spec.Live(View(), k) <==> registry[k] in controllers.Values)
      ensures forall e :: e in controllers.Values ==> e in registry
    {
    }
  }
}

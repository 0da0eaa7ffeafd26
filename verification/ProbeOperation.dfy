/** `createProbeOperation` (apps/electerm-agent/src/app/server/ssh-tunnel.js) under `withProbeTimeout`
    (ssh-tunnel-probe.js): a resource that a probe opens is handed to the caller or disposed of. */
module ProbeOperation {
  import opened Prelude

  /** A socket or stream, by its identity. */
  type Resource = nat

  datatype Promise = Pending | Resolved(value: Option<Resource>) | Rejected

  /** The variables of the operation, then those of the timeout around its promise, then what became of
      the resources. */
  datatype State = State(
    settled: bool, completionScheduled: bool, completion: Option<Resource>, resource: Option<Resource>,
    disposedResource: Option<Resource>, promise: Promise,
    timedOut: bool, observed: bool,
    disposed: multiset<Resource>, delivered: multiset<Resource>)

  datatype Event =
    | SetResource(resource: Resource)
    | Succeed(value: Option<Resource>)
    | Fail
    | Microtask
    | Cancel
    | Timeout
    | Observe

  const INITIAL: State :=
    State(false, false, None, None, None, Pending, false, false, multiset{}, multiset{})

  function Disposed(s: State, value: Option<Resource>): State {
    if value.None? || s.disposedResource == value then s
    else s.(disposedResource := value, disposed := s.disposed + multiset{value.value})
  }

  /** Rejecting, by an error or a cancellation. */
  function Reject(s: State): State {
    if s.settled then s else Disposed(s.(settled := true, promise := Rejected), s.resource)
  }

  function OnSucceed(s: State, value: Option<Resource>): State {
    if s.settled then Disposed(s, value)
    else if s.completionScheduled then (if value != s.resource then Disposed(s, value) else s)
    else s.(completionScheduled := true, completion := value, resource := value)
  }

  function OnMicrotask(s: State): State {
    if s.settled || !s.completionScheduled then s else s.(settled := true, promise := Resolved(s.completion))
  }

  /** The callbacks on the promise: a value that comes after the timeout is disposed of. */
  function OnObserve(s: State): State {
    if s.promise.Pending? || s.observed then s
    else
      var seen := s.(observed := true);
      if s.promise.Rejected? || s.promise.value.None? then seen
      else if s.timedOut then seen.(disposed := s.disposed + multiset{s.promise.value.value})
      else seen.(delivered := s.delivered + multiset{s.promise.value.value})
  }

  function Step(s: State, event: Event): State {
    match event
    case SetResource(r) => s.(resource := Some(r))
    case Succeed(value) => OnSucceed(s, value)
    case Fail => Reject(s)
    case Microtask => OnMicrotask(s)
    case Cancel => Reject(s)
    case Timeout => if s.observed then s else s.(timedOut := true)
    case Observe => OnObserve(s)
  }

  function Run(events: seq<Event>): State {
    if events == [] then INITIAL else Step(Run(events[..|events| - 1]), events[|events| - 1])
  }

  // ---------- How the probes use it ----------

  /** The resource set before anything else happened. */
  function Early(events: seq<Event>): Option<Resource> {
    if events != [] && events[0].SetResource? then Some(events[0].resource) else None
  }

  function Given(events: seq<Event>): set<Resource> {
    (set i | 0 <= i < |events| && events[i].Succeed? && events[i].value.Some? :: events[i].value.value)
    + (if Early(events).Some? then {Early(events).value} else {})
  }

  /** At most one resource is set early, at the start; with one, success reports that one; and no
      resource is reported twice. */
  ghost predicate Disciplined(events: seq<Event>) {
    && (forall i :: 0 < i < |events| ==> !events[i].SetResource?)
    && (forall i :: 0 <= i < |events| && events[i].Succeed? && Early(events).Some? ==>
          events[i].value.None? || events[i].value == Early(events))
    && (forall i, j :: 0 <= i < j < |events| && events[i].Succeed? && events[j].Succeed? && events[i].value.Some? ==>
          events[i].value != events[j].value)
  }

  predicate Reported(events: seq<Event>, r: Resource) {
    exists i :: 0 <= i < |events| && events[i].Succeed? && events[i].value == Some(r)
  }

  function Count(s: State, r: Resource): nat { s.disposed[r] + s.delivered[r] }

  /** Whether the operation still holds the resource: it will be delivered or disposed of when it settles. */
  predicate Holds(s: State, r: Resource) {
    || (!s.settled && s.resource == Some(r))
    || (s.promise == Resolved(Some(r)) && !s.observed)
  }

  predicate Decides(event: Event) { event.Succeed? || event.Fail? || event.Cancel? }

  /** The first event that decides how the operation ends. */
  function Decision(events: seq<Event>): Option<Event> {
    if events == [] then None
    else
      var before := Decision(events[..|events| - 1]);
      if before.Some? then before else if Decides(events[|events| - 1]) then Some(events[|events| - 1]) else None
  }

  /** The early resource is forgotten: the first to decide is a success without a resource, and the
      resource is not reported later either. */
  predicate Forgotten(events: seq<Event>, r: Resource) {
    Early(events) == Some(r) && Decision(events) == Some(Succeed(None)) && !Reported(events, r)
  }

  /** A resource given to the operation is held, or accounted for once, unless it was forgotten. */
  predicate Accounted(early: Option<Resource>, reported: bool, s: State, r: Resource) {
    var forgotten := early == Some(r) && s.completionScheduled && s.completion.None? && !reported;
    var given := reported || early == Some(r);
    && Count(s, r) == (if !given || Holds(s, r) || forgotten then 0 else 1)
    && (early == Some(r) && s.disposed[r] > 0 && !reported ==> s.disposedResource == Some(r))
    && (!s.settled && !s.completionScheduled ==> !reported)
    && (s.resource == Some(r) ==> given)
    && (s.completion == Some(r) || s.delivered[r] > 0 ==> reported)
    && (s.disposedResource == Some(r) ==> s.disposed[r] > 0)
  }

  ghost predicate Shape(events: seq<Event>, s: State) {
    && (events == [] ==> s == INITIAL)
    && (!s.settled <==> s.promise.Pending?)
    && (s.observed ==> s.settled)
    && (!s.settled && s.completionScheduled ==> s.resource == s.completion)
    && (!s.completionScheduled && !s.settled ==> s.resource == Early(events) && s.completion.None?)
    && (s.promise.Resolved? ==> s.completionScheduled && s.promise.value == s.completion)
    && (s.promise.Rejected? && !s.completionScheduled ==> s.resource == Early(events))
    && (s.settled && s.completionScheduled ==> s.resource == s.completion)
    && (Early(events).Some? ==> s.disposedResource.None? || s.disposedResource == Early(events))
    && (Early(events).Some? ==> s.resource.None? || s.resource == Early(events))
  }

  ghost predicate Inv(events: seq<Event>, s: State) {
    Shape(events, s) && forall r: Resource :: Accounted(Early(events), Reported(events, r), s, r)
  }

  lemma MoreEvents(events: seq<Event>, event: Event, r: Resource)
    requires Disciplined(events + [event])
    ensures Disciplined(events)
    ensures event.SetResource? <==> events == [] && Early(events + [event]).Some?
    ensures events != [] ==> Early(events + [event]) == Early(events)
    ensures Reported(events + [event], r) <==> Reported(events, r) || (event.Succeed? && event.value == Some(r))
    ensures event.Succeed? && event.value == Some(r) ==>
        !Reported(events, r) && (Early(events).Some? ==> Early(events) == Some(r))
  {
    var more := events + [event];
    forall i | 0 <= i < |events| ensures more[i] == events[i] { }
    assert more[|events|] == event;
    if Reported(events, r) {
      var i :| 0 <= i < |events| && events[i].Succeed? && events[i].value == Some(r);
      assert more[i].Succeed?;
    }
    if event.Succeed? && event.value.Some? && events != [] {
      assert Early(more).Some? ==> event.value == Early(more);
    }
  }

  lemma GivenIsReported(events: seq<Event>, r: Resource)
    ensures r in Given(events) <==> Reported(events, r) || Early(events) == Some(r)
  {
    if Reported(events, r) {
      var i :| 0 <= i < |events| && events[i].Succeed? && events[i].value == Some(r);
      assert events[i].value.Some?;
    }
  }

  lemma StepKeepsShape(events: seq<Event>, s: State, event: Event)
    requires Disciplined(events + [event]) && Shape(events, s)
    ensures Shape(events + [event], Step(s, event))
  {
    var more := events + [event];
    MoreEvents(events, event, 0);
    if event.Succeed? && event.value.Some? {
      MoreEvents(events, event, event.value.value);
    }
  }

  lemma StepKeepsAccounted(events: seq<Event>, s: State, event: Event, r: Resource)
    requires Disciplined(events + [event]) && Shape(events, s) && Accounted(Early(events), Reported(events, r), s, r)
    ensures Accounted(Early(events + [event]), Reported(events + [event], r), Step(s, event), r)
  {
    MoreEvents(events, event, r);
    if event.Succeed? && event.value.Some? {
      MoreEvents(events, event, event.value.value);
    }
    hide Reported, Disciplined;
    if event.SetResource? {
    } else if event.Succeed? {
      assert Early(events + [event]) == Early(events) by { assert events == [] ==> Early(events + [event]).None?; }
      hide Early;
      SucceedKeepsAccounted(events, Early(events), Reported(events, r), s, event.value, r);
    } else {
      assert Early(events + [event]) == Early(events) by { assert events == [] ==> Early(events + [event]).None?; }
      hide Early;
      OtherKeepsAccounted(events, Early(events), Reported(events, r), s, event, r);
    }
  }

  lemma SucceedKeepsAccounted(events: seq<Event>, early: Option<Resource>, reported: bool, s: State,
                              value: Option<Resource>, r: Resource)
    requires early == Early(events) && Shape(events, s) && Accounted(early, reported, s, r)
    requires early.Some? ==> value.None? || value == early
    requires value == Some(r) ==> !reported
    ensures Accounted(early, reported || value == Some(r), OnSucceed(s, value), r)
  {
    hide Early;
  }

  lemma OtherKeepsAccounted(events: seq<Event>, early: Option<Resource>, reported: bool, s: State, event: Event,
                            r: Resource)
    requires early == Early(events) && Shape(events, s) && Accounted(early, reported, s, r)
    requires !event.SetResource? && !event.Succeed?
    ensures Accounted(early, reported, Step(s, event), r)
  {
    hide Early;
  }

  lemma {:induction false} RunKeeps(events: seq<Event>)
    requires Disciplined(events)
    ensures Inv(events, Run(events))
  {
    hide Accounted, Shape, Disciplined;
    if events == [] {
      NothingGiven();
    } else {
      var front, event := events[..|events| - 1], events[|events| - 1];
      assert events == front + [event];
      MoreEvents(front, event, 0);
      RunKeeps(front);
      StepKeepsShape(front, Run(front), event);
      forall r: Resource ensures Accounted(Early(events), Reported(events, r), Run(events), r) {
        StepKeepsAccounted(front, Run(front), event, r);
      }
    }
  }

  lemma NothingGiven()
    ensures Inv([], INITIAL)
  {
  }

  /** Whether the operation completes, and with what, is the first decision. */
  lemma {:induction false} DecisionIsTaken(events: seq<Event>)
    ensures var s := Run(events);
            && (s.completionScheduled <==> Decision(events).Some? && Decision(events).value.Succeed?)
            && (s.completionScheduled ==> s.completion == Decision(events).value.value)
            && (s.settled && !s.completionScheduled ==> Decision(events).Some?)
            && (Decision(events).Some? && !Decision(events).value.Succeed? ==> s.settled)
  {
    if events != [] {
      DecisionIsTaken(events[..|events| - 1]);
    }
  }

  /** Once the operation has settled and its promise was seen, every resource given to it was delivered
      to the caller or disposed of, exactly once, except exactly an early one that was forgotten. */
  lemma EveryResourceOnce(events: seq<Event>, r: Resource)
    requires Disciplined(events) && r in Given(events)
    requires Run(events).settled && Run(events).observed
    ensures Count(Run(events), r) == if Forgotten(events, r) then 0 else 1
  {
    hide Disciplined, Decision, Run, Given, Reported;
    RunKeeps(events);
    DecisionIsTaken(events);
    GivenIsReported(events, r);
    assert Accounted(Early(events), Reported(events, r), Run(events), r);
  }

  // ---------- The probes ----------

  /** A probe of the local target opens a socket at once and hands over that same socket when it has
      connected; a probe of the forwarding gets a stream later, or an error. */
  datatype Probe = LocalTarget(socket: Resource) | Forwarding

  ghost predicate SucceedsOnce(events: seq<Event>) {
    forall i, j :: 0 <= i < j < |events| && events[i].Succeed? ==> !events[j].Succeed?
  }

  /** Nothing was started, because the tunnel was closing: its manager cancels on the spot. */
  ghost predicate NotStarted(events: seq<Event>) {
    events != [] && events[0].Cancel? && forall i :: 0 <= i < |events| ==>
        !events[i].SetResource? && !events[i].Succeed?
  }

  /** The runs of a probe: `start` runs on the spot, and the callbacks it registers come at most once;
      failures, cancellations and the timeout may come at any time. */
  ghost predicate IsProbeRun(probe: Probe, events: seq<Event>) {
    || NotStarted(events)
    || (SucceedsOnce(events)
        && match probe
           case LocalTarget(socket) =>
             && events != [] && events[0] == SetResource(socket)
             && (forall i :: 0 < i < |events| ==> !events[i].SetResource?)
             && (forall i :: 0 <= i < |events| && events[i].Succeed? ==> events[i].value == Some(socket))
           case Forwarding =>
             && (forall i :: 0 <= i < |events| ==> !events[i].SetResource?)
             && (forall i :: 0 <= i < |events| && events[i].Succeed? ==> events[i].value.Some?))
  }

  lemma ProbesAreDisciplined(probe: Probe, events: seq<Event>)
    requires IsProbeRun(probe, events)
    ensures Disciplined(events)
  {
  }

  lemma {:induction false} DecisionIsAnEvent(events: seq<Event>)
    ensures Decision(events).Some? ==> Decision(events).value in events
  {
    if events != [] {
      DecisionIsAnEvent(events[..|events| - 1]);
    }
  }

  /** In every run of a probe, in any order of success, error, early close, cancellation and timeout: once it
      has ended and that was seen, its socket or stream was delivered or disposed of, exactly once. */
  lemma ProbesLoseNothing(probe: Probe, events: seq<Event>, r: Resource)
    requires IsProbeRun(probe, events) && r in Given(events) && Run(events).settled && Run(events).observed
    ensures Count(Run(events), r) == 1
  {
    ProbesAreDisciplined(probe, events);
    EveryResourceOnce(events, r);
    DecisionIsAnEvent(events);
  }

  /** What a probe is given: its socket from the start, or the stream it got. */
  lemma ProbeIsGiven(probe: Probe, events: seq<Event>, r: Resource)
    requires IsProbeRun(probe, events) && !NotStarted(events)
    ensures r in Given(events) <==> if probe.LocalTarget? then r == probe.socket else Succeed(Some(r)) in events
  {
    GivenIsReported(events, r);
  }

  // ---------- How the promise ends, and who gets its value ----------

  predicate Calm(events: seq<Event>, n: nat)
    requires n <= |events|
  {
    forall m :: 0 <= m < n ==> !events[m].Fail? && !events[m].Cancel?
  }

  /** Event `j` completes a success that decided first, before any error or cancellation. */
  predicate Completes(events: seq<Event>, j: int, value: Option<Resource>) {
    0 <= j < |events| && events[j].Microtask? && Decision(events[..j]) == Some(Succeed(value)) && Calm(events, j)
  }

  lemma PromiseStep(s: State, event: Event)
    requires s.promise.Pending? <==> !s.settled
    ensures var t := Step(s, event);
            var completes := event.Microtask? && !s.settled && s.completionScheduled;
            && (t.promise.Pending? <==> !t.settled)
            && t.promise == (if completes then Resolved(s.completion)
                             else if !s.settled && (event.Fail? || event.Cancel?) then Rejected else s.promise)
            && (!t.settled ==> t.completionScheduled == (s.completionScheduled || event.Succeed?))
            && (!t.settled && s.completionScheduled ==> t.completion == s.completion)
            && (!t.settled && !s.completionScheduled && event.Succeed? ==> t.completion == event.value)
  {
  }

  lemma OneMoreEvent(events: seq<Event>)
    requires events != []
    ensures var n := |events| - 1;
            var front := events[..n];
            && Run(events) == Step(Run(front), events[n])
            && (Calm(events, n + 1) <==> Calm(front, n) && !events[n].Fail? && !events[n].Cancel?)
            && Decision(events)
                == if Decision(front).Some? then Decision(front)
                   else if Decides(events[n]) then Some(events[n]) else None
  {
    hide Step;
  }

  /** The promise and the first decision. */
  lemma {:induction false} PromiseAndDecision(events: seq<Event>)
    ensures var s := Run(events);
            && (s.promise.Pending? <==> !s.settled)
            && (s.promise.Pending? ==> Calm(events, |events|) && (Decision(events).None? <==> !s.completionScheduled))
            && (s.promise.Pending? && s.completionScheduled ==> Decision(events) == Some(Succeed(s.completion)))
            && (s.promise.Resolved? ==> Decision(events) == Some(Succeed(s.promise.value)))
            && (s.promise.Rejected? ==> !Calm(events, |events|))
  {
    if events != [] {
      var n := |events| - 1;
      PromiseAndDecision(events[..n]);
      PromiseStep(Run(events[..n]), events[n]);
      OneMoreEvent(events);
      hide Step, Calm, Run, Decision;
    }
  }

  /** When the last event completes a success. */
  lemma LastCompletes(events: seq<Event>)
    requires events != []
    ensures var n := |events| - 1;
            && (forall v :: Completes(events, n, v) <==>
                  events[n].Microtask? && Decision(events[..n]) == Some(Succeed(v)) && Calm(events[..n], n))
            && forall j, v :: j != n ==> (Completes(events, j, v) <==> Completes(events[..n], j, v))
  {
    var n := |events| - 1;
    hide Decision;
    assert events[..n][..n] == events[..n];
    forall j | 0 <= j < n ensures events[..n][..j] == events[..j] { }
  }

  /** The promise resolves to a value exactly if the success that reported it was the first to decide and was
      completed before an error or a cancellation. */
  lemma {:induction false} ResolvedIff(events: seq<Event>, value: Option<Resource>)
    ensures Run(events).promise == Resolved(value) <==> exists j :: Completes(events, j, value)
  {
    if events != [] {
      var n := |events| - 1;
      var front := events[..n];
      ResolvedIff(front, value);
      PromiseAndDecision(front);
      OneMoreEvent(events);
      PromiseStep(Run(front), events[n]);
      LastCompletes(events);
      hide Step, Run, Calm, Decision, Completes;
      if j :| Completes(front, j, value) {
        assert Completes(events, j, value);
      }
    }
  }

  /** It is rejected exactly if there was an error or a cancellation and no success was completed before. */
  lemma RejectedIff(events: seq<Event>)
    ensures Run(events).promise.Rejected? <==>
              !Calm(events, |events|) && forall j, value :: !Completes(events, j, value)
  {
    PromiseAndDecision(events);
    forall value { ResolvedIff(events, value); }
    hide Run, Calm, Completes;
    forall j, value | Completes(events, j, value) ensures Run(events).promise == Resolved(value) { }
    if Run(events).promise.Resolved? {
      var j :| Completes(events, j, Run(events).promise.value);
    }
  }

  /** Event `k` is the first look at the promise, which has the value by then. */
  predicate Hands(events: seq<Event>, k: int, r: Resource) {
    && 0 <= k < |events| && events[k].Observe?
    && !Run(events[..k]).observed && Run(events[..k]).promise == Resolved(Some(r))
  }

  lemma NothingTimedOut()
    ensures !Run([]).timedOut
  {
  }

  lemma TimeoutStep(s: State, event: Event)
    ensures var t := Step(s, event);
            !t.observed ==> !s.observed && t.timedOut == (s.timedOut || event.Timeout?)
  {
  }

  lemma {:induction false} NotSeenYet(events: seq<Event>)
    ensures !Run(events).observed ==> (Run(events).timedOut <==> Timeout in events)
  {
    hide Step, Run, INITIAL;
    NothingTimedOut();
    if events != [] {
      OneMoreEvent(events);
      var front, last := events[..|events| - 1], events[|events| - 1];
      NotSeenYet(front);
      TimeoutStep(Run(front), last);
      assert events == front + [last];
    }
  }

  lemma DeliveredStep(s: State, event: Event, r: Resource)
    ensures Step(s, event).delivered[r] > 0 <==>
              || s.delivered[r] > 0
              || (event.Observe? && !s.observed && s.promise == Resolved(Some(r)) && !s.timedOut)
  {
  }

  /** A resource is delivered exactly if the promise had it when it was first looked at and no timeout
      came before. */
  lemma {:induction false} DeliveredIff(events: seq<Event>, r: Resource)
    ensures Run(events).delivered[r] > 0 <==> exists k :: Hands(events, k, r) && Timeout !in events[..k]
  {
    if events != [] {
      var n := |events| - 1;
      var front := events[..n];
      DeliveredIff(front, r);
      NotSeenYet(front);
      DeliveredStep(Run(front), events[n], r);
      assert Run(events) == Step(Run(front), events[n]);
      hide Step, Run;
      forall k | 0 <= k < n ensures Hands(events, k, r) <==> Hands(front, k, r) {
        assert front[..k] == events[..k];
      }
      forall k | 0 <= k <= n ensures front[..k] == events[..k] { }
      if k :| Hands(front, k, r) && Timeout !in front[..k] {
        assert Hands(events, k, r) && Timeout !in events[..k];
      }
    }
  }

  // ---------- The object ----------

  class ProbeOperation {
    var settled: bool
    var completionScheduled: bool
    var completion: Option<Resource>
    var resource: Option<Resource>
    var disposedResource: Option<Resource>
    var promise: Promise
    var timedOut: bool
    var observed: bool
    ghost var disposed: multiset<Resource>
    ghost var delivered: multiset<Resource>

    ghost function View(): State
      reads this
    {
      State(settled, completionScheduled, completion, resource, disposedResource, promise, timedOut, observed, disposed,
            delivered)
    }

    constructor ()
      ensures View() == INITIAL
    {
      settled, completionScheduled, completion, resource, disposedResource := false, false, None, None, None;
      promise, timedOut, observed, disposed, delivered := Pending, false, false, multiset{}, multiset{};
    }

    method DisposeOnce(value: Option<Resource>)
      modifies this`disposedResource, this`disposed
      ensures View() == Disposed(old(View()), value)
    {
      if value.None? || disposedResource == value { return; }
      disposedResource := value;
      disposed := disposed + multiset{value.value};
    }

    method SetResource(value: Resource)
      modifies this
      ensures View() == Step(old(View()), Event.SetResource(value))
    {
      resource := Some(value);
    }

    /** `finish`, with an error or with a value. */
    method Finish(error: bool, value: Option<Resource>)
      modifies this
      ensures View() == Step(old(View()), if error then Fail else Succeed(value))
    {
      if settled {
        if !error { DisposeOnce(value); }
        return;
      }
      if error {
        settled := true;
        promise := Rejected;
        DisposeOnce(resource);
        return;
      }
      if completionScheduled {
        if value != resource { DisposeOnce(value); }
        return;
      }
      completionScheduled := true;
      completion := value;
      resource := value;
    }

    /** The queued completion. */
    method Complete()
      requires completionScheduled
      modifies this
      ensures View() == Step(old(View()), Microtask)
    {
      if settled { return; }
      settled := true;
      promise := Resolved(completion);
    }

    method Cancel()
      modifies this
      ensures View() == Step(old(View()), Event.Cancel)
    {
      if settled { return; }
      settled := true;
      promise := Rejected;
      DisposeOnce(resource);
    }

    /** The timer of `withProbeTimeout`; it does nothing once the promise was seen. */
    method TimesOut()
      modifies this`timedOut
      ensures View() == Step(old(View()), Timeout)
    {
      if observed { return; }
      timedOut := true;
    }

    /** The callbacks of `withProbeTimeout` on the settled promise. */
    method Observed()
      requires !promise.Pending? && !observed
      modifies this
      ensures View() == Step(old(View()), Observe)
    {
      observed := true;
      if promise.Rejected? || promise.value.None? { return; }
      if timedOut {
        disposed := disposed + multiset{promise.value.value};
      } else {
        delivered := delivered + multiset{promise.value.value};
      }
    }
  }
}

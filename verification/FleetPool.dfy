/** `collect` of apps/electerm-agent/src/app/server/fleet-status-service.js: a fixed number of workers share
    one counter of targets, under a total timeout and a cancellation. */
module FleetPool {
  import opened Prelude

  /** The id a terminal is asked to have, by target, or another one that opening it answered. */
  datatype Id = Uid(index: nat) | Other(pid: string)

  datatype Status = Success | TimedOut | Cancelled | Errored

  datatype Result = Result(target: nat, status: Status)

  /** Where a worker waits: for its terminal, for its probes, for the terminal to close; or it is done. */
  datatype Phase = Opening(index: nat) | Probing(index: nat, pid: Id) | Closing(index: nat, status: Status) | Done

  /** `open` holds the terminals that were not asked to close since they opened; `late` those that opened after
      their worker had stopped waiting for them. */
  datatype State = State(
    targets: nat, aborted: bool, totalTimedOut: bool, nextIndex: nat, workers: seq<Phase>, results: seq<Option<Result>>,
    terminalIds: set<Id>, openedIds: set<Id>, late: set<Id>, askedToClose: set<Id>, open: set<Id>)

  /** Some terminals are asked to close. */
  function Ask(s: State, ids: set<Id>): State { s.(askedToClose := s.askedToClose + ids, open := s.open - ids) }

  datatype Ending = Succeeds | Fails | ConnectionTimeout | TargetTimeout | Aborts

  datatype Event =
    | Opens(worker: nat, pid: Id)
    | Ends(worker: nat, ending: Ending)
    | Closes(worker: nat)
    | OpensLate(pid: Id)
    | Abort(total: bool)

  const DEFAULT_CONCURRENCY: nat := 5
  const MAX_CONCURRENCY: nat := 5

  /** The number of workers a caller may ask for; None stands for what is no number. */
  function BoundedConcurrency(value: Option<int>): (n: nat)
    ensures n == if value.None? || value.value <= 0 || value.value > 5 then 5 else value.value
  {
    if value.None? || value.value <= 0 then DEFAULT_CONCURRENCY else Min(MAX_CONCURRENCY, value.value)
  }

  /** The head of a worker's loop: it takes the next target, unless the task is aborted. */
  function LoopHead(s: State, w: nat): State
    requires w < |s.workers|
  {
    if !s.aborted && s.nextIndex < s.targets then
      s.(workers := s.workers[w := Opening(s.nextIndex)], nextIndex := s.nextIndex + 1,
         terminalIds := s.terminalIds + {Uid(s.nextIndex)})
    else s.(workers := s.workers[w := Done])
  }

  /** The workers from `w` on start, one after another. */
  function StartFrom(s: State, w: nat): State
    requires w <= |s.workers|
    decreases |s.workers| - w
  {
    if w == |s.workers| then s else StartFrom(LoopHead(s, w), w + 1)
  }

  function Unstarted(targets: nat, concurrency: nat): State {
    State(targets, false, false, 0, seq(Min(concurrency, targets), _ => Done), seq(targets, _ => None),
          {}, {}, {}, {}, {})
  }

  function Start(targets: nat, concurrency: nat): State {
    StartFrom(Unstarted(targets, concurrency), 0)
  }

  function StatusOf(s: State, ending: Ending): Status {
    match ending
    case Succeeds => Success
    case TargetTimeout => TimedOut
    case _ =>
      if s.aborted then (if s.totalTimedOut then TimedOut else Cancelled)
      else if ending == ConnectionTimeout then TimedOut
      else if ending == Aborts then Cancelled
      else Errored
  }

  function Step(s: State, event: Event): State {
    match event
    case Opens(w, pid) =>
      if w < |s.workers| && s.workers[w].Opening? then
        s.(workers := s.workers[w := Probing(s.workers[w].index, pid)],
           terminalIds := s.terminalIds + {pid}, openedIds := s.openedIds + {pid}, open := s.open + {pid})
      else s
    case Ends(w, ending) =>
      if w >= |s.workers| then s
      else if s.workers[w].Opening? && ending != Succeeds then
        Ask(s.(workers := s.workers[w := Closing(s.workers[w].index, StatusOf(s, ending))]), {Uid(s.workers[w].index)})
      else if s.workers[w].Probing? then
        Ask(s.(workers := s.workers[w := Closing(s.workers[w].index, StatusOf(s, ending))]),
            {s.workers[w].pid, Uid(s.workers[w].index)})
      else s
    case Closes(w) =>
      if w < |s.workers| && s.workers[w].Closing? && s.workers[w].index < |s.results| then
        var i, status := s.workers[w].index, s.workers[w].status;
        LoopHead(s.(results := s.results[i := Some(Result(i, status))]), w)
      else s
    case OpensLate(pid) => s.(late := s.late + {pid}, open := s.open + {pid})
    case Abort(total) =>
      Ask(s.(aborted := true, totalTimedOut := s.totalTimedOut || total), s.terminalIds)
  }

  function Run(targets: nat, concurrency: nat, events: seq<Event>): State {
    if events == [] then Start(targets, concurrency)
    else Step(Run(targets, concurrency, events[..|events| - 1]), events[|events| - 1])
  }

  predicate AllDone(s: State) {
    forall w :: 0 <= w < |s.workers| ==> s.workers[w].Done?
  }

  /** The end of `collect`: slots of targets nobody took get a result too, and every terminal is closed. */
  function Finish(s: State): State {
    var queued := if s.totalTimedOut then TimedOut else Cancelled;
    Ask(s.(results := seq(|s.results|, i requires 0 <= i < |s.results| =>
             if s.results[i].Some? then s.results[i] else Some(Result(i, queued)))),
        s.terminalIds)
  }

  // ---------- What every run keeps ----------

  predicate Busy(p: Phase) { !p.Done? }

  predicate Working(s: State, i: nat) {
    exists w :: 0 <= w < |s.workers| && Busy(s.workers[w]) && s.workers[w].index == i
  }

  /** Each target is taken by at most one worker: those taken have a worker or a result, not both. */
  ghost predicate Claims(s: State) {
    && |s.results| == s.targets && s.nextIndex <= s.targets
    && (forall w :: 0 <= w < |s.workers| && Busy(s.workers[w]) ==>
          s.workers[w].index < s.nextIndex && s.results[s.workers[w].index].None?)
    && (forall v, w :: 0 <= v < w < |s.workers| && Busy(s.workers[v]) && Busy(s.workers[w]) ==>
          s.workers[v].index != s.workers[w].index)
    && (forall i :: 0 <= i < s.nextIndex ==> s.results[i].Some? || Working(s, i))
    && (forall i :: s.nextIndex <= i < s.targets ==> s.results[i].None?)
    && (forall i :: 0 <= i < s.targets && s.results[i].Some? ==> s.results[i].value.target == i)
  }

  /** Every terminal opened in time is recorded, and only recorded ones are closed. */
  ghost predicate Recorded(s: State) {
    && s.openedIds <= s.terminalIds && s.askedToClose <= s.terminalIds
    && s.open <= s.openedIds + s.late && s.late - s.terminalIds <= s.open
    && (forall w :: 0 <= w < |s.workers| && s.workers[w].Probing? ==> s.workers[w].pid in s.terminalIds)
    && (forall i :: 0 <= i < s.nextIndex ==> Uid(i) in s.terminalIds)
    && (s.totalTimedOut ==> s.aborted)
  }

  /** The workers below `n` stop only when no target is left or the task was aborted. */
  ghost predicate StopsLate(s: State, n: nat) {
    forall w :: 0 <= w < |s.workers| && w < n && s.workers[w].Done? ==> s.aborted || s.nextIndex == s.targets
  }

  ghost predicate Inv(s: State) { Claims(s) && Recorded(s) && StopsLate(s, |s.workers|) }

  /** A worker that is done with its last target takes the next one. */
  lemma LoopHeadKeeps(s: State, w: nat, n: nat)
    requires w < |s.workers| && s.workers[w].Done? && Claims(s) && Recorded(s)
    requires forall v :: 0 <= v < |s.workers| && v < n && v != w && s.workers[v].Done? ==>
        s.aborted || s.nextIndex == s.targets
    ensures Claims(LoopHead(s, w)) && Recorded(LoopHead(s, w)) && StopsLate(LoopHead(s, w), n)
  {
    LoopHeadClaims(s, w);
  }

  lemma LoopHeadClaims(s: State, w: nat)
    requires w < |s.workers| && s.workers[w].Done? && Claims(s)
    ensures Claims(LoopHead(s, w))
  {
    LoopHeadKeepsTaken(s, w);
    hide Working;
  }

  lemma LoopHeadKeepsTaken(s: State, w: nat)
    requires w < |s.workers| && s.workers[w].Done? && Claims(s)
    ensures var t := LoopHead(s, w); forall i :: 0 <= i < t.nextIndex ==> t.results[i].Some? || Working(t, i)
  {
    var t := LoopHead(s, w);
    forall i | 0 <= i < t.nextIndex ensures t.results[i].Some? || Working(t, i) {
      if i < s.nextIndex {
        if Working(s, i) {
          var v :| 0 <= v < |s.workers| && Busy(s.workers[v]) && s.workers[v].index == i;
          assert t.workers[v] == s.workers[v];
        }
      } else {
        assert t.workers[w].index == i;
      }
    }
  }

  lemma {:induction false} StartKeeps(s: State, w: nat)
    requires w <= |s.workers| && Claims(s) && Recorded(s) && StopsLate(s, w)
    requires forall v :: w <= v < |s.workers| ==> s.workers[v].Done?
    ensures Inv(StartFrom(s, w)) && |StartFrom(s, w).workers| == |s.workers| && StartFrom(s, w).targets == s.targets
    decreases |s.workers| - w
  {
    if w < |s.workers| {
      LoopHeadKeeps(s, w, w + 1);
      StartKeeps(LoopHead(s, w), w + 1);
    }
  }

  /** A worker moves on within its target. */
  lemma PhaseKeepsClaims(s: State, w: nat, phase: Phase)
    requires w < |s.workers| && Busy(s.workers[w]) && Busy(phase) && phase.index == s.workers[w].index && Claims(s)
    ensures Claims(s.(workers := s.workers[w := phase]))
  {
    var t := s.(workers := s.workers[w := phase]);
    forall i | 0 <= i < t.nextIndex ensures t.results[i].Some? || Working(t, i) {
      if Working(s, i) {
        var v :| 0 <= v < |s.workers| && Busy(s.workers[v]) && s.workers[v].index == i;
        assert Busy(t.workers[v]) && t.workers[v].index == i;
      }
    }
  }

  /** A worker puts its result into the slot of its own target. */
  lemma ResultKeepsClaims(s: State, w: nat)
    requires w < |s.workers| && s.workers[w].Closing? && Claims(s)
    ensures var i := s.workers[w].index;
            Claims(s.(results := s.results[i := Some(Result(i, s.workers[w].status))], workers := s.workers[w := Done]))
  {
    var k := s.workers[w].index;
    var t := s.(results := s.results[k := Some(Result(k, s.workers[w].status))], workers := s.workers[w := Done]);
    forall i | 0 <= i < t.nextIndex ensures t.results[i].Some? || Working(t, i) {
      if i != k && Working(s, i) {
        var v :| 0 <= v < |s.workers| && Busy(s.workers[v]) && s.workers[v].index == i;
        assert t.workers[v] == s.workers[v];
      }
    }
  }

  lemma OpensKeeps(s: State, w: nat, pid: Id)
    requires Inv(s) && w < |s.workers| && s.workers[w].Opening?
    ensures Inv(Step(s, Opens(w, pid)))
  {
    var t := Step(s, Opens(w, pid));
    PhaseKeepsClaims(s, w, Probing(s.workers[w].index, pid));
    assert Claims(t);
    hide Claims;
    assert forall v :: 0 <= v < |s.workers| && v != w ==> t.workers[v] == s.workers[v];
    assert StopsLate(t, |t.workers|) by { hide Recorded; }
    hide StopsLate;
  }

  lemma EndsKeeps(s: State, w: nat, ending: Ending)
    requires Inv(s) && w < |s.workers| && (s.workers[w].Opening? || s.workers[w].Probing?)
    ensures Inv(Step(s, Ends(w, ending)))
  {
    var index := s.workers[w].index;
    assert index < s.nextIndex;
    PhaseKeepsClaims(s, w, Closing(index, StatusOf(s, ending)));
    hide Claims;
    EndsRecorded(s, w, ending);
  }

  lemma EndsRecorded(s: State, w: nat, ending: Ending)
    requires w < |s.workers| && (s.workers[w].Opening? || s.workers[w].Probing?) && s.workers[w].index < s.nextIndex
    requires Recorded(s) && StopsLate(s, |s.workers|)
    ensures Recorded(Step(s, Ends(w, ending))) && StopsLate(Step(s, Ends(w, ending)), |s.workers|)
  {
    hide StatusOf;
    var t := Step(s, Ends(w, ending));
    assert forall v :: 0 <= v < |s.workers| && v != w ==> t.workers[v] == s.workers[v];
    assert t.askedToClose <= t.terminalIds;
  }

  lemma ClosesKeeps(s: State, w: nat)
    requires Inv(s) && w < |s.workers| && s.workers[w].Closing?
    ensures Inv(Step(s, Closes(w)))
  {
    var i := s.workers[w].index;
    assert i < |s.results|;
    ResultKeepsClaims(s, w);
    var t := s.(results := s.results[i := Some(Result(i, s.workers[w].status))], workers := s.workers[w := Done]);
    hide Claims;
    LoopHeadKeeps(t, w, |s.workers|);
    assert LoopHead(s.(results := t.results), w) == LoopHead(t, w);
  }

  lemma StepKeeps(s: State, event: Event)
    requires Inv(s)
    ensures Inv(Step(s, event)) && |Step(s, event).workers| == |s.workers| && Step(s, event).targets == s.targets
  {
    hide Inv;
    match event {
      case Opens(w, pid) =>
        if w < |s.workers| && s.workers[w].Opening? { OpensKeeps(s, w, pid); }
      case Ends(w, ending) =>
        if w < |s.workers| && (s.workers[w].Opening? || s.workers[w].Probing?) { EndsKeeps(s, w, ending); }
      case Closes(w) =>
        if w < |s.workers| && s.workers[w].Closing? { ClosesKeeps(s, w); }
      case OpensLate(pid) => OtherKeeps(s, event);
      case Abort(total) => OtherKeeps(s, event);
    }
  }

  lemma OtherKeeps(s: State, event: Event)
    requires Inv(s) && (event.OpensLate? || event.Abort?)
    ensures Inv(Step(s, event))
  {
  }

  lemma {:induction false} RunKeeps(targets: nat, concurrency: nat, events: seq<Event>)
    ensures Inv(Run(targets, concurrency, events))
    ensures |Run(targets, concurrency, events).workers| == Min(concurrency, targets)
    ensures Run(targets, concurrency, events).targets == targets
  {
    if events == [] {
      StartKeeps(Unstarted(targets, concurrency), 0);
    } else {
      RunKeeps(targets, concurrency, events[..|events| - 1]);
      StepKeeps(Run(targets, concurrency, events[..|events| - 1]), events[|events| - 1]);
    }
  }

  // ---------- What the caller gets ----------

  /** In every run no two workers hold the same target, none holds one that has a result, and no more
      than `concurrency` are at work. */
  lemma OneWorkerATarget(targets: nat, concurrency: nat, events: seq<Event>, v: nat, w: nat)
    requires var s := Run(targets, concurrency, events); v < w < |s.workers| && Busy(s.workers[v]) && Busy(s.workers[w])
    ensures var s := Run(targets, concurrency, events);
            && |s.workers| <= concurrency
            && s.workers[v].index != s.workers[w].index
            && s.workers[v].index < |s.results| && s.results[s.workers[v].index].None?
  {
    RunKeeps(targets, concurrency, events);
  }

  /** When the workers are done, every target has exactly one result, its own; a slot is filled in at the
      end only if nobody took its target, and that only after an abort. Every terminal that was opened in
      time has been asked to close, and of all that ever opened only those stay open that opened late under
      an id the task has not recorded. */
  lemma EveryTargetHasItsResult(targets: nat, concurrency: nat, events: seq<Event>, i: nat)
    requires AllDone(Run(targets, concurrency, events)) && i < targets && concurrency > 0
    ensures var s := Run(targets, concurrency, events);
            var f := Finish(s);
            && |f.results| == targets && f.results[i].Some? && f.results[i].value.target == i
            && (s.results[i].Some? ==> f.results[i] == s.results[i])
            && (s.results[i].None? <==> i >= s.nextIndex)
            && (s.results[i].None? ==> s.aborted)
            && s.openedIds <= f.askedToClose
            && forall pid :: pid in f.open <==> pid in s.late && pid !in s.terminalIds
  {
    RunKeeps(targets, concurrency, events);
    var s := Run(targets, concurrency, events);
    assert !Working(s, i);
    assert |s.workers| > 0 && s.workers[0].Done?;
    assert s.results[i].None? ==> s.nextIndex <= i;
    hide Claims;
  }

  lemma StepGrows(s: State, event: Event)
    requires Inv(s)
    ensures s.late <= Step(s, event).late && s.nextIndex <= Step(s, event).nextIndex
  {
  }

  lemma {:induction false} RunGrows(targets: nat, concurrency: nat, before: seq<Event>, after: seq<Event>)
    ensures var s, t := Run(targets, concurrency, before), Run(targets, concurrency, before + after);
            s.late <= t.late && s.nextIndex <= t.nextIndex
    decreases |after|
  {
    hide Inv, Step;
    if after == [] {
      assert before + after == before;
    } else {
      var front, events := after[..|after| - 1], before + after;
      assert events[..|events| - 1] == before + front;
      RunGrows(targets, concurrency, before, front);
      RunKeeps(targets, concurrency, before + front);
      StepGrows(Run(targets, concurrency, before + front), after[|after| - 1]);
    }
  }

  /** A terminal that opens late under the id it was asked to have is asked to close after it has opened. */
  lemma LateUidIsClosed(targets: nat, concurrency: nat, before: seq<Event>, after: seq<Event>, i: nat)
    requires i < Run(targets, concurrency, before).nextIndex
    ensures var s := Run(targets, concurrency, before + [OpensLate(Uid(i))] + after);
            Uid(i) in s.late && Uid(i) !in Finish(s).open && Uid(i) in Finish(s).askedToClose
  {
    hide Inv, Step, Finish;
    var opens, s := [OpensLate(Uid(i))], Run(targets, concurrency, before);
    var events := before + opens;
    assert events[..|events| - 1] == before && events[|events| - 1] == OpensLate(Uid(i));
    LateIsRecorded(s, Uid(i));
    RunGrows(targets, concurrency, before, opens);
    RunGrows(targets, concurrency, events, after);
    RunKeeps(targets, concurrency, events + after);
    RecordedIsAsked(Run(targets, concurrency, events + after), i);
  }

  lemma LateIsRecorded(s: State, pid: Id)
    ensures pid in Step(s, OpensLate(pid)).late
  {
  }

  lemma RecordedIsAsked(s: State, i: nat)
    requires Inv(s) && i < s.nextIndex
    ensures Uid(i) !in Finish(s).open && Uid(i) in Finish(s).askedToClose
  {
    hide Claims;
  }

  /** A terminal that opens late under another id stays open: the target times out first. */
  lemma LateOtherIdStaysOpen(pid: string)
    ensures var s := Run(1, 1, [Ends(0, TargetTimeout), OpensLate(Other(pid)), Closes(0)]);
            AllDone(s) && Finish(s).open == {Other(pid)}
  {
    var ends, late, closes := Ends(0, TargetTimeout), OpensLate(Other(pid)), Closes(0);
    assert [ends, late, closes][..2] == [ends, late] && [ends, late][..1] == [ends] && [ends][..0] == [];
    var s0 := Run(1, 1, []);
    assert s0.workers == [Opening(0)] && s0.terminalIds == {Uid(0)} && s0.open == {} && s0.nextIndex == 1
           && s0.targets == 1 && !s0.aborted && |s0.results| == 1;
    var s1 := Step(s0, ends);
    assert Run(1, 1, [ends]) == s1 && s1.workers == [Closing(0, TimedOut)];
    var s2 := Step(s1, late);
    assert Run(1, 1, [ends, late]) == s2;
    assert Run(1, 1, [ends, late, closes]) == Step(s2, closes);
    assert Step(s2, closes).workers == [Done];
  }

  /** A result, once there, never changes. */
  lemma ResultsStay(s: State, event: Event, i: nat)
    requires Inv(s) && i < |s.results| && s.results[i].Some?
    ensures Step(s, event).results[i] == s.results[i]
  {
  }

  // ---------- What each event does ----------

  /** The worker waits for its terminal or its probes, and the event ends that. */
  predicate Ended(s: State, event: Event, w: nat) {
    && w < |s.workers| && event.Ends? && event.worker == w
    && (s.workers[w].Probing? || (s.workers[w].Opening? && event.ending != Succeeds))
  }

  predicate Opened(s: State, event: Event, w: nat) {
    w < |s.workers| && event.Opens? && event.worker == w && s.workers[w].Opening?
  }

  predicate Closed(s: State, event: Event, w: nat) {
    w < |s.workers| && event == Closes(w) && s.workers[w].Closing?
  }

  /** How a target ends, given whether its task was cancelled or ran out of time before. */
  function EndedAs(cancelled: bool, outOfTime: bool, ending: Ending): Status {
    if ending == Succeeds then Success
    else if outOfTime || ending == TargetTimeout || (ending == ConnectionTimeout && !cancelled) then TimedOut
    else if cancelled || ending == Aborts then Cancelled
    else Errored
  }

  predicate TakesNext(s: State, event: Event, w: nat) {
    Closed(s, event, w) && !s.aborted && s.nextIndex < s.targets
  }

  function WorkerAfter(s: State, event: Event, w: nat): Phase
    requires w < |s.workers|
  {
    var phase := s.workers[w];
    if Opened(s, event, w) then Probing(phase.index, event.pid)
    else if Ended(s, event, w) then Closing(phase.index, EndedAs(s.aborted, s.totalTimedOut, event.ending))
    else if TakesNext(s, event, w) then Opening(s.nextIndex)
    else if Closed(s, event, w) then Done
    else phase
  }

  /** The terminal is asked to close: by its target, or because the task ends. */
  predicate Asks(s: State, event: Event, pid: Id) {
    || (event.Abort? && pid in s.terminalIds)
    || (event.Ends? && Ended(s, event, event.worker)
        && (pid == Uid(s.workers[event.worker].index)
            || (s.workers[event.worker].Probing? && pid == s.workers[event.worker].pid)))
  }

  predicate OpensPid(s: State, event: Event, pid: Id) {
    event == OpensLate(pid) || (event.Opens? && event.pid == pid && Opened(s, event, event.worker))
  }

  /** Worker and terminals, each by itself: a worker moves only by its own events; a terminal is open from its
      opening until it is asked to close. */
  lemma WorkerEffect(s: State, event: Event, w: nat)
    requires Inv(s) && w < |s.workers|
    ensures w < |Step(s, event).workers| && Step(s, event).workers[w] == WorkerAfter(s, event, w)
  {
    assert s.totalTimedOut ==> s.aborted;
    assert s.workers[w].Closing? ==> s.workers[w].index < |s.results|;
    if event.Ends? { StatusIsEndedAs(s, event.ending); }
    hide Inv, StatusOf, EndedAs;
  }

  lemma StatusIsEndedAs(s: State, ending: Ending)
    requires s.totalTimedOut ==> s.aborted
    ensures StatusOf(s, ending) == EndedAs(s.aborted, s.totalTimedOut, ending)
  {
  }

  lemma TerminalEffect(s: State, event: Event, pid: Id)
    requires Inv(s)
    ensures var t := Step(s, event);
            && (pid in t.open <==> OpensPid(s, event, pid) || (pid in s.open && !Asks(s, event, pid)))
            && (pid in t.askedToClose <==> pid in s.askedToClose || Asks(s, event, pid))
            && (pid in t.late <==> pid in s.late || event == OpensLate(pid))
            && (pid in t.openedIds <==> pid in s.openedIds || (OpensPid(s, event, pid) && event.Opens?))
            && (pid in t.terminalIds <==>
                  || pid in s.terminalIds || (OpensPid(s, event, pid) && event.Opens?)
                  || (pid == Uid(s.nextIndex) && event.Closes? && TakesNext(s, event, event.worker)))
  {
    hide Recorded, StopsLate, StatusOf;
  }

  lemma CountersEffect(s: State, event: Event)
    requires Inv(s)
    ensures var t := Step(s, event);
            && t.aborted == (s.aborted || event.Abort?)
            && t.totalTimedOut == (s.totalTimedOut || event == Abort(true))
            && t.nextIndex == s.nextIndex + (if event.Closes? && TakesNext(s, event, event.worker) then 1 else 0)
            && |t.results| == |s.results|
            && forall i :: 0 <= i < |s.results| ==>
                 t.results[i] == if event.Closes? && Closed(s, event, event.worker)
                                     && s.workers[event.worker].index == i
                                 then Some(Result(i, s.workers[event.worker].status)) else s.results[i]
  {
    hide Recorded, StopsLate, StatusOf;
  }

  /** Of `n` workers the first `k` have begun, each with its own target. */
  function Begun(targets: nat, n: nat, k: nat): State {
    State(targets, false, false, k, seq(n, w requires 0 <= w < n => if w < k then Opening(w) else Done),
          seq(targets, _ => None), set i: nat | i < k :: Uid(i), {}, {}, {}, {})
  }

  /** The workers begin with the first targets, one each. */
  lemma {:induction false} StartEffect(targets: nat, concurrency: nat, k: nat)
    requires k <= Min(concurrency, targets)
    ensures var n := Min(concurrency, targets);
            StartFrom(Begun(targets, n, k), k) == Begun(targets, n, n)
            && (k == 0 ==> Start(targets, concurrency) == Begun(targets, n, n))
    decreases Min(concurrency, targets) - k
  {
    var n := Min(concurrency, targets);
    if k < n {
      StartEffect(targets, concurrency, k + 1);
      assert LoopHead(Begun(targets, n, k), k) == Begun(targets, n, k + 1);
    }
    assert k == 0 ==> Begun(targets, n, k) == Unstarted(targets, concurrency);
  }

  // ---------- Where a status comes from ----------

  lemma {:induction false} AbortedIff(targets: nat, concurrency: nat, events: seq<Event>)
    ensures var s := Run(targets, concurrency, events);
            && (s.aborted <==> Abort(true) in events || Abort(false) in events)
            && (s.totalTimedOut <==> Abort(true) in events)
  {
    if events == [] {
      StartEffect(targets, concurrency, 0);
    } else {
      var front, last := events[..|events| - 1], events[|events| - 1];
      AbortedIff(targets, concurrency, front);
      RunKeeps(targets, concurrency, front);
      CountersEffect(Run(targets, concurrency, front), last);
      assert events == front + [last];
      assert last.Abort? ==> last == Abort(true) || last == Abort(false);
      hide Step, Inv;
    }
  }

  /** The target ended with event `k`, which decided its status. */
  predicate EndsWith(targets: nat, concurrency: nat, events: seq<Event>, i: nat, status: Status, k: nat) {
    && k < |events| && events[k].Ends?
    && var s := Run(targets, concurrency, events[..k]);
       var w := events[k].worker;
       && Ended(s, events[k], w) && s.workers[w].index == i
       && status == EndedAs(Abort(true) in events[..k] || Abort(false) in events[..k], Abort(true) in events[..k],
                            events[k].ending)
  }

  lemma EndsWithMore(targets: nat, concurrency: nat, events: seq<Event>, event: Event, i: nat, status: Status, k: nat)
    requires EndsWith(targets, concurrency, events, i, status, k)
    ensures EndsWith(targets, concurrency, events + [event], i, status, k)
  {
    assert (events + [event])[..k] == events[..k];
  }

  ghost predicate Earned(targets: nat, concurrency: nat, events: seq<Event>, i: nat, status: Status) {
    exists k :: EndsWith(targets, concurrency, events, i, status, k)
  }

  lemma WorkerEarns(targets: nat, concurrency: nat, front: seq<Event>, last: Event, w: nat)
    requires var t := Run(targets, concurrency, front + [last]); w < |t.workers| && t.workers[w].Closing?
    ensures var s, t := Run(targets, concurrency, front), Run(targets, concurrency, front + [last]);
            || (w < |s.workers| && s.workers[w] == t.workers[w])
            || Earned(targets, concurrency, front + [last], t.workers[w].index, t.workers[w].status)
  {
    var events, s := front + [last], Run(targets, concurrency, front);
    assert events[..|front|] == front && events[|front|] == last;
    RunKeeps(targets, concurrency, front);
    StepKeeps(s, last);
    AbortedIff(targets, concurrency, front);
    WorkerEffect(s, last, w);
    var t := Run(targets, concurrency, events);
    assert t == Step(s, last);
    hide Step, Inv, Run;
    if Ended(s, last, w) {
      assert EndsWith(targets, concurrency, events, t.workers[w].index, t.workers[w].status, |front|);
    }
  }

  /** In every run the status of a target is the one its ending earned at the time it ended. */
  lemma {:induction false} StatusIsEarned(targets: nat, concurrency: nat, events: seq<Event>)
    ensures var s := Run(targets, concurrency, events);
            && (forall i :: 0 <= i < |s.results| && s.results[i].Some? ==>
                  Earned(targets, concurrency, events, i, s.results[i].value.status))
            && (forall w :: 0 <= w < |s.workers| && s.workers[w].Closing? ==>
                  Earned(targets, concurrency, events, s.workers[w].index, s.workers[w].status))
  {
    if events == [] {
      StartEffect(targets, concurrency, 0);
    } else {
      var front, last := events[..|events| - 1], events[|events| - 1];
      var s, t := Run(targets, concurrency, front), Run(targets, concurrency, events);
      StatusIsEarned(targets, concurrency, front);
      AbortedIff(targets, concurrency, front);
      RunKeeps(targets, concurrency, front);
      StepKeeps(s, last);
      assert events == front + [last];
      forall i, status | Earned(targets, concurrency, front, i, status)
        ensures Earned(targets, concurrency, events, i, status)
      {
        var k :| EndsWith(targets, concurrency, front, i, status, k);
        EndsWithMore(targets, concurrency, front, last, i, status, k);
      }
      CountersEffect(s, last);
      hide Step, Inv, Earned, EndsWith;
      forall w: nat | w < |t.workers| && t.workers[w].Closing?
        ensures Earned(targets, concurrency, events, t.workers[w].index, t.workers[w].status)
      {
        WorkerEarns(targets, concurrency, front, last, w);
      }
    }
  }

  /** A target that nobody took is reported as the task ended: out of time, or cancelled. */
  lemma FilledStatus(targets: nat, concurrency: nat, events: seq<Event>, i: nat)
    requires i < targets
    ensures var s := Run(targets, concurrency, events);
            && i < |s.results| == |Finish(s).results|
            && (s.results[i].None? ==>
                  Finish(s).results[i] == Some(Result(i, if Abort(true) in events then TimedOut else Cancelled)))
  {
    RunKeeps(targets, concurrency, events);
    AbortedIff(targets, concurrency, events);
    hide Run;
  }

  // ---------- The object ----------

  class FleetTask {
    const targets: nat
    var aborted: bool
    var totalTimedOut: bool
    var nextIndex: nat
    var results: seq<Option<Result>>
    var terminalIds: set<Id>
    /** Where each worker waits. */
    var workers: seq<Phase>
    ghost var openedIds: set<Id>
    ghost var late: set<Id>
    ghost var askedToClose: set<Id>
    ghost var open: set<Id>

    ghost function View(): State
      reads this
    {
      State(targets, aborted, totalTimedOut, nextIndex, workers, results, terminalIds, openedIds, late, askedToClose,
            open)
    }

    /** The workers start one after another, each running up to its first await. */
    constructor (targets: nat, concurrency: nat)
      ensures View() == Start(targets, concurrency)
    {
      this.targets := targets;
      aborted, totalTimedOut, nextIndex := false, false, 0;
      results, workers := seq(targets, _ => None), seq(Min(concurrency, targets), _ => Done);
      terminalIds, openedIds, late, askedToClose, open := {}, {}, {}, {}, {};
      new;
      ghost var s := View();
      var w := 0;
      while w < |workers|
        invariant w <= |workers| && StartFrom(View(), w) == StartFrom(s, 0)
      {
        TakeNext(w);
        w := w + 1;
      }
    }

    method TakeNext(w: nat)
      requires w < |workers|
      modifies this
      ensures View() == LoopHead(old(View()), w)
    {
      if !aborted && nextIndex < targets {
        var index := nextIndex;
        nextIndex := nextIndex + 1;
        terminalIds := terminalIds + {Uid(index)};
        workers := workers[w := Opening(index)];
      } else {
        workers := workers[w := Done];
      }
    }

    method TerminalOpens(w: nat, pid: Id)
      requires w < |workers| && workers[w].Opening?
      modifies this
      ensures View() == Step(old(View()), Opens(w, pid))
    {
      terminalIds := terminalIds + {pid};
      openedIds, open := openedIds + {pid}, open + {pid};
      workers := workers[w := Probing(workers[w].index, pid)];
    }

    method CloseTerminals(ids: set<Id>)
      modifies this`askedToClose, this`open
      ensures View() == Ask(old(View()), ids)
    {
      askedToClose, open := askedToClose + ids, open - ids;
    }

    /** The `catch` and `finally` of `collectTarget`, up to the closing of the terminal. */
    method TargetEnds(w: nat, ending: Ending)
      requires w < |workers| && (workers[w].Probing? || (workers[w].Opening? && !ending.Succeeds?))
      modifies this
      ensures View() == Step(old(View()), Ends(w, ending))
    {
      var status := Success;
      if ending.TargetTimeout? {
        status := TimedOut;
      } else if !ending.Succeeds? {
        if aborted {
          status := if totalTimedOut then TimedOut else Cancelled;
        } else {
          status := if ending.ConnectionTimeout? then TimedOut else if ending.Aborts? then Cancelled else Errored;
        }
      }
      var index := workers[w].index;
      CloseTerminals(if workers[w].Probing? then {workers[w].pid, Uid(index)} else {Uid(index)});
      workers := workers[w := Closing(index, status)];
    }

    method TerminalCloses(w: nat)
      requires w < |workers| && workers[w].Closing? && Inv(View())
      modifies this
      ensures View() == Step(old(View()), Closes(w))
    {
      var index := workers[w].index;
      results := results[index := Some(Result(index, workers[w].status))];
      TakeNext(w);
    }

    /** `cancel` or the total timeout. */
    method AbortTask(total: bool)
      modifies this
      ensures View() == Step(old(View()), Abort(total))
    {
      if total { totalTimedOut := true; }
      aborted := true;
      CloseTerminals(terminalIds);
    }

    /** What `collect` does when its workers are done. */
    method Conclude()
      requires Inv(View()) && AllDone(View())
      modifies this
      ensures View() == Finish(old(View()))
      ensures forall i :: 0 <= i < targets ==> results[i].Some? && results[i].value.target == i
    {
      ghost var s := View();
      var queued := if totalTimedOut then TimedOut else Cancelled;
      var index := 0;
      while index < |results|
        invariant 0 <= index <= |results| == |s.results|
        invariant View() == s.(results := results)
        invariant forall i :: 0 <= i < index ==> results[i] == Finish(s).results[i]
        invariant forall i :: index <= i < |results| ==> results[i] == s.results[i]
      {
        if results[index].None? { results := results[index := Some(Result(index, queued))]; }
        index := index + 1;
      }
      assert results == Finish(s).results;
      CloseTerminals(terminalIds);
    }
  }
}

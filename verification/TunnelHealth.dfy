/** Failure classes, reconnect delays, the bounded event list and probe verdicts of a tunnel:
    `server/ssh-tunnel-health.js` and the verdict rules of `server/ssh-tunnel-probe.js`. */
module TunnelHealth {
  import opened Prelude

  datatype TunnelState = Healthy | Reconnecting | PortConflict | SessionLost | Failed

  const PORT_CONFLICT_CODES := {"EADDRINUSE", "SSH_TUNNEL_PORT_IN_USE"}
  const SESSION_LOST_CODES := {
    "ECONNABORTED", "ECONNREFUSED", "ECONNRESET", "ENETDOWN", "ENETUNREACH", "EPIPE", "ETIMEDOUT",
    "SSH_CONNECTION_CLOSED", "SSH_SESSION_LOST"
  }
  const RECONNECT_DELAYS_MS: seq<nat> := [1000, 3000, 10000]
  const MAX_EVENTS: nat := 50

  /** The class of a failure code that is already in upper case. */
  function ClassifyTunnelFailure(code: string): (state: TunnelState)
    ensures state in {PortConflict, SessionLost, Failed}
  {
    if code in PORT_CONFLICT_CODES then PortConflict
    else if code in SESSION_LOST_CODES then SessionLost
    else Failed
  }

  function GetReconnectDelayMs(attempt: nat): (delay: Option<nat>)
    ensures delay.Some? <==> attempt < 3
  {
    if attempt < |RECONNECT_DELAYS_MS| then Some(RECONNECT_DELAYS_MS[attempt]) else None
  }

  datatype TunnelEvent = TunnelEvent(state: TunnelState, code: string)

  /** The newest events, at most fifty, oldest first. */
  function AppendTunnelEvent(events: seq<TunnelEvent>, event: TunnelEvent): (next: seq<TunnelEvent>)
    ensures next != [] && next[|next| - 1] == event
    ensures |next| <= MAX_EVENTS
    ensures |events| < MAX_EVENTS ==> next == events + [event]
  {
    var all := events + [event];
    if |all| > MAX_EVENTS then all[|all| - MAX_EVENTS..] else all
  }

  /** The two lists of codes do not overlap, so each class has exactly its codes. */
  lemma FailureClassIff(code: string)
    ensures ClassifyTunnelFailure(code) == PortConflict <==> code in PORT_CONFLICT_CODES
    ensures ClassifyTunnelFailure(code) == SessionLost <==> code in SESSION_LOST_CODES
    ensures ClassifyTunnelFailure(code) == Failed <==> code !in PORT_CONFLICT_CODES + SESSION_LOST_CODES
  {
    assert PORT_CONFLICT_CODES !! SESSION_LOST_CODES;
  }

  /** Three delays, each longer than the one before. */
  lemma DelaysGrow(attempt: nat)
    ensures GetReconnectDelayMs(attempt).Some? <==> attempt < 3
    ensures attempt < 2 ==> 0 < GetReconnectDelayMs(attempt).value < GetReconnectDelayMs(attempt + 1).value <= 10000
  {
  }

  /** Before the new event stand the newest of the others, in their order; only a full list loses one. */
  lemma AppendKeepsNewest(events: seq<TunnelEvent>, event: TunnelEvent)
    requires |events| <= MAX_EVENTS
    ensures var next := AppendTunnelEvent(events, event);
            && |next| == (if |events| < MAX_EVENTS then |events| + 1 else MAX_EVENTS)
            && next[|next| - 1] == event
            && next[..|next| - 1] == events[|events| - (|next| - 1)..]
  {
  }

  // ---------- Probe verdicts ----------

  datatype Status = Passed | Unverified | Limited | StageFailed {
    function Rank(): nat {
      match this
      case Passed => 0
      case Unverified => 1
      case Limited => 2
      case StageFailed => 3
    }
  }

  /** The statuses of the stages of a probe; its verdict is derived from them. */
  datatype ProbeResult = ProbeResult(stages: seq<Status>) {
    function Verdict(): Status {
      if stages == [] then Unverified else WorstFrom(stages, Passed)
    }

    predicate Ok() {
      Verdict() == Passed
    }
  }

  function WorstFrom(stages: seq<Status>, current: Status): Status {
    if stages == [] then current
    else WorstFrom(stages[1..], if stages[0].Rank() > current.Rank() then stages[0] else current)
  }

  /** The verdict is the status of a worst stage, and a result without stages is never a success. */
  lemma {:induction false} VerdictIsWorstStage(stages: seq<Status>)
    ensures stages != [] ==> ProbeResult(stages).Verdict() in stages
    ensures forall s :: s in stages ==> s.Rank() <= ProbeResult(stages).Verdict().Rank()
    ensures ProbeResult(stages).Ok() <==> stages != [] && forall s :: s in stages ==> s == Passed
  {
    WorstFromBounds(stages, Passed);
  }

  lemma {:induction false} WorstFromBounds(stages: seq<Status>, current: Status)
    ensures WorstFrom(stages, current) == current || WorstFrom(stages, current) in stages
    ensures current.Rank() <= WorstFrom(stages, current).Rank()
    ensures forall s :: s in stages ==> s.Rank() <= WorstFrom(stages, current).Rank()
    ensures stages != [] && current == Passed ==> WorstFrom(stages, current) in stages
  {
    if stages != [] {
      var next := if stages[0].Rank() > current.Rank() then stages[0] else current;
      WorstFromBounds(stages[1..], next);
      assert stages == [stages[0]] + stages[1..];
    }
  }

  datatype TunnelKind = ForwardLocalToRemote | OtherKind

  /** The stages reported for an error: how far the probe had come when it failed. */
  function ProbeStagesForError(kind: TunnelKind, code: string): (result: ProbeResult)
    ensures result.stages != [] && !result.Ok()
  {
    var prohibited := code == "SSH_TUNNEL_FORWARDING_PROHIBITED";
    var destinationRefused := code == "SSH_TUNNEL_DESTINATION_REFUSED" || code == "ECONNREFUSED";
    var stages :=
      if kind == ForwardLocalToRemote then
        [Passed,
         if prohibited then Limited else if destinationRefused then Passed else StageFailed,
         if prohibited || !destinationRefused then Unverified else StageFailed]
      else [if prohibited then Limited else StageFailed];
    VerdictIsWorstStage(stages);
    assert stages[|stages| - 1] in stages && stages[|stages| - 1] != Passed;
    ProbeResult(stages)
  }

  /** How far a forward got: a prohibition limits it and leaves the target untried, a refusing target is the
      only thing that fails behind a working forward, and anything else fails before it. */
  lemma StagesForErrorIff(kind: TunnelKind, code: string)
    ensures var result := ProbeStagesForError(kind, code);
            var refused := code in {"SSH_TUNNEL_DESTINATION_REFUSED", "ECONNREFUSED"};
            && (result.Verdict() == Limited <==> code == "SSH_TUNNEL_FORWARDING_PROHIBITED")
            && (result.Verdict() == StageFailed <==> code != "SSH_TUNNEL_FORWARDING_PROHIBITED")
            && (kind == OtherKind ==> result.stages == [result.Verdict()])
            && (kind == ForwardLocalToRemote ==>
                  && |result.stages| == 3 && result.stages[0] == Passed
                  && (result.stages[1] == Passed <==> refused) && (result.stages[2] == StageFailed <==> refused)
                  && result.stages[if refused then 2 else 1] == result.Verdict()
                  && (!refused ==> result.stages[2] == Unverified))
  {
    var stages := ProbeStagesForError(kind, code).stages;
    VerdictOrder(stages);
    hide WorstFrom;
    if kind == OtherKind {
      assert stages[0] in stages && forall s :: s in stages ==> s == stages[0];
    } else {
      assert stages[1] in stages && stages[2] in stages;
      assert forall s :: s in stages ==> s == Passed || s == stages[1] || s == stages[2];
    }
  }

  /** The order of the verdicts: a failure outweighs a limit, a limit an untried stage, that a passed one. */
  lemma VerdictOrder(stages: seq<Status>)
    ensures ProbeResult(stages).Verdict()
        == if StageFailed in stages then StageFailed
           else if Limited in stages then Limited
           else if Unverified in stages || stages == [] then Unverified
           else Passed
  {
    VerdictIsWorstStage(stages);
  }
}

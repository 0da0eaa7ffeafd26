/** `withLock` of apps/electerm-agent/src/app/lib/agent-skill-repository.js: one promise chain a key. A call
    waits for the promise the map holds for its key and leaves its own there. */
module KeyedLocks {
  import opened Prelude

  datatype Status = Waiting | Running | Settled

  /** One call of `withLock`: the promise it waits for is that of an earlier call. */
  datatype Call = Call(key: string, previous: Option<nat>, status: Status)

  /** A call that started did so after all the earlier ones of its key had settled; one that waits for
      nobody has none to wait for, and the others wait for the call just before. */
  ghost predicate Ordered(calls: seq<Call>) {
    EarlierSettled(calls) && PreviousIsNext(calls)
  }

  predicate Free(call: Call) {
    call.status != Waiting || call.previous.None?
  }

  ghost predicate EarlierSettled(calls: seq<Call>) {
    forall u, t :: 0 <= u < t < |calls| && calls[u].key == calls[t].key && Free(calls[t]) ==> calls[u].status == Settled
  }

  ghost predicate PreviousIsNext(calls: seq<Call>) {
    && (forall t :: 0 <= t < |calls| && calls[t].previous.Some? ==>
          calls[t].previous.value < t && calls[calls[t].previous.value].key == calls[t].key)
    && (forall u, t :: 0 <= u < t < |calls| && calls[u].key == calls[t].key && calls[t].previous.Some? ==>
          u <= calls[t].previous.value)
  }

  /** The map holds the last call of exactly the keys in use. */
  ghost predicate HoldsLast(locks: map<string, nat>, calls: seq<Call>) {
    && (forall key :: key in locks ==>
        locks[key] < |calls| && calls[locks[key]].key == key && calls[locks[key]].status != Settled)
    && (forall t :: 0 <= t < |calls| && calls[t].key in locks ==> t <= locks[calls[t].key])
    && (forall t :: 0 <= t < |calls| && calls[t].key !in locks ==> calls[t].status == Settled)
  }

  predicate MayStart(calls: seq<Call>, t: nat)
    requires t < |calls|
  {
    calls[t].status == Waiting &&
    (calls[t].previous.Some? ==> calls[t].previous.value < |calls| && calls[calls[t].previous.value].status == Settled)
  }

  class KeyedLocks {
    /** The last promise of each key that is still in use. */
    var locks: map<string, nat>
    /** Every call, in order. */
    var calls: seq<Call>

    ghost predicate Valid()
      reads this
    {
      Ordered(calls) && HoldsLast(locks, calls)
    }

    constructor ()
      ensures Valid() && calls == [] && locks == map[]
    {
      locks, calls := map[], [];
    }

    method WithLock(key: string) returns (t: nat)
      requires Valid()
      modifies this
      ensures Valid() && t == |old(calls)|
      ensures calls == old(calls) + [Call(key, if key in old(locks) then Some(old(locks)[key]) else None, Waiting)]
    {
      hide EarlierSettled, PreviousIsNext, HoldsLast;
      NewCallKeeps(locks, calls, key);
      t := |calls|;
      var previous := if key in locks then Some(locks[key]) else None;
      calls := calls + [Call(key, previous, Waiting)];
      locks := locks[key := t];
    }

    /** The promise the call waits for has settled: its operation begins. */
    method Start(t: nat)
      requires Valid() && t < |calls| && MayStart(calls, t)
      modifies this`calls
      ensures Valid() && calls == old(calls)[t := old(calls)[t].(status := Running)]
    {
      hide EarlierSettled, PreviousIsNext, HoldsLast;
      StartsInOrder(calls, t);
      StatusKeeps(locks, calls, t, Running);
      calls := calls[t := calls[t].(status := Running)];
    }

    /** The operation ended, well or not; the entry of the map goes if nobody came after. */
    method Finish(t: nat)
      requires Valid() && t < |calls| && calls[t].status == Running
      modifies this
      ensures Valid() && calls == old(calls)[t := old(calls)[t].(status := Settled)]
      ensures calls[t].key in locks <==> exists u :: t < u < |calls| && calls[u].key == calls[t].key
    {
      hide EarlierSettled, PreviousIsNext;
      OneRunsAtATimeUpTo(calls, t);
      StatusKeeps(locks, calls, t, Settled);
      hide HoldsLast;
      FinishKeeps(locks, calls, t);
      var key := calls[t].key;
      calls := calls[t := calls[t].(status := Settled)];
      if key in locks && locks[key] == t { locks := locks - {key}; }
    }
  }

  /** When a call may start, every earlier call of its key has settled. */
  lemma StartsInOrder(calls: seq<Call>, t: nat)
    requires Ordered(calls) && t < |calls| && MayStart(calls, t)
    ensures forall u :: 0 <= u < t && calls[u].key == calls[t].key ==> calls[u].status == Settled
  {
  }

  lemma NewCallKeeps(locks: map<string, nat>, calls: seq<Call>, key: string)
    requires Ordered(calls) && HoldsLast(locks, calls)
    ensures var more := calls + [Call(key, if key in locks then Some(locks[key]) else None, Waiting)];
            Ordered(more) && HoldsLast(locks[key := |calls|], more)
  {
    var call := Call(key, if key in locks then Some(locks[key]) else None, Waiting);
    NewCallIsFree(locks, calls, call);
    NewCallIsNext(locks, calls, call);
    hide PreviousIsNext, EarlierSettled;
  }

  lemma NewCallIsFree(locks: map<string, nat>, calls: seq<Call>, call: Call)
    requires EarlierSettled(calls) && HoldsLast(locks, calls)
    requires call == Call(call.key, if call.key in locks then Some(locks[call.key]) else None, Waiting)
    ensures EarlierSettled(calls + [call])
  {
    var more := calls + [call];
    assert forall u :: 0 <= u < |calls| ==> more[u] == calls[u];
  }

  lemma NewCallIsNext(locks: map<string, nat>, calls: seq<Call>, call: Call)
    requires PreviousIsNext(calls) && HoldsLast(locks, calls)
    requires call == Call(call.key, if call.key in locks then Some(locks[call.key]) else None, Waiting)
    ensures PreviousIsNext(calls + [call])
  {
    var more := calls + [call];
    assert forall u :: 0 <= u < |calls| ==> more[u] == calls[u];
  }

  lemma StatusKeeps(locks: map<string, nat>, calls: seq<Call>, t: nat, status: Status)
    requires Ordered(calls) && HoldsLast(locks, calls) && t < |calls| && calls[t].status != Settled && status != Waiting
    requires forall u :: 0 <= u < t && calls[u].key == calls[t].key ==> calls[u].status == Settled
    ensures var changed := calls[t := calls[t].(status := status)];
            Ordered(changed) && (status == Running ==> HoldsLast(locks, changed))
  {
    hide PreviousIsNext, HoldsLast, EarlierSettled;
    var changed := calls[t := calls[t].(status := status)];
    StatusKeepsPrevious(calls, t, status);
    StatusKeepsEarlier(calls, t, status);
    if status == Running { RunningKeepsLast(locks, calls, t, changed); }
  }

  lemma StatusKeepsPrevious(calls: seq<Call>, t: nat, status: Status)
    requires PreviousIsNext(calls) && t < |calls|
    ensures PreviousIsNext(calls[t := calls[t].(status := status)])
  {
    var changed := calls[t := calls[t].(status := status)];
    assert forall u :: 0 <= u < |calls| ==> changed[u].key == calls[u].key && changed[u].previous == calls[u].previous;
  }

  lemma StatusKeepsEarlier(calls: seq<Call>, t: nat, status: Status)
    requires EarlierSettled(calls) && t < |calls| && calls[t].status != Settled
    requires forall u :: 0 <= u < t && calls[u].key == calls[t].key ==> calls[u].status == Settled
    ensures EarlierSettled(calls[t := calls[t].(status := status)])
  {
    var changed := calls[t := calls[t].(status := status)];
    assert forall u :: 0 <= u < |calls| && u != t ==> changed[u] == calls[u];
  }

  lemma RunningKeepsLast(locks: map<string, nat>, calls: seq<Call>, t: nat, changed: seq<Call>)
    requires HoldsLast(locks, calls) && t < |calls| && calls[t].status != Settled
        && changed == calls[t := calls[t].(status := Running)]
    ensures HoldsLast(locks, changed)
  {
    assert forall u :: 0 <= u < |calls| ==> changed[u].key == calls[u].key;
  }

  lemma FinishKeeps(locks: map<string, nat>, calls: seq<Call>, t: nat)
    requires HoldsLast(locks, calls) && t < |calls| && calls[t].status == Running
    requires forall u :: 0 <= u < t && calls[u].key == calls[t].key ==> calls[u].status == Settled
    ensures var changed, key := calls[t := calls[t].(status := Settled)], calls[t].key;
            var left := if key in locks && locks[key] == t then locks - {key} else locks;
            && HoldsLast(left, changed)
            && (key in left <==> exists u :: t < u < |changed| && changed[u].key == key)
  {
    var changed, key := calls[t := calls[t].(status := Settled)], calls[t].key;
    if locks[key] != t {
      assert changed[locks[key]].key == key;
    }
  }

  lemma OneRunsAtATimeUpTo(calls: seq<Call>, t: nat)
    requires Ordered(calls) && t < |calls| && calls[t].status == Running
    ensures forall u :: 0 <= u < t && calls[u].key == calls[t].key ==> calls[u].status == Settled
  {
  }

  /** At most one operation of a key runs at a time, and they run in the order of the calls. */
  lemma OneRunsAtATime(calls: seq<Call>, t: nat, u: nat)
    requires Ordered(calls) && t < u < |calls| && calls[t].key == calls[u].key
    ensures !(calls[t].status == Running && calls[u].status == Running)
    ensures calls[u].status != Waiting ==> calls[t].status == Settled
  {
  }

  /** No call is stuck: of the calls of a key that are not done, the first runs or may start. */
  lemma {:induction false} SomeoneMayGoOn(calls: seq<Call>, t: nat) returns (u: nat)
    requires Ordered(calls) && t < |calls| && calls[t].status != Settled
    ensures u <= t && calls[u].key == calls[t].key && (calls[u].status == Running || MayStart(calls, u))
    decreases t
  {
    u := t;
    if calls[t].status == Waiting && !MayStart(calls, t) {
      u := SomeoneMayGoOn(calls, calls[t].previous.value);
    }
  }
}

/** Failure detection: internal/cluster/health.go. */
module Health {
  import opened Options

  datatype Status = Alive | Suspected | Dead
  datatype Signal = NodeFailed | NodeRecovered

  datatype State = State(status: Status, failures: nat)

  /** One ping: the new state and the callback it triggers. */
  function Check(threshold: int, s: State, ok: bool): (State, Option<Signal>) {
    if ok then
      (State(Alive, 0), if s.status == Dead then Some(NodeRecovered) else None)
    else
      var failures := s.failures + 1;
      var status := if failures >= threshold then Dead else if failures > 0 then Suspected else s.status;
      (State(status, failures), if s.status != Dead && status == Dead then Some(NodeFailed) else None)
  }

  class NodeHealth {
    var status: Status
    var consecutiveFailures: nat
    var consecutiveSuccesses: nat

    ghost function View(): State
      reads this
    {
      State(status, consecutiveFailures)
    }

    constructor ()
      ensures View() == State(Alive, 0) && consecutiveSuccesses == 1
    {
      status, consecutiveFailures, consecutiveSuccesses := Alive, 0, 1;
    }

    method CheckNode(threshold: int, ok: bool) returns (signal: Option<Signal>)
      modifies this
      ensures (View(), signal) == Check(threshold, old(View()), ok)
      ensures consecutiveSuccesses == if ok then old(consecutiveSuccesses) + 1 else 0
    {
      signal := None;
      var previousStatus := status;
      if !ok {
        consecutiveFailures, consecutiveSuccesses := consecutiveFailures + 1, 0;
        if consecutiveFailures >= threshold {
          status := Dead;
        } else if consecutiveFailures > 0 {
          status := Suspected;
        }
        if previousStatus != Dead && status == Dead {
          signal := Some(NodeFailed);
        }
      } else {
        consecutiveSuccesses, consecutiveFailures := consecutiveSuccesses + 1, 0;
        status := Alive;
        if previousStatus == Dead {
          signal := Some(NodeRecovered);
        }
      }
    }
  }

  // ----- every sequence of pings

  function Run(threshold: int, pings: seq<bool>): (State, seq<Signal>) {
    if pings == [] then (State(Alive, 0), [])
    else
      var (before, signals) := Run(threshold, pings[..|pings| - 1]);
      var (after, signal) := Check(threshold, before, pings[|pings| - 1]);
      (after, signals + (match signal case None => [] case Some(x) => [x]))
  }

  /** The last n pings failed. */
  predicate FailedLast(pings: seq<bool>, n: nat) {
    n <= |pings| && forall i :: |pings| - n <= i < |pings| ==> !pings[i]
  }

  predicate Alternating(signals: seq<Signal>) {
    forall i :: 0 <= i < |signals| ==> (signals[i] == NodeFailed <==> i % 2 == 0)
  }

  function Bound(threshold: int): nat {
    if threshold < 1 then 1 else threshold
  }

  lemma {:induction false} CountsTrailingFailures(threshold: int, pings: seq<bool>)
    ensures var f := Run(threshold, pings).0.failures; FailedLast(pings, f) && !FailedLast(pings, f + 1)
  {
    if pings != [] {
      var front := pings[..|pings| - 1];
      CountsTrailingFailures(threshold, front);
      var f := Run(threshold, front).0.failures;
      if !pings[|pings| - 1] && f < |front| {
        assert pings[|pings| - f - 2];
      }
    }
  }

  /** For every threshold and every sequence of pings: a node is dead exactly when its last threshold pings (at
      least one) failed, suspected exactly when the last one failed and it is not dead, and the callbacks so far
      alternate, starting with a failure and ending with one exactly when the node is dead. */
  lemma {:induction false} Detection(threshold: int, pings: seq<bool>)
    ensures var (s, signals) := Run(threshold, pings);
            && (s.status == Dead <==> FailedLast(pings, Bound(threshold)))
            && (s.status == Alive <==> !FailedLast(pings, 1))
            && Alternating(signals)
            && (|signals| % 2 == 1 <==> s.status == Dead)
  {
    CountsTrailingFailures(threshold, pings);
    if pings != [] {
      Detection(threshold, pings[..|pings| - 1]);
    }
  }
}

/** Whatever the routes do, the relay under them takes a run of its own, so the relay's laws hold. */
module HubRelay {
  import opened Util
  import opened HubModel
  import opened HubHosting
  import R = RelayModel
  import RA = RelayAnswers
  import RD = RelayDelivery
  import RF = RelayFailures

  ghost function Taken(h: Hub, step: Step): seq<R.Step>
    requires Enabled(h, step)
  {
    match RelayStep(h, step)
    case None => []
    case Some(r) => [r]
  }

  /** The relay's part of the first i steps of a run of the hub. */
  ghost function RelayRun(states: seq<Hub>, steps: seq<Step>, i: nat): seq<R.Step>
    requires IsRun(states, steps) && i <= |steps|
  {
    if i == 0 then []
    else
      RunStep(states, steps, i - 1);
      RelayRun(states, steps, i - 1) + Taken(states[i - 1], steps[i - 1])
  }

  /** Started with an empty table, made of enabled steps, fed only by callers that name an
      originator and post text, fetching only with the default timeout, and ending in the hub's relay. */
  ghost predicate Induced(t0: int, run: seq<R.Step>, s: R.State) {
    && R.Valid(R.Init(t0), run) && R.Exec(R.Init(t0), run) == s
    && RA.CallersSubmit(run) && RD.Patient(run, R.DEFAULT_ACK_TIMEOUT_MS)
  }

  lemma InducedSnoc(t0: int, run: seq<R.Step>, s: R.State, step: R.Step)
    requires Induced(t0, run, s) && R.Enabled(s, step)
    requires step.Check? ==> RA.FromCaller(step.req)
    requires step.Fetch? ==> step.ackMs == R.DEFAULT_ACK_TIMEOUT_MS
    ensures Induced(t0, run + [step], R.Apply(s, step))
  {
    R.ValidSnoc(R.Init(t0), run, step);
    R.ExecSnoc(R.Init(t0), run, step);
  }

  /** What the routes ask of the relay is asked as the relay expects it. */
  lemma RelayStepOk(states: seq<Hub>, steps: seq<Step>, i: nat)
    requires IsRun(states, steps) && i < |steps| && Enabled(states[i], steps[i])
    requires RelayStep(states[i], steps[i]).Some?
    ensures var r := RelayStep(states[i], steps[i]).value;
            && (r.Check? ==> RA.FromCaller(r.req))
            && (r.Fetch? ==> r.ackMs == R.DEFAULT_ACK_TIMEOUT_MS)
  {
    if steps[i].CheckDepth? {
      var o := AdmittedOnlyToMembers(states, steps, i);
    }
  }

  lemma {:induction false} RelayRunIs(states: seq<Hub>, steps: seq<Step>, i: nat)
    requires IsRun(states, steps) && i <= |steps|
    ensures Induced(states[0].relay.now, RelayRun(states, steps, i), states[i].relay)
  {
    var t0 := states[0].relay.now;
    if i == 0 {
      assert R.Valid(R.Init(t0), []) && R.Exec(R.Init(t0), []) == R.Init(t0);
    } else {
      RelayRunIs(states, steps, i - 1);
      RelayRunStep(states, steps, i);
    }
  }

  lemma RelayRunStep(states: seq<Hub>, steps: seq<Step>, i: nat)
    requires IsRun(states, steps) && 0 < i <= |steps|
    requires Induced(states[0].relay.now, RelayRun(states, steps, i - 1), states[i - 1].relay)
    ensures Induced(states[0].relay.now, RelayRun(states, steps, i), states[i].relay)
  {
    RunStep(states, steps, i - 1);
    RelayDriven(states[i - 1], steps[i - 1]);
    var before := RelayRun(states, steps, i - 1);
    if RelayStep(states[i - 1], steps[i - 1]).Some? {
      RelayStepOk(states, steps, i - 1);
      InducedSnoc(states[0].relay.now, before, states[i - 1].relay, RelayStep(states[i - 1], steps[i - 1]).value);
    } else {
      assert before + [] == before;
    }
  }

  // ----- The relay's laws under the routes -----

  /** In every interleaving of the routes the relay is in a reachable state. */
  lemma RelayReachable(states: seq<Hub>, steps: seq<Step>, i: nat)
    requires IsRun(states, steps) && i <= |steps|
    ensures R.Reachable(states[i].relay)
  {
    RelayRunIs(states, steps, i);
  }

  /** A row is streamed at most ceil(ttl / 10000) times, at least ten seconds apart, within its life. */
  lemma StreamedAtMost(states: seq<Hub>, steps: seq<Step>, i: nat, k: nat)
    requires IsRun(states, steps) && i <= |steps| && k < |states[i].relay.rows|
    ensures var r := states[i].relay.rows[k];
            var ts := RD.Deliveries(R.Init(states[0].relay.now), RelayRun(states, steps, i), r.id);
            && RD.Spaced(ts, R.Ms(10000))
            && (forall j :: 0 <= j < |ts| ==> r.createdAt <= ts[j] < r.Deadline())
            && (ts == [] || |ts| <= RD.CeilDiv(r.req.ttl, 10000))
  {
    RelayRunIs(states, steps, i);
    RD.RedeliveryBound(states[0].relay.now, RelayRun(states, steps, i), R.DEFAULT_ACK_TIMEOUT_MS, k);
  }

  /** Synthetic failures never outnumber the expired requests, whatever was submitted. */
  lemma FailuresDoNotBreed(states: seq<Hub>, steps: seq<Step>, i: nat)
    requires IsRun(states, steps) && i <= |steps|
    ensures var s := states[i].relay;
            && |Filter(s.rows, RF.UnsignedRow())| + |Filter(s.checked, RF.Unsigned())| + |s.jobs|
                 <= |Filter(s.rows, RF.ExpiredOwing())|
            && forall r :: r in s.rows && r.req.origin.None? ==> !R.OwesAnswer(r.req)
  {
    RelayRunIs(states, steps, i);
    RF.AnswersDoNotBreed(states[0].relay.now, RelayRun(states, steps, i));
  }

  /** Exactly when an expired request submitted through the routes is left without its answer. */
  lemma NoAnswerIff(states: seq<Hub>, steps: seq<Step>, i: nat, k: nat)
    requires IsRun(states, steps) && i <= |steps| && RA.Quiet(states[i].relay) && RA.Owed(states[i].relay, k)
    ensures var s := states[i].relay;
            var q := s.rows[k].req;
            !RA.HasAnswer(s, q) <==> RA.TakenByCaller(s, R.KeyOf(R.AnswerTo(q)))
                                     || RA.OnlyTurnedAway(states[0].relay.now, RelayRun(states, steps, i), q)
  {
    RelayRunIs(states, steps, i);
    RA.AnswerMissingIff(states[0].relay.now, RelayRun(states, steps, i), k);
  }
}

/** What is stored and streamed is what was posted: over every interleaving of the routes. */
module HubContents {
  import opened Util
  import opened HubModel
  import opened HubHosting
  import opened HubRelay
  import R = RelayModel
  import RA = RelayAnswers
  import RI = RelayInvariants
  import RD = RelayDelivery

  /** Step o opens a handler for this envelope under the accepted token c. */
  ghost predicate PostedAt(states: seq<Hub>, steps: seq<Step>, o: nat, c: Claims, e: Envelope) {
    o < |steps| && steps[o].OpenEnvelope? && steps[o].envelope == e && OpenedAs(states, steps, o, steps[o].n, c)
  }

  ghost predicate FromPost(states: seq<Hub>, steps: seq<Step>, o: nat, c: Claims, q: R.Request) {
    o < |steps| && steps[o].OpenEnvelope? && PostedAt(states, steps, o, c, steps[o].envelope)
    && Carries(c, steps[o].envelope, q)
  }

  /** The request is that of an envelope posted before state i. */
  ghost predicate Posted(states: seq<Hub>, steps: seq<Step>, i: nat, q: R.Request) {
    exists o: nat, c: Claims :: o < i && FromPost(states, steps, o, c, q)
  }

  ghost predicate EnvelopeKept(states: seq<Hub>, steps: seq<Step>, i: nat, t: Task) {
    match t
    case Submitting(c, e) => e.ws == c.ws && exists o: nat :: o < i && PostedAt(states, steps, o, c, e)
    case Admitting(c, q) => Posted(states, steps, i, q)
    case _ => true
  }

  /** Handlers, admissions in flight and rows that name an originator hold posted envelopes. */
  ghost predicate Contents(states: seq<Hub>, steps: seq<Step>, i: nat)
    requires i < |states|
  {
    && (forall n <- states[i].tasks :: EnvelopeKept(states, steps, i, states[i].tasks[n]))
    && (forall q <- states[i].relay.checked :: q.origin.Some? ==> Posted(states, steps, i, q))
    && (forall r <- states[i].relay.rows :: r.req.origin.Some? ==> Posted(states, steps, i, r.req))
  }

  lemma KeptLater(states: seq<Hub>, steps: seq<Step>, i: nat, t: Task)
    requires EnvelopeKept(states, steps, i, t)
    ensures EnvelopeKept(states, steps, i + 1, t)
  {
    match t
    case Submitting(c, e) => var o: nat :| o < i && PostedAt(states, steps, o, c, e);
    case Admitting(_, q) => PostedLater(states, steps, i, q);
    case _ =>
  }

  lemma PostedLater(states: seq<Hub>, steps: seq<Step>, i: nat, q: R.Request)
    requires Posted(states, steps, i, q)
    ensures Posted(states, steps, i + 1, q)
  {
    var o: nat, c: Claims :| o < i && FromPost(states, steps, o, c, q);
  }

  /** What the admission asks for is the envelope. */
  lemma ResolvedCarries(members: set<Member>, c: Claims, e: Envelope)
    requires Resolved(members, c, e).Admitting?
    ensures Carries(c, e, Resolved(members, c, e).req) && Resolved(members, c, e).claims == c
  {
  }

  lemma OpenedKept(states: seq<Hub>, steps: seq<Step>, i: nat, n: nat)
    requires Goes(states, steps, i) && Actor(steps[i]) == Some(n) && n !in states[i].tasks && n in states[i + 1].tasks
    ensures EnvelopeKept(states, steps, i + 1, states[i + 1].tasks[n])
  {
    if steps[i].OpenEnvelope? {
      var t := states[i + 1].tasks[n];
      assert OpenedAs(states, steps, i, n, t.claims);
      assert PostedAt(states, steps, i, t.claims, steps[i].envelope);
    }
  }

  lemma ResolvedKept(states: seq<Hub>, steps: seq<Step>, i: nat, n: nat)
    requires Goes(states, steps, i) && steps[i] == ResolveTarget(n)
    requires EnvelopeKept(states, steps, i, states[i].tasks[n])
    ensures EnvelopeKept(states, steps, i + 1, states[i + 1].tasks[n])
  {
    var t := states[i].tasks[n];
    var o: nat :| o < i && PostedAt(states, steps, o, t.claims, t.envelope);
    if Resolved(states[i].members, t.claims, t.envelope).Admitting? {
      ResolvedCarries(states[i].members, t.claims, t.envelope);
      assert FromPost(states, steps, o, t.claims, states[i + 1].tasks[n].req);
    }
  }

  /** Only these two steps make a handler hold an envelope. */
  lemma OthersHoldNone(h: Hub, step: Step, n: nat)
    requires Enabled(h, step) && n in h.tasks && n in Next(h, step).tasks && step != ResolveTarget(n)
    ensures var t := Next(h, step).tasks[n]; t.Submitting? || t.Admitting? ==> t == h.tasks[n]
  {
  }

  lemma TasksKept(states: seq<Hub>, steps: seq<Step>, i: nat, n: nat)
    requires Goes(states, steps, i) && Contents(states, steps, i) && n in states[i + 1].tasks
    ensures EnvelopeKept(states, steps, i + 1, states[i + 1].tasks[n])
  {
    if n !in states[i].tasks {
      OthersUntouchedOrOpened(states[i], steps[i], n);
      OpenedKept(states, steps, i, n);
    } else if steps[i] == ResolveTarget(n) {
      ResolvedKept(states, steps, i, n);
    } else {
      OthersHoldNone(states[i], steps[i], n);
      KeptLater(states, steps, i, states[i].tasks[n]);
    }
  }

  lemma OthersUntouchedOrOpened(h: Hub, step: Step, n: nat)
    requires Enabled(h, step) && n !in h.tasks && n in Next(h, step).tasks
    ensures Actor(step) == Some(n)
  {
  }

  // ----- The relay's part -----

  /** The sweep's answers name no originator. */
  lemma JobsUnsigned(states: seq<Hub>, steps: seq<Step>, i: nat, q: R.Request)
    requires IsRun(states, steps) && i <= |steps| && q in states[i].relay.jobs
    ensures q.origin.None?
  {
    RelayRunIs(states, steps, i);
    RA.OriginsRun(states[0].relay.now, RelayRun(states, steps, i));
    assert RA.Backed(states[i].relay, q);
  }

  /** A request newly in flight is a handler's, or an answer. */
  lemma CheckedFrom(h: Hub, step: Step, q: R.Request)
    requires Enabled(h, step) && q in Next(h, step).relay.checked
    ensures || q in h.relay.checked || q in h.relay.jobs
            || (step.CheckDepth? && step.n in h.tasks && h.tasks[step.n] == Admitting(h.tasks[step.n].claims, q))
  {
    RelayDriven(h, step);
    var r := RelayStep(h, step);
    if r.Some? && r.value.Insert? {
      RemoveFirstMember(h.relay.checked, r.value.req, q);
    }
  }

  /** A row's request was a row's before, or was in flight. */
  lemma RowFrom(h: Hub, step: Step, r: R.Row)
    requires Enabled(h, step) && r in Next(h, step).relay.rows
    ensures r.req in h.relay.checked || exists x <- h.relay.rows :: x.req == r.req
  {
    RelayDriven(h, step);
    var s := RelayStep(h, step);
    if s.Some? {
      RI.StepLater(h.relay, s.value);
      var k :| 0 <= k < |Next(h, step).relay.rows| && Next(h, step).relay.rows[k] == r;
      if k < |h.relay.rows| {
        assert h.relay.rows[k] in h.relay.rows && h.relay.rows[k].req == r.req;
      }
    }
  }

  lemma ContentsStep(states: seq<Hub>, steps: seq<Step>, i: nat)
    requires IsRun(states, steps) && i < |steps| && Contents(states, steps, i)
    ensures Contents(states, steps, i + 1)
  {
    RunStep(states, steps, i);
    var tasks, next := states[i + 1].tasks, i + 1;
    forall n | n in tasks ensures EnvelopeKept(states, steps, next, tasks[n]) {
      TasksKept(states, steps, i, n);
    }
    forall q | q in states[i + 1].relay.checked && q.origin.Some? ensures Posted(states, steps, i + 1, q) {
      CheckedKept(states, steps, i, q);
    }
    forall r | r in states[i + 1].relay.rows && r.req.origin.Some? ensures Posted(states, steps, i + 1, r.req) {
      RowFrom(states[i], steps[i], r);
      PostedLater(states, steps, i, r.req);
    }
  }

  lemma CheckedKept(states: seq<Hub>, steps: seq<Step>, i: nat, q: R.Request)
    requires IsRun(states, steps) && i < |steps| && Contents(states, steps, i)
    requires q in states[i + 1].relay.checked && q.origin.Some?
    ensures Posted(states, steps, i + 1, q)
  {
    RunStep(states, steps, i);
    CheckedFrom(states[i], steps[i], q);
    if q in states[i].relay.jobs {
      JobsUnsigned(states, steps, i, q);
    }
    if steps[i].CheckDepth? && steps[i].n in states[i].tasks {
      assert EnvelopeKept(states, steps, i, states[i].tasks[steps[i].n]);
    }
    PostedLater(states, steps, i, q);
  }

  lemma {:induction false} ContentsRun(states: seq<Hub>, steps: seq<Step>, i: nat)
    requires IsRun(states, steps) && i <= |steps|
    ensures Contents(states, steps, i)
  {
    if i > 0 {
      ContentsRun(states, steps, i - 1);
      ContentsStep(states, steps, i - 1);
    }
  }

  // ----- End to end -----

  /** Every row that names an originator, and every admission in flight that does, is an envelope
      posted earlier under an accepted token of its workspace, with nothing changed or lost. */
  lemma StoredAsPosted(states: seq<Hub>, steps: seq<Step>, i: nat, q: R.Request)
    requires IsRun(states, steps) && i <= |steps| && q.origin.Some?
    requires q in states[i].relay.checked || exists r <- states[i].relay.rows :: r.req == q
    ensures Posted(states, steps, i, q)
  {
    ContentsRun(states, steps, i);
  }

  /** And so is every row of a stream's batch that names one. */
  lemma StreamedAsPosted(states: seq<Hub>, steps: seq<Step>, i: nat, r: R.Row)
    requires IsRun(states, steps) && i < |steps| && steps[i].FetchFor? && Enabled(states[i], steps[i])
    requires var t := states[i].tasks[steps[i].n]; r in Batch(states[i], t.path, t.polls[steps[i].k].due[0])
    requires r.req.origin.Some?
    ensures Posted(states, steps, i, r.req)
  {
    var t := states[i].tasks[steps[i].n];
    RD.BatchMember(states[i].relay, t.path, t.polls[steps[i].k].due[0], R.DEFAULT_ACK_TIMEOUT_MS, r);
    StoredAsPosted(states, steps, i, r.req);
  }

  // ----- Times to live -----

  /** How long an envelope posted without a time to live lives: half a minute a request or a file chunk,
      a minute a command's or file's result and a command's update, two minutes a prompt's result,
      fifteen seconds a message and its acknowledgement, five an event; no other kind is relayed. */
  lemma DefaultTtlIff(kind: string, ms: nat)
    ensures DefaultTtl(kind) == Some(ms) <==>
              || (ms == 30000 && kind in {"execute_command.request", "execute_prompt.request", "file_transfer.chunk"})
              || (ms == 60000 && kind in {"execute_command.result", "execute_command.long_running_update",
                                          "file_transfer.result"})
              || (ms == 120000 && kind == "execute_prompt.result")
              || (ms == 15000 && kind in {"send_message.deliver", "send_message.ack"})
              || (ms == 5000 && kind == "event.broadcast")
  {
  }

  /** The answers the sweep writes live as long as results posted without a time to live. */
  lemma AnswersLiveAsResults(q: R.Request)
    requires R.OwesAnswer(q)
    ensures DefaultTtl(R.AnswerTo(q).kind) == Some(R.AnswerTo(q).ttl)
  {
  }
}

/**
 * Who can see and retire what: over every interleaving of announces, heartbeats, submissions,
 * stream polls, acknowledgements, revocations and membership changes.
 */
module HubHosting {
  import opened Util
  import opened HubModel
  import R = RelayModel
  import RA = RelayAnswers
  import RD = RelayDelivery

  // ----- What happened before state i -----

  /** The step presents this token and the token is accepted for its path. */
  ghost predicate Presents(h: Hub, step: Step, c: Claims) {
    match step
    case OpenEnvelope(_, token, path, _) => Authorize(h, token, path) == Some(c)
    case OpenStream(_, token, path) => Authorize(h, token, path) == Some(c)
    case OpenAck(_, token, path, _, _) => Authorize(h, token, path) == Some(c)
    case _ => false
  }

  /** The handler a step works on or starts. */
  function Actor(step: Step): Option<nat> {
    match step
    case AddMember(_) => None
    case DropMember(_) => None
    case Revoke(_) => None
    case Background(_) => None
    case OpenEnvelope(n, _, _, _) => Some(n)
    case OpenStream(n, _, _) => Some(n)
    case OpenAck(n, _, _, _, _) => Some(n)
    case LookUp(n) => Some(n)
    case DeleteStale(n) => Some(n)
    case Upsert(n) => Some(n)
    case ResolveTarget(n) => Some(n)
    case CheckDepth(n) => Some(n)
    case StartPoll(n) => Some(n)
    case ListHosted(n, _, _) => Some(n)
    case FetchFor(n, _) => Some(n)
    case Close(n) => Some(n)
    case CheckHosted(n) => Some(n)
    case CommitAck(n) => Some(n)
  }

  /** Step o starts handler n, and the token it presents is accepted. Handlers are never restarted. */
  ghost predicate OpenedAs(states: seq<Hub>, steps: seq<Step>, o: nat, n: nat, c: Claims) {
    && o < |steps| && |states| == |steps| + 1
    && Actor(steps[o]) == Some(n) && Presents(states[o], steps[o], c)
    && n !in states[o].tasks && n in states[o + 1].tasks
  }

  /** Step j is handler n's, in a state where the machine's view has the member: its poll's
      listing or its acknowledgement's check. */
  ghost predicate ViewedAt(states: seq<Hub>, steps: seq<Step>, j: nat, n: nat, machine: string, member: string) {
    && j < |steps| && |states| == |steps| + 1
    && ((steps[j].ListHosted? && steps[j].n == n) || steps[j] == CheckHosted(n))
    && Place(machine, member) in states[j].presence
  }

  /** Step j is handler n's look-up of a member the workspace has. */
  ghost predicate FoundAt(states: seq<Hub>, steps: seq<Step>, j: nat, n: nat, ws: string, member: string) {
    && j < |steps| && |states| == |steps| + 1
    && (steps[j] == LookUp(n) || steps[j] == ResolveTarget(n))
    && Member(ws, member) in states[j].members
  }

  ghost predicate Viewed(states: seq<Hub>, steps: seq<Step>, o: nat, i: nat, n: nat, machine: string, member: string) {
    exists j: nat :: o < j < i && ViewedAt(states, steps, j, n, machine, member)
  }

  ghost predicate Found(states: seq<Hub>, steps: seq<Step>, o: nat, i: nat, n: nat, ws: string, member: string) {
    exists j: nat :: o < j < i && FoundAt(states, steps, j, n, ws, member)
  }

  /** A handler of the machine, opened under an accepted token, looked the member up in the
      token's workspace and found it. */
  ghost predicate VouchedBy(states: seq<Hub>, steps: seq<Step>, i: nat, o: nat, n: nat, c: Claims, machine: string,
                            member: string) {
    c.sub == machine && o < i && OpenedAs(states, steps, o, n, c) && Found(states, steps, o, i, n, c.ws, member)
  }

  ghost predicate Vouched(states: seq<Hub>, steps: seq<Step>, i: nat, machine: string, member: string) {
    exists o: nat, n: nat, c: Claims :: VouchedBy(states, steps, i, o, n, c, machine, member)
  }

  // ----- What every run keeps -----

  /** What handler n, opened at o, has seen by state i. */
  ghost predicate TaskSince(states: seq<Hub>, steps: seq<Step>, o: nat, i: nat, n: nat, t: Task) {
    match t
    case Announcing(c, _, _, found) => forall m :: m in found ==> Found(states, steps, o, i, n, c.ws, m.member)
    case Writing(c, todo) => forall m :: m in todo ==> Found(states, steps, o, i, n, c.ws, m.member)
    case Submitting(c, e) => true
    case Admitting(c, q) => q.ws == c.ws && RA.FromCaller(q) && Found(states, steps, o, i, n, c.ws, q.target)
    case Streaming(c, path, polls, _) =>
      path == c.ws
      && forall k, m :: 0 <= k < |polls| && polls[k].Fetching? && m in polls[k].due ==>
          Viewed(states, steps, o, i, n, c.sub, m)
    case AckAsked(c, path, _, _) => path == c.ws
    case AckGranted(c, path, member, _) => path == c.ws && Viewed(states, steps, o, i, n, c.sub, member)
    case Done(_) => true
  }

  ghost predicate TaskBy(states: seq<Hub>, steps: seq<Step>, o: nat, i: nat, n: nat, t: Task) {
    o < i && OpenedAs(states, steps, o, n, t.claims) && TaskSince(states, steps, o, i, n, t)
  }

  ghost predicate TaskOk(states: seq<Hub>, steps: seq<Step>, i: nat, n: nat, t: Task) {
    exists o: nat :: TaskBy(states, steps, o, i, n, t)
  }

  ghost predicate Sound(states: seq<Hub>, steps: seq<Step>, i: nat)
    requires i < |states|
  {
    && (forall n: nat :: n in states[i].tasks ==> TaskOk(states, steps, i, n, states[i].tasks[n]))
    && (forall p :: p in states[i].presence ==> Vouched(states, steps, i, p.machine, p.member))
  }

  // ----- The past only grows -----

  lemma TaskLater(states: seq<Hub>, steps: seq<Step>, o: nat, i: nat, n: nat, t: Task)
    requires TaskBy(states, steps, o, i, n, t)
    ensures TaskBy(states, steps, o, i + 1, n, t)
  {
    match t
    case Announcing(c, _, _, found) =>
      forall m | m in found ensures Found(states, steps, o, i + 1, n, c.ws, m.member) {
        FoundLater(states, steps, o, i, n, c.ws, m.member);
      }
    case Writing(c, todo) =>
      forall m | m in todo ensures Found(states, steps, o, i + 1, n, c.ws, m.member) {
        FoundLater(states, steps, o, i, n, c.ws, m.member);
      }
    case Admitting(c, q) => FoundLater(states, steps, o, i, n, c.ws, q.target);
    case Streaming(c, path, polls, _) =>
      forall k, m | 0 <= k < |polls| && polls[k].Fetching? && m in polls[k].due
        ensures Viewed(states, steps, o, i + 1, n, c.sub, m)
      {
        ViewedLater(states, steps, o, i, n, c.sub, m);
      }
    case AckGranted(c, _, member, _) => ViewedLater(states, steps, o, i, n, c.sub, member);
    case _ =>
  }

  lemma FoundLater(states: seq<Hub>, steps: seq<Step>, o: nat, i: nat, n: nat, ws: string, member: string)
    requires Found(states, steps, o, i, n, ws, member)
    ensures Found(states, steps, o, i + 1, n, ws, member)
  {
    var j: nat :| o < j < i && FoundAt(states, steps, j, n, ws, member);
  }

  lemma ViewedLater(states: seq<Hub>, steps: seq<Step>, o: nat, i: nat, n: nat, machine: string, member: string)
    requires Viewed(states, steps, o, i, n, machine, member)
    ensures Viewed(states, steps, o, i + 1, n, machine, member)
  {
    var j: nat :| o < j < i && ViewedAt(states, steps, j, n, machine, member);
  }

  lemma VouchedLater(states: seq<Hub>, steps: seq<Step>, i: nat, machine: string, member: string)
    requires Vouched(states, steps, i, machine, member)
    ensures Vouched(states, steps, i + 1, machine, member)
  {
    var o: nat, n: nat, c: Claims :| VouchedBy(states, steps, i, o, n, c, machine, member);
    var j: nat :| o < j < i && FoundAt(states, steps, j, n, c.ws, member);
    assert VouchedBy(states, steps, i + 1, o, n, c, machine, member);
  }

  lemma OthersUntouched(h: Hub, step: Step, n: nat)
    requires Enabled(h, step) && n in Next(h, step).tasks && Actor(step) != Some(n)
    ensures n in h.tasks && Next(h, step).tasks[n] == h.tasks[n]
  {
  }

  ghost predicate Goes(states: seq<Hub>, steps: seq<Step>, i: nat) {
    && i < |steps| && |states| == |steps| + 1
    && Enabled(states[i], steps[i]) && states[i + 1] == Next(states[i], steps[i])
  }

  /** One step of a run that has been sound so far. */
  ghost predicate Advances(states: seq<Hub>, steps: seq<Step>, i: nat) {
    Goes(states, steps, i) && Sound(states, steps, i)
  }

  lemma ActorStarted(states: seq<Hub>, steps: seq<Step>, i: nat, n: nat)
    requires Goes(states, steps, i)
    requires Actor(steps[i]) == Some(n) && n !in states[i].tasks && n in states[i + 1].tasks
    ensures TaskOk(states, steps, i + 1, n, states[i + 1].tasks[n])
  {
    var t := states[i + 1].tasks[n];
    assert OpenedAs(states, steps, i, n, t.claims);
    assert TaskBy(states, steps, i, i + 1, n, t);
  }

  lemma ActorListed(states: seq<Hub>, steps: seq<Step>, o: nat, i: nat, n: nat)
    requires Goes(states, steps, i) && steps[i].ListHosted? && steps[i].n == n
    requires TaskBy(states, steps, o, i, n, states[i].tasks[n])
    ensures TaskBy(states, steps, o, i + 1, n, states[i + 1].tasks[n])
  {
    var t, u, listed := states[i].tasks[n], states[i + 1].tasks[n], steps[i].listed;
    TaskLater(states, steps, o, i, n, t);
    forall m | m in listed ensures Viewed(states, steps, o, i + 1, n, t.claims.sub, m) {
      assert ViewedAt(states, steps, i, n, t.claims.sub, m);
    }
  }

  lemma ActorFetched(states: seq<Hub>, steps: seq<Step>, o: nat, i: nat, n: nat)
    requires Goes(states, steps, i) && steps[i].FetchFor? && steps[i].n == n
    requires TaskBy(states, steps, o, i, n, states[i].tasks[n])
    ensures TaskBy(states, steps, o, i + 1, n, states[i + 1].tasks[n])
  {
    var t, u, k := states[i].tasks[n], states[i + 1].tasks[n], steps[i].k;
    TaskLater(states, steps, o, i, n, t);
    forall j, m | 0 <= j < |u.polls| && u.polls[j].Fetching? && m in u.polls[j].due
      ensures t.polls[j].Fetching? && m in t.polls[j].due
    {
      if j == k {
        assert u.polls[k] == AfterFetch(t.polls[k].due, t.closed, Batch(states[i], t.path, t.polls[k].due[0]));
      }
    }
  }

  lemma ActorChecked(states: seq<Hub>, steps: seq<Step>, o: nat, i: nat, n: nat)
    requires Goes(states, steps, i) && steps[i] == CheckHosted(n)
    requires TaskBy(states, steps, o, i, n, states[i].tasks[n])
    ensures TaskBy(states, steps, o, i + 1, n, states[i + 1].tasks[n])
  {
    var t := states[i].tasks[n];
    if Place(t.claims.sub, t.member) in states[i].presence {
      assert ViewedAt(states, steps, i, n, t.claims.sub, t.member);
    }
  }

  lemma ActorLookedUp(states: seq<Hub>, steps: seq<Step>, o: nat, i: nat, n: nat)
    requires Goes(states, steps, i) && steps[i] == LookUp(n)
    requires TaskBy(states, steps, o, i, n, states[i].tasks[n])
    ensures TaskBy(states, steps, o, i + 1, n, states[i + 1].tasks[n])
  {
    var t := states[i].tasks[n];
    TaskLater(states, steps, o, i, n, t);
    var m := t.todo[0].member;
    if Member(t.claims.ws, m) in states[i].members {
      assert FoundAt(states, steps, i, n, t.claims.ws, m);
    }
  }

  lemma ActorResolved(states: seq<Hub>, steps: seq<Step>, o: nat, i: nat, n: nat)
    requires Goes(states, steps, i) && steps[i] == ResolveTarget(n)
    requires TaskBy(states, steps, o, i, n, states[i].tasks[n])
    ensures TaskBy(states, steps, o, i + 1, n, states[i + 1].tasks[n])
  {
    var t := states[i].tasks[n];
    if Resolved(states[i].members, t.claims, t.envelope).Admitting? {
      assert FoundAt(states, steps, i, n, t.claims.ws, t.envelope.to.value);
    }
  }

  lemma ActorWrites(states: seq<Hub>, steps: seq<Step>, o: nat, i: nat, n: nat)
    requires Goes(states, steps, i) && (steps[i] == DeleteStale(n) || steps[i] == Upsert(n))
    requires TaskBy(states, steps, o, i, n, states[i].tasks[n])
    ensures TaskBy(states, steps, o, i + 1, n, states[i + 1].tasks[n])
  {
    TaskLater(states, steps, o, i, n, states[i].tasks[n]);
  }

  /** A new poll has nothing listed yet. */
  lemma ActorPolls(states: seq<Hub>, steps: seq<Step>, o: nat, i: nat, n: nat)
    requires Goes(states, steps, i) && (steps[i] == StartPoll(n) || steps[i] == Close(n))
    requires TaskBy(states, steps, o, i, n, states[i].tasks[n])
    ensures TaskBy(states, steps, o, i + 1, n, states[i + 1].tasks[n])
  {
    TaskLater(states, steps, o, i, n, states[i].tasks[n]);
  }

  lemma ActorDone(states: seq<Hub>, steps: seq<Step>, o: nat, i: nat, n: nat)
    requires Goes(states, steps, i) && (steps[i] == CheckDepth(n) || steps[i] == CommitAck(n))
    requires TaskBy(states, steps, o, i, n, states[i].tasks[n])
    ensures TaskBy(states, steps, o, i + 1, n, states[i + 1].tasks[n])
  {
  }

  lemma ActorOk(states: seq<Hub>, steps: seq<Step>, i: nat, n: nat)
    requires Advances(states, steps, i)
    requires Actor(steps[i]) == Some(n) && n in states[i + 1].tasks
    ensures TaskOk(states, steps, i + 1, n, states[i + 1].tasks[n])
  {
    if n !in states[i].tasks {
      ActorStarted(states, steps, i, n);
      return;
    }
    var o: nat :| TaskBy(states, steps, o, i, n, states[i].tasks[n]);
    match steps[i]
    case ListHosted(_, _, _) => ActorListed(states, steps, o, i, n);
    case FetchFor(_, _) => ActorFetched(states, steps, o, i, n);
    case CheckHosted(_) => ActorChecked(states, steps, o, i, n);
    case LookUp(_) => ActorLookedUp(states, steps, o, i, n);
    case ResolveTarget(_) => ActorResolved(states, steps, o, i, n);
    case DeleteStale(_) => ActorWrites(states, steps, o, i, n);
    case Upsert(_) => ActorWrites(states, steps, o, i, n);
    case StartPoll(_) => ActorPolls(states, steps, o, i, n);
    case Close(_) => ActorPolls(states, steps, o, i, n);
    case _ => ActorDone(states, steps, o, i, n);
  }

  lemma PresenceOk(states: seq<Hub>, steps: seq<Step>, i: nat, p: Place)
    requires Advances(states, steps, i) && p in states[i + 1].presence
    ensures Vouched(states, steps, i + 1, p.machine, p.member)
  {
    if p in states[i].presence {
      VouchedLater(states, steps, i, p.machine, p.member);
    } else {
      var n := steps[i].n;
      var t := states[i].tasks[n];
      var o: nat :| TaskBy(states, steps, o, i, n, t);
      assert t.todo[0] in t.todo;
      TaskLater(states, steps, o, i, n, t);
      assert VouchedBy(states, steps, i + 1, o, n, t.claims, p.machine, p.member);
    }
  }

  lemma SoundStep(states: seq<Hub>, steps: seq<Step>, i: nat)
    requires Advances(states, steps, i)
    ensures Sound(states, steps, i + 1)
  {
    var tasks, next := states[i + 1].tasks, i + 1;
    forall n | n in tasks ensures TaskOk(states, steps, next, n, tasks[n]) {
      if Actor(steps[i]) == Some(n) {
        ActorOk(states, steps, i, n);
      } else {
        OthersUntouched(states[i], steps[i], n);
        var o: nat :| TaskBy(states, steps, o, i, n, states[i].tasks[n]);
        TaskLater(states, steps, o, i, n, states[i].tasks[n]);
      }
    }
    forall p | p in states[i + 1].presence ensures Vouched(states, steps, i + 1, p.machine, p.member) {
      PresenceOk(states, steps, i, p);
    }
  }

  lemma {:induction false} SoundRun(states: seq<Hub>, steps: seq<Step>, i: nat)
    requires IsRun(states, steps) && i < |states|
    ensures Sound(states, steps, i)
  {
    if i > 0 {
      SoundRun(states, steps, i - 1);
      SoundStep(states, steps, i - 1);
    }
  }

  // ----- End to end -----

  /** Every presence row was written for a handler of that machine, opened under an accepted
      token whose workspace contained the member when the handler looked it up. */
  lemma PresenceIsVouched(states: seq<Hub>, steps: seq<Step>, i: nat, p: Place)
    requires IsRun(states, steps) && i < |states| && p in states[i].presence
    ensures Vouched(states, steps, i, p.machine, p.member)
  {
    SoundRun(states, steps, i);
  }

  /** A member that has ever been in a machine's view has been vouched for. */
  lemma HostedMeansVouched(states: seq<Hub>, steps: seq<Step>, j: nat, i: nat, p: Place)
    requires IsRun(states, steps) && j <= i < |states| && p in states[j].presence
    ensures Vouched(states, steps, i, p.machine, p.member)
  {
    PresenceIsVouched(states, steps, j, p);
    VouchedUpTo(states, steps, j, i, p.machine, p.member);
  }

  lemma {:induction false} VouchedUpTo(states: seq<Hub>, steps: seq<Step>, j: nat, i: nat, machine: string,
                                       member: string)
    requires j <= i && Vouched(states, steps, j, machine, member)
    ensures Vouched(states, steps, i, machine, member)
    decreases i - j
  {
    if j < i {
      VouchedLater(states, steps, j, machine, member);
      VouchedUpTo(states, steps, j + 1, i, machine, member);
    }
  }

  /** Handler n was opened at o under the accepted token c of the row's workspace, and its own
      later step j saw the row's target in the view of the token's machine, vouched for. */
  ghost predicate EntitledAt(states: seq<Hub>, steps: seq<Step>, o: nat, j: nat, i: nat, n: nat, c: Claims,
                             q: R.Request) {
    && o < j < i && OpenedAs(states, steps, o, n, c) && c.ws == q.ws
    && ViewedAt(states, steps, j, n, c.sub, q.target)
    && Vouched(states, steps, j, c.sub, q.target)
  }

  ghost predicate Entitled(states: seq<Hub>, steps: seq<Step>, i: nat, n: nat, c: Claims, q: R.Request) {
    exists o: nat, j: nat :: EntitledAt(states, steps, o, j, i, n, c, q)
  }

  lemma ViewEntitles(states: seq<Hub>, steps: seq<Step>, o: nat, i: nat, n: nat, c: Claims, q: R.Request)
    requires IsRun(states, steps) && i < |states| && c.ws == q.ws
    requires OpenedAs(states, steps, o, n, c) && Viewed(states, steps, o, i, n, c.sub, q.target)
    ensures Entitled(states, steps, i, n, c, q)
  {
    var j: nat :| o < j < i && ViewedAt(states, steps, j, n, c.sub, q.target);
    PresenceIsVouched(states, steps, j, Place(c.sub, q.target));
    assert EntitledAt(states, steps, o, j, i, n, c, q);
  }

  /** The member a poll fetches for next was listed by that stream. */
  lemma DueIsViewed(states: seq<Hub>, steps: seq<Step>, i: nat) returns (o: nat)
    requires IsRun(states, steps) && i < |steps| && steps[i].FetchFor?
    ensures steps[i].n in states[i].tasks && states[i].tasks[steps[i].n].Streaming?
    ensures var (n, k) := (steps[i].n, steps[i].k);
            var t := states[i].tasks[n];
            && k < |t.polls| && t.polls[k].Fetching? && t.polls[k].due != [] && t.path == t.claims.ws
            && OpenedAs(states, steps, o, n, t.claims)
            && Viewed(states, steps, o, i, n, t.claims.sub, t.polls[k].due[0])
  {
    SoundRun(states, steps, i);
    assert Enabled(states[i], steps[i]);
    var n, k := steps[i].n, steps[i].k;
    var t := states[i].tasks[n];
    o :| TaskBy(states, steps, o, i, n, t);
    assert t.polls[k].due[0] in t.polls[k].due;
  }

  /** The step a hub takes on its relay, if any. */
  ghost function RelayStep(h: Hub, step: Step): Option<R.Step>
    requires Enabled(h, step)
  {
    match step
    case CheckDepth(n) => Some(R.Check(h.tasks[n].req))
    case FetchFor(n, k) => Some(R.Fetch(h.tasks[n].path, h.tasks[n].polls[k].due[0], R.DEFAULT_ACK_TIMEOUT_MS))
    case CommitAck(n) => Some(R.Ack(R.Key(h.tasks[n].path, h.tasks[n].member, h.tasks[n].env)))
    case Background(r) => Some(r)
    case _ => None
  }

  /** The hub drives its relay through the relay's own steps and nothing else. */
  lemma RelayDriven(h: Hub, step: Step)
    requires Enabled(h, step)
    ensures match RelayStep(h, step)
            case None => Next(h, step).relay == h.relay
            case Some(r) => R.Enabled(h.relay, r) && Next(h, step).relay == R.Apply(h.relay, r)
  {
  }

  /** A row is stamped as delivered only by a stream's fetch, for a token entitled to it. */
  lemma StreamedOnlyToHost(states: seq<Hub>, steps: seq<Step>, i: nat, r: nat)
    requires IsRun(states, steps) && i < |steps| && r < |states[i].relay.rows|
    requires states[i + 1].relay.rows[r].deliveredAt != states[i].relay.rows[r].deliveredAt
    ensures steps[i].FetchFor? && steps[i].n in states[i].tasks && states[i].tasks[steps[i].n].Streaming?
    ensures Entitled(states, steps, i, steps[i].n, states[i].tasks[steps[i].n].claims, states[i].relay.rows[r].req)
  {
    RelayDriven(states[i], steps[i]);
    var o := DueIsViewed(states, steps, i);
    ViewEntitles(states, steps, o, i, steps[i].n, states[i].tasks[steps[i].n].claims, states[i].relay.rows[r].req);
  }

  /** The batch of a stream's fetch contains only rows its token is entitled to. */
  lemma BatchOnlyEntitled(states: seq<Hub>, steps: seq<Step>, i: nat, r: R.Row)
    requires IsRun(states, steps) && i < |steps| && steps[i].FetchFor? && Enabled(states[i], steps[i])
    requires var t := states[i].tasks[steps[i].n]; r in Batch(states[i], t.path, t.polls[steps[i].k].due[0])
    ensures Entitled(states, steps, i, steps[i].n, states[i].tasks[steps[i].n].claims, r.req)
  {
    var o := DueIsViewed(states, steps, i);
    var t := states[i].tasks[steps[i].n];
    RD.BatchMember(states[i].relay, t.path, t.polls[steps[i].k].due[0], R.DEFAULT_ACK_TIMEOUT_MS, r);
    ViewEntitles(states, steps, o, i, steps[i].n, t.claims, r.req);
  }

  lemma AckEffect(h: Hub, step: Step, r: nat)
    requires Enabled(h, step) && r < |h.relay.rows|
    requires Next(h, step).relay.rows[r].status.Acked? && !h.relay.rows[r].status.Acked?
    ensures step.CommitAck?
    ensures var (t, q) := (h.tasks[step.n], h.relay.rows[r].req);
            t.AckGranted? && q.ws == t.path && q.target == t.member && q.env == t.env
  {
    RelayDriven(h, step);
  }

  /** A row is retired only by an acknowledgement under a token entitled to it. */
  lemma AckedOnlyByHost(states: seq<Hub>, steps: seq<Step>, i: nat, r: nat)
    requires IsRun(states, steps) && i < |steps| && r < |states[i].relay.rows|
    requires states[i + 1].relay.rows[r].status.Acked? && !states[i].relay.rows[r].status.Acked?
    ensures steps[i].CommitAck? && steps[i].n in states[i].tasks && states[i].tasks[steps[i].n].AckGranted?
    ensures var (t, q) := (states[i].tasks[steps[i].n], states[i].relay.rows[r].req);
            q.ws == t.path && q.target == t.member && q.env == t.env
    ensures Entitled(states, steps, i, steps[i].n, states[i].tasks[steps[i].n].claims, states[i].relay.rows[r].req)
  {
    assert Enabled(states[i], steps[i]) && states[i + 1] == Next(states[i], steps[i]);
    AckEffect(states[i], steps[i], r);
    GrantEntitles(states, steps, i, steps[i].n, states[i].relay.rows[r].req);
  }

  lemma GrantEntitles(states: seq<Hub>, steps: seq<Step>, i: nat, n: nat, q: R.Request)
    requires IsRun(states, steps) && i < |states| && n in states[i].tasks && states[i].tasks[n].AckGranted?
    requires q.ws == states[i].tasks[n].path && q.target == states[i].tasks[n].member
    ensures Entitled(states, steps, i, n, states[i].tasks[n].claims, q)
  {
    SoundRun(states, steps, i);
    var t := states[i].tasks[n];
    var o: nat :| TaskBy(states, steps, o, i, n, t);
    ViewEntitles(states, steps, o, i, n, t.claims, q);
  }

  /** An envelope is checked for admission only by a handler opened under a token of its
      workspace that found its target there; it names an originator and carries posted text. */
  lemma AdmittedOnlyToMembers(states: seq<Hub>, steps: seq<Step>, i: nat) returns (o: nat)
    requires IsRun(states, steps) && i < |steps| && steps[i].CheckDepth?
    ensures steps[i].n in states[i].tasks && states[i].tasks[steps[i].n].Admitting?
    ensures var t := states[i].tasks[steps[i].n];
            && o < i && OpenedAs(states, steps, o, steps[i].n, t.claims) && t.req.ws == t.claims.ws
                && RA.FromCaller(t.req)
            && Found(states, steps, o, i, steps[i].n, t.req.ws, t.req.target)
  {
    SoundRun(states, steps, i);
    assert Enabled(states[i], steps[i]);
    o :| TaskBy(states, steps, o, i, steps[i].n, states[i].tasks[steps[i].n]);
  }
}

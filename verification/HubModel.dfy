/**
 * The hub's envelope, stream and acknowledgement routes over the presence, member and relay
 * tables, one step per SQL statement, any number of handlers interleaving.
 */
module HubModel {
  import opened Util
  import R = RelayModel

  // ----- Tables -----

  /** What verify() hands the routes; jti identifies the token for revocation. */
  datatype Claims = Claims(sub: string, ws: string, jti: string)

  datatype Member = Member(ws: string, id: string)

  /** Presence is keyed by machine and member, not by workspace. */
  datatype Place = Place(machine: string, member: string)

  datatype Announced = Announced(member: string, status: string)

  datatype Presence = Presence(status: string, lastSeen: int)

  // ----- Envelopes -----

  function DefaultTtl(kind: string): Option<nat> {
    match kind
    case "execute_command.request" => Some(30000)
    case "execute_command.result" => Some(60000)
    case "execute_command.long_running_update" => Some(60000)
    case "send_message.deliver" => Some(15000)
    case "send_message.ack" => Some(15000)
    case "execute_prompt.request" => Some(30000)
    case "execute_prompt.result" => Some(120000)
    case "event.broadcast" => Some(5000)
    case "file_transfer.chunk" => Some(30000)
    case "file_transfer.result" => Some(60000)
    case _ => None
  }

  /** A payload's JSON text and its length in bytes. */
  datatype Json = Json(text: string, bytes: nat)

  /** An envelope as posted; a payload that is absent cannot be serialised. members is the
      announce payload's list. */
  datatype Envelope = Envelope(id: string, ws: string, kind: string, from: Option<string>, to: Option<string>,
                               ttl: Option<int>, correlation: Option<string>, payload: Option<Json>,
                               members: seq<Announced>)

  predicate IsPresence(kind: string) { kind == "presence.announce" || kind == "presence.heartbeat" }

  predicate Given(id: Option<string>) { id.Some? && id.value != "" }

  function RequestFor(c: Claims, env: Envelope): R.Request
    requires Given(env.to) && env.payload.Some? && DefaultTtl(env.kind).Some?
  {
    R.Request(c.ws, env.to.value, env.id, env.kind, R.Submitted(env.payload.value.text, env.payload.value.bytes),
              if env.ttl.Some? then env.ttl.value else DefaultTtl(env.kind).value,
              Some(if env.from.Some? then env.from.value else c.sub), env.correlation)
  }

  /** The request is the envelope's, submitted under the token c. */
  predicate Carries(c: Claims, e: Envelope, q: R.Request) {
    && q.ws == c.ws && e.to == Some(q.target) && q.env == e.id && q.kind == e.kind
    && e.payload.Some? && q.payload == R.Submitted(e.payload.value.text, e.payload.value.bytes)
    && (e.ttl == Some(q.ttl) || (e.ttl == None && DefaultTtl(e.kind).Some? && DefaultTtl(e.kind).value == q.ttl))
    && (if e.from.Some? then q.origin == e.from else q.origin == Some(c.sub))
    && q.correlation == e.correlation
  }

  // ----- Handlers in progress -----

  /** One poll of a stream: begun but not yet listed, or with members still to fetch for. */
  datatype Poll = Starting | Fetching(due: seq<string>)

  datatype Task =
    /** presence.announce (full) or presence.heartbeat: members still to be looked up, and found. */
    | Announcing(claims: Claims, full: bool, todo: seq<Announced>, found: seq<Announced>)
    /** The upserts left. */
    | Writing(claims: Claims, todo: seq<Announced>)
    /** A relay envelope before its target is looked up, and after. */
    | Submitting(claims: Claims, envelope: Envelope)
    | Admitting(claims: Claims, req: R.Request)
    /** A stream and its polls; closed stops further polls and the writing of the running ones. */
    | Streaming(claims: Claims, path: string, polls: seq<Poll>, closed: bool)
    /** An acknowledgement before and after the hosting check. */
    | AckAsked(claims: Claims, path: string, member: string, env: string)
    | AckGranted(claims: Claims, path: string, member: string, env: string)
    /** Answered. */
    | Done(claims: Claims)

  datatype Hub = Hub(relay: R.State, members: set<Member>, presence: map<Place, Presence>,
                     revoked: set<string>, tasks: map<nat, Task>)

  // ----- Routes -----

  datatype Step =
    | AddMember(row: Member)
    | DropMember(row: Member)
    | Revoke(jti: string)
    /** A request arrives with a bearer token for /ws/<path>/...; n names its handler. */
    | OpenEnvelope(n: nat, token: Option<Claims>, path: string, envelope: Envelope)
    | OpenStream(n: nat, token: Option<Claims>, path: string)
    | OpenAck(n: nat, token: Option<Claims>, path: string, member: string, env: string)
    /** The statements of the handlers. */
    | LookUp(n: nat)                                // getMember for the next announced member
    | DeleteStale(n: nat)                           // DELETE of a full announce; a heartbeat has none
    | Upsert(n: nat)                                // one INSERT ... ON CONFLICT DO UPDATE
    | ResolveTarget(n: nat)                         // getMember for a relay envelope's target
    | CheckDepth(n: nat)                            // enqueue's first statement
    | StartPoll(n: nat)                             // the timer, or the first poll
    | ListHosted(n: nat, k: nat, listed: seq<string>)   // poll k's listForMachine, in some order
    | FetchFor(n: nat, k: nat)                      // poll k's next fetchDeliverable
    | Close(n: nat)
    | CheckHosted(n: nat)                           // the ack route's listForMachine
    | CommitAck(n: nat)
    /** The clock, inserts of admissions in flight, and the sweep. */
    | Background(step: R.Step)

  /** The bearer token must verify, name the path's workspace and not be revoked. */
  function Authorize(h: Hub, token: Option<Claims>, path: string): Option<Claims> {
    if token.None? || token.value.ws != path || token.value.jti in h.revoked then None else token
  }

  function HostedBy(h: Hub, machine: string): set<string> {
    set p | p in h.presence && p.machine == machine :: p.member
  }

  /** listed is the machine's view, each member once. */
  ghost predicate Lists(h: Hub, machine: string, listed: seq<string>) {
    && (forall m :: m in listed <==> Place(machine, m) in h.presence)
    && (forall i, j :: 0 <= i < j < |listed| ==> listed[i] != listed[j])
  }

  ghost predicate Enabled(h: Hub, step: Step) {
    match step
    case AddMember(_) => true
    case DropMember(_) => true
    case Revoke(_) => true
    case OpenEnvelope(n, token, path, _) => n !in h.tasks
    case OpenStream(n, token, path) => n !in h.tasks
    case OpenAck(n, token, path, _, _) => n !in h.tasks
    case LookUp(n) => n in h.tasks && h.tasks[n].Announcing? && h.tasks[n].todo != []
    case DeleteStale(n) => n in h.tasks && h.tasks[n].Announcing? && h.tasks[n].todo == []
    case Upsert(n) => n in h.tasks && h.tasks[n].Writing? && h.tasks[n].todo != []
    case ResolveTarget(n) => n in h.tasks && h.tasks[n].Submitting?
    case CheckDepth(n) => n in h.tasks && h.tasks[n].Admitting?
    case StartPoll(n) => n in h.tasks && h.tasks[n].Streaming? && !h.tasks[n].closed
    case ListHosted(n, k, listed) =>
      n in h.tasks && h.tasks[n].Streaming? && k < |h.tasks[n].polls| && h.tasks[n].polls[k].Starting?
      && Lists(h, h.tasks[n].claims.sub, listed)
    case FetchFor(n, k) =>
      n in h.tasks && h.tasks[n].Streaming? && k < |h.tasks[n].polls| && h.tasks[n].polls[k].Fetching?
      && h.tasks[n].polls[k].due != []
    case Close(n) => n in h.tasks && h.tasks[n].Streaming?
    case CheckHosted(n) => n in h.tasks && h.tasks[n].AckAsked?
    case CommitAck(n) => n in h.tasks && h.tasks[n].AckGranted?
    case Background(r) => (r.Tick? || r.Insert? || r.CheckJob? || r.Sweep?) && R.Enabled(h.relay, r)
  }

  /** What submitEnvelope dispatches to; None when it answers at once. */
  function Dispatch(c: Claims, env: Envelope): Option<Task> {
    if env.ws != c.ws then None
    else if env.kind == "presence.announce" then Some(Announcing(c, true, env.members, []))
    else if env.kind == "presence.heartbeat" then
      Some(Announcing(c, false, if Given(env.from) then [Announced(env.from.value, "online")] else [], []))
    else if DefaultTtl(env.kind).Some? && Given(env.to) then Some(Submitting(c, env))
    else None
  }

  /** A running poll goes on to its next member, unless it has something to write and cannot. */
  function AfterFetch(due: seq<string>, closed: bool, batch: seq<R.Row>): Poll
    requires due != []
  {
    Fetching(if closed && batch != [] then [] else due[1..])
  }

  function Batch(h: Hub, path: string, member: string): seq<R.Row> {
    R.Batch(h.relay, path, member, R.DEFAULT_ACK_TIMEOUT_MS)
  }

  ghost function Next(h: Hub, step: Step): Hub
    requires Enabled(h, step)
  {
    match step
    case AddMember(m) => h.(members := h.members + {m})
    case DropMember(m) => h.(members := h.members - {m})
    case Revoke(jti) => h.(revoked := h.revoked + {jti})
    case OpenEnvelope(n, token, path, env) =>
      if Authorize(h, token, path).None? || Dispatch(token.value, env).None? then h
      else h.(tasks := h.tasks[n := Dispatch(token.value, env).value])
    case OpenStream(n, token, path) =>
      if Authorize(h, token, path).None? then h
      else h.(tasks := h.tasks[n := Streaming(token.value, path, [], false)])
    case OpenAck(n, token, path, member, env) =>
      if Authorize(h, token, path).None? then h
      else h.(tasks := h.tasks[n := AckAsked(token.value, path, member, env)])
    case LookUp(n) =>
      var t := h.tasks[n];
      var m := t.todo[0];
      var found := if Member(t.claims.ws, m.member) in h.members then t.found + [m] else t.found;
      h.(tasks := h.tasks[n := Announcing(t.claims, t.full, t.todo[1..], found)])
    case DeleteStale(n) =>
      var t := h.tasks[n];
      h.(presence := if t.full then Without(h.presence, t.claims.sub, t.found) else h.presence,
         tasks := h.tasks[n := Writing(t.claims, t.found)])
    case Upsert(n) =>
      var t := h.tasks[n];
      h.(presence := h.presence[Place(t.claims.sub, t.todo[0].member) := Presence(t.todo[0].status, h.relay.now)],
         tasks := h.tasks[n := Writing(t.claims, t.todo[1..])])
    case ResolveTarget(n) =>
      var t := h.tasks[n];
      h.(tasks := h.tasks[n := Resolved(h.members, t.claims, t.envelope)])
    case CheckDepth(n) =>
      var t := h.tasks[n];
      h.(relay := R.Apply(h.relay, R.Check(t.req)), tasks := h.tasks[n := Done(t.claims)])
    case StartPoll(n) =>
      var t := h.tasks[n];
      h.(tasks := h.tasks[n := t.(polls := t.polls + [Starting])])
    case ListHosted(n, k, listed) =>
      var t := h.tasks[n];
      h.(tasks := h.tasks[n := t.(polls := t.polls[k := Fetching(listed)])])
    case FetchFor(n, k) =>
      var t := h.tasks[n];
      var due := t.polls[k].due;
      h.(relay := R.Apply(h.relay, R.Fetch(t.path, due[0], R.DEFAULT_ACK_TIMEOUT_MS)),
         tasks := h.tasks[n := t.(polls := t.polls[k := AfterFetch(due, t.closed, Batch(h, t.path, due[0]))])])
    case Close(n) => h.(tasks := h.tasks[n := h.tasks[n].(closed := true)])
    case CheckHosted(n) =>
      var t := h.tasks[n];
      h.(tasks := h.tasks[n := if Place(t.claims.sub, t.member) in h.presence
                               then AckGranted(t.claims, t.path, t.member, t.env) else Done(t.claims)])
    case CommitAck(n) =>
      var t := h.tasks[n];
      h.(relay := R.Apply(h.relay, R.Ack(R.Key(t.path, t.member, t.env))), tasks := h.tasks[n := Done(t.claims)])
    case Background(r) => h.(relay := R.Apply(h.relay, r))
  }

  /** A target that does not resolve is refused, a payload that is absent is an internal error. */
  function Resolved(members: set<Member>, c: Claims, env: Envelope): Task {
    if Given(env.to) && Member(c.ws, env.to.value) in members && env.payload.Some? && DefaultTtl(env.kind).Some?
    then Admitting(c, RequestFor(c, env)) else Done(c)
  }

  function Names(ms: seq<Announced>): set<string> { set i | 0 <= i < |ms| :: ms[i].member }

  /** DELETE FROM presence WHERE machine_id = machine AND member_id not among the kept. */
  function Without(presence: map<Place, Presence>, machine: string, kept: seq<Announced>): map<Place, Presence> {
    map p | p in presence && (p.machine == machine ==> p.member in Names(kept)) :: presence[p]
  }

  function Init(now: int): Hub { Hub(R.Init(now), {}, map[], {}, map[]) }

  // ----- Runs -----

  /** states[0] is the empty hub; each step is enabled and leads to the next state. */
  ghost predicate IsRun(states: seq<Hub>, steps: seq<Step>) {
    && |states| == |steps| + 1
    && (exists t :: states[0] == Init(t))
    && forall i :: 0 <= i < |steps| ==> Enabled(states[i], steps[i]) && states[i + 1] == Next(states[i], steps[i])
  }

  lemma RunStep(states: seq<Hub>, steps: seq<Step>, i: nat)
    requires IsRun(states, steps) && i < |steps|
    ensures Enabled(states[i], steps[i]) && states[i + 1] == Next(states[i], steps[i])
  {
  }
}

/** The handlers of the service, each run to its end without interruption, are runs of the hub. */
module HubSequential {
  import opened Util
  import opened HubModel
  import opened HubService
  import R = RelayModel
  import RelayService

  ghost predicate Reached(h: Hub) {
    exists states, steps :: IsRun(states, steps) && states[|steps|] == h
  }

  lemma ReachedInit(t: int)
    ensures Reached(Init(t))
  {
    assert IsRun([Init(t)], []);
  }

  lemma Onward(h: Hub, step: Step) returns (next: Hub)
    requires Reached(h) && Enabled(h, step)
    ensures Reached(next) && next == Next(h, step)
  {
    var states, steps :| IsRun(states, steps) && states[|steps|] == h;
    next := Next(h, step);
    var more, all := states + [next], steps + [step];
    forall i | 0 <= i < |all| ensures Enabled(more[i], all[i]) && more[i + 1] == Next(more[i], all[i]) {
      if i < |steps| {
        RunStep(states, steps, i);
        assert more[i] == states[i] && all[i] == steps[i] && more[i + 1] == states[i + 1];
      }
    }
    assert more[0] == states[0];
    assert IsRun(more, all) && more[|all|] == next;
  }

  // ----- Presence -----

  /** The look-ups of an announce. */
  lemma {:induction false} LookUps(h: Hub, n: nat, c: Claims, full: bool, todo: seq<Announced>, found: seq<Announced>)
    returns (next: Hub)
    requires Reached(h) && n in h.tasks && h.tasks[n] == Announcing(c, full, todo, found)
    ensures Reached(next)
    ensures next == h.(tasks := h.tasks[n := Announcing(c, full, [], found + Verified(todo, h.members, c.ws))])
    decreases |todo|
  {
    if todo == [] {
      next := h;
      assert found + [] == found;
    } else {
      next := OneLookUp(h, n, c, full, todo, found);
      VerifiedNext(todo, h.members, c.ws, found);
      next := LookUps(next, n, c, full, todo[1..], found + Verified(todo[..1], h.members, c.ws));
    }
  }

  lemma OneLookUp(h: Hub, n: nat, c: Claims, full: bool, todo: seq<Announced>, found: seq<Announced>)
    returns (next: Hub)
    requires Reached(h) && n in h.tasks && h.tasks[n] == Announcing(c, full, todo, found) && todo != []
    ensures Reached(next)
    ensures next == h.(tasks := h.tasks[n := Announcing(c, full, todo[1..],
            found + Verified(todo[..1], h.members, c.ws))])
  {
    next := Onward(h, LookUp(n));
    VerifiedOne(todo[0], h.members, c.ws);
    assert todo[..1] == [todo[0]];
    assert found + [] == found;
  }

  lemma VerifiedOne(m: Announced, members: set<Member>, ws: string)
    ensures Verified([m], members, ws) == if Member(ws, m.member) in members then [m] else []
  {
    FilterSnoc([], m, (x: Announced) => Member(ws, x.member) in members);
    assert [] + [m] == [m];
  }

  lemma VerifiedNext(todo: seq<Announced>, members: set<Member>, ws: string, found: seq<Announced>)
    requires todo != []
    ensures (found + Verified(todo[..1], members, ws)) + Verified(todo[1..], members, ws)
            == found + Verified(todo, members, ws)
  {
    FilterConcat(todo[..1], todo[1..], (x: Announced) => Member(ws, x.member) in members);
    assert todo == todo[..1] + todo[1..];
  }

  /** Its upserts. */
  lemma {:induction false} Upserts(h: Hub, n: nat, c: Claims, todo: seq<Announced>) returns (next: Hub)
    requires Reached(h) && n in h.tasks && h.tasks[n] == Writing(c, todo)
    ensures Reached(next)
    ensures next == h.(presence := UpsertAll(h.presence, c.sub, todo, h.relay.now),
            tasks := h.tasks[n := Writing(c, [])])
    decreases |todo|
  {
    if todo == [] {
      next := h;
    } else {
      UpsertNext(h.presence, c.sub, todo, h.relay.now);
      next := OneUpsert(h, n, c, todo);
      next := Upserts(next, n, c, todo[1..]);
    }
  }

  function Put(presence: map<Place, Presence>, machine: string, m: Announced, now: int): map<Place, Presence> {
    presence[Place(machine, m.member) := Presence(m.status, now)]
  }

  lemma OneUpsert(h: Hub, n: nat, c: Claims, todo: seq<Announced>) returns (next: Hub)
    requires Reached(h) && n in h.tasks && h.tasks[n] == Writing(c, todo) && todo != []
    ensures Reached(next)
    ensures next == h.(presence := Put(h.presence, c.sub, todo[0], h.relay.now),
            tasks := h.tasks[n := Writing(c, todo[1..])])
  {
    next := Onward(h, Upsert(n));
  }

  lemma {:induction false} UpsertNext(presence: map<Place, Presence>, machine: string, todo: seq<Announced>, now: int)
    requires todo != []
    ensures UpsertAll(presence, machine, todo, now)
            == UpsertAll(Put(presence, machine, todo[0], now), machine, todo[1..], now)
    decreases |todo|
  {
    if |todo| > 1 {
      var front := todo[..|todo| - 1];
      UpsertNext(presence, machine, front, now);
      assert todo[1..][..|todo| - 2] == front[1..];
    } else {
      assert todo[..0] == [] && todo[1..] == [];
    }
  }

  /** The members a presence envelope speaks of. */
  function Mentioned(env: Envelope): seq<Announced> {
    if env.kind == "presence.announce" then env.members
    else if Given(env.from) then [Announced(env.from.value, "online")] else []
  }

  lemma OpenPresence(h: Hub, n: nat, c: Claims, path: string, env: Envelope, full: bool) returns (next: Hub)
    requires Reached(h) && n !in h.tasks && Authorize(h, Some(c), path) == Some(c) && env.ws == c.ws
             && IsPresence(env.kind)
    requires full <==> env.kind == "presence.announce"
    ensures Reached(next) && next == h.(tasks := h.tasks[n := Announcing(c, full, Mentioned(env), [])])
  {
    assert Dispatch(c, env) == Some(Announcing(c, full, Mentioned(env), []));
    next := Onward(h, OpenEnvelope(n, Some(c), path, env));
  }

  lemma PresenceOn(h: Hub, n: nat, c: Claims, full: bool, todo: seq<Announced>) returns (next: Hub)
    requires Reached(h) && n in h.tasks && h.tasks[n] == Announcing(c, full, todo, [])
    ensures Reached(next)
    ensures var found := Verified(todo, h.members, c.ws);
            next.presence == UpsertAll(if full then Without(h.presence, c.sub, found) else h.presence, c.sub, found,
                h.relay.now)
    ensures next.relay == h.relay && next.members == h.members && next.revoked == h.revoked
  {
    var looked := LookUps(h, n, c, full, todo, []);
    var found := Verified(todo, h.members, c.ws);
    assert [] + found == found;
    next := DeleteAndUpsert(looked, n, c, full, found);
  }

  /** handlePresence, announce or heartbeat. */
  lemma PresenceIsRun(h: Hub, n: nat, c: Claims, path: string, env: Envelope) returns (next: Hub)
    requires Reached(h) && n !in h.tasks && Authorize(h, Some(c), path) == Some(c) && env.ws == c.ws
             && IsPresence(env.kind)
    ensures Reached(next)
    ensures next.presence == AfterPresence(h.presence, h.members, c, env, h.relay.now)
    ensures next.relay == h.relay && next.members == h.members && next.revoked == h.revoked
  {
    var full := env.kind == "presence.announce";
    var asked := OpenPresence(h, n, c, path, env, full);
    next := PresenceOn(asked, n, c, full, Mentioned(env));
    if !full {
      HeartbeatList(h, c, env);
    }
  }

  lemma DeleteAndUpsert(h: Hub, n: nat, c: Claims, full: bool, found: seq<Announced>) returns (next: Hub)
    requires Reached(h) && n in h.tasks && h.tasks[n] == Announcing(c, full, [], found)
    ensures Reached(next)
    ensures next.presence == UpsertAll(if full then Without(h.presence, c.sub, found) else h.presence, c.sub, found,
            h.relay.now)
    ensures next.relay == h.relay && next.members == h.members && next.revoked == h.revoked
  {
    next := Onward(h, DeleteStale(n));
    next := Upserts(next, n, c, found);
  }

  /** A heartbeat is an announce of one member that deletes nothing. */
  lemma HeartbeatList(h: Hub, c: Claims, env: Envelope)
    requires env.kind != "presence.announce"
    ensures AfterPresence(h.presence, h.members, c, env, h.relay.now)
            == UpsertAll(h.presence, c.sub, Verified(Mentioned(env), h.members, c.ws), h.relay.now)
  {
    if Given(env.from) {
      var m := Announced(env.from.value, "online");
      VerifiedOne(m, h.members, c.ws);
      assert [m][..0] == [];
      assert UpsertAll(h.presence, c.sub, [m], h.relay.now) == Put(h.presence, c.sub, m, h.relay.now);
    }
  }

  // ----- Relay envelopes -----

  /** handleRelay of an envelope whose target resolves and whose payload is there. */
  lemma RelayIsRun(h: Hub, n: nat, c: Claims, path: string, env: Envelope) returns (next: Hub)
    requires Reached(h) && n !in h.tasks && Authorize(h, Some(c), path) == Some(c) && env.ws == c.ws
    requires !IsPresence(env.kind) && DefaultTtl(env.kind).Some? && TargetOk(h.members, c, env) && env.payload.Some?
    requires h.relay.checked == []
    ensures Reached(next)
    ensures var q := RequestFor(c, env);
            && RelayService.TableOf(next.relay) == RelayService.Admit(RelayService.TableOf(h.relay), q, h.relay.now).0
            && next.relay.now == h.relay.now && next.relay.checked == [] && next.relay.jobs == h.relay.jobs
    ensures next.presence == h.presence && next.members == h.members && next.revoked == h.revoked
  {
    var q := RequestFor(c, env);
    var resolved := ResolvedTarget(h, n, c, path, env);
    next := Onward(resolved, CheckDepth(n));
    AdmitApplied(h.relay, q);
    if !R.Full(h.relay.rows, q) {
      next := Onward(next, Background(R.Insert(q)));
    }
  }

  lemma ResolvedTarget(h: Hub, n: nat, c: Claims, path: string, env: Envelope) returns (next: Hub)
    requires Reached(h) && n !in h.tasks && Authorize(h, Some(c), path) == Some(c) && env.ws == c.ws
    requires !IsPresence(env.kind) && DefaultTtl(env.kind).Some? && TargetOk(h.members, c, env) && env.payload.Some?
    ensures Reached(next) && next == h.(tasks := h.tasks[n := Admitting(c, RequestFor(c, env))])
  {
    var asked := Onward(h, OpenEnvelope(n, Some(c), path, env));
    next := Onward(asked, ResolveTarget(n));
  }

  lemma AdmitApplied(s: R.State, q: R.Request)
    requires s.checked == []
    ensures var t := R.Apply(s, R.Check(q));
            if R.Full(s.rows, q) then t.rows == s.rows && t.nextId == s.nextId && t.checked == []
            else
              && t.checked == [q]
              && var u := R.Apply(t, R.Insert(q));
                 RelayService.TableOf(u) == RelayService.Admit(RelayService.TableOf(s), q, s.now).0 && u.checked == []
  {
    assert RemoveFirst([q], q) == [];
  }

  // ----- Acknowledgements -----

  lemma AskAck(h: Hub, n: nat, c: Claims, path: string, member: string, env: string) returns (next: Hub)
    requires Reached(h) && n !in h.tasks && Authorize(h, Some(c), path) == Some(c)
    ensures Reached(next) && next == h.(tasks := h.tasks[n := AckAsked(c, path, member, env)])
  {
    next := Onward(h, OpenAck(n, Some(c), path, member, env));
  }

  lemma GrantAck(h: Hub, n: nat, c: Claims, path: string, member: string, env: string) returns (next: Hub)
    requires Reached(h) && n in h.tasks && h.tasks[n] == AckAsked(c, path, member, env)
    ensures Reached(next)
    ensures next == h.(tasks := h.tasks[n := if Place(c.sub, member) in h.presence
                                             then AckGranted(c, path, member, env) else Done(c)])
  {
    next := Onward(h, CheckHosted(n));
  }

  /** The ack route behind its bearer check. */
  lemma AckIsRun(h: Hub, n: nat, c: Claims, path: string, member: string, env: string) returns (next: Hub)
    requires Reached(h) && n !in h.tasks && Authorize(h, Some(c), path) == Some(c)
    ensures Reached(next)
    ensures next.relay.rows == if Place(c.sub, member) in h.presence
                               then Map(h.relay.rows, R.AckRow(h.relay.now, R.Key(path, member, env))) else h.relay.rows
    ensures next.presence == h.presence && next.members == h.members && next.revoked == h.revoked
  {
    var asked := AskAck(h, n, c, path, member, env);
    next := GrantAck(asked, n, c, path, member, env);
    if Place(c.sub, member) in h.presence {
      next := RetireRow(next, n, c, path, member, env);
    }
  }

  lemma RetireRow(h: Hub, n: nat, c: Claims, path: string, member: string, env: string) returns (next: Hub)
    requires Reached(h) && n in h.tasks && h.tasks[n] == AckGranted(c, path, member, env)
    ensures Reached(next)
    ensures next == h.(relay := R.Apply(h.relay, R.Ack(R.Key(path, member, env))), tasks := h.tasks[n := Done(c)])
  {
    next := Onward(h, CommitAck(n));
  }

  // ----- Polls -----

  /** The poll has reached i of the listed members. */
  ghost predicate PollAt(was: Hub, h: Hub, n: nat, k: nat, listed: seq<string>, i: nat, closed: bool) {
    && i <= |listed| && n in was.tasks && was.tasks[n].Streaming?
    && n in h.tasks && h.tasks[n].Streaming? && k < |h.tasks[n].polls| && h.tasks[n].polls[k] == Fetching(listed[i..])
    && h.tasks[n].path == was.tasks[n].path && h.tasks[n].claims == was.tasks[n].claims && h.tasks[n].closed == closed
    && h.relay == was.relay.(rows := FetchAll(was.relay.rows, was.tasks[n].path, listed[..i], was.relay.now))
    && h.presence == was.presence && h.members == was.members
  }

  lemma FetchTurn(was: Hub, h: Hub, n: nat, k: nat, listed: seq<string>, i: nat, closed: bool) returns (next: Hub)
    requires Reached(h) && PollAt(was, h, n, k, listed, i, closed) && i < |listed|
    ensures Reached(next)
    ensures var fetched := BatchOf(h.relay.rows, was.tasks[n].path, listed[i], was.relay.now);
            if closed && fetched != [] then PollDone(was, next, n, k, listed, i + 1)
            else PollAt(was, next, n, k, listed, i + 1, closed)
  {
    var t := h.tasks[n];
    next := Onward(h, FetchFor(n, k));
    assert listed[i..][0] == listed[i] && listed[i..][1..] == listed[i + 1..];
    assert listed[..i + 1][..i] == listed[..i];
    BatchSame(h.relay, t.path, listed[i]);
    assert next.relay == R.Apply(h.relay, R.Fetch(t.path, listed[i], R.DEFAULT_ACK_TIMEOUT_MS));
  }

  lemma BatchSame(s: R.State, ws: string, target: string)
    ensures R.Batch(s, ws, target, R.DEFAULT_ACK_TIMEOUT_MS) == BatchOf(s.rows, ws, target, s.now)
  {
  }

  /** The poll is over after reaching i of the listed members. */
  ghost predicate PollDone(was: Hub, h: Hub, n: nat, k: nat, listed: seq<string>, i: nat) {
    && i <= |listed| && n in was.tasks && was.tasks[n].Streaming?
    && n in h.tasks && h.tasks[n].Streaming? && k < |h.tasks[n].polls| && h.tasks[n].polls[k] == Fetching([])
    && h.relay == was.relay.(rows := FetchAll(was.relay.rows, was.tasks[n].path, listed[..i], was.relay.now))
    && h.presence == was.presence && h.members == was.members
  }

  /** The fetches from member i on, with the connection closing before the answer to fetch closeAt. */
  lemma {:induction false} Fetches(was: Hub, h: Hub, n: nat, k: nat, listed: seq<string>, i: nat, closeAt: nat)
    returns (next: Hub)
    requires Reached(h) && PollAt(was, h, n, k, listed, i, i > closeAt)
    ensures Reached(next)
    ensures PollDone(was, next, n, k, listed,
            Reach(was.relay.rows, was.tasks[n].path, listed, was.relay.now, closeAt, i))
    decreases |listed| - i
  {
    if i == |listed| {
      next := h;
      assert listed[i..] == [];
    } else {
      next := h;
      if i == closeAt {
        next := Onward(h, Close(n));
        assert PollAt(was, next, n, k, listed, i, true);
      }
      next := FetchTurn(was, next, n, k, listed, i, i >= closeAt);
      if i < closeAt || BatchOf(h.relay.rows, was.tasks[n].path, listed[i], was.relay.now) == [] {
        next := Fetches(was, next, n, k, listed, i + 1, closeAt);
      }
    }
  }

  /** A poll of an open stream reaches the members the service's poll reaches, and leaves its rows. */
  lemma PollIsRun(h: Hub, n: nat, listed: seq<string>, closeAt: nat) returns (next: Hub)
    requires Reached(h) && n in h.tasks && h.tasks[n].Streaming? && !h.tasks[n].closed
    requires Lists(h, h.tasks[n].claims.sub, listed)
    ensures Reached(next)
    ensures var reach := Reach(h.relay.rows, h.tasks[n].path, listed, h.relay.now, closeAt, 0);
            next.relay.rows == FetchAll(h.relay.rows, h.tasks[n].path, listed[..reach], h.relay.now)
    ensures next.presence == h.presence && next.members == h.members
  {
    var k := |h.tasks[n].polls|;
    next := Onward(h, StartPoll(n));
    next := Onward(next, ListHosted(n, k, listed));
    assert listed[0..] == listed && listed[..0] == [];
    assert PollAt(h, next, n, k, listed, 0, false);
    next := Fetches(h, next, n, k, listed, 0, closeAt);
  }
}

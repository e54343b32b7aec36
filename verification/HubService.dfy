/** The presence functions and the envelope, stream and ack handlers, each run to its end. */
module HubService {
  import opened Util
  import opened HubModel
  import R = RelayModel
  import RD = RelayDelivery
  import RelayService
  import opened RelayStatements

  // ----- Presence on values -----

  function Verified(list: seq<Announced>, members: set<Member>, ws: string): seq<Announced> {
    Filter(list, (m: Announced) => Member(ws, m.member) in members)
  }

  function UpsertAll(presence: map<Place, Presence>, machine: string, list: seq<Announced>,
                     now: int): map<Place, Presence> {
    if list == [] then presence
    else
      var last := list[|list| - 1];
      UpsertAll(presence, machine, list[..|list| - 1], now)[Place(machine, last.member) := Presence(last.status, now)]
  }

  function Snapshot(presence: map<Place, Presence>, machine: string, list: seq<Announced>,
                    now: int): map<Place, Presence> {
    UpsertAll(Without(presence, machine, list), machine, list, now)
  }

  /** The status a list gives a member: its last mention wins. */
  function LastStatus(list: seq<Announced>, member: string): string
    requires member in Names(list)
  {
    var last := list[|list| - 1];
    if last.member == member then last.status else LastStatus(list[..|list| - 1], member)
  }

  lemma {:induction false} UpsertAllEffect(presence: map<Place, Presence>, machine: string, list: seq<Announced>,
                                           now: int, p: Place)
    ensures var after := UpsertAll(presence, machine, list, now);
            if p.machine == machine && p.member in Names(list)
            then p in after && after[p] == Presence(LastStatus(list, p.member), now)
            else (p in after <==> p in presence) && (p in presence ==> after[p] == presence[p])
  {
    if list != [] {
      var front, last := list[..|list| - 1], list[|list| - 1];
      UpsertAllEffect(presence, machine, front, now, p);
      assert p.member in Names(list) <==> p.member in Names(front) || p.member == last.member by {
        if p.member in Names(front) {
          var i :| 0 <= i < |front| && front[i].member == p.member;
          assert list[i].member == p.member;
        }
        if p.member == last.member { assert list[|front|].member == p.member; }
        if i :| 0 <= i < |list| && list[i].member == p.member {
          if i < |front| { assert front[i].member == p.member; }
        }
      }
    }
  }

  /** A snapshot makes the machine's view exactly the list, each member with its last mentioned
      status, and leaves the other machines alone. */
  lemma SnapshotExact(presence: map<Place, Presence>, machine: string, list: seq<Announced>, now: int, p: Place)
    ensures var after := Snapshot(presence, machine, list, now);
            if p.machine == machine
            then (p in after <==> p.member in Names(list))
                 && (p in after ==> after[p] == Presence(LastStatus(list, p.member), now))
            else (p in after <==> p in presence) && (p in after ==> after[p] == presence[p])
  {
    UpsertAllEffect(Without(presence, machine, list), machine, list, now, p);
  }

  /** The verified list names exactly the announced members of the workspace. */
  lemma VerifiedNames(list: seq<Announced>, members: set<Member>, ws: string, id: string)
    ensures id in Names(Verified(list, members, ws)) <==> id in Names(list) && Member(ws, id) in members
  {
    var p := (m: Announced) => Member(ws, m.member) in members;
    var v := Verified(list, members, ws);
    if i :| 0 <= i < |v| && v[i].member == id {
      FilterMember(list, p, v[i]);
      var j :| 0 <= j < |list| && list[j] == v[i];
      assert list[j].member == id;
    }
    if Member(ws, id) in members {
      if j :| 0 <= j < |list| && list[j].member == id {
        FilterMember(list, p, list[j]);
        var i :| 0 <= i < |v| && v[i] == list[j];
        assert v[i].member == id;
      }
    }
  }

  function AfterPresence(presence: map<Place, Presence>, members: set<Member>, c: Claims, env: Envelope,
                         now: int): map<Place, Presence> {
    if env.kind == "presence.announce" then Snapshot(presence, c.sub, Verified(env.members, members, c.ws), now)
    else if Given(env.from) && Member(c.ws, env.from.value) in members
    then presence[Place(c.sub, env.from.value) := Presence("online", now)]
    else presence
  }

  // ----- Relay admission on values -----

  predicate TargetOk(members: set<Member>, c: Claims, env: Envelope) {
    Given(env.to) && Member(c.ws, env.to.value) in members
  }

  /** A stored envelope always names an originator: the sender's member or its machine. */
  lemma AlwaysNamed(c: Claims, env: Envelope)
    requires Given(env.to) && env.payload.Some? && DefaultTtl(env.kind).Some?
    ensures RequestFor(c, env).origin.Some? && RequestFor(c, env).ws == c.ws
    ensures R.FailureResultKind(env.kind).Some? ==>
              (R.OwesAnswer(RequestFor(c, env)) <==> (if env.from.Some? then env.from.value else c.sub) != "")
  {
  }

  /** Whether the depth query alone already fills the inbox. */
  predicate DepthFull(rows: seq<R.Row>, c: Claims, env: Envelope)
    requires Given(env.to) && DefaultTtl(env.kind).Some?
  {
    |Filter(rows, R.Counted(RequestFor(c, env.(payload := Some(Json("", 0))))))| >= R.MAX_QUEUE_DEPTH
  }

  /** That is, whether a thousand other envelopes of the inbox are pending or delivered. */
  lemma DepthFullIff(rows: seq<R.Row>, c: Claims, env: Envelope)
    requires Given(env.to) && DefaultTtl(env.kind).Some?
    ensures DepthFull(rows, c, env)
            <==> |Filter(rows, (r: R.Row) => r.req.ws == c.ws && r.req.target == env.to.value && r.req.env != env.id
                                             && (r.status == R.Pending || r.status == R.Delivered))| >= 1000
  {
    SameRows(rows, R.Counted(RequestFor(c, env.(payload := Some(Json("", 0))))),
             (r: R.Row) => r.req.ws == c.ws && r.req.target == env.to.value && r.req.env != env.id
                           && (r.status == R.Pending || r.status == R.Delivered));
  }

  lemma {:induction false} SameRows(rows: seq<R.Row>, p: R.Row -> bool, q: R.Row -> bool)
    requires forall r :: p(r) == q(r)
    ensures Filter(rows, p) == Filter(rows, q)
  {
    if rows != [] {
      SameRows(rows[..|rows| - 1], p, q);
    }
  }

  /** An accepted envelope is in the table as it was posted, pending from now, or its key was taken
      and the table is as before. */
  ghost predicate Stored(c: Claims, env: Envelope, was: seq<R.Row>, rows: seq<R.Row>, now: int) {
    env.to.Some?
    && if exists i :: 0 <= i < |was| && Under(was[i], c.ws, env.to.value, env.id) then rows == was
       else
         && |rows| == |was| + 1 && rows[..|was|] == was
         && var r := rows[|was|];
            Carries(c, env, r.req) && r.status == R.Pending && r.createdAt == now && r.deliveredAt == None
                && r.ackedAt == None
  }

  lemma StoredBy(c: Claims, env: Envelope, was: seq<R.Row>, nextId: nat, now: int)
    requires Given(env.to) && env.payload.Some? && DefaultTtl(env.kind).Some?
    ensures var (after, result) := RelayService.Admit(RelayService.Table(was, nextId), RequestFor(c, env), now);
            result.Admitted? ==> Stored(c, env, was, after.rows, now)
  {
    InsertExact(R.State(now, was, nextId, [], [], []), RequestFor(c, env));
  }

  // ----- Polls on values -----

  function FetchAll(rows: seq<R.Row>, ws: string, order: seq<string>, now: int): seq<R.Row> {
    if order == [] then rows
    else
      var last := order[|order| - 1];
      Map(FetchAll(rows, ws, order[..|order| - 1], now), R.DeliverRow(now, ws, last, R.DEFAULT_ACK_TIMEOUT_MS))
  }

  function BatchOf(rows: seq<R.Row>, ws: string, target: string, now: int): seq<R.Row> {
    R.Batch(R.State(now, rows, 0, [], [], []), ws, target, R.DEFAULT_ACK_TIMEOUT_MS)
  }

  function BatchAll(rows: seq<R.Row>, ws: string, order: seq<string>, now: int): seq<R.Row> {
    if order == [] then []
    else
      var front, last := order[..|order| - 1], order[|order| - 1];
      BatchAll(rows, ws, front, now) + BatchOf(FetchAll(rows, ws, front, now), ws, last, now)
  }

  /** A poll hands out only rows of the stream's workspace for the machine's members. */
  lemma {:induction false} PollScope(rows: seq<R.Row>, ws: string, order: seq<string>, now: int, r: R.Row)
    requires r in BatchAll(rows, ws, order, now)
    ensures r.req.ws == ws && r.req.target in order && r.status == R.Delivered && r.deliveredAt == Some(now)
  {
    var front, last := order[..|order| - 1], order[|order| - 1];
    if r in BatchAll(rows, ws, front, now) {
      PollScope(rows, ws, front, now, r);
    } else {
      RD.BatchMember(R.State(now, FetchAll(rows, ws, front, now), 0, [], [], []), ws, last, R.DEFAULT_ACK_TIMEOUT_MS,
          r);
    }
  }

  /**
   * How many of the listed members a poll reaches when the connection closes before the answer to
   * fetch closeAt: from then on a member with nothing to deliver is passed over, and the first one
   * with something ends the poll.
   */
  function Reach(rows: seq<R.Row>, ws: string, order: seq<string>, now: int, closeAt: nat, i: nat): (n: nat)
    requires i <= |order|
    ensures i <= n <= |order|
    decreases |order| - i
  {
    if i == |order| then i
    else if i >= closeAt && BatchOf(FetchAll(rows, ws, order[..i], now), ws, order[i], now) != [] then i + 1
    else Reach(rows, ws, order, now, closeAt, i + 1)
  }

  function Min(a: nat, b: nat): nat { if a < b then a else b }

  /** The batch of the n-th listed member, polled after those before it. */
  function NthBatch(rows: seq<R.Row>, ws: string, order: seq<string>, now: int, n: nat): seq<R.Row>
    requires 0 < n <= |order|
  {
    BatchOf(FetchAll(rows, ws, order[..n - 1], now), ws, order[n - 1], now)
  }

  /** Reaching n after i stamps one batch at most, the last, and not an empty one if members are left. */
  ghost predicate Lost(rows: seq<R.Row>, ws: string, order: seq<string>, now: int, i: nat, n: nat) {
    && i <= n <= |order|
    && BatchAll(rows, ws, order[..n], now)
       == BatchAll(rows, ws, order[..i], now) + (if n == i then [] else NthBatch(rows, ws, order, now, n))
    && (n < |order| ==> n > i && NthBatch(rows, ws, order, now, n) != [])
  }

  lemma LostOne(rows: seq<R.Row>, ws: string, order: seq<string>, now: int, i: nat)
    requires i < |order| && NthBatch(rows, ws, order, now, i + 1) != []
    ensures Lost(rows, ws, order, now, i, i + 1)
  {
    BatchAllNext(rows, ws, order, now, i);
  }

  lemma LostMore(rows: seq<R.Row>, ws: string, order: seq<string>, now: int, i: nat, n: nat)
    requires i < |order| && NthBatch(rows, ws, order, now, i + 1) == [] && Lost(rows, ws, order, now, i + 1, n)
    ensures Lost(rows, ws, order, now, i, n)
  {
    BatchAllNext(rows, ws, order, now, i);
    var before := BatchAll(rows, ws, order[..i], now);
    assert before + [] == before;
  }

  lemma ReachNext(rows: seq<R.Row>, ws: string, order: seq<string>, now: int, closeAt: nat, i: nat)
    requires closeAt <= i < |order|
    ensures Reach(rows, ws, order, now, closeAt, i)
            == if NthBatch(rows, ws, order, now, i + 1) != [] then i
                + 1 else Reach(rows, ws, order, now, closeAt, i + 1)
  {
    BatchAllNext(rows, ws, order, now, i);
  }

  /** What a poll stamps from member i on and cannot write is one member's batch at most, the last it reaches. */
  lemma {:induction false} LostFrom(rows: seq<R.Row>, ws: string, order: seq<string>, now: int, closeAt: nat, i: nat)
    requires closeAt <= i <= |order|
    ensures Lost(rows, ws, order, now, i, Reach(rows, ws, order, now, closeAt, i))
    decreases |order| - i
  {
    if i < |order| {
      ReachNext(rows, ws, order, now, closeAt, i);
      if NthBatch(rows, ws, order, now, i + 1) == [] {
        LostFrom(rows, ws, order, now, closeAt, i + 1);
        LostMore(rows, ws, order, now, i, Reach(rows, ws, order, now, closeAt, i + 1));
      } else {
        LostOne(rows, ws, order, now, i);
      }
    } else {
      var all := BatchAll(rows, ws, order[..i], now);
      assert all + [] == all;
    }
  }

  lemma BatchAllNext(rows: seq<R.Row>, ws: string, order: seq<string>, now: int, i: nat)
    requires i < |order|
    ensures BatchAll(rows, ws, order[..i + 1], now)
            == BatchAll(rows, ws, order[..i], now) + BatchOf(FetchAll(rows, ws, order[..i], now), ws, order[i], now)
    ensures NthBatch(rows, ws, order, now, i + 1) == BatchOf(FetchAll(rows, ws, order[..i], now), ws, order[i], now)
    ensures FetchAll(rows, ws, order[..i + 1], now)
            == Map(FetchAll(rows, ws, order[..i], now), R.DeliverRow(now, ws, order[i], R.DEFAULT_ACK_TIMEOUT_MS))
  {
    assert order[..i + 1][..i] == order[..i];
  }

  lemma {:induction false} ReachOpen(rows: seq<R.Row>, ws: string, order: seq<string>, now: int, closeAt: nat, i: nat)
    requires i <= Min(closeAt, |order|)
    ensures Reach(rows, ws, order, now, closeAt, i) == Reach(rows, ws, order, now, closeAt, Min(closeAt, |order|))
    decreases Min(closeAt, |order|) - i
  {
    if i < Min(closeAt, |order|) {
      ReachOpen(rows, ws, order, now, closeAt, i + 1);
    }
  }

  /** A closing connection costs a poll one member's batch at most: what it stamped is what it
      wrote and the batch of the last member it reached. */
  lemma PollLoses(rows: seq<R.Row>, ws: string, order: seq<string>, now: int, closeAt: nat)
    ensures var n := Reach(rows, ws, order, now, closeAt, 0);
            var open := Min(closeAt, n);
            BatchAll(rows, ws, order[..n], now)
            == BatchAll(rows, ws, order[..open], now)
               + (if n <= closeAt then [] else NthBatch(rows, ws, order, now, n))
    ensures closeAt >= |order| ==> Reach(rows, ws, order, now, closeAt, 0) == |order|
  {
    var open := Min(closeAt, |order|);
    ReachOpen(rows, ws, order, now, closeAt, 0);
    if closeAt <= |order| {
      LostFrom(rows, ws, order, now, closeAt, open);
    }
  }

  /** One turn of a poll's loop. */
  lemma PollTurn(rows: seq<R.Row>, ws: string, order: seq<string>, now: int, closeAt: nat, i: nat)
    requires i < |order|
    ensures var fetched := BatchOf(FetchAll(rows, ws, order[..i], now), ws, order[i], now);
            && Reach(rows, ws, order, now, closeAt, i)
               == (if i >= closeAt && fetched != [] then i + 1 else Reach(rows, ws, order, now, closeAt, i + 1))
            && BatchAll(rows, ws, order[..Min(closeAt, i + 1)], now)
               == BatchAll(rows, ws, order[..Min(closeAt, i)], now) + (if i < closeAt then fetched else [])
    ensures FetchAll(rows, ws, order[..i + 1], now)
            == Map(FetchAll(rows, ws, order[..i], now), R.DeliverRow(now, ws, order[i], R.DEFAULT_ACK_TIMEOUT_MS))
  {
    BatchAllNext(rows, ws, order, now, i);
  }

  lemma BatchHasNoIds(rows: seq<R.Row>, nextId: nat, ws: string, target: string, now: int)
    ensures R.Batch(R.State(now, rows, nextId, [], [], []), ws, target, R.DEFAULT_ACK_TIMEOUT_MS)
            == BatchOf(rows, ws, target, now)
  {
  }

  /** What a poll has done after reaching n members. */
  ghost predicate Polled(was: seq<R.Row>, rows: seq<R.Row>, written: seq<R.Row>, ws: string, order: seq<string>,
                         now: int,
                         closeAt: nat, n: nat) {
    && n <= |order|
    && rows == FetchAll(was, ws, order[..n], now)
    && written == BatchAll(was, ws, order[..Min(closeAt, n)], now)
  }

  // ----- The service -----

  class HubServer {
    var presence: map<Place, Presence>
    var members: set<Member>
    var revoked: set<string>
    const queue: RelayService.RelayQueue

    ghost predicate Ok() reads this, queue { queue.Ok() }

    ghost function Queue(): RelayService.Table reads queue { RelayService.Table(queue.rows, queue.nextId) }

    constructor ()
      ensures Ok() && fresh(queue) && presence == map[] && members == {} && revoked == {} && queue.rows == []
    {
      presence, members, revoked := map[], {}, {};
      queue := new RelayService.RelayQueue();
    }

    method Announce(machine: string, member: string, status: string, now: int)
      modifies this`presence
      ensures presence == old(presence)[Place(machine, member) := Presence(status, now)]
    {
      presence := presence[Place(machine, member) := Presence(status, now)];
    }

    method AnnounceSnapshot(machine: string, list: seq<Announced>, now: int)
      modifies this`presence
      ensures presence == Snapshot(old(presence), machine, list, now)
    {
      presence := Without(presence, machine, list);
      ghost var start := presence;
      for i := 0 to |list|
        invariant presence == UpsertAll(start, machine, list[..i], now)
      {
        assert list[..i + 1][..i] == list[..i];
        Announce(machine, list[i].member, list[i].status, now);
      }
      assert list[..|list|] == list;
    }

    /** In the order of the database's collation; callers rely on the members only. */
    method ListForMachine(machine: string) returns (listed: seq<string>)
      ensures (set m | m in listed) == HostedBy(Hub(R.Init(0), members, presence, revoked, map[]), machine)
      ensures forall i, j :: 0 <= i < j < |listed| ==> listed[i] != listed[j]
      ensures forall m :: m in listed <==> Place(machine, m) in presence
    {
      var left := set p | p in presence && p.machine == machine;
      listed := [];
      while left != {}
        invariant forall p :: p in left ==> p in presence && p.machine == machine && p.member !in listed
        invariant forall p :: p in presence && p.machine == machine ==> p in left || p.member in listed
        invariant forall m :: m in listed ==> Place(machine, m) in presence
        invariant forall i, j :: 0 <= i < j < |listed| ==> listed[i] != listed[j]
        decreases |left|
      {
        var p :| p in left;
        left := left - {p};
        listed := listed + [p.member];
      }
    }

    method HandlePresence(c: Claims, env: Envelope, now: int) returns (status: nat)
      requires IsPresence(env.kind)
      modifies this`presence
      ensures status == 200
      ensures presence == AfterPresence(old(presence), members, c, env, now)
      ensures env.kind == "presence.heartbeat" && (env.from == None || env.from == Some("")) ==>
              presence == old(presence)
    {
      if env.kind == "presence.announce" {
        var verified: seq<Announced> := [];
        for i := 0 to |env.members|
          invariant verified == Verified(env.members[..i], members, c.ws)
        {
          assert env.members[..i + 1][..i] == env.members[..i];
          if Member(c.ws, env.members[i].member) in members {
            verified := verified + [env.members[i]];
          }
        }
        assert env.members[..|env.members|] == env.members;
        AnnounceSnapshot(c.sub, verified, now);
      } else if Given(env.from) && Member(c.ws, env.from.value) in members {
        Announce(c.sub, env.from.value, "online", now);
      }
      status := 200;
    }

    method HandleRelay(c: Claims, env: Envelope, now: int) returns (status: nat)
      requires Ok() && DefaultTtl(env.kind).Some?
      modifies queue
      ensures Ok()
      ensures env.to == None || env.to == Some("") ==> status == 400
      ensures !Given(env.to) ==> status == 400
      ensures Given(env.to) && !TargetOk(members, c, env) ==> status == 403
      ensures !TargetOk(members, c, env) || env.payload.None? ==> Queue() == old(Queue())
      ensures TargetOk(members, c, env) && env.payload.None? ==>
                status == if DepthFull(old(queue.rows), c, env) then 429 else 500
      ensures TargetOk(members, c, env) && env.payload.Some? ==>
                var (after, result) := RelayService.Admit(old(Queue()), RequestFor(c, env), now);
                Queue() == after && status == if result.QueueFull? then 429 else 202
      ensures status == 202 ==> Stored(c, env, old(queue.rows), queue.rows, now)
    {
      if !Given(env.to) {
        return 400;
      }
      if Member(c.ws, env.to.value) !in members {
        return 403;
      }
      if env.payload.None? {
        // An absent payload has no byte length: the handler fails unless the depth query
        // already refused, and the request is answered as an internal error.
        return if DepthFull(queue.rows, c, env) then 429 else 500;
      }
      StoredBy(c, env, queue.rows, queue.nextId, now);
      var result := queue.Enqueue(RequestFor(c, env), now);
      status := if result.QueueFull? then 429 else 202;
    }

    method SubmitEnvelope(c: Claims, env: Envelope, now: int) returns (status: nat)
      requires Ok()
      modifies this`presence, queue
      ensures Ok()
      ensures env.ws != c.ws || !(IsPresence(env.kind) || DefaultTtl(env.kind).Some?) ==>
                status == 400 && presence == old(presence) && Queue() == old(Queue())
      ensures env.ws == c.ws && env.kind in {"presence.announce", "presence.heartbeat"} ==> status == 200
      ensures env.ws == c.ws && IsPresence(env.kind) ==>
                status == 200 && Queue() == old(Queue())
                && presence == AfterPresence(old(presence), members, c, env, now)
      ensures env.ws == c.ws && DefaultTtl(env.kind).Some? ==> presence == old(presence)
      ensures env.ws == c.ws && DefaultTtl(env.kind).Some? && TargetOk(members, c, env) && env.payload.Some? ==>
                var (after, result) := RelayService.Admit(old(Queue()), RequestFor(c, env), now);
                Queue() == after && status == if result.QueueFull? then 429 else 202
      ensures env.ws == c.ws && DefaultTtl(env.kind).Some? && !(TargetOk(members, c, env) && env.payload.Some?) ==>
                Queue() == old(Queue()) && status in {400, 403, 429, 500}
      ensures status == 202 ==> Stored(c, env, old(queue.rows), queue.rows, now)
    {
      if env.ws != c.ws {
        return 400;
      }
      if IsPresence(env.kind) {
        status := HandlePresence(c, env, now);
        return;
      }
      if DefaultTtl(env.kind).None? {
        return 400;
      }
      status := HandleRelay(c, env, now);
    }

    /**
     * One poll of a stream opened under c for the workspace ws. closed says whether the connection
     * is closed when the poll begins; otherwise it closes before the answer to fetch closeAt, if
     * there are that many. order is the list of members polled, n how many were reached.
     */
    method Poll(c: Claims, ws: string, now: int, closed: bool, closeAt: nat)
      returns (written: seq<R.Row>, ghost order: seq<string>, ghost n: nat)
      requires Ok()
      modifies queue`rows
      ensures Ok() && Polled(old(queue.rows), queue.rows, written, ws, order, now, closeAt, n)
      ensures closed ==> order == [] && n == 0 && written == []
      ensures !closed ==> Lists(Hub(R.Init(0), members, presence, revoked, map[]), c.sub, order)
      ensures n == Reach(old(queue.rows), ws, order, now, closeAt, 0)
    {
      written, order, n := [], [], 0;
      if closed {
        return;
      }
      var listed := ListForMachine(c.sub);
      order := listed;
      for i := 0 to |listed|
        invariant Ok() && n == i && order == listed
        invariant Polled(old(queue.rows), queue.rows, written, ws, order, now, closeAt, i)
        invariant Reach(old(queue.rows), ws, order, now, closeAt, 0)
                  == Reach(old(queue.rows), ws, order, now, closeAt, i)
      {
        var last;
        written, last := PollMember(ws, listed, now, closeAt, i, written, old(queue.rows));
        n := i + 1;
        if last {
          return;
        }
      }
    }

    /** Fetches for one listed member and writes what it can; last says that the poll ends there. */
    method PollMember(ws: string, listed: seq<string>, now: int, closeAt: nat, i: nat, before: seq<R.Row>,
                      ghost was: seq<R.Row>)
      returns (written: seq<R.Row>, last: bool)
      requires Ok() && i < |listed| && Polled(was, queue.rows, before, ws, listed, now, closeAt, i)
      modifies queue`rows
      ensures Ok() && Polled(was, queue.rows, written, ws, listed, now, closeAt, i + 1)
      ensures Reach(was, ws, listed, now, closeAt, i)
              == if last then i + 1 else Reach(was, ws, listed, now, closeAt, i + 1)
    {
      PollTurn(was, ws, listed, now, closeAt, i);
      BatchHasNoIds(queue.rows, queue.nextId, ws, listed[i], now);
      var deliverable := queue.FetchDeliverable(ws, listed[i], now);
      written := before;
      last := i >= closeAt && deliverable != [];
      if i < closeAt {
        written := WriteAll(before, deliverable);
      }
    }

    /** for (const envelope of deliverable) { ... res.write(...) } on an open connection. */
    method WriteAll(before: seq<R.Row>, deliverable: seq<R.Row>) returns (written: seq<R.Row>)
      ensures written == before + deliverable
    {
      written := before;
      for j := 0 to |deliverable|
        invariant written == before + deliverable[..j]
      {
        written := written + [deliverable[j]];
      }
      assert deliverable[..|deliverable|] == deliverable;
    }

    /** The ack route; body is None when a field is missing. */
    method AckRoute(token: Option<Claims>, path: string, body: Option<(string, string)>, now: int) returns (status: nat)
      requires Ok()
      modifies queue`rows
      ensures Ok()
      ensures status in {200, 400, 401, 403}
      ensures status == 401 <==> Authorize(Hub(R.Init(0), members, presence, revoked, map[]), token, path).None?
      ensures status == 200 <==>
                && token.Some? && token.value.ws == path && token.value.jti !in revoked
                && body.Some? && Place(token.value.sub, body.value.1) in presence
      ensures status == 403 <==>
                && token.Some? && token.value.ws == path && token.value.jti !in revoked
                && body.Some? && Place(token.value.sub, body.value.1) !in presence
      ensures status != 200 ==> queue.rows == old(queue.rows)
      ensures status == 200 ==>
                queue.rows == Map(old(queue.rows), R.AckRow(now, R.Key(path, body.value.1, body.value.0)))
      ensures status == 200 ==>
                |queue.rows| == |old(queue.rows)|
                && forall i :: 0 <= i < |queue.rows| ==>
                     var r := old(queue.rows)[i];
                     queue.rows[i] == if (r.status == R.Pending || r.status == R.Delivered)
                                         && Under(r, path, body.value.1, body.value.0)
                                      then r.(status := R.Acked, ackedAt := Some(now)) else r
    {
      if token.None? || token.value.ws != path || token.value.jti in revoked {
        return 401;
      }
      if body.None? {
        return 400;
      }
      var (env, member) := body.value;
      var hosted := ListForMachine(token.value.sub);
      if member !in hosted {
        return 403;
      }
      queue.Ack(R.Key(path, member, env), now);
      return 200;
    }
  }
}

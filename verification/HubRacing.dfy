/** A full announce replaces the machine's view only if no other announce of the machine is under way. */
module HubRacing {
  import opened Util
  import opened HubModel
  import opened HubService
  import opened HubSequential

  const SPOKE := Claims("spoke", "w", "jti")
  const X := Announced("x", "online")
  const Y := Announced("y", "online")

  function Announcement(m: Announced): Envelope {
    Envelope("", "w", "presence.announce", None, None, None, None, None, [m])
  }

  /** A handler whose announce of one member has been looked up. */
  lemma LookedUp(h: Hub, n: nat, m: Announced) returns (next: Hub)
    requires Reached(h) && n !in h.tasks && h.revoked == {} && Member("w", m.member) in h.members
    ensures Reached(next)
    ensures next == h.(tasks := h.tasks[n := Announcing(SPOKE, true, [], [m])])
  {
    var asked := OpenPresence(h, n, SPOKE, "w", Announcement(m), true);
    next := LookUps(asked, n, SPOKE, true, [m], []);
    VerifiedOne(m, h.members, "w");
    assert [] + [m] == [m];
    assert next.tasks == h.tasks[n := Announcing(SPOKE, true, [], [m])];
  }

  lemma BothLookedUp() returns (h: Hub)
    ensures Reached(h)
    ensures h.presence == map[]
    ensures h.tasks == map[1 := Announcing(SPOKE, true, [], [X]), 2 := Announcing(SPOKE, true, [], [Y])]
  {
    ReachedInit(0);
    h := Onward(Init(0), AddMember(Member("w", "x")));
    h := Onward(h, AddMember(Member("w", "y")));
    h := LookedUp(h, 1, X);
    h := LookedUp(h, 2, Y);
  }

  /** Two full announces, of {x} and of {y}: both deletes before both upserts leave {x, y}, which
      neither announce named. */
  lemma RacingAnnouncesMerge() returns (h: Hub)
    ensures Reached(h)
    ensures h.tasks == map[1 := Writing(SPOKE, []), 2 := Writing(SPOKE, [])]
    ensures HostedBy(h, SPOKE.sub) == {"x", "y"}
  {
    h := BothLookedUp();
    h := Onward(h, DeleteStale(1));
    h := Onward(h, DeleteStale(2));
    assert h.presence == map[];
    assert h.tasks == map[1 := Writing(SPOKE, [X]), 2 := Writing(SPOKE, [Y])];
    h := BothWritten(h);
  }

  lemma BothWritten(h0: Hub) returns (h: Hub)
    requires Reached(h0) && h0.presence == map[]
    requires h0.tasks == map[1 := Writing(SPOKE, [X]), 2 := Writing(SPOKE, [Y])]
    ensures Reached(h)
    ensures h.tasks == map[1 := Writing(SPOKE, []), 2 := Writing(SPOKE, [])]
    ensures HostedBy(h, SPOKE.sub) == {"x", "y"}
  {
    var h1 := Onward(h0, Upsert(1));
    assert [X][1..] == [] && [Y][1..] == [];
    h := Onward(h1, Upsert(2));
    var now := h0.relay.now;
    var row := Presence("online", now);
    assert h.presence == map[Place("spoke", "x") := row, Place("spoke", "y") := row];
    assert h.tasks == map[1 := Writing(SPOKE, []), 2 := Writing(SPOKE, [])];
    TwoHosted(h, "spoke", "x", "y", Presence("online", now));
  }

  lemma TwoHosted(h: Hub, machine: string, a: string, b: string, row: Presence)
    requires h.presence == map[Place(machine, a) := row, Place(machine, b) := row]
    ensures HostedBy(h, machine) == {a, b}
  {
    assert Place(machine, a) in h.presence && Place(machine, b) in h.presence;
    forall m | m in {a, b} ensures m in HostedBy(h, machine) {
      assert Place(machine, m) in h.presence;
    }
  }
}

/** What a full announce leaves behind while other handlers write the machine's presence too. */
module HubAnnounce {
  import opened Util
  import opened HubModel
  import opened HubHosting

  // ----- Which step decides about a row -----

  /** The step upserts the row. */
  ghost predicate Puts(h: Hub, step: Step, p: Place) {
    && step.Upsert? && step.n in h.tasks && h.tasks[step.n].Writing? && h.tasks[step.n].todo != []
    && p == Place(h.tasks[step.n].claims.sub, h.tasks[step.n].todo[0].member)
  }

  /** The step is the delete of a full announce of the machine that does not name the member. */
  ghost predicate Clears(h: Hub, step: Step, p: Place) {
    && step.DeleteStale? && step.n in h.tasks && h.tasks[step.n].Announcing? && h.tasks[step.n].full
    && p.machine == h.tasks[step.n].claims.sub && p.member !in Names(h.tasks[step.n].found)
  }

  lemma StepDecides(h: Hub, step: Step, p: Place)
    requires Enabled(h, step)
    ensures p in Next(h, step).presence <==> Puts(h, step, p) || (p in h.presence && !Clears(h, step, p))
  {
  }

  ghost predicate PutsAt(states: seq<Hub>, steps: seq<Step>, i: nat, p: Place) {
    i < |steps| && i < |states| && Puts(states[i], steps[i], p)
  }

  ghost predicate ClearsAt(states: seq<Hub>, steps: seq<Step>, i: nat, p: Place) {
    i < |steps| && i < |states| && Clears(states[i], steps[i], p)
  }

  /** The last step from a on and before b that puts or clears the row. */
  ghost function LastTouch(states: seq<Hub>, steps: seq<Step>, a: nat, b: nat, p: Place): (last: Option<nat>)
    requires a <= b
    ensures match last
            case None => forall i: nat :: a <= i < b ==> !PutsAt(states, steps, i, p) && !ClearsAt(states, steps, i, p)
            case Some(l) =>
              && a <= l < b && (PutsAt(states, steps, l, p) || ClearsAt(states, steps, l, p))
              && forall i: nat :: l < i < b ==> !PutsAt(states, steps, i, p) && !ClearsAt(states, steps, i, p)
    decreases b
  {
    if b == a then None
    else if PutsAt(states, steps, b - 1, p) || ClearsAt(states, steps, b - 1, p) then Some(b - 1)
    else LastTouch(states, steps, a, b - 1, p)
  }

  /** In every interleaving a row is there exactly if the last step that touched it was an upsert,
      or none did and it was there before. */
  lemma {:induction false} LastTouchDecides(states: seq<Hub>, steps: seq<Step>, a: nat, b: nat, p: Place)
    requires IsRun(states, steps) && a <= b <= |steps|
    ensures p in states[b].presence
            <==> match LastTouch(states, steps, a, b, p)
                 case None => p in states[a].presence
                 case Some(i) => PutsAt(states, steps, i, p)
    decreases b
  {
    if a < b {
      LastTouchDecides(states, steps, a, b - 1, p);
      RunStep(states, steps, b - 1);
      StepDecides(states[b - 1], steps[b - 1], p);
    }
  }

  // ----- The rows of one announce -----

  /** Step a is the delete of handler n's full announce of these members. */
  ghost predicate Announces(states: seq<Hub>, steps: seq<Step>, a: nat, n: nat, c: Claims, found: seq<Announced>) {
    && a < |steps| && a < |states| && steps[a] == DeleteStale(n)
    && n in states[a].tasks && states[a].tasks[n] == Announcing(c, true, [], found)
  }

  ghost predicate PutBetween(states: seq<Hub>, steps: seq<Step>, a: nat, b: nat, p: Place) {
    exists i: nat :: a < i < b && PutsAt(states, steps, i, p)
  }

  ghost predicate ClearedBetween(states: seq<Hub>, steps: seq<Step>, a: nat, b: nat, p: Place) {
    exists i: nat :: a < i < b && ClearsAt(states, steps, i, p)
  }

  /** The announce has upserted the first done members it names. */
  ghost predicate Progress(states: seq<Hub>, steps: seq<Step>, a: nat, b: nat, n: nat, c: Claims,
                           found: seq<Announced>, done: nat) {
    && b < |states| && done <= |found|
    && n in states[b].tasks && states[b].tasks[n] == Writing(c, found[done..])
    && forall k :: 0 <= k < done ==> PutBetween(states, steps, a, b, Place(c.sub, found[k].member))
  }

  lemma ProgressStep(states: seq<Hub>, steps: seq<Step>, a: nat, b: nat, n: nat, c: Claims, found: seq<Announced>,
                     done: nat)
    requires IsRun(states, steps) && a < b < |steps|
    requires Progress(states, steps, a, b, n, c, found, done)
    ensures Progress(states, steps, a, b + 1, n, c, found, if steps[b] == Upsert(n) then done + 1 else done)
  {
    RunStep(states, steps, b);
    forall p | PutBetween(states, steps, a, b, p) ensures PutBetween(states, steps, a, b + 1, p) {
      var i: nat :| a < i < b && PutsAt(states, steps, i, p);
    }
    if steps[b] == Upsert(n) {
      assert found[done..][0] == found[done] && found[done..][1..] == found[done + 1..];
      assert PutsAt(states, steps, b, Place(c.sub, found[done].member));
    } else {
      WritingStays(states[b], steps[b], n);
    }
  }

  /** A handler that writes does nothing else. */
  lemma WritingStays(h: Hub, step: Step, n: nat)
    requires Enabled(h, step) && n in h.tasks && h.tasks[n].Writing? && step != Upsert(n)
    ensures n in Next(h, step).tasks && Next(h, step).tasks[n] == h.tasks[n]
  {
  }

  lemma {:induction false} ProgressRun(states: seq<Hub>, steps: seq<Step>, a: nat, b: nat, n: nat, c: Claims,
                                       found: seq<Announced>)
    returns (done: nat)
    requires IsRun(states, steps) && a < b <= |steps| && Announces(states, steps, a, n, c, found)
    ensures Progress(states, steps, a, b, n, c, found, done)
    decreases b
  {
    if b == a + 1 {
      done := 0;
      ProgressStarts(states, steps, a, n, c, found);
    } else {
      done := ProgressRun(states, steps, a, b - 1, n, c, found);
      ProgressStep(states, steps, a, b - 1, n, c, found, done);
      done := if steps[b - 1] == Upsert(n) then done + 1 else done;
    }
  }

  lemma ProgressStarts(states: seq<Hub>, steps: seq<Step>, a: nat, n: nat, c: Claims, found: seq<Announced>)
    requires IsRun(states, steps) && Announces(states, steps, a, n, c, found)
    ensures Progress(states, steps, a, a + 1, n, c, found, 0)
  {
    RunStep(states, steps, a);
    assert found[0..] == found;
  }

  // ----- Exactly when the view is the snapshot -----

  /** Whoever put an unnamed row between a and b, it was cleared again; whoever cleared a named
      one, it was put again. */
  ghost predicate Settled(states: seq<Hub>, steps: seq<Step>, a: nat, b: nat, p: Place, named: bool) {
    if named then forall i: nat :: a < i < b && ClearsAt(states, steps, i, p) ==> PutBetween(states, steps, i, b, p)
    else forall i: nat :: a < i < b && PutsAt(states, steps, i, p) ==> ClearedBetween(states, steps, i, b, p)
  }

  lemma UnnamedIff(states: seq<Hub>, steps: seq<Step>, a: nat, b: nat, p: Place)
    requires IsRun(states, steps) && a < b <= |steps| && ClearsAt(states, steps, a, p)
    ensures p !in states[b].presence <==> Settled(states, steps, a, b, p, false)
  {
    LastTouchDecides(states, steps, a, b, p);
    var l := LastTouch(states, steps, a, b, p).value;
    if ClearsAt(states, steps, l, p) {
      forall i: nat | a < i < b && PutsAt(states, steps, i, p) ensures ClearedBetween(states, steps, i, b, p) {
        assert i != l;
      }
    }
  }

  lemma NamedIff(states: seq<Hub>, steps: seq<Step>, a: nat, b: nat, p: Place)
    requires IsRun(states, steps) && a < b <= |steps| && PutBetween(states, steps, a, b, p)
    ensures p in states[b].presence <==> Settled(states, steps, a, b, p, true)
  {
    LastTouchDecides(states, steps, a, b, p);
    var l := LastTouch(states, steps, a, b, p).value;
    if PutsAt(states, steps, l, p) {
      forall i: nat | a < i < b && ClearsAt(states, steps, i, p) ensures PutBetween(states, steps, i, b, p) {
        assert i != l;
      }
    }
  }

  /**
   * In every interleaving, once a full announce has done its last upsert the machine's view is
   * exactly the verified snapshot if and only if every unnamed row another handler put since the
   * delete was cleared again, and every named one another announce cleared was put again.
   */
  lemma SnapshotIff(states: seq<Hub>, steps: seq<Step>, a: nat, b: nat, n: nat, c: Claims, found: seq<Announced>)
    requires IsRun(states, steps) && a < b <= |steps| && Announces(states, steps, a, n, c, found)
    requires n in states[b].tasks && states[b].tasks[n] == Writing(c, [])
    ensures HostedBy(states[b], c.sub) == Names(found)
            <==> forall m :: Settled(states, steps, a, b, Place(c.sub, m), m in Names(found))
  {
    var names := Names(found);
    forall m ensures (m in HostedBy(states[b], c.sub) <==> m in names)
                     <==> Settled(states, steps, a, b, Place(c.sub, m), m in names)
    {
      HostedIff(states[b], c.sub, m);
      MemberIff(states, steps, a, b, n, c, found, m);
    }
    if forall m :: Settled(states, steps, a, b, Place(c.sub, m), m in names) {
      assert forall m :: m in HostedBy(states[b], c.sub) <==> m in names;
    }
  }

  lemma MemberIff(states: seq<Hub>, steps: seq<Step>, a: nat, b: nat, n: nat, c: Claims, found: seq<Announced>,
                  m: string)
    requires IsRun(states, steps) && a < b <= |steps| && Announces(states, steps, a, n, c, found)
    requires n in states[b].tasks && states[b].tasks[n] == Writing(c, [])
    ensures (Place(c.sub, m) in states[b].presence <==> m in Names(found))
            <==> Settled(states, steps, a, b, Place(c.sub, m), m in Names(found))
  {
    if m in Names(found) {
      var done := ProgressRun(states, steps, a, b, n, c, found);
      assert |found[done..]| == 0;
      var k :| 0 <= k < |found| && found[k].member == m;
      NamedIff(states, steps, a, b, Place(c.sub, m));
    } else {
      assert ClearsAt(states, steps, a, Place(c.sub, m));
      UnnamedIff(states, steps, a, b, Place(c.sub, m));
    }
  }

  lemma HostedIff(h: Hub, machine: string, member: string)
    ensures member in HostedBy(h, machine) <==> Place(machine, member) in h.presence
  {
  }

  // ----- The announce left alone, and the stale row -----

  /** The step leaves the machine's presence rows to handler n. */
  ghost predicate LeavesPresence(h: Hub, step: Step, machine: string, n: nat) {
    (step.Upsert? || step.DeleteStale?) && step.n != n ==>
      step.n in h.tasks && h.tasks[step.n].claims.sub != machine
  }

  /** If nobody else writes this machine's presence from the delete on, then once the last upsert
      is done the machine's view is exactly the verified snapshot. */
  lemma AnnounceIsSnapshot(states: seq<Hub>, steps: seq<Step>, a: nat, b: nat, n: nat, c: Claims, found: seq<Announced>)
    requires IsRun(states, steps) && a < b <= |steps| && Announces(states, steps, a, n, c, found)
    requires forall i :: a < i < b ==> LeavesPresence(states[i], steps[i], c.sub, n)
    ensures n in states[b].tasks && states[b].tasks[n].Writing?
    ensures states[b].tasks[n] == Writing(c, []) ==> HostedBy(states[b], c.sub) == Names(found)
  {
    var done := ProgressRun(states, steps, a, b, n, c, found);
    if states[b].tasks[n] == Writing(c, []) {
      forall i: nat, m | a < i < b
        ensures !ClearsAt(states, steps, i, Place(c.sub, m))
        ensures PutsAt(states, steps, i, Place(c.sub, m)) ==> m in Names(found)
      {
        OwnPuts(states, steps, a, i, n, c, found, Place(c.sub, m));
      }
      SnapshotIff(states, steps, a, b, n, c, found);
    }
  }

  lemma OwnPuts(states: seq<Hub>, steps: seq<Step>, a: nat, i: nat, n: nat, c: Claims, found: seq<Announced>, p: Place)
    requires IsRun(states, steps) && a < i < |steps| && Announces(states, steps, a, n, c, found)
    requires p.machine == c.sub && LeavesPresence(states[i], steps[i], c.sub, n)
    ensures !ClearsAt(states, steps, i, p)
    ensures PutsAt(states, steps, i, p) ==> p.member in Names(found)
  {
    var done := ProgressRun(states, steps, a, i, n, c, found);
    if PutsAt(states, steps, i, p) {
      assert found[done..][0] == found[done];
    }
  }

  /** In every interleaving: a row the snapshot does not name is gone with the announce's delete,
      and is seen again only if some announce has written it since. */
  lemma StaleRowsGo(states: seq<Hub>, steps: seq<Step>, a: nat, b: nat, p: Place)
    requires IsRun(states, steps) && a < b <= |steps| && ClearsAt(states, steps, a, p) && p in states[b].presence
    ensures PutBetween(states, steps, a, b, p)
  {
    UnnamedIff(states, steps, a, b, p);
  }
}

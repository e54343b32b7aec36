/** Redelivery bounds, freshness of a fetch, and first-delivery order, over every run. */
module RelayDelivery {
  import opened Util
  import opened RelayModel
  import opened RelayInvariants

  // ----- The batch of one fetch -----

  /** The row with this id is handed out by this step. */
  ghost predicate Delivers(s: State, step: Step, id: nat) {
    step.Fetch? && exists r :: r in Batch(s, step.ws, step.target, step.ackMs) && r.id == id
  }

  lemma BatchMember(s: State, ws: string, target: string, ackMs: int, r: Row)
    ensures r in Batch(s, ws, target, ackMs) <==>
            exists k :: && 0 <= k < |s.rows| && Deliverable(s.rows[k], s.now, ws, target, ackMs)
                        && r == s.rows[k].(status := Delivered, deliveredAt := Some(s.now))
  {
    var p := (x: Row) => Deliverable(x, s.now, ws, target, ackMs);
    var f := DeliverRow(s.now, ws, target, ackMs);
    var picked := Filter(s.rows, p);
    var b := Batch(s, ws, target, ackMs);
    if r in b {
      var i :| 0 <= i < |b| && b[i] == r;
      assert picked[i] in picked;
      FilterMember(s.rows, p, picked[i]);
      assert r == f(picked[i]);
    }
    if k :| 0 <= k < |s.rows| && Deliverable(s.rows[k], s.now, ws, target, ackMs)
            && r == s.rows[k].(status := Delivered, deliveredAt := Some(s.now))
    {
      FilterMember(s.rows, p, s.rows[k]);
      var i :| 0 <= i < |picked| && picked[i] == s.rows[k];
      assert b[i] == r;
    }
  }

  /** Row k is handed out exactly when the fetch's condition holds of it. */
  lemma DeliversIff(s: State, step: Step, k: nat)
    requires Inv(s) && k < |s.rows|
    ensures Delivers(s, step, s.rows[k].id) <==>
            step.Fetch? && Deliverable(s.rows[k], s.now, step.ws, step.target, step.ackMs)
  {
    if step.Fetch? {
      if Delivers(s, step, s.rows[k].id) {
        var r :| r in Batch(s, step.ws, step.target, step.ackMs) && r.id == s.rows[k].id;
        BatchMember(s, step.ws, step.target, step.ackMs, r);
        var i :| 0 <= i < |s.rows| && Deliverable(s.rows[i], s.now, step.ws, step.target, step.ackMs)
                 && r == s.rows[i].(status := Delivered, deliveredAt := Some(s.now));
        IdIsIndex(s, i, k);
      }
      if Deliverable(s.rows[k], s.now, step.ws, step.target, step.ackMs) {
        BatchMember(s, step.ws, step.target, step.ackMs, s.rows[k].(status := Delivered, deliveredAt := Some(s.now)));
      }
    }
  }

  lemma {:induction false} FilterKeepsOrder(rows: seq<Row>, p: Row -> bool)
    requires IdsIncrease(rows)
    ensures IdsIncrease(Filter(rows, p))
  {
    if rows != [] {
      var front, last := rows[..|rows| - 1], rows[|rows| - 1];
      FilterKeepsOrder(front, p);
      forall r | r in Filter(front, p) ensures r.id < last.id { FilterMember(front, p, r); }
    }
  }

  /** Strictly increasing in id, only rows of the asked inbox, each stamped with the fetch's instant. */
  lemma BatchSorted(s: State, ws: string, target: string, ackMs: int)
    requires Inv(s)
    ensures IdsIncrease(Batch(s, ws, target, ackMs))
    ensures forall r :: r in Batch(s, ws, target, ackMs) ==>
              r.In(ws, target) && r.status == Delivered && r.deliveredAt == Some(s.now) && s.now < r.Deadline()
  {
    FilterKeepsOrder(s.rows, (r: Row) => Deliverable(r, s.now, ws, target, ackMs));
    forall r | r in Batch(s, ws, target, ackMs)
      ensures r.In(ws, target) && r.status == Delivered && r.deliveredAt == Some(s.now) && s.now < r.Deadline()
    {
      BatchMember(s, ws, target, ackMs, r);
    }
  }

  /** After a fetch nothing of the inbox is owed: what is live and unexpired went out less than
      the acknowledgement timeout ago. */
  lemma FetchLeavesNothingOwed(s: State, ws: string, target: string, ackMs: nat)
    requires Inv(s) && ackMs > 0
    ensures forall r | r in Apply(s, Fetch(ws, target, ackMs)).rows ::
              r.In(ws, target) && r.Live() && s.now < r.Deadline() ==>
                r.deliveredAt.Some? && s.now - Ms(ackMs) < r.deliveredAt.value
  {
    var t := Apply(s, Fetch(ws, target, ackMs));
    forall k | 0 <= k < |t.rows| && t.rows[k].In(ws, target) && t.rows[k].Live() && s.now < t.rows[k].Deadline()
      ensures t.rows[k].deliveredAt.Some? && s.now - Ms(ackMs) < t.rows[k].deliveredAt.value
    {
      assert RowOk(s.rows[k], s.now);
    }
  }

  // ----- Redelivery -----

  /** The instants at which the envelope with this id was handed out. */
  ghost function Deliveries(s: State, steps: seq<Step>, id: nat): seq<int> {
    if steps == [] then []
    else
      var before := Exec(s, steps[..|steps| - 1]);
      Deliveries(s, steps[..|steps| - 1], id)
      + (if Delivers(before, steps[|steps| - 1], id) then [before.now] else [])
  }

  /** Every fetch of the run waits at least this long before serving a row again. */
  predicate Patient(steps: seq<Step>, ackMs: nat) {
    forall i :: 0 <= i < |steps| && steps[i].Fetch? ==> ackMs <= steps[i].ackMs
  }

  ghost predicate Spaced(ts: seq<int>, gap: int) {
    forall i :: 0 <= i < |ts| - 1 ==> ts[i] + gap <= ts[i + 1]
  }

  /** The delivered_at column is the last delivery; all of them lie inside the envelope's life. */
  ghost predicate RowAccounted(ts: seq<int>, r: Row) {
    && r.deliveredAt == (if ts == [] then None else Some(ts[|ts| - 1]))
    && forall i :: 0 <= i < |ts| ==> r.createdAt <= ts[i] < r.Deadline()
  }

  ghost predicate Known(s: State, id: nat) {
    exists k :: 0 <= k < |s.rows| && s.rows[k].id == id
  }

  ghost predicate Accounted(ts: seq<int>, s: State, id: nat, ackMs: nat) {
    && Spaced(ts, Ms(ackMs))
    && (!Known(s, id) ==> ts == [])
    && forall k :: 0 <= k < |s.rows| && s.rows[k].id == id ==> RowAccounted(ts, s.rows[k])
  }

  lemma StampEffect(s: State, step: Step, k: nat)
    requires Inv(s) && k < |s.rows|
    ensures var t := Apply(s, step);
            && t.rows[k].id == s.rows[k].id && t.rows[k].createdAt == s.rows[k].createdAt
                && t.rows[k].req == s.rows[k].req
            && t.rows[k].deliveredAt == if Delivers(s, step, s.rows[k].id) then Some(s.now) else s.rows[k].deliveredAt
    ensures Delivers(s, step, s.rows[k].id) ==>
              && s.rows[k].createdAt <= s.now < s.rows[k].Deadline()
              && (s.rows[k].deliveredAt.Some? ==> s.rows[k].deliveredAt.value + Ms(step.ackMs) <= s.now)
  {
    DeliversIff(s, step, k);
    StepLater(s, step);
    assert RowOk(s.rows[k], s.now);
  }

  lemma DeliversKnown(s: State, step: Step, id: nat)
    requires Delivers(s, step, id)
    ensures exists k :: 0 <= k < |s.rows| && s.rows[k].id == id
  {
    var r :| r in Batch(s, step.ws, step.target, step.ackMs) && r.id == id;
    BatchMember(s, step.ws, step.target, step.ackMs, r);
  }

  lemma FreshRowUnstamped(s: State, step: Step, j: nat)
    requires Inv(s) && |s.rows| <= j < |Apply(s, step).rows|
    ensures Apply(s, step).rows[j].deliveredAt.None? && Apply(s, step).rows[j].id == s.nextId
  {
  }

  lemma AccountedStep(ts: seq<int>, s: State, step: Step, id: nat, ackMs: nat)
    requires Inv(s) && Accounted(ts, s, id, ackMs)
    requires step.Fetch? ==> ackMs <= step.ackMs
    ensures Accounted(ts + (if Delivers(s, step, id) then [s.now] else []), Apply(s, step), id, ackMs)
  {
    if Known(s, id) {
      AccountedKnown(ts, s, step, id, ackMs);
    } else {
      if Delivers(s, step, id) { DeliversKnown(s, step, id); }
      StepLater(s, step);
      var t := Apply(s, step);
      forall j | 0 <= j < |t.rows| && t.rows[j].id == id ensures RowAccounted([], t.rows[j]) {
        if |s.rows| <= j { FreshRowUnstamped(s, step, j); }
      }
    }
  }

  lemma AccountedKnown(ts: seq<int>, s: State, step: Step, id: nat, ackMs: nat)
    requires Inv(s) && Accounted(ts, s, id, ackMs) && Known(s, id)
    requires step.Fetch? ==> ackMs <= step.ackMs
    ensures Accounted(ts + (if Delivers(s, step, id) then [s.now] else []), Apply(s, step), id, ackMs)
  {
    var t, served := Apply(s, step), Delivers(s, step, id);
    var k :| 0 <= k < |s.rows| && s.rows[k].id == id;
    StampEffect(s, step, k);
    RowAccountedStep(ts, s.rows[k], t.rows[k], s.now, served, ackMs);
    InvStep(s, step);
    StepLater(s, step);
    forall j | 0 <= j < |t.rows| && t.rows[j].id == id ensures j == k { IdIsIndex(t, j, k); }
  }

  lemma RowAccountedStep(ts: seq<int>, r: Row, t: Row, now: int, served: bool, ackMs: nat)
    requires Spaced(ts, Ms(ackMs)) && RowAccounted(ts, r)
    requires t.createdAt == r.createdAt && t.req == r.req
    requires t.deliveredAt == if served then Some(now) else r.deliveredAt
    requires served ==> r.createdAt <= now < r.Deadline()
    requires served && r.deliveredAt.Some? ==> r.deliveredAt.value + Ms(ackMs) <= now
    ensures Spaced(ts + (if served then [now] else []), Ms(ackMs))
            && RowAccounted(ts + (if served then [now] else []), t)
  {
    if !served {
      assert ts + [] == ts;
    }
  }

  lemma {:induction false} AccountedRun(s: State, steps: seq<Step>, id: nat, ackMs: nat)
    requires Inv(s) && s.rows == [] && Patient(steps, ackMs)
    ensures Accounted(Deliveries(s, steps, id), Exec(s, steps), id, ackMs)
  {
    if steps != [] {
      var front := steps[..|steps| - 1];
      AccountedRun(s, front, id, ackMs);
      InvRun(s, front);
      AccountedStep(Deliveries(s, front, id), Exec(s, front), steps[|steps| - 1], id, ackMs);
    }
  }

  lemma {:induction false} SpacedSpan(ts: seq<int>, gap: int)
    requires ts != [] && Spaced(ts, gap)
    ensures ts[0] + (|ts| - 1) * gap <= ts[|ts| - 1]
  {
    if |ts| > 1 {
      SpacedSpan(ts[..|ts| - 1], gap);
      assert (|ts| - 2) * gap + gap == (|ts| - 1) * gap;
    }
  }

  function CeilDiv(a: int, b: int): int
    requires b > 0
  {
    (a + b - 1) / b
  }

  lemma ScaleLe(a: int, b: int, c: nat)
    requires a <= b
    ensures a * c <= b * c
  {
  }

  lemma CountFromSpan(n: int, ackMs: int, ttl: int)
    requires n >= 1 && ackMs > 0 && (n - 1) * Ms(ackMs) < Ms(ttl)
    ensures n <= CeilDiv(ttl, ackMs)
  {
    assert (n - 1) * (1000 * ackMs) == 1000 * ((n - 1) * ackMs);
    assert (n - 1) * ackMs < ttl;
    var q := CeilDiv(ttl, ackMs);
    assert ttl <= q * ackMs by {
      var a := ttl + ackMs - 1;
      assert a == q * ackMs + a % ackMs;
    }
    if q <= n - 1 {
      ScaleLe(q, n - 1, ackMs);
      assert false;
    }
  }

  /**
   * Over a whole run from an empty queue, one envelope is handed out at most
   * ceil(ttl / ackTimeout) times, at instants at least ackTimeout apart, all of them
   * at or after its admission and strictly before its deadline.
   */
  lemma RedeliveryBound(t0: int, steps: seq<Step>, ackMs: nat, k: nat)
    requires ackMs > 0 && Patient(steps, ackMs)
    requires k < |Exec(Init(t0), steps).rows|
    ensures var r := Exec(Init(t0), steps).rows[k];
            var ts := Deliveries(Init(t0), steps, r.id);
            && Spaced(ts, Ms(ackMs))
            && (forall i :: 0 <= i < |ts| ==> r.createdAt <= ts[i] < r.Deadline())
            && (ts == [] || |ts| <= CeilDiv(r.req.ttl, ackMs))
            && (r.req.ttl <= 0 ==> ts == [])
  {
    var r := Exec(Init(t0), steps).rows[k];
    var ts := Deliveries(Init(t0), steps, r.id);
    AccountedRun(Init(t0), steps, r.id, ackMs);
    if ts != [] {
      SpacedSpan(ts, Ms(ackMs));
      CountFromSpan(|ts|, ackMs, r.req.ttl);
    }
  }

  /** Once acknowledged or swept, an envelope is never handed out again. */
  lemma NeverAfterTerminal(s: State, steps: seq<Step>, i: nat, j: nat, k: nat)
    requires Inv(s) && i <= j < |steps|
    requires k < |At(s, steps, i).rows| && Terminal(At(s, steps, i).rows[k].status)
    ensures !Delivers(At(s, steps, j), steps[j], At(s, steps, i).rows[k].id)
  {
    LifeCycle(s, steps, i, j);
    InvRun(s, steps[..j]);
    DeliversIff(At(s, steps, j), steps[j], k);
  }

  /** The acknowledgement of a row that is still live makes it terminal. */
  lemma NeverAfterAck(s: State, steps: seq<Step>, i: nat, j: nat, k: nat)
    requires Inv(s) && i < j < |steps| && steps[i].Ack?
    requires k < |At(s, steps, i).rows| && KeyOf(At(s, steps, i).rows[k].req) == steps[i].key
    ensures !Delivers(At(s, steps, j), steps[j], At(s, steps, i).rows[k].id)
  {
    AtNext(s, steps, i);
    NeverAfterTerminal(s, steps, i + 1, j, k);
  }

  // ----- First-delivery order -----

  /** This step hands the row out for the first time. */
  ghost predicate FirstDelivers(s: State, step: Step, k: nat)
    requires k < |s.rows|
  {
    Delivers(s, step, s.rows[k].id) && s.rows[k].status.Pending?
  }

  /**
   * Two envelopes of one inbox, a admitted before b: if both are ever handed out, a's first
   * delivery is not after b's, and when one fetch is the first for both, a precedes b in its
   * batch (BatchSorted). Envelopes retired or expired unseen have no first delivery.
   */
  lemma FirstDeliveryOrder(s: State, steps: seq<Step>, i: nat, j: nat, a: nat, b: nat)
    requires Inv(s) && j < i < |steps|
    requires a < b < |At(s, steps, j).rows| && a < |At(s, steps, i).rows|
    requires At(s, steps, j).rows[a].req.ws == At(s, steps, j).rows[b].req.ws
    requires At(s, steps, j).rows[a].req.target == At(s, steps, j).rows[b].req.target
    requires FirstDelivers(At(s, steps, j), steps[j], b)
    ensures !FirstDelivers(At(s, steps, i), steps[i], a)
  {
    var sj, si := At(s, steps, j), At(s, steps, i);
    InvRun(s, steps[..j]);
    InvRun(s, steps[..i]);
    DeliversIff(sj, steps[j], b);
    DeliversIff(si, steps[i], a);
    AtNext(s, steps, j);
    LifeCycle(s, steps, j + 1, i);
  }
}

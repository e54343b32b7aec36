/**
 * Definite answers: what the sweep owes the originators of the requests it expires, over
 * every interleaving of sweeps, answers, admissions, fetches and acknowledgements.
 */
module RelayFailures {
  import opened Util
  import opened RelayModel
  import opened RelayInvariants
  import opened RelayDelivery

  /** Where the answer to an expired request can be. */
  ghost predicate Answered(s: State, q: Request)
    requires OwesAnswer(q)
  {
    || HasKey(s.rows, KeyOf(AnswerTo(q)))
    || AnswerTo(q) in s.jobs
    || AnswerTo(q) in s.checked
    || AnswerTo(q) in s.refused
  }

  ghost predicate AllAnswered(s: State) {
    forall k :: 0 <= k < |s.rows| && s.rows[k].status.Expired? && OwesAnswer(s.rows[k].req) ==>
      Answered(s, s.rows[k].req)
  }

  lemma {:induction false} AnswersMember(rows: seq<Row>, q: Request)
    ensures q in Answers(rows) <==> exists k :: 0 <= k < |rows| && OwesAnswer(rows[k].req) && AnswerTo(rows[k].req) == q
  {
    if rows != [] {
      var front := rows[..|rows| - 1];
      AnswersMember(front, q);
      if k :| 0 <= k < |front| && OwesAnswer(front[k].req) && AnswerTo(front[k].req) == q {
        assert rows[k] == front[k];
      }
      if k :| 0 <= k < |rows| && OwesAnswer(rows[k].req) && AnswerTo(rows[k].req) == q {
        if k < |front| {
          assert front[k] == rows[k];
        }
      }
    }
  }

  lemma HasKeyKept(s: State, step: Step, k: Key)
    requires HasKey(s.rows, k)
    ensures HasKey(Apply(s, step).rows, k)
  {
    var i :| 0 <= i < |s.rows| && KeyOf(s.rows[i].req) == k;
    StepLater(s, step);
    assert KeyOf(Apply(s, step).rows[i].req) == k;
  }

  lemma InsertGivesKey(s: State, q: Request)
    ensures HasKey(Apply(s, Insert(q)).rows, KeyOf(q))
  {
    if !HasKey(s.rows, KeyOf(q)) {
      assert KeyOf(Apply(s, Insert(q)).rows[|s.rows|].req) == KeyOf(q);
    }
  }

  lemma AnsweredKept(s: State, step: Step, q: Request)
    requires OwesAnswer(q) && Answered(s, q) && Enabled(s, step)
    ensures Answered(Apply(s, step), q)
  {
    var a, t := AnswerTo(q), Apply(s, step);
    if HasKey(s.rows, KeyOf(a)) {
      HasKeyKept(s, step, KeyOf(a));
    } else if a in s.jobs {
      if step.CheckJob? { RemoveFirstMember(s.jobs, step.req, a); }
    } else if a in s.checked {
      if step.Insert? {
        RemoveFirstMember(s.checked, step.req, a);
        InsertGivesKey(s, step.req);
      }
    }
  }

  lemma AnsweredStep(s: State, step: Step)
    requires AllAnswered(s) && Enabled(s, step)
    ensures AllAnswered(Apply(s, step))
  {
    var t := Apply(s, step);
    forall k | 0 <= k < |t.rows| && t.rows[k].status.Expired? && OwesAnswer(t.rows[k].req)
      ensures Answered(t, t.rows[k].req)
    {
      StepLater(s, step);
      if s.rows[k].status.Expired? {
        AnsweredKept(s, step, s.rows[k].req);
      } else {
        var swept := Filter(s.rows, ExpiringAt(s.now));
        FilterMember(s.rows, ExpiringAt(s.now), s.rows[k]);
        AnswersMember(swept, AnswerTo(s.rows[k].req));
        var j :| 0 <= j < |swept| && swept[j] == s.rows[k];
      }
    }
  }

  lemma {:induction false} AnsweredRun(s: State, steps: seq<Step>)
    requires AllAnswered(s) && Valid(s, steps)
    ensures AllAnswered(Exec(s, steps))
  {
    if steps != [] {
      var n := |steps| - 1;
      ValidPrefix(s, steps, n);
      AnsweredRun(s, steps[..n]);
      assert Enabled(At(s, steps, n), steps[n]);
      AnsweredStep(Exec(s, steps[..n]), steps[n]);
    }
  }

  /**
   * In every reachable state each expired request of a mapped kind with an origin has its
   * answer in the origin's inbox, or on its way there, or was refused as queue_full; once
   * nothing is on its way, one of the two outcomes holds.
   */
  lemma DefiniteAnswer(s: State, k: nat)
    requires Reachable(s) && k < |s.rows|
    requires s.rows[k].status.Expired? && OwesAnswer(s.rows[k].req)
    ensures Answered(s, s.rows[k].req)
    ensures s.jobs == [] && s.checked == [] ==>
              HasKey(s.rows, KeyOf(AnswerTo(s.rows[k].req))) || AnswerTo(s.rows[k].req) in s.refused
  {
    var t, steps :| Valid(Init(t), steps) && s == Exec(Init(t), steps);
    AnsweredRun(Init(t), steps);
  }

  /** A refusal is recorded only when the inbox was full. */
  lemma RefusedOnlyWhenFull(s: State, step: Step)
    ensures var t := Apply(s, step);
            t.refused == s.refused
            || ((step.Check? || step.CheckJob?) && Full(s.rows, step.req) && t.refused == s.refused + [step.req])
  {
  }

  /**
   * What admitting an answer does. A free key receives a pending synthetic result that carries
   * the request's id; a key that is taken keeps whatever row it has.
   */
  lemma AnswerRow(s: State, q: Request)
    requires OwesAnswer(q)
    ensures var rows, n := Apply(s, Insert(AnswerTo(q))).rows, |s.rows|;
            if HasKey(s.rows, KeyOf(AnswerTo(q))) then rows == s.rows
            else
              && |rows| == n + 1 && rows[..n] == s.rows
              && rows[n].status == Pending && rows[n].In(q.ws, q.origin.value)
              && rows[n].req.env == q.env + ".ttl-failed"
              && rows[n].req.correlation == Some(q.env) && rows[n].req.origin == None
              && FailureResultKind(q.kind) == Some(rows[n].req.kind)
              && rows[n].createdAt < rows[n].Deadline()
  {
  }

  /** Two requests share one answer exactly when workspace, originator and envelope id agree:
      one id sent to two targets is answered once. */
  lemma SharedAnswer(p: Request, q: Request)
    requires OwesAnswer(p) && OwesAnswer(q)
    ensures KeyOf(AnswerTo(p)) == KeyOf(AnswerTo(q)) <==> p.ws == q.ws && p.origin == q.origin && p.env == q.env
  {
    var a, b := AnswerTo(p).env, AnswerTo(q).env;
    if a == b {
      assert p.env == a[..|p.env|] && q.env == b[..|q.env|];
    }
  }

  /** An acknowledged request is answered by nothing: it is acknowledged for ever, so never swept. */
  lemma AckedNeverSwept(s: State, steps: seq<Step>, i: nat, j: nat, k: nat)
    requires i <= j <= |steps|
    requires k < |At(s, steps, i).rows| && At(s, steps, i).rows[k].status.Acked?
    ensures k < |At(s, steps, j).rows| && !Expiring(At(s, steps, j).rows[k], At(s, steps, j).now)
    ensures At(s, steps, j).rows[k].status.Acked?
  {
    LifeCycle(s, steps, i, j);
  }

  // ----- Answers never breed answers -----

  /** Admissions by callers always name an originator, as handleRelay makes them do. */
  ghost predicate CallersNamed(steps: seq<Step>) {
    forall i :: 0 <= i < |steps| && steps[i].Check? ==> steps[i].req.origin.Some?
  }

  function Unsigned(): Request -> bool { (q: Request) => q.origin.None? }

  function UnsignedRow(): Row -> bool { (r: Row) => r.req.origin.None? }

  function ExpiredOwing(): Row -> bool { (r: Row) => r.status.Expired? && OwesAnswer(r.req) }

  /** Synthetic envelopes anywhere in the hub, against the requests that were expired. */
  ghost predicate Bred(s: State) {
    && (forall q :: q in s.jobs ==> q.origin.None? && FailureResultKind(q.kind).None?)
    && (forall q :: q in s.checked && q.origin.None? ==> FailureResultKind(q.kind).None?)
    && (forall r :: r in s.rows && r.req.origin.None? ==> FailureResultKind(r.req.kind).None?)
    && |Filter(s.rows, UnsignedRow())| + |Filter(s.checked, Unsigned())| + |s.jobs|
         <= |Filter(s.rows, ExpiredOwing())|
  }

  lemma AnswerIsFinal(q: Request)
    requires OwesAnswer(q)
    ensures !OwesAnswer(AnswerTo(q)) && AnswerTo(q).origin.None? && FailureResultKind(AnswerTo(q).kind).None?
  {
  }

  /** The sweep owes exactly as many answers as the requests it moves to expired. */
  lemma {:induction false} SweepCounts(rows: seq<Row>, now: int)
    ensures |Filter(Map(rows, ExpireRow(now)), ExpiredOwing())|
            == |Filter(rows, ExpiredOwing())| + |Answers(Filter(rows, ExpiringAt(now)))|
  {
    if rows != [] {
      var u, x := rows[..|rows| - 1], rows[|rows| - 1];
      assert rows == u + [x];
      SweepCounts(u, now);
      MapSnoc(u, x, ExpireRow(now));
      FilterSnoc(Map(u, ExpireRow(now)), ExpireRow(now)(x), ExpiredOwing());
      if Expiring(x, now) {
        var e := Filter(u, ExpiringAt(now));
        assert (e + [x])[..|e|] == e;
      } else {
        assert Filter(rows, ExpiringAt(now)) == Filter(u, ExpiringAt(now));
      }
    }
  }

  lemma {:induction false} UpdateGrows(rows: seq<Row>, f: Row -> Row)
    requires forall r :: r in rows ==> f(r).req == r.req && (r.status.Expired? ==> f(r).status.Expired?)
    ensures |Filter(Map(rows, f), ExpiredOwing())| >= |Filter(rows, ExpiredOwing())|
    ensures |Filter(Map(rows, f), UnsignedRow())| == |Filter(rows, UnsignedRow())|
  {
    if rows != [] {
      var u, x := rows[..|rows| - 1], rows[|rows| - 1];
      assert rows == u + [x];
      UpdateGrows(u, f);
      MapSnoc(u, x, f);
      FilterSnoc(Map(u, f), f(x), ExpiredOwing());
      FilterSnoc(Map(u, f), f(x), UnsignedRow());
    }
  }

  lemma BredUpdate(s: State, f: Row -> Row, t: State)
    requires Bred(s) && t.rows == Map(s.rows, f) && t.checked == s.checked && t.jobs == s.jobs
    requires forall r :: r in s.rows ==> f(r).req == r.req && (r.status.Expired? ==> f(r).status.Expired?)
    ensures Bred(t)
  {
    UpdateGrows(s.rows, f);
  }

  lemma BredSweep(s: State)
    requires Bred(s)
    ensures Bred(Apply(s, Sweep))
  {
    var t := Apply(s, Sweep);
    var swept := Filter(s.rows, ExpiringAt(s.now));
    SweepCounts(s.rows, s.now);
    UpdateGrows(s.rows, ExpireRow(s.now));
    forall q | q in Answers(swept) ensures q.origin.None? && FailureResultKind(q.kind).None? {
      AnswersMember(swept, q);
      var k :| 0 <= k < |swept| && OwesAnswer(swept[k].req) && AnswerTo(swept[k].req) == q;
      AnswerIsFinal(swept[k].req);
    }
  }

  lemma BredInsert(s: State, q: Request)
    requires Bred(s) && q in s.checked
    ensures Bred(Apply(s, Insert(q)))
  {
    RemoveFirstFilter(s.checked, q, Unsigned());
    RemoveFirstSize(Filter(s.checked, Unsigned()), q);
    FilterMember(s.checked, Unsigned(), q);
    forall x | x in RemoveFirst(s.checked, q) ensures x in s.checked { RemoveFirstMember(s.checked, q, x); }
    var r := NewRow(s.nextId, q, s.now);
    FilterSnoc(s.rows, r, UnsignedRow());
    FilterSnoc(s.rows, r, ExpiredOwing());
  }

  lemma BredStep(s: State, step: Step)
    requires Bred(s) && Enabled(s, step) && (step.Check? ==> step.req.origin.Some?)
    ensures Bred(Apply(s, step))
  {
    match step
    case Tick(_) =>
    case Check(q) => FilterSnoc(s.checked, q, Unsigned());
    case CheckJob(q) =>
      FilterSnoc(s.checked, q, Unsigned());
      RemoveFirstSize(s.jobs, q);
      forall x | x in RemoveFirst(s.jobs, q) ensures x in s.jobs { RemoveFirstMember(s.jobs, q, x); }
    case Insert(q) => BredInsert(s, q);
    case Fetch(w, m, ackMs) => BredUpdate(s, DeliverRow(s.now, w, m, ackMs), Apply(s, step));
    case Ack(k) => BredUpdate(s, AckRow(s.now, k), Apply(s, step));
    case Sweep => BredSweep(s);
  }

  lemma {:induction false} BredRun(t0: int, steps: seq<Step>)
    requires Valid(Init(t0), steps) && CallersNamed(steps)
    ensures Bred(Exec(Init(t0), steps))
  {
    if steps != [] {
      var n := |steps| - 1;
      ValidPrefix(Init(t0), steps, n);
      BredRun(t0, steps[..n]);
      assert Enabled(At(Init(t0), steps, n), steps[n]);
      BredStep(Exec(Init(t0), steps[..n]), steps[n]);
    }
  }

  /**
   * Synthetic envelopes (rows, in flight and still to be admitted) never outnumber the
   * requests expired so far, and no synthetic row is itself ever owed an answer.
   */
  lemma AnswersDoNotBreed(t0: int, steps: seq<Step>)
    requires Valid(Init(t0), steps) && CallersNamed(steps)
    ensures var s := Exec(Init(t0), steps);
            && |Filter(s.rows, UnsignedRow())| + |Filter(s.checked, Unsigned())| + |s.jobs|
                 <= |Filter(s.rows, ExpiredOwing())|
            && forall r :: r in s.rows && r.req.origin.None? ==> !OwesAnswer(r.req)
  {
    BredRun(t0, steps);
  }
}

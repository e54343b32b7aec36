/**
 * Which expired requests are left without their answer: exactly those whose answer's key a caller
 * took first, and those for which the sweep found the originator's inbox full.
 */
module RelayAnswers {
  import opened Util
  import opened RelayModel
  import opened RelayInvariants
  import opened RelayFailures
  import opened RelayStatements

  /** What handleRelay admits: it names an originator and carries the text that was posted. */
  predicate FromCaller(q: Request) { q.origin.Some? && q.payload.Submitted? }

  ghost predicate CallersSubmit(steps: seq<Step>) {
    forall i :: 0 <= i < |steps| && steps[i].Check? ==> FromCaller(steps[i].req)
  }

  // ----- Where unsigned requests come from -----

  /** The request is the answer to an expired row of the table. */
  ghost predicate Backed(s: State, a: Request) {
    exists k :: 0 <= k < |s.rows| && s.rows[k].status.Expired? && OwesAnswer(s.rows[k].req)
        && AnswerTo(s.rows[k].req) == a
  }

  ghost predicate Origins(s: State) {
    && (forall i :: 0 <= i < |s.rows| ==> FromCaller(s.rows[i].req) || Backed(s, s.rows[i].req))
    && (forall q :: q in s.checked ==> FromCaller(q) || Backed(s, q))
    && (forall q :: q in s.jobs ==> Backed(s, q))
  }

  lemma BackedKept(s: State, step: Step, a: Request)
    requires Backed(s, a)
    ensures Backed(Apply(s, step), a)
  {
    var k :| 0 <= k < |s.rows| && s.rows[k].status.Expired? && OwesAnswer(s.rows[k].req)
        && AnswerTo(s.rows[k].req) == a;
    StepLater(s, step);
    assert Apply(s, step).rows[k] == s.rows[k];
  }

  lemma SweptIsBacked(s: State, a: Request)
    requires a in Answers(Filter(s.rows, ExpiringAt(s.now)))
    ensures Backed(Apply(s, Sweep), a)
  {
    var swept := Filter(s.rows, ExpiringAt(s.now));
    AnswersMember(swept, a);
    var j :| 0 <= j < |swept| && OwesAnswer(swept[j].req) && AnswerTo(swept[j].req) == a;
    var r := swept[j];
    FilterMember(s.rows, ExpiringAt(s.now), r);
    var k :| 0 <= k < |s.rows| && s.rows[k] == r;
    ExpiryBacks(s, k);
  }

  lemma ExpiryBacks(s: State, k: nat)
    requires k < |s.rows| && Expiring(s.rows[k], s.now) && OwesAnswer(s.rows[k].req)
    ensures Backed(Apply(s, Sweep), AnswerTo(s.rows[k].req))
  {
    assert Apply(s, Sweep).rows[k] == s.rows[k].(status := Expired);
  }

  /** Whatever a step adds to the rows, the admissions in flight or the owed answers. */
  lemma OriginsStep(s: State, step: Step)
    requires Origins(s) && Enabled(s, step) && (step.Check? ==> FromCaller(step.req))
    ensures Origins(Apply(s, step))
  {
    var t := Apply(s, step);
    forall a | Backed(s, a) ensures Backed(t, a) { BackedKept(s, step, a); }
    StepLater(s, step);
    forall i | 0 <= i < |t.rows| ensures FromCaller(t.rows[i].req) || Backed(t, t.rows[i].req) {
      if i < |s.rows| {
        assert t.rows[i].req == s.rows[i].req;
      }
    }
    forall q | q in t.checked ensures FromCaller(q) || Backed(t, q) {
      if step.Insert? { RemoveFirstMember(s.checked, step.req, q); }
    }
    forall q | q in t.jobs ensures Backed(t, q) {
      if step.CheckJob? {
        RemoveFirstMember(s.jobs, step.req, q);
      } else if step.Sweep? && q !in s.jobs {
        SweptIsBacked(s, q);
      }
    }
  }

  lemma {:induction false} OriginsRun(t0: int, steps: seq<Step>)
    requires Valid(Init(t0), steps) && CallersSubmit(steps)
    ensures Origins(Exec(Init(t0), steps))
  {
    if steps != [] {
      var n := |steps| - 1;
      ValidPrefix(Init(t0), steps, n);
      OriginsRun(t0, steps[..n]);
      assert Enabled(At(Init(t0), steps, n), steps[n]);
      OriginsStep(Exec(Init(t0), steps[..n]), steps[n]);
    }
  }

  /** In every run, whatever is not a caller's is the answer to an expired request of the table. */
  lemma UnsignedIsAnswer(t0: int, steps: seq<Step>, q: Request)
    requires Valid(Init(t0), steps) && CallersSubmit(steps) && q.origin.None?
    requires var s := Exec(Init(t0), steps); q in s.checked || q in s.jobs || exists r <- s.rows :: r.req == q
    ensures Backed(Exec(Init(t0), steps), q)
  {
    OriginsRun(t0, steps);
  }

  // ----- Telling an answer from an envelope that has its key -----

  /** The row the originator of q waits for. */
  predicate IsAnswer(r: Row, q: Request)
    requires OwesAnswer(q)
  {
    KeyOf(r.req) == KeyOf(AnswerTo(q)) && r.req.payload == TtlFailure(q.env) && r.req.correlation == Some(q.env)
  }

  ghost predicate HasAnswer(s: State, q: Request)
    requires OwesAnswer(q)
  {
    exists j :: 0 <= j < |s.rows| && IsAnswer(s.rows[j], q)
  }

  /** A caller's envelope sits under the key. */
  ghost predicate TakenByCaller(s: State, k: Key) {
    exists j :: 0 <= j < |s.rows| && KeyOf(s.rows[j].req) == k && s.rows[j].req.origin.Some?
  }

  /** A row under the answer's key is the answer exactly when no caller is its originator. */
  lemma AnswerIffUnsigned(t0: int, steps: seq<Step>, j: nat, q: Request)
    requires Valid(Init(t0), steps) && CallersSubmit(steps) && OwesAnswer(q)
    requires j < |Exec(Init(t0), steps).rows| && KeyOf(Exec(Init(t0), steps).rows[j].req) == KeyOf(AnswerTo(q))
    ensures IsAnswer(Exec(Init(t0), steps).rows[j], q) <==> Exec(Init(t0), steps).rows[j].req.origin.None?
  {
    OriginsRun(t0, steps);
    var s := Exec(Init(t0), steps);
    if Backed(s, s.rows[j].req) {
      var k :| 0 <= k < |s.rows| && s.rows[k].status.Expired? && OwesAnswer(s.rows[k].req)
          && AnswerTo(s.rows[k].req) == s.rows[j].req;
      SharedAnswer(s.rows[k].req, q);
    }
  }

  // ----- What the sweep's own checks decided -----

  /** A sweep's check let the request through. */
  ghost predicate LetIn(t0: int, steps: seq<Step>, a: Request) {
    exists i :: 0 <= i < |steps| && steps[i] == CheckJob(a) && !Full(At(Init(t0), steps, i).rows, a)
  }

  /** A sweep's check of the request found the inbox full. */
  ghost predicate TurnedAway(t0: int, steps: seq<Step>, a: Request) {
    exists i :: 0 <= i < |steps| && steps[i] == CheckJob(a) && Full(At(Init(t0), steps, i).rows, a)
  }

  ghost predicate Traced(t0: int, steps: seq<Step>, s: State) {
    && (forall q :: q in s.checked && q.origin.None? ==> LetIn(t0, steps, q))
    && (forall i :: 0 <= i < |s.rows| && s.rows[i].req.origin.None? ==> LetIn(t0, steps, s.rows[i].req))
    && (forall q :: q in s.refused && q.origin.None? ==> TurnedAway(t0, steps, q))
    && (forall a :: LetIn(t0, steps, a) ==> a in s.checked || HasKey(s.rows, KeyOf(a)))
  }

  /** Earlier checks stay on record, and only a check of a sweep adds to the record. */
  lemma RecordGrows(t0: int, steps: seq<Step>, n: nat, a: Request)
    requires n + 1 == |steps|
    ensures var last := steps[n] == CheckJob(a);
            var full := Full(Exec(Init(t0), steps[..n]).rows, a);
            && (LetIn(t0, steps, a) <==> LetIn(t0, steps[..n], a) || (last && !full))
            && (TurnedAway(t0, steps, a) <==> TurnedAway(t0, steps[..n], a) || (last && full))
  {
    var front := steps[..n];
    forall i | 0 <= i < n ensures At(Init(t0), front, i) == At(Init(t0), steps, i) && front[i] == steps[i] {
      AtPrefix(Init(t0), steps, n, i);
    }
    assert At(Init(t0), steps, n) == Exec(Init(t0), front);
    if i :| 0 <= i < n && front[i] == CheckJob(a) && !Full(At(Init(t0), front, i).rows, a) {
      assert steps[i] == CheckJob(a) && !Full(At(Init(t0), steps, i).rows, a);
    }
    if i :| 0 <= i < n && front[i] == CheckJob(a) && Full(At(Init(t0), front, i).rows, a) {
      assert steps[i] == CheckJob(a) && Full(At(Init(t0), steps, i).rows, a);
    }
    if i :| 0 <= i <= n && steps[i] == CheckJob(a) && !Full(At(Init(t0), steps, i).rows, a) {
      assert i < n ==> front[i] == CheckJob(a) && !Full(At(Init(t0), front, i).rows, a);
    }
    if i :| 0 <= i <= n && steps[i] == CheckJob(a) && Full(At(Init(t0), steps, i).rows, a) {
      assert i < n ==> front[i] == CheckJob(a) && Full(At(Init(t0), front, i).rows, a);
    }
  }

  lemma TracedStep(t0: int, steps: seq<Step>, n: nat, s: State)
    requires n + 1 == |steps| && s == Exec(Init(t0), steps[..n]) && Traced(t0, steps[..n], s)
    requires Enabled(s, steps[n]) && (steps[n].Check? ==> steps[n].req.origin.Some?)
    ensures Traced(t0, steps, Apply(s, steps[n]))
  {
    var step, t := steps[n], Apply(s, steps[n]);
    forall q | q in t.checked && q.origin.None? ensures LetIn(t0, steps, q) {
      RecordGrows(t0, steps, n, q);
      if step.Insert? { RemoveFirstMember(s.checked, step.req, q); }
    }
    StepLater(s, step);
    forall i | 0 <= i < |t.rows| && t.rows[i].req.origin.None? ensures LetIn(t0, steps, t.rows[i].req) {
      RecordGrows(t0, steps, n, t.rows[i].req);
      if i < |s.rows| { assert t.rows[i].req == s.rows[i].req; }
    }
    forall q | q in t.refused && q.origin.None? ensures TurnedAway(t0, steps, q) { RecordGrows(t0, steps, n, q); }
    forall a | LetIn(t0, steps, a) ensures a in t.checked || HasKey(t.rows, KeyOf(a)) {
      RecordGrows(t0, steps, n, a);
      if HasKey(s.rows, KeyOf(a)) {
        HasKeyKept(s, step, KeyOf(a));
      } else if step.Insert? {
        RemoveFirstMember(s.checked, step.req, a);
        InsertGivesKey(s, step.req);
      }
    }
  }

  lemma {:induction false} TracedRun(t0: int, steps: seq<Step>)
    requires Valid(Init(t0), steps) && CallersNamed(steps)
    ensures Traced(t0, steps, Exec(Init(t0), steps))
  {
    if steps != [] {
      var n := |steps| - 1;
      ValidPrefix(Init(t0), steps, n);
      TracedRun(t0, steps[..n]);
      assert Enabled(At(Init(t0), steps, n), steps[n]);
      TracedStep(t0, steps, n, Exec(Init(t0), steps[..n]));
    }
  }

  /** A refused answer was refused by a check of the sweep that found the inbox full, not by a caller's. */
  lemma RefusalIsTheSweeps(t0: int, steps: seq<Step>, q: Request)
    requires Valid(Init(t0), steps) && CallersNamed(steps) && OwesAnswer(q)
    requires AnswerTo(q) in Exec(Init(t0), steps).refused
    ensures TurnedAway(t0, steps, AnswerTo(q))
  {
    TracedRun(t0, steps);
  }

  // ----- Exactly when the answer is missing -----

  /** The sweep tried, and every check of its under this answer's key found the inbox full. */
  ghost predicate OnlyTurnedAway(t0: int, steps: seq<Step>, q: Request)
    requires OwesAnswer(q)
  {
    TurnedAway(t0, steps, AnswerTo(q)) && forall a :: LetIn(t0, steps, a) ==> KeyOf(a) != KeyOf(AnswerTo(q))
  }

  ghost predicate Owed(s: State, k: nat) {
    k < |s.rows| && s.rows[k].status.Expired? && OwesAnswer(s.rows[k].req)
  }

  /** Nothing is on its way any more. */
  predicate Quiet(s: State) { s.jobs == [] && s.checked == [] }

  /**
   * Over every run, once no admission and no answer is under way: an expired request that is owed
   * an answer has none exactly when a caller's envelope holds the answer's key, or each time the
   * sweep tried the key it found the originator's inbox full.
   */
  lemma AnswerMissingIff(t0: int, steps: seq<Step>, k: nat)
    requires Valid(Init(t0), steps) && CallersSubmit(steps)
    requires Quiet(Exec(Init(t0), steps)) && Owed(Exec(Init(t0), steps), k)
    ensures var s := Exec(Init(t0), steps);
            var q := s.rows[k].req;
            !HasAnswer(s, q) <==> TakenByCaller(s, KeyOf(AnswerTo(q))) || OnlyTurnedAway(t0, steps, q)
  {
    var s := Exec(Init(t0), steps);
    var q := s.rows[k].req;
    TracedRun(t0, steps);
    if j :| 0 <= j < |s.rows| && KeyOf(s.rows[j].req) == KeyOf(AnswerTo(q)) {
      InvRun(Init(t0), steps);
      OneRowPerKey(s, j, KeyOf(AnswerTo(q)));
      AnswerIffUnsigned(t0, steps, j, q);
    } else {
      NoRowMeansTurnedAway(t0, steps, k);
    }
  }

  lemma NoRowMeansTurnedAway(t0: int, steps: seq<Step>, k: nat)
    requires Valid(Init(t0), steps) && CallersNamed(steps)
    requires Quiet(Exec(Init(t0), steps)) && Owed(Exec(Init(t0), steps), k)
    requires !HasKey(Exec(Init(t0), steps).rows, KeyOf(AnswerTo(Exec(Init(t0), steps).rows[k].req)))
    ensures OnlyTurnedAway(t0, steps, Exec(Init(t0), steps).rows[k].req)
  {
    TracedRun(t0, steps);
    assert Reachable(Exec(Init(t0), steps));
    DefiniteAnswer(Exec(Init(t0), steps), k);
  }

  /**
   * Every live request owed an answer that a sweep finds past its deadline: it is expired from then
   * on, its answer is on its way, refused or has its key in the table, and once nothing is under way
   * it is there unless a caller's envelope took its key or every check of the sweep's found no room.
   */
  lemma DueIsAnswered(t0: int, steps: seq<Step>, i: nat, j: nat, k: nat)
    requires Valid(Init(t0), steps) && CallersSubmit(steps) && i < j <= |steps| && steps[i] == Sweep
    requires var s := At(Init(t0), steps, i);
             && k < |s.rows| && OwesAnswer(s.rows[k].req)
             && (s.rows[k].status == Pending || s.rows[k].status == Delivered)
             && s.rows[k].createdAt + 1000 * s.rows[k].req.ttl <= s.now
    ensures var (q, u) := (At(Init(t0), steps, i).rows[k].req, At(Init(t0), steps, j));
            && k < |u.rows| && u.rows[k].status == Expired && u.rows[k].req == q
            && Answered(u, q)
            && (Quiet(u) ==> (HasAnswer(u, q) <==> !TakenByCaller(u, KeyOf(AnswerTo(q)))
                                                    && !OnlyTurnedAway(t0, steps[..j], q)))
  {
    var s, u := At(Init(t0), steps, i), At(Init(t0), steps, j);
    AtNext(Init(t0), steps, i);
    SweepExact(s, k);
    LifeCycle(Init(t0), steps, i + 1, j);
    ValidPrefix(Init(t0), steps, j);
    assert Reachable(u);
    DefiniteAnswer(u, k);
    if Quiet(u) {
      AnswerMissingIff(t0, steps[..j], k);
    }
  }

  lemma OneRowPerKey(s: State, j: nat, k: Key)
    requires Inv(s) && j < |s.rows| && KeyOf(s.rows[j].req) == k
    ensures forall i :: 0 <= i < |s.rows| && KeyOf(s.rows[i].req) == k ==> i == j
  {
    forall i | 0 <= i < |s.rows| && KeyOf(s.rows[i].req) == k ensures i == j {
      if i < j {
      } else if j < i {
      }
    }
  }
}

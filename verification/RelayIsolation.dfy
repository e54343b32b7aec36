/**
 * Workspace non-interference: although the sweep and its answers are global, what one
 * workspace sees does not depend on what the others do.
 */
module RelayIsolation {
  import opened Util
  import opened RelayModel
  import opened RelayInvariants
  import opened RelayDelivery

  // ----- What one workspace can see -----

  function RowOf(w: string): Row -> bool { (r: Row) => r.req.ws == w }

  function RequestOf(w: string): Request -> bool { (q: Request) => q.ws == w }

  /** Ids come from one global sequence; all that is promised of them is their order. */
  function NoId(): Row -> Row { (r: Row) => r.(id := 0) }

  function OnlyRows(rows: seq<Row>, w: string): seq<Row> { Map(Filter(rows, RowOf(w)), NoId()) }

  function Only(s: State, w: string): State {
    State(s.now, OnlyRows(s.rows, w), 0, Filter(s.checked, RequestOf(w)), Filter(s.jobs, RequestOf(w)),
          Filter(s.refused, RequestOf(w)))
  }

  /** Steps of this workspace, and the global ones. */
  predicate Concerns(step: Step, w: string) {
    match step
    case Tick(_) => true
    case Check(q) => q.ws == w
    case CheckJob(q) => q.ws == w
    case Insert(q) => q.ws == w
    case Fetch(ws, _, _) => ws == w
    case Ack(k) => k.ws == w
    case Sweep => true
  }

  function Concerning(w: string): Step -> bool { (step: Step) => Concerns(step, w) }

  /** The run without the other workspaces' steps. */
  function Erase(steps: seq<Step>, w: string): seq<Step> { Filter(steps, Concerning(w)) }

  /** Every batch handed to the workspace, in order. */
  function BatchesFor(s: State, steps: seq<Step>, w: string): seq<seq<Row>> {
    if steps == [] then []
    else
      var front, last := steps[..|steps| - 1], steps[|steps| - 1];
      BatchesFor(s, front, w)
      + (if last.Fetch? && last.ws == w
         then [Map(Batch(Exec(s, front), w, last.target, last.ackMs), NoId())] else [])
  }

  // ----- The projection and the queries -----

  /** A query confined to the workspace reads the same rows, ids aside, from the projection. */
  lemma QueryOnly(rows: seq<Row>, w: string, p: Row -> bool)
    requires forall r: Row :: p(r) ==> r.req.ws == w
    requires forall r: Row :: p(r.(id := 0)) == p(r)
    ensures Filter(OnlyRows(rows, w), p) == Map(Filter(rows, p), NoId())
  {
    FilterMap(Filter(rows, RowOf(w)), NoId(), p, p);
    FilterFilter(rows, RowOf(w), p, p);
  }

  lemma {:induction false} BytesNoId(rows: seq<Row>)
    ensures TotalBytes(Map(rows, NoId())) == TotalBytes(rows)
  {
    if rows != [] {
      var u, x := rows[..|rows| - 1], rows[|rows| - 1];
      assert rows == u + [x];
      BytesNoId(u);
      MapSnoc(u, x, NoId());
      assert Map(rows, NoId())[..|u|] == Map(u, NoId());
    }
  }

  lemma FullOnly(rows: seq<Row>, q: Request)
    ensures Full(OnlyRows(rows, q.ws), q) == Full(rows, q)
  {
    QueryOnly(rows, q.ws, Counted(q));
    BytesNoId(Filter(rows, Counted(q)));
  }

  lemma HasKeyOnly(rows: seq<Row>, k: Key)
    ensures HasKey(OnlyRows(rows, k.ws), k) == HasKey(rows, k)
  {
    var mine := Filter(rows, RowOf(k.ws));
    var m := OnlyRows(rows, k.ws);
    if i :| 0 <= i < |rows| && KeyOf(rows[i].req) == k {
      FilterMember(rows, RowOf(k.ws), rows[i]);
      var j :| 0 <= j < |mine| && mine[j] == rows[i];
      assert KeyOf(m[j].req) == k;
    }
    if i :| 0 <= i < |m| && KeyOf(m[i].req) == k {
      FilterMember(rows, RowOf(k.ws), mine[i]);
      var j :| 0 <= j < |rows| && rows[j] == mine[i];
      assert KeyOf(rows[j].req) == k;
    }
  }

  // ----- The projection and the updates -----

  lemma OnlyUpdate(rows: seq<Row>, w: string, f: Row -> Row)
    requires forall r: Row :: f(r).req == r.req && f(r.(id := 0)) == f(r).(id := 0)
    ensures OnlyRows(Map(rows, f), w) == Map(OnlyRows(rows, w), f)
  {
    FilterMap(rows, f, RowOf(w), RowOf(w));
  }

  lemma OnlyForeignUpdate(rows: seq<Row>, w: string, f: Row -> Row)
    requires forall r: Row :: f(r).req == r.req && (r.req.ws == w ==> f(r) == r)
    ensures OnlyRows(Map(rows, f), w) == OnlyRows(rows, w)
  {
    FilterMap(rows, f, RowOf(w), RowOf(w));
    var mine := Filter(rows, RowOf(w));
    forall i | 0 <= i < |mine| ensures f(mine[i]) == mine[i] { FilterMember(rows, RowOf(w), mine[i]); }
    assert Map(mine, f) == mine;
  }

  lemma OnlyAppend(rows: seq<Row>, r: Row, w: string)
    ensures OnlyRows(rows + [r], w) == OnlyRows(rows, w) + (if r.req.ws == w then [r.(id := 0)] else [])
  {
    FilterSnoc(rows, r, RowOf(w));
    if r.req.ws == w {
      MapSnoc(Filter(rows, RowOf(w)), r, NoId());
    }
  }

  lemma {:induction false} OnlyAnswers(rows: seq<Row>, w: string)
    ensures Filter(Answers(rows), RequestOf(w)) == Answers(Filter(rows, RowOf(w)))
  {
    if rows != [] {
      var u, x := rows[..|rows| - 1], rows[|rows| - 1];
      OnlyAnswers(u, w);
      if OwesAnswer(x.req) {
        FilterSnoc(Answers(u), AnswerTo(x.req), RequestOf(w));
      } else {
        assert Answers(rows) == Answers(u);
      }
      var e := Filter(u, RowOf(w));
      if x.req.ws == w {
        assert (e + [x])[..|e|] == e;
      } else {
        assert Filter(rows, RowOf(w)) == e;
      }
    }
  }

  lemma {:induction false} AnswersNoId(rows: seq<Row>)
    ensures Answers(Map(rows, NoId())) == Answers(rows)
  {
    if rows != [] {
      var u, x := rows[..|rows| - 1], rows[|rows| - 1];
      assert rows == u + [x];
      AnswersNoId(u);
      MapSnoc(u, x, NoId());
      assert Map(rows, NoId())[..|u|] == Map(u, NoId());
    }
  }

  // ----- One step -----

  /** The projected state, stepped and projected, is the stepped state projected. */
  ghost predicate Commutes(s: State, step: Step, w: string) {
    Only(Apply(s, step), w) == Only(Apply(Only(s, w), step), w)
  }

  lemma OnlyTwice(s: State, w: string)
    ensures Only(Only(s, w), w) == Only(s, w)
  {
    RowsTwice(s.rows, w);
    RequestsTwice(s.checked, w);
    RequestsTwice(s.jobs, w);
    RequestsTwice(s.refused, w);
  }

  lemma RowsTwice(rows: seq<Row>, w: string)
    ensures OnlyRows(OnlyRows(rows, w), w) == OnlyRows(rows, w)
  {
    QueryOnly(rows, w, RowOf(w));
  }

  lemma RequestsTwice(qs: seq<Request>, w: string)
    ensures Filter(Filter(qs, RequestOf(w)), RequestOf(w)) == Filter(qs, RequestOf(w))
  {
    FilterFilter(qs, RequestOf(w), RequestOf(w), RequestOf(w));
  }

  lemma CommutesUpdate(s: State, w: string, f: Row -> Row)
    requires forall r: Row :: f(r).req == r.req && f(r.(id := 0)) == f(r).(id := 0)
    ensures OnlyRows(Map(s.rows, f), w) == OnlyRows(Map(Only(s, w).rows, f), w)
  {
    OnlyUpdate(s.rows, w, f);
    OnlyUpdate(OnlyRows(s.rows, w), w, f);
    RowsTwice(s.rows, w);
  }

  lemma CommutesCheck(s: State, q: Request)
    ensures Only(Checked(s, q), q.ws) == Only(Checked(Only(s, q.ws), q), q.ws)
  {
    var w := q.ws;
    FullOnly(s.rows, q);
    OnlyTwice(s, w);
    FilterSnoc(s.refused, q, RequestOf(w));
    FilterSnoc(s.checked, q, RequestOf(w));
    FilterSnoc(Filter(s.refused, RequestOf(w)), q, RequestOf(w));
    FilterSnoc(Filter(s.checked, RequestOf(w)), q, RequestOf(w));
  }

  lemma CommutesCheckJob(s: State, q: Request)
    ensures Commutes(s, CheckJob(q), q.ws)
  {
    var w := q.ws;
    var taken := s.(jobs := RemoveFirst(s.jobs, q));
    RemoveFirstFilter(s.jobs, q, RequestOf(w));
    assert Only(taken, w) == Only(s, w).(jobs := RemoveFirst(Only(s, w).jobs, q));
    CommutesCheck(taken, q);
  }

  lemma CommutesInsert(s: State, q: Request)
    ensures Commutes(s, Insert(q), q.ws)
  {
    var w := q.ws;
    OnlyTwice(s, w);
    HasKeyOnly(s.rows, KeyOf(q));
    RemoveFirstFilter(s.checked, q, RequestOf(w));
    RemoveFirstFilter(Filter(s.checked, RequestOf(w)), q, RequestOf(w));
    OnlyAppend(s.rows, NewRow(s.nextId, q, s.now), w);
    OnlyAppend(OnlyRows(s.rows, w), NewRow(0, q, s.now), w);
  }

  lemma SweptOnly(s: State, w: string)
    ensures Filter(Answers(Filter(s.rows, ExpiringAt(s.now))), RequestOf(w))
            == Answers(Filter(OnlyRows(s.rows, w), ExpiringAt(s.now)))
  {
    var expiring, mine := ExpiringAt(s.now), RowOf(w);
    var both := (r: Row) => r.req.ws == w && Expiring(r, s.now);
    OnlyAnswers(Filter(s.rows, expiring), w);
    FilterFilter(s.rows, expiring, mine, both);
    FilterFilter(s.rows, mine, expiring, both);
    FilterMap(Filter(s.rows, mine), NoId(), expiring, expiring);
    AnswersNoId(Filter(s.rows, both));
  }

  lemma CommutesSweep(s: State, w: string)
    ensures Commutes(s, Sweep, w)
  {
    OnlyTwice(s, w);
    CommutesUpdate(s, w, ExpireRow(s.now));
    SweptOnly(s, w);
    SweptOnly(Only(s, w), w);
    RowsTwice(s.rows, w);
    FilterConcat(s.jobs, Answers(Filter(s.rows, ExpiringAt(s.now))), RequestOf(w));
    FilterConcat(Only(s, w).jobs, Answers(Filter(Only(s, w).rows, ExpiringAt(s.now))), RequestOf(w));
  }

  lemma OwnStep(s: State, step: Step, w: string)
    requires Concerns(step, w)
    ensures Commutes(s, step, w)
  {
    OnlyTwice(s, w);
    match step
    case Tick(_) =>
    case Check(q) => CommutesCheck(s, q);
    case CheckJob(q) => CommutesCheckJob(s, q);
    case Insert(q) => CommutesInsert(s, q);
    case Fetch(ws, m, ackMs) => CommutesUpdate(s, w, DeliverRow(s.now, ws, m, ackMs));
    case Ack(k) => CommutesUpdate(s, w, AckRow(s.now, k));
    case Sweep => CommutesSweep(s, w);
  }

  lemma ForeignCheck(s: State, q: Request, w: string)
    requires q.ws != w
    ensures Only(Checked(s, q), w) == Only(s, w)
  {
    FilterSnoc(s.refused, q, RequestOf(w));
    FilterSnoc(s.checked, q, RequestOf(w));
  }

  /** A step of another workspace is invisible. */
  lemma ForeignStep(s: State, step: Step, w: string)
    requires !Concerns(step, w)
    ensures Only(Apply(s, step), w) == Only(s, w)
  {
    match step
    case Check(q) => ForeignCheck(s, q, w);
    case CheckJob(q) =>
      RemoveFirstFilter(s.jobs, q, RequestOf(w));
      ForeignCheck(s.(jobs := RemoveFirst(s.jobs, q)), q, w);
    case Insert(q) =>
      RemoveFirstFilter(s.checked, q, RequestOf(w));
      OnlyAppend(s.rows, NewRow(s.nextId, q, s.now), w);
    case Fetch(ws, m, ackMs) => OnlyForeignUpdate(s.rows, w, DeliverRow(s.now, ws, m, ackMs));
    case Ack(k) => OnlyForeignUpdate(s.rows, w, AckRow(s.now, k));
  }

  /** States that look alike to w stay alike, and enable the same steps of w. */
  lemma AlikeStep(s: State, t: State, step: Step, w: string)
    requires Only(s, w) == Only(t, w) && Concerns(step, w)
    ensures Only(Apply(s, step), w) == Only(Apply(t, step), w)
    ensures Enabled(s, step) == Enabled(t, step)
  {
    OwnStep(s, step, w);
    OwnStep(t, step, w);
    if step.CheckJob? {
      FilterMember(s.jobs, RequestOf(w), step.req);
      FilterMember(t.jobs, RequestOf(w), step.req);
    } else if step.Insert? {
      FilterMember(s.checked, RequestOf(w), step.req);
      FilterMember(t.checked, RequestOf(w), step.req);
    }
  }

  /** The batch of a fetch is determined, ids aside, by what the workspace sees. */
  lemma BatchAlike(s: State, t: State, w: string, target: string, ackMs: int)
    requires Only(s, w) == Only(t, w)
    ensures Map(Batch(s, w, target, ackMs), NoId()) == Map(Batch(t, w, target, ackMs), NoId())
  {
    var p := (r: Row) => Deliverable(r, s.now, w, target, ackMs);
    QueryOnly(s.rows, w, p);
    QueryOnly(t.rows, w, p);
    var a, b := Filter(s.rows, p), Filter(t.rows, p);
    var f := DeliverRow(s.now, w, target, ackMs);
    assert Map(a, NoId()) == Map(b, NoId());
    forall i | 0 <= i < |a| ensures f(a[i]).(id := 0) == f(b[i]).(id := 0) {
      assert Map(a, NoId())[i] == Map(b, NoId())[i];
    }
  }

  // ----- Runs -----

  lemma BatchesSnoc(s: State, steps: seq<Step>, step: Step, w: string)
    ensures BatchesFor(s, steps + [step], w) == BatchesFor(s, steps, w)
              + (if step.Fetch? && step.ws == w
                 then [Map(Batch(Exec(s, steps), w, step.target, step.ackMs), NoId())] else [])
  {
    assert (steps + [step])[..|steps|] == steps;
  }

  /**
   * For every run and workspace: without the other workspaces' steps the run is still a run,
   * ends in the same rows, in-flight admissions, owed answers and refusals of this workspace,
   * and hands it the same batches.
   */
  lemma {:induction false} NonInterference(s: State, steps: seq<Step>, w: string)
    requires Valid(s, steps)
    ensures Valid(s, Erase(steps, w))
    ensures Only(Exec(s, Erase(steps, w)), w) == Only(Exec(s, steps), w)
    ensures BatchesFor(s, Erase(steps, w), w) == BatchesFor(s, steps, w)
  {
    if steps != [] {
      var n := |steps| - 1;
      var front, last := steps[..n], steps[n];
      assert steps == front + [last];
      ValidPrefix(s, steps, n);
      NonInterference(s, front, w);
      var full, erased := Exec(s, front), Exec(s, Erase(front, w));
      assert Enabled(At(s, steps, n), last);
      BatchesSnoc(s, front, last, w);
      if Concerns(last, w) {
        AlikeStep(full, erased, last, w);
        ValidSnoc(s, Erase(front, w), last);
        ExecSnoc(s, Erase(front, w), last);
        BatchesSnoc(s, Erase(front, w), last, w);
        if last.Fetch? {
          BatchAlike(full, erased, w, last.target, last.ackMs);
        }
      } else {
        ForeignStep(full, last, w);
        assert Erase(steps, w) == Erase(front, w);
      }
    }
  }
}

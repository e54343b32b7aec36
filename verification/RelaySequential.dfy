/** Uninterrupted calls: retries of a live envelope, and the sweep as a run of the machine. */
module RelaySequential {
  import opened Util
  import opened RelayModel
  import opened RelayInvariants
  import opened RelayCaps
  import opened RelayService
  import RelayCapsWitness

  // ----- Retrying an envelope that is still live -----

  lemma {:induction false} CountedExact(rows: seq<Row>, k: nat, q: Request)
    requires KeysUnique(rows) && k < |rows| && KeyOf(rows[k].req) == KeyOf(q) && rows[k].Live()
    ensures var live, counted := Filter(rows, LiveIn(q.ws, q.target)), Filter(rows, Counted(q));
            && |live| == |counted| + 1
            && TotalBytes(live) == TotalBytes(counted) + PayloadBytes(rows[k].req.payload)
  {
    var u, x := rows[..|rows| - 1], rows[|rows| - 1];
    BytesSnoc(Filter(u, LiveIn(q.ws, q.target)), x);
    BytesSnoc(Filter(u, Counted(q)), x);
    if k == |u| {
      assert !HasKey(u, KeyOf(q));
      CountedVersusLive(u, q);
    } else {
      CountedExact(u, k, q);
    }
  }

  /** Exactly when a retry of a live envelope with its own payload is refused: the inbox is
      already over one of its caps. */
  lemma RetryRefusedIff(s: State, q: Request, k: nat)
    requires Inv(s) && k < |s.rows| && KeyOf(s.rows[k].req) == KeyOf(q) && s.rows[k].Live()
    requires s.rows[k].req.payload == q.payload
    ensures Admit(TableOf(s), q, s.now).1 == QueueFull <==>
            |LiveRows(s, q.ws, q.target)| > MAX_QUEUE_DEPTH || TotalBytes(LiveRows(s, q.ws, q.target)) > MAX_QUEUE_BYTES
  {
    CountedExact(s.rows, k, q);
  }

  lemma {:induction false} LookupUnique(rows: seq<Row>, k: nat)
    requires KeysUnique(rows) && k < |rows|
    ensures HasKey(rows, KeyOf(rows[k].req)) && Lookup(rows, KeyOf(rows[k].req)) == rows[k]
  {
    assert HasKey(rows, KeyOf(rows[k].req));
    if k > 0 {
      assert rows[1..][k - 1] == rows[k];
      LookupUnique(rows[1..], k - 1);
    }
  }

  /**
   * While admissions to an inbox have come one at a time, retrying one of its live envelopes
   * with the same payload, whatever the other fields, is admitted, returns the original row
   * and changes no row.
   */
  lemma RetryIsNoOp(t0: int, steps: seq<Step>, q: Request, k: nat)
    requires Valid(Init(t0), steps) && AtMostInFlight(Init(t0), steps, q.ws, q.target, 1)
    requires k < |Exec(Init(t0), steps).rows|
    requires var r := Exec(Init(t0), steps).rows[k]; KeyOf(r.req) == KeyOf(q) && r.Live() && r.req.payload == q.payload
    ensures var s := Exec(Init(t0), steps);
            var (t, result) := Admit(TableOf(s), q, s.now);
            t.rows == s.rows && result == Admitted(s.rows[k])
  {
    var s := Exec(Init(t0), steps);
    InvRun(Init(t0), steps);
    CapSequential(t0, steps, q.ws, q.target);
    RetryRefusedIff(s, q, k);
    LookupUnique(s.rows, k);
  }

  /** The one-at-a-time condition matters: with two admissions in flight a retry of a live
      envelope with its own payload can be refused. */
  lemma RetryCanBeRefused(t0: int)
    ensures exists run, k: nat :: RefusedRetry(t0, run, k)
  {
    var ws, target := RelayCapsWitness.WS, RelayCapsWitness.TARGET;
    RelayCapsWitness.CapIsReached(t0, 2);
    var run :| RelayCapsWitness.ReachesCap(t0, run, 2);
    var s := Exec(Init(t0), run);
    InvRun(Init(t0), run);
    var live := LiveRows(s, ws, target);
    FilterMember(s.rows, LiveIn(ws, target), live[0]);
    var k :| 0 <= k < |s.rows| && s.rows[k] == live[0];
    RetryRefusedIff(s, s.rows[k].req, k);
    assert RefusedRetry(t0, run, k);
  }

  ghost predicate RefusedRetry(t0: int, run: seq<Step>, k: nat) {
    var s := Exec(Init(t0), run);
    && Valid(Init(t0), run)
    && k < |s.rows| && s.rows[k].Live()
    && Admit(TableOf(s), s.rows[k].req, s.now).1 == QueueFull
  }

  // ----- The sweep's loop is a run -----

  lemma {:induction false} RemoveFirstMultiset<T>(s: seq<T>, x: T)
    ensures multiset(RemoveFirst(s, x)) == multiset(s) - multiset{x}
  {
    if s != [] {
      assert s == [s[0]] + s[1..];
      RemoveFirstMultiset(s[1..], x);
    }
  }

  lemma {:induction false} AnswersConcat(a: seq<Row>, b: seq<Row>)
    ensures Answers(a + b) == Answers(a) + Answers(b)
  {
    if b == [] {
      assert a + b == a;
    } else {
      var c := b[..|b| - 1];
      AnswersConcat(a, c);
      assert (a + b)[..|a + b| - 1] == a + c;
    }
  }

  /** The last row of a, found in b. */
  lemma MovedRow(a: seq<Row>, b: seq<Row>) returns (l: seq<Row>, r: seq<Row>)
    requires a != [] && multiset(a) == multiset(b)
    ensures b == l + ([a[|a| - 1]] + r) && multiset(a[..|a| - 1]) == multiset(l + r)
  {
    var u, x := a[..|a| - 1], a[|a| - 1];
    assert a == u + [x];
    assert x in multiset(b);
    var i :| 0 <= i < |b| && b[i] == x;
    l, r := b[..i], b[i + 1..];
    assert b == l + ([x] + r);
    assert multiset(b) == multiset(l) + (multiset{x} + multiset(r));
    assert multiset(u) == multiset(a) - multiset{x};
  }

  /** A reordering of the swept rows reorders the answers. */
  lemma {:induction false} AnswersReorder(a: seq<Row>, b: seq<Row>)
    requires multiset(a) == multiset(b)
    ensures multiset(Answers(a)) == multiset(Answers(b))
  {
    if a == [] {
      assert |b| == |multiset(b)| == 0;
    } else {
      var u, x := a[..|a| - 1], a[|a| - 1];
      var l, r := MovedRow(a, b);
      AnswersReorder(u, l + r);
      assert a == u + [x];
      AnswersConcat(u, [x]);
      AnswersConcat(l, [x] + r);
      AnswersConcat([x], r);
      AnswersConcat(l, r);
    }
  }

  lemma {:induction false} AnswersOfUpdated(rows: seq<Row>, now: int)
    ensures Answers(Map(rows, ExpireRow(now))) == Answers(rows)
  {
    if rows != [] {
      var u, x := rows[..|rows| - 1], rows[|rows| - 1];
      assert rows == u + [x];
      AnswersOfUpdated(u, now);
      assert Map(rows, ExpireRow(now))[..|u|] == Map(u, ExpireRow(now));
    }
  }

  lemma ValidOne(s: State, step: Step)
    requires Enabled(s, step)
    ensures Valid(s, [step]) && Exec(s, [step]) == Apply(s, step)
  {
    assert Valid(s, []);
    ValidSnoc(s, [], step);
    ExecSnoc(s, [], step);
    assert [] + [step] == [step];
  }

  lemma {:induction false} ValidConcat(s: State, a: seq<Step>, b: seq<Step>)
    requires Valid(s, a) && Valid(Exec(s, a), b)
    ensures Valid(s, a + b) && Exec(s, a + b) == Exec(Exec(s, a), b)
  {
    if b == [] {
      assert a + b == a;
    } else {
      var c, x := b[..|b| - 1], b[|b| - 1];
      ValidLast(Exec(s, a), b);
      ValidConcat(s, a, c);
      ConcatSnoc(s, a, c, x);
      assert b == c + [x];
    }
  }

  lemma ConcatSnoc(s: State, a: seq<Step>, c: seq<Step>, x: Step)
    requires Valid(s, a + c) && Exec(s, a + c) == Exec(Exec(s, a), c) && Enabled(Exec(Exec(s, a), c), x)
    ensures Valid(s, a + (c + [x])) && Exec(s, a + (c + [x])) == Exec(Exec(s, a), c + [x])
  {
    SnocRun(s, a + c, x);
    ExecSnoc(Exec(s, a), c, x);
    StepsAssoc(a, c, [x]);
  }

  lemma SnocRun(s: State, steps: seq<Step>, x: Step)
    requires Valid(s, steps) && Enabled(Exec(s, steps), x)
    ensures Valid(s, steps + [x]) && Exec(s, steps + [x]) == Apply(Exec(s, steps), x)
  {
    ValidSnoc(s, steps, x);
    ExecSnoc(s, steps, x);
  }

  lemma StepsAssoc(a: seq<Step>, b: seq<Step>, c: seq<Step>)
    ensures a + (b + c) == (a + b) + c
  {
  }

  lemma ValidLast(s: State, steps: seq<Step>)
    requires steps != [] && Valid(s, steps)
    ensures var n := |steps| - 1; Valid(s, steps[..n]) && Enabled(Exec(s, steps[..n]), steps[n])
  {
    var n := |steps| - 1;
    ValidPrefix(s, steps, n);
    assert Enabled(At(s, steps, n), steps[n]);
  }

  /** One turn of the sweep's loop. */
  lemma JobIsRun(s: State, q: Request) returns (run: seq<Step>)
    requires s.checked == [] && q in s.jobs
    ensures Valid(s, run)
    ensures var t := Exec(s, run);
            && TableOf(t) == Admit(TableOf(s), q, s.now).0
            && t.now == s.now && t.checked == [] && t.jobs == RemoveFirst(s.jobs, q)
  {
    ValidOne(s, CheckJob(q));
    run := [CheckJob(q)];
    if !Full(s.rows, q) {
      var mid := Exec(s, run);
      assert mid.checked == [q];
      ValidOne(mid, Insert(q));
      ValidConcat(s, run, [Insert(q)]);
      run := run + [Insert(q)];
    }
  }

  lemma LoopTurn(s: State, x: Row, rest: seq<Row>) returns (run: seq<Step>)
    requires s.checked == [] && multiset(s.jobs) == multiset(Answers([x] + rest))
    ensures Valid(s, run)
    ensures var t := Exec(s, run);
            && TableOf(t) == (if OwesAnswer(x.req) then Admit(TableOf(s), AnswerTo(x.req), s.now).0 else TableOf(s))
            && t.now == s.now && t.checked == []
            && multiset(t.jobs) == multiset(Answers(rest))
  {
    AnswersConcat([x], rest);
    assert Answers([x]) == if OwesAnswer(x.req) then [AnswerTo(x.req)] else [];
    if OwesAnswer(x.req) {
      assert AnswerTo(x.req) in multiset(s.jobs);
      run := JobIsRun(s, AnswerTo(x.req));
      RemoveFirstMultiset(s.jobs, AnswerTo(x.req));
    } else {
      run := [];
    }
  }

  /** The loop between two turns, as a run from its start. */
  ghost predicate LoopAt(start: State, run: seq<Step>, done: seq<Row>, todo: seq<Row>) {
    var s := Exec(start, run);
    && Valid(start, run)
    && s.checked == [] && multiset(s.jobs) == multiset(Answers(todo)) && s.now == start.now
    && TableOf(s) == AnswerEach(TableOf(start), done, start.now)
  }

  lemma AnswerEachSnoc(t: Table, done: seq<Row>, x: Row, now: int)
    ensures AnswerEach(t, done + [x], now)
            == var before := AnswerEach(t, done, now);
               if OwesAnswer(x.req) then Admit(before, AnswerTo(x.req), now).0 else before
  {
    assert (done + [x])[..|done|] == done;
  }

  lemma LoopNext(start: State, pre: seq<Step>, done: seq<Row>, x: Row, rest: seq<Row>) returns (run: seq<Step>)
    requires LoopAt(start, pre, done, [x] + rest)
    ensures LoopAt(start, run, done + [x], rest)
  {
    var s := Exec(start, pre);
    var more := LoopTurn(s, x, rest);
    ValidConcat(start, pre, more);
    AnswerEachSnoc(TableOf(start), done, x, start.now);
    run := pre + more;
  }

  lemma {:induction false} LoopIsRun(start: State, pre: seq<Step>, done: seq<Row>, todo: seq<Row>)
    returns (run: seq<Step>)
    requires LoopAt(start, pre, done, todo)
    ensures LoopAt(start, run, done + todo, [])
    decreases |todo|
  {
    if todo == [] {
      run := pre;
      assert done + [] == done;
    } else {
      var x, rest := todo[0], todo[1..];
      assert todo == [x] + rest;
      run := LoopNext(start, pre, done, x, rest);
      assert done + todo == (done + [x]) + rest;
      run := LoopIsRun(start, run, done + [x], rest);
    }
  }

  lemma AnswersAreRun(s: State, order: seq<Row>) returns (run: seq<Step>)
    requires s.checked == [] && multiset(s.jobs) == multiset(Answers(order))
    ensures Valid(s, run)
    ensures var t := Exec(s, run);
            && TableOf(t) == AnswerEach(TableOf(s), order, s.now)
            && t.now == s.now && t.checked == [] && t.jobs == []
  {
    run := LoopIsRun(s, [], [], order);
    assert [] + order == order;
    assert |Exec(s, run).jobs| == |multiset(Exec(s, run).jobs)| == 0;
  }

  /** The whole of sweepExpiredToFailures, with the expired rows in any order, is a run of the
      state machine, so everything proved of runs holds of it. */
  lemma SweepIsRun(s: State, order: seq<Row>) returns (run: seq<Step>)
    requires s.checked == [] && s.jobs == []
    requires multiset(order) == multiset(Map(Filter(s.rows, ExpiringAt(s.now)), ExpireRow(s.now)))
    ensures Valid(s, run)
    ensures var t := Exec(s, run);
            && TableOf(t) == AnswerEach(Table(Map(s.rows, ExpireRow(s.now)), s.nextId), order, s.now)
            && t.now == s.now && t.checked == [] && t.jobs == []
  {
    var swept := Filter(s.rows, ExpiringAt(s.now));
    ValidOne(s, Sweep);
    var mid := Apply(s, Sweep);
    AnswersReorder(order, Map(swept, ExpireRow(s.now)));
    AnswersOfUpdated(swept, s.now);
    assert mid.jobs == Answers(swept);
    var more := AnswersAreRun(mid, order);
    ValidConcat(s, [Sweep], more);
    run := [Sweep] + more;
  }
}

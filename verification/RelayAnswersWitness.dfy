/** Two runs in which a definite answer goes missing: its key is taken, and its key is shared. */
module RelayAnswersWitness {
  import opened Util
  import opened RelayModel
  import opened RelayInvariants
  import opened RelayCaps
  import opened RelayFailures
  import opened RelayAnswers
  import RelayCapsWitness

  /** The run is one of callers' and sweeps' steps and ends in s. */
  ghost predicate Ends(t0: int, run: seq<Step>, s: State) {
    Valid(Init(t0), run) && CallersSubmit(run) && Exec(Init(t0), run) == s
  }

  lemma Go(t0: int, run: seq<Step>, s: State, step: Step) returns (next: seq<Step>)
    requires Ends(t0, run, s) && Enabled(s, step) && (step.Check? ==> FromCaller(step.req))
    ensures Ends(t0, next, Apply(s, step))
  {
    next := run + [step];
    ValidSnoc(Init(t0), run, step);
    ExecSnoc(Init(t0), run, step);
  }

  /** A request that runs out after a millisecond. */
  function Ask(target: string): Request {
    Request("w", target, "x", "execute_command.request", Submitted("", 0), 1, Some("o"), None)
  }

  /** An envelope to the originator under the key of that request's answer. */
  function Squat(): Request {
    Request("w", "o", "x.ttl-failed", "event.broadcast", Submitted("", 0), 5000, Some("e"), None)
  }

  function Answer(): Request {
    Request("w", "o", "x.ttl-failed", "execute_command.result", TtlFailure("x"), 60000, None, Some("x"))
  }

  lemma AnswerIs(target: string)
    ensures OwesAnswer(Ask(target)) && AnswerTo(Ask(target)) == Answer() && PayloadBytes(Answer().payload) < 1000
  {
    assert "x" + ".ttl-failed" == "x.ttl-failed";
    assert JsonBytes("x") == 1 + JsonBytes("");
  }

  /** A few rows without payload bytes leave room. */
  lemma Room(rows: seq<Row>, q: Request)
    requires |rows| < MAX_QUEUE_DEPTH && PayloadBytes(q.payload) < 1000
    requires forall i :: 0 <= i < |rows| ==> PayloadBytes(rows[i].req.payload) == 0
    ensures !Full(rows, q)
  {
    FilterSize(rows, Counted(q));
    RelayCapsWitness.NoBytes(rows, Counted(q));
  }

  /** A caller's envelope is checked and inserted. */
  lemma Post(t0: int, run: seq<Step>, s: State, q: Request) returns (next: seq<Step>)
    requires Ends(t0, run, s) && FromCaller(q) && s.checked == [] && !Full(s.rows, q) && !HasKey(s.rows, KeyOf(q))
    ensures Ends(t0, next, s.(rows := s.rows + [NewRow(s.nextId, q, s.now)], nextId := s.nextId + 1))
  {
    next := Go(t0, run, s, Check(q));
    var mid := Apply(s, Check(q));
    assert mid.checked == [q];
    next := Go(t0, next, mid, Insert(q));
    assert RemoveFirst([q], q) == [];
  }

  function Gone(id: nat, q: Request, t0: int): Row { NewRow(id, q, t0).(status := Expired) }

  lemma PostTwo(t0: int, a: Request, b: Request) returns (run: seq<Step>)
    requires FromCaller(a) && FromCaller(b) && PayloadBytes(a.payload) == PayloadBytes(b.payload) == 0
             && KeyOf(a) != KeyOf(b)
    ensures Ends(t0, run, State(t0, [NewRow(0, a, t0), NewRow(1, b, t0)], 2, [], [], []))
  {
    assert Valid(Init(t0), []) && Exec(Init(t0), []) == Init(t0);
    Room([], a);
    run := Post(t0, [], Init(t0), a);
    var s := State(t0, [NewRow(0, a, t0)], 1, [], [], []);
    assert [] + [NewRow(0, a, t0)] == [NewRow(0, a, t0)];
    Room(s.rows, b);
    assert !HasKey(s.rows, KeyOf(b));
    run := Post(t0, run, s, b);
    assert [NewRow(0, a, t0)] + [NewRow(1, b, t0)] == [NewRow(0, a, t0), NewRow(1, b, t0)];
  }

  // ----- The key taken -----

  /** The originator's inbox has room, and the request still gets no answer. */
  ghost predicate SquattedRun(t0: int, run: seq<Step>) {
    var s := Exec(Init(t0), run);
    && Valid(Init(t0), run) && CallersSubmit(run) && Quiet(s) && s.refused == []
    && Owed(s, 0) && !HasAnswer(s, s.rows[0].req)
  }

  lemma SquattedKey(t0: int)
    ensures exists run :: SquattedRun(t0, run)
  {
    var p, c := Ask("m"), Squat();
    AnswerIs("m");
    var run := PostTwo(t0, p, c);
    var s := State(t0, [NewRow(0, p, t0), NewRow(1, c, t0)], 2, [], [], []);
    run := Go(t0, run, s, Tick(1000));
    s := Apply(s, Tick(1000));
    run, s := SweepSquatted(t0, run, s);
    Room(s.rows, Answer());
    run := Go(t0, run, s, CheckJob(Answer()));
    s := State(t0 + 1000, s.rows, 2, [Answer()], [], []);
    run := Go(t0, run, s, Insert(Answer()));
    assert KeyOf(s.rows[1].req) == KeyOf(Answer());
    s := Apply(s, Insert(Answer()));
    assert SquattedRun(t0, run);
  }

  lemma SweepSquatted(t0: int, pre: seq<Step>, s: State) returns (run: seq<Step>, t: State)
    requires s == State(t0 + 1000, [NewRow(0, Ask("m"), t0), NewRow(1, Squat(), t0)], 2, [], [], [])
    requires Ends(t0, pre, s)
    ensures t == State(t0 + 1000, [Gone(0, Ask("m"), t0), NewRow(1, Squat(), t0)], 2, [], [Answer()], [])
    ensures Ends(t0, run, t)
  {
    run := Go(t0, pre, s, Sweep);
    t := Apply(s, Sweep);
    AnswerIs("m");
    var p, c := NewRow(0, Ask("m"), t0), NewRow(1, Squat(), t0);
    assert s.rows == [] + [p] + [c];
    FilterSnoc([p], c, ExpiringAt(s.now));
    FilterSnoc([], p, ExpiringAt(s.now));
    assert Filter(s.rows, ExpiringAt(s.now)) == [p];
    assert Answers([p]) == Answers([]) + [Answer()];
  }

  // ----- The key shared -----

  /** Two requests are owed an answer and there is one unsigned row for both. */
  ghost predicate SharedRun(t0: int, run: seq<Step>) {
    var s := Exec(Init(t0), run);
    && Valid(Init(t0), run) && CallersSubmit(run) && Quiet(s) && s.refused == []
    && Owed(s, 0) && Owed(s, 1) && s.rows[0].req.target != s.rows[1].req.target
    && forall i, j | 0 <= i < |s.rows| && 0 <= j < |s.rows| ::
         s.rows[i].req.origin.None? && s.rows[j].req.origin.None? ==> i == j
  }

  lemma SharedKey(t0: int)
    ensures exists run :: SharedRun(t0, run)
  {
    AnswerIs("m");
    AnswerIs("n");
    var run := PostTwo(t0, Ask("m"), Ask("n"));
    var s := State(t0, [NewRow(0, Ask("m"), t0), NewRow(1, Ask("n"), t0)], 2, [], [], []);
    run := Go(t0, run, s, Tick(1000));
    run, s := SweepBoth(t0, run, Apply(s, Tick(1000)));
    run, s := CheckBoth(t0, run, s);
    run, s := InsertBoth(t0, run, s);
    assert SharedRun(t0, run);
  }

  lemma CheckBoth(t0: int, pre: seq<Step>, s: State) returns (run: seq<Step>, t: State)
    requires s == State(t0 + 1000, [Gone(0, Ask("m"), t0), Gone(1, Ask("n"), t0)], 2, [], [Answer(), Answer()], [])
    requires Ends(t0, pre, s)
    ensures t == State(t0 + 1000, s.rows, 2, [Answer(), Answer()], [], []) && Ends(t0, run, t)
  {
    var a := Answer();
    AnswerIs("m");
    Room(s.rows, a);
    run := Go(t0, pre, s, CheckJob(a));
    var mid := State(t0 + 1000, s.rows, 2, [a], [a], []);
    assert mid == Apply(s, CheckJob(a));
    run := Go(t0, run, mid, CheckJob(a));
    t := State(t0 + 1000, s.rows, 2, [a, a], [], []);
  }

  lemma SweepBoth(t0: int, pre: seq<Step>, s: State) returns (run: seq<Step>, t: State)
    requires s == State(t0 + 1000, [NewRow(0, Ask("m"), t0), NewRow(1, Ask("n"), t0)], 2, [], [], [])
    requires Ends(t0, pre, s)
    ensures t == State(t0 + 1000, [Gone(0, Ask("m"), t0), Gone(1, Ask("n"), t0)], 2, [], [Answer(), Answer()], [])
    ensures Ends(t0, run, t)
  {
    run := Go(t0, pre, s, Sweep);
    t := Apply(s, Sweep);
    AnswerIs("m");
    AnswerIs("n");
    var p, c := NewRow(0, Ask("m"), t0), NewRow(1, Ask("n"), t0);
    assert s.rows == [] + [p] + [c];
    FilterSnoc([p], c, ExpiringAt(s.now));
    FilterSnoc([], p, ExpiringAt(s.now));
    assert Filter(s.rows, ExpiringAt(s.now)) == [p, c];
    assert [p, c][..1] == [p];
    assert Answers([p]) == Answers([]) + [Answer()];
    assert Answers([p, c]) == Answers([p]) + [Answer()];
  }

  lemma InsertBoth(t0: int, pre: seq<Step>, s: State) returns (run: seq<Step>, t: State)
    requires s == State(t0 + 1000, [Gone(0, Ask("m"), t0), Gone(1, Ask("n"), t0)], 2, [Answer(), Answer()], [], [])
    requires Ends(t0, pre, s)
    ensures t == State(t0 + 1000, s.rows + [NewRow(2, Answer(), t0 + 1000)], 4, [], [], []) && Ends(t0, run, t)
  {
    var a := Answer();
    run := Go(t0, pre, s, Insert(a));
    var mid := State(t0 + 1000, s.rows + [NewRow(2, a, t0 + 1000)], 3, [a], [], []);
    assert !HasKey(s.rows, KeyOf(a));
    run := Go(t0, run, mid, Insert(a));
    assert KeyOf(mid.rows[2].req) == KeyOf(a);
    t := Apply(mid, Insert(a));
  }
}

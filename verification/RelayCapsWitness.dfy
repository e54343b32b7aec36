/**
 * The concurrent bound is the best possible: for every limit some run with at most that
 * many admissions in flight reaches it. With two in flight the documented depth cap of
 * 1000 is already exceeded.
 */
module RelayCapsWitness {
  import opened Util
  import opened RelayModel
  import opened RelayInvariants
  import opened RelayCaps

  const WS := "w"
  const TARGET := "m"

  function Req(i: nat, b: nat): Request {
    Request(WS, TARGET, seq(i, _ => 'x'), "event.broadcast", Submitted("", b), 5000, None, None)
  }

  /** Room for further envelopes of b bytes besides lo rows of b bytes. */
  predicate Fits(lo: nat, b: nat) { lo < MAX_QUEUE_DEPTH && (b == 0 || (lo == 0 && b <= MAX_QUEUE_BYTES)) }

  function Reqs(lo: nat, n: nat, b: nat): seq<Request> { seq(n, i requires 0 <= i < n => Req(lo + i, b)) }

  function Rows(t0: int, n: nat, b: nat): seq<Row> { seq(n, i requires 0 <= i < n => NewRow(i, Req(i, b), t0)) }

  ghost predicate Good(t0: int, steps: seq<Step>, limit: nat) {
    Valid(Init(t0), steps) && AtMostInFlight(Init(t0), steps, WS, TARGET, limit)
  }

  lemma FlightSnoc(s: State, steps: seq<Step>, step: Step, limit: nat)
    requires AtMostInFlight(s, steps, WS, TARGET, limit)
    requires |Apply(Exec(s, steps), step).checked| <= limit
    ensures AtMostInFlight(s, steps + [step], WS, TARGET, limit)
  {
    var all := steps + [step];
    forall i | 0 <= i <= |all| ensures |InFlight(At(s, all, i), WS, TARGET)| <= limit {
      AtSnoc(s, steps, step, i);
      FilterSize(At(s, all, i).checked, For(WS, TARGET));
    }
  }

  lemma GoodSnoc(t0: int, steps: seq<Step>, step: Step, t: State, limit: nat)
    requires Good(t0, steps, limit) && Enabled(Exec(Init(t0), steps), step)
    requires Apply(Exec(Init(t0), steps), step) == t && |t.checked| <= limit
    ensures Good(t0, steps + [step], limit)
    ensures Exec(Init(t0), steps + [step]) == t
  {
    ValidSnoc(Init(t0), steps, step);
    FlightSnoc(Init(t0), steps, step, limit);
    AtSnoc(Init(t0), steps, step, |steps| + 1);
    assert (steps + [step])[..|steps| + 1] == steps + [step];
  }

  lemma {:induction false} NoBytes(rows: seq<Row>, p: Row -> bool)
    requires forall r :: r in rows ==> PayloadBytes(r.req.payload) == 0
    ensures TotalBytes(Filter(rows, p)) == 0
  {
    if rows != [] {
      NoBytes(rows[..|rows| - 1], p);
      assert rows[|rows| - 1] in rows;
      BytesSnoc(Filter(rows[..|rows| - 1], p), rows[|rows| - 1]);
    }
  }

  lemma RoomLeft(t0: int, n: nat, i: nat, b: nat)
    requires Fits(n, b)
    ensures !Full(Rows(t0, n, b), Req(i, b))
  {
    FilterSize(Rows(t0, n, b), Counted(Req(i, b)));
    if n > 0 {
      NoBytes(Rows(t0, n, b), Counted(Req(i, b)));
    } else {
      assert Filter(Rows(t0, 0, b), Counted(Req(i, b))) == [];
    }
  }

  lemma NewKey(t0: int, n: nat, i: nat, b: nat)
    requires n <= i
    ensures !HasKey(Rows(t0, n, b), KeyOf(Req(i, b)))
  {
    forall k | 0 <= k < n ensures KeyOf(Rows(t0, n, b)[k].req) != KeyOf(Req(i, b)) {
      assert |Req(k, b).env| == k && |Req(i, b).env| == i;
    }
  }

  /** lo rows in the table and the next n admissions between check and insert. */
  function Loaded(t0: int, lo: nat, n: nat, b: nat): State { State(t0, Rows(t0, lo, b), lo, Reqs(lo, n, b), [], []) }

  lemma CheckNext(t0: int, lo: nat, n: nat, b: nat)
    requires Fits(lo, b)
    ensures Apply(Loaded(t0, lo, n, b), Check(Req(lo + n, b))) == Loaded(t0, lo, n + 1, b)
  {
    RoomLeft(t0, lo, lo + n, b);
    assert Reqs(lo, n, b) + [Req(lo + n, b)] == Reqs(lo, n + 1, b);
  }

  lemma InsertNext(t0: int, n: nat, rest: nat, b: nat)
    requires rest > 0
    ensures Enabled(Loaded(t0, n, rest, b), Insert(Req(n, b)))
    ensures Apply(Loaded(t0, n, rest, b), Insert(Req(n, b))) == Loaded(t0, n + 1, rest - 1, b)
  {
    assert Reqs(n, rest, b)[0] == Req(n, b);
    NewKey(t0, n, n, b);
    assert Rows(t0, n, b) + [NewRow(n, Req(n, b), t0)] == Rows(t0, n + 1, b);
    assert Reqs(n, rest, b)[1..] == Reqs(n + 1, rest - 1, b);
  }

  lemma ExtendCheck(t0: int, pre: seq<Step>, lo: nat, n: nat, limit: nat, b: nat) returns (run: seq<Step>)
    requires Fits(lo, b) && n + 1 <= limit
    requires Good(t0, pre, limit) && Exec(Init(t0), pre) == Loaded(t0, lo, n, b)
    ensures Good(t0, run, limit) && Exec(Init(t0), run) == Loaded(t0, lo, n + 1, b)
  {
    CheckNext(t0, lo, n, b);
    run := pre + [Check(Req(lo + n, b))];
    GoodSnoc(t0, pre, Check(Req(lo + n, b)), Loaded(t0, lo, n + 1, b), limit);
  }

  lemma ExtendInsert(t0: int, pre: seq<Step>, lo: nat, rest: nat, limit: nat, b: nat) returns (run: seq<Step>)
    requires 0 < rest <= limit
    requires Good(t0, pre, limit) && Exec(Init(t0), pre) == Loaded(t0, lo, rest, b)
    ensures Good(t0, run, limit) && Exec(Init(t0), run) == Loaded(t0, lo + 1, rest - 1, b)
  {
    InsertNext(t0, lo, rest, b);
    run := pre + [Insert(Req(lo, b))];
    GoodSnoc(t0, pre, Insert(Req(lo, b)), Loaded(t0, lo + 1, rest - 1, b), limit);
  }

  lemma EmptyRun(t0: int, limit: nat, b: nat)
    ensures Good(t0, [], limit) && Exec(Init(t0), []) == Loaded(t0, 0, 0, b)
  {
    assert Reqs(0, 0, b) == [] && Rows(t0, 0, b) == [];
    assert Filter<Request>([], For(WS, TARGET)) == [];
  }

  /** Checks up to n in flight, all seeing the same table. */
  lemma {:induction false} ChecksRun(t0: int, pre: seq<Step>, lo: nat, k: nat, n: nat, limit: nat, b: nat)
    returns (run: seq<Step>)
    requires Fits(lo, b) && k <= n <= limit
    requires Good(t0, pre, limit) && Exec(Init(t0), pre) == Loaded(t0, lo, k, b)
    ensures Good(t0, run, limit) && Exec(Init(t0), run) == Loaded(t0, lo, n, b)
    decreases n - k
  {
    if k == n {
      run := pre;
    } else {
      run := ExtendCheck(t0, pre, lo, k, limit, b);
      run := ChecksRun(t0, run, lo, k + 1, n, limit, b);
    }
  }

  /** Their inserts, up to hi rows. */
  lemma {:induction false} InsertsRun(t0: int, pre: seq<Step>, lo: nat, hi: nat, limit: nat, b: nat)
    returns (run: seq<Step>)
    requires lo <= hi <= lo + limit
    requires Good(t0, pre, limit) && Exec(Init(t0), pre) == Loaded(t0, lo, hi - lo, b)
    ensures Good(t0, run, limit) && Exec(Init(t0), run) == Loaded(t0, hi, 0, b)
    decreases hi - lo
  {
    if lo == hi {
      run := pre;
    } else {
      run := ExtendInsert(t0, pre, lo, hi - lo, limit, b);
      run := InsertsRun(t0, run, lo + 1, hi, limit, b);
    }
  }

  lemma AdmitOne(t0: int, pre: seq<Step>, n: nat, limit: nat, b: nat) returns (run: seq<Step>)
    requires Fits(n, b) && limit >= 1
    requires Good(t0, pre, limit) && Exec(Init(t0), pre) == Loaded(t0, n, 0, b)
    ensures Good(t0, run, limit) && Exec(Init(t0), run) == Loaded(t0, n + 1, 0, b)
  {
    var checked := ChecksRun(t0, pre, n, 0, 1, limit, b);
    run := InsertsRun(t0, checked, n, n + 1, limit, b);
  }

  /** n admissions, one after the other. */
  lemma {:induction false} FillRun(t0: int, n: nat, limit: nat, b: nat) returns (run: seq<Step>)
    requires Fits(n, b) && limit >= 1
    ensures Good(t0, run, limit) && Exec(Init(t0), run) == Loaded(t0, n, 0, b)
  {
    if n == 0 {
      run := [];
      EmptyRun(t0, limit, b);
    } else {
      run := FillRun(t0, n - 1, limit, b);
      run := AdmitOne(t0, run, n - 1, limit, b);
    }
  }

  lemma {:induction false} AllLive(t0: int, n: nat, b: nat)
    ensures Filter(Rows(t0, n, b), LiveIn(WS, TARGET)) == Rows(t0, n, b)
  {
    if n > 0 {
      AllLive(t0, n - 1, b);
      assert Rows(t0, n, b)[..n - 1] == Rows(t0, n - 1, b);
    }
  }

  lemma WorstRun(t0: int, lo: nat, limit: nat, b: nat) returns (run: seq<Step>)
    requires limit >= 1 && Fits(lo, b)
    ensures Good(t0, run, limit) && Exec(Init(t0), run) == Loaded(t0, lo + limit, 0, b)
  {
    var filled := FillRun(t0, lo, limit, b);
    var loaded := ChecksRun(t0, filled, lo, 0, limit, limit, b);
    run := InsertsRun(t0, loaded, lo, lo + limit, limit, b);
  }

  lemma LoadedSize(t0: int, s: State, n: nat, b: nat)
    requires s == Loaded(t0, n, 0, b)
    ensures |LiveRows(s, WS, TARGET)| == n && TotalBytes(LiveRows(s, WS, TARGET)) == n * b
  {
    AllLive(t0, n, b);
    RowsBytes(t0, n, b);
  }

  lemma {:induction false} RowsBytes(t0: int, n: nat, b: nat)
    ensures TotalBytes(Rows(t0, n, b)) == n * b
  {
    if n > 0 {
      RowsBytes(t0, n - 1, b);
      assert Rows(t0, n, b)[..n - 1] == Rows(t0, n - 1, b);
      assert n * b == (n - 1) * b + b;
    }
  }

  /** A valid run with at most limit admissions in flight that ends with the most live rows CapUnderConcurrency
      allows. */
  ghost predicate ReachesCap(t0: int, run: seq<Step>, limit: nat) {
    && Valid(Init(t0), run)
    && AtMostInFlight(Init(t0), run, WS, TARGET, limit)
    && |LiveRows(Exec(Init(t0), run), WS, TARGET)| == MAX_QUEUE_DEPTH + limit - 1
  }

  lemma CapIsReached(t0: int, limit: nat)
    requires limit >= 1
    ensures exists run :: ReachesCap(t0, run, limit)
  {
    var lo := MAX_QUEUE_DEPTH - 1;
    var run := WorstRun(t0, lo, limit, 0);
    LoadedSize(t0, Exec(Init(t0), run), lo + limit, 0);
    assert ReachesCap(t0, run, limit);
  }

  /** The same for the bytes it allows. */
  ghost predicate ReachesBytes(t0: int, run: seq<Step>, limit: nat) {
    && Valid(Init(t0), run)
    && AtMostInFlight(Init(t0), run, WS, TARGET, limit)
    && TotalBytes(LiveRows(Exec(Init(t0), run), WS, TARGET)) == limit * MAX_QUEUE_BYTES
  }

  lemma ByteCapIsReached(t0: int, limit: nat)
    requires limit >= 1
    ensures exists run :: ReachesBytes(t0, run, limit)
  {
    var run := WorstRun(t0, 0, limit, MAX_QUEUE_BYTES);
    LoadedSize(t0, Exec(Init(t0), run), 0 + limit, MAX_QUEUE_BYTES);
    assert ReachesBytes(t0, run, limit);
  }
}

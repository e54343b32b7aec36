/** The depth and byte caps of an inbox when the depth check and the insert may interleave. */
module RelayCaps {
  import opened Util
  import opened RelayModel
  import opened RelayInvariants

  // ----- What is counted -----

  function LiveIn(ws: string, target: string): Row -> bool {
    (r: Row) => r.In(ws, target) && r.Live()
  }

  function LiveRows(s: State, ws: string, target: string): seq<Row> {
    Filter(s.rows, LiveIn(ws, target))
  }

  function For(ws: string, target: string): Request -> bool {
    (q: Request) => q.ws == ws && q.target == target
  }

  /** Admissions to the inbox between their check and their insert. */
  function InFlight(s: State, ws: string, target: string): seq<Request> {
    Filter(s.checked, For(ws, target))
  }

  /** Those whose insert would add a row. */
  function Unadmitted(rows: seq<Row>, ws: string, target: string): Request -> bool {
    (q: Request) => q.ws == ws && q.target == target && !HasKey(rows, KeyOf(q))
  }

  function RequestBytes(qs: seq<Request>): nat {
    if qs == [] then 0
    else RequestBytes(qs[..|qs| - 1]) + PayloadBytes(qs[|qs| - 1].payload)
  }

  /** Never more than limit admissions to this inbox in flight at once. */
  ghost predicate AtMostInFlight(s: State, steps: seq<Step>, ws: string, target: string, limit: nat) {
    forall i :: 0 <= i <= |steps| ==> |InFlight(At(s, steps, i), ws, target)| <= limit
  }

  // ----- Counting lemmas -----

  lemma {:induction false} UpdateShrinks(rows: seq<Row>, f: Row -> Row, p: Row -> bool)
    requires forall r :: r in rows ==> (p(f(r)) ==> p(r)) && f(r).req == r.req
    ensures |Filter(Map(rows, f), p)| <= |Filter(rows, p)|
    ensures TotalBytes(Filter(Map(rows, f), p)) <= TotalBytes(Filter(rows, p))
  {
    if rows != [] {
      var u, x := rows[..|rows| - 1], rows[|rows| - 1];
      assert rows == u + [x];
      UpdateShrinks(u, f, p);
      MapSnoc(u, x, f);
      FilterSnoc(Map(u, f), f(x), p);
      BytesSnoc(Filter(Map(u, f), p), f(x));
      BytesSnoc(Filter(u, p), x);
    }
  }

  lemma BytesSnoc(rows: seq<Row>, r: Row)
    ensures TotalBytes(rows + [r]) == TotalBytes(rows) + PayloadBytes(r.req.payload)
    ensures rows + [] == rows
  {
    assert (rows + [r])[..|rows|] == rows;
  }

  lemma RequestBytesSnoc(qs: seq<Request>, q: Request)
    ensures RequestBytes(qs + [q]) == RequestBytes(qs) + PayloadBytes(q.payload)
    ensures qs + [] == qs
  {
    assert (qs + [q])[..|qs|] == qs;
  }

  lemma {:induction false} WeakerFilter(qs: seq<Request>, p: Request -> bool, q: Request -> bool)
    requires forall x :: x in qs ==> (p(x) ==> q(x))
    ensures |Filter(qs, p)| <= |Filter(qs, q)|
    ensures RequestBytes(Filter(qs, p)) <= RequestBytes(Filter(qs, q))
  {
    if qs != [] {
      var u, x := qs[..|qs| - 1], qs[|qs| - 1];
      assert qs == u + [x];
      WeakerFilter(u, p, q);
      WeakerFilterStep(u, x, p, q);
    }
  }

  lemma WeakerFilterStep(u: seq<Request>, x: Request, p: Request -> bool, q: Request -> bool)
    requires p(x) ==> q(x)
    requires |Filter(u, p)| <= |Filter(u, q)| && RequestBytes(Filter(u, p)) <= RequestBytes(Filter(u, q))
    ensures |Filter(u + [x], p)| <= |Filter(u + [x], q)|
    ensures RequestBytes(Filter(u + [x], p)) <= RequestBytes(Filter(u + [x], q))
  {
    FilterSnoc(u, x, p);
    FilterSnoc(u, x, q);
    RequestBytesSnoc(Filter(u, p), x);
    RequestBytesSnoc(Filter(u, q), x);
  }

  lemma {:induction false} RequestBytesRemove(qs: seq<Request>, q: Request)
    ensures RequestBytes(RemoveFirst(qs, q))
            == if q in qs then RequestBytes(qs) - PayloadBytes(q.payload) else RequestBytes(qs)
  {
    if qs != [] {
      var tail := qs[1..];
      assert qs == [qs[0]] + tail;
      RequestBytesRemove(tail, q);
      RequestBytesHead(qs[0], tail);
      RequestBytesHead(qs[0], RemoveFirst(tail, q));
    }
  }

  lemma {:induction false} RequestBytesHead(q: Request, qs: seq<Request>)
    ensures RequestBytes([q] + qs) == PayloadBytes(q.payload) + RequestBytes(qs)
  {
    if qs == [] {
      assert [q] + qs == [q];
    } else {
      RequestBytesHead(q, qs[..|qs| - 1]);
      assert ([q] + qs)[..|qs|] == [q] + qs[..|qs| - 1];
    }
  }

  lemma OneMore(n: nat, limit: nat)
    ensures (n + 1) * limit == n * limit + limit
  {
  }

  lemma {:induction false} RequestBytesBound(qs: seq<Request>, limit: nat)
    requires forall q :: q in qs ==> PayloadBytes(q.payload) <= limit
    ensures RequestBytes(qs) <= |qs| * limit
  {
    if qs != [] {
      var u, x := qs[..|qs| - 1], qs[|qs| - 1];
      RequestBytesBound(u, limit);
      assert PayloadBytes(x.payload) <= limit;
      OneMore(|u|, limit);
    }
  }

  /** The depth query leaves out only the envelope's own row. */
  lemma {:induction false} CountedVersusLive(rows: seq<Row>, q: Request)
    requires KeysUnique(rows)
    ensures var live, counted := Filter(rows, LiveIn(q.ws, q.target)), Filter(rows, Counted(q));
            if HasKey(rows, KeyOf(q)) then |live| <= |counted| + 1 else live == counted
  {
    if rows != [] {
      var u, x := rows[..|rows| - 1], rows[|rows| - 1];
      CountedVersusLive(u, q);
      assert HasKey(u, KeyOf(q)) ==> HasKey(rows, KeyOf(q)) by {
        if i :| 0 <= i < |u| && KeyOf(u[i].req) == KeyOf(q) { assert rows[i] == u[i]; }
      }
      if KeyOf(x.req) == KeyOf(q) {
        assert HasKey(rows, KeyOf(q));
        assert !HasKey(u, KeyOf(q));
      } else {
        assert HasKey(rows, KeyOf(q)) ==> HasKey(u, KeyOf(q));
      }
    }
  }

  lemma KeysKept(rows: seq<Row>, f: Row -> Row, k: Key)
    requires forall r :: r in rows ==> f(r).req == r.req
    ensures HasKey(Map(rows, f), k) == HasKey(rows, k)
  {
    var m := Map(rows, f);
    if i :| 0 <= i < |m| && KeyOf(m[i].req) == k {
      assert KeyOf(rows[i].req) == k;
    }
    if i :| 0 <= i < |rows| && KeyOf(rows[i].req) == k {
      assert KeyOf(m[i].req) == k;
    }
  }

  lemma KeysGrow(rows: seq<Row>, r: Row, k: Key)
    ensures HasKey(rows + [r], k) <==> HasKey(rows, k) || KeyOf(r.req) == k
  {
    var m := rows + [r];
    if i :| 0 <= i < |rows| && KeyOf(rows[i].req) == k {
      assert KeyOf(m[i].req) == k;
    }
    if KeyOf(r.req) == k {
      assert KeyOf(m[|rows|].req) == k;
    }
  }

  // ----- The invariant -----

  function ToCome(s: State, ws: string, target: string): seq<Request> {
    Filter(s.checked, Unadmitted(s.rows, ws, target))
  }

  function Bound(limit: nat): nat { limit * MAX_QUEUE_BYTES }

  /** Live rows together with the rows still to come. */
  ghost predicate CapInv(s: State, ws: string, target: string, limit: nat)
    requires limit >= 1
  {
    && |LiveRows(s, ws, target)| + |ToCome(s, ws, target)| <= MAX_QUEUE_DEPTH + limit - 1
    && TotalBytes(LiveRows(s, ws, target)) + RequestBytes(ToCome(s, ws, target)) <= Bound(limit)
    && forall q :: q in s.checked ==> PayloadBytes(q.payload) <= MAX_QUEUE_BYTES
  }

  /** Fetch, ack and sweep only take rows away. */
  lemma CapUpdate(s: State, t: State, f: Row -> Row, ws: string, target: string, limit: nat)
    requires limit >= 1 && CapInv(s, ws, target, limit)
    requires t.rows == Map(s.rows, f) && t.checked == s.checked
    requires forall r :: r in s.rows ==> f(r).req == r.req && (f(r).Live() ==> r.Live())
    ensures CapInv(t, ws, target, limit)
  {
    UpdateShrinks(s.rows, f, LiveIn(ws, target));
    forall q: Request ensures Unadmitted(t.rows, ws, target)(q) == Unadmitted(s.rows, ws, target)(q) {
      KeysKept(s.rows, f, KeyOf(q));
    }
    WeakerFilter(s.checked, Unadmitted(t.rows, ws, target), Unadmitted(s.rows, ws, target));
    WeakerFilter(s.checked, Unadmitted(s.rows, ws, target), Unadmitted(t.rows, ws, target));
  }

  lemma PendingVersusFlight(s: State, ws: string, target: string)
    ensures |ToCome(s, ws, target)| <= |InFlight(s, ws, target)|
    ensures RequestBytes(ToCome(s, ws, target)) <= RequestBytes(InFlight(s, ws, target))
  {
    WeakerFilter(s.checked, Unadmitted(s.rows, ws, target), For(ws, target));
  }

  lemma ScaleBytes(a: nat, b: nat)
    requires a <= b
    ensures Bound(a) <= Bound(b) && Bound(a) + MAX_QUEUE_BYTES == Bound(a + 1)
  {
  }

  /** An admission that passed its check joins those in flight. */
  lemma CapAdmit(s: State, q: Request, limit: nat)
    requires Inv(s) && limit >= 1 && CapInv(s, q.ws, q.target, limit) && !Full(s.rows, q)
    requires |InFlight(s, q.ws, q.target)| < limit
    ensures CapInv(s.(checked := s.checked + [q]), q.ws, q.target, limit)
  {
    var t := s.(checked := s.checked + [q]);
    var ws, target := q.ws, q.target;
    CountedVersusLive(s.rows, q);
    FilterSnoc(s.checked, q, Unadmitted(s.rows, ws, target));
    PendingVersusFlight(s, ws, target);
    if HasKey(s.rows, KeyOf(q)) {
      assert ToCome(t, ws, target) == ToCome(s, ws, target);
    } else {
      var others := ToCome(s, ws, target);
      RequestBytesSnoc(others, q);
      forall x | x in others ensures PayloadBytes(x.payload) <= MAX_QUEUE_BYTES {
        FilterMember(s.checked, Unadmitted(s.rows, ws, target), x);
      }
      RequestBytesBound(others, MAX_QUEUE_BYTES);
      ScaleBytes(|others|, limit - 1);
    }
  }

  lemma CapInsert(s: State, q: Request, ws: string, target: string, limit: nat)
    requires limit >= 1 && CapInv(s, ws, target, limit) && q in s.checked
    ensures CapInv(Apply(s, Insert(q)), ws, target, limit)
  {
    var t := Apply(s, Insert(q));
    var before := Unadmitted(s.rows, ws, target);
    RemoveFirstFilter(s.checked, q, before);
    RemoveFirstSize(Filter(s.checked, before), q);
    RequestBytesRemove(Filter(s.checked, before), q);
    FilterMember(s.checked, before, q);
    forall x | x in t.checked ensures x in s.checked { RemoveFirstMember(s.checked, q, x); }
    if !HasKey(s.rows, KeyOf(q)) {
      var r := NewRow(s.nextId, q, s.now);
      FilterSnoc(s.rows, r, LiveIn(ws, target));
      BytesSnoc(LiveRows(s, ws, target), r);
      forall x: Request ensures Unadmitted(t.rows, ws, target)(x) ==> before(x) { KeysGrow(s.rows, r, KeyOf(x)); }
      WeakerFilter(t.checked, Unadmitted(t.rows, ws, target), before);
    }
  }

  lemma CapStep(s: State, step: Step, ws: string, target: string, limit: nat)
    requires Inv(s) && Enabled(s, step) && limit >= 1 && CapInv(s, ws, target, limit)
    requires |InFlight(Apply(s, step), ws, target)| <= limit
    ensures CapInv(Apply(s, step), ws, target, limit)
  {
    var t := Apply(s, step);
    match step
    case Tick(_) =>
    case Check(q) => CapCheck(s, q, ws, target, limit);
    case CheckJob(q) => CapCheck(s.(jobs := RemoveFirst(s.jobs, q)), q, ws, target, limit);
    case Insert(q) => CapInsert(s, q, ws, target, limit);
    case Fetch(w, m, ackMs) => CapUpdate(s, t, DeliverRow(s.now, w, m, ackMs), ws, target, limit);
    case Ack(k) => CapUpdate(s, t, AckRow(s.now, k), ws, target, limit);
    case Sweep => CapUpdate(s, t, ExpireRow(s.now), ws, target, limit);
  }

  lemma CapCheck(s: State, q: Request, ws: string, target: string, limit: nat)
    requires Inv(s) && limit >= 1 && CapInv(s, ws, target, limit)
    requires |InFlight(Checked(s, q), ws, target)| <= limit
    ensures CapInv(Checked(s, q), ws, target, limit)
  {
    if !Full(s.rows, q) {
      FilterSnoc(s.checked, q, For(ws, target));
      FilterSnoc(s.checked, q, Unadmitted(s.rows, ws, target));
      if q.ws == ws && q.target == target {
        CapAdmit(s, q, limit);
      } else {
        assert ToCome(Checked(s, q), ws, target) == ToCome(s, ws, target);
        assert TotalBytes([]) == 0;
        forall x | x in Checked(s, q).checked ensures PayloadBytes(x.payload) <= MAX_QUEUE_BYTES { }
      }
    }
  }

  lemma {:induction false} CapRun(t0: int, steps: seq<Step>, ws: string, target: string, limit: nat)
    requires limit >= 1 && Valid(Init(t0), steps) && AtMostInFlight(Init(t0), steps, ws, target, limit)
    ensures CapInv(Exec(Init(t0), steps), ws, target, limit)
  {
    if steps == [] {
      ScaleBytes(0, limit);
    } else {
      var n := |steps| - 1;
      var front := steps[..n];
      ValidPrefix(Init(t0), steps, n);
      forall i | 0 <= i <= n ensures |InFlight(At(Init(t0), front, i), ws, target)| <= limit {
        AtPrefix(Init(t0), steps, n, i);
      }
      CapRun(t0, front, ws, target, limit);
      InvRun(Init(t0), front);
      assert steps[..n + 1] == steps;
      assert Enabled(At(Init(t0), steps, n), steps[n]);
      assert |InFlight(At(Init(t0), steps, n + 1), ws, target)| <= limit;
      CapStep(Exec(Init(t0), front), steps[n], ws, target, limit);
    }
  }

  /**
   * With at most limit admissions to an inbox in flight at once, the inbox never holds more
   * than MAX_QUEUE_DEPTH + limit - 1 live rows nor more than limit times MAX_QUEUE_BYTES.
   */
  lemma CapUnderConcurrency(t0: int, steps: seq<Step>, ws: string, target: string, limit: nat)
    requires limit >= 1 && Valid(Init(t0), steps) && AtMostInFlight(Init(t0), steps, ws, target, limit)
    ensures var live := LiveRows(Exec(Init(t0), steps), ws, target);
            |live| <= MAX_QUEUE_DEPTH + limit - 1 && TotalBytes(live) <= limit * MAX_QUEUE_BYTES
  {
    CapRun(t0, steps, ws, target, limit);
  }

  /** One admission at a time: the documented caps hold. */
  lemma CapSequential(t0: int, steps: seq<Step>, ws: string, target: string)
    requires Valid(Init(t0), steps) && AtMostInFlight(Init(t0), steps, ws, target, 1)
    ensures var live := LiveRows(Exec(Init(t0), steps), ws, target);
            |live| <= 1000 && TotalBytes(live) <= 8 * 1024 * 1024
  {
    CapUnderConcurrency(t0, steps, ws, target, 1);
  }
}

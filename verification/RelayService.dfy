/** The relay queue's functions as methods over the table, each made of whole SQL statements. */
module RelayService {
  import opened Util
  import opened RelayModel
  import opened RelayInvariants
  import opened RelayCaps
  import opened RelayDelivery
  import opened RelayStatements

  datatype EnqueueResult = Admitted(envelope: Row) | QueueFull

  datatype Table = Table(rows: seq<Row>, nextId: nat)

  ghost predicate TableOk(t: Table) {
    IdsIncrease(t.rows) && KeysUnique(t.rows) && forall i :: 0 <= i < |t.rows| ==> t.rows[i].id < t.nextId
  }

  function Lookup(rows: seq<Row>, k: Key): (r: Row)
    requires HasKey(rows, k)
    ensures r in rows && KeyOf(r.req) == k
  {
    if KeyOf(rows[0].req) == k then rows[0] else Lookup(rows[1..], k)
  }

  /** One uninterrupted admission. */
  function Admit(t: Table, q: Request, now: int): (Table, EnqueueResult) {
    if Full(t.rows, q) then (t, QueueFull)
    else if HasKey(t.rows, KeyOf(q)) then (Table(t.rows, t.nextId + 1), Admitted(Lookup(t.rows, KeyOf(q))))
    else
      var r := NewRow(t.nextId, q, now);
      (Table(t.rows + [r], t.nextId + 1), Admitted(r))
  }

  /** The sweep's loop over the expired rows, in the order given. */
  function AnswerEach(t: Table, swept: seq<Row>, now: int): Table {
    if swept == [] then t
    else
      var last := swept[|swept| - 1];
      var before := AnswerEach(t, swept[..|swept| - 1], now);
      if OwesAnswer(last.req) then Admit(before, AnswerTo(last.req), now).0 else before
  }

  lemma AdmitOk(t: Table, q: Request, now: int)
    requires TableOk(t)
    ensures TableOk(Admit(t, q, now).0)
  {
  }

  // ----- Rows come back from UPDATE ... RETURNING in no particular order -----

  /** Callers learn only which rows came back. */
  method Returning(rows: seq<Row>) returns (out: seq<Row>)
    ensures multiset(out) == multiset(rows)
  {
    out := rows;
  }

  ghost predicate SortedById(rows: seq<Row>) {
    forall i, j :: 0 <= i < j < |rows| ==> rows[i].id <= rows[j].id
  }

  /** Where r goes among rows sorted by id. */
  method PlaceFor(sorted: seq<Row>, r: Row) returns (k: nat)
    requires SortedById(sorted)
    ensures k <= |sorted|
    ensures forall i :: 0 <= i < k ==> sorted[i].id <= r.id
    ensures forall i :: k <= i < |sorted| ==> r.id < sorted[i].id
  {
    k := |sorted|;
    while k > 0 && sorted[k - 1].id > r.id
      invariant 0 <= k <= |sorted|
      invariant forall i :: k <= i < |sorted| ==> sorted[i].id > r.id
    {
      k := k - 1;
    }
  }

  method SortById(rows: seq<Row>) returns (sorted: seq<Row>)
    ensures multiset(sorted) == multiset(rows) && SortedById(sorted)
  {
    sorted := [];
    for n := 0 to |rows|
      invariant multiset(sorted) == multiset(rows[..n]) && SortedById(sorted)
    {
      var k := PlaceFor(sorted, rows[n]);
      assert rows[..n + 1] == rows[..n] + [rows[n]];
      PlacedMultiset(sorted, k, rows[n]);
      PlacedSorted(sorted, k, rows[n]);
      sorted := sorted[..k] + [rows[n]] + sorted[k..];
    }
    assert rows[..|rows|] == rows;
  }

  lemma PlacedMultiset(s: seq<Row>, k: nat, r: Row)
    requires k <= |s|
    ensures multiset(s[..k] + [r] + s[k..]) == multiset(s) + multiset{r}
  {
    assert s == s[..k] + s[k..];
  }

  lemma PlacedSorted(s: seq<Row>, k: nat, r: Row)
    requires SortedById(s) && k <= |s|
    requires forall i :: 0 <= i < k ==> s[i].id <= r.id
    requires forall i :: k <= i < |s| ==> r.id < s[i].id
    ensures SortedById(s[..k] + [r] + s[k..])
  {
  }

  lemma TailMultiset<T>(s: seq<T>)
    requires s != []
    ensures multiset(s[1..]) == multiset(s) - multiset{s[0]}
  {
    assert s == [s[0]] + s[1..];
  }

  lemma SameLeast(a: seq<Row>, b: seq<Row>)
    requires IdsIncrease(a) && SortedById(b) && multiset(a) == multiset(b) && a != [] && b != []
    ensures a[0] == b[0]
  {
    assert b[0] in multiset(a);
    var i :| 0 <= i < |a| && a[i] == b[0];
    assert a[0] in multiset(b);
    var j :| 0 <= j < |b| && b[j] == a[0];
    assert b[0].id <= b[j].id;
  }

  /** Distinct ids leave a sort no choice. */
  lemma {:induction false} SortUnique(a: seq<Row>, b: seq<Row>)
    requires IdsIncrease(a) && SortedById(b) && multiset(a) == multiset(b)
    ensures a == b
  {
    assert |a| == |multiset(a)| == |multiset(b)| == |b|;
    if a != [] {
      SameLeast(a, b);
      TailMultiset(a);
      TailMultiset(b);
      SortUnique(a[1..], b[1..]);
      assert a == [a[0]] + a[1..] && b == [b[0]] + b[1..];
    }
  }

  /** depth.rows.reduce((sum, r) => sum + Buffer.byteLength(...), 0) */
  method SumBytes(depth: seq<Row>) returns (bytes: int)
    ensures bytes == TotalBytes(depth)
  {
    bytes := 0;
    for i := 0 to |depth|
      invariant bytes == TotalBytes(depth[..i])
    {
      assert depth[..i + 1][..i] == depth[..i];
      bytes := bytes + PayloadBytes(depth[i].req.payload);
    }
    assert depth[..|depth|] == depth;
  }

  class RelayQueue {
    var rows: seq<Row>
    var nextId: nat

    ghost predicate Ok() reads this { TableOk(Table(rows, nextId)) }

    constructor ()
      ensures Ok() && rows == [] && nextId == 0
    {
      rows, nextId := [], 0;
    }

    method Enqueue(q: Request, now: int) returns (result: EnqueueResult)
      requires Ok()
      modifies this
      ensures Ok()
      ensures (Table(rows, nextId), result) == Admit(Table(old(rows), old(nextId)), q, now)
    {
      AdmitOk(Table(rows, nextId), q, now);
      var depth := Filter(rows, Counted(q));
      var bytes := SumBytes(depth);
      if |depth| >= MAX_QUEUE_DEPTH || bytes + PayloadBytes(q.payload) > MAX_QUEUE_BYTES {
        return QueueFull;
      }
      var id := nextId;
      nextId := nextId + 1;
      if !HasKey(rows, KeyOf(q)) {
        rows := rows + [NewRow(id, q, now)];
        return Admitted(rows[|rows| - 1]);
      }
      return Admitted(Lookup(rows, KeyOf(q)));
    }

    method FetchDeliverable(ws: string, target: string, now: int, ackMs: int := DEFAULT_ACK_TIMEOUT_MS)
      returns (batch: seq<Row>)
      requires Ok()
      modifies this`rows
      ensures Ok()
      ensures rows == Map(old(rows), DeliverRow(now, ws, target, ackMs))
      ensures |rows| == |old(rows)|
      ensures forall i :: 0 <= i < |rows| ==>
                rows[i] == if old(rows)[i].req.ws == ws && old(rows)[i].req.target == target
                              && now < old(rows)[i].createdAt + 1000 * old(rows)[i].req.ttl
                              && (old(rows)[i].status == Pending
                                  || (old(rows)[i].status == Delivered && old(rows)[i].deliveredAt.Some?
                                      && old(rows)[i].deliveredAt.value + 1000 * ackMs <= now))
                           then old(rows)[i].(status := Delivered, deliveredAt := Some(now)) else old(rows)[i]
      ensures batch == Batch(State(now, old(rows), old(nextId), [], [], []), ws, target, ackMs)
    {
      ghost var s := State(now, rows, nextId, [], [], []);
      var served := Filter(rows, (r: Row) => Deliverable(r, now, ws, target, ackMs));
      FilterKeepsOrder(rows, (r: Row) => Deliverable(r, now, ws, target, ackMs));
      rows := Map(rows, DeliverRow(now, ws, target, ackMs));
      var returned := Returning(Map(served, DeliverRow(now, ws, target, ackMs)));
      batch := SortById(returned);
      SortUnique(Map(served, DeliverRow(now, ws, target, ackMs)), batch);
      assert Batch(s, ws, target, ackMs) == Map(served, DeliverRow(now, ws, target, ackMs));
    }

    method Ack(k: Key, now: int)
      requires Ok()
      modifies this`rows
      ensures Ok()
      ensures rows == Map(old(rows), AckRow(now, k))
      ensures |rows| == |old(rows)|
      ensures forall i :: 0 <= i < |rows| ==>
                rows[i] == if (old(rows)[i].status == Pending || old(rows)[i].status == Delivered)
                              && Under(old(rows)[i], k.ws, k.target, k.env)
                           then old(rows)[i].(status := Acked, ackedAt := Some(now)) else old(rows)[i]
    {
      rows := Map(rows, AckRow(now, k));
    }

    method SweepExpired(now: int) returns (count: nat)
      requires Ok()
      modifies this`rows
      ensures Ok()
      ensures rows == Map(old(rows), ExpireRow(now))
      ensures |rows| == |old(rows)|
      ensures forall i :: 0 <= i < |rows| ==>
                rows[i] == if (old(rows)[i].status == Pending || old(rows)[i].status == Delivered)
                              && old(rows)[i].createdAt + 1000 * old(rows)[i].req.ttl <= now
                           then old(rows)[i].(status := Expired) else old(rows)[i]
      ensures count == |Filter(old(rows), ExpiringAt(now))|
    {
      count := |Filter(rows, ExpiringAt(now))|;
      rows := Map(rows, ExpireRow(now));
    }

    method SweepExpiredToFailures(now: int) returns (count: nat, ghost order: seq<Row>)
      requires Ok()
      modifies this
      ensures Ok()
      ensures count == |Filter(old(rows), ExpiringAt(now))|
      ensures multiset(order) == multiset(Map(Filter(old(rows), ExpiringAt(now)), ExpireRow(now)))
      ensures Table(rows, nextId)
              == AnswerEach(Table(Map(old(rows), ExpireRow(now)), old(nextId)), order, now)
    {
      var swept := Map(Filter(rows, ExpiringAt(now)), ExpireRow(now));
      rows := Map(rows, ExpireRow(now));
      ghost var start := Table(rows, nextId);
      var result := Returning(swept);
      for i := 0 to |result|
        invariant Ok()
        invariant Table(rows, nextId) == AnswerEach(start, result[..i], now)
      {
        assert result[..i + 1][..i] == result[..i];
        var q := result[i].req;
        if FailureResultKind(q.kind).None? || q.origin.None? || q.origin.value == "" {
          continue;
        }
        var _ := Enqueue(AnswerTo(q), now);
      }
      assert result[..|result|] == result;
      assert |result| == |multiset(result)| == |multiset(swept)| == |swept|;
      count := |result|;
      order := result;
    }
  }

  // ----- Uninterrupted calls are runs of the state machine -----

  function TableOf(s: State): Table { Table(s.rows, s.nextId) }

  function AdmitSteps(rows: seq<Row>, q: Request): seq<Step> {
    if Full(rows, q) then [Check(q)] else [Check(q), Insert(q)]
  }

  /** A call to enqueue is its check followed by its insert; its answer is recorded or returned. */
  lemma EnqueueIsRun(s: State, q: Request)
    requires s.checked == []
    ensures Valid(s, AdmitSteps(s.rows, q))
    ensures var t := Exec(s, AdmitSteps(s.rows, q));
            && TableOf(t) == Admit(TableOf(s), q, s.now).0
            && t.now == s.now && t.checked == [] && t.jobs == s.jobs
            && t.refused == s.refused + (if Admit(TableOf(s), q, s.now).1.QueueFull? then [q] else [])
  {
    assert Exec(s, []) == s;
    assert Valid(s, []);
    ValidSnoc(s, [], Check(q));
    ExecSnoc(s, [], Check(q));
    assert [] + [Check(q)] == [Check(q)];
    if !Full(s.rows, q) {
      var mid := Exec(s, [Check(q)]);
      assert mid.checked == [q];
      ValidSnoc(s, [Check(q)], Insert(q));
      ExecSnoc(s, [Check(q)], Insert(q));
      assert [Check(q)] + [Insert(q)] == [Check(q), Insert(q)];
    }
  }
}

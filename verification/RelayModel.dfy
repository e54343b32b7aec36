/**
 * The hub's relay queue as a state machine whose steps are the single SQL statements of
 * relay-queue.ts, so that any two calls may interleave between their statements.
 *
 * Instants are microseconds (the resolution of the database clock); durations given in
 * milliseconds are converted by Ms. The table is kept in id order: rows are only ever
 * appended, by the insert statement, and updated in place.
 */
module RelayModel {
  import opened Util

  const MAX_QUEUE_DEPTH: nat := 1000
  const MAX_QUEUE_BYTES: nat := 8 * 1024 * 1024
  const DEFAULT_ACK_TIMEOUT_MS: nat := 10000

  function Ms(d: int): int { 1000 * d }

  // ----- Envelopes -----

  /** A submitted payload is its JSON text and that text's byte length; the other payload
      is the one the sweep writes. */
  datatype Payload = Submitted(json: string, bytes: nat) | TtlFailure(correlation: string)

  const FAILURE_TEXT := "{\"status\":\"target_offline_ttl_expired\",\"correlation_id\":\"\"}"

  function PayloadBytes(p: Payload): nat {
    match p
    case Submitted(_, bytes) => bytes
    case TtlFailure(correlation) => |FAILURE_TEXT| + JsonBytes(correlation)
  }

  /** UTF-8 length of s inside a JSON string literal. */
  function JsonBytes(s: string): nat {
    if s == [] then 0 else JsonCharBytes(s[0]) + JsonBytes(s[1..])
  }

  function JsonCharBytes(c: char): nat {
    var code := c as int;
    if c == '\"' || c == '\\' then 2
    else if code in {8, 9, 10, 12, 13} then 2
    else if code < 0x20 then 6
    else if code < 0x80 then 1
    else if code < 0x800 then 2
    else if code < 0x10000 then 3
    else 4
  }

  datatype Request = Request(ws: string, target: string, env: string, kind: string, payload: Payload,
                             ttl: int, origin: Option<string>, correlation: Option<string>)

  /** The table's uniqueness constraint. */
  datatype Key = Key(ws: string, target: string, env: string)

  function KeyOf(q: Request): Key { Key(q.ws, q.target, q.env) }

  datatype Status = Pending | Delivered | Acked | Expired

  datatype Row = Row(id: nat, req: Request, status: Status, createdAt: int,
                     deliveredAt: Option<int>, ackedAt: Option<int>)
  {
    predicate Live() { status.Pending? || status.Delivered? }

    predicate In(ws: string, target: string) { req.ws == ws && req.target == target }

    function Deadline(): int { createdAt + Ms(req.ttl) }
  }

  // ----- Admission -----

  /** The rows the depth query counts: the live ones of the inbox, bar the envelope's own. */
  function Counted(q: Request): Row -> bool {
    (r: Row) => r.In(q.ws, q.target) && r.Live() && r.req.env != q.env
  }

  function TotalBytes(rows: seq<Row>): nat {
    if rows == [] then 0
    else TotalBytes(rows[..|rows| - 1]) + PayloadBytes(rows[|rows| - 1].req.payload)
  }

  predicate Full(rows: seq<Row>, q: Request) {
    var depth := Filter(rows, Counted(q));
    |depth| >= MAX_QUEUE_DEPTH || TotalBytes(depth) + PayloadBytes(q.payload) > MAX_QUEUE_BYTES
  }

  predicate HasKey(rows: seq<Row>, k: Key) {
    exists i :: 0 <= i < |rows| && KeyOf(rows[i].req) == k
  }

  function NewRow(id: nat, q: Request, now: int): Row {
    Row(id, q, Pending, now, None, None)
  }

  // ----- Delivery, acknowledgement, expiry: what each update does to one row -----

  predicate Deliverable(r: Row, now: int, ws: string, target: string, ackMs: int) {
    && r.In(ws, target)
    && r.Deadline() > now
    && (r.status.Pending?
        || (r.status.Delivered? && r.deliveredAt.Some? && r.deliveredAt.value + Ms(ackMs) <= now))
  }

  function DeliverRow(now: int, ws: string, target: string, ackMs: int): Row -> Row {
    (r: Row) => if Deliverable(r, now, ws, target, ackMs)
                then r.(status := Delivered, deliveredAt := Some(now)) else r
  }

  function AckRow(now: int, k: Key): Row -> Row {
    (r: Row) => if KeyOf(r.req) == k && r.Live() then r.(status := Acked, ackedAt := Some(now)) else r
  }

  predicate Expiring(r: Row, now: int) { r.Live() && r.Deadline() <= now }

  function ExpiringAt(now: int): Row -> bool { (r: Row) => Expiring(r, now) }

  function ExpireRow(now: int): Row -> Row {
    (r: Row) => if Expiring(r, now) then r.(status := Expired) else r
  }

  // ----- Synthetic failures -----

  function FailureResultKind(kind: string): Option<string> {
    if kind == "execute_command.request" then Some("execute_command.result")
    else if kind == "execute_prompt.request" then Some("execute_prompt.result")
    else if kind == "send_message.deliver" then Some("send_message.ack")
    else None
  }

  function FailureTtl(resultKind: string): nat {
    if resultKind == "execute_command.result" then 60000
    else if resultKind == "execute_prompt.result" then 120000
    else if resultKind == "send_message.ack" then 15000
    else 60000
  }

  /** Whether an expiry must be answered: a request kind whose originator is known. */
  predicate OwesAnswer(q: Request) {
    FailureResultKind(q.kind).Some? && q.origin.Some? && q.origin.value != ""
  }

  function AnswerTo(q: Request): Request
    requires OwesAnswer(q)
  {
    var kind := FailureResultKind(q.kind).value;
    Request(q.ws, q.origin.value, q.env + ".ttl-failed", kind, TtlFailure(q.env), FailureTtl(kind),
            None, Some(q.env))
  }

  /** The failure requests owed by a list of expired rows, in the list's order. */
  function Answers(rows: seq<Row>): seq<Request> {
    if rows == [] then []
    else
      var r := rows[|rows| - 1];
      Answers(rows[..|rows| - 1]) + (if OwesAnswer(r.req) then [AnswerTo(r.req)] else [])
  }

  // ----- The state machine -----

  /**
   * checked: admissions between their depth check and their insert.
   * jobs:    failure answers a sweep still has to admit.
   * refused: admissions answered with queue_full.
   */
  datatype State = State(now: int, rows: seq<Row>, nextId: nat,
                         checked: seq<Request>, jobs: seq<Request>, refused: seq<Request>)

  datatype Step =
    | Tick(d: nat)
    | Check(req: Request)                                   // a caller's depth query
    | CheckJob(req: Request)                                // the same, for a sweep's answer
    | Insert(req: Request)                                  // INSERT ... ON CONFLICT DO NOTHING
    | Fetch(ws: string, target: string, ackMs: int)
    | Ack(key: Key)
    | Sweep

  function Init(now: int): State { State(now, [], 0, [], [], []) }

  predicate Enabled(s: State, step: Step) {
    match step
    case CheckJob(q) => q in s.jobs
    case Insert(q) => q in s.checked
    case _ => true
  }

  function Checked(s: State, q: Request): State {
    if Full(s.rows, q) then s.(refused := s.refused + [q]) else s.(checked := s.checked + [q])
  }

  /** The id sequence moves on even when the insert hits an existing key. */
  function Inserted(s: State, q: Request): State {
    s.(nextId := s.nextId + 1,
       rows := if HasKey(s.rows, KeyOf(q)) then s.rows else s.rows + [NewRow(s.nextId, q, s.now)])
  }

  function Apply(s: State, step: Step): State {
    match step
    case Tick(d) => s.(now := s.now + d)
    case Check(q) => Checked(s, q)
    case CheckJob(q) => Checked(s.(jobs := RemoveFirst(s.jobs, q)), q)
    case Insert(q) => Inserted(s.(checked := RemoveFirst(s.checked, q)), q)
    case Fetch(ws, target, ackMs) => s.(rows := Map(s.rows, DeliverRow(s.now, ws, target, ackMs)))
    case Ack(k) => s.(rows := Map(s.rows, AckRow(s.now, k)))
    case Sweep => s.(rows := Map(s.rows, ExpireRow(s.now)),
                     jobs := s.jobs + Answers(Filter(s.rows, ExpiringAt(s.now))))
  }

  /** The batch a fetch hands out: the updated rows, in id order. */
  function Batch(s: State, ws: string, target: string, ackMs: int): seq<Row> {
    var p := (r: Row) => Deliverable(r, s.now, ws, target, ackMs);
    Map(Filter(s.rows, p), DeliverRow(s.now, ws, target, ackMs))
  }

  // ----- Runs -----

  function Exec(s: State, steps: seq<Step>): State {
    if steps == [] then s
    else Apply(Exec(s, steps[..|steps| - 1]), steps[|steps| - 1])
  }

  /** The state of the run just before step i (the last state for i == |steps|). */
  function At(s: State, steps: seq<Step>, i: nat): State
    requires i <= |steps|
  {
    Exec(s, steps[..i])
  }

  ghost predicate Valid(s: State, steps: seq<Step>) {
    forall i {:trigger At(s, steps, i)} :: 0 <= i < |steps| ==> Enabled(At(s, steps, i), steps[i])
  }

  ghost predicate Reachable(s: State) {
    exists t: int, steps: seq<Step> :: Valid(Init(t), steps) && s == Exec(Init(t), steps)
  }

  lemma AtNext(s: State, steps: seq<Step>, i: nat)
    requires i < |steps|
    ensures At(s, steps, i + 1) == Apply(At(s, steps, i), steps[i])
  {
    assert steps[..i + 1][..i] == steps[..i];
  }

  lemma AtPrefix(s: State, steps: seq<Step>, n: nat, i: nat)
    requires i <= n <= |steps|
    ensures At(s, steps[..n], i) == At(s, steps, i)
  {
    assert steps[..n][..i] == steps[..i];
  }

  lemma ValidPrefix(s: State, steps: seq<Step>, n: nat)
    requires n <= |steps| && Valid(s, steps)
    ensures Valid(s, steps[..n])
  {
    forall i | 0 <= i < n ensures Enabled(At(s, steps[..n], i), steps[..n][i]) {
      AtPrefix(s, steps, n, i);
    }
  }

  lemma AtSnoc(s: State, steps: seq<Step>, step: Step, i: nat)
    requires i <= |steps| + 1
    ensures At(s, steps + [step], i) == if i <= |steps| then At(s, steps, i) else Apply(Exec(s, steps), step)
  {
    var all := steps + [step];
    if i <= |steps| {
      assert all[..i] == steps[..i];
    } else {
      assert all[..i] == all && all[..|steps|] == steps;
    }
  }

  lemma ExecSnoc(s: State, steps: seq<Step>, step: Step)
    ensures Exec(s, steps + [step]) == Apply(Exec(s, steps), step)
  {
    assert (steps + [step])[..|steps|] == steps;
  }

  lemma ValidSnoc(s: State, steps: seq<Step>, step: Step)
    requires Valid(s, steps) && Enabled(Exec(s, steps), step)
    ensures Valid(s, steps + [step])
  {
    var all := steps + [step];
    forall i | 0 <= i < |all| ensures Enabled(At(s, all, i), all[i]) {
      AtSnoc(s, steps, step, i);
      if i == |steps| {
        assert steps[..i] == steps;
      }
    }
  }
}

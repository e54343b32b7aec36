/** What each statement does to each row, in terms of the columns alone. */
module RelayStatements {
  import opened Util
  import opened RelayModel
  import opened RelayInvariants

  /** The columns a key is made of. */
  predicate Under(r: Row, ws: string, target: string, env: string) {
    r.req.ws == ws && r.req.target == target && r.req.env == env
  }

  /** The sweep expires exactly the pending and delivered rows whose time to live is over. */
  lemma SweepExact(s: State, k: nat)
    requires k < |s.rows|
    ensures var (r, rows) := (s.rows[k], Apply(s, Sweep).rows);
            && |rows| == |s.rows|
            && rows[k] == if (r.status == Pending || r.status == Delivered) && r.createdAt + 1000 * r.req.ttl <= s.now
                          then Row(r.id, r.req, Expired, r.createdAt, r.deliveredAt, r.ackedAt) else r
  {
  }

  /** An acknowledgement retires exactly the pending or delivered row with its three columns. */
  lemma AckExact(s: State, ws: string, target: string, env: string, k: nat)
    requires k < |s.rows|
    ensures var (r, rows) := (s.rows[k], Apply(s, Ack(Key(ws, target, env))).rows);
            && |rows| == |s.rows|
            && rows[k] == if (r.status == Pending || r.status == Delivered) && Under(r, ws, target, env)
                          then Row(r.id, r.req, Acked, r.createdAt, r.deliveredAt, Some(s.now)) else r
  {
  }

  /** A fetch stamps exactly the unexpired rows of its inbox that are pending, or were handed out at
      least the timeout ago. */
  lemma FetchExact(s: State, ws: string, target: string, ackMs: int, k: nat)
    requires Inv(s) && k < |s.rows|
    ensures var (r, rows) := (s.rows[k], Apply(s, Fetch(ws, target, ackMs)).rows);
            && |rows| == |s.rows|
            && (r.status == Delivered ==> r.deliveredAt.Some?)
            && rows[k] == if r.req.ws == ws && r.req.target == target && s.now < r.createdAt + 1000 * r.req.ttl
                             && (r.status == Pending
                                 || (r.status == Delivered && r.deliveredAt.value + 1000 * ackMs <= s.now))
                          then Row(r.id, r.req, Delivered, r.createdAt, Some(s.now), r.ackedAt) else r
  {
  }

  /** An insert appends one pending row with the request's columns, unless its key is taken. */
  lemma InsertExact(s: State, q: Request)
    ensures var rows := Apply(s, Insert(q)).rows;
            if exists i :: 0 <= i < |s.rows| && Under(s.rows[i], q.ws, q.target, q.env) then rows == s.rows
            else rows == s.rows + [Row(s.nextId, q, Pending, s.now, None, None)]
  {
    if i :| 0 <= i < |s.rows| && Under(s.rows[i], q.ws, q.target, q.env) {
      assert KeyOf(s.rows[i].req) == KeyOf(q);
    }
    if HasKey(s.rows, KeyOf(q)) {
      var i :| 0 <= i < |s.rows| && KeyOf(s.rows[i].req) == KeyOf(q);
      assert Under(s.rows[i], q.ws, q.target, q.env);
    }
  }

  // ----- The answers -----

  /** Exactly the three request kinds with a named originator are answered, each by its own result
      under the request's id and with that result's time to live. */
  lemma AnswerExact(q: Request)
    ensures OwesAnswer(q) <==>
              && q.kind in {"execute_command.request", "execute_prompt.request", "send_message.deliver"}
              && q.origin != None && q.origin != Some("")
    ensures OwesAnswer(q) ==>
              AnswerTo(q) == Request(q.ws, q.origin.value, q.env + ".ttl-failed",
                                     match q.kind
                                     case "execute_command.request" => "execute_command.result"
                                     case "execute_prompt.request" => "execute_prompt.result"
                                     case _ => "send_message.ack",
                                     TtlFailure(q.env),
                                     match q.kind
                                     case "execute_command.request" => 60000
                                     case "execute_prompt.request" => 120000
                                     case _ => 15000,
                                     None, Some(q.env))
  {
  }

  // ----- Over runs -----

  /** What is expired was past its deadline. */
  ghost predicate ExpiredWasDue(s: State) {
    forall k :: 0 <= k < |s.rows| && s.rows[k].status == Expired ==>
        s.rows[k].createdAt + 1000 * s.rows[k].req.ttl <= s.now
  }

  lemma ExpiredStep(s: State, step: Step)
    requires ExpiredWasDue(s)
    ensures ExpiredWasDue(Apply(s, step))
  {
    StepLater(s, step);
    var t := Apply(s, step);
    forall k | 0 <= k < |t.rows| && t.rows[k].status == Expired
      ensures t.rows[k].createdAt + 1000 * t.rows[k].req.ttl <= t.now
    {
      if k < |s.rows| && step.Sweep? {
        SweepExact(s, k);
      }
    }
  }

  lemma {:induction false} ExpiredRun(s: State, steps: seq<Step>)
    requires ExpiredWasDue(s)
    ensures ExpiredWasDue(Exec(s, steps))
  {
    if steps != [] {
      ExpiredRun(s, steps[..|steps| - 1]);
      ExpiredStep(Exec(s, steps[..|steps| - 1]), steps[|steps| - 1]);
    }
  }

  /** In every reachable state nothing is expired before its time to live is over. */
  lemma NeverExpiredEarly(s: State, k: nat)
    requires Reachable(s) && k < |s.rows| && s.rows[k].status == Expired
    ensures s.rows[k].createdAt + 1000 * s.rows[k].req.ttl <= s.now
  {
    var t, steps :| Valid(Init(t), steps) && s == Exec(Init(t), steps);
    ExpiredRun(Init(t), steps);
  }

  /** And after a sweep nothing live is past it. */
  lemma NothingDueAfterSweep(s: State, k: nat)
    requires k < |Apply(s, Sweep).rows|
    ensures var r := Apply(s, Sweep).rows[k];
            r.status == Pending || r.status == Delivered ==> s.now < r.createdAt + 1000 * r.req.ttl
  {
    SweepExact(s, k);
  }

  // ----- The size of a failure answer -----

  /** A character as JSON writes it inside a string, in UTF-8 bytes. */
  function Escaped(c: char): string {
    var hex := "0123456789abcdef";
    if c == '\"' then "\\\""
    else if c == '\\' then "\\\\"
    else if c as int == 8 then "\\b"
    else if c == '\t' then "\\t"
    else if c == '\n' then "\\n"
    else if c as int == 12 then "\\f"
    else if c == '\r' then "\\r"
    else if c as int < 32 then "\\u00" + [hex[c as int / 16], hex[c as int % 16]]
    else [c]
  }

  function Utf8Length(s: string): nat {
    if s == [] then 0
    else
      var u := s[|s| - 1] as int;
      Utf8Length(s[..|s| - 1]) + (if u <= 0x7F then 1 else if u <= 0x7FF then 2 else if u <= 0xFFFF then 3 else 4)
  }

  lemma {:induction false} AsciiLength(s: string)
    requires forall i :: 0 <= i < |s| ==> s[i] as int < 128
    ensures Utf8Length(s) == |s|
  {
    if s != [] {
      AsciiLength(s[..|s| - 1]);
    }
  }

  /** The bytes counted for a character are those of its JSON text. */
  lemma JsonCharIs(c: char)
    ensures JsonCharBytes(c) == Utf8Length(Escaped(c))
  {
    if c as int < 128 {
      AsciiLength(Escaped(c));
    } else {
      assert Escaped(c) == [] + [c];
      assert [c][..0] == [];
    }
  }

  function JsonText(s: string): string {
    if s == [] then [] else Escaped(s[0]) + JsonText(s[1..])
  }

  lemma {:induction false} Utf8Concat(a: string, b: string)
    ensures Utf8Length(a + b) == Utf8Length(a) + Utf8Length(b)
  {
    if b == [] {
      assert a + b == a;
    } else {
      Utf8Concat(a, b[..|b| - 1]);
      assert (a + b)[..|a + b| - 1] == a + b[..|b| - 1];
    }
  }

  lemma {:induction false} JsonBytesIs(s: string)
    ensures JsonBytes(s) == Utf8Length(JsonText(s))
  {
    if s != [] {
      JsonBytesIs(s[1..]);
      JsonCharIs(s[0]);
      Utf8Concat(Escaped(s[0]), JsonText(s[1..]));
    }
  }

  /** A failure answer counts against the byte cap with the 59 bytes of
      {"status":"target_offline_ttl_expired","correlation_id":""} and those of the id in JSON. */
  lemma FailureBytes(correlation: string)
    ensures PayloadBytes(TtlFailure(correlation)) == 59 + Utf8Length(JsonText(correlation))
  {
    JsonBytesIs(correlation);
    FailureTextLength();
  }

  lemma FailureTextLength()
    ensures |FAILURE_TEXT| == 59
  {
  }
}

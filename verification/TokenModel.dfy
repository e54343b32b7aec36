/**
 * Member tokens: issuing, rotating and revoking, one step per SQL statement or clock read, any
 * number of calls interleaving. Instants are milliseconds; a token's expiry is in whole seconds.
 */
module TokenModel {
  import opened Util
  import J = Jwt

  const SEVEN_DAYS_MS := 7 * 24 * 60 * 60 * 1000

  datatype Holder = Holder(ws: string, member: string)

  /** A signed token, known by its jti. */
  datatype Minted = Minted(holder: Holder, at: nat) {
    function Exp(): int { J.Seconds(at) + J.SEVEN_DAYS_S }
  }

  /** A call of rotateMemberToken or issueMemberToken in progress. */
  datatype Task =
    /** The current jti has been read and is to be revoked. */
    | Revoking(holder: Holder, jti: string, readAt: nat)
    | Minting(holder: Holder)
    /** Signed, but not yet the member's current jti. */
    | Recording(holder: Holder, jti: string)

  /** current is the members table's current_jti column, revoked the revoked_tokens table. */
  datatype Tokens = Tokens(now: nat, current: map<Holder, Option<string>>, revoked: map<string, nat>,
                           issued: map<string, Minted>, tasks: map<nat, Task>)

  // ----- Statements -----

  /** INSERT ... ON CONFLICT (jti) DO NOTHING */
  function RevokeRow(revoked: map<string, nat>, jti: string, expires: nat): map<string, nat> {
    if jti in revoked then revoked else revoked[jti := expires]
  }

  /** DELETE ... WHERE expires_at <= now */
  function Unexpired(revoked: map<string, nat>, now: int): map<string, nat> {
    map jti | jti in revoked && revoked[jti] > now :: revoked[jti]
  }

  /** UPDATE members SET current_jti; no row, no effect. */
  function SetCurrent(current: map<Holder, Option<string>>, h: Holder, jti: string): map<Holder, Option<string>> {
    if h in current then current[h := Some(jti)] else current
  }

  // ----- Steps -----

  datatype Step =
    | Tick(to: nat)
    | Create(holder: Holder)
    | AskIssue(n: nat, holder: Holder)
    | AskRotate(n: nat, holder: Holder)      // getMember
    | Revoke(n: nat, stamp: nat)             // stamp: when the row's expiry was computed
    | Mint(n: nat, jti: string)
    | Record(n: nat)
    | Sweep

  predicate Enabled(s: Tokens, step: Step) {
    match step
    case Tick(to) => s.now <= to
    case Create(h) => h !in s.current
    case AskIssue(n, h) => n !in s.tasks
    case AskRotate(n, h) => n !in s.tasks
    case Revoke(n, stamp) => n in s.tasks && s.tasks[n].Revoking? && s.tasks[n].readAt <= stamp <= s.now
    case Mint(n, jti) => n in s.tasks && s.tasks[n].Minting? && jti !in s.issued && jti !in s.revoked
    case Record(n) => n in s.tasks && s.tasks[n].Recording?
    case Sweep => true
  }

  function Next(s: Tokens, step: Step): Tokens
    requires Enabled(s, step)
  {
    match step
    case Tick(to) => s.(now := to)
    case Create(h) => s.(current := s.current[h := None])
    case AskIssue(n, h) => s.(tasks := s.tasks[n := Minting(h)])
    case AskRotate(n, h) =>
      if h !in s.current then s
      else if s.current[h].None? then s.(tasks := s.tasks[n := Minting(h)])
      else s.(tasks := s.tasks[n := Revoking(h, s.current[h].value, s.now)])
    case Revoke(n, stamp) =>
      var t := s.tasks[n];
      s.(revoked := RevokeRow(s.revoked, t.jti, stamp + SEVEN_DAYS_MS), tasks := s.tasks[n := Minting(t.holder)])
    case Mint(n, jti) =>
      var t := s.tasks[n];
      s.(issued := s.issued[jti := Minted(t.holder, s.now)], tasks := s.tasks[n := Recording(t.holder, jti)])
    case Record(n) =>
      var t := s.tasks[n];
      s.(current := SetCurrent(s.current, t.holder, t.jti), tasks := s.tasks - {n})
    case Sweep => s.(revoked := Unexpired(s.revoked, s.now))
  }

  /** states[0] is s; each step is enabled and leads to the next state. */
  ghost predicate IsRun(s: Tokens, states: seq<Tokens>, steps: seq<Step>) {
    && |states| == |steps| + 1 && states[0] == s
    && forall i :: 0 <= i < |steps| ==> Enabled(states[i], steps[i]) && states[i + 1] == Next(states[i], steps[i])
  }

  function Init(now: nat): Tokens { Tokens(now, map[], map[], map[], map[]) }

  // ----- Who gets in -----

  /** The verdict of authorize() on an issued token presented for its own workspace. */
  predicate Accepts(s: Tokens, jti: string) {
    jti in s.issued && J.Seconds(s.now) <= s.issued[jti].Exp() && jti !in s.revoked
  }

  /** authorize() on the text of a bearer token. */
  function Authorize(codec: J.Codec, s: Tokens, text: string, path: string): Option<J.Claims> {
    match J.Verify(codec, text, s.now)
    case None => None
    case Some(c) => if c.ws != path || c.jti in s.revoked then None else Some(c)
  }

  /** What issueMemberToken hands out. */
  function TextOf(codec: J.Codec, h: Holder, jti: string, at: nat): string {
    J.Sign(codec, J.SignInput(h.ws, h.member, "doer", None), jti, at)
  }
}

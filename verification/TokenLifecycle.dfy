/** Rotated tokens stay dead, and exactly when they do; how many tokens a member can have. */
module TokenLifecycle {
  import opened Util
  import J = Jwt
  import opened TokenModel

  // ----- What every step keeps -----

  ghost predicate TaskOk(s: Tokens, t: Task) {
    match t
    case Revoking(h, jti, readAt) =>
      jti in s.issued && s.issued[jti].holder == h && s.issued[jti].at <= readAt <= s.now
    case Minting(_) => true
    case Recording(h, jti) => jti in s.issued && s.issued[jti].holder == h
  }

  ghost predicate Inv(s: Tokens) {
    && (forall jti <- s.issued :: s.issued[jti].at <= s.now)
    && (forall jti <- s.revoked :: jti in s.issued && s.revoked[jti] >= s.issued[jti].at + SEVEN_DAYS_MS)
    && (forall h <- s.current :: s.current[h].Some? ==>
          s.current[h].value in s.issued && s.issued[s.current[h].value].holder == h)
    && (forall n <- s.tasks :: TaskOk(s, s.tasks[n]))
  }

  lemma InvStep(s: Tokens, step: Step)
    requires Inv(s) && Enabled(s, step)
    ensures Inv(Next(s, step))
  {
  }

  lemma {:induction false} RunInv(s: Tokens, states: seq<Tokens>, steps: seq<Step>, k: nat)
    requires Inv(s) && IsRun(s, states, steps) && k <= |steps|
    ensures Inv(states[k])
  {
    if k > 0 {
      RunInv(s, states, steps, k - 1);
      InvStep(states[k - 1], steps[k - 1]);
    }
  }

  lemma SevenDays(ms: nat)
    ensures J.Seconds(ms + SEVEN_DAYS_MS) == J.Seconds(ms) + J.SEVEN_DAYS_S
  {
  }

  lemma SecondsMonotone(a: nat, b: nat)
    requires a <= b
    ensures J.Seconds(a) <= J.Seconds(b)
  {
  }

  // ----- Dead for good -----

  /** Past its expiry, or revoked by a row that outlives the expiry's last second. */
  predicate Dead(s: Tokens, jti: string) {
    jti in s.issued
    && (J.Seconds(s.now) > s.issued[jti].Exp()
        || (jti in s.revoked && J.Seconds(s.revoked[jti]) > s.issued[jti].Exp()))
  }

  /** Dead, or no longer accepted except perhaps in the last second of its life. */
  predicate Fading(s: Tokens, jti: string) {
    jti in s.issued
    && (J.Seconds(s.now) >= s.issued[jti].Exp()
        || (jti in s.revoked && J.Seconds(s.revoked[jti]) >= s.issued[jti].Exp()))
  }

  /** Sweeping and all the other steps leave the dead dead and the fading fading. */
  lemma GoneStep(s: Tokens, step: Step, jti: string)
    requires Enabled(s, step)
    ensures Dead(s, jti) ==> Dead(Next(s, step), jti)
    ensures Fading(s, jti) ==> Fading(Next(s, step), jti)
  {
    if jti in s.revoked && s.revoked[jti] <= s.now {
      SecondsMonotone(s.revoked[jti], s.now);
    }
    if step.Tick? {
      SecondsMonotone(s.now, step.to);
    }
  }

  lemma RunStep(s: Tokens, states: seq<Tokens>, steps: seq<Step>, i: nat)
    requires IsRun(s, states, steps) && i < |steps|
    ensures Enabled(states[i], steps[i]) && states[i + 1] == Next(states[i], steps[i])
  {
  }

  lemma {:induction false} GoneRun(s: Tokens, states: seq<Tokens>, steps: seq<Step>, jti: string, k: nat)
    requires IsRun(s, states, steps) && k <= |steps|
    ensures Dead(s, jti) ==> Dead(states[k], jti)
    ensures Fading(s, jti) ==> Fading(states[k], jti)
  {
    if k > 0 {
      GoneRun(s, states, steps, jti, k - 1);
      RunStep(s, states, steps, k - 1);
      GoneStep(states[k - 1], steps[k - 1], jti);
    }
  }

  /** No run from s ever accepts the token again. */
  ghost predicate RejectedForever(s: Tokens, jti: string) {
    forall states, steps :: IsRun(s, states, steps) ==> !Accepts(states[|steps|], jti)
  }

  /** A token not dead is accepted now, or would be after one sweep at a later instant. */
  lemma NotDeadReturns(s: Tokens, jti: string) returns (states: seq<Tokens>, steps: seq<Step>)
    requires jti in s.issued && !Dead(s, jti)
    ensures IsRun(s, states, steps) && Accepts(states[|steps|], jti)
  {
    if jti !in s.revoked {
      states, steps := [s], [];
    } else {
      var later := if s.now < s.revoked[jti] then s.revoked[jti] else s.now;
      var waited := Next(s, Tick(later));
      states, steps := [s, waited, Next(waited, Sweep)], [Tick(later), Sweep];
    }
  }

  /** The exact condition under which an issued token is rejected at every later time. */
  lemma RejectedForeverIff(s: Tokens, jti: string)
    requires jti in s.issued
    ensures RejectedForever(s, jti) <==> Dead(s, jti)
  {
    if Dead(s, jti) {
      forall states, steps | IsRun(s, states, steps) ensures !Accepts(states[|steps|], jti) {
        GoneRun(s, states, steps, jti, |steps|);
      }
    } else {
      var states, steps := NotDeadReturns(s, jti);
    }
  }

  /** A rotation that writes the token's revocation row kills it for good exactly when the row is
      stamped in a later whole second than the token's (or the token has expired anyway). */
  lemma RotatedOutIff(s: Tokens, n: nat, stamp: nat)
    requires Inv(s) && Enabled(s, Revoke(n, stamp)) && s.tasks[n].jti !in s.revoked
    ensures var jti := s.tasks[n].jti;
            RejectedForever(Next(s, Revoke(n, stamp)), jti)
            <==> J.Seconds(stamp) > J.Seconds(s.issued[jti].at) || J.Seconds(s.now) > s.issued[jti].Exp()
  {
    SevenDays(stamp);
    RejectedForeverIff(Next(s, Revoke(n, stamp)), s.tasks[n].jti);
  }

  lemma RevokedIsFading(s: Tokens, jti: string)
    requires Inv(s) && jti in s.revoked
    ensures Fading(s, jti)
  {
    SevenDays(s.issued[jti].at);
    SecondsMonotone(s.issued[jti].at + SEVEN_DAYS_MS, s.revoked[jti]);
  }

  /** In every run, interleaved in any way, a token once revoked is accepted again at most in the
      last second of its life. */
  lemma RevokedAcceptedOnlyInLastSecond(t: nat, states: seq<Tokens>, steps: seq<Step>, i: nat, k: nat, jti: string)
    requires IsRun(Init(t), states, steps) && i <= k <= |steps|
    requires jti in states[i].revoked && Accepts(states[k], jti)
    ensures J.Seconds(states[k].now) == states[k].issued[jti].Exp()
  {
    RunInv(Init(t), states, steps, i);
    RevokedIsFading(states[i], jti);
    var rest, after := states[i..], steps[i..];
    forall j | 0 <= j < |after| ensures Enabled(rest[j], after[j]) && rest[j + 1] == Next(rest[j], after[j]) {
      assert rest[j] == states[i + j] && after[j] == steps[i + j] && rest[j + 1] == states[i + j + 1];
    }
    GoneRun(states[i], rest, after, jti, k - i);
  }

  // ----- One call at a time -----

  predicate Busy(s: Tokens, h: Holder) { exists n <- s.tasks :: s.tasks[n].holder == h }

  /** The calls for one member follow each other: a first issuance, then rotations. With strict,
      each rotation also comes in a later whole second than the issuance it undoes. */
  predicate Orderly(s: Tokens, step: Step, strict: bool) {
    match step
    case AskIssue(_, h) => h in s.current && s.current[h].None? && !Busy(s, h)
    case AskRotate(_, h) => !Busy(s, h)
    case Revoke(n, stamp) =>
      strict && n in s.tasks && s.tasks[n].Revoking? && s.tasks[n].jti in s.issued ==>
        J.Seconds(stamp) > J.Seconds(s.issued[s.tasks[n].jti].at)
    case _ => true
  }

  predicate Gone(s: Tokens, jti: string, strict: bool) {
    if strict then Dead(s, jti) else Fading(s, jti)
  }

  /** Every token of h but the kept one is gone, and that one is not revoked. */
  ghost predicate OnlyKept(s: Tokens, h: Holder, kept: Option<string>, strict: bool) {
    && (kept.Some? ==> kept.value !in s.revoked)
    && forall jti <- s.issued :: s.issued[jti].holder == h && kept != Some(jti) ==> Gone(s, jti, strict)
  }

  function CurrentOf(s: Tokens, h: Holder): Option<string> {
    if h in s.current then s.current[h] else None
  }

  /** The one token of h that may still be good. */
  function KeptBy(t: Task): Option<string> {
    if t.Minting? then None else Some(t.jti)
  }

  ghost predicate SerialTask(s: Tokens, t: Task, strict: bool) {
    && t.holder in s.current
    && (t.Revoking? ==> s.current[t.holder] == Some(t.jti))
    && OnlyKept(s, t.holder, KeptBy(t), strict)
  }

  ghost predicate SerialInv(s: Tokens, strict: bool) {
    && Inv(s)
    && (forall n <- s.tasks, m <- s.tasks :: s.tasks[n].holder == s.tasks[m].holder ==> n == m)
    && (forall n <- s.tasks :: SerialTask(s, s.tasks[n], strict))
    && (forall h :: !Busy(s, h) ==> OnlyKept(s, h, CurrentOf(s, h), strict))
  }

  /** What a step of another member's call leaves alone. */
  lemma OthersKept(s: Tokens, step: Step, h: Holder, kept: Option<string>, strict: bool)
    requires Inv(s) && Enabled(s, step) && OnlyKept(s, h, kept, strict)
    requires kept.Some? ==> kept.value in s.issued && s.issued[kept.value].holder == h
    requires step.Revoke? || step.Mint? ==> s.tasks[step.n].holder != h
    ensures OnlyKept(Next(s, step), h, kept, strict)
  {
    var u := Next(s, step);
    forall jti | jti in u.issued && u.issued[jti].holder == h && kept != Some(jti) ensures Gone(u, jti, strict) {
      GoneStep(s, step, jti);
    }
  }

  lemma RevokeKeeps(s: Tokens, step: Step, strict: bool)
    requires SerialInv(s, strict) && Enabled(s, step) && Orderly(s, step, strict) && step.Revoke?
    ensures OnlyKept(Next(s, step), s.tasks[step.n].holder, None, strict)
  {
    var u, t := Next(s, step), s.tasks[step.n];
    assert SerialTask(s, t, strict) && TaskOk(s, t);
    SevenDays(step.stamp);
    SecondsMonotone(s.issued[t.jti].at, step.stamp);
    forall jti | jti in u.issued && u.issued[jti].holder == t.holder ensures Gone(u, jti, strict) {
      GoneStep(s, step, jti);
    }
  }

  lemma MintKeeps(s: Tokens, step: Step, strict: bool)
    requires SerialInv(s, strict) && Enabled(s, step) && step.Mint?
    ensures OnlyKept(Next(s, step), s.tasks[step.n].holder, Some(step.jti), strict)
  {
    var u, t := Next(s, step), s.tasks[step.n];
    assert SerialTask(s, t, strict);
    forall jti | jti in u.issued && u.issued[jti].holder == t.holder && jti != step.jti ensures Gone(u, jti, strict) {
      GoneStep(s, step, jti);
    }
  }

  /** A call just begun: the member was idle. */
  lemma NewTaskKeeps(s: Tokens, step: Step, strict: bool)
    requires SerialInv(s, strict) && Enabled(s, step) && Orderly(s, step, strict) && (step.AskIssue? || step.AskRotate?)
    requires step.n in Next(s, step).tasks
    ensures SerialTask(Next(s, step), Next(s, step).tasks[step.n], strict)
  {
    var h := step.holder;
    assert OnlyKept(s, h, CurrentOf(s, h), strict);
    OthersKept(s, step, h, CurrentOf(s, h), strict);
  }

  /** A call that another step leaves where it is. */
  lemma OldTaskKeeps(s: Tokens, step: Step, n: nat, strict: bool)
    requires SerialInv(s, strict) && Enabled(s, step)
    requires n in s.tasks && n in Next(s, step).tasks && s.tasks[n] == Next(s, step).tasks[n]
    requires step.Revoke? || step.Mint? ==> step.n != n
    ensures SerialTask(Next(s, step), s.tasks[n], strict)
  {
    var t := s.tasks[n];
    assert SerialTask(s, t, strict) && TaskOk(s, t);
    OthersKept(s, step, t.holder, KeptBy(t), strict);
  }

  /** The invariant's clause about one task. */
  lemma SerialTaskStep(s: Tokens, step: Step, n: nat, strict: bool)
    requires SerialInv(s, strict) && Enabled(s, step) && Orderly(s, step, strict)
    requires n in Next(s, step).tasks
    ensures SerialTask(Next(s, step), Next(s, step).tasks[n], strict)
  {
    if step.Revoke? && step.n == n {
      RevokeKeeps(s, step, strict);
      assert SerialTask(s, s.tasks[n], strict);
    } else if step.Mint? && step.n == n {
      MintKeeps(s, step, strict);
      assert SerialTask(s, s.tasks[n], strict);
    } else if n in s.tasks {
      OldTaskKeeps(s, step, n, strict);
    } else {
      NewTaskKeeps(s, step, strict);
    }
  }

  lemma RecordKeeps(s: Tokens, step: Step, h: Holder, strict: bool)
    requires SerialInv(s, strict) && Enabled(s, step) && Busy(s, h) && !Busy(Next(s, step), h)
    ensures OnlyKept(Next(s, step), h, CurrentOf(Next(s, step), h), strict)
  {
    var n :| n in s.tasks && s.tasks[n].holder == h;
    var t := s.tasks[n];
    StillBusy(s, step, n);
    assert SerialTask(s, t, strict) && TaskOk(s, t);
    OthersKept(s, step, h, Some(t.jti), strict);
  }

  /** Only recording the new token ends a call. */
  lemma StillBusy(s: Tokens, step: Step, n: nat)
    requires Enabled(s, step) && n in s.tasks
    ensures step == Record(n) || (n in Next(s, step).tasks && Next(s, step).tasks[n].holder == s.tasks[n].holder)
  {
  }

  /** The invariant's clause about a member with no call in progress. */
  lemma SerialIdleStep(s: Tokens, step: Step, h: Holder, strict: bool)
    requires SerialInv(s, strict) && Enabled(s, step) && Orderly(s, step, strict)
    requires !Busy(Next(s, step), h)
    ensures OnlyKept(Next(s, step), h, CurrentOf(Next(s, step), h), strict)
  {
    var u := Next(s, step);
    if Busy(s, h) {
      RecordKeeps(s, step, h, strict);
    } else {
      assert OnlyKept(s, h, CurrentOf(s, h), strict);
      OthersKept(s, step, h, CurrentOf(s, h), strict);
    }
  }

  lemma OneTaskEach(s: Tokens, step: Step, n: nat, m: nat, strict: bool)
    requires SerialInv(s, strict) && Enabled(s, step) && Orderly(s, step, strict)
    requires var u := Next(s, step); n in u.tasks && m in u.tasks && u.tasks[n].holder == u.tasks[m].holder
    ensures n == m
  {
  }

  lemma SerialStep(s: Tokens, step: Step, strict: bool)
    requires SerialInv(s, strict) && Enabled(s, step) && Orderly(s, step, strict)
    ensures SerialInv(Next(s, step), strict)
  {
    var u := Next(s, step);
    InvStep(s, step);
    forall n | n in u.tasks ensures SerialTask(u, u.tasks[n], strict) { SerialTaskStep(s, step, n, strict); }
    forall h | !Busy(u, h) ensures OnlyKept(u, h, CurrentOf(u, h), strict) { SerialIdleStep(s, step, h, strict); }
    forall n, m | n in u.tasks && m in u.tasks && u.tasks[n].holder == u.tasks[m].holder ensures n == m {
      OneTaskEach(s, step, n, m, strict);
    }
  }

  ghost predicate OrderlyRun(states: seq<Tokens>, steps: seq<Step>, strict: bool)
    requires |states| == |steps| + 1
  {
    forall i :: 0 <= i < |steps| ==> Orderly(states[i], steps[i], strict)
  }

  lemma {:induction false} SerialRun(t: nat, states: seq<Tokens>, steps: seq<Step>, strict: bool, k: nat)
    requires IsRun(Init(t), states, steps) && OrderlyRun(states, steps, strict) && k <= |steps|
    ensures SerialInv(states[k], strict)
  {
    if k > 0 {
      SerialRun(t, states, steps, strict, k - 1);
      SerialStep(states[k - 1], steps[k - 1], strict);
    }
  }

  lemma NotGoneIsKept(s: Tokens, jti: string, strict: bool)
    requires SerialInv(s, strict) && jti in s.issued && !Gone(s, jti, strict)
    ensures var h := s.issued[jti].holder;
            || (!Busy(s, h) && CurrentOf(s, h) == Some(jti))
            || exists n <- s.tasks :: s.tasks[n].holder == h && KeptBy(s.tasks[n]) == Some(jti)
  {
    var h := s.issued[jti].holder;
    if Busy(s, h) {
      var n :| n in s.tasks && s.tasks[n].holder == h;
      assert SerialTask(s, s.tasks[n], strict);
    } else {
      assert OnlyKept(s, h, CurrentOf(s, h), strict);
    }
  }

  lemma OneNotGone(s: Tokens, a: string, b: string, strict: bool)
    requires SerialInv(s, strict) && a in s.issued && b in s.issued && s.issued[a].holder == s.issued[b].holder
    requires !Gone(s, a, strict) && !Gone(s, b, strict)
    ensures a == b
  {
    NotGoneIsKept(s, a, strict);
    NotGoneIsKept(s, b, strict);
  }

  /** With calls one at a time and rotations in later seconds, a member never has two accepted tokens. */
  lemma AtMostOneAccepted(t: nat, states: seq<Tokens>, steps: seq<Step>, k: nat, a: string, b: string)
    requires IsRun(Init(t), states, steps) && OrderlyRun(states, steps, true) && k <= |steps|
    requires Accepts(states[k], a) && Accepts(states[k], b)
    requires states[k].issued[a].holder == states[k].issued[b].holder
    ensures a == b
  {
    SerialRun(t, states, steps, true, k);
    OneNotGone(states[k], a, b, true);
  }

  /** Without the condition on seconds, two accepted tokens mean that one is in its last second. */
  lemma TwoAcceptedOnlyInLastSecond(t: nat, states: seq<Tokens>, steps: seq<Step>, k: nat, a: string, b: string)
    requires IsRun(Init(t), states, steps) && OrderlyRun(states, steps, false) && k <= |steps|
    requires Accepts(states[k], a) && Accepts(states[k], b) && a != b
    requires states[k].issued[a].holder == states[k].issued[b].holder
    ensures exists jti <- {a, b} :: J.Seconds(states[k].now) == states[k].issued[jti].Exp()
  {
    SerialRun(t, states, steps, false, k);
    if Gone(states[k], a, false) {
      assert J.Seconds(states[k].now) == states[k].issued[a].Exp();
    } else if Gone(states[k], b, false) {
      assert J.Seconds(states[k].now) == states[k].issued[b].Exp();
    } else {
      OneNotGone(states[k], a, b, false);
    }
  }

  // ----- Where it fails -----

  /** A run leads from s to u; with serial, one of calls that follow each other. */
  ghost predicate LeadsTo(s: Tokens, u: Tokens, serial: bool) {
    exists states, steps :: IsRun(s, states, steps) && states[|steps|] == u
        && (serial ==> OrderlyRun(states, steps, false))
  }

  lemma LeadsToItself(s: Tokens)
    ensures LeadsTo(s, s, true) && LeadsTo(s, s, false)
  {
    assert IsRun(s, [s], []) && OrderlyRun([s], [], false);
  }

  lemma Onward(s: Tokens, u: Tokens, step: Step, serial: bool) returns (next: Tokens)
    requires LeadsTo(s, u, serial) && Enabled(u, step) && (serial ==> Orderly(u, step, false))
    ensures LeadsTo(s, next, serial) && next == Next(u, step)
  {
    var states, steps :| IsRun(s, states, steps) && states[|steps|] == u
        && (serial ==> OrderlyRun(states, steps, false));
    next := Next(u, step);
    var more, all := states + [next], steps + [step];
    forall i | 0 <= i < |all|
      ensures Enabled(more[i], all[i]) && more[i + 1] == Next(more[i], all[i])
              && (serial ==> Orderly(more[i], all[i], false))
    {
      if i < |steps| {
        assert more[i] == states[i] && all[i] == steps[i] && more[i + 1] == states[i + 1];
      }
    }
    assert IsRun(s, more, all) && more[|all|] == next;
  }

  /** The tables after a whole uninterrupted rotation of a member whose current token is before. */
  function Rotated(s: Tokens, h: Holder, before: string, jti: string, mintAt: nat): Tokens {
    Tokens(mintAt, SetCurrent(s.current, h, jti), RevokeRow(s.revoked, before, s.now + SEVEN_DAYS_MS),
           s.issued[jti := Minted(h, mintAt)], s.tasks)
  }

  /** The tables after a whole issuance. */
  function Issued(s: Tokens, h: Holder, jti: string, mintAt: nat): Tokens {
    Tokens(mintAt, SetCurrent(s.current, h, jti), s.revoked, s.issued[jti := Minted(h, mintAt)], s.tasks)
  }

  /** From a call that is to mint: a tick, signing and recording. */
  lemma FinishIssuance(s: Tokens, u: Tokens, n: nat, jti: string, mintAt: nat, serial: bool) returns (next: Tokens)
    requires LeadsTo(s, u, serial) && n in u.tasks && u.tasks[n].Minting? && u.now <= mintAt
    requires jti !in u.issued && jti !in u.revoked
    ensures LeadsTo(s, next, serial)
    ensures next == Issued(u, u.tasks[n].holder, jti, mintAt).(tasks := u.tasks - {n})
  {
    var t1 := Onward(s, u, Tick(mintAt), serial);
    var t2 := Onward(s, t1, Mint(n, jti), serial);
    next := Onward(s, t2, Record(n), serial);
    assert u.tasks[n := t2.tasks[n]] - {n} == u.tasks - {n};
  }

  /** From a call that has read the old jti: the row, then the new token. */
  lemma FinishRotation(s: Tokens, u: Tokens, n: nat, jti: string, mintAt: nat, serial: bool) returns (next: Tokens)
    requires LeadsTo(s, u, serial) && n in u.tasks && u.tasks[n].Revoking? && u.tasks[n].readAt <= u.now <= mintAt
    requires jti !in u.issued && jti !in u.revoked && jti != u.tasks[n].jti
    ensures LeadsTo(s, next, serial)
    ensures next == Rotated(u, u.tasks[n].holder, u.tasks[n].jti, jti, mintAt).(tasks := u.tasks - {n})
  {
    var t := Onward(s, u, Revoke(n, u.now), serial);
    next := FinishIssuance(s, t, n, jti, mintAt, serial);
    assert u.tasks[n := t.tasks[n]] - {n} == u.tasks - {n};
  }

  /** A rotation nothing interrupts is a run. */
  lemma RotationIsRun(s: Tokens, u: Tokens, n: nat, h: Holder, jti: string, mintAt: nat, serial: bool)
    returns (next: Tokens)
    requires LeadsTo(s, u, serial) && n !in u.tasks && h in u.current && u.current[h].Some? && u.now <= mintAt
    requires jti !in u.issued && jti !in u.revoked && jti != u.current[h].value
    requires serial ==> !Busy(u, h)
    ensures LeadsTo(s, next, serial) && next == Rotated(u, h, u.current[h].value, jti, mintAt)
  {
    var t := Onward(s, u, AskRotate(n, h), serial);
    next := FinishRotation(s, t, n, jti, mintAt, serial);
    assert t.tasks - {n} == u.tasks;
  }

  /** So is a first issuance, or any other if the calls need not follow each other. */
  lemma IssuanceIsRun(s: Tokens, u: Tokens, n: nat, h: Holder, jti: string, mintAt: nat, serial: bool)
    returns (next: Tokens)
    requires LeadsTo(s, u, serial) && n !in u.tasks && u.now <= mintAt
    requires jti !in u.issued && jti !in u.revoked
    requires serial ==> h in u.current && u.current[h].None? && !Busy(u, h)
    ensures LeadsTo(s, next, serial) && next == Issued(u, h, jti, mintAt)
  {
    var t := Onward(s, u, AskIssue(n, h), serial);
    next := FinishIssuance(s, t, n, jti, mintAt, serial);
    assert t.tasks - {n} == u.tasks;
  }

  const MEMBER := Holder("w", "m")

  /** A member with one token, issued at instant zero. */
  lemma Enrolled(serial: bool) returns (u: Tokens)
    ensures LeadsTo(Init(0), u, serial)
    ensures u == Tokens(0, map[MEMBER := Some("a")], map[], map["a" := Minted(MEMBER, 0)], map[])
  {
    LeadsToItself(Init(0));
    var t := Onward(Init(0), Init(0), Create(MEMBER), serial);
    u := IssuanceIsRun(Init(0), t, 0, MEMBER, "a", 0, serial);
  }

  /** Rotated in the second it was issued in, refused for a week, and accepted again once the
      sweep has dropped its row, beside the token that replaced it. */
  lemma SameSecondRotationRevives() returns (rotated: Tokens, swept: Tokens)
    ensures LeadsTo(Init(0), rotated, true) && LeadsTo(Init(0), swept, true)
    ensures CurrentOf(rotated, MEMBER) == Some("b") && !Accepts(rotated, "a") && rotated.tasks == map[]
    ensures CurrentOf(swept, MEMBER) == Some("b") && Accepts(swept, "a") && Accepts(swept, "b")
  {
    var u := Enrolled(true);
    rotated := RotationIsRun(Init(0), u, 1, MEMBER, "b", 0, true);
    var t := Onward(Init(0), rotated, Tick(SEVEN_DAYS_MS), true);
    swept := Onward(Init(0), t, Sweep, true);
  }

  /** Two rotations that both read the old jti leave two accepted tokens, although they come in a
      later second than its issuance and it is dead for good, and no call in progress that would
      revoke either. */
  lemma ConcurrentRotationsLeaveTwo() returns (u: Tokens)
    ensures LeadsTo(Init(0), u, false)
    ensures Accepts(u, "b") && Accepts(u, "c") && u.issued["b"].holder == u.issued["c"].holder == MEMBER
    ensures u.tasks == map[] && CurrentOf(u, MEMBER) == Some("c")
    ensures Dead(u, "a") && J.Seconds(u.now) > J.Seconds(u.issued["a"].at)
  {
    var t := BothHaveRead();
    var first := FinishRotation(Init(0), t, 1, "b", 5000, false);
    assert first.tasks == map[2 := Revoking(MEMBER, "a", 5000)];
    u := FinishRotation(Init(0), first, 2, "c", 5000, false);
  }

  lemma BothHaveRead() returns (u: Tokens)
    ensures LeadsTo(Init(0), u, false)
    ensures u == Tokens(5000, map[MEMBER := Some("a")], map[], map["a" := Minted(MEMBER, 0)],
                        map[1 := Revoking(MEMBER, "a", 5000), 2 := Revoking(MEMBER, "a", 5000)])
  {
    u := Enrolled(false);
    u := Onward(Init(0), u, Tick(5000), false);
    u := Onward(Init(0), u, AskRotate(1, MEMBER), false);
    u := Onward(Init(0), u, AskRotate(2, MEMBER), false);
  }

  // ----- The text of a token -----

  /** Presented as text, an issued token is authorized exactly when its workspace is asked for and
      its state accepts it, and then with its own claims. */
  lemma AuthorizedIffAccepted(codec: J.Codec, s: Tokens, jti: string, path: string)
    requires J.RoundTrips(codec) && jti in s.issued
    ensures var m := s.issued[jti];
            Authorize(codec, s, TextOf(codec, m.holder, jti, m.at), path)
            == if Accepts(s, jti) && path == m.holder.ws
               then Some(J.Claims("hub", m.holder.ws, m.holder.member, m.Exp(), "doer", jti)) else None
  {
    var m := s.issued[jti];
    var p := J.SignInput(m.holder.ws, m.holder.member, "doer", None);
    J.SignedVerifiesUntilExpiry(codec, p, jti, m.at, s.now);
    AuthorizedClaims(codec, s, TextOf(codec, m.holder, jti, m.at), path);
    assert J.ClaimsOf(p, jti, m.at) == J.Claims("hub", m.holder.ws, m.holder.member, m.Exp(), "doer", jti);
  }

  lemma AuthorizedClaims(codec: J.Codec, s: Tokens, text: string, path: string)
    ensures Authorize(codec, s, text, path)
            == var c := J.Verify(codec, text, s.now);
               if c.Some? && c.value.ws == path && c.value.jti !in s.revoked then c else None
  {
  }
}

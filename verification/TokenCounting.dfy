/**
 * How many tokens a member has, in every interleaving of issuances, rotations and sweeps: those
 * that no rotation has ever read as the member's current one.
 */
module TokenCounting {
  import opened Util
  import J = Jwt
  import opened TokenModel
  import opened TokenLifecycle

  // ----- What rotations have read -----

  /** Step i is a rotation's look-up of its member, and finds this jti current. */
  ghost predicate ReadAt(states: seq<Tokens>, steps: seq<Step>, i: nat, jti: string) {
    && i < |steps| && i < |states| && steps[i].AskRotate?
    && steps[i].holder in states[i].current && states[i].current[steps[i].holder] == Some(jti)
  }

  ghost predicate ReadBy(states: seq<Tokens>, steps: seq<Step>, k: nat, jti: string) {
    exists i: nat :: i < k && ReadAt(states, steps, i, jti)
  }

  lemma ReadNext(states: seq<Tokens>, steps: seq<Step>, k: nat, jti: string)
    ensures ReadBy(states, steps, k + 1, jti) <==> ReadBy(states, steps, k, jti) || ReadAt(states, steps, k, jti)
  {
    if i: nat :| i < k && ReadAt(states, steps, i, jti) {
      assert i < k + 1;
    }
    if ReadAt(states, steps, k, jti) {
      assert k < k + 1;
    }
  }

  /** A rotation that has read the token and is about to revoke it. */
  ghost predicate Pending(s: Tokens, jti: string) {
    exists n <- s.tasks :: s.tasks[n].Revoking? && s.tasks[n].jti == jti
  }

  // ----- Read means revoked, or about to be -----

  /** With strict, a rotation stamps its row in a later whole second than the token's issuance. */
  predicate Timely(s: Tokens, step: Step, strict: bool) {
    strict && step.Revoke? && step.n in s.tasks && s.tasks[step.n].Revoking? && s.tasks[step.n].jti in s.issued ==>
      J.Seconds(step.stamp) > J.Seconds(s.issued[s.tasks[step.n].jti].at)
  }

  ghost predicate TimelyRun(states: seq<Tokens>, steps: seq<Step>, strict: bool)
    requires |states| == |steps| + 1
  {
    forall i :: 0 <= i < |steps| ==> Timely(states[i], steps[i], strict)
  }

  /** Only what was read is revoked or about to be; what was read is about to be, or gone. */
  ghost predicate Accounts(states: seq<Tokens>, steps: seq<Step>, k: nat, s: Tokens, strict: bool) {
    && Inv(s)
    && (strict ==> forall jti <- s.revoked :: Dead(s, jti))
    && (forall jti <- s.revoked :: ReadBy(states, steps, k, jti))
    && (forall n <- s.tasks :: s.tasks[n].Revoking? ==> ReadBy(states, steps, k, s.tasks[n].jti))
    && (forall jti :: ReadBy(states, steps, k, jti) ==> jti in s.issued && (Pending(s, jti) || Gone(s, jti, strict)))
  }

  lemma RowIsDead(s: Tokens, step: Step, jti: string)
    requires Inv(s) && Enabled(s, step) && Timely(s, step, true) && jti in Next(s, step).revoked
    requires forall j <- s.revoked :: Dead(s, j)
    ensures Dead(Next(s, step), jti)
  {
    if jti in s.revoked {
      GoneStep(s, step, jti);
    } else {
      assert TaskOk(s, s.tasks[step.n]);
      SevenDays(step.stamp);
    }
  }

  lemma PendingKept(s: Tokens, step: Step, jti: string, strict: bool)
    requires Inv(s) && Enabled(s, step) && Pending(s, jti) && Timely(s, step, strict)
    requires strict ==> forall j <- s.revoked :: Dead(s, j)
    ensures Pending(Next(s, step), jti) || Gone(Next(s, step), jti, strict)
  {
    var n :| n in s.tasks && s.tasks[n].Revoking? && s.tasks[n].jti == jti;
    var u := Next(s, step);
    InvStep(s, step);
    if step.Revoke? && step.n == n {
      RevokedIsFading(u, jti);
      if strict {
        RowIsDead(s, step, jti);
      }
    } else {
      assert n in u.tasks && u.tasks[n] == s.tasks[n];
    }
  }

  /** A look-up that finds a current jti begins a revocation of it. */
  lemma ReadBegins(states: seq<Tokens>, steps: seq<Step>, k: nat, jti: string)
    requires ReadAt(states, steps, k, jti) && Enabled(states[k], steps[k]) && Inv(states[k])
    ensures var u := Next(states[k], steps[k]);
            && Pending(u, jti) && jti in u.issued && Busy(u, steps[k].holder)
            && forall n <- u.tasks :: n !in states[k].tasks ==> u.tasks[n].Revoking? && u.tasks[n].jti == jti
  {
    var n := steps[k].n;
    assert n in Next(states[k], steps[k]).tasks;
  }

  lemma AccountsStep(states: seq<Tokens>, steps: seq<Step>, k: nat, strict: bool)
    requires k < |steps| && |states| == |steps| + 1 && Accounts(states, steps, k, states[k], strict)
    requires Enabled(states[k], steps[k]) && states[k + 1] == Next(states[k], steps[k])
    requires Timely(states[k], steps[k], strict)
    ensures Accounts(states, steps, k + 1, states[k + 1], strict)
  {
    var s, u, step := states[k], states[k + 1], steps[k];
    InvStep(s, step);
    forall jti | ReadBy(states, steps, k + 1, jti)
      ensures jti in u.issued && (Pending(u, jti) || Gone(u, jti, strict))
    {
      ReadNext(states, steps, k, jti);
      if ReadAt(states, steps, k, jti) {
        ReadBegins(states, steps, k, jti);
      } else if Pending(s, jti) {
        PendingKept(s, step, jti, strict);
      } else {
        GoneStep(s, step, jti);
      }
    }
    forall jti | jti in u.revoked ensures ReadBy(states, steps, k + 1, jti) {
      ReadNext(states, steps, k, jti);
      RevokedFrom(s, step, jti);
    }
    forall jti | strict && jti in u.revoked ensures Dead(u, jti) { RowIsDead(s, step, jti); }
    forall n | n in u.tasks && u.tasks[n].Revoking? ensures ReadBy(states, steps, k + 1, u.tasks[n].jti) {
      ReadNext(states, steps, k, u.tasks[n].jti);
      RevokingFrom(states, steps, k, n);
    }
  }

  /** A row is there already, or is written by a rotation under way. */
  lemma RevokedFrom(s: Tokens, step: Step, jti: string)
    requires Enabled(s, step) && jti in Next(s, step).revoked
    ensures jti in s.revoked || exists n <- s.tasks :: s.tasks[n].Revoking? && s.tasks[n].jti == jti
  {
  }

  lemma RevokingFrom(states: seq<Tokens>, steps: seq<Step>, k: nat, n: nat)
    requires k < |steps| && |states| == |steps| + 1 && Enabled(states[k], steps[k])
    requires var u := Next(states[k], steps[k]); n in u.tasks && u.tasks[n].Revoking?
    ensures var t := Next(states[k], steps[k]).tasks[n];
            (n in states[k].tasks && states[k].tasks[n] == t) || ReadAt(states, steps, k, t.jti)
  {
  }

  lemma {:induction false} AccountsRun(t: nat, states: seq<Tokens>, steps: seq<Step>, k: nat, strict: bool)
    requires IsRun(Init(t), states, steps) && TimelyRun(states, steps, strict) && k <= |steps|
    ensures Accounts(states, steps, k, states[k], strict)
  {
    if k > 0 {
      AccountsRun(t, states, steps, k - 1, strict);
      RunStep(Init(t), states, steps, k - 1);
      AccountsStep(states, steps, k - 1, strict);
    }
  }

  /** Issued and not expired; unless strict, not in the last second of its life either. */
  predicate Young(s: Tokens, jti: string, strict: bool) {
    jti in s.issued
    && (if strict then J.Seconds(s.now) <= s.issued[jti].Exp() else J.Seconds(s.now) < s.issued[jti].Exp())
  }

  /**
   * In every interleaving, while no call for its member is under way: a token is accepted exactly
   * if no rotation has ever read it. This holds of every unexpired token if rotations come in later
   * seconds than the issuances they undo, and otherwise of every token before its last second.
   */
  lemma AcceptedIffUnread(t: nat, states: seq<Tokens>, steps: seq<Step>, k: nat, jti: string, strict: bool)
    requires IsRun(Init(t), states, steps) && TimelyRun(states, steps, strict) && k <= |steps|
    requires Young(states[k], jti, strict) && !Busy(states[k], states[k].issued[jti].holder)
    ensures Accepts(states[k], jti) <==> !ReadBy(states, steps, k, jti)
  {
    AccountsRun(t, states, steps, k, strict);
    PendingIsBusy(states[k], jti);
  }

  lemma PendingIsBusy(s: Tokens, jti: string)
    requires Inv(s) && jti in s.issued
    ensures Pending(s, jti) ==> Busy(s, s.issued[jti].holder)
  {
    if Pending(s, jti) {
      var n :| n in s.tasks && s.tasks[n].Revoking? && s.tasks[n].jti == jti;
      assert TaskOk(s, s.tasks[n]);
    }
  }

  // ----- The current token -----

  /** A token to be recorded has never been current, so never been read; and while the current
      token has been read, the call that read it is under way. */
  ghost predicate CurrentBook(states: seq<Tokens>, steps: seq<Step>, k: nat, s: Tokens) {
    && (forall n <- s.tasks :: s.tasks[n].Recording? ==> Unseen(states, steps, k, s, s.tasks[n].jti))
    && (forall n <- s.tasks, m <- s.tasks ::
          s.tasks[n].Recording? && s.tasks[m].Recording? && s.tasks[n].jti == s.tasks[m].jti ==> n == m)
    && (forall h <- s.current :: s.current[h].Some? && ReadBy(states, steps, k, s.current[h].value) ==> Busy(s, h))
  }

  ghost predicate Unseen(states: seq<Tokens>, steps: seq<Step>, k: nat, s: Tokens, jti: string) {
    !ReadBy(states, steps, k, jti) && forall h <- s.current :: s.current[h] != Some(jti)
  }

  lemma UnseenStep(states: seq<Tokens>, steps: seq<Step>, k: nat, n: nat)
    requires k < |steps| && |states| == |steps| + 1 && Enabled(states[k], steps[k])
    requires Accounts(states, steps, k, states[k], false) && CurrentBook(states, steps, k, states[k])
    requires states[k + 1] == Next(states[k], steps[k]) && n in states[k + 1].tasks && states[k + 1].tasks[n].Recording?
    ensures Unseen(states, steps, k + 1, states[k + 1], states[k + 1].tasks[n].jti)
  {
    var s, u, step := states[k], states[k + 1], steps[k];
    var jti := u.tasks[n].jti;
    ReadNext(states, steps, k, jti);
    if step.Mint? && step.n == n {
      assert jti !in s.issued;
      forall h | h in s.current ensures s.current[h] != Some(jti) { }
    } else {
      assert n in s.tasks && s.tasks[n] == u.tasks[n];
      assert Unseen(states, steps, k, s, jti);
    }
  }

  lemma OneRecorder(states: seq<Tokens>, steps: seq<Step>, k: nat, n: nat, m: nat)
    requires k < |steps| && |states| == |steps| + 1 && Enabled(states[k], steps[k])
    requires Accounts(states, steps, k, states[k], false) && CurrentBook(states, steps, k, states[k])
    requires var u := Next(states[k], steps[k]);
             && n in u.tasks && u.tasks[n].Recording? && m in u.tasks && u.tasks[m].Recording?
             && u.tasks[n].jti == u.tasks[m].jti
    ensures n == m
  {
    RecordingIssued(states[k], n);
    RecordingIssued(states[k], m);
  }

  lemma RecordingIssued(s: Tokens, n: nat)
    requires Inv(s)
    ensures n in s.tasks && s.tasks[n].Recording? ==> s.tasks[n].jti in s.issued
  {
    if n in s.tasks {
      assert TaskOk(s, s.tasks[n]);
    }
  }

  lemma StillReading(states: seq<Tokens>, steps: seq<Step>, k: nat, h: Holder)
    requires k < |steps| && |states| == |steps| + 1 && Enabled(states[k], steps[k])
    requires Accounts(states, steps, k, states[k], false) && CurrentBook(states, steps, k, states[k])
    requires states[k + 1] == Next(states[k], steps[k])
    requires h in states[k + 1].current && states[k + 1].current[h].Some?
    requires ReadBy(states, steps, k + 1, states[k + 1].current[h].value)
    ensures Busy(states[k + 1], h)
  {
    var s, u, step := states[k], states[k + 1], steps[k];
    var jti := u.current[h].value;
    if step.Record? {
      assert Unseen(states, steps, k, s, s.tasks[step.n].jti);
    }
    ReadNext(states, steps, k, jti);
    if ReadAt(states, steps, k, jti) {
      ReadBegins(states, steps, k, jti);
      assert s.issued[jti].holder == h && s.issued[jti].holder == step.holder;
    } else if h in s.current && s.current[h] == u.current[h] {
      var n :| n in s.tasks && s.tasks[n].holder == h;
      StillBusy(s, step, n);
      assert n in u.tasks && u.tasks[n].holder == h;
    }
  }

  lemma CurrentBookStep(states: seq<Tokens>, steps: seq<Step>, k: nat)
    requires k < |steps| && |states| == |steps| + 1 && Enabled(states[k], steps[k])
    requires Accounts(states, steps, k, states[k], false) && CurrentBook(states, steps, k, states[k])
    requires states[k + 1] == Next(states[k], steps[k])
    ensures CurrentBook(states, steps, k + 1, states[k + 1])
  {
    var u := states[k + 1];
    forall n | n in u.tasks && u.tasks[n].Recording? ensures Unseen(states, steps, k + 1, u, u.tasks[n].jti) {
      UnseenStep(states, steps, k, n);
    }
    forall n, m | n in u.tasks && m in u.tasks && u.tasks[n].Recording? && u.tasks[m].Recording?
                  && u.tasks[n].jti == u.tasks[m].jti
      ensures n == m
    {
      OneRecorder(states, steps, k, n, m);
    }
    forall h | h in u.current && u.current[h].Some? && ReadBy(states, steps, k + 1, u.current[h].value)
      ensures Busy(u, h)
    {
      StillReading(states, steps, k, h);
    }
  }

  lemma {:induction false} CurrentBookRun(t: nat, states: seq<Tokens>, steps: seq<Step>, k: nat)
    requires IsRun(Init(t), states, steps) && k <= |steps|
    ensures CurrentBook(states, steps, k, states[k])
  {
    if k > 0 {
      CurrentBookRun(t, states, steps, k - 1);
      AccountsRun(t, states, steps, k - 1, false);
      RunStep(Init(t), states, steps, k - 1);
      CurrentBookStep(states, steps, k - 1);
    }
  }

  /** In every interleaving a member's current token is accepted once no call for it is under way. */
  lemma CurrentIsAccepted(t: nat, states: seq<Tokens>, steps: seq<Step>, k: nat, h: Holder, strict: bool)
    requires IsRun(Init(t), states, steps) && TimelyRun(states, steps, strict) && k <= |steps| && !Busy(states[k], h)
    requires CurrentOf(states[k], h).Some? && Young(states[k], CurrentOf(states[k], h).value, strict)
    ensures var jti := CurrentOf(states[k], h).value;
            states[k].issued[jti].holder == h && !ReadBy(states, steps, k, jti) && Accepts(states[k], jti)
  {
    AccountsRun(t, states, steps, k, strict);
    CurrentBookRun(t, states, steps, k);
    AcceptedIffUnread(t, states, steps, k, CurrentOf(states[k], h).value, strict);
  }

  // ----- Exactly when a member has one -----

  /** A token of the member that counts. */
  predicate Held(s: Tokens, h: Holder, jti: string, strict: bool) {
    Young(s, jti, strict) && s.issued[jti].holder == h
  }

  /**
   * In every interleaving, once no call for the member is under way: it has at most one accepted
   * token exactly if at most one of its tokens was never read by a rotation. (Tokens in the last
   * second of their lives count if rotations come in later seconds than the issuances they undo.)
   */
  lemma AtMostOneIff(t: nat, states: seq<Tokens>, steps: seq<Step>, k: nat, h: Holder, strict: bool)
    requires IsRun(Init(t), states, steps) && TimelyRun(states, steps, strict) && k <= |steps| && !Busy(states[k], h)
    ensures var s := states[k];
            (forall a, b | Held(s, h, a, strict) && Held(s, h, b, strict) :: Accepts(s, a) && Accepts(s, b) ==> a == b)
            <==> (forall a, b | Held(s, h, a, strict) && Held(s, h, b, strict) ::
                    !ReadBy(states, steps, k, a) && !ReadBy(states, steps, k, b) ==> a == b)
  {
    forall jti | Held(states[k], h, jti, strict)
      ensures Accepts(states[k], jti) <==> !ReadBy(states, steps, k, jti)
    {
      AcceptedIffUnread(t, states, steps, k, jti, strict);
    }
  }

  /** And its current token is the only one accepted exactly if every other was read by a rotation,
      that is, none was overwritten in the members table before a rotation had read it. */
  lemma OnlyCurrentIff(t: nat, states: seq<Tokens>, steps: seq<Step>, k: nat, h: Holder, strict: bool)
    requires IsRun(Init(t), states, steps) && TimelyRun(states, steps, strict) && k <= |steps| && !Busy(states[k], h)
    requires CurrentOf(states[k], h).Some? && Young(states[k], CurrentOf(states[k], h).value, strict)
    ensures var c := CurrentOf(states[k], h).value;
            (forall jti :: Held(states[k], h, jti, strict) ==> (Accepts(states[k], jti) <==> jti == c))
            <==> (forall jti :: Held(states[k], h, jti, strict) && jti != c ==> ReadBy(states, steps, k, jti))
  {
    CurrentIsAccepted(t, states, steps, k, h, strict);
    forall jti | Held(states[k], h, jti, strict)
      ensures Accepts(states[k], jti) <==> !ReadBy(states, steps, k, jti)
    {
      AcceptedIffUnread(t, states, steps, k, jti, strict);
    }
  }
}

/** What every step of the relay keeps, and the life cycle of a row over a whole run. */
module RelayInvariants {
  import opened Util
  import opened RelayModel

  ghost predicate RowOk(r: Row, now: int) {
    && r.createdAt <= now
    && (r.status.Pending? ==> r.deliveredAt.None?)
    && (r.status.Delivered? ==> r.deliveredAt.Some?)
    && (r.deliveredAt.Some? ==> r.createdAt <= r.deliveredAt.value <= now && r.deliveredAt.value < r.Deadline())
    && (r.ackedAt.Some? <==> r.status.Acked?)
  }

  ghost predicate IdsIncrease(rows: seq<Row>) {
    forall i, j :: 0 <= i < j < |rows| ==> rows[i].id < rows[j].id
  }

  ghost predicate KeysUnique(rows: seq<Row>) {
    forall i, j :: 0 <= i < j < |rows| ==> KeyOf(rows[i].req) != KeyOf(rows[j].req)
  }

  ghost predicate Inv(s: State) {
    && IdsIncrease(s.rows)
    && KeysUnique(s.rows)
    && (forall i :: 0 <= i < |s.rows| ==> s.rows[i].id < s.nextId && RowOk(s.rows[i], s.now))
  }

  lemma InvStep(s: State, step: Step)
    requires Inv(s)
    ensures Inv(Apply(s, step))
  {
    var t := Apply(s, step);
    forall i | 0 <= i < |s.rows| ensures t.rows[i].id == s.rows[i].id && t.rows[i].req == s.rows[i].req
                                 ensures RowOk(t.rows[i], t.now) {
    }
  }

  lemma {:induction false} InvRun(s: State, steps: seq<Step>)
    requires Inv(s)
    ensures Inv(Exec(s, steps))
  {
    if steps != [] {
      InvRun(s, steps[..|steps| - 1]);
      InvStep(Exec(s, steps[..|steps| - 1]), steps[|steps| - 1]);
    }
  }

  /** Ids strictly increase, keys are unique and the stored instants are consistent, always. */
  lemma ReachableInv(s: State)
    requires Reachable(s)
    ensures Inv(s)
  {
    var t, steps :| Valid(Init(t), steps) && s == Exec(Init(t), steps);
    InvRun(Init(t), steps);
  }

  // ----- Life cycle -----

  predicate Terminal(st: Status) { st.Acked? || st.Expired? }

  /** The arrows of the state diagram, with staying put. */
  predicate Moves(a: Status, b: Status) {
    a == b || (a.Pending? && !b.Pending?) || (a.Delivered? && Terminal(b))
  }

  /** b is a later state of the row a. */
  predicate Later(a: Row, b: Row) {
    && b.id == a.id && b.req == a.req && b.createdAt == a.createdAt
    && Moves(a.status, b.status)
    && (Terminal(a.status) ==> b == a)
  }

  ghost predicate RowsLater(a: seq<Row>, b: seq<Row>) {
    |a| <= |b| && forall k :: 0 <= k < |a| ==> Later(a[k], b[k])
  }

  lemma StepLater(s: State, step: Step)
    ensures RowsLater(s.rows, Apply(s, step).rows)
    ensures s.now <= Apply(s, step).now
  {
  }

  /** Between any two instants of a run no row is lost, moved, rewritten or revived. */
  lemma {:induction false} LifeCycle(s: State, steps: seq<Step>, i: nat, j: nat)
    requires i <= j <= |steps|
    ensures RowsLater(At(s, steps, i).rows, At(s, steps, j).rows)
    ensures At(s, steps, i).now <= At(s, steps, j).now
    decreases j
  {
    if i < j {
      LifeCycle(s, steps, i, j - 1);
      AtNext(s, steps, j - 1);
      StepLater(At(s, steps, j - 1), steps[j - 1]);
    }
  }

  // ----- Rows by id -----

  lemma IdIsIndex(s: State, i: nat, j: nat)
    requires Inv(s) && i < |s.rows| && j < |s.rows| && s.rows[i].id == s.rows[j].id
    ensures i == j
  {
    if i < j {
    } else if j < i {
    }
  }
}

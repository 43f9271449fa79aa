/** Concurrent create transactions, the duplicate check and the insert being
    separate steps, against the key and unique-email constraints of the table. */
module RacingCreates {
  import opened Domain
  import opened AccountTable

  /** A create transaction: past its check, past its insert, or neither. */
  datatype Tx = Idle | Checked(a: Account) | Inserted(a: Account)

  /** The committed rows and the transactions in flight. That the rows obey the
      constraints is a theorem here, not a type. */
  datatype State = State(rows: map<string, Account>, txs: map<nat, Tx>) {
    function At(tx: nat): Tx {
      if tx in txs then txs[tx] else Idle
    }

    function Move(tx: nat, to: Tx): State {
      this.(txs := txs[tx := to])
    }
  }

  datatype Step =
    | Check(tx: nat, a: Account, passes: bool)  // any verdict: it may be stale
    | Insert(tx: nat)
    | Commit(tx: nat)
    | Rollback(tx: nat)
    | Patch(p: UpdateParams)                    // an update commits
    | Remove(id: string)                        // a delete commits

  predicate Clash(a: Account, b: Account) {
    a.id == b.id || a.email == b.email
  }

  /** An insert waits for an uncommitted one it would clash with. */
  predicate Enabled(s: State, step: Step) {
    match step
    case Check(tx, _, _) => s.At(tx).Idle?
    case Insert(tx) =>
      && s.At(tx).Checked?
      && forall other :: other in s.txs && s.txs[other].Inserted? ==> !Clash(s.txs[other].a, s.At(tx).a)
    case Commit(tx) => s.At(tx).Inserted?
    case _ => true
  }

  /** The unique violation an insert meets. */
  predicate Violates(rows: map<string, Account>, a: Account) {
    a.id in rows || EmailTaken(rows, a.email)
  }

  function Next(s: State, step: Step): State
    requires Enabled(s, step)
  {
    match step
    case Check(tx, a, passes) => if passes then s.Move(tx, Checked(a)) else s
    case Insert(tx) =>
      var a := s.At(tx).a;
      if Violates(s.rows, a) then s.Move(tx, Idle) else s.Move(tx, Inserted(a))
    case Commit(tx) =>
      var a := s.At(tx).a;
      s.Move(tx, Idle).(rows := s.rows[a.id := a])
    case Rollback(tx) => s.Move(tx, Idle)
    case Patch(p) => if p.id in s.rows then s.(rows := s.rows[p.id := PatchRow(s.rows[p.id], p)]) else s
    case Remove(id) => s.(rows := s.rows - {id})
  }

  ghost predicate IsRun(run: seq<State>, steps: seq<Step>) {
    && |run| == |steps| + 1
    && Constrained(run[0].rows) && run[0].txs == map[]
    && forall i :: 0 <= i < |steps| ==> Enabled(run[i], steps[i]) && run[i + 1] == Next(run[i], steps[i])
  }

  /** The constraints hold, and every pending insert is free to commit: it
      clashes with no row and with no other pending insert. */
  ghost predicate Inv(s: State) {
    && Constrained(s.rows)
    && (forall tx :: tx in s.txs && s.txs[tx].Inserted? ==> !Violates(s.rows, s.txs[tx].a))
    && (forall tx, other | tx in s.txs && other in s.txs && tx != other && s.txs[tx].Inserted? && s.txs[other].Inserted? ::
          !Clash(s.txs[tx].a, s.txs[other].a))
  }

  lemma PatchKeepsEmails(rows: map<string, Account>, p: UpdateParams, email: string)
    requires p.id in rows
    ensures EmailTaken(rows[p.id := PatchRow(rows[p.id], p)], email) <==> EmailTaken(rows, email)
  {
    var rows' := rows[p.id := PatchRow(rows[p.id], p)];
    if id :| id in rows && rows[id].email == email { assert rows'[id].email == email; }
  }

  lemma PatchKeepsInv(s: State, p: UpdateParams)
    requires Inv(s) && p.id in s.rows
    ensures Inv(Next(s, Patch(p)))
  {
  }

  lemma CommitKeepsInv(s: State, tx: nat)
    requires Inv(s) && Enabled(s, Commit(tx))
    ensures Inv(Next(s, Commit(tx)))
  {
  }

  lemma StepKeepsInv(s: State, step: Step)
    requires Inv(s) && Enabled(s, step)
    ensures Inv(Next(s, step))
  {
    match step
    case Patch(p) => if p.id in s.rows { PatchKeepsInv(s, p); }
    case Commit(tx) => CommitKeepsInv(s, tx);
    case _ =>
  }

  /** In every reachable state ids and exact emails are unique, whatever the
      checks answered and however the transactions interleave. */
  lemma {:induction false} EmailsStayUnique(run: seq<State>, steps: seq<Step>, i: nat)
    requires IsRun(run, steps) && i < |run|
    ensures Inv(run[i]) && Constrained(run[i].rows)
    decreases i
  {
    if i > 0 {
      EmailsStayUnique(run, steps, i - 1);
      StepKeepsInv(run[i - 1], steps[i - 1]);
      assert run[i - 1 + 1] == Next(run[i - 1], steps[i - 1]);
    }
  }

  /** What each step makes of the committed rows: checks, inserts and rollbacks
      nothing, a commit adds its row, an update patches one, a delete removes one. */
  lemma StepsChangeRows(s: State, step: Step)
    requires Inv(s) && Enabled(s, step)
    ensures var (rows, rows') := (s.rows, Next(s, step).rows);
      match step
      case Commit(tx) =>
        var a := s.At(tx).a;
        a.id !in rows && !EmailTaken(rows, a.email) && rows'.Keys == rows.Keys + {a.id} && rows'[a.id] == a
        && forall id :: id in rows ==> rows'[id] == rows[id]
      case Patch(p) =>
        rows'.Keys == rows.Keys && (forall id :: id in rows && id != p.id ==> rows'[id] == rows[id])
        && (p.id in rows ==> rows'[p.id] == PatchRow(rows[p.id], p))
      case Remove(id) => rows'.Keys == rows.Keys - {id} && forall other :: other in rows' ==> rows'[other] == rows[other]
      case _ => rows' == rows
  {
  }

  /** A refused create never inserts. Nothing keeps a transaction from ending:
      checked and free of a pending clash it may insert, and goes in exactly when
      no row clashes; inserted it may commit or roll back. */
  lemma CreatesCanEnd(s: State, tx: nat, a: Account)
    ensures s.At(tx).Idle? ==> Enabled(s, Check(tx, a, false)) && Next(s, Check(tx, a, false)) == s
    ensures Enabled(s, Rollback(tx)) && Next(s, Rollback(tx)).At(tx).Idle?
    ensures s.At(tx).Inserted? ==> Enabled(s, Commit(tx)) && Next(s, Commit(tx)).At(tx).Idle?
    ensures s.At(tx).Checked? && (forall other :: other in s.txs ==> !s.txs[other].Inserted?) ==>
      && Enabled(s, Insert(tx))
      && (Next(s, Insert(tx)).At(tx) == Inserted(s.At(tx).a) <==>
            s.At(tx).a.id !in s.rows && !EmailTaken(s.rows, s.At(tx).a.email))
  {
  }

  // ---- counting ----

  function Present(rows: map<string, Account>, email: string): nat {
    if EmailTaken(rows, email) then 1 else 0
  }

  /** This step is a successful create of the email. */
  predicate Creates(s: State, step: Step, email: string) {
    step.Commit? && s.At(step.tx).Inserted? && s.At(step.tx).a.email == email
  }

  /** This step is a delete of the row with the email. */
  predicate Deletes(s: State, step: Step, email: string) {
    step.Remove? && step.id in s.rows && s.rows[step.id].email == email
  }

  function Created(run: seq<State>, steps: seq<Step>, n: nat, email: string): nat
    requires n <= |steps| <= |run|
  {
    if n == 0 then 0
    else Created(run, steps, n - 1, email) + if Creates(run[n - 1], steps[n - 1], email) then 1 else 0
  }

  function Deleted(run: seq<State>, steps: seq<Step>, n: nat, email: string): nat
    requires n <= |steps| <= |run|
  {
    if n == 0 then 0
    else Deleted(run, steps, n - 1, email) + if Deletes(run[n - 1], steps[n - 1], email) then 1 else 0
  }

  lemma StepBalance(s: State, step: Step, email: string)
    requires Inv(s) && Enabled(s, step)
    ensures Present(Next(s, step).rows, email) + (if Deletes(s, step, email) then 1 else 0)
         == Present(s.rows, email) + (if Creates(s, step, email) then 1 else 0)
  {
    var s' := Next(s, step);
    match step
    case Patch(p) => if p.id in s.rows { PatchKeepsEmails(s.rows, p, email); }
    case Commit(tx) =>
      var a := s.At(tx).a;
      assert s'.rows[a.id].email == a.email;
      assert a.id !in s.rows;
      if a.email != email && EmailTaken(s.rows, email) {
        var id :| id in s.rows && s.rows[id].email == email;
        assert s'.rows[id].email == email;
      }
    case Remove(id) =>
      if other :| other in s.rows && s.rows[other].email == email && other != id {
        assert s'.rows[other].email == email;
      }
    case _ =>
  }

  /** Conservation, for every exact email and any stretch of any run: creates that
      succeeded less rows deleted is the change in presence, which is 0 or 1. */
  lemma {:induction false} CreatesBalance(run: seq<State>, steps: seq<Step>, n: nat, email: string)
    requires IsRun(run, steps) && n <= |steps|
    ensures Present(run[n].rows, email) + Deleted(run, steps, n, email)
         == Present(run[0].rows, email) + Created(run, steps, n, email)
    decreases n
  {
    if n > 0 {
      CreatesBalance(run, steps, n - 1, email);
      EmailsStayUnique(run, steps, n - 1);
      StepBalance(run[n - 1], steps[n - 1], email);
      assert run[n - 1 + 1] == Next(run[n - 1], steps[n - 1]);
    }
  }

  /** Between deletes of the email at most one create of it succeeds, and none if
      it was present, even when several passed the check. */
  lemma OneWinnerBetweenDeletes(run: seq<State>, steps: seq<Step>, m: nat, n: nat, email: string)
    requires IsRun(run, steps) && m <= n <= |steps|
    requires Deleted(run, steps, n, email) == Deleted(run, steps, m, email)
    ensures Created(run, steps, n, email) - Created(run, steps, m, email) <= 1 - Present(run[m].rows, email)
  {
    CreatesBalance(run, steps, m, email);
    CreatesBalance(run, steps, n, email);
  }

  /** The race itself: two creates of one email look at the committed rows, which
      have no row of it, and so pass the check before either has inserted; one
      commits, the other is refused by the constraint. */
  lemma BothPassOneWins(a: Account, b: Account) returns (run: seq<State>, steps: seq<Step>)
    requires a.email == b.email && a.id != b.id
    ensures IsRun(run, steps) && |steps| == 5
    ensures steps[0] == Check(0, a, !EmailTaken(run[0].rows, a.email))
    ensures steps[1] == Check(1, b, !EmailTaken(run[1].rows, b.email))
    ensures run[2].At(0) == Checked(a) && run[2].At(1) == Checked(b) && run[2].rows == map[]
    ensures run[5].rows == map[a.id := a] && run[5].At(1).Idle?
    ensures Created(run, steps, 5, a.email) == 1
  {
    steps := [Check(0, a, true), Check(1, b, true), Insert(0), Commit(0), Insert(1)];
    run := [
      State(map[], map[]),
      State(map[], map[0 := Checked(a)]),
      State(map[], map[0 := Checked(a), 1 := Checked(b)]),
      State(map[], map[0 := Inserted(a), 1 := Checked(b)]),
      State(map[a.id := a], map[0 := Idle, 1 := Checked(b)]),
      State(map[a.id := a], map[0 := Idle, 1 := Idle])];
    assert run[4].rows[a.id].email == b.email;
    forall i | 0 <= i < 5 ensures Enabled(run[i], steps[i]) && run[i + 1] == Next(run[i], steps[i]) {
    }
    assert run[5].rows[a.id].email == a.email;
    CreatesBalance(run, steps, 5, a.email);
    NoRemoveNoDelete(run, steps, 5, a.email);
  }

  lemma {:induction false} NoRemoveNoDelete(run: seq<State>, steps: seq<Step>, n: nat, email: string)
    requires n <= |steps| <= |run| && forall i :: 0 <= i < n ==> !steps[i].Remove?
    ensures Deleted(run, steps, n, email) == 0
    decreases n
  {
    if n > 0 {
      NoRemoveNoDelete(run, steps, n - 1, email);
    }
  }
}

/** The accounts table every backend implements: rows under their primary key,
    with the emails unique by exact comparison. */
module AccountTable {
  import opened Domain

  /** The primary-key and unique-email constraints. */
  ghost predicate Constrained(t: map<string, Account>) {
    && (forall id :: id in t ==> t[id].id == id)
    && (forall a, b :: a in t && b in t && t[a].email == t[b].email ==> a == b)
  }

  /** A table the database accepts: every write below has to keep both
      constraints for its result to be a Table. */
  type Table = t: map<string, Account> | Constrained(t) witness map[]

  predicate EmailTaken(t: map<string, Account>, email: string) {
    exists id :: id in t && t[id].email == email
  }

  /** The single row a read selects; emails are compared exactly. */
  function Find(t: Table, q: Query): (r: Option<Account>)
    ensures r.Some? ==> r.value.id in t && t[r.value.id] == r.value && Answers(r.value, q)
    ensures r.Some? ==> (q.ByEmail? ==> r.value.email == q.email)
    ensures r.None? <==> (match q case ById(id) => id !in t case ByEmail(e) => !EmailTaken(t, e))
  {
    match q
    case ById(id) => if id in t then Some(t[id]) else None
    case ByEmail(email) =>
      if EmailTaken(t, email) then
        var id :| id in t && t[id].email == email;
        Some(t[id])
      else None
  }

  /** None is a unique violation, on the key or on the email. */
  function Insert(t: Table, a: Account): Option<Table> {
    if a.id in t || EmailTaken(t, a.email) then None else Some(t[a.id := a])
  }

  function PatchRow(a: Account, p: UpdateParams): Account {
    a.(firstName := p.firstName.GetOr(a.firstName),
       lastName := p.lastName.GetOr(a.lastName),
       status := p.status.GetOr(a.status),
       updatedAt := p.updatedAt)
  }

  /** None means zero affected rows. */
  function Patch(t: Table, p: UpdateParams): Option<Table> {
    if p.id in t then Some(t[p.id := PatchRow(t[p.id], p)]) else None
  }

  function Remove(t: Table, id: string): Option<Table> {
    if id in t then Some(t - {id}) else None
  }

  /** What each write makes of a table: exactly one row is added, patched or
      removed, and only if the constraints and the row are there. */
  lemma WritesExact(t: Table, a: Account, p: UpdateParams, id: string)
    ensures Insert(t, a).None? <==> a.id in t || exists other :: other in t && t[other].email == a.email
    ensures Insert(t, a).Some? ==>
      var t' := Insert(t, a).value;
      && t'.Keys == t.Keys + {a.id} && t'[a.id] == a && forall other :: other in t ==> t'[other] == t[other]
    ensures Remove(t, id).Some? <==> id in t
    ensures id in t ==>
      var t' := Remove(t, id).value;
      t'.Keys == t.Keys - {id} && forall other :: other in t' ==> t'[other] == t[other]
    ensures Patch(t, p).Some? <==> p.id in t
    ensures p.id in t ==>
      var (before, t') := (t[p.id], Patch(t, p).value);
      && t' == t[p.id := t'[p.id]]
      && var after := t'[p.id];
      && after.firstName == (if p.firstName.Some? then p.firstName.value else before.firstName)
      && after.lastName == (if p.lastName.Some? then p.lastName.value else before.lastName)
      && after.status == (if p.status.Some? then p.status.value else before.status)
      && after.updatedAt == p.updatedAt
      && after.id == before.id && after.email == before.email && after.passwordHash == before.passwordHash
      && after.createdAt == before.createdAt && after.deletedAt == before.deletedAt
  {
  }

  /** The update that wins where both speak: the later one. */
  function Merge(p: UpdateParams, q: UpdateParams): UpdateParams {
    UpdateParams(q.id,
                 if q.firstName.Some? then q.firstName else p.firstName,
                 if q.lastName.Some? then q.lastName else p.lastName,
                 if q.status.Some? then q.status else p.status,
                 q.updatedAt)
  }

  /** The fold of any number of updates of one row is a single merged update. */
  function PatchAll(t: Table, ps: seq<UpdateParams>): Option<Table> {
    if ps == [] then Some(t)
    else match Patch(t, ps[0])
         case None => None
         case Some(t') => PatchAll(t', ps[1..])
  }

  function MergeAll(ps: seq<UpdateParams>): UpdateParams
    requires ps != []
  {
    if |ps| == 1 then ps[0] else Merge(ps[0], MergeAll(ps[1..]))
  }

  lemma {:induction false} UpdatesMerge(t: Table, ps: seq<UpdateParams>, id: string)
    requires ps != [] && forall p :: p in ps ==> p.id == id
    ensures PatchAll(t, ps) == Patch(t, MergeAll(ps))
    ensures MergeAll(ps).id == id
    decreases ps
  {
    if |ps| == 1 {
      assert ps[1..] == [];
      assert ps[0] in ps;
    } else {
      assert ps[0] in ps && forall p :: p in ps[1..] ==> p in ps;
      if id in t {
        var t1 := Patch(t, ps[0]).value;
        UpdatesMerge(t1, ps[1..], id);
        var q := MergeAll(ps[1..]);
        assert PatchRow(t1[id], q) == PatchRow(t[id], Merge(ps[0], q));
        assert t1[id := PatchRow(t1[id], q)] == t[id := PatchRow(t1[id], q)];
      } else {
        UpdatesMerge(t, ps[1..], id);
      }
    }
  }
}
